/**
 * Escrow and payment posting to one ledger, statement by statement: the balances of the account kinds, in
 * each currency, in every interleaving of the two services' transactions.
 */
module JointLedger {
  import opened Basics
  import opened Ledger
  import P = PaymentModel
  import E = EscrowModel
  import PC = PaymentConcurrency
  import EC = EscrowConcurrency
  import EscrowBooks
  import Serial

  datatype Step = Pay(pay: PC.Step) | Esc(esc: EC.Step)

  /** Both services with their open transactions, and the shared transactions table in the order of the commits. */
  datatype Sys = Sys(pay: PC.Sys, esc: EC.Sys, ledger: seq<Leg>)

  const BOOT := Sys(PC.BOOT, EC.BOOT, [])

  ghost predicate Enabled(s: Sys, step: Step) {
    match step
    case Pay(p) => PC.Enabled(s.pay, p)
    case Esc(e) => EC.Enabled(s.esc, e)
  }

  /** A commit of one service appends to the shared table what it appends to its own part of it. */
  function Next(s: Sys, step: Step): Sys
    requires Enabled(s, step)
  {
    match step
    case Pay(p) =>
      var pay := PC.Next(s.pay, p);
      s.(pay := pay, ledger := s.ledger + NewRows(s.pay.db.ledger, pay.db.ledger))
    case Esc(e) =>
      var esc := EC.Next(s.esc, e);
      s.(esc := esc, ledger := s.ledger + NewRows(s.esc.db.ledger, esc.db.ledger))
  }

  function NewRows(before: seq<Leg>, after: seq<Leg>): seq<Leg> {
    if |before| <= |after| then after[|before|..] else []
  }

  ghost predicate Reaches(s: Sys, steps: seq<Step>)
    decreases |steps|
  {
    if steps == [] then s == BOOT
    else
      var last := steps[|steps| - 1];
      exists before :: Reaches(before, steps[..|steps| - 1]) && Enabled(before, last) && s == Next(before, last)
  }

  function PaySteps(steps: seq<Step>): seq<PC.Step> {
    if steps == [] then []
    else PaySteps(steps[..|steps| - 1]) + if steps[|steps| - 1].Pay? then [steps[|steps| - 1].pay] else []
  }

  function EscSteps(steps: seq<Step>): seq<EC.Step> {
    if steps == [] then []
    else EscSteps(steps[..|steps| - 1]) + if steps[|steps| - 1].Esc? then [steps[|steps| - 1].esc] else []
  }

  /** What was ever captured in a currency, or in all. */
  function Captured(payments: seq<P.Payment>, currency: Option<string>): int {
    if payments == [] then 0
    else Captured(payments[..|payments| - 1], currency) + CapturedOf(payments[|payments| - 1], currency)
  }

  function CapturedOf(p: P.Payment, currency: Option<string>): int {
    if p.status.Succeeded? && IsIn(p.currency, currency) then p.amount else 0
  }

  /** No step of either service takes rows of the ledger back. */
  lemma LedgersOnlyGrow(s: Sys, step: Step)
    requires Enabled(s, step)
    ensures step.Pay? ==> s.pay.db.ledger <= PC.Next(s.pay, step.pay).db.ledger
    ensures step.Esc? ==> s.esc.db.ledger <= EC.Next(s.esc, step.esc).db.ledger
  {
    hide PC.Statement, EC.Statement, EC.Seen, EC.CommitReply, PC.CommitReply, E.Put;
  }

  lemma NewRowsTotal(before: seq<Leg>, after: seq<Leg>, f: Filter)
    requires before <= after
    ensures Total(after, f) == Total(before, f) + Total(NewRows(before, after), f)
  {
    assert after == before + NewRows(before, after);
    TotalAppend(before, NewRows(before, after), f);
  }

  lemma PayTakes(s: PC.Sys, steps: seq<PC.Step>, step: PC.Step)
    requires PC.Reaches(s, steps) && PC.Enabled(s, step)
    ensures PC.Reaches(PC.Next(s, step), steps + [step])
  {
    hide PC.Next, PC.Enabled;
    var all := steps + [step];
    assert all[..|all| - 1] == steps && all[|all| - 1] == step;
    assert PC.Reaches(s, all[..|all| - 1]) && PC.Enabled(s, all[|all| - 1]);
  }

  lemma EscTakes(s: EC.Sys, steps: seq<EC.Step>, step: EC.Step)
    requires EC.Reaches(s, steps) && EC.Enabled(s, step)
    ensures EC.Reaches(EC.Next(s, step), steps + [step])
  {
    hide EC.Next, EC.Enabled;
    var all := steps + [step];
    assert all[..|all| - 1] == steps && all[|all| - 1] == step;
    assert EC.Reaches(s, all[..|all| - 1]) && EC.Enabled(s, all[|all| - 1]);
  }

  /** The shared table holds the rows of both services. */
  ghost predicate Shared(s: Sys, f: Filter) {
    Total(s.ledger, f) == Total(s.pay.db.ledger, f) + Total(s.esc.db.ledger, f)
  }

  lemma StepKeepsShared(s: Sys, step: Step, f: Filter)
    requires Enabled(s, step) && Shared(s, f)
    ensures Shared(Next(s, step), f)
  {
    LedgersOnlyGrow(s, step);
    hide PC.Next, EC.Next, PC.Enabled, EC.Enabled, Total, NewRows;
    match step
    case Pay(p) =>
      NewRowsTotal(s.pay.db.ledger, PC.Next(s.pay, p).db.ledger, f);
      TotalAppend(s.ledger, NewRows(s.pay.db.ledger, PC.Next(s.pay, p).db.ledger), f);
    case Esc(e) =>
      NewRowsTotal(s.esc.db.ledger, EC.Next(s.esc, e).db.ledger, f);
      TotalAppend(s.ledger, NewRows(s.esc.db.ledger, EC.Next(s.esc, e).db.ledger), f);
  }

  lemma StepsSplit(steps: seq<Step>, step: Step)
    ensures PaySteps(steps + [step]) == PaySteps(steps) + if step.Pay? then [step.pay] else []
    ensures EscSteps(steps + [step]) == EscSteps(steps) + if step.Esc? then [step.esc] else []
  {
    assert (steps + [step])[..|steps|] == steps;
  }

  /** Each service runs as if it were alone. */
  lemma {:induction false} PartsRunAlone(s: Sys, steps: seq<Step>, f: Filter)
    requires Reaches(s, steps)
    ensures PC.Reaches(s.pay, PaySteps(steps)) && EC.Reaches(s.esc, EscSteps(steps)) && Shared(s, f)
    decreases |steps|
  {
    if steps == [] {
      Begins();
    } else {
      var before, last := LastStep(s, steps);
      var init := steps[..|steps| - 1];
      hide *;
      PartsRunAlone(before, init, f);
      StepKeepsShared(before, last, f);
      StepKeepsParts(before, init, last);
    }
  }

  lemma LastStep(s: Sys, steps: seq<Step>) returns (before: Sys, last: Step)
    requires Reaches(s, steps) && steps != []
    ensures var init := steps[..|steps| - 1];
      Reaches(before, init) && Enabled(before, last) && s == Next(before, last) && init + [last] == steps
  {
    hide Next, Enabled;
    last := steps[|steps| - 1];
    before :| Reaches(before, steps[..|steps| - 1]) && Enabled(before, last) && s == Next(before, last);
  }

  lemma StepKeepsParts(s: Sys, steps: seq<Step>, step: Step)
    requires Enabled(s, step) && PC.Reaches(s.pay, PaySteps(steps)) && EC.Reaches(s.esc, EscSteps(steps))
    ensures var after := Next(s, step);
      PC.Reaches(after.pay, PaySteps(steps + [step])) && EC.Reaches(after.esc, EscSteps(steps + [step]))
  {
    StepsSplit(steps, step);
    hide PC.Next, EC.Next, PC.Enabled, EC.Enabled, PC.Reaches, EC.Reaches, PaySteps, EscSteps, NewRows;
    if step.Pay? {
      PayTakes(s.pay, PaySteps(steps), step.pay);
      assert EscSteps(steps) + [] == EscSteps(steps);
    } else {
      EscTakes(s.esc, EscSteps(steps), step.esc);
      assert PaySteps(steps) + [] == PaySteps(steps);
    }
  }

  lemma Begins()
    ensures PC.Reaches(PC.BOOT, []) && EC.Reaches(EC.BOOT, [])
  {
  }

  lemma {:induction false} CapturedUpdate(payments: seq<P.Payment>, id: nat, p: P.Payment, currency: Option<string>)
    requires id < |payments|
    ensures Captured(payments[id := p], currency)
      == Captured(payments, currency) - CapturedOf(payments[id], currency) + CapturedOf(p, currency)
  {
    hide CapturedOf;
    var n := |payments| - 1;
    if id == n {
      assert payments[id := p][..n] == payments[..n];
    } else {
      assert payments[id := p][..n] == payments[..n][id := p];
      CapturedUpdate(payments[..n], id, p, currency);
    }
  }

  /** The payment service's part of a balance. */
  function PayShare(payments: seq<P.Payment>, kind: AccountKind, currency: Option<string>): int {
    match kind
    case Escrow => Captured(payments, currency)
    case StripeClearing => -Captured(payments, currency)
    case _ => 0
  }

  ghost predicate PaysRight(db: P.Db, kind: AccountKind, currency: Option<string>) {
    Total(db.ledger, OfKind(kind, currency)) == PayShare(db.payments, kind, currency)
  }

  lemma CaptureMoves(db: P.Db, id: nat, kind: AccountKind, currency: Option<string>)
    requires id < |db.payments| && db.payments[id].status.Processing? && PaysRight(db, kind, currency)
    ensures PaysRight(P.Capture(db, id), kind, currency)
  {
    var p := db.payments[id];
    TotalAppend(db.ledger, P.DepositLegs(db.groups, id, p), OfKind(kind, currency));
    P.DepositTotals(db.groups, id, p, OfKind(kind, currency));
    CapturedUpdate(db.payments, id, p.(status := P.Succeeded), currency);
    hide P.DepositLegs;
  }

  lemma {:induction false} PaymentBalances(ops: seq<P.Op>, kind: AccountKind, currency: Option<string>)
    ensures PaysRight(P.Exec(P.EMPTY, ops), kind, currency)
  {
    if ops != [] {
      var db, op := P.Exec(P.EMPTY, ops[..|ops| - 1]), ops[|ops| - 1];
      PaymentBalances(ops[..|ops| - 1], kind, currency);
      StepKeepsBalances(db, op, kind, currency);
    }
  }

  lemma StepKeepsBalances(db: P.Db, op: P.Op, kind: AccountKind, currency: Option<string>)
    requires PaysRight(db, kind, currency)
    ensures PaysRight(P.Apply(db, op).0, kind, currency)
  {
    hide P.Capture, PayShare, Total;
    match op
    case Create(_, _, _, _, _, _) => CreateMovesNothing(db, op, kind, currency);
    case Confirm(id) =>
      if id < |db.payments| && db.payments[id].status.Processing? {
        CaptureMoves(db, id, kind, currency);
      }
    case Webhook(_, _, intent) =>
      var found := P.FindIntent(db.payments, intent);
      if found.Some? && db.payments[found.value].status.Processing? {
        CaptureMoves(db, found.value, kind, currency);
      }
  }

  lemma CreateMovesNothing(db: P.Db, op: P.Op, kind: AccountKind, currency: Option<string>)
    requires op.Create?
    ensures P.ApplyCreate(db, op).0.ledger == db.ledger
    ensures PayShare(P.ApplyCreate(db, op).0.payments, kind, currency) == PayShare(db.payments, kind, currency)
  {
    assert (db.payments + [P.NewPayment(op)])[..|db.payments|] == db.payments;
  }

  /** A balance is the sum of what the payments say and what the escrow service's rows say. */
  ghost predicate Halves(s: Sys, kind: AccountKind, currency: Option<string>) {
    Total(s.ledger, OfKind(kind, currency))
      == PayShare(s.pay.db.payments, kind, currency) + Total(s.esc.db.ledger, OfKind(kind, currency))
  }

  lemma EveryBalanceHasHalves(s: Sys, steps: seq<Step>, kind: AccountKind, currency: Option<string>)
    requires Reaches(s, steps)
    ensures Halves(s, kind, currency)
  {
    PartsRunAlone(s, steps, OfKind(kind, currency));
    PC.EveryInterleavingIsSerial(s.pay, PaySteps(steps));
    PaymentBalances(Serial.Calls(s.pay.done), kind, currency);
    hide Reaches, PC.Reaches, EC.Reaches, P.Exec, Total, PayShare;
  }

  lemma EscrowAgrees(s: EC.Sys, steps: seq<EC.Step>, currency: Option<string>)
    requires EC.Reaches(s, steps)
    ensures EscrowBooks.KindsAgree(s.db, currency)
  {
    EC.EveryInterleavingKeepsTheBooks(s, steps);
    hide EC.Reaches, EscrowBooks.KindsAgree, EscrowBooks.AllSolvent, EscrowBooks.PaysOnce;
  }

  /**
   * The two escrow account kinds together hold what was captured and neither released nor refunded; what was
   * released is the freelancers' balance, what was refunded is the refunds account, client funding nets to zero
   * and Stripe's clearing account mirrors the captures.
   */
  ghost predicate Conserved(s: Sys, currency: Option<string>) {
    var captured, released, refunded := Captured(s.pay.db.payments, currency),
      EscrowBooks.ColumnSum(s.esc.db.accounts, EscrowBooks.ReleasedCents, currency),
      EscrowBooks.ColumnSum(s.esc.db.accounts, EscrowBooks.RefundedCents, currency);
    && Total(s.ledger, OfKind(Escrow, currency)) + Total(s.ledger, OfKind(EscrowContract, currency))
         == captured - released - refunded
    && Total(s.ledger, OfKind(FreelancerBalance, currency)) == released
    && Total(s.ledger, OfKind(Refunds, currency)) == refunded
    && Total(s.ledger, OfKind(ClientFunding, currency)) == 0
    && Total(s.ledger, OfKind(StripeClearing, currency)) == -captured
  }

  /** Conservation in every interleaving of both services, in each currency and over all of them. */
  lemma {:induction false} MoneyIsConserved(s: Sys, steps: seq<Step>, currency: Option<string>)
    requires Reaches(s, steps)
    ensures Conserved(s, currency)
  {
    hide *;
    PartsRunAlone(s, steps, All);
    EscrowAgrees(s.esc, EscSteps(steps), currency);
    forall kind: AccountKind ensures Halves(s, kind, currency) { EveryBalanceHasHalves(s, steps, kind, currency); }
    AddUp(s, currency);
  }

  lemma AddUp(s: Sys, currency: Option<string>)
    requires EscrowBooks.KindsAgree(s.esc.db, currency)
    requires forall kind: AccountKind :: Halves(s, kind, currency)
    ensures Conserved(s, currency)
  {
    hide Total, Captured, EscrowBooks.ColumnSum;
    assert Halves(s, Escrow, currency) && Halves(s, EscrowContract, currency) && Halves(s, FreelancerBalance, currency);
    assert Halves(s, Refunds, currency) && Halves(s, ClientFunding, currency) && Halves(s, StripeClearing, currency);
  }
}
