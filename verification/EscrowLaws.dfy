/**
 * What each escrow call answers and does, in terms of the tables before it and its own arguments, wherever
 * accounts are solvent (as after every run); and what a whole run puts into an account and takes out of it.
 */
module EscrowLaws {
  import opened Basics
  import opened Ledger
  import opened EscrowModel
  import opened EscrowBooks

  /** One movement: the row of an account, a balanced pair of ledger rows, and one event. */
  ghost predicate Moves(db: Db, after: Db, id: nat, a: Account, debit: Leg, credit: Leg, event: Event) {
    && OnlyAccount(db, after, id, a)
    && after.ledger == db.ledger + [debit, credit] && after.outbox == db.outbox + [event]
    && after.groups == db.groups + 1
  }

  /** The account is stored, and every other stays as it was. */
  ghost predicate OnlyAccount(db: Db, after: Db, id: nat, a: Account) {
    && id < |after.accounts| && after.accounts[id] == a
    && |after.accounts| == (if id < |db.accounts| then |db.accounts| else |db.accounts| + 1)
    && forall i :: 0 <= i < |db.accounts| && i != id ==> after.accounts[i] == db.accounts[i]
  }

  /** The contract's account, or the one that its first funding opens. */
  ghost predicate AccountFor(db: Db, contract: string, currency: string, id: nat, a: Account) {
    if id < |db.accounts| then a == db.accounts[id] && a.row.contract == contract
    else
      && id == |db.accounts| && (forall i :: 0 <= i < |db.accounts| ==> db.accounts[i].row.contract != contract)
      && a == Account(Row(contract, if currency == "" then "USD" else currency, 0, 0, 0, StatusHeld), [], {})
  }

  lemma AccountIsFound(db: Db, contract: string, currency: string, id: nat, a: Account)
    requires AllSolvent(db.accounts) && AccountFor(db, contract, currency, id, a)
    ensures FindContract(db.accounts, contract) == if id < |db.accounts| then Some(id) else None
  {
    var found := FindContract(db.accounts, contract);
    if found.Some? {
      assert db.accounts[found.value].row.contract == contract;
    }
  }

  /** A positive amount under an unused key is credited in full; a used key or another amount changes nothing. */
  lemma FundingCredits(db: Db, op: Op, id: nat, a: Account)
    requires AllSolvent(db.accounts) && op.Fund? && AccountFor(db, op.contract, op.currency, id, a)
    ensures var (after, reply) := Apply(db, op);
      if op.amount <= 0 then after == db && reply == Failed(BadAmount)
      else if op.key != "" && op.key in a.fundKeys then after == db && reply == GotEscrow(id, a.row)
      else
        var row := a.row.(held := a.row.held + op.amount);
        && reply == GotEscrow(id, row)
        && Moves(db, after, id, Account(row, a.allocs, if op.key == "" then a.fundKeys else a.fundKeys + {op.key}),
             Leg(db.groups, EscrowHold, AccountKind.Escrow, None, None, -op.amount, row.currency, None),
             Leg(db.groups, EscrowHold, EscrowContract, Some(id), Some(op.contract), op.amount, row.currency, None),
             FundedEvent(id, op.contract, op.amount, row.held))
        && Total(after.ledger, OfRef(id)) == Total(db.ledger, OfRef(id)) + op.amount
  {
    AccountIsFound(db, op.contract, op.currency, id, a);
    hide AllSolvent, FindContract, Total;
    var after := Apply(db, op).0;
    if op.amount > 0 && !(op.key != "" && op.key in a.fundKeys) {
      var d := Leg(db.groups, EscrowHold, AccountKind.Escrow, None, None, -op.amount, a.row.currency, None);
      var c := Leg(db.groups, EscrowHold, EscrowContract, Some(id), Some(op.contract), op.amount, a.row.currency, None);
      assert after.ledger == db.ledger + Pair(d, c);
      TotalPair(db.ledger, d, c, OfRef(id));
    }
  }

  /** Allocation i is for this target and was not refunded. */
  ghost predicate Taken(a: Account, t: Target, i: nat) {
    i < |a.allocs| && a.allocs[i].target == t && !a.allocs[i].status.Refunded?
  }

  /** A target is taken at most once. */
  lemma TakenIsActive(a: Account, t: Target)
    requires Solvent(a)
    ensures forall i: nat :: Taken(a, t, i) <==> FindActive(a.allocs, t) == Some(i)
  {
    forall i: nat | Taken(a, t, i) ensures FindActive(a.allocs, t) == Some(i) { FindActiveUnique(a.allocs, i, t); }
  }

  /** A milestone is reserved once, with the amount asked for, if that much is held and not reserved. */
  lemma AllocationReserves(db: Db, op: Op)
    requires AllSolvent(db.accounts) && op.Allocate?
    ensures var (after, reply) := Apply(db, op);
      && (op.amount <= 0 ==> after == db && reply == Failed(BadAmount))
      && (op.amount > 0 && op.escrow >= |db.accounts| ==> after == db && reply == Failed(NotFound))
      && (op.amount > 0 && op.escrow < |db.accounts| ==>
            var (a, t) := (db.accounts[op.escrow], Milestone(op.milestone));
            && (forall i: nat :: Taken(a, t, i) ==> after == db && reply == GotAllocation(a.allocs[i]))
            && ((forall i: nat :: !Taken(a, t, i)) ==>
                  if op.amount > a.row.held - AllocSum(a.allocs, Held)
                  then after == db && reply == Failed(InsufficientFunds)
                  else
                    && reply == GotAllocation(Allocation(t, op.amount, Held))
                    && OnlyAccount(db, after, op.escrow, a.(allocs := a.allocs + [Allocation(t, op.amount, Held)]))
                    && after.ledger == db.ledger && after.outbox == db.outbox))
  {
    if op.escrow < |db.accounts| {
      var a, t := db.accounts[op.escrow], Milestone(op.milestone);
      TakenIsActive(a, t);
      assert FindActive(a.allocs, t).Some? ==> Taken(a, t, FindActive(a.allocs, t).value);
    }
    hide AllSolvent, Solvent, FindActive, AllocSum, Taken;
  }

  /** The row of an account that has paid out this amount. */
  function PaidOut(row: Row, amount: int): Row {
    row.(held := row.held - amount, released := row.released + amount,
         status := if row.held - amount == 0 then StatusReleased else StatusPartiallyReleased)
  }

  ghost predicate PaysFreelancer(db: Db, after: Db, id: nat, allocs: seq<Allocation>, amount: int, t: Target)
    requires id < |db.accounts|
  {
    var a := db.accounts[id];
    Moves(db, after, id, Account(PaidOut(a.row, amount), allocs, a.fundKeys),
      Leg(db.groups, EscrowRelease, AccountKind.Escrow, Some(id), Some(a.row.contract), -amount, a.row.currency, None),
      Leg(db.groups, EscrowRelease, FreelancerBalance, None, Some(a.row.contract), amount, a.row.currency, None),
      ReleasedEvent(id, a.row.contract, amount, t))
  }

  lemma HeldIsFound(a: Account, t: Target)
    requires Solvent(a)
    ensures forall i: nat :: (Taken(a, t, i) && a.allocs[i].status.Held?) <==> FindHeld(a.allocs, t) == Some(i)
    ensures FindHeld(a.allocs, t).Some? ==>
      a.allocs[FindHeld(a.allocs, t).value].amount <= AllocSum(a.allocs, Held) <= a.row.held
  {
    forall i: nat | Taken(a, t, i) && a.allocs[i].status.Held? ensures FindHeld(a.allocs, t) == Some(i) {
      var j := FindHeld(a.allocs, t).value;
      assert a.allocs[j].target == a.allocs[i].target;
    }
    if FindHeld(a.allocs, t).Some? {
      HeldAllocationIsCovered(a, t);
    }
  }

  /** A milestone's held allocation is paid, in its own amount; without one nothing is. */
  lemma MilestoneReleasePays(db: Db, op: Op)
    requires AllSolvent(db.accounts) && op.ReleaseMilestone?
    ensures var (after, reply) := Apply(db, op);
      && (op.escrow >= |db.accounts| ==> after == db && reply == Failed(NotFound))
      && (op.escrow < |db.accounts| ==>
            var (a, t) := (db.accounts[op.escrow], Milestone(op.milestone));
            && ((forall i: nat :: !(Taken(a, t, i) && a.allocs[i].status.Held?)) ==>
                  after == db && reply == Failed(NotFound))
            && (forall i: nat :: Taken(a, t, i) && a.allocs[i].status.Held? ==>
                  var amount := a.allocs[i].amount;
                  && reply == GotEscrow(op.escrow, PaidOut(a.row, amount))
                  && PaysFreelancer(db, after, op.escrow, a.allocs[i := Allocation(t, amount, Released)], amount, t)))
  {
    if op.escrow < |db.accounts| {
      var a, t := db.accounts[op.escrow], Milestone(op.milestone);
      HeldIsFound(a, t);
      assert forall i: nat :: (Taken(a, t, i) && a.allocs[i].status.Held?) ==> FindHeld(a.allocs, t) == Some(i);
      HeldPays(db, op);
    }
    hide AllSolvent, Solvent, FindHeld, AllocSum, PaysFreelancer, PaidOut;
  }

  lemma HeldPays(db: Db, op: Op)
    requires op.ReleaseMilestone? && op.escrow < |db.accounts| && Solvent(db.accounts[op.escrow])
    ensures var (after, reply) := Apply(db, op);
      var (a, t) := (db.accounts[op.escrow], Milestone(op.milestone));
      match FindHeld(a.allocs, t)
      case None => after == db && reply == Failed(NotFound)
      case Some(i) =>
        var amount := a.allocs[i].amount;
        && Taken(a, t, i) && a.allocs[i].status.Held?
        && reply == GotEscrow(op.escrow, PaidOut(a.row, amount))
        && PaysFreelancer(db, after, op.escrow, a.allocs[i := Allocation(t, amount, Released)], amount, t)
  {
    var a, t := db.accounts[op.escrow], Milestone(op.milestone);
    HeldIsFound(a, t);
    hide Solvent, FindHeld, AllocSum;
  }

  /** A week is paid once, with the amount asked for, if that much is held and not reserved. */
  lemma WeekReleasePays(db: Db, op: Op)
    requires AllSolvent(db.accounts) && op.ReleaseHours?
    ensures var (after, reply) := Apply(db, op);
      && (op.amount <= 0 ==> after == db && reply == Failed(BadAmount))
      && (op.amount > 0 && op.escrow >= |db.accounts| ==> after == db && reply == Failed(NotFound))
      && (op.amount > 0 && op.escrow < |db.accounts| ==>
            var (a, t) := (db.accounts[op.escrow], Week(op.week));
            && (forall i: nat :: Taken(a, t, i) ==> after == db && reply == GotEscrow(op.escrow, a.row))
            && ((forall i: nat :: !Taken(a, t, i)) ==>
                  if op.amount > a.row.held - AllocSum(a.allocs, Held)
                  then after == db && reply == Failed(InsufficientFunds)
                  else
                    && reply == GotEscrow(op.escrow, PaidOut(a.row, op.amount))
                    && PaysFreelancer(db, after, op.escrow, a.allocs + [Allocation(t, op.amount, Released)],
                         op.amount, t)))
  {
    if op.escrow < |db.accounts| {
      var a, t := db.accounts[op.escrow], Week(op.week);
      TakenIsActive(a, t);
      AllocSumCovers(a.allocs, Held);
      assert FindActive(a.allocs, t).Some? ==> Taken(a, t, FindActive(a.allocs, t).value);
    }
    hide AllSolvent, Solvent, FindActive, AllocSum, Taken;
  }

  /** A refund gives back the amount asked for, if that much is held and not reserved. */
  lemma RefundReturns(db: Db, op: Op)
    requires op.Refund?
    ensures var (after, reply) := Apply(db, op);
      && (op.amount <= 0 ==> after == db && reply == Failed(BadAmount))
      && (op.amount > 0 && op.escrow >= |db.accounts| ==> after == db && reply == Failed(NotFound))
      && (op.amount > 0 && op.escrow < |db.accounts| ==>
            var (a, id) := (db.accounts[op.escrow], op.escrow);
            if op.amount > a.row.held - AllocSum(a.allocs, Held)
            then after == db && reply == Failed(InsufficientFunds)
            else
              var row := a.row.(held := a.row.held - op.amount, refunded := a.row.refunded + op.amount,
                status := if a.row.held == op.amount then StatusRefunded else StatusHeld);
              && reply == GotEscrow(id, row)
              && Moves(db, after, id, Account(row, a.allocs, a.fundKeys),
                   Leg(db.groups, LegType.Refund, AccountKind.Escrow, Some(id), Some(row.contract), -op.amount,
                       row.currency, None),
                   Leg(db.groups, LegType.Refund, Refunds, None, Some(row.contract), op.amount, row.currency, None),
                   RefundedEvent(id, row.contract, op.amount, op.reason)))
  {
    hide AllocSum;
  }

  // ---------------------------------------------------------------------------------------------
  // What a run puts in and takes out
  // ---------------------------------------------------------------------------------------------

  /** A funding that counts: positive, and without a key or with one not used for the contract before. */
  predicate Counts(ops: seq<Op>, k: nat, contract: string)
    requires k < |ops|
  {
    && ops[k].Fund? && ops[k].contract == contract && ops[k].amount > 0
    && (ops[k].key == "" || forall j :: 0 <= j < k ==>
          !(ops[j].Fund? && ops[j].contract == contract && ops[j].amount > 0 && ops[j].key == ops[k].key))
  }

  /** The sum of the fundings of a contract that count. */
  function FundedCents(ops: seq<Op>, contract: string): int {
    if ops == [] then 0
    else
      var n := |ops| - 1;
      FundedCents(ops[..n], contract) + if Counts(ops, n, contract) then ops[n].amount else 0
  }

  /** The sum of the refunds of an account that were granted. */
  function RefundedBy(ops: seq<Op>, id: nat): int {
    if ops == [] then 0
    else
      var n := |ops| - 1;
      RefundedBy(ops[..n], id)
        + if ops[n].Refund? && ops[n].escrow == id && !Apply(Exec(EMPTY, ops[..n]), ops[n]).1.Failed?
          then ops[n].amount else 0
  }

  /** Whether the run has a positive funding of the contract with this key. */
  ghost predicate UsesKey(ops: seq<Op>, contract: string, key: string) {
    exists j :: 0 <= j < |ops|
      && ops[j].Fund? && ops[j].contract == contract && ops[j].amount > 0 && ops[j].key == key
  }

  /** What the run has done to the contract's account, if it opened it. */
  ghost predicate Accounted(ops: seq<Op>, contract: string) {
    var db := Exec(EMPTY, ops);
    && (forall id :: 0 <= id < |db.accounts| && db.accounts[id].row.contract == contract ==>
          var a := db.accounts[id];
          && a.row.held + a.row.released + a.row.refunded == FundedCents(ops, contract)
          && forall key :: key != "" ==> (key in a.fundKeys <==> UsesKey(ops, contract, key)))
    && ((forall id :: 0 <= id < |db.accounts| ==> db.accounts[id].row.contract != contract) ==>
          FundedCents(ops, contract) == 0 && forall key :: !UsesKey(ops, contract, key))
  }

  /** What the sum of an account's columns says: all it ever got. */
  function Deposit(a: Account): int { a.row.held + a.row.released + a.row.refunded }

  /** A call that is not a funding opens no account and puts nothing in. */
  lemma OthersKeepDeposits(db: Db, op: Op)
    requires !op.Fund?
    ensures var after := Apply(db, op).0.accounts;
      && |after| == |db.accounts|
      && forall i :: 0 <= i < |after| ==>
           && after[i].row.contract == db.accounts[i].row.contract
           && after[i].fundKeys == db.accounts[i].fundKeys && Deposit(after[i]) == Deposit(db.accounts[i])
  {
    hide AllocSum, FindActive, FindHeld;
  }

  lemma UsesKeySnoc(ops: seq<Op>, contract: string, key: string)
    requires ops != []
    ensures var last := ops[|ops| - 1];
      UsesKey(ops, contract, key) <==>
        UsesKey(ops[..|ops| - 1], contract, key)
        || (last.Fund? && last.contract == contract && last.amount > 0 && last.key == key)
  {
    var init := ops[..|ops| - 1];
    if UsesKey(init, contract, key) {
      var j :| 0 <= j < |init|
        && init[j].Fund? && init[j].contract == contract && init[j].amount > 0 && init[j].key == key;
      assert ops[j] == init[j];
    }
  }

  lemma OtherCallKeepsAccounted(ops: seq<Op>, contract: string)
    requires ops != [] && Accounted(ops[..|ops| - 1], contract)
    requires var last := ops[|ops| - 1]; !last.Fund? || last.amount <= 0
    ensures Accounted(ops, contract)
  {
    var last, db := ops[|ops| - 1], Exec(EMPTY, ops[..|ops| - 1]);
    if !last.Fund? {
      OthersKeepDeposits(db, last);
    }
    forall key ensures UsesKey(ops, contract, key) <==> UsesKey(ops[..|ops| - 1], contract, key) {
      UsesKeySnoc(ops, contract, key);
    }
    hide UsesKey;
    hide AllocSum, FindActive, FindHeld, FindContract;
    var after := Exec(EMPTY, ops);
    assert after == Apply(db, last).0;
    assert last.Fund? ==> after == db;
    hide Exec, Apply;
  }

  /** The account that a funding works on, as AccountFor says. */
  lemma SomeAccount(db: Db, contract: string, currency: string) returns (id: nat, a: Account)
    ensures AccountFor(db, contract, currency, id, a)
  {
    match FindContract(db.accounts, contract)
    case Some(i) => id, a := i, db.accounts[i];
    case None =>
      id := |db.accounts|;
      a := Account(Row(contract, if currency == "" then "USD" else currency, 0, 0, 0, StatusHeld), [], {});
  }

  lemma CountsIffUnused(ops: seq<Op>, contract: string)
    requires ops != []
    ensures var n := |ops| - 1;
      Counts(ops, n, contract) <==>
        && ops[n].Fund? && ops[n].contract == contract && ops[n].amount > 0
        && (ops[n].key == "" || !UsesKey(ops[..n], contract, ops[n].key))
  {
    var n := |ops| - 1;
    assert forall j :: 0 <= j < n ==> ops[..n][j] == ops[j];
  }

  /** What a positive funding does to the accounts. */
  lemma FundingEffect(db: Db, op: Op, id: nat, a: Account)
    requires AllSolvent(db.accounts) && op.Fund? && op.amount > 0
    requires AccountFor(db, op.contract, op.currency, id, a)
    ensures var after := Apply(db, op).0.accounts;
      var used := op.key != "" && op.key in a.fundKeys;
      && |db.accounts| <= |after| <= |db.accounts| + 1 && id < |after|
      && (|after| > |db.accounts| ==> id == |db.accounts|)
      && (forall i :: 0 <= i < |db.accounts| && i != id ==> after[i] == db.accounts[i])
      && after[id].row.contract == op.contract
      && Deposit(after[id]) == Deposit(a) + (if used then 0 else op.amount)
      && after[id].fundKeys == if op.key == "" || used then a.fundKeys else a.fundKeys + {op.key}
  {
    assert op.key != "" && op.key in a.fundKeys ==> id < |db.accounts|;
    hide AllSolvent, Total, FindContract, Apply;
    FundingCredits(db, op, id, a);
  }

  lemma LastCall(ops: seq<Op>)
    requires ops != []
    ensures Exec(EMPTY, ops) == Apply(Exec(EMPTY, ops[..|ops| - 1]), ops[|ops| - 1]).0
    ensures AllSolvent(Exec(EMPTY, ops[..|ops| - 1]).accounts)
  {
    EveryRunKeepsTheBooks(ops[..|ops| - 1]);
    hide Apply, AllSolvent, Books, PaysOnce;
  }

  /** Another contract's funding leaves this contract's account alone. */
  lemma FundingElsewhere(ops: seq<Op>, contract: string)
    requires ops != [] && Accounted(ops[..|ops| - 1], contract)
    requires var last := ops[|ops| - 1]; last.Fund? && last.amount > 0 && last.contract != contract
    ensures Accounted(ops, contract)
  {
    hide Exec, Apply, AllSolvent;
    var last, init := ops[|ops| - 1], ops[..|ops| - 1];
    var db := Exec(EMPTY, init);
    LastCall(ops);
    var id, a := SomeAccount(db, last.contract, last.currency);
    FundingEffect(db, last, id, a);
    forall key ensures UsesKey(ops, contract, key) <==> UsesKey(init, contract, key) {
      UsesKeySnoc(ops, contract, key);
    }
    hide UsesKey;
  }

  lemma FundingHere(ops: seq<Op>, contract: string)
    requires ops != [] && Accounted(ops[..|ops| - 1], contract)
    requires var last := ops[|ops| - 1]; last.Fund? && last.amount > 0 && last.contract == contract
    ensures Accounted(ops, contract)
  {
    hide Exec, Apply, AllSolvent;
    var last, init := ops[|ops| - 1], ops[..|ops| - 1];
    var db := Exec(EMPTY, init);
    LastCall(ops);
    var id, a := SomeAccount(db, contract, last.currency);
    FundingEffect(db, last, id, a);
    CountsIffUnused(ops, contract);
    forall key ensures UsesKey(ops, contract, key) <==> UsesKey(init, contract, key) || last.key == key {
      UsesKeySnoc(ops, contract, key);
    }
    OneAccountPerContract(db, contract, id);
    hide UsesKey, Counts;
  }

  lemma OneAccountPerContract(db: Db, contract: string, id: nat)
    requires AllSolvent(db.accounts) && (id < |db.accounts| ==> db.accounts[id].row.contract == contract)
    ensures id < |db.accounts| ==>
      forall i :: 0 <= i < |db.accounts| && i != id ==> db.accounts[i].row.contract != contract
  {
  }

  /**
   * Over any run, held, released and refunded cents of a contract's account together are the sum of the fundings of
   * that contract that count; a contract without an account has none.
   */
  lemma {:induction false} DepositsAreFundings(ops: seq<Op>, contract: string)
    ensures Accounted(ops, contract)
  {
    if ops != [] {
      var init, last := ops[..|ops| - 1], ops[|ops| - 1];
      DepositsAreFundings(init, contract);
      hide Accounted;
      if !last.Fund? || last.amount <= 0 {
        OtherCallKeepsAccounted(ops, contract);
      } else if last.contract == contract {
        FundingHere(ops, contract);
      } else {
        FundingElsewhere(ops, contract);
      }
    }
  }

  lemma OnlyRefundsRefund(db: Db, op: Op, id: nat)
    requires !op.Refund? || op.escrow != id || Apply(db, op).1.Failed?
    ensures var after := Apply(db, op).0.accounts;
      && |db.accounts| <= |after|
      && (id < |after| ==> after[id].row.refunded == if id < |db.accounts| then db.accounts[id].row.refunded else 0)
  {
    hide AllocSum, FindActive, FindHeld;
  }

  /** Over any run, an account's refunded cents are the sum of the refunds that were granted. */
  lemma {:induction false} RefundsAreGranted(ops: seq<Op>, id: nat)
    ensures var accounts := Exec(EMPTY, ops).accounts;
      if id < |accounts| then accounts[id].row.refunded == RefundedBy(ops, id) else RefundedBy(ops, id) == 0
  {
    if ops != [] {
      var init, last := ops[..|ops| - 1], ops[|ops| - 1];
      var db := Exec(EMPTY, init);
      RefundsAreGranted(init, id);
      if last.Refund? && last.escrow == id && !Apply(db, last).1.Failed? {
        RefundReturns(db, last);
      } else {
        OnlyRefundsRefund(db, last, id);
      }
      hide Apply;
    }
  }

  /** Call k asked for this allocation: a milestone's, or a week's. */
  ghost predicate AsksFor(op: Op, id: nat, alloc: Allocation) {
    match alloc.target
    case Milestone(m) => op == Allocate(id, m, alloc.amount)
    case Week(w) => op == Op.ReleaseHours(id, w, alloc.amount)
  }

  lemma AllocationsComeFromCalls(db: Db, op: Op, id: nat, i: nat)
    requires var after := Apply(db, op).0.accounts; id < |after| && i < |after[id].allocs|
    ensures var alloc := Apply(db, op).0.accounts[id].allocs[i];
      || AsksFor(op, id, alloc)
      || (id < |db.accounts| && i < |db.accounts[id].allocs|
          && db.accounts[id].allocs[i].target == alloc.target && db.accounts[id].allocs[i].amount == alloc.amount)
  {
    hide AllocSum, FindActive, FindHeld;
  }

  /** Over any run, each allocation has the target and the amount that a call of the run asked for. */
  lemma {:induction false} AllocationsAreAskedFor(ops: seq<Op>, id: nat, i: nat)
    requires var accounts := Exec(EMPTY, ops).accounts; id < |accounts| && i < |accounts[id].allocs|
    ensures exists k :: 0 <= k < |ops| && AsksFor(ops[k], id, Exec(EMPTY, ops).accounts[id].allocs[i])
  {
    if ops != [] {
      var n := |ops| - 1;
      var db := Exec(EMPTY, ops[..n]);
      AllocationsComeFromCalls(db, ops[n], id, i);
      hide Apply;
      if !AsksFor(ops[n], id, Exec(EMPTY, ops).accounts[id].allocs[i]) {
        AllocationsAreAskedFor(ops[..n], id, i);
        var k :| 0 <= k < n && AsksFor(ops[..n][k], id, db.accounts[id].allocs[i]);
        assert AsksFor(ops[k], id, Exec(EMPTY, ops).accounts[id].allocs[i]);
      }
    }
  }
}
