/**
 * What every escrow run keeps: accounts stay solvent, allocations are unique per target, the ledger
 * agrees with the balances, and each target is paid at most once, with the allocated amount.
 */
module EscrowBooks {
  import opened Basics
  import opened Ledger
  import opened EscrowModel

  // ---------------------------------------------------------------------------------------------
  // Sums over allocations and accounts
  // ---------------------------------------------------------------------------------------------

  lemma AllocSumAppend(allocs: seq<Allocation>, a: Allocation, status: AllocStatus)
    ensures AllocSum(allocs + [a], status) == AllocSum(allocs, status) + if a.status == status then a.amount else 0
  {
    assert (allocs + [a])[..|allocs|] == allocs;
  }

  lemma {:induction false} AllocSumUpdate(allocs: seq<Allocation>, i: nat, a: Allocation, status: AllocStatus)
    requires i < |allocs|
    ensures AllocSum(allocs[i := a], status) ==
      AllocSum(allocs, status) - (if allocs[i].status == status then allocs[i].amount else 0)
                               + (if a.status == status then a.amount else 0)
  {
    var n := |allocs| - 1;
    if i == n {
      assert allocs[i := a][..n] == allocs[..n];
    } else {
      assert allocs[i := a][..n] == allocs[..n][i := a];
      AllocSumUpdate(allocs[..n], i, a, status);
    }
  }

  ghost predicate Positive(allocs: seq<Allocation>) {
    forall i :: 0 <= i < |allocs| ==> allocs[i].amount > 0
  }

  /** Reserved money is never negative, and each held allocation is part of it. */
  lemma {:induction false} AllocSumCovers(allocs: seq<Allocation>, status: AllocStatus)
    requires Positive(allocs)
    ensures AllocSum(allocs, status) >= 0
    ensures forall i :: 0 <= i < |allocs| && allocs[i].status == status ==> allocs[i].amount <= AllocSum(allocs, status)
  {
    if allocs != [] {
      AllocSumCovers(allocs[..|allocs| - 1], status);
    }
  }

  datatype Column = HeldCents | ReleasedCents | RefundedCents

  function Cell(row: Row, c: Column): int {
    match c case HeldCents => row.held case ReleasedCents => row.released case RefundedCents => row.refunded
  }

  /** What a row adds to the total of a column over the accounts in a currency. */
  function Share(row: Row, c: Column, currency: Option<string>): int {
    if IsIn(row.currency, currency) then Cell(row, c) else 0
  }

  /** SELECT sum(c) FROM escrow_accounts, of one currency or all. */
  function ColumnSum(accounts: seq<Account>, c: Column, currency: Option<string>): int {
    if accounts == [] then 0
    else ColumnSum(accounts[..|accounts| - 1], c, currency) + Share(accounts[|accounts| - 1].row, c, currency)
  }

  /** What is stored before the last position leaves the last account alone. */
  lemma PutBeforeLast(accounts: seq<Account>, id: nat, a: Account)
    requires id <= |accounts|
    ensures id == |accounts| ==> Put(accounts, id, a)[..|accounts|] == accounts
    ensures id == |accounts| - 1 ==> Put(accounts, id, a)[..id] == accounts[..id]
    ensures id < |accounts| - 1 ==>
      Put(accounts, id, a)[..|accounts| - 1] == Put(accounts[..|accounts| - 1], id, a)
  {
  }

  lemma {:induction false} ColumnSumPut(accounts: seq<Account>, id: nat, a: Account, c: Column,
                                        currency: Option<string>)
    requires id <= |accounts|
    ensures ColumnSum(Put(accounts, id, a), c, currency) == ColumnSum(accounts, c, currency)
      - (if id < |accounts| then Share(accounts[id].row, c, currency) else 0) + Share(a.row, c, currency)
  {
    PutBeforeLast(accounts, id, a);
    hide Share, Put;
    if id < |accounts| - 1 {
      ColumnSumPut(accounts[..|accounts| - 1], id, a, c, currency);
    }
  }

  // ---------------------------------------------------------------------------------------------
  // The invariant
  // ---------------------------------------------------------------------------------------------

  /** At most one non-refunded allocation per target: the partial unique indexes of migration 000011. */
  ghost predicate UniqueTargets(allocs: seq<Allocation>) {
    forall i, j :: 0 <= i < j < |allocs| && !allocs[i].status.Refunded? && !allocs[j].status.Refunded?
      ==> allocs[i].target != allocs[j].target
  }

  /** Reservations fit in the held balance, and what was released is what was allocated for release. */
  ghost predicate Solvent(a: Account) {
    && Positive(a.allocs)
    && UniqueTargets(a.allocs)
    && AllocSum(a.allocs, Held) <= a.row.held
    && a.row.released == AllocSum(a.allocs, Released)
    && 0 <= a.row.refunded
  }

  /** Ledger rows that name this account sum to its held balance; its contract sub-account holds all it ever got. */
  ghost predicate Agrees(db: Db, id: nat)
    requires id < |db.accounts|
  {
    var row := db.accounts[id].row;
    && Total(db.ledger, OfRef(id)) == row.held
    && Total(db.ledger, OfKindAndRef(EscrowContract, id)) == row.held + row.released + row.refunded
  }

  /** The ledger's account kinds, summed over all accounts of a currency, or of all. */
  ghost predicate KindsAgree(db: Db, currency: Option<string>) {
    var held, released, refunded := ColumnSum(db.accounts, HeldCents, currency),
      ColumnSum(db.accounts, ReleasedCents, currency), ColumnSum(db.accounts, RefundedCents, currency);
    && Total(db.ledger, OfKind(FreelancerBalance, currency)) == released
    && Total(db.ledger, OfKind(Refunds, currency)) == refunded
    && Total(db.ledger, OfKind(EscrowContract, currency)) == held + released + refunded
    && Total(db.ledger, OfKind(AccountKind.Escrow, currency)) == -held - 2 * released - 2 * refunded
    && Total(db.ledger, OfKind(ClientFunding, currency)) == 0
    && Total(db.ledger, OfKind(StripeClearing, currency)) == 0
  }

  /** Ledger rows refer only to accounts and groups that exist, and groups are balanced. */
  ghost predicate WellPosted(db: Db) {
    && (forall leg :: leg in db.ledger ==> leg.group < db.groups)
    && (forall leg :: leg in db.ledger && leg.ref.Some? ==> leg.ref.value < |db.accounts|)
    && (forall leg :: leg in db.ledger ==> leg.payment.None?)
    && Balanced(db.ledger)
  }

  function PaidCount(outbox: seq<Event>, id: nat, t: Target): nat {
    if outbox == [] then 0
    else
      var last := outbox[|outbox| - 1];
      PaidCount(outbox[..|outbox| - 1], id, t)
        + if last.ReleasedEvent? && last.escrow == id && last.target == t then 1 else 0
  }

  function PaidCents(outbox: seq<Event>, id: nat, t: Target): int {
    if outbox == [] then 0
    else
      var last := outbox[|outbox| - 1];
      PaidCents(outbox[..|outbox| - 1], id, t)
        + if last.ReleasedEvent? && last.escrow == id && last.target == t then last.amount else 0
  }

  /** What a target's allocation says was paid: how often and how much. */
  function Owed(db: Db, id: nat, t: Target): (nat, int) {
    if id >= |db.accounts| then (0, 0)
    else
      var allocs := db.accounts[id].allocs;
      match FindActive(allocs, t)
      case None => (0, 0)
      case Some(i) => if allocs[i].status.Released? then (1, allocs[i].amount) else (0, 0)
  }

  /** Release events announce each released allocation exactly once, and nothing else. */
  ghost predicate PaysOnce(db: Db) {
    forall id: nat, t: Target {:trigger Owed(db, id, t)} ::
      (PaidCount(db.outbox, id, t), PaidCents(db.outbox, id, t)) == Owed(db, id, t)
  }

  /** Every account is solvent, and each contract has at most one. */
  ghost predicate AllSolvent(accounts: seq<Account>) {
    && (forall i :: 0 <= i < |accounts| ==> Solvent(accounts[i]))
    && (forall i, j :: 0 <= i < j < |accounts| ==> accounts[i].row.contract != accounts[j].row.contract)
  }

  lemma PutKeepsSolvency(accounts: seq<Account>, id: nat, a: Account)
    requires AllSolvent(accounts) && id <= |accounts| && Solvent(a)
    requires id < |accounts| ==> a.row.contract == accounts[id].row.contract
    requires id == |accounts| ==> FindContract(accounts, a.row.contract).None?
    ensures AllSolvent(Put(accounts, id, a))
  {
  }

  /** Ledger agreement, kind totals and balanced groups together. */
  ghost predicate Books(db: Db) {
    && (forall i :: 0 <= i < |db.accounts| ==> Agrees(db, i))
    && (forall currency :: KindsAgree(db, currency))
    && WellPosted(db)
  }

  ghost predicate Inv(db: Db) {
    && AllSolvent(db.accounts)
    && Books(db)
    && PaysOnce(db)
  }

  // ---------------------------------------------------------------------------------------------
  // Money movements keep the books
  // ---------------------------------------------------------------------------------------------

  function OldRow(db: Db, id: nat): Row {
    if id < |db.accounts| then db.accounts[id].row else Row("", "", 0, 0, 0, StatusHeld)
  }

  /** What a pair of legs adds to a balance query. */
  function Effect(debit: Leg, credit: Leg, f: Filter): int {
    (if Matches(f, debit) then debit.amount else 0) + (if Matches(f, credit) then credit.amount else 0)
  }

  /** The pair tells the ledger exactly what the new row tells the account. */
  ghost predicate Faithful(db: Db, id: nat, row: Row, debit: Leg, credit: Leg) {
    var was := OldRow(db, id);
    var held, released, refunded := row.held - was.held, row.released - was.released, row.refunded - was.refunded;
    && debit.group == credit.group == db.groups
    && debit.payment.None? && credit.payment.None?
    && debit.amount + credit.amount == 0
    && debit.currency == credit.currency == row.currency && (id < |db.accounts| ==> row.currency == was.currency)
    && (debit.ref.Some? ==> debit.ref == Some(id))
    && (credit.ref.Some? ==> credit.ref == Some(id))
    && Effect(debit, credit, OfRef(id)) == held
    && Effect(debit, credit, OfKindAndRef(EscrowContract, id)) == held + released + refunded
    && Effect(debit, credit, OfKind(FreelancerBalance, None)) == released
    && Effect(debit, credit, OfKind(Refunds, None)) == refunded
    && Effect(debit, credit, OfKind(EscrowContract, None)) == held + released + refunded
    && Effect(debit, credit, OfKind(AccountKind.Escrow, None)) == -held - 2 * released - 2 * refunded
    && Effect(debit, credit, OfKind(ClientFunding, None)) == 0
    && Effect(debit, credit, OfKind(StripeClearing, None)) == 0
  }

  lemma PostKeepsAgreement(db: Db, id: nat, a: Account, debit: Leg, credit: Leg, event: Event)
    requires id <= |db.accounts| && WellPosted(db)
    requires forall i :: 0 <= i < |db.accounts| ==> Agrees(db, i)
    requires Faithful(db, id, a.row, debit, credit)
    ensures var after := Post(db, id, a, Pair(debit, credit), event);
      forall i :: 0 <= i < |after.accounts| ==> Agrees(after, i)
  {
    var after := Post(db, id, a, Pair(debit, credit), event);
    forall i | 0 <= i < |after.accounts|
      ensures Agrees(after, i)
    {
      TotalPair(db.ledger, debit, credit, OfRef(i));
      TotalPair(db.ledger, debit, credit, OfKindAndRef(EscrowContract, i));
      if i < |db.accounts| {
        assert Agrees(db, i);
      } else {
        TotalNoMatch(db.ledger, OfRef(i));
        TotalNoMatch(db.ledger, OfKindAndRef(EscrowContract, i));
      }
    }
  }

  lemma ColumnAfter(db: Db, id: nat, a: Account, c: Column, currency: Option<string>)
    requires id <= |db.accounts| && (id < |db.accounts| ==> a.row.currency == db.accounts[id].row.currency)
    ensures ColumnSum(Put(db.accounts, id, a), c, currency) == ColumnSum(db.accounts, c, currency)
      + if IsIn(a.row.currency, currency) then Cell(a.row, c) - Cell(OldRow(db, id), c) else 0
  {
    ColumnSumPut(db.accounts, id, a, c, currency);
  }

  /** A query in one currency sees all of a pair or nothing. */
  lemma EffectInCurrency(debit: Leg, credit: Leg, kind: AccountKind, currency: Option<string>)
    requires debit.currency == credit.currency
    ensures Effect(debit, credit, OfKind(kind, currency))
      == if IsIn(debit.currency, currency) then Effect(debit, credit, OfKind(kind, None)) else 0
  {
  }

  lemma KindAfter(ledger: seq<Leg>, debit: Leg, credit: Leg, k: AccountKind, currency: Option<string>)
    requires debit.currency == credit.currency
    ensures Total(ledger + Pair(debit, credit), OfKind(k, currency)) == Total(ledger, OfKind(k, currency))
      + if IsIn(debit.currency, currency) then Effect(debit, credit, OfKind(k, None)) else 0
  {
    TotalPair(ledger, debit, credit, OfKind(k, currency));
    EffectInCurrency(debit, credit, k, currency);
  }

  lemma PostKeepsKinds(db: Db, id: nat, a: Account, debit: Leg, credit: Leg, event: Event, currency: Option<string>)
    requires id <= |db.accounts| && KindsAgree(db, currency)
    requires Faithful(db, id, a.row, debit, credit)
    ensures KindsAgree(Post(db, id, a, Pair(debit, credit), event), currency)
  {
    var after := Post(db, id, a, Pair(debit, credit), event);
    ColumnAfter(db, id, a, HeldCents, currency);
    ColumnAfter(db, id, a, ReleasedCents, currency);
    ColumnAfter(db, id, a, RefundedCents, currency);
    hide Total, ColumnSum, Put;
    KindAfter(db.ledger, debit, credit, FreelancerBalance, currency);
    KindAfter(db.ledger, debit, credit, Refunds, currency);
    KindAfter(db.ledger, debit, credit, EscrowContract, currency);
    KindAfter(db.ledger, debit, credit, AccountKind.Escrow, currency);
    KindAfter(db.ledger, debit, credit, ClientFunding, currency);
    KindAfter(db.ledger, debit, credit, StripeClearing, currency);
    hide Effect;
  }

  lemma PostKeepsPosting(db: Db, id: nat, a: Account, debit: Leg, credit: Leg, event: Event)
    requires id <= |db.accounts| && WellPosted(db)
    requires Faithful(db, id, a.row, debit, credit)
    ensures WellPosted(Post(db, id, a, Pair(debit, credit), event))
  {
    forall g: nat
      ensures Total(db.ledger + Pair(debit, credit), OfGroup(g)) == 0
    {
      TotalPair(db.ledger, debit, credit, OfGroup(g));
      assert Total(db.ledger, OfGroup(g)) == 0;
    }
  }

  lemma PostKeepsBooks(db: Db, id: nat, a: Account, legs: seq<Leg>, event: Event)
    requires id <= |db.accounts| && Books(db)
    requires |legs| == 2 && Faithful(db, id, a.row, legs[0], legs[1])
    ensures Books(Post(db, id, a, legs, event))
  {
    assert legs == Pair(legs[0], legs[1]);
    PostKeepsAgreement(db, id, a, legs[0], legs[1], event);
    forall currency ensures KindsAgree(Post(db, id, a, legs, event), currency) {
      PostKeepsKinds(db, id, a, legs[0], legs[1], event, currency);
    }
    PostKeepsPosting(db, id, a, legs[0], legs[1], event);
  }

  // ---------------------------------------------------------------------------------------------
  // Payments follow allocations
  // ---------------------------------------------------------------------------------------------

  /** The first active allocation does not move when an allocation for another target arrives or changes. */
  lemma FindActiveUnique(allocs: seq<Allocation>, i: nat, t: Target)
    requires UniqueTargets(allocs) && i < |allocs| && Active(allocs[i], t)
    ensures FindActive(allocs, t) == Some(i)
  {
    var j := FindActive(allocs, t).value;
    assert allocs[j].target == allocs[i].target;
  }

  /** A movement that announces no release and releases nothing leaves what was paid and what is owed alone. */
  lemma SilentStepPaysOnce(db: Db, after: Db, id: nat)
    requires PaysOnce(db)
    requires id <= |db.accounts| <= |after.accounts| <= |db.accounts| + 1
    requires id < |after.accounts| && (|after.accounts| > |db.accounts| ==> id == |db.accounts|)
    requires forall i :: 0 <= i < |db.accounts| && i != id ==> after.accounts[i] == db.accounts[i]
    requires after.outbox == db.outbox
      || exists e :: after.outbox == db.outbox + [e] && !e.ReleasedEvent?
    requires forall t :: Owed(after, id, t) == Owed(db, id, t)
    ensures PaysOnce(after)
  {
    forall i: nat, t: Target
      ensures (PaidCount(after.outbox, i, t), PaidCents(after.outbox, i, t)) == Owed(after, i, t)
    {
      if after.outbox != db.outbox {
        assert after.outbox[..|after.outbox| - 1] == db.outbox;
      }
      assert PaidCount(after.outbox, i, t) == PaidCount(db.outbox, i, t);
      assert PaidCents(after.outbox, i, t) == PaidCents(db.outbox, i, t);
      assert Owed(after, i, t) == Owed(db, i, t);
      assert (PaidCount(db.outbox, i, t), PaidCents(db.outbox, i, t)) == Owed(db, i, t);
    }
  }

  /** A release announces the one allocation it turns from unpaid to paid. */
  lemma ReleaseStepPaysOnce(db: Db, after: Db, id: nat, event: Event)
    requires PaysOnce(db)
    requires id < |db.accounts| == |after.accounts|
    requires forall i :: 0 <= i < |db.accounts| && i != id ==> after.accounts[i] == db.accounts[i]
    requires event.ReleasedEvent? && event.escrow == id && after.outbox == db.outbox + [event]
    requires Owed(db, id, event.target) == (0, 0) && Owed(after, id, event.target) == (1, event.amount)
    requires forall t :: t != event.target ==> Owed(after, id, t) == Owed(db, id, t)
    ensures PaysOnce(after)
  {
    forall i: nat, t: Target
      ensures (PaidCount(after.outbox, i, t), PaidCents(after.outbox, i, t)) == Owed(after, i, t)
    {
      assert after.outbox[..|after.outbox| - 1] == db.outbox;
      assert (PaidCount(db.outbox, i, t), PaidCents(db.outbox, i, t)) == Owed(db, i, t);
      assert i != id ==> Owed(after, i, t) == Owed(db, i, t);
    }
  }

  lemma FindActiveAppend(allocs: seq<Allocation>, a: Allocation, t: Target)
    ensures FindActive(allocs + [a], t) ==
      if FindActive(allocs, t).Some? then FindActive(allocs, t)
      else if Active(a, t) then Some(|allocs|) else None
  {
    assert (allocs + [a])[..|allocs|] == allocs;
  }

  lemma {:induction false} FindActiveMarked(allocs: seq<Allocation>, i: nat, t: Target)
    requires i < |allocs| && allocs[i].status.Held?
    ensures FindActive(MarkReleased(allocs, i), t) == FindActive(allocs, t)
  {
    var n := |allocs| - 1;
    if i == n {
      assert MarkReleased(allocs, i)[..n] == allocs[..n];
    } else {
      assert MarkReleased(allocs, i)[..n] == MarkReleased(allocs[..n], i);
      FindActiveMarked(allocs[..n], i, t);
    }
  }

  // ---------------------------------------------------------------------------------------------
  // Each operation keeps the invariant
  // ---------------------------------------------------------------------------------------------

  /** A money movement keeps the invariant once its account is solvent and its payments are in order. */
  lemma MovementKeepsInv(db: Db, id: nat, a: Account, legs: seq<Leg>, event: Event)
    requires Inv(db) && id <= |db.accounts| && Solvent(a)
    requires id < |db.accounts| ==> a.row.contract == db.accounts[id].row.contract
    requires id == |db.accounts| ==> FindContract(db.accounts, a.row.contract).None?
    requires |legs| == 2 && Faithful(db, id, a.row, legs[0], legs[1])
    requires PaysOnce(Post(db, id, a, legs, event))
    ensures Inv(Post(db, id, a, legs, event))
  {
    PutKeepsSolvency(db.accounts, id, a);
    PostKeepsBooks(db, id, a, legs, event);
  }

  lemma HoldIsFaithful(db: Db, id: nat, row: Row, amount: int)
    requires id <= |db.accounts|
    requires row.held == OldRow(db, id).held + amount
    requires row.released == OldRow(db, id).released && row.refunded == OldRow(db, id).refunded
    requires id < |db.accounts| ==> row.currency == db.accounts[id].row.currency
    ensures var legs := HoldLegs(db.groups, id, row, amount);
      |legs| == 2 && Faithful(db, id, row, legs[0], legs[1])
  {
  }

  lemma FundKeepsInv(db: Db, op: Op)
    requires Inv(db) && op.Fund?
    ensures Inv(ApplyFund(db, op).0)
  {
    var after := ApplyFund(db, op).0;
    if after != db {
      var id := FundTarget(db, op.contract);
      var was := FundAccount(db, op.contract, op.currency);
      var a := Credited(was, op.amount, op.key);
      assert Solvent(was);
      assert forall t :: Owed(after, id, t) == Owed(db, id, t);
      SilentStepPaysOnce(db, after, id);
      HoldIsFaithful(db, id, a.row, op.amount);
      MovementKeepsInv(db, id, a, HoldLegs(db.groups, id, a.row, op.amount),
        FundedEvent(id, op.contract, op.amount, a.row.held));
    }
  }

  /** Reserving money touches no balance, so the books stay as they are. */
  lemma ReserveKeepsBooks(db: Db, id: nat, a: Account)
    requires Books(db) && id < |db.accounts| && a.row == db.accounts[id].row
    ensures Books(db.(accounts := Put(db.accounts, id, a)))
  {
    var after := db.(accounts := Put(db.accounts, id, a));
    forall currency ensures KindsAgree(after, currency) {
      assert KindsAgree(db, currency);
      ColumnAfter(db, id, a, HeldCents, currency);
      ColumnAfter(db, id, a, ReleasedCents, currency);
      ColumnAfter(db, id, a, RefundedCents, currency);
    }
    forall i | 0 <= i < |after.accounts| ensures Agrees(after, i) { assert Agrees(db, i); }
  }

  lemma ReserveKeepsSolvency(a: Account, milestone: string, amount: int)
    requires Solvent(a) && amount > 0 && FindActive(a.allocs, Milestone(milestone)).None?
    requires amount <= a.row.held - AllocSum(a.allocs, Held)
    ensures Solvent(a.(allocs := a.allocs + [Allocation(Milestone(milestone), amount, Held)]))
  {
    AllocSumAppend(a.allocs, Allocation(Milestone(milestone), amount, Held), Held);
    AllocSumAppend(a.allocs, Allocation(Milestone(milestone), amount, Held), Released);
  }

  lemma AllocateKeepsInv(db: Db, op: Op)
    requires Inv(db) && op.Allocate?
    ensures Inv(ApplyAllocate(db, op).0)
  {
    var after := ApplyAllocate(db, op).0;
    if after != db {
      var a, a' := db.accounts[op.escrow], after.accounts[op.escrow];
      assert Solvent(a);
      ReserveKeepsSolvency(a, op.milestone, op.amount);
      PutKeepsSolvency(db.accounts, op.escrow, a');
      ReserveKeepsBooks(db, op.escrow, a');
      forall t ensures Owed(after, op.escrow, t) == Owed(db, op.escrow, t) {
        FindActiveAppend(a.allocs, Allocation(Milestone(op.milestone), op.amount, Held), t);
      }
      SilentStepPaysOnce(db, after, op.escrow);
    }
  }

  lemma ReleaseIsFaithful(db: Db, id: nat, amount: int)
    requires id < |db.accounts|
    ensures var row := ReleasedRow(db.accounts[id].row, amount);
      var legs := ReleaseLegs(db.groups, id, row, amount);
      |legs| == 2 && Faithful(db, id, row, legs[0], legs[1])
  {
  }

  lemma RefundIsFaithful(db: Db, id: nat, amount: int)
    requires id < |db.accounts|
    ensures var row := RefundedRow(db.accounts[id].row, amount);
      var legs := RefundLegs(db.groups, id, row, amount);
      |legs| == 2 && Faithful(db, id, row, legs[0], legs[1])
  {
  }

  /** Turning a held allocation into a released one moves its amount from held to released. */
  lemma MarkKeepsSolvency(a: Account, i: nat)
    requires Solvent(a) && i < |a.allocs| && a.allocs[i].status.Held?
    ensures Solvent(Account(ReleasedRow(a.row, a.allocs[i].amount), MarkReleased(a.allocs, i), a.fundKeys))
  {
    AllocSumUpdate(a.allocs, i, a.allocs[i].(status := Released), Held);
    AllocSumUpdate(a.allocs, i, a.allocs[i].(status := Released), Released);
  }

  lemma MarkPaysOnce(db: Db, id: nat, i: nat, row: Row, legs: seq<Leg>)
    requires PaysOnce(db) && id < |db.accounts|
    requires UniqueTargets(db.accounts[id].allocs)
    requires i < |db.accounts[id].allocs| && db.accounts[id].allocs[i].status.Held?
    ensures var a := db.accounts[id];
      PaysOnce(Post(db, id, Account(row, MarkReleased(a.allocs, i), a.fundKeys), legs,
                    ReleasedEvent(id, a.row.contract, a.allocs[i].amount, a.allocs[i].target)))
  {
    var a := db.accounts[id];
    var target := a.allocs[i].target;
    var event := ReleasedEvent(id, a.row.contract, a.allocs[i].amount, target);
    var after := Post(db, id, Account(row, MarkReleased(a.allocs, i), a.fundKeys), legs, event);
    FindActiveUnique(a.allocs, i, target);
    FindActiveMarked(a.allocs, i, target);
    forall t ensures t != target ==> Owed(after, id, t) == Owed(db, id, t) {
      FindActiveMarked(a.allocs, i, t);
    }
    ReleaseStepPaysOnce(db, after, id, event);
  }

  lemma ReleaseMilestoneKeepsInv(db: Db, op: Op)
    requires Inv(db) && op.ReleaseMilestone?
    ensures Inv(ApplyReleaseMilestone(db, op).0)
  {
    var after := ApplyReleaseMilestone(db, op).0;
    if after != db {
      var id, a, a' := op.escrow, db.accounts[op.escrow], after.accounts[op.escrow];
      var i := FindHeld(a.allocs, Milestone(op.milestone)).value;
      var legs := ReleaseLegs(db.groups, id, a'.row, a.allocs[i].amount);
      assert Solvent(a);
      MarkKeepsSolvency(a, i);
      ReleaseIsFaithful(db, id, a.allocs[i].amount);
      MarkPaysOnce(db, id, i, a'.row, legs);
      MovementKeepsInv(db, id, a', legs,
        ReleasedEvent(id, a.row.contract, a.allocs[i].amount, a.allocs[i].target));
    }
  }

  /** Paying a week appends an allocation that is released at once. */
  lemma WeekKeepsSolvency(a: Account, week: string, amount: int)
    requires Solvent(a) && amount > 0 && FindActive(a.allocs, Week(week)).None?
    requires amount <= a.row.held - AllocSum(a.allocs, Held)
    ensures Solvent(Account(ReleasedRow(a.row, amount), a.allocs + [Allocation(Week(week), amount, Released)],
                            a.fundKeys))
  {
    AllocSumAppend(a.allocs, Allocation(Week(week), amount, Released), Held);
    AllocSumAppend(a.allocs, Allocation(Week(week), amount, Released), Released);
  }

  lemma WeekPaysOnce(db: Db, id: nat, week: string, amount: int, row: Row, legs: seq<Leg>)
    requires PaysOnce(db) && id < |db.accounts|
    requires FindActive(db.accounts[id].allocs, Week(week)).None?
    ensures var a := db.accounts[id];
      PaysOnce(Post(db, id, Account(row, a.allocs + [Allocation(Week(week), amount, Released)], a.fundKeys), legs,
                    ReleasedEvent(id, a.row.contract, amount, Week(week))))
  {
    var a, alloc := db.accounts[id], Allocation(Week(week), amount, Released);
    var event := ReleasedEvent(id, a.row.contract, amount, Week(week));
    var after := Post(db, id, Account(row, a.allocs + [alloc], a.fundKeys), legs, event);
    FindActiveAppend(a.allocs, alloc, Week(week));
    forall t ensures t != Week(week) ==> Owed(after, id, t) == Owed(db, id, t) {
      FindActiveAppend(a.allocs, alloc, t);
    }
    ReleaseStepPaysOnce(db, after, id, event);
  }

  lemma ReleaseHoursKeepsInv(db: Db, op: Op)
    requires Inv(db) && op.ReleaseHours?
    ensures Inv(ApplyReleaseHours(db, op).0)
  {
    var after := ApplyReleaseHours(db, op).0;
    if after != db {
      var id, a, a' := op.escrow, db.accounts[op.escrow], after.accounts[op.escrow];
      var legs := ReleaseLegs(db.groups, id, a'.row, op.amount);
      assert Solvent(a);
      WeekKeepsSolvency(a, op.week, op.amount);
      ReleaseIsFaithful(db, id, op.amount);
      WeekPaysOnce(db, id, op.week, op.amount, a'.row, legs);
      MovementKeepsInv(db, id, a', legs, ReleasedEvent(id, a.row.contract, op.amount, Week(op.week)));
    }
  }

  lemma RefundKeepsInv(db: Db, op: Op)
    requires Inv(db) && op.Refund?
    ensures Inv(ApplyRefund(db, op).0)
  {
    var after := ApplyRefund(db, op).0;
    if after != db {
      var id, a, a' := op.escrow, db.accounts[op.escrow], after.accounts[op.escrow];
      assert Solvent(a);
      assert Solvent(a');
      forall t ensures Owed(after, id, t) == Owed(db, id, t) { assert a'.allocs == a.allocs; }
      SilentStepPaysOnce(db, after, id);
      RefundIsFaithful(db, id, op.amount);
      MovementKeepsInv(db, id, a', RefundLegs(db.groups, id, a'.row, op.amount),
        RefundedEvent(id, a.row.contract, op.amount, op.reason));
    }
  }

  lemma ApplyKeepsInv(db: Db, op: Op)
    requires Inv(db)
    ensures Inv(Apply(db, op).0)
  {
    match op
    case Fund(_, _, _, _) => FundKeepsInv(db, op);
    case Allocate(_, _, _) => AllocateKeepsInv(db, op);
    case ReleaseMilestone(_, _, _) => ReleaseMilestoneKeepsInv(db, op);
    case ReleaseHours(_, _, _) => ReleaseHoursKeepsInv(db, op);
    case Refund(_, _, _) => RefundKeepsInv(db, op);
  }

  /** Every run from the empty database keeps the books: solvency, agreement, conservation, pay-once. */
  lemma {:induction false} EveryRunKeepsTheBooks(ops: seq<Op>)
    ensures Inv(Exec(EMPTY, ops))
  {
    if ops == [] {
      forall id: nat, t: Target
        ensures (PaidCount(EMPTY.outbox, id, t), PaidCents(EMPTY.outbox, id, t)) == Owed(EMPTY, id, t)
      {
      }
    } else {
      EveryRunKeepsTheBooks(ops[..|ops| - 1]);
      ApplyKeepsInv(Exec(EMPTY, ops[..|ops| - 1]), ops[|ops| - 1]);
    }
  }

  lemma HeldAllocationIsCovered(a: Account, t: Target)
    requires Solvent(a) && FindHeld(a.allocs, t).Some?
    ensures a.allocs[FindHeld(a.allocs, t).value].amount <= AllocSum(a.allocs, Held) <= a.row.held
  {
    AllocSumCovers(a.allocs, Held);
  }

  /**
   * The drift guard of ReleaseMilestone cannot fire: a release fails only because nothing is held for the
   * milestone.
   */
  lemma DriftGuardNeverFires(ops: seq<Op>, op: Op)
    requires op.ReleaseMilestone?
    ensures var db := Exec(EMPTY, ops);
      Apply(db, op).1 ==
        if op.escrow >= |db.accounts| || FindHeld(db.accounts[op.escrow].allocs, Milestone(op.milestone)).None?
        then Failed(NotFound)
        else var a := db.accounts[op.escrow];
          var amount := a.allocs[FindHeld(a.allocs, Milestone(op.milestone)).value].amount;
          GotEscrow(op.escrow, ReleasedRow(a.row, amount))
  {
    EveryRunKeepsTheBooks(ops);
    var db := Exec(EMPTY, ops);
    if op.escrow < |db.accounts| && FindHeld(db.accounts[op.escrow].allocs, Milestone(op.milestone)).Some? {
      HeldAllocationIsCovered(db.accounts[op.escrow], Milestone(op.milestone));
    }
  }

  /** A refund succeeds exactly when it fits what the ledger holds for the escrow beyond its reservations. */
  lemma RefundsNeverTouchReservations(ops: seq<Op>, op: Op)
    requires op.Refund? && op.amount > 0
    ensures var db := Exec(EMPTY, ops);
      Apply(db, op).1.GotEscrow? <==>
        op.escrow < |db.accounts|
        && op.amount + AllocSum(db.accounts[op.escrow].allocs, Held) <= Total(db.ledger, OfRef(op.escrow))
  {
    EveryRunKeepsTheBooks(ops);
    var db := Exec(EMPTY, ops);
    if op.escrow < |db.accounts| {
      assert Agrees(db, op.escrow);
    }
  }

  /** What a movement makes of the status, in terms of the balance it leaves. */
  ghost predicate StatusFollows(db: Db, op: Op) {
    var reply := Apply(db, op).1;
    && reply.GotEscrow?
    && match op
       case Fund(_, _, _, _) =>
         reply.row.status == if reply.id < |db.accounts| then db.accounts[reply.id].row.status else StatusHeld
       case Refund(_, _, _) => reply.row.status == if reply.row.held == 0 then StatusRefunded else StatusHeld
       case _ => reply.row.status == if reply.row.held == 0 then StatusReleased else StatusPartiallyReleased
  }

  lemma MovementSetsStatus(db: Db, op: Op)
    requires AllSolvent(db.accounts) && Apply(db, op).0.ledger != db.ledger
    ensures StatusFollows(db, op)
  {
    if op.ReleaseMilestone? {
      assert Solvent(db.accounts[op.escrow]);
      HeldAllocationIsCovered(db.accounts[op.escrow], Milestone(op.milestone));
    } else if op.ReleaseHours? {
      assert Solvent(db.accounts[op.escrow]);
      AllocSumCovers(db.accounts[op.escrow].allocs, Held);
    }
    hide AllSolvent, Solvent, AllocSum, HoldLegs, ReleaseLegs, RefundLegs, Put;
  }

  /**
   * After any run, a release leaves the status released exactly when nothing is held any more, a refund
   * sets it back to held unless nothing is left, and funding does not touch it.
   */
  lemma {:induction false} StatusAfterMovement(ops: seq<Op>, op: Op)
    requires Apply(Exec(EMPTY, ops), op).0.ledger != Exec(EMPTY, ops).ledger
    ensures StatusFollows(Exec(EMPTY, ops), op)
  {
    EveryRunKeepsTheBooks(ops);
    assert AllSolvent(Exec(EMPTY, ops).accounts);
    hide *;
    MovementSetsStatus(Exec(EMPTY, ops), op);
  }
}
