/**
 * Escrow: accounts, allocations and the five money operations, each as one atomic step on the
 * committed database. `EscrowService` runs the same operations statement by statement on a mutable
 * store, and `EscrowConcurrency` interleaves their statements under row locks; both are proved
 * against the functions of this module.
 *
 * An escrow id is the position of its account, so a new account takes the next position.
 */
module EscrowModel {
  import opened Basics
  import opened Ledger

  datatype EscrowStatus = StatusHeld | StatusPartiallyReleased | StatusReleased | StatusRefunded

  /** What an allocation pays for: a fixed-price milestone or one billing week. */
  datatype Target = Milestone(milestone: string) | Week(week: string)

  datatype AllocStatus = Held | Released | Refunded

  datatype Allocation = Allocation(target: Target, amount: int, status: AllocStatus)

  /** One row of escrow_accounts. */
  datatype Row = Row(
    contract: string, currency: string, held: int, released: int, refunded: int, status: EscrowStatus)

  /** An account with its allocations in creation order and its used funding keys. */
  datatype Account = Account(row: Row, allocs: seq<Allocation>, fundKeys: set<string>)

  datatype Event =
    | FundedEvent(escrow: nat, contract: string, amount: int, held: int)
    | ReleasedEvent(escrow: nat, contract: string, amount: int, target: Target)
    | RefundedEvent(escrow: nat, contract: string, amount: int, reason: string)

  datatype Db = Db(accounts: seq<Account>, ledger: seq<Leg>, outbox: seq<Event>, groups: nat)

  datatype Op =
    | Fund(contract: string, amount: int, currency: string, key: string)
    | Allocate(escrow: nat, milestone: string, amount: int)
    | ReleaseMilestone(escrow: nat, milestone: string, amount: int)
    | ReleaseHours(escrow: nat, week: string, amount: int)
    | Refund(escrow: nat, amount: int, reason: string)

  datatype Error = BadAmount | NotFound | InsufficientFunds | DuplicateAllocation

  datatype Reply = GotEscrow(id: nat, row: Row) | GotAllocation(alloc: Allocation) | Failed(error: Error)

  const EMPTY := Db([], [], [], 0)

  // ---------------------------------------------------------------------------------------------
  // Lookups
  // ---------------------------------------------------------------------------------------------

  predicate Active(a: Allocation, t: Target) { a.target == t && !a.status.Refunded? }

  predicate HeldFor(a: Allocation, t: Target) { a.target == t && a.status.Held? }

  /** The first non-refunded allocation for a target, in creation order. */
  function FindActive(allocs: seq<Allocation>, t: Target): (found: Option<nat>)
    ensures found.Some? ==> found.value < |allocs| && Active(allocs[found.value], t)
    ensures found.Some? ==> forall j :: 0 <= j < found.value ==> !Active(allocs[j], t)
    ensures found.None? ==> forall j :: 0 <= j < |allocs| ==> !Active(allocs[j], t)
  {
    if allocs == [] then None
    else
      var n := |allocs| - 1;
      var earlier := FindActive(allocs[..n], t);
      if earlier.Some? then earlier else if Active(allocs[n], t) then Some(n) else None
  }

  /** The first held allocation for a target. */
  function FindHeld(allocs: seq<Allocation>, t: Target): (found: Option<nat>)
    ensures found.Some? ==> found.value < |allocs| && HeldFor(allocs[found.value], t)
    ensures found.Some? ==> forall j :: 0 <= j < found.value ==> !HeldFor(allocs[j], t)
    ensures found.None? ==> forall j :: 0 <= j < |allocs| ==> !HeldFor(allocs[j], t)
  {
    if allocs == [] then None
    else
      var n := |allocs| - 1;
      var earlier := FindHeld(allocs[..n], t);
      if earlier.Some? then earlier else if HeldFor(allocs[n], t) then Some(n) else None
  }

  /** The account of a contract. */
  function FindContract(accounts: seq<Account>, contract: string): (found: Option<nat>)
    ensures found.Some? ==> found.value < |accounts| && accounts[found.value].row.contract == contract
    ensures found.None? ==> forall i :: 0 <= i < |accounts| ==> accounts[i].row.contract != contract
  {
    if accounts == [] then None
    else
      var n := |accounts| - 1;
      var earlier := FindContract(accounts[..n], contract);
      if earlier.Some? then earlier else if accounts[n].row.contract == contract then Some(n) else None
  }

  /** SELECT coalesce(sum(amount_cents), 0) over the allocations in one status. */
  function AllocSum(allocs: seq<Allocation>, status: AllocStatus): int {
    if allocs == [] then 0
    else
      var last := allocs[|allocs| - 1];
      AllocSum(allocs[..|allocs| - 1], status) + if last.status == status then last.amount else 0
  }

  // ---------------------------------------------------------------------------------------------
  // The operations
  // ---------------------------------------------------------------------------------------------

  function StatusAfterRelease(remainingHeld: int): EscrowStatus {
    if remainingHeld <= 0 then StatusReleased else StatusPartiallyReleased
  }

  function CurrencyOr(currency: string): string { if currency == "" then "USD" else currency }

  function NewAccount(contract: string, currency: string): Account {
    Account(Row(contract, CurrencyOr(currency), 0, 0, 0, StatusHeld), [], {})
  }

  function Credited(a: Account, amount: int, key: string): Account {
    Account(a.row.(held := a.row.held + amount), a.allocs, if key == "" then a.fundKeys else a.fundKeys + {key})
  }

  function ReleasedRow(row: Row, amount: int): Row {
    row.(held := row.held - amount, released := row.released + amount, status := StatusAfterRelease(row.held - amount))
  }

  function RefundedRow(row: Row, amount: int): Row {
    row.(held := row.held - amount, refunded := row.refunded + amount,
         status := if row.held - amount == 0 then StatusRefunded else StatusHeld)
  }

  function MarkReleased(allocs: seq<Allocation>, i: nat): seq<Allocation>
    requires i < |allocs|
  {
    allocs[i := allocs[i].(status := Released)]
  }

  function HoldLegs(group: nat, id: nat, row: Row, amount: int): seq<Leg> {
    Pair(Leg(group, EscrowHold, AccountKind.Escrow, None, None, -amount, row.currency, None),
         Leg(group, EscrowHold, EscrowContract, Some(id), Some(row.contract), amount, row.currency, None))
  }

  function ReleaseLegs(group: nat, id: nat, row: Row, amount: int): seq<Leg> {
    Pair(Leg(group, EscrowRelease, AccountKind.Escrow, Some(id), Some(row.contract), -amount, row.currency, None),
         Leg(group, EscrowRelease, FreelancerBalance, None, Some(row.contract), amount, row.currency, None))
  }

  function RefundLegs(group: nat, id: nat, row: Row, amount: int): seq<Leg> {
    Pair(Leg(group, LegType.Refund, AccountKind.Escrow, Some(id), Some(row.contract), -amount, row.currency, None),
         Leg(group, LegType.Refund, Refunds, None, Some(row.contract), amount, row.currency, None))
  }

  /** Stores an account at its position; the position after the last creates it. */
  function Put(accounts: seq<Account>, id: nat, a: Account): (r: seq<Account>)
    requires id <= |accounts|
    ensures |r| == if id == |accounts| then |accounts| + 1 else |accounts|
    ensures r[id] == a
    ensures forall i :: 0 <= i < |accounts| && i != id ==> r[i] == accounts[i]
  {
    if id == |accounts| then accounts + [a] else accounts[id := a]
  }

  /** A money movement: the account's new version, one balanced group and one event. */
  function Post(db: Db, id: nat, a: Account, legs: seq<Leg>, event: Event): Db
    requires id <= |db.accounts|
  {
    Db(Put(db.accounts, id, a), db.ledger + legs, db.outbox + [event], db.groups + 1)
  }

  function FundTarget(db: Db, contract: string): (id: nat)
    ensures id <= |db.accounts|
  {
    match FindContract(db.accounts, contract) case Some(id) => id case None => |db.accounts|
  }

  function FundAccount(db: Db, contract: string, currency: string): Account {
    match FindContract(db.accounts, contract)
    case Some(id) => db.accounts[id]
    case None => NewAccount(contract, currency)
  }

  function ApplyFund(db: Db, op: Op): (Db, Reply)
    requires op.Fund?
  {
    if op.amount <= 0 then (db, Failed(BadAmount))
    else
      var id := FundTarget(db, op.contract);
      var a := FundAccount(db, op.contract, op.currency);
      if op.key != "" && op.key in a.fundKeys then (db, GotEscrow(id, a.row))
      else
        var a' := Credited(a, op.amount, op.key);
        (Post(db, id, a', HoldLegs(db.groups, id, a'.row, op.amount),
              FundedEvent(id, op.contract, op.amount, a'.row.held)),
         GotEscrow(id, a'.row))
  }

  function ApplyAllocate(db: Db, op: Op): (Db, Reply)
    requires op.Allocate?
  {
    if op.amount <= 0 then (db, Failed(BadAmount))
    else if op.escrow >= |db.accounts| then (db, Failed(NotFound))
    else
      var a := db.accounts[op.escrow];
      var found := FindActive(a.allocs, Milestone(op.milestone));
      if found.Some? then (db, GotAllocation(a.allocs[found.value]))
      else if op.amount > a.row.held - AllocSum(a.allocs, Held) then (db, Failed(InsufficientFunds))
      else
        var alloc := Allocation(Milestone(op.milestone), op.amount, Held);
        (db.(accounts := Put(db.accounts, op.escrow, a.(allocs := a.allocs + [alloc]))), GotAllocation(alloc))
  }

  /** The amount released is the one allocated; the amount the caller passes is not read. */
  function ApplyReleaseMilestone(db: Db, op: Op): (Db, Reply)
    requires op.ReleaseMilestone?
  {
    if op.escrow >= |db.accounts| then (db, Failed(NotFound))
    else
      var a := db.accounts[op.escrow];
      var found := FindHeld(a.allocs, Milestone(op.milestone));
      if found.None? then (db, Failed(NotFound))
      else
        var amount := a.allocs[found.value].amount;
        if amount > a.row.held || AllocSum(a.allocs, Held) > a.row.held then (db, Failed(InsufficientFunds))
        else
          var a' := Account(ReleasedRow(a.row, amount), MarkReleased(a.allocs, found.value), a.fundKeys);
          (Post(db, op.escrow, a', ReleaseLegs(db.groups, op.escrow, a'.row, amount),
                ReleasedEvent(op.escrow, a.row.contract, amount, Milestone(op.milestone))),
           GotEscrow(op.escrow, a'.row))
  }

  function ApplyReleaseHours(db: Db, op: Op): (Db, Reply)
    requires op.ReleaseHours?
  {
    if op.amount <= 0 then (db, Failed(BadAmount))
    else if op.escrow >= |db.accounts| then (db, Failed(NotFound))
    else
      var a := db.accounts[op.escrow];
      if FindActive(a.allocs, Week(op.week)).Some? then (db, GotEscrow(op.escrow, a.row))
      else if op.amount > a.row.held - AllocSum(a.allocs, Held) then (db, Failed(InsufficientFunds))
      else
        var alloc := Allocation(Week(op.week), op.amount, Released);
        var a' := Account(ReleasedRow(a.row, op.amount), a.allocs + [alloc], a.fundKeys);
        (Post(db, op.escrow, a', ReleaseLegs(db.groups, op.escrow, a'.row, op.amount),
              ReleasedEvent(op.escrow, a.row.contract, op.amount, Week(op.week))),
         GotEscrow(op.escrow, a'.row))
  }

  function ApplyRefund(db: Db, op: Op): (Db, Reply)
    requires op.Refund?
  {
    if op.amount <= 0 then (db, Failed(BadAmount))
    else if op.escrow >= |db.accounts| then (db, Failed(NotFound))
    else
      var a := db.accounts[op.escrow];
      if op.amount > a.row.held - AllocSum(a.allocs, Held) then (db, Failed(InsufficientFunds))
      else
        var a' := a.(row := RefundedRow(a.row, op.amount));
        (Post(db, op.escrow, a', RefundLegs(db.groups, op.escrow, a'.row, op.amount),
              RefundedEvent(op.escrow, a.row.contract, op.amount, op.reason)),
         GotEscrow(op.escrow, a'.row))
  }

  /** One operation run alone: the database it commits and what it returns. */
  function Apply(db: Db, op: Op): (Db, Reply) {
    match op
    case Fund(_, _, _, _) => ApplyFund(db, op)
    case Allocate(_, _, _) => ApplyAllocate(db, op)
    case ReleaseMilestone(_, _, _) => ApplyReleaseMilestone(db, op)
    case ReleaseHours(_, _, _) => ApplyReleaseHours(db, op)
    case Refund(_, _, _) => ApplyRefund(db, op)
  }

  /** A whole run of operations, one after the other. */
  function Exec(db: Db, ops: seq<Op>): Db {
    if ops == [] then db else Apply(Exec(db, ops[..|ops| - 1]), ops[|ops| - 1]).0
  }
}
