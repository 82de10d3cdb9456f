/**
 * Escrow under concurrency. Each call is a transaction that runs one SQL statement at a time:
 * statements read committed rows overlaid with the transaction's own writes, LockEscrow (and the
 * upsert of FundEscrow) waits for the row lock of the contract's account, and a crash at any point
 * discards the transaction. Every interleaving of any number of calls is shown to commit what the
 * same calls commit when run one after the other, in the order in which they finished.
 *
 * A UUID minted inside a transaction (a new account's id, a ledger group) is invisible to others
 * until the commit, so the model assigns it there.
 */
module EscrowConcurrency {
  import opened Basics
  import opened EscrowModel
  import opened EscrowBooks
  import opened EscrowRetries
  import opened Serial

  /** One uncommitted write. Updates are relative to the row, as in `held_cents = held_cents - $2`. */
  datatype Effect =
    | Create(contract: string, currency: string)
    | UseKey(key: string)
    | AddHeld(cents: int)
    | Insert(alloc: Allocation)
    | Mark(index: nat)
    | MoveToReleased(cents: int, status: EscrowStatus)
    | MoveToRefunded(cents: int, status: EscrowStatus)

  function Write(a: Account, e: Effect): Account {
    match e
    case Create(contract, currency) => NewAccount(contract, currency)
    case UseKey(key) => a.(fundKeys := a.fundKeys + {key})
    case AddHeld(cents) => a.(row := a.row.(held := a.row.held + cents))
    case Insert(alloc) => a.(allocs := a.allocs + [alloc])
    case Mark(i) =>
      if i < |a.allocs| && a.allocs[i].status.Held? then a.(allocs := MarkReleased(a.allocs, i)) else a
    case MoveToReleased(cents, status) =>
      a.(row := a.row.(held := a.row.held - cents, released := a.row.released + cents, status := status))
    case MoveToRefunded(cents, status) =>
      a.(row := a.row.(held := a.row.held - cents, refunded := a.row.refunded + cents, status := status))
  }

  /** What a transaction sees: the committed account under its own writes. */
  function Overlay(base: Account, effects: seq<Effect>): Account {
    if effects == [] then base else Write(Overlay(base, effects[..|effects| - 1]), effects[|effects| - 1])
  }

  lemma OverlaySnoc(base: Account, effects: seq<Effect>, e: Effect)
    ensures Overlay(base, effects + [e]) == Write(Overlay(base, effects), e)
  {
    assert (effects + [e])[..|effects|] == effects;
  }

  /** What the ledger legs and the outbox event of a transaction will say. */
  datatype Movement =
    | NoMovement
    | Hold(amount: int)
    | Pay(amount: int, target: Target)
    | GiveBack(amount: int, reason: string)

  /** The last statement a transaction has completed. */
  datatype Pc =
    | Begun | Upserted | Locked | KeyUsed | Looked | Summed | Inserted | Marked | Moved | Posted | Ready | ReadBack

  /** The operation's local variables: the row as last read and the allocation picked. */
  datatype Txn = Txn(
    op: Op, pc: Pc, lock: Option<string>, row: Row, pick: nat,
    effects: seq<Effect>, movement: Movement, result: Option<Allocation>)

  const NO_ROW := Row("", "", 0, 0, 0, StatusHeld)

  const NO_ACCOUNT := Account(NO_ROW, [], {})

  function Start(op: Op): Txn { Txn(op, Begun, None, NO_ROW, 0, [], NoMovement, None) }

  function Contract(db: Db, op: Op): string
    requires op.Fund? || op.escrow < |db.accounts|
  {
    if op.Fund? then op.contract else db.accounts[op.escrow].row.contract
  }

  function TargetId(db: Db, op: Op): (id: nat)
    requires op.Fund? || op.escrow < |db.accounts|
    ensures id <= |db.accounts|
  {
    if op.Fund? then FundTarget(db, op.contract) else op.escrow
  }

  /** The committed account a transaction works on; FundEscrow may be creating it. */
  function Base(db: Db, op: Op): Account
    requires op.Fund? || op.escrow < |db.accounts|
  {
    var id := TargetId(db, op);
    if id < |db.accounts| then db.accounts[id] else NO_ACCOUNT
  }

  function Seen(db: Db, t: Txn): Account
    requires t.op.Fund? || t.op.escrow < |db.accounts|
  {
    Overlay(Base(db, t.op), t.effects)
  }

  /** A statement either leaves the transaction open, or ends the call with a rollback and a reply. */
  datatype Result = Continue(txn: Txn) | End(reply: Reply)

  /** The first statement: validation, then the lock. The caller checks that the lock is free. */
  function Acquire(db: Db, t: Txn): Result {
    if t.op.Fund? then
      if t.op.amount <= 0 then End(Failed(BadAmount))
      else
        Continue(t.(pc := Upserted, lock := Some(t.op.contract),
          effects :=
            if FindContract(db.accounts, t.op.contract).Some? then [] else [Create(t.op.contract, t.op.currency)]))
    else if !t.op.ReleaseMilestone? && t.op.amount <= 0 then End(Failed(BadAmount))
    else if t.op.escrow >= |db.accounts| then End(Failed(NotFound))
    else
      Continue(t.(pc := Locked, lock := Some(Contract(db, t.op)), row := Base(db, t.op).row))
  }

  function FundStatement(db: Db, t: Txn): Result
    requires t.op.Fund?
  {
    var a := Seen(db, t);
    match t.pc
    case Upserted => Continue(t.(pc := Locked, row := a.row))
    case Locked =>
      if t.op.key == "" then Continue(t.(pc := KeyUsed))
      else if t.op.key in a.fundKeys then
        Continue(t.(pc := ReadBack, lock := None, effects := []))
      else Continue(t.(pc := KeyUsed, effects := t.effects + [UseKey(t.op.key)]))
    case KeyUsed =>
      var effects := t.effects + [AddHeld(t.op.amount)];
      Continue(t.(pc := Moved, effects := effects, row := Overlay(Base(db, t.op), effects).row))
    case Moved => Continue(t.(pc := Posted, movement := Hold(t.op.amount)))
    case Posted => Continue(t.(pc := Ready))
    case ReadBack => End(GotEscrow(TargetId(db, t.op), Base(db, t.op).row))
    case _ => Continue(t)
  }

  function AllocateStatement(db: Db, t: Txn): Result
    requires t.op.Allocate? && t.op.escrow < |db.accounts|
  {
    var a := Seen(db, t);
    var found := FindActive(a.allocs, Milestone(t.op.milestone));
    match t.pc
    case Locked =>
      if found.Some? then Continue(t.(pc := Ready, result := Some(a.allocs[found.value])))
      else Continue(t.(pc := Looked))
    case Looked =>
      var reserved := AllocSum(a.allocs, Held);
      if t.op.amount > t.row.held - reserved then End(Failed(InsufficientFunds))
      else Continue(t.(pc := Summed))
    case Summed =>
      var alloc := Allocation(Milestone(t.op.milestone), t.op.amount, Held);
      if found.Some? then Continue(t.(pc := Ready, result := Some(a.allocs[found.value])))
      else Continue(t.(pc := Ready, effects := t.effects + [Insert(alloc)], result := Some(alloc)))
    case _ => Continue(t)
  }

  function ReleaseMilestoneStatement(db: Db, t: Txn): Result
    requires t.op.ReleaseMilestone? && t.op.escrow < |db.accounts|
  {
    var a := Seen(db, t);
    match t.pc
    case Locked =>
      var found := FindHeld(a.allocs, Milestone(t.op.milestone));
      if found.None? then End(Failed(NotFound)) else Continue(t.(pc := Looked, pick := found.value))
    case Looked =>
      var reserved := AllocSum(a.allocs, Held);
      if t.pick >= |a.allocs| || a.allocs[t.pick].amount > t.row.held || reserved > t.row.held
      then End(Failed(InsufficientFunds))
      else Continue(t.(pc := Summed))
    case Summed =>
      if t.pick >= |a.allocs| || !a.allocs[t.pick].status.Held? then End(Failed(NotFound))
      else Continue(t.(pc := Marked, effects := t.effects + [Mark(t.pick)]))
    case Marked =>
      if t.pick >= |a.allocs| then End(Failed(NotFound))
      else
        var amount := a.allocs[t.pick].amount;
        var effects := t.effects + [MoveToReleased(amount, StatusAfterRelease(t.row.held - amount))];
        Continue(t.(pc := Moved, effects := effects, row := Overlay(Base(db, t.op), effects).row))
    case Moved =>
      if t.pick >= |a.allocs| then End(Failed(NotFound))
      else Continue(t.(pc := Posted, movement := Pay(a.allocs[t.pick].amount, Milestone(t.op.milestone))))
    case Posted => Continue(t.(pc := Ready))
    case _ => Continue(t)
  }

  function ReleaseHoursStatement(db: Db, t: Txn): Result
    requires t.op.ReleaseHours? && t.op.escrow < |db.accounts|
  {
    var a := Seen(db, t);
    var found := FindActive(a.allocs, Week(t.op.week));
    match t.pc
    case Locked => Continue(t.(pc := if found.Some? then Ready else Looked))
    case Looked =>
      var reserved := AllocSum(a.allocs, Held);
      if t.op.amount > t.row.held - reserved then End(Failed(InsufficientFunds))
      else Continue(t.(pc := Summed))
    case Summed =>
      if found.Some? then Continue(t.(pc := Ready))
      else
        Continue(t.(pc := Inserted, pick := |a.allocs|,
          effects := t.effects + [Insert(Allocation(Week(t.op.week), t.op.amount, Held))]))
    case Inserted =>
      if t.pick >= |a.allocs| || !a.allocs[t.pick].status.Held? then End(Failed(NotFound))
      else Continue(t.(pc := Marked, effects := t.effects + [Mark(t.pick)]))
    case Marked =>
      var effects := t.effects + [MoveToReleased(t.op.amount, StatusAfterRelease(t.row.held - t.op.amount))];
      Continue(t.(pc := Moved, effects := effects, row := Overlay(Base(db, t.op), effects).row))
    case Moved => Continue(t.(pc := Posted, movement := Pay(t.op.amount, Week(t.op.week))))
    case Posted => Continue(t.(pc := Ready))
    case _ => Continue(t)
  }

  function RefundStatement(db: Db, t: Txn): Result
    requires t.op.Refund? && t.op.escrow < |db.accounts|
  {
    var a := Seen(db, t);
    match t.pc
    case Locked =>
      var reserved := AllocSum(a.allocs, Held);
      if t.op.amount > t.row.held - reserved then End(Failed(InsufficientFunds))
      else Continue(t.(pc := Summed))
    case Summed =>
      var status := if t.row.held - t.op.amount == 0 then StatusRefunded else StatusHeld;
      var effects := t.effects + [MoveToRefunded(t.op.amount, status)];
      Continue(t.(pc := Moved, effects := effects, row := Overlay(Base(db, t.op), effects).row))
    case Moved => Continue(t.(pc := Posted, movement := GiveBack(t.op.amount, t.op.reason)))
    case Posted => Continue(t.(pc := Ready))
    case _ => Continue(t)
  }

  function Statement(db: Db, t: Txn): Result
    requires t.pc.Begun? || t.op.Fund? || t.op.escrow < |db.accounts|
  {
    if t.pc.Begun? then Acquire(db, t)
    else
      match t.op
      case Fund(_, _, _, _) => FundStatement(db, t)
      case Allocate(_, _, _) => AllocateStatement(db, t)
      case ReleaseMilestone(_, _, _) => ReleaseMilestoneStatement(db, t)
      case ReleaseHours(_, _, _) => ReleaseHoursStatement(db, t)
      case Refund(_, _, _) => RefundStatement(db, t)
  }

  /** What the commit makes visible. */
  function Commit(db: Db, t: Txn): Db
    requires t.op.Fund? || t.op.escrow < |db.accounts|
  {
    var id, a := TargetId(db, t.op), Seen(db, t);
    match t.movement
    case NoMovement => if t.effects == [] then db else db.(accounts := Put(db.accounts, id, a))
    case Hold(amount) =>
      Post(db, id, a, HoldLegs(db.groups, id, t.row, amount), FundedEvent(id, t.row.contract, amount, t.row.held))
    case Pay(amount, target) =>
      Post(db, id, a, ReleaseLegs(db.groups, id, t.row, amount), ReleasedEvent(id, t.row.contract, amount, target))
    case GiveBack(amount, reason) =>
      Post(db, id, a, RefundLegs(db.groups, id, t.row, amount), RefundedEvent(id, t.row.contract, amount, reason))
  }

  function CommitReply(db: Db, t: Txn): Reply
    requires t.op.Fund? || t.op.escrow < |db.accounts|
  {
    if t.result.Some? then GotAllocation(t.result.value) else GotEscrow(TargetId(db, t.op), t.row)
  }

  // ---------------------------------------------------------------------------------------------
  // What a transaction knows between its statements
  // ---------------------------------------------------------------------------------------------

  ghost predicate FundKnows(db: Db, t: Txn)
    requires t.op.Fund?
  {
    var a := FundAccount(db, t.op.contract, t.op.currency);
    var key := t.op.key;
    && t.op.amount > 0 && t.result.None?
    && match t.pc
       case Upserted => Seen(db, t) == a && t.movement.NoMovement?
       case Locked => Seen(db, t) == a && t.row == a.row && t.movement.NoMovement?
       case KeyUsed =>
         && (key == "" || key !in a.fundKeys)
         && Seen(db, t) == Credited(a, 0, key) && t.movement.NoMovement?
       case Moved =>
         && (key == "" || key !in a.fundKeys)
         && Seen(db, t) == Credited(a, t.op.amount, key) && t.row == Seen(db, t).row && t.movement.NoMovement?
       case Posted =>
         && (key == "" || key !in a.fundKeys)
         && Seen(db, t) == Credited(a, t.op.amount, key) && t.row == Seen(db, t).row && t.movement == Hold(t.op.amount)
       case Ready =>
         && (key == "" || key !in a.fundKeys)
         && Seen(db, t) == Credited(a, t.op.amount, key) && t.row == Seen(db, t).row && t.movement == Hold(t.op.amount)
       case ReadBack =>
         key != "" && Settled(db, t.op)
       case _ => false
  }

  ghost predicate AllocateKnows(db: Db, t: Txn)
    requires t.op.Allocate? && t.op.escrow < |db.accounts|
  {
    var a := db.accounts[t.op.escrow];
    var found := FindActive(a.allocs, Milestone(t.op.milestone));
    && t.op.amount > 0 && t.movement.NoMovement? && t.row == a.row
    && match t.pc
       case Locked => t.effects == []
       case Looked => t.effects == [] && found.None?
       case Summed => t.effects == [] && found.None? && t.op.amount <= a.row.held - AllocSum(a.allocs, Held)
       case Ready =>
         if found.Some? then t.effects == [] && t.result == Some(a.allocs[found.value])
         else
           && t.op.amount <= a.row.held - AllocSum(a.allocs, Held)
           && t.effects == [Insert(Allocation(Milestone(t.op.milestone), t.op.amount, Held))]
           && t.result == Some(Allocation(Milestone(t.op.milestone), t.op.amount, Held))
       case _ => false
  }

  ghost predicate ReleaseMilestoneKnows(db: Db, t: Txn)
    requires t.op.ReleaseMilestone? && t.op.escrow < |db.accounts|
  {
    var a := db.accounts[t.op.escrow];
    var found := FindHeld(a.allocs, Milestone(t.op.milestone));
    && t.result.None?
    && match t.pc
       case Locked => t.row == a.row && t.effects == [] && t.movement.NoMovement?
       case Looked => found == Some(t.pick) && t.row == a.row && t.effects == [] && t.movement.NoMovement?
       case Summed => found == Some(t.pick) && t.row == a.row && t.effects == [] && t.movement.NoMovement?
       case Marked => found == Some(t.pick) && t.row == a.row && t.effects == [Mark(t.pick)] && t.movement.NoMovement?
       case Moved =>
         && found == Some(t.pick) && t.row == ReleasedRow(a.row, a.allocs[t.pick].amount)
         && Seen(db, t) == Account(t.row, MarkReleased(a.allocs, t.pick), a.fundKeys) && t.movement.NoMovement?
       case Posted =>
         && found == Some(t.pick) && t.row == ReleasedRow(a.row, a.allocs[t.pick].amount)
         && Seen(db, t) == Account(t.row, MarkReleased(a.allocs, t.pick), a.fundKeys)
         && t.movement == Pay(a.allocs[t.pick].amount, Milestone(t.op.milestone))
       case Ready =>
         && found == Some(t.pick) && t.row == ReleasedRow(a.row, a.allocs[t.pick].amount)
         && Seen(db, t) == Account(t.row, MarkReleased(a.allocs, t.pick), a.fundKeys)
         && t.movement == Pay(a.allocs[t.pick].amount, Milestone(t.op.milestone))
       case _ => false
  }

  ghost predicate ReleaseHoursKnows(db: Db, t: Txn)
    requires t.op.ReleaseHours? && t.op.escrow < |db.accounts|
  {
    var a := db.accounts[t.op.escrow];
    var found := FindActive(a.allocs, Week(t.op.week));
    var fits := t.op.amount <= a.row.held - AllocSum(a.allocs, Held);
    var inserted := a.allocs + [Allocation(Week(t.op.week), t.op.amount, Held)];
    var released := a.allocs + [Allocation(Week(t.op.week), t.op.amount, Released)];
    && t.op.amount > 0 && t.result.None?
    && match t.pc
       case Locked => t.row == a.row && t.effects == [] && t.movement.NoMovement?
       case Looked => t.row == a.row && t.effects == [] && t.movement.NoMovement? && found.None?
       case Summed => t.row == a.row && t.effects == [] && t.movement.NoMovement? && found.None? && fits
       case Inserted =>
         && t.row == a.row && t.movement.NoMovement? && found.None? && fits && t.pick == |a.allocs|
         && Seen(db, t) == a.(allocs := inserted)
       case Marked =>
         && t.row == a.row && t.movement.NoMovement? && found.None? && fits
         && Seen(db, t) == a.(allocs := released)
       case Moved =>
         && t.movement.NoMovement? && found.None? && fits && t.row == ReleasedRow(a.row, t.op.amount)
         && Seen(db, t) == Account(t.row, released, a.fundKeys)
       case Posted =>
         && t.movement == Pay(t.op.amount, Week(t.op.week)) && found.None? && fits
         && t.row == ReleasedRow(a.row, t.op.amount) && Seen(db, t) == Account(t.row, released, a.fundKeys)
       case Ready =>
         if found.Some? then t.row == a.row && t.effects == [] && t.movement.NoMovement?
         else
           && t.movement == Pay(t.op.amount, Week(t.op.week)) && fits
           && t.row == ReleasedRow(a.row, t.op.amount) && Seen(db, t) == Account(t.row, released, a.fundKeys)
       case _ => false
  }

  ghost predicate RefundKnows(db: Db, t: Txn)
    requires t.op.Refund? && t.op.escrow < |db.accounts|
  {
    var a := db.accounts[t.op.escrow];
    var fits := t.op.amount <= a.row.held - AllocSum(a.allocs, Held);
    && t.op.amount > 0 && t.result.None?
    && match t.pc
       case Locked => t.row == a.row && t.effects == [] && t.movement.NoMovement?
       case Summed => t.row == a.row && t.effects == [] && t.movement.NoMovement? && fits
       case Moved =>
         && fits && t.row == RefundedRow(a.row, t.op.amount) && t.movement.NoMovement?
         && Seen(db, t) == a.(row := t.row)
       case Posted =>
         && fits && t.row == RefundedRow(a.row, t.op.amount) && t.movement == GiveBack(t.op.amount, t.op.reason)
         && Seen(db, t) == a.(row := t.row)
       case Ready =>
         && fits && t.row == RefundedRow(a.row, t.op.amount) && t.movement == GiveBack(t.op.amount, t.op.reason)
         && Seen(db, t) == a.(row := t.row)
       case _ => false
  }

  /** Everything a transaction has read is still what is committed, because it holds the lock. */
  ghost predicate Knows(db: Db, t: Txn) {
    if t.pc.Begun? then t == Start(t.op)
    else
      && (t.op.Fund? || t.op.escrow < |db.accounts|)
      && t.lock == (if t.pc.ReadBack? then None else Some(Contract(db, t.op)))
      && match t.op
         case Fund(_, _, _, _) => FundKnows(db, t)
         case Allocate(_, _, _) => AllocateKnows(db, t)
         case ReleaseMilestone(_, _, _) => ReleaseMilestoneKnows(db, t)
         case ReleaseHours(_, _, _) => ReleaseHoursKnows(db, t)
         case Refund(_, _, _) => RefundKnows(db, t)
  }

  // ---------------------------------------------------------------------------------------------
  // One statement keeps what the transaction knows, and ends calls as the atomic operation does
  // ---------------------------------------------------------------------------------------------

  /** The outcome of a statement agrees with the call run alone on the committed database. */
  ghost predicate Sound(db: Db, t: Txn, r: Result) {
    match r
    case Continue(t') => t'.op == t.op && Knows(db, t')
    case End(reply) => Apply(db, t.op) == (db, reply)
  }

  lemma AcquireIsSound(db: Db, t: Txn)
    requires t == Start(t.op)
    ensures Sound(db, t, Acquire(db, t))
  {
    if t.op.Fund? && t.op.amount > 0 && FindContract(db.accounts, t.op.contract).None? {
      OverlaySnoc(NO_ACCOUNT, [], Create(t.op.contract, t.op.currency));
      assert [] + [Create(t.op.contract, t.op.currency)] == [Create(t.op.contract, t.op.currency)];
    }
  }

  lemma FundKeyIsSound(db: Db, t: Txn)
    requires Knows(db, t) && t.op.Fund? && t.pc.Locked?
    ensures Sound(db, t, FundStatement(db, t))
  {
    OverlaySnoc(Base(db, t.op), t.effects, UseKey(t.op.key));
    var a := FundAccount(db, t.op.contract, t.op.currency);
    assert Credited(a, 0, t.op.key) == if t.op.key == "" then a else Write(a, UseKey(t.op.key));
  }

  lemma FundCreditIsSound(db: Db, t: Txn)
    requires Knows(db, t) && t.op.Fund? && t.pc.KeyUsed?
    ensures Sound(db, t, FundStatement(db, t))
  {
    OverlaySnoc(Base(db, t.op), t.effects, AddHeld(t.op.amount));
    var a := FundAccount(db, t.op.contract, t.op.currency);
    assert Write(Credited(a, 0, t.op.key), AddHeld(t.op.amount)) == Credited(a, t.op.amount, t.op.key);
  }

  lemma FundIsSound(db: Db, t: Txn)
    requires Knows(db, t) && t.op.Fund? && !t.pc.Begun?
    ensures Sound(db, t, FundStatement(db, t))
  {
    match t.pc
    case Locked => FundKeyIsSound(db, t);
    case KeyUsed => FundCreditIsSound(db, t);
    case _ =>
  }

  lemma AllocateIsSound(db: Db, t: Txn)
    requires Knows(db, t) && t.op.Allocate? && !t.pc.Begun?
    ensures Sound(db, t, AllocateStatement(db, t))
  {
  }

  /** Marking an allocation and moving its amount are together the release of the atomic operation. */
  lemma OverlayOfRelease(a: Account, i: nat, amount: int)
    requires i < |a.allocs| && a.allocs[i].status.Held?
    ensures Overlay(a, [Mark(i)]) == a.(allocs := MarkReleased(a.allocs, i))
    ensures Overlay(a, [Mark(i)] + [MoveToReleased(amount, StatusAfterRelease(a.row.held - amount))])
      == Account(ReleasedRow(a.row, amount), MarkReleased(a.allocs, i), a.fundKeys)
  {
    OverlaySnoc(a, [], Mark(i));
    assert [] + [Mark(i)] == [Mark(i)];
    OverlaySnoc(a, [Mark(i)], MoveToReleased(amount, StatusAfterRelease(a.row.held - amount)));
  }

  lemma ReleaseMilestoneMoveIsSound(db: Db, t: Txn)
    requires Knows(db, t) && t.op.ReleaseMilestone? && t.pc.Marked?
    ensures Sound(db, t, ReleaseMilestoneStatement(db, t))
  {
    var a := db.accounts[t.op.escrow];
    OverlayOfRelease(a, t.pick, a.allocs[t.pick].amount);
  }

  lemma ReleaseMilestoneIsSound(db: Db, t: Txn)
    requires Knows(db, t) && t.op.ReleaseMilestone? && !t.pc.Begun?
    ensures Sound(db, t, ReleaseMilestoneStatement(db, t))
  {
    if t.pc.Marked? {
      ReleaseMilestoneMoveIsSound(db, t);
    } else if t.pc.Summed? {
      assert [] + [Mark(t.pick)] == [Mark(t.pick)];
    }
  }

  lemma OverlayOfInsert(a: Account, alloc: Allocation)
    ensures Overlay(a, [Insert(alloc)]) == a.(allocs := a.allocs + [alloc])
  {
    OverlaySnoc(a, [], Insert(alloc));
    assert [] + [Insert(alloc)] == [Insert(alloc)];
  }

  lemma ReleaseHoursInsertIsSound(db: Db, t: Txn)
    requires Knows(db, t) && t.op.ReleaseHours? && t.pc.Summed?
    ensures Sound(db, t, ReleaseHoursStatement(db, t))
  {
    hide FundKnows, AllocateKnows, ReleaseMilestoneKnows, RefundKnows, Apply, FindActive, AllocSum, Write;
    var insert := Insert(Allocation(Week(t.op.week), t.op.amount, Held));
    OverlayOfInsert(db.accounts[t.op.escrow], Allocation(Week(t.op.week), t.op.amount, Held));
    assert [] + [insert] == [insert];
  }

  lemma ReleaseHoursMarkIsSound(db: Db, t: Txn)
    requires Knows(db, t) && t.op.ReleaseHours? && t.pc.Inserted?
    ensures Sound(db, t, ReleaseHoursStatement(db, t))
  {
    hide FundKnows, AllocateKnows, ReleaseMilestoneKnows, RefundKnows, Apply, FindActive, AllocSum;
    var a := db.accounts[t.op.escrow];
    var alloc := Allocation(Week(t.op.week), t.op.amount, Held);
    OverlaySnoc(a, t.effects, Mark(t.pick));
    assert MarkReleased(a.allocs + [alloc], |a.allocs|) == a.allocs + [alloc.(status := Released)];
  }

  lemma ReleaseHoursMoveIsSound(db: Db, t: Txn)
    requires Knows(db, t) && t.op.ReleaseHours? && t.pc.Marked?
    ensures Sound(db, t, ReleaseHoursStatement(db, t))
  {
    OverlaySnoc(db.accounts[t.op.escrow], t.effects,
      MoveToReleased(t.op.amount, StatusAfterRelease(t.row.held - t.op.amount)));
  }

  lemma ReleaseHoursIsSound(db: Db, t: Txn)
    requires Knows(db, t) && t.op.ReleaseHours? && !t.pc.Begun?
    ensures Sound(db, t, ReleaseHoursStatement(db, t))
  {
    match t.pc
    case Summed => ReleaseHoursInsertIsSound(db, t);
    case Inserted => ReleaseHoursMarkIsSound(db, t);
    case Marked => ReleaseHoursMoveIsSound(db, t);
    case _ =>
  }

  lemma OverlayOfRefund(a: Account, amount: int)
    ensures var status := if a.row.held - amount == 0 then StatusRefunded else StatusHeld;
      Overlay(a, [] + [MoveToRefunded(amount, status)]) == a.(row := RefundedRow(a.row, amount))
  {
    OverlaySnoc(a, [], MoveToRefunded(amount, if a.row.held - amount == 0 then StatusRefunded else StatusHeld));
  }

  lemma RefundIsSound(db: Db, t: Txn)
    requires Knows(db, t) && t.op.Refund? && !t.pc.Begun?
    ensures Sound(db, t, RefundStatement(db, t))
  {
    if t.pc.Summed? {
      OverlayOfRefund(db.accounts[t.op.escrow], t.op.amount);
    }
  }

  // ---------------------------------------------------------------------------------------------
  // A commit is the atomic operation
  // ---------------------------------------------------------------------------------------------

  lemma ReleaseMilestoneCommits(db: Db, t: Txn)
    requires Inv(db) && Knows(db, t) && t.op.ReleaseMilestone? && t.pc.Ready?
    ensures Apply(db, t.op) == (Commit(db, t), CommitReply(db, t))
  {
    var a := db.accounts[t.op.escrow];
    assert Solvent(a);
    HeldAllocationIsCovered(a, Milestone(t.op.milestone));
  }

  lemma AllocateCommits(db: Db, t: Txn)
    requires Knows(db, t) && t.op.Allocate? && t.pc.Ready?
    ensures Apply(db, t.op) == (Commit(db, t), CommitReply(db, t))
  {
    var a := db.accounts[t.op.escrow];
    var insert := Insert(Allocation(Milestone(t.op.milestone), t.op.amount, Held));
    OverlaySnoc(a, [], insert);
    assert [] + [insert] == [insert];
  }

  lemma CommitIsApply(db: Db, t: Txn)
    requires Inv(db) && Knows(db, t) && t.pc.Ready?
    ensures Apply(db, t.op) == (Commit(db, t), CommitReply(db, t))
  {
    match t.op
    case Allocate(_, _, _) => AllocateCommits(db, t);
    case ReleaseMilestone(_, _, _) => ReleaseMilestoneCommits(db, t);
    case _ =>
  }

  /** What a transaction knows depends only on its own account. */
  lemma KnowsFrame(db: Db, after: Db, u: Txn)
    requires Knows(db, u) && !u.pc.ReadBack?
    requires !u.op.Fund? && !u.pc.Begun? ==>
      u.op.escrow < |after.accounts| && after.accounts[u.op.escrow] == db.accounts[u.op.escrow]
    requires u.op.Fund? ==>
      && Base(after, u.op) == Base(db, u.op)
      && FundAccount(after, u.op.contract, u.op.currency) == FundAccount(db, u.op.contract, u.op.currency)
    ensures Knows(after, u)
  {
  }

  lemma AppliesToOneAccount(db: Db, op: Op) returns (id: nat)
    requires Apply(db, op).0 != db
    ensures op.Fund? || op.escrow < |db.accounts|
    ensures id == TargetId(db, op) && id < |Apply(db, op).0.accounts|
    ensures Apply(db, op).0.accounts == Put(db.accounts, id, Apply(db, op).0.accounts[id])
    ensures Apply(db, op).0.accounts[id].row.contract == Contract(db, op)
  {
    id := TargetId(db, op);
  }

  /** A commit does not disturb a transaction that holds another account's lock, or none. */
  lemma OthersKeepKnowing(db: Db, op: Op, u: Txn)
    requires Inv(db) && Knows(db, u)
    requires op.Fund? || op.escrow < |db.accounts|
    requires u.lock != Some(Contract(db, op))
    ensures Knows(Apply(db, op).0, u)
  {
    var after := Apply(db, op).0;
    if u.pc.ReadBack? {
      SettledStays(db, u.op, op);
    } else if after != db && !u.pc.Begun? {
      var id := AppliesToOneAccount(db, op);
      if u.op.Fund? {
        FindContractStable(db.accounts, id, after.accounts[id], u.op.contract);
      } else {
        assert id != u.op.escrow;
      }
      KnowsFrame(db, after, u);
    }
  }

  // ---------------------------------------------------------------------------------------------
  // The system: any number of transactions, any interleaving
  // ---------------------------------------------------------------------------------------------

  /** The committed database, the open transactions, and the calls that returned, in order. */
  datatype Sys = Sys(db: Db, txns: map<nat, Txn>, done: seq<Finished<Op, Reply>>)

  datatype Step = Open(tid: nat, op: Op) | Run(tid: nat) | Finish(tid: nat) | Crash(tid: nat)

  const BOOT := Sys(EMPTY, map[], [])

  ghost predicate LockFree(s: Sys, tid: nat, lock: Option<string>) {
    lock.Some? ==> forall other :: other in s.txns && other != tid ==> s.txns[other].lock != lock
  }

  /** A statement that takes the row lock waits until nobody else holds it. */
  ghost predicate Enabled(s: Sys, step: Step) {
    match step
    case Open(tid, _) => tid !in s.txns
    case Run(tid) =>
      && tid in s.txns
      && !s.txns[tid].pc.Ready?
      && (var t := s.txns[tid];
          && (t.pc.Begun? || t.op.Fund? || t.op.escrow < |s.db.accounts|)
          && (t.pc.Begun? && Statement(s.db, t).Continue? ==> LockFree(s, tid, Statement(s.db, t).txn.lock)))
    case Finish(tid) =>
      tid in s.txns && s.txns[tid].pc.Ready? && (s.txns[tid].op.Fund? || s.txns[tid].op.escrow < |s.db.accounts|)
    case Crash(tid) => tid in s.txns
  }

  function Next(s: Sys, step: Step): Sys
    requires Enabled(s, step)
  {
    match step
    case Open(tid, op) => s.(txns := s.txns[tid := Start(op)])
    case Run(tid) =>
      var t := s.txns[tid];
      (match Statement(s.db, t)
       case Continue(t') => s.(txns := s.txns[tid := t'])
       case End(reply) => s.(txns := s.txns - {tid}, done := s.done + [Finished(t.op, reply)]))
    case Finish(tid) =>
      var t := s.txns[tid];
      Sys(Commit(s.db, t), s.txns - {tid}, s.done + [Finished(t.op, CommitReply(s.db, t))])
    case Crash(tid) => s.(txns := s.txns - {tid})
  }

  ghost predicate SysInv(s: Sys) {
    && s.db == Exec(EMPTY, Calls(s.done))
    && (forall k :: 0 <= k < |s.done| ==>
          s.done[k].reply == Apply(Exec(EMPTY, Calls(s.done)[..k]), s.done[k].op).1)
    && (forall tid :: tid in s.txns ==> Knows(s.db, s.txns[tid]))
    && (forall t, u :: t in s.txns && u in s.txns && t != u && s.txns[t].lock.Some? ==>
          s.txns[t].lock != s.txns[u].lock)
  }

  lemma StatementIsSound(db: Db, t: Txn)
    requires Knows(db, t)
    ensures Sound(db, t, Statement(db, t))
  {
    if t.pc.Begun? {
      AcquireIsSound(db, t);
    } else {
      match t.op
      case Fund(_, _, _, _) => FundIsSound(db, t);
      case Allocate(_, _, _) => AllocateIsSound(db, t);
      case ReleaseMilestone(_, _, _) => ReleaseMilestoneIsSound(db, t);
      case ReleaseHours(_, _, _) => ReleaseHoursIsSound(db, t);
      case Refund(_, _, _) => RefundIsSound(db, t);
    }
  }

  /** A transaction keeps its lock until it ends; only the first statement takes one. */
  lemma StatementLocks(db: Db, t: Txn)
    requires Knows(db, t) && !t.pc.Begun? && Statement(db, t).Continue?
    ensures Statement(db, t).txn.lock == t.lock || Statement(db, t).txn.lock.None?
  {
  }

  /** Recording a call that the atomic operation explains keeps the explanation complete. */
  lemma RecordKeepsHistory(db: Db, done: seq<Finished<Op, Reply>>, f: Finished<Op, Reply>)
    requires db == Exec(EMPTY, Calls(done))
    requires forall k :: 0 <= k < |done| ==> done[k].reply == Apply(Exec(EMPTY, Calls(done)[..k]), done[k].op).1
    requires f.reply == Apply(db, f.op).1
    ensures Apply(db, f.op).0 == Exec(EMPTY, Calls(done + [f]))
    ensures var all := done + [f];
      forall k :: 0 <= k < |all| ==> all[k].reply == Apply(Exec(EMPTY, Calls(all)[..k]), all[k].op).1
  {
    CallsSnoc(done, f);
    var all := done + [f];
    assert Calls(all)[..|done|] == Calls(done);
    forall k | 0 <= k < |all|
      ensures all[k].reply == Apply(Exec(EMPTY, Calls(all)[..k]), all[k].op).1
    {
      if k < |done| {
        assert Calls(all)[..k] == Calls(done)[..k];
        assert all[k] == done[k];
      }
    }
  }

  lemma ContinueKeepsSysInv(s: Sys, tid: nat, t: Txn)
    requires SysInv(s) && tid in s.txns && Knows(s.db, t)
    requires t.lock.None? || t.lock == s.txns[tid].lock || LockFree(s, tid, t.lock)
    ensures SysInv(s.(txns := s.txns[tid := t]))
  {
  }

  lemma EndKeepsSysInv(s: Sys, tid: nat, reply: Reply)
    requires SysInv(s) && tid in s.txns
    requires Apply(s.db, s.txns[tid].op) == (s.db, reply)
    ensures SysInv(s.(txns := s.txns - {tid}, done := s.done + [Finished(s.txns[tid].op, reply)]))
  {
    RecordKeepsHistory(s.db, s.done, Finished(s.txns[tid].op, reply));
  }

  lemma RunKeepsSysInv(s: Sys, tid: nat)
    requires SysInv(s) && Enabled(s, Run(tid))
    ensures SysInv(Next(s, Run(tid)))
  {
    var t := s.txns[tid];
    StatementIsSound(s.db, t);
    match Statement(s.db, t)
    case Continue(t') =>
      if !t.pc.Begun? {
        StatementLocks(s.db, t);
      }
      ContinueKeepsSysInv(s, tid, t');
    case End(reply) =>
      EndKeepsSysInv(s, tid, reply);
  }

  lemma FinishKeepsSysInv(s: Sys, tid: nat)
    requires SysInv(s) && Enabled(s, Finish(tid))
    ensures SysInv(Next(s, Finish(tid)))
  {
    var t := s.txns[tid];
    EveryRunKeepsTheBooks(Calls(s.done));
    CommitIsApply(s.db, t);
    RecordKeepsHistory(s.db, s.done, Finished(t.op, CommitReply(s.db, t)));
    forall u | u in s.txns && u != tid
      ensures Knows(Commit(s.db, t), s.txns[u])
    {
      OthersKeepKnowing(s.db, t.op, s.txns[u]);
    }
  }

  lemma OpenKeepsSysInv(s: Sys, tid: nat, op: Op)
    requires SysInv(s) && Enabled(s, Open(tid, op))
    ensures SysInv(Next(s, Open(tid, op)))
  {
    assert Knows(s.db, Start(op));
    hide Apply, Statement;
  }

  lemma CrashKeepsSysInv(s: Sys, tid: nat)
    requires SysInv(s) && Enabled(s, Crash(tid))
    ensures SysInv(Next(s, Crash(tid)))
  {
    hide Knows, Apply, Statement;
  }

  lemma StepKeepsSysInv(s: Sys, step: Step)
    requires SysInv(s) && Enabled(s, step)
    ensures SysInv(Next(s, step))
  {
    hide *;
    match step
    case Open(tid, op) => OpenKeepsSysInv(s, tid, op);
    case Run(tid) => RunKeepsSysInv(s, tid);
    case Finish(tid) => FinishKeepsSysInv(s, tid);
    case Crash(tid) => CrashKeepsSysInv(s, tid);
  }

  /** The states any interleaving of statements, commits and crashes can reach. */
  ghost predicate Reaches(s: Sys, steps: seq<Step>)
    decreases |steps|
  {
    if steps == [] then s == BOOT
    else
      var last := steps[|steps| - 1];
      exists before :: Reaches(before, steps[..|steps| - 1]) && Enabled(before, last) && s == Next(before, last)
  }

  lemma {:induction false} ReachableKeepsSysInv(s: Sys, steps: seq<Step>)
    requires Reaches(s, steps)
    ensures SysInv(s)
    decreases |steps|
  {
    if steps != [] {
      var init, last := steps[..|steps| - 1], steps[|steps| - 1];
      var before :| Reaches(before, init) && Enabled(before, last) && s == Next(before, last);
      ReachableKeepsSysInv(before, init);
      StepKeepsSysInv(before, last);
    }
  }

  /**
   * Serializability: in every interleaving, the committed database and every reply are those of the
   * finished calls run one after the other.
   */
  lemma {:induction false} EveryInterleavingIsSerial(s: Sys, steps: seq<Step>)
    requires Reaches(s, steps)
    ensures s.db == Exec(EMPTY, Calls(s.done))
    ensures forall k :: 0 <= k < |s.done| ==>
      s.done[k].reply == Apply(Exec(EMPTY, Calls(s.done)[..k]), s.done[k].op).1
  {
    ReachableKeepsSysInv(s, steps);
  }

  /** So the books are kept, and every account is solvent, in every committed state of every interleaving. */
  lemma {:induction false} EveryInterleavingKeepsTheBooks(s: Sys, steps: seq<Step>)
    requires Reaches(s, steps)
    ensures Inv(s.db)
  {
    EveryInterleavingIsSerial(s, steps);
    EveryRunKeepsTheBooks(Calls(s.done));
  }

  /** In no interleaving does a milestone release hit the drift guard, nor an insert a duplicate. */
  lemma {:induction false} GuardsAgainstRacesNeverFire(s: Sys, steps: seq<Step>, tid: nat)
    requires Reaches(s, steps) && tid in s.txns
    ensures var t := s.txns[tid];
      !t.op.Fund? && t.op.escrow < |s.db.accounts| ==>
        && (t.op.ReleaseMilestone? ==> Statement(s.db, t) != End(Failed(InsufficientFunds)))
        && (t.pc.Summed? && t.op.Allocate? ==> FindActive(Seen(s.db, t).allocs, Milestone(t.op.milestone)).None?)
        && (t.pc.Summed? && t.op.ReleaseHours? ==> FindActive(Seen(s.db, t).allocs, Week(t.op.week)).None?)
  {
    ReachableKeepsSysInv(s, steps);
    var t := s.txns[tid];
    if t.op.ReleaseMilestone? && t.op.escrow < |s.db.accounts| {
      StatementIsSound(s.db, t);
      DriftGuardNeverFires(Calls(s.done), t.op);
    }
  }
}
