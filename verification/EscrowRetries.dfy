/**
 * Retries do not matter: every keyed call that repeats an earlier successful call with the same
 * key can be deleted from a run without changing balances, allocations, ledger or events.
 */
module EscrowRetries {
  import opened Basics
  import opened EscrowModel
  import opened EscrowBooks

  /** Calls that carry a key: a non-empty funding key, a milestone, or a billing week. */
  predicate Keyed(op: Op) {
    match op
    case Fund(_, _, _, key) => key != ""
    case Refund(_, _, _) => false
    case _ => true
  }

  /** Same operation and same key; amounts and currencies may differ. */
  predicate SameKey(a: Op, b: Op) {
    match a
    case Fund(contract, _, _, key) => b.Fund? && b.contract == contract && b.key == key
    case Allocate(escrow, milestone, _) => b.Allocate? && b.escrow == escrow && b.milestone == milestone
    case ReleaseMilestone(escrow, milestone, _) => b.ReleaseMilestone? && b.escrow == escrow && b.milestone == milestone
    case ReleaseHours(escrow, week, _) => b.ReleaseHours? && b.escrow == escrow && b.week == week
    case Refund(_, _, _) => false
  }

  predicate Succeeds(db: Db, op: Op) { !Apply(db, op).1.Failed? }

  /** The trace an earlier success left behind, which makes any call with its key a no-op. */
  predicate Settled(db: Db, op: Op) {
    match op
    case Fund(contract, _, _, key) =>
      var found := FindContract(db.accounts, contract);
      found.Some? && key in db.accounts[found.value].fundKeys
    case Allocate(escrow, milestone, _) =>
      escrow < |db.accounts| && FindActive(db.accounts[escrow].allocs, Milestone(milestone)).Some?
    case ReleaseMilestone(escrow, milestone, _) =>
      escrow < |db.accounts| &&
      (var allocs := db.accounts[escrow].allocs;
       var found := FindActive(allocs, Milestone(milestone));
       found.Some? && allocs[found.value].status.Released?)
    case ReleaseHours(escrow, week, _) =>
      escrow < |db.accounts| && FindActive(db.accounts[escrow].allocs, Week(week)).Some?
    case Refund(_, _, _) => false
  }

  lemma {:induction false} FindContractStable(accounts: seq<Account>, id: nat, a: Account, contract: string)
    requires id <= |accounts|
    requires id < |accounts| ==> a.row.contract == accounts[id].row.contract
    ensures FindContract(accounts, contract).Some? ==>
      FindContract(Put(accounts, id, a), contract) == FindContract(accounts, contract)
    ensures FindContract(accounts, contract).None? && (id < |accounts| || a.row.contract != contract) ==>
      FindContract(Put(accounts, id, a), contract).None?
    ensures FindContract(accounts, contract).None? && id == |accounts| && a.row.contract == contract ==>
      FindContract(Put(accounts, id, a), contract) == Some(id)
  {
    var n := |accounts| - 1;
    if id == |accounts| {
      assert Put(accounts, id, a)[..id] == accounts;
    } else if id == n {
      assert Put(accounts, id, a)[..n] == accounts[..n];
    } else {
      assert Put(accounts, id, a)[..n] == Put(accounts[..n], id, a);
      FindContractStable(accounts[..n], id, a, contract);
    }
  }

  /** How any operation changes one account: it may append or release allocations and add keys, nothing else. */
  ghost predicate Grows(a: Account, b: Account) {
    && b.row.contract == a.row.contract
    && a.fundKeys <= b.fundKeys
    && |a.allocs| <= |b.allocs|
    && forall i :: 0 <= i < |a.allocs| ==>
         && b.allocs[i].target == a.allocs[i].target
         && b.allocs[i].amount == a.allocs[i].amount
         && (b.allocs[i].status == a.allocs[i].status || (a.allocs[i].status.Held? && b.allocs[i].status.Released?))
  }

  /** Every operation only grows every account, so the amount first recorded for a target stays recorded. */
  lemma ApplyOnlyGrows(db: Db, op: Op)
    ensures var after := Apply(db, op).0;
      && |db.accounts| <= |after.accounts|
      && forall i :: 0 <= i < |db.accounts| ==> Grows(db.accounts[i], after.accounts[i])
  {
    var after := Apply(db, op).0;
    if after.accounts != db.accounts {
      var id := if op.Fund? then FundTarget(db, op.contract) else op.escrow;
      assert after.accounts == Put(db.accounts, id, after.accounts[id]);
      assert id < |db.accounts| ==> Grows(db.accounts[id], after.accounts[id]);
    }
  }

  lemma FindActiveGrows(a: Account, b: Account, t: Target)
    requires Grows(a, b) && FindActive(a.allocs, t).Some?
    ensures FindActive(b.allocs, t) == FindActive(a.allocs, t)
  {
    var i := FindActive(a.allocs, t).value;
    assert Active(b.allocs[i], t);
    var j := FindActive(b.allocs, t).value;
    if j < i {
      assert Active(a.allocs[j], t);
    }
  }

  lemma ContractsStable(db: Db, op: Op, contract: string)
    requires FindContract(db.accounts, contract).Some?
    ensures FindContract(Apply(db, op).0.accounts, contract) == FindContract(db.accounts, contract)
  {
    var after := Apply(db, op).0;
    if after.accounts != db.accounts {
      var id := if op.Fund? then FundTarget(db, op.contract) else op.escrow;
      assert after.accounts == Put(db.accounts, id, after.accounts[id]);
      FindContractStable(db.accounts, id, after.accounts[id], contract);
    }
  }

  /** A settled key stays settled, whatever runs next. */
  lemma SettledStays(db: Db, key: Op, op: Op)
    requires Settled(db, key)
    ensures Settled(Apply(db, op).0, key)
  {
    ApplyOnlyGrows(db, op);
    match key
    case Fund(contract, _, _, _) =>
      ContractsStable(db, op, contract);
    case Allocate(escrow, milestone, _) =>
      FindActiveGrows(db.accounts[escrow], Apply(db, op).0.accounts[escrow], Milestone(milestone));
    case ReleaseMilestone(escrow, milestone, _) =>
      FindActiveGrows(db.accounts[escrow], Apply(db, op).0.accounts[escrow], Milestone(milestone));
    case ReleaseHours(escrow, week, _) =>
      FindActiveGrows(db.accounts[escrow], Apply(db, op).0.accounts[escrow], Week(week));
    case Refund(_, _, _) =>
  }

  lemma FundSettles(db: Db, op: Op)
    requires op.Fund? && op.key != "" && Succeeds(db, op)
    ensures Settled(Apply(db, op).0, op)
  {
    var after := Apply(db, op).0;
    var id := FundTarget(db, op.contract);
    if after != db {
      FindContractStable(db.accounts, id, after.accounts[id], op.contract);
      assert op.key in after.accounts[id].fundKeys;
    }
  }

  lemma ReleaseSettles(db: Db, op: Op)
    requires Inv(db) && op.ReleaseMilestone? && Succeeds(db, op)
    ensures Settled(Apply(db, op).0, op)
  {
    var a := db.accounts[op.escrow];
    var i := FindHeld(a.allocs, Milestone(op.milestone)).value;
    assert Solvent(a);
    FindActiveUnique(a.allocs, i, Milestone(op.milestone));
    FindActiveMarked(a.allocs, i, Milestone(op.milestone));
  }

  lemma AllocateSettles(db: Db, op: Op)
    requires op.Allocate? && Succeeds(db, op)
    ensures Settled(Apply(db, op).0, op)
  {
    FindActiveAppend(db.accounts[op.escrow].allocs, Allocation(Milestone(op.milestone), op.amount, Held),
      Milestone(op.milestone));
  }

  lemma HoursSettle(db: Db, op: Op)
    requires op.ReleaseHours? && Succeeds(db, op)
    ensures Settled(Apply(db, op).0, op)
  {
    FindActiveAppend(db.accounts[op.escrow].allocs, Allocation(Week(op.week), op.amount, Released), Week(op.week));
  }

  /** A successful keyed call settles its key. */
  lemma SuccessSettles(db: Db, op: Op)
    requires Inv(db) && Keyed(op) && Succeeds(db, op)
    ensures Settled(Apply(db, op).0, op)
  {
    match op
    case Fund(_, _, _, _) => FundSettles(db, op);
    case Allocate(_, _, _) => AllocateSettles(db, op);
    case ReleaseMilestone(_, _, _) => ReleaseSettles(db, op);
    case ReleaseHours(_, _, _) => HoursSettle(db, op);
  }

  /** A call whose key is settled changes nothing, whatever amount it carries. */
  lemma SettledMakesNoOp(db: Db, key: Op, op: Op)
    requires Inv(db) && Keyed(key) && Settled(db, key) && SameKey(key, op)
    ensures Apply(db, op).0 == db
  {
    if op.ReleaseMilestone? {
      var a := db.accounts[op.escrow];
      var found := FindHeld(a.allocs, Milestone(op.milestone));
      assert Solvent(a);
      if found.Some? {
        FindActiveUnique(a.allocs, found.value, Milestone(op.milestone));
      }
    }
  }

  /** Call i of a run repeats an earlier successful call with its key. */
  ghost predicate Repeats(db: Db, ops: seq<Op>, i: nat)
    requires i < |ops|
  {
    exists j :: 0 <= j < i && Keyed(ops[j]) && SameKey(ops[j], ops[i]) && Succeeds(Exec(db, ops[..j]), ops[j])
  }

  /** The run without the calls at the dropped positions. */
  function Without(ops: seq<Op>, dropped: set<nat>): seq<Op> {
    if ops == [] then []
    else
      var n := |ops| - 1;
      Without(ops[..n], dropped) + if n in dropped then [] else [ops[n]]
  }

  lemma {:induction false} ExecKeepsInv(db: Db, ops: seq<Op>)
    requires Inv(db)
    ensures Inv(Exec(db, ops))
  {
    if ops != [] {
      ExecKeepsInv(db, ops[..|ops| - 1]);
      ApplyKeepsInv(Exec(db, ops[..|ops| - 1]), ops[|ops| - 1]);
    }
  }

  /** Once settled by call j, a key is settled at the end of the run. */
  lemma {:induction false} SettledAtEnd(db: Db, ops: seq<Op>, j: nat)
    requires Inv(db) && j < |ops| && Keyed(ops[j]) && Succeeds(Exec(db, ops[..j]), ops[j])
    ensures Settled(Exec(db, ops), ops[j])
  {
    var n := |ops| - 1;
    var before := Exec(db, ops[..n]);
    if j == n {
      ExecKeepsInv(db, ops[..n]);
      SuccessSettles(before, ops[n]);
    } else {
      assert ops[..n][..j] == ops[..j] && ops[..n][j] == ops[j];
      SettledAtEnd(db, ops[..n], j);
      SettledStays(before, ops[j], ops[n]);
    }
  }

  lemma RepeatsInPrefix(db: Db, ops: seq<Op>, n: nat, i: nat)
    requires i < n <= |ops| && Repeats(db, ops, i)
    ensures Repeats(db, ops[..n], i)
  {
    hide Keyed, SameKey, Succeeds, Exec;
    var j :| 0 <= j < i && Keyed(ops[j]) && SameKey(ops[j], ops[i]) && Succeeds(Exec(db, ops[..j]), ops[j]);
    assert ops[..n][..j] == ops[..j] && ops[..n][j] == ops[j] && ops[..n][i] == ops[i];
  }

  lemma RepeatIsNoOp(db: Db, ops: seq<Op>, n: nat)
    requires Inv(db) && n < |ops| && Repeats(db, ops, n)
    ensures Apply(Exec(db, ops[..n]), ops[n]).0 == Exec(db, ops[..n])
  {
    hide Inv, Keyed, SameKey, Succeeds, Exec, Apply, Settled;
    var j :| 0 <= j < n && Keyed(ops[j]) && SameKey(ops[j], ops[n]) && Succeeds(Exec(db, ops[..j]), ops[j]);
    assert ops[..n][..j] == ops[..j] && ops[..n][j] == ops[j];
    SettledAtEnd(db, ops[..n], j);
    ExecKeepsInv(db, ops[..n]);
    SettledMakesNoOp(Exec(db, ops[..n]), ops[j], ops[n]);
  }

  lemma LastCallDroppedOrKept(db: Db, ops: seq<Op>, dropped: set<nat>)
    requires ops != []
    ensures var n := |ops| - 1;
      Exec(db, Without(ops, dropped)) ==
        if n in dropped then Exec(db, Without(ops[..n], dropped))
        else Apply(Exec(db, Without(ops[..n], dropped)), ops[n]).0
  {
    hide Apply;
    var n, kept := |ops| - 1, Without(ops, dropped);
    if n in dropped {
      assert kept == Without(ops[..n], dropped);
    } else {
      assert kept[..|kept| - 1] == Without(ops[..n], dropped) && kept[|kept| - 1] == ops[n];
    }
  }

  /** Deleting any set of repeated keyed calls from a run leaves the final database unchanged. */
  lemma {:induction false} RetriesDoNotMatter(db: Db, ops: seq<Op>, dropped: set<nat>)
    requires Inv(db)
    requires forall i :: i in dropped && i < |ops| ==> Repeats(db, ops, i)
    ensures Exec(db, Without(ops, dropped)) == Exec(db, ops)
  {
    if ops != [] {
      var n := |ops| - 1;
      assert Exec(db, ops) == Apply(Exec(db, ops[..n]), ops[n]).0;
      LastCallDroppedOrKept(db, ops, dropped);
      hide *;
      forall i | i in dropped && i < n ensures Repeats(db, ops[..n], i) { RepeatsInPrefix(db, ops, n, i); }
      RetriesDoNotMatter(db, ops[..n], dropped);
      if n in dropped {
        RepeatIsNoOp(db, ops, n);
      }
    }
  }

  lemma {:induction false} ExecOnlyGrows(db: Db, ops: seq<Op>, k: nat)
    requires k <= |ops|
    ensures var early, late := Exec(db, ops[..k]).accounts, Exec(db, ops).accounts;
      && |early| <= |late|
      && forall i :: 0 <= i < |early| ==> Grows(early[i], late[i])
  {
    var n := |ops| - 1;
    if k == |ops| {
      assert ops[..k] == ops;
    } else {
      assert ops[..n][..k] == ops[..k];
      ExecOnlyGrows(db, ops[..n], k);
      ApplyOnlyGrows(Exec(db, ops[..n]), ops[n]);
    }
  }

  lemma PaidAsRecorded(db: Db, id: nat, t: Target, first: Account)
    requires PaysOnce(db) && id < |db.accounts| && Grows(first, db.accounts[id])
    requires FindActive(first.allocs, t).Some?
    ensures PaidCount(db.outbox, id, t) <= 1
    ensures PaidCents(db.outbox, id, t) ==
      if PaidCount(db.outbox, id, t) == 1 then first.allocs[FindActive(first.allocs, t).value].amount else 0
  {
    FindActiveGrows(first, db.accounts[id], t);
    assert (PaidCount(db.outbox, id, t), PaidCents(db.outbox, id, t)) == Owed(db, id, t);
  }

  /** A target is paid at most once, and then exactly the amount that was first recorded for it. */
  lemma PaidAsFirstRecorded(ops: seq<Op>, k: nat, id: nat, t: Target)
    requires k <= |ops|
    requires id < |Exec(EMPTY, ops[..k]).accounts|
    requires FindActive(Exec(EMPTY, ops[..k]).accounts[id].allocs, t).Some?
    ensures var first := Exec(EMPTY, ops[..k]).accounts[id].allocs;
      var outbox := Exec(EMPTY, ops).outbox;
      && PaidCount(outbox, id, t) <= 1
      && PaidCents(outbox, id, t) ==
           if PaidCount(outbox, id, t) == 1 then first[FindActive(first, t).value].amount else 0
  {
    EveryRunKeepsTheBooks(ops);
    ExecOnlyGrows(EMPTY, ops, k);
    PaidAsRecorded(Exec(EMPTY, ops), id, t, Exec(EMPTY, ops[..k]).accounts[id]);
  }
}
