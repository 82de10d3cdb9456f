/**
 * The escrow service as it is written: every call opens a transaction, runs its statements in
 * order on the mutable tables, and rolls back where the source does. Each call is proved to do
 * exactly what the atomic operation of EscrowModel does, from any contents of the tables. The
 * assertions inside the calls show that the source's branches for a lost race cannot be taken by a
 * call that runs alone.
 */
module EscrowService {
  import opened Basics
  import opened Ledger
  import opened EscrowModel

  class Service {
    var accounts: seq<Account>
    const transactions: Transactions
    var outbox: seq<Event>
    var groups: nat

    ghost function Contents(): Db
      reads this, transactions
    {
      Db(accounts, transactions.rows, outbox, groups)
    }

    constructor ()
      ensures Contents() == EMPTY && fresh(transactions)
    {
      accounts, outbox, groups := [], [], 0;
      transactions := new Transactions();
    }

    // ── store ──────────────────────────────────────────────────────────────────

    /** INSERT … ON CONFLICT (contract_id) DO UPDATE … RETURNING. */
    method UpsertEscrowForContract(contract: string, currency: string) returns (id: nat)
      modifies this`accounts
      ensures id == FundTarget(old(Contents()), contract) && id < |accounts|
      ensures accounts == Put(old(accounts), id, FundAccount(old(Contents()), contract, currency))
    {
      var found := FindContract(accounts, contract);
      if found.Some? {
        return found.value;
      }
      id := |accounts|;
      accounts := accounts + [NewAccount(contract, currency)];
    }

    /** Claims (contract_id, idempotency_key); a key already used is ErrDuplicateFund. */
    method RecordFundIdempotency(id: nat, key: string) returns (isNew: bool)
      requires id < |accounts|
      modifies this`accounts
      ensures isNew <==> key !in old(accounts)[id].fundKeys
      ensures accounts == if isNew
        then old(accounts)[id := old(accounts)[id].(fundKeys := old(accounts)[id].fundKeys + {key})]
        else old(accounts)
    {
      isNew := key !in accounts[id].fundKeys;
      if isNew {
        accounts := accounts[id := accounts[id].(fundKeys := accounts[id].fundKeys + {key})];
      }
    }

    /** UPDATE escrow_accounts SET … WHERE id = $1 RETURNING …. */
    method UpdateRow(id: nat, row: Row)
      requires id < |accounts|
      modifies this`accounts
      ensures accounts == old(accounts)[id := old(accounts)[id].(row := row)]
    {
      accounts := accounts[id := accounts[id].(row := row)];
    }

    /** Inserts a held allocation unless a non-refunded one exists for its target. */
    method InsertAllocation(id: nat, target: Target, amount: int) returns (inserted: Option<nat>)
      requires id < |accounts|
      modifies this`accounts
      ensures inserted.None? <==> FindActive(old(accounts)[id].allocs, target).Some?
      ensures inserted.None? ==> accounts == old(accounts)
      ensures inserted.Some? ==>
        && inserted.value == |old(accounts)[id].allocs|
        && accounts == old(accounts)[id := old(accounts)[id].(
             allocs := old(accounts)[id].allocs + [Allocation(target, amount, Held)])]
    {
      var a := accounts[id];
      if FindActive(a.allocs, target).Some? {
        return None;
      }
      accounts := accounts[id := a.(allocs := a.allocs + [Allocation(target, amount, Held)])];
      return Some(|a.allocs|);
    }

    /** UPDATE escrow_allocations SET status='released' WHERE id=$1 AND status='held'. */
    method MarkAllocationReleased(id: nat, i: nat) returns (marked: bool)
      requires id < |accounts| && i < |accounts[id].allocs|
      modifies this`accounts
      ensures marked <==> old(accounts)[id].allocs[i].status.Held?
      ensures accounts == if marked
        then old(accounts)[id := old(accounts)[id].(allocs := MarkReleased(old(accounts)[id].allocs, i))]
        else old(accounts)
    {
      var a := accounts[id];
      marked := a.allocs[i].status.Held?;
      if marked {
        accounts := accounts[id := a.(allocs := MarkReleased(a.allocs, i))];
      }
    }

    /** WriteLegs under a new txn_group, then outbox.Enqueue. */
    method PostMovement(debit: Leg, credit: Leg, event: Event)
      requires debit.amount + credit.amount == 0
      modifies this`outbox, this`groups, transactions
      ensures transactions.rows == old(transactions.rows) + Pair(debit, credit)
      ensures outbox == old(outbox) + [event] && groups == old(groups) + 1
    {
      TotalPair([], debit, credit, All);
      assert [] + Pair(debit, credit) == Pair(debit, credit);
      var ok := transactions.WriteLegs(Pair(debit, credit));
      assert ok;
      groups := groups + 1;
      outbox := outbox + [event];
    }

    // ── service ────────────────────────────────────────────────────────────────

    method FundEscrow(contract: string, amount: int, currency: string, key: string) returns (reply: Reply)
      modifies this, transactions
      ensures (Contents(), reply) == Apply(old(Contents()), Fund(contract, amount, currency, key))
    {
      if amount <= 0 {
        return Failed(BadAmount);
      }
      var begin := accounts;
      var id := UpsertEscrowForContract(contract, currency);
      if key != "" {
        var isNew := RecordFundIdempotency(id, key);
        if !isNew {
          reply := GotEscrow(id, accounts[id].row);
          accounts := begin; // rollback
          return;
        }
      }
      UpdateRow(id, accounts[id].row.(held := accounts[id].row.held + amount));
      var row := accounts[id].row;
      var legs := HoldLegs(groups, id, row, amount);
      PostMovement(legs[0], legs[1], FundedEvent(id, contract, amount, row.held));
      ghost var a := Credited(FundAccount(old(Contents()), contract, currency), amount, key);
      assert accounts[id] == a;
      assert accounts == Put(old(accounts), id, a);
      return GotEscrow(id, row);
    }

    method AllocateToMilestone(id: nat, milestone: string, amount: int) returns (reply: Reply)
      modifies this`accounts
      ensures (Contents(), reply) == Apply(old(Contents()), Allocate(id, milestone, amount))
    {
      if amount <= 0 {
        return Failed(BadAmount);
      }
      if id >= |accounts| {
        return Failed(NotFound);
      }
      var e := accounts[id];
      var existing := FindActive(e.allocs, Milestone(milestone));
      if existing.Some? {
        return GotAllocation(e.allocs[existing.value]);
      }
      var reserved := AllocSum(e.allocs, Held);
      var available := e.row.held - reserved;
      if amount > available {
        return Failed(InsufficientFunds);
      }
      var inserted := InsertAllocation(id, Milestone(milestone), amount);
      assert inserted.Some?;
      return GotAllocation(Allocation(Milestone(milestone), amount, Held));
    }

    method ReleaseMilestone(id: nat, milestone: string, amount: int) returns (reply: Reply)
      modifies this, transactions
      ensures (Contents(), reply) == Apply(old(Contents()), Op.ReleaseMilestone(id, milestone, amount))
    {
      if id >= |accounts| {
        return Failed(NotFound);
      }
      var e := accounts[id];
      var held := FindHeld(e.allocs, Milestone(milestone));
      if held.None? {
        return Failed(NotFound);
      }
      var alloc := e.allocs[held.value];
      var reserved := AllocSum(e.allocs, Held);
      if alloc.amount > e.row.held || reserved > e.row.held {
        return Failed(InsufficientFunds);
      }
      var marked := MarkAllocationReleased(id, held.value);
      assert marked;
      UpdateRow(id, ReleasedRow(e.row, alloc.amount));
      var row := accounts[id].row;
      var legs := ReleaseLegs(groups, id, row, alloc.amount);
      PostMovement(legs[0], legs[1], ReleasedEvent(id, row.contract, alloc.amount, Milestone(milestone)));
      assert accounts == Put(old(accounts), id, Account(row, MarkReleased(e.allocs, held.value), e.fundKeys));
      return GotEscrow(id, row);
    }

    method ReleaseHours(id: nat, week: string, amount: int) returns (reply: Reply)
      modifies this, transactions
      ensures (Contents(), reply) == Apply(old(Contents()), Op.ReleaseHours(id, week, amount))
    {
      if amount <= 0 {
        return Failed(BadAmount);
      }
      if id >= |accounts| {
        return Failed(NotFound);
      }
      var e := accounts[id];
      if FindActive(e.allocs, Week(week)).Some? {
        return GotEscrow(id, e.row);
      }
      var reserved := AllocSum(e.allocs, Held);
      if amount > e.row.held - reserved {
        return Failed(InsufficientFunds);
      }
      var inserted := InsertAllocation(id, Week(week), amount);
      assert inserted.Some?;
      var marked := MarkAllocationReleased(id, inserted.value);
      assert marked;
      UpdateRow(id, ReleasedRow(e.row, amount));
      var row := accounts[id].row;
      var legs := ReleaseLegs(groups, id, row, amount);
      PostMovement(legs[0], legs[1], ReleasedEvent(id, row.contract, amount, Week(week)));
      assert accounts[id].allocs == e.allocs + [Allocation(Week(week), amount, Released)];
      assert accounts == Put(old(accounts), id, accounts[id]);
      return GotEscrow(id, row);
    }

    method RefundEscrow(id: nat, amount: int, reason: string) returns (reply: Reply)
      modifies this, transactions
      ensures (Contents(), reply) == Apply(old(Contents()), Op.Refund(id, amount, reason))
    {
      if amount <= 0 {
        return Failed(BadAmount);
      }
      if id >= |accounts| {
        return Failed(NotFound);
      }
      var e := accounts[id];
      var reserved := AllocSum(e.allocs, Held);
      if amount > e.row.held - reserved {
        return Failed(InsufficientFunds);
      }
      UpdateRow(id, RefundedRow(e.row, amount));
      var row := accounts[id].row;
      var legs := RefundLegs(groups, id, row, amount);
      PostMovement(legs[0], legs[1], RefundedEvent(id, row.contract, amount, reason));
      return GotEscrow(id, row);
    }
  }
}
