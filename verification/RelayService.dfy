/** The relay of one source database, draining its outbox on its own. */
module RelayService {
  import opened Events
  import opened Outbox

  /** How a drain goes. A failed publish may have reached the bus all the same, and a failed commit the database. */
  datatype Fate =
    | Smooth
    | PublishFails(at: nat, written: bool)
    | MarkFails(at: nat)
    | CommitFails(applied: bool)

  function MessagesOf(source: string, rows: map<nat, Row>, batch: seq<nat>): seq<Message>
    requires forall id :: id in batch ==> id in rows
  {
    seq(|batch|, i requires 0 <= i < |batch| => MessageOf(source, batch[i], rows[batch[i]]))
  }

  /** How many rows of a batch of n reach the bus. */
  function Reaching(fate: Fate, n: nat): (sent: nat)
    ensures sent <= n
  {
    match fate
    case PublishFails(at, written) => if at >= n then n else if written then at + 1 else at
    case MarkFails(at) => if at >= n then n else at + 1
    case _ => n
  }

  predicate Completes(fate: Fate, n: nat) {
    match fate
    case Smooth => true
    case PublishFails(at, _) => at >= n
    case MarkFails(at) => at >= n
    case CommitFails(_) => false
  }

  /** Whether the marks are in the database afterwards. */
  predicate Marks(fate: Fate, n: nat) { Completes(fate, n) || fate == CommitFails(true) }

  class Relay {
    const source: string
    const limit: nat
    var rows: map<nat, Row>
    var published: set<nat>
    var bus: seq<Message>

    constructor (source: string, limit: nat)
      ensures this.source == source && this.limit == limit
      ensures rows == map[] && published == {} && bus == []
    {
      this.source, this.limit, rows, published, bus := source, limit, map[], {}, [];
    }

    function Unpublished(): set<nat> reads this { rows.Keys - published }

    /** The transaction of a business change commits its outbox row; the id comes from the identity sequence. */
    method Enqueue(id: nat, row: Row)
      requires id !in rows && id !in published
      modifies `rows
      ensures rows == old(rows)[id := row] && Unpublished() == old(Unpublished()) + {id}
    {
      rows := rows[id := row];
    }

    /** Publishes the batch in order and marks each row in the open transaction, until something fails. */
    method PublishBatch(batch: seq<nat>, fate: Fate) returns (marked: set<nat>, ok: bool)
      requires forall id :: id in batch ==> id in rows
      modifies `bus
      ensures bus == old(bus) + MessagesOf(source, rows, batch)[..Reaching(fate, |batch|)]
      ensures ok <==> Completes(fate, |batch|) || fate.CommitFails?
      ensures ok ==> marked == Elements(batch)
    {
      ghost var messages := MessagesOf(source, rows, batch);
      marked := {};
      var i := 0;
      while i < |batch|
        invariant 0 <= i <= |batch|
        invariant marked == Elements(batch[..i])
        invariant bus == old(bus) + messages[..i]
        invariant fate.PublishFails? || fate.MarkFails? ==> fate.at >= i
      {
        assert batch[i] in batch;
        var message := MessageOf(source, batch[i], rows[batch[i]]);
        assert messages[..i + 1] == messages[..i] + [message];
        if fate == PublishFails(i, false) {
          return marked, false;
        }
        bus := bus + [message];
        if fate == PublishFails(i, true) || fate == MarkFails(i) {
          return marked, false;
        }
        assert batch[..i + 1] == batch[..i] + [batch[i]];
        marked := marked + {batch[i]};
        i := i + 1;
      }
      assert batch[..i] == batch;
      assert messages[..i] == messages;
      ok := true;
    }

    /**
     * One drain. Whatever fails, the messages sent are a prefix of the batch in id order and stay
     * sent; the marks are made for the whole batch or for none of it.
     */
    method Drain(fate: Fate) returns (ok: bool)
      modifies `published, `bus
      ensures var batch := Lowest(old(Unpublished()), limit);
        && (forall id :: id in batch ==> id in rows)
        && ok == Completes(fate, |batch|)
        && bus == old(bus) + MessagesOf(source, rows, batch)[..Reaching(fate, |batch|)]
        && published == old(published) + if Marks(fate, |batch|) then Elements(batch) else {}
    {
      LowestAscends(Unpublished(), limit);
      var batch := Lowest(Unpublished(), limit);
      hide Lowest, Ascending, MessagesOf, Elements;
      var marked;
      marked, ok := PublishBatch(batch, fate);
      if !ok || fate == CommitFails(false) {
        return false;
      }
      published := published + marked;
      ok := !fate.CommitFails?;
    }
  }

  function DrainedOnce(unpublished: set<nat>, limit: nat): set<nat> {
    unpublished - Elements(Lowest(unpublished, limit))
  }

  /** The number of unpublished rows is a termination measure for drains that succeed. */
  lemma DrainMakesProgress(unpublished: set<nat>, limit: nat)
    ensures |DrainedOnce(unpublished, limit)|
      == if |unpublished| <= limit then 0 else |unpublished| - limit
  {
    var batch := Lowest(unpublished, limit);
    LowestAscends(unpublished, limit);
    ElementsCount(batch);
    assert Elements(batch) <= unpublished;
  }

  function DrainedTimes(unpublished: set<nat>, limit: nat, n: nat): set<nat> {
    if n == 0 then unpublished else DrainedTimes(DrainedOnce(unpublished, limit), limit, n - 1)
  }

  /** With no new rows, n successful drains leave nothing exactly when their batches have room for everything. */
  lemma {:induction false} OutboxEmpties(unpublished: set<nat>, limit: nat, n: nat)
    ensures DrainedTimes(unpublished, limit, n) == {} <==> |unpublished| <= n * limit
    decreases n
  {
    if n > 0 {
      DrainMakesProgress(unpublished, limit);
      OutboxEmpties(DrainedOnce(unpublished, limit), limit, n - 1);
      assert n * limit == (n - 1) * limit + limit;
    }
  }

  /** The marks of a batch are made only if all of it was sent, and a drain completes only if they are made. */
  lemma MarksMeanSent(fate: Fate, n: nat)
    ensures Marks(fate, n) ==> Reaching(fate, n) == n
    ensures Completes(fate, n) ==> Marks(fate, n)
    ensures fate.Smooth? ==> Completes(fate, n)
    ensures fate.CommitFails? ==> !Completes(fate, n) && (Marks(fate, n) <==> fate.applied)
    ensures fate.PublishFails? && fate.at < n ==>
      !Marks(fate, n) && Reaching(fate, n) == fate.at + if fate.written then 1 else 0
    ensures fate.MarkFails? && fate.at < n ==> !Marks(fate, n) && Reaching(fate, n) == fate.at + 1
  {
  }
}
