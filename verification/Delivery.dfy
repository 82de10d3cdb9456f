/**
 * From the outboxes of many databases to the bus, step by step: business transactions that commit
 * rows in any order, relay replicas that drain them, publishes that fail although the message is
 * (or will be) written, rollbacks and crashes anywhere.
 */
module Delivery {
  import opened Events
  import opened Outbox

  /** An outbox; arrivals is the order in which its rows became visible. */
  datatype Table = Table(rows: map<nat, Row>, published: set<nat>, arrivals: seq<nat>)

  /** A message on the bus, together with the row it was made from. */
  datatype Entry = Entry(source: string, id: nat, message: Message)

  /** An open drain: the rows it has locked, of which the first done are acknowledged and marked. */
  datatype Drain = Drain(batch: seq<nat>, done: nat)

  /** What the relays did, in order: each publish call, and each batch whose marks were committed. */
  datatype Call = Attempt(source: string, id: nat) | MarksCommitted(source: string, ids: set<nat>)

  type Replica = (string, nat)

  function Messages(log: seq<Entry>): seq<Message> {
    seq(|log|, k requires 0 <= k < |log| => log[k].message)
  }

  datatype Sys = Sys(
    replicas: nat, tables: map<string, Table>, drains: map<Replica, Drain>,
    log: seq<Entry>, limbo: set<(string, nat)>, calls: seq<Call>)

  datatype Step =
    | ProducerCommits(source: string, id: nat, row: Row)
    | OpenDrain(source: string, replica: nat, limit: nat)
    | Publish(source: string, replica: nat)
    | PublishFails(source: string, replica: nat)
    | Straggler(source: string, id: nat)
    | Commit(source: string, replica: nat)
    | Abort(source: string, replica: nat)

  function Boot(replicas: nat): Sys { Sys(replicas, map[], map[], [], {}, []) }

  function TableOf(s: Sys, source: string): Table {
    if source in s.tables then s.tables[source] else Table(map[], {}, [])
  }

  function Locked(s: Sys, source: string): set<nat> {
    set d, id | d in s.drains.Keys && d.0 == source && id in s.drains[d].batch :: id
  }

  /** The rows a drain may take: not published, and not locked by another replica (SKIP LOCKED). */
  function Candidates(s: Sys, source: string): set<nat> {
    TableOf(s, source).rows.Keys - TableOf(s, source).published - Locked(s, source)
  }

  function EntryOf(s: Sys, source: string, id: nat): Entry
    requires id in TableOf(s, source).rows
  {
    Entry(source, id, MessageOf(source, id, TableOf(s, source).rows[id]))
  }

  predicate Publishing(s: Sys, d: Replica) {
    && d in s.drains && s.drains[d].done < |s.drains[d].batch|
    && s.drains[d].batch[s.drains[d].done] in TableOf(s, d.0).rows
  }

  function NextRow(s: Sys, d: Replica): nat
    requires Publishing(s, d)
  {
    s.drains[d].batch[s.drains[d].done]
  }

  predicate Enabled(s: Sys, step: Step) {
    match step
    case ProducerCommits(source, id, row) => id !in TableOf(s, source).rows
    case OpenDrain(source, r, limit) => r < s.replicas && (source, r) !in s.drains
    case Publish(source, r) => Publishing(s, (source, r))
    case PublishFails(source, r) => Publishing(s, (source, r))
    case Straggler(source, id) => (source, id) in s.limbo && id in TableOf(s, source).rows
    case Commit(source, r) =>
      (source, r) in s.drains && s.drains[(source, r)].done == |s.drains[(source, r)].batch|
    case Abort(source, r) => (source, r) in s.drains
  }

  function Next(s: Sys, step: Step): Sys
    requires Enabled(s, step)
  {
    match step
    case ProducerCommits(source, id, row) =>
      var t := TableOf(s, source);
      s.(tables := s.tables[source := t.(rows := t.rows[id := row], arrivals := t.arrivals + [id])])
    case OpenDrain(source, r, limit) =>
      s.(drains := s.drains[(source, r) := Drain(Lowest(Candidates(s, source), limit), 0)])
    case Publish(source, r) =>
      var d := (source, r);
      s.(log := s.log + [EntryOf(s, source, NextRow(s, d))],
         calls := s.calls + [Attempt(source, NextRow(s, d))],
         drains := s.drains[d := s.drains[d].(done := s.drains[d].done + 1)])
    case PublishFails(source, r) =>
      var d := (source, r);
      s.(limbo := s.limbo + {(source, NextRow(s, d))},
         calls := s.calls + [Attempt(source, NextRow(s, d))],
         drains := s.drains - {d})
    case Straggler(source, id) => s.(log := s.log + [EntryOf(s, source, id)])
    case Commit(source, r) =>
      var t := TableOf(s, source);
      var ids := Elements(s.drains[(source, r)].batch);
      s.(tables := s.tables[source := t.(published := t.published + ids)],
         calls := s.calls + [MarksCommitted(source, ids)],
         drains := s.drains - {(source, r)})
    case Abort(source, r) => s.(drains := s.drains - {(source, r)})
  }

  // ---------------------------------------------------------------------------------------------
  // What holds with any number of replicas
  // ---------------------------------------------------------------------------------------------

  /** The rows that have reached the bus. */
  function Refs(log: seq<Entry>): set<(string, nat)> {
    set k | 0 <= k < |log| :: (log[k].source, log[k].id)
  }

  lemma RefsSnoc(log: seq<Entry>, e: Entry)
    ensures Refs(log + [e]) == Refs(log) + {(e.source, e.id)}
  {
    var all := log + [e];
    assert all[|log|] == e;
    forall ref | ref in Refs(log) ensures ref in Refs(all) {
      var k :| 0 <= k < |log| && (log[k].source, log[k].id) == ref;
      assert all[k] == log[k];
    }
  }

  /** Every message was made from a committed outbox row, under that row's event id. */
  ghost predicate Genuine(s: Sys) {
    && (forall k :: 0 <= k < |s.log| ==>
          && s.log[k].id in TableOf(s, s.log[k].source).rows
          && s.log[k] == EntryOf(s, s.log[k].source, s.log[k].id))
    && (forall ref :: ref in s.limbo ==> ref.1 in TableOf(s, ref.0).rows)
  }

  /** A row marked published has reached the bus. */
  ghost predicate MarkedIsSent(s: Sys) {
    forall source, id :: id in TableOf(s, source).published ==>
      id in TableOf(s, source).rows && (source, id) in Refs(s.log)
  }

  ghost predicate DrainOk(s: Sys, d: Replica)
    requires d in s.drains
  {
    var t, b := TableOf(s, d.0), s.drains[d].batch;
    && d.1 < s.replicas && Ascending(b) && s.drains[d].done <= |b|
    && (forall i :: 0 <= i < |b| ==> b[i] in t.rows && b[i] !in t.published)
    && (forall i :: 0 <= i < s.drains[d].done ==> (d.0, b[i]) in Refs(s.log))
  }

  /** No row is in two open batches. */
  ghost predicate Disjoint(drains: map<Replica, Drain>) {
    forall d, e, id :: d in drains && e in drains && d != e && d.0 == e.0 && id in drains[d].batch ==>
      id !in drains[e].batch
  }

  ghost predicate DrainsOk(s: Sys) {
    (forall d :: d in s.drains ==> DrainOk(s, d)) && Disjoint(s.drains)
  }

  /** No row is published by a relay after its mark was committed. */
  ghost predicate CallsOk(s: Sys) {
    && (forall i :: 0 <= i < |s.calls| && s.calls[i].MarksCommitted? ==>
          s.calls[i].ids <= TableOf(s, s.calls[i].source).published)
    && (forall i, j :: 0 <= i < j < |s.calls| && s.calls[i].MarksCommitted? && s.calls[j].Attempt? ==>
          s.calls[i].source == s.calls[j].source ==> s.calls[j].id !in s.calls[i].ids)
  }

  ghost predicate ArrivalsOk(s: Sys) {
    forall source, id :: id in TableOf(s, source).rows <==> id in TableOf(s, source).arrivals
  }

  ghost predicate SysInv(s: Sys) {
    Genuine(s) && MarkedIsSent(s) && DrainsOk(s) && CallsOk(s) && ArrivalsOk(s)
  }

  /** Rows are never lost or changed, marks and messages never taken back. */
  ghost predicate Grows(s: Sys, s': Sys) {
    && s'.replicas == s.replicas && s.log <= s'.log && s.calls <= s'.calls
    && (forall source, id :: id in TableOf(s, source).rows ==>
          id in TableOf(s', source).rows && TableOf(s', source).rows[id] == TableOf(s, source).rows[id])
  }

  lemma RefsGrow(log: seq<Entry>, log': seq<Entry>)
    requires log <= log'
    ensures Refs(log) <= Refs(log')
  {
    forall ref | ref in Refs(log) ensures ref in Refs(log') {
      var k :| 0 <= k < |log| && (log[k].source, log[k].id) == ref;
      assert log'[k] == log[k];
    }
  }

  lemma GenuineStays(s: Sys, s': Sys)
    requires Genuine(s) && Grows(s, s')
    requires forall k :: |s.log| <= k < |s'.log| ==>
      s'.log[k].id in TableOf(s', s'.log[k].source).rows && s'.log[k] == EntryOf(s', s'.log[k].source, s'.log[k].id)
    requires forall ref :: ref in s'.limbo - s.limbo ==> ref.1 in TableOf(s', ref.0).rows
    ensures Genuine(s')
  {
    forall k | 0 <= k < |s.log|
      ensures s'.log[k].id in TableOf(s', s'.log[k].source).rows
      ensures s'.log[k] == EntryOf(s', s'.log[k].source, s'.log[k].id)
    {
      assert s'.log[k] == s.log[k];
    }
  }

  lemma DrainStays(s: Sys, s': Sys, d: Replica)
    requires Grows(s, s') && d in s.drains && d in s'.drains && s'.drains[d] == s.drains[d]
    requires DrainOk(s, d)
    requires forall id :: id in s.drains[d].batch ==>
      (id in TableOf(s', d.0).published <==> id in TableOf(s, d.0).published)
    ensures DrainOk(s', d)
  {
    RefsGrow(s.log, s'.log);
  }

  /** Drains that stay open stay disjoint. */
  lemma DrainsStay(s: Sys, s': Sys)
    requires DrainsOk(s) && Grows(s, s') && s'.drains.Keys <= s.drains.Keys
    requires forall d :: d in s'.drains ==> s'.drains[d].batch == s.drains[d].batch && DrainOk(s', d)
    ensures DrainsOk(s')
  {
  }

  /** The attempt of an open drain concerns a row whose mark nobody has committed. */
  lemma AttemptIsFine(s: Sys, s': Sys, source: string, id: nat)
    requires CallsOk(s) && id !in TableOf(s, source).published
    requires s'.calls == s.calls + [Attempt(source, id)]
    requires forall src :: TableOf(s', src).published == TableOf(s, src).published
    ensures CallsOk(s')
  {
  }

  lemma MarkedStays(s: Sys, s': Sys)
    requires MarkedIsSent(s) && Grows(s, s')
    requires forall source, id :: id in TableOf(s', source).published && id !in TableOf(s, source).published ==>
      id in TableOf(s', source).rows && (source, id) in Refs(s'.log)
    ensures MarkedIsSent(s')
  {
    RefsGrow(s.log, s'.log);
  }

  lemma ProducerKeepsSysInv(s: Sys, source: string, id: nat, row: Row)
    requires SysInv(s) && Enabled(s, ProducerCommits(source, id, row))
    ensures SysInv(Next(s, ProducerCommits(source, id, row)))
  {
    var s' := Next(s, ProducerCommits(source, id, row));
    assert Grows(s, s');
    GenuineStays(s, s');
    forall d | d in s'.drains ensures DrainOk(s', d) { DrainStays(s, s', d); }
    DrainsStay(s, s');
    assert forall src :: TableOf(s', src).published == TableOf(s, src).published;
    hide Genuine, DrainOk, DrainsOk;
  }

  lemma BatchIsFree(s: Sys, source: string, b: seq<nat>)
    requires forall id :: id in b ==> id in Candidates(s, source)
    ensures forall i :: 0 <= i < |b| ==> b[i] in TableOf(s, source).rows && b[i] !in TableOf(s, source).published
    ensures forall e, id :: e in s.drains && e.0 == source && id in s.drains[e].batch ==> id !in b
  {
    assert forall i :: 0 <= i < |b| ==> b[i] in b;
    assert forall e, id :: e in s.drains && e.0 == source && id in s.drains[e].batch ==> id in Locked(s, source);
  }

  lemma NewDrainIsOk(s: Sys, source: string, r: nat, limit: nat)
    requires Enabled(s, OpenDrain(source, r, limit))
    ensures DrainOk(Next(s, OpenDrain(source, r, limit)), (source, r))
  {
    LowestAscends(Candidates(s, source), limit);
    BatchIsFree(s, source, Lowest(Candidates(s, source), limit));
    hide Candidates, Lowest;
  }

  lemma NewBatchIsDisjoint(s: Sys, source: string, r: nat, limit: nat)
    requires DrainsOk(s)
    ensures Disjoint(s.drains[(source, r) := Drain(Lowest(Candidates(s, source), limit), 0)])
  {
    assert Disjoint(s.drains);
    hide DrainOk;
    LowestAscends(Candidates(s, source), limit);
    BatchIsFree(s, source, Lowest(Candidates(s, source), limit));
    hide Candidates, Lowest;
  }

  lemma OpenKeepsDrains(s: Sys, source: string, r: nat, limit: nat)
    requires DrainsOk(s) && Enabled(s, OpenDrain(source, r, limit))
    ensures DrainsOk(Next(s, OpenDrain(source, r, limit)))
  {
    var s' := Next(s, OpenDrain(source, r, limit));
    NewDrainIsOk(s, source, r, limit);
    NewBatchIsDisjoint(s, source, r, limit);
    hide Disjoint, Lowest, Candidates;
    forall d | d in s'.drains ensures DrainOk(s', d) {
      if d != (source, r) {
        DrainStays(s, s', d);
      }
    }
    hide DrainOk;
  }

  lemma OpenKeepsSysInv(s: Sys, source: string, r: nat, limit: nat)
    requires SysInv(s) && Enabled(s, OpenDrain(source, r, limit))
    ensures SysInv(Next(s, OpenDrain(source, r, limit)))
  {
    hide DrainsOk, Candidates;
    OpenKeepsDrains(s, source, r, limit);
    MarkedStays(s, Next(s, OpenDrain(source, r, limit)));
    hide MarkedIsSent;
  }

  lemma PublishKeepsDrains(s: Sys, source: string, r: nat)
    requires DrainsOk(s) && Enabled(s, Publish(source, r))
    ensures DrainsOk(Next(s, Publish(source, r)))
  {
    var s', d := Next(s, Publish(source, r)), (source, r);
    RefsSnoc(s.log, EntryOf(s, source, NextRow(s, d)));
    hide Refs;
    forall e | e in s'.drains ensures DrainOk(s', e) {
      if e != d {
        DrainStays(s, s', e);
      } else {
        assert DrainOk(s, d);
      }
    }
    DrainsStay(s, s');
    hide DrainOk, DrainsOk;
  }

  lemma PublishKeepsSysInv(s: Sys, source: string, r: nat)
    requires SysInv(s) && Enabled(s, Publish(source, r))
    ensures SysInv(Next(s, Publish(source, r)))
  {
    var s', d := Next(s, Publish(source, r)), (source, r);
    assert DrainsOk(s) && DrainOk(s, d);
    PublishKeepsDrains(s, source, r);
    hide DrainsOk, CallsOk, MarkedIsSent;
    GenuineStays(s, s');
    AttemptIsFine(s, s', source, NextRow(s, d));
    MarkedStays(s, s');
    hide Genuine, DrainOk;
  }

  lemma PublishFailsKeepsSysInv(s: Sys, source: string, r: nat)
    requires SysInv(s) && Enabled(s, PublishFails(source, r))
    ensures SysInv(Next(s, PublishFails(source, r)))
  {
    var s', d := Next(s, PublishFails(source, r)), (source, r);
    assert DrainOk(s, d);
    AttemptIsFine(s, s', source, NextRow(s, d));
    GenuineStays(s, s');
    forall e | e in s'.drains ensures DrainOk(s', e) { DrainStays(s, s', e); }
    DrainsStay(s, s');
    MarkedStays(s, s');
    hide Genuine, DrainOk, DrainsOk, CallsOk, MarkedIsSent;
  }

  lemma StragglerKeepsSysInv(s: Sys, source: string, id: nat)
    requires SysInv(s) && Enabled(s, Straggler(source, id))
    ensures SysInv(Next(s, Straggler(source, id)))
  {
    var s' := Next(s, Straggler(source, id));
    GenuineStays(s, s');
    RefsGrow(s.log, s'.log);
    forall e | e in s'.drains ensures DrainOk(s', e) { DrainStays(s, s', e); }
    DrainsStay(s, s');
    hide Genuine, DrainOk, DrainsOk;
  }

  lemma CommitKeepsCallsOk(s: Sys, source: string, r: nat)
    requires SysInv(s) && Enabled(s, Commit(source, r))
    ensures CallsOk(Next(s, Commit(source, r)))
  {
    hide Genuine, MarkedIsSent, ArrivalsOk, DrainsOk;
    var s' := Next(s, Commit(source, r));
    forall i | 0 <= i < |s'.calls| && s'.calls[i].MarksCommitted?
      ensures s'.calls[i].ids <= TableOf(s', s'.calls[i].source).published
    {
      assert i < |s.calls| ==> s'.calls[i] == s.calls[i];
    }
  }

  lemma CommitKeepsDrains(s: Sys, source: string, r: nat)
    requires DrainsOk(s) && Enabled(s, Commit(source, r))
    ensures DrainsOk(Next(s, Commit(source, r)))
  {
    var s', d := Next(s, Commit(source, r)), (source, r);
    forall e | e in s'.drains ensures DrainOk(s', e) {
      assert e.0 == source ==> forall id :: id in s.drains[e].batch ==> id !in s.drains[d].batch;
      DrainStays(s, s', e);
    }
    DrainsStay(s, s');
    hide DrainOk, DrainsOk;
  }

  lemma CommitKeepsMarks(s: Sys, source: string, r: nat)
    requires MarkedIsSent(s) && DrainsOk(s) && Enabled(s, Commit(source, r))
    ensures MarkedIsSent(Next(s, Commit(source, r)))
  {
    assert DrainOk(s, (source, r));
    hide DrainsOk, Refs;
    MarkedStays(s, Next(s, Commit(source, r)));
  }

  lemma CommitKeepsSysInv(s: Sys, source: string, r: nat)
    requires SysInv(s) && Enabled(s, Commit(source, r))
    ensures SysInv(Next(s, Commit(source, r)))
  {
    var s', d := Next(s, Commit(source, r)), (source, r);
    CommitKeepsCallsOk(s, source, r);
    CommitKeepsDrains(s, source, r);
    CommitKeepsMarks(s, source, r);
    hide CallsOk, DrainsOk, MarkedIsSent;
    assert forall src :: TableOf(s', src).rows == TableOf(s, src).rows;
    GenuineStays(s, s');
    hide Genuine;
  }

  lemma AbortKeepsDrains(s: Sys, source: string, r: nat)
    requires DrainsOk(s) && Enabled(s, Abort(source, r))
    ensures DrainsOk(Next(s, Abort(source, r)))
  {
    var s' := Next(s, Abort(source, r));
    forall e | e in s'.drains ensures DrainOk(s', e) { DrainStays(s, s', e); }
    DrainsStay(s, s');
    hide DrainsOk, DrainOk;
  }

  lemma AbortKeepsSysInv(s: Sys, source: string, r: nat)
    requires SysInv(s) && Enabled(s, Abort(source, r))
    ensures SysInv(Next(s, Abort(source, r)))
  {
    hide DrainsOk;
    AbortKeepsDrains(s, source, r);
    MarkedStays(s, Next(s, Abort(source, r)));
    hide MarkedIsSent;
  }

  lemma StepKeepsSysInv(s: Sys, step: Step)
    requires SysInv(s) && Enabled(s, step)
    ensures SysInv(Next(s, step))
  {
    hide *;
    match step
    case ProducerCommits(source, id, row) => ProducerKeepsSysInv(s, source, id, row);
    case OpenDrain(source, r, limit) => OpenKeepsSysInv(s, source, r, limit);
    case Publish(source, r) => PublishKeepsSysInv(s, source, r);
    case PublishFails(source, r) => PublishFailsKeepsSysInv(s, source, r);
    case Straggler(source, id) => StragglerKeepsSysInv(s, source, id);
    case Commit(source, r) => CommitKeepsSysInv(s, source, r);
    case Abort(source, r) => AbortKeepsSysInv(s, source, r);
  }

  // ---------------------------------------------------------------------------------------------
  // Order within a key, with one replica
  // ---------------------------------------------------------------------------------------------

  /** Kafka keeps the order of messages of one topic and key. */
  predicate SameLane(a: Row, b: Row) { a.topic == b.topic && a.key == b.key }

  /** Both rows are visible, in one lane, and i has the lower id. */
  predicate Before(t: Table, i: nat, j: nat) {
    i < j && i in t.rows && j in t.rows && SameLane(t.rows[i], t.rows[j])
  }

  /** Within each lane the rows became visible in id order. */
  ghost predicate VisibleInOrder(t: Table) {
    forall a, b :: 0 <= a < b < |t.arrivals| && t.arrivals[a] in t.rows && t.arrivals[b] in t.rows ==>
      (SameLane(t.rows[t.arrivals[a]], t.rows[t.arrivals[b]]) ==> t.arrivals[a] < t.arrivals[b])
  }

  ghost predicate LogInOrder(s: Sys, source: string) {
    forall p: nat, i: nat ::
      p < |s.log| && s.log[p].source == source && Before(TableOf(s, source), i, s.log[p].id) ==>
        (source, i) in Refs(s.log[..p])
  }

  ghost predicate LimboInOrder(s: Sys, source: string) {
    forall i: nat, j: nat :: (source, j) in s.limbo && Before(TableOf(s, source), i, j) ==> (source, i) in Refs(s.log)
  }

  ghost predicate BatchInOrder(s: Sys, source: string) {
    (source, 0) in s.drains ==>
      var t, batch := TableOf(s, source), s.drains[(source, 0)].batch;
      forall m: nat, i: nat :: m < |batch| && Before(t, i, batch[m]) ==> i in t.published || i in batch[..m]
  }

  ghost predicate InOrder(s: Sys, source: string) {
    LogInOrder(s, source) && LimboInOrder(s, source) && BatchInOrder(s, source)
  }

  /** What precedes the row a drain is about to publish has been published. */
  lemma NextIsInOrder(s: Sys, source: string, i: nat)
    requires SysInv(s) && BatchInOrder(s, source) && Publishing(s, (source, 0))
    requires Before(TableOf(s, source), i, NextRow(s, (source, 0)))
    ensures (source, i) in Refs(s.log)
  {
    assert DrainOk(s, (source, 0));
    hide Genuine, CallsOk, ArrivalsOk;
  }

  /** In id order, a row that becomes visible now is the highest of its lane. */
  lemma NewRowIsLast(s: Sys, source: string, id: nat, row: Row, j: nat)
    requires ArrivalsOk(s) && Enabled(s, ProducerCommits(source, id, row))
    requires VisibleInOrder(TableOf(Next(s, ProducerCommits(source, id, row)), source))
    requires j in TableOf(s, source).rows && SameLane(row, TableOf(s, source).rows[j])
    ensures j < id
  {
    var t, t' := TableOf(s, source), TableOf(Next(s, ProducerCommits(source, id, row)), source);
    var a :| 0 <= a < |t.arrivals| && t.arrivals[a] == j;
    assert t'.arrivals[a] == j && t'.arrivals[|t.arrivals|] == id;
  }

  lemma ProducerKeepsOrder(s: Sys, source: string, id: nat, row: Row)
    requires SysInv(s) && InOrder(s, source) && Enabled(s, ProducerCommits(source, id, row))
    requires VisibleInOrder(TableOf(Next(s, ProducerCommits(source, id, row)), source))
    ensures InOrder(Next(s, ProducerCommits(source, id, row)), source)
  {
    var s' := Next(s, ProducerCommits(source, id, row));
    var t, t' := TableOf(s, source), TableOf(s', source);
    forall i: nat, j: nat | Before(t', i, j) && j in t.rows ensures Before(t, i, j) {
      if i == id {
        NewRowIsLast(s, source, id, row, j);
      }
    }
    assert (source, 0) in s.drains ==> DrainOk(s, (source, 0));
    assert Genuine(s);
    hide MarkedIsSent, CallsOk, ArrivalsOk, VisibleInOrder, Before;
  }

  lemma OpenKeepsOrder(s: Sys, source: string, limit: nat)
    requires SysInv(s) && InOrder(s, source) && s.replicas <= 1 && Enabled(s, OpenDrain(source, 0, limit))
    ensures InOrder(Next(s, OpenDrain(source, 0, limit)), source)
  {
    var b := Lowest(Candidates(s, source), limit);
    assert forall d :: d in s.drains ==> DrainOk(s, d);
    assert Locked(s, source) == {};
    hide Genuine, MarkedIsSent, CallsOk, ArrivalsOk, DrainsOk, DrainOk;
    forall m: nat, i: nat | m < |b| && Before(TableOf(s, source), i, b[m])
      ensures i in TableOf(s, source).published || i in b[..m]
    {
      if i !in TableOf(s, source).published {
        LowestSkipsNothing(Candidates(s, source), limit, m, i);
      }
    }
    hide Lowest;
  }

  /** A message sent after everything that precedes it. */
  lemma AppendKeepsLogOrder(s: Sys, s': Sys, source: string, e: Entry)
    requires LogInOrder(s, source) && TableOf(s', source) == TableOf(s, source) && s'.log == s.log + [e]
    requires e.source == source ==>
      forall i: nat :: Before(TableOf(s, source), i, e.id) ==> (source, i) in Refs(s.log)
    ensures LogInOrder(s', source)
  {
    forall p: nat, i: nat | p < |s'.log| && s'.log[p].source == source && Before(TableOf(s', source), i, s'.log[p].id)
      ensures (source, i) in Refs(s'.log[..p])
    {
      if p < |s.log| {
        assert s'.log[..p] == s.log[..p] && s'.log[p] == s.log[p];
      } else {
        assert s'.log[..p] == s.log;
      }
    }
  }

  lemma PublishKeepsOrder(s: Sys, source: string, from: string)
    requires SysInv(s) && InOrder(s, source) && Enabled(s, Publish(from, 0))
    ensures InOrder(Next(s, Publish(from, 0)), source)
  {
    var s' := Next(s, Publish(from, 0));
    var e := EntryOf(s, from, NextRow(s, (from, 0)));
    RefsSnoc(s.log, e);
    if from == source {
      forall i: nat | Before(TableOf(s, source), i, e.id) ensures (source, i) in Refs(s.log) {
        NextIsInOrder(s, source, i);
      }
    }
    hide SysInv, Refs, Before;
    AppendKeepsLogOrder(s, s', source, e);
    hide LogInOrder;
  }

  lemma PublishFailsKeepsOrder(s: Sys, source: string, from: string)
    requires SysInv(s) && InOrder(s, source) && Enabled(s, PublishFails(from, 0))
    ensures InOrder(Next(s, PublishFails(from, 0)), source)
  {
    if from == source {
      forall i: nat | Before(TableOf(s, source), i, NextRow(s, (from, 0))) ensures (source, i) in Refs(s.log) {
        NextIsInOrder(s, source, i);
      }
    }
    hide SysInv, Refs, Before;
  }

  lemma StragglerKeepsOrder(s: Sys, source: string, from: string, id: nat)
    requires InOrder(s, source) && Enabled(s, Straggler(from, id))
    ensures InOrder(Next(s, Straggler(from, id)), source)
  {
    var e := EntryOf(s, from, id);
    RefsSnoc(s.log, e);
    hide Refs, Before;
    AppendKeepsLogOrder(s, Next(s, Straggler(from, id)), source, e);
    hide LogInOrder;
  }

  /** A step that sends nothing and opens no drain of this source. */
  lemma QuietKeepsOrder(s: Sys, s': Sys, source: string)
    requires InOrder(s, source) && s'.log == s.log && s'.limbo == s.limbo
    requires TableOf(s', source).rows == TableOf(s, source).rows
    requires TableOf(s, source).published <= TableOf(s', source).published
    requires (source, 0) in s'.drains ==>
      (source, 0) in s.drains && s'.drains[(source, 0)].batch == s.drains[(source, 0)].batch
    ensures InOrder(s', source)
  {
    assert forall i: nat, j: nat :: Before(TableOf(s', source), i, j) == Before(TableOf(s, source), i, j);
    hide Before;
  }

  lemma QuietStepKeepsOrder(s: Sys, step: Step, source: string)
    requires InOrder(s, source) && Enabled(s, step)
    requires step.Commit? || step.Abort? || ((step.ProducerCommits? || step.OpenDrain?) && step.source != source)
    ensures InOrder(Next(s, step), source)
  {
    hide InOrder, Lowest, Candidates;
    QuietKeepsOrder(s, Next(s, step), source);
  }

  lemma OnlyReplicaZero(s: Sys)
    requires SysInv(s) && s.replicas <= 1
    ensures forall d :: d in s.drains ==> d.1 == 0
  {
    assert forall d :: d in s.drains ==> DrainOk(s, d);
  }

  lemma StepKeepsOrder(s: Sys, step: Step, source: string)
    requires SysInv(s) && InOrder(s, source) && s.replicas <= 1 && Enabled(s, step)
    requires VisibleInOrder(TableOf(Next(s, step), source))
    ensures InOrder(Next(s, step), source)
  {
    OnlyReplicaZero(s);
    hide SysInv, VisibleInOrder, InOrder, Next;
    match step
    case ProducerCommits(from, id, row) =>
      if from == source {
        ProducerKeepsOrder(s, source, id, row);
      } else {
        QuietStepKeepsOrder(s, step, source);
      }
    case OpenDrain(from, r, limit) =>
      if from == source {
        OpenKeepsOrder(s, source, limit);
      } else {
        QuietStepKeepsOrder(s, step, source);
      }
    case Publish(from, r) => PublishKeepsOrder(s, source, from);
    case PublishFails(from, r) => PublishFailsKeepsOrder(s, source, from);
    case Straggler(from, id) => StragglerKeepsOrder(s, source, from, id);
    case Commit(from, r) => QuietStepKeepsOrder(s, step, source);
    case Abort(from, r) => QuietStepKeepsOrder(s, step, source);
  }

  // ---------------------------------------------------------------------------------------------
  // Runs
  // ---------------------------------------------------------------------------------------------

  /** s is reached from empty outboxes by these steps, each enabled when it is taken. */
  ghost predicate Reaches(s: Sys, steps: seq<Step>)
    decreases |steps|
  {
    if steps == [] then s == Boot(s.replicas)
    else
      var last := steps[|steps| - 1];
      exists before :: Reaches(before, steps[..|steps| - 1]) && Enabled(before, last) && s == Next(before, last)
  }

  lemma {:induction false} ReachableKeepsSysInv(s: Sys, steps: seq<Step>)
    requires Reaches(s, steps)
    ensures SysInv(s)
    decreases |steps|
  {
    if steps != [] {
      var init, last := steps[..|steps| - 1], steps[|steps| - 1];
      var before :| Reaches(before, init) && Enabled(before, last) && s == Next(before, last);
      ReachableKeepsSysInv(before, init);
      StepKeepsSysInv(before, last);
    }
  }

  lemma EarlierWasInOrder(s: Sys, step: Step, source: string)
    requires SysInv(s) && Enabled(s, step) && VisibleInOrder(TableOf(Next(s, step), source))
    ensures VisibleInOrder(TableOf(s, source))
  {
    var t, t' := TableOf(s, source), TableOf(Next(s, step), source);
    hide Lowest, Candidates;
    assert t.arrivals <= t'.arrivals;
    assert forall a :: 0 <= a < |t.arrivals| ==> t'.arrivals[a] == t.arrivals[a];
  }

  lemma {:induction false} ReachableIsInOrder(s: Sys, steps: seq<Step>, source: string)
    requires Reaches(s, steps) && s.replicas <= 1 && VisibleInOrder(TableOf(s, source))
    ensures InOrder(s, source)
    decreases |steps|
  {
    if steps != [] {
      var init, last := steps[..|steps| - 1], steps[|steps| - 1];
      var before :| Reaches(before, init) && Enabled(before, last) && s == Next(before, last);
      ReachableKeepsSysInv(before, init);
      assert before.replicas == s.replicas;
      hide SysInv, InOrder, VisibleInOrder, Next, Enabled, Reaches;
      EarlierWasInOrder(before, last, source);
      ReachableIsInOrder(before, init, source);
      StepKeepsOrder(before, last, source);
    }
  }

  /** No message is made up: each carries a committed row's content under an event id no other row has. */
  lemma EveryMessageIsARow(s: Sys, steps: seq<Step>, k: nat)
    requires Reaches(s, steps) && k < |s.log|
    ensures var e := s.log[k];
      && e.id in TableOf(s, e.source).rows
      && e.message == MessageOf(e.source, e.id, TableOf(s, e.source).rows[e.id])
      && forall l :: 0 <= l < |s.log| && s.log[l].message.eventId == e.message.eventId ==> s.log[l] == e
  {
    ReachableKeepsSysInv(s, steps);
    forall l | 0 <= l < |s.log| && s.log[l].message.eventId == s.log[k].message.eventId
      ensures s.log[l] == s.log[k]
    {
      EventIdsNeverCollide(s.log[l].source, s.log[l].id, s.log[k].source, s.log[k].id);
    }
  }

  /** A row marked published has reached the bus, with any number of replicas. */
  lemma MarkedRowsAreOnTheBus(s: Sys, steps: seq<Step>, source: string, id: nat)
    requires Reaches(s, steps) && id in TableOf(s, source).published
    ensures id in TableOf(s, source).rows
    ensures exists k :: 0 <= k < |s.log| && s.log[k] == EntryOf(s, source, id)
  {
    ReachableKeepsSysInv(s, steps);
    var k :| 0 <= k < |s.log| && (s.log[k].source, s.log[k].id) == (source, id);
    assert s.log[k] == EntryOf(s, source, id);
  }

  /** Once the marks of a batch are committed, no replica publishes any of its rows again. */
  lemma NoPublishAfterMarks(s: Sys, steps: seq<Step>, i: nat, j: nat)
    requires Reaches(s, steps)
    requires i < j < |s.calls| && s.calls[i].MarksCommitted? && s.calls[j].Attempt?
    requires s.calls[i].source == s.calls[j].source
    ensures s.calls[j].id !in s.calls[i].ids
  {
    ReachableKeepsSysInv(s, steps);
  }

  /**
   * With at most one replica, and rows of a lane becoming visible in id order, the first publication of a
   * row precedes every publication of a higher row of its lane, whatever failed in between.
   */
  lemma FirstPublicationsInOrder(s: Sys, steps: seq<Step>, source: string, p: nat, i: nat)
    requires Reaches(s, steps) && s.replicas <= 1 && VisibleInOrder(TableOf(s, source))
    requires p < |s.log| && s.log[p].source == source && Before(TableOf(s, source), i, s.log[p].id)
    ensures exists q :: 0 <= q < p && s.log[q] == EntryOf(s, source, i)
  {
    ReachableIsInOrder(s, steps, source);
    ReachableKeepsSysInv(s, steps);
    assert (source, i) in Refs(s.log[..p]);
    var q :| 0 <= q < p && (s.log[..p][q].source, s.log[..p][q].id) == (source, i);
    assert Genuine(s);
  }
}
