/** Building runs of the relays: rows that arrive in a given order, batches that are taken and published. */
module DeliveryRuns {
  import opened Outbox
  import opened Delivery

  /** The rows arrived in this order, each once. */
  ghost predicate Arrivable(rows: map<nat, Row>, arrivals: seq<nat>) {
    && (forall id :: id in rows <==> id in arrivals)
    && (forall a, b :: 0 <= a < b < |arrivals| ==> arrivals[a] != arrivals[b])
  }

  /** A run with this many replicas that ends with these rows in the source's outbox. */
  ghost predicate EndsWith(s: Sys, steps: seq<Step>, n: nat, source: string, rows: map<nat, Row>, arrivals: seq<nat>) {
    && Reaches(s, steps) && s.replicas == n
    && TableOf(s, source).rows == rows && TableOf(s, source).arrivals == arrivals
  }

  lemma Take(s: Sys, steps: seq<Step>, step: Step) returns (s': Sys, steps': seq<Step>)
    requires Reaches(s, steps) && Enabled(s, step)
    ensures s' == Next(s, step) && s'.replicas == s.replicas && Reaches(s', steps')
  {
    steps' := steps + [step];
    s' := Next(s, step);
    assert steps'[..|steps'| - 1] == steps;
    assert Reaches(s, steps'[..|steps'| - 1]) && Enabled(s, steps'[|steps'| - 1]);
  }

  function Among(rows: map<nat, Row>, ids: seq<nat>): map<nat, Row> { map id | id in ids && id in rows :: rows[id] }

  /** The next row becomes visible. */
  lemma CommitRow(s: Sys, steps: seq<Step>, source: string, rows: map<nat, Row>, arrivals: seq<nat>, k: nat)
    returns (s': Sys, steps': seq<Step>)
    requires Reaches(s, steps) && Arrivable(rows, arrivals) && k < |arrivals|
    requires TableOf(s, source) == Table(Among(rows, arrivals[..k]), {}, arrivals[..k])
    ensures Reaches(s', steps') && TableOf(s', source) == Table(Among(rows, arrivals[..k + 1]), {}, arrivals[..k + 1])
    ensures s'.(tables := s.tables) == s
    ensures forall other :: other != source ==> TableOf(s', other) == TableOf(s, other)
  {
    hide Reaches;
    var id := arrivals[k];
    assert id in arrivals && id !in arrivals[..k];
    assert arrivals[..k + 1] == arrivals[..k] + [id];
    assert Among(rows, arrivals[..k + 1]) == Among(rows, arrivals[..k])[id := rows[id]];
    s', steps' := Take(s, steps, ProducerCommits(source, id, rows[id]));
  }

  lemma {:induction false} CommitRows(s: Sys, steps: seq<Step>, source: string, rows: map<nat, Row>, arrivals: seq<nat>,
                                      k: nat, l: nat) returns (s': Sys, steps': seq<Step>)
    requires Reaches(s, steps) && Arrivable(rows, arrivals) && k <= l <= |arrivals|
    requires TableOf(s, source) == Table(Among(rows, arrivals[..k]), {}, arrivals[..k])
    ensures Reaches(s', steps') && TableOf(s', source) == Table(Among(rows, arrivals[..l]), {}, arrivals[..l])
    ensures s'.(tables := s.tables) == s
    ensures forall other :: other != source ==> TableOf(s', other) == TableOf(s, other)
  {
    hide Reaches, Among, Arrivable, TableOf;
    if k == l {
      s', steps' := s, steps;
    } else {
      s', steps' := CommitRows(s, steps, source, rows, arrivals, k, l - 1);
      s', steps' := CommitRow(s', steps', source, rows, arrivals, l - 1);
    }
  }

  /** All rows of an outbox become visible before any relay looks at it. */
  lemma CommitAll(n: nat, source: string, rows: map<nat, Row>, arrivals: seq<nat>, l: nat)
    returns (s: Sys, steps: seq<Step>)
    requires Arrivable(rows, arrivals) && l <= |arrivals|
    ensures Reaches(s, steps) && s.(tables := map[]) == Boot(n)
    ensures TableOf(s, source) == Table(Among(rows, arrivals[..l]), {}, arrivals[..l])
    ensures forall other :: other != source ==> TableOf(s, other) == Table(map[], {}, [])
  {
    assert Reaches(Boot(n), []);
    hide Reaches;
    assert Among(rows, arrivals[..0]) == map[];
    s, steps := CommitRows(Boot(n), [], source, rows, arrivals, 0, l);
  }

  lemma AllAmong(rows: map<nat, Row>, arrivals: seq<nat>)
    requires Arrivable(rows, arrivals)
    ensures Among(rows, arrivals[..|arrivals|]) == rows && arrivals[..|arrivals|] == arrivals
  {
    assert arrivals[..|arrivals|] == arrivals;
  }

  function Entries(s: Sys, source: string, ids: seq<nat>): seq<Entry>
    requires forall id :: id in ids ==> id in TableOf(s, source).rows
  {
    seq(|ids|, k requires 0 <= k < |ids| => EntryOf(s, source, ids[k]))
  }

  /** The first n rows of an open batch are published. */
  lemma {:induction false} PublishRows(s: Sys, steps: seq<Step>, source: string, r: nat, batch: seq<nat>, n: nat)
    returns (s': Sys, steps': seq<Step>)
    requires Reaches(s, steps) && (source, r) in s.drains && s.drains[(source, r)] == Drain(batch, 0) && n <= |batch|
    requires forall id :: id in batch ==> id in TableOf(s, source).rows
    ensures Reaches(s', steps') && s'.(log := s.log, calls := s.calls, drains := s.drains) == s
    ensures s'.drains == s.drains[(source, r) := Drain(batch, n)]
    ensures s'.log == s.log + Entries(s, source, batch[..n])
  {
    hide Reaches;
    if n == 0 {
      s', steps' := s, steps;
    } else {
      s', steps' := PublishRows(s, steps, source, r, batch, n - 1);
      assert batch[n - 1] in batch;
      s', steps' := Take(s', steps', Publish(source, r));
      assert Entries(s, source, batch[..n]) == Entries(s, source, batch[..n - 1]) + [EntryOf(s, source, batch[n - 1])];
    }
  }

  lemma OneDrainLocks(s: Sys, source: string, r: nat, batch: seq<nat>)
    requires s.drains == map[(source, r) := Drain(batch, 0)]
    ensures Locked(s, source) == Elements(batch)
  {
    var d: Replica := (source, r);
    assert d in s.drains.Keys && s.drains.Keys == {d};
    forall id | id in Elements(batch) ensures id in Locked(s, source) {
      assert id in s.drains[d].batch;
    }
  }

  /** A replica takes a batch of this size when nobody else is at work. */
  lemma OpenFirst(s: Sys, steps: seq<Step>, source: string, limit: nat) returns (s': Sys, steps': seq<Step>)
    requires Reaches(s, steps) && s.replicas >= 1 && s.drains == map[] && TableOf(s, source).published == {}
    ensures var batch := Lowest(TableOf(s, source).rows.Keys, limit);
      && Reaches(s', steps') && s'.(drains := map[]) == s && s'.drains == map[(source, 0) := Drain(batch, 0)]
      && Candidates(s', source) == TableOf(s, source).rows.Keys - Elements(batch)
  {
    hide Reaches, Lowest;
    assert Locked(s, source) == {} && Candidates(s, source) == TableOf(s, source).rows.Keys;
    s', steps' := Take(s, steps, OpenDrain(source, 0, limit));
    OneDrainLocks(s', source, 0, Lowest(TableOf(s, source).rows.Keys, limit));
  }

  lemma BatchOfAll(rows: map<nat, Row>)
    ensures var batch := Lowest(rows.Keys, |rows|);
      Elements(batch) == rows.Keys && (forall id :: id in batch ==> id in rows) && batch[..|batch|] == batch
  {
    LowestTakesAll(rows.Keys, |rows.Keys|);
    var batch := Lowest(rows.Keys, |rows|);
    assert forall id :: id in batch ==> id in Elements(batch);
  }

  /** A relay publishes everything that is visible. */
  lemma PublishAll(s: Sys, steps: seq<Step>, source: string) returns (s': Sys, steps': seq<Step>)
    requires Reaches(s, steps) && s.replicas >= 1 && s.drains == map[] && TableOf(s, source).published == {}
    ensures Reaches(s', steps') && s'.(drains := map[], log := s.log, calls := s.calls) == s
    ensures (source, 0) in s'.drains
    ensures var batch := s'.drains[(source, 0)].batch;
      && s'.drains[(source, 0)] == Drain(batch, |batch|) && Elements(batch) == TableOf(s, source).rows.Keys
      && s'.log == s.log + Entries(s, source, batch)
  {
    var rows := TableOf(s, source).rows;
    BatchOfAll(rows);
    hide Reaches, Lowest, Candidates, Elements, Entries, EntryOf, Locked;
    s', steps' := OpenFirst(s, steps, source, |rows|);
    SameEntries(s, s', source, Lowest(rows.Keys, |rows|));
    s', steps' := PublishRows(s', steps', source, 0, Lowest(rows.Keys, |rows|), |Lowest(rows.Keys, |rows|)|);
  }

  lemma SameEntries(s: Sys, s': Sys, source: string, ids: seq<nat>)
    requires s'.tables == s.tables && forall id :: id in ids ==> id in TableOf(s, source).rows
    ensures forall id :: id in ids ==> id in TableOf(s', source).rows
    ensures Entries(s', source, ids) == Entries(s, source, ids)
  {
  }

  lemma EntriesRefs(s: Sys, source: string, ids: seq<nat>)
    requires forall id :: id in ids ==> id in TableOf(s, source).rows
    ensures forall id: nat :: (source, id) in Refs(Entries(s, source, ids)) <==> id in Elements(ids)
  {
    var log := Entries(s, source, ids);
    assert forall p :: 0 <= p < |log| ==> log[p].source == source && log[p].id == ids[p];
  }

  /** Nothing but what is visible is on the bus, and all of that is. */
  lemma PublishAllOf(s: Sys, steps: seq<Step>, source: string) returns (s': Sys, steps': seq<Step>)
    requires Reaches(s, steps) && s.replicas >= 1 && s.drains == map[] && TableOf(s, source).published == {}
    requires s.log == []
    ensures Reaches(s', steps') && s'.replicas == s.replicas && s'.tables == s.tables
    ensures forall id: nat :: (source, id) in Refs(s'.log) <==> id in TableOf(s, source).rows
  {
    s', steps' := PublishAll(s, steps, source);
    var batch := s'.drains[(source, 0)].batch;
    assert forall id :: id in batch ==> id in Elements(batch);
    EntriesRefs(s, source, batch);
    hide *;
    assert s.log + Entries(s, source, batch) == Entries(s, source, batch);
  }

  lemma RowInBatch(rows: map<nat, Row>, i: nat) returns (x: nat)
    requires i in rows
    ensures x < |Lowest(rows.Keys, |rows|)| && Lowest(rows.Keys, |rows|)[x] == i
  {
    BatchOfAll(rows);
    var batch := Lowest(rows.Keys, |rows|);
    assert i in Elements(batch);
    x :| 0 <= x < |batch| && batch[x] == i;
  }

  /** The batch has been published up to row i, whose publish fails: it is in limbo, and no mark is made. */
  lemma FailAt(s: Sys, steps: seq<Step>, source: string, i: nat) returns (s': Sys, steps': seq<Step>)
    requires Reaches(s, steps) && s.replicas >= 1 && s.drains == map[] && TableOf(s, source).published == {}
    requires i in TableOf(s, source).rows
    ensures Reaches(s', steps') && s'.replicas == s.replicas && s'.drains == map[] && (source, i) in s'.limbo
    ensures forall any :: TableOf(s', any) == TableOf(s, any)
  {
    var rows := TableOf(s, source).rows;
    BatchOfAll(rows);
    var x := RowInBatch(rows, i);
    hide Reaches, Lowest, Candidates, Elements, Entries, EntryOf, Locked;
    s', steps' := OpenFirst(s, steps, source, |rows|);
    s', steps' := PublishRows(s', steps', source, 0, Lowest(rows.Keys, |rows|), x);
    s', steps' := Take(s', steps', PublishFails(source, 0));
  }

  /** Everything is published, the marks are committed, and row i comes once more. */
  lemma RepeatLast(s: Sys, steps: seq<Step>, source: string, i: nat) returns (s': Sys, steps': seq<Step>)
    requires Reaches(s, steps) && s.replicas >= 1 && s.drains == map[] && TableOf(s, source).published == {}
    requires (source, i) in s.limbo && i in TableOf(s, source).rows
    ensures Reaches(s', steps') && s'.replicas == s.replicas && s'.log != []
    ensures TableOf(s', source) == TableOf(s, source).(published := TableOf(s, source).rows.Keys)
    ensures forall other :: other != source ==> TableOf(s', other) == TableOf(s, other)
    ensures s'.log[|s'.log| - 1] == EntryOf(s', source, i)
  {
    hide Reaches, Elements, Entries;
    s', steps' := PublishAll(s, steps, source);
    s', steps' := Take(s', steps', Commit(source, 0));
    s', steps' := Take(s', steps', Straggler(source, i));
  }

  /** With one relay, any row of any outbox can be the last that reaches the bus, all rows being published. */
  lemma RepeatRow(source: string, rows: map<nat, Row>, arrivals: seq<nat>, i: nat) returns (s: Sys, steps: seq<Step>)
    requires Arrivable(rows, arrivals) && i in rows
    ensures EndsWith(s, steps, 1, source, rows, arrivals) && TableOf(s, source).published == rows.Keys
    ensures forall other :: other != source ==> TableOf(s, other) == Table(map[], {}, [])
    ensures s.log != [] && s.log[|s.log| - 1] == EntryOf(s, source, i)
  {
    s, steps := CommitAll(1, source, rows, arrivals, |arrivals|);
    AllAmong(rows, arrivals);
    hide Reaches, Arrivable, Among, EntryOf;
    s, steps := FailAt(s, steps, source, i);
    s, steps := RepeatLast(s, steps, source, i);
  }
}
