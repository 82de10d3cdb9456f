/**
 * Which outboxes are published in order: runs that break the order of a lane, built for every table
 * and every number of replicas that allows one, and so the exact condition of the order.
 */
module DeliveryOrder {
  import opened Events
  import opened Outbox
  import opened Delivery
  import opened DeliveryRuns

  /** Before each message come messages of all lower rows of its lane. */
  ghost predicate KeyOrder(s: Sys, source: string) {
    forall p: nat, i: nat ::
      p < |s.log| && s.log[p].source == source && Before(TableOf(s, source), i, s.log[p].id) ==>
        exists q :: 0 <= q < p && s.log[q] == EntryOf(s, source, i)
  }

  // ---------------------------------------------------------------------------------------------
  // Runs that break the order
  // ---------------------------------------------------------------------------------------------

  /** Another replica publishes the first free row. */
  lemma PublishFirst(s: Sys, steps: seq<Step>, source: string, j: nat) returns (s': Sys, steps': seq<Step>)
    requires Reaches(s, steps) && s.replicas >= 2 && (source, 1) !in s.drains
    requires Lowest(Candidates(s, source), 1) == [j] && j in TableOf(s, source).rows
    ensures Reaches(s', steps') && s'.replicas == s.replicas && s'.tables == s.tables
    ensures s'.log == s.log + [EntryOf(s, source, j)]
  {
    hide Reaches, Lowest, Candidates;
    s', steps' := Take(s, steps, OpenDrain(source, 1, 1));
    s', steps' := Take(s', steps', Publish(source, 1));
  }

  /** The first replica takes the rows below j and is slow; the second publishes j. */
  lemma OverlappingDrains(n: nat, source: string, rows: map<nat, Row>, arrivals: seq<nat>, j: nat)
    returns (s: Sys, steps: seq<Step>)
    requires n >= 2 && Arrivable(rows, arrivals) && j in rows
    ensures EndsWith(s, steps, n, source, rows, arrivals) && s.log == [EntryOf(s, source, j)]
  {
    s, steps := CommitAll(n, source, rows, arrivals, |arrivals|);
    AllAmong(rows, arrivals);
    LowestBelow(rows.Keys, j);
    hide Reaches, Lowest, Below, Candidates, Arrivable;
    s, steps := OpenFirst(s, steps, source, |Below(rows.Keys, j)|);
    s, steps := PublishFirst(s, steps, source, j);
  }

  /** A relay publishes everything that is visible before row b of the arrivals. */
  lemma LateArrival(n: nat, source: string, rows: map<nat, Row>, arrivals: seq<nat>, a: nat, b: nat)
    returns (s: Sys, steps: seq<Step>)
    requires n >= 1 && Arrivable(rows, arrivals) && a < b < |arrivals|
    ensures EndsWith(s, steps, n, source, rows, arrivals)
    ensures (source, arrivals[a]) in Refs(s.log) && (source, arrivals[b]) !in Refs(s.log)
  {
    AllAmong(rows, arrivals);
    assert arrivals[..b][a] == arrivals[a] && arrivals[a] in rows && arrivals[b] !in arrivals[..b];
    assert arrivals[a] in Among(rows, arrivals[..b]) && arrivals[b] !in Among(rows, arrivals[..b]);
    hide Reaches, Refs, Among, Arrivable;
    s, steps := CommitAll(n, source, rows, arrivals, b);
    s, steps := PublishAllOf(s, steps, source);
    s, steps := CommitRows(s, steps, source, rows, arrivals, b, |arrivals|);
  }

  /** Row j reached the bus, the lower row i of its lane did not. */
  lemma Swapped(s: Sys, source: string, i: nat, j: nat)
    requires Before(TableOf(s, source), i, j) && (source, j) in Refs(s.log) && (source, i) !in Refs(s.log)
    ensures !KeyOrder(s, source)
  {
    var p :| 0 <= p < |s.log| && (s.log[p].source, s.log[p].id) == (source, j);
    forall q | 0 <= q < |s.log| ensures s.log[q] != EntryOf(s, source, i) {
      assert (s.log[q].source, s.log[q].id) in Refs(s.log);
    }
    hide Refs;
    assert s.log[p].source == source && Before(TableOf(s, source), i, s.log[p].id);
  }

  // ---------------------------------------------------------------------------------------------
  // The exact conditions
  // ---------------------------------------------------------------------------------------------

  /** No lane has two rows. */
  ghost predicate OneRowPerLane(t: Table) { forall i, j :: !Before(t, i, j) }

  /** Every run with this many replicas that ends with these rows and arrivals is in order. */
  ghost predicate AlwaysInOrder(n: nat, source: string, rows: map<nat, Row>, arrivals: seq<nat>) {
    forall s, steps :: EndsWith(s, steps, n, source, rows, arrivals) ==> KeyOrder(s, source)
  }

  lemma KeptInOrder(s: Sys, steps: seq<Step>, source: string)
    requires Reaches(s, steps)
    requires (s.replicas <= 1 && VisibleInOrder(TableOf(s, source))) || OneRowPerLane(TableOf(s, source))
    ensures KeyOrder(s, source)
  {
    forall p: nat, i: nat | p < |s.log| && s.log[p].source == source && Before(TableOf(s, source), i, s.log[p].id)
      ensures exists q :: 0 <= q < p && s.log[q] == EntryOf(s, source, i)
    {
      FirstPublicationsInOrder(s, steps, source, p, i);
    }
  }

  lemma NothingSent(s: Sys, steps: seq<Step>)
    requires Reaches(s, steps) && s.replicas == 0
    ensures s.log == [] && s.limbo == {} && s.drains == map[]
    decreases |steps|
  {
    if steps != [] {
      var init, last := steps[..|steps| - 1], steps[|steps| - 1];
      var before :| Reaches(before, init) && Enabled(before, last) && s == Next(before, last);
      NothingSent(before, init);
    }
  }

  /**
   * The order within the lanes of an outbox is kept in every run exactly if no relay runs, or no lane has two
   * rows, or a single relay runs and the rows of each lane became visible in id order.
   */
  lemma {:induction false} OrderIsExact(n: nat, source: string, rows: map<nat, Row>, arrivals: seq<nat>)
    requires Arrivable(rows, arrivals)
    ensures var t := Table(rows, {}, arrivals);
      AlwaysInOrder(n, source, rows, arrivals) <==>
        n == 0 || OneRowPerLane(t) || (n == 1 && VisibleInOrder(t))
  {
    var t := Table(rows, {}, arrivals);
    hide Reaches, KeyOrder;
    if n == 0 || OneRowPerLane(t) || (n == 1 && VisibleInOrder(t)) {
      forall s, steps | EndsWith(s, steps, n, source, rows, arrivals) ensures KeyOrder(s, source) {
        hide Arrivable;
        if n == 0 {
          NothingSent(s, steps);
          SilenceIsInOrder(s, source);
        } else {
          SameRowsSameOrder(t, TableOf(s, source));
          KeptInOrder(s, steps, source);
        }
      }
    } else if n >= 2 {
      var i, j :| Before(t, i, j);
      var s, steps := OverlappingDrains(n, source, rows, arrivals, j);
      OnlyOneSent(s, source, j);
      Swapped(s, source, i, j);
    } else {
      var a, b := OutOfOrder(t);
      var s, steps := LateArrival(n, source, rows, arrivals, a, b);
      Swapped(s, source, arrivals[b], arrivals[a]);
    }
  }

  lemma SilenceIsInOrder(s: Sys, source: string)
    requires s.log == []
    ensures KeyOrder(s, source)
  {
  }

  lemma SameRowsSameOrder(t: Table, t': Table)
    requires t'.rows == t.rows && t'.arrivals == t.arrivals
    ensures OneRowPerLane(t) ==> OneRowPerLane(t')
    ensures VisibleInOrder(t) ==> VisibleInOrder(t')
  {
    if OneRowPerLane(t) {
      forall i, j ensures !Before(t', i, j) { assert !Before(t, i, j); }
    }
  }

  lemma OnlyOneSent(s: Sys, source: string, j: nat)
    requires j in TableOf(s, source).rows && s.log == [EntryOf(s, source, j)]
    ensures Refs(s.log) == {(source, j)}
  {
    assert (s.log[0].source, s.log[0].id) == (source, j);
  }

  lemma OutOfOrder(t: Table) returns (a: nat, b: nat)
    requires Arrivable(t.rows, t.arrivals) && !VisibleInOrder(t)
    ensures a < b < |t.arrivals| && Before(t, t.arrivals[b], t.arrivals[a])
  {
    a, b :| 0 <= a < b < |t.arrivals| && t.arrivals[a] in t.rows && t.arrivals[b] in t.rows
      && SameLane(t.rows[t.arrivals[a]], t.rows[t.arrivals[b]]) && t.arrivals[a] >= t.arrivals[b];
  }

  /** One relay is enough to keep every outbox in order whose rows became visible in id order; two are too many. */
  lemma {:induction false} OneReplicaIffOrdered(n: nat)
    ensures n <= 1 <==> forall s, steps, source ::
      Reaches(s, steps) && s.replicas == n && VisibleInOrder(TableOf(s, source)) ==> KeyOrder(s, source)
  {
    hide Reaches, KeyOrder, VisibleInOrder;
    if n <= 1 {
      forall s, steps, source | Reaches(s, steps) && s.replicas == n && VisibleInOrder(TableOf(s, source))
        ensures KeyOrder(s, source)
      {
        KeptInOrder(s, steps, source);
      }
    } else {
      var s, steps := ReplicasCanSwap(n, Row("", "", "", Poison));
      assert Reaches(s, steps) && s.replicas == n && VisibleInOrder(TableOf(s, "db"));
    }
  }

  /** With two replicas, or more, that share the work, a lane can be published out of id order. */
  lemma ReplicasCanSwap(n: nat, row: Row) returns (s: Sys, steps: seq<Step>)
    requires n >= 2
    ensures Reaches(s, steps) && s.replicas == n
    ensures VisibleInOrder(TableOf(s, "db")) && Before(TableOf(s, "db"), 1, 2) && !KeyOrder(s, "db")
    ensures s.log == [EntryOf(s, "db", 2)]
  {
    hide Reaches;
    var rows: map<nat, Row> := map[1 := row, 2 := row];
    s, steps := OverlappingDrains(n, "db", rows, [1, 2], 2);
    OnlyOneSent(s, "db", 2);
    Swapped(s, "db", 1, 2);
  }

  /** With one replica the arrival order alone decides: in order if and only if every run is. */
  lemma ArrivalsDecide(source: string, rows: map<nat, Row>, arrivals: seq<nat>)
    requires Arrivable(rows, arrivals)
    ensures VisibleInOrder(Table(rows, {}, arrivals)) <==> AlwaysInOrder(1, source, rows, arrivals)
  {
    hide AlwaysInOrder;
    OrderIsExact(1, source, rows, arrivals);
    var t := Table(rows, {}, arrivals);
    if !VisibleInOrder(t) {
      var a, b := OutOfOrder(t);
      assert !OneRowPerLane(t);
    }
  }

  /** So a single replica too can swap a lane, when a lower row commits after it has drained a higher one. */
  lemma LateRowsCanSwap(row: Row) returns (s: Sys, steps: seq<Step>)
    ensures Reaches(s, steps) && s.replicas == 1 && Before(TableOf(s, "db"), 1, 2) && !KeyOrder(s, "db")
    ensures s.log == [EntryOf(s, "db", 2)]
  {
    var rows: map<nat, Row> := map[1 := row, 2 := row];
    s, steps := CommitAll(1, "db", rows, [2, 1], 1);
    assert Among(rows, [2, 1][..1]) == map[2 := row];
    assert Lowest({2}, 1) == [Min({2})] + Lowest({2} - {Min({2})}, 0);
    hide Reaches, Lowest, Candidates;
    s, steps := OpenFirst(s, steps, "db", 1);
    s, steps := Take(s, steps, Publish("db", 0));
    s, steps := CommitRows(s, steps, "db", rows, [2, 1], 1, 2);
    AllAmong(rows, [2, 1]);
    OnlyOneSent(s, "db", 2);
    Swapped(s, "db", 1, 2);
  }
}
