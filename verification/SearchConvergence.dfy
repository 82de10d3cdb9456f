/**
 * From the outbox to the search index when checks, marks or handlers fail: exactly which outboxes still
 * end up indexed right, whatever the relay and the consumer go through.
 */
module SearchConvergence {
  import opened Events
  import opened Outbox
  import DeliveryRuns
  import opened SearchIndex
  import opened SearchFaults

  /** An outbox with its rows in the order of their arrival, and a document with its topic and key. */
  datatype Scene = Scene(
    source: string, rows: map<nat, Row>, arrivals: seq<nat>, doc: Doc, topic: string, key: string)

  /** Row id touches the document. */
  predicate Concerns(c: Scene, id: nat) { id in c.rows && Touches(MessageOf(c.source, id, c.rows[id]), c.doc) }

  function RowOf(c: Scene, id: nat): Message
    requires id in c.rows
  {
    MessageOf(c.source, id, c.rows[id])
  }

  /**
   * The rows of each lane arrived in id order, those that touch the document are all in its lane, and m is the
   * highest of them.
   */
  ghost predicate Proper(c: Scene, m: nat) {
    && DeliveryRuns.Arrivable(c.rows, c.arrivals) && Delivery.VisibleInOrder(Delivery.Table(c.rows, {}, c.arrivals))
    && Concerns(c, m)
    && forall id: nat :: Concerns(c, id) ==> c.rows[id].topic == c.topic && c.rows[id].key == c.key && id <= m
  }

  /** A run of one relay that ends with this outbox, the rows that touch the document being published. */
  ghost predicate Relayed(c: Scene, s: Delivery.Sys, relaySteps: seq<Delivery.Step>) {
    DeliveryRuns.EndsWith(s, relaySteps, 1, c.source, c.rows, c.arrivals) && Home(s, c.doc, c.source, c.topic, c.key)
  }

  function Stream(c: Scene, s: Delivery.Sys): seq<Message> { Delivery.Messages(Lane(s.log, c.topic, c.key)) }

  /**
   * Whatever the relay does, and whatever the consumer does with no other faults than these, the highest row
   * decides.
   */
  ghost predicate Converges(c: Scene, m: nat, kinds: set<Kind>)
    requires m in c.rows
  {
    forall s, relaySteps, st, steps ::
      Relayed(c, s, relaySteps) && Run(Stream(c, s), st, steps, kinds) && st.pos == |Stream(c, s)| ==>
        IsAsLeftBy(st.index, c.doc, RowOf(c, m))
  }

  /** Both leave the document they touch in one state. */
  predicate SameEffect(a: Message, b: Message) {
    ActionOf(a) == ActionOf(b) && (ActionOf(a).Put? ==> a.payload == b.payload)
  }

  lemma PutsAreObjects(m: Message)
    ensures ActionOf(m).Put? ==> m.payload.Object?
  {
  }

  lemma LeftAlike(index: Index, doc: Doc, a: Message, b: Message)
    requires Touches(a, doc) && Touches(b, doc) && IsAsLeftBy(index, doc, a)
    ensures IsAsLeftBy(index, doc, b) <==> SameEffect(a, b)
  {
    PutsAreObjects(a);
    PutsAreObjects(b);
    hide ActionOf;
  }

  // ---------------------------------------------------------------------------------------------
  // Outboxes that stand the faults
  // ---------------------------------------------------------------------------------------------

  /** What touches the document in its lane is a row of the outbox. */
  lemma LaneHoldsRows(c: Scene, s: Delivery.Sys, relaySteps: seq<Delivery.Step>, k: nat)
    requires Relayed(c, s, relaySteps) && k < |Stream(c, s)| && Touches(Stream(c, s)[k], c.doc)
    ensures exists id: nat :: Concerns(c, id) && Stream(c, s)[k] == RowOf(c, id)
  {
    var e := Lane(s.log, c.topic, c.key)[k];
    LaneEntriesAreRows(s, relaySteps, c.topic, c.key, k);
    EntryIsRowMessage(s, e.source, e.id);
    hide Touches, Delivery.Reaches;
    assert RowTouches(s, e.source, e.id, c.doc);
    assert Concerns(c, e.id);
  }

  lemma FirstsAreAsHighest(c: Scene, m: nat, s: Delivery.Sys, relaySteps: seq<Delivery.Step>)
    requires Proper(c, m) && Relayed(c, s, relaySteps)
    ensures IsAsLeftBy(FirstsApplied(Stream(c, s)), c.doc, RowOf(c, m))
  {
    hide Delivery.Reaches, Home, Touches;
    assert RowTouches(s, c.source, m, c.doc);
    forall id: nat | RowTouches(s, c.source, id, c.doc) ensures id <= m {
      assert Concerns(c, id);
    }
    hide IsAsLeftBy;
    FirstsAreAsHighestRow(s, relaySteps, c.doc, c.source, c.topic, c.key, m);
  }

  /** What checks and marks that fail cannot harm: every row about the document leaves it alike. */
  ghost predicate AllAlike(c: Scene, m: nat)
    requires m in c.rows
  {
    forall id: nat :: Concerns(c, id) ==> SameEffect(RowOf(c, id), RowOf(c, m))
  }

  /** What a handler that gives up cannot harm: no row puts the document. */
  ghost predicate NeverPut(c: Scene) {
    forall id: nat :: Concerns(c, id) ==> !Puts(RowOf(c, id), c.doc)
  }

  lemma AlikeIsTolerated(c: Scene, m: nat, s: Delivery.Sys, relaySteps: seq<Delivery.Step>, k: nat)
    requires Proper(c, m) && Relayed(c, s, relaySteps) && AllAlike(c, m)
    ensures !Stale(Stream(c, s), c.doc, k)
  {
    hide Delivery.Reaches, Home, IsAsLeftBy, SameEffect, Delivery.Messages, Lane;
    if k < |Stream(c, s)| && Touches(Stream(c, s)[k], c.doc) {
      LaneHoldsRows(c, s, relaySteps, k);
      var id :| Concerns(c, id) && Stream(c, s)[k] == RowOf(c, id);
      FirstsAreAsHighest(c, m, s, relaySteps);
      hide Relayed, Stream, Proper;
      SameEffectIsMutual(RowOf(c, id), RowOf(c, m));
      LeftAlike(FirstsApplied(Stream(c, s)), c.doc, RowOf(c, m), RowOf(c, id));
    }
  }

  lemma SameEffectIsMutual(a: Message, b: Message)
    ensures SameEffect(a, b) <==> SameEffect(b, a)
  {
  }

  lemma PutsTouch(m: Message, doc: Doc)
    requires Puts(m, doc)
    ensures Touches(m, doc)
  {
  }

  lemma NeverPutInLane(c: Scene, s: Delivery.Sys, relaySteps: seq<Delivery.Step>, k: nat)
    requires Relayed(c, s, relaySteps) && NeverPut(c) && k < |Stream(c, s)|
    ensures !Puts(Stream(c, s)[k], c.doc)
  {
    hide Relayed, Puts, Stream;
    if Puts(Stream(c, s)[k], c.doc) {
      PutsTouch(Stream(c, s)[k], c.doc);
      LaneHoldsRows(c, s, relaySteps, k);
    }
  }

  /** If the lane tolerates the faults, the run ends as the highest row demands, and the other way round. */
  lemma ToleratedIsRight(c: Scene, m: nat, s: Delivery.Sys, relaySteps: seq<Delivery.Step>, index: Index)
    requires Proper(c, m) && Relayed(c, s, relaySteps)
    ensures SameDoc(index, FirstsApplied(Stream(c, s)), c.doc) <==> IsAsLeftBy(index, c.doc, RowOf(c, m))
  {
    FirstsAreAsHighest(c, m, s, relaySteps);
    PutsAreObjects(RowOf(c, m));
    hide Proper, Relayed, FirstsApplied, Stream, ActionOf, RowOf;
  }

  lemma StoodFaults(c: Scene, m: nat, kinds: set<Kind>, s: Delivery.Sys, relaySteps: seq<Delivery.Step>)
    requires Proper(c, m) && Relayed(c, s, relaySteps)
    requires kinds == {} || (GivingUp !in kinds && AllAlike(c, m)) || NeverPut(c)
    ensures Tolerates(Stream(c, s), c.doc, kinds)
  {
    assert Concerns(c, m);
    hide Proper, Relayed, Stream, Stale, Puts, Tolerates, AllAlike, NeverPut;
    if GivingUp !in kinds && AllAlike(c, m) {
      forall k: nat ensures !Stale(Stream(c, s), c.doc, k) { AlikeIsTolerated(c, m, s, relaySteps, k); }
    } else if kinds != {} {
      forall k | 0 <= k < |Stream(c, s)| ensures !Puts(Stream(c, s)[k], c.doc) {
        NeverPutInLane(c, s, relaySteps, k);
      }
    }
    ToleranceIsExact(Stream(c, s), c.doc, kinds);
  }

  // ---------------------------------------------------------------------------------------------
  // Outboxes that do not
  // ---------------------------------------------------------------------------------------------

  lemma LastInLane(log: seq<Delivery.Entry>, topic: string, key: string)
    requires log != [] && InLane(log[|log| - 1], topic, key)
    ensures var stream := Delivery.Messages(Lane(log, topic, key));
      stream != [] && stream[|stream| - 1] == log[|log| - 1].message
  {
  }

  lemma HomeOfOne(c: Scene, m: nat, s: Delivery.Sys)
    requires Proper(c, m) && Delivery.TableOf(s, c.source).rows == c.rows
    requires Delivery.TableOf(s, c.source).published == c.rows.Keys
    requires forall other :: other != c.source ==> Delivery.TableOf(s, other) == Delivery.Table(map[], {}, [])
    ensures Home(s, c.doc, c.source, c.topic, c.key)
  {
    hide Touches;
    forall source: string, id: nat | RowTouches(s, source, id, c.doc)
      ensures source == c.source && Concerns(c, id)
    {
      assert source != c.source ==> Delivery.TableOf(s, source) == Delivery.Table(map[], {}, []);
    }
  }

  /** If the last message on the bus is a row about the document, it is the last of the document's lane. */
  lemma LastEntryIsRow(c: Scene, m: nat, i: nat, s: Delivery.Sys)
    requires Proper(c, m) && Concerns(c, i) && Delivery.TableOf(s, c.source).rows == c.rows
    requires s.log != [] && s.log[|s.log| - 1] == Delivery.EntryOf(s, c.source, i)
    ensures Stream(c, s) != [] && Stream(c, s)[|Stream(c, s)| - 1] == RowOf(c, i)
  {
    assert c.rows[i].topic == c.topic && c.rows[i].key == c.key;
    hide Proper, Touches, Lane, Delivery.Messages;
    LastInLane(s.log, c.topic, c.key);
  }

  /** A relay may leave any row about the document at the end of its lane. */
  lemma AnyRowComesLast(c: Scene, m: nat, i: nat) returns (s: Delivery.Sys, relaySteps: seq<Delivery.Step>)
    requires Proper(c, m) && Concerns(c, i)
    ensures Relayed(c, s, relaySteps)
    ensures Stream(c, s) != [] && Stream(c, s)[|Stream(c, s)| - 1] == RowOf(c, i)
  {
    assert DeliveryRuns.Arrivable(c.rows, c.arrivals) && i in c.rows;
    hide *;
    s, relaySteps := DeliveryRuns.RepeatRow(c.source, c.rows, c.arrivals, i);
    EndsWithRows(s, relaySteps, c);
    HomeOfOne(c, m, s);
    LastEntryIsRow(c, m, i, s);
    RelayedIf(c, s, relaySteps);
  }

  lemma EndsWithRows(s: Delivery.Sys, relaySteps: seq<Delivery.Step>, c: Scene)
    requires DeliveryRuns.EndsWith(s, relaySteps, 1, c.source, c.rows, c.arrivals)
    ensures Delivery.TableOf(s, c.source).rows == c.rows
  {
  }

  lemma RelayedIf(c: Scene, s: Delivery.Sys, relaySteps: seq<Delivery.Step>)
    requires DeliveryRuns.EndsWith(s, relaySteps, 1, c.source, c.rows, c.arrivals)
    requires Home(s, c.doc, c.source, c.topic, c.key)
    ensures Relayed(c, s, relaySteps)
  {
    hide Home;
  }

  /**
   * Whichever row is about the document, one kind of fault is enough to leave the document as that row does:
   * the relay publishes the row again behind all others, as a batch whose publish failed, and the consumer
   * applies it again.
   */
  lemma {:induction false} OneKindRevives(c: Scene, m: nat, i: nat, kind: Kind)
    returns (s: Delivery.Sys, relaySteps: seq<Delivery.Step>, st: State, steps: seq<Step>)
    requires Proper(c, m) && Concerns(c, i)
    ensures Relayed(c, s, relaySteps) && Run(Stream(c, s), st, steps, {kind}) && st.pos == |Stream(c, s)|
    ensures IsAsLeftBy(st.index, c.doc, RowOf(c, i))
  {
    hide Proper, Relayed, Stream, Run, IsAsLeftBy, Touches;
    s, relaySteps := AnyRowComesLast(c, m, i);
    st, steps := CopyWins(Stream(c, s), c.doc, |Stream(c, s)| - 1, kind);
  }

  lemma UnlikeBreaks(c: Scene, m: nat, i: nat, kinds: set<Kind>)
    requires Proper(c, m) && Concerns(c, i) && !SameEffect(RowOf(c, i), RowOf(c, m)) && kinds != {}
    ensures !Converges(c, m, kinds)
  {
    hide SameEffect, Relayed, Stream, Run, IsAsLeftBy;
    var kind :| kind in kinds;
    var s, relaySteps, st, steps := OneKindRevives(c, m, i, kind);
    MoreKinds(Stream(c, s), st, steps, {kind}, kinds);
    SameEffectIsMutual(RowOf(c, i), RowOf(c, m));
    if IsAsLeftBy(st.index, c.doc, RowOf(c, m)) {
      LeftAlike(st.index, c.doc, RowOf(c, m), RowOf(c, i));
    }
  }

  lemma PutBreaks(c: Scene, m: nat, i: nat, kinds: set<Kind>)
    requires Proper(c, m) && Concerns(c, i) && Puts(RowOf(c, i), c.doc) && GivingUp in kinds
    ensures !Converges(c, m, kinds)
  {
    hide Proper, Relayed, Stream, Run, IsAsLeftBy, SameDoc, Puts;
    var s, relaySteps := AnyRowComesLast(c, m, i);
    GivingUpShows(Stream(c, s), c.doc, |Stream(c, s)| - 1, kinds);
    var st, steps :| Run(Stream(c, s), st, steps, kinds) && st.pos == |Stream(c, s)|
      && !SameDoc(st.index, FirstsApplied(Stream(c, s)), c.doc);
    ToleratedIsRight(c, m, s, relaySteps, st.index);
  }

  /**
   * Convergence is exact. Without faults the document is always as its highest row leaves it. With checks or
   * marks that may fail, it is so in every run exactly if all its rows leave it alike; with a handler that may
   * give up, exactly if none of its rows puts it.
   */
  lemma {:induction false} ConvergenceIsExact(c: Scene, m: nat, kinds: set<Kind>)
    requires Proper(c, m)
    ensures Converges(c, m, kinds) <==>
      kinds == {} || (GivingUp !in kinds && AllAlike(c, m)) || NeverPut(c)
  {
    assert Concerns(c, m);
    hide Proper, Relayed, Stream, Run, IsAsLeftBy, SameDoc, SameEffect, Puts;
    if kinds == {} || (GivingUp !in kinds && AllAlike(c, m)) || NeverPut(c) {
      forall s, relaySteps, st, steps
        | Relayed(c, s, relaySteps) && Run(Stream(c, s), st, steps, kinds) && st.pos == |Stream(c, s)|
        ensures IsAsLeftBy(st.index, c.doc, RowOf(c, m))
      {
        StoodFaults(c, m, kinds, s, relaySteps);
        ToleratedIsRight(c, m, s, relaySteps, st.index);
      }
    } else if GivingUp in kinds {
      var i :| Concerns(c, i) && Puts(RowOf(c, i), c.doc);
      PutBreaks(c, m, i, kinds);
    } else {
      var i :| Concerns(c, i) && !SameEffect(RowOf(c, i), RowOf(c, m));
      UnlikeBreaks(c, m, i, kinds);
    }
  }
}
