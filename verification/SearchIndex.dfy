/**
 * The search index as the fold of the event stream: how an event acts on a document, the consumer
 * that reads one lane of the bus in order, and what the index holds once everything is read.
 */
module SearchIndex {
  import opened Events
  import opened Outbox
  import Delivery

  datatype Doc = Doc(index: string, id: string)

  datatype Action = Put(doc: Doc) | Remove(doc: Doc) | Ignore

  type Index = map<Doc, map<string, Json>>

  function Lower(c: char): char { if 'A' <= c <= 'Z' then (c as int + 32) as char else c }

  /** Equality up to letter case, of a text that has letters without other case forms. */
  predicate EqualFold(s: string, t: string) { |s| == |t| && forall i :: 0 <= i < |s| ==> Lower(s[i]) == Lower(t[i]) }

  function ResolveEventType(topic: string, fields: map<string, Json>): string {
    if StringField(fields, ["type"]) != "" then StringField(fields, ["type"])
    else if StringField(fields, ["event_type"]) != "" then StringField(fields, ["event_type"])
    else if topic == "project.events" then if "closed_at" in fields then "project.closed" else "project.published"
    else if topic == "user.events" then if "kyc_status" in fields then "user.kyc_updated" else "profile.updated"
    else topic
  }

  /** Only freelancer profiles are indexed as freelancers, and only while they are searchable. */
  function Route(eventType: string, fields: map<string, Json>): Action {
    match eventType
    case "project.published" => Put(Doc("projects", StringField(fields, ["project_id", "id"])))
    case "project.closed" => Remove(Doc("projects", StringField(fields, ["project_id", "id"])))
    case "profile.updated" =>
      var doc := Doc("freelancers", StringField(fields, ["user_id", "id"]));
      if !EqualFold(StringField(fields, ["kind"]), "freelancer") then Ignore
      else if BoolField(fields, "is_searchable") then Put(doc)
      else Remove(doc)
    case _ => Ignore
  }

  /** What a message does to the index; a poison payload or a document without an id does nothing. */
  function ActionOf(m: Message): Action {
    if m.payload.Poison? then Ignore
    else
      var a := Route(if m.eventType != "" then m.eventType else ResolveEventType(m.topic, m.payload.fields),
                     m.payload.fields);
      if a.Ignore? || a.doc.id == "" then Ignore else a
  }

  function Apply(index: Index, m: Message): Index {
    match ActionOf(m)
    case Put(doc) => if m.payload.Object? then index[doc := m.payload.fields] else index
    case Remove(doc) => index - {doc}
    case Ignore => index
  }

  /** The search engine's documents, changed in place by the handler. */
  class Engine {
    var documents: Index

    constructor ()
      ensures documents == map[]
    {
      documents := map[];
    }

    /** A call to the engine that reports an error may have changed the document all the same. */
    method IndexEvent(m: Message, engineFails: bool, changedAnyway: bool) returns (ok: bool)
      modifies this
      ensures ok ==> documents == Apply(old(documents), m)
      ensures !ok ==> documents == old(documents) || documents == Apply(old(documents), m)
      ensures ok <==> ActionOf(m).Ignore? || !engineFails
    {
      if m.payload.Poison? {
        return true;
      }
      var eventType := m.eventType;
      if eventType == "" {
        eventType := ResolveEventType(m.topic, m.payload.fields);
      }
      var a := Route(eventType, m.payload.fields);
      if a.Ignore? || a.doc.id == "" {
        return true;
      }
      if engineFails && !changedAnyway {
        return false;
      }
      if a.Put? {
        documents := documents[a.doc := m.payload.fields];
      } else {
        documents := documents - {a.doc};
      }
      ok := !engineFails;
    }
  }

  predicate Touches(m: Message, doc: Doc) { !ActionOf(m).Ignore? && ActionOf(m).doc == doc }

  /** The document is as this message leaves it. */
  predicate IsAsLeftBy(index: Index, doc: Doc, m: Message) {
    if ActionOf(m).Put? && m.payload.Object? then doc in index && index[doc] == m.payload.fields else doc !in index
  }

  lemma ApplyTwice(index: Index, m: Message)
    ensures Apply(Apply(index, m), m) == Apply(index, m)
  {
    hide ActionOf;
  }

  // ---------------------------------------------------------------------------------------------
  // The consumer of one lane
  // ---------------------------------------------------------------------------------------------

  datatype Pc = Fetching | Handling(attempt: nat) | HandledIt | Committing

  /**
   * offset is where the group restarts, pos the message at hand; high is history: how far the
   * consumer has ever got.
   */
  datatype State = State(processed: set<string>, index: Index, offset: nat, pos: nat, high: nat, pc: Pc)

  datatype Step =
    | CheckSkips
    | CheckPasses
    | CheckErrs
    | HandlerOk
    | HandlerFails(applied: bool)
    | GiveUp(applied: bool)
    | MarkOk
    | MarkFails
    | CommitOffset
    | Crash

  const START := State({}, map[], 0, 0, 0, Fetching)
  const MAX_RETRIES := 3

  /** What convergence cannot tolerate: a check or a mark that fails, a handler that fails every time. */
  predicate Fault(step: Step) { step.CheckErrs? || step.MarkFails? || step.GiveUp? }

  predicate Enabled(stream: seq<Message>, st: State, step: Step) {
    && (step.Crash? || st.pos < |stream|)
    && match step
       case CheckSkips => st.pc.Fetching? && stream[st.pos].eventId in st.processed
       case CheckPasses => st.pc.Fetching? && stream[st.pos].eventId !in st.processed
       case CheckErrs => st.pc.Fetching?
       case HandlerOk => st.pc.Handling?
       case HandlerFails(_) => st.pc.Handling? && st.pc.attempt < MAX_RETRIES
       case GiveUp(_) => st.pc.Handling? && st.pc.attempt >= MAX_RETRIES
       case MarkOk => st.pc.HandledIt?
       case MarkFails => st.pc.HandledIt?
       case CommitOffset => st.pc.Committing?
       case Crash => true
  }

  function Max(a: nat, b: nat): nat { if a < b then b else a }

  function Next(stream: seq<Message>, st: State, step: Step): State
    requires Enabled(stream, st, step)
  {
    match step
    case CheckSkips => st.(pc := Committing, high := Max(st.high, st.pos + 1))
    case CheckPasses => st.(pc := Handling(1))
    case CheckErrs => st.(pc := Handling(1))
    case HandlerOk => st.(pc := HandledIt, index := Apply(st.index, stream[st.pos]))
    case HandlerFails(applied) =>
      st.(pc := Handling(st.pc.attempt + 1), index := if applied then Apply(st.index, stream[st.pos]) else st.index)
    case GiveUp(applied) =>
      st.(pc := Fetching, pos := st.pos + 1, high := Max(st.high, st.pos + 1),
          index := if applied then Apply(st.index, stream[st.pos]) else st.index)
    case MarkOk =>
      st.(pc := Committing, high := Max(st.high, st.pos + 1), processed := st.processed + {stream[st.pos].eventId})
    case MarkFails => st.(pc := Committing, high := Max(st.high, st.pos + 1))
    case CommitOffset => st.(pc := Fetching, offset := st.pos + 1, pos := st.pos + 1)
    case Crash => st.(pc := Fetching, pos := st.offset)
  }

  ghost predicate Reaches(stream: seq<Message>, st: State, steps: seq<Step>)
    decreases |steps|
  {
    if steps == [] then st == START
    else
      var last := steps[|steps| - 1];
      exists before :: Reaches(stream, before, steps[..|steps| - 1])
        && Enabled(stream, before, last) && st == Next(stream, before, last)
  }

  function IdsIn(stream: seq<Message>): set<string> { set i | 0 <= i < |stream| :: stream[i].eventId }

  /** Every event applied once, at its first publication. */
  function FirstsApplied(stream: seq<Message>): Index {
    if stream == [] then map[]
    else
      var init, last := stream[..|stream| - 1], stream[|stream| - 1];
      if last.eventId in IdsIn(init) then FirstsApplied(init) else Apply(FirstsApplied(init), last)
  }

  ghost predicate Inv(stream: seq<Message>, st: State) {
    && st.offset <= st.pos <= st.high <= |stream|
    && (st.pc.Committing? ==> st.pos < st.high)
    && st.processed == IdsIn(stream[..st.high])
    && (st.pc.Handling? || st.pc.HandledIt? ==>
          st.pos == st.high < |stream| && stream[st.high].eventId !in st.processed)
    && (st.index == FirstsApplied(stream[..st.high]) || OneAhead(stream, st))
    && (st.pc.HandledIt? ==> OneAhead(stream, st))
  }

  /** The next new event is applied but not yet marked. */
  ghost predicate OneAhead(stream: seq<Message>, st: State) {
    && st.high < |stream| && stream[st.high].eventId !in st.processed
    && st.index == Apply(FirstsApplied(stream[..st.high]), stream[st.high])
  }

  lemma IdsSnoc(stream: seq<Message>, k: nat)
    requires k < |stream|
    ensures IdsIn(stream[..k + 1]) == IdsIn(stream[..k]) + {stream[k].eventId}
    ensures stream[k].eventId in IdsIn(stream[..k]) ==> FirstsApplied(stream[..k + 1]) == FirstsApplied(stream[..k])
    ensures stream[k].eventId !in IdsIn(stream[..k]) ==>
      FirstsApplied(stream[..k + 1]) == Apply(FirstsApplied(stream[..k]), stream[k])
  {
    var a, b := stream[..k], stream[..k + 1];
    assert b[..k] == a && b[k] == stream[k];
    forall id | id in IdsIn(a) ensures id in IdsIn(b) {
      var i :| 0 <= i < |a| && a[i].eventId == id;
      assert b[i].eventId == id;
    }
    assert stream[k].eventId in IdsIn(b);
    hide Apply;
  }

  lemma SkippedIsProcessed(stream: seq<Message>, st: State)
    requires Inv(stream, st) && st.pos < st.high
    ensures stream[st.pos].eventId in st.processed
  {
    assert stream[..st.high][st.pos] == stream[st.pos];
  }

  lemma StepKeepsInv(stream: seq<Message>, st: State, step: Step)
    requires Inv(stream, st) && Enabled(stream, st, step) && !Fault(step)
    ensures Inv(stream, Next(stream, st, step))
  {
    if st.pos < st.high {
      SkippedIsProcessed(stream, st);
    } else if st.pos < |stream| {
      IdsSnoc(stream, st.pos);
      ApplyTwice(FirstsApplied(stream[..st.high]), stream[st.pos]);
    }
    hide IdsIn, FirstsApplied, Apply;
  }

  lemma {:induction false} ReachableKeepsInv(stream: seq<Message>, st: State, steps: seq<Step>)
    requires Reaches(stream, st, steps) && forall i :: 0 <= i < |steps| ==> !Fault(steps[i])
    ensures Inv(stream, st)
    decreases |steps|
  {
    if steps != [] {
      var init, last := steps[..|steps| - 1], steps[|steps| - 1];
      var before :| Reaches(stream, before, init) && Enabled(stream, before, last) && st == Next(stream, before, last);
      ReachableKeepsInv(stream, before, init);
      hide Inv, Reaches, Next, Enabled;
      StepKeepsInv(stream, before, last);
    }
  }

  /** Whatever was redelivered or retried, at the end every event has been applied once, at its first publication. */
  lemma ReadToTheEnd(stream: seq<Message>, st: State, steps: seq<Step>)
    requires Reaches(stream, st, steps) && forall i :: 0 <= i < |steps| ==> !Fault(steps[i])
    requires st.pos == |stream|
    ensures st.index == FirstsApplied(stream)
  {
    ReachableKeepsInv(stream, st, steps);
    assert stream[..|stream|] == stream;
  }

  // ---------------------------------------------------------------------------------------------
  // Convergence
  // ---------------------------------------------------------------------------------------------

  predicate InLane(e: Delivery.Entry, topic: string, key: string) { e.message.topic == topic && e.message.key == key }

  /** The messages of one topic and key, in the order of the bus. */
  function Lane(log: seq<Delivery.Entry>, topic: string, key: string): seq<Delivery.Entry> {
    if log == [] then []
    else Lane(log[..|log| - 1], topic, key) + if InLane(log[|log| - 1], topic, key) then [log[|log| - 1]] else []
  }

  lemma {:induction false} LaneHolds(log: seq<Delivery.Entry>, topic: string, key: string, e: Delivery.Entry)
    ensures e in Lane(log, topic, key) <==> e in log && InLane(e, topic, key)
  {
    if log != [] {
      LaneHolds(log[..|log| - 1], topic, key, e);
      assert log == log[..|log| - 1] + [log[|log| - 1]];
    }
  }

  /** Number p of the lane is somewhere on the bus, with the same messages of the lane before it. */
  lemma {:induction false} LanePosition(log: seq<Delivery.Entry>, topic: string, key: string, p: nat) returns (q: nat)
    requires p < |Lane(log, topic, key)|
    ensures q < |log| && log[q] == Lane(log, topic, key)[p]
    ensures Lane(log[..q], topic, key) == Lane(log, topic, key)[..p]
  {
    var n := |log| - 1;
    var lane, init := Lane(log, topic, key), Lane(log[..n], topic, key);
    if p < |init| {
      q := LanePosition(log[..n], topic, key, p);
      assert log[..n][..q] == log[..q] && lane[..p] == init[..p];
    } else {
      q := n;
      assert lane[..p] == init;
    }
  }

  /** What the relay guarantees about a lane: before a row come all lower rows of the database in the lane. */
  ghost predicate FirstsInOrder(entries: seq<Delivery.Entry>, source: string, ids: set<nat>) {
    forall p: nat, i: nat :: p < |entries| && entries[p].source == source && i in ids && i < entries[p].id ==>
      exists q :: 0 <= q < p && entries[q].source == source && entries[q].id == i
  }

  ghost predicate SameIdSameEntry(entries: seq<Delivery.Entry>) {
    && (forall p, q :: 0 <= p < |entries| && 0 <= q < |entries| ==>
          entries[p].message.eventId == entries[q].message.eventId ==> entries[p] == entries[q])
    && (forall p, q :: 0 <= p < |entries| && 0 <= q < |entries| ==>
          entries[p].source == entries[q].source && entries[p].id == entries[q].id ==> entries[p] == entries[q])
  }

  /** Everything that touches the document comes from this database. */
  ghost predicate HomeIs(entries: seq<Delivery.Entry>, doc: Doc, source: string) {
    forall p :: 0 <= p < |entries| && Touches(entries[p].message, doc) ==> entries[p].source == source
  }

  /** Entry p touches the document and no entry that does has a higher id. */
  ghost predicate Highest(entries: seq<Delivery.Entry>, doc: Doc, p: nat) {
    && p < |entries| && Touches(entries[p].message, doc)
    && forall q :: 0 <= q < |entries| && Touches(entries[q].message, doc) ==> entries[q].id <= entries[p].id
  }

  /** The rows of this lane that have reached it. */
  function RowIds(entries: seq<Delivery.Entry>, source: string): set<nat> {
    set p | 0 <= p < |entries| && entries[p].source == source :: entries[p].id
  }

  lemma AppliedLast(index: Index, m: Message, doc: Doc)
    ensures Touches(m, doc) ==> IsAsLeftBy(Apply(index, m), doc, m)
    ensures !Touches(m, doc) ==>
      (doc in Apply(index, m) <==> doc in index) && (doc in index ==> Apply(index, m)[doc] == index[doc])
  {
    hide Route, StringField, ResolveEventType, BoolField;
  }

  lemma CopyIsSeen(entries: seq<Delivery.Entry>, r: nat)
    requires r < |entries| - 1 && entries[r] == entries[|entries| - 1]
    ensures entries[|entries| - 1].message.eventId in IdsIn(Delivery.Messages(entries[..|entries| - 1]))
  {
    assert Delivery.Messages(entries[..|entries| - 1])[r] == entries[r].message;
  }

  /** An entry behind one of a higher row of the document is a copy. */
  lemma BehindHigherIsCopy(entries: seq<Delivery.Entry>, doc: Doc, source: string, ids: set<nat>, q: nat)
    requires SameIdSameEntry(entries) && HomeIs(entries, doc, source)
    requires FirstsInOrder(entries, source, ids) && RowIds(entries, source) <= ids
    requires q < |entries| - 1 && Touches(entries[q].message, doc) && Touches(entries[|entries| - 1].message, doc)
    requires entries[q].id >= entries[|entries| - 1].id
    ensures entries[|entries| - 1].message.eventId in IdsIn(Delivery.Messages(entries[..|entries| - 1]))
  {
    var n := |entries| - 1;
    hide Touches, IdsIn, Delivery.Messages;
    var r := q;
    if entries[n].id < entries[q].id {
      assert entries[n].id in RowIds(entries, source);
      r :| 0 <= r < q && entries[r].source == source && entries[r].id == entries[n].id;
    }
    assert entries[r].source == entries[n].source && entries[r].id == entries[n].id;
    CopyIsSeen(entries, r);
  }

  /** The original of a copy. */
  lemma OriginalOf(entries: seq<Delivery.Entry>) returns (r: nat)
    requires entries != [] && SameIdSameEntry(entries)
    requires entries[|entries| - 1].message.eventId in IdsIn(Delivery.Messages(entries[..|entries| - 1]))
    ensures r < |entries| - 1 && entries[r] == entries[|entries| - 1]
  {
    var init := Delivery.Messages(entries[..|entries| - 1]);
    r :| 0 <= r < |init| && init[r].eventId == entries[|entries| - 1].message.eventId;
    assert init[r] == entries[r].message;
  }

  lemma PrefixIsLaneToo(entries: seq<Delivery.Entry>, doc: Doc, source: string, ids: set<nat>)
    requires entries != [] && SameIdSameEntry(entries) && HomeIs(entries, doc, source)
    requires FirstsInOrder(entries, source, ids) && RowIds(entries, source) <= ids
    ensures var init := entries[..|entries| - 1];
      && SameIdSameEntry(init) && HomeIs(init, doc, source)
      && FirstsInOrder(init, source, ids) && RowIds(init, source) <= ids
      && Delivery.Messages(entries)[..|init|] == Delivery.Messages(init)
  {
    hide Touches;
    var init := entries[..|entries| - 1];
    forall id | id in RowIds(init, source) ensures id in RowIds(entries, source) {
      var p :| 0 <= p < |init| && init[p].source == source && init[p].id == id;
      assert entries[p] == init[p];
    }
    forall p: nat, i: nat | p < |init| && init[p].source == source && i in ids && i < init[p].id
      ensures exists q :: 0 <= q < p && init[q].source == source && init[q].id == i
    {
      var q :| 0 <= q < p && entries[q].source == source && entries[q].id == i;
      assert init[q] == entries[q];
    }
  }

  /** Every document is as the highest of its rows leaves it. */
  lemma {:induction false} HighestDecides(entries: seq<Delivery.Entry>, doc: Doc, source: string, ids: set<nat>, p: nat)
    requires SameIdSameEntry(entries) && HomeIs(entries, doc, source)
    requires FirstsInOrder(entries, source, ids) && RowIds(entries, source) <= ids
    requires Highest(entries, doc, p)
    ensures IsAsLeftBy(FirstsApplied(Delivery.Messages(entries)), doc, entries[p].message)
  {
    var n := |entries| - 1;
    var init, last := entries[..n], entries[n];
    PrefixIsLaneToo(entries, doc, source, ids);
    hide FirstsInOrder, RowIds, HomeIs, Touches;
    if last.message.eventId in IdsIn(Delivery.Messages(init)) {
      var r := OriginalOf(entries);
      var p' := if p < n then p else r;
      assert Highest(init, doc, p');
      HighestDecides(init, doc, source, ids, p');
    } else if Touches(last.message, doc) {
      if p < n {
        BehindHigherIsCopy(entries, doc, source, ids, p);
      }
      hide IdsIn, IsAsLeftBy;
      AppliedLast(FirstsApplied(Delivery.Messages(init)), last.message, doc);
    } else {
      assert Highest(init, doc, p);
      HighestDecides(init, doc, source, ids, p);
      AppliedLast(FirstsApplied(Delivery.Messages(init)), last.message, doc);
    }
  }

  lemma {:induction false} UntouchedIsAbsent(stream: seq<Message>, doc: Doc)
    requires forall k :: 0 <= k < |stream| ==> !Touches(stream[k], doc)
    ensures doc !in FirstsApplied(stream)
  {
    if stream != [] {
      UntouchedIsAbsent(stream[..|stream| - 1], doc);
      AppliedLast(FirstsApplied(stream[..|stream| - 1]), stream[|stream| - 1], doc);
    }
  }

  // ---------------------------------------------------------------------------------------------
  // From the outbox to the index
  // ---------------------------------------------------------------------------------------------

  function RowMessage(s: Delivery.Sys, source: string, id: nat): Message
    requires id in Delivery.TableOf(s, source).rows
  {
    MessageOf(source, id, Delivery.TableOf(s, source).rows[id])
  }

  ghost predicate RowTouches(s: Delivery.Sys, source: string, id: nat, doc: Doc) {
    id in Delivery.TableOf(s, source).rows && Touches(RowMessage(s, source, id), doc)
  }

  /** Every row that touches the document is in this database, under this topic and key, and is published. */
  ghost predicate Home(s: Delivery.Sys, doc: Doc, source: string, topic: string, key: string) {
    forall source': string, id: nat :: RowTouches(s, source', id, doc) ==>
      && source' == source && id in Delivery.TableOf(s, source).published
      && Delivery.TableOf(s, source).rows[id].topic == topic && Delivery.TableOf(s, source).rows[id].key == key
  }

  /** The rows of the lane. */
  function LaneRows(s: Delivery.Sys, source: string, topic: string, key: string): set<nat> {
    set id | id in Delivery.TableOf(s, source).rows
      && Delivery.TableOf(s, source).rows[id].topic == topic && Delivery.TableOf(s, source).rows[id].key == key
  }

  lemma LaneEntriesAreRows(s: Delivery.Sys, relaySteps: seq<Delivery.Step>, topic: string, key: string, p: nat)
    requires Delivery.Reaches(s, relaySteps) && p < |Lane(s.log, topic, key)|
    ensures var e := Lane(s.log, topic, key)[p];
      && e in s.log && InLane(e, topic, key)
      && e.id in LaneRows(s, e.source, topic, key)
      && e == Delivery.EntryOf(s, e.source, e.id)
  {
    var lane := Lane(s.log, topic, key);
    LaneHolds(s.log, topic, key, lane[p]);
    var k :| 0 <= k < |s.log| && s.log[k] == lane[p];
    Delivery.EveryMessageIsARow(s, relaySteps, k);
  }

  lemma LaneHasOneEntryPerRow(s: Delivery.Sys, relaySteps: seq<Delivery.Step>, topic: string, key: string)
    requires Delivery.Reaches(s, relaySteps)
    ensures SameIdSameEntry(Lane(s.log, topic, key))
  {
    var lane := Lane(s.log, topic, key);
    forall p, q | 0 <= p < |lane| && 0 <= q < |lane|
      ensures lane[p].message.eventId == lane[q].message.eventId ==> lane[p] == lane[q]
      ensures lane[p].source == lane[q].source && lane[p].id == lane[q].id ==> lane[p] == lane[q]
    {
      LaneEntriesAreRows(s, relaySteps, topic, key, p);
      LaneEntriesAreRows(s, relaySteps, topic, key, q);
      hide Delivery.Reaches;
      if lane[p].message.eventId == lane[q].message.eventId {
        EventIdsNeverCollide(lane[p].source, lane[p].id, lane[q].source, lane[q].id);
      }
    }
  }

  lemma LaneIsInOrder(s: Delivery.Sys, relaySteps: seq<Delivery.Step>, source: string, topic: string, key: string)
    requires Delivery.Reaches(s, relaySteps) && s.replicas == 1
    requires Delivery.VisibleInOrder(Delivery.TableOf(s, source))
    ensures var lane := Lane(s.log, topic, key);
      FirstsInOrder(lane, source, LaneRows(s, source, topic, key))
      && RowIds(lane, source) <= LaneRows(s, source, topic, key)
  {
    var lane, ids := Lane(s.log, topic, key), LaneRows(s, source, topic, key);
    forall p: nat, i: nat | p < |lane| && lane[p].source == source && i in ids && i < lane[p].id
      ensures exists q :: 0 <= q < p && lane[q].source == source && lane[q].id == i
    {
      LaneEntriesAreRows(s, relaySteps, topic, key, p);
      var k := LanePosition(s.log, topic, key, p);
      Delivery.FirstPublicationsInOrder(s, relaySteps, source, k, i);
      hide Delivery.Reaches, Delivery.VisibleInOrder;
      var j :| 0 <= j < k && s.log[j] == Delivery.EntryOf(s, source, i);
      LaneHolds(s.log[..k], topic, key, s.log[..k][j]);
      assert s.log[..k][j] in lane[..p];
      var q :| 0 <= q < |lane[..p]| && lane[..p][q] == s.log[j];
    }
    forall id | id in RowIds(lane, source) ensures id in ids {
      var p :| 0 <= p < |lane| && lane[p].source == source && lane[p].id == id;
      LaneEntriesAreRows(s, relaySteps, topic, key, p);
    }
  }

  lemma LaneHasOneHome(s: Delivery.Sys, relaySteps: seq<Delivery.Step>, doc: Doc, source: string, topic: string,
                       key: string)
    requires Delivery.Reaches(s, relaySteps) && Home(s, doc, source, topic, key)
    ensures HomeIs(Lane(s.log, topic, key), doc, source)
  {
    var lane := Lane(s.log, topic, key);
    forall p | 0 <= p < |lane| && Touches(lane[p].message, doc) ensures lane[p].source == source {
      LaneEntriesAreRows(s, relaySteps, topic, key, p);
      assert RowTouches(s, lane[p].source, lane[p].id, doc);
    }
  }

  /** A published row that touches the document is in the lane. */
  lemma RowIsInLane(s: Delivery.Sys, relaySteps: seq<Delivery.Step>, doc: Doc, source: string, topic: string,
                    key: string,
                    id: nat) returns (p: nat)
    requires Delivery.Reaches(s, relaySteps) && Home(s, doc, source, topic, key) && RowTouches(s, source, id, doc)
    ensures p < |Lane(s.log, topic, key)| && Lane(s.log, topic, key)[p] == Delivery.EntryOf(s, source, id)
  {
    Delivery.MarkedRowsAreOnTheBus(s, relaySteps, source, id);
    var e := Delivery.EntryOf(s, source, id);
    LaneHolds(s.log, topic, key, e);
    p :| 0 <= p < |Lane(s.log, topic, key)| && Lane(s.log, topic, key)[p] == e;
  }

  lemma HighestRowIsHighestEntry(s: Delivery.Sys, relaySteps: seq<Delivery.Step>, doc: Doc, source: string,
                                 topic: string, key: string, m: nat, p: nat)
    requires Delivery.Reaches(s, relaySteps) && Home(s, doc, source, topic, key) && RowTouches(s, source, m, doc)
    requires forall id: nat :: RowTouches(s, source, id, doc) ==> id <= m
    requires p < |Lane(s.log, topic, key)| && Lane(s.log, topic, key)[p] == Delivery.EntryOf(s, source, m)
    ensures Highest(Lane(s.log, topic, key), doc, p)
  {
    var lane := Lane(s.log, topic, key);
    forall q | 0 <= q < |lane| && Touches(lane[q].message, doc) ensures lane[q].id <= lane[p].id {
      LaneEntriesAreRows(s, relaySteps, topic, key, q);
      assert RowTouches(s, lane[q].source, lane[q].id, doc);
    }
  }

  /** Applied once each, at their first publication, the events of a lane leave a document as its highest row does. */
  lemma FirstsAreAsHighestRow(s: Delivery.Sys, relaySteps: seq<Delivery.Step>, doc: Doc, source: string, topic: string,
                              key: string, m: nat)
    requires Delivery.Reaches(s, relaySteps) && s.replicas == 1
    requires Delivery.VisibleInOrder(Delivery.TableOf(s, source))
    requires Home(s, doc, source, topic, key)
    requires RowTouches(s, source, m, doc) && forall id: nat :: RowTouches(s, source, id, doc) ==> id <= m
    ensures IsAsLeftBy(FirstsApplied(Delivery.Messages(Lane(s.log, topic, key))), doc, RowMessage(s, source, m))
  {
    var lane := Lane(s.log, topic, key);
    LaneHasOneEntryPerRow(s, relaySteps, topic, key);
    LaneIsInOrder(s, relaySteps, source, topic, key);
    LaneHasOneHome(s, relaySteps, doc, source, topic, key);
    var p := RowIsInLane(s, relaySteps, doc, source, topic, key, m);
    HighestRowIsHighestEntry(s, relaySteps, doc, source, topic, key, m, p);
    hide *;
    HighestDecides(lane, doc, source, LaneRows(s, source, topic, key), p);
    EntryIsRowMessage(s, source, m);
  }

  /**
   * Convergence, end to end. With one relay replica and rows visible in id order, once the rows of a
   * document are published and its lane is read to the end without a failed check, a failed mark or
   * a handler that failed every time, the document is as its highest row leaves it: indexed with that
   * row's content, or absent. Duplicates, batches published again, retries and crashes do not matter.
   */
  lemma {:induction false} IndexConverges(s: Delivery.Sys, relaySteps: seq<Delivery.Step>, doc: Doc, source: string,
                                          topic: string, key: string, st: State, steps: seq<Step>, m: nat)
    requires Delivery.Reaches(s, relaySteps) && s.replicas == 1
    requires Delivery.VisibleInOrder(Delivery.TableOf(s, source))
    requires Home(s, doc, source, topic, key)
    requires Reaches(Delivery.Messages(Lane(s.log, topic, key)), st, steps) && st.pos == |Lane(s.log, topic, key)|
    requires forall i :: 0 <= i < |steps| ==> !Fault(steps[i])
    requires RowTouches(s, source, m, doc) && forall id: nat :: RowTouches(s, source, id, doc) ==> id <= m
    ensures IsAsLeftBy(st.index, doc, RowMessage(s, source, m))
  {
    ReadToTheEnd(Delivery.Messages(Lane(s.log, topic, key)), st, steps);
    hide Reaches;
    FirstsAreAsHighestRow(s, relaySteps, doc, source, topic, key, m);
  }

  lemma EntryIsRowMessage(s: Delivery.Sys, source: string, id: nat)
    requires id in Delivery.TableOf(s, source).rows
    ensures Delivery.EntryOf(s, source, id).message == RowMessage(s, source, id)
  {
  }

  /** A document no row touches is not in the index. */
  lemma NothingAppearsFromNowhere(s: Delivery.Sys, relaySteps: seq<Delivery.Step>, doc: Doc, topic: string, key: string,
                                  st: State, steps: seq<Step>)
    requires Delivery.Reaches(s, relaySteps)
    requires Reaches(Delivery.Messages(Lane(s.log, topic, key)), st, steps) && st.pos == |Lane(s.log, topic, key)|
    requires forall i :: 0 <= i < |steps| ==> !Fault(steps[i])
    requires forall source: string, id: nat :: !RowTouches(s, source, id, doc)
    ensures doc !in st.index
  {
    var lane := Lane(s.log, topic, key);
    ReadToTheEnd(Delivery.Messages(lane), st, steps);
    hide Reaches;
    forall k | 0 <= k < |lane| ensures !Touches(Delivery.Messages(lane)[k], doc) {
      LaneEntriesAreRows(s, relaySteps, topic, key, k);
      assert !RowTouches(s, lane[k].source, lane[k].id, doc);
    }
    UntouchedIsAbsent(Delivery.Messages(lane), doc);
  }
}
