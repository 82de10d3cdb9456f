/**
 * What the search index holds, in terms of the event types and payloads of the outbox: projects are there while
 * their last event says published, freelancers while their last profile is searchable, and nobody else is.
 */
module SearchRouting {
  import opened Events
  import opened SearchIndex

  // ---------------------------------------------------------------------------------------------
  // What an event says
  // ---------------------------------------------------------------------------------------------

  /** A payload without a type of its own is taken for what its topic usually carries. */
  lemma TypesAreInferred(topic: string, fields: map<string, Json>)
    ensures var said, t := StringField(fields, ["type", "event_type"]), ResolveEventType(topic, fields);
      if said != "" then t == said
      else
        && (t == "project.published" <==>
              topic == "project.published" || (topic == "project.events" && "closed_at" !in fields))
        && (t == "project.closed" <==>
              topic == "project.closed" || (topic == "project.events" && "closed_at" in fields))
        && (t == "profile.updated" <==>
              topic == "profile.updated" || (topic == "user.events" && "kyc_status" !in fields))
  {
    FewKeys(fields, "type", "event_type");
    FewKeys(fields, "event_type", "");
    hide StringField;
  }

  /** The type of an event: its header, or what is inferred without one. */
  predicate Says(topic: string, eventType: string, fields: map<string, Json>, t: string) {
    eventType == t || (eventType == "" && ResolveEventType(topic, fields) == t)
  }

  /** The event publishes or closes this project. */
  predicate AboutProject(m: Message, p: string, published: bool) {
    && p != "" && m.payload.Object? && StringField(m.payload.fields, ["project_id", "id"]) == p
    && Says(m.topic, m.eventType, m.payload.fields, if published then "project.published" else "project.closed")
  }

  /** Letters without regard to case. */
  predicate SameLetters(s: string, t: string) {
    |s| == |t| && forall i :: 0 <= i < |s| ==>
      s[i] == t[i] || ('A' <= s[i] <= 'Z' && t[i] as int == s[i] as int + 32)
      || ('A' <= t[i] <= 'Z' && s[i] as int == t[i] as int + 32)
  }

  /** The event updates this freelancer's profile, which is searchable or not. */
  predicate AboutFreelancer(m: Message, u: string, searchable: bool) {
    && u != "" && m.payload.Object? && StringField(m.payload.fields, ["user_id", "id"]) == u
    && Says(m.topic, m.eventType, m.payload.fields, "profile.updated")
    && SameLetters(StringField(m.payload.fields, ["kind"]), "freelancer")
    && BoolField(m.payload.fields, "is_searchable") == searchable
  }

  lemma FoldingIgnoresCase(s: string, t: string)
    ensures EqualFold(s, t) <==> SameLetters(s, t)
  {
  }

  lemma HeaderOrInferred(m: Message, t: string)
    requires m.payload.Object? && t != ""
    ensures Says(m.topic, m.eventType, m.payload.fields, t) <==>
      (if m.eventType != "" then m.eventType else ResolveEventType(m.topic, m.payload.fields)) == t
  {
  }

  /** Each document is touched by the events about it and by no others. */
  lemma EventsActOnTheirDocument(m: Message, id: string)
    ensures AboutProject(m, id, true) <==> ActionOf(m) == Put(Doc("projects", id))
    ensures AboutProject(m, id, false) <==> ActionOf(m) == Remove(Doc("projects", id))
    ensures AboutFreelancer(m, id, true) <==> ActionOf(m) == Put(Doc("freelancers", id))
    ensures AboutFreelancer(m, id, false) <==> ActionOf(m) == Remove(Doc("freelancers", id))
  {
    if m.payload.Object? {
      HeaderOrInferred(m, "project.published");
      HeaderOrInferred(m, "project.closed");
      HeaderOrInferred(m, "profile.updated");
      FoldingIgnoresCase(StringField(m.payload.fields, ["kind"]), "freelancer");
    }
    hide EqualFold, SameLetters, StringField, BoolField, ResolveEventType, Says;
  }

  // ---------------------------------------------------------------------------------------------
  // From the outbox to the index
  // ---------------------------------------------------------------------------------------------

  /** The row is about the project or about the freelancer, whichever is asked for. */
  predicate About(m: Message, doc: Doc, there: bool) {
    || (doc.index == "projects" && AboutProject(m, doc.id, there))
    || (doc.index == "freelancers" && AboutFreelancer(m, doc.id, there))
  }

  ghost predicate RowAbout(s: Delivery.Sys, source: string, id: nat, doc: Doc, there: bool) {
    id in Delivery.TableOf(s, source).rows && About(RowMessage(s, source, id), doc, there)
  }

  /** All rows about the document are in this database and lane, and published; m is the highest of them. */
  ghost predicate LastWord(s: Delivery.Sys, doc: Doc, source: string, topic: string, key: string, m: nat) {
    && (RowAbout(s, source, m, doc, true) || RowAbout(s, source, m, doc, false))
    && forall source': string, id: nat, there :: RowAbout(s, source', id, doc, there) ==>
         var t := Delivery.TableOf(s, source');
         source' == source && id in t.published && t.rows[id].topic == topic && t.rows[id].key == key && id <= m
  }

  lemma TouchesIffAbout(m: Message, doc: Doc)
    requires doc.index in {"projects", "freelancers"}
    ensures Touches(m, doc) <==> About(m, doc, true) || About(m, doc, false)
    ensures About(m, doc, true) <==> ActionOf(m) == Put(doc)
    ensures !(About(m, doc, true) && About(m, doc, false))
  {
    EventsActOnTheirDocument(m, doc.id);
    hide AboutProject, AboutFreelancer, ActionOf;
  }

  /**
   * Under the conditions of convergence, a project or a freelancer is in the index if and only if the highest row
   * about it says so (published rather than closed, searchable rather than not), and then with that row's payload.
   */
  lemma {:induction false} LastWordDecides(s: Delivery.Sys, relaySteps: seq<Delivery.Step>, doc: Doc, source: string,
                                           topic: string, key: string, st: State, steps: seq<Step>, m: nat)
    requires doc.index in {"projects", "freelancers"}
    requires Delivery.Reaches(s, relaySteps) && s.replicas == 1
    requires Delivery.VisibleInOrder(Delivery.TableOf(s, source)) && LastWord(s, doc, source, topic, key, m)
    requires var stream := Delivery.Messages(Lane(s.log, topic, key)); Reaches(stream, st, steps) && st.pos == |stream|
    requires forall i :: 0 <= i < |steps| ==> !Fault(steps[i])
    ensures doc in st.index <==> RowAbout(s, source, m, doc, true)
    ensures doc in st.index ==>
      && Delivery.TableOf(s, source).rows[m].payload.Object?
      && st.index[doc] == Delivery.TableOf(s, source).rows[m].payload.fields
  {
    hide Delivery.Reaches, Delivery.VisibleInOrder, Reaches, About, Touches;
    forall source': string, id: nat
      ensures RowTouches(s, source', id, doc) <==>
        RowAbout(s, source', id, doc, true) || RowAbout(s, source', id, doc, false)
    {
      if id in Delivery.TableOf(s, source').rows {
        TouchesIffAbout(RowMessage(s, source', id), doc);
      }
    }
    hide Lane, Delivery.Messages;
    IndexConverges(s, relaySteps, doc, source, topic, key, st, steps, m);
    TouchesIffAbout(RowMessage(s, source, m), doc);
    SettledBy(st.index, doc, RowMessage(s, source, m));
    hide IsAsLeftBy, ActionOf;
  }

  lemma SettledBy(index: Index, doc: Doc, m: Message)
    requires IsAsLeftBy(index, doc, m) && Touches(m, doc)
    ensures doc in index <==> ActionOf(m) == Put(doc)
    ensures doc in index ==> m.payload.Object? && index[doc] == m.payload.fields
  {
    hide Route, ResolveEventType, StringField;
  }

  // ---------------------------------------------------------------------------------------------
  // Who gets in at all
  // ---------------------------------------------------------------------------------------------

  lemma OneStepPuts(stream: seq<Message>, st: State, step: Step, doc: Doc)
    requires Enabled(stream, st, step) && doc in Next(stream, st, step).index
    ensures var after := Next(stream, st, step).index;
      || (doc in st.index && after[doc] == st.index[doc])
      || (st.pos < |stream| && ActionOf(stream[st.pos]) == Put(doc) && stream[st.pos].payload == Object(after[doc]))
  {
    hide Route, ResolveEventType, StringField;
  }

  /** Whatever faults there are, a document in the index has the payload of a message that put it there. */
  lemma {:induction false} PutsAreBehindDocuments(stream: seq<Message>, st: State, steps: seq<Step>, doc: Doc)
    requires Reaches(stream, st, steps) && doc in st.index
    ensures exists k ::
      0 <= k < |stream| && ActionOf(stream[k]) == Put(doc) && stream[k].payload == Object(st.index[doc])
    decreases |steps|
  {
    if steps != [] {
      var init, last := steps[..|steps| - 1], steps[|steps| - 1];
      var before :| Reaches(stream, before, init) && Enabled(stream, before, last) && st == Next(stream, before, last);
      OneStepPuts(stream, before, last, doc);
      hide ActionOf, Enabled, Next;
      if doc in before.index && st.index[doc] == before.index[doc] {
        PutsAreBehindDocuments(stream, before, init, doc);
      }
    }
  }

  /**
   * Whatever faults there are, only published projects and searchable freelancer profiles enter the index: client
   * profiles never do.
   */
  lemma {:induction false} OnlyTheseEnter(stream: seq<Message>, st: State, steps: seq<Step>, doc: Doc)
    requires Reaches(stream, st, steps) && doc in st.index
    ensures exists k :: 0 <= k < |stream| && About(stream[k], doc, true) && stream[k].payload == Object(st.index[doc])
  {
    hide Reaches;
    PutsAreBehindDocuments(stream, st, steps, doc);
    var k :| 0 <= k < |stream| && ActionOf(stream[k]) == Put(doc) && stream[k].payload == Object(st.index[doc]);
    OnlyTwoIndexes(stream[k], doc);
    TouchesIffAbout(stream[k], doc);
    hide About, ActionOf;
  }

  lemma OnlyTwoIndexes(m: Message, doc: Doc)
    requires ActionOf(m) == Put(doc)
    ensures doc.index in {"projects", "freelancers"}
  {
    hide StringField, ResolveEventType;
  }
}
