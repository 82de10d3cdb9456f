/**
 * The analytics group reading the bus: any number of workers, each message delivered to any of them
 * any number of times, checks and marks that may fail, transactions that may roll back or commit
 * with the reply lost, crashes anywhere. The log is the bus as it is at the end; a worker that reads
 * while messages are still being appended only ever sees a part of it.
 */
module Ingestion {
  import opened Events
  import opened Outbox
  import opened Rollups
  import Delivery

  /** The type a payload without a type header is taken for. */
  function ResolveEventType(topic: string, fields: map<string, Json>): string {
    if StringField(fields, ["type"]) != "" then StringField(fields, ["type"])
    else if StringField(fields, ["event_type"]) != "" then StringField(fields, ["event_type"])
    else match topic
      case "payment.events" => "payment.captured"
      case "proposal.events" => "proposal.submitted"
      case "contract.events" =>
        if "dispute_id" in fields then "contract.disputed"
        else if "milestone_id" in fields then "milestone.approved"
        else "contract.activated"
      case "worksession.events" => "worksession.closed"
      case "screenshot.ingested" => "screenshot.ingested"
      case "review.events" => "review.published"
      case "user.events" => if "kyc_status" in fields then "user.kyc_updated" else "profile.updated"
      case "fraud.events" => if "resolution" in fields then "fraud.case_resolved" else "fraud.case_opened"
      case "project.events" => if "closed_at" in fields then "project.closed" else "project.published"
      case _ => topic
  }

  /** What the handler makes of a message it consumes on the given day. */
  function CountedOf(m: Message, day: int): Counted
    requires m.payload.Object?
  {
    var f := m.payload.fields;
    Counted(m.eventId, day, if m.eventType != "" then m.eventType else ResolveEventType(m.topic, f),
            CentsField(f, ["amount_cents", "bid_amount_cents"]),
            if StringField(f, ["currency"]) != "" then StringField(f, ["currency"]) else "USD")
  }

  datatype Pc = Checking | Trying | Claimed(day: int) | Handled

  /** A worker busy with message number at of the log. */
  datatype Worker = Worker(at: nat, attempt: nat, pc: Pc)

  /** counted and acked are history: the events counted so far, and the messages process returned true for. */
  datatype Group = Group(
    rollups: Rollups, processed: set<string>, workers: map<nat, Worker>, counted: seq<Counted>, acked: set<nat>)

  datatype Step =
    | Fetch(w: nat, at: nat)
    | Skip(w: nat)
    | Enter(w: nat)
    | Claim(w: nat, now: int)
    | CommitIngest(w: nat, replyLost: bool)
    | Fail(w: nat)
    | Mark(w: nat, ok: bool)
    | Crash(w: nat)

  const IDLE := Group(NO_ROLLUPS, {}, map[], [], {})
  const MAX_RETRIES := 3

  predicate At(log: seq<Message>, g: Group, w: nat, pc: Pc) {
    w in g.workers && g.workers[w].pc == pc && g.workers[w].at < |log|
  }

  /** The claim inserts the id's row: it waits while another open transaction has inserted it. */
  ghost predicate ClaimFree(log: seq<Message>, g: Group, w: nat, eventId: string) {
    forall v :: v in g.workers && v != w && g.workers[v].pc.Claimed? && g.workers[v].at < |log| ==>
      log[g.workers[v].at].eventId != eventId
  }

  ghost predicate Enabled(log: seq<Message>, g: Group, step: Step) {
    match step
    case Fetch(w, at) => w !in g.workers && at < |log|
    case Skip(w) => At(log, g, w, Checking) && log[g.workers[w].at].eventId in g.processed
    case Enter(w) => At(log, g, w, Checking)
    case Claim(w, now) => At(log, g, w, Trying) && ClaimFree(log, g, w, log[g.workers[w].at].eventId)
    case CommitIngest(w, _) =>
      w in g.workers && g.workers[w].pc.Claimed? && g.workers[w].at < |log| && log[g.workers[w].at].payload.Object?
    case Fail(w) => w in g.workers && (g.workers[w].pc.Trying? || g.workers[w].pc.Claimed?)
    case Mark(w, _) => At(log, g, w, Handled)
    case Crash(w) => w in g.workers
  }

  /** An attempt failed: the next one, or process gives up and returns false. */
  function Retry(g: Group, w: nat): map<nat, Worker>
    requires w in g.workers
  {
    var t := g.workers[w];
    if t.attempt < MAX_RETRIES then g.workers[w := t.(attempt := t.attempt + 1, pc := Trying)] else g.workers - {w}
  }

  function Next(log: seq<Message>, g: Group, step: Step): Group
    requires Enabled(log, g, step)
  {
    match step
    case Fetch(w, at) => g.(workers := g.workers[w := Worker(at, 1, Checking)])
    case Skip(w) => g.(workers := g.workers - {w}, acked := g.acked + {g.workers[w].at})
    // Not processed as far as the check can tell: it says so, or it fails.
    case Enter(w) => g.(workers := g.workers[w := g.workers[w].(pc := Trying)])
    case Claim(w, now) =>
      var m := log[g.workers[w].at];
      // A poison payload is handled without touching the database; a claimed event was counted before.
      var pc := if m.payload.Poison? || m.eventId in g.processed then Handled else Claimed(DayOf(now));
      g.(workers := g.workers[w := g.workers[w].(pc := pc)])
    case CommitIngest(w, replyLost) =>
      var c := CountedOf(log[g.workers[w].at], g.workers[w].pc.day);
      g.(rollups := Add(g.rollups, c), processed := g.processed + {c.eventId}, counted := g.counted + [c],
         workers := if replyLost then Retry(g, w) else g.workers[w := g.workers[w].(pc := Handled)])
    case Fail(w) => g.(workers := Retry(g, w))
    case Mark(w, ok) =>
      var at := g.workers[w].at;
      g.(workers := g.workers - {w}, acked := g.acked + {at},
         processed := if ok then g.processed + {log[at].eventId} else g.processed)
    case Crash(w) => g.(workers := g.workers - {w})
  }

  // ---------------------------------------------------------------------------------------------
  // The invariant
  // ---------------------------------------------------------------------------------------------

  /** What the relays guarantee about the bus: an id stands for one row. */
  ghost predicate OneMessagePerId(log: seq<Message>) {
    forall k, l :: 0 <= k < |log| && 0 <= l < |log| && log[k].eventId == log[l].eventId ==> log[k] == log[l]
  }

  function Ids(counted: seq<Counted>): set<string> { set i | 0 <= i < |counted| :: counted[i].eventId }

  function PoisonIds(log: seq<Message>): set<string> {
    set k | 0 <= k < |log| && log[k].payload.Poison? :: log[k].eventId
  }

  /** Message k needs no more counting: it cannot be decoded, or its event is counted. */
  predicate Settled(log: seq<Message>, counted: seq<Counted>, k: nat) {
    k < |log| && (log[k].payload.Poison? || log[k].eventId in Ids(counted))
  }

  ghost predicate WorkerOk(log: seq<Message>, g: Group, w: nat)
    requires w in g.workers
  {
    var t := g.workers[w];
    && t.at < |log|
    && (t.pc.Claimed? ==>
          && log[t.at].payload.Object? && log[t.at].eventId !in g.processed
          && ClaimFree(log, g, w, log[t.at].eventId))
    && (t.pc.Handled? ==> Settled(log, g.counted, t.at))
  }

  ghost predicate CountedOk(log: seq<Message>, counted: seq<Counted>) {
    && (forall i, j :: 0 <= i < j < |counted| ==> counted[i].eventId != counted[j].eventId)
    && (forall i :: 0 <= i < |counted| ==>
          exists k :: 0 <= k < |log| && log[k].payload.Object? && counted[i] == CountedOf(log[k], counted[i].day))
  }

  ghost predicate Inv(log: seq<Message>, g: Group) {
    && g.rollups == Fold(g.counted)
    && CountedOk(log, g.counted)
    && Ids(g.counted) <= g.processed <= Ids(g.counted) + PoisonIds(log)
    && (forall w :: w in g.workers ==> WorkerOk(log, g, w))
    && (forall k :: k in g.acked ==> Settled(log, g.counted, k))
  }

  lemma IdsSnoc(counted: seq<Counted>, c: Counted)
    ensures Ids(counted + [c]) == Ids(counted) + {c.eventId}
  {
    var all := counted + [c];
    assert all[|counted|] == c;
    assert forall i :: 0 <= i < |counted| ==> all[i] == counted[i];
    forall id | id in Ids(counted) ensures id in Ids(all) {
      var i :| 0 <= i < |counted| && counted[i].eventId == id;
      assert all[i].eventId == id;
    }
  }

  /** A decodable message whose id is remembered is counted. */
  lemma RememberedIsCounted(log: seq<Message>, g: Group, k: nat)
    requires Inv(log, g) && OneMessagePerId(log) && k < |log| && log[k].eventId in g.processed
    ensures Settled(log, g.counted, k)
  {
    if log[k].eventId in PoisonIds(log) {
      var l :| 0 <= l < |log| && log[l].payload.Poison? && log[l].eventId == log[k].eventId;
      assert log[l] == log[k];
    }
  }

  /** A worker moves to a state where it holds no claim, or gives up; the tables stay as they are. */
  lemma MoveKeepsInv(log: seq<Message>, g: Group, w: nat, g': Group)
    requires Inv(log, g)
    requires g'.rollups == g.rollups && g'.counted == g.counted && g'.processed == g.processed
    requires g'.workers == g.workers - {w} || exists t: Worker ::
      && g'.workers == g.workers[w := t] && t.at < |log| && !t.pc.Claimed?
      && (t.pc.Handled? ==> Settled(log, g.counted, t.at))
    requires forall k :: k in g'.acked ==> Settled(log, g.counted, k)
    ensures Inv(log, g')
  {
    forall v | v in g'.workers ensures WorkerOk(log, g', v) {
      if v != w {
        assert WorkerOk(log, g, v);
      }
    }
    hide CountedOk, Settled, Fold, Ids, PoisonIds;
  }

  lemma ClaimKeepsInv(log: seq<Message>, g: Group, w: nat, now: int)
    requires Inv(log, g) && OneMessagePerId(log) && Enabled(log, g, Claim(w, now))
    ensures Inv(log, Next(log, g, Claim(w, now)))
  {
    var g', t := Next(log, g, Claim(w, now)), g.workers[w];
    if log[t.at].eventId in g.processed {
      RememberedIsCounted(log, g, t.at);
    }
    if g'.workers[w].pc.Claimed? {
      forall v | v in g'.workers ensures WorkerOk(log, g', v) {
        if v != w {
          assert WorkerOk(log, g, v);
        }
      }
      hide CountedOk, Settled, Fold, Ids, PoisonIds;
    } else {
      MoveKeepsInv(log, g, w, g');
    }
  }

  lemma CommitKeepsCountedOk(log: seq<Message>, g: Group, w: nat, replyLost: bool)
    requires Inv(log, g) && Enabled(log, g, CommitIngest(w, replyLost))
    ensures CountedOk(log, Next(log, g, CommitIngest(w, replyLost)).counted)
    ensures Next(log, g, CommitIngest(w, replyLost)).rollups == Fold(Next(log, g, CommitIngest(w, replyLost)).counted)
  {
    var c := CountedOf(log[g.workers[w].at], g.workers[w].pc.day);
    assert WorkerOk(log, g, w);
    assert c.eventId !in Ids(g.counted);
    assert (g.counted + [c])[..|g.counted|] == g.counted;
    hide Add, CountedOf, StringField, CentsField, ResolveEventType, PoisonIds, ClaimFree, Retry, WorkerOk, Settled;
  }

  /** A worker that is left alone, while nobody else starts a claim. */
  lemma WorkerStays(log: seq<Message>, g: Group, g': Group, v: nat)
    requires v in g.workers && v in g'.workers && g'.workers[v] == g.workers[v] && WorkerOk(log, g, v)
    requires Ids(g.counted) <= Ids(g'.counted)
    requires g.workers[v].pc.Claimed? ==> log[g.workers[v].at].eventId !in g'.processed
    requires forall u :: u in g'.workers && u != v && g'.workers[u].pc.Claimed? ==>
      u in g.workers && g'.workers[u] == g.workers[u]
    ensures WorkerOk(log, g', v)
  {
    hide Ids;
  }

  lemma CommitKeepsWorker(log: seq<Message>, g: Group, w: nat, replyLost: bool, v: nat)
    requires Inv(log, g) && Enabled(log, g, CommitIngest(w, replyLost))
    requires v in Next(log, g, CommitIngest(w, replyLost)).workers
    ensures WorkerOk(log, Next(log, g, CommitIngest(w, replyLost)), v)
  {
    assert WorkerOk(log, g, w) && v in g.workers && WorkerOk(log, g, v);
    IdsSnoc(g.counted, CountedOf(log[g.workers[w].at], g.workers[w].pc.day));
    hide CountedOk, Ids, PoisonIds, Fold, Add, Inv, StringField, CentsField, ResolveEventType;
    if v != w {
      assert g.workers[v].pc.Claimed? ==> log[g.workers[v].at].eventId != log[g.workers[w].at].eventId;
      hide WorkerOk, ClaimFree;
      WorkerStays(log, g, Next(log, g, CommitIngest(w, replyLost)), v);
    }
  }

  lemma CommitKeepsInv(log: seq<Message>, g: Group, w: nat, replyLost: bool)
    requires Inv(log, g) && Enabled(log, g, CommitIngest(w, replyLost))
    ensures Inv(log, Next(log, g, CommitIngest(w, replyLost)))
  {
    hide CountedOk, Ids, PoisonIds, Fold, Add, WorkerOk, Retry;
    var g' := Next(log, g, CommitIngest(w, replyLost));
    CommitKeepsCountedOk(log, g, w, replyLost);
    IdsSnoc(g.counted, CountedOf(log[g.workers[w].at], g.workers[w].pc.day));
    forall v | v in g'.workers ensures WorkerOk(log, g', v) {
      CommitKeepsWorker(log, g, w, replyLost, v);
    }
  }

  lemma MarkKeepsWorker(log: seq<Message>, g: Group, w: nat, ok: bool, v: nat)
    requires Inv(log, g) && OneMessagePerId(log) && Enabled(log, g, Mark(w, ok))
    requires v in g.workers && v != w
    ensures WorkerOk(log, Next(log, g, Mark(w, ok)), v)
  {
    assert WorkerOk(log, g, w) && WorkerOk(log, g, v);
    hide CountedOk, Fold, Ids, PoisonIds;
  }

  lemma MarkKeepsInv(log: seq<Message>, g: Group, w: nat, ok: bool)
    requires Inv(log, g) && OneMessagePerId(log) && Enabled(log, g, Mark(w, ok))
    ensures Inv(log, Next(log, g, Mark(w, ok)))
  {
    var g', t := Next(log, g, Mark(w, ok)), g.workers[w];
    assert WorkerOk(log, g, w);
    forall v | v in g'.workers ensures WorkerOk(log, g', v) {
      MarkKeepsWorker(log, g, w, ok, v);
    }
    if log[t.at].payload.Poison? {
      assert log[t.at].eventId in PoisonIds(log);
    }
    hide CountedOk, Fold, WorkerOk, Ids, PoisonIds;
  }

  lemma StepKeepsInv(log: seq<Message>, g: Group, step: Step)
    requires Inv(log, g) && OneMessagePerId(log) && Enabled(log, g, step)
    ensures Inv(log, Next(log, g, step))
  {
    hide CountedOk, Settled, Fold, Ids, PoisonIds, Add, CountedOf;
    match step
    case Claim(w, now) => ClaimKeepsInv(log, g, w, now);
    case CommitIngest(w, replyLost) => CommitKeepsInv(log, g, w, replyLost);
    case Skip(w) =>
      RememberedIsCounted(log, g, g.workers[w].at);
      MoveKeepsInv(log, g, w, Next(log, g, step));
    case Mark(w, ok) =>
      assert WorkerOk(log, g, w);
      MarkKeepsInv(log, g, w, ok);
    case Fetch(w, at) => MoveKeepsInv(log, g, w, Next(log, g, step));
    case _ =>
      assert WorkerOk(log, g, step.w);
      MoveKeepsInv(log, g, step.w, Next(log, g, step));
  }

  // ---------------------------------------------------------------------------------------------
  // Runs
  // ---------------------------------------------------------------------------------------------

  /** g is reached by the group reading this log. */
  ghost predicate Reaches(log: seq<Message>, g: Group, steps: seq<Step>)
    decreases |steps|
  {
    if steps == [] then g == IDLE
    else
      var last := steps[|steps| - 1];
      exists before ::
        Reaches(log, before, steps[..|steps| - 1]) && Enabled(log, before, last) && g == Next(log, before, last)
  }

  lemma {:induction false} ReachableKeepsInv(log: seq<Message>, g: Group, steps: seq<Step>)
    requires Reaches(log, g, steps) && OneMessagePerId(log)
    ensures Inv(log, g)
    decreases |steps|
  {
    if steps != [] {
      var init, last := steps[..|steps| - 1], steps[|steps| - 1];
      var before :| Reaches(log, before, init) && Enabled(log, before, last) && g == Next(log, before, last);
      ReachableKeepsInv(log, before, init);
      hide *;
      StepKeepsInv(log, before, last);
    }
  }

  lemma BusHasOneMessagePerId(s: Delivery.Sys, relaySteps: seq<Delivery.Step>)
    requires Delivery.Reaches(s, relaySteps)
    ensures OneMessagePerId(Delivery.Messages(s.log))
  {
    var log := Delivery.Messages(s.log);
    forall k, l | 0 <= k < |log| && 0 <= l < |log| && log[k].eventId == log[l].eventId
      ensures log[k] == log[l]
    {
      Delivery.EveryMessageIsARow(s, relaySteps, k);
    }
  }

  /** The event counted is a decodable outbox row, counted with that row's content. */
  ghost predicate CountsRow(s: Delivery.Sys, c: Counted, source: string, id: nat) {
    && id in Delivery.TableOf(s, source).rows
    && Delivery.TableOf(s, source).rows[id].payload.Object?
    && c == CountedOf(MessageOf(source, id, Delivery.TableOf(s, source).rows[id]), c.day)
  }

  /**
   * Counted once, end to end. Whatever the relays and the workers went through, the rollups are the
   * fold over the counted events; no two counted events have the same id; each is a committed row of
   * some outbox, with that row's content; and each decodable message that process returned true for
   * is among them.
   */
  lemma {:induction false} CountedOnce(s: Delivery.Sys, relaySteps: seq<Delivery.Step>, g: Group, steps: seq<Step>)
    requires Delivery.Reaches(s, relaySteps) && Reaches(Delivery.Messages(s.log), g, steps)
    ensures g.rollups == Fold(g.counted)
    ensures forall i, j :: 0 <= i < j < |g.counted| ==> g.counted[i].eventId != g.counted[j].eventId
    ensures forall c :: c in g.counted ==> exists source, id :: CountsRow(s, c, source, id)
    ensures forall k :: k in g.acked && k < |s.log| && s.log[k].message.payload.Object? ==>
      s.log[k].message.eventId in Ids(g.counted)
  {
    BusHasOneMessagePerId(s, relaySteps);
    ReachableKeepsInv(Delivery.Messages(s.log), g, steps);
    hide *;
    WhatInvSays(Delivery.Messages(s.log), g);
    forall c | c in g.counted ensures exists source, id :: CountsRow(s, c, source, id) {
      RowBehindCount(s, relaySteps, g, c);
    }
    AcknowledgedIsCounted(s.log, g);
  }

  lemma WhatInvSays(log: seq<Message>, g: Group)
    requires Inv(log, g)
    ensures g.rollups == Fold(g.counted) && CountedOk(log, g.counted)
    ensures forall i, j :: 0 <= i < j < |g.counted| ==> g.counted[i].eventId != g.counted[j].eventId
    ensures forall k :: k in g.acked ==> Settled(log, g.counted, k)
  {
    hide Fold, Settled, Ids, PoisonIds, WorkerOk;
  }

  lemma RowBehindCount(s: Delivery.Sys, relaySteps: seq<Delivery.Step>, g: Group, c: Counted)
    requires Delivery.Reaches(s, relaySteps) && CountedOk(Delivery.Messages(s.log), g.counted) && c in g.counted
    ensures exists source, id :: CountsRow(s, c, source, id)
  {
    hide CountedOf;
    var log := Delivery.Messages(s.log);
    var k :| 0 <= k < |log| && log[k].payload.Object? && c == CountedOf(log[k], c.day);
    Delivery.EveryMessageIsARow(s, relaySteps, k);
    hide Delivery.Reaches;
    assert CountsRow(s, c, s.log[k].source, s.log[k].id);
  }

  lemma AcknowledgedIsCounted(log: seq<Delivery.Entry>, g: Group)
    requires forall k :: k in g.acked ==> Settled(Delivery.Messages(log), g.counted, k)
    ensures forall k :: k in g.acked && k < |log| && log[k].message.payload.Object? ==>
      log[k].message.eventId in Ids(g.counted)
  {
    hide Ids;
  }

  /**
   * When every outbox is drained and process has returned true for every message, exactly the
   * decodable rows of all outboxes are counted.
   */
  lemma {:induction false} EverythingIsCounted(s: Delivery.Sys, relaySteps: seq<Delivery.Step>, g: Group,
                                               steps: seq<Step>,
                            source: string, id: nat)
    requires Delivery.Reaches(s, relaySteps) && Reaches(Delivery.Messages(s.log), g, steps)
    requires id in Delivery.TableOf(s, source).rows
    requires id in Delivery.TableOf(s, source).published
    requires forall k :: 0 <= k < |s.log| ==> k in g.acked
    ensures EventId(source, id) in Ids(g.counted) <==> Delivery.TableOf(s, source).rows[id].payload.Object?
  {
    CountedOnce(s, relaySteps, g, steps);
    if EventId(source, id) in Ids(g.counted) {
      hide *;
      OnlyDecodableRowsAreCounted(s, g.counted, source, id);
    } else {
      Delivery.MarkedRowsAreOnTheBus(s, relaySteps, source, id);
      hide *;
      hide Ids;
      var k :| 0 <= k < |s.log| && s.log[k] == Delivery.EntryOf(s, source, id);
      assert k in g.acked;
      EntryCarriesRow(s, source, id);
    }
  }

  lemma EntryCarriesRow(s: Delivery.Sys, source: string, id: nat)
    requires id in Delivery.TableOf(s, source).rows
    ensures Delivery.EntryOf(s, source, id).message.eventId == EventId(source, id)
    ensures Delivery.EntryOf(s, source, id).message.payload == Delivery.TableOf(s, source).rows[id].payload
  {
  }

  lemma OnlyDecodableRowsAreCounted(s: Delivery.Sys, counted: seq<Counted>, source: string, id: nat)
    requires EventId(source, id) in Ids(counted) && id in Delivery.TableOf(s, source).rows
    requires forall c :: c in counted ==> exists source', id' :: CountsRow(s, c, source', id')
    ensures Delivery.TableOf(s, source).rows[id].payload.Object?
  {
    var i :| 0 <= i < |counted| && counted[i].eventId == EventId(source, id);
    assert counted[i] in counted;
    var source', id' :| CountsRow(s, counted[i], source', id');
    EventIdsNeverCollide(source, id, source', id');
  }

  // ---------------------------------------------------------------------------------------------
  // What an event is counted as
  // ---------------------------------------------------------------------------------------------

  /** A payload without a type of its own is taken for what its topic usually carries. */
  lemma TypesAreInferred(topic: string, fields: map<string, Json>)
    ensures var said, t := StringField(fields, ["type", "event_type"]), ResolveEventType(topic, fields);
      if said != "" then t == said
      else
        && (t == "payment.captured" <==> topic in {"payment.events", "payment.captured"})
        && (t == "proposal.submitted" <==> topic in {"proposal.events", "proposal.submitted"})
        && (t == "contract.activated" <==>
              topic == "contract.activated"
              || (topic == "contract.events" && "dispute_id" !in fields && "milestone_id" !in fields))
        && (t == "project.published" <==>
              topic == "project.published" || (topic == "project.events" && "closed_at" !in fields))
        && (topic == "contract.events" && "dispute_id" in fields ==> t == "contract.disputed")
        && (topic == "contract.events" && "dispute_id" !in fields && "milestone_id" in fields ==>
              t == "milestone.approved")
  {
    FewKeys(fields, "type", "event_type");
    FewKeys(fields, "event_type", "");
    hide StringField;
  }

  lemma OtherTypesAreInferred(topic: string, fields: map<string, Json>)
    requires StringField(fields, ["type"]) == "" && StringField(fields, ["event_type"]) == ""
    ensures var t := ResolveEventType(topic, fields);
      && (topic == "worksession.events" ==> t == "worksession.closed")
      && (topic == "review.events" ==> t == "review.published")
      && (topic == "user.events" ==> t == if "kyc_status" in fields then "user.kyc_updated" else "profile.updated")
      && (topic == "fraud.events" ==>
            t == if "resolution" in fields then "fraud.case_resolved" else "fraud.case_opened")
      && (topic == "project.events" && "closed_at" in fields ==> t == "project.closed")
  {
    hide StringField;
  }

  /** An event is counted with its amount in cents, or its bid's, and its currency, or dollars. */
  lemma EventsAreReadAs(m: Message, day: int)
    requires m.payload.Object?
    ensures var c, f := CountedOf(m, day), m.payload.fields;
      && c.eventId == m.eventId && c.day == day
      && c.eventType == (if m.eventType != "" then m.eventType else ResolveEventType(m.topic, f))
      && (HasNumber(f, "amount_cents") ==> WholePart(f["amount_cents"].value, c.amount))
      && (!HasNumber(f, "amount_cents") && HasNumber(f, "bid_amount_cents") ==>
            WholePart(f["bid_amount_cents"].value, c.amount))
      && (!HasNumber(f, "amount_cents") && !HasNumber(f, "bid_amount_cents") ==> c.amount == 0)
      && c.currency == if HasText(f, "currency") then f["currency"].text else "USD"
  {
    FewKeys(m.payload.fields, "amount_cents", "bid_amount_cents");
    FewKeys(m.payload.fields, "currency", "");
    hide ResolveEventType, StringField, CentsField;
  }
}
