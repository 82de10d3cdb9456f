/**
 * The state machines of the event pipeline take the steps of the services: for every way a drain or the
 * processing of a message can go when nobody interferes, the machine has a run with exactly the effect that
 * the service's own contract states.
 */
module MachineLinks {
  import opened Events
  import opened Outbox
  import RelayService
  import Delivery
  import DeliveryRuns
  import C = Consumer
  import S = SearchIndex
  import A = AnalyticsService
  import I = Ingestion
  import Rollups

  // ---------------------------------------------------------------------------------------------
  // A drain
  // ---------------------------------------------------------------------------------------------

  /** What RelayService.Relay.Drain ensures about the bus and the marks, for a batch of this source. */
  ghost predicate Drained(s: Delivery.Sys, s': Delivery.Sys, source: string, batch: seq<nat>, fate: RelayService.Fate) {
    var t := Delivery.TableOf(s, source);
    && (forall id :: id in batch ==> id in t.rows)
    && Delivery.Messages(s'.log) == Delivery.Messages(s.log)
         + RelayService.MessagesOf(source, t.rows, batch)[..RelayService.Reaching(fate, |batch|)]
    && Delivery.TableOf(s', source).rows == t.rows
    && Delivery.TableOf(s', source).published ==
         t.published + if RelayService.Marks(fate, |batch|) then Elements(batch) else {}
  }

  /** How many rows of the batch are acknowledged. */
  function Acknowledged(fate: RelayService.Fate, n: nat): (done: nat)
    ensures done <= n
  {
    match fate
    case PublishFails(at, _) => if at < n then at else n
    case MarkFails(at) => if at < n then at + 1 else n
    case _ => n
  }

  lemma OpenAlone(s: Delivery.Sys, steps: seq<Delivery.Step>, source: string, r: nat, limit: nat)
    returns (s': Delivery.Sys, steps': seq<Delivery.Step>)
    requires Delivery.Reaches(s, steps) && r < s.replicas && forall d :: d in s.drains ==> d.0 != source
    ensures var t := Delivery.TableOf(s, source);
      var batch := Lowest(t.rows.Keys - t.published, limit);
      && Delivery.Reaches(s', steps') && (forall id :: id in batch ==> id in t.rows)
      && s' == s.(drains := s.drains[(source, r) := Delivery.Drain(batch, 0)])
  {
    hide Delivery.Reaches;
    var t := Delivery.TableOf(s, source);
    assert Delivery.Locked(s, source) == {};
    assert Delivery.Candidates(s, source) == t.rows.Keys - t.published;
    LowestAscends(t.rows.Keys - t.published, limit);
    hide Lowest, Delivery.Candidates;
    s', steps' := DeliveryRuns.Take(s, steps, Delivery.OpenDrain(source, r, limit));
  }

  /** The last steps of a drain whose rows so far are acknowledged. */
  lemma EndDrain(s: Delivery.Sys, steps: seq<Delivery.Step>, source: string, r: nat, batch: seq<nat>,
                 fate: RelayService.Fate)
    returns (s': Delivery.Sys, steps': seq<Delivery.Step>)
    requires Delivery.Reaches(s, steps) && (source, r) in s.drains
    requires s.drains[(source, r)] == Delivery.Drain(batch, Acknowledged(fate, |batch|))
    requires forall id :: id in batch ==> id in Delivery.TableOf(s, source).rows
    ensures Delivery.Reaches(s', steps') && s'.drains == s.drains - {(source, r)}
    ensures Delivery.Messages(s'.log) == Delivery.Messages(s.log)
      + RelayService.MessagesOf(source, Delivery.TableOf(s, source).rows, batch)
          [Acknowledged(fate, |batch|)..RelayService.Reaching(fate, |batch|)]
    ensures Delivery.TableOf(s', source).rows == Delivery.TableOf(s, source).rows
    ensures Delivery.TableOf(s', source).published == Delivery.TableOf(s, source).published
      + if RelayService.Marks(fate, |batch|) then Elements(batch) else {}
  {
    hide Delivery.Reaches, Elements;
    var n := |batch|;
    if RelayService.Marks(fate, n) {
      s', steps' := DeliveryRuns.Take(s, steps, Delivery.Commit(source, r));
    } else if fate.PublishFails? {
      var id := batch[fate.at];
      assert id in batch;
      s', steps' := DeliveryRuns.Take(s, steps, Delivery.PublishFails(source, r));
      if fate.written {
        s', steps' := DeliveryRuns.Take(s', steps', Delivery.Straggler(source, id));
      }
    } else {
      s', steps' := DeliveryRuns.Take(s, steps, Delivery.Abort(source, r));
    }
  }

  lemma MessagesAppend(a: seq<Delivery.Entry>, b: seq<Delivery.Entry>)
    ensures Delivery.Messages(a + b) == Delivery.Messages(a) + Delivery.Messages(b)
  {
  }

  lemma EntriesCarryMessages(s: Delivery.Sys, source: string, batch: seq<nat>, n: nat)
    requires n <= |batch| && forall id :: id in batch ==> id in Delivery.TableOf(s, source).rows
    ensures Delivery.Messages(DeliveryRuns.Entries(s, source, batch[..n]))
      == RelayService.MessagesOf(source, Delivery.TableOf(s, source).rows, batch)[..n]
  {
  }

  /** The first n rows of the batch are published. */
  lemma PublishSome(s: Delivery.Sys, steps: seq<Delivery.Step>, source: string, r: nat, batch: seq<nat>, n: nat)
    returns (s': Delivery.Sys, steps': seq<Delivery.Step>)
    requires Delivery.Reaches(s, steps) && (source, r) in s.drains && n <= |batch|
    requires s.drains[(source, r)] == Delivery.Drain(batch, 0)
    requires forall id :: id in batch ==> id in Delivery.TableOf(s, source).rows
    ensures Delivery.Reaches(s', steps') && s'.tables == s.tables
    ensures s'.drains == s.drains[(source, r) := Delivery.Drain(batch, n)]
    ensures Delivery.Messages(s'.log) == Delivery.Messages(s.log)
      + RelayService.MessagesOf(source, Delivery.TableOf(s, source).rows, batch)[..n]
  {
    hide Delivery.Reaches, Delivery.Messages, DeliveryRuns.Entries, RelayService.MessagesOf;
    s', steps' := DeliveryRuns.PublishRows(s, steps, source, r, batch, n);
    MessagesAppend(s.log, DeliveryRuns.Entries(s, source, batch[..n]));
    EntriesCarryMessages(s, source, batch, n);
  }

  lemma SlicesJoin(source: string, rows: map<nat, Row>, batch: seq<nat>, fate: RelayService.Fate)
    requires forall id :: id in batch ==> id in rows
    ensures var all := RelayService.MessagesOf(source, rows, batch);
      var i, j := Acknowledged(fate, |batch|), RelayService.Reaching(fate, |batch|);
      i <= j <= |all| && all[..i] + all[i..j] == all[..j]
  {
  }

  /** What follows the opening of a drain. */
  lemma GoThrough(s: Delivery.Sys, steps: seq<Delivery.Step>, source: string, r: nat, batch: seq<nat>,
                  fate: RelayService.Fate)
    returns (s': Delivery.Sys, steps': seq<Delivery.Step>)
    requires Delivery.Reaches(s, steps) && (source, r) in s.drains
    requires s.drains[(source, r)] == Delivery.Drain(batch, 0)
    requires forall id :: id in batch ==> id in Delivery.TableOf(s, source).rows
    ensures Delivery.Reaches(s', steps') && s'.drains == s.drains - {(source, r)}
    ensures Drained(s, s', source, batch, fate)
  {
    hide Delivery.Reaches, Elements, Delivery.Messages, RelayService.MessagesOf, RelayService.Marks, Acknowledged;
    hide RelayService.Reaching;
    SlicesJoin(source, Delivery.TableOf(s, source).rows, batch, fate);
    s', steps' := PublishSome(s, steps, source, r, batch, Acknowledged(fate, |batch|));
    s', steps' := EndDrain(s', steps', source, r, batch, fate);
  }

  /** Whatever happens to a drain that has the outbox to itself, the relay machine has a run with that effect. */
  lemma DrainIsARun(s: Delivery.Sys, steps: seq<Delivery.Step>, source: string, r: nat, limit: nat,
                    fate: RelayService.Fate)
    returns (s': Delivery.Sys, steps': seq<Delivery.Step>)
    requires Delivery.Reaches(s, steps) && r < s.replicas && forall d :: d in s.drains ==> d.0 != source
    ensures var t := Delivery.TableOf(s, source);
      && Delivery.Reaches(s', steps') && s'.drains == s.drains
      && Drained(s, s', source, Lowest(t.rows.Keys - t.published, limit), fate)
  {
    hide Delivery.Reaches, Lowest, Elements, Delivery.Messages, RelayService.MessagesOf, RelayService.Marks;
    var t := Delivery.TableOf(s, source);
    s', steps' := OpenAlone(s, steps, source, r, limit);
    s', steps' := GoThrough(s', steps', source, r, Lowest(t.rows.Keys - t.published, limit), fate);
  }

  // ---------------------------------------------------------------------------------------------
  // Processing a message for the index
  // ---------------------------------------------------------------------------------------------

  /** The rows of the processed-events table that a group's ids stand for. */
  function Ids(group: string, ids: set<string>): set<(string, string)> { set id | id in ids :: (group, id) }

  lemma IdsAdd(group: string, ids: set<string>, id: string)
    ensures Ids(group, ids + {id}) == Ids(group, ids) + {(group, id)}
    ensures (group, id) in Ids(group, ids) <==> id in ids
  {
  }

  /** The consumers of this platform remember ids and have no dead-letter queue. */
  function Settings(group: string): C.Config { C.Config(group, true, false, 3) }

  lemma TakeS(stream: seq<Message>, st: S.State, steps: seq<S.Step>, step: S.Step)
    returns (st': S.State, steps': seq<S.Step>)
    requires S.Reaches(stream, st, steps) && S.Enabled(stream, st, step)
    ensures st' == S.Next(stream, st, step) && S.Reaches(stream, st', steps')
  {
    steps' := steps + [step];
    st' := S.Next(stream, st, step);
    assert steps'[..|steps'| - 1] == steps;
    assert S.Reaches(stream, st, steps'[..|steps'| - 1]) && S.Enabled(stream, st, steps'[|steps'| - 1]);
  }

  /** The attempts from number k on, of which those that fail do not reach the engine. */
  lemma {:induction false} AttemptsS(stream: seq<Message>, st: S.State, steps: seq<S.Step>, w: C.World, k: nat)
    returns (st': S.State, steps': seq<S.Step>)
    requires S.Reaches(stream, st, steps) && st.pos < |stream| && st.pc == S.Handling(k) && 1 <= k <= 3
    ensures S.Reaches(stream, st', steps')
    ensures st' == match C.Tries(w, k, 3)
      case Succeeded(_) => st.(pc := S.HandledIt, index := S.Apply(st.index, stream[st.pos]))
      case Cancelled(_) => st.(pc := S.Fetching, pos := st.offset)
      case Exhausted => st.(pc := S.Fetching, pos := st.pos + 1, high := S.Max(st.high, st.pos + 1))
    decreases 3 - k
  {
    hide S.Reaches, S.Apply;
    if w.handlerOk(k) {
      st', steps' := TakeS(stream, st, steps, S.HandlerOk);
    } else if k < 3 && w.cancelled(k) {
      st', steps' := TakeS(stream, st, steps, S.Crash);
    } else if k < 3 {
      st', steps' := TakeS(stream, st, steps, S.HandlerFails(false));
      st', steps' := AttemptsS(stream, st', steps', w, k + 1);
    } else {
      st', steps' := TakeS(stream, st, steps, S.GiveUp(false));
    }
  }

  /** What the contract of Consumer.Process says about the message at hand, and what it means for the index. */
  ghost predicate Indexed(group: string, m: Message, w: C.World, st: S.State, st': S.State) {
    var cfg, before := Settings(group), Ids(group, st.processed);
    var (commit, after) := C.Processed(cfg, before, m, w);
    var skips := C.Skips(cfg, before, m, w);
    && st'.pc.Fetching? && Ids(group, st'.processed) == after
    && st'.index == (if !skips && C.Handles(cfg, w) then S.Apply(st.index, m) else st.index)
    && st'.offset == (if commit then st.pos + 1 else st.offset)
    && st'.pos == (if !skips && C.Tries(w, 1, 3).Cancelled? then st.offset else st.pos + 1)
  }

  /** However check, handler, shutdown and mark behave, the index machine has a run with the effect of Process. */
  lemma IndexingIsARun(stream: seq<Message>, st: S.State, steps: seq<S.Step>, group: string, w: C.World)
    returns (st': S.State, steps': seq<S.Step>)
    requires S.Reaches(stream, st, steps) && st.pc.Fetching? && st.pos < |stream| && stream[st.pos].eventId != ""
    ensures S.Reaches(stream, st', steps') && Indexed(group, stream[st.pos], w, st, st')
  {
    hide S.Reaches, S.Apply, C.Tries;
    var id := stream[st.pos].eventId;
    IdsAdd(group, st.processed, id);
    if !w.checkFails && id in st.processed {
      st', steps' := TakeS(stream, st, steps, S.CheckSkips);
      st', steps' := TakeS(stream, st', steps', S.CommitOffset);
    } else {
      st', steps' := TakeS(stream, st, steps, if w.checkFails then S.CheckErrs else S.CheckPasses);
      st', steps' := AttemptsS(stream, st', steps', w, 1);
      if st'.pc.HandledIt? {
        st', steps' := TakeS(stream, st', steps', if w.markFails then S.MarkFails else S.MarkOk);
        st', steps' := TakeS(stream, st', steps', S.CommitOffset);
      }
    }
  }

  // ---------------------------------------------------------------------------------------------
  // Processing a message for the rollups
  // ---------------------------------------------------------------------------------------------

  lemma TakeI(log: seq<Message>, g: I.Group, steps: seq<I.Step>, step: I.Step)
    returns (g': I.Group, steps': seq<I.Step>)
    requires I.Reaches(log, g, steps) && I.Enabled(log, g, step)
    ensures g' == I.Next(log, g, step) && I.Reaches(log, g', steps')
  {
    steps' := steps + [step];
    g' := I.Next(log, g, step);
    assert steps'[..|steps'| - 1] == steps;
    assert I.Reaches(log, g, steps'[..|steps'| - 1]) && I.Enabled(log, g, steps'[|steps'| - 1]);
  }

  function TablesOf(g: I.Group, group: string): A.Tables { A.Tables(g.rollups, Ids(group, g.processed)) }

  /** What AnalyticsService.Store.IngestEvent makes of a message consumed at this time, if it decodes. */
  function AfterHandler(t: A.Tables, group: string, m: Message, now: int): A.Tables {
    if m.payload.Poison? then t else A.Ingested(t, group, I.CountedOf(m, Rollups.DayOf(now)))
  }

  lemma ClaimsStay(t: A.Tables, group: string, m: Message, now: int)
    ensures t.processed <= AfterHandler(t, group, m, now).processed
  {
  }

  /** One attempt that succeeds: claim, count and commit, or nothing to do. */
  lemma SucceedI(log: seq<Message>, g: I.Group, steps: seq<I.Step>, group: string, v: nat, at: nat, k: nat, now: int)
    returns (g': I.Group, steps': seq<I.Step>)
    requires I.Reaches(log, g, steps) && g.workers == map[v := I.Worker(at, k, I.Trying)]
    requires at < |log| && log[at].eventId != ""
    ensures I.Reaches(log, g', steps') && g'.workers == map[v := I.Worker(at, k, I.Handled)] && g'.acked == g.acked
    ensures TablesOf(g', group) == AfterHandler(TablesOf(g, group), group, log[at], now)
  {
    hide I.Reaches, Rollups.Add;
    IdsAdd(group, g.processed, log[at].eventId);
    g', steps' := TakeI(log, g, steps, I.Claim(v, now));
    if g'.workers[v].pc.Claimed? {
      g', steps' := TakeI(log, g', steps', I.CommitIngest(v, false));
    }
  }

  lemma {:induction false} AttemptsI(log: seq<Message>, g: I.Group, steps: seq<I.Step>, group: string, v: nat, at: nat,
                                     w: C.World, k: nat, now: int) returns (g': I.Group, steps': seq<I.Step>)
    requires I.Reaches(log, g, steps) && g.workers == map[v := I.Worker(at, k, I.Trying)]
    requires at < |log| && log[at].eventId != "" && 1 <= k <= 3
    ensures I.Reaches(log, g', steps') && g'.acked == g.acked
    ensures C.Tries(w, k, 3).Succeeded? ==>
      && g'.workers.Keys == {v} && g'.workers[v].pc == I.Handled && g'.workers[v].at == at
      && TablesOf(g', group) == AfterHandler(TablesOf(g, group), group, log[at], now)
    ensures !C.Tries(w, k, 3).Succeeded? ==> g'.workers == map[] && TablesOf(g', group) == TablesOf(g, group)
    decreases 3 - k
  {
    hide I.Reaches, AfterHandler, Ids;
    if w.handlerOk(k) {
      g', steps' := SucceedI(log, g, steps, group, v, at, k, now);
    } else if k < 3 && w.cancelled(k) {
      g', steps' := TakeI(log, g, steps, I.Crash(v));
    } else {
      g', steps' := TakeI(log, g, steps, I.Fail(v));
      if k < 3 {
        assert g'.workers == map[v := I.Worker(at, k + 1, I.Trying)];
        g', steps' := AttemptsI(log, g', steps', group, v, at, w, k + 1, now);
      }
    }
  }

  /**
   * What the contracts of Consumer.Process and IngestEvent say about message number at: the ids that the handler
   * has claimed and that the consumer has marked are in one table.
   */
  ghost predicate Counted(group: string, m: Message, at: nat, w: C.World, now: int, g: I.Group, g': I.Group) {
    var cfg, before := Settings(group), TablesOf(g, group);
    var (commit, marked) := C.Processed(cfg, before.processed, m, w);
    var handled := if !C.Skips(cfg, before.processed, m, w) && C.Handles(cfg, w)
      then AfterHandler(before, group, m, now) else before;
    && g'.rollups == handled.rollups && Ids(group, g'.processed) == handled.processed + marked
    && g'.acked == (if commit then g.acked + {at} else g.acked) && g'.workers == map[]
  }

  /** However check, handler, shutdown and mark behave, a worker of the group machine has a run with that effect. */
  lemma CountingIsARun(log: seq<Message>, g: I.Group, steps: seq<I.Step>, group: string, v: nat, at: nat, w: C.World,
                       now: int)
    returns (g': I.Group, steps': seq<I.Step>)
    requires I.Reaches(log, g, steps) && g.workers == map[] && at < |log| && log[at].eventId != ""
    ensures I.Reaches(log, g', steps') && Counted(group, log[at], at, w, now, g, g')
  {
    hide I.Reaches, C.Tries, AfterHandler;
    var id := log[at].eventId;
    IdsAdd(group, g.processed, id);
    ClaimsStay(TablesOf(g, group), group, log[at], now);
    g', steps' := TakeI(log, g, steps, I.Fetch(v, at));
    if !w.checkFails && id in g.processed {
      g', steps' := TakeI(log, g', steps', I.Skip(v));
    } else {
      g', steps' := TakeI(log, g', steps', I.Enter(v));
      g', steps' := AttemptsI(log, g', steps', group, v, at, w, 1, now);
      if C.Tries(w, 1, 3).Succeeded? {
        IdsAdd(group, g'.processed, id);
        g', steps' := TakeI(log, g', steps', I.Mark(v, !w.markFails));
      }
    }
  }
}
