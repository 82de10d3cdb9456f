/**
 * Confirm against webhook, and creation against creation, at the granularity of statements. Inserts
 * lock the keys they insert (payments: idempotency key and intent; stripe_events: the event id) and
 * the guarded update locks the payment's row; a statement that needs a lock somebody else holds
 * waits. The webhook reads the payment by its intent without a lock, so a confirm can commit between
 * that read and the webhook's update, which then finds no row and rolls the webhook back.
 */
module PaymentConcurrency {
  import opened Basics
  import opened Serial
  import opened PaymentModel

  datatype Pc = Begun | KeyChecked | Inserted | EventInserted | Found | Marked | Posted | Stamped

  /** pick is the payment a webhook found or a call marked. */
  datatype Txn = Txn(op: Op, pc: Pc, pick: nat, marked: bool)

  /** done lists the calls that took effect or were answered, in that order; lost counts lost races. */
  datatype Sys = Sys(db: Db, txns: map<nat, Txn>, done: seq<Finished<Op, Reply>>, lost: nat)

  datatype Step = Open(tid: nat, op: Op) | Run(tid: nat) | Finish(tid: nat) | Crash(tid: nat)

  datatype Result = Continue(txn: Txn) | End(reply: Reply) | LoseRace

  const BOOT := Sys(EMPTY, map[], [], 0)

  function Start(op: Op): Txn { Txn(op, Begun, 0, false) }

  predicate IsProcessing(db: Db, id: nat) { id < |db.payments| && db.payments[id].status.Processing? }

  function CreateStatement(db: Db, t: Txn): Result
    requires t.op.Create?
  {
    var byKey := if t.op.key == "" then None else FindKey(db.payments, t.op.key);
    match t.pc
    case Begun =>
      if t.op.amount <= 0 then End(Failed(BadAmount))
      else if byKey.Some? then End(GotPayment(byKey.value, db.payments[byKey.value]))
      else Continue(t.(pc := KeyChecked))
    case KeyChecked =>
      // A unique violation rolls back and reads the winner of the race back.
      if byKey.Some? then End(GotPayment(byKey.value, db.payments[byKey.value]))
      else if FindIntent(db.payments, t.op.intent).Some? then End(Failed(DuplicateKey))
      else Continue(t.(pc := Inserted))
    case _ => Continue(t)
  }

  function ConfirmStatement(db: Db, t: Txn): Result
    requires t.op.Confirm?
  {
    match t.pc
    case Begun =>
      if !IsProcessing(db, t.op.id) then End(Failed(NotFound))
      else Continue(t.(pc := Marked, pick := t.op.id, marked := true))
    case Marked => Continue(t.(pc := Posted))
    case _ => Continue(t)
  }

  function WebhookStatement(db: Db, t: Txn): Result
    requires t.op.Webhook?
  {
    match t.pc
    case Begun =>
      if t.op.event == "" then End(Failed(BadEvent))
      else if t.op.event in db.events then End(Acknowledged)
      else Continue(t.(pc := EventInserted))
    case EventInserted =>
      if t.op.eventType != SUCCEEDED then Continue(t.(pc := Stamped))
      else
        (match FindIntent(db.payments, t.op.intent)
         case None => End(Failed(NotFound))
         case Some(id) =>
           if db.payments[id].status.Processing? then Continue(t.(pc := Found, pick := id))
           else Continue(t.(pc := Stamped)))
    case Found =>
      if !IsProcessing(db, t.pick) then LoseRace else Continue(t.(pc := Marked, marked := true))
    case Marked => Continue(t.(pc := Posted))
    case Posted => Continue(t.(pc := Stamped))
    case _ => Continue(t)
  }

  function Statement(db: Db, t: Txn): Result {
    match t.op
    case Create(_, _, _, _, _, _) => CreateStatement(db, t)
    case Confirm(_) => ConfirmStatement(db, t)
    case Webhook(_, _, _) => WebhookStatement(db, t)
  }

  /** Ready to commit. */
  predicate Ready(t: Txn) {
    match t.op
    case Create(_, _, _, _, _, _) => t.pc.Inserted?
    case Confirm(_) => t.pc.Posted?
    case Webhook(_, _, _) => t.pc.Stamped?
  }

  function Commit(db: Db, t: Txn): Db
    requires Ready(t) && (t.marked ==> t.pick < |db.payments|)
  {
    match t.op
    case Create(_, _, _, _, _, _) => db.(payments := db.payments + [NewPayment(t.op)])
    case Confirm(_) => if t.marked then Capture(db, t.pick) else db
    case Webhook(_, _, _) => Record(if t.marked then Capture(db, t.pick) else db, t.op)
  }

  function CommitReply(db: Db, t: Txn): Reply {
    match t.op
    case Create(_, _, _, _, _, _) => GotPayment(|db.payments|, NewPayment(t.op))
    case Confirm(id) =>
      if id < |db.payments| then GotPayment(id, db.payments[id].(status := Succeeded)) else Failed(NotFound)
    case Webhook(_, _, _) => Acknowledged
  }

  // ---------------------------------------------------------------------------------------------
  // Locks
  // ---------------------------------------------------------------------------------------------

  predicate HoldsRow(t: Txn, id: nat) { t.marked && t.pick == id }

  predicate HoldsEvent(t: Txn, event: string) { t.op.Webhook? && !t.pc.Begun? && t.op.event == event }

  /** The two transactions insert payments with the same key or the same intent. */
  predicate SameUniqueKey(a: Op, b: Op) {
    a.Create? && b.Create? && (a.intent == b.intent || (a.key != "" && a.key == b.key))
  }

  /** The locks the next statement of a takes are not held by b. */
  predicate NoConflict(a: Txn, b: Txn) {
    match a.op
    case Create(_, _, _, _, _, _) => a.pc.KeyChecked? ==> !(b.pc.Inserted? && SameUniqueKey(a.op, b.op))
    case Confirm(id) => a.pc.Begun? ==> !HoldsRow(b, id)
    case Webhook(event, _, _) =>
      && (a.pc.Begun? ==> !HoldsEvent(b, event))
      && (a.pc.Found? ==> !HoldsRow(b, a.pick))
  }

  ghost predicate Enabled(s: Sys, step: Step) {
    match step
    case Open(tid, _) => tid !in s.txns
    case Run(tid) =>
      tid in s.txns && !Ready(s.txns[tid]) && forall u :: u in s.txns && u != tid ==> NoConflict(s.txns[tid], s.txns[u])
    case Finish(tid) =>
      tid in s.txns && Ready(s.txns[tid]) && (s.txns[tid].marked ==> s.txns[tid].pick < |s.db.payments|)
    case Crash(tid) => tid in s.txns
  }

  function Next(s: Sys, step: Step): Sys
    requires Enabled(s, step)
  {
    match step
    case Open(tid, op) => s.(txns := s.txns[tid := Start(op)])
    case Run(tid) =>
      (match Statement(s.db, s.txns[tid])
       case Continue(t) => s.(txns := s.txns[tid := t])
       case End(reply) => s.(txns := s.txns - {tid}, done := s.done + [Finished(s.txns[tid].op, reply)])
       case LoseRace => s.(txns := s.txns - {tid}, lost := s.lost + 1))
    case Finish(tid) =>
      var t := s.txns[tid];
      Sys(Commit(s.db, t), s.txns - {tid}, s.done + [Finished(t.op, CommitReply(s.db, t))], s.lost)
    case Crash(tid) => s.(txns := s.txns - {tid})
  }

  // ---------------------------------------------------------------------------------------------
  // What an open transaction knows
  // ---------------------------------------------------------------------------------------------

  ghost predicate CreateKnows(db: Db, t: Txn)
    requires t.op.Create?
  {
    && !t.marked && (t.pc.Begun? || t.pc.KeyChecked? || t.pc.Inserted?)
    && (!t.pc.Begun? ==> t.op.amount > 0)
    && (t.pc.Inserted? ==>
          && FindIntent(db.payments, t.op.intent).None?
          && (t.op.key != "" ==> FindKey(db.payments, t.op.key).None?))
  }

  ghost predicate ConfirmKnows(db: Db, t: Txn)
    requires t.op.Confirm?
  {
    && (t.pc.Begun? || t.pc.Marked? || t.pc.Posted?) && (t.marked <==> !t.pc.Begun?)
    && (t.marked ==> t.pick == t.op.id && IsProcessing(db, t.pick))
  }

  ghost predicate WebhookKnows(db: Db, t: Txn)
    requires t.op.Webhook?
  {
    && (t.pc in {Begun, EventInserted, Found, Marked, Posted, Stamped})
    && (t.pc in {Begun, EventInserted, Found} ==> !t.marked) && (t.pc in {Marked, Posted} ==> t.marked)
    && (!t.pc.Begun? ==> t.op.event != "" && t.op.event !in db.events)
    && (t.pc.Found? || t.marked ==> t.op.eventType == SUCCEEDED && FindIntent(db.payments, t.op.intent) == Some(t.pick))
    && (t.marked ==> IsProcessing(db, t.pick))
    && (t.pc.Stamped? && !t.marked && t.op.eventType == SUCCEEDED ==>
          var found := FindIntent(db.payments, t.op.intent);
          found.Some? && db.payments[found.value].status.Succeeded?)
  }

  ghost predicate Knows(db: Db, t: Txn) {
    match t.op
    case Create(_, _, _, _, _, _) => CreateKnows(db, t)
    case Confirm(_) => ConfirmKnows(db, t)
    case Webhook(_, _, _) => WebhookKnows(db, t)
  }

  ghost predicate Apart(a: Txn, b: Txn) {
    && !(a.marked && b.marked && a.pick == b.pick)
    && !(a.op.Webhook? && b.op.Webhook? && !a.pc.Begun? && !b.pc.Begun? && a.op.event == b.op.event)
    && !(a.pc.Inserted? && b.pc.Inserted? && SameUniqueKey(a.op, b.op))
  }

  ghost predicate History(db: Db, done: seq<Finished<Op, Reply>>) {
    && db == Exec(EMPTY, Calls(done))
    && forall k :: 0 <= k < |done| ==> done[k].reply == Apply(Exec(EMPTY, Calls(done)[..k]), done[k].op).1
  }

  ghost predicate SysInv(s: Sys) {
    && History(s.db, s.done)
    && (forall tid :: tid in s.txns ==> Knows(s.db, s.txns[tid]))
    && (forall t, u :: t in s.txns && u in s.txns && t != u ==> Apart(s.txns[t], s.txns[u]))
  }

  /** Recording a call the atomic operation explains. */
  lemma RecordKeepsHistory(db: Db, done: seq<Finished<Op, Reply>>, f: Finished<Op, Reply>)
    requires History(db, done) && f.reply == Apply(db, f.op).1
    ensures History(Apply(db, f.op).0, done + [f])
  {
    CallsSnoc(done, f);
    var all := done + [f];
    assert Calls(all)[..|done|] == Calls(done);
    hide Apply;
    forall k | 0 <= k < |all|
      ensures all[k].reply == Apply(Exec(EMPTY, Calls(all)[..k]), all[k].op).1
    {
      if k < |done| {
        assert Calls(all)[..k] == Calls(done)[..k] && all[k] == done[k];
      }
    }
  }

  // ---------------------------------------------------------------------------------------------
  // Statements and commits
  // ---------------------------------------------------------------------------------------------

  ghost predicate Sound(db: Db, t: Txn, r: Result) {
    match r
    case Continue(t') => t'.op == t.op && Knows(db, t')
    case End(reply) => Apply(db, t.op) == (db, reply)
    case LoseRace => t.op.Webhook? && Apply(db, t.op) == (Record(db, t.op), Acknowledged)
  }

  lemma StatementIsSound(db: Db, t: Txn)
    requires Knows(db, t)
    ensures Sound(db, t, Statement(db, t))
  {
  }

  /** The locks a statement takes are the ones that were free. */
  lemma StatementKeepsApart(db: Db, t: Txn, u: Txn)
    requires Knows(db, t) && Knows(db, u) && Apart(t, u) && NoConflict(t, u) && Statement(db, t).Continue?
    ensures Apart(Statement(db, t).txn, u)
  {
  }

  lemma CommitIsApply(db: Db, t: Txn)
    requires Knows(db, t) && Ready(t)
    ensures t.marked ==> t.pick < |db.payments|
    ensures Apply(db, t.op) == (Commit(db, t), CommitReply(db, t))
  {
  }

  /** Rows are appended and captured, never lost. */
  ghost predicate Grows(a: seq<Payment>, b: seq<Payment>) {
    && |a| <= |b|
    && forall i :: 0 <= i < |a| ==>
         b[i].intent == a[i].intent && b[i].key == a[i].key && (a[i].status.Succeeded? ==> b[i].status.Succeeded?)
  }

  lemma FoundStays(a: seq<Payment>, b: seq<Payment>, intent: string)
    requires Grows(a, b) && FindIntent(a, intent).Some?
    ensures FindIntent(b, intent) == FindIntent(a, intent)
  {
    assert b[FindIntent(a, intent).value].intent == intent;
  }

  /** A commit leaves what everybody else knows true. */
  lemma OthersKeepKnowing(db: Db, t: Txn, u: Txn)
    requires Knows(db, t) && Knows(db, u) && Ready(t) && Apart(t, u) && (t.marked ==> t.pick < |db.payments|)
    ensures Knows(Commit(db, t), u)
  {
    var after := Commit(db, t);
    assert Grows(db.payments, after.payments);
    if u.op.Webhook? && FindIntent(db.payments, u.op.intent).Some? {
      FoundStays(db.payments, after.payments, u.op.intent);
    }
  }

  // ---------------------------------------------------------------------------------------------
  // Steps and runs
  // ---------------------------------------------------------------------------------------------

  lemma RunKeepsSysInv(s: Sys, tid: nat)
    requires SysInv(s) && Enabled(s, Run(tid))
    ensures SysInv(Next(s, Run(tid)))
  {
    var t := s.txns[tid];
    StatementIsSound(s.db, t);
    match Statement(s.db, t)
    case Continue(t') =>
      forall u | u in s.txns && u != tid ensures Apart(t', s.txns[u]) && Apart(s.txns[u], t') {
        StatementKeepsApart(s.db, t, s.txns[u]);
      }
      hide Statement, Knows, Apart, History;
    case End(reply) =>
      RecordKeepsHistory(s.db, s.done, Finished(t.op, reply));
      hide Statement, Knows, Apart, History;
    case LoseRace =>
      hide Statement, Knows, Apart, History;
  }

  lemma FinishKeepsSysInv(s: Sys, tid: nat)
    requires SysInv(s) && Enabled(s, Finish(tid))
    ensures SysInv(Next(s, Finish(tid)))
  {
    var t := s.txns[tid];
    CommitIsApply(s.db, t);
    RecordKeepsHistory(s.db, s.done, Finished(t.op, CommitReply(s.db, t)));
    forall u | u in s.txns && u != tid ensures Knows(Commit(s.db, t), s.txns[u]) {
      OthersKeepKnowing(s.db, t, s.txns[u]);
    }
    hide Knows, Apart, History, Apply, Commit, CommitReply;
  }

  lemma StepKeepsSysInv(s: Sys, step: Step)
    requires SysInv(s) && Enabled(s, step)
    ensures SysInv(Next(s, step))
  {
    match step
    case Open(tid, op) =>
      assert Knows(s.db, Start(op));
      hide Knows, History;
    case Run(tid) =>
      hide SysInv;
      RunKeepsSysInv(s, tid);
    case Finish(tid) =>
      hide SysInv;
      FinishKeepsSysInv(s, tid);
    case Crash(tid) =>
      hide Knows, Apart, History;
  }

  ghost predicate Reaches(s: Sys, steps: seq<Step>)
    decreases |steps|
  {
    if steps == [] then s == BOOT
    else
      var last := steps[|steps| - 1];
      exists before :: Reaches(before, steps[..|steps| - 1]) && Enabled(before, last) && s == Next(before, last)
  }

  lemma {:induction false} ReachableKeepsSysInv(s: Sys, steps: seq<Step>)
    requires Reaches(s, steps)
    ensures SysInv(s)
    decreases |steps|
  {
    if steps != [] {
      var init, last := steps[..|steps| - 1], steps[|steps| - 1];
      var before :| Reaches(before, init) && Enabled(before, last) && s == Next(before, last);
      ReachableKeepsSysInv(before, init);
      hide SysInv, Next, Enabled, Reaches;
      StepKeepsSysInv(before, last);
    }
  }

  /**
   * In every interleaving the tables and the replies are those of the answered calls run one after
   * the other; calls that crashed or lost a race have no effect at all.
   */
  lemma {:induction false} EveryInterleavingIsSerial(s: Sys, steps: seq<Step>)
    requires Reaches(s, steps)
    ensures s.db == Exec(EMPTY, Calls(s.done))
    ensures forall k :: 0 <= k < |s.done| ==>
      s.done[k].reply == Apply(Exec(EMPTY, Calls(s.done)[..k]), s.done[k].op).1
  {
    ReachableKeepsSysInv(s, steps);
  }

  /**
   * One deposit per payment, whatever confirms and webhooks are interleaved, duplicated or early; and
   * a recorded success event means its payment has succeeded.
   */
  lemma OneDepositInEveryInterleaving(s: Sys, steps: seq<Step>)
    requires Reaches(s, steps)
    ensures forall id :: 0 <= id < |s.db.payments| ==> OneDeposit(s.db, id)
    ensures EventsOk(s.db)
  {
    ReachableKeepsSysInv(s, steps);
    EveryRunKeepsInv(Calls(s.done));
    hide OneDeposit, EventsOk;
  }

  /** A webhook that lost the race against a confirm is recorded without a second deposit when Stripe sends it again. */
  lemma LostRaceIsHarmless(s: Sys, steps: seq<Step>, tid: nat)
    requires Reaches(s, steps) && Enabled(s, Run(tid)) && Statement(s.db, s.txns[tid]).LoseRace?
    ensures Next(s, Run(tid)).db == s.db
    ensures Apply(s.db, s.txns[tid].op) == (Record(s.db, s.txns[tid].op), Acknowledged)
  {
    ReachableKeepsSysInv(s, steps);
    hide Reaches;
    StatementIsSound(s.db, s.txns[tid]);
  }
}
