/**
 * Which rows leave the tracker's queue, and which blobs its disk: from every reachable state, exactly those
 * whose evidence is not stored yet, whose acceptance is at hand, or whose clean-up is under way.
 */
module UploadQueue {
  import opened Basics
  import opened Screenshots

  // ---------------------------------------------------------------------------------------------
  // Continuing a run
  // ---------------------------------------------------------------------------------------------

  /** s' is reached from s by these steps. */
  ghost predicate Continues(s: Sys, s': Sys, steps: seq<Step>)
    decreases |steps|
  {
    if steps == [] then s' == s
    else
      var last := steps[|steps| - 1];
      exists before :: Continues(s, before, steps[..|steps| - 1]) && Enabled(before, last) && s' == Next(before, last)
  }

  lemma GoOn(s: Sys, s': Sys, steps: seq<Step>, step: Step) returns (s'': Sys, steps': seq<Step>)
    requires Continues(s, s', steps) && Enabled(s', step)
    ensures s'' == Next(s', step) && Continues(s, s'', steps') && steps' == steps + [step]
  {
    steps' := steps + [step];
    s'' := Next(s', step);
    assert steps'[..|steps'| - 1] == steps;
    assert Continues(s, s', steps'[..|steps'| - 1]) && Enabled(s', steps'[|steps'| - 1]);
  }

  lemma CaptureStaysOneStep(s: Sys, step: Step, id: nat)
    requires Enabled(s, step) && id in s.captures
    ensures id in Next(s, step).captures && Next(s, step).captures[id] == s.captures[id]
  {
    hide Confirm, RequestSlot, CipherOf, SignatureOf;
  }

  lemma {:induction false} CaptureStays(s: Sys, s': Sys, steps: seq<Step>, id: nat)
    requires id in s.captures && Continues(s, s', steps)
    ensures id in s'.captures && s'.captures[id] == s.captures[id]
    decreases |steps|
  {
    if steps != [] {
      var init, last := steps[..|steps| - 1], steps[|steps| - 1];
      var before :| Continues(s, before, init) && Enabled(before, last) && s' == Next(before, last);
      hide Continues, Enabled, Next;
      CaptureStays(s, before, init, id);
      CaptureStaysOneStep(before, last, id);
    }
  }

  /** What holds of every run holds of its continuations. */
  lemma {:induction false} ContinuesKeepsInv(s: Sys, s': Sys, steps: seq<Step>)
    requires SysInv(s) && Continues(s, s', steps)
    ensures SysInv(s') && s.enqueued <= s'.enqueued
    decreases |steps|
  {
    if steps != [] {
      var init, last := steps[..|steps| - 1], steps[|steps| - 1];
      var before :| Continues(s, before, init) && Enabled(before, last) && s' == Next(before, last);
      hide SysInv, Continues, Enabled, Next;
      ContinuesKeepsInv(s, before, init);
      StepKeepsInv(before, last);
      GrowthOf(before, last);
      hide SlicesDistinct, ServerOk, WireOk, WorkOk, NothingLost;
      EnqueuedGrows(before, last);
    }
  }

  lemma EnqueuedGrows(s: Sys, step: Step)
    requires Enabled(s, step)
    ensures s.enqueued <= Next(s, step).enqueued
  {
    hide Confirm, RequestSlot, CipherOf, SignatureOf;
  }

  // ---------------------------------------------------------------------------------------------
  // Stored and not accepted
  // ---------------------------------------------------------------------------------------------

  /** The tracker has, or is about to receive, the acceptance of this row. */
  predicate AcceptanceAtHand(s: Sys, id: nat) {
    && s.work.Some? && s.work.value.id == id
    && (s.work.value.pc.Accepted?
        || (s.work.value.pc.AwaitConfirm? && s.work.value.pc.n in s.replies
            && s.replies[s.work.value.pc.n].ConfirmReply? && s.replies[s.work.value.pc.n].accepted))
  }

  /** The evidence is stored, but the acceptance that says so is not coming. */
  ghost predicate Stuck(s: Sys, id: nat) {
    id in s.queue && s.queue[id] != Confirmed && Safe(s, id) && !AcceptanceAtHand(s, id)
  }

  /** A row that is already stored is not accepted again. */
  lemma NotAcceptedTwice(s: Sys, n: nat, id: nat)
    requires ServerOk(s) && SlicesDistinct(s) && Enabled(s, ServeConfirm(n)) && CallOk(s, s.calls[n])
    requires s.calls[n].id == id && Safe(s, id)
    ensures !Confirm(s.server, s.calls[n].ss, s.calls[n].sha, s.calls[n].nonce, s.calls[n].sig).1
  {
    var ss :| 0 <= ss < |s.server.rows| && s.server.rows[ss].owner == id && s.server.rows[ss].stored;
    assert RowOk(s, ss);
  }

  lemma LocalGrows(s: Sys, step: Step)
    requires Enabled(s, step) && !step.ServeSlot? && !step.ServePut? && !step.ServeConfirm?
    ensures Grows(s, Next(s, step))
  {
    hide Confirm, RequestSlot, CipherOf, SignatureOf;
    var s' := Next(s, step);
    assert s'.server == s.server;
  }

  lemma GrowthOf(s: Sys, step: Step)
    requires SysInv(s) && Enabled(s, step)
    ensures Grows(s, Next(s, step))
  {
    assert step.ServePut? || step.ServeConfirm? ==> CallOk(s, s.calls[step.n]) by {
      hide ServerOk, WorkOk, NothingLost;
    }
    hide ServerOk, WireOk, WorkOk, NothingLost, CallOk, Grows, Next;
    match step
    case ServeSlot(n) => SlotGrows(s, n);
    case ServePut(n) => PutKeepsServer(s, n);
    case ServeConfirm(n) => ConfirmKeepsServer(s, n);
    case _ => LocalGrows(s, step);
  }

  /** A queued row without acceptance at hand stays queued. */
  lemma StaysQueued(s: Sys, step: Step, id: nat)
    requires WorkOk(s) && Enabled(s, step) && (step.Enqueue? ==> step.id != id)
    requires id in s.queue && s.queue[id] != Confirmed && !AcceptanceAtHand(s, id)
    ensures id in Next(s, step).queue && Next(s, step).queue[id] != Confirmed
  {
    hide Confirm, RequestSlot, CipherOf, SignatureOf, RowFor, Expected;
  }

  /** An acceptance only comes from the server. */
  lemma StaysUnaccepted(s: Sys, step: Step, id: nat)
    requires Enabled(s, step) && !AcceptanceAtHand(s, id) && s.next !in s.replies
    requires step.ServeConfirm? && s.calls[step.n].id == id ==>
      !Confirm(s.server, s.calls[step.n].ss, s.calls[step.n].sha, s.calls[step.n].nonce, s.calls[step.n].sig).1
    requires WorkOk(s)
    ensures !AcceptanceAtHand(Next(s, step), id)
  {
    hide Confirm, RequestSlot, CipherOf, SignatureOf, RowFor;
  }

  /** A stuck row stays in the queue for good: every later confirm is refused, because the row is stored. */
  lemma StuckStaysStuck(s: Sys, step: Step, id: nat)
    requires SysInv(s) && Stuck(s, id) && Enabled(s, step)
    ensures Stuck(Next(s, step), id)
  {
    assert step.ServeConfirm? ==> CallOk(s, s.calls[step.n]) by { hide ServerOk, WorkOk, NothingLost; }
    hide ServerOk, WireOk, WorkOk, NothingLost, CallOk, Grows, Next, Safe, AcceptanceAtHand, Confirm, SlicesDistinct;
    GrowthOf(s, step);
    SafeStays(s, Next(s, step), id);
    QueueIsCaptured(s);
    NextIsNew(s);
    if step.ServeConfirm? && s.calls[step.n].id == id {
      NotAcceptedTwice(s, step.n, id);
    }
    StaysQueued(s, step, id);
    StaysUnaccepted(s, step, id);
  }

  lemma {:induction false} StuckForever(s: Sys, s': Sys, steps: seq<Step>, id: nat)
    requires SysInv(s) && Stuck(s, id) && Continues(s, s', steps)
    ensures SysInv(s') && Stuck(s', id)
    decreases |steps|
  {
    if steps != [] {
      var init, last := steps[..|steps| - 1], steps[|steps| - 1];
      var before :| Continues(s, before, init) && Enabled(before, last) && s' == Next(before, last);
      hide SysInv, Stuck, Enabled, Next, Continues;
      StuckForever(s, before, init, id);
      StepKeepsInv(before, last);
      StuckStaysStuck(before, last, id);
    }
  }

  // ---------------------------------------------------------------------------------------------
  // Marked and not deleted
  // ---------------------------------------------------------------------------------------------

  /** The tracker has marked the row confirmed and goes on to delete it. */
  predicate AboutToDelete(s: Sys, id: nat) {
    s.work.Some? && s.work.value.id == id && s.work.value.pc.MarkedConfirmed?
  }

  /** The tracker stopped between the two: no upload attempt ever picks a confirmed row. */
  ghost predicate Forgotten(s: Sys, id: nat) {
    id in s.queue && s.queue[id] == Confirmed && !(s.work.Some? && s.work.value.id == id)
  }

  lemma ForgottenStaysForgotten(s: Sys, step: Step, id: nat)
    requires Forgotten(s, id) && id in s.enqueued && Enabled(s, step)
    ensures Forgotten(Next(s, step), id)
  {
    hide Confirm, RequestSlot, CipherOf, SignatureOf;
  }

  lemma ForgottenIsQueued(s: Sys, id: nat)
    requires Forgotten(s, id)
    ensures id in s.queue
  {
  }

  lemma QueuedIsEnqueued(s: Sys, id: nat)
    requires SysInv(s) && id in s.queue
    ensures id in s.enqueued
  {
    hide ServerOk, WireOk, WorkOk, SlicesDistinct;
  }

  lemma {:induction false} ForgottenForever(s: Sys, s': Sys, steps: seq<Step>, id: nat)
    requires SysInv(s) && Forgotten(s, id) && Continues(s, s', steps)
    ensures SysInv(s') && Forgotten(s', id)
    decreases |steps|
  {
    if steps != [] {
      var init, last := steps[..|steps| - 1], steps[|steps| - 1];
      var before :| Continues(s, before, init) && Enabled(before, last) && s' == Next(before, last);
      hide SysInv, Forgotten, Enabled, Next, Continues;
      ForgottenForever(s, before, init, id);
      StepKeepsInv(before, last);
      ForgottenIsQueued(before, id);
      QueuedIsEnqueued(before, id);
      ForgottenStaysForgotten(before, last, id);
    }
  }

  // ---------------------------------------------------------------------------------------------
  // Not stored yet: one attempt without failures takes the row out
  // ---------------------------------------------------------------------------------------------

  /** The row waits in the queue and its evidence is not stored. */
  ghost predicate Unsaved(s: Sys, id: nat) { SysInv(s) && id in s.queue && !Safe(s, id) }

  /** Call n of this attempt is on its way. */
  predicate Calling(s: Sys, id: nat, pc: Pc, n: nat) {
    s.work == Some(Work(id, pc)) && n in s.calls && n !in s.replies && s.calls[n].id == id
  }

  lemma UnsavedCanBegin(s: Sys, id: nat)
    requires Unsaved(s, id)
    ensures s.queue[id] != Confirmed && id in s.blobs && id in s.captures && s.next !in s.calls && s.next !in s.replies
  {
    NextIsNew(s);
    hide ServerOk, WireOk, WorkOk, SlicesDistinct;
  }

  /** Nothing but a confirm stores a row. */
  lemma OnlyConfirmStores(s: Sys, step: Step, id: nat)
    requires Enabled(s, step) && !step.ServeConfirm? && id in s.captures && !Safe(s, id)
    requires step.ServeSlot? ==> s.calls[step.n].id in s.captures
    ensures !Safe(Next(s, step), id)
  {
    hide Confirm, CipherOf, SignatureOf;
    if step.ServeSlot? {
      SlotStoresNothing(s.server, s.calls[step.n].id, s.captures[s.calls[step.n].id]);
    }
    hide RequestSlot;
  }

  lemma SlotStoresNothing(sv: Server, owner: nat, c: Capture)
    ensures var rows := RequestSlot(sv, owner, c).0.rows;
      forall ss :: 0 <= ss < |rows| && rows[ss].stored ==> ss < |sv.rows| && sv.rows[ss] == rows[ss]
  {
  }

  lemma StillQueued(s: Sys, step: Step, id: nat)
    requires Enabled(s, step) && !step.DeleteRow? && id in s.queue
    ensures id in Next(s, step).queue
  {
    hide Confirm, RequestSlot, CipherOf, SignatureOf;
  }

  lemma InQueue(s: Sys, id: nat)
    requires Unsaved(s, id)
    ensures id in s.queue && SysInv(s) && !Safe(s, id)
  {
  }

  lemma QueuedIsUnsaved(s: Sys, id: nat)
    requires SysInv(s) && id in s.queue && !Safe(s, id)
    ensures Unsaved(s, id)
  {
  }

  /** One step of the attempt. */
  lemma Advance(s: Sys, s': Sys, steps: seq<Step>, step: Step, id: nat) returns (s'': Sys, steps': seq<Step>)
    requires Continues(s, s', steps) && Unsaved(s', id) && Enabled(s', step)
    requires !step.ServeConfirm? && !step.DeleteRow?
    ensures s'' == Next(s', step) && Continues(s, s'', steps') && Unsaved(s'', id)
  {
    UnsavedCanBegin(s', id);
    InQueue(s', id);
    assert step.ServeSlot? ==> s'.calls[step.n].id in s'.captures;
    hide *;
    s'', steps' := GoOn(s, s', steps, step);
    StepKeepsInv(s', step);
    OnlyConfirmStores(s', step, id);
    StillQueued(s', step, id);
    QueuedIsUnsaved(s'', id);
  }

  /** The answer to call n of this attempt has arrived. */
  predicate Answered(s: Sys, id: nat, pc: Pc, n: nat) { s.work == Some(Work(id, pc)) && n in s.replies }

  lemma BeginCalls(s: Sys, id: nat)
    requires s.work.None? && id in s.queue && s.queue[id] != Confirmed && s.next !in s.replies
    ensures Enabled(s, Begin(id))
    ensures var s', n := Next(s, Begin(id)), s.next; Calling(s', id, AwaitSlot(n), n) && s'.calls[n].SlotCall?
  {
  }

  lemma SlotAnswers(s: Sys, id: nat, n: nat)
    requires Calling(s, id, AwaitSlot(n), n) && s.calls[n].SlotCall? && id in s.captures
    ensures Enabled(s, ServeSlot(n))
    ensures var s' := Next(s, ServeSlot(n)); Answered(s', id, AwaitSlot(n), n) && s'.replies[n].SlotReply?
  {
    hide RequestSlot;
  }

  lemma SlotArrives(s: Sys, id: nat, n: nat)
    requires Answered(s, id, AwaitSlot(n), n) && s.replies[n].SlotReply? && id in s.queue
    ensures Enabled(s, ReceiveSlot)
    ensures exists ss, key :: Next(s, ReceiveSlot).work == Some(Work(id, GotSlot(ss, key)))
  {
    var r := s.replies[n];
    assert Next(s, ReceiveSlot).work == Some(Work(id, GotSlot(r.ss, r.key)));
  }

  lemma PutCalls(s: Sys, id: nat, ss: nat, key: nat)
    requires s.work == Some(Work(id, GotSlot(ss, key))) && id in s.blobs && s.next !in s.replies
    ensures Enabled(s, StartPut)
    ensures var s', n := Next(s, StartPut), s.next; Calling(s', id, AwaitPut(n, ss), n) && s'.calls[n].PutCall?
  {
  }

  lemma PutAnswers(s: Sys, id: nat, ss: nat, n: nat)
    requires Calling(s, id, AwaitPut(n, ss), n) && s.calls[n].PutCall?
    ensures Enabled(s, ServePut(n))
    ensures var s' := Next(s, ServePut(n)); Answered(s', id, AwaitPut(n, ss), n) && s'.replies[n].PutReply?
  {
  }

  lemma ConfirmCalls(s: Sys, id: nat, ss: nat, n: nat)
    requires Answered(s, id, AwaitPut(n, ss), n) && s.replies[n].PutReply? && s.next !in s.replies
    requires id in s.queue && id in s.captures
    ensures Enabled(s, ReceivePut)
    ensures var s', m := Next(s, ReceivePut), s.next;
      Calling(s', id, AwaitConfirm(m, ss), m) && s'.calls[m].ConfirmCall?
  {
    hide CipherOf, SignatureOf;
  }

  /** The attempt up to the slot. */
  lemma GetSlot(s: Sys, id: nat) returns (s': Sys, steps: seq<Step>, ss: nat, key: nat)
    requires Unsaved(s, id)
    ensures Continues(s, s', steps) && Unsaved(s', id) && s'.work == Some(Work(id, GotSlot(ss, key)))
  {
    Here(s);
    hide *;
    s', steps := s, [];
    if s.work.Some? {
      CanDrop(s);
      s', steps := Advance(s, s', steps, Drop, id);
      Dropped(s);
    }
    UnsavedCanBegin(s', id);
    InQueue(s', id);
    var n := s'.next;
    BeginCalls(s', id);
    s', steps := Advance(s, s', steps, Begin(id), id);
    UnsavedCanBegin(s', id);
    SlotAnswers(s', id, n);
    s', steps := Advance(s, s', steps, ServeSlot(n), id);
    InQueue(s', id);
    SlotArrives(s', id, n);
    s', steps := Advance(s, s', steps, ReceiveSlot, id);
    ss, key :| s'.work == Some(Work(id, GotSlot(ss, key)));
  }

  lemma CanDrop(s: Sys)
    requires s.work.Some?
    ensures Enabled(s, Drop)
  {
  }

  lemma Dropped(s: Sys)
    requires Enabled(s, Drop)
    ensures Next(s, Drop).work.None?
  {
  }

  /** From the slot to the confirm. */
  lemma PutBlob(s: Sys, s0: Sys, steps0: seq<Step>, id: nat, ss: nat, key: nat)
    returns (s': Sys, steps: seq<Step>, n: nat)
    requires Continues(s, s0, steps0) && Unsaved(s0, id) && s0.work == Some(Work(id, GotSlot(ss, key)))
    ensures Continues(s, s', steps) && Unsaved(s', id) && Calling(s', id, AwaitConfirm(n, ss), n)
    ensures s'.calls[n].ConfirmCall?
  {
    hide *;
    UnsavedCanBegin(s0, id);
    var m := s0.next;
    PutCalls(s0, id, ss, key);
    s', steps := Advance(s, s0, steps0, StartPut, id);
    PutAnswers(s', id, ss, m);
    s', steps := Advance(s, s', steps, ServePut(m), id);
    UnsavedCanBegin(s', id);
    InQueue(s', id);
    n := s'.next;
    ConfirmCalls(s', id, ss, m);
    s', steps := Advance(s, s', steps, ReceivePut, id);
    IsCalling(s', id, AwaitConfirm(n, ss), n);
  }

  lemma IsCalling(s: Sys, id: nat, pc: Pc, n: nat)
    requires Calling(s, id, pc, n)
    ensures n in s.calls
  {
  }

  /** The first confirm of a row is accepted. */
  lemma FirstConfirmIsAccepted(s: Sys, id: nat, n: nat)
    requires Unsaved(s, id) && n in s.calls && s.calls[n].ConfirmCall? && s.calls[n].id == id
    ensures var c := s.calls[n]; Confirm(s.server, c.ss, c.sha, c.nonce, c.sig).1
  {
    assert CallOk(s, s.calls[n]) by { hide ServerOk, WorkOk, NothingLost; }
    hide SysInv;
    assert !s.server.rows[s.calls[n].ss].stored;
  }

  lemma ConfirmAnswers(s: Sys, id: nat, ss: nat, n: nat)
    requires Calling(s, id, AwaitConfirm(n, ss), n) && s.calls[n].ConfirmCall?
    requires var c := s.calls[n]; Confirm(s.server, c.ss, c.sha, c.nonce, c.sig).1
    ensures Enabled(s, ServeConfirm(n)) && AcceptanceAtHand(Next(s, ServeConfirm(n)), id)
  {
    hide Confirm;
  }

  /** A row whose evidence is not stored can have it accepted. */
  lemma UnsavedGetsAccepted(s: Sys, id: nat) returns (s': Sys, steps: seq<Step>)
    requires Unsaved(s, id)
    ensures Continues(s, s', steps) && AcceptanceAtHand(s', id)
  {
    hide *;
    var ss, key, n;
    s', steps, ss, key := GetSlot(s, id);
    s', steps, n := PutBlob(s, s', steps, id, ss, key);
    IsCalling(s', id, AwaitConfirm(n, ss), n);
    CalledFor(s', id, AwaitConfirm(n, ss), n);
    FirstConfirmIsAccepted(s', id, n);
    ConfirmAnswers(s', id, ss, n);
    s', steps := GoOn(s, s', steps, ServeConfirm(n));
  }

  lemma CalledFor(s: Sys, id: nat, pc: Pc, n: nat)
    requires Calling(s, id, pc, n)
    ensures s.calls[n].id == id
  {
  }

  // ---------------------------------------------------------------------------------------------
  // Exactly which rows and which blobs go
  // ---------------------------------------------------------------------------------------------

  /** The evidence is not stored, or the acceptance is at hand, or the row is marked and about to be deleted. */
  ghost predicate OnItsWay(s: Sys, id: nat) { !Safe(s, id) || AcceptanceAtHand(s, id) || AboutToDelete(s, id) }

  ghost predicate CanLeave(s: Sys, id: nat) { exists s', steps :: Continues(s, s', steps) && id !in s'.queue }

  ghost predicate BlobCanLeave(s: Sys, id: nat) { exists s', steps :: Continues(s, s', steps) && id !in s'.blobs }

  /** The acceptance of this row has been used: it is gone from the queue, and its blob is next. */
  predicate RowGone(s: Sys, id: nat) {
    id !in s.queue && s.work.Some? && s.work.value.id == id && s.work.value.pc.RowDeleted?
  }

  lemma AcceptedRowGoes(s: Sys, s0: Sys, steps0: seq<Step>, id: nat) returns (s': Sys, steps: seq<Step>)
    requires Continues(s, s0, steps0) && (AcceptanceAtHand(s0, id) || AboutToDelete(s0, id))
    ensures Continues(s, s', steps) && RowGone(s', id)
  {
    hide Continues;
    s', steps := s0, steps0;
    if AcceptanceAtHand(s0, id) {
      if s0.work.value.pc.AwaitConfirm? {
        s', steps := GoOn(s, s', steps, ReceiveConfirm);
      }
      s', steps := GoOn(s, s', steps, MarkConfirmed);
    }
    s', steps := GoOn(s, s', steps, DeleteRow);
  }

  lemma RowGoes(s: Sys, id: nat) returns (s': Sys, steps: seq<Step>)
    requires SysInv(s) && id in s.queue && OnItsWay(s, id)
    ensures Continues(s, s', steps) && RowGone(s', id)
  {
    Here(s);
    hide SysInv, Safe, Continues, AcceptanceAtHand, AboutToDelete, Unsaved;
    s', steps := s, [];
    if !AcceptanceAtHand(s, id) && !AboutToDelete(s, id) {
      QueuedIsUnsaved(s, id);
      s', steps := UnsavedGetsAccepted(s, id);
    }
    s', steps := AcceptedRowGoes(s, s', steps, id);
  }

  /** A row that is not on its way stays for good: stored and never accepted, or marked and never deleted. */
  lemma RowStays(s: Sys, id: nat, s': Sys, steps: seq<Step>)
    requires SysInv(s) && id in s.queue && !OnItsWay(s, id) && Continues(s, s', steps)
    ensures id in s'.queue
  {
    hide Continues, Safe, AcceptanceAtHand;
    if s.queue[id] == Confirmed {
      assert Forgotten(s, id) by { hide ServerOk, WireOk, NothingLost, SlicesDistinct; }
      hide SysInv;
      ForgottenForever(s, s', steps, id);
    } else {
      assert Stuck(s, id);
      hide SysInv;
      StuckForever(s, s', steps, id);
    }
  }

  /**
   * Not every upload leaves the queue. From any reachable state a queued row can still leave exactly if its
   * evidence is not stored yet, or the acceptance is at hand, or it is marked and about to be deleted. If the
   * tracker loses the acceptance, or stops between marking and deleting, the row stays in every continuation;
   * the evidence is on the server all the same.
   */
  lemma {:induction false} RowLeavesExactly(s: Sys, steps: seq<Step>, id: nat)
    requires Reaches(s, steps) && id in s.queue
    ensures CanLeave(s, id) <==> OnItsWay(s, id)
  {
    ReachableKeepsInv(s, steps);
    hide Reaches, SysInv, Continues, OnItsWay;
    if OnItsWay(s, id) {
      var s', more := RowGoes(s, id);
      assert Continues(s, s', more) && id !in s'.queue;
    } else {
      forall s', more | Continues(s, s', more) ensures id in s'.queue { RowStays(s, id, s', more); }
    }
  }

  /** The row is gone, and nothing is going to remove its blob. */
  ghost predicate Orphan(s: Sys, id: nat) {
    id in s.enqueued && id !in s.queue && id in s.blobs && !(s.work.Some? && s.work.value.id == id)
  }

  lemma OrphanStays(s: Sys, step: Step, id: nat)
    requires Orphan(s, id) && Enabled(s, step)
    ensures Orphan(Next(s, step), id)
  {
    hide Confirm, RequestSlot, CipherOf, SignatureOf;
  }

  lemma {:induction false} OrphanForever(s: Sys, s': Sys, steps: seq<Step>, id: nat)
    requires Orphan(s, id) && Continues(s, s', steps)
    ensures Orphan(s', id)
    decreases |steps|
  {
    if steps != [] {
      var init, last := steps[..|steps| - 1], steps[|steps| - 1];
      var before :| Continues(s, before, init) && Enabled(before, last) && s' == Next(before, last);
      hide Orphan, Enabled, Next, Continues;
      OrphanForever(s, before, init, id);
      OrphanStays(before, last, id);
    }
  }

  lemma QueuedBlobIsThere(s: Sys, id: nat)
    requires NothingLost(s) && id in s.queue
    ensures id in s.blobs
  {
  }

  /** A blob stays as long as its row, and for good if the tracker stops between deleting the row and the file. */
  lemma BlobStays(s: Sys, id: nat, s': Sys, steps: seq<Step>)
    requires SysInv(s) && id in s.enqueued && id in s.blobs && Continues(s, s', steps)
    requires !RowGone(s, id) && !(id in s.queue && OnItsWay(s, id))
    ensures id in s'.blobs
  {
    hide Continues, OnItsWay;
    if id in s.queue {
      hide WorkOk, ServerOk, WireOk, NothingLost, SlicesDistinct;
      RowStays(s, id, s', steps);
      ContinuesKeepsInv(s, s', steps);
      QueuedBlobIsThere(s', id);
    } else {
      assert Orphan(s, id) by { hide ServerOk, WireOk, NothingLost, SlicesDistinct; }
      OrphanForever(s, s', steps, id);
    }
  }

  /** The blob of a capture can still be removed exactly if its row can leave, or has just left by this attempt. */
  lemma {:induction false} BlobLeavesExactly(s: Sys, steps: seq<Step>, id: nat)
    requires Reaches(s, steps) && id in s.enqueued && id in s.blobs
    ensures BlobCanLeave(s, id) <==> RowGone(s, id) || (id in s.queue && OnItsWay(s, id))
  {
    ReachableKeepsInv(s, steps);
    hide Reaches, SysInv, Continues, OnItsWay;
    if RowGone(s, id) || (id in s.queue && OnItsWay(s, id)) {
      var s', more := s, [];
      if !RowGone(s, id) {
        s', more := RowGoes(s, id);
      } else {
        Here(s);
      }
      s', more := GoOn(s, s', more, RemoveBlob);
      assert Continues(s, s', more) && id !in s'.blobs;
    } else {
      forall s', more | Continues(s, s', more) ensures id in s'.blobs { BlobStays(s, id, s', more); }
    }
  }

  lemma Here(s: Sys)
    ensures Continues(s, s, [])
  {
  }

  // ---------------------------------------------------------------------------------------------
  // Both ways of staying happen, to any capture
  // ---------------------------------------------------------------------------------------------

  lemma ReachOn(s: Sys, steps: seq<Step>, step: Step)
    requires Reaches(s, steps) && Enabled(s, step)
    ensures Reaches(Next(s, step), steps + [step])
  {
    hide Enabled, Next;
    var all := steps + [step];
    assert all[..|all| - 1] == steps && all[|all| - 1] == step;
    assert Reaches(s, all[..|all| - 1]) && Enabled(s, all[|all| - 1]);
  }

  lemma LastOf(s: Sys, s': Sys, steps: seq<Step>) returns (before: Sys, last: Step)
    requires Continues(s, s', steps) && steps != []
    ensures var init := steps[..|steps| - 1];
      Continues(s, before, init) && Enabled(before, last) && s' == Next(before, last) && init + [last] == steps
  {
    hide Enabled, Next;
    last := steps[|steps| - 1];
    before :| Continues(s, before, steps[..|steps| - 1]) && Enabled(before, last) && s' == Next(before, last);
  }

  lemma {:induction false} FromTheStart(s: Sys, s': Sys, steps: seq<Step>, more: seq<Step>)
    requires Reaches(s, steps) && Continues(s, s', more)
    ensures Reaches(s', steps + more)
    decreases |more|
  {
    if more == [] {
      assert steps + more == steps;
    } else {
      var before, last := LastOf(s, s', more);
      var init := more[..|more| - 1];
      assert steps + more == (steps + init) + [last];
      hide *;
      FromTheStart(s, before, steps, init);
      ReachOn(before, steps + init, last);
    }
  }

  /** A capture is queued on a tracker that has seen nothing else. */
  lemma QueueOne(id: nat, c: Capture) returns (s: Sys, steps: seq<Step>)
    ensures Reaches(s, steps) && Unsaved(s, id) && s.captures == map[id := c] && id in s.enqueued
  {
    assert Reaches(BOOT, []);
    Here(BOOT);
    hide Reaches, Continues;
    s, steps := GoOn(BOOT, BOOT, [], WriteBlob(id, c));
    s, steps := GoOn(BOOT, s, steps, Enqueue(id));
    FromTheStart(BOOT, s, [], steps);
    assert [] + steps == steps;
    ReachableKeepsInv(s, steps);
    hide SysInv;
  }

  /** The acceptance of a row whose evidence was not stored before: it is stored now, and the row not yet marked. */
  lemma AcceptedIsStored(s: Sys, id: nat)
    requires SysInv(s) && AcceptanceAtHand(s, id)
    ensures id in s.queue && s.queue[id] != Confirmed && Safe(s, id)
  {
    hide ServerOk, NothingLost, SlicesDistinct;
    var w := s.work.value;
    if w.pc.AwaitConfirm? {
      assert ReplyOk(s, s.replies[w.pc.n]) by { hide WorkOk; }
      hide WireOk;
      assert s.server.rows[s.replies[w.pc.n].ss].owner == id;
    } else {
      hide WireOk;
      assert s.server.rows[w.pc.ss].owner == id;
    }
  }

  /** Stopped with the acceptance at hand, the row is stuck. */
  lemma DropSticks(s: Sys, id: nat)
    requires AcceptanceAtHand(s, id) && id in s.queue && s.queue[id] != Confirmed && Safe(s, id)
    ensures Enabled(s, Drop) && Stuck(Next(s, Drop), id)
  {
  }

  /** Stopped between marking and deleting, it is forgotten. */
  lemma MarkForgets(s: Sys, s0: Sys, steps0: seq<Step>, id: nat) returns (s': Sys, steps: seq<Step>)
    requires Continues(s, s0, steps0) && AcceptanceAtHand(s0, id)
    ensures Continues(s, s', steps) && Forgotten(s', id)
  {
    hide Continues;
    s', steps := s0, steps0;
    if s0.work.value.pc.AwaitConfirm? {
      s', steps := GoOn(s, s', steps, ReceiveConfirm);
    }
    s', steps := GoOn(s, s', steps, MarkConfirmed);
    s', steps := GoOn(s, s', steps, Drop);
  }

  /** Neither the row nor the blob of this capture can leave any more. */
  ghost predicate Remains(s: Sys, id: nat) {
    id in s.queue && id in s.blobs && !CanLeave(s, id) && !BlobCanLeave(s, id)
  }

  lemma NotOnItsWayRemains(s: Sys, steps: seq<Step>, id: nat)
    requires Reaches(s, steps) && id in s.queue && !OnItsWay(s, id)
    ensures Remains(s, id)
  {
    ReachableKeepsInv(s, steps);
    QueuedIsEnqueued(s, id);
    QueuedBlobIsThere(s, id);
    hide Reaches, SysInv, OnItsWay, CanLeave, BlobCanLeave;
    RowLeavesExactly(s, steps, id);
    BlobLeavesExactly(s, steps, id);
  }

  /** If the tracker stops before it uses the acceptance, row and blob of any capture stay for good. */
  lemma {:induction false} LostAcceptanceRemains(id: nat, c: Capture) returns (s: Sys, steps: seq<Step>)
    ensures Reaches(s, steps) && id in s.captures && s.captures[id] == c && Stuck(s, id) && Remains(s, id)
  {
    hide *;
    var s0, first := QueueOne(id, c);
    var more;
    s, more := UnsavedGetsAccepted(s0, id);
    InQueue(s0, id);
    ContinuesKeepsInv(s0, s, more);
    AcceptedIsStored(s, id);
    DropSticks(s, id);
    s, more := GoOn(s0, s, more, Drop);
    ContinuesKeepsInv(s0, s, more);
    FromTheStart(s0, s, first, more);
    steps := first + more;
    CaptureStays(s0, s, more, id);
    StuckIsNotOnItsWay(s, id);
    NotOnItsWayRemains(s, steps, id);
  }

  lemma StuckIsNotOnItsWay(s: Sys, id: nat)
    requires SysInv(s) && Stuck(s, id)
    ensures id in s.queue && !OnItsWay(s, id)
  {
    hide ServerOk, WireOk, NothingLost, SlicesDistinct, Safe;
  }

  lemma ForgottenIsNotOnItsWay(s: Sys, id: nat)
    requires SysInv(s) && Forgotten(s, id)
    ensures id in s.queue && !OnItsWay(s, id)
  {
    QueuedIsEnqueued(s, id);
    hide ServerOk, WireOk, WorkOk, SlicesDistinct;
  }

  /** So they do if it stops between marking the row and deleting it. */
  lemma {:induction false} CrashForgets(id: nat, c: Capture) returns (s: Sys, steps: seq<Step>)
    ensures Reaches(s, steps) && id in s.captures && s.captures[id] == c && Forgotten(s, id) && Remains(s, id)
  {
    hide *;
    var s0, first := QueueOne(id, c);
    var more;
    s, more := UnsavedGetsAccepted(s0, id);
    s, more := MarkForgets(s0, s, more, id);
    InQueue(s0, id);
    ContinuesKeepsInv(s0, s, more);
    FromTheStart(s0, s, first, more);
    steps := first + more;
    CaptureStays(s0, s, more, id);
    ForgottenIsNotOnItsWay(s, id);
    NotOnItsWayRemains(s, steps, id);
  }
}
