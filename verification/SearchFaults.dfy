/**
 * What the search index makes of a deduplication check or mark that fails and of a handler that gives up:
 * exactly which lanes, and which outboxes, still end up indexed right.
 */
module SearchFaults {
  import opened Events
  import opened SearchIndex

  datatype Kind = FailedChecks | FailedMarks | GivingUp

  predicate Allowed(step: Step, kinds: set<Kind>) {
    && (step.CheckErrs? ==> FailedChecks in kinds)
    && (step.MarkFails? ==> FailedMarks in kinds)
    && (step.GiveUp? ==> GivingUp in kinds)
  }

  /** A run with no other faults than these. */
  ghost predicate Run(stream: seq<Message>, st: State, steps: seq<Step>, kinds: set<Kind>) {
    Reaches(stream, st, steps) && forall i :: 0 <= i < |steps| ==> Allowed(steps[i], kinds)
  }

  predicate SameDoc(a: Index, b: Index, doc: Doc) {
    (doc in a <==> doc in b) && (doc in a && doc in b ==> a[doc] == b[doc])
  }

  /** However such faults strike, a lane read to the end leaves the document as without them. */
  ghost predicate Tolerates(stream: seq<Message>, doc: Doc, kinds: set<Kind>) {
    forall st, steps :: Run(stream, st, steps, kinds) && st.pos == |stream| ==>
      SameDoc(st.index, FirstsApplied(stream), doc)
  }

  predicate IsFirst(stream: seq<Message>, k: nat)
    requires k < |stream|
  {
    stream[k].eventId !in IdsIn(stream[..k])
  }

  /** From number k on, no message that touches the document is new. */
  ghost predicate Past(stream: seq<Message>, doc: Doc, k: nat) {
    forall f: nat :: k <= f < |stream| && Touches(stream[f], doc) ==> !IsFirst(stream, f)
  }

  /** A copy after the last new message that touches the document, which would leave it in another state. */
  ghost predicate Stale(stream: seq<Message>, doc: Doc, c: nat) {
    && c < |stream| && Touches(stream[c], doc) && Past(stream, doc, c)
    && !IsAsLeftBy(FirstsApplied(stream), doc, stream[c])
  }

  predicate Puts(m: Message, doc: Doc) { ActionOf(m) == Put(doc) }

  // ---------------------------------------------------------------------------------------------
  // What the new messages do
  // ---------------------------------------------------------------------------------------------

  /** The last new message that touches the document decides. */
  lemma {:induction false} LastNewDecides(stream: seq<Message>, doc: Doc, k: nat, j: nat)
    requires k < j <= |stream| && IsFirst(stream, k) && Touches(stream[k], doc) && Past(stream, doc, k + 1)
    ensures IsAsLeftBy(FirstsApplied(stream[..j]), doc, stream[k])
    decreases j
  {
    IdsSnoc(stream, j - 1);
    AppliedLast(FirstsApplied(stream[..j - 1]), stream[j - 1], doc);
    hide FirstsApplied, IdsIn, Touches, ActionOf;
    if k < j - 1 {
      LastNewDecides(stream, doc, k, j - 1);
    }
  }

  lemma {:induction false} NoneNewIsAbsent(stream: seq<Message>, doc: Doc, j: nat)
    requires j <= |stream| && Past(stream, doc, 0)
    ensures doc !in FirstsApplied(stream[..j])
  {
    if j > 0 {
      NoneNewIsAbsent(stream, doc, j - 1);
      IdsSnoc(stream, j - 1);
      AppliedLast(FirstsApplied(stream[..j - 1]), stream[j - 1], doc);
    }
  }

  lemma {:induction false} NeverPutIsAbsent(stream: seq<Message>, doc: Doc, j: nat)
    requires j <= |stream| && forall c :: 0 <= c < |stream| ==> !Puts(stream[c], doc)
    ensures doc !in FirstsApplied(stream[..j])
  {
    if j > 0 {
      NeverPutIsAbsent(stream, doc, j - 1);
      IdsSnoc(stream, j - 1);
    }
  }

  // ---------------------------------------------------------------------------------------------
  // Lanes that stand the faults
  // ---------------------------------------------------------------------------------------------

  /** Without giving up, the consumer never moves on from a message that was not handled. */
  ghost predicate FaultInv(stream: seq<Message>, doc: Doc, st: State) {
    && st.offset == st.pos <= |stream|
    && st.processed <= IdsIn(if st.pos < |stream| then stream[..st.pos + 1] else stream)
    && (Past(stream, doc, st.pos) ==> SameDoc(st.index, FirstsApplied(stream), doc))
    && (Landed(stream, st) && Past(stream, doc, st.pos + 1) ==> SameDoc(st.index, FirstsApplied(stream), doc))
  }

  /** The message at hand has been applied at least once. */
  predicate Landed(stream: seq<Message>, st: State) {
    st.pos < |stream| && (st.pc.HandledIt? || st.pc.Committing? || stream[st.pos].eventId in st.processed)
  }

  lemma ApplyLands(stream: seq<Message>, doc: Doc, index: Index, k: nat)
    requires k < |stream| && Past(stream, doc, k + 1) && forall c: nat :: !Stale(stream, doc, c)
    requires Past(stream, doc, k) ==> SameDoc(index, FirstsApplied(stream), doc)
    ensures SameDoc(Apply(index, stream[k]), FirstsApplied(stream), doc)
  {
    AppliedLast(index, stream[k], doc);
    if Touches(stream[k], doc) {
      if IsFirst(stream, k) {
        LastNewDecides(stream, doc, k, |stream|);
        assert stream[..|stream|] == stream;
      } else {
        assert Past(stream, doc, k);
        assert !Stale(stream, doc, k);
      }
    }
    hide Apply, FirstsApplied, IdsIn, ActionOf;
  }

  lemma FaultInvHandles(stream: seq<Message>, doc: Doc, st: State, st': State)
    requires FaultInv(stream, doc, st) && st.pos < |stream| && forall c: nat :: !Stale(stream, doc, c)
    requires st'.processed == st.processed && st'.pos == st.pos && st'.offset == st.offset
    requires st'.index == Apply(st.index, stream[st.pos])
    ensures FaultInv(stream, doc, st')
  {
    hide Apply, FirstsApplied, IdsIn, ActionOf, SameDoc, Stale;
    if Past(stream, doc, st.pos + 1) {
      ApplyLands(stream, doc, st.index, st.pos);
    }
  }

  lemma FaultInvMarks(stream: seq<Message>, doc: Doc, st: State, st': State)
    requires FaultInv(stream, doc, st) && st.pos < |stream| && st.pc.HandledIt?
    requires st' == st.(pc := st'.pc, processed := st'.processed, high := st'.high)
    requires st'.processed == st.processed || st'.processed == st.processed + {stream[st.pos].eventId}
    ensures FaultInv(stream, doc, st')
  {
    IdsSnoc(stream, st.pos);
    hide FirstsApplied, IdsIn, SameDoc, Past;
  }

  /** A remembered message is a copy, unless it is the one at hand. */
  lemma RememberedIsCopy(stream: seq<Message>, k: nat, processed: set<string>)
    requires k < |stream| && processed <= IdsIn(stream[..k])
    ensures processed <= IdsIn(stream[..k + 1])
    ensures stream[k].eventId in processed ==> !IsFirst(stream, k)
  {
    IdsSnoc(stream, k);
    hide IdsIn;
  }

  lemma PastCopy(stream: seq<Message>, doc: Doc, k: nat)
    requires k < |stream| && !IsFirst(stream, k) && Past(stream, doc, k + 1)
    ensures Past(stream, doc, k)
  {
    hide IsFirst, Touches;
  }

  lemma FaultInvCommits(stream: seq<Message>, doc: Doc, st: State)
    requires FaultInv(stream, doc, st) && Enabled(stream, st, CommitOffset)
    ensures FaultInv(stream, doc, Next(stream, st, CommitOffset))
  {
    var k := st.pos + 1;
    assert stream[..|stream|] == stream;
    if k < |stream| {
      RememberedIsCopy(stream, k, st.processed);
      if stream[k].eventId in st.processed && Past(stream, doc, k + 1) {
        PastCopy(stream, doc, k);
      }
    }
    hide FirstsApplied, IdsIn, SameDoc, Past, IsFirst;
  }

  lemma StepKeepsFaultInv(stream: seq<Message>, doc: Doc, st: State, step: Step)
    requires FaultInv(stream, doc, st) && Enabled(stream, st, step) && !step.GiveUp?
    requires forall c: nat :: !Stale(stream, doc, c)
    ensures FaultInv(stream, doc, Next(stream, st, step))
  {
    match step
    case HandlerOk => FaultInvHandles(stream, doc, st, Next(stream, st, step));
    case HandlerFails(applied) =>
      if applied {
        FaultInvHandles(stream, doc, st, Next(stream, st, step));
      }
    case MarkOk => FaultInvMarks(stream, doc, st, Next(stream, st, step));
    case MarkFails => FaultInvMarks(stream, doc, st, Next(stream, st, step));
    case CommitOffset => FaultInvCommits(stream, doc, st);
    case _ => hide Apply, FirstsApplied, IdsIn, SameDoc, Past, Stale;
  }

  lemma {:induction false} RunKeepsFaultInv(stream: seq<Message>, doc: Doc, st: State, steps: seq<Step>,
                                            kinds: set<Kind>)
    requires Run(stream, st, steps, kinds) && GivingUp !in kinds && forall c: nat :: !Stale(stream, doc, c)
    ensures FaultInv(stream, doc, st)
    decreases |steps|
  {
    if steps == [] {
      if Past(stream, doc, 0) {
        NoneNewIsAbsent(stream, doc, |stream|);
        assert stream[..|stream|] == stream;
      }
    } else {
      var init, last := steps[..|steps| - 1], steps[|steps| - 1];
      var before :| Reaches(stream, before, init) && Enabled(stream, before, last) && st == Next(stream, before, last);
      hide FaultInv, Next, Stale, Enabled;
      RunKeepsFaultInv(stream, doc, before, init, kinds);
      StepKeepsFaultInv(stream, doc, before, last);
    }
  }

  lemma NeverPutStep(stream: seq<Message>, doc: Doc, st: State, step: Step)
    requires Enabled(stream, st, step) && doc !in st.index && forall c :: 0 <= c < |stream| ==> !Puts(stream[c], doc)
    ensures doc !in Next(stream, st, step).index
  {
    assert st.pos < |stream| ==> !Puts(stream[st.pos], doc);
    hide ActionOf;
  }

  lemma {:induction false} NeverPutStaysAbsent(stream: seq<Message>, doc: Doc, st: State, steps: seq<Step>)
    requires Reaches(stream, st, steps) && forall c :: 0 <= c < |stream| ==> !Puts(stream[c], doc)
    ensures doc !in st.index
    decreases |steps|
  {
    if steps != [] {
      var init, last := steps[..|steps| - 1], steps[|steps| - 1];
      var before :| Reaches(stream, before, init) && Enabled(stream, before, last) && st == Next(stream, before, last);
      hide Next, Enabled, Puts;
      NeverPutStaysAbsent(stream, doc, before, init);
      NeverPutStep(stream, doc, before, last);
    }
  }

  // ---------------------------------------------------------------------------------------------
  // Runs in which the faults strike
  // ---------------------------------------------------------------------------------------------

  lemma Take(stream: seq<Message>, st: State, steps: seq<Step>, step: Step, kinds: set<Kind>)
    returns (st': State, steps': seq<Step>)
    requires Run(stream, st, steps, kinds) && Enabled(stream, st, step) && Allowed(step, kinds)
    ensures st' == Next(stream, st, step) && Run(stream, st', steps', kinds)
  {
    steps' := steps + [step];
    st' := Next(stream, st, step);
    assert steps'[..|steps'| - 1] == steps;
    assert Reaches(stream, st, steps'[..|steps'| - 1]) && Enabled(stream, st, steps'[|steps'| - 1]);
  }

  /** Between two messages. */
  predicate Ready(st: State, pos: nat) { st.pc.Fetching? && st.pos == pos }

  lemma Skip(stream: seq<Message>, st: State, steps: seq<Step>, kinds: set<Kind>)
    returns (st': State, steps': seq<Step>)
    requires Run(stream, st, steps, kinds) && st.pc.Fetching? && st.pos < |stream|
    requires stream[st.pos].eventId in st.processed
    ensures Run(stream, st', steps', kinds) && Ready(st', st.pos + 1)
    ensures st'.index == st.index && st'.processed == st.processed
  {
    hide Run;
    st', steps' := Take(stream, st, steps, CheckSkips, kinds);
    st', steps' := Take(stream, st', steps', CommitOffset, kinds);
  }

  /** Handles the message at hand, with the given outcome of the check and of the mark. */
  lemma Handle(stream: seq<Message>, st: State, steps: seq<Step>, kinds: set<Kind>, check: Step, mark: Step)
    returns (st': State, steps': seq<Step>)
    requires Run(stream, st, steps, kinds) && st.pc.Fetching? && st.pos < |stream|
    requires check.CheckErrs? || (check.CheckPasses? && stream[st.pos].eventId !in st.processed)
    requires (mark.MarkOk? || mark.MarkFails?) && Allowed(check, kinds) && Allowed(mark, kinds)
    ensures Run(stream, st', steps', kinds) && Ready(st', st.pos + 1) && st'.index == Apply(st.index, stream[st.pos])
    ensures st'.processed == st.processed + if mark.MarkOk? then {stream[st.pos].eventId} else {}
  {
    hide Run, Apply;
    st', steps' := Take(stream, st, steps, check, kinds);
    st', steps' := Take(stream, st', steps', HandlerOk, kinds);
    st', steps' := Take(stream, st', steps', mark, kinds);
    st', steps' := Take(stream, st', steps', CommitOffset, kinds);
  }

  /** Every attempt fails; the last may have reached the engine. */
  lemma GivesUp(stream: seq<Message>, st: State, steps: seq<Step>, kinds: set<Kind>, applied: bool)
    returns (st': State, steps': seq<Step>)
    requires Run(stream, st, steps, kinds) && st.pc.Fetching? && st.pos < |stream| && GivingUp in kinds
    requires stream[st.pos].eventId !in st.processed
    ensures Run(stream, st', steps', kinds) && Ready(st', st.pos + 1) && st'.processed == st.processed
    ensures st'.index == if applied then Apply(st.index, stream[st.pos]) else st.index
  {
    hide Run, Apply;
    st', steps' := Take(stream, st, steps, CheckPasses, kinds);
    st', steps' := Take(stream, st', steps', HandlerFails(false), kinds);
    st', steps' := Take(stream, st', steps', HandlerFails(false), kinds);
    st', steps' := Take(stream, st', steps', GiveUp(applied), kinds);
  }

  /** What is remembered before number k if the faults keep this event from being remembered. */
  function Remembered(stream: seq<Message>, k: nat, kind: Kind, eventId: string): set<string>
    requires k <= |stream|
  {
    if kind == FailedChecks then IdsIn(stream[..k]) else IdsIn(stream[..k]) - {eventId}
  }

  /** Reads up to number c; if only a mark or a handler may fail, its event is left unremembered. */
  lemma {:induction false} ReadUpTo(stream: seq<Message>, c: nat, k: nat, kind: Kind)
    returns (st: State, steps: seq<Step>)
    requires k <= c < |stream|
    ensures Run(stream, st, steps, {kind}) && Ready(st, k)
    ensures st.processed == Remembered(stream, k, kind, stream[c].eventId)
  {
    hide Reaches, Apply, IdsIn;
    if k == 0 {
      st, steps := START, [];
      Start(stream, {kind});
    } else {
      var m := stream[k - 1];
      st, steps := ReadUpTo(stream, c, k - 1, kind);
      IdsSnoc(stream, k - 1);
      hide Run;
      if m.eventId in st.processed {
        st, steps := Skip(stream, st, steps, {kind});
      } else if m.eventId != stream[c].eventId || kind == FailedChecks {
        st, steps := Handle(stream, st, steps, {kind}, CheckPasses, MarkOk);
      } else if kind == FailedMarks {
        st, steps := Handle(stream, st, steps, {kind}, CheckPasses, MarkFails);
      } else {
        st, steps := GivesUp(stream, st, steps, {kind}, false);
      }
    }
  }

  lemma Start(stream: seq<Message>, kinds: set<Kind>)
    ensures Run(stream, START, [], kinds) && IdsIn(stream[..0]) == {}
  {
  }

  /** Reads up to number k without another fault; no new message touches the document any more. */
  lemma {:induction false} ReadOn(stream: seq<Message>, st0: State, steps0: seq<Step>, kinds: set<Kind>, doc: Doc,
                                  c: nat, k: nat)
    returns (st: State, steps: seq<Step>)
    requires c < k <= |stream| && Past(stream, doc, c + 1)
    requires Run(stream, st0, steps0, kinds) && Ready(st0, c + 1)
    requires st0.processed == IdsIn(stream[..c + 1]) && IsAsLeftBy(st0.index, doc, stream[c])
    ensures Run(stream, st, steps, kinds) && Ready(st, k)
    ensures st.processed == IdsIn(stream[..k]) && IsAsLeftBy(st.index, doc, stream[c])
    decreases k
  {
    hide Run, Apply, IdsIn, ActionOf, Touches;
    if k == c + 1 {
      st, steps := st0, steps0;
    } else {
      st, steps := ReadOn(stream, st0, steps0, kinds, doc, c, k - 1);
      IdsSnoc(stream, k - 1);
      if stream[k - 1].eventId in st.processed {
        st, steps := Skip(stream, st, steps, kinds);
      } else {
        AppliedLast(st.index, stream[k - 1], doc);
        st, steps := Handle(stream, st, steps, kinds, CheckPasses, MarkOk);
      }
    }
  }

  /**
   * Any one kind of fault is enough for any copy that touches the document, if nothing new touches it later:
   * the document is left as the copy leaves it.
   */
  lemma {:induction false} CopyWins(stream: seq<Message>, doc: Doc, c: nat, kind: Kind)
    returns (st: State, steps: seq<Step>)
    requires c < |stream| && Touches(stream[c], doc) && Past(stream, doc, c + 1)
    ensures Run(stream, st, steps, {kind}) && st.pos == |stream| && IsAsLeftBy(st.index, doc, stream[c])
  {
    hide Run, Apply, IdsIn, ActionOf, Past;
    st, steps := ReadUpTo(stream, c, c, kind);
    AppliedLast(st.index, stream[c], doc);
    IdsSnoc(stream, c);
    st, steps := Handle(stream, st, steps, {kind}, if kind == FailedChecks then CheckErrs else CheckPasses, MarkOk);
    st, steps := ReadOn(stream, st, steps, {kind}, doc, c, |stream|);
  }

  /** Gives up on everything; only number c reaches the engine. */
  lemma {:induction false} GivesUpOnAll(stream: seq<Message>, c: int, k: nat) returns (st: State, steps: seq<Step>)
    requires k <= |stream|
    ensures Run(stream, st, steps, {GivingUp}) && Ready(st, k) && st.processed == {}
    ensures st.index == if 0 <= c < k then Apply(map[], stream[c]) else map[]
  {
    hide Reaches, Apply;
    if k == 0 {
      st, steps := START, [];
      Start(stream, {GivingUp});
    } else {
      st, steps := GivesUpOnAll(stream, c, k - 1);
      hide Run;
      st, steps := GivesUp(stream, st, steps, {GivingUp}, k - 1 == c);
    }
  }

  // ---------------------------------------------------------------------------------------------
  // Exactly which lanes tolerate which faults
  // ---------------------------------------------------------------------------------------------

  lemma MoreKinds(stream: seq<Message>, st: State, steps: seq<Step>, kinds: set<Kind>, more: set<Kind>)
    requires Run(stream, st, steps, kinds) && kinds <= more
    ensures Run(stream, st, steps, more)
  {
    hide Reaches;
  }

  /**
   * A lane tolerates failed checks and failed marks, or either of them, exactly if no stale copy follows the
   * last new message about the document; and a handler that gives up exactly if nothing ever puts the document.
   */
  lemma {:induction false} ToleranceIsExact(stream: seq<Message>, doc: Doc, kinds: set<Kind>)
    ensures Tolerates(stream, doc, kinds) <==>
      || kinds == {}
      || (GivingUp !in kinds && forall c: nat :: !Stale(stream, doc, c))
      || (forall c :: 0 <= c < |stream| ==> !Puts(stream[c], doc))
  {
    hide Run, FirstsApplied, Puts, SameDoc, Stale;
    if kinds == {} {
      FaultFreeIsTolerated(stream, doc);
    } else if forall c :: 0 <= c < |stream| ==> !Puts(stream[c], doc) {
      NeverPutIsTolerated(stream, doc, kinds);
    } else if GivingUp in kinds {
      var c :| 0 <= c < |stream| && Puts(stream[c], doc);
      GivingUpShows(stream, doc, c, kinds);
    } else if c: nat :| Stale(stream, doc, c) {
      StaleShows(stream, doc, c, kinds);
    } else {
      NoStaleIsTolerated(stream, doc, kinds);
    }
  }

  lemma FaultFreeIsTolerated(stream: seq<Message>, doc: Doc)
    ensures Tolerates(stream, doc, {})
  {
    forall st, steps | Run(stream, st, steps, {}) && st.pos == |stream| ensures st.index == FirstsApplied(stream) {
      ReadToTheEnd(stream, st, steps);
    }
  }

  lemma NoStaleIsTolerated(stream: seq<Message>, doc: Doc, kinds: set<Kind>)
    requires GivingUp !in kinds && forall c: nat :: !Stale(stream, doc, c)
    ensures Tolerates(stream, doc, kinds)
  {
    hide Stale, SameDoc;
    forall st, steps | Run(stream, st, steps, kinds) && st.pos == |stream|
      ensures SameDoc(st.index, FirstsApplied(stream), doc)
    {
      RunKeepsFaultInv(stream, doc, st, steps, kinds);
      assert Past(stream, doc, |stream|);
    }
  }

  lemma NeverPutIsTolerated(stream: seq<Message>, doc: Doc, kinds: set<Kind>)
    requires forall c :: 0 <= c < |stream| ==> !Puts(stream[c], doc)
    ensures Tolerates(stream, doc, kinds)
  {
    hide Puts, FirstsApplied;
    NeverPutIsAbsent(stream, doc, |stream|);
    assert stream[..|stream|] == stream;
    forall st, steps | Run(stream, st, steps, kinds) ensures doc !in st.index {
      NeverPutStaysAbsent(stream, doc, st, steps);
    }
  }

  lemma StaleShows(stream: seq<Message>, doc: Doc, c: nat, kinds: set<Kind>)
    requires Stale(stream, doc, c) && kinds != {}
    ensures !Tolerates(stream, doc, kinds)
  {
    var kind :| kind in kinds;
    hide Run, FirstsApplied, ActionOf;
    var st, steps := CopyWins(stream, doc, c, kind);
    MoreKinds(stream, st, steps, {kind}, kinds);
    assert !SameDoc(st.index, FirstsApplied(stream), doc);
  }

  /** With nothing applied the document is absent, with only the put applied it is there: one of them is wrong. */
  lemma GivingUpShows(stream: seq<Message>, doc: Doc, c: nat, kinds: set<Kind>)
    requires c < |stream| && Puts(stream[c], doc) && GivingUp in kinds
    ensures !Tolerates(stream, doc, kinds)
  {
    AppliedLast(map[], stream[c], doc);
    PutsShow(stream[c], doc);
    hide Run, FirstsApplied, ActionOf, Apply;
    var st, steps := GivesUpOnAll(stream, c, |stream|);
    MoreKinds(stream, st, steps, {GivingUp}, kinds);
    var none, steps' := GivesUpOnAll(stream, -1, |stream|);
    MoreKinds(stream, none, steps', {GivingUp}, kinds);
    assert doc in st.index && doc !in none.index;
  }

  lemma PutsShow(m: Message, doc: Doc)
    requires Puts(m, doc)
    ensures doc in Apply(map[], m)
  {
  }
}
