/**
 * Screenshot evidence from the tracker's queue to the server's rows. The tracker encrypts, writes the
 * blob, queues a row and then uploads: ask for a slot, put the ciphertext, confirm. Calls may be
 * served late or never, replies may be lost, and the tracker may stop anywhere. Cryptography is
 * symbolic: a ciphertext opens under exactly the key, nonce and associated data it was sealed with.
 */
module Screenshots {
  import opened Basics

  datatype Cipher = Sealed(dek: nat, nonce: nat, aad: string, image: string)

  datatype Digest = Sha256(cipher: Cipher)

  datatype WrappedDek = Wrapped(dek: nat)

  /** The device's signature over the confirm message. */
  datatype Signature = SignedByDevice(sha: Digest, nonce: nat, capturedAt: string, contract: string)

  function Open(dek: nat, nonce: nat, aad: string, c: Cipher): Option<string> {
    if c.dek == dek && c.nonce == nonce && c.aad == aad then Some(c.image) else None
  }

  function Aad(contract: string, capturedAt: string): string { contract + "|" + capturedAt }

  /** One capture: what the queue row and the blob are made from. */
  datatype Capture = Capture(
    contract: string, session: string, slice: string, capturedAt: string, image: string, dek: nat, nonce: nat)

  function CipherOf(c: Capture): Cipher { Sealed(c.dek, c.nonce, Aad(c.contract, c.capturedAt), c.image) }

  function SignatureOf(c: Capture): Signature {
    SignedByDevice(Sha256(CipherOf(c)), c.nonce, c.capturedAt, c.contract)
  }

  // ---------------------------------------------------------------------------------------------
  // The server
  // ---------------------------------------------------------------------------------------------

  /** A row with its metadata; owner is history: whose slot request created it. */
  datatype Row = Row(
    owner: nat, slice: string, contract: string, session: string, capturedAt: string, key: nat, wrappedDek: WrappedDek,
    stored: bool, sha: Option<Digest>, nonce: Option<nat>)

  /** nextKey stands for the random suffix of object keys; events lists the rows announced as ingested. */
  datatype Server = Server(rows: seq<Row>, objects: map<nat, Cipher>, events: seq<nat>, nextKey: nat)

  const EMPTY := Server([], map[], [], 0)

  function FindSlice(rows: seq<Row>, slice: string): (found: Option<nat>)
    ensures found.Some? ==> found.value < |rows| && rows[found.value].slice == slice
    ensures found.None? ==> forall i :: 0 <= i < |rows| ==> rows[i].slice != slice
  {
    if rows == [] then None
    else
      var n := |rows| - 1;
      var earlier := FindSlice(rows[..n], slice);
      if earlier.Some? then earlier else if rows[n].slice == slice then Some(n) else None
  }

  function NewRow(owner: nat, c: Capture, key: nat): Row {
    Row(owner, c.slice, c.contract, c.session, c.capturedAt, key, Wrapped(c.dek), false, None, None)
  }

  /** RequestUploadSlot: the slice's row and its own key, or a new row with the candidate key. */
  function RequestSlot(sv: Server, owner: nat, c: Capture): (r: (Server, nat))
    ensures r.1 < |r.0.rows|
  {
    var candidate := sv.nextKey;
    match FindSlice(sv.rows, c.slice)
    case Some(ss) => (sv.(nextKey := candidate + 1), ss)
    case None =>
      (sv.(nextKey := candidate + 1,
           rows := sv.rows + [NewRow(owner, c, candidate)]),
       |sv.rows|)
  }

  /** ConfirmUpload: the signature is checked against the row, then the guarded update stores it. */
  function Confirm(sv: Server, ss: nat, sha: Digest, nonce: nat, sig: Signature): (Server, bool) {
    if ss >= |sv.rows| then (sv, false)
    else
      var row := sv.rows[ss];
      if sig != SignedByDevice(sha, nonce, row.capturedAt, row.contract) || row.stored then (sv, false)
      else
        (sv.(rows := sv.rows[ss := row.(stored := true, sha := Some(sha), nonce := Some(nonce))],
             events := sv.events + [ss]),
         true)
  }

  /**
   * A confirm is accepted exactly for a pending row, under the device's signature over this digest and nonce and the
   * row's own time and contract.
   */
  lemma ConfirmsAreSigned(sv: Server, ss: nat, sha: Digest, nonce: nat, sig: Signature)
    ensures var (after, ok) := Confirm(sv, ss, sha, nonce, sig);
      && (ok <==> ss < |sv.rows| && !sv.rows[ss].stored
                  && sig == SignedByDevice(sha, nonce, sv.rows[ss].capturedAt, sv.rows[ss].contract))
      && (!ok ==> after == sv)
      && (ok ==>
            && after.rows == sv.rows[ss := sv.rows[ss].(stored := true, sha := Some(sha), nonce := Some(nonce))]
            && after.events == sv.events + [ss] && after.objects == sv.objects)
  {
  }

  /** A slice has one row: a further request gets that row, with its own key; only the first one makes one. */
  lemma SlicesHaveOneRow(sv: Server, owner: nat, c: Capture)
    requires forall i, j :: 0 <= i < j < |sv.rows| ==> sv.rows[i].slice != sv.rows[j].slice
    ensures var (after, ss) := RequestSlot(sv, owner, c);
      && after.objects == sv.objects && after.events == sv.events && after.nextKey == sv.nextKey + 1
      && (forall i :: 0 <= i < |sv.rows| && sv.rows[i].slice == c.slice ==> ss == i && after.rows == sv.rows)
      && ((forall i :: 0 <= i < |sv.rows| ==> sv.rows[i].slice != c.slice) ==>
            && ss == |sv.rows|
            && after.rows == sv.rows + [Row(owner, c.slice, c.contract, c.session, c.capturedAt, sv.nextKey,
                                            Wrapped(c.dek), false, None, None)])
  {
  }

  /** A ciphertext is bound to its contract and time, if contract ids contain no separator. */
  lemma ContextsAreBound(contract: string, at: string, contract': string, at': string)
    requires '|' !in contract && '|' !in contract'
    ensures Aad(contract, at) == Aad(contract', at') <==> contract == contract' && at == at'
  {
    if contract + "|" + at == contract' + "|" + at' {
      var both := contract + "|" + at;
      if |contract| < |contract'| {
        SeparatorInside(contract, at, contract', at');
      } else if |contract'| < |contract| {
        SeparatorInside(contract', at', contract, at);
      }
      assert contract == both[..|contract|] && contract' == both[..|contract'|];
      assert at == both[|contract| + 1..] && at' == both[|contract'| + 1..];
    }
  }

  lemma SeparatorInside(a: string, x: string, b: string, y: string)
    requires a + "|" + x == b + "|" + y && |a| < |b|
    ensures '|' in b
  {
    var s := a + "|" + x;
    assert s[|a|] == '|' && s[|a|] == b[|a|];
  }

  /** The screenshot tables, updated in place. */
  class Store {
    var rows: seq<Row>
    var events: seq<nat>
    var objects: map<nat, Cipher>
    var nextKey: nat

    constructor ()
      ensures Contents() == EMPTY
    {
      rows, events, objects, nextKey := [], [], map[], 0;
    }

    function Contents(): Server reads this { Server(rows, objects, events, nextKey) }

    method RequestUploadSlot(owner: nat, c: Capture) returns (ss: nat, key: nat)
      modifies this
      ensures (Contents(), ss) == RequestSlot(old(Contents()), owner, c)
      ensures ss < |rows| && key == rows[ss].key && rows[ss].slice == c.slice
    {
      var candidate := nextKey;
      nextKey := nextKey + 1;
      var existing := FindSlice(rows, c.slice);
      if existing.Some? {
        return existing.value, rows[existing.value].key;
      }
      ss, key := |rows|, candidate;
      rows := rows
        + [Row(owner, c.slice, c.contract, c.session, c.capturedAt, candidate, Wrapped(c.dek), false, None, None)];
    }

    method ConfirmUpload(ss: nat, sha: Digest, nonce: nat, sig: Signature) returns (ok: bool)
      modifies this
      ensures (Contents(), ok) == Confirm(old(Contents()), ss, sha, nonce, sig)
    {
      if ss >= |rows| {
        return false;
      }
      if sig != SignedByDevice(sha, nonce, rows[ss].capturedAt, rows[ss].contract) {
        return false;
      }
      if rows[ss].stored {
        return false;
      }
      rows := rows[ss := rows[ss].(stored := true)];
      rows := rows[ss := rows[ss].(sha := Some(sha), nonce := Some(nonce))];
      assert rows == old(rows)[ss := old(rows)[ss].(stored := true, sha := Some(sha), nonce := Some(nonce))];
      events := events + [ss];
      ok := true;
    }
  }

  // ---------------------------------------------------------------------------------------------
  // The tracker and the network
  // ---------------------------------------------------------------------------------------------

  datatype Stage = Queued | Slotted | Uploaded | Confirmed

  /** Calls on their way, each for one queue row. */
  datatype Call =
    | SlotCall(id: nat)
    | PutCall(id: nat, ss: nat, key: nat, cipher: Cipher)
    | ConfirmCall(id: nat, ss: nat, sha: Digest, nonce: nat, sig: Signature)

  datatype Reply =
    | SlotReply(id: nat, ss: nat, key: nat)
    | PutReply(id: nat, ss: nat)
    | ConfirmReply(id: nat, ss: nat, accepted: bool)

  /** Where process_screenshot is; n is the call it waits for. */
  datatype Pc =
    | AwaitSlot(n: nat)
    | GotSlot(ss: nat, key: nat)
    | AwaitPut(n: nat, ss: nat)
    | AwaitConfirm(n: nat, ss: nat)
    | Accepted(ss: nat)
    | MarkedConfirmed(ss: nat)
    | RowDeleted(ss: nat)

  datatype Work = Work(id: nat, pc: Pc)

  /** captures and enqueued are history: every blob ever written, every row ever queued. */
  datatype Sys = Sys(
    captures: map<nat, Capture>, enqueued: set<nat>, queue: map<nat, Stage>, blobs: map<nat, Cipher>,
    work: Option<Work>,
    server: Server, calls: map<nat, Call>, replies: map<nat, Reply>, next: nat)

  datatype Step =
    | WriteBlob(id: nat, capture: Capture)
    | Enqueue(id: nat)
    | Begin(id: nat)
    | ServeSlot(n: nat)
    | ReceiveSlot
    | StartPut
    | ServePut(n: nat)
    | ReceivePut
    | ServeConfirm(n: nat)
    | ReceiveConfirm
    | MarkConfirmed
    | DeleteRow
    | RemoveBlob
    | Drop

  const BOOT := Sys(map[], {}, map[], map[], None, EMPTY, map[], map[], 0)

  predicate Replied(s: Sys) {
    && s.work.Some? && (s.work.value.pc.AwaitSlot? || s.work.value.pc.AwaitPut? || s.work.value.pc.AwaitConfirm?)
    && s.work.value.pc.n in s.replies
  }

  ghost predicate Enabled(s: Sys, step: Step) {
    match step
    case WriteBlob(id, c) => id !in s.captures && forall k :: k in s.captures ==> s.captures[k].slice != c.slice
    case Enqueue(id) => id in s.captures && id !in s.enqueued
    case Begin(id) => s.work.None? && id in s.queue && s.queue[id] != Confirmed
    case ServeSlot(n) => n in s.calls && s.calls[n].SlotCall? && s.calls[n].id in s.captures
    case ServePut(n) => n in s.calls && s.calls[n].PutCall?
    case ServeConfirm(n) => n in s.calls && s.calls[n].ConfirmCall?
    case ReceiveSlot =>
      Replied(s) && s.work.value.pc.AwaitSlot? && s.replies[s.work.value.pc.n].SlotReply? && s.work.value.id in s.queue
    case StartPut => s.work.Some? && s.work.value.pc.GotSlot? && s.work.value.id in s.blobs
    case ReceivePut =>
      && Replied(s) && s.work.value.pc.AwaitPut? && s.replies[s.work.value.pc.n].PutReply?
      && s.work.value.id in s.queue && s.work.value.id in s.captures
    case ReceiveConfirm => Replied(s) && s.work.value.pc.AwaitConfirm? && s.replies[s.work.value.pc.n].ConfirmReply?
    case MarkConfirmed => s.work.Some? && s.work.value.pc.Accepted?
    case DeleteRow => s.work.Some? && s.work.value.pc.MarkedConfirmed?
    case RemoveBlob => s.work.Some? && s.work.value.pc.RowDeleted?
    case Drop => s.work.Some?
  }

  function Served(s: Sys, n: nat, server: Server, reply: Reply): Sys {
    s.(server := server, calls := s.calls - {n}, replies := s.replies[n := reply])
  }

  function Next(s: Sys, step: Step): Sys
    requires Enabled(s, step)
  {
    match step
    case WriteBlob(id, c) => s.(captures := s.captures[id := c], blobs := s.blobs[id := CipherOf(c)])
    case Enqueue(id) => s.(enqueued := s.enqueued + {id}, queue := s.queue[id := Queued])
    case Begin(id) =>
      s.(calls := s.calls[s.next := SlotCall(id)], next := s.next + 1, work := Some(Work(id, AwaitSlot(s.next))))
    case ServeSlot(n) =>
      var id := s.calls[n].id;
      var (server, ss) := RequestSlot(s.server, id, s.captures[id]);
      Served(s, n, server, SlotReply(id, ss, server.rows[ss].key))
    case ReceiveSlot =>
      var w := s.work.value;
      var r := s.replies[w.pc.n];
      s.(queue := if s.queue[w.id].Queued? then s.queue[w.id := Slotted] else s.queue,
         work := Some(Work(w.id, GotSlot(r.ss, r.key))))
    case StartPut =>
      var w := s.work.value;
      s.(calls := s.calls[s.next := PutCall(w.id, w.pc.ss, w.pc.key, s.blobs[w.id])], next := s.next + 1,
         work := Some(Work(w.id, AwaitPut(s.next, w.pc.ss))))
    case ServePut(n) =>
      var c := s.calls[n];
      Served(s, n, s.server.(objects := s.server.objects[c.key := c.cipher]), PutReply(c.id, c.ss))
    case ReceivePut =>
      var w := s.work.value;
      var c := s.captures[w.id];
      s.(queue := s.queue[w.id := Uploaded], next := s.next + 1,
         work := Some(Work(w.id, AwaitConfirm(s.next, w.pc.ss))),
         calls := s.calls[s.next := ConfirmCall(w.id, w.pc.ss, Sha256(CipherOf(c)), c.nonce, SignatureOf(c))])
    case ServeConfirm(n) =>
      var c := s.calls[n];
      var (server, ok) := Confirm(s.server, c.ss, c.sha, c.nonce, c.sig);
      Served(s, n, server, ConfirmReply(c.id, c.ss, ok))
    case ReceiveConfirm =>
      var w := s.work.value;
      s.(work := if s.replies[w.pc.n].accepted then Some(Work(w.id, Accepted(w.pc.ss))) else None)
    case MarkConfirmed =>
      var w := s.work.value;
      s.(queue := s.queue[w.id := Confirmed], work := Some(Work(w.id, MarkedConfirmed(w.pc.ss))))
    case DeleteRow =>
      var w := s.work.value;
      s.(queue := s.queue - {w.id}, work := Some(Work(w.id, RowDeleted(w.pc.ss))))
    case RemoveBlob => s.(blobs := s.blobs - {s.work.value.id}, work := None)
    case Drop => s.(work := None)
  }

  // ---------------------------------------------------------------------------------------------
  // The invariant
  // ---------------------------------------------------------------------------------------------

  /** Row ss was made for this capture. */
  ghost predicate RowFor(s: Sys, ss: nat, id: nat) {
    && ss < |s.server.rows| && id in s.captures && id in s.enqueued
    && (var row, c := s.server.rows[ss], s.captures[id];
        && row.owner == id && row.slice == c.slice && row.contract == c.contract && row.session == c.session
        && row.capturedAt == c.capturedAt && row.wrappedDek == Wrapped(c.dek))
  }

  /** The evidence of the capture is on the server. */
  ghost predicate Safe(s: Sys, id: nat) {
    exists ss :: 0 <= ss < |s.server.rows| && s.server.rows[ss].owner == id && s.server.rows[ss].stored
  }

  ghost predicate HasObject(s: Sys, ss: nat) { ss < |s.server.rows| && s.server.rows[ss].key in s.server.objects }

  ghost predicate RowOk(s: Sys, ss: nat)
    requires ss < |s.server.rows|
  {
    var row := s.server.rows[ss];
    && RowFor(s, ss, row.owner) && row.key < s.server.nextKey
    && (row.key in s.server.objects ==> s.server.objects[row.key] == CipherOf(s.captures[row.owner]))
    && (row.stored ==>
          && row.key in s.server.objects
          && row.nonce == Some(s.captures[row.owner].nonce) && row.sha == Some(Sha256(CipherOf(s.captures[row.owner]))))
  }

  function Announced(events: seq<nat>, ss: nat): nat {
    if events == [] then 0
    else Announced(events[..|events| - 1], ss) + if events[|events| - 1] == ss then 1 else 0
  }

  ghost predicate ServerOk(s: Sys) {
    && (forall ss :: 0 <= ss < |s.server.rows| ==> RowOk(s, ss))
    && (forall a, b :: 0 <= a < b < |s.server.rows| ==>
          s.server.rows[a].slice != s.server.rows[b].slice && s.server.rows[a].key != s.server.rows[b].key)
    && (forall k :: k in s.server.objects ==> k < s.server.nextKey)
    && (forall ss: nat ::
          Announced(s.server.events, ss) == if ss < |s.server.rows| && s.server.rows[ss].stored then 1 else 0)
  }

  ghost predicate CallOk(s: Sys, c: Call) {
    match c
    case SlotCall(id) => id in s.captures && id in s.enqueued
    case PutCall(id, ss, key, cipher) =>
      RowFor(s, ss, id) && s.server.rows[ss].key == key && cipher == CipherOf(s.captures[id])
    case ConfirmCall(id, ss, sha, nonce, sig) =>
      && RowFor(s, ss, id) && HasObject(s, ss)
      && sha == Sha256(CipherOf(s.captures[id])) && nonce == s.captures[id].nonce && sig == SignatureOf(s.captures[id])
  }

  ghost predicate ReplyOk(s: Sys, r: Reply) {
    match r
    case SlotReply(id, ss, key) => RowFor(s, ss, id) && s.server.rows[ss].key == key
    case PutReply(id, ss) => RowFor(s, ss, id) && HasObject(s, ss)
    case ConfirmReply(id, ss, accepted) => RowFor(s, ss, id) && (accepted ==> s.server.rows[ss].stored)
  }

  ghost predicate WireOk(s: Sys) {
    && (forall n :: n in s.calls ==> n < s.next && CallOk(s, s.calls[n]))
    && (forall n :: n in s.replies ==> n < s.next && ReplyOk(s, s.replies[n]))
  }

  /** The call or the reply the tracker waits for is about its row and its slot. */
  ghost predicate Expected(s: Sys, w: Work) {
    match w.pc
    case AwaitSlot(n) =>
      && n < s.next
      && (n in s.calls ==> s.calls[n].id == w.id)
      && (n in s.replies ==> s.replies[n].id == w.id)
    case AwaitPut(n, ss) =>
      && n < s.next
      && (n in s.calls ==> s.calls[n].PutCall? && s.calls[n].id == w.id && s.calls[n].ss == ss)
      && (n in s.replies ==> s.replies[n].PutReply? && s.replies[n].id == w.id && s.replies[n].ss == ss)
    case AwaitConfirm(n, ss) =>
      && n < s.next
      && (n in s.calls ==> s.calls[n].ConfirmCall? && s.calls[n].id == w.id && s.calls[n].ss == ss)
      && (n in s.replies ==> s.replies[n].ConfirmReply? && s.replies[n].id == w.id && s.replies[n].ss == ss)
    case _ => true
  }

  ghost predicate WorkOk(s: Sys) {
    s.work.Some? ==>
      var w := s.work.value;
      && w.id in s.enqueued && w.id in s.captures && Expected(s, w)
      && (w.pc.GotSlot? ==> RowFor(s, w.pc.ss, w.id) && s.server.rows[w.pc.ss].key == w.pc.key)
      && (!w.pc.AwaitSlot? && !w.pc.GotSlot? ==> RowFor(s, w.pc.ss, w.id))
      && (w.pc.Accepted? || w.pc.MarkedConfirmed? || w.pc.RowDeleted? ==> s.server.rows[w.pc.ss].stored)
      && (w.pc.RowDeleted? <==> w.id !in s.queue)
      && (w.id in s.queue ==> (w.pc.MarkedConfirmed? <==> s.queue[w.id].Confirmed?))
  }

  /** What leaves the queue, and what leaves the disk, is on the server. */
  ghost predicate NothingLost(s: Sys) {
    && (forall id :: id in s.enqueued ==>
          id in s.captures && (id !in s.queue || s.queue[id].Confirmed? ==> Safe(s, id)))
    && (forall id :: id in s.queue ==> id in s.enqueued)
    && (forall id :: id in s.enqueued && id !in s.blobs ==> id !in s.queue && Safe(s, id))
    && (forall id :: id in s.blobs ==> id in s.captures && s.blobs[id] == CipherOf(s.captures[id]))
    && (forall id :: id in s.captures && id !in s.enqueued ==> id in s.blobs)
  }

  ghost predicate SlicesDistinct(s: Sys) {
    forall i, j :: i in s.captures && j in s.captures && i != j ==> s.captures[i].slice != s.captures[j].slice
  }

  ghost predicate SysInv(s: Sys) {
    SlicesDistinct(s) && ServerOk(s) && WireOk(s) && WorkOk(s) && NothingLost(s)
  }

  // ---------------------------------------------------------------------------------------------
  // What later states keep
  // ---------------------------------------------------------------------------------------------

  /** Captures, rows and objects are never taken back. */
  ghost predicate Grows(s: Sys, s': Sys) {
    && (forall id :: id in s.captures ==> id in s'.captures && s'.captures[id] == s.captures[id])
    && s.enqueued <= s'.enqueued && s.next <= s'.next
    && |s.server.rows| <= |s'.server.rows|
    && (forall ss :: 0 <= ss < |s.server.rows| ==>
          && s'.server.rows[ss] == s.server.rows[ss].(stored := s'.server.rows[ss].stored,
               sha := s'.server.rows[ss].sha, nonce := s'.server.rows[ss].nonce)
          && (s.server.rows[ss].stored ==> s'.server.rows[ss].stored))
    && (forall k :: k in s.server.objects ==> k in s'.server.objects)
  }

  lemma RowForStays(s: Sys, s': Sys, ss: nat, id: nat)
    requires Grows(s, s') && RowFor(s, ss, id)
    ensures RowFor(s', ss, id) && s'.server.rows[ss].key == s.server.rows[ss].key
    ensures HasObject(s, ss) ==> HasObject(s', ss)
    ensures s.server.rows[ss].stored ==> s'.server.rows[ss].stored
  {
  }

  lemma CallStays(s: Sys, s': Sys, c: Call)
    requires Grows(s, s') && CallOk(s, c)
    ensures CallOk(s', c)
  {
    if !c.SlotCall? {
      RowForStays(s, s', c.ss, c.id);
    }
    hide Grows;
    assert c.id in s.captures;
    SameCapture(s, s', c.id);
  }

  lemma SameCapture(s: Sys, s': Sys, id: nat)
    requires Grows(s, s') && id in s.captures
    ensures id in s'.captures && s'.captures[id] == s.captures[id]
    ensures id in s.enqueued ==> id in s'.enqueued
  {
  }

  lemma ReplyStays(s: Sys, s': Sys, r: Reply)
    requires Grows(s, s') && ReplyOk(s, r)
    ensures ReplyOk(s', r)
  {
    RowForStays(s, s', r.ss, r.id);
    hide Grows, RowFor;
  }

  lemma SafeStays(s: Sys, s': Sys, id: nat)
    requires Grows(s, s') && Safe(s, id)
    ensures Safe(s', id)
  {
    var ss :| 0 <= ss < |s.server.rows| && s.server.rows[ss].owner == id && s.server.rows[ss].stored;
    assert s'.server.rows[ss].owner == id && s'.server.rows[ss].stored;
  }

  lemma ServerStays(s: Sys, s': Sys)
    requires ServerOk(s) && Grows(s, s') && s'.server == s.server
    ensures ServerOk(s')
  {
    forall ss | 0 <= ss < |s.server.rows| ensures RowOk(s', ss) {
      assert RowOk(s, ss);
      RowForStays(s, s', ss, s.server.rows[ss].owner);
    }
    hide RowOk;
  }

  lemma WireStays(s: Sys, s': Sys)
    requires WireOk(s) && Grows(s, s')
    requires forall n :: n in s'.calls ==>
      (n in s.calls && s'.calls[n] == s.calls[n]) || (n < s'.next && CallOk(s', s'.calls[n]))
    requires forall n :: n in s'.replies ==>
      (n in s.replies && s'.replies[n] == s.replies[n]) || (n < s'.next && ReplyOk(s', s'.replies[n]))
    ensures WireOk(s')
  {
    forall n | n in s'.calls ensures n < s'.next && CallOk(s', s'.calls[n]) {
      if n in s.calls && s'.calls[n] == s.calls[n] {
        CallStays(s, s', s.calls[n]);
      }
    }
    forall n | n in s'.replies ensures n < s'.next && ReplyOk(s', s'.replies[n]) {
      if n in s.replies && s'.replies[n] == s.replies[n] {
        ReplyStays(s, s', s.replies[n]);
      }
    }
  }

  /** Queue, blobs and captures are as before, or gain entries that are accounted for. */
  lemma NothingLostStays(s: Sys, s': Sys)
    requires NothingLost(s) && Grows(s, s')
    requires s'.captures == s.captures && s'.enqueued == s.enqueued && s'.blobs == s.blobs
    requires s'.queue.Keys == s.queue.Keys
    requires forall id :: id in s.queue && s'.queue[id].Confirmed? ==> s.queue[id].Confirmed?
    ensures NothingLost(s')
  {
    forall id | id in s.enqueued && Safe(s, id) ensures Safe(s', id) { SafeStays(s, s', id); }
    hide Safe, Grows;
  }

  // ---------------------------------------------------------------------------------------------
  // Each step keeps the invariant
  // ---------------------------------------------------------------------------------------------

  /** The work goes on undisturbed. */
  lemma WorkStays(s: Sys, s': Sys)
    requires WorkOk(s) && Grows(s, s') && s'.work == s.work
    requires s'.calls == s.calls && s'.replies == s.replies
    requires forall id :: id in s.enqueued ==>
      (id in s'.queue <==> id in s.queue) && (id in s.queue ==> s'.queue[id] == s.queue[id])
    ensures WorkOk(s')
  {
    if s.work.Some? {
      var w := s.work.value;
      SameCapture(s, s', w.id);
      if !w.pc.AwaitSlot? {
        RowForStays(s, s', w.pc.ss, w.id);
      }
      hide Grows, RowFor;
    }
  }

  lemma WriteBlobLosesNothing(s: Sys, id: nat, c: Capture)
    requires NothingLost(s) && Enabled(s, WriteBlob(id, c))
    ensures NothingLost(Next(s, WriteBlob(id, c)))
  {
    var s' := Next(s, WriteBlob(id, c));
    forall k ensures Safe(s', k) <==> Safe(s, k) { SafeDependsOnServer(s, s', k); }
    hide Safe, CipherOf;
  }

  lemma EnqueueLosesNothing(s: Sys, id: nat)
    requires NothingLost(s) && Enabled(s, Enqueue(id))
    ensures NothingLost(Next(s, Enqueue(id)))
  {
    var s' := Next(s, Enqueue(id));
    forall k ensures Safe(s', k) <==> Safe(s, k) { SafeDependsOnServer(s, s', k); }
    hide Safe, CipherOf;
  }

  lemma CaptureKeepsInv(s: Sys, step: Step)
    requires SysInv(s) && Enabled(s, step) && (step.WriteBlob? || step.Enqueue?)
    ensures SysInv(Next(s, step))
  {
    hide ServerOk, WireOk, WorkOk, NothingLost;
    var s' := Next(s, step);
    ServerStays(s, s');
    WireStays(s, s');
    WorkStays(s, s');
    hide Grows;
    if step.WriteBlob? {
      WriteBlobLosesNothing(s, step.id, step.capture);
    } else {
      EnqueueLosesNothing(s, step.id);
    }
  }

  /** The tracker moves on; the server and the captures are as before. */
  ghost predicate TrackerMoves(s: Sys, s': Sys) {
    && s'.captures == s.captures && s'.enqueued == s.enqueued && s'.server == s.server && s'.replies == s.replies
    && s.next <= s'.next
  }

  lemma TrackerKeepsInv(s: Sys, s': Sys)
    requires SysInv(s) && TrackerMoves(s, s') && WorkOk(s') && NothingLost(s')
    requires forall n :: n in s'.calls ==>
      (n in s.calls && s'.calls[n] == s.calls[n]) || (n < s'.next && CallOk(s', s'.calls[n]))
    ensures SysInv(s')
  {
    hide ServerOk, WireOk, WorkOk, NothingLost, CallOk, ReplyOk;
    assert Grows(s, s');
    hide Grows;
    ServerStays(s, s');
    WireStays(s, s');
  }

  lemma NextIsNew(s: Sys)
    requires WireOk(s)
    ensures s.next !in s.calls && s.next !in s.replies
  {
    hide CallOk, ReplyOk;
  }

  lemma BeginKeepsWork(s: Sys, id: nat)
    requires Enabled(s, Begin(id)) && id in s.enqueued && id in s.captures && s.next !in s.replies
    ensures WorkOk(Next(s, Begin(id)))
    ensures CallOk(Next(s, Begin(id)), SlotCall(id))
  {
  }

  lemma ReceiveSlotKeepsWork(s: Sys)
    requires WireOk(s) && WorkOk(s) && Enabled(s, ReceiveSlot)
    ensures WorkOk(Next(s, ReceiveSlot))
  {
    assert ReplyOk(s, s.replies[s.work.value.pc.n]);
    hide WireOk;
  }

  lemma StartPutKeepsWork(s: Sys)
    requires WorkOk(s) && Enabled(s, StartPut) && s.next !in s.replies
    requires s.work.value.id in s.captures ==> s.blobs[s.work.value.id] == CipherOf(s.captures[s.work.value.id])
    ensures WorkOk(Next(s, StartPut))
    ensures var w := s.work.value; CallOk(Next(s, StartPut), PutCall(w.id, w.pc.ss, w.pc.key, s.blobs[w.id]))
  {
    var w := s.work.value;
    assert RowFor(Next(s, StartPut), w.pc.ss, w.id);
    hide CipherOf;
  }

  lemma ReceivePutKeepsWork(s: Sys)
    requires WireOk(s) && WorkOk(s) && Enabled(s, ReceivePut) && s.next !in s.replies
    ensures WorkOk(Next(s, ReceivePut))
    ensures var w, c := s.work.value, s.captures[s.work.value.id];
      CallOk(Next(s, ReceivePut), ConfirmCall(w.id, w.pc.ss, Sha256(CipherOf(c)), c.nonce, SignatureOf(c)))
  {
    assert ReplyOk(s, s.replies[s.work.value.pc.n]);
    hide WireOk, CipherOf, SignatureOf;
    var w := s.work.value;
    assert RowFor(Next(s, ReceivePut), w.pc.ss, w.id);
  }

  lemma ReceiveConfirmKeepsWork(s: Sys)
    requires WireOk(s) && WorkOk(s) && Enabled(s, ReceiveConfirm)
    ensures WorkOk(Next(s, ReceiveConfirm))
  {
    var r := s.replies[s.work.value.pc.n];
    assert ReplyOk(s, r);
    hide WireOk;
    var s', w := Next(s, ReceiveConfirm), s.work.value;
    if r.accepted {
      assert RowFor(s', w.pc.ss, w.id);
      hide RowFor;
    }
  }

  lemma CleanupKeepsWork(s: Sys, step: Step)
    requires WorkOk(s) && Enabled(s, step) && (step.MarkConfirmed? || step.DeleteRow? || step.RemoveBlob? || step.Drop?)
    ensures WorkOk(Next(s, step))
  {
    if step.MarkConfirmed? || step.DeleteRow? {
      assert RowFor(Next(s, step), s.work.value.pc.ss, s.work.value.id);
      hide RowFor;
    }
  }

  lemma StoredIsSafe(s: Sys, ss: nat, id: nat)
    requires RowFor(s, ss, id) && s.server.rows[ss].stored
    ensures Safe(s, id)
  {
  }

  lemma SafeDependsOnServer(s: Sys, s': Sys, id: nat)
    requires s'.server == s.server
    ensures Safe(s', id) <==> Safe(s, id)
  {
  }

  /** A capture that is safe may leave the queue, and the disk once it has left the queue. */
  lemma SafeMayLeave(s: Sys, s': Sys, id: nat)
    requires NothingLost(s) && Safe(s, id) && id in s.enqueued
    requires s'.server == s.server && s'.captures == s.captures && s'.enqueued == s.enqueued
    requires
      || (s'.queue == s.queue && s'.blobs == s.blobs)
      || (s'.queue == s.queue[id := Confirmed] && s'.blobs == s.blobs && id in s.queue)
      || (s'.queue == s.queue - {id} && s'.blobs == s.blobs)
      || (s'.queue == s.queue && s'.blobs == s.blobs - {id} && id !in s.queue)
    ensures NothingLost(s')
  {
    forall k ensures Safe(s', k) <==> Safe(s, k) { SafeDependsOnServer(s, s', k); }
    hide Safe, CipherOf;
  }

  lemma CleanupLosesNothing(s: Sys, step: Step)
    requires NothingLost(s) && WorkOk(s)
    requires Enabled(s, step) && (step.MarkConfirmed? || step.DeleteRow? || step.RemoveBlob?)
    ensures NothingLost(Next(s, step))
  {
    var w := s.work.value;
    StoredIsSafe(s, w.pc.ss, w.id);
    hide NothingLost, Safe, RowFor, Expected;
    SafeMayLeave(s, Next(s, step), w.id);
  }

  lemma TrackerStepKeepsInv(s: Sys, step: Step)
    requires SysInv(s) && Enabled(s, step)
    requires step.Begin? || step.ReceiveSlot? || step.StartPut? || step.ReceivePut? || step.ReceiveConfirm?
    ensures SysInv(Next(s, step))
  {
    hide ServerOk, WireOk, WorkOk, NothingLost, CallOk, Grows;
    var s' := Next(s, step);
    NextIsNew(s);
    assert Grows(s, s') by { SameServerGrows(s, s'); }
    NothingLostStays(s, s');
    QueueIsCaptured(s);
    match step
    case Begin(id) => BeginKeepsWork(s, id); TrackerKeepsInv(s, s');
    case ReceiveSlot => ReceiveSlotKeepsWork(s); TrackerKeepsInv(s, s');
    case StartPut => StartPutKeepsWork(s); TrackerKeepsInv(s, s');
    case ReceivePut => ReceivePutKeepsWork(s); TrackerKeepsInv(s, s');
    case ReceiveConfirm => ReceiveConfirmKeepsWork(s); TrackerKeepsInv(s, s');
  }

  lemma SameServerGrows(s: Sys, s': Sys)
    requires s'.captures == s.captures && s'.enqueued == s.enqueued && s'.server == s.server && s.next <= s'.next
    ensures Grows(s, s')
  {
  }

  lemma QueueIsCaptured(s: Sys)
    requires NothingLost(s)
    ensures forall id :: id in s.queue ==> id in s.enqueued && id in s.captures
    ensures forall id :: id in s.blobs ==> id in s.captures && s.blobs[id] == CipherOf(s.captures[id])
  {
  }

  lemma CleanupKeepsInv(s: Sys, step: Step)
    requires SysInv(s) && Enabled(s, step) && (step.MarkConfirmed? || step.DeleteRow? || step.RemoveBlob? || step.Drop?)
    ensures SysInv(Next(s, step))
  {
    hide ServerOk, WireOk, WorkOk, NothingLost, CallOk, Grows;
    var s' := Next(s, step);
    CleanupKeepsWork(s, step);
    if step.Drop? {
      SameServerGrows(s, s');
      NothingLostStays(s, s');
    } else {
      CleanupLosesNothing(s, step);
    }
    TrackerKeepsInv(s, s');
  }

  /** The reply answers the call. */
  predicate Answers(c: Call, r: Reply) {
    match c
    case SlotCall(id) => r.SlotReply? && r.id == id
    case PutCall(id, ss, _, _) => r == PutReply(id, ss)
    case ConfirmCall(id, ss, _, _, _) => r.ConfirmReply? && r.id == id && r.ss == ss
  }

  lemma ServedWork(s: Sys, server: Server, n: nat, reply: Reply)
    requires WorkOk(s) && n in s.calls && Answers(s.calls[n], reply) && Grows(s, Served(s, n, server, reply))
    ensures WorkOk(Served(s, n, server, reply))
  {
    if s.work.Some? {
      var w, s' := s.work.value, Served(s, n, server, reply);
      if !w.pc.AwaitSlot? {
        RowForStays(s, s', w.pc.ss, w.id);
      }
      SameCapture(s, s', w.id);
      hide Grows, RowFor;
    }
  }

  lemma ServedKeepsInv(s: Sys, server: Server, n: nat, reply: Reply)
    requires SysInv(s) && n in s.calls && Answers(s.calls[n], reply)
    requires var s' := Served(s, n, server, reply); Grows(s, s') && ServerOk(s') && ReplyOk(s', reply)
    ensures SysInv(Served(s, n, server, reply))
  {
    var s' := Served(s, n, server, reply);
    assert n < s.next by { hide ServerOk, WorkOk, NothingLost, CallOk, ReplyOk, Grows; }
    hide Grows, ServerOk, WireOk, WorkOk, NothingLost, CallOk, ReplyOk, Answers;
    ServedWork(s, server, n, reply);
    NothingLostStays(s, s');
    WireStays(s, s');
  }

  lemma SlotGrows(s: Sys, n: nat)
    requires Enabled(s, ServeSlot(n))
    ensures Grows(s, Next(s, ServeSlot(n)))
  {
  }

  /** A slot for the same slice is the slot of the same capture. */
  lemma SliceNamesOwner(s: Sys, ss: nat, id: nat)
    requires ServerOk(s) && SlicesDistinct(s) && ss < |s.server.rows| && id in s.captures
    requires s.server.rows[ss].slice == s.captures[id].slice
    ensures RowFor(s, ss, id)
  {
    assert RowOk(s, ss);
  }

  lemma NoObjectYet(s: Sys)
    requires ServerOk(s)
    ensures s.server.nextKey !in s.server.objects
    ensures forall ss :: 0 <= ss < |s.server.rows| ==> s.server.rows[ss].key < s.server.nextKey
  {
    forall ss | 0 <= ss < |s.server.rows| ensures s.server.rows[ss].key < s.server.nextKey { assert RowOk(s, ss); }
  }

  lemma SlotKeepsServer(s: Sys, n: nat)
    requires ServerOk(s) && SlicesDistinct(s) && Enabled(s, ServeSlot(n)) && CallOk(s, s.calls[n])
    ensures ServerOk(Next(s, ServeSlot(n)))
  {
    var s', id := Next(s, ServeSlot(n)), s.calls[n].id;
    SlotGrows(s, n);
    NoObjectYet(s);
    forall ss | 0 <= ss < |s'.server.rows| ensures RowOk(s', ss) {
      if ss < |s.server.rows| {
        assert RowOk(s, ss);
        RowForStays(s, s', ss, s.server.rows[ss].owner);
      }
    }
    hide RowOk, Grows, SlicesDistinct;
  }

  lemma SlotReplyIsOk(s: Sys, n: nat)
    requires ServerOk(s) && SlicesDistinct(s) && Enabled(s, ServeSlot(n)) && CallOk(s, s.calls[n])
    ensures ReplyOk(Next(s, ServeSlot(n)), Next(s, ServeSlot(n)).replies[n])
  {
    var s', id := Next(s, ServeSlot(n)), s.calls[n].id;
    var found := FindSlice(s.server.rows, s.captures[id].slice);
    if found.Some? {
      SliceNamesOwner(s, found.value, id);
    }
    hide ServerOk, SlicesDistinct;
  }

  lemma ServeSlotKeepsInv(s: Sys, n: nat)
    requires SysInv(s) && Enabled(s, ServeSlot(n))
    ensures SysInv(Next(s, ServeSlot(n)))
  {
    assert CallOk(s, s.calls[n]) by { hide ServerOk, WorkOk, NothingLost; }
    hide ServerOk, WireOk, WorkOk, NothingLost, CallOk, ReplyOk, Grows;
    SlotGrows(s, n);
    SlotKeepsServer(s, n);
    SlotReplyIsOk(s, n);
    var id := s.calls[n].id;
    var (server, ss) := RequestSlot(s.server, id, s.captures[id]);
    ServedKeepsInv(s, server, n, SlotReply(id, ss, server.rows[ss].key));
  }

  lemma PutKeepsServer(s: Sys, n: nat)
    requires ServerOk(s) && Enabled(s, ServePut(n)) && CallOk(s, s.calls[n])
    ensures Grows(s, Next(s, ServePut(n))) && ServerOk(Next(s, ServePut(n)))
    ensures ReplyOk(Next(s, ServePut(n)), Next(s, ServePut(n)).replies[n])
  {
    var s', c := Next(s, ServePut(n)), s.calls[n];
    assert RowOk(s, c.ss);
    forall ss | 0 <= ss < |s'.server.rows| ensures RowOk(s', ss) {
      assert RowOk(s, ss);
      RowForStays(s, s', ss, s.server.rows[ss].owner);
    }
    hide RowOk;
  }

  lemma ServePutKeepsInv(s: Sys, n: nat)
    requires SysInv(s) && Enabled(s, ServePut(n))
    ensures SysInv(Next(s, ServePut(n)))
  {
    assert CallOk(s, s.calls[n]) by { hide ServerOk, WorkOk, NothingLost; }
    hide ServerOk, WireOk, WorkOk, NothingLost, CallOk, ReplyOk, Grows;
    PutKeepsServer(s, n);
    var c := s.calls[n];
    ServedKeepsInv(s, s.server.(objects := s.server.objects[c.key := c.cipher]), n, PutReply(c.id, c.ss));
  }

  lemma AnnouncedSnoc(events: seq<nat>, x: nat, ss: nat)
    ensures Announced(events + [x], ss) == Announced(events, ss) + if x == ss then 1 else 0
  {
    assert (events + [x])[..|events|] == events;
  }

  lemma ConfirmKeepsRows(s: Sys, n: nat)
    requires ServerOk(s) && Enabled(s, ServeConfirm(n)) && CallOk(s, s.calls[n])
    ensures Grows(s, Next(s, ServeConfirm(n)))
    ensures ReplyOk(Next(s, ServeConfirm(n)), Next(s, ServeConfirm(n)).replies[n])
    ensures forall ss :: 0 <= ss < |s.server.rows| ==> RowOk(Next(s, ServeConfirm(n)), ss)
  {
    hide Announced;
    var s', c := Next(s, ServeConfirm(n)), s.calls[n];
    assert RowOk(s, c.ss);
    forall ss | 0 <= ss < |s'.server.rows| ensures RowOk(s', ss) {
      assert RowOk(s, ss);
      RowForStays(s, s', ss, s.server.rows[ss].owner);
    }
  }

  /** A confirm announces exactly the row it stores. */
  lemma ConfirmAnnounces(sv: Server, ss: nat, sha: Digest, nonce: nat, sig: Signature, k: nat)
    requires forall j: nat :: Announced(sv.events, j) == if j < |sv.rows| && sv.rows[j].stored then 1 else 0
    ensures var after := Confirm(sv, ss, sha, nonce, sig).0;
      Announced(after.events, k) == if k < |after.rows| && after.rows[k].stored then 1 else 0
  {
    AnnouncedSnoc(sv.events, ss, k);
    hide Announced;
  }

  lemma ConfirmKeepsServer(s: Sys, n: nat)
    requires ServerOk(s) && Enabled(s, ServeConfirm(n)) && CallOk(s, s.calls[n])
    ensures Grows(s, Next(s, ServeConfirm(n))) && ServerOk(Next(s, ServeConfirm(n)))
    ensures ReplyOk(Next(s, ServeConfirm(n)), Next(s, ServeConfirm(n)).replies[n])
  {
    hide Announced, RowOk, CallOk, ReplyOk, Grows;
    var s', c := Next(s, ServeConfirm(n)), s.calls[n];
    ConfirmKeepsRows(s, n);
    forall k: nat
      ensures Announced(s'.server.events, k) == if k < |s'.server.rows| && s'.server.rows[k].stored then 1 else 0
    {
      ConfirmAnnounces(s.server, c.ss, c.sha, c.nonce, c.sig, k);
    }
  }

  lemma ServeConfirmKeepsInv(s: Sys, n: nat)
    requires SysInv(s) && Enabled(s, ServeConfirm(n))
    ensures SysInv(Next(s, ServeConfirm(n)))
  {
    assert CallOk(s, s.calls[n]) by { hide ServerOk, WorkOk, NothingLost; }
    hide ServerOk, WireOk, WorkOk, NothingLost, CallOk, ReplyOk, Grows;
    ConfirmKeepsServer(s, n);
    var c := s.calls[n];
    var (server, ok) := Confirm(s.server, c.ss, c.sha, c.nonce, c.sig);
    ServedKeepsInv(s, server, n, ConfirmReply(c.id, c.ss, ok));
  }

  lemma StepKeepsInv(s: Sys, step: Step)
    requires SysInv(s) && Enabled(s, step)
    ensures SysInv(Next(s, step))
  {
    hide *;
    match step
    case WriteBlob(_, _) => CaptureKeepsInv(s, step);
    case Enqueue(_) => CaptureKeepsInv(s, step);
    case ServeSlot(n) => ServeSlotKeepsInv(s, n);
    case ServePut(n) => ServePutKeepsInv(s, n);
    case ServeConfirm(n) => ServeConfirmKeepsInv(s, n);
    case MarkConfirmed => CleanupKeepsInv(s, step);
    case DeleteRow => CleanupKeepsInv(s, step);
    case RemoveBlob => CleanupKeepsInv(s, step);
    case Drop => CleanupKeepsInv(s, step);
    case _ => TrackerStepKeepsInv(s, step);
  }

  // ---------------------------------------------------------------------------------------------
  // Runs
  // ---------------------------------------------------------------------------------------------

  /** s is reached from an empty tracker and an empty server. */
  ghost predicate Reaches(s: Sys, steps: seq<Step>)
    decreases |steps|
  {
    if steps == [] then s == BOOT
    else
      var last := steps[|steps| - 1];
      exists before :: Reaches(before, steps[..|steps| - 1]) && Enabled(before, last) && s == Next(before, last)
  }

  lemma {:induction false} ReachableKeepsInv(s: Sys, steps: seq<Step>)
    requires Reaches(s, steps)
    ensures SysInv(s)
    decreases |steps|
  {
    if steps != [] {
      var init, last := steps[..|steps| - 1], steps[|steps| - 1];
      var before :| Reaches(before, init) && Enabled(before, last) && s == Next(before, last);
      ReachableKeepsInv(before, init);
      hide *;
      StepKeepsInv(before, last);
    }
  }

  /** At most one row per slice, and one ingested event per stored row and none otherwise. */
  lemma NoDoubleIngest(s: Sys, steps: seq<Step>, a: nat, b: nat)
    requires Reaches(s, steps) && a < |s.server.rows| && b < |s.server.rows|
    ensures s.server.rows[a].slice == s.server.rows[b].slice ==> a == b
    ensures Announced(s.server.events, a) == if s.server.rows[a].stored then 1 else 0
  {
    ReachableKeepsInv(s, steps);
    hide RowOk, WireOk, WorkOk, NothingLost;
  }

  /**
   * A stored row's object opens, under the key the row's wrapped key unwraps to, the row's nonce and
   * the row's own contract and time, to the image that was captured for its slice.
   */
  lemma StoredEvidenceDecrypts(s: Sys, steps: seq<Step>, ss: nat)
    requires Reaches(s, steps) && ss < |s.server.rows| && s.server.rows[ss].stored
    ensures var row := s.server.rows[ss];
      && row.key in s.server.objects && row.nonce.Some? && row.sha == Some(Sha256(s.server.objects[row.key]))
      && exists id :: id in s.captures && s.captures[id].slice == row.slice
           && Open(row.wrappedDek.dek, row.nonce.value, Aad(row.contract, row.capturedAt), s.server.objects[row.key])
              == Some(s.captures[id].image)
  {
    ReachableKeepsInv(s, steps);
    hide WireOk, WorkOk, NothingLost, SlicesDistinct;
    assert RowOk(s, ss);
    var row := s.server.rows[ss];
    assert row.owner in s.captures && s.captures[row.owner].slice == row.slice;
  }

  /** What has been queued and is no longer in the queue, or no longer on disk, is stored on the server. */
  lemma NothingIsLost(s: Sys, steps: seq<Step>, id: nat)
    requires Reaches(s, steps) && id in s.enqueued && (id !in s.queue || id !in s.blobs)
    ensures id in s.captures
    ensures exists ss ::
      0 <= ss < |s.server.rows| && s.server.rows[ss].stored && s.server.rows[ss].slice == s.captures[id].slice
  {
    ReachableKeepsInv(s, steps);
    hide WireOk, WorkOk, SlicesDistinct;
    assert Safe(s, id);
    var ss :| 0 <= ss < |s.server.rows| && s.server.rows[ss].owner == id && s.server.rows[ss].stored;
    assert RowOk(s, ss);
  }
}
