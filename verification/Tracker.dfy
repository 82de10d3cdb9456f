/**
 * The tracker's local store and one run of process_screenshot against the server, changing the queue,
 * the disk and the server's tables in place.
 */
module Tracker {
  import opened Basics
  import opened Screenshots

  /** Where the run ends; a failed call may have been served all the same. */
  datatype Fate =
    | Smooth
    | SlotFails(served: bool)
    | PutFails(served: bool)
    | ConfirmFails(served: bool)
    | StopsBeforeMark
    | StopsBeforeDelete
    | StopsBeforeRemove

  /** The slice's evidence is on the server and opens to the captured image. */
  ghost predicate OnServer(sv: Server, c: Capture) {
    exists ss :: 0 <= ss < |sv.rows| && sv.rows[ss].slice == c.slice && sv.rows[ss].stored
      && sv.rows[ss].key in sv.objects && sv.rows[ss].nonce == Some(c.nonce)
      && Open(sv.rows[ss].wrappedDek.dek, c.nonce, Aad(sv.rows[ss].contract, sv.rows[ss].capturedAt),
              sv.objects[sv.rows[ss].key]) == Some(c.image)
  }

  /** The slice's row, if there is one, is this capture's. */
  ghost predicate SlotIsOurs(sv: Server, c: Capture) {
    forall ss :: 0 <= ss < |sv.rows| && sv.rows[ss].slice == c.slice ==>
      && sv.rows[ss].contract == c.contract && sv.rows[ss].capturedAt == c.capturedAt
      && sv.rows[ss].wrappedDek == Wrapped(c.dek)
  }

  lemma SlotIsOursAfterRequest(sv: Server, id: nat, c: Capture)
    requires SlotIsOurs(sv, c)
    ensures SlotIsOurs(RequestSlot(sv, id, c).0, c)
    ensures FindSlice(sv.rows, c.slice).None? ==> !RequestSlot(sv, id, c).0.rows[RequestSlot(sv, id, c).1].stored
  {
  }

  lemma SlotIsOursAfterPut(sv: Server, key: nat, c: Capture)
    requires SlotIsOurs(sv, c)
    ensures SlotIsOurs(sv.(objects := sv.objects[key := CipherOf(c)]), c)
  {
  }

  /** The confirm keeps the slot ours; if it is accepted, the evidence is complete. */
  lemma AfterConfirm(sv: Server, ss: nat, c: Capture)
    requires SlotIsOurs(sv, c) && ss < |sv.rows| && sv.rows[ss].slice == c.slice
    requires sv.rows[ss].key in sv.objects && sv.objects[sv.rows[ss].key] == CipherOf(c)
    ensures var (after, ok) := Confirm(sv, ss, Sha256(CipherOf(c)), c.nonce, SignatureOf(c));
      && SlotIsOurs(after, c) && (ok ==> OnServer(after, c)) && (ok <==> !sv.rows[ss].stored)
  {
    var after := Confirm(sv, ss, Sha256(CipherOf(c)), c.nonce, SignatureOf(c)).0;
    assert after.rows[ss].slice == c.slice;
  }

  class LocalStore {
    var queue: map<nat, Stage>
    var blobs: map<nat, Cipher>

    constructor ()
      ensures queue == map[] && blobs == map[]
    {
      queue, blobs := map[], map[];
    }

    method EnqueueScreenshot(id: nat, c: Capture)
      requires id !in queue
      modifies this
      ensures queue == old(queue)[id := Queued] && blobs == old(blobs)[id := CipherOf(c)]
    {
      blobs := blobs[id := CipherOf(c)];
      queue := queue[id := Queued];
    }

    method SetState(id: nat, stage: Stage)
      requires id in queue
      modifies `queue
      ensures queue == old(queue)[id := stage]
    {
      queue := queue[id := stage];
    }

    method DeleteScreenshot(id: nat)
      modifies `queue
      ensures queue == old(queue) - {id}
    {
      queue := queue - {id};
    }

    /** Slot, put and confirm; true when the server has accepted. The blob and the queue row stay. */
    method Upload(server: Store, id: nat, c: Capture, fate: Fate) returns (accepted: bool)
      requires id in queue && queue[id] != Confirmed && id in blobs && blobs[id] == CipherOf(c)
      requires SlotIsOurs(server.Contents(), c)
      modifies `queue, server
      ensures SlotIsOurs(server.Contents(), c)
      ensures accepted ==> OnServer(server.Contents(), c)
      ensures id in queue && queue[id] != Confirmed && queue == old(queue)[id := queue[id]]
      ensures FindSlice(old(server.rows), c.slice).None? && !fate.SlotFails? && !fate.PutFails? && !fate.ConfirmFails?
        ==> accepted
    {
      hide SlotIsOurs, OnServer, RequestSlot, Confirm, CipherOf, SignatureOf;
      if fate == SlotFails(false) {
        return false;
      }
      SlotIsOursAfterRequest(server.Contents(), id, c);
      var ss, key := server.RequestUploadSlot(id, c);
      if fate == SlotFails(true) {
        return false;
      }
      if queue[id] == Queued {
        SetState(id, Slotted);
      }
      if fate == PutFails(false) {
        return false;
      }
      SlotIsOursAfterPut(server.Contents(), key, c);
      server.objects := server.objects[key := blobs[id]];
      if fate == PutFails(true) {
        return false;
      }
      SetState(id, Uploaded);
      if fate == ConfirmFails(false) {
        return false;
      }
      AfterConfirm(server.Contents(), ss, c);
      accepted := server.ConfirmUpload(ss, Sha256(blobs[id]), c.nonce, SignatureOf(c));
      accepted := accepted && fate != ConfirmFails(true);
    }

    /**
     * One attempt to upload. The blob and the queue row are touched only after the server has accepted;
     * whatever else happens, both are still there for the next attempt.
     */
    method ProcessScreenshot(server: Store, id: nat, c: Capture, fate: Fate) returns (ok: bool)
      requires id in queue && queue[id] != Confirmed && id in blobs && blobs[id] == CipherOf(c)
      requires SlotIsOurs(server.Contents(), c)
      modifies this, server
      ensures SlotIsOurs(server.Contents(), c)
      ensures ok ==> queue == old(queue) - {id} && blobs == old(blobs) - {id}
      ensures !ok ==> blobs == old(blobs)
      ensures id !in queue || id !in blobs || queue[id] == Confirmed ==> OnServer(server.Contents(), c)
      ensures forall k :: k != id ==> (k in queue <==> k in old(queue)) && (k in queue ==> queue[k] == old(queue)[k])
      ensures fate.Smooth? && FindSlice(old(server.rows), c.slice).None? ==> ok
    {
      hide SlotIsOurs, OnServer, CipherOf;
      var accepted := Upload(server, id, c, fate);
      if !accepted || fate == StopsBeforeMark {
        return false;
      }
      SetState(id, Confirmed);
      if fate == StopsBeforeDelete {
        return false;
      }
      DeleteScreenshot(id);
      if fate == StopsBeforeRemove {
        return false;
      }
      blobs := blobs - {id};
      ok := true;
    }
  }
}
