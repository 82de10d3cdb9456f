/**
 * Byte layouts of the key material: the wrapped data key and the sealed key in the tracker's database
 * (nonce, then authenticated body), the envelope, and the message the device signs. The cipher is any
 * authenticated encryption in the sense of section 2 of RFC 5116.
 */
module Envelope {
  import opened Basics

  type Bytes = seq<bv8>

  const NONCE := 12
  const TAG := 16

  datatype Aead = Aead(
    seal: (Bytes, Bytes, Bytes, Bytes) -> Bytes,
    open: (Bytes, Bytes, Bytes, Bytes) -> Option<Bytes>)

  /** seal and open take key, nonce, text and associated data; only what was sealed opens, and adds a tag. */
  ghost predicate Lawful(a: Aead) {
    && (forall k, n, p, ad :: a.open(k, n, a.seal(k, n, p, ad), ad) == Some(p))
    && (forall k, n, c, ad :: a.open(k, n, c, ad).Some? ==> c == a.seal(k, n, a.open(k, n, c, ad).value, ad))
    && (forall k, n, p, ad :: |a.seal(k, n, p, ad)| == |p| + TAG)
  }

  /** LocalKeyProvider.WrapDEK: the key id is authenticated with the key. */
  function WrapDek(a: Aead, master: Bytes, keyId: Bytes, nonce: Bytes, dek: Bytes): Option<Bytes> {
    if |dek| != 32 then None else Some(nonce + a.seal(master, nonce, dek, keyId))
  }

  function UnwrapDek(a: Aead, master: Bytes, keyId: Bytes, wrapped: Bytes): Option<Bytes> {
    if |wrapped| < NONCE then None else a.open(master, wrapped[..NONCE], wrapped[NONCE..], keyId)
  }

  /** The tracker's seal_with_key, without the base64 around it. */
  function SealWithKey(a: Aead, key: Bytes, nonce: Bytes, dek: Bytes): Bytes { nonce + a.seal(key, nonce, dek, []) }

  function UnsealWithKey(a: Aead, key: Bytes, raw: Bytes): Option<Bytes> {
    if |raw| < NONCE + TAG then None else a.open(key, raw[..NONCE], raw[NONCE..], [])
  }

  lemma SplitsBack(nonce: Bytes, body: Bytes)
    requires |nonce| == NONCE
    ensures (nonce + body)[..NONCE] == nonce && (nonce + body)[NONCE..] == body
  {
  }

  lemma WrapRoundTrip(a: Aead, master: Bytes, keyId: Bytes, nonce: Bytes, dek: Bytes)
    requires Lawful(a) && |nonce| == NONCE && |dek| == 32
    ensures WrapDek(a, master, keyId, nonce, dek).Some?
    ensures UnwrapDek(a, master, keyId, WrapDek(a, master, keyId, nonce, dek).value) == Some(dek)
  {
    SplitsBack(nonce, a.seal(master, nonce, dek, keyId));
  }

  /** A wrapped key is its nonce and the authenticated body, bound to the key id; a sealed one is bound to nothing. */
  lemma KeyLayouts(a: Aead, key: Bytes, keyId: Bytes, nonce: Bytes, dek: Bytes)
    requires Lawful(a) && |nonce| == 12 && |dek| == 32
    ensures var w, s := WrapDek(a, key, keyId, nonce, dek), SealWithKey(a, key, nonce, dek);
      && w.Some? && |w.value| == 60 && w.value[..12] == nonce
      && a.open(key, nonce, w.value[12..], keyId) == Some(dek)
      && |s| == 60 && s[..12] == nonce && a.open(key, nonce, s[12..], []) == Some(dek)
  {
    SplitsBack(nonce, a.seal(key, nonce, dek, keyId));
    SplitsBack(nonce, a.seal(key, nonce, dek, []));
  }

  /** Only keys of 32 bytes are wrapped; what unwraps was opened under the key id, what unseals without a context. */
  lemma OpensFromLayout(a: Aead, key: Bytes, keyId: Bytes, raw: Bytes, nonce: Bytes, dek: Bytes)
    ensures WrapDek(a, key, keyId, nonce, dek).Some? <==> |dek| == 32
    ensures |raw| >= 28 ==> UnwrapDek(a, key, keyId, raw) == a.open(key, raw[..12], raw[12..], keyId)
    ensures |raw| >= 28 ==> UnsealWithKey(a, key, raw) == a.open(key, raw[..12], raw[12..], [])
    ensures |raw| < 12 ==> UnwrapDek(a, key, keyId, raw).None?
    ensures |raw| < 28 ==> UnsealWithKey(a, key, raw).None?
  {
  }

  /** The wrappings of a key are exactly what unwraps to it. */
  lemma {:induction false} WrappingsUnwrap(a: Aead, master: Bytes, keyId: Bytes, wrapped: Bytes, dek: Bytes)
    requires Lawful(a) && |dek| == 32
    ensures UnwrapDek(a, master, keyId, wrapped) == Some(dek) <==>
      exists nonce :: |nonce| == NONCE && WrapDek(a, master, keyId, nonce, dek) == Some(wrapped)
  {
    if UnwrapDek(a, master, keyId, wrapped) == Some(dek) {
      OnlyWrappingsUnwrap(a, master, keyId, wrapped);
      assert |wrapped[..NONCE]| == NONCE;
    } else if nonce :| |nonce| == NONCE && WrapDek(a, master, keyId, nonce, dek) == Some(wrapped) {
      WrapRoundTrip(a, master, keyId, nonce, dek);
    }
  }

  lemma OnlyWrappingsUnwrap(a: Aead, master: Bytes, keyId: Bytes, wrapped: Bytes)
    requires Lawful(a) && UnwrapDek(a, master, keyId, wrapped).Some?
    requires |UnwrapDek(a, master, keyId, wrapped).value| == 32
    ensures WrapDek(a, master, keyId, wrapped[..NONCE], UnwrapDek(a, master, keyId, wrapped).value) == Some(wrapped)
  {
    assert wrapped == wrapped[..NONCE] + wrapped[NONCE..];
  }

  lemma SealRoundTrip(a: Aead, key: Bytes, nonce: Bytes, dek: Bytes)
    requires Lawful(a) && |nonce| == NONCE
    ensures UnsealWithKey(a, key, SealWithKey(a, key, nonce, dek)) == Some(dek)
  {
    SplitsBack(nonce, a.seal(key, nonce, dek, []));
  }

  /**
   * A client key's path: sealed on disk, unsealed for the slot request, wrapped by the server, unwrapped for the
   * viewer.
   */
  lemma ClientKeySurvives(a: Aead, atRest: Bytes, n: Bytes, master: Bytes, keyId: Bytes, n': Bytes, dek: Bytes)
    requires Lawful(a) && |n| == NONCE && |n'| == NONCE && |dek| == 32
    ensures var sent := UnsealWithKey(a, atRest, SealWithKey(a, atRest, n, dek));
      && sent.Some? && WrapDek(a, master, keyId, n', sent.value).Some?
      && UnwrapDek(a, master, keyId, WrapDek(a, master, keyId, n', sent.value).value) == Some(dek)
  {
    SealRoundTrip(a, atRest, n, dek);
    WrapRoundTrip(a, master, keyId, n', dek);
  }

  datatype Sealed = Sealed(wrapped: Bytes, nonce: Bytes, ciphertext: Bytes)

  /** EncryptEnvelope, with the data key and the two nonces it draws. */
  function Encrypt(a: Aead, master: Bytes, keyId: Bytes, wrapNonce: Bytes, dek: Bytes, nonce: Bytes, plain: Bytes,
                   aad: Bytes): Option<Sealed> {
    var wrapped := WrapDek(a, master, keyId, wrapNonce, dek);
    if wrapped.None? then None else Some(Sealed(wrapped.value, nonce, a.seal(dek, nonce, plain, aad)))
  }

  function Decrypt(a: Aead, master: Bytes, keyId: Bytes, e: Sealed, aad: Bytes): Option<Bytes> {
    var dek := UnwrapDek(a, master, keyId, e.wrapped);
    if dek.None? then None else a.open(dek.value, e.nonce, e.ciphertext, aad)
  }

  /** What opens to a text, under a data key of the right length, is exactly what encrypts that text in that context. */
  lemma {:induction false} EnvelopesOpenExactly(a: Aead, master: Bytes, keyId: Bytes, e: Sealed, plain: Bytes,
                                               aad: Bytes)
    requires Lawful(a) && (UnwrapDek(a, master, keyId, e.wrapped).Some? ==>
      |UnwrapDek(a, master, keyId, e.wrapped).value| == 32)
    ensures Decrypt(a, master, keyId, e, aad) == Some(plain) <==>
      exists n, dek :: |n| == NONCE && Encrypt(a, master, keyId, n, dek, e.nonce, plain, aad) == Some(e)
  {
    if Decrypt(a, master, keyId, e, aad) == Some(plain) {
      var dek := UnwrapDek(a, master, keyId, e.wrapped).value;
      WrappingsUnwrap(a, master, keyId, e.wrapped, dek);
      var n :| |n| == NONCE && WrapDek(a, master, keyId, n, dek) == Some(e.wrapped);
      assert Encrypt(a, master, keyId, n, dek, e.nonce, plain, aad) == Some(e);
    } else if n, dek :| |n| == NONCE && Encrypt(a, master, keyId, n, dek, e.nonce, plain, aad) == Some(e) {
      WrapRoundTrip(a, master, keyId, n, dek);
    }
  }

  // ---------------------------------------------------------------------------------------------
  // The signed message
  // ---------------------------------------------------------------------------------------------

  /** What the device signs. */
  function SignedMessage(sha: Bytes, nonce: Bytes, capturedAt: Bytes, contract: Bytes): Bytes {
    sha + nonce + capturedAt + contract
  }

  /** The digest comes first, then the nonce, the time and the contract. */
  lemma SignedLayout(sha: Bytes, nonce: Bytes, at: Bytes, contract: Bytes)
    requires |sha| == 32 && |nonce| == 12
    ensures var m := SignedMessage(sha, nonce, at, contract);
      && |m| == 44 + |at| + |contract|
      && m[..32] == sha && m[32..44] == nonce && m[44..44 + |at|] == at && m[44 + |at|..] == contract
  {
  }

  /**
   * With the lengths that the tracker's types fix (a 32-byte digest, a 12-byte nonce) and timestamps of
   * one length, a signature binds all four parts: no other parts give the same message.
   */
  lemma SignedMessageBindsAll(sha: Bytes, nonce: Bytes, at: Bytes, contract: Bytes,
                              sha': Bytes, nonce': Bytes, at': Bytes, contract': Bytes)
    requires |sha| == |sha'| == 32 && |nonce| == |nonce'| == NONCE && |at| == |at'|
    requires SignedMessage(sha, nonce, at, contract) == SignedMessage(sha', nonce', at', contract')
    ensures sha == sha' && nonce == nonce' && at == at' && contract == contract'
  {
    var m, m' := SignedMessage(sha, nonce, at, contract), SignedMessage(sha', nonce', at', contract');
    assert m[..32] == sha && m'[..32] == sha';
    assert m[32..44] == nonce && m'[32..44] == nonce';
    assert m[44..44 + |at|] == at && m'[44..44 + |at|] == at';
    assert m[44 + |at|..] == contract && m'[44 + |at|..] == contract';
  }

  /**
   * What the server rebuilds, piece by piece. With the fixed lengths it is the message a device signed exactly if
   * digest, nonce, time and contract are the ones the device signed.
   */
  method ConfirmSignedMessage(sha: Bytes, nonce: Bytes, capturedAt: Bytes, contract: Bytes) returns (msg: Bytes)
    ensures msg == SignedMessage(sha, nonce, capturedAt, contract)
    ensures forall s, n, at, c | |s| == |sha| == 32 && |n| == |nonce| == NONCE && |at| == |capturedAt| ::
      msg == SignedMessage(s, n, at, c) <==> s == sha && n == nonce && at == capturedAt && c == contract
  {
    msg := [];
    msg := msg + sha;
    msg := msg + nonce;
    msg := msg + capturedAt;
    msg := msg + contract;
    hide SignedMessage;
    forall s, n, at, c
      | |s| == |sha| == 32 && |n| == |nonce| == NONCE && |at| == |capturedAt| && msg == SignedMessage(s, n, at, c)
      ensures s == sha && n == nonce && at == capturedAt && c == contract
    {
      SignedMessageBindsAll(s, n, at, c, sha, nonce, capturedAt, contract);
    }
  }

  /** zero: the key buffer is overwritten. */
  method Zero(b: array<bv8>)
    modifies b
    ensures forall i :: 0 <= i < b.Length ==> b[i] == 0
  {
    for i := 0 to b.Length
      invariant forall j :: 0 <= j < i ==> b[j] == 0
    {
      b[i] := 0;
    }
  }
}
