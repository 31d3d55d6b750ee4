/**
 Private keys at rest (src/keystore.rs). AES-256-GCM is a parameter: a pair of
 functions that the theorems assume to be an ideal AEAD. The blob layout, the
 checks of `open` and the associated-data encoding are the source's own.
 */
module Keystore {
  import opened Bytes
  import opened Wrappers

  const BLOB_VERSION: byte := 1
  const NONCE_LEN: nat := 12
  const TAG_LEN: nat := 16

  /** Encryption may fail; decryption fails on anything that does not authenticate. */
  datatype Aead = Aead(
    encrypt: (seq<byte>, seq<byte>, seq<byte>, seq<byte>) -> Option<seq<byte>>,
    decrypt: (seq<byte>, seq<byte>, seq<byte>, seq<byte>) -> Option<seq<byte>>)
  {
    /** `ciphertext` is what `key`, `nonce` and `aad` make of `message`. */
    ghost predicate Makes(key: seq<byte>, nonce: seq<byte>, aad: seq<byte>, message: seq<byte>, ciphertext: seq<byte>) {
      encrypt(key, nonce, aad, message) == Some(ciphertext)
    }

    /** Decryption inverts encryption and nothing else. */
    ghost predicate Inverts() {
      forall k: seq<byte>, n: seq<byte>, a: seq<byte>, m: seq<byte>, c: seq<byte> ::
        Makes(k, n, a, m, c) <==> decrypt(k, n, a, c) == Some(m)
    }

    /** A ciphertext carries a tag and authenticates under one (key, nonce, associated data) only. */
    ghost predicate Binds() {
      forall k, n, a, m, c, k', n', a', m' ::
        Makes(k, n, a, m, c) && Makes(k', n', a', m', c) ==>
          |c| >= TAG_LEN && k == k' && n == n' && a == a' && m == m'
    }

    ghost predicate Ideal() {
      Inverts() && Binds()
    }
  }

  predicate IsI64(n: int) {
    -0x8000_0000_0000_0000 <= n < 0x8000_0000_0000_0000
  }

  /** `i64::to_be_bytes`: two's complement, eight bytes, big-endian. */
  function I64Bytes(n: int): (r: seq<byte>)
    requires IsI64(n)
    ensures |r| == 8
  {
    BigEndian(if n < 0 then n + 0x1_0000_0000_0000_0000 else n, 8)
  }

  function AssociatedData(groupId: Text, keyId: int): seq<byte>
    requires IsI64(keyId)
  {
    groupId + I64Bytes(keyId)
  }

  lemma I64BytesInjective(m: int, n: int)
    requires IsI64(m) && IsI64(n)
    requires I64Bytes(m) == I64Bytes(n)
    ensures m == n
  {
    assert Capacity(8) == 0x1_0000_0000_0000_0000;
    BigEndianRoundTrip(if m < 0 then m + 0x1_0000_0000_0000_0000 else m, 8);
    BigEndianRoundTrip(if n < 0 then n + 0x1_0000_0000_0000_0000 else n, 8);
  }

  /** The fixed-width suffix makes the bare concatenation unambiguous for all text and all ids. */
  lemma AssociatedDataInjective(group1: Text, id1: int, group2: Text, id2: int)
    requires IsI64(id1) && IsI64(id2)
    requires AssociatedData(group1, id1) == AssociatedData(group2, id2)
    ensures group1 == group2 && id1 == id2
  {
    var a, b := AssociatedData(group1, id1), AssociatedData(group2, id2);
    assert a[|a| - 8..] == I64Bytes(id1) && b[|b| - 8..] == I64Bytes(id2);
    assert a[..|a| - 8] == group1 && b[..|b| - 8] == group2;
    I64BytesInjective(id1, id2);
  }

  /**
   `Kek::seal`, with the nonce the OS supplied as an argument. It fails exactly
   when encryption does; with an ideal AEAD the blob opens to the plaintext for
   its own KEK, group and id, and for nobody else.
   */
  method SealBlob(aead: Aead, kek: seq<byte>, nonce: seq<byte>, groupId: Text, keyId: int, plaintext: seq<byte>)
    returns (r: Option<seq<byte>>)
    requires IsI64(keyId) && |nonce| == NONCE_LEN
    ensures r == Seal(aead, kek, nonce, groupId, keyId, plaintext)
    ensures r.None? <==> aead.encrypt(kek, nonce, AssociatedData(groupId, keyId), plaintext).None?
    ensures r.Some? && aead.Ideal() ==> forall kek', groupId', keyId' :: IsI64(keyId') ==>
      Open(aead, kek', groupId', keyId', r.value) ==
      if kek' == kek && groupId' == groupId && keyId' == keyId then Some(plaintext) else None
  {
    var aad := [];
    aad := aad + groupId;
    aad := aad + I64Bytes(keyId);
    assert aad == AssociatedData(groupId, keyId);
    var ct := aead.encrypt(kek, nonce, aad, plaintext);
    if ct.None? { return None; }
    var out := [BLOB_VERSION];
    out := out + nonce;
    out := out + ct.value;
    if aead.Ideal() { OpensForItsOwner(aead, kek, nonce, groupId, keyId, plaintext, out); }
    return Some(out);
  }

  function Seal(aead: Aead, kek: seq<byte>, nonce: seq<byte>, groupId: Text, keyId: int, plaintext: seq<byte>)
    : Option<seq<byte>>
    requires IsI64(keyId) && |nonce| == NONCE_LEN
  {
    match aead.encrypt(kek, nonce, AssociatedData(groupId, keyId), plaintext)
    case None => None
    case Some(ct) => Some([BLOB_VERSION] + nonce + ct)
  }

  function Open(aead: Aead, kek: seq<byte>, groupId: Text, keyId: int, blob: seq<byte>): Option<seq<byte>>
    requires IsI64(keyId)
  {
    if |blob| < 1 + NONCE_LEN + TAG_LEN then None
    else if blob[0] != BLOB_VERSION then None
    else aead.decrypt(kek, blob[1..1 + NONCE_LEN], AssociatedData(groupId, keyId), blob[1 + NONCE_LEN..])
  }

  /**
   A sealed blob opens under one KEK and one identity only, and then to the
   sealed plaintext: the round trip and its exact limits in one statement.
   */
  lemma SealedOpensOnlyAsItself(aead: Aead, kek: seq<byte>, nonce: seq<byte>, groupId: Text, keyId: int,
                                plaintext: seq<byte>, blob: seq<byte>, kek': seq<byte>, groupId': Text, keyId': int)
    requires aead.Ideal()
    requires IsI64(keyId) && IsI64(keyId') && |nonce| == NONCE_LEN
    requires Seal(aead, kek, nonce, groupId, keyId, plaintext) == Some(blob)
    ensures Open(aead, kek', groupId', keyId', blob) ==
            if kek' == kek && groupId' == groupId && keyId' == keyId then Some(plaintext) else None
  {
    var aad := AssociatedData(groupId, keyId);
    var ct := blob[1 + NONCE_LEN..];
    assert blob[1..1 + NONCE_LEN] == nonce;
    assert aead.Makes(kek, nonce, aad, plaintext, ct);
    assert |ct| >= TAG_LEN;
    var aad' := AssociatedData(groupId', keyId');
    var got := aead.decrypt(kek', nonce, aad', ct);
    if got.Some? {
      assert aead.Makes(kek', nonce, aad', got.value, ct);
      AssociatedDataInjective(groupId, keyId, groupId', keyId');
    }
  }

  lemma OpensForItsOwner(aead: Aead, kek: seq<byte>, nonce: seq<byte>, groupId: Text, keyId: int, plaintext: seq<byte>, blob: seq<byte>)
    requires aead.Ideal() && IsI64(keyId) && |nonce| == NONCE_LEN
    requires Seal(aead, kek, nonce, groupId, keyId, plaintext) == Some(blob)
    ensures forall kek', groupId', keyId' :: IsI64(keyId') ==>
      Open(aead, kek', groupId', keyId', blob) ==
      if kek' == kek && groupId' == groupId && keyId' == keyId then Some(plaintext) else None
  {
    forall kek', groupId', keyId' | IsI64(keyId')
      ensures Open(aead, kek', groupId', keyId', blob) ==
              if kek' == kek && groupId' == groupId && keyId' == keyId then Some(plaintext) else None
    {
      SealedOpensOnlyAsItself(aead, kek, nonce, groupId, keyId, plaintext, blob, kek', groupId', keyId');
    }
  }

  /** Nothing opens but what was sealed: a version-1 blob of full length, made from the plaintext under this very KEK, group and id. */
  lemma OnlySealedBlobsOpen(aead: Aead, kek: seq<byte>, groupId: Text, keyId: int, blob: seq<byte>, plaintext: seq<byte>)
    requires IsI64(keyId)
    ensures Open(aead, kek, groupId, keyId, blob).Some? ==> |blob| >= 29 && blob[0] == 1
    ensures aead.Ideal() ==>
      (Open(aead, kek, groupId, keyId, blob) == Some(plaintext) <==>
       exists nonce: seq<byte> :: |nonce| == NONCE_LEN && Seal(aead, kek, nonce, groupId, keyId, plaintext) == Some(blob))
  {
    if aead.Ideal() {
      if Open(aead, kek, groupId, keyId, blob) == Some(plaintext) {
        var nonce, ct := blob[1..1 + NONCE_LEN], blob[1 + NONCE_LEN..];
        assert aead.Makes(kek, nonce, AssociatedData(groupId, keyId), plaintext, ct);
        assert [BLOB_VERSION] + nonce + ct == blob;
      }
      if nonce: seq<byte> :| |nonce| == NONCE_LEN && Seal(aead, kek, nonce, groupId, keyId, plaintext) == Some(blob) {
        SealedOpensOnlyAsItself(aead, kek, nonce, groupId, keyId, plaintext, blob, kek, groupId, keyId);
      }
    }
  }
}
