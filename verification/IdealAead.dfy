/**
 The cryptographic hypotheses of the theorems are satisfiable: an AEAD that
 writes everything down, framed and tagged, is ideal in the sense assumed, so
 nothing is proved from a contradiction.
 */
module IdealAead {
  import opened Bytes
  import opened Wrappers
  import opened Framing
  import opened Keystore

  const TAG: Text := BigEndian(0, TAG_LEN)

  predicate Framable(k: Text, n: Text, a: Text, m: Text) {
    |k| <= MAX_FIELD && |n| <= MAX_FIELD && |a| <= MAX_FIELD && |m| <= MAX_FIELD
  }

  function Write(k: Text, n: Text, a: Text, m: Text): Option<seq<byte>> {
    if Framable(k, n, a, m) then Some(Frame([k, n, a, m, TAG])) else None
  }

  function Read(k: Text, n: Text, a: Text, c: seq<byte>): Option<seq<byte>> {
    match Parse(c)
    case None => None
    case Some(f) => if |f| == 5 && f[0] == k && f[1] == n && f[2] == a && f[4] == TAG then Some(f[3]) else None
  }

  lemma WrittenParses(k: Text, n: Text, a: Text, m: Text)
    requires Framable(k, n, a, m)
    ensures Parse(Frame([k, n, a, m, TAG])) == Some([k, n, a, m, TAG])
    ensures |Frame([k, n, a, m, TAG])| >= TAG_LEN
  {
    ParseFrame([k, n, a, m, TAG]);
    FrameSnoc([k, n, a, m], TAG);
    assert [k, n, a, m] + [TAG] == [k, n, a, m, TAG];
  }

  lemma ReadWasWritten(k: Text, n: Text, a: Text, m: Text, c: seq<byte>)
    requires Read(k, n, a, c) == Some(m)
    ensures Write(k, n, a, m) == Some(c)
  {
    FrameParse(c);
    var f := Parse(c).value;
    assert f == [k, n, a, m, TAG];
    assert |f[0]| <= MAX_FIELD && |f[1]| <= MAX_FIELD && |f[2]| <= MAX_FIELD && |f[3]| <= MAX_FIELD;
  }

  lemma IdealAeadExists() returns (aead: Aead)
    ensures aead.Ideal()
    ensures forall k, n, a, m :: Framable(k, n, a, m) ==> aead.encrypt(k, n, a, m).Some?
  {
    aead := Aead(Write, Read);
    forall k, n, a, m, c ensures aead.Makes(k, n, a, m, c) <==> aead.decrypt(k, n, a, c) == Some(m) {
      if Framable(k, n, a, m) { WrittenParses(k, n, a, m); }
      if Read(k, n, a, c) == Some(m) { ReadWasWritten(k, n, a, m, c); }
    }
    forall k, n, a, m, c, k', n', a', m' | aead.Makes(k, n, a, m, c) && aead.Makes(k', n', a', m', c)
      ensures |c| >= TAG_LEN && k == k' && n == n' && a == a' && m == m'
    {
      WrittenParses(k, n, a, m);
      WrittenParses(k', n', a', m');
      var f, f' := [k, n, a, m, TAG], [k', n', a', m', TAG];
      assert f[0] == f'[0] && f[1] == f'[1] && f[2] == f'[2] && f[3] == f'[3];
    }
  }
}
