/**
 LP framing of the PRF inputs (src/prf.rs): every field is written as a 2-byte
 big-endian length followed by its bytes. The parser below is the inverse that
 the source never needs to write; it is what makes framed messages unambiguous.
 */
module Framing {
  import opened Bytes
  import opened Wrappers

  const MAX_FIELD: nat := 65535

  const TAG_PROTOCOL: Text := [109, 105, 110, 105, 115, 116, 101, 114, 47, 110, 117, 108, 108, 47, 118, 49] // minister/null/v1
  const TAG_DEDUP: Text := [100, 101, 100, 117, 112]                                                         // dedup
  const TAG_RP: Text := [114, 112]                                                                           // rp
  const INFO_NULLIFIER_SEED: Text :=                                                                         // minister/v1/nullifier
    [109, 105, 110, 105, 115, 116, 101, 114, 47, 118, 49, 47, 110, 117, 108, 108, 105, 102, 105, 101, 114]
  const INFO_DISCLOSE: Text := INFO_NULLIFIER_SEED + [47, 100, 105, 115, 99, 108, 111, 115, 101]             // .../disclose

  /** The caps the handlers put on the fields that reach a frame. */
  const DEDUP_VALUE_LEN: nat := 64
  const MAX_CLIENT_ID_LEN: nat := 256
  const MAX_BADGE_TYPE_LEN: nat := 64

  function Lp(field: Text): (r: seq<byte>)
    requires |field| <= MAX_FIELD
  {
    BigEndian(|field|, 2) + field
  }

  ghost predicate Fits(fields: seq<Text>) {
    forall i :: 0 <= i < |fields| ==> |fields[i]| <= MAX_FIELD
  }

  function Frame(fields: seq<Text>): seq<byte>
    requires forall i :: 0 <= i < |fields| ==> |fields[i]| <= MAX_FIELD
  {
    if fields == [] then [] else Lp(fields[0]) + Frame(fields[1..])
  }

  /** Read back a whole number of LP fields, or reject. */
  function Parse(s: seq<byte>): (r: Option<seq<Text>>)
    ensures r.Some? ==> Fits(r.value)
    decreases |s|
  {
    if s == [] then Some([])
    else if |s| < 2 then None
    else
      FromBigEndianRoundTrip(s[..2]);
      var len := FromBigEndian(s[..2]);
      if |s| < 2 + len then None
      else
        match Parse(s[2 + len..])
        case None => None
        case Some(rest) => Some([s[2..2 + len]] + rest)
  }

  /** Where the pieces of one leading LP field lie. */
  lemma HeadField(f: Text, tail: seq<byte>)
    requires |f| <= MAX_FIELD
    ensures var s := Lp(f) + tail;
      && |s| >= 2 + |f|
      && FromBigEndian(s[..2]) == |f|
      && s[2..2 + |f|] == f
      && s[2 + |f|..] == tail
  {
    var prefix := BigEndian(|f|, 2);
    var s := Lp(f) + tail;
    assert Capacity(2) == 65536;
    BigEndianRoundTrip(|f|, 2);
    assert s == prefix + (f + tail);
    assert s[..2] == prefix;
  }

  /** The parser takes exactly one field off the front. */
  lemma ParseCons(f: Text, tail: seq<byte>)
    requires |f| <= MAX_FIELD && Parse(tail).Some?
    ensures Parse(Lp(f) + tail) == Some([f] + Parse(tail).value)
  {
    HeadField(f, tail);
  }

  /** Unique decodability: the parser recovers the exact field list from every frame. */
  lemma {:induction false} ParseFrame(fields: seq<Text>)
    requires Fits(fields)
    ensures Parse(Frame(fields)) == Some(fields)
  {
    if fields != [] {
      ParseFrame(fields[1..]);
      ParseCons(fields[0], Frame(fields[1..]));
      assert fields == [fields[0]] + fields[1..];
    }
  }

  lemma FrameCons(f: Text, rest: seq<Text>)
    requires |f| <= MAX_FIELD && Fits(rest)
    ensures Fits([f] + rest) && Frame([f] + rest) == Lp(f) + Frame(rest)
  {
    assert ([f] + rest)[1..] == rest;
  }

  /** Conversely, a length prefix the input can honour makes the front of the input one LP field. */
  lemma SplitHead(s: seq<byte>, len: nat)
    requires |s| >= 2 + len && len == FromBigEndian(s[..2])
    ensures len <= MAX_FIELD && s == Lp(s[2..2 + len]) + s[2 + len..]
  {
    var prefix, f, tail := s[..2], s[2..2 + len], s[2 + len..];
    FromBigEndianRoundTrip(prefix);
    assert Capacity(2) == 65536;
    assert Lp(f) == prefix + f;
    assert s == prefix + f + tail;
  }

  /** The other direction: whatever the parser accepts is exactly the frame of what it returned. */
  lemma {:induction false} FrameParse(s: seq<byte>)
    ensures Parse(s).Some? ==> Frame(Parse(s).value) == s
    decreases |s|
  {
    if |s| >= 2 {
      var len := FromBigEndian(s[..2]);
      if |s| >= 2 + len && Parse(s[2 + len..]).Some? {
        FrameParse(s[2 + len..]);
        SplitHead(s, len);
        FrameCons(s[2..2 + len], Parse(s[2 + len..]).value);
      }
    }
  }

  lemma FrameInjective(a: seq<Text>, b: seq<Text>)
    requires Fits(a) && Fits(b)
    ensures Frame(a) == Frame(b) ==> a == b
  {
    ParseFrame(a);
    ParseFrame(b);
  }

  function DedupFields(sybilId: Text, badgeType: Text): seq<Text> {
    [TAG_PROTOCOL, TAG_DEDUP, sybilId, badgeType]
  }

  function DiscloseFields(value: Text, clientId: Text): seq<Text> {
    [TAG_PROTOCOL, TAG_RP, value, clientId]
  }

  function DiscloseMessage(value: Text, clientId: Text): seq<byte>
    requires |value| <= MAX_FIELD && |clientId| <= MAX_FIELD
  {
    Frame(DiscloseFields(value, clientId))
  }

  /** The HKDF info string of the per-client disclosure key. */
  function DiscloseInfo(clientId: Text): seq<byte>
    requires |clientId| <= MAX_FIELD
  {
    INFO_DISCLOSE + Lp(clientId)
  }

  /** The growable output vector that `lp` appends to. */
  class Buffer {
    var data: seq<byte>

    constructor ()
      ensures data == []
    {
      data := [];
    }

    method PushLp(field: Text)
      requires |field| <= MAX_FIELD
      modifies this
      ensures data == old(data) + Lp(field)
    {
      data := data + BigEndian(|field|, 2);
      data := data + field;
    }
  }

  /** The stage-1 PRF input, built field by field; it parses back to the tagged tuple. */
  method DedupInput(sybilId: Text, badgeType: Text) returns (r: seq<byte>)
    requires |sybilId| <= MAX_FIELD && |badgeType| <= MAX_FIELD
    ensures r == Frame(DedupFields(sybilId, badgeType))
    ensures Parse(r) == Some([TAG_PROTOCOL, TAG_DEDUP, sybilId, badgeType])
  {
    r := PushFour(TAG_PROTOCOL, TAG_DEDUP, sybilId, badgeType);
    ParseFrame(DedupFields(sybilId, badgeType));
  }

  /** The two byte strings that `disclose` builds: the key-derivation info and the authenticated message. */
  method DiscloseInputs(value: Text, clientId: Text) returns (info: seq<byte>, message: seq<byte>)
    requires |value| <= MAX_FIELD && |clientId| <= MAX_FIELD
    ensures info == DiscloseInfo(clientId) && message == DiscloseMessage(value, clientId)
    ensures Parse(message) == Some([TAG_PROTOCOL, TAG_RP, value, clientId])
  {
    var out := new Buffer();
    out.data := INFO_DISCLOSE;
    out.PushLp(clientId);
    info := out.data;
    message := PushFour(TAG_PROTOCOL, TAG_RP, value, clientId);
    ParseFrame(DiscloseFields(value, clientId));
  }

  /** Four `lp` calls on one buffer. */
  method PushFour(a: Text, b: Text, c: Text, d: Text) returns (r: seq<byte>)
    requires |a| <= MAX_FIELD && |b| <= MAX_FIELD && |c| <= MAX_FIELD && |d| <= MAX_FIELD
    ensures r == Frame([a, b, c, d])
  {
    var out := new Buffer();
    out.PushLp(a);
    assert out.data == Frame([a]) by { FrameSnoc([], a); assert [] + [a] == [a]; }
    out.PushLp(b);
    assert out.data == Frame([a, b]) by { FrameSnoc([a], b); assert [a] + [b] == [a, b]; }
    out.PushLp(c);
    assert out.data == Frame([a, b, c]) by { FrameSnoc([a, b], c); assert [a, b] + [c] == [a, b, c]; }
    out.PushLp(d);
    assert out.data == Frame([a, b, c, d]) by { FrameSnoc([a, b, c], d); assert [a, b, c] + [d] == [a, b, c, d]; }
    r := out.data;
  }

  /** Appending one more LP field to a frame is the frame of the longer list. */
  lemma {:induction false} FrameSnoc(fields: seq<Text>, field: Text)
    requires Fits(fields) && |field| <= MAX_FIELD
    ensures Fits(fields + [field]) && Frame(fields + [field]) == Frame(fields) + Lp(field)
  {
    if fields != [] {
      FrameSnoc(fields[1..], field);
      assert (fields + [field])[1..] == fields[1..] + [field];
    }
  }

  lemma DedupInputInjective(sybil1: Text, badge1: Text, sybil2: Text, badge2: Text)
    requires |sybil1| <= MAX_FIELD && |badge1| <= MAX_FIELD && |sybil2| <= MAX_FIELD && |badge2| <= MAX_FIELD
    requires Frame(DedupFields(sybil1, badge1)) == Frame(DedupFields(sybil2, badge2))
    ensures sybil1 == sybil2 && badge1 == badge2
  {
    var a, b := DedupFields(sybil1, badge1), DedupFields(sybil2, badge2);
    FrameInjective(a, b);
    assert a[2] == b[2] && a[3] == b[3];
  }

  lemma DiscloseMessageInjective(value1: Text, client1: Text, value2: Text, client2: Text)
    requires |value1| <= MAX_FIELD && |client1| <= MAX_FIELD && |value2| <= MAX_FIELD && |client2| <= MAX_FIELD
    requires DiscloseMessage(value1, client1) == DiscloseMessage(value2, client2)
    ensures value1 == value2 && client1 == client2
  {
    var a, b := DiscloseFields(value1, client1), DiscloseFields(value2, client2);
    FrameInjective(a, b);
    assert a[2] == b[2] && a[3] == b[3];
  }

  /** No stage-1 input is ever a stage-2 message, whatever the four fields are. */
  lemma FamiliesDisjoint(sybilId: Text, badgeType: Text, value: Text, clientId: Text)
    requires |sybilId| <= MAX_FIELD && |badgeType| <= MAX_FIELD && |value| <= MAX_FIELD && |clientId| <= MAX_FIELD
    ensures Frame(DedupFields(sybilId, badgeType)) != DiscloseMessage(value, clientId)
  {
    var a, b := DedupFields(sybilId, badgeType), DiscloseFields(value, clientId);
    FrameInjective(a, b);
    assert a[1] != b[1];
  }

  /** The two HKDF uses of the master seed never share an info string, and disclosure keys never share one between clients. */
  lemma DiscloseInfoSeparated(client1: Text, client2: Text)
    requires |client1| <= MAX_FIELD && |client2| <= MAX_FIELD
    ensures DiscloseInfo(client1) != INFO_NULLIFIER_SEED
    ensures DiscloseInfo(client1) == DiscloseInfo(client2) ==> client1 == client2
  {
    var a, b := DiscloseInfo(client1), DiscloseInfo(client2);
    assert |a| > |INFO_NULLIFIER_SEED|;
    assert a[|INFO_DISCLOSE| + 2..] == client1;
    assert b[|INFO_DISCLOSE| + 2..] == client2;
  }

  /** Every length the handlers let through meets the `u16` bound that `lp` panics on. */
  lemma HandlerCapsFit(value: Text, clientId: Text, badgeType: Text)
    requires |value| == DEDUP_VALUE_LEN
    requires |clientId| <= MAX_CLIENT_ID_LEN
    requires |badgeType| <= MAX_BADGE_TYPE_LEN
    ensures Fits(DiscloseFields(value, clientId)) && Fits([badgeType])
    ensures Parse(DiscloseMessage(value, clientId)) == Some(DiscloseFields(value, clientId))
  {
    ParseFrame(DiscloseFields(value, clientId));
  }
}
