/** Bytes, UTF-8 text and the fixed-width big-endian integers of `to_be_bytes`. */
module Bytes {
  type byte = x: int | 0 <= x < 256

  type u32 = x: int | 0 <= x <= 0xFFFF_FFFF

  /** A Rust `String` or `Vec<u8>`: text is held as its UTF-8 bytes, so text equality is byte equality. */
  type Text = seq<byte>

  /** 256 to the power `width`: how many values `width` bytes can hold. */
  function Capacity(width: nat): (r: nat)
    ensures r >= 1
  {
    if width == 0 then 1 else 256 * Capacity(width - 1)
  }

  /** The low `width` bytes of `n`, most significant first. */
  function BigEndian(n: nat, width: nat): (r: seq<byte>)
    ensures |r| == width
  {
    if width == 0 then [] else BigEndian(n / 256, width - 1) + [n % 256]
  }

  /** The number that a big-endian byte string denotes. */
  function FromBigEndian(s: seq<byte>): nat {
    if s == [] then 0 else 256 * FromBigEndian(s[..|s| - 1]) + s[|s| - 1]
  }

  lemma {:induction false} BigEndianRoundTrip(n: nat, width: nat)
    requires n < Capacity(width)
    ensures FromBigEndian(BigEndian(n, width)) == n
  {
    if width > 0 {
      BigEndianRoundTrip(n / 256, width - 1);
      var s := BigEndian(n, width);
      assert s[..|s| - 1] == BigEndian(n / 256, width - 1);
    }
  }

  lemma {:induction false} FromBigEndianRoundTrip(s: seq<byte>)
    ensures FromBigEndian(s) < Capacity(|s|)
    ensures BigEndian(FromBigEndian(s), |s|) == s
  {
    if s != [] {
      var init, last := s[..|s| - 1], s[|s| - 1];
      FromBigEndianRoundTrip(init);
      var n := FromBigEndian(s);
      assert n / 256 == FromBigEndian(init) && n % 256 == last;
      assert s == init + [last];
    }
  }
}
