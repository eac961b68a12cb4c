/** Octets and the fixed-width big-endian integer formats of Node's
    `Buffer.writeInt8/Int16BE/Int32BE` and `readInt8/Int16BE/Int32BE`
    (two's complement), plus the raw unsigned patterns used for floats,
    doubles and the string length prefix.
 */
module Bytes {

  /** One octet of a Node `Buffer`. */
  type byte = x: int | 0 <= x < 256

  /** 256 to the power `n`: the number of distinct `n`-byte patterns. */
  function Pow256(n: nat): (r: nat)
    ensures r > 0
  {
    if n == 0 then 1 else 256 * Pow256(n - 1)
  }

  /** 2^(8*width - 1): the magnitude of the most negative `width`-byte value. */
  function Half(width: nat): (h: nat)
    requires width > 0
    ensures 2 * h == Pow256(width)
  {
    128 * Pow256(width - 1)
  }

  /** `v` fits a signed `width`-byte integer; Node's writers throw otherwise. */
  predicate InSigned(v: int, width: nat)
    requires width > 0
  {
    -(Half(width) as int) <= v < Half(width)
  }

  predicate IsInt8(v: int)  { InSigned(v, 1) }
  predicate IsInt16(v: int) { InSigned(v, 2) }
  predicate IsInt32(v: int) { InSigned(v, 4) }

  /** The signed byte with the same low eight bits as `v`: what a byte
      stored for `v` by `new Buffer([v])` reads back as. */
  function SignedLow(v: int): (r: int)
    ensures IsInt8(r) && (v - r) % 256 == 0
    ensures IsInt8(v) ==> r == v
  {
    if v % 256 >= 128 then v % 256 - 256 else v % 256
  }

  /** `SignedLow` of each element. */
  function SignedLows(bs: seq<int>): (r: seq<int>)
    ensures |r| == |bs| && forall i | 0 <= i < |bs| :: r[i] == SignedLow(bs[i])
    ensures (forall i | 0 <= i < |bs| :: IsInt8(bs[i])) ==> r == bs
  {
    seq(|bs|, i requires 0 <= i < |bs| => SignedLow(bs[i]))
  }

  /** The `width` bytes of `x`, most significant first. */
  function ToBigEndian(x: nat, width: nat): (r: seq<byte>)
    requires x < Pow256(width)
    ensures |r| == width
    decreases x, width
  {
    if width == 0 then [] else ToBigEndian(x / 256, width - 1) + [x % 256]
  }

  /** The unsigned value of a big-endian byte pattern. */
  function FromBigEndian(s: seq<byte>): (x: nat)
    ensures x < Pow256(|s|)
  {
    if |s| == 0 then 0 else FromBigEndian(s[..|s| - 1]) * 256 + s[|s| - 1]
  }

  lemma {:induction false} FromToBigEndian(x: nat, width: nat)
    requires x < Pow256(width)
    ensures FromBigEndian(ToBigEndian(x, width)) == x
  {
    if width > 0 {
      var s := ToBigEndian(x, width);
      assert s[..|s| - 1] == ToBigEndian(x / 256, width - 1);
      FromToBigEndian(x / 256, width - 1);
    }
  }

  lemma {:induction false} ToFromBigEndian(s: seq<byte>)
    ensures ToBigEndian(FromBigEndian(s), |s|) == s
  {
    if |s| > 0 {
      var p := s[..|s| - 1];
      var x := FromBigEndian(s);
      assert x / 256 == FromBigEndian(p) && x % 256 == s[|s| - 1];
      ToFromBigEndian(p);
      assert s == p + [s[|s| - 1]];
    }
  }

  /** The two's complement bytes of `v`, most significant first. */
  function ToTwos(v: int, width: nat): (r: seq<byte>)
    requires width > 0 && InSigned(v, width)
    ensures |r| == width
  {
    ToBigEndian(if v < 0 then v + Pow256(width) else v, width)
  }

  /** The signed reading of an unsigned `width`-byte pattern: patterns with
      the top bit set stand for negative values. */
  function Signed(u: nat, width: nat): (v: int)
    requires width > 0 && u < Pow256(width)
    ensures InSigned(v, width)
    ensures v < 0 <==> u >= Half(width)
  {
    if u >= Half(width) then u - Pow256(width) else u
  }

  /** The signed value of a two's complement big-endian pattern. */
  function FromTwos(s: seq<byte>): (v: int)
    requires |s| > 0
    ensures InSigned(v, |s|)
  {
    Signed(FromBigEndian(s), |s|)
  }

  /** The unsigned value of the `width` bytes at `off`, computed in place. */
  function UnsignedAt(data: seq<byte>, off: nat, width: nat): (x: nat)
    requires off + width <= |data|
    ensures x < Pow256(width)
    decreases off + width, width
  {
    if width == 0 then 0 else UnsignedAt(data, off, width - 1) * 256 + data[off + width - 1]
  }

  lemma {:induction false} UnsignedAtIsSlice(data: seq<byte>, off: nat, width: nat)
    requires off + width <= |data|
    ensures UnsignedAt(data, off, width) == FromBigEndian(data[off..off + width])
  {
    if width > 0 {
      UnsignedAtIsSlice(data, off, width - 1);
      assert data[off..off + width][..width - 1] == data[off..off + width - 1];
    }
  }

  /** Decoding an encoded value gives it back. */
  lemma FromTwosOfTwos(v: int, width: nat)
    requires width > 0 && InSigned(v, width)
    ensures FromTwos(ToTwos(v, width)) == v
  {
    FromToBigEndian(if v < 0 then v + Pow256(width) else v, width);
  }

  /** Re-encoding a decoded pattern gives the same bytes back. */
  lemma TwosOfFromTwos(s: seq<byte>)
    requires |s| > 0
    ensures ToTwos(FromTwos(s), |s|) == s
  {
    ToFromBigEndian(s);
  }

  /** A slice of `data` that equals `a + b` splits into a slice equal to `a`
      followed by one equal to `b`. */
  lemma SplitSlice(data: seq<byte>, off: nat, a: seq<byte>, b: seq<byte>)
    requires off + |a| + |b| <= |data|
    requires data[off..off + |a| + |b|] == a + b
    ensures data[off..off + |a|] == a
    ensures data[off + |a|..off + |a| + |b|] == b
  {
    assert data[off..off + |a|] == (a + b)[..|a|];
    assert data[off + |a|..off + |a| + |b|] == (a + b)[|a|..];
  }
}
