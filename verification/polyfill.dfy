/** `decodeUTF8` (test/polyfills.js:7-39), the browser stand-in for Node's
    `buffer.toString('utf8')`.

    The loop visits every byte. A byte that starts a one- to four-byte
    sequence whose continuation bytes follow pushes the code point of that
    sequence; any other byte, continuation bytes included, pushes nothing.
    The code points become a string through `String.fromCharCode`, which
    keeps only the low 16 bits of each: a character above U+FFFF comes out
    as one wrong unit. `DecodeUtf8` models that; `DecodeUtf8Corrected`
    writes such a character as its surrogate pair.

    The loop body appears twice: `StepAsWritten` works on the octets of the
    `Uint8Array` with the masks as written, and `Step` on byte values with
    the ranges and remainders those masks select. `StepAgrees` proves the
    two equal, and everything else is stated over `Step`.
 */
module Polyfill {
  import opened Bytes
  import opened Unicode

  /** A continuation byte `10xxxxxx`. */
  predicate IsCont(b: int) {
    0x80 <= b < 0xC0
  }

  /** The six payload bits of a continuation byte. */
  function Low6(b: int): int {
    b % 0x40
  }

  /** What the loop pushes at index `i`: nothing, or one code point. The
      masks are written as the ranges and remainders they select (see
      `StepAgrees`), and the shifted fields do not overlap, so `|` is a
      sum. */
  function Step(a: seq<byte>, i: nat): (cps: seq<nat>)
    requires i < |a|
    ensures |cps| <= 1
  {
    var b: int := a[i];
    if b < 0x80 then
      [b]
    else if i + 1 < |a| && 0xC0 <= b < 0xE0 && IsCont(a[i + 1]) then
      [b % 0x20 * 0x40 + Low6(a[i + 1])]
    else if i + 2 < |a| && 0xE0 <= b < 0xF0 && IsCont(a[i + 1]) && IsCont(a[i + 2]) then
      [b % 0x10 * 0x1000 + Low6(a[i + 1]) * 0x40 + Low6(a[i + 2])]
    else if i + 3 < |a| && 0xF0 <= b < 0xF8 && IsCont(a[i + 1]) && IsCont(a[i + 2]) && IsCont(a[i + 3]) then
      [b % 0x08 * 0x40000 + Low6(a[i + 1]) * 0x1000 + Low6(a[i + 2]) * 0x40 + Low6(a[i + 3])]
    else
      []
  }

  /** `x & m` on an octet, as a number. */
  function Bits(x: bv8, m: bv8): nat {
    (x & m) as int
  }

  /** The loop body on the octets of a `Uint8Array`, with the masks as
      written. */
  function StepAsWritten(a: seq<bv8>, i: nat): (cps: seq<nat>)
    requires i < |a|
  {
    var b := a[i];
    if Bits(b, 0x80) == 0 then
      [Bits(b, 0x7F)]
    else if i + 1 < |a| && Bits(b, 0xE0) == 0xC0 && Bits(a[i + 1], 0xC0) == 0x80 then
      [Bits(b, 0x1F) * 0x40 + Bits(a[i + 1], 0x3F)]
    else if i + 2 < |a| && Bits(b, 0xF0) == 0xE0 && Bits(a[i + 1], 0xC0) == 0x80 && Bits(a[i + 2], 0xC0) == 0x80 then
      [Bits(b, 0x0F) * 0x1000 + Bits(a[i + 1], 0x3F) * 0x40 + Bits(a[i + 2], 0x3F)]
    else if i + 3 < |a| && Bits(b, 0xF8) == 0xF0 && Bits(a[i + 1], 0xC0) == 0x80
         && Bits(a[i + 2], 0xC0) == 0x80 && Bits(a[i + 3], 0xC0) == 0x80 then
      [Bits(b, 0x07) * 0x40000 + Bits(a[i + 1], 0x3F) * 0x1000 + Bits(a[i + 2], 0x3F) * 0x40 + Bits(a[i + 3], 0x3F)]
    else
      []
  }

  lemma Mask80(x: bv8) ensures Bits(x, 0x80) == 0 <==> x as int < 0x80 {}
  lemma MaskE0(x: bv8) ensures Bits(x, 0xE0) == 0xC0 <==> 0xC0 <= x as int < 0xE0 {}
  lemma MaskF0(x: bv8) ensures Bits(x, 0xF0) == 0xE0 <==> 0xE0 <= x as int < 0xF0 {}
  lemma MaskF8(x: bv8) ensures Bits(x, 0xF8) == 0xF0 <==> 0xF0 <= x as int < 0xF8 {}
  lemma MaskC0(x: bv8) ensures Bits(x, 0xC0) == 0x80 <==> IsCont(x as int) {}
  lemma Mask7F(x: bv8) ensures Bits(x, 0x7F) == x as int % 0x80 {}
  lemma Mask3F(x: bv8) ensures Bits(x, 0x3F) == x as int % 0x40 {}
  lemma Mask1F(x: bv8) ensures Bits(x, 0x1F) == x as int % 0x20 {}
  lemma Mask0F(x: bv8) ensures Bits(x, 0x0F) == x as int % 0x10 {}
  lemma Mask07(x: bv8) ensures Bits(x, 0x07) == x as int % 0x08 {}

  /** The test and the field of a continuation byte. */
  lemma Cont(x: bv8)
    ensures Bits(x, 0xC0) == 0x80 <==> IsCont(x as int)
    ensures Bits(x, 0x3F) == Low6(x as int)
  {
    MaskC0(x); Mask3F(x);
  }

  /** The values of the octets. */
  function Octets(a: seq<bv8>): (bs: seq<byte>)
    ensures |bs| == |a|
  {
    seq(|a|, i requires 0 <= i < |a| => a[i] as int)
  }

  /** `Step` is the loop body: on the values of any octets it pushes what
      the masked tests and fields as written push. */
  lemma StepAgrees(a: seq<bv8>, i: nat)
    requires i < |a|
    ensures StepAsWritten(a, i) == Step(Octets(a), i)
  {
    var b := a[i] as int;
    if b < 0x80 {
      AgreeAscii(a, i);
    } else if b < 0xC0 || 0xF8 <= b {
      AgreeNone(a, i);
    } else if b < 0xE0 {
      AgreeTwo(a, i);
    } else if b < 0xF0 {
      AgreeThree(a, i);
    } else {
      AgreeFour(a, i);
    }
  }

  lemma AgreeAscii(a: seq<bv8>, i: nat)
    requires i < |a| && a[i] as int < 0x80
    ensures StepAsWritten(a, i) == Step(Octets(a), i)
  {
    Mask80(a[i]); Mask7F(a[i]);
  }

  lemma AgreeNone(a: seq<bv8>, i: nat)
    requires i < |a| && (0x80 <= a[i] as int < 0xC0 || 0xF8 <= a[i] as int)
    ensures StepAsWritten(a, i) == Step(Octets(a), i) == []
  {
    var b := a[i];
    Mask80(b); MaskE0(b); MaskF0(b); MaskF8(b);
  }

  lemma AgreeTwo(a: seq<bv8>, i: nat)
    requires i < |a| && 0xC0 <= a[i] as int < 0xE0
    ensures StepAsWritten(a, i) == Step(Octets(a), i)
  {
    var b := a[i];
    Mask80(b); MaskE0(b); MaskF0(b); MaskF8(b); Mask1F(b);
    if i + 1 < |a| { Cont(a[i + 1]); }
  }

  lemma AgreeThree(a: seq<bv8>, i: nat)
    requires i < |a| && 0xE0 <= a[i] as int < 0xF0
    ensures StepAsWritten(a, i) == Step(Octets(a), i)
  {
    var b := a[i];
    Mask80(b); MaskE0(b); MaskF0(b); MaskF8(b); Mask0F(b);
    if i + 1 < |a| { Cont(a[i + 1]); }
    if i + 2 < |a| { Cont(a[i + 2]); }
  }

  lemma AgreeFour(a: seq<bv8>, i: nat)
    requires i < |a| && 0xF0 <= a[i] as int < 0xF8
    ensures StepAsWritten(a, i) == Step(Octets(a), i)
  {
    var b := a[i];
    Mask80(b); MaskE0(b); MaskF0(b); MaskF8(b); Mask07(b);
    if i + 1 < |a| { Cont(a[i + 1]); }
    if i + 2 < |a| { Cont(a[i + 2]); }
    if i + 3 < |a| { Cont(a[i + 3]); }
  }

  /** The code points the loop pushes from index `i` on. */
  function CodePointsFrom(a: seq<byte>, i: nat): (cps: seq<nat>)
    requires i <= |a|
    ensures |cps| <= |a| - i
    decreases |a| - i
  {
    if i == |a| then [] else Step(a, i) + CodePointsFrom(a, i + 1)
  }

  /** The `codepoints` array the loop builds. */
  function CodePoints(a: seq<byte>): seq<nat> {
    CodePointsFrom(a, 0)
  }

  /** `String.fromCharCode(c)`: the code unit `ToUint16(c)`. */
  function CharCode(c: int): Unit {
    c % 0x1_0000
  }

  /** `String.fromCharCode.apply(null, cps)`: one unit per code point. */
  function FromCharCodes(cps: seq<int>): (units: seq<Unit>)
    ensures |units| == |cps|
  {
    if |cps| == 0 then [] else [CharCode(cps[0])] + FromCharCodes(cps[1..])
  }

  /** `decodeUTF8(array)` as written. */
  function DecodeUtf8(a: seq<byte>): (units: seq<Unit>)
    ensures |units| <= |a|
  {
    FromCharCodes(CodePoints(a))
  }

  /** The units of one decoded code point: itself below U+10000, its
      surrogate pair up to U+10FFFF (section 2.1 of RFC 2781), and U+FFFD
      above, where no character exists. */
  function CodePointUnits(c: int): (units: seq<Unit>)
    requires c >= 0
    ensures 1 <= |units| <= 2
  {
    if c < 0x1_0000 then [c]
    else if c <= 0x10FFFF then [0xD800 + (c - 0x1_0000) / 0x400, 0xDC00 + (c - 0x1_0000) % 0x400]
    else [Replacement]
  }

  function AllUnits(cps: seq<nat>): (units: seq<Unit>)
    ensures |units| >= |cps|
  {
    if |cps| == 0 then [] else CodePointUnits(cps[0]) + AllUnits(cps[1..])
  }

  /** `decodeUTF8(array)` with each code point written as UTF-16. */
  function DecodeUtf8Corrected(a: seq<byte>): (units: seq<Unit>) {
    AllUnits(CodePoints(a))
  }

  /** The loop looks only forward: what it pushes from a position depends
      only on the bytes from there on. */
  lemma StepShift(p: seq<byte>, q: seq<byte>, j: nat)
    requires j < |q|
    ensures Step(p + q, |p| + j) == Step(q, j)
  {
    var a := p + q;
    assert a[|p| + j] == q[j];
    assert |p| + j + 1 < |a| ==> a[|p| + j + 1] == q[j + 1];
    assert |p| + j + 2 < |a| ==> a[|p| + j + 2] == q[j + 2];
    assert |p| + j + 3 < |a| ==> a[|p| + j + 3] == q[j + 3];
  }

  lemma {:induction false} ShiftFrom(p: seq<byte>, q: seq<byte>, j: nat)
    requires j <= |q|
    ensures CodePointsFrom(p + q, |p| + j) == CodePointsFrom(q, j)
    decreases |q| - j
  {
    if j < |q| {
      StepShift(p, q, j);
      ShiftFrom(p, q, j + 1);
    }
  }

  /** A continuation byte pushes nothing. */
  lemma ContinuationPushesNothing(a: seq<byte>, i: nat)
    requires i < |a| && IsCont(a[i])
    ensures Step(a, i) == []
  {
  }

  /** The loop steps over a run of continuation bytes. */
  lemma {:induction false} SkipContinuations(a: seq<byte>, i: nat, k: nat)
    requires i <= k <= |a|
    requires forall m | i <= m < k :: IsCont(a[m])
    ensures CodePointsFrom(a, i) == CodePointsFrom(a, k)
    decreases k - i
  {
    if i < k {
      ContinuationPushesNothing(a, i);
      SkipContinuations(a, i + 1, k);
    }
  }

  /** The fields of a two-byte sequence put the scalar value back together. */
  lemma Fields2(c: int)
    requires 0x80 <= c < 0x800
    ensures 0xC0 <= 0xC0 + c / 0x40 < 0xE0
    ensures (0xC0 + c / 0x40) % 0x20 * 0x40 + Low6(0x80 + c % 0x40) == c
  {
    var h, l := c / 0x40, c % 0x40;
    assert (0xC0 + h) % 0x20 == h;
    assert Low6(0x80 + l) == l;
  }

  /** The fields of a three-byte sequence put the scalar value back together. */
  lemma Fields3(c: int)
    requires 0x800 <= c < 0x1_0000
    ensures 0xE0 <= 0xE0 + c / 0x1000 < 0xF0
    ensures (0xE0 + c / 0x1000) % 0x10 * 0x1000 + Low6(0x80 + c / 0x40 % 0x40) * 0x40 + Low6(0x80 + c % 0x40) == c
  {
    var h, m, l := c / 0x1000, c / 0x40 % 0x40, c % 0x40;
    assert c / 0x40 == h * 0x40 + m;
    assert (0xE0 + h) % 0x10 == h;
    assert Low6(0x80 + m) == m && Low6(0x80 + l) == l;
  }

  /** The fields of a four-byte sequence put the scalar value back together. */
  lemma Fields4(c: int)
    requires 0x1_0000 <= c <= 0x10FFFF
    ensures 0xF0 <= 0xF0 + c / 0x40000 < 0xF8
    ensures (0xF0 + c / 0x40000) % 0x08 * 0x40000 + Low6(0x80 + c / 0x1000 % 0x40) * 0x1000
            + Low6(0x80 + c / 0x40 % 0x40) * 0x40 + Low6(0x80 + c % 0x40) == c
  {
    var h, m1, m2, l := c / 0x40000, c / 0x1000 % 0x40, c / 0x40 % 0x40, c % 0x40;
    assert c / 0x40 == (c / 0x1000) * 0x40 + m2;
    assert c / 0x1000 == h * 0x40 + m1;
    assert (0xF0 + h) % 0x08 == h;
    assert Low6(0x80 + m1) == m1 && Low6(0x80 + m2) == m2 && Low6(0x80 + l) == l;
  }

  /** The lead byte of the RFC 3629 encoding of a scalar value pushes that
      value back. */
  lemma StepDecodesScalar(c: int, q: seq<byte>)
    requires IsScalar(c)
    ensures Step(EncodeScalar(c) + q, 0) == [c]
  {
    var e := EncodeScalar(c);
    var a := e + q;
    if c < 0x80 {
      assert a[0] == c;
    } else if c < 0x800 {
      Fields2(c);
      assert a[0] == e[0] && a[1] == e[1];
    } else if c < 0x1_0000 {
      Fields3(c);
      assert a[0] == e[0] && a[1] == e[1] && a[2] == e[2];
    } else {
      Fields4(c);
      assert a[0] == e[0] && a[1] == e[1] && a[2] == e[2] && a[3] == e[3];
    }
  }

  /** The encoding of one scalar value followed by anything decodes to that
      value followed by the decoding of the rest. */
  lemma DecodeEncodedScalar(c: int, q: seq<byte>)
    requires IsScalar(c)
    ensures CodePointsFrom(EncodeScalar(c) + q, 0) == [c] + CodePointsFrom(q, 0)
  {
    var e := EncodeScalar(c);
    var a := e + q;
    StepDecodesScalar(c, q);
    assert forall m | 1 <= m < |e| :: IsCont(a[m]);
    SkipContinuations(a, 1, |e|);
    ShiftFrom(e, q, 0);
  }

  /** The loop recovers every scalar value from its UTF-8 encoding. */
  lemma {:induction false} CodePointsRoundTrip(cps: seq<int>)
    requires AllScalars(cps)
    ensures CodePoints(Utf8Encode(cps)) == cps
  {
    if |cps| > 0 {
      DecodeEncodedScalar(cps[0], Utf8Encode(cps[1..]));
      CodePointsRoundTrip(cps[1..]);
      assert cps == [cps[0]] + cps[1..];
    }
  }

  /** A code point below U+10000 is its own unit. */
  lemma {:induction false} FromCharCodesBmp(cps: seq<int>)
    requires forall i | 0 <= i < |cps| :: 0 <= cps[i] < 0x1_0000
    ensures FromCharCodes(cps) == cps
  {
    if |cps| > 0 {
      FromCharCodesBmp(cps[1..]);
      assert cps == [cps[0]] + cps[1..];
    }
  }

  /** As written, text of the Basic Multilingual Plane comes back intact. */
  lemma DecodeUtf8Bmp(cps: seq<int>)
    requires AllScalars(cps) && forall i | 0 <= i < |cps| :: cps[i] < 0x1_0000
    ensures DecodeUtf8(Utf8Encode(cps)) == cps
  {
    CodePointsRoundTrip(cps);
    FromCharCodesBmp(cps);
  }

  /** As written, U+1F600 (bytes F0 9F 98 80) comes back as the single unit
      0xF600 instead of the pair D83D DE00. */
  lemma AstralCharacterTruncated()
    ensures CodePoints([0xF0, 0x9F, 0x98, 0x80]) == [0x1F600]
    ensures DecodeUtf8([0xF0, 0x9F, 0x98, 0x80]) == [0xF600]
    ensures Utf16Encode([0x1F600]) == [0xD83D, 0xDE00]
  {
    var e := EncodeScalar(0x1F600);
    assert e == [0xF0, 0x9F, 0x98, 0x80];
    DecodeEncodedScalar(0x1F600, []);
    assert e + [] == e;
    assert CodePointsFrom([], 0) == [];
  }

  /** For scalar values, the corrected polyfill writes exactly the UTF-16
      encoding. */
  lemma {:induction false} AllUnitsIsUtf16(cps: seq<int>)
    requires AllScalars(cps)
    ensures forall i | 0 <= i < |cps| :: cps[i] >= 0
    ensures AllUnits(cps) == Utf16Encode(cps)
  {
    if |cps| > 0 {
      AllUnitsIsUtf16(cps[1..]);
    }
  }

  /** The corrected polyfill turns the UTF-8 encoding of any text back into
      the UTF-16 string of that text. */
  lemma DecodeUtf8CorrectedRoundTrip(cps: seq<int>)
    requires AllScalars(cps)
    ensures DecodeUtf8Corrected(Utf8Encode(cps)) == Utf16Encode(cps)
    ensures Utf16Decode(DecodeUtf8Corrected(Utf8Encode(cps))) == cps
  {
    CodePointsRoundTrip(cps);
    AllUnitsIsUtf16(cps);
    Utf16RoundTrip(cps);
  }
}
