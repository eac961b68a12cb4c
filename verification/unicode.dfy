/** The two text encodings the codec meets: JavaScript strings are UTF-16
    code units (RFC 2781) and NBT strings are UTF-8 bytes (RFC 3629).

    Node's `Buffer.write(string)` and `Buffer.byteLength(string)` decode
    the UTF-16 units into code points, read each unpaired surrogate as
    U+FFFD, and encode the code points as UTF-8; `Utf8Encode(Utf16Decode(u))`
    is that byte string.
 */
module Unicode {
  import opened Bytes

  /** A UTF-16 code unit, as `String.prototype.charCodeAt` returns it. */
  type Unit = x: int | 0 <= x < 0x1_0000

  /** Section 2.2 of RFC 2781: a high (lead) surrogate W1. */
  predicate IsLead(u: int) { 0xD800 <= u <= 0xDBFF }

  /** Section 2.2 of RFC 2781: a low (trail) surrogate W2. */
  predicate IsTrail(u: int) { 0xDC00 <= u <= 0xDFFF }

  /** A Unicode scalar value: a code point that is not a surrogate. */
  predicate IsScalar(c: int) {
    0 <= c <= 0x10FFFF && !(0xD800 <= c <= 0xDFFF)
  }

  predicate AllScalars(cps: seq<int>) {
    forall i | 0 <= i < |cps| :: IsScalar(cps[i])
  }

  /** U+FFFD REPLACEMENT CHARACTER. */
  const Replacement: int := 0xFFFD

  /** Section 2.2 of RFC 2781: the scalar value a surrogate pair stands for. */
  function Combine(lead: int, trail: int): int {
    0x10000 + (lead - 0xD800) * 0x400 + (trail - 0xDC00)
  }

  /** The code point one unit stands for when it is not part of a pair: an
      unpaired surrogate reads as U+FFFD. */
  function Single(u: int): int {
    if IsLead(u) || IsTrail(u) then Replacement else u
  }

  /** Section 2.2 of RFC 2781, with an unpaired surrogate read as U+FFFD. */
  function Utf16Decode(units: seq<Unit>): (cps: seq<int>)
    ensures AllScalars(cps) && |cps| <= |units|
  {
    if |units| == 0 then []
    else if |units| > 1 && IsLead(units[0]) && IsTrail(units[1]) then
      [Combine(units[0], units[1])] + Utf16Decode(units[2..])
    else
      [Single(units[0])] + Utf16Decode(units[1..])
  }

  /** Section 2.1 of RFC 2781: a scalar value as one unit, or as a
      surrogate pair when it lies above U+FFFF. */
  function Utf16Encode(cps: seq<int>): (units: seq<Unit>)
    requires AllScalars(cps)
    ensures |units| >= |cps|
  {
    if |cps| == 0 then []
    else if cps[0] < 0x10000 then [cps[0]] + Utf16Encode(cps[1..])
    else
      var v := cps[0] - 0x10000;
      [0xD800 + v / 0x400, 0xDC00 + v % 0x400] + Utf16Encode(cps[1..])
  }

  /** Decoding undoes encoding: no scalar value is lost or merged. */
  lemma {:induction false} Utf16RoundTrip(cps: seq<int>)
    requires AllScalars(cps)
    ensures Utf16Decode(Utf16Encode(cps)) == cps
  {
    if |cps| > 0 {
      var u := Utf16Encode(cps);
      Utf16RoundTrip(cps[1..]);
      if cps[0] < 0x10000 {
        assert u == [cps[0]] + Utf16Encode(cps[1..]);
        assert u[1..] == Utf16Encode(cps[1..]);
        assert !IsLead(u[0]) && !IsTrail(u[0]);
      } else {
        var v := cps[0] - 0x10000;
        assert u == [0xD800 + v / 0x400, 0xDC00 + v % 0x400] + Utf16Encode(cps[1..]);
        assert u[2..] == Utf16Encode(cps[1..]);
        assert IsLead(u[0]) && IsTrail(u[1]) && Combine(u[0], u[1]) == cps[0];
      }
      assert cps == [cps[0]] + cps[1..];
    }
  }

  /** The number of UTF-8 bytes of a scalar value (section 3 of RFC 3629). */
  function Utf8Width(c: int): (n: nat)
    ensures 1 <= n <= 4
  {
    if c < 0x80 then 1 else if c < 0x800 then 2 else if c < 0x10000 then 3 else 4
  }

  /** Section 3 of RFC 3629: the bit pattern of a scalar value spread over a
      lead byte and 6-bit continuation bytes `10xxxxxx`. */
  function EncodeScalar(c: int): (r: seq<byte>)
    requires IsScalar(c)
    ensures |r| == Utf8Width(c)
  {
    if c < 0x80 then [c]
    else if c < 0x800 then [0xC0 + c / 0x40, 0x80 + c % 0x40]
    else if c < 0x10000 then [0xE0 + c / 0x1000, 0x80 + c / 0x40 % 0x40, 0x80 + c % 0x40]
    else [0xF0 + c / 0x40000, 0x80 + c / 0x1000 % 0x40, 0x80 + c / 0x40 % 0x40, 0x80 + c % 0x40]
  }

  function Utf8Encode(cps: seq<int>): (r: seq<byte>)
    requires AllScalars(cps)
  {
    if |cps| == 0 then [] else EncodeScalar(cps[0]) + Utf8Encode(cps[1..])
  }

  /** The UTF-8 byte count of a JavaScript string, as Node measures it. */
  function Utf8Size(units: seq<Unit>): nat {
    |Utf8Encode(Utf16Decode(units))|
  }

  /** A string that starts with one unit that does not pair with the next
      one encodes that unit first. */
  lemma Utf8SizeSingle(units: seq<Unit>)
    requires |units| > 0
    requires !(|units| > 1 && IsLead(units[0]) && IsTrail(units[1]))
    ensures Utf8Size(units) ==
      Utf8Width(Single(units[0])) + Utf8Size(units[1..])
  {
    var cps := Utf16Decode(units);
    assert cps[1..] == Utf16Decode(units[1..]);
  }

  /** A string that starts with a surrogate pair encodes it in four bytes. */
  lemma Utf8SizePair(units: seq<Unit>)
    requires |units| > 1 && IsLead(units[0]) && IsTrail(units[1])
    ensures Utf8Size(units) == 4 + Utf8Size(units[2..])
  {
    var cps := Utf16Decode(units);
    assert cps[1..] == Utf16Decode(units[2..]);
  }

  /** No surrogate pair straddles position `j`. */
  predicate NoSplit(units: seq<Unit>, j: int) {
    !(0 < j < |units| && IsLead(units[j - 1]) && IsTrail(units[j]))
  }
}
