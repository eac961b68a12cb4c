/** `getStringSize` (nbt.js:69-87), the UTF-8 byte count of a JavaScript
    string that the string writer puts in front of the bytes, and the text
    level string writer that uses it (nbt.js:126-134).

    The loop walks the UTF-16 units from the last to the first: a unit in
    0x80..0x7FF costs one byte more than its count, a unit above that two
    more, and after a trail surrogate the loop also steps over the unit
    before it, taking the two for one four-byte character. As written it
    steps over that unit whatever it is; `GetStringSizeAsWritten` models
    that, and `GetStringSize` steps over it only when it is the lead
    surrogate of a pair.
 */
module StringSize {
  import opened Bytes
  import opened Unicode
  import opened Tags
  import opened Encoding
  import opened Writer

  /** The bytes beyond one per unit that the loop as written adds over
      `units[..n]`, walking backwards from `units[n - 1]`. */
  function ExtraAsWritten(units: seq<Unit>, n: nat): (extra: nat)
    requires n <= |units|
    ensures extra <= 2 * n
  {
    if n == 0 then 0
    else
      var code := units[n - 1];
      if 0x7F < code <= 0x7FF then 1 + ExtraAsWritten(units, n - 1)
      else if 0x7FF < code then
        2 + (if IsTrail(code) && n >= 2 then ExtraAsWritten(units, n - 2) else ExtraAsWritten(units, n - 1))
      else ExtraAsWritten(units, n - 1)
  }

  /** What `getStringSize` as written returns. */
  function StringSizeAsWritten(units: seq<Unit>): nat {
    |units| + ExtraAsWritten(units, |units|)
  }

  /** Every trail surrogate that has a unit before it follows a lead
      surrogate or an ASCII unit: the strings on which stepping over the
      unit before a trail surrogate loses nothing. */
  predicate TrailsFollowLeadOrAscii(units: seq<Unit>) {
    forall i | 0 < i < |units| :: IsTrail(units[i]) ==> IsLead(units[i - 1]) || units[i - 1] < 0x80
  }

  /** Where the part of the string the loop has counted starts: one past the
      loop index, or 0 once the index has run below the string. */
  function Counted(i: int): nat {
    if i < 0 then 0 else i + 1
  }

  /** The part of the string the loop has counted, `units[k..]`, is `n`
      bytes of UTF-8 and does not start in the middle of a pair. */
  predicate CountedSoFar(units: seq<Unit>, k: nat, n: int)
    requires k <= |units|
  {
    k + Utf8Size(units[k..]) == n && NoSplit(units, k)
  }

  /** A unit that does not start a pair adds its own UTF-8 width. */
  lemma SuffixOne(units: seq<Unit>, at: nat)
    requires at < |units| && NoSplit(units, at + 1)
    ensures Utf8Size(units[at..]) == Utf8Width(Single(units[at])) + Utf8Size(units[at + 1..])
  {
    Utf8SizeSingle(units[at..]);
    assert units[at..][1..] == units[at + 1..];
  }

  /** A trail surrogate after its lead surrogate, or after an ASCII unit,
      adds four bytes together with that unit. */
  lemma SuffixTwo(units: seq<Unit>, at: nat)
    requires at + 1 < |units| && IsTrail(units[at + 1])
    requires IsLead(units[at]) || units[at] < 0x80
    ensures Utf8Size(units[at..]) == 4 + Utf8Size(units[at + 2..])
  {
    var v := units[at..];
    assert v[2..] == units[at + 2..];
    if IsLead(units[at]) {
      Utf8SizePair(v);
    } else {
      Utf8SizeSingle(v);
      Utf8SizeSingle(v[1..]);
      assert v[1..][1..] == v[2..];
    }
  }

  /** What one turn of the loop as written adds: the unit at `i` costs
      `added` bytes beyond its count, and the loop goes on at `next`. */
  lemma AsWrittenTurn(units: seq<Unit>, i: nat, next: int, added: nat)
    requires i < |units|
    requires added == Surplus(units[i])
    requires next == if 0x7FF < units[i] && IsTrail(units[i]) then i - 2 else i - 1
    ensures ExtraAsWritten(units, i + 1) == added + ExtraAsWritten(units, Counted(next))
  {
  }

  /** The bytes beyond its count that a unit costs in UTF-8 when it does
      not belong to a pair. */
  function Surplus(u: Unit): nat {
    if 0x7F < u <= 0x7FF then 1 else if 0x7FF < u then 2 else 0
  }

  /** On a string where every trail surrogate follows its lead surrogate or
      an ASCII unit, the loop as written charges a unit that does not belong
      to a pair exactly its surplus. */
  lemma AsWrittenSingle(units: seq<Unit>, k: nat)
    requires TrailsFollowLeadOrAscii(units) && k < |units| && NoSplit(units, k)
    ensures ExtraAsWritten(units, k + 1) == Surplus(units[k]) + ExtraAsWritten(units, k)
  {
    if IsTrail(units[k]) && k > 0 {
      assert units[k - 1] < 0x80;
      AsWrittenTurn(units, k - 1, k - 2, 0);
      AsWrittenTurn(units, k, k - 2, 2);
    } else {
      AsWrittenTurn(units, k, if IsTrail(units[k]) then k - 2 else k - 1, Surplus(units[k]));
    }
  }

  /** On a string where every trail surrogate follows its lead surrogate or
      an ASCII unit, what the loop as written adds for `units[k..]` is the
      UTF-8 length of `units[k..]`, for every `k` that does not cut a pair. */
  lemma {:induction false} AsWrittenCountsFrom(units: seq<Unit>, k: nat)
    requires TrailsFollowLeadOrAscii(units) && k <= |units| && NoSplit(units, k)
    ensures StringSizeAsWritten(units) == ExtraAsWritten(units, k) + k + Utf8Size(units[k..])
    decreases |units| - k
  {
    if k == |units| {
      assert units[k..] == [];
    } else if k + 1 < |units| && IsLead(units[k]) && IsTrail(units[k + 1]) {
      AsWrittenCountsFrom(units, k + 2);
      AsWrittenPairStep(units, k);
    } else {
      AsWrittenCountsFrom(units, k + 1);
      AsWrittenSingleStep(units, k);
    }
  }

  /** A surrogate pair at `k` moves the count from `units[k + 2..]` to
      `units[k..]`. */
  lemma AsWrittenPairStep(units: seq<Unit>, k: nat)
    requires k + 1 < |units| && IsLead(units[k]) && IsTrail(units[k + 1])
    requires StringSizeAsWritten(units) == ExtraAsWritten(units, k + 2) + k + 2 + Utf8Size(units[k + 2..])
    ensures StringSizeAsWritten(units) == ExtraAsWritten(units, k) + k + Utf8Size(units[k..])
  {
    AsWrittenTurn(units, k + 1, k - 1, 2);
    assert Counted(k - 1) == k;
    SuffixTwo(units, k);
  }

  /** A unit at `k` that does not start a pair moves the count from
      `units[k + 1..]` to `units[k..]`. */
  lemma AsWrittenSingleStep(units: seq<Unit>, k: nat)
    requires TrailsFollowLeadOrAscii(units) && k < |units| && NoSplit(units, k) && NoSplit(units, k + 1)
    requires StringSizeAsWritten(units) == ExtraAsWritten(units, k + 1) + k + 1 + Utf8Size(units[k + 1..])
    ensures StringSizeAsWritten(units) == ExtraAsWritten(units, k) + k + Utf8Size(units[k..])
  {
    SuffixOne(units, k);
    AsWrittenSingle(units, k);
  }

  /** The first unit of the UTF-16 encoding of scalar values is never a
      trail surrogate. */
  lemma EncodedHeadNotTrail(cps: seq<int>)
    requires AllScalars(cps) && |cps| > 0
    ensures |Utf16Encode(cps)| > 0 && !IsTrail(Utf16Encode(cps)[0])
  {
  }

  /** Well-formed UTF-16, the encoding of scalar values, has every trail
      surrogate right after its lead surrogate. */
  lemma {:induction false} EncodedTrailsFollowLead(cps: seq<int>)
    requires AllScalars(cps)
    ensures TrailsFollowLeadOrAscii(Utf16Encode(cps))
  {
    if |cps| > 0 {
      var u, rest := Utf16Encode(cps), Utf16Encode(cps[1..]);
      EncodedTrailsFollowLead(cps[1..]);
      var w := if cps[0] < 0x10000 then 1 else 2;
      assert u[w..] == rest;
      assert w == 2 ==> IsLead(u[0]) && IsTrail(u[1]);
      if |rest| > 0 {
        EncodedHeadNotTrail(cps[1..]);
        assert u[w] == rest[0];
      }
      forall i | 0 < i < |u| ensures IsTrail(u[i]) ==> IsLead(u[i - 1]) || u[i - 1] < 0x80 {
        if i > w {
          assert u[i] == rest[i - w] && u[i - 1] == rest[i - w - 1];
        }
      }
    }
  }

  /** `getStringSize` as written counts the UTF-8 length of every
      well-formed UTF-16 string. */
  lemma EncodedStringCounted(cps: seq<int>)
    requires AllScalars(cps)
    ensures StringSizeAsWritten(Utf16Encode(cps)) == |Utf8Encode(cps)|
  {
    var u := Utf16Encode(cps);
    EncodedTrailsFollowLead(cps);
    AsWrittenCountsFrom(u, 0);
    assert u[0..] == u;
    Utf16RoundTrip(cps);
  }

  /** `getStringSize` as written: the loop of nbt.js:73-85. Its count is
      the UTF-8 length whenever no trail surrogate follows a non-ASCII unit
      other than its lead surrogate, and at most three bytes per unit. */
  method GetStringSizeAsWritten(units: seq<Unit>) returns (s: nat)
    ensures s == StringSizeAsWritten(units)
    ensures |units| <= s <= 3 * |units|
    ensures TrailsFollowLeadOrAscii(units) ==> s == Utf8Size(units)
  {
    s := |units|;
    var i: int := |units| - 1;
    while i >= 0
      invariant -2 <= i < |units|
      invariant s + ExtraAsWritten(units, Counted(i)) == StringSizeAsWritten(units)
      decreases i
    {
      ghost var (at, before) := (i, s);
      var code := units[i];
      if 0x7F < code <= 0x7FF {
        s := s + 1;
      } else if 0x7FF < code <= 0xFFFF {
        s := s + 2;
        if IsTrail(code) {
          i := i - 1;
        }
      }
      i := i - 1;
      AsWrittenTurn(units, at, i, s - before);
    }
    if TrailsFollowLeadOrAscii(units) {
      AsWrittenCountsFrom(units, 0);
      assert units[0..] == units;
    }
  }

  /** `getStringSize` as it is meant to work: after a trail surrogate, step
      over the unit before it only when that unit is its lead surrogate.
      The count is the UTF-8 length Node writes. */
  method GetStringSize(units: seq<Unit>) returns (s: nat)
    ensures s == Utf8Size(units)
  {
    s := |units|;
    var i: int := |units| - 1;
    while i >= 0
      invariant -1 <= i < |units|
      invariant CountedSoFar(units, i + 1, s)
      decreases i
    {
      var code := units[i];
      if 0x7F < code <= 0x7FF {
        s := s + 1;
        SuffixOne(units, i);
      } else if 0x7FF < code <= 0xFFFF {
        s := s + 2;
        if IsTrail(code) && i > 0 && IsLead(units[i - 1]) {
          SuffixTwo(units, i - 1);
          i := i - 1;
        } else {
          SuffixOne(units, i);
        }
      } else {
        SuffixOne(units, i);
      }
      i := i - 1;
    }
  }

  /** The smallest string the loop as written miscounts: "é" followed by an
      unpaired trail surrogate. The loop counts 4 bytes; Node writes 5, two
      for "é" and three for the U+FFFD that replaces the trail surrogate. */
  lemma LoneTrailMiscounted()
    ensures StringSizeAsWritten([0xE9, 0xDC00]) == 4
    ensures Utf8Size([0xE9, 0xDC00]) == 5
  {
    var u: seq<Unit> := [0xE9, 0xDC00];
    Utf8SizeSingle(u);
    Utf8SizeSingle(u[1..]);
    assert u[1..][1..] == [];
  }

  /** `string(value)` (nbt.js:126-134) with the corrected count: the UTF-8
      byte count as a short, then Node's UTF-8 encoding of the value. The
      writer as nbt.js has it is `WriteStringAsWritten`; the two agree
      wherever the count as written is right (`WriteStringAgrees`). */
  method WriteString(w: Writer, value: seq<Unit>) returns (r: Writer)
    requires Utf8Size(value) <= MaxStringBytes
    ensures r == WriteStringBytes(w, Utf8Encode(Utf16Decode(value)))
  {
    var len := GetStringSize(value);
    r := WriteShort(w, len);
    var bytes := Utf8Encode(Utf16Decode(value));
    PutIsWrite(r, bytes);
    r := Write(r, bytes);
    PutPut(w, EncShort(len), bytes);
  }

  /** The UTF-8 of the longest run of leading whole characters of `cps`
      that fits in `room` bytes: what `buffer.write(value, offset)` stores
      when the buffer ends before the string does. */
  function FitWhole(cps: seq<int>, room: nat): (r: seq<byte>)
    requires AllScalars(cps)
    ensures |r| <= room && r <= Utf8Encode(cps)
    ensures |Utf8Encode(cps)| <= room ==> r == Utf8Encode(cps)
    ensures |r| < |Utf8Encode(cps)| ==> room < |r| + 4
    decreases |cps|
  {
    if |cps| == 0 || Utf8Width(cps[0]) > room then []
    else
      assert AllScalars(cps[1..]);
      EncodeScalar(cps[0]) + FitWhole(cps[1..], room - Utf8Width(cps[0]))
  }

  /** `string(value)` as written (nbt.js:126-134): the count `getStringSize`
      returns as a short, room for that many bytes, the whole characters of
      the value that fit before the end of the buffer, and the cursor moved
      on by the count. */
  function WriteStringAsWritten(w: Writer, value: seq<Unit>): (r: Writer)
    requires StringSizeAsWritten(value) <= MaxStringBytes
    ensures r.offset == w.offset + 2 + StringSizeAsWritten(value) <= |r.buffer|
  {
    var len := StringSizeAsWritten(value);
    var a := Accommodate(WriteShort(w, len), len);
    var bytes := FitWhole(Utf16Decode(value), |a.buffer| - a.offset);
    Writer(Overwrite(a.buffer, a.offset, bytes), a.offset + len)
  }

  /** Wherever `getStringSize` as written counts right, the string writer as
      written stores the count and the whole UTF-8 encoding of the value. */
  lemma WriteStringAgrees(w: Writer, value: seq<Unit>)
    requires TrailsFollowLeadOrAscii(value) && Utf8Size(value) <= MaxStringBytes
    ensures StringSizeAsWritten(value) == Utf8Size(value)
    ensures WriteStringAsWritten(w, value) == WriteStringBytes(w, Utf8Encode(Utf16Decode(value)))
  {
    AsWrittenCountsFrom(value, 0);
    assert value[0..] == value;
    var bytes := Utf8Encode(Utf16Decode(value));
    var h := WriteShort(w, |bytes|);
    PutIsWrite(h, bytes);
  }

  /** The string writer as written on "é" and an unpaired trail surrogate:
      it counts 4 bytes, has room for "é" (2 bytes) but not for the three
      bytes of U+FFFD, and so leaves two bytes of the fresh allocation in the
      string, zero on Node 8 and later. */
  lemma LoneTrailWritten()
    ensures WriteStringAsWritten(Fresh, [0xE9, 0xDC00]) == Writer([0, 4, 0xC3, 0xA9, 0, 0], 6)
  {
    LoneTrailMiscounted();
    LoneTrailFits();
    LoneTrailHeader();
    var a := Accommodate(Writer([0, 4], 2), 4);
    assert a == Writer([0, 4, 0, 0, 0, 0], 2);
    assert Overwrite(a.buffer, 2, [0xC3, 0xA9]) == [0, 4, 0xC3, 0xA9, 0, 0];
  }

  /** "é" fits in the four bytes counted; U+FFFD after it does not. */
  lemma LoneTrailFits()
    ensures FitWhole(Utf16Decode([0xE9, 0xDC00]), 4) == [0xC3, 0xA9]
  {
    var u: seq<Unit> := [0xE9, 0xDC00];
    assert Utf16Decode(u) == [0xE9, Replacement] by {
      assert Utf16Decode(u[1..]) == [Replacement] + Utf16Decode([]);
    }
    assert FitWhole([Replacement], 2) == [];
    assert FitWhole([0xE9, Replacement], 4) == [0xC3, 0xA9] + [];
  }

  /** The count 4 as a short on a fresh writer. */
  lemma LoneTrailHeader()
    ensures WriteShort(Fresh, 4) == Writer([0, 4], 2)
  {
    assert EncShort(4) == [0, 4] by {
      assert ToBigEndian(4, 2) == ToBigEndian(0, 1) + [4];
      assert ToBigEndian(0, 1) == ToBigEndian(0, 0) + [0];
    }
    assert Poke(Fresh, 0) == Writer([0], 1);
    assert Put(Writer([0, 4], 2), []) == Writer([0, 4], 2);
    assert Put(Poke(Writer([0], 1), 4), [4][1..]) == Writer([0, 4], 2);
  }
}
