/** Every reader inverts the matching encoder: reading the bytes a writer
    produces, wherever they sit in a larger buffer, gives the value back and
    stops exactly after them.
 */
module RoundTrip {
  import opened Outcomes
  import opened Bytes
  import opened TagTypes
  import opened Tags
  import opened Encoding
  import opened Reader

  /** `data` holds `bytes` starting at offset `off`. */
  predicate At(data: seq<byte>, off: nat, bytes: seq<byte>) {
    off + |bytes| <= |data| && data[off..off + |bytes|] == bytes
  }

  lemma AtIsSlice(data: seq<byte>, off: nat, bytes: seq<byte>)
    ensures At(data, off, bytes) <==> off + |bytes| <= |data| && data[off..off + |bytes|] == bytes
  {
  }

  lemma AtSplit(data: seq<byte>, off: nat, a: seq<byte>, b: seq<byte>)
    requires At(data, off, a + b)
    ensures At(data, off, a) && At(data, off + |a|, b)
  {
    AtIsSlice(data, off, a + b);
    SplitSlice(data, off, a, b);
    AtIsSlice(data, off, a);
    AtIsSlice(data, off + |a|, b);
  }

  lemma AtSplit3(data: seq<byte>, off: nat, a: seq<byte>, b: seq<byte>, c: seq<byte>)
    requires At(data, off, a + b + c)
    ensures At(data, off, a) && At(data, off + |a|, b) && At(data, off + |a| + |b|, c)
  {
    AtSplit(data, off, a + b, c);
    AtSplit(data, off, a, b);
  }

  lemma SignedRoundTrip(data: seq<byte>, off: nat, v: int, width: nat)
    requires width > 0 && InSigned(v, width)
    requires At(data, off, ToTwos(v, width))
    ensures ReadSigned(data, off, width) == Ok(Parsed(v, off + width))
  {
    AtIsSlice(data, off, ToTwos(v, width));
    ReadSignedInverts(data, off, width);
    FromTwosOfTwos(v, width);
    FromTwosOfTwos(ReadSigned(data, off, width).value.value, width);
  }

  lemma UnsignedRoundTrip(data: seq<byte>, off: nat, x: nat, width: nat)
    requires x < Pow256(width)
    requires At(data, off, ToBigEndian(x, width))
    ensures ReadUnsigned(data, off, width) == Ok(Parsed(x, off + width))
  {
    AtIsSlice(data, off, ToBigEndian(x, width));
    ReadUnsignedInverts(data, off, width);
    var y := ReadUnsigned(data, off, width).value.value;
    FromToBigEndian(x, width);
    FromToBigEndian(y, width);
  }

  /** The low byte `new Buffer([v])` stores for any number is the two's
      complement of the signed byte with the same low bits. */
  lemma LowByteIsTwos(v: int)
    ensures [v % 256] == ToTwos(SignedLow(v), 1)
  {
  }

  lemma LowBytesCons(bs: seq<int>)
    requires |bs| > 0
    ensures LowBytes(bs) == [bs[0] % 256] + LowBytes(bs[1..])
  {
  }

  /** One turn of the signed byte loop, then the rest. */
  lemma Int8sCons(data: seq<byte>, off: nat, bs: seq<int>)
    requires |bs| > 0 && off <= |data|
    requires ReadSigned(data, off, 1) == Ok(Parsed(bs[0], off + 1))
    requires ReadInt8s(data, off + 1, |bs| - 1) == Ok(Parsed(bs[1..], off + |bs|))
    ensures ReadInt8s(data, off, |bs|) == Ok(Parsed(bs, off + |bs|))
  {
    assert [bs[0]] + bs[1..] == bs;
  }

  /** The first stored byte reads back as the signed byte with its low
      bits; the rest sit right after it. */
  lemma Int8LowHead(data: seq<byte>, off: nat, bs: seq<int>)
    requires |bs| > 0 && At(data, off, LowBytes(bs))
    ensures ReadSigned(data, off, 1) == Ok(Parsed(SignedLow(bs[0]), off + 1))
    ensures At(data, off + 1, LowBytes(bs[1..]))
  {
    LowBytesCons(bs);
    AtSplit(data, off, [bs[0] % 256], LowBytes(bs[1..]));
    LowByteIsTwos(bs[0]);
    SignedRoundTrip(data, off, SignedLow(bs[0]), 1);
  }

  lemma SignedLowsTail(bs: seq<int>)
    requires |bs| > 0
    ensures SignedLows(bs)[0] == SignedLow(bs[0]) && SignedLows(bs)[1..] == SignedLows(bs[1..])
  {
  }

  /** The bytes `new Buffer(array)` stores read back, one signed byte at a
      time, as the signed bytes with the same low bits. */
  lemma {:induction false} Int8sReadLow(data: seq<byte>, off: nat, bs: seq<int>)
    requires At(data, off, LowBytes(bs))
    ensures ReadInt8s(data, off, |bs|) == Ok(Parsed(SignedLows(bs), off + |bs|))
    decreases |bs|
  {
    if |bs| == 0 {
      assert SignedLows(bs) == [];
    } else {
      Int8LowHead(data, off, bs);
      Int8sReadLow(data, off + 1, bs[1..]);
      Int8sLowStep(data, off, bs);
    }
  }

  /** The first byte, then the rest already read back. */
  lemma Int8sLowStep(data: seq<byte>, off: nat, bs: seq<int>)
    requires |bs| > 0 && At(data, off, LowBytes(bs))
    requires ReadInt8s(data, off + 1, |bs[1..]|) == Ok(Parsed(SignedLows(bs[1..]), off + 1 + |bs[1..]|))
    ensures ReadInt8s(data, off, |bs|) == Ok(Parsed(SignedLows(bs), off + |bs|))
  {
    Int8LowHead(data, off, bs);
    SignedLowsTail(bs);
    Int8sCons(data, off, SignedLows(bs));
  }

  lemma {:induction false} Int32sRoundTrip(data: seq<byte>, off: nat, xs: seq<int>)
    requires forall i | 0 <= i < |xs| :: IsInt32(xs[i])
    requires At(data, off, EncInts(xs))
    ensures ReadInt32s(data, off, |xs|) == Ok(Parsed(xs, off + 4 * |xs|))
    decreases |xs|
  {
    if |xs| > 0 {
      AtSplit(data, off, EncInt(xs[0]), EncInts(xs[1..]));
      SignedRoundTrip(data, off, xs[0], 4);
      Int32sRoundTrip(data, off + 4, xs[1..]);
      assert [xs[0]] + xs[1..] == xs;
    }
  }

  lemma LongRoundTrip(data: seq<byte>, off: nat, l: LongValue)
    requires IsLongValue(l)
    requires At(data, off, EncLong(l))
    ensures ReadLong(data, off) == Ok(Parsed(l, off + 8))
  {
    AtSplit(data, off, EncInt(l.upper), EncInt(l.lower));
    SignedRoundTrip(data, off, l.upper, 4);
    SignedRoundTrip(data, off + 4, l.lower, 4);
  }

  lemma {:induction false} LongsRoundTrip(data: seq<byte>, off: nat, ls: seq<LongValue>)
    requires forall i | 0 <= i < |ls| :: IsLongValue(ls[i])
    requires At(data, off, EncLongs(ls))
    ensures ReadLongs(data, off, |ls|) == Ok(Parsed(ls, off + 8 * |ls|))
    decreases |ls|
  {
    if |ls| > 0 {
      AtSplit(data, off, EncLong(ls[0]), EncLongs(ls[1..]));
      LongRoundTrip(data, off, ls[0]);
      LongsRoundTrip(data, off + 8, ls[1..]);
      assert [ls[0]] + ls[1..] == ls;
    }
  }

  /** The signed 16-bit prefix the writer uses and the unsigned one the
      reader uses agree on every length the writer accepts. */
  lemma StringRoundTrip(data: seq<byte>, off: nat, s: seq<byte>)
    requires |s| <= MaxStringBytes
    requires At(data, off, EncString(s))
    ensures ReadString(data, off) == Ok(Parsed(s, off + 2 + |s|))
  {
    AtSplit(data, off, EncShort(|s|), s);
    assert EncShort(|s|) == ToBigEndian(|s|, 2);
    UnsignedRoundTrip(data, off, |s|, 2);
    AtIsSlice(data, off + 2, s);
  }

  /** A byte array of any numbers reads back as the signed bytes with the
      same low bits. */
  lemma ByteArrayReadsLowBytes(data: seq<byte>, off: nat, bs: seq<int>)
    requires |bs| <= MaxCount
    requires At(data, off, EncByteArray(bs))
    ensures ReadByteArray(data, off) == Ok(Parsed(SignedLows(bs), off + 4 + |bs|))
  {
    AtSplit(data, off, EncInt(|bs|), LowBytes(bs));
    SignedRoundTrip(data, off, |bs|, 4);
    Int8sReadLow(data, off + 4, bs);
  }

  lemma ByteArrayRoundTrip(data: seq<byte>, off: nat, bs: seq<int>)
    requires |bs| <= MaxCount && forall i | 0 <= i < |bs| :: IsInt8(bs[i])
    requires At(data, off, EncByteArray(bs))
    ensures ReadByteArray(data, off) == Ok(Parsed(bs, off + 4 + |bs|))
  {
    ByteArrayReadsLowBytes(data, off, bs);
  }

  lemma IntArrayRoundTrip(data: seq<byte>, off: nat, xs: seq<int>)
    requires |xs| <= MaxCount && forall i | 0 <= i < |xs| :: IsInt32(xs[i])
    requires At(data, off, EncIntArray(xs))
    ensures ReadIntArray(data, off) == Ok(Parsed(xs, off + 4 + 4 * |xs|))
  {
    AtSplit(data, off, EncInt(|xs|), EncInts(xs));
    SignedRoundTrip(data, off, |xs|, 4);
    Int32sRoundTrip(data, off + 4, xs);
  }

  lemma LongArrayRoundTrip(data: seq<byte>, off: nat, ls: seq<LongValue>)
    requires |ls| <= MaxCount && forall i | 0 <= i < |ls| :: IsLongValue(ls[i])
    requires At(data, off, EncLongArray(ls))
    ensures ReadLongArray(data, off) == Ok(Parsed(ls, off + 4 + 8 * |ls|))
  {
    AtSplit(data, off, EncInt(|ls|), EncLongs(ls));
    SignedRoundTrip(data, off, |ls|, 4);
    LongsRoundTrip(data, off + 4, ls);
  }

  /** The next lemmas take one constructor each, so that every proof sees a
      single case of the payload codec. */
  lemma ByteTagRoundTrip(d: Dialect, t: Tag, data: seq<byte>, off: nat)
    requires t.ByteTag? && WellFormed(d, t) && At(data, off, EncPayload(t))
    ensures ReadPayload(d, data, off, KindOfTag(t)) == Ok(Parsed(t, off + |EncPayload(t)|))
  {
    SignedRoundTrip(data, off, t.byteValue, 1);
  }

  lemma ShortTagRoundTrip(d: Dialect, t: Tag, data: seq<byte>, off: nat)
    requires t.ShortTag? && WellFormed(d, t) && At(data, off, EncPayload(t))
    ensures ReadPayload(d, data, off, KindOfTag(t)) == Ok(Parsed(t, off + |EncPayload(t)|))
  {
    SignedRoundTrip(data, off, t.shortValue, 2);
  }

  lemma IntTagRoundTrip(d: Dialect, t: Tag, data: seq<byte>, off: nat)
    requires t.IntTag? && WellFormed(d, t) && At(data, off, EncPayload(t))
    ensures ReadPayload(d, data, off, KindOfTag(t)) == Ok(Parsed(t, off + |EncPayload(t)|))
  {
    SignedRoundTrip(data, off, t.intValue, 4);
  }

  lemma LongTagRoundTrip(d: Dialect, t: Tag, data: seq<byte>, off: nat)
    requires t.LongTag? && WellFormed(d, t) && At(data, off, EncPayload(t))
    ensures ReadPayload(d, data, off, KindOfTag(t)) == Ok(Parsed(t, off + |EncPayload(t)|))
  {
    LongRoundTrip(data, off, t.longValue);
  }

  lemma FloatTagRoundTrip(d: Dialect, t: Tag, data: seq<byte>, off: nat)
    requires t.FloatTag? && WellFormed(d, t) && At(data, off, EncPayload(t))
    ensures ReadPayload(d, data, off, KindOfTag(t)) == Ok(Parsed(t, off + |EncPayload(t)|))
  {
    UnsignedRoundTrip(data, off, t.floatBits, 4);
  }

  lemma DoubleTagRoundTrip(d: Dialect, t: Tag, data: seq<byte>, off: nat)
    requires t.DoubleTag? && WellFormed(d, t) && At(data, off, EncPayload(t))
    ensures ReadPayload(d, data, off, KindOfTag(t)) == Ok(Parsed(t, off + |EncPayload(t)|))
  {
    UnsignedRoundTrip(data, off, t.doubleBits, 8);
  }

  lemma ByteArrayTagRoundTrip(d: Dialect, t: Tag, data: seq<byte>, off: nat)
    requires t.ByteArrayTag? && WellFormed(d, t) && At(data, off, EncPayload(t))
    ensures ReadPayload(d, data, off, KindOfTag(t)) == Ok(Parsed(t, off + |EncPayload(t)|))
  {
    ByteArrayRoundTrip(data, off, t.bytes);
  }

  lemma StringTagRoundTrip(d: Dialect, t: Tag, data: seq<byte>, off: nat)
    requires t.StringTag? && WellFormed(d, t) && At(data, off, EncPayload(t))
    ensures ReadPayload(d, data, off, KindOfTag(t)) == Ok(Parsed(t, off + |EncPayload(t)|))
  {
    var s := t.utf8;
    assert EncPayload(t) == EncString(s);
    StringRoundTrip(data, off, s);
    assert ReadFlat(data, off, String) == Ok(Parsed(t, off + 2 + |s|));
  }

  lemma IntArrayTagRoundTrip(d: Dialect, t: Tag, data: seq<byte>, off: nat)
    requires t.IntArrayTag? && WellFormed(d, t) && At(data, off, EncPayload(t))
    ensures ReadPayload(d, data, off, KindOfTag(t)) == Ok(Parsed(t, off + |EncPayload(t)|))
  {
    IntArrayRoundTrip(data, off, t.ints);
  }

  lemma LongArrayTagRoundTrip(d: Dialect, t: Tag, data: seq<byte>, off: nat)
    requires t.LongArrayTag? && WellFormed(d, t) && At(data, off, EncPayload(t))
    ensures ReadPayload(d, data, off, KindOfTag(t)) == Ok(Parsed(t, off + |EncPayload(t)|))
  {
    LongArrayRoundTrip(data, off, t.longs);
  }

  /** A well-formed list's items are well-formed, of the list's kind, and
      the kind is registered whenever there are items. */
  lemma ListParts(d: Dialect, t: Tag)
    requires t.ListTag? && WellFormed(d, t)
    ensures Registered(d, t.elementKind)
    ensures forall i | 0 <= i < |t.items| :: KindOfTag(t.items[i]) == t.elementKind && Valid(t.items[i])
    ensures forall i | 0 <= i < |t.items| :: WellFormed(d, t.items[i])
    ensures ItemsOf(d, t.elementKind, t.items)
  {
    forall i | 0 <= i < |t.items| ensures WellFormed(d, t.items[i]) {
      assert Canonical(d, t.items[i]);
    }
  }

  /** The first entry of a well-formed compound is well-formed, and so is
      the compound of the rest. */
  lemma EntriesParts(d: Dialect, es: seq<Entry>)
    requires WellFormedEntries(d, es) && |es| > 0
    ensures ValidName(es[0].name) && WellFormed(d, es[0].tag)
    ensures WellFormedEntries(d, es[1..])
  {
    assert Canonical(d, es[0].tag);
    CompoundTail(es);
    forall i | 0 <= i < |es[1..]| ensures es[1..][i] == es[i + 1] {}
  }

  lemma CompoundTail(es: seq<Entry>)
    requires ValidEntries(es) && |es| > 0
    ensures ValidEntries(es[1..])
  {
    forall i, j | 0 <= i < j < |es[1..]| ensures es[1..][i].name != es[1..][j].name {
      assert es[i + 1].name != es[j + 1].name;
    }
  }

  /** A non-empty compound is its first entry followed by the compound of
      the rest. */
  lemma CompoundCons(es: seq<Entry>)
    requires ValidEntries(es) && |es| > 0 && ValidEntries(es[1..])
    ensures EncCompound(es) == EncEntry(es[0]) + EncCompound(es[1..])
  {
    assert EncEntries(es) == EncEntry(es[0]) + EncEntries(es[1..]);
  }

  /** A non-empty item list is its first payload followed by the rest. */
  lemma ItemsCons(items: seq<Tag>)
    requires |items| > 0 && forall i | 0 <= i < |items| :: Valid(items[i])
    ensures EncItems(items) == EncPayload(items[0]) + EncItems(items[1..])
  {
  }

  /** The compound handler wraps the entries `compound()` reads. */
  lemma CompoundPayload(d: Dialect, es: seq<Entry>, data: seq<byte>, off: nat, next: nat)
    requires off <= |data| && ReadCompound(d, data, off) == Ok(Parsed(es, next))
    ensures ReadPayload(d, data, off, Compound) == Ok(Parsed(CompoundTag(es), next))
  {
  }

  /** Reading a payload where its encoding sits gives the tag back and stops
      right after it. */
  lemma {:induction false} PayloadRoundTrip(d: Dialect, t: Tag, data: seq<byte>, off: nat)
    requires WellFormed(d, t)
    requires At(data, off, EncPayload(t))
    ensures ReadPayload(d, data, off, KindOfTag(t)) == Ok(Parsed(t, off + |EncPayload(t)|))
    decreases t, 2
  {
    if t.ByteTag? { ByteTagRoundTrip(d, t, data, off); }
    else if t.ShortTag? { ShortTagRoundTrip(d, t, data, off); }
    else if t.IntTag? { IntTagRoundTrip(d, t, data, off); }
    else if t.LongTag? { LongTagRoundTrip(d, t, data, off); }
    else if t.FloatTag? { FloatTagRoundTrip(d, t, data, off); }
    else if t.DoubleTag? { DoubleTagRoundTrip(d, t, data, off); }
    else if t.ByteArrayTag? { ByteArrayTagRoundTrip(d, t, data, off); }
    else if t.StringTag? { StringTagRoundTrip(d, t, data, off); }
    else if t.ListTag? { ListTagRoundTrip(d, t, data, off); }
    else if t.CompoundTag? { CompoundTagRoundTrip(d, t, data, off); }
    else if t.IntArrayTag? { IntArrayTagRoundTrip(d, t, data, off); }
    else { LongArrayTagRoundTrip(d, t, data, off); }
  }

  /** A well-formed list's element code and count read back, and its items
      sit right after them. */
  lemma ListHeadRoundTrip(d: Dialect, t: Tag, data: seq<byte>, off: nat)
    requires t.ListTag? && WellFormed(d, t) && At(data, off, EncPayload(t))
    ensures Registered(d, t.elementKind) && off + 5 <= |data| && |t.items| <= MaxCount
    ensures forall i | 0 <= i < |t.items| :: Valid(t.items[i])
    ensures ItemsOf(d, t.elementKind, t.items)
    ensures ReadSigned(data, off, 1) == Ok(Parsed(t.elementKind, off + 1))
    ensures ReadSigned(data, off + 1, 4) == Ok(Parsed(|t.items|, off + 5))
    ensures At(data, off + 5, EncItems(t.items))
    ensures off + |EncPayload(t)| == off + 5 + |EncItems(t.items)|
  {
    var k, items := t.elementKind, t.items;
    ListParts(d, t);
    assert EncPayload(t) == EncList(k, items);
    AtSplit3(data, off, EncKind(k), EncInt(|items|), EncItems(items));
    SignedRoundTrip(data, off, k, 1);
    SignedRoundTrip(data, off + 1, |items|, 4);
  }

  lemma {:induction false} ListTagRoundTrip(d: Dialect, t: Tag, data: seq<byte>, off: nat)
    requires t.ListTag? && WellFormed(d, t) && At(data, off, EncPayload(t))
    ensures ReadPayload(d, data, off, KindOfTag(t)) == Ok(Parsed(t, off + |EncPayload(t)|))
    decreases t, 1
  {
    ListHeadRoundTrip(d, t, data, off);
    ItemsRoundTrip(d, t.elementKind, t.items, data, off + 5);
    ListStep(d, t.elementKind, t.items, data, off, off + |EncPayload(t)|);
  }

  /** `list()` reads its element code, its count, then the items. */
  lemma ListStep(d: Dialect, k: Kind, items: seq<Tag>, data: seq<byte>, off: nat, next: nat)
    requires Registered(d, k)
    requires ReadSigned(data, off, 1) == Ok(Parsed(k, off + 1))
    requires ReadSigned(data, off + 1, 4) == Ok(Parsed(|items|, off + 5))
    requires off + 5 <= |data| && |items| <= MaxCount
    requires ReadItems(d, data, off + 5, k, |items|) == Ok(Parsed(items, next))
    ensures ReadList(d, data, off) == Ok(Parsed(ListTag(k, items), next))
  {
  }

  lemma {:induction false} CompoundTagRoundTrip(d: Dialect, t: Tag, data: seq<byte>, off: nat)
    requires t.CompoundTag? && WellFormed(d, t) && At(data, off, EncPayload(t))
    ensures ReadPayload(d, data, off, KindOfTag(t)) == Ok(Parsed(t, off + |EncPayload(t)|))
    decreases t, 1
  {
    var es := t.entries;
    assert EncPayload(t) == EncCompound(es);
    assert WellFormedEntries(d, es);
    CompoundRoundTrip(d, es, data, off);
    var next := off + |EncCompound(es)|;
    CompoundPayload(d, es, data, off, next);
    assert t == CompoundTag(es);
  }

  /** Items of one kind, each of which survives a write and a read. */
  predicate ItemsOf(d: Dialect, k: Kind, items: seq<Tag>) {
    forall i | 0 <= i < |items| :: KindOfTag(items[i]) == k && WellFormed(d, items[i])
  }

  /** The items after the first are items of the same kind. */
  lemma ItemsOfTail(d: Dialect, k: Kind, items: seq<Tag>)
    requires ItemsOf(d, k, items) && |items| > 0
    ensures KindOfTag(items[0]) == k && WellFormed(d, items[0])
    ensures ItemsOf(d, k, items[1..])
    ensures forall i | 0 <= i < |items| :: Valid(items[i])
  {
    forall i | 0 <= i < |items[1..]| ensures items[1..][i] == items[i + 1] {}
  }

  /** Where the first payload of non-empty items and the rest sit. */
  lemma ItemsSplit(d: Dialect, k: Kind, items: seq<Tag>, data: seq<byte>, off: nat)
    requires ItemsOf(d, k, items) && |items| > 0
    requires At(data, off, EncItems(items))
    ensures KindOfTag(items[0]) == k && WellFormed(d, items[0]) && ItemsOf(d, k, items[1..])
    ensures forall i | 0 <= i < |items[1..]| :: Valid(items[1..][i])
    ensures At(data, off, EncPayload(items[0]))
    ensures At(data, off + |EncPayload(items[0])|, EncItems(items[1..]))
    ensures off + |EncItems(items)| == off + |EncPayload(items[0])| + |EncItems(items[1..])|
  {
    ItemsOfTail(d, k, items);
    ItemsCons(items);
    AtSplit(data, off, EncPayload(items[0]), EncItems(items[1..]));
  }

  lemma {:induction false} ItemsRoundTrip(d: Dialect, k: Kind, items: seq<Tag>, data: seq<byte>, off: nat)
    requires forall i | 0 <= i < |items| :: Valid(items[i])
    requires ItemsOf(d, k, items)
    requires At(data, off, EncItems(items))
    ensures ReadItems(d, data, off, k, |items|) == Ok(Parsed(items, off + |EncItems(items)|))
    decreases items, 1
  {
    if |items| > 0 {
      ItemsSplit(d, k, items, data, off);
      ItemsRoundTrip(d, k, items[1..], data, off + |EncPayload(items[0])|);
      ItemConsRoundTrip(d, k, items, data, off, off + |EncItems(items)|);
    } else {
      ItemsNil(d, k, data, off);
    }
  }

  /** No items: nothing is read. */
  lemma ItemsNil(d: Dialect, k: Kind, data: seq<byte>, off: nat)
    requires off <= |data|
    ensures ReadItems(d, data, off, k, 0) == Ok(Parsed([], off + |EncItems([])|))
  {
    assert EncItems([]) == [];
  }

  /** The first payload, then the rest of the items already read back. */
  lemma {:induction false} ItemConsRoundTrip(d: Dialect, k: Kind, items: seq<Tag>, data: seq<byte>, off: nat, next: nat)
    requires |items| > 0 && KindOfTag(items[0]) == k && WellFormed(d, items[0])
    requires At(data, off, EncPayload(items[0]))
    requires ReadItems(d, data, off + |EncPayload(items[0])|, k, |items| - 1) == Ok(Parsed(items[1..], next))
    ensures ReadItems(d, data, off, k, |items|) == Ok(Parsed(items, next))
    decreases items, 0
  {
    PayloadRoundTrip(d, items[0], data, off);
    ItemsStep(d, k, items, data, off, off + |EncPayload(items[0])|, next);
  }

  /** One turn of the list loop: the first payload, then the rest. */
  lemma ItemsStep(d: Dialect, k: Kind, items: seq<Tag>, data: seq<byte>, off: nat, mid: nat, next: nat)
    requires |items| > 0 && off <= |data|
    requires ReadPayload(d, data, off, k) == Ok(Parsed(items[0], mid))
    requires ReadItems(d, data, mid, k, |items| - 1) == Ok(Parsed(items[1..], next))
    ensures ReadItems(d, data, off, k, |items|) == Ok(Parsed(items, next))
  {
    assert [items[0]] + items[1..] == items;
  }

  /** A well-formed tag's kind is registered by the dialect. */
  lemma KindRegistered(d: Dialect, t: Tag)
    requires WellFormed(d, t)
    ensures Registered(d, KindOfTag(t))
  {
    assert t.LongArrayTag? ==> Canonical(d, t);
  }

  /** One entry: its type code, then its name and value read back by the
      rest of the compound loop. */
  lemma {:induction false} EntryRoundTrip(d: Dialect, e: Entry, data: seq<byte>, off: nat)
    requires ValidName(e.name) && WellFormed(d, e.tag)
    requires At(data, off, EncEntry(e))
    ensures ReadSigned(data, off, 1) == Ok(Parsed(KindOfTag(e.tag), off + 1))
    ensures ReadNamed(d, data, off + 1, KindOfTag(e.tag)) == Ok(Parsed(e, off + |EncEntry(e)|))
    decreases e, 0
  {
    var k := KindOfTag(e.tag);
    EntrySplit(e, data, off);
    SignedRoundTrip(data, off, k, 1);
    StringRoundTrip(data, off + 1, e.name);
    KindRegistered(d, e.tag);
    var at, next := off + 1 + |EncString(e.name)|, off + |EncEntry(e)|;
    PayloadRoundTrip(d, e.tag, data, at);
    assert at + |EncPayload(e.tag)| == next;
    NamedStep(d, data, off + 1, e, at, next);
  }

  /** The bytes of an entry are its type code, its name and its payload. */
  lemma EntrySplit(e: Entry, data: seq<byte>, off: nat)
    requires ValidName(e.name) && Valid(e.tag)
    requires At(data, off, EncEntry(e))
    ensures At(data, off, EncKind(KindOfTag(e.tag)))
    ensures At(data, off + 1, EncString(e.name))
    ensures At(data, off + 1 + |EncString(e.name)|, EncPayload(e.tag))
    ensures off + |EncEntry(e)| == off + 1 + |EncString(e.name)| + |EncPayload(e.tag)|
  {
    AtSplit3(data, off, EncKind(KindOfTag(e.tag)), EncString(e.name), EncPayload(e.tag));
  }

  /** The name and then the value of a registered kind make the entry. */
  lemma NamedStep(d: Dialect, data: seq<byte>, off: nat, e: Entry, at: nat, next: nat)
    requires off <= |data| && Registered(d, KindOfTag(e.tag))
    requires ReadString(data, off) == Ok(Parsed(e.name, at))
    requires ReadPayload(d, data, at, KindOfTag(e.tag)) == Ok(Parsed(e.tag, next))
    ensures ReadNamed(d, data, off, KindOfTag(e.tag)) == Ok(Parsed(e, next))
  {
  }

  /** One turn of the compound loop: an entry, then the rest. */
  lemma CompoundStep(d: Dialect, es: seq<Entry>, data: seq<byte>, off: nat, restAt: nat, next: nat)
    requires |es| > 0
    requires ReadSigned(data, off, 1) == Ok(Parsed(KindOfTag(es[0].tag), off + 1))
    requires ReadNamed(d, data, off + 1, KindOfTag(es[0].tag)) == Ok(Parsed(es[0], restAt))
    requires ReadCompound(d, data, restAt) == Ok(Parsed(es[1..], next))
    ensures ReadCompound(d, data, off) == Ok(Parsed(es, next))
  {
    assert [es[0]] + es[1..] == es;
  }

  /** Where the first entry of a non-empty compound and the compound of the
      rest sit. */
  lemma CompoundSplit(d: Dialect, es: seq<Entry>, data: seq<byte>, off: nat)
    requires WellFormedEntries(d, es) && |es| > 0
    requires At(data, off, EncCompound(es))
    ensures ValidName(es[0].name) && WellFormed(d, es[0].tag) && WellFormedEntries(d, es[1..])
    ensures At(data, off, EncEntry(es[0]))
    ensures At(data, off + |EncEntry(es[0])|, EncCompound(es[1..]))
    ensures |EncCompound(es)| == |EncEntry(es[0])| + |EncCompound(es[1..])|
  {
    EntriesParts(d, es);
    CompoundCons(es);
    AtSplit(data, off, EncEntry(es[0]), EncCompound(es[1..]));
  }

  lemma {:induction false} CompoundRoundTrip(d: Dialect, es: seq<Entry>, data: seq<byte>, off: nat)
    requires WellFormedEntries(d, es)
    requires At(data, off, EncCompound(es))
    ensures ReadCompound(d, data, off) == Ok(Parsed(es, off + |EncCompound(es)|))
    decreases es, 1
  {
    if |es| == 0 {
      assert EncCompound(es) == [0];
      EndRoundTrip(d, data, off);
    } else {
      CompoundSplit(d, es, data, off);
      var head, tail := |EncEntry(es[0])|, |EncCompound(es[1..])|;
      var mid := off + head;
      CompoundRoundTrip(d, es[1..], data, mid);
      assert ReadCompound(d, data, mid) == Ok(Parsed(es[1..], mid + tail));
      ConsRoundTrip(d, es, data, off, mid + tail);
    }
  }

  /** A compound with no entries is its `end` code alone. */
  lemma EndRoundTrip(d: Dialect, data: seq<byte>, off: nat)
    requires At(data, off, [0])
    ensures ReadCompound(d, data, off) == Ok(Parsed([], off + 1))
  {
    assert data[off] == 0;
    assert UnsignedAt(data, off, 1) == 0;
  }

  /** The first entry, then the compound of the rest already read back. */
  lemma {:induction false} ConsRoundTrip(d: Dialect, es: seq<Entry>, data: seq<byte>, off: nat, next: nat)
    requires |es| > 0 && ValidName(es[0].name) && WellFormed(d, es[0].tag)
    requires At(data, off, EncEntry(es[0]))
    requires ReadCompound(d, data, off + |EncEntry(es[0])|) == Ok(Parsed(es[1..], next))
    ensures ReadCompound(d, data, off) == Ok(Parsed(es, next))
    decreases es, 0
  {
    EntryRoundTrip(d, es[0], data, off);
    CompoundStep(d, es, data, off, off + |EncEntry(es[0])|, next);
  }

}
