/** The byte strings of the codec's own examples (test/writer-spec.js and
    test/reader-spec.js), stated over the model. */
module Examples {
  import opened Outcomes
  import opened Bytes
  import opened TagTypes
  import opened Tags
  import opened Encoding
  import opened Reader
  import opened Writer
  import opened Unicode
  import opened StringSize
  import opened RoundTrip

  /** A small non-negative byte is its own image. */
  lemma SmallByte(v: int)
    requires 0 <= v < 0x80
    ensures EncByte(v) == [v]
  {
    assert ToBigEndian(v, 1) == ToBigEndian(0, 0) + [v];
  }

  /** A short below 256 is a zero byte and itself. */
  lemma SmallShort(v: int)
    requires 0 <= v < 0x100
    ensures EncShort(v) == [0, v]
  {
    assert ToBigEndian(v, 2) == ToBigEndian(0, 1) + [v];
    assert ToBigEndian(0, 1) == ToBigEndian(0, 0) + [0];
  }

  /** An int below 256 is three zero bytes and itself. */
  lemma SmallInt(v: int)
    requires 0 <= v < 0x100
    ensures EncInt(v) == [0, 0, 0, v]
  {
    assert ToBigEndian(v, 4) == ToBigEndian(0, 3) + [v];
    assert ToBigEndian(0, 3) == ToBigEndian(0, 2) + [0];
    assert ToBigEndian(0, 2) == ToBigEndian(0, 1) + [0];
    assert ToBigEndian(0, 1) == ToBigEndian(0, 0) + [0];
  }

  /** The list of bytes `[1, 2, 3]`. */
  function ByteList(): Tag {
    ListTag(Byte, [ByteTag(1), ByteTag(2), ByteTag(3)])
  }

  /** `{ aa: byte 1, bb: list of bytes [1, 2, 3] }`. */
  function SmallCompound(): seq<Entry> {
    [Entry([0x61, 0x61], ByteTag(1)), Entry([0x62, 0x62], ByteList())]
  }

  /** The bytes of the entry `aa`. */
  const AaBytes: seq<byte> := [1, 0, 2, 0x61, 0x61, 1]

  /** The bytes of the entry `bb`. */
  const BbBytes: seq<byte> := [9, 0, 2, 0x62, 0x62, 1, 0, 0, 0, 3, 1, 2, 3]

  /** The twenty bytes of the compound: both entries, then the end code. */
  const SmallCompoundBytes: seq<byte> := AaBytes + BbBytes + [0]

  /** The list `bb`: element code 1, count 3, the three bytes
      (test/writer-spec.js:105-112). */
  lemma SmallListEncoding()
    ensures Valid(ByteList())
    ensures EncPayload(ByteList()) == [1, 0, 0, 0, 3, 1, 2, 3]
  {
    var items := ByteList().items;
    SmallByte(1);
    SmallByte(2);
    SmallByte(3);
    SmallInt(3);
    assert EncItems(items[3..]) == [];
    assert EncItems(items[2..]) == EncByte(3) + EncItems(items[3..]);
    assert EncItems(items[1..]) == EncByte(2) + EncItems(items[2..]);
    assert EncItems(items) == EncByte(1) + EncItems(items[1..]);
  }

  /** The entry `aa`: code 1, name, the byte. */
  lemma FirstEntryEncoding()
    ensures ValidName([0x61, 0x61]) && Valid(ByteTag(1))
    ensures EncEntry(Entry([0x61, 0x61], ByteTag(1))) == AaBytes
  {
    SmallByte(1);
    SmallShort(2);
  }

  /** The entry `bb`: code 9, name, the list. */
  lemma SecondEntryEncoding()
    ensures ValidName([0x62, 0x62]) && Valid(ByteList())
    ensures EncEntry(Entry([0x62, 0x62], ByteList())) == BbBytes
  {
    SmallListEncoding();
    SmallByte(9);
    SmallShort(2);
  }

  /** The two names differ and both values are valid. */
  lemma SmallCompoundValid()
    ensures ValidEntries(SmallCompound())
  {
    var es := SmallCompound();
    SmallListEncoding();
    assert es[0].name != es[1].name;
    assert UniqueNames(es);
  }

  /** The two entries, back to back. */
  lemma SmallEntriesEncoding()
    ensures ValidEntries(SmallCompound())
    ensures EncEntries(SmallCompound()) == AaBytes + BbBytes
  {
    var es := SmallCompound();
    SmallCompoundValid();
    FirstEntryEncoding();
    SecondEntryEncoding();
    assert EncEntries(es[2..]) == [];
    assert EncEntries(es[1..]) == EncEntry(es[1]) + [];
  }

  /** test/writer-spec.js:116-132: the compound is those 20 bytes. */
  lemma SmallCompoundEncoding()
    ensures ValidEntries(SmallCompound())
    ensures EncCompound(SmallCompound()) == SmallCompoundBytes
  {
    SmallEntriesEncoding();
  }

  /** test/reader-spec.js:123-138: the 20 bytes read back as the compound. */
  lemma SmallCompoundDecoding()
    ensures ReadCompound(Script, SmallCompoundBytes, 0) == Ok(Parsed(SmallCompound(), 20))
  {
    SmallCompoundEncoding();
    assert Canonical(Script, SmallCompound()[0].tag);
    CompoundRoundTrip(Script, SmallCompound(), SmallCompoundBytes, 0);
  }

  const LongArrayBytes: seq<byte> := [0, 0, 0, 1, 0, 0, 0, 15, 0, 0, 0, 1]

  /** The int32 at `off` of the long array example. */
  lemma LongArrayInt(off: nat, v: int)
    requires off in {0, 4, 8}
    requires v == LongArrayBytes[off + 3]
    ensures ReadSigned(LongArrayBytes, off, 4) == Ok(Parsed(v, off + 4))
  {
    var data := LongArrayBytes;
    assert UnsignedAt(data, off, 1) == 0;
    assert UnsignedAt(data, off, 2) == 0;
    assert UnsignedAt(data, off, 3) == 0;
  }

  /** test/reader-spec.js:92-99: a count of one, then the halves 15 and 1. */
  lemma LongArrayExample()
    ensures ReadLongArray(LongArrayBytes, 0) == Ok(Parsed([LongValue(15, 1)], 12))
  {
    var data := LongArrayBytes;
    LongArrayInt(0, 1);
    LongArrayInt(4, 15);
    LongArrayInt(8, 1);
    assert ReadLong(data, 4) == Ok(Parsed(LongValue(15, 1), 12));
    assert ReadLongs(data, 12, 0) == Ok(Parsed([], 12));
    assert [LongValue(15, 1)] + [] == [LongValue(15, 1)];
    assert ReadLongs(data, 4, 1) == Ok(Parsed([LongValue(15, 1)], 12));
  }

  /** "こんにちは!" as UTF-16 units. */
  const Konnichiwa: seq<Unit> := [0x3053, 0x3093, 0x306B, 0x3061, 0x306F, 0x21]

  /** The code points of "こんにちは!": no surrogates, each unit is one. */
  lemma KonnichiwaCodePoints()
    ensures Utf16Decode(Konnichiwa) == Konnichiwa
  {
    var u := Konnichiwa;
    assert Utf16Decode(u[5..]) == u[5..];
    assert Utf16Decode(u[4..]) == u[4..];
    assert Utf16Decode(u[3..]) == u[3..];
    assert Utf16Decode(u[2..]) == u[2..];
    assert Utf16Decode(u[1..]) == u[1..];
  }

  /** test/writer-spec.js:94-103 and test/reader-spec.js:101-109: the bytes
      of "こんにちは!", three for each of the five characters and one for "!". */
  lemma KonnichiwaBytes()
    ensures Utf8Encode(Utf16Decode(Konnichiwa)) ==
      [0xE3, 0x81, 0x93, 0xE3, 0x82, 0x93, 0xE3, 0x81, 0xAB, 0xE3, 0x81, 0xA1, 0xE3, 0x81, 0xAF, 0x21]
    ensures Utf8Size(Konnichiwa) == 16
  {
    KonnichiwaCodePoints();
    var cps: seq<int> := Konnichiwa;
    assert Utf8Encode(cps[5..]) == [0x21];
    assert Utf8Encode(cps[4..]) == [0xE3, 0x81, 0xAF] + Utf8Encode(cps[5..]);
    assert Utf8Encode(cps[3..]) == [0xE3, 0x81, 0xA1] + Utf8Encode(cps[4..]);
    assert Utf8Encode(cps[2..]) == [0xE3, 0x81, 0xAB] + Utf8Encode(cps[3..]);
    assert Utf8Encode(cps[1..]) == [0xE3, 0x82, 0x93] + Utf8Encode(cps[2..]);
    assert Utf8Encode(cps) == [0xE3, 0x81, 0x93] + Utf8Encode(cps[1..]);
  }

  /** The loop as written counts "こんにちは!" right: 16. */
  lemma KonnichiwaCounted()
    ensures StringSizeAsWritten(Konnichiwa) == 16
  {
    var u := Konnichiwa;
    assert ExtraAsWritten(u, 2) == 4;
    assert ExtraAsWritten(u, 4) == 8;
    assert ExtraAsWritten(u, 6) == 10;
  }

  /** test/writer-spec.js:134-140: a byte and a long move the cursor to 9. */
  lemma OffsetExample()
    ensures WriteLong(WriteByte(Fresh, 12), LongValue(34, 56)).offset == 9
  {
    PutIsWrite(Fresh, EncByte(12));
  }

  /** test/writer-spec.js:142-148: the cursor moved back into the buffer
      overwrites from there. */
  lemma SeekWithinExample()
    ensures WriteShort(Seek(WriteShort(Fresh, 0x1234), 1), 0x5678).buffer == [0x12, 0x56, 0x78]
  {
    PutIsWrite(Fresh, EncShort(0x1234));
    var w := Seek(WriteShort(Fresh, 0x1234), 1);
    assert w == Writer([0x12, 0x34], 1);
    PutIsWrite(w, EncShort(0x5678));
  }

  /** test/writer-spec.js:150-156: the cursor moved past the end leaves a
      zero byte behind. */
  lemma SeekBeyondExample()
    ensures WriteShort(Seek(WriteShort(Fresh, 0x1234), 3), 0x5678).buffer == [0x12, 0x34, 0x00, 0x56, 0x78]
  {
    PutIsWrite(Fresh, EncShort(0x1234));
    var w := Seek(WriteShort(Fresh, 0x1234), 3);
    assert w == Writer([0x12, 0x34], 3);
    PutIsWrite(w, EncShort(0x5678));
  }

  /** test/reader-spec.js:140-148: a byte and a long move the cursor to 9. */
  lemma ReaderOffsetExample()
    ensures ReadSigned([0, 0, 0, 0, 0, 0, 0, 0, 0], 0, 1) == Ok(Parsed(0, 1))
    ensures ReadLong([0, 0, 0, 0, 0, 0, 0, 0, 0], 1) == Ok(Parsed(LongValue(0, 0), 9))
  {
    var data: seq<byte> := [0, 0, 0, 0, 0, 0, 0, 0, 0];
    assert UnsignedAt(data, 1, 3) == 0 && UnsignedAt(data, 5, 3) == 0;
  }

  /** test/reader-spec.js:150-155: the readers are functions of the offset,
      so moving the cursor back reads the same byte again. */
  lemma RereadExample()
    ensures ReadSigned([1, 2], 0, 1) == Ok(Parsed(1, 1))
    ensures ReadSigned([1, 2], 1, 1) == Ok(Parsed(2, 2))
  {
  }

  /** nbt.js has no type for code 12; the declarations name it `longArray`. */
  lemma LongArrayCodeExample()
    ensures KindOf(Script, 12) == None
    ensures KindOf(Declared, 12) == Some(LongArray)
    ensures TagTypeNames(Declared, 12) == Some("longArray")
  {
  }

  /** nbt.js has no type code for `longArray`, so `this.byte(undefined)`
      writes 0 for the element type of an empty `longArray` list: the list
      goes out as an empty list of `end` and reads back as one. */
  lemma EmptyLongArrayListExample()
    ensures Writable(Script, ListTag(LongArray, []))
    ensures EncPayload(AsWritten(Script, ListTag(LongArray, []))) == [0, 0, 0, 0, 0]
    ensures ReadPayload(Script, [0, 0, 0, 0, 0], 0, List) == Ok(Parsed(ListTag(End, []), 5))
  {
    SmallByte(0);
    SmallInt(0);
    var data: seq<byte> := [0, 0, 0, 0, 0];
    assert UnsignedAt(data, 0, 1) == 0;
    assert UnsignedAt(data, 1, 4) == 0 by {
      assert UnsignedAt(data, 1, 1) == 0;
      assert UnsignedAt(data, 1, 2) == 0;
      assert UnsignedAt(data, 1, 3) == 0;
    }
  }

  /** A byte array may hold any numbers: 200 is stored as the byte 0xC8,
      which reads back as the signed byte -56. */
  lemma WideByteArrayExample()
    ensures EncPayload(ByteArrayTag([200])) == [0, 0, 0, 1, 200]
    ensures ReadPayload(Declared, [0, 0, 0, 1, 200], 0, ByteArray) == Ok(Parsed(ByteArrayTag([-56]), 5))
  {
    WideByteArrayPayload();
    WideByteArrayParsed();
  }

  lemma WideByteArrayPayload()
    ensures EncPayload(ByteArrayTag([200])) == [0, 0, 0, 1, 200]
  {
    WideByteArrayEncoded();
  }

  lemma WideByteArrayParsed()
    ensures ReadPayload(Declared, [0, 0, 0, 1, 200], 0, ByteArray) == Ok(Parsed(ByteArrayTag([-56]), 5))
  {
    WideByteArrayRead();
    ByteArrayPayload(Declared, [0, 0, 0, 1, 200], 0, [-56], 5);
  }

  /** The payload reader for `byteArray` wraps what the array reader gives. */
  lemma ByteArrayPayload(d: Dialect, data: seq<byte>, off: nat, bs: seq<int>, next: nat)
    requires off <= |data| && ReadByteArray(data, off) == Ok(Parsed(bs, next))
    ensures ReadPayload(d, data, off, ByteArray) == Ok(Parsed(ByteArrayTag(bs), next))
  {
  }

  lemma WideByteArrayEncoded()
    ensures EncByteArray([200]) == [0, 0, 0, 1, 200]
  {
    SmallInt(1);
    assert LowBytes([200]) == [200];
  }

  lemma WideByteArrayRead()
    ensures ReadByteArray([0, 0, 0, 1, 200], 0) == Ok(Parsed([-56], 5))
  {
    var data: seq<byte> := [0, 0, 0, 1, 200];
    WideByteArrayEncoded();
    assert data[0..5] == EncByteArray([200]);
    ByteArrayReadsLowBytes(data, 0, [200]);
    assert SignedLows([200]) == [-56];
  }

  /** The string nbt.js writes for "é" and an unpaired trail surrogate reads
      back as "é" and two NUL characters, not as "é" and U+FFFD. The NULs are
      the zero-filled allocation of Node 8 and later. */
  lemma LoneTrailReadBack()
    ensures ReadString(WriteStringAsWritten(Fresh, [0xE9, 0xDC00]).buffer, 0) == Ok(Parsed([0xC3, 0xA9, 0, 0], 6))
    ensures Utf8Encode(Utf16Decode([0xE9, 0xDC00])) == [0xC3, 0xA9, 0xEF, 0xBF, 0xBD]
  {
    LoneTrailWritten();
    LoneTrailEncoded();
    var data: seq<byte> := [0, 4, 0xC3, 0xA9, 0, 0];
    assert UnsignedAt(data, 0, 1) == 0;
    assert data[2..6] == [0xC3, 0xA9, 0, 0];
  }

  /** Node's UTF-8 for "é" and an unpaired trail surrogate: "é", then
      U+FFFD. */
  lemma LoneTrailEncoded()
    ensures Utf8Encode(Utf16Decode([0xE9, 0xDC00])) == [0xC3, 0xA9, 0xEF, 0xBF, 0xBD]
  {
    var u: seq<Unit> := [0xE9, 0xDC00];
    assert Utf16Decode(u) == [0xE9, Replacement] by {
      assert Utf16Decode(u[1..]) == [Replacement] + Utf16Decode([]);
    }
    assert Utf8Encode([Replacement]) == [0xEF, 0xBF, 0xBD] + [];
  }
}
