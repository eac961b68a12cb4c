/** The per-kind readers of `nbt.Reader` (nbt.js:166-245) as partial
    functions of the buffer and a cursor offset.

    Each reader returns the value and the advanced offset, or the error the
    JavaScript would throw. Offsets stay within the buffer (nbt.d.ts:238-241),
    and every payload reader consumes at least one byte, which is what makes
    the recursive descent terminate.
 */
module Reader {
  import opened Outcomes
  import opened Bytes
  import opened TagTypes
  import opened Tags

  /** A decoded value and the offset just past it. */
  datatype Parsed<+T> = Parsed(value: T, next: nat)

  /** `read('Int8' | 'Int16BE' | 'Int32BE', width)`: Node throws a
      `RangeError` when the read would run past the end. */
  function ReadSigned(data: seq<byte>, off: nat, width: nat): (r: Result<Parsed<int>>)
    requires width > 0
    ensures r.Ok? <==> off + width <= |data|
    ensures r.Err? ==> r.error == OutOfRange
    ensures r.Ok? ==> r.value.next == off + width && InSigned(r.value.value, width)
  {
    if off + width > |data| then Err(OutOfRange)
    else Ok(Parsed(Signed(UnsignedAt(data, off, width), width), off + width))
  }

  /** The value read is the one whose two's complement sits at `off`. */
  lemma ReadSignedInverts(data: seq<byte>, off: nat, width: nat)
    requires width > 0 && off + width <= |data|
    ensures ReadSigned(data, off, width).Ok?
    ensures ToTwos(ReadSigned(data, off, width).value.value, width) == data[off..off + width]
  {
    UnsignedAtIsSlice(data, off, width);
    TwosOfFromTwos(data[off..off + width]);
  }

  /** A raw big-endian pattern: `FloatBE`/`DoubleBE` kept as bits, and the
      string length prefix read as the format's unsigned 16-bit count. */
  function ReadUnsigned(data: seq<byte>, off: nat, width: nat): (r: Result<Parsed<nat>>)
    ensures r.Ok? <==> off + width <= |data|
    ensures r.Err? ==> r.error == OutOfRange
    ensures r.Ok? ==> r.value.next == off + width && r.value.value < Pow256(width)
  {
    if off + width > |data| then Err(OutOfRange)
    else Ok(Parsed(UnsignedAt(data, off, width), off + width))
  }

  /** The pattern read is the one whose big-endian bytes sit at `off`. */
  lemma ReadUnsignedInverts(data: seq<byte>, off: nat, width: nat)
    requires off + width <= |data|
    ensures ReadUnsigned(data, off, width).Ok?
    ensures ToBigEndian(ReadUnsigned(data, off, width).value.value, width) == data[off..off + width]
  {
    UnsignedAtIsSlice(data, off, width);
    ToFromBigEndian(data[off..off + width]);
  }

  /** How often `for (i = 0; i < count; i++)` runs: never for a count <= 0. */
  function LoopCount(count: int): (n: nat)
    ensures count <= 0 ==> n == 0
    ensures count > 0 ==> n == count
  {
    if count < 0 then 0 else count
  }

  /** `long()`: `[this.int(), this.int()]`, upper half first. */
  function ReadLong(data: seq<byte>, off: nat): (r: Result<Parsed<LongValue>>)
    ensures r.Ok? <==> off + 8 <= |data|
    ensures r.Ok? ==> r.value.next == off + 8 && IsLongValue(r.value.value)
    ensures r.Ok? ==> r.value.value.upper == ReadSigned(data, off, 4).value.value
    ensures r.Ok? ==> r.value.value.lower == ReadSigned(data, off + 4, 4).value.value
  {
    var upper :- ReadSigned(data, off, 4);
    var lower :- ReadSigned(data, upper.next, 4);
    Ok(Parsed(LongValue(upper.value, lower.value), lower.next))
  }

  /** `n` signed bytes, one `this.byte()` per iteration. */
  function ReadInt8s(data: seq<byte>, off: nat, n: nat): (r: Result<Parsed<seq<int>>>)
    requires off <= |data|
    ensures r.Ok? <==> off + n <= |data|
    ensures r.Ok? ==> r.value.next == off + n && |r.value.value| == n
    ensures r.Ok? ==> forall i | 0 <= i < n :: IsInt8(r.value.value[i])
    decreases |data| - off, n
  {
    if n == 0 then Ok(Parsed([], off))
    else
      var b :- ReadSigned(data, off, 1);
      var rest :- ReadInt8s(data, b.next, n - 1);
      Ok(Parsed([b.value] + rest.value, rest.next))
  }

  /** `n` signed 32-bit ints, one `this.int()` per iteration. */
  function ReadInt32s(data: seq<byte>, off: nat, n: nat): (r: Result<Parsed<seq<int>>>)
    requires off <= |data|
    ensures r.Ok? <==> off + 4 * n <= |data|
    ensures r.Ok? ==> r.value.next == off + 4 * n && |r.value.value| == n
    ensures r.Ok? ==> forall i | 0 <= i < n :: IsInt32(r.value.value[i])
    decreases |data| - off, n
  {
    if n == 0 then Ok(Parsed([], off))
    else
      var x :- ReadSigned(data, off, 4);
      var rest :- ReadInt32s(data, x.next, n - 1);
      Ok(Parsed([x.value] + rest.value, rest.next))
  }

  /** `n` longs, one `[upper, lower]` pair per iteration. */
  function ReadLongs(data: seq<byte>, off: nat, n: nat): (r: Result<Parsed<seq<LongValue>>>)
    requires off <= |data|
    ensures r.Ok? <==> off + 8 * n <= |data|
    ensures r.Ok? ==> r.value.next == off + 8 * n && |r.value.value| == n
    ensures r.Ok? ==> forall i | 0 <= i < n :: IsLongValue(r.value.value[i])
    decreases |data| - off, n
  {
    if n == 0 then Ok(Parsed([], off))
    else
      var l :- ReadLong(data, off);
      var rest :- ReadLongs(data, l.next, n - 1);
      Ok(Parsed([l.value] + rest.value, rest.next))
  }

  /** `byteArray()`: an int32 count, then that many signed bytes. */
  function ReadByteArray(data: seq<byte>, off: nat): (r: Result<Parsed<seq<int>>>)
    ensures r.Ok? ==> off + 4 <= |data|
    ensures r.Ok? ==> |r.value.value| == LoopCount(ReadSigned(data, off, 4).value.value)
    ensures r.Ok? ==> r.value.next == off + 4 + |r.value.value| <= |data|
  {
    var count :- ReadSigned(data, off, 4);
    var bytes :- ReadInt8s(data, count.next, LoopCount(count.value));
    Ok(bytes)
  }

  /** `intArray()`: an int32 count, then that many ints. */
  function ReadIntArray(data: seq<byte>, off: nat): (r: Result<Parsed<seq<int>>>)
    ensures r.Ok? ==> off + 4 <= |data|
    ensures r.Ok? ==> |r.value.value| == LoopCount(ReadSigned(data, off, 4).value.value)
    ensures r.Ok? ==> r.value.next == off + 4 + 4 * |r.value.value| <= |data|
  {
    var count :- ReadSigned(data, off, 4);
    var ints :- ReadInt32s(data, count.next, LoopCount(count.value));
    Ok(ints)
  }

  /** `longArray()` of nbt.d.ts: an int32 count, then that many
      `[upper, lower]` pairs. nbt.js itself has no such reader. */
  function ReadLongArray(data: seq<byte>, off: nat): (r: Result<Parsed<seq<LongValue>>>)
    ensures r.Ok? ==> off + 4 <= |data|
    ensures r.Ok? ==> |r.value.value| == LoopCount(ReadSigned(data, off, 4).value.value)
    ensures r.Ok? ==> r.value.next == off + 4 + 8 * |r.value.value| <= |data|
  {
    var count :- ReadSigned(data, off, 4);
    var longs :- ReadLongs(data, count.next, LoopCount(count.value));
    Ok(longs)
  }

  /** `string()` with the length prefix read as an unsigned 16-bit count,
      then that many UTF-8 bytes. (nbt.js reads the prefix with the signed
      reader; see `ReadStringAsWritten`.) A string running past the end is
      a failure. */
  function ReadString(data: seq<byte>, off: nat): (r: Result<Parsed<seq<byte>>>)
    ensures r.Ok? <==> off + 2 <= |data| && off + 2 + ReadUnsigned(data, off, 2).value.value <= |data|
    ensures r.Ok? ==> |r.value.value| == ReadUnsigned(data, off, 2).value.value
    ensures r.Ok? ==> r.value.next == off + 2 + |r.value.value|
  {
    var len :- ReadUnsigned(data, off, 2);
    if len.next + len.value > |data| then Err(OutOfRange)
    else Ok(Parsed(data[len.next..len.next + len.value], len.next + len.value))
  }

  /** The reader's cursor after `string()` in nbt.js may lie before the
      start of the buffer, so it is an `int` here. */
  datatype Rewound = Rewound(value: seq<byte>, next: int)

  /** `string()` exactly as nbt.js:207-212 writes it: the prefix comes from
      the signed `short()`, `toString('utf8', start, end)` yields nothing when
      `end <= start` and clamps `end` to the buffer, and the cursor moves by
      the signed length, backwards when it is negative. */
  function ReadStringAsWritten(data: seq<byte>, off: nat): (r: Result<Rewound>)
    ensures r.Ok? <==> off + 2 <= |data|
    ensures r.Ok? ==> r.value.next == off + 2 + ReadSigned(data, off, 2).value.value
    ensures r.Ok? && ReadSigned(data, off, 2).value.value < -2 ==> r.value.next < off
  {
    var len :- ReadSigned(data, off, 2);
    var start := len.next;
    var stop := start + len.value;
    var end := if stop < |data| then stop else |data|;
    Ok(Rewound(if end <= start then [] else data[start..end], stop))
  }

  /** The two string readers agree whenever the prefix is non-negative and
      the string lies within the buffer: the correction changes only the
      negative prefixes. */
  lemma StringReadersAgree(data: seq<byte>, off: nat)
    requires off + 2 <= |data|
    requires UnsignedAt(data, off, 2) < Half(2)
    requires off + 2 + UnsignedAt(data, off, 2) <= |data|
    ensures ReadString(data, off).Ok?
    ensures ReadStringAsWritten(data, off).Ok?
    ensures ReadString(data, off).value.value == ReadStringAsWritten(data, off).value.value
    ensures ReadString(data, off).value.next == ReadStringAsWritten(data, off).value.next
  {
  }

  /** The archive `[10, 0,0, 1, 0xFF,0xFC]`: a root named "" whose first
      entry is a byte tag with name length -4. */
  const LoopingArchive: seq<byte> := [10, 0, 0, 1, 0xFF, 0xFC]

  /** In nbt.js the compound loop at offset 3 reads the type byte 1, the
      name length -4 (which moves the cursor back to 2), and the byte value
      at 2, and so finishes the entry at offset 3 where it started:
      `parseUncompressed(LoopingArchive)` never returns. */
  lemma NegativeNameLengthLoops()
    ensures ReadSigned(LoopingArchive, 0, 1) == Ok(Parsed(10, 1))
    ensures ReadStringAsWritten(LoopingArchive, 1) == Ok(Rewound([], 3))
    ensures ReadSigned(LoopingArchive, 3, 1) == Ok(Parsed(1, 4))
    ensures ReadStringAsWritten(LoopingArchive, 4) == Ok(Rewound([], 2))
    ensures ReadSigned(LoopingArchive, 2, 1) == Ok(Parsed(0, 3))
  {
    assert UnsignedAt(LoopingArchive, 1, 2) == 0;
    assert UnsignedAt(LoopingArchive, 4, 2) == 65532;
  }

  /** With the unsigned prefix the same name is 65532 bytes long, runs past
      the end, and the archive is rejected. */
  lemma LoopingArchiveRejected()
    ensures ReadString(LoopingArchive, 4) == Err(OutOfRange)
  {
    assert UnsignedAt(LoopingArchive, 4, 2) == 65532;
  }

  /** The readers of the kinds that hold no nested tags. */
  function ReadFlat(data: seq<byte>, off: nat, k: Kind): (r: Result<Parsed<Tag>>)
    requires k != End && k != List && k != Compound
    requires off <= |data|
    ensures r.Ok? ==> off < r.value.next <= |data|
    ensures r.Ok? ==> KindOfTag(r.value.value) == k
  {
    if k == Byte then
      var v :- ReadSigned(data, off, 1);
      Ok(Parsed(ByteTag(v.value), v.next))
    else if k == Short then
      var v :- ReadSigned(data, off, 2);
      Ok(Parsed(ShortTag(v.value), v.next))
    else if k == Int then
      var v :- ReadSigned(data, off, 4);
      Ok(Parsed(IntTag(v.value), v.next))
    else if k == Long then
      var v :- ReadLong(data, off);
      Ok(Parsed(LongTag(v.value), v.next))
    else if k == Float then
      var v :- ReadUnsigned(data, off, 4);
      Ok(Parsed(FloatTag(v.value), v.next))
    else if k == Double then
      var v :- ReadUnsigned(data, off, 8);
      Ok(Parsed(DoubleTag(v.value), v.next))
    else if k == ByteArray then
      var v :- ReadByteArray(data, off);
      Ok(Parsed(ByteArrayTag(v.value), v.next))
    else if k == String then
      var v :- ReadString(data, off);
      Ok(Parsed(StringTag(v.value), v.next))
    else if k == IntArray then
      var v :- ReadIntArray(data, off);
      Ok(Parsed(IntArrayTag(v.value), v.next))
    else
      var v :- ReadLongArray(data, off);
      Ok(Parsed(LongArrayTag(v.value), v.next))
  }

  /** `this[k]()`: the handler of a kind, `undefined` (a `TypeError` when
      called) for `end` and for kinds the dialect does not register. */
  function ReadPayload(d: Dialect, data: seq<byte>, off: nat, k: Kind): (r: Result<Parsed<Tag>>)
    requires off <= |data|
    ensures r.Ok? ==> off < r.value.next <= |data|
    decreases |data| - off, 2
  {
    if !HasHandler(d, k) then Err(NoHandler(k))
    else ReadHandler(d, data, off, k)
  }

  /** The per-kind handlers of the reader. */
  function ReadHandler(d: Dialect, data: seq<byte>, off: nat, k: Kind): (r: Result<Parsed<Tag>>)
    requires off <= |data| && k != End
    ensures r.Ok? ==> off < r.value.next <= |data|
    decreases |data| - off, 1
  {
    if k == List then ReadList(d, data, off)
    else if k == Compound then
      var v :- ReadCompound(d, data, off);
      Ok(Parsed(CompoundTag(v.value), v.next))
    else ReadFlat(data, off, k)
  }

  /** The kind `this[code]` dispatches to, when the code is registered. */
  function HandlerKind(d: Dialect, code: int): (r: Result<Kind>)
    ensures r.Ok? <==> KindOf(d, code).Some?
    ensures r.Ok? ==> r.value == code
    ensures r.Err? ==> r.error == NoHandler(code)
  {
    match KindOf(d, code)
    case Some(k) => Ok(k)
    case None => Err(NoHandler(code))
  }

  /** The list loop: `n` payloads of kind `k`. */
  function ReadItems(d: Dialect, data: seq<byte>, off: nat, k: Kind, n: nat): (r: Result<Parsed<seq<Tag>>>)
    requires off <= |data|
    ensures r.Ok? ==> off <= r.value.next <= |data|
    decreases |data| - off, 3, n
  {
    if n == 0 then Ok(Parsed([], off))
    else
      var x :- ReadPayload(d, data, off, k);
      var rest :- ReadItems(d, data, x.next, k, n - 1);
      Ok(Parsed([x.value] + rest.value, rest.next))
  }

  /** `list()`: element type code, int32 count, then `max(count, 0)` values
      read by `this[type]`; the result pairs the type name with the values. */
  function ReadList(d: Dialect, data: seq<byte>, off: nat): (r: Result<Parsed<Tag>>)
    requires off <= |data|
    ensures r.Ok? ==> off < r.value.next <= |data|
    decreases |data| - off, 0
  {
    var t :- ReadSigned(data, off, 1);
    var count :- ReadSigned(data, t.next, 4);
    var n := LoopCount(count.value);
    match KindOf(d, t.value)
    case None => if n > 0 then Err(NoHandler(t.value)) else Err(UnknownListType(t.value))
    case Some(k) =>
      var items :- ReadItems(d, data, count.next, k, n);
      Ok(Parsed(ListTag(k, items.value), items.next))
  }

  /** `compound()`: entries (type code, name, `this[type]()` value) until the
      first type code 0 read at an entry position. */
  function ReadCompound(d: Dialect, data: seq<byte>, off: nat): (r: Result<Parsed<seq<Entry>>>)
    requires off <= |data|
    ensures r.Ok? ==> off < r.value.next <= |data|
    decreases |data| - off, 0
  {
    match ReadSigned(data, off, 1)
    case Err(err) => Err(err)
    case Ok(t) =>
      if t.value == End then Ok(Parsed([], t.next))
      else match ReadNamed(d, data, t.next, t.value)
      case Err(err) => Err(err)
      case Ok(e) =>
        match ReadCompound(d, data, e.next)
        case Err(err) => Err(err)
        case Ok(rest) => Ok(Parsed([e.value] + rest.value, rest.next))
  }

  /** The rest of one compound entry once its type code is read: the name,
      then the value read by the handler of that code. */
  function ReadNamed(d: Dialect, data: seq<byte>, off: nat, code: int): (r: Result<Parsed<Entry>>)
    requires off <= |data|
    ensures r.Ok? ==> off < r.value.next <= |data|
    decreases |data| - off, 2
  {
    var name :- ReadString(data, off);
    var k :- HandlerKind(d, code);
    var v :- ReadPayload(d, data, name.next, k);
    Ok(Parsed(Entry(name.value, v.value), v.next))
  }

  /** `this[k]` is undefined for `end` and for kinds the dialect does not
      register; a handler that returns yields a tag of its own kind. */
  lemma PayloadKind(d: Dialect, data: seq<byte>, off: nat, k: Kind)
    requires off <= |data|
    ensures !HasHandler(d, k) ==> ReadPayload(d, data, off, k) == Err(NoHandler(k))
    ensures ReadPayload(d, data, off, k).Ok? ==> KindOfTag(ReadPayload(d, data, off, k).value.value) == k
  {
    if HasHandler(d, k) && k == List {
      var r := ReadList(d, data, off);
      assert r.Ok? ==> r.value.value.ListTag?;
    }
  }

  /** The list loop returns exactly `n` values, all of the element kind, and
      fails at once when there is at least one value and no handler. */
  lemma {:induction false} ItemsShape(d: Dialect, data: seq<byte>, off: nat, k: Kind, n: nat)
    requires off <= |data|
    ensures n > 0 && !HasHandler(d, k) ==> ReadItems(d, data, off, k, n) == Err(NoHandler(k))
    ensures ReadItems(d, data, off, k, n).Ok? ==> |ReadItems(d, data, off, k, n).value.value| == n
    ensures ReadItems(d, data, off, k, n).Ok? ==>
      forall i | 0 <= i < n :: KindOfTag(ReadItems(d, data, off, k, n).value.value[i]) == k
    decreases n
  {
    if n > 0 {
      PayloadKind(d, data, off, k);
      var x := ReadPayload(d, data, off, k);
      if x.Ok? {
        ItemsShape(d, data, x.value.next, k, n - 1);
      }
    }
  }

  /** `list()` yields a list whose element kind is the code it read, with
      `max(count, 0)` values of that kind. A code without a registered name
      fails: with `NoHandler` when a value must be read, otherwise with
      `UnknownListType`. */
  lemma ListShape(d: Dialect, data: seq<byte>, off: nat)
    requires off <= |data|
    ensures off + 5 > |data| ==> ReadList(d, data, off) == Err(OutOfRange)
    ensures off + 5 <= |data| && KindOf(d, ReadSigned(data, off, 1).value.value).None? ==>
      ReadList(d, data, off) ==
        if LoopCount(ReadSigned(data, off + 1, 4).value.value) > 0
        then Err(NoHandler(ReadSigned(data, off, 1).value.value))
        else Err(UnknownListType(ReadSigned(data, off, 1).value.value))
    ensures ReadList(d, data, off).Ok? ==>
      var t := ReadList(d, data, off).value.value;
      && off + 5 <= |data|
      && t.ListTag?
      && t.elementKind == ReadSigned(data, off, 1).value.value
      && |t.items| == LoopCount(ReadSigned(data, off + 1, 4).value.value)
      && forall i | 0 <= i < |t.items| :: KindOfTag(t.items[i]) == t.elementKind
  {
    if off + 5 <= |data| {
      var code := ReadSigned(data, off, 1).value.value;
      var n := LoopCount(ReadSigned(data, off + 1, 4).value.value);
      if KindOf(d, code).Some? {
        ItemsShape(d, data, off + 5, code, n);
      }
    }
  }

  /** The handler read for a compound entry is the one its type code names. */
  lemma NamedKind(d: Dialect, data: seq<byte>, off: nat, code: int)
    requires off <= |data|
    ensures ReadString(data, off).Ok? && KindOf(d, code).None? ==>
      ReadNamed(d, data, off, code) == Err(NoHandler(code))
    ensures ReadNamed(d, data, off, code).Ok? ==>
      KindOfTag(ReadNamed(d, data, off, code).value.value.tag) == code && HasHandler(d, code)
  {
    var name := ReadString(data, off);
    if name.Ok? && KindOf(d, code).Some? {
      PayloadKind(d, data, name.value.next, code);
    }
  }

  /** `compound()` stops at the first `end` code: on a 0 byte it returns no
      entries, it fails on an empty remainder, and whatever it returns ends
      with that 0 byte and holds only entries of kinds with a handler. */
  lemma {:induction false} CompoundShape(d: Dialect, data: seq<byte>, off: nat)
    requires off <= |data|
    ensures off == |data| ==> ReadCompound(d, data, off) == Err(OutOfRange)
    ensures off < |data| && data[off] == 0 ==> ReadCompound(d, data, off) == Ok(Parsed([], off + 1))
    ensures ReadCompound(d, data, off).Ok? ==> data[ReadCompound(d, data, off).value.next - 1] == 0
    ensures ReadCompound(d, data, off).Ok? ==>
      var es := ReadCompound(d, data, off).value.value;
      forall i | 0 <= i < |es| :: HasHandler(d, KindOfTag(es[i].tag))
    decreases |data| - off
  {
    if off < |data| {
      assert UnsignedAt(data, off, 1) == data[off];
      var t := ReadSigned(data, off, 1).value;
      if t.value != End {
        NamedKind(d, data, t.next, t.value);
        var e := ReadNamed(d, data, t.next, t.value);
        if e.Ok? {
          CompoundShape(d, data, e.value.next);
        }
      }
    }
  }
}
