/** `nbt.Writer` (nbt.js:47-164): a growable buffer and a cursor.

    Every per-kind writer makes room with `accommodate`, stores its bytes at
    the cursor and moves the cursor past them. Here a writer is an immutable
    value and each writer method returns the next one.
 */
module Writer {
  import opened Outcomes
  import opened Bytes
  import opened TagTypes
  import opened Tags
  import opened Encoding

  /** The buffer and the cursor, which callers may set anywhere, also past
      the end of the buffer. */
  datatype Writer = Writer(buffer: seq<byte>, offset: nat)

  /** `new nbt.Writer()`. */
  const Fresh: Writer := Writer([], 0)

  function Zeros(n: nat): (r: seq<byte>)
    ensures |r| == n && forall i | 0 <= i < n :: r[i] == 0
  {
    seq(n, _ => 0)
  }

  /** `accommodate(size)`: when the cursor plus `size` reaches the end, the
      buffer is replaced by one of exactly `offset + size` bytes holding the
      old bytes first. The bytes past the old end are zero: nbt.js zeroes the
      gap up to the cursor and takes the rest from `new Buffer(size)`, which
      Node zero-fills from version 8 on. Every writer overwrites that rest,
      except `string` after `getStringSize` miscounts: then `buffer.write`
      stores only the whole characters that fit, fewer bytes than were made
      room for, and the rest stay zero. */
  function Accommodate(w: Writer, size: nat): (r: Writer)
    ensures r.offset == w.offset && w.offset + size <= |r.buffer|
  {
    if w.offset + size >= |w.buffer| then
      Writer(w.buffer + Zeros(w.offset + size - |w.buffer|), w.offset)
    else
      w
  }

  /** `buffer.write*(value, offset)` / `copy`: `bytes` replace the ones at `at`. */
  function Overwrite(buf: seq<byte>, at: nat, bytes: seq<byte>): (r: seq<byte>)
    requires at + |bytes| <= |buf|
    ensures |r| == |buf|
  {
    buf[..at] + bytes + buf[at + |bytes|..]
  }

  /** `write(dataType, size, value)`: accommodate, store the value's bytes at
      the cursor, advance the cursor. */
  function Write(w: Writer, bytes: seq<byte>): (r: Writer)
    ensures r.offset == w.offset + |bytes|
  {
    var a := Accommodate(w, |bytes|);
    Writer(Overwrite(a.buffer, w.offset, bytes), w.offset + |bytes|)
  }

  /** The buffer grows to cover the write and no further; bytes before and
      after the written ones keep their values, and a gap between the old end
      and the cursor reads as zeros. */
  lemma WriteSpec(w: Writer, bytes: seq<byte>)
    ensures |Write(w, bytes).buffer| == if w.offset + |bytes| > |w.buffer| then w.offset + |bytes| else |w.buffer|
    ensures Write(w, bytes).buffer[w.offset..w.offset + |bytes|] == bytes
    ensures forall i | 0 <= i < |w.buffer| && i < w.offset :: Write(w, bytes).buffer[i] == w.buffer[i]
    ensures forall i | |w.buffer| <= i < w.offset :: Write(w, bytes).buffer[i] == 0
    ensures forall i | w.offset + |bytes| <= i < |w.buffer| :: Write(w, bytes).buffer[i] == w.buffer[i]
  {
  }

  /** Two writes in a row grow the buffer as one write of both does. */
  lemma WriteWriteLength(w: Writer, a: seq<byte>, b: seq<byte>)
    ensures |Write(Write(w, a), b).buffer| == |Write(w, a + b).buffer|
  {
    WriteSpec(w, a);
    WriteSpec(Write(w, a), b);
    WriteSpec(w, a + b);
  }

  /** Two writes in a row leave each byte as one write of both does. */
  lemma WriteWriteAt(w: Writer, a: seq<byte>, b: seq<byte>, i: nat)
    requires i < |Write(Write(w, a), b).buffer|
    ensures i < |Write(w, a + b).buffer| && Write(Write(w, a), b).buffer[i] == Write(w, a + b).buffer[i]
  {
    WriteWriteLength(w, a, b);
    WriteSpec(w, a);
    WriteSpec(Write(w, a), b);
    WriteSpec(w, a + b);
    var x, y := Write(Write(w, a), b), Write(w, a + b);
    var o := w.offset;
    if o <= i < o + |a| {
      assert x.buffer[i] == Write(w, a).buffer[o..o + |a|][i - o];
      assert y.buffer[i] == y.buffer[o..o + |a| + |b|][i - o];
    } else if o + |a| <= i < o + |a| + |b| {
      assert x.buffer[i] == x.buffer[o + |a|..o + |a| + |b|][i - o - |a|];
      assert y.buffer[i] == y.buffer[o..o + |a| + |b|][i - o];
    }
  }

  /** Two writes in a row are one write of both byte strings. */
  lemma WriteWrite(w: Writer, a: seq<byte>, b: seq<byte>)
    ensures Write(Write(w, a), b) == Write(w, a + b)
  {
    var x, y := Write(Write(w, a), b), Write(w, a + b);
    WriteWriteLength(w, a, b);
    forall i | 0 <= i < |x.buffer| ensures x.buffer[i] == y.buffer[i] {
      WriteWriteAt(w, a, b, i);
    }
  }

  /** One byte stored at the cursor, growing the buffer (and zeroing any
      gap) when the cursor is at or past its end. */
  function Poke(w: Writer, b: byte): (r: Writer)
    ensures r.offset == w.offset + 1 <= |r.buffer|
  {
    if w.offset < |w.buffer| then Writer(w.buffer[w.offset := b], w.offset + 1)
    else Writer(w.buffer + Zeros(w.offset - |w.buffer|) + [b], w.offset + 1)
  }

  lemma PokeIsWrite(w: Writer, b: byte)
    ensures Poke(w, b) == Write(w, [b])
  {
    WriteSpec(w, [b]);
    var x, y := Poke(w, b).buffer, Write(w, [b]).buffer;
    assert |x| == |y|;
    forall i | 0 <= i < |x| ensures x[i] == y[i] {
      if i == w.offset {
        assert y[i] == y[w.offset..w.offset + 1][0];
      }
    }
  }

  /** A run of writes: the bytes stored one at a time. */
  function Put(w: Writer, bytes: seq<byte>): (r: Writer)
    ensures r.offset == w.offset + |bytes|
    ensures |bytes| > 0 ==> r.offset <= |r.buffer|
    decreases |bytes|
  {
    if |bytes| == 0 then w else Put(Poke(w, bytes[0]), bytes[1..])
  }

  /** Storing the bytes one at a time or all at once comes to the same. */
  lemma {:induction false} PutIsWrite(w: Writer, bytes: seq<byte>)
    requires |bytes| > 0 || w.offset <= |w.buffer|
    ensures Put(w, bytes) == Write(w, bytes)
    decreases |bytes|
  {
    if |bytes| > 0 {
      PokeIsWrite(w, bytes[0]);
      PutIsWrite(Poke(w, bytes[0]), bytes[1..]);
      WriteWrite(w, [bytes[0]], bytes[1..]);
      assert [bytes[0]] + bytes[1..] == bytes;
    } else {
      WriteSpec(w, bytes);
      assert Write(w, bytes).buffer == w.buffer;
    }
  }

  /** Two runs of writes are one run of both byte strings. */
  lemma {:induction false} PutPut(w: Writer, a: seq<byte>, b: seq<byte>)
    ensures Put(Put(w, a), b) == Put(w, a + b)
    decreases |a|
  {
    if |a| > 0 {
      PutPut(Poke(w, a[0]), a[1..], b);
      assert (a + b)[0] == a[0] && (a + b)[1..] == a[1..] + b;
    } else {
      assert a + b == b;
    }
  }

  /** A write at the end of the buffer appends. */
  lemma PutAtEnd(buf: seq<byte>, bytes: seq<byte>)
    ensures Put(Writer(buf, |buf|), bytes) == Writer(buf + bytes, |buf| + |bytes|)
  {
    PutIsWrite(Writer(buf, |buf|), bytes);
    var grown := buf + Zeros(|bytes|);
    assert Accommodate(Writer(buf, |buf|), |bytes|).buffer == grown;
    assert grown[..|buf|] == buf && grown[|buf| + |bytes|..] == [];
    assert buf + bytes + [] == buf + bytes;
  }

  /** `writer.offset = offset`. */
  function Seek(w: Writer, offset: nat): (r: Writer)
    ensures r.buffer == w.buffer && r.offset == offset
  {
    Writer(w.buffer, offset)
  }

  /** Moving the cursor back over bytes just written and writing as many
      again leaves the writer as if only the second write had happened. */
  lemma RewriteAfterSeek(w: Writer, a: seq<byte>, b: seq<byte>)
    requires |a| == |b|
    ensures Write(Seek(Write(w, a), w.offset), b) == Write(w, b)
  {
    var x, y := Write(Seek(Write(w, a), w.offset), b), Write(w, b);
    WriteSpec(w, a);
    WriteSpec(Seek(Write(w, a), w.offset), b);
    WriteSpec(w, b);
    assert |x.buffer| == |y.buffer|;
    forall i | 0 <= i < |x.buffer| ensures x.buffer[i] == y.buffer[i] {
      RewriteAt(w, a, b, i);
    }
  }

  lemma RewriteAt(w: Writer, a: seq<byte>, b: seq<byte>, i: nat)
    requires |a| == |b| && i < |Write(Seek(Write(w, a), w.offset), b).buffer|
    ensures i < |Write(w, b).buffer|
    ensures Write(Seek(Write(w, a), w.offset), b).buffer[i] == Write(w, b).buffer[i]
  {
    var x, y := Write(Seek(Write(w, a), w.offset), b), Write(w, b);
    WriteSpec(w, a);
    WriteSpec(Seek(Write(w, a), w.offset), b);
    WriteSpec(w, b);
    var o := w.offset;
    if o <= i < o + |b| {
      assert x.buffer[i] == x.buffer[o..o + |b|][i - o];
      assert y.buffer[i] == y.buffer[o..o + |b|][i - o];
    }
  }

  function WriteByte(w: Writer, v: int): Writer
    requires IsInt8(v)
  {
    Put(w, EncByte(v))
  }

  function WriteShort(w: Writer, v: int): Writer
    requires IsInt16(v)
  {
    Put(w, EncShort(v))
  }

  function WriteInt(w: Writer, v: int): Writer
    requires IsInt32(v)
  {
    Put(w, EncInt(v))
  }

  function WriteFloat(w: Writer, bits: nat): Writer
    requires bits < Pow256(4)
  {
    Put(w, EncFloat(bits))
  }

  function WriteDouble(w: Writer, bits: nat): Writer
    requires bits < Pow256(8)
  {
    Put(w, EncDouble(bits))
  }

  /** `long([upper, lower])`: two ints, upper first. */
  function WriteLong(w: Writer, l: LongValue): (r: Writer)
    requires IsLongValue(l)
    ensures r == Put(w, EncLong(l))
  {
    PutPut(w, EncInt(l.upper), EncInt(l.lower));
    WriteInt(WriteInt(w, l.upper), l.lower)
  }

  /** `byteArray(value)`: the count as an int, then the low bytes copied in. */
  function WriteByteArray(w: Writer, bs: seq<int>): (r: Writer)
    requires |bs| <= MaxCount
    ensures r == Put(w, EncByteArray(bs))
  {
    PutPut(w, EncInt(|bs|), LowBytes(bs));
    Put(WriteInt(w, |bs|), LowBytes(bs))
  }

  /** `string(value)` on the UTF-8 bytes of the value: the byte count as a
      short, then the bytes. */
  function WriteStringBytes(w: Writer, s: seq<byte>): (r: Writer)
    requires |s| <= MaxStringBytes
    ensures r == Put(w, EncString(s))
  {
    PutPut(w, EncShort(|s|), s);
    Put(WriteShort(w, |s|), s)
  }

  /** Appending one more int to an int run. */
  lemma EncIntsSnoc(xs: seq<int>, i: nat)
    requires i < |xs| && forall j | 0 <= j < |xs| :: IsInt32(xs[j])
    ensures EncInts(xs[..i + 1]) == EncInts(xs[..i]) + EncInt(xs[i])
    decreases i
  {
    if i > 0 {
      assert xs[..i + 1][1..] == xs[1..][..i];
      assert xs[..i][1..] == xs[1..][..i - 1];
      EncIntsSnoc(xs[1..], i - 1);
    }
  }

  /** `intArray(value)`: the count, then `this.int(value[i])` in a loop. */
  method WriteIntArray(w: Writer, xs: seq<int>) returns (r: Writer)
    requires |xs| <= MaxCount && forall i | 0 <= i < |xs| :: IsInt32(xs[i])
    ensures r == Put(w, EncIntArray(xs))
  {
    var start := WriteInt(w, |xs|);
    r := start;
    var i := 0;
    while i < |xs|
      invariant 0 <= i <= |xs|
      invariant r == Put(start, EncInts(xs[..i]))
    {
      EncIntsSnoc(xs, i);
      PutPut(start, EncInts(xs[..i]), EncInt(xs[i]));
      r := WriteInt(r, xs[i]);
      i := i + 1;
    }
    assert xs[..i] == xs;
    PutPut(w, EncInt(|xs|), EncInts(xs));
  }

  /** The longs of a long array, one `long` per element. */
  function WriteLongs(w: Writer, ls: seq<LongValue>): (r: Writer)
    requires forall i | 0 <= i < |ls| :: IsLongValue(ls[i])
    ensures r == Put(w, EncLongs(ls))
    decreases |ls|
  {
    if |ls| == 0 then w
    else
      PutPut(w, EncLong(ls[0]), EncLongs(ls[1..]));
      WriteLongs(WriteLong(w, ls[0]), ls[1..])
  }

  /** The `longArray` writer nbt.d.ts:193 declares: the count, then the
      longs. nbt.js defines no such writer. */
  function WriteLongArray(w: Writer, ls: seq<LongValue>): (r: Writer)
    requires |ls| <= MaxCount && forall i | 0 <= i < |ls| :: IsLongValue(ls[i])
    ensures r == Put(w, EncLongArray(ls))
  {
    PutPut(w, EncInt(|ls|), EncLongs(ls));
    WriteLongs(WriteInt(w, |ls|), ls)
  }

  /** A list survives a write and a read under a registry exactly when its
      element kind is registered and every item survives. */
  lemma ListWellFormed(d: Dialect, k: Kind, items: seq<Tag>)
    requires Valid(ListTag(k, items))
    ensures WellFormed(d, ListTag(k, items)) <==>
      Registered(d, k) && forall j | 0 <= j < |items| :: WellFormed(d, items[j])
  {
  }

  lemma EntriesWellFormed(d: Dialect, es: seq<Entry>)
    requires ValidEntries(es)
    ensures WellFormedEntries(d, es) <==> forall j | 0 <= j < |es| :: WellFormed(d, es[j].tag)
  {
  }

  /** nbt.js has a writer for every value in the tree: under its registry
      the tree holds no `longArray` value. */
  predicate Writable(d: Dialect, t: Tag) {
    d == Declared || !HoldsLongArray(t)
  }

  predicate WritableEntries(d: Dialect, es: seq<Entry>) {
    d == Declared || !EntriesHoldLongArray(es)
  }

  /** `byte(tagTypes[type])`: the code of a registered kind; for a kind the
      registry lacks, `tagTypes[type]` is `undefined`, which `writeInt8`
      stores as 0. */
  function TypeCode(d: Dialect, k: Kind): (c: Kind)
    ensures Registered(d, k) ==> c == k
    ensures !Registered(d, k) ==> c == End && KindOf(d, k) == None
  {
    if Registered(d, k) then k else End
  }

  /** The tree nbt.js puts on the wire for `t`. It is `t` itself, except that
      an empty list of a kind the registry lacks goes out with the code 0 of
      an empty `end` list. (A non-empty one fails at its first item.) */
  function AsWritten(d: Dialect, t: Tag): (r: Tag)
    requires Valid(t)
    ensures Valid(r) && KindOfTag(r) == KindOfTag(t)
    decreases t, 2
  {
    match t
    case ListTag(k, items) =>
      ListTag(if |items| == 0 then TypeCode(d, k) else k, WrittenItems(d, items))
    case CompoundTag(es) =>
      assert ValidEntries(es);
      CompoundTag(WrittenEntries(d, es))
    case _ => t
  }

  function WrittenItems(d: Dialect, items: seq<Tag>): (r: seq<Tag>)
    requires forall i | 0 <= i < |items| :: Valid(items[i])
    ensures |r| == |items|
    ensures forall i | 0 <= i < |items| :: r[i] == AsWritten(d, items[i])
    decreases items, 1
  {
    if |items| == 0 then [] else [AsWritten(d, items[0])] + WrittenItems(d, items[1..])
  }

  function WrittenEntries(d: Dialect, es: seq<Entry>): (r: seq<Entry>)
    requires forall i | 0 <= i < |es| :: ValidName(es[i].name) && Valid(es[i].tag)
    ensures |r| == |es|
    ensures forall i | 0 <= i < |es| :: r[i] == Entry(es[i].name, AsWritten(d, es[i].tag))
    ensures forall i | 0 <= i < |es| :: ValidName(r[i].name) && Valid(r[i].tag)
    ensures UniqueNames(es) ==> ValidEntries(r)
    decreases es, 1
  {
    if |es| == 0 then []
    else [Entry(es[0].name, AsWritten(d, es[0].tag))] + WrittenEntries(d, es[1..])
  }

  /** A tree that survives the round trip is writable and goes out as
      itself. */
  lemma {:induction false} WellFormedWritten(d: Dialect, t: Tag)
    requires WellFormed(d, t)
    ensures Writable(d, t) && AsWritten(d, t) == t
    decreases t, 1
  {
    match t {
      case ListTag(k, items) =>
        forall i | 0 <= i < |items| ensures Writable(d, items[i]) && AsWritten(d, items[i]) == items[i] {
          WellFormedWritten(d, items[i]);
        }
        assert WrittenItems(d, items) == items;
      case CompoundTag(es) =>
        WellFormedEntriesWritten(d, es);
      case _ =>
    }
  }

  lemma {:induction false} WellFormedEntriesWritten(d: Dialect, es: seq<Entry>)
    requires WellFormedEntries(d, es)
    ensures WritableEntries(d, es) && WrittenEntries(d, es) == es
    decreases es, 0
  {
    forall i | 0 <= i < |es| ensures Writable(d, es[i].tag) && AsWritten(d, es[i].tag) == es[i].tag {
      WellFormedWritten(d, es[i].tag);
    }
    assert WrittenEntries(d, es) == es;
  }

  /** A value of a kind the registry lacks is a `longArray` value. */
  lemma UnregisteredHoldsLongArray(d: Dialect, t: Tag)
    ensures !Registered(d, KindOfTag(t)) ==> d == Script && HoldsLongArray(t)
  {
  }

  /** `this[t.type](t.value)`. When the registry has a writer for every
      value in the tree it writes the payload image of the tree nbt.js puts
      on the wire; otherwise it throws for want of a `longArray` writer. */
  method WriteTag(d: Dialect, w: Writer, t: Tag) returns (r: Result<Writer>)
    requires Valid(t)
    ensures r == if Writable(d, t) then Ok(Put(w, EncPayload(AsWritten(d, t)))) else Err(NoHandler(LongArray))
    decreases t, 2
  {
    match t
    case ByteTag(v) => r := Ok(WriteByte(w, v));
    case ShortTag(v) => r := Ok(WriteShort(w, v));
    case IntTag(v) => r := Ok(WriteInt(w, v));
    case LongTag(l) => r := Ok(WriteLong(w, l));
    case FloatTag(bits) => r := Ok(WriteFloat(w, bits));
    case DoubleTag(bits) => r := Ok(WriteDouble(w, bits));
    case ByteArrayTag(bs) => r := Ok(WriteByteArray(w, bs));
    case StringTag(s) => r := Ok(WriteStringBytes(w, s));
    case ListTag(k, items) => r := WriteList(d, w, k, items);
    case CompoundTag(es) => r := WriteCompound(d, w, es);
    case IntArrayTag(xs) =>
      var x := WriteIntArray(w, xs);
      r := Ok(x);
    case LongArrayTag(ls) =>
      if d == Script {
        r := Err(NoHandler(LongArray));
      } else {
        r := Ok(WriteLongArray(w, ls));
      }
  }

  /** `list(value)`: the element code, the count, then `this[type]` on each
      value in turn. */
  method WriteList(d: Dialect, w: Writer, k: Kind, items: seq<Tag>) returns (r: Result<Writer>)
    requires Valid(ListTag(k, items))
    ensures r == if Writable(d, ListTag(k, items))
                 then Ok(Put(w, EncPayload(AsWritten(d, ListTag(k, items)))))
                 else Err(NoHandler(LongArray))
    decreases ListTag(k, items), 1
  {
    r := WriteItems(d, WriteInt(WriteByte(w, TypeCode(d, k)), |items|), items);
    ListWritable(d, k, items);
    if r.Ok? {
      ListHead(d, w, k, items, r.value);
    }
  }

  /** The payload images of the items as nbt.js writes them, back to back. */
  function ItemsImage(d: Dialect, items: seq<Tag>): (r: seq<byte>)
    requires forall j | 0 <= j < |items| :: Valid(items[j])
    decreases |items|
  {
    if |items| == 0 then [] else EncPayload(AsWritten(d, items[0])) + ItemsImage(d, items[1..])
  }

  /** The items' images are those of the items of the tree nbt.js writes. */
  lemma {:induction false} ItemsImageWritten(d: Dialect, items: seq<Tag>)
    requires forall j | 0 <= j < |items| :: Valid(items[j])
    ensures ItemsImage(d, items) == EncItems(WrittenItems(d, items))
    decreases |items|
  {
    if |items| > 0 {
      ItemsImageWritten(d, items[1..]);
      assert WrittenItems(d, items)[1..] == WrittenItems(d, items[1..]);
    }
  }

  /** Appending one more item to the images written so far. */
  lemma ItemsImageSnoc(d: Dialect, items: seq<Tag>, i: nat)
    requires i < |items| && forall j | 0 <= j < |items| :: Valid(items[j])
    ensures ItemsImage(d, items[..i + 1]) == ItemsImage(d, items[..i]) + EncPayload(AsWritten(d, items[i]))
    decreases i
  {
    if i > 0 {
      assert items[..i + 1][1..] == items[1..][..i];
      assert items[..i][1..] == items[1..][..i - 1];
      ItemsImageSnoc(d, items[1..], i - 1);
    }
  }

  /** Every item has a writer for every value in it. */
  predicate ItemsWritable(d: Dialect, items: seq<Tag>)
    decreases |items|
  {
    |items| == 0 || (Writable(d, items[0]) && ItemsWritable(d, items[1..]))
  }

  /** Item by item writability is writability of each item. */
  lemma {:induction false} ItemsWritableEach(d: Dialect, items: seq<Tag>)
    ensures ItemsWritable(d, items) <==> forall j | 0 <= j < |items| :: Writable(d, items[j])
    decreases |items|
  {
    if |items| > 0 {
      ItemsWritableEach(d, items[1..]);
      assert forall j | 1 <= j < |items| :: items[j] == items[1..][j - 1];
    }
  }

  /** Appending one more writable item keeps the items writable. */
  lemma ItemsWritableSnoc(d: Dialect, items: seq<Tag>, i: nat)
    requires i < |items| && ItemsWritable(d, items[..i]) && Writable(d, items[i])
    ensures ItemsWritable(d, items[..i + 1])
    decreases i
  {
    if i > 0 {
      assert items[..i + 1][1..] == items[1..][..i];
      assert items[..i][1..] == items[1..][..i - 1];
      ItemsWritableSnoc(d, items[1..], i - 1);
    }
  }

  /** A list is writable exactly when its items are, one by one. */
  lemma ListWritable(d: Dialect, k: Kind, items: seq<Tag>)
    ensures Writable(d, ListTag(k, items)) <==> ItemsWritable(d, items)
  {
    ItemsWritableEach(d, items);
  }

  /** One turn of the list loop: the next value extends the items written
      so far. */
  lemma ItemStep(d: Dialect, start: Writer, items: seq<Tag>, i: nat, cur: Writer, next: Writer)
    requires i < |items| && forall j | 0 <= j < |items| :: Valid(items[j])
    requires cur == Put(start, ItemsImage(d, items[..i])) && ItemsWritable(d, items[..i])
    requires next == Put(cur, EncPayload(AsWritten(d, items[i]))) && Writable(d, items[i])
    ensures next == Put(start, ItemsImage(d, items[..i + 1])) && ItemsWritable(d, items[..i + 1])
  {
    ItemsImageSnoc(d, items, i);
    PutPut(start, ItemsImage(d, items[..i]), EncPayload(AsWritten(d, items[i])));
    ItemsWritableSnoc(d, items, i);
  }

  /** The loop of `list(value)`: `this[type]` on each value in turn. */
  method WriteItems(d: Dialect, w: Writer, items: seq<Tag>) returns (r: Result<Writer>)
    requires forall j | 0 <= j < |items| :: Valid(items[j])
    ensures r == if ItemsWritable(d, items) then Ok(Put(w, ItemsImage(d, items))) else Err(NoHandler(LongArray))
    decreases items, 0
  {
    var cur := w;
    var i := 0;
    while i < |items|
      invariant 0 <= i <= |items|
      invariant cur == Put(w, ItemsImage(d, items[..i])) && ItemsWritable(d, items[..i])
    {
      var x := WriteTag(d, cur, items[i]);
      if x.Err? {
        ItemsWritableEach(d, items);
        return x;
      }
      ItemStep(d, w, items, i, cur, x.value);
      cur := x.value;
      i := i + 1;
    }
    assert items[..i] == items;
    return Ok(cur);
  }

  /** The payload image of a writable list as nbt.js writes it: the code
      the registry gives its element kind, the count, then the items. */
  lemma WrittenListImage(d: Dialect, k: Kind, items: seq<Tag>)
    requires Valid(ListTag(k, items)) && Writable(d, ListTag(k, items))
    ensures EncPayload(AsWritten(d, ListTag(k, items))) == EncKind(TypeCode(d, k)) + EncInt(|items|) + ItemsImage(d, items)
  {
    if |items| > 0 {
      UnregisteredHoldsLongArray(d, items[0]);
    }
    ItemsImageWritten(d, items);
  }

  /** The list's code and count, then its items, make the payload image of
      the list nbt.js writes. */
  lemma ListHead(d: Dialect, w: Writer, k: Kind, items: seq<Tag>, cur: Writer)
    requires Valid(ListTag(k, items)) && Writable(d, ListTag(k, items))
    requires cur == Put(WriteInt(WriteByte(w, TypeCode(d, k)), |items|), ItemsImage(d, items))
    ensures cur == Put(w, EncPayload(AsWritten(d, ListTag(k, items))))
  {
    var code := TypeCode(d, k);
    WrittenListImage(d, k, items);
    PutPut(w, EncKind(code), EncInt(|items|));
    PutPut(w, EncKind(code) + EncInt(|items|), ItemsImage(d, items));
  }

  /** The entries' images as nbt.js writes them, back to back. */
  function EntriesImage(d: Dialect, es: seq<Entry>): (r: seq<byte>)
    requires forall j | 0 <= j < |es| :: ValidName(es[j].name) && Valid(es[j].tag)
    decreases |es|
  {
    if |es| == 0 then [] else EncEntry(Entry(es[0].name, AsWritten(d, es[0].tag))) + EntriesImage(d, es[1..])
  }

  /** The entries' images are those of the entries of the tree nbt.js
      writes. */
  lemma {:induction false} EntriesImageWritten(d: Dialect, es: seq<Entry>)
    requires forall j | 0 <= j < |es| :: ValidName(es[j].name) && Valid(es[j].tag)
    ensures EntriesImage(d, es) == EncEntries(WrittenEntries(d, es))
    decreases |es|
  {
    if |es| > 0 {
      EntriesImageWritten(d, es[1..]);
      assert WrittenEntries(d, es)[1..] == WrittenEntries(d, es[1..]);
    }
  }

  /** Appending one more entry to the images written so far. */
  lemma EntriesImageSnoc(d: Dialect, es: seq<Entry>, i: nat)
    requires i < |es| && forall j | 0 <= j < |es| :: ValidName(es[j].name) && Valid(es[j].tag)
    ensures EntriesImage(d, es[..i + 1]) == EntriesImage(d, es[..i]) + EncEntry(Entry(es[i].name, AsWritten(d, es[i].tag)))
    decreases i
  {
    if i > 0 {
      assert es[..i + 1][1..] == es[1..][..i];
      assert es[..i][1..] == es[1..][..i - 1];
      EntriesImageSnoc(d, es[1..], i - 1);
    }
  }

  /** Appending one more writable entry keeps the entries writable; an
      entry that is not makes the whole run unwritable. */
  lemma EntriesWritableSnoc(d: Dialect, es: seq<Entry>, i: nat)
    requires i < |es|
    ensures WritableEntries(d, es[..i]) && Writable(d, es[i].tag) ==> WritableEntries(d, es[..i + 1])
    ensures !Writable(d, es[i].tag) ==> !WritableEntries(d, es)
  {
    assert es[..i + 1][i] == es[i];
  }

  /** One turn of the compound loop: the entry just written extends the
      entries written so far. */
  lemma EntryStep(d: Dialect, w: Writer, es: seq<Entry>, i: nat, cur: Writer, next: Writer)
    requires i < |es| && forall j | 0 <= j < |es| :: ValidName(es[j].name) && Valid(es[j].tag)
    requires cur == Put(w, EntriesImage(d, es[..i]))
    requires next == Put(cur, EncEntry(Entry(es[i].name, AsWritten(d, es[i].tag))))
    ensures next == Put(w, EntriesImage(d, es[..i + 1]))
  {
    EntriesImageSnoc(d, es, i);
    PutPut(w, EntriesImage(d, es[..i]), EncEntry(Entry(es[i].name, AsWritten(d, es[i].tag))));
  }

  /** The body of the loop of `compound(value)`: the value's type code, the
      key, then `this[type]` on the value. */
  method WriteEntry(d: Dialect, w: Writer, es: seq<Entry>, i: nat) returns (r: Result<Writer>)
    requires i < |es| && ValidName(es[i].name) && Valid(es[i].tag)
    ensures r == if Writable(d, es[i].tag) then Ok(Put(w, EncEntry(Entry(es[i].name, AsWritten(d, es[i].tag)))))
                 else Err(NoHandler(LongArray))
    decreases es, 0
  {
    var e := es[i];
    UnregisteredHoldsLongArray(d, e.tag);
    var named := WriteStringBytes(WriteByte(w, TypeCode(d, KindOfTag(e.tag))), e.name);
    r := WriteTag(d, named, e.tag);
    if r.Ok? {
      var x := AsWritten(d, e.tag);
      PutPut(w, EncKind(KindOfTag(x)), EncString(e.name));
      PutPut(w, EncKind(KindOfTag(x)) + EncString(e.name), EncPayload(x));
    }
  }

  /** `compound(value)`: for each key, the value's type code, the key, the
      value; then the `end` code. */
  method WriteCompound(d: Dialect, w: Writer, es: seq<Entry>) returns (r: Result<Writer>)
    requires ValidEntries(es)
    ensures r == if WritableEntries(d, es) then Ok(Put(w, EncCompound(WrittenEntries(d, es)))) else Err(NoHandler(LongArray))
    decreases es, 1
  {
    var cur := w;
    var i := 0;
    while i < |es|
      invariant 0 <= i <= |es|
      invariant cur == Put(w, EntriesImage(d, es[..i])) && WritableEntries(d, es[..i])
    {
      var x := WriteEntry(d, cur, es, i);
      EntriesWritableSnoc(d, es, i);
      if x.Err? {
        return x;
      }
      EntryStep(d, w, es, i, cur, x.value);
      cur := x.value;
      i := i + 1;
    }
    assert es[..i] == es;
    EntriesImageWritten(d, es);
    CompoundEnd(w, WrittenEntries(d, es), cur);
    return Ok(WriteByte(cur, End));
  }

  /** The entries, then the `end` code, make up the compound. */
  lemma CompoundEnd(w: Writer, es: seq<Entry>, cur: Writer)
    requires ValidEntries(es)
    requires cur == Put(w, EncEntries(es))
    ensures WriteByte(cur, End) == Put(w, EncCompound(es))
  {
    assert EncByte(End) == [0];
    PutPut(w, EncEntries(es), EncByte(End));
  }
}
