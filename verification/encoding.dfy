/** The byte image each per-kind writer of nbt.js produces, as pure
    functions of the value (the wire format, big-endian, no padding).
 */
module Encoding {
  import opened Bytes
  import opened TagTypes
  import opened Tags

  function EncByte(v: int): (r: seq<byte>)
    requires IsInt8(v)
    ensures |r| == 1
  {
    ToTwos(v, 1)
  }

  function EncShort(v: int): (r: seq<byte>)
    requires IsInt16(v)
    ensures |r| == 2
  {
    ToTwos(v, 2)
  }

  function EncInt(v: int): (r: seq<byte>)
    requires IsInt32(v)
    ensures |r| == 4
  {
    ToTwos(v, 4)
  }

  /** A float is written as its raw 4-byte IEEE-754 pattern. */
  function EncFloat(bits: nat): (r: seq<byte>)
    requires bits < Pow256(4)
    ensures |r| == 4
  {
    ToBigEndian(bits, 4)
  }

  /** A double is written as its raw 8-byte IEEE-754 pattern. */
  function EncDouble(bits: nat): (r: seq<byte>)
    requires bits < Pow256(8)
    ensures |r| == 8
  {
    ToBigEndian(bits, 8)
  }

  /** A long is its upper int followed by its lower int. */
  function EncLong(l: LongValue): (r: seq<byte>)
    requires IsLongValue(l)
    ensures |r| == 8
  {
    EncInt(l.upper) + EncInt(l.lower)
  }

  /** A string: its UTF-8 byte count (signed 16-bit) then the bytes. */
  function EncString(s: seq<byte>): (r: seq<byte>)
    requires |s| <= MaxStringBytes
    ensures |r| == 2 + |s|
  {
    EncShort(|s|) + s
  }

  /** `new Buffer(array)` keeps the low eight bits of each element. */
  function LowBytes(bs: seq<int>): (r: seq<byte>)
    ensures |r| == |bs|
    ensures forall i | 0 <= i < |bs| :: r[i] == bs[i] % 256
  {
    seq(|bs|, i requires 0 <= i < |bs| => bs[i] % 256)
  }

  function EncByteArray(bs: seq<int>): (r: seq<byte>)
    requires |bs| <= MaxCount
    ensures |r| == 4 + |bs|
  {
    EncInt(|bs|) + LowBytes(bs)
  }

  function EncInts(xs: seq<int>): (r: seq<byte>)
    requires forall i | 0 <= i < |xs| :: IsInt32(xs[i])
    ensures |r| == 4 * |xs|
  {
    if |xs| == 0 then [] else EncInt(xs[0]) + EncInts(xs[1..])
  }

  function EncIntArray(xs: seq<int>): (r: seq<byte>)
    requires |xs| <= MaxCount && forall i | 0 <= i < |xs| :: IsInt32(xs[i])
    ensures |r| == 4 + 4 * |xs|
  {
    EncInt(|xs|) + EncInts(xs)
  }

  function EncLongs(ls: seq<LongValue>): (r: seq<byte>)
    requires forall i | 0 <= i < |ls| :: IsLongValue(ls[i])
    ensures |r| == 8 * |ls|
  {
    if |ls| == 0 then [] else EncLong(ls[0]) + EncLongs(ls[1..])
  }

  function EncLongArray(ls: seq<LongValue>): (r: seq<byte>)
    requires |ls| <= MaxCount && forall i | 0 <= i < |ls| :: IsLongValue(ls[i])
    ensures |r| == 4 + 8 * |ls|
  {
    EncInt(|ls|) + EncLongs(ls)
  }

  /** The one-byte type code of a kind. */
  function EncKind(k: Kind): (r: seq<byte>)
    ensures |r| == 1
  {
    EncByte(k)
  }

  /** The bytes `writer[t.type](t.value)` appends. */
  function EncPayload(t: Tag): (r: seq<byte>)
    requires Valid(t)
    ensures |r| > 0
    decreases t, 2
  {
    match t
    case ByteTag(v) => EncByte(v)
    case ShortTag(v) => EncShort(v)
    case IntTag(v) => EncInt(v)
    case LongTag(l) => EncLong(l)
    case FloatTag(bits) => EncFloat(bits)
    case DoubleTag(bits) => EncDouble(bits)
    case ByteArrayTag(bs) => EncByteArray(bs)
    case StringTag(s) => EncString(s)
    case ListTag(k, items) => EncList(k, items)
    case CompoundTag(es) => EncCompound(es)
    case IntArrayTag(xs) => EncIntArray(xs)
    case LongArrayTag(ls) => EncLongArray(ls)
  }

  /** The payloads of list items, back to back, with no per-item type code. */
  function EncItems(items: seq<Tag>): seq<byte>
    requires forall i | 0 <= i < |items| :: Valid(items[i])
    decreases items, 1
  {
    if |items| == 0 then [] else EncPayload(items[0]) + EncItems(items[1..])
  }

  /** A list: element type code, int32 count, then the items. */
  function EncList(k: Kind, items: seq<Tag>): (r: seq<byte>)
    requires Valid(ListTag(k, items))
    ensures |r| >= 5
    decreases ListTag(k, items), 1
  {
    EncKind(k) + EncInt(|items|) + EncItems(items)
  }

  /** One compound entry: type code, name, payload. */
  function EncEntry(e: Entry): (r: seq<byte>)
    requires ValidName(e.name) && Valid(e.tag)
    ensures |r| >= 4
    decreases e, 0
  {
    EncKind(KindOfTag(e.tag)) + EncString(e.name) + EncPayload(e.tag)
  }

  function EncEntries(es: seq<Entry>): seq<byte>
    requires forall i | 0 <= i < |es| :: ValidName(es[i].name) && Valid(es[i].tag)
    decreases es, 1
  {
    if |es| == 0 then [] else EncEntry(es[0]) + EncEntries(es[1..])
  }

  /** A compound: its entries in order, then the `end` code 0. */
  function EncCompound(es: seq<Entry>): (r: seq<byte>)
    requires ValidEntries(es)
    ensures |r| > 0 && r[|r| - 1] == 0
    decreases es, 2
  {
    EncEntries(es) + [0]
  }

  /** The archive: the compound code 10, the root name, the root compound. */
  function EncRoot(r: RootTag): (out: seq<byte>)
    requires ValidName(r.name) && ValidEntries(r.entries)
  {
    EncKind(Compound) + EncString(r.name) + EncCompound(r.entries)
  }
}
