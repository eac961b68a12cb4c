/** The in-memory tag tree (the `Tag` union and `RootTag` of nbt.d.ts).

    A JavaScript tag is `{type: <name>, value: <payload>}`; here the
    constructor plays the role of `type`. Strings and entry names are held as
    their UTF-8 bytes, which is what the codec puts on the wire. Floats and
    doubles are held as their raw IEEE-754 bit patterns.
 */
module Tags {
  import opened Bytes
  import opened TagTypes

  /** A 64-bit integer as the host holds it: `[upper, lower]`, two signed
      32-bit halves. */
  datatype LongValue = LongValue(upper: int, lower: int)

  datatype Tag =
    | ByteTag(byteValue: int)
    | ShortTag(shortValue: int)
    | IntTag(intValue: int)
    | LongTag(longValue: LongValue)
    | FloatTag(floatBits: nat)
    | DoubleTag(doubleBits: nat)
    | ByteArrayTag(bytes: seq<int>)
    | StringTag(utf8: seq<byte>)
    | ListTag(elementKind: Kind, items: seq<Tag>)
    | CompoundTag(entries: seq<Entry>)
    | IntArrayTag(ints: seq<int>)
    | LongArrayTag(longs: seq<LongValue>)

  /** One named member of a compound. */
  datatype Entry = Entry(name: seq<byte>, tag: Tag)

  /** The top-level artifact: a name and the entries of a compound. */
  datatype RootTag = RootTag(name: seq<byte>, entries: seq<Entry>)

  /** The `type` field of a tag. */
  function KindOfTag(t: Tag): (k: Kind)
    ensures k != End
  {
    match t
    case ByteTag(_) => Byte
    case ShortTag(_) => Short
    case IntTag(_) => Int
    case LongTag(_) => Long
    case FloatTag(_) => Float
    case DoubleTag(_) => Double
    case ByteArrayTag(_) => ByteArray
    case StringTag(_) => String
    case ListTag(_, _) => List
    case CompoundTag(_) => Compound
    case IntArrayTag(_) => IntArray
    case LongArrayTag(_) => LongArray
  }

  /** The largest count an int32 length prefix can carry. */
  const MaxCount: int := 0x7FFF_FFFF

  /** The longest string: its byte length is written with the signed 16-bit
      writer, which throws above this. */
  const MaxStringBytes: int := 0x7FFF

  predicate IsLongValue(l: LongValue) {
    IsInt32(l.upper) && IsInt32(l.lower)
  }

  predicate ValidName(name: seq<byte>) {
    |name| <= MaxStringBytes
  }

  /** No two entries of a compound share a name (keys of a JavaScript object). */
  predicate UniqueNames(es: seq<Entry>) {
    forall i, j | 0 <= i < j < |es| :: es[i].name != es[j].name
  }

  /** The tree invariant of the writer: every value fits the width its
      kind writes, every count fits an int32, strings fit the signed 16-bit
      prefix, lists are homogeneous and an `end` list is empty, and names in
      a compound are unique. A byte array may hold any numbers: `new
      Buffer(array)` keeps the low eight bits of each. */
  predicate Valid(t: Tag)
    decreases t, 1
  {
    match t
    case ByteTag(v) => IsInt8(v)
    case ShortTag(v) => IsInt16(v)
    case IntTag(v) => IsInt32(v)
    case LongTag(l) => IsLongValue(l)
    case FloatTag(bits) => bits < Pow256(4)
    case DoubleTag(bits) => bits < Pow256(8)
    case ByteArrayTag(bs) => |bs| <= MaxCount
    case StringTag(s) => |s| <= MaxStringBytes
    case ListTag(k, items) =>
      && (k == End ==> |items| == 0)
      && |items| <= MaxCount
      && forall i | 0 <= i < |items| :: KindOfTag(items[i]) == k && Valid(items[i])
    case CompoundTag(es) => ValidEntries(es)
    case IntArrayTag(xs) => |xs| <= MaxCount && forall i | 0 <= i < |xs| :: IsInt32(xs[i])
    case LongArrayTag(ls) => |ls| <= MaxCount && forall i | 0 <= i < |ls| :: IsLongValue(ls[i])
  }

  predicate ValidEntries(es: seq<Entry>)
    decreases es, 0
  {
    && UniqueNames(es)
    && forall i | 0 <= i < |es| :: ValidName(es[i].name) && Valid(es[i].tag)
  }

  /** The tree holds a `longArray` value somewhere, the one kind nbt.js has
      no writer for. */
  predicate HoldsLongArray(t: Tag)
    decreases t, 1
  {
    match t
    case LongArrayTag(_) => true
    case ListTag(_, items) => exists i | 0 <= i < |items| :: HoldsLongArray(items[i])
    case CompoundTag(es) => EntriesHoldLongArray(es)
    case _ => false
  }

  predicate EntriesHoldLongArray(es: seq<Entry>)
    decreases es, 0
  {
    exists i | 0 <= i < |es| :: HoldsLongArray(es[i].tag)
  }

  /** The tree is one the reader of dialect `d` can return: byte-array
      elements are signed bytes, as `readInt8` yields them, and every kind,
      of a value or of a list's elements, is registered. */
  predicate Canonical(d: Dialect, t: Tag)
    decreases t, 1
  {
    match t
    case ByteArrayTag(bs) => forall i | 0 <= i < |bs| :: IsInt8(bs[i])
    case ListTag(k, items) => Registered(d, k) && forall i | 0 <= i < |items| :: Canonical(d, items[i])
    case CompoundTag(es) => CanonicalEntries(d, es)
    case LongArrayTag(_) => Registered(d, LongArray)
    case _ => true
  }

  predicate CanonicalEntries(d: Dialect, es: seq<Entry>)
    decreases es, 0
  {
    forall i | 0 <= i < |es| :: Canonical(d, es[i].tag)
  }

  /** The trees that survive a write and a read under dialect `d` unchanged. */
  predicate WellFormed(d: Dialect, t: Tag) {
    Valid(t) && Canonical(d, t)
  }

  predicate WellFormedEntries(d: Dialect, es: seq<Entry>) {
    ValidEntries(es) && CanonicalEntries(d, es)
  }

  predicate WellFormedRoot(d: Dialect, r: RootTag) {
    ValidName(r.name) && WellFormedEntries(d, r.entries)
  }
}
