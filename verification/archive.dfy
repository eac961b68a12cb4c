/** The top level of nbt.js (nbt.js:43-45, 247-286): an archive is the type
    code of a compound, the root name, and the compound's entries.
    `writeUncompressed` produces one, `parseUncompressed` reads one, and
    `parse` first inflates a gzip stream when the data carries the gzip magic
    number.
 */
module Archive {
  import opened Outcomes
  import opened Bytes
  import opened TagTypes
  import opened Tags
  import opened Encoding
  import opened Reader
  import opened Writer
  import opened RoundTrip

  /** `data[i]` in JavaScript: `undefined` past the end. */
  function ByteAt(data: seq<byte>, i: nat): Option<byte> {
    if i < |data| then Some(data[i]) else None
  }

  /** `hasGzipHeader(data)`: the first two bytes are ID1 = 0x1F and
      ID2 = 0x8B, the magic number of a gzip member (section 2.3.1 of
      RFC 1952). */
  function HasGzipHeader(data: seq<byte>): (r: bool)
    ensures r <==> |data| >= 2 && data[..2] == [0x1F, 0x8B]
  {
    ByteAt(data, 0) == Some(0x1F) && ByteAt(data, 1) == Some(0x8B)
  }

  /** An uncompressed archive starts with the compound code 10, so `parse`
      never mistakes one for a gzip stream. */
  lemma EncodedArchiveIsNotGzip(root: RootTag, trailing: seq<byte>)
    requires ValidName(root.name) && ValidEntries(root.entries)
    ensures !HasGzipHeader(EncRoot(root) + trailing)
  {
    assert EncKind(Compound) == [10];
    assert (EncRoot(root) + trailing)[0] == 10;
  }

  /** `writeUncompressed(value)`: a fresh writer, the compound code, the
      root name, the compound; the result is the writer's buffer. nbt.js has
      no writer for `longArray`, so a tree that holds such a value fails
      under the nbt.js registry. */
  method WriteUncompressed(d: Dialect, root: RootTag) returns (r: Result<seq<byte>>)
    requires ValidName(root.name) && ValidEntries(root.entries)
    ensures r == if WritableEntries(d, root.entries)
                 then Ok(EncRoot(RootTag(root.name, WrittenEntries(d, root.entries))))
                 else Err(NoHandler(LongArray))
  {
    var w := WriteByte(Fresh, Compound);
    PutAtEnd([], EncByte(Compound));
    var head := EncByte(Compound);
    assert w == Writer(head, |head|);
    w := WriteStringBytes(w, root.name);
    PutAtEnd(head, EncString(root.name));
    head := head + EncString(root.name);
    assert w == Writer(head, |head|);
    var c := WriteCompound(d, w, root.entries);
    if c.Err? {
      return Err(c.error);
    }
    PutAtEnd(head, EncCompound(WrittenEntries(d, root.entries)));
    return Ok(c.value.buffer);
  }

  /** `parseUncompressed(data)`: the top type code must be the compound
      code; then the root name and the compound's entries. Bytes after the
      compound's end code are not read. */
  function ParseUncompressed(d: Dialect, data: seq<byte>): (r: Result<RootTag>)
    ensures |data| == 0 ==> r == Err(OutOfRange)
    ensures |data| > 0 && data[0] != Compound ==>
      r == Err(TopTagNotCompound(if data[0] < 0x80 then data[0] as int else data[0] as int - 0x100))
    ensures r.Ok? ==> data[0] == Compound
  {
    var t :- ReadSigned(data, 0, 1);
    if t.value != Compound then Err(TopTagNotCompound(t.value))
    else
      var name :- ReadString(data, t.next);
      var es :- ReadCompound(d, data, name.next);
      Ok(RootTag(name.value, es.value))
  }

  /** Reading back what `writeUncompressed` produces gives the tree back,
      whatever bytes follow it. */
  lemma RootRoundTrip(d: Dialect, root: RootTag, trailing: seq<byte>)
    requires WellFormedRoot(d, root)
    ensures ParseUncompressed(d, EncRoot(root) + trailing) == Ok(root)
  {
    var data := EncRoot(root) + trailing;
    var a, b, c := EncKind(Compound), EncString(root.name), EncCompound(root.entries);
    assert a == [10];
    assert data[0..|a + b + c|] == a + b + c;
    AtSplit3(data, 0, a, b, c);
    StringRoundTrip(data, 1, root.name);
    CompoundRoundTrip(d, root.entries, data, 1 + |b|);
  }

  /** `writeUncompressed` succeeds on every root that survives the round
      trip, and `parseUncompressed` returns that root from its output. */
  lemma WriteThenParse(d: Dialect, root: RootTag)
    requires WellFormedRoot(d, root)
    ensures WritableEntries(d, root.entries)
    ensures RootTag(root.name, WrittenEntries(d, root.entries)) == root
    ensures ParseUncompressed(d, EncRoot(root)) == Ok(root)
  {
    WellFormedEntriesWritten(d, root.entries);
    RootRoundTrip(d, root, []);
    assert EncRoot(root) + [] == EncRoot(root);
  }

  /** `parse(data, callback)`: gzip streams are inflated by `gunzip` first
      (zlib is outside the model and enters as a parameter); an inflation
      error is passed on, otherwise the result is that of
      `parseUncompressed`. */
  function Parse(d: Dialect, data: seq<byte>, gunzip: seq<byte> -> Option<seq<byte>>): (r: Result<RootTag>)
    ensures !HasGzipHeader(data) ==> r == ParseUncompressed(d, data)
    ensures HasGzipHeader(data) && gunzip(data).None? ==> r == Err(InflateFailed)
    ensures HasGzipHeader(data) && gunzip(data).Some? ==> r == ParseUncompressed(d, gunzip(data).value)
  {
    if HasGzipHeader(data) then
      match gunzip(data)
      case None => Err(InflateFailed)
      case Some(inflated) => ParseUncompressed(d, inflated)
    else ParseUncompressed(d, data)
  }

  /** `parse` returns the tree of an uncompressed archive without consulting
      zlib, and that of a gzip stream that inflates to one. */
  lemma ParseRoundTrip(d: Dialect, root: RootTag, data: seq<byte>, gunzip: seq<byte> -> Option<seq<byte>>)
    requires WellFormedRoot(d, root)
    requires data == EncRoot(root) || (HasGzipHeader(data) && gunzip(data) == Some(EncRoot(root)))
    ensures Parse(d, data, gunzip) == Ok(root)
  {
    RootRoundTrip(d, root, []);
    assert EncRoot(root) + [] == EncRoot(root);
    if data == EncRoot(root) {
      EncodedArchiveIsNotGzip(root, []);
    }
  }
}
