# NBT.js tag codec in Dafny

A model of the core of NBT.js, a reader and writer for "named binary tag"
archives. An archive is a tree of typed, named values. It is stored as a
big-endian byte string: a one-byte type code, a name, then a payload whose
shape depends on the type.

The model covers:

- **The tag-kind registry** (`TagTypes`): `tagTypes` maps names to codes and
  `tagTypeNames` maps codes back. nbt.js registers the twelve kinds `end` (0)
  to `intArray` (11). The declaration file nbt.d.ts and the reader tests add
  `longArray` (12). The two registries are the `Script` and `Declared`
  dialects.
- **The tag tree** (`Tags`): the `Tag` union, `Entry` and `RootTag`, and
  three tree invariants:
  - `Valid` is what the writer accepts: every number fits the width its
    kind writes, except that byte arrays may hold any numbers;
  - `Canonical` is what the reader can return under a registry: byte-array
    elements are signed bytes, and every kind is registered;
  - `WellFormed` is both, the trees that survive a write and a read.
- **The byte image of each per-kind writer** (`Encoding`), as pure functions,
  and the fixed-width two's complement formats (`Bytes`).
- **The writer** (`Writer`): a buffer and a free cursor. `accommodate` grows
  the buffer to exactly `offset + size`, its new bytes zero (nbt.js zeroes
  a gap left by a forward seek and relies on `new Buffer` for the rest,
  which Node zero-fills from version 8 on); `write` overwrites at the cursor and advances it. The per-kind
  writers, the list loop and the compound loop are modelled, and the state
  they produce is proved equal to putting the pure byte image at the cursor.
- **The reader** (`Reader`): partial functions of the buffer and an offset.
  Each returns an `Error` value where the JavaScript throws:
  - `OutOfRange` for a read past the end;
  - `NoHandler` for a type code whose `this[type]` is undefined;
  - `TopTagNotCompound` for an archive that does not start with 10.
- **The round trip** (`RoundTrip`): every reader inverts its writer wherever
  the bytes sit in a larger buffer.
- **The top level** (`Archive`): `hasGzipHeader`, `writeUncompressed`,
  `parseUncompressed` and `parse`, and the round trip
  `parseUncompressed(writeUncompressed(r)) == r`.
- **`getStringSize`** (`StringSize`, `Unicode`): the UTF-8 byte count of a
  JavaScript string. It is compared with the UTF-8 length (RFC 3629) of the
  string's UTF-16 decoding (RFC 2781).
- **`decodeUTF8`** (`Polyfill`): the browser test polyfill that turns UTF-8
  bytes into a string.
- **The byte strings of the test suites** (`Examples`), stated over the
  model.

Strings and names in the tree are held as their UTF-8 bytes. Floats and
doubles are held as raw IEEE-754 bit patterns. Values that the host's
fixed-width writers would reject are excluded by `requires`, as Node's
`Buffer.writeInt*BE` range checks throw on them. Byte arrays pass through
`new Buffer(array)`, which has no such check and keeps the low eight bits of
each number, and the model does the same.

## Model

| member | source | states |
|---|---|---|
| TagTypes.KindOf | nbt.js:34-41 | `tagTypeNames[c]` is defined exactly for the codes the dialect registers (0..11 in nbt.js, 0..12 in the declarations), and a registered code denotes its own kind |
| TagTypes.KindNamed | nbt.d.ts:8-22 | a name the registry knows denotes a kind whose registry name is that name |
| TagTypes.NameLookup | nbt.d.ts:8-22 | every kind is found again under its own name |
| TagTypes.TagTypeNamesInvertsTagTypes | nbt.js:34-41 | `tagTypes[name] == c` exactly when `tagTypeNames[c] == name`, under either registry: the two tables are inverse maps |
| TagTypes.NamesInjective | nbt.js:19-32 | distinct kinds have distinct names, so the code map is injective |
| TagTypes.RegistrySizes | nbt.d.ts:8-22 | nbt.js registers codes 0..11 only; the declarations register 0..12, with 12 as `longArray` |
| Bytes.FromToBigEndian | nbt.js:171-181 | reading the big-endian bytes of a value gives the value back |
| Bytes.ToFromBigEndian | nbt.js:171-181 | writing the value of a big-endian pattern gives the same bytes back |
| Bytes.Signed | nbt.js:177-179 | the signed reading of a pattern fits the width and is negative exactly when the top bit is set |
| Bytes.FromTwosOfTwos | nbt.js:96-98 | `readInt*BE` undoes `writeInt*BE` for every value in range |
| Bytes.TwosOfFromTwos | nbt.js:177-179 | `writeInt*BE` undoes `readInt*BE` for every byte pattern |
| Bytes.UnsignedAtIsSlice | nbt.js:171-175 | the value read in place at an offset is that of the slice at the offset |
| Bytes.SignedLow | nbt.js:108-115 | the signed byte with the same low eight bits as a number, which is the number itself when it is a signed byte: what `new Buffer(array)` stores for it reads back as this (`RoundTrip.ByteArrayReadsLowBytes`) |
| Encoding.EncByte | nbt.js:96 | a byte's image is one byte; `RoundTrip.ByteTagRoundTrip` reads it back |
| Encoding.EncShort | nbt.js:97 | a short's image is two bytes; `RoundTrip.ShortTagRoundTrip` reads it back |
| Encoding.EncInt | nbt.js:98 | an int's image is four bytes; `RoundTrip.IntTagRoundTrip` reads it back |
| Encoding.EncFloat | nbt.js:99 | a float's image is four bytes; `RoundTrip.FloatTagRoundTrip` reads it back |
| Encoding.EncDouble | nbt.js:100 | a double's image is eight bytes; `RoundTrip.DoubleTagRoundTrip` reads it back |
| Encoding.EncLong | nbt.js:102-106 | a long's image is eight bytes; `RoundTrip.LongRoundTrip` reads it back as `[upper, lower]` |
| Encoding.EncString | nbt.js:126-134 | a string's image is two bytes longer than its UTF-8 bytes; `RoundTrip.StringRoundTrip` reads the length and exactly those bytes back |
| Encoding.EncByteArray | nbt.js:108-115 | a byte array's image is a four-byte count plus one byte per element |
| Encoding.EncIntArray | nbt.js:117-124 | an int array's image is a four-byte count plus four bytes per element |
| Encoding.EncLongArray | nbt.d.ts:193-194 | a long array's image is a four-byte count plus eight bytes per element |
| Encoding.EncList | nbt.js:136-144 | a list's image holds at least its element code and its count; `RoundTrip.ListTagRoundTrip` reads it back |
| Encoding.EncPayload | nbt.js:141 | every payload's image is at least one byte, so the reader always advances; `RoundTrip.PayloadRoundTrip` reads every payload back |
| Encoding.EncCompound | nbt.js:146-155 | a compound's image ends with the `end` code 0; `RoundTrip.CompoundRoundTrip` reads it back |
| Writer.Accommodate | nbt.js:55-67 | after `accommodate(size)` the buffer has room for `size` bytes at the unchanged cursor |
| Writer.Write | nbt.js:89-94 | `write` advances the cursor by the number of bytes written |
| Writer.WriteSpec | nbt.js:55-94 | the buffer's length becomes `max(len, offset + k)`; the written bytes sit at the cursor; bytes before and after them are unchanged; a gap past the old end reads as zeros |
| Writer.WriteWrite | nbt.js:89-94 | two writes in a row are one write of both byte strings |
| Writer.Poke | nbt.js:89-94 | storing one byte leaves the cursor one past it and inside the buffer |
| Writer.PokeIsWrite | nbt.js:89-94 | storing one byte is a one-byte `write` |
| Writer.Put | nbt.js:89-94 | a run of writes advances the cursor by its length and leaves it inside the buffer |
| Writer.PutIsWrite | nbt.js:89-94 | storing bytes one at a time is one `write` of them all |
| Writer.PutPut | nbt.js:89-94 | putting `a` and then `b` at the advanced cursor is putting `a + b` |
| Writer.PutAtEnd | nbt.js:55-67 | writing at the end of the buffer appends, and the buffer grows to exactly the new length |
| Writer.RewriteAfterSeek | nbt.d.ts:133-138 | moving the cursor back over bytes just written and writing as many again leaves the writer as if only the second write had happened |
| Writer.WriteLong | nbt.js:102-106 | `long([upper, lower])` is `int(upper)` then `int(lower)`, the long's image |
| Writer.WriteByteArray | nbt.js:108-115 | `byteArray` writes the count, then the low bytes copied in at the cursor |
| Writer.WriteStringBytes | nbt.js:126-134 | `string` writes the byte count as a short, then the bytes |
| Writer.WriteIntArray | nbt.js:117-124 | the int loop writes the count, then each element in order: the int array's image |
| Writer.WriteLongs | nbt.d.ts:193-194 | the longs of a long array, in order |
| Writer.WriteLongArray | nbt.d.ts:193-194 | the declared `longArray` writer writes the count, then the longs |
| Writer.ListWellFormed | nbt.js:136-144 | a list survives a write and a read under a registry exactly when its element kind is registered and every item survives |
| Writer.EntriesWellFormed | nbt.js:146-155 | a compound survives a write and a read exactly when every entry's value does |
| Writer.TypeCode | nbt.js:137 | `byte(tagTypes[type])` writes a registered kind's own code, and 0 for a kind the registry lacks, whose `tagTypes` entry is `undefined` |
| Writer.WellFormedWritten | nbt.js:136-155 | a tree that survives the round trip has a writer for every value in it and goes out unchanged |
| Writer.WellFormedEntriesWritten | nbt.js:146-155 | the entries of such a compound have writers and go out unchanged |
| Writer.WriteTag | nbt.js:141 | `this[t.type](t.value)` writes the payload image of the tree as nbt.js puts it on the wire whenever the registry has a writer for every value in the tree, and fails for want of a `longArray` writer exactly otherwise; byte arrays may hold any numbers |
| Writer.WriteList | nbt.js:136-144 | `list` writes the element code (0 for an empty list of a kind the registry lacks), the count and the items, and fails exactly when an item holds a `longArray` value under nbt.js |
| Writer.ListWritable | nbt.js:136-144 | a list has writers for all its values exactly when each of its items has |
| Writer.WriteItems | nbt.js:139-142 | the list loop writes the items' images in order, and fails exactly when some item has no writer |
| Writer.ItemsWritableEach | nbt.js:139-142 | the loop's item-by-item condition is that every item has a writer |
| Writer.ItemsImageWritten | nbt.js:139-142 | what the loop writes is the list image of the items as nbt.js puts them on the wire |
| Writer.WriteEntry | nbt.js:149-151 | one entry: its code, its name and its value, or the failure of its value |
| Writer.EntriesImageWritten | nbt.js:148-152 | what the compound loop writes is the image of the entries as nbt.js puts them on the wire |
| Writer.WriteCompound | nbt.js:146-155 | `compound` writes each entry's code, name and value, then the `end` code, and fails exactly when an entry's value holds a `longArray` value under nbt.js |
| Reader.ReadSigned | nbt.js:171-179 | `readInt*BE` succeeds exactly when the bytes are there, returns a value of the width and advances by the width; otherwise a range error |
| Reader.ReadSignedInverts | nbt.js:171-179 | the value read is the one whose two's complement sits at the offset |
| Reader.ReadUnsigned | nbt.js:180-181 | a raw pattern read succeeds exactly when the bytes are there and advances by the width |
| Reader.ReadUnsignedInverts | nbt.js:180-181 | the pattern read is the one whose bytes sit at the offset |
| Reader.ReadLong | nbt.js:183-185 | `long()` reads `[upper, lower]`, upper first, and advances by 8 |
| Reader.ReadInt8s | nbt.js:190-193 | `n` signed bytes are read exactly when they are there; the offset advances by `n` |
| Reader.ReadInt32s | nbt.js:200-203 | `n` ints are read exactly when they are there; the offset advances by `4n` |
| Reader.ReadLongs | nbt.d.ts:285-293 | `n` longs are read exactly when they are there; the offset advances by `8n` |
| Reader.ReadByteArray | nbt.js:187-195 | a byte array holds `max(count, 0)` signed bytes after its count, as the `for` loop runs `count` times and never for a count <= 0, and ends within the buffer |
| Reader.ReadIntArray | nbt.js:197-205 | an int array holds `max(count, 0)` ints after its count, and never any for a count <= 0 |
| Reader.ReadLongArray | nbt.d.ts:285-293 | a long array holds `max(count, 0)` `[upper, lower]` pairs after its count |
| Reader.ReadString | nbt.js:207-212 | `string()` with an unsigned length succeeds exactly when the length and the bytes fit the buffer, and returns exactly that many bytes |
| Reader.ReadStringAsWritten | nbt.js:207-212 | `string()` as written moves the cursor by the signed length, backwards when the length is below -2 |
| Reader.StringReadersAgree | nbt.js:207-212 | the two string readers agree on every non-negative length that fits the buffer |
| Reader.NegativeNameLengthLoops | nbt.js:225-237 | on `[10, 0,0, 1, 0xFF,0xFC]` the compound loop reads an entry that ends where it started, at offset 3 |
| Reader.LoopingArchiveRejected | nbt.js:207-212 | with the unsigned length, the same name runs past the end and is rejected |
| Reader.ReadFlat | nbt.js:177-212 | each flat reader consumes at least one byte and yields a tag of its own kind |
| Reader.ReadPayload | nbt.js:233 | `this[type]()` consumes at least one byte |
| Reader.ReadItems | nbt.js:219-221 | the list loop stays within the buffer |
| Reader.ReadList | nbt.js:214-223 | `list()` consumes at least one byte |
| Reader.ReadCompound | nbt.js:225-237 | `compound()` consumes at least one byte |
| Reader.ReadNamed | nbt.js:232-234 | an entry's name and value consume at least one byte |
| Reader.PayloadKind | nbt.js:233 | `end` and unregistered kinds have no handler; a handler returns a tag of its own kind |
| Reader.ItemsShape | nbt.js:219-221 | the loop returns exactly `n` values of the element kind, and fails at once when there is a value to read and no handler (an `end` list with a positive count) |
| Reader.ListShape | nbt.js:214-223 | `list()` yields its element code and `max(count, 0)` values of that kind, even when empty; an unnamed code fails |
| Reader.NamedKind | nbt.js:232-234 | an entry's value is read by the handler its code names, and an unregistered code fails |
| Reader.CompoundShape | nbt.js:225-237 | `compound()` stops at the first 0 read at an entry position, fails on an empty remainder, and returns only entries whose kinds have handlers |
| RoundTrip.SignedRoundTrip | nbt.js:177-179 | reading back a value's two's complement bytes gives the value and advances by the width |
| RoundTrip.UnsignedRoundTrip | nbt.js:180-181 | reading back a raw pattern gives the pattern |
| RoundTrip.Int8sReadLow | nbt.js:190-193 | the bytes `new Buffer(array)` stores read back, one signed byte at a time, as the signed bytes with the same low eight bits |
| RoundTrip.Int32sRoundTrip | nbt.js:200-203 | the ints of an int array read back in order |
| RoundTrip.LongRoundTrip | nbt.js:183-185 | a long reads back as `[upper, lower]` |
| RoundTrip.LongsRoundTrip | nbt.d.ts:285-293 | the longs of a long array read back in order |
| RoundTrip.StringRoundTrip | nbt.js:207-212 | a string written with the signed short length reads back with the unsigned length reader, for every length the writer accepts |
| RoundTrip.ByteArrayReadsLowBytes | nbt.js:187-195 | the image of any byte array reads back as the signed low bytes of its elements, ending right after them |
| RoundTrip.ByteArrayRoundTrip | nbt.js:187-195 | a byte array of signed bytes reads back unchanged |
| RoundTrip.IntArrayRoundTrip | nbt.js:197-205 | an int array reads back |
| RoundTrip.LongArrayRoundTrip | nbt.d.ts:285-293 | a long array reads back |
| RoundTrip.ByteTagRoundTrip | nbt.js:177 | a byte tag reads back |
| RoundTrip.ShortTagRoundTrip | nbt.js:178 | a short tag reads back |
| RoundTrip.IntTagRoundTrip | nbt.js:179 | an int tag reads back |
| RoundTrip.LongTagRoundTrip | nbt.js:183-185 | a long tag reads back |
| RoundTrip.FloatTagRoundTrip | nbt.js:180 | a float tag's bits read back |
| RoundTrip.DoubleTagRoundTrip | nbt.js:181 | a double tag's bits read back |
| RoundTrip.ByteArrayTagRoundTrip | nbt.js:187-195 | a byte array tag reads back |
| RoundTrip.StringTagRoundTrip | nbt.js:207-212 | a string tag reads back |
| RoundTrip.IntArrayTagRoundTrip | nbt.js:197-205 | an int array tag reads back |
| RoundTrip.LongArrayTagRoundTrip | nbt.d.ts:285-293 | a long array tag reads back under the declarations |
| RoundTrip.PayloadRoundTrip | nbt.js:233 | reading any well-formed tag's payload where it sits gives the tag back and stops right after it |
| RoundTrip.ListTagRoundTrip | nbt.js:214-223 | a list reads back with its element kind and items |
| RoundTrip.ItemsRoundTrip | nbt.js:219-221 | the list loop reads back every item in order |
| RoundTrip.CompoundTagRoundTrip | nbt.js:225-237 | a compound tag reads back |
| RoundTrip.EntryRoundTrip | nbt.js:228-234 | an entry's code, name and value read back |
| RoundTrip.EndRoundTrip | nbt.js:228-230 | a lone 0 reads as an empty compound |
| RoundTrip.ConsRoundTrip | nbt.js:227-235 | the first entry, then the rest of the compound, read back as the whole compound |
| RoundTrip.CompoundRoundTrip | nbt.js:225-237 | the entries of a well-formed compound read back in order, stopping after its `end` code |
| Unicode.Utf16Decode | nbt.js:130 | the decoding yields only scalar values, no more of them than there are units |
| Unicode.Utf16RoundTrip | nbt.js:130 | UTF-16 decoding undoes UTF-16 encoding for all scalar values |
| Unicode.EncodeScalar | nbt.js:130 | a scalar value encodes to 1 to 4 UTF-8 bytes, by its range |
| Unicode.Utf8SizeSingle | nbt.js:76-79 | a unit that is not part of a pair adds its own UTF-8 width to the byte count |
| Unicode.Utf8SizePair | nbt.js:80-83 | a surrogate pair adds four bytes |
| StringSize.ExtraAsWritten | nbt.js:74-85 | the loop adds at most two bytes per unit |
| StringSize.AsWrittenTurn | nbt.js:75-84 | one turn of the loop adds the unit's surplus and moves to the next index, skipping one more after a trail surrogate |
| StringSize.AsWrittenSingle | nbt.js:80-83 | when trail surrogates follow only leads or ASCII, the loop charges a unit outside a pair exactly its surplus |
| StringSize.AsWrittenCountsFrom | nbt.js:74-85 | on such strings the loop's count of each suffix is that suffix's UTF-8 length |
| StringSize.GetStringSizeAsWritten | nbt.js:69-87 | `getStringSize` returns between 1 and 3 bytes per unit. It returns the UTF-8 length of the string's UTF-16 decoding whenever every trail surrogate follows its lead or an ASCII unit, which includes all well-formed UTF-16 (`StringSize.EncodedStringCounted`) |
| StringSize.EncodedTrailsFollowLead | nbt.js:80-83 | in the UTF-16 encoding of any sequence of scalar values every trail surrogate comes right after its lead, so the loop's skip is harmless there |
| StringSize.EncodedStringCounted | nbt.js:69-87 | on the UTF-16 encoding of any sequence of scalar values `getStringSize` as written returns exactly the length of their UTF-8 encoding |
| StringSize.GetStringSize | nbt.js:69-87 | with the trail-surrogate skip corrected, the count is the UTF-8 length for every string |
| StringSize.LoneTrailMiscounted | nbt.js:80-83 | on "é" and a lone trail surrogate the loop counts 4 bytes where Node writes 5 |
| StringSize.WriteString | nbt.js:126-134 | with the corrected count, `string(value)` writes the UTF-8 byte count of the value as a short, then its UTF-8 bytes |
| StringSize.FitWhole | nbt.js:130 | `buffer.write` stores a prefix of the UTF-8 encoding that fits the room: all of it when it fits, and otherwise less than one character (four bytes) short of the room |
| StringSize.WriteStringAsWritten | nbt.js:126-134 | `string(value)` as written moves the cursor two bytes plus the count `getStringSize` returns, and leaves it within the buffer |
| StringSize.WriteStringAgrees | nbt.js:126-134 | wherever every trail surrogate follows its lead or an ASCII unit, the count as written is the UTF-8 length and the writer as written stores the whole encoding, as the corrected writer does |
| StringSize.LoneTrailWritten | nbt.js:126-134 | on "é" and a lone trail surrogate nbt.js writes `00 04 C3 A9 00 00`: the count 4, "é", and two bytes `buffer.write` leaves alone because U+FFFD does not fit; they are zero because Node from version 8 on zero-fills `new Buffer(size)` |
| Archive.HasGzipHeader | nbt.js:43-45 | true exactly when the data starts with the gzip magic bytes 0x1F 0x8B |
| Archive.EncodedArchiveIsNotGzip | nbt.js:275 | an uncompressed archive starts with 10 and is never taken for a gzip stream |
| Archive.WriteUncompressed | nbt.js:247-255 | `writeUncompressed` from a fresh writer yields `[10] + string(name) + compound(entries)`, the entries as nbt.js puts them on the wire, exactly when nbt.js has a writer for every value in the tree, and fails otherwise |
| Archive.WriteThenParse | nbt.js:247-270 | `writeUncompressed` succeeds on every root that survives the round trip, and `parseUncompressed` returns that root from its output |
| Archive.ParseUncompressed | nbt.js:257-270 | empty data is a range error, and a top code other than 10 fails with that code; a result always comes from data starting with 10 |
| Archive.RootRoundTrip | test/nbt-spec.js:88-98 | `parseUncompressed(writeUncompressed(r)) == r` for every well-formed root, whatever bytes follow |
| Archive.ParseRoundTrip | nbt.js:272-286 | `parse` returns the root from its plain encoding or from any gzip stream that inflates to it |
| Polyfill.Step | test/polyfills.js:10-36 | each loop index pushes at most one code point |
| Polyfill.StepAgrees | test/polyfills.js:10-36 | on every octet string and index, the masks and shifts as written push what the range-based body pushes |
| Polyfill.Cont | test/polyfills.js:14 | `(b & 0xC0) === 0x80` tests for a continuation byte, and `b & 0x3F` is its six payload bits |
| Polyfill.Octets | test/polyfills.js:73 | a `Uint8Array` has one value per octet |
| Polyfill.CodePointsFrom | test/polyfills.js:9-37 | the loop pushes no more code points than there are bytes left |
| Polyfill.FromCharCodes | test/polyfills.js:38 | `String.fromCharCode` makes one unit per code point |
| Polyfill.DecodeUtf8 | test/polyfills.js:7-39 | the string has at most as many units as there are bytes |
| Polyfill.StepShift | test/polyfills.js:9-37 | what the loop pushes at an index depends only on the bytes from there on |
| Polyfill.ShiftFrom | test/polyfills.js:9-37 | the same holds for the rest of the loop |
| Polyfill.ContinuationPushesNothing | test/polyfills.js:10-36 | a stray continuation byte matches no pattern and pushes nothing |
| Polyfill.SkipContinuations | test/polyfills.js:9-37 | the loop steps over a run of continuation bytes without output |
| Polyfill.Fields2 | test/polyfills.js:15-17 | the 5 + 6 bit fields of a two-byte sequence recombine to the code point |
| Polyfill.Fields3 | test/polyfills.js:22-25 | the 4 + 6 + 6 bit fields of a three-byte sequence recombine to the code point |
| Polyfill.Fields4 | test/polyfills.js:31-35 | the 3 + 6 + 6 + 6 bit fields of a four-byte sequence recombine to the code point |
| Polyfill.StepDecodesScalar | test/polyfills.js:10-36 | the lead byte of any scalar value's UTF-8 encoding pushes that scalar value |
| Polyfill.DecodeEncodedScalar | test/polyfills.js:9-37 | one encoded scalar value followed by anything decodes to that value, then the rest |
| Polyfill.CodePointsRoundTrip | test/polyfills.js:9-37 | on well-formed UTF-8 the pushed code points are exactly the encoded scalar values |
| Polyfill.FromCharCodesBmp | test/polyfills.js:38 | code points below U+10000 are their own units |
| Polyfill.DecodeUtf8Bmp | test/polyfills.js:7-39 | `decodeUTF8` returns text of the Basic Multilingual Plane intact |
| Polyfill.AstralCharacterTruncated | test/polyfills.js:38 | F0 9F 98 80 decodes to the code point U+1F600, but comes out as the single unit 0xF600 instead of the pair D83D DE00 |
| Polyfill.AllUnitsIsUtf16 | test/polyfills.js:38 | writing each code point as one unit or a surrogate pair is UTF-16 encoding |
| Polyfill.DecodeUtf8CorrectedRoundTrip | test/polyfills.js:7-39 | with that correction, the UTF-8 of any text decodes to its UTF-16 and back to the same scalar values |
| Examples.SmallListEncoding | test/writer-spec.js:105-112 | the byte list `[1, 2, 3]` is `1, 0,0,0,3, 1, 2, 3` |
| Examples.FirstEntryEncoding | test/writer-spec.js:119 | the entry `aa: byte 1` is `1, 0,2, 0x61,0x61, 1` |
| Examples.SecondEntryEncoding | test/writer-spec.js:120 | the entry `bb: list of bytes [1, 2, 3]` is its thirteen bytes |
| Examples.SmallCompoundEncoding | test/writer-spec.js:116-132 | the compound `{aa, bb}` is the twenty bytes of the test |
| Examples.SmallCompoundDecoding | test/reader-spec.js:123-138 | those twenty bytes read back as `{aa, bb}` under the nbt.js registry |
| Examples.LongArrayInt | test/reader-spec.js:94 | each int32 of the long array example reads as its low byte |
| Examples.LongArrayExample | test/reader-spec.js:92-99 | `0,0,0,1, 0,0,0,15, 0,0,0,1` reads as `[[15, 1]]` |
| Examples.KonnichiwaCodePoints | test/writer-spec.js:102 | "こんにちは!" has no surrogates |
| Examples.KonnichiwaBytes | test/writer-spec.js:94-103 | "こんにちは!" is the sixteen bytes of the test, and its byte count is 16 |
| Examples.KonnichiwaCounted | test/writer-spec.js:98 | `getStringSize` as written counts 16 for it |
| Examples.OffsetExample | test/writer-spec.js:134-140 | a byte and a long move the writer's cursor to 9 |
| Examples.SeekWithinExample | test/writer-spec.js:142-148 | writing after moving the cursor back overwrites: `12 56 78` |
| Examples.SeekBeyondExample | test/writer-spec.js:150-156 | writing after moving the cursor past the end leaves a zero: `12 34 00 56 78` |
| Examples.ReaderOffsetExample | test/reader-spec.js:140-148 | a byte and a long move the reader's cursor to 9 |
| Examples.RereadExample | test/reader-spec.js:150-155 | moving the reader's cursor back reads the same byte again |
| Examples.LongArrayCodeExample | test/reader-spec.js:92-99 | code 12 is `longArray` under the declarations and unregistered in nbt.js |
| Examples.EmptyLongArrayListExample | nbt.js:136-144 | under the nbt.js registry an empty `longArray` list is written, as `00 00 00 00 00`, and reads back as an empty `end` list |
| Examples.WideByteArrayExample | nbt.js:108-115 | the byte array `[200]` is written as `0,0,0,1, 200` and reads back as `[-56]` |
| Examples.LoneTrailReadBack | nbt.js:207-212 | the string nbt.js writes for "é" and a lone trail surrogate reads back as "é" and two NUL characters, not as "é" and U+FFFD; the NULs are the zero-filled allocation of Node 8 and later |

## Left out

- The `zlib.gunzip` call and the asynchronous `parse` callback (nbt.js:17, 272-286): zlib is a foreign library. `Archive.Parse` takes the inflater as a function parameter and returns what the callback would receive.
- Node's UTF-8 codec (`buffer.write` at nbt.js:130, `buffer.toString('utf8', …)` at nbt.js:209) is foreign. The tree holds strings as UTF-8 bytes. The text-level writers stand for `buffer.write` with `Utf8Encode(Utf16Decode(units))`, reading an unpaired surrogate as U+FFFD; `StringSize.FitWhole` keeps only the whole characters that fit the buffer.
- Floats and doubles are raw 4- and 8-byte bit patterns; no IEEE-754 arithmetic is modelled.
- Bytes, shorts, ints and longs out of range for their width, and strings longer than 32767 bytes, are excluded by `requires`: Node's `writeInt*BE` range checks throw on them. Byte arrays have no such check and are not restricted.
- Compounds are sequences of entries with unique names. Two JavaScript object behaviours are not modelled:
  - the key order of `Object.keys` (nbt.js:148);
  - a duplicate name overwriting an earlier entry on read (nbt.js:234).
- `getData`, `ubyte`, `writeCompressed`, `shrinkCompound`/`growCompound`, and overriding `nbt.gzip`/`gunzip` are declared in nbt.d.ts but absent from nbt.js.
- The `fs.readFile` and `window.require` shims of test/polyfills.js.
- The sample archives and the bigtest fixture are not part of this model.
- The writer methods returning `this` for chaining (nbt.d.ts:145-219): here each writer is a function from one writer value to the next, so a chain is composition.
- Writer.Accommodate: nbt.js zeroes only the gap before the cursor and takes the rest of the new bytes from `new Buffer(size)`. The model assumes Node 8 or later, which zero-fills that allocation; older Node versions leave it uninitialised. Every writer overwrites those bytes at once except `string` after `getStringSize` miscounts, where `buffer.write` stores only the whole characters that fit, fewer bytes than were made room for, and the rest keep the allocation's contents (the zeros in `StringSize.LoneTrailWritten`).
- Writer.Put: the per-kind writers store their bytes through `Put`, one byte at a time. `Writer.PutIsWrite` proves this equal to the `write` of nbt.js:89-94.
- Reader.ReadString: `toString` clamps a string that runs past the end of the buffer. The model fails at once with `OutOfRange`. Every string is followed by a further read, which fails in nbt.js too, so a whole archive is rejected either way.
- Reader.ReadList: a list with count <= 0 and an element code that has no name yields `{type: undefined, value: []}` in nbt.js. The model returns `UnknownListType(code)` instead, because the tree has no kind for it.
- Archive.ParseUncompressed: the decoder reads every string length prefix, of names and of string values, unsigned (`Reader.ReadString`), where nbt.js:207-212 reads it with the signed `short`. The two readers agree on every prefix up to 0x7FFF (`Reader.StringReadersAgree`), which covers everything the writer produces. Beyond it nbt.js can move the cursor backwards and loop forever (`Reader.NegativeNameLengthLoops`, first row of "## Findings").
- StringSize.WriteString: it writes with the corrected count. Where nbt.js miscounts (a trail surrogate after a non-ASCII unit that is not its lead), nbt.js writes what `StringSize.WriteStringAsWritten` gives instead.
- Reader.ReadPayload: under the nbt.js registry, code 12 has no reader and fails with `NoHandler(12)`. Under the declarations it reads a long array.
- Polyfill.Step: `|` and `<<` on the fields are written as sums and products. The fields do not overlap, so the two are equal. `Polyfill.StepAsWritten` keeps the masks on octets, and `Polyfill.StepAgrees` proves the two bodies equal.

## Findings

| source | as written | input that shows it | evidently intended | confidence | as-written member | corrected member |
|---|---|---|---|---|---|---|
| nbt.js:207-212 | the string length is read with the signed `short()` and added to the cursor, so a length above 0x7FFF moves the cursor backwards | `[10, 0,0, 1, 0xFF,0xFC]`: the entry at offset 3 ends at offset 3, and `parseUncompressed` never returns | read the length as the format's unsigned 16-bit count, so the name runs past the end and the archive is rejected | not executed | Reader.NegativeNameLengthLoops | Reader.LoopingArchiveRejected |
| nbt.js:80-83 | after any trail surrogate the loop also skips the unit before it, whatever that unit is | "é" followed by a lone 0xDC00: the loop counts 4 bytes, while the UTF-8 encoding, with U+FFFD for the lone surrogate, takes 2 + 3 = 5 | skip the unit before a trail surrogate only when it is the lead surrogate of a pair | not executed | StringSize.LoneTrailMiscounted | StringSize.GetStringSize |
| test/polyfills.js:38 | `String.fromCharCode` keeps the low 16 bits of each code point, so a character above U+FFFF becomes one wrong unit | F0 9F 98 80 (U+1F600) decodes to the unit 0xF600 instead of D83D DE00 | write code points above U+FFFF as surrogate pairs (`String.fromCodePoint`) | not executed | Polyfill.AstralCharacterTruncated | Polyfill.DecodeUtf8CorrectedRoundTrip |
