# vdfr binary key/value decoder, modelled in Dafny

This project models the decoder in `src/lib.rs` of vdfr, a reader for Steam's
binary catalog files `appinfo.vdf` and `packageinfo.vdf`. It has four parts:

- `read_string` reads a zero-terminated string of narrow (one-byte) or wide
  (two-byte, little-endian) code units.
- `binary_loads` reads one tagged key/value node. Each entry is a type tag,
  a narrow key and a payload. The node ends at the terminator tag, which is
  0x08, or 0x0B in the alternative format. Tag 0x00 opens a nested node.
- `AppInfo::load` reads the header `version, universe`, then application
  records up to the id 0. Each record is a 44-byte prefix and one node, and
  the records are keyed by id.
- `packageinfo_loads` reads the same header, then package records up to the
  id 0xFFFFFFFF. Each record is a 20-byte checksum, a change number, an
  uninterpreted u64 and one node.

The decoder is modelled at two levels:

- **Specification.** Pure functions over a byte sequence and a cursor:
  `DecodeString`, `DecodeNode`/`DecodeEntries`/`DecodeValue`,
  `DecodeAppInfo` and `DecodePackageInfo`. Each returns the decoded value and
  the cursor after it, or an error. An `unwrap()` at end of stream becomes
  `Err(UnexpectedEof)`, and the `panic!` on an unknown tag becomes
  `Err(InvalidType(tag))`.
- **Implementation.** The code as written: a `Reader` class with a byte
  array and a cursor field, `read_*` methods that advance the cursor, and the
  loops of `read_string`, `binary_loads`, `AppInfo::load` and
  `packageinfo_loads` as methods. Each method is proved to return what its
  specification function returns, and to leave the cursor where that
  function stops.

A node is specified as the list of its entries in stream order. The map is
built from that list by successive inserts, so a later entry overwrites an
earlier one with the same key. On top of this:

- a reference writer (`Encoding`, `CatalogEncoding`) is proved to be
  inverted by the decoder, for nodes, nested nodes and both catalogs;
- `Truncation` proves that a stream cut anywhere before a value ends fails
  with end of stream, and that a cut after it changes nothing;
- `Scenarios` works through small concrete streams.

Modules, one per file:

- `Wire` (wire.dfy): integer widths, little-endian and two's-complement,
  and the result type.
- `Strings` (strings.dfy): `read_string`.
- `KeyValues` (keyvalues.dfy): the tag constants, `Value` and `binary_loads`.
- `Readers` (reader.dfy): the reader class and the loops.
- `Catalogs` (catalogs.dfy): both catalog readers.
- `Encoding` (encoding.dfy): the writer for nodes and its round-trip proofs.
- `CatalogEncoding` (catalog_encoding.dfy): the writer for catalogs and its
  round-trip proofs.
- `Scenarios` (scenarios.dfy): the concrete streams.
- `Truncation` (truncation.dfy): what every decoder does on a stream cut
  short.

Where the model departs from the code:

- `packageinfo_loads` stores nothing and returns nothing; it prints each
  record. The model returns the records as a sequence in stream order. It
  does not key them by id, because the code never inserts a package
  anywhere.
- The code panics on a short read (`unwrap()`) and on an unknown tag
  (`panic!`). The model returns these two failures as error results, and a
  failure anywhere fails the whole call.

## Model

| member | source | states |
|---|---|---|
| Wire.LittleEndian | src/lib.rs:50 | the number a little-endian byte string reads as is below 256 to the power of its length, so n bytes always fit an n-byte integer |
| Wire.LittleEndianBytes | src/lib.rs:50 | the n-byte little-endian encoding of x has length n and reads back as x |
| Wire.LittleEndianInjective | src/lib.rs:50 | a byte string is the little-endian encoding of the number it reads as, so distinct strings of one width read as distinct numbers |
| Wire.Signed32 | src/lib.rs:147 | `read_i32`'s two's complement: negative exactly when the top bit is set, and the unsigned pattern is recovered |
| Wire.Signed64 | src/lib.rs:159 | `read_i64`'s two's complement: negative exactly when the top bit is set, and the unsigned pattern is recovered |
| Wire.SignedUnsignedInverse | src/lib.rs:147 | the signed and unsigned readings of 32- and 64-bit patterns are inverse |
| Wire.DecodeU8 | src/lib.rs:130 | `read_u8().unwrap()`: succeeds exactly when a byte remains, returns that byte and advances by 1; otherwise end of stream |
| Wire.DecodeU16 | src/lib.rs:177 | `read_u16::<LittleEndian>().unwrap()`: succeeds exactly when 2 bytes remain and advances by 2; otherwise end of stream |
| Wire.DecodeU32 | src/lib.rs:50 | `read_u32::<LittleEndian>().unwrap()`: succeeds exactly when 4 bytes remain and advances by 4; otherwise end of stream |
| Wire.DecodeU64 | src/lib.rs:68 | `read_u64::<LittleEndian>().unwrap()`: succeeds exactly when 8 bytes remain and advances by 8; otherwise end of stream |
| Wire.DecodeI32 | src/lib.rs:147 | `read_i32::<LittleEndian>().unwrap()`: succeeds exactly when 4 bytes remain and advances by 4; otherwise end of stream |
| Wire.DecodeI64 | src/lib.rs:159 | `read_i64::<LittleEndian>().unwrap()`: succeeds exactly when 8 bytes remain and advances by 8; otherwise end of stream |
| Wire.FixedReads | src/lib.rs:147-160 | the bytes under each 2-, 4- and 8-byte read are the little-endian encoding of the value returned, or of its two's-complement pattern for the signed reads |
| Wire.DecodeBytes | src/lib.rs:71 | `read_exact` into an n-byte buffer: succeeds exactly when n bytes remain, returns them in order and advances by n; otherwise end of stream |
| Strings.DecodeUnit | src/lib.rs:177-187 | one code unit succeeds exactly when 1 (narrow) or 2 (wide) bytes remain, and is the byte or the little-endian u16 there |
| Strings.DecodeString | src/lib.rs:172-194 | a read ends strictly after its start and inside the stream; its only failure is end of stream |
| Strings.StringStep | src/lib.rs:186-191 | a non-zero unit is pushed, and the string goes on after it |
| Strings.DecodeStringSound | src/lib.rs:172-194 | a successful read returns non-zero units that are exactly the units in the stream, followed there by a zero unit, and the cursor ends just after that zero unit |
| Strings.DecodeStringComplete | src/lib.rs:172-194 | conversely, units followed by a zero unit are read back exactly, with the zero unit consumed |
| Strings.DecodeStringFails | src/lib.rs:172-194 | the read fails exactly when no complete unit from the start on is zero |
| Strings.NarrowUnitsAreBytes | src/lib.rs:185-193 | a narrow string holds only byte values |
| KeyValues.Terminator | src/lib.rs:125 | `current_bin_end` is 0x0B exactly in the alternative format and 0x08 exactly in the standard one, and is never a value tag |
| KeyValues.ToMap | src/lib.rs:127-163 | the node built by successive inserts holds exactly the keys of the entries |
| KeyValues.DecodeNode | src/lib.rs:124-170 | a node ends strictly after its start, within the stream; it fails only at end of stream or on a tag that is neither a value tag nor this format's terminator |
| KeyValues.DecodeEntries | src/lib.rs:129-169 | the same bounds and failures, for the entries in stream order |
| KeyValues.DecodeValue | src/lib.rs:137-168 | a payload ends after its start, and the result is `InvalidType(tag)` exactly when the tag is not one of the nine value tags |
| KeyValues.EntriesStep | src/lib.rs:129-163 | a non-terminator tag, its narrow key and its payload give one entry, and the node goes on after it |
| KeyValues.LastWins | src/lib.rs:139-163 | the last entry with a key decides that key's value in the node |
| KeyValues.AbsentKey | src/lib.rs:127-163 | a key no entry carries is absent from the node |
| KeyValues.ToMapSnoc | src/lib.rs:139 | inserting one more entry overwrites that key and leaves the others |
| KeyValues.TerminatorTags | src/lib.rs:125-133 | this format's terminator returns the empty node and consumes one byte; the other format's terminator is an unknown tag |
| KeyValues.UnknownTag | src/lib.rs:164-167 | any other unknown tag fails the node with that tag, after its key has been read |
| KeyValues.FixedPayloads | src/lib.rs:146-163 | tags 0x02, 0x03, 0x04 and 0x06 take exactly 4 bytes, and 0x07 and 0x0A exactly 8; such a read fails only when fewer bytes remain |
| KeyValues.Int32Variants | src/lib.rs:146-154 | tags 0x02, 0x04 and 0x06 read the same signed integer from the same four bytes, yet give three different values |
| KeyValues.Int64Variants | src/lib.rs:155-160 | tags 0x07 and 0x0A read the same eight bytes as unsigned and as two's-complement signed |
| KeyValues.StringPayloads | src/lib.rs:140-145 | tag 0x01 reads a narrow string and tag 0x05 a wide one |
| KeyValues.NestedPayload | src/lib.rs:137-139 | tag 0x00 reads a whole nested node in the same format, its terminator included |
| KeyValues.NodeEntries | src/lib.rs:127-163 | a decoded node holds exactly the keys of its entries, each with the value of its last entry |
| Readers.Reader.ReadU8 | src/lib.rs:130 | returns the byte at the cursor and advances by 1, or fails at end of stream |
| Readers.Reader.ReadU16 | src/lib.rs:177 | returns the little-endian u16 at the cursor and advances by 2, or fails |
| Readers.Reader.ReadU32 | src/lib.rs:50 | returns the little-endian u32 at the cursor and advances by 4, or fails |
| Readers.Reader.ReadU64 | src/lib.rs:68 | returns the little-endian u64 at the cursor and advances by 8, or fails |
| Readers.Reader.ReadI32 | src/lib.rs:147 | returns the signed 32-bit value at the cursor and advances by 4, or fails |
| Readers.Reader.ReadI64 | src/lib.rs:159 | returns the signed 64-bit value at the cursor and advances by 8, or fails |
| Readers.Reader.ReadExact | src/lib.rs:71 | returns the next n bytes verbatim and advances by n, or fails |
| Readers.ReadString | src/lib.rs:172-194 | the push loop returns what `DecodeString` returns and leaves the cursor where it stops |
| Readers.BinaryLoads | src/lib.rs:124-170 | the insert loop returns what `DecodeNode` returns, nested nodes included, and leaves the cursor where it stops |
| Readers.ReadValue | src/lib.rs:137-168 | the tag dispatch returns what `DecodeValue` returns and leaves the cursor where it stops |
| Catalogs.DecodeApp | src/lib.rs:65-85 | an application body ends after its 44-byte prefix and its node, and carries a 20-byte checksum |
| Catalogs.DecodeApps | src/lib.rs:59-87 | the records up to and including the sentinel end after their start; the only failures are those of a node |
| Catalogs.AppsStep | src/lib.rs:59-87 | a non-sentinel id and its record give one entry, and the loop goes on after it |
| Catalogs.DecodeAppInfo | src/lib.rs:49-90 | a catalog ends after its 8-byte header and its sentinel; the only failures are those of a node |
| Catalogs.AppIdsNotSentinel | src/lib.rs:59-63 | no record read carries id 0 |
| Catalogs.AppInfoRecords | src/lib.rs:59-87 | the loaded map holds exactly the ids read, never 0, each with its last record |
| Catalogs.DecodePackage | src/lib.rs:106-117 | a package body ends after its 32 fixed bytes and its node, and keeps its id and a 20-byte checksum |
| Catalogs.DecodePackages | src/lib.rs:98-121 | the records up to and including the 0xFFFFFFFF sentinel end after their start |
| Catalogs.PackagesStep | src/lib.rs:98-121 | a non-sentinel id and its record give one package, and the loop goes on after it |
| Catalogs.DecodePackageInfo | src/lib.rs:93-122 | a package catalog ends after its header and its sentinel |
| Catalogs.PackageIdsNotSentinel | src/lib.rs:99-104 | no package read carries id 0xFFFFFFFF |
| Catalogs.SentinelsDiffer | src/lib.rs:102 | id 0xFFFFFFFF starts an application record and id 0 starts a package record, so the sentinels are not interchangeable |
| Catalogs.ReadApp | src/lib.rs:65-85 | reads the fields in source order, then the node, as `DecodeApp` specifies |
| Catalogs.LoadAppInfo | src/lib.rs:49-90 | the record loop returns what `DecodeAppInfo` returns, its map built by successive inserts |
| Catalogs.ReadPackage | src/lib.rs:106-117 | reads checksum, change number and u64, then the node, as `DecodePackage` specifies |
| Catalogs.PackageInfoLoads | src/lib.rs:93-122 | the record loop returns what `DecodePackageInfo` returns |
| Encoding.UnitRoundTrip | src/lib.rs:177-187 | a written code unit reads back |
| Encoding.StringRoundTrip | src/lib.rs:172-194 | a written string without zero units reads back exactly, and the read stops just after its terminator |
| Encoding.ScalarRoundTrip | src/lib.rs:140-163 | a written scalar reads back under its own tag, and that tag is never a terminator |
| Encoding.FixedScalarRoundTrip | src/lib.rs:146-163 | the same for the fixed-width scalars |
| Encoding.PayloadRoundTrip | src/lib.rs:137-163 | a written payload, scalar or nested, reads back under its field's tag |
| Encoding.FieldRoundTrip | src/lib.rs:130-163 | a written field's tag is not a terminator, its key reads back as a narrow string and its payload as its value |
| Encoding.FieldStep | src/lib.rs:129-163 | a written field reads as one entry, and the node goes on after it |
| Encoding.FieldsRoundTrip | src/lib.rs:129-169 | written fields read back as their entries in order, and reading stops right after the terminator |
| Encoding.FieldsConsRoundTrip | src/lib.rs:129-169 | the inductive step of the above |
| Encoding.NodeAt | src/lib.rs:124-170 | a written node read in place is the map in which each key holds its last field's value; as tag 0x00's payload it is that nested node |
| Encoding.NodeRoundTrip | src/lib.rs:124-170 | decoding a written node, whatever follows it, gives that map and stops at the node's end |
| CatalogEncoding.U32RoundTrip | src/lib.rs:50 | a written u32 reads back |
| CatalogEncoding.U64RoundTrip | src/lib.rs:68 | a written u64 reads back |
| CatalogEncoding.AppPrefixLayout | src/lib.rs:65-73 | where each fixed field of an application record sits |
| CatalogEncoding.AppRecordRoundTrip | src/lib.rs:60-85 | a written application record reads back as its id and its application |
| CatalogEncoding.AppStep | src/lib.rs:59-87 | a written record reads as one entry, and the loop goes on after it |
| CatalogEncoding.AppsRoundTrip | src/lib.rs:59-87 | written records read back in order, up to and including the sentinel |
| CatalogEncoding.AppsConsRoundTrip | src/lib.rs:59-87 | the inductive step of the above |
| CatalogEncoding.AppInfoRoundTrip | src/lib.rs:49-90 | a written catalog loads as its header and the map from each id to its last record, and stops right after the sentinel |
| CatalogEncoding.PackageRecordRoundTrip | src/lib.rs:99-117 | a written package record reads back as its id and its package |
| CatalogEncoding.PackageStep | src/lib.rs:98-121 | a written package record reads as one package, and the loop goes on after it |
| CatalogEncoding.PackagesRoundTrip | src/lib.rs:98-121 | written package records read back in order, up to and including the sentinel |
| CatalogEncoding.PackagesConsRoundTrip | src/lib.rs:98-121 | the inductive step of the above |
| CatalogEncoding.PackageInfoRoundTrip | src/lib.rs:93-122 | a written package catalog reads back as its header and its records in order, and stops right after the sentinel |
| Scenarios.EmptyAppCatalog | src/lib.rs:59-63 | header 1, 2 then id 0 loads as an empty catalog with version 1 and universe 2 |
| Scenarios.EmptyPackageCatalog | src/lib.rs:98-104 | header 1, 2 then id 0xFFFFFFFF reads as an empty package catalog |
| Scenarios.UnknownTagExample | src/lib.rs:164-167 | tag 0x09 fails the node with `InvalidType(0x09)` |
| Scenarios.DuplicateKeyExample | src/lib.rs:139-149 | the same key twice, as Int32 1 then Int32 2, leaves only 2 |
| Scenarios.NestedExample | src/lib.rs:137-139 | a nested node consumes its own terminator, and the next terminator closes the outer node |
| Scenarios.TruncatedRecord | src/lib.rs:65 | one concrete stream: a header, an id and two bytes of `size` fail the catalog with end of stream |
| Truncation.FixedTruncation | src/lib.rs:130 | a fixed-width read on the first k bytes gives the same value when its width fits below k, and end of stream otherwise |
| Truncation.StringTruncation | src/lib.rs:172-194 | a string read on the first k bytes gives the same string when its terminator lies below k, and end of stream otherwise |
| Truncation.NodeTruncation | src/lib.rs:124-170 | a node read on the first k bytes gives the same node when its terminator lies below k, and end of stream otherwise |
| Truncation.EntriesTruncation | src/lib.rs:129-169 | the same for the entries of a node, wherever the cut falls: tag, key or payload |
| Truncation.ValueTruncation | src/lib.rs:137-163 | the same for one payload, nested nodes included |
| Truncation.AppTruncation | src/lib.rs:65-85 | the same for one application record's fixed fields and node |
| Truncation.AppsTruncation | src/lib.rs:59-87 | the same for the record loop up to its sentinel |
| Truncation.AppInfoTruncation | src/lib.rs:49-90 | `AppInfo::load` on the first k bytes gives the same catalog when the sentinel lies below k, and end of stream otherwise |
| Truncation.PackageTruncation | src/lib.rs:106-117 | the same for one package record's fixed fields and node |
| Truncation.PackagesTruncation | src/lib.rs:98-121 | the same for the package loop up to its sentinel |
| Truncation.PackageInfoTruncation | src/lib.rs:93-122 | `packageinfo_loads` on the first k bytes gives the same catalog when the sentinel lies below k, and end of stream otherwise |
| Truncation.WrittenNodeTruncated | src/lib.rs:124-170 | every proper prefix of a written node fails with end of stream |
| Truncation.WrittenAppInfoTruncated | src/lib.rs:49-90 | every proper prefix of a written application catalog fails with end of stream, wherever the cut falls |
| Truncation.WrittenPackageInfoTruncated | src/lib.rs:93-122 | every proper prefix of a written package catalog fails with end of stream |

## Left out

- Console output: the `println!` calls of `packageinfo_loads` (src/lib.rs:96-119) are not modelled. The model returns the records it reads instead.
- Lossy text conversion: `from_utf8_lossy` and `from_utf16_lossy` are library code. Strings and keys are kept as their raw code units. In the source, two keys whose bytes differ but convert to the same text (both invalid UTF-8, say) collide in the map; in the model they are distinct keys.
- Floats: tag 0x03 keeps the 32 bits of its payload; IEEE 754 is not interpreted.
- Map order: `HashMap` iteration order is not modelled; nodes and the application table are Dafny maps.
- Streams: `std::io::Read`, buffering and I/O errors other than end of stream are not modelled; the reader is a byte array read from the front. `byteorder`'s readers are replaced by little-endian functions over bytes.
- Error position: after a failure, where the cursor stands is not specified, since the source aborts there.
- Depth: recursion into nested nodes is bounded only by the length of the input, as in the source; no depth limit is modelled.
- cli/src/main.rs and src/main.rs are not part of this model. They hold argument parsing, file opening, key-path lookup and printing.
