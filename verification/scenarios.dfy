/**
 * Small concrete streams and what the decoders make of them: empty catalogs,
 * an unknown tag, a repeated key, a nested node and a truncated record.
 */
module Scenarios {
  import opened Wire
  import opened Strings
  import opened KeyValues
  import opened Catalogs
  import opened Encoding
  import opened CatalogEncoding

  /** A 32-bit word below 0x100 is its low byte and three zero bytes. */
  lemma SmallWord(x: nat)
    requires x < 0x100
    ensures LittleEndianBytes(x, 4) == [x, 0, 0, 0]
  {
    Pow256Widths();
    assert LittleEndianBytes(0, 3) == [0, 0, 0];
  }

  /** A one-letter narrow key: the letter, then the zero byte. */
  lemma OneLetterKey(s: seq<byte>, pos: nat, k: byte)
    requires pos + 2 <= |s| && s[pos] == k && k != 0 && s[pos + 1] == 0
    ensures Yields(DecodeString(s, pos, false), [k], pos + 2)
  {
    assert Yields(DecodeString(s, pos + 1, false), [], pos + 2);
    StringStep(s, pos, false, k, [], pos + 2);
    assert [k] + [] == [k];
  }

  /**
   * An Int32 entry with a one-letter key and a small non-negative value,
   * followed by the rest of the node.
   */
  lemma SmallInt32Entry(s: seq<byte>, pos: nat, k: byte, x: nat, tail: seq<Entry>, next: nat)
    requires x < 0x100 && pos + 7 <= |s|
    requires s[pos..pos + 7] == [BinInt32, k, 0, x, 0, 0, 0] && k != 0
    requires Yields(DecodeEntries(s, pos + 7, false), tail, next)
    ensures Yields(DecodeEntries(s, pos, false), [([k], Int32Type(x))] + tail, next)
  {
    assert s[pos] == s[pos..pos + 7][0] && s[pos + 1] == s[pos..pos + 7][1];
    assert s[pos + 2] == s[pos..pos + 7][2];
    OneLetterKey(s, pos + 1, k);
    assert U32At(s, pos + 3) == x by {
      assert s[pos + 3..pos + 7] == [x, 0, 0, 0];
      SmallWord(x);
    }
    EntriesStep(s, pos, false, [k], pos + 3, Int32Type(x), pos + 7, tail, next);
  }

  /** Header version 1, universe 2, then the application sentinel 0. */
  lemma EmptyAppCatalog()
    ensures DecodeAppInfo([1, 0, 0, 0, 2, 0, 0, 0, 0, 0, 0, 0], 0) ==
              Ok(Parsed(AppInfo(1, 2, map[]), 12))
  {
    SmallWord(0);
    SmallWord(1);
    SmallWord(2);
    AppInfoRoundTrip(1, 2, [], []);
    assert EncodeAppInfo(1, 2, []) + [] == [1, 0, 0, 0, 2, 0, 0, 0, 0, 0, 0, 0];
  }

  /** The same header, then the package sentinel 0xFFFFFFFF. */
  lemma EmptyPackageCatalog()
    ensures DecodePackageInfo([1, 0, 0, 0, 2, 0, 0, 0, 0xFF, 0xFF, 0xFF, 0xFF], 0) ==
              Ok(Parsed(PackageInfo(1, 2, []), 12))
  {
    SmallWord(1);
    SmallWord(2);
    assert LittleEndianBytes(0xFFFF_FFFF, 4) == [0xFF, 0xFF, 0xFF, 0xFF] by {
      Pow256Widths();
    }
    PackageInfoRoundTrip(1, 2, [], []);
    assert EncodePackageInfo(1, 2, []) + [] == [1, 0, 0, 0, 2, 0, 0, 0, 0xFF, 0xFF, 0xFF, 0xFF];
  }

  /** Tag 0x09 with key "a": the node fails on the tag. */
  lemma UnknownTagExample()
    ensures DecodeNode([0x09, 0x61, 0x00], 0, false) == Err(InvalidType(0x09))
  {
  }

  /** Key "k" as Int32 1, then again as Int32 2: the node keeps 2. */
  lemma DuplicateKeyExample(s: seq<byte>)
    requires s == [0x02, 0x6B, 0x00, 1, 0, 0, 0, 0x02, 0x6B, 0x00, 2, 0, 0, 0, 0x08]
    ensures DecodeNode(s, 0, false) == Ok(Parsed(map[[0x6B] := Int32Type(2)], 15))
  {
    assert Yields(DecodeEntries(s, 14, false), [], 15);
    assert s[7..14] == [BinInt32, 0x6B, 0, 2, 0, 0, 0];
    assert s[0..7] == [BinInt32, 0x6B, 0, 1, 0, 0, 0];
    SmallInt32Entry(s, 7, 0x6B, 2, [], 15);
    assert [([0x6B], Int32Type(2))] + [] == [([0x6B], Int32Type(2))];
    SmallInt32Entry(s, 0, 0x6B, 1, [([0x6B], Int32Type(2))], 15);
    var k: seq<u16> := [0x6B];
    var first: seq<Entry> := [(k, Int32Type(1))];
    assert DecodeNode(s, 0, false) == Ok(Parsed(ToMap(first + [(k, Int32Type(2))]), 15));
    ToMapSnoc(first, k, Int32Type(2));
    assert ToMap(first) == map[k := Int32Type(1)];
    assert map[k := Int32Type(1)][k := Int32Type(2)] == map[k := Int32Type(2)];
  }

  /**
   * Key "o" holds a nested node with Int32 7 under "i"; the outer terminator
   * after the inner one closes the outer node.
   */
  lemma NestedExample(s: seq<byte>)
    requires s == [0x00, 0x6F, 0x00, 0x02, 0x69, 0x00, 7, 0, 0, 0, 0x08, 0x08]
    ensures DecodeNode(s, 0, false) ==
              Ok(Parsed(map[[0x6F] := KeyValueType(map[[0x69] := Int32Type(7)])], 12))
  {
    assert Yields(DecodeEntries(s, 10, false), [], 11);
    assert s[3..10] == [BinInt32, 0x69, 0, 7, 0, 0, 0];
    SmallInt32Entry(s, 3, 0x69, 7, [], 11);
    var inner := map[[0x69] := Int32Type(7)];
    assert ToMap([([0x69], Int32Type(7))]) == inner;
    assert Yields(DecodeValue(s, 3, BinNone, false), KeyValueType(inner), 11);
    OneLetterKey(s, 1, 0x6F);
    assert Yields(DecodeEntries(s, 11, false), [], 12);
    EntriesStep(s, 0, false, [0x6F], 3, KeyValueType(inner), 11, [], 12);
    assert ToMap([([0x6F], KeyValueType(inner))]) == map[[0x6F] := KeyValueType(inner)];
  }

  /** An application record cut short inside its fixed fields. */
  lemma TruncatedRecord()
    ensures DecodeAppInfo([1, 0, 0, 0, 2, 0, 0, 0, 5, 0, 0, 0, 10, 0], 0) == Err(UnexpectedEof)
  {
  }
}
