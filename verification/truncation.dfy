/**
 * Cutting a stream short. Every read in the decoder unwraps, so a stream that
 * ends before a value is complete fails with end of stream, and a stream that
 * still holds the whole value decodes it exactly as before: each decoder looks
 * at no byte past the cursor it returns.
 *
 * Each lemma starts from a successful decode of `s` at `pos` that stops at
 * `next`, and compares it with decoding the first `k` bytes of `s`.
 */
module Truncation {
  import opened Wire
  import opened Strings
  import opened KeyValues
  import opened Catalogs
  import opened Encoding
  import opened CatalogEncoding

  /** A slice of the first `k` bytes is the same slice of the whole stream. */
  lemma CutSlice(s: seq<byte>, k: nat, i: nat, j: nat)
    requires i <= j <= k <= |s|
    ensures s[..k][i..j] == s[i..j]
  {
  }

  /** The fixed-width reads need exactly their width of bytes. */
  lemma FixedTruncation(s: seq<byte>, pos: nat, k: nat)
    requires pos <= k <= |s|
    ensures DecodeU8(s[..k], pos) == if pos + 1 <= k then DecodeU8(s, pos) else Err(UnexpectedEof)
    ensures DecodeU32(s[..k], pos) == if pos + 4 <= k then DecodeU32(s, pos) else Err(UnexpectedEof)
    ensures DecodeU64(s[..k], pos) == if pos + 8 <= k then DecodeU64(s, pos) else Err(UnexpectedEof)
    ensures DecodeI32(s[..k], pos) == if pos + 4 <= k then DecodeI32(s, pos) else Err(UnexpectedEof)
    ensures DecodeI64(s[..k], pos) == if pos + 8 <= k then DecodeI64(s, pos) else Err(UnexpectedEof)
  {
    if pos + 4 <= k {
      CutSlice(s, k, pos, pos + 4);
    }
    if pos + 8 <= k {
      CutSlice(s, k, pos, pos + 8);
    }
  }

  /** `read_string` on a cut stream: the same string, or end of stream. */
  lemma {:induction false} StringTruncation(s: seq<byte>, pos: nat, wide: bool, k: nat)
    requires pos <= k <= |s| && DecodeString(s, pos, wide).Ok?
    ensures var next := DecodeString(s, pos, wide).value.next;
      DecodeString(s[..k], pos, wide) ==
        if next <= k then DecodeString(s, pos, wide) else Err(UnexpectedEof)
    decreases |s| - pos
  {
    var w := UnitWidth(wide);
    if pos + w <= k {
      CutSlice(s, k, pos, pos + w);
      assert UnitAt(s[..k], pos, wide) == UnitAt(s, pos, wide);
      if UnitAt(s, pos, wide) != 0 {
        StringTruncation(s, pos + w, wide, k);
      }
    }
  }

  /** `binary_loads` on a cut stream: the same node, or end of stream. */
  lemma {:induction false} NodeTruncation(s: seq<byte>, pos: nat, alt: bool, k: nat)
    requires pos <= k <= |s| && DecodeNode(s, pos, alt).Ok?
    ensures var next := DecodeNode(s, pos, alt).value.next;
      DecodeNode(s[..k], pos, alt) ==
        if next <= k then DecodeNode(s, pos, alt) else Err(UnexpectedEof)
    decreases |s| - pos, 1
  {
    EntriesTruncation(s, pos, alt, k);
  }

  /** The entries of a node on a cut stream: the same entries, or end of stream. */
  lemma {:induction false} EntriesTruncation(s: seq<byte>, pos: nat, alt: bool, k: nat)
    requires pos <= k <= |s| && DecodeEntries(s, pos, alt).Ok?
    ensures var next := DecodeEntries(s, pos, alt).value.next;
      DecodeEntries(s[..k], pos, alt) ==
        if next <= k then DecodeEntries(s, pos, alt) else Err(UnexpectedEof)
    decreases |s| - pos, 0
  {
    FixedTruncation(s, pos, k);
    if pos < k {
      var t := s[pos];
      assert s[..k][pos] == t;
      if t != Terminator(alt) {
        StringTruncation(s, pos + 1, false, k);
        var p1 := DecodeString(s, pos + 1, false).value.next;
        if p1 <= k {
          ValueTruncation(s, p1, t, alt, k);
          var p2 := DecodeValue(s, p1, t, alt).value.next;
          if p2 <= k {
            EntriesTruncation(s, p2, alt, k);
          }
        }
      }
    }
  }

  /** One payload on a cut stream: the same value, or end of stream. */
  lemma {:induction false} ValueTruncation(s: seq<byte>, pos: nat, tag: byte, alt: bool, k: nat)
    requires pos <= k <= |s| && tag != Terminator(alt) && DecodeValue(s, pos, tag, alt).Ok?
    ensures var next := DecodeValue(s, pos, tag, alt).value.next;
      DecodeValue(s[..k], pos, tag, alt) ==
        if next <= k then DecodeValue(s, pos, tag, alt) else Err(UnexpectedEof)
    decreases |s| - pos, 2
  {
    if tag == BinNone {
      NodeTruncation(s, pos, alt, k);
    } else if tag == BinString || tag == BinWideString {
      StringTruncation(s, pos, tag == BinWideString, k);
    } else {
      FixedTruncation(s, pos, k);
    }
  }

  /** The body of an application record on a cut stream. */
  lemma AppTruncation(s: seq<byte>, pos: nat, k: nat)
    requires pos <= k <= |s| && DecodeApp(s, pos).Ok?
    ensures var next := DecodeApp(s, pos).value.next;
      DecodeApp(s[..k], pos) == if next <= k then DecodeApp(s, pos) else Err(UnexpectedEof)
  {
    if pos + AppPrefixSize <= k {
      NodeTruncation(s, pos + AppPrefixSize, false, k);
      CutSlice(s, k, pos, pos + 4);
      CutSlice(s, k, pos + 4, pos + 8);
      CutSlice(s, k, pos + 8, pos + 12);
      CutSlice(s, k, pos + 12, pos + 20);
      CutSlice(s, k, pos + 20, pos + 40);
      CutSlice(s, k, pos + 40, pos + 44);
    }
  }

  /** The application records on a cut stream. */
  lemma {:induction false} AppsTruncation(s: seq<byte>, pos: nat, k: nat)
    requires pos <= k <= |s| && DecodeApps(s, pos).Ok?
    ensures var next := DecodeApps(s, pos).value.next;
      DecodeApps(s[..k], pos) == if next <= k then DecodeApps(s, pos) else Err(UnexpectedEof)
    decreases |s| - pos
  {
    FixedTruncation(s, pos, k);
    if pos + 4 <= k && U32At(s, pos) != AppSentinel {
      AppTruncation(s, pos + 4, k);
      var q := DecodeApp(s, pos + 4).value.next;
      if q <= k {
        AppsTruncation(s, q, k);
      }
    }
  }

  /**
   * `AppInfo::load` on a cut stream: the same catalog when the cut falls at or
   * after the sentinel, end of stream when it falls anywhere before.
   */
  lemma AppInfoTruncation(s: seq<byte>, pos: nat, k: nat)
    requires pos <= k <= |s| && DecodeAppInfo(s, pos).Ok?
    ensures var next := DecodeAppInfo(s, pos).value.next;
      DecodeAppInfo(s[..k], pos) == if next <= k then DecodeAppInfo(s, pos) else Err(UnexpectedEof)
  {
    FixedTruncation(s, pos, k);
    if pos + 4 <= k {
      FixedTruncation(s, pos + 4, k);
      if pos + 8 <= k {
        AppsTruncation(s, pos + 8, k);
      }
    }
  }

  /** The body of a package record on a cut stream. */
  lemma PackageTruncation(s: seq<byte>, pos: nat, id: u32, k: nat)
    requires pos <= k <= |s| && DecodePackage(s, pos, id).Ok?
    ensures var next := DecodePackage(s, pos, id).value.next;
      DecodePackage(s[..k], pos, id) ==
        if next <= k then DecodePackage(s, pos, id) else Err(UnexpectedEof)
  {
    if pos + PackagePrefixSize <= k {
      NodeTruncation(s, pos + PackagePrefixSize, false, k);
      CutSlice(s, k, pos, pos + 20);
      CutSlice(s, k, pos + 20, pos + 24);
      CutSlice(s, k, pos + 24, pos + 32);
    }
  }

  /** The package records on a cut stream. */
  lemma {:induction false} PackagesTruncation(s: seq<byte>, pos: nat, k: nat)
    requires pos <= k <= |s| && DecodePackages(s, pos).Ok?
    ensures var next := DecodePackages(s, pos).value.next;
      DecodePackages(s[..k], pos) == if next <= k then DecodePackages(s, pos) else Err(UnexpectedEof)
    decreases |s| - pos
  {
    FixedTruncation(s, pos, k);
    if pos + 4 <= k && U32At(s, pos) != PackageSentinel {
      var id := U32At(s, pos);
      PackageTruncation(s, pos + 4, id, k);
      var q := DecodePackage(s, pos + 4, id).value.next;
      if q <= k {
        PackagesTruncation(s, q, k);
      }
    }
  }

  /** `packageinfo_loads` on a cut stream. */
  lemma PackageInfoTruncation(s: seq<byte>, pos: nat, k: nat)
    requires pos <= k <= |s| && DecodePackageInfo(s, pos).Ok?
    ensures var next := DecodePackageInfo(s, pos).value.next;
      DecodePackageInfo(s[..k], pos) ==
        if next <= k then DecodePackageInfo(s, pos) else Err(UnexpectedEof)
  {
    FixedTruncation(s, pos, k);
    if pos + 4 <= k {
      FixedTruncation(s, pos + 4, k);
      if pos + 8 <= k {
        PackagesTruncation(s, pos + 8, k);
      }
    }
  }

  /** Every proper prefix of a written node fails with end of stream. */
  lemma WrittenNodeTruncated(fs: seq<Field>, alt: bool, k: nat)
    requires FieldsOk(fs) && k < |EncodeFields(fs, alt)|
    ensures DecodeNode(EncodeFields(fs, alt)[..k], 0, alt) == Err(UnexpectedEof)
  {
    var b := EncodeFields(fs, alt);
    NodeRoundTrip(fs, alt, []);
    assert b + [] == b;
    NodeTruncation(b, 0, alt, k);
  }

  /**
   * Every proper prefix of a written application catalog fails with end of
   * stream, wherever the cut falls: in the header, in a record's fixed fields,
   * in its node or in the sentinel.
   */
  lemma WrittenAppInfoTruncated(version: u32, universe: u32, rs: seq<AppRecord>, k: nat)
    requires AppRecordsOk(rs) && k < |EncodeAppInfo(version, universe, rs)|
    ensures DecodeAppInfo(EncodeAppInfo(version, universe, rs)[..k], 0) == Err(UnexpectedEof)
  {
    var b := EncodeAppInfo(version, universe, rs);
    AppInfoRoundTrip(version, universe, rs, []);
    assert b + [] == b;
    AppInfoTruncation(b, 0, k);
  }

  /** Every proper prefix of a written package catalog fails with end of stream. */
  lemma WrittenPackageInfoTruncated(version: u32, universe: u32, ks: seq<PackageRecord>, k: nat)
    requires PackageRecordsOk(ks) && k < |EncodePackageInfo(version, universe, ks)|
    ensures DecodePackageInfo(EncodePackageInfo(version, universe, ks)[..k], 0) == Err(UnexpectedEof)
  {
    var b := EncodePackageInfo(version, universe, ks);
    PackageInfoRoundTrip(version, universe, ks, []);
    assert b + [] == b;
    PackageInfoTruncation(b, 0, k);
  }
}
