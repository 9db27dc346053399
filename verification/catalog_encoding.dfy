/**
 * A reference writer for the two catalogs and the proof that their readers
 * invert it: a header, records whose ids avoid the sentinel, then the
 * sentinel, read back as the same header and records, the application
 * records keyed by id with the last record of an id winning.
 */
module CatalogEncoding {
  import opened Wire
  import opened KeyValues
  import opened Encoding
  import opened Catalogs

  function U32Bytes(x: u32): (b: seq<byte>)
    ensures |b| == 4
  {
    Pow256Widths();
    LittleEndianBytes(x, 4)
  }

  function U64Bytes(x: u64): (b: seq<byte>)
    ensures |b| == 8
  {
    Pow256Widths();
    LittleEndianBytes(x, 8)
  }

  lemma U32RoundTrip(x: u32, s: seq<byte>, pos: nat)
    requires At(s, pos, U32Bytes(x))
    ensures pos + 4 <= |s| && U32At(s, pos) == x
    ensures Yields(DecodeU32(s, pos), x, pos + 4)
  {
    Pow256Widths();
    FixedRoundTrip(x, 4, s, pos);
  }

  lemma U64RoundTrip(x: u64, s: seq<byte>, pos: nat)
    requires At(s, pos, U64Bytes(x))
    ensures pos + 8 <= |s| && U64At(s, pos) == x
  {
    Pow256Widths();
    FixedRoundTrip(x, 8, s, pos);
  }

  // ---------------------------------------------------------------------------
  // Application catalog

  /** An application record as written: the fixed fields, then the fields of its node. */
  datatype AppRecord = AppRecord(
    id: u32,
    size: u32,
    state: u32,
    lastUpdate: u32,
    accessToken: u64,
    checksum: seq<byte>,
    changeNumber: u32,
    fields: seq<Field>)

  predicate AppRecordOk(a: AppRecord)
  {
    a.id != AppSentinel && |a.checksum| == ChecksumSize && FieldsOk(a.fields)
  }

  predicate AppRecordsOk(rs: seq<AppRecord>)
  {
    forall i :: 0 <= i < |rs| ==> AppRecordOk(rs[i])
  }

  /** The 44 bytes after the id. */
  function AppPrefix(a: AppRecord): (b: seq<byte>)
    requires AppRecordOk(a)
    ensures |b| == AppPrefixSize
  {
    U32Bytes(a.size) + U32Bytes(a.state) + U32Bytes(a.lastUpdate) + U64Bytes(a.accessToken) +
    a.checksum + U32Bytes(a.changeNumber)
  }

  function EncodeAppRecord(a: AppRecord): seq<byte>
    requires AppRecordOk(a)
  {
    U32Bytes(a.id) + AppPrefix(a) + EncodeFields(a.fields, false)
  }

  /** The records in order, then the sentinel id. */
  function EncodeApps(rs: seq<AppRecord>): seq<byte>
    requires AppRecordsOk(rs)
  {
    if rs == [] then U32Bytes(AppSentinel)
    else EncodeAppRecord(rs[0]) + EncodeApps(rs[1..])
  }

  function EncodeAppInfo(version: u32, universe: u32, rs: seq<AppRecord>): seq<byte>
    requires AppRecordsOk(rs)
  {
    U32Bytes(version) + U32Bytes(universe) + EncodeApps(rs)
  }

  /** The application a record stands for. */
  function AppOf(a: AppRecord): App
  {
    App(a.size, a.state, a.lastUpdate, a.accessToken, a.checksum, a.changeNumber,
        ToMap(Entries(a.fields)))
  }

  function AppEntries(rs: seq<AppRecord>): seq<(u32, App)>
  {
    if rs == [] then [] else [(rs[0].id, AppOf(rs[0]))] + AppEntries(rs[1..])
  }

  /** Where each fixed field of an application record sits. */
  lemma AppPrefixLayout(a: AppRecord, s: seq<byte>, pos: nat)
    requires AppRecordOk(a)
    requires At(s, pos, AppPrefix(a))
    ensures At(s, pos, U32Bytes(a.size))
    ensures At(s, pos + 4, U32Bytes(a.state))
    ensures At(s, pos + 8, U32Bytes(a.lastUpdate))
    ensures At(s, pos + 12, U64Bytes(a.accessToken))
    ensures At(s, pos + 20, a.checksum)
    ensures At(s, pos + 40, U32Bytes(a.changeNumber))
  {
    var b1 := U32Bytes(a.size);
    var b2 := U32Bytes(a.state);
    var b3 := U32Bytes(a.lastUpdate);
    var b4 := U64Bytes(a.accessToken);
    var b5 := a.checksum;
    var b6 := U32Bytes(a.changeNumber);
    AtSplit(s, pos, b1 + b2 + b3 + b4 + b5, b6);
    AtSplit(s, pos, b1 + b2 + b3 + b4, b5);
    AtSplit(s, pos, b1 + b2 + b3, b4);
    AtSplit(s, pos, b1 + b2, b3);
    AtSplit(s, pos, b1, b2);
  }

  /** One record written by the writer reads back as its id and its application. */
  lemma AppRecordRoundTrip(a: AppRecord, s: seq<byte>, pos: nat)
    requires AppRecordOk(a)
    requires At(s, pos, EncodeAppRecord(a))
    ensures Yields(DecodeU32(s, pos), a.id, pos + 4)
    ensures pos + 4 <= |s|
    ensures Yields(DecodeApp(s, pos + 4), AppOf(a), pos + |EncodeAppRecord(a)|)
  {
    var prefix := AppPrefix(a);
    var node := EncodeFields(a.fields, false);
    AtSplit(s, pos, U32Bytes(a.id) + prefix, node);
    AtSplit(s, pos, U32Bytes(a.id), prefix);
    U32RoundTrip(a.id, s, pos);
    var p := pos + 4;
    AppPrefixLayout(a, s, p);
    U32RoundTrip(a.size, s, p);
    U32RoundTrip(a.state, s, p + 4);
    U32RoundTrip(a.lastUpdate, s, p + 8);
    U64RoundTrip(a.accessToken, s, p + 12);
    U32RoundTrip(a.changeNumber, s, p + 40);
    assert s[p + 20..p + 40] == a.checksum;
    NodeAt(a.fields, false, s, p + AppPrefixSize);
  }

  /** Records written by the writer read back in order, up to the sentinel. */
  lemma {:induction false} AppsRoundTrip(rs: seq<AppRecord>, s: seq<byte>, pos: nat)
    requires AppRecordsOk(rs)
    requires At(s, pos, EncodeApps(rs))
    ensures pos <= |s|
    ensures Yields(DecodeApps(s, pos), AppEntries(rs), pos + |EncodeApps(rs)|)
    decreases |rs|, 1
  {
    if rs == [] {
      U32RoundTrip(AppSentinel, s, pos);
    } else {
      var a, tl := rs[0], rs[1..];
      assert AppRecordOk(a) && AppRecordsOk(tl);
      assert EncodeApps(rs) == EncodeAppRecord(a) + EncodeApps(tl);
      assert AppEntries(rs) == [(a.id, AppOf(a))] + AppEntries(tl);
      AtSplit(s, pos, EncodeAppRecord(a), EncodeApps(tl));
      AppsConsRoundTrip(a, tl, s, pos);
    }
  }

  /** The inductive step of AppsRoundTrip: one record, then the others. */
  lemma {:induction false} AppsConsRoundTrip(a: AppRecord, tl: seq<AppRecord>, s: seq<byte>, pos: nat)
    requires AppRecordOk(a) && AppRecordsOk(tl)
    requires At(s, pos, EncodeAppRecord(a))
    requires At(s, pos + |EncodeAppRecord(a)|, EncodeApps(tl))
    ensures Yields(DecodeApps(s, pos), [(a.id, AppOf(a))] + AppEntries(tl),
                   pos + |EncodeAppRecord(a)| + |EncodeApps(tl)|)
    decreases |tl|, 2
  {
    var p := pos + |EncodeAppRecord(a)|;
    AppsRoundTrip(tl, s, p);
    AppStep(a, s, pos, p, AppEntries(tl), p + |EncodeApps(tl)|);
  }

  /** A record written by the writer is read as one entry, and reading goes on after it. */
  lemma AppStep(a: AppRecord, s: seq<byte>, pos: nat, p: nat, tail: seq<(u32, App)>, next: nat)
    requires AppRecordOk(a)
    requires At(s, pos, EncodeAppRecord(a)) && p == pos + |EncodeAppRecord(a)|
    requires Yields(DecodeApps(s, p), tail, next)
    ensures Yields(DecodeApps(s, pos), [(a.id, AppOf(a))] + tail, next)
  {
    AppRecordRoundTrip(a, s, pos);
    AppsStep(s, pos, a.id, AppOf(a), p, tail, next);
  }

  /**
   * A catalog written by the writer loads as its header and the map from each
   * id to the application of the last record with that id; the reader stops
   * right after the sentinel, whatever follows.
   */
  lemma AppInfoRoundTrip(version: u32, universe: u32, rs: seq<AppRecord>, rest: seq<byte>)
    requires AppRecordsOk(rs)
    ensures DecodeAppInfo(EncodeAppInfo(version, universe, rs) + rest, 0) ==
              Ok(Parsed(AppInfo(version, universe, ToMap(AppEntries(rs))),
                        |EncodeAppInfo(version, universe, rs)|))
  {
    var b := EncodeAppInfo(version, universe, rs);
    var s := b + rest;
    assert At(s, 0, b) by {
      assert s[0..|b|] == b;
    }
    AtSplit(s, 0, U32Bytes(version) + U32Bytes(universe), EncodeApps(rs));
    AtSplit(s, 0, U32Bytes(version), U32Bytes(universe));
    U32RoundTrip(version, s, 0);
    U32RoundTrip(universe, s, 4);
    AppsRoundTrip(rs, s, 8);
  }

  // ---------------------------------------------------------------------------
  // Package catalog

  /** A package record as written: the fixed fields, then the fields of its node. */
  datatype PackageRecord = PackageRecord(
    id: u32,
    checksum: seq<byte>,
    changeNumber: u32,
    pics: u64,
    fields: seq<Field>)

  predicate PackageRecordOk(k: PackageRecord)
  {
    k.id != PackageSentinel && |k.checksum| == ChecksumSize && FieldsOk(k.fields)
  }

  predicate PackageRecordsOk(ks: seq<PackageRecord>)
  {
    forall i :: 0 <= i < |ks| ==> PackageRecordOk(ks[i])
  }

  /** The 32 bytes after the id. */
  function PackagePrefix(k: PackageRecord): (b: seq<byte>)
    requires PackageRecordOk(k)
    ensures |b| == PackagePrefixSize
  {
    k.checksum + U32Bytes(k.changeNumber) + U64Bytes(k.pics)
  }

  function EncodePackageRecord(k: PackageRecord): seq<byte>
    requires PackageRecordOk(k)
  {
    U32Bytes(k.id) + PackagePrefix(k) + EncodeFields(k.fields, false)
  }

  function EncodePackages(ks: seq<PackageRecord>): seq<byte>
    requires PackageRecordsOk(ks)
  {
    if ks == [] then U32Bytes(PackageSentinel)
    else EncodePackageRecord(ks[0]) + EncodePackages(ks[1..])
  }

  function EncodePackageInfo(version: u32, universe: u32, ks: seq<PackageRecord>): seq<byte>
    requires PackageRecordsOk(ks)
  {
    U32Bytes(version) + U32Bytes(universe) + EncodePackages(ks)
  }

  function PackageOf(k: PackageRecord): Package
  {
    Package(k.id, k.checksum, k.changeNumber, k.pics, ToMap(Entries(k.fields)))
  }

  function PackagesOf(ks: seq<PackageRecord>): seq<Package>
  {
    if ks == [] then [] else [PackageOf(ks[0])] + PackagesOf(ks[1..])
  }

  lemma PackageRecordRoundTrip(k: PackageRecord, s: seq<byte>, pos: nat)
    requires PackageRecordOk(k)
    requires At(s, pos, EncodePackageRecord(k))
    ensures Yields(DecodeU32(s, pos), k.id, pos + 4)
    ensures pos + 4 <= |s|
    ensures Yields(DecodePackage(s, pos + 4, k.id), PackageOf(k), pos + |EncodePackageRecord(k)|)
  {
    var prefix := PackagePrefix(k);
    var node := EncodeFields(k.fields, false);
    AtSplit(s, pos, U32Bytes(k.id) + prefix, node);
    AtSplit(s, pos, U32Bytes(k.id), prefix);
    U32RoundTrip(k.id, s, pos);
    var p := pos + 4;
    AtSplit(s, p, k.checksum + U32Bytes(k.changeNumber), U64Bytes(k.pics));
    AtSplit(s, p, k.checksum, U32Bytes(k.changeNumber));
    U32RoundTrip(k.changeNumber, s, p + 20);
    U64RoundTrip(k.pics, s, p + 24);
    NodeAt(k.fields, false, s, p + PackagePrefixSize);
  }

  lemma {:induction false} PackagesRoundTrip(ks: seq<PackageRecord>, s: seq<byte>, pos: nat)
    requires PackageRecordsOk(ks)
    requires At(s, pos, EncodePackages(ks))
    ensures pos <= |s|
    ensures Yields(DecodePackages(s, pos), PackagesOf(ks), pos + |EncodePackages(ks)|)
    decreases |ks|, 1
  {
    if ks == [] {
      U32RoundTrip(PackageSentinel, s, pos);
    } else {
      var k, tl := ks[0], ks[1..];
      assert PackageRecordOk(k) && PackageRecordsOk(tl);
      assert EncodePackages(ks) == EncodePackageRecord(k) + EncodePackages(tl);
      assert PackagesOf(ks) == [PackageOf(k)] + PackagesOf(tl);
      AtSplit(s, pos, EncodePackageRecord(k), EncodePackages(tl));
      PackagesConsRoundTrip(k, tl, s, pos);
    }
  }

  /** The inductive step of PackagesRoundTrip: one record, then the others. */
  lemma {:induction false} PackagesConsRoundTrip(k: PackageRecord, tl: seq<PackageRecord>, s: seq<byte>, pos: nat)
    requires PackageRecordOk(k) && PackageRecordsOk(tl)
    requires At(s, pos, EncodePackageRecord(k))
    requires At(s, pos + |EncodePackageRecord(k)|, EncodePackages(tl))
    ensures Yields(DecodePackages(s, pos), [PackageOf(k)] + PackagesOf(tl),
                   pos + |EncodePackageRecord(k)| + |EncodePackages(tl)|)
    decreases |tl|, 2
  {
    var p := pos + |EncodePackageRecord(k)|;
    PackagesRoundTrip(tl, s, p);
    PackageStep(k, s, pos, p, PackagesOf(tl), p + |EncodePackages(tl)|);
  }

  /** A record written by the writer is read as one package, and reading goes on after it. */
  lemma PackageStep(k: PackageRecord, s: seq<byte>, pos: nat, p: nat, tail: seq<Package>, next: nat)
    requires PackageRecordOk(k)
    requires At(s, pos, EncodePackageRecord(k)) && p == pos + |EncodePackageRecord(k)|
    requires Yields(DecodePackages(s, p), tail, next)
    ensures Yields(DecodePackages(s, pos), [PackageOf(k)] + tail, next)
  {
    PackageRecordRoundTrip(k, s, pos);
    PackagesStep(s, pos, k.id, PackageOf(k), p, tail, next);
  }

  /**
   * A package catalog written by the writer reads back as its header and its
   * records in order; the reader stops right after the sentinel.
   */
  lemma PackageInfoRoundTrip(version: u32, universe: u32, ks: seq<PackageRecord>, rest: seq<byte>)
    requires PackageRecordsOk(ks)
    ensures DecodePackageInfo(EncodePackageInfo(version, universe, ks) + rest, 0) ==
              Ok(Parsed(PackageInfo(version, universe, PackagesOf(ks)),
                        |EncodePackageInfo(version, universe, ks)|))
  {
    var b := EncodePackageInfo(version, universe, ks);
    var s := b + rest;
    assert At(s, 0, b) by {
      assert s[0..|b|] == b;
    }
    AtSplit(s, 0, U32Bytes(version) + U32Bytes(universe), EncodePackages(ks));
    AtSplit(s, 0, U32Bytes(version), U32Bytes(universe));
    U32RoundTrip(version, s, 0);
    U32RoundTrip(universe, s, 4);
    PackagesRoundTrip(ks, s, 8);
  }
}
