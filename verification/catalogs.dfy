/**
 * The two catalog readers. Both start with the header `version, universe`
 * (u32 each) and then read records until a sentinel id: 0 for the application
 * catalog (`AppInfo::load`), 0xFFFFFFFF for the package catalog
 * (`packageinfo_loads`). Every record ends with one key/value node in the
 * standard format.
 */
module Catalogs {
  import opened Wire
  import opened KeyValues
  import opened Readers

  const AppSentinel: u32 := 0
  const PackageSentinel: u32 := 0xFFFF_FFFF
  const ChecksumSize: nat := 20

  /** size, state, last_update (u32 each), access_token (u64), checksum, change_number (u32). */
  const AppPrefixSize: nat := 4 + 4 + 4 + 8 + ChecksumSize + 4

  /** checksum, change_number (u32), an uninterpreted u64. */
  const PackagePrefixSize: nat := ChecksumSize + 4 + 8

  datatype App = App(
    size: u32,
    state: u32,
    lastUpdate: u32,
    accessToken: u64,
    checksum: seq<byte>,
    changeNumber: u32,
    keyValues: KeyValue)

  datatype AppInfo = AppInfo(version: u32, universe: u32, apps: map<u32, App>)

  /**
   * One package record as `packageinfo_loads` reads it. `pics` is the u64 the
   * source reads without interpreting it.
   */
  datatype Package = Package(
    id: u32,
    checksum: seq<byte>,
    changeNumber: u32,
    pics: u64,
    keyValues: KeyValue)

  /** The package catalog: its header and its records in stream order. */
  datatype PackageInfo = PackageInfo(version: u32, universe: u32, packages: seq<Package>)

  // ---------------------------------------------------------------------------
  // Application catalog

  /** The body of one application record, after its id. */
  function DecodeApp(s: seq<byte>, pos: nat): (r: Result<Parsed<App>>)
    requires pos <= |s|
    ensures r.Ok? ==> pos + AppPrefixSize < r.value.next <= |s|
    ensures r.Ok? ==> |r.value.value.checksum| == ChecksumSize
    ensures r.Err? ==> Admissible(r.error, false)
  {
    if pos + AppPrefixSize > |s| then Err(UnexpectedEof)
    else
      match DecodeNode(s, pos + AppPrefixSize, false)
      case Err(e) => Err(e)
      case Ok(Parsed(kv, p)) =>
        Ok(Parsed(App(U32At(s, pos), U32At(s, pos + 4), U32At(s, pos + 8), U64At(s, pos + 12),
                      s[pos + 20..pos + 40], U32At(s, pos + 40), kv), p))
  }

  /** The application records up to and including the sentinel id, in stream order. */
  function DecodeApps(s: seq<byte>, pos: nat): (r: Result<Parsed<seq<(u32, App)>>>)
    requires pos <= |s|
    ensures r.Ok? ==> pos < r.value.next <= |s|
    ensures r.Err? ==> Admissible(r.error, false)
    decreases |s| - pos
  {
    match DecodeU32(s, pos)
    case Err(e) => Err(e)
    case Ok(Parsed(id, p)) =>
      if id == AppSentinel then Ok(Parsed([], p))
      else
        match DecodeApp(s, p)
        case Err(e) => Err(e)
        case Ok(Parsed(app, q)) => Prepend([(id, app)], DecodeApps(s, q))
  }

  /** A record that is not the sentinel is read, then the list goes on after it. */
  lemma AppsStep(s: seq<byte>, pos: nat, id: u32, app: App, q: nat, tail: seq<(u32, App)>, next: nat)
    requires pos + 4 <= |s| && Yields(DecodeU32(s, pos), id, pos + 4) && id != AppSentinel
    requires Yields(DecodeApp(s, pos + 4), app, q) && q <= |s|
    requires Yields(DecodeApps(s, q), tail, next)
    ensures Yields(DecodeApps(s, pos), [(id, app)] + tail, next)
  {
  }

  /** `AppInfo::load`: the header, then the records keyed by id. */
  function DecodeAppInfo(s: seq<byte>, pos: nat): (r: Result<Parsed<AppInfo>>)
    requires pos <= |s|
    ensures r.Ok? ==> pos + 8 < r.value.next <= |s|
    ensures r.Err? ==> Admissible(r.error, false)
  {
    match DecodeU32(s, pos)
    case Err(e) => Err(e)
    case Ok(Parsed(version, p1)) =>
      match DecodeU32(s, p1)
      case Err(e) => Err(e)
      case Ok(Parsed(universe, p2)) =>
        match DecodeApps(s, p2)
        case Err(e) => Err(e)
        case Ok(Parsed(apps, p3)) => Ok(Parsed(AppInfo(version, universe, ToMap(apps)), p3))
  }

  /** No decoded application record carries the sentinel id. */
  lemma {:induction false} AppIdsNotSentinel(s: seq<byte>, pos: nat)
    requires pos <= |s|
    requires DecodeApps(s, pos).Ok?
    ensures forall i :: 0 <= i < |DecodeApps(s, pos).value.value| ==>
              DecodeApps(s, pos).value.value[i].0 != AppSentinel
    decreases |s| - pos
  {
    var Parsed(id, p) := DecodeU32(s, pos).value;
    if id != AppSentinel {
      var Parsed(_, q) := DecodeApp(s, p).value;
      AppIdsNotSentinel(s, q);
    }
  }

  /**
   * The loaded catalog holds exactly the ids of the records read, never 0, and
   * each id maps to the last record read with it.
   */
  lemma AppInfoRecords(s: seq<byte>, pos: nat, i: nat)
    requires pos + 8 <= |s|
    requires DecodeApps(s, pos + 8).Ok?
    ensures DecodeAppInfo(s, pos).Ok?
    ensures var list := DecodeApps(s, pos + 8).value.value;
      var info := DecodeAppInfo(s, pos).value.value;
      && AppSentinel !in info.apps
      && info.apps.Keys == (set e | e in list :: e.0)
      && (i < |list| && (forall j :: i < j < |list| ==> list[j].0 != list[i].0) ==>
            info.apps[list[i].0] == list[i].1)
  {
    var list := DecodeApps(s, pos + 8).value.value;
    AppIdsNotSentinel(s, pos + 8);
    if i < |list| && (forall j :: i < j < |list| ==> list[j].0 != list[i].0) {
      LastWins(list, i);
    }
  }

  // ---------------------------------------------------------------------------
  // Package catalog

  /** The body of the package record with id `id`, after its id. */
  function DecodePackage(s: seq<byte>, pos: nat, id: u32): (r: Result<Parsed<Package>>)
    requires pos <= |s|
    ensures r.Ok? ==> pos + PackagePrefixSize < r.value.next <= |s|
    ensures r.Ok? ==> r.value.value.id == id && |r.value.value.checksum| == ChecksumSize
    ensures r.Err? ==> Admissible(r.error, false)
  {
    if pos + PackagePrefixSize > |s| then Err(UnexpectedEof)
    else
      match DecodeNode(s, pos + PackagePrefixSize, false)
      case Err(e) => Err(e)
      case Ok(Parsed(kv, p)) =>
        Ok(Parsed(Package(id, s[pos..pos + 20], U32At(s, pos + 20), U64At(s, pos + 24), kv), p))
  }

  /** The package records up to and including the sentinel id, in stream order. */
  function DecodePackages(s: seq<byte>, pos: nat): (r: Result<Parsed<seq<Package>>>)
    requires pos <= |s|
    ensures r.Ok? ==> pos < r.value.next <= |s|
    ensures r.Err? ==> Admissible(r.error, false)
    decreases |s| - pos
  {
    match DecodeU32(s, pos)
    case Err(e) => Err(e)
    case Ok(Parsed(id, p)) =>
      if id == PackageSentinel then Ok(Parsed([], p))
      else
        match DecodePackage(s, p, id)
        case Err(e) => Err(e)
        case Ok(Parsed(pkg, q)) => Prepend([pkg], DecodePackages(s, q))
  }

  /** A record that is not the sentinel is read, then the list goes on after it. */
  lemma PackagesStep(s: seq<byte>, pos: nat, id: u32, pkg: Package, q: nat, tail: seq<Package>, next: nat)
    requires pos + 4 <= |s| && Yields(DecodeU32(s, pos), id, pos + 4) && id != PackageSentinel
    requires Yields(DecodePackage(s, pos + 4, id), pkg, q) && q <= |s|
    requires Yields(DecodePackages(s, q), tail, next)
    ensures Yields(DecodePackages(s, pos), [pkg] + tail, next)
  {
  }

  /** `packageinfo_loads`: the header, then the package records. */
  function DecodePackageInfo(s: seq<byte>, pos: nat): (r: Result<Parsed<PackageInfo>>)
    requires pos <= |s|
    ensures r.Ok? ==> pos + 8 < r.value.next <= |s|
    ensures r.Err? ==> Admissible(r.error, false)
  {
    match DecodeU32(s, pos)
    case Err(e) => Err(e)
    case Ok(Parsed(version, p1)) =>
      match DecodeU32(s, p1)
      case Err(e) => Err(e)
      case Ok(Parsed(universe, p2)) =>
        match DecodePackages(s, p2)
        case Err(e) => Err(e)
        case Ok(Parsed(pkgs, p3)) => Ok(Parsed(PackageInfo(version, universe, pkgs), p3))
  }

  /** No decoded package record carries the sentinel id; id 0 is an ordinary id. */
  lemma {:induction false} PackageIdsNotSentinel(s: seq<byte>, pos: nat)
    requires pos <= |s|
    requires DecodePackages(s, pos).Ok?
    ensures forall i :: 0 <= i < |DecodePackages(s, pos).value.value| ==>
              DecodePackages(s, pos).value.value[i].id != PackageSentinel
    decreases |s| - pos
  {
    var Parsed(id, p) := DecodeU32(s, pos).value;
    if id != PackageSentinel {
      var Parsed(_, q) := DecodePackage(s, p, id).value;
      PackageIdsNotSentinel(s, q);
    }
  }

  /**
   * The two sentinels are not interchangeable: id 0xFFFFFFFF starts an
   * application record, and id 0 starts a package record.
   */
  lemma SentinelsDiffer(s: seq<byte>, pos: nat)
    requires pos + 4 <= |s|
    ensures U32At(s, pos) == PackageSentinel && DecodeApps(s, pos).Ok? ==>
              |DecodeApps(s, pos).value.value| > 0 &&
              DecodeApps(s, pos).value.value[0].0 == PackageSentinel
    ensures U32At(s, pos) == AppSentinel && DecodePackages(s, pos).Ok? ==>
              |DecodePackages(s, pos).value.value| > 0 &&
              DecodePackages(s, pos).value.value[0].id == AppSentinel
  {
  }

  // ---------------------------------------------------------------------------
  // The loaders, over a reader

  /** The fixed fields and the node of one application record. */
  method ReadApp(reader: Reader) returns (r: Result<App>)
    requires reader.Valid()
    modifies reader
    ensures reader.Valid()
    ensures Outcome(r, reader.pos) == DecodeApp(reader.data[..], old(reader.pos))
  {
    var size := reader.ReadU32();
    if size.Err? {
      return Err(size.error);
    }
    var state := reader.ReadU32();
    if state.Err? {
      return Err(state.error);
    }
    var lastUpdate := reader.ReadU32();
    if lastUpdate.Err? {
      return Err(lastUpdate.error);
    }
    var accessToken := reader.ReadU64();
    if accessToken.Err? {
      return Err(accessToken.error);
    }
    var checksum := reader.ReadExact(ChecksumSize);
    if checksum.Err? {
      return Err(checksum.error);
    }
    var changeNumber := reader.ReadU32();
    if changeNumber.Err? {
      return Err(changeNumber.error);
    }
    var keyValues := BinaryLoads(reader, false);
    if keyValues.Err? {
      return Err(keyValues.error);
    }
    r := Ok(App(size.value, state.value, lastUpdate.value, accessToken.value,
                checksum.value, changeNumber.value, keyValues.value));
  }

  /** `AppInfo::load`. */
  method LoadAppInfo(reader: Reader) returns (r: Result<AppInfo>)
    requires reader.Valid()
    modifies reader
    ensures reader.Valid()
    ensures Outcome(r, reader.pos) == DecodeAppInfo(reader.data[..], old(reader.pos))
  {
    ghost var s := reader.data[..];
    var version := reader.ReadU32();
    if version.Err? {
      return Err(version.error);
    }
    var universe := reader.ReadU32();
    if universe.Err? {
      return Err(universe.error);
    }
    ghost var start := reader.pos;
    ghost var seen: seq<(u32, App)> := [];
    var apps: map<u32, App> := map[];
    PrependNothing(DecodeApps(s, start));
    while true
      invariant reader.Valid() && start <= reader.pos
      invariant apps == ToMap(seen)
      invariant DecodeApps(s, start) == Prepend(seen, DecodeApps(s, reader.pos))
      decreases reader.data.Length - reader.pos
    {
      ghost var here := reader.pos;
      var appId := reader.ReadU32();
      if appId.Err? {
        return Err(appId.error);
      }
      if appId.value == AppSentinel {
        assert DecodeApps(s, here) == Ok(Parsed([], reader.pos));
        assert seen + [] == seen;
        break;
      }
      var app := ReadApp(reader);
      if app.Err? {
        return Err(app.error);
      }
      PrependAppend(seen, [(appId.value, app.value)], DecodeApps(s, reader.pos));
      ToMapSnoc(seen, appId.value, app.value);
      apps := apps[appId.value := app.value];
      seen := seen + [(appId.value, app.value)];
    }
    r := Ok(AppInfo(version.value, universe.value, apps));
  }

  /** The fixed fields and the node of one package record. */
  method ReadPackage(reader: Reader, id: u32) returns (r: Result<Package>)
    requires reader.Valid()
    modifies reader
    ensures reader.Valid()
    ensures Outcome(r, reader.pos) == DecodePackage(reader.data[..], old(reader.pos), id)
  {
    var checksum := reader.ReadExact(ChecksumSize);
    if checksum.Err? {
      return Err(checksum.error);
    }
    var changeNumber := reader.ReadU32();
    if changeNumber.Err? {
      return Err(changeNumber.error);
    }
    var pics := reader.ReadU64();
    if pics.Err? {
      return Err(pics.error);
    }
    var kv := BinaryLoads(reader, false);
    if kv.Err? {
      return Err(kv.error);
    }
    r := Ok(Package(id, checksum.value, changeNumber.value, pics.value, kv.value));
  }

  /** `packageinfo_loads`, returning the records it reads instead of printing them. */
  method PackageInfoLoads(reader: Reader) returns (r: Result<PackageInfo>)
    requires reader.Valid()
    modifies reader
    ensures reader.Valid()
    ensures Outcome(r, reader.pos) == DecodePackageInfo(reader.data[..], old(reader.pos))
  {
    ghost var s := reader.data[..];
    var version := reader.ReadU32();
    if version.Err? {
      return Err(version.error);
    }
    var universe := reader.ReadU32();
    if universe.Err? {
      return Err(universe.error);
    }
    ghost var start := reader.pos;
    var packages: seq<Package> := [];
    PrependNothing(DecodePackages(s, start));
    while true
      invariant reader.Valid() && start <= reader.pos
      invariant DecodePackages(s, start) == Prepend(packages, DecodePackages(s, reader.pos))
      decreases reader.data.Length - reader.pos
    {
      ghost var here := reader.pos;
      var packageId := reader.ReadU32();
      if packageId.Err? {
        return Err(packageId.error);
      }
      if packageId.value == PackageSentinel {
        assert DecodePackages(s, here) == Ok(Parsed([], reader.pos));
        assert packages + [] == packages;
        break;
      }
      var pkg := ReadPackage(reader, packageId.value);
      if pkg.Err? {
        return Err(pkg.error);
      }
      PrependAppend(packages, [pkg.value], DecodePackages(s, reader.pos));
      packages := packages + [pkg.value];
    }
    r := Ok(PackageInfo(version.value, universe.value, packages));
  }
}
