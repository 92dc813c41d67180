/**
 * `gen_api_v1_bundles.py`: regenerate one bundle per record of `api/v1/manifest.json`,
 * copying the record's `data` and `contentHash` as they stand in the manifest, stamped
 * with the generation time and, when `api/v1/latest-audit.json` is a non-empty object,
 * with its `latest` pointer.
 */
module Bundles {
  import opened Basics
  import opened JsonValue
  import opened JsonText
  import opened Sealing
  import opened Files
  import opened Routes
  import Text
  import Sorting

  const MISSING_MANIFEST := "FAIL: missing api/v1/manifest.json. Run your manifest generator first."
  const EMPTY_RECORDS := "FAIL: manifest.records missing/empty"

  /** What the bundles' `latestAudit` is, if they carry one: only a non-empty object's `latest` (or null) is used. */
  function LatestField(latestAudit: Option<Json>): (r: Option<Json>)
    ensures r.Some? <==> latestAudit.Some? && latestAudit.value.Obj? && Truthy(latestAudit.value)
    ensures r.Some? ==> r.value == GetOr(latestAudit.value.members, "latest", Null)
  {
    match latestAudit
    case Some(Obj(ms)) => if ms != [] then Some(GetOr(ms, "latest", Null)) else None
    case _ => None
  }

  /** The members every bundle has, in the order the script writes them. */
  function BundleFields(rid: string, meta: Members, generatedAt: string): Members
  {
    [("apiVersion", Str(API_VERSION)), ("base", Str(BASE)), ("generatedAt", Str(generatedAt)),
     ("id", Str(rid)), ("resolver", Str(ResolverPath(rid))), ("page", Str(PagePath(rid))),
     ("data", GetOr(meta, "data", Null)), (CONTENT_HASH, GetOr(meta, CONTENT_HASH, Null)),
     ("latestAuditPointer", Str(AUDIT_INDEX))]
  }

  /** The bundle written for the manifest record `rid` with entry `meta`. */
  function Bundle(rid: string, meta: Members, generatedAt: string, latest: Option<Json>): (r: Json)
    ensures r.Obj? && |r.members| == if latest.Some? then 10 else 9
    ensures latest.Some? ==> r.members[9] == ("latestAudit", latest.value)
  {
    var fields := BundleFields(rid, meta, generatedAt);
    Obj(if latest.Some? then fields + [("latestAudit", latest.value)] else fields)
  }

  /** A bundle copies `data` and `contentHash` from its manifest entry, null where the entry lacks them. */
  lemma BundleCopies(rid: string, meta: Members, generatedAt: string, latest: Option<Json>)
    ensures Get(Bundle(rid, meta, generatedAt, latest).members, CONTENT_HASH) == Some(GetOr(meta, CONTENT_HASH, Null))
    ensures Get(Bundle(rid, meta, generatedAt, latest).members, "data") == Some(GetOr(meta, "data", Null))
  {
    var b := Bundle(rid, meta, generatedAt, latest).members;
    BundleKeys(rid, meta, generatedAt, latest);
    assert b[6].1 == GetOr(meta, "data", Null) && b[7].1 == GetOr(meta, CONTENT_HASH, Null);
    FieldOf(b, 6);
    FieldOf(b, 7);
    assert BUNDLE_KEYS[6] == "data" && BUNDLE_KEYS[7] == CONTENT_HASH;
  }

  /** A bundle's `id`, `resolver` and `page` come from the record's id. */
  lemma BundlePaths(rid: string, meta: Members, generatedAt: string, latest: Option<Json>)
    ensures Get(Bundle(rid, meta, generatedAt, latest).members, "id") == Some(Str(rid))
    ensures Get(Bundle(rid, meta, generatedAt, latest).members, "resolver") == Some(Str(ResolverPath(rid)))
    ensures Get(Bundle(rid, meta, generatedAt, latest).members, "page") == Some(Str(PagePath(rid)))
  {
    var b := Bundle(rid, meta, generatedAt, latest).members;
    BundleKeys(rid, meta, generatedAt, latest);
    assert b[3].1 == Str(rid) && b[4].1 == Str(ResolverPath(rid)) && b[5].1 == Str(PagePath(rid));
    FieldOf(b, 3);
    FieldOf(b, 4);
    FieldOf(b, 5);
    assert BUNDLE_KEYS[3] == "id" && BUNDLE_KEYS[4] == "resolver" && BUNDLE_KEYS[5] == "page";
  }

  /** The keys of a bundle's fixed members, in order. */
  const BUNDLE_KEYS := ["apiVersion", "base", "generatedAt", "id", "resolver", "page", "data", CONTENT_HASH, "latestAuditPointer"]

  /** A bundle starts with its fixed members. */
  lemma BundleKeys(rid: string, meta: Members, generatedAt: string, latest: Option<Json>)
    ensures var b := Bundle(rid, meta, generatedAt, latest).members;
      |b| >= |BUNDLE_KEYS| && forall j :: 0 <= j < |BUNDLE_KEYS| ==> b[j].0 == BUNDLE_KEYS[j]
  {
    var fields := BundleFields(rid, meta, generatedAt);
    var b := Bundle(rid, meta, generatedAt, latest).members;
    assert b[..|fields|] == fields;
  }

  /** Each of the fixed members of a bundle is found under its key. */
  lemma FieldOf(b: Members, i: nat)
    requires i < |BUNDLE_KEYS| && |b| >= |BUNDLE_KEYS| && forall j :: 0 <= j < |BUNDLE_KEYS| ==> b[j].0 == BUNDLE_KEYS[j]
    ensures Get(b, BUNDLE_KEYS[i]) == Some(b[i].1)
  {
    assert forall j :: 0 <= j < i ==> |BUNDLE_KEYS[j]| != |BUNDLE_KEYS[i]| || BUNDLE_KEYS[j] != BUNDLE_KEYS[i];
    GetFirstAt(b, i);
  }

  /** A bundle has a `latestAudit` exactly when one is given, and then it is that value. */
  lemma BundleLatest(rid: string, meta: Members, generatedAt: string, latest: Option<Json>)
    ensures Get(Bundle(rid, meta, generatedAt, latest).members, "latestAudit") == latest
  {
    var fields := BundleFields(rid, meta, generatedAt);
    assert !HasKey(fields, "latestAudit") by {
      forall i | 0 <= i < |fields| ensures fields[i].0 != "latestAudit" {
      }
    }
    if latest.Some? {
      IndexOfAppend(fields, "latestAudit", latest.value, "latestAudit");
    }
  }

  /** How far the loop gets: the number of leading records whose entry is an object (`meta.get` raises on any other). */
  function Processed(items: Members): (n: nat)
    ensures n <= |items|
    ensures forall i :: 0 <= i < n ==> items[i].1.Obj?
    ensures n < |items| ==> !items[n].1.Obj?
  {
    if |items| == 0 || !items[0].1.Obj? then 0
    else
      var n := Processed(items[1..]);
      assert forall i :: 1 <= i <= n ==> items[i] == items[1..][i - 1];
      1 + n
  }

  /** The bundle files written for the first `n` records, in order. */
  function BundleOuts(items: Members, n: nat, generatedAt: string, latest: Option<Json>): (r: seq<(string, Doc)>)
    requires n <= |items| && forall i :: 0 <= i < n ==> items[i].1.Obj?
    ensures |r| == n
  {
    seq(n, i requires 0 <= i < n =>
      (BundleFile(items[i].0), Dumped(Bundle(items[i].0, items[i].1.members, generatedAt, latest), FILE_LAYOUT)))
  }

  /** What the script finds before its loop. */
  datatype Start =
    | MissingManifest
    | Crash                                            // a load raises, or the manifest is not an object
    | NoRecords                                        // `records` is not a non-empty object
    | Ready(items: Members, latest: Option<Json>)      // the records in sorted order, and the `latestAudit` to add

  function StartOf(files: map<string, Doc>): (r: Start)
    ensures r.MissingManifest? <==> MANIFEST_FILE !in files
    ensures r.Ready? ==> |r.items| > 0 && Sorting.SortedBy(r.items, MemberKey)
  {
    if MANIFEST_FILE !in files then MissingManifest
    else if files[MANIFEST_FILE].Parsed().None? then Crash
    else if LATEST_AUDIT_FILE in files && files[LATEST_AUDIT_FILE].Parsed().None? then Crash
    else
      var latestAudit := if LATEST_AUDIT_FILE in files then files[LATEST_AUDIT_FILE].Parsed() else None;
      match files[MANIFEST_FILE].Parsed().value
      case Obj(m) =>
        var records := GetOr(m, "records", Obj([]));
        if records.Obj? && records.members != []
        then Ready(Sorting.SortBy(records.members, MemberKey), LatestField(latestAudit))
        else NoRecords
      case _ => Crash
  }

  /** Records come in sorted id order, one item per record, and the loop visits them all when every entry is an object. */
  lemma ReadyItems(files: map<string, Doc>)
    requires StartOf(files).Ready?
    requires Valid(files[MANIFEST_FILE].Parsed().value)
    ensures var items := StartOf(files).items;
      var records := GetOr(files[MANIFEST_FILE].Parsed().value.members, "records", Obj([])).members;
      |items| == |records| > 0 &&
      multiset(items) == multiset(records) &&
      Sorting.StrictlySortedBy(items, MemberKey) &&
      ((forall i :: 0 <= i < |records| ==> records[i].1.Obj?) ==> Processed(items) == |items|)
  {
    var m := files[MANIFEST_FILE].Parsed().value.members;
    var records := GetOr(m, "records", Obj([]));
    assert DistinctKeys(records.members) by {
      if HasKey(m, "records") {
        var j :| 0 <= j < |m| && m[j] == ("records", records);
        assert Valid(m[j].1);
      }
    }
    var items := StartOf(files).items;
    assert Sorting.DistinctBy(records.members, MemberKey);
    assert items == Sorting.SortBy(records.members, MemberKey);
    AllObjectsProcessed(items, records.members);
  }

  /** The loop visits every item when every record entry is an object. */
  lemma AllObjectsProcessed(items: Members, records: Members)
    requires multiset(items) == multiset(records)
    ensures (forall i :: 0 <= i < |records| ==> records[i].1.Obj?) ==> Processed(items) == |items|
  {
    if forall i :: 0 <= i < |records| ==> records[i].1.Obj? {
      forall i | 0 <= i < |items| ensures items[i].1.Obj? {
        assert items[i] in multiset(records);
      }
    }
  }

  /** With distinct ids, every record's bundle file holds that record's bundle. */
  lemma OneBundlePerRecord(files: map<string, Doc>, items: Members, generatedAt: string, latest: Option<Json>, i: nat)
    requires Sorting.StrictlySortedBy(items, MemberKey)
    requires i < |items| && forall j :: 0 <= j < |items| ==> items[j].1.Obj?
    ensures BundleFile(items[i].0) in WriteAll(files, BundleOuts(items, |items|, generatedAt, latest))
    ensures WriteAll(files, BundleOuts(items, |items|, generatedAt, latest))[BundleFile(items[i].0)] ==
      Dumped(Bundle(items[i].0, items[i].1.members, generatedAt, latest), FILE_LAYOUT)
  {
    var outs := BundleOuts(items, |items|, generatedAt, latest);
    forall j | i < j < |outs| ensures outs[j].0 != outs[i].0 {
      assert Text.Less(MemberKey(items[i]), MemberKey(items[j]));
      Text.LessIrreflexive(items[i].0);
      if outs[j].0 == outs[i].0 {
        BundleFileInjective(items[i].0, items[j].0);
      }
    }
    WriteAllLast(files, outs, i);
  }

  /** The bundle loop over the sorted records: write each record's bundle, raising at the first entry that is not an object. */
  method WriteBundles(fs: Store, items: Members, generatedAt: string, latest: Option<Json>) returns (ex: Exit)
    modifies fs
    ensures var n := Processed(items);
      fs.files == WriteAll(old(fs.files), BundleOuts(items, n, generatedAt, latest)) &&
      (n == |items| ==> ex == Exit(0, ["OK: wrote " + Text.IntText(|items|) + " bundles into api/v1/bundle/"])) &&
      (n < |items| ==> ex == Exit(EXCEPTION_STATUS, []))
  {
    ghost var n := Processed(items);
    ghost var outs := BundleOuts(items, n, generatedAt, latest);
    for i := 0 to |items|
      invariant i <= n
      invariant fs.files == WriteAll(old(fs.files), outs[..i])
    {
      var rid := items[i].0;
      var meta := items[i].1;
      if !meta.Obj? {
        assert i == n && outs[..i] == outs;
        return Exit(EXCEPTION_STATUS, []);
      }
      fs.WriteJson(BundleFile(rid), Bundle(rid, meta.members, generatedAt, latest), FILE_LAYOUT);
      assert outs[i] == (BundleFile(rid), Dumped(Bundle(rid, meta.members, generatedAt, latest), FILE_LAYOUT));
      WriteAllStep(old(fs.files), outs, i);
    }
    assert outs[..|items|] == outs;
    ex := Exit(0, ["OK: wrote " + Text.IntText(|items|) + " bundles into api/v1/bundle/"]);
  }

  /**
   * The whole script. Before the loop: a missing manifest or unusable records stop it with a
   * message and nothing written; a file that does not load, or a manifest that is not an
   * object, raises. The loop writes the bundles in sorted id order and raises at the first
   * record whose entry is not an object, after the bundles before it were written.
   */
  method Run(fs: Store, generatedAt: string) returns (ex: Exit)
    modifies fs
    ensures match StartOf(old(fs.files))
      case MissingManifest => ex == Exit(EXCEPTION_STATUS, [MISSING_MANIFEST]) && fs.files == old(fs.files)
      case Crash => ex == Exit(EXCEPTION_STATUS, []) && fs.files == old(fs.files)
      case NoRecords => ex == Exit(EXCEPTION_STATUS, [EMPTY_RECORDS]) && fs.files == old(fs.files)
      case Ready(items, latest) =>
        var n := Processed(items);
        fs.files == WriteAll(old(fs.files), BundleOuts(items, n, generatedAt, latest)) &&
        (n == |items| ==> ex == Exit(0, ["OK: wrote " + Text.IntText(|items|) + " bundles into api/v1/bundle/"])) &&
        (n < |items| ==> ex == Exit(EXCEPTION_STATUS, []))
  {
    var start := StartOf(fs.files);
    match start
    case MissingManifest =>
      return Exit(EXCEPTION_STATUS, [MISSING_MANIFEST]);
    case Crash =>
      return Exit(EXCEPTION_STATUS, []);
    case NoRecords =>
      return Exit(EXCEPTION_STATUS, [EMPTY_RECORDS]);
    case Ready(items, latest) =>
      ex := WriteBundles(fs, items, generatedAt, latest);
  }
}
