/**
 * `verify_id_v1.py <ID>`: fetch one record's bundle, then the data it points to, and
 * compare the digest of the data as served (no neutralisation) with the digest the
 * bundle stores. Exit 0 on a match, 1 on a mismatch (or when a request raises), 2 on
 * a wrong argument count (the usage line goes to stderr, which is not modelled).
 */
module VerifyIdV1 {
  import opened Basics
  import opened JsonValue
  import opened Sealing
  import opened Files
  import opened Routes
  import opened VerifyManifest
  import Text
  import BuildApi
  import Bundles

  /** The lines printed once both digests are known. */
  function Header(rid: string, expected: string, actual: string): seq<string>
  {
    ["ID: " + rid, "expected (bundle): " + expected, "actual   (data):   " + actual]
  }

  /** Where the bundle of `rid` is served. */
  function BundlePath(rid: string): string
  {
    "/" + BundleFile(rid)
  }

  /**
   * The script with its argument list. The bundle's `contentHash` and `data` are read and
   * the data fetched and hashed exactly as the manifest verifier does for a manifest entry.
   */
  function Run(args: seq<string>, site: map<string, Doc>, H: Hasher): (ex: Exit)
    ensures |args| != 1 ==> ex == Exit(2, [])
    ensures ex.code == 0 <==>
      |args| == 1 && Fetch(site, BundlePath(Text.Strip(args[0]))).Some? &&
      Check(site, Fetch(site, BundlePath(Text.Strip(args[0]))).value, H).Match?
    ensures ex.code == 0 ==> |ex.lines| == 4 && ex.lines[3] == "OK: verified"
    ensures ex.code in {0, EXCEPTION_STATUS, 2}
    ensures |args| == 1 ==>
      var rid := Text.Strip(args[0]);
      match Fetch(site, BundlePath(rid))
      case None => ex == Exit(EXCEPTION_STATUS, [])
      case Some(bundle) =>
        match Check(site, bundle, H)
        case Broken => ex == Exit(EXCEPTION_STATUS, [])
        case Match(d) => ex == Exit(0, Header(rid, d, d) + ["OK: verified"])
        case Mismatch(expected, actual) =>
          expected != actual && ex == Exit(1, Header(rid, expected, actual) + ["FAIL: mismatch"])
  {
    if |args| != 1 then Exit(2, [])
    else
      var rid := Text.Strip(args[0]);
      match Fetch(site, BundlePath(rid))
      case None => Exit(EXCEPTION_STATUS, [])
      case Some(bundle) =>
        match Check(site, bundle, H)
        case Broken => Exit(EXCEPTION_STATUS, [])
        case Match(actual) => Exit(0, Header(rid, actual, actual) + ["OK: verified"])
        case Mismatch(expected, actual) => Exit(1, Header(rid, expected, actual) + ["FAIL: mismatch"])
  }

  /** A bundle built from a placeholder-rule manifest entry checks out against data that still carries the placeholder. */
  lemma BuiltBundleChecks(site: map<string, Doc>, rid: string, ms: Members, H: Hasher,
                          generatedAt: string, latest: Option<Json>)
    requires Fetch(site, DataPath(rid)) == Some(Obj(ms)) && Get(ms, CONTENT_HASH) == Some(Str(PLACEHOLDER))
    ensures var entry := BuildApi.ManifestEntry(rid, Seal(H, ms, PLACEHOLDER));
      Check(site, Bundles.Bundle(rid, entry.members, generatedAt, latest), H) == Match(Seal(H, ms, PLACEHOLDER))
  {
    var d := Seal(H, ms, PLACEHOLDER);
    var entry := BuildApi.ManifestEntry(rid, d);
    var bundle := Bundles.Bundle(rid, entry.members, generatedAt, latest);
    BuiltEntryFields(rid, d);
    Bundles.BundleCopies(rid, entry.members, generatedAt, latest);
    assert StrMember(bundle, CONTENT_HASH) == Some(Sealed(d));
    assert StrMember(bundle, "data") == Some(DataPath(rid));
    PlaceholderSealMatches(site, bundle, ms, H);
  }

  /**
   * End to end: the API build seals a record under the placeholder rule, the bundle
   * generator copies that manifest entry into the record's bundle, and the script exits 0
   * on the record's id as long as the served data still carries the placeholder.
   */
  lemma BuiltBundleVerifies(site: map<string, Doc>, rid: string, ms: Members, H: Hasher,
                            generatedAt: string, latest: Option<Json>)
    requires Text.Strip(rid) == rid
    requires Fetch(site, BundlePath(rid)) ==
      Some(Bundles.Bundle(rid, BuildApi.ManifestEntry(rid, Seal(H, ms, PLACEHOLDER)).members, generatedAt, latest))
    requires Fetch(site, DataPath(rid)) == Some(Obj(ms)) && Get(ms, CONTENT_HASH) == Some(Str(PLACEHOLDER))
    ensures var d := Seal(H, ms, PLACEHOLDER);
      Run([rid], site, H) == Exit(0, Header(rid, d, d) + ["OK: verified"])
  {
    BuiltBundleChecks(site, rid, ms, H, generatedAt, latest);
  }
}
