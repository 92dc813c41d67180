/**
 * `build_api_v1.py`: from the record files under `data/` and the audit log index, write
 * the v1 API: `records.json` (a list), `index.json` (a map), `manifest.json` (each id's
 * sealed hash under the placeholder rule) and one bundle per id, whose `contentHash` is
 * copied from the manifest.
 */
module BuildApi {
  import opened Basics
  import opened JsonValue
  import opened JsonText
  import opened Sealing
  import opened Files
  import opened Routes
  import Text
  import Reseal

  const RECORDS_FILE := "api/v1/records.json"
  const INDEX_FILE := "api/v1/index.json"
  const WIKI_INDEX := "/api/v1/wiki.json"

  /** `ensure_leading_slash(p)`: an empty path stays empty, any other gains a leading `/` if it lacks one. */
  function EnsureLeadingSlash(p: string): (r: string)
    ensures p == "" ==> r == ""
    ensures p != "" ==> Text.StartsWith(r, "/")
    ensures Text.StartsWith(p, "/") ==> r == p
    ensures r == p || r == "/" + p
  {
    if p == "" then p
    else if Text.StartsWith(p, "/") then p
    else "/" + p
  }

  /** Normalising a path twice is normalising it once. */
  lemma EnsureLeadingSlashIdempotent(p: string)
    ensures EnsureLeadingSlash(EnsureLeadingSlash(p)) == EnsureLeadingSlash(p)
  {
  }

  /**
   * `ensure_leading_slash(audit_idx.get("latest", ""))` on the loaded audit index, whatever
   * it holds: None when Python raises (the index is not an object, or `latest` is a truthy
   * non-string); a falsy value is passed through unchanged, since the function returns it as is.
   */
  function LatestAudit(idx: Json): (r: Option<Json>)
    ensures r.None? <==> !idx.Obj? || (Truthy(GetOr(idx.members, "latest", Str(""))) && !GetOr(idx.members, "latest", Str("")).Str?)
    ensures idx.Obj? && !Truthy(GetOr(idx.members, "latest", Str(""))) ==> r == Some(GetOr(idx.members, "latest", Str("")))
    ensures idx.Obj? && GetOr(idx.members, "latest", Str("")).Str? ==>
      r == Some(Str(EnsureLeadingSlash(GetOr(idx.members, "latest", Str("")).s)))
    ensures r.Some? && r.value.Str? && r.value.s != "" ==> Text.StartsWith(r.value.s, "/")
  {
    match idx
    case Obj(ms) =>
      var v := GetOr(ms, "latest", Str(""));
      if !Truthy(v) then Some(v)
      else if v.Str? then Some(Str(EnsureLeadingSlash(v.s)))
      else None
    case _ => None
  }

  /** One element of `records_list`. */
  function RecordEntry(rid: string): (r: Json)
    ensures r.Obj? && Valid(r) && |r.members| == 4
  {
    Obj([("id", Str(rid)), ("data", Str(DataPath(rid))), ("page", Str(PagePath(rid))), ("resolver", Str(ResolverPath(rid)))])
  }

  /** The `records_list.append(...)` loop over the ids. */
  method RecordsList(ids: seq<string>) returns (list: seq<Json>)
    ensures |list| == |ids|
    ensures forall i :: 0 <= i < |ids| ==> list[i] == RecordEntry(ids[i])
  {
    list := [];
    for i := 0 to |ids|
      invariant |list| == i
      invariant forall j :: 0 <= j < i ==> list[j] == RecordEntry(ids[j])
    {
      list := list + [RecordEntry(ids[i])];
    }
  }

  function RecordsDoc(list: seq<Json>): Json
  {
    Obj([("apiVersion", Str(API_VERSION)), ("base", Str(BASE)), ("records", Arr(list))])
  }

  /** `{ rid: f"/data/{rid}.jsonld" for rid in ids }`. */
  function IndexRecords(ids: seq<string>): (r: Members)
    ensures forall rid :: rid in ids ==> Get(r, rid) == Some(Str(DataPath(rid)))
    ensures forall k :: HasKey(r, k) ==> k in ids
  {
    var pairs := seq(|ids|, i requires 0 <= i < |ids| => (ids[i], Str(DataPath(ids[i]))));
    var r := FromPairs(pairs);
    forall rid | rid in ids ensures Get(r, rid) == Some(Str(DataPath(rid))) {
      var i :| 0 <= i < |ids| && ids[i] == rid;
      assert HasKey(pairs, rid) by { assert pairs[i].0 == rid; }
      var j :| 0 <= j < |r| && r[j].0 == rid;
      GetAt(r, j);
      FromPairsValue(pairs, j);
    }
    forall k | HasKey(r, k) ensures k in ids {
      var i :| 0 <= i < |pairs| && pairs[i].0 == k;
      assert ids[i] == k;
    }
    r
  }

  /** Every value `FromPairs` keeps is one of the values given for that key. */
  lemma {:induction false} FromPairsValue(pairs: Members, j: nat)
    requires j < |FromPairs(pairs)|
    ensures exists i :: 0 <= i < |pairs| && pairs[i] == FromPairs(pairs)[j]
  {
    var n := |pairs| - 1;
    var prev := FromPairs(pairs[..n]);
    var r := FromPairs(pairs);
    if r[j] == pairs[n] {
    } else {
      assert r[j] in prev;
      var m :| 0 <= m < |prev| && prev[m] == r[j];
      FromPairsValue(pairs[..n], m);
      var i :| 0 <= i < n && pairs[..n][i] == r[j];
      assert pairs[i] == r[j];
    }
  }

  function IndexDoc(ids: seq<string>): Json
  {
    Obj([("apiVersion", Str(API_VERSION)), ("base", Str(BASE)), ("latestAudit", Str(AUDIT_INDEX)),
         ("wikiIndex", Str(WIKI_INDEX)), ("records", Obj(IndexRecords(ids)))])
  }

  /** `load_json(f"data/{rid}.jsonld")` when it yields an object; None when loading or the assignment raises. */
  function LoadRecord(files: map<string, Doc>, rid: string): (r: Option<Members>)
    ensures DataFile(rid) !in files ==> r.None?
    ensures DataFile(rid) in files && files[DataFile(rid)].Dumped? && files[DataFile(rid)].value.Obj? ==>
      r == Some(files[DataFile(rid)].value.members)
    ensures r.Some? ==> files[DataFile(rid)].Parsed() == Some(Obj(r.value))
  {
    if DataFile(rid) in files && files[DataFile(rid)].Parsed().Some? && files[DataFile(rid)].Parsed().value.Obj?
    then Some(files[DataFile(rid)].Parsed().value.members)
    else None
  }

  /** `manifest_recs[rid]`: where the record lives and its sealed hash. */
  function ManifestEntry(rid: string, d: Digest): (r: Json)
    ensures r.Obj? && Valid(r)
  {
    Obj([("data", Str(DataPath(rid))), (CONTENT_HASH, Str(Sealed(d)))])
  }

  /** The assignment `manifest_recs[rid] = ...` the loop makes for one id, or None where loading its record raises. */
  function ManifestPair(files: map<string, Doc>, H: Hasher, rid: string): Option<(string, Json)>
  {
    match LoadRecord(files, rid)
    case None => None
    case Some(ms) => Some((rid, ManifestEntry(rid, Seal(H, ms, PLACEHOLDER))))
  }

  /** The loop body, as a function of the id. */
  function ManifestStep(files: map<string, Doc>, H: Hasher): string -> Option<(string, Json)>
  {
    rid => ManifestPair(files, H, rid)
  }

  /** The assignments the loop makes over the first `k` ids, or None once one raises. */
  function ManifestPairs(files: map<string, Doc>, ids: seq<string>, k: nat, H: Hasher): (r: Option<Members>)
    requires k <= |ids|
    ensures r.Some? ==> |r.value| == k
  {
    TryMap(ManifestStep(files, H), ids, k)
  }

  /** `manifest_recs` after the loop has visited the first `k` ids, or None if a record failed to load. */
  function ManifestAfter(files: map<string, Doc>, ids: seq<string>, k: nat, H: Hasher): Option<Members>
    requires k <= |ids|
  {
    match ManifestPairs(files, ids, k, H)
    case None => None
    case Some(p) => Some(FromPairs(p))
  }

  /** The first `k` ids' records all load as objects. */
  predicate AllLoad(files: map<string, Doc>, ids: seq<string>, k: nat)
    requires k <= |ids|
  {
    forall i :: 0 <= i < k ==> LoadRecord(files, ids[i]).Some?
  }

  /** The manifest loop raises exactly when some record does not load. */
  lemma ManifestDefined(files: map<string, Doc>, ids: seq<string>, k: nat, H: Hasher)
    requires k <= |ids|
    ensures ManifestPairs(files, ids, k, H).Some? <==> AllLoad(files, ids, k)
  {
    TryMapDefined(ManifestStep(files, H), ids, k);
    forall i | 0 <= i < k
      ensures ManifestStep(files, H)(ids[i]).Some? <==> LoadRecord(files, ids[i]).Some?
    {
      assert ManifestStep(files, H)(ids[i]) == ManifestPair(files, H, ids[i]);
    }
  }

  /** The seal the manifest loop computes for a record that loads. */
  function RecordSeal(files: map<string, Doc>, rid: string, H: Hasher): Digest
    requires LoadRecord(files, rid).Some?
  {
    Seal(H, LoadRecord(files, rid).value, PLACEHOLDER)
  }

  /** The `i`-th assignment the loop makes stores the placeholder-rule seal of that id's record. */
  lemma ManifestPairAt(files: map<string, Doc>, ids: seq<string>, k: nat, H: Hasher, i: nat)
    requires i < k <= |ids| && ManifestPairs(files, ids, k, H).Some?
    ensures LoadRecord(files, ids[i]).Some?
    ensures ManifestPairs(files, ids, k, H).value[i] == (ids[i], ManifestEntry(ids[i], RecordSeal(files, ids[i], H)))
  {
    TryMapAt(ManifestStep(files, H), ids, k, i);
    assert ManifestStep(files, H)(ids[i]) == ManifestPair(files, H, ids[i]);
  }

  /**
   * With distinct ids (as a sorted listing has) the manifest holds exactly the ids, in
   * order, each mapped to the placeholder-rule seal of its record, whatever that record stores.
   */
  lemma ManifestEntries(files: map<string, Doc>, ids: seq<string>, H: Hasher)
    requires DistinctStrings(ids) && AllLoad(files, ids, |ids|)
    ensures ManifestAfter(files, ids, |ids|, H).Some?
    ensures |ManifestAfter(files, ids, |ids|, H).value| == |ids|
    ensures forall i :: 0 <= i < |ids| ==>
      ManifestAfter(files, ids, |ids|, H).value[i] == (ids[i], ManifestEntry(ids[i], RecordSeal(files, ids[i], H)))
    ensures forall i :: 0 <= i < |ids| ==>
      Get(ManifestAfter(files, ids, |ids|, H).value, ids[i]) == Some(ManifestEntry(ids[i], RecordSeal(files, ids[i], H)))
  {
    ManifestDefined(files, ids, |ids|, H);
    var p := ManifestPairs(files, ids, |ids|, H).value;
    forall i | 0 <= i < |ids|
      ensures p[i] == (ids[i], ManifestEntry(ids[i], RecordSeal(files, ids[i], H)))
    {
      ManifestPairAt(files, ids, |ids|, H, i);
    }
    FromPairsDistinct(p);
    forall i | 0 <= i < |ids| ensures Get(p, ids[i]) == Some(ManifestEntry(ids[i], RecordSeal(files, ids[i], H))) {
      GetAt(p, i);
    }
  }

  /** `obj["contentHash"] = PLACEHOLDER` then `sha256_hex(canonical_placeholder_sorted_min(obj))`. */
  method SealPlaceholder(obj: Members, H: Hasher) returns (sealed: Digest)
    ensures sealed == Seal(H, obj, PLACEHOLDER)
  {
    var o := Put(obj, CONTENT_HASH, Str(PLACEHOLDER));
    sealed := H(Canon(Obj(o)));
  }

  /** One more loaded record adds its assignment to the dict built so far. */
  lemma ManifestAfterStep(files: map<string, Doc>, ids: seq<string>, k: nat, H: Hasher)
    requires k < |ids| && ManifestAfter(files, ids, k, H).Some? && LoadRecord(files, ids[k]).Some?
    ensures ManifestAfter(files, ids, k + 1, H) ==
      Some(Put(ManifestAfter(files, ids, k, H).value, ids[k], ManifestEntry(ids[k], RecordSeal(files, ids[k], H))))
  {
    var p := ManifestPairs(files, ids, k, H).value;
    var x := (ids[k], ManifestEntry(ids[k], RecordSeal(files, ids[k], H)));
    assert ManifestStep(files, H)(ids[k]) == Some(x);
    assert ManifestPairs(files, ids, k + 1, H) == Some(p + [x]);
    assert (p + [x])[..|p|] == p;
  }

  /** A record that does not load makes the whole loop raise. */
  lemma ManifestFails(files: map<string, Doc>, ids: seq<string>, k: nat, H: Hasher)
    requires k < |ids| && LoadRecord(files, ids[k]).None?
    ensures ManifestAfter(files, ids, |ids|, H).None?
  {
    ManifestDefined(files, ids, |ids|, H);
  }

  /** The loop that fills `manifest_recs`, one record at a time. */
  method BuildManifest(files: map<string, Doc>, ids: seq<string>, H: Hasher) returns (recs: Option<Members>)
    ensures recs == ManifestAfter(files, ids, |ids|, H)
  {
    var acc: Members := [];
    for i := 0 to |ids|
      invariant ManifestAfter(files, ids, i, H) == Some(acc)
    {
      var loaded := LoadRecord(files, ids[i]);
      if loaded.None? {
        ManifestFails(files, ids, i, H);
        return None;
      }
      var sealed := SealPlaceholder(loaded.value, H);
      ManifestAfterStep(files, ids, i, H);
      acc := Put(acc, ids[i], ManifestEntry(ids[i], sealed));
    }
    return Some(acc);
  }

  function ManifestDoc(recs: Members): Json
  {
    Obj([("apiVersion", Str(API_VERSION)), ("base", Str(BASE)), ("latestAudit", Str(AUDIT_INDEX)), ("records", Obj(recs))])
  }

  /** The bundle written for `rid`, given the `contentHash` read back from `manifest_recs[rid]`. */
  function BundleDoc(rid: string, sealedHash: Json, latest: Json): (r: Json)
    ensures r.Obj? && DistinctKeys(r.members) && |r.members| == 9
    ensures Valid(r) <==> Valid(sealedHash) && Valid(latest)
  {
    var ms := [("apiVersion", Str(API_VERSION)), ("base", Str(BASE)), ("id", Str(rid)),
               ("resolver", Str(ResolverPath(rid))), ("page", Str(PagePath(rid))), ("data", Str(DataPath(rid))),
               (CONTENT_HASH, sealedHash), ("latestAuditPointer", Str(AUDIT_INDEX)), ("latestAudit", latest)];
    assert ms[6].1 == sealedHash && ms[8].1 == latest;
    Obj(ms)
  }

  /** `manifest_recs[rid]["contentHash"]`, or None where that lookup would raise. */
  function ManifestHash(recs: Members, rid: string): Option<Json>
  {
    match Get(recs, rid)
    case Some(Obj(e)) => Get(e, CONTENT_HASH)
    case _ => None
  }

  /** Reading `manifest_recs[rid]["contentHash"]` back gives the seal the manifest loop stored. */
  lemma ManifestHashOf(files: map<string, Doc>, ids: seq<string>, H: Hasher, i: nat)
    requires DistinctStrings(ids) && i < |ids| && AllLoad(files, ids, |ids|)
    ensures ManifestAfter(files, ids, |ids|, H).Some?
    ensures ManifestHash(ManifestAfter(files, ids, |ids|, H).value, ids[i]) ==
      Some(Str(Sealed(RecordSeal(files, ids[i], H))))
  {
    ManifestEntries(files, ids, H);
    var recs := ManifestAfter(files, ids, |ids|, H).value;
    var d := RecordSeal(files, ids[i], H);
    assert Get(recs, ids[i]) == Some(ManifestEntry(ids[i], d));
    ManifestEntryHash(ids[i], d);
  }

  /** A manifest entry's `contentHash` is the sealed digest it was built with, and its `data` the record's path. */
  lemma ManifestEntryHash(rid: string, d: Digest)
    ensures Get(ManifestEntry(rid, d).members, CONTENT_HASH) == Some(Str(Sealed(d)))
    ensures Get(ManifestEntry(rid, d).members, "data") == Some(Str(DataPath(rid)))
  {
    GetFirstAt(ManifestEntry(rid, d).members, 0);
    GetFirstAt(ManifestEntry(rid, d).members, 1);
  }

  /** The bundle never recomputes: its `contentHash` is the value read from the manifest. */
  lemma BundleHash(rid: string, sealedHash: Json, latest: Json)
    ensures Get(BundleDoc(rid, sealedHash, latest).members, CONTENT_HASH) == Some(sealedHash)
  {
    GetAt(BundleDoc(rid, sealedHash, latest).members, 6);
  }

  /** Every bundle carries the normalised `latest` of the audit index, whatever the record. */
  lemma BundleLatestAudit(rid: string, sealedHash: Json, latest: Json)
    ensures Get(BundleDoc(rid, sealedHash, latest).members, "latestAudit") == Some(latest)
  {
    var b := BundleDoc(rid, sealedHash, latest).members;
    assert b[8] == ("latestAudit", latest);
    assert forall j :: 0 <= j < 8 ==> b[j].0 != "latestAudit" by {
      assert b[6].0[0] != 'l';
    }
    GetFirstAt(b, 8);
  }

  /**
   * The manifest and `reg_reseal.py` agree: the hash the manifest stores for a record is the
   * one resealing that record would store in its `contentHash`.
   */
  lemma ManifestAgreesWithReseal(files: map<string, Doc>, ids: seq<string>, H: Hasher, i: nat)
    requires DistinctStrings(ids) && i < |ids| && AllLoad(files, ids, |ids|)
    ensures ManifestAfter(files, ids, |ids|, H).Some?
    ensures ManifestHash(ManifestAfter(files, ids, |ids|, H).value, ids[i]) ==
      Get(Reseal.Resealed(H, LoadRecord(files, ids[i]).value), CONTENT_HASH)
  {
    ManifestHashOf(files, ids, H, i);
  }

  /**
   * Every bundle a build writes carries, under `latestAudit`, the audit index's `latest`
   * passed through `ensure_leading_slash`: the same value for every record.
   */
  lemma BundlesCarryLatest(files: map<string, Doc>, ids: seq<string>, recs: Members, i: nat)
    requires LatestOf(files).Some? && i < |ids|
    requires forall k :: 0 <= k < |ids| ==> ManifestHash(recs, ids[k]).Some?
    ensures var idx := files[AUDIT_INDEX_FILE].Parsed().value;
      var v := GetOr(idx.members, "latest", Str(""));
      var out := BundleOuts(ids, recs, LatestOf(files).value)[i];
      out.0 == BundleFile(ids[i]) && out.1.Parsed().Some? && out.1.Parsed().value.Obj? &&
      Get(out.1.Parsed().value.members, "latestAudit") == Some(if v.Str? then Str(EnsureLeadingSlash(v.s)) else v)
  {
    var out := BundleOuts(ids, recs, LatestOf(files).value)[i];
    BundleLatestAudit(ids[i], ManifestHash(recs, ids[i]).value, LatestOf(files).value);
  }

  /** The bundle files, in the order the loop writes them. */
  function BundleOuts(ids: seq<string>, recs: Members, latest: Json): seq<(string, Doc)>
    requires forall i :: 0 <= i < |ids| ==> ManifestHash(recs, ids[i]).Some?
  {
    seq(|ids|, i requires 0 <= i < |ids| =>
      (BundleFile(ids[i]), Dumped(BundleDoc(ids[i], ManifestHash(recs, ids[i]).value, latest), FILE_LAYOUT)))
  }

  /** The bundle loop: one file per id, each carrying the hash read from the manifest. */
  method WriteBundles(fs: Store, ids: seq<string>, recs: Members, latest: Json)
    requires forall i :: 0 <= i < |ids| ==> ManifestHash(recs, ids[i]).Some?
    modifies fs
    ensures fs.files == WriteAll(old(fs.files), BundleOuts(ids, recs, latest))
  {
    ghost var outs := BundleOuts(ids, recs, latest);
    for i := 0 to |ids|
      invariant fs.files == WriteAll(old(fs.files), outs[..i])
    {
      var sealedHash := ManifestHash(recs, ids[i]).value;
      fs.WriteJson(BundleFile(ids[i]), BundleDoc(ids[i], sealedHash, latest), FILE_LAYOUT);
      WriteAllStep(old(fs.files), outs, i);
    }
    assert outs[..|ids|] == outs;
  }

  /** `records.json` and `index.json`, the first two outputs. */
  function Front(files: map<string, Doc>, ids: seq<string>): map<string, Doc>
  {
    files[RECORDS_FILE := Dumped(RecordsDoc(seq(|ids|, i requires 0 <= i < |ids| => RecordEntry(ids[i]))), FILE_LAYOUT)]
         [INDEX_FILE := Dumped(IndexDoc(ids), FILE_LAYOUT)]
  }

  /** The audit index as loaded and normalised, or None where loading or normalising raises. */
  function LatestOf(files: map<string, Doc>): Option<Json>
  {
    if AUDIT_INDEX_FILE in files && files[AUDIT_INDEX_FILE].Parsed().Some?
    then LatestAudit(files[AUDIT_INDEX_FILE].Parsed().value)
    else None
  }

  /**
   * The whole build over the tree. `ids` is the sorted listing of record ids. A missing or
   * unusable audit index raises before anything is written; a record that does not load
   * raises after `records.json` and `index.json` are written; otherwise every output is
   * written, in the order of the source.
   */
  method Run(fs: Store, H: Hasher) returns (ex: Exit, ids: seq<string>)
    modifies fs
    ensures IsIdListing(ids, old(fs.files))
    ensures LatestOf(old(fs.files)).None? ==> ex == Exit(EXCEPTION_STATUS, []) && fs.files == old(fs.files)
    ensures LatestOf(old(fs.files)).Some? && !AllLoad(old(fs.files), ids, |ids|) ==>
      ex == Exit(EXCEPTION_STATUS, []) && fs.files == Front(old(fs.files), ids)
    ensures LatestOf(old(fs.files)).Some? && AllLoad(old(fs.files), ids, |ids|) ==>
      ManifestAfter(old(fs.files), ids, |ids|, H).Some?
    ensures LatestOf(old(fs.files)).Some? && ManifestAfter(old(fs.files), ids, |ids|, H).Some? ==>
      var recs := ManifestAfter(old(fs.files), ids, |ids|, H).value;
      (forall i :: 0 <= i < |ids| ==>
         LoadRecord(old(fs.files), ids[i]).Some? &&
         ManifestHash(recs, ids[i]) == Some(Str(Sealed(RecordSeal(old(fs.files), ids[i], H))))) &&
      ex == Exit(RETURNED_NONE, ["OK: built api/v1 (ids=" + Text.IntText(|ids|) + ")"]) &&
      fs.files == WriteAll(Front(old(fs.files), ids)[MANIFEST_FILE := Dumped(ManifestDoc(recs), FILE_LAYOUT)],
                           BundleOuts(ids, recs, LatestOf(old(fs.files)).value))
  {
    ids := ListIds(fs);
    var tree := fs.files;
    var latestAudit := LatestOf(fs.files);
    if latestAudit.None? {
      return Exit(EXCEPTION_STATUS, []), ids;
    }
    var latest := latestAudit.value;

    var list := RecordsList(ids);
    assert list == seq(|ids|, i requires 0 <= i < |ids| => RecordEntry(ids[i]));
    fs.WriteJson(RECORDS_FILE, RecordsDoc(list), FILE_LAYOUT);
    fs.WriteJson(INDEX_FILE, IndexDoc(ids), FILE_LAYOUT);
    assert fs.files == Front(tree, ids);

    var manifest := BuildManifest(tree, ids, H);
    ManifestDefined(tree, ids, |ids|, H);
    IdListingDistinct(ids, tree);
    if manifest.None? {
      return Exit(EXCEPTION_STATUS, []), ids;
    }
    var recs := manifest.value;
    fs.WriteJson(MANIFEST_FILE, ManifestDoc(recs), FILE_LAYOUT);

    forall i | 0 <= i < |ids| ensures ManifestHash(recs, ids[i]) == Some(Str(Sealed(RecordSeal(tree, ids[i], H)))) {
      ManifestHashOf(tree, ids, H, i);
    }
    WriteBundles(fs, ids, recs, latest);
    ex := Exit(RETURNED_NONE, ["OK: built api/v1 (ids=" + Text.IntText(|ids|) + ")"]);
  }
}
