/**
 * `build_api_v1_latest_audit.py`: read the audit log index, and publish its `latest`
 * pointer, as it stands, in `api/v1/latest-audit.json` together with the generation time and
 * a pointer back to the index. The clock is a parameter.
 */
module LatestAuditPointer {
  import opened Basics
  import opened JsonValue
  import opened JsonText
  import opened Files
  import opened Routes
  import Text
  import Audit
  import Bundles

  const NO_LATEST := "FAIL: audit/logs/index.json has no 'latest'"
  const OK_PREFIX := "OK: wrote api/v1/latest-audit.json latest="
  /** The directory `open(..., "w")` writes into; this script never creates it. */
  const API_V1_DIR := "api/v1/"

  /** A directory is present in the tree when some file lies under it. */
  predicate HasDir(files: map<string, Doc>, dir: string)
  {
    exists p :: p in files && Text.StartsWith(p, dir)
  }

  /** `idx.get("latest")` on the loaded index: None where loading raises or the index is not an object. */
  function IndexLatest(files: map<string, Doc>): (r: Option<Json>)
    ensures r.Some? <==> AUDIT_INDEX_FILE in files && files[AUDIT_INDEX_FILE].Parsed().Some? &&
                         files[AUDIT_INDEX_FILE].Parsed().value.Obj?
    ensures r.Some? ==> r.value == GetOr(files[AUDIT_INDEX_FILE].Parsed().value.members, "latest", Null)
  {
    if AUDIT_INDEX_FILE in files then
      match files[AUDIT_INDEX_FILE].Parsed()
      case Some(Obj(ms)) => Some(GetOr(ms, "latest", Null))
      case _ => None
    else None
  }

  /** The object written to `api/v1/latest-audit.json`. */
  function LatestDoc(latest: Json, now: string): (r: Json)
    ensures r.Obj? && DistinctKeys(r.members) && |r.members| == 5
    ensures Valid(r) <==> Valid(latest)
  {
    var ms := [("apiVersion", Str(API_VERSION)), ("base", Str(BASE)), ("generatedAt", Str(now)),
               ("pointer", Str(AUDIT_INDEX)), ("latest", latest)];
    assert ms[4].1 == latest;
    Obj(ms)
  }

  /** The written `latest` is the index's `latest`, verbatim, and `pointer` names the audit index. */
  lemma LatestDocFields(latest: Json, now: string)
    ensures Get(LatestDoc(latest, now).members, "latest") == Some(latest)
    ensures Get(LatestDoc(latest, now).members, "pointer") == Some(Str(AUDIT_INDEX))
  {
    var ms := LatestDoc(latest, now).members;
    GetFirstAt(ms, 3);
    GetFirstAt(ms, 4);
  }

  /** The document is stamped for API version `v1`, under the site's base, at `now`. */
  lemma LatestDocStamp(latest: Json, now: string)
    ensures Get(LatestDoc(latest, now).members, "apiVersion") == Some(Str(API_VERSION))
    ensures Get(LatestDoc(latest, now).members, "base") == Some(Str(BASE))
    ensures Get(LatestDoc(latest, now).members, "generatedAt") == Some(Str(now))
  {
    var ms := LatestDoc(latest, now).members;
    GetFirstAt(ms, 0);
    GetFirstAt(ms, 1);
    GetFirstAt(ms, 2);
  }

  /**
   * Python's `str(latest)` inside the f-string. Lists and dicts are printed by their `repr`,
   * which is given as `containerText` since it is not part of this model.
   */
  function PyStr(j: Json, containerText: Json -> string): (r: string)
    ensures j.Str? ==> r == j.s
    ensures j.Null? ==> r == "None"
    ensures j.Bool? ==> r == (if j.b then "True" else "False")
    ensures j.Int? ==> r == Text.IntText(j.i)
  {
    match j
    case Null => "None"
    case Bool(b) => if b then "True" else "False"
    case Int(i) => Text.IntText(i)
    case Str(s) => s
    case _ => containerText(j)
  }

  /**
   * The script over the tree. An index that is missing, not JSON or not an object raises;
   * a falsy `latest` (absent, null, empty) stops it with the message; without an `api/v1/`
   * directory `open` raises `FileNotFoundError` and nothing is written; otherwise the
   * document is written with `ensure_ascii=False` and the pointer reported.
   */
  method Run(fs: Store, now: string, containerText: Json -> string) returns (ex: Exit)
    modifies fs
    ensures IndexLatest(old(fs.files)).None? ==> ex == Exit(EXCEPTION_STATUS, []) && fs.files == old(fs.files)
    ensures IndexLatest(old(fs.files)).Some? && !Truthy(IndexLatest(old(fs.files)).value) ==>
      ex == Exit(EXCEPTION_STATUS, [NO_LATEST]) && fs.files == old(fs.files)
    ensures IndexLatest(old(fs.files)).Some? && Truthy(IndexLatest(old(fs.files)).value) && !HasDir(old(fs.files), API_V1_DIR) ==>
      ex == Exit(EXCEPTION_STATUS, []) && fs.files == old(fs.files)
    ensures IndexLatest(old(fs.files)).Some? && Truthy(IndexLatest(old(fs.files)).value) && HasDir(old(fs.files), API_V1_DIR) ==>
      var latest := IndexLatest(old(fs.files)).value;
      ex == Exit(RETURNED_NONE, [OK_PREFIX + PyStr(latest, containerText)]) &&
      fs.files == old(fs.files)[LATEST_AUDIT_FILE := Dumped(LatestDoc(latest, now), FILE_LAYOUT)]
  {
    var loaded := IndexLatest(fs.files);
    if loaded.None? {
      return Exit(EXCEPTION_STATUS, []);
    }
    var latest := loaded.value;
    if !Truthy(latest) {
      return Exit(EXCEPTION_STATUS, [NO_LATEST]);
    }
    if !HasDir(fs.files, API_V1_DIR) {
      return Exit(EXCEPTION_STATUS, []);
    }
    fs.WriteJson(LATEST_AUDIT_FILE, LatestDoc(latest, now), FILE_LAYOUT);
    ex := Exit(RETURNED_NONE, [OK_PREFIX + PyStr(latest, containerText)]);
  }

  /** Once the pointer has been published, `api/v1/` is present, so a later run can write it again. */
  lemma PublishedKeepsDir(files: map<string, Doc>)
    requires LATEST_AUDIT_FILE in files
    ensures HasDir(files, API_V1_DIR)
  {
    assert LATEST_AUDIT_FILE[..|API_V1_DIR|] == API_V1_DIR;
    assert Text.StartsWith(LATEST_AUDIT_FILE, API_V1_DIR);
  }

  /** After a run of the audit snapshot, the index's `latest` is the new log's pointer, which is published as it is. */
  lemma PublishesAuditSnapshot(files: map<string, Doc>, pointer: string, logs: seq<Json>, style: Style)
    requires pointer != ""
    requires AUDIT_INDEX_FILE in files && files[AUDIT_INDEX_FILE] == Dumped(Audit.UpdatedIndex(pointer, logs), style)
    ensures IndexLatest(files) == Some(Str(pointer)) && Truthy(Str(pointer))
  {
  }

  /**
   * The bundle generator picks up what this script wrote: once `api/v1/latest-audit.json`
   * holds the pointer, every bundle it writes carries that pointer as `latestAudit`.
   */
  lemma BundlesCarryLatest(files: map<string, Doc>, latest: Json, now: string)
    requires Bundles.StartOf(files[LATEST_AUDIT_FILE := Dumped(LatestDoc(latest, now), FILE_LAYOUT)]).Ready?
    ensures Bundles.StartOf(files[LATEST_AUDIT_FILE := Dumped(LatestDoc(latest, now), FILE_LAYOUT)]).latest == Some(latest)
  {
    LatestDocFields(latest, now);
  }
}
