/**
 * `gen_api_v1_resolve.py`: write one resolve object per record id to
 * `api/v1/resolve/{rid}.json`, naming where the record's id page, human page and data live.
 * The ids are every `.jsonld` stem under `data/`, whatever its form.
 */
module Resolve {
  import opened Basics
  import opened JsonValue
  import opened JsonText
  import opened Files
  import opened Routes
  import Text
  import BuildApi
  import Bundles
  import ApiIndex

  /** `api/v1/resolve/{rid}.json`. */
  function ResolveFile(rid: string): string
  {
    "api/v1/resolve/" + rid + ".json"
  }

  /** Different ids get different resolve files. */
  lemma ResolveFileInjective(a: string, b: string)
    requires ResolveFile(a) == ResolveFile(b)
    ensures a == b
  {
    var n := |"api/v1/resolve/"|;
    assert a == ResolveFile(a)[n..n + |a|];
    assert b == ResolveFile(b)[n..n + |b|];
  }

  /** The resolve object of `rid`. */
  function ResolveObject(rid: string): (r: Json)
    ensures r.Obj? && Valid(r) && |r.members| == 6
  {
    Obj([("apiVersion", Str(API_VERSION)), ("base", Str(BASE)), ("id", Str(rid)),
         ("resolver", Str(ResolverPath(rid))), ("page", Str(PagePath(rid))), ("data", Str(DataPath(rid)))])
  }

  /** A resolve object names its id and its id page. */
  lemma ResolveIdFields(rid: string)
    ensures Get(ResolveObject(rid).members, "id") == Some(Str(rid))
    ensures Get(ResolveObject(rid).members, "resolver") == Some(Str(ResolverPath(rid)))
  {
    var ms := ResolveObject(rid).members;
    GetFirstAt(ms, 2);
    GetFirstAt(ms, 3);
  }

  /** A resolve object names the record's human page and its data. */
  lemma ResolvePlaceFields(rid: string)
    ensures Get(ResolveObject(rid).members, "page") == Some(Str(PagePath(rid)))
    ensures Get(ResolveObject(rid).members, "data") == Some(Str(DataPath(rid)))
  {
    var ms := ResolveObject(rid).members;
    GetFirstAt(ms, 4);
    GetFirstAt(ms, 5);
  }

  /** The files the loop writes, in order; `json.dump` keeps its default ASCII escaping. */
  function ResolveOuts(ids: seq<string>): seq<(string, Doc)>
  {
    seq(|ids|, i requires 0 <= i < |ids| => (ResolveFile(ids[i]), Dumped(ResolveObject(ids[i]), ASCII_FILE_LAYOUT)))
  }

  function Report(count: nat): string
  {
    "OK: wrote " + Text.IntText(count) + " resolve files into api/v1/resolve/"
  }

  /** The script over the tree: list the ids, write each one's resolve object, report the count. */
  method Run(fs: Store) returns (ex: Exit, ids: seq<string>)
    modifies fs
    ensures IsIdListing(ids, old(fs.files))
    ensures fs.files == WriteAll(old(fs.files), ResolveOuts(ids))
    ensures ex == Exit(RETURNED_NONE, [Report(|ids|)])
  {
    ids := ListIds(fs);
    ghost var outs := ResolveOuts(ids);
    for i := 0 to |ids|
      invariant fs.files == WriteAll(old(fs.files), outs[..i])
    {
      var rid := ids[i];
      var out := ResolveFile(rid);
      var obj := ResolveObject(rid);
      fs.WriteJson(out, obj, ASCII_FILE_LAYOUT);
      WriteAllStep(old(fs.files), outs, i);
    }
    assert outs[..|ids|] == outs;
    ex := Exit(RETURNED_NONE, [Report(|ids|)]);
  }

  /** The resolve files written are those of the listed ids. */
  lemma ResolvePaths(ids: seq<string>)
    ensures forall p :: p in Paths(ResolveOuts(ids)) <==> exists rid :: rid in ids && p == ResolveFile(rid)
  {
    var outs := ResolveOuts(ids);
    forall p ensures p in Paths(outs) <==> exists rid :: rid in ids && p == ResolveFile(rid) {
      if p in Paths(outs) {
        var j :| 0 <= j < |outs| && outs[j].0 == p;
        assert ids[j] in ids && p == ResolveFile(ids[j]);
      }
      if exists rid :: rid in ids && p == ResolveFile(rid) {
        var rid :| rid in ids && p == ResolveFile(rid);
        var j :| 0 <= j < |ids| && ids[j] == rid;
        assert outs[j].0 == p;
      }
    }
  }

  /** After the run, every record id of the tree has its own resolve file, holding its resolve object. */
  lemma OneResolvePerId(files: map<string, Doc>, ids: seq<string>, rid: string)
    requires IsIdListing(ids, files) && IsDataId(files, rid)
    ensures ResolveFile(rid) in WriteAll(files, ResolveOuts(ids))
    ensures WriteAll(files, ResolveOuts(ids))[ResolveFile(rid)] == Dumped(ResolveObject(rid), ASCII_FILE_LAYOUT)
  {
    var outs := ResolveOuts(ids);
    IdListingDistinct(ids, files);
    var i :| 0 <= i < |ids| && ids[i] == rid;
    forall j | i < j < |outs| ensures outs[j].0 != outs[i].0 {
      if outs[j].0 == outs[i].0 {
        ResolveFileInjective(ids[j], ids[i]);
      }
    }
    WriteAllLast(files, outs, i);
  }

  /** The resolve object and the bundle of a record agree on its id, id page and human page. */
  lemma AgreesWithBundle(rid: string, meta: Members, generatedAt: string, latest: Option<Json>)
    ensures var b := Bundles.Bundle(rid, meta, generatedAt, latest).members;
      Get(b, "id") == Get(ResolveObject(rid).members, "id") &&
      Get(b, "resolver") == Get(ResolveObject(rid).members, "resolver") &&
      Get(b, "page") == Get(ResolveObject(rid).members, "page")
  {
    Bundles.BundlePaths(rid, meta, generatedAt, latest);
    ResolveIdFields(rid);
    ResolvePlaceFields(rid);
  }

  /** The resolve object and the `records.json` entry of a record give the same places. */
  lemma AgreesWithRecordsList(rid: string)
    ensures var e := BuildApi.RecordEntry(rid).members;
      Get(e, "id") == Get(ResolveObject(rid).members, "id") &&
      Get(e, "data") == Get(ResolveObject(rid).members, "data") &&
      Get(e, "page") == Get(ResolveObject(rid).members, "page") &&
      Get(e, "resolver") == Get(ResolveObject(rid).members, "resolver")
  {
    var e := BuildApi.RecordEntry(rid).members;
    GetFirstAt(e, 0);
    GetFirstAt(e, 1);
    GetFirstAt(e, 2);
    GetFirstAt(e, 3);
    ResolveIdFields(rid);
    ResolvePlaceFields(rid);
  }

  /**
   * Unlike the index, resolve does not filter ids by form: a data file whose stem is not a
   * record id (such as `data/readme.jsonld`) gets a resolve file but no index entry.
   */
  lemma ResolvesUnindexedIds(files: map<string, Doc>, ids: seq<string>, names: seq<string>, rid: string)
    requires IsIdListing(ids, files)
    requires IsNameListing(names, files, "data", SUFFIX, true) && ApiIndex.AllRecordSuffixed(names)
    requires IsDataId(files, rid) && !IsRid(rid)
    ensures ResolveFile(rid) in WriteAll(files, ResolveOuts(ids))
    ensures Get(ApiIndex.IndexRecords(names), rid).None?
  {
    OneResolvePerId(files, ids, rid);
    ApiIndex.IndexedIds(files, names, rid);
  }
}
