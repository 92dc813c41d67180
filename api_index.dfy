/**
 * `gen_api_v1_index.py`: list the `.jsonld` files under `data/` in sorted order, keep only
 * those named like a record id (`^[A-Z]\d{6}\.jsonld$`), map each id to its data path, and
 * write the map to `api/v1/index.json`.
 */
module ApiIndex {
  import opened Basics
  import opened JsonValue
  import opened JsonText
  import opened Files
  import opened Routes
  import Text
  import Sorting

  const INDEX_FILE := "api/v1/index.json"

  /** A record file name: a record id followed by `.jsonld`. */
  predicate IsRidFile(name: string)
  {
    |name| == 14 && IsRid(name[..7]) && name[7..] == SUFFIX
  }

  /** `pat.match(name)`: `$` also matches just before a final newline. */
  predicate NameMatches(name: string): (b: bool)
    ensures b ==> |name| >= 14 && IsRid(name[..7]) && name[7..14] == SUFFIX
    ensures b && |name| == 15 ==> name[14] == '\n'
  {
    IsRidFile(name) || (|name| == 15 && name[14] == '\n' && IsRidFile(name[..14]))
  }

  /** Among the names the glob lists, all ending in `.jsonld`, the pattern picks exactly the record file names. */
  lemma MatchesListedName(name: string)
    requires Text.EndsWith(name, SUFFIX)
    ensures NameMatches(name) <==> IsRidFile(name)
  {
    if |name| == 15 && name[14] == '\n' {
      assert false;
    }
  }

  /** A hidden name (one starting with a dot) never matches, so pathlib listing them makes no difference. */
  lemma HiddenNeverMatches(name: string)
    requires Text.StartsWith(name, ".")
    ensures !NameMatches(name)
  {
    assert name[0] == '.';
    if |name| >= 14 {
      assert name[..7][0] == '.' && name[..14][..7][0] == '.';
    }
  }

  predicate AllRecordSuffixed(names: seq<string>)
  {
    forall i :: 0 <= i < |names| ==> Text.EndsWith(names[i], SUFFIX)
  }

  /** `records` after the loop has visited `names` in order: each matching name's stem mapped to `/data/{name}`. */
  function IndexRecords(names: seq<string>): (r: Members)
    requires AllRecordSuffixed(names)
    ensures |r| <= |names| && DistinctKeys(r)
    ensures forall i :: 0 <= i < |r| ==> r[i].1.Str?
  {
    if |names| == 0 then []
    else
      var n := |names| - 1;
      var prev := IndexRecords(names[..n]);
      var name := names[n];
      if NameMatches(name) then Put(prev, Stem(name), Str("/data/" + name)) else prev
  }

  /** The matching names, in order. */
  function Matching(names: seq<string>): (r: seq<string>)
    ensures forall x :: x in r <==> x in names && NameMatches(x)
  {
    if |names| == 0 then []
    else
      var n := |names| - 1;
      assert forall x :: x in names <==> x in names[..n] || x == names[n];
      Matching(names[..n]) + (if NameMatches(names[n]) then [names[n]] else [])
  }

  /** The index entry of a record file name. */
  function Entry(name: string): (r: (string, Json))
    requires Text.EndsWith(name, SUFFIX)
    ensures r.0 + SUFFIX == name && r.1 == Str("/data/" + name)
  {
    StemSuffix(name);
    (Stem(name), Str("/data/" + name))
  }

  /**
   * The records map sends exactly the ids whose record file is listed to their data path,
   * `/data/{rid}.jsonld`; every other key is absent.
   */
  lemma {:induction false} IndexRecordsGet(names: seq<string>, k: string)
    requires AllRecordSuffixed(names)
    ensures Get(IndexRecords(names), k) == if IsRid(k) && k + SUFFIX in names then Some(Str(DataPath(k))) else None
  {
    if |names| > 0 {
      var n := |names| - 1;
      var name := names[n];
      assert AllRecordSuffixed(names[..n]);
      IndexRecordsGet(names[..n], k);
      assert k + SUFFIX in names <==> k + SUFFIX in names[..n] || k + SUFFIX == name by {
        assert names == names[..n] + [name];
      }
      StemSuffix(name);
      if NameMatches(name) {
        MatchesListedName(name);
        assert Stem(name) == name[..7];
        if Stem(name) == k {
          assert name == k + SUFFIX;
          assert "/data/" + name == DataPath(k);
        } else {
          assert k + SUFFIX != name;
        }
      }
    }
  }

  /**
   * With the names listed once each (as a sorted listing has them), the records are the
   * matching names' entries, inserted in the order of the listing.
   */
  lemma {:induction false} IndexRecordsInOrder(names: seq<string>)
    requires AllRecordSuffixed(names) && DistinctStrings(names)
    ensures AllRecordSuffixed(Matching(names))
    ensures IndexRecords(names) == seq(|Matching(names)|, i requires 0 <= i < |Matching(names)| => Entry(Matching(names)[i]))
  {
    var m := Matching(names);
    assert AllRecordSuffixed(m) by {
      forall i | 0 <= i < |m| ensures Text.EndsWith(m[i], SUFFIX) {
        assert m[i] in names;
      }
    }
    if |names| > 0 {
      var n := |names| - 1;
      var prev := names[..n];
      var name := names[n];
      assert AllRecordSuffixed(prev) && DistinctStrings(prev);
      IndexRecordsInOrder(prev);
      if NameMatches(name) {
        MatchesListedName(name);
        StemSuffix(name);
        IndexRecordsGet(prev, Stem(name));
        assert name !in prev;
        assert !HasKey(IndexRecords(prev), Stem(name));
      }
    }
  }

  /** The object written to `api/v1/index.json`. */
  function IndexDoc(records: Members): Json
  {
    Obj([("apiVersion", Str(API_VERSION)), ("base", Str(BASE)), ("latestAudit", Str(AUDIT_INDEX)), ("records", Obj(records))])
  }

  /** The index points at the audit log index and carries the records map. */
  lemma IndexDocFields(records: Members)
    ensures Get(IndexDoc(records).members, "latestAudit") == Some(Str(AUDIT_INDEX))
    ensures Get(IndexDoc(records).members, "records") == Some(Obj(records))
    ensures Get(IndexDoc(records).members, "apiVersion") == Some(Str(API_VERSION))
  {
    var ms := IndexDoc(records).members;
    GetFirstAt(ms, 0);
    GetFirstAt(ms, 2);
    GetFirstAt(ms, 3);
  }

  /** The line the script prints. */
  function Report(count: nat): string
  {
    "OK: wrote api/v1/index.json with " + Text.IntText(count) + " records"
  }

  /**
   * The script over the tree. `names` is the sorted listing of the `.jsonld` names under
   * `data` as pathlib makes it (hidden names included); the loop fills `records` from it
   * and the index is written with `json.dumps`' default ASCII escaping.
   */
  method Run(fs: Store) returns (ex: Exit, names: seq<string>)
    modifies fs
    ensures IsNameListing(names, old(fs.files), "data", SUFFIX, true)
    ensures AllRecordSuffixed(names)
    ensures fs.files == old(fs.files)[INDEX_FILE := Dumped(IndexDoc(IndexRecords(names)), ASCII_FILE_LAYOUT)]
    ensures ex == Exit(RETURNED_NONE, [Report(|IndexRecords(names)|)])
  {
    names := ListNames(fs, "data", SUFFIX, true);
    assert AllRecordSuffixed(names) by {
      forall i | 0 <= i < |names| ensures Text.EndsWith(names[i], SUFFIX) {
        assert names[i] in names;
      }
    }
    var records: Members := [];
    for i := 0 to |names|
      invariant AllRecordSuffixed(names[..i])
      invariant records == IndexRecords(names[..i])
    {
      var name := names[i];
      assert names[..i + 1][..i] == names[..i];
      assert AllRecordSuffixed(names[..i + 1]);
      if NameMatches(name) {
        records := Put(records, Stem(name), Str("/data/" + name));
      }
    }
    assert names[..|names|] == names;
    fs.WriteJson(INDEX_FILE, IndexDoc(records), ASCII_FILE_LAYOUT);
    ex := Exit(RETURNED_NONE, [Report(|records|)]);
  }

  /**
   * The index lists a data file's id exactly when the file name has the record-id form: a
   * file such as `data/readme.jsonld` is left out, and so is a hidden one.
   */
  lemma IndexedIds(files: map<string, Doc>, names: seq<string>, rid: string)
    requires IsNameListing(names, files, "data", SUFFIX, true) && AllRecordSuffixed(names)
    ensures Get(IndexRecords(names), rid).Some? <==> IsRid(rid) && IsDataId(files, rid)
    ensures Get(IndexRecords(names), rid).Some? ==> Get(IndexRecords(names), rid) == Some(Str(DataPath(rid)))
  {
    IndexRecordsGet(names, rid);
    var name := rid + SUFFIX;
    assert IsRid(rid) ==> (name in names <==> IsDataId(files, rid)) by {
      if IsRid(rid) {
        assert name[0] == rid[0];
        assert !Text.StartsWith(name, ".");
        assert name in names <==> Listed(files, "data", SUFFIX, true, name);
      }
    }
  }
}
