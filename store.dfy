/**
 * The working tree the tools read and write, as a map from relative path to file.
 * A file keeps its text and what `json.loads` makes of it (None when the text is not
 * JSON), so JSON parsing itself is not modelled. Directories exist implicitly.
 */
module Files {
  import opened Basics
  import opened JsonValue
  import opened JsonText
  import Text
  import Sorting

  /**
   * A file of the tree: either one as found, with its text and what `json.load` makes of
   * it (None when it is not JSON), or one a tool wrote with `json.dump(value, f, ...)`
   * followed by `f.write("\n")`, kept as the value and the layout it was written in.
   */
  datatype Doc =
    | Raw(raw: string, parsed: Option<Json>)
    | Dumped(value: Json, style: Style)
  {
    /** What `json.load` returns for the file, or None where it raises. */
    function Parsed(): Option<Json>
    {
      match this
      case Raw(_, p) => p
      case Dumped(j, _) => Some(j)
    }

    /** The file's text. */
    function Content(): string
    {
      match this
      case Raw(t, _) => t
      case Dumped(j, st) => Dumps(j, st, 0) + "\n"
    }
  }

  /**
   * `json.loads` of the document the site serves at `path` (the part of the URL after the
   * site's base), or None where the request or the parse raises.
   */
  function Fetch(site: map<string, Doc>, path: string): (r: Option<Json>)
    ensures r.Some? <==> path in site && site[path].Parsed().Some?
    ensures r.Some? ==> r == site[path].Parsed()
  {
    if path in site then site[path].Parsed() else None
  }

  /** The paths written by a sequence of writes. */
  function Paths(outs: seq<(string, Doc)>): set<string>
  {
    set i | 0 <= i < |outs| :: outs[i].0
  }

  /** The tree after writing `outs` in order over `files`. */
  function WriteAll(files: map<string, Doc>, outs: seq<(string, Doc)>): (r: map<string, Doc>)
    ensures r.Keys == files.Keys + Paths(outs)
    ensures forall p :: p in files && p !in Paths(outs) ==> r[p] == files[p]
  {
    if |outs| == 0 then files
    else
      var n := |outs| - 1;
      var prev := WriteAll(files, outs[..n]);
      assert Paths(outs) == Paths(outs[..n]) + {outs[n].0} by {
        forall p | p in Paths(outs) ensures p in Paths(outs[..n]) + {outs[n].0} {
          var i :| 0 <= i < |outs| && outs[i].0 == p;
          if i < n {
            assert outs[..n][i] == outs[i];
          }
        }
      }
      assert forall i :: 0 <= i < n ==> outs[..n][i] == outs[i];
      prev[outs[n].0 := outs[n].1]
  }

  /** The last write to a path is what the path holds afterwards. */
  lemma {:induction false} WriteAllLast(files: map<string, Doc>, outs: seq<(string, Doc)>, i: nat)
    requires i < |outs| && forall j :: i < j < |outs| ==> outs[j].0 != outs[i].0
    ensures outs[i].0 in WriteAll(files, outs) && WriteAll(files, outs)[outs[i].0] == outs[i].1
  {
    var n := |outs| - 1;
    if i < n {
      assert outs[..n][i] == outs[i];
      WriteAllLast(files, outs[..n], i);
    }
  }

  /** One more write extends the writes so far. */
  lemma WriteAllStep(files: map<string, Doc>, outs: seq<(string, Doc)>, i: nat)
    requires i < |outs|
    ensures WriteAll(files, outs[..i + 1]) == WriteAll(files, outs[..i])[outs[i].0 := outs[i].1]
  {
    assert outs[..i + 1][..i] == outs[..i];
  }

  /** A name `glob` lists in directory `dir` for the pattern `*` + `suffix`. */
  predicate Listed(files: map<string, Doc>, dir: string, suffix: string, hidden: bool, name: string)
  {
    dir + "/" + name in files && '/' !in name && Text.EndsWith(name, suffix) &&
    (hidden || !Text.StartsWith(name, "."))
  }

  predicate DistinctStrings(xs: seq<string>)
  {
    forall i, j :: 0 <= i < j < |xs| ==> xs[i] != xs[j]
  }

  const SUFFIX := ".jsonld"

  /** `os.path.splitext(name)[0]` for a record file name. */
  function Stem(name: string): string
    requires |name| >= |SUFFIX|
  {
    name[..|name| - |SUFFIX|]
  }

  lemma StemSuffix(name: string)
    requires Text.EndsWith(name, SUFFIX)
    ensures name == Stem(name) + SUFFIX
  {
    assert name == name[..|name| - |SUFFIX|] + name[|name| - |SUFFIX|..];
  }

  /** `data/{rid}.jsonld`, relative to the tree. */
  function DataFile(rid: string): string
  {
    "data/" + rid + SUFFIX
  }

  /** `rid` is the stem of a record file that `glob.glob` lists for the `.jsonld` files directly under `data`. */
  predicate IsDataId(files: map<string, Doc>, rid: string)
  {
    Listed(files, "data", SUFFIX, false, rid + SUFFIX)
  }

  /** The record ids in `sorted(...)` order: each data file's stem exactly once, ascending. */
  ghost predicate IsIdListing(ids: seq<string>, files: map<string, Doc>)
  {
    Sorting.StrictlySortedBy(ids, Sorting.Identity) &&
    forall rid :: rid in ids <==> IsDataId(files, rid)
  }

  /** There is only one id listing of a tree. */
  lemma IdListingUnique(ids: seq<string>, ids': seq<string>, files: map<string, Doc>)
    requires IsIdListing(ids, files) && IsIdListing(ids', files)
    ensures ids == ids'
  {
    Sorting.StrictlySortedUnique(ids, ids', Sorting.Identity);
  }

  /** A sorted listing names each id once. */
  lemma IdListingDistinct(ids: seq<string>, files: map<string, Doc>)
    requires IsIdListing(ids, files)
    ensures DistinctStrings(ids)
  {
    forall i, j | 0 <= i < j < |ids| ensures ids[i] != ids[j] {
      assert Text.Less(ids[i], ids[j]);
      Text.LessIrreflexive(ids[i]);
    }
  }

  class Store {
    var files: map<string, Doc>

    constructor (initial: map<string, Doc>)
      ensures files == initial
    {
      files := initial;
    }

    /** `write_json(path, j)` in the given `json.dumps` style. */
    method WriteJson(path: string, j: Json, st: Style)
      modifies this
      ensures files == old(files)[path := Dumped(j, st)]
    {
      files := files[path := Dumped(j, st)];
    }

    /**
     * The names in `dir` matching `*` + `suffix`, in no particular order; `hidden` says
     * whether names starting with a dot are included (pathlib's `glob`) or not (`glob.glob`).
     */
    method Glob(dir: string, suffix: string, hidden: bool) returns (names: seq<string>)
      ensures DistinctStrings(names)
      ensures forall n :: n in names <==> Listed(files, dir, suffix, hidden, n)
    {
      var prefix := dir + "/";
      var todo := files.Keys;
      names := [];
      while todo != {}
        invariant todo <= files.Keys
        invariant DistinctStrings(names)
        invariant forall n :: n in names <==> Listed(files, dir, suffix, hidden, n) && prefix + n !in todo
        decreases |todo|
      {
        var p :| p in todo;
        if Text.StartsWith(p, prefix) {
          var n := p[|prefix|..];
          assert p == prefix + n;
          if '/' !in n && Text.EndsWith(n, suffix) && (hidden || !Text.StartsWith(n, ".")) {
            forall m | prefix + m == p ensures m == n {
              assert m == (prefix + m)[|prefix|..];
            }
            names := names + [n];
          } else {
            forall m | prefix + m == p ensures m == n {
              assert m == (prefix + m)[|prefix|..];
            }
          }
        }
        todo := todo - {p};
      }
    }
  }

  /** The names `sorted(glob(...))` gives for `dir` and `*` + `suffix`: each listed name once, ascending. */
  ghost predicate IsNameListing(names: seq<string>, files: map<string, Doc>, dir: string, suffix: string, hidden: bool)
  {
    Sorting.StrictlySortedBy(names, Sorting.Identity) &&
    forall n :: n in names <==> Listed(files, dir, suffix, hidden, n)
  }

  /** `sorted(Path(dir).glob("*" + suffix))` (with `hidden`) or `sorted(glob.glob(...))` (without), as names. */
  method ListNames(fs: Store, dir: string, suffix: string, hidden: bool) returns (names: seq<string>)
    ensures IsNameListing(names, fs.files, dir, suffix, hidden)
  {
    var found := fs.Glob(dir, suffix, hidden);
    names := Sorting.SortStrings(found);
    forall n ensures n in names <==> n in found {
      Sorting.SortByElements(found, Sorting.Identity, n);
    }
  }

  /** `sorted(os.path.splitext(os.path.basename(p))[0] for p in glob.glob(...))` over the `.jsonld` files under `data`. */
  method ListIds(fs: Store) returns (ids: seq<string>)
    ensures IsIdListing(ids, fs.files)
  {
    var names := fs.Glob("data", SUFFIX, false);
    forall i | 0 <= i < |names| ensures Text.EndsWith(names[i], SUFFIX) && names[i] == Stem(names[i]) + SUFFIX {
      assert names[i] in names;
      StemSuffix(names[i]);
    }
    var stems := seq(|names|, i requires 0 <= i < |names| => Stem(names[i]));
    forall i, j | 0 <= i < j < |stems| ensures stems[i] != stems[j] {
      assert names[i] == stems[i] + SUFFIX && names[j] == stems[j] + SUFFIX;
    }
    forall rid ensures rid in stems <==> IsDataId(fs.files, rid) {
      if rid in stems {
        var i :| 0 <= i < |stems| && stems[i] == rid;
        assert names[i] == rid + SUFFIX;
      }
      if IsDataId(fs.files, rid) {
        var i :| 0 <= i < |names| && names[i] == rid + SUFFIX;
        assert stems[i] == rid;
      }
    }
    ids := Sorting.SortStrings(stems);
    forall rid ensures rid in ids <==> rid in stems {
      Sorting.SortByElements(stems, Sorting.Identity, rid);
    }
  }
}
