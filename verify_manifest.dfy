/**
 * `reg_verify_manifest.py`: fetch the published manifest and, for each record in sorted
 * id order, fetch its data and compare the digest of the data as served (no
 * neutralisation) with the digest the manifest stores; count the matches and the
 * mismatches, and exit 0 when there is no mismatch, 2 otherwise.
 * The site is a map from path to served document; a request or parse that fails raises.
 */
module VerifyManifest {
  import opened Basics
  import opened JsonValue
  import opened JsonText
  import opened Sealing
  import opened Files
  import Text
  import Sorting
  import Routes
  import BuildApi

  const MANIFEST_PATH := "/api/v1/manifest.json"

  /** What the check of one record comes to. */
  datatype Verdict =
    | Broken                                        // the entry or its data makes the loop raise
    | Match(actual: Digest)
    | Mismatch(expected: string, actual: Digest)

  /** The check of one manifest entry `meta` against the data the site serves for it. */
  function Check(site: map<string, Doc>, meta: Json, H: Hasher): (v: Verdict)
    ensures v.Broken? <==>
      StrMember(meta, CONTENT_HASH).None? || StrMember(meta, "data").None? ||
      Fetch(site, StrMember(meta, "data").value).None?
    ensures v.Match? ==> v.actual == Expected(StrMember(meta, CONTENT_HASH).value)
    ensures !v.Broken? ==> v.actual == PlainDigest(H, Fetch(site, StrMember(meta, "data").value).value)
    ensures v.Mismatch? ==> v.expected == Expected(StrMember(meta, CONTENT_HASH).value) && v.expected != v.actual
  {
    match (StrMember(meta, CONTENT_HASH), StrMember(meta, "data"))
    case (Some(ch), Some(path)) =>
      (match Fetch(site, path)
       case None => Broken
       case Some(data) =>
         var actual := PlainDigest(H, data);
         if actual == Expected(ch) then Match(actual) else Mismatch(Expected(ch), actual))
    case _ => Broken
  }

  /** A manifest entry as the API build writes it holds the record's data path and its seal. */
  lemma BuiltEntryFields(rid: string, d: Digest)
    ensures StrMember(BuildApi.ManifestEntry(rid, d), CONTENT_HASH) == Some(Sealed(d))
    ensures StrMember(BuildApi.ManifestEntry(rid, d), "data") == Some(Routes.DataPath(rid))
  {
    var entry := BuildApi.ManifestEntry(rid, d);
    GetFirstAt(entry.members, 0);
    GetFirstAt(entry.members, 1);
  }

  /**
   * An entry sealed under the placeholder rule verifies against served data that still
   * carries the placeholder: then the plain digest is the placeholder-rule digest.
   */
  lemma PlaceholderSealMatches(site: map<string, Doc>, meta: Json, ms: Members, H: Hasher)
    requires StrMember(meta, CONTENT_HASH) == Some(Sealed(Seal(H, ms, PLACEHOLDER)))
    requires StrMember(meta, "data").Some? && Fetch(site, StrMember(meta, "data").value) == Some(Obj(ms))
    requires Get(ms, CONTENT_HASH) == Some(Str(PLACEHOLDER))
    ensures Check(site, meta, H) == Match(Seal(H, ms, PLACEHOLDER))
  {
    ExpectedOfSealed(Seal(H, ms, PLACEHOLDER));
    PlainMatchesTokenRule(H, ms, PLACEHOLDER);
  }

  /** So each entry the API build writes verifies against its record, served with the placeholder. */
  lemma BuiltEntryMatches(site: map<string, Doc>, rid: string, ms: Members, H: Hasher)
    requires Fetch(site, Routes.DataPath(rid)) == Some(Obj(ms))
    requires Get(ms, CONTENT_HASH) == Some(Str(PLACEHOLDER))
    ensures Check(site, BuildApi.ManifestEntry(rid, Seal(H, ms, PLACEHOLDER)), H) == Match(Seal(H, ms, PLACEHOLDER))
  {
    BuiltEntryFields(rid, Seal(H, ms, PLACEHOLDER));
    PlaceholderSealMatches(site, BuildApi.ManifestEntry(rid, Seal(H, ms, PLACEHOLDER)), ms, H);
  }

  /** The records `sorted(mani.get("records", {}).items())` walks, or None where getting them raises. */
  function Records(site: map<string, Doc>): (r: Option<Members>)
    ensures r.Some? ==> Sorting.SortedBy(r.value, MemberKey)
    ensures r.Some? ==> (match Fetch(site, MANIFEST_PATH)
                         case Some(Obj(ms)) => (match GetOr(ms, "records", Obj([]))
                                               case Obj(recs) => multiset(r.value) == multiset(recs)
                                               case _ => false)
                         case _ => false)
  {
    match Fetch(site, MANIFEST_PATH)
    case Some(Obj(ms)) =>
      var recs := GetOr(ms, "records", Obj([]));
      if recs.Obj? then Some(Sorting.SortBy(recs.members, MemberKey)) else None
    case _ => None
  }

  /** `Check` on the entry of a `(rid, meta)` pair of the records. */
  function Checker(site: map<string, Doc>, H: Hasher): ((string, Json)) -> Verdict
  {
    (m: (string, Json)) => Check(site, m.1, H)
  }

  /** The verdicts on the records, in order. */
  function Verdicts(site: map<string, Doc>, items: Members, H: Hasher): (vs: seq<Verdict>)
    ensures |vs| == |items|
  {
    Map(Checker(site, H), items)
  }

  /** How far the loop gets: the number of leading records whose check does not raise. */
  function Reached(vs: seq<Verdict>): (n: nat)
    ensures n <= |vs|
    ensures forall i :: 0 <= i < n ==> !vs[i].Broken?
    ensures n < |vs| ==> vs[n].Broken?
  {
    if |vs| == 0 || vs[0].Broken? then 0
    else
      var n := Reached(vs[1..]);
      assert forall i :: 1 <= i <= n ==> vs[i] == vs[1..][i - 1];
      1 + n
  }

  /** `ok` after the first `n` checks. */
  function OkCount(vs: seq<Verdict>, n: nat): nat
    requires n <= |vs|
  {
    if n == 0 then 0 else OkCount(vs, n - 1) + (if vs[n - 1].Match? then 1 else 0)
  }

  /** `fail` after the first `n` checks. */
  function FailCount(vs: seq<Verdict>, n: nat): nat
    requires n <= |vs|
  {
    if n == 0 then 0 else FailCount(vs, n - 1) + (if vs[n - 1].Mismatch? then 1 else 0)
  }

  /** Every record the loop finishes is counted once, as OK or as FAIL. */
  lemma {:induction false} CountsAddUp(vs: seq<Verdict>, n: nat)
    requires n <= |vs| && forall i :: 0 <= i < n ==> !vs[i].Broken?
    ensures OkCount(vs, n) + FailCount(vs, n) == n
  {
    if n > 0 {
      CountsAddUp(vs, n - 1);
    }
  }

  /** No FAIL is counted exactly when every finished check matched. */
  lemma {:induction false} NoFailIffAllMatch(vs: seq<Verdict>, n: nat)
    requires n <= |vs| && forall i :: 0 <= i < n ==> !vs[i].Broken?
    ensures FailCount(vs, n) == 0 <==> forall i :: 0 <= i < n ==> vs[i].Match?
  {
    if n > 0 {
      NoFailIffAllMatch(vs, n - 1);
    }
  }

  /** What the loop prints for one record. */
  function VerdictLines(rid: string, v: Verdict): (r: seq<string>)
    ensures |r| == match v case Broken => 0 case Match(_) => 1 case Mismatch(_, _) => 3
  {
    match v
    case Broken => []
    case Match(a) => ["OK  " + rid + " " + a]
    case Mismatch(e, a) => ["FAIL " + rid, "  expected: " + e, "  actual:   " + a]
  }

  /** What the loop prints for the first `n` records. */
  function Report(items: Members, vs: seq<Verdict>, n: nat): (r: seq<string>)
    requires n <= |items| == |vs|
    ensures |r| <= 3 * n
    ensures (forall i :: 0 <= i < n ==> vs[i].Match?) ==> |r| == n
  {
    if n == 0 then [] else Report(items, vs, n - 1) + VerdictLines(items[n - 1].0, vs[n - 1])
  }

  function Summary(ok: nat, fail: nat): (r: seq<string>)
    ensures |r| == 2 && r[0] == "" && Text.StartsWith(r[1], "SUMMARY: ok=")
  {
    ["", "SUMMARY: ok=" + Text.IntText(ok) + " fail=" + Text.IntText(fail)]
  }

  /**
   * The loop over the sorted records, with `check` the per-record check (`Checker(site, H)`
   * in the script): print each record's lines and count it as OK or FAIL; a record whose
   * check raises ends the run with status 1. When every check completes, the summary
   * follows and the status is 0 without a FAIL, 2 with one.
   */
  method CheckAll(items: Members, check: ((string, Json)) -> Verdict) returns (ex: Exit, ok: nat, fail: nat)
    ensures var vs := Map(check, items);
      var n := Reached(vs);
      ok == OkCount(vs, n) && fail == FailCount(vs, n) && ok + fail == n &&
      (n < |items| ==> ex == Exit(EXCEPTION_STATUS, Report(items, vs, n))) &&
      (n == |items| ==> ex == Exit(if fail == 0 then 0 else 2, Report(items, vs, n) + Summary(ok, fail)))
  {
    ghost var vs := Map(check, items);
    ok, fail := 0, 0;
    var lines := [];
    for i := 0 to |items|
      invariant i <= Reached(vs)
      invariant ok == OkCount(vs, i) && fail == FailCount(vs, i)
      invariant lines == Report(items, vs, i)
    {
      var rid := items[i].0;
      var v := check(items[i]);
      MapAt(check, items, i);
      match v
      case Broken =>
        assert Reached(vs) == i;
        CountsAddUp(vs, i);
        return Exit(EXCEPTION_STATUS, lines), ok, fail;
      case Match(actual) =>
        lines := lines + ["OK  " + rid + " " + actual];
        ok := ok + 1;
      case Mismatch(expected, actual) =>
        lines := lines + ["FAIL " + rid, "  expected: " + expected, "  actual:   " + actual];
        fail := fail + 1;
    }
    assert Reached(vs) == |items|;
    CountsAddUp(vs, |items|);
    lines := lines + Summary(ok, fail);
    ex := Exit(if fail == 0 then 0 else 2, lines);
  }

  /**
   * The whole script. Without a usable manifest or records object it raises before any
   * check; otherwise it runs the loop over the records in sorted id order.
   */
  method VerifyAll(site: map<string, Doc>, H: Hasher) returns (ex: Exit, ok: nat, fail: nat)
    ensures Records(site).None? ==> ex == Exit(EXCEPTION_STATUS, []) && ok == fail == 0
    ensures Records(site).Some? ==>
      var items := Records(site).value;
      var vs := Verdicts(site, items, H);
      var n := Reached(vs);
      ok == OkCount(vs, n) && fail == FailCount(vs, n) && ok + fail == n &&
      (n < |items| ==> ex == Exit(EXCEPTION_STATUS, Report(items, vs, n))) &&
      (n == |items| ==> ex == Exit(if fail == 0 then 0 else 2, Report(items, vs, n) + Summary(ok, fail)))
  {
    var mani := Fetch(site, MANIFEST_PATH);
    if mani.None? || !mani.value.Obj? {
      return Exit(EXCEPTION_STATUS, []), 0, 0;
    }
    var recs := GetOr(mani.value.members, "records", Obj([]));
    if !recs.Obj? {
      return Exit(EXCEPTION_STATUS, []), 0, 0;
    }
    var items := Sorting.SortBy(recs.members, MemberKey);
    assert Records(site) == Some(items);
    ex, ok, fail := CheckAll(items, Checker(site, H));
  }
}
