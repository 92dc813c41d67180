/**
 * `hash_probe.py <ID>`: fetch one record and print the digest its `contentHash` claims next
 * to four candidate digests, one per way the seal might have been computed, so that the
 * matching line names the rule. Each candidate hashes a copy; the fetched record is a value
 * and stays as it was.
 */
module HashProbe {
  import opened Basics
  import opened JsonValue
  import opened JsonText
  import opened Sealing
  import opened Files
  import opened Routes
  import Text
  import Reseal

  const USAGE := "USAGE: python3 tools/hash_probe.py <ID>"
  const SORTED_MIN_MODE := "sorted_min"
  const SORTED_PRETTY_MODE := "sorted_pretty"

  /**
   * `dump_sorted(obj, mode)`: the sorted compact text, or the sorted two-space-indented text
   * followed by a newline; None where it raises `ValueError(mode)`, for any other mode.
   */
  function DumpSorted(j: Json, mode: string): (r: Option<string>)
    ensures r.None? <==> mode != SORTED_MIN_MODE && mode != SORTED_PRETTY_MODE
    ensures mode == SORTED_MIN_MODE ==> r.Some? && Utf8(r.value) == Canon(j)
    ensures mode == SORTED_PRETTY_MODE ==> r.Some? && Text.EndsWith(r.value, "\n")
    ensures mode == SORTED_PRETTY_MODE && j.Obj? ==> r == Some(Dumps(j, SORTED_PRETTY, 0) + "\n")
  {
    if mode == SORTED_MIN_MODE then Some(Dumps(j, CANONICAL, 0))
    else if mode == SORTED_PRETTY_MODE then
      var t := Dumps(j, SORTED_PRETTY, 0) + "\n";
      assert t[|t| - 1..] == "\n";
      Some(t)
    else None
  }

  /** `ch.replace("sha256:", "").strip()`: every occurrence of the prefix goes, not only a leading one. */
  function ProbeExpected(ch: string): (r: string)
    ensures |r| <= |ch|
    ensures |r| > 0 ==> !Text.IsSpace(r[0]) && !Text.IsSpace(r[|r| - 1])
    ensures (forall j :: 0 <= j <= |ch| ==> !Text.OccursAt(ch, PREFIX, j)) ==> r == Text.Strip(ch)
  {
    Text.ReplaceFirst(ch, PREFIX, "");
    Text.Strip(Text.Replace(ch, PREFIX, ""))
  }

  /**
   * The probe's reading of any `contentHash`: the text before the first `sha256:` is kept,
   * and that occurrence and every later one found by the left-to-right scan are removed,
   * before stripping.
   */
  lemma ProbeExpectedAtFirst(ch: string)
    ensures Text.Find(ch, PREFIX).None? ==> ProbeExpected(ch) == Text.Strip(ch)
    ensures Text.Find(ch, PREFIX).Some? ==>
      var i := Text.Find(ch, PREFIX).value;
      i + |PREFIX| <= |ch| &&
      ProbeExpected(ch) == Text.Strip(ch[..i] + Text.Replace(ch[i + |PREFIX|..], PREFIX, ""))
  {
    Text.ReplaceFirst(ch, PREFIX, "");
    if Text.Find(ch, PREFIX).Some? {
      var i := Text.Find(ch, PREFIX).value;
      assert ch[..i] + "" == ch[..i];
    }
  }

  /** Candidate A: the served text, hashed as it is. */
  function RawCandidate(H: Hasher, served: Doc): (r: Digest)
    ensures served.Raw? && served.parsed.Some? && served.raw == Dumps(served.parsed.value, CANONICAL, 0) ==>
      r == PlainDigest(H, served.parsed.value)
  {
    H(Utf8(served.Content()))
  }

  /** Candidate B: the record without its `contentHash` key, in canonical form. */
  function DropKeyCandidate(H: Hasher, ms: Members): (r: Digest)
    ensures !HasKey(ms, CONTENT_HASH) ==> r == PlainDigest(H, Obj(ms))
  {
    H(Canon(Obj(Pop(ms, CONTENT_HASH))))
  }

  /** The text candidate D hashes: the placeholder put in, sorted, indented, with a final newline. */
  function PrettyText(ms: Members): (r: string)
    ensures DumpSorted(Obj(Put(ms, CONTENT_HASH, Str(PLACEHOLDER))), SORTED_PRETTY_MODE) == Some(r)
    ensures |r| >= 3 && r[0] == '{' && r[|r| - 2] == '}' && r[|r| - 1] == '\n'
  {
    Dumps(Obj(Put(ms, CONTENT_HASH, Str(PLACEHOLDER))), SORTED_PRETTY, 0) + "\n"
  }

  /** Candidate D: the placeholder rule, hashed in the sorted indented layout. */
  function PrettyCandidate(H: Hasher, ms: Members): (r: Digest)
    ensures Get(ms, CONTENT_HASH) == Some(Str(PLACEHOLDER)) ==> r == H(Utf8(Dumps(Obj(ms), SORTED_PRETTY, 0) + "\n"))
  {
    if Get(ms, CONTENT_HASH) == Some(Str(PLACEHOLDER)) then
      PutExisting(ms, CONTENT_HASH, Str(PLACEHOLDER));
      H(Utf8(PrettyText(ms)))
    else H(Utf8(PrettyText(ms)))
  }

  /**
   * What the script prints for a record `rid`, one string per output line (candidate C is the
   * placeholder rule, `Seal(H, ms, PLACEHOLDER)`); the `\n` the script writes inside a message
   * shows up as an empty line.
   */
  function ProbeLines(rid: string, expected: string, a: Digest, b: Digest, c: Digest, d: Digest): (r: seq<string>)
    ensures |r| == 9 && r[2] == "" && r[7] == ""
    ensures Text.EndsWith(r[1], expected)
    ensures Text.EndsWith(r[3], a) && Text.EndsWith(r[4], b) && Text.EndsWith(r[5], c) && Text.EndsWith(r[6], d)
  {
    var r := ["ID: " + rid, "expected(contentHash): " + expected, "",
              "A raw-served-bytes:      " + a, "B drop-key+sorted_min:   " + b,
              "C placeholder+sorted_min: " + c, "D placeholder+sorted_pretty: " + d,
              "", "MATCH tells you the rule: whichever line equals expected."];
    assert r[1][|r[1]| - |expected|..] == expected;
    assert r[3][|r[3]| - |a|..] == a && r[4][|r[4]| - |b|..] == b;
    assert r[5][|r[5]| - |c|..] == c && r[6][|r[6]| - |d|..] == d;
    r
  }

  /**
   * The script with its argument list. Anything but one argument prints the usage line and
   * exits 2. The id is used as given. A record that is not served, not JSON or not an
   * object, and a `contentHash` that is present but not a string, raise before any output.
   */
  method Run(args: seq<string>, site: map<string, Doc>, H: Hasher) returns (ex: Exit)
    ensures |args| != 1 ==> ex == Exit(2, [USAGE])
    ensures |args| == 1 ==>
      var rid := args[0];
      match Fetch(site, DataPath(rid))
      case Some(Obj(ms)) =>
        (match GetOr(ms, CONTENT_HASH, Str(""))
         case Str(ch) =>
           ex == Exit(RETURNED_NONE, ProbeLines(rid, ProbeExpected(ch), RawCandidate(H, site[DataPath(rid)]),
                                                DropKeyCandidate(H, ms), Seal(H, ms, PLACEHOLDER), PrettyCandidate(H, ms)))
         case _ => ex == Exit(EXCEPTION_STATUS, []))
      case _ => ex == Exit(EXCEPTION_STATUS, [])
  {
    if |args| != 1 {
      return Exit(2, [USAGE]);
    }
    var rid := args[0];
    var url := DataPath(rid);
    if url !in site {
      return Exit(EXCEPTION_STATUS, []);
    }
    var txt := site[url];
    var obj := txt.Parsed();
    if obj.None? || !obj.value.Obj? {
      return Exit(EXCEPTION_STATUS, []);
    }
    var ms := obj.value.members;
    var ch := GetOr(ms, CONTENT_HASH, Str(""));
    if !ch.Str? {
      return Exit(EXCEPTION_STATUS, []);
    }
    var expected := ProbeExpected(ch.s);
    var a := H(Utf8(txt.Content()));
    var o := Pop(ms, CONTENT_HASH);
    var b := H(Utf8(DumpSorted(Obj(o), SORTED_MIN_MODE).value));
    o := Put(ms, CONTENT_HASH, Str(PLACEHOLDER));
    var c := H(Utf8(DumpSorted(Obj(o), SORTED_MIN_MODE).value));
    var d := H(Utf8(DumpSorted(Obj(o), SORTED_PRETTY_MODE).value));
    // No step between the prints can raise, so they are collected in one go.
    ex := Exit(RETURNED_NONE, ProbeLines(rid, expected, a, b, c, d));
  }

  /** Candidate B does not see the record's `contentHash`, nor the order of its members. */
  lemma DropKeyIgnoresContentHash(H: Hasher, ms: Members, ns: Members)
    requires Valid(Obj(ms)) && Valid(Obj(ns))
    requires forall k :: k != CONTENT_HASH ==> Get(ms, k) == Get(ns, k)
    ensures DropKeyCandidate(H, ms) == DropKeyCandidate(H, ns)
  {
    var r := Pop(ms, CONTENT_HASH);
    var s := Pop(ns, CONTENT_HASH);
    PopValid(ms, CONTENT_HASH);
    PopValid(ns, CONTENT_HASH);
    SameEntriesEquiv(r, s);
    CanonEquiv(Obj(r), Obj(s));
  }

  /** Candidate D does not see the record's `contentHash`, nor the order of its members. */
  lemma PrettyIgnoresContentHash(H: Hasher, ms: Members, ns: Members)
    requires Valid(Obj(ms)) && Valid(Obj(ns))
    requires forall k :: k != CONTENT_HASH ==> Get(ms, k) == Get(ns, k)
    ensures PrettyCandidate(H, ms) == PrettyCandidate(H, ns)
  {
    var r := Put(ms, CONTENT_HASH, Str(PLACEHOLDER));
    var s := Put(ns, CONTENT_HASH, Str(PLACEHOLDER));
    PutValid(ms, CONTENT_HASH, Str(PLACEHOLDER));
    PutValid(ns, CONTENT_HASH, Str(PLACEHOLDER));
    assert PrettyText(ms) == PrettyText(ns) by {
      SameEntriesEquiv(r, s);
      DumpsEquiv(Obj(r), Obj(s), SORTED_PRETTY, 0);
    }
  }

  /** Reading back a stored seal: the prefix goes and the digest stays. */
  lemma ProbeExpectedOfSealed(d: Digest)
    ensures ProbeExpected(Sealed(d)) == d
  {
    var s := Sealed(d);
    assert Text.StartsWith(s, PREFIX) && s[|PREFIX|..] == d;
    assert forall i :: 0 <= i < |d| ==> d[i] != PREFIX[0] by {
      forall i | 0 <= i < |d| ensures d[i] != PREFIX[0] {
        assert IsHexDigit(d[i]);
      }
    }
    Text.ReplaceAbsent(d, PREFIX, "");
    Text.ReplaceAtStart(s, PREFIX, "");
    assert Text.Replace(s, PREFIX, "") == d;
    DigestStripped(d);
    assert ProbeExpected(s) == Text.Strip(d);
  }

  /**
   * Candidate C is the rule `reg_reseal.py` seals with: on a record it resealed, the C line
   * shows exactly the digest read back from `contentHash`.
   */
  lemma ResealedMatchesPlaceholderCandidate(H: Hasher, ms: Members)
    requires Valid(Obj(ms))
    ensures var r := Reseal.Resealed(H, ms);
      GetOr(r, CONTENT_HASH, Null) == Str(Sealed(Seal(H, r, PLACEHOLDER))) &&
      ProbeExpected(Sealed(Seal(H, r, PLACEHOLDER))) == Seal(H, r, PLACEHOLDER)
  {
    Reseal.ResealStable(H, ms);
    ProbeExpectedOfSealed(Seal(H, ms, PLACEHOLDER));
  }

  /**
   * Removing every `sha256:` is not what the verifiers do: they keep what follows the first
   * one. On a doubled prefix the probe reads the bare digest while the verifiers read a
   * string that still starts with `sha256:`.
   */
  lemma ProbeExpectedRemovesEvery(d: Digest)
    ensures ProbeExpected(PREFIX + PREFIX + d) == d
    ensures Expected(PREFIX + PREFIX + d) == PREFIX + d
  {
    ProbeDoublePrefix(d);
    VerifierDoublePrefix(d);
  }

  lemma ProbeDoublePrefix(d: Digest)
    ensures ProbeExpected(PREFIX + PREFIX + d) == d
  {
    var s := PREFIX + Sealed(d);
    assert s[..|PREFIX|] == PREFIX && s[|PREFIX|..] == Sealed(d);
    Text.ReplaceAtStart(s, PREFIX, "");
    assert Text.Replace(s, PREFIX, "") == Text.Replace(Sealed(d), PREFIX, "");
    ProbeExpectedOfSealed(d);
    assert s == PREFIX + PREFIX + d;
  }

  lemma VerifierDoublePrefix(d: Digest)
    ensures Expected(PREFIX + PREFIX + d) == PREFIX + d
  {
    var s := PREFIX + PREFIX + d;
    assert Text.StartsWith(s, PREFIX) && s[|PREFIX|..] == PREFIX + d;
    Text.AfterFirstOfPrefixed(s, PREFIX);
    assert (PREFIX + d)[0] == 's' && (PREFIX + d)[|PREFIX + d| - 1] == d[|d| - 1];
    assert IsHexDigit(d[|d| - 1]);
    Text.IsSpaceAscii('s');
    Text.IsSpaceAscii(d[|d| - 1]);
    Text.StripStripped(PREFIX + d);
  }
}
