/**
 * `audit_snapshot_manifest.py`: append an audit log entry for the current manifest. The
 * entry goes to `audit/logs/<seq>.json`, where `<seq>` follows the number in the index's
 * `latest` pointer, and the index gets the new pointer as `latest` and at the end of `logs`.
 * The time stamp and the commit id are parameters; the manifest's SHA-256 is `H` of its bytes.
 */
module Audit {
  import opened Basics
  import opened JsonValue
  import opened JsonText
  import opened Sealing
  import opened Files
  import opened Routes
  import Text

  const MISSING_MANIFEST := "FAIL: missing api/v1/manifest.json (run build/release first)"
  const FIRST := "000001"

  /** The index the script starts from when there is none yet. */
  const EMPTY_INDEX := Obj([("latest", Null), ("logs", Arr([]))])

  /** `audit/logs/{seq}.json`, relative to the tree. */
  function LogFile(s: string): string
  {
    "audit/logs/" + s + ".json"
  }

  /** `/audit/logs/{seq}.json`, the pointer the index records. */
  function LogPointer(s: string): string
  {
    "/" + LogFile(s)
  }

  predicate AllDigits(s: string)
  {
    forall i :: 0 <= i < |s| ==> Text.IsDigit(s[i])
  }

  /**
   * The group `re.search(r"/(\d{6})\.json$", p)` captures, or None when there is no match.
   * `$` matches at the end or just before a final newline; a match can only start 12
   * characters before one of those two places, and only the second fits when `p` ends in a newline.
   */
  function SeqSuffix(p: string): (r: Option<string>)
    ensures r.Some? ==> |r.value| == 6 && AllDigits(r.value)
    ensures r.Some? ==> Text.EndsWith(p, "/" + r.value + ".json") || Text.EndsWith(p, "/" + r.value + ".json\n")
  {
    var t := if Text.EndsWith(p, "\n") then p[..|p| - 1] else p;
    if |t| >= 12 && t[|t| - 12] == '/' && AllDigits(t[|t| - 11..|t| - 5]) && t[|t| - 5..] == ".json" then
      CapturedAtEnd(p, t);
      Some(t[|t| - 11..|t| - 5])
    else None
  }

  /** The captured digits sit between `/` and `.json` at the end of the pointer, or just before its final newline. */
  lemma CapturedAtEnd(p: string, t: string)
    requires t == if Text.EndsWith(p, "\n") then p[..|p| - 1] else p
    requires |t| >= 12 && t[|t| - 12] == '/' && t[|t| - 5..] == ".json"
    ensures var d := t[|t| - 11..|t| - 5];
      Text.EndsWith(p, "/" + d + ".json") || Text.EndsWith(p, "/" + d + ".json\n")
  {
    var x := "/" + t[|t| - 11..|t| - 5] + ".json";
    assert t[|t| - 12..] == x;
    if Text.EndsWith(p, "\n") {
      assert p == t + "\n";
      assert p[|p| - |x + "\n"|..] == t[|t| - 12..] + "\n";
    }
  }

  /**
   * `next_seq(idx.get("latest"))`: "000001" for a falsy pointer or one that does not end in
   * `/NNNNNN.json`, else that number plus one, zero-padded to six digits; None where
   * `re.search` raises, on a truthy pointer that is not a string.
   */
  function NextSeq(latest: Json): (r: Option<string>)
    ensures !Truthy(latest) ==> r == Some(FIRST)
    ensures latest.Str? && SeqSuffix(latest.s).None? ==> r == Some(FIRST)
    ensures r.None? <==> Truthy(latest) && !latest.Str?
    ensures latest.Str? && SeqSuffix(latest.s).Some? ==>
      r == Some(Text.Pad6(Text.DigitsValue(SeqSuffix(latest.s).value) + 1))
  {
    if !Truthy(latest) then Some(FIRST)
    else if !latest.Str? then None
    else
      match SeqSuffix(latest.s)
      case None => Some(FIRST)
      case Some(d) => Some(Text.Pad6(Text.DigitsValue(d) + 1))
  }

  /** What the pattern looks for: `/NNNNNN.json` at the end, or just before a final newline. */
  function PointerTo(pre: string, d: string, nl: bool): string
  {
    pre + "/" + d + (if nl then ".json\n" else ".json")
  }

  /** Any prefix, six digits, `.json` and an optional final newline: the search captures the digits. */
  lemma SeqSuffixOf(pre: string, d: string, nl: bool)
    requires |d| == 6 && AllDigits(d)
    ensures SeqSuffix(PointerTo(pre, d, nl)) == Some(d)
  {
    var p := PointerTo(pre, d, nl);
    var t := pre + "/" + d + ".json";
    if nl {
      assert p == t + "\n";
      assert Text.EndsWith(p, "\n");
      assert p[..|p| - 1] == t;
    } else {
      assert p == t;
      assert p[|p| - 1] == 'n';
    }
    assert t[|t| - 12] == '/';
    assert t[|t| - 11..|t| - 5] == d;
    assert t[|t| - 5..] == ".json";
  }

  /** Below a million the sequence counts up by one, six digits wide, whatever the pointer's directory. */
  lemma NextSeqSuccessor(pre: string, n: nat, nl: bool)
    requires n < 1000000
    ensures NextSeq(Str(PointerTo(pre, Text.Pad6(n), nl))) == Some(Text.Pad6(n + 1))
    ensures Text.DigitsValue(Text.Pad6(n + 1)) == n + 1
    ensures n + 1 < 1000000 ==> |Text.Pad6(n + 1)| == 6
  {
    Text.Pad6Value(n);
    SeqSuffixOf(pre, Text.Pad6(n), nl);
    Text.Pad6Value(n + 1);
  }

  /** The pointers the script itself writes are of that form. */
  lemma LogPointerForm(d: string)
    ensures LogPointer(d) == PointerTo("/audit/logs", d, false)
  {
  }

  /** After 999999 comes a seven-digit number: nothing is truncated. */
  lemma NextSeqMillion()
    ensures NextSeq(Str(LogPointer("999999"))) == Some("1000000")
  {
    PadAtMillion();
    LogPointerForm("999999");
    NextSeqSuccessor("/audit/logs", 999999, false);
  }

  lemma PadAtMillion()
    ensures Text.Pad6(999999) == "999999" && Text.Pad6(1000000) == "1000000"
  {
    assert Text.DecimalText(999999) == "999999";
    Text.Pad6Value(1000000);
    assert Text.DecimalText(1000000) == "1000000";
  }

  /** A seven-digit pointer does not match the six-digit pattern, so the sequence starts over. */
  lemma NextSeqAfterMillion()
    ensures NextSeq(Str(LogPointer("1000000"))) == Some(FIRST)
  {
    var p := LogPointer("1000000");
    assert p[|p| - 1] == 'n';
    assert !Text.EndsWith(p, "\n");
    assert p[|p| - 12] == '1';
  }

  /** The audit entry for sequence `s`. */
  function Entry(s: string, time: string, gitCommit: string, manifestDigest: Digest): (r: Json)
    ensures r.Obj? && Valid(r) && |r.members| == 6
  {
    Obj([("seq", Str(s)), ("time", Str(time)), ("gitCommit", Str(gitCommit)), ("apiVersion", Str(API_VERSION)),
         ("manifest", Str("/" + MANIFEST_FILE)), ("manifestSha256", Str(Sealed(manifestDigest)))])
  }

  /** The index written back: the new pointer as `latest`, appended to the old `logs`. */
  function UpdatedIndex(latest: string, logs: seq<Json>): (r: Json)
    ensures r.Obj? && Get(r.members, "latest") == Some(Str(latest))
    ensures Get(r.members, "logs") == Some(Arr(logs + [Str(latest)]))
  {
    var r := [("latest", Str(latest)), ("logs", Arr(logs + [Str(latest)]))];
    GetFirstAt(r, 1);
    Obj(r)
  }

  /** The index after one run of the script over `idx`, or None where the run raises. */
  function NextIndex(idx: Json): (r: Option<Json>)
    ensures r.Some? <==> idx.Obj? && NextSeq(GetOr(idx.members, "latest", Null)).Some? &&
                         GetOr(idx.members, "logs", Arr([])).Arr?
    ensures r.Some? ==> r.value.Obj? && |r.value.members| == 2
  {
    match idx
    case Obj(ms) =>
      (match NextSeq(GetOr(ms, "latest", Null))
       case None => None
       case Some(s) =>
         var logs := GetOr(ms, "logs", Arr([]));
         if logs.Arr? then Some(UpdatedIndex(LogPointer(s), logs.items)) else None)
    case _ => None
  }

  /** The index only grows: the old pointers stay, in order, and the new `latest` is the last of `logs`. */
  lemma NextIndexAppends(idx: Json)
    requires idx.Obj? && NextIndex(idx).Some?
    ensures var logs := GetOr(idx.members, "logs", Arr([])).items;
      var next := NextIndex(idx).value.members;
      Get(next, "logs").Some? && Get(next, "logs").value.Arr? &&
      var newLogs := Get(next, "logs").value.items;
      |newLogs| == |logs| + 1 && newLogs[..|logs|] == logs &&
      Get(next, "latest") == Some(newLogs[|logs|])
  {
    var logs := GetOr(idx.members, "logs", Arr([])).items;
    var s := NextSeq(GetOr(idx.members, "latest", Null)).value;
    assert (logs + [Str(LogPointer(s))])[..|logs|] == logs;
  }

  /** One run over an index of the shape the script writes: the next pointer is appended. */
  lemma NextIndexStep(latest: Json, logs: seq<Json>, s: string)
    requires NextSeq(latest) == Some(s)
    ensures NextIndex(Obj([("latest", latest), ("logs", Arr(logs))])) == Some(UpdatedIndex(LogPointer(s), logs))
  {
    GetFirstAt([("latest", latest), ("logs", Arr(logs))], 1);
  }

  /** `[/audit/logs/000001.json, ..., /audit/logs/{n:06d}.json]`. */
  function Pointers(n: nat): (r: seq<Json>)
    ensures |r| == n
    ensures forall i :: 0 <= i < n ==> r[i] == Str(LogPointer(Text.Pad6(i + 1)))
  {
    if n == 0 then [] else Pointers(n - 1) + [Str(LogPointer(Text.Pad6(n)))]
  }

  /** The index after `n` runs from no index at all, or None once a run raised. */
  function Runs(n: nat): Option<Json>
  {
    if n == 0 then Some(EMPTY_INDEX)
    else
      match Runs(n - 1)
      case None => None
      case Some(idx) => NextIndex(idx)
  }

  /** After `n` runs from no index (up to a million), `logs` lists the pointers 000001 to `n` and `latest` is the last. */
  lemma {:induction false} RunsFromEmpty(n: nat)
    requires 1 <= n <= 1000000
    ensures Runs(n) == Some(Obj([("latest", Str(LogPointer(Text.Pad6(n)))), ("logs", Arr(Pointers(n)))]))
  {
    if n == 1 {
      assert Text.Pad6(1) == FIRST;
      NextIndexStep(Null, [], FIRST);
    } else {
      RunsFromEmpty(n - 1);
      LogPointerForm(Text.Pad6(n - 1));
      NextSeqSuccessor("/audit/logs", n - 1, false);
      NextIndexStep(Str(LogPointer(Text.Pad6(n - 1))), Pointers(n - 1), Text.Pad6(n));
    }
  }

  /**
   * The whole script. A missing manifest stops it with a message and nothing written; an
   * index that does not load, is not an object, or has a `latest` `next_seq` cannot take
   * raises before anything is written; `logs` that is not a list raises after the entry was
   * written. Otherwise the entry and the updated index are written.
   */
  method Run(fs: Store, H: Hasher, time: string, gitCommit: string) returns (ex: Exit)
    modifies fs
    ensures MANIFEST_FILE !in old(fs.files) ==> ex == Exit(EXCEPTION_STATUS, [MISSING_MANIFEST]) && fs.files == old(fs.files)
    ensures MANIFEST_FILE in old(fs.files) ==>
      var loaded := if AUDIT_INDEX_FILE in old(fs.files) then old(fs.files)[AUDIT_INDEX_FILE].Parsed() else Some(EMPTY_INDEX);
      if loaded.None? || !loaded.value.Obj? || NextSeq(GetOr(loaded.value.members, "latest", Null)).None? then
        ex == Exit(EXCEPTION_STATUS, []) && fs.files == old(fs.files)
      else
        var s := NextSeq(GetOr(loaded.value.members, "latest", Null)).value;
        var digest := H(Utf8(old(fs.files)[MANIFEST_FILE].Content()));
        var withEntry := old(fs.files)[LogFile(s) := Dumped(Entry(s, time, gitCommit, digest), FILE_LAYOUT)];
        match NextIndex(loaded.value)
        case None => ex == Exit(EXCEPTION_STATUS, []) && fs.files == withEntry
        case Some(next) =>
          fs.files == withEntry[AUDIT_INDEX_FILE := Dumped(next, FILE_LAYOUT)] &&
          ex == Exit(0, ["OK: wrote " + LogFile(s), "OK: updated " + AUDIT_INDEX_FILE + " latest=" + LogPointer(s)])
  {
    if MANIFEST_FILE !in fs.files {
      return Exit(EXCEPTION_STATUS, [MISSING_MANIFEST]);
    }
    var idx := Some(EMPTY_INDEX);
    if AUDIT_INDEX_FILE in fs.files {
      idx := fs.files[AUDIT_INDEX_FILE].Parsed();
    }
    if idx.None? || !idx.value.Obj? {
      return Exit(EXCEPTION_STATUS, []);
    }
    var next := NextSeq(GetOr(idx.value.members, "latest", Null));
    if next.None? {
      return Exit(EXCEPTION_STATUS, []);
    }
    var s := next.value;
    var out := LogFile(s);
    var digest := H(Utf8(fs.files[MANIFEST_FILE].Content()));
    fs.WriteJson(out, Entry(s, time, gitCommit, digest), FILE_LAYOUT);

    var latest := LogPointer(s);
    var logs := GetOr(idx.value.members, "logs", Arr([]));
    if !logs.Arr? {
      return Exit(EXCEPTION_STATUS, []);
    }
    logs := Arr(logs.items + [Str(latest)]);
    var idx2 := Obj([("latest", Str(latest)), ("logs", logs)]);
    fs.WriteJson(AUDIT_INDEX_FILE, idx2, FILE_LAYOUT);
    ex := Exit(0, ["OK: wrote " + out, "OK: updated " + AUDIT_INDEX_FILE + " latest=" + latest]);
  }
}
