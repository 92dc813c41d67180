/**
 * `issue_check.py <ID>`: check, in the working tree, that a record is ready to be cited —
 * its data file exists and carries its own bare-rule seal, and its page, its id page and
 * the audit index exist. The first check that fails prints `FAIL: <reason>` and exits 2.
 */
module IssueCheck {
  import opened Basics
  import opened JsonValue
  import opened JsonText
  import opened Sealing
  import opened Files
  import opened Routes
  import Text

  const USAGE := "USAGE: python3 tools/issue_check.py E000004"

  /** `RID_RE.match(s)` for `^[A-Z]\d{6}$`: `$` also matches just before a final newline. */
  predicate RidMatches(s: string): (b: bool)
    ensures b <==>
      (|s| == 7 || (|s| == 8 && s[7] == '\n')) && Text.IsAsciiUpper(s[0]) && forall i :: 1 <= i < 7 ==> Text.IsDigit(s[i])
  {
    assert |s| == 8 ==> forall i :: 0 <= i < 7 ==> s[..7][i] == s[i];
    IsRid(s) || (|s| == 8 && s[7] == '\n' && IsRid(s[..7]))
  }

  /**
   * Which arguments the id check lets through, in terms of the argument before upper-casing:
   * one letter of either case (or one of the two non-ASCII letters whose upper case is one
   * ASCII capital), six digits, and optionally a final newline. A character whose upper case
   * expands (`ß` to `SS`) never passes, since the second letter is not a digit.
   */
  lemma RidMatchesUpper(a: string)
    ensures RidMatches(Text.Upper(a)) <==> UpperRidShape(a)
  {
    if RidMatches(Text.Upper(a)) {
      UpperRidOnlyIf(a);
    }
    if UpperRidShape(a) {
      UpperRidIf(a);
    }
  }

  /** One letter that upper-cases to a single ASCII capital, six digits, optionally a final newline. */
  predicate UpperRidShape(a: string)
  {
    (|a| == 7 || (|a| == 8 && a[7] == '\n')) &&
    (Text.IsAsciiUpper(a[0]) || Text.IsAsciiLower(a[0]) || a[0] == '\U{0131}' || a[0] == '\U{017F}') &&
    forall i :: 1 <= i < 7 ==> Text.IsDigit(a[i])
  }

  /** A first character whose upper case expands puts a non-digit second. */
  lemma UpperHead(a: string)
    requires |a| > 0 && |Text.Upper(a)| > 1 && Text.IsDigit(Text.Upper(a)[1])
    ensures |Text.UpperChar(a[0])| == 1 && Text.Upper(a) == Text.UpperChar(a[0]) + Text.Upper(a[1..])
  {
  }

  lemma UpperRidOnlyIf(a: string)
    requires RidMatches(Text.Upper(a))
    ensures UpperRidShape(a)
  {
    var u := Text.Upper(a);
    assert |a| > 0;
    UpperHead(a);
    assert a[1..] == u[1..] by {
      var t := Text.Upper(a[1..]);
      assert t == u[1..];
      assert forall i :: 0 <= i < |t| ==> Text.IsDigit(t[i]) || t[i] == '\n' by {
        assert forall i :: 0 <= i < |t| ==> t[i] == u[i + 1];
      }
      Text.UpperOfPlain(a[1..]);
    }
    assert |Text.UpperChar(a[0])| == 1 && Text.IsAsciiUpper(Text.UpperChar(a[0])[0]);
    assert forall i :: 1 <= i < |a| ==> a[i] == u[i] by {
      forall i | 1 <= i < |a| ensures a[i] == u[i] {
        assert a[i] == a[1..][i - 1];
      }
    }
  }

  lemma UpperRidIf(a: string)
    requires UpperRidShape(a)
    ensures RidMatches(Text.Upper(a))
  {
    var u := Text.Upper(a);
    var h := Text.UpperChar(a[0]);
    Text.UpperPlain(a[1..]);
    assert u == h + a[1..];
    if |a| == 8 {
      assert u[..7] == h + a[1..7];
    }
  }

  /** `fail(msg)`: print `FAIL: msg` and exit 2. */
  function Fail(msg: string): Exit
  {
    Exit(2, ["FAIL: " + msg])
  }

  /** `page/{rid}/index.html`. */
  function PageFile(rid: string): string
  {
    "page/" + rid + "/index.html"
  }

  /** `id/{rid}/index.html`. */
  function IdFile(rid: string): string
  {
    "id/" + rid + "/index.html"
  }

  /** What a run that passes every check prints. */
  function OkLines(rid: string, expected: string): seq<string>
  {
    ["OK: " + rid, " - data: " + DataFile(rid), " - page: " + PageFile(rid), " - id:   " + IdFile(rid), " - hash: " + expected]
  }

  /** Every check passes for `rid`: the record is an object sealed under the bare rule, and the three other files exist. */
  predicate Passes(rid: string, files: map<string, Doc>, H: Hasher)
  {
    DataFile(rid) in files && files[DataFile(rid)].Parsed().Some? && files[DataFile(rid)].Parsed().value.Obj? &&
    var ms := files[DataFile(rid)].Parsed().value.members;
    StrMember(Obj(ms), CONTENT_HASH).Some? &&
    Text.StartsWith(StrMember(Obj(ms), CONTENT_HASH).value, PREFIX) &&
    Expected(StrMember(Obj(ms), CONTENT_HASH).value) == Seal(H, ms, BARE) &&
    PageFile(rid) in files && IdFile(rid) in files && AUDIT_INDEX_FILE in files
  }

  /** A passing record stores a whole digest: its seal is at least the prefix plus 64 hex digits long. */
  lemma PassesSealLength(rid: string, files: map<string, Doc>, H: Hasher)
    requires Passes(rid, files, H)
    ensures var ms := files[DataFile(rid)].Parsed().value.members;
      |StrMember(Obj(ms), CONTENT_HASH).value| >= |PREFIX| + 64
  {
    var ms := files[DataFile(rid)].Parsed().value.members;
    Text.AfterFirstOfPrefixed(StrMember(Obj(ms), CONTENT_HASH).value, PREFIX);
  }

  /**
   * The script with its argument list, over the working tree. A bad argument fails before
   * any file is looked at; then the data file, the seal's prefix, the seal itself, the page,
   * the id page and the audit index are checked in that order, each failing with status 2.
   * A data file that is not JSON or not an object, or a `contentHash` that is present but
   * not a string, raises (status 1). The loaded record is a value, so hashing its copy leaves it as it was.
   */
  method Run(args: seq<string>, files: map<string, Doc>, H: Hasher) returns (ex: Exit)
    ensures !(|args| == 1 && RidMatches(Text.Upper(args[0]))) ==> ex == Fail(USAGE)
    ensures |args| == 1 && RidMatches(Text.Upper(args[0])) ==>
      var rid := Text.Upper(args[0]);
      if DataFile(rid) !in files then ex == Fail("missing " + DataFile(rid))
      else match files[DataFile(rid)].Parsed()
        case Some(Obj(ms)) =>
          (match GetOr(ms, CONTENT_HASH, Str(""))
           case Str(ch) =>
             if !Text.StartsWith(ch, PREFIX) then ex == Fail("contentHash missing/invalid")
             else if Seal(H, ms, BARE) != Expected(ch) then
               ex == Fail("contentHash mismatch expected=" + Expected(ch) + " actual=" + Seal(H, ms, BARE))
             else if PageFile(rid) !in files then ex == Fail("missing " + PageFile(rid))
             else if IdFile(rid) !in files then ex == Fail("missing " + IdFile(rid))
             else if AUDIT_INDEX_FILE !in files then ex == Fail("missing " + AUDIT_INDEX_FILE)
             else ex == Exit(RETURNED_NONE, OkLines(rid, Expected(ch)))
           case _ => ex == Exit(EXCEPTION_STATUS, []))
        case _ => ex == Exit(EXCEPTION_STATUS, [])
    ensures ex.code == RETURNED_NONE <==> |args| == 1 && RidMatches(Text.Upper(args[0])) && Passes(Text.Upper(args[0]), files, H)
    ensures ex.code != RETURNED_NONE ==> ex == Exit(EXCEPTION_STATUS, []) || (ex.code == 2 && |ex.lines| == 1)
  {
    if |args| != 1 || !RidMatches(Text.Upper(args[0])) {
      return Fail(USAGE);
    }
    var rid := Text.Upper(args[0]);
    var dataPath := DataFile(rid);
    if dataPath !in files {
      return Fail("missing " + dataPath);
    }
    var obj := files[dataPath].Parsed();
    if obj.None? || !obj.value.Obj? {
      return Exit(EXCEPTION_STATUS, []);
    }
    var ms := obj.value.members;
    var ch := GetOr(ms, CONTENT_HASH, Str(""));
    if !ch.Str? {
      return Exit(EXCEPTION_STATUS, []);
    }
    if !Text.StartsWith(ch.s, PREFIX) {
      return Fail("contentHash missing/invalid");
    }
    var expected := Text.Strip(Text.AfterFirst(ch.s, PREFIX));
    var obj2 := Put(ms, CONTENT_HASH, Str(BARE));
    var actual := H(Canon(Obj(obj2)));
    if actual != expected {
      return Fail("contentHash mismatch expected=" + expected + " actual=" + actual);
    }
    if PageFile(rid) !in files {
      return Fail("missing " + PageFile(rid));
    }
    if IdFile(rid) !in files {
      return Fail("missing " + IdFile(rid));
    }
    if AUDIT_INDEX_FILE !in files {
      return Fail("missing " + AUDIT_INDEX_FILE);
    }
    ex := Exit(RETURNED_NONE, OkLines(rid, expected));
  }

  /**
   * A record that stores its own bare-rule seal passes the hash checks, whatever its
   * `contentHash` held when the seal was computed: once the page, the id page and the
   * audit index exist, the whole check passes.
   */
  lemma BareSealedPasses(rid: string, files: map<string, Doc>, ms: Members, H: Hasher)
    requires Valid(Obj(ms))
    requires DataFile(rid) in files
    requires files[DataFile(rid)].Parsed() == Some(Obj(Put(ms, CONTENT_HASH, Str(Sealed(Seal(H, ms, BARE))))))
    requires PageFile(rid) in files && IdFile(rid) in files && AUDIT_INDEX_FILE in files
    ensures Passes(rid, files, H)
  {
    var d := Seal(H, ms, BARE);
    var stored := Put(ms, CONTENT_HASH, Str(Sealed(d)));
    PutValid(ms, CONTENT_HASH, Str(Sealed(d)));
    SealIgnoresContentHash(stored, ms, BARE);
    ExpectedOfSealed(d);
    assert StrMember(Obj(stored), CONTENT_HASH) == Some(Sealed(d));
  }
}
