/**
 * `reg_verify_id.py <ID>`: fetch one record from the site and check its stored seal under
 * the bare rule (`contentHash` set to `sha256:` on a copy while hashing). It prints the
 * expected and the actual digest and then `OK` or `FAIL`, and exits 0 either way; only a
 * `contentHash` without the `sha256:` prefix stops it early.
 */
module RegVerifyId {
  import opened Basics
  import opened JsonValue
  import opened JsonText
  import opened Sealing
  import opened Files
  import opened Routes
  import Text

  /** The record id as the script uses it: stripped, then upper-cased. */
  function RecordId(arg: string): string
  {
    Text.Upper(Text.Strip(arg))
  }

  function Invalid(rid: string): string
  {
    "FAIL: contentHash missing/invalid in " + rid
  }

  /** What the script prints once both digests are known. */
  function Report(rid: string, expected: string, actual: Digest): seq<string>
  {
    ["ID: " + rid, "expected: " + expected, "actual:   " + actual, if expected == actual then "OK" else "FAIL"]
  }

  /**
   * The script with its argument list. Wrong argument count: status 2 (the usage line goes
   * to stderr). A record that is not served, not JSON, or not an object, and a `contentHash`
   * that is not a string, raise. The fetched record is a value, so hashing its copy leaves it as it was.
   */
  method Run(args: seq<string>, site: map<string, Doc>, H: Hasher) returns (ex: Exit)
    ensures |args| != 1 ==> ex == Exit(2, [])
    ensures |args| == 1 ==>
      var rid := RecordId(args[0]);
      match Fetch(site, DataPath(rid))
      case Some(Obj(ms)) =>
        (match GetOr(ms, CONTENT_HASH, Str(""))
         case Str(ch) =>
           if Text.StartsWith(ch, PREFIX) then ex == Exit(RETURNED_NONE, Report(rid, Expected(ch), Seal(H, ms, BARE)))
           else ex == Exit(EXCEPTION_STATUS, [Invalid(rid)])
         case _ => ex == Exit(EXCEPTION_STATUS, []))
      case _ => ex == Exit(EXCEPTION_STATUS, [])
  {
    if |args| != 1 {
      return Exit(2, []);
    }
    var rid := RecordId(args[0]);
    var obj := Fetch(site, DataPath(rid));
    if obj.None? || !obj.value.Obj? {
      return Exit(EXCEPTION_STATUS, []);
    }
    var ch := GetOr(obj.value.members, CONTENT_HASH, Str(""));
    if !ch.Str? {
      return Exit(EXCEPTION_STATUS, []);
    }
    if !Text.StartsWith(ch.s, PREFIX) {
      return Exit(EXCEPTION_STATUS, [Invalid(rid)]);
    }
    var expected := Text.Strip(ch.s[|PREFIX|..]);
    ExpectedOfPrefixed(ch.s);
    var obj2 := Put(obj.value.members, CONTENT_HASH, Str(BARE));
    var actual := H(Canon(Obj(obj2)));
    ex := Exit(RETURNED_NONE, Report(rid, expected, actual));
  }

  /** For a seal with the prefix, `split("sha256:", 1)[1]` and `split("sha256:", 1)[-1]` agree. */
  lemma ExpectedOfPrefixed(ch: string)
    requires Text.StartsWith(ch, PREFIX)
    ensures Text.Strip(ch[|PREFIX|..]) == Expected(ch)
  {
    Text.AfterFirstOfPrefixed(ch, PREFIX);
  }

  /**
   * A record whose `contentHash` holds its own bare-rule seal is reported OK. Because the
   * rule does not look at the stored `contentHash`, this is the same digest before and
   * after the seal is stored.
   */
  lemma BareSealedReportsOk(rid: string, ms: Members, H: Hasher)
    requires Valid(Obj(ms))
    ensures var stored := Put(ms, CONTENT_HASH, Str(Sealed(Seal(H, ms, BARE))));
      Report(rid, Expected(Sealed(Seal(H, ms, BARE))), Seal(H, stored, BARE))[3] == "OK"
  {
    var stored := Put(ms, CONTENT_HASH, Str(Sealed(Seal(H, ms, BARE))));
    PutValid(ms, CONTENT_HASH, Str(Sealed(Seal(H, ms, BARE))));
    SealIgnoresContentHash(stored, ms, BARE);
    ExpectedOfSealed(Seal(H, ms, BARE));
  }
}
