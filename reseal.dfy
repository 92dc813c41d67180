/**
 * `reg_reseal.py <ID>`: recompute a record's seal under the placeholder rule and store it
 * in the record's `contentHash`, rewriting `data/<ID>.jsonld`.
 */
module Reseal {
  import opened Basics
  import opened JsonValue
  import opened JsonText
  import opened Sealing
  import opened Files

  /** The record after `obj["contentHash"] = f"sha256:{h}"` with `h` its placeholder-rule digest. */
  function Resealed(H: Hasher, ms: Members): (r: Members)
    ensures Get(r, CONTENT_HASH) == Some(Str(Sealed(Seal(H, ms, PLACEHOLDER))))
    ensures forall k :: k != CONTENT_HASH ==> Get(r, k) == Get(ms, k)
  {
    var h := Seal(H, ms, PLACEHOLDER);
    Put(ms, CONTENT_HASH, Str(Sealed(h)))
  }

  /** Resealing does not change the seal: the stored digest is the digest of the resealed record. */
  lemma ResealStable(H: Hasher, ms: Members)
    requires Valid(Obj(ms))
    ensures Seal(H, Resealed(H, ms), PLACEHOLDER) == Seal(H, ms, PLACEHOLDER)
  {
    PutValid(ms, CONTENT_HASH, Str(Sealed(Seal(H, ms, PLACEHOLDER))));
    SealIgnoresContentHash(Resealed(H, ms), ms, PLACEHOLDER);
  }

  /** Resealing a resealed record changes nothing. */
  lemma ResealIdempotent(H: Hasher, ms: Members)
    requires Valid(Obj(ms))
    ensures Resealed(H, Resealed(H, ms)) == Resealed(H, ms)
  {
    var r := Resealed(H, ms);
    ResealStable(H, ms);
    PutExisting(r, CONTENT_HASH, Str(Sealed(Seal(H, r, PLACEHOLDER))));
  }

  /** Two records that differ only in member order get the same seal. */
  lemma ResealEquiv(H: Hasher, ms: Members, ns: Members)
    requires Valid(Obj(ms)) && Valid(Obj(ns)) && Equiv(Obj(ms), Obj(ns))
    ensures Get(Resealed(H, ms), CONTENT_HASH) == Get(Resealed(H, ns), CONTENT_HASH)
  {
    SealEquiv(ms, ns, PLACEHOLDER);
  }

  /**
   * The tool with its argument list (`sys.argv[1:]`). Anything other than one argument
   * prints the usage line and exits 2; a missing record file exits 2 and writes nothing;
   * a file that is not JSON, or is JSON but not an object, raises before the write (exit 1).
   */
  method Run(fs: Store, args: seq<string>, H: Hasher) returns (ex: Exit)
    modifies fs
    ensures |args| != 1 ==> ex == Exit(2, ["USAGE: python3 tools/reg_reseal.py <ID>"]) && fs.files == old(fs.files)
    ensures |args| == 1 && DataFile(args[0]) !in old(fs.files) ==>
      ex == Exit(2, ["FAIL: missing " + DataFile(args[0])]) && fs.files == old(fs.files)
    ensures |args| == 1 && DataFile(args[0]) in old(fs.files) ==>
      match old(fs.files)[DataFile(args[0])].Parsed()
      case Some(Obj(ms)) =>
        ex.code == 0 &&
        fs.files == old(fs.files)[DataFile(args[0]) := Dumped(Obj(Resealed(H, ms)), FILE_LAYOUT)] &&
        ex.lines == ["OK: resealed " + args[0] + " -> " + Sealed(Seal(H, ms, PLACEHOLDER))]
      case _ => ex == Exit(EXCEPTION_STATUS, []) && fs.files == old(fs.files)
  {
    if |args| != 1 {
      return Exit(2, ["USAGE: python3 tools/reg_reseal.py <ID>"]);
    }
    var rid := args[0];
    var p := DataFile(rid);
    if p !in fs.files {
      return Exit(2, ["FAIL: missing " + p]);
    }
    var loaded := fs.files[p].Parsed();
    if !loaded.Some? || !loaded.value.Obj? {
      return Exit(EXCEPTION_STATUS, []);
    }
    var obj := loaded.value.members;
    var h := Seal(H, obj, PLACEHOLDER);
    obj := Put(obj, CONTENT_HASH, Str(Sealed(h)));
    fs.WriteJson(p, Obj(obj), FILE_LAYOUT);
    ex := Exit(0, ["OK: resealed " + rid + " -> " + Sealed(h)]);
  }
}
