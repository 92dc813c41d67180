/**
 * Content-hash sealing. A record's seal is the SHA-256 hex digest of its canonical bytes,
 * written `sha256:<digest>`. SHA-256 itself is not modelled: every rule takes the hash
 * function `H` as a parameter, so each fact proved here holds for whatever `H` is.
 *
 * The tools disagree on what the record's own `contentHash` holds while it is hashed:
 *  - the placeholder rule sets it to `sha256:REPLACED_AT_RUNTIME` (reseal, API build);
 *  - the bare rule sets it to `sha256:` (issue check, single-id verifier);
 *  - the manifest verifiers hash the record as they receive it.
 * The first two are one rule with different tokens, `Seal(H, ms, token)`; the third is
 * `PlainDigest`. They are kept apart, and the lemmas below say where they coincide.
 */
module Sealing {
  import opened Basics
  import opened JsonValue
  import opened JsonText
  import Text

  /** What `hashlib.sha256(b).hexdigest()` returns: 64 lower-case hex digits. */
  predicate IsHexDigest(s: string)
  {
    |s| == 64 && forall i :: 0 <= i < |s| ==> IsHexDigit(s[i])
  }

  type Digest = s: string | IsHexDigest(s)
    witness seq(64, _ => '0')

  /** `lambda b: hashlib.sha256(b).hexdigest()`, left abstract. */
  type Hasher = seq<byte> -> Digest

  const PREFIX := "sha256:"
  const CONTENT_HASH := "contentHash"
  /** The neutral token of the placeholder rule. */
  const PLACEHOLDER := "sha256:REPLACED_AT_RUNTIME"
  /** The neutral token of the bare rule. */
  const BARE := "sha256:"

  /** `o = dict(obj); o["contentHash"] = token`, then the canonical bytes of `o`. */
  function SealedBytes(ms: Members, token: string): (r: seq<byte>)
    ensures |r| > 0 && r[0] == '{' as byte
    ensures forall i :: 0 <= i < |r| ==> r[i] >= 0x20
  {
    Canon(Obj(Put(ms, CONTENT_HASH, Str(token))))
  }

  /** The digest of a record under a neutralisation rule with the given token. */
  function Seal(H: Hasher, ms: Members, token: string): Digest
  {
    H(SealedBytes(ms, token))
  }

  /** For a valid record the token rule's digest is the digest of the record that already carries the token. */
  lemma SealOfValid(H: Hasher, ms: Members, token: string)
    requires Valid(Obj(ms))
    ensures Seal(H, ms, token) == H(SealedBytes(Put(ms, CONTENT_HASH, Str(token)), token))
  {
    PutValid(ms, CONTENT_HASH, Str(token));
    SealIgnoresContentHash(ms, Put(ms, CONTENT_HASH, Str(token)), token);
  }

  /** The digest of a JSON value hashed as it is, with no neutralisation. */
  function PlainDigest(H: Hasher, j: Json): Digest
  {
    H(Canon(j))
  }

  /** On a record that already carries a token, the plain digest is that token rule's digest. */
  lemma PlainDigestOfSealed(H: Hasher, ms: Members)
    requires Get(ms, CONTENT_HASH).Some? && Get(ms, CONTENT_HASH).value.Str?
    ensures PlainDigest(H, Obj(ms)) == H(SealedBytes(ms, Get(ms, CONTENT_HASH).value.s))
  {
    PutExisting(ms, CONTENT_HASH, Get(ms, CONTENT_HASH).value);
  }

  /** `f"sha256:{h}"`. */
  function Sealed(d: Digest): (r: string)
    ensures Text.StartsWith(r, PREFIX) && r[|PREFIX|..] == d
  {
    PREFIX + d
  }

  /** `ch.split("sha256:", 1)[-1].strip()`: the expected digest a verifier reads from a stored seal. */
  function Expected(ch: string): (r: string)
    ensures |r| <= |ch|
    ensures |r| > 0 ==> !Text.IsSpace(r[0]) && !Text.IsSpace(r[|r| - 1])
    ensures Text.Find(ch, PREFIX).None? ==> r == Text.Strip(ch)
  {
    Text.Strip(Text.AfterFirst(ch, PREFIX))
  }

  /** A hex digest holds no whitespace, so `strip()` leaves it alone. */
  lemma DigestStripped(d: Digest)
    ensures Text.Strip(d) == d
  {
    assert !Text.IsSpace(d[0]) && !Text.IsSpace(d[|d| - 1]) by {
      assert IsHexDigit(d[0]) && IsHexDigit(d[|d| - 1]);
      Text.IsSpaceAscii(d[0]);
      Text.IsSpaceAscii(d[|d| - 1]);
    }
    Text.StripStripped(d);
  }

  /** Reading a seal back yields the digest that was written. */
  lemma ExpectedOfSealed(d: Digest)
    ensures Expected(Sealed(d)) == d
  {
    Text.AfterFirstOfPrefixed(Sealed(d), PREFIX);
    DigestStripped(d);
  }

  /**
   * The token rule does not see the record's current `contentHash`: two valid records
   * that agree on every other key (whatever they hold under `contentHash`, if anything,
   * and in whatever order their members come) get the same bytes.
   */
  lemma SealIgnoresContentHash(ms: Members, ns: Members, token: string)
    requires Valid(Obj(ms)) && Valid(Obj(ns))
    requires forall k :: k != CONTENT_HASH ==> Get(ms, k) == Get(ns, k)
    ensures SealedBytes(ms, token) == SealedBytes(ns, token)
  {
    var r := Put(ms, CONTENT_HASH, Str(token));
    var s := Put(ns, CONTENT_HASH, Str(token));
    PutValid(ms, CONTENT_HASH, Str(token));
    PutValid(ns, CONTENT_HASH, Str(token));
    SameEntriesEquiv(r, s);
    CanonEquiv(Obj(r), Obj(s));
  }

  /** The token rule does not depend on the order of members, at any depth. */
  lemma SealEquiv(ms: Members, ns: Members, token: string)
    requires Valid(Obj(ms)) && Valid(Obj(ns)) && Equiv(Obj(ms), Obj(ns))
    ensures SealedBytes(ms, token) == SealedBytes(ns, token)
  {
    PutEquiv(ms, ns, CONTENT_HASH, Str(token));
    PutValid(ms, CONTENT_HASH, Str(token));
    PutValid(ns, CONTENT_HASH, Str(token));
    CanonEquiv(Obj(Put(ms, CONTENT_HASH, Str(token))), Obj(Put(ns, CONTENT_HASH, Str(token))));
  }

  /**
   * Where the rules meet: hashing a record as it is gives its token-rule digest exactly
   * when it already carries that token (here: the "if" half; the "only if" half would need
   * a collision-free hash, which is not assumed).
   */
  lemma PlainMatchesTokenRule(H: Hasher, ms: Members, token: string)
    requires Get(ms, CONTENT_HASH) == Some(Str(token))
    ensures PlainDigest(H, Obj(ms)) == Seal(H, ms, token)
  {
    PutExisting(ms, CONTENT_HASH, Str(token));
  }
}
