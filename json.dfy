/**
 * JSON values as the tools see them after `json.loads`: Python dicts become member
 * lists in insertion order, lists keep their order, and numbers are integers.
 * The dict operations the tools use (`get`, item assignment, `pop`) are modelled on
 * member lists, together with Python truthiness and key-order-insensitive equality.
 */
module JsonValue {
  import opened Basics

  datatype Json =
    | Null
    | Bool(b: bool)
    | Int(i: int)
    | Str(s: string)
    | Arr(items: seq<Json>)
    | Obj(members: seq<(string, Json)>)

  /** The members of a JSON object (a Python dict), in insertion order. */
  type Members = seq<(string, Json)>

  predicate DistinctKeys(ms: Members)
  {
    forall i, j :: 0 <= i < j < |ms| ==> ms[i].0 != ms[j].0
  }

  /** Every object, at every depth, has distinct keys: true of anything `json.loads` returns. */
  predicate Valid(j: Json)
  {
    match j
    case Arr(xs) => forall i :: 0 <= i < |xs| ==> Valid(xs[i])
    case Obj(ms) => DistinctKeys(ms) && forall i :: 0 <= i < |ms| ==> Valid(ms[i].1)
    case _ => true
  }

  predicate HasKey(ms: Members, k: string)
  {
    exists i :: 0 <= i < |ms| && ms[i].0 == k
  }

  /** Position of key `k` in `ms` (its first position, which with distinct keys is its only one). */
  function IndexOf(ms: Members, k: string): (r: Option<nat>)
    ensures r.Some? ==> r.value < |ms| && ms[r.value].0 == k && forall j :: 0 <= j < r.value ==> ms[j].0 != k
    ensures r.None? <==> !HasKey(ms, k)
  {
    if |ms| == 0 then None
    else if ms[0].0 == k then Some(0)
    else
      match IndexOf(ms[1..], k)
      case None => assert forall i :: 1 <= i < |ms| ==> ms[i] == ms[1..][i - 1]; None
      case Some(i) => Some(i + 1)
  }

  /** Python's `d.get(k)`: the value stored under `k`, or None when `k` is absent. */
  function Get(ms: Members, k: string): (r: Option<Json>)
    ensures r.None? <==> !HasKey(ms, k)
    ensures r.Some? ==> exists i :: 0 <= i < |ms| && ms[i] == (k, r.value)
  {
    match IndexOf(ms, k)
    case None => None
    case Some(i) => assert ms[i] == (k, ms[i].1); Some(ms[i].1)
  }

  /** Python's `d.get(k, default)`. */
  function GetOr(ms: Members, k: string, default: Json): (r: Json)
    ensures HasKey(ms, k) ==> Get(ms, k) == Some(r)
    ensures !HasKey(ms, k) ==> r == default
  {
    match Get(ms, k)
    case Some(v) => v
    case None => default
  }

  /** `j[k]` followed by a string method: the string held under `k`, or None where Python raises. */
  function StrMember(j: Json, k: string): (r: Option<string>)
    ensures r.Some? <==> j.Obj? && HasKey(j.members, k) && Get(j.members, k).value.Str?
    ensures r.Some? ==> Get(j.members, k) == Some(Str(r.value))
  {
    if j.Obj? then
      match Get(j.members, k)
      case Some(Str(s)) => Some(s)
      case _ => None
    else None
  }

  /** The key of a member, what `sorted(d.items())` orders by when keys are distinct. */
  function MemberKey(m: (string, Json)): string
  {
    m.0
  }

  /** Python's `d[k] = v`: overwrite the value in place if `k` is present, else append the pair. */
  function Put(ms: Members, k: string, v: Json): (r: Members)
    ensures Get(r, k) == Some(v)
    ensures forall k' :: k' != k ==> Get(r, k') == Get(ms, k')
    ensures HasKey(ms, k) ==> |r| == |ms| && forall i :: 0 <= i < |ms| ==> r[i].0 == ms[i].0
    ensures !HasKey(ms, k) ==> r == ms + [(k, v)]
    ensures DistinctKeys(ms) ==> DistinctKeys(r)
    ensures forall i :: 0 <= i < |r| ==> r[i] in ms || r[i] == (k, v)
  {
    match IndexOf(ms, k)
    case Some(i) =>
      var r := ms[i := (k, v)];
      assert IndexOf(r, k) == Some(i) by { IndexOfUpdate(ms, i, k, v); }
      forall k' | k' != k ensures Get(r, k') == Get(ms, k') {
        IndexOfOther(ms, i, k, v, k');
      }
      r
    case None =>
      var r := ms + [(k, v)];
      assert IndexOf(r, k) == Some(|ms|) by { IndexOfAppend(ms, k, v, k); }
      forall k' | k' != k ensures Get(r, k') == Get(ms, k') {
        IndexOfAppend(ms, k, v, k');
      }
      r
  }

  lemma {:induction false} IndexOfUpdate(ms: Members, i: nat, k: string, v: Json)
    requires IndexOf(ms, k) == Some(i)
    ensures IndexOf(ms[i := (k, v)], k) == Some(i)
  {
    if i > 0 {
      assert ms[i := (k, v)][1..] == ms[1..][i - 1 := (k, v)];
      IndexOfUpdate(ms[1..], i - 1, k, v);
    }
  }

  lemma {:induction false} IndexOfOther(ms: Members, i: nat, k: string, v: Json, k': string)
    requires i < |ms| && ms[i].0 == k && k' != k
    ensures IndexOf(ms[i := (k, v)], k') == IndexOf(ms, k')
    ensures Get(ms[i := (k, v)], k') == Get(ms, k')
  {
    if i > 0 && ms[0].0 != k' {
      assert ms[i := (k, v)][1..] == ms[1..][i - 1 := (k, v)];
      IndexOfOther(ms[1..], i - 1, k, v, k');
    }
  }

  lemma {:induction false} IndexOfAppend(ms: Members, k: string, v: Json, k': string)
    requires !HasKey(ms, k)
    ensures k' == k ==> IndexOf(ms + [(k, v)], k') == Some(|ms|)
    ensures k' != k ==> IndexOf(ms + [(k, v)], k') == IndexOf(ms, k')
    ensures k' != k ==> Get(ms + [(k, v)], k') == Get(ms, k')
  {
    if |ms| > 0 && ms[0].0 != k' {
      assert (ms + [(k, v)])[1..] == ms[1..] + [(k, v)];
      IndexOfAppend(ms[1..], k, v, k');
    }
  }

  /** A dict built by assigning `pairs` in order (`dict(pairs)`, a dict comprehension, a filling loop). */
  function FromPairs(pairs: Members): (r: Members)
    ensures DistinctKeys(r)
    ensures forall k :: HasKey(r, k) <==> HasKey(pairs, k)
  {
    if |pairs| == 0 then []
    else
      var n := |pairs| - 1;
      var r := Put(FromPairs(pairs[..n]), pairs[n].0, pairs[n].1);
      forall k ensures HasKey(r, k) <==> HasKey(pairs, k) {
        HasKeyLast(pairs, k);
        assert Get(r, k).Some? <==> HasKey(r, k);
      }
      r
  }

  lemma HasKeyLast(pairs: Members, k: string)
    requires |pairs| > 0
    ensures HasKey(pairs, k) <==> HasKey(pairs[..|pairs| - 1], k) || k == pairs[|pairs| - 1].0
  {
    var n := |pairs| - 1;
    if HasKey(pairs, k) && k != pairs[n].0 {
      var i :| 0 <= i < |pairs| && pairs[i].0 == k;
      assert pairs[..n][i] == pairs[i];
    }
    if HasKey(pairs[..n], k) {
      var i :| 0 <= i < n && pairs[..n][i].0 == k;
      assert pairs[i] == pairs[..n][i];
    }
  }

  /** With distinct keys, filling a dict pair by pair keeps exactly the pairs, in order. */
  lemma {:induction false} FromPairsDistinct(pairs: Members)
    requires DistinctKeys(pairs)
    ensures FromPairs(pairs) == pairs
  {
    if |pairs| > 0 {
      var n := |pairs| - 1;
      FromPairsDistinct(pairs[..n]);
      HasKeyLast(pairs, pairs[n].0);
      assert !HasKey(pairs[..n], pairs[n].0);
      assert pairs == pairs[..n] + [pairs[n]];
    }
  }

  /**
   * Python's `d.pop(k, None)` for its effect on `d`: the entry for `k` is removed (every
   * entry for `k`, which with distinct keys is the one there is).
   */
  function Pop(ms: Members, k: string): (r: Members)
    ensures DistinctKeys(ms) ==> DistinctKeys(r)
    ensures Get(r, k) == None
    ensures forall k' :: k' != k ==> Get(r, k') == Get(ms, k')
    ensures !HasKey(ms, k) ==> r == ms
  {
    if |ms| == 0 then ms
    else
      var rest := Pop(ms[1..], k);
      if ms[0].0 == k then
        forall k' | k' != k ensures Get(rest, k') == Get(ms, k') {
          GetTail(ms, k');
        }
        rest
      else
        var r := [ms[0]] + rest;
        assert r[1..] == rest;
        assert Get(r, ms[0].0) == Some(ms[0].1);
        forall k' | k' != k ensures Get(r, k') == Get(ms, k') {
          if k' != ms[0].0 {
            GetTail(r, k');
            GetTail(ms, k');
          }
        }
        assert DistinctKeys(ms) ==> DistinctKeys(r) by {
          if DistinctKeys(ms) {
            assert !HasKey(ms[1..], ms[0].0);
            assert Get(rest, ms[0].0) == None;
            assert forall j :: 1 <= j < |r| ==> r[j] == rest[j - 1];
          }
        }
        r
  }

  lemma GetTail(ms: Members, k: string)
    requires |ms| > 0 && ms[0].0 != k
    ensures Get(ms, k) == Get(ms[1..], k)
  {
  }

  /** Removing a key from a valid object gives a valid object. */
  lemma PopValid(ms: Members, k: string)
    requires Valid(Obj(ms))
    ensures Valid(Obj(Pop(ms, k)))
  {
    var r := Pop(ms, k);
    forall i | 0 <= i < |r| ensures Valid(r[i].1) {
      GetAt(r, i);
      assert r[i].0 != k;
      assert Get(ms, r[i].0) == Some(r[i].1);
    }
  }

  /** Assigning a valid value in a valid object gives a valid object. */
  lemma PutValid(ms: Members, k: string, v: Json)
    requires Valid(Obj(ms)) && Valid(v)
    ensures Valid(Obj(Put(ms, k, v)))
  {
    var r := Put(ms, k, v);
    forall i | 0 <= i < |r| ensures Valid(r[i].1) {
      if r[i] != (k, v) {
        var j :| 0 <= j < |ms| && ms[j] == r[i];
      }
    }
  }

  /** Assigning the value a key already holds changes nothing. */
  lemma PutExisting(ms: Members, k: string, v: Json)
    requires Get(ms, k) == Some(v)
    ensures Put(ms, k, v) == ms
  {
    var i := IndexOf(ms, k).value;
    assert ms[i] == (k, v);
  }

  /** Python truthiness (`if x:` / `not x`) of a JSON value. */
  predicate Truthy(j: Json)
  {
    match j
    case Null => false
    case Bool(b) => b
    case Int(i) => i != 0
    case Str(s) => s != ""
    case Arr(xs) => xs != []
    case Obj(ms) => ms != []
  }

  /**
   * The same JSON document up to the order of object members, at every depth, with
   * scalars compared by kind and value. This is Python's `==` on what `json.loads`
   * returns except that Python also has `True == 1` and `False == 0`, which this
   * relation (like the encoder, which writes them differently) keeps apart.
   */
  predicate Equiv(a: Json, b: Json)
  {
    match a
    case Arr(xs) =>
      b.Arr? && |xs| == |b.items| && forall i :: 0 <= i < |xs| ==> Equiv(xs[i], b.items[i])
    case Obj(ms) =>
      b.Obj? &&
      (forall i :: 0 <= i < |ms| ==> Get(b.members, ms[i].0).Some? && Equiv(ms[i].1, Get(b.members, ms[i].0).value)) &&
      (forall j :: 0 <= j < |b.members| ==> HasKey(ms, b.members[j].0))
    case _ => a == b
  }

  lemma GetAt(ms: Members, i: nat)
    requires DistinctKeys(ms) && i < |ms|
    ensures Get(ms, ms[i].0) == Some(ms[i].1)
  {
    assert HasKey(ms, ms[i].0);
  }

  /** The value at a key's first position is what `get` returns, duplicates after it or not. */
  lemma GetFirstAt(ms: Members, i: nat)
    requires i < |ms| && forall j :: 0 <= j < i ==> ms[j].0 != ms[i].0
    ensures Get(ms, ms[i].0) == Some(ms[i].1)
  {
    assert HasKey(ms, ms[i].0);
  }

  lemma {:induction false} EquivReflexive(a: Json)
    requires Valid(a)
    ensures Equiv(a, a)
  {
    match a
    case Arr(xs) =>
      forall i | 0 <= i < |xs| ensures Equiv(xs[i], xs[i]) {
        EquivReflexive(xs[i]);
      }
    case Obj(ms) =>
      forall i | 0 <= i < |ms| ensures Get(ms, ms[i].0) == Some(ms[i].1) && Equiv(ms[i].1, ms[i].1) {
        GetAt(ms, i);
        EquivReflexive(ms[i].1);
      }
    case _ =>
  }

  /** Two dicts holding the same value under every key are equal whatever their insertion order. */
  lemma SameEntriesEquiv(ms: Members, ns: Members)
    requires Valid(Obj(ms)) && Valid(Obj(ns))
    requires forall k :: Get(ms, k) == Get(ns, k)
    ensures Equiv(Obj(ms), Obj(ns))
  {
    forall i | 0 <= i < |ms| ensures Get(ns, ms[i].0) == Some(ms[i].1) && Equiv(ms[i].1, ms[i].1) {
      GetAt(ms, i);
      EquivReflexive(ms[i].1);
    }
    forall j | 0 <= j < |ns| ensures HasKey(ms, ns[j].0) {
      GetAt(ns, j);
    }
  }

  /** Assigning the same value under the same key in two equal dicts leaves them equal. */
  lemma PutEquiv(ms: Members, ns: Members, k: string, v: Json)
    requires Valid(Obj(ms)) && Valid(Obj(ns)) && Valid(v)
    requires Equiv(Obj(ms), Obj(ns))
    ensures Equiv(Obj(Put(ms, k, v)), Obj(Put(ns, k, v)))
  {
    PutValid(ms, k, v);
    PutEquivMembers(ms, ns, k, v);
    PutEquivKeys(ms, ns, k, v);
  }

  /** Each member of the first assigned dict has its equal in the second. */
  lemma PutEquivMembers(ms: Members, ns: Members, k: string, v: Json)
    requires Valid(Obj(ms)) && Valid(v) && Equiv(Obj(ms), Obj(ns))
    ensures var r, s := Put(ms, k, v), Put(ns, k, v);
      forall i :: 0 <= i < |r| ==> Get(s, r[i].0).Some? && Equiv(r[i].1, Get(s, r[i].0).value)
  {
    var r := Put(ms, k, v);
    var s := Put(ns, k, v);
    forall i | 0 <= i < |r| ensures Get(s, r[i].0).Some? && Equiv(r[i].1, Get(s, r[i].0).value) {
      var q := r[i].0;
      if q == k {
        GetAt(r, i);
        EquivReflexive(v);
      } else {
        var j :| 0 <= j < |ms| && ms[j] == r[i];
        GetAt(ms, j);
      }
    }
  }

  /** Each key of the second assigned dict is a key of the first. */
  lemma PutEquivKeys(ms: Members, ns: Members, k: string, v: Json)
    requires Equiv(Obj(ms), Obj(ns))
    ensures var r, s := Put(ms, k, v), Put(ns, k, v);
      forall j :: 0 <= j < |s| ==> HasKey(r, s[j].0)
  {
    var r := Put(ms, k, v);
    var s := Put(ns, k, v);
    forall j | 0 <= j < |s| ensures HasKey(r, s[j].0) {
      var q := s[j].0;
      if q != k {
        var m :| 0 <= m < |ns| && ns[m] == s[j];
        assert HasKey(ms, q);
        assert Get(r, q).Some?;
      }
    }
  }
}
