/**
 * Python's `sorted(...)` on strings and on dict items, as an insertion sort keyed by a
 * string, with the facts the tools need: the result is ordered, it is a permutation of
 * the input, and with distinct keys it is the only strictly ordered arrangement.
 */
module Sorting {
  import Text

  /** `a <= b` on Python strings. */
  predicate LessEq(a: string, b: string)
  {
    !Text.Less(b, a)
  }

  lemma LessEqTransitive(a: string, b: string, c: string)
    requires LessEq(a, b) && LessEq(b, c)
    ensures LessEq(a, c)
  {
    if Text.Less(c, a) {
      if a == b {
        assert false;
      } else {
        Text.LessTotal(a, b);
        Text.LessTransitive(c, a, b);
        assert false;
      }
    }
  }

  lemma LessEqStrict(a: string, b: string)
    requires LessEq(a, b) && a != b
    ensures Text.Less(a, b)
  {
    Text.LessTotal(a, b);
  }

  predicate SortedBy<T>(xs: seq<T>, key: T -> string)
  {
    forall i, j :: 0 <= i < j < |xs| ==> LessEq(key(xs[i]), key(xs[j]))
  }

  predicate StrictlySortedBy<T>(xs: seq<T>, key: T -> string)
  {
    forall i, j :: 0 <= i < j < |xs| ==> Text.Less(key(xs[i]), key(xs[j]))
  }

  predicate DistinctBy<T>(xs: seq<T>, key: T -> string)
  {
    forall i, j :: 0 <= i < j < |xs| ==> key(xs[i]) != key(xs[j])
  }

  function Insert<T>(x: T, xs: seq<T>, key: T -> string): (r: seq<T>)
    ensures multiset(r) == multiset(xs) + multiset{x}
  {
    if |xs| == 0 then [x]
    else if Text.Less(key(xs[0]), key(x)) then
      assert xs == [xs[0]] + xs[1..];
      [xs[0]] + Insert(x, xs[1..], key)
    else [x] + xs
  }

  lemma {:induction false} InsertSorted<T>(x: T, xs: seq<T>, key: T -> string)
    requires SortedBy(xs, key)
    ensures SortedBy(Insert(x, xs, key), key)
  {
    if |xs| > 0 {
      if Text.Less(key(xs[0]), key(x)) {
        var rest := Insert(x, xs[1..], key);
        InsertSorted(x, xs[1..], key);
        assert xs == [xs[0]] + xs[1..];
        forall j | 0 <= j < |rest| ensures LessEq(key(xs[0]), key(rest[j])) {
          assert rest[j] in multiset(rest);
          if rest[j] == x {
            Text.LessAsymmetric(key(xs[0]), key(x));
          } else {
            assert rest[j] in multiset(xs[1..]);
            var m :| 0 <= m < |xs[1..]| && xs[1..][m] == rest[j];
            assert xs[m + 1] == rest[j];
          }
        }
      } else {
        forall j | 0 <= j < |xs| ensures LessEq(key(x), key(xs[j])) {
          if j > 0 {
            LessEqTransitive(key(x), key(xs[0]), key(xs[j]));
          }
        }
      }
    }
  }

  lemma {:induction false} InsertStrict<T>(x: T, xs: seq<T>, key: T -> string)
    requires StrictlySortedBy(xs, key)
    requires forall i :: 0 <= i < |xs| ==> key(xs[i]) != key(x)
    ensures StrictlySortedBy(Insert(x, xs, key), key)
  {
    if |xs| > 0 {
      if Text.Less(key(xs[0]), key(x)) {
        var rest := Insert(x, xs[1..], key);
        InsertStrict(x, xs[1..], key);
        assert xs == [xs[0]] + xs[1..];
        forall j | 0 <= j < |rest| ensures Text.Less(key(xs[0]), key(rest[j])) {
          assert rest[j] in multiset(rest);
          if rest[j] != x {
            assert rest[j] in multiset(xs[1..]);
            var m :| 0 <= m < |xs[1..]| && xs[1..][m] == rest[j];
            assert xs[m + 1] == rest[j];
          }
        }
      } else {
        LessEqStrict(key(x), key(xs[0]));
        forall j | 0 <= j < |xs| ensures Text.Less(key(x), key(xs[j])) {
          if j > 0 {
            Text.LessTransitive(key(x), key(xs[0]), key(xs[j]));
          }
        }
      }
    }
  }

  /** Python's `sorted(xs, key=key)` (stable insertion sort). */
  function SortBy<T>(xs: seq<T>, key: T -> string): (r: seq<T>)
    ensures multiset(r) == multiset(xs) && |r| == |xs|
    ensures SortedBy(r, key)
    ensures DistinctBy(xs, key) ==> StrictlySortedBy(r, key)
  {
    if |xs| == 0 then []
    else
      var rest := SortBy(xs[1..], key);
      assert xs == [xs[0]] + xs[1..];
      assert DistinctBy(xs, key) ==> forall i :: 0 <= i < |rest| ==> key(rest[i]) != key(xs[0]) by {
        if DistinctBy(xs, key) {
          forall i | 0 <= i < |rest| ensures key(rest[i]) != key(xs[0]) {
            assert rest[i] in multiset(xs[1..]);
            var m :| 0 <= m < |xs[1..]| && xs[1..][m] == rest[i];
            assert xs[m + 1] == rest[i];
          }
        }
      }
      InsertSorted(xs[0], rest, key);
      if DistinctBy(xs, key) then InsertStrict(xs[0], rest, key); Insert(xs[0], rest, key)
      else Insert(xs[0], rest, key)
  }

  /** Two strictly ordered sequences with the same elements are the same sequence. */
  lemma {:induction false} StrictlySortedUnique<T>(xs: seq<T>, ys: seq<T>, key: T -> string)
    requires StrictlySortedBy(xs, key) && StrictlySortedBy(ys, key)
    requires forall x :: x in xs <==> x in ys
    ensures xs == ys
  {
    if |xs| > 0 && |ys| > 0 {
      assert xs[0] in xs && ys[0] in ys;
      var j :| 0 <= j < |ys| && ys[j] == xs[0];
      var i :| 0 <= i < |xs| && xs[i] == ys[0];
      if j > 0 {
        if i > 0 {
          Text.LessTransitive(key(xs[0]), key(xs[i]), key(ys[j]));
        }
        Text.LessIrreflexive(key(xs[0]));
      }
      assert xs[0] == ys[0];
      forall x ensures x in xs[1..] <==> x in ys[1..] {
        if x in xs[1..] {
          var a :| 0 <= a < |xs[1..]| && xs[1..][a] == x;
          Text.LessIrreflexive(key(xs[0]));
          assert x != xs[0] && x in ys;
        }
        if x in ys[1..] {
          var b :| 0 <= b < |ys[1..]| && ys[1..][b] == x;
          Text.LessIrreflexive(key(ys[0]));
          assert x != ys[0] && x in xs;
        }
      }
      StrictlySortedUnique(xs[1..], ys[1..], key);
      assert xs == [xs[0]] + xs[1..] && ys == [ys[0]] + ys[1..];
    } else if |xs| > 0 {
      HeadIsElement(xs);
      assert false;
    } else if |ys| > 0 {
      HeadIsElement(ys);
      assert false;
    }
  }

  /** Sorting keeps exactly the elements it was given. */
  lemma SortByElements<T>(xs: seq<T>, key: T -> string, x: T)
    ensures x in SortBy(xs, key) <==> x in xs
  {
    var r := SortBy(xs, key);
    assert x in r <==> x in multiset(r);
    assert x in xs <==> x in multiset(xs);
  }

  /** Sorting by distinct keys depends only on which elements there are. */
  lemma SortByUnique<T>(xs: seq<T>, ys: seq<T>, key: T -> string)
    requires DistinctBy(xs, key) && DistinctBy(ys, key)
    requires forall x :: x in xs <==> x in ys
    ensures SortBy(xs, key) == SortBy(ys, key)
  {
    forall x ensures x in SortBy(xs, key) <==> x in SortBy(ys, key) {
      SortByElements(xs, key, x);
      SortByElements(ys, key, x);
    }
    StrictlySortedUnique(SortBy(xs, key), SortBy(ys, key), key);
  }

  lemma HeadIsElement<T>(xs: seq<T>)
    ensures |xs| > 0 ==> xs[0] in xs
  {
  }

  function Identity(s: string): string { s }

  /** Python's `sorted(strings)`. */
  function SortStrings(ss: seq<string>): (r: seq<string>)
    ensures multiset(r) == multiset(ss) && |r| == |ss|
    ensures SortedBy(r, Identity)
    ensures DistinctBy(ss, Identity) ==> StrictlySortedBy(r, Identity)
  {
    SortBy(ss, Identity)
  }
}
