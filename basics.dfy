/** Small shared vocabulary: optional values, bytes, and the outcome of running a tool. */
module Basics {

  datatype Option<T> = None | Some(value: T)

  /** An octet, as produced by `str.encode("utf-8")`. */
  newtype byte = b: int | 0 <= b < 256

  /**
   * What a run of a command-line tool leaves behind: the process exit status and the
   * text of every `print` (or `SystemExit` message) in the order they were issued.
   * An uncaught Python exception ends the process with status 1; its traceback text
   * is not modelled, so a crash adds no line.
   */
  datatype Exit = Exit(code: int, lines: seq<string>)

  /** Exit status of a Python process that ends with an uncaught exception, or with `SystemExit(<message>)`. */
  const EXCEPTION_STATUS := 1

  /** Result of `raise SystemExit(main())` when `main` returns None. */
  const RETURNED_NONE := 0

  /** `[f(x) for x in xs]`, built from the left. */
  function Map<A, B>(f: A -> B, xs: seq<A>): (r: seq<B>)
    ensures |r| == |xs|
  {
    if |xs| == 0 then [] else Map(f, xs[..|xs| - 1]) + [f(xs[|xs| - 1])]
  }

  lemma {:induction false} MapAt<A, B>(f: A -> B, xs: seq<A>, i: nat)
    requires i < |xs|
    ensures Map(f, xs)[i] == f(xs[i])
  {
    if i < |xs| - 1 {
      MapAt(f, xs[..|xs| - 1], i);
    }
  }

  /** `[f(x) for x in xs[:k]]` where `f` may raise: None as soon as one application fails. */
  function TryMap<A, B>(f: A -> Option<B>, xs: seq<A>, k: nat): (r: Option<seq<B>>)
    requires k <= |xs|
    ensures r.Some? ==> |r.value| == k
  {
    if k == 0 then Some([])
    else
      match TryMap(f, xs, k - 1)
      case None => None
      case Some(p) =>
        match f(xs[k - 1])
        case None => None
        case Some(y) => Some(p + [y])
  }

  /** The comprehension completes exactly when every application succeeds. */
  lemma {:induction false} TryMapDefined<A, B>(f: A -> Option<B>, xs: seq<A>, k: nat)
    requires k <= |xs|
    ensures TryMap(f, xs, k).Some? <==> forall i :: 0 <= i < k ==> f(xs[i]).Some?
  {
    if k > 0 {
      TryMapDefined(f, xs, k - 1);
    }
  }

  /** When the comprehension completes, its `i`-th element is what `f` gave for the `i`-th item. */
  lemma {:induction false} TryMapAt<A, B>(f: A -> Option<B>, xs: seq<A>, k: nat, i: nat)
    requires i < k <= |xs| && TryMap(f, xs, k).Some?
    ensures f(xs[i]).Some? && TryMap(f, xs, k).value[i] == f(xs[i]).value
  {
    var p := TryMap(f, xs, k - 1).value;
    if i < k - 1 {
      TryMapAt(f, xs, k - 1, i);
      assert (p + [f(xs[k - 1]).value])[i] == p[i];
    }
  }
}
