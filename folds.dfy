/**
 * A fallible step run over a sequence, the way a Python loop runs until its first exception:
 * either collecting the step's lists one after the other, or threading a value through the steps.
 */
module Folds {
  import opened Wrappers

  /** The lists `f` gives for the elements of `xs`, concatenated in order; the first failure ends it. */
  function ConcatMapResult<T, U, E>(xs: seq<T>, f: T -> Result<seq<U>, E>): Result<seq<U>, E>
    decreases |xs|
  {
    if xs == [] then Ok([])
    else
      var init :- ConcatMapResult(xs[..|xs| - 1], f);
      var last :- f(xs[|xs| - 1]);
      Ok(init + last)
  }

  /** Once a prefix fails, the whole sequence fails with the same error. */
  lemma {:induction false} ConcatMapFail<T, U, E>(xs: seq<T>, f: T -> Result<seq<U>, E>, n: nat)
    requires n <= |xs| && ConcatMapResult(xs[..n], f).Err?
    ensures ConcatMapResult(xs, f) == ConcatMapResult(xs[..n], f)
    decreases |xs| - n
  {
    if n < |xs| {
      var m := |xs| - 1;
      assert xs[..m][..n] == xs[..n];
      ConcatMapFail(xs[..m], f, n);
    } else {
      assert xs[..n] == xs;
    }
  }

  /** Extending the prefix by one element runs one more step. */
  lemma ConcatMapSnoc<T, U, E>(xs: seq<T>, f: T -> Result<seq<U>, E>, n: nat)
    requires n < |xs|
    ensures ConcatMapResult(xs[..n + 1], f) ==
      match ConcatMapResult(xs[..n], f)
      case Err(e) => Err(e)
      case Ok(init) => (match f(xs[n]) case Err(e) => Err(e) case Ok(last) => Ok(init + last))
  {
    assert xs[..n + 1][..n] == xs[..n] && xs[..n + 1][n] == xs[n];
  }

  /** When no step fails, neither does the whole sequence. */
  lemma {:induction false} ConcatMapAllOk<T, U, E>(xs: seq<T>, f: T -> Result<seq<U>, E>)
    requires forall i :: 0 <= i < |xs| ==> f(xs[i]).Ok?
    ensures ConcatMapResult(xs, f).Ok?
    decreases |xs|
  {
    if xs != [] {
      ConcatMapAllOk(xs[..|xs| - 1], f);
    }
  }

  /** When every step gives a list of length `k`, the result has `k` elements per element of `xs`. */
  lemma {:induction false} ConcatMapCount<T, U, E>(xs: seq<T>, f: T -> Result<seq<U>, E>, k: nat)
    requires forall x :: f(x).Ok? ==> |f(x).value| == k
    ensures ConcatMapResult(xs, f).Ok? ==> |ConcatMapResult(xs, f).value| == |xs| * k
    decreases |xs|
  {
    if xs != [] {
      ConcatMapCount(xs[..|xs| - 1], f, k);
    }
  }

  /** When every step gives one element, the result lists the steps' elements in order. */
  lemma {:induction false} ConcatMapSingletons<T, U, E>(xs: seq<T>, f: T -> Result<seq<U>, E>)
    requires forall x :: f(x).Ok? ==> |f(x).value| == 1
    ensures ConcatMapResult(xs, f).Ok? ==>
      && |ConcatMapResult(xs, f).value| == |xs|
      && forall i :: 0 <= i < |xs| ==> f(xs[i]) == Ok([ConcatMapResult(xs, f).value[i]])
    decreases |xs|
  {
    if xs != [] && ConcatMapResult(xs, f).Ok? {
      var m := |xs| - 1;
      ConcatMapSingletons(xs[..m], f);
      var init := ConcatMapResult(xs[..m], f).value;
      var ys := ConcatMapResult(xs, f).value;
      assert ys == init + f(xs[m]).value;
      forall i | 0 <= i < |xs|
        ensures f(xs[i]) == Ok([ys[i]])
      {
        if i < m {
          assert xs[..m][i] == xs[i] && ys[i] == init[i];
        } else {
          assert f(xs[m]).value == [ys[m]];
        }
      }
    }
  }

  /** `s` threaded through `f` over the elements of `xs`, in order; the first failure ends it. */
  function FoldResult<S, T, E>(s: S, xs: seq<T>, f: (S, T) -> Result<S, E>): Result<S, E>
    decreases |xs|
  {
    if xs == [] then Ok(s)
    else
      var init :- FoldResult(s, xs[..|xs| - 1], f);
      f(init, xs[|xs| - 1])
  }

  /** Once a prefix fails, the whole sequence fails with the same error. */
  lemma {:induction false} FoldFail<S, T, E>(s: S, xs: seq<T>, f: (S, T) -> Result<S, E>, n: nat)
    requires n <= |xs| && FoldResult(s, xs[..n], f).Err?
    ensures FoldResult(s, xs, f) == FoldResult(s, xs[..n], f)
    decreases |xs| - n
  {
    if n < |xs| {
      var m := |xs| - 1;
      assert xs[..m][..n] == xs[..n];
      FoldFail(s, xs[..m], f, n);
    } else {
      assert xs[..n] == xs;
    }
  }

  /** Extending the prefix by one element runs one more step. */
  lemma FoldSnoc<S, T, E>(s: S, xs: seq<T>, f: (S, T) -> Result<S, E>, n: nat)
    requires n < |xs|
    ensures FoldResult(s, xs[..n + 1], f) ==
      match FoldResult(s, xs[..n], f)
      case Err(e) => Err(e)
      case Ok(v) => f(v, xs[n])
  {
    assert xs[..n + 1][..n] == xs[..n] && xs[..n + 1][n] == xs[n];
  }

  /** A property every successful step preserves holds of the final value. */
  lemma {:induction false} FoldKeeps<S, T, E>(s: S, xs: seq<T>, f: (S, T) -> Result<S, E>, p: S -> bool)
    requires p(s)
    requires forall a, x :: p(a) && f(a, x).Ok? ==> p(f(a, x).value)
    ensures FoldResult(s, xs, f).Ok? ==> p(FoldResult(s, xs, f).value)
    decreases |xs|
  {
    if xs != [] {
      FoldKeeps(s, xs[..|xs| - 1], f, p);
    }
  }
}
