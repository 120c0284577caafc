/** Order-preserving filtering, first-occurrence deduplication and flattening of sequences. */
module Seqs {

  /** The elements of `s` that satisfy `p`, in their original order. */
  function Filter<T(==)>(s: seq<T>, p: T -> bool): (r: seq<T>)
    ensures |r| <= |s|
    ensures forall i :: 0 <= i < |r| ==> r[i] in s && p(r[i])
    ensures forall i :: 0 <= i < |s| && p(s[i]) ==> s[i] in r
    decreases |s|
  {
    if s == [] then [] else (if p(s[0]) then [s[0]] else []) + Filter(s[1..], p)
  }

  predicate Distinct<T(==)>(s: seq<T>) {
    forall i, j :: 0 <= i < j < |s| ==> s[i] != s[j]
  }

  /** `a` can be obtained from `b` by deleting elements: the order of what is kept is unchanged. */
  predicate IsSubseq<T(==)>(a: seq<T>, b: seq<T>)
    decreases |b|
  {
    if a == [] then true
    else if b == [] then false
    else (a[0] == b[0] && IsSubseq(a[1..], b[1..])) || IsSubseq(a, b[1..])
  }

  /** The first occurrence of every element of `s`, in the order of first appearance. */
  function Dedup<T(==)>(s: seq<T>): (r: seq<T>)
    ensures forall i :: 0 <= i < |r| ==> r[i] in s
    ensures forall i :: 0 <= i < |s| ==> s[i] in r
    ensures Distinct(r)
    ensures |r| <= |s|
    decreases |s|
  {
    if s == [] then []
    else
      var d := Dedup(s[..|s| - 1]);
      if s[|s| - 1] in d then d else d + [s[|s| - 1]]
  }

  function Map<T, U>(s: seq<T>, f: T -> U): (r: seq<U>)
    ensures |r| == |s|
    ensures forall i :: 0 <= i < |s| ==> r[i] == f(s[i])
  {
    seq(|s|, i requires 0 <= i < |s| => f(s[i]))
  }

  function Flatten<T>(ss: seq<seq<T>>): (r: seq<T>)
    decreases |ss|
  {
    if ss == [] then [] else ss[0] + Flatten(ss[1..])
  }

  lemma {:induction false} FilterConcat<T>(a: seq<T>, b: seq<T>, p: T -> bool)
    ensures Filter(a + b, p) == Filter(a, p) + Filter(b, p)
    decreases |a|
  {
    if a == [] {
      assert a + b == b;
    } else {
      assert (a + b)[1..] == a[1..] + b;
      FilterConcat(a[1..], b, p);
    }
  }

  lemma {:induction false} FilterFilter<T>(s: seq<T>, p: T -> bool, q: T -> bool, pq: T -> bool)
    requires forall x :: pq(x) == (p(x) && q(x))
    ensures Filter(Filter(s, p), q) == Filter(s, pq)
    decreases |s|
  {
    if s != [] {
      FilterFilter(s[1..], p, q, pq);
      if p(s[0]) {
        assert Filter(s, p) == [s[0]] + Filter(s[1..], p);
        assert Filter(s, p)[1..] == Filter(s[1..], p);
      } else {
        assert Filter(s, p) == Filter(s[1..], p);
      }
    }
  }

  /** Filtering by two predicates that agree everywhere gives the same sequence. */
  lemma {:induction false} FilterExt<T>(s: seq<T>, p: T -> bool, q: T -> bool)
    requires forall x :: x in s ==> p(x) == q(x)
    ensures Filter(s, p) == Filter(s, q)
    decreases |s|
  {
    if s != [] {
      FilterExt(s[1..], p, q);
    }
  }

  /** Filtering then projecting is projecting then filtering, when the predicate only looks at the projection. */
  lemma {:induction false} FilterMap<T, U>(s: seq<T>, f: T -> U, p: U -> bool, q: T -> bool)
    requires forall x :: q(x) == p(f(x))
    ensures Map(Filter(s, q), f) == Filter(Map(s, f), p)
    decreases |s|
  {
    if s != [] {
      FilterMap(s[1..], f, p, q);
      var m := Map(s, f);
      assert m[0] == f(s[0]) && m[1..] == Map(s[1..], f);
      if q(s[0]) {
        assert Filter(s, q) == [s[0]] + Filter(s[1..], q);
        MapConcat([s[0]], Filter(s[1..], q), f);
        assert Filter(m, p) == [m[0]] + Filter(m[1..], p);
      } else {
        assert Filter(s, q) == Filter(s[1..], q);
        assert Filter(m, p) == Filter(m[1..], p);
      }
    }
  }

  lemma MapConcat<T, U>(a: seq<T>, b: seq<T>, f: T -> U)
    ensures Map(a + b, f) == Map(a, f) + Map(b, f)
  {
  }

  lemma {:induction false} FilterAll<T>(s: seq<T>, p: T -> bool)
    requires forall x :: x in s ==> p(x)
    ensures Filter(s, p) == s
    decreases |s|
  {
    if s != [] {
      FilterAll(s[1..], p);
    }
  }

  lemma {:induction false} FilterNone<T>(s: seq<T>, p: T -> bool)
    requires forall x :: x in s ==> !p(x)
    ensures Filter(s, p) == []
    decreases |s|
  {
    if s != [] {
      FilterNone(s[1..], p);
    }
  }

  lemma {:induction false} FilterIsSubseq<T>(s: seq<T>, p: T -> bool)
    ensures IsSubseq(Filter(s, p), s)
    decreases |s|
  {
    if s != [] {
      FilterIsSubseq(s[1..], p);
      if p(s[0]) {
        var f := Filter(s, p);
        assert f == [s[0]] + Filter(s[1..], p);
        assert f[0] == s[0] && f[1..] == Filter(s[1..], p);
      } else {
        assert Filter(s, p) == Filter(s[1..], p);
      }
    }
  }

  /** An element outside a sequence of distinct elements can be put in front of it. */
  lemma DistinctCons<T>(x: T, s: seq<T>)
    requires x !in s && Distinct(s)
    ensures Distinct([x] + s)
  {
    forall i, j | 0 <= i < j < |[x] + s|
      ensures ([x] + s)[i] != ([x] + s)[j]
    {
      assert ([x] + s)[j] == s[j - 1];
      if i > 0 {
        assert ([x] + s)[i] == s[i - 1];
      }
    }
  }

  lemma {:induction false} FilterDistinct<T>(s: seq<T>, p: T -> bool)
    ensures Distinct(s) ==> Distinct(Filter(s, p))
    decreases |s|
  {
    if s != [] && Distinct(s) {
      FilterDistinct(s[1..], p);
      assert s[0] !in s[1..];
    }
  }

  /** Removing an element that the predicate rejects does not change the filtered sequence. */
  lemma FilterIgnores<T>(a: seq<T>, x: T, b: seq<T>, p: T -> bool)
    requires !p(x)
    ensures Filter(a + [x] + b, p) == Filter(a + b, p)
  {
    FilterConcat(a + [x], b, p);
    FilterConcat(a, [x], p);
    FilterConcat(a, b, p);
    assert Filter([x], p) == [];
  }

  lemma {:induction false} DedupIsSubseq<T>(s: seq<T>)
    ensures IsSubseq(Dedup(s), s)
    decreases |s|
  {
    if s != [] {
      var init := s[..|s| - 1];
      DedupIsSubseq(init);
      SubseqAppend(Dedup(init), init, s[|s| - 1]);
      assert init + [s[|s| - 1]] == s;
    }
  }

  /** The position of the first occurrence of `x` in `s`. */
  function FirstIndex<T(==)>(s: seq<T>, x: T): (i: nat)
    requires x in s
    ensures i < |s| && s[i] == x && x !in s[..i]
    decreases |s|
  {
    if s[0] == x then 0
    else
      var k := FirstIndex(s[1..], x);
      assert s[..k + 1] == [s[0]] + s[1..][..k];
      k + 1
  }

  /** A position holding `x` with no earlier `x` is the first index of `x`. */
  lemma FirstIndexUnique<T>(s: seq<T>, x: T, k: nat)
    requires k < |s| && s[k] == x && x !in s[..k]
    ensures FirstIndex(s, x) == k
  {
  }

  /** Appending an element does not move the first occurrence of anything already present. */
  lemma FirstIndexSnoc<T>(s: seq<T>, y: T, x: T)
    requires x in s
    ensures FirstIndex(s + [y], x) == FirstIndex(s, x)
  {
    var k := FirstIndex(s, x);
    assert (s + [y])[..k] == s[..k];
    FirstIndexUnique(s + [y], x, k);
  }

  /**
   * Deduplication keeps the first occurrence of each element: the kept elements appear in the
   * order of their first positions in `s`.
   */
  lemma {:induction false} DedupKeepsFirst<T>(s: seq<T>)
    ensures forall i, j :: 0 <= i < j < |Dedup(s)| ==> FirstIndex(s, Dedup(s)[i]) < FirstIndex(s, Dedup(s)[j])
    decreases |s|
  {
    if s != [] {
      var init := s[..|s| - 1];
      var y := s[|s| - 1];
      assert s == init + [y];
      DedupKeepsFirst(init);
      var d := Dedup(init);
      forall z | z in d
        ensures FirstIndex(s, z) == FirstIndex(init, z)
      {
        FirstIndexSnoc(init, y, z);
      }
      if y !in d {
        assert y !in init;
        assert s[..|init|] == init;
        FirstIndexUnique(s, y, |init|);
        assert Dedup(s) == d + [y];
        forall i, j | 0 <= i < j < |Dedup(s)|
          ensures FirstIndex(s, Dedup(s)[i]) < FirstIndex(s, Dedup(s)[j])
        {
          if j < |d| {
            assert Dedup(s)[i] == d[i] && Dedup(s)[j] == d[j];
          } else {
            assert Dedup(s)[i] == d[i];
          }
        }
      }
    }
  }

  /** A sequence that is already distinct is its own deduplication. */
  lemma {:induction false} DedupDistinct<T>(s: seq<T>)
    requires Distinct(s)
    ensures Dedup(s) == s
    decreases |s|
  {
    if s != [] {
      var init := s[..|s| - 1];
      DedupDistinct(init);
      assert s[|s| - 1] !in init;
      assert init + [s[|s| - 1]] == s;
    }
  }

  lemma {:induction false} SubseqAppend<T>(a: seq<T>, b: seq<T>, x: T)
    requires IsSubseq(a, b)
    ensures IsSubseq(a, b + [x]) && IsSubseq(a + [x], b + [x])
    decreases |b|
  {
    if a == [] {
      SubseqEmpty(b + [x]);
      assert IsSubseq([x], [x]) by {
        assert [x][1..] == [];
      }
      SubseqOfSingletonTail(b, x);
      assert a + [x] == [x];
    } else {
      assert b != [];
      assert (b + [x])[1..] == b[1..] + [x];
      if a[0] == b[0] && IsSubseq(a[1..], b[1..]) {
        SubseqAppend(a[1..], b[1..], x);
        assert (a + [x])[1..] == a[1..] + [x];
      } else {
        SubseqAppend(a, b[1..], x);
      }
    }
  }

  /** What a subsequence holds, the sequence holds. */
  lemma {:induction false} SubseqMembers<T>(a: seq<T>, b: seq<T>)
    requires IsSubseq(a, b)
    ensures forall i :: 0 <= i < |a| ==> a[i] in b
    decreases |b|
  {
    if a != [] && b != [] {
      if a[0] == b[0] && IsSubseq(a[1..], b[1..]) {
        SubseqMembers(a[1..], b[1..]);
        forall i | 1 <= i < |a|
          ensures a[i] in b
        {
          assert a[1..][i - 1] == a[i];
        }
      } else {
        SubseqMembers(a, b[1..]);
      }
    }
  }

  lemma SubseqEmpty<T>(b: seq<T>)
    ensures IsSubseq([], b)
  {
  }

  lemma {:induction false} SubseqOfSingletonTail<T>(b: seq<T>, x: T)
    ensures IsSubseq([x], b + [x])
    decreases |b|
  {
    if b == [] {
      assert [x][1..] == [];
    } else {
      assert (b + [x])[1..] == b[1..] + [x];
      SubseqOfSingletonTail(b[1..], x);
    }
  }

  lemma {:induction false} FlattenConcat<T>(a: seq<seq<T>>, b: seq<seq<T>>)
    ensures Flatten(a + b) == Flatten(a) + Flatten(b)
    decreases |a|
  {
    if a == [] {
      assert a + b == b;
    } else {
      assert (a + b)[1..] == a[1..] + b;
      FlattenConcat(a[1..], b);
    }
  }

  /** The `j`-th element of the `i`-th piece sits after all the pieces before it. */
  lemma FlattenIndex<T>(ss: seq<seq<T>>, i: nat, j: nat)
    requires i < |ss| && j < |ss[i]|
    ensures |Flatten(ss[..i])| + j < |Flatten(ss)|
    ensures Flatten(ss)[|Flatten(ss[..i])| + j] == ss[i][j]
  {
    assert ss == ss[..i] + ss[i..];
    FlattenConcat(ss[..i], ss[i..]);
    assert Flatten(ss[i..]) == ss[i] + Flatten(ss[i..][1..]);
  }

  /** Every element of the flattened sequence comes from some piece. */
  lemma {:induction false} FlattenMember<T>(ss: seq<seq<T>>, k: nat)
    requires k < |Flatten(ss)|
    ensures exists i, j :: 0 <= i < |ss| && 0 <= j < |ss[i]| && Flatten(ss)[k] == ss[i][j]
    decreases |ss|
  {
    if k < |ss[0]| {
      assert Flatten(ss)[k] == ss[0][k];
    } else {
      FlattenMember(ss[1..], k - |ss[0]|);
      var i, j :| 0 <= i < |ss[1..]| && 0 <= j < |ss[1..][i]| && Flatten(ss[1..])[k - |ss[0]|] == ss[1..][i][j];
      assert ss[1..][i] == ss[i + 1];
    }
  }

  lemma FlattenSnoc<T>(a: seq<seq<T>>, x: seq<T>)
    ensures Flatten(a + [x]) == Flatten(a) + x
  {
    FlattenConcat(a, [x]);
    assert Flatten([x]) == x + Flatten([x][1..]);
  }
}
