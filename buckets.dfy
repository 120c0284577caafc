/**
 * A stable bucket sort written as filters: the elements of position 0, then those of
 * position 1, and so on, each bucket in its original order. The column layout of a saved
 * status table is one of these, with positions nested as a class and a rank inside the class.
 *
 * `Keep` is `Seqs.Filter` without a contract: the layout proofs handle a dozen filters at
 * once, and only the facts proved below are given to them.
 */
module Buckets {
  import opened Wrappers
  import opened Seqs

  /**
   * The elements of `s` that satisfy `p`, in their original order. This is `Seqs.Filter` again,
   * on purpose: `Filter`'s quantified ensures, repeated for every filter of a layout, exhaust
   * the solver, and `KeepIsFilter` proves the two equal.
   */
  function Keep<T>(s: seq<T>, p: T -> bool): seq<T>
    decreases |s|
  {
    if s == [] then [] else (if p(s[0]) then [s[0]] else []) + Keep(s[1..], p)
  }

  lemma {:induction false} KeepIsFilter<T>(s: seq<T>, p: T -> bool)
    ensures Keep(s, p) == Filter(s, p)
    decreases |s|
  {
    if s != [] {
      KeepIsFilter(s[1..], p);
    }
  }

  lemma {:induction false} KeepConcat<T>(a: seq<T>, b: seq<T>, p: T -> bool)
    ensures Keep(a + b, p) == Keep(a, p) + Keep(b, p)
    decreases |a|
  {
    if a == [] {
      assert a + b == b;
    } else {
      var head := if p(a[0]) then [a[0]] else [];
      assert (a + b)[0] == a[0] && (a + b)[1..] == a[1..] + b;
      assert Keep(a + b, p) == head + Keep(a[1..] + b, p);
      KeepConcat(a[1..], b, p);
      assert Keep(a, p) == head + Keep(a[1..], p);
    }
  }

  lemma KeepOne<T>(x: T, p: T -> bool)
    ensures Keep([x], p) == if p(x) then [x] else []
  {
    assert Keep([x], p) == (if p(x) then [x] else []) + Keep([x][1..], p);
  }

  lemma {:induction false} KeepKeep<T>(s: seq<T>, p: T -> bool, q: T -> bool, pq: T -> bool)
    requires forall x :: pq(x) == (p(x) && q(x))
    ensures Keep(Keep(s, p), q) == Keep(s, pq)
    decreases |s|
  {
    if s != [] {
      KeepKeep(s[1..], p, q, pq);
      if p(s[0]) {
        assert Keep(s, p) == [s[0]] + Keep(s[1..], p);
        assert Keep(s, p)[1..] == Keep(s[1..], p);
      } else {
        assert Keep(s, p) == Keep(s[1..], p);
      }
    }
  }

  lemma {:induction false} KeepExt<T>(s: seq<T>, p: T -> bool, q: T -> bool)
    requires forall x :: p(x) == q(x)
    ensures Keep(s, p) == Keep(s, q)
    decreases |s|
  {
    if s != [] {
      KeepExt(s[1..], p, q);
    }
  }

  lemma {:induction false} KeepAll<T>(s: seq<T>, p: T -> bool)
    requires forall x :: p(x)
    ensures Keep(s, p) == s
    decreases |s|
  {
    if s != [] {
      KeepAll(s[1..], p);
    }
  }

  lemma {:induction false} KeepNone<T>(s: seq<T>, p: T -> bool)
    requires forall i :: 0 <= i < |s| ==> !p(s[i])
    ensures Keep(s, p) == []
    decreases |s|
  {
    if s != [] {
      KeepNone(s[1..], p);
    }
  }

  /** What is kept satisfies the predicate and comes from `s`. */
  lemma {:induction false} KeepHolds<T>(s: seq<T>, p: T -> bool)
    ensures forall i :: 0 <= i < |Keep(s, p)| ==> p(Keep(s, p)[i]) && Keep(s, p)[i] in s
    decreases |s|
  {
    if s != [] {
      KeepHolds(s[1..], p);
      var head := if p(s[0]) then [s[0]] else [];
      forall i | 0 <= i < |Keep(s, p)|
        ensures p(Keep(s, p)[i]) && Keep(s, p)[i] in s
      {
        if i >= |head| {
          assert Keep(s, p)[i] == Keep(s[1..], p)[i - |head|];
        }
      }
    }
  }

  lemma {:induction false} KeepDistinct<T>(s: seq<T>, p: T -> bool)
    requires Distinct(s)
    ensures Distinct(Keep(s, p))
    decreases |s|
  {
    if s != [] {
      KeepDistinct(s[1..], p);
      KeepHolds(s[1..], p);
      assert s[0] !in s[1..];
      var head := if p(s[0]) then [s[0]] else [];
      var rest := Keep(s[1..], p);
      forall i, j | 0 <= i < j < |head + rest|
        ensures (head + rest)[i] != (head + rest)[j]
      {
        if i < |head| {
          assert (head + rest)[j] == rest[j - |head|];
        }
      }
    }
  }

  /** Splitting a filter on `p` into the disjoint filters on `q` and `r` keeps the multiset. */
  lemma {:induction false} KeepSplit<T>(s: seq<T>, p: T -> bool, q: T -> bool, r: T -> bool)
    requires forall x :: p(x) == (q(x) || r(x)) && !(q(x) && r(x))
    ensures multiset(Keep(s, p)) == multiset(Keep(s, q)) + multiset(Keep(s, r))
    decreases |s|
  {
    if s != [] {
      KeepSplit(s[1..], p, q, r);
    }
  }

  function At<T>(pos: T -> nat, p: nat): T -> bool {
    x => pos(x) == p
  }

  function Below<T>(pos: T -> nat, p: nat): T -> bool {
    x => pos(x) < p
  }

  function InClass<T>(cls: T -> Option<nat>, k: nat): T -> bool {
    x => cls(x) == Some(k)
  }

  function Unclassed<T>(cls: T -> Option<nat>): T -> bool {
    x => cls(x).None?
  }

  function RankAt<T>(rank: (T, nat) -> nat, k: nat, r: nat): T -> bool {
    x => rank(x, k) == r
  }

  /** The elements of each class `0 .. n-1`, each class in its original order. */
  function Classes<T>(s: seq<T>, cls: T -> Option<nat>, n: nat): (gs: seq<seq<T>>)
    ensures |gs| == n
  {
    seq(n, k requires 0 <= k < n => Keep(s, InClass(cls, k)))
  }

  /** One more element goes to the end of its own class, and nowhere else. */
  lemma ClassesSnoc<T>(s: seq<T>, x: T, cls: T -> Option<nat>, n: nat)
    ensures cls(x).None? || cls(x).value >= n ==> Classes(s + [x], cls, n) == Classes(s, cls, n)
    ensures cls(x).Some? && cls(x).value < n ==>
      Classes(s + [x], cls, n) == Classes(s, cls, n)[cls(x).value := Classes(s, cls, n)[cls(x).value] + [x]]
  {
    var before, after := Classes(s, cls, n), Classes(s + [x], cls, n);
    forall m | 0 <= m < n
      ensures after[m] == before[m] + (if cls(x) == Some(m) then [x] else [])
    {
      KeepConcat(s, [x], InClass(cls, m));
      KeepOne(x, InClass(cls, m));
    }
    if cls(x).Some? && cls(x).value < n {
      var k := cls(x).value;
      assert forall m :: 0 <= m < n ==> after[m] == before[k := before[k] + [x]][m];
    } else {
      assert forall m :: 0 <= m < n ==> after[m] == before[m];
    }
  }

  /** The elements of class `k` by rank: rank 0 first, then 1, 2 and 3, each rank in its original order. */
  function SortClass<T>(g: seq<T>, rank: (T, nat) -> nat, k: nat): seq<T> {
    Keep(g, RankAt(rank, k, 0)) + Keep(g, RankAt(rank, k, 1))
      + Keep(g, RankAt(rank, k, 2)) + Keep(g, RankAt(rank, k, 3))
  }

  /** The sorted classes `0 .. k-1`, one after the other. */
  function LayClasses<T>(gs: seq<seq<T>>, rank: (T, nat) -> nat, k: nat): seq<T>
    requires k <= |gs|
    decreases k
  {
    if k == 0 then [] else LayClasses(gs, rank, k - 1) + SortClass(gs[k - 1], rank, k - 1)
  }

  /** The unclassed elements, then the classes in order, each class sorted by rank. */
  function Layout<T>(s: seq<T>, cls: T -> Option<nat>, rank: (T, nat) -> nat, n: nat): seq<T> {
    Keep(s, Unclassed(cls)) + LayClasses(Classes(s, cls, n), rank, n)
  }

  /** The position of an element in the layout: 0 when unclassed, then four ranks per class. */
  function Nested<T>(cls: T -> Option<nat>, rank: (T, nat) -> nat): T -> nat {
    x => match cls(x) case None => 0 case Some(k) => 1 + 4 * k + rank(x, k)
  }

  /** The elements of positions `0 .. hi-1`, position by position, each in its original order. */
  function Span<T>(s: seq<T>, pos: T -> nat, hi: nat): seq<T>
    decreases hi
  {
    if hi == 0 then [] else Span(s, pos, hi - 1) + Keep(s, At(pos, hi - 1))
  }

  /** Four more positions of the span, written out. */
  lemma SpanFour<T>(s: seq<T>, pos: T -> nat, lo: nat)
    ensures Span(s, pos, lo + 4) == Span(s, pos, lo) + Keep(s, At(pos, lo)) + Keep(s, At(pos, lo + 1))
      + Keep(s, At(pos, lo + 2)) + Keep(s, At(pos, lo + 3))
  {
    assert Span(s, pos, lo + 4) == Span(s, pos, lo + 3) + Keep(s, At(pos, lo + 3));
    assert Span(s, pos, lo + 3) == Span(s, pos, lo + 2) + Keep(s, At(pos, lo + 2));
    assert Span(s, pos, lo + 2) == Span(s, pos, lo + 1) + Keep(s, At(pos, lo + 1));
  }

  /** A class sorted by rank is the run of positions `1 + 4k .. 4 + 4k`. */
  lemma {:induction false} ClassPart<T>(s: seq<T>, cls: T -> Option<nat>, rank: (T, nat) -> nat, n: nat, k: nat)
    requires k < n
    requires forall x, j :: rank(x, j) < 4
    ensures SortClass(Classes(s, cls, n)[k], rank, k)
      == Keep(s, At(Nested(cls, rank), 1 + 4 * k)) + Keep(s, At(Nested(cls, rank), 1 + 4 * k + 1))
         + Keep(s, At(Nested(cls, rank), 1 + 4 * k + 2)) + Keep(s, At(Nested(cls, rank), 1 + 4 * k + 3))
  {
    var pos := Nested(cls, rank);
    forall r: nat | r < 4
      ensures Keep(Keep(s, InClass(cls, k)), RankAt(rank, k, r)) == Keep(s, At(pos, 1 + 4 * k + r))
    {
      KeepKeep(s, InClass(cls, k), RankAt(rank, k, r), At(pos, 1 + 4 * k + r));
    }
  }

  lemma Regroup<T>(base: seq<T>, prev: seq<T>, a: seq<T>, b: seq<T>, c: seq<T>, d: seq<T>)
    ensures base + (prev + (a + b + c + d)) == (base + prev) + a + b + c + d
  {
  }

  /** Laying out one more class appends the run of its four positions. */
  lemma LayOneMore<T>(s: seq<T>, cls: T -> Option<nat>, rank: (T, nat) -> nat, n: nat, k: nat)
    requires k < n
    requires forall x, j :: rank(x, j) < 4
    ensures LayClasses(Classes(s, cls, n), rank, k + 1) == LayClasses(Classes(s, cls, n), rank, k)
      + (Keep(s, At(Nested(cls, rank), 1 + 4 * k)) + Keep(s, At(Nested(cls, rank), 1 + 4 * k + 1))
         + Keep(s, At(Nested(cls, rank), 1 + 4 * k + 2)) + Keep(s, At(Nested(cls, rank), 1 + 4 * k + 3)))
  {
    ClassPart(s, cls, rank, n, k);
  }

  /** One class further: if the first `k` classes are the span up to `1 + 4k`, the first `k + 1` are the span up to `5 + 4k`. */
  lemma LayStep<T>(s: seq<T>, cls: T -> Option<nat>, rank: (T, nat) -> nat, n: nat, k: nat)
    requires k < n
    requires forall x, j :: rank(x, j) < 4
    requires Keep(s, At(Nested(cls, rank), 0)) + LayClasses(Classes(s, cls, n), rank, k) == Span(s, Nested(cls, rank), 1 + 4 * k)
    ensures Keep(s, At(Nested(cls, rank), 0)) + LayClasses(Classes(s, cls, n), rank, k + 1) == Span(s, Nested(cls, rank), 1 + 4 * (k + 1))
  {
    var pos := Nested(cls, rank);
    var lo := 1 + 4 * k;
    var base, prev := Keep(s, At(pos, 0)), LayClasses(Classes(s, cls, n), rank, k);
    var a, b, c, d := Keep(s, At(pos, lo)), Keep(s, At(pos, lo + 1)), Keep(s, At(pos, lo + 2)), Keep(s, At(pos, lo + 3));
    assert LayClasses(Classes(s, cls, n), rank, k + 1) == prev + (a + b + c + d) by {
      LayOneMore(s, cls, rank, n, k);
    }
    assert Span(s, pos, lo + 4) == Span(s, pos, lo) + a + b + c + d by {
      SpanFour(s, pos, lo);
    }
    Regroup(base, prev, a, b, c, d);
  }

  lemma {:induction false} LayClassesIsSpan<T>(s: seq<T>, cls: T -> Option<nat>, rank: (T, nat) -> nat, n: nat, k: nat)
    requires k <= n
    requires forall x, j :: rank(x, j) < 4
    ensures Keep(s, At(Nested(cls, rank), 0)) + LayClasses(Classes(s, cls, n), rank, k) == Span(s, Nested(cls, rank), 1 + 4 * k)
    decreases k
  {
    if k > 0 {
      LayClassesIsSpan(s, cls, rank, n, k - 1);
      LayStep(s, cls, rank, n, k - 1);
    }
  }

  /** The layout is the stable sort of `s` by nested position. */
  lemma LayoutIsSpan<T>(s: seq<T>, cls: T -> Option<nat>, rank: (T, nat) -> nat, n: nat)
    requires forall x, j :: rank(x, j) < 4
    ensures Layout(s, cls, rank, n) == Span(s, Nested(cls, rank), 1 + 4 * n)
  {
    KeepExt(s, Unclassed(cls), At(Nested(cls, rank), 0));
    LayClassesIsSpan(s, cls, rank, n, n);
  }

  /** Picking one position out of the span gives that position's elements in their original order. */
  lemma {:induction false} SpanKeep<T>(s: seq<T>, pos: T -> nat, hi: nat, p: nat)
    ensures Keep(Span(s, pos, hi), At(pos, p)) == if p < hi then Keep(s, At(pos, p)) else []
    decreases hi
  {
    if hi > 0 {
      SpanKeep(s, pos, hi - 1, p);
      KeepConcat(Span(s, pos, hi - 1), Keep(s, At(pos, hi - 1)), At(pos, p));
      if p == hi - 1 {
        KeepKeep(s, At(pos, hi - 1), At(pos, p), At(pos, p));
      } else {
        KeepHolds(s, At(pos, hi - 1));
        KeepNone(Keep(s, At(pos, hi - 1)), At(pos, p));
      }
    }
  }

  /** Every element of the span has a position below `hi`, and positions never decrease along it. */
  lemma {:induction false} SpanSorted<T>(s: seq<T>, pos: T -> nat, hi: nat)
    ensures forall i :: 0 <= i < |Span(s, pos, hi)| ==> pos(Span(s, pos, hi)[i]) < hi
    ensures forall i, j :: 0 <= i < j < |Span(s, pos, hi)| ==> pos(Span(s, pos, hi)[i]) <= pos(Span(s, pos, hi)[j])
    decreases hi
  {
    if hi > 0 {
      SpanSorted(s, pos, hi - 1);
      KeepHolds(s, At(pos, hi - 1));
      var a := Span(s, pos, hi - 1);
      var b := Keep(s, At(pos, hi - 1));
      assert Span(s, pos, hi) == a + b;
      forall i | 0 <= i < |a + b|
        ensures pos((a + b)[i]) == if i < |a| then pos(a[i]) else hi - 1
      {
        if i >= |a| {
          assert (a + b)[i] == b[i - |a|];
        }
      }
    }
  }

  /** Elements of different positions land in different buckets, so distinct elements stay distinct. */
  lemma {:induction false} SpanDistinct<T>(s: seq<T>, pos: T -> nat, hi: nat)
    requires Distinct(s)
    ensures Distinct(Span(s, pos, hi))
    decreases hi
  {
    if hi > 0 {
      SpanDistinct(s, pos, hi - 1);
      SpanSorted(s, pos, hi - 1);
      KeepHolds(s, At(pos, hi - 1));
      KeepDistinct(s, At(pos, hi - 1));
      var a := Span(s, pos, hi - 1);
      var b := Keep(s, At(pos, hi - 1));
      forall i, j | 0 <= i < j < |a + b|
        ensures (a + b)[i] != (a + b)[j]
      {
        if i < |a| && j >= |a| {
          assert (a + b)[j] == b[j - |a|];
          assert pos((a + b)[i]) < hi - 1 == pos((a + b)[j]);
        } else if i >= |a| {
          assert (a + b)[i] == b[i - |a|] && (a + b)[j] == b[j - |a|];
        }
      }
    }
  }

  /** The span holds, with their multiplicities, exactly the elements of positions below `hi`. */
  lemma {:induction false} SpanMultiset<T>(s: seq<T>, pos: T -> nat, hi: nat)
    ensures multiset(Span(s, pos, hi)) == multiset(Keep(s, Below(pos, hi)))
    decreases hi
  {
    if hi == 0 {
      KeepNone(s, Below(pos, 0));
    } else {
      SpanMultiset(s, pos, hi - 1);
      KeepSplit(s, Below(pos, hi), Below(pos, hi - 1), At(pos, hi - 1));
    }
  }

  /** Two sequences with the same buckets have the same span. */
  lemma {:induction false} SpanOfSameBuckets<T>(a: seq<T>, b: seq<T>, pos: T -> nat, hi: nat)
    requires forall p: nat :: p < hi ==> Keep(a, At(pos, p)) == Keep(b, At(pos, p))
    ensures Span(a, pos, hi) == Span(b, pos, hi)
    decreases hi
  {
    if hi > 0 {
      SpanOfSameBuckets(a, b, pos, hi - 1);
      assert Keep(a, At(pos, hi - 1)) == Keep(b, At(pos, hi - 1));
    }
  }

  /**
   * When every position is below `hi`, the span is a stable sort: a permutation of `s`, sorted
   * by position, each bucket in its original order.
   */
  lemma SpanSorts<T>(s: seq<T>, pos: T -> nat, hi: nat)
    requires forall x :: pos(x) < hi
    ensures multiset(Span(s, pos, hi)) == multiset(s)
    ensures Distinct(s) ==> Distinct(Span(s, pos, hi))
    ensures forall i, j :: 0 <= i < j < |Span(s, pos, hi)| ==> pos(Span(s, pos, hi)[i]) <= pos(Span(s, pos, hi)[j])
    ensures forall p: nat :: Keep(Span(s, pos, hi), At(pos, p)) == Keep(s, At(pos, p))
  {
    SpanMultiset(s, pos, hi);
    KeepAll(s, Below(pos, hi));
    if Distinct(s) {
      SpanDistinct(s, pos, hi);
    }
    SpanSorted(s, pos, hi);
    forall p: nat
      ensures Keep(Span(s, pos, hi), At(pos, p)) == Keep(s, At(pos, p))
    {
      SpanKeep(s, pos, hi, p);
      if p >= hi {
        KeepNone(s, At(pos, p));
      }
    }
  }

  /** Sorting an already sorted sequence changes nothing. */
  lemma SpanIdempotent<T>(s: seq<T>, pos: T -> nat, hi: nat)
    requires forall x :: pos(x) < hi
    ensures Span(Span(s, pos, hi), pos, hi) == Span(s, pos, hi)
  {
    SpanSorts(s, pos, hi);
    SpanOfSameBuckets(Span(s, pos, hi), s, pos, hi);
  }
}
