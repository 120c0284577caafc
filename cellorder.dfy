/**
 * The order pandas sorts group keys in: a missing value first, then integers by value, then
 * strings by code points (the numbers-before-strings order pandas falls back to for mixed keys),
 * and sorting a list of distinct keys into that order.
 */
module CellOrder {
  import opened Seqs
  import opened Strings
  import opened Tables

  predicate CellBefore(a: Cell, b: Cell) {
    match a
    case Empty => !b.Empty?
    case Int(m) => (b.Int? && m < b.n) || b.Str?
    case Str(s) => b.Str? && StrLess(s, b.s)
  }

  lemma CellBeforeIrreflexive(a: Cell)
    ensures !CellBefore(a, a)
  {
    if a.Str? {
      StrLessIrreflexive(a.s);
    }
  }

  lemma CellBeforeTransitive(a: Cell, b: Cell, c: Cell)
    requires CellBefore(a, b) && CellBefore(b, c)
    ensures CellBefore(a, c)
  {
    if a.Str? {
      StrLessTransitive(a.s, b.s, c.s);
    }
  }

  lemma CellBeforeTotal(a: Cell, b: Cell)
    requires a != b
    ensures CellBefore(a, b) || CellBefore(b, a)
  {
    if a.Str? && b.Str? {
      StrLessTotal(a.s, b.s);
    }
  }

  /** Every element comes strictly before every later one. */
  predicate StrictlySorted(s: seq<Cell>) {
    forall i, j :: 0 <= i < j < |s| ==> CellBefore(s[i], s[j])
  }

  lemma SortedDistinct(s: seq<Cell>)
    requires StrictlySorted(s)
    ensures Distinct(s)
  {
    forall i, j | 0 <= i < j < |s|
      ensures s[i] != s[j]
    {
      CellBeforeIrreflexive(s[i]);
    }
  }

  /** A key before the head of a sorted list is before all of it. */
  lemma BeforeAll(x: Cell, s: seq<Cell>)
    requires StrictlySorted(s) && |s| > 0 && CellBefore(x, s[0])
    ensures StrictlySorted([x] + s)
  {
    forall i, j | 0 <= i < j < |[x] + s|
      ensures CellBefore(([x] + s)[i], ([x] + s)[j])
    {
      if i == 0 && j > 1 {
        CellBeforeTransitive(x, s[0], s[j - 1]);
      }
    }
  }

  /** A head before every element of a sorted tail gives a sorted list. */
  lemma HeadBeforeRest(h: Cell, t: seq<Cell>, x: Cell, rest: seq<Cell>)
    requires StrictlySorted([h] + t) && CellBefore(h, x)
    requires StrictlySorted(rest) && multiset(rest) == multiset(t) + multiset{x}
    ensures StrictlySorted([h] + rest)
  {
    forall j | 0 <= j < |rest|
      ensures CellBefore(h, rest[j])
    {
      assert rest[j] in multiset(rest);
      if rest[j] != x {
        assert rest[j] in t;
        var k :| 0 <= k < |t| && t[k] == rest[j];
        assert ([h] + t)[0] == h && ([h] + t)[k + 1] == t[k];
      }
    }
    forall i, j | 0 <= i < j < |[h] + rest|
      ensures CellBefore(([h] + rest)[i], ([h] + rest)[j])
    {
      if i == 0 {
        assert ([h] + rest)[j] == rest[j - 1];
      } else {
        assert ([h] + rest)[i] == rest[i - 1] && ([h] + rest)[j] == rest[j - 1];
      }
    }
  }

  /** Insertion of a new key into a sorted list. */
  function InsertCell(x: Cell, s: seq<Cell>): (r: seq<Cell>)
    requires StrictlySorted(s) && x !in s
    ensures StrictlySorted(r) && multiset(r) == multiset(s) + multiset{x}
    decreases |s|
  {
    if s == [] then [x]
    else if CellBefore(x, s[0]) then
      BeforeAll(x, s);
      [x] + s
    else
      CellBeforeTotal(x, s[0]);
      assert s == [s[0]] + s[1..];
      var rest := InsertCell(x, s[1..]);
      HeadBeforeRest(s[0], s[1..], x, rest);
      [s[0]] + rest
  }

  /** A list of distinct keys in sorted order. */
  function SortCells(s: seq<Cell>): (r: seq<Cell>)
    requires Distinct(s)
    ensures StrictlySorted(r) && multiset(r) == multiset(s)
    decreases |s|
  {
    if s == [] then []
    else
      assert s == [s[0]] + s[1..];
      assert s[0] !in s[1..];
      var r := SortCells(s[1..]);
      assert s[0] !in multiset(r);
      InsertCell(s[0], r)
  }
}
