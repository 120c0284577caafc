/**
 * `pd.merge(left, right, on=keys, how="outer")` for two tables that share no column other than
 * the keys: every left row joined with each right row of equal key, a left row without partner
 * padded with empty cells, then every right row without partner padded the same way.
 */
module Merge {
  import opened Wrappers
  import opened Seqs
  import opened Tables

  /** The key cells of a row, in key order. */
  function KeyOf(r: Row, keys: seq<string>): (k: seq<Cell>)
    ensures |k| == |keys|
    ensures forall i :: 0 <= i < |keys| ==> k[i] == Get(r, keys[i])
  {
    seq(|keys|, i requires 0 <= i < |keys| => Get(r, keys[i]))
  }

  /** `r` with an empty cell added for every column of `cols` it lacks. */
  function Pad(r: Row, cols: seq<string>): (o: Row)
    ensures forall c :: c in o <==> c in r || c in cols
    ensures forall c :: c in r ==> o[c] == r[c]
    ensures forall c :: c !in r ==> Get(o, c) == Empty
  {
    r + map c | c in cols && c !in r :: Empty
  }

  /** The right rows whose key equals the key of `lr`, in their order. */
  function Matches(lr: Row, rrows: seq<Row>, keys: seq<string>): (ms: seq<Row>)
    ensures forall i :: 0 <= i < |ms| ==> ms[i] in rrows && KeyOf(ms[i], keys) == KeyOf(lr, keys)
    ensures forall i :: 0 <= i < |rrows| && KeyOf(rrows[i], keys) == KeyOf(lr, keys) ==> rrows[i] in ms
  {
    Filter(rrows, rr => KeyOf(rr, keys) == KeyOf(lr, keys))
  }

  function Combine(lr: Row, ms: seq<Row>): (o: seq<Row>)
    ensures |o| == |ms|
    ensures forall i :: 0 <= i < |ms| ==> o[i] == lr + ms[i]
  {
    seq(|ms|, i requires 0 <= i < |ms| => lr + ms[i])
  }

  /** The rows contributed by the left table, in left order. */
  function LeftPart(lrows: seq<Row>, right: Table, keys: seq<string>): seq<Row>
    decreases |lrows|
  {
    if lrows == [] then []
    else
      var ms := Matches(lrows[0], right.rows, keys);
      (if ms == [] then [Pad(lrows[0], right.columns)] else Combine(lrows[0], ms))
      + LeftPart(lrows[1..], right, keys)
  }

  /** Some left row has the same key as `rr`. */
  predicate Matched(rr: Row, lrows: seq<Row>, keys: seq<string>) {
    exists i :: 0 <= i < |lrows| && KeyOf(lrows[i], keys) == KeyOf(rr, keys)
  }

  function PadAll(rows: seq<Row>, cols: seq<string>): (o: seq<Row>)
    ensures |o| == |rows|
    ensures forall i :: 0 <= i < |rows| ==> o[i] == Pad(rows[i], cols)
  {
    seq(|rows|, i requires 0 <= i < |rows| => Pad(rows[i], cols))
  }

  /** The right rows that no left row matches, padded, in right order. */
  function RightPart(left: Table, right: Table, keys: seq<string>): seq<Row> {
    PadAll(Filter(right.rows, rr => !Matched(rr, left.rows, keys)), left.columns)
  }

  /** The two tables have no column in common except keys. */
  predicate SharesOnlyKeys(left: Table, right: Table, keys: seq<string>) {
    forall c :: c in left.columns && c in right.columns ==> c in keys
  }

  /** Every key column exists on both sides. */
  predicate KeysPresent(left: Table, right: Table, keys: seq<string>) {
    forall i :: 0 <= i < |keys| ==> keys[i] in left.columns && keys[i] in right.columns
  }

  function OuterJoin(left: Table, right: Table, keys: seq<string>): (r: Result<Table, Error>)
    requires SharesOnlyKeys(left, right, keys)
    ensures r.Ok? <==> KeysPresent(left, right, keys)
    ensures r.Err? ==> r.error.KeyError? && r.error.key in keys
    ensures r.Ok? ==> left.columns <= r.value.columns
    ensures r.Ok? ==> forall c :: c in r.value.columns <==> c in left.columns || c in right.columns
  {
    match FirstMissing(keys, left.columns)
    case Some(c) => Err(KeyError(c))
    case None =>
      match FirstMissing(keys, right.columns)
      case Some(c) => Err(KeyError(c))
      case None =>
        var cols := left.columns + Filter(right.columns, c => c !in left.columns);
        assert cols[..|left.columns|] == left.columns;
        Ok(Table(cols, LeftPart(left.rows, right, keys) + RightPart(left, right, keys)))
  }

  /** Some row of `rows` holds the same cells as `target` on `cols`. */
  predicate Represented(target: Row, rows: seq<Row>, cols: seq<string>) {
    exists o :: o in rows && AgreesOn(o, target, cols)
  }

  /** Every cell of `o` outside the keys, among `cols`, is empty. */
  predicate EmptyOutside(o: Row, cols: seq<string>, keys: seq<string>) {
    forall c :: c in cols && c !in keys ==> Get(o, c) == Empty
  }

  lemma KeyOfAgrees(a: Row, b: Row, keys: seq<string>)
    requires KeyOf(a, keys) == KeyOf(b, keys)
    ensures AgreesOn(a, b, keys)
  {
    forall c | c in keys
      ensures Get(a, c) == Get(b, c)
    {
      var i :| 0 <= i < |keys| && keys[i] == c;
      assert KeyOf(a, keys)[i] == KeyOf(b, keys)[i];
    }
  }

  /** A joined row holds the left row's cells on the left columns and the right row's on the right ones. */
  lemma CombinedAgrees(lr: Row, rr: Row, lcols: seq<string>, rcols: seq<string>, keys: seq<string>)
    requires RowFits(lr, lcols) && RowFits(rr, rcols)
    requires forall c :: c in lcols && c in rcols ==> c in keys
    requires KeyOf(lr, keys) == KeyOf(rr, keys)
    ensures AgreesOn(lr + rr, lr, lcols) && AgreesOn(lr + rr, rr, rcols)
  {
    KeyOfAgrees(lr, rr, keys);
  }

  ghost predicate RowsFit(rows: seq<Row>, cols: seq<string>) {
    forall i :: 0 <= i < |rows| ==> RowFits(rows[i], cols)
  }

  /** The first row one left row `lr` contributes agrees with `lr` on the left columns. */
  lemma HeadKeepsLeft(lr: Row, lcols: seq<string>, right: Table, keys: seq<string>)
    requires RowFits(lr, lcols) && WellFormed(right)
    requires forall c :: c in lcols && c in right.columns ==> c in keys
    ensures var ms := Matches(lr, right.rows, keys);
      var head := if ms == [] then [Pad(lr, right.columns)] else Combine(lr, ms);
      |head| > 0 && AgreesOn(head[0], lr, lcols)
  {
    var ms := Matches(lr, right.rows, keys);
    if ms != [] {
      CombinedAgrees(lr, ms[0], lcols, right.columns, keys);
    }
  }

  /** The left rows come through the join unchanged on the left columns. */
  lemma {:induction false} LeftPartKeepsLeft(lrows: seq<Row>, lcols: seq<string>, right: Table, keys: seq<string>)
    requires RowsFit(lrows, lcols) && WellFormed(right)
    requires forall c :: c in lcols && c in right.columns ==> c in keys
    ensures forall i :: 0 <= i < |lrows| ==> Represented(lrows[i], LeftPart(lrows, right, keys), lcols)
    decreases |lrows|
  {
    if lrows != [] {
      var lr := lrows[0];
      var ms := Matches(lr, right.rows, keys);
      var head := if ms == [] then [Pad(lr, right.columns)] else Combine(lr, ms);
      var tail := LeftPart(lrows[1..], right, keys);
      assert LeftPart(lrows, right, keys) == head + tail;
      HeadKeepsLeft(lr, lcols, right, keys);
      assert head[0] in head + tail;
      LeftPartKeepsLeft(lrows[1..], lcols, right, keys);
      forall i | 1 <= i < |lrows|
        ensures Represented(lrows[i], head + tail, lcols)
      {
        assert lrows[i] == lrows[1..][i - 1];
        var o :| o in tail && AgreesOn(o, lrows[i], lcols);
        assert o in head + tail;
      }
    }
  }

  /** Every right row that some left row matches comes through the join unchanged on the right columns. */
  lemma {:induction false} LeftPartKeepsMatched(lrows: seq<Row>, lcols: seq<string>, right: Table, keys: seq<string>, rr: Row)
    requires RowsFit(lrows, lcols) && WellFormed(right)
    requires forall c :: c in lcols && c in right.columns ==> c in keys
    requires rr in right.rows && Matched(rr, lrows, keys)
    ensures Represented(rr, LeftPart(lrows, right, keys), right.columns)
    decreases |lrows|
  {
    var lr := lrows[0];
    var ms := Matches(lr, right.rows, keys);
    var head := if ms == [] then [Pad(lr, right.columns)] else Combine(lr, ms);
    var tail := LeftPart(lrows[1..], right, keys);
    assert LeftPart(lrows, right, keys) == head + tail;
    if KeyOf(lr, keys) == KeyOf(rr, keys) {
      var j :| 0 <= j < |right.rows| && right.rows[j] == rr;
      assert rr in ms;
      var k :| 0 <= k < |ms| && ms[k] == rr;
      CombinedAgrees(lr, rr, lcols, right.columns, keys);
      assert head[k] in head + tail;
    } else {
      var i :| 0 <= i < |lrows| && KeyOf(lrows[i], keys) == KeyOf(rr, keys);
      assert lrows[i] == lrows[1..][i - 1];
      LeftPartKeepsMatched(lrows[1..], lcols, right, keys, rr);
      var o :| o in tail && AgreesOn(o, rr, right.columns);
      assert o in head + tail;
    }
  }

  /** The facts `LeftPartOrigin` states, for one output row. */
  ghost predicate FromLeft(o: Row, lrows: seq<Row>, lcols: seq<string>, right: Table, keys: seq<string>) {
    && Represented(o, lrows, lcols)
    && (Represented(o, right.rows, right.columns) || EmptyOutside(o, right.columns, keys))
    && RowFits(o, lcols + right.columns)
  }

  /** The rows one left row `lr` contributes come from `lr` and from a right row or nothing. */
  lemma HeadOrigin(lr: Row, lcols: seq<string>, right: Table, keys: seq<string>, o: Row)
    requires RowFits(lr, lcols) && WellFormed(right)
    requires forall c :: c in lcols && c in right.columns ==> c in keys
    requires var ms := Matches(lr, right.rows, keys);
      o in (if ms == [] then [Pad(lr, right.columns)] else Combine(lr, ms))
    ensures AgreesOn(lr, o, lcols)
    ensures Represented(o, right.rows, right.columns) || EmptyOutside(o, right.columns, keys)
    ensures RowFits(o, lcols + right.columns)
  {
    var ms := Matches(lr, right.rows, keys);
    if ms == [] {
      assert o == Pad(lr, right.columns);
      assert EmptyOutside(o, right.columns, keys);
    } else {
      var k :| 0 <= k < |ms| && o == lr + ms[k];
      CombinedAgrees(lr, ms[k], lcols, right.columns, keys);
      assert AgreesOn(ms[k], o, right.columns);
    }
  }

  /** Where every row of the left part comes from: a left row, and a right row or nothing. */
  lemma {:induction false} LeftPartOrigin(lrows: seq<Row>, lcols: seq<string>, right: Table, keys: seq<string>)
    requires RowsFit(lrows, lcols) && WellFormed(right)
    requires forall c :: c in lcols && c in right.columns ==> c in keys
    ensures forall o :: o in LeftPart(lrows, right, keys) ==> FromLeft(o, lrows, lcols, right, keys)
    decreases |lrows|
  {
    if lrows != [] {
      var lr := lrows[0];
      var ms := Matches(lr, right.rows, keys);
      var head := if ms == [] then [Pad(lr, right.columns)] else Combine(lr, ms);
      var tail := LeftPart(lrows[1..], right, keys);
      assert LeftPart(lrows, right, keys) == head + tail;
      LeftPartOrigin(lrows[1..], lcols, right, keys);
      forall o | o in head + tail
        ensures FromLeft(o, lrows, lcols, right, keys)
      {
        if o in head {
          HeadOrigin(lr, lcols, right, keys, o);
          assert lr in lrows;
        } else {
          assert FromLeft(o, lrows[1..], lcols, right, keys);
          var x :| x in lrows[1..] && AgreesOn(x, o, lcols);
          assert x in lrows;
        }
      }
    }
  }

  /** Where every row of the right part comes from: an unmatched right row, with empty left cells. */
  lemma RightPartOrigin(left: Table, right: Table, keys: seq<string>)
    requires WellFormed(left) && WellFormed(right) && SharesOnlyKeys(left, right, keys)
    ensures forall o :: o in RightPart(left, right, keys) ==>
      Represented(o, right.rows, right.columns) && EmptyOutside(o, left.columns, keys) &&
      RowFits(o, left.columns + right.columns)
    ensures forall j :: 0 <= j < |right.rows| && !Matched(right.rows[j], left.rows, keys) ==>
      Represented(right.rows[j], RightPart(left, right, keys), right.columns)
  {
    var p := (rr: Row) => !Matched(rr, left.rows, keys);
    var un := Filter(right.rows, p);
    var rp := RightPart(left, right, keys);
    forall o | o in rp
      ensures Represented(o, right.rows, right.columns) && EmptyOutside(o, left.columns, keys)
      ensures RowFits(o, left.columns + right.columns)
    {
      var k :| 0 <= k < |rp| && rp[k] == o;
      assert o == Pad(un[k], left.columns);
      assert AgreesOn(un[k], o, right.columns);
    }
    forall j | 0 <= j < |right.rows| && !Matched(right.rows[j], left.rows, keys)
      ensures Represented(right.rows[j], rp, right.columns)
    {
      var rr := right.rows[j];
      assert p(rr);
      var k :| 0 <= k < |un| && un[k] == rr;
      assert AgreesOn(rp[k], rr, right.columns);
      assert rp[k] in rp;
    }
  }

  /** The merged table is well formed. */
  lemma OuterJoinWellFormed(left: Table, right: Table, keys: seq<string>)
    requires WellFormed(left) && WellFormed(right) && SharesOnlyKeys(left, right, keys)
    requires KeysPresent(left, right, keys)
    ensures WellFormed(OuterJoin(left, right, keys).value)
  {
    var t := OuterJoin(left, right, keys).value;
    var extra := Filter(right.columns, c => c !in left.columns);
    assert t.columns == left.columns + extra;
    FilterDistinct(right.columns, c => c !in left.columns);
    LeftPartOrigin(left.rows, left.columns, right, keys);
    RightPartOrigin(left, right, keys);
    forall i | 0 <= i < |t.rows|
      ensures RowFits(t.rows[i], t.columns)
    {
      assert t.rows[i] in t.rows;
      assert RowFits(t.rows[i], left.columns + right.columns);
    }
  }

  /**
   * Nothing is lost in an outer merge: every left row survives on the left columns and every
   * right row on the right columns.
   */
  lemma OuterJoinKeepsBoth(left: Table, right: Table, keys: seq<string>)
    requires WellFormed(left) && WellFormed(right) && SharesOnlyKeys(left, right, keys)
    requires KeysPresent(left, right, keys)
    ensures var t := OuterJoin(left, right, keys).value;
      (forall i :: 0 <= i < |left.rows| ==> Represented(left.rows[i], t.rows, left.columns)) &&
      (forall j :: 0 <= j < |right.rows| ==> Represented(right.rows[j], t.rows, right.columns))
  {
    var t := OuterJoin(left, right, keys).value;
    var lp := LeftPart(left.rows, right, keys);
    var rp := RightPart(left, right, keys);
    assert t.rows == lp + rp;
    LeftPartKeepsLeft(left.rows, left.columns, right, keys);
    RightPartOrigin(left, right, keys);
    forall i | 0 <= i < |left.rows|
      ensures Represented(left.rows[i], t.rows, left.columns)
    {
      var o :| o in lp && AgreesOn(o, left.rows[i], left.columns);
      assert o in t.rows;
    }
    forall j | 0 <= j < |right.rows|
      ensures Represented(right.rows[j], t.rows, right.columns)
    {
      var rr := right.rows[j];
      if Matched(rr, left.rows, keys) {
        LeftPartKeepsMatched(left.rows, left.columns, right, keys, rr);
        var o :| o in lp && AgreesOn(o, rr, right.columns);
        assert o in t.rows;
      } else {
        var o :| o in rp && AgreesOn(o, rr, right.columns);
        assert o in t.rows;
      }
    }
  }

  /**
   * Nothing is invented in an outer merge: on the right columns every merged row is a right row
   * or empty outside the keys, and likewise on the left columns.
   */
  lemma OuterJoinOrigin(left: Table, right: Table, keys: seq<string>)
    requires WellFormed(left) && WellFormed(right) && SharesOnlyKeys(left, right, keys)
    requires KeysPresent(left, right, keys)
    ensures forall o :: o in OuterJoin(left, right, keys).value.rows ==>
      (Represented(o, right.rows, right.columns) || EmptyOutside(o, right.columns, keys)) &&
      (Represented(o, left.rows, left.columns) || EmptyOutside(o, left.columns, keys))
  {
    var t := OuterJoin(left, right, keys).value;
    var lp := LeftPart(left.rows, right, keys);
    var rp := RightPart(left, right, keys);
    assert t.rows == lp + rp;
    LeftPartOrigin(left.rows, left.columns, right, keys);
    RightPartOrigin(left, right, keys);
  }

  /** Some row of `rows` holds the cells of `lr` on `lcols` and those of `rr` on `rcols`. */
  predicate Paired(lr: Row, rr: Row, rows: seq<Row>, lcols: seq<string>, rcols: seq<string>) {
    exists o :: o in rows && AgreesOn(o, lr, lcols) && AgreesOn(o, rr, rcols)
  }

  /** Rows that agree on the keys have the same key. */
  lemma AgreesKeyOf(a: Row, b: Row, keys: seq<string>)
    requires AgreesOn(a, b, keys)
    ensures KeyOf(a, keys) == KeyOf(b, keys)
  {
  }

  /** The left part joins the `i`-th left row with every right row of the same key. */
  lemma {:induction false} LeftPartCombines(lrows: seq<Row>, lcols: seq<string>, right: Table, keys: seq<string>, i: nat, rr: Row)
    requires RowsFit(lrows, lcols) && WellFormed(right)
    requires forall c :: c in lcols && c in right.columns ==> c in keys
    requires i < |lrows| && rr in right.rows && KeyOf(lrows[i], keys) == KeyOf(rr, keys)
    ensures Paired(lrows[i], rr, LeftPart(lrows, right, keys), lcols, right.columns)
    decreases i
  {
    var lr := lrows[0];
    var ms := Matches(lr, right.rows, keys);
    var head := if ms == [] then [Pad(lr, right.columns)] else Combine(lr, ms);
    var tail := LeftPart(lrows[1..], right, keys);
    assert LeftPart(lrows, right, keys) == head + tail;
    if i == 0 {
      var j :| 0 <= j < |right.rows| && right.rows[j] == rr;
      assert rr in ms;
      var k :| 0 <= k < |ms| && ms[k] == rr;
      CombinedAgrees(lr, rr, lcols, right.columns, keys);
      assert head[k] in head + tail;
    } else {
      assert lrows[i] == lrows[1..][i - 1];
      LeftPartCombines(lrows[1..], lcols, right, keys, i - 1, rr);
      var o :| o in tail && AgreesOn(o, lrows[i], lcols) && AgreesOn(o, rr, right.columns);
      assert o in head + tail;
    }
  }

  /**
   * An outer merge joins: a left row and a right row with the same key meet in one merged row,
   * which holds the left row's cells on the left columns and the right row's on the right ones.
   */
  lemma OuterJoinCombines(left: Table, right: Table, keys: seq<string>)
    requires WellFormed(left) && WellFormed(right) && SharesOnlyKeys(left, right, keys)
    requires KeysPresent(left, right, keys)
    ensures var t := OuterJoin(left, right, keys).value;
      forall i, j :: 0 <= i < |left.rows| && 0 <= j < |right.rows| && KeyOf(left.rows[i], keys) == KeyOf(right.rows[j], keys) ==>
        Paired(left.rows[i], right.rows[j], t.rows, left.columns, right.columns)
  {
    var t := OuterJoin(left, right, keys).value;
    var lp := LeftPart(left.rows, right, keys);
    assert t.rows == lp + RightPart(left, right, keys);
    forall i, j | 0 <= i < |left.rows| && 0 <= j < |right.rows| && KeyOf(left.rows[i], keys) == KeyOf(right.rows[j], keys)
      ensures Paired(left.rows[i], right.rows[j], t.rows, left.columns, right.columns)
    {
      LeftPartCombines(left.rows, left.columns, right, keys, i, right.rows[j]);
      var o :| o in lp && AgreesOn(o, left.rows[i], left.columns) && AgreesOn(o, right.rows[j], right.columns);
      assert o in t.rows;
    }
  }

  /** `o` joins `lr` with a right row of the same key. */
  ghost predicate JoinedWith(o: Row, lr: Row, lcols: seq<string>, right: Table, keys: seq<string>) {
    exists j :: 0 <= j < |right.rows| && KeyOf(lr, keys) == KeyOf(right.rows[j], keys) &&
      AgreesOn(o, lr, lcols) && AgreesOn(o, right.rows[j], right.columns)
  }

  /** `o` is `lr`, which no right row matches, with nothing outside the keys on the right. */
  ghost predicate AloneLeft(o: Row, lr: Row, lcols: seq<string>, right: Table, keys: seq<string>) {
    !Matched(lr, right.rows, keys) && AgreesOn(o, lr, lcols) && EmptyOutside(o, right.columns, keys)
  }

  /** `o` joins a left row of `lrows` with a right row of the same key. */
  ghost predicate Joined(o: Row, lrows: seq<Row>, lcols: seq<string>, right: Table, keys: seq<string>) {
    exists i :: 0 <= i < |lrows| && JoinedWith(o, lrows[i], lcols, right, keys)
  }

  /** `o` is a left row of `lrows` that no right row matches. */
  ghost predicate LeftAlone(o: Row, lrows: seq<Row>, lcols: seq<string>, right: Table, keys: seq<string>) {
    exists i :: 0 <= i < |lrows| && AloneLeft(o, lrows[i], lcols, right, keys)
  }

  /** `o` is a right row that no left row matches, with nothing outside the keys on the left. */
  ghost predicate RightAlone(o: Row, left: Table, right: Table, keys: seq<string>) {
    exists j :: 0 <= j < |right.rows| && !Matched(right.rows[j], left.rows, keys) &&
      AgreesOn(o, right.rows[j], right.columns) && EmptyOutside(o, left.columns, keys)
  }

  /** A row without matches is matched by no row. */
  lemma NoMatchesUnmatched(lr: Row, rrows: seq<Row>, keys: seq<string>)
    requires Matches(lr, rrows, keys) == []
    ensures !Matched(lr, rrows, keys)
  {
  }

  /** The rows one left row contributes: joined with each match, or alone when there is none. */
  lemma HeadKind(lr: Row, lcols: seq<string>, right: Table, keys: seq<string>, o: Row)
    requires RowFits(lr, lcols) && WellFormed(right)
    requires forall c :: c in lcols && c in right.columns ==> c in keys
    requires var ms := Matches(lr, right.rows, keys);
      o in (if ms == [] then [Pad(lr, right.columns)] else Combine(lr, ms))
    ensures JoinedWith(o, lr, lcols, right, keys) || AloneLeft(o, lr, lcols, right, keys)
  {
    var ms := Matches(lr, right.rows, keys);
    HeadOrigin(lr, lcols, right, keys, o);
    if ms == [] {
      NoMatchesUnmatched(lr, right.rows, keys);
      assert EmptyOutside(o, right.columns, keys);
    } else {
      var k :| 0 <= k < |ms| && o == lr + ms[k];
      var j :| 0 <= j < |right.rows| && right.rows[j] == ms[k];
      CombinedAgrees(lr, ms[k], lcols, right.columns, keys);
      assert AgreesOn(o, right.rows[j], right.columns);
    }
  }

  /** Every row of the left part is a join of a left row with a match, or a left row without one. */
  lemma {:induction false} LeftPartKinds(lrows: seq<Row>, lcols: seq<string>, right: Table, keys: seq<string>)
    requires RowsFit(lrows, lcols) && WellFormed(right)
    requires forall c :: c in lcols && c in right.columns ==> c in keys
    ensures forall o :: o in LeftPart(lrows, right, keys) ==>
      Joined(o, lrows, lcols, right, keys) || LeftAlone(o, lrows, lcols, right, keys)
    decreases |lrows|
  {
    if lrows != [] {
      var lr := lrows[0];
      var ms := Matches(lr, right.rows, keys);
      var head := if ms == [] then [Pad(lr, right.columns)] else Combine(lr, ms);
      var tail := LeftPart(lrows[1..], right, keys);
      assert LeftPart(lrows, right, keys) == head + tail;
      LeftPartKinds(lrows[1..], lcols, right, keys);
      forall o | o in head + tail
        ensures Joined(o, lrows, lcols, right, keys) || LeftAlone(o, lrows, lcols, right, keys)
      {
        if o in head {
          HeadKind(lr, lcols, right, keys, o);
        } else if Joined(o, lrows[1..], lcols, right, keys) {
          var i :| 0 <= i < |lrows[1..]| && JoinedWith(o, lrows[1..][i], lcols, right, keys);
          assert lrows[1..][i] == lrows[i + 1];
        } else {
          var i :| 0 <= i < |lrows[1..]| && AloneLeft(o, lrows[1..][i], lcols, right, keys);
          assert lrows[1..][i] == lrows[i + 1];
        }
      }
    }
  }

  /** Every row of the right part is a right row without a match. */
  lemma RightPartKinds(left: Table, right: Table, keys: seq<string>)
    requires WellFormed(left) && WellFormed(right) && SharesOnlyKeys(left, right, keys)
    ensures forall o :: o in RightPart(left, right, keys) ==> RightAlone(o, left, right, keys)
  {
    var p := (rr: Row) => !Matched(rr, left.rows, keys);
    var un := Filter(right.rows, p);
    var rp := RightPart(left, right, keys);
    forall o | o in rp
      ensures RightAlone(o, left, right, keys)
    {
      var k :| 0 <= k < |rp| && rp[k] == o;
      assert o == Pad(un[k], left.columns);
      var j :| 0 <= j < |right.rows| && right.rows[j] == un[k];
      assert p(un[k]);
      assert AgreesOn(o, right.rows[j], right.columns);
      assert RowFits(right.rows[j], right.columns);
      assert EmptyOutside(o, left.columns, keys);
    }
  }

  /**
   * Every merged row is of exactly the kinds an outer merge produces: a left row joined with a
   * right row of the same key, a left row that no right row matches, or a right row that no left
   * row matches. In particular a matched row never comes out alone beside its join.
   */
  lemma OuterJoinRowKinds(left: Table, right: Table, keys: seq<string>)
    requires WellFormed(left) && WellFormed(right) && SharesOnlyKeys(left, right, keys)
    requires KeysPresent(left, right, keys)
    ensures forall o :: o in OuterJoin(left, right, keys).value.rows ==>
      Joined(o, left.rows, left.columns, right, keys) || LeftAlone(o, left.rows, left.columns, right, keys) ||
      RightAlone(o, left, right, keys)
  {
    var t := OuterJoin(left, right, keys).value;
    assert t.rows == LeftPart(left.rows, right, keys) + RightPart(left, right, keys);
    LeftPartKinds(left.rows, left.columns, right, keys);
    RightPartKinds(left, right, keys);
  }
}
