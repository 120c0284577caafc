/**
 * Saving a taxon's status table into its layer: the columns the new table brings are removed
 * from the old layer, the two are outer-joined on the key columns, emptied rows and columns are
 * removed, the columns are put in their standard order and duplicate rows are removed.
 */
module SaveStatus {
  import opened Wrappers
  import opened Seqs
  import opened Tables
  import opened Merge
  import opened ColumnOrder
  import opened TaxonGroups
  import opened StatusTypes

  const NATIONAL: string := "national"
  const REGIONAL: string := "regional"

  /** The merge keys of a national list and of a regional status layer. */
  const NATIONAL_KEYS: seq<string> := ["CD_REF"]
  const REGIONAL_KEYS: seq<string> := ["CD_REF", "Région"]

  /**
   * The columns removed from the old layer before the join: those the new table also has,
   * keys apart, and those of `extra` the old layer has.
   */
  function Evicted(oldCols: seq<string>, newCols: seq<string>, keys: seq<string>, extra: seq<string>): (ev: seq<string>)
    ensures forall c :: c in ev <==> c in oldCols && ((c in newCols && c !in keys) || c in extra)
  {
    var shared := Filter(newCols, c => c !in keys && c in oldCols);
    var ev := Filter(shared + extra, c => c in oldCols);
    assert forall c :: c in ev ==> c in shared + extra && c in oldCols by {
      forall c | c in ev ensures c in shared + extra && c in oldCols {
        var i :| 0 <= i < |ev| && ev[i] == c;
      }
    }
    assert forall c :: c in shared <==> c in newCols && c !in keys && c in oldCols by {
      forall c | c in shared ensures c in newCols && c !in keys && c in oldCols {
        var i :| 0 <= i < |shared| && shared[i] == c;
      }
      forall c | c in newCols && c !in keys && c in oldCols ensures c in shared {
        var i :| 0 <= i < |newCols| && newCols[i] == c;
      }
    }
    forall c | c in oldCols && ((c in newCols && c !in keys) || c in extra)
      ensures c in ev
    {
      assert c in shared + extra;
      var i :| 0 <= i < |shared + extra| && (shared + extra)[i] == c;
    }
    ev
  }

  /** The old layer without the evicted columns, as `old_file.drop(columns=…)` leaves it. */
  function Light(oldT: Table, newT: Table, keys: seq<string>, extra: seq<string>): (l: Table)
    ensures forall c :: c in l.columns <==> c in oldT.columns && c !in Evicted(oldT.columns, newT.columns, keys, extra)
    ensures |l.rows| == |oldT.rows|
    ensures forall i :: 0 <= i < |oldT.rows| ==> AgreesOn(l.rows[i], oldT.rows[i], l.columns)
    ensures WellFormed(oldT) ==> WellFormed(l)
    ensures SharesOnlyKeys(l, newT, keys)
  {
    var ev := Evicted(oldT.columns, newT.columns, keys, extra);
    assert forall i :: 0 <= i < |ev| ==> ev[i] in oldT.columns;
    Drop(oldT, ev).value
  }

  /**
   * `pd.merge(old_file_light, status_df, on=keys, how="outer")`: KeyError when a key is missing
   * from the new table, or from the old layer (where `extra` would also remove it).
   */
  function MergeLayers(oldT: Table, newT: Table, keys: seq<string>, extra: seq<string>): (r: Result<Table, Error>)
    ensures r.Ok? <==> forall i :: 0 <= i < |keys| ==> keys[i] in newT.columns && keys[i] in oldT.columns && keys[i] !in extra
    ensures r.Err? ==> r.error.KeyError? && r.error.key in keys
    ensures r.Ok? ==> forall c :: c in r.value.columns <==> c in newT.columns || c in Light(oldT, newT, keys, extra).columns
  {
    OuterJoin(Light(oldT, newT, keys, extra), newT, keys)
  }

  /** The rows `dropna(axis=0, how="all", subset=…)` keeps when `prune`, all of them otherwise. */
  function Pruned(t: Table, keys: seq<string>, prune: bool): Table {
    if prune then DropEmptyRows(t, keys) else t
  }

  /** `reorder_columns(df.dropna(axis=1, how="all")).drop_duplicates()` after the optional row pruning. */
  function Clean(t: Table, keys: seq<string>, prune: bool): Table {
    DropDuplicates(Reorder(DropEmptyColumns(Pruned(t, keys, prune))))
  }

  /** Every row of `a` has a row in `b` holding the same cells on the columns of `a`. */
  predicate Covered(a: Table, b: Table) {
    forall o :: o in a.rows ==> Represented(o, b.rows, a.columns)
  }

  /**
   * Covering chains: a column of `a` that `b` lacks must be missing from `c` as well, so that
   * it reads as empty on both sides.
   */
  lemma CoveredTrans(a: Table, b: Table, c: Table)
    requires Covered(a, b) && Covered(b, c) && WellFormed(b) && WellFormed(c)
    requires forall col :: col in a.columns && col !in b.columns ==> col !in c.columns
    ensures Covered(a, c)
  {
    forall o | o in a.rows
      ensures Represented(o, c.rows, a.columns)
    {
      var m :| m in b.rows && AgreesOn(m, o, a.columns);
      var n :| n in c.rows && AgreesOn(n, m, b.columns);
      var i :| 0 <= i < |b.rows| && b.rows[i] == m;
      var j :| 0 <= j < |c.rows| && c.rows[j] == n;
      assert RowFits(m, b.columns) && RowFits(n, c.columns);
      assert AgreesOn(n, o, a.columns);
    }
  }

  /** A table whose rows all occur in a table with the same columns is covered by it. */
  lemma SubRowsCovered(a: Table, b: Table)
    requires a.columns == b.columns && forall o :: o in a.rows ==> o in b.rows
    ensures Covered(a, b)
  {
    forall o | o in a.rows
      ensures Represented(o, b.rows, a.columns)
    {
      assert AgreesOn(o, o, a.columns);
    }
  }

  /** Row by row agreement on the columns of `a` makes `a` covered by `b`. */
  lemma PointwiseCovered(a: Table, b: Table)
    requires |a.rows| == |b.rows| && forall i :: 0 <= i < |a.rows| ==> AgreesOn(a.rows[i], b.rows[i], a.columns)
    ensures Covered(a, b)
  {
    forall o | o in a.rows
      ensures Represented(o, b.rows, a.columns)
    {
      var i :| 0 <= i < |a.rows| && a.rows[i] == o;
      assert b.rows[i] in b.rows;
    }
  }

  /** Removing the all-empty columns invents no cell. */
  lemma DropEmptyColumnsTraced(p: Table)
    ensures Covered(DropEmptyColumns(p), p)
  {
    PointwiseCovered(DropEmptyColumns(p), p);
  }

  /** Removing the all-empty columns loses no cell: a removed column was empty in every row. */
  lemma DropEmptyColumnsKept(p: Table)
    requires WellFormed(p)
    ensures Covered(p, DropEmptyColumns(p))
  {
    var d := DropEmptyColumns(p);
    forall i | 0 <= i < |p.rows|
      ensures AgreesOn(p.rows[i], d.rows[i], p.columns)
    {
      forall col | col in p.columns
        ensures Get(p.rows[i], col) == Get(d.rows[i], col)
      {
        if col !in d.columns {
          assert !HasValue(p.rows, col);
          assert RowFits(d.rows[i], d.columns);
        }
      }
    }
    PointwiseCovered(p, d);
  }

  /** Reordering the columns invents no cell. */
  lemma ReorderTraced(d: Table)
    ensures Covered(Reorder(d), d)
  {
    PointwiseCovered(Reorder(d), d);
  }

  /** Reordering the columns loses no cell. */
  lemma ReorderKept(d: Table)
    ensures Covered(d, Reorder(d))
  {
    PointwiseCovered(d, Reorder(d));
  }

  /** Removing duplicate rows invents no row. */
  lemma DropDuplicatesTraced(q: Table)
    ensures Covered(DropDuplicates(q), q)
  {
    SubseqMembers(DropDuplicates(q).rows, q.rows);
    SubRowsCovered(DropDuplicates(q), q);
  }

  /** Removing duplicate rows loses no row. */
  lemma DropDuplicatesKept(q: Table)
    ensures Covered(q, DropDuplicates(q))
  {
    SubRowsCovered(q, DropDuplicates(q));
  }

  /** Every kept row is a row of the table. */
  lemma PrunedCovered(t: Table, keys: seq<string>, prune: bool)
    ensures Pruned(t, keys, prune).columns == t.columns
    ensures Covered(Pruned(t, keys, prune), t)
  {
    if prune {
      SubseqMembers(DropEmptyRows(t, keys).rows, t.rows);
    }
    SubRowsCovered(Pruned(t, keys, prune), t);
  }

  /** Every cleaned row holds, on the cleaned columns, the cells of a row that pruning kept. */
  lemma CleanTracedToPruned(t: Table, keys: seq<string>, prune: bool)
    requires WellFormed(t)
    ensures Covered(Clean(t, keys, prune), Pruned(t, keys, prune))
  {
    var p := Pruned(t, keys, prune);
    var d := DropEmptyColumns(p);
    var q := Reorder(d);
    var out := DropDuplicates(q);
    assert Covered(out, d) by {
      DropDuplicatesTraced(q);
      ReorderTraced(d);
      CoveredTrans(out, q, d);
    }
    DropEmptyColumnsTraced(p);
    CoveredTrans(out, d, p);
  }

  /** Every cleaned row holds, on the cleaned columns, the cells of a row of the table. */
  lemma CleanTraced(t: Table, keys: seq<string>, prune: bool)
    requires WellFormed(t)
    ensures Covered(Clean(t, keys, prune), t)
  {
    CleanTracedToPruned(t, keys, prune);
    PrunedCovered(t, keys, prune);
    CoveredTrans(Clean(t, keys, prune), Pruned(t, keys, prune), t);
  }

  /** Every row cleaning keeps survives, with the same cells on every column of the table. */
  lemma CleanKept(t: Table, keys: seq<string>, prune: bool)
    requires WellFormed(t)
    ensures Covered(Pruned(t, keys, prune), Clean(t, keys, prune))
  {
    var p := Pruned(t, keys, prune);
    var d := DropEmptyColumns(p);
    var q := Reorder(d);
    var out := DropDuplicates(q);
    assert Covered(p, q) by {
      DropEmptyColumnsKept(p);
      ReorderKept(d);
      CoveredTrans(p, d, q);
    }
    DropDuplicatesKept(q);
    CoveredTrans(p, q, out);
  }

  /** Cleaning gives a well-formed table without duplicate rows, on the columns that hold a value. */
  lemma CleanShape(t: Table, keys: seq<string>, prune: bool)
    requires WellFormed(t)
    ensures WellFormed(Clean(t, keys, prune)) && Distinct(Clean(t, keys, prune).rows)
    ensures forall c :: c in Clean(t, keys, prune).columns <==> c in t.columns && HasValue(Pruned(t, keys, prune).rows, c)
  {
    var p := Pruned(t, keys, prune);
    var d := DropEmptyColumns(p);
    assert WellFormed(p);
    assert WellFormed(d);
  }

  /** Every row pruning keeps holds a value outside the keys. */
  lemma PrunedRowsHaveValues(t: Table, keys: seq<string>)
    ensures forall r :: r in DropEmptyRows(t, keys).rows ==> HasNonKeyValue(r, t.columns, keys)
  {
    var p := DropEmptyRows(t, keys);
    forall r | r in p.rows
      ensures HasNonKeyValue(r, t.columns, keys)
    {
      var i :| 0 <= i < |p.rows| && p.rows[i] == r;
    }
  }

  /** A value outside the keys in a kept row lies in a column that stays, so the agreeing row has it too. */
  lemma ValueStays(p: Table, m: Row, o: Row, cols: seq<string>, keys: seq<string>)
    requires m in p.rows && HasNonKeyValue(m, p.columns, keys) && AgreesOn(m, o, cols)
    requires forall c :: c in p.columns && HasValue(p.rows, c) ==> c in cols
    ensures HasNonKeyValue(o, cols, keys)
  {
    var i :| 0 <= i < |p.rows| && p.rows[i] == m;
    var k :| 0 <= k < |p.columns| && p.columns[k] !in keys && Get(m, p.columns[k]) != Empty;
    var c := p.columns[k];
    assert HasValue(p.rows, c);
    var n :| 0 <= n < |cols| && cols[n] == c;
  }

  /** With pruning, every cleaned row holds a value outside the keys. */
  lemma CleanPrunedHasValues(t: Table, keys: seq<string>)
    requires WellFormed(t)
    ensures forall o :: o in Clean(t, keys, true).rows ==> HasNonKeyValue(o, Clean(t, keys, true).columns, keys)
  {
    var p := DropEmptyRows(t, keys);
    var out := Clean(t, keys, true);
    CleanTracedToPruned(t, keys, true);
    PrunedRowsHaveValues(t, keys);
    CleanShape(t, keys, true);
    forall o | o in out.rows
      ensures HasNonKeyValue(o, out.columns, keys)
    {
      var m :| m in p.rows && AgreesOn(m, o, out.columns);
      ValueStays(p, m, o, out.columns, keys);
    }
  }

  /** On the columns `cols` shares with `side`, `o` holds the cells of one row of `side`, or nothing outside the keys. */
  predicate FromSide(o: Row, cols: seq<string>, side: Table, keys: seq<string>) {
    (exists n :: n in side.rows && Within(o, n, cols, side.columns)) ||
    (forall c :: c in cols && c in side.columns && c !in keys ==> Get(o, c) == Empty)
  }

  /** `o` and `n` hold the same cells on the columns in both `a` and `b`. */
  predicate Within(o: Row, n: Row, a: seq<string>, b: seq<string>) {
    forall c :: c in a && c in b ==> Get(o, c) == Get(n, c)
  }

  /** A row agreeing with a joined row on `cols` inherits where the joined row came from. */
  lemma SideOrigin(m: Row, o: Row, cols: seq<string>, side: Table, keys: seq<string>)
    requires AgreesOn(m, o, cols)
    requires Represented(m, side.rows, side.columns) || EmptyOutside(m, side.columns, keys)
    ensures FromSide(o, cols, side, keys)
  {
    if Represented(m, side.rows, side.columns) {
      var n :| n in side.rows && AgreesOn(n, m, side.columns);
      assert Within(o, n, cols, side.columns);
    }
  }

  /** A value outside the keys carries over to an agreeing row with more columns. */
  lemma NonKeyValueCarries(x: Row, m: Row, cols: seq<string>, wider: seq<string>, keys: seq<string>)
    requires HasNonKeyValue(x, cols, keys) && AgreesOn(m, x, cols)
    requires forall c :: c in cols ==> c in wider
    ensures HasNonKeyValue(m, wider, keys)
  {
    var k :| 0 <= k < |cols| && cols[k] !in keys && Get(x, cols[k]) != Empty;
    var n :| 0 <= n < |wider| && wider[n] == cols[k];
  }

  /**
   * A row `m` of the table that agrees with `x` on `cols`, and holds a value outside the keys
   * when rows are pruned, leaves a cleaned row agreeing with `x` on all of `cols`.
   */
  lemma CleanKeepsRow(t: Table, keys: seq<string>, prune: bool, m: Row, x: Row, cols: seq<string>)
    requires WellFormed(t) && m in t.rows && AgreesOn(m, x, cols)
    requires forall c :: c in cols ==> c in t.columns
    requires prune ==> HasNonKeyValue(m, t.columns, keys)
    ensures Represented(x, Clean(t, keys, prune).rows, cols)
  {
    var p := Pruned(t, keys, prune);
    if prune {
      var i :| 0 <= i < |t.rows| && t.rows[i] == m;
      assert m in p.rows;
    }
    CleanKept(t, keys, prune);
    PrunedCovered(t, keys, prune);
    var o :| o in Clean(t, keys, prune).rows && AgreesOn(o, m, p.columns);
    assert AgreesOn(o, x, cols);
  }

  /** A row represented in the table on `cols` (with a value outside the keys there, when pruning) is represented after cleaning. */
  lemma RepresentedRowKept(t: Table, keys: seq<string>, prune: bool, x: Row, cols: seq<string>)
    requires WellFormed(t) && Represented(x, t.rows, cols)
    requires forall c :: c in cols ==> c in t.columns
    requires prune ==> HasNonKeyValue(x, cols, keys)
    ensures Represented(x, Clean(t, keys, prune).rows, cols)
  {
    var m :| m in t.rows && AgreesOn(m, x, cols);
    if prune {
      NonKeyValueCarries(x, m, cols, t.columns, keys);
    }
    CleanKeepsRow(t, keys, prune, m, x, cols);
  }

  /** The joined table is well formed, and the keys are present on both sides. */
  lemma MergeLayersWellFormed(oldT: Table, newT: Table, keys: seq<string>, extra: seq<string>)
    requires WellFormed(oldT) && WellFormed(newT) && MergeLayers(oldT, newT, keys, extra).Ok?
    ensures KeysPresent(Light(oldT, newT, keys, extra), newT, keys)
    ensures WellFormed(MergeLayers(oldT, newT, keys, extra).value)
  {
    OuterJoinWellFormed(Light(oldT, newT, keys, extra), newT, keys);
  }

  /**
   * The new values win: on the columns of the new table, every saved row holds the cells of one
   * new row, or nothing outside the keys; no old value survives there. On the columns left to the
   * old layer, it likewise holds the cells of one old row, or nothing outside the keys.
   */
  lemma MergedOrigin(oldT: Table, newT: Table, keys: seq<string>, extra: seq<string>, prune: bool)
    requires WellFormed(oldT) && WellFormed(newT) && MergeLayers(oldT, newT, keys, extra).Ok?
    ensures var out := Clean(MergeLayers(oldT, newT, keys, extra).value, keys, prune);
      forall o :: o in out.rows ==>
        FromSide(o, out.columns, newT, keys) && FromSide(o, out.columns, Light(oldT, newT, keys, extra), keys)
  {
    var light := Light(oldT, newT, keys, extra);
    var merged := MergeLayers(oldT, newT, keys, extra).value;
    var out := Clean(merged, keys, prune);
    MergeLayersWellFormed(oldT, newT, keys, extra);
    OuterJoinOrigin(light, newT, keys);
    CleanTraced(merged, keys, prune);
    forall o | o in out.rows
      ensures FromSide(o, out.columns, newT, keys) && FromSide(o, out.columns, light, keys)
    {
      var m :| m in merged.rows && AgreesOn(m, o, out.columns);
      SideOrigin(m, o, out.columns, newT, keys);
      SideOrigin(m, o, out.columns, light, keys);
    }
  }

  /** Nothing of the new table is lost: every new row survives on all its columns (with pruning, those holding a value). */
  lemma MergedKeepsNew(oldT: Table, newT: Table, keys: seq<string>, extra: seq<string>, prune: bool)
    requires WellFormed(oldT) && WellFormed(newT) && MergeLayers(oldT, newT, keys, extra).Ok?
    ensures var out := Clean(MergeLayers(oldT, newT, keys, extra).value, keys, prune);
      forall j :: 0 <= j < |newT.rows| && (prune ==> HasNonKeyValue(newT.rows[j], newT.columns, keys)) ==>
        Represented(newT.rows[j], out.rows, newT.columns)
  {
    var light := Light(oldT, newT, keys, extra);
    var merged := MergeLayers(oldT, newT, keys, extra).value;
    var out := Clean(merged, keys, prune);
    MergeLayersWellFormed(oldT, newT, keys, extra);
    OuterJoinKeepsBoth(light, newT, keys);
    forall j | 0 <= j < |newT.rows| && (prune ==> HasNonKeyValue(newT.rows[j], newT.columns, keys))
      ensures Represented(newT.rows[j], out.rows, newT.columns)
    {
      RepresentedRowKept(merged, keys, prune, newT.rows[j], newT.columns);
    }
  }

  /** Every old row is in the join, on the columns left to the old layer. */
  lemma OldRowJoined(oldT: Table, newT: Table, keys: seq<string>, extra: seq<string>, i: nat)
    requires WellFormed(oldT) && WellFormed(newT) && MergeLayers(oldT, newT, keys, extra).Ok?
    requires i < |oldT.rows|
    ensures Represented(oldT.rows[i], MergeLayers(oldT, newT, keys, extra).value.rows, Light(oldT, newT, keys, extra).columns)
  {
    var light := Light(oldT, newT, keys, extra);
    MergeLayersWellFormed(oldT, newT, keys, extra);
    OuterJoinKeepsBoth(light, newT, keys);
    var m :| m in MergeLayers(oldT, newT, keys, extra).value.rows && AgreesOn(m, light.rows[i], light.columns);
    assert AgreesOn(m, oldT.rows[i], light.columns);
  }

  /**
   * Nothing of the old layer is lost beyond the evicted columns: every old row survives on the
   * columns left to it (with pruning, the rows holding a value there).
   */
  lemma MergedKeepsOld(oldT: Table, newT: Table, keys: seq<string>, extra: seq<string>, prune: bool)
    requires WellFormed(oldT) && WellFormed(newT) && MergeLayers(oldT, newT, keys, extra).Ok?
    ensures var out := Clean(MergeLayers(oldT, newT, keys, extra).value, keys, prune);
      var light := Light(oldT, newT, keys, extra);
      forall i :: 0 <= i < |oldT.rows| && (prune ==> HasNonKeyValue(oldT.rows[i], light.columns, keys)) ==>
        Represented(oldT.rows[i], out.rows, light.columns)
  {
    var light := Light(oldT, newT, keys, extra);
    var merged := MergeLayers(oldT, newT, keys, extra).value;
    MergeLayersWellFormed(oldT, newT, keys, extra);
    forall i | 0 <= i < |oldT.rows| && (prune ==> HasNonKeyValue(oldT.rows[i], light.columns, keys))
      ensures Represented(oldT.rows[i], Clean(merged, keys, prune).rows, light.columns)
    {
      OldRowJoined(oldT, newT, keys, extra, i);
      RepresentedRowKept(merged, keys, prune, oldT.rows[i], light.columns);
    }
  }

  /** An old row and a new row with the same key meet in one row of the join. */
  lemma OldNewJoined(oldT: Table, newT: Table, keys: seq<string>, extra: seq<string>, i: nat, j: nat)
    requires WellFormed(oldT) && WellFormed(newT) && MergeLayers(oldT, newT, keys, extra).Ok?
    requires i < |oldT.rows| && j < |newT.rows| && AgreesOn(oldT.rows[i], newT.rows[j], keys)
    ensures var light := Light(oldT, newT, keys, extra);
      Paired(oldT.rows[i], newT.rows[j], MergeLayers(oldT, newT, keys, extra).value.rows, light.columns, newT.columns)
  {
    var light := Light(oldT, newT, keys, extra);
    MergeLayersWellFormed(oldT, newT, keys, extra);
    assert AgreesOn(light.rows[i], newT.rows[j], keys) by {
      forall c | c in keys
        ensures Get(light.rows[i], c) == Get(newT.rows[j], c)
      {
        var k :| 0 <= k < |keys| && keys[k] == c;
        assert c in light.columns;
      }
    }
    AgreesKeyOf(light.rows[i], newT.rows[j], keys);
    OuterJoinCombines(light, newT, keys);
    var m :| m in MergeLayers(oldT, newT, keys, extra).value.rows &&
      AgreesOn(m, light.rows[i], light.columns) && AgreesOn(m, newT.rows[j], newT.columns);
    assert AgreesOn(m, oldT.rows[i], light.columns);
  }

  /**
   * The save combines: an old row and a new row with the same key come out as one saved row,
   * holding the old cells on the columns left to the old layer and the new cells on the new
   * table's columns (with pruning, when the new row holds a value outside the keys).
   */
  lemma MergedCombines(oldT: Table, newT: Table, keys: seq<string>, extra: seq<string>, prune: bool)
    requires WellFormed(oldT) && WellFormed(newT) && MergeLayers(oldT, newT, keys, extra).Ok?
    ensures var out := Clean(MergeLayers(oldT, newT, keys, extra).value, keys, prune);
      var light := Light(oldT, newT, keys, extra);
      forall i, j :: (0 <= i < |oldT.rows| && 0 <= j < |newT.rows| && AgreesOn(oldT.rows[i], newT.rows[j], keys) &&
        (prune ==> HasNonKeyValue(newT.rows[j], newT.columns, keys))) ==>
        Paired(oldT.rows[i], newT.rows[j], out.rows, light.columns, newT.columns)
  {
    var light := Light(oldT, newT, keys, extra);
    var merged := MergeLayers(oldT, newT, keys, extra).value;
    var out := Clean(merged, keys, prune);
    MergeLayersWellFormed(oldT, newT, keys, extra);
    forall i, j | 0 <= i < |oldT.rows| && 0 <= j < |newT.rows| && AgreesOn(oldT.rows[i], newT.rows[j], keys) &&
        (prune ==> HasNonKeyValue(newT.rows[j], newT.columns, keys))
      ensures Paired(oldT.rows[i], newT.rows[j], out.rows, light.columns, newT.columns)
    {
      OldNewJoined(oldT, newT, keys, extra, i, j);
      var m :| m in merged.rows && AgreesOn(m, oldT.rows[i], light.columns) && AgreesOn(m, newT.rows[j], newT.columns);
      if prune {
        NonKeyValueCarries(newT.rows[j], m, newT.columns, merged.columns, keys);
      }
      CleanKeepsRow(merged, keys, prune, m, m, merged.columns);
      var o :| o in out.rows && AgreesOn(o, m, merged.columns);
      assert AgreesOn(o, oldT.rows[i], light.columns) && AgreesOn(o, newT.rows[j], newT.columns);
    }
  }

  /** The saved columns are in the standard layout: sorted by their position, each name once. */
  lemma CleanLayout(t: Table, keys: seq<string>, prune: bool)
    requires WellFormed(t)
    ensures var cols := Clean(t, keys, prune).columns;
      Distinct(cols) && forall i, j :: 0 <= i < j < |cols| ==> Position(cols[i]) <= Position(cols[j])
  {
    var d := DropEmptyColumns(Pruned(t, keys, prune));
    OrderedSortsStably(d.columns);
    CleanShape(t, keys, prune);
  }

  // ---------------------------------------------------------------------------------------
  // The save functions

  /** The key column every save merges on. */
  const KEY: string := "CD_REF"

  /** `DataFrame.empty`: no row, or no column. */
  predicate IsEmptyFrame(t: Table) {
    |t.rows| == 0 || |t.columns| == 0
  }

  /**
   * The table logic of `SaveRegionalStatus`: with an existing "Statuts <title>" layer, the merge
   * on (CD_REF, Région) without any cast, then row pruning; without one, only the new table cleaned.
   */
  function RegionalSave(newT: Table, layer: Option<Table>): (r: Result<Table, Error>)
    ensures layer.None? ==> r == Ok(Clean(newT, REGIONAL_KEYS, false))
    ensures layer.Some? ==> (r.Ok? <==> MergeLayers(layer.value, newT, REGIONAL_KEYS, []).Ok?)
    ensures r.Err? ==> r.error.KeyError? && r.error.key in REGIONAL_KEYS
    ensures r.Ok? ==> Distinct(r.value.rows)
  {
    match layer
    case None => Ok(Clean(newT, REGIONAL_KEYS, false))
    case Some(oldT) =>
      var merged :- MergeLayers(oldT, newT, REGIONAL_KEYS, []);
      Ok(Clean(merged, REGIONAL_KEYS, true))
  }

  /** The table `SaveNationalStatus` builds before removing the bird LRN column. */
  function NationalMerged(newT: Table, oldT: Table): (r: Result<Table, Error>)
    ensures r.Err? <==> KEY !in oldT.columns || KEY !in newT.columns
    ensures r.Err? ==> r.error == KeyError(KEY)
    ensures r.Ok? ==> Distinct(r.value.rows)
  {
    var o :- CastToStr(oldT, KEY);
    var n :- CastToStr(newT, KEY);
    Ok(Clean(MergeLayers(o, n, NATIONAL_KEYS, []).value, NATIONAL_KEYS, false))
  }

  /**
   * The table logic of `SaveNationalStatus`: CD_REF cast to text on both sides, the merge on
   * CD_REF keeping every row, then, for the title "Oiseaux", the LRN column removed after the
   * duplicates (KeyError when the cleaning already removed it).
   */
  function NationalSave(newT: Table, oldT: Table, title: string): (r: Result<Table, Error>)
    ensures title != "Oiseaux" ==> r == NationalMerged(newT, oldT)
    ensures title == "Oiseaux" ==>
      (r.Ok? <==> NationalMerged(newT, oldT).Ok? && LISTE_ROUGE_NATIONALE.typeId in NationalMerged(newT, oldT).value.columns)
    ensures title == "Oiseaux" && r.Ok? ==>
      LISTE_ROUGE_NATIONALE.typeId !in r.value.columns && |r.value.rows| == |NationalMerged(newT, oldT).value.rows|
  {
    var merged :- NationalMerged(newT, oldT);
    if title == "Oiseaux" then Drop(merged, [LISTE_ROUGE_NATIONALE.typeId]) else Ok(merged)
  }

  /**
   * `SaveNationalStatus` on the caller's DataFrame: `status_df['CD_REF'] = …astype(str)` changes
   * the caller's table in place, once the old layer's cast has succeeded.
   */
  method SaveNationalStatus(statusDf: Frame, oldT: Table, title: string) returns (r: Result<Table, Error>)
    modifies statusDf
    ensures r == NationalSave(old(statusDf.table), oldT, title)
    ensures statusDf.table ==
      if KEY in oldT.columns && KEY in old(statusDf.table).columns then CastToStr(old(statusDf.table), KEY).value
      else old(statusDf.table)
  {
    var o := CastToStr(oldT, KEY);
    if o.Err? {
      return Err(o.error);
    }
    var e := statusDf.CastToStrInPlace(KEY);
    if e.Some? {
      return Err(e.value);
    }
    var merged := Clean(MergeLayers(o.value, statusDf.table, NATIONAL_KEYS, []).value, NATIONAL_KEYS, false);
    if title == "Oiseaux" {
      r := Drop(merged, [LISTE_ROUGE_NATIONALE.typeId]);
    } else {
      r := Ok(merged);
    }
  }

  /** What `save_global_status` settles from `save_type`: the layer, the merge keys, the columns also removed from the old layer, the row pruning. */
  datatype SavePlan = SavePlan(layerName: string, keys: seq<string>, extra: seq<string>, prune: bool)

  function PlanFor(saveType: string, title: string): (r: Result<SavePlan, Error>)
    ensures r.Err? <==> saveType != NATIONAL && saveType != REGIONAL
    ensures r.Err? ==> r.error.ValueError?
    ensures r.Ok? ==> |r.value.keys| > 0 && r.value.keys[0] == KEY
    ensures r.Ok? ==> (r.value.prune <==> saveType == REGIONAL) && ("Région" in r.value.keys <==> saveType == REGIONAL)
    ensures r.Ok? ==> (r.value.extra != [] <==> saveType == NATIONAL && title == OISEAUX.title)
    ensures r.Ok? ==> forall c :: c in r.value.extra ==> c == LISTE_ROUGE_NATIONALE.typeId
  {
    if saveType == REGIONAL then
      Ok(SavePlan("Statuts " + title, REGIONAL_KEYS, [], true))
    else if saveType == NATIONAL then
      Ok(SavePlan("Liste " + title, NATIONAL_KEYS, if title == OISEAUX.title then [LISTE_ROUGE_NATIONALE.typeId] else [], false))
    else
      Err(ValueError("save_type should be either \"" + NATIONAL + "\" or \"" + REGIONAL + "\" but is : " + saveType))
  }

  /**
   * The table `save_global_status` writes to the plan's layer, given that layer as read (`None`
   * when it is not valid): with a non-empty old table, CD_REF cast to text on both sides, the
   * evictions, the outer join and, for regional saves, the row pruning; then, on every path, the
   * empty columns removed, the columns reordered and the duplicates removed.
   */
  function GlobalSave(newT: Table, layer: Option<Table>, title: string, saveType: string): (r: Result<Table, Error>)
    ensures PlanFor(saveType, title).Err? ==> r == Err(PlanFor(saveType, title).error)
    ensures PlanFor(saveType, title).Ok? && (layer.None? || IsEmptyFrame(layer.value)) ==>
      r == Ok(Clean(newT, PlanFor(saveType, title).value.keys, false))
    ensures PlanFor(saveType, title).Ok? && layer.Some? && !IsEmptyFrame(layer.value) ==>
      (r.Ok? <==>
        KEY in layer.value.columns && KEY in newT.columns &&
        (saveType == REGIONAL ==> "Région" in layer.value.columns && "Région" in newT.columns))
    ensures r.Ok? ==> Distinct(r.value.rows)
  {
    var plan :- PlanFor(saveType, title);
    if layer.Some? && !IsEmptyFrame(layer.value) then
      var o :- CastToStr(layer.value, KEY);
      var n :- CastToStr(newT, KEY);
      var merged :- MergeLayers(o, n, plan.keys, plan.extra);
      Ok(Clean(merged, plan.keys, plan.prune))
    else
      Ok(Clean(newT, plan.keys, false))
  }

  /**
   * `save_global_status` on the caller's DataFrame: the merge keys grow by `append`, and the
   * cast of CD_REF changes the caller's table in place once the old layer's cast has succeeded.
   * Returns the layer name and the table written to it.
   */
  method SaveGlobalStatus(statusDf: Frame, layer: Option<Table>, title: string, saveType: string)
    returns (r: Result<(string, Table), Error>)
    modifies statusDf
    ensures r.Err? <==> GlobalSave(old(statusDf.table), layer, title, saveType).Err?
    ensures r.Ok? ==> r.value == (PlanFor(saveType, title).value.layerName, GlobalSave(old(statusDf.table), layer, title, saveType).value)
    ensures r.Err? ==> r.error == GlobalSave(old(statusDf.table), layer, title, saveType).error
    ensures statusDf.table ==
      if PlanFor(saveType, title).Ok? && layer.Some? && !IsEmptyFrame(layer.value) && KEY in layer.value.columns && KEY in old(statusDf.table).columns
      then CastToStr(old(statusDf.table), KEY).value
      else old(statusDf.table)
  {
    var keys := [KEY];
    var birdCols: seq<string> := [];
    var layerName: string;
    if saveType == REGIONAL {
      layerName := "Statuts " + title;
      keys := keys + ["Région"];
    } else if saveType == NATIONAL {
      layerName := "Liste " + title;
      birdCols := if title == OISEAUX.title then [LISTE_ROUGE_NATIONALE.typeId] else [];
    } else {
      return Err(PlanFor(saveType, title).error);
    }
    var prune := saveType == REGIONAL;
    ghost var plan := PlanFor(saveType, title).value;
    ghost var before := statusDf.table;
    assert plan == SavePlan(layerName, keys, birdCols, prune);
    var saved: Table;
    if layer.Some? && !IsEmptyFrame(layer.value) {
      var o := CastToStr(layer.value, KEY);
      if o.Err? {
        return Err(o.error);
      }
      var e := statusDf.CastToStrInPlace(KEY);
      if e.Some? {
        return Err(e.value);
      }
      assert statusDf.table == CastToStr(before, KEY).value;
      var merged := MergeLayers(o.value, statusDf.table, keys, birdCols);
      if merged.Err? {
        assert GlobalSave(before, layer, title, saveType) == Err(merged.error);
        return Err(merged.error);
      }
      saved := Clean(merged.value, keys, prune);
      assert GlobalSave(before, layer, title, saveType) == Ok(saved);
    } else {
      saved := Clean(statusDf.table, keys, false);
    }
    return Ok((layerName, saved));
  }

  /** With a non-empty old layer, `save_global_status` saves the cleaned join of the two cast tables. */
  lemma GlobalSaveMerges(newT: Table, oldT: Table, title: string, saveType: string)
    requires !IsEmptyFrame(oldT) && GlobalSave(newT, Some(oldT), title, saveType).Ok?
    ensures PlanFor(saveType, title).Ok? && CastToStr(oldT, KEY).Ok? && CastToStr(newT, KEY).Ok?
    ensures var plan := PlanFor(saveType, title).value;
      var o := CastToStr(oldT, KEY).value;
      var n := CastToStr(newT, KEY).value;
      MergeLayers(o, n, plan.keys, plan.extra).Ok? &&
      GlobalSave(newT, Some(oldT), title, saveType).value == Clean(MergeLayers(o, n, plan.keys, plan.extra).value, plan.keys, plan.prune)
  {
  }

  /**
   * New values win in `save_global_status`: on the columns of the new table, every saved row
   * holds the cells of one new row (CD_REF as text), or nothing outside the keys.
   */
  lemma GlobalNewWins(newT: Table, oldT: Table, title: string, saveType: string)
    requires WellFormed(newT) && WellFormed(oldT)
    requires !IsEmptyFrame(oldT) && GlobalSave(newT, Some(oldT), title, saveType).Ok?
    ensures var r := GlobalSave(newT, Some(oldT), title, saveType).value;
      forall row :: row in r.rows ==> FromSide(row, r.columns, CastToStr(newT, KEY).value, PlanFor(saveType, title).value.keys)
  {
    GlobalSaveMerges(newT, oldT, title, saveType);
    var plan := PlanFor(saveType, title).value;
    MergedOrigin(CastToStr(oldT, KEY).value, CastToStr(newT, KEY).value, plan.keys, plan.extra, plan.prune);
  }

  /**
   * `save_global_status` loses no new row: a national save keeps every row of the new table
   * (CD_REF as text) on all its columns, a regional one every row holding a value outside the keys.
   */
  lemma GlobalKeepsNew(newT: Table, oldT: Table, title: string, saveType: string)
    requires WellFormed(newT) && WellFormed(oldT)
    requires !IsEmptyFrame(oldT) && GlobalSave(newT, Some(oldT), title, saveType).Ok?
    ensures var r := GlobalSave(newT, Some(oldT), title, saveType).value;
      var n := CastToStr(newT, KEY).value;
      forall j :: 0 <= j < |n.rows| && (saveType == REGIONAL ==> HasNonKeyValue(n.rows[j], n.columns, REGIONAL_KEYS)) ==>
        Represented(n.rows[j], r.rows, n.columns)
  {
    GlobalSaveMerges(newT, oldT, title, saveType);
    var plan := PlanFor(saveType, title).value;
    MergedKeepsNew(CastToStr(oldT, KEY).value, CastToStr(newT, KEY).value, plan.keys, plan.extra, plan.prune);
  }

  /**
   * `save_global_status` loses nothing of the old layer but the evicted columns: a national save
   * keeps every old row on the columns left to it, a regional one every such row holding a value there.
   */
  lemma GlobalKeepsOld(newT: Table, oldT: Table, title: string, saveType: string)
    requires WellFormed(newT) && WellFormed(oldT)
    requires !IsEmptyFrame(oldT) && GlobalSave(newT, Some(oldT), title, saveType).Ok?
    ensures var r := GlobalSave(newT, Some(oldT), title, saveType).value;
      var plan := PlanFor(saveType, title).value;
      var o := CastToStr(oldT, KEY).value;
      var light := Light(o, CastToStr(newT, KEY).value, plan.keys, plan.extra);
      forall i :: 0 <= i < |o.rows| && (saveType == REGIONAL ==> HasNonKeyValue(o.rows[i], light.columns, REGIONAL_KEYS)) ==>
        Represented(o.rows[i], r.rows, light.columns)
  {
    GlobalSaveMerges(newT, oldT, title, saveType);
    var plan := PlanFor(saveType, title).value;
    MergedKeepsOld(CastToStr(oldT, KEY).value, CastToStr(newT, KEY).value, plan.keys, plan.extra, plan.prune);
  }

  /**
   * `save_global_status` updates rather than duplicates: an old row and a new row (CD_REF as text)
   * with the same key are saved as one row, holding the old cells on the columns left to the old
   * layer and the new ones on the new table's (for a regional save, when the new row holds a value).
   */
  lemma GlobalCombines(newT: Table, oldT: Table, title: string, saveType: string)
    requires WellFormed(newT) && WellFormed(oldT)
    requires !IsEmptyFrame(oldT) && GlobalSave(newT, Some(oldT), title, saveType).Ok?
    ensures var r := GlobalSave(newT, Some(oldT), title, saveType).value;
      var plan := PlanFor(saveType, title).value;
      var o := CastToStr(oldT, KEY).value;
      var n := CastToStr(newT, KEY).value;
      var light := Light(o, n, plan.keys, plan.extra);
      forall i, j :: (0 <= i < |o.rows| && 0 <= j < |n.rows| && AgreesOn(o.rows[i], n.rows[j], plan.keys) &&
        (saveType == REGIONAL ==> HasNonKeyValue(n.rows[j], n.columns, plan.keys))) ==>
        Paired(o.rows[i], n.rows[j], r.rows, light.columns, n.columns)
  {
    GlobalSaveMerges(newT, oldT, title, saveType);
    var plan := PlanFor(saveType, title).value;
    MergedCombines(CastToStr(oldT, KEY).value, CastToStr(newT, KEY).value, plan.keys, plan.extra, plan.prune);
  }

  /** A regional save over an old layer keeps only rows holding a value outside CD_REF and Région. */
  lemma GlobalRegionalPrunes(newT: Table, oldT: Table, title: string)
    requires WellFormed(newT) && WellFormed(oldT)
    requires !IsEmptyFrame(oldT) && GlobalSave(newT, Some(oldT), title, REGIONAL).Ok?
    ensures var r := GlobalSave(newT, Some(oldT), title, REGIONAL).value;
      forall row :: row in r.rows ==> HasNonKeyValue(row, r.columns, REGIONAL_KEYS)
  {
    GlobalSaveMerges(newT, oldT, title, REGIONAL);
    var o := CastToStr(oldT, KEY).value;
    var n := CastToStr(newT, KEY).value;
    MergeLayersWellFormed(o, n, REGIONAL_KEYS, []);
    CleanPrunedHasValues(MergeLayers(o, n, REGIONAL_KEYS, []).value, REGIONAL_KEYS);
  }

  /** For the bird group's national list, the old LRN column never reaches the saved table: an LRN column there is the new one. */
  lemma GlobalBirdDropsOldLrn(newT: Table, oldT: Table)
    requires WellFormed(newT) && WellFormed(oldT)
    requires !IsEmptyFrame(oldT) && GlobalSave(newT, Some(oldT), OISEAUX.title, NATIONAL).Ok?
    ensures LISTE_ROUGE_NATIONALE.typeId in GlobalSave(newT, Some(oldT), OISEAUX.title, NATIONAL).value.columns ==>
      LISTE_ROUGE_NATIONALE.typeId in newT.columns
  {
    GlobalSaveMerges(newT, oldT, OISEAUX.title, NATIONAL);
    var o := CastToStr(oldT, KEY).value;
    var n := CastToStr(newT, KEY).value;
    var extra := [LISTE_ROUGE_NATIONALE.typeId];
    MergeLayersWellFormed(o, n, NATIONAL_KEYS, extra);
    CleanShape(MergeLayers(o, n, NATIONAL_KEYS, extra).value, NATIONAL_KEYS, false);
  }

  /** Whatever the path, the saved columns are in the standard layout. */
  lemma GlobalLayout(newT: Table, layer: Option<Table>, title: string, saveType: string)
    requires WellFormed(newT) && (layer.Some? ==> WellFormed(layer.value))
    requires GlobalSave(newT, layer, title, saveType).Ok?
    ensures var cols := GlobalSave(newT, layer, title, saveType).value.columns;
      Distinct(cols) && forall i, j :: 0 <= i < j < |cols| ==> Position(cols[i]) <= Position(cols[j])
  {
    var plan := PlanFor(saveType, title).value;
    if layer.Some? && !IsEmptyFrame(layer.value) {
      GlobalSaveMerges(newT, layer.value, title, saveType);
      var o := CastToStr(layer.value, KEY).value;
      var n := CastToStr(newT, KEY).value;
      MergeLayersWellFormed(o, n, plan.keys, plan.extra);
      CleanLayout(MergeLayers(o, n, plan.keys, plan.extra).value, plan.keys, plan.prune);
    } else {
      CleanLayout(newT, plan.keys, false);
    }
  }

  /**
   * The newer `save_global_status` and `SaveNationalStatus` save the same table for a national
   * list over an existing layer, outside the bird group (where they remove LRN differently).
   */
  lemma GlobalMatchesNational(newT: Table, oldT: Table, title: string)
    requires !IsEmptyFrame(oldT) && title != "Oiseaux" && title != OISEAUX.title
    ensures GlobalSave(newT, Some(oldT), title, NATIONAL) == NationalSave(newT, oldT, title)
  {
  }

  /**
   * With an old layer, `SaveRegionalStatus` saves rows holding a value outside the keys, loses no
   * new row that has one, and lets the new values win.
   */
  lemma RegionalSaveMerges(newT: Table, oldT: Table)
    requires WellFormed(newT) && WellFormed(oldT) && RegionalSave(newT, Some(oldT)).Ok?
    ensures var r := RegionalSave(newT, Some(oldT)).value;
      forall row :: row in r.rows ==> HasNonKeyValue(row, r.columns, REGIONAL_KEYS) && FromSide(row, r.columns, newT, REGIONAL_KEYS)
    ensures var r := RegionalSave(newT, Some(oldT)).value;
      forall j :: 0 <= j < |newT.rows| && HasNonKeyValue(newT.rows[j], newT.columns, REGIONAL_KEYS) ==>
        Represented(newT.rows[j], r.rows, newT.columns)
    ensures var r := RegionalSave(newT, Some(oldT)).value;
      var light := Light(oldT, newT, REGIONAL_KEYS, []);
      forall i, j :: (0 <= i < |oldT.rows| && 0 <= j < |newT.rows| && AgreesOn(oldT.rows[i], newT.rows[j], REGIONAL_KEYS) &&
        HasNonKeyValue(newT.rows[j], newT.columns, REGIONAL_KEYS)) ==>
        Paired(oldT.rows[i], newT.rows[j], r.rows, light.columns, newT.columns)
  {
    MergeLayersWellFormed(oldT, newT, REGIONAL_KEYS, []);
    CleanPrunedHasValues(MergeLayers(oldT, newT, REGIONAL_KEYS, []).value, REGIONAL_KEYS);
    MergedOrigin(oldT, newT, REGIONAL_KEYS, [], true);
    MergedKeepsNew(oldT, newT, REGIONAL_KEYS, [], true);
    MergedCombines(oldT, newT, REGIONAL_KEYS, [], true);
  }
}
