/**
 * `df.groupby(keys, as_index=False).agg({c: "; ".join for c in aggCols})`: one row per distinct
 * key, carrying the key cells and, for every aggregated column, the "; "-join of the group's
 * values in row order. Rows with a missing key cell are left out, as pandas does by default.
 */
module Grouping {
  import opened Wrappers
  import opened Seqs
  import opened Strings
  import opened Tables
  import opened Merge

  const AGG_SEPARATOR := "; "

  /** No key cell of the row is missing. */
  predicate FullKey(r: Row, keys: seq<string>) {
    forall i :: 0 <= i < |keys| ==> Get(r, keys[i]) != Empty
  }

  /** Some complete input row has key `k`. */
  predicate KeyOccurs(rows: seq<Row>, keys: seq<string>, k: seq<Cell>) {
    exists j :: 0 <= j < |rows| && FullKey(rows[j], keys) && KeyOf(rows[j], keys) == k
  }

  /** The distinct complete keys of the rows, in the order they first appear. */
  function GroupKeys(rows: seq<Row>, keys: seq<string>): (ks: seq<seq<Cell>>)
    ensures Distinct(ks)
    ensures forall j :: 0 <= j < |rows| && FullKey(rows[j], keys) ==> KeyOf(rows[j], keys) in ks
    ensures forall i :: 0 <= i < |ks| ==> KeyOccurs(rows, keys, ks[i])
  {
    var keyed := Filter(rows, (r: Row) => FullKey(r, keys));
    var kk := Map(keyed, (r: Row) => KeyOf(r, keys));
    KeyedKeys(rows, keys, keyed, kk);
    var ks := Dedup(kk);
    assert forall i :: 0 <= i < |ks| ==> KeyOccurs(rows, keys, ks[i]) by {
      forall i | 0 <= i < |ks|
        ensures KeyOccurs(rows, keys, ks[i])
      {
        var m :| 0 <= m < |kk| && kk[m] == ks[i];
      }
    }
    ks
  }

  lemma KeyedKeys(rows: seq<Row>, keys: seq<string>, keyed: seq<Row>, kk: seq<seq<Cell>>)
    requires keyed == Filter(rows, (r: Row) => FullKey(r, keys))
    requires kk == Map(keyed, (r: Row) => KeyOf(r, keys))
    ensures forall j :: 0 <= j < |rows| && FullKey(rows[j], keys) ==> KeyOf(rows[j], keys) in kk
    ensures forall m :: 0 <= m < |kk| ==> KeyOccurs(rows, keys, kk[m])
  {
    KeysOfKept(rows, keys, keyed, kk);
    KeysFromRows(rows, keys, keyed, kk);
  }

  lemma KeysOfKept(rows: seq<Row>, keys: seq<string>, keyed: seq<Row>, kk: seq<seq<Cell>>)
    requires |kk| == |keyed| && forall m :: 0 <= m < |keyed| ==> kk[m] == KeyOf(keyed[m], keys)
    requires forall j :: 0 <= j < |rows| && FullKey(rows[j], keys) ==> rows[j] in keyed
    ensures forall j :: 0 <= j < |rows| && FullKey(rows[j], keys) ==> KeyOf(rows[j], keys) in kk
  {
    forall j | 0 <= j < |rows| && FullKey(rows[j], keys)
      ensures KeyOf(rows[j], keys) in kk
    {
      var m :| 0 <= m < |keyed| && keyed[m] == rows[j];
      assert kk[m] == KeyOf(rows[j], keys);
    }
  }

  lemma KeysFromRows(rows: seq<Row>, keys: seq<string>, keyed: seq<Row>, kk: seq<seq<Cell>>)
    requires |kk| == |keyed| && forall m :: 0 <= m < |keyed| ==> kk[m] == KeyOf(keyed[m], keys)
    requires forall m :: 0 <= m < |keyed| ==> keyed[m] in rows && FullKey(keyed[m], keys)
    ensures forall m :: 0 <= m < |kk| ==> KeyOccurs(rows, keys, kk[m])
  {
    forall m | 0 <= m < |kk|
      ensures KeyOccurs(rows, keys, kk[m])
    {
      KeyFromRow(rows, keys, keyed[m], kk[m]);
    }
  }

  lemma KeyFromRow(rows: seq<Row>, keys: seq<string>, r: Row, k: seq<Cell>)
    requires r in rows && FullKey(r, keys) && k == KeyOf(r, keys)
    ensures KeyOccurs(rows, keys, k)
  {
    var j :| 0 <= j < |rows| && rows[j] == r;
    assert FullKey(rows[j], keys) && KeyOf(rows[j], keys) == k;
  }

  /** The rows whose key is `k`, in row order. */
  function Group(rows: seq<Row>, keys: seq<string>, k: seq<Cell>): seq<Row> {
    Filter(rows, (r: Row) => KeyOf(r, keys) == k)
  }

  /** `"; ".join` of a column over a group, each cell rendered with `str`. */
  function JoinValues(group: seq<Row>, col: string): string {
    Join(Map(group, (r: Row) => CellToStr(Get(r, col))), AGG_SEPARATOR)
  }

  /** The cell of key vector `k` for key column `c`: the first position where `c` is named. */
  function Lookup(keys: seq<string>, k: seq<Cell>, c: string): Cell
    decreases |keys|
  {
    if |keys| == 0 || |k| == 0 then Empty
    else if keys[0] == c then k[0]
    else Lookup(keys[1..], k[1..], c)
  }

  /** The output row of the group with key `k`. */
  function GroupRow(rows: seq<Row>, keys: seq<string>, aggCols: seq<string>, k: seq<Cell>): (o: Row)
    ensures forall c :: c in o <==> c in keys + aggCols
  {
    map c | c in keys + aggCols :: if c in keys then Lookup(keys, k, c) else Str(JoinValues(Group(rows, keys, k), c))
  }

  /**
   * The grouped table: KeyError for the first key or aggregated column that is missing; otherwise
   * the key columns then the aggregated ones, one row per distinct complete key in order of first
   * appearance, each aggregated cell the "; "-join of the group's values.
   */
  function GroupJoin(t: Table, keys: seq<string>, aggCols: seq<string>): (r: Result<Table, Error>)
    ensures r.Err? <==> FirstMissing(keys + aggCols, t.columns).Some?
    ensures r.Err? ==> r.error == KeyError(FirstMissing(keys + aggCols, t.columns).value)
    ensures r.Ok? ==> r.value.columns == keys + aggCols && |r.value.rows| == |GroupKeys(t.rows, keys)|
    ensures r.Ok? && Distinct(keys + aggCols) ==>
      forall i :: 0 <= i < |r.value.rows| ==> KeyOf(r.value.rows[i], keys) == GroupKeys(t.rows, keys)[i]
    ensures r.Ok? && Distinct(keys + aggCols) ==>
      forall i, c :: 0 <= i < |r.value.rows| && c in aggCols ==>
        Get(r.value.rows[i], c) == Str(JoinValues(Group(t.rows, keys, GroupKeys(t.rows, keys)[i]), c))
    ensures r.Ok? && Distinct(keys + aggCols) ==> WellFormed(r.value)
  {
    match FirstMissing(keys + aggCols, t.columns)
    case Some(c) => Err(KeyError(c))
    case None =>
      var ks := GroupKeys(t.rows, keys);
      var rows := Map(ks, (k: seq<Cell>) => GroupRow(t.rows, keys, aggCols, k));
      GroupRowsMeaning(t.rows, keys, aggCols, ks);
      Ok(Table(keys + aggCols, rows))
  }

  lemma {:induction false} LookupAt(keys: seq<string>, k: seq<Cell>, i: nat)
    requires Distinct(keys) && |k| == |keys| && i < |keys|
    ensures Lookup(keys, k, keys[i]) == k[i]
    decreases |keys|
  {
    if i > 0 {
      assert keys[0] != keys[i];
      assert keys[1..][i - 1] == keys[i];
      LookupAt(keys[1..], k[1..], i - 1);
    }
  }

  lemma DistinctPrefix<T>(a: seq<T>, b: seq<T>)
    requires Distinct(a + b)
    ensures Distinct(a)
    ensures forall x :: x in b ==> x !in a
  {
    forall i, j | 0 <= i < j < |a|
      ensures a[i] != a[j]
    {
      assert (a + b)[i] == a[i] && (a + b)[j] == a[j];
    }
    forall x | x in b
      ensures x !in a
    {
      var j :| 0 <= j < |b| && b[j] == x;
      if i :| 0 <= i < |a| && a[i] == x {
        assert (a + b)[i] == (a + b)[|a| + j];
      }
    }
  }

  /** A group row carries its own key and the joined values of its group. */
  lemma GroupRowMeaning(rows: seq<Row>, keys: seq<string>, aggCols: seq<string>, k: seq<Cell>)
    requires Distinct(keys + aggCols) && |k| == |keys|
    ensures KeyOf(GroupRow(rows, keys, aggCols, k), keys) == k
    ensures forall c :: c in aggCols ==> Get(GroupRow(rows, keys, aggCols, k), c) == Str(JoinValues(Group(rows, keys, k), c))
    ensures RowFits(GroupRow(rows, keys, aggCols, k), keys + aggCols)
  {
    DistinctPrefix(keys, aggCols);
    var o := GroupRow(rows, keys, aggCols, k);
    forall i | 0 <= i < |keys|
      ensures KeyOf(o, keys)[i] == k[i]
    {
      LookupAt(keys, k, i);
    }
  }

  lemma GroupRowsMeaning(rows: seq<Row>, keys: seq<string>, aggCols: seq<string>, ks: seq<seq<Cell>>)
    requires ks == GroupKeys(rows, keys)
    ensures Distinct(keys + aggCols) ==> forall i :: 0 <= i < |ks| ==>
      && KeyOf(GroupRow(rows, keys, aggCols, ks[i]), keys) == ks[i]
      && (forall c :: c in aggCols ==> Get(GroupRow(rows, keys, aggCols, ks[i]), c) == Str(JoinValues(Group(rows, keys, ks[i]), c)))
      && RowFits(GroupRow(rows, keys, aggCols, ks[i]), keys + aggCols)
  {
    if Distinct(keys + aggCols) {
      forall i | 0 <= i < |ks|
        ensures KeyOf(GroupRow(rows, keys, aggCols, ks[i]), keys) == ks[i]
        ensures forall c :: c in aggCols ==> Get(GroupRow(rows, keys, aggCols, ks[i]), c) == Str(JoinValues(Group(rows, keys, ks[i]), c))
        ensures RowFits(GroupRow(rows, keys, aggCols, ks[i]), keys + aggCols)
      {
        var j :| 0 <= j < |rows| && FullKey(rows[j], keys) && KeyOf(rows[j], keys) == ks[i];
        GroupRowMeaning(rows, keys, aggCols, ks[i]);
      }
    }
  }

  /**
   * The grouped table has one row per key, every output key is the key of a complete input row,
   * and every complete input key has an output row.
   */
  lemma GroupJoinCovers(t: Table, keys: seq<string>, aggCols: seq<string>, out: Table)
    requires GroupJoin(t, keys, aggCols) == Ok(out) && Distinct(keys + aggCols)
    ensures forall i, j :: 0 <= i < j < |out.rows| ==> KeyOf(out.rows[i], keys) != KeyOf(out.rows[j], keys)
    ensures forall j :: 0 <= j < |t.rows| && FullKey(t.rows[j], keys) ==>
      exists i :: 0 <= i < |out.rows| && KeyOf(out.rows[i], keys) == KeyOf(t.rows[j], keys)
    ensures forall i :: 0 <= i < |out.rows| ==>
      KeyOccurs(t.rows, keys, KeyOf(out.rows[i], keys))
  {
    KeysCover(out.rows, t.rows, keys, GroupKeys(t.rows, keys));
  }

  lemma KeysCover(rows: seq<Row>, input: seq<Row>, keys: seq<string>, ks: seq<seq<Cell>>)
    requires ks == GroupKeys(input, keys)
    requires |rows| == |ks| && forall i :: 0 <= i < |rows| ==> KeyOf(rows[i], keys) == ks[i]
    ensures forall i, j :: 0 <= i < j < |rows| ==> KeyOf(rows[i], keys) != KeyOf(rows[j], keys)
    ensures forall j :: 0 <= j < |input| && FullKey(input[j], keys) ==>
      exists i :: 0 <= i < |rows| && KeyOf(rows[i], keys) == KeyOf(input[j], keys)
    ensures forall i :: 0 <= i < |rows| ==>
      KeyOccurs(input, keys, KeyOf(rows[i], keys))
  {
    forall j | 0 <= j < |input| && FullKey(input[j], keys)
      ensures exists i :: 0 <= i < |rows| && KeyOf(rows[i], keys) == KeyOf(input[j], keys)
    {
      var i :| 0 <= i < |ks| && ks[i] == KeyOf(input[j], keys);
      assert KeyOf(rows[i], keys) == ks[i];
    }
  }
}
