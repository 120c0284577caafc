/**
 * The slice of a pandas DataFrame that the plug-in uses: named columns, rows as maps from
 * column name to cell, a missing value (NaN) as `Empty`, and the column and row operations
 * it calls (`df[cols]`, `drop(columns=…)`, `dropna`, `drop_duplicates`, `astype`).
 */
module Tables {
  import opened Wrappers
  import opened Seqs
  import opened Numbers

  datatype Cell = Empty | Str(s: string) | Int(n: int)

  type Row = map<string, Cell>

  datatype Table = Table(columns: seq<string>, rows: seq<Row>)

  /** The Python exceptions the modelled code can raise; `IOError` stands for a file or layer that cannot be read. */
  datatype Error = KeyError(key: string) | ValueError(detail: string) | TypeError(detail: string) | IOError(path: string)

  /** A row has exactly the given columns. */
  ghost predicate RowFits(r: Row, cols: seq<string>) {
    forall c :: c in r <==> c in cols
  }

  /** Column names are distinct and every row has a cell for exactly those columns. */
  ghost predicate WellFormed(t: Table) {
    Distinct(t.columns) && forall i :: 0 <= i < |t.rows| ==> RowFits(t.rows[i], t.columns)
  }

  function Get(r: Row, c: string): Cell {
    if c in r then r[c] else Empty
  }

  /** Two rows hold the same cells in every column of `cols`. */
  predicate AgreesOn(a: Row, b: Row, cols: seq<string>) {
    forall c :: c in cols ==> Get(a, c) == Get(b, c)
  }

  /** Python's `str(x)` of a cell, as done by `astype(str)`: a missing value becomes "nan". */
  function CellToStr(x: Cell): string {
    match x
    case Empty => "nan"
    case Str(s) => s
    case Int(n) => ShowInt(n)
  }

  /** `astype(int)` of one cell: a missing value or a non-numeric string raises ValueError. */
  function CellToInt(x: Cell): (r: Result<int, Error>)
    ensures x.Int? ==> r == Ok(x.n)
    ensures x.Empty? ==> r.Err?
    ensures x.Str? ==> (r.Ok? <==> ParseInt(x.s).Some?)
    ensures r.Err? ==> r.error.ValueError?
  {
    match x
    case Empty => Err(ValueError("cannot convert NaN to integer"))
    case Int(n) => Ok(n)
    case Str(s) =>
      match ParseInt(s)
      case None => Err(ValueError("invalid literal for int()"))
      case Some(n) => Ok(n)
  }

  /** The part of `r` on the columns `cols`. */
  function Restrict(r: Row, cols: seq<string>): (o: Row)
    ensures forall c :: c in o <==> c in r && c in cols
    ensures forall c :: c in o ==> o[c] == r[c]
  {
    map c | c in r && c in cols :: r[c]
  }

  function RestrictRows(rows: seq<Row>, cols: seq<string>): (o: seq<Row>)
    ensures |o| == |rows|
    ensures forall i :: 0 <= i < |o| ==> o[i] == Restrict(rows[i], cols)
  {
    seq(|rows|, i requires 0 <= i < |rows| => Restrict(rows[i], cols))
  }

  /** The first name of `want` that is not among `have`, the one pandas reports in its KeyError. */
  function FirstMissing(want: seq<string>, have: seq<string>): (m: Option<string>)
    ensures m.None? <==> forall i :: 0 <= i < |want| ==> want[i] in have
    ensures m.Some? ==> m.value in want && m.value !in have
    decreases |want|
  {
    if want == [] then None
    else if want[0] !in have then Some(want[0])
    else FirstMissing(want[1..], have)
  }

  /** `df[cols]`: the listed columns, in the listed order; KeyError on an unknown name. */
  function Select(t: Table, cols: seq<string>): (r: Result<Table, Error>)
    ensures r.Ok? <==> forall i :: 0 <= i < |cols| ==> cols[i] in t.columns
    ensures r.Err? ==> r.error.KeyError? && r.error.key in cols && r.error.key !in t.columns
    ensures r.Ok? ==> r.value.columns == cols && |r.value.rows| == |t.rows|
    ensures r.Ok? ==> forall i :: 0 <= i < |t.rows| ==> AgreesOn(r.value.rows[i], t.rows[i], cols)
    ensures r.Ok? && WellFormed(t) && Distinct(cols) ==> WellFormed(r.value)
  {
    match FirstMissing(cols, t.columns)
    case Some(c) => Err(KeyError(c))
    case None => Ok(Table(cols, RestrictRows(t.rows, cols)))
  }

  /** `df.drop(columns=cols)`: KeyError on an unknown name; the other columns keep their order. */
  function Drop(t: Table, cols: seq<string>): (r: Result<Table, Error>)
    ensures r.Ok? <==> forall i :: 0 <= i < |cols| ==> cols[i] in t.columns
    ensures r.Err? ==> r.error.KeyError? && r.error.key in cols && r.error.key !in t.columns
    ensures r.Ok? ==> forall c :: c in r.value.columns <==> c in t.columns && c !in cols
    ensures r.Ok? ==> IsSubseq(r.value.columns, t.columns) && |r.value.rows| == |t.rows|
    ensures r.Ok? ==> forall i :: 0 <= i < |t.rows| ==> AgreesOn(r.value.rows[i], t.rows[i], r.value.columns)
    ensures r.Ok? && WellFormed(t) ==> WellFormed(r.value)
  {
    match FirstMissing(cols, t.columns)
    case Some(c) => Err(KeyError(c))
    case None =>
      var kept := Filter(t.columns, c => c !in cols);
      FilterIsSubseq(t.columns, c => c !in cols);
      FilterDistinct(t.columns, c => c !in cols);
      Ok(Table(kept, RestrictRows(t.rows, kept)))
  }

  /** Some row holds a value in column `c`. */
  predicate HasValue(rows: seq<Row>, c: string) {
    exists i :: 0 <= i < |rows| && Get(rows[i], c) != Empty
  }

  /** `df.dropna(axis=1, how="all")`: the columns holding at least one value, in their order. */
  function DropEmptyColumns(t: Table): (r: Table)
    ensures forall c :: c in r.columns <==> c in t.columns && HasValue(t.rows, c)
    ensures IsSubseq(r.columns, t.columns) && |r.rows| == |t.rows|
    ensures forall i :: 0 <= i < |t.rows| ==> AgreesOn(r.rows[i], t.rows[i], r.columns)
    ensures WellFormed(t) ==> WellFormed(r)
  {
    var kept := Filter(t.columns, c => HasValue(t.rows, c));
    FilterIsSubseq(t.columns, c => HasValue(t.rows, c));
    FilterDistinct(t.columns, c => HasValue(t.rows, c));
    Table(kept, RestrictRows(t.rows, kept))
  }

  /** The row holds a value in some column of `cols` that is not a key. */
  predicate HasNonKeyValue(r: Row, cols: seq<string>, keys: seq<string>) {
    exists i :: 0 <= i < |cols| && cols[i] !in keys && Get(r, cols[i]) != Empty
  }

  /**
   * `df.dropna(axis=0, how="all", subset=[c for c in df.columns if c not in keys])`:
   * the rows with a value outside the key columns, in their order.
   */
  function DropEmptyRows(t: Table, keys: seq<string>): (r: Table)
    ensures r.columns == t.columns && IsSubseq(r.rows, t.rows)
    ensures forall i :: 0 <= i < |r.rows| ==> HasNonKeyValue(r.rows[i], t.columns, keys)
    ensures forall i :: 0 <= i < |t.rows| && HasNonKeyValue(t.rows[i], t.columns, keys) ==> t.rows[i] in r.rows
    ensures WellFormed(t) ==> WellFormed(r)
  {
    var p := (row: Row) => HasNonKeyValue(row, t.columns, keys);
    FilterIsSubseq(t.rows, p);
    Table(t.columns, Filter(t.rows, p))
  }

  /** `df.drop_duplicates()`: the first of every group of equal rows, in their order. */
  function DropDuplicates(t: Table): (r: Table)
    ensures r.columns == t.columns && IsSubseq(r.rows, t.rows) && Distinct(r.rows)
    ensures forall i :: 0 <= i < |t.rows| ==> t.rows[i] in r.rows
    ensures forall i, j :: 0 <= i < j < |r.rows| ==>
      r.rows[i] in t.rows && r.rows[j] in t.rows && FirstIndex(t.rows, r.rows[i]) < FirstIndex(t.rows, r.rows[j])
    ensures WellFormed(t) ==> WellFormed(r)
  {
    DedupIsSubseq(t.rows);
    DedupKeepsFirst(t.rows);
    Table(t.columns, Dedup(t.rows))
  }

  function CastRowsToStr(rows: seq<Row>, col: string): (o: seq<Row>)
    ensures |o| == |rows|
    ensures forall i :: 0 <= i < |o| ==> o[i] == rows[i][col := Str(CellToStr(Get(rows[i], col)))]
  {
    seq(|rows|, i requires 0 <= i < |rows| => rows[i][col := Str(CellToStr(Get(rows[i], col)))])
  }

  /** `df[col] = df[col].astype(str)`: every cell of `col` becomes its string form; KeyError when absent. */
  function CastToStr(t: Table, col: string): (r: Result<Table, Error>)
    ensures r.Err? <==> col !in t.columns
    ensures r.Err? ==> r.error == KeyError(col)
    ensures r.Ok? ==> r.value.columns == t.columns && |r.value.rows| == |t.rows|
    ensures r.Ok? ==> forall i :: 0 <= i < |t.rows| ==> Get(r.value.rows[i], col) == Str(CellToStr(Get(t.rows[i], col)))
    ensures r.Ok? ==> forall i, c :: 0 <= i < |t.rows| && c != col ==> Get(r.value.rows[i], c) == Get(t.rows[i], c)
    ensures r.Ok? && WellFormed(t) ==> WellFormed(r.value)
  {
    if col !in t.columns then Err(KeyError(col))
    else Ok(Table(t.columns, CastRowsToStr(t.rows, col)))
  }

  function CastRowsToInt(rows: seq<Row>, col: string): (r: Result<seq<Row>, Error>)
    ensures r.Ok? <==> forall i :: 0 <= i < |rows| ==> CellToInt(Get(rows[i], col)).Ok?
    ensures r.Err? ==> r.error.ValueError?
    ensures r.Ok? ==> |r.value| == |rows|
    ensures r.Ok? ==> forall i :: 0 <= i < |rows| ==>
      r.value[i] == rows[i][col := Int(CellToInt(Get(rows[i], col)).value)]
    decreases |rows|
  {
    if rows == [] then Ok([])
    else
      var n :- CellToInt(Get(rows[0], col));
      var rest :- CastRowsToInt(rows[1..], col);
      Ok([rows[0][col := Int(n)]] + rest)
  }

  /** `df[col] = df[col].astype(int)`: KeyError when absent, ValueError on the first cell that is no integer. */
  function CastToInt(t: Table, col: string): (r: Result<Table, Error>)
    ensures col !in t.columns ==> r == Err(KeyError(col))
    ensures r.Ok? <==> col in t.columns && forall i :: 0 <= i < |t.rows| ==> CellToInt(Get(t.rows[i], col)).Ok?
    ensures r.Ok? ==> r.value.columns == t.columns && |r.value.rows| == |t.rows|
    ensures r.Ok? ==> forall i :: 0 <= i < |t.rows| ==>
      Get(r.value.rows[i], col) == Int(CellToInt(Get(t.rows[i], col)).value)
    ensures r.Ok? ==> forall i, c :: 0 <= i < |t.rows| && c != col ==> Get(r.value.rows[i], c) == Get(t.rows[i], c)
    ensures r.Ok? && WellFormed(t) ==> WellFormed(r.value)
  {
    if col !in t.columns then Err(KeyError(col))
    else
      var rows :- CastRowsToInt(t.rows, col);
      Ok(Table(t.columns, rows))
  }

  /** `df[col] = df[col].apply(f)` for a total `f` on strings, with `str` applied first. */
  function MapColumn(t: Table, col: string, f: string -> string): (r: Table)
    requires col in t.columns
    ensures r.columns == t.columns && |r.rows| == |t.rows|
    ensures forall i :: 0 <= i < |t.rows| ==> Get(r.rows[i], col) == Str(f(CellToStr(Get(t.rows[i], col))))
    ensures forall i, c :: 0 <= i < |t.rows| && c != col ==> Get(r.rows[i], c) == Get(t.rows[i], c)
    ensures WellFormed(t) ==> WellFormed(r)
  {
    Table(t.columns, seq(|t.rows|, i requires 0 <= i < |t.rows| =>
      t.rows[i][col := Str(f(CellToStr(Get(t.rows[i], col))))]))
  }

  /**
   * One boolean row mask of the form pandas builds with `==` and `isin`: a column equal to a string,
   * a column whose value is in a list of strings, or two columns equal to each other.
   */
  datatype Mask = ColEquals(col: string, value: string) | ColIn(col: string, values: seq<string>) | ColsEqual(a: string, b: string)

  /** The columns a mask reads, in the order it reads them. */
  function MaskColumns(m: Mask): seq<string> {
    match m
    case ColEquals(c, _) => [c]
    case ColIn(c, _) => [c]
    case ColsEqual(a, b) => [a, b]
  }

  function MasksColumns(ms: seq<Mask>): seq<string>
    decreases |ms|
  {
    if ms == [] then [] else MaskColumns(ms[0]) + MasksColumns(ms[1..])
  }

  /** A mask's value on a row; a missing value is never equal to anything, not even another missing value. */
  predicate Holds(m: Mask, r: Row) {
    match m
    case ColEquals(c, v) => Get(r, c) == Str(v)
    case ColIn(c, vs) => Get(r, c).Str? && Get(r, c).s in vs
    case ColsEqual(a, b) => Get(r, a) != Empty && Get(r, a) == Get(r, b)
  }

  predicate AllHold(ms: seq<Mask>, r: Row) {
    forall i :: 0 <= i < |ms| ==> Holds(ms[i], r)
  }

  lemma {:induction false} MasksColumnsConcat(a: seq<Mask>, b: seq<Mask>)
    ensures MasksColumns(a + b) == MasksColumns(a) + MasksColumns(b)
    decreases |a|
  {
    if a != [] {
      assert (a + b)[1..] == a[1..] + b;
      MasksColumnsConcat(a[1..], b);
    } else {
      assert a + b == b;
    }
  }

  lemma MasksColumnsSingle(m: Mask)
    ensures MasksColumns([m]) == MaskColumns(m)
  {
    assert [m][1..] == [];
  }

  /** A list of masks holds of a row when both of its parts do. */
  lemma AllHoldConcat(a: seq<Mask>, b: seq<Mask>, r: Row)
    ensures AllHold(a + b, r) <==> AllHold(a, r) && AllHold(b, r)
  {
    if AllHold(a, r) && AllHold(b, r) {
      forall i | 0 <= i < |a + b|
        ensures Holds((a + b)[i], r)
      {
        if i >= |a| {
          assert (a + b)[i] == b[i - |a|];
        }
      }
    }
    if AllHold(a + b, r) {
      forall i | 0 <= i < |a|
        ensures Holds(a[i], r)
      {
        assert (a + b)[i] == a[i];
      }
      forall i | 0 <= i < |b|
        ensures Holds(b[i], r)
      {
        assert (a + b)[|a| + i] == b[i];
      }
    }
  }

  /** `df[m1 & m2 & …]`: KeyError for the first column the masks read that is missing, else the rows where all hold. */
  function ApplyMasks(t: Table, ms: seq<Mask>): (r: Result<Table, Error>)
    ensures r.Err? <==> FirstMissing(MasksColumns(ms), t.columns).Some?
    ensures r.Err? ==> r.error == KeyError(FirstMissing(MasksColumns(ms), t.columns).value)
    ensures r.Ok? ==> r.value.columns == t.columns && IsSubseq(r.value.rows, t.rows)
    ensures r.Ok? ==> forall i :: 0 <= i < |r.value.rows| ==> AllHold(ms, r.value.rows[i])
    ensures r.Ok? ==> forall i :: 0 <= i < |t.rows| && AllHold(ms, t.rows[i]) ==> t.rows[i] in r.value.rows
    ensures r.Ok? && WellFormed(t) ==> WellFormed(r.value)
  {
    match FirstMissing(MasksColumns(ms), t.columns)
    case Some(c) => Err(KeyError(c))
    case None =>
      FilterIsSubseq(t.rows, row => AllHold(ms, row));
      Ok(Table(t.columns, Filter(t.rows, row => AllHold(ms, row))))
  }

  /** The masked rows, as a filter by the conjunction of the masks. */
  lemma ApplyMasksRows(t: Table, ms: seq<Mask>, keep: Row -> bool)
    requires ApplyMasks(t, ms).Ok?
    requires forall row :: keep(row) == AllHold(ms, row)
    ensures ApplyMasks(t, ms).value.rows == Filter(t.rows, keep)
  {
    FilterExt(t.rows, row => AllHold(ms, row), keep);
  }

  /** With no rows, `dropna(axis=1, how="all")` removes every column. */
  lemma DropEmptyColumnsOfNoRows(t: Table)
    requires t.rows == []
    ensures DropEmptyColumns(t).columns == []
  {
  }

  /** Dropping all-empty columns a second time changes nothing. */
  lemma DropEmptyColumnsIdempotent(t: Table)
    ensures DropEmptyColumns(DropEmptyColumns(t)).columns == DropEmptyColumns(t).columns
  {
    var r := DropEmptyColumns(t);
    forall c | c in r.columns
      ensures HasValue(r.rows, c)
    {
      var i :| 0 <= i < |t.rows| && Get(t.rows[i], c) != Empty;
      assert Get(r.rows[i], c) != Empty;
    }
    FilterAll(r.columns, c => HasValue(r.rows, c));
  }

  /** Removing duplicates twice removes nothing more. */
  lemma DropDuplicatesIdempotent(t: Table)
    ensures DropDuplicates(DropDuplicates(t)) == DropDuplicates(t)
  {
    DedupDistinct(Dedup(t.rows));
  }

  /** `df[col] = values` with one value per row: row `i` gets `vs[i]` in `col`; a new column goes last. */
  function SetValues(t: Table, col: string, vs: seq<Cell>): (r: Table)
    requires |vs| == |t.rows|
    ensures forall c :: c in r.columns <==> c in t.columns || c == col
    ensures t.columns <= r.columns && |r.rows| == |t.rows|
    ensures col in t.columns ==> r.columns == t.columns
    ensures forall i :: 0 <= i < |r.rows| ==> Get(r.rows[i], col) == vs[i]
    ensures forall i, c :: 0 <= i < |t.rows| && c != col ==> Get(r.rows[i], c) == Get(t.rows[i], c)
    ensures WellFormed(t) ==> WellFormed(r)
  {
    Table(if col in t.columns then t.columns else t.columns + [col],
          seq(|t.rows|, i requires 0 <= i < |t.rows| => t.rows[i][col := vs[i]]))
  }

  /**
   * `df.apply(f, axis=1)` (or `df[col].apply(f)`): `f`'s value for each row, in row order; the
   * first row on which `f` raises ends the whole call with that exception.
   */
  function ApplyRows(rows: seq<Row>, f: Row -> Result<string, Error>): (r: Result<seq<Cell>, Error>)
    ensures r.Ok? <==> forall i :: 0 <= i < |rows| ==> f(rows[i]).Ok?
    ensures r.Ok? ==> |r.value| == |rows| && forall i :: 0 <= i < |rows| ==> r.value[i] == Str(f(rows[i]).value)
    ensures r.Err? ==> exists i :: 0 <= i < |rows| && f(rows[i]) == Err(r.error)
    decreases |rows|
  {
    if rows == [] then Ok([])
    else
      var v :- f(rows[0]);
      var rest :- ApplyRows(rows[1..], f);
      Ok([Str(v)] + rest)
  }

  /** `df[col] = v` for a single value: every row gets `v` in `col`; a new column goes last. */
  function SetColumn(t: Table, col: string, v: Cell): (r: Table)
    ensures forall c :: c in r.columns <==> c in t.columns || c == col
    ensures t.columns <= r.columns && |r.rows| == |t.rows|
    ensures forall i :: 0 <= i < |r.rows| ==> Get(r.rows[i], col) == v
    ensures forall i, c :: 0 <= i < |t.rows| && c != col ==> Get(r.rows[i], c) == Get(t.rows[i], c)
    ensures WellFormed(t) ==> WellFormed(r)
  {
    SetValues(t, col, seq(|t.rows|, i => v))
  }

  /** `df.dropna(subset=[col])`: the rows holding a value in `col`, in their order; KeyError when absent. */
  function DropMissing(t: Table, col: string): (r: Result<Table, Error>)
    ensures r.Err? <==> col !in t.columns
    ensures r.Err? ==> r.error == KeyError(col)
    ensures r.Ok? ==> r.value.columns == t.columns && IsSubseq(r.value.rows, t.rows)
    ensures r.Ok? ==> forall i :: 0 <= i < |r.value.rows| ==> Get(r.value.rows[i], col) != Empty
    ensures r.Ok? ==> forall i :: 0 <= i < |t.rows| && Get(t.rows[i], col) != Empty ==> t.rows[i] in r.value.rows
    ensures r.Ok? && WellFormed(t) ==> WellFormed(r.value)
  {
    if col !in t.columns then Err(KeyError(col))
    else
      FilterIsSubseq(t.rows, row => Get(row, col) != Empty);
      Ok(Table(t.columns, Filter(t.rows, row => Get(row, col) != Empty)))
  }

  /** A row of a table with the columns `own`, carried over to the columns `cols`: a column it lacks is NaN. */
  function Reindex(r: Row, own: seq<string>, cols: seq<string>): (o: Row)
    ensures RowFits(o, cols)
    ensures forall c {:trigger Get(o, c)} :: c in cols ==> Get(o, c) == if c in own then Get(r, c) else Empty
  {
    map c | c in cols :: if c in own then Get(r, c) else Empty
  }

  /** Every row carried over from the columns `own` to the columns `cols`. */
  function ReindexAll(rows: seq<Row>, own: seq<string>, cols: seq<string>): (o: seq<Row>)
    ensures |o| == |rows|
    ensures forall i :: 0 <= i < |rows| ==> o[i] == Reindex(rows[i], own, cols)
  {
    seq(|rows|, i requires 0 <= i < |rows| => Reindex(rows[i], own, cols))
  }

  /** The columns of `a`, then those of `b` that `a` lacks, in their order. */
  function AddColumns(a: seq<string>, b: seq<string>): (cols: seq<string>)
    ensures forall c :: c in cols <==> c in a || c in b
    ensures |a| <= |cols| && cols[..|a|] == a
    ensures Distinct(a) && Distinct(b) ==> Distinct(cols)
  {
    var extra := Filter(b, c => c !in a);
    FilterDistinct(b, c => c !in a);
    assert forall i, j :: 0 <= i < |a| && 0 <= j < |extra| ==> a[i] != extra[j];
    assert (a + extra)[..|a|] == a;
    a + extra
  }

  /** The number of rows of all the tables together. */
  function TotalRows(ts: seq<Table>): nat
    decreases |ts|
  {
    if ts == [] then 0 else TotalRows(ts[..|ts| - 1]) + |ts[|ts| - 1].rows|
  }

  /** Some table of `ts` has the column `c`. */
  predicate InSomeColumns(ts: seq<Table>, c: string) {
    exists i :: 0 <= i < |ts| && c in ts[i].columns
  }

  lemma InSomeColumnsSnoc(ts: seq<Table>)
    requires ts != []
    ensures forall c :: InSomeColumns(ts, c) <==> InSomeColumns(ts[..|ts| - 1], c) || c in ts[|ts| - 1].columns
  {
    var init := ts[..|ts| - 1];
    forall c
      ensures InSomeColumns(ts, c) <==> InSomeColumns(init, c) || c in ts[|ts| - 1].columns
    {
      if InSomeColumns(ts, c) {
        var i :| 0 <= i < |ts| && c in ts[i].columns;
        if i < |init| {
          assert init[i] == ts[i];
        }
      }
      if InSomeColumns(init, c) {
        var i :| 0 <= i < |init| && c in init[i].columns;
        assert init[i] == ts[i];
      }
    }
  }

  /** The columns of a concatenation: those of the first table, then each later table's new ones. */
  function AllColumns(ts: seq<Table>): (cols: seq<string>)
    ensures forall c :: c in cols <==> InSomeColumns(ts, c)
    decreases |ts|
  {
    if ts == [] then []
    else
      InSomeColumnsSnoc(ts);
      AddColumns(AllColumns(ts[..|ts| - 1]), ts[|ts| - 1].columns)
  }

  /** The rows of each table carried over to the columns `cols`, table by table. */
  function Blocks(ts: seq<Table>, cols: seq<string>): (bs: seq<seq<Row>>)
    ensures |bs| == |ts|
    ensures forall i :: 0 <= i < |ts| ==> bs[i] == ReindexAll(ts[i].rows, ts[i].columns, cols)
  {
    seq(|ts|, i requires 0 <= i < |ts| => ReindexAll(ts[i].rows, ts[i].columns, cols))
  }

  /** The first `n` blocks hold as many rows as the first `n` tables. */
  lemma {:induction false} BlocksLength(ts: seq<Table>, cols: seq<string>, n: nat)
    requires n <= |ts|
    ensures |Flatten(Blocks(ts, cols)[..n])| == TotalRows(ts[..n])
    decreases n
  {
    var bs := Blocks(ts, cols);
    if n > 0 {
      BlocksLength(ts, cols, n - 1);
      assert bs[..n] == bs[..n - 1] + [bs[n - 1]];
      FlattenSnoc(bs[..n - 1], bs[n - 1]);
      assert ts[..n][..n - 1] == ts[..n - 1];
    }
  }

  /**
   * `pd.concat(ts, ignore_index=True)`: the columns some table has, and the rows of each table
   * in turn, carried over to all of those columns.
   */
  function ConcatAll(ts: seq<Table>): (r: Table)
    ensures forall c :: c in r.columns <==> InSomeColumns(ts, c)
    ensures |r.rows| == TotalRows(ts)
  {
    var cols := AllColumns(ts);
    BlocksLength(ts, cols, |ts|);
    assert ts[..|ts|] == ts && Blocks(ts, cols)[..|ts|] == Blocks(ts, cols);
    Table(cols, Flatten(Blocks(ts, cols)))
  }

  /** The columns of the concatenation start with those of the first table, in their order. */
  lemma {:induction false} ConcatAllFirstColumns(ts: seq<Table>)
    requires |ts| > 0
    ensures |ts[0].columns| <= |ConcatAll(ts).columns| && ConcatAll(ts).columns[..|ts[0].columns|] == ts[0].columns
    decreases |ts|
  {
    var init := ts[..|ts| - 1];
    var acc := AllColumns(init);
    var cols := AddColumns(acc, ts[|ts| - 1].columns);
    assert ConcatAll(ts).columns == cols;
    if |ts| == 1 {
      assert acc == [];
      FilterAll(ts[0].columns, c => c !in acc);
    } else {
      ConcatAllFirstColumns(init);
      assert ConcatAll(init).columns == acc && init[0] == ts[0];
      assert cols[..|ts[0].columns|] == acc[..|ts[0].columns|];
    }
  }

  lemma {:induction false} AllColumnsDistinct(ts: seq<Table>)
    ensures (forall i :: 0 <= i < |ts| ==> Distinct(ts[i].columns)) ==> Distinct(AllColumns(ts))
    decreases |ts|
  {
    if ts != [] && forall i :: 0 <= i < |ts| ==> Distinct(ts[i].columns) {
      var init := ts[..|ts| - 1];
      assert forall i :: 0 <= i < |init| ==> init[i] == ts[i];
      AllColumnsDistinct(init);
    }
  }

  /** Tables whose columns are distinct concatenate to a well-formed table. */
  lemma ConcatAllWellFormed(ts: seq<Table>)
    ensures (forall i :: 0 <= i < |ts| ==> Distinct(ts[i].columns)) ==> WellFormed(ConcatAll(ts))
  {
    AllColumnsDistinct(ts);
    var r := ConcatAll(ts);
    var bs := Blocks(ts, r.columns);
    forall k | 0 <= k < |r.rows|
      ensures RowFits(r.rows[k], r.columns)
    {
      FlattenMember(bs, k);
    }
  }

  /**
   * The `j`-th row of the `i`-th table sits in `r` after the rows of the tables before it, with
   * its own value in the column `c` when its table has that column and NaN otherwise.
   */
  predicate RowPlaced(ts: seq<Table>, r: Table, i: nat, j: nat, c: string)
    requires i < |ts| && j < |ts[i].rows|
  {
    && TotalRows(ts[..i]) + j < |r.rows|
    && Get(r.rows[TotalRows(ts[..i]) + j], c) == if c in ts[i].columns then Get(ts[i].rows[j], c) else Empty
  }

  /** The `j`-th row of the `i`-th table, carried over, follows the rows of the tables before it. */
  lemma BlocksRow(ts: seq<Table>, cols: seq<string>, i: nat, j: nat)
    requires i < |ts| && j < |ts[i].rows|
    ensures TotalRows(ts[..i]) + j < |Flatten(Blocks(ts, cols))|
    ensures Flatten(Blocks(ts, cols))[TotalRows(ts[..i]) + j] == Reindex(ts[i].rows[j], ts[i].columns, cols)
  {
    var bs := Blocks(ts, cols);
    FlattenIndex(bs, i, j);
    BlocksLength(ts, cols, i);
    assert bs[i][j] == Reindex(ts[i].rows[j], ts[i].columns, cols);
  }

  /** Where a row ends up in `ConcatAll(ts)`, in every column of it. */
  lemma ConcatAllRow(ts: seq<Table>, i: nat, j: nat, c: string)
    requires i < |ts| && j < |ts[i].rows| && c in ConcatAll(ts).columns
    ensures RowPlaced(ts, ConcatAll(ts), i, j, c)
  {
    var cols := AllColumns(ts);
    assert ConcatAll(ts) == Table(cols, Flatten(Blocks(ts, cols)));
    BlocksRow(ts, cols, i, j);
  }

  /** The rows of `r` from `offset` on are those of `b`, in order, with NaN in the columns of `r` that `b` lacks. */
  predicate RowsPlacedAt(r: Table, offset: nat, b: Table) {
    forall k, c :: offset <= k < |r.rows| && k - offset < |b.rows| && c in r.columns ==>
      Get(r.rows[k], c) == if c in b.columns then Get(b.rows[k - offset], c) else Empty
  }

  /** `pd.concat([a, b])`: the rows of `a`, then those of `b`, each with its own cells and NaN in the columns its table lacks. */
  lemma ConcatTwo(a: Table, b: Table)
    ensures |ConcatAll([a, b]).rows| == |a.rows| + |b.rows|
    ensures RowsPlacedAt(ConcatAll([a, b]), 0, a)
    ensures RowsPlacedAt(ConcatAll([a, b]), |a.rows|, b)
  {
    ConcatTwoFirst(a, b);
    ConcatTwoSecond(a, b);
  }

  lemma ConcatTwoFirst(a: Table, b: Table)
    ensures |ConcatAll([a, b]).rows| == |a.rows| + |b.rows|
    ensures RowsPlacedAt(ConcatAll([a, b]), 0, a)
  {
    var ts := [a, b];
    assert ts[..0] == [] && ts[..|ts| - 1] == [a] && [a][..0] == [];
    assert TotalRows([a]) == |a.rows|;
    assert TotalRows(ts) == |a.rows| + |b.rows|;
    forall k, c | 0 <= k < |ConcatAll(ts).rows| && k < |a.rows| && c in ConcatAll(ts).columns
      ensures Get(ConcatAll(ts).rows[k], c) == if c in a.columns then Get(a.rows[k], c) else Empty
    {
      ConcatAllRow(ts, 0, k, c);
    }
  }

  lemma ConcatTwoSecond(a: Table, b: Table)
    ensures RowsPlacedAt(ConcatAll([a, b]), |a.rows|, b)
  {
    var ts := [a, b];
    assert ts[..1] == [a] && [a][..0] == [];
    assert TotalRows(ts[..1]) == |a.rows|;
    forall k, c | |a.rows| <= k < |ConcatAll(ts).rows| && k - |a.rows| < |b.rows| && c in ConcatAll(ts).columns
      ensures Get(ConcatAll(ts).rows[k], c) == if c in b.columns then Get(b.rows[k - |a.rows|], c) else Empty
    {
      ConcatAllRow(ts, 1, k - |a.rows|, c);
    }
  }

  /** Every row of every table is at its place in the concatenation, in every column of it. */
  lemma ConcatAllRows(ts: seq<Table>)
    ensures forall i: nat, j: nat, c :: i < |ts| && j < |ts[i].rows| && c in ConcatAll(ts).columns ==>
      RowPlaced(ts, ConcatAll(ts), i, j, c)
  {
    forall i: nat, j: nat, c | i < |ts| && j < |ts[i].rows| && c in ConcatAll(ts).columns
      ensures RowPlaced(ts, ConcatAll(ts), i, j, c)
    {
      ConcatAllRow(ts, i, j, c);
    }
  }

  /** Tables that all have the columns `cols` concatenate to a table with exactly those columns. */
  lemma {:induction false} ConcatSameColumns(ts: seq<Table>, cols: seq<string>)
    requires |ts| > 0 && forall i :: 0 <= i < |ts| ==> ts[i].columns == cols
    ensures ConcatAll(ts).columns == cols
    decreases |ts|
  {
    var init := ts[..|ts| - 1];
    var acc := AllColumns(init);
    assert ConcatAll(ts).columns == acc + Filter(cols, c => c !in acc);
    if |ts| == 1 {
      FilterAll(cols, c => c !in acc);
    } else {
      assert forall i :: 0 <= i < |init| ==> init[i].columns == cols by {
        forall i | 0 <= i < |init|
          ensures init[i].columns == cols
        {
          assert init[i] == ts[i];
        }
      }
      ConcatSameColumns(init, cols);
      FilterNone(cols, c => c !in acc);
    }
  }

  /**
   * A DataFrame object shared between a caller and the function it calls: what the function
   * changes in place (`inplace=True`, `df[col] = …`) the caller sees afterwards.
   */
  class Frame {
    var table: Table

    constructor (t: Table)
      ensures table == t
    {
      table := t;
    }

    /** `df.dropna(subset=[col], inplace=True)`; on KeyError the frame is left as it was. */
    method DropMissingInPlace(col: string) returns (e: Option<Error>)
      modifies this
      ensures e.Some? <==> col !in old(table).columns
      ensures e.Some? ==> e.value == KeyError(col) && table == old(table)
      ensures e.None? ==> DropMissing(old(table), col) == Ok(table)
    {
      match DropMissing(table, col)
      case Err(err) =>
        e := Some(err);
      case Ok(t) =>
        table := t;
        e := None;
    }

    /** `df[col] = v` for a single value. */
    method Assign(col: string, v: Cell)
      modifies this
      ensures table == SetColumn(old(table), col, v)
    {
      table := SetColumn(table, col, v);
    }

    /** `df[col] = values` with one value per row. */
    method AssignValues(col: string, vs: seq<Cell>)
      requires |vs| == |table.rows|
      modifies this
      ensures table == SetValues(old(table), col, vs)
    {
      table := SetValues(table, col, vs);
    }

    /** `df[col] = df[col].apply(f)`; on KeyError the frame is left as it was. */
    method MapColumnInPlace(col: string, f: string -> string) returns (e: Option<Error>)
      modifies this
      ensures e.Some? <==> col !in old(table).columns
      ensures e.Some? ==> e.value == KeyError(col) && table == old(table)
      ensures e.None? ==> table == MapColumn(old(table), col, f)
    {
      if col !in table.columns {
        e := Some(KeyError(col));
      } else {
        table := MapColumn(table, col, f);
        e := None;
      }
    }

    /** `df[col] = df[col].astype(int)`; on an error the frame is left as it was. */
    method CastToIntInPlace(col: string) returns (e: Option<Error>)
      modifies this
      ensures e.Some? <==> CastToInt(old(table), col).Err?
      ensures e.Some? ==> CastToInt(old(table), col) == Err(e.value) && table == old(table)
      ensures e.None? ==> CastToInt(old(table), col) == Ok(table)
    {
      match CastToInt(table, col)
      case Err(err) =>
        e := Some(err);
      case Ok(t) =>
        table := t;
        e := None;
    }

    /** `df[col] = df[col].astype(str)`; on KeyError the frame is left as it was. */
    method CastToStrInPlace(col: string) returns (e: Option<Error>)
      modifies this
      ensures e.Some? <==> col !in old(table).columns
      ensures e.Some? ==> e.value == KeyError(col) && table == old(table)
      ensures e.None? ==> CastToStr(old(table), col) == Ok(table)
    {
      match CastToStr(table, col)
      case Err(err) =>
        e := Some(err);
      case Ok(t) =>
        table := t;
        e := None;
    }
  }
}
