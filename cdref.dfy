/**
 * The first filter applied to a page of statuses (`filter_by_cd_ref` in UpdateStatus.py): only
 * statuses attached to an accepted name are kept, they are split by taxon list according to the
 * CD_REF values of each list, and statuses of the overseas departments are dropped.
 */
module ReferenceFilter {
  import opened Wrappers
  import opened Seqs
  import opened Tables
  import opened GeoPackages

  const DOMTOM: seq<string> := ["Guadeloupe", "Guyane", "Martinique", "Réunion", "Mayotte"]

  const REF_ID := "taxon_referenceId"
  const TAXON_ID := "taxon_id"
  const LOCATION := "locationName"
  const CD_REF := "CD_REF"

  /** `df[col].astype(int)` as a list: KeyError when the column is absent, ValueError when a cell is no integer. */
  function IntColumn(t: Table, col: string): (r: Result<seq<int>, Error>)
    ensures r.Ok? <==> col in t.columns && forall i :: 0 <= i < |t.rows| ==> CellToInt(Get(t.rows[i], col)).Ok?
    ensures col !in t.columns ==> r == Err(KeyError(col))
    ensures col in t.columns && r.Err? ==> r.error.ValueError?
    ensures r.Ok? ==> |r.value| == |t.rows|
    ensures r.Ok? ==> forall i :: 0 <= i < |t.rows| ==> CellToInt(Get(t.rows[i], col)) == Ok(r.value[i])
  {
    if col !in t.columns then Err(KeyError(col))
    else
      var cast :- CastRowsToInt(t.rows, col);
      Ok(seq(|t.rows|, i requires 0 <= i < |t.rows| => CellToInt(Get(t.rows[i], col)).value))
  }

  /** The status is attached to the accepted name: reference id and taxon id are the same integer. */
  predicate OfAcceptedName(row: Row) {
    CellToInt(Get(row, REF_ID)).Ok? && CellToInt(Get(row, REF_ID)) == CellToInt(Get(row, TAXON_ID))
  }

  /** The taxon's reference id is one of the list's CD_REF values. */
  predicate Listed(row: Row, listed: seq<int>) {
    CellToInt(Get(row, REF_ID)).Ok? && CellToInt(Get(row, REF_ID)).value in listed
  }

  /** The status applies to an overseas department. */
  predicate Overseas(row: Row) {
    Get(row, LOCATION).Str? && Get(row, LOCATION).s in DOMTOM
  }

  /** `df[df[REF_ID].astype(int) == df[TAXON_ID].astype(int)]`: the statuses of accepted names, in order. */
  function AcceptedOnly(df: Table): (r: Result<Table, Error>)
    ensures r.Ok? <==> IntColumn(df, REF_ID).Ok? && IntColumn(df, TAXON_ID).Ok?
    ensures r.Err? ==> r.error.KeyError? || r.error.ValueError?
    ensures r.Ok? ==> r.value.columns == df.columns && IsSubseq(r.value.rows, df.rows)
    ensures r.Ok? ==> forall row :: row in r.value.rows <==> row in df.rows && OfAcceptedName(row)
    ensures r.Ok? && WellFormed(df) ==> WellFormed(r.value)
  {
    var refs :- IntColumn(df, REF_ID);
    var ids :- IntColumn(df, TAXON_ID);
    FilterIsSubseq(df.rows, OfAcceptedName);
    Ok(Table(df.columns, Filter(df.rows, OfAcceptedName)))
  }

  /**
   * The statuses of one taxon list: the rows whose reference id is among the list's CD_REF values,
   * then those outside the overseas departments, in order.
   */
  function ForList(df: Table, ref: Table): (r: Result<Table, Error>)
    ensures r.Ok? <==> IntColumn(df, REF_ID).Ok? && IntColumn(ref, CD_REF).Ok? && LOCATION in df.columns
    ensures r.Err? ==> r.error.KeyError? || r.error.ValueError?
    ensures r.Ok? ==> r.value.columns == df.columns
    ensures r.Ok? ==> r.value.rows == Filter(df.rows, (row: Row) => Listed(row, IntColumn(ref, CD_REF).value) && !Overseas(row))
    ensures r.Ok? && WellFormed(df) ==> WellFormed(r.value)
  {
    var refs :- IntColumn(df, REF_ID);
    var listed :- IntColumn(ref, CD_REF);
    if LOCATION !in df.columns then Err(KeyError(LOCATION))
    else
      var out := Filter(df.rows, (row: Row) => Listed(row, listed));
      FilterFilter(df.rows, (row: Row) => Listed(row, listed), (row: Row) => !Overseas(row),
        (row: Row) => Listed(row, listed) && !Overseas(row));
      Ok(Table(df.columns, Filter(out, (row: Row) => !Overseas(row))))
  }

  /** The first loop of `filter_by_cd_ref`: the list of every title, read once. */
  method ReadLists(titles: seq<string>, folder: Folder) returns (r: Result<map<string, Table>, Error>)
    ensures r.Ok? <==> forall i :: 0 <= i < |titles| ==> ReadList(folder, titles[i]).Ok?
    ensures r.Ok? ==> forall t :: t in r.value <==> t in titles
    ensures r.Ok? ==> forall t :: t in r.value ==> ReadList(folder, t) == Ok(r.value[t])
  {
    var refs: map<string, Table> := map[];
    for i := 0 to |titles|
      invariant forall t :: t in refs <==> t in titles[..i]
      invariant forall t :: t in refs ==> ReadList(folder, t) == Ok(refs[t])
    {
      var ref :- ReadList(folder, titles[i]);
      refs := refs[titles[i] := ref];
    }
    assert titles[..|titles|] == titles;
    r := Ok(refs);
  }

  /** The second loop of `filter_by_cd_ref`: `select` applied to the list of every title. */
  method FilterLists(titles: seq<string>, refs: map<string, Table>, select: Table -> Result<Table, Error>)
    returns (r: Result<map<string, Table>, Error>)
    requires forall t :: t in titles ==> t in refs
    ensures r.Ok? <==> forall i :: 0 <= i < |titles| ==> select(refs[titles[i]]).Ok?
    ensures r.Ok? ==> forall t :: t in r.value <==> t in titles
    ensures r.Ok? ==> forall t :: t in r.value ==> select(refs[t]) == Ok(r.value[t])
  {
    var out: map<string, Table> := map[];
    for i := 0 to |titles|
      invariant forall t :: t in out <==> t in titles[..i]
      invariant forall t :: t in out ==> select(refs[t]) == Ok(out[t])
    {
      var kept :- select(refs[titles[i]]);
      out := out[titles[i] := kept];
    }
    assert titles[..|titles|] == titles;
    r := Ok(out);
  }

  /**
   * `filter_by_cd_ref`: the statuses of accepted names, then the lists of all titles, then each
   * title's statuses; the first failure ends it.
   */
  method FilterByCdRef(df: Table, titles: seq<string>, folder: Folder) returns (r: Result<map<string, Table>, Error>)
    ensures r.Ok? <==>
      && AcceptedOnly(df).Ok?
      && forall i :: 0 <= i < |titles| ==>
        ReadList(folder, titles[i]).Ok? && ForList(AcceptedOnly(df).value, ReadList(folder, titles[i]).value).Ok?
    ensures AcceptedOnly(df).Err? ==> r == Err(AcceptedOnly(df).error)
    ensures r.Ok? ==> forall t :: t in r.value <==> t in titles
    ensures r.Ok? ==> forall t :: t in r.value ==>
      ReadList(folder, t).Ok? && ForList(AcceptedOnly(df).value, ReadList(folder, t).value) == Ok(r.value[t])
  {
    var accepted :- AcceptedOnly(df);
    var refs :- ReadLists(titles, folder);
    r := FilterLists(titles, refs, ref => ForList(accepted, ref));
  }

  /**
   * A status kept for a list satisfies all three conditions, and every status of the page that
   * satisfies them is kept, in the page's order.
   */
  lemma KeptIffAllThree(df: Table, ref: Table)
    requires AcceptedOnly(df).Ok? && ForList(AcceptedOnly(df).value, ref).Ok?
    ensures var listed := IntColumn(ref, CD_REF).value;
      ForList(AcceptedOnly(df).value, ref).value.rows ==
        Filter(df.rows, (row: Row) => OfAcceptedName(row) && Listed(row, listed) && !Overseas(row))
  {
    var listed := IntColumn(ref, CD_REF).value;
    FilterFilter(df.rows, OfAcceptedName, (row: Row) => Listed(row, listed) && !Overseas(row),
      (row: Row) => OfAcceptedName(row) && Listed(row, listed) && !Overseas(row));
  }
}
