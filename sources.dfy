/**
 * The check for new TAXREF sources (UpdateSearchStatus.py): the bibliography of the current and
 * the previous year, cut down to the citations that announce a list of statuses, compared by id
 * with the sources saved in the "Source" layer of Autre.gpkg.
 */
module SourceCheck {
  import opened Wrappers
  import opened Seqs
  import opened Strings
  import opened Tables

  /** The words that mark a citation as a status list. */
  const DISCRIMINANTS: seq<string> :=
    ["Liste Rouge", "Arrêté", "Directive", "Plan national", "Règlement d'exécution", "ZNIEFF", "ZNIEFFS"]

  const ID := "id"
  const CITATION := "fullCitation"

  /** `any(d.lower() in s.lower() for d in ds)`, with the case folding `lower` left abstract. */
  function MentionsAny(s: string, ds: seq<string>, lower: string -> string): (b: bool)
    ensures b <==> exists i :: 0 <= i < |ds| && Contains(lower(s), lower(ds[i]))
    decreases |ds|
  {
    if ds == [] then false
    else Contains(lower(s), lower(ds[0])) || MentionsAny(s, ds[1..], lower)
  }

  /** The filter applied to every citation: text that mentions a discriminant; a missing value never passes. */
  predicate Relevant(x: Cell, lower: string -> string) {
    x.Str? && MentionsAny(x.s, DISCRIMINANTS, lower)
  }

  predicate RelevantRow(row: Row, lower: string -> string) {
    Relevant(Get(row, CITATION), lower)
  }

  /**
   * The table logic of `GetSourcesFromYear`: the rows of the normalised bibliography whose
   * citation is relevant, in their order; KeyError when there is no citation column at all,
   * which is what an empty bibliography gives.
   */
  function RelevantSources(t: Table, lower: string -> string): (r: Result<Table, Error>)
    ensures r.Err? <==> CITATION !in t.columns
    ensures r.Err? ==> r.error == KeyError(CITATION)
    ensures r.Ok? ==> r.value.columns == t.columns && IsSubseq(r.value.rows, t.rows)
    ensures r.Ok? ==> forall row :: row in r.value.rows <==> row in t.rows && RelevantRow(row, lower)
    ensures r.Ok? && WellFormed(t) ==> WellFormed(r.value)
  {
    if CITATION !in t.columns then Err(KeyError(CITATION))
    else
      var p := (row: Row) => RelevantRow(row, lower);
      FilterIsSubseq(t.rows, p);
      Ok(Table(t.columns, Filter(t.rows, p)))
  }

  /** A needle that occurs in a string keeps occurring once its tail is cut off. */
  lemma ContainsPrefix(s: string, u: string, v: string)
    requires Contains(s, u + v)
    ensures Contains(s, u)
  {
    ContainsOccurs(s, u + v);
    var i :| OccursAt(s, u + v, i);
    assert s[i..i + |u|] == (u + v)[..|u|];
    assert OccursAt(s, u, i);
    ContainsOccurs(s, u);
  }

  /**
   * "ZNIEFFS" never changes the verdict: a citation that contains it also contains "ZNIEFF",
   * for any case folding that works character by character.
   */
  lemma LastDiscriminantRedundant(s: string, lower: string -> string)
    requires forall a, b :: lower(a + b) == lower(a) + lower(b)
    ensures MentionsAny(s, DISCRIMINANTS, lower) == MentionsAny(s, DISCRIMINANTS[..6], lower)
  {
    assert DISCRIMINANTS[6] == DISCRIMINANTS[5] + "S";
    if Contains(lower(s), lower(DISCRIMINANTS[6])) {
      ContainsPrefix(lower(s), lower(DISCRIMINANTS[5]), lower("S"));
      assert DISCRIMINANTS[..6][5] == DISCRIMINANTS[5];
    }
    assert forall i :: 0 <= i < 6 ==> DISCRIMINANTS[..6][i] == DISCRIMINANTS[i];
  }

  /** A row of `pd.concat([a, b])` whose two tables hold only relevant citations is itself relevant. */
  lemma ConcatRelevant(a: Table, b: Table, k: nat, lower: string -> string)
    requires CITATION in a.columns && CITATION in b.columns && k < |a.rows| + |b.rows|
    requires forall row :: row in a.rows ==> RelevantRow(row, lower)
    requires forall row :: row in b.rows ==> RelevantRow(row, lower)
    ensures k < |ConcatAll([a, b]).rows| && RelevantRow(ConcatAll([a, b]).rows[k], lower)
  {
    var ts := [a, b];
    assert ts[..0] == [] && ts[..1] == [a] && [a][..0] == [] && ts[..2] == ts;
    assert TotalRows(ts[..1]) == |a.rows|;
    assert InSomeColumns(ts, CITATION) by {
      assert CITATION in ts[0].columns;
    }
    if k < |a.rows| {
      ConcatAllRow(ts, 0, k, CITATION);
      assert a.rows[k] in a.rows;
    } else {
      ConcatAllRow(ts, 1, k - |a.rows|, CITATION);
      assert b.rows[k - |a.rows|] in b.rows;
    }
  }

  /** `pd.concat([a, b])` of two citation tables: the citation column, an id column when either has one, relevant rows only. */
  lemma ConcatSources(a: Table, b: Table, lower: string -> string)
    requires CITATION in a.columns && CITATION in b.columns
    requires forall row :: row in a.rows ==> RelevantRow(row, lower)
    requires forall row :: row in b.rows ==> RelevantRow(row, lower)
    ensures CITATION in ConcatAll([a, b]).columns
    ensures ID in ConcatAll([a, b]).columns <==> ID in a.columns || ID in b.columns
    ensures forall i :: 0 <= i < |ConcatAll([a, b]).rows| ==> RelevantRow(ConcatAll([a, b]).rows[i], lower)
  {
    var ts := [a, b];
    assert InSomeColumns(ts, CITATION) by {
      assert CITATION in ts[0].columns;
    }
    if ID in b.columns {
      assert ID in ts[1].columns;
    }
    if ID in a.columns {
      assert ID in ts[0].columns;
    }
    forall i | 0 <= i < |ConcatAll(ts).rows|
      ensures RelevantRow(ConcatAll(ts).rows[i], lower)
    {
      ConcatTwo(a, b);
      ConcatRelevant(a, b, i, lower);
    }
  }

  /** The sources published in the current year followed by those of the previous year, each list filtered. */
  function CurrentSources(thisYear: Table, lastYear: Table, lower: string -> string): (r: Result<Table, Error>)
    ensures r.Ok? <==> CITATION in thisYear.columns && CITATION in lastYear.columns
    ensures r.Err? ==> r.error == KeyError(CITATION)
    ensures r.Ok? ==> CITATION in r.value.columns
    ensures r.Ok? ==> (ID in r.value.columns <==> ID in thisYear.columns || ID in lastYear.columns)
    ensures r.Ok? ==> |r.value.rows| == |RelevantSources(thisYear, lower).value.rows| + |RelevantSources(lastYear, lower).value.rows|
    ensures r.Ok? ==> forall i :: 0 <= i < |r.value.rows| ==> RelevantRow(r.value.rows[i], lower)
    ensures r.Ok? ==> RowsPlacedAt(r.value, 0, RelevantSources(thisYear, lower).value)
    ensures r.Ok? ==> RowsPlacedAt(r.value, |RelevantSources(thisYear, lower).value.rows|, RelevantSources(lastYear, lower).value)
  {
    var recent :- RelevantSources(thisYear, lower);
    var older :- RelevantSources(lastYear, lower);
    ConcatTwo(recent, older);
    ConcatSources(recent, older, lower);
    Ok(ConcatAll([recent, older]))
  }

  /** `str(row["id"])`, the form in which ids are compared. */
  function IdText(row: Row): string {
    CellToStr(Get(row, ID))
  }

  /** The ids of a table's rows as strings, in row order. */
  function Ids(t: Table): (ids: seq<string>)
    ensures forall s :: s in ids <==> exists j :: 0 <= j < |t.rows| && IdText(t.rows[j]) == s
  {
    Map(t.rows, IdText)
  }

  /** A row is new when its id is not among the known ones. */
  predicate Unknown(row: Row, mine: Table) {
    IdText(row) !in Ids(mine)
  }

  /** `CheckNewSources`: the current rows whose id, as a string, is not among the saved ids, in order. */
  function CheckNewSources(mine: Table, current: Table): (r: Result<Table, Error>)
    ensures r.Err? <==> ID !in current.columns || ID !in mine.columns
    ensures r.Err? ==> r.error == KeyError(ID)
    ensures r.Ok? ==> r.value.columns == current.columns && IsSubseq(r.value.rows, current.rows)
    ensures r.Ok? ==> forall row :: row in r.value.rows <==> row in current.rows && Unknown(row, mine)
    ensures r.Ok? && WellFormed(current) ==> WellFormed(r.value)
  {
    if ID !in current.columns || ID !in mine.columns then Err(KeyError(ID))
    else
      var p := (row: Row) => Unknown(row, mine);
      FilterIsSubseq(current.rows, p);
      Ok(Table(current.columns, Filter(current.rows, p)))
  }

  /** With nothing saved yet, every current source is new. */
  lemma NothingSavedAllNew(mine: Table, current: Table)
    requires ID in current.columns && ID in mine.columns && mine.rows == []
    ensures CheckNewSources(mine, current) == Ok(current)
  {
    FilterAll(current.rows, (row: Row) => Unknown(row, mine));
  }

  /** When every current id is already saved, nothing is new. */
  lemma AllSavedNoneNew(mine: Table, current: Table)
    requires ID in current.columns && ID in mine.columns
    requires forall i :: 0 <= i < |current.rows| ==> IdText(current.rows[i]) in Ids(mine)
    ensures CheckNewSources(mine, current) == Ok(Table(current.columns, []))
  {
    FilterNone(current.rows, (row: Row) => Unknown(row, mine));
  }

  /** The saved sources: the "Source" layer of Autre.gpkg, or an empty [id, fullCitation] table when the file or the layer is missing. */
  function MySources(autre: Option<map<string, Table>>): (t: Table)
    ensures autre.None? || "Source" !in autre.value ==> t == Table([ID, CITATION], [])
    ensures ID in t.columns <==> autre.None? || "Source" !in autre.value || ID in autre.value["Source"].columns
  {
    if autre.Some? && "Source" in autre.value then autre.value["Source"] else Table([ID, CITATION], [])
  }

  /**
   * The selection of `newSources`: the current rows whose id is among the absent ones, as [id, fullCitation].
   * Reading `ids_absents["id"]` fails on an absent-rows table without ids; the absent rows that
   * `CheckNewSources` returns keep the current table's columns, so in `CheckUpdateStatus` only the
   * current table's own id column can be missing.
   */
  function SelectNew(current: Table, absent: Table): (r: Result<Table, Error>)
    ensures r.Ok? <==> ID in current.columns && ID in absent.columns && CITATION in current.columns
    ensures r.Ok? ==> r.value.columns == [ID, CITATION]
  {
    if ID !in current.columns || ID !in absent.columns then Err(KeyError(ID))
    else
      assert [ID, CITATION][0] == ID && [ID, CITATION][1] == CITATION;
      Select(Table(current.columns, Filter(current.rows, (row: Row) => IdText(row) in Ids(absent))), [ID, CITATION])
  }

  /**
   * `CheckUpdateStatus`, given the layers of Autre.gpkg (None when the file is missing) and the
   * bibliographies of the current and the previous year as the API returns them.
   */
  function CheckUpdateStatus(autre: Option<map<string, Table>>, thisYear: Table, lastYear: Table,
                             lower: string -> string): (r: Result<Table, Error>)
    ensures r.Ok? <==>
      && CITATION in thisYear.columns && CITATION in lastYear.columns
      && (ID in thisYear.columns || ID in lastYear.columns)
      && ID in MySources(autre).columns
    ensures r.Err? ==> r.error == KeyError(CITATION) || r.error == KeyError(ID)
    ensures r.Ok? ==> r.value.columns == [ID, CITATION]
  {
    var mine := MySources(autre);
    var current :- CurrentSources(thisYear, lastYear, lower);
    var absent :- CheckNewSources(mine, current);
    SelectNew(current, absent)
  }

  /** Selecting by the absent ids picks exactly the current rows that are unknown. */
  lemma AbsentIdsAreUnknown(mine: Table, current: Table)
    requires CheckNewSources(mine, current).Ok?
    ensures var absent := CheckNewSources(mine, current).value;
      Filter(current.rows, (row: Row) => IdText(row) in Ids(absent)) == Filter(current.rows, (row: Row) => Unknown(row, mine))
  {
    var absent := CheckNewSources(mine, current).value;
    forall x | x in current.rows
      ensures (IdText(x) in Ids(absent)) == Unknown(x, mine)
    {
      if Unknown(x, mine) {
        var j :| 0 <= j < |absent.rows| && absent.rows[j] == x;
        assert Ids(absent)[j] == IdText(x);
      }
      if IdText(x) in Ids(absent) {
        var j :| 0 <= j < |absent.rows| && IdText(absent.rows[j]) == IdText(x);
        assert absent.rows[j] in absent.rows;
      }
    }
    FilterExt(current.rows, (row: Row) => IdText(row) in Ids(absent), (row: Row) => Unknown(row, mine));
  }

  /**
   * The sources reported as new are exactly the current ones (this year's, then last year's)
   * whose id is not saved, in that order, cut down to [id, fullCitation].
   */
  lemma NewSourcesAreUnsaved(autre: Option<map<string, Table>>, thisYear: Table, lastYear: Table, lower: string -> string)
    requires CheckUpdateStatus(autre, thisYear, lastYear, lower).Ok?
    ensures var current := CurrentSources(thisYear, lastYear, lower).value;
      CheckUpdateStatus(autre, thisYear, lastYear, lower).value ==
        Table([ID, CITATION], RestrictRows(Filter(current.rows, (row: Row) => Unknown(row, MySources(autre))), [ID, CITATION]))
  {
    var current := CurrentSources(thisYear, lastYear, lower).value;
    AbsentIdsAreUnknown(MySources(autre), current);
  }

  /** Without a saved "Source" layer, every relevant source of the two years is reported. */
  lemma FirstCheckReportsAll(autre: Option<map<string, Table>>, thisYear: Table, lastYear: Table, lower: string -> string)
    requires autre.None? || "Source" !in autre.value
    requires CheckUpdateStatus(autre, thisYear, lastYear, lower).Ok?
    ensures var current := CurrentSources(thisYear, lastYear, lower).value;
      CheckUpdateStatus(autre, thisYear, lastYear, lower).value == Table([ID, CITATION], RestrictRows(current.rows, [ID, CITATION]))
  {
    var current := CurrentSources(thisYear, lastYear, lower).value;
    NewSourcesAreUnsaved(autre, thisYear, lastYear, lower);
    FilterAll(current.rows, (row: Row) => Unknown(row, MySources(autre)));
  }
}
