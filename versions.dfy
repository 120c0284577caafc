/**
 * The version of the local lists (`recup_my_version` in GetVersions.py): the smallest VERSION
 * found over the nine taxon lists, where a list whose file is missing, or that has no VERSION
 * column, counts as -1.
 */
module LocalVersion {
  import opened Wrappers
  import opened Tables
  import opened Folds
  import opened GeoPackages

  /** The titles whose lists are looked at, in the order they are read. */
  const TITLES: seq<string> :=
    ["Flore", "Amphibiens", "Reptiles", "Oiseaux", "Mammifères", "Lépidoptères", "Odonates", "Coléoptères", "Orthoptères"]

  const VERSION := "VERSION"

  /** The sentinel for a list that is missing or carries no version. */
  const MISSING := -1

  /**
   * `np.min(df[col].values)` over integer cells: ValueError on an empty column, and TypeError
   * when a cell is not an integer.
   */
  function ColumnMin(rows: seq<Row>, col: string): (r: Result<int, Error>)
    ensures r.Ok? <==> |rows| > 0 && forall i :: 0 <= i < |rows| ==> Get(rows[i], col).Int?
    ensures rows == [] ==> r.Err? && r.error.ValueError?
    ensures r.Err? ==> r.error.ValueError? || r.error.TypeError?
    ensures r.Ok? ==> forall i :: 0 <= i < |rows| ==> r.value <= Get(rows[i], col).n
    ensures r.Ok? ==> exists i :: 0 <= i < |rows| && r.value == Get(rows[i], col).n
    decreases |rows|
  {
    if rows == [] then Err(ValueError("zero-size array to reduction operation minimum which has no identity"))
    else
      var x := Get(rows[|rows| - 1], col);
      if !x.Int? then Err(TypeError("'<' not supported between the values of " + col))
      else if |rows| == 1 then Ok(x.n)
      else
        var m :- ColumnMin(rows[..|rows| - 1], col);
        Ok(if x.n < m then x.n else m)
  }

  /** `np.min(values)` of a non-empty list of integers. */
  function MinOf(values: seq<int>): (m: int)
    requires |values| > 0
    ensures forall i :: 0 <= i < |values| ==> m <= values[i]
    ensures exists i :: 0 <= i < |values| && m == values[i]
    decreases |values|
  {
    if |values| == 1 then values[0]
    else
      var rest := MinOf(values[1..]);
      if values[0] < rest then values[0] else rest
  }

  /** What one title adds to the list of versions. */
  function Contribution(folder: Folder, title: string): (r: Result<int, Error>)
    ensures FileFor(title) !in folder ==> r == Ok(MISSING)
    ensures FileFor(title) in folder ==> (r.Err? && r.error.IOError? <==> ReadList(folder, title).Err?)
    ensures ReadList(folder, title).Ok? && VERSION !in ReadList(folder, title).value.columns ==> r == Ok(MISSING)
    ensures r.Ok? && ReadList(folder, title).Ok? && VERSION in ReadList(folder, title).value.columns ==>
      var rows := ReadList(folder, title).value.rows;
      && (forall i :: 0 <= i < |rows| ==> Get(rows[i], VERSION).Int? && r.value <= Get(rows[i], VERSION).n)
      && (exists i :: 0 <= i < |rows| && Get(rows[i], VERSION) == Int(r.value))
  {
    if FileFor(title) !in folder then Ok(MISSING)
    else
      var data :- ReadList(folder, title);
      if VERSION in data.columns then ColumnMin(data.rows, VERSION) else Ok(MISSING)
  }

  /** One step of the loop, as a one-element list. */
  function Step(folder: Folder): string -> Result<seq<int>, Error> {
    title => var v :- Contribution(folder, title); Ok([v])
  }

  /** The list `all_versions` the loop builds; the first failing title ends it. */
  function Versions(folder: Folder): Result<seq<int>, Error> {
    ConcatMapResult(TITLES, Step(folder))
  }

  /** The list has one entry per title, and it is built exactly when no title fails. */
  lemma VersionsShape(folder: Folder)
    ensures Versions(folder).Ok? <==> forall i :: 0 <= i < |TITLES| ==> Contribution(folder, TITLES[i]).Ok?
    ensures Versions(folder).Ok? ==> |Versions(folder).value| == |TITLES|
  {
    ConcatMapSingletons(TITLES, Step(folder));
    if Versions(folder).Ok? {
      forall i | 0 <= i < |TITLES|
        ensures Contribution(folder, TITLES[i]).Ok?
      {
        assert Step(folder)(TITLES[i]).Ok?;
      }
    } else if forall i :: 0 <= i < |TITLES| ==> Contribution(folder, TITLES[i]).Ok? {
      forall i | 0 <= i < |TITLES|
        ensures Step(folder)(TITLES[i]).Ok?
      {
      }
      ConcatMapAllOk(TITLES, Step(folder));
    }
  }

  /** The value `recup_my_version` returns. */
  function MyVersion(folder: Folder): (r: Result<int, Error>)
    ensures r.Ok? <==> forall i :: 0 <= i < |TITLES| ==> Contribution(folder, TITLES[i]).Ok?
  {
    VersionsShape(folder);
    var all :- Versions(folder);
    Ok(MinOf(all))
  }

  /** `recup_my_version`: one contribution per title appended in turn, then the minimum. */
  method RecupMyVersion(folder: Folder) returns (r: Result<int, Error>)
    ensures r == MyVersion(folder)
  {
    var all: seq<int> := [];
    for i := 0 to |TITLES|
      invariant ConcatMapResult(TITLES[..i], Step(folder)) == Ok(all)
    {
      ConcatMapSnoc(TITLES, Step(folder), i);
      var v := Contribution(folder, TITLES[i]);
      if v.Err? {
        ConcatMapFail(TITLES, Step(folder), i + 1);
        return Err(v.error);
      }
      all := all + [v.value];
    }
    assert TITLES[..|TITLES|] == TITLES;
    ConcatMapSingletons(TITLES, Step(folder));
    r := Ok(MinOf(all));
  }

  /** The result is at most every title's contribution and equal to one of them. */
  lemma MyVersionIsMinimum(folder: Folder)
    requires MyVersion(folder).Ok?
    ensures forall i :: 0 <= i < |TITLES| ==> MyVersion(folder).value <= Contribution(folder, TITLES[i]).value
    ensures exists i :: 0 <= i < |TITLES| && MyVersion(folder).value == Contribution(folder, TITLES[i]).value
  {
    ConcatMapSingletons(TITLES, Step(folder));
    var all := Versions(folder).value;
    var m := MinOf(all);
    forall i | 0 <= i < |TITLES|
      ensures Contribution(folder, TITLES[i]) == Ok(all[i])
    {
      assert Step(folder)(TITLES[i]) == Ok([all[i]]);
    }
    var k :| 0 <= k < |all| && m == all[k];
    assert m == Contribution(folder, TITLES[k]).value;
  }

  /** The eight fauna lists share Faune.gpkg: without it the version is at most -1, whatever Flore.gpkg holds. */
  lemma MissingFauneForcesMissing(folder: Folder)
    requires "Faune.gpkg" !in folder && MyVersion(folder).Ok?
    ensures MyVersion(folder).value <= MISSING
  {
    MyVersionIsMinimum(folder);
    assert FileFor(TITLES[1]) == "Faune.gpkg";
  }

  /** An empty folder gives exactly the sentinel. */
  lemma EmptyFolderIsMissing()
    ensures MyVersion(map[]) == Ok(MISSING)
  {
    var folder: Folder := map[];
    assert forall i :: 0 <= i < |TITLES| ==> Contribution(folder, TITLES[i]) == Ok(MISSING);
    MyVersionIsMinimum(folder);
  }
}
