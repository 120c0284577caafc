/**
 * The TAXREF reference list: the download link of a version, and the row filter, column cleanup
 * and vernacular-name cleanup applied to the list before it is saved as layers.
 */
module TaxRef {
  import opened Wrappers
  import opened Seqs
  import opened Strings
  import opened Numbers
  import opened Tables
  import opened TaxonGroups
  import opened CellOrder

  const DOWNLOAD_PREFIX := "https://inpn.mnhn.fr/docs-web/docs/download/"

  /**
   * `get_download_url(version)`, with the list of published versions passed in as the archive code
   * of each entry, version 1 first. Below version 1, and past the end of the list, ValueError.
   */
  function GetDownloadUrl(version: int, archives: seq<int>): (r: Result<string, Error>)
    ensures r.Ok? <==> 1 <= version <= |archives|
    ensures r.Err? ==> r.error.ValueError?
    ensures r.Ok? ==> StartsWith(r.value, DOWNLOAD_PREFIX)
  {
    if version < 1 then
      Err(ValueError("La version minimum de TAXREF est la 1.0, version demandée : " + ShowInt(version)))
    else if version - 1 >= |archives| then
      Err(ValueError("Version " + ShowInt(version) + " non trouvée dans la liste des versions disponibles."))
    else
      Ok(DOWNLOAD_PREFIX + ShowInt(archives[version - 1]))
  }

  /** The archive code a download link ends with, or None for a string that is not such a link. */
  function ArchiveOf(url: string): Option<int> {
    if StartsWith(url, DOWNLOAD_PREFIX) then ParseInt(url[|DOWNLOAD_PREFIX|..]) else None
  }

  /** The link of version `v` names exactly the archive code of the `v`-th entry. */
  lemma DownloadUrlNamesArchive(version: int, archives: seq<int>)
    requires 1 <= version <= |archives|
    ensures ArchiveOf(GetDownloadUrl(version, archives).value) == Some(archives[version - 1])
  {
    var code := ShowInt(archives[version - 1]);
    assert (DOWNLOAD_PREFIX + code)[|DOWNLOAD_PREFIX|..] == code;
    ParseShow(archives[version - 1]);
  }

  /** Two versions get the same link exactly when their entries carry the same archive code. */
  lemma DownloadUrlsDiffer(v1: int, v2: int, archives: seq<int>)
    requires 1 <= v1 <= |archives| && 1 <= v2 <= |archives|
    ensures GetDownloadUrl(v1, archives) == GetDownloadUrl(v2, archives) <==> archives[v1 - 1] == archives[v2 - 1]
  {
    if GetDownloadUrl(v1, archives) == GetDownloadUrl(v2, archives) {
      DownloadUrlNamesArchive(v1, archives);
      DownloadUrlNamesArchive(v2, archives);
    }
  }

  /**
   * The rows `tri_lignes` keeps. Unlike `filtre_df`, the optional levels are nested: group 3 is
   * checked only when group 2 is given, and the family only when group 3 is. With `synonyme` the validity
   * test compares CD_REF with itself, which a missing CD_REF fails.
   */
  predicate TriKeeps(r: Row, regne: string, groupe1: seq<string>, groupe2: seq<string>,
                     groupe3: seq<string>, famille: seq<string>, synonyme: bool)
  {
    && Get(r, "REGNE") == Str(regne)
    && InList(r, "GROUP1_INPN", groupe1)
    && (groupe2 == [""] ||
        (InList(r, "GROUP2_INPN", groupe2) &&
         (groupe3 == [""] ||
          (InList(r, "GROUP3_INPN", groupe3) && (famille == [""] || InList(r, "FAMILLE", famille))))))
    && InList(r, "FR", FR_CODES)
    && (if synonyme then SameCell(r, "CD_REF", "CD_REF") else SameCell(r, "CD_NOM", "CD_REF"))
  }

  /** The optional group columns `tri_lignes` reads. */
  function NestedColumns(groupe2: seq<string>, groupe3: seq<string>, famille: seq<string>): seq<string> {
    if groupe2 == [""] then []
    else if groupe3 == [""] then ["GROUP2_INPN"]
    else if famille == [""] then ["GROUP2_INPN", "GROUP3_INPN"]
    else ["GROUP2_INPN", "GROUP3_INPN", "FAMILLE"]
  }

  /** The columns `tri_lignes` reads, in the order it reads them. */
  function TriColumns(groupe2: seq<string>, groupe3: seq<string>, famille: seq<string>, synonyme: bool): seq<string> {
    ["REGNE", "GROUP1_INPN"] + NestedColumns(groupe2, groupe3, famille) + ["FR"]
    + (if synonyme then ["CD_REF", "CD_REF"] else ["CD_NOM", "CD_REF"])
  }

  /** The group masks `tri_lignes` builds. */
  function GroupMasks(groupe1: seq<string>, groupe2: seq<string>, groupe3: seq<string>, famille: seq<string>): seq<Mask> {
    [ColIn("GROUP1_INPN", groupe1)]
    + (if groupe2 == [""] then []
       else
         [ColIn("GROUP2_INPN", groupe2)]
         + (if groupe3 == [""] then []
            else [ColIn("GROUP3_INPN", groupe3)] + (if famille == [""] then [] else [ColIn("FAMILLE", famille)])))
  }

  /** The validity mask of `tri_lignes`. */
  function ValidMask(synonyme: bool): Mask {
    if synonyme then ColsEqual("CD_REF", "CD_REF") else ColsEqual("CD_NOM", "CD_REF")
  }

  lemma GroupMasksColumns(groupe1: seq<string>, groupe2: seq<string>, groupe3: seq<string>, famille: seq<string>)
    ensures MasksColumns(GroupMasks(groupe1, groupe2, groupe3, famille))
         == ["GROUP1_INPN"] + NestedColumns(groupe2, groupe3, famille)
  {
    var ms := GroupMasks(groupe1, groupe2, groupe3, famille);
    if groupe2 == [""] {
      assert ms[1..] == [];
    } else if groupe3 == [""] {
      assert ms[1..] == [ColIn("GROUP2_INPN", groupe2)];
      assert MasksColumns(ms[1..]) == ["GROUP2_INPN"] by {
        assert ms[1..][1..] == [];
      }
    } else if famille == [""] {
      assert ms[1..][1..] == [ColIn("GROUP3_INPN", groupe3)];
      assert MasksColumns(ms[1..][1..]) == ["GROUP3_INPN"] by {
        assert ms[1..][1..][1..] == [];
      }
    } else {
      assert ms[1..][1..][1..] == [ColIn("FAMILLE", famille)];
      assert MasksColumns(ms[1..][1..][1..]) == ["FAMILLE"] by {
        assert ms[1..][1..][1..][1..] == [];
      }
    }
  }

  lemma GroupMasksHold(groupe1: seq<string>, groupe2: seq<string>, groupe3: seq<string>, famille: seq<string>, r: Row)
    ensures AllHold(GroupMasks(groupe1, groupe2, groupe3, famille), r)
        == (InList(r, "GROUP1_INPN", groupe1) &&
            (groupe2 == [""] ||
             (InList(r, "GROUP2_INPN", groupe2) &&
              (groupe3 == [""] ||
               (InList(r, "GROUP3_INPN", groupe3) && (famille == [""] || InList(r, "FAMILLE", famille)))))))
  {
    var ms := GroupMasks(groupe1, groupe2, groupe3, famille);
    assert ms[0] == ColIn("GROUP1_INPN", groupe1);
    if groupe2 != [""] {
      assert ms[1] == ColIn("GROUP2_INPN", groupe2);
      if groupe3 != [""] {
        assert ms[2] == ColIn("GROUP3_INPN", groupe3);
        if famille != [""] {
          assert ms[3] == ColIn("FAMILLE", famille);
        }
      }
    }
  }

  /** The masks `tri_lignes` combines, in the order it reads their columns. */
  function TriMasks(regne: string, groupe1: seq<string>, groupe2: seq<string>, groupe3: seq<string>,
                    famille: seq<string>, synonyme: bool): seq<Mask>
  {
    [ColEquals("REGNE", regne)] + GroupMasks(groupe1, groupe2, groupe3, famille) + [ColIn("FR", FR_CODES)]
    + [ValidMask(synonyme)]
  }

  lemma TriMasksColumns(regne: string, groupe1: seq<string>, groupe2: seq<string>, groupe3: seq<string>,
                        famille: seq<string>, synonyme: bool)
    ensures MasksColumns(TriMasks(regne, groupe1, groupe2, groupe3, famille, synonyme))
         == TriColumns(groupe2, groupe3, famille, synonyme)
  {
    var a: seq<Mask> := [ColEquals("REGNE", regne)];
    var b := GroupMasks(groupe1, groupe2, groupe3, famille);
    var c: seq<Mask> := [ColIn("FR", FR_CODES)];
    var d: seq<Mask> := [ValidMask(synonyme)];
    GroupMasksColumns(groupe1, groupe2, groupe3, famille);
    MasksColumnsConcat(a, b);
    MasksColumnsConcat(a + b, c);
    MasksColumnsConcat(a + b + c, d);
    MasksColumnsSingle(a[0]);
    MasksColumnsSingle(c[0]);
    MasksColumnsSingle(d[0]);
    var nested := NestedColumns(groupe2, groupe3, famille);
    var valid := if synonyme then ["CD_REF", "CD_REF"] else ["CD_NOM", "CD_REF"];
    assert MaskColumns(ValidMask(synonyme)) == valid;
    assert ["REGNE"] + (["GROUP1_INPN"] + nested) + ["FR"] + valid == ["REGNE", "GROUP1_INPN"] + nested + ["FR"] + valid;
  }

  lemma TriMasksKeeps(regne: string, groupe1: seq<string>, groupe2: seq<string>, groupe3: seq<string>,
                      famille: seq<string>, synonyme: bool, row: Row)
    ensures AllHold(TriMasks(regne, groupe1, groupe2, groupe3, famille, synonyme), row)
         == TriKeeps(row, regne, groupe1, groupe2, groupe3, famille, synonyme)
  {
    var a: seq<Mask> := [ColEquals("REGNE", regne)];
    var b := GroupMasks(groupe1, groupe2, groupe3, famille);
    var c: seq<Mask> := [ColIn("FR", FR_CODES)];
    var d: seq<Mask> := [ValidMask(synonyme)];
    GroupMasksHold(groupe1, groupe2, groupe3, famille, row);
    AllHoldConcat(a, b, row);
    AllHoldConcat(a + b, c, row);
    AllHoldConcat(a + b + c, d, row);
    assert AllHold(a, row) == Holds(a[0], row);
    assert AllHold(c, row) == Holds(c[0], row);
    assert AllHold(d, row) == Holds(d[0], row);
  }

  /** `tri_lignes`: the reference-list rows matching the criteria, in their order; KeyError on a missing column. */
  method TriLignes(df: Table, regne: string, groupe1: seq<string>, groupe2: seq<string>,
                   groupe3: seq<string>, famille: seq<string>, synonyme: bool) returns (r: Result<Table, Error>)
    ensures r.Err? <==> FirstMissing(TriColumns(groupe2, groupe3, famille, synonyme), df.columns).Some?
    ensures r.Err? ==> r.error == KeyError(FirstMissing(TriColumns(groupe2, groupe3, famille, synonyme), df.columns).value)
    ensures r.Ok? ==> r.value.columns == df.columns && IsSubseq(r.value.rows, df.rows)
    ensures r.Ok? ==> r.value.rows == Filter(df.rows, row => TriKeeps(row, regne, groupe1, groupe2, groupe3, famille, synonyme))
  {
    var conditionRegne := [ColEquals("REGNE", regne)];
    var conditionGroupe := [ColIn("GROUP1_INPN", groupe1)];
    if groupe2 != [""] {
      conditionGroupe := conditionGroupe + [ColIn("GROUP2_INPN", groupe2)];
      if groupe3 != [""] {
        conditionGroupe := conditionGroupe + [ColIn("GROUP3_INPN", groupe3)];
        if famille != [""] {
          conditionGroupe := conditionGroupe + [ColIn("FAMILLE", famille)];
        }
      }
    }
    var conditionPresenceFr := [ColIn("FR", FR_CODES)];
    var conditionTaxonValide;
    if !synonyme {
      conditionTaxonValide := ColsEqual("CD_NOM", "CD_REF");
    } else {
      conditionTaxonValide := ColsEqual("CD_REF", "CD_REF");
    }
    var condition := conditionRegne + conditionGroupe + conditionPresenceFr + [conditionTaxonValide];
    assert condition == TriMasks(regne, groupe1, groupe2, groupe3, famille, synonyme);
    TriMasksColumns(regne, groupe1, groupe2, groupe3, famille, synonyme);
    forall row: Row
      ensures AllHold(condition, row) == TriKeeps(row, regne, groupe1, groupe2, groupe3, famille, synonyme)
    {
      TriMasksKeeps(regne, groupe1, groupe2, groupe3, famille, synonyme, row);
    }
    r := ApplyMasks(df, condition);
    if r.Ok? {
      ApplyMasksRows(df, condition, row => TriKeeps(row, regne, groupe1, groupe2, groupe3, famille, synonyme));
    }
  }

  /** A group whose optional levels are only given below levels that are given as well. */
  predicate Nested(g: TaxonGroupe) {
    (g.IsGroupe2Empty() ==> g.IsGroupe3Empty()) && (g.IsGroupe3Empty() ==> g.IsFamilleEmpty())
  }

  /**
   * For a group without an order list and with nested levels, and without synonyms, `tri_lignes`
   * on the group's lists keeps the same rows as `filtre_df`.
   */
  lemma TriMatchesFiltre(g: TaxonGroupe, row: Row)
    requires g.IsOrdreEmpty() && Nested(g)
    ensures TriKeeps(row, g.regne, g.groupe1, g.groupe2, g.groupe3, g.famille, false) == FiltreKeeps(g, row, false)
  {
  }

  /** Every group of the catalogue has nested levels. */
  lemma CatalogueNested()
    ensures forall i :: 0 <= i < |TAXONS| ==> Nested(TAXONS[i])
  {
  }

  /** `tri_lignes` has no order parameter: a bat passes it with the mammal lists but not `filtre_df` for mammals. */
  lemma TriIgnoresOrdre()
    ensures var bat := map["REGNE" := Str("Animalia"), "GROUP1_INPN" := Str("Chordés"),
                           "GROUP2_INPN" := Str("Mammifères"), "ORDRE" := Str("Chiroptera"),
                           "FR" := Str("P"), "CD_NOM" := Int(60295), "CD_REF" := Int(60295)];
      && TriKeeps(bat, MAMMIFERES.regne, MAMMIFERES.groupe1, MAMMIFERES.groupe2, MAMMIFERES.groupe3, MAMMIFERES.famille, false)
      && !FiltreKeeps(MAMMIFERES, bat, false)
  {
  }

  /** With synonyms, a row without CD_REF passes `filtre_df` but not `tri_lignes`. */
  lemma SynonymeMissingRef()
    ensures var row := map["REGNE" := Str("Plantae"), "GROUP1_INPN" := Str("Bryophytes"), "FR" := Str("P")];
      && FiltreKeeps(FLORE, row, true)
      && !TriKeeps(row, FLORE.regne, FLORE.groupe1, FLORE.groupe2, FLORE.groupe3, FLORE.famille, true)
  {
  }

  /** The 38 columns `tri_colonnes` removes. */
  const COLONNES_A_SUPPRIMER: seq<string> := [
    "REGNE", "PHYLUM", "CLASSE", "ORDRE",
    "SOUS_FAMILLE", "TRIBU", "GROUP1_INPN",
    "GROUP2_INPN", "GROUP3_INPN", "CD_TAXSUP",
    "CD_SUP", "CD_BA", "URL_INPN", "RANG",
    "LB_NOM", "LB_AUTEUR", "NOM_COMPLET",
    "NOM_COMPLET_HTML", "NOM_VERN_ENG",
    "HABITAT", "FR", "GF", "MAR", "GUA",
    "SM", "SB", "SPM", "MAY", "EPA", "REU",
    "SA", "TA", "TAAF", "PF", "NC", "WF",
    "CLI", "URL"]

  /**
   * `tri_colonnes`: the fixed columns removed (KeyError if one is missing), then VERSION set to
   * `version` on every row, in place on the new frame.
   */
  method TriColonnes(df: Table, version: int) returns (r: Result<Table, Error>)
    ensures r.Ok? <==> forall i :: 0 <= i < |COLONNES_A_SUPPRIMER| ==> COLONNES_A_SUPPRIMER[i] in df.columns
    ensures r.Err? ==> r.error.KeyError? && r.error.key in COLONNES_A_SUPPRIMER && r.error.key !in df.columns
    ensures r.Ok? ==> forall c :: c in r.value.columns <==> (c in df.columns && c !in COLONNES_A_SUPPRIMER) || c == "VERSION"
    ensures r.Ok? ==> |r.value.rows| == |df.rows|
    ensures r.Ok? ==> forall i :: 0 <= i < |df.rows| ==> Get(r.value.rows[i], "VERSION") == Int(version)
    ensures r.Ok? ==> forall i, c :: 0 <= i < |df.rows| && c in r.value.columns && c != "VERSION" ==>
      Get(r.value.rows[i], c) == Get(df.rows[i], c)
    ensures r.Ok? && WellFormed(df) ==> WellFormed(r.value)
  {
    match Drop(df, COLONNES_A_SUPPRIMER)
    case Err(e) =>
      r := Err(e);
    case Ok(dropped) =>
      var frame := new Frame(dropped);
      frame.Assign("VERSION", Int(version));
      var t := frame.table;
      assert t == SetColumn(dropped, "VERSION", Int(version));
      VersionedTable(df, dropped, version);
      r := Ok(t);
  }

  /** What dropping the columns and then stamping the version leaves in each row. */
  lemma VersionedTable(df: Table, dropped: Table, version: int)
    requires Drop(df, COLONNES_A_SUPPRIMER) == Ok(dropped)
    ensures var t := SetColumn(dropped, "VERSION", Int(version));
      && (forall c :: c in t.columns <==> (c in df.columns && c !in COLONNES_A_SUPPRIMER) || c == "VERSION")
      && |t.rows| == |df.rows|
      && (forall i, c :: 0 <= i < |df.rows| && c in t.columns && c != "VERSION" ==>
            Get(t.rows[i], c) == Get(df.rows[i], c))
      && (WellFormed(df) ==> WellFormed(t))
  {
    var t := SetColumn(dropped, "VERSION", Int(version));
    forall i, c | 0 <= i < |df.rows| && c in t.columns && c != "VERSION"
      ensures Get(t.rows[i], c) == Get(df.rows[i], c)
    {
      assert c in dropped.columns;
      assert AgreesOn(dropped.rows[i], df.rows[i], dropped.columns);
    }
  }

  /** The layers whose vernacular names are cleaned up. */
  const NOM_COUCHES: seq<string> := ["Amphibiens", "Reptiles", "Oiseaux", "Mammifères"]

  function NomVern(r: Row): Cell {
    Get(r, "NOM_VERN")
  }

  /** `str.len()` of the valid name; a cell that is not a string counts as missing. */
  function NameLength(r: Row): Option<nat> {
    if Get(r, "NOM_VALIDE").Str? then Some(|Get(r, "NOM_VALIDE").s|) else None
  }

  /**
   * `idxmin` of the name lengths: the position of the first row whose valid name is shortest,
   * skipping missing ones; None when no row has one.
   */
  function ShortestIndex(rows: seq<Row>): (r: Option<nat>)
    ensures r.None? <==> forall i :: 0 <= i < |rows| ==> NameLength(rows[i]).None?
    ensures r.Some? ==> r.value < |rows| && NameLength(rows[r.value]).Some?
    ensures r.Some? ==> forall i :: 0 <= i < |rows| && NameLength(rows[i]).Some? ==>
      NameLength(rows[r.value]).value <= NameLength(rows[i]).value
    ensures r.Some? ==> forall i :: 0 <= i < r.value && NameLength(rows[i]).Some? ==>
      NameLength(rows[r.value]).value < NameLength(rows[i]).value
    decreases |rows|
  {
    if rows == [] then None
    else
      var rest := ShortestIndex(rows[1..]);
      match NameLength(rows[0])
      case None =>
        if rest.None? then None else Some(rest.value + 1)
      case Some(n) =>
        if rest.None? || n <= NameLength(rows[1..][rest.value]).value then Some(0)
        else Some(rest.value + 1)
  }

  /** The row `idxmin` picks. */
  function Shortest(rows: seq<Row>): Option<Row> {
    match ShortestIndex(rows)
    case None => None
    case Some(k) => Some(rows[k])
  }

  /** The rows of one vernacular name, in their order. */
  function NameGroup(rows: seq<Row>, name: Cell): seq<Row> {
    Filter(rows, r => NomVern(r) == name)
  }

  /** `pick` applied to each name in turn; the ValueError of `idxmin` as soon as one group has no pick. */
  function PickEach(names: seq<Cell>, pick: Cell -> Option<Row>): (r: Result<seq<Row>, Error>)
    ensures r.Ok? <==> forall i :: 0 <= i < |names| ==> pick(names[i]).Some?
    ensures r.Ok? ==> |r.value| == |names|
    ensures r.Ok? ==> forall i :: 0 <= i < |names| ==> pick(names[i]) == Some(r.value[i])
    decreases |names|
  {
    if names == [] then Ok([])
    else
      match pick(names[0])
      case None => Err(ValueError("attempt to get argmin of an empty sequence"))
      case Some(best) =>
        var rest :- PickEach(names[1..], pick);
        Ok([best] + rest)
  }

  /** For each listed name, the shortest row of its group; an error when a group has no valid name. */
  function ShortestPerName(rows: seq<Row>, names: seq<Cell>): (r: Result<seq<Row>, Error>)
    ensures r.Ok? <==> forall i :: 0 <= i < |names| ==> Shortest(NameGroup(rows, names[i])).Some?
    ensures r.Ok? ==> |r.value| == |names|
    ensures r.Ok? ==> forall i :: 0 <= i < |names| ==> Shortest(NameGroup(rows, names[i])) == Some(r.value[i])
  {
    PickEach(names, name => Shortest(NameGroup(rows, name)))
  }

  /**
   * The keys of `groupby("NOM_VERN")`: the distinct vernacular names that are present, sorted
   * (groupby sorts its keys and drops missing ones by default).
   */
  function VernacularNames(rows: seq<Row>): (names: seq<Cell>)
    ensures StrictlySorted(names) && Distinct(names)
    ensures forall c :: c in names <==> c != Empty && c in Map(rows, NomVern)
  {
    var distinct := Dedup(Map(rows, NomVern));
    var present := Filter(distinct, (c: Cell) => c != Empty);
    FilterDistinct(distinct, (c: Cell) => c != Empty);
    var sorted := SortCells(present);
    SortedDistinct(sorted);
    assert forall c :: c in sorted <==> c in multiset(present);
    sorted
  }

  /**
   * The `groupby("NOM_VERN").apply(… idxmin …)` step: one row per vernacular name, in sorted name order, the first with
   * the shortest valid name. KeyError when there are rows but no NOM_VALIDE column.
   */
  function KeepShortestNames(t: Table): (r: Result<Table, Error>)
    ensures "NOM_VALIDE" !in t.columns && t.rows != [] ==> r == Err(KeyError("NOM_VALIDE"))
    ensures r.Ok? ==> r.value.columns == t.columns
    ensures r.Ok? ==> var names := VernacularNames(t.rows);
      |r.value.rows| == |names| && forall i :: 0 <= i < |names| ==> Shortest(NameGroup(t.rows, names[i])) == Some(r.value.rows[i])
  {
    if "NOM_VALIDE" !in t.columns && t.rows != [] then Err(KeyError("NOM_VALIDE"))
    else
      var rows :- ShortestPerName(t.rows, VernacularNames(t.rows));
      Ok(Table(t.columns, rows))
  }

  /** The kept rows come from the input, and their vernacular names are the group keys, in sorted order. */
  lemma {:induction false} KeptRowsNamed(t: Table)
    requires KeepShortestNames(t).Ok?
    ensures var out := KeepShortestNames(t).value.rows;
      (forall i :: 0 <= i < |out| ==> out[i] in t.rows) && Map(out, NomVern) == VernacularNames(t.rows)
  {
    var names := VernacularNames(t.rows);
    var out := KeepShortestNames(t).value.rows;
    forall i | 0 <= i < |out|
      ensures out[i] in t.rows && NomVern(out[i]) == names[i]
    {
      ShortestInGroup(t.rows, names[i]);
    }
  }

  /** Rows whose names are sorted, distinct keys covering every present name carry each present name once, in order. */
  lemma RowsNamedByKeys(rows: seq<Row>, out: seq<Row>, names: seq<Cell>)
    requires Map(out, NomVern) == names && StrictlySorted(names) && Distinct(names)
    requires forall c :: c in names <==> c != Empty && c in Map(rows, NomVern)
    ensures forall i, j :: 0 <= i < j < |out| ==> CellBefore(NomVern(out[i]), NomVern(out[j]))
    ensures forall j :: 0 <= j < |rows| && NomVern(rows[j]) != Empty ==> NomVern(rows[j]) in names
    ensures forall i :: 0 <= i < |out| ==> NomVern(out[i]) != Empty
  {
    forall j | 0 <= j < |rows| && NomVern(rows[j]) != Empty
      ensures NomVern(rows[j]) in names
    {
      assert NomVern(rows[j]) == Map(rows, NomVern)[j];
    }
    forall i, j | 0 <= i < j < |out|
      ensures CellBefore(NomVern(out[i]), NomVern(out[j]))
    {
      assert NomVern(out[i]) == names[i] && NomVern(out[j]) == names[j];
    }
    forall i | 0 <= i < |out|
      ensures NomVern(out[i]) != Empty
    {
      assert NomVern(out[i]) == names[i];
      assert names[i] in names;
    }
  }

  /**
   * One row per vernacular name: the kept rows carry pairwise distinct names, in sorted name order,
   * every present name of the input is kept, and no row without a name is.
   */
  lemma OneRowPerName(t: Table)
    requires KeepShortestNames(t).Ok?
    ensures var out := KeepShortestNames(t).value.rows;
      && Distinct(Map(out, NomVern))
      && (forall i, j :: 0 <= i < j < |out| ==> CellBefore(NomVern(out[i]), NomVern(out[j])))
      && (forall j :: 0 <= j < |t.rows| && NomVern(t.rows[j]) != Empty ==> NomVern(t.rows[j]) in Map(out, NomVern))
      && (forall i :: 0 <= i < |out| ==> NomVern(out[i]) != Empty)
  {
    KeptRowsNamed(t);
    RowsNamedByKeys(t.rows, KeepShortestNames(t).value.rows, VernacularNames(t.rows));
  }

  /** Each kept row has a valid name no longer than that of any other row with the same vernacular name. */
  lemma KeptNameIsShortest(t: Table, i: int, j: int)
    requires KeepShortestNames(t).Ok?
    requires 0 <= i < |KeepShortestNames(t).value.rows| && 0 <= j < |t.rows|
    requires NomVern(t.rows[j]) == NomVern(KeepShortestNames(t).value.rows[i]) && NameLength(t.rows[j]).Some?
    ensures NameLength(KeepShortestNames(t).value.rows[i]).Some?
    ensures NameLength(KeepShortestNames(t).value.rows[i]).value <= NameLength(t.rows[j]).value
  {
    var names := VernacularNames(t.rows);
    var out := KeepShortestNames(t).value.rows;
    var group := NameGroup(t.rows, names[i]);
    assert Shortest(group) == Some(out[i]);
    assert NomVern(out[i]) == names[i] by {
      ShortestInGroup(t.rows, names[i]);
    }
    assert t.rows[j] in group;
    ShortestIsMin(group, t.rows[j]);
  }

  lemma ShortestIsMin(rows: seq<Row>, x: Row)
    requires x in rows && NameLength(x).Some?
    ensures Shortest(rows).Some? && NameLength(Shortest(rows).value).value <= NameLength(x).value
  {
    var k :| 0 <= k < |rows| && rows[k] == x;
  }

  /** The shortest row of a name group belongs to the rows and has that name. */
  lemma ShortestInGroup(rows: seq<Row>, name: Cell)
    requires Shortest(NameGroup(rows, name)).Some?
    ensures Shortest(NameGroup(rows, name)).value in NameGroup(rows, name)
    ensures Shortest(NameGroup(rows, name)).value in rows
    ensures NomVern(Shortest(NameGroup(rows, name)).value) == name
  {
    var group := NameGroup(rows, name);
    assert group[ShortestIndex(group).value] == Shortest(group).value;
  }

  /**
   * `supprime_nom_vernaculaire(df, layer)`: for the four listed layers, the rows without a vernacular
   * name are dropped from the caller's frame in place, then one row per name is kept; any other
   * layer gets the frame's table back unchanged.
   */
  method SupprimeNomVernaculaire(df: Frame, layer: string) returns (r: Result<Table, Error>)
    modifies df
    ensures layer !in NOM_COUCHES ==> r == Ok(old(df.table)) && df.table == old(df.table)
    ensures layer in NOM_COUCHES && "NOM_VERN" !in old(df.table).columns ==>
      r == Err(KeyError("NOM_VERN")) && df.table == old(df.table)
    ensures layer in NOM_COUCHES && "NOM_VERN" in old(df.table).columns ==>
      DropMissing(old(df.table), "NOM_VERN") == Ok(df.table) && r == KeepShortestNames(df.table)
  {
    if layer in NOM_COUCHES {
      var e := df.DropMissingInPlace("NOM_VERN");
      if e.Some? {
        return Err(e.value);
      }
      r := KeepShortestNames(df.table);
    } else {
      r := Ok(df.table);
    }
  }

  /** No catalogue title is one of the cleaned layer names, so the cleanup never fires for a catalogue group. */
  lemma CatalogueTitlesNotCleaned()
    ensures forall i :: 0 <= i < |TAXONS| ==> TAXONS[i].title !in NOM_COUCHES
  {
  }
}
