/**
 * The status aggregator (`MakeStatusArray` and `generate_status_by_level`): how the records of
 * one status type, for one taxon group, become that group's status table. Every record gets its
 * status code string, the columns are renamed after the status type, and per administrative level
 * the records are grouped, by taxon for a national type and by (historical region, taxon) for a
 * regional one, the status columns of a group being joined with "; ".
 */
module StatusAggregator {
  import opened Wrappers
  import opened Folds
  import opened Seqs
  import opened Strings
  import opened Tables
  import opened Merge
  import opened Grouping
  import opened StatusTypes
  import opened StatusExtractor
  import opened TaxonGroups

  /** A historical region and the location names, besides France, whose records it takes. */
  datatype Region = Region(name: string, members: seq<string>)

  /** The region table, in its declared order and with its own spellings. */
  const REGIONS: seq<Region> := [
    Region("Auvergne", ["Auvergne-Rhône-Alpes", "Allier", "Cantal", "Haute-Loire", "Puy-de-Dôme"]),
    Region("Rhône-Alpes", ["Auvergne-Rhône-Alpes", "Ain", "Ardèche", "Drôme", "Isère", "Loire", "Rhône", "Savoie", "Haute-Savoie"]),
    Region("Bourgogne", ["Gourgogne-Franche-Comté", "Côte-d'Or", "Nièvre", "Saône-et-Loire", "Yonne"]),
    Region("Franche-Comté", ["Bourgogne-Franche-Comté", "Doubs", "Jura", "Haute-Saône"]),
    Region("Bretagne", ["Bretagne", "Côtes-d'Armor", "Finistère", "Ille-et-Vilaine", "Morbian"]),
    Region("Centre", ["Centre-Val de Loire", "Cher", "Eure-et-Loir", "Indre", "Indre-et-Loire", "Loir-et-Cher", "Loiret"]),
    Region("Corse", ["Corse", "Corse-du-Sud", "Haute-Corse"]),
    Region("Champagne-Ardenne", ["Grand-Est", "Ardennes", "Aube", "Marne", "Haute-Marne"]),
    Region("Alsace", ["Grand-Est", "Bas-Rhin", "Haut-Rhin"]),
    Region("Lorraine", ["Grand-Est", "Meurthe-et-Moselle", "Meuse", "Vosges"]),
    Region("Picardie", ["Hauts-de-France", "Aisne", "Oise", "Somme"]),
    Region("Nord-Pas-de-Calais", ["Haute-de-France", "Nord", "Pas-de-Calais"]),
    Region("Ile-de-France", ["Ile-de-France", "Paris", "Seine-et-Marne", "Yvelines", "Essonne", "Hauts-de-Seine", "Seine-Saint-Denis", "Val-de-Marne", "Val-d'Oise"]),
    Region("Haute-Normandie", ["Normandie", "Eure", "Seine-Maritime"]),
    Region("Basse-Normandie", ["Normandie", "Calvados", "Manche", "Orne"]),
    Region("Poitou-Charentes", ["Nouvelle-Aquitaine", "Charente", "Charente-Maritime", "Deux-Sèvre", "Vienne"]),
    Region("Aquitaine", ["Nouvelle-Aquitaine", "Dordogne", "Gironde", "Landes", "Lot-et-Garonne", "Pyrénées-Atlantique"]),
    Region("Limousin", ["Nouvelle-Aquitaine", "Corrèze", "Creuse", "Deux-Sèvre", "Haute-Vienne"]),
    Region("Midi-Pyrénées", ["Occitanie", "Ariège", "Aveyron", "Haute-Garonne", "Gers", "Lot", "Hautes-Pyrénées", "Tarn", "Tarn-et-Garonne"]),
    Region("Languedoc-Roussillon", ["Occitanie", "Aude", "Gard", "Hérault", "Lozère", "Pyrénées-Orientales"]),
    Region("Pays de la Loire", ["Pays de la Loire", "Loire-Atlantique", "Maine-et-Loire", "Mayenne", "Sarthe", "Vendée"]),
    Region("Provence-Alpes-Côte d'Azur", ["Provence-Alpes-Côte-d'Azur", "Alpes-de-Haute-Provence", "Hautes-Alpes", "Alpes-Maritimes", "Bouches-du-Rhône", "Var", "Vaucluse"])
  ]

  /** The administrative levels, in the order their tables are concatenated. */
  const ADMIN_LEVELS: seq<string> := ["État", "Territoire", "Région", "Ancienne région", "Département"]

  /** The location names of a national record. */
  const FRANCE: seq<string> := ["France", "France métropolitaine"]

  /** The columns kept from the downloaded records. */
  const SELECTED_COLUMNS: seq<string> := ["taxon_referenceId", "statusCode", "source", "sourceId",
    "locationName", "locationAdminLevel", "statusRemarks", "statusName"]

  /** The columns removed before grouping. */
  const DESCRIPTIVE_COLUMNS: seq<string> := ["locationName", "locationAdminLevel", "statusRemarks", "statusName"]

  /** The column holding "region name + CD_REF", computed and then left out of the aggregation. */
  const AGG_KEY_COLUMN := "agg_region_cdref"

  /** The three columns a status type contributes, each joined per group. */
  function AggColumns(statusId: string): (cols: seq<string>)
    ensures |cols| == 3 && cols[0] == statusId
  {
    [statusId, "source_" + statusId, "sourceId_" + statusId]
  }

  /** A status id that does not collide with the two key columns. */
  predicate PlainId(statusId: string) {
    statusId != "Région" && statusId != "CD_REF"
  }

  /*------------------------------------------------------------------------------------------------
   * Status codes and renaming
   *----------------------------------------------------------------------------------------------*/

  /** The status code string of every record, in row order; the first failing record's exception ends it. */
  function StatusCodes(rows: seq<Row>, statusId: string, taxonTitle: string): (r: Result<seq<Cell>, Error>)
    ensures r.Ok? <==> forall i :: 0 <= i < |rows| ==> ExtractStatusCode(rows[i], statusId, taxonTitle, OISEAUX_KEYWORDS).Ok?
    ensures r.Ok? ==> |r.value| == |rows| && forall i :: 0 <= i < |rows| ==>
      r.value[i] == Str(ExtractStatusCode(rows[i], statusId, taxonTitle, OISEAUX_KEYWORDS).value) && r.value[i].s != ""
    ensures r.Err? ==> r.error.TypeError?
  {
    ApplyRows(rows, (row: Row) => ExtractStatusCode(row, statusId, taxonTitle, OISEAUX_KEYWORDS))
  }

  /** The new name of a column: the record columns become the namespaced columns of the status type. */
  function RenameColumn(c: string, statusId: string): string {
    if c == "taxon_referenceId" then "CD_REF"
    else if c == "statusCode" then statusId
    else if c == "source" then "source_" + statusId
    else if c == "sourceId" then "sourceId_" + statusId
    else c
  }

  /** The column a renamed column comes from. */
  function OriginalColumn(c: string, statusId: string): string {
    if c == "CD_REF" then "taxon_referenceId"
    else if c == statusId then "statusCode"
    else if c == "source_" + statusId then "source"
    else if c == "sourceId_" + statusId then "sourceId"
    else c
  }

  /** The names renaming produces, and the names it renames. */
  function NewNames(statusId: string): seq<string> {
    ["CD_REF", statusId, "source_" + statusId, "sourceId_" + statusId]
  }

  const RENAMED: seq<string> := ["taxon_referenceId", "statusCode", "source", "sourceId"]

  /** No column is renamed onto a name that another column keeps: renaming then loses nothing. */
  predicate CleanRename(cols: seq<string>, statusId: string) {
    statusId != "CD_REF" && forall c :: c in cols ==> c in RENAMED || c !in NewNames(statusId)
  }

  /** On a clean column, the original name can be read back from the new one. */
  lemma RenameInverse(c: string, statusId: string)
    requires statusId != "CD_REF" && (c in RENAMED || c !in NewNames(statusId))
    ensures OriginalColumn(RenameColumn(c, statusId), statusId) == c
  {
    if c == "source" {
      assert ("source_" + statusId)[0] != "CD_REF"[0];
      assert |"source_" + statusId| != |statusId|;
    } else if c == "sourceId" {
      assert ("sourceId_" + statusId)[0] != "CD_REF"[0];
      assert |"sourceId_" + statusId| != |statusId|;
      assert ("sourceId_" + statusId)[6] != ("source_" + statusId)[6];
    }
  }

  /** For every type of the catalogue the key columns are free and renaming the selected columns loses nothing. */
  lemma CatalogueRenamesCleanly(statusId: string)
    requires statusId in STATUS_IDS
    ensures PlainId(statusId) && CleanRename(SELECTED_COLUMNS, statusId)
  {
    StatusIdsOfCatalogue();
    assert |statusId| <= 9;
    assert ("source_" + statusId)[2] == 'u' && ("sourceId_" + statusId)[2] == 'u';
    forall c | c in SELECTED_COLUMNS && c !in RENAMED
      ensures c !in NewNames(statusId)
    {
      assert |c| > 9 && c[2] != 'u';
    }
  }

  /** A record with its columns renamed. */
  function RenamedRow(r: Row, statusId: string): (o: Row)
    ensures forall c :: c in o <==> exists c0 :: c0 in r && RenameColumn(c0, statusId) == c
  {
    var keys := set c0 | c0 in r :: RenameColumn(c0, statusId);
    map c | c in keys :: Get(r, OriginalColumn(c, statusId))
  }

  /**
   * `df.rename(columns=…)`: every column takes its new name, in place; when the renaming is clean,
   * every renamed cell holds what the original cell held.
   */
  function RenameColumns(t: Table, statusId: string): (r: Table)
    ensures |r.columns| == |t.columns| && |r.rows| == |t.rows|
    ensures forall i :: 0 <= i < |t.columns| ==> r.columns[i] == RenameColumn(t.columns[i], statusId)
    ensures WellFormed(t) && CleanRename(t.columns, statusId) ==>
      forall i, c :: 0 <= i < |t.rows| && c in t.columns ==> Get(r.rows[i], RenameColumn(c, statusId)) == Get(t.rows[i], c)
    ensures WellFormed(t) && CleanRename(t.columns, statusId) ==> WellFormed(r)
  {
    var r := Table(Map(t.columns, c => RenameColumn(c, statusId)), Map(t.rows, row => RenamedRow(row, statusId)));
    RenameKeepsCells(t, statusId, r);
    r
  }

  lemma RenameKeepsCells(t: Table, statusId: string, r: Table)
    requires r == Table(Map(t.columns, c => RenameColumn(c, statusId)), Map(t.rows, row => RenamedRow(row, statusId)))
    ensures WellFormed(t) && CleanRename(t.columns, statusId) ==>
      forall i, c :: 0 <= i < |t.rows| && c in t.columns ==> Get(r.rows[i], RenameColumn(c, statusId)) == Get(t.rows[i], c)
    ensures WellFormed(t) && CleanRename(t.columns, statusId) ==> WellFormed(r)
  {
    if WellFormed(t) && CleanRename(t.columns, statusId) {
      RenameKeepsCellsClean(t, statusId, r);
    }
  }

  lemma RenameKeepsCellsClean(t: Table, statusId: string, r: Table)
    requires WellFormed(t) && CleanRename(t.columns, statusId)
    requires r == Table(Map(t.columns, c => RenameColumn(c, statusId)), Map(t.rows, row => RenamedRow(row, statusId)))
    ensures forall i, c :: 0 <= i < |t.rows| && c in t.columns ==> Get(r.rows[i], RenameColumn(c, statusId)) == Get(t.rows[i], c)
    ensures WellFormed(r)
  {
    forall i, c | 0 <= i < |t.rows| && c in t.columns
      ensures Get(r.rows[i], RenameColumn(c, statusId)) == Get(t.rows[i], c)
    {
      RenameInverse(c, statusId);
      assert c in t.rows[i];
    }
    forall i, j | 0 <= i < j < |r.columns|
      ensures r.columns[i] != r.columns[j]
    {
      RenameInverse(t.columns[i], statusId);
      RenameInverse(t.columns[j], statusId);
    }
    forall i | 0 <= i < |r.rows|
      ensures RowFits(r.rows[i], r.columns)
    {
      RenamedRowFits(t.rows[i], t.columns, statusId);
    }
  }

  /** A row that fits its columns fits the renamed columns once renamed. */
  lemma RenamedRowFits(row: Row, cols: seq<string>, statusId: string)
    requires RowFits(row, cols)
    ensures RowFits(RenamedRow(row, statusId), Map(cols, c => RenameColumn(c, statusId)))
  {
    var renamed := RenamedRow(row, statusId);
    var rcols := Map(cols, c => RenameColumn(c, statusId));
    forall c
      ensures c in renamed <==> c in rcols
    {
      if c in rcols {
        var k :| 0 <= k < |cols| && rcols[k] == c;
        assert cols[k] in row;
      }
      if c in renamed {
        var c0 :| c0 in row && RenameColumn(c0, statusId) == c;
        var k :| 0 <= k < |cols| && cols[k] == c0;
        assert rcols[k] == c;
      }
    }
  }

  /*------------------------------------------------------------------------------------------------
   * One administrative level (`generate_status_by_level`)
   *----------------------------------------------------------------------------------------------*/

  /** The filter of a national table: a French location at the level. */
  function NationalMasks(level: string): seq<Mask> {
    [ColIn("locationName", FRANCE), ColEquals("locationAdminLevel", level)]
  }

  /** The filter of a regional table: France, the region itself or one of its members, at the level. */
  function RegionalMasks(region: Region, level: string): seq<Mask> {
    [ColIn("locationName", FRANCE + [region.name] + region.members), ColEquals("locationAdminLevel", level)]
  }

  /** The national table of a level: one row per CD_REF of the French records at that level. */
  function NationalTable(df: Table, level: string, statusId: string): Result<Table, Error> {
    var filtered :- ApplyMasks(df, NationalMasks(level));
    var dropped :- Drop(filtered, DESCRIPTIVE_COLUMNS);
    GroupJoin(dropped, ["CD_REF"], AggColumns(statusId))
  }

  /** `assign(agg_region_cdref=…)`: the region name followed by the CD_REF as a string; KeyError without CD_REF. */
  function WithAggKey(t: Table): (r: Result<Table, Error>)
    ensures r.Err? <==> "CD_REF" !in t.columns
    ensures r.Ok? ==> |r.value.rows| == |t.rows| && t.columns <= r.value.columns
    ensures r.Ok? ==> forall i, c :: 0 <= i < |t.rows| && c != AGG_KEY_COLUMN ==> Get(r.value.rows[i], c) == Get(t.rows[i], c)
    ensures r.Ok? && WellFormed(t) ==> WellFormed(r.value)
  {
    if "CD_REF" !in t.columns then Err(KeyError("CD_REF"))
    else Ok(SetValues(t, AGG_KEY_COLUMN, seq(|t.rows|, i requires 0 <= i < |t.rows| =>
      Str(CellToStr(Get(t.rows[i], "Région")) + CellToStr(Get(t.rows[i], "CD_REF"))))))
  }

  /** The table of one region at a level: one row per CD_REF of the region's records, labelled with the region. */
  function RegionalTable(df: Table, region: Region, level: string, statusId: string): Result<Table, Error> {
    var filtered :- ApplyMasks(df, RegionalMasks(region, level));
    var labelled := SetColumn(filtered, "Région", Str(region.name));
    var keyed :- WithAggKey(labelled);
    var dropped :- Drop(keyed, DESCRIPTIVE_COLUMNS);
    GroupJoin(dropped, ["Région", "CD_REF"], AggColumns(statusId))
  }

  /** The key columns and the status columns of a grouped table are pairwise distinct. */
  lemma AggDistinct(statusId: string)
    requires PlainId(statusId)
    ensures Distinct(["CD_REF"] + AggColumns(statusId))
    ensures Distinct(["Région", "CD_REF"] + AggColumns(statusId))
  {
    var a := "source_" + statusId;
    var b := "sourceId_" + statusId;
    assert a[0] == 's' && b[0] == 's' && a[6] == '_' && b[6] == 'I';
    assert |a| != |statusId| && |b| != |statusId|;
  }

  /** Some record of `rows` passes the masks and carries the CD_REF `k`. */
  predicate SourcedBy(rows: seq<Row>, masks: seq<Mask>, k: Cell) {
    exists j :: 0 <= j < |rows| && AllHold(masks, rows[j]) && Get(rows[j], "CD_REF") == k
  }

  /** Some row of `rows` holds `k` in column `col`. */
  predicate Listed(rows: seq<Row>, col: string, k: Cell) {
    exists i :: 0 <= i < |rows| && Get(rows[i], col) == k
  }

  /** `out` holds one row per distinct complete key of `input`, and nothing else. */
  predicate GroupedOn(input: seq<Row>, keys: seq<string>, out: seq<Row>) {
    && (forall i, j :: 0 <= i < j < |out| ==> KeyOf(out[i], keys) != KeyOf(out[j], keys))
    && (forall j :: 0 <= j < |input| && FullKey(input[j], keys) ==>
          exists i :: 0 <= i < |out| && KeyOf(out[i], keys) == KeyOf(input[j], keys))
    && (forall i :: 0 <= i < |out| ==> KeyOccurs(input, keys, KeyOf(out[i], keys)))
  }

  /**
   * The CD_REF cells of a grouping on a key ending in CD_REF are those of the complete rows it
   * was grouped from, when those rows carry the CD_REF of `src` row for row.
   */
  lemma GroupedCdRefs(src: seq<Row>, input: seq<Row>, keys: seq<string>, out: seq<Row>)
    requires GroupedOn(input, keys, out)
    requires keys == ["CD_REF"] || keys == ["Région", "CD_REF"]
    requires |input| == |src|
    requires forall j :: 0 <= j < |src| ==> Get(input[j], "CD_REF") == Get(src[j], "CD_REF")
    ensures forall i :: 0 <= i < |out| ==> Get(out[i], "CD_REF") != Empty && Listed(src, "CD_REF", Get(out[i], "CD_REF"))
    ensures forall j :: 0 <= j < |src| && FullKey(input[j], keys) ==> Listed(out, "CD_REF", Get(src[j], "CD_REF"))
  {
    var n := |keys| - 1;
    assert keys[n] == "CD_REF";
    forall i | 0 <= i < |out|
      ensures Get(out[i], "CD_REF") != Empty && Listed(src, "CD_REF", Get(out[i], "CD_REF"))
    {
      assert KeyOccurs(input, keys, KeyOf(out[i], keys));
      var j :| 0 <= j < |input| && FullKey(input[j], keys) && KeyOf(input[j], keys) == KeyOf(out[i], keys);
      assert KeyOf(input[j], keys)[n] == KeyOf(out[i], keys)[n];
    }
    forall j | 0 <= j < |src| && FullKey(input[j], keys)
      ensures Listed(out, "CD_REF", Get(src[j], "CD_REF"))
    {
      var i :| 0 <= i < |out| && KeyOf(out[i], keys) == KeyOf(input[j], keys);
      assert KeyOf(input[j], keys)[n] == KeyOf(out[i], keys)[n];
    }
  }

  /** A record the masks keep is one of the filtered rows; every filtered row is such a record. */
  lemma MaskedRows(df: Table, masks: seq<Mask>, filtered: Table)
    requires ApplyMasks(df, masks) == Ok(filtered)
    ensures forall k :: Listed(filtered.rows, "CD_REF", k) ==> SourcedBy(df.rows, masks, k)
    ensures forall j :: 0 <= j < |df.rows| && AllHold(masks, df.rows[j]) ==> df.rows[j] in filtered.rows
  {
    SubseqMembers(filtered.rows, df.rows);
    forall k | Listed(filtered.rows, "CD_REF", k)
      ensures SourcedBy(df.rows, masks, k)
    {
      var i :| 0 <= i < |filtered.rows| && Get(filtered.rows[i], "CD_REF") == k;
      var j :| 0 <= j < |df.rows| && df.rows[j] == filtered.rows[i];
    }
  }

  /** Grouping on CD_REF alone yields rows with pairwise distinct CD_REFs. */
  lemma DistinctCdRefs(input: seq<Row>, out: seq<Row>)
    requires GroupedOn(input, ["CD_REF"], out)
    ensures forall i, j :: 0 <= i < j < |out| ==> Get(out[i], "CD_REF") != Get(out[j], "CD_REF")
  {
    forall i, j | 0 <= i < j < |out|
      ensures Get(out[i], "CD_REF") != Get(out[j], "CD_REF")
    {
      assert KeyOf(out[i], ["CD_REF"])[0] == Get(out[i], "CD_REF");
      assert KeyOf(out[j], ["CD_REF"])[0] == Get(out[j], "CD_REF");
    }
  }

  /**
   * Grouping on Région then CD_REF rows that all carry the same Région yields rows labelled with
   * it, with pairwise distinct CD_REFs.
   */
  lemma LabelledGroups(input: seq<Row>, regionCell: Cell, out: seq<Row>)
    requires GroupedOn(input, ["Région", "CD_REF"], out)
    requires forall j :: 0 <= j < |input| ==> Get(input[j], "Région") == regionCell
    ensures forall i :: 0 <= i < |out| ==> Get(out[i], "Région") == regionCell
    ensures forall i, j :: 0 <= i < j < |out| ==> Get(out[i], "CD_REF") != Get(out[j], "CD_REF")
  {
    var keys := ["Région", "CD_REF"];
    forall i | 0 <= i < |out|
      ensures Get(out[i], "Région") == regionCell
    {
      assert KeyOccurs(input, keys, KeyOf(out[i], keys));
      var j :| 0 <= j < |input| && FullKey(input[j], keys) && KeyOf(input[j], keys) == KeyOf(out[i], keys);
      assert KeyOf(input[j], keys)[0] == KeyOf(out[i], keys)[0];
    }
    forall i, j | 0 <= i < j < |out|
      ensures Get(out[i], "CD_REF") != Get(out[j], "CD_REF")
    {
      assert KeyOf(out[i], keys) == [Get(out[i], "Région"), Get(out[i], "CD_REF")];
      assert KeyOf(out[j], keys) == [Get(out[j], "Région"), Get(out[j], "CD_REF")];
    }
  }

  /** Dropping the descriptive columns leaves the CD_REF of every row as it was. */
  lemma DropKeepsKeys(t: Table, dropped: Table)
    requires Drop(t, DESCRIPTIVE_COLUMNS) == Ok(dropped)
    requires "CD_REF" in dropped.columns
    ensures |dropped.rows| == |t.rows|
    ensures forall j :: 0 <= j < |t.rows| ==> Get(dropped.rows[j], "CD_REF") == Get(t.rows[j], "CD_REF")
  {
  }

  /** Dropping the descriptive columns leaves the region label of every row as it was. */
  lemma DropKeepsLabels(t: Table, dropped: Table, regionCell: Cell)
    requires Drop(t, DESCRIPTIVE_COLUMNS) == Ok(dropped)
    requires "Région" in dropped.columns
    requires forall j :: 0 <= j < |t.rows| ==> Get(t.rows[j], "Région") == regionCell
    ensures forall j :: 0 <= j < |dropped.rows| ==> Get(dropped.rows[j], "Région") == regionCell
  {
  }

  /** The steps of a national table, named. */
  lemma NationalSteps(df: Table, level: string, statusId: string, out: Table) returns (filtered: Table, dropped: Table)
    requires NationalTable(df, level, statusId) == Ok(out)
    ensures ApplyMasks(df, NationalMasks(level)) == Ok(filtered)
    ensures Drop(filtered, DESCRIPTIVE_COLUMNS) == Ok(dropped)
    ensures GroupJoin(dropped, ["CD_REF"], AggColumns(statusId)) == Ok(out)
  {
    filtered := ApplyMasks(df, NationalMasks(level)).value;
    dropped := Drop(filtered, DESCRIPTIVE_COLUMNS).value;
  }

  /** Labelling and keying keep each record's CD_REF and give it the region's name. */
  lemma LabelledCells(filtered: Table, region: Region, keyed: Table)
    requires WithAggKey(SetColumn(filtered, "Région", Str(region.name))) == Ok(keyed)
    ensures |keyed.rows| == |filtered.rows|
    ensures forall j :: 0 <= j < |keyed.rows| ==> Get(keyed.rows[j], "Région") == Str(region.name)
    ensures forall j :: 0 <= j < |keyed.rows| ==> Get(keyed.rows[j], "CD_REF") == Get(filtered.rows[j], "CD_REF")
  {
    var labelled := SetColumn(filtered, "Région", Str(region.name));
    assert forall j :: 0 <= j < |keyed.rows| ==> Get(keyed.rows[j], "Région") == Get(labelled.rows[j], "Région");
    assert forall j :: 0 <= j < |keyed.rows| ==> Get(keyed.rows[j], "CD_REF") == Get(labelled.rows[j], "CD_REF");
  }

  /** The steps of a regional table, named. */
  lemma RegionalSteps(df: Table, region: Region, level: string, statusId: string, out: Table)
    returns (filtered: Table, keyed: Table, dropped: Table)
    requires RegionalTable(df, region, level, statusId) == Ok(out)
    ensures ApplyMasks(df, RegionalMasks(region, level)) == Ok(filtered)
    ensures WithAggKey(SetColumn(filtered, "Région", Str(region.name))) == Ok(keyed)
    ensures Drop(keyed, DESCRIPTIVE_COLUMNS) == Ok(dropped)
    ensures GroupJoin(dropped, ["Région", "CD_REF"], AggColumns(statusId)) == Ok(out)
  {
    filtered := ApplyMasks(df, RegionalMasks(region, level)).value;
    keyed := WithAggKey(SetColumn(filtered, "Région", Str(region.name))).value;
    dropped := Drop(keyed, DESCRIPTIVE_COLUMNS).value;
  }

  /** The labelled records reach the grouping with their CD_REF and their label. */
  lemma GroupedKeepsCells(keyed: Table, dropped: Table, regionCell: Cell, statusId: string, out: Table)
    requires Drop(keyed, DESCRIPTIVE_COLUMNS) == Ok(dropped)
    requires GroupJoin(dropped, ["Région", "CD_REF"], AggColumns(statusId)) == Ok(out)
    requires forall j :: 0 <= j < |keyed.rows| ==> Get(keyed.rows[j], "Région") == regionCell
    ensures |dropped.rows| == |keyed.rows|
    ensures forall j :: 0 <= j < |keyed.rows| ==> Get(dropped.rows[j], "CD_REF") == Get(keyed.rows[j], "CD_REF")
    ensures forall j :: 0 <= j < |dropped.rows| ==> Get(dropped.rows[j], "Région") == regionCell
  {
    var keys := ["Région", "CD_REF"];
    assert FirstMissing(keys + AggColumns(statusId), dropped.columns).None?;
    assert (keys + AggColumns(statusId))[0] == "Région" && (keys + AggColumns(statusId))[1] == "CD_REF";
    DropKeepsKeys(keyed, dropped);
    DropKeepsLabels(keyed, dropped, regionCell);
  }

  /** What the steps before the grouping keep of the records of a regional table. */
  lemma RegionalStepFacts(df: Table, region: Region, level: string, statusId: string, out: Table)
    returns (filtered: seq<Row>, dropped: Table)
    requires RegionalTable(df, region, level, statusId) == Ok(out)
    ensures forall k :: Listed(filtered, "CD_REF", k) ==> SourcedBy(df.rows, RegionalMasks(region, level), k)
    ensures forall j :: 0 <= j < |df.rows| && AllHold(RegionalMasks(region, level), df.rows[j]) ==> df.rows[j] in filtered
    ensures |dropped.rows| == |filtered|
    ensures forall j :: 0 <= j < |filtered| ==> Get(dropped.rows[j], "CD_REF") == Get(filtered[j], "CD_REF")
    ensures forall j :: 0 <= j < |dropped.rows| ==> Get(dropped.rows[j], "Région") == Str(region.name)
    ensures GroupJoin(dropped, ["Région", "CD_REF"], AggColumns(statusId)) == Ok(out)
  {
    var f, keyed, d := RegionalSteps(df, region, level, statusId, out);
    LabelledCells(f, region, keyed);
    GroupedKeepsCells(keyed, d, Str(region.name), statusId, out);
    MaskedRows(df, RegionalMasks(region, level), f);
    filtered, dropped := f.rows, d;
  }

  /** A grouping on a key holds the key columns and the status columns, one row per distinct complete key. */
  lemma GroupingOn(dropped: Table, keys: seq<string>, statusId: string, out: Table)
    requires GroupJoin(dropped, keys, AggColumns(statusId)) == Ok(out) && Distinct(keys + AggColumns(statusId))
    ensures out.columns == keys + AggColumns(statusId)
    ensures forall i :: 0 <= i < |keys| ==> keys[i] in dropped.columns
    ensures GroupedOn(dropped.rows, keys, out.rows)
  {
    GroupJoinCovers(dropped, keys, AggColumns(statusId), out);
    forall i | 0 <= i < |keys|
      ensures keys[i] in dropped.columns
    {
      assert (keys + AggColumns(statusId))[i] == keys[i];
    }
  }

  /**
   * The records the masks keep, grouped on a key ending in CD_REF whose other cells are never
   * missing: each output CD_REF is that of a kept record, and every kept record with a CD_REF is
   * represented.
   */
  lemma MaskedGroups(df: Table, masks: seq<Mask>, filtered: seq<Row>, input: seq<Row>, keys: seq<string>, out: seq<Row>)
    requires forall k :: Listed(filtered, "CD_REF", k) ==> SourcedBy(df.rows, masks, k)
    requires forall j :: 0 <= j < |df.rows| && AllHold(masks, df.rows[j]) ==> df.rows[j] in filtered
    requires |input| == |filtered|
    requires forall j :: 0 <= j < |filtered| ==> Get(input[j], "CD_REF") == Get(filtered[j], "CD_REF")
    requires forall j :: 0 <= j < |input| && Get(input[j], "CD_REF") != Empty ==> FullKey(input[j], keys)
    requires GroupedOn(input, keys, out)
    requires keys == ["CD_REF"] || keys == ["Région", "CD_REF"]
    ensures forall i :: 0 <= i < |out| ==>
      Get(out[i], "CD_REF") != Empty && SourcedBy(df.rows, masks, Get(out[i], "CD_REF"))
    ensures forall j :: 0 <= j < |df.rows| && AllHold(masks, df.rows[j]) && Get(df.rows[j], "CD_REF") != Empty ==>
      Listed(out, "CD_REF", Get(df.rows[j], "CD_REF"))
  {
    GroupedCdRefs(filtered, input, keys, out);
    forall j | 0 <= j < |df.rows| && AllHold(masks, df.rows[j]) && Get(df.rows[j], "CD_REF") != Empty
      ensures Listed(out, "CD_REF", Get(df.rows[j], "CD_REF"))
    {
      var m :| 0 <= m < |filtered| && filtered[m] == df.rows[j];
      assert FullKey(input[m], keys);
    }
  }

  /**
   * A national table has the columns CD_REF and the three status columns, one row per distinct
   * CD_REF; each of its CD_REFs is that of a French record at the level, and every French record at
   * the level with a CD_REF is represented.
   */
  lemma NationalRows(df: Table, level: string, statusId: string, out: Table)
    requires NationalTable(df, level, statusId) == Ok(out) && PlainId(statusId)
    ensures out.columns == ["CD_REF"] + AggColumns(statusId)
    ensures forall i, j :: 0 <= i < j < |out.rows| ==> Get(out.rows[i], "CD_REF") != Get(out.rows[j], "CD_REF")
    ensures forall i :: 0 <= i < |out.rows| ==>
      Get(out.rows[i], "CD_REF") != Empty && SourcedBy(df.rows, NationalMasks(level), Get(out.rows[i], "CD_REF"))
    ensures forall j :: 0 <= j < |df.rows| && AllHold(NationalMasks(level), df.rows[j]) && Get(df.rows[j], "CD_REF") != Empty ==>
      Listed(out.rows, "CD_REF", Get(df.rows[j], "CD_REF"))
  {
    var filtered, dropped := NationalSteps(df, level, statusId, out);
    AggDistinct(statusId);
    GroupingOn(dropped, ["CD_REF"], statusId, out);
    DropKeepsKeys(filtered, dropped);
    assert forall j :: 0 <= j < |dropped.rows| && Get(dropped.rows[j], "CD_REF") != Empty ==> FullKey(dropped.rows[j], ["CD_REF"]);
    MaskedRows(df, NationalMasks(level), filtered);
    MaskedGroups(df, NationalMasks(level), filtered.rows, dropped.rows, ["CD_REF"], out.rows);
    DistinctCdRefs(dropped.rows, out.rows);
  }

  /** Rows all labelled with a region have a complete (Région, CD_REF) key whenever their CD_REF is present. */
  lemma LabelledKeysFull(input: seq<Row>, regionCell: Cell)
    requires regionCell != Empty
    requires forall j :: 0 <= j < |input| ==> Get(input[j], "Région") == regionCell
    ensures forall j :: 0 <= j < |input| && Get(input[j], "CD_REF") != Empty ==> FullKey(input[j], ["Région", "CD_REF"])
  {
    var keys := ["Région", "CD_REF"];
    assert forall i :: 0 <= i < |keys| ==> keys[i] == "Région" || keys[i] == "CD_REF";
  }

  /** What reaches the grouping of a regional table: the filtered records and the complete keys grouped from them. */
  lemma RegionalGroupInputs(df: Table, region: Region, level: string, statusId: string, out: Table)
    returns (filtered: seq<Row>, input: seq<Row>)
    requires RegionalTable(df, region, level, statusId) == Ok(out) && PlainId(statusId)
    ensures forall k :: Listed(filtered, "CD_REF", k) ==> SourcedBy(df.rows, RegionalMasks(region, level), k)
    ensures forall j :: 0 <= j < |df.rows| && AllHold(RegionalMasks(region, level), df.rows[j]) ==> df.rows[j] in filtered
    ensures |input| == |filtered|
    ensures forall j :: 0 <= j < |filtered| ==> Get(input[j], "CD_REF") == Get(filtered[j], "CD_REF")
    ensures forall j :: 0 <= j < |input| && Get(input[j], "CD_REF") != Empty ==> FullKey(input[j], ["Région", "CD_REF"])
    ensures GroupedOn(input, ["Région", "CD_REF"], out.rows)
  {
    var keys := ["Région", "CD_REF"];
    var dropped;
    filtered, dropped := RegionalStepFacts(df, region, level, statusId, out);
    LabelledKeysFull(dropped.rows, Str(region.name));
    AggDistinct(statusId);
    GroupingOn(dropped, keys, statusId, out);
    input := dropped.rows;
  }

  /** Each CD_REF of a regional table is that of a record of the region at the level, and every such record is represented. */
  lemma RegionalSourced(df: Table, region: Region, level: string, statusId: string, out: Table)
    requires RegionalTable(df, region, level, statusId) == Ok(out) && PlainId(statusId)
    ensures forall i :: 0 <= i < |out.rows| ==>
      Get(out.rows[i], "CD_REF") != Empty && SourcedBy(df.rows, RegionalMasks(region, level), Get(out.rows[i], "CD_REF"))
    ensures forall j :: 0 <= j < |df.rows| && AllHold(RegionalMasks(region, level), df.rows[j]) && Get(df.rows[j], "CD_REF") != Empty ==>
      Listed(out.rows, "CD_REF", Get(df.rows[j], "CD_REF"))
  {
    var filtered, input := RegionalGroupInputs(df, region, level, statusId, out);
    MaskedGroups(df, RegionalMasks(region, level), filtered, input, ["Région", "CD_REF"], out.rows);
  }

  /** A regional table has the key and status columns, every row labelled with the region and a distinct CD_REF. */
  lemma RegionalLabelled(df: Table, region: Region, level: string, statusId: string, out: Table)
    requires RegionalTable(df, region, level, statusId) == Ok(out) && PlainId(statusId)
    ensures out.columns == ["Région", "CD_REF"] + AggColumns(statusId)
    ensures forall i :: 0 <= i < |out.rows| ==> Get(out.rows[i], "Région") == Str(region.name)
    ensures forall i, j :: 0 <= i < j < |out.rows| ==> Get(out.rows[i], "CD_REF") != Get(out.rows[j], "CD_REF")
  {
    var keys := ["Région", "CD_REF"];
    var filtered, dropped := RegionalStepFacts(df, region, level, statusId, out);
    AggDistinct(statusId);
    GroupingOn(dropped, keys, statusId, out);
    LabelledGroups(dropped.rows, Str(region.name), out.rows);
  }

  /**
   * A regional table has the columns Région, CD_REF and the three status columns; every row is
   * labelled with the region and carries a distinct CD_REF, that of a record of the region (or of
   * France) at the level, and every such record with a CD_REF is represented.
   */
  lemma RegionalRows(df: Table, region: Region, level: string, statusId: string, out: Table)
    requires RegionalTable(df, region, level, statusId) == Ok(out) && PlainId(statusId)
    ensures out.columns == ["Région", "CD_REF"] + AggColumns(statusId)
    ensures forall i :: 0 <= i < |out.rows| ==> Get(out.rows[i], "Région") == Str(region.name)
    ensures forall i, j :: 0 <= i < j < |out.rows| ==> Get(out.rows[i], "CD_REF") != Get(out.rows[j], "CD_REF")
    ensures forall i :: 0 <= i < |out.rows| ==>
      Get(out.rows[i], "CD_REF") != Empty && SourcedBy(df.rows, RegionalMasks(region, level), Get(out.rows[i], "CD_REF"))
    ensures forall j :: 0 <= j < |df.rows| && AllHold(RegionalMasks(region, level), df.rows[j]) && Get(df.rows[j], "CD_REF") != Empty ==>
      Listed(out.rows, "CD_REF", Get(df.rows[j], "CD_REF"))
  {
    RegionalLabelled(df, region, level, statusId, out);
    RegionalSourced(df, region, level, statusId, out);
  }

  /** One region's step of the region loop: its table, as a list of one. */
  function RegionStep(df: Table, level: string, statusId: string): Region -> Result<seq<Table>, Error> {
    region => match RegionalTable(df, region, level, statusId)
      case Ok(t) => Ok([t])
      case Err(e) => Err(e)
  }

  /** The tables of one level: the national table for a national status type, one table per region otherwise. */
  function StatusByLevel(df: Table, level: string, statusId: string): (r: Result<seq<Table>, Error>)
    ensures r.Ok? && statusId in NATIONAL_IDS ==> |r.value| == 1 && NationalTable(df, level, statusId) == Ok(r.value[0])
    ensures r.Ok? && statusId !in NATIONAL_IDS ==>
      && |r.value| == |REGIONS|
      && forall i :: 0 <= i < |REGIONS| ==> RegionalTable(df, REGIONS[i], level, statusId) == Ok(r.value[i])
  {
    if statusId !in NATIONAL_IDS then
      ConcatMapSingletons(REGIONS, RegionStep(df, level, statusId));
      ConcatMapResult(REGIONS, RegionStep(df, level, statusId))
    else
      var t :- NationalTable(df, level, statusId);
      Ok([t])
  }

  /** `generate_status_by_level`: the loop over the regions, or the single national table. */
  method GenerateStatusByLevel(df: Table, level: string, statusId: string) returns (r: Result<seq<Table>, Error>)
    ensures r == StatusByLevel(df, level, statusId)
  {
    if statusId !in NATIONAL_IDS {
      var result: seq<Table> := [];
      for i := 0 to |REGIONS|
        invariant ConcatMapResult(REGIONS[..i], RegionStep(df, level, statusId)) == Ok(result)
      {
        ConcatMapSnoc(REGIONS, RegionStep(df, level, statusId), i);
        var next := RegionalTable(df, REGIONS[i], level, statusId);
        if next.Err? {
          ConcatMapFail(REGIONS, RegionStep(df, level, statusId), i + 1);
          return Err(next.error);
        }
        result := result + [next.value];
      }
      assert REGIONS[..|REGIONS|] == REGIONS;
      r := Ok(result);
    } else {
      var t :- NationalTable(df, level, statusId);
      r := Ok([t]);
    }
  }

  /*------------------------------------------------------------------------------------------------
   * All levels, concatenation and post-processing
   *----------------------------------------------------------------------------------------------*/

  /** One level's step of the level loop. */
  function LevelStep(df: Table, statusId: string): string -> Result<seq<Table>, Error> {
    level => StatusByLevel(df, level, statusId)
  }

  /** The tables of the given levels, level after level. */
  function AllLevels(df: Table, levels: seq<string>, statusId: string): (r: Result<seq<Table>, Error>)
    ensures r.Ok? ==> |r.value| == |levels| * (if statusId in NATIONAL_IDS then 1 else |REGIONS|)
  {
    ConcatMapCount(levels, LevelStep(df, statusId), if statusId in NATIONAL_IDS then 1 else |REGIONS|);
    ConcatMapResult(levels, LevelStep(df, statusId))
  }

  /**
   * `pd.concat(tables, ignore_index=True)`: ValueError on an empty list of tables; otherwise the
   * columns some table has, and every row of every table at its place, one table after another.
   */
  function Concat(ts: seq<Table>): (r: Result<Table, Error>)
    ensures r.Err? <==> ts == []
    ensures r.Err? ==> r.error.ValueError?
    ensures r.Ok? ==> forall c :: c in r.value.columns <==> InSomeColumns(ts, c)
    ensures r.Ok? ==> |r.value.rows| == TotalRows(ts)
    ensures r.Ok? ==> forall i: nat, j: nat, c :: i < |ts| && j < |ts[i].rows| && c in r.value.columns ==>
      RowPlaced(ts, r.value, i, j, c)
    ensures r.Ok? && (forall i :: 0 <= i < |ts| ==> Distinct(ts[i].columns)) ==> WellFormed(r.value)
  {
    if ts == [] then Err(ValueError("No objects to concatenate"))
    else
      ConcatAllRows(ts);
      ConcatAllWellFormed(ts);
      Ok(ConcatAll(ts))
  }

  /** `s.replace(" : ", " - ")`, applied to the REGLLUTTE column. */
  function Dash(s: string): string {
    ReplaceAll(s, " : ", " - ")
  }

  /** `df["LRN - kw"] = df["LRN"].apply(filter_by_keyword)`: KeyError without an LRN column. */
  function KeywordColumn(t: Table, keyword: string): (r: Result<Table, Error>)
    ensures "LRN" !in t.columns ==> r == Err(KeyError("LRN"))
    ensures r.Ok? ==> t.columns <= r.value.columns && |r.value.rows| == |t.rows|
    ensures r.Ok? ==> forall c :: c in r.value.columns <==> c in t.columns || c == "LRN - " + keyword
    ensures r.Ok? ==> forall i :: 0 <= i < |t.rows| ==>
      && FilterByKeyword(Get(t.rows[i], "LRN"), keyword).Ok?
      && Get(r.value.rows[i], "LRN - " + keyword) == Str(FilterByKeyword(Get(t.rows[i], "LRN"), keyword).value)
    ensures r.Ok? ==> forall i, c :: 0 <= i < |t.rows| && c != "LRN - " + keyword ==> Get(r.value.rows[i], c) == Get(t.rows[i], c)
    ensures r.Ok? && WellFormed(t) ==> WellFormed(r.value)
  {
    if "LRN" !in t.columns then Err(KeyError("LRN"))
    else
      var vs :- ApplyRows(t.rows, (row: Row) => FilterByKeyword(Get(row, "LRN"), keyword));
      Ok(SetValues(t, "LRN - " + keyword, vs))
  }

  /** The bird columns of a bird LRN table, or " - " in place of " : " in a REGLLUTTE column. */
  function PostProcess(t: Table, statusId: string, taxonTitle: string): (r: Result<Table, Error>)
    ensures !(statusId == "LRN" && Contains(taxonTitle, "Oiseaux")) && statusId != "REGLLUTTE" ==> r == Ok(t)
    ensures statusId == "REGLLUTTE" && r.Ok? ==>
      && r.value.columns == t.columns && |r.value.rows| == |t.rows|
      && forall i :: 0 <= i < |t.rows| ==> Get(r.value.rows[i], statusId) == Str(Dash(CellToStr(Get(t.rows[i], statusId))))
    ensures statusId == "REGLLUTTE" ==> (r.Err? <==> statusId !in t.columns)
  {
    if statusId == "LRN" && Contains(taxonTitle, "Oiseaux") then FoldResult(t, OISEAUX_KEYWORDS, KeywordColumn)
    else if statusId == "REGLLUTTE" then
      if statusId !in t.columns then Err(KeyError(statusId)) else Ok(MapColumn(t, statusId, Dash))
    else Ok(t)
  }

  /**
   * The bird branches test for "Oiseaux" in the title, and no catalogue title holds an 'x' (the
   * bird group is titled "Avifaune"): for every catalogue group the keyword fragment is empty and
   * post-processing leaves every status table other than REGLLUTTE unchanged.
   */
  lemma CatalogueNeverBird(t: Table, r: Row, statusId: string, keywords: seq<string>)
    ensures forall i :: 0 <= i < |TAXON_TITLES| ==> KeywordFragment(r, statusId, TAXON_TITLES[i], keywords) == Ok(Str(""))
    ensures statusId != "REGLLUTTE" ==> forall i :: 0 <= i < |TAXON_TITLES| ==> PostProcess(t, statusId, TAXON_TITLES[i]) == Ok(t)
  {
    NoTitleIsBird();
  }

  /** `Dash` is Python's `" - ".join(s.split(" : "))`. */
  lemma DashIsJoinSplit(s: string)
    ensures Dash(s) == Join(SplitOn(s, " : "), " - ")
  {
    ReplaceIsJoinSplit(s, " : ", " - ");
  }

  /**
   * `s` is `t` with a bird column for each keyword: the rows and the LRN cells are those of `t`,
   * no column of `t` is lost, and each keyword's column holds the keyword's part of the row's LRN.
   */
  predicate KeywordColumnsOf(t: Table, s: Table, keywords: seq<string>) {
    && |s.rows| == |t.rows| && t.columns <= s.columns
    && (forall i :: 0 <= i < |t.rows| ==> Get(s.rows[i], "LRN") == Get(t.rows[i], "LRN"))
    && (forall k :: 0 <= k < |keywords| ==> "LRN - " + keywords[k] in s.columns)
    && (forall k, i :: 0 <= k < |keywords| && 0 <= i < |t.rows| ==>
          && FilterByKeyword(Get(t.rows[i], "LRN"), keywords[k]).Ok?
          && Get(s.rows[i], "LRN - " + keywords[k]) == Str(FilterByKeyword(Get(t.rows[i], "LRN"), keywords[k]).value))
  }

  /** Keyword columns are never the LRN column, and two of them share a name only for the same keyword. */
  lemma KeywordColumnNames(a: string, b: string)
    ensures "LRN - " + a != "LRN"
    ensures "LRN - " + a == "LRN - " + b ==> a == b
  {
    assert |"LRN - " + a| > |"LRN"|;
    if "LRN - " + a == "LRN - " + b {
      assert a == ("LRN - " + a)[6..] && b == ("LRN - " + b)[6..];
    }
  }

  /** Adding one more keyword column keeps the columns already added. */
  lemma BirdStep(t: Table, s: Table, r: Table, done: seq<string>, keyword: string)
    requires KeywordColumnsOf(t, s, done)
    requires KeywordColumn(s, keyword) == Ok(r)
    ensures KeywordColumnsOf(t, r, done + [keyword])
  {
    var all := done + [keyword];
    forall k | 0 <= k < |all|
      ensures "LRN - " + all[k] in r.columns
    {
      if k < |done| {
        assert all[k] == done[k];
      }
    }
    forall k, i | 0 <= k < |all| && 0 <= i < |t.rows|
      ensures FilterByKeyword(Get(t.rows[i], "LRN"), all[k]).Ok?
      ensures Get(r.rows[i], "LRN - " + all[k]) == Str(FilterByKeyword(Get(t.rows[i], "LRN"), all[k]).value)
    {
      KeywordColumnNames(keyword, all[k]);
      if k < |done| {
        assert all[k] == done[k];
      }
    }
    forall i | 0 <= i < |t.rows|
      ensures Get(r.rows[i], "LRN") == Get(t.rows[i], "LRN")
    {
      KeywordColumnNames(keyword, keyword);
    }
  }

  /** The bird columns, added one keyword after the other, each hold their part of the LRN. */
  lemma {:induction false} BirdColumns(t: Table, keywords: seq<string>)
    ensures FoldResult(t, keywords, KeywordColumn).Ok? ==>
      KeywordColumnsOf(t, FoldResult(t, keywords, KeywordColumn).value, keywords)
    decreases |keywords|
  {
    if keywords != [] && FoldResult(t, keywords, KeywordColumn).Ok? {
      var n := |keywords| - 1;
      BirdColumns(t, keywords[..n]);
      var s := FoldResult(t, keywords[..n], KeywordColumn).value;
      BirdStep(t, s, KeywordColumn(s, keywords[n]).value, keywords[..n], keywords[n]);
      assert keywords[..n] + [keywords[n]] == keywords;
    }
  }

  /**
   * A bird LRN table raises KeyError without an LRN column; otherwise, when it succeeds, it gains
   * the Nicheur, Hivernant and Visiteur columns, each holding that part of the row's LRN.
   */
  lemma BirdPostProcess(t: Table, taxonTitle: string)
    requires Contains(taxonTitle, "Oiseaux")
    ensures "LRN" !in t.columns ==> PostProcess(t, "LRN", taxonTitle) == Err(KeyError("LRN"))
    ensures PostProcess(t, "LRN", taxonTitle).Ok? ==>
      KeywordColumnsOf(t, PostProcess(t, "LRN", taxonTitle).value, OISEAUX_KEYWORDS)
  {
    BirdColumns(t, OISEAUX_KEYWORDS);
    if "LRN" !in t.columns {
      assert OISEAUX_KEYWORDS[..1][..0] == [];
      FoldFail(t, OISEAUX_KEYWORDS, KeywordColumn, 1);
    }
  }

  /** A national record (France at the level) passes the filter of every region at that level. */
  lemma NationalWithinRegional(region: Region, level: string, row: Row)
    requires AllHold(NationalMasks(level), row)
    ensures AllHold(RegionalMasks(region, level), row)
  {
    assert Holds(NationalMasks(level)[0], row) && Holds(NationalMasks(level)[1], row);
    assert Get(row, "locationName").s in FRANCE + [region.name] + region.members;
  }

  /** Every regional table of a level lists the CD_REF of every national record at that level. */
  lemma RegionalCoversNational(df: Table, region: Region, level: string, statusId: string, out: Table)
    requires RegionalTable(df, region, level, statusId) == Ok(out) && PlainId(statusId)
    ensures forall j :: 0 <= j < |df.rows| && AllHold(NationalMasks(level), df.rows[j]) && Get(df.rows[j], "CD_REF") != Empty ==>
      Listed(out.rows, "CD_REF", Get(df.rows[j], "CD_REF"))
  {
    RegionalRows(df, region, level, statusId, out);
    forall j | 0 <= j < |df.rows| && AllHold(NationalMasks(level), df.rows[j])
      ensures AllHold(RegionalMasks(region, level), df.rows[j])
    {
      NationalWithinRegional(region, level, df.rows[j]);
    }
  }

  /** The department "Deux-Sèvre" is listed under two regions, Poitou-Charentes and Limousin. */
  lemma DeuxSevreInTwoRegions()
    ensures REGIONS[15].name == "Poitou-Charentes" && "Deux-Sèvre" in REGIONS[15].members
    ensures REGIONS[17].name == "Limousin" && "Deux-Sèvre" in REGIONS[17].members
  {
  }

  /** Every level yields at least one table, so the concatenation of all levels never raises. */
  lemma LevelsNeverEmpty(df: Table, statusId: string)
    ensures AllLevels(df, ADMIN_LEVELS, statusId).Ok? ==> Concat(AllLevels(df, ADMIN_LEVELS, statusId).value).Ok?
  {
  }

  /** The records reduced to the selected columns, with their status code strings and renamed columns. */
  function Prepared(statusIn: Table, statusId: string, taxonTitle: string): Result<Table, Error> {
    var reduced :- Select(statusIn, SELECTED_COLUMNS);
    var codes :- StatusCodes(reduced.rows, statusId, taxonTitle);
    var renamed := RenameColumns(SetValues(reduced, "statusCode", codes), statusId);
    FoldResult(renamed, AggColumns(statusId), CastToStr)
  }

  /** The status table `MakeStatusArray` returns, as a function of its inputs. */
  function StatusArray(statusIn: Table, statusId: string, taxonTitle: string): Result<Table, Error> {
    var prepared :- Prepared(statusIn, statusId, taxonTitle);
    var tables :- AllLevels(prepared, ADMIN_LEVELS, statusId);
    var out :- Concat(tables);
    var post :- PostProcess(out, statusId, taxonTitle);
    CastToInt(post, "CD_REF")
  }

  /** `for col in cols: df[col] = df[col].astype(str)`, in place; the first missing column ends the loop. */
  method CastToStrAll(frame: Frame, cols: seq<string>) returns (e: Option<Error>)
    modifies frame
    ensures e.None? <==> FoldResult(old(frame.table), cols, CastToStr).Ok?
    ensures e.Some? ==> FoldResult(old(frame.table), cols, CastToStr) == Err(e.value)
    ensures e.None? ==> FoldResult(old(frame.table), cols, CastToStr) == Ok(frame.table)
  {
    ghost var start := frame.table;
    for i := 0 to |cols|
      invariant FoldResult(start, cols[..i], CastToStr) == Ok(frame.table)
    {
      FoldSnoc(start, cols, CastToStr, i);
      e := frame.CastToStrInPlace(cols[i]);
      if e.Some? {
        FoldFail(start, cols, CastToStr, i + 1);
        return;
      }
    }
    assert cols[..|cols|] == cols;
    e := None;
  }

  /** The first half of `MakeStatusArray`: selection, status codes, renaming and the string casts. */
  method PrepareRecords(statusId: string, taxonTitle: string, statusIn: Table) returns (r: Result<Table, Error>)
    ensures r == Prepared(statusIn, statusId, taxonTitle)
  {
    var reduced :- Select(statusIn, SELECTED_COLUMNS);
    var codes :- StatusCodes(reduced.rows, statusId, taxonTitle);
    var reducedFrame := new Frame(reduced);
    reducedFrame.AssignValues("statusCode", codes);
    var renamed := new Frame(RenameColumns(reducedFrame.table, statusId));
    var e := CastToStrAll(renamed, AggColumns(statusId));
    if e.Some? {
      return Err(e.value);
    }
    r := Ok(renamed.table);
  }

  /** The loop over the administrative levels, collecting each level's tables. */
  method StatusByLevels(df: Table, statusId: string) returns (r: Result<seq<Table>, Error>)
    ensures r == AllLevels(df, ADMIN_LEVELS, statusId)
  {
    var tables: seq<Table> := [];
    for j := 0 to |ADMIN_LEVELS|
      invariant ConcatMapResult(ADMIN_LEVELS[..j], LevelStep(df, statusId)) == Ok(tables)
    {
      ConcatMapSnoc(ADMIN_LEVELS, LevelStep(df, statusId), j);
      var level := GenerateStatusByLevel(df, ADMIN_LEVELS[j], statusId);
      if level.Err? {
        ConcatMapFail(ADMIN_LEVELS, LevelStep(df, statusId), j + 1);
        return Err(level.error);
      }
      tables := tables + level.value;
    }
    assert ADMIN_LEVELS[..|ADMIN_LEVELS|] == ADMIN_LEVELS;
    r := Ok(tables);
  }

  /** The post-processing of the concatenated table, in place; on an exception the frame is left part-way. */
  method PostProcessInPlace(out: Frame, statusId: string, taxonTitle: string) returns (e: Option<Error>)
    modifies out
    ensures e.None? <==> PostProcess(old(out.table), statusId, taxonTitle).Ok?
    ensures e.Some? ==> PostProcess(old(out.table), statusId, taxonTitle) == Err(e.value)
    ensures e.None? ==> PostProcess(old(out.table), statusId, taxonTitle) == Ok(out.table)
  {
    ghost var start := out.table;
    e := None;
    if statusId == "LRN" && Contains(taxonTitle, "Oiseaux") {
      for k := 0 to |OISEAUX_KEYWORDS|
        invariant FoldResult(start, OISEAUX_KEYWORDS[..k], KeywordColumn) == Ok(out.table)
      {
        FoldSnoc(start, OISEAUX_KEYWORDS, KeywordColumn, k);
        var next := KeywordColumn(out.table, OISEAUX_KEYWORDS[k]);
        if next.Err? {
          FoldFail(start, OISEAUX_KEYWORDS, KeywordColumn, k + 1);
          return Some(next.error);
        }
        out.table := next.value;
      }
      assert OISEAUX_KEYWORDS[..|OISEAUX_KEYWORDS|] == OISEAUX_KEYWORDS;
    } else if statusId == "REGLLUTTE" {
      e := out.MapColumnInPlace(statusId, Dash);
    }
  }

  /**
   * `MakeStatusArray`: the prepared records, the loop over the levels, the concatenation, then the
   * post-processing and the CD_REF cast, both in place.
   */
  method MakeStatusArray(statusId: string, taxonTitle: string, statusIn: Table) returns (r: Result<Table, Error>)
    ensures r == StatusArray(statusIn, statusId, taxonTitle)
  {
    var prepared := PrepareRecords(statusId, taxonTitle, statusIn);
    if prepared.Err? {
      return Err(prepared.error);
    }
    var tables := StatusByLevels(prepared.value, statusId);
    if tables.Err? {
      return Err(tables.error);
    }
    var concatenated := Concat(tables.value);
    if concatenated.Err? {
      return Err(concatenated.error);
    }
    var out := new Frame(concatenated.value);
    var e := PostProcessInPlace(out, statusId, taxonTitle);
    if e.Some? {
      return Err(e.value);
    }
    e := out.CastToIntInPlace("CD_REF");
    if e.Some? {
      return Err(e.value);
    }
    r := Ok(out.table);
  }
}
