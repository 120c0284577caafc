/**
 * Taxon groups: the sixteen groups the plug-in maintains (flora, fungi and fourteen fauna groups),
 * the row filter each applies to the TAXREF reference list, and the lookups between group titles,
 * layer names and groups.
 */
module TaxonGroups {
  import opened Wrappers
  import opened Seqs
  import opened Strings
  import opened Tables

  /**
   * A taxon group: a kingdom and lists of accepted values for the order, the three INPN group levels
   * and the family. The one-element list [""] means "no constraint at this level".
   */
  datatype TaxonGroupe = TaxonGroupe(
    title: string,
    regne: string,
    ordre: seq<string>,
    groupe1: seq<string>,
    groupe2: seq<string>,
    groupe3: seq<string>,
    famille: seq<string>)
  {
    predicate IsFlore() { regne == "Plantae" }
    predicate IsFaune() { regne == "Animalia" }
    predicate IsFungi() { regne == "Fungi" }
    predicate IsOrdreEmpty() { ordre == [""] }
    predicate IsGroupe1Empty() { groupe1 == [""] }
    predicate IsGroupe2Empty() { groupe2 == [""] }
    predicate IsGroupe3Empty() { groupe3 == [""] }
    predicate IsFamilleEmpty() { famille == [""] }
  }

  /** The values of the FR column (status in metropolitan France) that mean the taxon is present. */
  const FR_CODES: seq<string> := ["P", "E", "S", "C", "I", "J", "M", "B", "D", "G"]

  /** The cell of `col` is a string from `values`. */
  predicate InList(r: Row, col: string, values: seq<string>) {
    Get(r, col).Str? && Get(r, col).s in values
  }

  /** The cells of two columns are present and equal. */
  predicate SameCell(r: Row, a: string, b: string) {
    Get(r, a) != Empty && Get(r, a) == Get(r, b)
  }

  /** The tests `filtre_df` always applies: kingdom, first INPN group and presence in France. */
  predicate BaseKeeps(g: TaxonGroupe, r: Row) {
    Get(r, "REGNE") == Str(g.regne) && InList(r, "GROUP1_INPN", g.groupe1) && InList(r, "FR", FR_CODES)
  }

  /** A level whose accepted list is [""] accepts every row; any other level needs a listed value. */
  predicate LevelKeeps(values: seq<string>, r: Row, col: string) {
    values == [""] || InList(r, col, values)
  }

  /** The reference-list rows `filtre_df` keeps: every level that is not [""] is checked on its own. */
  predicate FiltreKeeps(g: TaxonGroupe, r: Row, synonyme: bool) {
    && BaseKeeps(g, r)
    && LevelKeeps(g.ordre, r, "ORDRE")
    && LevelKeeps(g.groupe2, r, "GROUP2_INPN")
    && LevelKeeps(g.groupe3, r, "GROUP3_INPN")
    && LevelKeeps(g.famille, r, "FAMILLE")
    && (synonyme || SameCell(r, "CD_NOM", "CD_REF"))
  }

  /** The column a level reads, none when the level's list is [""]. */
  function LevelColumns(values: seq<string>, col: string): seq<string> {
    if values == [""] then [] else [col]
  }

  /** The columns `filtre_df` reads, in the order it reads them. */
  function FiltreColumns(g: TaxonGroupe, synonyme: bool): seq<string> {
    ["REGNE", "GROUP1_INPN", "FR"]
    + LevelColumns(g.ordre, "ORDRE")
    + LevelColumns(g.groupe2, "GROUP2_INPN")
    + LevelColumns(g.groupe3, "GROUP3_INPN")
    + LevelColumns(g.famille, "FAMILLE")
    + (if synonyme then [] else ["CD_NOM", "CD_REF"])
  }

  /** The mask `filtre_df` adds for a level, none when the level's list is [""]. */
  function LevelMask(values: seq<string>, col: string): seq<Mask> {
    if values == [""] then [] else [ColIn(col, values)]
  }

  /** The masks `filtre_df` collects for a group, in the order it appends them. */
  function FiltreMasks(g: TaxonGroupe, synonyme: bool): seq<Mask> {
    [ColEquals("REGNE", g.regne), ColIn("GROUP1_INPN", g.groupe1), ColIn("FR", FR_CODES)]
    + LevelMask(g.ordre, "ORDRE")
    + LevelMask(g.groupe2, "GROUP2_INPN")
    + LevelMask(g.groupe3, "GROUP3_INPN")
    + LevelMask(g.famille, "FAMILLE")
    + (if synonyme then [] else [ColsEqual("CD_NOM", "CD_REF")])
  }

  lemma LevelMaskColumns(values: seq<string>, col: string)
    ensures MasksColumns(LevelMask(values, col)) == LevelColumns(values, col)
  {
    if values != [""] {
      assert LevelMask(values, col)[1..] == [];
    }
  }

  lemma LevelMaskHolds(values: seq<string>, col: string, row: Row)
    ensures AllHold(LevelMask(values, col), row) == LevelKeeps(values, row, col)
  {
    if values != [""] {
      assert LevelMask(values, col)[0] == ColIn(col, values);
    }
  }

  /** The collected masks read exactly the columns of FiltreColumns, in that order. */
  lemma FiltreMasksColumns(g: TaxonGroupe, synonyme: bool)
    ensures MasksColumns(FiltreMasks(g, synonyme)) == FiltreColumns(g, synonyme)
  {
    var base := [ColEquals("REGNE", g.regne), ColIn("GROUP1_INPN", g.groupe1), ColIn("FR", FR_CODES)];
    var o := LevelMask(g.ordre, "ORDRE");
    var g2 := LevelMask(g.groupe2, "GROUP2_INPN");
    var g3 := LevelMask(g.groupe3, "GROUP3_INPN");
    var f := LevelMask(g.famille, "FAMILLE");
    var v: seq<Mask> := if synonyme then [] else [ColsEqual("CD_NOM", "CD_REF")];
    assert MasksColumns(base) == ["REGNE", "GROUP1_INPN", "FR"] by {
      assert MasksColumns(base[2..]) == ["FR"];
      assert MasksColumns(base[1..]) == ["GROUP1_INPN", "FR"];
    }
    LevelMaskColumns(g.ordre, "ORDRE");
    LevelMaskColumns(g.groupe2, "GROUP2_INPN");
    LevelMaskColumns(g.groupe3, "GROUP3_INPN");
    LevelMaskColumns(g.famille, "FAMILLE");
    assert MasksColumns(v) == (if synonyme then [] else ["CD_NOM", "CD_REF"]) by {
      if !synonyme {
        assert v[1..] == [];
      }
    }
    MasksColumnsConcat(base, o);
    MasksColumnsConcat(base + o, g2);
    MasksColumnsConcat(base + o + g2, g3);
    MasksColumnsConcat(base + o + g2 + g3, f);
    MasksColumnsConcat(base + o + g2 + g3 + f, v);
  }

  /** The collected masks hold of a row exactly when FiltreKeeps does. */
  lemma FiltreMasksKeeps(g: TaxonGroupe, synonyme: bool, row: Row)
    ensures AllHold(FiltreMasks(g, synonyme), row) == FiltreKeeps(g, row, synonyme)
  {
    var base := [ColEquals("REGNE", g.regne), ColIn("GROUP1_INPN", g.groupe1), ColIn("FR", FR_CODES)];
    var o := LevelMask(g.ordre, "ORDRE");
    var g2 := LevelMask(g.groupe2, "GROUP2_INPN");
    var g3 := LevelMask(g.groupe3, "GROUP3_INPN");
    var f := LevelMask(g.famille, "FAMILLE");
    var v: seq<Mask> := if synonyme then [] else [ColsEqual("CD_NOM", "CD_REF")];
    AllHoldConcat(base, o, row);
    AllHoldConcat(base + o, g2, row);
    AllHoldConcat(base + o + g2, g3, row);
    AllHoldConcat(base + o + g2 + g3, f, row);
    AllHoldConcat(base + o + g2 + g3 + f, v, row);
    LevelMaskHolds(g.ordre, "ORDRE", row);
    LevelMaskHolds(g.groupe2, "GROUP2_INPN", row);
    LevelMaskHolds(g.groupe3, "GROUP3_INPN", row);
    LevelMaskHolds(g.famille, "FAMILLE", row);
    assert AllHold(v, row) == (synonyme || SameCell(row, "CD_NOM", "CD_REF")) by {
      if !synonyme {
        assert v[0] == ColsEqual("CD_NOM", "CD_REF");
      }
    }
    assert AllHold(base, row) == BaseKeeps(g, row) by {
      if BaseKeeps(g, row) {
        forall i | 0 <= i < 3
          ensures Holds(base[i], row)
        {
        }
      } else {
        assert !(Holds(base[0], row) && Holds(base[1], row) && Holds(base[2], row));
      }
    }
  }

  /**
   * `filtre_df`: the rows of the reference list that belong to the group, in their order. The
   * conditions are collected one by one, as the source appends them; a missing column raises KeyError.
   */
  method FiltreDf(g: TaxonGroupe, df: Table, synonyme: bool) returns (r: Result<Table, Error>)
    ensures r.Err? <==> FirstMissing(FiltreColumns(g, synonyme), df.columns).Some?
    ensures r.Err? ==> r.error == KeyError(FirstMissing(FiltreColumns(g, synonyme), df.columns).value)
    ensures r.Ok? ==> r.value.columns == df.columns && IsSubseq(r.value.rows, df.rows)
    ensures r.Ok? ==> r.value.rows == Filter(df.rows, row => FiltreKeeps(g, row, synonyme))
  {
    var conditions := [ColEquals("REGNE", g.regne), ColIn("GROUP1_INPN", g.groupe1), ColIn("FR", FR_CODES)];
    ghost var before := conditions;
    if !g.IsOrdreEmpty() {
      conditions := conditions + [ColIn("ORDRE", g.ordre)];
    }
    assert conditions == before + LevelMask(g.ordre, "ORDRE");
    before := conditions;
    if !g.IsGroupe2Empty() {
      conditions := conditions + [ColIn("GROUP2_INPN", g.groupe2)];
    }
    assert conditions == before + LevelMask(g.groupe2, "GROUP2_INPN");
    before := conditions;
    if !g.IsGroupe3Empty() {
      conditions := conditions + [ColIn("GROUP3_INPN", g.groupe3)];
    }
    assert conditions == before + LevelMask(g.groupe3, "GROUP3_INPN");
    before := conditions;
    if !g.IsFamilleEmpty() {
      conditions := conditions + [ColIn("FAMILLE", g.famille)];
    }
    assert conditions == before + LevelMask(g.famille, "FAMILLE");
    before := conditions;
    if !synonyme {
      conditions := conditions + [ColsEqual("CD_NOM", "CD_REF")];
    }
    assert conditions == before + (if synonyme then [] else [ColsEqual("CD_NOM", "CD_REF")]);
    assert conditions == FiltreMasks(g, synonyme);
    r := ApplyMasks(df, conditions);
    FiltreMasksApply(g, df, synonyme);
  }

  /** Applying the group's masks fails on the first missing column, and otherwise keeps the group's rows. */
  lemma FiltreMasksApply(g: TaxonGroupe, df: Table, synonyme: bool)
    ensures var r := ApplyMasks(df, FiltreMasks(g, synonyme));
      && (r.Err? <==> FirstMissing(FiltreColumns(g, synonyme), df.columns).Some?)
      && (r.Err? ==> r.error == KeyError(FirstMissing(FiltreColumns(g, synonyme), df.columns).value))
      && (r.Ok? ==> r.value.rows == Filter(df.rows, row => FiltreKeeps(g, row, synonyme)))
  {
    var ms := FiltreMasks(g, synonyme);
    FiltreMasksColumns(g, synonyme);
    forall row: Row
      ensures AllHold(ms, row) == FiltreKeeps(g, row, synonyme)
    {
      FiltreMasksKeeps(g, synonyme, row);
    }
    if ApplyMasks(df, ms).Ok? {
      ApplyMasksRows(df, ms, row => FiltreKeeps(g, row, synonyme));
    }
  }

  const FLORE := TaxonGroupe("Flore", "Plantae", [""], ["Algues", "Trachéophytes", "Bryophytes"], [""], [""], [""])
  const FONGE := TaxonGroupe("Fonge", "Fungi", [""], ["Ascomycètes", "Basidomycètes"], [""], [""], [""])
  const AMPHIBIENS := TaxonGroupe("Amphibien", "Animalia", [""], ["Chordés"], ["Amphibiens"], [""], [""])
  const REPTILES := TaxonGroupe("Reptile", "Animalia", [""], ["Chordés"], ["Reptiles"], [""], [""])
  const OISEAUX := TaxonGroupe("Avifaune", "Animalia", [""], ["Chordés"], ["Oiseaux"], [""], [""])
  const MAMMIFERES := TaxonGroupe("Mammifere", "Animalia",
    ["Afrosoricida", "Carnivora", "Cetartiodactyla", "Diprotodontia", "Eulipotyphla", "Lagomorpha",
     "Perissodactyla", "Proboscidea", "Rodentia"],
    ["Chordés"], ["Mammifères"], [""], [""])
  const CHIROPTERES := TaxonGroupe("Chiroptere", "Animalia", ["Chiroptera"], ["Chordés"], ["Mammifères"], ["Autres"], [""])
  const LEPIDOPTERES := TaxonGroupe("Lepidoptere", "Animalia", [""], ["Arthropodes"], ["Insectes"], ["Lépidoptères"],
    ["Papilionidae", "Pieridae", "Nymphalidae", "Satyrinae", "Lycaenidae", "Hesperiidae", "Zygaenidae"])
  const ODONATES := TaxonGroupe("Odonate", "Animalia", [""], ["Arthropodes"], ["Insectes"], ["Odonates"], [""])
  const COLEOPTERES := TaxonGroupe("Coleoptere", "Animalia", [""], ["Arthropodes"], ["Insectes"], ["Coléoptères"],
    ["Carabidae", "Hydrophilidae", "Sphaeritidae", "Histeridae",
     "Ptiliidae", "Agyrtidae", "Leiodidae", "Staphylinidae",
     "Lucanidae", "Trogidae", "Scarabaeidae", "Eucinetidae",
     "Clambidae", "Scirtidae", "Buprestidae", "Elmidae", "Dryopidae",
     "Cerophytidae", "Eucnemidae", "Throscidae", "Elateridae",
     "Lycidae", "Cantharidae", "Derodontidae", "Nosodendridae",
     "Dermestidae", "Endecatomidae", "Bostrichidae", "Ptinidae",
     "Lymexylidae", "Phloiophilidae", "Trogossitidae", "Thanerocleridae",
     "Cleridae", "Acanthocnemidae", "Melyridae", "Malachiidae",
     "Sphindidae", "Nitidulidae", "Monotomidae", "Phloeostichidae",
     "Silvanidae", "Cucujidae", "Laemophloeidae", "Cryptophagidae",
     "Erotylidae", "Biphyllidae", "Bothrideridae", "Cerylonidae",
     "Alexiidae", "Endomychidae", "Corylophidae", "Latridiidae",
     "Mycetophagidae", "Ciidae", "Tetratomidae", "Melandryidae",
     "Zopheridae", "Mordellidae", "Tenebrionidae", "Prostomidae",
     "Oedemeridae", "Pythidae", "Pyrochroidae", "Salpingidae",
     "Aderidae", "Scraptiidae", "Cerambycidae", "Chrysomelidae",
     "Anthribidae", "Brentidae", "Dryophthoridae", "Curculionidae"])
  const ORTHOPTERES := TaxonGroupe("Orthoptere", "Animalia", [""], ["Arthropodes"], ["Insectes"], ["Orthoptères"],
    ["Acrididae", "Gryllidae", "Gryllotalpidae", "Mogoplistida",
     "Myrmecophilidae", "Pamphagidae", "Phalangopsidae",
     "Pyrgomorphidae", "Rhaphidophoridae", "Tetrigidae",
     "Tettigoniidae", "Tridactylidae", "Trigonidiidae"])
  const EPHEMERES := TaxonGroupe("Ephemere", "Animalia", ["Ephemeroptera"], ["Arthropodes"], ["Insectes"], ["Autres"], [""])
  const ARAIGNEES := TaxonGroupe("Araignee", "Animalia", [""], ["Arthropodes"], ["Arachnides"],
    ["Araignées", "Opilions", "Pseudoscorpions", "Scorpions"], [""])
  const MOLLUSQUES := TaxonGroupe("Mollusque", "Animalia", [""], ["Mollusques"], [""], [""], [""])
  const CRUSTACES := TaxonGroupe("Crustace", "Animalia", [""], ["Arthropodes"], ["Crustacés"], [""], [""])
  const POISSONS := TaxonGroupe("Poisson", "Animalia", [""], ["Chordés"], ["Poissons"], [""], [""])

  const TAXONS: seq<TaxonGroupe> := [
    FLORE, FONGE, AMPHIBIENS, REPTILES,
    OISEAUX, MAMMIFERES, CHIROPTERES, LEPIDOPTERES,
    ODONATES, COLEOPTERES, ORTHOPTERES, EPHEMERES,
    ARAIGNEES, MOLLUSQUES, CRUSTACES, POISSONS]

  function TitleOf(g: TaxonGroupe): string {
    g.title
  }

  const TAXON_TITLES: seq<string> := Map(TAXONS, TitleOf)

  /** The last space-separated word of a layer name, Python's `name.split(" ")[-1]`. */
  function LastWord(name: string): (w: string)
    ensures ' ' !in w
    ensures EndsWith(name, w)
  {
    var parts := SplitOn(name, " ");
    SplitLastIsSuffix(name, " ");
    NoOccurrenceNoChar(parts[|parts| - 1], ' ');
    parts[|parts| - 1]
  }

  /**
   * `get_taxon_titles` once the layer names are listed: no layers gives none; without a prefix
   * every layer name is returned; otherwise the last word of each name with the prefix, kept when
   * it is a group title, in layer order.
   */
  function GetTaxonTitles(layers: seq<string>, prefix: Option<string>): (r: seq<string>)
    ensures layers == [] ==> r == []
    ensures prefix.None? ==> r == layers
    ensures prefix.Some? ==> forall i :: 0 <= i < |r| ==> r[i] in TAXON_TITLES
    ensures prefix.Some? ==> forall i :: 0 <= i < |r| ==>
      exists j :: 0 <= j < |layers| && StartsWith(layers[j], prefix.value) && LastWord(layers[j]) == r[i]
    ensures prefix.Some? ==> forall j :: (0 <= j < |layers| && StartsWith(layers[j], prefix.value) &&
      LastWord(layers[j]) in TAXON_TITLES) ==> LastWord(layers[j]) in r
  {
    if layers == [] then []
    else if prefix.None? then layers
    else
      var withPrefix := Filter(layers, (l: string) => StartsWith(l, prefix.value));
      var titles := Map(withPrefix, LastWord);
      assert forall k :: 0 <= k < |titles| ==> exists j :: 0 <= j < |layers| && layers[j] == withPrefix[k];
      Filter(titles, (t: string) => t in TAXON_TITLES)
  }

  /**
   * With a prefix, the titles follow the layers one by one: one more layer adds its last word at
   * the end exactly when the layer has the prefix and that word is a group title. Order and
   * repetitions of the layer list are therefore kept.
   */
  lemma {:induction false} GetTaxonTitlesSnoc(layers: seq<string>, layer: string, prefix: string)
    ensures GetTaxonTitles(layers + [layer], Some(prefix)) ==
      GetTaxonTitles(layers, Some(prefix)) +
      (if StartsWith(layer, prefix) && LastWord(layer) in TAXON_TITLES then [LastWord(layer)] else [])
  {
    var hasPrefix := (l: string) => StartsWith(l, prefix);
    var isTitle := (t: string) => t in TAXON_TITLES;
    SelectSnoc(layers, layer, hasPrefix, LastWord, isTitle);
    if layers == [] {
      assert layers + [layer] == [layer];
    }
  }

  /** Filtering, mapping and filtering again one more element appends its image exactly when it passes both filters. */
  lemma SelectSnoc<T, U>(xs: seq<T>, x: T, p: T -> bool, f: T -> U, q: U -> bool)
    ensures Filter(Map(Filter(xs + [x], p), f), q) ==
      Filter(Map(Filter(xs, p), f), q) + (if p(x) && q(f(x)) then [f(x)] else [])
  {
    FilterConcat(xs, [x], p);
    MapConcat(Filter(xs, p), Filter([x], p), f);
    FilterConcat(Map(Filter(xs, p), f), Map(Filter([x], p), f), q);
  }

  /** `get_taxon_from_titles`: the catalogue groups whose title is listed, in catalogue order. */
  function GetTaxonFromTitles(titles: seq<string>): (r: seq<TaxonGroupe>)
    ensures IsSubseq(r, TAXONS)
    ensures forall i :: 0 <= i < |r| ==> r[i].title in titles
    ensures forall i :: 0 <= i < |TAXONS| && TAXONS[i].title in titles ==> TAXONS[i] in r
  {
    FilterIsSubseq(TAXONS, (g: TaxonGroupe) => g.title in titles);
    Filter(TAXONS, (g: TaxonGroupe) => g.title in titles)
  }

  /** The sixteen catalogue titles, in catalogue order. */
  const TITLE_LIST: seq<string> := ["Flore", "Fonge", "Amphibien", "Reptile", "Avifaune", "Mammifere",
    "Chiroptere", "Lepidoptere", "Odonate", "Coleoptere", "Orthoptere", "Ephemere", "Araignee",
    "Mollusque", "Crustace", "Poisson"]

  lemma TitleListDistinct()
    ensures Distinct(TITLE_LIST)
  {
  }

  lemma TitleListNoX()
    ensures forall k :: 0 <= k < |TITLE_LIST| ==> 'x' !in TITLE_LIST[k]
  {
  }

  /** No catalogue title contains "Oiseaux", the word the bird branches of the status code look for. */
  lemma NoTitleIsBird()
    ensures forall i :: 0 <= i < |TAXON_TITLES| ==> !Contains(TAXON_TITLES[i], "Oiseaux")
    ensures "Oiseaux" !in TAXON_TITLES
  {
    TaxonTitles();
    TitleListNoX();
    forall i | 0 <= i < |TAXON_TITLES|
      ensures !Contains(TAXON_TITLES[i], "Oiseaux")
    {
      MissingCharNotContains(TAXON_TITLES[i], "Oiseaux", 'x');
    }
  }

  /** The catalogue's titles are the sixteen titles, pairwise distinct. */
  lemma TaxonTitles()
    ensures TAXON_TITLES == TITLE_LIST
    ensures Distinct(TAXON_TITLES)
  {
    assert TAXON_TITLES == TITLE_LIST;
    TitleListDistinct();
  }

  /** The groups returned for a list of titles carry pairwise distinct titles: one group per title. */
  lemma TaxonFromTitlesDistinct(titles: seq<string>)
    ensures Distinct(Map(GetTaxonFromTitles(titles), TitleOf))
  {
    TaxonTitles();
    FilterMap(TAXONS, TitleOf, (t: string) => t in titles, (g: TaxonGroupe) => g.title in titles);
    FilterDistinct(TAXON_TITLES, (t: string) => t in titles);
  }

  /** At most one of flora, fauna and fungi holds of a group. */
  lemma OneKingdom(g: TaxonGroupe)
    ensures !(g.IsFlore() && g.IsFaune()) && !(g.IsFlore() && g.IsFungi()) && !(g.IsFaune() && g.IsFungi())
  {
  }
}
