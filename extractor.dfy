/**
 * The status text of one status record: up to four fragments (location, status code, bird
 * remarks, annex or article) joined with " : ", or "No Data" when none is present; and the
 * splitter that picks the parts of a joined status mentioning one keyword.
 */
module StatusExtractor {
  import opened Wrappers
  import opened Seqs
  import opened Strings
  import opened Numbers
  import opened Tables

  const SEPARATOR := " : "
  const NO_DATA := "No Data"

  /** The remark words of the bird red list, in the order they are reported. */
  const OISEAUX_KEYWORDS: seq<string> := ["Nicheur", "Hivernant", "Visiteur"]

  /** The status ids whose status code is replaced: by the status name for the last two, by nothing for the others. */
  const OVERRIDE_IDS: seq<string> := ["ZDET", "DO", "DH", "PN", "PR", "PD", "PAPNAT", "PNA"]

  /** `row.get(key, "")`: a field the record lacks reads as the empty string. */
  function Field(r: Row, key: string): Cell {
    if key in r then r[key] else Str("")
  }

  /** Python truthiness of a cell: the empty string and 0 are false; a missing value (NaN) is true. */
  predicate Truthy(c: Cell) {
    match c
    case Empty => true
    case Str(s) => s != ""
    case Int(n) => n != 0
  }

  /** The location fragment: the location name for a department-level record or a ZDET/REGLLUTTE status. */
  function LocationFragment(r: Row, statusId: string): Cell {
    if Field(r, "locationAdminLevel") == Str("Département") || statusId in ["ZDET", "REGLLUTTE"] then
      Field(r, "locationName")
    else Str("")
  }

  /** The status-code fragment: the code, the status name for PAPNAT and PNA, nothing for the other overrides. */
  function CodeFragment(r: Row, statusId: string): Cell {
    if statusId !in OVERRIDE_IDS then Field(r, "statusCode")
    else if statusId in ["PAPNAT", "PNA"] then Field(r, "statusName")
    else Str("")
  }

  /** The bird national red list: the only status whose records get a keyword fragment. */
  predicate IsBirdRedList(statusId: string, currentTaxon: string) {
    Contains(currentTaxon, "Oiseaux") && statusId == "LRN"
  }

  /**
   * The keyword fragment: for the national red list of a bird title, the ", "-join of the keywords
   * occurring in the truthy remarks. The test `word in remarks` runs once per keyword, so remarks
   * that are truthy but no string raise TypeError only when there is some keyword to test.
   */
  function KeywordFragment(r: Row, statusId: string, currentTaxon: string, keywords: seq<string>): (f: Result<Cell, Error>)
    ensures f.Ok? ==> f.value.Str?
    ensures !IsBirdRedList(statusId, currentTaxon) ==> f == Ok(Str(""))
    ensures IsBirdRedList(statusId, currentTaxon) && !Truthy(Field(r, "statusRemarks")) ==> f == Ok(Str(""))
    ensures IsBirdRedList(statusId, currentTaxon) && Field(r, "statusRemarks").Str? && Field(r, "statusRemarks").s != "" ==>
      f == Ok(Str(Join(KeywordsIn(Field(r, "statusRemarks").s, keywords), ", ")))
    ensures f.Err? <==>
      (IsBirdRedList(statusId, currentTaxon) && Truthy(Field(r, "statusRemarks")) && !Field(r, "statusRemarks").Str? && keywords != [])
    ensures f.Err? ==> f.error.TypeError?
  {
    if IsBirdRedList(statusId, currentTaxon) then
      var remarks := Field(r, "statusRemarks");
      if !Truthy(remarks) then Ok(Str(""))
      else if remarks.Str? then Ok(Str(Join(KeywordsIn(remarks.s, keywords), ", ")))
      else if keywords == [] then Ok(Str(""))
      else if remarks.Int? then Err(TypeError("argument of type 'int' is not iterable"))
      else Err(TypeError("argument of type 'float' is not iterable"))
    else Ok(Str(""))
  }

  /** The keywords occurring in the remarks, in keyword order. */
  function KeywordsIn(remarks: string, keywords: seq<string>): seq<string> {
    Filter(keywords, (w: string) => Contains(remarks, w))
  }

  predicate IsRomanChar(c: char) {
    c in "IVXLCDM"
  }

  predicate IsRoman(s: string) {
    |s| > 0 && forall i :: 0 <= i < |s| ==> IsRomanChar(s[i])
  }

  /** Digits, optionally followed by "er" (`\d+(er)?`). */
  predicate IsOrdinal(s: string) {
    IsDigits(s) || (|s| > 2 && s[|s| - 2..] == "er" && IsDigits(s[..|s| - 2]))
  }

  /** Roman numerals, a slash, digits (`[IVXLCDM]+/\d+`). */
  predicate IsRomanSlashNumber(s: string) {
    '/' in s && IsRoman(s[..FirstIndexOf(s, '/')]) && IsDigits(s[FirstIndexOf(s, '/') + 1..])
  }

  /** A whole annex or article token, one of the five alternatives of the status-name pattern. */
  predicate IsToken(t: string) {
    || (StartsWith(t, "Annexe ") && (IsRoman(t[7..]) || IsOrdinal(t[7..]) || IsRomanSlashNumber(t[7..])))
    || (StartsWith(t, "Article ") && (IsRoman(t[8..]) || IsOrdinal(t[8..])))
  }

  /** The text the pattern's `$` can close on: a single trailing newline is not part of it. */
  function Subject(s: string): (r: string)
    ensures r <= s && |s| - 1 <= |r|
  {
    if |s| > 0 && s[|s| - 1] == '\n' then s[..|s| - 1] else s
  }

  /** The suffix of `s` starting at `j` is a whole token. */
  predicate TokenAt(s: string, j: int) {
    0 <= j <= |s| && IsToken(s[j..])
  }

  /** The leftmost position from `i` on where a token suffix starts. */
  function TokenStart(s: string, i: nat): (r: Option<nat>)
    requires i <= |s|
    ensures r.Some? ==> i <= r.value <= |s| && TokenAt(s, r.value)
    ensures r.Some? ==> forall j :: i <= j < r.value ==> !TokenAt(s, j)
    ensures r.None? ==> forall j :: i <= j ==> !TokenAt(s, j)
    decreases |s| - i
  {
    if TokenAt(s, i) then Some(i)
    else if i == |s| then None
    else TokenStart(s, i + 1)
  }

  /** The longest token that ends `s`, found at the leftmost start whose suffix is a token; "" when there is none. */
  function LongestTokenSuffix(s: string): (f: string)
    ensures f != "" ==> IsToken(f) && EndsWith(s, f)
    ensures f != "" ==> forall j :: TokenAt(s, j) ==> |s| - j <= |f|
    ensures f == "" ==> forall j :: !TokenAt(s, j)
  {
    match TokenStart(s, 0)
    case Some(j) =>
      assert s[|s| - |s[j..]|..] == s[j..];
      s[j..]
    case None => ""
  }

  /**
   * The annex/article fragment: `re.search(…$)` on the status name finds the leftmost start whose
   * suffix is a token, that is the longest token that ends the name.
   */
  function AnnexFragment(r: Row): (f: string)
    ensures f != "" ==> Field(r, "statusName").Str? && IsToken(f) && EndsWith(Subject(Field(r, "statusName").s), f)
    ensures f != "" ==> var s := Subject(Field(r, "statusName").s);
      forall j :: TokenAt(s, j) ==> |s| - j <= |f|
    ensures f == "" && Field(r, "statusName").Str? ==> var s := Subject(Field(r, "statusName").s);
      forall j :: !TokenAt(s, j)
  {
    match Field(r, "statusName")
    case Str(name) => LongestTokenSuffix(Subject(name))
    case _ => ""
  }

  /** The strings among the truthy fragments. */
  function PresentParts(fragments: seq<Cell>): seq<string> {
    Map(Filter(fragments, Truthy), (c: Cell) => if c.Str? then c.s else "")
  }

  /** `" : ".join(filter(None, fragments))`: a truthy fragment that is no string raises TypeError. */
  function JoinFragments(fragments: seq<Cell>): (r: Result<string, Error>)
    ensures r.Ok? <==> forall i :: 0 <= i < |fragments| && Truthy(fragments[i]) ==> fragments[i].Str?
    ensures r.Err? ==> r.error.TypeError?
    ensures r.Ok? ==> r.value == Join(PresentParts(fragments), SEPARATOR)
  {
    var kept := Filter(fragments, Truthy);
    if forall i :: 0 <= i < |kept| ==> kept[i].Str? then Ok(Join(PresentParts(fragments), SEPARATOR))
    else Err(TypeError("sequence item: expected str instance"))
  }

  /** The four fragments in the order they are joined. */
  function Fragments(r: Row, statusId: string, keyword: Cell): seq<Cell> {
    [LocationFragment(r, statusId), CodeFragment(r, statusId), keyword, Str(AnnexFragment(r))]
  }

  /** `extract_status_code`: the joined fragments, or "No Data" when the join is empty. */
  function ExtractStatusCode(r: Row, statusId: string, currentTaxon: string, keywords: seq<string>): (res: Result<string, Error>)
    ensures res.Ok? ==> res.value != ""
    ensures res.Err? <==> (KeywordFragment(r, statusId, currentTaxon, keywords).Err? ||
      exists i :: 0 <= i < 4 && var fs := Fragments(r, statusId, KeywordFragment(r, statusId, currentTaxon, keywords).value);
        Truthy(fs[i]) && !fs[i].Str?)
    ensures res.Err? ==> res.error.TypeError?
  {
    var keyword :- KeywordFragment(r, statusId, currentTaxon, keywords);
    var joined :- JoinFragments(Fragments(r, statusId, keyword));
    if joined == "" then Ok(NO_DATA) else Ok(joined)
  }

  /** Joining non-empty parts gives the empty string only when there is no part. */
  lemma JoinEmpty(parts: seq<string>, sep: string)
    requires forall i :: 0 <= i < |parts| ==> parts[i] != ""
    ensures Join(parts, sep) == "" <==> parts == []
  {
    if |parts| > 1 {
      assert |Join(parts, sep)| >= |parts[0]|;
    }
  }

  /** The present parts are the strings of the truthy fragments, in order, none of them empty. */
  lemma PresentPartsNonEmpty(fragments: seq<Cell>)
    requires forall i :: 0 <= i < |fragments| && Truthy(fragments[i]) ==> fragments[i].Str?
    ensures forall i :: 0 <= i < |PresentParts(fragments)| ==> PresentParts(fragments)[i] != ""
    ensures PresentParts(fragments) == [] <==> forall i :: 0 <= i < |fragments| ==> !Truthy(fragments[i])
  {
    var kept := Filter(fragments, Truthy);
    if forall i :: 0 <= i < |fragments| ==> !Truthy(fragments[i]) {
      FilterNone(fragments, Truthy);
    } else {
      var i :| 0 <= i < |fragments| && Truthy(fragments[i]);
      assert fragments[i] in kept;
    }
  }

  /**
   * "No Data" comes out when all four fragments are absent; otherwise the result is the join of
   * the present fragments, in the order location, status code, keywords, annex.
   */
  lemma ExtractStatusCodeMeaning(r: Row, statusId: string, currentTaxon: string, keywords: seq<string>)
    requires ExtractStatusCode(r, statusId, currentTaxon, keywords).Ok?
    ensures var fs := Fragments(r, statusId, KeywordFragment(r, statusId, currentTaxon, keywords).value);
      var res := ExtractStatusCode(r, statusId, currentTaxon, keywords).value;
      && ((forall i :: 0 <= i < 4 ==> !Truthy(fs[i])) ==> res == NO_DATA)
      && (!(forall i :: 0 <= i < 4 ==> !Truthy(fs[i])) ==> res == Join(PresentParts(fs), SEPARATOR))
  {
    var fs := Fragments(r, statusId, KeywordFragment(r, statusId, currentTaxon, keywords).value);
    PresentPartsNonEmpty(fs);
    JoinEmpty(PresentParts(fs), SEPARATOR);
  }

  /**
   * When no fragment holds a colon, splitting the result on " : " gives back the present
   * fragments, in order.
   */
  lemma ExtractStatusCodeSplits(r: Row, statusId: string, currentTaxon: string, keywords: seq<string>)
    requires ExtractStatusCode(r, statusId, currentTaxon, keywords).Ok?
    requires var fs := Fragments(r, statusId, KeywordFragment(r, statusId, currentTaxon, keywords).value);
      exists i :: 0 <= i < 4 && Truthy(fs[i])
    requires var fs := Fragments(r, statusId, KeywordFragment(r, statusId, currentTaxon, keywords).value);
      forall i :: 0 <= i < 4 && fs[i].Str? ==> ':' !in fs[i].s
    ensures var fs := Fragments(r, statusId, KeywordFragment(r, statusId, currentTaxon, keywords).value);
      SplitOn(ExtractStatusCode(r, statusId, currentTaxon, keywords).value, SEPARATOR) == PresentParts(fs)
  {
    var fs := Fragments(r, statusId, KeywordFragment(r, statusId, currentTaxon, keywords).value);
    ExtractStatusCodeMeaning(r, statusId, currentTaxon, keywords);
    PresentPartsNonEmpty(fs);
    var parts := PresentParts(fs);
    forall i | 0 <= i < |parts|
      ensures ':' !in parts[i]
    {
      var kept := Filter(fs, Truthy);
      assert kept[i] in fs;
    }
    assert ':' in SEPARATOR;
    SplitJoin(parts, SEPARATOR, ':');
  }

  /**
   * The keyword fragment lists the keywords found in the remarks, in keyword order: when no keyword
   * holds a comma, splitting it on ", " gives back exactly those keywords.
   */
  lemma KeywordFragmentSplits(r: Row, statusId: string, currentTaxon: string, keywords: seq<string>)
    requires Contains(currentTaxon, "Oiseaux") && statusId == "LRN"
    requires Field(r, "statusRemarks").Str? && Field(r, "statusRemarks").s != ""
    requires forall i :: 0 <= i < |keywords| ==> ',' !in keywords[i]
    requires exists i :: 0 <= i < |keywords| && Contains(Field(r, "statusRemarks").s, keywords[i])
    ensures KeywordFragment(r, statusId, currentTaxon, keywords).Ok?
    ensures SplitOn(KeywordFragment(r, statusId, currentTaxon, keywords).value.s, ", ")
         == KeywordsIn(Field(r, "statusRemarks").s, keywords)
  {
    var remarks := Field(r, "statusRemarks").s;
    var found := KeywordsIn(remarks, keywords);
    var i :| 0 <= i < |keywords| && Contains(remarks, keywords[i]);
    assert keywords[i] in found;
    assert ',' in ", ";
    SplitJoin(found, ", ", ',');
  }

  /**
   * With the plug-in's three keywords, remarks naming breeding and wintering birds but no visitors
   * give the fragment "Nicheur, Hivernant".
   */
  lemma BirdRemarksExample(r: Row, remarks: string)
    requires Field(r, "statusRemarks") == Str(remarks)
    requires Contains(remarks, "Nicheur") && Contains(remarks, "Hivernant") && !Contains(remarks, "Visiteur")
    ensures KeywordFragment(r, "LRN", "Oiseaux", OISEAUX_KEYWORDS) == Ok(Str("Nicheur, Hivernant"))
  {
    BirdKeywords(remarks);
    BirdJoin();
    assert remarks != "" by {
      ContainsOccurs(remarks, "Nicheur");
    }
    assert StartsWith("Oiseaux", "Oiseaux");
  }

  lemma BirdKeywords(remarks: string)
    requires Contains(remarks, "Nicheur") && Contains(remarks, "Hivernant") && !Contains(remarks, "Visiteur")
    ensures KeywordsIn(remarks, OISEAUX_KEYWORDS) == ["Nicheur", "Hivernant"]
  {
    var found := (w: string) => Contains(remarks, w);
    assert OISEAUX_KEYWORDS == ["Nicheur"] + (["Hivernant"] + ["Visiteur"]);
    FilterConcat(["Nicheur"], ["Hivernant"] + ["Visiteur"], found);
    FilterConcat(["Hivernant"], ["Visiteur"], found);
  }

  lemma BirdJoin()
    ensures Join(["Nicheur", "Hivernant"], ", ") == "Nicheur, Hivernant"
  {
    assert ["Nicheur", "Hivernant"][1..] == ["Hivernant"];
    assert "Nicheur" + ", " + "Hivernant" == "Nicheur, Hivernant";
  }

  /**
   * `filter_by_keyword(lrn, keyword)`: a missing value gives ""; otherwise the ";"-parts that contain
   * the keyword, each with every " : keyword" removed, joined again with ";".
   */
  function FilterByKeyword(lrn: Cell, keyword: string): (r: Result<string, Error>)
    ensures lrn.Empty? ==> r == Ok("")
    ensures lrn.Str? ==> r.Ok?
  {
    match lrn
    case Empty => Ok("")
    case Int(_) => Err(TypeError("'int' object has no attribute 'split'"))
    case Str(s) =>
      var kept := Filter(SplitOn(s, ";"), (portion: string) => Contains(portion, keyword));
      Ok(Join(Map(kept, (portion: string) => ReplaceAll(portion, " : " + keyword, "")), ";"))
  }

  /**
   * The result's ";"-parts are, in order, the input's parts that contain the keyword, each with
   * " : keyword" removed: the parts hold no ";" to begin with, and removing never adds one.
   */
  lemma FilterByKeywordParts(s: string, keyword: string)
    requires exists p :: p in SplitOn(s, ";") && Contains(p, keyword)
    ensures var kept := Filter(SplitOn(s, ";"), (portion: string) => Contains(portion, keyword));
      SplitOn(FilterByKeyword(Str(s), keyword).value, ";")
        == Map(kept, (portion: string) => ReplaceAll(portion, " : " + keyword, ""))
  {
    var parts := SplitOn(s, ";");
    var kept := Filter(parts, (portion: string) => Contains(portion, keyword));
    var cleaned := Map(kept, (portion: string) => ReplaceAll(portion, " : " + keyword, ""));
    var p :| p in parts && Contains(p, keyword);
    assert p in kept;
    forall i | 0 <= i < |cleaned|
      ensures ';' !in cleaned[i]
    {
      assert kept[i] in parts;
      var k :| 0 <= k < |parts| && parts[k] == kept[i];
      NoOccurrenceNoChar(parts[k], ';');
      ReplaceKeepsOut(kept[i], " : " + keyword, "", ';');
    }
    assert ';' in ";";
    SplitJoin(cleaned, ";", ';');
  }
}
