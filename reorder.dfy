/**
 * The column layout of a saved status table: first the columns that belong to no status type,
 * in their order, then the columns of each status type in a fixed order of types; inside one
 * type's group its own column comes first, then its `sourceId…` columns, then its `source…`
 * columns, equal ranks keeping their order (Python's `sorted` is stable).
 */
module ColumnOrder {
  import opened Wrappers
  import opened Seqs
  import opened Strings
  import opened Tables
  import opened StatusTypes
  import opened Buckets

  /** The status identifiers in the order their groups are laid out. */
  const ORDER_IDS: seq<string> := ["DH", "DO", "PN", "PR", "PD", "LRN", "LRR", "PNA", "PAPNAT", "ZDET", "REGLLUTTE"]

  /** The number of positions a column can take: the base group, then four ranks per status group. */
  const POSITIONS: nat := 1 + 4 * |ORDER_IDS|

  /** `col` belongs to the group of `status`: the status column itself, or a name with one of its source prefixes. */
  predicate InGroup(col: string, status: string) {
    col == status || StartsWith(col, "source_" + status) || StartsWith(col, "sourceId_" + status)
  }

  /** The first group, from index `k` on, that `col` belongs to: the inner loop stops at the first match. */
  function GroupFrom(col: string, k: nat): (g: Option<nat>)
    ensures g.Some? ==> k <= g.value < |ORDER_IDS| && InGroup(col, ORDER_IDS[g.value])
    ensures g.Some? ==> forall m :: k <= m < g.value ==> !InGroup(col, ORDER_IDS[m])
    ensures g.None? ==> forall m :: k <= m < |ORDER_IDS| ==> !InGroup(col, ORDER_IDS[m])
    decreases |ORDER_IDS| - k
  {
    if k >= |ORDER_IDS| then None
    else if InGroup(col, ORDER_IDS[k]) then Some(k)
    else GroupFrom(col, k + 1)
  }

  function GroupOf(col: string): Option<nat> {
    GroupFrom(col, 0)
  }

  function IsBase(col: string): bool {
    GroupOf(col).None?
  }

  /** The sort key of a column inside the group of `status`, compared in descending order. */
  function SortKey(col: string, status: string): (bool, bool, bool) {
    (col == status, StartsWith(col, "sourceId"), StartsWith(col, "source"))
  }

  /** `a` comes before `b` when the keys are sorted with `reverse=True`. */
  predicate KeyAbove(a: (bool, bool, bool), b: (bool, bool, bool)) {
    (a.0 && !b.0) || (a.0 == b.0 && ((a.1 && !b.1) || (a.1 == b.1 && a.2 && !b.2)))
  }

  /** The rank of a column inside the group of `status`: 0 for the status column, 1 for `sourceId…`, 2 for `source…`. */
  function Rank(col: string, status: string): nat {
    if col == status then 0
    else if StartsWith(col, "sourceId") then 1
    else if StartsWith(col, "source") then 2
    else 3
  }

  /** The rank of a column inside the group of index `k`. */
  function RankOf(col: string, k: nat): (r: nat)
    ensures r < 4
  {
    if k < |ORDER_IDS| then Rank(col, ORDER_IDS[k]) else 3
  }

  /** `sorted(grouped_columns[status], key=SortKey, reverse=True)` for the group of index `k`. */
  function SortGroup(group: seq<string>, k: nat): seq<string> {
    SortClass(group, RankOf, k)
  }

  /** The columns of every group, by the group's index in `ORDER_IDS`, each in its original order. */
  function Groups(cols: seq<string>): (gs: seq<seq<string>>)
    ensures |gs| == |ORDER_IDS|
  {
    Classes(cols, GroupOf, |ORDER_IDS|)
  }

  /** The order `reorder_columns` gives to the column names `cols`. */
  function OrderedColumns(cols: seq<string>): seq<string> {
    Layout(cols, GroupOf, RankOf, |ORDER_IDS|)
  }

  /** Classifying one more column adds it to the base group or to the end of its own group. */
  lemma ClassifyNext(s: seq<string>, col: string)
    ensures Keep(s + [col], Unclassed(GroupOf)) == Keep(s, Unclassed(GroupOf)) + (if GroupOf(col).None? then [col] else [])
    ensures GroupOf(col).None? ==> Groups(s + [col]) == Groups(s)
    ensures GroupOf(col).Some? ==> Groups(s + [col]) == Groups(s)[GroupOf(col).value := Groups(s)[GroupOf(col).value] + [col]]
  {
    KeepConcat(s, [col], Unclassed(GroupOf));
    KeepOne(col, Unclassed(GroupOf));
    ClassesSnoc(s, col, GroupOf, |ORDER_IDS|);
  }

  /** The inner loop of `reorder_columns`: the first status whose group `col` belongs to, if any. */
  method MatchGroup(col: string) returns (g: Option<nat>)
    ensures g == GroupOf(col)
  {
    var k := 0;
    while k < |ORDER_IDS|
      invariant 0 <= k <= |ORDER_IDS|
      invariant GroupFrom(col, k) == GroupOf(col)
    {
      if InGroup(col, ORDER_IDS[k]) {
        return Some(k);
      }
      k := k + 1;
    }
    return None;
  }

  /** The first loop of `reorder_columns`: the base columns and the columns of each group, in their order. */
  method ClassifyColumns(cols: seq<string>) returns (base: seq<string>, grouped: seq<seq<string>>)
    ensures base == Keep(cols, Unclassed(GroupOf))
    ensures grouped == Groups(cols)
  {
    base := [];
    grouped := seq(|ORDER_IDS|, _ => []);
    assert grouped == Groups([]);
    for n := 0 to |cols|
      invariant base == Keep(cols[..n], Unclassed(GroupOf))
      invariant grouped == Groups(cols[..n])
    {
      var col := cols[n];
      assert cols[..n + 1] == cols[..n] + [col];
      ClassifyNext(cols[..n], col);
      var g := MatchGroup(col);
      if g.Some? {
        grouped := grouped[g.value := grouped[g.value] + [col]];
      } else {
        base := base + [col];
      }
    }
    assert cols[..|cols|] == cols;
  }

  /** `reorder_columns` on the names: classify the columns, then lay out each group sorted by its key. */
  method OrderColumns(cols: seq<string>) returns (ordered: seq<string>)
    ensures ordered == OrderedColumns(cols)
  {
    var base, grouped := ClassifyColumns(cols);
    ordered := base;
    for k := 0 to |ORDER_IDS|
      invariant ordered == base + LayClasses(grouped, RankOf, k)
    {
      ordered := ordered + SortGroup(grouped[k], k);
    }
  }

  /** The position of a column in the layout: 0 for the base group, then four ranks per status group. */
  const Position: string -> nat := Nested(GroupOf, RankOf)

  /** Every column has one of the `POSITIONS` positions. */
  lemma PositionsBounded()
    ensures forall col :: Position(col) < POSITIONS
  {
    forall col ensures Position(col) < POSITIONS {
      match GroupOf(col)
      case None =>
      case Some(k) => assert k < |ORDER_IDS| && RankOf(col, k) < 4;
    }
  }

  /** No status identifier starts with "source", so a status column never shares a rank with a source column. */
  lemma IdsAreNotSources()
    ensures forall k :: 0 <= k < |ORDER_IDS| ==>
      !StartsWith(ORDER_IDS[k], "source") && !StartsWith(ORDER_IDS[k], "sourceId")
  {
    forall k | 0 <= k < |ORDER_IDS|
      ensures !StartsWith(ORDER_IDS[k], "source") && !StartsWith(ORDER_IDS[k], "sourceId")
    {
      assert ORDER_IDS[k][0] != 's';
    }
  }

  /** Ranks order the columns of a group exactly as the descending sort key does. */
  lemma RankFollowsKey(a: string, b: string, k: nat)
    requires k < |ORDER_IDS|
    ensures Rank(a, ORDER_IDS[k]) < Rank(b, ORDER_IDS[k]) <==> KeyAbove(SortKey(a, ORDER_IDS[k]), SortKey(b, ORDER_IDS[k]))
    ensures Rank(a, ORDER_IDS[k]) == Rank(b, ORDER_IDS[k]) <==> SortKey(a, ORDER_IDS[k]) == SortKey(b, ORDER_IDS[k])
  {
    IdsAreNotSources();
    forall c: string | StartsWith(c, "sourceId")
      ensures StartsWith(c, "source")
    {
      assert c[..6] == c[..8][..6];
    }
  }

  /** The layout is the columns stably sorted by position. */
  lemma OrderedIsSpan(cols: seq<string>)
    ensures OrderedColumns(cols) == Span(cols, Position, POSITIONS)
  {
    LayoutIsSpan(cols, GroupOf, RankOf, |ORDER_IDS|);
  }

  /**
   * Reordering keeps every column name, as often as it occurs; the layout is sorted by position
   * (base columns first, groups in the order of `ORDER_IDS`, ranks in order inside a group);
   * and columns of equal position keep their original order.
   */
  lemma OrderedSortsStably(cols: seq<string>)
    ensures multiset(OrderedColumns(cols)) == multiset(cols)
    ensures Distinct(cols) ==> Distinct(OrderedColumns(cols))
    ensures forall i, j :: 0 <= i < j < |OrderedColumns(cols)| ==>
      Position(OrderedColumns(cols)[i]) <= Position(OrderedColumns(cols)[j])
    ensures forall p: nat :: Keep(OrderedColumns(cols), At(Position, p)) == Keep(cols, At(Position, p))
  {
    OrderedIsSpan(cols);
    PositionsBounded();
    SpanSorts(cols, Position, POSITIONS);
  }

  /** Reordering columns that are already in order changes nothing. */
  lemma OrderedIdempotent(cols: seq<string>)
    ensures OrderedColumns(OrderedColumns(cols)) == OrderedColumns(cols)
  {
    OrderedIsSpan(cols);
    OrderedIsSpan(OrderedColumns(cols));
    PositionsBounded();
    SpanIdempotent(cols, Position, POSITIONS);
  }

  /**
   * Matching by prefix puts every `source_PNA…` column into the group of PN, the first
   * identifier that is a prefix of it, and never into the group of PNA.
   */
  lemma PnaSourcesGoToPn(rest: string)
    ensures GroupOf("source_PNA" + rest) == Some(2)
  {
    var s := "source_PNA" + rest;
    assert s[..9] == "source_PN" && s[6] == '_' && s[7] == 'P';
    assert !InGroup(s, ORDER_IDS[0]) && !InGroup(s, ORDER_IDS[1]) && InGroup(s, ORDER_IDS[2]);
  }

  /** Likewise every `sourceId_PNA…` column goes into the group of PN. */
  lemma PnaSourceIdsGoToPn(rest: string)
    ensures GroupOf("sourceId_PNA" + rest) == Some(2)
  {
    var t := "sourceId_PNA" + rest;
    assert t[..11] == "sourceId_PN" && t[6] == 'I' && t[9] == 'P';
    assert !InGroup(t, ORDER_IDS[0]) && !InGroup(t, ORDER_IDS[1]) && InGroup(t, ORDER_IDS[2]);
  }

  /** The identifiers `save_global_status` builds from the status catalogue are the same list, in the same order. */
  lemma CatalogueOrderIds()
    ensures [DIRECTIVE_HABITAT.typeId, DIRECTIVE_OISEAUX.typeId, PROTECTION_NATIONALE.typeId,
             PROTECTION_REGIONALE.typeId, PROTECTION_DEPARTEMENTALE.typeId,
             LISTE_ROUGE_NATIONALE.typeId, LISTE_ROUGE_REGIONALE.typeId,
             PLAN_NATIONAL_ACTION.typeId, PRIORITE_ACTION_PUBLIQUE_NATIONALE.typeId,
             DETERMINANT_ZNIEFF.typeId, LUTTE_CONTRE_ESPECES.typeId] == ORDER_IDS
  {
  }

  /** Reordering names exactly the columns it was given. */
  lemma OrderedSameNames(cols: seq<string>)
    ensures forall c :: c in OrderedColumns(cols) <==> c in cols
  {
    OrderedSortsStably(cols);
    forall c ensures c in OrderedColumns(cols) <==> c in cols {
      assert c in OrderedColumns(cols) <==> c in multiset(OrderedColumns(cols));
      assert c in cols <==> c in multiset(cols);
    }
  }

  /** `df[ordered_columns]`: the same rows under the reordered columns; the selection never fails. */
  function Reorder(t: Table): (r: Table)
    ensures r.columns == OrderedColumns(t.columns)
    ensures forall c :: c in r.columns <==> c in t.columns
    ensures |r.rows| == |t.rows|
    ensures forall i :: 0 <= i < |t.rows| ==> AgreesOn(r.rows[i], t.rows[i], t.columns)
    ensures WellFormed(t) ==> WellFormed(r)
  {
    OrderedSameNames(t.columns);
    OrderedSortsStably(t.columns);
    Select(t, OrderedColumns(t.columns)).value
  }
}
