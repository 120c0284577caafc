/**
 * The protection and red-list status types: an immutable description (identifier, name,
 * administrative scope) and a mutable flag saying whether the TAXREF API still serves the type.
 */
module StatusTypes {
  import opened Seqs

  datatype StatusSpec = StatusSpec(typeId: string, name: string, adminLevel: string) {
    /** A type is national exactly when its administrative level is the string "national". */
    predicate IsNational() {
      adminLevel == "national"
    }

    predicate IsRegional() {
      !IsNational()
    }
  }

  /** A status type together with its API-availability flag, the one field that changes. */
  class StatusType {
    const spec: StatusSpec
    var inApi: bool

    constructor (typeId: string, name: string, adminLevel: string)
      ensures spec == StatusSpec(typeId, name, adminLevel)
      ensures inApi
    {
      spec := StatusSpec(typeId, name, adminLevel);
      inApi := true;
    }

    predicate IsNational() {
      spec.IsNational()
    }

    predicate IsRegional() {
      spec.IsRegional()
    }

    /** `set_in_api(b)` with an explicit value: the flag becomes `b`. */
    method SetInApi(b: bool)
      modifies this
      ensures inApi == b
    {
      inApi := b;
    }
  }

  const DIRECTIVE_HABITAT := StatusSpec("DH", "Directive Habitat", "national")
  const DIRECTIVE_OISEAUX := StatusSpec("DO", "Directive Oiseaux", "national")
  const PROTECTION_NATIONALE := StatusSpec("PN", "Protection Nationale", "national")
  const PROTECTION_REGIONALE := StatusSpec("PR", "Protection Régionale", "régional")
  const PROTECTION_DEPARTEMENTALE := StatusSpec("PD", "Protection Départementale", "régional")
  const LISTE_ROUGE_NATIONALE := StatusSpec("LRN", "Liste Rouge Nationale", "national")
  const LISTE_ROUGE_REGIONALE := StatusSpec("LRR", "Liste Rouge Régionale", "régional")
  const PLAN_NATIONAL_ACTION := StatusSpec("PNA", "Plan National d'Action", "national")
  const PRIORITE_ACTION_PUBLIQUE_NATIONALE := StatusSpec("PAPNAT", "Priorité Action Publique ationale", "national")
  const DETERMINANT_ZNIEFF := StatusSpec("ZDET", "ZNIEFF Déterminantes", "régional")
  const LUTTE_CONTRE_ESPECES := StatusSpec("REGLLUTTE", "Lutte contre certaines espèces", "régional")

  /** The catalogue, in its declared order. */
  const STATUS_TYPES: seq<StatusSpec> := [
    DIRECTIVE_HABITAT, DIRECTIVE_OISEAUX,
    PROTECTION_NATIONALE, PROTECTION_REGIONALE, PROTECTION_DEPARTEMENTALE,
    LISTE_ROUGE_NATIONALE, LISTE_ROUGE_REGIONALE, DETERMINANT_ZNIEFF,
    PLAN_NATIONAL_ACTION, PRIORITE_ACTION_PUBLIQUE_NATIONALE,
    LUTTE_CONTRE_ESPECES]

  /** The identifiers of the catalogue, in catalogue order. */
  const STATUS_IDS: seq<string> := seq(|STATUS_TYPES|, i requires 0 <= i < |STATUS_TYPES| => STATUS_TYPES[i].typeId)

  /** The identifiers the status aggregator treats as national (a literal tuple in the aggregator). */
  const NATIONAL_IDS: seq<string> := ["DH", "DO", "LRN", "PN", "PNA", "PAPNAT"]

  /** The catalogue entries whose identifier is listed, in catalogue order; unknown identifiers are ignored. */
  function GetStatusTypesFromIds(ids: seq<string>): (r: seq<StatusSpec>)
    ensures IsSubseq(r, STATUS_TYPES)
    ensures forall i :: 0 <= i < |r| ==> r[i].typeId in ids
    ensures forall i :: 0 <= i < |STATUS_TYPES| && STATUS_TYPES[i].typeId in ids ==> STATUS_TYPES[i] in r
  {
    FilterIsSubseq(STATUS_TYPES, (s: StatusSpec) => s.typeId in ids);
    Filter(STATUS_TYPES, (s: StatusSpec) => s.typeId in ids)
  }

  /** The catalogue's identifiers are the eleven short codes, pairwise distinct. */
  lemma StatusIdsOfCatalogue()
    ensures STATUS_IDS == ["DH", "DO", "PN", "PR", "PD", "LRN", "LRR", "ZDET", "PNA", "PAPNAT", "REGLLUTTE"]
    ensures Distinct(STATUS_IDS)
  {
  }

  /**
   * The national types of the catalogue are exactly the six identifiers the aggregator hard-codes,
   * and every other type is regional.
   */
  lemma NationalTypes()
    ensures forall i :: 0 <= i < |STATUS_TYPES| ==>
      (STATUS_TYPES[i].IsNational() <==> STATUS_TYPES[i].typeId in NATIONAL_IDS)
    ensures forall i :: 0 <= i < |STATUS_TYPES| ==>
      (STATUS_TYPES[i].IsRegional() <==> STATUS_TYPES[i].adminLevel == "régional")
  {
  }

  /** Asking for every identifier gives back the whole catalogue. */
  lemma AllIdsGiveCatalogue()
    ensures GetStatusTypesFromIds(STATUS_IDS) == STATUS_TYPES
  {
    IdsOfEntries();
    FilterAll(STATUS_TYPES, (s: StatusSpec) => s.typeId in STATUS_IDS);
  }

  lemma IdsOfEntries()
    ensures forall x :: x in STATUS_TYPES ==> x.typeId in STATUS_IDS
  {
    forall x | x in STATUS_TYPES
      ensures x.typeId in STATUS_IDS
    {
      var i :| 0 <= i < |STATUS_TYPES| && STATUS_TYPES[i] == x;
      assert STATUS_IDS[i] == x.typeId;
    }
  }

  /** Identifiers outside the catalogue select nothing. */
  lemma UnknownIdsSelectNothing(ids: seq<string>)
    requires forall i :: 0 <= i < |ids| ==> ids[i] !in STATUS_IDS
    ensures GetStatusTypesFromIds(ids) == []
  {
    IdsOfEntries();
    FilterNone(STATUS_TYPES, (s: StatusSpec) => s.typeId in ids);
  }
}
