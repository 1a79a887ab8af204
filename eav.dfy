/**
 * The entity-attribute-value projections of keepStat_etl.py: Drupal field
 * tables (`field_data_field_keywords`, `_strand`, `_source`) hold rows for
 * several kinds of entity, told apart by `entity_type`, and are resolved
 * against `taxonomy_term_data` into typed two-column projections.
 */
module Eav {
  import opened Base
  import opened Tables

  /**
   * A row of a `field_data_field_*` table: owning entity type, owning entity
   * and the referenced term value, which the column allows to be null.
   */
  datatype FieldRow = FieldRow(entityType: string, entityId: int, tid: Option<int>)

  /** A `taxonomy_term_data` row. */
  datatype Term = Term(tid: int, name: string)

  /** A project and the name of one of its keyword terms (null when the term is unknown). */
  datatype ProjectTerm = ProjectTerm(projectId: int, name: Option<string>)

  /** A programme reaching taxonomy term `tid`. */
  datatype ProgrammeTerm = ProgrammeTerm(programmeId: int, tid: int)

  /** A programme and the name of its programme type. */
  datatype ProgramType = ProgramType(programmeId: int, programType: string)

  const ProjectEntity := "kamut_project"
  const ProgrammeEntity := "keep_programme"
  const TermEntity := "taxonomy_term"

  predicate OfProject(k: FieldRow) { k.entityType == ProjectEntity }
  predicate OfProgramme(k: FieldRow) { k.entityType == ProgrammeEntity }
  predicate OfTerm(k: FieldRow) { k.entityType == TermEntity }

  predicate KeywordTerm(k: FieldRow, u: Term) { k.tid == Some(u.tid) }
  function Named(k: FieldRow, u: Term): ProjectTerm { ProjectTerm(k.entityId, Some(u.name)) }
  function Unnamed(k: FieldRow): ProjectTerm { ProjectTerm(k.entityId, None) }

  /**
   * `extractThematic` (lines 64-82): the keyword rows of projects, each
   * left-joined on `tid` to the term names; `tid` itself is dropped. A null
   * `tid` matches no term, whose `tid` is a key and never null.
   */
  function ExtractThematic(keywords: seq<FieldRow>, terms: seq<Term>): seq<ProjectTerm> {
    LeftJoin(Filter(keywords, OfProject), terms, KeywordTerm, Named, Unnamed)
  }

  /**
   * Every thematic row comes from a project keyword row: it carries the name
   * of that row's term, or null when no term has that `tid`.
   */
  lemma ThematicProvenance(keywords: seq<FieldRow>, terms: seq<Term>, t: ProjectTerm)
    requires t in ExtractThematic(keywords, terms)
    ensures exists k ::
      && k in keywords && OfProject(k) && k.entityId == t.projectId
      && (t.name.Some? ==> k.tid.Some? && Term(k.tid.value, t.name.value) in terms)
      && (t.name.None? ==> forall u :: u in terms ==> k.tid != Some(u.tid))
  {
    var k :| k in Filter(keywords, OfProject) && t in LeftRows(k, terms, KeywordTerm, Named, Unnamed);
    if exists u :: u in terms && KeywordTerm(k, u) && t == Named(k, u) {
      var u :| u in terms && KeywordTerm(k, u) && t == Named(k, u);
      assert Term(k.tid.value, t.name.value) == u;
    }
  }

  /** Every project keyword row yields at least one thematic row for its project. */
  lemma ThematicKeepsKeywords(keywords: seq<FieldRow>, terms: seq<Term>, k: FieldRow)
    requires k in keywords && OfProject(k)
    ensures exists t :: t in ExtractThematic(keywords, terms) && t.projectId == k.entityId
  {
    var rows := LeftRows(k, terms, KeywordTerm, Named, Unnamed);
    assert k in Filter(keywords, OfProject);
    assert rows[0] in rows;
    assert rows[0] in ExtractThematic(keywords, terms);
  }

  predicate HasName(t: ProjectTerm) { t.name.Some? }

  /** `dropna` on the thematic projection (line 298): the rows whose term name is known. */
  function DropUnnamed(rows: seq<ProjectTerm>): (r: seq<ProjectTerm>)
    ensures forall t :: t in r <==> t in rows && t.name.Some?
  {
    Filter(rows, HasName)
  }

  /**
   * After `dropna`, a project carries a thematic name exactly when one of its
   * keyword rows references a term of that name.
   */
  lemma ThematicNamesResolved(keywords: seq<FieldRow>, terms: seq<Term>, pid: int, name: string)
    ensures ProjectTerm(pid, Some(name)) in DropUnnamed(ExtractThematic(keywords, terms)) <==>
      exists k :: k in keywords && OfProject(k) && k.entityId == pid && k.tid.Some? && Term(k.tid.value, name) in terms
  {
    var t := ProjectTerm(pid, Some(name));
    if t in DropUnnamed(ExtractThematic(keywords, terms)) {
      ThematicProvenance(keywords, terms, t);
    }
    if exists k :: k in keywords && OfProject(k) && k.entityId == pid && k.tid.Some? && Term(k.tid.value, name) in terms {
      var k :| k in keywords && OfProject(k) && k.entityId == pid && k.tid.Some? && Term(k.tid.value, name) in terms;
      assert k in Filter(keywords, OfProject);
      assert KeywordTerm(k, Term(k.tid.value, name)) && t == Named(k, Term(k.tid.value, name));
      assert t in LeftRows(k, terms, KeywordTerm, Named, Unnamed);
    }
  }

  predicate SameValue(p: FieldRow, t: FieldRow) { p.tid == t.tid }
  function Link(p: FieldRow, t: FieldRow): ProgrammeTerm { ProgrammeTerm(p.entityId, t.entityId) }

  /**
   * One side of `extractProgramType` (lines 92-111 for strand, 112-133 for
   * source): a programme row with term value v joined to a taxonomy-term row
   * with the same value v gives (programme, that term's entity id). The merge
   * matches null keys with each other, so a null value links too.
   */
  function TermLinks(field: seq<FieldRow>): seq<ProgrammeTerm> {
    InnerJoin(Filter(field, OfProgramme), Filter(field, OfTerm), SameValue, Link)
  }

  /** A link is a programme row and a taxonomy-term row of the same table sharing a term value. */
  lemma TermLinksSpec(field: seq<FieldRow>, l: ProgrammeTerm)
    ensures l in TermLinks(field) <==> exists p, t ::
      && p in field && t in field && OfProgramme(p) && OfTerm(t)
      && p.tid == t.tid && l == Link(p, t)
  {
    if exists p, t :: p in field && t in field && OfProgramme(p) && OfTerm(t) && p.tid == t.tid && l == Link(p, t) {
      var p, t :| p in field && t in field && OfProgramme(p) && OfTerm(t) && p.tid == t.tid && l == Link(p, t);
      assert p in Filter(field, OfProgramme) && t in Filter(field, OfTerm) && SameValue(p, t);
    }
  }

  predicate SameLink(a: ProgrammeTerm, b: ProgrammeTerm) { a == b }
  function First(a: ProgrammeTerm, b: ProgrammeTerm): ProgrammeTerm { a }
  predicate LinkTerm(l: ProgrammeTerm, u: Term) { l.tid == u.tid }
  function Typed(l: ProgrammeTerm, u: Term): ProgramType { ProgramType(l.programmeId, u.name) }

  /** The programme/term pairs that the source and the strand tables both yield (lines 135-136). */
  function BothLinks(strand: seq<FieldRow>, source: seq<FieldRow>): (r: seq<ProgrammeTerm>)
    ensures forall l :: l in r <==> l in TermLinks(source) && l in TermLinks(strand)
  {
    var a, b := TermLinks(source), TermLinks(strand);
    var r := InnerJoin(a, b, SameLink, First);
    assert forall l :: l in a && l in b ==> SameLink(l, l) && l == First(l, l);
    r
  }

  /**
   * `extractProgramType` (lines 84-152): the programme/term pairs that both
   * tables yield, joined to the term names.
   */
  function ExtractProgramType(strand: seq<FieldRow>, source: seq<FieldRow>, terms: seq<Term>): seq<ProgramType> {
    InnerJoin(BothLinks(strand, source), terms, LinkTerm, Typed)
  }

  /**
   * A programme has a type of a given name exactly when some term of that
   * name is reached from the programme through both its source and its strand.
   */
  lemma ProgramTypeIsConjunctive(strand: seq<FieldRow>, source: seq<FieldRow>, terms: seq<Term>, pid: int, name: string)
    ensures ProgramType(pid, name) in ExtractProgramType(strand, source, terms) <==> exists tid ::
      && ProgrammeTerm(pid, tid) in TermLinks(source)
      && ProgrammeTerm(pid, tid) in TermLinks(strand)
      && Term(tid, name) in terms
  {
    var x := ProgramType(pid, name);
    if x in ExtractProgramType(strand, source, terms) {
      var l, u :| l in BothLinks(strand, source) && u in terms && LinkTerm(l, u) && x == Typed(l, u);
      assert l == ProgrammeTerm(pid, l.tid) && u == Term(l.tid, name);
    }
    if exists tid :: ProgrammeTerm(pid, tid) in TermLinks(source) && ProgrammeTerm(pid, tid) in TermLinks(strand) &&
        Term(tid, name) in terms {
      var tid :| ProgrammeTerm(pid, tid) in TermLinks(source) && ProgrammeTerm(pid, tid) in TermLinks(strand) &&
        Term(tid, name) in terms;
      var l := ProgrammeTerm(pid, tid);
      assert l in BothLinks(strand, source);
      assert LinkTerm(l, Term(tid, name)) && x == Typed(l, Term(tid, name));
    }
  }
}
