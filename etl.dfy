/**
 * The top level of keepStat_etl.py (lines 200-471): source tables are
 * selected and cleaned, projected into one `project_id`-keyed table per
 * attribute, merged into `master`, deduplicated, budget-zeroed, NUTS-labelled
 * and located. The run stops at the first exception the script would raise.
 */
module Etl {
  import opened Base
  import opened Tables
  import opened Codes
  import opened Eav
  import opened Facts
  import opened Nuts

  /** A `keep_programme` row (lines 202-204; `is_visible` is never used). */
  datatype Programme = Programme(id: int, programmeType: Option<string>, title: Option<string>, useForStatistics: Option<int>)

  /** A `kamut_project` row (lines 208-210); dates are epoch numbers. */
  datatype Project = Project(pid: int, programmeId: Option<int>, budget: Option<real>, projectStart: Option<int>, projectEnd: Option<int>)

  /** A `keep_programme_type` row (line 217). */
  datatype ProgrammeTypeRow = ProgrammeTypeRow(programmeType: Option<string>, period: Option<string>)

  /** A `kamut_partner` row (lines 220-231). */
  datatype PartnerRow = PartnerRow(
    pid: Option<int>,
    projectId: Option<int>,
    partnershipType: Option<int>,
    country: Option<string>,
    region0: Option<string>,
    region1: Option<string>,
    region2: Option<string>,
    region3: Option<string>,
    isExtNuts: Option<int>,
    geocodingX: Option<real>,
    geocodingY: Option<real>)

  /** A `kamut_sotoip` row (lines 235-239). */
  datatype Sotoip = Sotoip(programmeId: Option<int>, objective: Option<string>, priority: Option<string>)

  /** Everything a run reads: the source database tables, `nuts_coord.csv` as a table of centroids. */
  datatype Sources = Sources(
    programmes: seq<Programme>,
    projects: seq<Project>,
    programmeTypes: seq<ProgrammeTypeRow>,
    partners: seq<PartnerRow>,
    sotoip: seq<Sotoip>,
    terms: seq<Term>,
    strand: seq<FieldRow>,
    source: seq<FieldRow>,
    keywords: seq<FieldRow>,
    nuts: seq<NutsRow>,
    coords: CoordTable)

  /** What a run commits: the `master` rows and the width of its two code columns. */
  datatype Output = Output(master: seq<MasterRow>, varcharMax: nat)

  // ---------------------------------------------------------------- cleaning

  predicate ForStatistics(p: Programme) { p.useForStatistics == Some(1) }

  /** Line 205: only the programmes flagged for statistics take part. */
  function StatisticsProgrammes(ps: seq<Programme>): (r: seq<Programme>)
    ensures forall p :: p in r <==> p in ps && p.useForStatistics == Some(1)
  {
    Filter(ps, ForStatistics)
  }

  /** `replace(0, np.nan)` on one date cell (lines 213-214). */
  function ClearZero(d: Option<int>): (r: Option<int>)
    ensures r != Some(0)
    ensures r.Some? ==> r == d
    ensures r.None? <==> d.None? || d == Some(0)
  {
    if d == Some(0) then None else d
  }

  function ClearZeroDates(p: Project): Project {
    p.(projectStart := ClearZero(p.projectStart), projectEnd := ClearZero(p.projectEnd))
  }

  /** The projects as the rest of the script sees them: zero dates turned null, nothing else touched. */
  function CleanProjects(ps: seq<Project>): (r: seq<Project>)
    ensures |r| == |ps|
    ensures forall i :: 0 <= i < |ps| ==>
      r[i].(projectStart := ps[i].projectStart, projectEnd := ps[i].projectEnd) == ps[i] &&
      r[i].projectStart == ClearZero(ps[i].projectStart) && r[i].projectEnd == ClearZero(ps[i].projectEnd)
  {
    MapRows(ps, ClearZeroDates)
  }

  lemma CleanProjectsPids(ps: seq<Project>)
    ensures Pids(CleanProjects(ps)) == Pids(ps)
  {
    var r := CleanProjects(ps);
    forall p | p in Pids(ps) ensures p in Pids(r) {
      var i :| 0 <= i < |ps| && ps[i].pid == p;
      assert r[i] in r;
    }
  }

  function Pids(ps: seq<Project>): set<int> {
    set p | p in ps :: p.pid
  }

  /** The country alias map of lines 335-337: UK and EL become their ISO codes. */
  function Alias(code: Option<string>): (r: Option<string>)
    ensures r != Some("UK") && r != Some("EL")
    ensures code == Some("UK") ==> r == Some("GB")
    ensures code == Some("EL") ==> r == Some("GR")
    ensures code != Some("UK") && code != Some("EL") ==> r == code
  {
    if code == Some("UK") then Some("GB")
    else if code == Some("EL") then Some("GR")
    else code
  }

  /** Applying the alias map again changes nothing. */
  lemma AliasIdempotent(code: Option<string>)
    ensures Alias(Alias(code)) == Alias(code)
  {
  }

  // ------------------------------------------------------------- projections

  function ThematicFact(x: ProjectTerm): Fact { Blank(x.projectId).(thematic := x.name) }

  /** Lines 296-298: one row per project keyword whose term name is known. */
  function ThematicTable(keywords: seq<FieldRow>, terms: seq<Term>): seq<Fact> {
    MapRows(DropUnnamed(ExtractThematic(keywords, terms)), ThematicFact)
  }

  /** A thematic row is a project with the known name of one of its keyword terms, and nothing else. */
  lemma ThematicTableRows(keywords: seq<FieldRow>, terms: seq<Term>, t: Fact)
    ensures t in ThematicTable(keywords, terms) <==>
      && t == Blank(t.projectId).(thematic := t.thematic) && t.thematic.Some?
      && exists k :: k in keywords && OfProject(k) && k.entityId == t.projectId &&
           k.tid.Some? && Term(k.tid.value, t.thematic.value) in terms
  {
    var rows := DropUnnamed(ExtractThematic(keywords, terms));
    MapRowsMembership(rows, ThematicFact, t);
    if t.thematic.Some? {
      ThematicNamesResolved(keywords, terms, t.projectId, t.thematic.value);
      assert t == Blank(t.projectId).(thematic := t.thematic) ==> t == ThematicFact(ProjectTerm(t.projectId, t.thematic));
    }
  }

  /** The partner cells of one `kamut_partner` row, renamed (lines 319-331) and with `cca2` (line 335). */
  function Cells(x: PartnerRow): PartnerCells {
    PartnerCells(x.pid, x.country, x.region0, x.region1, x.region2, x.region3,
      x.geocodingX, x.geocodingY, x.partnershipType, x.isExtNuts, Alias(x.region0))
  }

  function PartnerFact(x: PartnerRow, pid: int): Fact {
    Blank(pid).(partner := Some(Cells(x)))
  }

  /** The rows that have a project, as facts (lines 346-348). */
  function PartnerFacts(rows: seq<PartnerRow>): (r: seq<Fact>)
    ensures forall t :: t in r <==> exists x :: x in rows && x.projectId.Some? && t == PartnerFact(x, x.projectId.value)
  {
    if rows == [] then []
    else
      assert rows == [rows[0]] + rows[1..];
      var x := rows[0];
      (if x.projectId.Some? then [PartnerFact(x, x.projectId.value)] else []) + PartnerFacts(rows[1..])
  }

  lemma {:induction false} PartnerFactsDistinct(rows: seq<PartnerRow>)
    requires Distinct(rows)
    ensures Distinct(PartnerFacts(rows))
  {
    if rows != [] {
      var x := rows[0];
      assert Distinct(rows[1..]) && x !in rows[1..];
      PartnerFactsDistinct(rows[1..]);
      var rest := PartnerFacts(rows[1..]);
      if x.projectId.Some? {
        var f := PartnerFact(x, x.projectId.value);
        assert f !in rest;
        assert PartnerFacts(rows) == [f] + rest;
      }
    }
  }

  /**
   * Lines 302-348: partners deduplicated, given `cca2`, and dropped when
   * their project is null.
   */
  function PartnerTable(partners: seq<PartnerRow>): seq<Fact> {
    PartnerFacts(Dedup(partners))
  }

  /**
   * The partner table has one row per distinct partner row that names a
   * project, and no two of its rows are equal.
   */
  lemma PartnerTableRows(partners: seq<PartnerRow>)
    ensures Distinct(PartnerTable(partners))
    ensures forall t :: t in PartnerTable(partners) <==> exists x :: x in partners && x.projectId.Some? && t == PartnerFact(x, x.projectId.value)
  {
    PartnerFactsDistinct(Dedup(partners));
  }

  datatype ProgrammePeriod = ProgrammePeriod(programmeId: int, period: Option<string>)

  predicate SameType(p: Programme, ty: ProgrammeTypeRow) { p.programmeType == ty.programmeType }
  function PeriodOf(p: Programme, ty: ProgrammeTypeRow): ProgrammePeriod { ProgrammePeriod(p.id, ty.period) }
  predicate PeriodProject(pp: ProgrammePeriod, pr: Project) { pr.programmeId == Some(pp.programmeId) }
  function PeriodFact(pp: ProgrammePeriod, pr: Project): Fact { Blank(pr.pid).(period := pp.period) }

  /** Lines 351-363: programme to period on the programme type, then to the programme's projects. */
  function PeriodTable(programmes: seq<Programme>, types: seq<ProgrammeTypeRow>, projects: seq<Project>): seq<Fact> {
    InnerJoin(InnerJoin(programmes, types, SameType, PeriodOf), projects, PeriodProject, PeriodFact)
  }

  /** A project has a period row for each type row sharing its programme's type. */
  lemma PeriodTableRows(programmes: seq<Programme>, types: seq<ProgrammeTypeRow>, projects: seq<Project>, t: Fact)
    ensures t in PeriodTable(programmes, types, projects) <==> exists p, ty, pr ::
      && p in programmes && ty in types && pr in projects
      && p.programmeType == ty.programmeType && pr.programmeId == Some(p.id)
      && t == Blank(pr.pid).(period := ty.period)
  {
    var pps := InnerJoin(programmes, types, SameType, PeriodOf);
    if t in PeriodTable(programmes, types, projects) {
      var pp, pr :| pp in pps && pr in projects && PeriodProject(pp, pr) && t == PeriodFact(pp, pr);
      var p, ty :| p in programmes && ty in types && SameType(p, ty) && pp == PeriodOf(p, ty);
    }
    if exists p, ty, pr :: p in programmes && ty in types && pr in projects &&
        p.programmeType == ty.programmeType && pr.programmeId == Some(p.id) && t == Blank(pr.pid).(period := ty.period) {
      var p, ty, pr :| p in programmes && ty in types && pr in projects &&
        p.programmeType == ty.programmeType && pr.programmeId == Some(p.id) && t == Blank(pr.pid).(period := ty.period);
      assert PeriodOf(p, ty) in pps;
      assert PeriodProject(PeriodOf(p, ty), pr) && t == PeriodFact(PeriodOf(p, ty), pr);
    }
  }

  function ProgrammeIdFact(pr: Project): Fact { Blank(pr.pid).(programmeId := pr.programmeId) }

  /** Lines 292-293: every project with its (possibly null) programme. */
  function ProgrammeIdTable(projects: seq<Project>): seq<Fact> {
    MapRows(projects, ProgrammeIdFact)
  }

  predicate RunsProject(p: Programme, pr: Project) { pr.programmeId == Some(p.id) }
  function NameFact(p: Programme, pr: Project): Fact { Blank(pr.pid).(programmeName := p.title) }

  /** Lines 366-372: each project with the title of its programme. */
  function ProgrammeNameTable(programmes: seq<Programme>, projects: seq<Project>): seq<Fact> {
    InnerJoin(programmes, projects, RunsProject, NameFact)
  }

  predicate TypedProject(x: ProgramType, pr: Project) { pr.programmeId == Some(x.programmeId) }
  function TypeFact(x: ProgramType, pr: Project): Fact { Blank(pr.pid).(programType := Some(x.programType)) }

  /** Lines 375-383: each project with the programme types of its programme. */
  function ProgramTypeTable(types: seq<ProgramType>, projects: seq<Project>): seq<Fact> {
    InnerJoin(types, projects, TypedProject, TypeFact)
  }

  /** Lines 243-255 on one `kamut_sotoip` row. */
  function NormalizeSotoip(s: Sotoip): Sotoip {
    s.(objective := NormalizeObjective(s.objective), priority := NormalizePriority(s.priority))
  }

  function SotoipCell(s: Sotoip): (Option<string>, Option<string>) { (s.objective, s.priority) }

  function SotoipCells(rows: seq<Sotoip>): seq<(Option<string>, Option<string>)> {
    MapRows(rows, SotoipCell)
  }

  predicate HasCode(s: Sotoip) { s.objective.Some? || s.priority.Some? }

  /** Lines 262-265: distinct rows that have at least one code. */
  function CleanSotoip(rows: seq<Sotoip>): (r: seq<Sotoip>)
    ensures Distinct(r)
    ensures forall s :: s in r <==> s in rows && (s.objective.Some? || s.priority.Some?)
  {
    var d := Dedup(rows);
    FilterKeepsDistinct(d, HasCode);
    Filter(d, HasCode)
  }

  /**
   * Lines 386-392 repeat the cleaning on the already cleaned table, which
   * changes nothing.
   */
  lemma CleanSotoipIdempotent(rows: seq<Sotoip>)
    ensures CleanSotoip(CleanSotoip(rows)) == CleanSotoip(rows)
  {
    var c := CleanSotoip(rows);
    DedupOfDistinct(c);
    FilterOfAll(c, HasCode);
  }

  /** Selecting with a test every row passes keeps the table as it is. */
  lemma {:induction false} FilterOfAll<T(!new)>(s: seq<T>, keep: T -> bool)
    requires forall x :: x in s ==> keep(x)
    ensures Filter(s, keep) == s
  {
    if s != [] {
      assert forall x :: x in s[1..] ==> x in s;
      FilterOfAll(s[1..], keep);
    }
  }

  predicate SotoipProject(s: Sotoip, pr: Project) { s.programmeId == pr.programmeId }

  /** Lines 394-411 on one matched pair: the project's codes, normalised a second time. */
  function CodeFact(s: Sotoip, pr: Project): Fact {
    Blank(pr.pid).(objective := NormalizeObjective(s.objective), priority := NormalizePriority(s.priority))
  }

  /**
   * Lines 394-411: the cleaned codes joined to the projects of their
   * programme (a null programme matches a null programme, as in a pandas
   * merge) and normalised again.
   */
  function ObjectiveTable(sotoip: seq<Sotoip>, projects: seq<Project>): seq<Fact> {
    InnerJoin(sotoip, projects, SotoipProject, CodeFact)
  }

  function FactCell(t: Fact): (Option<string>, Option<string>) { (t.objective, t.priority) }

  function FactCells(rows: seq<Fact>): seq<(Option<string>, Option<string>)> {
    MapRows(rows, FactCell)
  }

  predicate Dated(pr: Project) { pr.projectStart.Some? && pr.projectEnd.Some? }

  function BudgetFact(pr: Project): Fact { Blank(pr.pid).(budget := pr.budget) }

  /** Lines 421-422: every project with its budget. */
  function BudgetTable(projects: seq<Project>): seq<Fact> {
    MapRows(projects, BudgetFact)
  }

  function DatesFact(pr: Project): Fact { Blank(pr.pid).(projectStart := pr.projectStart, projectEnd := pr.projectEnd) }

  /** Lines 425-427: the projects whose start and end are both known. */
  function StartEndTable(projects: seq<Project>): seq<Fact> {
    MapRows(Filter(projects, Dated), DatesFact)
  }

  /** The start/end table keeps exactly the projects whose dates are both present. */
  lemma StartEndTableRows(projects: seq<Project>, t: Fact)
    ensures t in StartEndTable(projects) <==> exists pr ::
      && pr in projects && pr.projectStart.Some? && pr.projectEnd.Some?
      && t == Blank(pr.pid).(projectStart := pr.projectStart, projectEnd := pr.projectEnd)
  {
    MapRowsMembership(Filter(projects, Dated), DatesFact, t);
  }

  /**
   * After zero dates are turned null (lines 213-214) and incomplete rows
   * dropped (line 426), the start/end table holds exactly the projects whose
   * two dates are both present and non-zero.
   */
  lemma StartEndOfCleanProjects(ps: seq<Project>, t: Fact)
    ensures t in StartEndTable(CleanProjects(ps)) <==> exists pr ::
      && pr in ps
      && pr.projectStart.Some? && pr.projectStart != Some(0)
      && pr.projectEnd.Some? && pr.projectEnd != Some(0)
      && t == Blank(pr.pid).(projectStart := pr.projectStart, projectEnd := pr.projectEnd)
  {
    var cs := CleanProjects(ps);
    StartEndTableRows(cs, t);
    if t in StartEndTable(cs) {
      var c :| c in cs && c.projectStart.Some? && c.projectEnd.Some? &&
        t == Blank(c.pid).(projectStart := c.projectStart, projectEnd := c.projectEnd);
      var i :| 0 <= i < |cs| && cs[i] == c;
      assert ps[i] in ps;
    }
    if exists pr :: pr in ps && pr.projectStart.Some? && pr.projectStart != Some(0) &&
        pr.projectEnd.Some? && pr.projectEnd != Some(0) &&
        t == Blank(pr.pid).(projectStart := pr.projectStart, projectEnd := pr.projectEnd) {
      var pr :| pr in ps && pr.projectStart.Some? && pr.projectStart != Some(0) &&
        pr.projectEnd.Some? && pr.projectEnd != Some(0) &&
        t == Blank(pr.pid).(projectStart := pr.projectStart, projectEnd := pr.projectEnd);
      var i :| 0 <= i < |ps| && ps[i] == pr;
      assert cs[i] in cs;
    }
  }

  // ---------------------------------------------------------------- the run

  function Programmes(src: Sources): seq<Programme> { StatisticsProgrammes(src.programmes) }
  function Projects(src: Sources): seq<Project> { CleanProjects(src.projects) }

  /** `kamut_sotoip` after normalisation (lines 243-255). */
  function NormalizedSotoip(src: Sources): seq<Sotoip> { MapRows(src.sotoip, NormalizeSotoip) }

  /** `projectId_thObj_invPrio` (lines 386-411). */
  function Objectives(src: Sources): seq<Fact> {
    ObjectiveTable(CleanSotoip(CleanSotoip(NormalizedSotoip(src))), Projects(src))
  }

  /** `tables_to_merge` (lines 432-442), in the script's order. */
  function TablesToMerge(src: Sources): seq<seq<Fact>> {
    var projects := Projects(src);
    [ ThematicTable(src.keywords, src.terms),
      PartnerTable(src.partners),
      PeriodTable(Programmes(src), src.programmeTypes, projects),
      ProgrammeIdTable(projects),
      ProgrammeNameTable(Programmes(src), projects),
      ProgramTypeTable(ExtractProgramType(src.strand, src.source, src.terms), projects),
      Objectives(src),
      StartEndTable(projects),
      BudgetTable(projects) ]
  }

  /** `master` before labelling (lines 444-448). */
  function MasterFacts(src: Sources): seq<Fact> {
    ZeroRepeatedBudgets(Dedup(Merger(TablesToMerge(src))))
  }

  /** Lines 461-471 over every row. */
  function LocateRows(coords: CoordTable, rows: seq<Fact>): (r: seq<MasterRow>)
    ensures |r| == |rows| && forall i :: 0 <= i < |rows| ==> r[i].fact == rows[i]
  {
    if rows == [] then [] else [LocateRow(coords, rows[0])] + LocateRows(coords, rows[1..])
  }

  /**
   * A whole run: the first `varchar_max` (line 258) can only fail, the
   * second (line 414) sizes the code columns, the labelling (line 453) can
   * fail, and the centroids are looked up last (lines 461-471).
   */
  function Pipeline(src: Sources): (r: Result<Output, EtlError>)
    ensures r.Success? ==> |r.value.master| == |MasterFacts(src)|
  {
    var firstWidth :- VarcharMax(SotoipCells(NormalizedSotoip(src)));
    var width :- VarcharMax(FactCells(Objectives(src)));
    var labelled :- LabelNuts(MasterFacts(src), NameMap(src.nuts));
    var sliceable :- SliceableColumns(labelled);
    Success(Output(LocateRows(src.coords, sliceable), width))
  }

  /**
   * A run stops exactly when a code table is empty, a NUTS code cannot be
   * labelled, or a labelled NUTS column holds no string at all.
   */
  lemma PipelineFailure(src: Sources)
    ensures Pipeline(src).Failure? <==>
      || src.sotoip == []
      || Objectives(src) == []
      || LabelNuts(MasterFacts(src), NameMap(src.nuts)).Failure?
      || exists level :: 0 <= level < 3 && !HasText(LabelNuts(MasterFacts(src), NameMap(src.nuts)).value, level)
  {
    var first := VarcharMax(SotoipCells(NormalizedSotoip(src)));
    var second := VarcharMax(FactCells(Objectives(src)));
    var labelled := LabelNuts(MasterFacts(src), NameMap(src.nuts));
    if first.Failure? {
      assert src.sotoip == [];
    } else if second.Failure? {
      assert Objectives(src) == [];
    } else if labelled.Success? {
      var sliced := SliceableColumns(labelled.value);
      assert Pipeline(src).Failure? <==> sliced.Failure?;
      assert sliced.Failure? <==> exists level :: 0 <= level < 3 && !HasText(labelled.value, level) by {
        if sliced.Failure? {
          assert 0 <= sliced.error.level < 3 && !HasText(labelled.value, sliced.error.level);
        }
        if exists level :: 0 <= level < 3 && !HasText(labelled.value, level) {
          var level :| 0 <= level < 3 && !HasText(labelled.value, level);
          assert level == 0 || level == 1 || level == 2;
        }
      }
    }
  }

  /** What a successful run commits, stage by stage. */
  lemma PipelineShape(src: Sources)
    requires Pipeline(src).Success?
    ensures VarcharMax(FactCells(Objectives(src))).Success?
    ensures LabelNuts(MasterFacts(src), NameMap(src.nuts)).Success?
    ensures SliceableColumns(LabelNuts(MasterFacts(src), NameMap(src.nuts)).value).Success?
    ensures Pipeline(src).value.varcharMax == VarcharMax(FactCells(Objectives(src))).value
    ensures Pipeline(src).value.master == LocateRows(src.coords, LabelNuts(MasterFacts(src), NameMap(src.nuts)).value)
  {
  }

  // ------------------------------------------------------ what a run keeps

  /** The projects with a keyword whose term is known. */
  function ThematicIds(keywords: seq<FieldRow>, terms: seq<Term>): set<int> {
    set k, u | k in keywords && u in terms && OfProject(k) && k.tid == Some(u.tid) :: k.entityId
  }

  function PartnerIds(partners: seq<PartnerRow>): set<int> {
    set x | x in partners && x.projectId.Some? :: x.projectId.value
  }

  /** The projects a run reports: every source project, every project with a named keyword, every partnered project. */
  function ExpectedIds(src: Sources): set<int> {
    Pids(src.projects) + ThematicIds(src.keywords, src.terms) + PartnerIds(src.partners)
  }

  lemma ThematicTableIds(keywords: seq<FieldRow>, terms: seq<Term>)
    ensures ProjectIds(ThematicTable(keywords, terms)) == ThematicIds(keywords, terms)
  {
    forall p | p in ProjectIds(ThematicTable(keywords, terms)) ensures p in ThematicIds(keywords, terms) {
      var t :| t in ThematicTable(keywords, terms) && t.projectId == p;
      ThematicTableRows(keywords, terms, t);
      var k :| k in keywords && OfProject(k) && k.entityId == p && k.tid.Some? && Term(k.tid.value, t.thematic.value) in terms;
    }
    forall p | p in ThematicIds(keywords, terms) ensures p in ProjectIds(ThematicTable(keywords, terms)) {
      var k, u :| k in keywords && u in terms && OfProject(k) && k.tid == Some(u.tid) && k.entityId == p;
      var t := Blank(p).(thematic := Some(u.name));
      assert Term(k.tid.value, u.name) == u;
      ThematicTableRows(keywords, terms, t);
    }
  }

  lemma PartnerTableIds(partners: seq<PartnerRow>)
    ensures ProjectIds(PartnerTable(partners)) == PartnerIds(partners)
  {
    PartnerTableRows(partners);
    forall p | p in PartnerIds(partners) ensures p in ProjectIds(PartnerTable(partners)) {
      var x :| x in partners && x.projectId.Some? && x.projectId.value == p;
      assert PartnerFact(x, p) in PartnerTable(partners);
    }
  }

  lemma BudgetTableIds(projects: seq<Project>)
    ensures ProjectIds(BudgetTable(projects)) == Pids(projects)
  {
    var r := BudgetTable(projects);
    forall p | p in Pids(projects) ensures p in ProjectIds(r) {
      var i :| 0 <= i < |projects| && projects[i].pid == p;
      assert r[i] in r;
    }
    forall p | p in ProjectIds(r) ensures p in Pids(projects) {
      var i :| 0 <= i < |r| && r[i].projectId == p;
      assert projects[i] in projects;
    }
  }

  lemma ProgrammeIdTableIds(projects: seq<Project>)
    ensures ProjectIds(ProgrammeIdTable(projects)) == Pids(projects)
  {
    var r := ProgrammeIdTable(projects);
    forall p | p in Pids(projects) ensures p in ProjectIds(r) {
      var i :| 0 <= i < |projects| && projects[i].pid == p;
      assert r[i] in r;
    }
    forall p | p in ProjectIds(r) ensures p in Pids(projects) {
      var i :| 0 <= i < |r| && r[i].projectId == p;
      assert projects[i] in projects;
    }
  }

  lemma PeriodTableIds(programmes: seq<Programme>, types: seq<ProgrammeTypeRow>, projects: seq<Project>)
    ensures ProjectIds(PeriodTable(programmes, types, projects)) <= Pids(projects)
  {
    forall t | t in PeriodTable(programmes, types, projects) ensures t.projectId in Pids(projects) {
      PeriodTableRows(programmes, types, projects, t);
    }
  }

  lemma NameTableIds(programmes: seq<Programme>, projects: seq<Project>)
    ensures ProjectIds(ProgrammeNameTable(programmes, projects)) <= Pids(projects)
  {
    forall t | t in ProgrammeNameTable(programmes, projects) ensures t.projectId in Pids(projects) {
      var p, pr :| p in programmes && pr in projects && RunsProject(p, pr) && t == NameFact(p, pr);
    }
  }

  lemma TypeTableIds(types: seq<ProgramType>, projects: seq<Project>)
    ensures ProjectIds(ProgramTypeTable(types, projects)) <= Pids(projects)
  {
    forall t | t in ProgramTypeTable(types, projects) ensures t.projectId in Pids(projects) {
      var x, pr :| x in types && pr in projects && TypedProject(x, pr) && t == TypeFact(x, pr);
    }
  }

  lemma ObjectiveTableIds(sotoip: seq<Sotoip>, projects: seq<Project>)
    ensures ProjectIds(ObjectiveTable(sotoip, projects)) <= Pids(projects)
  {
    forall t | t in ObjectiveTable(sotoip, projects) ensures t.projectId in Pids(projects) {
      var x, pr :| x in sotoip && pr in projects && SotoipProject(x, pr) && t == CodeFact(x, pr);
    }
  }

  lemma StartEndTableIds(projects: seq<Project>)
    ensures ProjectIds(StartEndTable(projects)) <= Pids(projects)
  {
    forall t | t in StartEndTable(projects) ensures t.projectId in Pids(projects) {
      StartEndTableRows(projects, t);
    }
  }

  /** The thematic table (index 0 of `tables_to_merge`): the projects with a named keyword, no codes. */
  lemma MergedThematic(src: Sources)
    ensures ProjectIds(TablesToMerge(src)[0]) == ThematicIds(src.keywords, src.terms)
    ensures NoCodes(TablesToMerge(src)[0])
  {
    var t := ThematicTable(src.keywords, src.terms);
    assert TablesToMerge(src)[0] == t;
    assert ProjectIds(t) == ThematicIds(src.keywords, src.terms) by {
      ThematicTableIds(src.keywords, src.terms);
    }
    assert NoCodes(t) by {
      ThematicNoCodes(src.keywords, src.terms);
    }
  }

  /** The partner table (index 1): the projects partners name, no codes. */
  lemma MergedPartners(src: Sources)
    ensures ProjectIds(TablesToMerge(src)[1]) == PartnerIds(src.partners)
    ensures NoCodes(TablesToMerge(src)[1])
  {
    var t := PartnerTable(src.partners);
    assert TablesToMerge(src)[1] == t;
    assert ProjectIds(t) == PartnerIds(src.partners) by {
      PartnerTableIds(src.partners);
    }
    assert NoCodes(t) by {
      PartnerTableRows(src.partners);
    }
  }

  /** The period table (index 2): source projects only, no codes. */
  lemma MergedPeriods(src: Sources)
    ensures ProjectIds(TablesToMerge(src)[2]) <= Pids(src.projects)
    ensures NoCodes(TablesToMerge(src)[2])
  {
    var t := PeriodTable(Programmes(src), src.programmeTypes, Projects(src));
    assert TablesToMerge(src)[2] == t;
    assert ProjectIds(t) <= Pids(src.projects) by {
      CleanProjectsPids(src.projects);
      PeriodTableIds(Programmes(src), src.programmeTypes, Projects(src));
    }
    assert NoCodes(t) by {
      PeriodNoCodes(Programmes(src), src.programmeTypes, Projects(src));
    }
  }

  /** The programme id table (index 3): source projects only, no codes. */
  lemma MergedProgrammeIds(src: Sources)
    ensures ProjectIds(TablesToMerge(src)[3]) <= Pids(src.projects)
    ensures NoCodes(TablesToMerge(src)[3])
  {
    var t := ProgrammeIdTable(Projects(src));
    assert TablesToMerge(src)[3] == t;
    assert ProjectIds(t) <= Pids(src.projects) by {
      CleanProjectsPids(src.projects);
      ProgrammeIdTableIds(Projects(src));
    }
    assert NoCodes(t) by {
      ProgrammeIdNoCodes(Projects(src));
    }
  }

  /** The programme name table (index 4): source projects only, no codes. */
  lemma MergedNames(src: Sources)
    ensures ProjectIds(TablesToMerge(src)[4]) <= Pids(src.projects)
    ensures NoCodes(TablesToMerge(src)[4])
  {
    var t := ProgrammeNameTable(Programmes(src), Projects(src));
    assert TablesToMerge(src)[4] == t;
    assert ProjectIds(t) <= Pids(src.projects) by {
      CleanProjectsPids(src.projects);
      NameTableIds(Programmes(src), Projects(src));
    }
    assert NoCodes(t) by {
      NameNoCodes(Programmes(src), Projects(src));
    }
  }

  /** The programme type table (index 5): source projects only, no codes. */
  lemma MergedTypes(src: Sources)
    ensures ProjectIds(TablesToMerge(src)[5]) <= Pids(src.projects)
    ensures NoCodes(TablesToMerge(src)[5])
  {
    var types := ExtractProgramType(src.strand, src.source, src.terms);
    var t := ProgramTypeTable(types, Projects(src));
    assert TablesToMerge(src)[5] == t;
    assert ProjectIds(t) <= Pids(src.projects) by {
      CleanProjectsPids(src.projects);
      TypeTableIds(types, Projects(src));
    }
    assert NoCodes(t) by {
      TypeNoCodes(types, Projects(src));
    }
  }

  /** The objective table (index 6): source projects only. */
  lemma MergedObjectives(src: Sources)
    ensures ProjectIds(TablesToMerge(src)[6]) <= Pids(src.projects)
    ensures TablesToMerge(src)[6] == Objectives(src)
  {
    assert TablesToMerge(src)[6] == Objectives(src);
    assert ProjectIds(Objectives(src)) <= Pids(src.projects) by {
      CleanProjectsPids(src.projects);
      ObjectiveTableIds(CleanSotoip(CleanSotoip(NormalizedSotoip(src))), Projects(src));
    }
  }

  /** The start/end table (index 7): source projects only, no codes. */
  lemma MergedDates(src: Sources)
    ensures ProjectIds(TablesToMerge(src)[7]) <= Pids(src.projects)
    ensures NoCodes(TablesToMerge(src)[7])
  {
    var t := StartEndTable(Projects(src));
    assert TablesToMerge(src)[7] == t;
    assert ProjectIds(t) <= Pids(src.projects) by {
      CleanProjectsPids(src.projects);
      StartEndTableIds(Projects(src));
    }
    assert NoCodes(t) by {
      StartEndNoCodes(Projects(src));
    }
  }

  /** The budget table (index 8): every source project, no codes. */
  lemma MergedBudgets(src: Sources)
    ensures ProjectIds(TablesToMerge(src)[8]) == Pids(src.projects)
    ensures NoCodes(TablesToMerge(src)[8])
  {
    var t := BudgetTable(Projects(src));
    assert TablesToMerge(src)[8] == t;
    assert ProjectIds(t) == Pids(src.projects) by {
      CleanProjectsPids(src.projects);
      BudgetTableIds(Projects(src));
    }
    assert NoCodes(t) by {
      BudgetNoCodes(Projects(src));
    }
  }

  /** Nine tables whose projects are fixed by the first, second and last hold those projects. */
  lemma NineTablesIds(ts: seq<seq<Fact>>, pids: set<int>, thematic: set<int>, partnered: set<int>)
    requires |ts| == 9
    requires ProjectIds(ts[0]) == thematic && ProjectIds(ts[1]) == partnered && ProjectIds(ts[8]) == pids
    requires ProjectIds(ts[2]) <= pids && ProjectIds(ts[3]) <= pids && ProjectIds(ts[4]) <= pids
    requires ProjectIds(ts[5]) <= pids && ProjectIds(ts[6]) <= pids && ProjectIds(ts[7]) <= pids
    ensures AllIds(ts) == pids + thematic + partnered
  {
    assert forall i :: 0 <= i < |ts| ==> ProjectIds(ts[i]) <= pids + thematic + partnered by {
      forall i | 0 <= i < |ts| ensures ProjectIds(ts[i]) <= pids + thematic + partnered {
        assert i == 0 || i == 1 || i == 2 || i == 3 || i == 4 || i == 5 || i == 6 || i == 7 || i == 8;
      }
    }
    NineTablesWithin(ts, pids + thematic + partnered);
    NineTablesCover(ts, pids, thematic, partnered);
  }

  lemma NineTablesWithin(ts: seq<seq<Fact>>, ids: set<int>)
    requires forall i :: 0 <= i < |ts| ==> ProjectIds(ts[i]) <= ids
    ensures AllIds(ts) <= ids
  {
    forall p | p in AllIds(ts) ensures p in ids {
      var i :| 0 <= i < |ts| && p in ProjectIds(ts[i]);
    }
  }

  lemma NineTablesCover(ts: seq<seq<Fact>>, pids: set<int>, thematic: set<int>, partnered: set<int>)
    requires |ts| == 9
    requires ProjectIds(ts[0]) == thematic && ProjectIds(ts[1]) == partnered && ProjectIds(ts[8]) == pids
    ensures pids + thematic + partnered <= AllIds(ts)
  {
    forall p | p in pids + thematic + partnered ensures p in AllIds(ts) {
      if p in pids {
        assert p in ProjectIds(ts[8]);
      } else if p in partnered {
        assert p in ProjectIds(ts[1]);
      } else {
        assert p in ProjectIds(ts[0]);
      }
    }
  }

  lemma TablesIds(src: Sources)
    ensures AllIds(TablesToMerge(src)) == ExpectedIds(src)
  {
    MergedThematic(src);
    MergedPartners(src);
    MergedPeriods(src);
    MergedProgrammeIds(src);
    MergedNames(src);
    MergedTypes(src);
    MergedObjectives(src);
    MergedDates(src);
    MergedBudgets(src);
    NineTablesIds(TablesToMerge(src), Pids(src.projects), ThematicIds(src.keywords, src.terms), PartnerIds(src.partners));
  }

  /** `master` holds exactly the expected projects, before labelling. */
  lemma MasterIds(src: Sources)
    ensures ProjectIds(MasterFacts(src)) == ExpectedIds(src)
  {
    var merged := Merger(TablesToMerge(src));
    MergerIds(TablesToMerge(src));
    TablesIds(src);
    assert ProjectIds(Dedup(merged)) == ProjectIds(merged);
    ZeroingKeepsColumns(Dedup(merged), 0);
  }

  /**
   * The committed `master` holds exactly the projects of the source
   * projects, of the named project keywords and of the partners that name a
   * project.
   */
  lemma PipelineProjects(src: Sources)
    requires Pipeline(src).Success?
    ensures (set m | m in Pipeline(src).value.master :: m.fact.projectId) == ExpectedIds(src)
  {
    PipelineShape(src);
    var master := MasterFacts(src);
    MasterIds(src);
    var labelled := LabelNuts(master, NameMap(src.nuts)).value;
    LabelNutsKeeps(master, NameMap(src.nuts), 0);
    LocateRowsIds(src.coords, labelled);
  }

  lemma LocateRowsIds(coords: CoordTable, rows: seq<Fact>)
    ensures (set m | m in LocateRows(coords, rows) :: m.fact.projectId) == ProjectIds(rows)
  {
    var r := LocateRows(coords, rows);
    forall p | p in ProjectIds(rows) ensures p in (set m | m in r :: m.fact.projectId) {
      var i :| 0 <= i < |rows| && rows[i].projectId == p;
      assert r[i] in r;
    }
    forall p | p in (set m | m in r :: m.fact.projectId) ensures p in ProjectIds(rows) {
      var i :| 0 <= i < |r| && r[i].fact.projectId == p;
      assert rows[i] in rows;
    }
  }

  /** The rows of a table fill neither code column. */
  predicate NoCodes(rows: seq<Fact>) {
    forall t :: t in rows ==> t.objective.None? && t.priority.None?
  }

  lemma ThematicNoCodes(keywords: seq<FieldRow>, terms: seq<Term>)
    ensures NoCodes(ThematicTable(keywords, terms))
  {
    forall t | t in ThematicTable(keywords, terms) ensures t.objective.None? && t.priority.None? {
      ThematicTableRows(keywords, terms, t);
    }
  }

  lemma PeriodNoCodes(programmes: seq<Programme>, types: seq<ProgrammeTypeRow>, projects: seq<Project>)
    ensures NoCodes(PeriodTable(programmes, types, projects))
  {
    forall t | t in PeriodTable(programmes, types, projects) ensures t.objective.None? && t.priority.None? {
      PeriodTableRows(programmes, types, projects, t);
    }
  }

  lemma ProgrammeIdNoCodes(projects: seq<Project>)
    ensures NoCodes(ProgrammeIdTable(projects))
  {
    var r := ProgrammeIdTable(projects);
    forall t | t in r ensures t.objective.None? && t.priority.None? {
      var j :| 0 <= j < |r| && r[j] == t;
    }
  }

  lemma StartEndNoCodes(projects: seq<Project>)
    ensures NoCodes(StartEndTable(projects))
  {
    forall t | t in StartEndTable(projects) ensures t.objective.None? && t.priority.None? {
      StartEndTableRows(projects, t);
    }
  }

  lemma BudgetNoCodes(projects: seq<Project>)
    ensures NoCodes(BudgetTable(projects))
  {
    var r := BudgetTable(projects);
    forall t | t in r ensures t.objective.None? && t.priority.None? {
      var j :| 0 <= j < |r| && r[j] == t;
    }
  }

  lemma NameNoCodes(programmes: seq<Programme>, projects: seq<Project>)
    ensures NoCodes(ProgrammeNameTable(programmes, projects))
  {
    forall t | t in ProgrammeNameTable(programmes, projects) ensures t.objective.None? && t.priority.None? {
      var p, pr :| p in programmes && pr in projects && RunsProject(p, pr) && t == NameFact(p, pr);
    }
  }

  lemma TypeNoCodes(types: seq<ProgramType>, projects: seq<Project>)
    ensures NoCodes(ProgramTypeTable(types, projects))
  {
    forall t | t in ProgramTypeTable(types, projects) ensures t.objective.None? && t.priority.None? {
      var x, pr :| x in types && pr in projects && TypedProject(x, pr) && t == TypeFact(x, pr);
    }
  }

  /** Nine tables of which only the seventh fills the code columns all fit a width that fits that one. */
  lemma NineTablesFit(ts: seq<seq<Fact>>, n: nat)
    requires |ts| == 9
    requires NoCodes(ts[0]) && NoCodes(ts[1]) && NoCodes(ts[2]) && NoCodes(ts[3])
    requires NoCodes(ts[4]) && NoCodes(ts[5]) && NoCodes(ts[7]) && NoCodes(ts[8])
    requires CodesFit(ts[6], n)
    ensures forall i :: 0 <= i < |ts| ==> CodesFit(ts[i], n)
  {
    forall i | 0 <= i < |ts| ensures CodesFit(ts[i], n) {
      assert i == 0 || i == 1 || i == 2 || i == 3 || i == 4 || i == 5 || i == 6 || i == 7 || i == 8;
    }
  }

  /** The width the run reports bounds every code of the objective table. */
  lemma ObjectivesFit(rows: seq<Fact>)
    requires VarcharMax(FactCells(rows)).Success?
    ensures CodesFit(rows, VarcharMax(FactCells(rows)).value)
  {
    var cells := FactCells(rows);
    forall t | t in rows
      ensures (t.objective.Some? ==> |t.objective.value| <= VarcharMax(cells).value)
      ensures (t.priority.Some? ==> |t.priority.value| <= VarcharMax(cells).value)
    {
      var i :| 0 <= i < |rows| && rows[i] == t;
      assert cells[i] == (t.objective, t.priority);
    }
  }

  /** Every code of `master`, before labelling, fits a width that fits the objective table. */
  lemma MasterCodesFit(src: Sources, n: nat)
    requires CodesFit(Objectives(src), n)
    ensures CodesFit(MasterFacts(src), n)
  {
    var ts := TablesToMerge(src);
    MergedThematic(src);
    MergedPartners(src);
    MergedPeriods(src);
    MergedProgrammeIds(src);
    MergedNames(src);
    MergedTypes(src);
    MergedObjectives(src);
    MergedDates(src);
    MergedBudgets(src);
    NineTablesFit(ts, n);
    MergerCodesFit(ts, n);
    var merged := Merger(ts);
    assert CodesFit(Dedup(merged), n);
    ZeroingKeepsColumns(Dedup(merged), n);
  }

  /**
   * Every objective and priority code written to `master` fits the
   * `VARCHAR(varchar_max)` columns it is declared with (lines 500-501).
   */
  lemma PipelineCodesFit(src: Sources)
    requires Pipeline(src).Success?
    ensures forall m :: m in Pipeline(src).value.master ==>
      && (m.fact.objective.Some? ==> |m.fact.objective.value| <= Pipeline(src).value.varcharMax)
      && (m.fact.priority.Some? ==> |m.fact.priority.value| <= Pipeline(src).value.varcharMax)
  {
    PipelineShape(src);
    var n := Pipeline(src).value.varcharMax;
    ObjectivesFit(Objectives(src));
    MasterCodesFit(src, n);
    var master := MasterFacts(src);
    LabelNutsKeeps(master, NameMap(src.nuts), n);
    LocateRowsCodesFit(src.coords, LabelNuts(master, NameMap(src.nuts)).value, n);
  }

  lemma LocateRowsCodesFit(coords: CoordTable, rows: seq<Fact>, n: nat)
    requires CodesFit(rows, n)
    ensures forall m :: m in LocateRows(coords, rows) ==>
      && (m.fact.objective.Some? ==> |m.fact.objective.value| <= n)
      && (m.fact.priority.Some? ==> |m.fact.priority.value| <= n)
  {
    var r := LocateRows(coords, rows);
    forall m | m in r
      ensures (m.fact.objective.Some? ==> |m.fact.objective.value| <= n)
      ensures (m.fact.priority.Some? ==> |m.fact.priority.value| <= n)
    {
      var i :| 0 <= i < |r| && r[i] == m;
      assert rows[i] in rows;
    }
  }
}
