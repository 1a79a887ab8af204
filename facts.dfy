/**
 * The `master` fact table: one wide row per combination of a project's
 * thematic, partner, period, programme, objective/priority, dates and budget,
 * built by folding outer merges on `project_id`, then deduplicated, with
 * repeated budgets zeroed so that sums over the table count each budget once.
 */
module Facts {
  import opened Base
  import opened Tables

  /** The partner columns of a `kamut_partner` row, as renamed at lines 319-331, plus `cca2`. */
  datatype PartnerCells = PartnerCells(
    partnerId: Option<int>,
    countryName: Option<string>,
    nuts0: Option<string>,
    nuts1: Option<string>,
    nuts2: Option<string>,
    nuts3: Option<string>,
    lgt: Option<real>,
    lat: Option<real>,
    isLeader: Option<int>,
    isExtNuts: Option<int>,
    cca2: Option<string>)

  /**
   * A row of `master`. Each projected table fills `projectId` and its own
   * columns; the partner columns come and go together, so they are one cell.
   */
  datatype Fact = Fact(
    projectId: int,
    thematic: Option<string>,
    partner: Option<PartnerCells>,
    period: Option<string>,
    programmeId: Option<int>,
    programmeName: Option<string>,
    programType: Option<string>,
    objective: Option<string>,
    priority: Option<string>,
    projectStart: Option<int>,
    projectEnd: Option<int>,
    budget: Option<real>)

  /** A row of project `pid` with every other column null. */
  function Blank(pid: int): Fact {
    Fact(pid, None, None, None, None, None, None, None, None, None, None, None)
  }

  /**
   * The row an outer merge emits for a matching pair: the two projected
   * tables have disjoint columns besides `project_id`, so each column comes
   * from whichever side has it.
   */
  function Merge(x: Fact, y: Fact): Fact {
    Fact(x.projectId,
      x.thematic.Or(y.thematic), x.partner.Or(y.partner), x.period.Or(y.period),
      x.programmeId.Or(y.programmeId), x.programmeName.Or(y.programmeName),
      x.programType.Or(y.programType), x.objective.Or(y.objective), x.priority.Or(y.priority),
      x.projectStart.Or(y.projectStart), x.projectEnd.Or(y.projectEnd), x.budget.Or(y.budget))
  }

  function ProjectIds(rows: seq<Fact>): set<int> {
    set x | x in rows :: x.projectId
  }

  predicate SameProject(x: Fact, y: Fact) { x.projectId == y.projectId }
  function Unmatched(x: Fact): Fact { x }

  /**
   * `pd.merge(a, b, how='outer', on='project_id')`: every matching pair
   * merged, then the unmatched rows of either side padded with nulls.
   */
  function OuterJoin(a: seq<Fact>, b: seq<Fact>): seq<Fact> {
    var ids := ProjectIds(a);
    LeftJoin(a, b, SameProject, Merge, Unmatched) + Filter(b, (y: Fact) => y.projectId !in ids)
  }

  /**
   * The rows of an outer merge are exactly the merged matching pairs, the
   * rows of `a` whose project is absent from `b`, and the rows of `b` whose
   * project is absent from `a`.
   */
  lemma OuterJoinRows(a: seq<Fact>, b: seq<Fact>, t: Fact)
    ensures t in OuterJoin(a, b) <==>
      || (exists x, y :: x in a && y in b && x.projectId == y.projectId && t == Merge(x, y))
      || (t in a && t.projectId !in ProjectIds(b))
      || (t in b && t.projectId !in ProjectIds(a))
  {
    var ids := ProjectIds(a);
    var left := LeftJoin(a, b, SameProject, Merge, Unmatched);
    assert t in OuterJoin(a, b) <==> t in left || (t in b && t.projectId !in ids);
    LeftJoinFacts(a, b, t);
  }

  /** The left half of an outer merge: merged matching pairs and the rows of `a` nothing matches. */
  lemma LeftJoinFacts(a: seq<Fact>, b: seq<Fact>, t: Fact)
    ensures t in LeftJoin(a, b, SameProject, Merge, Unmatched) <==>
      || (exists x, y :: x in a && y in b && x.projectId == y.projectId && t == Merge(x, y))
      || (t in a && t.projectId !in ProjectIds(b))
  {
    if t in LeftJoin(a, b, SameProject, Merge, Unmatched) {
      var x :| x in a && t in LeftRows(x, b, SameProject, Merge, Unmatched);
      if !exists y :: y in b && SameProject(x, y) && t == Merge(x, y) {
        assert t == x;
        assert forall y :: y in b ==> y.projectId != x.projectId;
      }
    }
    if exists x, y :: x in a && y in b && x.projectId == y.projectId && t == Merge(x, y) {
      var x, y :| x in a && y in b && x.projectId == y.projectId && t == Merge(x, y);
      assert t in LeftRows(x, b, SameProject, Merge, Unmatched);
    }
    if t in a && t.projectId !in ProjectIds(b) {
      assert forall y :: y in b ==> !SameProject(t, y);
      assert t in LeftRows(t, b, SameProject, Merge, Unmatched);
    }
  }


  /**
   * How many rows one row `x` yields: merging the one-row table `[x]` with
   * `b` gives its `Matches`, one merged row per row of `b` in `x`'s project
   * in `b`'s order (`MatchesInOrder`), or `x` alone when there is none;
   * every other row of `b` follows.
   */
  lemma OuterJoinOfRow(x: Fact, b: seq<Fact>)
    ensures var same := Matches(x, b, SameProject, Merge);
      OuterJoin([x], b) == (if same == [] then [x] else same) + Filter(b, (y: Fact) => y.projectId != x.projectId)
  {
    assert [x][0] == x && [x][1..] == [];
    var ids := ProjectIds([x]);
    assert ids == {x.projectId};
    FilterAgrees(b, (y: Fact) => y.projectId !in ids, (y: Fact) => y.projectId != x.projectId);
    var same := Matches(x, b, SameProject, Merge);
    var left := LeftJoin([x], b, SameProject, Merge, Unmatched);
    assert left == LeftRows(x, b, SameProject, Merge, Unmatched) + LeftJoin([], b, SameProject, Merge, Unmatched);
    assert left == (if same == [] then [x] else same);
    assert OuterJoin([x], b) == left + Filter(b, (y: Fact) => y.projectId !in ids);
  }


  /** An outer merge loses no project and invents none. */
  lemma OuterJoinIds(a: seq<Fact>, b: seq<Fact>)
    ensures ProjectIds(OuterJoin(a, b)) == ProjectIds(a) + ProjectIds(b)
  {
    var out := OuterJoin(a, b);
    forall p | p in ProjectIds(out)
      ensures p in ProjectIds(a) + ProjectIds(b)
    {
      var t :| t in out && t.projectId == p;
      OuterJoinRows(a, b, t);
    }
    forall p | p in ProjectIds(a) + ProjectIds(b)
      ensures p in ProjectIds(out)
    {
      if p in ProjectIds(a) {
        var x :| x in a && x.projectId == p;
        if p in ProjectIds(b) {
          var y :| y in b && y.projectId == p;
          OuterJoinRows(a, b, Merge(x, y));
          assert Merge(x, y) in out;
        } else {
          OuterJoinRows(a, b, x);
        }
      } else {
        var y :| y in b && y.projectId == p;
        OuterJoinRows(a, b, y);
      }
    }
  }

  /** `merger` (lines 173-176): `reduce` of outer merges, left to right. */
  function Merger(tables: seq<seq<Fact>>): seq<Fact>
    requires tables != []
  {
    if |tables| == 1 then tables[0]
    else OuterJoin(Merger(tables[..|tables| - 1]), tables[|tables| - 1])
  }

  /** The projects that occur in any of the tables. */
  function AllIds(tables: seq<seq<Fact>>): (ids: set<int>)
    ensures forall p :: p in ids <==> exists i :: 0 <= i < |tables| && p in ProjectIds(tables[i])
  {
    if tables == [] then {}
    else AllIds(tables[..|tables| - 1]) + ProjectIds(tables[|tables| - 1])
  }

  /** The merged table holds exactly the projects found in some input table. */
  lemma {:induction false} MergerIds(tables: seq<seq<Fact>>)
    requires tables != []
    ensures ProjectIds(Merger(tables)) == AllIds(tables)
  {
    if |tables| > 1 {
      MergerIds(tables[..|tables| - 1]);
      OuterJoinIds(Merger(tables[..|tables| - 1]), tables[|tables| - 1]);
    }
  }

  /** Every objective and priority code in `rows` is at most `n` characters long. */
  predicate CodesFit(rows: seq<Fact>, n: nat) {
    forall t :: t in rows ==>
      (t.objective.Some? ==> |t.objective.value| <= n) && (t.priority.Some? ==> |t.priority.value| <= n)
  }

  /** Merging rows takes each code cell from one of the two sides, so bounds survive. */
  lemma OuterJoinCodesFit(a: seq<Fact>, b: seq<Fact>, n: nat)
    requires CodesFit(a, n) && CodesFit(b, n)
    ensures CodesFit(OuterJoin(a, b), n)
  {
    forall t | t in OuterJoin(a, b)
      ensures (t.objective.Some? ==> |t.objective.value| <= n) && (t.priority.Some? ==> |t.priority.value| <= n)
    {
      OuterJoinRows(a, b, t);
    }
  }

  lemma {:induction false} MergerCodesFit(tables: seq<seq<Fact>>, n: nat)
    requires tables != []
    requires forall i :: 0 <= i < |tables| ==> CodesFit(tables[i], n)
    ensures CodesFit(Merger(tables), n)
  {
    if |tables| > 1 {
      MergerCodesFit(tables[..|tables| - 1], n);
      OuterJoinCodesFit(Merger(tables[..|tables| - 1]), tables[|tables| - 1], n);
    }
  }

  /** The columns whose repetition marks a budget already counted (line 448). */
  datatype BudgetKey = BudgetKey(projectId: int, thematic: Option<string>, period: Option<string>, budget: Option<real>)

  function KeyOf(t: Fact): BudgetKey {
    BudgetKey(t.projectId, t.thematic, t.period, t.budget)
  }

  /** The keys of the rows of `s`. */
  function Keys(s: seq<Fact>): (ks: set<BudgetKey>)
    ensures forall k :: k in ks <==> exists i :: 0 <= i < |s| && KeyOf(s[i]) == k
  {
    if s == [] then {}
    else
      var p := s[..|s| - 1];
      assert forall i :: 0 <= i < |p| ==> p[i] == s[i];
      Keys(p) + {KeyOf(s[|s| - 1])}
  }

  function Zeroed(t: Fact): Fact {
    t.(budget := Some(0.0))
  }

  /**
   * `master['budget'][master[[...]].duplicated()] = 0` (line 448): a row
   * whose key already occurred in an earlier row gets budget 0. The mask is
   * computed on the table before any budget is changed.
   */
  function ZeroRepeatedBudgets(s: seq<Fact>): (r: seq<Fact>)
    ensures |r| == |s|
    ensures forall i :: 0 <= i < |s| ==> r[i] == s[i].(budget := r[i].budget) && (r[i].budget == s[i].budget || r[i].budget == Some(0.0))
  {
    if s == [] then []
    else
      var p := s[..|s| - 1];
      var last := s[|s| - 1];
      ZeroRepeatedBudgets(p) + [if KeyOf(last) in Keys(p) then Zeroed(last) else last]
  }

  /** Exactly the rows whose key occurs earlier are zeroed; the rest are untouched. */
  lemma {:induction false} ZeroingIsPointwise(s: seq<Fact>, i: int)
    requires 0 <= i < |s|
    ensures (exists j :: 0 <= j < i && KeyOf(s[j]) == KeyOf(s[i])) ==> ZeroRepeatedBudgets(s)[i] == Zeroed(s[i])
    ensures (forall j :: 0 <= j < i ==> KeyOf(s[j]) != KeyOf(s[i])) ==> ZeroRepeatedBudgets(s)[i] == s[i]
    decreases |s|
  {
    var p := s[..|s| - 1];
    if i < |s| - 1 {
      ZeroingIsPointwise(p, i);
    } else {
      assert forall j :: 0 <= j < |p| ==> p[j] == s[j];
    }
  }

  /**
   * Two rows of one project, period and budget that differ in thematic both
   * keep the budget: the thematic is part of the key.
   */
  lemma DistinctThematicsKeepBudget(x: Fact, y: Fact)
    requires x.projectId == y.projectId && x.period == y.period && x.budget == y.budget
    requires x.thematic != y.thematic
    ensures ZeroRepeatedBudgets([x, y]) == [x, y]
  {
    ZeroingIsPointwise([x, y], 0);
    ZeroingIsPointwise([x, y], 1);
  }

  /** Two rows with one key (two partners of one project and thematic, say) count the budget once. */
  lemma SharedKeyZeroed(x: Fact, y: Fact)
    requires KeyOf(x) == KeyOf(y)
    ensures ZeroRepeatedBudgets([x, y]) == [x, Zeroed(y)]
  {
    ZeroingIsPointwise([x, y], 0);
    ZeroingIsPointwise([x, y], 1);
  }

  /**
   * The budgets of the rows that had key `k` add up to `k`'s budget once,
   * however many rows share it.
   */
  function KeyedSum(s: seq<Fact>, r: seq<Fact>, k: BudgetKey): real
    requires |r| == |s|
  {
    if s == [] then 0.0
    else
      KeyedSum(s[..|s| - 1], r[..|r| - 1], k) + (if KeyOf(s[|s| - 1]) == k then r[|r| - 1].budget.GetOr(0.0) else 0.0)
  }

  lemma {:induction false} BudgetCountedOnce(s: seq<Fact>, k: BudgetKey)
    ensures KeyedSum(s, ZeroRepeatedBudgets(s), k) == if k in Keys(s) then k.budget.GetOr(0.0) else 0.0
    decreases |s|
  {
    if s != [] {
      var p := s[..|s| - 1];
      var r := ZeroRepeatedBudgets(s);
      assert r[..|r| - 1] == ZeroRepeatedBudgets(p);
      BudgetCountedOnce(p, k);
    }
  }

  /** Zeroing changes budgets only: projects and codes are kept. */
  lemma ZeroingKeepsColumns(s: seq<Fact>, n: nat)
    ensures ProjectIds(ZeroRepeatedBudgets(s)) == ProjectIds(s)
    ensures CodesFit(s, n) ==> CodesFit(ZeroRepeatedBudgets(s), n)
  {
    var r := ZeroRepeatedBudgets(s);
    forall p | p in ProjectIds(s) ensures p in ProjectIds(r) {
      var i :| 0 <= i < |s| && s[i].projectId == p;
      assert r[i] in r;
    }
    forall p | p in ProjectIds(r) ensures p in ProjectIds(s) {
      var i :| 0 <= i < |r| && r[i].projectId == p;
      assert s[i] in s;
    }
    if CodesFit(s, n) {
      forall t | t in r
        ensures (t.objective.Some? ==> |t.objective.value| <= n) && (t.priority.Some? ==> |t.priority.value| <= n)
      {
        var i :| 0 <= i < |r| && r[i] == t;
        assert s[i] in s;
      }
    }
  }

  /** One more row: the zeroing of a prefix grows by that row's verdict. */
  lemma ZeroingStep(s: seq<Fact>, i: int)
    requires 0 <= i < |s|
    ensures ZeroRepeatedBudgets(s[..i + 1]) ==
      ZeroRepeatedBudgets(s[..i]) + [if KeyOf(s[i]) in Keys(s[..i]) then Zeroed(s[i]) else s[i]]
    ensures Keys(s[..i + 1]) == Keys(s[..i]) + {KeyOf(s[i])}
  {
    assert s[..i + 1][..i] == s[..i];
  }

  /** The state of the in-place pass: the first `i` rows done, the rest as they were. */
  ghost predicate ZeroedUpTo(s: seq<Fact>, cur: seq<Fact>, i: int) {
    && |cur| == |s| && 0 <= i <= |s|
    && cur[..i] == ZeroRepeatedBudgets(s[..i])
    && forall j :: i <= j < |s| ==> cur[j] == s[j]
  }

  /** Writing row `i`'s verdict extends the done prefix by one row. */
  lemma ZeroingStepInPlace(s: seq<Fact>, cur: seq<Fact>, i: int, out: Fact)
    requires ZeroedUpTo(s, cur, i) && i < |s|
    requires out == if KeyOf(s[i]) in Keys(s[..i]) then Zeroed(s[i]) else s[i]
    ensures ZeroedUpTo(s, cur[i := out], i + 1)
    ensures Keys(s[..i + 1]) == Keys(s[..i]) + {KeyOf(s[i])}
  {
    ZeroingStep(s, i);
    assert cur[i := out][..i + 1] == cur[..i] + [out];
  }

  /**
   * Budget zeroing in place over the rows of `master`: one pass that keeps
   * the keys seen so far.
   */
  method ZeroRepeatedBudgetsInPlace(a: array<Fact>)
    modifies a
    ensures a[..] == ZeroRepeatedBudgets(old(a[..]))
  {
    ghost var s := a[..];
    var seen: set<BudgetKey> := {};
    var i := 0;
    while i < a.Length
      invariant ZeroedUpTo(s, a[..], i)
      invariant seen == Keys(s[..i])
    {
      var row := a[i];
      var k := KeyOf(row);
      var out := if k in seen then Zeroed(row) else row;
      ghost var before := a[..];
      ZeroingStepInPlace(s, before, i, out);
      a[i] := out;
      assert a[..] == before[i := out];
      seen := seen + {k};
      i := i + 1;
    }
    assert a[..a.Length] == a[..] && s[..a.Length] == s;
  }

  /**
   * Lines 445-448: `master.drop_duplicates(inplace=True)`, then budget
   * zeroing, on an array holding the rows.
   */
  method FinaliseMaster(merged: seq<Fact>) returns (a: array<Fact>)
    ensures a[..] == ZeroRepeatedBudgets(Dedup(merged))
  {
    var kept := DropDuplicates(merged);
    a := new Fact[|kept|](i requires 0 <= i < |kept| => kept[i]);
    assert a[..] == kept;
    ZeroRepeatedBudgetsInPlace(a);
  }
}
