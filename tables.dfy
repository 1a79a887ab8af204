/**
 * The DataFrame operations the pipeline is built from, over tables that are
 * sequences of rows: boolean-mask selection, per-row rewriting,
 * `drop_duplicates`, inner merge and left join.
 *
 * Joins produce their rows in nested-loop order (each left row, in order,
 * followed by its matches in right order).
 */
module Tables {

  /** `df[mask]`: the rows that satisfy `keep`, in their original order. */
  function Filter<T(!new)>(s: seq<T>, keep: T -> bool): (r: seq<T>)
    ensures |r| <= |s|
    ensures forall x :: x in r <==> x in s && keep(x)
  {
    if s == [] then []
    else
      assert s == [s[0]] + s[1..];
      (if keep(s[0]) then [s[0]] else []) + Filter(s[1..], keep)
  }

  /** `df[mask]` keeps each selected row as often as it occurs and drops every other row. */
  lemma {:induction false} FilterMultiplicity<T(!new)>(s: seq<T>, keep: T -> bool)
    ensures forall x :: multiset(Filter(s, keep))[x] == if keep(x) then multiset(s)[x] else 0
  {
    if s != [] {
      FilterMultiplicity(s[1..], keep);
      assert s == [s[0]] + s[1..];
      assert multiset(s) == multiset{s[0]} + multiset(s[1..]);
    }
  }

  /** Selecting rows from two stacked tables selects from each in turn. */
  lemma {:induction false} FilterConcat<T(!new)>(a: seq<T>, b: seq<T>, keep: T -> bool)
    ensures Filter(a + b, keep) == Filter(a, keep) + Filter(b, keep)
  {
    if a != [] {
      var head := if keep(a[0]) then [a[0]] else [];
      var rest, tail := Filter(a[1..], keep), Filter(b, keep);
      assert Filter(a + b, keep) == head + (rest + tail) by {
        assert (a + b)[0] == a[0] && (a + b)[1..] == a[1..] + b;
        FilterConcat(a[1..], b, keep);
      }
      assert Filter(a, keep) == head + rest;
      ConcatAssoc(head, rest, tail);
    } else {
      assert a + b == b;
    }
  }

  /** Two tests that agree on every row select the same rows. */
  lemma {:induction false} FilterAgrees<T(!new)>(s: seq<T>, f: T -> bool, g: T -> bool)
    requires forall x :: x in s ==> f(x) == g(x)
    ensures Filter(s, f) == Filter(s, g)
  {
    if s != [] {
      FilterAgrees(s[1..], f, g);
    }
  }

  /** A leading stretch of rows that `keep` rejects contributes nothing. */
  lemma {:induction false} FilterSkipsPrefix<T(!new)>(s: seq<T>, n: nat, keep: T -> bool)
    requires n <= |s|
    requires forall i :: 0 <= i < n ==> !keep(s[i])
    ensures Filter(s, keep) == Filter(s[n..], keep)
  {
    if n > 0 {
      FilterSkipsPrefix(s[1..], n - 1, keep);
      assert s[1..][n - 1..] == s[n..];
    }
  }

  /** Rewriting every row with `f` (a column assignment, `replace`, `apply`). */
  function MapRows<T, U>(s: seq<T>, f: T -> U): (r: seq<U>)
    ensures |r| == |s|
    ensures forall i :: 0 <= i < |s| ==> r[i] == f(s[i])
  {
    if s == [] then [] else [f(s[0])] + MapRows(s[1..], f)
  }

  lemma {:induction false} MapRowsMembership<T, U>(s: seq<T>, f: T -> U, y: U)
    ensures y in MapRows(s, f) <==> exists x :: x in s && y == f(x)
  {
    var r := MapRows(s, f);
    if y in r {
      var i :| 0 <= i < |r| && r[i] == y;
      assert s[i] in s;
    }
    if exists x :: x in s && y == f(x) {
      var x :| x in s && y == f(x);
      var i :| 0 <= i < |s| && s[i] == x;
      assert r[i] == y;
    }
  }

  lemma {:induction false} MapRowsConcat<T, U>(a: seq<T>, b: seq<T>, f: T -> U)
    ensures MapRows(a + b, f) == MapRows(a, f) + MapRows(b, f)
  {
    var l, r := MapRows(a + b, f), MapRows(a, f) + MapRows(b, f);
    assert |l| == |r|;
    forall i | 0 <= i < |l| ensures l[i] == r[i] {
      if i < |a| { assert (a + b)[i] == a[i]; } else { assert (a + b)[i] == b[i - |a|]; }
    }
  }

  /** Two rewrites that agree on every row give the same table. */
  lemma MapRowsAgrees<T, U>(s: seq<T>, f: T -> U, g: T -> U)
    requires forall x :: x in s ==> f(x) == g(x)
    ensures MapRows(s, f) == MapRows(s, g)
  {
    assert forall i :: 0 <= i < |s| ==> MapRows(s, f)[i] == MapRows(s, g)[i] by {
      forall i | 0 <= i < |s| ensures MapRows(s, f)[i] == MapRows(s, g)[i] {
        assert s[i] in s;
      }
    }
  }

  /** No row occurs twice. */
  predicate Distinct<T(==)>(s: seq<T>) {
    forall i, j :: 0 <= i < j < |s| ==> s[i] != s[j]
  }

  /** Selecting rows keeps a table free of duplicates. */
  lemma {:induction false} FilterKeepsDistinct<T(!new)>(s: seq<T>, keep: T -> bool)
    requires Distinct(s)
    ensures Distinct(Filter(s, keep))
  {
    if s != [] {
      assert Distinct(s[1..]);
      FilterKeepsDistinct(s[1..], keep);
      assert s[0] !in s[1..];
    }
  }

  /**
   * `drop_duplicates()`: the first occurrence of every row, in order of
   * first occurrence.
   */
  function Dedup<T(==,!new)>(s: seq<T>): (r: seq<T>)
    ensures forall x :: x in r <==> x in s
    ensures Distinct(r)
    ensures |r| <= |s|
    decreases |s|
  {
    if s == [] then []
    else
      var d := Dedup(s[..|s| - 1]);
      assert s == s[..|s| - 1] + [s[|s| - 1]];
      if s[|s| - 1] in d then d else d + [s[|s| - 1]]
  }

  /** A table that already has no duplicate rows is left as it is. */
  lemma {:induction false} DedupOfDistinct<T(!new)>(s: seq<T>)
    requires Distinct(s)
    ensures Dedup(s) == s
    decreases |s|
  {
    if s != [] {
      var p := s[..|s| - 1];
      assert Distinct(p);
      DedupOfDistinct(p);
      assert s[|s| - 1] !in p;
      assert s == p + [s[|s| - 1]];
    }
  }

  /** Dropping duplicates a second time changes nothing. */
  lemma DedupIdempotent<T(!new)>(s: seq<T>)
    ensures Dedup(Dedup(s)) == Dedup(s)
  {
    DedupOfDistinct(Dedup(s));
  }

  /**
   * `drop_duplicates(inplace=True)` as pandas runs it: one pass that hashes
   * each row and keeps it only if it has not been seen before.
   */
  method DropDuplicates<T(==,!new)>(rows: seq<T>) returns (kept: seq<T>)
    ensures kept == Dedup(rows)
  {
    kept := [];
    var seen: set<T> := {};
    var i := 0;
    while i < |rows|
      invariant 0 <= i <= |rows|
      invariant kept == Dedup(rows[..i])
      invariant forall x :: x in seen <==> x in kept
    {
      assert rows[..i + 1][..i] == rows[..i];
      if rows[i] !in seen {
        kept := kept + [rows[i]];
        seen := seen + {rows[i]};
      }
      i := i + 1;
    }
    assert rows[..|rows|] == rows;
  }

  /** The rows that one left row `x` contributes to an inner merge. */
  function Matches<L, R(!new), T(!new)>(x: L, right: seq<R>, on: (L, R) -> bool, emit: (L, R) -> T): (out: seq<T>)
    ensures |out| <= |right|
    ensures forall t :: t in out <==> exists y :: y in right && on(x, y) && t == emit(x, y)
  {
    if right == [] then []
    else
      assert right == [right[0]] + right[1..];
      (if on(x, right[0]) then [emit(x, right[0])] else []) + Matches(x, right[1..], on, emit)
  }

  /**
   * The rows of one left row `x` are `emit(x, y)` for each right row `y` it
   * matches, once per such row and in the right table's order.
   */
  lemma {:induction false} MatchesInOrder<L, R(!new), T(!new)>(x: L, right: seq<R>, on: (L, R) -> bool, emit: (L, R) -> T)
    ensures Matches(x, right, on, emit) == MapRows(Filter(right, y => on(x, y)), y => emit(x, y))
  {
    if right != [] {
      MatchesInOrder(x, right[1..], on, emit);
      var head := if on(x, right[0]) then [right[0]] else [];
      MapRowsConcat(head, Filter(right[1..], y => on(x, y)), y => emit(x, y));
    }
  }

  /** `left.merge(right, on=...)` (inner): one output row per matching pair. */
  function InnerJoin<L(!new), R(!new), T(!new)>(left: seq<L>, right: seq<R>, on: (L, R) -> bool, emit: (L, R) -> T): (out: seq<T>)
    ensures forall t :: t in out <==> exists x, y :: x in left && y in right && on(x, y) && t == emit(x, y)
  {
    if left == [] then []
    else
      assert left == [left[0]] + left[1..];
      Matches(left[0], right, on, emit) + InnerJoin(left[1..], right, on, emit)
  }

  lemma ConcatAssoc<T>(m: seq<T>, rest: seq<T>, tail: seq<T>)
    ensures m + (rest + tail) == (m + rest) + tail
  {
  }

  lemma InnerJoinCons<L(!new), R(!new), T(!new)>(x: L, rest: seq<L>, right: seq<R>, on: (L, R) -> bool, emit: (L, R) -> T)
    ensures InnerJoin([x] + rest, right, on, emit) == Matches(x, right, on, emit) + InnerJoin(rest, right, on, emit)
  {
    assert ([x] + rest)[0] == x && ([x] + rest)[1..] == rest;
  }

  /**
   * Stacked left tables merge one after the other: every left row
   * contributes its own `Matches`, in the left table's order.
   */
  lemma {:induction false} InnerJoinConcat<L(!new), R(!new), T(!new)>(a: seq<L>, b: seq<L>, right: seq<R>, on: (L, R) -> bool, emit: (L, R) -> T)
    ensures InnerJoin(a + b, right, on, emit) == InnerJoin(a, right, on, emit) + InnerJoin(b, right, on, emit)
  {
    if a == [] {
      assert a + b == b;
    } else {
      var x, rest := a[0], a[1..];
      assert a == [x] + rest && a + b == [x] + (rest + b);
      InnerJoinCons(x, rest + b, right, on, emit);
      InnerJoinCons(x, rest, right, on, emit);
      InnerJoinConcat(rest, b, right, on, emit);
      ConcatAssoc(Matches(x, right, on, emit), InnerJoin(rest, right, on, emit), InnerJoin(b, right, on, emit));
    }
  }

  /** A single left row yields one output row per matching right row. */
  lemma InnerJoinOfRow<L(!new), R(!new), T(!new)>(x: L, right: seq<R>, on: (L, R) -> bool, emit: (L, R) -> T)
    ensures InnerJoin([x], right, on, emit) == MapRows(Filter(right, y => on(x, y)), y => emit(x, y))
  {
    assert [x][1..] == [];
    MatchesInOrder(x, right, on, emit);
  }

  /**
   * The rows one left row contributes to a left join: its matches, or the
   * row itself padded with nulls (`unmatched`) when nothing matches.
   */
  function LeftRows<L, R(!new), T(!new)>(x: L, right: seq<R>, on: (L, R) -> bool, emit: (L, R) -> T, unmatched: L -> T): (out: seq<T>)
    ensures out != []
    ensures forall t :: t in out <==>
      (exists y :: y in right && on(x, y) && t == emit(x, y)) ||
      ((forall y :: y in right ==> !on(x, y)) && t == unmatched(x))
  {
    var m := Matches(x, right, on, emit);
    assert forall y :: y in right && on(x, y) ==> emit(x, y) in m;
    if m == [] then [unmatched(x)] else assert m[0] in m; m
  }

  /** `left.join(right, how='left')`: every left row survives at least once. */
  function LeftJoin<L(!new), R(!new), T(!new)>(left: seq<L>, right: seq<R>, on: (L, R) -> bool, emit: (L, R) -> T, unmatched: L -> T): (out: seq<T>)
    ensures |out| >= |left|
    ensures forall t :: t in out <==> exists x :: x in left && t in LeftRows(x, right, on, emit, unmatched)
  {
    if left == [] then []
    else
      assert left == [left[0]] + left[1..];
      LeftRows(left[0], right, on, emit, unmatched) + LeftJoin(left[1..], right, on, emit, unmatched)
  }

  lemma LeftJoinCons<L(!new), R(!new), T(!new)>(x: L, rest: seq<L>, right: seq<R>, on: (L, R) -> bool, emit: (L, R) -> T, unmatched: L -> T)
    ensures LeftJoin([x] + rest, right, on, emit, unmatched) == LeftRows(x, right, on, emit, unmatched) + LeftJoin(rest, right, on, emit, unmatched)
  {
    assert ([x] + rest)[0] == x && ([x] + rest)[1..] == rest;
  }

  /** Stacked left tables are joined one after the other, in order. */
  lemma {:induction false} LeftJoinConcat<L(!new), R(!new), T(!new)>(a: seq<L>, b: seq<L>, right: seq<R>, on: (L, R) -> bool, emit: (L, R) -> T, unmatched: L -> T)
    ensures LeftJoin(a + b, right, on, emit, unmatched) == LeftJoin(a, right, on, emit, unmatched) + LeftJoin(b, right, on, emit, unmatched)
  {
    if a == [] {
      assert a + b == b;
    } else {
      var x, rest := a[0], a[1..];
      assert a == [x] + rest && a + b == [x] + (rest + b);
      LeftJoinCons(x, rest + b, right, on, emit, unmatched);
      LeftJoinCons(x, rest, right, on, emit, unmatched);
      LeftJoinConcat(rest, b, right, on, emit, unmatched);
      ConcatAssoc(LeftRows(x, right, on, emit, unmatched), LeftJoin(rest, right, on, emit, unmatched), LeftJoin(b, right, on, emit, unmatched));
    }
  }

  /**
   * A single left row yields one output row per matching right row, in the
   * right table's order, or exactly one null-padded row when none matches.
   */
  lemma LeftJoinOfRow<L(!new), R(!new), T(!new)>(x: L, right: seq<R>, on: (L, R) -> bool, emit: (L, R) -> T, unmatched: L -> T)
    ensures var matching := Filter(right, y => on(x, y));
      LeftJoin([x], right, on, emit, unmatched) ==
        if matching == [] then [unmatched(x)] else MapRows(matching, y => emit(x, y))
  {
    assert [x][1..] == [];
    MatchesInOrder(x, right, on, emit);
  }
}
