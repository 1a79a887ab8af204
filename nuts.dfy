/**
 * NUTS region labelling and coordinates (lines 450-468): the partner's
 * `nuts_0`..`nuts_2` codes become "[code] - Description" labels, and the
 * code is sliced back out of each label to look up its centroid.
 */
module Nuts {
  import opened Base
  import opened Tables
  import opened Facts

  /** A `keep_nuts` row, reduced to the two columns the name map uses. */
  datatype NutsRow = NutsRow(nutsId: string, description: Option<string>)

  /**
   * `name_map_dic` (line 450): nuts_id to description; when an id repeats,
   * the later row's description wins.
   */
  function NameMap(rows: seq<NutsRow>): (m: map<string, Option<string>>)
    ensures forall c :: c in m <==> exists i :: 0 <= i < |rows| && rows[i].nutsId == c
  {
    if rows == [] then map[]
    else
      var p := rows[..|rows| - 1];
      assert forall i :: 0 <= i < |p| ==> p[i] == rows[i];
      NameMap(p)[rows[|rows| - 1].nutsId := rows[|rows| - 1].description]
  }

  /** The description a code maps to is the one on its last row. */
  lemma {:induction false} NameMapLastWins(rows: seq<NutsRow>, i: int)
    requires 0 <= i < |rows|
    requires forall j :: i < j < |rows| ==> rows[j].nutsId != rows[i].nutsId
    ensures NameMap(rows)[rows[i].nutsId] == rows[i].description
    decreases |rows|
  {
    if i < |rows| - 1 {
      NameMapLastWins(rows[..|rows| - 1], i);
    }
  }

  predicate IsUpper(c: char) { 'A' <= c <= 'Z' }
  predicate IsLower(c: char) { 'a' <= c <= 'z' }

  /** An upper-case ASCII letter becomes the same letter in lower case; anything else is kept. */
  function LowerChar(c: char): (d: char)
    ensures IsUpper(c) ==> IsLower(d) && d as int - 'a' as int == c as int - 'A' as int
    ensures !IsUpper(c) ==> d == c
  {
    if IsUpper(c) then (c as int + 32) as char else c
  }

  /** A lower-case ASCII letter becomes the same letter in upper case; anything else is kept. */
  function UpperChar(c: char): (d: char)
    ensures IsLower(c) ==> IsUpper(d) && d as int - 'A' as int == c as int - 'a' as int
    ensures !IsLower(c) ==> d == c
  {
    if IsLower(c) then (c as int - 32) as char else c
  }

  /** `a` and `b` are one character up to ASCII case. */
  predicate SameLetter(a: char, b: char) {
    a == b ||
    (IsUpper(a) && IsLower(b) && b as int - 'a' as int == a as int - 'A' as int) ||
    (IsLower(a) && IsUpper(b) && b as int - 'A' as int == a as int - 'a' as int)
  }

  /** `str.lower()` on ASCII letters. */
  function Lower(s: string): (r: string)
    ensures |r| == |s|
    ensures forall i :: 0 <= i < |s| ==> !IsUpper(r[i]) && SameLetter(s[i], r[i])
  {
    seq(|s|, i requires 0 <= i < |s| => LowerChar(s[i]))
  }

  /** `str.capitalize()` on ASCII letters: the first character upper-cased, the rest lower-cased. */
  function Capitalize(s: string): (r: string)
    ensures |r| == |s|
    ensures |s| > 0 ==> !IsLower(r[0])
    ensures forall i :: 0 < i < |s| ==> !IsUpper(r[i])
    ensures forall i :: 0 <= i < |s| ==> SameLetter(s[i], r[i])
  {
    if s == [] then [] else [UpperChar(s[0])] + Lower(s[1..])
  }

  /** Lower-casing first changes nothing: `d.lower().capitalize() == d.capitalize()`. */
  lemma {:induction false} CapitalizeIgnoresLower(d: string)
    ensures Capitalize(Lower(d)) == Capitalize(d)
  {
    if d != [] {
      assert Lower(d)[1..] == Lower(d[1..]);
      assert LowerChar(LowerChar(d[0])) == LowerChar(d[0]);
      assert UpperChar(LowerChar(d[0])) == UpperChar(d[0]);
      assert forall i :: 0 <= i < |d| - 1 ==> LowerChar(LowerChar(d[1..][i])) == LowerChar(d[1..][i]);
    }
  }

  /** The textual null that `fillna('nan')` writes into empty cells (line 452). */
  const NullText := "nan"

  /**
   * The `applymap` lambda of line 453 on one cell after `fillna('nan')`: a
   * null (or the text "nan") stays null; any other code becomes its label,
   * or stops the run when the name map has no usable description for it.
   */
  function Label(code: Option<string>, names: map<string, Option<string>>): (r: Result<Option<string>, EtlError>)
    ensures r.Success? && r.value.None? <==> code.None? || code == Some(NullText)
    ensures r.Failure? <==> code.Some? && code.value != NullText && (code.value !in names || names[code.value].None?)
    ensures r.Failure? ==> r.error == (if code.value !in names then MissingNutsName(code.value) else NullNutsName(code.value))
    ensures r.Success? && r.value.Some? ==>
      r.value.value == "[" + code.value + "] - " + Capitalize(Lower(names[code.value].value))
  {
    match code
    case None => Success(None)
    case Some(c) =>
      if c == NullText then Success(None)
      else if c !in names then Failure(MissingNutsName(c))
      else match names[c]
        case None => Failure(NullNutsName(c))
        case Some(d) => Success(Some("[" + c + "] - " + Capitalize(Lower(d))))
  }

  /** Python's `s[i:j]` for non-negative bounds: both ends are clamped to the string. */
  function PySlice(s: string, i: nat, j: nat): (r: string)
    ensures |r| <= |s|
    ensures i <= j <= |s| ==> r == s[i..j]
    ensures j <= i || |s| <= i ==> r == ""
    ensures i < |s| < j ==> r == s[i..]
  {
    var lo := if i < |s| then i else |s|;
    var hi := if j < lo then lo else if j < |s| then j else |s|;
    s[lo..hi]
  }

  /** A label produced for code `c` yields `c` back from `str.slice(1, 1 + |c|)`. */
  lemma SliceRecoversCode(code: string, names: map<string, Option<string>>)
    requires Label(Some(code), names).Success? && Label(Some(code), names).value.Some?
    ensures PySlice(Label(Some(code), names).value.value, 1, 1 + |code|) == code
  {
    var d := names[code].value;
    var l := "[" + code + "] - " + Capitalize(Lower(d));
    assert l[1..1 + |code|] == code;
  }

  /**
   * One column of the `applymap` (lines 452-453): every cell labelled, or
   * the error of the first cell that cannot be.
   */
  function LabelColumn(codes: seq<Option<string>>, names: map<string, Option<string>>): (r: Result<seq<Option<string>>, EtlError>)
    ensures r.Success? ==> |r.value| == |codes| && forall i :: 0 <= i < |codes| ==> Label(codes[i], names) == Success(r.value[i])
    ensures r.Failure? ==> exists i ::
      && 0 <= i < |codes| && Label(codes[i], names) == Failure(r.error)
      && forall j :: 0 <= j < i ==> Label(codes[j], names).Success?
    ensures r.Success? <==> forall i :: 0 <= i < |codes| ==> Label(codes[i], names).Success?
  {
    if codes == [] then Success([])
    else
      var head :- Label(codes[0], names);
      var tail :- LabelColumn(codes[1..], names);
      Success([head] + tail)
  }

  function NutsCode(t: Fact, level: nat): Option<string> {
    match t.partner
    case None => None
    case Some(p) => if level == 0 then p.nuts0 else if level == 1 then p.nuts1 else p.nuts2
  }

  function Column(rows: seq<Fact>, level: nat): (c: seq<Option<string>>)
    ensures |c| == |rows| && forall i :: 0 <= i < |rows| ==> c[i] == NutsCode(rows[i], level)
  {
    seq(|rows|, i requires 0 <= i < |rows| => NutsCode(rows[i], level))
  }

  /** The row with its three NUTS codes replaced by labels; a row without partner has no codes to replace. */
  function Relabel(t: Fact, l0: Option<string>, l1: Option<string>, l2: Option<string>): (r: Fact)
    ensures r.partner.Some? <==> t.partner.Some?
    ensures t.partner.Some? ==> NutsCode(r, 0) == l0 && NutsCode(r, 1) == l1 && NutsCode(r, 2) == l2
    ensures r.(partner := t.partner) == t
    ensures t.partner.Some? ==> r.partner.value.(nuts0 := t.partner.value.nuts0, nuts1 := t.partner.value.nuts1, nuts2 := t.partner.value.nuts2) == t.partner.value
  {
    match t.partner
    case None => t
    case Some(p) => t.(partner := Some(p.(nuts0 := l0, nuts1 := l1, nuts2 := l2)))
  }

  /**
   * Lines 452-453: `nuts_0`, `nuts_1`, `nuts_2` labelled column by column,
   * so a failing cell of `nuts_0` is reported before any of `nuts_1`.
   */
  function LabelNuts(rows: seq<Fact>, names: map<string, Option<string>>): (r: Result<seq<Fact>, EtlError>)
    ensures r.Success? ==> |r.value| == |rows|
    ensures r.Success? <==> forall i, level :: 0 <= i < |rows| && 0 <= level < 3 ==> Label(NutsCode(rows[i], level), names).Success?
  {
    var c0 :- LabelColumn(Column(rows, 0), names);
    var c1 :- LabelColumn(Column(rows, 1), names);
    var c2 :- LabelColumn(Column(rows, 2), names);
    Success(seq(|rows|, i requires 0 <= i < |rows| => Relabel(rows[i], c0[i], c1[i], c2[i])))
  }

  /**
   * Labelling rewrites only the three NUTS cells: each labelled cell is the
   * label of the code that was there, and every other column is unchanged.
   */
  lemma LabelNutsCells(rows: seq<Fact>, names: map<string, Option<string>>, i: int, level: nat)
    requires LabelNuts(rows, names).Success? && 0 <= i < |rows| && level < 3
    ensures Label(NutsCode(rows[i], level), names) == Success(NutsCode(LabelNuts(rows, names).value[i], level))
    ensures var t, u := rows[i], LabelNuts(rows, names).value[i];
      u.partner.None? == t.partner.None? &&
      u.(partner := t.partner) == t &&
      (t.partner.Some? ==> u.partner.value.(nuts0 := t.partner.value.nuts0, nuts1 := t.partner.value.nuts1, nuts2 := t.partner.value.nuts2) == t.partner.value)
  {
    var c0 := LabelColumn(Column(rows, 0), names).value;
    var c1 := LabelColumn(Column(rows, 1), names).value;
    var c2 := LabelColumn(Column(rows, 2), names).value;
    assert Label(NutsCode(rows[i], 0), names) == Success(c0[i]);
    assert Label(NutsCode(rows[i], 1), names) == Success(c1[i]);
    assert Label(NutsCode(rows[i], 2), names) == Success(c2[i]);
  }

  /** Labelling keeps every project and every objective and priority code. */
  lemma LabelNutsKeeps(rows: seq<Fact>, names: map<string, Option<string>>, n: nat)
    requires LabelNuts(rows, names).Success?
    ensures ProjectIds(LabelNuts(rows, names).value) == ProjectIds(rows)
    ensures CodesFit(rows, n) ==> CodesFit(LabelNuts(rows, names).value, n)
  {
    var out := LabelNuts(rows, names).value;
    forall i | 0 <= i < |rows|
      ensures out[i].projectId == rows[i].projectId && out[i].objective == rows[i].objective && out[i].priority == rows[i].priority
    {
      LabelNutsCells(rows, names, i, 0);
    }
    forall p | p in ProjectIds(rows) ensures p in ProjectIds(out) {
      var i :| 0 <= i < |rows| && rows[i].projectId == p;
      assert out[i] in out;
    }
  }

  /** Column `level` of `rows` holds at least one NUTS string. */
  predicate HasText(rows: seq<Fact>, level: nat) {
    exists i :: 0 <= i < |rows| && NutsCode(rows[i], level).Some?
  }

  /**
   * A labelled column holds a string exactly when the column before
   * labelling held a code other than null and "nan".
   */
  lemma LabelledText(rows: seq<Fact>, names: map<string, Option<string>>, level: nat)
    requires LabelNuts(rows, names).Success? && level < 3
    ensures HasText(LabelNuts(rows, names).value, level) <==>
      exists i :: 0 <= i < |rows| && NutsCode(rows[i], level).Some? && NutsCode(rows[i], level) != Some(NullText)
  {
    var out := LabelNuts(rows, names).value;
    if HasText(out, level) {
      var i :| 0 <= i < |out| && NutsCode(out[i], level).Some?;
      LabelNutsCells(rows, names, i, level);
    }
    if exists i :: 0 <= i < |rows| && NutsCode(rows[i], level).Some? && NutsCode(rows[i], level) != Some(NullText) {
      var i :| 0 <= i < |rows| && NutsCode(rows[i], level).Some? && NutsCode(rows[i], level) != Some(NullText);
      LabelNutsCells(rows, names, i, level);
    }
  }

  /**
   * Lines 461, 464 and 467 use `.str.slice` on the labelled `nuts_0`,
   * `nuts_1` and `nuts_2`. A column in which every label is null is stored
   * as floats, and the `.str` accessor raises on it. The columns are
   * sliced in that order.
   */
  function SliceableColumns(rows: seq<Fact>): (r: Result<seq<Fact>, EtlError>)
    ensures r.Success? <==> HasText(rows, 0) && HasText(rows, 1) && HasText(rows, 2)
    ensures r.Success? ==> r.value == rows
    ensures r.Failure? ==>
      && r.error.NoStringColumn? && r.error.level < 3 && !HasText(rows, r.error.level)
      && forall l :: 0 <= l < r.error.level ==> HasText(rows, l)
  {
    if !HasText(rows, 0) then Failure(NoStringColumn(0))
    else if !HasText(rows, 1) then Failure(NoStringColumn(1))
    else if !HasText(rows, 2) then Failure(NoStringColumn(2))
    else Success(rows)
  }

  /** `coord_dict` (line 459): centroid latitude and longitude by NUTS code. */
  datatype CoordTable = CoordTable(lat: map<string, real>, lng: map<string, real>)

  /** A centroid; a component is null when the code is null or not in the table. */
  datatype Point = Point(lat: Option<real>, lng: Option<real>)

  /** `coord_dict[...].get(x, np.nan)`. */
  function Get(m: map<string, real>, key: Option<string>): (v: Option<real>)
    ensures v.Some? <==> key.Some? && key.value in m
    ensures v.Some? ==> v.value == m[key.value]
  {
    if key.Some? && key.value in m then Some(m[key.value]) else None
  }

  function Locate(coords: CoordTable, key: Option<string>): Point {
    Point(Get(coords.lat, key), Get(coords.lng, key))
  }

  /** `.str.slice(1, hi)` on a possibly null label. */
  function SliceLabel(cell: Option<string>, hi: nat): Option<string> {
    match cell
    case None => None
    case Some(l) => Some(PySlice(l, 1, hi))
  }

  /** A row of `master` as written: the fact and the centroids of its four NUTS levels. */
  datatype MasterRow = MasterRow(fact: Fact, nuts0: Point, nuts1: Point, nuts2: Point, nuts3: Point)

  /** Lines 461-471: the code of each labelled level sliced out of its label, `nuts_3` used as it is. */
  function LocateRow(coords: CoordTable, t: Fact): (m: MasterRow)
    ensures m.fact == t
    ensures t.partner.None? ==> forall level :: 0 <= level < 3 ==> PointAt(m, level) == Point(None, None)
    ensures t.partner.None? ==> m.nuts3 == Point(None, None)
  {
    var nuts3 := if t.partner.Some? then t.partner.value.nuts3 else None;
    MasterRow(t,
      Locate(coords, SliceLabel(NutsCode(t, 0), 3)),
      Locate(coords, SliceLabel(NutsCode(t, 1), 4)),
      Locate(coords, SliceLabel(NutsCode(t, 2), 5)),
      Locate(coords, nuts3))
  }

  /** The code length each labelled level is sliced at: 2, 3 and 4 characters. */
  function LevelWidth(level: nat): nat { level + 2 }

  function PointAt(m: MasterRow, level: nat): Point {
    if level == 0 then m.nuts0 else if level == 1 then m.nuts1 else m.nuts2
  }

  /**
   * A code of the width its level expects, once labelled, is found again by
   * the slice and located at its own centroid; a null code has no centroid.
   */
  lemma LocateLabelledCode(coords: CoordTable, names: map<string, Option<string>>, t: Fact, code: Option<string>, level: nat)
    requires level < 3
    requires Label(code, names).Success? && NutsCode(t, level) == Label(code, names).value
    requires code.Some? && code.value != NullText ==> |code.value| == LevelWidth(level)
    ensures code.None? || code == Some(NullText) ==> PointAt(LocateRow(coords, t), level) == Point(None, None)
    ensures code.Some? && code.value != NullText ==> PointAt(LocateRow(coords, t), level) == Locate(coords, code)
  {
    if code.Some? && code.value != NullText {
      SliceRecoversCode(code.value, names);
    }
  }
}
