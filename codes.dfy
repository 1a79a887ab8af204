/**
 * The code normaliser of keepStat_etl.py: thematic-objective and
 * investment-priority codes such as "(4)Low-carbon economy" or "(4c)..." are
 * rewritten so that their numeric part is zero-padded to two digits, and the
 * destination column width `varchar_max` is computed from the result.
 *
 * The two `str.replace` patterns are regular expressions (the pandas default
 * at the time): `(\([0-9]+\))` removes every parenthesised number, and
 * `(\([0-9]+)` removes every "(" followed by a number, closed or not.
 */
module Codes {
  import opened Base
  import opened Tables

  predicate IsDigit(c: char) {
    '0' <= c <= '9'
  }

  predicate AllDigits(s: string) {
    forall i :: 0 <= i < |s| ==> IsDigit(s[i])
  }

  predicate HasDigit(s: string) {
    exists i :: 0 <= i < |s| && IsDigit(s[i])
  }

  /** The longest prefix of `s` that is made of digits. */
  function LeadingDigits(s: string): (d: string)
    ensures |d| <= |s| && d == s[..|d|]
    ensures AllDigits(d)
    ensures |d| < |s| ==> !IsDigit(s[|d|])
  {
    if s != [] && IsDigit(s[0]) then [s[0]] + LeadingDigits(s[1..]) else []
  }

  /** The position of the first digit of `s`, or `|s|` when there is none. */
  function FirstDigitAt(s: string): (n: nat)
    ensures n <= |s|
    ensures forall i :: 0 <= i < n ==> !IsDigit(s[i])
    ensures n < |s| ==> IsDigit(s[n])
  {
    if s == [] || IsDigit(s[0]) then 0 else 1 + FirstDigitAt(s[1..])
  }

  /**
   * `str.extract(r'([0-9]+)')`: the first maximal run of digits, or null when
   * the string holds no digit.
   */
  function FirstDigitRun(s: string): (r: Option<string>)
    ensures r.None? <==> !HasDigit(s)
    ensures r.Some? ==> r.value != [] && AllDigits(r.value)
    ensures r.Some? ==> r.value == LeadingDigits(s[FirstDigitAt(s)..])
  {
    var n := FirstDigitAt(s);
    if n == |s| then None
    else
      assert IsDigit(s[n..][0]);
      Some(LeadingDigits(s[n..]))
  }

  /** The number a digit string denotes (leading zeros allowed). */
  function Value(s: string): nat
    requires AllDigits(s)
  {
    if s == [] then 0 else (s[0] as int - '0' as int) * Pow10(|s| - 1) + Value(s[1..])
  }

  function Pow10(n: nat): (p: nat)
    ensures p >= 1
  {
    if n == 0 then 1 else 10 * Pow10(n - 1)
  }

  /** `str.zfill(2)`: left-pads with '0' to at least two characters. */
  function ZFill2(d: string): (p: string)
    ensures |p| == if |d| < 2 then 2 else |d|
    ensures p[|p| - |d|..] == d
    ensures forall i :: 0 <= i < |p| - |d| ==> p[i] == '0'
  {
    if |d| < 2 then seq(2 - |d|, _ => '0') + d else d
  }

  /** Padding keeps the digits and the number they denote. */
  lemma {:induction false} ZFill2KeepsValue(d: string)
    requires AllDigits(d)
    ensures AllDigits(ZFill2(d)) && Value(ZFill2(d)) == Value(d)
  {
    var p := ZFill2(d);
    if |d| == 0 {
      assert p == "00";
      assert p[1..] == "0";
    } else if |d| == 1 {
      assert p == ['0'] + d;
      assert p[1..] == d;
    }
  }

  /** The zero-padded first digit run of a code that has one. */
  function PaddedRun(s: string): (p: string)
    requires HasDigit(s)
    ensures AllDigits(p)
    ensures |p| == if |FirstDigitRun(s).value| < 2 then 2 else |FirstDigitRun(s).value|
    ensures Value(p) == Value(FirstDigitRun(s).value)
  {
    ZFill2KeepsValue(FirstDigitRun(s).value);
    ZFill2(FirstDigitRun(s).value)
  }

  /** A parenthesised number "(" digits ")" starts at position `i` of `s`. */
  predicate ClosedCodeAt(s: string, i: nat) {
    i < |s| && s[i] == '(' && LeadingDigits(s[i + 1..]) != [] &&
    i + 1 + |LeadingDigits(s[i + 1..])| < |s| && s[i + 1 + |LeadingDigits(s[i + 1..])|] == ')'
  }

  /** An open code "(" digit starts at position `i` of `s`. */
  predicate OpenCodeAt(s: string, i: nat) {
    i + 1 < |s| && s[i] == '(' && IsDigit(s[i + 1])
  }

  predicate NoOpenCode(s: string) {
    forall i :: 0 <= i < |s| ==> !OpenCodeAt(s, i)
  }

  /** A character no closed code contains: neither a parenthesis nor a digit. */
  predicate Plain(c: char) {
    c != '(' && c != ')' && !IsDigit(c)
  }

  /** A character no open code contains: neither "(" nor a digit. */
  predicate OutsideOpenCode(c: char) {
    c != '(' && !IsDigit(c)
  }

  /** `str.replace('(\([0-9]+\))', '')`: removes every parenthesised number, scanning left to right. */
  function StripClosedCodes(s: string): (r: string)
    ensures |r| <= |s|
    ensures (forall i :: 0 <= i < |s| ==> s[i] != '(') ==> r == s
    decreases |s|
  {
    if s == [] then []
    else if ClosedCodeAt(s, 0) then StripClosedCodes(s[2 + |LeadingDigits(s[1..])|..])
    else [s[0]] + StripClosedCodes(s[1..])
  }

  /** A removed code is "(", digits and ")": every plain character survives, in order. */
  lemma {:induction false} StripClosedKeepsPlain(s: string)
    ensures Filter(StripClosedCodes(s), Plain) == Filter(s, Plain)
    decreases |s|
  {
    if s == [] {
    } else if ClosedCodeAt(s, 0) {
      var k := |LeadingDigits(s[1..])|;
      assert forall i :: 0 <= i < 2 + k ==> !Plain(s[i]) by {
        assert forall i :: 1 <= i < 1 + k ==> s[i] == LeadingDigits(s[1..])[i - 1];
      }
      FilterSkipsPrefix(s, 2 + k, Plain);
      StripClosedKeepsPlain(s[2 + k..]);
    } else {
      var rest := StripClosedCodes(s[1..]);
      StripClosedKeepsPlain(s[1..]);
      assert ([s[0]] + rest)[0] == s[0] && ([s[0]] + rest)[1..] == rest;
    }
  }

  /** A string in which no closed code starts anywhere is left as it is. */
  lemma {:induction false} StripClosedWithoutCodes(s: string)
    requires forall i :: 0 <= i < |s| ==> !ClosedCodeAt(s, i)
    ensures StripClosedCodes(s) == s
    decreases |s|
  {
    if s != [] {
      forall i | 0 <= i < |s[1..]| ensures !ClosedCodeAt(s[1..], i) {
        assert s[1..][i + 1..] == s[i + 2..];
        assert !ClosedCodeAt(s, i + 1);
      }
      StripClosedWithoutCodes(s[1..]);
    }
  }

  lemma StripClosedCons(c: char, t: string)
    requires c != '('
    ensures StripClosedCodes([c] + t) == [c] + StripClosedCodes(t)
  {
    var s := [c] + t;
    assert s[0] == c && s[1..] == t;
    assert !ClosedCodeAt(s, 0);
  }

  /** Text before the first "(" holds no code: it passes through, and stripping goes on after it. */
  lemma {:induction false} StripClosedPassesPlainPrefix(a: string, t: string)
    requires forall i :: 0 <= i < |a| ==> a[i] != '('
    ensures StripClosedCodes(a + t) == a + StripClosedCodes(t)
    decreases |a|
  {
    if a != [] {
      var c, b := a[0], a[1..];
      assert a == [c] + b;
      ConcatAssoc([c], b, t);
      StripClosedCons(c, b + t);
      assert forall i :: 0 <= i < |b| ==> b[i] != '(' by {
        assert forall i :: 0 <= i < |b| ==> b[i] == a[i + 1];
      }
      StripClosedPassesPlainPrefix(b, t);
      ConcatAssoc([c], b, StripClosedCodes(t));
    } else {
      assert a + t == t;
    }
  }

  /**
   * `str.replace('(\([0-9]+)', '')`: removes every "(" together with the
   * whole digit run after it. What is left holds no further match, and it
   * starts with a digit only if the input did.
   */
  function StripOpenCodes(s: string): (r: string)
    ensures |r| <= |s|
    ensures NoOpenCode(r)
    ensures r != [] && IsDigit(r[0]) ==> IsDigit(s[0])
    ensures NoOpenCode(s) ==> r == s
    decreases |s|
  {
    if s == [] then []
    else if s[0] == '(' && LeadingDigits(s[1..]) != [] then
      assert OpenCodeAt(s, 0);
      StripOpenCodes(s[1 + |LeadingDigits(s[1..])|..])
    else
      assert NoOpenCode(s) ==> NoOpenCode(s[1..]) by {
        if NoOpenCode(s) {
          forall i | 0 <= i < |s[1..]| ensures !OpenCodeAt(s[1..], i) {
            assert !OpenCodeAt(s, i + 1);
          }
        }
      }
      var rest := StripOpenCodes(s[1..]);
      assert !OpenCodeAt([s[0]] + rest, 0);
      assert forall i :: 1 <= i < |[s[0]] + rest| ==> OpenCodeAt([s[0]] + rest, i) == OpenCodeAt(rest, i - 1);
      [s[0]] + rest
  }

  /** A removed code is "(" and digits: every other character survives, in order. */
  lemma {:induction false} StripOpenKeepsOthers(s: string)
    ensures Filter(StripOpenCodes(s), OutsideOpenCode) == Filter(s, OutsideOpenCode)
    decreases |s|
  {
    if s == [] {
    } else if s[0] == '(' && LeadingDigits(s[1..]) != [] {
      var k := |LeadingDigits(s[1..])|;
      assert forall i :: 0 <= i < 1 + k ==> !OutsideOpenCode(s[i]) by {
        assert forall i :: 1 <= i < 1 + k ==> s[i] == LeadingDigits(s[1..])[i - 1];
      }
      FilterSkipsPrefix(s, 1 + k, OutsideOpenCode);
      StripOpenKeepsOthers(s[1 + k..]);
    } else {
      var rest := StripOpenCodes(s[1..]);
      StripOpenKeepsOthers(s[1..]);
      assert ([s[0]] + rest)[0] == s[0] && ([s[0]] + rest)[1..] == rest;
    }
  }

  lemma StripOpenCons(c: char, t: string)
    requires c != '('
    ensures StripOpenCodes([c] + t) == [c] + StripOpenCodes(t)
  {
    var s := [c] + t;
    assert s[0] == c && s[1..] == t;
  }

  /** Text before the first "(" holds no open code: it passes through, digits included. */
  lemma {:induction false} StripOpenPassesPrefix(a: string, t: string)
    requires forall i :: 0 <= i < |a| ==> a[i] != '('
    ensures StripOpenCodes(a + t) == a + StripOpenCodes(t)
    decreases |a|
  {
    if a != [] {
      var c, b := a[0], a[1..];
      assert a == [c] + b;
      ConcatAssoc([c], b, t);
      StripOpenCons(c, b + t);
      assert forall i :: 0 <= i < |b| ==> b[i] != '(' by {
        assert forall i :: 0 <= i < |b| ==> b[i] == a[i + 1];
      }
      StripOpenPassesPrefix(b, t);
      ConcatAssoc([c], b, StripOpenCodes(t));
    } else {
      assert a + t == t;
    }
  }

  /**
   * Normalisation of `thematic_objective` (lines 243-248 and 400-405): null
   * stays null, a code without digits becomes null, otherwise
   * "(" + zero-padded first digit run + ")" + the code with every
   * parenthesised number removed.
   */
  function NormalizeObjective(c: Option<string>): (r: Option<string>)
    ensures r.None? <==> c.None? || !HasDigit(c.value)
    ensures r.Some? ==> r.value == "(" + PaddedRun(c.value) + ")" + StripClosedCodes(c.value)
  {
    match c
    case None => None
    case Some(s) => if HasDigit(s) then Some("(" + PaddedRun(s) + ")" + StripClosedCodes(s)) else None
  }

  /**
   * Normalisation of `investment_priority` (lines 250-255 and 407-411): as
   * for objectives, but no ")" is written after the padded number and every
   * "(" + digits is removed from the rest, closed or not.
   */
  function NormalizePriority(c: Option<string>): (r: Option<string>)
    ensures r.None? <==> c.None? || !HasDigit(c.value)
    ensures r.Some? ==> r.value == "(" + PaddedRun(c.value) + StripOpenCodes(c.value)
  {
    match c
    case None => None
    case Some(s) => if HasDigit(s) then Some("(" + PaddedRun(s) + StripOpenCodes(s)) else None
  }

  /** Python's `<` on strings: first differing character, or a proper prefix. */
  predicate LexLess(a: string, b: string) {
    if a == [] then b != []
    else if b == [] then false
    else a[0] < b[0] || (a[0] == b[0] && LexLess(a[1..], b[1..]))
  }

  lemma {:induction false} ValueBound(s: string)
    requires AllDigits(s)
    ensures Value(s) < Pow10(|s|)
  {
    if s != [] {
      ValueBound(s[1..]);
      var d := s[0] as int - '0' as int;
      PlaceValueOrder(d, 10, Value(s[1..]), 0, Pow10(|s| - 1));
    }
  }

  /** A smaller leading digit wins whatever follows it: d1 * p + r1 < d2 * p + r2. */
  lemma {:induction false} PlaceValueOrder(d1: nat, d2: nat, r1: nat, r2: nat, p: nat)
    requires d1 < d2 && r1 < p
    ensures d1 * p + r1 < d2 * p + r2
  {
    var k := d2 - d1 - 1;
    assert d2 * p == d1 * p + p + k * p;
  }

  /** For digit strings of one length, string order is numeric order. */
  lemma {:induction false} SameLengthLexIsNumeric(a: string, b: string)
    requires AllDigits(a) && AllDigits(b) && |a| == |b|
    ensures LexLess(a, b) <==> Value(a) < Value(b)
  {
    if a != [] {
      SameLengthLexIsNumeric(a[1..], b[1..]);
      ValueBound(a[1..]);
      ValueBound(b[1..]);
      var da, db := a[0] as int - '0' as int, b[0] as int - '0' as int;
      var p := Pow10(|a| - 1);
      assert Value(a) == da * p + Value(a[1..]);
      assert Value(b) == db * p + Value(b[1..]);
      if da < db {
        PlaceValueOrder(da, db, Value(a[1..]), Value(b[1..]), p);
      } else if db < da {
        PlaceValueOrder(db, da, Value(b[1..]), Value(a[1..]), p);
      }
    }
  }

  /**
   * The reason for the padding: two codes whose numbers have one or two
   * digits (1 to 99) compare as strings exactly as their numbers compare.
   */
  lemma PaddedCodesSortNumerically(a: string, b: string)
    requires AllDigits(a) && AllDigits(b) && 1 <= |a| <= 2 && 1 <= |b| <= 2
    ensures LexLess(ZFill2(a), ZFill2(b)) <==> Value(a) < Value(b)
  {
    ZFill2KeepsValue(a);
    ZFill2KeepsValue(b);
    SameLengthLexIsNumeric(ZFill2(a), ZFill2(b));
  }

  /** Past two digits the padding no longer sorts: "100" sorts before "99". */
  lemma LongRunsMissort()
    ensures AllDigits("100") && AllDigits("99")
    ensures LexLess(ZFill2("100"), ZFill2("99")) && Value("100") > Value("99")
  {
    assert "100"[1..] == "00" && "00"[1..] == "0" && "99"[1..] == "9";
    assert Value("0") == 0 && Value("00") == 0;
    assert Value("9") == 9;
  }

  lemma {:induction false} LeadingDigitsAfterDigits(p: string, t: string)
    requires AllDigits(p)
    ensures LeadingDigits(p + t) == p + LeadingDigits(t)
  {
    if p == [] {
      assert p + t == t;
    } else {
      assert (p + t)[0] == p[0];
      assert (p + t)[1..] == p[1..] + t;
      LeadingDigitsAfterDigits(p[1..], t);
      assert p == [p[0]] + p[1..];
    }
  }

  lemma {:induction false} NoOpenCodeSuffix(s: string, k: nat)
    requires NoOpenCode(s) && k <= |s|
    ensures NoOpenCode(s[k..])
  {
    forall i | 0 <= i < |s[k..]| ensures !OpenCodeAt(s[k..], i) {
      assert !OpenCodeAt(s, k + i);
    }
  }

  /** After "(" the first digit run of "(" + p + t is p followed by t's leading digits. */
  lemma RunAfterParen(p: string, t: string)
    requires p != [] && AllDigits(p)
    ensures HasDigit("(" + p + t)
    ensures FirstDigitAt("(" + p + t) == 1
    ensures ("(" + p + t)[1..] == p + t
    ensures FirstDigitRun("(" + p + t) == Some(p + LeadingDigits(t))
  {
    var u := "(" + p + t;
    assert u[1..] == p + t;
    assert IsDigit(u[1]);
    LeadingDigitsAfterDigits(p, t);
  }

  /** A padded run is already at least two characters wide, so padding it again keeps it. */
  lemma ZFill2Wide(p: string)
    requires |p| >= 2
    ensures ZFill2(p) == p
  {
  }

  /** A leading "(" followed by a k-digit run is removed with the run, and stripping goes on after it. */
  lemma StripOpenDropsRun(s: string, k: nat)
    requires s != [] && s[0] == '(' && k == |LeadingDigits(s[1..])| > 0
    ensures StripOpenCodes(s) == StripOpenCodes(s[1 + k..])
  {
  }

  /** A first character that starts no open code is kept, and stripping goes on after it. */
  lemma StripOpenKeepsFirst(s: string)
    requires s != [] && !OpenCodeAt(s, 0)
    ensures StripOpenCodes(s) == [s[0]] + StripOpenCodes(s[1..])
  {
    assert s[0] == '(' ==> LeadingDigits(s[1..]) == [];
  }

  /** The pieces of "(" + p + t: its digit run after "(" is p and t's leading digits, and t's remainder follows. */
  lemma OpenCodeParts(p: string, t: string, u: string, k: nat)
    requires p != [] && AllDigits(p)
    requires u == "(" + p + t && k == |p| + |LeadingDigits(t)|
    ensures u != [] && u[0] == '(' && k == |LeadingDigits(u[1..])| > 0
    ensures u[1 + k..] == t[|LeadingDigits(t)|..]
  {
    assert u[1..] == p + t;
    LeadingDigitsAfterDigits(p, t);
  }

  /**
   * A leading open code "(" + p is removed together with the digits that
   * follow it in t, and stripping goes on with the rest of t, whatever it holds.
   */
  lemma StripOpenSkipsCode(p: string, t: string)
    requires p != [] && AllDigits(p)
    ensures StripOpenCodes("(" + p + t) == StripOpenCodes(t[|LeadingDigits(t)|..])
  {
    var u, k := "(" + p + t, |p| + |LeadingDigits(t)|;
    OpenCodeParts(p, t, u, k);
    StripOpenDropsRun(u, k);
  }

  lemma StripOpenAfterCode(p: string, t: string)
    requires p != [] && AllDigits(p) && NoOpenCode(t)
    ensures StripOpenCodes("(" + p + t) == t[|LeadingDigits(t)|..]
  {
    StripOpenSkipsCode(p, t);
    NoOpenCodeSuffix(t, |LeadingDigits(t)|);
  }

  /**
   * Two open codes with digits between them, as in "(1)7(2)": the digits
   * after the first code's ")" survive, giving ")7)".
   */
  lemma StripOpenTwoCodes(a: string, b: string, c: string)
    requires a != [] && AllDigits(a) && AllDigits(b) && c != [] && AllDigits(c)
    ensures StripOpenCodes("(" + a + ")" + b + "(" + c + ")") == ")" + b + ")"
  {
    var tail := "(" + c + ")";
    var t := ")" + (b + tail);
    TwoCodesParts(a, b, c, tail, t);
    StripOpenSkipsCode(a, t);
    StripOpenKeepsFirst(t);
    StripOpenPassesPrefix(b, tail);
    StripOpenSkipsCode(c, ")");
    ConcatAssoc(")", b, ")");
  }

  /** How "(" + a + ")" + b + "(" + c + ")" splits into the pieces the strip lemmas take. */
  lemma TwoCodesParts(a: string, b: string, c: string, tail: string, t: string)
    requires AllDigits(b)
    requires tail == "(" + c + ")" && t == ")" + (b + tail)
    ensures "(" + a + ")" + b + "(" + c + ")" == "(" + a + t
    ensures t[|LeadingDigits(t)|..] == t
    ensures t != [] && !OpenCodeAt(t, 0) && t[0] == ')' && t[1..] == b + tail
    ensures forall i :: 0 <= i < |b| ==> b[i] != '('
    ensures ")"[|LeadingDigits(")")|..] == ")" && StripOpenCodes(")") == ")"
  {
    assert LeadingDigits(t) == [];
    assert LeadingDigits(")") == [];
    assert NoOpenCode(")");
  }

  lemma StripClosedAfterCode(p: string, t: string)
    requires p != [] && AllDigits(p)
    ensures StripClosedCodes("(" + p + ")" + t) == StripClosedCodes(t)
  {
    var u := "(" + p + ")" + t;
    assert "(" + p + ")" + t == "(" + p + (")" + t);
    RunAfterParen(p, ")" + t);
    assert LeadingDigits(")" + t) == [];
    assert LeadingDigits(u[1..]) == p;
    assert u[1 + |p|] == ')';
    assert ClosedCodeAt(u, 0);
    assert u[2 + |p|..] == t;
  }

  /** A closed code after other text is removed and the text on both sides is kept. */
  lemma StripClosedCodeInText(a: string, p: string, t: string)
    requires forall i :: 0 <= i < |a| ==> a[i] != '('
    requires p != [] && AllDigits(p)
    ensures StripClosedCodes(a + "(" + p + ")" + t) == a + StripClosedCodes(t)
  {
    assert a + "(" + p + ")" + t == a + ("(" + p + ")" + t);
    StripClosedPassesPlainPrefix(a, "(" + p + ")" + t);
    StripClosedAfterCode(p, t);
  }

  /** An open code after other text is removed with its digit run, and the digits before it are kept. */
  lemma StripOpenCodeInText(a: string, p: string, t: string)
    requires forall i :: 0 <= i < |a| ==> a[i] != '('
    requires p != [] && AllDigits(p) && NoOpenCode(t)
    ensures StripOpenCodes(a + "(" + p + t) == a + t[|LeadingDigits(t)|..]
  {
    assert a + "(" + p + t == a + ("(" + p + t);
    StripOpenPassesPrefix(a, "(" + p + t);
    StripOpenAfterCode(p, t);
  }

  /**
   * The script normalises investment priorities twice (lines 250-255 on the
   * programme table, 407-411 again on the project table); the second pass
   * changes nothing.
   */
  lemma PriorityNormalizationIdempotent(c: Option<string>)
    ensures NormalizePriority(NormalizePriority(c)) == NormalizePriority(c)
  {
    if NormalizePriority(c).Some? {
      PriorityFixedPoint(PaddedRun(c.value), StripOpenCodes(c.value));
    }
  }

  lemma PaddedRunAfterParen(p: string, t: string)
    requires |p| >= 2 && AllDigits(p)
    ensures HasDigit("(" + p + t) && PaddedRun("(" + p + t) == p + LeadingDigits(t)
  {
    RunAfterParen(p, t);
    ZFill2Wide(p + LeadingDigits(t));
  }

  /** Every value of the form "(" + padded number + remainder without open codes is left as it is. */
  lemma PriorityFixedPoint(p: string, rest: string)
    requires |p| >= 2 && AllDigits(p) && NoOpenCode(rest)
    ensures NormalizePriority(Some("(" + p + rest)) == Some("(" + p + rest)
  {
    var u := "(" + p + rest;
    var lead := LeadingDigits(rest);
    var tail := rest[|lead|..];
    assert HasDigit(u) && PaddedRun(u) == p + lead by {
      PaddedRunAfterParen(p, rest);
    }
    assert StripOpenCodes(u) == tail by {
      StripOpenAfterCode(p, rest);
    }
    Reassemble(p, rest, |lead|);
  }

  lemma Reassemble(p: string, rest: string, k: nat)
    requires k <= |rest|
    ensures "(" + (p + rest[..k]) + rest[k..] == "(" + p + rest
  {
    assert rest[..k] + rest[k..] == rest;
  }

  /** Normalising an already normalised objective only strips codes from its label again. */
  lemma ObjectiveOfNormalized(p: string, rest: string)
    requires |p| >= 2 && AllDigits(p)
    ensures NormalizeObjective(Some("(" + p + ")" + rest)) == Some("(" + p + ")" + StripClosedCodes(rest))
  {
    PaddedRunOfClosedCode(p, rest);
    StripClosedAfterCode(p, rest);
  }

  /** The padded run of "(" + p + ")" + rest is p itself when p is already padded. */
  lemma PaddedRunOfClosedCode(p: string, rest: string)
    requires |p| >= 2 && AllDigits(p)
    ensures HasDigit("(" + p + ")" + rest) && PaddedRun("(" + p + ")" + rest) == p
  {
    assert "(" + p + ")" + rest == "(" + p + (")" + rest);
    PaddedRunAfterParen(p, ")" + rest);
    assert LeadingDigits(")" + rest) == [];
  }

  /**
   * Thematic objectives are normalised twice too (lines 243-248 and 400-405).
   * The second pass is a no-op exactly when stripping parenthesised numbers
   * from the already-stripped label changes nothing.
   */
  lemma ObjectiveRenormalization(s: string)
    requires HasDigit(s)
    ensures NormalizeObjective(NormalizeObjective(Some(s))) == NormalizeObjective(Some(s))
      <==> StripClosedCodes(StripClosedCodes(s)) == StripClosedCodes(s)
  {
    var p, rest := PaddedRun(s), StripClosedCodes(s);
    ObjectiveOfNormalized(p, rest);
    var again := "(" + p + ")" + StripClosedCodes(rest);
    if StripClosedCodes(rest) != rest {
      assert again[2 + |p|..] == StripClosedCodes(rest);
      assert ("(" + p + ")" + rest)[2 + |p|..] == rest;
    }
  }

  /**
   * ... and that can fail: in "((" + a + ")" + b + ")", e.g. "((1)2)",
   * removing "(" + a + ")" leaves a new "(" + b + ")", so the first pass
   * gives "(01)(2)" and the second pass shortens that to "(01)".
   */
  lemma ObjectiveRenormalizationCanChange(a: string, b: string)
    requires a != [] && b != [] && AllDigits(a) && AllDigits(b)
    ensures NormalizeObjective(Some("((" + a + ")" + b + ")")) == Some("(" + ZFill2(a) + ")" + ("(" + b + ")"))
    ensures NormalizeObjective(Some("(" + ZFill2(a) + ")" + ("(" + b + ")"))) == Some("(" + ZFill2(a) + ")")
  {
    NestedCodeFirstPass(a, b);
    var z := ZFill2(a);
    ZFill2KeepsValue(a);
    ObjectiveOfNormalized(z, "(" + b + ")");
    assert StripClosedCodes("(" + b + ")") == [] by {
      assert "(" + b + ")" == "(" + b + ")" + "";
      StripClosedAfterCode(b, "");
    }
    assert "(" + z + ")" + "" == "(" + z + ")";
  }

  lemma NestedCodeFirstPass(a: string, b: string)
    requires a != [] && b != [] && AllDigits(a) && AllDigits(b)
    ensures NormalizeObjective(Some("((" + a + ")" + b + ")")) == Some("(" + ZFill2(a) + ")" + ("(" + b + ")"))
  {
    NestedCodeRun(a, b);
    NestedCodeStrip(a, b);
  }

  lemma NestedCodeRun(a: string, b: string)
    requires a != [] && AllDigits(a)
    ensures HasDigit("((" + a + ")" + b + ")") && PaddedRun("((" + a + ")" + b + ")") == ZFill2(a)
  {
    var s := "((" + a + ")" + b + ")";
    assert s[2..] == a + (")" + b + ")");
    assert IsDigit(s[2]);
    assert s[1..][1..] == s[2..];
    assert FirstDigitAt(s[2..]) == 0;
    assert FirstDigitAt(s) == 2;
    LeadingDigitsAfterDigits(a, ")" + b + ")");
    assert LeadingDigits(")" + b + ")") == [];
  }

  /** A first character that starts no closed code is kept, and stripping goes on after it. */
  lemma StripClosedKeepsFirst(s: string)
    requires s != [] && !ClosedCodeAt(s, 0)
    ensures StripClosedCodes(s) == [s[0]] + StripClosedCodes(s[1..])
  {
  }

  lemma NestedCodeStrip(a: string, b: string)
    requires a != [] && AllDigits(a) && AllDigits(b)
    ensures StripClosedCodes("((" + a + ")" + b + ")") == "(" + b + ")"
  {
    var s := "((" + a + ")" + b + ")";
    assert s[0] == '(' && !ClosedCodeAt(s, 0) && s[1..] == "(" + a + ")" + (b + ")") by {
      assert LeadingDigits(s[1..]) == [];
    }
    StripClosedKeepsFirst(s);
    StripClosedAfterCode(a, b + ")");
    assert StripClosedCodes(b + ")") == b + ")" by {
      assert forall i :: 0 <= i < |b + ")"| ==> (b + ")")[i] != '(';
    }
    ConcatAssoc("(", b, ")");
  }


  /** `fillna('o')` then `len`: a null cell counts as one character. */
  function CellWidth(c: Option<string>): nat {
    match c
    case None => 1
    case Some(s) => |s|
  }

  function RowWidth(cells: (Option<string>, Option<string>)): nat {
    if CellWidth(cells.0) < CellWidth(cells.1) then CellWidth(cells.1) else CellWidth(cells.0)
  }

  /**
   * `varchar_max` (lines 258-260 and 414-417): the widest normalised
   * objective or priority, nulls counting 1. `np.max` of an empty table
   * raises.
   */
  function VarcharMax(cells: seq<(Option<string>, Option<string>)>): (r: Result<nat, EtlError>)
    ensures r.Failure? <==> cells == []
    ensures r.Failure? ==> r.error == EmptyReduction
    ensures r.Success? ==> forall i :: 0 <= i < |cells| ==> CellWidth(cells[i].0) <= r.value && CellWidth(cells[i].1) <= r.value
    ensures r.Success? ==> exists i :: 0 <= i < |cells| && RowWidth(cells[i]) == r.value
  {
    if cells == [] then Failure(EmptyReduction)
    else if |cells| == 1 then Success(RowWidth(cells[0]))
    else
      var w := VarcharMax(cells[..|cells| - 1]).value;
      var last := RowWidth(cells[|cells| - 1]);
      Success(if w < last then last else w)
  }
}
