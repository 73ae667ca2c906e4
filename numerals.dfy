/** The numeric-string grammar of `Amount.fromString` (src/core/Amount.ts:2):
      [+-]?([0-9]*\.[0-9]+|[0-9]+\.?)(e[+-]?[0-9]+)?
    matched against the lower-cased input. A `Numeral` is one parse of that grammar;
    `Render` spells it out and `Scan` is the deterministic recogniser. */
module Numerals {
  import opened Wrappers
  import opened Digits

  /** `String.prototype.toLowerCase` on the ASCII letters. Other characters are never accepted
      by the grammar whatever their case, so lower-casing them is left as the identity. */
  function Lower(s: string): (r: string)
    ensures |r| == |s|
    ensures forall i :: 0 <= i < |s| ==> r[i] == LowerChar(s[i])
  {
    if s == [] then [] else [LowerChar(s[0])] + Lower(s[1..])
  }

  function LowerChar(c: char): char {
    if 'A' <= c <= 'Z' then (c as int + 32) as char else c
  }

  /** The parts of a numeric string: optional sign, digits before the point, the point,
      digits after it, and the optional exponent with its own optional sign. */
  datatype Numeral = Numeral(
    sign: string, whole: string, point: bool, frac: string,
    hasExp: bool, expSign: string, expDigits: string)

  predicate OptSign(t: string) { t == "" || t == "+" || t == "-" }

  /** The constraints of the grammar on each part. */
  predicate WellFormed(n: Numeral) {
    && OptSign(n.sign)
    && AllDigits(n.whole) && AllDigits(n.frac)
    && (if n.point then |n.whole| + |n.frac| > 0 else |n.whole| > 0 && n.frac == "")
    && (if n.hasExp then OptSign(n.expSign) && |n.expDigits| > 0 && AllDigits(n.expDigits)
        else n.expSign == "" && n.expDigits == "")
  }

  /** The exponent part `e[+-]?[0-9]+`, or nothing. */
  function ExpPart(hasExp: bool, expSign: string, expDigits: string): string {
    if hasExp then "e" + (expSign + expDigits) else ""
  }

  function ExpText(n: Numeral): string {
    ExpPart(n.hasExp, n.expSign, n.expDigits)
  }

  function PointText(point: bool): string {
    if point then "." else ""
  }

  function Render(n: Numeral): string {
    n.sign + (n.whole + (PointText(n.point) + (n.frac + ExpText(n))))
  }

  /** The language of the grammar: the strings that are the rendering of a well-formed numeral. */
  ghost predicate Matches(s: string) {
    exists n :: WellFormed(n) && Render(n) == s
  }

  /** The longest prefix of `s` made of digits. */
  function DigitPrefix(s: string): (d: string)
    ensures |d| <= |s| && d == s[..|d|] && AllDigits(d)
    ensures |d| < |s| ==> !IsDigit(s[|d|])
  {
    if |s| > 0 && IsDigit(s[0]) then [s[0]] + DigitPrefix(s[1..]) else ""
  }

  function SignPrefix(s: string): (t: string)
    ensures OptSign(t) && |t| <= |s| && t == s[..|t|]
  {
    if |s| > 0 && (s[0] == '+' || s[0] == '-') then s[..1] else ""
  }

  /** Reads an optional exponent part that must run to the end of the input. */
  function ScanExp(r: string): Option<(bool, string, string)> {
    if r == "" then Some((false, "", ""))
    else if r[0] != 'e' then None
    else
      var r1 := r[1..];
      var es := SignPrefix(r1);
      var r2 := r1[|es|..];
      var d := DigitPrefix(r2);
      if |d| == 0 || |d| != |r2| then None else Some((true, es, d))
  }

  /** Reads the optional sign and the digits before the point. */
  function ScanWhole(s: string): (string, string, string) {
    var sg := SignPrefix(s);
    var r1 := s[|sg|..];
    var w := DigitPrefix(r1);
    (sg, w, r1[|w|..])
  }

  /** Reads the optional point and the digits after it. */
  function ScanFrac(r: string): (bool, string, string) {
    var pt := |r| > 0 && r[0] == '.';
    var r1 := if pt then r[1..] else r;
    var f := if pt then DigitPrefix(r1) else "";
    (pt, f, r1[|f|..])
  }

  /** The recogniser: `NUMERIC_STRING_PATTERN.test(value)` holds exactly when this is `Some`,
      and the numeral it returns is the match (lemmas ScanSound and ScanComplete). */
  function Scan(s: string): Option<Numeral> {
    var (sg, w, r) := ScanWhole(s);
    var (pt, f, r') := ScanFrac(r);
    if (if pt then |w| + |f| == 0 else |w| == 0) then None
    else match ScanExp(r')
      case None => None
      case Some((h, es, d)) => Some(Numeral(sg, w, pt, f, h, es, d))
  }

  lemma {:induction false} DigitPrefixOf(d: string, rest: string)
    requires AllDigits(d)
    requires |rest| == 0 || !IsDigit(rest[0])
    ensures DigitPrefix(d + rest) == d
  {
    if |d| > 0 {
      assert (d + rest)[0] == d[0];
      assert (d + rest)[1..] == d[1..] + rest;
      DigitPrefixOf(d[1..], rest);
      assert d == [d[0]] + d[1..];
    } else {
      assert d + rest == rest;
    }
  }

  lemma ScanExpSound(r: string)
    requires ScanExp(r).Some?
    ensures var (h, es, d) := ScanExp(r).value;
            ExpPart(h, es, d) == r && OptSign(es) && AllDigits(d) && (h ==> |d| > 0) && (!h ==> es == "" && d == "")
  {
    if r != "" {
      var r1 := r[1..];
      var es := SignPrefix(r1);
      var r2 := r1[|es|..];
      assert r == "e" + r1;
      assert r1 == es + r2;
    }
  }

  lemma ScanExpComplete(h: bool, es: string, d: string)
    requires OptSign(es) && AllDigits(d) && (h ==> |d| > 0) && (!h ==> es == "" && d == "")
    ensures ScanExp(ExpPart(h, es, d)) == Some((h, es, d))
  {
    if h {
      var r := ExpPart(h, es, d);
      var r1 := es + d;
      assert r[1..] == r1;
      assert |d| > 0;
      assert r1[0] == (if es == "" then d[0] else es[0]);
      assert SignPrefix(r1) == es;
      assert r1[|es|..] == d;
      DigitPrefixOf(d, "");
      assert d + "" == d;
    }
  }

  lemma ScanFracSound(r: string)
    ensures var (pt, f, r') := ScanFrac(r);
            r == PointText(pt) + (f + r') && AllDigits(f) && (!pt ==> f == "")
  {
    var (pt, f, r') := ScanFrac(r);
    var r1 := if pt then r[1..] else r;
    assert r1 == f + r';
    if pt { assert r == "." + r1; }
  }

  lemma ScanFracComplete(pt: bool, f: string, r': string)
    requires AllDigits(f) && (!pt ==> f == "")
    requires |r'| == 0 || !IsDigit(r'[0])
    requires !pt ==> (|r'| == 0 || r'[0] != '.')
    ensures ScanFrac(PointText(pt) + (f + r')) == (pt, f, r')
  {
    var r := PointText(pt) + (f + r');
    if pt {
      assert r[1..] == f + r';
      DigitPrefixOf(f, r');
      assert (f + r')[|f|..] == r';
    } else {
      assert r == r';
      assert DigitPrefix("" + r') == "" by { DigitPrefixOf("", r'); }
    }
  }

  lemma ScanWholeSound(s: string)
    ensures var (sg, w, r) := ScanWhole(s);
            s == sg + (w + r) && OptSign(sg) && AllDigits(w) && (|r| == 0 || !IsDigit(r[0]))
  {
    var sg := SignPrefix(s);
    var r1 := s[|sg|..];
    var w := DigitPrefix(r1);
    assert s == sg + r1;
    assert r1 == w + r1[|w|..];
  }

  lemma ScanWholeComplete(sg: string, w: string, r: string)
    requires OptSign(sg) && AllDigits(w)
    requires |r| == 0 || !IsDigit(r[0])
    requires |w| + |r| > 0 && (|w| == 0 ==> r[0] != '+' && r[0] != '-')
    ensures ScanWhole(sg + (w + r)) == (sg, w, r)
  {
    var s := sg + (w + r);
    var t := w + r;
    assert t[0] == if |w| > 0 then w[0] else r[0];
    assert SignPrefix(s) == sg;
    assert s[|sg|..] == t;
    DigitPrefixOf(w, r);
    assert t[|w|..] == r;
  }

  /** Whatever `Scan` accepts is a well-formed numeral that renders back to the input. */
  lemma ScanSound(s: string)
    requires Scan(s).Some?
    ensures WellFormed(Scan(s).value) && Render(Scan(s).value) == s
  {
    var (sg, w, r) := ScanWhole(s);
    var (pt, f, r') := ScanFrac(r);
    var (h, es, d) := ScanExp(r').value;
    assert Scan(s).value == Numeral(sg, w, pt, f, h, es, d);
    ScanWholeSound(s);
    ScanFracSound(r);
    ScanExpSound(r');
  }

  /** Every well-formed numeral is accepted, and scanning its rendering gives it back. */
  lemma ScanComplete(n: Numeral)
    requires WellFormed(n)
    ensures Scan(Render(n)) == Some(n)
  {
    var e := ExpText(n);
    var r := PointText(n.point) + (n.frac + e);
    assert |e| == 0 || e[0] == 'e';
    assert |r| == 0 || !IsDigit(r[0]) by {
      if n.point { assert r[0] == '.'; } else { assert r == e; }
    }
    assert |n.whole| == 0 ==> r[0] == '.' by {
      if |n.whole| == 0 { assert n.point; }
    }
    ScanWholeComplete(n.sign, n.whole, r);
    assert !n.point ==> (|e| == 0 || e[0] != '.');
    if !n.point { assert n.frac + e == e; }
    ScanFracComplete(n.point, n.frac, e);
    ScanExpComplete(n.hasExp, n.expSign, n.expDigits);
  }

  /** The recogniser decides exactly the language of the grammar. */
  lemma ScanDecides(s: string)
    ensures Scan(s).Some? <==> Matches(s)
  {
    if Scan(s).Some? {
      ScanSound(s);
    }
    if Matches(s) {
      var n :| WellFormed(n) && Render(n) == s;
      ScanComplete(n);
    }
  }

  /** Renderings contain no upper-case letter, so lower-casing leaves them unchanged. */
  lemma LowerRender(n: Numeral)
    requires WellFormed(n)
    ensures Lower(Render(n)) == Render(n)
  {
    var s := Render(n);
    RenderChars(n);
    forall i | 0 <= i < |s| ensures LowerChar(s[i]) == s[i] {
      assert NumeralChar(s[i]);
    }
  }

  /** The characters of the grammar: signs, the point, the exponent marker and digits. */
  predicate NumeralChar(c: char) {
    c == '+' || c == '-' || c == '.' || c == 'e' || IsDigit(c)
  }

  predicate NumeralChars(t: string) {
    forall i :: 0 <= i < |t| ==> NumeralChar(t[i])
  }

  lemma JoinChars(x: string, y: string)
    requires NumeralChars(x) && NumeralChars(y)
    ensures NumeralChars(x + y)
  {
    forall i | 0 <= i < |x + y| ensures NumeralChar((x + y)[i]) {
      if i >= |x| { assert (x + y)[i] == y[i - |x|]; }
    }
  }

  /** A rendering is made of the characters of the grammar only. */
  lemma RenderChars(n: Numeral)
    requires WellFormed(n)
    ensures NumeralChars(Render(n))
  {
    var e := ExpText(n);
    if n.hasExp {
      JoinChars(n.expSign, n.expDigits);
      JoinChars("e", n.expSign + n.expDigits);
    }
    JoinChars(n.frac, e);
    JoinChars(PointText(n.point), n.frac + e);
    JoinChars(n.whole, PointText(n.point) + (n.frac + e));
    JoinChars(n.sign, n.whole + (PointText(n.point) + (n.frac + e)));
  }
}
