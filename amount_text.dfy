/** The textual side of `Amount` (src/core/Amount.ts:67-81, 135-151): scientific and normal
    notation, `toBigInt` and `isInteger`. Normal notation is given twice: as written in the
    source, where the decimal point lands in the wrong place, and corrected. */
module AmountText {
  import opened Wrappers
  import opened Digits
  import opened Numerals
  import opened Amounts

  /** `${exponentPart > 0 ? '+' : ''}${exponentPart}` */
  function ExponentText(x: int): string {
    (if x > 0 then "+" else "") + IntToString(x)
  }

  /** `toScientificString` (src/core/Amount.ts:146-151): one digit, the point, the rest of the
      coefficient, then the exponent of the leading digit. */
  function ToScientificString(a: Amount): string {
    var p := Precision(a);
    var exponentPart := p - 1 + a.exponent;
    var coefficientPart := if p == 1 then a.coefficient else a.coefficient[..1] + "." + a.coefficient[1..];
    SignText(a.sign) + coefficientPart + "e" + ExponentText(exponentPart)
  }

  /** The numeral that `ToScientificString` spells out. */
  function SciNumeral(a: Amount): (n: Numeral)
    ensures WellFormed(n)
  {
    var c := a.coefficient;
    var x := |c| - 1 + a.exponent;
    Numeral(SignText(a.sign), c[..1], |c| > 1, if |c| > 1 then c[1..] else "", true,
            if x > 0 then "+" else if x < 0 then "-" else "", NatToString(AbsInt(x)))
  }

  lemma {:induction false} SciRender(a: Amount)
    ensures Render(SciNumeral(a)) == ToScientificString(a)
  {
    var n := SciNumeral(a);
    var c := a.coefficient;
    var e := "e" + (n.expSign + n.expDigits);
    assert ExponentText(|c| - 1 + a.exponent) == n.expSign + n.expDigits;
    assert ExpText(n) == e;
    var coefficientPart := if |c| == 1 then c else c[..1] + "." + c[1..];
    SciCoefficient(c, e);
    AppendAssoc(SignText(a.sign), coefficientPart, e);
    AppendAssoc(SignText(a.sign) + coefficientPart, "e", n.expSign + n.expDigits);
  }

  /** The coefficient part of scientific notation is the numeral's whole, point and fraction. */
  lemma SciCoefficient(c: string, e: string)
    requires |c| > 0
    ensures var point := |c| > 1;
            c[..1] + (PointText(point) + ((if point then c[1..] else "") + e))
              == (if |c| == 1 then c else c[..1] + "." + c[1..]) + e
  {
    if |c| == 1 {
      assert c[..1] == c;
    } else {
      AppendAssoc(c[..1], ".", c[1..]);
      AppendAssoc(c[..1] + ".", c[1..], e);
      AppendAssoc(c[..1], ".", c[1..] + e);
    }
  }

  /** Scientific notation is an exact encoding: parsing it gives back the very same amount. */
  lemma {:induction false} ScientificRoundTrip(a: Amount)
    ensures FromString(ToScientificString(a)) == Ok(a)
  {
    SciRender(a);
    ParseNumeral(SciNumeral(a));
    SciNumeralParts(a);
    ConstructNormalised(a);
  }

  lemma {:induction false} SciNumeralParts(a: Amount)
    ensures FromNumeral(SciNumeral(a)) == Construct(a.sign, a.coefficient, a.exponent)
  {
    var n := SciNumeral(a);
    var c := a.coefficient;
    if |c| == 1 {
      assert c[..1] == c;
    } else {
      assert c[..1] + c[1..] == c;
    }
    assert n.whole + n.frac == c;
    var x := |c| - 1 + a.exponent;
    assert NumberOf(n.expDigits) == AbsInt(x);
    assert WrittenExponent(n) == x;
    CanonicalZero(c);
    var sign := if AllZeros(c) then NoSign else if n.sign == "-" then MinusSign else PlusSign;
    assert sign == a.sign;
  }

  /** `toNormalString` as the source writes it (src/core/Amount.ts:135-144). With a negative
      exponent and some digits before the point, `slice(0, decimalPointPosition)` keeps the
      first `-exponent` digits, where the first `precision + exponent` were meant. */
  function ToNormalStringAsWritten(a: Amount): string {
    var c := a.coefficient;
    var p := |c|;
    if a.exponent >= 0 then SignText(a.sign) + c + Zeros(a.exponent)
    else
      var pointPosition := -(p + a.exponent);
      if pointPosition < 0 then SignText(a.sign) + c[..p + pointPosition] + "." + c[p + pointPosition..]
      else SignText(a.sign) + "0." + Zeros(pointPosition) + c
  }

  /** `toNormalString` corrected: `precision + exponent` digits before the point. */
  function ToNormalString(a: Amount): string {
    var c := a.coefficient;
    var p := |c|;
    if a.exponent >= 0 then SignText(a.sign) + c + Zeros(a.exponent)
    else
      var pointPosition := -(p + a.exponent);
      if pointPosition < 0 then SignText(a.sign) + c[..-pointPosition] + "." + c[-pointPosition..]
      else SignText(a.sign) + "0." + Zeros(pointPosition) + c
  }

  /** `toString(notation)` (src/core/Amount.ts:71-73); scientific is the default. */
  datatype Notation = Normal | Scientific

  function ToText(a: Amount, notation: Notation): (s: string)
    ensures notation == Scientific ==> FromString(s) == Ok(a)
    ensures notation == Normal ==> FromString(s).Ok? && SameValue(FromString(s).value, a)
  {
    if notation == Scientific then
      ScientificRoundTrip(a);
      ToScientificString(a)
    else
      NormalRoundTrip(a);
      ToNormalString(a)
  }

  /** The number of '0' characters at the end of `s`. */
  function TrailingZeroCount(s: string): (k: nat)
    ensures k <= |s|
    ensures forall j :: |s| - k <= j < |s| ==> s[j] == '0'
    ensures k < |s| ==> s[|s| - k - 1] != '0'
  {
    if |s| > 0 && s[|s| - 1] == '0' then
      var k := 1 + TrailingZeroCount(s[..|s| - 1]);
      assert forall j :: |s| - k <= j < |s| - 1 ==> s[j] == s[..|s| - 1][j];
      k
    else 0
  }

  /** `.replace(/\.0+$/, '')`: drop a point followed only by zeros at the end. */
  function StripPointZeros(s: string): string {
    var k := TrailingZeroCount(s);
    if 0 < k < |s| && s[|s| - k - 1] == '.' then s[..|s| - k - 1] else s
  }

  /** `BigInt(text)` on the strings this module produces: an optionally signed run of digits
      (the empty string is 0n); anything else raises SyntaxError. */
  function BigIntOf(s: string): (r: Result<int>)
    ensures r.Err? ==> r.error.SyntaxError?
  {
    if s == "" then Ok(0)
    else
      var sg := SignPrefix(s);
      var digits := s[|sg|..];
      if |digits| > 0 && AllDigits(digits) then
        var n: int := NumberOf(digits);
        Ok(if sg == "-" then -n else n)
      else Err(SyntaxError("Cannot convert " + s + " to a BigInt"))
  }

  /** The amount is a whole number. */
  predicate IsIntegral(a: Amount) {
    a.exponent >= 0 || Magnitude(a) % Pow10(-a.exponent) == 0
  }

  /** k is the exact value of the amount. */
  predicate DenotesInteger(a: Amount, k: int) {
    if a.exponent >= 0 then k == Signed(a) * Pow10(a.exponent) else k * Pow10(-a.exponent) == Signed(a)
  }

  /** `toBigInt` (src/core/Amount.ts:79-81) over the corrected normal notation. */
  function ToBigInt(a: Amount): (r: Result<int>)
    ensures r.Ok? <==> IsIntegral(a)
    ensures r.Ok? ==> DenotesInteger(a, r.value)
    ensures r.Err? ==> r.error.SyntaxError?
  {
    NormalBigInt(a);
    BigIntOf(StripPointZeros(ToNormalString(a)))
  }

  /** `toBigInt` as written, over the misplaced point. */
  function ToBigIntAsWritten(a: Amount): Result<int> {
    BigIntOf(StripPointZeros(ToNormalStringAsWritten(a)))
  }

  /** The test `/^[+-]?[0-9]+(\.0+)?$/`. */
  predicate IsIntegerText(s: string) {
    var sg := SignPrefix(s);
    var t := s[|sg|..];
    var w := DigitPrefix(t);
    var rest := t[|w|..];
    |w| > 0 && (rest == "" || (rest[0] == '.' && AllZeros(rest[1..])))
  }

  /** `isInteger` (src/core/Amount.ts:67-69) over the corrected normal notation. */
  function IsInteger(a: Amount): (r: bool)
    ensures r <==> IsIntegral(a)
  {
    NormalIntegerText(a);
    IsIntegerText(ToNormalString(a))
  }

  /** `isInteger` as written, over the misplaced point. */
  function IsIntegerAsWritten(a: Amount): bool {
    IsIntegerText(ToNormalStringAsWritten(a))
  }

  // Arithmetic facts about splitting a coefficient

  lemma DivModUnique(n: int, p: int, q: int, r: int)
    requires p > 0 && n == q * p + r && 0 <= r < p
    ensures n % p == r && n / p == q
  {
    var q', r' := n / p, n % p;
    assert (q' - q) * p == r - r';
    if q' - q >= 1 {
      MulAtLeast(q' - q, p);
    } else if q - q' >= 1 {
      MulAtLeast(q - q', p);
    }
  }

  lemma MulPositive(x: int, y: int)
    requires x > 0 && y > 0
    ensures x * y > 0
  {
    MulAtLeast(x, y);
  }


  /** Splitting a coefficient `c == hi + lo`: the value is hi * 10^|lo| + lo, so it is a multiple
      of 10^|lo| exactly when lo denotes zero. */
  lemma {:induction false} SplitDigits(c: string, k: nat)
    requires AllDigits(c) && k <= |c|
    ensures AllDigits(c[..k]) && AllDigits(c[k..])
    ensures NumberOf(c) % Pow10(|c| - k) == NumberOf(c[k..])
    ensures NumberOf(c) / Pow10(|c| - k) == NumberOf(c[..k])
    ensures NumberOf(c) == NumberOf(c[..k]) * Pow10(|c| - k) + NumberOf(c[k..])
  {
    assert c == c[..k] + c[k..];
    NumberOfAppend(c[..k], c[k..]);
    NumberOfBound(c[k..]);
    DivModUnique(NumberOf(c), Pow10(|c| - k), NumberOf(c[..k]), NumberOf(c[k..]));
  }

  // Stripping a trailing ".000"

  lemma {:induction false} StripPointZerosDrops(t: string, z: string)
    requires AllZeros(z)
    ensures StripPointZeros(t + "." + z) == t
  {
    var s := t + "." + z;
    var k := TrailingZeroCount(s);
    assert s[|t|] == '.';
    assert k == |z|;
    assert s[..|s| - k - 1] == t;
  }

  lemma {:induction false} StripPointZerosKeeps(t: string, z: string, j: nat)
    requires AllDigits(z) && j < |z| && z[j] != '0'
    ensures StripPointZeros(t + "." + z) == t + "." + z
  {
    var s := t + "." + z;
    var k := TrailingZeroCount(s);
    assert s[|t| + 1 + j] == z[j];
    assert k < |s| - |t| - 1 - j;
    assert s[|s| - k - 1] == z[|z| - k - 1];
  }

  lemma {:induction false} StripPointZerosNoPoint(s: string)
    requires forall i :: 0 <= i < |s| ==> s[i] != '.'
    ensures StripPointZeros(s) == s
  {
  }

  /** The integer a sign and a digit string denote. */
  function SignedNumber(sg: Sign, d: string): int
    requires AllDigits(d)
  {
    var n: int := NumberOf(d);
    if sg == MinusSign then -n else n
  }

  /** A signed run of digits is an integer text that `BigInt` reads as its value. */
  lemma SignedDigitsText(sg: Sign, d: string)
    requires |d| > 0 && AllDigits(d)
    ensures StripPointZeros(SignText(sg) + d) == SignText(sg) + d
    ensures BigIntOf(SignText(sg) + d) == Ok(SignedNumber(sg, d))
    ensures IsIntegerText(SignText(sg) + d)
  {
    SignedDigitsNoPoint(sg, d);
    SignedDigitsBigInt(sg, d);
    SignedDigitsInteger(sg, d);
  }

  lemma SignedDigitsNoPoint(sg: Sign, d: string)
    requires AllDigits(d)
    ensures StripPointZeros(SignText(sg) + d) == SignText(sg) + d
  {
    var s := SignText(sg) + d;
    forall i | 0 <= i < |s|
      ensures s[i] != '.'
    {
      if i >= |SignText(sg)| {
        assert s[i] == d[i - |SignText(sg)|];
      }
    }
    StripPointZerosNoPoint(s);
  }

  lemma SignedDigitsBigInt(sg: Sign, d: string)
    requires |d| > 0 && AllDigits(d)
    ensures BigIntOf(SignText(sg) + d) == Ok(SignedNumber(sg, d))
  {
    var s := SignText(sg) + d;
    assert SignPrefix(s) == SignText(sg);
    assert s[|SignText(sg)|..] == d;
  }

  lemma SignedDigitsInteger(sg: Sign, d: string)
    requires |d| > 0 && AllDigits(d)
    ensures IsIntegerText(SignText(sg) + d)
  {
    var s := SignText(sg) + d;
    assert SignPrefix(s) == SignText(sg);
    assert s[|SignText(sg)|..] == d;
    DigitPrefixOf(d, "");
    assert d + "" == d;
  }

  /** BigInt of a string with a point in it fails. */
  lemma {:induction false} BigIntOfPoint(s: string, i: nat)
    requires i < |s| && s[i] == '.'
    ensures BigIntOf(s).Err?
  {
    var t := SignPrefix(s);
    var digits := s[|t|..];
    assert |t| <= i;
    assert digits[i - |t|] == '.';
  }

  // The three shapes of normal notation

  /** Non-negative exponent: digits and zeros, no point. */
  lemma {:induction false} NormalNonNegative(a: Amount)
    requires a.exponent >= 0
    ensures BigIntOf(StripPointZeros(ToNormalString(a))) == Ok(Signed(a) * Pow10(a.exponent))
    ensures IsIntegerText(ToNormalString(a))
  {
    var d := a.coefficient + Zeros(a.exponent);
    assert ToNormalString(a) == SignText(a.sign) + d;
    NumberOfTrailingZeros(a.coefficient, a.exponent);
    SignedDigitsText(a.sign, d);
    SignedNumberScaled(a, d);
  }

  lemma SignedNumberScaled(a: Amount, d: string)
    requires a.exponent >= 0 && AllDigits(d) && NumberOf(d) == Magnitude(a) * Pow10(a.exponent)
    ensures SignedNumber(a.sign, d) == Signed(a) * Pow10(a.exponent)
  {
    if a.sign == MinusSign { NegMul(Magnitude(a), Pow10(a.exponent)); }
  }

  /** A signed text with a point: `BigInt` and the integer test both accept it exactly when only
      zeros follow the point, and then it is read as the digits before the point. */
  lemma {:induction false} PointedText(sg: Sign, hi: string, lo: string)
    requires |hi| > 0 && AllDigits(hi) && |lo| > 0 && AllDigits(lo)
    ensures AllZeros(lo) ==> BigIntOf(StripPointZeros(SignText(sg) + hi + "." + lo)) == Ok(SignedNumber(sg, hi))
    ensures !AllZeros(lo) ==> BigIntOf(StripPointZeros(SignText(sg) + hi + "." + lo)).Err?
    ensures IsIntegerText(SignText(sg) + hi + "." + lo) <==> AllZeros(lo)
  {
    PointedBigInt(sg, hi, lo);
    PointedInteger(sg, hi, lo);
  }

  lemma {:induction false} PointedBigInt(sg: Sign, hi: string, lo: string)
    requires |hi| > 0 && AllDigits(hi) && |lo| > 0 && AllDigits(lo)
    ensures AllZeros(lo) ==> BigIntOf(StripPointZeros(SignText(sg) + hi + "." + lo)) == Ok(SignedNumber(sg, hi))
    ensures !AllZeros(lo) ==> BigIntOf(StripPointZeros(SignText(sg) + hi + "." + lo)).Err?
  {
    var t := SignText(sg) + hi;
    var s := t + "." + lo;
    if AllZeros(lo) {
      StripPointZerosDrops(t, lo);
      SignedDigitsText(sg, hi);
    } else {
      var j :| 0 <= j < |lo| && lo[j] != '0';
      StripPointZerosKeeps(t, lo, j);
      assert s[|t|] == '.';
      BigIntOfPoint(s, |t|);
    }
  }

  lemma {:induction false} PointedInteger(sg: Sign, hi: string, lo: string)
    requires |hi| > 0 && AllDigits(hi) && |lo| > 0 && AllDigits(lo)
    ensures IsIntegerText(SignText(sg) + hi + "." + lo) <==> AllZeros(lo)
  {
    var p, tail := SignText(sg), "." + lo;
    var s := p + hi + "." + lo;
    assert s == p + (hi + tail);
    assert SignPrefix(s) == p;
    var u := s[|p|..];
    assert u == hi + tail;
    DigitPrefixOf(hi, tail);
    assert u[|hi|..] == tail;
    assert tail[0] == '.' && tail[1..] == lo;
  }

  /** Negative exponent with digits before the point: `hi.lo` with |lo| == -exponent. */
  lemma {:induction false} NormalSplit(a: Amount)
    requires a.exponent < 0 && |a.coefficient| + a.exponent > 0
    ensures var k := |a.coefficient| + a.exponent;
            && ToNormalString(a) == SignText(a.sign) + a.coefficient[..k] + "." + a.coefficient[k..]
            && (IsIntegral(a) <==> AllZeros(a.coefficient[k..]))
            && (IsIntegral(a) ==> DenotesInteger(a, SignedNumber(a.sign, a.coefficient[..k])))
  {
    SplitIntegral(a, |a.coefficient| + a.exponent);
  }

  /** The amount `hi.lo` is whole exactly when lo is all zeros, and then it is hi. */
  lemma {:induction false} SplitIntegral(a: Amount, k: nat)
    requires a.exponent < 0 && k == |a.coefficient| + a.exponent
    ensures AllDigits(a.coefficient[..k]) && AllDigits(a.coefficient[k..])
    ensures IsIntegral(a) <==> AllZeros(a.coefficient[k..])
    ensures IsIntegral(a) ==> DenotesInteger(a, SignedNumber(a.sign, a.coefficient[..k]))
  {
    var c := a.coefficient;
    SplitDigits(c, k);
    NumberOfZero(c[k..]);
    var hi, lo, m := NumberOf(c[..k]), NumberOf(c[k..]), NumberOf(c);
    var P := Pow10(-a.exponent);
    assert P == Pow10(|c| - k);
    assert IsIntegral(a) <==> lo == 0 by { assert m % P == lo; }
    if lo == 0 {
      assert m == hi * P;
      SignedScale(a.sign, hi, P, m);
    }
  }

  /** A sign carried through a product. */
  lemma SignedScale(sg: Sign, hi: int, p: int, m: int)
    requires m == hi * p
    ensures (if sg == MinusSign then -hi else hi) * p == (if sg == MinusSign then -m else m)
  {
    NegMul(hi, p);
  }

  /** Negative exponent and no digits before the point: `0.000c`. */
  lemma {:induction false} NormalFraction(a: Amount)
    requires a.exponent < 0 && |a.coefficient| + a.exponent <= 0
    ensures var z := Zeros(-(|a.coefficient| + a.exponent)) + a.coefficient;
            && AllDigits(z) && |z| > 0
            && ToNormalString(a) == SignText(a.sign) + "0" + "." + z
            && (IsIntegral(a) <==> AllZeros(z))
            && (IsIntegral(a) ==> DenotesInteger(a, SignedNumber(a.sign, "0")))
  {
    var c := a.coefficient;
    var d := -(|c| + a.exponent);
    var z := Zeros(d) + c;
    var sg := SignText(a.sign);
    assert sg + "0." + Zeros(d) + c == sg + "0" + "." + z;
    FractionZeros(c, d);
    FractionIntegral(a);
  }

  /** Zeros in front of a canonical coefficient are all zeros exactly when it is "0". */
  lemma FractionZeros(c: string, d: nat)
    requires Canonical(c)
    ensures AllZeros(Zeros(d) + c) <==> c == "0"
  {
    var z := Zeros(d) + c;
    CanonicalZero(c);
    assert z[d] == c[0];
    if c == "0" {
      forall i | 0 <= i < |z| ensures z[i] == '0' {
        if i >= d { assert z[i] == c[i - d]; }
      }
    }
  }

  /** Below one in size, an amount is whole only when it is zero. */
  lemma FractionIntegral(a: Amount)
    requires a.exponent < 0 && |a.coefficient| + a.exponent <= 0
    ensures IsIntegral(a) <==> a.coefficient == "0"
    ensures IsIntegral(a) ==> DenotesInteger(a, SignedNumber(a.sign, "0"))
  {
    var c := a.coefficient;
    var P := Pow10(-a.exponent);
    var m := Magnitude(a);
    NumberOfZero(c);
    CanonicalZero(c);
    if c != "0" {
      assert m < P by { NumberOfBound(c); Pow10Mono(|c|, -a.exponent); }
      assert m != 0 by { assert c[0] != '0'; }
      SmallRemainder(m, P);
    } else {
      assert m == 0 by { assert "0"[..0] == ""; }
      ZeroRemainder(P);
    }
  }

  lemma SmallRemainder(m: int, p: int)
    requires 0 < m < p
    ensures m % p == m && m % p != 0
  {
  }

  lemma ZeroRemainder(p: int)
    requires p > 0
    ensures 0 % p == 0 && 0 * p == 0
  {
  }

  lemma {:induction false} NormalNegative(a: Amount)
    requires a.exponent < 0
    ensures BigIntOf(StripPointZeros(ToNormalString(a))).Ok? <==> IsIntegral(a)
    ensures BigIntOf(StripPointZeros(ToNormalString(a))).Ok? ==>
              DenotesInteger(a, BigIntOf(StripPointZeros(ToNormalString(a))).value)
    ensures IsIntegerText(ToNormalString(a)) <==> IsIntegral(a)
  {
    var c := a.coefficient;
    var k := |c| + a.exponent;
    if k > 0 {
      NormalSplit(a);
      PointedText(a.sign, c[..k], c[k..]);
    } else {
      NormalFraction(a);
      PointedText(a.sign, "0", Zeros(-k) + c);
    }
  }

  lemma {:induction false} NormalBigInt(a: Amount)
    ensures BigIntOf(StripPointZeros(ToNormalString(a))).Ok? <==> IsIntegral(a)
    ensures BigIntOf(StripPointZeros(ToNormalString(a))).Ok? ==>
              DenotesInteger(a, BigIntOf(StripPointZeros(ToNormalString(a))).value)
  {
    if a.exponent >= 0 {
      NormalNonNegative(a);
    } else {
      NormalNegative(a);
    }
  }

  lemma {:induction false} NormalIntegerText(a: Amount)
    ensures IsIntegerText(ToNormalString(a)) <==> IsIntegral(a)
  {
    if a.exponent >= 0 {
      NormalNonNegative(a);
    } else {
      NormalNegative(a);
    }
  }

  /** Normal notation parses back to the same number, and to the very same amount unless
      trailing zeros were written out for a positive exponent. */
  lemma {:induction false} NormalRoundTrip(a: Amount)
    ensures FromString(ToNormalString(a)).Ok?
    ensures SameValue(FromString(ToNormalString(a)).value, a)
    ensures a.exponent <= 0 ==> FromString(ToNormalString(a)) == Ok(a)
  {
    NormalRoundTripParts(a);
    if a.exponent >= 0 {
      NormalRoundTripWhole(a);
    }
    if a.exponent <= 0 {
      NormalCoefficient(a);
      assert SameValue(a, a);
    }
  }

  /** The numeral each shape of normal notation spells out. */
  function NormalNumeral(a: Amount): (n: Numeral)
    ensures WellFormed(n)
  {
    var c := a.coefficient;
    var k := |c| + a.exponent;
    if a.exponent >= 0 then Numeral(SignText(a.sign), c + Zeros(a.exponent), false, "", false, "", "")
    else if k > 0 then Numeral(SignText(a.sign), c[..k], true, c[k..], false, "", "")
    else Numeral(SignText(a.sign), "0", true, Zeros(-k) + c, false, "", "")
  }

  lemma {:induction false} NormalRender(a: Amount)
    ensures Render(NormalNumeral(a)) == ToNormalString(a)
  {
    var k := |a.coefficient| + a.exponent;
    if a.exponent >= 0 {
    } else if k > 0 {
      PointRender(SignText(a.sign), a.coefficient[..k], a.coefficient[k..]);
    } else {
      NormalFraction(a);
      PointRender(SignText(a.sign), "0", Zeros(-k) + a.coefficient);
    }
  }

  /** A numeral with a point and no exponent renders as its parts joined around the point. */
  lemma PointRender(sg: string, hi: string, lo: string)
    ensures Render(Numeral(sg, hi, true, lo, false, "", "")) == sg + hi + "." + lo
  {
    AppendAssoc(hi, ".", lo);
    AppendAssoc(sg, hi + ".", lo);
    AppendAssoc(sg, hi, ".");
  }

  /** What parsing the normal numeral builds, shape by shape. */
  lemma {:induction false} NormalValue(a: Amount)
    ensures FromNumeral(NormalNumeral(a)).value.exponent == (if a.exponent >= 0 then 0 else a.exponent)
    ensures Magnitude(FromNumeral(NormalNumeral(a)).value) ==
              (if a.exponent >= 0 then Magnitude(a) * Pow10(a.exponent) else Magnitude(a))
    ensures FromNumeral(NormalNumeral(a)).value.sign == a.sign
  {
    NumeralValue(NormalNumeral(a));
    NormalDigits(a);
    NormalSign(a);
  }

  /** Parsing the normal numeral keeps the sign: zero has none, and a non-zero coefficient
      stays non-zero once rescaled. */
  lemma NormalSign(a: Amount)
    ensures FromNumeral(NormalNumeral(a)).value.sign == a.sign
  {
    var n := NormalNumeral(a);
    var r := FromNumeral(n).value;
    NumeralValue(n);
    NormalDigits(a);
    NoSignMagnitude(a);
    NoSignMagnitude(r);
    assert Magnitude(r) == 0 <==> Magnitude(a) == 0 by {
      if a.exponent >= 0 {
        if Magnitude(a) != 0 { MulPositive(Magnitude(a), Pow10(a.exponent)); }
        else { ZeroProduct(Magnitude(a), Pow10(a.exponent)); }
      }
    }
  }

  /** The digits of the normal numeral denote the coefficient, rescaled for a positive exponent. */
  lemma {:induction false} NormalDigits(a: Amount)
    ensures WrittenExponent(NormalNumeral(a)) - |NormalNumeral(a).frac| == (if a.exponent >= 0 then 0 else a.exponent)
    ensures NumberOf(NormalNumeral(a).whole + NormalNumeral(a).frac) ==
              (if a.exponent >= 0 then Magnitude(a) * Pow10(a.exponent) else Magnitude(a))
    ensures NormalNumeral(a).sign == SignText(a.sign)
  {
    var k := |a.coefficient| + a.exponent;
    if a.exponent >= 0 {
      NormalDigitsWhole(a);
    } else if k > 0 {
      NormalDigitsSplit(a);
    } else {
      NormalDigitsFraction(a);
    }
  }

  lemma {:induction false} NormalDigitsWhole(a: Amount)
    requires a.exponent >= 0
    ensures NormalNumeral(a).whole + NormalNumeral(a).frac == a.coefficient + Zeros(a.exponent)
    ensures NumberOf(a.coefficient + Zeros(a.exponent)) == Magnitude(a) * Pow10(a.exponent)
    ensures WrittenExponent(NormalNumeral(a)) - |NormalNumeral(a).frac| == 0
  {
    var c := a.coefficient;
    assert NormalNumeral(a).frac == "";
    assert (c + Zeros(a.exponent)) + "" == c + Zeros(a.exponent);
    NumberOfTrailingZeros(c, a.exponent);
  }

  lemma {:induction false} NormalDigitsSplit(a: Amount)
    requires a.exponent < 0 && |a.coefficient| + a.exponent > 0
    ensures NormalNumeral(a).whole + NormalNumeral(a).frac == a.coefficient
    ensures WrittenExponent(NormalNumeral(a)) - |NormalNumeral(a).frac| == a.exponent
  {
    var c := a.coefficient;
    var k := |c| + a.exponent;
    assert c[..k] + c[k..] == c;
  }

  lemma {:induction false} NormalDigitsFraction(a: Amount)
    requires a.exponent < 0 && |a.coefficient| + a.exponent <= 0
    ensures AllDigits(NormalNumeral(a).whole + NormalNumeral(a).frac)
    ensures NumberOf(NormalNumeral(a).whole + NormalNumeral(a).frac) == Magnitude(a)
    ensures WrittenExponent(NormalNumeral(a)) - |NormalNumeral(a).frac| == a.exponent
  {
    var c := a.coefficient;
    var k := |c| + a.exponent;
    var x := "0" + (Zeros(-k) + c);
    ZerosCons(-k);
    AppendAssoc("0", Zeros(-k), c);
    assert x == Zeros(1 - k) + c;
    LeadingZerosNumber(1 - k, c);
  }

  /** When the exponent is not positive, the parsed coefficient is the original one. */
  lemma {:induction false} NormalCoefficient(a: Amount)
    requires a.exponent <= 0
    ensures FromNumeral(NormalNumeral(a)) == Ok(a)
  {
    var r := FromNumeral(NormalNumeral(a)).value;
    NormalValue(a);
    if a.exponent == 0 {
      OneTimes(Magnitude(a), Pow10(a.exponent));
    }
    SameParts(r, a);
  }

  /** Amounts with the same sign, magnitude and exponent are the same amount. */
  lemma SameParts(r: Amount, a: Amount)
    requires r.sign == a.sign && Magnitude(r) == Magnitude(a) && r.exponent == a.exponent
    ensures r == a
  {
    CanonicalUnique(r.coefficient);
    CanonicalUnique(a.coefficient);
  }

  lemma {:induction false} NormalRoundTripWhole(a: Amount)
    requires a.exponent >= 0
    ensures SameValue(FromNumeral(NormalNumeral(a)).value, a)
  {
    var r := FromNumeral(NormalNumeral(a)).value;
    NormalValue(a);
    RescaledValue(r, a);
  }

  /** r holds a's coefficient written out with a's zeros, at exponent 0. */
  lemma {:induction false} RescaledValue(r: Amount, a: Amount)
    requires a.exponent >= 0 && r.exponent == 0 && r.sign == a.sign
    requires Magnitude(r) == Magnitude(a) * Pow10(a.exponent)
    ensures SameValue(r, a)
  {
    var P := Pow10(a.exponent);
    var M: int := Magnitude(a);
    assert Scaled(r, 0) == Signed(r) * Pow10(0);
    assert Pow10(0) == 1;
    assert Scaled(a, 0) == Signed(a) * P;
    if a.sign == MinusSign {
      NegMul(M, P);
    }
  }

  lemma {:induction false} NormalRoundTripParts(a: Amount)
    ensures FromString(ToNormalString(a)) == FromNumeral(NormalNumeral(a))
  {
    NormalRender(a);
    ParseNumeral(NormalNumeral(a));
  }

  /** 12.3 (coefficient 123, exponent -1) is printed "+1.23" as written; corrected, "+12.3". */
  lemma NormalStringAsWrittenMisplacesPoint()
    ensures var a: Amount := AmountRep(PlusSign, "123", -1);
            && ToNormalStringAsWritten(a) == "+1.23"
            && ToNormalString(a) == "+12.3"
  {
    var a: Amount := AmountRep(PlusSign, "123", -1);
    assert a.coefficient[..1] == "1" && a.coefficient[1..] == "23";
    assert a.coefficient[..2] == "12" && a.coefficient[2..] == "3";
  }

  /** 1.20 passes the integer test as written, because it is printed "+12.0". */
  lemma IsIntegerAsWrittenAcceptsFraction()
    ensures var a: Amount := AmountRep(PlusSign, "120", -2);
            && IsIntegerAsWritten(a) && !IsIntegral(a) && !IsInteger(a)
  {
    var a: Amount := AmountRep(PlusSign, "120", -2);
    TwelveTenthsAsWritten(a);
    TwelveTenthsCorrected(a);
  }

  lemma TwelveTenthsAsWritten(a: Amount)
    requires a == AmountRep(PlusSign, "120", -2)
    ensures IsIntegerAsWritten(a)
  {
    var s := ToNormalStringAsWritten(a);
    assert a.coefficient[..2] == "12" && a.coefficient[2..] == "0";
    assert s == "+12.0";
    PointedInteger(PlusSign, "12", "0");
    assert AllZeros("0");
  }

  lemma TwelveTenthsCorrected(a: Amount)
    requires a == AmountRep(PlusSign, "120", -2)
    ensures !IsIntegral(a) && !IsInteger(a)
  {
    assert Magnitude(a) == 120 by { assert NumberOf("120") == 120 by { assert "120"[..2] == "12"; assert "12"[..1] == "1"; assert "1"[..0] == ""; } }
  }

  /** 100.0 (coefficient 1000, exponent -1) converts to 1 as written, because it is printed
      "+1.000"; corrected it converts to 100. */
  lemma ToBigIntAsWrittenShrinks()
    ensures var a: Amount := AmountRep(PlusSign, "1000", -1);
            && ToBigIntAsWritten(a) == Ok(1) && ToBigInt(a) == Ok(100)
  {
    ThousandTenthsAsWritten();
    ThousandTenthsCorrected();
  }

  lemma ThousandTenthsAsWritten()
    ensures ToBigIntAsWritten(AmountRep(PlusSign, "1000", -1)) == Ok(1)
  {
    ThousandTenthsTextAsWritten(AmountRep(PlusSign, "1000", -1));
  }

  lemma ThousandTenthsTextAsWritten(a: Amount)
    requires a == AmountRep(PlusSign, "1000", -1)
    ensures ToBigIntAsWritten(a) == Ok(1)
  {
    assert a.coefficient[..1] == "1" && a.coefficient[1..] == "000";
    assert ToNormalStringAsWritten(a) == "+" + "1" + "." + "000";
    assert AllZeros("000");
    PointedBigInt(PlusSign, "1", "000");
    assert NumberOf("1") == 1 by { assert "1"[..0] == ""; }
  }

  lemma ThousandTenthsCorrected()
    ensures ToBigInt(AmountRep(PlusSign, "1000", -1)) == Ok(100)
  {
    ThousandTenthsText(AmountRep(PlusSign, "1000", -1));
  }

  lemma ThousandTenthsText(a: Amount)
    requires a == AmountRep(PlusSign, "1000", -1)
    ensures ToBigInt(a) == Ok(100)
  {
    assert ToNormalString(a) == "+" + "100" + "." + "0" by {
      assert a.coefficient[..3] == "100" && a.coefficient[3..] == "0";
    }
    assert AllZeros("0");
    PointedBigInt(PlusSign, "100", "0");
    Hundred("100");
  }

  lemma Hundred(s: string)
    requires s == "100"
    ensures AllDigits(s) && NumberOf(s) == 100
  {
    assert s[..2] == "10" && "10"[..1] == "1" && "1"[..0] == "";
  }
}
