/** `Amount` (src/core/Amount.ts): an exact signed decimal, sign * coefficient * 10^exponent,
    kept normalised. Every operation builds its result by printing a numeric string and
    parsing it again with `fromString`; the model does the same and proves what comes out. */
module Amounts {
  import opened Wrappers
  import opened Digits
  import opened Numerals

  /** `SIGN_LIST = ['+', '-', '']` */
  datatype Sign = PlusSign | MinusSign | NoSign

  datatype AmountRep = AmountRep(sign: Sign, coefficient: string, exponent: int)

  /** The normal form every constructed Amount is in: digits only, no leading zero unless the
      coefficient is "0", and the empty sign exactly for zero. */
  predicate Normalised(a: AmountRep) {
    Canonical(a.coefficient) && (a.sign == NoSign <==> a.coefficient == "0")
  }

  type Amount = a: AmountRep | Normalised(a) witness AmountRep(NoSign, "0", 0)

  /** The text `${sign}` contributes to a numeric string. */
  function SignText(s: Sign): string {
    match s
    case PlusSign => "+"
    case MinusSign => "-"
    case NoSign => ""
  }

  /** The unsigned coefficient as a number. */
  function Magnitude(a: Amount): nat {
    NumberOf(a.coefficient)
  }

  /** `BigInt(`${sign}${coefficient}`)`: the signed coefficient. */
  function Signed(a: Amount): int {
    var m: int := Magnitude(a);
    if a.sign == MinusSign then -m else m
  }

  /** `BigInt(`${sign}${coefficient}${'0'.repeat(exponent - m)}`)`: the signed coefficient
      rescaled to the smaller exponent m (lemma ScaledText shows the text denotes this). */
  function Scaled(a: Amount, m: int): int
    requires m <= a.exponent
  {
    Signed(a) * Pow10(a.exponent - m)
  }

  /** Numeric equality, which `equals` does not test. */
  predicate SameValue(a: Amount, b: Amount) {
    var m := if a.exponent < b.exponent then a.exponent else b.exponent;
    Scaled(a, m) == Scaled(b, m)
  }

  /** The protected constructor (src/core/Amount.ts:95-111): checks that the coefficient is a
      digit string, empties the sign of a zero coefficient and strips leading zeros. Its callers
      never pass the empty sign with a non-zero coefficient. */
  function Construct(sign: Sign, coefficient: string, exponent: int): (r: Result<Amount>)
    requires sign == NoSign ==> AllZeros(coefficient)
    ensures r.Ok? <==> |coefficient| > 0 && AllDigits(coefficient)
    ensures r.Ok? ==> r.value.exponent == exponent
    ensures r.Ok? ==> Magnitude(r.value) == NumberOf(coefficient)
    ensures r.Ok? ==> r.value.sign == (if AllZeros(coefficient) then NoSign else sign)
  {
    if |coefficient| > 0 && AllDigits(coefficient) then
      StripLeadingZerosCorrect(coefficient);
      var rep := AmountRep(if AllZeros(coefficient) then NoSign else sign, StripLeadingZeros(coefficient), exponent);
      assert Normalised(rep);
      var a: Amount := rep;
      Ok(a)
    else
      Err(RangeError("The coefficient is not a numeric string"))
  }

  /** The exponent written after 'e' (`Number(exponentPart)`, "0" when absent). */
  function WrittenExponent(n: Numeral): int
    requires AllDigits(n.expDigits)
  {
    var d: int := NumberOf(n.expDigits);
    if !n.hasExp then 0 else if n.expSign == "-" then -d else d
  }

  /** What `fromString` builds from a matched numeral: the digits with the point removed, and
      the written exponent minus the number of digits after the point. */
  function FromNumeral(n: Numeral): (r: Result<Amount>)
    requires WellFormed(n)
    ensures r.Ok?
  {
    var coefficient := n.whole + n.frac;
    var exponent := WrittenExponent(n) - |n.frac|;
    var sign := if AllZeros(coefficient) then NoSign else if n.sign == "-" then MinusSign else PlusSign;
    Construct(sign, coefficient, exponent)
  }

  /** `Amount.fromString` (src/core/Amount.ts:120-133); lemma FromStringAccepts states which
      strings it accepts. */
  function FromString(s: string): (r: Result<Amount>)
    ensures r.Err? ==> r.error.RangeError?
  {
    var v := Lower(s);
    match Scan(v)
    case None => Err(RangeError("The argument is not a valid number notation."))
    case Some(n) =>
      ScanSound(v);
      FromNumeral(n)
  }

  /** `fromString` accepts a string exactly when its lower-cased form matches the grammar
      (src/core/Amount.ts:2, 121-124); every other string raises RangeError. */
  lemma FromStringAccepts(s: string)
    ensures FromString(s).Ok? <==> Matches(Lower(s))
    ensures FromString(s).Err? ==> FromString(s).error.RangeError?
  {
    ScanDecides(Lower(s));
  }

  /** Parsing a well-formed numeral: the coefficient denotes the digits with the point removed,
      the exponent is the written one minus the digits after the point, and the sign is '-'
      exactly for a written '-' on a non-zero coefficient. */
  lemma ParseNumeral(n: Numeral)
    requires WellFormed(n)
    ensures FromString(Render(n)) == FromNumeral(n)
    ensures var a := FromString(Render(n)).value;
            && a.exponent == WrittenExponent(n) - |n.frac|
            && Magnitude(a) == NumberOf(n.whole + n.frac)
            && (a.sign == MinusSign <==> n.sign == "-" && Magnitude(a) != 0)
  {
    LowerRender(n);
    ScanComplete(n);
    NumeralValue(n);
  }

  lemma NumeralValue(n: Numeral)
    requires WellFormed(n)
    ensures var a := FromNumeral(n).value;
            && a.exponent == WrittenExponent(n) - |n.frac|
            && Magnitude(a) == NumberOf(n.whole + n.frac)
            && (a.sign == MinusSign <==> n.sign == "-" && Magnitude(a) != 0)
  {
    NumberOfZero(n.whole + n.frac);
  }

  /** On an already normalised triple the constructor changes nothing. */
  lemma ConstructNormalised(a: Amount)
    ensures Construct(a.sign, a.coefficient, a.exponent) == Ok(a)
  {
    CanonicalFixed(a.coefficient);
  }

  /** `bigint.toString()` / an integral `number` printed in decimal. */
  function IntToString(i: int): string {
    if i < 0 then "-" + NatToString(-i) else NatToString(i)
  }

  function AbsInt(i: int): nat { if i < 0 then -i else i }

  /** The numeral `IntToString(k)e IntToString(m)` that arithmetic results are printed as. */
  function ScaledNumeral(k: int, m: int): (n: Numeral)
    ensures WellFormed(n)
  {
    Numeral(if k < 0 then "-" else "", NatToString(AbsInt(k)), false, "", true,
            if m < 0 then "-" else "", NatToString(AbsInt(m)))
  }

  /** The string `${k}e${m}` that plus, minus, multiply, divide and modulo re-parse. */
  function ScaledString(k: int, m: int): string {
    IntToString(k) + "e" + IntToString(m)
  }

  /** Re-parsing `${k}e${m}` gives the amount whose signed coefficient is k at exponent m. */
  lemma {:induction false} ParseScaled(k: int, m: int)
    ensures FromString(ScaledString(k, m)).Ok?
    ensures Signed(FromString(ScaledString(k, m)).value) == k
    ensures FromString(ScaledString(k, m)).value.exponent == m
  {
    RenderScaled(k, m);
    ParseScaledNumeral(k, m);
  }

  lemma {:induction false} ParseScaledNumeral(k: int, m: int)
    ensures FromString(Render(ScaledNumeral(k, m))).Ok?
    ensures Signed(FromString(Render(ScaledNumeral(k, m))).value) == k
    ensures FromString(Render(ScaledNumeral(k, m))).value.exponent == m
  {
    var n := ScaledNumeral(k, m);
    ParseNumeral(n);
    assert n.whole + n.frac == n.whole;
    var a := FromString(Render(n)).value;
    assert Magnitude(a) == AbsInt(k);
    assert a.sign == MinusSign <==> k < 0;
  }

  lemma {:induction false} RenderScaled(k: int, m: int)
    ensures Render(ScaledNumeral(k, m)) == ScaledString(k, m)
  {
    var n := ScaledNumeral(k, m);
    var sk, wk := n.sign, n.whole;
    var sm, wm := n.expSign, n.expDigits;
    assert IntToString(k) == sk + wk;
    assert IntToString(m) == sm + wm;
    var tail := "e" + (sm + wm);
    assert ExpText(n) == tail;
    assert PointText(n.point) + (n.frac + ExpText(n)) == tail;
    assert Render(n) == sk + (wk + tail);
    assert ScaledString(k, m) == ((sk + wk) + "e") + (sm + wm);
    AppendAssoc(sk + wk, "e", sm + wm);
    AppendAssoc(sk, wk, tail);
  }

  lemma AppendAssoc<T>(a: seq<T>, b: seq<T>, c: seq<T>)
    ensures (a + b) + c == a + (b + c)
  {
  }

  /** The amount the arithmetic methods of the source return: they print `${k}e${m}` and parse
      it, which gives the normalised amount of signed coefficient k at exponent m (lemma
      ReparseParses). */
  function Reparse(k: int, m: int): (r: Amount)
    ensures Signed(r) == k && r.exponent == m
  {
    var c := NatToString(AbsInt(k));
    assert k == 0 ==> c == "0";
    assert c == "0" ==> k == 0 by { assert NumberOf("0") == 0 by { assert "0"[..0] == ""; } }
    AmountRep(if k < 0 then MinusSign else if k == 0 then NoSign else PlusSign, c, m)
  }

  /** Printing `${k}e${m}` and parsing it with `fromString` gives `Reparse(k, m)`. */
  lemma ReparseParses(k: int, m: int)
    ensures FromString(ScaledString(k, m)) == Ok(Reparse(k, m))
  {
    ParseScaled(k, m);
    SameDenotation(FromString(ScaledString(k, m)).value, Reparse(k, m));
  }

  /** The inputs `toAmount` is given: a string, a bigint, an amount, or `undefined` (read from
      an object that has no `amount` property). Floating-point numbers are not modelled. */
  datatype AmountLike = Text(text: string) | Integer(integer: int) | Existing(amount: Amount) | Missing

  /** Reading a property of `undefined`. */
  const UndefinedAmount := "Cannot read properties of undefined"

  /** `Amount.toAmount` (src/core/Amount.ts:113-118) for string, bigint and Amount arguments.
      `undefined` is refused at once. The source returns it unchanged, and it throws TypeError
      only where it is read: `quantize` reads its `.divide`. */
  function ToAmount(v: AmountLike): (r: Result<Amount>)
    ensures v.Existing? ==> r == Ok(v.amount)
    ensures v.Integer? ==> r.Ok? && Signed(r.value) == v.integer && r.value.exponent == 0
    ensures v.Missing? <==> r == Err(TypeError(UndefinedAmount))
  {
    match v
    case Text(s) => FromString(s)
    case Integer(i) =>
      var n := Numeral(if i < 0 then "-" else "", NatToString(AbsInt(i)), false, "", false, "", "");
      assert Render(n) == IntToString(i);
      ParseNumeral(n);
      assert n.whole + n.frac == n.whole;
      FromString(IntToString(i))
    case Existing(a) => Ok(a)
    case Missing => Err(TypeError(UndefinedAmount))
  }

  function Min(x: int, y: int): int { if x < y then x else y }

  /** `plus` (src/core/Amount.ts:21-27): the exact sum at the smaller exponent. */
  function Plus(a: Amount, b: Amount): (r: Amount)
    ensures r.exponent == Min(a.exponent, b.exponent)
    ensures Signed(r) == Scaled(a, r.exponent) + Scaled(b, r.exponent)
  {
    var m := Min(a.exponent, b.exponent);
    Reparse(Scaled(a, m) + Scaled(b, m), m)
  }

  /** `minus` (src/core/Amount.ts:29-35): the exact difference at the smaller exponent. */
  function Minus(a: Amount, b: Amount): (r: Amount)
    ensures r.exponent == Min(a.exponent, b.exponent)
    ensures Signed(r) == Scaled(a, r.exponent) - Scaled(b, r.exponent)
  {
    var m := Min(a.exponent, b.exponent);
    Reparse(Scaled(a, m) - Scaled(b, m), m)
  }

  /** `multiply` (src/core/Amount.ts:37-42): coefficients multiply, exponents add. */
  function Multiply(a: Amount, b: Amount): (r: Amount)
    ensures Signed(r) == Signed(a) * Signed(b)
    ensures r.exponent == a.exponent + b.exponent
  {
    Reparse(Signed(a) * Signed(b), a.exponent + b.exponent)
  }

  /** BigInt `/`: the quotient truncated toward zero. */
  function TruncDiv(x: int, y: int): int
    requires y != 0
  {
    var q := AbsInt(x) / AbsInt(y);
    if (x < 0) != (y < 0) then -q else q
  }

  /** BigInt `%`: the remainder takes the sign of the dividend. */
  function TruncRem(x: int, y: int): int
    requires y != 0
  {
    x - TruncDiv(x, y) * y
  }

  /** Truncating division leaves a remainder smaller than the divisor, with the dividend's sign. */
  lemma {:induction false} TruncDivision(x: int, y: int)
    requires y != 0
    ensures AbsInt(TruncRem(x, y)) < AbsInt(y)
    ensures TruncRem(x, y) == 0 || (TruncRem(x, y) < 0 <==> x < 0)
    ensures AbsInt(TruncDiv(x, y)) == AbsInt(x) / AbsInt(y)
  {
    var ax: int, ay: int := AbsInt(x), AbsInt(y);
    var q: int := ax / ay;
    var rem: int := ax % ay;
    DivMod(ax, ay);
    var t := TruncDiv(x, y);
    assert AbsInt(t) == q;
    NegMul(q, ay);
    assert t * y == (if x < 0 then -(q * ay) else q * ay) by {
      if y < 0 {
        assert y == -ay;
        if x < 0 { assert t == q; } else { assert t == -q; NegMul(-q, ay); }
      } else {
        assert y == ay;
        if x < 0 { assert t == -q; } else { assert t == q; }
      }
    }
    if x < 0 {
      assert x == -ax;
      assert TruncRem(x, y) == -rem;
    } else {
      assert TruncRem(x, y) == rem;
    }
  }

  lemma DivMod(a: int, b: int)
    requires a >= 0 && b > 0
    ensures a == (a / b) * b + a % b && 0 <= a % b < b && a / b >= 0
  {
  }

  lemma NegMul(a: int, b: int)
    ensures (-a) * b == -(a * b) && a * (-b) == -(a * b)
  {
  }

  /** `divide` (src/core/Amount.ts:44-49): the signed coefficient quotient truncated toward
      zero, at the difference of the exponents; BigInt division by zero raises RangeError. */
  function Divide(a: Amount, b: Amount): (r: Result<Amount>)
    ensures r.Ok? <==> Signed(b) != 0
    ensures r.Err? ==> r.error.RangeError?
    ensures r.Ok? ==> r.value.exponent == a.exponent - b.exponent
    ensures r.Ok? ==> Signed(r.value) == TruncDiv(Signed(a), Signed(b))
  {
    if Signed(b) == 0 then Err(RangeError("Division by zero"))
    else Ok(Reparse(TruncDiv(Signed(a), Signed(b)), a.exponent - b.exponent))
  }

  /** `modulo` (src/core/Amount.ts:51-57): the truncated remainder at the smaller exponent. */
  function Modulo(a: Amount, b: Amount): (r: Result<Amount>)
    ensures r.Ok? <==> Signed(b) != 0
    ensures r.Err? ==> r.error.RangeError?
    ensures r.Ok? ==> r.value.exponent == Min(a.exponent, b.exponent)
    ensures r.Ok? ==> Signed(r.value) == TruncRem(Scaled(a, r.value.exponent), Scaled(b, r.value.exponent))
  {
    var m := Min(a.exponent, b.exponent);
    if Scaled(b, m) == 0 then Err(RangeError("Division by zero"))
    else Ok(Reparse(TruncRem(Scaled(a, m), Scaled(b, m)), m))
  }

  /** `abs` (src/core/Amount.ts:59-61): the same coefficient and exponent with sign '+'. */
  function Abs(a: Amount): (r: Amount)
    ensures Signed(r) == AbsInt(Signed(a))
    ensures r.coefficient == a.coefficient && r.exponent == a.exponent
  {
    CanonicalFixed(a.coefficient);
    Construct(PlusSign, a.coefficient, a.exponent).value
  }

  /** `isZero` (src/core/Amount.ts:63-65): the coefficient matches /^0+$/. */
  function IsZero(a: Amount): (r: bool)
    ensures r <==> Signed(a) == 0
  {
    NumberOfZero(a.coefficient);
    AllZeros(a.coefficient)
  }

  /** Only the amount whose coefficient is "0" has no sign, and it alone has magnitude 0. */
  lemma NoSignMagnitude(a: Amount)
    ensures a.sign == NoSign <==> Magnitude(a) == 0
  {
    CanonicalZero(a.coefficient);
    NumberOfZero(a.coefficient);
  }

  /** `precision` (src/core/Amount.ts:12-14): the number of digits of the coefficient. */
  function Precision(a: Amount): (p: nat)
    ensures p >= 1 && Magnitude(a) < Pow10(p)
    ensures p > 1 ==> Magnitude(a) >= Pow10(p - 1)
  {
    NumberOfBound(a.coefficient);
    CanonicalBounds(a.coefficient);
    |a.coefficient|
  }

  lemma CanonicalBounds(c: string)
    requires Canonical(c)
    ensures |c| > 1 ==> NumberOf(c) >= Pow10(|c| - 1)
  {
    if |c| > 1 { CanonicalLowerBound(c); }
  }

  /** `equals` (src/core/Amount.ts:16-19): the other operand goes through `toAmount` (which
      may refuse it), then the comparison is structural: same sign, coefficient and exponent. */
  function Equals(a: Amount, other: AmountLike): (r: Result<bool>)
    ensures r.Ok? <==> ToAmount(other).Ok?
    ensures r.Ok? ==> (r.value <==> var b := ToAmount(other).value;
                                    a.sign == b.sign && a.coefficient == b.coefficient && a.exponent == b.exponent)
  {
    var b :- ToAmount(other);
    Ok(a == b)
  }

  /** What the number literal 0 becomes: `(0).toExponential()` is "0e+0", read as the
      coefficient "0" at exponent 0. */
  const Zero: Amount := AmountRep(NoSign, "0", 0)

  lemma ZeroIsZero()
    ensures Signed(Zero) == 0
  {
    assert NumberOf("0") == 0 by { assert "0"[..0] == ""; }
  }

  /** Normalisation leaves one amount of value 0 at exponent 0. */
  lemma ZeroAmount(a: Amount)
    requires Magnitude(a) == 0 && a.exponent == 0
    ensures a == Zero
  {
    assert NumberOf("0") == 0 by { assert "0"[..0] == ""; }
    CanonicalUnique(a.coefficient);
  }

  /** Adding then subtracting the same amount gives back the same number. */
  lemma {:induction false} MinusUndoesPlus(a: Amount, b: Amount)
    ensures SameValue(Minus(Plus(a, b), b), a)
  {
    var m := Min(a.exponent, b.exponent);
    var p := Plus(a, b);
    assert Pow10(0) == 1;
    assert Scaled(p, m) == Signed(p);
    var r := Minus(p, b);
    assert r.exponent == m;
    assert Scaled(r, m) == Signed(r);
  }

  /** `plus` is commutative, exponent and all. */
  lemma PlusCommutes(a: Amount, b: Amount)
    ensures Plus(a, b) == Plus(b, a)
  {
    SameDenotation(Plus(a, b), Plus(b, a));
  }

  /** A normalised amount is determined by its signed coefficient and exponent. */
  lemma {:induction false} SameDenotation(r: Amount, s: Amount)
    requires Signed(r) == Signed(s) && r.exponent == s.exponent
    ensures r == s
  {
    CanonicalZero(r.coefficient);
    CanonicalZero(s.coefficient);
    NumberOfZero(r.coefficient);
    NumberOfZero(s.coefficient);
    assert Magnitude(r) == Magnitude(s);
    CanonicalUnique(r.coefficient);
    CanonicalUnique(s.coefficient);
  }

  /** With equal exponents, `divide` and `modulo` split the dividend as BigInt `/` and `%` do. */
  lemma {:induction false} DivideModulo(a: Amount, b: Amount)
    requires a.exponent == b.exponent && Signed(b) != 0
    ensures Divide(a, b).Ok? && Modulo(a, b).Ok?
    ensures Signed(a) == Signed(Divide(a, b).value) * Signed(b) + Signed(Modulo(a, b).value)
  {
    assert Pow10(0) == 1;
    assert Scaled(a, a.exponent) == Signed(a);
    assert Scaled(b, a.exponent) == Signed(b);
  }

  /** `equals` compares representations: 1 and 1.0 are the same number but not equal. */
  lemma EqualsIsStructural()
    ensures var one: Amount := AmountRep(PlusSign, "1", 0);
            var tenTenths: Amount := AmountRep(PlusSign, "10", -1);
            Equals(one, Existing(tenTenths)) == Ok(false) && SameValue(one, tenTenths)
  {
    assert NumberOf("1") == 1 by { assert "1"[..0] == ""; }
    assert NumberOf("10") == 10 by { assert "10"[..1] == "1"; assert "1"[..0] == ""; }
    assert Pow10(1) == 10;
  }
}
