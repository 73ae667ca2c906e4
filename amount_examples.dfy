/** Cases from src/core/Amount.test.ts, proved about the model of `Amount.toAmount`. */
module AmountExamples {
  import opened Wrappers
  import opened Digits
  import opened Numerals
  import opened Amounts

  /** Parses `s`, written as the numeral `n`, into the amount `expected`. */
  lemma ParsesTo(s: string, n: Numeral, expected: Amount)
    requires WellFormed(n) && Render(n) == s && FromNumeral(n) == Ok(expected)
    ensures FromString(s) == Ok(expected)
  {
    ParseNumeral(n);
  }

  lemma AcceptsSignedPoint()
    ensures FromString("-9.10") == Ok(AmountRep(MinusSign, "910", -2))
  {
    var n := Numeral("-", "9", true, "10", false, "", "");
    assert n.whole + n.frac == "910";
    assert !AllZeros("910") by { assert "910"[0] != '0'; }
    ParsesTo("-9.10", n, AmountRep(MinusSign, "910", -2));
  }

  lemma AcceptsUpperCaseExponent()
    ensures FromString("+17E18") == Ok(AmountRep(PlusSign, "17", 18))
  {
    var n := Numeral("+", "17", false, "", true, "", "18");
    UpperCaseExponentNumeral(n);
    UpperCaseLowered("+17E18");
    LowerRender(n);
    ScanComplete(n);
  }

  lemma UpperCaseLowered(s: string)
    requires s == "+17E18"
    ensures Lower(s) == "+17e18"
  {
    assert LowerChar(s[3]) == 'e';
  }

  lemma UpperCaseExponentNumeral(n: Numeral)
    requires n == Numeral("+", "17", false, "", true, "", "18")
    ensures WellFormed(n) && Render(n) == "+17e18"
    ensures FromNumeral(n) == Ok(AmountRep(PlusSign, "17", 18))
  {
    assert n.whole + n.frac == "17";
    assert NumberOf("18") == 18 by { assert "18"[..1] == "1"; assert "1"[..0] == ""; }
    assert !AllZeros("17") by { assert "17"[0] != '0'; }
  }

  lemma AcceptsPointAndNegativeExponent()
    ensures FromString("22.23e-24") == Ok(AmountRep(PlusSign, "2223", -26))
  {
    var n := Numeral("", "22", true, "23", true, "-", "24");
    assert n.whole + n.frac == "2223";
    assert NumberOf("24") == 24 by { assert "24"[..1] == "2"; assert "2"[..0] == ""; }
    assert !AllZeros("2223") by { assert "2223"[0] != '0'; }
    ParsesTo("22.23e-24", n, AmountRep(PlusSign, "2223", -26));
  }

  lemma AcceptsZeroWithScale()
    ensures FromString("0.0000e-26") == Ok(AmountRep(NoSign, "0", -30))
  {
    var n := Numeral("", "0", true, "0000", true, "-", "26");
    ZeroWithScaleNumeral(n);
    ParsesTo("0.0000e-26", n, AmountRep(NoSign, "0", -30));
  }

  lemma ZeroWithScaleNumeral(n: Numeral)
    requires n == Numeral("", "0", true, "0000", true, "-", "26")
    ensures WellFormed(n) && Render(n) == "0.0000e-26" && FromNumeral(n) == Ok(AmountRep(NoSign, "0", -30))
  {
    assert n.whole + n.frac == "00000";
    assert NumberOf("26") == 26 by { assert "26"[..1] == "2"; assert "2"[..0] == ""; }
    assert AllZeros("00000");
  }

  lemma AcceptsSignedZero()
    ensures FromString("+0.0") == Ok(AmountRep(NoSign, "0", -1))
  {
    var n := Numeral("+", "0", true, "0", false, "", "");
    assert n.whole + n.frac == "00";
    assert AllZeros("00");
    ParsesTo("+0.0", n, AmountRep(NoSign, "0", -1));
  }

  /** The number 0, printed by `toExponential`, is read as `Zero`. */
  lemma ZeroLiteral()
    ensures FromString("0e+0") == Ok(Zero)
  {
    var n := Numeral("", "0", false, "", true, "+", "0");
    ZeroNumeralText(n);
    ZeroNumeral(n);
    ParsesTo("0e+0", n, Zero);
  }

  lemma ZeroNumeral(n: Numeral)
    requires n == Numeral("", "0", false, "", true, "+", "0")
    ensures WellFormed(n) && FromNumeral(n) == Ok(AmountRep(NoSign, "0", 0))
  {
    assert n.whole + n.frac == "0";
    assert NumberOf("0") == 0 by { assert "0"[..0] == ""; }
    assert AllZeros("0");
  }

  lemma ZeroNumeralText(n: Numeral)
    requires n == Numeral("", "0", false, "", true, "+", "0")
    ensures WellFormed(n) && Render(n) == "0e+0"
  {
  }

  /** A string the recogniser refuses is refused by `fromString`. */
  lemma RejectedWhenUnscanned(s: string)
    requires Scan(Lower(s)) == None
    ensures FromString(s).Err?
  {
  }

  /** A bare sign and the empty string. */
  lemma RejectsEmpty()
    ensures FromString("+").Err? && FromString("-").Err? && FromString("").Err?
  {
    RejectedWhenUnscanned("+");
    RejectedWhenUnscanned("-");
    RejectedWhenUnscanned("");
  }

  /** After a run of digits comes a character that continues neither the digits, nor a
      fraction, nor an exponent: the recogniser refuses the string. */
  lemma {:induction false} StopsAfterDigits(t: string, k: nat)
    requires 0 < k < |t| && AllDigits(t[..k])
    requires !IsDigit(t[k]) && t[k] != '.' && t[k] != 'e'
    ensures Scan(t) == None
  {
    assert t == t[..k] + t[k..];
    DigitPrefixOf(t[..k], t[k..]);
    assert t[0] == t[..k][0];
    assert ScanWhole(t) == ("", t[..k], t[k..]);
    assert ScanFrac(t[k..]) == (false, "", t[k..]);
  }

  /** Lower-casing leaves digits and every character that is not a capital letter alone. */
  lemma LowerKeepsPrefix(s: string, k: nat)
    requires k < |s| && AllDigits(s[..k]) && !('A' <= s[k] <= 'Z')
    ensures Lower(s)[..k] == s[..k] && Lower(s)[k] == s[k]
  {
    forall i | 0 <= i < k
      ensures Lower(s)[i] == s[i]
    {
      assert s[i] == s[..k][i];
    }
  }

  /** `fromString` refuses a string whose leading digits are followed by such a character. */
  lemma RefusedAfterDigits(s: string, k: nat)
    requires 0 < k < |s| && AllDigits(s[..k])
    requires !IsDigit(s[k]) && s[k] != '.' && s[k] != 'e' && !('A' <= s[k] <= 'Z')
    ensures FromString(s).Err?
  {
    LowerKeepsPrefix(s, k);
    StopsAfterDigits(Lower(s), k);
  }

  /** A thousands separator. */
  lemma RejectsDelimiter()
    ensures FromString("1,000").Err?
  {
    assert "1,000"[..1] == "1";
    RefusedAfterDigits("1,000", 1);
  }

  /** A percent sign. */
  lemma RejectsPercent()
    ensures FromString("100%").Err?
  {
    assert "100%"[..3] == "100";
    RefusedAfterDigits("100%", 3);
  }

  /** Hexadecimal notation. */
  lemma RejectsHex()
    ensures FromString("0x00").Err?
  {
    assert "0x00"[..1] == "0";
    RefusedAfterDigits("0x00", 1);
  }

  /** A sign in the middle. */
  lemma RejectsInnerSign()
    ensures FromString("0+0").Err?
  {
    assert "0+0"[..1] == "0";
    RefusedAfterDigits("0+0", 1);
  }

  /** An exponent marker with no digits. */
  lemma RejectsMissingExponent()
    ensures FromString("1e").Err?
  {
    var s := "1e";
    LowerKeepsPrefix(s, 1);
    var t := Lower(s);
    assert t == t[..1] + [t[1]];
    assert t == "1" + "e";
    DigitPrefixOf("1", "e");
    assert ScanWhole(t) == ("", "1", "e");
    assert ScanFrac("e") == (false, "", "e");
    assert ScanExp("e") == None by { assert "e"[1..] == ""; }
  }

  /** After digits, a point and more digits comes a character that continues neither the
      fraction nor an exponent: the recogniser refuses the string. */
  lemma {:induction false} StopsAfterFraction(t: string, k: nat, j: nat)
    requires 0 < k < j < |t| && t[k] == '.'
    requires AllDigits(t[..k]) && AllDigits(t[k + 1..j])
    requires !IsDigit(t[j]) && t[j] != 'e'
    ensures Scan(t) == None
  {
    assert t == t[..k] + t[k..];
    DigitPrefixOf(t[..k], t[k..]);
    assert t[0] == t[..k][0];
    assert ScanWhole(t) == ("", t[..k], t[k..]);
    var r := t[k..];
    assert r[1..] == t[k + 1..j] + t[j..];
    DigitPrefixOf(t[k + 1..j], t[j..]);
    assert ScanFrac(r) == (true, t[k + 1..j], t[j..]);
  }

  /** Lower-casing leaves a prefix without capital letters alone. */
  lemma LowerKeeps(s: string, n: nat)
    requires n <= |s| && forall i :: 0 <= i < n ==> !('A' <= s[i] <= 'Z')
    ensures Lower(s)[..n] == s[..n]
  {
  }

  /** A second decimal point. */
  lemma RejectsSeveralPoints()
    ensures FromString("1.0.1").Err?
  {
    var s := "1.0.1";
    LowerKeeps(s, 4);
    var t := Lower(s);
    assert t[..1] == "1" && t[2..3] == "0" && t[1] == '.' && t[3] == '.' by { assert t[..4] == "1.0."; }
    StopsAfterFraction(t, 1, 3);
  }
}
