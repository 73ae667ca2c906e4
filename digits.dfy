/** Decimal digit strings and the integers they denote. The source builds and reads these
    through `BigInt(...)`, template strings and `'0'.repeat(...)`; here they are spelled out. */
module Digits {

  predicate IsDigit(c: char) { '0' <= c <= '9' }

  predicate AllDigits(s: string) { forall i :: 0 <= i < |s| ==> IsDigit(s[i]) }

  /** The test `/^0+$/`: one or more zeros and nothing else. */
  predicate AllZeros(s: string) { |s| > 0 && forall i :: 0 <= i < |s| ==> s[i] == '0' }

  /** A digit string without superfluous leading zeros ("0" itself is allowed). */
  predicate Canonical(s: string) { |s| > 0 && AllDigits(s) && (s[0] == '0' ==> |s| == 1) }

  function DigitValue(c: char): nat
    requires IsDigit(c)
  {
    c as int - '0' as int
  }

  function DigitChar(d: nat): (c: char)
    requires d < 10
    ensures IsDigit(c) && DigitValue(c) == d
  {
    ('0' as int + d) as char
  }

  function Pow10(k: nat): (p: nat)
    ensures p >= 1
  {
    if k == 0 then 1 else 10 * Pow10(k - 1)
  }

  /** `'0'.repeat(k)` */
  function Zeros(k: nat): (s: string)
    ensures |s| == k && AllDigits(s)
    ensures forall i :: 0 <= i < k ==> s[i] == '0'
  {
    if k == 0 then "" else Zeros(k - 1) + "0"
  }

  /** The natural number a digit string denotes, most significant digit first. */
  function NumberOf(s: string): nat
    requires AllDigits(s)
  {
    if |s| == 0 then 0 else NumberOf(s[..|s| - 1]) * 10 + DigitValue(s[|s| - 1])
  }

  /** Decimal rendering of a natural number, as `bigint.toString()` prints it. */
  function NatToString(n: nat): (s: string)
    ensures Canonical(s) && NumberOf(s) == n
  {
    if n < 10 then
      [DigitChar(n)]
    else
      var init := NatToString(n / 10);
      var s := init + [DigitChar(n % 10)];
      assert s[..|s| - 1] == init;
      s
  }

  /** `coefficient.replace(/^0+(?!$)/, '')`: drop leading zeros but keep the last character. */
  function StripLeadingZeros(s: string): (r: string)
    ensures |r| <= |s| && r == s[|s| - |r|..]
    ensures |s| > 0 ==> |r| > 0
  {
    if |s| > 1 && s[0] == '0' then StripLeadingZeros(s[1..]) else s
  }

  lemma {:induction false} NumberOfAppend(a: string, b: string)
    requires AllDigits(a) && AllDigits(b)
    ensures AllDigits(a + b)
    ensures NumberOf(a + b) == NumberOf(a) * Pow10(|b|) + NumberOf(b)
    decreases |b|
  {
    if |b| == 0 {
      assert a + b == a;
    } else {
      var b' := b[..|b| - 1];
      assert (a + b)[..|a + b| - 1] == a + b';
      NumberOfAppend(a, b');
      var x, y, p := NumberOf(a), NumberOf(b'), Pow10(|b'|);
      var d := DigitValue(b[|b| - 1]);
      assert NumberOf(a + b) == (x * p + y) * 10 + d;
      assert NumberOf(b) == y * 10 + d by { assert b[..|b| - 1] == b'; }
      ShiftDigit(x, y, p, d);
    }
  }

  lemma ShiftDigit(x: int, y: int, p: int, d: int)
    ensures (x * p + y) * 10 + d == x * (p * 10) + (y * 10 + d)
  {
  }

  lemma {:induction false} NumberOfBound(s: string)
    requires AllDigits(s)
    ensures NumberOf(s) < Pow10(|s|)
  {
    if |s| > 0 {
      NumberOfBound(s[..|s| - 1]);
    }
  }

  /** A digit string denotes zero exactly when every digit is '0'. */
  lemma {:induction false} NumberOfZero(s: string)
    requires AllDigits(s)
    ensures NumberOf(s) == 0 <==> forall i :: 0 <= i < |s| ==> s[i] == '0'
  {
    if |s| > 0 {
      var s' := s[..|s| - 1];
      NumberOfZero(s');
      assert forall i :: 0 <= i < |s'| ==> s'[i] == s[i];
    }
  }

  lemma NumberOfZeros(k: nat)
    ensures NumberOf(Zeros(k)) == 0
  {
    NumberOfZero(Zeros(k));
  }

  /** A canonical string of two or more digits starts with a non-zero digit. */
  lemma {:induction false} CanonicalLowerBound(s: string)
    requires Canonical(s) && |s| > 1
    ensures NumberOf(s) >= Pow10(|s| - 1)
  {
    var head, tail := s[..1], s[1..];
    assert s == head + tail;
    NumberOfAppend(head, tail);
    assert NumberOf(head) == DigitValue(s[0]) by { assert head[..0] == []; }
    MulAtLeast(NumberOf(head), Pow10(|tail|));
  }

  // Products the solver does not find unaided

  lemma MulAtLeast(x: int, p: int)
    requires x >= 1 && p > 0
    ensures x * p >= p
  {
    assert x * p == p + (x - 1) * p;
  }

  lemma ZeroProduct(x: int, p: int)
    requires x == 0
    ensures x * p == 0
  {
  }

  lemma OneTimes(x: int, p: int)
    requires p == 1
    ensures x * p == x
  {
  }

  lemma StripLeadingZerosCorrect(s: string)
    requires |s| > 0 && AllDigits(s)
    ensures Canonical(StripLeadingZeros(s))
    ensures NumberOf(StripLeadingZeros(s)) == NumberOf(s)
    ensures AllZeros(s) <==> StripLeadingZeros(s) == "0"
  {
    StripCanonical(s);
    StripKeepsNumber(s);
    StripAllZeros(s);
  }

  lemma {:induction false} StripCanonical(s: string)
    requires |s| > 0 && AllDigits(s)
    ensures Canonical(StripLeadingZeros(s))
  {
    if |s| > 1 && s[0] == '0' {
      StripCanonical(s[1..]);
    }
  }

  lemma {:induction false} StripKeepsNumber(s: string)
    requires AllDigits(s)
    ensures NumberOf(StripLeadingZeros(s)) == NumberOf(s)
  {
    if |s| > 1 && s[0] == '0' {
      StripKeepsNumber(s[1..]);
      LeadingZeroDropped(s);
    }
  }

  lemma {:induction false} StripAllZeros(s: string)
    requires |s| > 0
    ensures AllZeros(s) <==> StripLeadingZeros(s) == "0"
  {
    if |s| > 1 && s[0] == '0' {
      assert StripLeadingZeros(s) == StripLeadingZeros(s[1..]);
      StripAllZeros(s[1..]);
      AllZerosTail(s);
    } else {
      assert StripLeadingZeros(s) == s;
      if AllZeros(s) {
        assert |s| == 1;
        assert s == "0";
      }
    }
  }

  lemma LeadingZeroDropped(s: string)
    requires |s| > 1 && s[0] == '0' && AllDigits(s)
    ensures NumberOf(s[1..]) == NumberOf(s)
  {
    assert s == s[..1] + s[1..];
    NumberOfAppend(s[..1], s[1..]);
    assert NumberOf(s[..1]) == 0 by { assert s[..1][..0] == []; }
  }

  lemma AllZerosTail(s: string)
    requires |s| > 1 && s[0] == '0'
    ensures AllZeros(s) <==> AllZeros(s[1..])
  {
    assert forall i :: 1 <= i < |s| ==> s[i] == s[1..][i - 1];
  }

  /** A canonical digit string is the rendering of the number it denotes. */
  lemma {:induction false} CanonicalUnique(s: string)
    requires Canonical(s)
    ensures NatToString(NumberOf(s)) == s
    decreases |s|
  {
    var n := NumberOf(s);
    if |s| == 1 {
      assert s[..0] == [];
      assert NumberOf(s[..0]) == 0;
      assert n < 10;
    } else {
      var init := s[..|s| - 1];
      CanonicalLowerBound(s);
      assert init[0] == s[0];
      assert Canonical(init);
      assert n / 10 == NumberOf(init) && n % 10 == DigitValue(s[|s| - 1]);
      CanonicalUnique(init);
      assert n >= 10 by { assert Pow10(|s| - 1) >= 10 by { Pow10Mono(1, |s| - 1); } }
      assert DigitChar(n % 10) == s[|s| - 1];
      assert s == init + [s[|s| - 1]];
    }
  }

  lemma {:induction false} Pow10Mono(a: nat, b: nat)
    requires a <= b
    ensures Pow10(a) <= Pow10(b)
    decreases b
  {
    if a < b { Pow10Mono(a, b - 1); }
  }

  lemma {:induction false} Pow10Add(a: nat, b: nat)
    ensures Pow10(a + b) == Pow10(a) * Pow10(b)
    decreases b
  {
    if b > 0 {
      Pow10Add(a, b - 1);
      assert Pow10(a + b) == 10 * Pow10(a + b - 1);
    }
  }

  /** Appending k zeros multiplies by 10^k. */
  lemma NumberOfTrailingZeros(s: string, k: nat)
    requires AllDigits(s)
    ensures AllDigits(s + Zeros(k)) && NumberOf(s + Zeros(k)) == NumberOf(s) * Pow10(k)
  {
    NumberOfAppend(s, Zeros(k));
    NumberOfZeros(k);
  }

  /** A canonical digit string is left alone by `StripLeadingZeros`, and is all zeros only as "0". */
  lemma CanonicalFixed(c: string)
    requires Canonical(c)
    ensures StripLeadingZeros(c) == c
    ensures AllZeros(c) <==> c == "0"
  {
    CanonicalStripFixed(c);
    CanonicalZero(c);
  }

  lemma CanonicalStripFixed(c: string)
    requires Canonical(c)
    ensures StripLeadingZeros(c) == c
  {
  }

  lemma CanonicalZero(c: string)
    requires Canonical(c)
    ensures AllZeros(c) <==> c == "0"
  {
    if |c| > 1 { assert c[0] != '0'; assert !AllZeros(c); }
    else { assert |c| == 1; if c[0] == '0' { assert c == "0"; } }
  }

  /** Zeros written in front of a digit string do not change its number. */
  lemma LeadingZerosNumber(k: nat, c: string)
    requires AllDigits(c)
    ensures AllDigits(Zeros(k) + c) && NumberOf(Zeros(k) + c) == NumberOf(c)
  {
    NumberOfAppend(Zeros(k), c);
    NumberOfZeros(k);
    assert NumberOf(Zeros(k)) * Pow10(|c|) == 0;
  }

  lemma ZerosCons(k: nat)
    ensures "0" + Zeros(k) == Zeros(k + 1)
  {
    var s, t := "0" + Zeros(k), Zeros(k + 1);
    assert forall i :: 0 <= i < k + 1 ==> s[i] == '0' && t[i] == '0';
  }
}
