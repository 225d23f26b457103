/** Decimal numerals as text, and the integers they denote. */
module Numerals {

  predicate IsDigit(c: char) { '0' <= c <= '9' }

  predicate AllDigits(s: string) { forall i :: 0 <= i < |s| ==> IsDigit(s[i]) }

  function Digit(c: char): nat
    requires IsDigit(c)
  {
    c as int - '0' as int
  }

  function DigitChar(n: nat): (c: char)
    requires n < 10
    ensures IsDigit(c) && Digit(c) == n
  {
    '0' + n as char
  }

  function Pow10(n: nat): (p: nat)
    ensures p >= 1
  {
    if n == 0 then 1 else 10 * Pow10(n - 1)
  }

  function Zeros(n: nat): (s: string)
    ensures |s| == n && AllDigits(s) && forall i :: 0 <= i < n ==> s[i] == '0'
  {
    seq(n, _ => '0')
  }

  function NatVal(s: string): nat
    requires AllDigits(s)
  {
    if s == "" then 0 else 10 * NatVal(s[..|s| - 1]) + Digit(s[|s| - 1])
  }

  /** The text of a natural number, without leading zeros. */
  function Numeral(n: nat): (s: string)
    ensures s != "" && AllDigits(s)
  {
    if n < 10 then [DigitChar(n)] else Numeral(n / 10) + [DigitChar(n % 10)]
  }

  /** The text of an integer: what `numeric::text` of a NUMERIC(38, 0) and `BigInt.toString` print. */
  function IntText(z: int): string {
    if z < 0 then "-" + Numeral(-z) else Numeral(z)
  }

  predicate IsNegative(s: string) { s != "" && s[0] == '-' }

  function Unsign(s: string): string { if IsNegative(s) then s[1..] else s }

  /** The regular expression `^-?\d+$`. */
  predicate IsSigned(s: string) { Unsign(s) != "" && AllDigits(Unsign(s)) }

  function Sign(negative: bool, n: int): int { if negative then -n else n }

  function IntVal(s: string): int
    requires IsSigned(s)
  {
    Sign(IsNegative(s), NatVal(Unsign(s)))
  }

  lemma TenTimes(a: int, b: int)
    ensures a * (10 * b) == 10 * (a * b) && (10 * b) * a == 10 * (b * a)
  {
  }

  lemma {:induction false} Pow10Add(a: nat, b: nat)
    ensures Pow10(a + b) == Pow10(a) * Pow10(b)
  {
    if a == 0 {
    } else {
      Pow10Add(a - 1, b);
      TenTimes(Pow10(b), Pow10(a - 1));
    }
  }

  lemma ShiftIn(x: int, p: int, y: int, d: int)
    ensures 10 * (x * p + y) + d == x * (10 * p) + (10 * y + d)
  {
    TenTimes(x, p);
  }

  lemma {:induction false} NatValAppend(a: string, b: string)
    requires AllDigits(a) && AllDigits(b)
    ensures AllDigits(a + b) && NatVal(a + b) == NatVal(a) * Pow10(|b|) + NatVal(b)
  {
    if b == "" {
      assert a + b == a;
      assert NatVal(a) * 1 == NatVal(a);
    } else {
      var n := |b| - 1;
      NatValAppend(a, b[..n]);
      assert (a + b)[..|a| + n] == a + b[..n] && (a + b)[|a| + n] == b[n];
      ShiftIn(NatVal(a), Pow10(n), NatVal(b[..n]), Digit(b[n]));
    }
  }

  lemma {:induction false} NatValBound(s: string)
    requires AllDigits(s)
    ensures NatVal(s) < Pow10(|s|)
  {
    if s == "" {
    } else {
      NatValBound(s[..|s| - 1]);
    }
  }

  lemma {:induction false} NatValPositive(s: string)
    requires AllDigits(s) && s != "" && s[0] != '0'
    ensures NatVal(s) > 0
  {
    if |s| <= 1 {
    } else {
      NatValPositive(s[..|s| - 1]);
    }
  }

  lemma {:induction false} NatValZeros(n: nat)
    ensures NatVal(Zeros(n)) == 0
  {
    if n == 0 {
    } else {
      NatValZeros(n - 1);
      assert Zeros(n)[..n - 1] == Zeros(n - 1);
    }
  }

  /** Printing then reading a natural number gives it back. */
  lemma {:induction false} NatValNumeral(n: nat)
    ensures NatVal(Numeral(n)) == n
  {
    if n < 10 {
    } else {
      NatValNumeral(n / 10);
      assert Numeral(n)[..|Numeral(n)| - 1] == Numeral(n / 10);
    }
  }

  predicate HasNoLeadingZero(s: string) { s != "" && (|s| == 1 || s[0] != '0') }

  lemma {:induction false} NumeralHasNoLeadingZero(n: nat)
    ensures HasNoLeadingZero(Numeral(n)) && (n > 0 ==> Numeral(n)[0] != '0')
  {
    if n < 10 {
    } else {
      NumeralHasNoLeadingZero(n / 10);
    }
  }

  /** A digit string without leading zeros is the one numeral of its value. */
  lemma {:induction false} NumeralIsUnique(s: string)
    requires AllDigits(s) && HasNoLeadingZero(s)
    ensures Numeral(NatVal(s)) == s
  {
    var t, c := s[..|s| - 1], s[|s| - 1];
    assert s == t + [c];
    if |s| == 1 {
      assert NatVal(t) == 0;
    } else {
      NatValPositive(t);
      NumeralIsUnique(t);
      assert NatVal(s) / 10 == NatVal(t) && NatVal(s) % 10 == Digit(c);
    }
  }

  /** At a fixed width the digits are determined by the value. */
  lemma {:induction false} FixedWidth(a: string, b: string)
    requires AllDigits(a) && AllDigits(b) && |a| == |b| && NatVal(a) == NatVal(b)
    ensures a == b
  {
    if a == "" {
    } else {
      var n := |a| - 1;
      FixedWidth(a[..n], b[..n]);
      assert a == a[..n] + [a[n]] && b == b[..n] + [b[n]];
    }
  }

  /** Leading zeros do not change the value. */
  lemma ZerosThen(n: nat, s: string)
    requires AllDigits(s)
    ensures AllDigits(Zeros(n) + s) && NatVal(Zeros(n) + s) == NatVal(s)
  {
    NatValAppend(Zeros(n), s);
    NatValZeros(n);
    assert 0 * Pow10(|s|) == 0;
  }

  lemma IntTextReads(z: int)
    ensures IsSigned(IntText(z)) && IntVal(IntText(z)) == z
  {
    NatValNumeral(if z < 0 then -z else z);
    var n := Numeral(if z < 0 then -z else z);
    assert IsDigit(n[0]);
    if z < 0 { assert ("-" + n)[1..] == n; }
  }

  /** Text equality of printed integers is equality of the integers. */
  lemma IntTextInjective(x: int, y: int)
    ensures IntText(x) == IntText(y) <==> x == y
  {
    IntTextReads(x);
    IntTextReads(y);
  }
}
