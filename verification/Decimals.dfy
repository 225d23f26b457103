/**
 * Major and minor units: src/crp/decimals-registry.ts, src/worker/pltDecimals.ts and the amount
 * formatting of src/crp/pltExtractor.ts.
 */
module Decimals {
  import opened Text
  import opened Numerals

  const INVALID_DECIMALS := "Invalid decimals"
  const INVALID_AMOUNT := "Invalid amount format"
  const TOO_MANY_PLACES := "Too many decimal places"
  const INVALID_MINOR := "Invalid minor amount format"

  /** The value num / 10^scale. */
  datatype Decimal = Decimal(num: int, scale: nat)

  ghost predicate SameRational(x: Decimal, y: Decimal) {
    x.num * Pow10(y.scale) == y.num * Pow10(x.scale)
  }

  function Parts(t: string): (p: seq<string>)
    ensures |p| >= 1
  {
    Split(Unsign(t), '.')
  }

  function FracPart(t: string): string {
    if |Parts(t)| >= 2 then Parts(t)[1] else ""
  }

  /** `/^-?\d+(\.\d+)?$/`, decided on the parts the code goes on to use. */
  predicate IsAmount(t: string) {
    |Parts(t)| <= 2 && forall i :: 0 <= i < |Parts(t)| ==> Parts(t)[i] != "" && AllDigits(Parts(t)[i])
  }

  /** What an amount text denotes, read off the text alone. */
  function Denotes(t: string): Decimal
    requires IsAmount(t)
  {
    Decimal(Sign(IsNegative(t), NatVal(Parts(t)[0] + FracPart(t))), |FracPart(t)|)
  }

  function StripLeadingZeros(s: string): string {
    if s != "" && s[0] == '0' then StripLeadingZeros(s[1..]) else s
  }

  function OrZero(s: string): string { if s == "" then "0" else s }

  function ToMinor(amountMajor: string, decimals: int): Result<string> {
    var t := Trim(amountMajor);
    if decimals < 0 then Err(INVALID_DECIMALS)
    else if !IsAmount(t) then Err(INVALID_AMOUNT)
    else if |FracPart(t)| > decimals then Err(TOO_MANY_PLACES)
    else
      var combined := OrZero(StripLeadingZeros(Parts(t)[0] + FracPart(t) + Zeros(decimals - |FracPart(t)|)));
      Ok(Signed(IsNegative(t) && combined != "0", combined))
  }

  lemma AmountStarts(t: string)
    requires IsAmount(t)
    ensures Parts(t)[0] != ""
  {
  }

  method ToMinorUnits(amountMajor: string, decimals: int) returns (r: Result<string>)
    ensures r == ToMinor(amountMajor, decimals)
  {
    hide Trim, IsNegative, StripLeadingZeros, IsAmount, Split, Unsign;
    if decimals < 0 { return Err(INVALID_DECIMALS); }
    var trimmed := Trim(amountMajor);
    if !IsAmount(trimmed) { return Err(INVALID_AMOUNT); }
    AmountStarts(trimmed);
    var parts := Parts(trimmed);
    var intPart := OrZero(parts[0]);
    var fracPart := if |parts| >= 2 then parts[1] else "";
    if |fracPart| > decimals { return Err(TOO_MANY_PLACES); }
    ghost var raw := fracPart;
    while |fracPart| < decimals
      invariant |raw| <= |fracPart| <= decimals
      invariant fracPart == raw + Zeros(|fracPart| - |raw|)
    {
      assert Zeros(|fracPart| - |raw|) + "0" == Zeros(|fracPart| + 1 - |raw|);
      fracPart := fracPart + "0";
    }
    var combined := intPart + fracPart;
    assert combined == parts[0] + raw + Zeros(decimals - |raw|);
    combined := OrZero(StripLeadingZeros(combined));
    return Ok(if IsNegative(trimmed) && combined != "0" then "-" + combined else combined);
  }

  function Signed(negative: bool, body: string): string {
    if negative then "-" + body else body
  }

  function WithFraction(i: string, f: string): string {
    if f == "" then i else i + "." + f
  }

  /** `digits` left-padded with zeros until it is longer than `decimals`. */
  function PadMinor(digits: string, decimals: nat): string {
    if |digits| <= decimals then Zeros(decimals + 1 - |digits|) + digits else digits
  }

  /** `"0.0".padEnd(decimals + 2, "0")`. */
  function ZeroText(decimals: nat): string {
    "0." + Zeros(if decimals == 0 then 1 else decimals)
  }

  function FromMinor(amountMinor: string, decimals: int): Result<string> {
    var t := Trim(amountMinor);
    if decimals < 0 then Err(INVALID_DECIMALS)
    else if !IsSigned(t) then Err(INVALID_MINOR)
    else
      var digits := PadMinor(Unsign(t), decimals);
      var result := digits[..|digits| - decimals] + "." + digits[|digits| - decimals..];
      Ok(Signed(IsNegative(t) && result != ZeroText(decimals), result))
  }

  method FromMinorUnits(amountMinor: string, decimals: int) returns (r: Result<string>)
    ensures r == FromMinor(amountMinor, decimals)
  {
    hide Trim, IsSigned, IsNegative, Unsign;
    if decimals < 0 { return Err(INVALID_DECIMALS); }
    var trimmed := Trim(amountMinor);
    if !IsSigned(trimmed) { return Err(INVALID_MINOR); }
    var digits := Unsign(trimmed);
    ghost var raw := digits;
    while |digits| <= decimals
      invariant |digits| >= |raw|
      invariant |digits| > |raw| ==> |digits| <= decimals + 1
      invariant digits == Zeros(|digits| - |raw|) + raw
    {
      assert "0" + Zeros(|digits| - |raw|) == Zeros(|digits| + 1 - |raw|);
      digits := "0" + digits;
    }
    assert digits == PadMinor(raw, decimals);
    var result := digits[..|digits| - decimals] + "." + digits[|digits| - decimals..];
    return Ok(if IsNegative(trimmed) && result != ZeroText(decimals) then "-" + result else result);
  }

  function StripTrailingZeros(s: string): string {
    if s != "" && s[|s| - 1] == '0' then StripTrailingZeros(s[..|s| - 1]) else s
  }

  /** The worker's display form; with negative decimals both slices end past the text. */
  function FormatPltAmount(minorAmount: string, decimals: int): string {
    if minorAmount == "" then "0"
    else
      var digits := Unsign(minorAmount);
      var padded := if decimals < 0 then digits else PadMinor(digits, decimals);
      var splitIdx := if decimals < 0 then |padded| else |padded| - decimals;
      var normalized := StripTrailingZeros(padded[splitIdx..]);
      Signed(IsNegative(minorAmount), WithFraction(padded[..splitIdx], normalized))
  }

  /** BigInt division and remainder truncate toward zero. */
  function TruncDiv(x: int, y: nat): int
    requires y > 0
  {
    if x < 0 then -(-x / y) else x / y
  }

  function TruncMod(x: int, y: nat): int
    requires y > 0
  {
    if x < 0 then -(-x % y) else x % y
  }

  function PadStart(s: string, width: nat): string {
    if |s| < width then Zeros(width - |s|) + s else s
  }

  /** The extractor's rendering of { value: raw, decimals }. */
  function ExtractorAmount(raw: int, decimals: nat): string {
    var scale := Pow10(decimals);
    IntText(TruncDiv(raw, scale)) + "." + PadStart(IntText(TruncMod(raw, scale)), decimals)
  }
}

/** What the three conversions promise, and where they agree. */
module DecimalLaws {
  import opened Text
  import opened Numerals
  import opened Decimals

  /** Stripping leading zeros leaves the one numeral of the value. */
  lemma {:induction false} StripIsNumeral(s: string)
    requires AllDigits(s) && s != ""
    ensures OrZero(StripLeadingZeros(s)) == Numeral(NatVal(s))
  {
    if s[0] == '0' {
      if |s| == 1 {
        assert s == "0" && s[1..] == "";
        assert NatVal(s[..0]) == 0;
      } else {
        StripIsNumeral(s[1..]);
        assert Zeros(1) + s[1..] == s;
        ZerosThen(1, s[1..]);
      }
    } else {
      NumeralIsUnique(s);
    }
  }

  lemma SignedNumeral(negative: bool, n: nat)
    ensures IntText(Sign(negative, n)) == Signed(negative && Numeral(n) != "0", Numeral(n))
  {
    NatValNumeral(n);
    assert NatVal("0"[..0]) == 0;
  }

  /** Text that starts with a digit or a sign and ends in a digit is not changed by trimming. */
  lemma AmountIsTrimmed(t: string)
    requires IsAmount(t)
    ensures Trim(t) == t
  {
    var u := Unsign(t);
    JoinSplit(u, '.');
    var p := Parts(t);
    var last := p[|p| - 1];
    if |p| == 2 {
      assert Join(p, '.') == p[0] + "." + Join(p[1..], '.');
      assert u == p[0] + "." + p[1];
    }
    assert u != "" && IsDigit(u[0]) && IsDigit(u[|u| - 1]);
    TrimTrims(t);
  }

  /**
   * The conversion to minor units: accepted exactly for a well-formed amount with no more places than the
   * token has, and then the canonical numeral of amount * 10^decimals.
   */
  lemma ToMinorExact(a: string, d: int)
    ensures ToMinor(a, d).Ok? <==> d >= 0 && IsAmount(Trim(a)) && Denotes(Trim(a)).scale <= d
    ensures ToMinor(a, d).Ok? ==>
              var x := Denotes(Trim(a));
              ToMinor(a, d).value == IntText(x.num * Pow10(d - x.scale))
  {
    var t := Trim(a);
    if d >= 0 && IsAmount(t) && |FracPart(t)| <= d {
      var digits, pad := Parts(t)[0] + FracPart(t), Zeros(d - |FracPart(t)|);
      NatValAppend(digits, pad);
      NatValZeros(d - |FracPart(t)|);
      var n := NatVal(digits) * Pow10(d - |FracPart(t)|);
      assert NatVal(digits + pad) == n;
      StripIsNumeral(digits + pad);
      SignedNumeral(IsNegative(t), n);
      MulSign(IsNegative(t), NatVal(digits), Pow10(d - |FracPart(t)|));
    }
  }

  /**
   * The lookup's text test `amount_raw::text = $5` against a stored integer holds exactly when the integer
   * is the amount in minor units: equal as rationals, whatever zeros or sign spelling the amount used.
   */
  lemma TextTestIsNumeric(z: int, a: string, d: int)
    requires ToMinor(a, d).Ok?
    ensures IntText(z) == ToMinor(a, d).value <==> SameRational(Decimal(z, d), Denotes(Trim(a)))
  {
    var n := MinorInteger(a, d);
    IntTextInjective(z, n);
    ScaledEqual(z, n, Denotes(Trim(a)).scale);
  }

  /** The integer an accepted amount is in minor units. */
  lemma MinorInteger(a: string, d: int) returns (n: int)
    requires ToMinor(a, d).Ok?
    ensures IsAmount(Trim(a)) && 0 <= d
    ensures ToMinor(a, d) == Ok(IntText(n)) && SameRational(Decimal(n, d), Denotes(Trim(a)))
    ensures IsSigned(IntText(n)) && IntVal(IntText(n)) == n
  {
    hide ToMinor, Trim, IsAmount, Denotes, IntText, IntVal, IsSigned, Pow10;
    ToMinorExact(a, d);
    var x := Denotes(Trim(a));
    n := x.num * Pow10(d - x.scale);
    IntTextReads(n);
    ScaleUp(x.num, d - x.scale, x.scale);
  }

  lemma ScaleUp(num: int, up: nat, scale: nat)
    ensures (num * Pow10(up)) * Pow10(scale) == num * Pow10(up + scale)
  {
    Pow10Add(up, scale);
    MulAssoc(num, Pow10(up), Pow10(scale));
  }

  lemma ScaledEqual(a: int, b: int, scale: nat)
    ensures a * Pow10(scale) == b * Pow10(scale) <==> a == b
  {
    if a * Pow10(scale) == b * Pow10(scale) { MulCancel(a, b, Pow10(scale)); }
  }

  lemma MulAssoc(a: int, b: int, c: int)
    ensures (a * b) * c == a * (b * c)
  {
  }

  lemma MulSign(negative: bool, a: int, b: int)
    ensures Sign(negative, a) * b == Sign(negative, a * b)
  {
  }

  lemma MulCancel(a: int, b: int, c: int)
    requires c > 0 && a * c == b * c
    ensures a == b
  {
    assert (a - b) * c == 0;
  }

  /** An optional minus, digits, and optionally a point and more digits. */
  ghost predicate Written(t: string, negative: bool, i: string, f: string) {
    && i != "" && AllDigits(i) && AllDigits(f)
    && t == (if negative then "-" else "") + i + (if f == "" then "" else "." + f)
  }

  /** Those are the amounts, and such a text denotes its digits with the point where it stands. */
  lemma AmountGrammar(t: string)
    ensures IsAmount(t) <==> exists negative, i, f :: Written(t, negative, i, f)
    ensures forall negative, i, f :: Written(t, negative, i, f) ==>
              IsAmount(t) && Denotes(t) == Decimal(Sign(negative, NatVal(i + f)), |f|)
  {
    forall negative, i, f | Written(t, negative, i, f)
      ensures IsAmount(t) && Denotes(t) == Decimal(Sign(negative, NatVal(i + f)), |f|)
    {
      assert t == Signed(negative, WithFraction(i, f));
      DenotesWritten(negative, i, f);
    }
    if IsAmount(t) { AmountIsWritten(t); }
  }

  lemma AmountIsWritten(t: string)
    requires IsAmount(t)
    ensures exists negative, i, f :: Written(t, negative, i, f)
  {
    var p := Parts(t);
    JoinSplit(Unsign(t), '.');
    assert |p| == 2 ==> Join(p, '.') == p[0] + "." + Join(p[1..], '.');
    assert Written(t, IsNegative(t), p[0], if |p| == 2 then p[1] else "");
  }

  /** Which error the conversion to minor units gives, each exactly when. */
  lemma ToMinorErrors(a: string, d: int)
    ensures ToMinor(a, d) == Err("Invalid decimals") <==> d < 0
    ensures ToMinor(a, d) == Err("Invalid amount format") <==> d >= 0 && !IsAmount(Trim(a))
    ensures ToMinor(a, d) == Err("Too many decimal places") <==> d >= 0 && IsAmount(Trim(a)) && Denotes(Trim(a)).scale > d
  {
    hide Trim, IsAmount;
    assert |INVALID_DECIMALS| == 16 && |INVALID_AMOUNT| == 21 && |TOO_MANY_PLACES| == 23;
  }

  /** And the conversion to major units. */
  lemma FromMinorErrors(s: string, d: int)
    ensures FromMinor(s, d) == Err("Invalid decimals") <==> d < 0
    ensures FromMinor(s, d) == Err("Invalid minor amount format") <==> d >= 0 && !IsSigned(Trim(s))
  {
    hide Trim, IsSigned;
    assert |INVALID_DECIMALS| == 16 && |INVALID_MINOR| == 27;
  }

  /** What an amount denotes when it is written as sign, digits and an optional fraction. */
  lemma DenotesWritten(negative: bool, i: string, f: string)
    requires i != "" && AllDigits(i) && AllDigits(f)
    ensures var t := Signed(negative, WithFraction(i, f));
            IsAmount(t) && Denotes(t) == Decimal(Sign(negative, NatVal(i + f)), |f|)
  {
    var t := Signed(negative, WithFraction(i, f));
    WrittenParts(i, f);
    assert Unsign(t) == WithFraction(i, f) && IsNegative(t) == negative;
    assert FracPart(t) == f && Parts(t)[0] == i;
  }

  lemma WrittenParts(i: string, f: string)
    requires i != "" && AllDigits(i) && AllDigits(f)
    ensures var u := WithFraction(i, f);
            u != "" && IsDigit(u[0]) && Split(u, '.') == if f == "" then [i] else [i, f]
  {
    assert IsDigit(i[0]);
    if f == "" {
      SplitWhole(i, '.');
    } else {
      SplitFirst(i, '.', f);
      SplitWhole(f, '.');
    }
  }

  /** Cutting padded digits before the last `d` splits the value by 10^d. */
  lemma PadMinorValue(digits: string, d: nat)
    requires AllDigits(digits) && digits != ""
    ensures var p := PadMinor(digits, d);
            AllDigits(p) && |p| > d && NatVal(p) == NatVal(digits)
  {
    if |digits| <= d { ZerosThen(d + 1 - |digits|, digits); }
  }

  /** Padded digits cut before the last `d`. */
  lemma PadMinorCut(digits: string, d: nat) returns (i: string, f: string)
    requires AllDigits(digits) && digits != ""
    ensures var p := PadMinor(digits, d); |p| > d && i == p[..|p| - d] && f == p[|p| - d..] && i + f == p
    ensures i != "" && AllDigits(i) && AllDigits(f) && |f| == d && NatVal(i + f) == NatVal(digits)
  {
    PadMinorValue(digits, d);
    var p := PadMinor(digits, d);
    i, f := p[..|p| - d], p[|p| - d..];
    assert i + f == p;
  }

  /** The two halves `FromMinor` writes around the point, and whether it keeps the sign. */
  lemma FromMinorWritten(s: string, d: nat) returns (signed: bool, i: string, f: string)
    requires IsSigned(Trim(s))
    ensures i != "" && AllDigits(i) && AllDigits(f) && |f| == d
    ensures NatVal(i + f) == NatVal(Unsign(Trim(s)))
    ensures d >= 1 && HasNoLeadingZero(Unsign(Trim(s))) ==> HasNoLeadingZero(i)
    ensures FromMinor(s, d) == Ok(Signed(signed, i + "." + f))
    ensures signed <==> IsNegative(Trim(s)) && i + "." + f != ZeroText(d)
  {
    i, f := PadMinorCut(Unsign(Trim(s)), d);
    signed := IsNegative(Trim(s)) && i + "." + f != ZeroText(d);
  }

  /** For d >= 1 the major form of a minor amount denotes minor / 10^d; for d == 0 it is no amount at all. */
  lemma FromMinorExact(s: string, d: nat)
    requires IsSigned(Trim(s))
    ensures FromMinor(s, d).Ok?
    ensures var v := FromMinor(s, d).value;
            if d >= 1 then IsAmount(v) && Denotes(v) == Decimal(IntVal(Trim(s)), d) else !IsAmount(v) && Trim(v) == v
  {
    var signed, i, f := FromMinorWritten(s, d);
    if d >= 1 {
      DenotesWritten(signed, i, f);
      if IsNegative(Trim(s)) && !signed { ZeroTextDigits(i, f, d); }
    } else {
      WrittenWithBareDot(signed, i, f);
    }
  }

  lemma ZeroTextDigits(i: string, f: string, d: nat)
    requires d >= 1 && |f| == d && AllDigits(i) && i != "" && AllDigits(f) && i + "." + f == ZeroText(d)
    ensures NatVal(i + f) == 0
  {
    var r := i + "." + f;
    assert |r| == d + 2 && |i| == 1;
    assert r[0] == '0' && i[0] == r[0];
    assert forall k :: 0 <= k < d ==> f[k] == r[k + 2];
    assert i + f == Zeros(d + 1);
    NatValZeros(d + 1);
  }

  lemma WrittenWithBareDot(signed: bool, i: string, f: string)
    requires i != "" && AllDigits(i) && f == ""
    ensures var v := Signed(signed, i + "." + f); !IsAmount(v) && Trim(v) == v
  {
    var u := i + "." + f;
    var v := Signed(signed, u);
    assert IsDigit(i[0]) && u[0] == i[0] && u[|u| - 1] == '.';
    assert Unsign(v) == u == i + ['.'] + "";
    SplitFirst(i, '.', "");
    assert Parts(v)[1] == "";
    TrimTrims(v);
  }

  /**
   * Minor to major and back is the canonical form of the minor amount, for every signed digit string, exactly
   * when the token has at least one decimal; without decimals the major form is refused.
   */
  lemma MinorRoundTrip(s: string, d: nat)
    requires IsSigned(Trim(s))
    ensures ToMinor(FromMinor(s, d).value, d) ==
            if d >= 1 then Ok(IntText(IntVal(Trim(s)))) else Err(INVALID_AMOUNT)
  {
    FromMinorExact(s, d);
    var v := FromMinor(s, d).value;
    if d >= 1 {
      AmountIsTrimmed(v);
      ToMinorExact(v, d);
      assert Pow10(0) == 1;
    }
  }

  /** Major to minor and back denotes the same rational, for d >= 1. */
  lemma MajorRoundTrip(a: string, d: int)
    requires d >= 1 && ToMinor(a, d).Ok?
    ensures var back := FromMinor(ToMinor(a, d).value, d);
            back.Ok? && IsAmount(back.value) && SameRational(Denotes(back.value), Denotes(Trim(a)))
  {
    var n := MinorInteger(a, d);
    SignedTextIsTrimmed(IntText(n));
    FromMinorExact(IntText(n), d);
  }

  lemma {:induction false} StripTrailingValue(f: string)
    requires AllDigits(f)
    ensures var g := StripTrailingZeros(f);
            |g| <= |f| && AllDigits(g) && f == g + Zeros(|f| - |g|)
  {
    if f != "" && f[|f| - 1] == '0' {
      var f' := f[..|f| - 1];
      StripTrailingValue(f');
      var g := StripTrailingZeros(f);
      assert Zeros(|f'| - |g|) + "0" == Zeros(|f| - |g|);
      assert f == f' + "0";
    } else {
      assert f == f + Zeros(0);
    }
  }

  lemma TrailingZerosValue(i: string, f: string, g: string)
    requires AllDigits(i) && AllDigits(f) && AllDigits(g) && |g| <= |f| && f == g + Zeros(|f| - |g|)
    ensures NatVal(i + g) * Pow10(|f| - |g|) == NatVal(i + f)
  {
    var z := Zeros(|f| - |g|);
    NatValAppend(i + g, z);
    NatValZeros(|f| - |g|);
    assert i + f == i + g + z;
  }

  lemma {:induction false} NoTrailingZero(f: string)
    ensures var g := StripTrailingZeros(f); g == "" || g[|g| - 1] != '0'
  {
    if f != "" && f[|f| - 1] == '0' { NoTrailingZero(f[..|f| - 1]); }
  }

  /** The digits `FormatPltAmount` writes around the point, with the trailing zeros gone. */
  lemma FormatWritten(s: string, d: nat) returns (i: string, g: string)
    requires IsSigned(s)
    ensures i != "" && AllDigits(i) && AllDigits(g) && |g| <= d
    ensures NatVal(i + g) * Pow10(d - |g|) == NatVal(Unsign(s))
    ensures FormatPltAmount(s, d) == Signed(IsNegative(s), WithFraction(i, g))
    ensures (g == "" || g[|g| - 1] != '0') && (HasNoLeadingZero(Unsign(s)) ==> HasNoLeadingZero(i))
  {
    var f;
    i, f := PadMinorCut(Unsign(s), d);
    g := StripTrailingZeros(f);
    NoTrailingZero(f);
    StripTrailingValue(f);
    TrailingZerosValue(i, f, g);
  }

  lemma WrittenAs(negative: bool, i: string, f: string)
    requires i != "" && AllDigits(i) && AllDigits(f)
    ensures Written(Signed(negative, WithFraction(i, f)), negative, i, f)
  {
  }

  /** The display form is the short one: no zero at the end of its fraction, and none in front that was not given. */
  lemma FormatIsShort(s: string, d: nat)
    requires IsSigned(s)
    ensures exists i, f :: Written(FormatPltAmount(s, d), IsNegative(s), i, f) && (f == "" || f[|f| - 1] != '0')
                           && (HasNoLeadingZero(Unsign(s)) ==> HasNoLeadingZero(i))
  {
    hide FormatPltAmount, IsSigned, Written, NatVal, Pow10, HasNoLeadingZero;
    var i, g := FormatWritten(s, d);
    WrittenAs(IsNegative(s), i, g);
  }

  /** The empty text becomes "0", and negative decimals change nothing. */
  lemma FormatOdd(s: string, d: int)
    ensures FormatPltAmount("", d) == "0"
    ensures s != "" && d < 0 ==> FormatPltAmount(s, d) == s
  {
    var digits := Unsign(s);
    assert digits[..|digits|] == digits && digits[|digits|..] == "";
    assert StripTrailingZeros("") == "";
    assert s != "" && IsNegative(s) ==> s == "-" + digits;
  }

  /** The worker's display form converts back to the canonical minor amount, with any number of decimals. */
  lemma FormatRoundTrip(s: string, d: nat)
    requires IsSigned(s)
    ensures ToMinor(FormatPltAmount(s, d), d) == Ok(IntText(IntVal(s)))
  {
    hide FormatPltAmount, Trim, Split, IsAmount, ToMinor, NatVal, Pow10, IntText, IsSigned;
    var i, g := FormatWritten(s, d);
    var v := FormatPltAmount(s, d);
    DenotesWritten(IsNegative(s), i, g);
    AmountIsTrimmed(v);
    ToMinorExact(v, d);
    MulSign(IsNegative(s), NatVal(i + g), Pow10(d - |g|));
  }

  function Quotient(n: nat, m: nat): nat
    requires m > 0
  {
    n / m
  }

  function Whole(n: nat, d: nat): nat { Quotient(n, Pow10(d)) }

  function Part(n: nat, d: nat): (r: nat)
    ensures r < Pow10(d)
  {
    n % Pow10(d)
  }

  /** The digits before and after the cut have the values n / 10^d and n % 10^d. */
  lemma CutValues(i: string, f: string, n: nat)
    requires AllDigits(i) && AllDigits(f) && NatVal(i + f) == n
    ensures NatVal(i) == Whole(n, |f|) && NatVal(f) == Part(n, |f|)
  {
    NatValAppend(i, f);
    NatValBound(f);
    DivModUnique(NatVal(i), NatVal(f), Pow10(|f|));
  }

  lemma DivModUnique(q: nat, r: nat, m: nat)
    requires r < m
    ensures (q * m + r) / m == q && (q * m + r) % m == r
  {
    var x := q * m + r;
    assert x == (x / m) * m + x % m;
    if x / m < q {
      assert (x / m + 1) * m <= q * m by { MulMono(x / m + 1, q, m); }
    } else if x / m > q {
      assert (q + 1) * m <= (x / m) * m by { MulMono(q + 1, x / m, m); }
    }
  }

  lemma MulMono(a: int, b: int, m: nat)
    requires a <= b
    ensures a * m <= b * m
  {
  }

  /** A remainder below 10^d has at most d digits, so padding makes it exactly d. */
  lemma FractionWidth(r: nat, d: nat)
    requires d >= 1 && r < Pow10(d)
    ensures var f := PadStart(Numeral(r), d); AllDigits(f) && |f| == d && NatVal(f) == r
  {
    NumeralWidth(r, d);
    NatValNumeral(r);
    if |Numeral(r)| < d { ZerosThen(d - |Numeral(r)|, Numeral(r)); }
  }

  lemma {:induction false} NumeralWidth(n: nat, d: nat)
    requires d >= 1 && n < Pow10(d)
    ensures |Numeral(n)| <= d
  {
    if n < 10 {
    } else {
      assert Pow10(d) == 10 * Pow10(d - 1) && Pow10(0) == 1;
      NumeralWidth(n / 10, d - 1);
    }
  }

  /** Cut digits without leading zeros are what division, remainder and padding write. */
  lemma ExtractorDigits(i: string, f: string, n: nat)
    requires AllDigits(i) && AllDigits(f) && HasNoLeadingZero(i) && f != "" && NatVal(i + f) == n
    ensures i == Numeral(Whole(n, |f|)) && f == PadStart(Numeral(Part(n, |f|)), |f|)
  {
    CutValues(i, f, n);
    NumeralIsUnique(i);
    FractionWidth(Part(n, |f|), |f|);
    FixedWidth(f, PadStart(Numeral(Part(n, |f|)), |f|));
  }

  lemma SignedTextIsTrimmed(t: string)
    requires IsSigned(t)
    ensures Trim(t) == t
  {
    var u := Unsign(t);
    assert IsDigit(u[0]) && IsDigit(u[|u| - 1]);
    TrimTrims(t);
  }

  /** The printed integer, apart from its sign. */
  lemma IntTextShape(raw: int)
    ensures var t := IntText(raw); var n := if raw < 0 then -raw else raw;
            IsSigned(t) && Trim(t) == t && IsNegative(t) == (raw < 0) && Unsign(t) == Numeral(n)
            && HasNoLeadingZero(Unsign(t)) && NatVal(Unsign(t)) == n
  {
    var n := if raw < 0 then -raw else raw;
    IntTextReads(raw);
    SignedTextIsTrimmed(IntText(raw));
    NatValNumeral(n);
    NumeralHasNoLeadingZero(n);
    assert IsDigit(Numeral(n)[0]);
  }

  /**
   * The extractor's text equals `FromMinor`'s, character for character, exactly for tokens with decimals and
   * raw amounts that are not negative or have no fractional part.
   */
  lemma ExtractorAgrees(raw: int, d: nat)
    ensures Ok(ExtractorAmount(raw, d)) == FromMinor(IntText(raw), d) <==>
            d >= 1 && (raw >= 0 || -raw % Pow10(d) == 0)
  {
    IntTextShape(raw);
    var signed, i, f := FromMinorWritten(IntText(raw), d);
    if d == 0 {
      ExtractorWithoutDecimals(raw, signed, i, f);
    } else if raw >= 0 {
      ExtractorDigits(i, f, raw);
    } else {
      if !signed { ZeroTextDigits(i, f, d); }
      ExtractorBelowZero(-raw, i, f);
    }
  }

  /** What the extractor writes where the two differ: "n.0" without decimals, the remainder's sign after the point below zero. */
  lemma ExtractorDiffers(raw: int, d: nat)
    ensures ExtractorAmount(raw, 0) == IntText(raw) + ".0"
    ensures raw < 0 && -raw % Pow10(d) != 0 ==>
              ExtractorAmount(raw, d) == (if -raw < Pow10(d) then "0" else "-" + Numeral(-raw / Pow10(d))) + "."
                                         + PadStart("-" + Numeral(-raw % Pow10(d)), d)
  {
    NoScale(raw);
    hide Numeral, Pow10, IntText, PadStart, TruncDiv, TruncMod;
    if raw < 0 && -raw % Pow10(d) != 0 {
      TruncNegative(-raw, Pow10(d));
      SmallQuotient(-raw, Pow10(d));
      TextsBelow(-raw / Pow10(d), -raw % Pow10(d));
    }
  }

  lemma TextsBelow(q: int, r: int)
    requires q >= 0 && r > 0
    ensures IntText(-q) == (if q == 0 then "0" else "-" + Numeral(q)) && IntText(-r) == "-" + Numeral(r)
  {
    ZeroNumeral();
  }

  lemma NoScale(raw: int)
    ensures ExtractorAmount(raw, 0) == IntText(raw) + ".0"
  {
    hide Numeral;
    ZeroNumeral();
    assert TruncDiv(raw, 1) == raw && TruncMod(raw, 1) == 0;
  }

  lemma ZeroNumeral()
    ensures IntText(0) == "0"
  {
  }

  lemma SmallQuotient(n: nat, m: nat)
    requires m > 0
    ensures n < m <==> n / m == 0
  {
  }

  /** Without decimals the extractor writes "n.0" and `FromMinor` writes "n.". */
  lemma ExtractorWithoutDecimals(raw: int, signed: bool, i: string, f: string)
    requires f == ""
    ensures ExtractorAmount(raw, 0) != Signed(signed, i + "." + f)
  {
    var v, e := Signed(signed, i + "." + f), ExtractorAmount(raw, 0);
    assert v[|v| - 1] == '.';
    assert TruncMod(raw, Pow10(0)) == 0 && IntText(0) == "0";
    assert e[|e| - 1] == '0';
  }

  lemma ExtractorBelowZero(n: int, i: string, f: string)
    requires n > 0 && AllDigits(i) && AllDigits(f) && HasNoLeadingZero(i) && f != "" && NatVal(i + f) == n
    ensures ExtractorAmount(-n, |f|) == Signed(true, i + "." + f) <==> n % Pow10(|f|) == 0
  {
    ExtractorDigits(i, f, n);
    TruncNegative(n, Pow10(|f|));
    NegativeText(Whole(n, |f|), Part(n, |f|), |f|, i, f);
  }

  /** Below zero the extractor puts the remainder's sign after the point, where `FromMinor` has a digit. */
  lemma NegativeText(q: int, r: int, d: nat, i: string, f: string)
    requires q >= 0 && r >= 0 && (r == 0 ==> q > 0)
    requires i == Numeral(q) && f == PadStart(Numeral(r), d)
    ensures IntText(-q) + "." + PadStart(IntText(-r), d) == Signed(true, i + "." + f) <==> r == 0
  {
    if r == 0 {
      NegativeWhole(q, i, f);
    } else {
      MinusAfterPoint(-q, r, d);
      NoMinusInside(true, i, f);
    }
  }

  lemma TruncNegative(n: int, m: nat)
    requires n > 0 && m > 0
    ensures TruncDiv(-n, m) == -(n / m) && TruncMod(-n, m) == -(n % m)
    ensures n % m == 0 ==> n / m > 0
  {
    assert n == (n / m) * m + n % m;
  }

  lemma NegativeWhole(w: int, i: string, f: string)
    requires w > 0 && i == Numeral(w)
    ensures IntText(-w) + "." + f == Signed(true, i + "." + f)
  {
    assert "-" + i + "." + f == "-" + (i + "." + f);
  }

  lemma MinusAfterPoint(whole: int, r: int, d: nat)
    requires r > 0
    ensures var e := IntText(whole) + "." + PadStart(IntText(-r), d); exists k :: 1 <= k < |e| && e[k] == '-'
  {
    var e := IntText(whole) + "." + PadStart(IntText(-r), d);
    var k := |IntText(whole)| + 1 + (if |IntText(-r)| < d then d - |IntText(-r)| else 0);
    assert e[k] == '-';
  }

  lemma NoMinusInside(signed: bool, i: string, f: string)
    requires i != "" && AllDigits(i) && AllDigits(f)
    ensures var v := Signed(signed, i + "." + f); forall k :: 1 <= k < |v| ==> v[k] != '-'
  {
    var u := i + "." + f;
    assert forall k :: 0 <= k < |u| ==> u[k] != '-';
  }
}
