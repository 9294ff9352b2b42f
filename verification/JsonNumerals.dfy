/** Every spelling of a number that `parse_number` reads, and the value it stands for. The reference
    is a grammar that generates texts: that of section 6 of RFC 8259, in which the integer digits may
    be missing or follow a zero and the digits of the exponent may be missing. */
module JsonNumerals {
  import opened CText
  import opened Decimal
  import opened JsonText

  type Digit = d: nat | d < 10

  datatype Sign = NoSign | Plus | Minus

  datatype Exponential = NoExponent | Exponent(upper: bool, sign: Sign, digits: seq<Digit>)

  /** The parts of the text of a number; without digits in the fraction there is no point. */
  datatype Numeral = Numeral(
    minus: bool, zero: bool, whole: seq<Digit>, fraction: seq<Digit>, exponent: Exponential)
  {
    predicate Valid() {
      (minus || zero || whole != []) && (whole != [] ==> whole[0] != 0)
    }

    function Text(): string {
      (if minus then "-" else "") + UnsignedText()
    }

    function UnsignedText(): string {
      (if zero then "0" else "") + (DigitText(whole) + (FractionText(fraction) + ExponentText(exponent)))
    }

    /** The number in the usual reading: digits before and behind the point, times a power of ten. */
    function Value(): real {
      (if minus then -1.0 else 1.0) * (WholeNumber(whole) as real + Decimals(fraction)) * Pow10(Power(exponent))
    }

    /** What follows cannot be read as a part of the number. */
    predicate Ends(rest: string) {
      match exponent
      case Exponent(_, sign, digits) =>
        !IsDigit(Peek(rest)) && (sign.NoSign? && digits == [] ==> Peek(rest) != '+' && Peek(rest) != '-')
      case NoExponent =>
        && Peek(rest) != 'e' && Peek(rest) != 'E'
        && if fraction != [] || whole != [] then
             !IsDigit(Peek(rest)) && (fraction == [] ==> !StartsFraction(rest))
           else !('1' <= Peek(rest) <= '9') && (!zero ==> Peek(rest) != '0') && !StartsFraction(rest)
    }
  }

  predicate StartsFraction(rest: string) {
    Peek(rest) == '.' && IsDigit(Peek(rest[1..]))
  }

  function DigitText(ds: seq<Digit>): (t: string)
    ensures |t| == |ds|
  {
    seq(|ds|, i requires 0 <= i < |ds| => DIGITS[ds[i]])
  }

  function FractionText(ds: seq<Digit>): string {
    if ds == [] then "" else "." + DigitText(ds)
  }

  function SignText(sign: Sign): string {
    match sign
    case NoSign => ""
    case Plus => "+"
    case Minus => "-"
  }

  function ExponentText(e: Exponential): string {
    match e
    case NoExponent => ""
    case Exponent(upper, sign, digits) => (if upper then "E" else "e") + (SignText(sign) + DigitText(digits))
  }

  /** The value of decimal digits. */
  function WholeNumber(ds: seq<Digit>): nat {
    if ds == [] then 0 else 10 * WholeNumber(ds[..|ds| - 1]) + ds[|ds| - 1]
  }

  /** The value of decimal digits behind a point. */
  function Decimals(ds: seq<Digit>): real {
    if ds == [] then 0.0 else (ds[0] as real + Decimals(ds[1..])) / 10.0
  }

  function Power(e: Exponential): int {
    match e
    case NoExponent => 0
    case Exponent(_, sign, digits) => if sign.Minus? then -(WholeNumber(digits) as int) else WholeNumber(digits)
  }

  // ----- powers of ten -----

  /** What `pow(10.0, e)` is for whole numbers `e`. */
  lemma PowerLaw(e: int)
    ensures Pow10(0) == 1.0 && Pow10(e + 1) == 10.0 * Pow10(e)
  {
  }

  lemma {:induction false} PowerSum(e: int, n: nat)
    ensures Pow10(e + n) == Pow10(e) * Pow10(n)
  {
    hide Pow10;
    PowerLaw(0);
    if n > 0 {
      PowerSum(e, n - 1);
      PowerLaw(e + n - 1);
      PowerLaw(n - 1);
      ProductRegroups(Pow10(e), Pow10(n - 1));
    }
  }

  lemma ProductRegroups(p: real, q: real)
    ensures 10.0 * (p * q) == p * (10.0 * q)
  {
  }

  // ----- digits -----

  /** What an accumulator becomes while digits are read. */
  function Accumulated(acc: nat, ds: seq<Digit>): nat
    decreases |ds|
  {
    if ds == [] then acc else Accumulated(acc * 10 + ds[0], ds[1..])
  }

  lemma {:induction false} AccumulatedFromBehind(acc: nat, ds: seq<Digit>)
    requires ds != []
    ensures Accumulated(acc, ds) == 10 * Accumulated(acc, ds[..|ds| - 1]) + ds[|ds| - 1]
    decreases |ds|
  {
    if |ds| > 1 {
      AccumulatedFromBehind(acc * 10 + ds[0], ds[1..]);
      assert ds[1..][..|ds| - 2] == ds[..|ds| - 1][1..];
    }
  }

  lemma {:induction false} AccumulatedIsWhole(ds: seq<Digit>)
    ensures Accumulated(0, ds) == WholeNumber(ds)
  {
    if ds != [] {
      AccumulatedFromBehind(0, ds);
      AccumulatedIsWhole(ds[..|ds| - 1]);
    }
  }

  lemma {:induction false} AccumulatedDecimals(acc: nat, ds: seq<Digit>)
    ensures Accumulated(acc, ds) as real == (acc as real + Decimals(ds)) * Pow10(|ds|)
    decreases |ds|
  {
    if ds != [] {
      var m := acc * 10 + ds[0];
      AccumulatedDecimals(m, ds[1..]);
      PowerLaw(|ds| - 1);
      ShiftPoint(acc as real, ds[0] as real, Decimals(ds[1..]), Pow10(|ds| - 1));
    }
  }

  lemma ShiftPoint(acc: real, d: real, more: real, p: real)
    ensures (acc * 10.0 + d + more) * p == (acc + (d + more) / 10.0) * (10.0 * p)
  {
    assert (acc + (d + more) / 10.0) * 10.0 == acc * 10.0 + d + more;
    assert (acc + (d + more) / 10.0) * (10.0 * p) == ((acc + (d + more) / 10.0) * 10.0) * p;
  }

  lemma DigitChars(ds: seq<Digit>, rest: string)
    requires ds != []
    ensures var t := DigitText(ds) + rest;
      && IsDigit(t[0]) && t[0] as int - '0' as int == ds[0] && t[1..] == DigitText(ds[1..]) + rest
  {
    DigitsAre(DIGITS[ds[0]], ds[0]);
    assert DigitText(ds)[1..] == DigitText(ds[1..]);
  }

  lemma {:induction false} DigitsAreRead(acc: nat, ds: seq<Digit>, rest: string)
    requires !IsDigit(Peek(rest))
    ensures Accumulate(acc, DigitText(ds) + rest) == (Accumulated(acc, ds), rest)
    decreases |ds|
  {
    if ds == [] {
      assert DigitText(ds) + rest == rest;
    } else {
      DigitChars(ds, rest);
      DigitsAreRead(acc * 10 + ds[0], ds[1..], rest);
    }
  }

  // ----- the parts of a number -----

  lemma WholeIsRead(zero: bool, ds: seq<Digit>, rest: string)
    requires ds != [] ==> ds[0] != 0 && !IsDigit(Peek(rest))
    requires ds == [] ==> !('1' <= Peek(rest) <= '9') && (!zero ==> Peek(rest) != '0')
    ensures IntegerPart((if zero then "0" else "") + (DigitText(ds) + rest)) == (WholeNumber(ds), rest)
  {
    hide DigitText, Accumulate, WholeNumber;
    var u := DigitText(ds) + rest;
    var t := (if zero then "0" else "") + u;
    assert zero ==> t[1..] == u;
    assert !zero ==> t == u;
    AccumulatedIsWhole(ds);
    if ds == [] {
      assert u == rest;
    } else {
      DigitChars(ds, rest);
      DigitsAreRead(0, ds, rest);
    }
  }

  lemma FractionIsRead(n: nat, ds: seq<Digit>, rest: string)
    requires if ds != [] then !IsDigit(Peek(rest)) else !StartsFraction(rest)
    ensures Fraction(n, FractionText(ds) + rest) == Tail(Accumulated(n, ds), -|ds|, 0, rest)
  {
    hide DigitText, Accumulate;
    var t := FractionText(ds) + rest;
    if ds == [] {
      assert t == rest;
    } else {
      assert t == "." + (DigitText(ds) + rest);
      assert t[1..] == DigitText(ds) + rest;
      DigitChars(ds, rest);
      DigitsAreRead(n, ds, rest);
    }
  }

  lemma SignedDigitsAreRead(sign: Sign, ds: seq<Digit>, rest: string)
    requires !IsDigit(Peek(rest)) && (sign.NoSign? && ds == [] ==> Peek(rest) != '+' && Peek(rest) != '-')
    ensures var t := SignText(sign) + (DigitText(ds) + rest);
      && Accumulate(0, if sign.NoSign? then t else t[1..]) == (WholeNumber(ds), rest)
      && (Peek(t) == '+' <==> sign.Plus?) && (Peek(t) == '-' <==> sign.Minus?)
  {
    hide DigitText, Accumulate, WholeNumber;
    var u := DigitText(ds) + rest;
    var t := SignText(sign) + u;
    assert if sign.NoSign? then t == u else t[1..] == u;
    DigitsAreRead(0, ds, rest);
    AccumulatedIsWhole(ds);
    if ds != [] {
      DigitChars(ds, rest);
    } else {
      assert u == rest;
    }
  }

  lemma ExponentIsRead(f: Tail, e: Exponential, rest: string)
    requires f.rest == ExponentText(e) + rest && f.subscale == 0
    requires if e.NoExponent? then Peek(rest) != 'e' && Peek(rest) != 'E'
      else !IsDigit(Peek(rest)) && (e.sign.NoSign? && e.digits == [] ==> Peek(rest) != '+' && Peek(rest) != '-')
    ensures JsonText.Exponent(f) == f.(subscale := Power(e), rest := rest)
  {
    hide DigitText, Accumulate, WholeNumber;
    if e.NoExponent? {
      assert f.rest == rest;
    } else {
      var t := SignText(e.sign) + (DigitText(e.digits) + rest);
      assert f.rest == (if e.upper then "E" else "e") + t;
      assert f.rest[1..] == t;
      assert t != "" ==> f.rest[2..] == t[1..];
      SignedDigitsAreRead(e.sign, e.digits, rest);
    }
  }

  /** What starts behind the integer digits does not go on with digits, and so on. */
  lemma PartsEnd(n: Numeral, rest: string)
    requires n.Valid() && n.Ends(rest)
    ensures var e := ExponentText(n.exponent) + rest;
      && (if n.fraction != [] then !IsDigit(Peek(e)) else !StartsFraction(e))
      && var f := FractionText(n.fraction) + e;
         if n.whole != [] then !IsDigit(Peek(f)) else !('1' <= Peek(f) <= '9') && (!n.zero ==> Peek(f) != '0')
  {
    hide DigitText;
    var e := ExponentText(n.exponent) + rest;
    assert n.exponent.NoExponent? ==> e == rest;
    assert n.exponent.Exponent? ==> e[0] == 'e' || e[0] == 'E';
    var f := FractionText(n.fraction) + e;
    assert n.fraction == [] ==> f == e;
    assert n.fraction != [] ==> f[0] == '.';
  }

  lemma UnsignedIsRead(n: Numeral, rest: string)
    requires n.Valid() && n.Ends(rest)
    ensures Unsigned(n.UnsignedText() + rest) ==
      Tail(Accumulated(WholeNumber(n.whole), n.fraction), -|n.fraction|, Power(n.exponent), rest)
  {
    hide DigitText, FractionText, ExponentText, IntegerPart, Fraction, JsonText.Exponent, WholeNumber, Accumulated;
    PartsEnd(n, rest);
    var e := ExponentText(n.exponent) + rest;
    var f := FractionText(n.fraction) + e;
    assert n.UnsignedText() + rest == (if n.zero then "0" else "") + (DigitText(n.whole) + f);
    WholeIsRead(n.zero, n.whole, f);
    FractionIsRead(WholeNumber(n.whole), n.fraction, e);
    ExponentIsRead(Tail(Accumulated(WholeNumber(n.whole), n.fraction), -|n.fraction|, 0, e), n.exponent, rest);
  }

  /** Without a sign a number starts with a digit. */
  lemma UnsignedStarts(n: Numeral, rest: string)
    requires n.Valid() && !n.minus
    ensures IsDigit(Peek(n.UnsignedText() + rest))
  {
    hide DigitText, FractionText, ExponentText;
    var more := FractionText(n.fraction) + ExponentText(n.exponent) + rest;
    assert n.UnsignedText() + rest == (if n.zero then "0" else "") + (DigitText(n.whole) + more);
    if !n.zero {
      DigitChars(n.whole, more);
      assert n.UnsignedText() + rest == DigitText(n.whole) + more;
    }
  }

  lemma ScaledIsValue(n: Numeral)
    ensures var m := Accumulated(WholeNumber(n.whole), n.fraction);
      Scaled(if n.minus then -1.0 else 1.0, Tail(m, -|n.fraction|, Power(n.exponent), "")) == n.Value()
  {
    hide WholeNumber, Decimals, Accumulated, Pow10, Power;
    var m, k, e := Accumulated(WholeNumber(n.whole), n.fraction), |n.fraction|, Power(n.exponent);
    var v := WholeNumber(n.whole) as real + Decimals(n.fraction);
    AccumulatedDecimals(WholeNumber(n.whole), n.fraction);
    PowerSum(e - k, k);
    assert m as real == v * Pow10(k) && Pow10(e) == Pow10(e - k) * Pow10(k);
    FactorsRegroup(if n.minus then -1.0 else 1.0, v, Pow10(k), Pow10(e - k));
  }

  lemma FactorsRegroup(s: real, v: real, p: real, q: real)
    ensures s * (v * p) * q == s * v * (q * p)
  {
  }

  /** Every such spelling is read as its number and up to its end, if what follows does not go on
      with it. */
  lemma NumeralIsRead(n: Numeral, rest: string)
    requires n.Valid() && n.Ends(rest)
    ensures ParseNumber(n.Text() + rest) == Parsed(Number(n.Value()), rest)
    ensures Peek(n.Text() + rest) == '-' || IsDigit(Peek(n.Text() + rest))
  {
    hide Numeral.UnsignedText, Numeral.Ends, Numeral.Value, Unsigned, Scaled, Power, Accumulated, WholeNumber;
    var t := n.Text() + rest;
    UnsignedIsRead(n, rest);
    ScaledIsValue(n);
    if n.minus {
      assert t == "-" + (n.UnsignedText() + rest);
      assert t[1..] == n.UnsignedText() + rest;
    } else {
      assert t == n.UnsignedText() + rest;
      UnsignedStarts(n, rest);
    }
    var m := Accumulated(WholeNumber(n.whole), n.fraction);
    ScaleIgnoresRest(if n.minus then -1.0 else 1.0, Tail(m, -|n.fraction|, Power(n.exponent), rest));
  }

  lemma ScaleIgnoresRest(sign: real, x: Tail)
    ensures Scaled(sign, x) == Scaled(sign, x.(rest := ""))
  {
  }
}
