/** The loops of `parse_number`. */
module CJsonNumbers {
  import opened CText
  import opened Decimal
  import opened JsonText

  /** The loops that read digits into a number, also for no digit at all. */
  method ReadDigits(t: string, p: nat, acc: nat) returns (n: nat, end: nat)
    requires p <= |t|
    ensures p <= end <= |t| && (n, t[end..]) == Accumulate(acc, t[p..])
  {
    n, end := acc, p;
    while IsDigit(Peek(t[end..]))
      invariant p <= end <= |t| && Accumulate(n, t[end..]) == Accumulate(acc, t[p..])
      decreases |t| - end
    {
      assert t[end..][1..] == t[end + 1..];
      n, end := n * 10 + (t[end] as int - '0' as int), end + 1;
    }
  }

  /** The digits before the point. */
  method ScanInteger(t: string, p: nat) returns (n: nat, end: nat)
    requires p <= |t|
    ensures p <= end <= |t| && (n, t[end..]) == IntegerPart(t[p..])
  {
    hide Accumulate;
    n, end := 0, p;
    if Peek(t[end..]) == '0' {
      assert t[end..][1..] == t[end + 1..];
      end := end + 1;
    }
    if '1' <= Peek(t[end..]) <= '9' {
      n, end := ReadDigits(t, end, 0);
    }
  }

  /** The point and the digits behind it. */
  method ScanFraction(t: string, p: nat, n: nat) returns (m: nat, scale: int, end: nat)
    requires p <= |t|
    ensures p <= end <= |t| && Tail(m, scale, 0, t[end..]) == Fraction(n, t[p..])
  {
    hide Accumulate;
    m, scale, end := n, 0, p;
    if p + 1 <= |t| {
      assert t[p..][1..] == t[p + 1..];
    }
    if Peek(t[p..]) == '.' && IsDigit(Peek(t[p + 1..])) {
      m, end := ReadDigits(t, p + 1, n);
      scale := p + 1 - end;
    }
  }

  /** The exponent. */
  method ScanExponent(t: string, p: nat, ghost f: Tail) returns (subscale: int, end: nat)
    requires p <= |t| && f.rest == t[p..] && f.subscale == 0
    ensures p <= end <= |t| && f.(subscale := subscale, rest := t[end..]) == Exponent(f)
  {
    hide Accumulate;
    subscale, end := 0, p;
    if Peek(t[p..]) == 'e' || Peek(t[p..]) == 'E' {
      var signsubscale: int := 1;
      end := p + 1;
      assert t[p..][1..] == t[p + 1..];
      if Peek(t[end..]) == '+' {
        end := end + 1;
      } else if Peek(t[end..]) == '-' {
        signsubscale, end := -1, end + 1;
      }
      if end == p + 2 {
        assert t[p..][2..] == t[p + 2..];
      }
      var m;
      m, end := ReadDigits(t, end, 0);
      subscale := m * signsubscale;
    }
  }

  /** `parse_number` up to the multiplication: sign, digits, scale and exponent. */
  method ScanNumber(t: string, p: nat) returns (sign: real, x: Tail, end: nat)
    requires p <= |t|
    ensures p <= end <= |t| && t[end..] == x.rest
    ensures sign == if Peek(t[p..]) == '-' then -1.0 else 1.0
    ensures x == Unsigned(if Peek(t[p..]) == '-' then t[p + 1..] else t[p..])
  {
    hide IntegerPart, Fraction, Exponent;
    sign, end := 1.0, p;
    if Peek(t[end..]) == '-' {
      sign, end := -1.0, end + 1;
    }
    ghost var start := end;
    var n, scale, subscale;
    n, end := ScanInteger(t, end);
    n, scale, end := ScanFraction(t, end, n);
    subscale, end := ScanExponent(t, end, Tail(n, scale, 0, t[end..]));
    x := Tail(n, scale, subscale, t[end..]);
  }
}
