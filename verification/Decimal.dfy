/** Decimal integers: `%d` and `str` write them, `parse_number` and `atoi` read them. */
module Decimal {
  import opened CText

  const INT_MAX := 0x7FFF_FFFF
  const INT_MIN := -0x8000_0000

  function DigitChar(d: nat): (c: char)
    requires d < 10
    ensures IsDigit(c) && c as int - '0' as int == d
  {
    ('0' as int + d) as char
  }

  /** The digits of a non-negative number. */
  function Digits(n: nat): (s: string)
    ensures |s| > 0 && (forall c | c in s :: IsDigit(c))
    ensures n > 0 ==> s[0] != '0'
  {
    if n < 10 then [DigitChar(n)] else Digits(n / 10) + [DigitChar(n % 10)]
  }

  /** The text of `%d`. */
  function IntText(n: int): (s: string)
    ensures |s| > 0 && (s[0] == '-' || IsDigit(s[0]))
    ensures forall c | c in s :: c == '-' || IsDigit(c)
  {
    if n < 0 then "-" + Digits(-n) else Digits(n)
  }

  /** The loop `n = n*10 + (*p++ - '0')` for as long as it sees digits. */
  function Accumulate(acc: nat, t: string): (r: (nat, string))
    ensures |r.1| <= |t|
    decreases |t|
  {
    if IsDigit(Peek(t)) then Accumulate(acc * 10 + (t[0] as int - '0' as int), t[1..]) else (acc, t)
  }

  /** What an accumulator that holds `acc` becomes after the digits of `n`. */
  function Appended(acc: nat, n: nat): nat {
    if n < 10 then acc * 10 + n else Appended(acc, n / 10) * 10 + n % 10
  }

  lemma AppendedToZero(n: nat)
    ensures Appended(0, n) == n
  {
  }

  lemma AccumulateOne(acc: nat, d: nat, rest: string)
    requires d < 10
    ensures Accumulate(acc, [DigitChar(d)] + rest) == Accumulate(acc * 10 + d, rest)
  {
    assert ([DigitChar(d)] + rest)[1..] == rest;
  }

  /** Reading digits one after the other is reading them all. */
  lemma {:induction false} AccumulateDigits(acc: nat, n: nat, rest: string)
    ensures Accumulate(acc, Digits(n) + rest) == Accumulate(Appended(acc, n), rest)
    decreases n
  {
    if n < 10 {
      AccumulateOne(acc, n, rest);
    } else {
      var last := [DigitChar(n % 10)];
      assert Digits(n) + rest == Digits(n / 10) + (last + rest);
      AccumulateDigits(acc, n / 10, last + rest);
      AccumulateOne(Appended(acc, n / 10), n % 10, rest);
    }
  }

  /** The blanks that `isspace` knows in the C locale. */
  predicate IsSpace(c: char) {
    c == ' ' || 9 as char <= c <= 13 as char
  }

  function SkipSpaces(t: string): string {
    if t != "" && IsSpace(t[0]) then SkipSpaces(t[1..]) else t
  }

  /** `atoi`: blanks, a sign, digits, and 0 if there is no digit; not cut to the range of `int`. */
  function Atoi(t: string): int {
    var u := SkipSpaces(t);
    if Peek(u) == '-' then -(Accumulate(0, u[1..]).0 as int)
    else if Peek(u) == '+' then Accumulate(0, u[1..]).0
    else Accumulate(0, u).0
  }

  /** The blanks of the C locale: tab to carriage return, and the space. */
  ghost predicate AllBlank(blanks: string) {
    forall i | 0 <= i < |blanks| :: blanks[i] as int in {9, 10, 11, 12, 13, 32}
  }

  /** `atoi` reads back what `%d` wrote, behind any blanks, with or without a plus sign, and up to the
      first character that is no digit. */
  lemma AtoiUndoesIntText(blanks: string, n: int, rest: string)
    requires AllBlank(blanks) && !IsDigit(Peek(rest))
    ensures Atoi(blanks + (IntText(n) + rest)) == n
    ensures n >= 0 ==> Atoi(blanks + ("+" + (IntText(n) + rest))) == n
  {
    hide Accumulate, Digits, SkipSpaces, IsDigit;
    var m: nat := if n < 0 then -n else n;
    DigitsAreRead(m, rest);
    BlanksSkipped(blanks, IntText(n) + rest);
    if n < 0 {
      assert (IntText(n) + rest)[1..] == Digits(m) + rest;
    } else {
      BlanksSkipped(blanks, "+" + (IntText(n) + rest));
      assert ("+" + (IntText(n) + rest))[1..] == Digits(m) + rest;
    }
  }

  /** Without a digit in its place `atoi` gives 0. */
  lemma AtoiOfNoNumber(blanks: string, sign: string, rest: string)
    requires AllBlank(blanks) && sign in ["", "+", "-"] && !IsDigit(Peek(rest))
    requires sign == "" ==> rest == "" || rest[0] as int !in {9, 10, 11, 12, 13, 32, '+' as int, '-' as int}
    ensures Atoi(blanks + (sign + rest)) == 0
  {
    var u := sign + rest;
    assert sign == "" ==> u == rest;
    assert sign != "" ==> u[1..] == rest && (u[0] == '+' || u[0] == '-');
    if u == "" {
      AllSkipped(blanks);
      assert blanks + u == blanks;
    } else {
      BlanksSkipped(blanks, u);
    }
  }

  lemma {:induction false} AllSkipped(blanks: string)
    requires AllBlank(blanks)
    ensures SkipSpaces(blanks) == ""
  {
    if blanks != "" {
      AllSkipped(blanks[1..]);
    }
  }

  lemma DigitsAreRead(m: nat, rest: string)
    requires !IsDigit(Peek(rest))
    ensures Accumulate(0, Digits(m) + rest).0 == m && IsDigit(Peek(Digits(m) + rest))
    ensures !IsSpace(Peek(Digits(m) + rest)) && Peek(Digits(m) + rest) != '+' && Peek(Digits(m) + rest) != '-'
  {
    hide Digits;
    AccumulateDigits(0, m, rest);
    AppendedToZero(m);
    assert (Digits(m) + rest)[0] == Digits(m)[0] && Digits(m)[0] in Digits(m);
  }

  lemma {:induction false} BlanksSkipped(blanks: string, t: string)
    requires AllBlank(blanks)
    requires t != "" && !IsSpace(t[0])
    ensures SkipSpaces(blanks + t) == t
  {
    if blanks == "" {
      assert blanks + t == t;
    } else {
      BlanksSkipped(blanks[1..], t);
      assert (blanks + t)[1..] == blanks[1..] + t;
    }
  }

  lemma DigitsNulFree(n: int)
    ensures NulFree(IntText(n))
  {
    var s := IntText(n);
    forall i | 0 <= i < |s|
      ensures s[i] != NUL
    {
      assert s[i] in s;
    }
  }
}
