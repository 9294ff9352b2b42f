/** The loops of `parse_string` and `print_string_ptr`, writing into the buffers they allocate. */
module CJsonLiterals {
  import opened Bits
  import opened CText
  import opened JsonLiteral
  import opened JsonLiteralProofs

  /** `text[..n]` of a buffer that holds a C string of length `n`. */
  ghost predicate HoldsText(out: array<char>, n: nat, s: string)
    reads out
  {
    n < out.Length && out[..n] == s && out[n] == NUL
  }

  // ----- parse_string -----

  /** The counting loop. */
  method CountLiteral(t: string) returns (len: nat)
    requires Unescape(t).Literal?
    ensures len == SkipCount(t)
  {
    hide Unescape, DecodeOne;
    LiteralIsCountable(t);
    assert t[0..] == t;
    var p := 0;
    len := 0;
    while Peek(t[p..]) != NUL && t[p] != '"'
      invariant 0 <= p <= |t| && Countable(t[p..])
      invariant len + SkipCount(t[p..]) == SkipCount(t)
      decreases |t| - p
    {
      assert t[p..][1..] == t[p + 1..] && (p + 2 <= |t| ==> t[p..][2..] == t[p + 2..]);
      len := len + 1;
      if t[p] == '\\' {
        p := p + 1;
      }
      p := p + 1;
    }
  }

  const FIRST_BYTE_MARK: seq<nat> := [0x00, 0x00, 0xC0, 0xE0, 0xF0, 0xF8, 0xFC]

  /** One case of the fall-through switch: the byte before `m` takes the low six bits. */
  method WriteContinuation(out: array<char>, m: nat, uc: nat) returns (m': nat, uc': nat)
    requires 0 < m <= out.Length
    modifies out
    ensures m' == m - 1 && uc' == uc / 0x40 && out[..] == old(out[..])[m' := Continuation(uc)]
  {
    MarkedSixBits(uc);
    ShiftValues(uc);
    m' := m - 1;
    out[m'] := BitAnd(BitOr(uc, 0x80), 0xBF) as char;
    uc' := ShiftDown(uc, 6);
  }

  /** The number of bytes of a code point. */
  function Length(cp: nat): (len: nat)
    ensures 1 <= len <= 4
  {
    if cp < 0x80 then 1 else if cp < 0x800 then 2 else if cp < 0x10000 then 3 else 4
  }

  /** What is left of a code point for its first byte. */
  function Leading(cp: nat, len: nat): nat {
    if len <= 1 then cp else Leading(cp / 0x40, len - 1)
  }

  /** The mark of the first byte lies above the bits that are left for it. */
  lemma FirstByte(cp: nat)
    requires cp <= 0x10FFFF
    ensures var uc, mark := Leading(cp, Length(cp)), FIRST_BYTE_MARK[Length(cp)]; BitOr(uc, mark) == uc + mark < 0x100
  {
    var len := Length(cp);
    LeadingOf(cp);
    MarkAbove(Leading(cp, len), len);
  }

  lemma MarkAbove(uc: nat, len: nat)
    requires 1 <= len <= 4 && uc < [0, 0x80, 0x20, 0x10, 8][len]
    ensures BitOr(uc, FIRST_BYTE_MARK[len]) == uc + FIRST_BYTE_MARK[len]
  {
    hide BitOr, IsPowerOfTwo;
    SmallPowers();
    match len
    case 1 => OrNothing(uc);
    case 2 => OrAbove(6, uc, 0x20);
    case 3 => OrAbove(14, uc, 0x10);
    case 4 => OrAbove(30, uc, 8);
  }

  /** The bytes of a code point, in the order in which they are written. */
  lemma Utf8Bytes(cp: nat)
    requires cp <= 0x10FFFF
    ensures var len := Length(cp);
      && |Utf8(cp)| == len && Utf8(cp)[0] as nat == Leading(cp, len) + FIRST_BYTE_MARK[len]
      && (len >= 2 ==> Utf8(cp)[len - 1] == Continuation(cp))
      && (len >= 3 ==> Utf8(cp)[len - 2] == Continuation(cp / 0x40))
      && (len >= 4 ==> Utf8(cp)[len - 3] == Continuation(cp / 0x40 / 0x40))
  {
    LeadingOf(cp);
  }

  /** The fall-through switch that writes the bytes of a code point from the last to the first. */
  method WriteUtf8(out: array<char>, n: nat, cp: nat) returns (m: nat)
    requires cp <= 0x10FFFF && n + |Utf8(cp)| <= out.Length
    modifies out
    ensures m == n + |Utf8(cp)| && out[..m] == old(out[..n]) + Utf8(cp)
  {
    hide Utf8, Continuation, BitOr, Leading;
    FirstByte(cp);
    Utf8Bytes(cp);
    LeadingOf(cp);
    var len := Length(cp);
    var uc := cp;
    m := n + len;
    if len >= 4 {
      m, uc := WriteContinuation(out, m, uc);
    }
    if len >= 3 {
      m, uc := WriteContinuation(out, m, uc);
    }
    if len >= 2 {
      m, uc := WriteContinuation(out, m, uc);
    }
    m := m - 1;
    out[m] := BitOr(uc, FIRST_BYTE_MARK[len]) as char;
    m := m + len;
    assert out[n..m] == Utf8(cp);
  }

  lemma LeadingOf(cp: nat)
    ensures Leading(cp, 1) == cp && Leading(cp, 2) == cp / 0x40
    ensures Leading(cp, 3) == cp / 0x40 / 0x40 && Leading(cp, 4) == cp / 0x40 / 0x40 / 0x40
  {
    assert Leading(cp / 0x40, 3) == Leading(cp / 0x40 / 0x40, 2);
  }

  /** The masks, the shift and the `or` on a surrogate pair compute its code point. */
  lemma SurrogateBits(high: nat, low: nat)
    requires IsHigh(high) && IsLow(low)
    ensures 0x10000 + BitOr(ShiftUp(BitAnd(high, 0x3FF), 10), BitAnd(low, 0x3FF)) == Combine(high, low)
  {
    hide BitAnd, BitOr, ShiftUp, ShiftDown, IsPowerOfTwo;
    SmallPowers();
    Mask(high, 0x400);
    Mask(low, 0x400);
    ShiftValues(high % 0x400);
    OrAbove(high % 0x400, low % 0x400, 0x400);
  }

  /** One round of the decoding loop, at position `p`. */
  method DecodeStep(t: string, p: nat, out: array<char>, n: nat) returns (p': nat, n': nat)
    requires p < |t| && DecodeOne(t[p..]).1 > 0 && n + |DecodeOne(t[p..]).0| <= out.Length
    modifies out
    ensures p' == p + DecodeOne(t[p..]).1 <= |t|
    ensures n' == n + |DecodeOne(t[p..]).0| && out[..n'] == old(out[..n]) + DecodeOne(t[p..]).0
  {
    hide Utf8, Hex4, ShortMeaning, Combine, BitAnd, BitOr, ShiftUp;
    ghost var u := t[p..];
    p', n' := p, n;
    if t[p'] != '\\' {
      out[n'] := t[p'];
      return p' + 1, n' + 1;
    }
    p' := p' + 1;
    if t[p'] != 'u' {
      out[n'] := ShortMeaning(t[p']);
      return p' + 1, n' + 1;
    }
    assert t[p + 2..] == u[2..] && t[p + 6..] == u[6..];
    assert |u| > 6 ==> t[p + 7..] == u[7..];
    assert |u| > 7 ==> t[p + 8..] == u[8..];
    var uc := Hex4(t[p' + 1..]);
    p' := p' + 4;
    if IsLow(uc) || uc == 0 {
      return p' + 1, n';
    }
    if IsHigh(uc) {
      if Peek(t[p' + 1..]) != '\\' || Peek(t[p' + 2..]) != 'u' {
        return p' + 1, n';
      }
      var uc2 := Hex4(t[p' + 3..]);
      p' := p' + 6;
      if !IsLow(uc2) {
        return p' + 1, n';
      }
      SurrogateBits(uc, uc2);
      uc := 0x10000 + BitOr(ShiftUp(BitAnd(uc, 0x3FF), 10), BitAnd(uc2, 0x3FF));
    }
    n' := WriteUtf8(out, n', uc);
    p' := p' + 1;
  }

  lemma UnescapeOnce(u: string)
    requires Peek(u) != NUL && u[0] != '"' && Unescape(u).Literal?
    ensures var (bytes, k) := DecodeOne(u);
      k > 0 && Unescape(u[k..]).Literal? && Unescape(u) == Unescape(u[k..]).Prepend(bytes)
  {
    hide DecodeOne;
  }

  lemma UnescapeStep(t: string, p: nat, s: string)
    requires p < |t| && Peek(t[p..]) != NUL && t[p] != '"'
    requires Unescape(t[p..]).Literal? && Unescape(t) == Unescape(t[p..]).Prepend(s)
    ensures var (bytes, k) := DecodeOne(t[p..]);
      && k > 0 && p + k <= |t| && Unescape(t[p + k..]).Literal?
      && Unescape(t) == Unescape(t[p + k..]).Prepend(s + bytes)
      && |bytes| + SkipCount(t[p + k..]) <= SkipCount(t[p..])
  {
    hide DecodeOne, SkipCount, Unescape;
    var (bytes, k) := DecodeOne(t[p..]);
    UnescapeOnce(t[p..]);
    DecodeOneFits(t[p..]);
    assert t[p..][k..] == t[p + k..];
    PrependTwice(Unescape(t[p + k..]), s, bytes);
  }

  /** `parse_string` behind the opening quote: the buffer of the size counted, the length of the
      text written into it, and the position behind the closing quote. */
  method DecodeLiteral(t: string) returns (out: array<char>, n: nat, end: nat)
    requires Unescape(t).Literal?
    ensures fresh(out) && end <= |t| && t[end..] == Unescape(t).rest
    ensures out.Length == SkipCount(t) + 1 && HoldsText(out, n, Unescape(t).text)
  {
    hide Unescape, DecodeOne, SkipCount;
    var len := CountLiteral(t);
    out := new char[len + 1];
    var p := 0;
    n := 0;
    UnescapeStart(t);
    while Peek(t[p..]) != NUL && t[p] != '"'
      invariant 0 <= p <= |t| && n <= len
      invariant Unescape(t[p..]).Literal? && Unescape(t) == Unescape(t[p..]).Prepend(out[..n])
      invariant n + SkipCount(t[p..]) <= len
      decreases |t| - p
    {
      UnescapeStep(t, p, out[..n]);
      p, n := DecodeStep(t, p, out, n);
    }
    out[n] := NUL;
    end := p;
    UnescapeStops(t[p..]);
    if Peek(t[end..]) == '"' {
      assert t[p..][1..] == t[p + 1..];
      end := end + 1;
    }
    assert out[..n] + "" == out[..n];
  }

  lemma UnescapeStart(t: string)
    requires Unescape(t).Literal?
    ensures t[0..] == t && Unescape(t) == Unescape(t).Prepend([])
  {
    assert "" + Unescape(t).text == Unescape(t).text;
  }

  lemma UnescapeStops(t: string)
    requires Peek(t) == NUL || t[0] == '"'
    ensures Unescape(t) == Literal("", if Peek(t) == '"' then t[1..] else t)
  {
  }

  // ----- print_string_ptr -----

  /** `print_string_ptr` on a pointer that is not null. */
  method WriteLiteral(s: string) returns (out: array<char>)
    requires NulFree(s)
    ensures fresh(out) && out.Length == EscapedLength(s) + 3
    ensures HoldsText(out, out.Length - 1, PrintLiteral(s))
  {
    hide EscapeChar, EscapedCount;
    var len := CountEscaped(s);
    PrintedLiteralFillsBuffer(s);
    out := new char[len + 3];
    out[0] := '"';
    var n, p := 1, 0;
    while p < |s|
      invariant 0 <= p <= |s| && n == 1 + |Escape(s[..p])| && n + |Escape(s[p..])| == len + 1
      invariant out[..n] == "\"" + Escape(s[..p])
    {
      EscapeAppend(s, p);
      n := WriteEscaped(s[p], out, n);
      p := p + 1;
    }
    assert s[..p] == s && s[p..] == "";
    out[n] := '"';
    out[n + 1] := NUL;
    assert out[..n + 1] == out[..n] + ['"'];
  }

  lemma EscapeAppend(s: string, p: nat)
    requires p < |s|
    ensures Escape(s[..p + 1]) == Escape(s[..p]) + EscapeChar(s[p])
    ensures Escape(s[p..]) == EscapeChar(s[p]) + Escape(s[p + 1..])
  {
    hide EscapeChar;
    if p == 0 {
      assert s[..1] == [s[0]] && s[..1][1..] == "";
    } else {
      EscapeAppend(s[1..], p - 1);
      assert s[..p + 1][1..] == s[1..][..p] && s[..p][1..] == s[1..][..p - 1];
      assert s[1..][p - 1..] == s[p..] && s[1..][p..] == s[p + 1..];
    }
  }

  /** The counting loop of `print_string_ptr`. */
  method CountEscaped(s: string) returns (len: nat)
    ensures len == EscapedLength(s)
  {
    len := 0;
    var p := 0;
    while p < |s|
      invariant 0 <= p <= |s| && len + EscapedLength(s[p..]) == EscapedLength(s)
    {
      len := len + 1;
      if s[p] in "\"\\\n\r\t" || s[p] == BACKSPACE || s[p] == FORMFEED {
        len := len + 1;
      } else if s[p] < 32 as char {
        len := len + 5;
      }
      p := p + 1;
    }
  }

  /** One character, and the pointer moves on. */
  method PutChar(c: char, out: array<char>, n: nat) returns (n': nat)
    requires n < out.Length
    modifies out
    ensures n' == n + 1 && out[..n'] == old(out[..n]) + [c]
  {
    out[n] := c;
    n' := n + 1;
  }

  /** `sprintf` with `u%04x` on a control character. */
  method WriteUnit(c: char, out: array<char>, n: nat) returns (n': nat)
    requires c < 32 as char && n + 5 <= out.Length
    modifies out
    ensures n' == n + 5 && out[..n'] == old(out[..n]) + UnitText(c)
  {
    out[n] := 'u';
    out[n + 1], out[n + 2] := '0', '0';
    out[n + 3], out[n + 4] := HexDigit(c as int / 16), HexDigit(c as int % 16);
    n' := n + 5;
  }

  function UnitText(c: char): string
    requires c < 32 as char
  {
    ['u', '0', '0', HexDigit(c as int / 16), HexDigit(c as int % 16)]
  }

  /** One round of the writing loop. */
  method WriteEscaped(c: char, out: array<char>, n: nat) returns (n': nat)
    requires c != NUL && n + |EscapeChar(c)| <= out.Length
    modifies out
    ensures n' == n + |EscapeChar(c)| && out[..n'] == old(out[..n]) + EscapeChar(c)
  {
    EscapeForms(c);
    hide ShortEscape, EscapeChar, UnitText;
    if c > 31 as char && c != '"' && c != '\\' {
      n' := PutChar(c, out, n);
    } else {
      n' := PutChar('\\', out, n);
      if ShortEscape(c) != NUL {
        n' := PutChar(ShortEscape(c), out, n');
      } else {
        n' := WriteUnit(c, out, n');
      }
    }
  }

  lemma EscapeForms(c: char)
    requires c != NUL
    ensures if c > 31 as char && c != '"' && c != '\\' then EscapeChar(c) == [c]
      else if ShortEscape(c) != NUL then EscapeChar(c) == ['\\', ShortEscape(c)]
      else c < 32 as char && |UnitText(c)| == 5 && EscapeChar(c) == ['\\'] + UnitText(c)
  {
  }
}
