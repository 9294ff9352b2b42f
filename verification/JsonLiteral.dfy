/** String literals: what `print_string_ptr` writes and what `parse_string` makes of a literal. */
module JsonLiteral {
  import opened CText

  const BACKSPACE: char := 8 as char
  const FORMFEED: char := 12 as char

  // ----- printing -----

  /** The characters for which `print_string_ptr` has a two-character escape. */
  function ShortEscape(c: char): (e: char)
    ensures e != NUL ==> e != 'u'
  {
    if c == '\\' then '\\'
    else if c == '"' then '"'
    else if c == BACKSPACE then 'b'
    else if c == FORMFEED then 'f'
    else if c == '\n' then 'n'
    else if c == '\r' then 'r'
    else if c == '\t' then 't'
    else NUL
  }

  function EscapeChar(c: char): (e: string)
    ensures |e| > 0
  {
    if c > 31 as char && c != '"' && c != '\\' then [c]
    else if ShortEscape(c) != NUL then ['\\', ShortEscape(c)]
    else "\\u00" + [HexDigit(c as int / 16), HexDigit(c as int % 16)]
  }

  function Escape(s: string): string {
    if s == "" then "" else EscapeChar(s[0]) + Escape(s[1..])
  }

  /** The literal that `print_string_ptr` renders for a text. */
  function PrintLiteral(s: string): string {
    "\"" + Escape(s) + "\""
  }

  /** The counting loop that sizes the output buffer, one character of it. */
  function EscapedCount(c: char): nat {
    if c in "\"\\\n\r\t" || c == BACKSPACE || c == FORMFEED then 2 else if c < 32 as char then 6 else 1
  }

  function EscapedLength(s: string): nat {
    if s == "" then 0 else EscapedCount(s[0]) + EscapedLength(s[1..])
  }

  // ----- parsing -----

  /** The outcome of reading a literal. `Unmodelled` stands for the texts on which the C code
      reads past the terminator or hands an incomplete `\u` escape to `sscanf`. */
  datatype Literal = Literal(text: string, rest: string) | Unmodelled {
    function Prepend(bytes: string): Literal {
      if Literal? then Literal(bytes + text, rest) else Unmodelled
    }
  }

  predicate IsHex4(t: string) {
    |t| >= 4 && forall i | 0 <= i < 4 :: HexValue(t[i]) >= 0
  }

  /** What `sscanf("%4x")` stores for four hexadecimal digits. */
  function Hex4(t: string): (u: nat)
    requires IsHex4(t)
    ensures u < 0x10000
  {
    ((HexValue(t[0]) * 16 + HexValue(t[1])) * 16 + HexValue(t[2])) * 16 + HexValue(t[3])
  }

  predicate IsHigh(u: nat) {
    0xD800 <= u <= 0xDBFF
  }

  predicate IsLow(u: nat) {
    0xDC00 <= u <= 0xDFFF
  }

  /** The code point of a surrogate pair, after section 2.2 of RFC 2781. */
  function Combine(high: nat, low: nat): (cp: nat)
    requires IsHigh(high) && IsLow(low)
    ensures 0x10000 <= cp <= 0x10FFFF
  {
    0x10000 + (high - 0xD800) * 0x400 + (low - 0xDC00)
  }

  /** A continuation byte holding the low six bits. */
  function Continuation(uc: nat): char {
    (0x80 + uc % 0x40) as char
  }

  /** The bytes that are written for a code point. */
  function Utf8(uc: nat): (bytes: string)
    requires uc <= 0x10FFFF
    ensures 1 <= |bytes| <= 4
    ensures uc < 0x10000 ==> |bytes| <= 3
  {
    if uc < 0x80 then [uc as char]
    else if uc < 0x800 then [(0xC0 + uc / 0x40) as char, Continuation(uc)]
    else if uc < 0x10000 then [(0xE0 + uc / 0x40 / 0x40) as char, Continuation(uc / 0x40), Continuation(uc)]
    else
      [(0xF0 + uc / 0x40 / 0x40 / 0x40) as char,
       Continuation(uc / 0x40 / 0x40), Continuation(uc / 0x40), Continuation(uc)]
  }

  /** The characters behind the two-character escapes; any other escaped character stands for itself. */
  function ShortMeaning(e: char): char {
    if e == 'b' then BACKSPACE
    else if e == 'f' then FORMFEED
    else if e == 'n' then '\n'
    else if e == 'r' then '\r'
    else if e == 't' then '\t'
    else e
  }

  /** One round of the decoding loop, at a character that is neither the closing quote nor NUL:
      the bytes written and the number of characters passed over, which is 0 where the
      behaviour of the C code is not modelled. */
  function DecodeOne(t: string): (r: (string, nat))
    requires t != ""
    ensures r.1 <= |t|
  {
    if t[0] != '\\' then ([t[0]], 1)
    else if Peek(t[1..]) == NUL then ("", 0)
    else if t[1] != 'u' then ([ShortMeaning(t[1])], 2)
    else if !IsHex4(t[2..]) then ("", 0)
    else
      var uc := Hex4(t[2..]);
      if IsLow(uc) || uc == 0 then ("", 6)
      else if !IsHigh(uc) then (Utf8(uc), 6)
      else if Peek(t[6..]) != '\\' || Peek(t[7..]) != 'u' then ("", 6)
      else if !IsHex4(t[8..]) then ("", 0)
      else if !IsLow(Hex4(t[8..])) then ("", 12)
      else (Utf8(Combine(uc, Hex4(t[8..]))), 12)
  }

  /** What `parse_string` makes of the text after the opening quote. A text that ends before
      the closing quote is accepted. */
  function Unescape(t: string): (r: Literal)
    ensures r.Literal? ==> |r.rest| <= |t|
    decreases |t|
  {
    if Peek(t) == NUL then Literal("", t)
    else if t[0] == '"' then Literal("", t[1..])
    else
      var (bytes, n) := DecodeOne(t);
      if n == 0 then Unmodelled else Unescape(t[n..]).Prepend(bytes)
  }

  /** The loop that sizes the output: an escaped character counts once, together with its
      backslash. */
  function SkipCount(t: string): nat
    decreases |t|
  {
    if Peek(t) == NUL || t[0] == '"' then 0
    else if t[0] == '\\' && |t| >= 2 then 1 + SkipCount(t[2..])
    else 1 + SkipCount(t[1..])
  }
}
