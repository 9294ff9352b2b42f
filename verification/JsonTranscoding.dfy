/** `parse_string` turns every way of spelling a code point in a literal into its UTF-8 bytes.
    The reference is an independent UTF-8 decoder (sections 3 and 4 of RFC 3629) and the surrogate
    arithmetic of section 2.2 of RFC 2781. */
module JsonTranscoding {
  import opened CText
  import opened JsonLiteral
  import opened JsonLiteralProofs

  // ----- reference decoder -----

  datatype Decoded = Decoded(scalars: seq<nat>) | Malformed {
    function Prepend(cp: nat): Decoded {
      if Decoded? then Decoded([cp] + scalars) else Malformed
    }
  }

  predicate IsScalar(cp: nat) {
    cp < 0xD800 || 0xDFFF < cp <= 0x10FFFF
  }

  /** The byte at an index, or -1 behind the end. */
  function ByteAt(b: string, i: nat): int {
    if i < |b| then b[i] as int else -1
  }

  /** A continuation byte, restricted to the range that a lead byte allows. */
  predicate Tail(b: string, i: nat, low: int, high: int) {
    low <= ByteAt(b, i) <= high
  }

  /** The number of bytes of the sequence that starts a byte string; 0 if it is malformed. */
  function SequenceLength(b: string): (n: nat)
    ensures n <= |b|
  {
    var lead := ByteAt(b, 0);
    if 0 <= lead < 0x80 then 1
    else if 0xC2 <= lead <= 0xDF && Tail(b, 1, 0x80, 0xBF) then 2
    else if lead == 0xE0 && Tail(b, 1, 0xA0, 0xBF) && Tail(b, 2, 0x80, 0xBF) then 3
    else if 0xE1 <= lead <= 0xEF && lead != 0xED && Tail(b, 1, 0x80, 0xBF) && Tail(b, 2, 0x80, 0xBF) then 3
    else if lead == 0xED && Tail(b, 1, 0x80, 0x9F) && Tail(b, 2, 0x80, 0xBF) then 3
    else if lead == 0xF0 && Tail(b, 1, 0x90, 0xBF) && Tail(b, 2, 0x80, 0xBF) && Tail(b, 3, 0x80, 0xBF) then 4
    else if 0xF1 <= lead <= 0xF3 && Tail(b, 1, 0x80, 0xBF) && Tail(b, 2, 0x80, 0xBF) && Tail(b, 3, 0x80, 0xBF) then 4
    else if lead == 0xF4 && Tail(b, 1, 0x80, 0x8F) && Tail(b, 2, 0x80, 0xBF) && Tail(b, 3, 0x80, 0xBF) then 4
    else 0
  }

  /** The code point of a well-formed sequence. */
  function SequenceScalar(b: string): int
    requires SequenceLength(b) > 0
  {
    var n := SequenceLength(b);
    if n == 1 then b[0] as int
    else if n == 2 then (b[0] as int - 0xC0) * 0x40 + (b[1] as int - 0x80)
    else if n == 3 then (b[0] as int - 0xE0) * 0x1000 + (b[1] as int - 0x80) * 0x40 + (b[2] as int - 0x80)
    else
      (b[0] as int - 0xF0) * 0x40000 + (b[1] as int - 0x80) * 0x1000
      + (b[2] as int - 0x80) * 0x40 + (b[3] as int - 0x80)
  }

  function DecodeUtf8(b: string): Decoded
    decreases |b|
  {
    if b == "" then Decoded([])
    else if SequenceLength(b) == 0 || SequenceScalar(b) < 0 then Malformed
    else DecodeUtf8(b[SequenceLength(b)..]).Prepend(SequenceScalar(b))
  }

  // ----- spellings of code points in a literal -----

  /** The case of each of four hexadecimal digits. */
  datatype Cases = Cases(c3: bool, c2: bool, c1: bool, c0: bool)

  function HexChar(v: nat, upper: bool): char
    requires v < 16
  {
    if upper then UPPER_HEX[v] else LOWER_HEX[v]
  }

  /** A code unit as four hexadecimal digits, the most significant one first. */
  function HexText(u: nat, upper: Cases): (t: string)
    requires u < 0x10000
    ensures |t| == 4
  {
    [HexChar(u / 0x1000, upper.c3), HexChar(u / 0x100 % 0x10, upper.c2),
     HexChar(u / 0x10 % 0x10, upper.c1), HexChar(u % 0x10, upper.c0)]
  }

  lemma HexCharIsRead(v: nat, upper: bool)
    requires v < 16
    ensures HexValue(HexChar(v, upper)) == v
  {
    hide HexValue;
    HexValueIs(HexChar(v, upper), v);
  }

  lemma Nibbles(u: nat)
    requires u < 0x10000
    ensures u / 0x1000 < 16 && ((u / 0x1000 * 16 + u / 0x100 % 16) * 16 + u / 0x10 % 16) * 16 + u % 16 == u
  {
    var a := u / 16;
    var b := a / 16;
    assert u / 0x100 == b && u / 0x1000 == b / 16;
    assert u == 16 * a + u % 16 && a == 16 * b + a % 16 && b == 16 * (b / 16) + b % 16;
  }

  lemma Hex4Of(d: string)
    requires |d| == 4 && HexValue(d[0]) >= 0 && HexValue(d[1]) >= 0 && HexValue(d[2]) >= 0 && HexValue(d[3]) >= 0
    ensures IsHex4(d)
    ensures Hex4(d) == ((HexValue(d[0]) * 16 + HexValue(d[1])) * 16 + HexValue(d[2])) * 16 + HexValue(d[3])
  {
  }

  /** The four digits of a code unit are read as that unit, whatever their case. */
  lemma HexTextIsRead(u: nat, upper: Cases)
    requires u < 0x10000
    ensures IsHex4(HexText(u, upper)) && Hex4(HexText(u, upper)) == u
  {
    hide HexValue, HexChar, IsHex4, Hex4;
    Nibbles(u);
    HexCharIsRead(u / 0x1000, upper.c3);
    HexCharIsRead(u / 0x100 % 0x10, upper.c2);
    HexCharIsRead(u / 0x10 % 0x10, upper.c1);
    HexCharIsRead(u % 0x10, upper.c0);
    Hex4Of(HexText(u, upper));
  }

  /** The letters of the two-character escapes of section 7 of RFC 8259 and what they stand for. */
  const SHORT_LETTERS := "bfnrt"
  const SHORT_SCALARS: seq<nat> := [0x08, 0x0C, 0x0A, 0x0D, 0x09]

  /** The parts of a literal and the code points they spell. */
  datatype Spelling =
    | Raw(cp: nat)                                          // its own UTF-8 bytes
    | Byte(byte: char)                                      // one byte of anything else
    | Short(i: nat)                                         // a backslash and a letter of the table
    | Itself(letter: char)                                  // a backslash and any other character
    | Unit(unit: nat, upper: Cases)                         // \u and four hexadecimal digits
    | Pair(cp: nat, upper: Cases, upper2: Cases)            // two such escapes that form a surrogate pair
    | Lone(unit: nat, upper: Cases)                         // a surrogate that is not half of a pair, or zero
    | Broken(high: nat, upper: Cases, unit: nat, upper2: Cases)  // a high surrogate before some other unit
  {
    predicate Valid() {
      match this
      case Raw(cp) => IsScalar(cp) && cp != 0 && cp != '"' as nat && cp != '\\' as nat
      case Byte(c) => c != NUL && c != '"' && c != '\\'
      case Short(i) => i < 5
      case Itself(e) => NUL < e && e != 'u' && e !in SHORT_LETTERS
      case Unit(u, _) => 0 < u < 0x10000 && IsScalar(u)
      case Pair(cp, _, _) => 0x10000 <= cp <= 0x10FFFF
      case Lone(u, _) => u == 0 || 0xD800 <= u <= 0xDFFF
      case Broken(h, _, u, _) => 0xD800 <= h <= 0xDBFF && u < 0x10000 && !(0xDC00 <= u <= 0xDFFF)
    }

    function Text(): string
      requires Valid()
    {
      match this
      case Raw(cp) => Utf8(cp)
      case Byte(c) => [c]
      case Short(i) => ['\\', SHORT_LETTERS[i]]
      case Itself(e) => ['\\', e]
      case Unit(u, upper) => "\\u" + HexText(u, upper)
      case Pair(cp, upper, upper2) =>
        "\\u" + HexText(0xD800 + (cp - 0x10000) / 0x400, upper)
        + "\\u" + HexText(0xDC00 + (cp - 0x10000) % 0x400, upper2)
      case Lone(u, upper) => "\\u" + HexText(u, upper)
      case Broken(h, upper, u, upper2) => "\\u" + HexText(h, upper) + "\\u" + HexText(u, upper2)
    }

    /** The code point spelled, if any: surrogates without a partner and zero are dropped. */
    function Scalars(): (cps: seq<nat>)
      requires Valid()
      ensures !Byte? && !(Itself? && letter as nat >= 128) ==> forall cp | cp in cps :: IsScalar(cp)
    {
      match this
      case Raw(cp) => [cp]
      case Byte(c) => [c as nat]
      case Short(i) => [SHORT_SCALARS[i]]
      case Itself(e) => [e as nat]
      case Unit(u, _) => [u]
      case Pair(cp, _, _) => [cp]
      case Lone(_, _) => []
      case Broken(_, _, _, _) => []
    }

    /** Whether it is made of code points and not of single bytes. */
    predicate Coded()
      requires Valid()
    {
      !Byte? && (Itself? ==> letter < 128 as char)
    }

    /** The bytes it is decoded to. */
    function Bytes(): string
      requires Valid()
    {
      if Byte? then [byte]
      else if Itself? then [letter]
      else if Scalars() == [] then ""
      else Utf8(Scalars()[0])
    }

    predicate IsHighAlone() {
      Lone? && 0xD800 <= unit <= 0xDBFF
    }

    predicate IsUnit() {
      Unit? || Pair? || Lone? || Broken?
    }
  }

  /** A high surrogate alone is one that no other code unit follows. */
  ghost predicate AllValid(ss: seq<Spelling>) {
    && (forall i | 0 <= i < |ss| :: ss[i].Valid())
    && (forall i | 0 < i < |ss| :: ss[i - 1].IsHighAlone() ==> !ss[i].IsUnit())
  }

  ghost predicate AllCoded(ss: seq<Spelling>)
    requires AllValid(ss)
  {
    forall i | 0 <= i < |ss| :: ss[i].Coded()
  }

  ghost function SpellAll(ss: seq<Spelling>): string
    requires AllValid(ss)
  {
    if ss == [] then "" else ss[0].Text() + SpellAll(ss[1..])
  }

  ghost function BytesOf(ss: seq<Spelling>): string
    requires AllValid(ss)
  {
    if ss == [] then "" else ss[0].Bytes() + BytesOf(ss[1..])
  }

  ghost function Scalars(ss: seq<Spelling>): seq<nat>
    requires AllValid(ss)
  {
    if ss == [] then [] else ss[0].Scalars() + Scalars(ss[1..])
  }

  // ----- the written bytes are the UTF-8 form -----

  lemma ShortSequence(cp: nat, b: string)
    requires cp < 0x800
    ensures SequenceLength(Utf8(cp) + b) == |Utf8(cp)|
    ensures SequenceScalar(Utf8(cp) + b) == cp
  {
    var t := Utf8(cp) + b;
    assert t[0] == Utf8(cp)[0];
    assert cp >= 0x80 ==> t[1] == Utf8(cp)[1];
  }

  lemma ThreeBytes(x: nat, y: nat, z: nat, b: string)
    requires x < 0x10 && y < 0x40 && z < 0x40
    requires (x == 0 ==> y >= 0x20) && (x == 13 ==> y < 0x20)
    ensures var t := [(0xE0 + x) as char, (0x80 + y) as char, (0x80 + z) as char] + b;
      SequenceLength(t) == 3 && SequenceScalar(t) == x * 0x1000 + y * 0x40 + z
  {
  }

  lemma ThreeByteSequence(cp: nat, b: string)
    requires 0x800 <= cp < 0x10000 && IsScalar(cp)
    ensures SequenceLength(Utf8(cp) + b) == 3
    ensures SequenceScalar(Utf8(cp) + b) == cp
  {
    hide SequenceLength, SequenceScalar;
    var c1 := cp / 0x40;
    var x, y, z := c1 / 0x40, c1 % 0x40, cp % 0x40;
    assert cp == 0x40 * c1 + z && c1 == 0x40 * x + y;
    ThreeBytes(x, y, z, b);
  }

  lemma FourBytes(a: nat, x: nat, y: nat, z: nat, b: string)
    requires a < 5 && x < 0x40 && y < 0x40 && z < 0x40
    requires if a == 0 then x >= 0x10 else a == 4 ==> x < 0x10
    ensures var t := [(0xF0 + a) as char, (0x80 + x) as char, (0x80 + y) as char, (0x80 + z) as char] + b;
      SequenceLength(t) == 4 && SequenceScalar(t) == a * 0x40000 + x * 0x1000 + y * 0x40 + z
  {
  }

  lemma FourByteSequence(cp: nat, b: string)
    requires 0x10000 <= cp <= 0x10FFFF
    ensures SequenceLength(Utf8(cp) + b) == 4
    ensures SequenceScalar(Utf8(cp) + b) == cp
  {
    hide SequenceLength, SequenceScalar;
    var c1 := cp / 0x40;
    var c2 := c1 / 0x40;
    var a, x, y, z := c2 / 0x40, c2 % 0x40, c1 % 0x40, cp % 0x40;
    assert cp == 0x40 * c1 + z && c1 == 0x40 * c2 + y && c2 == 0x40 * a + x;
    FourBytes(a, x, y, z, b);
  }

  /** The bytes written for a code point form one well-formed sequence, whatever follows. */
  lemma Utf8IsOneSequence(cp: nat, b: string)
    requires IsScalar(cp)
    ensures SequenceLength(Utf8(cp) + b) == |Utf8(cp)|
    ensures SequenceScalar(Utf8(cp) + b) == cp
  {
    hide SequenceLength, SequenceScalar;
    if cp < 0x800 {
      ShortSequence(cp, b);
    } else if cp < 0x10000 {
      ThreeByteSequence(cp, b);
    } else {
      FourByteSequence(cp, b);
    }
  }

  /** The bytes written for a code point decode to it, and to nothing longer. */
  lemma Utf8Decodes(cp: nat, b: string)
    requires IsScalar(cp)
    ensures DecodeUtf8(Utf8(cp) + b) == DecodeUtf8(b).Prepend(cp)
  {
    hide SequenceLength, SequenceScalar;
    Utf8IsOneSequence(cp, b);
    assert (Utf8(cp) + b)[|Utf8(cp)|..] == b;
  }

  lemma PlainByte(c: char, u: string)
    requires c != NUL && c != '"' && c != '\\'
    ensures Unescape([c] + u) == Unescape(u).Prepend([c])
  {
    hide Utf8, Hex4;
    assert ([c] + u)[1..] == u;
  }

  lemma {:induction false} PlainBytes(bytes: string, u: string)
    requires forall i | 0 <= i < |bytes| :: bytes[i] != NUL && bytes[i] != '"' && bytes[i] != '\\'
    ensures Unescape(bytes + u) == Unescape(u).Prepend(bytes)
  {
    hide Unescape;
    if bytes == "" {
      assert bytes + u == u;
      assert Unescape(u).Literal? ==> "" + Unescape(u).text == Unescape(u).text;
    } else {
      PlainBytes(bytes[1..], u);
      PlainByte(bytes[0], bytes[1..] + u);
      assert bytes + u == [bytes[0]] + (bytes[1..] + u);
      if Unescape(u).Literal? {
        assert [bytes[0]] + (bytes[1..] + Unescape(u).text) == bytes + Unescape(u).text;
      }
    }
  }

  lemma SameHex(d: string, t: string)
    requires IsHex4(d) && |d| == 4 && |t| >= 4 && t[..4] == d
    ensures IsHex4(t) && Hex4(t) == Hex4(d)
  {
    assert forall i | 0 <= i < 4 :: t[i] == t[..4][i];
  }

  /** A `\u` escape at the front of a text is complete and holds its unit. */
  lemma UnitIsRead(unit: nat, upper: Cases, u: string)
    requires unit < 0x10000
    ensures var t := "\\u" + HexText(unit, upper) + u;
      t[0] == '\\' && t[1] == 'u' && IsHex4(t[2..]) && Hex4(t[2..]) == unit && t[6..] == u
  {
    hide Hex4, IsHex4, HexText;
    var d := HexText(unit, upper);
    var t := "\\u" + d + u;
    assert t[2..] == d + u;
    HexTextIsRead(unit, upper);
    SameHex(d, d + u);
  }

  lemma UnitDecodes(unit: nat, upper: Cases, u: string)
    requires Unit(unit, upper).Valid()
    ensures DecodeOne(Unit(unit, upper).Text() + u) == (Utf8(unit), 6)
  {
    hide Utf8, Hex4, IsHex4, HexText;
    UnitIsRead(unit, upper, u);
  }

  lemma LoneDecodes(unit: nat, upper: Cases, u: string)
    requires Lone(unit, upper).Valid()
    requires Lone(unit, upper).IsHighAlone() ==> !("\\u" <= u)
    ensures DecodeOne(Lone(unit, upper).Text() + u) == ("", 6)
  {
    hide Utf8, Hex4, IsHex4, HexText;
    UnitIsRead(unit, upper, u);
    var t := Lone(unit, upper).Text() + u;
    assert t[6..] == u && (u != "" ==> t[7..] == u[1..]);
  }

  /** The two units of a pair of escapes. */
  lemma TwoUnitsAreRead(high: nat, upper: Cases, low: nat, upper2: Cases, u: string)
    requires high < 0x10000 && low < 0x10000
    ensures var t := "\\u" + HexText(high, upper) + "\\u" + HexText(low, upper2) + u;
      && t[0] == '\\' && t[1] == 'u' && IsHex4(t[2..]) && Hex4(t[2..]) == high && t[6] == '\\' && t[7] == 'u'
      && IsHex4(t[8..]) && Hex4(t[8..]) == low && t[12..] == u
  {
    hide Hex4, IsHex4, HexText;
    var v := "\\u" + HexText(low, upper2) + u;
    var t := "\\u" + HexText(high, upper) + "\\u" + HexText(low, upper2) + u;
    assert t == "\\u" + HexText(high, upper) + v;
    UnitIsRead(high, upper, v);
    UnitIsRead(low, upper2, u);
    assert t[8..] == v[2..] && t[12..] == v[6..];
  }

  lemma PairDecodes(cp: nat, upper: Cases, upper2: Cases, u: string)
    requires Pair(cp, upper, upper2).Valid()
    ensures DecodeOne(Pair(cp, upper, upper2).Text() + u) == (Utf8(cp), 12)
  {
    hide Utf8, Hex4, IsHex4, HexText;
    var high, low := 0xD800 + (cp - 0x10000) / 0x400, 0xDC00 + (cp - 0x10000) % 0x400;
    TwoUnitsAreRead(high, upper, low, upper2, u);
    assert Combine(high, low) == cp;
  }

  lemma BrokenDecodes(s: Spelling, u: string)
    requires s.Valid() && s.Broken?
    ensures DecodeOne(s.Text() + u) == ("", 12)
  {
    hide Utf8, Hex4, IsHex4, HexText;
    TwoUnitsAreRead(s.high, s.upper, s.unit, s.upper2, u);
  }

  lemma EscapeStep(t: string, bytes: string, n: nat)
    requires t != "" && t[0] == '\\' && n > 0 && DecodeOne(t) == (bytes, n)
    ensures Unescape(t) == Unescape(t[n..]).Prepend(bytes)
  {
  }

  lemma ShortDecodes(i: nat, u: string)
    requires i < 5
    ensures DecodeOne(Short(i).Text() + u) == (Utf8(SHORT_SCALARS[i]), 2)
  {
  }

  lemma ItselfDecodes(e: char, u: string)
    requires Itself(e).Valid()
    ensures DecodeOne(Itself(e).Text() + u) == ([e], 2)
  {
    assert SHORT_LETTERS[0] == 'b' && SHORT_LETTERS[1] == 'f' && SHORT_LETTERS[2] == 'n';
    assert SHORT_LETTERS[3] == 'r' && SHORT_LETTERS[4] == 't';
  }

  /** Reading one part of a literal yields its bytes. */
  lemma SpellingDecodes(s: Spelling, u: string)
    requires s.Valid() && (s.IsHighAlone() ==> !("\\u" <= u))
    ensures Unescape(s.Text() + u) == Unescape(u).Prepend(s.Bytes())
  {
    hide Unescape, DecodeOne, Utf8, HexText;
    var t := s.Text() + u;
    match s
    case Raw(cp) => RawDecodes(cp, u);
    case Byte(c) => PlainByte(c, u);
    case Short(i) =>
      ShortDecodes(i, u);
      EscapeStep(t, Utf8(SHORT_SCALARS[i]), 2);
      assert t[2..] == u;
    case Itself(e) =>
      ItselfDecodes(e, u);
      EscapeStep(t, [e], 2);
      assert t[2..] == u;
    case Unit(unit, upper) =>
      UnitDecodes(unit, upper, u);
      EscapeStep(t, Utf8(unit), 6);
      assert t[6..] == u;
    case Pair(cp, upper, upper2) =>
      PairDecodes(cp, upper, upper2, u);
      EscapeStep(t, Utf8(cp), 12);
      assert t[12..] == u;
    case Lone(unit, upper) =>
      LoneDecodes(unit, upper, u);
      EscapeStep(t, "", 6);
      assert t[6..] == u;
    case Broken(_, _, _, _) =>
      BrokenDecodes(s, u);
      EscapeStep(t, "", 12);
      assert t[12..] == u;
  }

  lemma RawDecodes(cp: nat, u: string)
    requires Raw(cp).Valid()
    ensures Unescape(Utf8(cp) + u) == Unescape(u).Prepend(Utf8(cp))
  {
    PlainBytes(Utf8(cp), u);
  }

  lemma SpellAllSplits(ss: seq<Spelling>, u: string)
    requires AllValid(ss) && ss != []
    ensures AllValid(ss[1..]) && SpellAll(ss) + u == ss[0].Text() + (SpellAll(ss[1..]) + u)
    ensures BytesOf(ss) == ss[0].Bytes() + BytesOf(ss[1..])
  {
  }

  /** A part other than a code unit does not start with a `\u`. */
  lemma PartStarts(s: Spelling)
    requires s.Valid() && !s.IsUnit()
    ensures var t := s.Text(); t != "" && (t[0] != '\\' || (|t| == 2 && t[1] != 'u'))
  {
    hide Utf8;
    match s
    case Raw(cp) => RawStarts(cp);
    case Byte(c) =>
    case Short(i) => assert SHORT_LETTERS[i] != 'u';
    case Itself(e) =>
  }

  lemma NotUnit(t: string, u: string)
    requires t != "" && (t[0] != '\\' || (|t| == 2 && t[1] != 'u'))
    ensures !("\\u" <= t + u)
  {
    assert "\\u"[0] == '\\' && "\\u"[1] == 'u' && (t + u)[0] == t[0];
  }

  lemma NoUnitFirst(ss: seq<Spelling>, u: string)
    requires AllValid(ss) && !("\\u" <= u) && (ss != [] ==> !ss[0].IsUnit())
    ensures !("\\u" <= SpellAll(ss) + u)
  {
    hide Spelling.Text;
    if ss == [] {
      assert SpellAll(ss) + u == u;
    } else {
      SpellAllSplits(ss, u);
      PartStarts(ss[0]);
      NotUnit(ss[0].Text(), SpellAll(ss[1..]) + u);
    }
  }

  lemma RawStarts(cp: nat)
    requires Raw(cp).Valid()
    ensures Utf8(cp) != "" && Utf8(cp)[0] != '\\'
  {
  }

  /** Every literal is decoded part by part. */
  lemma {:induction false} PartsDecode(ss: seq<Spelling>, u: string)
    requires AllValid(ss) && !("\\u" <= u)
    ensures Unescape(SpellAll(ss) + u) == Unescape(u).Prepend(BytesOf(ss))
  {
    hide Unescape;
    if ss == [] {
      assert "" + u == u;
      assert Unescape(u).Literal? ==> "" + Unescape(u).text == Unescape(u).text;
    } else {
      var rest := SpellAll(ss[1..]) + u;
      SpellAllSplits(ss, u);
      if ss[0].IsHighAlone() {
        NoUnitFirst(ss[1..], u);
      }
      SpellingDecodes(ss[0], rest);
      PartsDecode(ss[1..], u);
      PrependTwice(Unescape(u), ss[0].Bytes(), BytesOf(ss[1..]));
    }
  }

  lemma CodedBytes(s: Spelling, b: string)
    requires s.Valid() && s.Coded()
    ensures forall cps :: DecodeUtf8(b) == Decoded(cps) ==> DecodeUtf8(s.Bytes() + b) == Decoded(s.Scalars() + cps)
  {
    hide DecodeUtf8, Utf8, IsScalar;
    var cps := s.Scalars();
    if cps == [] {
      assert "" + b == b;
      assert forall more: seq<nat> :: [] + more == more;
    } else {
      OneScalar(s);
      Utf8Decodes(cps[0], b);
    }
  }

  lemma OneScalar(s: Spelling)
    requires s.Valid() && s.Coded() && s.Scalars() != []
    ensures |s.Scalars()| == 1 && IsScalar(s.Scalars()[0]) && s.Bytes() == Utf8(s.Scalars()[0])
  {
  }

  lemma {:induction false} BytesAreUtf8(ss: seq<Spelling>)
    requires AllValid(ss) && AllCoded(ss)
    ensures DecodeUtf8(BytesOf(ss)) == Decoded(Scalars(ss))
  {
    if ss != [] {
      hide DecodeUtf8;
      assert AllValid(ss[1..]);
      BytesAreUtf8(ss[1..]);
      CodedBytes(ss[0], BytesOf(ss[1..]));
    }
  }

  lemma ClosingQuote(ss: seq<Spelling>, rest: string)
    requires AllValid(ss)
    ensures Unescape(SpellAll(ss) + ("\"" + rest)) == Literal(BytesOf(ss), rest)
  {
    var close := "\"" + rest;
    assert !("\\u" <= close) by { assert "\\u"[0] == '\\'; }
    PartsDecode(ss, close);
    assert close[1..] == rest;
    assert BytesOf(ss) + "" == BytesOf(ss);
  }

  /** Every literal, however its code points are spelled, is parsed to the UTF-8 text of exactly
      those code points and up to exactly the closing quote; surrogates without a partner and zeros
      among its code units are dropped. */
  lemma LiteralTranscodes(ss: seq<Spelling>, rest: string)
    requires AllValid(ss) && AllCoded(ss)
    ensures var r := Unescape(SpellAll(ss) + ("\"" + rest));
      r.Literal? && r.rest == rest && DecodeUtf8(r.text) == Decoded(Scalars(ss))
  {
    hide Unescape, DecodeUtf8;
    ClosingQuote(ss, rest);
    BytesAreUtf8(ss);
  }

  // ----- the length that is set aside -----

  /** The backslashes that start an escape. */
  function Escapes(s: Spelling): nat {
    match s
    case Raw(_) => 0
    case Byte(_) => 0
    case Pair(_, _, _) => 2
    case Broken(_, _, _, _) => 2
    case _ => 1
  }

  function EscapesIn(ss: seq<Spelling>): nat {
    if ss == [] then 0 else Escapes(ss[0]) + EscapesIn(ss[1..])
  }

  lemma CountOfPlain(bytes: string, u: string)
    requires forall i | 0 <= i < |bytes| :: bytes[i] != NUL && bytes[i] != '"' && bytes[i] != '\\'
    ensures SkipCount(bytes + u) == |bytes| + SkipCount(u)
  {
    SkipCountAhead(bytes + u, |bytes|);
    assert (bytes + u)[|bytes|..] == u;
  }

  lemma CountOfEscape(e: char, u: string)
    ensures SkipCount(['\\', e] + u) == 1 + SkipCount(u)
  {
    assert (['\\', e] + u)[2..] == u;
  }

  lemma HexIsPlain(v: nat, upper: bool)
    requires v < 16
    ensures HexChar(v, upper) != NUL && HexChar(v, upper) != '"' && HexChar(v, upper) != '\\'
  {
    HexCharIsRead(v, upper);
  }

  lemma CountOfUnit(unit: nat, upper: Cases, u: string)
    requires unit < 0x10000
    ensures SkipCount("\\u" + HexText(unit, upper) + u) == 5 + SkipCount(u)
  {
    hide HexChar, SkipCount;
    Nibbles(unit);
    HexIsPlain(unit / 0x1000, upper.c3);
    HexIsPlain(unit / 0x100 % 0x10, upper.c2);
    HexIsPlain(unit / 0x10 % 0x10, upper.c1);
    HexIsPlain(unit % 0x10, upper.c0);
    var d := HexText(unit, upper);
    CountOfPlain(d, u);
    CountOfEscape('u', d + u);
    assert "\\u" + d + u == ['\\', 'u'] + (d + u);
  }

  lemma CountOfTwoUnits(high: nat, upper: Cases, low: nat, upper2: Cases, u: string)
    requires high < 0x10000 && low < 0x10000
    ensures SkipCount("\\u" + HexText(high, upper) + "\\u" + HexText(low, upper2) + u) == 10 + SkipCount(u)
  {
    hide HexText, SkipCount;
    CountOfUnit(high, upper, "\\u" + HexText(low, upper2) + u);
    CountOfUnit(low, upper2, u);
    assert "\\u" + HexText(high, upper) + "\\u" + HexText(low, upper2) + u ==
      "\\u" + HexText(high, upper) + ("\\u" + HexText(low, upper2) + u);
  }

  lemma CountOfPart(s: Spelling, u: string)
    requires s.Valid()
    ensures SkipCount(s.Text() + u) == |s.Text()| - Escapes(s) + SkipCount(u)
  {
    hide SkipCount, Utf8, HexText;
    match s
    case Raw(cp) => RawIsPlain(cp); CountOfPlain(Utf8(cp), u);
    case Byte(c) => CountOfPlain([c], u);
    case Short(i) => CountOfEscape(SHORT_LETTERS[i], u);
    case Itself(e) => CountOfEscape(e, u);
    case Unit(unit, upper) => CountOfUnit(unit, upper, u);
    case Lone(unit, upper) => CountOfUnit(unit, upper, u);
    case Pair(cp, upper, upper2) =>
      CountOfTwoUnits(0xD800 + (cp - 0x10000) / 0x400, upper, 0xDC00 + (cp - 0x10000) % 0x400, upper2, u);
    case Broken(h, upper, unit, upper2) => CountOfTwoUnits(h, upper, unit, upper2, u);
  }

  lemma RawIsPlain(cp: nat)
    requires Raw(cp).Valid()
    ensures forall i | 0 <= i < |Utf8(cp)| :: Utf8(cp)[i] != NUL && Utf8(cp)[i] != '"' && Utf8(cp)[i] != '\\'
  {
  }

  /** The counting loop sets aside the length of the literal less one for each escape. */
  lemma {:induction false} CountedLength(ss: seq<Spelling>, rest: string)
    requires AllValid(ss)
    ensures SkipCount(SpellAll(ss) + ("\"" + rest)) == |SpellAll(ss)| - EscapesIn(ss)
  {
    var close := "\"" + rest;
    if ss == [] {
      assert SpellAll(ss) + close == close;
    } else {
      hide SkipCount, Escapes;
      SpellAllSplits(ss, close);
      CountOfPart(ss[0], SpellAll(ss[1..]) + close);
      CountedLength(ss[1..], rest);
    }
  }
}
