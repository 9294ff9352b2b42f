/** The parser accepts nothing but the texts of the grammar. */
module JsonAccepted {
  import opened CText
  import opened JsonLiteral
  import opened JsonTranscoding
  import opened JsonText
  import opened JsonNumerals
  import opened JsonGrammar
  import opened Sequences

  /** The blanks that `skip` passes over. */
  lemma SkippedBlanks(t: string) returns (blanks: string)
    requires NulFree(t)
    ensures Blanks(blanks) && t == blanks + Skip(t) && NulFree(Skip(t))
    ensures Skip(t) != "" ==> Skip(t)[0] > ' '
  {
    SkipIsExact(t);
    var k := |t| - |Skip(t)|;
    blanks := t[..k];
    assert t == t[..k] + t[k..];
    assert k < |t| ==> t[k] != NUL;
    RestNulFree(t, k);
  }

  lemma RestNulFree(t: string, k: nat)
    requires NulFree(t) && k <= |t|
    ensures NulFree(t[k..])
  {
  }

  // ----- numbers -----

  lemma {:induction false} DigitsOf(t: string) returns (ds: seq<Digit>, rest: string)
    ensures t == DigitText(ds) + rest && !IsDigit(Peek(rest))
    ensures IsDigit(Peek(t)) ==> ds != [] && ds[0] == t[0] as int - '0' as int
    ensures !IsDigit(Peek(t)) ==> ds == []
    decreases |t|
  {
    if !IsDigit(Peek(t)) {
      ds, rest := [], t;
      assert DigitText(ds) + rest == t;
    } else {
      var d: Digit := t[0] as int - '0' as int;
      var more;
      more, rest := DigitsOf(t[1..]);
      ds := [d] + more;
      DigitsAre(t[0], d);
      assert DigitText(ds) == [DIGITS[d]] + DigitText(more);
    }
  }

  lemma ExponentSplits(upper: bool, sign: Sign, ds: seq<Digit>, rest: string)
    ensures ExponentText(JsonNumerals.Exponent(upper, sign, ds)) + rest ==
      (if upper then "E" else "e") + (SignText(sign) + (DigitText(ds) + rest))
  {
    hide DigitText, SignText;
    Regroup(if upper then "E" else "e", SignText(sign) + DigitText(ds), rest);
    Regroup(SignText(sign), DigitText(ds), rest);
  }

  lemma SignOf(t: string) returns (sign: Sign, u: string)
    ensures t == SignText(sign) + u && (sign.NoSign? ==> u == t && Peek(t) != '+' && Peek(t) != '-')
  {
    if Peek(t) == '+' {
      sign, u := Plus, t[1..];
    } else if Peek(t) == '-' {
      sign, u := Minus, t[1..];
    } else {
      sign, u := NoSign, t;
    }
  }

  lemma ExponentOf(t: string) returns (e: Exponential, rest: string)
    ensures t == ExponentText(e) + rest
    ensures if e.NoExponent? then rest == t && Peek(t) != 'e' && Peek(t) != 'E'
      else !IsDigit(Peek(rest)) && (e.sign.NoSign? && e.digits == [] ==> Peek(rest) != '+' && Peek(rest) != '-')
    ensures e.Exponent? ==> Peek(t) == 'e' || Peek(t) == 'E'
  {
    if Peek(t) != 'e' && Peek(t) != 'E' {
      e, rest := NoExponent, t;
    } else {
      hide DigitText, SignText, ExponentText, IsDigit;
      assert t == (if t[0] == 'E' then "E" else "e") + t[1..];
      var sign, u := SignOf(t[1..]);
      var ds;
      ds, rest := DigitsOf(u);
      e := JsonNumerals.Exponent(t[0] == 'E', sign, ds);
      ExponentSplits(t[0] == 'E', sign, ds, rest);
      NoDigits();
      assert ds == [] ==> u == rest;
    }
  }

  lemma NoDigits()
    ensures DigitText([]) == ""
  {
  }

  lemma FractionOf(t: string) returns (ds: seq<Digit>, rest: string)
    ensures t == FractionText(ds) + rest
    ensures if ds != [] then !IsDigit(Peek(rest)) && Peek(t) == '.' else !StartsFraction(rest) && rest == t
  {
    hide DigitText;
    if StartsFraction(t) {
      ds, rest := DigitsOf(t[1..]);
      assert t == "." + (DigitText(ds) + rest);
    } else {
      ds, rest := [], t;
    }
  }

  lemma WholeOf(t: string) returns (zero: bool, ds: seq<Digit>, rest: string)
    ensures t == (if zero then "0" else "") + (DigitText(ds) + rest)
    ensures ds != [] ==> ds[0] != 0 && !IsDigit(Peek(rest))
    ensures ds == [] ==> !('1' <= Peek(rest) <= '9') && (!zero ==> Peek(rest) != '0' && rest == t)
    ensures IsDigit(Peek(t)) ==> zero || ds != []
  {
    zero := Peek(t) == '0';
    var u := if zero then t[1..] else t;
    assert t == (if zero then "0" else "") + u;
    if '1' <= Peek(u) <= '9' {
      ds, rest := DigitsOf(u);
    } else {
      ds, rest := [], u;
      assert DigitText(ds) + rest == u;
    }
  }

  lemma UnsignedSplits(n: Numeral, rest: string)
    ensures n.UnsignedText() + rest ==
      (if n.zero then "0" else "")
      + (DigitText(n.whole) + (FractionText(n.fraction) + (ExponentText(n.exponent) + rest)))
  {
    hide DigitText, FractionText, ExponentText;
    var w, f, e := DigitText(n.whole), FractionText(n.fraction), ExponentText(n.exponent);
    Regroup(if n.zero then "0" else "", w + (f + e), rest);
    Regroup(w, f + e, rest);
    Regroup(f, e, rest);
  }

  lemma NumeralEnds(n: Numeral, e: string, rest: string)
    requires if n.exponent.NoExponent? then rest == e && Peek(e) != 'e' && Peek(e) != 'E'
      else (
        && !IsDigit(Peek(rest))
        && (n.exponent.sign.NoSign? && n.exponent.digits == [] ==> Peek(rest) != '+' && Peek(rest) != '-'))
    requires if n.fraction != [] then !IsDigit(Peek(e)) else !StartsFraction(e)
    requires n.fraction == [] ==>
      if n.whole != [] then !IsDigit(Peek(e)) else !('1' <= Peek(e) <= '9') && (!n.zero ==> Peek(e) != '0')
    ensures n.Ends(rest)
  {
  }

  lemma UnsignedOf(u: string) returns (n: Numeral, rest: string)
    ensures n.Ends(rest) && u == n.UnsignedText() + rest && !n.minus
    ensures n.whole != [] ==> n.whole[0] != 0
    ensures IsDigit(Peek(u)) ==> n.zero || n.whole != []
  {
    hide DigitText, FractionText, ExponentText, Numeral.UnsignedText, Numeral.Ends, IsDigit, StartsFraction;
    var zero, whole, f := WholeOf(u);
    var fraction, e := FractionOf(f);
    var exponent;
    exponent, rest := ExponentOf(e);
    n := Numeral(false, zero, whole, fraction, exponent);
    UnsignedSplits(n, rest);
    NumeralEnds(n, e, rest);
  }

  /** Every text that starts like a number starts with a number that what follows does not extend. */
  lemma NumeralOf(t: string) returns (n: Numeral, rest: string)
    requires Peek(t) == '-' || IsDigit(Peek(t))
    ensures n.Valid() && n.Ends(rest) && t == n.Text() + rest
  {
    if Peek(t) == '-' {
      n, rest := UnsignedOf(t[1..]);
      n := n.(minus := true);
      MinusIsFree(n, rest);
      Regroup("-", n.UnsignedText(), rest);
    } else {
      n, rest := UnsignedOf(t);
      Regroup("", n.UnsignedText(), rest);
    }
  }

  lemma MinusIsFree(n: Numeral, rest: string)
    ensures n.(minus := false).UnsignedText() == n.UnsignedText()
    ensures n.(minus := false).Ends(rest) == n.Ends(rest)
  {
  }

  // ----- strings -----

  function CaseOf(c: char): bool {
    'A' <= c <= 'F'
  }

  lemma HexCharOf(c: char)
    requires HexValue(c) >= 0
    ensures HexChar(HexValue(c), CaseOf(c)) == c
  {
    HexValueIs(c, HexValue(c));
  }

  lemma NibblesOf(a: nat, b: nat, c: nat, d: nat)
    requires a < 16 && b < 16 && c < 16 && d < 16
    ensures var u := ((a * 16 + b) * 16 + c) * 16 + d;
      u / 0x1000 == a && u / 0x100 % 16 == b && u / 16 % 16 == c && u % 16 == d
  {
    var u := ((a * 16 + b) * 16 + c) * 16 + d;
    assert u / 16 == (a * 16 + b) * 16 + c && u / 0x100 == a * 16 + b;
  }

  /** Four hexadecimal digits are the text of their value. */
  lemma HexTextOf(t: string) returns (upper: Cases)
    requires IsHex4(t)
    ensures HexText(Hex4(t), upper) == t[..4]
  {
    hide HexValue, HexChar;
    upper := Cases(CaseOf(t[0]), CaseOf(t[1]), CaseOf(t[2]), CaseOf(t[3]));
    NibblesOf(HexValue(t[0]), HexValue(t[1]), HexValue(t[2]), HexValue(t[3]));
    HexCharOf(t[0]);
    HexCharOf(t[1]);
    HexCharOf(t[2]);
    HexCharOf(t[3]);
    assert t[..4] == [t[0], t[1], t[2], t[3]];
  }

  /** A `\u` escape at the front of a text. */
  lemma UnitOf(t: string) returns (upper: Cases)
    requires |t| >= 2 && t[0] == '\\' && t[1] == 'u' && IsHex4(t[2..])
    ensures |t| >= 6 && t[..6] == "\\u" + HexText(Hex4(t[2..]), upper)
  {
    hide HexText, Hex4;
    upper := HexTextOf(t[2..]);
    assert t[..6] == t[..2] + t[2..][..4];
  }

  lemma PairUnits(h: nat, l: nat)
    requires IsHigh(h) && IsLow(l)
    ensures var cp := Combine(h, l); 0xD800 + (cp - 0x10000) / 0x400 == h && 0xDC00 + (cp - 0x10000) % 0x400 == l
  {
  }

  lemma EscapeOf(t: string) returns (p: Spelling)
    requires |t| >= 2 && t[0] == '\\' && t[1] == 'u' && DecodeOne(t).1 > 0
    ensures p.Valid() && p.IsUnit() && p.Text() == t[..DecodeOne(t).1]
    ensures p.IsHighAlone() ==> !("\\u" <= t[DecodeOne(t).1..])
  {
    hide HexText, Hex4, Utf8, IsHex4;
    var upper := UnitOf(t);
    var uc := Hex4(t[2..]);
    if !IsHigh(uc) {
      p := if IsLow(uc) || uc == 0 then Lone(uc, upper) else Unit(uc, upper);
    } else if Peek(t[6..]) != '\\' || Peek(t[7..]) != 'u' {
      p := Lone(uc, upper);
      NoEscape(t[6..]);
    } else {
      var u := t[6..];
      assert u[2..] == t[8..] && u[1..] == t[7..];
      var upper2 := UnitOf(u);
      var low := Hex4(t[8..]);
      assert t[..12] == t[..6] + u[..6];
      if IsLow(low) {
        PairUnits(uc, low);
        p := Pair(Combine(uc, low), upper, upper2);
      } else {
        p := Broken(uc, upper, low, upper2);
      }
    }
  }

  lemma NoEscape(t: string)
    requires !(|t| >= 2 && t[0] == '\\' && t[1] == 'u')
    ensures !("\\u" <= t)
  {
    assert "\\u"[0] == '\\' && "\\u"[1] == 'u';
  }

  lemma ShortOf(t: string) returns (p: Spelling)
    requires |t| >= 2 && t[0] == '\\' && t[1] != 'u' && t[1] != NUL
    ensures p.Valid() && !p.IsUnit() && p.Text() == t[..2]
  {
    if t[1] in SHORT_LETTERS {
      var i :| 0 <= i < 5 && SHORT_LETTERS[i] == t[1];
      p := Short(i);
    } else {
      p := Itself(t[1]);
    }
  }

  /** What one round of the decoding loop passes over is one part of a literal. */
  lemma PartOf(t: string) returns (p: Spelling)
    requires NulFree(t) && t != "" && t[0] != '"' && DecodeOne(t).1 > 0
    ensures p.Valid() && p.Text() == t[..DecodeOne(t).1]
    ensures p.IsHighAlone() ==> !("\\u" <= t[DecodeOne(t).1..])
    ensures p.IsUnit() ==> "\\u" <= t
  {
    hide HexText, Hex4, Utf8, IsHex4;
    if t[0] != '\\' {
      p := Byte(t[0]);
      assert t[..1] == [t[0]];
    } else if t[1] != 'u' {
      p := ShortOf(t);
    } else {
      p := EscapeOf(t);
      assert t[..2] == "\\u";
    }
  }

  lemma PartsExtend(p: Spelling, parts: seq<Spelling>)
    requires p.Valid() && AllValid(parts) && (p.IsHighAlone() && parts != [] ==> !parts[0].IsUnit())
    ensures AllValid([p] + parts) && SpellAll([p] + parts) == p.Text() + SpellAll(parts)
  {
    hide Spelling.Text;
    assert ([p] + parts)[1..] == parts;
  }

  lemma Decodable(t: string)
    requires Unescape(t).Literal? && t != "" && t[0] != '"' && t[0] != NUL
    ensures DecodeOne(t).1 > 0 && Unescape(t[DecodeOne(t).1..]).Literal?
  {
    hide DecodeOne;
  }

  /** A literal, up to the quote behind it or to the end of the text. */
  ghost predicate Spelled(t: string, parts: seq<Spelling>, closed: bool, rest: string) {
    AllValid(parts) && t == SpellAll(parts) + (if closed then "\"" + rest else "") && (closed || rest == "")
  }

  lemma PartBefore(t: string, k: nat, p: Spelling, parts: seq<Spelling>, closed: bool, rest: string)
    requires k <= |t| && p.Valid() && p.Text() == t[..k] && Spelled(t[k..], parts, closed, rest)
    requires p.IsHighAlone() && parts != [] ==> !parts[0].IsUnit()
    ensures Spelled(t, [p] + parts, closed, rest)
  {
    hide AllValid, SpellAll, Spelling.Text;
    PartsExtend(p, parts);
    Regroup(t[..k], SpellAll(parts), if closed then "\"" + rest else "");
    assert t == t[..k] + t[k..];
  }

  lemma NoParts(t: string)
    ensures t == "" ==> Spelled(t, [], false, "")
    ensures t != "" && t[0] == '"' ==> Spelled(t, [], true, t[1..])
  {
  }

  /** Whatever the decoding loop accepts consists of such parts up to a quote or the end. */
  lemma {:induction false} PartsOf(t: string) returns (parts: seq<Spelling>, closed: bool, rest: string)
    requires NulFree(t) && Unescape(t).Literal?
    ensures Spelled(t, parts, closed, rest)
    ensures parts != [] && !("\\u" <= t) ==> !parts[0].IsUnit()
    decreases |t|
  {
    hide Unescape, DecodeOne, Spelled, Spelling.Text, SpellAll, AllValid;
    NoParts(t);
    if t == "" {
      parts, closed, rest := [], false, "";
    } else if t[0] == '"' {
      parts, closed, rest := [], true, t[1..];
    } else {
      assert t[0] != NUL;
      Decodable(t);
      var k := DecodeOne(t).1;
      var p := PartOf(t);
      RestNulFree(t, k);
      parts, closed, rest := PartsOf(t[k..]);
      PartBefore(t, k, p, parts, closed, rest);
      parts := [p] + parts;
    }
  }

  // ----- arrays -----

  /** The text of the grammar that a text begins with, and what follows it. */
  ghost predicate Begins(t: string, d: Doc, rest: string) {
    Valid(d) && EndsAt(d, rest) && t == Text(d) + rest
  }

  lemma ElementsParts(t: string)
    requires ParseElements(t).Parsed?
    ensures ParseValue(t).Parsed?
    ensures var u := Skip(ParseValue(t).rest);
      Peek(u) == ']' || (Peek(u) == ',' && ParseElements(Skip(u[1..])).Parsed?)
  {
    hide ParseValue;
  }

  /** Before a comma or a bracket a string is closed. */
  lemma ClosedBefore(d: Doc, rest: string)
    requires EndsAt(d, rest) && Skip(rest) != ""
    ensures Inner(d)
  {
  }

  lemma BeginsIsRead(t: string, d: Doc, rest: string)
    requires Begins(t, d, rest)
    ensures Valid(d) && ParseValue(t) == Parsed(Meaning(d), rest)
  {
    DocIsRead(d, rest);
  }

  lemma EntryTextOne(e: Entry, rest: string)
    requires ValidEntry(e)
    ensures EntriesText([e]) + rest == e.before + (Text(e.value) + (e.after + rest))
  {
    EntriesSplit([e], rest);
  }

  lemma EntryTextMore(e: Entry, es: seq<Entry>, rest: string)
    requires ValidEntry(e) && ValidEntries(es) && es != []
    ensures ValidEntries([e] + es)
    ensures EntriesText([e] + es) + rest ==
      e.before + (Text(e.value) + (e.after + ("," + (EntriesText(es) + rest))))
  {
    hide ValidEntry, EntriesText;
    assert ([e] + es)[1..] == es;
    EntriesSplit([e] + es, rest);
  }

  lemma {:induction false} EntriesOf(t: string) returns (es: seq<Entry>, rest: string)
    requires NulFree(t) && ParseElements(Skip(t)).Parsed?
    ensures es != [] && ValidEntries(es) && t == EntriesText(es) + ("]" + rest)
    decreases |t|, 2
  {
    hide ParseValue, ParseElements, EntriesText, NulFree, Text, Blanks, EndsAt;
    ElementsParts(Skip(t));
    var before := SkippedBlanks(t);
    var d, r := ValueOf(Skip(t));
    BeginsIsRead(Skip(t), d, r);
    SuffixNulFree(Text(d), r);
    var after := SkippedBlanks(r);
    ClosedBefore(d, r);
    var u := Skip(r);
    var e := Entry(before, d, after);
    assert t == before + (Text(d) + (after + u));
    assert u == [u[0]] + u[1..];
    if u[0] == ']' {
      es, rest := [e], u[1..];
      EntryTextOne(e, "]" + rest);
    } else {
      SuffixNulFree([u[0]], u[1..]);
      var more;
      more, rest := EntriesOf(u[1..]);
      es := [e] + more;
      EntryTextMore(e, more, "]" + rest);
    }
  }

  lemma SuffixNulFree(a: string, b: string)
    requires NulFree(a + b)
    ensures NulFree(b)
  {
    assert forall i | 0 <= i < |b| :: b[i] == (a + b)[|a| + i];
  }

  // ----- objects -----

  lemma MembersParts(t: string)
    requires ParseMembers(t).Parsed?
    ensures ParseMember(t).Parsed?
    ensures var u := Skip(ParseMember(t).rest);
      Peek(u) == '}' || (Peek(u) == ',' && ParseMembers(Skip(u[1..])).Parsed?)
  {
    hide ParseMember;
  }

  lemma MemberParts(t: string)
    requires ParseMember(t).Parsed?
    ensures Peek(t) == '"' && Unescape(t[1..]).Literal?
    ensures var u := Skip(Unescape(t[1..]).rest);
      && Peek(u) == ':' && ParseValue(Skip(u[1..])).Parsed?
      && ParseMember(t).rest == ParseValue(Skip(u[1..])).rest
  {
    hide ParseValue, Unescape;
  }

  lemma PartsAreRead(t: string, parts: seq<Spelling>, closed: bool, rest: string)
    requires Spelled(t, parts, closed, rest)
    ensures Unescape(t) == Literal(BytesOf(parts), rest)
  {
    hide Unescape, SpellAll, AllValid, BytesOf;
    if closed {
      ClosingQuote(parts, rest);
    } else {
      TextEnd(parts);
    }
  }

  /** The text of a field up to its value. */
  lemma KeyOf(t: string) returns (f: Field, r: string)
    requires NulFree(t) && ParseMember(t).Parsed?
    ensures AllValid(f.key) && Blanks(f.behindKey) && Blanks(f.behindColon) && Valid(f.value)
    ensures t == "\"" + (SpellAll(f.key) + ("\"" + (f.behindKey + (":" + (f.behindColon + (Text(f.value) + r))))))
    ensures ParseMember(t).rest == r && EndsAt(f.value, r)
    decreases |t|, 1
  {
    hide ParseValue, ParseMember, Unescape, NulFree, Text, Blanks, EndsAt, SpellAll, AllValid, Skip;
    MemberParts(t);
    assert t == [t[0]] + t[1..];
    SuffixNulFree([t[0]], t[1..]);
    var parts, closed, rest := PartsOf(t[1..]);
    PartsAreRead(t[1..], parts, closed, rest);
    SkipOfNothing();
    assert t[1..] == (SpellAll(parts) + "\"") + rest;
    SuffixNulFree(SpellAll(parts) + "\"", rest);
    var behindKey := SkippedBlanks(rest);
    var u := Skip(rest);
    assert u == [u[0]] + u[1..];
    SuffixNulFree([u[0]], u[1..]);
    var behindColon := SkippedBlanks(u[1..]);
    var d;
    d, r := ValueOf(Skip(u[1..]));
    BeginsIsRead(Skip(u[1..]), d, r);
    f := Field("", parts, behindKey, behindColon, d, "");
    assert u == ":" + (behindColon + (Text(d) + r));
    assert rest == behindKey + u;
  }

  lemma SkipOfNothing()
    ensures Skip("") == "" && Peek("") == NUL
  {
  }

  lemma FieldTextOne(f: Field, rest: string)
    requires ValidField(f)
    ensures FieldsText([f]) + rest ==
      f.before + ("\"" + (SpellAll(f.key) + ("\"" + (f.behindKey + (":" + (f.behindColon + (Text(f.value) +
        (f.after + rest))))))))
  {
    FieldsSplit([f], rest);
  }

  lemma FieldTextMore(f: Field, fs: seq<Field>, rest: string)
    requires ValidField(f) && ValidFields(fs) && fs != []
    ensures ValidFields([f] + fs)
    ensures FieldsText([f] + fs) + rest ==
      f.before + ("\"" + (SpellAll(f.key) + ("\"" + (f.behindKey + (":" + (f.behindColon + (Text(f.value) +
        (f.after + ("," + (FieldsText(fs) + rest))))))))))
  {
    hide ValidField, FieldsText;
    assert ([f] + fs)[1..] == fs;
    FieldsSplit([f] + fs, rest);
  }

  lemma FieldIsValid(f: Field)
    requires Blanks(f.before) && AllValid(f.key) && Blanks(f.behindKey) && Blanks(f.behindColon)
    requires Valid(f.value) && Inner(f.value) && Blanks(f.after)
    ensures ValidField(f)
  {
  }

  lemma {:induction false} FieldsOf(t: string) returns (fs: seq<Field>, rest: string)
    requires NulFree(t) && ParseMembers(Skip(t)).Parsed?
    ensures fs != [] && ValidFields(fs) && t == FieldsText(fs) + ("}" + rest)
    decreases |t|, 2
  {
    hide ParseValue, ParseMember, ParseMembers, FieldsText, NulFree, Text, Blanks, EndsAt, SpellAll, AllValid,
      ValidField;
    MembersParts(Skip(t));
    var before := SkippedBlanks(t);
    var f, r := KeyOf(Skip(t));
    var head := "\"" + SpellAll(f.key) + "\"" + f.behindKey + ":" + f.behindColon + Text(f.value);
    assert Skip(t) == head + r;
    SuffixNulFree(head, r);
    var after := SkippedBlanks(r);
    ClosedBefore(f.value, r);
    var u := Skip(r);
    f := f.(before := before, after := after);
    FieldIsValid(f);
    assert u == [u[0]] + u[1..];
    if u[0] == '}' {
      fs, rest := [f], u[1..];
      FieldTextOne(f, "}" + rest);
    } else {
      SuffixNulFree([u[0]], u[1..]);
      var more;
      more, rest := FieldsOf(u[1..]);
      fs := [f] + more;
      FieldTextMore(f, more, "}" + rest);
    }
  }

  // ----- values -----

  lemma WordOf(t: string, word: string)
    requires word <= t
    ensures t == word + t[|word|..]
  {
  }

  lemma StringOf(t: string) returns (d: Doc, rest: string)
    requires NulFree(t) && Peek(t) == '"' && Unescape(t[1..]).Literal?
    ensures Begins(t, d, rest)
  {
    hide Unescape, AllValid, SpellAll;
    assert t == "\"" + t[1..];
    SuffixNulFree("\"", t[1..]);
    var parts, closed;
    parts, closed, rest := PartsOf(t[1..]);
    d := DocString(parts, closed);
  }

  lemma {:induction false} ArrayOf(t: string) returns (d: Doc, rest: string)
    requires NulFree(t) && Peek(t) == '[' && ParseArray(t[1..]).Parsed?
    ensures Begins(t, d, rest)
    decreases |t|, 0
  {
    hide ParseElements, EntriesText, NulFree, Skip;
    assert t == "[" + t[1..];
    SuffixNulFree("[", t[1..]);
    var u := Skip(t[1..]);
    if Peek(u) == ']' {
      var blanks := SkippedBlanks(t[1..]);
      d, rest := DocArray(blanks, []), u[1..];
      assert u == "]" + rest;
    } else {
      var es;
      es, rest := EntriesOf(t[1..]);
      d := DocArray("", es);
    }
  }

  lemma {:induction false} ObjectOf(t: string) returns (d: Doc, rest: string)
    requires NulFree(t) && Peek(t) == '{' && ParseObject(t[1..]).Parsed?
    ensures Begins(t, d, rest)
    decreases |t|, 0
  {
    hide ParseMembers, FieldsText, NulFree, Skip;
    assert t == "{" + t[1..];
    SuffixNulFree("{", t[1..]);
    var u := Skip(t[1..]);
    if Peek(u) == '}' {
      var blanks := SkippedBlanks(t[1..]);
      d, rest := DocObject(blanks, []), u[1..];
      assert u == "}" + rest;
    } else {
      var fs;
      fs, rest := FieldsOf(t[1..]);
      d := DocObject("", fs);
    }
  }

  /** The kinds of text that `parse_value` tells apart. */
  lemma ValueStarts(t: string)
    requires ParseValue(t).Parsed?
    ensures if "null" <= t || "false" <= t || "true" <= t then true
      else if Peek(t) == '"' then Unescape(t[1..]).Literal?
      else if Peek(t) == '-' || IsDigit(Peek(t)) then true
      else if Peek(t) == '[' then ParseArray(t[1..]).Parsed?
      else Peek(t) == '{' && ParseObject(t[1..]).Parsed?
  {
    hide Unescape, ParseArray, ParseObject, ParseNumber;
  }

  lemma WordBegins(t: string) returns (d: Doc, rest: string)
    requires "null" <= t || "false" <= t || "true" <= t
    ensures Begins(t, d, rest)
  {
    if "null" <= t {
      d, rest := DocNull, t[4..];
      WordOf(t, "null");
    } else if "false" <= t {
      d, rest := DocFalse, t[5..];
      WordOf(t, "false");
    } else {
      d, rest := DocTrue, t[4..];
      WordOf(t, "true");
    }
  }

  lemma {:induction false} ValueOf(t: string) returns (d: Doc, rest: string)
    requires NulFree(t) && ParseValue(t).Parsed?
    ensures Begins(t, d, rest)
    decreases |t|, 1
  {
    hide ParseValue, ParseArray, ParseObject, Unescape, NulFree, Begins;
    ValueStarts(t);
    if "null" <= t || "false" <= t || "true" <= t {
      d, rest := WordBegins(t);
    } else if Peek(t) == '"' {
      d, rest := StringOf(t);
    } else if Peek(t) == '-' || IsDigit(Peek(t)) {
      d, rest := NumberBegins(t);
    } else if Peek(t) == '[' {
      d, rest := ArrayOf(t);
    } else {
      d, rest := ObjectOf(t);
    }
  }

  lemma NumberBegins(t: string) returns (d: Doc, rest: string)
    requires Peek(t) == '-' || IsDigit(Peek(t))
    ensures Begins(t, d, rest)
  {
    hide Numeral.Text, Numeral.Ends;
    var n;
    n, rest := NumeralOf(t);
    d := DocNumber(n);
  }

  /** The parser accepts exactly the texts of the grammar: a C string is read as some value up to some
      place if and only if it is a text of the grammar for this value, followed from this place on by
      something that does not go on with it. */
  lemma AcceptsExactly(t: string, v: Json, rest: string)
    requires NulFree(t)
    ensures ParseValue(t) == Parsed(v, rest) <==> exists d | Valid(d) :: Begins(t, d, rest) && Meaning(d) == v
  {
    hide ParseValue, Begins;
    if ParseValue(t) == Parsed(v, rest) {
      var d, r := ValueOf(t);
      BeginsIsRead(t, d, r);
      assert Valid(d) && Begins(t, d, rest) && Meaning(d) == v;
    }
    forall d | Valid(d) && Begins(t, d, rest) && Meaning(d) == v
      ensures ParseValue(t) == Parsed(v, rest)
    {
      BeginsIsRead(t, d, rest);
    }
  }
}
