/** Parsing undoes printing, for every value, every depth and both layouts. */
module JsonRoundTrip {
  import opened CText
  import opened Decimal
  import opened JsonLiteral
  import opened JsonLiteralProofs
  import opened JsonText

  /** The texts that `parse_number` goes on reading after the integer `n`. */
  predicate ExtendsInteger(n: int, rest: string) {
    || (IsDigit(Peek(rest)) && (n != 0 || Peek(rest) != '0'))
    || (Peek(rest) == '.' && IsDigit(Peek(rest[1..])))
    || Peek(rest) == 'e'
    || Peek(rest) == 'E'
  }

  /** The texts that, put behind a printed value, are read as part of it. */
  predicate Extends(v: Json, rest: string) {
    v.Number? && ExtendsInteger(v.value.Floor, rest)
  }

  // ----- numbers -----

  lemma AccumulateStops(n: nat, rest: string)
    requires !IsDigit(Peek(rest))
    ensures Accumulate(n, rest) == (n, rest)
  {
  }

  lemma AccumulateGoesOn(n: nat, rest: string)
    requires IsDigit(Peek(rest))
    ensures |Accumulate(n, rest).1| < |rest|
  {
  }

  /** The integer part of a printed number, and what is left of the text behind it. */
  lemma IntegerPartOfDigits(n: nat, rest: string)
    ensures IntegerPart(Digits(n) + rest) ==
      if n == 0 then (if '1' <= Peek(rest) <= '9' then Accumulate(0, rest) else (0, rest)) else Accumulate(n, rest)
  {
    var t := Digits(n) + rest;
    if n == 0 {
      assert t[1..] == rest;
    } else {
      assert t[0] == Digits(n)[0] && Digits(n)[0] in Digits(n);
      AccumulateDigits(0, n, rest);
      AppendedToZero(n);
    }
  }

  lemma UnsignedExact(n: nat, rest: string)
    requires !ExtendsInteger(n, rest)
    ensures Unsigned(Digits(n) + rest) == Tail(n, 0, 0, rest)
  {
    IntegerPartOfDigits(n, rest);
    if n != 0 {
      AccumulateStops(n, rest);
    }
  }

  lemma UnsignedOverrun(n: nat, rest: string)
    requires ExtendsInteger(n, rest)
    ensures |Unsigned(Digits(n) + rest).rest| < |rest|
  {
    IntegerPartOfDigits(n, rest);
    if IsDigit(Peek(rest)) {
      AccumulateGoesOn(n, rest);
    } else {
      AccumulateStops(n, rest);
    }
  }

  lemma NumberText(n: int, rest: string)
    ensures var t := IntText(n) + rest; var m: nat := if n < 0 then -n else n;
      && (if n < 0 then Peek(t) == '-' && t[1..] == Digits(m) + rest else IsDigit(Peek(t)) && t == Digits(m) + rest)
  {
    var m: nat := if n < 0 then -n else n;
    assert Digits(m)[0] in Digits(m);
    if n < 0 {
      assert (IntText(n) + rest)[1..] == Digits(m) + rest;
    }
  }

  /** `parse_number` undoes `%d` exactly when what follows cannot be read on. */
  lemma NumberRoundTrip(n: int, rest: string)
    ensures ParseNumber(IntText(n) + rest) == Parsed(Number(n as real), rest) <==> !ExtendsInteger(n, rest)
  {
    var m: nat := if n < 0 then -n else n;
    NumberText(n, rest);
    if ExtendsInteger(n, rest) {
      UnsignedOverrun(m, rest);
    } else {
      UnsignedExact(m, rest);
      assert Pow10(0) == 1.0;
    }
  }

  // ----- values -----

  lemma NotAWord(t: string)
    requires Peek(t) != 'n' && Peek(t) != 'f' && Peek(t) != 't'
    ensures !("null" <= t) && !("false" <= t) && !("true" <= t)
  {
    assert !("null" <= t) by { assert "null"[0] == 'n'; }
    assert !("false" <= t) by { assert "false"[0] == 'f'; }
    assert !("true" <= t) by { assert "true"[0] == 't'; }
  }

  /** A number or a literal starts with none of the characters that start something else. */
  lemma ParseValueOfNumber(t: string)
    requires Peek(t) == '-' || IsDigit(Peek(t))
    ensures ParseValue(t) == ParseNumber(t)
  {
    NotAWord(t);
  }

  lemma ParseValueOfQuote(u: string)
    ensures ParseValue("\"" + u) ==
      match Unescape(u)
      case Literal(s, rest) => Parsed(String(s), rest)
      case Unmodelled => Parsed<Json>.Unmodelled
  {
    var t := "\"" + u;
    assert t[1..] == u;
    NotAWord(t);
  }

  lemma ParseValueOfString(s: string, rest: string)
    requires NulFree(s)
    ensures ParseValue(PrintLiteral(s) + rest) == Parsed(String(s), rest)
  {
    hide Escape, Unescape, ParseValue, NulFree;
    var u := Escape(s) + ("\"" + rest);
    LiteralRoundTrip(s, rest);
    assert PrintLiteral(s) + rest == "\"" + u;
    ParseValueOfQuote(u);
  }

  lemma ParseValueOfArray(u: string)
    ensures ParseValue("[" + u) == ParseArray(u)
  {
    var t := "[" + u;
    assert t[1..] == u;
    NotAWord(t);
  }

  lemma ParseValueOfObject(u: string)
    ensures ParseValue("{" + u) == ParseObject(u)
  {
    var t := "{" + u;
    assert t[1..] == u;
    NotAWord(t);
  }

  /** The first character of a printed value is neither blank nor a closing bracket. */
  lemma PrintStarts(v: Json, depth: nat, fmt: bool)
    ensures Print(v, depth, fmt) != ""
    ensures var c := Print(v, depth, fmt)[0]; c > ' ' && c != ']' && c != '}'
  {
    if v.Number? {
      assert IntText(v.value.Floor)[0] == '-' || IsDigit(IntText(v.value.Floor)[0]);
    }
  }

  // ----- arrays -----

  lemma LastElement(t: string, v: Json, rest: string)
    requires ParseValue(t) == Parsed(v, "]" + rest)
    ensures ParseElements(t) == Parsed([v], rest)
  {
    hide ParseValue;
    assert ("]" + rest)[1..] == rest;
  }

  lemma MoreElements(t: string, v: Json, u: string, vs: seq<Json>, rest: string)
    requires ParseValue(t) == Parsed(v, "," + u)
    requires ParseElements(Skip(u)) == Parsed(vs, rest)
    ensures ParseElements(t) == Parsed([v] + vs, rest)
  {
    hide ParseValue;
    assert Skip("," + u) == "," + u;
    assert ("," + u)[1..] == u;
  }

  lemma PrintItemsSplits(items: seq<Json>, depth: nat, fmt: bool, close: string)
    requires items != []
    ensures var head := Print(items[0], depth, fmt);
      PrintItems(items, depth, fmt) + close ==
        if |items| == 1 then head + close
        else head + ("," + (Layout(fmt, " ") + (PrintItems(items[1..], depth, fmt) + close)))
  {
  }

  /** A printed list of entries starts with the first character of its first entry. */
  lemma ItemsAfterBlank(items: seq<Json>, depth: nat, fmt: bool, close: string)
    requires items != []
    ensures var t := PrintItems(items, depth, fmt) + close; Skip(t) == t == Skip(Layout(fmt, " ") + t) && Peek(t) != ']'
  {
    var t := PrintItems(items, depth, fmt) + close;
    PrintItemsSplits(items, depth, fmt, close);
    PrintStarts(items[0], depth, fmt);
    SkipBlanks(Layout(fmt, " "), t);
  }

  lemma {:induction false} ElementsRoundTrip(items: seq<Json>, depth: nat, fmt: bool, rest: string)
    requires items != [] && Printable(Array(items))
    ensures ParseElements(PrintItems(items, depth, fmt) + ("]" + rest)) == Parsed(items, rest)
    decreases items, 0
  {
    hide ParseElements, PrintItems, ParseValue, Print, Unescape, Skip;
    var v, close := items[0], "]" + rest;
    var t := PrintItems(items, depth, fmt) + close;
    PrintItemsSplits(items, depth, fmt, close);
    if |items| == 1 {
      RoundTrip(v, depth, fmt, close);
      LastElement(t, v, rest);
      assert items == [v];
    } else {
      var more := PrintItems(items[1..], depth, fmt) + close;
      var u := Layout(fmt, " ") + more;
      RoundTrip(v, depth, fmt, "," + u);
      ItemsAfterBlank(items[1..], depth, fmt, close);
      ElementsRoundTrip(items[1..], depth, fmt, rest);
      MoreElements(t, v, u, items[1..], rest);
      assert [v] + items[1..] == items;
    }
  }

  // ----- objects -----

  lemma LastMember(t: string, m: Member, blanks: string, rest: string)
    requires ParseMember(t) == Parsed(m, blanks + ("}" + rest))
    requires forall c | c in blanks :: NUL < c <= ' '
    ensures ParseMembers(t) == Parsed([m], rest)
  {
    hide ParseMember;
    SkipBlanks(blanks, "}" + rest);
    assert ("}" + rest)[1..] == rest;
  }

  lemma MoreMembers(t: string, m: Member, u: string, ms: seq<Member>, rest: string)
    requires ParseMember(t) == Parsed(m, "," + u)
    requires ParseMembers(Skip(u)) == Parsed(ms, rest)
    ensures ParseMembers(t) == Parsed([m] + ms, rest)
  {
    hide ParseMember;
    assert Skip("," + u) == "," + u;
    assert ("," + u)[1..] == u;
  }

  lemma MemberIsRead(key: string, v: Json, blanks: string, text: string, rest: string)
    requires NulFree(key) && Peek(text) > ' '
    requires forall c | c in blanks :: NUL < c <= ' '
    requires ParseValue(text) == Parsed(v, rest)
    ensures ParseMember(PrintLiteral(key) + (":" + (blanks + text))) == Parsed(Member(key, v), rest)
  {
    var colon := ":" + (blanks + text);
    var u := Escape(key) + ("\"" + colon);
    LiteralRoundTrip(key, colon);
    assert PrintLiteral(key) + colon == "\"" + u;
    assert ("\"" + u)[1..] == u;
    assert colon[1..] == blanks + text;
    SkipBlanks(blanks, text);
  }

  lemma LiteralStarts(key: string, u: string)
    ensures Skip(PrintLiteral(key) + u) == PrintLiteral(key) + u
    ensures Peek(PrintLiteral(key) + u) == '"'
  {
    assert (PrintLiteral(key) + u)[0] == '"';
  }

  lemma PrintMemberSplits(m: Member, depth: nat, fmt: bool, rest: string)
    ensures PrintMember(m, depth, fmt) + rest ==
      Layout(fmt, Tabs(depth))
      + (PrintLiteral(m.key) + (":" + (Layout(fmt, "\t") + (Print(m.value, depth, fmt) + rest))))
  {
  }

  lemma {:induction false} MemberRoundTrip(m: Member, depth: nat, fmt: bool, rest: string)
    requires NulFree(m.key) && Printable(m.value) && !Extends(m.value, rest)
    ensures ParseMember(Skip(PrintMember(m, depth, fmt) + rest)) == Parsed(m, rest)
    decreases m, 0
  {
    hide ParseMember, PrintMember, ParseValue, Print, PrintLiteral;
    var text := Print(m.value, depth, fmt) + rest;
    var body := PrintLiteral(m.key) + (":" + (Layout(fmt, "\t") + text));
    PrintMemberSplits(m, depth, fmt, rest);
    SkipBlanks(Layout(fmt, Tabs(depth)), body);
    LiteralStarts(m.key, ":" + (Layout(fmt, "\t") + text));
    RoundTrip(m.value, depth, fmt, rest);
    PrintStarts(m.value, depth, fmt);
    MemberIsRead(m.key, m.value, Layout(fmt, "\t"), text, rest);
  }

  lemma PrintMembersSplits(ms: seq<Member>, depth: nat, fmt: bool, close: string)
    requires ms != []
    ensures var head, line := PrintMember(ms[0], depth, fmt), Layout(fmt, "\n");
      PrintMembers(ms, depth, fmt) + close ==
        if |ms| == 1 then head + (line + close)
        else head + ("," + (line + (PrintMembers(ms[1..], depth, fmt) + close)))
  {
    hide PrintMember;
    if |ms| == 1 {
      assert PrintMembers(ms[1..], depth, fmt) == "";
    }
  }

  lemma {:induction false} OneMemberRoundTrip(m: Member, depth: nat, fmt: bool, blanks: string, rest: string)
    requires NulFree(m.key) && Printable(m.value)
    requires forall c | c in blanks :: c == '\t'
    ensures ParseMembers(Skip(PrintMember(m, depth, fmt) + (Layout(fmt, "\n") + (blanks + ("}" + rest))))) ==
      Parsed([m], rest)
    decreases m, 1
  {
    hide ParseMembers, ParseMember, PrintMember, Skip, Printable;
    var line, close := Layout(fmt, "\n"), blanks + ("}" + rest);
    assert line + close == (line + blanks) + ("}" + rest);
    assert blanks != "" ==> blanks[0] in blanks;
    assert Peek(line + close) in "\n\t}";
    MemberRoundTrip(m, depth, fmt, line + close);
    LastMember(Skip(PrintMember(m, depth, fmt) + (line + close)), m, line + blanks, rest);
  }

  lemma {:induction false} MembersRoundTrip(ms: seq<Member>, depth: nat, fmt: bool, blanks: string, rest: string)
    requires ms != [] && Printable(Object(ms))
    requires forall c | c in blanks :: c == '\t'
    ensures ParseMembers(Skip(PrintMembers(ms, depth, fmt) + (blanks + ("}" + rest)))) == Parsed(ms, rest)
    decreases ms, 0
  {
    hide ParseMembers, PrintMembers, ParseMember, PrintMember, Print, ParseValue, Skip;
    var m, close := ms[0], blanks + ("}" + rest);
    PrintMembersSplits(ms, depth, fmt, close);
    if |ms| == 1 {
      OneMemberRoundTrip(m, depth, fmt, blanks, rest);
      assert ms == [m];
    } else {
      var line, more := Layout(fmt, "\n"), PrintMembers(ms[1..], depth, fmt) + close;
      var t := PrintMember(m, depth, fmt) + ("," + (line + more));
      MemberRoundTrip(m, depth, fmt, "," + (line + more));
      MembersRoundTrip(ms[1..], depth, fmt, blanks, rest);
      SkipBlanks(line, more);
      MoreMembers(Skip(t), m, line + more, ms[1..], rest);
      assert [m] + ms[1..] == ms;
    }
  }

  // ----- the main result -----

  lemma {:induction false} ArrayRoundTrip(items: seq<Json>, depth: nat, fmt: bool, rest: string)
    requires items != [] && Printable(Array(items))
    ensures ParseArray(PrintItems(items, depth, fmt) + ("]" + rest)) == Parsed(Array(items), rest)
    decreases items, 1
  {
    hide PrintItems, ParseElements, Printable;
    ElementsRoundTrip(items, depth, fmt, rest);
    ItemsAfterBlank(items, depth, fmt, "]" + rest);
  }

  lemma EmptyArray(rest: string)
    ensures ParseArray("]" + rest) == Parsed(Array([]), rest)
  {
    assert ("]" + rest)[1..] == rest;
  }

  lemma {:induction false} ObjectRoundTrip(ms: seq<Member>, depth: nat, fmt: bool, blanks: string, rest: string)
    requires ms != [] && Printable(Object(ms))
    requires forall c | c in blanks :: c == '\t'
    ensures ParseObject(Layout(fmt, "\n") + (PrintMembers(ms, depth, fmt) + (blanks + ("}" + rest)))) ==
      Parsed(Object(ms), rest)
    decreases ms, 1
  {
    hide ParseMembers, Printable, PrintMembers;
    var close := blanks + ("}" + rest);
    SkipBlanks(Layout(fmt, "\n"), PrintMembers(ms, depth, fmt) + close);
    MembersRoundTrip(ms, depth, fmt, blanks, rest);
    MembersStart(ms, depth, fmt, close);
  }

  lemma EmptyObject(blanks: string, rest: string)
    requires forall c | c in blanks :: NUL < c <= ' '
    ensures ParseObject(blanks + ("}" + rest)) == Parsed(Object([]), rest)
  {
    SkipBlanks(blanks, "}" + rest);
    assert ("}" + rest)[1..] == rest;
  }

  lemma MembersStart(ms: seq<Member>, depth: nat, fmt: bool, close: string)
    requires ms != []
    ensures Peek(Skip(PrintMembers(ms, depth, fmt) + close)) == '"'
  {
    hide Print, PrintMembers;
    PrintMembersSplits(ms, depth, fmt, close);
    var u := if |ms| == 1 then Layout(fmt, "\n") + close
             else "," + (Layout(fmt, "\n") + (PrintMembers(ms[1..], depth, fmt) + close));
    PrintMemberSplits(ms[0], depth, fmt, u);
    var text := ":" + (Layout(fmt, "\t") + (Print(ms[0].value, depth, fmt) + u));
    SkipBlanks(Layout(fmt, Tabs(depth)), PrintLiteral(ms[0].key) + text);
    LiteralStarts(ms[0].key, text);
  }

  /** Whatever is printed is read back as the same value, and reading stops exactly behind it. */
  lemma {:induction false} RoundTrip(v: Json, depth: nat, fmt: bool, rest: string)
    requires Printable(v) && !Extends(v, rest)
    ensures ParseValue(Print(v, depth, fmt) + rest) == Parsed(v, rest)
    decreases v
  {
    match v
    case Null => assert ("null" + rest)[4..] == rest;
    case False => WordRoundTrip(rest);
    case True => WordRoundTrip(rest);
    case Number(d) =>
      NumberText(d.Floor, rest);
      ParseValueOfNumber(IntText(d.Floor) + rest);
      NumberRoundTrip(d.Floor, rest);
    case String(s) => ParseValueOfString(s, rest);
    case Array(items) => RoundTripArray(items, depth, fmt, rest);
    case Object(ms) => RoundTripObject(ms, depth, fmt, rest);
  }

  lemma WordRoundTrip(rest: string)
    ensures ParseValue("false" + rest) == Parsed(False, rest)
    ensures ParseValue("true" + rest) == Parsed(True, rest)
  {
    var f, t := "false" + rest, "true" + rest;
    assert f[5..] == rest && t[4..] == rest;
    assert !("null" <= f) && !("null" <= t) by { assert "null"[0] == 'n'; }
    assert !("false" <= t) by { assert "false"[0] == 'f'; }
  }

  lemma {:induction false} RoundTripArray(items: seq<Json>, depth: nat, fmt: bool, rest: string)
    requires Printable(Array(items))
    ensures ParseValue(Print(Array(items), depth, fmt) + rest) == Parsed(Array(items), rest)
    decreases items, 2
  {
    hide PrintItems, ParseValue, ParseArray, Printable;
    var u := if items == [] then "]" + rest else PrintItems(items, depth + 1, fmt) + ("]" + rest);
    assert Print(Array(items), depth, fmt) + rest == "[" + u;
    ParseValueOfArray(u);
    if items == [] {
      EmptyArray(rest);
    } else {
      ArrayRoundTrip(items, depth + 1, fmt, rest);
    }
  }

  lemma PrintObjectSplits(ms: seq<Member>, depth: nat, fmt: bool, rest: string)
    ensures Print(Object(ms), depth, fmt) + rest == "{" +
      if ms == [] then Layout(fmt, "\n" + Tabs(depth - 1)) + ("}" + rest)
      else Layout(fmt, "\n") + (PrintMembers(ms, depth + 1, fmt) + (Layout(fmt, Tabs(depth)) + ("}" + rest)))
  {
    hide PrintMembers, Tabs;
  }

  lemma {:induction false} RoundTripObject(ms: seq<Member>, depth: nat, fmt: bool, rest: string)
    requires Printable(Object(ms))
    ensures ParseValue(Print(Object(ms), depth, fmt) + rest) == Parsed(Object(ms), rest)
    decreases ms, 2
  {
    hide ParseValue, ParseObject, Printable, PrintMembers, Print;
    PrintObjectSplits(ms, depth, fmt, rest);
    if ms == [] {
      var blanks := Layout(fmt, "\n" + Tabs(depth - 1));
      ParseValueOfObject(blanks + ("}" + rest));
      EmptyObject(blanks, rest);
    } else {
      var blanks := Layout(fmt, Tabs(depth));
      ParseValueOfObject(Layout(fmt, "\n") + (PrintMembers(ms, depth + 1, fmt) + (blanks + ("}" + rest))));
      ObjectRoundTrip(ms, depth + 1, fmt, blanks, rest);
    }
  }

  /** For every printable value the text that follows is left alone if and only if it does not
      go on as a number; no other kind of value depends on what follows. */
  lemma ParseUndoesPrint(v: Json, depth: nat, fmt: bool, rest: string)
    requires Printable(v)
    ensures ParseValue(Print(v, depth, fmt) + rest) == Parsed(v, rest) <==> !Extends(v, rest)
  {
    if Extends(v, rest) {
      NumberText(v.value.Floor, rest);
      ParseValueOfNumber(IntText(v.value.Floor) + rest);
      NumberRoundTrip(v.value.Floor, rest);
    } else {
      RoundTrip(v, depth, fmt, rest);
    }
  }

  /** A printed value alone is read back to the end, also behind the `skip` of the parser. */
  lemma PrintedIsRead(v: Json, fmt: bool)
    requires Printable(v)
    ensures ParseValue(Skip(Print(v, 0, fmt))) == Parsed(v, "")
  {
    hide ParseValue, Printable;
    var text := Print(v, 0, fmt);
    PrintStarts(v, 0, fmt);
    NoExtension(v);
    RoundTrip(v, 0, fmt, "");
    assert text + "" == text && Skip(text) == text;
  }

  lemma NoExtension(v: Json)
    ensures !Extends(v, "")
  {
  }
}
