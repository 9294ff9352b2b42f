/** The exact text of a printed value. The reference knows nothing of values: it goes over a list of
    tokens once, keeping a stack of the open brackets, and lays out each token by its rules. */
module JsonLayout {
  import opened Decimal
  import opened JsonLiteral
  import opened JsonText
  import opened Sequences

  /** An opening or closing bracket is curly or square. */
  datatype Token = Open(curly: bool) | Close(curly: bool) | Comma | Colon | EmptyObject | Leaf(text: string)

  /** The tokens of a value. */
  function Tokens(v: Json): seq<Token>
    decreases v, 0
  {
    match v
    case Null => [Leaf("null")]
    case False => [Leaf("false")]
    case True => [Leaf("true")]
    case Number(d) => [Leaf(IntText(d.Floor))]
    case String(s) => [Leaf(PrintLiteral(s))]
    case Array(items) => if items == [] then [Leaf("[]")] else [Open(false)] + (ItemTokens(items) + [Close(false)])
    case Object(ms) => if ms == [] then [EmptyObject] else [Open(true)] + (MemberTokens(ms) + [Close(true)])
  }

  function ItemTokens(items: seq<Json>): seq<Token>
    decreases items
  {
    if items == [] then []
    else Tokens(items[0]) + (if |items| == 1 then [] else [Comma] + ItemTokens(items[1..]))
  }

  function MemberTokens(ms: seq<Member>): seq<Token>
    decreases ms
  {
    if ms == [] then []
    else [Leaf(PrintLiteral(ms[0].key)), Colon] + (MemberRest(ms))
  }

  /** The tokens from the first value on. */
  function MemberRest(ms: seq<Member>): seq<Token>
    requires ms != []
    decreases ms, 0
  {
    Tokens(ms[0].value) + (if |ms| == 1 then [] else [Comma] + MemberTokens(ms[1..]))
  }

  /** A line break and tabs, in formatted text. */
  function Line(tabs: int, fmt: bool): string {
    Layout(fmt, "\n" + Tabs(tabs))
  }

  /** The text of one token where `n` brackets are open, the innermost one curly or not. In an object
      every member and the closing bracket start a line, indented by a tab for each bracket around
      them; in an array a blank follows every comma; a tab follows every colon. */
  function Laid(t: Token, inCurly: bool, n: int, fmt: bool): string {
    match t
    case Open(curly) => if curly then "{" + Line(n + 1, fmt) else "["
    case Close(curly) => if curly then Line(n - 1, fmt) + "}" else "]"
    case Comma => "," + if inCurly then Line(n, fmt) else Layout(fmt, " ")
    case Colon => ":" + Layout(fmt, "\t")
    case EmptyObject => "{" + Line(n - 1, fmt) + "}"
    case Leaf(text) => text
  }

  /** The stack behind a token. */
  function Behind(t: Token, open: seq<bool>): seq<bool> {
    match t
    case Open(curly) => open + [curly]
    case Close(_) => if open == [] then [] else open[..|open| - 1]
    case _ => open
  }

  /** The text of all tokens, in a place that is `depth` brackets deep already. */
  function Render(ts: seq<Token>, open: seq<bool>, depth: nat, fmt: bool): string
    decreases |ts|
  {
    if ts == [] then ""
    else
      Laid(ts[0], open != [] && open[|open| - 1], depth + |open|, fmt)
      + Render(ts[1..], Behind(ts[0], open), depth, fmt)
  }

  lemma RenderOne(t: Token, ts: seq<Token>, open: seq<bool>, depth: nat, fmt: bool)
    ensures Render([t] + ts, open, depth, fmt) ==
      Laid(t, open != [] && open[|open| - 1], depth + |open|, fmt) + Render(ts, Behind(t, open), depth, fmt)
  {
    assert ([t] + ts)[1..] == ts;
  }

  // ----- arrays -----

  lemma ItemTokensSplit(items: seq<Json>, ts: seq<Token>)
    requires items != []
    ensures ItemTokens(items) + ts ==
      Tokens(items[0]) + (if |items| == 1 then ts else [Comma] + (ItemTokens(items[1..]) + ts))
  {
    hide Tokens;
    if |items| == 1 {
      assert Tokens(items[0]) + [] == Tokens(items[0]);
    } else {
      Regroup(Tokens(items[0]), [Comma] + ItemTokens(items[1..]), ts);
      Regroup([Comma], ItemTokens(items[1..]), ts);
    }
  }

  lemma PrintItemsStep(items: seq<Json>, depth: nat, fmt: bool, rest: string)
    requires items != []
    ensures PrintItems(items, depth, fmt) + rest ==
      Print(items[0], depth, fmt)
      + (if |items| == 1 then rest else ("," + Layout(fmt, " ")) + (PrintItems(items[1..], depth, fmt) + rest))
  {
    hide Print;
    var p := Print(items[0], depth, fmt);
    if |items| == 1 {
      assert p + "" == p;
    } else {
      var more := PrintItems(items[1..], depth, fmt);
      Regroup(p, "," + Layout(fmt, " ") + more, rest);
      Regroup("," + Layout(fmt, " "), more, rest);
    }
  }

  lemma {:induction false} ItemsAreLaid(items: seq<Json>, ts: seq<Token>, open: seq<bool>, depth: nat, fmt: bool)
    requires items != [] && open != [] && !open[|open| - 1]
    ensures Render(ItemTokens(items) + ts, open, depth, fmt) ==
      PrintItems(items, depth + |open|, fmt) + Render(ts, open, depth, fmt)
    decreases items, 0
  {
    hide Tokens, ItemTokens, Render, Print, PrintItems, Layout;
    var rest := Render(ts, open, depth, fmt);
    ItemTokensSplit(items, ts);
    PrintItemsStep(items, depth + |open|, fmt, rest);
    if |items| == 1 {
      ValueIsLaid(items[0], ts, open, depth, fmt);
    } else {
      var more := ItemTokens(items[1..]) + ts;
      ValueIsLaid(items[0], [Comma] + more, open, depth, fmt);
      RenderOne(Comma, more, open, depth, fmt);
      ItemsAreLaid(items[1..], ts, open, depth, fmt);
    }
  }

  lemma {:induction false} ArrayIsLaid(items: seq<Json>, ts: seq<Token>, open: seq<bool>, depth: nat, fmt: bool)
    requires items != []
    ensures Render(Tokens(Array(items)) + ts, open, depth, fmt) ==
      Print(Array(items), depth + |open|, fmt) + Render(ts, open, depth, fmt)
    decreases items, 1
  {
    hide ItemTokens, Render, PrintItems;
    var inside := open + [false];
    var close := [Close(false)] + ts;
    Regroup([Open(false)], ItemTokens(items) + [Close(false)], ts);
    Regroup(ItemTokens(items), [Close(false)], ts);
    RenderOne(Open(false), ItemTokens(items) + close, open, depth, fmt);
    ItemsAreLaid(items, close, inside, depth, fmt);
    RenderOne(Close(false), ts, inside, depth, fmt);
    assert inside[..|inside| - 1] == open;
    var text, rest := PrintItems(items, depth + |open| + 1, fmt), Render(ts, open, depth, fmt);
    Regroup("[" + text, "]", rest);
    Regroup("[", text, "]" + rest);
  }

  // ----- objects -----

  lemma MemberTokensSplit(ms: seq<Member>, ts: seq<Token>)
    requires ms != []
    ensures MemberTokens(ms) + ts == [Leaf(PrintLiteral(ms[0].key))] + ([Colon] + (MemberRest(ms) + ts))
    ensures MemberRest(ms) + ts ==
      Tokens(ms[0].value) + (if |ms| == 1 then ts else [Comma] + (MemberTokens(ms[1..]) + ts))
  {
    hide Tokens, PrintLiteral, MemberTokens;
    KeyTokens(ms, ts);
    var v := Tokens(ms[0].value);
    if |ms| == 1 {
      assert v + [] == v;
    } else {
      Regroup(v, [Comma] + MemberTokens(ms[1..]), ts);
      Regroup([Comma], MemberTokens(ms[1..]), ts);
    }
  }

  lemma KeyTokens(ms: seq<Member>, ts: seq<Token>)
    requires ms != []
    ensures MemberTokens(ms) + ts == [Leaf(PrintLiteral(ms[0].key))] + ([Colon] + (MemberRest(ms) + ts))
  {
    hide MemberRest, PrintLiteral;
  }

  /** A member without the tabs before it. */
  function MemberText(m: Member, depth: nat, fmt: bool): string {
    PrintLiteral(m.key) + ((":" + Layout(fmt, "\t")) + Print(m.value, depth, fmt))
  }

  lemma MemberTextOf(m: Member, depth: nat, fmt: bool)
    ensures PrintMember(m, depth, fmt) == Layout(fmt, Tabs(depth)) + MemberText(m, depth, fmt)
  {
    hide Print, PrintLiteral, Tabs;
    var t, k, c, v := Layout(fmt, Tabs(depth)), PrintLiteral(m.key), Layout(fmt, "\t"), Print(m.value, depth, fmt);
    Regroup(t + k, ":" + c, v);
    Regroup(t + k, ":", c);
    Regroup(t, k, (":" + c) + v);
  }

  /** The lines of the members: the text behind the tabs of the first line, up to the line break
      before the closing bracket. */
  lemma PrintMembersStep(ms: seq<Member>, depth: nat, fmt: bool, rest: string)
    requires ms != []
    ensures var tabs, line := Layout(fmt, Tabs(depth)), Layout(fmt, "\n");
      PrintMembers(ms, depth, fmt) + rest ==
        tabs + (MemberText(ms[0], depth, fmt) +
          (if |ms| == 1 then line + rest else "," + (line + (PrintMembers(ms[1..], depth, fmt) + rest))))
  {
    hide PrintMember, MemberText, Tabs;
    var tabs, line, m := Layout(fmt, Tabs(depth)), Layout(fmt, "\n"), MemberText(ms[0], depth, fmt);
    MemberTextOf(ms[0], depth, fmt);
    if |ms| == 1 {
      assert PrintMembers(ms[1..], depth, fmt) == "";
      assert PrintMembers(ms, depth, fmt) == (tabs + m) + line;
      Regroup(tabs + m, line, rest);
      Regroup(tabs, m, line + rest);
    } else {
      var more := PrintMembers(ms[1..], depth, fmt);
      assert PrintMembers(ms, depth, fmt) == (tabs + m) + "," + line + more;
      Regroup((tabs + m) + "," + line, more, rest);
      Regroup((tabs + m) + ",", line, more + rest);
      Regroup(tabs + m, ",", line + (more + rest));
      Regroup(tabs, m, "," + (line + (more + rest)));
    }
  }

  lemma LineIs(n: int, fmt: bool)
    ensures Line(n, fmt) == Layout(fmt, "\n") + Layout(fmt, Tabs(n))
  {
  }

  lemma {:induction false} MemberIsLaid(ms: seq<Member>, ts: seq<Token>, open: seq<bool>, depth: nat, fmt: bool)
    requires ms != []
    ensures var n := depth + |open|;
      Render(MemberTokens(ms) + ts, open, depth, fmt) ==
        MemberText(ms[0], n, fmt)
        + Render(if |ms| == 1 then ts else [Comma] + (MemberTokens(ms[1..]) + ts), open, depth, fmt)
    decreases ms, 0
  {
    hide Tokens, MemberTokens, MemberRest, Render, Print, PrintLiteral, Layout;
    var n := depth + |open|;
    var tail := if |ms| == 1 then ts else [Comma] + (MemberTokens(ms[1..]) + ts);
    MemberTokensSplit(ms, ts);
    RenderOne(Leaf(PrintLiteral(ms[0].key)), [Colon] + (MemberRest(ms) + ts), open, depth, fmt);
    RenderOne(Colon, MemberRest(ms) + ts, open, depth, fmt);
    ValueIsLaid(ms[0].value, tail, open, depth, fmt);
    var colon, v, rest := ":" + Layout(fmt, "\t"), Print(ms[0].value, n, fmt), Render(tail, open, depth, fmt);
    Regroup(colon, v, rest);
    Regroup(PrintLiteral(ms[0].key), colon + v, rest);
  }

  /** The members of an object and its closing bracket, behind the tabs of the first line. */
  lemma {:induction false} MembersAreLaid(ms: seq<Member>, ts: seq<Token>, open: seq<bool>, depth: nat, fmt: bool)
    requires ms != [] && open != [] && open[|open| - 1]
    ensures var n := depth + |open|;
      Layout(fmt, Tabs(n)) + Render(MemberTokens(ms) + ([Close(true)] + ts), open, depth, fmt) ==
        PrintMembers(ms, n, fmt)
        + (Layout(fmt, Tabs(n - 1)) + ("}" + Render(ts, open[..|open| - 1], depth, fmt)))
    decreases ms, 1
  {
    hide MemberTokens, Render, PrintMembers, MemberText, Layout, Tabs, Line;
    var n, close := depth + |open|, [Close(true)] + ts;
    var rest := "}" + Render(ts, open[..|open| - 1], depth, fmt);
    var end := Layout(fmt, Tabs(n - 1)) + rest;
    MemberIsLaid(ms, close, open, depth, fmt);
    PrintMembersStep(ms, n, fmt, end);
    var line := Layout(fmt, "\n");
    if |ms| == 1 {
      RenderOne(Close(true), ts, open, depth, fmt);
      LineIs(n - 1, fmt);
      Regroup(Line(n - 1, fmt), "}", Render(ts, open[..|open| - 1], depth, fmt));
      Regroup(line, Layout(fmt, Tabs(n - 1)), rest);
    } else {
      var more := Render(MemberTokens(ms[1..]) + close, open, depth, fmt);
      RenderOne(Comma, MemberTokens(ms[1..]) + close, open, depth, fmt);
      MembersAreLaid(ms[1..], ts, open, depth, fmt);
      LineIs(n, fmt);
      Regroup(",", line + Layout(fmt, Tabs(n)), more);
      Regroup(line, Layout(fmt, Tabs(n)), more);
    }
  }

  lemma {:induction false} ObjectIsLaid(ms: seq<Member>, ts: seq<Token>, open: seq<bool>, depth: nat, fmt: bool)
    requires ms != []
    ensures Render(Tokens(Object(ms)) + ts, open, depth, fmt) ==
      Print(Object(ms), depth + |open|, fmt) + Render(ts, open, depth, fmt)
    decreases ms, 2
  {
    hide MemberTokens, Render, PrintMembers, Layout, Tabs, Line;
    var inside, n := open + [true], depth + |open|;
    var close := [Close(true)] + ts;
    Regroup([Open(true)], MemberTokens(ms) + [Close(true)], ts);
    Regroup(MemberTokens(ms), [Close(true)], ts);
    RenderOne(Open(true), MemberTokens(ms) + close, open, depth, fmt);
    MembersAreLaid(ms, ts, inside, depth, fmt);
    assert inside[..|inside| - 1] == open;
    LineIs(n + 1, fmt);
    var line, tabs := Layout(fmt, "\n"), Layout(fmt, Tabs(n + 1));
    var more := Render(MemberTokens(ms) + close, inside, depth, fmt);
    Regroup("{", line + tabs, more);
    Regroup(line, tabs, more);
    var text, end, rest := PrintMembers(ms, n + 1, fmt), Layout(fmt, Tabs(n)), Render(ts, open, depth, fmt);
    Regroup("{" + line + text + end, "}", rest);
    Regroup("{" + line + text, end, "}" + rest);
    Regroup("{" + line, text, end + ("}" + rest));
    Regroup("{", line, text + (end + ("}" + rest)));
  }

  // ----- values -----

  lemma LeafIsLaid(t: Token, text: string, ts: seq<Token>, open: seq<bool>, depth: nat, fmt: bool)
    requires !t.Open? && !t.Close? && text == Laid(t, open != [] && open[|open| - 1], depth + |open|, fmt)
    ensures Render([t] + ts, open, depth, fmt) == text + Render(ts, open, depth, fmt)
  {
    hide Render;
    RenderOne(t, ts, open, depth, fmt);
  }

  lemma {:induction false} ValueIsLaid(v: Json, ts: seq<Token>, open: seq<bool>, depth: nat, fmt: bool)
    ensures Render(Tokens(v) + ts, open, depth, fmt) == Print(v, depth + |open|, fmt) + Render(ts, open, depth, fmt)
    decreases v, 3
  {
    hide Render, Layout, Tabs;
    if v.Array? && v.items != [] {
      ArrayIsLaid(v.items, ts, open, depth, fmt);
    } else if v.Object? && v.members != [] {
      ObjectIsLaid(v.members, ts, open, depth, fmt);
    } else {
      LeafIsLaid(Tokens(v)[0], Print(v, depth + |open|, fmt), ts, open, depth, fmt);
    }
  }

  /** Printing is laying out the tokens of the value by these rules, formatted or not. */
  lemma PrintIsLaidOut(v: Json, depth: nat, fmt: bool)
    ensures Print(v, depth, fmt) == Render(Tokens(v), [], depth, fmt)
  {
    hide Print, Tokens;
    ValueIsLaid(v, [], [], depth, fmt);
    assert Tokens(v) + [] == Tokens(v);
    assert Render([], [], depth, fmt) == "";
  }
}
