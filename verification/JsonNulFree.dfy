/** Printed text is a C string: it holds no NUL before its end. */
module JsonNulFree {
  import opened CText
  import opened Decimal
  import opened JsonLiteral
  import opened JsonText

  lemma JoinNulFree(a: string, b: string)
    requires NulFree(a) && NulFree(b)
    ensures NulFree(a + b)
  {
  }

  lemma {:induction false} EscapeNulFree(s: string)
    requires NulFree(s)
    ensures NulFree(Escape(s))
  {
    if s != "" {
      assert NulFree(EscapeChar(s[0]));
      EscapeNulFree(s[1..]);
      JoinNulFree(EscapeChar(s[0]), Escape(s[1..]));
    }
  }

  lemma LiteralNulFree(s: string)
    requires NulFree(s)
    ensures NulFree(PrintLiteral(s))
  {
    EscapeNulFree(s);
  }

  lemma {:induction false} ItemsNulFree(items: seq<Json>, depth: nat, fmt: bool)
    requires forall i | 0 <= i < |items| :: Printable(items[i])
    ensures NulFree(PrintItems(items, depth, fmt))
    decreases items, 1
  {
    hide Printable, Print, NulFree;
    if items == [] {
      EmptyNulFree();
    } else {
      PrintNulFree(items[0], depth, fmt);
      if |items| > 1 {
        ItemsNulFree(items[1..], depth, fmt);
        SeparatorNulFree(fmt);
        JoinNulFree("," + Layout(fmt, " "), PrintItems(items[1..], depth, fmt));
        JoinNulFree(Print(items[0], depth, fmt), "," + Layout(fmt, " ") + PrintItems(items[1..], depth, fmt));
      } else {
        EmptyNulFree();
        JoinNulFree(Print(items[0], depth, fmt), "");
      }
    }
  }

  lemma EmptyNulFree()
    ensures NulFree("")
  {
  }

  lemma SeparatorNulFree(fmt: bool)
    ensures NulFree("," + Layout(fmt, " "))
    ensures NulFree(Layout(fmt, "\n")) && NulFree(":" + Layout(fmt, "\t"))
    ensures NulFree(",") && NulFree("{") && NulFree("}") && NulFree("[") && NulFree("]") && NulFree("")
  {
  }

  lemma TabsNulFree(n: int, fmt: bool)
    ensures NulFree(Layout(fmt, Tabs(n))) && NulFree(Layout(fmt, "\n" + Tabs(n)))
  {
  }

  lemma {:induction false} MemberNulFree(m: Member, depth: nat, fmt: bool)
    requires NulFree(m.key) && Printable(m.value)
    ensures NulFree(PrintMember(m, depth, fmt))
    decreases m, 0
  {
    hide Printable, Print, NulFree, PrintLiteral, Tabs;
    TabsNulFree(depth, fmt);
    LiteralNulFree(m.key);
    SeparatorNulFree(fmt);
    PrintNulFree(m.value, depth, fmt);
    JoinNulFree(Layout(fmt, Tabs(depth)), PrintLiteral(m.key));
    JoinNulFree(Layout(fmt, Tabs(depth)) + PrintLiteral(m.key), ":" + Layout(fmt, "\t"));
    JoinNulFree(Layout(fmt, Tabs(depth)) + PrintLiteral(m.key) + (":" + Layout(fmt, "\t")), Print(m.value, depth, fmt));
    assert PrintMember(m, depth, fmt)
        == Layout(fmt, Tabs(depth)) + PrintLiteral(m.key) + (":" + Layout(fmt, "\t")) + Print(m.value, depth, fmt);
  }

  lemma {:induction false} MembersNulFree(ms: seq<Member>, depth: nat, fmt: bool)
    requires forall i | 0 <= i < |ms| :: NulFree(ms[i].key) && Printable(ms[i].value)
    ensures NulFree(PrintMembers(ms, depth, fmt))
    decreases ms, 1
  {
    hide Printable, PrintMember, NulFree;
    SeparatorNulFree(fmt);
    if ms != [] {
      MemberNulFree(ms[0], depth, fmt);
      MembersNulFree(ms[1..], depth, fmt);
      var comma := if |ms| == 1 then "" else ",";
      JoinNulFree(PrintMember(ms[0], depth, fmt), comma);
      JoinNulFree(PrintMember(ms[0], depth, fmt) + comma, Layout(fmt, "\n"));
      JoinNulFree(PrintMember(ms[0], depth, fmt) + comma + Layout(fmt, "\n"), PrintMembers(ms[1..], depth, fmt));
    }
  }

  lemma {:induction false} PrintNulFree(v: Json, depth: nat, fmt: bool)
    requires Printable(v)
    ensures NulFree(Print(v, depth, fmt))
    decreases v, 0
  {
    hide NulFree, PrintItems, PrintMembers, PrintLiteral, IntText, Tabs;
    SeparatorNulFree(fmt);
    match v
    case Number(d) => DigitsNulFree(d.Floor);
    case String(s) => LiteralNulFree(s);
    case Array(items) =>
      if items == [] {
        WordsNulFree();
      } else {
        ItemsNulFree(items, depth + 1, fmt);
        JoinNulFree("[", PrintItems(items, depth + 1, fmt));
        JoinNulFree("[" + PrintItems(items, depth + 1, fmt), "]");
      }
    case Object(ms) =>
      if ms == [] {
        TabsNulFree(depth - 1, fmt);
        JoinNulFree("{", Layout(fmt, "\n" + Tabs(depth - 1)));
        JoinNulFree("{" + Layout(fmt, "\n" + Tabs(depth - 1)), "}");
      } else {
        TabsNulFree(depth, fmt);
        MembersNulFree(ms, depth + 1, fmt);
        JoinNulFree("{", Layout(fmt, "\n"));
        JoinNulFree("{" + Layout(fmt, "\n"), PrintMembers(ms, depth + 1, fmt));
        JoinNulFree("{" + Layout(fmt, "\n") + PrintMembers(ms, depth + 1, fmt), Layout(fmt, Tabs(depth)));
        JoinNulFree("{" + Layout(fmt, "\n") + PrintMembers(ms, depth + 1, fmt) + Layout(fmt, Tabs(depth)), "}");
      }
    case _ => WordsNulFree();
  }

  lemma WordsNulFree()
    ensures NulFree("null") && NulFree("false") && NulFree("true") && NulFree("[]") && NulFree("{}") && NulFree("")
  {
  }
}
