/** The printer on linked nodes. Every buffer has the size that the C code computes for it, so
    each write below carries the proof that it stays inside. */
module CJsonPrint {
  import opened CText
  import opened Decimal
  import opened JsonLiteral
  import opened JsonLiteralProofs
  import opened JsonNulFree
  import opened JsonText
  import opened JsonSizes
  import opened CJsonTree
  import opened CJsonDuplicate
  import opened CJsonLiterals
  import opened CJsonValue

  // ----- what can be printed -----

  /** Nodes that the printer renders and the parser reads back: integers, strings that are there,
      and names on the children of objects. */
  ghost predicate Readable(s: Shape)
    decreases s
  {
    && (s.cell.kind == KNumber ==> IntRange(s.cell.valuedouble) && s.cell.valueint == s.cell.valuedouble.Floor)
    && (s.cell.kind == KString ==> s.cell.text != null && NulFree(s.cell.text.chars))
    && (s.cell.kind == KArray ==> forall k | k in s.kids :: Readable(k))
    && (s.cell.kind == KObject ==>
        forall k | k in s.kids :: k.cell.name != null && NulFree(k.cell.name.chars) && Readable(k))
  }

  lemma {:induction false} ReadableValues(kids: seq<Shape>)
    requires forall k | k in kids :: Readable(k)
    ensures forall i | 0 <= i < |kids| :: Values(kids)[i] == Value(kids[i]) && Printable(Values(kids)[i])
    decreases kids, 1
  {
    hide Readable, Printable, Value;
    if kids != [] {
      ReadableIsPrintable(kids[0]);
      ReadableValues(kids[1..]);
    }
  }

  lemma {:induction false} ReadableMembers(kids: seq<Shape>)
    requires forall k | k in kids :: k.cell.name != null && NulFree(k.cell.name.chars) && Readable(k)
    ensures forall i | 0 <= i < |kids| ::
      && Members(kids)[i] == Member(kids[i].cell.name.chars, Value(kids[i]))
      && NulFree(Members(kids)[i].key) && Printable(Members(kids)[i].value)
    decreases kids, 1
  {
    hide Readable, Printable, Value, NulFree;
    if kids != [] {
      ReadableIsPrintable(kids[0]);
      ReadableMembers(kids[1..]);
    }
  }

  lemma {:induction false} ReadableIsPrintable(s: Shape)
    requires Readable(s)
    ensures Printable(Value(s))
    decreases s, 0
  {
    if s.cell.kind == KArray {
      ReadableValues(s.kids);
    } else if s.cell.kind == KObject {
      ReadableMembers(s.kids);
    }
  }

  /** A regular tree whose value can be printed can itself be printed. */
  lemma {:induction false} RegularIsReadable(s: Shape)
    requires Regular(s) && Printable(Value(s))
    ensures Readable(s)
    decreases s
  {
    match s.cell.kind
    case KNumber => IntegersAreExact(s.cell.valuedouble);
    case KArray =>
      forall k | k in s.kids
        ensures Readable(k)
      {
        var i :| 0 <= i < |s.kids| && s.kids[i] == k;
        ValuesAt(s.kids, i);
        RegularIsReadable(k);
      }
    case KObject =>
      forall k | k in s.kids
        ensures k.cell.name != null && NulFree(k.cell.name.chars) && Readable(k)
      {
        var i :| 0 <= i < |s.kids| && s.kids[i] == k;
        MembersAt(s.kids, i);
        RegularIsReadable(k);
      }
    case _ =>
  }

  /** No node of the tree is a reference. */
  ghost predicate NoReferences(s: Shape)
    decreases s
  {
    !s.cell.isReference && forall k | k in s.kids :: NoReferences(k)
  }

  lemma {:induction false} RegularHasNoReferences(s: Shape)
    requires Regular(s)
    ensures NoReferences(s)
    decreases s
  {
    forall k | k in s.kids
      ensures NoReferences(k)
    {
      RegularHasNoReferences(k);
    }
  }

  /** An owning tree without references is what a reader sees. */
  lemma {:induction false} OwnedIsSeen(s: Shape)
    requires Owned(s) && NoReferences(s)
    ensures Seen(s) && forall n | n in Sight(s) :: n in Own(s)
    decreases s
  {
    hide Own, OwnAll, Linked;
    OwnedKids(s);
    forall k | k in s.kids
      ensures Seen(k) && k.node in Sight(k) && forall n | n in Sight(k) :: n in OwnAll(s.kids)
    {
      OwnedIsSeen(k);
      var i :| 0 <= i < |s.kids| && s.kids[i] == k;
      OwnMember(s.kids, i);
    }
    LinkedIsChained(Roots(s.kids));
    KidsWithin(s);
  }

  lemma LinkedIsChained(ns: seq<Node>)
    requires Linked(ns)
    ensures Chained(ns)
  {
  }

  lemma KidsWithin(s: Shape)
    ensures s.node in Own(s) && OwnAll(s.kids) <= Own(s)
  {
    hide OwnAll;
  }

  // ----- C strings in buffers -----

  /** `strlen`. */
  method StrLen(a: array<char>, ghost s: string) returns (n: nat)
    requires HoldsText(a, |s|, s) && NulFree(s)
    ensures n == |s|
  {
    n := 0;
    while a[n] != NUL
      invariant 0 <= n <= |s|
      decreases |s| - n
    {
      assert a[..|s|][n] == s[n];
      n := n + 1;
    }
  }

  /** `strcpy(out + at, a)`, which also copies the NUL; the new end of the text. */
  method StrCpy(out: array<char>, at: nat, a: array<char>, ghost s: string) returns (end: nat)
    requires out != a && HoldsText(a, |s|, s) && NulFree(s) && at + |s| < out.Length
    modifies out
    ensures end == at + |s| && out[..end] == old(out[..at]) + s && out[end] == NUL
  {
    end := at;
    ghost var i := 0;
    assert s[..0] == "";
    while a[end - at] != NUL
      invariant at <= end && end - at == i && 0 <= i <= |s|
      invariant out[..end] == old(out[..at]) + s[..i]
      decreases |s| - i
    {
      assert a[..|s|][i] == s[i];
      out[end] := a[end - at];
      end := end + 1;
      i := i + 1;
      assert s[..i] == s[..i - 1] + [s[i - 1]];
    }
    assert s[..i] == s;
    out[end] := NUL;
  }

  /** Writes a constant text or a run of characters, one after the other. */
  method Put(out: array<char>, at: nat, s: string) returns (end: nat)
    requires at + |s| <= out.Length
    modifies out
    ensures end == at + |s| && out[..end] == old(out[..at]) + s
  {
    end := at;
    for i := 0 to |s|
      invariant end == at + i && out[..end] == old(out[..at]) + s[..i]
    {
      out[end] := s[i];
      end := end + 1;
      assert s[..i + 1] == s[..i] + [s[i]];
    }
    assert s[..|s|] == s;
  }

  /** `cJSON_strdup` of a constant, `strcpy` of "[]", and `sprintf` with `%d`: a text in a buffer. */
  method Render(size: nat, s: string) returns (out: array<char>)
    requires |s| < size && NulFree(s)
    ensures fresh(out) && out.Length == size && HoldsText(out, |s|, s)
  {
    out := new char[size];
    var n := Put(out, 0, s);
    assert out[..0] == "";
    out[n] := NUL;
  }

  // ----- arrays -----

  /** The texts of the first entries, each in a buffer of its own. */
  ghost predicate Printed(entries: seq<array<char>>, texts: seq<string>)
    reads entries
  {
    |entries| == |texts| && forall j | 0 <= j < |texts| :: HoldsText(entries[j], |texts[j]|, texts[j])
  }

  function ItemTexts(vs: seq<Json>, depth: nat, fmt: bool): (ts: seq<string>)
    ensures |ts| == |vs| && forall i | 0 <= i < |vs| :: ts[i] == Print(vs[i], depth, fmt)
  {
    seq(|vs|, i requires 0 <= i < |vs| => Print(vs[i], depth, fmt))
  }

  lemma ItemsAllocatedFrom(vs: seq<Json>, i: nat, depth: nat, fmt: bool)
    requires i < |vs|
    ensures ItemsAllocated(vs[i..], depth, fmt) ==
      |Print(vs[i], depth, fmt)| + 2 + (if fmt then 1 else 0) + ItemsAllocated(vs[i + 1..], depth, fmt)
  {
    hide Print;
    assert vs[i..][1..] == vs[i + 1..];
  }

  /** What stands between an entry of an array and the next one. */
  function Separator(last: bool, fmt: bool): string {
    if last then "" else "," + Layout(fmt, " ")
  }

  /** One round of the composing loop of `print_array`. */
  method PutItem(out: array<char>, at: nat, entry: array<char>, last: bool, fmt: bool, ghost text: string)
    returns (ptr: nat)
    requires out != entry && HoldsText(entry, |text|, text) && NulFree(text)
    requires at + |text| + |Separator(last, fmt)| < out.Length
    modifies out
    ensures ptr == at + |text| + |Separator(last, fmt)| && out[..ptr] == old(out[..at]) + text + Separator(last, fmt)
  {
    ptr := StrCpy(out, at, entry, text);
    if !last {
      ptr := Put(out, ptr, ",");
      if fmt {
        ptr := Put(out, ptr, " ");
      }
    }
  }

  lemma PrintItemsFrom(vs: seq<Json>, i: nat, depth: nat, fmt: bool)
    requires i < |vs|
    ensures PrintItems(vs[i..], depth, fmt) ==
      Print(vs[i], depth, fmt) + Separator(i == |vs| - 1, fmt) + PrintItems(vs[i + 1..], depth, fmt)
  {
    hide Print;
    assert vs[i..][1..] == vs[i + 1..];
  }

  /** Composes the text of an array from the texts of its entries. */
  method ComposeArray(entries: seq<array<char>>, out: array<char>, fmt: bool, ghost vs: seq<Json>, ghost depth: nat)
    requires Printed(entries, ItemTexts(vs, depth, fmt)) && vs != [] && out !in entries
    requires forall i | 0 <= i < |vs| :: Printable(vs[i])
    requires |PrintItems(vs, depth, fmt)| + 3 <= out.Length
    modifies out
    ensures var s := "[" + PrintItems(vs, depth, fmt) + "]"; HoldsText(out, |s|, s)
  {
    hide Print, PrintItems, Printable, NulFree, Separator;
    var ptr: nat := Put(out, 0, "[");
    assert out[..0] == "";
    ghost var all := PrintItems(vs, depth, fmt);
    assert vs[0..] == vs;
    var i := 0;
    while i < |entries|
      invariant 0 <= i <= |entries| && Printed(entries, ItemTexts(vs, depth, fmt))
      invariant ptr <= out.Length && out[..ptr] + PrintItems(vs[i..], depth, fmt) == "[" + all
    {
      PrintItemsFrom(vs, i, depth, fmt);
      PrintNulFree(vs[i], depth, fmt);
      ghost var text, sep := Print(vs[i], depth, fmt), Separator(i == |vs| - 1, fmt);
      ghost var rest := PrintItems(vs[i + 1..], depth, fmt);
      ghost var before := out[..ptr];
      assert before + (text + sep + rest) == before + text + sep + rest;
      ptr := PutItem(out, ptr, entries[i], i == |entries| - 1, fmt, text);
      i := i + 1;
    }
    assert vs[i..] == [];
    NoItems(depth, fmt);
    assert out[..ptr] == "[" + all;
    ptr := Put(out, ptr, "]");
    out[ptr] := NUL;
  }

  lemma NoItems(depth: nat, fmt: bool)
    ensures PrintItems([], depth, fmt) == "" && PrintMembers([], depth, fmt) == ""
  {
  }

  lemma PrintedAppend(entries: seq<array<char>>, texts: seq<string>, i: nat, ret: array<char>)
    requires i < |texts| && Printed(entries, texts[..i]) && HoldsText(ret, |texts[i]|, texts[i])
    ensures Printed(entries + [ret], texts[..i + 1])
  {
    hide HoldsText;
    assert texts[..i + 1] == texts[..i] + [texts[i]];
  }

  /** The text of a child and its length. */
  method PrintChild(child: Node, depth: nat, fmt: bool, ghost k: Shape) returns (ret: array<char>, n: nat)
    requires k.node == child && Seen(k) && Readable(k) && depth > 0
    ensures fresh(ret) && n == |Print(Value(k), depth, fmt)| && HoldsText(ret, n, Print(Value(k), depth, fmt))
    decreases k, 3
  {
    hide Sight, SightAll, Seen, SeenAll, Readable, Value, Print, Printable, NulFree, Allocated;
    ReadableIsPrintable(k);
    PrintNulFree(Value(k), depth, fmt);
    ret := PrintValue(child, depth, fmt, k);
    n := StrLen(ret, Print(Value(k), depth, fmt));
  }

  /** The loop of `print_array` that prints the children and adds up their sizes. */
  method PrintChildren(item: Node, depth: nat, fmt: bool, ghost s: Shape) returns (entries: seq<array<char>>, len: nat)
    requires s.node == item && Seen(s) && s.cell.kind == KArray && Readable(s) && depth > 0
    ensures Printed(entries, ItemTexts(Values(s.kids), depth, fmt)) && fresh(entries)
    ensures len == 5 + ItemsAllocated(Values(s.kids), depth, fmt)
    decreases s, 0
  {
    hide Sight, SightAll, Seen, SeenAll, Readable, Value, Values, Print, ItemsAllocated, Printed, HoldsText, Roots;
    ghost var vs, ns := Values(s.kids), Roots(s.kids);
    ghost var texts := ItemTexts(vs, depth, fmt);
    SeenParts(s);
    ReadableKids(s);
    assert allocated(SightAll(s.kids));
    entries, len := [], 5;
    var child := item.child;
    ghost var i := 0;
    assert vs[0..] == vs && texts[..0] == [];
    NothingPrinted();
    while child != null
      invariant 0 <= i <= |s.kids| && child == At(ns, i)
      invariant fresh(entries) && Printed(entries, texts[..i])
      invariant len + ItemsAllocated(vs[i..], depth, fmt) == 5 + ItemsAllocated(vs, depth, fmt)
      decreases |s.kids| - i
    {
      assert old(SeenAll(s.kids)) && old(allocated(SightAll(s.kids)));
      SeenKids(s.kids);
      ItemsAllocatedFrom(vs, i, depth, fmt);
      assert allocated(entries);
      var next := child.next;
      var ret, n := PrintChild(child, depth, fmt, s.kids[i]);
      len := len + n + 2 + if fmt then 1 else 0;
      ghost var left := ItemsAllocated(vs[i + 1..], depth, fmt);
      assert ItemsAllocated(vs[i..], depth, fmt) == n + 2 + (if fmt then 1 else 0) + left;
      PrintedAppend(entries, texts, i, ret);
      entries := entries + [ret];
      child := next;
      i := i + 1;
      assert left == ItemsAllocated(vs[i..], depth, fmt);
    }
    assert vs[i..] == [] && texts[..i] == texts;
    NothingAllocated(depth, fmt);
  }

  lemma NothingPrinted()
    ensures Printed([], [])
  {
  }

  lemma NothingAllocated(depth: nat, fmt: bool)
    ensures ItemsAllocated([], depth, fmt) == 0 && MembersAllocated([], depth, fmt) == 0
  {
  }

  /** What the printer knows of the children of an array. */
  lemma ReadableKids(s: Shape)
    requires Readable(s) && s.cell.kind == KArray
    ensures forall i | 0 <= i < |s.kids| :: Readable(s.kids[i])
    ensures var vs := Values(s.kids);
      |vs| == |s.kids| && forall i | 0 <= i < |s.kids| :: vs[i] == Value(s.kids[i]) && Printable(vs[i])
  {
    hide Value, Printable;
    ReadableValues(s.kids);
    assert forall i | 0 <= i < |s.kids| :: s.kids[i] in s.kids;
  }

  /** `print_array`. */
  method PrintArray(item: Node, depth: nat, fmt: bool, ghost s: Shape) returns (out: array<char>)
    requires s.node == item && Seen(s) && s.cell.kind == KArray && Readable(s)
    ensures fresh(out) && out.Length == Allocated(Value(s), depth, fmt)
    ensures HoldsText(out, |Print(Value(s), depth, fmt)|, Print(Value(s), depth, fmt))
    decreases s, 1
  {
    hide Sight, SightAll, Seen, SeenAll, Readable, Printable, NulFree, PrintItems, ItemsAllocated, Printed,
      Values, ItemTexts;
    SeenParts(s);
    ReadableKids(s);
    assert Value(s) == Array(Values(s.kids));
    if item.child == null {
      assert s.kids == [];
      BracketsNulFree();
      out := Render(3, "[]");
    } else {
      ghost var vs := Values(s.kids);
      var entries, len := PrintChildren(item, depth + 1, fmt, s);
      ItemsWaste(vs, depth + 1, fmt);
      assert allocated(entries);
      out := new char[len];
      ComposeArray(entries, out, fmt, vs, depth + 1);
    }
  }

  lemma BracketsNulFree()
    ensures NulFree("[]")
  {
  }

  // ----- objects -----

  /** What the printer knows of the children of an object. */
  lemma ReadableMemberKids(s: Shape)
    requires Readable(s) && s.cell.kind == KObject
    ensures forall i | 0 <= i < |s.kids| :: Readable(s.kids[i])
    ensures var ms := Members(s.kids); |ms| == |s.kids| && forall i | 0 <= i < |s.kids| ::
      && s.kids[i].cell.name != null && ms[i] == Member(s.kids[i].cell.name.chars, Value(s.kids[i]))
      && NulFree(ms[i].key) && Printable(ms[i].value)
  {
    hide Value, Printable, NulFree;
    ReadableMembers(s.kids);
    assert forall i | 0 <= i < |s.kids| :: s.kids[i] in s.kids;
  }

  function KeyTexts(ms: seq<Member>): (ts: seq<string>)
    ensures |ts| == |ms| && forall i | 0 <= i < |ms| :: ts[i] == PrintLiteral(ms[i].key)
  {
    seq(|ms|, i requires 0 <= i < |ms| => PrintLiteral(ms[i].key))
  }

  function ValueTexts(ms: seq<Member>, depth: nat, fmt: bool): (ts: seq<string>)
    ensures |ts| == |ms| && forall i | 0 <= i < |ms| :: ts[i] == Print(ms[i].value, depth, fmt)
  {
    seq(|ms|, i requires 0 <= i < |ms| => Print(ms[i].value, depth, fmt))
  }

  lemma MembersAllocatedFrom(ms: seq<Member>, i: nat, depth: nat, fmt: bool)
    requires i < |ms|
    ensures MembersAllocated(ms[i..], depth, fmt) ==
      |Print(ms[i].value, depth, fmt)| + |PrintLiteral(ms[i].key)| + 2 + (if fmt then 2 + depth else 0)
      + MembersAllocated(ms[i + 1..], depth, fmt)
  {
    hide Print, PrintLiteral;
    assert ms[i..][1..] == ms[i + 1..];
  }

  /** `print_string_ptr`: the literal of a text, filling its buffer to the last byte, and an empty
      text, without quotes, for a null pointer. */
  method PrintStringPtr(str: Text?) returns (out: array<char>)
    requires str != null ==> NulFree(str.chars)
    ensures fresh(out)
    ensures if str == null then out.Length == 1 && HoldsText(out, 0, "")
      else out.Length == EscapedLength(str.chars) + 3 && HoldsText(out, out.Length - 1, PrintLiteral(str.chars))
  {
    if str == null {
      WordsNulFree();
      out := Render(1, "");
    } else {
      out := WriteLiteral(str.chars);
    }
  }

  /** The text of a name and its length. */
  method PrintName(name: Text) returns (str: array<char>, n: nat)
    requires NulFree(name.chars)
    ensures fresh(str) && n == |PrintLiteral(name.chars)| && HoldsText(str, n, PrintLiteral(name.chars))
  {
    hide PrintLiteral, EscapedLength, NulFree;
    LiteralNulFree(name.chars);
    str := PrintStringPtr(name);
    ghost var text := PrintLiteral(name.chars);
    assert |text| == str.Length - 1;
    n := StrLen(str, text);
  }

  /** The loop of `print_object` that prints names and children and adds up their sizes. */
  method PrintMemberKids(item: Node, depth: nat, fmt: bool, ghost s: Shape)
    returns (names: seq<array<char>>, entries: seq<array<char>>, len: nat)
    requires s.node == item && Seen(s) && s.cell.kind == KObject && Readable(s) && depth > 0
    ensures Printed(names, KeyTexts(Members(s.kids))) && fresh(names)
    ensures Printed(entries, ValueTexts(Members(s.kids), depth, fmt)) && fresh(entries)
    ensures len == 7 + (if fmt then depth else 0) + MembersAllocated(Members(s.kids), depth, fmt)
    decreases s, 0
  {
    hide Sight, SightAll, Seen, SeenAll, Readable, Value, Members, Print, PrintLiteral, MembersAllocated,
      Printed, HoldsText, Roots, KeyTexts, ValueTexts, Chained, NulFree, Printable;
    ghost var ms, ns := Members(s.kids), Roots(s.kids);
    ghost var keys, texts := KeyTexts(ms), ValueTexts(ms, depth, fmt);
    SeenParts(s);
    ReadableMemberKids(s);
    assert allocated(SightAll(s.kids));
    names, entries, len := [], [], 7;
    if fmt {
      len := len + depth;
    }
    var child := item.child;
    ghost var i := 0;
    assert ms[0..] == ms && texts[..0] == [] && keys[..0] == [];
    NothingPrinted();
    while child != null
      invariant 0 <= i <= |s.kids| && child == At(ns, i)
      invariant fresh(names) && Printed(names, keys[..i])
      invariant fresh(entries) && Printed(entries, texts[..i])
      invariant len + MembersAllocated(ms[i..], depth, fmt)
        == 7 + (if fmt then depth else 0) + MembersAllocated(ms, depth, fmt)
      decreases |s.kids| - i
    {
      assert old(SeenAll(s.kids)) && old(allocated(SightAll(s.kids)));
      SeenKids(s.kids);
      MembersAllocatedFrom(ms, i, depth, fmt);
      assert allocated(names) && allocated(entries);
      NextKid(ns, i);
      var str, ret, n;
      child, str, ret, n := PrintMemberKid(child, depth, fmt, s.kids[i]);
      len := len + n + 2 + if fmt then 2 + depth else 0;
      ghost var left := MembersAllocated(ms[i + 1..], depth, fmt);
      assert MembersAllocated(ms[i..], depth, fmt) == n + 2 + (if fmt then 2 + depth else 0) + left;
      PrintedAppend(names, keys, i, str);
      PrintedAppend(entries, texts, i, ret);
      names, entries := names + [str], entries + [ret];
      i := i + 1;
      assert left == MembersAllocated(ms[i..], depth, fmt);
    }
    assert ms[i..] == [] && texts[..i] == texts && keys[..i] == keys;
    NothingAllocated(depth, fmt);
  }

  lemma NextKid(ns: seq<Node>, i: nat)
    requires Chained(ns) && i < |ns|
    ensures ns[i].next == At(ns, i + 1)
  {
  }

  /** One round of that loop: both texts, the sum of their lengths, and the next child. */
  method PrintMemberKid(child: Node, depth: nat, fmt: bool, ghost k: Shape)
    returns (next: Node?, str: array<char>, ret: array<char>, n: nat)
    requires k.node == child && Seen(k) && Readable(k) && depth > 0 && k.cell.name != null && NulFree(k.cell.name.chars)
    ensures next == child.next && fresh(str) && fresh(ret)
    ensures HoldsText(str, |PrintLiteral(k.cell.name.chars)|, PrintLiteral(k.cell.name.chars))
    ensures HoldsText(ret, |Print(Value(k), depth, fmt)|, Print(Value(k), depth, fmt))
    ensures n == |Print(Value(k), depth, fmt)| + |PrintLiteral(k.cell.name.chars)|
    decreases k, 4
  {
    hide Sight, SightAll, SeenAll, Readable, Value, Print, PrintLiteral, NulFree;
    assert allocated(Sight(k));
    next := child.next;
    var n1, n2;
    str, n1 := PrintName(child.name);
    ret, n2 := PrintChild(child, depth, fmt, k);
    n := n1 + n2;
  }

  /** What follows an entry of an object. */
  function LineEnd(last: bool, fmt: bool): string {
    (if last then "" else ",") + Layout(fmt, "\n")
  }

  lemma PrintMembersFrom(ms: seq<Member>, i: nat, depth: nat, fmt: bool)
    requires i < |ms|
    ensures PrintMembers(ms[i..], depth, fmt) ==
      PrintMember(ms[i], depth, fmt) + LineEnd(i == |ms| - 1, fmt) + PrintMembers(ms[i + 1..], depth, fmt)
  {
    hide PrintMember;
    assert ms[i..][1..] == ms[i + 1..];
  }

  /** Writes n tabs. */
  method PutTabs(out: array<char>, at: nat, n: int) returns (ptr: nat)
    requires at + |Tabs(n)| <= out.Length
    modifies out
    ensures ptr == at + |Tabs(n)| && out[..ptr] == old(out[..at]) + Tabs(n)
  {
    ptr := at;
    var j := 0;
    assert out[..at] + Tabs(n) == out[..at] + Tabs(n - j);
    while j < n
      invariant 0 <= j && ptr + |Tabs(n - j)| == at + |Tabs(n)| <= out.Length
      invariant out[..ptr] + Tabs(n - j) == old(out[..at]) + Tabs(n)
    {
      ghost var before := out[..ptr];
      out[ptr] := '\t';
      ptr := ptr + 1;
      assert out[..ptr] == before + ['\t'];
      assert before + Tabs(n - j) == before + ['\t'] + Tabs(n - j - 1);
      j := j + 1;
    }
  }

  /** What an entry of an object puts before its value. */
  function KeyPart(key: string, depth: nat, fmt: bool): string {
    Layout(fmt, Tabs(depth)) + PrintLiteral(key) + ":" + Layout(fmt, "\t")
  }

  lemma MemberParts(m: Member, depth: nat, fmt: bool)
    ensures PrintMember(m, depth, fmt) == KeyPart(m.key, depth, fmt) + Print(m.value, depth, fmt)
  {
    hide Print, PrintLiteral, Tabs;
  }

  method PutKey(out: array<char>, at: nat, name: array<char>, depth: nat, fmt: bool, ghost key: string)
    returns (ptr: nat)
    requires out != name && NulFree(key) && HoldsText(name, |PrintLiteral(key)|, PrintLiteral(key))
    requires at + |KeyPart(key, depth, fmt)| < out.Length
    modifies out
    ensures ptr == at + |KeyPart(key, depth, fmt)| && out[..ptr] == old(out[..at]) + KeyPart(key, depth, fmt)
  {
    hide PrintLiteral, NulFree, Tabs, HoldsText, Layout;
    LiteralNulFree(key);
    ptr := PutIndent(out, at, depth, fmt);
    ptr := StrCpy(out, ptr, name, PrintLiteral(key));
    ptr := Put(out, ptr, ":");
    ptr := PutLayout(out, ptr, "\t", fmt);
  }

  /** A text that only the formatted output has. */
  method PutLayout(out: array<char>, at: nat, s: string, fmt: bool) returns (ptr: nat)
    requires at + |Layout(fmt, s)| <= out.Length
    modifies out
    ensures ptr == at + |Layout(fmt, s)| && out[..ptr] == old(out[..at]) + Layout(fmt, s)
  {
    ptr := at;
    if fmt {
      ptr := Put(out, ptr, s);
    }
  }

  /** The tabs that only the formatted output has. */
  method PutIndent(out: array<char>, at: nat, n: int, fmt: bool) returns (ptr: nat)
    requires at + |Layout(fmt, Tabs(n))| <= out.Length
    modifies out
    ensures ptr == at + |Layout(fmt, Tabs(n))| && out[..ptr] == old(out[..at]) + Layout(fmt, Tabs(n))
  {
    hide Tabs;
    ptr := at;
    if fmt {
      ptr := PutTabs(out, ptr, n);
    }
  }

  method PutLineEnd(out: array<char>, at: nat, last: bool, fmt: bool) returns (ptr: nat)
    requires at + |LineEnd(last, fmt)| <= out.Length
    modifies out
    ensures ptr == at + |LineEnd(last, fmt)| && out[..ptr] == old(out[..at]) + LineEnd(last, fmt)
  {
    hide Layout;
    ptr := at;
    if !last {
      ptr := Put(out, ptr, ",");
    }
    ptr := PutLayout(out, ptr, "\n", fmt);
  }

  /** One round of the composing loop of `print_object`. */
  method PutMember(out: array<char>, at: nat, name: array<char>, entry: array<char>,
                   depth: nat, last: bool, fmt: bool, ghost m: Member)
    returns (ptr: nat)
    requires out != name && out != entry && NulFree(m.key) && Printable(m.value)
    requires HoldsText(name, |PrintLiteral(m.key)|, PrintLiteral(m.key))
    requires HoldsText(entry, |Print(m.value, depth, fmt)|, Print(m.value, depth, fmt))
    requires at + |PrintMember(m, depth, fmt)| + |LineEnd(last, fmt)| < out.Length
    modifies out
    ensures ptr == at + |PrintMember(m, depth, fmt)| + |LineEnd(last, fmt)|
    ensures out[..ptr] == old(out[..at]) + PrintMember(m, depth, fmt) + LineEnd(last, fmt)
  {
    hide Print, PrintLiteral, NulFree, Printable, KeyPart, PrintMember, LineEnd;
    PrintNulFree(m.value, depth, fmt);
    MemberParts(m, depth, fmt);
    ptr := PutKey(out, at, name, depth, fmt, m.key);
    ptr := StrCpy(out, ptr, entry, Print(m.value, depth, fmt));
    ptr := PutLineEnd(out, ptr, last, fmt);
  }

  /** The composing loop of `print_object`. */
  method PutMembers(names: seq<array<char>>, entries: seq<array<char>>, out: array<char>, at: nat,
                    depth: nat, fmt: bool, ghost ms: seq<Member>)
    returns (ptr: nat)
    requires Printed(names, KeyTexts(ms)) && Printed(entries, ValueTexts(ms, depth, fmt))
    requires out !in names && out !in entries
    requires forall i | 0 <= i < |ms| :: NulFree(ms[i].key) && Printable(ms[i].value)
    requires at + |PrintMembers(ms, depth, fmt)| < out.Length
    modifies out
    ensures ptr == at + |PrintMembers(ms, depth, fmt)|
    ensures out[..ptr] == old(out[..at]) + PrintMembers(ms, depth, fmt)
  {
    hide Print, PrintMember, PrintMembers, PrintLiteral, Printable, NulFree, LineEnd;
    ptr := at;
    assert ms[0..] == ms;
    var i := 0;
    while i < |entries|
      invariant 0 <= i <= |entries| && Printed(names, KeyTexts(ms)) && Printed(entries, ValueTexts(ms, depth, fmt))
      invariant ptr <= out.Length
      invariant out[..ptr] + PrintMembers(ms[i..], depth, fmt) == old(out[..at]) + PrintMembers(ms, depth, fmt)
    {
      PrintMembersFrom(ms, i, depth, fmt);
      ghost var text, end := PrintMember(ms[i], depth, fmt), LineEnd(i == |ms| - 1, fmt);
      ghost var rest := PrintMembers(ms[i + 1..], depth, fmt);
      ghost var before := out[..ptr];
      assert before + (text + end + rest) == before + text + end + rest;
      ptr := PutMember(out, ptr, names[i], entries[i], depth, i == |entries| - 1, fmt, ms[i]);
      i := i + 1;
    }
    assert ms[i..] == [];
    NoItems(depth, fmt);
  }

  /** Composes the text of an object from the texts of its names and entries. */
  method ComposeObject(names: seq<array<char>>, entries: seq<array<char>>, out: array<char>, depth: nat, fmt: bool,
                       ghost ms: seq<Member>)
    requires Printed(names, KeyTexts(ms)) && Printed(entries, ValueTexts(ms, depth, fmt))
    requires ms != [] && depth > 0 && out !in names && out !in entries
    requires forall i | 0 <= i < |ms| :: NulFree(ms[i].key) && Printable(ms[i].value)
    requires |Layout(fmt, "\n")| + |PrintMembers(ms, depth, fmt)| + |Layout(fmt, Tabs(depth - 1))| + 3 <= out.Length
    modifies out
    ensures var s := "{" + Layout(fmt, "\n") + PrintMembers(ms, depth, fmt) + Layout(fmt, Tabs(depth - 1)) + "}";
      HoldsText(out, |s|, s)
  {
    hide Print, PrintMember, PrintMembers, PrintLiteral, Printable, NulFree, Tabs, Layout;
    var ptr: nat := Put(out, 0, "{");
    assert out[..0] == "";
    ptr := PutLayout(out, ptr, "\n", fmt);
    ptr := PutMembers(names, entries, out, ptr, depth, fmt, ms);
    ptr := PutIndent(out, ptr, depth - 1, fmt);
    ptr := Put(out, ptr, "}");
    out[ptr] := NUL;
  }

  /** `print_object` on an object without children. */
  method PrintEmptyObject(depth: nat, fmt: bool) returns (out: array<char>)
    requires !(fmt && depth == 0)
    ensures fresh(out) && out.Length == Allocated(Object([]), depth, fmt)
    ensures HoldsText(out, |Print(Object([]), depth, fmt)|, Print(Object([]), depth, fmt))
  {
    out := new char[if fmt then depth + 3 else 3];
    var ptr: nat := Put(out, 0, "{");
    assert out[..0] == "";
    if fmt {
      ptr := Put(out, ptr, "\n");
      ptr := PutTabs(out, ptr, depth - 1);
    }
    ptr := Put(out, ptr, "}");
    out[ptr] := NUL;
  }

  /** `print_object`. */
  method PrintObject(item: Node, depth: nat, fmt: bool, ghost s: Shape) returns (out: array<char>)
    requires s.node == item && Seen(s) && s.cell.kind == KObject && Readable(s)
    requires !(fmt && depth == 0 && Value(s) == Object([]))
    ensures fresh(out) && out.Length == Allocated(Value(s), depth, fmt)
    ensures HoldsText(out, |Print(Value(s), depth, fmt)|, Print(Value(s), depth, fmt))
    decreases s, 1
  {
    hide Sight, SightAll, Seen, SeenAll, Readable, Printable, NulFree, PrintMembers, MembersAllocated, Printed,
      Members, KeyTexts, ValueTexts, Tabs;
    SeenParts(s);
    ReadableMemberKids(s);
    assert Value(s) == Object(Members(s.kids));
    if item.child == null {
      assert s.kids == [];
      out := PrintEmptyObject(depth, fmt);
    } else {
      ghost var ms := Members(s.kids);
      var names, entries, len := PrintMemberKids(item, depth + 1, fmt, s);
      MembersWaste(ms, depth + 1, fmt);
      assert allocated(names) && allocated(entries);
      out := new char[len];
      ComposeObject(names, entries, out, depth + 1, fmt, ms);
    }
  }

  // ----- values -----

  /** `print_number`, in the branch of `%d`. */
  method PrintNumber(item: Node) returns (out: array<char>)
    requires IntRange(item.valuedouble) && item.valueint == item.valuedouble.Floor
    ensures fresh(out) && out.Length == 21 && HoldsText(out, |IntText(item.valueint)|, IntText(item.valueint))
  {
    hide IntText;
    IntTextFits(item.valueint);
    DigitsNulFree(item.valueint);
    out := Render(21, IntText(item.valueint));
  }

  /** `print_value`: the text of the value in a buffer of exactly the size allocated for it. */
  method PrintValue(item: Node, depth: nat, fmt: bool, ghost s: Shape) returns (out: array<char>)
    requires s.node == item && Seen(s) && Readable(s) && !(fmt && depth == 0 && Value(s) == Object([]))
    ensures fresh(out) && out.Length == Allocated(Value(s), depth, fmt)
    ensures HoldsText(out, |Print(Value(s), depth, fmt)|, Print(Value(s), depth, fmt))
    decreases s, 2
  {
    hide Sight, SightAll, SeenAll, HoldsText, NulFree, Members, Values, IntText, PrintLiteral, EscapedLength;
    match item.kind {
      case KNull =>
        WordsNulFree();
        out := Render(5, "null");
      case KFalse =>
        WordsNulFree();
        out := Render(6, "false");
      case KTrue =>
        WordsNulFree();
        out := Render(5, "true");
      case KNumber =>
        out := PrintNumber(item);
      case KString =>
        out := PrintStringPtr(item.valuestring);
        LiteralSize(item.valuestring.chars);
      case KArray =>
        out := PrintArray(item, depth, fmt, s);
      case KObject =>
        out := PrintObject(item, depth, fmt, s);
    }
  }

  lemma LiteralSize(s: string)
    requires NulFree(s)
    ensures |PrintLiteral(s)| + 1 == EscapedLength(s) + 3
  {
    PrintedLiteralFillsBuffer(s);
  }

  /** `cJSON_PrintUnformatted`: any readable tree. */
  method PrintUnformatted(item: Node, ghost s: Shape) returns (out: array<char>)
    requires s.node == item && Seen(s) && Readable(s)
    ensures fresh(out) && HoldsText(out, |Print(Value(s), 0, false)|, Print(Value(s), 0, false))
  {
    out := PrintValue(item, 0, false, s);
  }

  /** `cJSON_Print`: any readable tree but an empty object, on which `print_object` writes four
      bytes into a buffer of three. */
  method PrintFormatted(item: Node, ghost s: Shape) returns (out: array<char>)
    requires s.node == item && Seen(s) && Readable(s) && Value(s) != Object([])
    ensures fresh(out) && HoldsText(out, |Print(Value(s), 0, true)|, Print(Value(s), 0, true))
  {
    out := PrintValue(item, 0, true, s);
  }
}
