/** The recursive-descent parser, building linked nodes while it moves over the text.

    A `const char*` into the text `t` is a position; a null pointer is -1. */
module CJsonParse {
  import opened CText
  import opened JsonLiteral
  import opened JsonLiteralProofs
  import opened JsonText
  import opened CJsonTree
  import opened CJsonEdits
  import opened CJsonRelease
  import opened CJsonLiterals
  import opened CJsonNumbers
  import opened CJsonValue

  /** `skip`. */
  method SkipBlanksAt(t: string, p: nat) returns (q: nat)
    requires p <= |t|
    ensures p <= q <= |t| && t[q..] == Skip(t[p..])
  {
    q := p;
    while q < |t| && NUL < t[q] <= ' '
      invariant p <= q <= |t| && Skip(t[q..]) == Skip(t[p..])
    {
      assert t[q..][1..] == t[q + 1..];
      q := q + 1;
    }
  }

  // ----- what a call of the parser has done -----

  /** An item that has been allocated and linked but not been parsed into. */
  ghost predicate Unparsed(item: Node)
    reads item
  {
    item.child == null && !item.isReference && item.valuestring == null && item.valueint == 0 && item.valuedouble == 0.0
  }

  /** The position returned and the tree built agree with the outcome on the text. */
  ghost predicate Agrees(r: Parsed<Json>, t: string, end: int, s: Shape) {
    match r
    case Parsed(v, rest) => 0 <= end <= |t| && t[end..] == rest && Value(s) == v && Regular(s)
    case Rejected => end == -1
    case Unmodelled => false
  }

  /** The tree that is hung under an item, its name being the one it had. */
  ghost predicate Built(item: Node, name: Text?, s: Shape)
    reads Own(s)
  {
    s.node == item && WellFormed(s) && !s.cell.isReference && s.cell.name == name
  }

  lemma BlankShape(item: Node)
    requires !item.isReference && item.child == null && item.valuestring == null
    ensures var s := Shape(item, item.Content(), []);
      WellFormed(s) && Own(s) == {item as object} + NameOf(s.cell) && Values([]) == [] && Members([]) == []
  {
    OwnNothing();
    assert Linked(Roots([]));
  }

  // ----- strings and numbers -----

  /** `parse_string`, up to storing the text in the item; null and -1 if there is no quote. */
  method ParseLiteral(t: string, p: nat) returns (text: Text?, end: int)
    requires p <= |t|
    requires Peek(t[p..]) == '"' ==> Unescape(t[p..][1..]).Literal?
    ensures if Peek(t[p..]) == '"' then
        text != null && fresh(text) && NulFree(text.chars)
        && 0 <= end <= |t| && Literal(text.chars, t[end..]) == Unescape(t[p..][1..])
      else text == null && end == -1
  {
    hide Unescape;
    if Peek(t[p..]) != '"' {
      return null, -1;
    }
    UnescapedIsNulFree(t[p..][1..]);
    var out, n, q := DecodeLiteral(t[p..][1..]);
    text := new Text(out[..n]);
    assert t[p..][1..][q..] == t[p + 1 + q..];
    end := p + 1 + q;
  }

  /** `parse_number`. */
  method ParseNumberInto(item: Node, t: string, p: nat) returns (end: int)
    requires p <= |t|
    modifies item`kind, item`valueint, item`valuedouble
    ensures 0 <= end <= |t| && Parsed(Number(item.valuedouble), t[end..]) == ParseNumber(t[p..])
    ensures item.kind == KNumber && item.valueint == ToInt(item.valuedouble)
  {
    hide Unsigned, Scaled;
    var sign, x, q := ScanNumber(t, p);
    assert Peek(t[p..]) == '-' ==> t[p..][1..] == t[p + 1..];
    var n := Scaled(sign, x);
    item.valuedouble := n;
    item.valueint := ToInt(n);
    item.kind := KNumber;
    end := q;
  }

  // ----- the loops, in terms of the grammar -----

  /** The entries read so far and then what the rest of the text holds. */
  function ElementsFrom(vs: seq<Json>, t: string): Parsed<seq<Json>> {
    match ParseElements(t)
    case Parsed(ws, end) => Parsed(vs + ws, end)
    case Rejected => Rejected
    case Unmodelled => Parsed<seq<Json>>.Unmodelled
  }

  /** The state of the loop of `parse_array`, behind an entry. */
  function AfterElement(vs: seq<Json>, u: string): Parsed<seq<Json>> {
    if Peek(u) == ']' then Parsed(vs, u[1..])
    else if Peek(u) != ',' then Rejected
    else ElementsFrom(vs, Skip(u[1..]))
  }

  lemma AfterElementCases(vs: seq<Json>, u: string)
    ensures Peek(u) == ']' ==> AfterElement(vs, u) == Parsed(vs, u[1..])
    ensures Peek(u) == ',' ==> AfterElement(vs, u) == ElementsFrom(vs, Skip(u[1..]))
    ensures Peek(u) != ']' && Peek(u) != ',' ==> AfterElement(vs, u) == Rejected
  {
  }

  lemma ElementStep(vs: seq<Json>, t: string)
    ensures ElementsFrom(vs, t) ==
      match ParseValue(t)
      case Parsed(v, rest) => AfterElement(vs + [v], Skip(rest))
      case Rejected => Rejected
      case Unmodelled => Parsed<seq<Json>>.Unmodelled
  {
    hide ParseValue, Skip;
    if ParseValue(t).Parsed? {
      var v, u := ParseValue(t).value, Skip(ParseValue(t).rest);
      if Peek(u) == ',' && ParseElements(Skip(u[1..])).Parsed? {
        assert vs + ([v] + ParseElements(Skip(u[1..])).value) == (vs + [v]) + ParseElements(Skip(u[1..])).value;
      }
    }
  }

  lemma ElementsStart(t: string)
    ensures ElementsFrom([], t) == ParseElements(t)
  {
    if ParseElements(t).Parsed? {
      assert [] + ParseElements(t).value == ParseElements(t).value;
    }
  }

  function MembersFrom(ms: seq<Member>, t: string): Parsed<seq<Member>> {
    match ParseMembers(t)
    case Parsed(ns, end) => Parsed(ms + ns, end)
    case Rejected => Rejected
    case Unmodelled => Parsed<seq<Member>>.Unmodelled
  }

  /** The state of the loop of `parse_object`, behind an entry. */
  function AfterMember(ms: seq<Member>, u: string): Parsed<seq<Member>> {
    if Peek(u) == '}' then Parsed(ms, u[1..])
    else if Peek(u) != ',' then Rejected
    else MembersFrom(ms, Skip(u[1..]))
  }

  lemma AfterMemberCases(ms: seq<Member>, u: string)
    ensures Peek(u) == '}' ==> AfterMember(ms, u) == Parsed(ms, u[1..])
    ensures Peek(u) == ',' ==> AfterMember(ms, u) == MembersFrom(ms, Skip(u[1..]))
    ensures Peek(u) != '}' && Peek(u) != ',' ==> AfterMember(ms, u) == Rejected
  {
  }

  lemma MemberStep(ms: seq<Member>, t: string)
    ensures MembersFrom(ms, t) ==
      match ParseMember(t)
      case Parsed(m, rest) => AfterMember(ms + [m], Skip(rest))
      case Rejected => Rejected
      case Unmodelled => Parsed<seq<Member>>.Unmodelled
  {
    hide ParseMember, Skip;
    if ParseMember(t).Parsed? {
      var m, u := ParseMember(t).value, Skip(ParseMember(t).rest);
      if Peek(u) == ',' && ParseMembers(Skip(u[1..])).Parsed? {
        assert ms + ([m] + ParseMembers(Skip(u[1..])).value) == (ms + [m]) + ParseMembers(Skip(u[1..])).value;
      }
    }
  }

  lemma MembersStart(t: string)
    ensures MembersFrom([], t) == ParseMembers(t)
  {
    if ParseMembers(t).Parsed? {
      assert [] + ParseMembers(t).value == ParseMembers(t).value;
    }
  }

  // ----- the parser -----

  /** A child has been parsed into: what its parent looks like now. */
  lemma ChildBuilt(s: Shape, k: Shape)
    requires Tidy(s) && !s.cell.isReference && s.node.Content() == s.cell
    requires forall x | x in s.kids :: Owned(x)
    requires WellFormed(k) && Own(s) !! Own(k)
    requires Linked(Roots(s.kids) + [k.node]) && s.node.child == At(Roots(s.kids) + [k.node], 0)
    ensures WellFormed(s.(kids := s.kids + [k])) && Own(s.(kids := s.kids + [k])) == Own(s) + Own(k)
  {
    hide Own, OwnAll, Owned, OwnedAll, Tidy, Linked, Disjoint;
    var s' := s.(kids := s.kids + [k]);
    TidyAppend(s, k);
    RootsAppend(s.kids, k);
    MakeOwned(s');
  }

  twostate lemma StillLinked(ns: seq<Node>)
    requires old(Linked(ns)) && forall n | n in ns :: n.next == old(n.next) && n.prev == old(n.prev)
    ensures Linked(ns)
  {
  }

  /** Allocates an item and links it in behind the last child. */
  method NewChild(parent: Node, last: Node?, ghost s: Shape) returns (child: Node, ghost s': Shape)
    requires WellFormed(s) && s.node == parent && !s.cell.isReference && last == At(Roots(s.kids), |s.kids| - 1)
    modifies parent`child, Roots(s.kids)`next
    ensures fresh(child) && Unparsed(child) && child.name == null && child !in Own(s)
    ensures s' == s.(kids := s.kids + [Shape(child, BLANK, [])]) && WellFormed(s')
  {
    hide Own, OwnAll, Owned, OwnedAll, Tidy, Disjoint, Distinct, Linked;
    assert allocated(Own(s));
    child := new Node();
    BlankShape(child);
    s' := AttachLast(parent, last, child, s, Shape(child, BLANK, []));
  }

  /** What is known of the parent while its last child is being parsed into. */
  lemma BeforeParsing(s: Shape, child: Node)
    requires WellFormed(s.(kids := s.kids + [Shape(child, BLANK, [])])) && !s.cell.isReference && child !in Own(s)
    ensures forall x | x in s.kids :: Owned(x) && Own(x) <= Own(s)
    ensures s.node.Content() == s.cell && s.node.child == At(Roots(s.kids) + [child], 0)
    ensures Linked(Roots(s.kids) + [child]) && s.node in Own(s)
  {
    hide Own, OwnAll, Owned, OwnedAll, Tidy, Disjoint, Linked, Distinct;
    var s' := s.(kids := s.kids + [Shape(child, BLANK, [])]);
    RootsAppend(s.kids, Shape(child, BLANK, []));
    EditStart(s');
    KidsApart(s);
    assert forall x | x in s.kids :: x in s'.kids;
    RootIsOwn(s);
  }

  lemma RootIsOwn(s: Shape)
    ensures s.node in Own(s)
  {
    hide OwnAll;
  }

  /** One entry of an array: a new item is linked in and the value is parsed into it. */
  method ParseElement(parent: Node, last: Node?, t: string, p: nat, ghost s: Shape)
    returns (child: Node, end: int, ghost k: Shape, ghost s': Shape)
    requires p <= |t| && !ParseValue(t[p..]).Unmodelled?
    requires WellFormed(s) && s.node == parent && !s.cell.isReference && last == At(Roots(s.kids), |s.kids| - 1)
    modifies parent`child, Roots(s.kids)`next
    ensures fresh(child) && Built(child, null, k) && fresh(Own(k)) && Agrees(ParseValue(t[p..]), t, end, k)
    ensures s' == s.(kids := s.kids + [k]) && WellFormed(s') && Own(s') == Own(s) + Own(k)
    decreases |t| - p, 3
  {
    hide Own, OwnAll, Owned, OwnedAll, Tidy, Disjoint, Distinct, Linked, Agrees, JsonText.ParseValue;
    assert allocated(Own(s));
    child, s' := NewChild(parent, last, s);
    BeforeParsing(s, child);
    ghost var ns := Roots(s.kids) + [child];
    label before:
    assert forall x | x in s.kids :: allocated(Own(x)) && child !in Own(x);
    end, k := ParseValueInto(child, t, p);
    assert NameOf(k.cell) == {};
    StillLinked@before(ns);
    s' := s.(kids := s.kids + [k]);
    ChildBuilt(s, k);
  }

  lemma KidsApart(s: Shape)
    ensures forall x | x in s.kids :: Own(x) <= Own(s)
  {
    hide OwnAll;
    forall i | 0 <= i < |s.kids|
      ensures Own(s.kids[i]) <= OwnAll(s.kids)
    {
      OwnMember(s.kids, i);
    }
  }

  /** One entry of an object: a new item is linked in, the key is parsed and moved to the name,
      and behind a colon the value is parsed into the item. */
  method ParseMemberInto(parent: Node, last: Node?, t: string, p: nat, ghost s: Shape)
    returns (child: Node, end: int, ghost k: Shape, ghost s': Shape)
    requires p <= |t| && !ParseMember(t[p..]).Unmodelled?
    requires WellFormed(s) && s.node == parent && !s.cell.isReference && last == At(Roots(s.kids), |s.kids| - 1)
    modifies parent`child, Roots(s.kids)`next
    ensures fresh(child) && k.node == child && WellFormed(k) && fresh(Own(k))
    ensures AgreesMember(ParseMember(t[p..]), t, end, k)
    ensures s' == s.(kids := s.kids + [k]) && WellFormed(s') && Own(s') == Own(s) + Own(k)
    decreases |t| - p, 3
  {
    hide Own, OwnAll, Owned, OwnedAll, Tidy, Disjoint, Distinct, Linked, Agrees, JsonText.ParseValue, Unescape;
    assert allocated(Own(s));
    child, s' := NewChild(parent, last, s);
    BeforeParsing(s, child);
    ghost var ns := Roots(s.kids) + [child];
    label before:
    assert forall x | x in s.kids :: allocated(Own(x)) && child !in Own(x);
    end, k := ParseKeyAndValue(child, t, p);
    StillLinked@before(ns);
    s' := s.(kids := s.kids + [k]);
    ChildBuilt(s, k);
  }

  /** The position returned and the named tree built agree with the outcome on the text. */
  ghost predicate AgreesMember(r: Parsed<Member>, t: string, end: int, k: Shape) {
    match r
    case Parsed(m, rest) =>
      && 0 <= end <= |t| && t[end..] == rest && Regular(k)
      && NameFits(KObject, k.cell.name) && m == Member(k.cell.name.chars, Value(k))
    case Rejected => end == -1
    case Unmodelled => false
  }

  /** The key of an entry, moved from `valuestring` to the name, and the colon behind it: where
      the value begins, -1 on failure. */
  method ParseKey(child: Node, t: string, p: nat) returns (q: int)
    requires p <= |t| && !ParseMember(t[p..]).Unmodelled?
    requires Unparsed(child) && child.name == null
    modifies child`kind, child`valuestring, child`name
    ensures Unparsed(child) && (child.name != null ==> fresh(child.name))
    ensures if q == -1 then ParseMember(t[p..]).Rejected?
      else
        && p < q <= |t| && child.name != null && NulFree(child.name.chars)
        && ParseMember(t[p..]) == Named(child.name.chars, JsonText.ParseValue(t[q..]))
  {
    hide JsonText.ParseValue, ParseMember, Unescape, Skip;
    MemberStarts(t[p..]);
    var text;
    text, q := ParseLiteral(t, p);
    if q == -1 {
      return;
    }
    child.kind := KString;
    child.valuestring := text;
    child.name := child.valuestring;
    child.valuestring := null;
    q := SkipBlanksAt(t, q);
    if Peek(t[q..]) != ':' {
      return -1;
    }
    assert t[q..][1..] == t[q + 1..];
    q := SkipBlanksAt(t, q + 1);
  }

  /** An entry of an object begins with a key and a colon. */
  lemma MemberStarts(u: string)
    ensures Peek(u) != '"' ==> ParseMember(u).Rejected?
    ensures Peek(u) == '"' ==>
      match Unescape(u[1..])
      case Unmodelled => ParseMember(u).Unmodelled?
      case Literal(key, rest) =>
        if Peek(Skip(rest)) != ':' then ParseMember(u).Rejected?
        else ParseMember(u) == Named(key, JsonText.ParseValue(Skip(Skip(rest)[1..])))
  {
    hide JsonText.ParseValue, Unescape, Skip;
  }

  /** A value under a key. */
  function Named(key: string, r: Parsed<Json>): Parsed<Member> {
    match r
    case Parsed(v, rest) => Parsed(Member(key, v), rest)
    case Rejected => Rejected
    case Unmodelled => Parsed<Member>.Unmodelled
  }

  /** The part of `parse_object` that fills one new item. */
  method ParseKeyAndValue(child: Node, t: string, p: nat) returns (end: int, ghost k: Shape)
    requires p <= |t| && !ParseMember(t[p..]).Unmodelled?
    requires Unparsed(child) && child.name == null
    modifies child`child, child`kind, child`valuestring, child`valueint, child`valuedouble, child`name
    ensures k.node == child && WellFormed(k) && !k.cell.isReference
    ensures forall o | o in Own(k) && o != child :: fresh(o)
    ensures AgreesMember(ParseMember(t[p..]), t, end, k)
    decreases |t| - p, 2
  {
    hide Own, OwnAll, Owned, OwnedAll, Tidy, Disjoint, Distinct, Linked, JsonText.ParseValue, ParseMember,
      Regular, Value;
    var q := ParseKey(child, t, p);
    if q == -1 {
      end := -1;
      BlankShape(child);
      k := Shape(child, child.Content(), []);
      return;
    }
    end, k := ParseValueInto(child, t, q);
    assert NameOf(k.cell) == {child.name as object};
  }

  // ----- arrays -----

  /** An item that is becoming an array or an object: new children, and the content it had. */
  ghost predicate Growing(item: Node, s0: Shape, s: Shape)
    reads Own(s)
  {
    && WellFormed(s) && s.node == item && s.cell == s0.cell && !s.cell.isReference
    && (forall k | k in s.kids :: NameFits(s.cell.kind, k.cell.name) && Regular(k))
  }

  ghost function RootSet(kids: seq<Shape>): (ns: set<Node>)
    ensures (forall n | n in ns :: n in Roots(kids)) && (forall n | n in Roots(kids) :: n in ns)
  {
    set n | n in Roots(kids)
  }

  lemma RootSetGrows(kids: seq<Shape>, kids': seq<Shape>, child: Node)
    requires Roots(kids') == Roots(kids) + [child]
    ensures RootSet(kids') == RootSet(kids) + {child}
  {
    hide Roots;
  }

  lemma NoRoots(s: Shape)
    requires NoNodes(s)
    ensures RootSet(s.kids) == {} && |s.kids| == 0
  {
  }

  ghost predicate NoNodes(s: Shape) {
    s.kids == []
  }

  lemma OneMoreAgrees(s: Shape, k: Shape)
    requires forall x | x in s.kids + [k] && x != k :: NameFits(s.cell.kind, x.cell.name) && Regular(x)
    requires NameFits(s.cell.kind, k.cell.name) && Regular(k)
    ensures forall x | x in s.kids + [k] :: NameFits(s.cell.kind, x.cell.name) && Regular(x)
    ensures Roots(s.kids + [k]) == Roots(s.kids) + [k.node]
  {
    hide Regular, NameFits;
  }

  /** One entry of an array and the blanks behind it: where the loop goes on, -1 on failure. */
  method ElementAndSkip(item: Node, last: Node?, t: string, q: nat, ghost s0: Shape, ghost s: Shape)
    returns (child: Node, v: int, ghost s': Shape)
    requires q <= |t| && !ElementsFrom(Values(s.kids), t[q..]).Unmodelled?
    requires s0.cell.kind == KArray && Growing(item, s0, s) && last == At(Roots(s.kids), |s.kids| - 1)
    modifies item`child, RootSet(s.kids)`next
    ensures fresh(child) && child == At(Roots(s'.kids), |s'.kids| - 1) && Roots(s'.kids) == Roots(s.kids) + [child]
    ensures WellFormed(s') && s'.node == item && s'.cell == s0.cell
    ensures forall o | o in Own(s') && o !in Own(s) :: fresh(o)
    ensures if v == -1 then ElementsFrom(Values(s.kids), t[q..]).Rejected?
      else
        && q <= v <= |t| && Growing(item, s0, s')
        && ElementsFrom(Values(s.kids), t[q..]) == AfterElement(Values(s'.kids), t[v..])
    decreases |t| - q, 4
  {
    hide Own, OwnAll, Owned, OwnedAll, Tidy, Disjoint, Distinct, Linked, JsonText.ParseValue, ElementsFrom,
      AfterElement, Value, Values, Skip, Regular;
    ElementStep(Values(s.kids), t[q..]);
    ghost var k;
    child, v, k, s' := ParseElement(item, last, t, q, s);
    RootsAppend(s.kids, k);
    if v != -1 {
      OneMoreAgrees(s, k);
      ValuesAppend(s.kids, k);
      assert allocated(Own(s'));
      v := SkipBlanksAt(t, v);
    }
  }

  /** The first entry and the loop of `parse_array`. */
  method ParseElementsInto(item: Node, t: string, p: nat, ghost s0: Shape) returns (end: int, ghost s: Shape)
    requires p <= |t| && !ParseElements(t[p..]).Unmodelled?
    requires s0.cell.kind == KArray && Growing(item, s0, s0) && NoNodes(s0)
    modifies item`child
    ensures WellFormed(s) && s.node == item && s.cell == s0.cell
    ensures forall o | o in Own(s) && o !in Own(s0) :: fresh(o)
    ensures if end == -1 then ParseElements(t[p..]).Rejected?
      else 0 <= end <= |t| && Growing(item, s0, s) && ParseElements(t[p..]) == Parsed(Values(s.kids), t[end..])
    decreases |t| - p, 5
  {
    hide Own, OwnAll, Owned, OwnedAll, Tidy, Disjoint, Distinct, Linked, JsonText.ParseValue, ParseElements,
      ElementsFrom, AfterElement, Value, Values, Skip, Regular, RootSet, NoNodes, Growing;
    ElementsStart(t[p..]);
    var child, v;
    NoRoots(s0);
    child, v, s := ElementAndSkip(item, null, t, p, s0, s0);
    RootSetGrows(s0.kids, s.kids, child);
    while v != -1 && Peek(t[v..]) == ','
      invariant WellFormed(s) && s.node == item && s.cell == s0.cell
      invariant forall o | o in Own(s) && o !in Own(s0) :: fresh(o)
      invariant child == At(Roots(s.kids), |s.kids| - 1) && forall n | n in RootSet(s.kids) :: fresh(n)
      invariant if v == -1 then ParseElements(t[p..]).Rejected?
        else p <= v <= |t| && Growing(item, s0, s) && ParseElements(t[p..]) == AfterElement(Values(s.kids), t[v..])
      decreases if v == -1 then 0 else |t| + 1 - v
    {
      AfterElementCases(Values(s.kids), t[v..]);
      assert t[v..][1..] == t[v + 1..];
      assert allocated(Own(s));
      v := SkipBlanksAt(t, v + 1);
      ghost var before := s.kids;
      child, v, s := ElementAndSkip(item, child, t, v, s0, s);
      RootSetGrows(before, s.kids, child);
    }
    end := -1;
    if v != -1 {
      AfterElementCases(Values(s.kids), t[v..]);
    }
    if v != -1 && Peek(t[v..]) == ']' {
      assert t[v..][1..] == t[v + 1..];
      end := v + 1;
    }
  }

  lemma EmptyArrayAgrees(t: string, p: nat, v: nat, s: Shape)
    requires p < |t| && v < |t| && t[v..] == Skip(t[p + 1..]) && t[v] == ']'
    requires s.cell.kind == KArray && !s.cell.isReference && Filled(s.cell) && s.kids == []
    ensures Agrees(ParseArray(t[p + 1..]), t, v + 1, s)
  {
    hide Skip, ParseElements;
    assert t[v..][1..] == t[v + 1..];
  }

  lemma ArrayAgrees(t: string, p: nat, v: nat, end: int, s: Shape)
    requires p < |t| && v <= |t| && t[v..] == Skip(t[p + 1..]) && Peek(t[v..]) != ']'
    requires s.cell.kind == KArray && !s.cell.isReference && Filled(s.cell)
    requires forall k | k in s.kids :: NameFits(s.cell.kind, k.cell.name) && Regular(k)
    requires 0 <= end <= |t| && ParseElements(t[v..]) == Parsed(Values(s.kids), t[end..])
    ensures Agrees(ParseArray(t[p + 1..]), t, end, s)
  {
    hide Skip, ParseElements, Values;
  }

  /** `parse_array`, at the opening bracket. */
  method ParseArrayInto(item: Node, t: string, p: nat) returns (end: int, ghost s: Shape)
    requires p < |t| && !ParseArray(t[p + 1..]).Unmodelled? && Unparsed(item)
    modifies item`child, item`kind
    ensures Built(item, item.name, s)
    ensures forall o | o in Own(s) && o != item && o !in NameOf(s.cell) :: fresh(o)
    ensures Agrees(ParseArray(t[p + 1..]), t, end, s)
    decreases |t| - p, 1
  {
    hide Own, OwnAll, Owned, OwnedAll, Tidy, Disjoint, Distinct, Linked, ParseElements, NameOf, Agrees, Skip,
      Values, Value, Regular;
    item.kind := KArray;
    BlankShape(item);
    s := Shape(item, item.Content(), []);
    assert allocated(Own(s));
    var v := SkipBlanksAt(t, p + 1);
    if Peek(t[v..]) == ']' {
      end := v + 1;
      EmptyArrayAgrees(t, p, v, s);
    } else {
      end, s := ParseElementsInto(item, t, v, s);
      if end == -1 {
        ArrayFails(t, p, v, s);
      } else {
        ArrayAgrees(t, p, v, end, s);
      }
    }
  }

  lemma ArrayFails(t: string, p: nat, v: nat, s: Shape)
    requires p < |t| && v <= |t| && t[v..] == Skip(t[p + 1..]) && Peek(t[v..]) != ']'
    requires ParseElements(t[v..]).Rejected?
    ensures Agrees(ParseArray(t[p + 1..]), t, -1, s)
  {
    hide Skip, ParseElements;
  }

  // ----- objects -----

  /** One entry of an object and the blanks behind it: where the loop goes on, -1 on failure. */
  method MemberAndSkip(item: Node, last: Node?, t: string, q: nat, ghost s0: Shape, ghost s: Shape)
    returns (child: Node, v: int, ghost s': Shape)
    requires q <= |t| && !MembersFrom(Members(s.kids), t[q..]).Unmodelled?
    requires s0.cell.kind == KObject && Growing(item, s0, s) && last == At(Roots(s.kids), |s.kids| - 1)
    modifies item`child, RootSet(s.kids)`next
    ensures fresh(child) && child == At(Roots(s'.kids), |s'.kids| - 1) && Roots(s'.kids) == Roots(s.kids) + [child]
    ensures WellFormed(s') && s'.node == item && s'.cell == s0.cell
    ensures forall o | o in Own(s') && o !in Own(s) :: fresh(o)
    ensures if v == -1 then MembersFrom(Members(s.kids), t[q..]).Rejected?
      else
        && q <= v <= |t| && Growing(item, s0, s')
        && MembersFrom(Members(s.kids), t[q..]) == AfterMember(Members(s'.kids), t[v..])
    decreases |t| - q, 4
  {
    hide Own, OwnAll, Owned, OwnedAll, Tidy, Disjoint, Distinct, Linked, ParseMember, MembersFrom, AfterMember,
      Value, Members, Skip, Regular;
    MemberStep(Members(s.kids), t[q..]);
    ghost var k;
    child, v, k, s' := ParseMemberInto(item, last, t, q, s);
    RootsAppend(s.kids, k);
    if v != -1 {
      OneMoreAgrees(s, k);
      MembersAppend(s.kids, k);
      assert allocated(Own(s'));
      v := SkipBlanksAt(t, v);
    }
  }

  /** The first entry and the loop of `parse_object`. */
  method ParseMembersInto(item: Node, t: string, p: nat, ghost s0: Shape) returns (end: int, ghost s: Shape)
    requires p <= |t| && !ParseMembers(t[p..]).Unmodelled?
    requires s0.cell.kind == KObject && Growing(item, s0, s0) && NoNodes(s0)
    modifies item`child
    ensures WellFormed(s) && s.node == item && s.cell == s0.cell
    ensures forall o | o in Own(s) && o !in Own(s0) :: fresh(o)
    ensures if end == -1 then ParseMembers(t[p..]).Rejected?
      else 0 <= end <= |t| && Growing(item, s0, s) && ParseMembers(t[p..]) == Parsed(Members(s.kids), t[end..])
    decreases |t| - p, 5
  {
    hide Own, OwnAll, Owned, OwnedAll, Tidy, Disjoint, Distinct, Linked, ParseMember, ParseMembers, MembersFrom,
      AfterMember, Value, Members, Skip, Regular, RootSet, NoNodes, Growing;
    MembersStart(t[p..]);
    var child, v;
    NoRoots(s0);
    child, v, s := MemberAndSkip(item, null, t, p, s0, s0);
    RootSetGrows(s0.kids, s.kids, child);
    while v != -1 && Peek(t[v..]) == ','
      invariant WellFormed(s) && s.node == item && s.cell == s0.cell
      invariant forall o | o in Own(s) && o !in Own(s0) :: fresh(o)
      invariant child == At(Roots(s.kids), |s.kids| - 1) && forall n | n in RootSet(s.kids) :: fresh(n)
      invariant if v == -1 then ParseMembers(t[p..]).Rejected?
        else p <= v <= |t| && Growing(item, s0, s) && ParseMembers(t[p..]) == AfterMember(Members(s.kids), t[v..])
      decreases if v == -1 then 0 else |t| + 1 - v
    {
      AfterMemberCases(Members(s.kids), t[v..]);
      assert t[v..][1..] == t[v + 1..];
      assert allocated(Own(s));
      v := SkipBlanksAt(t, v + 1);
      ghost var before := s.kids;
      child, v, s := MemberAndSkip(item, child, t, v, s0, s);
      RootSetGrows(before, s.kids, child);
    }
    end := -1;
    if v != -1 {
      AfterMemberCases(Members(s.kids), t[v..]);
    }
    if v != -1 && Peek(t[v..]) == '}' {
      assert t[v..][1..] == t[v + 1..];
      end := v + 1;
    }
  }

  lemma EmptyObjectAgrees(t: string, p: nat, v: nat, s: Shape)
    requires p < |t| && v < |t| && t[v..] == Skip(t[p + 1..]) && t[v] == '}'
    requires s.cell.kind == KObject && !s.cell.isReference && Filled(s.cell) && s.kids == []
    ensures Agrees(ParseObject(t[p + 1..]), t, v + 1, s)
  {
    hide Skip, ParseMembers;
    assert t[v..][1..] == t[v + 1..];
  }

  lemma ObjectAgrees(t: string, p: nat, v: nat, end: int, s: Shape)
    requires p < |t| && v <= |t| && t[v..] == Skip(t[p + 1..]) && Peek(t[v..]) != '}'
    requires s.cell.kind == KObject && !s.cell.isReference && Filled(s.cell)
    requires forall k | k in s.kids :: NameFits(s.cell.kind, k.cell.name) && Regular(k)
    requires 0 <= end <= |t| && ParseMembers(t[v..]) == Parsed(Members(s.kids), t[end..])
    ensures Agrees(ParseObject(t[p + 1..]), t, end, s)
  {
    hide Skip, ParseMembers, Members;
  }

  lemma ObjectFails(t: string, p: nat, v: nat, s: Shape)
    requires p < |t| && v <= |t| && t[v..] == Skip(t[p + 1..]) && Peek(t[v..]) != '}'
    requires ParseMembers(t[v..]).Rejected?
    ensures Agrees(ParseObject(t[p + 1..]), t, -1, s)
  {
    hide Skip, ParseMembers;
  }

  /** `parse_object`, at the opening brace. */
  method ParseObjectInto(item: Node, t: string, p: nat) returns (end: int, ghost s: Shape)
    requires p < |t| && !ParseObject(t[p + 1..]).Unmodelled? && Unparsed(item)
    modifies item`child, item`kind
    ensures Built(item, item.name, s)
    ensures forall o | o in Own(s) && o != item && o !in NameOf(s.cell) :: fresh(o)
    ensures Agrees(ParseObject(t[p + 1..]), t, end, s)
    decreases |t| - p, 1
  {
    hide Own, OwnAll, Owned, OwnedAll, Tidy, Disjoint, Distinct, Linked, ParseMembers, NameOf, Agrees, Skip,
      Members, Value, Regular;
    item.kind := KObject;
    BlankShape(item);
    s := Shape(item, item.Content(), []);
    assert allocated(Own(s));
    var v := SkipBlanksAt(t, p + 1);
    if Peek(t[v..]) == '}' {
      end := v + 1;
      EmptyObjectAgrees(t, p, v, s);
    } else {
      end, s := ParseMembersInto(item, t, v, s);
      if end == -1 {
        ObjectFails(t, p, v, s);
      } else {
        ObjectAgrees(t, p, v, end, s);
      }
    }
  }

  // ----- values -----

  /** Whether the text begins with the word, compared character by character. */
  method StartsWith(t: string, p: nat, word: string) returns (b: bool)
    requires p <= |t| && NulFree(word)
    ensures b <==> word <= t[p..]
  {
    b := true;
    var i := 0;
    while b && i < |word|
      invariant 0 <= i <= |word|
      invariant b ==> p + i <= |t| && t[p..p + i] == word[..i]
      invariant !b ==> !(word <= t[p..])
    {
      if p + i < |t| && t[p + i] == word[i] {
        i := i + 1;
      } else {
        assert word <= t[p..] ==> t[p..][i] == word[i];
        b := false;
      }
    }
  }

  /** A scalar has been stored in an item. */
  lemma ScalarBuilt(item: Node, t: string, end: nat)
    requires !item.isReference && item.child == null && end <= |t|
    requires Filled(item.Content()) && item.kind != KArray && item.kind != KObject
    requires item.valuestring != null ==> item.valuestring != item.name
    requires item.kind == KString ==> NulFree(item.valuestring.chars)
    ensures var s := Shape(item, item.Content(), []);
      && Built(item, item.name, s) && Own(s) == {item as object} + Strings(s.cell)
      && Agrees(Parsed(Value(s), t[end..]), t, end, s)
  {
    var s := Shape(item, item.Content(), []);
    OwnNothing();
    assert Linked(Roots([]));
    assert Tidy(s);
    assert Owned(s);
  }

  /** Nothing has been stored in an item. */
  lemma BlankBuilt(item: Node)
    requires Unparsed(item)
    ensures var s := Shape(item, item.Content(), []);
      Built(item, item.name, s) && Own(s) == {item as object} + NameOf(s.cell)
  {
    BlankShape(item);
  }

  /** The three words of `parse_value`; -1 if there is none. */
  method ParseWord(item: Node, t: string, p: nat) returns (end: int)
    requires p <= |t|
    modifies item`kind, item`valueint
    ensures if "null" <= t[p..] || "false" <= t[p..] || "true" <= t[p..] then
        && p <= end <= |t| && item.kind in {KNull, KFalse, KTrue}
        && item.valueint == (if item.kind == KTrue then 1 else old(item.valueint))
        && JsonText.ParseValue(t[p..]) == Parsed(WordValue(item.kind), t[end..])
      else end == -1 && unchanged(item)
  {
    hide ParseNumber, ParseArray, ParseObject, Unescape;
    var isNull := StartsWith(t, p, "null");
    var isFalse := StartsWith(t, p, "false");
    var isTrue := StartsWith(t, p, "true");
    end := -1;
    if isNull {
      item.kind := KNull;
      end := p + 4;
      assert t[p..][4..] == t[p + 4..];
    } else if isFalse {
      item.kind := KFalse;
      end := p + 5;
      assert t[p..][5..] == t[p + 5..];
    } else if isTrue {
      item.kind, item.valueint := KTrue, 1;
      end := p + 4;
      assert t[p..][4..] == t[p + 4..];
    }
  }

  /** The value of a word. */
  function WordValue(kind: Kind): Json {
    match kind
    case KFalse => False
    case KTrue => True
    case _ => Null
  }

  /** `parse_value`. */
  method ParseValueInto(item: Node, t: string, p: nat) returns (end: int, ghost s: Shape)
    requires p <= |t| && !JsonText.ParseValue(t[p..]).Unmodelled?
    requires Unparsed(item)
    modifies item`child, item`kind, item`valuestring, item`valueint, item`valuedouble
    ensures Built(item, item.name, s)
    ensures forall o | o in Own(s) && o != item && o !in NameOf(s.cell) :: fresh(o)
    ensures Agrees(JsonText.ParseValue(t[p..]), t, end, s)
    decreases |t| - p, 2
  {
    hide Own, OwnAll, Owned, OwnedAll, Tidy, Disjoint, Distinct, Linked, Skip, Regular, ParseNumber, ParseArray,
      ParseObject, Unescape, Built;
    end := ParseWord(item, t, p);
    if end != -1 {
    } else if Peek(t[p..]) == '"' {
      var text;
      text, end := ParseLiteral(t, p);
      item.valuestring := text;
      item.kind := KString;
    } else if Peek(t[p..]) == '-' || IsDigit(Peek(t[p..])) {
      end := ParseNumberInto(item, t, p);
    } else if Peek(t[p..]) == '[' {
      assert t[p..][1..] == t[p + 1..];
      end, s := ParseArrayInto(item, t, p);
      return;
    } else if Peek(t[p..]) == '{' {
      assert t[p..][1..] == t[p + 1..];
      end, s := ParseObjectInto(item, t, p);
      return;
    } else {
      end := -1;
      BlankBuilt(item);
      s := Shape(item, item.Content(), []);
      return;
    }
    ScalarBuilt(item, t, end);
    s := Shape(item, item.Content(), []);
  }

  /** `cJSON_ParseWithOpts`: the value at the start of the text becomes a tree of fresh nodes. On
      failure, which trailing text is where `requireNullTerminated` is set, what had been built is
      released. The outcomes in which the C code leaves the text are excluded. */
  method ParseWithOpts(value: string, requireNullTerminated: bool, pool: Pool)
    returns (c: Node?, end: int, ghost s: Shape)
    requires !JsonText.ParseValue(Skip(value)).Unmodelled?
    modifies pool
    ensures fresh(Own(s))
    ensures match JsonText.ParseValue(Skip(value))
      case Parsed(v, rest) =>
        if requireNullTerminated && Peek(Skip(rest)) != NUL then c == null
        else
          && c == s.node && WellFormed(s) && Detached(s.node) && Value(s) == v && Regular(s)
          && 0 <= end <= |value| && value[end..] == if requireNullTerminated then Skip(rest) else rest
      case _ => c == null
    ensures pool.freed == old(pool.freed) + if c == null then Own(s) else {}
  {
    hide Own, OwnAll, Owned, OwnedAll, Tidy, TidyAll, Disjoint, Distinct, Linked, Skip, Regular,
      JsonText.ParseValue, Value;
    var p := SkipBlanksAt(value, 0);
    assert value[0..] == value;
    c := new Node();
    end, s := ParseValueInto(c, value, p);
    assert NameOf(s.cell) == {};
    var failed := end == -1;
    if !failed && requireNullTerminated {
      assert allocated(Own(s));
      end := SkipBlanksAt(value, end);
      failed := Peek(value[end..]) != NUL;
    }
    if failed {
      LoneTree(s);
      Delete(c, pool, [s]);
      c := null;
    }
  }
}
