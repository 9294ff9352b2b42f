/** `cJSON_Duplicate`: a deep copy, through references, that shares nothing with its source. */
module CJsonDuplicate {
  import opened CJsonTree
  import opened CJsonEdits

  // ----- trees as a reader sees them -----

  /** The nodes that are met by following `child` and `next`, through references too. */
  ghost function Sight(s: Shape): set<Node>
    decreases s, 0
  {
    {s.node} + SightAll(s.kids)
  }

  ghost function SightAll(kids: seq<Shape>): set<Node>
    decreases kids, 1
  {
    set k, n | k in kids && n in Sight(k) :: n
  }

  /** The `next` links of a list of siblings. */
  ghost predicate Chained(ns: seq<Node>)
    reads ns`next
  {
    forall i | 0 <= i < |ns| :: ns[i].next == At(ns, i + 1)
  }

  /** The finite tree that a reader of a node sees. Nodes may be seen in several places. */
  ghost predicate Seen(s: Shape)
    reads Sight(s)
    decreases s, 0
  {
    s.node.Content() == s.cell && s.node.child == At(Roots(s.kids), 0) && SeenAll(s.kids)
  }

  ghost predicate SeenAll(kids: seq<Shape>)
    reads SightAll(kids)
    decreases kids, 1
  {
    && (forall k | k in kids :: k.node in Sight(k) && Sight(k) <= SightAll(kids))
    && Chained(Roots(kids))
    && (forall k | k in kids :: Seen(k))
  }

  // ----- copies -----

  ghost predicate SameText(a: Text?, b: Text?) {
    if a == null || b == null then a == b else a.chars == b.chars
  }

  /** The content of a copy: the same values, strings of its own, and no reference flag. */
  ghost predicate SameContent(d: Cell, c: Cell) {
    && !d.isReference
    && d.kind == c.kind && d.valueint == c.valueint && d.valuedouble == c.valuedouble
    && SameText(d.text, c.text) && SameText(d.name, c.name)
  }

  /** Node by node the same content. */
  ghost predicate CopyOf(d: Shape, s: Shape)
    decreases s
  {
    && SameContent(d.cell, s.cell)
    && |d.kids| == |s.kids|
    && forall i | 0 <= i < |s.kids| :: CopyOf(d.kids[i], s.kids[i])
  }

  /** `cJSON_strdup` on a pointer that may be null. */
  method StrDup(t: Text?) returns (r: Text?)
    ensures SameText(r, t) && (r != null ==> fresh(r))
  {
    if t == null {
      r := null;
    } else {
      r := new Text(t.chars);
    }
  }

  /** The part of `cJSON_Duplicate` that copies one node without its children. */
  method CopyNode(item: Node) returns (newitem: Node, ghost d: Shape)
    ensures fresh(newitem) && d == Shape(newitem, newitem.Content(), []) && SameContent(d.cell, item.Content())
    ensures WellFormed(d) && Detached(newitem) && fresh(Own(d)) && !d.cell.isReference
  {
    hide Own, OwnAll, Owned, OwnedAll, Tidy, WellFormed;
    newitem := new Node();
    newitem.kind, newitem.isReference := item.kind, false;
    newitem.valueint, newitem.valuedouble := item.valueint, item.valuedouble;
    var text := StrDup(item.valuestring);
    newitem.valuestring := text;
    var name := StrDup(item.name);
    newitem.name := name;
    d := Shape(newitem, newitem.Content(), []);
    ChildlessIsWellFormed(newitem);
  }

  /** A node without children whose two strings are distinct is a tree of its own. */
  lemma ChildlessIsWellFormed(n: Node)
    requires n.child == null && !n.isReference
    requires n.name != null ==> n.valuestring != n.name
    ensures var d := Shape(n, n.Content(), []); WellFormed(d) && Own(d) == {n as object} + Strings(d.cell)
  {
    assert Linked(Roots([]));
  }

  lemma SeenParts(s: Shape)
    requires Seen(s)
    ensures s.node.Content() == s.cell && s.node.child == At(Roots(s.kids), 0) && SeenAll(s.kids)
  {
    hide Sight, SightAll, SeenAll;
  }

  lemma SeenKids(kids: seq<Shape>)
    requires SeenAll(kids)
    ensures Chained(Roots(kids)) && forall i | 0 <= i < |kids| :: Seen(kids[i])
  {
    hide Sight, SightAll;
    assert forall i | 0 <= i < |kids| :: kids[i] in kids;
  }

  lemma RootsOwned(d: Shape)
    requires Tidy(d)
    ensures forall n | n in Roots(d.kids) :: n in Own(d) && n != d.node
  {
    hide Disjoint, OwnAll;
    forall i | 0 <= i < |d.kids|
      ensures d.kids[i].node in OwnAll(d.kids)
    {
      OwnMember(d.kids, i);
    }
  }

  /** Attaches a copied child to the copy under construction. */
  method AttachCopy(newitem: Node, nptr: Node?, newchild: Node, ghost d: Shape, ghost k: Shape)
    returns (ghost d': Shape)
    requires WellFormed(d) && d.node == newitem && !d.cell.isReference && Detached(newitem)
    requires nptr == At(Roots(d.kids), |d.kids| - 1)
    requires WellFormed(k) && k.node == newchild && Detached(newchild) && Own(d) !! Own(k)
    modifies Own(d), Own(k)
    ensures d' == d.(kids := d.kids + [k]) && WellFormed(d') && Own(d') == Own(d) + Own(k)
    ensures Detached(newitem)
  {
    hide Own, OwnAll, Owned, OwnedAll, Tidy, Disjoint, Distinct, Linked;
    ItemStart(d);
    ItemStart(k);
    RootsOwned(d);
    d' := AttachLast(newitem, nptr, newchild, d, k);
  }

  /** One round of the loop of `cJSON_Duplicate`: a child is copied and attached. */
  method CopyChild(newitem: Node, nptr: Node?, cptr: Node, ghost d: Shape, ghost kid: Shape)
    returns (newchild: Node, ghost d': Shape, ghost k: Shape)
    requires WellFormed(d) && d.node == newitem && !d.cell.isReference && Detached(newitem)
    requires nptr == At(Roots(d.kids), |d.kids| - 1)
    requires kid.node == cptr && Seen(kid)
    modifies Own(d)
    ensures d' == d.(kids := d.kids + [k]) && k.node == newchild && CopyOf(k, kid)
    ensures WellFormed(d') && Detached(newitem) && forall o | o in Own(d') && o !in Own(d) :: fresh(o)
    decreases kid, 1
  {
    hide Sight, SightAll, Seen, SeenAll, Own, OwnAll, Owned, OwnedAll, Tidy, CopyOf, SameContent, Disjoint,
      Distinct, Linked;
    assert allocated(Own(d));
    newchild, k := Duplicate(cptr, true, kid);
    d' := AttachCopy(newitem, nptr, newchild, d, k);
  }

  lemma MakeCopyOf(d: Shape, s: Shape)
    requires SameContent(d.cell, s.cell) && |d.kids| == |s.kids|
    requires forall i | 0 <= i < |s.kids| :: CopyOf(d.kids[i], s.kids[i])
    ensures CopyOf(d, s)
  {
  }

  /** `cJSON_Duplicate`: on a node that is the root of a finite tree, references followed, the
      result is a tree of fresh nodes and strings, linked in both directions, with equal content
      node by node, no reference flag anywhere, and a root that is in no list. Without `recurse`
      it is the root alone. The source is not written to. */
  method Duplicate(item: Node, recurse: bool, ghost s: Shape) returns (newitem: Node, ghost d: Shape)
    requires s.node == item && Seen(s)
    ensures d.node == newitem && WellFormed(d) && fresh(Own(d)) && Detached(newitem)
    ensures if recurse then CopyOf(d, s) else d.kids == [] && SameContent(d.cell, s.cell)
    decreases s, 0
  {
    hide Sight, SightAll, Seen, SeenAll, Own, OwnAll, Owned, OwnedAll, Tidy, CopyOf, SameContent, Disjoint,
      Distinct, Linked;
    SeenParts(s);
    assert allocated(SightAll(s.kids));
    newitem, d := CopyNode(item);
    if !recurse {
      return;
    }
    var cptr := item.child;
    var nptr: Node? := null;
    ghost var i := 0;
    while cptr != null
      invariant 0 <= i <= |s.kids| && cptr == At(Roots(s.kids), i)
      invariant fresh(Own(d)) && WellFormed(d) && Detached(newitem) && d.node == newitem
      invariant SameContent(d.cell, s.cell) && !d.cell.isReference && |d.kids| == i
      invariant nptr == At(Roots(d.kids), i - 1)
      invariant forall j | 0 <= j < i :: CopyOf(d.kids[j], s.kids[j])
      decreases |s.kids| - i
    {
      assert old(SeenAll(s.kids)) && old(allocated(SightAll(s.kids)));
      SeenKids(s.kids);
      ghost var k;
      nptr, d, k := CopyChild(newitem, nptr, cptr, d, s.kids[i]);
      cptr := cptr.next;
      i := i + 1;
    }
    MakeCopyOf(d, s);
  }
}
