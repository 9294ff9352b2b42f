/** The linked nodes of cJSON and what it means for them to form a tree.

    A `Shape` is a plain value that describes a tree: which node sits where and what it holds.
    Footprints, values and release orders are functions of the shape alone; only `Owned` and
    `Seen` look at the heap and say that it agrees with a shape. */
module CJsonTree {
  /** A NUL-terminated string on the C heap. It is never written to after it is created. */
  class Text {
    const chars: string

    constructor (chars: string)
      ensures this.chars == chars
    {
      this.chars := chars;
    }
  }

  /** The low eight bits of `type`, in the order of their codes. */
  datatype Kind = KFalse | KTrue | KNull | KNumber | KString | KArray | KObject

  /** Everything a node holds besides its links. */
  datatype Cell = Cell(kind: Kind, isReference: bool, text: Text?, valueint: int, valuedouble: real, name: Text?)

  const BLANK := Cell(KFalse, false, null, 0, 0.0, null)

  /** The structure `cJSON`: `isReference` is the flag bit of `type`, `name` the field `string`. */
  class Node {
    var next: Node?
    var prev: Node?
    var child: Node?
    var kind: Kind
    var isReference: bool
    var valuestring: Text?
    var valueint: int
    var valuedouble: real
    var name: Text?

    function Content(): Cell
      reads this
    {
      Cell(kind, isReference, valuestring, valueint, valuedouble, name)
    }

    /** `cJSON_New_Item`: all fields are zero. */
    constructor ()
      ensures next == null && prev == null && child == null && Content() == BLANK
    {
      next, prev, child := null, null, null;
      kind, isReference, valuestring, valueint, valuedouble, name := KFalse, false, null, 0, 0.0, null;
    }
  }

  datatype Shape = Shape(node: Node, cell: Cell, kids: seq<Shape>)

  /** The roots of a list of trees. */
  function Roots(kids: seq<Shape>): (ns: seq<Node>)
    ensures |ns| == |kids| && forall i | 0 <= i < |kids| :: ns[i] == kids[i].node
  {
    seq(|kids|, i requires 0 <= i < |kids| => kids[i].node)
  }

  lemma RootsAppend(kids: seq<Shape>, k: Shape)
    ensures Roots(kids + [k]) == Roots(kids) + [k.node]
  {
  }

  lemma RootsReplace(kids: seq<Shape>, i: nat, k: Shape)
    requires i < |kids|
    ensures Roots(kids[i := k]) == Roots(kids)[i := k.node]
  {
  }

  // ----- lists of siblings -----

  /** The node at a position of a list; null at its two ends. */
  function At(ns: seq<Node>, i: int): Node? {
    if 0 <= i < |ns| then ns[i] else null
  }

  /** A list of siblings: `next` and `prev` are each other's inverses and null at the ends. */
  ghost predicate Linked(ns: seq<Node>)
    reads ns
  {
    forall i | 0 <= i < |ns| :: ns[i].next == At(ns, i + 1) && ns[i].prev == At(ns, i - 1)
  }

  ghost predicate Distinct(ns: seq<Node>) {
    forall i, j | 0 <= i < j < |ns| :: ns[i] != ns[j]
  }

  // ----- what a tree owns -----

  /** The strings that are released together with a node. */
  ghost function Strings(c: Cell): set<object> {
    (if c.name != null then {c.name as object} else {})
    + (if !c.isReference && c.text != null then {c.text as object} else {})
  }

  /** All nodes and strings of an owning tree. */
  ghost function Own(s: Shape): set<object>
    decreases s, 0
  {
    {s.node as object} + Strings(s.cell) + OwnAll(s.kids)
  }

  ghost function OwnAll(kids: seq<Shape>): set<object>
    decreases kids, 1
  {
    set k, o | k in kids && o in Own(k) :: o
  }

  /** The tree at a node or at one below it. */
  ghost predicate Within(k: Shape, s: Shape)
    decreases s
  {
    k == s || exists j | j in s.kids :: Within(k, j)
  }

  lemma WithinBelow(k: Shape, s: Shape) returns (j: Shape)
    requires Within(k, s) && k != s
    ensures j in s.kids && Within(k, j)
  {
    j :| j in s.kids && Within(k, j);
  }

  /** What is released together with one node: itself, its name, and its text unless it is a
      reference to that of another node. */
  ghost predicate ReleasedWith(k: Shape, o: object) {
    || o == k.node
    || (k.cell.name != null && o == k.cell.name)
    || (!k.cell.isReference && k.cell.text != null && o == k.cell.text)
  }

  lemma OwnSplits(s: Shape, o: object)
    ensures o in Own(s) <==> ReleasedWith(s, o) || exists j | j in s.kids :: o in Own(j)
  {
    assert o in OwnAll(s.kids) <==> exists j | j in s.kids :: o in Own(j);
    assert o in {s.node as object} + Strings(s.cell) <==> ReleasedWith(s, o);
  }

  /** A tree owns exactly its nodes, their names and their texts. */
  lemma {:induction false} OwnIs(s: Shape, o: object)
    ensures o in Own(s) <==> exists k :: Within(k, s) && ReleasedWith(k, o)
    decreases s
  {
    hide Own, ReleasedWith;
    OwnSplits(s, o);
    forall j | j in s.kids
      ensures o in Own(j) <==> exists k :: Within(k, j) && ReleasedWith(k, o)
    {
      OwnIs(j, o);
    }
    if j :| j in s.kids && o in Own(j) {
      var k :| Within(k, j) && ReleasedWith(k, o);
      assert Within(k, s);
    }
    forall k | Within(k, s) && ReleasedWith(k, o)
      ensures o in Own(s)
    {
      if k != s {
        var j := WithinBelow(k, s);
        assert o in Own(j);
      }
    }
    assert ReleasedWith(s, o) ==> Within(s, s);
  }

  ghost predicate Disjoint(kids: seq<Shape>) {
    forall i, j | 0 <= i < j < |kids| :: Own(kids[i]) !! Own(kids[j])
  }

  /** No node and no string has two places in the tree. */
  ghost predicate Tidy(s: Shape)
    decreases s
  {
    && (!s.cell.isReference && s.cell.name != null ==> s.cell.text != s.cell.name)
    && (({s.node as object} + Strings(s.cell)) !! OwnAll(s.kids))
    && Disjoint(s.kids)
    && forall k | k in s.kids :: Tidy(k)
  }

  // ----- the heap agrees with a shape -----

  /** The tree that a node owns: its children are linked in both directions, and a reference
      item owns no children, whatever its `child` points at. */
  ghost predicate Owned(s: Shape)
    reads Own(s)
    decreases s, 0
  {
    && s.node.Content() == s.cell
    && (if s.cell.isReference then s.kids == [] else s.node.child == At(Roots(s.kids), 0))
    && OwnedAll(s.kids)
  }

  /** A list of siblings that own their trees. */
  ghost predicate OwnedAll(kids: seq<Shape>)
    reads OwnAll(kids)
    decreases kids, 1
  {
    && (forall k | k in kids :: k.node in Own(k) && Own(k) <= OwnAll(kids))
    && Linked(Roots(kids))
    && (forall k | k in kids :: Owned(k))
  }

  /** A tree that can be taken apart and edited. */
  ghost predicate WellFormed(s: Shape)
    reads Own(s)
  {
    Owned(s) && Tidy(s)
  }

  /** A node that is in no list. */
  ghost predicate Detached(n: Node)
    reads n
  {
    n.next == null && n.prev == null
  }

  // ----- framing -----

  lemma OwnMember(kids: seq<Shape>, i: nat)
    requires i < |kids|
    ensures Own(kids[i]) <= OwnAll(kids)
    ensures kids[i].node in Own(kids[i]) && kids[i].node in OwnAll(kids)
  {
    assert kids[i] in kids;
  }

  /** The nodes of a list are distinct. */
  lemma DistinctNodes(kids: seq<Shape>)
    requires Disjoint(kids)
    ensures Distinct(Roots(kids))
  {
    forall i, j | 0 <= i < j < |kids|
      ensures kids[i].node != kids[j].node
    {
      OwnMember(kids, i);
      OwnMember(kids, j);
    }
  }

  /** Changing the links of some roots, and nothing inside their trees, leaves every tree as it is. */
  twostate lemma RootsRelinked(kids: seq<Shape>)
    requires forall k | k in kids :: old(Owned(k))
    requires forall k | k in kids :: k.node.Content() == old(k.node.Content()) && k.node.child == old(k.node.child)
    requires forall k | k in kids :: forall o | o in OwnAll(k.kids) :: old(allocated(o)) && unchanged(o)
    ensures forall k | k in kids :: Owned(k)
  {
    forall k | k in kids
      ensures Owned(k)
    {
      assert OwnedAll(k.kids) == old(OwnedAll(k.kids));
    }
  }

  /** What lies below the children of a node is apart from the node and from all its children. */
  lemma InsidesApart(s: Shape)
    requires Tidy(s)
    ensures forall k, o | k in s.kids && o in OwnAll(k.kids) :: o != s.node && o in OwnAll(s.kids)
    ensures forall k, j, o | k in s.kids && j in s.kids && o in OwnAll(k.kids) :: o != j.node
  {
    forall k, o | k in s.kids && o in OwnAll(k.kids)
      ensures o != s.node && o in OwnAll(s.kids)
    {
      assert o in Own(k);
    }
    forall k, j, o | k in s.kids && j in s.kids && o in OwnAll(k.kids)
      ensures o != j.node
    {
      assert o in Own(k) && j.node in Own(j);
      assert Tidy(k);
    }
  }

  /** After an edit of the list of children: if the links are right and nothing but links has
      changed, the node owns the new list. */
  twostate lemma Relinked(s: Shape)
    requires forall k | k in s.kids :: old(Owned(k))
    requires Tidy(s) && !s.cell.isReference && s.node.Content() == s.cell
    requires s.node.child == At(Roots(s.kids), 0) && Linked(Roots(s.kids))
    requires forall k | k in s.kids :: k.node.Content() == old(k.node.Content()) && k.node.child == old(k.node.child)
    requires forall k, o | k in s.kids && o in OwnAll(k.kids) :: old(allocated(o)) && unchanged(o)
    ensures WellFormed(s)
  {
    RootsRelinked(s.kids);
    MakeOwned(s);
  }

  lemma OwnedKids(s: Shape)
    requires Owned(s)
    ensures forall k | k in s.kids :: Owned(k)
    ensures Linked(Roots(s.kids))
    ensures !s.cell.isReference ==> s.node.child == At(Roots(s.kids), 0)
    ensures s.node.Content() == s.cell
  {
  }

  /** How to conclude that a node owns its tree. */
  lemma MakeOwned(s: Shape)
    requires s.node.Content() == s.cell
    requires if s.cell.isReference then s.kids == [] else s.node.child == At(Roots(s.kids), 0)
    requires forall k | k in s.kids :: Owned(k)
    requires Linked(Roots(s.kids))
    ensures Owned(s)
  {
    forall k | k in s.kids
      ensures k.node in Own(k) && Own(k) <= OwnAll(s.kids)
    {
    }
  }
}
