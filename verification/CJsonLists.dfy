/** The pointer operations on a list of siblings, as operations on the sequence of its nodes. */
module CJsonLists {
  import opened CJsonTree

  /** A list without the element at an index. */
  function Without<T>(s: seq<T>, k: nat): seq<T>
    requires k < |s|
  {
    s[..k] + s[k + 1..]
  }

  lemma WithoutIs<T>(s: seq<T>, k: nat)
    requires k < |s|
    ensures var r := Without(s, k);
      |r| == |s| - 1 && (forall i | 0 <= i < k :: r[i] == s[i]) && forall i | k < i < |s| :: r[i - 1] == s[i]
  {
  }

  /** The index that the counting-down loops of the list edits stop at. */
  function Index(which: int): (k: nat)
    ensures which <= 0 ==> k == 0
    ensures which >= 0 ==> k == which
  {
    if which < 0 then 0 else which
  }

  /** In a list of siblings `next` and `prev` are each other's inverses and null at the ends. */
  lemma LinkedIs(ns: seq<Node>)
    ensures Linked(ns) <==>
      && (ns != [] ==> ns[0].prev == null && ns[|ns| - 1].next == null)
      && forall i | 0 < i < |ns| :: ns[i - 1].next == ns[i] && ns[i].prev == ns[i - 1]
  {
    if (ns != [] ==> ns[0].prev == null && ns[|ns| - 1].next == null)
      && forall i | 0 < i < |ns| :: ns[i - 1].next == ns[i] && ns[i].prev == ns[i - 1]
    {
      forall i | 0 <= i < |ns|
        ensures ns[i].next == At(ns, i + 1) && ns[i].prev == At(ns, i - 1)
      {
        assert i + 1 < |ns| ==> ns[i + 1 - 1].next == ns[i + 1];
      }
    }
    if Linked(ns) {
      forall i | 0 < i < |ns|
        ensures ns[i - 1].next == ns[i] && ns[i].prev == ns[i - 1]
      {
      }
    }
  }

  /** `cJSON_GetArraySize`. */
  method Count(parent: Node, ghost ns: seq<Node>) returns (i: int)
    requires parent.child == At(ns, 0) && Linked(ns)
    ensures i == |ns|
  {
    var c := parent.child;
    i := 0;
    while c != null
      invariant 0 <= i <= |ns| && c == At(ns, i)
      decreases |ns| - i
    {
      i, c := i + 1, c.next;
    }
  }

  /** `cJSON_GetArrayItem`. */
  method Seek(parent: Node, which: int, ghost ns: seq<Node>) returns (c: Node?)
    requires parent.child == At(ns, 0) && Linked(ns)
    ensures c == At(ns, Index(which))
  {
    c := parent.child;
    var left := which;
    ghost var i := 0;
    while c != null && left > 0
      invariant 0 <= i <= |ns| && c == At(ns, i)
      invariant left == (if which < 0 then which else which - i) && (i > 0 ==> left >= 0)
      decreases |ns| - i
    {
      left, c := left - 1, c.next;
      i := i + 1;
    }
  }

  /** The links that `cJSON_AddItemToArray` sets, `suffix_object` included. */
  method Append(parent: Node, item: Node, ghost ns: seq<Node>)
    requires parent.child == At(ns, 0) && Linked(ns) && Distinct(ns)
    requires item !in ns && parent !in ns && parent != item && Detached(item)
    modifies parent`child, ns`next, item`prev
    ensures parent.child == At(ns + [item], 0) && Linked(ns + [item])
  {
    var c := parent.child;
    if c == null {
      parent.child := item;
    } else {
      ghost var i := 0;
      while c.next != null
        invariant 0 <= i < |ns| && c == ns[i]
        decreases |ns| - i
      {
        c := c.next;
        i := i + 1;
      }
      c.next := item;
      item.prev := c;
    }
  }

  /** The same links, set by a caller that knows the last child. */
  method LinkLast(parent: Node, last: Node?, item: Node, ghost ns: seq<Node>)
    requires parent.child == At(ns, 0) && Linked(ns) && Distinct(ns) && last == At(ns, |ns| - 1)
    requires item !in ns && parent !in ns && parent != item && Detached(item)
    modifies parent`child, ns`next, item`prev
    ensures parent.child == At(ns + [item], 0) && Linked(ns + [item])
  {
    if last != null {
      last.next := item;
      item.prev := last;
    } else {
      parent.child := item;
    }
  }

  lemma OnlyAt(ns: seq<Node>, k: int)
    requires Distinct(ns)
    ensures 0 <= k < |ns| ==> forall i | 0 <= i < |ns| && i != k :: ns[i] != ns[k]
  {
  }

  /** The neighbours of a node skip it. */
  method JoinNeighbours(c: Node, ghost ns: seq<Node>, ghost k: nat)
    requires Linked(ns) && Distinct(ns) && k < |ns| && c == ns[k]
    modifies ns`next, ns`prev
    ensures forall i | 0 <= i < |ns| && i != k ::
      && ns[i].next == (if i == k - 1 then At(ns, k + 1) else At(ns, i + 1))
      && ns[i].prev == (if i == k + 1 then At(ns, k - 1) else At(ns, i - 1))
    ensures c.next == At(ns, k + 1)
  {
    OnlyAt(ns, k - 1);
    OnlyAt(ns, k + 1);
    hide Distinct;
    if c.prev != null {
      c.prev.next := c.next;
    }
    if c.next != null {
      c.next.prev := c.prev;
    }
  }

  /** The links that `cJSON_DetachItemFromArray` sets. */
  method Unlink(parent: Node, which: int, ghost ns: seq<Node>) returns (c: Node?)
    requires parent.child == At(ns, 0) && Linked(ns) && Distinct(ns) && parent !in ns
    modifies parent`child, ns`next, ns`prev
    ensures c == At(ns, Index(which))
    ensures c == null ==> unchanged(parent) && unchanged(ns)
    ensures c != null ==> Detached(c) && var ms := Without(ns, Index(which)); Linked(ms) && parent.child == At(ms, 0)
  {
    c := Seek(parent, which, ns);
    if c == null {
      return;
    }
    ghost var k: int := Index(which);
    OnlyAt(ns, 0);
    OnlyAt(ns, k);
    JoinNeighbours(c, ns, k);
    hide Distinct;
    if c == parent.child {
      parent.child := c.next;
    }
    c.prev, c.next := null, null;
    assert forall i | 0 <= i < |ns| && i != k :: ns[i] != c;
    LinkedWithout(ns, k);
  }

  /** The links around a node that has been left out. */
  lemma LinkedWithout(ns: seq<Node>, k: nat)
    requires k < |ns|
    requires forall i | 0 <= i < |ns| && i != k ::
      && ns[i].next == (if i == k - 1 then At(ns, k + 1) else At(ns, i + 1))
      && ns[i].prev == (if i == k + 1 then At(ns, k - 1) else At(ns, i - 1))
    ensures Linked(Without(ns, k))
  {
    var ms := Without(ns, k);
    forall i | 0 <= i < |ms|
      ensures ms[i].next == At(ms, i + 1) && ms[i].prev == At(ms, i - 1)
    {
      var j := if i < k then i else i + 1;
      assert ms[i] == ns[j];
    }
  }

  /** The new node takes the links of an old one, and the node behind it points back to it. */
  method TakeLinks(c: Node, item: Node, ghost ns: seq<Node>, ghost k: nat)
    requires Linked(ns) && Distinct(ns) && k < |ns| && c == ns[k] && item !in ns
    modifies item`next, item`prev, ns`prev
    ensures item.next == At(ns, k + 1) && item.prev == At(ns, k - 1)
    ensures forall i | 0 <= i < |ns| && i != k :: ns[i].prev == (if i == k + 1 then item else At(ns, i - 1))
  {
    OnlyAt(ns, k + 1);
    hide Distinct;
    item.next := c.next;
    item.prev := c.prev;
    if item.next != null {
      item.next.prev := item;
    }
  }

  /** The parent, or the node before an old node, points to the new one. */
  method PointTo(parent: Node, c: Node, item: Node, ghost ns: seq<Node>, ghost k: nat)
    requires Distinct(ns) && k < |ns| && c == ns[k] && parent !in ns && parent.child == At(ns, 0)
    requires item !in ns && item != parent && item.prev == At(ns, k - 1)
    requires forall i | 0 <= i < |ns| :: ns[i].next == At(ns, i + 1)
    modifies parent`child, ns`next
    ensures parent.child == if k == 0 then item else At(ns, 0)
    ensures forall i | 0 <= i < |ns| && i != k :: ns[i].next == (if i == k - 1 then item else At(ns, i + 1))
  {
    OnlyAt(ns, 0);
    OnlyAt(ns, k - 1);
    hide Distinct;
    if c == parent.child {
      parent.child := item;
    } else {
      item.prev.next := item;
    }
  }

  /** The links that `cJSON_ReplaceItemInArray` sets. */
  method Substitute(parent: Node, which: int, item: Node, ghost ns: seq<Node>) returns (c: Node?)
    requires parent.child == At(ns, 0) && Linked(ns) && Distinct(ns) && parent !in ns
    requires item !in ns && item != parent
    modifies parent`child, ns`next, ns`prev, item`next, item`prev
    ensures c == At(ns, Index(which))
    ensures c == null ==> unchanged(parent) && unchanged(ns) && unchanged(item)
    ensures c != null ==> Detached(c) && var ms := ns[Index(which) := item]; Linked(ms) && parent.child == At(ms, 0)
  {
    c := Seek(parent, which, ns);
    if c == null {
      return;
    }
    ghost var k := Index(which);
    OnlyAt(ns, k);
    TakeLinks(c, item, ns, k);
    PointTo(parent, c, item, ns, k);
    hide Distinct, Index;
    c.next, c.prev := null, null;
    LinkedReplaced(ns, k, item);
  }

  /** The links around a node that another one has replaced. */
  lemma LinkedReplaced(ns: seq<Node>, k: nat, item: Node)
    requires k < |ns| && item.next == At(ns, k + 1) && item.prev == At(ns, k - 1)
    requires forall i | 0 <= i < |ns| && i != k ::
      && ns[i].next == (if i == k - 1 then item else At(ns, i + 1))
      && ns[i].prev == (if i == k + 1 then item else At(ns, i - 1))
    ensures Linked(ns[k := item])
  {
    var ms := ns[k := item];
    forall i | 0 <= i < |ms|
      ensures ms[i].next == At(ms, i + 1) && ms[i].prev == At(ms, i - 1)
    {
    }
  }
}
