/** Editing a tree: each edit of a node's children is an edit of the sequence of child trees. */
module CJsonEdits {
  import opened CText
  import opened CJsonNames
  import opened CJsonTree
  import opened CJsonLists
  import opened CJsonRelease

  // ----- what an edit of the sequence of children does to ownership -----

  /** A list has the members of another list and one more. */
  ghost predicate OneMore(kids: seq<Shape>, less: seq<Shape>, t: Shape) {
    (forall x | x in kids :: x in less || x == t) && (forall x | x in less :: x in kids) && t in kids
  }

  lemma OwnAllUnion(kids: seq<Shape>, less: seq<Shape>, t: Shape)
    requires OneMore(kids, less, t)
    ensures OwnAll(kids) == OwnAll(less) + Own(t)
  {
    hide Own;
  }

  lemma OwnAllApart(less: seq<Shape>, own: set<object>)
    requires forall x | x in less :: Own(x) !! own
    ensures OwnAll(less) !! own
  {
    hide Own;
  }

  lemma DisjointMembers(kids: seq<Shape>, i: nat, j: nat)
    requires i < |kids| && j < |kids| && i != j && Disjoint(kids)
    ensures Own(kids[i]) !! Own(kids[j])
  {
    hide Own;
  }

  lemma OwnAllWithout(kids: seq<Shape>, k: nat)
    requires k < |kids| && Disjoint(kids)
    ensures var less := Without(kids, k);
      && OwnAll(kids) == OwnAll(less) + Own(kids[k])
      && OwnAll(less) !! Own(kids[k])
      && Disjoint(less)
      && forall x | x in less :: x in kids
  {
    hide Own, OwnAll, Disjoint, Without;
    var less := Without(kids, k);
    WithoutMembers(kids, k);
    forall x | x in less
      ensures Own(x) !! Own(kids[k])
    {
      var i :| 0 <= i < |kids| && i != k && kids[i] == x;
      DisjointMembers(kids, i, k);
    }
    OwnAllUnion(kids, less, kids[k]);
    OwnAllApart(less, Own(kids[k]));
    DisjointWithout(kids, k);
  }

  lemma WithoutMembers(kids: seq<Shape>, k: nat)
    requires k < |kids|
    ensures OneMore(kids, Without(kids, k), kids[k])
    ensures forall x | x in Without(kids, k) :: exists i :: 0 <= i < |kids| && i != k && kids[i] == x
  {
    var less := Without(kids, k);
    forall x | x in less
      ensures exists i :: 0 <= i < |kids| && i != k && kids[i] == x
    {
      var i :| 0 <= i < |less| && less[i] == x;
      assert kids[if i < k then i else i + 1] == x;
    }
    forall x | x in kids
      ensures x in less || x == kids[k]
    {
      var i :| 0 <= i < |kids| && kids[i] == x;
      assert i != k ==> less[if i < k then i else i - 1] == x;
    }
  }

  lemma DisjointWithout(kids: seq<Shape>, k: nat)
    requires k < |kids| && Disjoint(kids)
    ensures Disjoint(Without(kids, k))
  {
    hide Own;
    var less := Without(kids, k);
    forall i, j | 0 <= i < j < |less|
      ensures Own(less[i]) !! Own(less[j])
    {
      DisjointMembers(kids, if i < k then i else i + 1, if j < k then j else j + 1);
    }
  }

  lemma DisjointAppend(kids: seq<Shape>, t: Shape)
    requires Disjoint(kids) && OwnAll(kids) !! Own(t)
    ensures Disjoint(kids + [t])
  {
    hide Own, OwnAll;
    var more := kids + [t];
    forall i, j | 0 <= i < j < |more|
      ensures Own(more[i]) !! Own(more[j])
    {
      OwnMember(kids, i);
      if j < |kids| {
        DisjointMembers(kids, i, j);
      }
    }
  }

  lemma DisjointReplace(kids: seq<Shape>, k: nat, t: Shape)
    requires k < |kids| && Disjoint(kids) && OwnAll(kids) !! Own(t)
    ensures Disjoint(kids[k := t])
  {
    hide Own, OwnAll;
    var more := kids[k := t];
    forall i, j | 0 <= i < j < |more|
      ensures Own(more[i]) !! Own(more[j])
    {
      OwnMember(kids, i);
      OwnMember(kids, j);
      DisjointMembers(kids, i, j);
    }
  }

  lemma TidyAppend(s: Shape, t: Shape)
    requires Tidy(s) && Tidy(t) && Own(s) !! Own(t)
    ensures var s' := s.(kids := s.kids + [t]); Tidy(s') && Own(s') == Own(s) + Own(t)
  {
    hide Disjoint, OwnAll;
    OwnAllUnion(s.kids + [t], s.kids, t);
    DisjointAppend(s.kids, t);
  }

  lemma TidyRemove(s: Shape, k: nat)
    requires Tidy(s) && k < |s.kids|
    ensures var s' := s.(kids := Without(s.kids, k)); Tidy(s') && Own(s') == Own(s) - Own(s.kids[k])
  {
    hide Disjoint, OwnAll, Without;
    OwnAllWithout(s.kids, k);
  }

  lemma TidyReplace(s: Shape, k: nat, t: Shape)
    requires Tidy(s) && k < |s.kids| && Tidy(t) && Own(s) !! Own(t)
    ensures var s' := s.(kids := s.kids[k := t]); Tidy(s') && Own(s') == Own(s) - Own(s.kids[k]) + Own(t)
  {
    hide Disjoint, OwnAll, Without;
    var kids, less := s.kids[k := t], Without(s.kids, k);
    OwnAllWithout(s.kids, k);
    ReplaceMembers(s.kids, k, t);
    OwnAllUnion(kids, less, t);
    DisjointReplace(s.kids, k, t);
  }

  lemma ReplaceMembers(kids: seq<Shape>, k: nat, t: Shape)
    requires k < |kids|
    ensures OneMore(kids[k := t], Without(kids, k), t)
  {
    var less, more := Without(kids, k), kids[k := t];
    forall x | x in less
      ensures x in more
    {
      var i :| 0 <= i < |less| && less[i] == x;
      assert x == more[if i < k then i else i + 1];
    }
    forall x | x in more
      ensures x in less || x == t
    {
      var i :| 0 <= i < |more| && more[i] == x;
      assert i != k ==> x == less[if i < k then i else i - 1];
    }
    assert more[k] == t;
  }

  /** What an edit may count on: the list of children, and where the parts of the tree are. */
  lemma EditStart(s: Shape)
    requires WellFormed(s) && !s.cell.isReference
    ensures s.node.child == At(Roots(s.kids), 0) && s.node.Content() == s.cell
    ensures Linked(Roots(s.kids)) && Distinct(Roots(s.kids)) && s.node !in Roots(s.kids)
    ensures forall k | k in s.kids :: Owned(k) && k.node in Own(s)
    ensures forall k, o | k in s.kids && o in OwnAll(k.kids) :: o != s.node && o !in Roots(s.kids) && o in Own(s)
  {
    hide Linked, Disjoint, OwnAll;
    OwnedKids(s);
    DistinctNodes(s.kids);
    forall i | 0 <= i < |s.kids|
      ensures s.kids[i].node in OwnAll(s.kids)
    {
      OwnMember(s.kids, i);
    }
    InsidesApart(s);
  }

  /** What an edit may count on for a tree that is put into another one. */
  lemma ItemStart(t: Shape)
    requires WellFormed(t)
    ensures t.node.Content() == t.cell && t.node in Own(t)
    ensures OwnAll(t.kids) <= Own(t) && t.node !in OwnAll(t.kids)
  {
    hide OwnAll;
  }

  // ----- the edits -----

  /** `cJSON_AddItemToArray` on an item that is not null: it becomes the last child. */
  method AppendItem(parent: Node, item: Node, ghost s: Shape, ghost t: Shape) returns (ghost s': Shape)
    requires WellFormed(s) && s.node == parent && !s.cell.isReference
    requires WellFormed(t) && t.node == item && Detached(item) && Own(s) !! Own(t)
    modifies parent`child, Roots(s.kids)`next, item`prev
    ensures s' == s.(kids := s.kids + [t])
    ensures WellFormed(s') && Own(s') == Own(s) + Own(t)
  {
    hide Own, OwnAll, Owned, OwnedAll, Tidy, Linked, Distinct, Disjoint;
    s' := s.(kids := s.kids + [t]);
    AppendStart(s, t);
    assert allocated(Own(s)) && allocated(Own(t));
    assert forall o | o in Own(s) + Own(t) :: allocated(o);
    Append(parent, item, Roots(s.kids));
    TidyAppend(s, t);
    RootsAppend(s.kids, t);
    EditEnd(s');
  }

  /** `cJSON_AddItemToArray`: a null item is ignored. */
  method AddItemToArray(parent: Node, item: Node?, ghost s: Shape, ghost t: Shape) returns (ghost s': Shape)
    requires WellFormed(s) && s.node == parent && !s.cell.isReference
    requires item != null ==> WellFormed(t) && t.node == item && Detached(item) && Own(s) !! Own(t)
    modifies parent`child, Roots(s.kids)`next, (if item == null then {} else {item})`prev
    ensures s' == if item == null then s else s.(kids := s.kids + [t])
    ensures WellFormed(s') && Own(s') == Own(s) + (if item == null then {} else Own(t))
  {
    s' := s;
    if item != null {
      s' := AppendItem(parent, item, s, t);
    }
  }

  lemma InsidesOffList(s: Shape)
    requires Tidy(s)
    ensures forall k, o | k in s.kids && o in OwnAll(k.kids) :: o != s.node && o !in Roots(s.kids) && o in Own(s)
  {
    hide Disjoint, OwnAll;
    InsidesApart(s);
  }

  /** What an append may count on. */
  lemma AppendStart(s: Shape, t: Shape)
    requires WellFormed(s) && WellFormed(t) && !s.cell.isReference && Own(s) !! Own(t)
    ensures s.node.child == At(Roots(s.kids), 0) && Linked(Roots(s.kids)) && Distinct(Roots(s.kids))
    ensures t.node !in Roots(s.kids) && s.node !in Roots(s.kids) && s.node != t.node
    ensures s.node.Content() == s.cell && s.node in Own(s) && t.node in Own(t)
    ensures forall k | k in s.kids :: k.node in Own(s) && Owned(k)
    ensures Owned(t) && t.node.Content() == t.cell
  {
    hide Own, OwnAll, Owned, OwnedAll, Tidy, Linked, Distinct, Disjoint;
    EditStart(s);
    ItemStart(s);
    ItemStart(t);
  }

  /** When the links of an edit are set and nothing else has changed, the new tree is well formed. */
  twostate lemma EditEnd(s: Shape)
    requires Tidy(s) && !s.cell.isReference && s.node.Content() == s.cell
    requires forall k | k in s.kids :: old(Owned(k))
    requires Linked(Roots(s.kids)) && s.node.child == At(Roots(s.kids), 0)
    requires forall k | k in s.kids :: k.node.Content() == old(k.node.Content()) && k.node.child == old(k.node.child)
    requires forall o | o in Own(s) && o != s.node && o !in Roots(s.kids) :: old(allocated(o)) && unchanged(o)
    ensures WellFormed(s)
  {
    hide Own, OwnAll, Owned, OwnedAll, Tidy, Linked, Disjoint;
    InsidesOffList(s);
    forall k, o | k in s.kids && o in OwnAll(k.kids)
      ensures old(allocated(o)) && unchanged(o)
    {
      assert o in Own(s) && o !in Roots(s.kids);
    }
    Relinked(s);
  }

  /** The links that the loops of the parser and of `cJSON_Duplicate` set: they remember the last
      child instead of walking the list. */
  method AttachLast(parent: Node, last: Node?, item: Node, ghost s: Shape, ghost t: Shape) returns (ghost s': Shape)
    requires WellFormed(s) && s.node == parent && !s.cell.isReference
    requires last == At(Roots(s.kids), |s.kids| - 1)
    requires WellFormed(t) && t.node == item && Detached(item) && Own(s) !! Own(t)
    modifies parent`child, Roots(s.kids)`next, item`prev
    ensures s' == s.(kids := s.kids + [t])
    ensures WellFormed(s') && Own(s') == Own(s) + Own(t) && item.next == null
  {
    hide Own, OwnAll, Owned, OwnedAll, Tidy, Linked, Distinct, Disjoint;
    s' := s.(kids := s.kids + [t]);
    AppendStart(s, t);
    assert allocated(Own(s)) && allocated(Own(t));
    assert forall o | o in Own(s) + Own(t) :: allocated(o);
    LinkLast(parent, last, item, Roots(s.kids));
    TidyAppend(s, t);
    RootsAppend(s.kids, t);
    LastNext(Roots(s'.kids));
    EditEnd(s');
  }

  lemma LastNext(ns: seq<Node>)
    requires ns != [] && Linked(ns)
    ensures ns[|ns| - 1].next == null
  {
  }

  /** `cJSON_DetachItemFromArray`: the child at an index, a negative index counting as 0, leaves
      the list and keeps its tree. */
  method DetachItemFromArray(parent: Node, which: int, ghost s: Shape) returns (c: Node?, ghost s': Shape)
    requires WellFormed(s) && s.node == parent && !s.cell.isReference
    modifies parent`child, Roots(s.kids)`next, Roots(s.kids)`prev
    ensures c == At(Roots(s.kids), Index(which))
    ensures c == null ==> s' == s
    ensures c != null ==> var k := s.kids[Index(which)];
      && s' == s.(kids := Without(s.kids, Index(which))) && Own(s') == Own(s) - Own(k)
      && WellFormed(k) && Own(k) <= Own(s) && Detached(c)
    ensures WellFormed(s')
  {
    hide Own, OwnAll, Owned, OwnedAll, Tidy, Linked, Distinct, Disjoint, Without;
    s' := s;
    EditStart(s);
    assert parent in Own(s) by { ItemStart(s); }
    assert allocated(Own(s));
    assert forall o | o in Own(s) :: allocated(o);
    c := Unlink(parent, which, Roots(s.kids));
    if c == null {
      return;
    }
    ghost var k := Index(which);
    s' := s.(kids := Without(s.kids, k));
    TidyRemove(s, k);
    RootsWithout(s.kids, k);
    forall x, o | x in s.kids && o in OwnAll(x.kids)
      ensures old(allocated(o)) && unchanged(o)
    {
      assert o in Own(s) && o !in Roots(s.kids) && o != parent;
    }
    RootsRelinked(s.kids);
    MakeOwned(s');
    KidIsTidy(s, k);
  }

  lemma RootsWithout(kids: seq<Shape>, k: nat)
    requires k < |kids|
    ensures Roots(Without(kids, k)) == Without(Roots(kids), k)
    ensures forall x | x in Without(kids, k) :: x in kids
  {
  }

  lemma KidIsTidy(s: Shape, k: nat)
    requires Tidy(s) && k < |s.kids|
    ensures s.kids[k] in s.kids && Tidy(s.kids[k]) && Own(s.kids[k]) <= Own(s)
  {
    OwnMember(s.kids, k);
  }

  lemma LoneTree(t: Shape)
    requires WellFormed(t) && Detached(t.node)
    ensures OwnedAll([t]) && TidyAll([t]) && OwnAll([t]) == Own(t)
  {
    hide Tidy, Owned, Own, OwnAll;
    OwnAllUnion([t], [], t);
    OwnNothing();
    ItemStart(t);
  }

  /** `cJSON_DeleteItemFromArray`. */
  method DeleteItemFromArray(parent: Node, which: int, pool: Pool, ghost s: Shape) returns (ghost s': Shape)
    requires WellFormed(s) && s.node == parent && !s.cell.isReference
    requires pool !in Own(s) && Own(s) !! pool.freed
    modifies parent`child, Roots(s.kids)`next, Roots(s.kids)`prev, pool
    ensures WellFormed(s')
    ensures if Index(which) < |s.kids| then
        var k := Index(which);
        s' == s.(kids := Without(s.kids, k)) && pool.freed == old(pool.freed) + Own(s.kids[k]) && Own(s') !! pool.freed
      else s' == s && pool.freed == old(pool.freed)
  {
    hide Own, OwnAll, Owned, OwnedAll, Tidy, TidyAll, Without;
    assert allocated(Own(s));
    var c;
    c, s' := DetachItemFromArray(parent, which, s);
    if c == null {
      return;
    }
    ghost var t := s.kids[Index(which)];
    LoneTree(t);
    assert allocated(Own(s')) && pool !in Own(s');
    Delete(c, pool, [t]);
    assert WellFormed(s');
  }

  /** The links of `cJSON_ReplaceItemInArray`: afterwards the new tree is a child and the old
      child a tree of its own. */
  method ExchangeItem(parent: Node, which: int, item: Node, ghost s: Shape, ghost t: Shape)
    returns (c: Node?, ghost s': Shape)
    requires WellFormed(s) && s.node == parent && !s.cell.isReference
    requires WellFormed(t) && t.node == item && Own(s) !! Own(t)
    modifies parent`child, Roots(s.kids)`next, Roots(s.kids)`prev, item`next, item`prev
    ensures c == At(Roots(s.kids), Index(which)) && WellFormed(s')
    ensures c == null ==> s' == s && unchanged(item)
    ensures c != null ==> var k := Index(which);
      && s' == s.(kids := s.kids[k := t]) && Own(s') == Own(s) - Own(s.kids[k]) + Own(t)
      && WellFormed(s.kids[k]) && Own(s.kids[k]) <= Own(s) && Detached(c)
  {
    hide Own, OwnAll, Owned, OwnedAll, Tidy, Linked, Distinct, Disjoint;
    s' := s;
    EditStart(s);
    ItemStart(s);
    ItemStart(t);
    assert allocated(Own(s)) && allocated(Own(t));
    assert forall o | o in Own(s) :: allocated(o);
    assert forall o | o in Own(t) :: allocated(o);
    c := Substitute(parent, which, item, Roots(s.kids));
    if c == null {
      return;
    }
    ghost var k := Index(which);
    s' := s.(kids := s.kids[k := t]);
    TidyReplace(s, k, t);
    RootsReplace(s.kids, k, t);
    forall x, o | x in s.kids && o in OwnAll(x.kids)
      ensures old(allocated(o)) && unchanged(o)
    {
      assert o in Own(s) && o !in Roots(s.kids) && o != parent;
    }
    RootsRelinked(s.kids);
    assert Owned(t) by {
      assert forall o | o in OwnAll(t.kids) :: unchanged(o);
      RootsRelinked([t]);
    }
    MakeOwned(s');
    KidIsTidy(s, k);
  }

  /** `cJSON_ReplaceItemInArray`: the new item takes the place of a child, which is deleted with
      all it owns. If there is no such child nothing happens, not even to the new item. */
  method ReplaceItemInArray(parent: Node, which: int, item: Node, pool: Pool, ghost s: Shape, ghost t: Shape)
    returns (ghost s': Shape)
    requires WellFormed(s) && s.node == parent && !s.cell.isReference
    requires WellFormed(t) && t.node == item && Own(s) !! Own(t)
    requires pool !in Own(s) && pool !in Own(t) && Own(s) !! pool.freed
    modifies parent`child, Roots(s.kids)`next, Roots(s.kids)`prev, item`next, item`prev, pool
    ensures WellFormed(s')
    ensures if Index(which) < |s.kids| then
        var k := Index(which);
        && s' == s.(kids := s.kids[k := t]) && Own(s') == Own(s) - Own(s.kids[k]) + Own(t)
        && pool.freed == old(pool.freed) + Own(s.kids[k])
      else s' == s && pool.freed == old(pool.freed) && unchanged(item)
  {
    hide Own, OwnAll, Owned, OwnedAll, Tidy, TidyAll, Linked, Distinct, Disjoint;
    var c;
    c, s' := ExchangeItem(parent, which, item, s, t);
    if c != null {
      ghost var out := s.kids[Index(which)];
      LoneTree(out);
      assert allocated(Own(s'));
      Delete(c, pool, [out]);
    }
  }

  // ----- objects: children with names -----

  ghost function NameOf(c: Cell): set<object> {
    if c.name == null then {} else {c.name as object}
  }

  /** A tree whose root carries another name. */
  function Renamed(t: Shape, name: Text): Shape {
    t.(cell := t.cell.(name := name))
  }

  lemma RenamedIsTidy(t: Shape, name: Text)
    requires Tidy(t) && name !in Own(t)
    ensures Tidy(Renamed(t, name)) && Own(Renamed(t, name)) == Own(t) - NameOf(t.cell) + {name}
  {
    hide OwnAll, Disjoint;
  }

  lemma NameIsOwn(t: Shape)
    requires WellFormed(t)
    ensures NameOf(t.cell) <= Own(t) && t.node.name == t.cell.name
  {
    hide OwnAll, OwnedAll, Disjoint;
  }

  /** `item->string = cJSON_strdup(string)`. */
  method SetName(item: Node, key: string, ghost t: Shape) returns (ghost t': Shape)
    requires WellFormed(t) && t.node == item
    modifies item`name
    ensures t'.cell.name != null && fresh(t'.cell.name) && t'.cell.name.chars == key
    ensures t' == Renamed(t, t'.cell.name) && WellFormed(t')
    ensures Own(t') == Own(t) - NameOf(t.cell) + {t'.cell.name}
  {
    hide Own, OwnAll, OwnedAll, Tidy, Disjoint;
    ItemStart(t);
    assert allocated(Own(t)) && allocated(OwnAll(t.kids));
    var name := new Text(key);
    assert name !in Own(t);
    item.name := name;
    t' := Renamed(t, name);
    RenamedIsTidy(t, name);
    assert OwnedAll(t.kids);
  }

  /** `cJSON_AddItemToObject` on an item that is not null: the item is given a new name, its old
      name is released, and it becomes the last child. */
  method AppendNamed(parent: Node, key: string, item: Node, pool: Pool, ghost s: Shape, ghost t: Shape)
    returns (ghost s': Shape, ghost t': Shape)
    requires WellFormed(s) && s.node == parent && !s.cell.isReference
    requires WellFormed(t) && t.node == item && Detached(item) && Own(s) !! Own(t)
    requires pool !in Own(s) && pool !in Own(t) && NameOf(t.cell) !! pool.freed
    modifies parent`child, Roots(s.kids)`next, item`prev, item`name, pool
    ensures t'.cell.name != null && fresh(t'.cell.name) && t'.cell.name.chars == key && t' == Renamed(t, t'.cell.name)
    ensures s' == s.(kids := s.kids + [t']) && WellFormed(s')
    ensures Own(s') == Own(s) + (Own(t) - NameOf(t.cell)) + {t'.cell.name}
    ensures pool.freed == old(pool.freed) + NameOf(t.cell)
  {
    hide Own, OwnAll, Owned, OwnedAll, Tidy, Disjoint, Roots;
    NameIsOwn(t);
    ItemStart(t);
    assert allocated(Own(s)) && allocated(Own(t));
    if item.name != null {
      pool.Free(item.name);
    }
    assert allocated(Own(s));
    t' := SetName(item, key, t);
    assert allocated(Own(t'));
    s' := AppendItem(parent, item, s, t');
  }

  /** `cJSON_AddItemToObject`: a null item is ignored. */
  method AddItemToObject(parent: Node, key: string, item: Node?, pool: Pool, ghost s: Shape, ghost t: Shape)
    returns (ghost s': Shape, ghost t': Shape)
    requires WellFormed(s) && s.node == parent && !s.cell.isReference && pool !in Own(s)
    requires item != null ==>
      && WellFormed(t) && t.node == item && Detached(item) && Own(s) !! Own(t)
      && pool !in Own(t) && NameOf(t.cell) !! pool.freed
    modifies parent`child, Roots(s.kids)`next, pool
    modifies (if item == null then {} else {item})`prev, (if item == null then {} else {item})`name
    ensures WellFormed(s')
    ensures item == null ==> s' == s && t' == t && pool.freed == old(pool.freed)
    ensures item != null ==>
      && t'.cell.name != null && fresh(t'.cell.name) && t'.cell.name.chars == key && t' == Renamed(t, t'.cell.name)
      && s' == s.(kids := s.kids + [t'])
      && Own(s') == Own(s) + (Own(t) - NameOf(t.cell)) + {t'.cell.name}
      && pool.freed == old(pool.freed) + NameOf(t.cell)
  {
    s', t' := s, t;
    if item != null {
      s', t' := AppendNamed(parent, key, item, pool, s, t);
    }
  }

  lemma KidNames(s: Shape)
    requires Owned(s)
    ensures forall i | 0 <= i < |s.kids| :: s.kids[i].node.name == s.kids[i].cell.name
  {
    hide Own, OwnAll, Linked;
    OwnedKids(s);
    forall i | 0 <= i < |s.kids|
      ensures s.kids[i].node.name == s.kids[i].cell.name
    {
      assert s.kids[i] in s.kids;
    }
  }

  /** `cJSON_GetObjectItem`: the first child whose name matches, ignoring case. */
  method GetObjectItem(parent: Node, key: Text?, ghost s: Shape) returns (c: Node?)
    requires Owned(s) && s.node == parent && !s.cell.isReference
    requires NamesNulFree(s.kids) && (key != null ==> NulFree(key.chars))
    ensures c == At(Roots(s.kids), FirstMatch(s.kids, key))
  {
    hide Own, OwnAll, Owned, OwnedAll, Linked, NamesNulFree, NulFree, FirstMatch;
    OwnedKids(s);
    KidNames(s);
    var i;
    c, i := Find(parent, key, s.kids);
  }

  /** `cJSON_DetachItemFromObject`: the first child whose name matches leaves the list. */
  method DetachItemFromObject(parent: Node, key: Text?, ghost s: Shape) returns (c: Node?, ghost s': Shape)
    requires WellFormed(s) && s.node == parent && !s.cell.isReference
    requires NamesNulFree(s.kids) && (key != null ==> NulFree(key.chars))
    modifies parent`child, Roots(s.kids)`next, Roots(s.kids)`prev
    ensures c == At(Roots(s.kids), FirstMatch(s.kids, key))
    ensures c == null ==> s' == s
    ensures c != null ==> var i := FirstMatch(s.kids, key);
      && s' == s.(kids := Without(s.kids, i)) && Own(s') == Own(s) - Own(s.kids[i])
      && WellFormed(s.kids[i]) && Own(s.kids[i]) <= Own(s) && Detached(c)
    ensures WellFormed(s')
  {
    hide Own, OwnAll, Owned, OwnedAll, Linked, NamesNulFree, NulFree, FirstMatch, Tidy, Without;
    OwnedKids(s);
    KidNames(s);
    var i;
    assert allocated(Own(s));
    c, i := Find(parent, key, s.kids);
    s' := s;
    if c != null {
      c, s' := DetachItemFromArray(parent, i, s);
    }
  }

  /** `cJSON_DeleteItemFromObject`. */
  method DeleteItemFromObject(parent: Node, key: Text?, pool: Pool, ghost s: Shape) returns (ghost s': Shape)
    requires WellFormed(s) && s.node == parent && !s.cell.isReference
    requires NamesNulFree(s.kids) && (key != null ==> NulFree(key.chars))
    requires pool !in Own(s) && Own(s) !! pool.freed
    modifies parent`child, Roots(s.kids)`next, Roots(s.kids)`prev, pool
    ensures WellFormed(s')
    ensures var i := FirstMatch(s.kids, key);
      if i < |s.kids| then
        s' == s.(kids := Without(s.kids, i)) && pool.freed == old(pool.freed) + Own(s.kids[i]) && Own(s') !! pool.freed
      else s' == s && pool.freed == old(pool.freed)
  {
    hide Own, OwnAll, Owned, OwnedAll, Tidy, TidyAll, Without, NamesNulFree, NulFree, FirstMatch;
    assert allocated(Own(s));
    var c;
    c, s' := DetachItemFromObject(parent, key, s);
    if c == null {
      return;
    }
    ghost var t := s.kids[FirstMatch(s.kids, key)];
    LoneTree(t);
    assert allocated(Own(s')) && pool !in Own(s');
    Delete(c, pool, [t]);
    assert WellFormed(s');
  }

  /** `cJSON_ReplaceItemInObject`: where a child's name matches, the new item takes its place
      under the given name. The name that the new item had before is neither released nor owned
      by anything afterwards. */
  method ReplaceItemInObject(parent: Node, key: Text, item: Node, pool: Pool, ghost s: Shape, ghost t: Shape)
    returns (ghost s': Shape, ghost t': Shape)
    requires WellFormed(s) && s.node == parent && !s.cell.isReference
    requires WellFormed(t) && t.node == item && Own(s) !! Own(t)
    requires NamesNulFree(s.kids) && NulFree(key.chars)
    requires pool !in Own(s) && pool !in Own(t) && Own(s) !! pool.freed
    modifies parent`child, Roots(s.kids)`next, Roots(s.kids)`prev, item`next, item`prev, item`name, pool
    ensures WellFormed(s')
    ensures var i := FirstMatch(s.kids, key);
      if i < |s.kids| then
        && t'.cell.name != null && fresh(t'.cell.name) && t'.cell.name.chars == key.chars
        && t' == Renamed(t, t'.cell.name)
        && s' == s.(kids := s.kids[i := t'])
        && Own(s') == Own(s) - Own(s.kids[i]) + (Own(t) - NameOf(t.cell)) + {t'.cell.name}
        && pool.freed == old(pool.freed) + Own(s.kids[i])
      else s' == s && t' == t && pool.freed == old(pool.freed) && unchanged(item)
  {
    hide Own, OwnAll, Owned, OwnedAll, Linked, NamesNulFree, NulFree, FirstMatch, Tidy;
    OwnedKids(s);
    KidNames(s);
    s', t' := s, t;
    assert allocated(Own(s)) && allocated(Own(t));
    var c, i := Find(parent, key, s.kids);
    if c != null {
      ItemStart(t);
      NameIsOwn(t);
      assert allocated(Own(s)) && allocated(Own(t));
      t' := SetName(item, key.chars, t);
      s' := ReplaceItemInArray(parent, i, item, pool, s, t');
    }
  }

  // ----- references -----

  /** `create_reference`: a copy of a node that shares its string and its children without
      owning them, and that has no name and is in no list. */
  method CreateReference(item: Node) returns (ref: Node, ghost r: Shape)
    ensures fresh(ref) && ref.child == item.child
    ensures r == Shape(ref, item.Content().(isReference := true, name := null), [])
    ensures WellFormed(r) && Detached(ref) && Own(r) == {ref}
  {
    ref := new Node();
    ref.kind, ref.isReference, ref.name := item.kind, true, null;
    ref.valuestring, ref.valueint, ref.valuedouble := item.valuestring, item.valueint, item.valuedouble;
    ref.child := item.child;
    r := Shape(ref, item.Content().(isReference := true, name := null), []);
    OwnNothing();
    assert Linked(Roots([]));
  }

  /** `cJSON_AddItemReferenceToArray`. */
  method AddItemReferenceToArray(parent: Node, item: Node, ghost s: Shape) returns (ghost s': Shape, ghost r: Shape)
    requires WellFormed(s) && s.node == parent && !s.cell.isReference
    modifies parent`child, Roots(s.kids)`next
    ensures fresh(r.node) && r == Shape(r.node, old(item.Content()).(isReference := true, name := null), [])
    ensures r.node.child == old(item.child)
    ensures s' == s.(kids := s.kids + [r]) && WellFormed(s') && Own(s') == Own(s) + {r.node}
  {
    hide Own, OwnAll, Owned, OwnedAll, Tidy, Disjoint, Roots;
    assert allocated(Own(s));
    var ref;
    ref, r := CreateReference(item);
    ItemStart(s);
    s' := AppendItem(parent, ref, s, r);
  }

  /** `cJSON_AddItemReferenceToObject`. */
  method AddItemReferenceToObject(parent: Node, key: string, item: Node, pool: Pool, ghost s: Shape)
    returns (ghost s': Shape, ghost r: Shape)
    requires WellFormed(s) && s.node == parent && !s.cell.isReference && pool !in Own(s)
    modifies parent`child, Roots(s.kids)`next, pool
    ensures fresh(r.node) && r.cell.name != null && fresh(r.cell.name) && r.cell.name.chars == key
    ensures r == Shape(r.node, old(item.Content()).(isReference := true, name := r.cell.name), [])
    ensures r.node.child == old(item.child)
    ensures s' == s.(kids := s.kids + [r]) && WellFormed(s') && Own(s') == Own(s) + {r.node, r.cell.name}
    ensures pool.freed == old(pool.freed)
  {
    hide Own, OwnAll, Owned, OwnedAll, Tidy, Disjoint, Roots;
    assert allocated(Own(s));
    var ref;
    ref, r := CreateReference(item);
    ItemStart(s);
    s', r := AddItemToObject(parent, key, ref, pool, s, r);
  }

  /** What references are for: an existing tree is put into a new one, the new one is deleted,
      and the existing tree is as it was, with nothing of it released. */
  method ReferenceLeavesOriginal(parent: Node, item: Node, pool: Pool, ghost s: Shape, ghost t: Shape)
    requires WellFormed(s) && s.node == parent && !s.cell.isReference && Detached(parent)
    requires WellFormed(t) && item in Own(t) && Own(s) !! Own(t)
    requires pool !in Own(s) && pool !in Own(t) && Own(s) !! pool.freed && Own(t) !! pool.freed
    modifies parent`child, Roots(s.kids)`next, pool
    ensures WellFormed(t) && Own(t) !! pool.freed && Own(s) <= pool.freed
  {
    hide Own, OwnAll, Owned, OwnedAll, Tidy, TidyAll, Disjoint;
    assert allocated(Own(s)) && allocated(Own(t));
    ghost var s', r;
    EditStart(s);
    ItemStart(s);
    forall i | 0 <= i < |s.kids|
      ensures s.kids[i].node !in Own(t) && s.kids[i].node != parent
    {
      assert s.kids[i] in s.kids;
    }
    s', r := AddItemReferenceToArray(parent, item, s);
    assert WellFormed(t);
    assert allocated(Own(s')) && allocated(Own(t));
    LoneTree(s');
    Delete(parent, pool, [s']);
  }
}
