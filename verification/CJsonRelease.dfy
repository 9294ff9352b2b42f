/** `cJSON_Delete`: what it releases, that it releases nothing twice, and that it never reads
    released memory. */
module CJsonRelease {
  import opened CJsonTree

  /** The C allocator, as far as releasing goes: everything that has been handed to `free`. */
  class Pool {
    ghost var freed: set<object>

    constructor ()
      ensures freed == {}
    {
      freed := {};
    }

    /** `free`; the precondition rules out that anything is released twice. */
    method Free(x: object)
      requires x !in freed
      modifies this
      ensures freed == old(freed) + {x}
    {
      freed := freed + {x};
    }
  }

  ghost predicate TidyAll(kids: seq<Shape>) {
    Disjoint(kids) && forall k | k in kids :: Tidy(k)
  }

  // ----- taking a tree apart -----

  lemma OwnNothing()
    ensures OwnAll([]) == {}
  {
  }

  lemma OwnAllPrefix(kids: seq<Shape>, i: nat)
    requires i < |kids|
    ensures OwnAll(kids[..i + 1]) == OwnAll(kids[..i]) + Own(kids[i])
  {
    assert kids[..i + 1] == kids[..i] + [kids[i]];
    assert forall k :: k in kids[..i + 1] <==> k in kids[..i] || k == kids[i];
  }

  /** What the nodes before a node of a list own is apart from what that node owns. */
  lemma PrefixApart(kids: seq<Shape>, i: nat)
    requires i < |kids| && TidyAll(kids)
    ensures OwnAll(kids[..i]) !! Own(kids[i])
  {
    forall x | x in OwnAll(kids[..i])
      ensures x !in Own(kids[i])
    {
      var k :| k in kids[..i] && x in Own(k);
      var j :| 0 <= j < i && kids[j] == k;
      assert Own(kids[j]) !! Own(kids[i]);
    }
  }

  lemma OwnParts(s: Shape)
    requires Owned(s) && Tidy(s)
    ensures TidyAll(s.kids) && OwnedAll(s.kids)
    ensures Own(s) == OwnAll(s.kids) + Strings(s.cell) + {s.node}
    ensures OwnAll(s.kids) !! Strings(s.cell) + {s.node}
    ensures s.cell.isReference ==> s.kids == []
    ensures !s.cell.isReference ==> s.node.child == At(Roots(s.kids), 0)
    ensures s.node.Content() == s.cell
    ensures var c := s.cell; !c.isReference && c.name != null ==> c.text != c.name
  {
  }

  lemma ListParts(kids: seq<Shape>, outside: object)
    requires OwnedAll(kids) && TidyAll(kids) && outside !in OwnAll(kids)
    ensures Linked(Roots(kids)) && outside !in Roots(kids)
    ensures forall i | 0 <= i < |kids| :: Owned(kids[i]) && Tidy(kids[i])
    ensures forall i | 0 <= i < |kids| :: Own(kids[i]) <= OwnAll(kids) && kids[i].node in Own(kids[i])
  {
    hide Own, Linked, Disjoint, Owned, Tidy, OwnAll;
    forall i | 0 <= i < |kids|
      ensures Own(kids[i]) <= OwnAll(kids) && kids[i].node in Own(kids[i])
    {
      OwnMember(kids, i);
    }
    assert forall i | 0 <= i < |kids| :: kids[i] in kids;
  }

  // ----- the methods -----

  /** Releases the strings of a node. */
  method FreeStrings(c: Node, pool: Pool)
    requires Strings(c.Content()) !! pool.freed
    requires !c.isReference && c.name != null ==> c.valuestring != c.name
    modifies pool
    ensures pool.freed == old(pool.freed) + Strings(c.Content())
  {
    if !c.isReference && c.valuestring != null {
      pool.Free(c.valuestring);
    }
    if c.name != null {
      pool.Free(c.name);
    }
  }

  /** The body of the loop of `cJSON_Delete`: releases one node and all it owns. The assertions
      say that no released node is read. */
  method DeleteNode(c: Node, pool: Pool, ghost s: Shape)
    requires Owned(s) && Tidy(s) && c == s.node
    requires pool !in Own(s) && Own(s) !! pool.freed
    modifies pool
    ensures pool.freed == old(pool.freed) + Own(s)
    decreases s, 0
  {
    hide Own, OwnAll, Owned, OwnedAll, Tidy, TidyAll, Linked, Roots;
    OwnParts(s);
    OwnNothing();
    if !c.isReference && c.child != null {
      Delete(c.child, pool, s.kids);
    }
    assert pool.freed == old(pool.freed) + OwnAll(s.kids);
    assert c !in pool.freed;
    FreeStrings(c, pool);
    assert c !in pool.freed;
    pool.Free(c);
  }

  /** `cJSON_Delete`: releases a list of siblings with everything they own. */
  method Delete(first: Node?, pool: Pool, ghost kids: seq<Shape>)
    requires OwnedAll(kids) && TidyAll(kids) && first == At(Roots(kids), 0)
    requires pool !in OwnAll(kids) && OwnAll(kids) !! pool.freed
    modifies pool
    ensures pool.freed == old(pool.freed) + OwnAll(kids)
    decreases kids, 1
  {
    hide Own, OwnAll, Owned, OwnedAll, Tidy, TidyAll;
    ListParts(kids, pool);
    OwnNothing();
    var c := first;
    ghost var i := 0;
    ghost var ns := Roots(kids);
    assert allocated(OwnAll(kids));
    while c != null
      invariant 0 <= i <= |kids| && c == At(ns, i) && Linked(ns)
      invariant pool.freed == old(pool.freed) + OwnAll(kids[..i])
      decreases |kids| - i
    {
      PrefixApart(kids, i);
      OwnAllPrefix(kids, i);
      assert Owned(kids[i]);
      assert c !in pool.freed;
      var next := c.next;
      DeleteNode(c, pool, kids[i]);
      c := next;
      i := i + 1;
    }
    assert kids[..i] == kids;
  }
}
