/** The printer and the parser on linked nodes, one after the other. */
module CJsonRoundTrip {
  import opened CText
  import opened JsonNulFree
  import opened JsonText
  import opened JsonRoundTrip
  import opened CJsonTree
  import opened CJsonRelease
  import opened CJsonDuplicate
  import opened CJsonLiterals
  import opened CJsonValue
  import opened CJsonParse
  import opened CJsonPrint

  /** Printing a tree and parsing the whole text yields a new tree, made of fresh nodes and strings
      only, that stands for the same value. */
  method PrintThenParse(item: Node, fmt: bool, pool: Pool, ghost s: Shape) returns (c: Node?, ghost t: Shape)
    requires s.node == item && Seen(s) && Readable(s) && !(fmt && Value(s) == Object([]))
    modifies pool
    ensures c != null && t.node == c && WellFormed(t) && fresh(Own(t)) && Detached(c)
    ensures Value(t) == Value(s) && pool.freed == old(pool.freed)
  {
    hide ParseValue, Print, Printable, NulFree, Skip, Readable, Seen, Value, Regular, WellFormed, Own;
    ghost var v := Value(s);
    ReadableIsPrintable(s);
    PrintedIsRead(v, fmt);
    PrintNulFree(v, 0, fmt);
    var out: array<char>;
    if fmt {
      out := PrintFormatted(item, s);
    } else {
      out := PrintUnformatted(item, s);
    }
    var n := StrLen(out, Print(v, 0, fmt));
    var end: int;
    EndIsNul();
    c, end, t := ParseWithOpts(out[..n], true, pool);
    assert pool.freed == old(pool.freed);
  }

  lemma EndIsNul()
    ensures Peek(Skip("")) == NUL
  {
  }

  // ----- copies -----

  lemma {:induction false} CopiesHaveValues(ds: seq<Shape>, ss: seq<Shape>)
    requires |ds| == |ss| && forall i | 0 <= i < |ss| :: CopyOf(ds[i], ss[i])
    ensures Values(ds) == Values(ss) && Members(ds) == Members(ss)
    decreases ss, 1
  {
    hide CopyOf, Value;
    if ss != [] {
      CopyMeansTheSame(ds[0], ss[0]);
      CopiesHaveValues(ds[1..], ss[1..]);
      CopyHasContent(ds[0], ss[0]);
    }
  }

  /** What a copy holds, node by node. */
  lemma CopyHasContent(d: Shape, s: Shape)
    requires CopyOf(d, s)
    ensures !d.cell.isReference && d.cell.kind == s.cell.kind
    ensures d.cell.valueint == s.cell.valueint && d.cell.valuedouble == s.cell.valuedouble
    ensures (d.cell.name == null <==> s.cell.name == null) && (d.cell.text == null <==> s.cell.text == null)
    ensures |d.kids| == |s.kids|
    ensures forall i | 0 <= i < |s.kids| :: CopyOf(d.kids[i], s.kids[i])
    ensures Chars(d.cell.name) == Chars(s.cell.name) && Chars(d.cell.text) == Chars(s.cell.text)
  {
  }

  /** A copy stands for the same value as its source, and so is printed as the same text. */
  lemma {:induction false} CopyMeansTheSame(d: Shape, s: Shape)
    requires CopyOf(d, s)
    ensures Value(d) == Value(s)
    ensures forall depth: nat, fmt: bool :: Print(Value(d), depth, fmt) == Print(Value(s), depth, fmt)
    decreases s, 0
  {
    hide CopyOf, Print;
    CopyHasContent(d, s);
    CopiesHaveValues(d.kids, s.kids);
  }

  lemma {:induction false} CopyIsReadable(d: Shape, s: Shape)
    requires CopyOf(d, s) && Readable(s)
    ensures Readable(d)
    decreases s
  {
    hide CopyOf;
    CopyHasContent(d, s);
    forall k | k in d.kids && (s.cell.kind == KArray || s.cell.kind == KObject)
      ensures Readable(k) && (s.cell.kind == KObject ==> k.cell.name != null && NulFree(k.cell.name.chars))
    {
      var i :| 0 <= i < |d.kids| && d.kids[i] == k;
      assert s.kids[i] in s.kids;
      CopyIsReadable(d.kids[i], s.kids[i]);
      CopyHasContent(d.kids[i], s.kids[i]);
    }
  }

  lemma {:induction false} CopyHasNoReferences(d: Shape, s: Shape)
    requires CopyOf(d, s)
    ensures NoReferences(d)
    decreases s
  {
    hide CopyOf;
    CopyHasContent(d, s);
    forall k | k in d.kids
      ensures NoReferences(k)
    {
      var i :| 0 <= i < |d.kids| && d.kids[i] == k;
      CopyHasNoReferences(d.kids[i], s.kids[i]);
    }
  }

  /** A deep copy, made through references, prints as the text of its source. */
  method DuplicateThenPrint(item: Node, depth: nat, fmt: bool, ghost s: Shape) returns (out: array<char>)
    requires s.node == item && Seen(s) && Readable(s) && !(fmt && depth == 0 && Value(s) == Object([]))
    ensures fresh(out) && HoldsText(out, |Print(Value(s), depth, fmt)|, Print(Value(s), depth, fmt))
  {
    hide Print, Readable, Seen, Value, WellFormed, Own, CopyOf, NoReferences;
    var copy;
    ghost var d;
    copy, d := Duplicate(item, true, s);
    CopyMeansTheSame(d, s);
    CopyIsReadable(d, s);
    CopyHasNoReferences(d, s);
    TreeIsOwned(d);
    OwnedIsSeen(d);
    out := PrintValue(copy, depth, fmt, d);
  }

  lemma TreeIsOwned(s: Shape)
    requires WellFormed(s)
    ensures Owned(s)
  {
  }
}
