/** `JsonHelper`: records of named strings, written as an object and read back by name. */
module JsonRecord {
  import opened CText
  import opened JsonNulFree
  import opened JsonText
  import opened JsonRoundTrip
  import opened CJsonTree
  import opened CJsonNames
  import opened CJsonEdits
  import opened CJsonRelease
  import opened CJsonDuplicate
  import opened CJsonLiterals
  import opened CJsonValue
  import opened CJsonParse
  import opened CJsonPrint

  // ----- lookup by name -----

  /** The first member with a given key, ignoring case; the number of members if there is none. */
  ghost function FirstKey(ms: seq<Member>, key: string): (i: nat)
    ensures i <= |ms| && (i < |ms| ==> SameIgnoringCase(ms[i].key, key))
    ensures forall j | 0 <= j < i :: !SameIgnoringCase(ms[j].key, key)
  {
    if ms == [] || SameIgnoringCase(ms[0].key, key) then 0 else 1 + FirstKey(ms[1..], key)
  }

  lemma {:induction false} MatchIsFirstKey(kids: seq<Shape>, key: Text)
    requires forall i | 0 <= i < |kids| :: kids[i].cell.name != null
    ensures FirstMatch(kids, key) == FirstKey(Members(kids), key.chars)
  {
    hide SameIgnoringCase, Value;
    if kids != [] {
      MatchIsFirstKey(kids[1..], key);
    }
  }

  /** What `GetJsonItem` finds: the text under a name, if the value is an object that has it. */
  datatype Found = Missing | Item(value: Json)

  ghost function Lookup(v: Json, name: string): Found {
    if v.Object? && FirstKey(v.members, name) < |v.members|
    then Item(v.members[FirstKey(v.members, name)].value)
    else Missing
  }

  // ----- facts about regular trees -----

  /** `cJSON_CreateString`. */
  method CreateString(value: string) returns (item: Node, ghost t: Shape)
    requires NulFree(value)
    ensures fresh(item) && t.node == item && WellFormed(t) && Detached(item) && fresh(Own(t)) && NameOf(t.cell) == {}
    ensures !t.cell.isReference && t.cell.kind == KString && t.kids == []
    ensures Filled(t.cell) && t.cell.text.chars == value
  {
    item := new Node();
    var text := new Text(value);
    item.kind := KString;
    item.valuestring := text;
    ScalarBuilt(item, "", 0);
    t := Shape(item, item.Content(), []);
  }

  /** A string is added to an object: the new value, and the tree stays regular. */
  lemma StringAdded(s: Shape, t: Shape)
    requires Regular(s) && s.cell.kind == KObject
    requires !t.cell.isReference && t.cell.kind == KString && t.kids == [] && Filled(t.cell)
    requires NulFree(t.cell.text.chars)
    requires t.cell.name != null && NulFree(t.cell.name.chars)
    ensures var s' := s.(kids := s.kids + [t]);
      Regular(s') && Members(s'.kids) == Members(s.kids) + [Member(t.cell.name.chars, String(t.cell.text.chars))]
  {
    hide NulFree;
    MembersAppend(s.kids, t);
    assert Regular(t);
  }

  /** `cJSON_AddStringToObject`. */
  method AddStringToObject(parent: Node, key: string, value: string, pool: Pool, ghost s: Shape)
    returns (ghost s': Shape)
    requires WellFormed(s) && Regular(s) && s.node == parent && s.cell.kind == KObject && pool !in Own(s)
    requires NulFree(key) && NulFree(value)
    modifies pool, Own(s)
    ensures WellFormed(s') && Regular(s') && s'.node == parent && s'.cell == s.cell && pool !in Own(s')
    ensures Members(s'.kids) == Members(s.kids) + [Member(key, String(value))]
    ensures forall o | o in Own(s') :: fresh(o) || o in Own(s)
  {
    hide Own, OwnAll, Owned, OwnedAll, Tidy, Regular, Value, Members, NulFree;
    assert allocated(Own(s));
    ghost var t;
    var item;
    item, t := CreateString(value);
    RegularRoot(s);
    EditStart(s);
    RootsInOwn(s);
    s', t := AddItemToObject(parent, key, item, pool, s, t);
    StringAdded(s, t);
  }

  lemma RootsInOwn(s: Shape)
    requires Tidy(s)
    ensures s.node in Own(s) && forall n | n in Roots(s.kids) :: n in Own(s)
  {
    hide Tidy, Disjoint;
    RootsOwned(s);
  }

  lemma RegularRoot(s: Shape)
    requires Regular(s)
    ensures !s.cell.isReference
  {
  }

  lemma RegularNamesNulFree(s: Shape)
    requires Regular(s)
    ensures !s.cell.isReference && NamesNulFree(s.kids)
    ensures forall i | 0 <= i < |s.kids| :: s.kids[i].cell.name != null <==> s.cell.kind == KObject
  {
    hide NulFree;
    forall i | 0 <= i < |s.kids|
      ensures NameFits(s.cell.kind, s.kids[i].cell.name)
    {
      assert s.kids[i] in s.kids;
    }
  }

  lemma NamelessNeverMatch(kids: seq<Shape>, key: Text)
    requires forall i | 0 <= i < |kids| :: kids[i].cell.name == null
    ensures FirstMatch(kids, key) == |kids|
  {
  }

  /** A search by name in a regular tree finds the first member of the object it stands for. */
  lemma RegularNames(s: Shape, key: Text)
    requires Regular(s)
    ensures !s.cell.isReference && NamesNulFree(s.kids)
    ensures Lookup(Value(s), key.chars) ==
      if FirstMatch(s.kids, key) < |s.kids| then Item(Value(s.kids[FirstMatch(s.kids, key)])) else Missing
  {
    hide NulFree, NamesNulFree, FirstMatch, FirstKey, SameName, SameIgnoringCase, Members, Values, Regular;
    RegularNamesNulFree(s);
    if s.cell.kind != KObject {
      NamelessNeverMatch(s.kids, key);
    } else {
      MatchIsFirstKey(s.kids, key);
      if FirstMatch(s.kids, key) < |s.kids| {
        MembersAt(s.kids, FirstMatch(s.kids, key));
      }
    }
  }

  /** A child of a regular tree that stands for a string has its text in `valuestring`. */
  lemma KidContent(s: Shape, i: nat)
    requires WellFormed(s) && Regular(s) && i < |s.kids| && Value(s.kids[i]).String?
    ensures s.kids[i].node.valuestring != null && Value(s.kids[i]) == String(s.kids[i].node.valuestring.chars)
  {
    hide Own, OwnAll, Tidy, Linked;
    OwnedKids(s);
    assert s.kids[i] in s.kids;
  }

  // ----- the helper -----

  datatype Tree = NoTree | Tree(shape: Shape)

  class JsonHelper {
    var json: Node?
    var parsed: bool
    var text: string
    const pool: Pool
    ghost var tree: Tree

    ghost predicate Valid()
      reads this, (if tree.Tree? then Own(tree.shape) else {})
    {
      && (json == null <==> tree.NoTree?)
      && (!parsed ==> json == null)
      && (json != null ==> var s := tree.shape;
          s.node == json && WellFormed(s) && Regular(s) && this !in Own(s) && pool !in Own(s))
    }

    /** The value held: that of the tree, or what parsing the text is going to give. */
    ghost function Content(): Json
      reads this
    {
      if tree.Tree? then Value(tree.shape)
      else if parsed then Null
      else match ParseValue(Skip(text)) case Parsed(v, _) => v case _ => Null
    }

    /** `JsonHelper(const char*)`. */
    constructor FromText(text: string, pool: Pool)
      ensures Valid() && !parsed && this.text == text && this.pool == pool
    {
      json, parsed, this.text, this.pool := null, false, text, pool;
      tree := NoTree;
    }

    /** `JsonHelper()`. */
    constructor Empty(pool: Pool)
      ensures Valid() && json != null && Content() == Object([]) && this.pool == pool
      ensures tree.Tree? && fresh(Own(tree.shape))
    {
      var c := new Node();
      c.kind := KObject;
      json, parsed, text, this.pool := c, true, "", pool;
      BlankShape(c);
      tree := Tree(Shape(c, c.Content(), []));
    }

    /** The members of the object held; none if there is no tree yet. */
    ghost function Entries(): seq<Member>
      reads this
    {
      if tree.Tree? then Members(tree.shape.kids) else []
    }

    ghost predicate HoldsObject()
      reads this
    {
      tree.Tree? ==> tree.shape.cell.kind == KObject
    }

    /** `_ParseSet`: an empty object, whatever the text. */
    method ParseSet()
      requires Valid() && !parsed
      modifies this
      ensures Valid() && parsed && json != null && HoldsObject() && Entries() == []
      ensures tree.Tree? && fresh(Own(tree.shape)) && text == old(text)
    {
      var c := new Node();
      c.kind := KObject;
      BlankShape(c);
      json, parsed := c, true;
      tree := Tree(Shape(c, c.Content(), []));
    }

    /** `_ParseGet`. */
    method ParseGet()
      requires Valid() && !parsed && !ParseValue(Skip(text)).Unmodelled?
      modifies this, pool
      ensures Valid() && parsed && Content() == old(Content()) && text == old(text)
      ensures tree.Tree? ==> fresh(Own(tree.shape))
    {
      hide Own, OwnAll, Owned, OwnedAll, Tidy, Regular, Value, JsonText.ParseValue, Skip;
      var c, end;
      ghost var s;
      c, end, s := ParseWithOpts(text, false, pool);
      assert allocated(Own(s));
      json, parsed := c, true;
      tree := if c == null then NoTree else Tree(s);
    }

    /** The entry is added to the object held. */
    method AddEntry(name: string, value: string)
      requires Valid() && json != null && HoldsObject() && NulFree(name) && NulFree(value)
      modifies `tree, pool, Own(tree.shape)
      ensures Valid() && HoldsObject() && Entries() == old(Entries()) + [Member(name, String(value))]
      ensures forall o | o in Own(tree.shape) :: fresh(o) || o in old(Own(tree.shape))
    {
      hide Own, OwnAll, Owned, OwnedAll, Tidy, Regular, Value, Members, NulFree;
      ghost var s';
      assert allocated(Own(tree.shape));
      s' := AddStringToObject(json, name, value, pool, tree.shape);
      tree := Tree(s');
    }

    /** `SetJsonItem` with a string: the entry is added behind the others; false only if an
        earlier parse has failed. */
    method SetJsonItem(name: string, value: string) returns (ok: bool)
      requires Valid() && HoldsObject() && NulFree(name) && NulFree(value)
      modifies this, pool, (if tree.Tree? then Own(tree.shape) else {})
      ensures Valid() && HoldsObject()
      ensures ok == !(old(parsed) && old(json) == null)
      ensures Entries() == if ok then old(Entries()) + [Member(name, String(value))] else old(Entries())
      ensures ok ==> tree.Tree? && json != null && parsed
      ensures tree.Tree? ==>
        forall o | o in Own(tree.shape) :: fresh(o) || (old(tree.Tree?) && o in old(Own(tree.shape)))
    {
      hide Own, OwnAll, Owned, OwnedAll, Tidy, Regular, Value, Members, NulFree;
      if !parsed {
        ParseSet();
      }
      if json == null {
        return false;
      }
      AddEntry(name, value);
      ok := true;
    }

    /** `Json2Char`: the unformatted text of the object held. */
    method Json2Char() returns (out: array<char>)
      requires Valid() && json != null && Printable(Content())
      ensures fresh(out) && HoldsText(out, |Print(Content(), 0, false)|, Print(Content(), 0, false))
    {
      hide Own, OwnAll, Owned, OwnedAll, Tidy, Regular, Readable, Seen, Sight, Value, Print, Printable;
      RegularIsReadable(tree.shape);
      RegularHasNoReferences(tree.shape);
      OwnedIsSeen(tree.shape);
      out := PrintUnformatted(json, tree.shape);
    }

    /** `GetJsonItem` with a string result: parses the text on first use; then the text of the
        first member whose name matches, ignoring case. A member that is not a string is excluded:
        its `valuestring` is null. */
    method GetJsonItem(name: string) returns (ok: bool, result: string)
      requires Valid() && NulFree(name) && (!parsed ==> !ParseValue(Skip(text)).Unmodelled?)
      requires Lookup(Content(), name).Item? ==> Lookup(Content(), name).value.String?
      modifies this, pool
      ensures Valid() && Content() == old(Content())
      ensures match Lookup(old(Content()), name)
        case Item(v) => ok && v == String(result)
        case Missing => !ok && result == ""
    {
      hide Own, OwnAll, Owned, OwnedAll, Tidy, Regular, Value, JsonText.ParseValue, Skip, Members, NulFree,
        FirstMatch, FirstKey;
      ok, result := false, "";
      if !parsed {
        ParseGet();
      }
      if json == null {
        return;
      }
      ghost var s := tree.shape;
      assert allocated(Own(s));
      var key := new Text(name);
      RegularNames(s, key);
      var found := GetObjectItem(json, key, s);
      if found == null {
        return;
      }
      KidContent(s, FirstMatch(s.kids, key));
      result := found.valuestring.chars;
      ok := true;
    }
  }

  // ----- the record round trip -----

  /** A row of a result set: column names and their texts. */
  type Row = seq<(string, string)>

  ghost predicate RowOfCStrings(row: Row) {
    forall i | 0 <= i < |row| :: NulFree(row[i].0) && NulFree(row[i].1)
  }

  function AsMembers(row: Row): (ms: seq<Member>)
    ensures |ms| == |row| && forall i | 0 <= i < |row| :: ms[i] == Member(row[i].0, String(row[i].1))
  {
    seq(|row|, i requires 0 <= i < |row| => Member(row[i].0, String(row[i].1)))
  }

  /** `DBWorker::DealQuerySqlOne`: the record of the first row, with one entry per column in the
      order in which the column map is iterated; the text of an empty object if the query has no
      row. */
  method DealQuerySqlOne(next: bool, row: Row, pool: Pool) returns (out: array<char>)
    requires next ==> RowOfCStrings(row)
    modifies pool
    ensures fresh(out)
    ensures var s := Print(Object(AsMembers(if next then row else [])), 0, false); HoldsText(out, |s|, s)
  {
    if next {
      out := RowText(row, pool);
    } else {
      WordsNulFree();
      out := Render(3, "{}");
    }
  }

  method RowText(row: Row, pool: Pool) returns (out: array<char>)
    requires RowOfCStrings(row)
    modifies pool
    ensures fresh(out)
    ensures var s := Print(Object(AsMembers(row)), 0, false); HoldsText(out, |s|, s)
  {
    hide Own, OwnAll, Owned, OwnedAll, Tidy, Regular, Members, NulFree, Print;
    var jsonhp := new JsonHelper.Empty(pool);
    var ms := AsMembers(row);
    assert ms[..0] == [];
    for i := 0 to |row|
      invariant fresh(jsonhp) && jsonhp.pool == pool && jsonhp.Valid() && jsonhp.json != null && jsonhp.HoldsObject()
      invariant forall o | o in Own(jsonhp.tree.shape) :: fresh(o)
      invariant jsonhp.parsed && jsonhp.Entries() == ms[..i]
    {
      var ok := jsonhp.SetJsonItem(row[i].0, row[i].1);
      assert ms[..i + 1] == ms[..i] + [ms[i]];
    }
    assert ms[..|row|] == ms;
    assert jsonhp.Content() == Object(ms);
    RowIsPrintable(row);
    out := jsonhp.Json2Char();
  }

  lemma RowIsPrintable(row: Row)
    requires RowOfCStrings(row)
    ensures Printable(Object(AsMembers(row)))
  {
  }

  lemma SameIsEquivalence(a: string, b: string, c: string)
    ensures SameIgnoringCase(a, a)
    ensures SameIgnoringCase(a, b) ==> SameIgnoringCase(b, a)
    ensures SameIgnoringCase(a, b) && SameIgnoringCase(b, c) ==> SameIgnoringCase(a, c)
  {
    hide ToLower, SameLetter;
    SameIffFolded(a, a);
    SameIffFolded(a, b);
    SameIffFolded(b, a);
    SameIffFolded(b, c);
    SameIffFolded(a, c);
  }

  lemma SameIffFolded(a: string, b: string)
    ensures SameIgnoringCase(a, b) <==> |a| == |b| && forall i | 0 <= i < |a| :: ToLower(a[i]) == ToLower(b[i])
  {
    hide ToLower, SameLetter;
    if |a| == |b| {
      forall i | 0 <= i < |a|
        ensures SameLetter(a[i], b[i]) <==> ToLower(a[i]) == ToLower(b[i])
      {
        FoldsTogetherIff(a[i], b[i]);
      }
    }
  }

  /** Columns whose names agree up to case hold the same text. */
  ghost predicate Unambiguous(row: Row) {
    forall i, j | 0 <= i < j < |row| && SameIgnoringCase(row[i].0, row[j].0) :: row[i].1 == row[j].1
  }

  /** Every column of a row is read back under its name. */
  ghost predicate EveryColumnReadBack(row: Row, v: Json) {
    forall i | 0 <= i < |row| :: Lookup(v, row[i].0) == Item(String(row[i].1))
  }

  lemma ColumnLookup(row: Row, i: nat)
    requires i < |row|
    ensures var k := FirstKey(AsMembers(row), row[i].0);
      && k <= i && SameIgnoringCase(row[k].0, row[i].0)
      && Lookup(Object(AsMembers(row)), row[i].0) == Item(String(row[k].1))
  {
    hide SameIgnoringCase;
    SameIsEquivalence(row[i].0, row[i].0, row[i].0);
  }

  lemma ReadBackIffUnambiguous(row: Row)
    ensures EveryColumnReadBack(row, Object(AsMembers(row))) <==> Unambiguous(row)
  {
    hide SameIgnoringCase, FirstKey, Lookup;
    var v := Object(AsMembers(row));
    forall i | 0 <= i < |row|
      ensures Unambiguous(row) ==> Lookup(v, row[i].0) == Item(String(row[i].1))
    {
      ColumnLookup(row, i);
    }
    if EveryColumnReadBack(row, v) {
      forall i, j | 0 <= i < j < |row| && SameIgnoringCase(row[i].0, row[j].0)
        ensures row[i].1 == row[j].1
      {
        SameKeysFirst(AsMembers(row), row[i].0, row[j].0);
        ColumnLookup(row, i);
        ColumnLookup(row, j);
      }
    }
  }

  /** A row survives being written as a record, parsed, and looked up by name if and only if
      columns whose names agree up to case hold the same text; in particular if no two do. */
  lemma RecordRoundTrip(row: Row)
    requires RowOfCStrings(row)
    ensures var text := Print(Object(AsMembers(row)), 0, false);
      && ParseValue(Skip(text)) == Parsed(Object(AsMembers(row)), "")
      && (EveryColumnReadBack(row, Object(AsMembers(row))) <==> Unambiguous(row))
  {
    hide ParseValue, Print, Printable, EveryColumnReadBack, Unambiguous, Skip;
    RowIsPrintable(row);
    PrintedIsRead(Object(AsMembers(row)), false);
    ReadBackIffUnambiguous(row);
  }

  /** Names that agree up to case find the same member. */
  lemma {:induction false} SameKeysFirst(ms: seq<Member>, a: string, b: string)
    requires SameIgnoringCase(a, b)
    ensures FirstKey(ms, a) == FirstKey(ms, b)
  {
    hide SameIgnoringCase;
    if ms != [] {
      SameIsEquivalence(ms[0].key, a, b);
      SameIsEquivalence(a, b, b);
      SameIsEquivalence(ms[0].key, b, a);
      SameKeysFirst(ms[1..], a, b);
    }
  }

  /** The two ends together: a column of the first row, asked for on the other side of the wire. */
  method FetchColumn(next: bool, row: Row, name: string, pool: Pool) returns (ok: bool, result: string)
    requires (next ==> RowOfCStrings(row)) && NulFree(name)
    modifies pool
    ensures var k := FirstKey(AsMembers(row), name);
      if next && k < |row| then ok && result == row[k].1 else !ok && result == ""
  {
    hide ParseValue, Print, Printable, FirstKey, NulFree, Skip;
    ghost var sent := if next then row else [];
    ghost var v := Object(AsMembers(sent));
    RowIsPrintable(sent);
    PrintedIsRead(v, false);
    var out := DealQuerySqlOne(next, row, pool);
    PrintNulFree(v, 0, false);
    var n := StrLen(out, Print(v, 0, false));
    var jsonhp := new JsonHelper.FromText(out[..n], pool);
    ok, result := jsonhp.GetJsonItem(name);
  }
}
