/** Case-insensitive names: `cJSON_strcasecmp` and the searches built on it. */
module CJsonNames {
  import opened CText
  import opened CJsonTree

  /** Two C strings that agree place by place up to the case of letters. */
  ghost predicate SameIgnoringCase(s: string, t: string) {
    |s| == |t| && forall i | 0 <= i < |s| :: SameLetter(s[i], t[i])
  }

  /** `cJSON_strcasecmp` returns 0: both pointers null, or equal texts. */
  ghost predicate SameName(name: Text?, key: Text?) {
    if name == null || key == null then name == key else SameIgnoringCase(name.chars, key.chars)
  }

  lemma NulFoldsToItself(c: char)
    ensures ToLower(c) == NUL <==> c == NUL
  {
  }

  /** The difference of the folded characters at the first place where two texts differ up to
      case, their ends included; 0 if they never do. */
  function Difference(s: string, t: string): int {
    var a, b := ToLower(Peek(s)) as int, ToLower(Peek(t)) as int;
    if a != b then a - b else if s == "" || t == "" then 0 else Difference(s[1..], t[1..])
  }

  lemma {:induction false} DifferenceIsZeroIff(s: string, t: string)
    requires NulFree(s) && NulFree(t)
    ensures Difference(s, t) == 0 <==> SameIgnoringCase(s, t)
  {
    hide ToLower, SameLetter;
    NulFoldsToItself(Peek(s));
    NulFoldsToItself(Peek(t));
    if s != "" && t != "" {
      DifferenceIsZeroIff(s[1..], t[1..]);
      FoldsTogetherIff(s[0], t[0]);
      SameSplits(s, t);
    }
  }

  lemma SameSplits(s: string, t: string)
    requires s != "" && t != ""
    ensures SameIgnoringCase(s, t) <==> SameLetter(s[0], t[0]) && SameIgnoringCase(s[1..], t[1..])
  {
    hide SameLetter;
    if SameLetter(s[0], t[0]) && SameIgnoringCase(s[1..], t[1..]) {
      forall i | 0 <= i < |s|
        ensures SameLetter(s[i], t[i])
      {
        assert i > 0 ==> s[i] == s[1..][i - 1] && t[i] == t[1..][i - 1];
      }
    }
  }

  /** `cJSON_strcasecmp`. A null pointer differs from every text. */
  method StrCaseCmp(s1: Text?, s2: Text?) returns (r: int)
    requires s1 != null ==> NulFree(s1.chars)
    requires s2 != null ==> NulFree(s2.chars)
    ensures r == 0 <==> SameName(s1, s2)
    ensures r == if s1 != null && s2 != null then Difference(s1.chars, s2.chars) else if s1 == s2 then 0 else 1
  {
    hide NulFree, SameIgnoringCase;
    if s1 == null {
      return if s1 == s2 then 0 else 1;
    }
    if s2 == null {
      return 1;
    }
    DifferenceIsZeroIff(s1.chars, s2.chars);
    assert s1.chars[0..] == s1.chars && s2.chars[0..] == s2.chars;
    var i := 0;
    while ToLower(Peek(s1.chars[i..])) == ToLower(Peek(s2.chars[i..]))
      invariant i <= |s1.chars| && i <= |s2.chars|
      invariant Difference(s1.chars[i..], s2.chars[i..]) == Difference(s1.chars, s2.chars)
      decreases |s1.chars| - i
    {
      EndOfText(s1.chars, i);
      EndOfText(s2.chars, i);
      if Peek(s1.chars[i..]) == NUL {
        return 0;
      }
      assert s1.chars[i..][1..] == s1.chars[i + 1..] && s2.chars[i..][1..] == s2.chars[i + 1..];
      i := i + 1;
    }
    r := ToLower(Peek(s1.chars[i..])) as int - ToLower(Peek(s2.chars[i..])) as int;
  }

  /** Only the end of a C string folds to NUL. */
  lemma EndOfText(s: string, i: nat)
    requires NulFree(s) && i <= |s|
    ensures ToLower(Peek(s[i..])) == NUL <==> i == |s|
    ensures Peek(s[i..]) == NUL <==> i == |s|
  {
    NulFoldsToItself(Peek(s[i..]));
  }

  /** The first child with a given name; the number of children if there is none. */
  ghost function FirstMatch(kids: seq<Shape>, key: Text?): (i: nat)
    ensures i <= |kids| && (i < |kids| ==> SameName(kids[i].cell.name, key))
    ensures forall j | 0 <= j < i :: !SameName(kids[j].cell.name, key)
  {
    if kids == [] || SameName(kids[0].cell.name, key) then 0 else 1 + FirstMatch(kids[1..], key)
  }

  /** Names, where there are any, are C strings. */
  ghost predicate NamesNulFree(kids: seq<Shape>) {
    forall i | 0 <= i < |kids| :: kids[i].cell.name != null ==> NulFree(kids[i].cell.name.chars)
  }

  ghost predicate NoneBefore(kids: seq<Shape>, key: Text?, i: nat) {
    i <= |kids| && forall j | 0 <= j < i :: !SameName(kids[j].cell.name, key)
  }

  lemma NoneBeforeFirst(kids: seq<Shape>, key: Text?)
    ensures NoneBefore(kids, key, 0)
  {
  }

  lemma NoneBeforeNext(kids: seq<Shape>, key: Text?, i: nat)
    requires NoneBefore(kids, key, i) && i < |kids| && !SameName(kids[i].cell.name, key)
    ensures NoneBefore(kids, key, i + 1)
  {
    hide SameName;
  }

  lemma MatchFound(kids: seq<Shape>, key: Text?, i: nat)
    requires NoneBefore(kids, key, i)
    requires i < |kids| ==> SameName(kids[i].cell.name, key)
    ensures FirstMatch(kids, key) == i
  {
  }

  lemma NamesAreNulFree(kids: seq<Shape>, i: nat)
    requires NamesNulFree(kids) && i < |kids|
    ensures kids[i].cell.name != null ==> NulFree(kids[i].cell.name.chars)
  {
  }

  /** The loop of `cJSON_GetObjectItem`, `cJSON_DetachItemFromObject` and
      `cJSON_ReplaceItemInObject`: the node found and its index. */
  method Find(parent: Node, key: Text?, ghost kids: seq<Shape>) returns (c: Node?, i: nat)
    requires parent.child == At(Roots(kids), 0) && Linked(Roots(kids))
    requires forall j | 0 <= j < |kids| :: kids[j].node.name == kids[j].cell.name
    requires NamesNulFree(kids) && (key != null ==> NulFree(key.chars))
    ensures i == FirstMatch(kids, key) && c == At(Roots(kids), i)
  {
    hide SameName, NulFree, FirstMatch, NoneBefore, NamesNulFree, Linked;
    ghost var ns := Roots(kids);
    c, i := parent.child, 0;
    NoneBeforeFirst(kids, key);
    while c != null
      invariant 0 <= i <= |kids| && c == At(ns, i)
      invariant NoneBefore(kids, key, i)
      decreases |kids| - i
    {
      NamesAreNulFree(kids, i);
      NextOf(ns, i);
      assert c == kids[i].node;
      var r := StrCaseCmp(c.name, key);
      if r == 0 {
        break;
      }
      NoneBeforeNext(kids, key, i);
      i, c := i + 1, c.next;
    }
    MatchFound(kids, key, i);
  }

  lemma NextOf(ns: seq<Node>, i: nat)
    requires Linked(ns) && i < |ns|
    ensures ns[i].next == At(ns, i + 1)
  {
  }
}
