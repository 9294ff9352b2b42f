/** The JSON value that a tree of nodes stands for. */
module CJsonValue {
  import opened CText
  import opened Decimal
  import opened JsonText
  import opened CJsonTree

  function Chars(t: Text?): string {
    if t == null then "" else t.chars
  }

  function Value(s: Shape): Json
    decreases s, 0
  {
    match s.cell.kind
    case KNull => Null
    case KFalse => False
    case KTrue => True
    case KNumber => Number(s.cell.valuedouble)
    case KString => String(Chars(s.cell.text))
    case KArray => Array(Values(s.kids))
    case KObject => Object(Members(s.kids))
  }

  function Values(kids: seq<Shape>): (vs: seq<Json>)
    ensures |vs| == |kids|
    decreases kids, 1
  {
    if kids == [] then [] else [Value(kids[0])] + Values(kids[1..])
  }

  function Members(kids: seq<Shape>): (ms: seq<Member>)
    ensures |ms| == |kids|
    decreases kids, 1
  {
    if kids == [] then [] else [Member(Chars(kids[0].cell.name), Value(kids[0]))] + Members(kids[1..])
  }

  lemma {:induction false} ValuesAppend(kids: seq<Shape>, k: Shape)
    ensures Values(kids + [k]) == Values(kids) + [Value(k)]
  {
    if kids == [] {
      assert kids + [k] == [k];
    } else {
      ValuesAppend(kids[1..], k);
      assert (kids + [k])[1..] == kids[1..] + [k];
    }
  }

  lemma {:induction false} MembersAppend(kids: seq<Shape>, k: Shape)
    ensures Members(kids + [k]) == Members(kids) + [Member(Chars(k.cell.name), Value(k))]
  {
    if kids == [] {
      assert kids + [k] == [k];
    } else {
      MembersAppend(kids[1..], k);
      assert (kids + [k])[1..] == kids[1..] + [k];
    }
  }

  lemma {:induction false} ValuesAt(kids: seq<Shape>, i: nat)
    requires i < |kids|
    ensures Values(kids)[i] == Value(kids[i])
  {
    if i > 0 {
      ValuesAt(kids[1..], i - 1);
    }
  }

  lemma {:induction false} MembersAt(kids: seq<Shape>, i: nat)
    requires i < |kids|
    ensures Members(kids)[i] == Member(Chars(kids[i].cell.name), Value(kids[i]))
  {
    if i > 0 {
      MembersAt(kids[1..], i - 1);
    }
  }

  /** `(int)d`: the fraction is cut off. Where C leaves the result open this model has `INT_MIN`. */
  function ToInt(d: real): int {
    var n := if d >= 0.0 then d.Floor else -((-d).Floor);
    if INT_MIN <= n <= INT_MAX then n else INT_MIN
  }

  /** In the range of `int` the conversion cuts towards zero. */
  lemma ToIntCuts(d: real)
    requires INT_MIN as real - 1.0 < d < INT_MAX as real + 1.0
    ensures d >= 0.0 ==> ToInt(d) as real <= d < ToInt(d) as real + 1.0
    ensures d <= 0.0 ==> ToInt(d) as real - 1.0 < d <= ToInt(d) as real
  {
    assert d < 0.0 ==> (-d).Floor as real <= -d < (-d).Floor as real + 1.0;
  }

  /** The children of an object have names that are C strings; those of anything else have none. */
  ghost predicate NameFits(parent: Kind, name: Text?) {
    if parent == KObject then name != null && NulFree(name.chars) else name == null
  }

  /** The fields that hold a value, as the parser fills them: a number is there as a real and cut to an
      integer, true has the integer 1, a string has its text, and everything else is zero. */
  predicate Filled(c: Cell) {
    && c.valueint == (match c.kind case KNumber => ToInt(c.valuedouble) case KTrue => 1 case _ => 0)
    && (c.kind != KNumber ==> c.valuedouble == 0.0)
    && (c.kind == KString <==> c.text != null)
  }

  /** What the parser leaves behind besides the value: the fields are filled, names are where they
      belong, only arrays and objects have children, and nothing is a reference. */
  ghost predicate Regular(s: Shape)
    decreases s
  {
    && !s.cell.isReference && Filled(s.cell)
    && (s.cell.kind == KString ==> NulFree(s.cell.text.chars))
    && (s.cell.kind != KArray && s.cell.kind != KObject ==> s.kids == [])
    && forall k | k in s.kids :: NameFits(s.cell.kind, k.cell.name) && Regular(k)
  }

  lemma IntegersAreExact(d: real)
    requires IntRange(d)
    ensures ToInt(d) == d.Floor
  {
  }
}
