/** The buffers of the printer. Every `print_*` function computes a size, allocates it and then
    writes; this module says which values fit. */
module JsonSizes {
  import opened Decimal
  import opened JsonLiteral
  import opened JsonLiteralProofs
  import opened JsonText

  /** The bytes that `print_value` allocates for its result. */
  function Allocated(v: Json, depth: nat, fmt: bool): nat {
    match v
    case Null => |"null"| + 1
    case False => |"false"| + 1
    case True => |"true"| + 1
    case Number(_) => 21
    case String(s) => EscapedLength(s) + 3
    case Array(items) => if items == [] then 3 else 5 + ItemsAllocated(items, depth + 1, fmt)
    case Object(ms) =>
      if ms == [] then (if fmt then depth + 3 else 3)
      else 7 + (if fmt then depth + 1 else 0) + MembersAllocated(ms, depth + 1, fmt)
  }

  /** The share of the entries in the size of an array. */
  function ItemsAllocated(items: seq<Json>, depth: nat, fmt: bool): nat {
    if items == [] then 0
    else |Print(items[0], depth, fmt)| + 2 + (if fmt then 1 else 0) + ItemsAllocated(items[1..], depth, fmt)
  }

  /** The share of the entries in the size of an object. */
  function MembersAllocated(ms: seq<Member>, depth: nat, fmt: bool): nat {
    if ms == [] then 0
    else |Print(ms[0].value, depth, fmt)| + |PrintLiteral(ms[0].key)| + 2 + (if fmt then 2 + depth else 0)
         + MembersAllocated(ms[1..], depth, fmt)
  }

  /** The text and its terminating NUL fit the buffer that is allocated for them. */
  predicate Fits(v: Json, depth: nat, fmt: bool) {
    |Print(v, depth, fmt)| + 1 <= Allocated(v, depth, fmt)
  }

  /** The literal of a name and its NUL fit the buffer that `print_string_ptr` allocates. */
  predicate KeyFits(key: string) {
    |PrintLiteral(key)| + 1 <= EscapedLength(key) + 3
  }

  /** No buffer that is filled while printing a value is overrun: its own, those of the values
      inside it and those of the names of members. */
  ghost predicate AllFit(v: Json, depth: nat, fmt: bool)
    decreases v
  {
    && Fits(v, depth, fmt)
    && (v.Array? ==> forall i | 0 <= i < |v.items| :: AllFit(v.items[i], depth + 1, fmt))
    && (v.Object? ==>
          forall i | 0 <= i < |v.members| ::
            KeyFits(v.members[i].key) && AllFit(v.members[i].value, depth + 1, fmt))
  }

  // ----- numbers -----

  function Power10(k: nat): nat {
    if k == 0 then 1 else 10 * Power10(k - 1)
  }

  lemma {:induction false} DigitsFit(n: nat, k: nat)
    requires 0 < k && n < Power10(k)
    ensures |Digits(n)| <= k
  {
    if n >= 10 {
      DigitsFit(n / 10, k - 1);
    }
  }

  lemma IntTextFits(n: int)
    requires INT_MIN <= n <= INT_MAX
    ensures |IntText(n)| <= 11
  {
    assert Power10(2) == 100;
    assert Power10(4) == 100 * Power10(2);
    assert Power10(6) == 100 * Power10(4);
    assert Power10(8) == 100 * Power10(6);
    assert Power10(10) == 100 * Power10(8);
    DigitsFit(if n < 0 then -n else n, 10);
  }

  // ----- arrays and objects -----

  lemma {:induction false} ItemsWaste(items: seq<Json>, depth: nat, fmt: bool)
    requires items != []
    ensures ItemsAllocated(items, depth, fmt) ==
      |PrintItems(items, depth, fmt)| + |items| + 1 + (if fmt then 1 else 0)
  {
    hide Print;
    if |items| > 1 {
      ItemsWaste(items[1..], depth, fmt);
    } else {
      assert items[1..] == [];
    }
  }

  lemma {:induction false} MembersWaste(ms: seq<Member>, depth: nat, fmt: bool)
    requires ms != []
    ensures MembersAllocated(ms, depth, fmt) == |PrintMembers(ms, depth, fmt)| + 1
  {
    hide Print, PrintLiteral;
    if |ms| > 1 {
      MembersWaste(ms[1..], depth, fmt);
    } else {
      assert ms[1..] == [];
    }
  }

  /** The bytes of a buffer that stay unused; -1 where one is missing. */
  function Waste(v: Json, depth: nat, fmt: bool): int {
    match v
    case Number(d) => 20 - |IntText(d.Floor)|
    case Array(items) => if items == [] then 0 else |items| + (if fmt then 4 else 3)
    case Object(ms) => if ms != [] then 5 else if fmt && depth == 0 then -1 else 0
    case _ => 0
  }

  /** How much larger a buffer is than the text and its NUL. */
  lemma WasteIs(v: Json, depth: nat, fmt: bool)
    requires Printable(v)
    ensures Allocated(v, depth, fmt) == |Print(v, depth, fmt)| + 1 + Waste(v, depth, fmt)
  {
    hide PrintItems, PrintMembers;
    match v
    case String(s) =>
      PrintedLiteralFillsBuffer(s);
    case Array(items) =>
      if items != [] {
        ItemsWaste(items, depth + 1, fmt);
      }
    case Object(ms) =>
      if ms != [] {
        MembersWaste(ms, depth + 1, fmt);
      }
    case _ =>
  }

  /** One value fits unless it is an empty object printed with layout at depth 0, whose four
      bytes are written into a buffer of three. */
  lemma ValueFits(v: Json, depth: nat, fmt: bool)
    requires Printable(v)
    ensures Fits(v, depth, fmt) <==> !(fmt && depth == 0 && v == Object([]))
  {
    hide Print, Allocated;
    WasteIs(v, depth, fmt);
    if v.Number? {
      IntTextFits(v.value.Floor);
    }
  }

  lemma {:induction false} InnerValuesFit(v: Json, depth: nat, fmt: bool)
    requires Printable(v) && depth > 0
    ensures AllFit(v, depth, fmt)
    decreases v
  {
    hide Fits;
    ValueFits(v, depth, fmt);
    match v
    case Array(items) =>
      forall i | 0 <= i < |items|
        ensures AllFit(items[i], depth + 1, fmt)
      {
        InnerValuesFit(items[i], depth + 1, fmt);
      }
    case Object(ms) =>
      forall i | 0 <= i < |ms|
        ensures KeyFits(ms[i].key) && AllFit(ms[i].value, depth + 1, fmt)
      {
        PrintedLiteralFillsBuffer(ms[i].key);
        InnerValuesFit(ms[i].value, depth + 1, fmt);
      }
    case _ =>
  }

  /** `cJSON_Print` and `cJSON_PrintUnformatted` stay inside all their buffers on every value
      except one: the empty object, printed with layout. */
  lemma PrintingStaysInBounds(v: Json, fmt: bool)
    requires Printable(v)
    ensures AllFit(v, 0, fmt) <==> !(fmt && v == Object([]))
  {
    hide Fits;
    ValueFits(v, 0, fmt);
    match v
    case Array(items) =>
      forall i | 0 <= i < |items|
        ensures AllFit(items[i], 1, fmt)
      {
        InnerValuesFit(items[i], 1, fmt);
      }
    case Object(ms) =>
      forall i | 0 <= i < |ms|
        ensures KeyFits(ms[i].key) && AllFit(ms[i].value, 1, fmt)
      {
        PrintedLiteralFillsBuffer(ms[i].key);
        InnerValuesFit(ms[i].value, 1, fmt);
      }
    case _ =>
  }
}
