/** The text form of JSON values: the grammar that `parse_value` accepts and the text and
    buffer sizes of `print_value`. */
module JsonText {
  import opened CText
  import opened Decimal
  import opened JsonLiteral

  /** The value that a cJSON tree stands for. `valuedouble` is taken as an exact real. */
  datatype Json =
    | Null
    | False
    | True
    | Number(value: real)
    | String(text: string)
    | Array(items: seq<Json>)
    | Object(members: seq<Member>)

  datatype Member = Member(key: string, value: Json)

  /** Numbers that `print_number` renders with `%d`. */
  predicate IntRange(d: real) {
    d.Floor as real == d && INT_MIN <= d.Floor <= INT_MAX
  }

  /** The values whose text is modelled: strings are C strings, numbers are in the range of `int`. */
  ghost predicate Printable(v: Json)
    decreases v
  {
    match v
    case Number(d) => IntRange(d)
    case String(s) => NulFree(s)
    case Array(items) => forall i | 0 <= i < |items| :: Printable(items[i])
    case Object(ms) => forall i | 0 <= i < |ms| :: NulFree(ms[i].key) && Printable(ms[i].value)
    case _ => true
  }

  // ----- printing -----

  function Tabs(n: int): (s: string)
    ensures |s| == (if n < 0 then 0 else n)
    ensures forall i | 0 <= i < |s| :: s[i] == '\t'
  {
    if n <= 0 then "" else "\t" + Tabs(n - 1)
  }

  /** Text that only the formatted output has. */
  function Layout(fmt: bool, s: string): string {
    if fmt then s else ""
  }

  /** The text that `print_value` returns. */
  function Print(v: Json, depth: nat, fmt: bool): string
    decreases v, 0
  {
    match v
    case Null => "null"
    case False => "false"
    case True => "true"
    case Number(d) => IntText(d.Floor)
    case String(s) => PrintLiteral(s)
    case Array(items) =>
      if items == [] then "[]" else "[" + PrintItems(items, depth + 1, fmt) + "]"
    case Object(ms) =>
      if ms == [] then "{" + Layout(fmt, "\n" + Tabs(depth - 1)) + "}"
      else "{" + Layout(fmt, "\n") + PrintMembers(ms, depth + 1, fmt) + Layout(fmt, Tabs(depth)) + "}"
  }

  /** The entries of an array, with the separators between them. */
  function PrintItems(items: seq<Json>, depth: nat, fmt: bool): string
    decreases items
  {
    if items == [] then ""
    else Print(items[0], depth, fmt)
         + (if |items| == 1 then "" else "," + Layout(fmt, " ") + PrintItems(items[1..], depth, fmt))
  }

  /** The entries of an object; `depth` is that of the entries. */
  function PrintMembers(ms: seq<Member>, depth: nat, fmt: bool): string
    decreases ms
  {
    if ms == [] then ""
    else PrintMember(ms[0], depth, fmt)
         + (if |ms| == 1 then "" else ",") + Layout(fmt, "\n") + PrintMembers(ms[1..], depth, fmt)
  }

  function PrintMember(m: Member, depth: nat, fmt: bool): string
    decreases m
  {
    Layout(fmt, Tabs(depth)) + PrintLiteral(m.key) + ":" + Layout(fmt, "\t") + Print(m.value, depth, fmt)
  }

  // ----- parsing -----

  datatype Parsed<+T> =
    | Parsed(value: T, rest: string)
    | Rejected      // the parser returns a null pointer
    | Unmodelled    // undefined in C, see JsonLiteral

  function Pow10(e: int): real
    decreases if e < 0 then -e else e
  {
    if e == 0 then 1.0 else if e > 0 then 10.0 * Pow10(e - 1) else Pow10(e + 1) / 10.0
  }

  /** The part of a number after the integer digits: accumulated digits, scale and exponent. */
  datatype Tail = Tail(mantissa: nat, scale: int, subscale: int, rest: string)

  function Fraction(n: nat, t: string): (r: Tail)
    ensures |r.rest| <= |t|
  {
    if Peek(t) == '.' && IsDigit(Peek(t[1..])) then
      var (m, u) := Accumulate(n, t[1..]);
      Tail(m, |u| - |t[1..]|, 0, u)
    else Tail(n, 0, 0, t)
  }

  function Exponent(f: Tail): (r: Tail)
    ensures |r.rest| <= |f.rest|
  {
    var t := f.rest;
    if Peek(t) != 'e' && Peek(t) != 'E' then f
    else if Peek(t[1..]) == '+' then
      var (e, u) := Accumulate(0, t[2..]);
      f.(subscale := e, rest := u)
    else if Peek(t[1..]) == '-' then
      var (e, u) := Accumulate(0, t[2..]);
      f.(subscale := -(e as int), rest := u)
    else
      var (e, u) := Accumulate(0, t[1..]);
      f.(subscale := e, rest := u)
  }

  /** The digits before the point: one optional zero, then digits unless the next one is a zero. */
  function IntegerPart(t: string): (r: (nat, string))
    ensures |r.1| <= |t|
  {
    var u := if Peek(t) == '0' then t[1..] else t;
    if '1' <= Peek(u) <= '9' then Accumulate(0, u) else (0, u)
  }

  function Unsigned(t: string): (r: Tail)
    ensures |r.rest| <= |t|
  {
    var (n, u) := IntegerPart(t);
    Exponent(Fraction(n, u))
  }

  /** The number that a sign, digits and a scale stand for. */
  function Scaled(sign: real, x: Tail): real {
    sign * x.mantissa as real * Pow10(x.scale + x.subscale)
  }

  function ParseNumber(t: string): (r: Parsed<Json>)
    ensures r.Parsed? && |r.rest| <= |t|
  {
    var sign := if Peek(t) == '-' then -1.0 else 1.0;
    var x := Unsigned(if Peek(t) == '-' then t[1..] else t);
    Parsed(Number(Scaled(sign, x)), x.rest)
  }

  /** `parse_value`, reading at the start of a text. */
  function ParseValue(t: string): (r: Parsed<Json>)
    ensures r.Parsed? ==> |r.rest| <= |t|
    decreases |t|, 0
  {
    if "null" <= t then Parsed(Null, t[4..])
    else if "false" <= t then Parsed(False, t[5..])
    else if "true" <= t then Parsed(True, t[4..])
    else if Peek(t) == '"' then
      match Unescape(t[1..])
      case Literal(s, rest) => Parsed(String(s), rest)
      case Unmodelled => Parsed<Json>.Unmodelled
    else if Peek(t) == '-' || IsDigit(Peek(t)) then ParseNumber(t)
    else if Peek(t) == '[' then ParseArray(t[1..])
    else if Peek(t) == '{' then ParseObject(t[1..])
    else Rejected
  }

  /** `parse_array`, behind the opening bracket. */
  function ParseArray(t: string): (r: Parsed<Json>)
    ensures r.Parsed? ==> |r.rest| <= |t|
    decreases |t|, 3
  {
    var u := Skip(t);
    if Peek(u) == ']' then Parsed(Array([]), u[1..])
    else
      match ParseElements(u)
      case Parsed(items, rest) => Parsed(Array(items), rest)
      case Rejected => Rejected
      case Unmodelled => Parsed<Json>.Unmodelled
  }

  /** `parse_object`, behind the opening brace. */
  function ParseObject(t: string): (r: Parsed<Json>)
    ensures r.Parsed? ==> |r.rest| <= |t|
    decreases |t|, 3
  {
    var u := Skip(t);
    if Peek(u) == '}' then Parsed(Object([]), u[1..])
    else
      match ParseMembers(u)
      case Parsed(ms, rest) => Parsed(Object(ms), rest)
      case Rejected => Rejected
      case Unmodelled => Parsed<Json>.Unmodelled
  }

  /** The entries of an array from the first character of a value, up to and including the
      closing bracket. */
  function ParseElements(t: string): (r: Parsed<seq<Json>>)
    ensures r.Parsed? ==> |r.rest| <= |t|
    decreases |t|, 2
  {
    match ParseValue(t)
    case Rejected => Rejected
    case Unmodelled => Parsed<seq<Json>>.Unmodelled
    case Parsed(v, rest) =>
      var u := Skip(rest);
      if Peek(u) == ']' then Parsed([v], u[1..])
      else if Peek(u) != ',' then Rejected
      else
        match ParseElements(Skip(u[1..]))
        case Parsed(vs, end) => Parsed([v] + vs, end)
        case Rejected => Rejected
        case Unmodelled => Parsed<seq<Json>>.Unmodelled
  }

  /** A key, a colon and a value. */
  function ParseMember(t: string): (r: Parsed<Member>)
    ensures r.Parsed? ==> |r.rest| < |t|
    decreases |t|, 1
  {
    if Peek(t) != '"' then Rejected
    else
      match Unescape(t[1..])
      case Unmodelled => Parsed<Member>.Unmodelled
      case Literal(key, rest) =>
        var u := Skip(rest);
        if Peek(u) != ':' then Rejected
        else
          match ParseValue(Skip(u[1..]))
          case Rejected => Rejected
          case Unmodelled => Parsed<Member>.Unmodelled
          case Parsed(v, end) => Parsed(Member(key, v), end)
  }

  /** The entries of an object from the first character of a key, up to and including the
      closing brace. */
  function ParseMembers(t: string): (r: Parsed<seq<Member>>)
    ensures r.Parsed? ==> |r.rest| <= |t|
    decreases |t|, 2
  {
    match ParseMember(t)
    case Rejected => Rejected
    case Unmodelled => Parsed<seq<Member>>.Unmodelled
    case Parsed(m, rest) =>
      var u := Skip(rest);
      if Peek(u) == '}' then Parsed([m], u[1..])
      else if Peek(u) != ',' then Rejected
      else
        match ParseMembers(Skip(u[1..]))
        case Parsed(ms, end) => Parsed([m] + ms, end)
        case Rejected => Rejected
        case Unmodelled => Parsed<seq<Member>>.Unmodelled
  }
}
