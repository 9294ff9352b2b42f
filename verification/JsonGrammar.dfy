/** The texts that the parser accepts. The reference is a grammar that generates texts: that of RFC
    8259 with the numbers of `JsonNumerals`, any byte inside a string, and a string that the end of
    the text closes. */
module JsonGrammar {
  import opened CText
  import opened JsonLiteral
  import opened JsonTranscoding
  import opened JsonText
  import opened JsonNumerals
  import opened JsonRoundTrip
  import opened Sequences

  /** A text together with the way it is generated. */
  datatype Doc =
    | DocNull
    | DocFalse
    | DocTrue
    | DocNumber(numeral: Numeral)
    | DocString(parts: seq<Spelling>, closed: bool)
    | DocArray(blanks: string, entries: seq<Entry>)
    | DocObject(blanks: string, fields: seq<Field>)

  /** A value and the blanks around it. */
  datatype Entry = Entry(before: string, value: Doc, after: string)

  /** A key, a colon and a value, and the blanks around them. */
  datatype Field = Field(
    before: string, key: seq<Spelling>, behindKey: string, behindColon: string, value: Doc, after: string)

  ghost predicate Blanks(b: string) {
    forall i | 0 <= i < |b| :: 1 <= b[i] as int <= 32
  }

  /** Inside an array or object every string is closed. */
  ghost predicate Inner(d: Doc) {
    d.DocString? ==> d.closed
  }

  ghost predicate Valid(d: Doc)
    decreases d
  {
    match d
    case DocNumber(n) => n.Valid()
    case DocString(parts, _) => AllValid(parts)
    case DocArray(blanks, es) => Blanks(blanks) && forall i | 0 <= i < |es| :: ValidEntry(es[i])
    case DocObject(blanks, fs) => Blanks(blanks) && forall i | 0 <= i < |fs| :: ValidField(fs[i])
    case _ => true
  }

  ghost predicate ValidEntry(e: Entry)
    decreases e
  {
    Blanks(e.before) && Valid(e.value) && Inner(e.value) && Blanks(e.after)
  }

  ghost predicate ValidField(f: Field)
    decreases f
  {
    && Blanks(f.before) && AllValid(f.key) && Blanks(f.behindKey) && Blanks(f.behindColon)
    && Valid(f.value) && Inner(f.value) && Blanks(f.after)
  }

  ghost predicate ValidEntries(es: seq<Entry>) {
    forall i | 0 <= i < |es| :: ValidEntry(es[i])
  }

  ghost predicate ValidFields(fs: seq<Field>) {
    forall i | 0 <= i < |fs| :: ValidField(fs[i])
  }

  ghost function Text(d: Doc): string
    requires Valid(d)
    decreases d, 0
  {
    match d
    case DocNull => "null"
    case DocFalse => "false"
    case DocTrue => "true"
    case DocNumber(n) => n.Text()
    case DocString(parts, closed) => "\"" + SpellAll(parts) + (if closed then "\"" else "")
    case DocArray(blanks, es) => "[" + (if es == [] then blanks else EntriesText(es)) + "]"
    case DocObject(blanks, fs) => "{" + (if fs == [] then blanks else FieldsText(fs)) + "}"
  }

  ghost function EntriesText(es: seq<Entry>): string
    requires ValidEntries(es) && es != []
    decreases es
  {
    EntryText(es[0]) + (if |es| == 1 then "" else "," + EntriesText(es[1..]))
  }

  ghost function EntryText(e: Entry): string
    requires ValidEntry(e)
    decreases e
  {
    e.before + Text(e.value) + e.after
  }

  ghost function FieldsText(fs: seq<Field>): string
    requires ValidFields(fs) && fs != []
    decreases fs
  {
    FieldText(fs[0]) + (if |fs| == 1 then "" else "," + FieldsText(fs[1..]))
  }

  ghost function FieldText(f: Field): string
    requires ValidField(f)
    decreases f
  {
    f.before + ("\"" + SpellAll(f.key) + "\"") + f.behindKey + ":" + f.behindColon + Text(f.value) + f.after
  }

  /** The value that a text stands for. */
  ghost function Meaning(d: Doc): Json
    requires Valid(d)
    decreases d
  {
    match d
    case DocNull => Null
    case DocFalse => False
    case DocTrue => True
    case DocNumber(n) => Number(n.Value())
    case DocString(parts, _) => String(BytesOf(parts))
    case DocArray(_, es) => Array(EntryMeanings(es))
    case DocObject(_, fs) => Object(FieldMeanings(fs))
  }

  ghost function EntryMeanings(es: seq<Entry>): seq<Json>
    requires ValidEntries(es)
    decreases es
  {
    if es == [] then [] else [Meaning(es[0].value)] + EntryMeanings(es[1..])
  }

  ghost function FieldMeanings(fs: seq<Field>): seq<Member>
    requires ValidFields(fs)
    decreases fs
  {
    if fs == [] then [] else [Member(BytesOf(fs[0].key), Meaning(fs[0].value))] + FieldMeanings(fs[1..])
  }

  /** What follows is not read as a part of the text. */
  ghost predicate EndsAt(d: Doc, rest: string) {
    match d
    case DocNumber(n) => n.Ends(rest)
    case DocString(_, closed) => closed || rest == ""
    case _ => true
  }

  // ----- every such text is read -----

  lemma SkipOver(blanks: string, t: string)
    requires Blanks(blanks)
    ensures Skip(blanks + t) == Skip(t)
  {
    SkipBlanks(blanks, t);
  }

  lemma NotBlank(t: string)
    requires t != "" && t[0] > ' '
    ensures Skip(t) == t
  {
  }

  /** A text starts with a character that is neither blank nor closes anything. */
  lemma TextStarts(d: Doc, u: string)
    requires Valid(d) && EndsAt(d, u)
    ensures var t := Text(d) + u; t != "" && t[0] > ' ' && t[0] != ']' && t[0] != '}'
  {
    hide EntriesText, FieldsText, SpellAll, AllValid, Numeral.Text, Numeral.Ends;
    match d
    case DocNumber(n) => NumeralIsRead(n, u);
    case _ =>
  }

  /** A blank, a comma or a bracket ends everything. */
  lemma BlanksEnd(d: Doc, blanks: string, u: string)
    requires Blanks(blanks) && Inner(d) && u != "" && u[0] in ",]}"
    ensures EndsAt(d, blanks + u)
  {
    var t := blanks + u;
    assert t[0] == if blanks == "" then u[0] else blanks[0];
    assert t[0] as int <= 32 || t[0] in ",]}";
  }

  lemma StringIsRead(parts: seq<Spelling>, closed: bool, rest: string)
    requires AllValid(parts) && (closed || rest == "")
    ensures ParseValue(Text(DocString(parts, closed)) + rest) == Parsed(String(BytesOf(parts)), rest)
  {
    hide Unescape, ParseValue, AllValid;
    var u := SpellAll(parts) + (if closed then "\"" + rest else "");
    assert Text(DocString(parts, closed)) + rest == "\"" + u;
    ParseValueOfQuote(u);
    if closed {
      ClosingQuote(parts, rest);
    } else {
      TextEnd(parts);
    }
  }

  lemma TextEnd(parts: seq<Spelling>)
    requires AllValid(parts)
    ensures Unescape(SpellAll(parts) + "") == Literal(BytesOf(parts), "")
  {
    PartsDecode(parts, "");
    assert BytesOf(parts) + "" == BytesOf(parts);
  }

  lemma LastEntry(t: string, v: Json, blanks: string, rest: string)
    requires Blanks(blanks) && ParseValue(t) == Parsed(v, blanks + ("]" + rest))
    ensures ParseElements(t) == Parsed([v], rest)
  {
    hide ParseValue;
    SkipOver(blanks, "]" + rest);
    assert ("]" + rest)[1..] == rest;
  }

  lemma NextEntry(t: string, v: Json, blanks: string, u: string, vs: seq<Json>, rest: string)
    requires Blanks(blanks) && ParseValue(t) == Parsed(v, blanks + ("," + u))
    requires ParseElements(Skip(u)) == Parsed(vs, rest)
    ensures ParseElements(t) == Parsed([v] + vs, rest)
  {
    hide ParseValue;
    SkipOver(blanks, "," + u);
    assert ("," + u)[1..] == u;
  }

  lemma EntriesSplit(es: seq<Entry>, close: string)
    requires ValidEntries(es) && es != []
    ensures var e := es[0];
      EntriesText(es) + close ==
        e.before + (Text(e.value) + (e.after + (if |es| == 1 then close else "," + (EntriesText(es[1..]) + close))))
  {
    hide Text, ValidEntry, EntryText, EntriesText;
    var e := es[0];
    ValidParts(e);
    EntriesUnfold(es);
    var more := if |es| == 1 then "" else "," + EntriesText(es[1..]);
    var tail := if |es| == 1 then close else "," + (EntriesText(es[1..]) + close);
    MoreSplits(|es| == 1, if |es| == 1 then "" else EntriesText(es[1..]), close);
    TailSplits(EntryText(e), more, close, tail);
    EntryUnfold(e);
    EntryConcatenated(e.before, Text(e.value), e.after, tail);
  }

  lemma EntriesUnfold(es: seq<Entry>)
    requires ValidEntries(es) && es != []
    ensures EntriesText(es) == EntryText(es[0]) + (if |es| == 1 then "" else "," + EntriesText(es[1..]))
  {
  }

  lemma EntryUnfold(e: Entry)
    requires ValidEntry(e)
    ensures EntryText(e) == e.before + Text(e.value) + e.after
  {
  }

  lemma EntryConcatenated(before: string, text: string, after: string, tail: string)
    ensures (before + text + after) + tail == before + (text + (after + tail))
  {
    Regroup(before + text, after, tail);
    Regroup(before, text, after + tail);
  }

  lemma MoreSplits(last: bool, more: string, close: string)
    ensures (if last then "" else "," + more) + close == if last then close else "," + (more + close)
  {
    if last {
      assert "" + close == close;
    } else {
      Regroup(",", more, close);
    }
  }

  lemma TailSplits(head: string, more: string, close: string, tail: string)
    requires more + close == tail
    ensures (head + more) + close == head + tail
  {
  }

  lemma ValidParts(e: Entry)
    requires ValidEntry(e)
    ensures Blanks(e.before) && Valid(e.value) && Inner(e.value) && Blanks(e.after)
  {
  }

  lemma {:induction false} EntriesAreRead(es: seq<Entry>, rest: string)
    requires ValidEntries(es) && es != []
    ensures ParseElements(Skip(EntriesText(es) + ("]" + rest))) == Parsed(EntryMeanings(es), rest)
    ensures Peek(Skip(EntriesText(es) + ("]" + rest))) != ']'
    decreases es, 0
  {
    hide Text, EntriesText, ParseValue, ParseElements, Blanks, Skip, ValidEntry, Inner, EndsAt;
    var e, close := es[0], "]" + rest;
    ValidParts(e);
    EntriesSplit(es, close);
    var u := if |es| == 1 then close else "," + (EntriesText(es[1..]) + close);
    var t := Text(e.value) + (e.after + u);
    BlanksEnd(e.value, e.after, u);
    TextStarts(e.value, e.after + u);
    SkipOver(e.before, t);
    NotBlank(t);
    DocIsRead(e.value, e.after + u);
    if |es| == 1 {
      assert es[1..] == [] && EntryMeanings(es) == [Meaning(e.value)];
      LastEntry(t, Meaning(e.value), e.after, rest);
    } else {
      EntriesAreRead(es[1..], rest);
      assert EntryMeanings(es) == [Meaning(e.value)] + EntryMeanings(es[1..]);
      NextEntry(t, Meaning(e.value), e.after, EntriesText(es[1..]) + close, EntryMeanings(es[1..]), rest);
    }
  }

  // ----- objects -----

  /** Key and colon. */
  lemma KeyIsRead(f: Field, v: Json, text: string, rest: string)
    requires AllValid(f.key) && Blanks(f.behindKey) && Blanks(f.behindColon) && Peek(text) > ' '
    requires ParseValue(text) == Parsed(v, rest)
    ensures ParseMember("\"" + (SpellAll(f.key) + ("\"" + (f.behindKey + (":" + (f.behindColon + text)))))) ==
      Parsed(Member(BytesOf(f.key), v), rest)
  {
    hide ParseValue, Unescape, AllValid, Blanks;
    var colon := ":" + (f.behindColon + text);
    var u := SpellAll(f.key) + ("\"" + (f.behindKey + colon));
    ClosingQuote(f.key, f.behindKey + colon);
    assert ("\"" + u)[1..] == u;
    SkipOver(f.behindKey, colon);
    NotBlank(colon);
    assert colon[1..] == f.behindColon + text;
    SkipOver(f.behindColon, text);
    NotBlank(text);
  }

  lemma LastField(t: string, m: Member, blanks: string, rest: string)
    requires Blanks(blanks) && ParseMember(t) == Parsed(m, blanks + ("}" + rest))
    ensures ParseMembers(t) == Parsed([m], rest)
  {
    hide ParseMember;
    SkipOver(blanks, "}" + rest);
    assert ("}" + rest)[1..] == rest;
  }

  lemma NextField(t: string, m: Member, blanks: string, u: string, ms: seq<Member>, rest: string)
    requires Blanks(blanks) && ParseMember(t) == Parsed(m, blanks + ("," + u))
    requires ParseMembers(Skip(u)) == Parsed(ms, rest)
    ensures ParseMembers(t) == Parsed([m] + ms, rest)
  {
    hide ParseMember;
    SkipOver(blanks, "," + u);
    assert ("," + u)[1..] == u;
  }

  lemma FieldsSplit(fs: seq<Field>, close: string)
    requires ValidFields(fs) && fs != []
    ensures var f := fs[0];
      FieldsText(fs) + close ==
        f.before + ("\"" + (SpellAll(f.key) + ("\"" + (f.behindKey + (":" + (f.behindColon + (Text(f.value) + (f.after +
          (if |fs| == 1 then close else "," + (FieldsText(fs[1..]) + close))))))))))
  {
    hide Text, ValidField, SpellAll, AllValid, FieldText, FieldsText;
    var f := fs[0];
    ValidFieldParts(f);
    FieldsUnfold(fs);
    var more := if |fs| == 1 then "" else "," + FieldsText(fs[1..]);
    var tail := if |fs| == 1 then close else "," + (FieldsText(fs[1..]) + close);
    MoreSplits(|fs| == 1, if |fs| == 1 then "" else FieldsText(fs[1..]), close);
    TailSplits(FieldText(f), more, close, tail);
    FieldUnfold(f);
    FieldConcatenated(f.before, SpellAll(f.key), f.behindKey, f.behindColon, Text(f.value), f.after, tail);
  }

  lemma FieldsUnfold(fs: seq<Field>)
    requires ValidFields(fs) && fs != []
    ensures FieldsText(fs) == FieldText(fs[0]) + (if |fs| == 1 then "" else "," + FieldsText(fs[1..]))
  {
  }

  lemma FieldUnfold(f: Field)
    requires ValidField(f)
    ensures FieldText(f) ==
      f.before + ("\"" + SpellAll(f.key) + "\"") + f.behindKey + ":" + f.behindColon + Text(f.value) + f.after
  {
  }

  lemma FieldConcatenated(
    before: string, key: string, behind: string, colon: string, text: string, after: string, tail: string)
    ensures (before + ("\"" + key + "\"") + behind + ":" + colon + text + after) + tail ==
      before + ("\"" + (key + ("\"" + (behind + (":" + (colon + (text + (after + tail))))))))
  {
    var quoted := "\"" + key + "\"";
    Regroup(before + quoted + behind + ":" + colon + text, after, tail);
    ValueConcatenated(before + quoted + behind, colon, text, after + tail);
    var rest := ":" + (colon + (text + (after + tail)));
    Regroup(before + quoted, behind, rest);
    KeyConcatenated(before, key, behind + rest);
  }

  lemma ValueConcatenated(front: string, colon: string, text: string, tail: string)
    ensures (front + ":" + colon + text) + tail == front + (":" + (colon + (text + tail)))
  {
    Regroup(front + ":" + colon, text, tail);
    Regroup(front + ":", colon, text + tail);
    Regroup(front, ":", colon + (text + tail));
  }

  lemma KeyConcatenated(before: string, key: string, rest: string)
    ensures (before + ("\"" + key + "\"")) + rest == before + ("\"" + (key + ("\"" + rest)))
  {
    Regroup(before, "\"" + key + "\"", rest);
    Regroup("\"" + key, "\"", rest);
    Regroup("\"", key, "\"" + rest);
  }

  lemma ValidFieldParts(f: Field)
    requires ValidField(f)
    ensures Blanks(f.before) && AllValid(f.key) && Blanks(f.behindKey) && Blanks(f.behindColon)
    ensures Valid(f.value) && Inner(f.value) && Blanks(f.after)
  {
  }

  lemma {:induction false} FieldsAreRead(fs: seq<Field>, rest: string)
    requires ValidFields(fs) && fs != []
    ensures ParseMembers(Skip(FieldsText(fs) + ("}" + rest))) == Parsed(FieldMeanings(fs), rest)
    ensures Peek(Skip(FieldsText(fs) + ("}" + rest))) != '}'
    decreases fs, 0
  {
    hide Text, FieldsText, ParseValue, ParseMember, ParseMembers, Blanks, Skip, ValidField, Inner, EndsAt, SpellAll,
      AllValid;
    var f, close := fs[0], "}" + rest;
    ValidFieldParts(f);
    FieldsSplit(fs, close);
    var u := if |fs| == 1 then close else "," + (FieldsText(fs[1..]) + close);
    var text := Text(f.value) + (f.after + u);
    var t := "\"" + (SpellAll(f.key) + ("\"" + (f.behindKey + (":" + (f.behindColon + text)))));
    BlanksEnd(f.value, f.after, u);
    TextStarts(f.value, f.after + u);
    DocIsRead(f.value, f.after + u);
    SkipOver(f.before, t);
    NotBlank(t);
    KeyIsRead(f, Meaning(f.value), text, f.after + u);
    var m := Member(BytesOf(f.key), Meaning(f.value));
    if |fs| == 1 {
      assert fs[1..] == [] && FieldMeanings(fs) == [m];
      LastField(t, m, f.after, rest);
    } else {
      FieldsAreRead(fs[1..], rest);
      assert FieldMeanings(fs) == [m] + FieldMeanings(fs[1..]);
      NextField(t, m, f.after, FieldsText(fs[1..]) + close, FieldMeanings(fs[1..]), rest);
    }
  }

  // ----- values -----

  lemma {:induction false} ArrayIsRead(d: Doc, rest: string)
    requires Valid(d) && d.DocArray?
    ensures ParseValue(Text(d) + rest) == Parsed(Meaning(d), rest)
    decreases d, 0
  {
    hide ParseValue, ParseElements, EntriesText, Skip;
    var u := (if d.entries == [] then d.blanks else EntriesText(d.entries)) + ("]" + rest);
    assert Text(d) + rest == "[" + u;
    ParseValueOfArray(u);
    if d.entries == [] {
      SkipOver(d.blanks, "]" + rest);
      NotBlank("]" + rest);
      assert ("]" + rest)[1..] == rest;
    } else {
      EntriesAreRead(d.entries, rest);
    }
  }

  lemma {:induction false} ObjectIsRead(d: Doc, rest: string)
    requires Valid(d) && d.DocObject?
    ensures ParseValue(Text(d) + rest) == Parsed(Meaning(d), rest)
    decreases d, 0
  {
    hide ParseValue, ParseMembers, FieldsText, Skip;
    var u := (if d.fields == [] then d.blanks else FieldsText(d.fields)) + ("}" + rest);
    assert Text(d) + rest == "{" + u;
    ParseValueOfObject(u);
    if d.fields == [] {
      SkipOver(d.blanks, "}" + rest);
      NotBlank("}" + rest);
      assert ("}" + rest)[1..] == rest;
    } else {
      FieldsAreRead(d.fields, rest);
    }
  }

  /** Every text of the grammar, with any blanks and any spelling of strings and numbers, is read as
      the value it stands for and up to its end. */
  lemma {:induction false} DocIsRead(d: Doc, rest: string)
    requires Valid(d) && EndsAt(d, rest)
    ensures ParseValue(Text(d) + rest) == Parsed(Meaning(d), rest)
    decreases d, 1
  {
    hide ParseValue;
    match d
    case DocNull => NullIsRead(rest);
    case DocFalse => WordRoundTrip(rest);
    case DocTrue => WordRoundTrip(rest);
    case DocNumber(n) =>
      NumeralIsRead(n, rest);
      ParseValueOfNumber(n.Text() + rest);
    case DocString(parts, closed) => StringIsRead(parts, closed, rest);
    case DocArray(_, _) => ArrayIsRead(d, rest);
    case DocObject(_, _) => ObjectIsRead(d, rest);
  }

  lemma NullIsRead(rest: string)
    ensures ParseValue("null" + rest) == Parsed(Null, rest)
  {
    assert ("null" + rest)[4..] == rest;
  }
}
