/** Space between the tokens of a document does not change what it parses to. */
module JsonSpacing {
  import opened Base
  import opened Decimal
  import opened Json
  import opened JsonRoundTrip

  /** A document with the space written between its tokens; leaves are written without any. */
  datatype Spaced =
    | Leaf(d: Doc)
    | List(gap: string, items: seq<Item>)
    | Record(gap: string, fields: seq<Field>)

  datatype Item = Item(before: string, value: Spaced, after: string)
  datatype Field = Field(before: string, name: string, middle: string, item: Item)

  function Text(d: Spaced): string
    decreases d, 0
  {
    match d
    case Leaf(d) => Render(d)
    case List(gap, items) => if items == [] then "[" + (gap + "]") else "[" + (ItemsText(items) + "]")
    case Record(gap, fields) => if fields == [] then "{" + (gap + "}") else "{" + (FieldsText(fields) + "}")
  }

  function ItemText(i: Item): string
    decreases i, 0
  {
    i.before + (Text(i.value) + i.after)
  }

  function ItemsText(items: seq<Item>): string
    requires items != []
    decreases items, 0
  {
    if |items| == 1 then ItemText(items[0]) else ItemText(items[0]) + ("," + ItemsText(items[1..]))
  }

  function FieldText(f: Field): string
    decreases f, 0
  {
    f.before + (Quoted(f.name) + (f.middle + (":" + ItemText(f.item))))
  }

  function FieldsText(fields: seq<Field>): string
    requires fields != []
    decreases fields, 0
  {
    if |fields| == 1 then FieldText(fields[0]) else FieldText(fields[0]) + ("," + FieldsText(fields[1..]))
  }

  /** The document without the space. */
  function Plain(d: Spaced): Doc
    decreases d, 0
  {
    match d
    case Leaf(d) => d
    case List(_, items) => DArr(PlainItems(items))
    case Record(_, fields) => DObj(PlainFields(fields))
  }

  function PlainItems(items: seq<Item>): (r: seq<Doc>)
    ensures |r| == |items|
    decreases items, 0
  {
    if items == [] then [] else [Plain(items[0].value)] + PlainItems(items[1..])
  }

  function PlainFields(fields: seq<Field>): (r: seq<Member>)
    ensures |r| == |fields| && forall i :: 0 <= i < |r| ==> r[i].name == fields[i].name
    decreases fields, 0
  {
    if fields == [] then [] else
    [Member(fields[0].name, Plain(fields[0].item.value))] + PlainFields(fields[1..])
  }

  /** Blanks, tabs, line breaks and page breaks. */
  predicate Blank(s: string) {
    forall i :: 0 <= i < |s| ==> s[i] as int in {9, 10, 11, 12, 13, 32}
  }

  /** Only blanks between the tokens. */
  predicate Blanks(d: Spaced)
    decreases d, 0
  {
    match d
    case Leaf(_) => true
    case List(gap, items) => Blank(gap) && ItemsBlank(items)
    case Record(gap, fields) => Blank(gap) && FieldsBlank(fields)
  }

  predicate ItemBlank(i: Item)
    decreases i, 0
  {
    Blank(i.before) && Blanks(i.value) && Blank(i.after)
  }

  predicate ItemsBlank(items: seq<Item>)
    decreases items, 0
  {
    items == [] || (ItemBlank(items[0]) && ItemsBlank(items[1..]))
  }

  predicate FieldsBlank(fields: seq<Field>)
    decreases fields, 0
  {
    fields == []
    || (Blank(fields[0].before) && Blank(fields[0].middle) && ItemBlank(fields[0].item) && FieldsBlank(fields[1..]))
  }

  // ---------- space is skipped ----------

  predicate NoSpaceAt(s: string) {
    s != [] ==> !IsSpace(s[0])
  }

  lemma {:induction false} SkipBlank(w: string, s: string)
    requires Blank(w) && NoSpaceAt(s)
    ensures SkipSpace(w + s) == s
    decreases |w|
  {
    if w == [] {
      assert w + s == s;
    } else {
      assert w[0] as int in {9, 10, 11, 12, 13, 32} && IsSpace(w[0]);
      assert (w + s)[0] == w[0] && (w + s)[1..] == w[1..] + s;
      SkipBlank(w[1..], s);
    }
  }

  lemma BlankStops(w: string, s: string)
    requires Blank(w) && (At(s, ',') || At(s, ']') || At(s, '}'))
    ensures Stops(w + s)
  {
    if w != [] {
      assert w[0] as int in {9, 10, 11, 12, 13, 32} && (w + s)[0] == w[0];
    } else {
      assert w + s == s;
    }
  }

  lemma TextStarts(d: Spaced)
    ensures Text(d) != [] && NoSpaceAt(Text(d)) && Text(d)[0] != ']' && Text(d)[0] != '}'
  {
    if d.Leaf? { RenderStarts(d.d); }
  }

  lemma Assoc(a: string, b: string, c: string)
    ensures a + b + c == a + (b + c)
  {
  }

  lemma Head(c: char, s: string)
    ensures var t := [c] + s; t[0] == c && t[1..] == s
  {
  }

  // ---------- values ----------

  lemma {:induction false} SpacedValue(d: Spaced, rest: string)
    requires Sound(Plain(d)) && Blanks(d) && Stops(rest)
    ensures Value(Text(d) + rest) == Ok(Parsed(Denote(Plain(d)), rest))
    decreases d, 1
  {
    hide Render, Array, Object, Value, ItemsText, FieldsText;
    match d
    case Leaf(doc) =>
      assert Text(d) == Render(doc) && Plain(d) == doc;
      ValueUndone(doc, rest);
    case List(gap, items) =>
      if items == [] {
        Assoc("[", gap + "]", rest);
        Assoc(gap, "]", rest);
        Head('[', gap + ("]" + rest));
        OpensArray(gap + ("]" + rest));
        EmptyList(gap, rest);
        assert Denote(Plain(d)) == Arr([]);
      } else {
        Assoc("[", ItemsText(items) + "]", rest);
        Assoc(ItemsText(items), "]", rest);
        Head('[', ItemsText(items) + ("]" + rest));
        OpensArray(ItemsText(items) + ("]" + rest));
        ListRead(items, rest);
      }
    case Record(gap, fields) =>
      if fields == [] {
        Assoc("{", gap + "}", rest);
        Assoc(gap, "}", rest);
        OpensObject(gap + ("}" + rest));
        EmptyRecord(gap, rest);
        assert Denote(Plain(d)) == Obj(map[]);
      } else {
        Assoc("{", FieldsText(fields) + "}", rest);
        Assoc(FieldsText(fields), "}", rest);
        OpensObject(FieldsText(fields) + ("}" + rest));
        RecordRead(fields, rest);
      }
  }

  lemma OpensArray(s: string)
    ensures Value("[" + s) == Array(s)
  {
    hide Array;
    Head('[', s);
    assert SkipSpace("[" + s) == "[" + s;
  }

  lemma OpensObject(s: string)
    ensures Value("{" + s) == Object(s)
  {
    hide Object;
    Head('{', s);
    assert SkipSpace("{" + s) == "{" + s;
  }

  lemma EmptyList(gap: string, rest: string)
    requires Blank(gap)
    ensures Array(gap + ("]" + rest)) == Ok(Parsed(Arr([]), rest))
  {
    Head(']', rest);
    SkipBlank(gap, "]" + rest);
  }

  lemma EmptyRecord(gap: string, rest: string)
    requires Blank(gap)
    ensures Object(gap + ("}" + rest)) == Ok(Parsed(Obj(map[]), rest))
  {
    Head('}', rest);
    SkipBlank(gap, "}" + rest);
  }

  lemma {:induction false} ListRead(items: seq<Item>, rest: string)
    requires items != [] && SoundItems(PlainItems(items)) && ItemsBlank(items)
    ensures Array(ItemsText(items) + ("]" + rest)) == Ok(Parsed(Arr(DenoteItems(PlainItems(items))), rest))
    decreases items, 2
  {
    hide Elements, SkipSpace, Text, DenoteItems;
    ItemsRead(items, rest, []);
    ItemsStart(items, "]" + rest);
    assert [] + DenoteItems(PlainItems(items)) == DenoteItems(PlainItems(items));
  }

  /** What follows an item, up to the end of the array. */
  function ItemsTail(items: seq<Item>, rest: string): string
    requires items != []
  {
    if |items| == 1 then "]" + rest else "," + (ItemsText(items[1..]) + ("]" + rest))
  }

  lemma ItemsStart(items: seq<Item>, rest: string)
    requires items != [] && ItemsBlank(items)
    ensures !At(SkipSpace(ItemsText(items) + rest), ']')
    ensures exists tail :: SkipSpace(ItemsText(items) + rest) == Text(items[0].value) + tail
  {
    hide Text, SkipSpace;
    var i := items[0];
    var more := if |items| == 1 then rest else ("," + ItemsText(items[1..])) + rest;
    var tail := i.after + more;
    ItemThen(i, more);
    if |items| > 1 { Assoc(ItemText(i), "," + ItemsText(items[1..]), rest); }
    TextStarts(i.value);
    assert (Text(i.value) + tail)[0] == Text(i.value)[0];
    SkipBlank(i.before, Text(i.value) + tail);
  }

  lemma ItemsSplit(items: seq<Item>, rest: string)
    requires items != []
    ensures var i := items[0];
      ItemsText(items) + ("]" + rest) == i.before + (Text(i.value) + (i.after + ItemsTail(items, rest)))
  {
    hide Text;
    var i := items[0];
    var end := "]" + rest;
    ItemThen(i, ItemsTail(items, rest));
    if |items| > 1 {
      Assoc(ItemText(i), "," + ItemsText(items[1..]), end);
      Assoc(",", ItemsText(items[1..]), end);
    }
  }

  lemma ItemThen(i: Item, tail: string)
    ensures ItemText(i) + tail == i.before + (Text(i.value) + (i.after + tail))
  {
    hide Text;
    Assoc(i.before, Text(i.value) + i.after, tail);
    Assoc(Text(i.value), i.after, tail);
  }

  lemma {:induction false} ItemsRead(items: seq<Item>, rest: string, acc: seq<J>)
    requires items != [] && SoundItems(PlainItems(items)) && ItemsBlank(items)
    ensures Elements(SkipSpace(ItemsText(items) + ("]" + rest)), acc)
         == Ok(Parsed(Arr(acc + DenoteItems(PlainItems(items))), rest))
    decreases items, 1
  {
    hide Text, Value, SkipSpace, Sound, Blank, ItemsText, Blanks, Denote, Elements;
    var i, tail := items[0], ItemsTail(items, rest);
    ItemsSplit(items, rest);
    TextStarts(i.value);
    assert (Text(i.value) + (i.after + tail))[0] == Text(i.value)[0];
    SkipBlank(i.before, Text(i.value) + (i.after + tail));
    assert PlainItems(items)[0] == Plain(i.value) && PlainItems(items)[1..] == PlainItems(items[1..]);
    assert At(tail, ',') || At(tail, ']') by { Head(',', ""); }
    BlankStops(i.after, tail);
    SpacedValue(i.value, i.after + tail);
    SkipBlank(i.after, tail);
    ElementRead(Text(i.value) + (i.after + tail), Denote(Plain(i.value)), i.after + tail, tail, acc);
    var more := acc + [Denote(Plain(i.value))];
    if |items| == 1 {
      assert tail[1..] == rest && items[1..] == [];
      assert DenoteItems(PlainItems(items)) == [Denote(Plain(i.value))];
    } else {
      assert tail[1..] == ItemsText(items[1..]) + ("]" + rest);
      ItemsRead(items[1..], rest, more);
      assert more + DenoteItems(PlainItems(items[1..])) == acc + DenoteItems(PlainItems(items));
    }
  }

  lemma ElementRead(s: string, v: J, after: string, t: string, acc: seq<J>)
    requires Value(s) == Ok(Parsed(v, after)) && SkipSpace(after) == t && (At(t, ',') || At(t, ']'))
    ensures Elements(s, acc) ==
      if At(t, ']') then Ok(Parsed(Arr(acc + [v]), t[1..])) else Elements(SkipSpace(t[1..]), acc + [v])
  {
    hide Value, SkipSpace;
  }

  // ---------- records ----------

  function FieldsTail(fields: seq<Field>, rest: string): string
    requires fields != []
  {
    if |fields| == 1 then "}" + rest else "," + (FieldsText(fields[1..]) + ("}" + rest))
  }

  /** A field without the space before it. */
  function FieldBody(f: Field, tail: string): string {
    Quoted(f.name) + (f.middle + (":" + (f.item.before + (Text(f.item.value) + (f.item.after + tail)))))
  }

  lemma FieldsSplit(fields: seq<Field>, rest: string)
    requires fields != []
    ensures FieldsText(fields) + ("}" + rest) == fields[0].before + FieldBody(fields[0], FieldsTail(fields, rest))
  {
    hide Text, Quoted;
    var f := fields[0];
    FieldThen(f, if |fields| == 1 then "}" + rest else "," + (FieldsText(fields[1..]) + ("}" + rest)));
    if |fields| > 1 {
      Assoc(FieldText(f), "," + FieldsText(fields[1..]), "}" + rest);
      Assoc(",", FieldsText(fields[1..]), "}" + rest);
    }
  }

  lemma FieldThen(f: Field, tail: string)
    ensures FieldText(f) + tail == f.before + FieldBody(f, tail)
  {
    hide Text, Quoted;
    var q, m, b, v, a := Quoted(f.name), f.middle, f.item.before, Text(f.item.value), f.item.after;
    Assoc(f.before, q + (m + (":" + (b + (v + a)))), tail);
    Assoc(q, m + (":" + (b + (v + a))), tail);
    Assoc(m, ":" + (b + (v + a)), tail);
    Assoc(":", b + (v + a), tail);
    Assoc(b, v + a, tail);
    Assoc(v, a, tail);
  }

  lemma BodyStarts(f: Field, tail: string)
    ensures FieldBody(f, tail) != [] && FieldBody(f, tail)[0] == '"'
  {
    hide Escaped, Text;
  }

  lemma {:induction false} RecordRead(fields: seq<Field>, rest: string)
    requires fields != [] && SoundMembers(PlainFields(fields)) && FieldsBlank(fields)
    ensures Object(FieldsText(fields) + ("}" + rest)) == Ok(Parsed(Obj(DenoteMembers(PlainFields(fields))), rest))
    decreases fields, 3
  {
    hide Members, SkipSpace, FieldBody, DenoteMembers, FieldsText;
    FieldsSplit(fields, rest);
    BodyStarts(fields[0], FieldsTail(fields, rest));
    SkipBlank(fields[0].before, FieldBody(fields[0], FieldsTail(fields, rest)));
    FieldsRead(fields, rest, map[]);
    assert map[] + DenoteMembers(PlainFields(fields)) == DenoteMembers(PlainFields(fields));
  }

  lemma FieldRead(f: Field, tail: string)
    requires Sound(Plain(f.item.value)) && Blank(f.middle) && ItemBlank(f.item) && (At(tail, ',') || At(tail, '}'))
    ensures NamedValue(FieldBody(f, tail)) ==
      Ok(Parsed((f.name, Denote(Plain(f.item.value))), f.item.after + tail))
    decreases f, 2
  {
    hide Text, Quoted, StringLiteral, Value, SkipSpace, Sound, Denote, Blank, Blanks;
    var i := f.item;
    var value := Text(i.value) + (i.after + tail);
    var colon := ":" + (i.before + value);
    StringUndone(f.name, f.middle + colon);
    Head(':', i.before + value);
    SkipBlank(f.middle, colon);
    TextStarts(i.value);
    assert value[0] == Text(i.value)[0];
    BlankStops(i.after, tail);
    SpacedValue(i.value, i.after + tail);
    LeadingBlank(i.before, value);
  }

  lemma LeadingBlank(w: string, s: string)
    requires Blank(w) && NoSpaceAt(s)
    ensures Value(w + s) == Value(s)
  {
    SkipBlank(w, s);
    assert SkipSpace(s) == s;
  }

  lemma {:induction false} FieldsRead(fields: seq<Field>, rest: string, acc: map<string, J>)
    requires fields != [] && SoundMembers(PlainFields(fields)) && FieldsBlank(fields)
    requires NewNames(PlainFields(fields), acc)
    ensures Members(SkipSpace(FieldsText(fields) + ("}" + rest)), acc)
         == Ok(Parsed(Obj(acc + DenoteMembers(PlainFields(fields))), rest))
    decreases fields, 1
  {
    hide Text, SkipSpace, Sound, Blank, FieldsText, FieldBody, Denote, Members, ItemBlank;
    var f, tail := fields[0], FieldsTail(fields, rest);
    var ms := PlainFields(fields);
    var v := Denote(ms[0].value);
    assert ms[0] == Member(f.name, Plain(f.item.value)) && ms[1..] == PlainFields(fields[1..]);
    FieldsSplit(fields, rest);
    BodyStarts(f, tail);
    SkipBlank(f.before, FieldBody(f, tail));
    assert At(tail, ',') || At(tail, '}') by { Head(',', ""); }
    FieldRead(f, tail);
    AfterBlank(f.item, tail);
    MemberStep(FieldBody(f, tail), f.name, v, f.item.after + tail, tail, acc);
    var more := acc[f.name := v];
    if |fields| == 1 {
      assert tail[1..] == rest && fields[1..] == [];
      assert acc + DenoteMembers(ms) == more;
    } else {
      assert tail[1..] == FieldsText(fields[1..]) + ("}" + rest);
      assert NewNames(ms[1..], more);
      FieldsRead(fields[1..], rest, more);
      NamesApart(ms[1..], f.name);
      assert more + DenoteMembers(ms[1..]) == acc + DenoteMembers(ms);
    }
  }

  lemma AfterBlank(i: Item, tail: string)
    requires ItemBlank(i) && (At(tail, ',') || At(tail, '}'))
    ensures SkipSpace(i.after + tail) == tail
  {
    SkipBlank(i.after, tail);
  }

  lemma MemberStep(s: string, name: string, v: J, after: string, t: string, acc: map<string, J>)
    requires NamedValue(s) == Ok(Parsed((name, v), after)) && name !in acc
    requires SkipSpace(after) == t && (At(t, ',') || At(t, '}'))
    ensures Members(s, acc) ==
      if At(t, '}') then Ok(Parsed(Obj(acc[name := v]), t[1..])) else Members(SkipSpace(t[1..]), acc[name := v])
  {
    hide NamedValue, SkipSpace;
  }

  /** A document printed with any space around its tokens parses to the value it denotes. */
  lemma ParseSpaced(lead: string, d: Spaced, trail: string)
    requires Sound(Plain(d)) && Blanks(d) && Blank(lead) && Blank(trail)
    ensures Parse(lead + (Text(d) + trail)) == Ok(Denote(Plain(d)))
  {
    hide Text, Value, Sound, Denote;
    TextStarts(d);
    assert (Text(d) + trail)[0] == Text(d)[0];
    SkipBlank(lead, Text(d) + trail);
    if trail != [] { assert trail[0] as int in {9, 10, 11, 12, 13, 32}; }
    SpacedValue(d, trail);
    SkipBlank(trail, "");
    assert trail + "" == trail;
  }
}
