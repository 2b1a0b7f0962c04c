/** Parsing a rendered document gives back the value it denotes. */
module JsonRoundTrip {
  import opened Base
  import opened Decimal
  import opened Json

  // ---------- strings ----------

  /** The parser undoes the escaping of one character. */
  lemma EscapeUndone(c: char, rest: string, acc: string)
    ensures StringBody(EscapeChar(c) + rest, acc) == StringBody(rest, acc + [c])
  {
    hide Hex;
    var s, e := EscapeChar(c) + rest, EscapeChar(c);
    if |e| == 1 {
      Halves(e, rest);
    } else {
      EscapeRead(c, rest);
      assert s[1..] == e[1..] + rest;
    }
  }

  lemma EscapeRead(c: char, rest: string)
    requires |EscapeChar(c)| > 1
    ensures EscapeChar(c)[0] == '\\' && Escape(EscapeChar(c)[1..] + rest) == Ok(Parsed(c, rest))
  {
    hide Hex;
    var e := EscapeChar(c);
    if |e| == 2 {
      assert e[1..] == [e[1]];
      Halves([e[1]], rest);
    } else {
      HexUndone(c, rest);
      assert e[1..] == "u00" + [HexDigit(c as int / 16), HexDigit(c as int % 16)];
    }
  }

  lemma HexUndone(c: char, rest: string)
    requires c as int < 0x20
    ensures Escape("u00" + [HexDigit(c as int / 16), HexDigit(c as int % 16)] + rest) == Ok(Parsed(c, rest))
  {
    var hi, lo := c as int / 16, c as int % 16;
    var n: nat := c as int;
    var t := [HexDigit(hi), HexDigit(lo)] + rest;
    var s := "u00" + [HexDigit(hi), HexDigit(lo)] + rest;
    assert s[1..] == ['0', '0'] + t;
    assert (['0', '0'] + t)[1..] == ['0'] + t;
    assert (['0'] + t)[1..] == t;
    assert t[1..] == [HexDigit(lo)] + rest;
    assert t[1..][1..] == rest;
    assert Hex(rest, 0, n) == Ok(Parsed(n, rest));
    assert HexValue(HexDigit(lo)) == Some(lo) && HexValue(HexDigit(hi)) == Some(hi);
    assert Hex([HexDigit(lo)] + rest, 1, hi) == Ok(Parsed(n, rest));
    assert Hex(t, 2, 0) == Ok(Parsed(n, rest));
    assert Hex(['0'] + t, 3, 0) == Ok(Parsed(n, rest));
    assert Hex(['0', '0'] + t, 4, 0) == Ok(Parsed(n, rest));
  }

  lemma QuoteEnds(rest: string, acc: string)
    ensures StringBody("\"" + rest, acc) == Ok(Parsed(acc, rest))
  {
    Halves("\"", rest);
  }

  lemma {:induction false} BodyUndone(s: string, rest: string, acc: string)
    ensures StringBody(Escaped(s) + "\"" + rest, acc) == Ok(Parsed(acc + s, rest))
    decreases |s|
  {
    hide StringBody, EscapeChar;
    if s == [] {
      QuoteEnds(rest, acc);
      assert "" + "\"" == "\"" && acc + s == acc;
    } else {
      Regroup4(EscapeChar(s[0]), Escaped(s[1..]), "\"", rest);
      EscapeUndone(s[0], Escaped(s[1..]) + "\"" + rest, acc);
      BodyUndone(s[1..], rest, acc + [s[0]]);
      assert acc + [s[0]] + s[1..] == acc + s;
    }
  }

  /** A string literal reads back as the string, for every string. */
  lemma StringUndone(s: string, rest: string)
    ensures StringLiteral(Quoted(s) + rest) == Ok(Parsed(s, rest))
  {
    hide StringBody, Escaped;
    var t := Quoted(s) + rest;
    assert t[1..] == Escaped(s) + "\"" + rest;
    BodyUndone(s, rest, "");
    assert "" + s == s;
  }

  // ---------- numbers ----------

  /** The text does not continue a number. */
  predicate Stops(s: string) {
    s != [] ==> !IsDigit(s[0]) && s[0] != '.' && s[0] != 'e' && s[0] != 'E'
  }

  lemma {:induction false} RunOfDigits(d: string, rest: string)
    requires AllDigits(d) && (rest != [] ==> !IsDigit(rest[0]))
    ensures DigitRun(d + rest) == |d|
    decreases |d|
  {
    if d == [] {
      assert d + rest == rest;
    } else {
      assert (d + rest)[1..] == d[1..] + rest;
      RunOfDigits(d[1..], rest);
    }
  }

  lemma NumberUndone(i: int, rest: string)
    requires INT64_MIN <= i <= INT64_MAX && Stops(rest)
    ensures Number(IntText(i) + rest) == Ok(Parsed(Int(i), rest))
  {
    hide NatValue, DigitRun, NatText, AllDigits;
    var n := if i < 0 then -i else i;
    var s, d := IntText(i) + rest, NatText(n) + rest;
    NatTextDenotes(n);
    DigitsUndone(n, rest);
    if i < 0 {
      assert s == "-" + d;
      Halves("-", d);
    }
  }

  lemma DigitsUndone(n: nat, rest: string)
    requires Stops(rest)
    ensures var d := NatText(n) + rest;
      IsDigit(d[0]) && (if d[0] == '0' then 1 else DigitRun(d)) == |NatText(n)|
      && d[..|NatText(n)|] == NatText(n) && d[|NatText(n)|..] == rest
  {
    hide DigitRun, NatText, NatValue;
    NatTextDenotes(n);
    RunOfDigits(NatText(n), rest);
    Halves(NatText(n), rest);
    if NatText(n)[0] == '0' { ZeroText(n); }
  }

  lemma ZeroText(n: nat)
    requires NatText(n) != [] && NatText(n)[0] == '0'
    ensures n == 0 && |NatText(n)| == 1
  {
    NatTextDenotes(n);
  }

  // ---------- values ----------

  /** No text of a document starts with space, a closing bracket or a closing brace. */
  lemma RenderStarts(d: Doc)
    ensures Render(d) != []
    ensures !IsSpace(Render(d)[0]) && Render(d)[0] != ']' && Render(d)[0] != '}'
    ensures d.DInt? ==> Render(d)[0] == '-' || IsDigit(Render(d)[0])
  {
    if d.DInt? { NatTextDenotes(if d.i < 0 then -d.i else d.i); }
  }

  lemma WordUndone(word: string, rest: string)
    ensures Literal(word + rest, word) == Ok(rest)
    decreases |word|
  {
    if word == [] {
      assert word + rest == rest;
    } else {
      assert (word + rest)[1..] == word[1..] + rest;
      WordUndone(word[1..], rest);
    }
  }

  /** Reading a rendered document gives its value and stops right after it. */
  lemma {:induction false} ValueUndone(d: Doc, rest: string)
    requires Sound(d) && Stops(rest)
    ensures Value(Render(d) + rest) == Ok(Parsed(Denote(d), rest))
    decreases d, 0
  {
    hide Object, Array, StringLiteral, Literal, Number, RenderItems, RenderMembers, IntText, Escaped;
    var s := Render(d) + rest;
    RenderStarts(d);
    assert SkipSpace(s) == s;
    match d
    case DNull => WordUndone("null", rest);
    case DBool(b) => WordUndone(if b then "true" else "false", rest);
    case DInt(i) => NumberUndone(i, rest);
    case DStr(t) => StringUndone(t, rest);
    case DArr(items) =>
      assert s[1..] == RenderItems(items) + "]" + rest;
      ArrayUndone(items, rest);
    case DObj(members) =>
      assert s[1..] == RenderMembers(members) + "}" + rest;
      ObjectUndone(members, rest);
  }

  lemma {:induction false} ArrayUndone(items: seq<Doc>, rest: string)
    requires SoundItems(items)
    ensures Array(RenderItems(items) + "]" + rest) == Ok(Parsed(Arr(DenoteItems(items)), rest))
    decreases items, 1
  {
    hide Render, Elements;
    var s := RenderItems(items) + "]" + rest;
    if items == [] {
      assert RenderItems(items) == "" && DenoteItems(items) == [];
      assert s == "]" + rest;
      assert s[0] == ']';
      assert s[1..] == rest;
    } else {
      RenderStarts(items[0]);
      assert s[0] == Render(items[0])[0];
      ElementsUndone(items, rest, []);
      assert [] + DenoteItems(items) == DenoteItems(items);
    }
  }

  lemma {:induction false} ElementsUndone(items: seq<Doc>, rest: string, acc: seq<J>)
    requires SoundItems(items) && items != []
    ensures Elements(RenderItems(items) + "]" + rest, acc) == Ok(Parsed(Arr(acc + DenoteItems(items)), rest))
    decreases items, 0
  {
    hide Render, Value, Denote, Sound;
    var s := RenderItems(items) + "]" + rest;
    if |items| == 1 {
      var after := "]" + rest;
      assert s == Render(items[0]) + after;
      ValueUndone(items[0], after);
      assert after[1..] == rest;
      assert DenoteItems(items) == [Denote(items[0])];
    } else {
      var next := RenderItems(items[1..]) + "]" + rest;
      var after := "," + next;
      assert s == Render(items[0]) + after;
      ValueUndone(items[0], after);
      assert after[1..] == next;
      RenderStarts(items[1]);
      assert next[0] == Render(items[1])[0];
      ElementsUndone(items[1..], rest, acc + [Denote(items[0])]);
      assert acc + [Denote(items[0])] + DenoteItems(items[1..]) == acc + DenoteItems(items);
    }
  }

  lemma {:induction false} ObjectUndone(members: seq<Member>, rest: string)
    requires SoundMembers(members)
    ensures Object(RenderMembers(members) + "}" + rest) == Ok(Parsed(Obj(DenoteMembers(members)), rest))
    decreases members, 1
  {
    hide Render, Members, Escaped;
    var s := RenderMembers(members) + "}" + rest;
    if members == [] {
      assert s == "}" + rest;
      assert s[1..] == rest;
    } else {
      MembersStart(members, "}" + rest);
      assert s == RenderMembers(members) + ("}" + rest);
      MembersUndone(members, rest, map[]);
      assert map[] + DenoteMembers(members) == DenoteMembers(members);
    }
  }

  lemma MembersStart(members: seq<Member>, after: string)
    requires members != []
    ensures SkipSpace(RenderMembers(members) + after) == RenderMembers(members) + after
    ensures At(RenderMembers(members) + after, '"')
  {
    hide Escaped, Render;
    var s := RenderMembers(members);
    assert RenderMember(members[0])[0] == '"';
    assert s[0] == '"';
  }

  /** No member has a name already in the map. */
  ghost predicate NewNames(members: seq<Member>, acc: map<string, J>) {
    forall i :: 0 <= i < |members| ==> members[i].name !in acc
  }

  /** Reading one member leaves the rest of the object to be read. */
  lemma MemberRead(m: Member, after: string, acc: map<string, J>)
    requires Sound(m.value) && m.name !in acc && (At(after, '}') || At(after, ','))
    ensures Members(RenderMember(m) + after, acc) ==
      if At(after, '}') then Ok(Parsed(Obj(acc[m.name := Denote(m.value)]), after[1..]))
      else Members(SkipSpace(after[1..]), acc[m.name := Denote(m.value)])
    decreases m, 2
  {
    hide NamedValue, Denote, Sound, RenderMember;
    MemberUndone(m, after);
    assert SkipSpace(after) == after;
  }

  function MembersAfter(members: seq<Member>, rest: string): string
    requires members != []
  {
    if |members| == 1 then "}" + rest else "," + (RenderMembers(members[1..]) + "}" + rest)
  }

  lemma MembersSplit(members: seq<Member>, rest: string)
    requires members != []
    ensures RenderMembers(members) + "}" + rest == RenderMember(members[0]) + MembersAfter(members, rest)
    ensures MembersAfter(members, rest)[1..] ==
      if |members| == 1 then rest else RenderMembers(members[1..]) + "}" + rest
  {
    hide RenderMember, RenderMembers, MembersAfter;
    AfterIs(members, rest);
    if |members| == 1 {
      OneMember(members);
      Regroup4(RenderMember(members[0]), "}", rest, "");
    } else {
      MoreMembers(members);
      Regroup5(RenderMember(members[0]), ",", RenderMembers(members[1..]), "}", rest);
    }
  }

  lemma AfterIs(members: seq<Member>, rest: string)
    requires members != []
    ensures MembersAfter(members, rest) ==
      if |members| == 1 then "}" + rest else "," + (RenderMembers(members[1..]) + "}" + rest)
    ensures MembersAfter(members, rest)[1..] ==
      if |members| == 1 then rest else RenderMembers(members[1..]) + "}" + rest
  {
    hide RenderMembers;
    Behind('}', rest);
    Behind(',', RenderMembers(members[1..]) + "}" + rest);
  }

  lemma Behind(c: char, s: string)
    ensures ([c] + s)[1..] == s
  {
  }

  lemma OneMember(members: seq<Member>)
    requires |members| == 1
    ensures RenderMembers(members) == RenderMember(members[0])
  {
    hide RenderMember;
  }

  lemma MoreMembers(members: seq<Member>)
    requires |members| > 1
    ensures RenderMembers(members) == RenderMember(members[0]) + "," + RenderMembers(members[1..])
  {
    hide RenderMember;
  }

  lemma {:induction false} MembersUndone(members: seq<Member>, rest: string, acc: map<string, J>)
    requires SoundMembers(members) && members != [] && NewNames(members, acc)
    ensures Members(RenderMembers(members) + "}" + rest, acc) == Ok(Parsed(Obj(acc + DenoteMembers(members)), rest))
    decreases members, 0
  {
    hide Members, RenderMember, RenderMembers, Sound, Denote, SkipSpace;
    var m := members[0];
    var more := acc[m.name := Denote(m.value)];
    MembersSplit(members, rest);
    MemberRead(m, MembersAfter(members, rest), acc);
    if |members| == 1 {
      assert members[1..] == [];
      assert acc + DenoteMembers(members) == more;
    } else {
      MembersStart(members[1..], "}" + rest);
      assert RenderMembers(members[1..]) + "}" + rest == RenderMembers(members[1..]) + ("}" + rest);
      assert NewNames(members[1..], more);
      MembersUndone(members[1..], rest, more);
      NamesApart(members[1..], m.name);
      assert more + DenoteMembers(members[1..]) == acc + DenoteMembers(members);
    }
  }

  lemma {:induction false} NamesApart(members: seq<Member>, name: string)
    requires forall i :: 0 <= i < |members| ==> members[i].name != name
    ensures name !in DenoteMembers(members)
  {
    if members != [] { NamesApart(members[1..], name); }
  }

  lemma MemberUndone(m: Member, after: string)
    requires Sound(m.value) && Stops(after)
    ensures NamedValue(RenderMember(m) + after) == Ok(Parsed((m.name, Denote(m.value)), after))
    decreases m, 1
  {
    hide Value, Render, StringLiteral, Quoted;
    var tail := ":" + Render(m.value) + after;
    Regroup4(Quoted(m.name), ":", Render(m.value), after);
    StringUndone(m.name, tail);
    assert SkipSpace(tail) == tail && tail[1..] == Render(m.value) + after;
    ValueUndone(m.value, after);
  }

  /** The whole text of a document parses to the value it denotes. */
  lemma ParseRender(d: Doc)
    requires Sound(d)
    ensures Parse(Render(d)) == Ok(Denote(d))
  {
    hide Value, Render;
    RenderStarts(d);
    ValueUndone(d, "");
    assert Render(d) + "" == Render(d);
  }
}
