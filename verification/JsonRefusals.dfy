/** What the parser refuses: numbers out of range, repeated names, text behind the value, broken literals. */
module JsonRefusals {
  import opened Base
  import opened Decimal
  import opened Json
  import opened JsonRoundTrip
  import opened JsonSpacing

  lemma {:induction false} BlankExact(s: string)
    ensures SkipSpace(s) == [] <==> Blank(s)
  {
    if s != [] {
      BlankExact(s[1..]);
      assert IsSpace(s[0]) <==> s[0] as int in {9, 10, 11, 12, 13, 32};
      if Blank(s[1..]) && IsSpace(s[0]) {
        forall i | 0 <= i < |s| ensures s[i] as int in {9, 10, 11, 12, 13, 32} {
          if i > 0 { assert s[i] == s[1..][i - 1]; }
        }
      } else if !IsSpace(s[0]) {
        assert s[0] as int !in {9, 10, 11, 12, 13, 32};
      }
    }
  }

  /** Behind a document nothing but blanks may follow. */
  lemma TrailingRefused(d: Doc, rest: string)
    requires Sound(d) && Stops(rest)
    ensures Parse(Render(d) + rest) == if Blank(rest) then Ok(Denote(d)) else Err(TrailingCharacters)
  {
    hide Value, Render, Sound, Denote, Blank;
    RenderStarts(d);
    assert (Render(d) + rest)[0] == Render(d)[0];
    ValueUndone(d, rest);
    BlankExact(rest);
  }

  // ---------- numbers ----------

  lemma NumberOutOfRange(i: int, rest: string)
    requires !(INT64_MIN <= i <= INT64_MAX) && Stops(rest)
    ensures Number(IntText(i) + rest) == Err(InvalidInteger)
  {
    hide NatValue, DigitRun, NatText, AllDigits;
    var n := if i < 0 then -i else i;
    var s, d := IntText(i) + rest, NatText(n) + rest;
    NatTextDenotes(n);
    DigitsUndone(n, rest);
    if i < 0 {
      assert s == "-" + d;
      Halves("-", d);
    }
  }

  /** A numeral that goes on with a fraction or an exponent is refused. */
  lemma FractionRefused(n: nat, c: char, rest: string)
    requires c == '.' || c == 'e' || c == 'E'
    ensures Number(NatText(n) + ([c] + rest)) == Err(OnlyInteger)
  {
    hide NatValue, DigitRun, NatText;
    NatTextDenotes(n);
    var t := NatText(n);
    var d := t + ([c] + rest);
    RunOfDigits(t, [c] + rest);
    assert d[0] == t[0];
    if t[0] == '0' { ZeroText(n); }
    assert d[|t|..] == [c] + rest;
  }

  // ---------- escapes ----------

  /** A hexadecimal digit, in either case. */
  predicate IsHex(h: char, d: nat) {
    d < 16 && (h == "0123456789abcdef"[d] || h == "0123456789ABCDEF"[d])
  }

  lemma HexRead(h: char, d: nat)
    requires IsHex(h, d)
    ensures HexValue(h) == Some(d)
  {
  }

  /** Four hexadecimal digits name a character up to 127; any other one is read as a question mark. */
  lemma UnicodeRead(h: string, a: nat, b: nat, c: nat, d: nat, rest: string)
    requires |h| == 4 && IsHex(h[0], a) && IsHex(h[1], b) && IsHex(h[2], c) && IsHex(h[3], d)
    ensures var n: nat := ((a * 16 + b) * 16 + c) * 16 + d;
      Escape("u" + (h + rest)) == Ok(Parsed(if n <= 127 then n as char else '?', rest))
  {
    hide HexValue, IsHex;
    var n: nat := ((a * 16 + b) * 16 + c) * 16 + d;
    HexRead(h[0], a);
    HexRead(h[1], b);
    HexRead(h[2], c);
    HexRead(h[3], d);
    var s := h + rest;
    Head('u', s);
    HexOne(s, 3, 0, a);
    HexOne(s[1..], 2, a, b);
    HexOne(s[2..], 1, a * 16 + b, c);
    HexOne(s[3..], 0, (a * 16 + b) * 16 + c, d);
    assert s[1..][1..] == s[2..] && s[2..][1..] == s[3..] && s[3..][1..] == s[4..] == rest;
    assert Hex(rest, 0, n) == Ok(Parsed(n, rest));
  }

  lemma HexOne(s: string, n: nat, cp: nat, d: nat)
    requires s != [] && HexValue(s[0]) == Some(d)
    ensures Hex(s, n + 1, cp) == Hex(s[1..], n, cp * 16 + d)
  {
  }

  /** A character that starts no escape is refused. */
  lemma EscapeRefused(c: char, rest: string)
    requires c !in "\"\\/bfnrtu"
    ensures Escape([c] + rest) == Err(InvalidEscape)
  {
    Head(c, rest);
  }

  // ---------- documents ----------

  /** Reading a document that is not sound fails. */
  lemma {:induction false} ValueFails(d: Doc, rest: string)
    requires !Sound(d) && Stops(rest)
    ensures Value(Render(d) + rest).Err?
    decreases d, 0
  {
    hide Object, Array, StringLiteral, Literal, Number, RenderItems, RenderMembers, IntText, Escaped;
    var s := Render(d) + rest;
    RenderStarts(d);
    assert SkipSpace(s) == s;
    match d
    case DInt(i) => NumberOutOfRange(i, rest);
    case DArr(items) =>
      assert s[1..] == RenderItems(items) + "]" + rest;
      ArrayFails(items, rest);
    case DObj(members) =>
      assert s[1..] == RenderMembers(members) + "}" + rest;
      ObjectFails(members, rest);
    case _ =>
  }

  lemma {:induction false} ArrayFails(items: seq<Doc>, rest: string)
    requires !SoundItems(items)
    ensures Array(RenderItems(items) + "]" + rest).Err?
    decreases items, 1
  {
    hide Render, Elements;
    var s := RenderItems(items) + "]" + rest;
    RenderStarts(items[0]);
    assert s[0] == Render(items[0])[0];
    ElementsFail(items, rest, []);
  }

  lemma {:induction false} ElementsFail(items: seq<Doc>, rest: string, acc: seq<J>)
    requires !SoundItems(items)
    ensures Elements(RenderItems(items) + "]" + rest, acc).Err?
    decreases items, 0
  {
    hide Render, Value, Denote, Sound, Elements;
    var s := RenderItems(items) + "]" + rest;
    var after := if |items| == 1 then "]" + rest else "," + (RenderItems(items[1..]) + "]" + rest);
    assert s == Render(items[0]) + after;
    if !Sound(items[0]) {
      ValueFails(items[0], after);
      ElementStops(s, acc);
    } else {
      ValueUndone(items[0], after);
      assert |items| > 1;
      var next := RenderItems(items[1..]) + "]" + rest;
      assert after[1..] == next;
      RenderStarts(items[1]);
      assert next[0] == Render(items[1])[0];
      ElementsFail(items[1..], rest, acc + [Denote(items[0])]);
      ElementRead(s, Denote(items[0]), after, after, acc);
    }
  }

  lemma ElementStops(s: string, acc: seq<J>)
    requires Value(s).Err?
    ensures Elements(s, acc).Err?
  {
    hide Value;
  }

  lemma {:induction false} ObjectFails(members: seq<Member>, rest: string)
    requires !SoundMembers(members)
    ensures Object(RenderMembers(members) + "}" + rest).Err?
    decreases members, 1
  {
    hide Render, Members, Escaped;
    MembersStart(members, "}" + rest);
    assert RenderMembers(members) + "}" + rest == RenderMembers(members) + ("}" + rest);
    MembersFail(members, rest, map[]);
  }

  lemma {:induction false} MembersFail(members: seq<Member>, rest: string, acc: map<string, J>)
    requires members != [] && !(SoundMembers(members) && NewNames(members, acc))
    ensures Members(RenderMembers(members) + "}" + rest, acc).Err?
    decreases members, 0
  {
    hide Members, RenderMember, RenderMembers, Sound, Denote, SkipSpace, NamedValue;
    var m, after := members[0], MembersAfter(members, rest);
    MembersSplit(members, rest);
    var s := RenderMember(m) + after;
    assert At(after, '}') || At(after, ',');
    if !Sound(m.value) {
      MemberFails(m, after);
      MemberStops(s, acc);
    } else {
      MemberUndone(m, after);
      if m.name in acc {
        NameStops(s, m.name, acc);
      } else {
        var more := acc[m.name := Denote(m.value)];
        RestUnsound(members, acc, Denote(m.value));
        MembersStart(members[1..], "}" + rest);
        assert RenderMembers(members[1..]) + "}" + rest == RenderMembers(members[1..]) + ("}" + rest);
        MembersFail(members[1..], rest, more);
        MemberRead(m, after, acc);
      }
    }
  }

  lemma RestUnsound(members: seq<Member>, acc: map<string, J>, v: J)
    requires members != [] && !(SoundMembers(members) && NewNames(members, acc))
    requires Sound(members[0].value) && members[0].name !in acc
    ensures members[1..] != []
    ensures !(SoundMembers(members[1..]) && NewNames(members[1..], acc[members[0].name := v]))
  {
    hide Sound;
    var rest, more := members[1..], acc[members[0].name := v];
    if SoundMembers(rest) && NewNames(rest, more) {
      forall i | 1 <= i < |members| ensures members[i].name != members[0].name && members[i].name !in acc {
        assert rest[i - 1] == members[i] && rest[i - 1].name !in more;
      }
    }
  }

  lemma MemberStops(s: string, acc: map<string, J>)
    requires NamedValue(s).Err?
    ensures Members(s, acc).Err?
  {
    hide NamedValue;
  }

  lemma NameStops(s: string, name: string, acc: map<string, J>)
    requires NamedValue(s).Ok? && NamedValue(s).value.v.0 == name && name in acc
    ensures Members(s, acc) == Err(DuplicateKey)
  {
    hide NamedValue;
  }

  lemma MemberFails(m: Member, after: string)
    requires !Sound(m.value) && Stops(after)
    ensures NamedValue(RenderMember(m) + after).Err?
    decreases m, 1
  {
    hide Value, Render, StringLiteral, Quoted;
    var tail := ":" + Render(m.value) + after;
    Regroup4(Quoted(m.name), ":", Render(m.value), after);
    StringUndone(m.name, tail);
    assert SkipSpace(tail) == tail && tail[1..] == Render(m.value) + after;
    ValueFails(m.value, after);
  }

  /** A printed document is accepted exactly when its integers fit and no object repeats a name. */
  lemma ParseExact(d: Doc)
    ensures Parse(Render(d)).Ok? <==> Sound(d)
  {
    hide Value, Render;
    RenderStarts(d);
    assert Render(d) + "" == Render(d);
    if Sound(d) { ParseRender(d); } else { ValueFails(d, ""); }
  }

  /** A name that comes twice is refused as such. */
  lemma DuplicateRefused(name: string, a: Doc, b: Doc)
    requires Sound(a) && Sound(b)
    ensures Parse(Render(DObj([Member(name, a), Member(name, b)]))) == Err(DuplicateKey)
  {
    hide Members, NamedValue, RenderMember, RenderMembers, Sound, Denote, SkipSpace, Render, Quoted;
    var ms := [Member(name, a), Member(name, b)];
    var text := RenderMembers(ms) + "}";
    var later := ms[1..];
    assert later == [Member(name, b)];
    MembersSplit(ms, "");
    MembersSplit(later, "");
    assert RenderMembers(ms) + "}" + "" == text;
    var more: map<string, J> := map[name := Denote(a)];
    MemberUndone(later[0], MembersAfter(later, ""));
    NameStops(RenderMember(later[0]) + MembersAfter(later, ""), name, more);
    MembersStart(later, "}" + "");
    assert RenderMembers(later) + "}" + "" == RenderMembers(later) + ("}" + "");
    MemberRead(ms[0], MembersAfter(ms, ""), map[]);
    assert map[][name := Denote(a)] == more;
    MembersStart(ms, "}");
    var end := "}";
    assert end + "" == end;
    assert Members(RenderMembers(later) + end, more) == Err(DuplicateKey);
    assert Members(RenderMembers(ms) + end, map[]) == Err(DuplicateKey);
    ObjectText(ms);
  }

  lemma ObjectText(ms: seq<Member>)
    requires ms != [] && SkipSpace(RenderMembers(ms) + "}") == RenderMembers(ms) + "}"
    requires At(RenderMembers(ms) + "}", '"') && Members(RenderMembers(ms) + "}", map[]) == Err(DuplicateKey)
    ensures Parse(Render(DObj(ms))) == Err(DuplicateKey)
  {
    hide Members, RenderMembers;
    var s := "{" + (RenderMembers(ms) + "}");
    assert Render(DObj(ms)) == s;
    Head('{', RenderMembers(ms) + "}");
    OpensObject(RenderMembers(ms) + "}");
    assert SkipSpace(s) == s;
  }

  // ---------- words, numerals and escapes, spelled out ----------

  lemma WordsMean()
    ensures Parse("true") == Ok(Bool(true)) && Parse("false") == Ok(Bool(false)) && Parse("null") == Ok(Null)
  {
    hide Value;
    ParseRender(DBool(true));
    ParseRender(DBool(false));
    ParseRender(DNull);
    assert Render(DBool(true)) == "true" && Render(DBool(false)) == "false" && Render(DNull) == "null";
    assert Denote(DBool(true)) == Bool(true) && Denote(DBool(false)) == Bool(false) && Denote(DNull) == Null;
  }

  /** Numerals are decimal: a further digit counts ten times what stands before it. */
  lemma NumeralsAreDecimal(n: int, d: int)
    requires n >= 0 && 0 <= d < 10
    ensures NatText(d) == ["0123456789"[d]]
    ensures n > 0 ==> NatText(10 * n + d) == NatText(n) + NatText(d)
    ensures n > 0 ==> IntText(-n) == "-" + NatText(n)
  {
  }

  /** The characters with an escape of their own, in text and back. */
  lemma EscapesSpelled()
    ensures EscapeChar('"') == "\\\"" && EscapeChar('\\') == "\\\\" && EscapeChar('\n') == "\\n"
    ensures EscapeChar('\r') == "\\r" && EscapeChar('\t') == "\\t"
    ensures EscapeChar(8 as char) == "\\b" && EscapeChar(12 as char) == "\\f"
    ensures EscapeChar(1 as char) == "\\u0001" && EscapeChar(31 as char) == "\\u001f"
    ensures forall c :: c as int >= 32 && c != '"' && c != '\\' ==> EscapeChar(c) == [c]
  {
    assert HexDigit(0) == '0' && HexDigit(1) == '1' && HexDigit(15) == 'f';
  }

  /** A slash needs no escape, but may have one. */
  lemma SlashRead(rest: string)
    ensures Escape("/" + rest) == Ok(Parsed('/', rest))
  {
    Head('/', rest);
  }
}
