/** The recursive-descent parser: a cursor moving over the text. */
module JsonParser {
  import opened Base
  import opened Decimal
  import opened Json

  class Parser {
    const t: string
    var p: nat

    constructor (text: string)
      ensures t == text && p == 0
    {
      t := text;
      p := 0;
    }

    ghost predicate Valid()
      reads this
    {
      p <= |t|
    }

    /** The text still to be read. */
    ghost function Rest(): string
      reads this
      requires Valid()
    {
      t[p..]
    }

    /** The outcome is the grammar's, and on success the cursor is where the grammar stopped. */
    ghost predicate Follows<T>(spec: Result<Parsed<T>, Problem>, r: Result<T, Problem>)
      reads this
    {
      Valid() && match spec
        case Ok(x) => r == Ok(x.v) && Rest() == x.rest
        case Err(e) => r == Err(e)
    }

    ghost predicate FollowsText(spec: Result<string, Problem>, r: Result<(), Problem>)
      reads this
    {
      Valid() && match spec
        case Ok(rest) => r == Ok(()) && Rest() == rest
        case Err(e) => r == Err(e)
    }

    predicate Peeks(c: char)
      reads this
      requires Valid()
      ensures Peeks(c) == At(Rest(), c)
    {
      p < |t| && t[p] == c
    }

    method SkipWhite()
      requires Valid()
      modifies this
      ensures Valid() && Rest() == SkipSpace(old(Rest())) && p >= old(p)
    {
      while p < |t| && IsSpace(t[p])
        invariant Valid() && p >= old(p)
        invariant SkipSpace(Rest()) == SkipSpace(old(Rest()))
        decreases |t| - p
      {
        assert t[p..][1..] == t[p + 1..];
        p := p + 1;
      }
    }

    method ExpectChar(c: char) returns (r: Result<(), Problem>)
      requires Valid()
      modifies this
      ensures FollowsText(Expect(old(Rest()), c), r) && p >= old(p)
      ensures r.Ok? ==> p == old(p) + 1
    {
      if p >= |t| { return Err(UnexpectedEof); }
      assert t[p..][1..] == t[p + 1..];
      p := p + 1;
      if t[p - 1] != c { return Err(Expected(c)); }
      r := Ok(());
    }

    method Lit(word: string) returns (r: Result<(), Problem>)
      requires Valid()
      modifies this
      ensures FollowsText(Literal(old(Rest()), word), r) && p >= old(p)
    {
      assert word[0..] == word;
      for i := 0 to |word|
        invariant Valid() && p >= old(p)
        invariant Literal(Rest(), word[i..]) == Literal(old(Rest()), word)
      {
        assert word[i..][1..] == word[i + 1..];
        if p >= |t| { return Err(UnexpectedEof); }
        assert t[p..][1..] == t[p + 1..];
        p := p + 1;
        if t[p - 1] != word[i] { return Err(InvalidLiteral); }
      }
      assert word[|word|..] == "";
      r := Ok(());
    }

    static lemma HexStep(s: string, n: nat, cp: nat)
      requires n > 0
      ensures Hex(s, n, cp) ==
        if s == [] then Err(UnexpectedEof)
        else match HexValue(s[0])
          case None => Err(InvalidUnicodeEscape)
          case Some(d) => Hex(s[1..], n - 1, cp * 16 + d)
    {
      hide HexValue;
    }

    static lemma HexEnd(s: string, cp: nat)
      ensures Hex(s, 0, cp) == Ok(Parsed(cp, s))
    {
    }

    method HexDigits() returns (r: Result<nat, Problem>)
      requires Valid()
      modifies this
      ensures Follows(Hex(old(Rest()), 4, 0), r) && p >= old(p)
    {
      hide Hex, HexValue;
      var cp: nat := 0;
      for i := 0 to 4
        invariant Valid() && p >= old(p)
        invariant Hex(Rest(), 4 - i, cp) == Hex(old(Rest()), 4, 0)
      {
        HexStep(Rest(), 4 - i, cp);
        if p >= |t| { return Err(UnexpectedEof); }
        assert t[p..][1..] == t[p + 1..];
        p := p + 1;
        match HexValue(t[p - 1]) {
          case Some(d) => cp := cp * 16 + d;
          case None => return Err(InvalidUnicodeEscape);
        }
      }
      HexEnd(Rest(), cp);
      r := Ok(cp);
    }

    method EscapeSequence() returns (r: Result<char, Problem>)
      requires Valid()
      modifies this
      ensures Follows(Escape(old(Rest())), r) && p >= old(p)
    {
      if p >= |t| { return Err(UnexpectedEof); }
      assert t[p..][1..] == t[p + 1..];
      p := p + 1;
      match t[p - 1] {
        case '"' => r := Ok('"');
        case '\\' => r := Ok('\\');
        case '/' => r := Ok('/');
        case 'b' => r := Ok(8 as char);
        case 'f' => r := Ok(12 as char);
        case 'n' => r := Ok('\n');
        case 'r' => r := Ok('\r');
        case 't' => r := Ok('\t');
        case 'u' =>
          var cp := HexDigits();
          r := match cp
            case Ok(n) => Ok(if n <= 0x7F then n as char else '?')
            case Err(e) => Err(e);
        case _ => r := Err(InvalidEscape);
      }
    }

    method ReadString() returns (r: Result<string, Problem>)
      requires Valid()
      modifies this
      ensures Follows(StringLiteral(old(Rest())), r) && p >= old(p)
      ensures r.Ok? ==> p > old(p)
    {
      hide Escape;
      var open := ExpectChar('"');
      if open.Err? { return Err(open.error); }
      var s := "";
      while true
        invariant Valid() && p > old(p)
        invariant StringBody(Rest(), s) == StringLiteral(old(Rest()))
        decreases |t| - p
      {
        if p >= |t| { return Err(UnexpectedEof); }
        assert t[p..][1..] == t[p + 1..];
        var c := t[p];
        p := p + 1;
        if c == '"' { return Ok(s); }
        if c == '\\' {
          var e := EscapeSequence();
          if e.Err? { return Err(e.error); }
          s := s + [e.value];
        } else {
          s := s + [c];
        }
      }
    }

    /** Moves over a run of digits. */
    method SkipDigits()
      requires Valid()
      modifies this
      ensures Valid() && p == old(p) + DigitRun(old(Rest()))
    {
      while p < |t| && IsDigit(t[p])
        invariant old(p) <= p <= |t|
        invariant p - old(p) + DigitRun(t[p..]) == DigitRun(old(Rest()))
        decreases |t| - p
      {
        assert t[p..][1..] == t[p + 1..];
        p := p + 1;
      }
    }

    /** Moves over a zero or a run of digits. */
    method SkipNumeral() returns (ok: bool)
      requires Valid()
      modifies this
      ensures Valid() && p >= old(p) && ok == (old(Rest()) != [] && IsDigit(old(Rest())[0]))
      ensures ok ==> p == old(p) + if old(Rest())[0] == '0' then 1 else DigitRun(old(Rest()))
    {
      hide DigitRun;
      ok := true;
      if Peeks('0') {
        p := p + 1;
      } else if p < |t| && IsDigit(t[p]) {
        SkipDigits();
      } else {
        ok := false;
      }
    }

    method ReadNumber() returns (r: Result<J, Problem>)
      requires Valid()
      modifies this
      ensures Follows(Number(old(Rest())), r) && p >= old(p)
    {
      hide NatValue, DigitRun;
      var start := p;
      if Peeks('-') { p := p + 1; }
      var from := p;
      ghost var d := t[from..];
      assert d == if At(t[start..], '-') then t[start..][1..] else t[start..];
      var ok := SkipNumeral();
      if !ok { return Err(InvalidNumber); }
      assert d[p - from..] == t[p..] && d[..p - from] == t[from..p];
      if Peeks('.') || Peeks('e') || Peeks('E') { return Err(OnlyInteger); }
      r := ToInteger(start < from, t[from..p]);
    }

    /** The 64-bit integer a numeral denotes. */
    static function ToInteger(neg: bool, digits: string): Result<J, Problem>
      requires AllDigits(digits)
    {
      var n: int := NatValue(digits);
      var i := if neg then -n else n;
      if INT64_MIN <= i <= INT64_MAX then Ok(Int(i)) else Err(InvalidInteger)
    }

    method ReadValue() returns (r: Result<J, Problem>)
      requires Valid()
      modifies this
      ensures Follows(Value(old(Rest())), r) && p >= old(p)
      decreases |t| - p, 2
    {
      hide Literal, StringLiteral, Number, Object, Array, SkipSpace;
      SkipWhite();
      if Peeks('{') { r := ReadObject(); }
      else if Peeks('[') { r := ReadArray(); }
      else if Peeks('"') {
        var s := ReadString();
        r := match s case Ok(x) => Ok(Str(x)) case Err(e) => Err(e);
      } else if Peeks('t') {
        var w := Lit("true");
        r := match w case Ok(_) => Ok(Bool(true)) case Err(e) => Err(e);
      } else if Peeks('f') {
        var w := Lit("false");
        r := match w case Ok(_) => Ok(Bool(false)) case Err(e) => Err(e);
      } else if Peeks('n') {
        var w := Lit("null");
        r := match w case Ok(_) => Ok(Null) case Err(e) => Err(e);
      } else if Peeks('-') || (p < |t| && IsDigit(t[p])) {
        r := ReadNumber();
      } else {
        r := Err(UnexpectedToken);
      }
    }

    /** What follows an entry: the closing character, or a comma before the next entry. */
    static ghost function Separator(s: string, close: char): Result<Parsed<bool>, Problem> {
      var t := SkipSpace(s);
      if t == [] then Err(UnexpectedEof)
      else if t[0] == close then Ok(Parsed(true, t[1..]))
      else if t[0] != ',' then Err(ExpectedCommaOr(close))
      else Ok(Parsed(false, SkipSpace(t[1..])))
    }

    /** Reads past it and tells whether it was the closing one. */
    method ReadSeparator(close: char) returns (r: Result<bool, Problem>)
      requires Valid()
      modifies this
      ensures Follows(Separator(old(Rest()), close), r) && p >= old(p)
    {
      hide SkipSpace;
      SkipWhite();
      if p >= |t| { return Err(UnexpectedEof); }
      assert t[p..][1..] == t[p + 1..];
      var c := t[p];
      p := p + 1;
      if c == close { return Ok(true); }
      if c != ',' { return Err(ExpectedCommaOr(close)); }
      SkipWhite();
      r := Ok(false);
    }

    method ReadObject() returns (r: Result<J, Problem>)
      requires Valid() && At(Rest(), '{')
      modifies this
      ensures Follows(Object(old(Rest())[1..]), r) && p >= old(p)
      decreases |t| - p, 1
    {
      hide NamedValue, SkipSpace;
      var start := ExpectChar('{');
      assert Rest() == old(Rest())[1..];
      SkipWhite();
      if Peeks('}') {
        assert t[p..][1..] == t[p + 1..];
        p := p + 1;
        return Ok(Obj(map[]));
      }
      var o: map<string, J> := map[];
      while true
        invariant Valid() && p > old(p)
        invariant Members(Rest(), o) == Object(old(Rest())[1..])
        decreases |t| - p
      {
        var m := ReadMember();
        if m.Err? { return Err(m.error); }
        if m.value.0 in o { return Err(DuplicateKey); }
        o := o[m.value.0 := m.value.1];
        var end := ReadSeparator('}');
        if end.Err? { return Err(end.error); }
        if end.value { return Ok(Obj(o)); }
      }
    }

    method ReadMember() returns (r: Result<(string, J), Problem>)
      requires Valid()
      modifies this
      ensures Follows(NamedValue(old(Rest())), r) && p >= old(p)
      ensures r.Ok? ==> p > old(p)
      decreases |t| - p, 0
    {
      hide Value, StringLiteral, SkipSpace;
      var key := ReadString();
      if key.Err? { return Err(key.error); }
      SkipWhite();
      var colon := ExpectChar(':');
      if colon.Err? { return Err(colon.error); }
      var val := ReadValue();
      r := match val case Ok(v) => Ok((key.value, v)) case Err(e) => Err(e);
    }

    method ReadArray() returns (r: Result<J, Problem>)
      requires Valid() && At(Rest(), '[')
      modifies this
      ensures Follows(Array(old(Rest())[1..]), r) && p >= old(p)
      decreases |t| - p, 1
    {
      hide Value, SkipSpace;
      var start := ExpectChar('[');
      assert Rest() == old(Rest())[1..];
      SkipWhite();
      if Peeks(']') {
        assert t[p..][1..] == t[p + 1..];
        p := p + 1;
        return Ok(Arr([]));
      }
      var a: seq<J> := [];
      while true
        invariant Valid() && p > old(p)
        invariant Elements(Rest(), a) == Array(old(Rest())[1..])
        decreases |t| - p
      {
        var val := ReadValue();
        if val.Err? { return Err(val.error); }
        a := a + [val.value];
        var end := ReadSeparator(']');
        if end.Err? { return Err(end.error); }
        if end.value { return Ok(Arr(a)); }
      }
    }

    method ParseAll() returns (r: Result<J, Problem>)
      requires p == 0
      modifies this
      ensures r == Parse(t)
    {
      hide Value, SkipSpace;
      assert t[0..] == t;
      SkipWhite();
      var v := ReadValue();
      if v.Err? { return v; }
      SkipWhite();
      r := if p != |t| then Err(TrailingCharacters) else v;
    }
  }
}
