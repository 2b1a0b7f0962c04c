/**
 The JSON subset of execution plans: integers only, no duplicate keys.

 The grammar is given by functions from the remaining text to a value and what follows it.
 */
module Json {
  import opened Base
  import opened Decimal

  datatype J =
    | Null
    | Bool(b: bool)
    | Int(i: int)
    | Str(s: string)
    | Arr(a: seq<J>)
    | Obj(o: map<string, J>)

  datatype Problem =
    | UnexpectedEof
    | Expected(c: char)
    | InvalidLiteral
    | UnexpectedToken
    | DuplicateKey
    | ExpectedCommaOr(c: char)
    | InvalidUnicodeEscape
    | InvalidEscape
    | InvalidNumber
    | OnlyInteger
    | InvalidInteger
    | TrailingCharacters

  datatype Parsed<T> = Parsed(v: T, rest: string)

  const INT64_MIN: int := -0x8000_0000_0000_0000
  const INT64_MAX: int := 0x7fff_ffff_ffff_ffff

  predicate IsSpace(c: char) {
    c == ' ' || 9 <= c as int <= 13
  }

  function SkipSpace(s: string): (r: string)
    ensures |r| <= |s|
  {
    if s != [] && IsSpace(s[0]) then SkipSpace(s[1..]) else s
  }

  predicate At(s: string, c: char) {
    s != [] && s[0] == c
  }

  function Expect(s: string, c: char): (r: Result<string, Problem>)
    ensures r.Ok? ==> |r.value| < |s|
  {
    if s == [] then Err(UnexpectedEof) else if s[0] != c then Err(Expected(c)) else Ok(s[1..])
  }

  /** Reads the characters of `word` one by one. */
  function Literal(s: string, word: string): (r: Result<string, Problem>)
    ensures r.Ok? ==> |r.value| == |s| - |word|
    decreases |word|
  {
    if word == [] then Ok(s)
    else if s == [] then Err(UnexpectedEof)
    else if s[0] != word[0] then Err(InvalidLiteral)
    else Literal(s[1..], word[1..])
  }

  // ---------- strings ----------

  function HexValue(h: char): Option<nat> {
    if '0' <= h <= '9' then Some(h as int - '0' as int)
    else if 'a' <= h <= 'f' then Some(h as int - 'a' as int + 10)
    else if 'A' <= h <= 'F' then Some(h as int - 'A' as int + 10)
    else None
  }

  /** `n` hexadecimal digits after the ones that gave `cp`. */
  function Hex(s: string, n: nat, cp: nat): (r: Result<Parsed<nat>, Problem>)
    ensures r.Ok? ==> |r.value.rest| <= |s|
    decreases n
  {
    if n == 0 then Ok(Parsed(cp, s))
    else if s == [] then Err(UnexpectedEof)
    else match HexValue(s[0])
      case None => Err(InvalidUnicodeEscape)
      case Some(d) => Hex(s[1..], n - 1, cp * 16 + d)
  }

  /** What follows a backslash. */
  function Escape(s: string): (r: Result<Parsed<char>, Problem>)
    ensures r.Ok? ==> |r.value.rest| < |s|
  {
    if s == [] then Err(UnexpectedEof)
    else match s[0]
      case '"' => Ok(Parsed('"', s[1..]))
      case '\\' => Ok(Parsed('\\', s[1..]))
      case '/' => Ok(Parsed('/', s[1..]))
      case 'b' => Ok(Parsed(8 as char, s[1..]))
      case 'f' => Ok(Parsed(12 as char, s[1..]))
      case 'n' => Ok(Parsed('\n', s[1..]))
      case 'r' => Ok(Parsed('\r', s[1..]))
      case 't' => Ok(Parsed('\t', s[1..]))
      case 'u' =>
        var h :- Hex(s[1..], 4, 0);
        Ok(Parsed(if h.v <= 0x7F then h.v as char else '?', h.rest))
      case _ => Err(InvalidEscape)
  }

  /** The characters up to the closing quote, after the ones in `acc`. */
  function StringBody(s: string, acc: string): (r: Result<Parsed<string>, Problem>)
    ensures r.Ok? ==> |r.value.rest| < |s|
    decreases |s|
  {
    if s == [] then Err(UnexpectedEof)
    else if s[0] == '"' then Ok(Parsed(acc, s[1..]))
    else if s[0] == '\\' then
      var e :- Escape(s[1..]);
      StringBody(e.rest, acc + [e.v])
    else StringBody(s[1..], acc + [s[0]])
  }

  function StringLiteral(s: string): (r: Result<Parsed<string>, Problem>)
    ensures r.Ok? ==> |r.value.rest| < |s|
  {
    var body :- Expect(s, '"');
    StringBody(body, "")
  }

  // ---------- numbers ----------

  function DigitRun(s: string): (n: nat)
    ensures n <= |s| && AllDigits(s[..n])
    ensures n < |s| ==> !IsDigit(s[n])
  {
    if s != [] && IsDigit(s[0]) then
      assert s[..1 + DigitRun(s[1..])] == [s[0]] + s[1..][..DigitRun(s[1..])];
      1 + DigitRun(s[1..])
    else 0
  }

  function Number(s: string): (r: Result<Parsed<J>, Problem>)
    ensures r.Ok? ==> |r.value.rest| < |s|
  {
    var neg := At(s, '-');
    var d := if neg then s[1..] else s;
    if d == [] || !IsDigit(d[0]) then Err(InvalidNumber) else
    var k := if d[0] == '0' then 1 else DigitRun(d);
    if At(d[k..], '.') || At(d[k..], 'e') || At(d[k..], 'E') then Err(OnlyInteger) else
    var n: int := NatValue(d[..k]);
    var i := if neg then -n else n;
    if INT64_MIN <= i <= INT64_MAX then Ok(Parsed(Int(i), d[k..])) else Err(InvalidInteger)
  }

  // ---------- values ----------

  function Value(text: string): (r: Result<Parsed<J>, Problem>)
    ensures r.Ok? ==> |r.value.rest| < |text|
    decreases |text|, 2
  {
    var s := SkipSpace(text);
    if s == [] then Err(UnexpectedToken)
    else if s[0] == '{' then Object(s[1..])
    else if s[0] == '[' then Array(s[1..])
    else if s[0] == '"' then
      var r :- StringLiteral(s);
      Ok(Parsed(Str(r.v), r.rest))
    else if s[0] == 't' then
      var rest :- Literal(s, "true");
      Ok(Parsed(Bool(true), rest))
    else if s[0] == 'f' then
      var rest :- Literal(s, "false");
      Ok(Parsed(Bool(false), rest))
    else if s[0] == 'n' then
      var rest :- Literal(s, "null");
      Ok(Parsed(Null, rest))
    else if s[0] == '-' || IsDigit(s[0]) then Number(s)
    else Err(UnexpectedToken)
  }

  /** What follows an opening brace. */
  function Object(text: string): (r: Result<Parsed<J>, Problem>)
    ensures r.Ok? ==> |r.value.rest| < |text|
    decreases |text|, 2
  {
    var s := SkipSpace(text);
    if At(s, '}') then Ok(Parsed(Obj(map[]), s[1..])) else Members(s, map[])
  }

  /** A name, a colon and a value. */
  function NamedValue(s: string): (r: Result<Parsed<(string, J)>, Problem>)
    ensures r.Ok? ==> |r.value.rest| < |s|
    decreases |s|, 0
  {
    var key :- StringLiteral(s);
    var after :- Expect(SkipSpace(key.rest), ':');
    var val :- Value(after);
    Ok(Parsed((key.v, val.v), val.rest))
  }

  /** Members after the ones in `acc`, up to the closing brace. */
  function Members(s: string, acc: map<string, J>): (r: Result<Parsed<J>, Problem>)
    ensures r.Ok? ==> |r.value.rest| < |s|
    decreases |s|, 1
  {
    var m :- NamedValue(s);
    if m.v.0 in acc then Err(DuplicateKey) else
    var more := acc[m.v.0 := m.v.1];
    var t := SkipSpace(m.rest);
    if t == [] then Err(UnexpectedEof)
    else if t[0] == '}' then Ok(Parsed(Obj(more), t[1..]))
    else if t[0] != ',' then Err(ExpectedCommaOr('}'))
    else Members(SkipSpace(t[1..]), more)
  }

  /** What follows an opening bracket. */
  function Array(text: string): (r: Result<Parsed<J>, Problem>)
    ensures r.Ok? ==> |r.value.rest| < |text|
    decreases |text|, 4
  {
    var s := SkipSpace(text);
    if At(s, ']') then Ok(Parsed(Arr([]), s[1..])) else Elements(s, [])
  }

  /** Elements after the ones in `acc`, up to the closing bracket. */
  function Elements(s: string, acc: seq<J>): (r: Result<Parsed<J>, Problem>)
    ensures r.Ok? ==> |r.value.rest| < |s|
    decreases |s|, 3
  {
    var val :- Value(s);
    var more := acc + [val.v];
    var t := SkipSpace(val.rest);
    if t == [] then Err(UnexpectedEof)
    else if t[0] == ']' then Ok(Parsed(Arr(more), t[1..]))
    else if t[0] != ',' then Err(ExpectedCommaOr(']'))
    else Elements(SkipSpace(t[1..]), more)
  }

  /** A whole text is one value with nothing but space around it. */
  function Parse(text: string): Result<J, Problem> {
    var r :- Value(SkipSpace(text));
    if SkipSpace(r.rest) == [] then Ok(r.v) else Err(TrailingCharacters)
  }

  // ---------- printing ----------

  /** A document as the writers build it, with object members in order. */
  datatype Doc =
    | DNull
    | DBool(b: bool)
    | DInt(i: int)
    | DStr(s: string)
    | DArr(items: seq<Doc>)
    | DObj(members: seq<Member>)

  datatype Member = Member(name: string, value: Doc)

  function HexDigit(d: nat): char
    requires d < 16
  {
    if d < 10 then ('0' as int + d) as char else ('a' as int + d - 10) as char
  }

  function EscapeChar(c: char): string {
    if c == '"' then "\\\""
    else if c == '\\' then "\\\\"
    else if c as int == 8 then "\\b"
    else if c as int == 12 then "\\f"
    else if c == '\n' then "\\n"
    else if c == '\r' then "\\r"
    else if c == '\t' then "\\t"
    else if c as int < 0x20 then "\\u00" + [HexDigit(c as int / 16), HexDigit(c as int % 16)]
    else [c]
  }

  function Escaped(s: string): string {
    if s == [] then "" else EscapeChar(s[0]) + Escaped(s[1..])
  }

  method Esc(s: string) returns (out: string)
    ensures out == Escaped(s)
  {
    out := "";
    assert s[0..] == s;
    for i := 0 to |s|
      invariant out + Escaped(s[i..]) == Escaped(s)
    {
      assert s[i..][1..] == s[i + 1..];
      out := out + EscapeChar(s[i]);
    }
  }

  function Quoted(s: string): string {
    "\"" + Escaped(s) + "\""
  }

  function Render(d: Doc): string {
    match d
    case DNull => "null"
    case DBool(b) => if b then "true" else "false"
    case DInt(i) => IntText(i)
    case DStr(s) => Quoted(s)
    case DArr(items) => "[" + RenderItems(items) + "]"
    case DObj(members) => "{" + RenderMembers(members) + "}"
  }

  function RenderItems(items: seq<Doc>): string {
    if items == [] then ""
    else if |items| == 1 then Render(items[0])
    else Render(items[0]) + "," + RenderItems(items[1..])
  }

  function RenderMember(m: Member): string {
    Quoted(m.name) + ":" + Render(m.value)
  }

  function RenderMembers(members: seq<Member>): string {
    if members == [] then ""
    else if |members| == 1 then RenderMember(members[0])
    else RenderMember(members[0]) + "," + RenderMembers(members[1..])
  }

  // ---------- what a document denotes ----------

  function Denote(d: Doc): J {
    match d
    case DNull => Null
    case DBool(b) => Bool(b)
    case DInt(i) => Int(i)
    case DStr(s) => Str(s)
    case DArr(items) => Arr(DenoteItems(items))
    case DObj(members) => Obj(DenoteMembers(members))
  }

  function DenoteItems(items: seq<Doc>): seq<J> {
    if items == [] then [] else [Denote(items[0])] + DenoteItems(items[1..])
  }

  function DenoteMembers(members: seq<Member>): map<string, J> {
    if members == [] then map[] else DenoteMembers(members[1..])[members[0].name := Denote(members[0].value)]
  }

  /** Integers fit in 64 bits and no object names a member twice. */
  ghost predicate Sound(d: Doc) {
    match d
    case DInt(i) => INT64_MIN <= i <= INT64_MAX
    case DArr(items) => SoundItems(items)
    case DObj(members) => SoundMembers(members)
    case _ => true
  }

  ghost predicate SoundItems(items: seq<Doc>) {
    items == [] || (Sound(items[0]) && SoundItems(items[1..]))
  }

  ghost predicate SoundMembers(members: seq<Member>) {
    members == [] || (
      Sound(members[0].value) && SoundMembers(members[1..])
      && (forall i :: 1 <= i < |members| ==> members[i].name != members[0].name))
  }
}
