/** The text a Relay expression is printed as, which the pass uses as its key. */
module RelayPrint {
  import opened Decimal
  import opened Relay

  function Spaces(n: nat): string {
    seq(n, _ => ' ')
  }

  function ShapeText(shape: seq<int>): string {
    if shape == [] then ""
    else if |shape| == 1 then IntText(shape[0])
    else IntText(shape[0]) + ", " + ShapeText(shape[1..])
  }

  /** A constant is printed without its payload. */
  function ConstText(c: Const): string {
    "Constant(shape=[" + ShapeText(c.shape) + "], dtype=" + c.dtype + ")"
  }

  /** The first line of an expression; a call is printed without its attributes. */
  function Head(e: Expr): string {
    match e
    case Var(v) => "Var(" + v.hint + ")"
    case Constant(c) => ConstText(c)
    case OpRef(_) => "<expr>"
    case Tuple(fields) => "Tuple(fields=" + NatText(|fields|) + ")"
    case TupleGetItem(_, i) => "TupleGetItem(index=" + IntText(i) + ")"
    case If(_, _, _) => "If"
    case Let(x, _, _) => "Let(var=" + x.hint + ")"
    case Function(ps, _) => "Function(params=" + NatText(|ps|) + ")"
    case Call(op, args, _) =>
      "Call(op=" + (if op.OpRef? then op.name else "<expr-op>") + ", args=" + NatText(|args|) + ")"
  }

  function Lines(e: Expr, n: nat): seq<string>
    decreases e, 1
  {
    [Spaces(n) + Head(e)] + Inside(e, n)
  }

  function Inside(e: Expr, n: nat): seq<string>
    decreases e, 0
  {
    match e
    case Var(_) => []
    case Constant(_) => []
    case OpRef(_) => []
    case Tuple(fields) => Numbered("field[", fields, 0, n)
    case TupleGetItem(t, _) => Labelled("tuple:", t, n)
    case If(c, t, f) => Labelled("cond:", c, n) + Labelled("true:", t, n) + Labelled("false:", f, n)
    case Let(_, value, body) => Labelled("value:", value, n) + Labelled("body:", body, n)
    case Function(ps, body) => Params(ps, 0, n) + Labelled("body:", body, n)
    case Call(_, args, _) => Numbered("arg[", args, 0, n)
  }

  function Labelled(name: string, e: Expr, n: nat): seq<string>
    decreases e, 2
  {
    [Spaces(n + 2) + name] + Lines(e, n + 4)
  }

  function Numbered(name: string, es: seq<Expr>, i: nat, n: nat): seq<string>
    decreases es, 0
  {
    if es == [] then [] else Labelled(name + NatText(i) + "]:", es[0], n) + Numbered(name, es[1..], i + 1, n)
  }

  function Params(ps: seq<VarRef>, i: nat, n: nat): seq<string> {
    if ps == [] then [] else [Spaces(n + 2) + "param[" + NatText(i) + "]=" + ps[0].hint] + Params(ps[1..], i + 1, n)
  }

  function Unlines(lines: seq<string>): string {
    if lines == [] then "" else lines[0] + "\n" + Unlines(lines[1..])
  }

  /** The structural key of an expression. */
  function Key(e: Expr): string {
    Unlines(Lines(e, 0))
  }

  // ---------- reading a head back ----------

  lemma SameSplit(name: string, digits: string, name': string, digits': string)
    requires AllDigits(digits) && AllDigits(digits') && |digits| <= |digits'|
    requires "Call(op=" + name + ", args=" + digits + ")" == "Call(op=" + name' + ", args=" + digits' + ")"
    ensures name == name' && digits == digits'
  {
    var s := "Call(op=" + name + ", args=" + digits + ")";
    var k := |s| - 2 - |digits|;
    assert s[k] == '=';
    assert |digits| == |digits'|;
    assert s[8..8 + |name|] == name;
    assert s[8..8 + |name'|] == name';
    assert s[k + 1..|s| - 1] == digits;
    assert s[k + 1..|s| - 1] == digits';
  }

  /** The constructor of an expression, as a number. */
  function Tag(e: Expr): nat {
    match e
    case Var(_) => 0
    case Constant(_) => 1
    case OpRef(_) => 2
    case Tuple(_) => 3
    case TupleGetItem(_, _) => 4
    case If(_, _, _) => 5
    case Let(_, _, _) => 6
    case Function(_, _) => 7
    case Call(_, _, _) => 8
  }

  /** A head starts with a word of its own constructor. */
  lemma HeadTag(e: Expr)
    ensures |Head(e)| >= 2
    ensures |Head(e)| > 5 || !(Head(e)[0] == 'T')
    ensures Tag(e) == (
      match Head(e)[0]
      case 'V' => 0
      case 'C' => if Head(e)[1] == 'o' then 1 else 8
      case '<' => 2
      case 'T' => if Head(e)[5] == '(' then 3 else 4
      case 'I' => 5
      case 'L' => 6
      case _ => 7)
  {
    match e
    case Constant(c) => assert ConstText(c)[1] == 'o';
    case Tuple(fields) => assert Head(e)[5] == '(';
    case TupleGetItem(_, _) => assert Head(e)[5] == 'G';
    case Call(op, args, _) => assert Head(e)[1] == 'a';
    case _ =>
  }

  lemma Inner(prefix: string, a: string, b: string)
    requires prefix + a + ")" == prefix + b + ")"
    ensures a == b
  {
    var s := prefix + a + ")";
    assert s[|prefix|..|s| - 1] == a;
    assert s[|prefix|..|s| - 1] == b;
  }

  /** Equal heads come from the same constructor with the same printed data. */
  lemma HeadReads(a: Expr, b: Expr)
    requires Head(a) == Head(b)
    ensures Tag(a) == Tag(b)
    ensures a.Var? ==> a.v.hint == b.v.hint
    ensures a.Constant? ==> ConstText(a.c) == ConstText(b.c)
    ensures a.Tuple? ==> |a.fields| == |b.fields|
    ensures a.TupleGetItem? ==> a.index == b.index
    ensures a.Let? ==> a.v.hint == b.v.hint
    ensures a.Function? ==> |a.params| == |b.params|
    ensures a.Call? && a.op.OpRef? && b.op.OpRef? ==> a.op.name == b.op.name
    ensures a.Call? ==> |a.args| == |b.args|
  {
    HeadTag(a);
    HeadTag(b);
    match a
    case Var(v) => Inner("Var(", v.hint, b.v.hint);
    case Tuple(fields) =>
      Inner("Tuple(fields=", NatText(|fields|), NatText(|b.fields|));
      IntTextInjective(|fields|, |b.fields|);
    case TupleGetItem(_, i) =>
      Inner("TupleGetItem(index=", IntText(i), IntText(b.index));
      IntTextInjective(i, b.index);
    case Let(x, _, _) => Inner("Let(var=", x.hint, b.v.hint);
    case Function(ps, _) =>
      Inner("Function(params=", NatText(|ps|), NatText(|b.params|));
      IntTextInjective(|ps|, |b.params|);
    case Call(op, args, _) =>
      NatTextDenotes(|args|);
      NatTextDenotes(|b.args|);
      var name := if op.OpRef? then op.name else "<expr-op>";
      var name' := if b.op.OpRef? then b.op.name else "<expr-op>";
      if |NatText(|args|)| <= |NatText(|b.args|)| {
        SameSplit(name, NatText(|args|), name', NatText(|b.args|));
      } else {
        SameSplit(name', NatText(|b.args|), name, NatText(|args|));
      }
    case _ =>
  }

  // ---------- lines and text ----------

  predicate NoBreak(s: string) {
    forall i :: 0 <= i < |s| ==> s[i] != '\n'
  }

  predicate NoBreaks(lines: seq<string>) {
    forall i :: 0 <= i < |lines| ==> NoBreak(lines[i])
  }

  /** Text made of lines without line breaks falls back into the same lines. */
  lemma {:induction false} UnlinesInjective(a: seq<string>, b: seq<string>)
    requires NoBreaks(a) && NoBreaks(b) && Unlines(a) == Unlines(b)
    ensures a == b
  {
    if a != [] && b != [] {
      var s := Unlines(a);
      assert s[|a[0]|] == '\n' && s[|b[0]|] == '\n';
      assert |a[0]| == |b[0]|;
      assert a[0] == s[..|a[0]|] && b[0] == s[..|a[0]|];
      assert Unlines(a[1..]) == s[|a[0]| + 1..] == Unlines(b[1..]);
      UnlinesInjective(a[1..], b[1..]);
      assert a == [a[0]] + a[1..];
    }
  }

  /** The lines of a call of two variables. */
  lemma CallLines(name: string, a: VarRef, b: VarRef, attrs: int)
    ensures Lines(Call(OpRef(name), [Var(a), Var(b)], attrs), 0) ==
      ["Call(op=" + name + ", args=2)",
       "  arg[0]:", "    " + ("Var(" + a.hint + ")"),
       "  arg[1]:", "    " + ("Var(" + b.hint + ")")]
  {
    var args := [Var(a), Var(b)];
    var last := [Var(b)];
    assert args[1..] == last && last[1..] == [];
    assert NatText(0) == "0" && NatText(1) == "1" && NatText(2) == "2";
    assert Spaces(0) == "" && Spaces(2) == "  " && Spaces(4) == "    ";
    assert Lines(Var(a), 4) == ["    " + ("Var(" + a.hint + ")")];
    assert Lines(Var(b), 4) == ["    " + ("Var(" + b.hint + ")")];
    assert "arg[" + "1" + "]:" == "arg[1]:" && "arg[" + "0" + "]:" == "arg[0]:";
    assert "  " + "arg[1]:" == "  arg[1]:" && "  " + "arg[0]:" == "  arg[0]:";
    assert Labelled("arg[0]:", Var(a), 0) == ["  arg[0]:"] + Lines(Var(a), 4);
    assert Labelled("arg[1]:", Var(b), 0) == ["  arg[1]:"] + Lines(Var(b), 4);
    assert Numbered("arg[", [], 2, 0) == [];
    var call := "Call(op=" + name + ", args=2)";
    assert Head(Call(OpRef(name), args, attrs)) == call by {
      assert "Call(op=" + name + ", args=" + "2" + ")" == call;
    }
    assert "" + call == call;
    assert Numbered("arg[", last, 1, 0) == ["  arg[1]:", "    " + ("Var(" + b.hint + ")")];
    assert Numbered("arg[", args, 0, 0)
      == ["  arg[0]:", "    " + ("Var(" + a.hint + ")")] + Numbered("arg[", last, 1, 0);
  }
}
