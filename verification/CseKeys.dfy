/**
 Elimination with the printed text as key: for which vocabularies it keeps the meaning of
 every program.
 */
module CseKeys {
  import opened Base
  import opened Decimal
  import opened Relay
  import opened RelaySubst
  import opened RelayPrint
  import opened CommonSubexpr

  /** The text tells variables, constants and the attributes of pure operator calls apart. */
  ghost predicate Distinguishable(u: Vocabulary) {
    && (forall v, w :: v in u.vars && w in u.vars && v.hint == w.hint ==> v == w)
    && (forall c, d :: c in u.consts && d in u.consts && ConstText(c) == ConstText(d) ==> c == d)
    && (forall p, q :: p in u.calls && q in u.calls && p.0 == q.0 && PureName(p.0) ==> p == q)
  }

  predicate PureName(name: string) {
    name != "" && !IsDevice(name)
  }

  /** Printed names stay on one line. */
  ghost predicate SingleLine(u: Vocabulary) {
    && (forall v :: v in u.vars ==> NoBreak(v.hint))
    && (forall c :: c in u.consts ==> NoBreak(ConstText(c)))
    && (forall p :: p in u.calls ==> NoBreak(p.0))
  }

  // ---------- lines of a pure expression read back as the expression ----------

  lemma SameIndent(n: nat, a: string, b: string)
    requires Spaces(n) + a == Spaces(n) + b
    ensures a == b
  {
    assert (Spaces(n) + a)[n..] == a;
    assert (Spaces(n) + b)[n..] == b;
  }

  lemma SameTail(l: seq<string>, r: seq<string>, s: seq<string>)
    requires l + r == l + s
    ensures r == s
  {
    assert (l + r)[|l|..] == r;
    assert (l + s)[|l|..] == s;
  }

  lemma SameAtom(a: Expr, b: Expr, u: Vocabulary)
    requires Distinguishable(u) && Over(a, u) && Over(b, u)
    requires (a.Var? && b.Var? && a.v.hint == b.v.hint)
          || (a.Constant? && b.Constant? && ConstText(a.c) == ConstText(b.c))
    ensures a == b
  {
    hide ConstText;
  }

  lemma SameBinder(v: VarRef, w: VarRef, u: Vocabulary)
    requires Distinguishable(u) && v in u.vars && w in u.vars && v.hint == w.hint
    ensures v == w
  {
  }

  lemma SameCall(name: string, i: int, j: int, u: Vocabulary)
    requires Distinguishable(u) && (name, i) in u.calls && (name, j) in u.calls && PureName(name)
    ensures i == j
  {
    hide ConstText;
    var p, q := (name, i), (name, j);
    assert p in u.calls && q in u.calls && p.0 == q.0;
  }

  lemma {:induction false} LinesRead(a: Expr, b: Expr, n: nat, r: seq<string>, s: seq<string>, u: Vocabulary)
    requires Distinguishable(u) && Over(a, u) && Over(b, u) && !HasSideEffect(a) && !HasSideEffect(b)
    requires Lines(a, n) + r == Lines(b, n) + s
    ensures a == b && r == s
    decreases a, 1
  {
    hide Distinguishable, Over, HasSideEffect, Head, Inside, Spaces;
    var l := Lines(a, n) + r;
    assert l[0] == Spaces(n) + Head(a) && l[0] == Spaces(n) + Head(b);
    SameIndent(n, Head(a), Head(b));
    HeadReads(a, b);
    assert l[1..] == Inside(a, n) + r == Inside(b, n) + s;
    InsideReads(a, b, n, r, s, u);
  }

  lemma {:induction false} InsideReads(a: Expr, b: Expr, n: nat, r: seq<string>, s: seq<string>, u: Vocabulary)
    requires Distinguishable(u) && Over(a, u) && Over(b, u) && !HasSideEffect(a) && !HasSideEffect(b)
    requires Head(a) == Head(b) && Inside(a, n) + r == Inside(b, n) + s
    ensures a == b && r == s
    decreases a, 0
  {
    hide Head, Lines, Distinguishable, Numbered, Labelled, Params, ConstText;
    HeadReads(a, b);
    match a
    case Var(_) =>
      SameAtom(a, b, u);
      SameTail([], r, s);
    case Constant(_) =>
      SameAtom(a, b, u);
      SameTail([], r, s);
    case Tuple(fields) => NumberedReads("field[", fields, b.fields, 0, n, r, s, u);
    case TupleGetItem(t, _) => LabelledReads("tuple:", t, b.tuple, n, r, s, u);
    case If(c, t, f) =>
      var f1, f2 := Labelled("false:", f, n) + r, Labelled("false:", b.fbranch, n) + s;
      var t1, t2 := Labelled("true:", t, n) + f1, Labelled("true:", b.tbranch, n) + f2;
      assert Inside(a, n) + r == Labelled("cond:", c, n) + t1;
      assert Inside(b, n) + s == Labelled("cond:", b.cond, n) + t2;
      LabelledReads("cond:", c, b.cond, n, t1, t2, u);
      LabelledReads("true:", t, b.tbranch, n, f1, f2, u);
      LabelledReads("false:", f, b.fbranch, n, r, s, u);
    case Let(_, value, body) =>
      SameBinder(a.v, b.v, u);
      var b1, b2 := Labelled("body:", body, n) + r, Labelled("body:", b.body, n) + s;
      assert Inside(a, n) + r == Labelled("value:", value, n) + b1;
      assert Inside(b, n) + s == Labelled("value:", b.value, n) + b2;
      LabelledReads("value:", value, b.value, n, b1, b2, u);
      LabelledReads("body:", body, b.body, n, r, s, u);
    case Function(ps, body) =>
      var b1, b2 := Labelled("body:", body, n) + r, Labelled("body:", b.body, n) + s;
      assert Inside(a, n) + r == Params(ps, 0, n) + b1;
      assert Inside(b, n) + s == Params(b.params, 0, n) + b2;
      ParamsRead(ps, b.params, 0, n, b1, b2, u);
      LabelledReads("body:", body, b.body, n, r, s, u);
    case Call(op, args, attrs) =>
      SameCall(op.name, attrs, b.attrs, u);
      NumberedReads("arg[", args, b.args, 0, n, r, s, u);
  }

  lemma {:induction false} LabelledReads(
    name: string, a: Expr, b: Expr, n: nat, r: seq<string>, s: seq<string>, u: Vocabulary)
    requires Distinguishable(u) && Over(a, u) && Over(b, u) && !HasSideEffect(a) && !HasSideEffect(b)
    requires Labelled(name, a, n) + r == Labelled(name, b, n) + s
    ensures a == b && r == s
    decreases a, 2
  {
    hide Lines, Over, HasSideEffect, Distinguishable;
    var l := Labelled(name, a, n) + r;
    assert l[1..] == Lines(a, n + 4) + r;
    assert l[1..] == Lines(b, n + 4) + s;
    LinesRead(a, b, n + 4, r, s, u);
  }

  lemma {:induction false} NumberedReads(
    name: string, a: seq<Expr>, b: seq<Expr>, i: nat, n: nat, r: seq<string>, s: seq<string>, u: Vocabulary)
    requires Distinguishable(u) && OverAll(a, u) && OverAll(b, u) && !AnySideEffect(a) && !AnySideEffect(b)
    requires |a| == |b| && Numbered(name, a, i, n) + r == Numbered(name, b, i, n) + s
    ensures a == b && r == s
    decreases a, 0
  {
    hide Labelled, Over, HasSideEffect, Distinguishable;
    if a != [] {
      var tag := name + NatText(i) + "]:";
      var a1, b1 := Numbered(name, a[1..], i + 1, n) + r, Numbered(name, b[1..], i + 1, n) + s;
      assert Numbered(name, a, i, n) + r == Labelled(tag, a[0], n) + a1;
      assert Numbered(name, b, i, n) + s == Labelled(tag, b[0], n) + b1;
      LabelledReads(tag, a[0], b[0], n, a1, b1, u);
      NumberedReads(name, a[1..], b[1..], i + 1, n, r, s, u);
      assert a == [a[0]] + a[1..];
    } else {
      SameTail([], r, s);
    }
  }

  lemma {:induction false} ParamsRead(
    a: seq<VarRef>, b: seq<VarRef>, i: nat, n: nat, r: seq<string>, s: seq<string>, u: Vocabulary)
    requires Distinguishable(u) && Elems(a) <= u.vars && Elems(b) <= u.vars
    requires |a| == |b| && Params(a, i, n) + r == Params(b, i, n) + s
    ensures a == b && r == s
    decreases a
  {
    if a != [] {
      var tag := Spaces(n + 2) + "param[" + NatText(i) + "]=";
      var l := Params(a, i, n) + r;
      assert l[0] == tag + a[0].hint && l[0] == tag + b[0].hint;
      assert l[0][|tag|..] == a[0].hint && l[0][|tag|..] == b[0].hint;
      assert a[0] in Elems(a) && b[0] in Elems(b);
      assert a[0] == b[0];
      assert l[1..] == Params(a[1..], i + 1, n) + r;
      assert l[1..] == Params(b[1..], i + 1, n) + s;
      assert Elems(a[1..]) <= Elems(a) && Elems(b[1..]) <= Elems(b);
      ParamsRead(a[1..], b[1..], i + 1, n, r, s, u);
      assert a == [a[0]] + a[1..];
    } else {
      SameTail([], r, s);
    }
  }

  // ---------- no line of a program breaks ----------

  lemma NumeralNoBreak(n: int)
    ensures NoBreak(IntText(n))
  {
    NatTextDenotes(if n < 0 then -n else n);
  }

  lemma Glue(a: string, b: string, c: string)
    requires NoBreak(a) && NoBreak(b) && NoBreak(c)
    ensures NoBreak(a + b + c)
  {
  }

  lemma Indented(n: nat, a: string)
    requires NoBreak(a)
    ensures NoBreak(Spaces(n) + a)
  {
  }

  lemma WordsNoBreak()
    ensures NoBreak("Var(") && NoBreak(")") && NoBreak("Tuple(fields=") && NoBreak("TupleGetItem(index=")
    ensures NoBreak("If") && NoBreak("Let(var=") && NoBreak("Function(params=") && NoBreak("Call(op=")
    ensures NoBreak(", args=") && NoBreak("tuple:") && NoBreak("cond:") && NoBreak("true:")
    ensures NoBreak("false:") && NoBreak("value:") && NoBreak("body:") && NoBreak("field[")
    ensures NoBreak("arg[") && NoBreak("]:") && NoBreak("param[") && NoBreak("]=") && NoBreak("")
  {
  }

  lemma HeadNoBreak(e: Expr, u: Vocabulary)
    requires SingleLine(u) && Over(e, u) && !HasSideEffect(e)
    ensures NoBreak(Head(e))
  {
    hide NoBreak, NatText, ConstText;
    WordsNoBreak();
    match e
    case Var(v) => Glue("Var(", v.hint, ")");
    case Constant(_) =>
    case Tuple(fields) =>
      NumeralNoBreak(|fields|);
      Glue("Tuple(fields=", NatText(|fields|), ")");
    case TupleGetItem(_, i) =>
      NumeralNoBreak(i);
      Glue("TupleGetItem(index=", IntText(i), ")");
    case If(_, _, _) =>
    case Let(x, _, _) => Glue("Let(var=", x.hint, ")");
    case Function(ps, _) =>
      NumeralNoBreak(|ps|);
      Glue("Function(params=", NatText(|ps|), ")");
    case Call(op, args, attrs) =>
      NumeralNoBreak(|args|);
      var p := (op.name, attrs);
      assert p in u.calls;
      Glue("Call(op=", op.name, ", args=");
      Glue("Call(op=" + op.name + ", args=", NatText(|args|), ")");
  }

  lemma {:induction false} LinesNoBreak(e: Expr, n: nat, u: Vocabulary)
    requires SingleLine(u) && Over(e, u) && !HasSideEffect(e)
    ensures NoBreaks(Lines(e, n))
    decreases e, 1
  {
    hide SingleLine, NoBreak, Head, Numbered, Params, Labelled, Spaces;
    WordsNoBreak();
    HeadNoBreak(e, u);
    assert NoBreak(Spaces(n) + Head(e)) by { Indented(n, Head(e)); }
    match e
    case Tuple(fields) => NumberedNoBreak("field[", fields, 0, n, u);
    case TupleGetItem(t, _) => LabelledNoBreak("tuple:", t, n, u);
    case If(c, t, f) =>
      LabelledNoBreak("cond:", c, n, u);
      LabelledNoBreak("true:", t, n, u);
      LabelledNoBreak("false:", f, n, u);
    case Let(_, value, body) =>
      LabelledNoBreak("value:", value, n, u);
      LabelledNoBreak("body:", body, n, u);
    case Function(ps, body) =>
      ParamsNoBreak(ps, 0, n, u);
      LabelledNoBreak("body:", body, n, u);
    case Call(_, args, _) => NumberedNoBreak("arg[", args, 0, n, u);
    case _ =>
  }

  lemma {:induction false} LabelledNoBreak(name: string, e: Expr, n: nat, u: Vocabulary)
    requires SingleLine(u) && Over(e, u) && !HasSideEffect(e) && NoBreak(name)
    ensures NoBreaks(Labelled(name, e, n))
    decreases e, 2
  {
    hide SingleLine, Lines, Over, HasSideEffect, NoBreak, Spaces;
    LinesNoBreak(e, n + 4, u);
    Indented(n + 2, name);
  }

  lemma {:induction false} NumberedNoBreak(name: string, es: seq<Expr>, i: nat, n: nat, u: Vocabulary)
    requires SingleLine(u) && OverAll(es, u) && !AnySideEffect(es) && NoBreak(name)
    ensures NoBreaks(Numbered(name, es, i, n))
    decreases es, 0
  {
    hide SingleLine, Labelled, Over, HasSideEffect, NoBreak, NatText;
    if es != [] {
      NumeralNoBreak(i);
      WordsNoBreak();
      Glue(name, NatText(i), "]:");
      LabelledNoBreak(name + NatText(i) + "]:", es[0], n, u);
      NumberedNoBreak(name, es[1..], i + 1, n, u);
    }
  }

  lemma {:induction false} ParamsNoBreak(ps: seq<VarRef>, i: nat, n: nat, u: Vocabulary)
    requires SingleLine(u) && Elems(ps) <= u.vars
    ensures NoBreaks(Params(ps, i, n))
    decreases ps
  {
    hide NoBreak, NatText, Spaces;
    if ps != [] {
      NumeralNoBreak(i);
      assert ps[0] in Elems(ps);
      WordsNoBreak();
      Indented(n + 2, "param[");
      Glue(Spaces(n + 2) + "param[", NatText(i), "]=");
      Glue(Spaces(n + 2) + "param[" + NatText(i) + "]=", ps[0].hint, "");
      assert Params(ps, i, n)[0] == Spaces(n + 2) + "param[" + NatText(i) + "]=" + ps[0].hint + "";
      assert Elems(ps[1..]) <= Elems(ps);
      ParamsNoBreak(ps[1..], i + 1, n, u);
    }
  }

  /** Over such a vocabulary the printed text identifies a pure expression. */
  lemma KeyIdentifies(a: Expr, b: Expr, u: Vocabulary)
    requires Distinguishable(u) && SingleLine(u)
    requires Over(a, u) && Over(b, u) && !HasSideEffect(a) && !HasSideEffect(b)
    requires Key(a) == Key(b)
    ensures a == b
  {
    hide Distinguishable, SingleLine, Over, HasSideEffect, Lines;
    LinesNoBreak(a, 0, u);
    LinesNoBreak(b, 0, u);
    UnlinesInjective(Lines(a, 0), Lines(b, 0));
    LinesRead(a, b, 0, [], [], u);
  }

  lemma KeyIsSound(I: Interp, u: Vocabulary)
    requires Distinguishable(u) && SingleLine(u)
    ensures KeySound(I, Key, u)
  {
    hide Distinguishable, SingleLine, Over, HasSideEffect, Key, Eval;
    forall d, e, env | Over(d, u) && Over(e, u) && !HasSideEffect(d) && !HasSideEffect(e) && Key(d) == Key(e)
      ensures Eval(I, d, env) == Eval(I, e, env)
    {
      KeyIdentifies(d, e, u);
    }
  }

  // ---------- exactly when the pass keeps meanings ----------

  /** Two values bound one after the other, the second one returned. */
  function Pair(x: VarRef, a: Expr, y: VarRef, b: Expr): Expr {
    Let(x, a, Let(y, b, Var(y)))
  }

  /** Variables, constants and calls without arguments. */
  predicate Leaf(e: Expr) {
    e.Var? || e.Constant? || (e.Call? && e.op.OpRef? && PureName(e.op.name) && e.args == [])
  }

  lemma PairRewritten(x: VarRef, a: Expr, y: VarRef, b: Expr)
    requires Leaf(a) && Leaf(b) && x != y
    ensures Cse(Key, map[], Pair(x, a, y, b)) ==
      if Key(a) == Key(b) then Let(x, a, Var(x)) else Pair(x, a, y, b)
  {
    hide Key;
    LeafFixed(map[], a);
    var t := map[Key(a) := x];
    LeafFixed(t, b);
    var inner := Let(y, b, Var(y));
    assert Cse(Key, t, inner) == if Key(a) == Key(b) then Var(x) else inner;
  }

  lemma LeafFixed(table: map<string, VarRef>, e: Expr)
    requires Leaf(e)
    ensures Cse(Key, table, e) == e && !HasSideEffect(e)
  {
  }

  /** The pair keeps its meaning exactly when the keys differ or the two values are equal. */
  lemma PairKept(I: Interp, x: VarRef, a: Expr, y: VarRef, b: Expr, env: Env)
    requires Leaf(a) && Leaf(b) && x != y && Free(b) !! {x, y} && Extensional(I)
    ensures Eval(I, Cse(Key, map[], Pair(x, a, y, b)), env) == Eval(I, Pair(x, a, y, b), env)
       <==> Key(a) != Key(b) || Eval(I, a, env).v == Eval(I, b, env).v
  {
    hide Key, Cse;
    PairRewritten(x, a, y, b);
    var va := Eval(I, a, env).v;
    var env' := env[x := va];
    DependsOnFree(I, b, env, env');
    LeafFixed(map[], a);
    LeafFixed(map[], b);
    PureHasNoTrace(I, a, env);
    PureHasNoTrace(I, b, env');
    var inner := Let(y, b, Var(y));
    assert Eval(I, inner, env') == Out(Eval(I, b, env).v, []);
    assert Eval(I, Let(x, a, inner), env) == Out(Eval(I, b, env).v, []);
    assert Eval(I, Let(x, a, Var(x)), env) == Out(va, []);
  }

  /** An interpretation under which a variable means its identity and a call its attributes. */
  function Telling(c: Const): (I: Interp)
    ensures Extensional(I)
  {
    Interp(
      z => Atom(if z == c then 0 else 1),
      (v: VarRef) => Atom(v.id),
      (_, attrs, _) => Atom(attrs),
      (_, _) => Atom(0),
      _ => true,
      (_, _) => Atom(0),
      (_, _, _) => Out(Atom(0), []))
  }

  /** Every program over the vocabulary keeps its meaning under every interpretation. */
  ghost predicate KeepsMeanings(u: Vocabulary) {
    forall I, e, env ::
      Extensional(I) && Over(e, u) && NoShadow(e) && Free(e) !! Bound(e)
      ==> Eval(I, Cse(Key, map[], e), env) == Eval(I, e, env)
  }

  /** A variable whose printed name no other variable has. */
  ghost predicate Spare(x: VarRef, u: Vocabulary) {
    x in u.vars && forall v :: v in u.vars && v.hint == x.hint ==> v == x
  }

  /** If the pass keeps all meanings, leaves with the same key mean the same. */
  lemma KeptPair(I: Interp, x: VarRef, a: Expr, y: VarRef, b: Expr, u: Vocabulary)
    requires KeepsMeanings(u) && Extensional(I) && x != y && x in u.vars && y in u.vars
    requires Leaf(a) && Leaf(b) && Over(a, u) && Over(b, u) && Free(a) + Free(b) !! {x, y}
    requires Key(a) == Key(b)
    ensures Eval(I, a, map[]).v == Eval(I, b, map[]).v
  {
    hide Key, Eval, Cse;
    var e := Pair(x, a, y, b);
    PairScopes(x, a, y, b, u);
    assert Eval(I, Cse(Key, map[], e), map[]) == Eval(I, e, map[]);
    PairKept(I, x, a, y, b, map[]);
  }

  lemma LeafScopes(e: Expr)
    requires Leaf(e)
    ensures Bound(e) == {} && NoShadow(e)
  {
    if e.Call? { assert BoundAll(e.args) == {} && NoShadowAll(e.args); }
  }

  lemma PairScopes(x: VarRef, a: Expr, y: VarRef, b: Expr, u: Vocabulary)
    requires x != y && x in u.vars && y in u.vars
    requires Leaf(a) && Leaf(b) && Over(a, u) && Over(b, u) && Free(a) + Free(b) !! {x, y}
    ensures Over(Pair(x, a, y, b), u) && NoShadow(Pair(x, a, y, b))
    ensures Free(Pair(x, a, y, b)) !! Bound(Pair(x, a, y, b))
  {
    var inner := Let(y, b, Var(y));
    LeafScopes(a);
    LeafScopes(b);
    assert Bound(inner) == {y} && NoShadow(inner);
    assert Free(inner) <= Free(b);
    assert Free(Let(x, a, inner)) <= Free(a) + Free(b);
    assert Bound(Let(x, a, inner)) == {x, y};
  }

  /**
   With the printed text as key, elimination keeps the meaning of every program over a
   vocabulary exactly when the text tells the vocabulary's members apart.
   */
  lemma CseExact(u: Vocabulary, x: VarRef, y: VarRef)
    requires SingleLine(u) && Spare(x, u) && Spare(y, u) && x != y
    ensures KeepsMeanings(u) <==> Distinguishable(u)
  {
    hide SingleLine, Over, Eval, Cse, Key, ConstText, NoShadow, Free, Bound, Extensional;
    if Distinguishable(u) {
      forall I, e, env | Extensional(I) && Over(e, u) && NoShadow(e) && Free(e) !! Bound(e)
        ensures Eval(I, Cse(Key, map[], e), env) == Eval(I, e, env)
      {
        KeyIsSound(I, u);
        CsePreserves(I, Key, e, env, u);
      }
    }
    if KeepsMeanings(u) {
      forall v, w | v in u.vars && w in u.vars && v.hint == w.hint ensures v == w {
        VarsTold(u, x, y, v, w);
      }
      forall c, d | c in u.consts && d in u.consts && ConstText(c) == ConstText(d) ensures c == d {
        ConstsTold(u, x, y, c, d);
      }
      forall p, q | p in u.calls && q in u.calls && p.0 == q.0 && PureName(p.0) ensures p == q {
        CallsTold(u, x, y, p, q);
      }
    }
  }

  lemma VarsTold(u: Vocabulary, x: VarRef, y: VarRef, v: VarRef, w: VarRef)
    requires KeepsMeanings(u) && Spare(x, u) && Spare(y, u) && x != y
    requires v in u.vars && w in u.vars && v.hint == w.hint
    ensures v == w
  {
    hide KeepsMeanings, Key, Cse;
    if v != w {
      assert Key(Var(v)) == Key(Var(w)) by { SameHeadSameKey(Var(v), Var(w)); }
      KeptPair(Telling(Const(0, [], "")), x, Var(v), y, Var(w), u);
    }
  }

  lemma ConstsTold(u: Vocabulary, x: VarRef, y: VarRef, c: Const, d: Const)
    requires KeepsMeanings(u) && Spare(x, u) && Spare(y, u) && x != y
    requires c in u.consts && d in u.consts && ConstText(c) == ConstText(d)
    ensures c == d
  {
    hide KeepsMeanings, Key, Cse, ConstText;
    SameHeadSameKey(Constant(c), Constant(d));
    KeptPair(Telling(c), x, Constant(c), y, Constant(d), u);
  }

  lemma CallsTold(u: Vocabulary, x: VarRef, y: VarRef, p: (string, int), q: (string, int))
    requires KeepsMeanings(u) && Spare(x, u) && Spare(y, u) && x != y
    requires p in u.calls && q in u.calls && p.0 == q.0 && PureName(p.0)
    ensures p == q
  {
    hide KeepsMeanings, Key, Cse;
    var a, b := Call(OpRef(p.0), [], p.1), Call(OpRef(q.0), [], q.1);
    SameHeadSameKey(a, b);
    var I := Telling(Const(0, [], ""));
    KeptPair(I, x, a, y, b, u);
    assert Eval(I, a, map[]).v == Atom(p.1);
    assert Eval(I, b, map[]).v == Atom(q.1);
  }

  lemma LeafInside(e: Expr)
    requires Leaf(e)
    ensures Inside(e, 0) == []
  {
    if e.Call? { assert Numbered("arg[", e.args, 0, 0) == []; }
  }

  lemma SameHeadSameKey(a: Expr, b: Expr)
    requires Leaf(a) && Leaf(b) && Head(a) == Head(b)
    ensures Key(a) == Key(b)
  {
    hide Head;
    LeafInside(a);
    LeafInside(b);
  }

  /** The key shows neither the payload of a constant nor the attributes of a call. */
  lemma KeyOmits(c: Const, payload: int, op: Expr, args: seq<Expr>, i: int, j: int)
    ensures Key(Constant(c)) == Key(Constant(Const(payload, c.shape, c.dtype)))
    ensures Key(Call(op, args, i)) == Key(Call(op, args, j))
  {
    var a, b := Constant(c), Constant(Const(payload, c.shape, c.dtype));
    assert Lines(a, 0) == Lines(b, 0);
    assert Inside(Call(op, args, i), 0) == Inside(Call(op, args, j), 0);
    assert Lines(Call(op, args, i), 0) == Lines(Call(op, args, j), 0);
  }

  /** Two constants of one shape and dtype: the program returns the second, the result of the pass the first. */
  lemma ConstantsMerged()
    ensures var one, two := Const(1, [2], "float32"), Const(2, [2], "float32");
      var e := Pair(VarRef(0, "x"), Constant(one), VarRef(1, "y"), Constant(two));
      Eval(Telling(one), e, map[]).v == Atom(1) && Eval(Telling(one), Cse(Key, map[], e), map[]).v == Atom(0)
  {
    hide Key, Cse;
    var one, two := Const(1, [2], "float32"), Const(2, [2], "float32");
    var x, y := VarRef(0, "x"), VarRef(1, "y");
    var I := Telling(one);
    KeyOmits(one, 2, OpRef(""), [], 0, 0);
    PairRewritten(x, Constant(one), y, Constant(two));
    var inner := Let(y, Constant(two), Var(y));
    var env: Env := map[];
    assert Eval(I, Constant(one), env).v == Atom(0);
    assert Eval(I, Constant(two), env[x := Atom(0)]).v == Atom(1);
    assert Eval(I, inner, env[x := Atom(0)]).v == Atom(1);
    assert Eval(I, Let(x, Constant(one), inner), env).v == Atom(1);
    assert Eval(I, Let(x, Constant(one), Var(x)), env).v == Atom(0);
  }
}
