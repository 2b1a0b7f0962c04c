/** Removal of a reshape that only feeds another reshape. */
module FoldReshapes {
  import opened Relay
  import opened Occurrences

  const RESHAPE: string := "reshape"

  predicate IsReshape(e: Expr) {
    e.Call? && e.op.OpRef? && e.op.name == RESHAPE && e.args != []
  }

  /** A reshape whose data is a reshape. */
  predicate Nested(e: Expr) {
    IsReshape(e) && IsReshape(e.args[0])
  }

  /** The outer reshape applied to the data of the inner one. */
  function Skip(e: Expr): Expr
    requires Nested(e)
  {
    Call(e.op, [e.args[0].args[0]] + (if |e.args| > 1 then [e.args[1]] else []), e.attrs)
  }

  function Fold(e: Expr): Expr
    decreases e, 0
  {
    match e
    case Var(_) => e
    case Constant(_) => e
    case OpRef(_) => e
    case Tuple(fields) => Tuple(FoldAll(fields))
    case TupleGetItem(t, i) => TupleGetItem(Fold(t), i)
    case If(c, t, f) => If(Fold(c), Fold(t), Fold(f))
    case Let(x, value, body) => Let(x, Fold(value), Fold(body))
    case Function(ps, body) => Function(ps, Fold(body))
    case Call(op, args, attrs) =>
      var rewritten := Call(Fold(op), FoldAll(args), attrs);
      if Nested(rewritten) then Skip(rewritten) else rewritten
  }

  function FoldAll(es: seq<Expr>): (r: seq<Expr>)
    ensures |r| == |es|
    decreases es, 0
  {
    if es == [] then [] else [Fold(es[0])] + FoldAll(es[1..])
  }

  // ---------- normal form ----------

  predicate NoneNested(e: Expr)
    decreases e, 0
  {
    match e
    case Var(_) => true
    case Constant(_) => true
    case OpRef(_) => true
    case Tuple(fields) => NoneNestedAll(fields)
    case TupleGetItem(t, _) => NoneNested(t)
    case If(c, t, f) => NoneNested(c) && NoneNested(t) && NoneNested(f)
    case Let(_, value, body) => NoneNested(value) && NoneNested(body)
    case Function(_, body) => NoneNested(body)
    case Call(op, args, _) => !Nested(e) && NoneNested(op) && NoneNestedAll(args)
  }

  predicate NoneNestedAll(es: seq<Expr>)
    decreases es, 0
  {
    es == [] || (NoneNested(es[0]) && NoneNestedAll(es[1..]))
  }

  lemma SettledParts(e: Expr)
    requires e.Call? && e.args != [] && NoneNested(e)
    ensures NoneNested(e.args[0]) && NoneNestedAll(e.args[1..])
  {
    assert NoneNestedAll(e.args);
  }

  /** Skipping the inner of two reshapes leaves no reshape of a reshape. */
  lemma SkipSettles(e: Expr)
    requires Nested(e) && NoneNested(e.op) && NoneNestedAll(e.args)
    ensures NoneNested(Skip(e))
  {
    var inner := e.args[0];
    SettledParts(inner);
    var args := Skip(e).args;
    assert NoneNestedAll(args[1..]) by {
      if |e.args| > 1 {
        assert NoneNested(e.args[1..][0]);
        assert args[1..] == [e.args[1]];
        assert NoneNestedAll([e.args[1]][1..]);
      } else {
        assert args[1..] == [];
      }
    }
    assert NoneNestedAll(args);
  }

  lemma {:induction false} FoldNormal(e: Expr)
    ensures NoneNested(Fold(e))
    decreases e, 0
  {
    match e
    case Var(_) =>
    case Constant(_) =>
    case OpRef(_) =>
    case Tuple(fields) => FoldAllNormal(fields);
    case TupleGetItem(t, _) => FoldNormal(t);
    case If(c, t, f) =>
      FoldNormal(c);
      FoldNormal(t);
      FoldNormal(f);
    case Let(_, value, body) =>
      FoldNormal(value);
      FoldNormal(body);
    case Function(_, body) => FoldNormal(body);
    case Call(op, args, attrs) =>
      FoldNormal(op);
      FoldAllNormal(args);
      var rewritten := Call(Fold(op), FoldAll(args), attrs);
      if Nested(rewritten) { SkipSettles(rewritten); }
  }

  lemma {:induction false} FoldAllNormal(es: seq<Expr>)
    ensures NoneNestedAll(FoldAll(es))
    decreases es, 0
  {
    if es != [] {
      FoldNormal(es[0]);
      FoldAllNormal(es[1..]);
      assert FoldAll(es)[1..] == FoldAll(es[1..]);
    }
  }

  lemma {:induction false} SettledIsFixed(e: Expr)
    requires NoneNested(e)
    ensures Fold(e) == e
    decreases e, 0
  {
    match e
    case Var(_) =>
    case Constant(_) =>
    case OpRef(_) =>
    case Tuple(fields) => SettledAllFixed(fields);
    case TupleGetItem(t, _) => SettledIsFixed(t);
    case If(c, t, f) =>
      SettledIsFixed(c);
      SettledIsFixed(t);
      SettledIsFixed(f);
    case Let(_, value, body) =>
      SettledIsFixed(value);
      SettledIsFixed(body);
    case Function(_, body) => SettledIsFixed(body);
    case Call(op, args, _) =>
      SettledIsFixed(op);
      SettledAllFixed(args);
  }

  lemma {:induction false} SettledAllFixed(es: seq<Expr>)
    requires NoneNestedAll(es)
    ensures FoldAll(es) == es
    decreases es, 0
  {
    if es != [] {
      SettledIsFixed(es[0]);
      SettledAllFixed(es[1..]);
    }
  }

  // ---------- no reshape of a reshape ----------

  predicate CallsReshape(e: Expr) {
    e.Call? && e.op == OpRef("reshape") && e.args != []
  }

  /** A reshape whose data is a reshape. */
  predicate TwoReshapes(e: Expr) {
    CallsReshape(e) && CallsReshape(e.args[0])
  }

  lemma {:induction false} NoneNestedExact(e: Expr)
    ensures NoneNested(e) <==> forall s :: Occurs(s, e) ==> !TwoReshapes(s)
    decreases e, 0
  {
    match e
    case Var(_) =>
    case Constant(_) =>
    case OpRef(_) =>
    case Tuple(fields) =>
      AllNoneNestedExact(fields);
      assert forall s :: Occurs(s, e) <==> s == e || OccursIn(s, fields);
    case TupleGetItem(t, _) =>
      NoneNestedExact(t);
      assert forall s :: Occurs(s, e) <==> s == e || Occurs(s, t);
    case If(c, t, f) =>
      NoneNestedExact(c);
      NoneNestedExact(t);
      NoneNestedExact(f);
      assert forall s :: Occurs(s, e) <==> s == e || Occurs(s, c) || Occurs(s, t) || Occurs(s, f);
    case Let(_, value, body) =>
      NoneNestedExact(value);
      NoneNestedExact(body);
      assert forall s :: Occurs(s, e) <==> s == e || Occurs(s, value) || Occurs(s, body);
    case Function(_, body) =>
      NoneNestedExact(body);
      assert forall s :: Occurs(s, e) <==> s == e || Occurs(s, body);
    case Call(op, args, _) =>
      NoneNestedExact(op);
      AllNoneNestedExact(args);
      assert Nested(e) <==> TwoReshapes(e);
      assert Occurs(e, e);
      assert forall s :: Occurs(s, e) <==> s == e || (!op.OpRef? && Occurs(s, op)) || OccursIn(s, args);
      assert op.OpRef? ==> forall s :: Occurs(s, op) <==> s == op;
  }

  lemma {:induction false} AllNoneNestedExact(es: seq<Expr>)
    ensures NoneNestedAll(es) <==> forall s :: OccursIn(s, es) ==> !TwoReshapes(s)
    decreases es, 0
  {
    hide TwoReshapes;
    if es != [] {
      NoneNestedExact(es[0]);
      AllNoneNestedExact(es[1..]);
      forall s ensures OccursIn(s, es) <==> Occurs(s, es[0]) || OccursIn(s, es[1..]) {
        Split(s, es);
      }
    }
  }

  /** One pass leaves no reshape of a reshape anywhere. */
  lemma FoldSettles(e: Expr)
    ensures forall s :: Occurs(s, Fold(e)) ==> !TwoReshapes(s)
  {
    hide TwoReshapes, Occurs;
    FoldNormal(e);
    NoneNestedExact(Fold(e));
  }

  /** The pass changes an expression exactly when a reshape of a reshape is in it. */
  lemma FoldFixes(e: Expr)
    ensures Fold(e) == e <==> forall s :: Occurs(s, e) ==> !TwoReshapes(s)
  {
    hide TwoReshapes, Occurs;
    FoldNormal(e);
    NoneNestedExact(e);
    if NoneNested(e) { SettledIsFixed(e); }
  }

  /** A second pass changes nothing. */
  lemma FoldIdempotent(e: Expr)
    ensures Fold(Fold(e)) == Fold(e)
  {
    FoldNormal(e);
    SettledIsFixed(Fold(e));
  }

  // ---------- chains ----------

  /** Reshapes applied one after the other, the first one innermost. */
  function Chained(x: Expr, attrs: seq<int>): Expr {
    if attrs == [] then x else Call(OpRef(RESHAPE), [Chained(x, attrs[..|attrs| - 1])], attrs[|attrs| - 1])
  }

  /** One pass turns a chain of any length into its last reshape. */
  lemma {:induction false} ChainCollapses(x: Expr, attrs: seq<int>)
    requires attrs != [] && !IsReshape(Fold(x))
    ensures Fold(Chained(x, attrs)) == Call(OpRef(RESHAPE), [Fold(x)], attrs[|attrs| - 1])
    decreases |attrs|
  {
    var n := |attrs| - 1;
    var below := Chained(x, attrs[..n]);
    if n > 0 { ChainCollapses(x, attrs[..n]); }
    var args := [below];
    assert args[1..] == [];
    assert FoldAll(args) == [Fold(below)];
    var rewritten := Call(OpRef(RESHAPE), [Fold(below)], attrs[n]);
    assert Fold(Chained(x, attrs)) == if Nested(rewritten) then Skip(rewritten) else rewritten;
  }
}
