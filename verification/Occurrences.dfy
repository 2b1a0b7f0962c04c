/** What the analyses of expressions find, in terms of the subexpressions that occur. */
module Occurrences {
  import opened Base
  import opened Relay

  /** `s` is the expression or occurs inside it; the operator a call names is not an occurrence. */
  ghost predicate Occurs(s: Expr, e: Expr)
    decreases e
  {
    s == e
    || match e
       case Var(_) => false
       case Constant(_) => false
       case OpRef(_) => false
       case Tuple(fields) => exists i :: 0 <= i < |fields| && Occurs(s, fields[i])
       case TupleGetItem(t, _) => Occurs(s, t)
       case If(c, t, f) => Occurs(s, c) || Occurs(s, t) || Occurs(s, f)
       case Let(_, value, body) => Occurs(s, value) || Occurs(s, body)
       case Function(_, body) => Occurs(s, body)
       case Call(op, args, _) => (!op.OpRef? && Occurs(s, op)) || exists i :: 0 <= i < |args| && Occurs(s, args[i])
  }

  ghost predicate OccursIn(s: Expr, es: seq<Expr>) {
    exists i :: 0 <= i < |es| && Occurs(s, es[i])
  }

  /** A bare operator, a call through anything but a named operator, or a device call. */
  predicate IsEffect(s: Expr) {
    s.OpRef?
    || (s.Call? && (!s.op.OpRef? || s.op.name == "" || (|s.op.name| >= 7 && s.op.name[..7] == "device.")))
  }

  ghost predicate Effectful(e: Expr) {
    exists s :: IsEffect(s) && Occurs(s, e)
  }

  /** An expression is judged to have side effects exactly when one of these occurs in it. */
  lemma {:induction false} EffectExact(e: Expr)
    ensures HasSideEffect(e) <==> Effectful(e)
    decreases e, 0
  {
    match e
    case Var(_) =>
    case Constant(_) =>
    case OpRef(_) => assert IsEffect(e) && Occurs(e, e);
    case Tuple(fields) =>
      AnyEffectExact(fields);
      assert forall s :: IsEffect(s) ==> (Occurs(s, e) <==> OccursIn(s, fields));
    case TupleGetItem(t, _) =>
      EffectExact(t);
      assert forall s :: IsEffect(s) ==> (Occurs(s, e) <==> Occurs(s, t));
    case If(c, t, f) =>
      EffectExact(c);
      EffectExact(t);
      EffectExact(f);
      assert forall s :: IsEffect(s) ==> (Occurs(s, e) <==> Occurs(s, c) || Occurs(s, t) || Occurs(s, f));
    case Let(_, value, body) =>
      EffectExact(value);
      EffectExact(body);
      assert forall s :: IsEffect(s) ==> (Occurs(s, e) <==> Occurs(s, value) || Occurs(s, body));
    case Function(_, body) =>
      EffectExact(body);
      assert forall s :: IsEffect(s) ==> (Occurs(s, e) <==> Occurs(s, body));
    case Call(op, args, _) =>
      AnyEffectExact(args);
      DeviceNames(e);
      if IsEffect(e) {
        assert Occurs(e, e);
      } else {
        assert forall s :: IsEffect(s) ==> (Occurs(s, e) <==> OccursIn(s, args));
      }
  }

  lemma {:induction false} AnyEffectExact(es: seq<Expr>)
    ensures AnySideEffect(es) <==> exists s :: IsEffect(s) && OccursIn(s, es)
    decreases es, 0
  {
    hide IsEffect;
    if es != [] {
      EffectExact(es[0]);
      AnyEffectExact(es[1..]);
      forall s ensures OccursIn(s, es) <==> Occurs(s, es[0]) || OccursIn(s, es[1..]) {
        Split(s, es);
      }
    }
  }

  lemma Split(s: Expr, es: seq<Expr>)
    requires es != []
    ensures OccursIn(s, es) <==> Occurs(s, es[0]) || OccursIn(s, es[1..])
  {
    if i :| 0 <= i < |es| && Occurs(s, es[i]) {
      if i > 0 { assert es[1..][i - 1] == es[i]; }
    }
    if i :| 0 <= i < |es[1..]| && Occurs(s, es[1..][i]) {
      assert es[i + 1] == es[1..][i];
    }
  }

  lemma DeviceNames(e: Expr)
    requires e.Call?
    ensures IsEffect(e) <==> !e.op.OpRef? || e.op.name == "" || IsDevice(e.op.name)
  {
    if e.op.OpRef? && IsDevice(e.op.name) { assert e.op.name[..7] == "device."; }
  }

  /** A variable has no uses exactly when it does not occur. */
  lemma {:induction false} UsesExact(e: Expr, x: VarRef)
    ensures CountVarUses(e, x) == 0 <==> !Occurs(Var(x), e)
    decreases e, 0
  {
    match e
    case Var(_) =>
    case Constant(_) =>
    case OpRef(_) =>
    case Tuple(fields) =>
      AllUsesExact(fields, x);
      assert Occurs(Var(x), e) <==> OccursIn(Var(x), fields);
    case TupleGetItem(t, _) => UsesExact(t, x);
    case If(c, t, f) =>
      UsesExact(c, x);
      UsesExact(t, x);
      UsesExact(f, x);
    case Let(_, value, body) =>
      UsesExact(value, x);
      UsesExact(body, x);
    case Function(_, body) => UsesExact(body, x);
    case Call(op, args, _) =>
      UsesExact(op, x);
      AllUsesExact(args, x);
      assert Occurs(Var(x), e) <==> Occurs(Var(x), op) || OccursIn(Var(x), args);
  }

  lemma {:induction false} AllUsesExact(es: seq<Expr>, x: VarRef)
    ensures CountAll(es, x) == 0 <==> !OccursIn(Var(x), es)
    decreases es, 0
  {
    if es != [] {
      UsesExact(es[0], x);
      AllUsesExact(es[1..], x);
      Split(Var(x), es);
    }
  }
}
