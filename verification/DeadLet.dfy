/**
 Dead-let elimination: bottom-up removal of bindings whose value is pure and whose
 variable is not used.
 */
module DeadLet {
  import opened Relay
  import opened Occurrences

  function Dce(e: Expr): Expr
    decreases e, 0
  {
    match e
    case Var(_) => e
    case Constant(_) => e
    case OpRef(_) => e
    case Tuple(fields) => Tuple(DceAll(fields))
    case TupleGetItem(t, i) => TupleGetItem(Dce(t), i)
    case If(c, t, f) => If(Dce(c), Dce(t), Dce(f))
    case Function(ps, body) => Function(ps, Dce(body))
    case Call(op, args, attrs) => Call(Dce(op), DceAll(args), attrs)
    case Let(x, value, body) =>
      var v, b := Dce(value), Dce(body);
      if IsDead(x, v, b) then b else Let(x, v, b)
  }

  function DceAll(es: seq<Expr>): (r: seq<Expr>)
    ensures |r| == |es|
    decreases es, 0
  {
    if es == [] then [] else [Dce(es[0])] + DceAll(es[1..])
  }

  predicate IsDead(x: VarRef, value: Expr, body: Expr) {
    !HasSideEffect(value) && CountVarUses(body, x) == 0
  }

  /** No binding anywhere inside the expression is dead. */
  predicate NoDeadLet(e: Expr)
    decreases e, 0
  {
    match e
    case Var(_) => true
    case Constant(_) => true
    case OpRef(_) => true
    case Tuple(fields) => NoneDead(fields)
    case TupleGetItem(t, _) => NoDeadLet(t)
    case If(c, t, f) => NoDeadLet(c) && NoDeadLet(t) && NoDeadLet(f)
    case Function(_, body) => NoDeadLet(body)
    case Call(op, args, _) => NoDeadLet(op) && NoneDead(args)
    case Let(x, value, body) => !IsDead(x, value, body) && NoDeadLet(value) && NoDeadLet(body)
  }

  predicate NoneDead(es: seq<Expr>)
    decreases es, 0
  {
    es == [] || (NoDeadLet(es[0]) && NoneDead(es[1..]))
  }

  /** Skipping a dead binding changes neither the value nor the device calls. */
  lemma SkipDead(I: Interp, x: VarRef, value: Expr, body: Expr, env: Env)
    requires Extensional(I) && IsDead(x, value, body)
    ensures Eval(I, Let(x, value, body), env) == Eval(I, body, env)
  {
    PureHasNoTrace(I, value, env);
    UncountedIsNotFree(body, x);
    DependsOnFree(I, body, env[x := Eval(I, value, env).v], env);
  }

  /** The pass keeps the value and the sequence of device calls of every expression. */
  lemma {:induction false} DcePreserves(I: Interp, e: Expr, env: Env)
    requires Extensional(I)
    ensures Eval(I, Dce(e), env) == Eval(I, e, env)
    decreases e, 0
  {
    match e
    case Tuple(fields) => DceAllPreserves(I, fields, env);
    case TupleGetItem(t, _) => DcePreserves(I, t, env);
    case If(c, t, f) =>
      DcePreserves(I, c, env);
      DcePreserves(I, t, env);
      DcePreserves(I, f, env);
    case Function(ps, body) =>
      forall xs ensures Eval(I, Dce(body), BindAll(I, env, ps, xs)) == Eval(I, body, BindAll(I, env, ps, xs)) {
        DcePreserves(I, body, BindAll(I, env, ps, xs));
      }
      SameClosure(I, ps, Dce(body), env, body, env);
    case Call(op, args, _) =>
      DcePreserves(I, op, env);
      DceAllPreserves(I, args, env);
    case Let(x, value, body) =>
      DcePreserves(I, value, env);
      DcePreserves(I, body, env[x := Eval(I, value, env).v]);
      if IsDead(x, Dce(value), Dce(body)) {
        SkipDead(I, x, Dce(value), Dce(body), env);
      }
    case _ =>
  }

  lemma {:induction false} DceAllPreserves(I: Interp, es: seq<Expr>, env: Env)
    requires Extensional(I)
    ensures EvalAll(I, DceAll(es), env) == EvalAll(I, es, env)
    decreases es, 0
  {
    if es != [] {
      DcePreserves(I, es[0], env);
      DceAllPreserves(I, es[1..], env);
      assert DceAll(es)[1..] == DceAll(es[1..]);
    }
  }

  lemma {:induction false} DceNormal(e: Expr)
    ensures NoDeadLet(Dce(e))
    decreases e, 0
  {
    match e
    case Tuple(fields) => DceAllNormal(fields);
    case TupleGetItem(t, _) => DceNormal(t);
    case If(c, t, f) =>
      DceNormal(c);
      DceNormal(t);
      DceNormal(f);
    case Function(_, body) => DceNormal(body);
    case Call(op, args, _) =>
      DceNormal(op);
      DceAllNormal(args);
    case Let(_, value, body) =>
      DceNormal(value);
      DceNormal(body);
    case _ =>
  }

  lemma {:induction false} DceAllNormal(es: seq<Expr>)
    ensures NoneDead(DceAll(es))
    decreases es, 0
  {
    if es != [] {
      DceNormal(es[0]);
      DceAllNormal(es[1..]);
      assert DceAll(es)[1..] == DceAll(es[1..]);
    }
  }

  lemma {:induction false} CleanIsFixed(e: Expr)
    requires NoDeadLet(e)
    ensures Dce(e) == e
    decreases e, 0
  {
    match e
    case Tuple(fields) => CleanAllFixed(fields);
    case TupleGetItem(t, _) => CleanIsFixed(t);
    case If(c, t, f) =>
      CleanIsFixed(c);
      CleanIsFixed(t);
      CleanIsFixed(f);
    case Function(_, body) => CleanIsFixed(body);
    case Call(op, args, _) =>
      CleanIsFixed(op);
      CleanAllFixed(args);
    case Let(_, value, body) =>
      CleanIsFixed(value);
      CleanIsFixed(body);
    case _ =>
  }

  lemma {:induction false} CleanAllFixed(es: seq<Expr>)
    requires NoneDead(es)
    ensures DceAll(es) == es
    decreases es, 0
  {
    if es != [] {
      CleanIsFixed(es[0]);
      CleanAllFixed(es[1..]);
    }
  }

  /** A binding whose variable does not occur in its body and whose value holds no effect. */
  ghost predicate DeadBinding(s: Expr) {
    s.Let? && !Effectful(s.value) && !Occurs(Var(s.v), s.body)
  }

  lemma DeadExact(x: VarRef, value: Expr, body: Expr)
    ensures IsDead(x, value, body) <==> DeadBinding(Let(x, value, body))
  {
    EffectExact(value);
    UsesExact(body, x);
  }

  /** The normal form is the absence of dead bindings, wherever they occur. */
  lemma {:induction false} NormalExact(e: Expr)
    ensures NoDeadLet(e) <==> forall s :: Occurs(s, e) ==> !DeadBinding(s)
    decreases e, 0
  {
    hide IsDead, DeadBinding;
    NotDead(e);
    match e
    case Var(_) =>
    case Constant(_) =>
    case OpRef(_) =>
    case Tuple(fields) =>
      AllNormalExact(fields);
      assert forall s :: Occurs(s, e) <==> s == e || OccursIn(s, fields);
    case TupleGetItem(t, _) =>
      NormalExact(t);
      assert forall s :: Occurs(s, e) <==> s == e || Occurs(s, t);
    case If(c, t, f) =>
      NormalExact(c);
      NormalExact(t);
      NormalExact(f);
      assert forall s :: Occurs(s, e) <==> s == e || Occurs(s, c) || Occurs(s, t) || Occurs(s, f);
    case Function(_, body) =>
      NormalExact(body);
      assert forall s :: Occurs(s, e) <==> s == e || Occurs(s, body);
    case Call(op, args, _) =>
      NormalExact(op);
      NotDead(op);
      AllNormalExact(args);
      assert forall s :: Occurs(s, e) <==> s == e || (!op.OpRef? && Occurs(s, op)) || OccursIn(s, args);
      assert op.OpRef? ==> forall s :: Occurs(s, op) <==> s == op;
    case Let(x, value, body) =>
      DeadExact(x, value, body);
      NormalExact(value);
      NormalExact(body);
      assert Occurs(e, e);
      assert forall s :: Occurs(s, e) <==> s == e || Occurs(s, value) || Occurs(s, body);
  }

  lemma NotDead(e: Expr)
    ensures !e.Let? ==> !DeadBinding(e)
  {
  }

  lemma {:induction false} AllNormalExact(es: seq<Expr>)
    ensures NoneDead(es) <==> forall s :: OccursIn(s, es) ==> !DeadBinding(s)
    decreases es, 0
  {
    hide DeadBinding;
    if es != [] {
      NormalExact(es[0]);
      AllNormalExact(es[1..]);
      forall s ensures OccursIn(s, es) <==> Occurs(s, es[0]) || OccursIn(s, es[1..]) {
        Split(s, es);
      }
    }
  }

  /** One pass leaves no dead binding anywhere. */
  lemma DceCleans(e: Expr)
    ensures forall s :: Occurs(s, Dce(e)) ==> !DeadBinding(s)
  {
    hide DeadBinding, Occurs;
    DceNormal(e);
    NormalExact(Dce(e));
  }

  /** The pass changes an expression exactly when a dead binding is in it. */
  lemma DceFixes(e: Expr)
    ensures Dce(e) == e <==> forall s :: Occurs(s, e) ==> !DeadBinding(s)
  {
    hide DeadBinding, Occurs;
    DceNormal(e);
    NormalExact(e);
    if NoDeadLet(e) { CleanIsFixed(e); }
  }

  /** A second pass changes nothing. */
  lemma DceIdempotent(e: Expr)
    ensures Dce(Dce(e)) == Dce(e)
  {
    DceNormal(e);
    CleanIsFixed(Dce(e));
  }
}
