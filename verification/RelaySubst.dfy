/** Substitution of a variable in a Relay expression, binders, and the substitution lemma. */
module RelaySubst {
  import opened Base
  import opened Relay

  /** Replaces the occurrences of `x` that are not under a binder of `x`. */
  function Subst(e: Expr, x: VarRef, r: Expr): Expr
    decreases e, 0
  {
    match e
    case Var(v) => if v == x then r else e
    case Constant(_) => e
    case OpRef(_) => e
    case Tuple(fields) => Tuple(SubstAll(fields, x, r))
    case TupleGetItem(t, i) => TupleGetItem(Subst(t, x, r), i)
    case If(c, t, f) => If(Subst(c, x, r), Subst(t, x, r), Subst(f, x, r))
    case Let(y, value, body) => Let(y, Subst(value, x, r), if y == x then body else Subst(body, x, r))
    case Function(ps, body) => if x in ps then e else Function(ps, Subst(body, x, r))
    case Call(op, args, attrs) => Call(Subst(op, x, r), SubstAll(args, x, r), attrs)
  }

  function SubstAll(es: seq<Expr>, x: VarRef, r: Expr): (s: seq<Expr>)
    ensures |s| == |es|
    decreases es, 0
  {
    if es == [] then [] else [Subst(es[0], x, r)] + SubstAll(es[1..], x, r)
  }

  function Size(e: Expr): nat
    decreases e, 0
  {
    match e
    case Var(_) => 1
    case Constant(_) => 1
    case OpRef(_) => 1
    case Tuple(fields) => 1 + SizeAll(fields)
    case TupleGetItem(t, _) => 1 + Size(t)
    case If(c, t, f) => 1 + Size(c) + Size(t) + Size(f)
    case Let(_, value, body) => 1 + Size(value) + Size(body)
    case Function(_, body) => 1 + Size(body)
    case Call(op, args, _) => 1 + Size(op) + SizeAll(args)
  }

  function SizeAll(es: seq<Expr>): nat
    decreases es, 0
  {
    if es == [] then 0 else 1 + Size(es[0]) + SizeAll(es[1..])
  }

  /** The variables bound somewhere inside. */
  function Bound(e: Expr): set<VarRef>
    decreases e, 0
  {
    match e
    case Var(_) => {}
    case Constant(_) => {}
    case OpRef(_) => {}
    case Tuple(fields) => BoundAll(fields)
    case TupleGetItem(t, _) => Bound(t)
    case If(c, t, f) => Bound(c) + Bound(t) + Bound(f)
    case Let(x, value, body) => {x} + Bound(value) + Bound(body)
    case Function(ps, body) => Elems(ps) + Bound(body)
    case Call(op, args, _) => Bound(op) + BoundAll(args)
  }

  function BoundAll(es: seq<Expr>): set<VarRef>
    decreases es, 0
  {
    if es == [] then {} else Bound(es[0]) + BoundAll(es[1..])
  }

  /** No variable is bound again inside its own scope. */
  predicate NoShadow(e: Expr)
    decreases e, 0
  {
    match e
    case Var(_) => true
    case Constant(_) => true
    case OpRef(_) => true
    case Tuple(fields) => NoShadowAll(fields)
    case TupleGetItem(t, _) => NoShadow(t)
    case If(c, t, f) => NoShadow(c) && NoShadow(t) && NoShadow(f)
    case Let(x, value, body) => x !in Bound(body) && NoShadow(value) && NoShadow(body)
    case Function(ps, body) => Elems(ps) !! Bound(body) && NoShadow(body)
    case Call(op, args, _) => NoShadow(op) && NoShadowAll(args)
  }

  predicate NoShadowAll(es: seq<Expr>)
    decreases es, 0
  {
    es == [] || (NoShadow(es[0]) && NoShadowAll(es[1..]))
  }

  /** Renaming keeps size, binders and scoping, and trades `x` for `y` among the free variables. */
  lemma {:induction false} RenameShape(e: Expr, x: VarRef, y: VarRef)
    ensures Size(Subst(e, x, Var(y))) == Size(e)
    ensures Bound(Subst(e, x, Var(y))) == Bound(e)
    ensures NoShadow(Subst(e, x, Var(y))) == NoShadow(e)
    ensures Free(Subst(e, x, Var(y))) <= (Free(e) - {x}) + {y}
    decreases e, 0
  {
    match e
    case Var(_) =>
    case Constant(_) =>
    case OpRef(_) =>
    case Tuple(fields) => RenameShapeAll(fields, x, y);
    case TupleGetItem(t, _) => RenameShape(t, x, y);
    case If(c, t, f) =>
      RenameShape(c, x, y);
      RenameShape(t, x, y);
      RenameShape(f, x, y);
    case Let(_, value, body) =>
      RenameShape(value, x, y);
      RenameShape(body, x, y);
    case Function(_, body) => RenameShape(body, x, y);
    case Call(op, args, _) =>
      RenameShape(op, x, y);
      RenameShapeAll(args, x, y);
  }

  lemma {:induction false} RenameShapeAll(es: seq<Expr>, x: VarRef, y: VarRef)
    ensures SizeAll(SubstAll(es, x, Var(y))) == SizeAll(es)
    ensures BoundAll(SubstAll(es, x, Var(y))) == BoundAll(es)
    ensures NoShadowAll(SubstAll(es, x, Var(y))) == NoShadowAll(es)
    ensures FreeAll(SubstAll(es, x, Var(y))) <= (FreeAll(es) - {x}) + {y}
    decreases es, 0
  {
    if es != [] {
      RenameShape(es[0], x, y);
      RenameShapeAll(es[1..], x, y);
      assert SubstAll(es, x, Var(y))[1..] == SubstAll(es[1..], x, Var(y));
    }
  }

  lemma {:induction false} BindUntouched(I: Interp, env: Env, ps: seq<VarRef>, xs: seq<Value>, v: VarRef)
    requires v !in ps
    ensures Look(I, BindAll(I, env, ps, xs), v) == Look(I, env, v)
    decreases |ps|
  {
    if ps != [] {
      var w := if xs == [] then I.unbound(ps[0]) else xs[0];
      BindUntouched(I, env[ps[0] := w], ps[1..], if xs == [] then [] else xs[1..], v);
    }
  }

  lemma {:induction false} BindCommutes(I: Interp, env: Env, ps: seq<VarRef>, xs: seq<Value>, x: VarRef, w: Value)
    requires x !in ps
    ensures BindAll(I, env[x := w], ps, xs) == BindAll(I, env, ps, xs)[x := w]
    decreases |ps|
  {
    if ps != [] {
      var a := if xs == [] then I.unbound(ps[0]) else xs[0];
      assert env[x := w][ps[0] := a] == env[ps[0] := a][x := w];
      BindCommutes(I, env[ps[0] := a], ps[1..], if xs == [] then [] else xs[1..], x, w);
    }
  }

  /** Renaming `x` to a variable that is not captured is evaluating with `x` bound to its value. */
  lemma {:induction false} RenameMeans(I: Interp, e: Expr, x: VarRef, y: VarRef, env: Env)
    requires Extensional(I) && y !in Bound(e)
    ensures Eval(I, Subst(e, x, Var(y)), env) == Eval(I, e, env[x := Look(I, env, y)])
    decreases e, 0
  {
    hide Extensional, Free;
    var inner := env[x := Look(I, env, y)];
    match e
    case Var(_) =>
    case Constant(_) =>
    case OpRef(_) =>
    case Tuple(fields) => RenameMeansAll(I, fields, x, y, env);
    case TupleGetItem(t, _) => RenameMeans(I, t, x, y, env);
    case If(c, t, f) =>
      RenameMeans(I, c, x, y, env);
      RenameMeans(I, t, x, y, env);
      RenameMeans(I, f, x, y, env);
    case Let(z, value, body) =>
      RenameMeans(I, value, x, y, env);
      var w := Eval(I, value, inner).v;
      if z == x {
        assert inner[x := w] == env[x := w];
      } else {
        RenameMeans(I, body, x, y, env[z := w]);
        assert env[z := w][x := Look(I, env, y)] == inner[z := w];
      }
    case Function(ps, body) => RenameFunction(I, ps, body, x, y, env);
    case Call(op, args, _) =>
      RenameMeans(I, op, x, y, env);
      RenameMeansAll(I, args, x, y, env);
  }

  lemma {:induction false} RenameFunction(I: Interp, ps: seq<VarRef>, body: Expr, x: VarRef, y: VarRef, env: Env)
    requires Extensional(I) && y !in Bound(Function(ps, body))
    ensures Eval(I, Subst(Function(ps, body), x, Var(y)), env)
         == Eval(I, Function(ps, body), env[x := Look(I, env, y)])
    decreases body, 1
  {
    hide Extensional, Eval;
    var inner := env[x := Look(I, env, y)];
    if x in ps {
      DependsOnFree(I, Function(ps, body), env, inner);
    } else {
      var body' := Subst(body, x, Var(y));
      forall xs ensures Eval(I, body', BindAll(I, env, ps, xs)) == Eval(I, body, BindAll(I, inner, ps, xs)) {
        RenameMeans(I, body, x, y, BindAll(I, env, ps, xs));
        BindUntouched(I, env, ps, xs, y);
        BindCommutes(I, env, ps, xs, x, Look(I, env, y));
      }
      SameClosure(I, ps, body', env, body, inner);
    }
  }

  lemma {:induction false} RenameMeansAll(I: Interp, es: seq<Expr>, x: VarRef, y: VarRef, env: Env)
    requires Extensional(I) && y !in BoundAll(es)
    ensures EvalAll(I, SubstAll(es, x, Var(y)), env) == EvalAll(I, es, env[x := Look(I, env, y)])
    decreases es, 0
  {
    if es != [] {
      RenameMeans(I, es[0], x, y, env);
      RenameMeansAll(I, es[1..], x, y, env);
      assert SubstAll(es, x, Var(y))[1..] == SubstAll(es[1..], x, Var(y));
    }
  }
}
