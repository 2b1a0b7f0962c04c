/**
 Relay expressions and their meaning.

 Evaluating an expression gives a value and the list of `device.*` calls made on the way.
 The interpretation of operators, constants, closures and calls through non-operators is a
 parameter, so the results hold for every one of them.
 */
module Relay {
  import opened Base

  /** A variable: its identity and the name it is printed with. */
  datatype VarRef = VarRef(id: nat, hint: string)

  /** A constant: its payload, and the shape and dtype it is printed with. */
  datatype Const = Const(payload: int, shape: seq<int>, dtype: string)

  datatype Expr =
    | Var(v: VarRef)
    | Constant(c: Const)
    | OpRef(name: string)
    | Call(op: Expr, args: seq<Expr>, attrs: int)
    | Function(params: seq<VarRef>, body: Expr)
    | If(cond: Expr, tbranch: Expr, fbranch: Expr)
    | Let(v: VarRef, value: Expr, body: Expr)
    | Tuple(fields: seq<Expr>)
    | TupleGetItem(tuple: Expr, index: int)

  datatype Value = Atom(n: int) | Operator(name: string) | Tup(vs: seq<Value>)
  datatype Event = Event(op: string, attrs: int, operands: seq<Value>)
  type Trace = seq<Event>
  datatype Out = Out(v: Value, tr: Trace)
  datatype Outs = Outs(vs: seq<Value>, tr: Trace)

  datatype Interp = Interp(
    constant: Const -> Value,
    unbound: VarRef -> Value,
    prim: (string, int, seq<Value>) -> Value,
    project: (Value, int) -> Value,
    truthy: Value -> bool,
    close: (seq<VarRef>, seq<Value> -> Out) -> Value,
    apply: (Value, seq<Value>, int) -> Out)

  /** Functions with the same behaviour are the same value. */
  ghost predicate Extensional(I: Interp) {
    forall ps, f: seq<Value> -> Out, g: seq<Value> -> Out ::
      (forall xs :: f(xs) == g(xs)) ==> I.close(ps, f) == I.close(ps, g)
  }

  type Env = map<VarRef, Value>

  function Look(I: Interp, env: Env, v: VarRef): Value {
    if v in env then env[v] else I.unbound(v)
  }

  /** Binds the parameters in order; one without an argument loses its outer value. */
  function BindAll(I: Interp, env: Env, ps: seq<VarRef>, xs: seq<Value>): Env
    decreases |ps|
  {
    if ps == [] then env
    else if xs == [] then BindAll(I, env[ps[0] := I.unbound(ps[0])], ps[1..], [])
    else BindAll(I, env[ps[0] := xs[0]], ps[1..], xs[1..])
  }

  predicate IsDevice(name: string) {
    "device." <= name
  }

  /** Calling an operator computes it, and leaves an event when it is a device operator. */
  function Apply(I: Interp, f: Value, xs: seq<Value>, attrs: int): Out {
    if f.Operator? then
      Out(I.prim(f.name, attrs, xs), if IsDevice(f.name) then [Event(f.name, attrs, xs)] else [])
    else
      I.apply(f, xs, attrs)
  }

  function Eval(I: Interp, e: Expr, env: Env): Out
    decreases e, 0
  {
    match e
    case Var(v) => Out(Look(I, env, v), [])
    case Constant(c) => Out(I.constant(c), [])
    case OpRef(name) => Out(Operator(name), [])
    case Tuple(fields) =>
      var r := EvalAll(I, fields, env);
      Out(Tup(r.vs), r.tr)
    case TupleGetItem(t, i) =>
      var r := Eval(I, t, env);
      Out(if r.v.Tup? && 0 <= i < |r.v.vs| then r.v.vs[i] else I.project(r.v, i), r.tr)
    case If(c, t, f) =>
      var r := Eval(I, c, env);
      var s := if I.truthy(r.v) then Eval(I, t, env) else Eval(I, f, env);
      Out(s.v, r.tr + s.tr)
    case Let(x, value, body) =>
      var r := Eval(I, value, env);
      var s := Eval(I, body, env[x := r.v]);
      Out(s.v, r.tr + s.tr)
    case Function(ps, body) =>
      Out(I.close(ps, Behaviour(I, ps, body, env)), [])
    case Call(op, args, attrs) =>
      var f := Eval(I, op, env);
      var r := EvalAll(I, args, env);
      var s := Apply(I, f.v, r.vs, attrs);
      Out(s.v, f.tr + r.tr + s.tr)
  }

  function Behaviour(I: Interp, ps: seq<VarRef>, body: Expr, env: Env): seq<Value> -> Out
    decreases body, 1
  {
    xs => Eval(I, body, BindAll(I, env, ps, xs))
  }

  function EvalAll(I: Interp, es: seq<Expr>, env: Env): Outs
    decreases es, 0
  {
    if es == [] then Outs([], []) else
    var r := Eval(I, es[0], env);
    var s := EvalAll(I, es[1..], env);
    Outs([r.v] + s.vs, r.tr + s.tr)
  }

  function Free(e: Expr): set<VarRef>
    decreases e, 0
  {
    match e
    case Var(v) => {v}
    case Constant(_) => {}
    case OpRef(_) => {}
    case Tuple(fields) => FreeAll(fields)
    case TupleGetItem(t, _) => Free(t)
    case If(c, t, f) => Free(c) + Free(t) + Free(f)
    case Let(x, value, body) => Free(value) + (Free(body) - {x})
    case Function(ps, body) => Free(body) - Elems(ps)
    case Call(op, args, _) => Free(op) + FreeAll(args)
  }

  function FreeAll(es: seq<Expr>): set<VarRef>
    decreases es, 0
  {
    if es == [] then {} else Free(es[0]) + FreeAll(es[1..])
  }

  // ---------- analyses ----------

  /** May evaluating the expression, or a function inside it, do something besides computing a value? */
  predicate HasSideEffect(e: Expr)
    decreases e, 0
  {
    match e
    case Var(_) => false
    case Constant(_) => false
    case OpRef(_) => true
    case Tuple(fields) => AnySideEffect(fields)
    case TupleGetItem(t, _) => HasSideEffect(t)
    case If(c, t, f) => HasSideEffect(c) || HasSideEffect(t) || HasSideEffect(f)
    case Let(_, value, body) => HasSideEffect(value) || HasSideEffect(body)
    case Function(_, body) => HasSideEffect(body)
    case Call(op, args, _) => !op.OpRef? || op.name == "" || IsDevice(op.name) || AnySideEffect(args)
  }

  predicate AnySideEffect(es: seq<Expr>)
    decreases es, 0
  {
    es != [] && (HasSideEffect(es[0]) || AnySideEffect(es[1..]))
  }

  /** Occurrences of the variable object; binders are not counted and shadowing is ignored. */
  function CountVarUses(e: Expr, x: VarRef): nat
    decreases e, 0
  {
    match e
    case Var(v) => if v == x then 1 else 0
    case Constant(_) => 0
    case OpRef(_) => 0
    case Tuple(fields) => CountAll(fields, x)
    case TupleGetItem(t, _) => CountVarUses(t, x)
    case If(c, t, f) => CountVarUses(c, x) + CountVarUses(t, x) + CountVarUses(f, x)
    case Let(_, value, body) => CountVarUses(value, x) + CountVarUses(body, x)
    case Function(_, body) => CountVarUses(body, x)
    case Call(op, args, _) => CountVarUses(op, x) + CountAll(args, x)
  }

  function CountAll(es: seq<Expr>, x: VarRef): nat
    decreases es, 0
  {
    if es == [] then 0 else CountVarUses(es[0], x) + CountAll(es[1..], x)
  }

  ghost predicate MemoSound(memo: map<Expr, bool>) {
    forall e :: e in memo ==> memo[e] == HasSideEffect(e)
  }

  /** The analysis with its table of answers already known. */
  method VisitEffect(e: Expr, memo: map<Expr, bool>) returns (r: bool, memo': map<Expr, bool>)
    requires MemoSound(memo)
    ensures r == HasSideEffect(e) && MemoSound(memo')
    decreases e, 1
  {
    memo' := memo;
    if e in memo { return memo[e], memo; }
    match e
    case Var(_) => r := false;
    case Constant(_) => r := false;
    case OpRef(_) => r := true;
    case Tuple(fields) => r, memo' := VisitAny(fields, memo');
    case TupleGetItem(t, _) => r, memo' := VisitEffect(t, memo');
    case If(c, t, f) =>
      r, memo' := VisitEffect(c, memo');
      if !r { r, memo' := VisitEffect(t, memo'); }
      if !r { r, memo' := VisitEffect(f, memo'); }
    case Let(_, value, body) =>
      r, memo' := VisitEffect(value, memo');
      if !r { r, memo' := VisitEffect(body, memo'); }
    case Function(_, body) => r, memo' := VisitEffect(body, memo');
    case Call(op, args, _) =>
      if !op.OpRef? || op.name == "" || IsDevice(op.name) {
        r := true;
      } else {
        r, memo' := VisitAny(args, memo');
      }
    memo' := memo'[e := r];
  }

  method VisitAny(es: seq<Expr>, memo: map<Expr, bool>) returns (r: bool, memo': map<Expr, bool>)
    requires MemoSound(memo)
    ensures r == AnySideEffect(es) && MemoSound(memo')
    decreases es, 0
  {
    r, memo' := false, memo;
    assert es[0..] == es;
    for i := 0 to |es|
      invariant !r && MemoSound(memo') && AnySideEffect(es[i..]) == AnySideEffect(es)
    {
      assert es[i..][1..] == es[i + 1..];
      r, memo' := VisitEffect(es[i], memo');
      if r { return; }
    }
  }

  /** The count kept in a running counter. */
  method CountUses(e: Expr, x: VarRef, before: nat) returns (count: nat)
    ensures count == before + CountVarUses(e, x)
    decreases e, 1
  {
    count := before;
    match e
    case Var(v) => if v == x { count := count + 1; }
    case Constant(_) =>
    case OpRef(_) =>
    case Tuple(fields) => count := CountUsesAll(fields, x, count);
    case TupleGetItem(t, _) => count := CountUses(t, x, count);
    case If(c, t, f) =>
      count := CountUses(c, x, count);
      count := CountUses(t, x, count);
      count := CountUses(f, x, count);
    case Let(_, value, body) =>
      count := CountUses(value, x, count);
      count := CountUses(body, x, count);
    case Function(_, body) => count := CountUses(body, x, count);
    case Call(op, args, _) =>
      count := CountUses(op, x, count);
      count := CountUsesAll(args, x, count);
  }

  method CountUsesAll(es: seq<Expr>, x: VarRef, before: nat) returns (count: nat)
    ensures count == before + CountAll(es, x)
    decreases es, 0
  {
    count := before;
    assert es[0..] == es;
    for i := 0 to |es|
      invariant count + CountAll(es[i..], x) == before + CountAll(es, x)
    {
      assert es[i..][1..] == es[i + 1..];
      count := CountUses(es[i], x, count);
    }
  }

  // ---------- what the analyses mean ----------

  /** An expression without side effects makes no device calls. */
  lemma {:induction false} PureHasNoTrace(I: Interp, e: Expr, env: Env)
    requires !HasSideEffect(e)
    ensures Eval(I, e, env).tr == []
    decreases e, 0
  {
    match e
    case Tuple(fields) => AllPureHaveNoTrace(I, fields, env);
    case TupleGetItem(t, _) => PureHasNoTrace(I, t, env);
    case If(c, t, f) =>
      PureHasNoTrace(I, c, env);
      PureHasNoTrace(I, t, env);
      PureHasNoTrace(I, f, env);
    case Let(x, value, body) =>
      PureHasNoTrace(I, value, env);
      PureHasNoTrace(I, body, env[x := Eval(I, value, env).v]);
    case Call(_, args, _) => AllPureHaveNoTrace(I, args, env);
    case _ =>
  }

  lemma {:induction false} AllPureHaveNoTrace(I: Interp, es: seq<Expr>, env: Env)
    requires !AnySideEffect(es)
    ensures EvalAll(I, es, env).tr == []
    decreases es, 0
  {
    if es != [] {
      PureHasNoTrace(I, es[0], env);
      AllPureHaveNoTrace(I, es[1..], env);
    }
  }

  /** The environments give the variables of the set the same values. */
  ghost predicate Agree(I: Interp, a: Env, b: Env, vars: set<VarRef>) {
    forall v :: v in vars ==> Look(I, a, v) == Look(I, b, v)
  }

  lemma AgreeUpdate(I: Interp, a: Env, b: Env, vars: set<VarRef>, y: VarRef, w: Value)
    requires Agree(I, a, b, vars - {y})
    ensures Agree(I, a[y := w], b[y := w], vars)
  {
    var c, d := a[y := w], b[y := w];
    forall v | v in vars ensures Look(I, c, v) == Look(I, d, v) {
      if v != y { assert Look(I, a, v) == Look(I, b, v); }
    }
  }

  lemma {:induction false} AgreeBind(I: Interp, a: Env, b: Env, vars: set<VarRef>, ps: seq<VarRef>, xs: seq<Value>)
    requires Agree(I, a, b, vars - Elems(ps))
    ensures Agree(I, BindAll(I, a, ps, xs), BindAll(I, b, ps, xs), vars)
    decreases |ps|
  {
    if ps == [] {
      assert vars - Elems(ps) == vars;
    } else {
      var w := if xs == [] then I.unbound(ps[0]) else xs[0];
      assert vars - Elems(ps) == vars - Elems(ps[1..]) - {ps[0]};
      AgreeUpdate(I, a, b, vars - Elems(ps[1..]), ps[0], w);
      AgreeBind(I, a[ps[0] := w], b[ps[0] := w], vars, ps[1..], if xs == [] then [] else xs[1..]);
    }
  }

  /** An expression depends on nothing but its free variables. */
  lemma {:induction false} DependsOnFree(I: Interp, e: Expr, a: Env, b: Env)
    requires Extensional(I) && Agree(I, a, b, Free(e))
    ensures Eval(I, e, a) == Eval(I, e, b)
    decreases e, 0
  {
    hide Extensional;
    match e
    case Var(_) =>
    case Constant(_) =>
    case OpRef(_) =>
    case Tuple(fields) => AllDependOnFree(I, fields, a, b);
    case TupleGetItem(t, _) => DependsOnFree(I, t, a, b);
    case If(c, t, f) =>
      DependsOnFree(I, c, a, b);
      DependsOnFree(I, t, a, b);
      DependsOnFree(I, f, a, b);
    case Let(y, value, body) =>
      DependsOnFree(I, value, a, b);
      var w := Eval(I, value, a).v;
      AgreeUpdate(I, a, b, Free(body), y, w);
      DependsOnFree(I, body, a[y := w], b[y := w]);
    case Function(ps, body) =>
      forall xs ensures Eval(I, body, BindAll(I, a, ps, xs)) == Eval(I, body, BindAll(I, b, ps, xs)) {
        AgreeBind(I, a, b, Free(body), ps, xs);
        DependsOnFree(I, body, BindAll(I, a, ps, xs), BindAll(I, b, ps, xs));
      }
      SameClosure(I, ps, body, a, body, b);
    case Call(op, args, _) =>
      DependsOnFree(I, op, a, b);
      AllDependOnFree(I, args, a, b);
  }

  lemma {:induction false} AllDependOnFree(I: Interp, es: seq<Expr>, a: Env, b: Env)
    requires Extensional(I) && Agree(I, a, b, FreeAll(es))
    ensures EvalAll(I, es, a) == EvalAll(I, es, b)
    decreases es, 0
  {
    if es != [] {
      DependsOnFree(I, es[0], a, b);
      AllDependOnFree(I, es[1..], a, b);
    }
  }

  /** A variable that is not counted is not free. */
  lemma {:induction false} UncountedIsNotFree(e: Expr, x: VarRef)
    requires CountVarUses(e, x) == 0
    ensures x !in Free(e)
    decreases e, 0
  {
    match e
    case Var(_) =>
    case Constant(_) =>
    case OpRef(_) =>
    case Tuple(fields) => NoneFree(fields, x);
    case TupleGetItem(t, _) => UncountedIsNotFree(t, x);
    case If(c, t, f) =>
      UncountedIsNotFree(c, x);
      UncountedIsNotFree(t, x);
      UncountedIsNotFree(f, x);
    case Let(_, value, body) =>
      UncountedIsNotFree(value, x);
      UncountedIsNotFree(body, x);
    case Function(_, body) => UncountedIsNotFree(body, x);
    case Call(op, args, _) =>
      UncountedIsNotFree(op, x);
      NoneFree(args, x);
  }

  lemma {:induction false} NoneFree(es: seq<Expr>, x: VarRef)
    requires CountAll(es, x) == 0
    ensures x !in FreeAll(es)
    decreases es, 0
  {
    if es != [] {
      UncountedIsNotFree(es[0], x);
      NoneFree(es[1..], x);
    }
  }

  lemma FunctionValue(I: Interp, ps: seq<VarRef>, body: Expr, env: Env)
    ensures Eval(I, Function(ps, body), env) == Out(I.close(ps, Behaviour(I, ps, body, env)), [])
  {
  }

  /** Bodies that always evaluate alike make the same function value. */
  lemma SameClosure(I: Interp, ps: seq<VarRef>, e: Expr, a: Env, f: Expr, b: Env)
    requires Extensional(I)
    requires forall xs :: Eval(I, e, BindAll(I, a, ps, xs)) == Eval(I, f, BindAll(I, b, ps, xs))
    ensures Eval(I, Function(ps, e), a) == Eval(I, Function(ps, f), b)
  {
    hide Eval, BindAll;
    var p, q := Behaviour(I, ps, e, a), Behaviour(I, ps, f, b);
    assert forall xs :: p(xs) == q(xs);
    assert I.close(ps, p) == I.close(ps, q);
    FunctionValue(I, ps, e, a);
    FunctionValue(I, ps, f, b);
  }
}
