/**
 Common subexpression elimination by a scoped table from expression keys to the variables
 already bound to such a value.
 */
module CommonSubexpr {
  import opened Base
  import opened Relay
  import opened RelaySubst

  /** The pass, for any way of computing keys. */
  function Cse<K>(key: Expr -> K, table: map<K, VarRef>, e: Expr): Expr
    decreases Size(e)
  {
    match e
    case Var(_) => e
    case Constant(_) => e
    case OpRef(_) => e
    case Tuple(fields) => Tuple(CseAll(key, table, fields))
    case TupleGetItem(t, i) => TupleGetItem(Cse(key, table, t), i)
    case If(c, t, f) => If(Cse(key, table, c), Cse(key, table, t), Cse(key, table, f))
    case Function(ps, body) => Function(ps, Cse(key, table, body))
    case Call(op, args, attrs) => Call(Cse(key, table, op), CseAll(key, table, args), attrs)
    case Let(x, value, body) =>
      var v := Cse(key, table, value);
      if HasSideEffect(v) then
        Let(x, v, Cse(key, table, body))
      else if key(v) in table then
        RenameShape(body, x, table[key(v)]);
        Cse(key, table, Subst(body, x, Var(table[key(v)])))
      else
        Let(x, v, Cse(key, table[key(v) := x], body))
  }

  function CseAll<K>(key: Expr -> K, table: map<K, VarRef>, es: seq<Expr>): (r: seq<Expr>)
    ensures |r| == |es|
    decreases SizeAll(es)
  {
    if es == [] then [] else [Cse(key, table, es[0])] + CseAll(key, table, es[1..])
  }

  /** The rewriter, which keeps its table in a field: an entry lives while its body is visited. */
  class Rewriter<K(==)> {
    const key: Expr -> K
    var table: map<K, VarRef>

    constructor (key: Expr -> K)
      ensures this.key == key && table == map[]
    {
      this.key := key;
      table := map[];
    }

    method Mutate(e: Expr) returns (r: Expr)
      modifies this
      ensures table == old(table)
      ensures r == Cse(key, old(table), e)
      decreases Size(e)
    {
      match e
      case Var(_) => r := e;
      case Constant(_) => r := e;
      case OpRef(_) => r := e;
      case Tuple(fields) =>
        var fields' := MutateAll(fields);
        r := Tuple(fields');
      case TupleGetItem(t, i) =>
        var t' := Mutate(t);
        r := TupleGetItem(t', i);
      case If(c, t, f) =>
        var c' := Mutate(c);
        var t' := Mutate(t);
        var f' := Mutate(f);
        r := If(c', t', f');
      case Function(ps, body) =>
        var body' := Mutate(body);
        r := Function(ps, body');
      case Call(op, args, attrs) =>
        var op' := Mutate(op);
        var args' := MutateAll(args);
        r := Call(op', args', attrs);
      case Let(x, value, body) =>
        var v := Mutate(value);
        var impure, _ := VisitEffect(v, map[]);
        if impure {
          var body' := Mutate(body);
          r := Let(x, v, body');
        } else if key(v) in table {
          RenameShape(body, x, table[key(v)]);
          r := Mutate(Subst(body, x, Var(table[key(v)])));
        } else {
          table := table[key(v) := x];
          var body' := Mutate(body);
          table := table - {key(v)};
          r := Let(x, v, body');
        }
    }

    method MutateAll(es: seq<Expr>) returns (r: seq<Expr>)
      modifies this
      ensures table == old(table)
      ensures r == CseAll(key, old(table), es)
      decreases SizeAll(es)
    {
      r := [];
      if es != [] {
        var first := Mutate(es[0]);
        var rest := MutateAll(es[1..]);
        r := [first] + rest;
      }
    }
  }

  // ---------- the vocabulary of a program ----------

  /** Variables, constants and operator calls a program is made of. */
  datatype Vocabulary = Vocabulary(vars: set<VarRef>, consts: set<Const>, calls: set<(string, int)>)

  /** The operator an expression stands for once its bindings are stripped. */
  function HeadOp(e: Expr): Option<string> {
    match e
    case OpRef(name) => Some(name)
    case Let(_, _, body) => HeadOp(body)
    case _ => None
  }

  predicate Over(e: Expr, u: Vocabulary)
    decreases e, 0
  {
    match e
    case Var(v) => v in u.vars
    case Constant(c) => c in u.consts
    case OpRef(_) => true
    case Tuple(fields) => OverAll(fields, u)
    case TupleGetItem(t, _) => Over(t, u)
    case If(c, t, f) => Over(c, u) && Over(t, u) && Over(f, u)
    case Let(x, value, body) => x in u.vars && Over(value, u) && Over(body, u)
    case Function(ps, body) => Elems(ps) <= u.vars && Over(body, u)
    case Call(op, args, attrs) =>
      (HeadOp(op).Some? ==> (HeadOp(op).value, attrs) in u.calls) && Over(op, u) && OverAll(args, u)
  }

  predicate OverAll(es: seq<Expr>, u: Vocabulary)
    decreases es, 0
  {
    es == [] || (Over(es[0], u) && OverAll(es[1..], u))
  }

  lemma {:induction false} RenameOver(e: Expr, x: VarRef, y: VarRef, u: Vocabulary)
    requires Over(e, u) && y in u.vars
    ensures Over(Subst(e, x, Var(y)), u) && HeadOp(Subst(e, x, Var(y))) == HeadOp(e)
    decreases e, 0
  {
    match e
    case Var(_) =>
    case Constant(_) =>
    case OpRef(_) =>
    case Tuple(fields) => RenameOverAll(fields, x, y, u);
    case TupleGetItem(t, _) => RenameOver(t, x, y, u);
    case If(c, t, f) =>
      RenameOver(c, x, y, u);
      RenameOver(t, x, y, u);
      RenameOver(f, x, y, u);
    case Let(_, value, body) =>
      RenameOver(value, x, y, u);
      RenameOver(body, x, y, u);
    case Function(_, body) => RenameOver(body, x, y, u);
    case Call(op, args, _) =>
      RenameOver(op, x, y, u);
      RenameOverAll(args, x, y, u);
  }

  lemma {:induction false} RenameOverAll(es: seq<Expr>, x: VarRef, y: VarRef, u: Vocabulary)
    requires OverAll(es, u) && y in u.vars
    ensures OverAll(SubstAll(es, x, Var(y)), u)
    decreases es, 0
  {
    if es != [] {
      RenameOver(es[0], x, y, u);
      RenameOverAll(es[1..], x, y, u);
      assert SubstAll(es, x, Var(y))[1..] == SubstAll(es[1..], x, Var(y));
    }
  }

  ghost predicate Within<K>(table: map<K, VarRef>, vars: set<VarRef>) {
    forall k :: k in table ==> table[k] in vars
  }

  /** The pass adds no vocabulary, and no free variable that is not in the table. */
  lemma {:induction false} CseVocabulary<K>(
    key: Expr -> K, table: map<K, VarRef>, e: Expr, u: Vocabulary, vars: set<VarRef>)
    requires Over(e, u) && Within(table, u.vars)
    requires Free(e) <= vars && Within(table, vars)
    ensures Over(Cse(key, table, e), u) && HeadOp(Cse(key, table, e)) == HeadOp(e)
    ensures Free(Cse(key, table, e)) <= vars
    decreases Size(e)
  {
    hide HasSideEffect;
    match e
    case Var(_) =>
    case Constant(_) =>
    case OpRef(_) =>
    case Tuple(fields) => CseVocabularyAll(key, table, fields, u, vars);
    case TupleGetItem(t, _) => CseVocabulary(key, table, t, u, vars);
    case If(c, t, f) =>
      CseVocabulary(key, table, c, u, vars);
      CseVocabulary(key, table, t, u, vars);
      CseVocabulary(key, table, f, u, vars);
    case Function(ps, body) => CseVocabulary(key, table, body, u, vars + Elems(ps));
    case Call(op, args, _) =>
      CseVocabulary(key, table, op, u, vars);
      CseVocabularyAll(key, table, args, u, vars);
    case Let(x, value, body) =>
      CseVocabulary(key, table, value, u, vars);
      var v := Cse(key, table, value);
      if HasSideEffect(v) {
        CseVocabulary(key, table, body, u, vars + {x});
      } else if key(v) in table {
        var y := table[key(v)];
        RenameShape(body, x, y);
        RenameOver(body, x, y, u);
        CseVocabulary(key, table, Subst(body, x, Var(y)), u, vars);
      } else {
        CseVocabulary(key, table[key(v) := x], body, u, vars + {x});
      }
  }

  lemma {:induction false} CseVocabularyAll<K>(
    key: Expr -> K, table: map<K, VarRef>, es: seq<Expr>, u: Vocabulary, vars: set<VarRef>)
    requires OverAll(es, u) && Within(table, u.vars)
    requires FreeAll(es) <= vars && Within(table, vars)
    ensures OverAll(CseAll(key, table, es), u)
    ensures FreeAll(CseAll(key, table, es)) <= vars
    decreases SizeAll(es)
  {
    if es != [] {
      CseVocabulary(key, table, es[0], u, vars);
      CseVocabularyAll(key, table, es[1..], u, vars);
      assert CseAll(key, table, es)[1..] == CseAll(key, table, es[1..]);
    }
  }

  // ---------- meaning ----------

  /** Pure expressions of the vocabulary with the same key mean the same. */
  ghost predicate KeySound<K(!new)>(I: Interp, key: Expr -> K, u: Vocabulary) {
    forall d, e, env ::
      Over(d, u) && Over(e, u) && !HasSideEffect(d) && !HasSideEffect(e) && key(d) == key(e)
      ==> Eval(I, d, env) == Eval(I, e, env)
  }

  /** The table's variable is in scope and holds the value of the expression the key was taken from. */
  ghost predicate Entry<K(!new)>(
    I: Interp, key: Expr -> K, k: K, y: VarRef, rep: Expr, env: Env, u: Vocabulary, bound: set<VarRef>)
  {
    !HasSideEffect(rep) && Over(rep, u) && key(rep) == k
    && y in u.vars && y !in bound && Free(rep) !! bound
    && Eval(I, rep, env) == Out(Look(I, env, y), [])
  }

  ghost predicate TableSound<K(!new)>(
    I: Interp, key: Expr -> K, table: map<K, VarRef>, reps: map<K, Expr>, env: Env, u: Vocabulary,
    bound: set<VarRef>)
  {
    forall k :: k in table ==> k in reps && Entry(I, key, k, table[k], reps[k], env, u, bound)
  }

  /** Binding variables that no entry mentions keeps the table sound. */
  lemma TableFrame<K(!new)>(
    I: Interp, key: Expr -> K, table: map<K, VarRef>, reps: map<K, Expr>, env: Env, env': Env, u: Vocabulary,
    bound: set<VarRef>, bound': set<VarRef>)
    requires Extensional(I) && TableSound(I, key, table, reps, env, u, bound) && bound' <= bound
    requires forall v :: v !in bound ==> Look(I, env, v) == Look(I, env', v)
    ensures TableSound(I, key, table, reps, env', u, bound')
  {
    hide Extensional, Eval, Free, Over, HasSideEffect, Look;
    forall k | k in table ensures Entry(I, key, k, table[k], reps[k], env', u, bound') {
      assert Entry(I, key, k, table[k], reps[k], env, u, bound);
      DependsOnFree(I, reps[k], env, env');
    }
  }

  /** A pure value just bound to a fresh variable may be entered in the table. */
  lemma TableEnter<K(!new)>(
    I: Interp, key: Expr -> K, table: map<K, VarRef>, reps: map<K, Expr>, env: Env, u: Vocabulary, bound: set<VarRef>,
    x: VarRef, v: Expr, inner: set<VarRef>)
    requires Extensional(I) && TableSound(I, key, table, reps, env, u, bound)
    requires inner <= bound && x in bound && x !in inner && x in u.vars
    requires !HasSideEffect(v) && Over(v, u) && Free(v) !! inner && x !in Free(v)
    ensures TableSound(I, key, table[key(v) := x], reps[key(v) := v], env[x := Eval(I, v, env).v], u, inner)
  {
    hide Extensional, Eval, Free, Over, HasSideEffect;
    var env' := env[x := Eval(I, v, env).v];
    assert forall w :: w != x ==> Look(I, env, w) == Look(I, env', w);
    TableFrame(I, key, table, reps, env, env', u, bound, inner);
    PureHasNoTrace(I, v, env);
    DependsOnFree(I, v, env, env');
    assert Eval(I, v, env) == Out(Eval(I, v, env).v, []);
    assert Entry(I, key, key(v), x, v, env', u, inner);
  }

  /** What the induction carries: `bound` holds every binder still to be met. */
  ghost predicate Ready<K(!new)>(
    I: Interp, key: Expr -> K, table: map<K, VarRef>, reps: map<K, Expr>, env: Env, u: Vocabulary,
    bound: set<VarRef>)
  {
    Extensional(I) && KeySound(I, key, u) && TableSound(I, key, table, reps, env, u, bound)
  }

  lemma TableIsWithin<K(!new)>(
    I: Interp, key: Expr -> K, table: map<K, VarRef>, reps: map<K, Expr>, env: Env, u: Vocabulary, bound: set<VarRef>)
    requires TableSound(I, key, table, reps, env, u, bound)
    ensures Within(table, u.vars - bound)
  {
    hide Eval, Free, Over, HasSideEffect, Look;
    forall k | k in table ensures table[k] in u.vars - bound {
      assert Entry(I, key, k, table[k], reps[k], env, u, bound);
    }
  }

  /** The rewritten value uses the program's vocabulary and no binder still to be met. */
  lemma RewrittenValue<K(!new)>(
    I: Interp, key: Expr -> K, table: map<K, VarRef>, reps: map<K, Expr>, value: Expr, env: Env, u: Vocabulary,
    bound: set<VarRef>)
    requires TableSound(I, key, table, reps, env, u, bound)
    requires Over(value, u) && Free(value) !! bound
    ensures Over(Cse(key, table, value), u) && Free(Cse(key, table, value)) !! bound
  {
    hide TableSound, Over, Free, Cse;
    TableIsWithin(I, key, table, reps, env, u, bound);
    CseVocabulary(key, table, value, u, Free(value) + table.Values);
  }

  /** The variable found in the table holds the value about to be bound. */
  lemma Reuse<K(!new)>(
    I: Interp, key: Expr -> K, table: map<K, VarRef>, reps: map<K, Expr>, v: Expr, env: Env, u: Vocabulary,
    bound: set<VarRef>)
    requires Ready(I, key, table, reps, env, u, bound)
    requires Over(v, u) && !HasSideEffect(v) && key(v) in table
    ensures table[key(v)] in u.vars - bound
    ensures Eval(I, v, env) == Out(Look(I, env, table[key(v)]), [])
  {
    hide Extensional, Eval, Free, Over, HasSideEffect, Look;
    assert Entry(I, key, key(v), table[key(v)], reps[key(v)], env, u, bound);
  }

  lemma {:induction false} CseKeeps<K(!new)>(
    I: Interp, key: Expr -> K, table: map<K, VarRef>, reps: map<K, Expr>, e: Expr, env: Env, u: Vocabulary,
    bound: set<VarRef>)
    requires Ready(I, key, table, reps, env, u, bound)
    requires Over(e, u) && NoShadow(e) && Bound(e) <= bound && Free(e) !! bound
    ensures Eval(I, Cse(key, table, e), env) == Eval(I, e, env)
    decreases Size(e), 1
  {
    hide Ready, HasSideEffect, Look, BindAll, Apply;
    match e
    case Var(_) =>
    case Constant(_) =>
    case OpRef(_) =>
    case Tuple(fields) => CseKeepsAll(I, key, table, reps, fields, env, u, bound);
    case TupleGetItem(t, _) => CseKeeps(I, key, table, reps, t, env, u, bound);
    case If(c, t, f) =>
      CseKeeps(I, key, table, reps, c, env, u, bound);
      CseKeeps(I, key, table, reps, t, env, u, bound);
      CseKeeps(I, key, table, reps, f, env, u, bound);
    case Function(ps, body) => CseKeepsFunction(I, key, table, reps, ps, body, env, u, bound);
    case Call(op, args, _) =>
      CseKeeps(I, key, table, reps, op, env, u, bound);
      CseKeepsAll(I, key, table, reps, args, env, u, bound);
    case Let(x, value, body) => CseKeepsLet(I, key, table, reps, x, value, body, env, u, bound);
  }

  lemma {:induction false} CseKeepsAll<K(!new)>(
    I: Interp, key: Expr -> K, table: map<K, VarRef>, reps: map<K, Expr>, es: seq<Expr>, env: Env, u: Vocabulary,
    bound: set<VarRef>)
    requires Ready(I, key, table, reps, env, u, bound)
    requires OverAll(es, u) && NoShadowAll(es) && BoundAll(es) <= bound && FreeAll(es) !! bound
    ensures EvalAll(I, CseAll(key, table, es), env) == EvalAll(I, es, env)
    decreases SizeAll(es), 1
  {
    hide Ready, Eval, Cse;
    if es != [] {
      CseKeeps(I, key, table, reps, es[0], env, u, bound);
      CseKeepsAll(I, key, table, reps, es[1..], env, u, bound);
      assert CseAll(key, table, es)[1..] == CseAll(key, table, es[1..]);
    }
  }

  lemma {:induction false} CseKeepsFunction<K(!new)>(
    I: Interp, key: Expr -> K, table: map<K, VarRef>, reps: map<K, Expr>, ps: seq<VarRef>, body: Expr, env: Env,
    u: Vocabulary, bound: set<VarRef>)
    requires Ready(I, key, table, reps, env, u, bound)
    requires Over(body, u) && NoShadow(body) && Elems(ps) <= bound
    requires Bound(body) <= bound - Elems(ps) && Free(body) !! bound - Elems(ps)
    ensures Eval(I, Function(ps, Cse(key, table, body)), env) == Eval(I, Function(ps, body), env)
    decreases Size(body), 2
  {
    hide Extensional, KeySound, TableSound, Eval, BindAll, Cse, Over, NoShadow, Bound, Free;
    forall xs
      ensures Eval(I, Cse(key, table, body), BindAll(I, env, ps, xs)) == Eval(I, body, BindAll(I, env, ps, xs))
    {
      var env' := BindAll(I, env, ps, xs);
      forall v | v !in bound ensures Look(I, env, v) == Look(I, env', v) {
        BindUntouched(I, env, ps, xs, v);
      }
      TableFrame(I, key, table, reps, env, env', u, bound, bound - Elems(ps));
      CseKeeps(I, key, table, reps, body, env', u, bound - Elems(ps));
    }
    SameClosure(I, ps, Cse(key, table, body), env, body, env);
  }

  lemma {:induction false} CseKeepsLet<K(!new)>(
    I: Interp, key: Expr -> K, table: map<K, VarRef>, reps: map<K, Expr>, x: VarRef, value: Expr, body: Expr,
    env: Env, u: Vocabulary, bound: set<VarRef>)
    requires Ready(I, key, table, reps, env, u, bound)
    requires Over(Let(x, value, body), u) && NoShadow(Let(x, value, body))
    requires Bound(Let(x, value, body)) <= bound && Free(Let(x, value, body)) !! bound
    ensures Eval(I, Cse(key, table, Let(x, value, body)), env) == Eval(I, Let(x, value, body), env)
    decreases Size(Let(x, value, body)), 0
  {
    hide Extensional, KeySound, TableSound, HasSideEffect;
    CseKeeps(I, key, table, reps, value, env, u, bound);
    RewrittenValue(I, key, table, reps, value, env, u, bound);
    var v := Cse(key, table, value);
    var env' := env[x := Eval(I, v, env).v];
    var inner := bound - {x};
    if HasSideEffect(v) {
      TableFrame(I, key, table, reps, env, env', u, bound, inner);
      CseKeeps(I, key, table, reps, body, env', u, inner);
    } else if key(v) in table {
      var y := table[key(v)];
      Reuse(I, key, table, reps, v, env, u, bound);
      RenameShape(body, x, y);
      RenameOver(body, x, y, u);
      CseKeeps(I, key, table, reps, Subst(body, x, Var(y)), env, u, bound);
      RenameMeans(I, body, x, y, env);
    } else {
      TableEnter(I, key, table, reps, env, u, bound, x, v, inner);
      CseKeeps(I, key, table[key(v) := x], reps[key(v) := v], body, env', u, inner);
    }
  }

  /**
   The pass keeps the value and the sequence of device calls of every expression in which no
   variable is bound again in its own scope or is both free and bound.
   */
  lemma CsePreserves<K(!new)>(I: Interp, key: Expr -> K, e: Expr, env: Env, u: Vocabulary)
    requires Extensional(I) && KeySound(I, key, u) && Over(e, u)
    requires NoShadow(e) && Free(e) !! Bound(e)
    ensures Eval(I, Cse(key, map[], e), env) == Eval(I, e, env)
  {
    CseKeeps(I, key, map[], map[], e, env, u, Bound(e));
  }

  // ---------- nothing is left to merge ----------

  /**
   No binding of a pure value repeats a key of an enclosing pure binding, or of `keys`, be it
   in values, branches, arguments or functions.
   */
  predicate Merged<K(==)>(key: Expr -> K, keys: set<K>, e: Expr)
    decreases e, 0
  {
    match e
    case Var(_) => true
    case Constant(_) => true
    case OpRef(_) => true
    case Tuple(fields) => AllMerged(key, keys, fields)
    case TupleGetItem(t, _) => Merged(key, keys, t)
    case If(c, t, f) => Merged(key, keys, c) && Merged(key, keys, t) && Merged(key, keys, f)
    case Function(_, body) => Merged(key, keys, body)
    case Call(op, args, _) => Merged(key, keys, op) && AllMerged(key, keys, args)
    case Let(_, value, body) =>
      Merged(key, keys, value)
      && if HasSideEffect(value) then Merged(key, keys, body)
         else key(value) !in keys && Merged(key, keys + {key(value)}, body)
  }

  predicate AllMerged<K(==)>(key: Expr -> K, keys: set<K>, es: seq<Expr>)
    decreases es, 0
  {
    es == [] || (Merged(key, keys, es[0]) && AllMerged(key, keys, es[1..]))
  }

  /** The pass leaves nothing to merge. */
  lemma {:induction false} CseMerges<K>(key: Expr -> K, table: map<K, VarRef>, e: Expr)
    ensures Merged(key, table.Keys, Cse(key, table, e))
    decreases Size(e)
  {
    hide HasSideEffect;
    match e
    case Var(_) =>
    case Constant(_) =>
    case OpRef(_) =>
    case Tuple(fields) => CseMergesAll(key, table, fields);
    case TupleGetItem(t, _) => CseMerges(key, table, t);
    case If(c, t, f) =>
      CseMerges(key, table, c);
      CseMerges(key, table, t);
      CseMerges(key, table, f);
    case Function(_, body) => CseMerges(key, table, body);
    case Call(op, args, _) =>
      CseMerges(key, table, op);
      CseMergesAll(key, table, args);
    case Let(x, value, body) =>
      CseMerges(key, table, value);
      var v := Cse(key, table, value);
      if HasSideEffect(v) {
        CseMerges(key, table, body);
      } else if key(v) in table {
        RenameShape(body, x, table[key(v)]);
        CseMerges(key, table, Subst(body, x, Var(table[key(v)])));
      } else {
        CseMerges(key, table[key(v) := x], body);
        assert table[key(v) := x].Keys == table.Keys + {key(v)};
      }
  }

  lemma {:induction false} CseMergesAll<K>(key: Expr -> K, table: map<K, VarRef>, es: seq<Expr>)
    ensures AllMerged(key, table.Keys, CseAll(key, table, es))
    decreases SizeAll(es)
  {
    if es != [] {
      CseMerges(key, table, es[0]);
      CseMergesAll(key, table, es[1..]);
      assert CseAll(key, table, es)[1..] == CseAll(key, table, es[1..]);
    }
  }

  lemma {:induction false} MergedIsFixed<K>(key: Expr -> K, table: map<K, VarRef>, e: Expr)
    requires Merged(key, table.Keys, e)
    ensures Cse(key, table, e) == e
    decreases e, 0
  {
    hide HasSideEffect;
    match e
    case Var(_) =>
    case Constant(_) =>
    case OpRef(_) =>
    case Tuple(fields) => AllMergedFixed(key, table, fields);
    case TupleGetItem(t, _) => MergedIsFixed(key, table, t);
    case If(c, t, f) =>
      MergedIsFixed(key, table, c);
      MergedIsFixed(key, table, t);
      MergedIsFixed(key, table, f);
    case Function(_, body) => MergedIsFixed(key, table, body);
    case Call(op, args, _) =>
      MergedIsFixed(key, table, op);
      AllMergedFixed(key, table, args);
    case Let(x, value, body) =>
      MergedIsFixed(key, table, value);
      if HasSideEffect(value) {
        MergedIsFixed(key, table, body);
      } else {
        assert table[key(value) := x].Keys == table.Keys + {key(value)};
        MergedIsFixed(key, table[key(value) := x], body);
      }
  }

  lemma {:induction false} AllMergedFixed<K>(key: Expr -> K, table: map<K, VarRef>, es: seq<Expr>)
    requires AllMerged(key, table.Keys, es)
    ensures CseAll(key, table, es) == es
    decreases es, 0
  {
    if es != [] {
      MergedIsFixed(key, table, es[0]);
      AllMergedFixed(key, table, es[1..]);
    }
  }

  lemma NoKeys<K>()
    ensures var none: map<K, VarRef> := map[]; none.Keys == {}
  {
  }

  /** The pass changes an expression exactly when there is something to merge. */
  lemma CseFixes<K>(key: Expr -> K, e: Expr)
    ensures Cse(key, map[], e) == e <==> Merged(key, {}, e)
  {
    NoKeys<K>();
    CseMerges(key, map[], e);
    if Merged(key, {}, e) { MergedIsFixed(key, map[], e); }
  }

  /** A second pass changes nothing. */
  lemma CseIdempotent<K>(key: Expr -> K, e: Expr)
    ensures Cse(key, map[], Cse(key, map[], e)) == Cse(key, map[], e)
  {
    NoKeys<K>();
    CseMerges(key, map[], e);
    CseFixes(key, Cse(key, map[], e));
  }

  /** In a function too: of two calls with the same operands the second one is dropped. */
  lemma SecondCallDropped<K>(key: Expr -> K, x: VarRef, y: VarRef, a: VarRef, b: VarRef, name: string, use: string)
    requires x != y && name != "" && !IsDevice(name)
    ensures var twice := Call(OpRef(name), [Var(a), Var(b)], 0);
      var f := Function([a, b], Let(x, twice, Let(y, twice, Call(OpRef(use), [Var(x), Var(y)], 0))));
      Cse(key, map[], f) == Function([a, b], Let(x, twice, Call(OpRef(use), [Var(x), Var(x)], 0)))
  {
    var twice := Call(OpRef(name), [Var(a), Var(b)], 0);
    var inner := Call(OpRef(use), [Var(x), Var(y)], 0);
    var merged := Call(OpRef(use), [Var(x), Var(x)], 0);
    var table: map<K, VarRef> := map[key(twice) := x];
    CallFixed(key, map[], name, a, b, y, x);
    CallFixed(key, table, name, a, b, y, x);
    CallFixed(key, table, use, x, x, y, x);
    CallFixed(key, table, use, x, y, y, x);
    hide CseAll, SubstAll;
    assert !HasSideEffect(twice);
    assert Cse(key, table, Let(y, twice, inner)) == merged;
    assert Cse(key, map[], Let(x, twice, Let(y, twice, inner))) == Let(x, twice, merged);
  }

  lemma CallFixed<K>(
    key: Expr -> K, table: map<K, VarRef>, name: string, a: VarRef, b: VarRef, y: VarRef, x: VarRef)
    ensures var e := Call(OpRef(name), [Var(a), Var(b)], 0);
      Cse(key, table, e) == e && (HasSideEffect(e) <==> name == "" || IsDevice(name))
      && Subst(e, y, Var(x)) == Call(OpRef(name), [Var(if a == y then x else a), Var(if b == y then x else b)], 0)
  {
    TwoVars(key, table, a, b, y, x);
    assert Cse(key, table, OpRef(name)) == OpRef(name) && Subst(OpRef(name), y, Var(x)) == OpRef(name);
  }

  lemma TwoVars<K>(key: Expr -> K, table: map<K, VarRef>, a: VarRef, b: VarRef, y: VarRef, x: VarRef)
    ensures CseAll(key, table, [Var(a), Var(b)]) == [Var(a), Var(b)] && !AnySideEffect([Var(a), Var(b)])
    ensures SubstAll([Var(a), Var(b)], y, Var(x)) == [Var(if a == y then x else a), Var(if b == y then x else b)]
  {
    OneVar(key, table, b, y, x);
    var args := [Var(a), Var(b)];
    assert args[0] == Var(a) && args[1..] == [Var(b)];
    assert Cse(key, table, Var(a)) == Var(a) && !HasSideEffect(Var(a));
  }

  lemma OneVar<K>(key: Expr -> K, table: map<K, VarRef>, b: VarRef, y: VarRef, x: VarRef)
    ensures CseAll(key, table, [Var(b)]) == [Var(b)] && !AnySideEffect([Var(b)])
    ensures SubstAll([Var(b)], y, Var(x)) == [Var(if b == y then x else b)]
  {
    var args := [Var(b)];
    assert args[0] == Var(b) && args[1..] == [];
    assert CseAll(key, table, []) == [] && SubstAll([], y, Var(x)) == [] && !AnySideEffect([]);
  }
}
