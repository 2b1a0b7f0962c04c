/** What integer expressions mean in the body of a tensor, for the operators that are built from them. */
module Meaning {
  import opened Base
  import opened Tir
  import opened Te
  import opened LoopNests

  lemma {:induction false} ConstLoads(e: PrimExpr, S: set<nat>)
    requires IsConst(e)
    ensures LoadsIn(e, S)
  {
    if e.Binary? {
      ConstLoads(e.a, S);
      ConstLoads(e.b, S);
    }
  }

  lemma {:induction false} AllLoads(es: seq<PrimExpr>, S: set<nat>)
    requires forall k :: 0 <= k < |es| ==> LoadsIn(es[k], S)
    ensures AllLoadIn(es, S)
  {
    if es != [] { AllLoads(es[1..], S); }
  }

  /** The expression evaluates to the integer. */
  ghost predicate Means(I: Interp, g: Graph, inp: Inputs, t: nat, e: PrimExpr, env: Env, n: int) {
    Acyclic(g) && t <= |g| && LoadsIn(e, Below(t)) && DenExpr(I, g, inp, t, e, env) == Some(IntV(n))
  }

  lemma BinaryMeans(
    I: Interp, g: Graph, inp: Inputs, t: nat, op: BinOp, a: PrimExpr, b: PrimExpr, env: Env, x: int, y: int)
    requires ExactInts(I) && HasMeaning(op, y) && Means(I, g, inp, t, a, env, x) && Means(I, g, inp, t, b, env, y)
    ensures Means(I, g, inp, t, Binary(op, a, b), env, Arith(op, x, y))
  {
    hide Acyclic, ExactInts, Arith, HasMeaning;
    ArithIs(I, op, x, y);
  }

  lemma SumMeans(I: Interp, g: Graph, inp: Inputs, t: nat, a: PrimExpr, b: PrimExpr, env: Env, x: int, y: int)
    requires ExactInts(I) && Means(I, g, inp, t, a, env, x) && Means(I, g, inp, t, b, env, y)
    ensures Means(I, g, inp, t, Binary(Add, a, b), env, x + y)
    ensures Means(I, g, inp, t, Binary(Sub, a, b), env, x - y)
  {
    hide Means, ExactInts;
    BinaryMeans(I, g, inp, t, Add, a, b, env, x, y);
    BinaryMeans(I, g, inp, t, Sub, a, b, env, x, y);
  }

  lemma {:induction false} ConstMeans(I: Interp, g: Graph, inp: Inputs, t: nat, e: PrimExpr, env: Env)
    requires ExactInts(I) && Acyclic(g) && t <= |g| && IsConst(e)
    ensures Means(I, g, inp, t, e, env, ConstValue(e))
  {
    hide Acyclic, ExactInts, Arith;
    ConstLoads(e, Below(t));
    if e.Binary? {
      ConstMeans(I, g, inp, t, e.a, env);
      ConstMeans(I, g, inp, t, e.b, env);
      ConstSame(e.b, map[]);
      ArithIs(I, e.op, ConstValue(e.a), ConstValue(e.b));
    }
  }

  lemma VarMeans(I: Interp, g: Graph, inp: Inputs, t: nat, env: Env, vars: seq<VarId>, idx: seq<int>, k: nat)
    requires Acyclic(g) && t <= |g| && Bound(env, vars, idx) && k < |vars|
    ensures Means(I, g, inp, t, Var(vars[k]), env, idx[k])
  {
    hide Acyclic;
  }

  lemma LessMeans(I: Interp, g: Graph, inp: Inputs, t: nat, a: PrimExpr, b: PrimExpr, env: Env, x: int, y: int)
    requires ExactInts(I) && Means(I, g, inp, t, a, env, x) && Means(I, g, inp, t, b, env, y)
    ensures LoadsIn(Binary(LT, a, b), Below(t)) && DenExpr(I, g, inp, t, Binary(LT, a, b), env).Some?
    ensures I.truthy(DenExpr(I, g, inp, t, Binary(LT, a, b), env).value) <==> x < y
  {
    hide Acyclic;
  }

  lemma {:induction false} AllMean(I: Interp, g: Graph, inp: Inputs, t: nat, es: seq<PrimExpr>, env: Env, ns: seq<int>)
    requires Acyclic(g) && t <= |g| && AllLoadIn(es, Below(t)) && |ns| == |es|
    requires forall k :: 0 <= k < |es| ==> Means(I, g, inp, t, es[k], env, ns[k])
    ensures DenAll(I, g, inp, t, es, env).Some? && Ints(DenAll(I, g, inp, t, es, env).value) == Some(ns)
    decreases |es|
  {
    hide DenExpr, Acyclic, LoadsIn;
    if es != [] {
      AllMean(I, g, inp, t, es[1..], env, ns[1..]);
      var rest := DenAll(I, g, inp, t, es[1..], env).value;
      var all := DenAll(I, g, inp, t, es, env).value;
      assert all == [IntV(ns[0])] + rest;
      assert all[1..] == rest;
      assert [ns[0]] + ns[1..] == ns;
    }
  }

  lemma LoadMeans(I: Interp, g: Graph, inp: Inputs, t: nat, d: nat, es: seq<PrimExpr>, env: Env, ns: seq<int>)
    requires Acyclic(g) && t <= |g| && d < t && LoadsIn(ProducerLoad(d, es), Below(t)) && |ns| == |es|
    requires forall k :: 0 <= k < |es| ==> Means(I, g, inp, t, es[k], env, ns[k])
    ensures DenExpr(I, g, inp, t, ProducerLoad(d, es), env) == Den(I, g, inp, d, ns)
  {
    hide Acyclic, Den, Means;
    assert AllLoadIn(es, Below(t));
    AllMean(I, g, inp, t, es, env, ns);
  }

  lemma BoundSize(env: Env, vars: seq<VarId>, idx: seq<int>)
    requires Bound(env, vars, idx)
    ensures |vars| == |idx|
  {
  }
}
