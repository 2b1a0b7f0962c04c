/** End-to-end correctness of lowering, and exactly which graphs it accepts. */
module LowerTheorem {
  import opened Base
  import opened Tir
  import opened Te
  import opened IndexSpace
  import opened Lower
  import opened LowerCorrect

  // ---------- the collected order ----------

  /** Every tensor comes after all the tensors it loads. */
  ghost predicate Ordered(g: Graph, topo: seq<nat>)
    requires AllBelow(topo, |g|)
  {
    forall i :: 0 <= i < |topo| ==> Elems(Deps(g[topo[i]])) <= Elems(topo[..i])
  }

  /** `x` is `t` or is loaded, directly or through other tensors, by `t`. */
  ghost predicate Reaches(g: Graph, t: nat, x: nat)
    requires Acyclic(g) && t < |g|
    decreases t
  {
    DepsBelow(g, t);
    x == t || exists i :: 0 <= i < |Deps(g[t])| && Reaches(g, Deps(g[t])[i], x)
  }

  ghost predicate AnyReaches(g: Graph, ds: seq<nat>, x: nat)
    requires Acyclic(g) && AllBelow(ds, |g|)
  {
    exists j :: 0 <= j < |ds| && Reaches(g, ds[j], x)
  }

  ghost predicate PostOrder(g: Graph, topo: seq<nat>) {
    AllBelow(topo, |g|) && NoDup(topo) && Ordered(g, topo)
  }

  /** Collecting from `t` keeps the order, visits `t` once and adds only what `t` reaches. */
  lemma {:induction false} CollectPostOrder(g: Graph, t: nat, topo: seq<nat>)
    requires Acyclic(g) && t < |g| && PostOrder(g, topo)
    ensures PostOrder(g, Collect(g, t, topo))
    ensures topo <= Collect(g, t, topo) && t in Collect(g, t, topo)
    ensures forall x :: x in Collect(g, t, topo) ==> x in topo || Reaches(g, t, x)
    decreases t, 1
  {
    hide Acyclic, Deps;
    if t !in topo {
      DepsBelow(g, t);
      var ds := Deps(g[t]);
      CollectAllPostOrder(g, t, ds, topo);
      NotCollectedEarly(g, t, ds, topo);
      var r := CollectAll(g, t, ds, topo);
      forall i | 0 <= i < |r + [t]|
        ensures Elems(Deps(g[(r + [t])[i]])) <= Elems((r + [t])[..i])
      {
        assert (r + [t])[..i] == r[..i];
        if i == |r| {
          assert r[..i] == r;
          forall d | d in Elems(ds) ensures d in r {
            var j :| 0 <= j < |ds| && ds[j] == d;
          }
        }
      }
    }
  }

  lemma {:induction false} CollectAllPostOrder(g: Graph, bound: nat, ds: seq<nat>, topo: seq<nat>)
    requires Acyclic(g) && bound <= |g| && AllBelow(ds, bound) && PostOrder(g, topo)
    ensures PostOrder(g, CollectAll(g, bound, ds, topo))
    ensures topo <= CollectAll(g, bound, ds, topo)
    ensures forall j :: 0 <= j < |ds| ==> ds[j] in CollectAll(g, bound, ds, topo)
    ensures forall x :: x in CollectAll(g, bound, ds, topo) ==> x in topo || AnyReaches(g, ds, x)
    decreases bound, 0, |ds|
  {
    if ds != [] {
      var mid := Collect(g, ds[0], topo);
      CollectPostOrder(g, ds[0], topo);
      CollectAllPostOrder(g, bound, ds[1..], mid);
      var r := CollectAll(g, bound, ds, topo);
      forall j | 0 <= j < |ds| ensures ds[j] in r {
        if j > 0 {
          assert ds[j] == ds[1..][j - 1];
        }
      }
      forall x | x in r && x !in topo
        ensures AnyReaches(g, ds, x)
      {
        if x !in mid {
          var j :| 0 <= j < |ds[1..]| && Reaches(g, ds[1..][j], x);
          assert Reaches(g, ds[j + 1], x);
        }
      }
    }
  }

  /** An ordered list that contains `t` contains everything `t` reaches. */
  lemma {:induction false} OrderedClosed(g: Graph, topo: seq<nat>, t: nat, x: nat)
    requires Acyclic(g) && PostOrder(g, topo) && t in topo && Reaches(g, t, x)
    ensures x in topo
    decreases t
  {
    if x != t {
      DepsBelow(g, t);
      var i :| 0 <= i < |Deps(g[t])| && Reaches(g, Deps(g[t])[i], x);
      var k :| 0 <= k < |topo| && topo[k] == t;
      var d := Deps(g[t])[i];
      assert d in Elems(Deps(g[topo[k]]));
      assert d in topo[..k];
      OrderedClosed(g, topo, d, x);
    }
  }

  /** The operations collected for the outputs. */
  function Topo(g: Graph, outputs: seq<nat>): seq<nat>
    requires Acyclic(g) && AllBelow(outputs, |g|)
  {
    CollectAll(g, |g|, outputs, [])
  }

  /** The collection visits exactly the tensors the outputs reach, each once, after its loads. */
  lemma TopoFacts(g: Graph, outputs: seq<nat>)
    requires Acyclic(g) && AllBelow(outputs, |g|)
    ensures PostOrder(g, Topo(g, outputs))
    ensures forall j :: 0 <= j < |outputs| ==> outputs[j] in Topo(g, outputs)
    ensures forall x :: x in Topo(g, outputs) <==> AnyReaches(g, outputs, x)
  {
    hide Reaches, Acyclic, Ordered, NoDup, CollectAll, AnyReaches;
    CollectAllPostOrder(g, |g|, outputs, []);
    forall x
      ensures x in Topo(g, outputs) <==> AnyReaches(g, outputs, x)
    {
      if AnyReaches(g, outputs, x) {
        AnyReachesClosed(g, Topo(g, outputs), outputs, x);
      }
    }
  }

  lemma AnyReachesClosed(g: Graph, topo: seq<nat>, ds: seq<nat>, x: nat)
    requires Acyclic(g) && AllBelow(ds, |g|) && PostOrder(g, topo) && AnyReaches(g, ds, x)
    requires forall j :: 0 <= j < |ds| ==> ds[j] in topo
    ensures x in topo
  {
    var j :| 0 <= j < |ds| && Reaches(g, ds[j], x);
    OrderedClosed(g, topo, ds[j], x);
  }

  // ---------- which expressions and operations lower ----------

  /** No reduction below the top, and every load has as many indices as its tensor has axes. */
  predicate Plain(g: Graph, e: PrimExpr)
    decreases e, 0
  {
    match e
    case ProducerLoad(t, indices) => t < |g| && (g[t].dims == [] || |indices| == |g[t].dims|) && AllPlain(g, indices)
    case Binary(_, a, b) => Plain(g, a) && Plain(g, b)
    case Not(a) => Plain(g, a)
    case Select(c, t, f) => Plain(g, c) && Plain(g, t) && Plain(g, f)
    case Call(_, args) => AllPlain(g, args)
    case Load(_, index, pred) => Plain(g, index) && (pred.Some? ==> Plain(g, pred.value))
    case Reduce(_, _, _) => false
    case _ => true
  }

  predicate AllPlain(g: Graph, es: seq<PrimExpr>)
    decreases es, 0
  {
    es == [] || (Plain(g, es[0]) && AllPlain(g, es[1..]))
  }

  lemma {:induction false} LowerExprOk(g: Graph, bufOf: BufferOf, e: PrimExpr)
    ensures LowerExpr(g, bufOf, e).Ok? <==> Plain(g, e) && LoadsIn(e, bufOf.Keys)
    decreases e, 0
  {
    match e
    case ProducerLoad(_, indices) => LowerAllOk(g, bufOf, indices);
    case Binary(_, a, b) => LowerExprOk(g, bufOf, a); LowerExprOk(g, bufOf, b);
    case Not(a) => LowerExprOk(g, bufOf, a);
    case Select(c, t, f) => LowerExprOk(g, bufOf, c); LowerExprOk(g, bufOf, t); LowerExprOk(g, bufOf, f);
    case Call(_, args) => LowerAllOk(g, bufOf, args);
    case Load(_, index, pred) =>
      LowerExprOk(g, bufOf, index);
      if pred.Some? {
        LowerExprOk(g, bufOf, pred.value);
      }
    case _ =>
  }

  lemma {:induction false} LowerAllOk(g: Graph, bufOf: BufferOf, es: seq<PrimExpr>)
    ensures LowerAll(g, bufOf, es).Ok? <==> AllPlain(g, es) && AllLoadIn(es, bufOf.Keys)
    ensures LowerAll(g, bufOf, es).Ok? ==> |LowerAll(g, bufOf, es).value| == |es|
    decreases es, 0
  {
    if es != [] {
      LowerExprOk(g, bufOf, es[0]);
      LowerAllOk(g, bufOf, es[1..]);
    }
  }

  /** One body that is plain, or is a single-source reduction of a plain expression. */
  predicate PlainOp(g: Graph, op: Op) {
    op.Compute? ==>
      && |op.body| == 1
      && (if op.body[0].Reduce? then |op.body[0].source| == 1 && Plain(g, op.body[0].source[0])
          else Plain(g, op.body[0]))
  }

  lemma LowerComputeOk(g: Graph, bufOf: BufferOf, t: nat)
    requires t < |g| && g[t].Compute? && |g[t].axis| == |g[t].dims| && t in bufOf
    ensures LowerCompute(g, bufOf, t).Ok? <==> PlainOp(g, g[t]) && AllLoadIn(g[t].body, bufOf.Keys)
  {
    var op := g[t];
    if |op.body| == 1 {
      var e := op.body[0];
      assert AllLoadIn(op.body, bufOf.Keys) == LoadsIn(e, bufOf.Keys);
      if e.Reduce? {
        if |e.source| == 1 {
          assert AllLoadIn(e.source, bufOf.Keys) == LoadsIn(e.source[0], bufOf.Keys);
          LowerExprOk(g, bufOf, e.source[0]);
        }
      } else {
        LowerExprOk(g, bufOf, e);
      }
    }
  }

  lemma {:induction false} LowerOpsOk(g: Graph, bufOf: BufferOf, topo: seq<nat>)
    requires FreshAxes(g) && AllBelow(topo, |g|)
    ensures LowerOps(g, bufOf, topo).Ok? <==>
      forall i :: 0 <= i < |topo| && g[topo[i]].Compute? ==> LowerCompute(g, bufOf, topo[i]).Ok?
  {
    if topo != [] {
      var n := |topo| - 1;
      LowerOpsOk(g, bufOf, topo[..n]);
      assert forall i :: 0 <= i < n ==> topo[..n][i] == topo[i];
    }
  }

  // ---------- running the statements ----------

  /** Distinct tensors have distinct buffers, and the computed ones have room for their tensor. */
  ghost predicate Layout(g: Graph, bufOf: BufferOf, topo: seq<nat>, mem: Mem) {
    && AllBelow(topo, |g|)
    && (forall t, u :: t in bufOf && u in bufOf && bufOf[t] == bufOf[u] ==> t == u)
    && (forall t :: t in topo && g[t].Compute? ==> t in bufOf && bufOf[t] in mem && |mem[bufOf[t]]| == Size(g[t].shape))
  }

  /** The buffers of the tensors in `ts` hold their tensors; nothing but computed buffers changed. */
  ghost predicate DoneWith(I: Interp, g: Graph, inp: Inputs, bufOf: BufferOf, ts: seq<nat>, before: Mem, after: Mem)
    requires Acyclic(g) && AllBelow(ts, |g|)
  {
    && after.Keys == before.Keys
    && (forall t :: t in ts && t in bufOf ==> Holds(I, g, inp, after, bufOf[t], t))
    && (forall b :: b in before && (forall t :: t in ts && t in bufOf && g[t].Compute? ==> bufOf[t] != b) ==>
          after[b] == before[b])
  }

  /** What running the operations relies on. */
  ghost predicate Runnable(I: Interp, g: Graph, inp: Inputs, bufOf: BufferOf, topo: seq<nat>, mem: Mem) {
    && ExactInts(I) && Acyclic(g) && FreshAxes(g) && PostOrder(g, topo) && Layout(g, bufOf, topo, mem)
    && (forall t :: t in topo ==> Defined(I, g, inp, t))
    && (forall t :: t in topo && t in bufOf && g[t].Placeholder? ==> Holds(I, g, inp, mem, bufOf[t], t))
  }

  lemma {:induction false} ExecSeqAppend(I: Interp, ss: seq<Stmt>, s: Stmt, env: Env, mem: Mem)
    ensures ExecSeq(I, ss + [s], env, mem) == (var m :- ExecSeq(I, ss, env, mem); Exec(I, s, env, m))
    decreases |ss|
  {
    if ss == [] {
      assert ss + [s] == [s] && [s][1..] == [];
      var r := Exec(I, s, env, mem);
      if r.Some? {
        assert ExecSeq(I, [], env, r.value) == Some(r.value);
      }
    } else {
      assert (ss + [s])[1..] == ss[1..] + [s];
      var r := Exec(I, ss[0], env, mem);
      if r.Some? {
        ExecSeqAppend(I, ss[1..], s, env, r.value);
      }
    }
  }

  /** When its turn comes, everything a compute tensor loads is already in its buffer. */
  lemma NextReady(I: Interp, g: Graph, inp: Inputs, bufOf: BufferOf, topo: seq<nat>, n: nat, mem: Mem, m: Mem)
    requires Runnable(I, g, inp, bufOf, topo, mem) && n < |topo| && g[topo[n]].Compute?
    requires LowerCompute(g, bufOf, topo[n]).Ok? && DoneWith(I, g, inp, bufOf, topo[..n], mem, m)
    ensures Ready(I, g, inp, bufOf, m, Elems(Deps(g[topo[n]])), topo[n])
  {
    var t := topo[n];
    var S := Elems(Deps(g[t]));
    assert t in topo;
    FindAllLoadsExact(g[t].body, S);
    LowerComputeOk(g, bufOf, t);
    FindAllLoadsExact(g[t].body, bufOf.Keys);
    assert S <= Elems(topo[..n]);
    forall d | d in S
      ensures d in bufOf && Holds(I, g, inp, m, bufOf[d], d) && bufOf[d] != bufOf[t]
    {
      assert d in topo[..n];
    }
    forall u | u in topo[..n] && u in bufOf && g[u].Compute?
      ensures bufOf[u] != bufOf[t]
    {
      var i :| 0 <= i < n && topo[i] == u;
    }
    assert m[bufOf[t]] == mem[bufOf[t]];
  }

  /** Running the first `n` statements leaves the first `n` tensors in their buffers. */
  lemma {:induction false} RunOps(
    I: Interp, g: Graph, inp: Inputs, bufOf: BufferOf, topo: seq<nat>, n: nat, mem: Mem) returns (m: Mem)
    requires Runnable(I, g, inp, bufOf, topo, mem) && n <= |topo| && LowerOps(g, bufOf, topo[..n]).Ok?
    ensures ExecSeq(I, LowerOps(g, bufOf, topo[..n]).value, map[], mem) == Some(m)
    ensures DoneWith(I, g, inp, bufOf, topo[..n], mem, m)
    decreases n
  {
    hide ExactInts, Acyclic, Defined, DoneWith, Ordered, NoDup, Contents;
    if n == 0 {
      m := mem;
      DoneNone(I, g, inp, bufOf, mem);
      assert topo[..0] == [];
    } else {
      var t := topo[n - 1];
      assert topo[..n][..n - 1] == topo[..n - 1] && topo[..n][n - 1] == t && t in topo;
      assert topo[..n] == topo[..n - 1] + [t];
      var m1 := RunOps(I, g, inp, bufOf, topo, n - 1, mem);
      if g[t].Placeholder? {
        m := m1;
        PlaceholderKept(I, g, inp, bufOf, topo, n - 1, mem, m);
      } else {
        NextReady(I, g, inp, bufOf, topo, n - 1, mem, m1);
        ComputeCorrect(I, g, inp, bufOf, m1, Elems(Deps(g[t])), t);
        m := m1[bufOf[t] := Contents(I, g, inp, t)];
        ExecSeqAppend(I, LowerOps(g, bufOf, topo[..n - 1]).value, LowerCompute(g, bufOf, t).value, map[], mem);
        DoneExtends(I, g, inp, bufOf, topo[..n - 1], t, mem, m1);
      }
    }
  }

  lemma DoneNone(I: Interp, g: Graph, inp: Inputs, bufOf: BufferOf, mem: Mem)
    requires Acyclic(g)
    ensures DoneWith(I, g, inp, bufOf, [], mem, mem)
  {
  }

  lemma PlaceholderKept(I: Interp, g: Graph, inp: Inputs, bufOf: BufferOf, topo: seq<nat>, n: nat, mem: Mem, m: Mem)
    requires Runnable(I, g, inp, bufOf, topo, mem) && n < |topo| && g[topo[n]].Placeholder?
    requires DoneWith(I, g, inp, bufOf, topo[..n], mem, m)
    ensures DoneWith(I, g, inp, bufOf, topo[..n] + [topo[n]], mem, m)
  {
    var t := topo[n];
    assert t in topo;
    if t in bufOf {
      assert Holds(I, g, inp, mem, bufOf[t], t);
      assert m[bufOf[t]] == mem[bufOf[t]];
    }
    forall b | b in mem && (forall u :: u in topo[..n] + [t] && u in bufOf && g[u].Compute? ==> bufOf[u] != b)
      ensures m[b] == mem[b]
    {
      forall u | u in topo[..n] && u in bufOf && g[u].Compute? ensures bufOf[u] != b {
        assert u in topo[..n] + [t];
      }
    }
  }

  lemma DoneExtends(I: Interp, g: Graph, inp: Inputs, bufOf: BufferOf, ts: seq<nat>, t: nat, mem: Mem, m: Mem)
    requires Acyclic(g) && AllBelow(ts, |g|) && t < |g| && t in bufOf && bufOf[t] in mem && g[t].Compute?
    requires forall u :: u in bufOf && bufOf[u] == bufOf[t] ==> u == t
    requires DoneWith(I, g, inp, bufOf, ts, mem, m)
    ensures DoneWith(I, g, inp, bufOf, ts + [t], mem, m[bufOf[t] := Contents(I, g, inp, t)])
  {
    hide Acyclic, Contents;
    var m' := m[bufOf[t] := Contents(I, g, inp, t)];
    assert forall u :: u in ts + [t] <==> u in ts || u == t;
    forall u | u in ts + [t] && u in bufOf
      ensures Holds(I, g, inp, m', bufOf[u], u)
    {
      if u != t {
        assert Holds(I, g, inp, m, bufOf[u], u);
      }
    }
  }

  // ---------- allocations ----------

  function WithAllocs(g: Graph, bufOf: BufferOf, ts: seq<nat>, mem: Mem): Mem
    requires Owned(g, bufOf, ts)
    decreases |ts|
  {
    if ts == [] then mem
    else WithAllocs(g, bufOf, ts[1..], mem[bufOf[ts[0]] := seq(Size(g[ts[0]].shape), _ => None)])
  }

  lemma {:induction false} WithAllocsFacts(g: Graph, bufOf: BufferOf, ts: seq<nat>, mem: Mem)
    requires Owned(g, bufOf, ts)
    requires forall i, j :: 0 <= i < j < |ts| ==> bufOf[ts[i]] != bufOf[ts[j]]
    ensures mem.Keys <= WithAllocs(g, bufOf, ts, mem).Keys
    ensures forall b :: b in mem && (forall i :: 0 <= i < |ts| ==> bufOf[ts[i]] != b) ==>
      WithAllocs(g, bufOf, ts, mem)[b] == mem[b]
    ensures forall i :: 0 <= i < |ts| ==>
      bufOf[ts[i]] in WithAllocs(g, bufOf, ts, mem)
      && |WithAllocs(g, bufOf, ts, mem)[bufOf[ts[i]]]| == Size(g[ts[i]].shape)
    decreases |ts|
  {
    if ts != [] {
      var mem' := mem[bufOf[ts[0]] := seq(Size(g[ts[0]].shape), _ => None)];
      WithAllocsFacts(g, bufOf, ts[1..], mem');
      forall i | 0 <= i < |ts|
        ensures bufOf[ts[i]] in WithAllocs(g, bufOf, ts, mem)
          && |WithAllocs(g, bufOf, ts, mem)[bufOf[ts[i]]]| == Size(g[ts[i]].shape)
      {
        if i > 0 {
          assert ts[i] == ts[1..][i - 1];
        }
      }
      forall b | b in mem && (forall i :: 0 <= i < |ts| ==> bufOf[ts[i]] != b)
        ensures WithAllocs(g, bufOf, ts, mem)[b] == mem[b]
      {
        assert b != bufOf[ts[0]];
        assert forall i :: 0 <= i < |ts[1..]| ==> bufOf[ts[1..][i]] != b;
      }
    }
  }

  lemma {:induction false} AllocSizeIs(I: Interp, dims: seq<Dim>, env: Env, mem: Mem)
    requires ExactInts(I)
    ensures AllocSize(I, dims, env, mem) == Some(Size(Sizes(dims)))
  {
    hide ExactInts, IntExpr, IntValue;
    if dims != [] {
      EvalConst(I, dims[0], env, mem);
      assert Sizes(dims)[1..] == Sizes(dims[1..]);
      AllocSizeIs(I, dims[1..], env, mem);
    }
  }

  function Restrict(m: Mem, keys: set<BufId>): Mem
    requires keys <= m.Keys
  {
    map b | b in keys :: m[b]
  }

  /** The allocated body sees fresh cells, and its local buffers are gone afterwards. */
  lemma {:induction false} RunAllocs(I: Interp, g: Graph, bufOf: BufferOf, ts: seq<nat>, body: Stmt, mem: Mem, m: Mem)
    requires ExactInts(I) && Owned(g, bufOf, ts)
    requires forall i :: 0 <= i < |ts| ==> bufOf[ts[i]] !in mem
    requires forall i, j :: 0 <= i < j < |ts| ==> bufOf[ts[i]] != bufOf[ts[j]]
    requires Exec(I, body, map[], WithAllocs(g, bufOf, ts, mem)) == Some(m)
      && m.Keys == WithAllocs(g, bufOf, ts, mem).Keys
    ensures mem.Keys <= m.Keys && Exec(I, AllocAll(g, bufOf, ts, body), map[], mem) == Some(Restrict(m, mem.Keys))
    decreases |ts|
  {
    hide Size, AllocSize, ExactInts, Release, Restrict;
    WithAllocsFacts(g, bufOf, ts, mem);
    if ts == [] {
      RestrictAll(m);
    } else {
      var b := bufOf[ts[0]];
      var mem' := mem[b := seq(Size(g[ts[0]].shape), _ => None)];
      AllocSizeIs(I, g[ts[0]].dims, map[], mem);
      forall i | 0 <= i < |ts[1..]| ensures bufOf[ts[1..][i]] !in mem' {
        assert ts[1..][i] == ts[i + 1];
      }
      RunAllocs(I, g, bufOf, ts[1..], body, mem', m);
      Released(mem, mem', m, b);
    }
  }

  lemma RestrictAll(m: Mem)
    ensures Restrict(m, m.Keys) == m
  {
  }

  lemma Released(mem: Mem, mem': Mem, m: Mem, b: BufId)
    requires b !in mem && mem'.Keys == mem.Keys + {b} && mem'.Keys <= m.Keys
    ensures Release(mem, Restrict(m, mem'.Keys), b) == Restrict(m, mem.Keys)
  {
  }

  // ---------- the theorem ----------

  /** The caller's side: inputs and constants are in their parameters, outputs have room. */
  ghost predicate CallerMemory(I: Interp, g: Graph, inp: Inputs, given: seq<nat>, outputs: seq<nat>, mem: Mem)
    requires Acyclic(g) && AllBelow(outputs, |g|)
  {
    && (forall b :: b in mem <==> 0 <= b < |given| + |outputs|)
    && (forall i :: 0 <= i < |given| ==> Holds(I, g, inp, mem, i, given[i]))
    && (forall i :: 0 <= i < |outputs| ==> |mem[|given| + i]| == Size(g[outputs[i]].shape))
  }

  /** Outputs are distinct compute tensors. */
  ghost predicate GoodOutputs(g: Graph, outputs: seq<nat>)
    requires AllBelow(outputs, |g|)
  {
    NoDup(outputs) && forall j :: 0 <= j < |outputs| ==> g[outputs[j]].Compute?
  }

  lemma {:induction false} CheckFrom(g: Graph, outputs: seq<nat>, i: nat)
    requires i <= |outputs| && AllBelow(outputs, |g|)
    ensures CheckOutputs(g, outputs, i).None? <==>
      (forall j :: i <= j < |outputs| ==> g[outputs[j]].Compute? && outputs[j] !in outputs[..j])
    decreases |outputs| - i
  {
    if i < |outputs| {
      CheckFrom(g, outputs, i + 1);
    }
  }

  lemma NoDefects(g: Graph, outputs: seq<nat>)
    requires AllBelow(outputs, |g|)
    ensures CheckOutputs(g, outputs, 0).None? <==> GoodOutputs(g, outputs)
  {
    CheckFrom(g, outputs, 0);
    if CheckOutputs(g, outputs, 0).None? {
      forall i, j | 0 <= i < j < |outputs| ensures outputs[i] != outputs[j] {
        assert outputs[i] in outputs[..j];
      }
    }
  }

  ghost predicate Unshared(bufOf: BufferOf) {
    forall t, u :: t in bufOf && u in bufOf && bufOf[t] == bufOf[u] ==> t == u
  }

  /** Parameters first, then intermediates; no two tensors share a buffer. */
  ghost predicate Assigned(g: Graph, given: seq<nat>, outputs: seq<nat>, mids: seq<nat>, bufOf: BufferOf) {
    && Unshared(bufOf)
    && (forall i :: 0 <= i < |given| ==>
          given[i] in bufOf && bufOf[given[i]] < |given| && given[bufOf[given[i]]] == given[i])
    && (forall i :: 0 <= i < |outputs| ==> outputs[i] in bufOf && bufOf[outputs[i]] == |given| + i)
    && (forall i :: 0 <= i < |mids| ==> mids[i] in bufOf && bufOf[mids[i]] == |given| + |outputs| + i)
    && (forall t :: t in bufOf ==> t in given || t in outputs || t in mids)
  }

  /** The kinds of tensors that get buffers do not overlap. */
  ghost predicate Apart(g: Graph, given: seq<nat>, outputs: seq<nat>, mids: seq<nat>) {
    && (forall i :: 0 <= i < |given| ==> given[i] < |g| && g[given[i]].Placeholder?)
    && (forall i :: 0 <= i < |outputs| ==> outputs[i] < |g| && g[outputs[i]].Compute?)
    && (forall i :: 0 <= i < |mids| ==> mids[i] < |g| && g[mids[i]].Compute? && mids[i] !in outputs)
    && NoDup(outputs) && NoDup(mids)
  }

  lemma BufMapAt(owners: seq<nat>, b: nat)
    requires b < |owners| && forall c :: 0 <= c < |owners| && c != b ==> owners[c] != owners[b]
    ensures owners[b] in BufMap(owners) && BufMap(owners)[owners[b]] == b
  {
    BufMapFacts(owners);
    assert owners[b] in Elems(owners);
  }

  lemma AssignedBy(g: Graph, given: seq<nat>, outputs: seq<nat>, mids: seq<nat>)
    requires Apart(g, given, outputs, mids)
    ensures Assigned(g, given, outputs, mids, BufMap(given + outputs + mids))
  {
    var owners := given + outputs + mids;
    var bufOf := BufMap(owners);
    OwnersApart(g, given, outputs, mids);
    BufMapFacts(owners);
    forall i | 0 <= i < |given|
      ensures given[i] in bufOf && bufOf[given[i]] < |given| && given[bufOf[given[i]]] == given[i]
    {
      assert owners[i] == given[i] && given[i] in Elems(owners);
      assert given[i] in bufOf;
    }
    forall b | |given| <= b < |owners| ensures owners[b] in bufOf && bufOf[owners[b]] == b {
      BufMapAt(owners, b);
    }
    forall i | 0 <= i < |outputs| ensures outputs[i] in bufOf && bufOf[outputs[i]] == |given| + i {
      assert owners[|given| + i] == outputs[i];
    }
    forall i | 0 <= i < |mids| ensures mids[i] in bufOf && bufOf[mids[i]] == |given| + |outputs| + i {
      assert owners[|given| + |outputs| + i] == mids[i];
    }
  }

  /** Only placeholders can own several buffers. */
  lemma OwnersApart(g: Graph, given: seq<nat>, outputs: seq<nat>, mids: seq<nat>)
    requires Apart(g, given, outputs, mids)
    ensures var owners := given + outputs + mids;
      forall b, c :: |given| <= b < |owners| && 0 <= c < |owners| && c != b ==> owners[c] != owners[b]
  {
    var owners := given + outputs + mids;
    forall b, c | |given| <= b < |owners| && 0 <= c < |owners| && c != b
      ensures owners[c] != owners[b]
    {
      var o, m := b - |given|, b - |given| - |outputs|;
      if b < |given| + |outputs| {
        assert owners[b] == outputs[o];
      } else {
        assert owners[b] == mids[m];
      }
    }
  }

  /** The buffer assignment that lowering uses. */
  function Buffers(g: Graph, inputs: seq<nat>, constants: seq<nat>, outputs: seq<nat>): BufferOf
    requires ValidCall(g, inputs, constants, outputs) && AllBelow(Topo(g, outputs), |g|)
  {
    BufMap(Owners(g, inputs, constants, outputs, Topo(g, outputs)))
  }

  lemma BufferFacts(g: Graph, inputs: seq<nat>, constants: seq<nat>, outputs: seq<nat>)
    requires ValidCall(g, inputs, constants, outputs) && GoodOutputs(g, outputs)
    ensures PostOrder(g, Topo(g, outputs))
    ensures var mids := Intermediates(g, Topo(g, outputs), outputs);
      && Apart(g, inputs + constants, outputs, mids)
      && Assigned(g, inputs + constants, outputs, mids, Buffers(g, inputs, constants, outputs))
      && Owned(g, Buffers(g, inputs, constants, outputs), mids)
  {
    TopoFacts(g, outputs);
    var topo := Topo(g, outputs);
    var given := inputs + constants;
    var mids := Intermediates(g, topo, outputs);
    IntermediatesFacts(g, topo, outputs);
    forall i | 0 <= i < |given| ensures given[i] < |g| && g[given[i]].Placeholder? {
      assert given[i] in given;
    }
    forall i | 0 <= i < |mids| ensures mids[i] < |g| && g[mids[i]].Compute? && mids[i] !in outputs {
      assert mids[i] in mids;
    }
    AssignedBy(g, given, outputs, mids);
    assert given + outputs + mids == Owners(g, inputs, constants, outputs, topo);
  }

  lemma SeqBodyRuns(I: Interp, ss: seq<Stmt>, env: Env, mem: Mem)
    ensures Exec(I, SeqBody(ss), env, mem) == ExecSeq(I, ss, env, mem)
  {
    if |ss| == 1 {
      assert ss[1..] == [];
      var r := Exec(I, ss[0], env, mem);
      if r.Some? {
        assert ExecSeq(I, ss[1..], env, r.value) == Some(r.value);
      }
    }
  }

  /** Every computed tensor of the order has a buffer of its own among the outputs and intermediates. */
  lemma ComputedBuffers(g: Graph, given: seq<nat>, outputs: seq<nat>, topo: seq<nat>, bufOf: BufferOf)
    requires AllBelow(topo, |g|) && Assigned(g, given, outputs, Intermediates(g, topo, outputs), bufOf)
    ensures forall t :: t in topo && g[t].Compute? ==> t in bufOf && bufOf[t] >= |given|
  {
    var mids := Intermediates(g, topo, outputs);
    IntermediatesFacts(g, topo, outputs);
    forall t | t in topo && g[t].Compute?
      ensures t in bufOf && bufOf[t] >= |given|
    {
      if t in outputs {
        var i :| 0 <= i < |outputs| && outputs[i] == t;
      } else {
        assert t in mids;
        var i :| 0 <= i < |mids| && mids[i] == t;
      }
    }
  }

  lemma LayoutInside(g: Graph, given: seq<nat>, outputs: seq<nat>, topo: seq<nat>, bufOf: BufferOf, mem: Mem)
    requires AllBelow(topo, |g|) && AllBelow(outputs, |g|)
      && Assigned(g, given, outputs, Intermediates(g, topo, outputs), bufOf)
    requires Owned(g, bufOf, Intermediates(g, topo, outputs))
    requires forall b :: b in mem <==> 0 <= b < |given| + |outputs|
    requires forall i :: 0 <= i < |outputs| ==> |mem[|given| + i]| == Size(g[outputs[i]].shape)
    ensures Layout(g, bufOf, topo, WithAllocs(g, bufOf, Intermediates(g, topo, outputs), mem))
    ensures forall b :: b in mem ==>
      b in WithAllocs(g, bufOf, Intermediates(g, topo, outputs), mem)
      && WithAllocs(g, bufOf, Intermediates(g, topo, outputs), mem)[b] == mem[b]
  {
    hide Size, WithAllocs, Intermediates, NoDup;
    var mids := Intermediates(g, topo, outputs);
    IntermediatesFacts(g, topo, outputs);
    WithAllocsFacts(g, bufOf, mids, mem);
    var inner := WithAllocs(g, bufOf, mids, mem);
    forall t | t in topo && g[t].Compute?
      ensures t in bufOf && bufOf[t] in inner && |inner[bufOf[t]]| == Size(g[t].shape)
    {
      if t in outputs {
        var i :| 0 <= i < |outputs| && outputs[i] == t;
        assert bufOf[t] in mem;
      } else {
        assert t in mids;
        var i :| 0 <= i < |mids| && mids[i] == t;
      }
    }
  }

  /** The statements can run in the caller's memory extended by the intermediates. */
  lemma RunnableInside(
    I: Interp, g: Graph, inp: Inputs, given: seq<nat>, outputs: seq<nat>, topo: seq<nat>, bufOf: BufferOf, mem: Mem)
    requires ExactInts(I) && Acyclic(g) && FreshAxes(g) && PostOrder(g, topo) && AllBelow(outputs, |g|)
    requires var mids := Intermediates(g, topo, outputs);
      Apart(g, given, outputs, mids) && Assigned(g, given, outputs, mids, bufOf) && Owned(g, bufOf, mids)
    requires forall t :: t in topo ==> t < |g| && Defined(I, g, inp, t)
    requires CallerMemory(I, g, inp, given, outputs, mem)
    ensures Runnable(I, g, inp, bufOf, topo, WithAllocs(g, bufOf, Intermediates(g, topo, outputs), mem))
  {
    hide Size, WithAllocs, ExactInts, Acyclic, Defined, Contents, NoDup, Ordered;
    LayoutInside(g, given, outputs, topo, bufOf, mem);
    var inner := WithAllocs(g, bufOf, Intermediates(g, topo, outputs), mem);
    forall t | t in topo && t in bufOf && g[t].Placeholder?
      ensures Holds(I, g, inp, inner, bufOf[t], t)
    {
      assert t in given;
      var i :| 0 <= i < |given| && given[i] == t;
      assert Holds(I, g, inp, mem, bufOf[t], given[bufOf[t]]);
    }
  }

  /** The parameters are the buffers of inputs, constants and outputs, in this order, and the counts say how many. */
  predicate Signature(f: PrimFunc, inputs: seq<nat>, constants: seq<nat>, outputs: seq<nat>) {
    && f.inputCount == |inputs| && f.constantCount == |constants| && f.outputCount == |outputs|
    && |f.params| == f.inputCount + f.constantCount + f.outputCount
    && forall b :: 0 <= b < |f.params| ==> f.params[b] == b
  }

  lemma LoweredSignature(g: Graph, inputs: seq<nat>, constants: seq<nat>, outputs: seq<nat>)
    requires ValidCall(g, inputs, constants, outputs) && FreshAxes(g) && Lowered(g, inputs, constants, outputs).Ok?
    ensures Signature(Lowered(g, inputs, constants, outputs).value, inputs, constants, outputs)
  {
  }

  /**
   Compiler correctness.  Whatever the graph, if lowering succeeds then running the lowered
   function from any memory that holds the inputs and constants does not fault -- no access
   is out of bounds and no cell is read before it is written -- and ends with every output
   buffer holding its tensor, row-major, while all other buffers of the caller are unchanged.
   */
  lemma LoweringCorrect(
    I: Interp, g: Graph, inp: Inputs, inputs: seq<nat>, constants: seq<nat>, outputs: seq<nat>, mem: Mem)
    returns (m: Mem)
    requires ExactInts(I) && ValidCall(g, inputs, constants, outputs) && FreshAxes(g)
    requires Lowered(g, inputs, constants, outputs).Ok?
    requires forall t :: t in Topo(g, outputs) ==> t < |g| && Defined(I, g, inp, t)
    requires CallerMemory(I, g, inp, inputs + constants, outputs, mem)
    ensures Signature(Lowered(g, inputs, constants, outputs).value, inputs, constants, outputs)
    ensures var f := Lowered(g, inputs, constants, outputs).value;
      Exec(I, f.body, map[], mem) == Some(m) && m.Keys == mem.Keys
      && (forall b :: 0 <= b < f.inputCount + f.constantCount ==> m[b] == mem[b])
      && OutputsHold(I, g, inp, outputs, f.inputCount + f.constantCount, m)
  {
    hide ExactInts, Acyclic, FreshAxes, Defined, Apart, Assigned, CallerMemory, GoodOutputs, Ordered, NoDup, Lowered;
    hide Owned, OutputsHold, AllBelow;
    LoweredSignature(g, inputs, constants, outputs);
    TopoFacts(g, outputs);
    LoweredBody(g, inputs, constants, outputs);
    BufferFacts(g, inputs, constants, outputs);
    m := RunBody(I, g, inp, inputs + constants, outputs, Topo(g, outputs), Buffers(g, inputs, constants, outputs), mem);
  }

  /** The statements inside their allocations, from the caller's memory. */
  lemma RunBody(
    I: Interp, g: Graph, inp: Inputs, given: seq<nat>, outputs: seq<nat>, topo: seq<nat>, bufOf: BufferOf,
    mem: Mem) returns (m: Mem)
    requires ExactInts(I) && Acyclic(g) && FreshAxes(g) && PostOrder(g, topo) && AllBelow(outputs, |g|)
    requires var mids := Intermediates(g, topo, outputs);
      Apart(g, given, outputs, mids) && Assigned(g, given, outputs, mids, bufOf) && Owned(g, bufOf, mids)
    requires forall t :: t in topo ==> t < |g| && Defined(I, g, inp, t)
    requires forall j :: 0 <= j < |outputs| ==> outputs[j] in topo
    requires CallerMemory(I, g, inp, given, outputs, mem) && LowerOps(g, bufOf, topo).Ok?
    ensures Exec(I, AllocAll(g, bufOf, Intermediates(g, topo, outputs), SeqBody(LowerOps(g, bufOf, topo).value)),
      map[], mem) == Some(m)
    ensures m.Keys == mem.Keys
    ensures forall b :: 0 <= b < |given| ==> b in mem && m[b] == mem[b]
    ensures OutputsHold(I, g, inp, outputs, |given|, m)
  {
    hide ExactInts, Acyclic, FreshAxes, Defined, Apart, Assigned, CallerMemory, DoneWith, Ordered, NoDup, Holds;
    hide OutputsHold, WithAllocs;
    var mids := Intermediates(g, topo, outputs);
    var after := RunInside(I, g, inp, given, outputs, topo, bufOf, mem);
    ParamsAfter(I, g, inp, given, outputs, topo, bufOf, mem, after);
    LocalsFresh(I, g, inp, given, outputs, mids, bufOf, mem);
    DoneKeys(I, g, inp, bufOf, topo, WithAllocs(g, bufOf, mids, mem), after);
    RunAllocs(I, g, bufOf, mids, SeqBody(LowerOps(g, bufOf, topo).value), mem, after);
    m := Restrict(after, mem.Keys);
    forall i | 0 <= i < |outputs|
      ensures OutputAt(I, g, inp, outputs, |given|, m, after, i)
    {
      assert OutputAt(I, g, inp, outputs, |given|, mem, after, i);
    }
    OutputCells(I, g, inp, outputs, |given|, after, m);
  }

  lemma DoneKeys(I: Interp, g: Graph, inp: Inputs, bufOf: BufferOf, ts: seq<nat>, before: Mem, after: Mem)
    requires Acyclic(g) && AllBelow(ts, |g|) && DoneWith(I, g, inp, bufOf, ts, before, after)
    ensures after.Keys == before.Keys
  {
  }

  lemma LoweredBody(g: Graph, inputs: seq<nat>, constants: seq<nat>, outputs: seq<nat>)
    requires ValidCall(g, inputs, constants, outputs) && FreshAxes(g) && Lowered(g, inputs, constants, outputs).Ok?
    requires AllBelow(Topo(g, outputs), |g|)
    ensures GoodOutputs(g, outputs)
    ensures var topo, bufOf := Topo(g, outputs), Buffers(g, inputs, constants, outputs);
      && LowerOps(g, bufOf, topo).Ok?
      && Owned(g, bufOf, Intermediates(g, topo, outputs))
      && Lowered(g, inputs, constants, outputs).value.body
         == AllocAll(g, bufOf, Intermediates(g, topo, outputs), SeqBody(LowerOps(g, bufOf, topo).value))
  {
    NoDefects(g, outputs);
    IntermediatesOwned(g, inputs, constants, outputs, Topo(g, outputs));
  }

  lemma OutputCells(I: Interp, g: Graph, inp: Inputs, outputs: seq<nat>, base: nat, after: Mem, m: Mem)
    requires Acyclic(g) && AllBelow(outputs, |g|) && m.Keys <= after.Keys
    requires forall b :: b in m ==> m[b] == after[b]
    requires forall i :: 0 <= i < |outputs| ==> OutputAt(I, g, inp, outputs, base, m, after, i)
    ensures OutputsHold(I, g, inp, outputs, base, m)
  {
    forall i, idx | 0 <= i < |outputs| && InBox(idx, g[outputs[i]].shape)
      ensures OutputCell(I, g, inp, m, base + i, outputs[i], idx)
    {
      assert OutputAt(I, g, inp, outputs, base, m, after, i);
      HoldsCell(I, g, inp, after, base + i, outputs[i], idx);
    }
  }

  /** The statements, run in the caller's memory extended by the intermediates. */
  lemma RunInside(
    I: Interp, g: Graph, inp: Inputs, given: seq<nat>, outputs: seq<nat>, topo: seq<nat>, bufOf: BufferOf,
    mem: Mem) returns (after: Mem)
    requires ExactInts(I) && Acyclic(g) && FreshAxes(g) && PostOrder(g, topo) && AllBelow(outputs, |g|)
    requires var mids := Intermediates(g, topo, outputs);
      Apart(g, given, outputs, mids) && Assigned(g, given, outputs, mids, bufOf) && Owned(g, bufOf, mids)
    requires forall t :: t in topo ==> t < |g| && Defined(I, g, inp, t)
    requires CallerMemory(I, g, inp, given, outputs, mem) && LowerOps(g, bufOf, topo).Ok?
    ensures Exec(I, SeqBody(LowerOps(g, bufOf, topo).value), map[],
      WithAllocs(g, bufOf, Intermediates(g, topo, outputs), mem)) == Some(after)
    ensures DoneWith(I, g, inp, bufOf, topo, WithAllocs(g, bufOf, Intermediates(g, topo, outputs), mem), after)
  {
    hide ExactInts, Acyclic, FreshAxes, Defined, Ordered, NoDup, Apart, Assigned, Runnable, CallerMemory, DoneWith;
    RunnableInside(I, g, inp, given, outputs, topo, bufOf, mem);
    var inner := WithAllocs(g, bufOf, Intermediates(g, topo, outputs), mem);
    assert topo[..|topo|] == topo;
    after := RunOps(I, g, inp, bufOf, topo, |topo|, inner);
    SeqBodyRuns(I, LowerOps(g, bufOf, topo).value, map[], inner);
  }

  /** Output `i` belongs to the caller's memory and its tensor is there after the run. */
  ghost predicate OutputAt(I: Interp, g: Graph, inp: Inputs, outputs: seq<nat>, base: nat, mem: Mem, after: Mem, i: int)
    requires Acyclic(g) && 0 <= i < |outputs|
  {
    base + i in mem && Holds(I, g, inp, after, base + i, outputs[i])
  }

  /** What the run leaves in the parameters. */
  lemma ParamsAfter(
    I: Interp, g: Graph, inp: Inputs, given: seq<nat>, outputs: seq<nat>, topo: seq<nat>, bufOf: BufferOf, mem: Mem,
    after: Mem)
    requires Acyclic(g) && AllBelow(topo, |g|) && AllBelow(outputs, |g|)
    requires Assigned(g, given, outputs, Intermediates(g, topo, outputs), bufOf)
      && Owned(g, bufOf, Intermediates(g, topo, outputs))
    requires forall j :: 0 <= j < |outputs| ==> outputs[j] in topo
    requires CallerMemory(I, g, inp, given, outputs, mem)
    requires DoneWith(I, g, inp, bufOf, topo, WithAllocs(g, bufOf, Intermediates(g, topo, outputs), mem), after)
    ensures mem.Keys <= after.Keys
    ensures forall b :: 0 <= b < |given| ==> b in mem && after[b] == mem[b]
    ensures forall i :: 0 <= i < |outputs| ==> OutputAt(I, g, inp, outputs, |given|, mem, after, i)
  {
    hide Holds, Acyclic, WithAllocs, Size, Intermediates, Owned;
    var inner := WithAllocs(g, bufOf, Intermediates(g, topo, outputs), mem);
    LayoutInside(g, given, outputs, topo, bufOf, mem);
    ComputedBuffers(g, given, outputs, topo, bufOf);
    DoneKeys(I, g, inp, bufOf, topo, inner, after);
    forall i | 0 <= i < |outputs|
      ensures OutputAt(I, g, inp, outputs, |given|, mem, after, i)
    {
      OutputAfter(I, g, inp, outputs, |given|, topo, bufOf, mem, inner, after, i);
    }
  }

  lemma OutputAfter(
    I: Interp, g: Graph, inp: Inputs, outputs: seq<nat>, base: nat, topo: seq<nat>, bufOf: BufferOf, mem: Mem,
    inner: Mem, after: Mem, i: nat)
    requires Acyclic(g) && AllBelow(topo, |g|) && i < |outputs| && DoneWith(I, g, inp, bufOf, topo, inner, after)
    requires outputs[i] in topo && outputs[i] in bufOf && bufOf[outputs[i]] == base + i && base + i in mem
    ensures OutputAt(I, g, inp, outputs, base, mem, after, i)
  {
    hide Holds, Acyclic, DoneWith;
    DoneAt(I, g, inp, bufOf, topo, inner, after, outputs[i]);
  }

  lemma DoneAt(I: Interp, g: Graph, inp: Inputs, bufOf: BufferOf, ts: seq<nat>, before: Mem, after: Mem, t: nat)
    requires Acyclic(g) && AllBelow(ts, |g|) && DoneWith(I, g, inp, bufOf, ts, before, after) && t in ts && t in bufOf
    ensures Holds(I, g, inp, after, bufOf[t], t)
  {
  }

  lemma LocalsFresh(
    I: Interp, g: Graph, inp: Inputs, given: seq<nat>, outputs: seq<nat>, mids: seq<nat>, bufOf: BufferOf, mem: Mem)
    requires Acyclic(g) && AllBelow(outputs, |g|) && Assigned(g, given, outputs, mids, bufOf)
      && CallerMemory(I, g, inp, given, outputs, mem)
    ensures forall i :: 0 <= i < |mids| ==> mids[i] in bufOf && bufOf[mids[i]] !in mem
    ensures forall i, j :: 0 <= i < j < |mids| ==> bufOf[mids[i]] != bufOf[mids[j]]
  {
  }

  /** Output `i` is in buffer `base + i`: every element of the tensor, at its row-major address. */
  ghost predicate OutputsHold(I: Interp, g: Graph, inp: Inputs, outputs: seq<nat>, base: nat, m: Mem)
    requires Acyclic(g) && AllBelow(outputs, |g|)
  {
    forall i, idx :: 0 <= i < |outputs| && InBox(idx, g[outputs[i]].shape) ==>
      OutputCell(I, g, inp, m, base + i, outputs[i], idx)
  }

  /** Buffer `b` has the size of tensor `t` and the element at `idx` in its row-major cell. */
  ghost predicate OutputCell(I: Interp, g: Graph, inp: Inputs, m: Mem, b: BufId, t: nat, idx: seq<int>)
    requires Acyclic(g) && t < |g| && InBox(idx, g[t].shape)
  {
    b in m && |m[b]| == Size(g[t].shape) &&
    0 <= RowMajor(idx, g[t].shape) < |m[b]| && m[b][RowMajor(idx, g[t].shape)] == Den(I, g, inp, t, idx)
  }

  lemma HoldsCell(I: Interp, g: Graph, inp: Inputs, m: Mem, b: BufId, t: nat, idx: seq<int>)
    requires Acyclic(g) && t < |g| && InBox(idx, g[t].shape) && Holds(I, g, inp, m, b, t)
    ensures OutputCell(I, g, inp, m, b, t, idx)
  {
    ContentsAt(I, g, inp, t, idx);
    PointCount(g[t].shape);
  }

  /**
   Lowering accepts exactly the graphs with a non-empty list of distinct compute outputs in
   which every reachable operation is plain and loads only placeholders that were handed over.
   In particular expression lowering never meets a computed tensor without a buffer.
   */
  lemma LoweringAccepts(g: Graph, inputs: seq<nat>, constants: seq<nat>, outputs: seq<nat>)
    requires ValidCall(g, inputs, constants, outputs) && FreshAxes(g)
    ensures Lowered(g, inputs, constants, outputs).Ok? <==>
      && outputs != [] && GoodOutputs(g, outputs)
      && (forall t :: t in Topo(g, outputs) ==> t < |g| && PlainOp(g, g[t]))
      && (forall t :: t in Topo(g, outputs) && g[t].Placeholder? ==> t in inputs + constants)
  {
    hide PlainOp, NoDup, LowerOps, AllocAll, FreshAxes, Acyclic, Size;
    NoDefects(g, outputs);
    if outputs != [] && GoodOutputs(g, outputs) {
      var topo := Topo(g, outputs);
      BufferFacts(g, inputs, constants, outputs);
      var bufOf := Buffers(g, inputs, constants, outputs);
      ComputedBuffers(g, inputs + constants, outputs, topo, bufOf);
      LowerOpsOk(g, bufOf, topo);
      if Lowered(g, inputs, constants, outputs).Ok? {
        AcceptedIsPlain(g, topo, bufOf);
        IntermediatesFacts(g, topo, outputs);
        PlaceholdersGiven(g, inputs + constants, outputs, topo, bufOf);
      } else if (forall t :: t in topo ==> PlainOp(g, g[t]))
        && (forall t :: t in topo && g[t].Placeholder? ==> t in inputs + constants) {
        PlainIsAccepted(g, inputs + constants, topo, bufOf);
      }
    }
  }

  lemma PlainIsAccepted(g: Graph, given: seq<nat>, topo: seq<nat>, bufOf: BufferOf)
    requires FreshAxes(g) && PostOrder(g, topo)
    requires forall t :: t in topo && g[t].Compute? ==> t in bufOf
    requires forall t :: t in topo && g[t].Placeholder? ==> t in given
    requires forall i :: 0 <= i < |given| ==> given[i] in bufOf
    requires forall t :: t in topo ==> PlainOp(g, g[t])
    ensures LowerOps(g, bufOf, topo).Ok?
  {
    LowerOpsOk(g, bufOf, topo);
    forall i | 0 <= i < |topo| && g[topo[i]].Compute?
      ensures LowerCompute(g, bufOf, topo[i]).Ok?
    {
      var t := topo[i];
      assert t in topo;
      forall d | d in Elems(Deps(g[t])) ensures d in bufOf.Keys {
        assert d in topo[..i];
        assert d in topo;
      }
      FindAllLoadsExact(g[t].body, bufOf.Keys);
      LowerComputeOk(g, bufOf, t);
    }
  }

  lemma AcceptedIsPlain(g: Graph, topo: seq<nat>, bufOf: BufferOf)
    requires FreshAxes(g) && AllBelow(topo, |g|) && LowerOps(g, bufOf, topo).Ok?
    requires forall t :: t in topo && g[t].Compute? ==> t in bufOf
    ensures forall t :: t in topo ==> PlainOp(g, g[t])
    ensures forall t :: t in topo && g[t].Compute? ==> Elems(Deps(g[t])) <= bufOf.Keys
  {
    hide LowerCompute, PlainOp, NoDup;
    LowerOpsOk(g, bufOf, topo);
    forall t | t in topo
      ensures PlainOp(g, g[t])
      ensures g[t].Compute? ==> Elems(Deps(g[t])) <= bufOf.Keys
    {
      if g[t].Compute? {
        LowerComputeOk(g, bufOf, t);
        FindAllLoadsExact(g[t].body, bufOf.Keys);
      } else {
        PlaceholderPlain(g, t);
      }
    }
  }

  lemma PlaceholderPlain(g: Graph, t: nat)
    requires t < |g| && g[t].Placeholder?
    ensures PlainOp(g, g[t])
  {
  }

  /** A collected placeholder is loaded by a collected compute tensor, so it must have a buffer. */
  lemma PlaceholdersGiven(g: Graph, given: seq<nat>, outputs: seq<nat>, topo: seq<nat>, bufOf: BufferOf)
    requires Acyclic(g) && AllBelow(outputs, |g|) && GoodOutputs(g, outputs) && topo == Topo(g, outputs)
    requires forall t :: t in topo ==> t < |g|
    requires forall t :: t in topo && g[t].Compute? ==> Elems(Deps(g[t])) <= bufOf.Keys
    requires forall t :: t in bufOf && t < |g| && g[t].Placeholder? ==> t in given
    ensures forall t :: t in topo && g[t].Placeholder? ==> t in given
  {
    hide Acyclic, NoDup, Ordered, Reaches, Topo;
    TopoFacts(g, outputs);
    forall t | t in topo && g[t].Placeholder?
      ensures t in given
    {
      assert AnyReaches(g, outputs, t);
      var j :| 0 <= j < |outputs| && Reaches(g, outputs[j], t);
      var u := LoadedBy(g, topo, outputs[j], t);
      assert t in Elems(Deps(g[u]));
    }
  }

  lemma {:induction false} LoadedBy(g: Graph, topo: seq<nat>, t: nat, x: nat) returns (u: nat)
    requires Acyclic(g) && PostOrder(g, topo) && t in topo && Reaches(g, t, x) && x != t
    ensures u in topo && u < |g| && g[u].Compute? && x in Deps(g[u])
    decreases t
  {
    DepsBelow(g, t);
    var i :| 0 <= i < |Deps(g[t])| && Reaches(g, Deps(g[t])[i], x);
    var d := Deps(g[t])[i];
    if d == x {
      u := t;
    } else {
      assert Reaches(g, t, d) by { assert Reaches(g, d, d); }
      OrderedClosed(g, topo, t, d);
      u := LoadedBy(g, topo, d, x);
    }
  }
}
