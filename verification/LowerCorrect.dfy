/** The lowered function computes the tensors of the graph. */
module LowerCorrect {
  import opened Base
  import opened Tir
  import opened Te
  import opened IndexSpace
  import opened Lower
  import opened LoopNests

  // ---------- variables and flattened indices ----------

  function IntVs(idx: seq<int>): seq<Value> {
    seq(|idx|, i requires 0 <= i < |idx| => IntV(idx[i]))
  }

  lemma {:induction false} IntsAre(vs: seq<Value>, idx: seq<int>)
    requires Ints(vs) == Some(idx)
    ensures vs == IntVs(idx)
  {
    if vs != [] {
      IntsAre(vs[1..], idx[1..]);
    }
  }

  lemma {:induction false} EvalVars(I: Interp, vars: seq<VarId>, pt: seq<int>, env: Env, mem: Mem)
    requires Bound(env, vars, pt)
    ensures EvalAll(I, VarExprs(vars), env, mem) == Some(IntVs(pt))
    decreases |vars|
  {
    if vars == [] {
      assert VarExprs(vars) == [] && IntVs(pt) == [];
    } else {
      assert VarExprs(vars)[1..] == VarExprs(vars[1..]);
      EvalVars(I, vars[1..], pt[1..], env, mem);
      assert [IntV(pt[0])] + IntVs(pt[1..]) == IntVs(pt);
    }
  }

  /** Splits off the value of the first of a list of integer expressions. */
  lemma EvalHead(I: Interp, es: seq<PrimExpr>, idx: seq<int>, env: Env, mem: Mem)
    requires |es| == |idx| > 0 && EvalAll(I, es, env, mem) == Some(IntVs(idx))
    ensures Eval(I, es[0], env, mem) == Some(IntV(idx[0])) && EvalAll(I, es[1..], env, mem) == Some(IntVs(idx[1..]))
  {
    var rest := EvalAll(I, es[1..], env, mem).value;
    assert IntVs(idx) == [IntVs(idx)[0]] + rest;
    assert rest == IntVs(idx)[1..] == IntVs(idx[1..]);
  }

  lemma EvalStep(I: Interp, acc: PrimExpr, a: int, s: Dim, e: PrimExpr, i: int, env: Env, mem: Mem)
    requires ExactInts(I) && Eval(I, acc, env, mem) == Some(IntV(a)) && Eval(I, e, env, mem) == Some(IntV(i))
    ensures Eval(I, Binary(Add, Binary(Mul, acc, s), e), env, mem) == Some(IntV(NextAxis(a, ConstValue(s), i)))
  {
    hide IntExpr, IntValue, ExactInts, Eval, Arith;
    EvalConst(I, s, env, mem);
    EvalBinary(I, Mul, acc, s, a, ConstValue(s), env, mem);
    EvalBinary(I, Add, Binary(Mul, acc, s), e, Arith(Mul, a, ConstValue(s)), i, env, mem);
    StepValue(a, ConstValue(s), i);
  }

  lemma StepValue(a: int, s: int, i: int)
    ensures Arith(Add, Arith(Mul, a, s), i) == NextAxis(a, s, i)
  {
  }

  lemma {:induction false} EvalHorner(
    I: Interp, acc: PrimExpr, a: int, es: seq<PrimExpr>, idx: seq<int>, dims: seq<Dim>, env: Env, mem: Mem)
    requires ExactInts(I) && |es| == |idx| == |dims|
    requires Eval(I, acc, env, mem) == Some(IntV(a)) && EvalAll(I, es, env, mem) == Some(IntVs(idx))
    ensures Eval(I, HornerExpr(acc, es, dims), env, mem) == Some(IntV(Horner(a, idx, Sizes(dims))))
    decreases |es|
  {
    hide ExactInts, Eval, IntExpr, IntValue;
    if es != [] {
      EvalHead(I, es, idx, env, mem);
      EvalStep(I, acc, a, dims[0], es[0], idx[0], env, mem);
      var next, b := Binary(Add, Binary(Mul, acc, dims[0]), es[0]), NextAxis(a, ConstValue(dims[0]), idx[0]);
      assert Sizes(dims)[1..] == Sizes(dims[1..]);
      EvalHorner(I, next, b, es[1..], idx[1..], dims[1..], env, mem);
    }
  }

  /** A flattened index evaluates to the row-major address of the index. */
  lemma EvalFlatten(I: Interp, es: seq<PrimExpr>, idx: seq<int>, dims: seq<Dim>, flat: PrimExpr, env: Env, mem: Mem)
    requires ExactInts(I) && |es| == |idx| == |dims|
    requires EvalAll(I, es, env, mem) == Some(IntVs(idx)) && FlattenExpr(es, dims) == Ok(flat)
    ensures Eval(I, flat, env, mem) == Some(IntV(RowMajor(idx, Sizes(dims))))
  {
    hide ExactInts, IntExpr, IntValue, RowMajor, Horner;
    if dims != [] {
      EvalHead(I, es, idx, env, mem);
      EvalHorner(I, es[0], idx[0], es[1..], idx[1..], dims[1..], env, mem);
      assert Sizes(dims)[1..] == Sizes(dims[1..]);
      HornerFromFirst(idx, Sizes(dims));
    } else {
      NoIndex(idx);
    }
  }

  lemma NoIndex(idx: seq<int>)
    requires idx == []
    ensures RowMajor(idx, []) == 0
  {
  }

  // ---------- expressions ----------

  /** What the buffer of `t` must hold: the meaning of `t` at every index, row-major. */
  ghost function Contents(I: Interp, g: Graph, inp: Inputs, t: nat): seq<Option<Value>>
    requires Acyclic(g) && t < |g|
  {
    var pts := Points(Dims(g[t].shape));
    seq(|pts|, k requires 0 <= k < |pts| => Den(I, g, inp, t, pts[k]))
  }

  /** Every element of `t` is defined: all the loads evaluated for it are in bounds. */
  ghost predicate Defined(I: Interp, g: Graph, inp: Inputs, t: nat)
    requires Acyclic(g) && t < |g|
  {
    forall idx :: InBox(idx, g[t].shape) ==> Den(I, g, inp, t, idx).Some?
  }

  ghost predicate Holds(I: Interp, g: Graph, inp: Inputs, mem: Mem, b: BufId, t: nat)
    requires Acyclic(g)
  {
    t < |g| && b in mem && mem[b] == Contents(I, g, inp, t)
  }

  /** The buffers of all tensors in `S` hold those tensors. */
  ghost predicate Agrees(I: Interp, g: Graph, inp: Inputs, bufOf: BufferOf, mem: Mem, S: set<nat>)
    requires Acyclic(g)
  {
    forall t :: t in S ==> t in bufOf && Holds(I, g, inp, mem, bufOf[t], t)
  }

  lemma ContentsAt(I: Interp, g: Graph, inp: Inputs, t: nat, idx: seq<int>)
    requires Acyclic(g) && t < |g| && InBox(idx, g[t].shape)
    ensures 0 <= RowMajor(idx, g[t].shape) < |Contents(I, g, inp, t)|
    ensures Contents(I, g, inp, t)[RowMajor(idx, g[t].shape)] == Den(I, g, inp, t, idx)
  {
    PointAtAddress(idx, g[t].shape);
  }

  /** Reading a buffer at a flattened index reads the tensor at that index. */
  lemma LoadCorrect(
    I: Interp, g: Graph, inp: Inputs, mem: Mem, b: BufId, d: nat, es: seq<PrimExpr>, xs: seq<Value>, env: Env)
    requires ExactInts(I) && Acyclic(g) && Holds(I, g, inp, mem, b, d)
    requires |es| == |xs| && EvalAll(I, es, env, mem) == Some(xs) && FlattenExpr(es, g[d].dims).Ok?
    requires Ints(xs).Some? && Den(I, g, inp, d, Ints(xs).value).Some?
    ensures Eval(I, Load(b, FlattenExpr(es, g[d].dims).value, None), env, mem) == Den(I, g, inp, d, Ints(xs).value)
  {
    var idx := Ints(xs).value;
    IntsAre(xs, idx);
    var flat := FlattenExpr(es, g[d].dims).value;
    EvalFlatten(I, es, idx, g[d].dims, flat, env, mem);
    ContentsAt(I, g, inp, d, idx);
    EvalLoad(I, b, flat, env, mem, RowMajor(idx, g[d].shape));
  }

  lemma EvalLoad(I: Interp, b: BufId, flat: PrimExpr, env: Env, mem: Mem, r: int)
    requires Eval(I, flat, env, mem) == Some(IntV(r)) && b in mem && 0 <= r < |mem[b]|
    ensures Eval(I, Load(b, flat, None), env, mem) == mem[b][r]
  {
  }

  /** A lowered body has the value the tensor expression denotes. */
  lemma {:induction false} LowerExprCorrect(
    I: Interp, g: Graph, inp: Inputs, bufOf: BufferOf, mem: Mem, S: set<nat>, t: nat, e: PrimExpr, env: Env)
    requires ExactInts(I) && Acyclic(g) && t <= |g|
    requires LoadsIn(e, Below(t)) && LoadsIn(e, S) && Agrees(I, g, inp, bufOf, mem, S)
    requires LowerExpr(g, bufOf, e).Ok? && DenExpr(I, g, inp, t, e, env).Some?
    ensures Eval(I, LowerExpr(g, bufOf, e).value, env, mem) == DenExpr(I, g, inp, t, e, env)
    decreases e, 0
  {
    hide ExactInts, Acyclic, FlattenExpr, Den;
    match e
    case Binary(_, a, b) =>
      LowerExprCorrect(I, g, inp, bufOf, mem, S, t, a, env);
      LowerExprCorrect(I, g, inp, bufOf, mem, S, t, b, env);
    case Not(a) =>
      LowerExprCorrect(I, g, inp, bufOf, mem, S, t, a, env);
    case Select(c, x, y) =>
      LowerExprCorrect(I, g, inp, bufOf, mem, S, t, c, env);
      if I.truthy(DenExpr(I, g, inp, t, c, env).value) {
        LowerExprCorrect(I, g, inp, bufOf, mem, S, t, x, env);
      } else {
        LowerExprCorrect(I, g, inp, bufOf, mem, S, t, y, env);
      }
    case Call(_, args) =>
      LowerAllCorrect(I, g, inp, bufOf, mem, S, t, args, env);
    case ProducerLoad(d, indices) =>
      LowerAllCorrect(I, g, inp, bufOf, mem, S, t, indices, env);
      LoadCorrect(
        I, g, inp, mem, bufOf[d], d,
        LowerAll(g, bufOf, indices).value, DenAll(I, g, inp, t, indices, env).value, env);
    case _ =>
  }

  lemma {:induction false} LowerAllCorrect(
    I: Interp, g: Graph, inp: Inputs, bufOf: BufferOf, mem: Mem, S: set<nat>, t: nat, es: seq<PrimExpr>, env: Env)
    requires ExactInts(I) && Acyclic(g) && t <= |g|
    requires AllLoadIn(es, Below(t)) && AllLoadIn(es, S) && Agrees(I, g, inp, bufOf, mem, S)
    requires LowerAll(g, bufOf, es).Ok? && DenAll(I, g, inp, t, es, env).Some?
    ensures |LowerAll(g, bufOf, es).value| == |es|
    ensures EvalAll(I, LowerAll(g, bufOf, es).value, env, mem) == DenAll(I, g, inp, t, es, env)
    decreases es, 0
  {
    if es != [] {
      LowerExprCorrect(I, g, inp, bufOf, mem, S, t, es[0], env);
      LowerAllCorrect(I, g, inp, bufOf, mem, S, t, es[1..], env);
    }
  }

  // ---------- one operation ----------

  /** The situation in which the statement of `t` runs. */
  ghost predicate Ready(I: Interp, g: Graph, inp: Inputs, bufOf: BufferOf, mem: Mem, S: set<nat>, t: nat) {
    && ExactInts(I) && Acyclic(g) && FreshAxes(g)
    && t < |g| && g[t].Compute? && LowerCompute(g, bufOf, t).Ok? && Defined(I, g, inp, t)
    && AllLoadIn(g[t].body, S) && Agrees(I, g, inp, bufOf, mem, S)
    && (forall d :: d in S ==> bufOf[d] != bufOf[t])
    && bufOf[t] in mem && |mem[bufOf[t]]| == Size(g[t].shape)
  }

  lemma AgreesSameExcept(I: Interp, g: Graph, inp: Inputs, bufOf: BufferOf, m0: Mem, m: Mem, S: set<nat>, out: BufId)
    requires Acyclic(g) && Agrees(I, g, inp, bufOf, m0, S) && SameExcept(m0, m, out)
    requires forall d :: d in S ==> d in bufOf && bufOf[d] != out
    ensures Agrees(I, g, inp, bufOf, m, S)
  {
    forall t | t in S
      ensures Holds(I, g, inp, m, bufOf[t], t)
    {
      assert Holds(I, g, inp, m0, bufOf[t], t);
    }
  }

  lemma FlatAddresses(I: Interp, axis: seq<VarId>, dims: seq<Dim>, idx: seq<int>, flat: PrimExpr)
    requires ExactInts(I) && |axis| == |dims| == |idx| && FlattenExpr(VarExprs(axis), dims) == Ok(flat)
    ensures Addresses(I, flat, axis, idx, RowMajor(idx, Sizes(dims)))
  {
    hide ExactInts, IntExpr, IntValue, RowMajor;
    forall env, mem | Bound(env, axis, idx)
      ensures Eval(I, flat, env, mem) == Some(IntV(RowMajor(idx, Sizes(dims))))
    {
      EvalVars(I, axis, idx, env, mem);
      EvalFlatten(I, VarExprs(axis), idx, dims, flat, env, mem);
    }
  }

  lemma AxesDisjoint(axis: seq<VarId>, rvars: seq<VarId>)
    requires NoDup(axis + rvars)
    ensures NoDup(axis) && forall i :: 0 <= i < |axis| ==> axis[i] !in rvars
  {
    forall i, j | 0 <= i < j < |axis|
      ensures axis[i] != axis[j]
    {
      assert (axis + rvars)[i] != (axis + rvars)[j];
    }
    forall i, j | 0 <= i < |axis| && 0 <= j < |rvars|
      ensures axis[i] != rvars[j]
    {
      assert (axis + rvars)[i] != (axis + rvars)[|axis| + j];
    }
  }

  /** The innermost statement of the nest that `LowerCompute` builds. */
  function InnerStmt(g: Graph, bufOf: BufferOf, t: nat, flat: PrimExpr): Stmt
    requires t < |g| && g[t].Compute? && |g[t].axis| == |g[t].dims| && LowerCompute(g, bufOf, t).Ok?
  {
    var op, out := g[t], bufOf[t];
    if op.body[0].Reduce? then
      var red := op.body[0];
      var src := LowerExpr(g, bufOf, red.source[0]).value;
      SeqStmt([Store(out, IdentityExpr(red.rtype, op.isFloat), flat, None),
               Nest(AxisVars(red.axis), AxisDomains(red.axis), UpdateStmt(out, red.rtype, flat, src))])
    else Store(out, LowerExpr(g, bufOf, op.body[0]).value, flat, None)
  }

  lemma LowerComputeIsNest(g: Graph, bufOf: BufferOf, t: nat, flat: PrimExpr)
    requires t < |g| && g[t].Compute? && |g[t].axis| == |g[t].dims| && LowerCompute(g, bufOf, t).Ok?
    requires FlattenExpr(VarExprs(g[t].axis), g[t].dims) == Ok(flat)
    ensures LowerCompute(g, bufOf, t).value == Nest(g[t].axis, DataDomains(g[t].dims), InnerStmt(g, bufOf, t, flat))
  {
  }

  lemma {:induction false} DenPointsAt(
    I: Interp, g: Graph, inp: Inputs, t: nat, source: PrimExpr, rvars: seq<VarId>, pts: seq<seq<int>>, env: Env,
    j: nat)
    requires Acyclic(g) && t < |g| && LoadsIn(source, Below(t)) && j < |pts|
    requires DenPoints(I, g, inp, t, source, rvars, pts, env).Some?
    ensures |pts[j]| == |rvars|
    ensures DenExpr(I, g, inp, t, source, Bind(env, rvars, pts[j])) ==
      Some(DenPoints(I, g, inp, t, source, rvars, pts, env).value[j])
    decreases |pts|
  {
    if j > 0 {
      DenPointsAt(I, g, inp, t, source, rvars, pts[1..], env, j - 1);
    }
  }

  lemma LowerExprCorrectAfter(
    I: Interp, g: Graph, inp: Inputs, bufOf: BufferOf, mem: Mem, m: Mem, S: set<nat>, t: nat, e: PrimExpr, out: BufId,
    env: Env)
    requires ExactInts(I) && Acyclic(g) && t <= |g|
    requires LoadsIn(e, Below(t)) && LoadsIn(e, S) && Agrees(I, g, inp, bufOf, mem, S)
    requires SameExcept(mem, m, out) && forall d :: d in S ==> bufOf[d] != out
    requires LowerExpr(g, bufOf, e).Ok? && DenExpr(I, g, inp, t, e, env).Some?
    ensures Eval(I, LowerExpr(g, bufOf, e).value, env, m) == DenExpr(I, g, inp, t, e, env)
  {
    AgreesSameExcept(I, g, inp, bufOf, mem, m, S, out);
    LowerExprCorrect(I, g, inp, bufOf, m, S, t, e, env);
  }

  /** At every point of the reduction box the lowered source has its denoted value, whatever `out` holds. */
  lemma SourceCorrect(
    I: Interp, g: Graph, inp: Inputs, bufOf: BufferOf, mem: Mem, S: set<nat>, t: nat, source: PrimExpr, src: PrimExpr,
    out: BufId, rvars: seq<VarId>, pts: seq<seq<int>>, env: Env, xs: seq<Value>)
    requires ExactInts(I) && Acyclic(g) && t < |g|
    requires LoadsIn(source, Below(t)) && LoadsIn(source, S) && Agrees(I, g, inp, bufOf, mem, S)
    requires forall d :: d in S ==> bufOf[d] != out
    requires LowerExpr(g, bufOf, source) == Ok(src)
    requires DenPoints(I, g, inp, t, source, rvars, pts, env) == Some(xs)
    ensures SourceValues(I, src, rvars, pts, env, out, mem, xs)
  {
    hide ExactInts, Acyclic, Agrees, LoadsIn, DenExpr, DenPoints, LowerExpr;
    forall j, m | 0 <= j < |pts| && SameExcept(mem, m, out)
      ensures |pts[j]| == |rvars| && Eval(I, src, Bind(env, rvars, pts[j]), m) == Some(xs[j])
    {
      DenPointsAt(I, g, inp, t, source, rvars, pts, env, j);
      LowerExprCorrectAfter(I, g, inp, bufOf, mem, m, S, t, source, out, Bind(env, rvars, pts[j]));
    }
  }

  lemma BodyLoads(g: Graph, S: set<nat>, t: nat)
    requires Acyclic(g) && t < |g| && g[t].Compute? && |g[t].body| == 1 && AllLoadIn(g[t].body, S)
    ensures LoadsIn(g[t].body[0], Below(t)) && LoadsIn(g[t].body[0], S)
    ensures g[t].body[0].Reduce? && |g[t].body[0].source| == 1 ==>
      LoadsIn(g[t].body[0].source[0], Below(t)) && LoadsIn(g[t].body[0].source[0], S)
  {
    var e := g[t].body[0];
    assert LoadsIn(e, Below(t)) && LoadsIn(e, S);
    if e.Reduce? && |e.source| == 1 {
      assert AllLoadIn(e.source, Below(t)) && AllLoadIn(e.source, S);
    }
  }

  /** At one data point the inner statement writes exactly that point's cell. */
  lemma PointCorrect(
    I: Interp, g: Graph, inp: Inputs, bufOf: BufferOf, mem: Mem, S: set<nat>, t: nat, idx: seq<int>, flat: PrimExpr,
    k: int)
    requires Ready(I, g, inp, bufOf, mem, S, t) && InBox(idx, g[t].shape)
    requires Addresses(I, flat, g[t].axis, idx, k) && 0 <= k < |mem[bufOf[t]]|
    ensures Exec(I, InnerStmt(g, bufOf, t, flat), Bind(map[], g[t].axis, idx), mem)
      == Some(Put(mem, bufOf[t], k, Den(I, g, inp, t, idx)))
  {
    var op := g[t];
    BodyLoads(g, S, t);
    AxesDisjoint(op.axis, AxisVars(ReduceAxes(op)));
    BindBinds(map[], op.axis, idx);
    if op.body[0].Reduce? {
      ReduceAt(I, g, inp, bufOf, mem, S, t, idx, flat, k);
    } else {
      var env := Bind(map[], op.axis, idx);
      LowerExprCorrect(I, g, inp, bufOf, mem, S, t, op.body[0], env);
      StoreStep(I, bufOf[t], LowerExpr(g, bufOf, op.body[0]).value, flat, env, mem, k, Den(I, g, inp, t, idx).value);
    }
  }

  lemma ReduceAt(
    I: Interp, g: Graph, inp: Inputs, bufOf: BufferOf, mem: Mem, S: set<nat>, t: nat, idx: seq<int>, flat: PrimExpr,
    k: int)
    requires ExactInts(I) && Acyclic(g) && t < |g| && g[t].Compute? && t in bufOf && InBox(idx, g[t].shape)
      && |g[t].axis| == |idx|
    requires |g[t].body| == 1 && g[t].body[0].Reduce? && |g[t].body[0].source| == 1 && Den(I, g, inp, t, idx).Some?
    requires var e := g[t].body[0].source[0]; LoadsIn(e, Below(t)) && LoadsIn(e, S) && LowerExpr(g, bufOf, e).Ok?
    requires Agrees(I, g, inp, bufOf, mem, S) && forall d :: d in S ==> bufOf[d] != bufOf[t]
    requires bufOf[t] in mem && 0 <= k < |mem[bufOf[t]]| && Addresses(I, flat, g[t].axis, idx, k)
    requires Bound(Bind(map[], g[t].axis, idx), g[t].axis, idx)
    requires forall i :: 0 <= i < |g[t].axis| ==> g[t].axis[i] !in AxisVars(g[t].body[0].axis)
    requires ConstAxes(g[t].body[0].axis)
    ensures var red, out := g[t].body[0], bufOf[t];
      var init := Store(out, IdentityExpr(red.rtype, g[t].isFloat), flat, None);
      var update := UpdateStmt(out, red.rtype, flat, LowerExpr(g, bufOf, red.source[0]).value);
      var both := SeqStmt([init, Nest(AxisVars(red.axis), AxisDomains(red.axis), update)]);
      Exec(I, both, Bind(map[], g[t].axis, idx), mem) == Some(Put(mem, out, k, Den(I, g, inp, t, idx)))
  {
    hide ExactInts, Acyclic, Agrees, LoadsIn, DenExpr, DenPoints, LowerExpr, Points, FoldValues;
    var op := g[t];
    var env := Bind(map[], op.axis, idx);
    var red := op.body[0];
    var src := LowerExpr(g, bufOf, red.source[0]).value;
    ReduceRanges(red.axis);
    var pts := Points(AxisRanges(red.axis));
    var xs := DenPoints(I, g, inp, t, red.source[0], AxisVars(red.axis), pts, env).value;
    SourceCorrect(I, g, inp, bufOf, mem, S, t, red.source[0], src, bufOf[t], AxisVars(red.axis), pts, env, xs);
    ReducePoint(
      I, mem, red.rtype, IdentityExpr(red.rtype, op.isFloat), src, bufOf[t], flat, k, op.axis, idx,
      AxisVars(red.axis), AxisDomains(red.axis), env, Identity(red.rtype, op.isFloat), xs,
      Den(I, g, inp, t, idx).value);
  }

  lemma ReadyAfter(I: Interp, g: Graph, inp: Inputs, bufOf: BufferOf, mem: Mem, m: Mem, S: set<nat>, t: nat)
    requires Ready(I, g, inp, bufOf, mem, S, t) && SameExcept(mem, m, bufOf[t]) && |m[bufOf[t]]| == |mem[bufOf[t]]|
    ensures Ready(I, g, inp, bufOf, m, S, t)
  {
    AgreesSameExcept(I, g, inp, bufOf, mem, m, S, bufOf[t]);
  }

  /** The k-th point of the enumeration writes cell k. */
  lemma CellCorrect(
    I: Interp, g: Graph, inp: Inputs, bufOf: BufferOf, mem: Mem, S: set<nat>, t: nat, flat: PrimExpr, k: nat)
    requires Ready(I, g, inp, bufOf, mem, S, t) && k < Size(g[t].shape)
    requires FlattenExpr(VarExprs(g[t].axis), g[t].dims) == Ok(flat)
    ensures k < |Points(Dims(g[t].shape))|
    ensures StoresCell(I, InnerStmt(g, bufOf, t, flat), g[t].axis, Points(Dims(g[t].shape))[k], map[], bufOf[t],
      Contents(I, g, inp, t)[k], k, mem)
  {
    AddressOfPoint(g[t].shape, k);
    var idx := Points(Dims(g[t].shape))[k];
    FlatAddresses(I, g[t].axis, g[t].dims, idx, flat);
    PointCorrect(I, g, inp, bufOf, mem, S, t, idx, flat, k);
  }

  lemma NestStoresPointwise(
    I: Interp, g: Graph, inp: Inputs, bufOf: BufferOf, mem: Mem, S: set<nat>, t: nat, flat: PrimExpr)
    requires Ready(I, g, inp, bufOf, mem, S, t)
    requires FlattenExpr(VarExprs(g[t].axis), g[t].dims) == Ok(flat)
    ensures StoresPointwise(I, InnerStmt(g, bufOf, t, flat), g[t].axis, Points(Dims(g[t].shape)), map[], bufOf[t],
      Contents(I, g, inp, t), mem)
  {
    var axis, out, body, cs := g[t].axis, bufOf[t], InnerStmt(g, bufOf, t, flat), Contents(I, g, inp, t);
    var pts := Points(Dims(g[t].shape));
    PointCount(g[t].shape);
    forall k, m | 0 <= k < |pts| && out in m && SameExcept(mem, m, out) && |m[out]| == |pts|
      ensures StoresCell(I, body, axis, pts[k], map[], out, cs[k], k, m)
    {
      ReadyAfter(I, g, inp, bufOf, mem, m, S, t);
      CellCorrect(I, g, inp, bufOf, m, S, t, flat, k);
    }
  }

  /** The statement of a compute tensor fills its buffer with the tensor and changes nothing else. */
  lemma ComputeCorrect(I: Interp, g: Graph, inp: Inputs, bufOf: BufferOf, mem: Mem, S: set<nat>, t: nat)
    requires Ready(I, g, inp, bufOf, mem, S, t)
    ensures Exec(I, LowerCompute(g, bufOf, t).value, map[], mem) == Some(mem[bufOf[t] := Contents(I, g, inp, t)])
  {
    var op := g[t];
    var flat := FlattenExpr(VarExprs(op.axis), op.dims).value;
    var body := InnerStmt(g, bufOf, t, flat);
    var pts := Points(Dims(op.shape));
    PointCount(op.shape);
    NestStoresPointwise(I, g, inp, bufOf, mem, S, t, flat);
    assert pts[0..] == pts;
    SweepFills(I, body, op.axis, pts, map[], bufOf[t], Contents(I, g, inp, t), mem, mem, 0);
    LowerComputeIsNest(g, bufOf, t, flat);
    DataRanges(op.dims);
    NestIsEnumeration(I, op.axis, DataDomains(op.dims), body, map[], mem);
  }
}
