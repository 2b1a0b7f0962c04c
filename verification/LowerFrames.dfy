/** Which buffers the emitted statements mention. */
module LowerFrames {
  import opened Base
  import opened Tir
  import opened Te
  import opened Lower
  import opened LoopNests
  import opened LowerTheorem

  /** The buffers an expression loads from directly. */
  function ReadsOf(e: PrimExpr): set<BufId>
    decreases e, 0
  {
    match e
    case Binary(_, a, b) => ReadsOf(a) + ReadsOf(b)
    case Not(a) => ReadsOf(a)
    case Select(c, t, f) => ReadsOf(c) + ReadsOf(t) + ReadsOf(f)
    case Call(_, args) => ReadsOfAll(args)
    case Load(buf, index, pred) => {buf} + ReadsOf(index) + (if pred.Some? then ReadsOf(pred.value) else {})
    case ProducerLoad(_, indices) => ReadsOfAll(indices)
    case Reduce(_, _, source) => ReadsOfAll(source)
    case _ => {}
  }

  function ReadsOfAll(es: seq<PrimExpr>): set<BufId>
    decreases es, 0
  {
    if es == [] then {} else ReadsOf(es[0]) + ReadsOfAll(es[1..])
  }

  function StmtReads(s: Stmt): set<BufId>
    decreases s, 0
  {
    match s
    case Undef => {}
    case Store(_, value, index, pred) =>
      ReadsOf(value) + ReadsOf(index) + (if pred.Some? then ReadsOf(pred.value) else {})
    case For(_, lo, extent, body) => ReadsOf(lo) + ReadsOf(extent) + StmtReads(body)
    case IfThenElse(c, t, f) => ReadsOf(c) + StmtReads(t) + StmtReads(f)
    case LetStmt(_, value, body) => ReadsOf(value) + StmtReads(body)
    case Allocate(_, extents, c, body) => ReadsOfAll(extents) + ReadsOf(c) + StmtReads(body)
    case AttrStmt(_, value, body) => ReadsOf(value) + StmtReads(body)
    case SeqStmt(ss) => SeqReads(ss)
    case Evaluate(e) => ReadsOf(e)
  }

  function SeqReads(ss: seq<Stmt>): set<BufId>
    decreases ss, 0
  {
    if ss == [] then {} else StmtReads(ss[0]) + SeqReads(ss[1..])
  }

  function StmtWrites(s: Stmt): set<BufId>
    decreases s, 0
  {
    match s
    case Store(buf, _, _, _) => {buf}
    case For(_, _, _, body) => StmtWrites(body)
    case IfThenElse(_, t, f) => StmtWrites(t) + StmtWrites(f)
    case LetStmt(_, _, body) => StmtWrites(body)
    case Allocate(_, _, _, body) => StmtWrites(body)
    case AttrStmt(_, _, body) => StmtWrites(body)
    case SeqStmt(ss) => SeqWrites(ss)
    case _ => {}
  }

  function SeqWrites(ss: seq<Stmt>): set<BufId>
    decreases ss, 0
  {
    if ss == [] then {} else StmtWrites(ss[0]) + SeqWrites(ss[1..])
  }

  /** The buffers of a list of tensors. */
  function BuffersOf(bufOf: BufferOf, ts: seq<nat>): set<BufId> {
    set t | t in ts && t in bufOf :: bufOf[t]
  }

  lemma BuffersConcat(bufOf: BufferOf, a: seq<nat>, b: seq<nat>)
    ensures BuffersOf(bufOf, a + b) == BuffersOf(bufOf, a) + BuffersOf(bufOf, b)
  {
  }

  /** A dimension reads nothing. */
  lemma {:induction false} ConstReads(e: PrimExpr)
    requires IsConst(e)
    ensures ReadsOf(e) == {}
  {
    if e.Binary? {
      ConstReads(e.a);
      ConstReads(e.b);
    }
  }

  lemma {:induction false} HornerReads(acc: PrimExpr, es: seq<PrimExpr>, dims: seq<Dim>)
    requires |es| == |dims|
    ensures ReadsOf(HornerExpr(acc, es, dims)) == ReadsOf(acc) + ReadsOfAll(es)
    decreases |es|
  {
    hide IntExpr, IntValue;
    if es != [] {
      var next := Binary(Add, Binary(Mul, acc, dims[0]), es[0]);
      HornerReads(next, es[1..], dims[1..]);
      ConstReads(dims[0]);
      assert ReadsOf(Binary(Mul, acc, dims[0])) == ReadsOf(acc);
    }
  }

  lemma FlattenReads(es: seq<PrimExpr>, dims: seq<Dim>)
    requires FlattenExpr(es, dims).Ok?
    ensures ReadsOf(FlattenExpr(es, dims).value) <= ReadsOfAll(es)
  {
    if dims != [] {
      HornerReads(es[0], es[1..], dims[1..]);
    }
  }

  lemma {:induction false} LowerExprReads(g: Graph, bufOf: BufferOf, e: PrimExpr)
    requires LowerExpr(g, bufOf, e).Ok?
    ensures ReadsOf(LowerExpr(g, bufOf, e).value) <= ReadsOf(e) + BuffersOf(bufOf, FindLoads(e))
    decreases e, 0
  {
    match e
    case ProducerLoad(t, indices) =>
      LowerAllReads(g, bufOf, indices);
      FlattenReads(LowerAll(g, bufOf, indices).value, g[t].dims);
      BuffersConcat(bufOf, [t], FindAllLoads(indices));
      assert t in [t];
    case Binary(_, a, b) =>
      LowerExprReads(g, bufOf, a); LowerExprReads(g, bufOf, b);
      BuffersConcat(bufOf, FindLoads(a), FindLoads(b));
    case Not(a) => LowerExprReads(g, bufOf, a);
    case Select(c, t, f) =>
      LowerExprReads(g, bufOf, c); LowerExprReads(g, bufOf, t); LowerExprReads(g, bufOf, f);
      BuffersConcat(bufOf, FindLoads(c), FindLoads(t));
      BuffersConcat(bufOf, FindLoads(c) + FindLoads(t), FindLoads(f));
    case Call(_, args) => LowerAllReads(g, bufOf, args);
    case Load(_, index, pred) =>
      LowerExprReads(g, bufOf, index);
      if pred.Some? {
        LowerExprReads(g, bufOf, pred.value);
        BuffersConcat(bufOf, FindLoads(index), FindLoads(pred.value));
      }
    case _ =>
  }

  lemma {:induction false} LowerAllReads(g: Graph, bufOf: BufferOf, es: seq<PrimExpr>)
    requires LowerAll(g, bufOf, es).Ok?
    ensures ReadsOfAll(LowerAll(g, bufOf, es).value) <= ReadsOfAll(es) + BuffersOf(bufOf, FindAllLoads(es))
    decreases es, 0
  {
    if es != [] {
      LowerExprReads(g, bufOf, es[0]);
      LowerAllReads(g, bufOf, es[1..]);
      BuffersConcat(bufOf, FindLoads(es[0]), FindAllLoads(es[1..]));
      var xs := LowerAll(g, bufOf, es).value;
      assert xs[1..] == LowerAll(g, bufOf, es[1..]).value;
    }
  }

  lemma {:induction false} NestFrame(vars: seq<VarId>, ds: seq<Domain>, body: Stmt)
    requires |vars| == |ds| && ConstDomains(ds)
    ensures StmtReads(Nest(vars, ds, body)) == StmtReads(body) && StmtWrites(Nest(vars, ds, body)) == StmtWrites(body)
    decreases |vars|
  {
    hide IntExpr, IntValue;
    if vars != [] {
      ConstReads(ds[0].lo);
      ConstReads(ds[0].extent);
      NestFrame(vars[1..], ds[1..], body);
    }
  }

  lemma {:induction false} VarsRead(vars: seq<VarId>)
    ensures ReadsOfAll(VarExprs(vars)) == {}
  {
    if vars != [] {
      assert VarExprs(vars)[1..] == VarExprs(vars[1..]);
      VarsRead(vars[1..]);
    }
  }

  lemma TwoFrame(a: Stmt, b: Stmt)
    ensures StmtReads(SeqStmt([a, b])) == StmtReads(a) + StmtReads(b)
    ensures StmtWrites(SeqStmt([a, b])) == StmtWrites(a) + StmtWrites(b)
  {
    assert [a, b][1..] == [b] && [b][1..] == [];
    assert SeqReads([b]) == StmtReads(b) && SeqWrites([b]) == StmtWrites(b);
  }

  /** Only a reduction reads the buffer it fills. */
  function OwnReads(op: Op, out: BufId): set<BufId>
    requires op.Compute? && op.body != []
  {
    if op.body[0].Reduce? then {out} else {}
  }

  /** The statement of a tensor writes its own buffer only; it reads those it loads from, and a reduction its own. */
  lemma ComputeFrame(g: Graph, bufOf: BufferOf, t: nat)
    requires t < |g| && g[t].Compute? && |g[t].axis| == |g[t].dims| && LowerCompute(g, bufOf, t).Ok?
    requires ConstAxes(ReduceAxes(g[t]))
    ensures StmtWrites(LowerCompute(g, bufOf, t).value) == {bufOf[t]}
    ensures var loaded, own := StmtReads(LowerCompute(g, bufOf, t).value), OwnReads(g[t], bufOf[t]);
      own <= loaded <= own + ReadsOfAll(g[t].body) + BuffersOf(bufOf, Deps(g[t]))
  {
    var op, out := g[t], bufOf[t];
    var flat := FlattenExpr(VarExprs(op.axis), op.dims).value;
    VarsRead(op.axis);
    FlattenReads(VarExprs(op.axis), op.dims);
    var e := op.body[0];
    SingleBody(op.body);
    if e.Reduce? {
      SingleBody(e.source);
      LowerExprReads(g, bufOf, e.source[0]);
      var src := LowerExpr(g, bufOf, e.source[0]).value;
      ReduceFrame(op, e, out, flat, src);
    } else {
      LowerExprReads(g, bufOf, e);
      DataRanges(op.dims);
      NestFrame(op.axis, DataDomains(op.dims), Store(out, LowerExpr(g, bufOf, e).value, flat, None));
    }
  }

  lemma SingleBody(es: seq<PrimExpr>)
    requires |es| == 1
    ensures FindAllLoads(es) == FindLoads(es[0]) && ReadsOfAll(es) == ReadsOf(es[0])
  {
    assert es[1..] == [];
    assert FindLoads(es[0]) + [] == FindLoads(es[0]);
  }

  lemma ReduceFrame(op: Op, red: PrimExpr, out: BufId, flat: PrimExpr, src: PrimExpr)
    requires op.Compute? && |op.axis| == |op.dims| && red.Reduce? && ReadsOf(flat) == {} && ConstAxes(red.axis)
    ensures var init := Store(out, IdentityExpr(red.rtype, op.isFloat), flat, None);
      var update := Store(out, Binary(ReduceOp(red.rtype), Load(out, flat, None), src), flat, None);
      var s := Nest(op.axis, DataDomains(op.dims),
        SeqStmt([init, Nest(AxisVars(red.axis), AxisDomains(red.axis), update)]));
      StmtWrites(s) == {out} && StmtReads(s) == {out} + ReadsOf(src)
  {
    var init := Store(out, IdentityExpr(red.rtype, op.isFloat), flat, None);
    var update := Store(out, Binary(ReduceOp(red.rtype), Load(out, flat, None), src), flat, None);
    DataRanges(op.dims);
    ReduceRanges(red.axis);
    var loops := Nest(AxisVars(red.axis), AxisDomains(red.axis), update);
    NestFrame(AxisVars(red.axis), AxisDomains(red.axis), update);
    TwoFrame(init, loops);
    NestFrame(op.axis, DataDomains(op.dims), SeqStmt([init, loops]));
    assert ReadsOf(Load(out, flat, None)) == {out};
    assert StmtReads(init) == {};
  }

  /**
   In the emitted order, the statement of the i-th collected tensor writes only its own
   buffer and reads only buffers of tensors collected before it, and a reduction its own
   (given that its body holds no raw loads).  Where no two tensors share a buffer, the
   reductions are exactly the statements that read what they write.
   */
  lemma EmittedFrame(g: Graph, outputs: seq<nat>, bufOf: BufferOf, i: nat)
    requires Acyclic(g) && FreshAxes(g) && AllBelow(outputs, |g|) && i < |Topo(g, outputs)|
    requires Topo(g, outputs)[i] < |g| && g[Topo(g, outputs)[i]].Compute?
      && LowerCompute(g, bufOf, Topo(g, outputs)[i]).Ok?
    requires ReadsOfAll(g[Topo(g, outputs)[i]].body) == {}
    ensures var topo := Topo(g, outputs);
      var s := LowerCompute(g, bufOf, topo[i]).value;
      StmtWrites(s) == {bufOf[topo[i]]}
      && StmtReads(s) <= OwnReads(g[topo[i]], bufOf[topo[i]]) + BuffersOf(bufOf, topo[..i])
      && (Unshared(bufOf) ==> (bufOf[topo[i]] in StmtReads(s) <==> g[topo[i]].body[0].Reduce?))
  {
    var topo := Topo(g, outputs);
    TopoFacts(g, outputs);
    ComputeFrame(g, bufOf, topo[i]);
    var deps := Deps(g[topo[i]]);
    assert Elems(deps) <= Elems(topo[..i]);
    forall b | b in BuffersOf(bufOf, deps) ensures b in BuffersOf(bufOf, topo[..i]) {
      var t :| t in deps && t in bufOf && bufOf[t] == b;
      assert t in Elems(deps);
      assert t in topo[..i];
    }
  }
}
