/** Lowering of a tensor-expression graph to one TIR function. */
module Lower {
  import opened Base
  import opened Tir
  import opened Te
  import opened IndexSpace

  datatype LowerError =
    | NoOutputs
    | DuplicateOutput(i: nat)
    | OutputNotCompute(i: nat)
    | RankMismatch
    | MissingBuffer(t: nat)
    | NestedReduce
    | EmptyBody(t: nat)
    | MultiBody(t: nat)
    | MultiSource(t: nat)

  /**
   `params` are the buffers of the inputs, then the constants, then the outputs; the
   counts say where each group starts.
   */
  datatype PrimFunc = PrimFunc(params: seq<BufId>, body: Stmt, inputCount: nat, constantCount: nat, outputCount: nat)

  // ---------- index flattening ----------

  function HornerExpr(acc: PrimExpr, indices: seq<PrimExpr>, dims: seq<Dim>): PrimExpr
    requires |indices| == |dims|
    decreases |indices|
  {
    if indices == [] then acc else
      HornerExpr(Binary(Add, Binary(Mul, acc, dims[0]), indices[0]), indices[1..], dims[1..])
  }

  function FlattenExpr(indices: seq<PrimExpr>, dims: seq<Dim>): Result<PrimExpr, LowerError> {
    if dims == [] then Ok(IntImm(0))
    else if |indices| != |dims| then Err(RankMismatch)
    else Ok(HornerExpr(indices[0], indices[1..], dims[1..]))
  }

  method FlattenIndex(indices: seq<PrimExpr>, dims: seq<Dim>) returns (r: Result<PrimExpr, LowerError>)
    ensures r == FlattenExpr(indices, dims)
  {
    if dims == [] { return Ok(IntImm(0)); }
    if |indices| != |dims| { return Err(RankMismatch); }
    var linear := indices[0];
    var i := 1;
    while i < |indices|
      invariant 1 <= i <= |indices|
      invariant HornerExpr(linear, indices[i..], dims[i..]) == HornerExpr(indices[0], indices[1..], dims[1..])
    {
      linear := Binary(Add, Binary(Mul, linear, dims[i]), indices[i]);
      i := i + 1;
    }
    return Ok(linear);
  }

  // ---------- dependencies and the post-order collection of operations ----------

  /** The tensors an expression loads, in the order the traversal meets them. */
  function FindLoads(e: PrimExpr): seq<nat>
    decreases e, 0
  {
    match e
    case ProducerLoad(t, indices) => [t] + FindAllLoads(indices)
    case Reduce(_, _, source) => FindAllLoads(source)
    case Binary(_, a, b) => FindLoads(a) + FindLoads(b)
    case Call(_, args) => FindAllLoads(args)
    case Select(c, t, f) => FindLoads(c) + FindLoads(t) + FindLoads(f)
    case Not(a) => FindLoads(a)
    case Load(_, index, pred) => FindLoads(index) + (if pred.Some? then FindLoads(pred.value) else [])
    case _ => []
  }

  function FindAllLoads(es: seq<PrimExpr>): seq<nat>
    decreases es, 0
  {
    if es == [] then [] else FindLoads(es[0]) + FindAllLoads(es[1..])
  }

  function Deps(op: Op): seq<nat> {
    if op.Compute? then FindAllLoads(op.body) else []
  }

  /** The loads found are exactly the loads there are. */
  lemma {:induction false} FindLoadsExact(e: PrimExpr, S: set<nat>)
    ensures LoadsIn(e, S) <==> Elems(FindLoads(e)) <= S
    decreases e, 0
  {
    match e
    case ProducerLoad(t, indices) =>
      FindAllLoadsExact(indices, S);
      assert Elems([t] + FindAllLoads(indices)) == {t} + Elems(FindAllLoads(indices));
    case Reduce(_, _, source) => FindAllLoadsExact(source, S);
    case Binary(_, a, b) =>
      FindLoadsExact(a, S); FindLoadsExact(b, S);
      ElemsConcat(FindLoads(a), FindLoads(b));
    case Call(_, args) => FindAllLoadsExact(args, S);
    case Select(c, t, f) =>
      FindLoadsExact(c, S); FindLoadsExact(t, S); FindLoadsExact(f, S);
      ElemsConcat(FindLoads(c), FindLoads(t));
      ElemsConcat(FindLoads(c) + FindLoads(t), FindLoads(f));
    case Not(a) => FindLoadsExact(a, S);
    case Load(_, index, pred) =>
      FindLoadsExact(index, S);
      if pred.Some? {
        FindLoadsExact(pred.value, S);
        ElemsConcat(FindLoads(index), FindLoads(pred.value));
      }
    case _ =>
  }

  lemma {:induction false} FindAllLoadsExact(es: seq<PrimExpr>, S: set<nat>)
    ensures AllLoadIn(es, S) <==> Elems(FindAllLoads(es)) <= S
    decreases es, 0
  {
    if es != [] {
      FindLoadsExact(es[0], S);
      FindAllLoadsExact(es[1..], S);
      ElemsConcat(FindLoads(es[0]), FindAllLoads(es[1..]));
    }
  }

  lemma ElemsConcat<T>(a: seq<T>, b: seq<T>)
    ensures Elems(a + b) == Elems(a) + Elems(b)
  {
  }

  lemma DepsBelow(g: Graph, t: nat)
    requires Acyclic(g) && t < |g|
    ensures AllBelow(Deps(g[t]), t)
  {
    if g[t].Compute? {
      FindAllLoadsExact(g[t].body, Below(t));
      forall i | 0 <= i < |Deps(g[t])|
        ensures Deps(g[t])[i] < t
      {
        assert Deps(g[t])[i] in Elems(FindAllLoads(g[t].body));
      }
    }
  }

  /** Post-order depth-first search from `t`, appended to what was collected before. */
  function Collect(g: Graph, t: nat, topo: seq<nat>): seq<nat>
    requires Acyclic(g) && t < |g|
    decreases t, 1
  {
    if t in topo then topo else
    DepsBelow(g, t);
    CollectAll(g, t, Deps(g[t]), topo) + [t]
  }

  function CollectAll(g: Graph, bound: nat, ds: seq<nat>, topo: seq<nat>): seq<nat>
    requires Acyclic(g) && bound <= |g|
    requires AllBelow(ds, bound)
    decreases bound, 0, |ds|
  {
    if ds == [] then topo else CollectAll(g, bound, ds[1..], Collect(g, ds[0], topo))
  }

  lemma {:induction false} CollectAllConcat(g: Graph, bound: nat, ds: seq<nat>, es: seq<nat>, topo: seq<nat>)
    requires Acyclic(g) && bound <= |g|
    requires AllBelow(ds, bound) && AllBelow(es, bound)
    ensures CollectAll(g, bound, ds + es, topo) == CollectAll(g, bound, es, CollectAll(g, bound, ds, topo))
    decreases |ds|
  {
    if ds == [] {
      assert ds + es == es;
    } else {
      assert (ds + es)[1..] == ds[1..] + es;
      CollectAllConcat(g, bound, ds[1..], es, Collect(g, ds[0], topo));
    }
  }

  /** The traversal state that the recursive collection updates. */
  class Collector {
    const g: Graph
    var visited: set<nat>
    var topo: seq<nat>

    constructor (g: Graph)
      ensures this.g == g && topo == [] && visited == {}
    {
      this.g := g;
      visited, topo := {}, [];
    }

    method CollectOps(t: nat)
      requires Acyclic(g) && t < |g| && visited == Elems(topo)
      modifies this
      ensures topo == Collect(g, t, old(topo)) && visited == Elems(topo)
      decreases t
    {
      if t in visited { return; }
      DepsBelow(g, t);
      if g[t].Compute? {
        var body := g[t].body;
        var i := 0;
        while i < |body|
          invariant 0 <= i <= |body|
          invariant visited == Elems(topo)
          invariant AllBelow(FindAllLoads(body[i..]), t)
          invariant CollectAll(g, t, FindAllLoads(body[i..]), topo) == CollectAll(g, t, Deps(g[t]), old(topo))
        {
          var deps := FindLoads(body[i]);
          ghost var more := FindAllLoads(body[i + 1..]);
          assert body[i..][1..] == body[i + 1..];
          assert FindAllLoads(body[i..]) == deps + more;
          assert forall k :: 0 <= k < |deps| ==> deps[k] == (deps + more)[k];
          assert forall k :: 0 <= k < |more| ==> more[k] == (deps + more)[|deps| + k];
          CollectAllConcat(g, t, deps, more, topo);
          ghost var before := topo;
          var j := 0;
          while j < |deps|
            invariant 0 <= j <= |deps|
            invariant visited == Elems(topo)
            invariant AllBelow(deps[j..], t)
            invariant CollectAll(g, t, deps[j..], topo) == CollectAll(g, t, deps, before)
          {
            assert deps[j..][1..] == deps[j + 1..];
            assert deps[j] in deps[j..];
            CollectOps(deps[j]);
            j := j + 1;
          }
          i := i + 1;
        }
      }
      visited := visited + {t};
      topo := topo + [t];
      NotCollectedEarly(g, t, Deps(g[t]), old(topo));
    }
  }

  /** A tensor cannot be collected below itself. */
  lemma NotCollectedEarly(g: Graph, t: nat, ds: seq<nat>, topo: seq<nat>)
    requires Acyclic(g) && t < |g| && t !in topo
    requires AllBelow(ds, t)
    ensures t !in CollectAll(g, t, ds, topo)
    decreases t, |ds|
  {
    if ds != [] {
      CollectStaysBelow(g, ds[0], topo, t);
      NotCollectedEarly(g, t, ds[1..], Collect(g, ds[0], topo));
    }
  }

  lemma {:induction false} CollectStaysBelow(g: Graph, t: nat, topo: seq<nat>, x: nat)
    requires Acyclic(g) && t < x && t < |g|
    ensures x in Collect(g, t, topo) <==> x in topo
    decreases t, 1
  {
    if t !in topo {
      DepsBelow(g, t);
      CollectAllStaysBelow(g, t, Deps(g[t]), topo, x);
    }
  }

  lemma {:induction false} CollectAllStaysBelow(g: Graph, bound: nat, ds: seq<nat>, topo: seq<nat>, x: nat)
    requires Acyclic(g) && bound <= |g| && bound <= x
    requires AllBelow(ds, bound)
    ensures x in CollectAll(g, bound, ds, topo) <==> x in topo
    decreases bound, 0, |ds|
  {
    if ds != [] {
      CollectStaysBelow(g, ds[0], topo, x);
      CollectAllStaysBelow(g, bound, ds[1..], Collect(g, ds[0], topo), x);
    }
  }

  // ---------- expressions ----------

  type BufferOf = map<nat, BufId>

  function LowerExpr(g: Graph, bufOf: BufferOf, e: PrimExpr): Result<PrimExpr, LowerError>
    decreases e, 0
  {
    match e
    case ProducerLoad(t, indices) =>
      if t !in bufOf || t >= |g| then Err(MissingBuffer(t)) else
      var xs :- LowerAll(g, bufOf, indices);
      var linear :- FlattenExpr(xs, g[t].dims);
      Ok(Load(bufOf[t], linear, None))
    case Binary(op, a, b) =>
      var x :- LowerExpr(g, bufOf, a);
      var y :- LowerExpr(g, bufOf, b);
      Ok(Binary(op, x, y))
    case Not(a) =>
      var x :- LowerExpr(g, bufOf, a);
      Ok(Not(x))
    case Select(c, t, f) =>
      var x :- LowerExpr(g, bufOf, c);
      var y :- LowerExpr(g, bufOf, t);
      var z :- LowerExpr(g, bufOf, f);
      Ok(Select(x, y, z))
    case Call(name, args) =>
      var xs :- LowerAll(g, bufOf, args);
      Ok(Call(name, xs))
    case Load(buf, index, pred) =>
      (match pred
       case None =>
         var i :- LowerExpr(g, bufOf, index);
         Ok(Load(buf, i, None))
       case Some(p) =>
         var q :- LowerExpr(g, bufOf, p);
         var i :- LowerExpr(g, bufOf, index);
         Ok(Load(buf, i, Some(q))))
    case Reduce(_, _, _) => Err(NestedReduce)
    case _ => Ok(e)
  }

  function LowerAll(g: Graph, bufOf: BufferOf, es: seq<PrimExpr>): Result<seq<PrimExpr>, LowerError>
    decreases es, 0
  {
    if es == [] then Ok([]) else
      var x :- LowerExpr(g, bufOf, es[0]);
      var xs :- LowerAll(g, bufOf, es[1..]);
      Ok([x] + xs)
  }

  // ---------- statements ----------

  function VarExprs(vars: seq<VarId>): seq<PrimExpr> {
    seq(|vars|, i requires 0 <= i < |vars| => Var(vars[i]))
  }

  /** The bounds of a loop. */
  datatype Domain = Domain(lo: PrimExpr, extent: PrimExpr)

  function DataDomains(dims: seq<Dim>): seq<Domain> {
    seq(|dims|, i requires 0 <= i < |dims| => Domain(IntImm(0), dims[i]))
  }

  function AxisDomains(axis: seq<IterVar>): seq<Domain> {
    seq(|axis|, i requires 0 <= i < |axis| => Domain(axis[i].lo, axis[i].extent))
  }

  /** A loop nest with the first variable outermost. */
  function Nest(vars: seq<VarId>, ds: seq<Domain>, body: Stmt): Stmt
    requires |vars| == |ds|
  {
    if vars == [] then body
    else For(vars[0], ds[0].lo, ds[0].extent, Nest(vars[1..], ds[1..], body))
  }

  function IdentityExpr(rt: ReduceType, isFloat: bool): PrimExpr {
    match Identity(rt, isFloat)
    case IntV(n) => IntImm(n)
    case FltV(f) => FloatImm(f)
  }

  /** The statement that fills the buffer of compute tensor `t`. */
  function LowerCompute(g: Graph, bufOf: BufferOf, t: nat): Result<Stmt, LowerError>
    requires t < |g| && g[t].Compute? && |g[t].axis| == |g[t].dims|
  {
    var op := g[t];
    if op.body == [] then Err(EmptyBody(t))
    else if |op.body| != 1 then Err(MultiBody(t))
    else if t !in bufOf then Err(MissingBuffer(t)) else
    var out := bufOf[t];
    var outIndex :- FlattenExpr(VarExprs(op.axis), op.dims);
    if op.body[0].Reduce? then
      var red := op.body[0];
      if |red.source| != 1 then Err(MultiSource(t)) else
      var src :- LowerExpr(g, bufOf, red.source[0]);
      var init := Store(out, IdentityExpr(red.rtype, op.isFloat), outIndex, None);
      var update := Store(out, Binary(ReduceOp(red.rtype), Load(out, outIndex, None), src), outIndex, None);
      Ok(Nest(op.axis, DataDomains(op.dims), SeqStmt([init, Nest(AxisVars(red.axis), AxisDomains(red.axis), update)])))
    else
      var lowered :- LowerExpr(g, bufOf, op.body[0]);
      Ok(Nest(op.axis, DataDomains(op.dims), Store(out, lowered, outIndex, None)))
  }

  method WrapDataLoops(axis: seq<VarId>, dims: seq<Dim>, inner: Stmt) returns (body: Stmt)
    requires |axis| == |dims|
    ensures body == Nest(axis, DataDomains(dims), inner)
  {
    body := inner;
    var i := |axis|;
    while i > 0
      invariant 0 <= i <= |axis|
      invariant body == Nest(axis[i..], DataDomains(dims)[i..], inner)
    {
      i := i - 1;
      body := For(axis[i], IntImm(0), dims[i], body);
      assert axis[i..][1..] == axis[i + 1..] && DataDomains(dims)[i..][1..] == DataDomains(dims)[i + 1..];
    }
    assert axis[0..] == axis && DataDomains(dims)[0..] == DataDomains(dims);
  }

  method LowerComputeStmt(g: Graph, bufOf: BufferOf, t: nat) returns (r: Result<Stmt, LowerError>)
    requires t < |g| && g[t].Compute? && |g[t].axis| == |g[t].dims|
    ensures r == LowerCompute(g, bufOf, t)
  {
    var op := g[t];
    if op.body == [] { return Err(EmptyBody(t)); }
    if |op.body| != 1 { return Err(MultiBody(t)); }
    if t !in bufOf { return Err(MissingBuffer(t)); }
    var out := bufOf[t];
    var dataIndices: seq<PrimExpr> := [];
    for i := 0 to |op.axis|
      invariant dataIndices == VarExprs(op.axis)[..i]
    {
      dataIndices := dataIndices + [Var(op.axis[i])];
    }
    assert dataIndices == VarExprs(op.axis);
    var flat := FlattenIndex(dataIndices, op.dims);
    if flat.Err? { return Err(flat.error); }
    var outIndex := flat.value;
    if op.body[0].Reduce? {
      var red := op.body[0];
      if |red.source| != 1 { return Err(MultiSource(t)); }
      var init := Store(out, IdentityExpr(red.rtype, op.isFloat), outIndex, None);
      var src := LowerExpr(g, bufOf, red.source[0]);
      if src.Err? { return Err(src.error); }
      var update := Store(out, Binary(ReduceOp(red.rtype), Load(out, outIndex, None), src.value), outIndex, None);
      var nest := update;
      var i := |red.axis|;
      while i > 0
        invariant 0 <= i <= |red.axis|
        invariant nest == Nest(AxisVars(red.axis)[i..], AxisDomains(red.axis)[i..], update)
      {
        i := i - 1;
        nest := For(red.axis[i].v, red.axis[i].lo, red.axis[i].extent, nest);
        assert AxisVars(red.axis)[i..][1..] == AxisVars(red.axis)[i + 1..];
        assert AxisDomains(red.axis)[i..][1..] == AxisDomains(red.axis)[i + 1..];
      }
      assert AxisVars(red.axis)[0..] == AxisVars(red.axis) && AxisDomains(red.axis)[0..] == AxisDomains(red.axis);
      var body := WrapDataLoops(op.axis, op.dims, SeqStmt([init, nest]));
      return Ok(body);
    }
    var lowered := LowerExpr(g, bufOf, op.body[0]);
    if lowered.Err? { return Err(lowered.error); }
    var body := WrapDataLoops(op.axis, op.dims, Store(out, lowered.value, outIndex, None));
    return Ok(body);
  }

  // ---------- the whole function ----------

  /** The first defect of the output list, scanning from position `i`. */
  function CheckOutputs(g: Graph, outputs: seq<nat>, i: nat): Option<LowerError>
    requires i <= |outputs| && AllBelow(outputs, |g|)
    decreases |outputs| - i
  {
    if i == |outputs| then None
    else if outputs[i] in outputs[..i] then Some(DuplicateOutput(i))
    else if !g[outputs[i]].Compute? then Some(OutputNotCompute(i))
    else CheckOutputs(g, outputs, i + 1)
  }

  /** The compute tensors of `topo` that are not outputs. */
  function Intermediates(g: Graph, topo: seq<nat>, outputs: seq<nat>): seq<nat>
    requires AllBelow(topo, |g|)
  {
    if topo == [] then [] else
    var n := |topo| - 1;
    var rest := Intermediates(g, topo[..n], outputs);
    if g[topo[n]].Compute? && topo[n] !in outputs then rest + [topo[n]] else rest
  }

  /** Buffer `b` belongs to tensor `owners[b]`; the last buffer made for a tensor is the one used. */
  function BufMap(owners: seq<nat>): BufferOf {
    if owners == [] then map[] else
    var n := |owners| - 1;
    BufMap(owners[..n])[owners[n] := n]
  }

  function LowerOps(g: Graph, bufOf: BufferOf, topo: seq<nat>): Result<seq<Stmt>, LowerError>
    requires FreshAxes(g) && AllBelow(topo, |g|)
  {
    if topo == [] then Ok([]) else
    var n := |topo| - 1;
    var ss :- LowerOps(g, bufOf, topo[..n]);
    if g[topo[n]].Placeholder? then Ok(ss) else
    var s :- LowerCompute(g, bufOf, topo[n]);
    Ok(ss + [s])
  }

  function SeqBody(ss: seq<Stmt>): Stmt {
    if ss == [] then Undef else if |ss| == 1 then ss[0] else SeqStmt(ss)
  }

  predicate Owned(g: Graph, bufOf: BufferOf, ts: seq<nat>) {
    forall i :: 0 <= i < |ts| ==> ts[i] < |g| && ts[i] in bufOf
  }

  /** Wraps the body in an allocation for every intermediate, the first one outermost. */
  function AllocAll(g: Graph, bufOf: BufferOf, ts: seq<nat>, body: Stmt): Stmt
    requires Owned(g, bufOf, ts)
  {
    if ts == [] then body
    else Allocate(bufOf[ts[0]], g[ts[0]].dims, IntImm(1), AllocAll(g, bufOf, ts[1..], body))
  }

  /** What the converter from Relay hands over: placeholders for parameters and constants. */
  predicate ValidCall(g: Graph, inputs: seq<nat>, constants: seq<nat>, outputs: seq<nat>) {
    && Acyclic(g)
    && (forall t :: t in inputs + constants ==> t < |g| && g[t].Placeholder?)
    && AllBelow(outputs, |g|)
  }

  function Owners(g: Graph, inputs: seq<nat>, constants: seq<nat>, outputs: seq<nat>, topo: seq<nat>): seq<nat>
    requires AllBelow(topo, |g|)
  {
    inputs + constants + outputs + Intermediates(g, topo, outputs)
  }

  function Lowered(g: Graph, inputs: seq<nat>, constants: seq<nat>, outputs: seq<nat>): Result<PrimFunc, LowerError>
    requires ValidCall(g, inputs, constants, outputs) && FreshAxes(g)
  {
    if outputs == [] then Err(NoOutputs)
    else if CheckOutputs(g, outputs, 0).Some? then Err(CheckOutputs(g, outputs, 0).value) else
    var topo := CollectAll(g, |g|, outputs, []);
    CollectInRange(g, |g|, outputs, []);
    var bufOf := BufMap(Owners(g, inputs, constants, outputs, topo));
    var ss :- LowerOps(g, bufOf, topo);
    IntermediatesOwned(g, inputs, constants, outputs, topo);
    Ok(PrimFunc(seq(|inputs| + |constants| + |outputs|, i requires 0 <= i => i),
                AllocAll(g, bufOf, Intermediates(g, topo, outputs), SeqBody(ss)),
                |inputs|, |constants|, |outputs|))
  }

  lemma {:induction false} CollectInRange(g: Graph, bound: nat, ds: seq<nat>, topo: seq<nat>)
    requires Acyclic(g) && bound <= |g|
    requires AllBelow(ds, bound)
    requires AllBelow(topo, |g|)
    ensures AllBelow(CollectAll(g, bound, ds, topo), |g|)
    decreases bound, |ds|
  {
    if ds != [] {
      if ds[0] !in topo {
        DepsBelow(g, ds[0]);
        CollectInRange(g, ds[0], Deps(g[ds[0]]), topo);
      }
      CollectInRange(g, bound, ds[1..], Collect(g, ds[0], topo));
    }
  }

  lemma {:induction false} BufMapFacts(owners: seq<nat>)
    ensures BufMap(owners).Keys == Elems(owners)
    ensures forall t :: t in BufMap(owners) ==> BufMap(owners)[t] < |owners| && owners[BufMap(owners)[t]] == t
    ensures forall t, b :: t in BufMap(owners) && BufMap(owners)[t] < b < |owners| ==> owners[b] != t
  {
    if owners != [] {
      var n := |owners| - 1;
      BufMapFacts(owners[..n]);
      assert owners == owners[..n] + [owners[n]];
    }
  }

  lemma {:induction false} IntermediatesFacts(g: Graph, topo: seq<nat>, outputs: seq<nat>)
    requires AllBelow(topo, |g|)
    ensures forall t :: t in Intermediates(g, topo, outputs) <==> t in topo && g[t].Compute? && t !in outputs
    ensures NoDup(topo) ==> NoDup(Intermediates(g, topo, outputs))
  {
    if topo != [] {
      var n := |topo| - 1;
      IntermediatesFacts(g, topo[..n], outputs);
      assert topo == topo[..n] + [topo[n]];
    }
  }

  lemma IntermediatesOwned(g: Graph, inputs: seq<nat>, constants: seq<nat>, outputs: seq<nat>, topo: seq<nat>)
    requires AllBelow(topo, |g|)
    ensures Owned(g, BufMap(Owners(g, inputs, constants, outputs, topo)), Intermediates(g, topo, outputs))
  {
    var owners := Owners(g, inputs, constants, outputs, topo);
    var ts := Intermediates(g, topo, outputs);
    BufMapFacts(owners);
    IntermediatesFacts(g, topo, outputs);
    forall i | 0 <= i < |ts|
      ensures ts[i] < |g| && ts[i] in BufMap(owners)
    {
      assert ts[i] in ts && ts[i] in Elems(owners);
    }
  }

  method CheckOutputList(g: Graph, outputs: seq<nat>) returns (r: Option<LowerError>)
    requires AllBelow(outputs, |g|)
    ensures r == CheckOutputs(g, outputs, 0)
  {
    var seen: set<nat> := {};
    for i := 0 to |outputs|
      invariant seen == Elems(outputs[..i])
      invariant CheckOutputs(g, outputs, i) == CheckOutputs(g, outputs, 0)
    {
      if outputs[i] in seen { return Some(DuplicateOutput(i)); }
      assert outputs[i] !in outputs[..i];
      seen := seen + {outputs[i]};
      assert outputs[..i + 1] == outputs[..i] + [outputs[i]];
      if !g[outputs[i]].Compute? { return Some(OutputNotCompute(i)); }
    }
    return None;
  }

  method CollectTopo(g: Graph, outputs: seq<nat>) returns (topo: seq<nat>)
    requires Acyclic(g) && AllBelow(outputs, |g|)
    ensures topo == CollectAll(g, |g|, outputs, [])
  {
    var collector := new Collector(g);
    for i := 0 to |outputs|
      invariant collector.g == g && collector.visited == Elems(collector.topo)
      invariant AllBelow(outputs[i..], |g|)
      invariant CollectAll(g, |g|, outputs[i..], collector.topo) == CollectAll(g, |g|, outputs, [])
    {
      assert outputs[i..][1..] == outputs[i + 1..];
      collector.CollectOps(outputs[i]);
    }
    topo := collector.topo;
  }

  /** Gives the next tensors of a parameter group their buffers. */
  method AddParams(params: seq<BufId>, bufOf: BufferOf, ts: seq<nat>, ghost owners: seq<nat>)
    returns (params': seq<BufId>, bufOf': BufferOf)
    requires |params| == |owners| && bufOf == BufMap(owners)
    requires params == seq(|params|, k requires 0 <= k => k)
    ensures |params'| == |owners + ts| && bufOf' == BufMap(owners + ts)
    ensures params' == seq(|params'|, k requires 0 <= k => k)
  {
    params', bufOf' := params, bufOf;
    assert owners + ts[..0] == owners;
    for i := 0 to |ts|
      invariant |params'| == |owners| + i && bufOf' == BufMap(owners + ts[..i])
      invariant params' == seq(|params'|, k requires 0 <= k => k)
    {
      assert (owners + ts[..i + 1])[..|owners| + i] == owners + ts[..i];
      bufOf' := bufOf'[ts[i] := |params'|];
      params' := params' + [|params'|];
    }
    assert ts[..|ts|] == ts;
  }

  method AddIntermediates(
    g: Graph, topo: seq<nat>, outputs: seq<nat>, next: nat, bufOf: BufferOf, ghost owners: seq<nat>)
    returns (intermediates: seq<nat>, bufOf': BufferOf)
    requires AllBelow(topo, |g|) && next == |owners| && bufOf == BufMap(owners)
    ensures intermediates == Intermediates(g, topo, outputs)
    ensures bufOf' == BufMap(owners + intermediates)
  {
    intermediates, bufOf' := [], bufOf;
    assert owners + [] == owners;
    for i := 0 to |topo|
      invariant intermediates == Intermediates(g, topo[..i], outputs)
      invariant bufOf' == BufMap(owners + intermediates)
    {
      assert topo[..i + 1][..i] == topo[..i];
      var t := topo[i];
      if g[t].Compute? && t !in outputs {
        bufOf' := bufOf'[t := next + |intermediates|];
        assert (owners + (intermediates + [t]))[..|owners| + |intermediates|] == owners + intermediates;
        intermediates := intermediates + [t];
      }
    }
    assert topo[..|topo|] == topo;
  }

  method LowerTopo(g: Graph, bufOf: BufferOf, topo: seq<nat>) returns (r: Result<seq<Stmt>, LowerError>)
    requires FreshAxes(g) && AllBelow(topo, |g|)
    ensures r == LowerOps(g, bufOf, topo)
  {
    var computeSeq: seq<Stmt> := [];
    for i := 0 to |topo|
      invariant LowerOps(g, bufOf, topo[..i]) == Ok(computeSeq)
    {
      assert topo[..i + 1][..i] == topo[..i];
      if g[topo[i]].Placeholder? { continue; }
      var s := LowerComputeStmt(g, bufOf, topo[i]);
      if s.Err? {
        LowerOpsFails(g, bufOf, topo, i, s.error);
        return Err(s.error);
      }
      computeSeq := computeSeq + [s.value];
    }
    assert topo[..|topo|] == topo;
    return Ok(computeSeq);
  }

  method WrapAllocations(g: Graph, bufOf: BufferOf, ts: seq<nat>, inner: Stmt) returns (body: Stmt)
    requires Owned(g, bufOf, ts)
    ensures body == AllocAll(g, bufOf, ts, inner)
  {
    body := inner;
    var i := |ts|;
    while i > 0
      invariant 0 <= i <= |ts|
      invariant body == AllocAll(g, bufOf, ts[i..], inner)
    {
      i := i - 1;
      assert ts[i..][1..] == ts[i + 1..];
      body := Allocate(bufOf[ts[i]], g[ts[i]].dims, IntImm(1), body);
    }
    assert ts[0..] == ts;
  }

  method LowerToTIR(g: Graph, inputs: seq<nat>, constants: seq<nat>, outputs: seq<nat>)
    returns (r: Result<PrimFunc, LowerError>)
    requires ValidCall(g, inputs, constants, outputs) && FreshAxes(g)
    ensures r == Lowered(g, inputs, constants, outputs)
  {
    hide NoDup, LowerOps, FreshAxes, Acyclic, Size, LowerCompute, AllocAll, Intermediates;
    if outputs == [] { return Err(NoOutputs); }
    var defect := CheckOutputList(g, outputs);
    if defect.Some? { return Err(defect.value); }
    var topo := CollectTopo(g, outputs);
    CollectInRange(g, |g|, outputs, []);

    var params, bufOf := AddParams([], map[], inputs, []);
    assert [] + inputs == inputs;
    params, bufOf := AddParams(params, bufOf, constants, inputs);
    params, bufOf := AddParams(params, bufOf, outputs, inputs + constants);
    var intermediates;
    intermediates, bufOf := AddIntermediates(g, topo, outputs, |params|, bufOf, inputs + constants + outputs);

    var ss := LowerTopo(g, bufOf, topo);
    if ss.Err? { return Err(ss.error); }
    var body := if ss.value == [] then Undef else if |ss.value| == 1 then ss.value[0] else SeqStmt(ss.value);
    IntermediatesOwned(g, inputs, constants, outputs, topo);
    body := WrapAllocations(g, bufOf, intermediates, body);
    return Ok(PrimFunc(params, body, |inputs|, |constants|, |outputs|));
  }

  /** The first operation that cannot be lowered decides the error. */
  lemma {:induction false} LowerOpsFails(g: Graph, bufOf: BufferOf, topo: seq<nat>, i: nat, e: LowerError)
    requires FreshAxes(g) && AllBelow(topo, |g|)
    requires i < |topo| && g[topo[i]].Compute?
    requires LowerOps(g, bufOf, topo[..i]).Ok? && LowerCompute(g, bufOf, topo[i]) == Err(e)
    ensures LowerOps(g, bufOf, topo) == Err(e)
  {
    hide LowerCompute, NoDup;
    var n := |topo| - 1;
    if i < n {
      assert topo[..n][..i] == topo[..i];
      LowerOpsFails(g, bufOf, topo[..n], i, e);
    }
  }
}
