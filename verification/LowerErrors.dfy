/** What each error of the lowering says about the graph. */
module LowerErrors {
  import opened Base
  import opened Tir
  import opened Te
  import opened Lower
  import opened LowerTheorem

  /** A reduction inside the expression. */
  predicate HoldsReduce(e: PrimExpr)
    decreases e, 0
  {
    match e
    case ProducerLoad(_, indices) => AnyReduce(indices)
    case Binary(_, a, b) => HoldsReduce(a) || HoldsReduce(b)
    case Not(a) => HoldsReduce(a)
    case Select(c, t, f) => HoldsReduce(c) || HoldsReduce(t) || HoldsReduce(f)
    case Call(_, args) => AnyReduce(args)
    case Load(_, index, pred) => HoldsReduce(index) || (pred.Some? && HoldsReduce(pred.value))
    case Reduce(_, _, _) => true
    case _ => false
  }

  predicate AnyReduce(es: seq<PrimExpr>)
    decreases es, 0
  {
    es != [] && (HoldsReduce(es[0]) || AnyReduce(es[1..]))
  }

  /** A load with more or fewer indices than the tensor has dimensions, which must have some. */
  predicate Misranked(g: Graph, e: PrimExpr)
    decreases e, 0
  {
    match e
    case ProducerLoad(t, indices) =>
      (t < |g| && g[t].dims != [] && |indices| != |g[t].dims|) || AnyMisranked(g, indices)
    case Binary(_, a, b) => Misranked(g, a) || Misranked(g, b)
    case Not(a) => Misranked(g, a)
    case Select(c, t, f) => Misranked(g, c) || Misranked(g, t) || Misranked(g, f)
    case Call(_, args) => AnyMisranked(g, args)
    case Load(_, index, pred) => Misranked(g, index) || (pred.Some? && Misranked(g, pred.value))
    case _ => false
  }

  predicate AnyMisranked(g: Graph, es: seq<PrimExpr>)
    decreases es, 0
  {
    es != [] && (Misranked(g, es[0]) || AnyMisranked(g, es[1..]))
  }

  /** What an error of expression lowering says. */
  predicate ExprBlamed(g: Graph, bufOf: BufferOf, error: LowerError, misranked: bool, reduce: bool) {
    match error
    case MissingBuffer(t) => t !in bufOf || t >= |g|
    case RankMismatch => misranked
    case NestedReduce => reduce
    case _ => false
  }

  lemma {:induction false} ExprErrors(g: Graph, bufOf: BufferOf, e: PrimExpr)
    ensures LowerExpr(g, bufOf, e).Err? ==>
      ExprBlamed(g, bufOf, LowerExpr(g, bufOf, e).error, Misranked(g, e), HoldsReduce(e))
    decreases e, 0
  {
    match e
    case ProducerLoad(_, indices) => AllExprErrors(g, bufOf, indices);
    case Binary(_, a, b) =>
      ExprErrors(g, bufOf, a);
      ExprErrors(g, bufOf, b);
    case Not(a) => ExprErrors(g, bufOf, a);
    case Select(c, t, f) =>
      ExprErrors(g, bufOf, c);
      ExprErrors(g, bufOf, t);
      ExprErrors(g, bufOf, f);
    case Call(_, args) => AllExprErrors(g, bufOf, args);
    case Load(_, index, pred) =>
      ExprErrors(g, bufOf, index);
      if pred.Some? { ExprErrors(g, bufOf, pred.value); }
    case _ =>
  }

  lemma {:induction false} AllExprErrors(g: Graph, bufOf: BufferOf, es: seq<PrimExpr>)
    ensures LowerAll(g, bufOf, es).Err? ==>
      ExprBlamed(g, bufOf, LowerAll(g, bufOf, es).error, AnyMisranked(g, es), AnyReduce(es))
    ensures LowerAll(g, bufOf, es).Ok? ==> |LowerAll(g, bufOf, es).value| == |es|
    decreases es, 0
  {
    if es != [] {
      ExprErrors(g, bufOf, es[0]);
      AllExprErrors(g, bufOf, es[1..]);
    }
  }

  /** The outputs from `i` on and before `k` are new compute tensors. */
  ghost predicate GoodBefore(g: Graph, outputs: seq<nat>, i: nat, k: nat)
    requires AllBelow(outputs, |g|) && k <= |outputs|
  {
    forall j :: i <= j < k ==> outputs[j] !in outputs[..j] && g[outputs[j]].Compute?
  }

  lemma {:induction false} OutputErrors(g: Graph, outputs: seq<nat>, i: nat)
    requires i <= |outputs| && AllBelow(outputs, |g|) && CheckOutputs(g, outputs, i).Some?
    ensures var e := CheckOutputs(g, outputs, i).value;
      (e.DuplicateOutput? || e.OutputNotCompute?) && i <= e.i < |outputs| && GoodBefore(g, outputs, i, e.i)
      && (e.DuplicateOutput? <==> outputs[e.i] in outputs[..e.i])
      && (e.OutputNotCompute? ==> g[outputs[e.i]].Placeholder?)
    decreases |outputs| - i
  {
    if outputs[i] !in outputs[..i] && g[outputs[i]].Compute? { OutputErrors(g, outputs, i + 1); }
  }

  /** The expression an operation computes: the source of a reduction, or the body. */
  function Source(op: Op): PrimExpr
    requires op.Compute? && |op.body| == 1 && (op.body[0].Reduce? ==> |op.body[0].source| == 1)
  {
    if op.body[0].Reduce? then op.body[0].source[0] else op.body[0]
  }

  /** What an error about one operation says. */
  ghost predicate OpBlamed(g: Graph, bufOf: BufferOf, t: nat, error: LowerError)
    requires t < |g| && g[t].Compute?
  {
    var op := g[t];
    match error
    case EmptyBody(u) => u == t && op.body == []
    case MultiBody(u) => u == t && |op.body| > 1
    case MultiSource(u) => u == t && |op.body| == 1 && op.body[0].Reduce? && |op.body[0].source| != 1
    case _ =>
      |op.body| == 1 && (op.body[0].Reduce? ==> |op.body[0].source| == 1)
      && ExprBlamed(g, bufOf, error, Misranked(g, Source(op)), HoldsReduce(Source(op)))
  }

  lemma OpErrors(g: Graph, bufOf: BufferOf, t: nat)
    requires t < |g| && g[t].Compute? && |g[t].axis| == |g[t].dims| && t in bufOf
    requires LowerCompute(g, bufOf, t).Err?
    ensures OpBlamed(g, bufOf, t, LowerCompute(g, bufOf, t).error)
  {
    hide LowerExpr, Misranked, HoldsReduce;
    var op := g[t];
    if |op.body| == 1 && (op.body[0].Reduce? ==> |op.body[0].source| == 1) { ExprErrors(g, bufOf, Source(op)); }
  }

  ghost predicate SomeOpBlamed(g: Graph, bufOf: BufferOf, topo: seq<nat>, error: LowerError) {
    exists t :: t in topo && t < |g| && g[t].Compute? && OpBlamed(g, bufOf, t, error)
  }

  lemma {:induction false} OpsErrors(g: Graph, bufOf: BufferOf, topo: seq<nat>)
    requires FreshAxes(g) && AllBelow(topo, |g|) && LowerOps(g, bufOf, topo).Err?
    requires forall t :: t in topo && g[t].Compute? ==> t in bufOf
    ensures SomeOpBlamed(g, bufOf, topo, LowerOps(g, bufOf, topo).error)
    decreases |topo|
  {
    hide LowerCompute, OpBlamed;
    var n := |topo| - 1;
    if LowerOps(g, bufOf, topo[..n]).Err? {
      OpsErrors(g, bufOf, topo[..n]);
      assert forall t :: t in topo[..n] ==> t in topo;
    } else {
      OpErrors(g, bufOf, topo[n]);
      assert topo[n] in topo;
    }
  }

  /**
   Every error says what it means: no outputs, the first output that is repeated or not
   computed, or an operation that is reachable and has the defect.
   */
  lemma ErrorsMean(g: Graph, inputs: seq<nat>, constants: seq<nat>, outputs: seq<nat>)
    requires ValidCall(g, inputs, constants, outputs) && FreshAxes(g)
    requires Lowered(g, inputs, constants, outputs).Err?
    ensures var e := Lowered(g, inputs, constants, outputs).error;
      (e.NoOutputs? <==> outputs == [])
      && (e.DuplicateOutput? ==>
            e.i < |outputs| && outputs[e.i] in outputs[..e.i] && GoodBefore(g, outputs, 0, e.i))
      && (e.OutputNotCompute? ==>
            e.i < |outputs| && outputs[e.i] !in outputs[..e.i] && g[outputs[e.i]].Placeholder?
            && GoodBefore(g, outputs, 0, e.i))
      && (!e.NoOutputs? && !e.DuplicateOutput? && !e.OutputNotCompute? ==>
            GoodOutputs(g, outputs) && AllBelow(Topo(g, outputs), |g|)
            && SomeOpBlamed(g, Buffers(g, inputs, constants, outputs), Topo(g, outputs), e))
  {
    hide LowerOps, OpBlamed, LowerCompute, FreshAxes, Acyclic, PostOrder;
    NoDefects(g, outputs);
    if outputs != [] {
      if CheckOutputs(g, outputs, 0).Some? {
        OutputErrors(g, outputs, 0);
      } else {
        var topo := Topo(g, outputs);
        BufferFacts(g, inputs, constants, outputs);
        ComputedBuffers(g, inputs + constants, outputs, topo, Buffers(g, inputs, constants, outputs));
        TopoBelow(g, outputs);
        OpsErrors(g, Buffers(g, inputs, constants, outputs), topo);
        NotOutputError(g, Buffers(g, inputs, constants, outputs), topo, Lowered(g, inputs, constants, outputs).error);
      }
    }
  }

  lemma NotOutputError(g: Graph, bufOf: BufferOf, topo: seq<nat>, error: LowerError)
    requires SomeOpBlamed(g, bufOf, topo, error)
    ensures !error.NoOutputs? && !error.DuplicateOutput? && !error.OutputNotCompute?
  {
  }

  lemma TopoBelow(g: Graph, outputs: seq<nat>)
    requires Acyclic(g) && AllBelow(outputs, |g|)
    ensures AllBelow(Topo(g, outputs), |g|)
  {
    CollectInRange(g, |g|, outputs, []);
  }
}
