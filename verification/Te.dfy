/**
 Tensor-expression graphs and their meaning.

 A graph is the sequence of its operations in creation order, so an operation can only
 load tensors created before it.  Each operation produces one tensor, which is named by
 the operation's position.
 */
module Te {
  import opened Base
  import opened Tir
  import opened IndexSpace

  /** A dimension: an expression without variables whose value is not negative. */
  type Dim = e: PrimExpr | IsConst(e) && ConstValue(e) >= 0 witness IntImm(0)

  function Sizes(dims: seq<Dim>): (shape: seq<nat>)
    ensures |shape| == |dims| && forall i :: 0 <= i < |dims| ==> shape[i] == ConstValue(dims[i])
  {
    seq(|dims|, i requires 0 <= i < |dims| => ConstValue(dims[i]))
  }

  /** The output size of a convolution, as the operator builds it without folding. */
  function ConvDim(h: Dim, k: Dim, stride: int, pad: int, dilation: int): PrimExpr {
    var window := Binary(Add, Binary(Mul, Binary(Sub, k, IntImm(1)), IntImm(dilation)), IntImm(1));
    var room := Binary(Sub, Binary(Add, h, IntImm(2 * pad)), window);
    Binary(Add, Binary(Div, room, IntImm(stride)), IntImm(1))
  }

  /** It is a dimension whenever the window fits, and counts the positions of the window. */
  lemma ConvDimCounts(h: Dim, k: Dim, stride: int, pad: int, dilation: int)
    requires stride != 0
    ensures var room := ConstValue(h) + 2 * pad - ((ConstValue(k) - 1) * dilation + 1);
      IsConst(ConvDim(h, k, stride, pad, dilation))
      && ConstValue(ConvDim(h, k, stride, pad, dilation)) == Quotient(room, stride) + 1
      && (room >= 0 && stride > 0 ==>
            ConstValue(ConvDim(h, k, stride, pad, dilation)) >= 1
            && forall i: nat :: i * stride <= room <==> i < ConstValue(ConvDim(h, k, stride, pad, dilation)))
  {
    var window := Binary(Add, Binary(Mul, Binary(Sub, k, IntImm(1)), IntImm(dilation)), IntImm(1));
    var space := Binary(Sub, Binary(Add, h, IntImm(2 * pad)), window);
    ConstBinary(Sub, k, IntImm(1));
    ConstBinary(Mul, Binary(Sub, k, IntImm(1)), IntImm(dilation));
    ConstBinary(Add, Binary(Mul, Binary(Sub, k, IntImm(1)), IntImm(dilation)), IntImm(1));
    ConstBinary(Add, h, IntImm(2 * pad));
    ConstBinary(Sub, Binary(Add, h, IntImm(2 * pad)), window);
    ConstBinary(Div, space, IntImm(stride));
    ConstBinary(Add, Binary(Div, space, IntImm(stride)), IntImm(1));
    assert IsConst(window) && ConstValue(window) == (ConstValue(k) - 1) * dilation + 1;
    assert IsConst(space) && ConstValue(space) == ConstValue(h) + 2 * pad - ConstValue(window);
    var room := ConstValue(space);
    if room >= 0 && stride > 0 {
      forall i: nat ensures i * stride <= room <==> i < room / stride + 1 {
        Positions(i, stride, room);
      }
    }
  }

  lemma ConstBinary(op: BinOp, a: PrimExpr, b: PrimExpr)
    requires IsConst(a) && IsConst(b) && HasMeaning(op, ConstValue(b))
    ensures IsConst(Binary(op, a, b)) && ConstValue(Binary(op, a, b)) == Arith(op, ConstValue(a), ConstValue(b))
  {
  }

  lemma Positions(i: nat, stride: int, room: nat)
    requires stride > 0
    ensures i * stride <= room <==> i <= room / stride
  {
    var q := room / stride;
    assert q * stride <= room < q * stride + stride;
    if i <= q { Scaled(i, q, stride); } else { Scaled(q + 1, i, stride); }
  }

  lemma Scaled(a: int, b: int, stride: int)
    requires stride > 0 && a <= b
    ensures a * stride <= b * stride
  {
  }

  datatype Op =
    | Placeholder(dims: seq<Dim>)
    | Compute(axis: seq<VarId>, dims: seq<Dim>, body: seq<PrimExpr>, isFloat: bool)
  {
    /** The sizes the dimensions evaluate to. */
    const shape: seq<nat> := Sizes(dims)
  }

  type Graph = seq<Op>

  /** Every tensor that `e` loads is in `S`. */
  predicate LoadsIn(e: PrimExpr, S: set<nat>)
    decreases e, 0
  {
    match e
    case Binary(_, a, b) => LoadsIn(a, S) && LoadsIn(b, S)
    case Not(a) => LoadsIn(a, S)
    case Select(c, t, f) => LoadsIn(c, S) && LoadsIn(t, S) && LoadsIn(f, S)
    case Call(_, args) => AllLoadIn(args, S)
    case Load(_, index, pred) => LoadsIn(index, S) && (pred.Some? ==> LoadsIn(pred.value, S))
    case ProducerLoad(t, indices) => t in S && AllLoadIn(indices, S)
    case Reduce(_, _, source) => AllLoadIn(source, S)
    case _ => true
  }

  predicate AllLoadIn(es: seq<PrimExpr>, S: set<nat>)
    decreases es, 0
  {
    es == [] || (LoadsIn(es[0], S) && AllLoadIn(es[1..], S))
  }

  /** The tensors created before `t`. */
  function Below(t: nat): (S: set<nat>)
    ensures forall j :: j in S <==> 0 <= j < t
  {
    if t == 0 then {} else Below(t - 1) + {t - 1}
  }

  predicate Acyclic(g: Graph) {
    forall t :: 0 <= t < |g| && g[t].Compute? ==> AllLoadIn(g[t].body, Below(t))
  }

  function AxisVars(axis: seq<IterVar>): seq<VarId> {
    seq(|axis|, i requires 0 <= i < |axis| => axis[i].v)
  }

  function AxisRanges(axis: seq<IterVar>): seq<Range> {
    seq(|axis|, i requires 0 <= i < |axis| => Range(ConstValue(axis[i].lo), ConstValue(axis[i].extent)))
  }

  /** The reduction axes of an operation whose body is a reduction. */
  function ReduceAxes(op: Op): seq<IterVar> {
    if op.Compute? && |op.body| == 1 && op.body[0].Reduce? then op.body[0].axis else []
  }

  predicate ConstAxes(axis: seq<IterVar>) {
    forall i :: 0 <= i < |axis| ==> IsConst(axis[i].lo) && IsConst(axis[i].extent)
  }

  /**
   `te::compute` and `te::reduce_axis` create a new variable for every axis; the domains of
   reductions are made of dimensions.
   */
  ghost predicate FreshAxes(g: Graph) {
    forall t :: 0 <= t < |g| && g[t].Compute? ==>
      |g[t].axis| == |g[t].dims| && NoDup(g[t].axis + AxisVars(ReduceAxes(g[t]))) && ConstAxes(ReduceAxes(g[t]))
  }

  function Bind(env: Env, vars: seq<VarId>, pt: seq<int>): Env
    requires |vars| == |pt|
    decreases |vars|
  {
    if vars == [] then env else Bind(env[vars[0] := IntV(pt[0])], vars[1..], pt[1..])
  }

  function Ints(vs: seq<Value>): Option<seq<int>> {
    if vs == [] then Some([]) else
      var rest :- Ints(vs[1..]);
      if vs[0].IntV? then Some([vs[0].n] + rest) else None
  }

  function ReduceOp(rt: ReduceType): BinOp {
    match rt
    case SumReduce => Add
    case MaxReduce => Max
    case MinReduce => Min
  }

  const INT64_MIN: int := -0x8000_0000_0000_0000
  const INT64_MAX: int := 0x7fff_ffff_ffff_ffff

  /** The neutral element that starts a reduction. */
  function Identity(rt: ReduceType, isFloat: bool): Value {
    match rt
    case SumReduce => if isFloat then FltV(Fin(0.0)) else IntV(0)
    case MaxReduce => if isFloat then FltV(NegInf) else IntV(INT64_MIN)
    case MinReduce => if isFloat then FltV(PosInf) else IntV(INT64_MAX)
  }

  /** The left fold of a list of values. */
  function FoldValues(I: Interp, op: BinOp, acc: Value, xs: seq<Value>): Option<Value>
    decreases |xs|
  {
    if xs == [] then Some(acc) else
    var acc' :- I.bin(op, acc, xs[0]);
    FoldValues(I, op, acc', xs[1..])
  }

  /** The contents of the input tensors. */
  type Inputs = (nat, seq<int>) -> Value

  /** The element of tensor `t` at `idx`; `None` outside the shape or if its body faults. */
  function Den(I: Interp, g: Graph, inp: Inputs, t: nat, idx: seq<int>): Option<Value>
    requires Acyclic(g) && t < |g|
    decreases t, 3
  {
    if !InBox(idx, g[t].shape) then None else
    match g[t]
    case Placeholder(_) => Some(inp(t, idx))
    case Compute(axis, _, body, isFloat) =>
      if |body| != 1 || |axis| != |idx| then None else
      assert LoadsIn(body[0], Below(t));
      var env := Bind(map[], axis, idx);
      if body[0].Reduce? then
        if |body[0].source| != 1 then None else
        assert AllLoadIn(body[0].source, Below(t));
        assert LoadsIn(body[0].source[0], Below(t));
        var xs :- DenPoints(
          I, g, inp, t, body[0].source[0], AxisVars(body[0].axis), Points(AxisRanges(body[0].axis)), env);
        FoldValues(I, ReduceOp(body[0].rtype), Identity(body[0].rtype, isFloat), xs)
      else
        DenExpr(I, g, inp, t, body[0], env)
  }

  /** The values of the source at the points of the reduction box, in order. */
  function DenPoints(
    I: Interp, g: Graph, inp: Inputs, t: nat, src: PrimExpr, vars: seq<VarId>, pts: seq<seq<int>>, env: Env)
    : (r: Option<seq<Value>>)
    requires Acyclic(g) && t < |g| && LoadsIn(src, Below(t))
    ensures r.Some? ==> |r.value| == |pts|
    decreases t, 2, |pts|
  {
    if pts == [] then Some([]) else
    if |pts[0]| != |vars| then None else
    var x :- DenExpr(I, g, inp, t, src, Bind(env, vars, pts[0]));
    var xs :- DenPoints(I, g, inp, t, src, vars, pts[1..], env);
    Some([x] + xs)
  }

  /** The value of a body of tensor `t`; tensors it loads are read by their meaning. */
  function DenExpr(I: Interp, g: Graph, inp: Inputs, t: nat, e: PrimExpr, env: Env): Option<Value>
    requires Acyclic(g) && t <= |g| && LoadsIn(e, Below(t))
    decreases t, 1, e, 0
  {
    match e
    case IntImm(n) => Some(IntV(n))
    case FloatImm(f) => Some(FltV(f))
    case Var(v) => if v in env then Some(env[v]) else None
    case Binary(op, a, b) =>
      var x :- DenExpr(I, g, inp, t, a, env);
      var y :- DenExpr(I, g, inp, t, b, env);
      I.bin(op, x, y)
    case Not(a) =>
      var x :- DenExpr(I, g, inp, t, a, env);
      Some(I.neg(x))
    case Select(c, x, y) =>
      var b :- DenExpr(I, g, inp, t, c, env);
      if I.truthy(b) then DenExpr(I, g, inp, t, x, env) else DenExpr(I, g, inp, t, y, env)
    case Call(name, args) =>
      var xs :- DenAll(I, g, inp, t, args, env);
      I.call(name, xs)
    case ProducerLoad(d, indices) =>
      var xs :- DenAll(I, g, inp, t, indices, env);
      var idx :- Ints(xs);
      Den(I, g, inp, d, idx)
    case Load(_, _, _) => None
    case Reduce(_, _, _) => None
  }

  function DenAll(I: Interp, g: Graph, inp: Inputs, t: nat, es: seq<PrimExpr>, env: Env)
    : (r: Option<seq<Value>>)
    requires Acyclic(g) && t <= |g| && AllLoadIn(es, Below(t))
    ensures r.Some? ==> |r.value| == |es|
    decreases t, 1, es, 0
  {
    if es == [] then Some([]) else
      var x :- DenExpr(I, g, inp, t, es[0], env);
      var xs :- DenAll(I, g, inp, t, es[1..], env);
      Some([x] + xs)
  }
}
