/**
 The elementwise operators with broadcasting, as tensor expressions, and when they compute
 what the type checker announces.

 Only two literal dimensions are joined.  Of any other pair the first is taken, and only a
 literal 1 is read at index 0, so an unfolded dimension of size 1 is not broadcast.
 */
module TopiBroadcast {
  import opened Base
  import opened Tir
  import opened IndexSpace
  import opened Te
  import opened LoopNests
  import opened LowerCorrect
  import opened Meaning
  import opened Broadcast

  // ---------- shape and index ----------

  /** The dimension at position `i` of a shape of rank `rank`: a literal 1 where there is none. */
  function AlignedDim(dims: seq<Dim>, rank: nat, i: nat): (d: Dim)
    requires |dims| <= rank && i < rank
    ensures ConstValue(d) == Aligned(Sizes(dims), rank, i)
  {
    if |dims| + i >= rank then dims[|dims| + i - rank] else IntImm(1)
  }

  function Rank(l: seq<Dim>, r: seq<Dim>): nat {
    Broadcast.Max(|l|, |r|)
  }

  function InferDim(a: Dim, b: Dim): Dim {
    if a.IntImm? && b.IntImm? then
      if a.n == 1 then b else if b.n == 1 then a else if a.n == b.n then a else if a.n > b.n then a else b
    else a
  }

  function Inferred(l: seq<Dim>, r: seq<Dim>): (out: seq<Dim>)
    ensures |out| == Rank(l, r)
    ensures forall i :: 0 <= i < |out| ==> out[i] == InferDim(AlignedDim(l, |out|, i), AlignedDim(r, |out|, i))
  {
    var rank := Rank(l, r);
    seq(rank, i requires 0 <= i < rank => InferDim(AlignedDim(l, rank, i), AlignedDim(r, rank, i)))
  }

  method InferBroadcastShape(l: seq<Dim>, r: seq<Dim>) returns (out: seq<Dim>)
    ensures out == Inferred(l, r)
  {
    var one: Dim := IntImm(1);
    var rank := Rank(l, r);
    var loff, roff := rank - |l|, rank - |r|;
    out := [];
    for i := 0 to rank
      invariant |out| == i && forall k :: 0 <= k < i ==> out[k] == Inferred(l, r)[k]
    {
      var a: Dim := if i >= loff then l[i - loff] else one;
      var b: Dim := if i >= roff then r[i - roff] else one;
      if a.IntImm? && b.IntImm? {
        if a.n == 1 {
          out := out + [b];
        } else if b.n == 1 {
          out := out + [a];
        } else if a.n == b.n {
          out := out + [a];
        } else {
          out := out + [if a.n > b.n then a else b];
        }
      } else {
        out := out + [a];
      }
    }
  }

  /** The index an input is read at, as expressions over the output's axes. */
  function IndexExprs(vars: seq<VarId>, dims: seq<Dim>): (r: seq<PrimExpr>)
    requires |dims| <= |vars|
    ensures |r| == |dims|
  {
    seq(|dims|, i requires 0 <= i < |dims| =>
      if dims[i] == IntImm(1) then IntImm(0) else Var(vars[i + |vars| - |dims|]))
  }

  method GetBroadcastIndices(vars: seq<VarId>, dims: seq<Dim>) returns (r: seq<PrimExpr>)
    requires |dims| <= |vars|
    ensures r == IndexExprs(vars, dims)
  {
    r := [];
    var offset := |vars| - |dims|;
    for i := 0 to |dims|
      invariant |r| == i && forall k :: 0 <= k < i ==> r[k] == IndexExprs(vars, dims)[k]
    {
      if dims[i].IntImm? && dims[i].n == 1 {
        r := r + [IntImm(0)];
      } else {
        r := r + [Var(vars[i + offset])];
      }
    }
  }

  // ---------- the shape ----------

  /** The two dimensions at a position. */
  datatype Pair = Pair(a: Dim, b: Dim) {
    const x: nat := ConstValue(a)
    const y: nat := ConstValue(b)

    predicate Literals() {
      a.IntImm? && b.IntImm?
    }

    /** The inferred dimension is the joined one. */
    predicate Joins() {
      Literals() || x == y || y == 1
    }

    /** Every index below the inferred dimension is read inside both inputs. */
    predicate Reads() {
      if Literals() then JoinDim(x, y).Some? else x <= y || b == IntImm(1)
    }

    predicate Broadcasts() {
      Literals() || x == y || b == IntImm(1)
    }
  }

  function At(l: seq<Dim>, r: seq<Dim>, i: nat): Pair
    requires i < Rank(l, r)
  {
    Pair(AlignedDim(l, Rank(l, r), i), AlignedDim(r, Rank(l, r), i))
  }

  /** The sizes the type checker is given are accepted. */
  ghost predicate Accepted(l: seq<Dim>, r: seq<Dim>) {
    Broadcast.Broadcasts(Sizes(l), Sizes(r))
  }

  /**
   For sizes the type checker accepts, the tensor has the shape it announces exactly when at
   every position both dimensions are literals, or they are equal, or the second one is 1.
   */
  lemma ShapeExact(l: seq<Dim>, r: seq<Dim>)
    requires Accepted(l, r)
    ensures Sizes(Inferred(l, r)) == Joined(Sizes(l), Sizes(r))
       <==> forall i :: 0 <= i < Rank(l, r) ==> At(l, r, i).Joins()
  {
    hide IntExpr, IntValue;
    var out, joined := Sizes(Inferred(l, r)), Joined(Sizes(l), Sizes(r));
    forall i | 0 <= i < Rank(l, r) ensures out[i] == joined[i] <==> At(l, r, i).Joins() {
      JoinedAt(Sizes(l), Sizes(r), i);
      DimExact(At(l, r, i));
    }
  }

  lemma DimExact(p: Pair)
    requires JoinDim(p.x, p.y).Some?
    ensures ConstValue(InferDim(p.a, p.b)) == JoinDim(p.x, p.y).value <==> p.Joins()
  {
  }

  // ---------- the reads ----------

  /** The index an input is read at. */
  function InputIndex(idx: seq<int>, dims: seq<Dim>): (r: seq<int>)
    requires |dims| <= |idx|
    ensures |r| == |dims|
  {
    seq(|dims|, i requires 0 <= i < |dims| => if dims[i] == IntImm(1) then 0 else idx[i + |idx| - |dims|])
  }

  /** Every index of the output reads both inputs within their shapes. */
  ghost predicate ReadsInBounds(l: seq<Dim>, r: seq<Dim>) {
    forall idx: seq<int> :: InBox(idx, Sizes(Inferred(l, r))) ==>
      InBox(InputIndex(idx, l), Sizes(l)) && InBox(InputIndex(idx, r), Sizes(r))
  }

  ghost predicate Empty(l: seq<Dim>, r: seq<Dim>) {
    exists i :: 0 <= i < Rank(l, r) && Sizes(Inferred(l, r))[i] == 0
  }

  /** No read is out of bounds exactly when the output is empty or each position is read in bounds. */
  lemma ReadsExact(l: seq<Dim>, r: seq<Dim>)
    ensures ReadsInBounds(l, r) <==> Empty(l, r) || forall i :: 0 <= i < Rank(l, r) ==> At(l, r, i).Reads()
  {
    hide IntExpr, IntValue;
    if Empty(l, r) || forall i :: 0 <= i < Rank(l, r) ==> At(l, r, i).Reads() {
      forall idx | InBox(idx, Sizes(Inferred(l, r)))
        ensures InBox(InputIndex(idx, l), Sizes(l)) && InBox(InputIndex(idx, r), Sizes(r))
      {
        HasRoom(l, r, idx);
        InBounds(l, r, idx);
      }
    } else {
      var i :| 0 <= i < Rank(l, r) && !At(l, r, i).Reads();
      Overrun(l, r, i);
    }
  }

  lemma HasRoom(l: seq<Dim>, r: seq<Dim>, idx: seq<int>)
    requires InBox(idx, Sizes(Inferred(l, r)))
    ensures !Empty(l, r)
  {
    forall i | 0 <= i < Rank(l, r) ensures Sizes(Inferred(l, r))[i] > 0 {
      BoxHasRoom(idx, Sizes(Inferred(l, r)), i);
    }
  }

  lemma BoxHasRoom(idx: seq<int>, shape: seq<nat>, i: nat)
    requires InBox(idx, shape) && i < |shape|
    ensures 0 <= idx[i] < shape[i]
  {
  }

  lemma InBounds(l: seq<Dim>, r: seq<Dim>, idx: seq<int>)
    requires InBox(idx, Sizes(Inferred(l, r))) && forall i :: 0 <= i < Rank(l, r) ==> At(l, r, i).Reads()
    ensures InBox(InputIndex(idx, l), Sizes(l)) && InBox(InputIndex(idx, r), Sizes(r))
  {
    hide IntExpr, IntValue, InputIndex, Pair.Reads, InferDim, Inferred;
    forall i | 0 <= i < |l| ensures 0 <= InputIndex(idx, l)[i] < Sizes(l)[i] {
      PairIn(l, r, idx, i + Rank(l, r) - |l|);
      IndexIn(l, idx, i);
    }
    forall i | 0 <= i < |r| ensures 0 <= InputIndex(idx, r)[i] < Sizes(r)[i] {
      PairIn(l, r, idx, i + Rank(l, r) - |r|);
      IndexIn(r, idx, i);
    }
  }

  lemma PairIn(l: seq<Dim>, r: seq<Dim>, idx: seq<int>, k: nat)
    requires k < Rank(l, r) && InBox(idx, Sizes(Inferred(l, r))) && At(l, r, k).Reads()
    ensures |idx| == Rank(l, r) && 0 <= idx[k]
    ensures var p := At(l, r, k); (p.a == IntImm(1) || idx[k] < p.x) && (p.b == IntImm(1) || idx[k] < p.y)
  {
    hide IntExpr, IntValue, Pair.Reads, InferDim;
    BoxHasRoom(idx, Sizes(Inferred(l, r)), k);
    ReadAt(At(l, r, k), idx[k]);
  }

  lemma IndexIn(dims: seq<Dim>, idx: seq<int>, i: nat)
    requires i < |dims| <= |idx|
    requires var k := i + |idx| - |dims|; 0 <= idx[k] && (dims[i] == IntImm(1) || idx[k] < ConstValue(dims[i]))
    ensures 0 <= InputIndex(idx, dims)[i] < Sizes(dims)[i]
  {
  }

  lemma ReadAt(p: Pair, i: int)
    requires p.Reads() && 0 <= i < ConstValue(InferDim(p.a, p.b))
    ensures p.a == IntImm(1) || i < p.x
    ensures p.b == IntImm(1) || i < p.y
    ensures ConstValue(IntImm(1)) == 1
  {
  }

  lemma Overrun(l: seq<Dim>, r: seq<Dim>, i: nat)
    requires i < Rank(l, r) && !At(l, r, i).Reads() && !Empty(l, r)
    ensures !ReadsInBounds(l, r)
  {
    hide IntExpr, IntValue;
    var rank, out := Rank(l, r), Sizes(Inferred(l, r));
    var idx := seq(rank, k requires 0 <= k < rank => if k == i then out[i] - 1 else 0);
    assert InBox(idx, out);
    OverrunAt(At(l, r, i));
    var p := At(l, r, i);
    if p.a != IntImm(1) && p.x <= idx[i] {
      var k := i - (rank - |l|);
      assert InputIndex(idx, l)[k] >= Sizes(l)[k];
    } else {
      var k := i - (rank - |r|);
      assert InputIndex(idx, r)[k] >= Sizes(r)[k];
    }
  }

  /** A literal on one side only is the larger one; otherwise the second is overrun by the first. */
  lemma OverrunAt(p: Pair)
    requires !p.Reads() && ConstValue(InferDim(p.a, p.b)) > 0
    ensures var last := ConstValue(InferDim(p.a, p.b)) - 1;
      (p.a != IntImm(1) && p.x <= last) || (p.b != IntImm(1) && p.y <= last)
  {
  }

  /** For a non-empty output: the shape is the announced one and no read is out of bounds. */
  lemma BroadcastExact(l: seq<Dim>, r: seq<Dim>)
    requires Accepted(l, r) && !Empty(l, r)
    ensures (Sizes(Inferred(l, r)) == Joined(Sizes(l), Sizes(r)) && ReadsInBounds(l, r))
       <==> forall i :: 0 <= i < Rank(l, r) ==> At(l, r, i).Broadcasts()
  {
    hide IntExpr, IntValue, Pair.Joins, Pair.Reads, Pair.Broadcasts, ReadsInBounds, Joined, Inferred;
    ShapeExact(l, r);
    ReadsExact(l, r);
    forall i | 0 <= i < Rank(l, r)
      ensures At(l, r, i).Broadcasts() <==> At(l, r, i).Joins() && At(l, r, i).Reads()
    {
      PairAccepted(l, r, i);
      BothExact(At(l, r, i));
    }
  }

  lemma PairAccepted(l: seq<Dim>, r: seq<Dim>, i: nat)
    requires Accepted(l, r) && i < Rank(l, r)
    ensures JoinDim(At(l, r, i).x, At(l, r, i).y).Some?
    ensures !Empty(l, r) ==> ConstValue(InferDim(At(l, r, i).a, At(l, r, i).b)) > 0
  {
    JoinedAt(Sizes(l), Sizes(r), i);
    assert Sizes(Inferred(l, r))[i] >= 0;
  }

  lemma BothExact(p: Pair)
    requires JoinDim(p.x, p.y).Some? && ConstValue(InferDim(p.a, p.b)) > 0
    ensures p.Broadcasts() <==> p.Joins() && p.Reads()
  {
  }

  /** Among literal dimensions the two rules agree on shapes, and on what they accept. */
  lemma LiteralsAgree(l: seq<Dim>, r: seq<Dim>)
    requires forall i :: 0 <= i < Rank(l, r) ==> At(l, r, i).Literals()
    ensures Accepted(l, r) ==> Sizes(Inferred(l, r)) == Joined(Sizes(l), Sizes(r))
    ensures ReadsInBounds(l, r) <==> Empty(l, r) || Accepted(l, r)
  {
    hide IntExpr, IntValue, ReadsInBounds, Joined, Inferred, Empty;
    if Accepted(l, r) { ShapeExact(l, r); }
    ReadsExact(l, r);
    var rank := Rank(l, r);
    forall i | 0 <= i < rank
      ensures At(l, r, i).Reads() <==> JoinDim(Aligned(Sizes(l), rank, i), Aligned(Sizes(r), rank, i)).Some?
    {
      assert At(l, r, i).Literals();
    }
    if Accepted(l, r) {
      assert forall i :: 0 <= i < rank ==> JoinDim(Aligned(Sizes(l), rank, i), Aligned(Sizes(r), rank, i)).Some?;
    }
  }

  // ---------- what the operator computes ----------

  function Body(op: BinOp, x: nat, y: nat, l: seq<Dim>, r: seq<Dim>, vars: seq<VarId>): PrimExpr
    requires |vars| == Rank(l, r)
  {
    Binary(op, ProducerLoad(x, IndexExprs(vars, l)), ProducerLoad(y, IndexExprs(vars, r)))
  }

  method BroadcastBody(op: BinOp, x: nat, y: nat, l: seq<Dim>, r: seq<Dim>, vars: seq<VarId>) returns (e: PrimExpr)
    requires |vars| == Rank(l, r)
    ensures e == Body(op, x, y, l, r, vars)
  {
    var xs := GetBroadcastIndices(vars, l);
    var ys := GetBroadcastIndices(vars, r);
    e := Binary(op, ProducerLoad(x, xs), ProducerLoad(y, ys));
  }

  /** Tensor `t` of the graph is the operator applied to the tensors `x` and `y`. */
  ghost predicate IsBroadcast(g: Graph, t: nat, op: BinOp, x: nat, y: nat) {
    && t < |g| && g[t].Compute? && x < t && y < t && NoDup(g[t].axis) && |g[t].axis| == |g[t].dims|
    && g[t].dims == Inferred(g[x].dims, g[y].dims)
    && g[t].body == [Body(op, x, y, g[x].dims, g[y].dims, g[t].axis)]
  }

  function Apply(I: Interp, op: BinOp, a: Option<Value>, b: Option<Value>): Option<Value> {
    var x :- a;
    var y :- b;
    I.bin(op, x, y)
  }

  /** Each element is the operator applied to the elements at the two input indices, wherever those are. */
  lemma ElementIs(I: Interp, g: Graph, inp: Inputs, t: nat, op: BinOp, x: nat, y: nat, idx: seq<int>)
    requires ExactInts(I) && Acyclic(g) && IsBroadcast(g, t, op, x, y) && InBox(idx, g[t].shape)
    ensures Den(I, g, inp, t, idx) == Apply(I, op,
      Den(I, g, inp, x, InputIndex(idx, g[x].dims)), Den(I, g, inp, y, InputIndex(idx, g[y].dims)))
  {
    hide ExactInts, IntExpr, IntValue, LoadsIn, IndexExprs, InputIndex, Inferred;
    var vars := g[t].axis;
    var env := Bind(map[], vars, idx);
    BindBinds(map[], vars, idx);
    ReadMeans(I, g, inp, t, x, g[x].dims, vars, env, idx);
    ReadMeans(I, g, inp, t, y, g[y].dims, vars, env, idx);
  }

  lemma ReadMeans(
    I: Interp, g: Graph, inp: Inputs, t: nat, x: nat, dims: seq<Dim>, vars: seq<VarId>, env: Env, idx: seq<int>)
    requires ExactInts(I) && Acyclic(g) && t < |g| && x < t && |dims| <= |vars| && Bound(env, vars, idx)
    ensures LoadsIn(ProducerLoad(x, IndexExprs(vars, dims)), Below(t))
    ensures DenExpr(I, g, inp, t, ProducerLoad(x, IndexExprs(vars, dims)), env)
         == Den(I, g, inp, x, InputIndex(idx, dims))
  {
    hide ExactInts, Acyclic, Den, DenExpr, Means, Bound;
    BoundSize(env, vars, idx);
    var es, ns := IndexExprs(vars, dims), InputIndex(idx, dims);
    AllLoads(es, Below(t));
    forall k | 0 <= k < |es| ensures Means(I, g, inp, t, es[k], env, ns[k]) {
      if dims[k] == IntImm(1) {
        ConstMeans(I, g, inp, t, IntImm(0), env);
      } else {
        VarMeans(I, g, inp, t, env, vars, idx, k + |vars| - |dims|);
      }
    }
    LoadMeans(I, g, inp, t, x, es, env, ns);
  }

  /** The element broadcasting pairs with a position of the output: index 0 along every size of 1. */
  function Projected(idx: seq<int>, shape: seq<nat>): (r: seq<int>)
    requires |shape| <= |idx|
    ensures |r| == |shape|
  {
    seq(|shape|, i requires 0 <= i < |shape| => if shape[i] == 1 then 0 else idx[i + |idx| - |shape|])
  }

  /** An input index inside the input is the projected one. */
  lemma InsideIsProjected(idx: seq<int>, dims: seq<Dim>)
    requires |dims| <= |idx| && InBox(InputIndex(idx, dims), Sizes(dims))
    ensures InputIndex(idx, dims) == Projected(idx, Sizes(dims))
  {
    forall i | 0 <= i < |dims| ensures InputIndex(idx, dims)[i] == Projected(idx, Sizes(dims))[i] {
      BoxHasRoom(InputIndex(idx, dims), Sizes(dims), i);
    }
  }

  /**
   Where the type checker accepts and at every position both dimensions are literals, or they
   are equal, or the second one is the literal 1, the tensor has the announced shape and at
   each index the operator applied to the projected elements.
   */
  lemma BroadcastCorrect(I: Interp, g: Graph, inp: Inputs, t: nat, op: BinOp, x: nat, y: nat)
    requires ExactInts(I) && Acyclic(g) && IsBroadcast(g, t, op, x, y) && Accepted(g[x].dims, g[y].dims)
    requires forall i :: 0 <= i < Rank(g[x].dims, g[y].dims) ==> At(g[x].dims, g[y].dims, i).Broadcasts()
    ensures g[t].shape == Joined(g[x].shape, g[y].shape)
    ensures forall idx :: InBox(idx, g[t].shape) ==>
      InBox(Projected(idx, g[x].shape), g[x].shape) && InBox(Projected(idx, g[y].shape), g[y].shape)
      && Den(I, g, inp, t, idx) == Apply(I, op,
        Den(I, g, inp, x, Projected(idx, g[x].shape)), Den(I, g, inp, y, Projected(idx, g[y].shape)))
  {
    hide ExactInts, Acyclic, Den, IntExpr, IntValue, Pair.Joins, Pair.Reads, Pair.Broadcasts, InputIndex, Projected;
    hide Inferred, Joined;
    var l, r := g[x].dims, g[y].dims;
    forall i | 0 <= i < Rank(l, r) ensures At(l, r, i).Joins() {
      assert At(l, r, i).Broadcasts();
      BroadcastsJoins(At(l, r, i));
    }
    ShapeExact(l, r);
    forall idx | InBox(idx, g[t].shape)
      ensures InBox(Projected(idx, g[x].shape), g[x].shape) && InBox(Projected(idx, g[y].shape), g[y].shape)
      ensures Den(I, g, inp, t, idx) == Apply(I, op,
        Den(I, g, inp, x, Projected(idx, g[x].shape)), Den(I, g, inp, y, Projected(idx, g[y].shape)))
    {
      HasRoom(l, r, idx);
      BroadcastExact(l, r);
      InsideIsProjected(idx, l);
      InsideIsProjected(idx, r);
      ElementIs(I, g, inp, t, op, x, y, idx);
    }
  }

  lemma BroadcastsJoins(p: Pair)
    requires p.Broadcasts()
    ensures p.Joins() && p.x == ConstValue(p.a)
  {
  }

  /**
   Applied to tensors that are defined everywhere, by an operator that is defined on all values,
   the result is defined everywhere exactly when no read is out of bounds.
   */
  lemma BroadcastDefined(I: Interp, g: Graph, inp: Inputs, t: nat, op: BinOp, x: nat, y: nat)
    requires ExactInts(I) && Acyclic(g) && IsBroadcast(g, t, op, x, y)
    requires Defined(I, g, inp, x) && Defined(I, g, inp, y) && forall a, b :: I.bin(op, a, b).Some?
    ensures Defined(I, g, inp, t) <==> ReadsInBounds(g[x].dims, g[y].dims)
  {
    hide ExactInts, Acyclic, Den, IntExpr, IntValue, InputIndex, Inferred;
    var l, r := g[x].dims, g[y].dims;
    forall idx | InBox(idx, g[t].shape)
      ensures Den(I, g, inp, t, idx).Some? <==>
        InBox(InputIndex(idx, l), Sizes(l)) && InBox(InputIndex(idx, r), Sizes(r))
    {
      ElementIs(I, g, inp, t, op, x, y, idx);
      OutsideIsUndefined(I, g, inp, x, InputIndex(idx, l));
      OutsideIsUndefined(I, g, inp, y, InputIndex(idx, r));
    }
  }

  lemma OutsideIsUndefined(I: Interp, g: Graph, inp: Inputs, t: nat, idx: seq<int>)
    requires Acyclic(g) && t < |g|
    ensures !InBox(idx, g[t].shape) ==> Den(I, g, inp, t, idx).None?
  {
    hide Acyclic, DenExpr;
  }

  // ---------- unfolded dimensions ----------

  /** The output size of a 7 by 7 convolution of stride 2 over 224 positions, padded by 3. */
  const HALVED: PrimExpr := ConvDim(IntImm(224), IntImm(7), 2, 3, 1)

  /** The output size of a 1 by 1 convolution over one position. */
  const SINGLE: PrimExpr := ConvDim(IntImm(1), IntImm(1), 1, 0, 1)

  lemma UnfoldedValues()
    ensures IsConst(HALVED) && ConstValue(HALVED) == 112 && !HALVED.IntImm?
    ensures IsConst(SINGLE) && ConstValue(SINGLE) == 1 && !SINGLE.IntImm?
  {
    ConvDimCounts(IntImm(224), IntImm(7), 2, 3, 1);
    ConvDimCounts(IntImm(1), IntImm(1), 1, 0, 1);
  }

  lemma OneAxis(a: Dim, b: Dim)
    requires JoinDim(ConstValue(a), ConstValue(b)).Some?
    ensures Sizes([a]) == [ConstValue(a)] && Sizes([b]) == [ConstValue(b)] && Inferred([a], [b]) == [InferDim(a, b)]
    ensures Accepted([a], [b])
    ensures Joined(Sizes([a]), Sizes([b])) == [JoinDim(ConstValue(a), ConstValue(b)).value]
  {
    hide IntExpr, IntValue;
  }

  /** A literal 1 against an unfolded 112: the type checker announces 112, the tensor has size 1. */
  lemma LiteralOneIsNotExpanded()
    ensures IsConst(HALVED) && ConstValue(HALVED) == 112
    ensures var l: seq<Dim>, r: seq<Dim> := [IntImm(1)], [HALVED];
      Accepted(l, r) && Joined(Sizes(l), Sizes(r)) == [112] && Sizes(Inferred(l, r)) == [1]
  {
    UnfoldedValues();
    hide HALVED;
    OneAxis(IntImm(1), HALVED);
  }

  /** A literal 5 against an unfolded 1: the second input is read beyond its end. */
  lemma UnfoldedOneIsOverrun()
    ensures IsConst(SINGLE) && ConstValue(SINGLE) == 1
    ensures var l: seq<Dim>, r: seq<Dim> := [IntImm(5)], [SINGLE];
      Accepted(l, r) && InBox([4], Sizes(Inferred(l, r))) && InputIndex([4], r) == [4] && !InBox([4], Sizes(r))
  {
    UnfoldedValues();
    hide SINGLE;
    OneAxis(IntImm(5), SINGLE);
  }
}
