/** Reshape and flatten as tensor expressions: both keep the row-major contents of their input. */
module ReshapeOp {
  import opened Base
  import opened Tir
  import opened IndexSpace
  import opened Te
  import opened LoopNests
  import opened Lower
  import opened LowerCorrect
  import opened Meaning
  import Broadcast
  import Reshapes

  // ---------- addresses ----------

  lemma {:induction false} SizeConcat(s: seq<nat>, t: seq<nat>)
    ensures Size(s + t) == Size(s) * Size(t)
  {
    if s == [] {
      assert s + t == t;
    } else {
      SizeConcat(s[1..], t);
      assert (s + t)[1..] == s[1..] + t;
      Assoc(s[0], Size(s[1..]), Size(t));
    }
  }

  lemma Assoc(a: int, b: int, c: int)
    ensures a * (b * c) == (a * b) * c
  {
  }

  lemma {:induction false} RowMajorConcat(x: seq<int>, y: seq<int>, s: seq<nat>, t: seq<nat>)
    requires |x| == |s| && |y| == |t|
    ensures RowMajor(x + y, s + t) == RowMajor(x, s) * Size(t) + RowMajor(y, t)
    decreases |x|
  {
    if x == [] {
      assert x + y == y && s + t == t;
    } else {
      RowMajorConcat(x[1..], y, s[1..], t);
      SizeConcat(s[1..], t);
      assert (x + y)[1..] == x[1..] + y && (s + t)[1..] == s[1..] + t;
      Assoc(x[0], Size(s[1..]), Size(t));
      Distribute(x[0] * Size(s[1..]), RowMajor(x[1..], s[1..]), Size(t));
    }
  }

  lemma Distribute(a: int, b: int, c: int)
    ensures (a + b) * c == a * c + b * c
  {
  }

  function Over(k: nat, d: nat): nat {
    if d == 0 then 0 else k / d
  }

  function Rest(k: nat, d: nat): nat {
    if d == 0 then 0 else k % d
  }

  lemma DivideMeans(k: nat, d: nat)
    requires d > 0
    ensures Arith(Div, k, d) == Over(k, d) && Arith(Mod, k, d) == Rest(k, d)
  {
  }

  /** The index that taking remainders from the last axis on arrives at. */
  function Unflatten(k: nat, shape: seq<nat>): (r: seq<int>)
    ensures |r| == |shape|
    decreases |shape|
  {
    if shape == [] then [] else
    var n := |shape| - 1;
    Unflatten(Over(k, shape[n]), shape[..n]) + [Rest(k, shape[n])]
  }

  /** It is always inside the shape, at the address modulo the number of elements. */
  lemma {:induction false} UnflattenAddress(k: nat, shape: seq<nat>)
    requires Size(shape) > 0
    ensures InBox(Unflatten(k, shape), shape) && RowMajor(Unflatten(k, shape), shape) == k % Size(shape)
    decreases |shape|
  {
    hide Size, RowMajor, Over, Rest;
    if shape == [] {
      Scalar(k);
    } else {
      var n := |shape| - 1;
      var front, d := shape[..n], shape[n];
      var q, r := Over(k, d), Rest(k, d);
      assert shape == front + [d];
      SizeConcat(front, [d]);
      OneAxis(r, d);
      Positive(Size(front), d);
      UnflattenAddress(q, front);
      RowMajorConcat(Unflatten(q, front), [r], front, [d]);
      NestedMod(k, d, Size(front));
    }
  }

  lemma Scalar(k: nat)
    ensures Size([]) == 1 && RowMajor([], []) == 0 == k % 1
  {
  }

  lemma OneAxis(i: int, d: nat)
    ensures Size([d]) == d && RowMajor([i], [d]) == i
  {
    var s: seq<nat>, x := [d], [i];
    assert s[1..] == [] && x[1..] == [];
  }

  lemma Positive(a: nat, b: nat)
    requires a * b > 0
    ensures a > 0 && b > 0
  {
  }

  lemma NestedMod(k: nat, d: nat, s: nat)
    requires d > 0 && s > 0
    ensures s * d > 0 && Rest(k, d) < d && (Over(k, d) % s) * d + Rest(k, d) == k % (s * d)
  {
    var q, m, r := k / d / s, (k / d) % s, k % d;
    assert k / d == q * s + m;
    Distribute(q * s, m, d);
    Assoc(q, s, d);
    assert k == q * (s * d) + (m * d + r);
    MulLe(m + 1, s, d);
    Distribute(m, 1, d);
    ModIs(k, s * d, q, m * d + r);
  }

  lemma ModIs(k: nat, n: nat, q: nat, r: nat)
    requires r < n && k == q * n + r
    ensures k % n == r
  {
    var p := k / n;
    assert k == p * n + k % n;
    if p < q { MulLe(p + 1, q, n); Distribute(p, 1, n); }
    if q < p { MulLe(q + 1, p, n); Distribute(q, 1, n); }
  }

  // ---------- the index expressions ----------

  function UnflattenExpr(flat: PrimExpr, dims: seq<Dim>): (r: seq<PrimExpr>)
    ensures |r| == |dims|
    decreases |dims|
  {
    if dims == [] then [] else
    var n := |dims| - 1;
    UnflattenExpr(Binary(Div, flat, dims[n]), dims[..n]) + [Binary(Mod, flat, dims[n])]
  }

  method UnflattenIndex(flat: PrimExpr, dims: seq<Dim>) returns (out: seq<PrimExpr>)
    ensures out == UnflattenExpr(flat, dims)
  {
    hide IntExpr, IntValue;
    out := seq(|dims|, _ => IntImm(0));
    var cur := flat;
    assert dims[..|dims|] == dims;
    for i := |dims| downto 0
      invariant |out| == |dims| && UnflattenExpr(cur, dims[..i]) + out[i..] == UnflattenExpr(flat, dims)
    {
      assert dims[..i + 1][..i] == dims[..i];
      ghost var rest := out[i + 1..];
      out := out[i := Binary(Mod, cur, dims[i])];
      assert out[i..] == [Binary(Mod, cur, dims[i])] + rest;
      cur := Binary(Div, cur, dims[i]);
    }
  }

  /** The components evaluate to the unflattened index. */
  lemma {:induction false} UnflattenMeans(
    I: Interp, g: Graph, inp: Inputs, t: nat, flat: PrimExpr, k: nat, dims: seq<Dim>, env: Env, j: nat)
    requires ExactInts(I) && Acyclic(g) && t <= |g| && Means(I, g, inp, t, flat, env, k)
    requires Size(Sizes(dims)) > 0 && j < |dims|
    ensures Means(I, g, inp, t, UnflattenExpr(flat, dims)[j], env, Unflatten(k, Sizes(dims))[j])
    decreases |dims|
  {
    hide Means, ExactInts, Acyclic, IntExpr, IntValue;
    var n := |dims| - 1;
    var d := ConstValue(dims[n]);
    assert Sizes(dims)[..n] == Sizes(dims[..n]) && Sizes(dims) == Sizes(dims[..n]) + [d];
    SizeConcat(Sizes(dims[..n]), [d]);
    OneAxis(0, d);
    Positive(Size(Sizes(dims[..n])), d);
    ConstMeans(I, g, inp, t, dims[n], env);
    DivideMeans(k, d);
    if j == n {
      BinaryMeans(I, g, inp, t, Mod, flat, dims[n], env, k, d);
    } else {
      BinaryMeans(I, g, inp, t, Div, flat, dims[n], env, k, d);
      UnflattenMeans(I, g, inp, t, Binary(Div, flat, dims[n]), Over(k, d), dims[..n], env, j);
    }
  }

  lemma {:induction false} HornerMeans(
    I: Interp, g: Graph, inp: Inputs, t: nat, acc: PrimExpr, a: int, es: seq<PrimExpr>, ns: seq<int>, dims: seq<Dim>,
    env: Env)
    requires ExactInts(I) && Acyclic(g) && t <= |g| && Means(I, g, inp, t, acc, env, a) && |es| == |ns| == |dims|
    requires forall k :: 0 <= k < |es| ==> Means(I, g, inp, t, es[k], env, ns[k])
    ensures Means(I, g, inp, t, HornerExpr(acc, es, dims), env, Horner(a, ns, Sizes(dims)))
    decreases |es|
  {
    hide Means, ExactInts, Acyclic, IntExpr, IntValue;
    if es != [] {
      var d := ConstValue(dims[0]);
      ConstMeans(I, g, inp, t, dims[0], env);
      BinaryMeans(I, g, inp, t, Mul, acc, dims[0], env, a, d);
      SumMeans(I, g, inp, t, Binary(Mul, acc, dims[0]), es[0], env, a * d, ns[0]);
      assert Sizes(dims)[1..] == Sizes(dims[1..]);
      var next := Binary(Add, Binary(Mul, acc, dims[0]), es[0]);
      HornerMeans(I, g, inp, t, next, a * d + ns[0], es[1..], ns[1..], dims[1..], env);
    }
  }

  /** The address of the output position, as an expression over the output's axes. */
  function FlatExpr(vars: seq<VarId>, dims: seq<Dim>): PrimExpr
    requires |vars| == |dims|
  {
    FlattenExpr(VarExprs(vars), dims).value
  }

  lemma FlatMeans(
    I: Interp, g: Graph, inp: Inputs, t: nat, vars: seq<VarId>, dims: seq<Dim>, env: Env, idx: seq<int>)
    requires ExactInts(I) && Acyclic(g) && t <= |g| && Bound(env, vars, idx) && |vars| == |dims|
    ensures |idx| == |dims| && Means(I, g, inp, t, FlatExpr(vars, dims), env, RowMajor(idx, Sizes(dims)))
  {
    hide Means, ExactInts, Acyclic, Bound;
    BoundSize(env, vars, idx);
    var es := VarExprs(vars);
    forall k | 0 <= k < |es| ensures Means(I, g, inp, t, es[k], env, idx[k]) {
      VarMeans(I, g, inp, t, env, vars, idx, k);
    }
    if dims == [] {
      ConstMeans(I, g, inp, t, IntImm(0), env);
    } else {
      HornerMeans(I, g, inp, t, es[0], idx[0], es[1..], idx[1..], dims[1..], env);
      assert Sizes(dims)[1..] == Sizes(dims[1..]);
      HornerFromFirst(idx, Sizes(dims));
    }
  }

  // ---------- reshape ----------

  /** Tensor `t` of the graph is `d` reshaped to its own dimensions. */
  ghost predicate IsReshapeOf(g: Graph, t: nat, d: nat) {
    && t < |g| && g[t].Compute? && d < t && NoDup(g[t].axis) && |g[t].axis| == |g[t].dims|
    && g[t].body == [ProducerLoad(d, UnflattenExpr(FlatExpr(g[t].axis, g[t].dims), g[d].dims))]
  }

  method ReshapeBody(d: nat, from: seq<Dim>, vars: seq<VarId>, to: seq<Dim>) returns (ret: PrimExpr)
    requires |vars| == |to|
    ensures ret == ProducerLoad(d, UnflattenExpr(FlatExpr(vars, to), from))
  {
    hide IntExpr, IntValue;
    var indices := [];
    for i := 0 to |vars|
      invariant indices == VarExprs(vars)[..i]
    {
      indices := indices + [Var(vars[i])];
    }
    assert indices == VarExprs(vars);
    var flat := FlattenIndex(indices, to);
    var idx := UnflattenIndex(flat.value, from);
    ret := ProducerLoad(d, idx);
  }

  /** Each position reads the input at the position's address. */
  lemma ReshapeReads(I: Interp, g: Graph, inp: Inputs, t: nat, d: nat, idx: seq<int>)
    requires ExactInts(I) && Acyclic(g) && IsReshapeOf(g, t, d) && InBox(idx, g[t].shape) && Size(g[d].shape) > 0
    ensures RowMajor(idx, g[t].shape) >= 0
    ensures Den(I, g, inp, t, idx) == Den(I, g, inp, d, Unflatten(RowMajor(idx, g[t].shape), g[d].shape))
  {
    hide ExactInts, IntExpr, IntValue, LoadsIn, Means, UnflattenExpr, FlatExpr, Size;
    var vars, dims := g[t].axis, g[d].dims;
    var env := Bind(map[], vars, idx);
    BindBinds(map[], vars, idx);
    FlatMeans(I, g, inp, t, vars, g[t].dims, env, idx);
    PointAtAddress(idx, g[t].shape);
    var k := RowMajor(idx, g[t].shape);
    var es, ns := UnflattenExpr(FlatExpr(vars, g[t].dims), dims), Unflatten(k, g[d].shape);
    forall j | 0 <= j < |es| ensures Means(I, g, inp, t, es[j], env, ns[j]) {
      UnflattenMeans(I, g, inp, t, FlatExpr(vars, g[t].dims), k, dims, env, j);
    }
    LoadOf(I, g, inp, t, d, es, env, ns);
  }

  lemma LoadOf(I: Interp, g: Graph, inp: Inputs, t: nat, d: nat, es: seq<PrimExpr>, env: Env, ns: seq<int>)
    requires Acyclic(g) && t <= |g| && d < t && |ns| == |es|
    requires forall k :: 0 <= k < |es| ==> Means(I, g, inp, t, es[k], env, ns[k])
    ensures LoadsIn(ProducerLoad(d, es), Below(t))
    ensures DenExpr(I, g, inp, t, ProducerLoad(d, es), env) == Den(I, g, inp, d, ns)
  {
    hide Acyclic, Den, DenExpr;
    AllLoads(es, Below(t));
    LoadMeans(I, g, inp, t, d, es, env, ns);
  }

  /** The k-th element is the input's element at k, counted around where the input is shorter. */
  lemma ReshapeElement(I: Interp, g: Graph, inp: Inputs, t: nat, d: nat, k: nat)
    requires ExactInts(I) && Acyclic(g) && IsReshapeOf(g, t, d) && Size(g[d].shape) > 0 && k < Size(g[t].shape)
    ensures |Contents(I, g, inp, t)| == Size(g[t].shape) && |Contents(I, g, inp, d)| == Size(g[d].shape)
    ensures Contents(I, g, inp, t)[k] == Contents(I, g, inp, d)[k % Size(g[d].shape)]
  {
    hide ExactInts, Acyclic, Den, Size, Unflatten, RowMajor, Points;
    AddressOfPoint(g[t].shape, k);
    PointCount(g[t].shape);
    PointCount(g[d].shape);
    var idx := Points(Dims(g[t].shape))[k];
    ReshapeReads(I, g, inp, t, d, idx);
    UnflattenAddress(k, g[d].shape);
    ContentsAt(I, g, inp, d, Unflatten(k, g[d].shape));
  }

  /** Reshape keeps the row-major contents exactly when it keeps the number of elements. */
  lemma ReshapeKeeps(I: Interp, g: Graph, inp: Inputs, t: nat, d: nat)
    requires ExactInts(I) && Acyclic(g) && IsReshapeOf(g, t, d)
    ensures Contents(I, g, inp, t) == Contents(I, g, inp, d) <==> Size(g[t].shape) == Size(g[d].shape)
  {
    hide ExactInts, Acyclic, Den, Size, Points, UnflattenExpr, FlatExpr, IntExpr, IntValue, NoDup;
    PointCount(g[t].shape);
    PointCount(g[d].shape);
    if Size(g[t].shape) == Size(g[d].shape) {
      forall k | 0 <= k < Size(g[t].shape)
        ensures Contents(I, g, inp, t)[k] == Contents(I, g, inp, d)[k]
      {
        ReshapeElement(I, g, inp, t, d, k);
        SmallMod(k, Size(g[d].shape));
      }
    }
  }

  /** A tensor with the contents of one that is defined everywhere is defined everywhere: no read is out of bounds. */
  lemma KeptIsDefined(I: Interp, g: Graph, inp: Inputs, t: nat, d: nat)
    requires Acyclic(g) && t < |g| && d < |g| && Contents(I, g, inp, t) == Contents(I, g, inp, d)
    requires Defined(I, g, inp, d)
    ensures Defined(I, g, inp, t)
  {
    hide Acyclic, Den, Points, RowMajor;
    PointCount(g[d].shape);
    forall idx | InBox(idx, g[t].shape) ensures Den(I, g, inp, t, idx).Some? {
      ContentsAt(I, g, inp, t, idx);
      AddressOfPoint(g[d].shape, RowMajor(idx, g[t].shape));
    }
  }

  // ---------- the type rule ----------

  lemma {:induction false} ProductIsSize(s: seq<nat>)
    ensures Reshapes.Product(s) == Size(s)
    decreases |s|
  {
    if s != [] {
      var n := |s| - 1;
      ProductIsSize(s[..n]);
      assert s == s[..n] + [s[n]];
      SizeConcat(s[..n], [s[n]]);
      OneAxis(0, s[n]);
    }
  }

  /** To every fully known shape that the type checker infers, reshape keeps the contents. */
  lemma InferredKeeps(
    I: Interp, g: Graph, inp: Inputs, t: nat, d: nat, newshape: Broadcast.Shape, allowzero: bool)
    requires ExactInts(I) && Acyclic(g) && IsReshapeOf(g, t, d)
    requires Reshapes.Reshape(g[d].shape, newshape, allowzero) == Ok(g[t].shape)
    ensures Contents(I, g, inp, t) == Contents(I, g, inp, d)
  {
    hide ExactInts, Acyclic, Contents, Reshapes.Reshape, Reshapes.Product, Size;
    Reshapes.CountConserved(g[d].shape, newshape, allowzero);
    ProductIsSize(g[d].shape);
    ProductIsSize(g[t].shape);
    ReshapeKeeps(I, g, inp, t, d);
  }

  // ---------- flatten ----------

  datatype FlattenProblem = RankZero | AxisOutOfRange

  function FlattenAxis(axis: int, rank: nat): (r: Result<nat, FlattenProblem>)
    ensures r.Ok? ==> r.value <= rank
  {
    if rank == 0 then Err(RankZero) else
    var a := if axis < 0 then axis + rank else axis;
    if a < 0 || a > rank then Err(AxisOutOfRange) else Ok(a)
  }

  /** The type rule of flatten, on which the axis may also be the rank. */
  function FlattenType(shape: Broadcast.Shape, axis: int): Result<Broadcast.Shape, FlattenProblem> {
    if shape == [] then Err(RankZero) else
    var a := if axis < 0 then axis + |shape| else axis;
    if a < 0 || a > |shape| then Err(AxisOutOfRange)
    else Ok([Reshapes.KnownProduct(shape[..a]), Reshapes.KnownProduct(shape[a..])])
  }

  /** The product of dimensions, as the operator builds it without folding. */
  function ProductExpr(dims: seq<Dim>): PrimExpr {
    if dims == [] then IntImm(1) else Binary(Mul, ProductExpr(dims[..|dims| - 1]), dims[|dims| - 1])
  }

  /** It is a dimension whose value is the number of elements. */
  lemma {:induction false} ProductValue(dims: seq<Dim>)
    ensures IsConst(ProductExpr(dims)) && ConstValue(ProductExpr(dims)) == Size(Sizes(dims))
    decreases |dims|
  {
    if dims != [] {
      var n := |dims| - 1;
      ProductValue(dims[..n]);
      assert Sizes(dims) == Sizes(dims[..n]) + [ConstValue(dims[n])];
      SizeConcat(Sizes(dims[..n]), [ConstValue(dims[n])]);
      OneAxis(0, ConstValue(dims[n]));
    }
  }

  /**
   The operator accepts the axes from minus the rank to the rank, as the type checker does, and
   its dimensions have the sizes the type checker announces: the products on both sides.
   */
  lemma FlattenAccepted(dims: seq<Dim>, axis: int)
    ensures FlattenAxis(axis, |dims|).Ok? <==> dims != [] && -|dims| <= axis <= |dims|
    ensures FlattenType(Sizes(dims), axis).Ok? <==> FlattenAxis(axis, |dims|).Ok?
    ensures FlattenAxis(axis, |dims|).Ok? ==>
      var a := FlattenAxis(axis, |dims|).value;
      a == (if axis < 0 then axis + |dims| else axis)
      && FlattenType(Sizes(dims), axis) == Ok([Size(Sizes(dims[..a])), Size(Sizes(dims[a..]))])
      && ConstValue(ProductExpr(dims[..a])) == Size(Sizes(dims[..a]))
      && ConstValue(ProductExpr(dims[a..])) == Size(Sizes(dims[a..]))
  {
    hide IntExpr, IntValue, Size, Reshapes.KnownProduct;
    if FlattenAxis(axis, |dims|).Ok? {
      var a := FlattenAxis(axis, |dims|).value;
      var s := Sizes(dims);
      ProductValue(dims[..a]);
      ProductValue(dims[a..]);
      assert s[..a] == Sizes(dims[..a]) && s[a..] == Sizes(dims[a..]);
      KnownIsSize(s[..a]);
      KnownIsSize(s[a..]);
    }
  }

  lemma KnownIsSize(s: seq<nat>)
    ensures Reshapes.KnownProduct(s) == Size(s)
  {
    hide Reshapes.Product, Size;
    ProductIsSize(s);
  }

  function FlattenedIndex(dims: seq<Dim>, a: nat, x: VarId, y: VarId): seq<PrimExpr>
    requires a <= |dims|
  {
    UnflattenExpr(Var(x), dims[..a]) + UnflattenExpr(Var(y), dims[a..])
  }

  /** The two dimensions and the body over the axes `x` and `y`. */
  method FlattenCompute(d: nat, dims: seq<Dim>, axis: int, x: VarId, y: VarId)
    returns (r: Result<(PrimExpr, PrimExpr, PrimExpr), FlattenProblem>)
    ensures r == match FlattenAxis(axis, |dims|)
      case Err(e) => Err(e)
      case Ok(a) => Ok((ProductExpr(dims[..a]), ProductExpr(dims[a..]), ProducerLoad(d, FlattenedIndex(dims, a, x, y))))
  {
    hide IntExpr, IntValue;
    if |dims| == 0 { return Err(RankZero); }
    var a := if axis < 0 then axis + |dims| else axis;
    if a < 0 || a > |dims| { return Err(AxisOutOfRange); }
    var outer := ProductLoop(dims[..a]);
    var inner := ProductLoop(dims[a..]);
    var outerIdx := UnflattenIndex(Var(x), dims[..a]);
    var innerIdx := UnflattenIndex(Var(y), dims[a..]);
    r := Ok((outer, inner, ProducerLoad(d, outerIdx + innerIdx)));
  }

  method ProductLoop(dims: seq<Dim>) returns (p: PrimExpr)
    ensures p == ProductExpr(dims)
  {
    hide IntExpr, IntValue;
    p := IntImm(1);
    for i := 0 to |dims|
      invariant p == ProductExpr(dims[..i])
    {
      assert dims[..i + 1][..i] == dims[..i];
      p := Binary(Mul, p, dims[i]);
    }
    assert dims[..|dims|] == dims;
  }

  /** Tensor `t` of the graph is `d` flattened at axis `a`. */
  ghost predicate IsFlattenOf(g: Graph, t: nat, d: nat, a: nat) {
    && t < |g| && g[t].Compute? && d < t && a <= |g[d].dims| && NoDup(g[t].axis) && |g[t].axis| == 2 == |g[t].dims|
    && g[t].dims[0] == ProductExpr(g[d].dims[..a]) && g[t].dims[1] == ProductExpr(g[d].dims[a..])
    && g[t].body == [ProducerLoad(d, FlattenedIndex(g[d].dims, a, g[t].axis[0], g[t].axis[1]))]
  }

  lemma FlattenReads(I: Interp, g: Graph, inp: Inputs, t: nat, d: nat, a: nat, idx: seq<int>)
    requires ExactInts(I) && Acyclic(g) && IsFlattenOf(g, t, d, a) && InBox(idx, g[t].shape)
    ensures var s := g[d].shape;
      idx[0] >= 0 && idx[1] >= 0
      && Den(I, g, inp, t, idx) == Den(I, g, inp, d, Unflatten(idx[0], s[..a]) + Unflatten(idx[1], s[a..]))
  {
    hide ExactInts, IntExpr, IntValue, LoadsIn, Means, Unflatten, Size, FlattenedIndex;
    var vars, dims := g[t].axis, g[d].dims;
    var env := Bind(map[], vars, idx);
    BindBinds(map[], vars, idx);
    ProductValue(dims[..a]);
    ProductValue(dims[a..]);
    assert Sizes(dims)[..a] == Sizes(dims[..a]) && Sizes(dims)[a..] == Sizes(dims[a..]);
    FlattenedMeans(I, g, inp, t, d, dims, a, vars, env, idx);
  }

  lemma FlattenedMeans(
    I: Interp, g: Graph, inp: Inputs, t: nat, d: nat, dims: seq<Dim>, a: nat, vars: seq<VarId>, env: Env, idx: seq<int>)
    requires ExactInts(I) && Acyclic(g) && t <= |g| && d < t && a <= |dims| && |vars| == 2 == |idx|
    requires Bound(env, vars, idx) && idx[0] >= 0 && idx[1] >= 0
    requires Size(Sizes(dims[..a])) > 0 && Size(Sizes(dims[a..])) > 0
    ensures var e := ProducerLoad(d, FlattenedIndex(dims, a, vars[0], vars[1]));
      LoadsIn(e, Below(t)) && DenExpr(I, g, inp, t, e, env)
        == Den(I, g, inp, d, Unflatten(idx[0], Sizes(dims[..a])) + Unflatten(idx[1], Sizes(dims[a..])))
  {
    hide ExactInts, Acyclic, IntExpr, IntValue, LoadsIn, Means, Bound, UnflattenExpr, Unflatten, Size, Den, DenExpr;
    VarMeans(I, g, inp, t, env, vars, idx, 0);
    VarMeans(I, g, inp, t, env, vars, idx, 1);
    var es := FlattenedIndex(dims, a, vars[0], vars[1]);
    var ns := Unflatten(idx[0], Sizes(dims[..a])) + Unflatten(idx[1], Sizes(dims[a..]));
    forall j | 0 <= j < |es| ensures Means(I, g, inp, t, es[j], env, ns[j]) {
      if j < a {
        UnflattenMeans(I, g, inp, t, Var(vars[0]), idx[0], dims[..a], env, j);
      } else {
        UnflattenMeans(I, g, inp, t, Var(vars[1]), idx[1], dims[a..], env, j - a);
      }
    }
    LoadOf(I, g, inp, t, d, es, env, ns);
  }

  /** Flattening at any axis keeps the row-major contents. */
  lemma FlattenKeeps(I: Interp, g: Graph, inp: Inputs, t: nat, d: nat, a: nat)
    requires ExactInts(I) && Acyclic(g) && IsFlattenOf(g, t, d, a)
    ensures Contents(I, g, inp, t) == Contents(I, g, inp, d)
  {
    hide ExactInts, Acyclic, Den, Points, IntExpr, IntValue, Size, Unflatten, RowMajor;
    FlattenSize(g, t, d, a);
    PointCount(g[t].shape);
    PointCount(g[d].shape);
    forall k | 0 <= k < Size(g[t].shape) ensures Contents(I, g, inp, t)[k] == Contents(I, g, inp, d)[k] {
      AddressOfPoint(g[t].shape, k);
      var idx := Points(Dims(g[t].shape))[k];
      FlattenReads(I, g, inp, t, d, a, idx);
      FlattenAddress(g, t, d, a, idx);
      ContentsAt(I, g, inp, d, Unflatten(idx[0], g[d].shape[..a]) + Unflatten(idx[1], g[d].shape[a..]));
    }
  }

  lemma FlattenSize(g: Graph, t: nat, d: nat, a: nat)
    requires IsFlattenOf(g, t, d, a)
    ensures g[t].shape == [Size(g[d].shape[..a]), Size(g[d].shape[a..])] && Size(g[t].shape) == Size(g[d].shape)
  {
    hide IntExpr, IntValue, FlattenedIndex, ProductExpr;
    var dims, s := g[d].dims, g[d].shape;
    ProductValue(dims[..a]);
    ProductValue(dims[a..]);
    assert Sizes(dims[..a]) == s[..a] && Sizes(dims[a..]) == s[a..];
    assert s == s[..a] + s[a..];
    SizeConcat(s[..a], s[a..]);
    TwoAxes(0, 0, Size(s[..a]), Size(s[a..]));
  }

  lemma TwoAxes(i: int, j: int, m: nat, n: nat)
    ensures Size([m, n]) == m * n && RowMajor([i, j], [m, n]) == i * n + j
  {
    var s: seq<nat>, x := [m, n], [i, j];
    assert s[1..] == [n] && x[1..] == [j];
    OneAxis(j, n);
  }

  lemma FlattenAddress(g: Graph, t: nat, d: nat, a: nat, idx: seq<int>)
    requires IsFlattenOf(g, t, d, a) && InBox(idx, g[t].shape)
    ensures idx[0] >= 0 && idx[1] >= 0
    ensures var s := g[d].shape; var x := Unflatten(idx[0], s[..a]) + Unflatten(idx[1], s[a..]);
      InBox(x, s) && RowMajor(x, s) == RowMajor(idx, g[t].shape)
  {
    hide IntExpr, IntValue, Size, Unflatten, RowMajor, FlattenedIndex, ProductExpr;
    FlattenSize(g, t, d, a);
    var s := g[d].shape;
    var m, n := Size(s[..a]), Size(s[a..]);
    assert 0 <= idx[0] < m && 0 <= idx[1] < n;
    UnflattenAddress(idx[0], s[..a]);
    UnflattenAddress(idx[1], s[a..]);
    SmallMod(idx[0], m);
    SmallMod(idx[1], n);
    RowMajorConcat(Unflatten(idx[0], s[..a]), Unflatten(idx[1], s[a..]), s[..a], s[a..]);
    assert s == s[..a] + s[a..] && idx == [idx[0], idx[1]];
    TwoAxes(idx[0], idx[1], m, n);
  }

  lemma SmallMod(k: nat, n: nat)
    requires k < n
    ensures k % n == k
  {
  }
}
