/** What the reductions of tensor expressions are: a largest, a smallest, and a sum. */
module Reductions {
  import opened Base
  import opened Tir
  import opened IndexSpace
  import opened Te

  // ---------- the points of a reduction box ----------

  predicate InRanges(p: seq<int>, rs: seq<Range>) {
    |p| == |rs| && forall k :: 0 <= k < |p| ==> rs[k].lo <= p[k] < rs[k].lo + rs[k].extent
  }

  /** The enumeration has exactly the points of the box. */
  lemma {:induction false} PointsOfBox(rs: seq<Range>, p: seq<int>)
    ensures p in Points(rs) <==> InRanges(p, rs)
    decreases |rs|, 1
  {
    if rs != [] {
      var hi := rs[0].lo + rs[0].extent;
      SweepOfBox(rs[0].lo, hi, rs[1..], p);
      if p != [] && InRanges(p, rs) { assert InRanges(p[1..], rs[1..]); }
      if p != [] && rs[0].lo <= p[0] < hi && InRanges(p[1..], rs[1..]) {
        assert forall k :: 0 < k < |p| ==> p[k] == p[1..][k - 1] && rs[k] == rs[1..][k - 1];
      }
    }
  }

  lemma {:induction false} SweepOfBox(i: int, hi: int, rs: seq<Range>, p: seq<int>)
    ensures p in Sweep(i, hi, Points(rs)) <==> p != [] && i <= p[0] < hi && InRanges(p[1..], rs)
    decreases |rs|, 2, hi - i
  {
    if i < hi {
      var rest := Points(rs);
      SweepOfBox(i + 1, hi, rs, p);
      if p != [] { PointsOfBox(rs, p[1..]); }
      if p != [] && p[0] == i && p[1..] in rest {
        var k :| 0 <= k < |rest| && rest[k] == p[1..];
        assert Prepend(i, rest)[k] == [i] + p[1..] == p;
      }
      if p in Prepend(i, rest) {
        var k :| 0 <= k < |rest| && Prepend(i, rest)[k] == p;
        assert p == [i] + rest[k] && p[1..] == rest[k];
      }
    }
  }

  // ---------- reductions ----------

  /** Tensor `t` of the graph reduces one source over its axes. */
  ghost predicate IsReduction(g: Graph, t: nat, rt: ReduceType, isFloat: bool) {
    t < |g| && g[t].Compute? && |g[t].axis| == |g[t].dims| && g[t].isFloat == isFloat
    && |g[t].body| == 1 && g[t].body[0].Reduce? && g[t].body[0].rtype == rt && |g[t].body[0].source| == 1
  }

  /** The box the reduction runs over. */
  function Box(g: Graph, t: nat): seq<Range>
    requires t < |g| && g[t].Compute? && |g[t].body| == 1 && g[t].body[0].Reduce?
  {
    AxisRanges(g[t].body[0].axis)
  }

  /** At output index `idx` the source has the value `f(p)` at every point of the box. */
  ghost predicate SourceIs(I: Interp, g: Graph, inp: Inputs, t: nat, idx: seq<int>, f: seq<int> -> Value)
    requires Acyclic(g) && t < |g| && g[t].Compute? && |g[t].axis| == |idx|
    requires |g[t].body| == 1 && g[t].body[0].Reduce? && |g[t].body[0].source| == 1
  {
    var red := g[t].body[0];
    assert LoadsIn(red, Below(t));
    assert AllLoadIn(red.source, Below(t));
    forall p :: InRanges(p, Box(g, t)) ==>
      DenExpr(I, g, inp, t, red.source[0], Bind(Bind(map[], g[t].axis, idx), AxisVars(red.axis), p)) == Some(f(p))
  }

  function Values(f: seq<int> -> Value, pts: seq<seq<int>>): (xs: seq<Value>)
    ensures |xs| == |pts| && forall k :: 0 <= k < |pts| ==> xs[k] == f(pts[k])
  {
    seq(|pts|, k requires 0 <= k < |pts| => f(pts[k]))
  }

  lemma {:induction false} SourceValuesAre(
    I: Interp, g: Graph, inp: Inputs, t: nat, src: PrimExpr, vars: seq<VarId>, pts: seq<seq<int>>, env: Env,
    f: seq<int> -> Value)
    requires Acyclic(g) && t < |g| && LoadsIn(src, Below(t))
    requires forall k :: 0 <= k < |pts| ==>
      |pts[k]| == |vars| && DenExpr(I, g, inp, t, src, Bind(env, vars, pts[k])) == Some(f(pts[k]))
    ensures DenPoints(I, g, inp, t, src, vars, pts, env) == Some(Values(f, pts))
    decreases |pts|
  {
    hide Acyclic, DenExpr;
    if pts != [] {
      assert pts[0] == pts[0..][0];
      SourceValuesAre(I, g, inp, t, src, vars, pts[1..], env, f);
      assert Values(f, pts) == [f(pts[0])] + Values(f, pts[1..]);
    }
  }

  /** A reduction folds the values of its source over the box, starting from the element chosen for its kind. */
  lemma ReductionFolds(
    I: Interp, g: Graph, inp: Inputs, t: nat, rt: ReduceType, isFloat: bool, idx: seq<int>, f: seq<int> -> Value)
    requires Acyclic(g) && IsReduction(g, t, rt, isFloat) && InBox(idx, g[t].shape) && SourceIs(I, g, inp, t, idx, f)
    ensures Den(I, g, inp, t, idx)
         == FoldValues(I, ReduceOp(rt), Identity(rt, isFloat), Values(f, Points(Box(g, t))))
  {
    hide DenExpr, Points, FoldValues;
    var red, pts := g[t].body[0], Points(Box(g, t));
    assert LoadsIn(red, Below(t));
    assert AllLoadIn(red.source, Below(t));
    var env := Bind(map[], g[t].axis, idx);
    forall k | 0 <= k < |pts|
      ensures |pts[k]| == |red.axis|
      ensures DenExpr(I, g, inp, t, red.source[0], Bind(env, AxisVars(red.axis), pts[k])) == Some(f(pts[k]))
    {
      PointsOfBox(Box(g, t), pts[k]);
    }
    SourceValuesAre(I, g, inp, t, red.source[0], AxisVars(red.axis), pts, env, f);
  }

  // ---------- extremes ----------

  /** The order of the extended reals. */
  predicate FloatLeq(a: Flt, b: Flt) {
    a.NegInf? || b.PosInf? || (a.Fin? && b.Fin? && a.r <= b.r)
  }

  predicate Leq(a: Value, b: Value) {
    (a.IntV? && b.IntV? && a.n <= b.n) || (a.FltV? && b.FltV? && FloatLeq(a.f, b.f))
  }

  /** `Max` and `Min` pick by the order, of integers and of floats. */
  ghost predicate Ordered(I: Interp) {
    forall a: Value, b: Value :: (a.IntV? <==> b.IntV?) ==>
      I.bin(Max, a, b) == Some(if Leq(a, b) then b else a) && I.bin(Min, a, b) == Some(if Leq(a, b) then a else b)
  }

  /** 64-bit integers, or floats. */
  predicate OfKind(v: Value, isFloat: bool) {
    if isFloat then v.FltV? else v.IntV? && -0x8000_0000_0000_0000 <= v.n <= 0x7fff_ffff_ffff_ffff
  }

  lemma {:induction false} FoldPicksMax(I: Interp, acc: Value, xs: seq<Value>, isFloat: bool)
    requires Ordered(I) && OfKind(acc, isFloat) && forall k :: 0 <= k < |xs| ==> OfKind(xs[k], isFloat)
    ensures var r := FoldValues(I, Max, acc, xs);
      r.Some? && (r.value == acc || r.value in xs) && Leq(acc, r.value)
      && forall k :: 0 <= k < |xs| ==> Leq(xs[k], r.value)
    decreases |xs|
  {
    if xs != [] { FoldPicksMax(I, if Leq(acc, xs[0]) then xs[0] else acc, xs[1..], isFloat); }
  }

  lemma {:induction false} FoldPicksMin(I: Interp, acc: Value, xs: seq<Value>, isFloat: bool)
    requires Ordered(I) && OfKind(acc, isFloat) && forall k :: 0 <= k < |xs| ==> OfKind(xs[k], isFloat)
    ensures var r := FoldValues(I, Min, acc, xs);
      r.Some? && (r.value == acc || r.value in xs) && Leq(r.value, acc)
      && forall k :: 0 <= k < |xs| ==> Leq(r.value, xs[k])
    decreases |xs|
  {
    if xs != [] { FoldPicksMin(I, if Leq(acc, xs[0]) then acc else xs[0], xs[1..], isFloat); }
  }

  /** A fold over values that starts below the first of them ends with the largest. */
  lemma LargestOf(I: Interp, acc: Value, xs: seq<Value>, isFloat: bool)
    requires Ordered(I) && OfKind(acc, isFloat) && forall k :: 0 <= k < |xs| ==> OfKind(xs[k], isFloat)
    requires xs != [] && Leq(acc, xs[0])
    ensures var r := FoldValues(I, Max, acc, xs);
      r.Some? && r.value in xs && forall k :: 0 <= k < |xs| ==> Leq(xs[k], r.value)
  {
    FoldPicksMax(I, xs[0], xs[1..], isFloat);
    assert forall k :: 0 < k < |xs| ==> xs[k] == xs[1..][k - 1];
  }

  lemma SmallestOf(I: Interp, acc: Value, xs: seq<Value>, isFloat: bool)
    requires Ordered(I) && OfKind(acc, isFloat) && forall k :: 0 <= k < |xs| ==> OfKind(xs[k], isFloat)
    requires xs != [] && Leq(xs[0], acc)
    ensures var r := FoldValues(I, Min, acc, xs);
      r.Some? && r.value in xs && forall k :: 0 <= k < |xs| ==> Leq(r.value, xs[k])
  {
    FoldPicksMin(I, xs[0], xs[1..], isFloat);
    assert forall k :: 0 < k < |xs| ==> xs[k] == xs[1..][k - 1];
  }

  /** The values over a non-empty box are those at its points. */
  lemma BoxValues(rs: seq<Range>, f: seq<int> -> Value, isFloat: bool)
    requires forall p :: InRanges(p, rs) ==> OfKind(f(p), isFloat)
    ensures forall k :: 0 <= k < |Points(rs)| ==> OfKind(Values(f, Points(rs))[k], isFloat)
    ensures forall v :: v in Values(f, Points(rs)) <==> exists p :: InRanges(p, rs) && f(p) == v
  {
    hide Points, OfKind;
    var pts := Points(rs);
    forall k | 0 <= k < |pts| ensures OfKind(Values(f, pts)[k], isFloat) {
      PointsOfBox(rs, pts[k]);
    }
    forall v ensures v in Values(f, pts) <==> exists p :: InRanges(p, rs) && f(p) == v {
      if v in Values(f, pts) {
        var k :| 0 <= k < |pts| && Values(f, pts)[k] == v;
        PointsOfBox(rs, pts[k]);
      }
      if p :| InRanges(p, rs) && f(p) == v {
        PointsOfBox(rs, p);
        var k :| 0 <= k < |pts| && pts[k] == p;
        assert Values(f, pts)[k] == v;
      }
    }
  }

  /** A max-reduce over a non-empty box is one of the source's values, and at least each of them. */
  lemma MaxReduceIsLargest(
    I: Interp, g: Graph, inp: Inputs, t: nat, isFloat: bool, idx: seq<int>, f: seq<int> -> Value)
    requires Ordered(I) && Acyclic(g) && IsReduction(g, t, MaxReduce, isFloat) && InBox(idx, g[t].shape)
    requires SourceIs(I, g, inp, t, idx, f) && forall p :: InRanges(p, Box(g, t)) ==> OfKind(f(p), isFloat)
    requires exists p :: InRanges(p, Box(g, t))
    ensures exists p :: InRanges(p, Box(g, t)) && Den(I, g, inp, t, idx) == Some(f(p))
    ensures forall p :: InRanges(p, Box(g, t)) ==> Leq(f(p), Den(I, g, inp, t, idx).value)
  {
    hide Acyclic, SourceIs, Den, Points, FoldValues;
    var rs := Box(g, t);
    var xs := Values(f, Points(rs));
    ReductionFolds(I, g, inp, t, MaxReduce, isFloat, idx, f);
    BoxValues(rs, f, isFloat);
    var q :| InRanges(q, rs);
    assert f(q) in xs;
    LargestOf(I, Identity(MaxReduce, isFloat), xs, isFloat);
    forall p | InRanges(p, rs) ensures Leq(f(p), Den(I, g, inp, t, idx).value) {
      assert f(p) in xs;
    }
  }

  /** A min-reduce over a non-empty box is one of the source's values, and at most each of them. */
  lemma MinReduceIsSmallest(
    I: Interp, g: Graph, inp: Inputs, t: nat, isFloat: bool, idx: seq<int>, f: seq<int> -> Value)
    requires Ordered(I) && Acyclic(g) && IsReduction(g, t, MinReduce, isFloat) && InBox(idx, g[t].shape)
    requires SourceIs(I, g, inp, t, idx, f) && forall p :: InRanges(p, Box(g, t)) ==> OfKind(f(p), isFloat)
    requires exists p :: InRanges(p, Box(g, t))
    ensures exists p :: InRanges(p, Box(g, t)) && Den(I, g, inp, t, idx) == Some(f(p))
    ensures forall p :: InRanges(p, Box(g, t)) ==> Leq(Den(I, g, inp, t, idx).value, f(p))
  {
    hide Acyclic, SourceIs, Den, Points, FoldValues;
    var rs := Box(g, t);
    var xs := Values(f, Points(rs));
    ReductionFolds(I, g, inp, t, MinReduce, isFloat, idx, f);
    BoxValues(rs, f, isFloat);
    var q :| InRanges(q, rs);
    assert f(q) in xs;
    SmallestOf(I, Identity(MinReduce, isFloat), xs, isFloat);
    forall p | InRanges(p, rs) ensures Leq(Den(I, g, inp, t, idx).value, f(p)) {
      assert f(p) in xs;
    }
  }

  /** Over an empty box: zero for a sum, and for an extreme the limit it starts from. */
  lemma EmptyReduction(I: Interp, g: Graph, inp: Inputs, t: nat, rt: ReduceType, isFloat: bool, idx: seq<int>)
    requires Acyclic(g) && IsReduction(g, t, rt, isFloat) && InBox(idx, g[t].shape)
    requires !exists p :: InRanges(p, Box(g, t))
    ensures rt == SumReduce ==> Den(I, g, inp, t, idx) == Some(if isFloat then FltV(Fin(0.0)) else IntV(0))
    ensures rt == MaxReduce ==>
      Den(I, g, inp, t, idx) == Some(if isFloat then FltV(NegInf) else IntV(-0x8000_0000_0000_0000))
    ensures rt == MinReduce ==>
      Den(I, g, inp, t, idx) == Some(if isFloat then FltV(PosInf) else IntV(0x7fff_ffff_ffff_ffff))
  {
    hide Acyclic, Den, DenExpr, Points;
    var pts := Points(Box(g, t));
    if pts != [] {
      PointsOfBox(Box(g, t), pts[0]);
    }
    ReductionFolds(I, g, inp, t, rt, isFloat, idx, _ => IntV(0));
  }

  // ---------- sums ----------

  /** The sum of `f` over the box, one axis inside the other. */
  function SumOver(rs: seq<Range>, f: seq<int> -> int): int
    decreases |rs|, 0
  {
    if rs == [] then f([]) else SumFrom(rs[0].lo, rs[0].lo + rs[0].extent, rs[1..], f)
  }

  function SumFrom(i: int, hi: int, rs: seq<Range>, f: seq<int> -> int): int
    decreases |rs|, 1, hi - i
  {
    if i >= hi then 0 else SumOver(rs, p => f([i] + p)) + SumFrom(i + 1, hi, rs, f)
  }

  function IntValues(f: seq<int> -> int): seq<int> -> Value {
    p => IntV(f(p))
  }

  /** A fold by addition adds the sum over the box. */
  lemma {:induction false} FoldAddsBox(I: Interp, acc: int, rs: seq<Range>, f: seq<int> -> int)
    requires ExactInts(I)
    ensures FoldValues(I, Add, IntV(acc), Values(IntValues(f), Points(rs))) == Some(IntV(acc + SumOver(rs, f)))
    decreases |rs|, 0
  {
    hide ExactInts, Arith;
    if rs == [] {
      ArithIs(I, Add, acc, f([]));
      assert Values(IntValues(f), [[]]) == [IntV(f([]))];
      assert [IntV(f([]))][1..] == [];
      AddIs(acc, f([]));
    } else {
      FoldAddsSweep(I, acc, rs[0].lo, rs[0].lo + rs[0].extent, rs[1..], f);
    }
  }

  lemma AddIs(x: int, y: int)
    ensures Arith(Add, x, y) == x + y
  {
  }

  lemma {:induction false} FoldAddsSweep(I: Interp, acc: int, i: int, hi: int, rs: seq<Range>, f: seq<int> -> int)
    requires ExactInts(I)
    ensures FoldValues(I, Add, IntV(acc), Values(IntValues(f), Sweep(i, hi, Points(rs))))
         == Some(IntV(acc + SumFrom(i, hi, rs, f)))
    decreases |rs|, 1, hi - i
  {
    hide ExactInts, Points;
    if i < hi {
      var rest := Points(rs);
      var inner := p => f([i] + p);
      FoldAddsBox(I, acc, rs, inner);
      FoldAddsSweep(I, acc + SumOver(rs, inner), i + 1, hi, rs, f);
      var later := Sweep(i + 1, hi, rest);
      ValuesPrepended(i, rest, later, f);
      FoldConcat(I, Add, IntV(acc), Values(IntValues(inner), rest), Values(IntValues(f), later));
    }
  }

  lemma ValuesPrepended(i: int, rest: seq<seq<int>>, later: seq<seq<int>>, f: seq<int> -> int)
    ensures Values(IntValues(f), Prepend(i, rest) + later)
         == Values(IntValues(p => f([i] + p)), rest) + Values(IntValues(f), later)
  {
  }

  lemma {:induction false} FoldConcat(I: Interp, op: BinOp, acc: Value, xs: seq<Value>, ys: seq<Value>)
    ensures FoldValues(I, op, acc, xs + ys) ==
      match FoldValues(I, op, acc, xs) case None => None case Some(a) => FoldValues(I, op, a, ys)
    decreases |xs|
  {
    if xs == [] {
      assert xs + ys == ys;
    } else {
      assert (xs + ys)[1..] == xs[1..] + ys;
      if I.bin(op, acc, xs[0]).Some? { FoldConcat(I, op, I.bin(op, acc, xs[0]).value, xs[1..], ys); }
    }
  }

  /** A sum-reduce of integers is their sum over the box. */
  lemma SumReduceIsSum(I: Interp, g: Graph, inp: Inputs, t: nat, idx: seq<int>, f: seq<int> -> int)
    requires ExactInts(I) && Acyclic(g) && IsReduction(g, t, SumReduce, false) && InBox(idx, g[t].shape)
    requires SourceIs(I, g, inp, t, idx, IntValues(f))
    ensures Den(I, g, inp, t, idx) == Some(IntV(SumOver(Box(g, t), f)))
  {
    hide Acyclic, ExactInts, SourceIs, Den, Points, FoldValues;
    ReductionFolds(I, g, inp, t, SumReduce, false, idx, IntValues(f));
    FoldAddsBox(I, 0, Box(g, t), f);
  }
}
