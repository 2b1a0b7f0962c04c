/** The tensor-expression `concatenate`: prefix offsets and a chain of selections. */
module Concatenate {
  import opened Base
  import opened Tir
  import opened IndexSpace
  import opened Te
  import opened LoopNests
  import opened LowerCorrect
  import opened Meaning
  import SplitConcat
  import Broadcast

  /** A tensor to be concatenated and its dimension along the axis. */
  datatype Part = Part(tensor: nat, dim: Dim) {
    const len: nat := ConstValue(dim)
  }

  // ---------- the expression ----------

  /** Where part `i` starts, as an expression: the lengths before it added up. */
  function OffsetExpr(parts: seq<Part>, i: nat): PrimExpr
    requires i <= |parts|
  {
    if i == 0 then IntImm(0) else Binary(Add, OffsetExpr(parts, i - 1), parts[i - 1].dim)
  }

  /** The index into part `i`: shifted along the axis. */
  function PartIndex(vars: seq<VarId>, axis: nat, offset: PrimExpr): (r: seq<PrimExpr>)
    ensures |r| == |vars|
  {
    seq(|vars|, k requires 0 <= k < |vars| =>
      if k == axis then Binary(Sub, Var(vars[k]), offset) else Var(vars[k]))
  }

  function PartLoad(parts: seq<Part>, axis: nat, vars: seq<VarId>, i: nat): PrimExpr
    requires i < |parts|
  {
    ProducerLoad(parts[i].tensor, PartIndex(vars, axis, OffsetExpr(parts, i)))
  }

  /** The choice among the parts from `i` on. */
  function Choose(parts: seq<Part>, axis: nat, vars: seq<VarId>, i: nat): PrimExpr
    requires i < |parts| && axis < |vars|
    decreases |parts| - i
  {
    if i == |parts| - 1 then PartLoad(parts, axis, vars, i) else
    Select(
      Binary(LT, Var(vars[axis]), Binary(Add, OffsetExpr(parts, i), parts[i].dim)),
      PartLoad(parts, axis, vars, i),
      Choose(parts, axis, vars, i + 1))
  }

  method ConcatenateShape(dims: seq<PrimExpr>, parts: seq<Part>, axis: nat) returns (out: seq<PrimExpr>)
    requires axis < |dims|
    ensures out == dims[axis := OffsetExpr(parts, |parts|)]
  {
    var axisLen := IntImm(0);
    for i := 0 to |parts|
      invariant axisLen == OffsetExpr(parts, i)
    {
      axisLen := Binary(Add, axisLen, parts[i].dim);
    }
    out := dims[axis := axisLen];
  }

  method ConcatenateBody(parts: seq<Part>, axis: nat, vars: seq<VarId>) returns (ret: PrimExpr)
    requires parts != [] && axis < |vars|
    ensures ret == Choose(parts, axis, vars, 0)
  {
    hide Choose, PartIndex;
    var offsets := [IntImm(0)];
    for i := 0 to |parts| - 1
      invariant |offsets| == i + 1 && forall k :: 0 <= k <= i ==> offsets[k] == OffsetExpr(parts, k)
    {
      offsets := offsets + [Binary(Add, offsets[|offsets| - 1], parts[i].dim)];
    }
    var n := |parts|;
    var idx := ShiftedIndex(vars, axis, offsets[n - 1]);
    ret := ProducerLoad(parts[n - 1].tensor, idx);
    ChooseFrom(parts, axis, vars, n - 1);
    for i := n - 1 downto 0
      invariant ret == Choose(parts, axis, vars, i)
    {
      var idx := ShiftedIndex(vars, axis, offsets[i]);
      var cond := Binary(LT, Var(vars[axis]), Binary(Add, offsets[i], parts[i].dim));
      ret := Select(cond, ProducerLoad(parts[i].tensor, idx), ret);
      ChooseFrom(parts, axis, vars, i);
    }
  }

  lemma ChooseFrom(parts: seq<Part>, axis: nat, vars: seq<VarId>, i: nat)
    requires i < |parts| && axis < |vars|
    ensures Choose(parts, axis, vars, i) ==
      if i == |parts| - 1 then PartLoad(parts, axis, vars, i)
      else Select(
        Binary(LT, Var(vars[axis]), Binary(Add, OffsetExpr(parts, i), parts[i].dim)),
        PartLoad(parts, axis, vars, i),
        Choose(parts, axis, vars, i + 1))
  {
  }

  method ShiftedIndex(vars: seq<VarId>, axis: nat, offset: PrimExpr) returns (idx: seq<PrimExpr>)
    requires axis < |vars|
    ensures idx == PartIndex(vars, axis, offset)
  {
    idx := [];
    for k := 0 to |vars|
      invariant |idx| == k && forall j :: 0 <= j < k ==> idx[j] == Var(vars[j])
    {
      idx := idx + [Var(vars[k])];
    }
    idx := idx[axis := Binary(Sub, idx[axis], offset)];
  }

  // ---------- what it is to compute ----------

  function Offset(parts: seq<Part>, i: nat): nat
    requires i <= |parts|
  {
    if i == 0 then 0 else Offset(parts, i - 1) + parts[i - 1].len
  }

  /** The elements of one part along the axis, the other indices taken from `idx`. */
  function Row(I: Interp, g: Graph, inp: Inputs, p: Part, axis: nat, idx: seq<int>): (r: seq<Option<Value>>)
    requires Acyclic(g) && p.tensor < |g| && axis < |idx|
    ensures |r| == p.len && forall j :: 0 <= j < p.len ==> r[j] == Den(I, g, inp, p.tensor, idx[axis := j])
  {
    seq(p.len, j requires 0 <= j < p.len => Den(I, g, inp, p.tensor, idx[axis := j]))
  }

  /** The rows of the parts from `i` on, one after the other. */
  function Rows(
    I: Interp, g: Graph, inp: Inputs, parts: seq<Part>, axis: nat, idx: seq<int>, i: nat): seq<Option<Value>>
    requires Acyclic(g) && i <= |parts| && axis < |idx| && forall k :: 0 <= k < |parts| ==> parts[k].tensor < |g|
    decreases |parts| - i
  {
    if i == |parts| then [] else
    Row(I, g, inp, parts[i], axis, idx) + Rows(I, g, inp, parts, axis, idx, i + 1)
  }

  /**
   Tensor `t` of the graph is built from the parts: the dimensions of the first one with the
   sum of lengths along the axis, and the chain of selections.
   */
  ghost predicate IsBuilt(g: Graph, t: nat, parts: seq<Part>, axis: nat) {
    && t < |g| && g[t].Compute? && parts != [] && axis < |g[t].axis| == |g[t].dims| && NoDup(g[t].axis)
    && g[t].body == [Choose(parts, axis, g[t].axis, 0)]
    && g[t].dims[axis] == OffsetExpr(parts, |parts|)
    && (forall i :: 0 <= i < |parts| ==>
          parts[i].tensor < t && axis < |g[parts[i].tensor].dims| && g[parts[i].tensor].dims[axis] == parts[i].dim)
    && |g[parts[0].tensor].dims| == |g[t].dims|
    && (forall k :: 0 <= k < |g[t].dims| && k != axis ==> g[t].dims[k] == g[parts[0].tensor].dims[k])
  }

  /** The sizes of the parts agree but for the axis, as the type checker demands. */
  ghost predicate IsConcatenation(g: Graph, t: nat, parts: seq<Part>, axis: nat) {
    IsBuilt(g, t, parts, axis) && forall i :: 0 <= i < |parts| ==> SameSizesBut(g[parts[i].tensor], g[t], axis)
  }

  ghost predicate SameSizesBut(a: Op, b: Op, axis: nat) {
    |a.shape| == |b.shape| && forall k :: 0 <= k < |a.shape| && k != axis ==> a.shape[k] == b.shape[k]
  }

  /** The sum expression has the sum of lengths as its value. */
  lemma {:induction false} OffsetValue(parts: seq<Part>, i: nat)
    requires i <= |parts|
    ensures IsConst(OffsetExpr(parts, i)) && ConstValue(OffsetExpr(parts, i)) == Offset(parts, i)
  {
    if i > 0 { OffsetValue(parts, i - 1); }
  }

  // ---------- evaluation ----------

  lemma {:induction false} OffsetLoads(parts: seq<Part>, i: nat, S: set<nat>)
    requires i <= |parts|
    ensures LoadsIn(OffsetExpr(parts, i), S)
  {
    hide IntExpr, IntValue;
    if i > 0 {
      OffsetLoads(parts, i - 1, S);
      ConstLoads(parts[i - 1].dim, S);
    }
  }

  lemma PartLoads(parts: seq<Part>, axis: nat, vars: seq<VarId>, i: nat, S: set<nat>)
    requires i < |parts| && parts[i].tensor in S
    ensures LoadsIn(PartLoad(parts, axis, vars, i), S)
  {
    OffsetLoads(parts, i, S);
    AllLoads(PartIndex(vars, axis, OffsetExpr(parts, i)), S);
  }

  lemma {:induction false} ChooseLoads(parts: seq<Part>, axis: nat, vars: seq<VarId>, i: nat, S: set<nat>)
    requires i < |parts| && axis < |vars| && forall k :: 0 <= k < |parts| ==> parts[k].tensor in S
    ensures LoadsIn(Choose(parts, axis, vars, i), S)
    decreases |parts| - i
  {
    hide PartLoad, OffsetExpr;
    PartLoads(parts, axis, vars, i, S);
    if i < |parts| - 1 {
      OffsetLoads(parts, i, S);
      ConstLoads(parts[i].dim, S);
      var sum := Binary(Add, OffsetExpr(parts, i), parts[i].dim);
      assert LoadsIn(sum, S);
      assert LoadsIn(Binary(LT, Var(vars[axis]), sum), S);
      ChooseLoads(parts, axis, vars, i + 1, S);
    }
  }

  lemma {:induction false} OffsetMeans(I: Interp, g: Graph, inp: Inputs, t: nat, parts: seq<Part>, i: nat, env: Env)
    requires ExactInts(I) && Acyclic(g) && t <= |g| && i <= |parts|
    ensures Means(I, g, inp, t, OffsetExpr(parts, i), env, Offset(parts, i))
  {
    hide Means, ExactInts, Acyclic;
    if i == 0 {
      ConstMeans(I, g, inp, t, IntImm(0), env);
    } else {
      OffsetMeans(I, g, inp, t, parts, i - 1, env);
      ConstMeans(I, g, inp, t, parts[i - 1].dim, env);
      SumMeans(I, g, inp, t, OffsetExpr(parts, i - 1), parts[i - 1].dim, env, Offset(parts, i - 1), parts[i - 1].len);
    }
  }

  /** Reading part `i` reads it at the index shifted by its offset. */
  lemma PartMeans(
    I: Interp, g: Graph, inp: Inputs, t: nat, parts: seq<Part>, axis: nat, vars: seq<VarId>, i: nat, env: Env,
    idx: seq<int>)
    requires ExactInts(I) && Acyclic(g) && t <= |g| && i < |parts| && parts[i].tensor < t
    requires axis < |vars| && Bound(env, vars, idx)
    ensures LoadsIn(PartLoad(parts, axis, vars, i), Below(t))
    ensures DenExpr(I, g, inp, t, PartLoad(parts, axis, vars, i), env)
         == Den(I, g, inp, parts[i].tensor, idx[axis := idx[axis] - Offset(parts, i)])
  {
    hide Acyclic, Den, DenExpr, ExactInts, Means, OffsetExpr, Bound, LoadsIn, AllLoadIn, Ints;
    PartLoads(parts, axis, vars, i, Below(t));
    OffsetMeans(I, g, inp, t, parts, i, env);
    var es := PartIndex(vars, axis, OffsetExpr(parts, i));
    BoundSize(env, vars, idx);
    var ns := idx[axis := idx[axis] - Offset(parts, i)];
    forall k | 0 <= k < |es| ensures Means(I, g, inp, t, es[k], env, ns[k]) {
      VarMeans(I, g, inp, t, env, vars, idx, k);
      if k == axis { SumMeans(I, g, inp, t, Var(vars[k]), OffsetExpr(parts, i), env, idx[k], Offset(parts, i)); }
    }
    LoadMeans(I, g, inp, t, parts[i].tensor, es, env, ns);
  }

  lemma ConditionMeans(
    I: Interp, g: Graph, inp: Inputs, t: nat, parts: seq<Part>, axis: nat, vars: seq<VarId>, i: nat, env: Env,
    idx: seq<int>)
    requires ExactInts(I) && Acyclic(g) && t <= |g| && i < |parts| && axis < |vars| && Bound(env, vars, idx)
    ensures var c := Binary(LT, Var(vars[axis]), Binary(Add, OffsetExpr(parts, i), parts[i].dim));
      LoadsIn(c, Below(t)) && DenExpr(I, g, inp, t, c, env).Some?
      && (I.truthy(DenExpr(I, g, inp, t, c, env).value) <==> idx[axis] < Offset(parts, i) + parts[i].len)
  {
    hide Acyclic, ExactInts, Means, DenExpr, OffsetExpr, Bound, LoadsIn;
    BoundSize(env, vars, idx);
    OffsetMeans(I, g, inp, t, parts, i, env);
    ConstMeans(I, g, inp, t, parts[i].dim, env);
    SumMeans(I, g, inp, t, OffsetExpr(parts, i), parts[i].dim, env, Offset(parts, i), parts[i].len);
    VarMeans(I, g, inp, t, env, vars, idx, axis);
    var sum := Binary(Add, OffsetExpr(parts, i), parts[i].dim);
    LessMeans(I, g, inp, t, Var(vars[axis]), sum, env, idx[axis], Offset(parts, i) + parts[i].len);
  }

  /** The choice takes part `i` for positions before its end, and goes on otherwise. */
  lemma ChooseStep(
    I: Interp, g: Graph, inp: Inputs, t: nat, parts: seq<Part>, axis: nat, vars: seq<VarId>, i: nat, env: Env,
    idx: seq<int>)
    requires ExactInts(I) && Acyclic(g) && t <= |g| && i < |parts| && axis < |vars| && Bound(env, vars, idx)
    requires forall k :: 0 <= k < |parts| ==> parts[k].tensor < t
    ensures LoadsIn(Choose(parts, axis, vars, i), Below(t)) && LoadsIn(PartLoad(parts, axis, vars, i), Below(t))
    ensures i < |parts| - 1 ==> LoadsIn(Choose(parts, axis, vars, i + 1), Below(t))
    ensures DenExpr(I, g, inp, t, Choose(parts, axis, vars, i), env) ==
      if i == |parts| - 1 || idx[axis] < Offset(parts, i) + parts[i].len
      then DenExpr(I, g, inp, t, PartLoad(parts, axis, vars, i), env)
      else DenExpr(I, g, inp, t, Choose(parts, axis, vars, i + 1), env)
  {
    hide Acyclic, Den, ExactInts, PartLoad, OffsetExpr, Bound, IntExpr, IntValue, LoadsIn;
    ChooseLoads(parts, axis, vars, i, Below(t));
    PartLoads(parts, axis, vars, i, Below(t));
    if i < |parts| - 1 {
      ChooseLoads(parts, axis, vars, i + 1, Below(t));
      ConditionMeans(I, g, inp, t, parts, axis, vars, i, env, idx);
    }
  }

  /** The choice from part `i` on yields the element of the joined rows. */
  lemma {:induction false} ChooseMeans(
    I: Interp, g: Graph, inp: Inputs, t: nat, parts: seq<Part>, axis: nat, vars: seq<VarId>, i: nat, env: Env,
    idx: seq<int>)
    requires ExactInts(I) && Acyclic(g) && t <= |g| && i < |parts| && axis < |vars| && Bound(env, vars, idx)
    requires forall k :: 0 <= k < |parts| ==> parts[k].tensor < t
    requires Offset(parts, i) <= idx[axis] < Offset(parts, |parts|)
    ensures LoadsIn(Choose(parts, axis, vars, i), Below(t))
    ensures var rows := Rows(I, g, inp, parts, axis, idx, i);
      idx[axis] - Offset(parts, i) < |rows|
      && DenExpr(I, g, inp, t, Choose(parts, axis, vars, i), env) == rows[idx[axis] - Offset(parts, i)]
    decreases |parts| - i
  {
    hide Acyclic, Den, DenExpr, ExactInts, PartLoad, OffsetExpr, Choose, LoadsIn, IntExpr, IntValue, Bound;
    BoundSize(env, vars, idx);
    ChooseStep(I, g, inp, t, parts, axis, vars, i, env, idx);
    PartMeans(I, g, inp, t, parts, axis, vars, i, env, idx);
    var j := idx[axis] - Offset(parts, i);
    var row := Row(I, g, inp, parts[i], axis, idx);
    if j < parts[i].len {
      assert row[j] == Den(I, g, inp, parts[i].tensor, idx[axis := j]);
    } else if i < |parts| - 1 {
      ChooseMeans(I, g, inp, t, parts, axis, vars, i + 1, env, idx);
    }
  }

  /** At every position the concatenation has the element of the rows of its parts put one after the other. */
  lemma ConcatenateMeans(I: Interp, g: Graph, inp: Inputs, t: nat, parts: seq<Part>, axis: nat, idx: seq<int>)
    requires ExactInts(I) && Acyclic(g) && IsConcatenation(g, t, parts, axis) && InBox(idx, g[t].shape)
    ensures var rows := Rows(I, g, inp, parts, axis, idx, 0);
      idx[axis] < |rows| && Den(I, g, inp, t, idx) == rows[idx[axis]]
  {
    hide ExactInts, Choose, IntExpr, IntValue, Rows, OffsetExpr, SameSizesBut, DenExpr, LoadsIn;
    OffsetValue(parts, |parts|);
    var vars := g[t].axis;
    var env := Bind(map[], vars, idx);
    BindBinds(map[], vars, idx);
    ChooseMeans(I, g, inp, t, parts, axis, vars, 0, env, idx);
    assert !g[t].body[0].Reduce? by { NotReduce(parts, axis, vars); }
  }

  lemma NotReduce(parts: seq<Part>, axis: nat, vars: seq<VarId>)
    requires parts != [] && axis < |vars|
    ensures !Choose(parts, axis, vars, 0).Reduce?
  {
  }

  /** Which part a position falls in. */
  lemma {:induction false} PartOf(parts: seq<Part>, n: nat, x: int)
    requires n <= |parts| && 0 <= x < Offset(parts, n)
    ensures exists k :: 0 <= k < n && Offset(parts, k) <= x < Offset(parts, k) + parts[k].len
  {
    if x < Offset(parts, n - 1) {
      PartOf(parts, n - 1, x);
    } else {
      assert Offset(parts, n - 1) <= x < Offset(parts, n - 1) + parts[n - 1].len;
    }
  }

  /** The part a position falls in is read within its shape. */
  lemma ReadsWithinPart(g: Graph, t: nat, parts: seq<Part>, axis: nat, idx: seq<int>, k: nat)
    requires IsConcatenation(g, t, parts, axis) && InBox(idx, g[t].shape)
    requires k < |parts| && Offset(parts, k) <= idx[axis] < Offset(parts, k) + parts[k].len
    ensures InBox(idx[axis := idx[axis] - Offset(parts, k)], g[parts[k].tensor].shape)
  {
    hide IntExpr, IntValue, Choose, OffsetExpr, Offset;
    assert SameSizesBut(g[parts[k].tensor], g[t], axis);
  }

  /** The joined rows of parts that are defined everywhere are defined everywhere. */
  lemma {:induction false} RowsDefined(
    I: Interp, g: Graph, inp: Inputs, t: nat, parts: seq<Part>, axis: nat, idx: seq<int>, i: nat)
    requires Acyclic(g) && IsConcatenation(g, t, parts, axis) && InBox(idx, g[t].shape) && i <= |parts|
    requires forall k :: 0 <= k < |parts| ==> Defined(I, g, inp, parts[k].tensor)
    ensures forall j :: 0 <= j < |Rows(I, g, inp, parts, axis, idx, i)| ==>
      Rows(I, g, inp, parts, axis, idx, i)[j].Some?
    decreases |parts| - i
  {
    hide Acyclic, Den, IntExpr, IntValue, Choose, OffsetExpr;
    if i < |parts| {
      RowsDefined(I, g, inp, t, parts, axis, idx, i + 1);
      assert SameSizesBut(g[parts[i].tensor], g[t], axis) && Defined(I, g, inp, parts[i].tensor);
      var row := Row(I, g, inp, parts[i], axis, idx);
      forall j | 0 <= j < |row| ensures row[j].Some? {
        assert InBox(idx[axis := j], g[parts[i].tensor].shape);
      }
    }
  }

  /** A concatenation of tensors that are defined everywhere is defined everywhere: no read is out of bounds. */
  lemma ConcatenateDefined(I: Interp, g: Graph, inp: Inputs, t: nat, parts: seq<Part>, axis: nat)
    requires ExactInts(I) && Acyclic(g) && IsConcatenation(g, t, parts, axis)
    requires forall k :: 0 <= k < |parts| ==> Defined(I, g, inp, parts[k].tensor)
    ensures Defined(I, g, inp, t)
  {
    hide ExactInts, Acyclic, Den, IntExpr, IntValue, Choose, OffsetExpr, SameSizesBut;
    forall idx | InBox(idx, g[t].shape) ensures Den(I, g, inp, t, idx).Some? {
      ConcatenateMeans(I, g, inp, t, parts, axis, idx);
      RowsDefined(I, g, inp, t, parts, axis, idx, 0);
    }
  }

  // ---------- the type rule ----------

  /** The types the type checker is given for the parts. */
  function FieldsOf(g: Graph, parts: seq<Part>): (r: seq<Broadcast.Shape>)
    requires forall i :: 0 <= i < |parts| ==> parts[i].tensor < |g|
    ensures |r| == |parts| && forall i :: 0 <= i < |parts| ==> r[i] == g[parts[i].tensor].shape
  {
    seq(|parts|, i requires 0 <= i < |parts| => g[parts[i].tensor].shape)
  }

  /** All fields have the sizes of the first one but along the axis. */
  ghost predicate Alike(fields: seq<Broadcast.Shape>, axis: nat) {
    forall i :: 0 <= i < |fields| ==> SplitConcat.Compatible(fields[0], fields[i], axis)
  }

  /** On known types the rule accepts exactly the fields that are alike, and adds their lengths. */
  lemma {:induction false} TypeOfJoined(g: Graph, parts: seq<Part>, axis: nat, n: nat)
    requires 0 < n <= |parts| && forall i :: 0 <= i < |parts| ==> parts[i].tensor < |g|
    requires forall i :: 0 <= i < |parts| ==>
      axis < |g[parts[i].tensor].dims| && g[parts[i].tensor].dims[axis] == parts[i].dim
    ensures var fields := FieldsOf(g, parts)[..n];
      SplitConcat.AppendAll(fields, axis) ==
        if Alike(fields, axis) then Some(fields[0][axis := Offset(parts, n)]) else None
  {
    hide IntExpr, IntValue, Alike, SplitConcat.Append, SplitConcat.Compatible;
    var all := FieldsOf(g, parts);
    var fields := all[..n];
    if n == 1 {
      assert fields[0][axis := Offset(parts, 1)] == fields[0];
      OneAlike(fields, axis);
    } else {
      TypeOfJoined(g, parts, axis, n - 1);
      var front := all[..n - 1];
      assert fields[..n - 1] == front;
      AlikeNext(fields, axis);
      AppendNext(fields[0], fields[n - 1], axis, Offset(parts, n - 1), parts[n - 1].len);
    }
  }

  lemma OneAlike(fields: seq<Broadcast.Shape>, axis: nat)
    requires |fields| == 1
    ensures Alike(fields, axis)
  {
  }

  lemma AlikeNext(fields: seq<Broadcast.Shape>, axis: nat)
    requires |fields| > 1
    ensures var n := |fields| - 1;
      Alike(fields, axis) <==> Alike(fields[..n], axis) && SplitConcat.Compatible(fields[0], fields[n], axis)
  {
    var n := |fields| - 1;
    assert forall i :: 0 <= i < n ==> fields[..n][i] == fields[i];
    if Alike(fields[..n], axis) && SplitConcat.Compatible(fields[0], fields[n], axis) {
      forall i | 0 <= i < |fields| ensures SplitConcat.Compatible(fields[0], fields[i], axis) {
        if i < n { assert SplitConcat.Compatible(fields[0], fields[..n][i], axis); }
      }
    }
  }

  lemma AppendNext(first: Broadcast.Shape, cur: Broadcast.Shape, axis: nat, before: nat, len: nat)
    requires axis < |first| && axis < |cur| && cur[axis] == len
    ensures SplitConcat.Append(first[axis := before], cur, axis) ==
      if SplitConcat.Compatible(first, cur, axis) then Some(first[axis := before + len]) else None
  {
    var out := first[axis := before];
    assert SplitConcat.Compatible(out, cur, axis) <==> SplitConcat.Compatible(first, cur, axis);
    assert out[axis := before + len] == first[axis := before + len];
  }

  /**
   The type checker accepts the sizes of the parts exactly when the tensor is a concatenation
   of them, and then announces the shape the tensor has.
   */
  lemma ConcatenateAccepted(g: Graph, t: nat, parts: seq<Part>, axis: int)
    requires parts != [] && parts[0].tensor < |g| && SplitConcat.NormalizeAxis(axis, |g[parts[0].tensor].dims|).Ok?
    requires IsBuilt(g, t, parts, SplitConcat.NormalizeAxis(axis, |g[parts[0].tensor].dims|).value)
    ensures SplitConcat.Concat(FieldsOf(g, parts), axis).Some? <==>
      IsConcatenation(g, t, parts, SplitConcat.NormalizeAxis(axis, |g[parts[0].tensor].dims|).value)
    ensures SplitConcat.Concat(FieldsOf(g, parts), axis).Some? ==>
      SplitConcat.Concat(FieldsOf(g, parts), axis).value == g[t].shape
  {
    hide IntExpr, IntValue, Choose, SplitConcat.AppendAll, OffsetExpr;
    var a := SplitConcat.NormalizeAxis(axis, |g[parts[0].tensor].dims|).value;
    var n, fields := |parts|, FieldsOf(g, parts);
    assert fields[..n] == fields;
    TypeOfJoined(g, parts, a, n);
    OffsetValue(parts, n);
    forall i | 0 <= i < n
      ensures SplitConcat.Compatible(fields[0], fields[i], a) <==> SameSizesBut(g[parts[i].tensor], g[t], a)
    {
      assert fields[i] == g[parts[i].tensor].shape;
    }
    assert fields[0][a := Offset(parts, n)] == g[t].shape;
  }
}
