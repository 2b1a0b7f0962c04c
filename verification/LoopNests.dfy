/** Executing a loop nest visits the points of its index box one by one, in order. */
module LoopNests {
  import opened Base
  import opened Tir
  import opened Te
  import opened IndexSpace
  import opened Lower

  /** Runs `body` once for every point, with the loop variables bound to its coordinates. */
  function ExecPoints(I: Interp, body: Stmt, vars: seq<VarId>, pts: seq<seq<int>>, env: Env, mem: Mem): Option<Mem>
    decreases |pts|
  {
    if pts == [] then Some(mem) else
    if |pts[0]| != |vars| then None else
    var m :- Exec(I, body, Bind(env, vars, pts[0]), mem);
    ExecPoints(I, body, vars, pts[1..], env, m)
  }

  lemma {:induction false} ExecPointsConcat(
    I: Interp, body: Stmt, vars: seq<VarId>, ps: seq<seq<int>>, qs: seq<seq<int>>, env: Env, mem: Mem)
    ensures ExecPoints(I, body, vars, ps + qs, env, mem) ==
            (var m :- ExecPoints(I, body, vars, ps, env, mem); ExecPoints(I, body, vars, qs, env, m))
    decreases |ps|
  {
    if ps == [] {
      assert ps + qs == qs;
    } else {
      assert (ps + qs)[1..] == ps[1..] + qs;
      if |ps[0]| == |vars| {
        var r := Exec(I, body, Bind(env, vars, ps[0]), mem);
        if r.Some? {
          ExecPointsConcat(I, body, vars, ps[1..], qs, env, r.value);
        }
      }
    }
  }

  lemma {:induction false} ExecPointsPrepend(
    I: Interp, body: Stmt, vars: seq<VarId>, i: int, rest: seq<seq<int>>, env: Env, mem: Mem)
    requires vars != []
    ensures ExecPoints(I, body, vars, Prepend(i, rest), env, mem) ==
            ExecPoints(I, body, vars[1..], rest, env[vars[0] := IntV(i)], mem)
    decreases |rest|
  {
    if rest != [] {
      assert Prepend(i, rest)[1..] == Prepend(i, rest[1..]);
      var p := [i] + rest[0];
      assert p[1..] == rest[0];
      if |p| == |vars| {
        var r := Exec(I, body, Bind(env, vars, p), mem);
        if r.Some? {
          ExecPointsPrepend(I, body, vars, i, rest[1..], env, r.value);
        }
      }
    }
  }

  /** The box a nest of loops runs over. */
  function Ranges(ds: seq<Domain>): seq<Range> {
    seq(|ds|, i requires 0 <= i < |ds| => Range(ConstValue(ds[i].lo), ConstValue(ds[i].extent)))
  }

  predicate ConstDomains(ds: seq<Domain>) {
    forall i :: 0 <= i < |ds| ==> IsConst(ds[i].lo) && IsConst(ds[i].extent)
  }

  lemma DataRanges(dims: seq<Dim>)
    ensures ConstDomains(DataDomains(dims)) && Ranges(DataDomains(dims)) == Dims(Sizes(dims))
  {
  }

  lemma ReduceRanges(axis: seq<IterVar>)
    ensures Ranges(AxisDomains(axis)) == AxisRanges(axis) && (ConstAxes(axis) ==> ConstDomains(AxisDomains(axis)))
  {
  }

  /** A loop nest of any depth is the sequential sweep of its box in lexicographic order. */
  lemma {:induction false} NestIsEnumeration(
    I: Interp, vars: seq<VarId>, ds: seq<Domain>, body: Stmt, env: Env, mem: Mem)
    requires ExactInts(I) && |vars| == |ds| && ConstDomains(ds)
    ensures Exec(I, Nest(vars, ds, body), env, mem) == ExecPoints(I, body, vars, Points(Ranges(ds)), env, mem)
    decreases |vars|, 0, 0
  {
    hide ExactInts, IntExpr, IntValue, Eval;
    if vars == [] {
      assert ExecPoints(I, body, vars, [[]], env, mem) == Exec(I, body, env, mem);
    } else {
      EvalConst(I, ds[0].lo, env, mem);
      EvalConst(I, ds[0].extent, env, mem);
      var r := Ranges(ds)[0];
      assert Ranges(ds)[1..] == Ranges(ds[1..]);
      LoopIsSweep(I, vars, ds, body, r.lo, r.lo + r.extent, env, mem);
    }
  }

  lemma {:induction false} LoopIsSweep(
    I: Interp, vars: seq<VarId>, ds: seq<Domain>, body: Stmt, i: int, hi: int, env: Env, mem: Mem)
    requires ExactInts(I) && |vars| == |ds| > 0 && ConstDomains(ds)
    ensures ExecFor(I, vars[0], i, hi, Nest(vars[1..], ds[1..], body), env, mem) ==
            ExecPoints(I, body, vars, Sweep(i, hi, Points(Ranges(ds[1..]))), env, mem)
    decreases |vars| - 1, 1, hi - i
  {
    hide ExactInts, IntExpr, IntValue, Eval;
    if i < hi {
      var rest := Points(Ranges(ds[1..]));
      NestIsEnumeration(I, vars[1..], ds[1..], body, env[vars[0] := IntV(i)], mem);
      ExecPointsPrepend(I, body, vars, i, rest, env, mem);
      ExecPointsConcat(I, body, vars, Prepend(i, rest), Sweep(i + 1, hi, rest), env, mem);
      var r := Exec(I, Nest(vars[1..], ds[1..], body), env[vars[0] := IntV(i)], mem);
      if r.Some? {
        LoopIsSweep(I, vars, ds, body, i + 1, hi, env, r.value);
      }
    }
  }

  ghost predicate SameExcept(m0: Mem, m: Mem, out: BufId) {
    m.Keys == m0.Keys && forall b :: b in m && b != out ==> m[b] == m0[b]
  }

  /** Running `body` at point `pt` writes `c` to cell `k` of `out` and nothing else. */
  ghost predicate StoresCell(
    I: Interp, body: Stmt, vars: seq<VarId>, pt: seq<int>, env: Env, out: BufId, c: Option<Value>, k: int, m: Mem)
  {
    |pt| == |vars| && out in m && 0 <= k < |m[out]| &&
    Exec(I, body, Bind(env, vars, pt), m) == Some(Put(m, out, k, c))
  }

  /** Whatever `out` holds so far, running `body` at point `k` writes `cs[k]` to cell `k` and nothing else. */
  ghost predicate StoresPointwise(
    I: Interp, body: Stmt, vars: seq<VarId>, pts: seq<seq<int>>, env: Env, out: BufId, cs: seq<Option<Value>>,
    m0: Mem)
  {
    |cs| == |pts| &&
    forall k, m :: 0 <= k < |pts| && out in m && SameExcept(m0, m, out) && |m[out]| == |pts| ==>
      StoresCell(I, body, vars, pts[k], env, out, cs[k], k, m)
  }

  /** Then the sweep fills the whole buffer with `cs` and leaves every other buffer alone. */
  lemma {:induction false} SweepFills(
    I: Interp, body: Stmt, vars: seq<VarId>, pts: seq<seq<int>>, env: Env, out: BufId, cs: seq<Option<Value>>,
    m0: Mem, m: Mem, k: nat)
    requires StoresPointwise(I, body, vars, pts, env, out, cs, m0)
    requires out in m && SameExcept(m0, m, out) && |m[out]| == |pts| && k <= |pts|
    requires m[out][..k] == cs[..k]
    ensures ExecPoints(I, body, vars, pts[k..], env, m) == Some(m0[out := cs])
    decreases |pts| - k
  {
    hide Exec, Put, SameExcept, Bind;
    if k == |pts| {
      Filled(m0, m, out, cs);
    } else {
      assert pts[k..][0] == pts[k] && pts[k..][1..] == pts[k + 1..];
      assert StoresCell(I, body, vars, pts[k], env, out, cs[k], k, m);
      PutNext(m0, m, out, cs, k);
      SweepFills(I, body, vars, pts, env, out, cs, m0, Put(m, out, k, cs[k]), k + 1);
    }
  }

  lemma Filled(m0: Mem, m: Mem, out: BufId, cs: seq<Option<Value>>)
    requires out in m && SameExcept(m0, m, out) && |m[out]| == |cs| && m[out][..|cs|] == cs[..|cs|]
    ensures m == m0[out := cs]
  {
    assert m[out] == cs;
  }

  /** Writing the next cell keeps what is filled and the other buffers. */
  lemma PutNext(m0: Mem, m: Mem, out: BufId, cs: seq<Option<Value>>, k: nat)
    requires out in m && SameExcept(m0, m, out) && k < |cs| == |m[out]| && m[out][..k] == cs[..k]
    ensures var m' := Put(m, out, k, cs[k]);
      out in m' && SameExcept(m0, m', out) && |m'[out]| == |cs| && m'[out][..k + 1] == cs[..k + 1]
  {
    var next := m[out][k := cs[k]];
    assert next[..k + 1] == m[out][..k] + [cs[k]] == cs[..k + 1];
  }

  // ---------- reductions ----------

  ghost predicate Bound(env: Env, vars: seq<VarId>, pt: seq<int>) {
    |vars| == |pt| && forall i :: 0 <= i < |vars| ==> vars[i] in env && env[vars[i]] == IntV(pt[i])
  }

  lemma {:induction false} BindBinds(env: Env, vars: seq<VarId>, pt: seq<int>)
    requires |vars| == |pt|
    ensures forall v :: v !in vars && v in env ==> v in Bind(env, vars, pt) && Bind(env, vars, pt)[v] == env[v]
    ensures NoDup(vars) ==> Bound(Bind(env, vars, pt), vars, pt)
    decreases |vars|
  {
    if vars != [] {
      var env' := env[vars[0] := IntV(pt[0])];
      BindBinds(env', vars[1..], pt[1..]);
      if NoDup(vars) {
        assert vars[0] !in vars[1..];
        forall i | 0 < i < |vars|
          ensures vars[i] in Bind(env, vars, pt) && Bind(env, vars, pt)[vars[i]] == IntV(pt[i])
        {
          assert vars[i] == vars[1..][i - 1];
        }
      }
    }
  }

  function Put(mem: Mem, out: BufId, k: int, c: Option<Value>): Mem
    requires out in mem && 0 <= k < |mem[out]|
  {
    mem[out := mem[out][k := c]]
  }

  lemma PutPut(mem: Mem, out: BufId, k: int, c: Option<Value>, d: Option<Value>)
    requires out in mem && 0 <= k < |mem[out]|
    ensures Put(Put(mem, out, k, c), out, k, d) == Put(mem, out, k, d)
  {
    assert mem[out][k := c][k := d] == mem[out][k := d];
  }

  lemma StoreStep(I: Interp, out: BufId, value: PrimExpr, flat: PrimExpr, env: Env, mem: Mem, k: int, v: Value)
    requires out in mem && 0 <= k < |mem[out]|
    requires Eval(I, value, env, mem) == Some(v) && Eval(I, flat, env, mem) == Some(IntV(k))
    ensures Exec(I, Store(out, value, flat, None), env, mem) == Some(Put(mem, out, k, Some(v)))
  {
  }

  lemma TwoStmts(I: Interp, a: Stmt, b: Stmt, env: Env, m: Mem, m1: Mem, m2: Mem)
    requires Exec(I, a, env, m) == Some(m1) && Exec(I, b, env, m1) == Some(m2)
    ensures Exec(I, SeqStmt([a, b]), env, m) == Some(m2)
  {
    assert [a, b][1..] == [b];
    assert ExecSeq(I, [b], env, m1) == Some(m2) by {
      assert [b][1..] == [];
      assert ExecSeq(I, [], env, m2) == Some(m2);
    }
  }

  /** With the data axes at `idx`, the index expression is the address `k`. */
  ghost predicate Addresses(I: Interp, flat: PrimExpr, axis: seq<VarId>, idx: seq<int>, k: int) {
    forall env, mem :: Bound(env, axis, idx) ==> Eval(I, flat, env, mem) == Some(IntV(k))
  }

  function UpdateStmt(out: BufId, rt: ReduceType, flat: PrimExpr, src: PrimExpr): Stmt {
    Store(out, Binary(ReduceOp(rt), Load(out, flat, None), src), flat, None)
  }

  lemma UpdateStep(
    I: Interp, out: BufId, rt: ReduceType, flat: PrimExpr, src: PrimExpr, env: Env, mem: Mem, k: int, acc: Value,
    x: Value, acc': Value)
    requires out in mem && 0 <= k < |mem[out]| && mem[out][k] == Some(acc)
    requires Eval(I, flat, env, mem) == Some(IntV(k)) && Eval(I, src, env, mem) == Some(x)
    requires I.bin(ReduceOp(rt), acc, x) == Some(acc')
    ensures Exec(I, UpdateStmt(out, rt, flat, src), env, mem) == Some(Put(mem, out, k, Some(acc')))
  {
    assert Eval(I, Load(out, flat, None), env, mem) == Some(acc);
    StoreStep(I, out, Binary(ReduceOp(rt), Load(out, flat, None), src), flat, env, mem, k, acc');
  }

  /** The source has the values `xs` at the points, whatever `out` holds. */
  ghost predicate SourceValues(
    I: Interp, src: PrimExpr, vars: seq<VarId>, pts: seq<seq<int>>, env: Env, out: BufId, m0: Mem, xs: seq<Value>)
  {
    |xs| == |pts| &&
    forall j, m :: 0 <= j < |pts| && SameExcept(m0, m, out) ==>
      |pts[j]| == |vars| && Eval(I, src, Bind(env, vars, pts[j]), m) == Some(xs[j])
  }

  /** The update loops leave the left fold of the source values in the cell. */
  lemma {:induction false} ReduceLoops(
    I: Interp, m0: Mem, mem: Mem, rt: ReduceType, src: PrimExpr, out: BufId, flat: PrimExpr, k: int, axis: seq<VarId>,
    idx: seq<int>, rvars: seq<VarId>, pts: seq<seq<int>>, env: Env, acc: Value, xs: seq<Value>, v: Value)
    requires SourceValues(I, src, rvars, pts, env, out, m0, xs) && SameExcept(m0, mem, out)
    requires Addresses(I, flat, axis, idx, k) && Bound(env, axis, idx)
    requires forall i :: 0 <= i < |axis| ==> axis[i] !in rvars
    requires out in mem && 0 <= k < |mem[out]| && mem[out][k] == Some(acc)
    requires FoldValues(I, ReduceOp(rt), acc, xs) == Some(v)
    ensures ExecPoints(I, UpdateStmt(out, rt, flat, src), rvars, pts, env, mem) == Some(Put(mem, out, k, Some(v)))
    decreases |pts|
  {
    if pts == [] {
      assert mem[out][k := Some(v)] == mem[out];
      assert Put(mem, out, k, Some(v)) == mem;
    } else {
      var env' := Bind(env, rvars, pts[0]);
      BindBinds(env, rvars, pts[0]);
      assert Bound(env', axis, idx);
      var acc' := I.bin(ReduceOp(rt), acc, xs[0]).value;
      UpdateStep(I, out, rt, flat, src, env', mem, k, acc, xs[0], acc');
      assert SourceValues(I, src, rvars, pts[1..], env, out, m0, xs[1..]);
      ReduceLoops(
        I, m0, Put(mem, out, k, Some(acc')), rt, src, out, flat, k, axis, idx, rvars, pts[1..], env, acc', xs[1..], v);
      PutPut(mem, out, k, Some(acc'), Some(v));
    }
  }

  /** Initialisation followed by the update loops: the cell ends with the whole reduction. */
  lemma ReducePoint(
    I: Interp, mem: Mem, rt: ReduceType, init: PrimExpr, src: PrimExpr, out: BufId, flat: PrimExpr, k: int,
    axis: seq<VarId>, idx: seq<int>, rvars: seq<VarId>, ds: seq<Domain>, env: Env, acc: Value, xs: seq<Value>,
    v: Value)
    requires ExactInts(I) && ConstDomains(ds) && |rvars| == |ds|
      && SourceValues(I, src, rvars, Points(Ranges(ds)), env, out, mem, xs)
    requires Addresses(I, flat, axis, idx, k) && Bound(env, axis, idx)
    requires forall i :: 0 <= i < |axis| ==> axis[i] !in rvars
    requires out in mem && 0 <= k < |mem[out]| && Eval(I, init, env, mem) == Some(acc)
    requires FoldValues(I, ReduceOp(rt), acc, xs) == Some(v)
    ensures Exec(I, SeqStmt([Store(out, init, flat, None), Nest(rvars, ds, UpdateStmt(out, rt, flat, src))]), env, mem)
      == Some(Put(mem, out, k, Some(v)))
  {
    hide ExactInts, SourceValues, FoldValues, Points, Ranges;
    var mem1 := Put(mem, out, k, Some(acc));
    var update := UpdateStmt(out, rt, flat, src);
    StoreStep(I, out, init, flat, env, mem, k, acc);
    NestIsEnumeration(I, rvars, ds, update, env, mem1);
    ReduceLoops(I, mem, mem1, rt, src, out, flat, k, axis, idx, rvars, Points(Ranges(ds)), env, acc, xs, v);
    PutPut(mem, out, k, Some(acc), Some(v));
    TwoStmts(I, Store(out, init, flat, None), Nest(rvars, ds, update), env, mem, mem1, Put(mem, out, k, Some(v)));
  }
}
