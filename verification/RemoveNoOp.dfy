/** Removal of statements that do nothing, and flattening of statement sequences. */
module RemoveNoOp {
  import opened Base
  import opened Tir

  predicate IsConstZero(e: PrimExpr) {
    e == IntImm(0) || e == FloatImm(Fin(0.0))
  }

  predicate IsNoOp(s: Stmt)
    decreases s, 0
  {
    match s
    case Undef => true
    case Evaluate(e) => IsConstZero(e)
    case SeqStmt(ss) => AllNoOp(ss)
    case _ => false
  }

  predicate AllNoOp(ss: seq<Stmt>)
    decreases ss, 0
  {
    ss == [] || (IsNoOp(ss[0]) && AllNoOp(ss[1..]))
  }

  /** The effective statements of `s`, with nested sequences opened up. */
  function Flatten(s: Stmt): seq<Stmt>
    decreases s, 0
  {
    match s
    case Undef => []
    case SeqStmt(ss) => FlattenAll(ss)
    case _ => if IsNoOp(s) then [] else [s]
  }

  function FlattenAll(ss: seq<Stmt>): seq<Stmt>
    decreases ss, 0
  {
    if ss == [] then [] else Flatten(ss[0]) + FlattenAll(ss[1..])
  }

  method AppendFlattenedStmt(s: Stmt, out: seq<Stmt>) returns (out': seq<Stmt>)
    ensures out' == out + Flatten(s)
    decreases s
  {
    if s.Undef? { return out; }
    if s.SeqStmt? {
      out' := out;
      assert s.stmts[..0] == [] && s.stmts[0..] == s.stmts;
      for i := 0 to |s.stmts|
        invariant out' + FlattenAll(s.stmts[i..]) == out + FlattenAll(s.stmts)
      {
        assert s.stmts[i..][1..] == s.stmts[i + 1..];
        out' := AppendFlattenedStmt(s.stmts[i], out');
      }
      return;
    }
    if IsNoOp(s) { return out; }
    return out + [s];
  }

  /** A list of effective statements as one statement. */
  function Unit(ss: seq<Stmt>): Stmt {
    if ss == [] then Undef else if |ss| == 1 then ss[0] else SeqStmt(ss)
  }

  method MakeSeqStmtOrUnit(ss: seq<Stmt>) returns (r: Stmt)
    ensures r == Unit(FlattenAll(ss))
  {
    var flattened: seq<Stmt> := [];
    assert ss[0..] == ss;
    for i := 0 to |ss|
      invariant flattened + FlattenAll(ss[i..]) == FlattenAll(ss)
    {
      assert ss[i..][1..] == ss[i + 1..];
      flattened := AppendFlattenedStmt(ss[i], flattened);
    }
    if flattened == [] { return Undef; }
    if |flattened| == 1 { return flattened[0]; }
    return SeqStmt(flattened);
  }

  /** The rewritten statement. */
  function Remove(s: Stmt): Stmt
    decreases s, 0
  {
    match s
    case Evaluate(e) => if IsConstZero(e) then Undef else s
    case SeqStmt(ss) => Unit(FlattenAll(FlattenAll(RemoveAll(ss))))
    case For(v, lo, extent, body) => var b := Remove(body); if IsNoOp(b) then Undef else For(v, lo, extent, b)
    case IfThenElse(c, t, f) => IfThenElse(c, Remove(t), Remove(f))
    case LetStmt(v, value, body) => LetStmt(v, value, Remove(body))
    case Allocate(buf, extents, c, body) => Allocate(buf, extents, c, Remove(body))
    case AttrStmt(key, value, body) => AttrStmt(key, value, Remove(body))
    case Store(_, _, _, _) => s
    case Undef => s
  }

  function RemoveAll(ss: seq<Stmt>): (rs: seq<Stmt>)
    ensures |rs| == |ss|
    decreases ss, 0
  {
    if ss == [] then [] else [Remove(ss[0])] + RemoveAll(ss[1..])
  }

  method VisitSeqStmt(ss: seq<Stmt>) returns (r: Stmt)
    ensures r == Remove(SeqStmt(ss))
    decreases ss, 0
  {
    hide Remove, Flatten, FlattenAll, RemoveAll;
    var flattened: seq<Stmt> := [];
    assert ss[0..] == ss;
    for i := 0 to |ss|
      invariant flattened + FlattenAll(RemoveAll(ss[i..])) == FlattenAll(RemoveAll(ss))
    {
      assert ss[i..][1..] == ss[i + 1..];
      RemovedNext(ss[i..]);
      var child := Mutate(ss[i]);
      flattened := AppendFlattenedStmt(child, flattened);
    }
    assert ss[|ss|..] == [];
    RemovedNone(ss);
    assert flattened == FlattenAll(RemoveAll(ss));
    r := MakeSeqStmtOrUnit(flattened);
  }

  lemma RemovedNext(ss: seq<Stmt>)
    requires ss != []
    ensures FlattenAll(RemoveAll(ss)) == Flatten(Remove(ss[0])) + FlattenAll(RemoveAll(ss[1..]))
  {
    hide Remove, Flatten;
    assert RemoveAll(ss)[1..] == RemoveAll(ss[1..]);
  }

  lemma RemovedNone(ss: seq<Stmt>)
    ensures FlattenAll(RemoveAll([])) == []
    ensures Remove(SeqStmt(ss)) == Unit(FlattenAll(FlattenAll(RemoveAll(ss))))
  {
  }

  method Mutate(s: Stmt) returns (r: Stmt)
    ensures r == Remove(s)
    decreases s, 0
  {
    match s
    case Evaluate(e) =>
      if IsConstZero(e) { return Undef; }
      return s;
    case SeqStmt(ss) =>
      r := VisitSeqStmt(ss);
    case For(v, lo, extent, body) =>
      var b := Mutate(body);
      if IsNoOp(b) { return Undef; }
      return For(v, lo, extent, b);
    case IfThenElse(c, t, f) =>
      var x := Mutate(t);
      var y := Mutate(f);
      return IfThenElse(c, x, y);
    case LetStmt(v, value, body) =>
      var b := Mutate(body);
      return LetStmt(v, value, b);
    case Allocate(buf, extents, c, body) =>
      var b := Mutate(body);
      return Allocate(buf, extents, c, b);
    case AttrStmt(key, value, body) =>
      var b := Mutate(body);
      return AttrStmt(key, value, b);
    case Store(_, _, _, _) => return s;
    case Undef => return s;
  }

  // ---------- normal form ----------

  /** Nothing, or the evaluation of a literal zero. */
  predicate IsIdle(s: Stmt) {
    s.Undef? || s == Evaluate(IntImm(0)) || s == Evaluate(FloatImm(Fin(0.0)))
  }

  /** A statement that can stand in a sequence: neither a sequence nor idle. */
  predicate Item(s: Stmt) { !s.SeqStmt? && !IsIdle(s) }

  predicate NormalForm(s: Stmt)
    decreases s, 0
  {
    match s
    case Evaluate(e) => !IsIdle(s)
    case SeqStmt(ss) => |ss| >= 2 && AllItems(ss)
    case For(_, _, _, body) => NormalForm(body) && !IsIdle(body)
    case IfThenElse(_, t, f) => NormalForm(t) && NormalForm(f)
    case LetStmt(_, _, body) => NormalForm(body)
    case Allocate(_, _, _, body) => NormalForm(body)
    case AttrStmt(_, _, body) => NormalForm(body)
    case _ => true
  }

  predicate AllItems(ss: seq<Stmt>)
    decreases ss, 0
  {
    ss == [] || (Item(ss[0]) && NormalForm(ss[0]) && AllItems(ss[1..]))
  }

  predicate AllNormal(ss: seq<Stmt>)
    decreases ss, 0
  {
    ss == [] || (NormalForm(ss[0]) && AllNormal(ss[1..]))
  }

  lemma {:induction false} ItemsConcat(a: seq<Stmt>, b: seq<Stmt>)
    requires AllItems(a) && AllItems(b)
    ensures AllItems(a + b)
    decreases |a|
  {
    if a == [] {
      assert a + b == b;
    } else {
      ItemsConcat(a[1..], b);
      assert (a + b)[1..] == a[1..] + b;
    }
  }

  lemma {:induction false} FlattenItems(ss: seq<Stmt>)
    requires AllItems(ss)
    ensures FlattenAll(ss) == ss
    decreases |ss|
  {
    if ss != [] {
      FlattenItems(ss[1..]);
      assert Flatten(ss[0]) == [ss[0]];
      assert [ss[0]] + ss[1..] == ss;
    }
  }

  lemma FlattenNormal(s: Stmt)
    requires NormalForm(s)
    ensures AllItems(Flatten(s))
  {
    if s.SeqStmt? {
      FlattenItems(s.stmts);
    } else if !IsNoOp(s) {
      assert [s][1..] == [];
    }
  }

  lemma {:induction false} FlattenAllNormal(ss: seq<Stmt>)
    requires AllNormal(ss)
    ensures AllItems(FlattenAll(ss))
    decreases |ss|
  {
    if ss != [] {
      FlattenNormal(ss[0]);
      FlattenAllNormal(ss[1..]);
      ItemsConcat(Flatten(ss[0]), FlattenAll(ss[1..]));
    }
  }

  /** The result has no no-ops in sequences, no nested or short sequences and no empty loops. */
  lemma {:induction false} RemoveNormalises(s: Stmt)
    ensures NormalForm(Remove(s))
    decreases s, 0
  {
    match s
    case SeqStmt(ss) =>
      RemoveAllNormalises(ss);
      FlattenAllNormal(RemoveAll(ss));
      var items := FlattenAll(RemoveAll(ss));
      FlattenItems(items);
      if |items| == 1 {
        assert NormalForm(items[0]);
      }
    case For(_, _, _, body) => RemoveNormalises(body);
    case IfThenElse(_, t, f) => RemoveNormalises(t); RemoveNormalises(f);
    case LetStmt(_, _, body) => RemoveNormalises(body);
    case Allocate(_, _, _, body) => RemoveNormalises(body);
    case AttrStmt(_, _, body) => RemoveNormalises(body);
    case _ =>
  }

  lemma {:induction false} RemoveAllNormalises(ss: seq<Stmt>)
    ensures AllNormal(RemoveAll(ss))
    decreases ss, 0
  {
    if ss != [] {
      RemoveNormalises(ss[0]);
      RemoveAllNormalises(ss[1..]);
      assert RemoveAll(ss)[1..] == RemoveAll(ss[1..]);
    }
  }

  /** A statement is a no-op exactly when it is idle or a sequence of no-ops, and nothing of it is kept. */
  lemma {:induction false} NoOpExact(s: Stmt)
    ensures IsNoOp(s) <==> IsIdle(s) || (s.SeqStmt? && forall i :: 0 <= i < |s.stmts| ==> IsNoOp(s.stmts[i]))
    ensures IsNoOp(s) <==> Flatten(s) == []
    decreases s, 0
  {
    if s.SeqStmt? { NoOpsExact(s.stmts); }
  }

  lemma {:induction false} NoOpsExact(ss: seq<Stmt>)
    ensures AllNoOp(ss) <==> forall i :: 0 <= i < |ss| ==> IsNoOp(ss[i])
    ensures AllNoOp(ss) <==> FlattenAll(ss) == []
    decreases ss, 0
  {
    if ss != [] {
      NoOpExact(ss[0]);
      NoOpsExact(ss[1..]);
      assert forall i :: 0 < i < |ss| ==> ss[i] == ss[1..][i - 1];
      if AllNoOp(ss) {
        forall i | 0 <= i < |ss| ensures IsNoOp(ss[i]) {
          if i > 0 { assert IsNoOp(ss[1..][i - 1]); }
        }
      }
    }
  }

  /** In normal form the no-ops are the idle statements. */
  lemma IdleExact(s: Stmt)
    requires NormalForm(s)
    ensures IsNoOp(s) <==> IsIdle(s)
  {
    if s.SeqStmt? { assert Item(s.stmts[0]); }
  }

  /** A statement in normal form is left as it is. */
  lemma {:induction false} NormalIsFixed(s: Stmt)
    requires NormalForm(s)
    ensures Remove(s) == s
    decreases s, 0
  {
    match s
    case SeqStmt(ss) =>
      ItemsAreFixed(ss);
      FlattenItems(ss);
    case For(_, _, _, body) => NormalIsFixed(body); IdleExact(body);
    case IfThenElse(_, t, f) => NormalIsFixed(t); NormalIsFixed(f);
    case LetStmt(_, _, body) => NormalIsFixed(body);
    case Allocate(_, _, _, body) => NormalIsFixed(body);
    case AttrStmt(_, _, body) => NormalIsFixed(body);
    case _ =>
  }

  lemma {:induction false} ItemsAreFixed(ss: seq<Stmt>)
    requires AllItems(ss)
    ensures RemoveAll(ss) == ss
    decreases ss, 0
  {
    if ss != [] {
      NormalIsFixed(ss[0]);
      ItemsAreFixed(ss[1..]);
    }
  }

  /** A second run changes nothing. */
  lemma RemoveIdempotent(s: Stmt)
    ensures Remove(Remove(s)) == Remove(s)
  {
    RemoveNormalises(s);
    NormalIsFixed(Remove(s));
  }

  // ---------- meaning ----------

  lemma {:induction false} NoOpDoesNothing(I: Interp, s: Stmt, env: Env, mem: Mem)
    requires IsNoOp(s)
    ensures Exec(I, s, env, mem) == Some(mem)
    decreases s, 0
  {
    if s.SeqStmt? {
      NoOpsDoNothing(I, s.stmts, env, mem);
    }
  }

  lemma {:induction false} NoOpsDoNothing(I: Interp, ss: seq<Stmt>, env: Env, mem: Mem)
    requires AllNoOp(ss)
    ensures ExecSeq(I, ss, env, mem) == Some(mem)
    decreases ss, 0
  {
    if ss != [] {
      NoOpDoesNothing(I, ss[0], env, mem);
      NoOpsDoNothing(I, ss[1..], env, mem);
    }
  }

  lemma {:induction false} ExecSeqConcat(I: Interp, a: seq<Stmt>, b: seq<Stmt>, env: Env, mem: Mem)
    ensures ExecSeq(I, a + b, env, mem) == (var m :- ExecSeq(I, a, env, mem); ExecSeq(I, b, env, m))
    decreases |a|
  {
    if a == [] {
      assert a + b == b;
    } else {
      assert (a + b)[1..] == a[1..] + b;
      var r := Exec(I, a[0], env, mem);
      if r.Some? {
        ExecSeqConcat(I, a[1..], b, env, r.value);
      }
    }
  }

  lemma ExecSingle(I: Interp, s: Stmt, env: Env, mem: Mem)
    ensures ExecSeq(I, [s], env, mem) == Exec(I, s, env, mem)
  {
    var r := Exec(I, s, env, mem);
    assert [s][1..] == [];
    if r.Some? {
      assert ExecSeq(I, [], env, r.value) == r;
    }
  }

  /** Running the flattened statements is running the statement. */
  lemma {:induction false} FlattenSame(I: Interp, s: Stmt, env: Env, mem: Mem)
    ensures ExecSeq(I, Flatten(s), env, mem) == Exec(I, s, env, mem)
    decreases s, 0
  {
    match s
    case SeqStmt(ss) => FlattenAllSame(I, ss, env, mem);
    case Undef =>
    case _ =>
      if IsNoOp(s) {
        NoOpDoesNothing(I, s, env, mem);
      } else {
        ExecSingle(I, s, env, mem);
      }
  }

  lemma {:induction false} FlattenAllSame(I: Interp, ss: seq<Stmt>, env: Env, mem: Mem)
    ensures ExecSeq(I, FlattenAll(ss), env, mem) == ExecSeq(I, ss, env, mem)
    decreases ss, 0
  {
    if ss != [] {
      FlattenSame(I, ss[0], env, mem);
      ExecSeqConcat(I, Flatten(ss[0]), FlattenAll(ss[1..]), env, mem);
      var r := Exec(I, ss[0], env, mem);
      if r.Some? {
        FlattenAllSame(I, ss[1..], env, r.value);
      }
    }
  }

  lemma UnitSame(I: Interp, ss: seq<Stmt>, env: Env, mem: Mem)
    ensures Exec(I, Unit(ss), env, mem) == ExecSeq(I, ss, env, mem)
  {
    if |ss| == 1 {
      assert ss == [ss[0]];
      ExecSingle(I, ss[0], env, mem);
    }
  }

  lemma RemovedSeq(I: Interp, ss: seq<Stmt>, env: Env, mem: Mem)
    ensures Exec(I, Remove(SeqStmt(ss)), env, mem) == ExecSeq(I, RemoveAll(ss), env, mem)
  {
    var items := FlattenAll(RemoveAll(ss));
    FlattenAllSame(I, RemoveAll(ss), env, mem);
    FlattenAllSame(I, items, env, mem);
    UnitSame(I, FlattenAll(items), env, mem);
  }

  lemma RemovedFor(I: Interp, v: VarId, lo: PrimExpr, extent: PrimExpr, body: Stmt, env: Env, mem: Mem, l: int, x: int)
    requires Eval(I, lo, env, mem) == Some(IntV(l)) && Eval(I, extent, env, mem) == Some(IntV(x))
    ensures Exec(I, Remove(For(v, lo, extent, body)), env, mem) == ExecFor(I, v, l, l + x, Remove(body), env, mem)
  {
    hide Eval, IsNoOp;
    if IsNoOp(Remove(body)) {
      EmptyLoop(I, v, l, l + x, Remove(body), env, mem);
    }
  }

  /** `r` does whatever `s` does, and may only be defined more often. */
  ghost predicate Refines(s: Option<Mem>, r: Option<Mem>) {
    s.Some? ==> r == s
  }

  /** Whenever the original runs, the result runs and leaves the same memory. */
  lemma {:induction false} RemoveRefines(I: Interp, s: Stmt, env: Env, mem: Mem)
    ensures Refines(Exec(I, s, env, mem), Exec(I, Remove(s), env, mem))
    decreases s, 0, 0
  {
    match s
    case SeqStmt(ss) =>
      RemoveAllRefines(I, ss, env, mem);
      RemovedSeq(I, ss, env, mem);
    case For(v, lo, extent, body) =>
      ForRefines(I, v, lo, extent, body, env, mem);
    case IfThenElse(_, t, f) => RemoveRefines(I, t, env, mem); RemoveRefines(I, f, env, mem);
    case LetStmt(v, value, body) =>
      var x := Eval(I, value, env, mem);
      if x.Some? {
        RemoveRefines(I, body, env[v := x.value], mem);
      }
    case Allocate(buf, extents, _, body) =>
      var n := AllocSize(I, extents, env, mem);
      if n.Some? && n.value >= 0 {
        RemoveRefines(I, body, env, mem[buf := seq(n.value, _ => None)]);
      }
    case AttrStmt(_, _, body) => RemoveRefines(I, body, env, mem);
    case _ =>
  }

  lemma {:induction false} ForRefines(
    I: Interp, v: VarId, lo: PrimExpr, extent: PrimExpr, body: Stmt, env: Env, mem: Mem)
    ensures var s := For(v, lo, extent, body); Refines(Exec(I, s, env, mem), Exec(I, Remove(s), env, mem))
    decreases body, 2, 0
  {
    var s := For(v, lo, extent, body);
    if Exec(I, s, env, mem).Some? {
      var l, x := Eval(I, lo, env, mem).value.n, Eval(I, extent, env, mem).value.n;
      LoopRefines(I, v, l, l + x, body, env, mem);
      RemovedFor(I, v, lo, extent, body, env, mem, l, x);
    }
  }

  lemma {:induction false} RemoveAllRefines(I: Interp, ss: seq<Stmt>, env: Env, mem: Mem)
    ensures Refines(ExecSeq(I, ss, env, mem), ExecSeq(I, RemoveAll(ss), env, mem))
    decreases ss, 0, 0
  {
    if ss != [] {
      RemoveRefines(I, ss[0], env, mem);
      assert RemoveAll(ss)[1..] == RemoveAll(ss[1..]);
      var r := Exec(I, ss[0], env, mem);
      if r.Some? {
        RemoveAllRefines(I, ss[1..], env, r.value);
      }
    }
  }

  lemma {:induction false} LoopRefines(I: Interp, v: VarId, i: int, hi: int, body: Stmt, env: Env, mem: Mem)
    ensures Refines(ExecFor(I, v, i, hi, body, env, mem), ExecFor(I, v, i, hi, Remove(body), env, mem))
    decreases body, 1, hi - i
  {
    if i < hi {
      RemoveRefines(I, body, env[v := IntV(i)], mem);
      var r := Exec(I, body, env[v := IntV(i)], mem);
      if r.Some? {
        LoopRefines(I, v, i + 1, hi, body, env, r.value);
      }
    }
  }

  lemma {:induction false} EmptyLoop(I: Interp, v: VarId, i: int, hi: int, body: Stmt, env: Env, mem: Mem)
    requires IsNoOp(body)
    ensures ExecFor(I, v, i, hi, body, env, mem) == Some(mem)
    decreases hi - i
  {
    if i < hi {
      NoOpDoesNothing(I, body, env[v := IntV(i)], mem);
      EmptyLoop(I, v, i + 1, hi, body, env, mem);
    }
  }

  /**
   The bounds of every loop that the pass drops are integer expressions over the variables
   of enclosing loops, such as the dimensions that lowering emits.
   */
  predicate IntBounds(s: Stmt, scope: set<VarId>)
    decreases s, 0
  {
    match s
    case SeqStmt(ss) => AllIntBounds(ss, scope)
    case For(v, lo, extent, body) =>
      (IsNoOp(Remove(body)) ==> IntExpr(lo, scope) && IntExpr(extent, scope)) && IntBounds(body, scope + {v})
    case IfThenElse(_, t, f) => IntBounds(t, scope) && IntBounds(f, scope)
    case LetStmt(v, value, body) => IntBounds(body, if IntExpr(value, scope) then scope + {v} else scope - {v})
    case Allocate(_, _, _, body) => IntBounds(body, scope)
    case AttrStmt(_, _, body) => IntBounds(body, scope)
    case _ => true
  }

  predicate AllIntBounds(ss: seq<Stmt>, scope: set<VarId>)
    decreases ss, 0
  {
    ss == [] || (IntBounds(ss[0], scope) && AllIntBounds(ss[1..], scope))
  }

  /** With such bounds the result has exactly the original's effect, faults included. */
  lemma {:induction false} RemovePreserves(I: Interp, s: Stmt, env: Env, mem: Mem, scope: set<VarId>)
    requires ExactInts(I) && IntBounds(s, scope) && IntsIn(env, scope)
    ensures Exec(I, Remove(s), env, mem) == Exec(I, s, env, mem)
    decreases s, 0, 0
  {
    hide ExactInts, IntExpr, IntValue, Eval, AllocSize, IsNoOp;
    match s
    case SeqStmt(ss) =>
      RemoveAllPreserves(I, ss, env, mem, scope);
      RemovedSeq(I, ss, env, mem);
    case For(v, lo, extent, body) => ForPreserves(I, v, lo, extent, body, env, mem, scope);
    case IfThenElse(_, t, f) =>
      RemovePreserves(I, t, env, mem, scope);
      RemovePreserves(I, f, env, mem, scope);
    case LetStmt(v, value, body) =>
      var x := Eval(I, value, env, mem);
      if x.Some? {
        if IntExpr(value, scope) { EvalInt(I, value, scope, env, mem); }
        RemovePreserves(I, body, env[v := x.value], mem, if IntExpr(value, scope) then scope + {v} else scope - {v});
      }
    case Allocate(buf, extents, _, body) =>
      var n := AllocSize(I, extents, env, mem);
      if n.Some? && n.value >= 0 {
        RemovePreserves(I, body, env, mem[buf := seq(n.value, _ => None)], scope);
      }
    case AttrStmt(_, _, body) => RemovePreserves(I, body, env, mem, scope);
    case Evaluate(e) => EvaluateSame(I, e, env, mem);
    case _ =>
  }

  lemma EvaluateSame(I: Interp, e: PrimExpr, env: Env, mem: Mem)
    ensures Exec(I, Remove(Evaluate(e)), env, mem) == Exec(I, Evaluate(e), env, mem)
  {
  }

  lemma {:induction false} ForPreserves(
    I: Interp, v: VarId, lo: PrimExpr, extent: PrimExpr, body: Stmt, env: Env, mem: Mem, scope: set<VarId>)
    requires ExactInts(I) && IntBounds(For(v, lo, extent, body), scope) && IntsIn(env, scope)
    ensures Exec(I, Remove(For(v, lo, extent, body)), env, mem) == Exec(I, For(v, lo, extent, body), env, mem)
    decreases body, 2, 0
  {
    hide ExactInts, IntExpr, IntValue, Eval, IsNoOp;
    var l, x := Eval(I, lo, env, mem), Eval(I, extent, env, mem);
    if IsNoOp(Remove(body)) {
      EvalInt(I, lo, scope, env, mem);
      EvalInt(I, extent, scope, env, mem);
    }
    if l.Some? && x.Some? && l.value.IntV? && x.value.IntV? {
      LoopPreserves(I, v, l.value.n, l.value.n + x.value.n, body, env, mem, scope);
      RemovedFor(I, v, lo, extent, body, env, mem, l.value.n, x.value.n);
    }
  }

  lemma {:induction false} RemoveAllPreserves(I: Interp, ss: seq<Stmt>, env: Env, mem: Mem, scope: set<VarId>)
    requires ExactInts(I) && AllIntBounds(ss, scope) && IntsIn(env, scope)
    ensures ExecSeq(I, RemoveAll(ss), env, mem) == ExecSeq(I, ss, env, mem)
    decreases ss, 0, 0
  {
    hide ExactInts, Exec, Remove, IntBounds;
    if ss != [] {
      RemovePreserves(I, ss[0], env, mem, scope);
      assert RemoveAll(ss)[1..] == RemoveAll(ss[1..]);
      var r := Exec(I, ss[0], env, mem);
      if r.Some? {
        RemoveAllPreserves(I, ss[1..], env, r.value, scope);
      }
    }
  }

  lemma {:induction false} LoopPreserves(
    I: Interp, v: VarId, i: int, hi: int, body: Stmt, env: Env, mem: Mem, scope: set<VarId>)
    requires ExactInts(I) && IntBounds(body, scope + {v}) && IntsIn(env, scope)
    ensures ExecFor(I, v, i, hi, Remove(body), env, mem) == ExecFor(I, v, i, hi, body, env, mem)
    decreases body, 1, hi - i
  {
    hide ExactInts, Exec, Remove, IntBounds;
    if i < hi {
      RemovePreserves(I, body, env[v := IntV(i)], mem, scope + {v});
      var r := Exec(I, body, env[v := IntV(i)], mem);
      if r.Some? {
        LoopPreserves(I, v, i + 1, hi, body, env, r.value, scope);
      }
    }
  }

  /** Dropping an empty loop is exact precisely when both its bounds evaluate to integers. */
  lemma EmptyLoopExact(
    I: Interp, v: VarId, lo: PrimExpr, extent: PrimExpr, body: Stmt, env: Env, mem: Mem, scope: set<VarId>)
    requires ExactInts(I) && IntBounds(body, scope + {v}) && IntsIn(env, scope) && IsNoOp(Remove(body))
    ensures Exec(I, Remove(For(v, lo, extent, body)), env, mem) == Exec(I, For(v, lo, extent, body), env, mem) <==>
      var l, x := Eval(I, lo, env, mem), Eval(I, extent, env, mem);
      l.Some? && x.Some? && l.value.IntV? && x.value.IntV?
  {
    hide ExactInts, Eval, IntBounds, Remove, ExecFor, IsNoOp;
    EmptyLoopDropped(v, lo, extent, body);
    var l, x := Eval(I, lo, env, mem), Eval(I, extent, env, mem);
    if l.Some? && x.Some? && l.value.IntV? && x.value.IntV? {
      LoopPreserves(I, v, l.value.n, l.value.n + x.value.n, body, env, mem, scope);
      RemovedFor(I, v, lo, extent, body, env, mem, l.value.n, x.value.n);
    }
  }

  lemma EmptyLoopDropped(v: VarId, lo: PrimExpr, extent: PrimExpr, body: Stmt)
    requires IsNoOp(Remove(body))
    ensures Remove(For(v, lo, extent, body)) == Undef
  {
    hide IsNoOp;
  }

  /** Without such bounds the original can fault where the result does not: the bound is dropped. */
  lemma DroppedBoundCanHideAFault(I: Interp)
    ensures var s := For(0, IntImm(0), Load(0, IntImm(0), None), Evaluate(IntImm(0)));
      Exec(I, s, map[], map[]).None? && Exec(I, Remove(s), map[], map[]) == Some(map[])
  {
    var bound := Load(0, IntImm(0), None);
    var empty: Mem := map[];
    assert Eval(I, IntImm(0), map[], empty) == Some(IntV(0));
    assert Eval(I, bound, map[], empty) == None;
    assert Remove(Evaluate(IntImm(0))) == Undef;
  }
}
