/**
 TIR expressions and statements, and their big-step meaning.

 A memory maps each buffer variable to its cells; a cell is `None` until it is first
 written.  Evaluation and execution return `None` on a fault: an unbound variable, an
 access outside a buffer, a read of a cell that was never written, or a scalar operation
 the arithmetic leaves undefined.
 */
module Tir {
  import opened Base

  type VarId = nat
  type BufId = nat

  datatype Flt = NegInf | PosInf | Fin(r: real)
  datatype Value = IntV(n: int) | FltV(f: Flt)

  datatype BinOp = Add | Sub | Mul | Div | Mod | Min | Max | EQ | LT | And | Or
  datatype ReduceType = SumReduce | MaxReduce | MinReduce

  /** A reduction axis: the loop variable with its domain. */
  datatype IterVar = IterVar(v: VarId, lo: PrimExpr, extent: PrimExpr)

  /** `ProducerLoad` and `Reduce` are the tensor-expression nodes; lowering removes them. */
  datatype PrimExpr =
    | IntImm(n: int)
    | FloatImm(f: Flt)
    | Var(v: VarId)
    | Binary(op: BinOp, a: PrimExpr, b: PrimExpr)
    | Not(e: PrimExpr)
    | Select(cond: PrimExpr, tval: PrimExpr, fval: PrimExpr)
    | Call(name: string, args: seq<PrimExpr>)
    | Load(buf: BufId, index: PrimExpr, pred: Option<PrimExpr>)
    | ProducerLoad(tensor: nat, indices: seq<PrimExpr>)
    | Reduce(rtype: ReduceType, axis: seq<IterVar>, source: seq<PrimExpr>)

  /** `Undef` is the null statement reference, which every consumer treats as "nothing". */
  datatype Stmt =
    | Undef
    | Store(sbuf: BufId, value: PrimExpr, sindex: PrimExpr, spred: Option<PrimExpr>)
    | For(loopVar: VarId, lo: PrimExpr, extent: PrimExpr, body: Stmt)
    | IfThenElse(cond: PrimExpr, thenCase: Stmt, elseCase: Stmt)
    | LetStmt(lvar: VarId, lvalue: PrimExpr, body: Stmt)
    | Allocate(abuf: BufId, extents: seq<PrimExpr>, acond: PrimExpr, body: Stmt)
    | AttrStmt(key: string, avalue: PrimExpr, body: Stmt)
    | SeqStmt(stmts: seq<Stmt>)
    | Evaluate(evalue: PrimExpr)

  /** The scalar arithmetic.  Every result below holds for any interpretation. */
  datatype Interp = Interp(
    bin: (BinOp, Value, Value) -> Option<Value>,
    neg: Value -> Value,
    truthy: Value -> bool,
    zeroLike: Value -> Value,
    call: (string, seq<Value>) -> Option<Value>)

  /** The quotient rounded toward zero, as both back ends divide; division by zero is not used. */
  function Quotient(a: int, b: int): int {
    if b == 0 then 0
    else if a >= 0 then (if b > 0 then a / b else -(a / -b))
    else (if b > 0 then -(-a / b) else -a / -b)
  }

  function Remainder(a: int, b: int): int {
    a - Quotient(a, b) * b
  }

  /** The remainder is smaller than the divisor and has the sign of the dividend. */
  lemma QuotientTruncates(a: int, b: int)
    requires b != 0
    ensures a == Quotient(a, b) * b + Remainder(a, b)
    ensures 0 - Abs(b) < Remainder(a, b) < Abs(b)
    ensures if a >= 0 then Remainder(a, b) >= 0 else Remainder(a, b) <= 0
  {
    DivideSigns(Abs(a), Abs(b));
  }

  lemma DivideSigns(x: int, y: int)
    requires x >= 0 && y > 0
    ensures 0 <= x - (x / y) * y < y
    ensures -(x / y) * -y == (x / y) * y && (-(x / y)) * y == -((x / y) * y) && (x / y) * -y == -((x / y) * y)
  {
  }

  function Abs(a: int): nat {
    if a < 0 then -a else a
  }

  /** The operators on integers, by their mathematical meaning. */
  function Arith(op: BinOp, x: int, y: int): int {
    match op
    case Add => x + y
    case Sub => x - y
    case Mul => x * y
    case Min => if x < y then x else y
    case Max => if x < y then y else x
    case Div => Quotient(x, y)
    case Mod => Remainder(x, y)
    case _ => 0
  }

  /** Operators that are defined on all integers. */
  predicate Total(op: BinOp) {
    op == Add || op == Sub || op == Mul || op == Min || op == Max
  }

  /** Where the operator has a mathematical meaning on integers. */
  predicate HasMeaning(op: BinOp, y: int) {
    Total(op) || ((op == Div || op == Mod) && y != 0)
  }

  /** Integers used as indices and dimensions compute and compare as mathematical integers. */
  ghost predicate ExactInts(I: Interp) {
    && (forall op, a: int, b: int :: HasMeaning(op, b) ==> I.bin(op, IntV(a), IntV(b)) == Some(IntV(Arith(op, a, b))))
    && (forall a: int, b: int :: I.bin(LT, IntV(a), IntV(b)).Some?)
    && (forall a: int, b: int :: I.truthy(I.bin(LT, IntV(a), IntV(b)).value) <==> a < b)
  }

  type Env = map<VarId, Value>
  type Mem = map<BufId, seq<Option<Value>>>

  function ReadCell(mem: Mem, buf: BufId, index: Value): Option<Value> {
    if buf in mem && index.IntV? && 0 <= index.n < |mem[buf]| then mem[buf][index.n] else None
  }

  function WriteCell(mem: Mem, buf: BufId, index: Value, v: Value): Option<Mem> {
    if buf in mem && index.IntV? && 0 <= index.n < |mem[buf]| then
      Some(mem[buf := mem[buf][index.n := Some(v)]])
    else None
  }

  /** `Select` evaluates one branch only; every other operator evaluates all its operands. */
  function Eval(I: Interp, e: PrimExpr, env: Env, mem: Mem): Option<Value>
    decreases e, 0
  {
    match e
    case IntImm(n) => Some(IntV(n))
    case FloatImm(f) => Some(FltV(f))
    case Var(v) => if v in env then Some(env[v]) else None
    case Binary(op, a, b) =>
      var x :- Eval(I, a, env, mem);
      var y :- Eval(I, b, env, mem);
      I.bin(op, x, y)
    case Not(a) =>
      var x :- Eval(I, a, env, mem);
      Some(I.neg(x))
    case Select(c, t, f) =>
      var x :- Eval(I, c, env, mem);
      if I.truthy(x) then Eval(I, t, env, mem) else Eval(I, f, env, mem)
    case Call(name, args) =>
      var xs :- EvalAll(I, args, env, mem);
      I.call(name, xs)
    case Load(buf, index, pred) =>
      var i :- Eval(I, index, env, mem);
      var cell :- ReadCell(mem, buf, i);
      (match pred
       case None => Some(cell)
       case Some(p) =>
         var b :- Eval(I, p, env, mem);
         Some(if I.truthy(b) then cell else I.zeroLike(cell)))
    case ProducerLoad(_, _) => None
    case Reduce(_, _, _) => None
  }

  function EvalAll(I: Interp, es: seq<PrimExpr>, env: Env, mem: Mem): (r: Option<seq<Value>>)
    ensures r.Some? ==> |r.value| == |es|
    decreases es, 0
  {
    if es == [] then Some([]) else
      var x :- Eval(I, es[0], env, mem);
      var xs :- EvalAll(I, es[1..], env, mem);
      Some([x] + xs)
  }

  /** The number of cells an `Allocate` reserves: the product of its extents. */
  function AllocSize(I: Interp, extents: seq<PrimExpr>, env: Env, mem: Mem): Option<int>
    decreases |extents|
  {
    if extents == [] then Some(1) else
      var x :- Eval(I, extents[0], env, mem);
      var rest :- AllocSize(I, extents[1..], env, mem);
      if x.IntV? then Some(x.n * rest) else None
  }

  function Exec(I: Interp, s: Stmt, env: Env, mem: Mem): Option<Mem>
    decreases s, 0, 0
  {
    match s
    case Undef => Some(mem)
    case Store(buf, value, index, pred) =>
      var v :- Eval(I, value, env, mem);
      var i :- Eval(I, index, env, mem);
      (match pred
       case None => WriteCell(mem, buf, i, v)
       case Some(p) =>
         var b :- Eval(I, p, env, mem);
         if I.truthy(b) then WriteCell(mem, buf, i, v) else Some(mem))
    case For(v, lo, extent, body) =>
      var l :- Eval(I, lo, env, mem);
      var x :- Eval(I, extent, env, mem);
      if l.IntV? && x.IntV? then ExecFor(I, v, l.n, l.n + x.n, body, env, mem) else None
    case IfThenElse(c, t, f) =>
      var b :- Eval(I, c, env, mem);
      if I.truthy(b) then Exec(I, t, env, mem) else Exec(I, f, env, mem)
    case LetStmt(v, value, body) =>
      var x :- Eval(I, value, env, mem);
      Exec(I, body, env[v := x], mem)
    case Allocate(buf, extents, _, body) =>
      var n :- AllocSize(I, extents, env, mem);
      if n < 0 then None else
      var out :- Exec(I, body, env, mem[buf := seq(n, _ => None)]);
      Some(Release(mem, out, buf))
    case AttrStmt(_, _, body) => Exec(I, body, env, mem)
    case SeqStmt(ss) => ExecSeq(I, ss, env, mem)
    case Evaluate(e) =>
      var _ :- Eval(I, e, env, mem);
      Some(mem)
  }

  /** At the end of its scope the buffer variable means again what it meant before. */
  function Release(before: Mem, after: Mem, buf: BufId): Mem {
    if buf in before then after[buf := before[buf]] else after - {buf}
  }

  function ExecFor(I: Interp, v: VarId, i: int, hi: int, body: Stmt, env: Env, mem: Mem): Option<Mem>
    decreases body, 1, hi - i
  {
    if i >= hi then Some(mem) else
      var m :- Exec(I, body, env[v := IntV(i)], mem);
      ExecFor(I, v, i + 1, hi, body, env, m)
  }

  function ExecSeq(I: Interp, ss: seq<Stmt>, env: Env, mem: Mem): Option<Mem>
    decreases ss, 0, 0
  {
    if ss == [] then Some(mem) else
      var m :- Exec(I, ss[0], env, mem);
      ExecSeq(I, ss[1..], env, m)
  }

  // ---------- integer expressions ----------

  /**
   Sums, differences, products, minima and maxima of literals and variables of the scope, and
   quotients and remainders by an expression without variables that is not zero.
   */
  predicate IntExpr(e: PrimExpr, scope: set<VarId>) {
    match e
    case IntImm(_) => true
    case Var(v) => v in scope
    case Binary(op, a, b) =>
      IntExpr(a, scope) && IntExpr(b, scope)
      && (Total(op) || (IntExpr(b, {}) && HasMeaning(op, IntValue(b, map[]))))
    case _ => false
  }

  function IntValue(e: PrimExpr, env: Env): int {
    match e
    case IntImm(n) => n
    case Var(v) => if v in env && env[v].IntV? then env[v].n else 0
    case Binary(op, a, b) => Arith(op, IntValue(a, env), IntValue(b, env))
    case _ => 0
  }

  /** The variables of the scope hold integers. */
  predicate IntsIn(env: Env, scope: set<VarId>) {
    forall v :: v in scope ==> v in env && env[v].IntV?
  }

  lemma ArithIs(I: Interp, op: BinOp, x: int, y: int)
    requires ExactInts(I) && HasMeaning(op, y)
    ensures I.bin(op, IntV(x), IntV(y)) == Some(IntV(Arith(op, x, y)))
  {
    hide Arith;
  }

  lemma EvalBinary(I: Interp, op: BinOp, a: PrimExpr, b: PrimExpr, x: int, y: int, env: Env, mem: Mem)
    requires ExactInts(I) && HasMeaning(op, y)
    requires Eval(I, a, env, mem) == Some(IntV(x)) && Eval(I, b, env, mem) == Some(IntV(y))
    ensures Eval(I, Binary(op, a, b), env, mem) == Some(IntV(Arith(op, x, y)))
  {
    hide ExactInts, Arith, HasMeaning;
    ArithIs(I, op, x, y);
  }

  /** An expression without variables, which has one value. */
  predicate IsConst(e: PrimExpr) {
    IntExpr(e, {})
  }

  function ConstValue(e: PrimExpr): int {
    IntValue(e, map[])
  }

  lemma {:induction false} ConstSame(e: PrimExpr, env: Env)
    requires IsConst(e)
    ensures IntValue(e, env) == ConstValue(e)
  {
    hide Arith;
    if e.Binary? {
      ConstSame(e.a, env);
      ConstSame(e.b, env);
    }
  }

  /** An integer expression evaluates, and to its integer. */
  lemma {:induction false} EvalInt(I: Interp, e: PrimExpr, scope: set<VarId>, env: Env, mem: Mem)
    requires ExactInts(I) && IntExpr(e, scope) && IntsIn(env, scope)
    ensures Eval(I, e, env, mem) == Some(IntV(IntValue(e, env)))
  {
    hide ExactInts, Arith;
    if e.Binary? {
      EvalInt(I, e.a, scope, env, mem);
      EvalInt(I, e.b, scope, env, mem);
      if !Total(e.op) { ConstSame(e.b, env); }
      ArithIs(I, e.op, IntValue(e.a, env), IntValue(e.b, env));
    }
  }

  lemma EvalConst(I: Interp, e: PrimExpr, env: Env, mem: Mem)
    requires ExactInts(I) && IsConst(e)
    ensures Eval(I, e, env, mem) == Some(IntV(ConstValue(e)))
  {
    hide ExactInts, Eval, IntValue;
    EvalInt(I, e, {}, env, mem);
    ConstSame(e, env);
  }
}
