/**
 What reshape folding does to the meaning of a program, for interpretations in which a
 reshape follows the type rule: it fails where the rule fails or leaves a dimension open,
 and otherwise keeps the elements.
 */
module FoldMeaning {
  import opened Base
  import opened Relay
  import opened Broadcast
  import R = Reshapes
  import opened FoldReshapes

  /** A tensor: its shape and its elements in row-major order. */
  datatype Tensor = Tensor(shape: Shape, elems: seq<Value>)

  /** How tensors are represented as values and requests as attributes. */
  datatype Codec = Codec(
    tensor: Value -> Option<Tensor>, make: Tensor -> Value, failed: Value, request: int -> R.Request)

  ghost predicate Faithful(D: Codec) {
    && (forall t: Tensor :: AllKnown(t.shape) ==> D.tensor(D.make(t)) == Some(t))
    && D.tensor(D.failed) == None
    && (forall v :: D.tensor(v).Some? ==> AllKnown(D.tensor(v).value.shape))
  }

  function Requested(D: Codec, attrs: int, shape: Shape): R.Inferred {
    R.Reshape(shape, D.request(attrs).newshape, D.request(attrs).allowzero)
  }

  function Reshaped(D: Codec, attrs: int, x: Value): Value {
    match D.tensor(x)
    case None => D.failed
    case Some(t) =>
      match Requested(D, attrs, t.shape)
      case Ok(s) => if AllKnown(s) then D.make(Tensor(s, t.elems)) else D.failed
      case Err(_) => D.failed
  }

  /** Reshape reads its data and its attributes; the legacy shape operand is ignored. */
  ghost predicate Follows(I: Interp, D: Codec) {
    Faithful(D) && forall attrs, x, ys :: I.prim(RESHAPE, attrs, [x] + ys) == Reshaped(D, attrs, x)
  }

  // ---------- such interpretations exist ----------

  function Atoms(s: Shape): seq<Value> {
    seq(|s|, i requires 0 <= i < |s| => Atom(s[i]))
  }

  predicate AreSizes(vs: seq<Value>) {
    forall i :: 0 <= i < |vs| ==> vs[i].Atom? && Known(vs[i].n)
  }

  function Sizes(vs: seq<Value>): Shape
    requires AreSizes(vs)
  {
    seq(|vs|, i requires 0 <= i < |vs| => vs[i].n)
  }

  function PairCodec(request: int -> R.Request): Codec {
    Codec(
      (v: Value) => if v.Tup? && |v.vs| == 2 && v.vs[0].Tup? && v.vs[1].Tup? && AreSizes(v.vs[0].vs)
           then Some(Tensor(Sizes(v.vs[0].vs), v.vs[1].vs)) else None,
      (t: Tensor) => Tup([Tup(Atoms(t.shape)), Tup(t.elems)]),
      Atom(-1),
      request)
  }

  function PairInterp(D: Codec): Interp {
    Interp(
      _ => Atom(0),
      _ => Atom(0),
      (name, attrs, xs) => if name == RESHAPE && xs != [] then Reshaped(D, attrs, xs[0]) else Atom(0),
      (_, _) => Atom(0),
      _ => true,
      (_, _) => Atom(0),
      (_, _, _) => Out(Atom(0), []))
  }

  /** For every reading of attributes as requests some interpretation follows the type rule. */
  lemma SomeInterpretationFollows(request: int -> R.Request)
    ensures var D := PairCodec(request); Follows(PairInterp(D), D) && Extensional(PairInterp(D)) && D.request == request
  {
    var D := PairCodec(request);
    forall t: Tensor | AllKnown(t.shape) ensures D.tensor(D.make(t)) == Some(t) {
      assert Sizes(Atoms(t.shape)) == t.shape;
    }
  }

  // ---------- a reshape after a reshape ----------

  /** Same elements, same number of them. */
  predicate Recast(t: Tensor, m: Tensor) {
    m.elems == t.elems && R.KnownProduct(m.shape) == R.KnownProduct(t.shape)
  }

  /** A reshape that succeeds recasts its data. */
  lemma ReshapeRecasts(D: Codec, attrs: int, x: Value)
    requires Faithful(D) && D.tensor(Reshaped(D, attrs, x)).Some?
    ensures D.tensor(x).Some? && Recast(D.tensor(x).value, D.tensor(Reshaped(D, attrs, x)).value)
  {
    var t := D.tensor(x).value;
    R.CountConserved(t.shape, D.request(attrs).newshape, D.request(attrs).allowzero);
    R.SameCount(t.shape, Requested(D, attrs, t.shape).value);
  }

  ghost predicate SameCopies(D: Codec, attrs: int, t: Tensor, m: Tensor) {
    R.CopiesAlike(t.shape, m.shape, D.request(attrs).newshape, D.request(attrs).allowzero)
  }

  /** A reshape gives the same for a tensor and its recast where the copied dimensions agree. */
  lemma RecastSame(D: Codec, attrs: int, x: Value, y: Value)
    requires Faithful(D) && D.tensor(x).Some? && D.tensor(y).Some? && Recast(D.tensor(x).value, D.tensor(y).value)
    requires SameCopies(D, attrs, D.tensor(x).value, D.tensor(y).value)
    ensures Reshaped(D, attrs, x) == Reshaped(D, attrs, y)
  {
    hide R.KnownProduct, R.Reshape;
    R.FoldSame(D.tensor(x).value.shape, D.tensor(y).value.shape, D.request(attrs).newshape, D.request(attrs).allowzero);
  }

  /** Where it succeeds on the recast, that is the exact condition. */
  lemma RecastExact(D: Codec, attrs: int, x: Value, y: Value)
    requires Faithful(D) && D.tensor(x).Some? && D.tensor(y).Some? && Recast(D.tensor(x).value, D.tensor(y).value)
    requires D.tensor(Reshaped(D, attrs, y)).Some?
    ensures Reshaped(D, attrs, x) == Reshaped(D, attrs, y)
       <==> SameCopies(D, attrs, D.tensor(x).value, D.tensor(y).value)
  {
    hide R.KnownProduct, R.Reshape;
    var t, m := D.tensor(x).value, D.tensor(y).value;
    if Reshaped(D, attrs, x) == Reshaped(D, attrs, y) {
      assert D.tensor(Reshaped(D, attrs, x)).value.shape == Requested(D, attrs, t.shape).value;
      assert D.tensor(Reshaped(D, attrs, y)).value.shape == Requested(D, attrs, m.shape).value;
      R.FoldSameExact(t.shape, m.shape, D.request(attrs).newshape, D.request(attrs).allowzero);
    } else if SameCopies(D, attrs, t, m) {
      RecastSame(D, attrs, x, y);
    }
  }

  /** A reshape fails in one way. */
  lemma FailsAlike(D: Codec, attrs: int, x: Value)
    requires Faithful(D)
    ensures D.tensor(Reshaped(D, attrs, x)).None? <==> Reshaped(D, attrs, x) == D.failed
    ensures D.tensor(x).None? ==> Reshaped(D, attrs, x) == D.failed
  {
  }

  // ---------- chains in a program ----------

  /** The data at the bottom of a chain of reshapes. */
  function Bottom(e: Expr): Expr {
    if IsReshape(e) then Bottom(e.args[0]) else e
  }

  /** The pass leaves of a chain its top reshape, applied to what it makes of the bottom. */
  lemma {:induction false} FoldHead(e: Expr)
    requires IsReshape(e)
    ensures var r := Fold(e);
      IsReshape(r) && r.op == e.op && r.attrs == e.attrs && r.args[0] == Fold(Bottom(e))
      && (|e.args| <= 2 ==> r.args == [Fold(Bottom(e))] + FoldAll(e.args[1..]))
    decreases e
  {
    var rewritten := Call(Fold(e.op), FoldAll(e.args), e.attrs);
    assert FoldAll(e.args) == [Fold(e.args[0])] + FoldAll(e.args[1..]);
    if IsReshape(e.args[0]) {
      FoldHead(e.args[0]);
      assert Nested(rewritten);
      assert |e.args| == 2 ==> e.args[1..] == [e.args[1]] && FoldAll(e.args[1..]) == [rewritten.args[1]];
    } else {
      NotReshapeStays(e.args[0]);
    }
  }

  lemma NotReshapeStays(e: Expr)
    requires !IsReshape(e)
    ensures !IsReshape(Fold(e))
  {
  }

  /**
   Reshapes have at most the legacy shape operand behind their data, and where the pass
   drops one it has no side effect.
   */
  predicate Regular(e: Expr)
    decreases e, 0
  {
    match e
    case Var(_) => true
    case Constant(_) => true
    case OpRef(_) => true
    case Tuple(fields) => RegularAll(fields)
    case TupleGetItem(t, _) => Regular(t)
    case If(c, t, f) => Regular(c) && Regular(t) && Regular(f)
    case Let(_, value, body) => Regular(value) && Regular(body)
    case Function(_, body) => Regular(body)
    case Call(op, args, _) =>
      if IsReshape(e) then |args| <= 2 && RegularBelow(args[0]) && RegularAll(args[1..])
      else Regular(op) && RegularAll(args)
  }

  predicate RegularAll(es: seq<Expr>)
    decreases es, 0
  {
    es == [] || (Regular(es[0]) && RegularAll(es[1..]))
  }

  predicate RegularBelow(c: Expr)
    decreases c, 1
  {
    if IsReshape(c) then !AnySideEffect(c.args[1..]) && RegularBelow(c.args[0]) else Regular(c)
  }

  /** What a reshape evaluates to: it makes no device call of its own. */
  lemma ReshapeValue(I: Interp, D: Codec, e: Expr, env: Env)
    requires Follows(I, D) && IsReshape(e)
    ensures Eval(I, e, env).v == Reshaped(D, e.attrs, Eval(I, e.args[0], env).v)
    ensures Eval(I, e, env).tr == Eval(I, e.args[0], env).tr + EvalAll(I, e.args[1..], env).tr
  {
    hide Faithful, Reshaped;
    assert !IsDevice(RESHAPE) by { assert RESHAPE[0] != "device."[0]; }
    assert Eval(I, e.op, env) == Out(Operator(RESHAPE), []);
    var x, ys := Eval(I, e.args[0], env), EvalAll(I, e.args[1..], env);
    assert EvalAll(I, e.args, env) == Outs([x.v] + ys.vs, x.tr + ys.tr);
    assert I.prim(RESHAPE, e.attrs, [x.v] + ys.vs) == Reshaped(D, e.attrs, x.v);
  }

  /** A chain whose operands are pure makes the device calls of its bottom; if it succeeds it recasts the bottom. */
  lemma {:induction false} ChainMeans(I: Interp, D: Codec, c: Expr, env: Env)
    requires Follows(I, D) && RegularBelow(c)
    ensures Eval(I, c, env).tr == Eval(I, Bottom(c), env).tr
    ensures D.tensor(Eval(I, c, env).v).Some? ==>
      D.tensor(Eval(I, Bottom(c), env).v).Some?
      && Recast(D.tensor(Eval(I, Bottom(c), env).v).value, D.tensor(Eval(I, c, env).v).value)
    decreases c
  {
    hide Eval, Reshaped, R.KnownProduct;
    if IsReshape(c) {
      ReshapeValue(I, D, c, env);
      AllPureHaveNoTrace(I, c.args[1..], env);
      ChainMeans(I, D, c.args[0], env);
      if D.tensor(Eval(I, c, env).v).Some? { ReshapeRecasts(D, c.attrs, Eval(I, c.args[0], env).v); }
    }
  }

  /**
   The chain's data is not a tensor; or, where the chain succeeds, the dimensions its last
   reshape copies agree with the data's; or, where it fails, its last reshape fails on the data too.
   */
  ghost predicate GoodFold(I: Interp, D: Codec, e: Expr, env: Env)
    requires IsReshape(e)
  {
    var bottom, below := Eval(I, Bottom(e.args[0]), env).v, Eval(I, e.args[0], env).v;
    D.tensor(bottom).Some? ==>
      if D.tensor(Reshaped(D, e.attrs, below)).Some?
      then D.tensor(below).Some? && SameCopies(D, e.attrs, D.tensor(bottom).value, D.tensor(below).value)
      else D.tensor(Reshaped(D, e.attrs, bottom)).None?
  }

  /** The condition is exact: it says when the last reshape gives the same on the data as on the chain below it. */
  lemma GoodFoldExact(I: Interp, D: Codec, e: Expr, env: Env)
    requires Follows(I, D) && IsReshape(e) && RegularBelow(e.args[0])
    ensures var bottom, below := Eval(I, Bottom(e.args[0]), env).v, Eval(I, e.args[0], env).v;
      Reshaped(D, e.attrs, bottom) == Reshaped(D, e.attrs, below) <==> GoodFold(I, D, e, env)
  {
    hide Eval, Reshaped, Recast, SameCopies, Faithful;
    var bottom, below := Eval(I, Bottom(e.args[0]), env).v, Eval(I, e.args[0], env).v;
    ChainMeans(I, D, e.args[0], env);
    FailsAlike(D, e.attrs, bottom);
    FailsAlike(D, e.attrs, below);
    if D.tensor(Reshaped(D, e.attrs, below)).Some? {
      ReshapeRecasts(D, e.attrs, below);
      RecastExact(D, e.attrs, bottom, below);
    }
  }

  /** A fold under an outer request without copied dimensions is good as soon as the chain below succeeds. */
  lemma CopyFreeIsGood(I: Interp, D: Codec, e: Expr, env: Env)
    requires Follows(I, D) && Nested(e) && RegularBelow(e.args[0])
    requires R.NoCopies(D.request(e.attrs).newshape, D.request(e.attrs).allowzero)
    requires D.tensor(Eval(I, e.args[0], env).v).Some?
    ensures GoodFold(I, D, e, env)
  {
    hide Eval, Recast, Reshaped, Faithful;
    var bottom, below := Eval(I, Bottom(e.args[0]), env).v, Eval(I, e.args[0], env).v;
    ChainMeans(I, D, e.args[0], env);
    RecastSame(D, e.attrs, bottom, below);
    GoodFoldExact(I, D, e, env);
  }

  /** Every fold of the program is good wherever its evaluation comes by. */
  ghost predicate Safe(I: Interp, D: Codec, e: Expr, env: Env)
    decreases e, 0
  {
    match e
    case Var(_) => true
    case Constant(_) => true
    case OpRef(_) => true
    case Tuple(fields) => SafeAll(I, D, fields, env)
    case TupleGetItem(t, _) => Safe(I, D, t, env)
    case If(c, t, f) =>
      Safe(I, D, c, env) && (if I.truthy(Eval(I, c, env).v) then Safe(I, D, t, env) else Safe(I, D, f, env))
    case Let(x, value, body) => Safe(I, D, value, env) && Safe(I, D, body, env[x := Eval(I, value, env).v])
    case Function(ps, body) => forall xs :: Safe(I, D, body, BindAll(I, env, ps, xs))
    case Call(op, args, _) =>
      if IsReshape(e) then
        SafeBelow(I, D, args[0], env) && SafeAll(I, D, args[1..], env)
        && (IsReshape(args[0]) ==> GoodFold(I, D, e, env))
      else Safe(I, D, op, env) && SafeAll(I, D, args, env)
  }

  ghost predicate SafeAll(I: Interp, D: Codec, es: seq<Expr>, env: Env)
    decreases es, 0
  {
    es == [] || (Safe(I, D, es[0], env) && SafeAll(I, D, es[1..], env))
  }

  ghost predicate SafeBelow(I: Interp, D: Codec, c: Expr, env: Env)
    decreases c, 1
  {
    if IsReshape(c) then SafeBelow(I, D, c.args[0], env) else Safe(I, D, c, env)
  }

  // ---------- the pass keeps the meaning ----------

  /** The pass keeps value and device calls of every program whose folds are good and drop nothing that matters. */
  lemma {:induction false} FoldPreserves(I: Interp, D: Codec, e: Expr, env: Env)
    requires Extensional(I) && Follows(I, D) && Regular(e) && Safe(I, D, e, env)
    ensures Eval(I, Fold(e), env) == Eval(I, e, env)
    decreases e, 0
  {
    hide Extensional, Follows, GoodFold, BindAll, Apply;
    match e
    case Var(_) =>
    case Constant(_) =>
    case OpRef(_) =>
    case Tuple(fields) => FoldAllPreserves(I, D, fields, env);
    case TupleGetItem(t, _) => FoldPreserves(I, D, t, env);
    case If(c, t, f) =>
      FoldPreserves(I, D, c, env);
      if I.truthy(Eval(I, c, env).v) {
        FoldPreserves(I, D, t, env);
      } else {
        FoldPreserves(I, D, f, env);
      }
    case Let(x, value, body) =>
      FoldPreserves(I, D, value, env);
      FoldPreserves(I, D, body, env[x := Eval(I, value, env).v]);
    case Function(ps, body) =>
      forall xs ensures Eval(I, Fold(body), BindAll(I, env, ps, xs)) == Eval(I, body, BindAll(I, env, ps, xs)) {
        FoldPreserves(I, D, body, BindAll(I, env, ps, xs));
      }
      SameClosure(I, ps, Fold(body), env, body, env);
    case Call(op, args, attrs) =>
      if IsReshape(e) {
        FoldBelowPreserves(I, D, args[0], env);
        FoldAllPreserves(I, D, args[1..], env);
        if !IsReshape(args[0]) { NoChainIsGood(I, D, e, env); }
        FoldChain(I, D, e, env);
      } else {
        FoldPreserves(I, D, op, env);
        FoldAllPreserves(I, D, args, env);
        OtherCall(op, args, attrs);
      }
  }

  lemma OtherCall(op: Expr, args: seq<Expr>, attrs: int)
    requires !IsReshape(Call(op, args, attrs))
    ensures Fold(Call(op, args, attrs)) == Call(Fold(op), FoldAll(args), attrs)
  {
  }

  lemma {:induction false} FoldAllPreserves(I: Interp, D: Codec, es: seq<Expr>, env: Env)
    requires Extensional(I) && Follows(I, D) && RegularAll(es) && SafeAll(I, D, es, env)
    ensures EvalAll(I, FoldAll(es), env) == EvalAll(I, es, env)
    decreases es, 0
  {
    hide Extensional, Follows;
    if es != [] {
      FoldPreserves(I, D, es[0], env);
      FoldAllPreserves(I, D, es[1..], env);
      assert FoldAll(es)[1..] == FoldAll(es[1..]);
    }
  }

  lemma {:induction false} FoldBelowPreserves(I: Interp, D: Codec, c: Expr, env: Env)
    requires Extensional(I) && Follows(I, D) && RegularBelow(c) && SafeBelow(I, D, c, env)
    ensures Eval(I, Fold(Bottom(c)), env) == Eval(I, Bottom(c), env)
    decreases c, 1
  {
    hide Extensional, Follows, Eval;
    if IsReshape(c) {
      FoldBelowPreserves(I, D, c.args[0], env);
    } else {
      FoldPreserves(I, D, c, env);
    }
  }

  /** The folded chain, given that its bottom and its last operand keep their meaning. */
  lemma FoldedChain(I: Interp, D: Codec, e: Expr, env: Env)
    requires Follows(I, D) && IsReshape(e) && |e.args| <= 2
    requires Eval(I, Fold(Bottom(e)), env) == Eval(I, Bottom(e), env)
    requires EvalAll(I, FoldAll(e.args[1..]), env) == EvalAll(I, e.args[1..], env)
    ensures Eval(I, Fold(e), env).v == Reshaped(D, e.attrs, Eval(I, Bottom(e), env).v)
    ensures Eval(I, Fold(e), env).tr == Eval(I, Bottom(e), env).tr + EvalAll(I, e.args[1..], env).tr
  {
    hide Eval, Follows, Reshaped, Fold, EvalAll;
    FoldHead(e);
    var r := Fold(e);
    assert r.args[1..] == FoldAll(e.args[1..]);
    ReshapeValue(I, D, r, env);
  }

  /** Folding a chain keeps its value and device calls exactly when the fold is good. */
  lemma FoldChain(I: Interp, D: Codec, e: Expr, env: Env)
    requires Follows(I, D) && IsReshape(e) && |e.args| <= 2 && RegularBelow(e.args[0])
    requires Eval(I, Fold(Bottom(e.args[0])), env) == Eval(I, Bottom(e.args[0]), env)
    requires EvalAll(I, FoldAll(e.args[1..]), env) == EvalAll(I, e.args[1..], env)
    ensures Eval(I, Fold(e), env) == Eval(I, e, env) <==> GoodFold(I, D, e, env)
  {
    hide Eval, Reshaped, Fold, EvalAll, GoodFold, Follows;
    FoldedChain(I, D, e, env);
    ReshapeValue(I, D, e, env);
    ChainMeans(I, D, e.args[0], env);
    GoodFoldExact(I, D, e, env);
  }

  /** A reshape of anything but a reshape is left where it is, which is good. */
  lemma NoChainIsGood(I: Interp, D: Codec, e: Expr, env: Env)
    requires Follows(I, D) && IsReshape(e) && !IsReshape(e.args[0]) && RegularBelow(e.args[0])
    ensures GoodFold(I, D, e, env)
  {
    hide Eval, Reshaped, GoodFold, Follows;
    GoodFoldExact(I, D, e, env);
  }

  // ---------- exactly when one fold does ----------

  /** Whether the chain succeeds or fails, folding it keeps the program's meaning exactly when the fold is good. */
  lemma FoldChainExact(I: Interp, D: Codec, e: Expr, env: Env)
    requires Extensional(I) && Follows(I, D) && Nested(e) && Regular(e)
    requires SafeBelow(I, D, e.args[0], env) && SafeAll(I, D, e.args[1..], env)
    ensures Eval(I, Fold(e), env) == Eval(I, e, env) <==> GoodFold(I, D, e, env)
  {
    hide Extensional, Eval, Fold, EvalAll, Follows, GoodFold;
    FoldBelowPreserves(I, D, e.args[0], env);
    FoldAllPreserves(I, D, e.args[1..], env);
    FoldChain(I, D, e, env);
  }

  /** Dropping the operand of an inner reshape keeps the device calls exactly when it makes none. */
  lemma SkipTraceExact(I: Interp, D: Codec, e: Expr, env: Env)
    requires Follows(I, D) && Nested(e) && |e.args| <= 2
    ensures Eval(I, Skip(e), env).tr == Eval(I, e, env).tr <==> EvalAll(I, e.args[0].args[1..], env).tr == []
  {
    hide Eval, Follows, EvalAll;
    assert Skip(e).args[1..] == e.args[1..];
    ReshapeValue(I, D, Skip(e), env);
    ReshapeValue(I, D, e, env);
    ReshapeValue(I, D, e.args[0], env);
    var x, ys, zs := Eval(I, e.args[0].args[0], env).tr, EvalAll(I, e.args[0].args[1..], env).tr,
      EvalAll(I, e.args[1..], env).tr;
    assert |x + ys + zs| == |x + zs| <==> ys == [];
    if ys == [] { assert x + ys == x; }
  }

  // ---------- programs the pass keeps, by their text alone ----------

  /** The request names all its dimensions and that number of elements. */
  predicate Names(D: Codec, attrs: int, count: int) {
    R.Explicit(D.request(attrs).newshape) && R.Product(D.request(attrs).newshape) == count
  }

  /** In every chain of two or more reshapes, all name their dimensions and one number of elements. */
  predicate Even(D: Codec, e: Expr)
    decreases e, 0
  {
    match e
    case Var(_) => true
    case Constant(_) => true
    case OpRef(_) => true
    case Tuple(fields) => EvenAll(D, fields)
    case TupleGetItem(t, _) => Even(D, t)
    case If(c, t, f) => Even(D, c) && Even(D, t) && Even(D, f)
    case Let(_, value, body) => Even(D, value) && Even(D, body)
    case Function(_, body) => Even(D, body)
    case Call(op, args, attrs) =>
      if IsReshape(e) then
        EvenAll(D, args[1..]) && EvenBelow(D, args[0])
        && (IsReshape(args[0]) ==>
              var count := R.Product(D.request(attrs).newshape);
              Names(D, attrs, count) && ChainNames(D, args[0], count))
      else Even(D, op) && EvenAll(D, args)
  }

  predicate EvenAll(D: Codec, es: seq<Expr>)
    decreases es, 0
  {
    es == [] || (Even(D, es[0]) && EvenAll(D, es[1..]))
  }

  /** The data at the bottom of the chain; operands of the reshapes above it are dropped. */
  predicate EvenBelow(D: Codec, c: Expr)
    decreases c, 1
  {
    if IsReshape(c) then EvenBelow(D, c.args[0]) else Even(D, c)
  }

  predicate ChainNames(D: Codec, c: Expr, count: int) {
    IsReshape(c) ==> Names(D, c.attrs, count) && ChainNames(D, c.args[0], count)
  }

  lemma ExplicitReshaped(D: Codec, attrs: int, x: Value, count: int)
    requires Faithful(D) && Names(D, attrs, count)
    ensures Reshaped(D, attrs, x) ==
      if D.tensor(x).Some? && R.Product(D.tensor(x).value.shape) == count
      then D.make(Tensor(D.request(attrs).newshape, D.tensor(x).value.elems)) else D.failed
    ensures AllKnown(D.request(attrs).newshape)
  {
    hide R.Reshape, R.Product;
    if D.tensor(x).Some? {
      R.ExplicitReshape(D.tensor(x).value.shape, D.request(attrs).newshape, D.request(attrs).allowzero);
    }
  }

  /** Such a chain gives on every value, tensor or not, what its last reshape alone gives. */
  lemma {:induction false} EvenChain(I: Interp, D: Codec, c: Expr, count: int, env: Env)
    requires Follows(I, D) && IsReshape(c) && ChainNames(D, c, count)
    ensures Eval(I, c, env).v == Reshaped(D, c.attrs, Eval(I, Bottom(c), env).v)
    decreases c
  {
    hide Eval, Reshaped;
    var below := c.args[0];
    ReshapeValue(I, D, c, env);
    if IsReshape(below) {
      EvenChain(I, D, below, count, env);
      ExplicitReshaped(D, below.attrs, Eval(I, Bottom(c), env).v, count);
      ExplicitReshaped(D, c.attrs, Eval(I, Bottom(c), env).v, count);
      ExplicitReshaped(D, c.attrs, Eval(I, below, env).v, count);
    }
  }

  /** Every fold of such a program is good, in every environment. */
  lemma {:induction false} EvenIsSafe(I: Interp, D: Codec, e: Expr, env: Env)
    requires Follows(I, D) && Even(D, e) && Regular(e)
    ensures Safe(I, D, e, env)
    decreases e, 0
  {
    hide Eval, Follows, GoodFold, BindAll, Names, Reshaped;
    match e
    case Var(_) =>
    case Constant(_) =>
    case OpRef(_) =>
    case Tuple(fields) => EvenAllSafe(I, D, fields, env);
    case TupleGetItem(t, _) => EvenIsSafe(I, D, t, env);
    case If(c, t, f) =>
      EvenIsSafe(I, D, c, env);
      EvenIsSafe(I, D, t, env);
      EvenIsSafe(I, D, f, env);
    case Let(x, value, body) =>
      EvenIsSafe(I, D, value, env);
      EvenIsSafe(I, D, body, env[x := Eval(I, value, env).v]);
    case Function(ps, body) =>
      forall xs ensures Safe(I, D, body, BindAll(I, env, ps, xs)) {
        EvenIsSafe(I, D, body, BindAll(I, env, ps, xs));
      }
    case Call(op, args, attrs) =>
      if IsReshape(e) {
        EvenBelowSafe(I, D, args[0], env);
        EvenAllSafe(I, D, args[1..], env);
        if IsReshape(args[0]) { EvenIsGood(I, D, e, env); }
      } else {
        EvenIsSafe(I, D, op, env);
        EvenAllSafe(I, D, args, env);
      }
  }

  lemma {:induction false} EvenAllSafe(I: Interp, D: Codec, es: seq<Expr>, env: Env)
    requires Follows(I, D) && EvenAll(D, es) && RegularAll(es)
    ensures SafeAll(I, D, es, env)
    decreases es, 0
  {
    hide Follows;
    if es != [] {
      EvenIsSafe(I, D, es[0], env);
      EvenAllSafe(I, D, es[1..], env);
    }
  }

  lemma {:induction false} EvenBelowSafe(I: Interp, D: Codec, c: Expr, env: Env)
    requires Follows(I, D) && EvenBelow(D, c) && RegularBelow(c)
    ensures SafeBelow(I, D, c, env)
    decreases c, 1
  {
    hide Follows;
    if IsReshape(c) { EvenBelowSafe(I, D, c.args[0], env); } else { EvenIsSafe(I, D, c, env); }
  }

  lemma EvenIsGood(I: Interp, D: Codec, e: Expr, env: Env)
    requires Follows(I, D) && Nested(e) && Even(D, e) && RegularBelow(e.args[0])
    ensures GoodFold(I, D, e, env)
  {
    hide Eval, Reshaped, Follows, GoodFold, Names;
    var count := R.Product(D.request(e.attrs).newshape);
    EvenChain(I, D, e, count, env);
    ReshapeValue(I, D, e, env);
    GoodFoldExact(I, D, e, env);
  }

  /** The pass keeps value and device calls of every such program, functions and all. */
  lemma EvenKept(I: Interp, D: Codec, e: Expr, env: Env)
    requires Extensional(I) && Follows(I, D) && Regular(e) && Even(D, e)
    ensures Eval(I, Fold(e), env) == Eval(I, e, env)
  {
    hide Extensional, Follows, Eval, Fold;
    EvenIsSafe(I, D, e, env);
    FoldPreserves(I, D, e, env);
  }

  lemma {:induction false} ChainIsEven(D: Codec, v: VarRef, attrs: seq<int>, count: int)
    requires forall i :: 0 <= i < |attrs| ==> Names(D, attrs[i], count)
    ensures var c := Chained(Var(v), attrs);
      Even(D, c) && EvenBelow(D, c) && ChainNames(D, c, count) && Regular(c) && RegularBelow(c)
    decreases |attrs|
  {
    hide R.Explicit, R.Product;
    if attrs != [] {
      ChainIsEven(D, v, attrs[..|attrs| - 1], count);
      assert Chained(Var(v), attrs).args[1..] == [];
    }
  }

  /** In particular, every function that reshapes its own parameter through requests of one element count. */
  lemma FunctionKept(I: Interp, D: Codec, ps: seq<VarRef>, v: VarRef, attrs: seq<int>, count: int, env: Env)
    requires Extensional(I) && Follows(I, D) && forall i :: 0 <= i < |attrs| ==> Names(D, attrs[i], count)
    ensures var f := Function(ps, Chained(Var(v), attrs)); Eval(I, Fold(f), env) == Eval(I, f, env)
  {
    hide Extensional, Follows, Eval, Fold, Names;
    ChainIsEven(D, v, attrs, count);
    EvenKept(I, D, Function(ps, Chained(Var(v), attrs)), env);
  }

  // ---------- programs the pass changes ----------

  function Once(data: Expr, attrs: int): Expr {
    Call(OpRef(RESHAPE), [data], attrs)
  }

  /** A chain through [3, 2] whose last reshape copies a dimension succeeds; folded, it fails. */
  lemma FoldCanFail(I: Interp, D: Codec, x: VarRef, a: int, b: int, env: Env)
    requires Follows(I, D) && D.tensor(Look(I, env, x)).Some? && D.tensor(Look(I, env, x)).value.shape == [2, 3]
    requires D.request(a) == R.Request([3, 2], false) && D.request(b) == R.Request([0, 2], false)
    ensures var e := Once(Once(Var(x), a), b);
      D.tensor(Eval(I, e, env).v) == Some(Tensor([3, 2], D.tensor(Look(I, env, x)).value.elems))
      && Eval(I, Fold(e), env).v == D.failed && D.tensor(D.failed) == None
  {
    hide Follows, R.Reshape;
    var inner := Once(Var(x), a);
    var e := Once(inner, b);
    R.CopyChangesFold();
    ReshapeValue(I, D, inner, env);
    ReshapeValue(I, D, e, env);
    FoldOnce(Var(x), a);
    FoldHead(e);
    assert Bottom(e) == Var(x) by { assert Bottom(inner) == Var(x); }
    ReshapeValue(I, D, Fold(e), env);
    FaithfulIs(I, D);
  }

  /** A chain through [5] fails on six elements; folded, it succeeds. */
  lemma FoldCanSucceed(I: Interp, D: Codec, x: VarRef, a: int, b: int, env: Env)
    requires Follows(I, D) && D.tensor(Look(I, env, x)).Some? && D.tensor(Look(I, env, x)).value.shape == [6]
    requires D.request(a) == R.Request([5], false) && D.request(b) == R.Request([6], false)
    ensures var e := Once(Once(Var(x), a), b);
      Eval(I, e, env).v == D.failed && D.tensor(D.failed) == None
      && D.tensor(Eval(I, Fold(e), env).v) == D.tensor(Look(I, env, x))
  {
    hide Follows, R.Reshape;
    var inner := Once(Var(x), a);
    var e := Once(inner, b);
    R.FailureCanBeFolded();
    ReshapeValue(I, D, inner, env);
    ReshapeValue(I, D, e, env);
    FoldHead(e);
    assert Bottom(e) == Var(x) by { assert Bottom(inner) == Var(x); }
    ReshapeValue(I, D, Fold(e), env);
    FaithfulIs(I, D);
  }

  lemma FaithfulIs(I: Interp, D: Codec)
    requires Follows(I, D)
    ensures Faithful(D)
  {
  }

  lemma FoldOnce(data: Expr, attrs: int)
    requires data.Var?
    ensures Fold(Once(data, attrs)) == Once(data, attrs)
  {
    var args := [data];
    assert args[1..] == [];
    assert FoldAll(args) == [data];
  }

  /** A program whose device call the pass drops together with the inner shape operand. */
  lemma FoldCanDropACall(I: Interp, D: Codec, x: VarRef, s: VarRef, a: int, b: int, env: Env)
    requires Follows(I, D)
    ensures var copy := Call(OpRef("device.copy"), [Var(s)], 0);
      var e := Call(OpRef(RESHAPE), [Call(OpRef(RESHAPE), [Var(x), copy], a), Var(s)], b);
      |Eval(I, e, env).tr| == 1 && Eval(I, Fold(e), env).tr == []
  {
    hide Follows;
    var copy := Call(OpRef("device.copy"), [Var(s)], 0);
    var inner := Call(OpRef(RESHAPE), [Var(x), copy], a);
    var e := Call(OpRef(RESHAPE), [inner, Var(s)], b);
    CopyTraces(I, s, env);
    assert inner.args[1..] == [copy] && e.args[1..] == [Var(s)];
    assert EvalAll(I, [copy], env).tr == Eval(I, copy, env).tr + EvalAll(I, [copy][1..], env).tr;
    assert EvalAll(I, [Var(s)], env).tr == [] + EvalAll(I, [Var(s)][1..], env).tr;
    ReshapeValue(I, D, inner, env);
    ReshapeValue(I, D, e, env);
    FoldHead(e);
    assert FoldAll([Var(s)]) == [Var(s)] by { assert [Var(s)][1..] == []; }
    assert Bottom(e) == Var(x) by { assert Bottom(inner) == Var(x); }
    assert Fold(e).args[1..] == [Var(s)];
    ReshapeValue(I, D, Fold(e), env);
  }

  lemma CopyTraces(I: Interp, s: VarRef, env: Env)
    ensures |Eval(I, Call(OpRef("device.copy"), [Var(s)], 0), env).tr| == 1
  {
    var args := [Var(s)];
    assert args[1..] == [];
    assert EvalAll(I, args, env) == Outs([Look(I, env, s)], []);
    assert "device." <= "device.copy";
    assert IsDevice("device.copy");
  }
}
