/**
 Shape inference for reshape, and when folding a reshape of a reshape changes nothing.

 In the requested shape -1 is inferred from the element count and 0 copies the input
 dimension, or is a real zero under `allowzero`.  A negative dimension of the input is
 unknown.
 */
module Reshapes {
  import opened Base
  import opened Broadcast

  datatype Problem = CopyBeyondRank | TwoInferred | BadDimension | NotDivisible | CountMismatch

  type Inferred = Result<Shape, Problem>

  function Product(s: Shape): int {
    if s == [] then 1 else Mul(Product(s[..|s| - 1]), s[|s| - 1])
  }

  function Mul(a: int, b: int): int {
    a * b
  }

  /** The number of elements, or -1 if a dimension is unknown. */
  function KnownProduct(s: Shape): (p: int)
    ensures p >= 0 <==> AllKnown(s)
    ensures p >= -1 && (AllKnown(s) ==> p == Product(s))
  {
    if s == [] then 1 else
    var p := KnownProduct(s[..|s| - 1]);
    var d := s[|s| - 1];
    assert AllKnown(s) <==> AllKnown(s[..|s| - 1]) && Known(d);
    if p < 0 || !Known(d) then -1 else MulNonneg(p, d); Mul(p, d)
  }

  lemma MulNonneg(a: int, b: int)
    requires a >= 0 && b >= 0
    ensures Mul(a, b) >= 0
  {
  }

  lemma MulOne(a: int)
    ensures Mul(a, 1) == a && Mul(a, 0) == 0
  {
  }

  method CountElements(s: Shape) returns (p: int)
    ensures p == KnownProduct(s)
  {
    hide Product;
    p := 1;
    for i := 0 to |s|
      invariant p == KnownProduct(s[..i]) && p >= 0
    {
      assert s[..i + 1][..i] == s[..i];
      if !Known(s[i]) {
        assert !AllKnown(s);
        return -1;
      }
      p := p * s[i];
    }
    assert s[..|s|] == s;
  }

  /** The dimensions so far, where the inferred one is, and the product of the others. */
  datatype Progress = Progress(out: Shape, infer: Option<nat>, known: int)

  function Step(input: Shape, allowzero: bool, st: Progress, dim: int): Result<Progress, Problem> {
    if dim > 0 then Ok(Progress(st.out + [dim], st.infer, Mul(st.known, dim)))
    else if dim == 0 then
      if allowzero then Ok(Progress(st.out + [0], st.infer, 0))
      else if |st.out| >= |input| then Err(CopyBeyondRank)
      else
        var d := input[|st.out|];
        Ok(Progress(st.out + [d], st.infer, if Known(d) then Mul(st.known, d) else -1))
    else if dim == -1 then
      if st.infer.Some? then Err(TwoInferred) else Ok(Progress(st.out + [-1], Some(|st.out|), st.known))
    else Err(BadDimension)
  }

  function Steps(input: Shape, allowzero: bool, newshape: Shape): (r: Result<Progress, Problem>)
    ensures r.Ok? ==> |r.value.out| == |newshape|
    ensures r.Ok? && r.value.infer.Some? ==> r.value.infer.value < |newshape|
  {
    if newshape == [] then Ok(Progress([], None, 1)) else
    var n := |newshape| - 1;
    var st :- Steps(input, allowzero, newshape[..n]);
    Step(input, allowzero, st, newshape[n])
  }

  function Finish(count: int, st: Progress): Inferred
    requires st.infer.Some? ==> st.infer.value < |st.out|
  {
    if st.infer.Some? && count >= 0 && st.known > 0 then
      if count % st.known != 0 then Err(NotDivisible) else Ok(st.out[st.infer.value := count / st.known])
    else if st.infer.None? && count >= 0 && st.known >= 0 && count != st.known then Err(CountMismatch)
    else Ok(st.out)
  }

  function Reshape(input: Shape, newshape: Shape, allowzero: bool): Inferred {
    var st :- Steps(input, allowzero, newshape);
    Finish(KnownProduct(input), st)
  }

  method ReshapeInferType(input: Shape, newshape: Shape, allowzero: bool) returns (r: Inferred)
    ensures r == Reshape(input, newshape, allowzero)
  {
    hide KnownProduct;
    var count := CountElements(input);
    var out: Shape, infer: Option<nat>, known := [], None, 1;
    for i := 0 to |newshape|
      invariant Steps(input, allowzero, newshape[..i]) == Ok(Progress(out, infer, known))
    {
      assert newshape[..i + 1][..i] == newshape[..i];
      var dim := newshape[i];
      if dim > 0 {
        out := out + [dim];
        known := known * dim;
      } else if dim == 0 {
        if allowzero {
          out := out + [0];
          known := 0;
        } else {
          if i >= |input| {
            FailsOn(input, allowzero, newshape, i + 1);
            return Err(CopyBeyondRank);
          }
          out := out + [input[i]];
          known := if Known(input[i]) then known * input[i] else -1;
        }
      } else if dim == -1 {
        if infer.Some? {
          FailsOn(input, allowzero, newshape, i + 1);
          return Err(TwoInferred);
        }
        infer := Some(|out|);
        out := out + [-1];
      } else {
        FailsOn(input, allowzero, newshape, i + 1);
        return Err(BadDimension);
      }
    }
    assert newshape[..|newshape|] == newshape;
    if infer.Some? && count >= 0 && known > 0 {
      if count % known != 0 { return Err(NotDivisible); }
      out := out[infer.value := count / known];
    } else if infer.None? && count >= 0 && known >= 0 && count != known {
      return Err(CountMismatch);
    }
    r := Ok(out);
  }

  lemma {:induction false} FailsOn(input: Shape, allowzero: bool, newshape: Shape, i: nat)
    requires i <= |newshape| && Steps(input, allowzero, newshape[..i]).Err?
    ensures Steps(input, allowzero, newshape) == Steps(input, allowzero, newshape[..i])
    decreases |newshape|
  {
    if i == |newshape| {
      assert newshape[..i] == newshape;
    } else {
      var n := |newshape| - 1;
      assert newshape[..n][..i] == newshape[..i];
      FailsOn(input, allowzero, newshape[..n], i);
    }
  }

  // ---------- the element count is conserved ----------

  /** The product of the dimensions, the inferred one counted as 1. */
  function Others(out: Shape, infer: Option<nat>): int {
    if out == [] then 1 else
    var n := |out| - 1;
    Mul(Others(out[..n], infer), if infer == Some(n) then 1 else out[n])
  }

  /** The product of the known dimensions is kept, and only the inferred one is unknown. */
  ghost predicate Tracked(st: Progress) {
    && st.known == Others(st.out, st.infer) && st.known >= 0
    && (forall i :: 0 <= i < |st.out| ==> Known(st.out[i]) || st.infer == Some(i))
    && (st.infer.Some? ==> st.infer.value < |st.out|)
  }

  lemma StepTracked(input: Shape, allowzero: bool, st: Progress, dim: int)
    requires AllKnown(input) && Tracked(st) && Step(input, allowzero, st, dim).Ok?
    ensures Tracked(Step(input, allowzero, st, dim).value)
  {
    hide Mul;
    var next := Step(input, allowzero, st, dim).value;
    var n := |st.out|;
    MulOne(st.known);
    assert next.out[..n] == st.out;
    if next.infer != st.infer { InferLater(st.out, st.infer, next.infer); }
    if next.infer != Some(n) { MulNonneg(st.known, next.out[n]); }
  }

  lemma {:induction false} StepsProduct(input: Shape, allowzero: bool, newshape: Shape)
    requires AllKnown(input) && Steps(input, allowzero, newshape).Ok?
    ensures Tracked(Steps(input, allowzero, newshape).value)
    decreases |newshape|
  {
    hide Mul, Step;
    if newshape != [] {
      var n := |newshape| - 1;
      StepsProduct(input, allowzero, newshape[..n]);
      StepTracked(input, allowzero, Steps(input, allowzero, newshape[..n]).value, newshape[n]);
    }
  }

  lemma {:induction false} InferLater(out: Shape, a: Option<nat>, b: Option<nat>)
    requires a.None? && b.Some? && b.value >= |out|
    ensures Others(out, a) == Others(out, b)
  {
    if out != [] { InferLater(out[..|out| - 1], a, b); }
  }

  lemma {:induction false} PlugIn(out: Shape, i: nat, d: int)
    requires i < |out|
    ensures Product(out[i := d]) == Mul(Others(out, Some(i)), d)
    decreases |out|
  {
    hide Mul;
    var n := |out| - 1;
    MulOne(Others(out[..n], Some(i)));
    if i == n {
      assert out[i := d][..n] == out[..n];
      NoneInferred(out[..n], Some(i));
    } else {
      assert out[i := d][..n] == out[..n][i := d];
      PlugIn(out[..n], i, d);
      Swap(Others(out[..n], Some(i)), d, out[n]);
    }
  }

  lemma Swap(a: int, b: int, c: int)
    ensures Mul(Mul(a, b), c) == Mul(Mul(a, c), b)
  {
  }

  lemma {:induction false} NoneInferred(out: Shape, infer: Option<nat>)
    requires infer.None? || infer.value >= |out|
    ensures Others(out, infer) == Product(out)
  {
    if out != [] { NoneInferred(out[..|out| - 1], infer); }
  }

  lemma ExactQuotient(a: int, b: int)
    requires b > 0 && a % b == 0
    ensures Mul(b, a / b) == a
  {
  }

  /** A reshape between fully known shapes keeps the number of elements. */
  lemma CountConserved(input: Shape, newshape: Shape, allowzero: bool)
    requires AllKnown(input) && Reshape(input, newshape, allowzero).Ok?
      && AllKnown(Reshape(input, newshape, allowzero).value)
    ensures Product(Reshape(input, newshape, allowzero).value) == Product(input)
  {
    hide Steps, Product, Others;
    StepsProduct(input, allowzero, newshape);
    var st := Steps(input, allowzero, newshape).value;
    if st.infer.Some? && st.known > 0 {
      var d := KnownProduct(input) / st.known;
      PlugIn(st.out, st.infer.value, d);
      ExactQuotient(KnownProduct(input), st.known);
    } else if st.infer.None? {
      NoneInferred(st.out, None);
    } else {
      StillUnknown(input, allowzero, newshape);
    }
  }

  /** The inferred dimension is -1 until it is filled in. */
  lemma {:induction false} StillUnknown(input: Shape, allowzero: bool, newshape: Shape)
    requires Steps(input, allowzero, newshape).Ok? && Steps(input, allowzero, newshape).value.infer.Some?
    ensures var st := Steps(input, allowzero, newshape).value; st.out[st.infer.value] == -1
    decreases |newshape|
  {
    if newshape != [] {
      var n := |newshape| - 1;
      if Steps(input, allowzero, newshape[..n]).value.infer.Some? { StillUnknown(input, allowzero, newshape[..n]); }
    }
  }

  // ---------- what is accepted ----------

  /** No dimension below -1, at most one -1, and copies only of dimensions the input has. */
  ghost predicate WellAsked(input: Shape, allowzero: bool, newshape: Shape) {
    && (forall i :: 0 <= i < |newshape| ==> newshape[i] >= -1 && (newshape[i] == 0 && !allowzero ==> i < |input|))
    && (forall i, j :: 0 <= i < j < |newshape| ==> newshape[i] != -1 || newshape[j] != -1)
  }

  /** The requested dimensions with the copied ones filled in. */
  function Named(input: Shape, allowzero: bool, newshape: Shape): (r: Shape)
    ensures |r| == |newshape|
  {
    seq(|newshape|, i requires 0 <= i < |newshape| =>
      if newshape[i] == 0 && !allowzero && i < |input| then input[i] else newshape[i])
  }

  /** Where -1 stands. */
  ghost predicate InferredAt(newshape: Shape, infer: Option<nat>) {
    match infer
    case None => forall i :: 0 <= i < |newshape| ==> newshape[i] != -1
    case Some(k) => k < |newshape| && newshape[k] == -1
  }

  lemma {:induction false} StepsExact(input: Shape, allowzero: bool, newshape: Shape)
    ensures Steps(input, allowzero, newshape).Ok? <==> WellAsked(input, allowzero, newshape)
    ensures Steps(input, allowzero, newshape).Ok? ==>
      var st := Steps(input, allowzero, newshape).value;
      st.out == Named(input, allowzero, newshape) && InferredAt(newshape, st.infer)
    decreases |newshape|
  {
    hide Mul;
    if newshape != [] {
      var n := |newshape| - 1;
      var front := newshape[..n];
      StepsExact(input, allowzero, front);
      assert newshape == front + [newshape[n]];
      if Steps(input, allowzero, front).Ok? {
        assert Named(input, allowzero, newshape)[..n] == Named(input, allowzero, front);
        AskedNext(input, allowzero, newshape, Steps(input, allowzero, front).value.infer);
      } else if WellAsked(input, allowzero, newshape) {
        AskedBefore(input, allowzero, newshape);
      }
    }
  }

  lemma AskedBefore(input: Shape, allowzero: bool, newshape: Shape)
    requires newshape != [] && WellAsked(input, allowzero, newshape)
    ensures WellAsked(input, allowzero, newshape[..|newshape| - 1])
  {
  }

  lemma AskedNext(input: Shape, allowzero: bool, newshape: Shape, infer: Option<nat>)
    requires newshape != [] && WellAsked(input, allowzero, newshape[..|newshape| - 1])
    requires InferredAt(newshape[..|newshape| - 1], infer)
    ensures var n := |newshape| - 1; var d := newshape[n];
      WellAsked(input, allowzero, newshape) <==>
        d >= -1 && (d == 0 && !allowzero ==> n < |input|) && (d == -1 ==> infer.None?)
  {
    var n := |newshape| - 1;
    var front := newshape[..n];
    assert forall i :: 0 <= i < n ==> front[i] == newshape[i];
    if infer.Some? { assert newshape[infer.value] == -1; }
  }

  ghost predicate CountsFit(input: Shape, named: Shape, newshape: Shape)
    requires |named| == |newshape|
  {
    && ((forall i :: 0 <= i < |newshape| ==> newshape[i] != -1) ==> Product(named) == Product(input))
    && (forall k :: 0 <= k < |newshape| && newshape[k] == -1 ==>
          Others(named, Some(k)) == 0 || Product(input) % Others(named, Some(k)) == 0)
  }

  /**
   On a known shape a well-asked request is accepted exactly when the element counts agree, or,
   with an inferred dimension, when the other dimensions have no elements or divide the count.
   */
  lemma ReshapeAccepts(input: Shape, newshape: Shape, allowzero: bool)
    requires AllKnown(input)
    ensures Reshape(input, newshape, allowzero).Ok? <==>
      WellAsked(input, allowzero, newshape) && CountsFit(input, Named(input, allowzero, newshape), newshape)
  {
    hide Steps, Product, Others, KnownProduct;
    StepsExact(input, allowzero, newshape);
    if WellAsked(input, allowzero, newshape) {
      StepsProduct(input, allowzero, newshape);
      var st := Steps(input, allowzero, newshape).value;
      if st.infer.None? {
        NoneInferred(st.out, None);
      } else {
        assert newshape[st.infer.value] == -1;
      }
    }
  }

  // ---------- folding ----------

  /** The positions the requested shape copies are there in both inputs and equal. */
  ghost predicate CopiesAlike(a: Shape, b: Shape, newshape: Shape, allowzero: bool) {
    allowzero || forall i :: 0 <= i < |newshape| && newshape[i] == 0 ==> i < |a| && i < |b| && a[i] == b[i]
  }

  lemma {:induction false} StepsAlike(a: Shape, b: Shape, newshape: Shape, allowzero: bool)
    requires CopiesAlike(a, b, newshape, allowzero)
    ensures Steps(a, allowzero, newshape) == Steps(b, allowzero, newshape)
  {
    if newshape != [] { StepsAlike(a, b, newshape[..|newshape| - 1], allowzero); }
  }

  predicate NoCopies(newshape: Shape, allowzero: bool) {
    allowzero || forall i :: 0 <= i < |newshape| ==> newshape[i] != 0
  }

  /** A copied dimension of the result is the input's. */
  lemma {:induction false} StepsCopy(input: Shape, allowzero: bool, newshape: Shape, i: nat)
    requires !allowzero && Steps(input, allowzero, newshape).Ok? && i < |newshape| && newshape[i] == 0
    ensures var st := Steps(input, allowzero, newshape).value;
      i < |input| && st.out[i] == input[i] && st.infer != Some(i)
    decreases |newshape|
  {
    var n := |newshape| - 1;
    if i < n { StepsCopy(input, allowzero, newshape[..n], i); }
  }

  lemma ReshapeCopies(input: Shape, newshape: Shape, allowzero: bool, i: nat)
    requires !allowzero && Reshape(input, newshape, allowzero).Ok? && i < |newshape| && newshape[i] == 0
    ensures i < |input| && |Reshape(input, newshape, allowzero).value| == |newshape|
    ensures Reshape(input, newshape, allowzero).value[i] == input[i]
  {
    hide KnownProduct, Steps;
    StepsCopy(input, allowzero, newshape, i);
  }

  /** Folding changes nothing if both shapes have the same element count and the copied dimensions. */
  lemma FoldSame(input: Shape, mid: Shape, newshape: Shape, allowzero: bool)
    requires KnownProduct(input) == KnownProduct(mid) && CopiesAlike(input, mid, newshape, allowzero)
    ensures Reshape(input, newshape, allowzero) == Reshape(mid, newshape, allowzero)
  {
    hide KnownProduct;
    StepsAlike(input, mid, newshape, allowzero);
  }

  /**
   Where the outer reshape succeeds after one that kept the element count, skipping the
   inner one gives the same shape exactly when the copied dimensions agree.
   */
  lemma FoldSameExact(input: Shape, mid: Shape, newshape: Shape, allowzero: bool)
    requires KnownProduct(input) == KnownProduct(mid) && Reshape(mid, newshape, allowzero).Ok?
    ensures Reshape(input, newshape, allowzero) == Reshape(mid, newshape, allowzero)
       <==> CopiesAlike(input, mid, newshape, allowzero)
  {
    hide KnownProduct, Reshape;
    if CopiesAlike(input, mid, newshape, allowzero) {
      FoldSame(input, mid, newshape, allowzero);
    } else if Reshape(input, newshape, allowzero) == Reshape(mid, newshape, allowzero) {
      forall i | 0 <= i < |newshape| && newshape[i] == 0
        ensures i < |input| && i < |mid| && input[i] == mid[i]
      {
        ReshapeCopies(input, newshape, allowzero, i);
        ReshapeCopies(mid, newshape, allowzero, i);
      }
    }
  }

  /** Skipping the shape `mid` gives the same outcome for every requested shape without copies. */
  ghost predicate FoldsFreely(input: Shape, mid: Shape) {
    forall newshape, allowzero :: NoCopies(newshape, allowzero) ==>
      Reshape(input, newshape, allowzero) == Reshape(mid, newshape, allowzero)
  }

  /**
   An inner reshape can be skipped under every outer reshape without copied dimensions
   exactly when it neither loses nor invents knowledge of the shape.
   */
  lemma FoldExact(input: Shape, inner: Shape, innerZero: bool)
    requires Reshape(input, inner, innerZero).Ok?
    ensures var mid := Reshape(input, inner, innerZero).value;
      FoldsFreely(input, mid) <==> (AllKnown(input) <==> AllKnown(mid))
  {
    var mid := Reshape(input, inner, innerZero).value;
    if AllKnown(input) <==> AllKnown(mid) {
      if AllKnown(input) { CountConserved(input, inner, innerZero); }
      forall newshape, allowzero | NoCopies(newshape, allowzero)
        ensures Reshape(input, newshape, allowzero) == Reshape(mid, newshape, allowzero)
      {
        FoldSame(input, mid, newshape, allowzero);
      }
    } else if FoldsFreely(input, mid) {
      assert NoCopies([-1], false);
      assert Reshape(input, [-1], false) == Reshape(mid, [-1], false);
      Flat(input);
      Flat(mid);
    }
  }

  lemma OneStep(input: Shape, allowzero: bool, d: int)
    ensures Steps(input, allowzero, [d]) == Step(input, allowzero, Progress([], None, 1), d)
  {
    var ns: Shape := [d];
    assert ns[..0] == [];
  }

  lemma TwoSteps(input: Shape, allowzero: bool, c: int, d: int)
    requires Step(input, allowzero, Progress([], None, 1), c).Ok?
    ensures Steps(input, allowzero, [c, d])
         == Step(input, allowzero, Step(input, allowzero, Progress([], None, 1), c).value, d)
  {
    var ns: Shape := [c, d];
    assert ns[..1] == [c];
    OneStep(input, allowzero, c);
  }

  lemma TwoDims(c: int, d: int)
    requires c >= 0 && d >= 0
    ensures KnownProduct([c, d]) == Mul(c, d)
  {
    var s: Shape := [c, d];
    assert s[..1] == [c] && s[..1][..0] == [];
    assert KnownProduct(s[..1]) == c;
  }

  lemma Ends(input: Shape, newshape: Shape, allowzero: bool, st: Progress)
    requires Steps(input, allowzero, newshape) == Ok(st)
    ensures Reshape(input, newshape, allowzero) == Finish(KnownProduct(input), st)
  {
  }

  /** Asking for one inferred dimension shows the element count. */
  lemma Flat(s: Shape)
    ensures Reshape(s, [-1], false) == Ok([KnownProduct(s)])
  {
    hide KnownProduct, Steps, Reshape;
    OneStep(s, false, -1);
    var st := Progress([-1], Some(0), 1);
    assert [] + [-1] == st.out;
    Ends(s, [-1], false, st);
    assert st.out[0 := KnownProduct(s)] == [KnownProduct(s)];
  }

  /** A copied dimension makes the folded reshape fail where the chain does not. */
  lemma CopyChangesFold()
    ensures Reshape([2, 3], [3, 2], false) == Ok([3, 2])
    ensures Reshape([3, 2], [0, 2], false) == Ok([3, 2])
    ensures Reshape([2, 3], [0, 2], false) == Err(CountMismatch)
  {
    hide KnownProduct, Steps, Reshape;
    TwoDims(2, 3);
    TwoDims(3, 2);
    assert [] + [3] + [2] == [3, 2] && [] + [2] + [2] == [2, 2];
    TwoSteps([2, 3], false, 3, 2);
    Ends([2, 3], [3, 2], false, Progress([3, 2], None, 6));
    TwoSteps([3, 2], false, 0, 2);
    Ends([3, 2], [0, 2], false, Progress([3, 2], None, 6));
    TwoSteps([2, 3], false, 0, 2);
    Ends([2, 3], [0, 2], false, Progress([2, 2], None, 4));
  }

  /** Inferring a dimension next to a real zero leaves it unknown. */
  lemma ZeroHidesInference()
    ensures Reshape([0], [0, -1], true) == Ok([0, -1])
  {
    hide KnownProduct, Steps, Reshape;
    assert [] + [0] + [-1] == [0, -1];
    TwoSteps([0], true, 0, -1);
    Ends([0], [0, -1], true, Progress([0, -1], Some(1), 0));
  }

  // ---------- explicit requests ----------

  /** The request names every dimension. */
  predicate Explicit(newshape: Shape) {
    forall i :: 0 <= i < |newshape| ==> newshape[i] > 0
  }

  lemma {:induction false} ExplicitSteps(input: Shape, newshape: Shape, allowzero: bool)
    requires Explicit(newshape)
    ensures Steps(input, allowzero, newshape) == Ok(Progress(newshape, None, Product(newshape)))
    ensures Product(newshape) > 0
    decreases |newshape|
  {
    hide Mul, KnownProduct, Step, Steps, Product;
    if newshape == [] {
      NoSteps(input, allowzero);
    } else {
      var n := |newshape| - 1;
      var front := newshape[..n];
      ExplicitSteps(input, front, allowzero);
      assert front + [newshape[n]] == newshape;
      MulPositive(Product(front), newshape[n]);
      NamedStep(input, allowzero, newshape, Progress(front, None, Product(front)));
    }
  }

  lemma NoSteps(input: Shape, allowzero: bool)
    ensures Steps(input, allowzero, []) == Ok(Progress([], None, 1)) && Product([]) == 1
  {
  }

  lemma NamedStep(input: Shape, allowzero: bool, newshape: Shape, st: Progress)
    requires newshape != [] && newshape[|newshape| - 1] > 0
    requires Steps(input, allowzero, newshape[..|newshape| - 1]) == Ok(st)
    ensures var d := newshape[|newshape| - 1];
      Steps(input, allowzero, newshape) == Ok(Progress(st.out + [d], st.infer, Mul(st.known, d)))
      && Product(newshape) == Mul(Product(newshape[..|newshape| - 1]), d)
  {
    hide Mul, KnownProduct;
  }

  lemma MulPositive(a: int, b: int)
    requires a > 0 && b > 0
    ensures Mul(a, b) > 0
  {
  }

  /** It succeeds on a known shape exactly when the element counts agree. */
  lemma ExplicitReshape(input: Shape, newshape: Shape, allowzero: bool)
    requires Explicit(newshape) && AllKnown(input)
    ensures Reshape(input, newshape, allowzero)
         == if Product(input) == Product(newshape) then Ok(newshape) else Err(CountMismatch)
  {
    hide Steps, Product;
    ExplicitSteps(input, newshape, allowzero);
  }

  /** Through five elements and back to six: the chain fails, its last reshape alone does not. */
  lemma FailureCanBeFolded()
    ensures Reshape([6], [5], false) == Err(CountMismatch) && Reshape([6], [6], false) == Ok([6])
  {
    OneDim(6);
    OneDim(5);
    ExplicitReshape([6], [5], false);
    ExplicitReshape([6], [6], false);
  }

  lemma OneDim(d: int)
    ensures Product([d]) == d
  {
    var s: Shape := [d];
    assert s[..0] == [];
  }

  // ---------- chains ----------

  datatype Request = Request(newshape: Shape, allowzero: bool)

  function Chain(input: Shape, rs: seq<Request>): Inferred {
    if rs == [] then Ok(input) else
    var mid :- Chain(input, rs[..|rs| - 1]);
    Reshape(mid, rs[|rs| - 1].newshape, rs[|rs| - 1].allowzero)
  }

  /** Every shape on the way is fully known. */
  ghost predicate KnownThroughout(input: Shape, rs: seq<Request>) {
    forall k :: 0 <= k <= |rs| ==> Chain(input, rs[..k]).Ok? && AllKnown(Chain(input, rs[..k]).value)
  }

  lemma {:induction false} ChainConserves(input: Shape, rs: seq<Request>)
    requires KnownThroughout(input, rs)
    ensures Chain(input, rs).Ok? && KnownProduct(Chain(input, rs).value) == KnownProduct(input)
    decreases |rs|
  {
    hide KnownProduct;
    assert rs[..|rs|] == rs;
    if rs != [] {
      var n := |rs| - 1;
      assert forall k :: 0 <= k <= n ==> rs[..n][..k] == rs[..k];
      ChainConserves(input, rs[..n]);
      var mid := Chain(input, rs[..n]).value;
      CountConserved(mid, rs[n].newshape, rs[n].allowzero);
      SameCount(mid, Chain(input, rs).value);
    }
  }

  lemma SameCount(a: Shape, b: Shape)
    requires AllKnown(a) && AllKnown(b) && Product(a) == Product(b)
    ensures KnownProduct(a) == KnownProduct(b)
  {
  }

  /** A whole chain can be replaced by its last reshape where the dimensions that one copies agree. */
  lemma ChainFolds(input: Shape, rs: seq<Request>, last: Request)
    requires KnownThroughout(input, rs) && Chain(input, rs).Ok?
    requires CopiesAlike(Chain(input, rs).value, input, last.newshape, last.allowzero)
    ensures Chain(input, rs + [last]) == Reshape(input, last.newshape, last.allowzero)
  {
    hide Reshape;
    assert (rs + [last])[..|rs|] == rs;
    ChainConserves(input, rs);
    FoldSame(Chain(input, rs).value, input, last.newshape, last.allowzero);
  }

  /** Where the chain succeeds, that is the exact condition. */
  lemma ChainFoldsExact(input: Shape, rs: seq<Request>, last: Request)
    requires KnownThroughout(input, rs) && Chain(input, rs + [last]).Ok?
    ensures Chain(input, rs).Ok?
    ensures Chain(input, rs + [last]) == Reshape(input, last.newshape, last.allowzero)
       <==> CopiesAlike(input, Chain(input, rs).value, last.newshape, last.allowzero)
  {
    hide Reshape;
    assert (rs + [last])[..|rs|] == rs;
    ChainConserves(input, rs);
    FoldSameExact(input, Chain(input, rs).value, last.newshape, last.allowzero);
  }
}
