/** The type rules of split and concatenate, and that the second undoes the first. */
module SplitConcat {
  import opened Base
  import opened Broadcast

  datatype Problem =
    | NoSplit
    | AxisOutOfRange
    | NotPositive
    | NotDivisible
    | PointsNotSorted
    | NoFields
    | RankMismatch
    | DimensionMismatch

  function NormalizeAxis(axis: int, rank: nat): (r: Result<nat, Problem>)
    ensures r.Ok? ==> r.value < rank
  {
    var a := if axis < 0 then axis + rank else axis;
    if a < 0 || a > rank - 1 then Err(AxisOutOfRange) else Ok(a)
  }

  // ---------- split ----------

  /** The sizes between consecutive split points, starting at `previous`. */
  function Gaps(d: int, points: seq<int>, previous: int): Result<seq<int>, Problem>
    decreases |points|
  {
    if points == [] then Ok([if Known(d) then d - previous else -1])
    else if points[0] < previous || (Known(d) && points[0] > d) then Err(PointsNotSorted)
    else
      var rest :- Gaps(d, points[1..], points[0]);
      Ok([points[0] - previous] + rest)
  }

  /** The sizes of the parts: one number asks for that many equal parts, more numbers are split points. */
  function Segments(d: int, split: seq<int>): Result<seq<int>, Problem> {
    if split == [] then Err(NoSplit)
    else if |split| == 1 then
      if split[0] <= 0 then Err(NotPositive)
      else if !Known(d) then Ok(seq(split[0], _ => -1))
      else if d % split[0] != 0 then Err(NotDivisible)
      else Ok(seq(split[0], _ => d / split[0]))
    else Gaps(d, split, 0)
  }

  /** Copies of the shape that differ in one dimension. */
  function Along(shape: Shape, a: nat, sizes: seq<int>): (r: seq<Shape>)
    requires a < |shape|
    ensures |r| == |sizes| && forall k :: 0 <= k < |sizes| ==> r[k] == shape[a := sizes[k]]
  {
    seq(|sizes|, k requires 0 <= k < |sizes| => shape[a := sizes[k]])
  }

  function Split(shape: Shape, axis: int, split: seq<int>): Result<seq<Shape>, Problem> {
    if split == [] then Err(NoSplit) else
    var a :- NormalizeAxis(axis, |shape|);
    var sizes :- Segments(shape[a], split);
    Ok(Along(shape, a, sizes))
  }

  method SplitInferType(shape: Shape, axis: int, split: seq<int>) returns (r: Result<seq<Shape>, Problem>)
    ensures r == Split(shape, axis, split)
  {
    if split == [] { return Err(NoSplit); }
    var na := NormalizeAxis(axis, |shape|);
    if na.Err? { return Err(na.error); }
    var a := na.value;
    var d := shape[a];
    if |split| == 1 {
      var sections := split[0];
      if sections <= 0 { return Err(NotPositive); }
      var segment := -1;
      if Known(d) {
        if d % sections != 0 { return Err(NotDivisible); }
        segment := d / sections;
      }
      var fields: seq<Shape> := [];
      for i := 0 to sections
        invariant |fields| == i && forall k :: 0 <= k < i ==> fields[k] == shape[a := segment]
      {
        fields := fields + [shape[a := segment]];
      }
      assert fields == Along(shape, a, seq(sections, _ => segment));
      return Ok(fields);
    }
    r := SplitAtPoints(shape, a, split);
  }

  method SplitAtPoints(shape: Shape, a: nat, split: seq<int>) returns (r: Result<seq<Shape>, Problem>)
    requires a < |shape|
    ensures r == match Gaps(shape[a], split, 0) case Ok(sizes) => Ok(Along(shape, a, sizes)) case Err(e) => Err(e)
  {
    var d := shape[a];
    var fields: seq<Shape> := [];
    var previous := 0;
    ghost var sizes: seq<int> := [];
    assert split[0..] == split;
    if Gaps(d, split, 0).Ok? { assert [] + Gaps(d, split, 0).value == Gaps(d, split, 0).value; }
    for i := 0 to |split|
      invariant fields == Along(shape, a, sizes)
      invariant match Gaps(d, split[i..], previous)
        case Ok(rest) => Gaps(d, split, 0) == Ok(sizes + rest)
        case Err(e) => Gaps(d, split, 0) == Err(e)
    {
      assert split[i..][1..] == split[i + 1..];
      var point := split[i];
      if point < previous || (Known(d) && point > d) { return Err(PointsNotSorted); }
      ghost var earlier := sizes;
      sizes := sizes + [point - previous];
      fields := fields + [shape[a := point - previous]];
      if Gaps(d, split[i + 1..], point).Ok? {
        var rest := Gaps(d, split[i + 1..], point).value;
        assert earlier + ([point - previous] + rest) == sizes + rest;
      }
      previous := point;
    }
    var last := if Known(d) then d - previous else -1;
    fields := fields + [shape[a := last]];
    assert Gaps(d, split[|split|..], previous) == Ok([last]);
    assert fields == Along(shape, a, sizes + [last]);
    r := Ok(fields);
  }

  /** Where the part before split point `k` starts. */
  function Start(points: seq<int>, previous: int, k: nat): int
    requires k <= |points|
  {
    if k == 0 then previous else points[k - 1]
  }

  /** Split points that do not fall, from `previous` on, and stay within a known dimension. */
  predicate InOrder(d: int, points: seq<int>, previous: int) {
    forall k :: 0 <= k < |points| ==> Start(points, previous, k) <= points[k] && (Known(d) ==> points[k] <= d)
  }

  function Between(d: int, points: seq<int>, previous: int): (sizes: seq<int>)
    ensures |sizes| == |points| + 1
    ensures forall k :: 0 <= k < |points| ==> sizes[k] == points[k] - Start(points, previous, k)
    ensures sizes[|points|] == if Known(d) then d - Start(points, previous, |points|) else -1
  {
    seq(|points|, k requires 0 <= k < |points| => points[k] - Start(points, previous, k))
    + [if Known(d) then d - Start(points, previous, |points|) else -1]
  }

  /** Part `k` is what lies between split point `k - 1` and split point `k`. */
  lemma {:induction false} GapsAre(d: int, points: seq<int>, previous: int)
    ensures Gaps(d, points, previous) ==
      if InOrder(d, points, previous) then Ok(Between(d, points, previous)) else Err(PointsNotSorted)
    decreases |points|
  {
    hide InOrder, Between;
    NoneBetween(d, previous);
    if points != [] {
      GapsAre(d, points[1..], points[0]);
      OrderBehind(d, points, previous);
      BetweenStep(d, points, previous);
    }
  }

  lemma NoneBetween(d: int, previous: int)
    ensures InOrder(d, [], previous) && Between(d, [], previous) == [if Known(d) then d - previous else -1]
  {
  }

  lemma BetweenStep(d: int, points: seq<int>, previous: int)
    requires points != []
    ensures Between(d, points, previous) == [points[0] - previous] + Between(d, points[1..], points[0])
  {
    hide Between;
    var rest := points[1..];
    var all, behind := Between(d, points, previous), Between(d, rest, points[0]);
    forall k | 0 <= k < |points| ensures all[k] == ([points[0] - previous] + behind)[k] {
      if k > 0 { assert behind[k - 1] == rest[k - 1] - Start(rest, points[0], k - 1); }
    }
  }

  lemma OrderBehind(d: int, points: seq<int>, previous: int)
    requires points != []
    ensures InOrder(d, points, previous)
       <==> previous <= points[0] && (Known(d) ==> points[0] <= d) && InOrder(d, points[1..], points[0])
  {
    var rest := points[1..];
    if previous <= points[0] && (Known(d) ==> points[0] <= d) && InOrder(d, rest, points[0]) {
      forall k | 0 <= k < |points| ensures Start(points, previous, k) <= points[k] && (Known(d) ==> points[k] <= d) {
        if k > 0 { assert rest[k - 1] == points[k] && Start(rest, points[0], k - 1) == Start(points, previous, k); }
      }
    }
  }

  /** The dimension a valid axis stands for, counted from the end if negative. */
  function DimAt(shape: Shape, axis: int): nat
    requires -|shape| <= axis < |shape|
  {
    if axis < 0 then axis + |shape| else axis
  }

  /** One number asks for that many equal parts, which must be there. */
  lemma SectionsExact(shape: Shape, axis: int, n: int)
    ensures Split(shape, axis, [n]) ==
      if !(-|shape| <= axis < |shape|) then Err(AxisOutOfRange)
      else var a := DimAt(shape, axis);
        if n <= 0 then Err(NotPositive)
        else if !Known(shape[a]) then Ok(seq(n, _ => shape[a := -1]))
        else if shape[a] % n != 0 then Err(NotDivisible)
        else Ok(seq(n, _ => shape[a := shape[a] / n]))
  {
    if -|shape| <= axis < |shape| && n > 0 {
      var a := DimAt(shape, axis);
      var d := shape[a];
      if Split(shape, axis, [n]).Ok? {
        assert Split(shape, axis, [n]).value
          == seq(n, _ => shape[a := if Known(d) then d / n else -1]);
      }
    }
  }

  /** More numbers are split points: they must be in order, and the parts lie between them. */
  lemma PointsExact(shape: Shape, axis: int, points: seq<int>)
    requires |points| > 1
    ensures Split(shape, axis, points).Ok? <==>
      -|shape| <= axis < |shape| && InOrder(shape[DimAt(shape, axis)], points, 0)
    ensures Split(shape, axis, points).Ok? ==>
      var a, fields, n := DimAt(shape, axis), Split(shape, axis, points).value, |points|;
      |fields| == n + 1 && fields[0] == shape[a := points[0]]
      && (forall k :: 0 < k < n ==> fields[k] == shape[a := points[k] - points[k - 1]])
      && fields[n] == shape[a := if Known(shape[a]) then shape[a] - points[n - 1] else -1]
  {
    hide Between, InOrder, Split, Along;
    SplitAt(shape, axis, points);
    if -|shape| <= axis < |shape| {
      var a := DimAt(shape, axis);
      GapsAre(shape[a], points, 0);
      if InOrder(shape[a], points, 0) { AlongBetween(shape, a, points); }
    }
  }

  lemma SplitAt(shape: Shape, axis: int, points: seq<int>)
    requires |points| > 1
    ensures Split(shape, axis, points) ==
      if !(-|shape| <= axis < |shape|) then Err(AxisOutOfRange)
      else match Gaps(shape[DimAt(shape, axis)], points, 0)
        case Ok(sizes) => Ok(Along(shape, DimAt(shape, axis), sizes))
        case Err(e) => Err(e)
  {
    hide Gaps, Along;
  }

  lemma AlongBetween(shape: Shape, a: nat, points: seq<int>)
    requires a < |shape| && |points| > 1
    ensures var fields, n := Along(shape, a, Between(shape[a], points, 0)), |points|;
      |fields| == n + 1 && fields[0] == shape[a := points[0]]
      && (forall k :: 0 < k < n ==> fields[k] == shape[a := points[k] - points[k - 1]])
      && fields[n] == shape[a := if Known(shape[a]) then shape[a] - points[n - 1] else -1]
  {
    hide Along, Between, Known;
    var sizes, n := Between(shape[a], points, 0), |points|;
    PartSizes(shape[a], points, sizes);
    var fields := Along(shape, a, sizes);
    forall k | 0 < k < n ensures fields[k] == shape[a := points[k] - points[k - 1]] {
      assert sizes[k] == points[k] - points[k - 1];
    }
  }

  lemma PartSizes(d: int, points: seq<int>, sizes: seq<int>)
    requires |points| > 1 && sizes == Between(d, points, 0)
    ensures |sizes| == |points| + 1 && sizes[0] == points[0]
    ensures forall k :: 0 < k < |points| ==> sizes[k] == points[k] - points[k - 1]
    ensures sizes[|points|] == if Known(d) then d - points[|points| - 1] else -1
  {
    hide Between, Known;
    forall k | 0 < k < |points| ensures sizes[k] == points[k] - points[k - 1] {
      assert Start(points, 0, k) == points[k - 1];
    }
  }

  // ---------- concatenate ----------

  predicate SameOrUnknown(l: int, r: int) {
    !Known(l) || !Known(r) || l == r
  }

  function AddSizes(l: int, r: int): int {
    if Known(l) && Known(r) then l + r else -1
  }

  ghost predicate Compatible(out: Shape, cur: Shape, a: nat) {
    |cur| == |out| && forall i :: 0 <= i < |out| && i != a ==> SameOrUnknown(out[i], cur[i])
  }

  /** One more field behind the ones whose type is `out`. */
  ghost function Append(out: Shape, cur: Shape, a: nat): Option<Shape>
    requires a < |out|
  {
    if Compatible(out, cur, a) then Some(out[a := AddSizes(out[a], cur[a])]) else None
  }

  /** The type of the fields `1..` behind the first. */
  ghost function AppendAll(fields: seq<Shape>, a: nat): (r: Option<Shape>)
    requires fields != [] && a < |fields[0]|
    ensures r.Some? ==> |r.value| == |fields[0]|
  {
    if |fields| == 1 then Some(fields[0]) else
    var out :- AppendAll(fields[..|fields| - 1], a);
    Append(out, fields[|fields| - 1], a)
  }

  /** The type of the concatenation, if the fields fit together. */
  ghost function Concat(fields: seq<Shape>, axis: int): Option<Shape> {
    if fields == [] then None else
    match NormalizeAxis(axis, |fields[0]|)
    case Err(_) => None
    case Ok(a) => AppendAll(fields, a)
  }

  method ConcatenateInferType(fields: seq<Shape>, axis: int) returns (r: Result<Shape, Problem>)
    ensures r.Ok? <==> Concat(fields, axis).Some?
    ensures r.Ok? ==> Some(r.value) == Concat(fields, axis)
  {
    if fields == [] { return Err(NoFields); }
    var na := NormalizeAxis(axis, |fields[0]|);
    if na.Err? { return Err(na.error); }
    var a := na.value;
    var out := fields[0];
    assert fields[..1] == [fields[0]];
    for i := 1 to |fields|
      invariant AppendAll(fields[..i], a) == Some(out)
    {
      assert fields[..i + 1][..i] == fields[..i];
      var cur := fields[i];
      if |cur| != |fields[0]| {
        NoneAfter(fields, a, i + 1);
        return Err(RankMismatch);
      }
      var before := out;
      for dim := 0 to |out|
        invariant |out| == |before| == |cur|
        invariant out == if dim > a then before[a := AddSizes(before[a], cur[a])] else before
        invariant forall k :: 0 <= k < dim && k != a ==> SameOrUnknown(before[k], cur[k])
      {
        if dim == a {
          out := out[dim := if Known(out[dim]) && Known(cur[dim]) then out[dim] + cur[dim] else -1];
        } else if !SameOrUnknown(out[dim], cur[dim]) {
          NoneAfter(fields, a, i + 1);
          return Err(DimensionMismatch);
        }
      }
    }
    assert fields[..|fields|] == fields;
    r := Ok(out);
  }

  lemma {:induction false} NoneAfter(fields: seq<Shape>, a: nat, i: nat)
    requires 0 < i <= |fields| && a < |fields[0]| && AppendAll(fields[..i], a).None?
    ensures AppendAll(fields, a).None?
    decreases |fields|
  {
    if i == |fields| {
      assert fields[..i] == fields;
    } else {
      var n := |fields| - 1;
      assert fields[..n][..i] == fields[..i];
      NoneAfter(fields[..n], a, i);
    }
  }

  /** A dimension goes with another one if they are equal or one of them is unknown. */
  predicate GoesWith(a: int, b: int) {
    a < 0 || b < 0 || a == b
  }

  /** The lengths of the first `n` fields along the axis added up; unknown if one of them is. */
  function Lengths(fields: seq<Shape>, a: nat, n: nat): int
    requires 0 < n <= |fields| && forall i :: 0 <= i < |fields| ==> a < |fields[i]|
  {
    if n == 1 then fields[0][a]
    else
      var before := Lengths(fields, a, n - 1);
      if before < 0 || fields[n - 1][a] < 0 then -1 else before + fields[n - 1][a]
  }

  /**
   Fields are joined exactly when all have the rank of the first and each of their dimensions
   but the one along the axis goes with the first field's, which is the one announced.
   */
  lemma {:induction false} ConcatExact(fields: seq<Shape>, a: nat)
    requires fields != [] && a < |fields[0]|
    ensures AppendAll(fields, a).Some? <==> forall i :: 0 <= i < |fields| ==> Alike(fields[0], fields[i], a)
    ensures AppendAll(fields, a).Some? ==>
      (forall i :: 0 <= i < |fields| ==> a < |fields[i]|)
      && AppendAll(fields, a) == Some(fields[0][a := Lengths(fields, a, |fields|)])
    decreases |fields|
  {
    hide Append, Alike;
    var n := |fields| - 1;
    if n == 0 {
      assert fields[0][a := fields[0][a]] == fields[0];
      OneAlike(fields[0], a);
    } else {
      var front := fields[..n];
      ConcatExact(front, a);
      AllAlike(fields, a);
      if AppendAll(front, a).Some? {
        LengthsFront(fields, a, n);
        AppendExact(fields[0], Lengths(front, a, n), fields[n], a);
        if Alike(fields[0], fields[n], a) {
          assert forall i :: 0 <= i < |fields| ==> a < |fields[i]|;
          assert Lengths(front, a, n) == Lengths(fields, a, n);
        }
      }
    }
  }

  lemma OneAlike(first: Shape, a: nat)
    ensures Alike(first, first, a)
  {
  }

  lemma AppendExact(first: Shape, before: int, cur: Shape, a: nat)
    requires a < |first|
    ensures var out := first[a := before];
      Append(out, cur, a) ==
        if Alike(first, cur, a)
        then Some(first[a := if before < 0 || cur[a] < 0 then -1 else before + cur[a]]) else None
    ensures Alike(first, cur, a) ==> |cur| == |first|
  {
    var out := first[a := before];
    assert forall i :: 0 <= i < |out| && i != a ==> out[i] == first[i];
    assert Compatible(out, cur, a) <==> Alike(first, cur, a);
    assert out[a := AddSizes(out[a], if a < |cur| then cur[a] else 0)]
      == first[a := AddSizes(before, if a < |cur| then cur[a] else 0)];
  }

  predicate Alike(first: Shape, cur: Shape, a: nat) {
    |cur| == |first| && forall i :: 0 <= i < |first| && i != a ==> GoesWith(first[i], cur[i])
  }

  lemma AllAlike(fields: seq<Shape>, a: nat)
    requires |fields| > 1
    ensures var n := |fields| - 1;
      (forall i :: 0 <= i < |fields| ==> Alike(fields[0], fields[i], a)) <==>
        (forall i :: 0 <= i < n ==> Alike(fields[..n][0], fields[..n][i], a)) && Alike(fields[0], fields[n], a)
  {
    hide Alike;
    var front := fields[..|fields| - 1];
    assert forall i :: 0 <= i < |front| ==> front[i] == fields[i];
    if forall i :: 0 <= i < |fields| ==> Alike(fields[0], fields[i], a) {
      forall i | 0 <= i < |front| ensures Alike(front[0], front[i], a) {
        assert Alike(fields[0], fields[i], a);
      }
    } else if Alike(fields[0], fields[|front|], a) {
      var i :| 0 <= i < |fields| && !Alike(fields[0], fields[i], a);
      assert !Alike(front[0], front[i], a);
    }
  }

  lemma {:induction false} LengthsFront(fields: seq<Shape>, a: nat, n: nat)
    requires 0 < n < |fields| && forall i :: 0 <= i < n ==> a < |fields[..n][i]|
    ensures forall i :: 0 <= i < n ==> a < |fields[i]|
    ensures (forall i :: 0 <= i < |fields| ==> a < |fields[i]|) ==>
      forall m :: 0 < m <= n ==> Lengths(fields[..n], a, m) == Lengths(fields, a, m)
  {
    forall i | 0 <= i < n ensures a < |fields[i]| {
      assert fields[..n][i] == fields[i];
    }
    if forall i :: 0 <= i < |fields| ==> a < |fields[i]| {
      forall m | 0 < m <= n ensures Lengths(fields[..n], a, m) == Lengths(fields, a, m) {
        SameLengths(fields, a, n, m);
      }
    }
  }

  lemma {:induction false} SameLengths(fields: seq<Shape>, a: nat, n: nat, m: nat)
    requires 0 < m <= n < |fields| && forall i :: 0 <= i < |fields| ==> a < |fields[i]|
    ensures Lengths(fields[..n], a, m) == Lengths(fields, a, m)
  {
    if m > 1 { SameLengths(fields, a, n, m - 1); }
  }

  // ---------- there and back ----------

  /** The sum of sizes, unknown if one of them is. */
  function SumSizes(sizes: seq<int>): int
    requires sizes != []
  {
    if |sizes| == 1 then sizes[0] else AddSizes(SumSizes(sizes[..|sizes| - 1]), sizes[|sizes| - 1])
  }

  /** Fields that differ in one dimension concatenate to the sum along it. */
  lemma {:induction false} ConcatAlong(shape: Shape, a: nat, sizes: seq<int>)
    requires a < |shape| && sizes != []
    ensures AppendAll(Along(shape, a, sizes), a) == Some(shape[a := SumSizes(sizes)])
    decreases |sizes|
  {
    var fields, n := Along(shape, a, sizes), |sizes| - 1;
    if n > 0 {
      ConcatAlong(shape, a, sizes[..n]);
      assert fields[..n] == Along(shape, a, sizes[..n]);
      var out := shape[a := SumSizes(sizes[..n])];
      assert Compatible(out, fields[n], a);
      assert out[a := SumSizes(sizes)] == shape[a := SumSizes(sizes)];
    }
  }

  lemma {:induction false} SumEqual(n: nat, d: int)
    requires n > 0 && d >= 0
    ensures SumSizes(seq(n, _ => d)) == n * d
  {
    var s := seq(n, _ => d);
    if n > 1 {
      SumEqual(n - 1, d);
      assert s[..n - 1] == seq(n - 1, _ => d);
      NonNegative(n - 1, d);
      assert n * d == (n - 1) * d + d;
    }
  }

  lemma NonNegative(n: nat, d: int)
    requires d >= 0
    ensures n * d >= 0
  {
  }

  lemma {:induction false} SumUnknown(n: nat)
    requires n > 0
    ensures SumSizes(seq(n, _ => -1)) == -1
  {
    if n > 1 {
      SumUnknown(n - 1);
      assert seq(n, _ => -1)[..n - 1] == seq(n - 1, _ => -1);
    }
  }

  lemma {:induction false} SumBehind(before: int, sizes: seq<int>)
    requires sizes != []
    ensures SumSizes([before] + sizes) == AddSizes(before, SumSizes(sizes))
    decreases |sizes|
  {
    var n := |sizes| - 1;
    var all := [before] + sizes;
    if n == 0 {
      assert all[..1] == [before];
    } else {
      assert all[..|all| - 1] == [before] + sizes[..n];
      SumBehind(before, sizes[..n]);
      SumSign(sizes[..n]);
    }
  }

  lemma {:induction false} SumSign(sizes: seq<int>)
    requires sizes != []
    ensures SumSizes(sizes) >= 0 || |sizes| == 1 || SumSizes(sizes) == -1
  {
    if |sizes| > 1 { SumSign(sizes[..|sizes| - 1]); }
  }

  /** The gaps between the points add up to what is left of the dimension. */
  lemma {:induction false} SumGaps(d: int, points: seq<int>, previous: int)
    requires Gaps(d, points, previous).Ok? && previous >= 0 && (Known(d) ==> previous <= d)
    ensures Gaps(d, points, previous).value != []
    ensures SumSizes(Gaps(d, points, previous).value) == if Known(d) then d - previous else -1
    decreases |points|
  {
    if points != [] {
      SumGaps(d, points[1..], points[0]);
      SumBehind(points[0] - previous, Gaps(d, points[1..], points[0]).value);
    }
  }

  lemma SegmentsSum(d: int, split: seq<int>)
    requires Segments(d, split).Ok?
    ensures Segments(d, split).value != [] && SumSizes(Segments(d, split).value) == if Known(d) then d else -1
  {
    if |split| > 1 {
      SumGaps(d, split, 0);
    } else if Known(d) {
      SumEqual(split[0], d / split[0]);
      assert split[0] * (d / split[0]) == d;
    } else {
      SumUnknown(split[0]);
    }
  }

  /**
   Concatenating the parts of a split gives the shape back, with the split dimension
   written as -1 if it was unknown.
   */
  lemma ConcatSplit(shape: Shape, axis: int, split: seq<int>)
    requires Split(shape, axis, split).Ok?
    ensures var a := NormalizeAxis(axis, |shape|).value;
      Concat(Split(shape, axis, split).value, axis) == Some(shape[a := if Known(shape[a]) then shape[a] else -1])
  {
    var a := NormalizeAxis(axis, |shape|).value;
    var sizes := Segments(shape[a], split).value;
    SegmentsSum(shape[a], split);
    ConcatAlong(shape, a, sizes);
  }

  /** In particular, exactly the shape when the split dimension is known or written as -1. */
  lemma ConcatSplitExact(shape: Shape, axis: int, split: seq<int>)
    requires Split(shape, axis, split).Ok?
    ensures Concat(Split(shape, axis, split).value, axis) == Some(shape)
       <==> shape[NormalizeAxis(axis, |shape|).value] >= -1
  {
    var a := NormalizeAxis(axis, |shape|).value;
    ConcatSplit(shape, axis, split);
    var d := if Known(shape[a]) then shape[a] else -1;
    assert shape[a := d][a] == d;
    assert shape[a := shape[a]] == shape;
  }
}
