/** Index boxes, their lexicographic enumeration, and row-major addresses. */
module IndexSpace {

  datatype Range = Range(lo: int, extent: int)

  function Size(shape: seq<nat>): nat {
    if shape == [] then 1 else shape[0] * Size(shape[1..])
  }

  predicate InBox(idx: seq<int>, shape: seq<nat>) {
    |idx| == |shape| && forall i :: 0 <= i < |idx| ==> 0 <= idx[i] < shape[i]
  }

  /** The row-major address of an index. */
  function RowMajor(idx: seq<int>, shape: seq<nat>): int
    requires |idx| == |shape|
  {
    if idx == [] then 0 else idx[0] * Size(shape[1..]) + RowMajor(idx[1..], shape[1..])
  }

  /** The accumulation that index flattening performs, one axis at a time. */
  function Horner(acc: int, idx: seq<int>, shape: seq<nat>): int
    requires |idx| == |shape|
    decreases |idx|
  {
    if idx == [] then acc else Horner(NextAxis(acc, shape[0], idx[0]), idx[1..], shape[1..])
  }

  function NextAxis(acc: int, dim: int, i: int): int { acc * dim + i }

  lemma {:induction false} HornerIsRowMajor(acc: int, idx: seq<int>, shape: seq<nat>)
    requires |idx| == |shape|
    ensures Horner(acc, idx, shape) == acc * Size(shape) + RowMajor(idx, shape)
    decreases |idx|
  {
    if idx != [] {
      var s := Size(shape[1..]);
      HornerIsRowMajor(NextAxis(acc, shape[0], idx[0]), idx[1..], shape[1..]);
      assert (acc * shape[0] + idx[0]) * s == acc * (shape[0] * s) + idx[0] * s;
    }
  }

  lemma HornerFromFirst(idx: seq<int>, shape: seq<nat>)
    requires |idx| == |shape| > 0
    ensures Horner(idx[0], idx[1..], shape[1..]) == RowMajor(idx, shape)
  {
    HornerIsRowMajor(idx[0], idx[1..], shape[1..]);
  }

  function Dims(shape: seq<nat>): seq<Range> {
    seq(|shape|, i requires 0 <= i < |shape| => Range(0, shape[i]))
  }

  /** All points of a box, in lexicographic order. */
  function Points(rs: seq<Range>): seq<seq<int>> {
    if rs == [] then [[]] else Sweep(rs[0].lo, rs[0].lo + rs[0].extent, Points(rs[1..]))
  }

  function Sweep(i: int, hi: int, rest: seq<seq<int>>): seq<seq<int>>
    decreases hi - i
  {
    if i >= hi then [] else Prepend(i, rest) + Sweep(i + 1, hi, rest)
  }

  function Prepend(i: int, rest: seq<seq<int>>): seq<seq<int>> {
    seq(|rest|, k requires 0 <= k < |rest| => [i] + rest[k])
  }

  /** The point with first coordinate `i + q` and rest `rest[r]` sits at position `q * |rest| + r`. */
  lemma {:induction false} SweepAt(i: int, hi: int, rest: seq<seq<int>>, q: nat, r: nat)
    requires i + q < hi && r < |rest|
    ensures 0 <= q * |rest| + r < |Sweep(i, hi, rest)|
    ensures Sweep(i, hi, rest)[q * |rest| + r] == [i + q] + rest[r]
    decreases hi - i
  {
    if q > 0 {
      SweepAt(i + 1, hi, rest, q - 1, r);
      MulStep(q - 1, |rest|);
      var k := (q - 1) * |rest| + r;
      assert Sweep(i, hi, rest)[|rest| + k] == Sweep(i + 1, hi, rest)[k];
    } else {
      assert Sweep(i, hi, rest)[r] == Prepend(i, rest)[r];
    }
  }

  lemma MulStep(q: int, n: int)
    ensures (q + 1) * n == n + q * n
  {
  }

  lemma {:induction false} SweepLength(i: int, hi: int, rest: seq<seq<int>>)
    ensures |Sweep(i, hi, rest)| == (if i >= hi then 0 else (hi - i) * |rest|)
    decreases hi - i
  {
    if i < hi {
      SweepLength(i + 1, hi, rest);
      MulStep(hi - i - 1, |rest|);
    }
  }

  lemma DimsTail(shape: seq<nat>)
    requires shape != []
    ensures Dims(shape)[0] == Range(0, shape[0]) && Dims(shape)[1..] == Dims(shape[1..])
  {
  }

  lemma {:induction false} PointCount(shape: seq<nat>)
    ensures |Points(Dims(shape))| == Size(shape)
  {
    if shape != [] {
      DimsTail(shape);
      PointCount(shape[1..]);
      SweepLength(0, shape[0], Points(Dims(shape[1..])));
    }
  }

  /** Row-major addressing sends every index of the box to its position in the enumeration. */
  lemma {:induction false} PointAtAddress(idx: seq<int>, shape: seq<nat>)
    requires InBox(idx, shape)
    ensures 0 <= RowMajor(idx, shape) < Size(shape) == |Points(Dims(shape))|
    ensures Points(Dims(shape))[RowMajor(idx, shape)] == idx
    decreases |idx|
  {
    PointCount(shape);
    if idx != [] {
      DimsTail(shape);
      var rest := Points(Dims(shape[1..]));
      PointAtAddress(idx[1..], shape[1..]);
      SweepAt(0, shape[0], rest, idx[0], RowMajor(idx[1..], shape[1..]));
      assert [idx[0]] + idx[1..] == idx;
    }
  }

  /** Conversely the k-th point of the enumeration is in the box and has address k. */
  lemma {:induction false} AddressOfPoint(shape: seq<nat>, k: nat)
    requires k < Size(shape)
    ensures k < |Points(Dims(shape))|
    ensures InBox(Points(Dims(shape))[k], shape)
    ensures RowMajor(Points(Dims(shape))[k], shape) == k
  {
    PointCount(shape);
    if shape != [] {
      DimsTail(shape);
      var n := Size(shape[1..]);
      PointCount(shape[1..]);
      DivMod(k, shape[0], n);
      var q, r := k / n, k % n;
      SweepAt(0, shape[0], Points(Dims(shape[1..])), q, r);
      AddressOfPoint(shape[1..], r);
      var p := Points(Dims(shape))[k];
      assert p[1..] == Points(Dims(shape[1..]))[r];
    }
  }

  lemma DivMod(k: nat, d: nat, n: nat)
    requires k < d * n
    ensures n > 0 && 0 <= k / n < d && 0 <= k % n < n && k == (k / n) * n + k % n
  {
    if n > 0 && k / n >= d {
      MulLe(d, k / n, n);
      assert false;
    }
  }

  lemma MulLe(a: nat, b: nat, n: nat)
    requires a <= b
    ensures a * n <= b * n
  {
  }

  ghost predicate Addressed(shape: seq<nat>, k: int) {
    exists x :: InBox(x, shape) && RowMajor(x, shape) == k
  }

  /**
   Row-major addressing is a bijection from the index box onto [0, Size): distinct indices
   have distinct addresses, and every address is the address of some index.
   */
  lemma AddressBijection(shape: seq<nat>)
    ensures forall x, y :: InBox(x, shape) && InBox(y, shape) && RowMajor(x, shape) == RowMajor(y, shape) ==> x == y
    ensures forall k :: Addressed(shape, k) <==> 0 <= k < Size(shape)
  {
    forall x, y | InBox(x, shape) && InBox(y, shape) && RowMajor(x, shape) == RowMajor(y, shape)
      ensures x == y
    {
      PointAtAddress(x, shape);
      PointAtAddress(y, shape);
    }
    forall k
      ensures Addressed(shape, k) <==> 0 <= k < Size(shape)
    {
      if 0 <= k < Size(shape) {
        AddressOfPoint(shape, k);
      }
      if x :| InBox(x, shape) && RowMajor(x, shape) == k {
        PointAtAddress(x, shape);
      }
    }
  }
}
