/** The register file of a multi-worker session and the CPU collectives over it. */
module Collectives {
  import opened Base
  import opened IndexSpace
  import opened Tensors
  import opened Columns

  datatype DType = Float32 | Float64 | Int32 | Int64 | Int8

  datatype Problem =
    | WorkerOutOfRange
    | RegisterOutOfRange
    | UndefinedSource
    | UndefinedShard
    | RankZero
    | OutOfBounds
    | NotDivisible
    | DivisionByZero
    | UnequalSize
    | UnsupportedDType
    | UnsupportedReduction

  type Outcome<T> = Result<T, Problem>

  /** An array on the heap: a fixed shape and a buffer that can be written. */
  class NDArray {
    const shape: seq<nat>
    const dtype: DType
    const data: array<real>

    constructor (shape: seq<nat>, dtype: DType)
      ensures Valid() && this.shape == shape && this.dtype == dtype && fresh(data)
    {
      this.shape := shape;
      this.dtype := dtype;
      data := new real[Size(shape)];
    }

    predicate Valid() {
      data.Length == Size(shape)
    }
  }

  ghost function Value(a: NDArray): (t: Tensor)
    reads a.data
    ensures t.shape == a.shape && |t.data| == a.data.Length && (a.Valid() <==> t.Valid())
  {
    Tensor(a.shape, a.data[..])
  }

  ghost function View(a: NDArray?): Option<Tensor>
    reads if a == null then {} else {a.data}
  {
    if a == null then None else Some(Value(a))
  }

  /** One row of registers per worker. */
  class Session {
    const numWorkers: nat
    const numGroups: nat
    var regCount: nat
    var regs: seq<seq<NDArray?>>

    ghost predicate Valid()
      reads this
    {
      && numWorkers > 0 && numGroups > 0 && |regs| == numWorkers
      && (forall w :: 0 <= w < |regs| ==> |regs[w]| == regCount)
      && (forall w, r :: 0 <= w < |regs| && 0 <= r < |regs[w]| && regs[w][r] != null ==> regs[w][r].Valid())
    }

    constructor (workers: int, groups: int)
      ensures Valid() && regCount == 0
      ensures numWorkers == (if workers > 0 then workers else 1) && numGroups == (if groups > 0 then groups else 1)
    {
      numWorkers := if workers > 0 then workers else 1;
      numGroups := if groups > 0 then groups else 1;
      regCount := 0;
      regs := seq(if workers > 0 then workers else 1, _ => []);
    }

    /** A new register, empty on every worker. */
    method AllocateRegister() returns (r: nat)
      requires Valid()
      modifies this
      ensures Valid() && r == old(regCount) && regCount == r + 1
      ensures forall w :: 0 <= w < numWorkers ==> regs[w] == old(regs[w]) + [null]
    {
      r := regCount;
      regCount := regCount + 1;
      var rows: seq<seq<NDArray?>> := [];
      for w := 0 to numWorkers
        invariant |rows| == w && forall k :: 0 <= k < w ==> rows[k] == regs[k] + [null]
      {
        rows := rows + [regs[w] + [null]];
      }
      regs := rows;
    }

    predicate InRange(worker: int, reg: int)
      reads this
    {
      0 <= worker < numWorkers && 0 <= reg < regCount
    }

    method GetRegister(worker: int, reg: int) returns (r: Outcome<NDArray?>)
      requires Valid()
      ensures r.Ok? <==> InRange(worker, reg)
      ensures r.Ok? ==> r.value == regs[worker][reg]
      ensures r.Err? ==> r.error == if 0 <= worker < numWorkers then RegisterOutOfRange else WorkerOutOfRange
    {
      if !(0 <= worker < numWorkers) { return Err(WorkerOutOfRange); }
      if !(0 <= reg < regCount) { return Err(RegisterOutOfRange); }
      r := Ok(regs[worker][reg]);
    }

    method SetRegister(worker: int, reg: int, value: NDArray?) returns (r: Outcome<()>)
      requires Valid() && (value != null ==> value.Valid())
      modifies this
      ensures Valid() && regCount == old(regCount)
      ensures r.Ok? <==> InRange(worker, reg)
      ensures regs == if r.Ok? then old(regs)[worker := old(regs)[worker][reg := value]] else old(regs)
    {
      if !(0 <= worker < numWorkers) { return Err(WorkerOutOfRange); }
      if !(0 <= reg < regCount) { return Err(RegisterOutOfRange); }
      regs := regs[worker := regs[worker][reg := value]];
      r := Ok(());
    }
  }

  /** Only the given register changed. */
  ghost predicate Elsewhere(before: seq<seq<NDArray?>>, after: seq<seq<NDArray?>>, dst: int) {
    |after| == |before| && forall w :: 0 <= w < |before| ==> RowElsewhere(before[w], after[w], dst)
  }

  ghost predicate RowElsewhere(before: seq<NDArray?>, after: seq<NDArray?>, dst: int) {
    |after| == |before| && forall r :: 0 <= r < |before| && r != dst ==> after[r] == before[r]
  }

  // ---------- arrays ----------

  /** Copies a block between two buffers. */
  method CopyInto(dst: array<real>, at: nat, src: array<real>, from: nat, n: nat)
    requires dst != src && at + n <= dst.Length && from + n <= src.Length
    modifies dst
    ensures dst[..] == old(dst[..at]) + src[from..from + n] + old(dst[at + n..])
  {
    for i := 0 to n
      invariant forall k :: 0 <= k < dst.Length ==>
        dst[k] == if at <= k < at + i then src[from + k - at] else old(dst[k])
    {
      dst[at + i] := src[from + i];
    }
  }

  method CloneArray(src: NDArray?) returns (dst: NDArray?)
    requires src != null ==> src.Valid()
    ensures dst == null <==> src == null
    ensures dst != null ==> fresh(dst) && fresh(dst.data) && dst.Valid() && dst.dtype == src.dtype
    ensures View(dst) == View(src)
  {
    if src == null { return null; }
    var a := new NDArray(src.shape, src.dtype);
    CopyInto(a.data, 0, src.data, 0, src.data.Length);
    assert a.data[..] == src.data[..];
    dst := a;
  }

  method AddInPlace(acc: NDArray, other: NDArray) returns (r: Outcome<()>)
    requires acc.Valid() && other.Valid() && acc.data != other.data && acc.dtype == other.dtype
    modifies acc.data
    ensures r.Ok? <==> acc.data.Length == other.data.Length && acc.dtype != Int8
    ensures r.Ok? ==> forall i :: 0 <= i < acc.data.Length ==> acc.data[i] == old(acc.data[i]) + other.data[i]
    ensures r.Err? ==> acc.data[..] == old(acc.data[..])
  {
    if Size(acc.shape) != Size(other.shape) { return Err(UnequalSize); }
    if acc.dtype == Int8 { return Err(UnsupportedDType); }
    for i := 0 to acc.data.Length
      invariant forall k :: 0 <= k < acc.data.Length ==>
        acc.data[k] == old(acc.data[k]) + (if k < i then other.data[k] else 0.0)
    {
      acc.data[i] := acc.data[i] + other.data[i];
    }
    r := Ok(());
  }

  method SliceFirstDim(src: NDArray?, start: int, len: int) returns (r: Outcome<NDArray?>)
    requires src != null ==> src.Valid()
    ensures src == null ==> r == Ok(null)
    ensures src != null ==> (r.Ok? <==> src.shape != [] && 0 <= start && 0 <= len && start + len <= src.shape[0])
    ensures src != null && r.Ok? ==>
      r.value != null && fresh(r.value) && fresh(r.value.data) && r.value.Valid() && r.value.dtype == src.dtype
      && Value(r.value) == Slice(Value(src), start, len)
  {
    if src == null { return Ok(null); }
    if src.shape == [] { return Err(RankZero); }
    if start < 0 || len < 0 || start + len > src.shape[0] { return Err(OutOfBounds); }
    ghost var t := Slice(Value(src), start, len);
    var inner := Size(src.shape[1..]);
    var dst := new NDArray([len] + src.shape[1..], src.dtype);
    SliceBounds(Value(src), start, len);
    CopyInto(dst.data, 0, src.data, start * inner, len * inner);
    assert dst.data[..] == t.data;
    r := Ok(dst);
  }

  lemma SliceBounds(t: Tensor, start: nat, len: nat)
    requires t.Valid() && t.shape != [] && start + len <= t.shape[0]
    ensures 0 <= start * t.Inner() && 0 <= len * t.Inner() && start * t.Inner() + len * t.Inner() <= |t.data|
    ensures Size([len] + t.shape[1..]) == len * t.Inner()
    ensures Slice(t, start, len).data == t.data[start * t.Inner()..start * t.Inner() + len * t.Inner()]
  {
    FirstDim(t);
    TimesFacts(start + len, t.shape[0], t.Inner());
    TimesFacts(start, len, t.Inner());
    assert ([len] + t.shape[1..])[1..] == t.shape[1..];
  }

  /** Every shard that is there has rank one or more and fills its rows. */
  predicate StackableArrays(arrays: seq<NDArray?>) {
    arrays != [] && arrays[0] != null && arrays[0].shape != [] ==>
      forall i :: 0 <= i < |arrays| && arrays[i] != null ==>
        arrays[i].shape != [] && Times(arrays[i].shape[0], Size(arrays[0].shape[1..])) <= arrays[i].data.Length
  }

  ghost predicate AllDefined(arrays: seq<NDArray?>) {
    forall i :: 0 <= i < |arrays| ==> arrays[i] != null
  }

  /** The tensors are the values of the arrays that are there. */
  ghost predicate Hold(arrays: seq<NDArray?>, ts: seq<Tensor>)
    reads set i | 0 <= i < |arrays| && arrays[i] != null :: arrays[i].data
  {
    |ts| == |arrays| && forall i :: 0 <= i < |arrays| && arrays[i] != null ==> Value(arrays[i]) == ts[i]
  }

  /** The sum of the first dimensions, if every shard is there. */
  method TotalRows(arrays: seq<NDArray?>, ghost ts: seq<Tensor>) returns (r: Outcome<nat>)
    requires Hold(arrays, ts) && forall i :: 0 <= i < |arrays| && arrays[i] != null ==> arrays[i].shape != []
    ensures r.Ok? <==> AllDefined(arrays)
    ensures r.Ok? ==> (forall i :: 0 <= i < |ts| ==> ts[i].shape != []) && r.value == FirstDims(ts)
  {
    var total: nat := 0;
    for i := 0 to |arrays|
      invariant AllDefined(arrays[..i]) && (forall k :: 0 <= k < i ==> ts[k].shape != []) && total == FirstDims(ts[..i])
    {
      var a := arrays[i];
      if a == null { return Err(UndefinedShard); }
      assert ts[..i + 1][..i] == ts[..i];
      total := total + a.shape[0];
    }
    assert ts[..|arrays|] == ts && arrays[..|arrays|] == arrays;
    r := Ok(total);
  }

  /** Copies the arrays one behind the other. */
  method Stack(dst: array<real>, arrays: seq<NDArray?>, inner: nat, ghost ts: seq<Tensor>)
    requires AllDefined(arrays) && Hold(arrays, ts) && Joinable(ts, inner)
    requires dst.Length == Times(FirstDims(ts), inner) && forall i :: 0 <= i < |arrays| ==> arrays[i].data != dst
    modifies dst
    ensures dst[..] == JoinData(ts, inner)
  {
    hide Times, FirstDims, JoinData;
    var offset: nat := 0;
    JoinStarts(ts, inner);
    for i := 0 to |arrays|
      invariant offset == Times(FirstDims(ts[..i]), inner) <= dst.Length
      invariant dst[..offset] == JoinData(ts[..i], inner)
      invariant Hold(arrays, ts)
    {
      JoinNext(ts, inner, i);
      var n := arrays[i].shape[0] * inner;
      CopyInto(dst, offset, arrays[i].data, 0, n);
      assert dst[..offset + n] == dst[..offset] + ts[i].data[..n];
      offset := offset + n;
    }
    assert ts[..|arrays|] == ts;
  }

  method ConcatFirstDim(arrays: seq<NDArray?>, ghost ts: seq<Tensor>) returns (r: Outcome<NDArray?>)
    requires StackableArrays(arrays) && Hold(arrays, ts)
    ensures arrays == [] || arrays[0] == null ==> r == Ok(null)
    ensures arrays != [] && arrays[0] != null ==> (r.Ok? <==> arrays[0].shape != [] && AllDefined(arrays))
    ensures arrays != [] && arrays[0] != null && r.Ok? ==>
      r.value != null && fresh(r.value) && fresh(r.value.data) && r.value.Valid()
      && Joinable(ts, ts[0].Inner()) && Value(r.value) == Join(ts)
  {
    hide FirstDims, JoinData, Times;
    if arrays == [] { return Ok(null); }
    var first := arrays[0];
    if first == null { return Ok(null); }
    if first.shape == [] { return Err(RankZero); }
    var total := TotalRows(arrays, ts);
    if total.Err? { return Err(total.error); }
    var inner := Size(first.shape[1..]);
    var dst := new NDArray([total.value] + first.shape[1..], first.dtype);
    StackedSize(total.value, first.shape);
    Stack(dst.data, arrays, inner, ts);
    assert dst.data[..] == JoinData(ts, inner);
    r := Ok(dst);
  }

  lemma StackedSize(total: nat, shape: seq<nat>)
    requires shape != []
    ensures Size([total] + shape[1..]) == Times(total, Size(shape[1..]))
  {
    assert ([total] + shape[1..])[1..] == shape[1..];
  }

  lemma JoinStarts(ts: seq<Tensor>, n: nat)
    requires Joinable(ts, n)
    ensures FirstDims(ts[..0]) == 0 && Times(FirstDims(ts[..0]), n) == 0 && JoinData(ts[..0], n) == []
  {
  }

  /** Joining one more tensor appends its rows, and they fit. */
  lemma JoinNext(ts: seq<Tensor>, n: nat, i: nat)
    requires Joinable(ts, n) && i < |ts|
    ensures ts[i].shape[0] * n <= |ts[i].data|
    ensures Times(FirstDims(ts[..i + 1]), n) == Times(FirstDims(ts[..i]), n) + ts[i].shape[0] * n
    ensures JoinData(ts[..i + 1], n) == JoinData(ts[..i], n) + ts[i].data[..ts[i].shape[0] * n]
    ensures Times(FirstDims(ts[..i + 1]), n) <= Times(FirstDims(ts), n)
  {
    assert ts[..i + 1][..i] == ts[..i];
    TimesFacts(FirstDims(ts[..i]), ts[i].shape[0], n);
    DimsGrow(ts, i + 1);
    TimesFacts(FirstDims(ts[..i + 1]), FirstDims(ts), n);
  }

  lemma {:induction false} DimsGrow(ts: seq<Tensor>, i: nat)
    requires i <= |ts| && forall k :: 0 <= k < |ts| ==> ts[k].shape != []
    ensures FirstDims(ts[..i]) <= FirstDims(ts)
    decreases |ts|
  {
    if i < |ts| {
      DimsGrow(ts[..|ts| - 1], i);
      assert ts[..|ts| - 1][..i] == ts[..i];
    } else {
      assert ts[..i] == ts;
    }
  }

  // ---------- sums over all workers ----------

  /** The tensors a register holds, worker by worker. */
  ghost predicate Shows(s: Session, reg: int, views: seq<Option<Tensor>>)
    reads s, set w | 0 <= w < |s.regs| && 0 <= reg < |s.regs[w]| && s.regs[w][reg] != null :: s.regs[w][reg].data
  {
    |views| == |s.regs| && forall w :: 0 <= w < |s.regs| && 0 <= reg < |s.regs[w]| ==> View(s.regs[w][reg]) == views[w]
  }

  ghost predicate SameDType(s: Session, reg: int)
    reads s
  {
    forall v, w ::
      0 <= v < |s.regs| && 0 <= w < |s.regs| && 0 <= reg < |s.regs[v]| && 0 <= reg < |s.regs[w]| &&
      s.regs[v][reg] != null && s.regs[w][reg] != null
      ==> s.regs[v][reg].dtype == s.regs[w][reg].dtype
  }

  ghost predicate Summable(s: Session, reg: int)
    reads s
  {
    forall w :: 0 <= w < |s.regs| && 0 <= reg < |s.regs[w]| && s.regs[w][reg] != null ==> s.regs[w][reg].dtype != Int8
  }

  /** At most one worker has a source. */
  ghost predicate OnlyOne(views: seq<Option<Tensor>>) {
    forall i, j :: 0 <= i < j < |views| ==> views[i].None? || views[j].None?
  }

  /** The sources can be added: they have one size, and their elements can be added unless there is nothing to add. */
  ghost predicate CanAdd(s: Session, reg: int, views: seq<Option<Tensor>>)
    reads s
  {
    SameSize(views) && (Summable(s, reg) || OnlyOne(views))
  }

  lemma {:induction false} FirstNext(views: seq<Option<Tensor>>, w: nat)
    requires w < |views|
    ensures First(views[..w + 1]) == if First(views[..w]).Some? then First(views[..w]) else views[w]
    decreases w
  {
    if w > 0 {
      assert views[..w + 1][1..] == views[1..][..w];
      assert views[..w][1..] == views[1..][..w - 1];
      FirstNext(views[1..], w - 1);
    }
  }

  lemma ColumnNext(views: seq<Option<Tensor>>, w: nat, i: nat)
    requires w < |views|
    ensures ColumnSum(views[..w + 1], i) == ColumnSum(views[..w], i) +
      (if views[w].Some? && i < |views[w].value.data| then views[w].value.data[i] else 0.0)
  {
    assert views[..w + 1][..w] == views[..w];
  }

  lemma {:induction false} NoneSum(views: seq<Option<Tensor>>, i: nat)
    requires First(views) == None
    ensures ColumnSum(views, i) == 0.0
  {
    if views != [] {
      var n := |views| - 1;
      FirstNext(views, n);
      assert views[..n + 1] == views;
      NoneSum(views[..n], i);
    }
  }

  /** The running sum of the sources seen so far. */
  ghost predicate PartialSum(acc: NDArray?, views: seq<Option<Tensor>>)
    reads if acc == null then {} else {acc.data}
  {
    if acc == null then First(views) == None else
    && acc.Valid() && First(views).Some? && First(views).value.shape == acc.shape
    && (forall k :: 0 <= k < |views| && views[k].Some? ==> |views[k].value.data| == acc.data.Length)
    && (forall i :: 0 <= i < acc.data.Length ==> acc.data[i] == ColumnSum(views, i))
  }

  /** A copy of the first source, or the sum with the next one added in place. */
  method AddSource(
    acc: NDArray?, value: NDArray, ghost views: seq<Option<Tensor>>, ghost w: nat) returns (r: Outcome<NDArray>)
    requires w < |views| && PartialSum(acc, views[..w]) && value.Valid() && views[w] == Some(Value(value))
    requires acc != null ==> acc.data != value.data && acc.dtype == value.dtype
    modifies if acc == null then {} else {acc.data}
    ensures acc == null ==> r.Ok? && fresh(r.value) && fresh(r.value.data)
    ensures acc != null ==> (r.Ok? <==> acc.data.Length == value.data.Length && acc.dtype != Int8)
    ensures acc != null && r.Ok? ==> r.value == acc
    ensures r.Ok? ==> PartialSum(r.value, views[..w + 1]) && r.value.dtype == value.dtype
  {
    hide ColumnSum, First, Size;
    FirstNext(views, w);
    forall i: nat
      ensures ColumnSum(views[..w + 1], i) == ColumnSum(views[..w], i) +
        (if i < |views[w].value.data| then views[w].value.data[i] else 0.0)
    {
      ColumnNext(views, w, i);
    }
    if acc == null {
      forall i: nat ensures ColumnSum(views[..w], i) == 0.0 {
        NoneSum(views[..w], i);
      }
      NoneDefined(views[..w]);
      var copy := CloneArray(value);
      r := Ok(copy);
    } else {
      var added := AddInPlace(acc, value);
      r := match added case Ok(_) => Ok(acc) case Err(e) => Err(e);
    }
  }

  lemma SkipSource(acc: NDArray?, views: seq<Option<Tensor>>, w: nat)
    requires w < |views| && PartialSum(acc, views[..w]) && views[w].None?
    ensures PartialSum(acc, views[..w + 1])
  {
    hide ColumnSum, First, Size;
    FirstNext(views, w);
    forall i: nat ensures ColumnSum(views[..w + 1], i) == ColumnSum(views[..w], i) {
      ColumnNext(views, w, i);
    }
  }

  method SumSources(s: Session, src: int, ghost views: seq<Option<Tensor>>) returns (r: Outcome<NDArray?>)
    requires s.Valid() && Shows(s, src, views) && SameDType(s, src)
    ensures r.Ok? ==> PartialSum(r.value, views) && (r.value != null ==> fresh(r.value) && fresh(r.value.data))
    ensures r.Ok? <==> 0 <= src < s.regCount && CanAdd(s, src, views)
  {
    hide PartialSum, First, SameSize, Size, OnlyOne, Summable;
    var acc: NDArray? := null;
    NothingYet(views);
    for w := 0 to s.numWorkers
      invariant acc != null ==> fresh(acc) && fresh(acc.data)
      invariant acc != null ==> exists v ::
        0 <= v < w && 0 <= src < s.regCount && s.regs[v][src] != null && acc.dtype == s.regs[v][src].dtype
      invariant Shows(s, src, views) && PartialSum(acc, views[..w]) && (w > 0 ==> 0 <= src < s.regCount)
      invariant acc != null && acc.dtype == Int8 ==> OnlyOne(views[..w])
    {
      var got := s.GetRegister(w, src);
      if got.Err? { return Err(got.error); }
      var value := got.value;
      PartialFacts(acc, views[..w]);
      OnlyOneNext(views, w);
      if value == null {
        SkipSource(acc, views, w);
        continue;
      }
      ghost var size := if acc == null then 0 else acc.data.Length;
      var added := AddSource(acc, value, views, w);
      if added.Err? {
        SizesClash(views, w, size);
        TwoSources(views, w);
        if value.dtype == Int8 { HasInt8(s, src, w); }
        return Err(added.error);
      }
      acc := added.value;
    }
    assert views[..s.numWorkers] == views;
    PartialFacts(acc, views);
    if acc == null {
      NoneDefined(views);
      OneSize(views, 0);
      NoSources(s, src);
    } else {
      OneSize(views, acc.data.Length);
      if acc.dtype != Int8 { OneType(s, src, acc.dtype); }
    }
    r := Ok(acc);
  }

  lemma NothingYet(views: seq<Option<Tensor>>)
    ensures PartialSum(null, views[..0])
  {
  }

  lemma PartialFacts(acc: NDArray?, views: seq<Option<Tensor>>)
    requires PartialSum(acc, views)
    ensures acc == null ==> First(views) == None
    ensures acc != null ==> First(views).Some?
    ensures acc != null ==> forall k :: 0 <= k < |views| && views[k].Some? ==> |views[k].value.data| == acc.data.Length
  {
  }

  lemma OnlyOneNext(views: seq<Option<Tensor>>, w: nat)
    requires w < |views|
    ensures First(views[..w]) == None ==> OnlyOne(views[..w + 1])
    ensures OnlyOne(views[..w]) && views[w].None? ==> OnlyOne(views[..w + 1])
  {
    if First(views[..w]) == None {
      NoneDefined(views[..w]);
      assert forall k :: 0 <= k < w ==> views[..w][k].None?;
    }
  }

  lemma NoSources(s: Session, src: int)
    requires s.Valid() && 0 <= src < s.regCount && forall w :: 0 <= w < s.numWorkers ==> s.regs[w][src] == null
    ensures Summable(s, src)
  {
  }

  lemma OneType(s: Session, src: int, dtype: DType)
    requires s.Valid() && 0 <= src < s.regCount && dtype != Int8
    requires forall w :: 0 <= w < s.numWorkers && s.regs[w][src] != null ==> s.regs[w][src].dtype == dtype
    ensures Summable(s, src)
  {
  }

  lemma HasInt8(s: Session, src: int, w: nat)
    requires s.Valid() && 0 <= src < s.regCount && w < s.numWorkers && s.regs[w][src] != null
      && s.regs[w][src].dtype == Int8
    ensures !Summable(s, src)
  {
  }

  lemma OneSize(views: seq<Option<Tensor>>, n: nat)
    requires forall k :: 0 <= k < |views| && views[k].Some? ==> |views[k].value.data| == n
    ensures SameSize(views)
  {
  }

  lemma TwoSources(views: seq<Option<Tensor>>, w: nat)
    requires w < |views| && views[w].Some? && First(views[..w]).Some?
    ensures !OnlyOne(views)
  {
    FirstIsThere(views[..w]);
    var k :| 0 <= k < w && views[..w][k].Some?;
    assert views[k].Some?;
  }

  lemma {:induction false} NoneDefined(views: seq<Option<Tensor>>)
    requires First(views) == None
    ensures forall k :: 0 <= k < |views| ==> views[k].None?
  {
    if views != [] { NoneDefined(views[1..]); }
  }

  /** A source of another size than those before it. */
  lemma SizesClash(views: seq<Option<Tensor>>, w: nat, n: nat)
    requires w < |views| && views[w].Some? && First(views[..w]).Some?
    requires forall k :: 0 <= k < w && views[k].Some? ==> |views[k].value.data| == n
    ensures SameSize(views) ==> |views[w].value.data| == n
  {
    FirstIsThere(views[..w]);
  }

  lemma {:induction false} FirstIsThere(views: seq<Option<Tensor>>)
    requires First(views).Some?
    ensures exists k :: 0 <= k < |views| && views[k].Some?
  {
    if views[0].None? {
      FirstIsThere(views[1..]);
      var k :| 0 <= k < |views[1..]| && views[1..][k].Some?;
      assert views[k + 1].Some?;
    }
  }

  /** Stores a copy of the array in a register of every worker. */
  method SetAll(s: Session, dst: int, value: NDArray) returns (r: Outcome<()>)
    requires s.Valid() && value.Valid()
    modifies s
    ensures s.Valid() && s.regCount == old(s.regCount) && Elsewhere(old(s.regs), s.regs, dst)
    ensures r.Ok? <==> 0 <= dst < s.regCount
    ensures r.Ok? ==> forall w :: 0 <= w < s.numWorkers ==>
      s.regs[w][dst] != null && fresh(s.regs[w][dst].data) && View(s.regs[w][dst]) == Some(Value(value))
  {
    ghost var before := s.regs;
    for w := 0 to s.numWorkers
      invariant s.Valid() && s.regCount == old(s.regCount) && Elsewhere(before, s.regs, dst)
      invariant w > 0 ==> 0 <= dst < s.regCount
      invariant forall k :: 0 <= k < w ==>
        s.regs[k][dst] != null && fresh(s.regs[k][dst].data) && View(s.regs[k][dst]) == Some(Value(value))
    {
      var copy := CloneArray(value);
      r := s.SetRegister(w, dst, copy);
      if r.Err? { return; }
    }
    r := Ok(());
  }

  /**
   Leaves on every worker the element-wise sum of the sources that are there, and the
   sources as they were unless they share the destination register.
   */
  method AllReduce(
    s: Session, src: int, dst: int, kind: string, ghost views: seq<Option<Tensor>>) returns (r: Outcome<()>)
    requires s.Valid() && Shows(s, src, views) && SameDType(s, src)
    modifies s
    ensures s.Valid() && s.regCount == old(s.regCount) && Elsewhere(old(s.regs), s.regs, dst)
    ensures r.Ok? ==> 0 <= dst < s.regCount && Summed(views).Some? && forall w :: 0 <= w < s.numWorkers ==>
      s.regs[w][dst] != null && fresh(s.regs[w][dst].data) && View(s.regs[w][dst]) == Summed(views)
    ensures src != dst ==> Shows(s, src, views)
    ensures r.Ok? <==> (
      kind == "sum" && 0 <= src < s.regCount && 0 <= dst < s.regCount && First(views).Some?
        && old(CanAdd(s, src, views)))
  {
    hide ColumnSum, First, SameSize, Size;
    if kind != "sum" { return Err(UnsupportedReduction); }
    var acc := SumSources(s, src, views);
    if acc.Err? { return Err(acc.error); }
    var total := acc.value;
    if total == null { return Err(UndefinedSource); }
    SumIs(total, views);
    r := SetAll(s, dst, total);
  }

  lemma SumIs(acc: NDArray, views: seq<Option<Tensor>>)
    requires PartialSum(acc, views)
    ensures Some(Value(acc)) == Summed(views)
  {
    FirstSize(views, acc.data.Length);
    assert acc.data[..] == Summed(views).value.data;
  }

  lemma {:induction false} FirstSize(views: seq<Option<Tensor>>, n: nat)
    requires First(views).Some? && forall k :: 0 <= k < |views| && views[k].Some? ==> |views[k].value.data| == n
    ensures |First(views).value.data| == n
  {
    if views[0].None? { FirstSize(views[1..], n); }
  }

  // ---------- scatter ----------

  /** Rows outside the given range of workers are the same. */
  ghost predicate RowsOutside(before: seq<seq<NDArray?>>, after: seq<seq<NDArray?>>, from: nat, to: nat) {
    |after| == |before| && forall w :: 0 <= w < |before| && !(from <= w < to) ==> after[w] == before[w]
  }

  /** Copies `len` rows of an array, from `start` on, into a register of one worker. */
  method ScatterOne(s: Session, dst: int, src: NDArray, worker: nat, start: nat, len: nat, ghost col: Column)
    returns (r: Outcome<()>)
    requires s.Valid() && src.Valid() && worker < s.numWorkers && Shows(s, dst, col)
    modifies s
    ensures s.Valid() && s.regCount == old(s.regCount) && Elsewhere(old(s.regs), s.regs, dst)
    ensures RowsOutside(old(s.regs), s.regs, worker, worker + 1)
    ensures r.Ok? <==> 0 <= dst < s.regCount && src.shape != [] && start + len <= src.shape[0]
    ensures r.Ok? ==> Shows(s, dst, col[worker := Some(Slice(Value(src), start, len))])
  {
    hide Size, Slice;
    var part := SliceFirstDim(src, start, len);
    if part.Err? { return Err(part.error); }
    r := s.SetRegister(worker, dst, part.value);
  }

  /** Hands out consecutive parts of `shard` rows to `n` workers starting at `base`. */
  method ScatterRange(s: Session, dst: int, src: NDArray, base: nat, n: nat, shard: nat, ghost col: Column)
    returns (r: Outcome<()>)
    requires s.Valid() && src.Valid() && n > 0 && base + n <= s.numWorkers && Shows(s, dst, col)
    modifies s
    ensures s.Valid() && s.regCount == old(s.regCount) && Elsewhere(old(s.regs), s.regs, dst)
    ensures RowsOutside(old(s.regs), s.regs, base, base + n)
    ensures r.Ok? <==> 0 <= dst < s.regCount && Splits(Value(src), shard, n)
    ensures r.Ok? ==> Shows(s, dst, HandedOut(col, base, Value(src), shard, n, n))
  {
    hide Times, Size, HandedOut, Slice, Elsewhere, RowsOutside;
    ghost var before, t := s.regs, Value(src);
    NothingPut(before, dst, base);
    TimesZero(shard, 0);
    if Splits(t, shard, n) { HandOutStart(col, base, t, shard, n); }
    ghost var now := col;
    for i := 0 to n
      invariant s.Valid() && s.regCount == old(s.regCount) && Elsewhere(before, s.regs, dst)
      invariant RowsOutside(before, s.regs, base, base + i) && Shows(s, dst, now) && |now| == |col|
      invariant i > 0 ==> 0 <= dst < s.regCount && src.shape != [] && Times(shard, i) <= src.shape[0]
      invariant Splits(t, shard, n) ==> now == HandedOut(col, base, t, shard, n, i)
    {
      TimesRight(shard, i, n);
      TimesRight(shard, i + 1, n);
      ghost var regs := s.regs;
      r := ScatterOne(s, dst, src, base + i, ShardStart(i, shard), shard, now);
      OneMore(before, regs, s.regs, dst, base, base + i, base + n);
      if r.Err? { return; }
      now := now[base + i := Some(Slice(t, ShardStart(i, shard), shard))];
      if Splits(t, shard, n) { HandOutNext(col, base, t, shard, n, i); }
    }
    r := Ok(());
  }

  lemma NothingPut(regs: seq<seq<NDArray?>>, dst: int, base: nat)
    ensures Elsewhere(regs, regs, dst) && RowsOutside(regs, regs, base, base)
  {
  }

  lemma OneMore(
    before: seq<seq<NDArray?>>, regs: seq<seq<NDArray?>>, after: seq<seq<NDArray?>>, dst: int, from: nat, to: nat,
    end: nat)
    requires Elsewhere(before, regs, dst) && RowsOutside(before, regs, from, to) && from <= to < end
    requires Elsewhere(regs, after, dst) && RowsOutside(regs, after, to, to + 1)
    ensures Elsewhere(before, after, dst)
    ensures RowsOutside(before, after, from, to + 1) && RowsOutside(before, after, from, end)
  {
  }

  function ShardStart(i: nat, shard: nat): (n: nat)
    ensures n == Times(shard, i)
  {
    i * shard
  }

  /** Splits worker 0's array evenly over all workers. */
  method ScatterAll(
    s: Session, src: int, dst: int, ghost root: Option<Tensor>, ghost col: Column) returns (r: Outcome<()>)
    requires s.Valid() && (0 <= src < s.regCount ==> View(s.regs[0][src]) == root) && Shows(s, dst, col)
    modifies s
    ensures s.Valid() && s.regCount == old(s.regCount) && Elsewhere(old(s.regs), s.regs, dst)
    ensures r.Ok? <==> (
      0 <= src < s.regCount && 0 <= dst < s.regCount && root.Some? &&
      root.value.shape != [] && root.value.shape[0] % s.numWorkers == 0)
    ensures r.Ok? ==> var t, n := root.value, s.numWorkers;
      t.Valid() && t.shape[0] == Times(t.shape[0] / n, n) && Shows(s, dst, HandedOut(col, 0, t, t.shape[0] / n, n, n))
  {
    hide Times, Size, HandedOut;
    var got := s.GetRegister(0, src);
    if got.Err? { return Err(got.error); }
    var a := got.value;
    if a == null { return Err(UndefinedSource); }
    var n := s.numWorkers;
    if a.shape == [] || a.shape[0] % n != 0 { return Err(NotDivisible); }
    EvenSplit(a.shape[0], n);
    r := ScatterRange(s, dst, a, 0, n, a.shape[0] / n, col);
  }

  lemma EvenSplit(d: nat, n: nat)
    requires n > 0 && d % n == 0
    ensures d == Times(d / n, n)
  {
  }

  lemma GroupsAlwaysFit(workers: nat, groups: nat)
    requires groups > 0
    ensures GroupsFit(groups, workers / groups, workers) && (workers / groups > 0 <==> groups <= workers)
  {
    assert workers == groups * (workers / groups) + workers % groups;
  }

  /**
   Worker 0's array can be split, and so can the array on the first worker of every group that
   has one there, into parts of the size of worker 0's.
   */
  ghost predicate CanSplit(s: Session, src: Column)
    requires s.numGroups > 0 && |src| == s.numWorkers > 0
  {
    var per := s.numWorkers / s.numGroups;
    GroupsAlwaysFit(s.numWorkers, s.numGroups);
    per > 0 && src[0].Some? && src[0].value.shape != [] && src[0].value.shape[0] % per == 0
    && Splits(src[0].value, src[0].value.shape[0] / per, per)
    && forall g :: 0 <= g < s.numGroups ==>
         Times(per, g) < |src| && (src[Times(per, g)].Some? ==>
           Splits(src[Times(per, g)].value, src[0].value.shape[0] / per, per))
  }

  lemma CanSplitRoot(s: Session, src: Column)
    requires s.numGroups > 0 && |src| == s.numWorkers > 0
    ensures CanSplit(s, src) ==>
      s.numWorkers / s.numGroups > 0 && src[0].Some? && src[0].value.shape != []
      && src[0].value.shape[0] % (s.numWorkers / s.numGroups) == 0
  {
  }

  lemma SourcesSplit(s: Session, src: Column, g: nat)
    requires s.numGroups > 0 && |src| == s.numWorkers > 0 && CanSplit(s, src) && g < s.numGroups
    ensures var per := s.numWorkers / s.numGroups;
      per > 0 && GroupsFit(s.numGroups, per, |src|)
      && Splits(GroupSources(src, per, s.numGroups)[g], src[0].value.shape[0] / per, per)
  {
    hide Times, Splits;
    GroupsAlwaysFit(s.numWorkers, s.numGroups);
    assert Times(s.numWorkers / s.numGroups, g) < |src|;
  }

  lemma AllSourcesSplit(s: Session, src: Column)
    requires s.numGroups > 0 && |src| == s.numWorkers > 0 && CanSplit(s, src)
    ensures var per := s.numWorkers / s.numGroups;
      GroupsFit(s.numGroups, per, |src|)
      && forall g :: 0 <= g < s.numGroups ==>
           Splits(GroupSources(src, per, s.numGroups)[g], src[0].value.shape[0] / per, per)
  {
    hide Splits, CanSplit, Times;
    CanSplitRoot(s, src);
    GroupsAlwaysFit(s.numWorkers, s.numGroups);
    forall g | 0 <= g < s.numGroups
      ensures var per := s.numWorkers / s.numGroups;
        per > 0 && Splits(GroupSources(src, per, s.numGroups)[g], src[0].value.shape[0] / per, per)
    {
      SourcesSplit(s, src, g);
    }
  }

  lemma SplitBySources(s: Session, src: Column)
    requires s.numGroups > 0 && |src| == s.numWorkers > 0 && s.numWorkers / s.numGroups > 0
    requires src[0].Some? && src[0].value.shape != [] && src[0].value.shape[0] % (s.numWorkers / s.numGroups) == 0
    requires var per := s.numWorkers / s.numGroups;
      GroupsFit(s.numGroups, per, |src|)
      && forall g :: 0 <= g < s.numGroups ==>
           Splits(GroupSources(src, per, s.numGroups)[g], src[0].value.shape[0] / per, per)
    ensures CanSplit(s, src)
  {
    hide Times, Splits;
    var per := s.numWorkers / s.numGroups;
    TimesZero(per, 0);
    GroupsAlwaysFit(s.numWorkers, s.numGroups);
    forall g | 0 <= g < s.numGroups
      ensures Times(per, g) < |src|
      ensures src[Times(per, g)].Some? ==> Splits(src[Times(per, g)].value, src[0].value.shape[0] / per, per)
    {
      GroupRoom(s.numGroups, per, g);
      assert Splits(GroupSources(src, per, s.numGroups)[g], src[0].value.shape[0] / per, per);
    }
    assert Splits(GroupSources(src, per, s.numGroups)[0], src[0].value.shape[0] / per, per);
  }

  ghost function SplitByGroup(s: Session, src: Column, dst: Column): (r: Column)
    requires s.numGroups > 0 && |src| == |dst| == s.numWorkers > 0 && CanSplit(s, src)
    ensures |r| == |dst|
  {
    var per := s.numWorkers / s.numGroups;
    GroupsAlwaysFit(s.numWorkers, s.numGroups);
    AllSourcesSplit(s, src);
    SplitGroups(dst, GroupSources(src, per, s.numGroups), per, src[0].value.shape[0] / per, s.numGroups)
  }

  /**
   Worker `i` of group `g` gets the `i`-th part of the array on the group's first worker, or
   of worker 0's where there is none.
   */
  lemma GroupGets(s: Session, src: Column, dst: Column, g: nat, i: nat)
    requires s.numGroups > 0 && |src| == |dst| == s.numWorkers > 0 && CanSplit(s, src)
    requires g < s.numGroups && i < s.numWorkers / s.numGroups
    ensures var per := s.numWorkers / s.numGroups;
      var first, shard := Times(per, g), src[0].value.shape[0] / per;
      first + i < |src|
      && Times(shard, i) + shard <= (if src[first].Some? then src[first] else src[0]).value.shape[0]
      && SplitByGroup(s, src, dst)[first + i] ==
        Some(Slice((if src[first].Some? then src[first] else src[0]).value, Times(shard, i), shard))
  {
    hide Times, Slice, CanSplit;
    CanSplitRoot(s, src);
    var per := s.numWorkers / s.numGroups;
    GroupsAlwaysFit(s.numWorkers, s.numGroups);
    AllSourcesSplit(s, src);
    var ts, shard := GroupSources(src, per, s.numGroups), src[0].value.shape[0] / per;
    GroupParts(dst, ts, per, shard, s.numGroups, g, i);
    ShardFits(ts[g], shard, per, i);
  }

  /** A worker beyond the last group keeps what it had. */
  lemma OthersKeep(s: Session, src: Column, dst: Column, w: nat)
    requires s.numGroups > 0 && |src| == |dst| == s.numWorkers > 0 && CanSplit(s, src)
    requires Times(s.numWorkers / s.numGroups, s.numGroups) <= w < s.numWorkers
    ensures SplitByGroup(s, src, dst)[w] == dst[w]
  {
    hide Times, Slice, CanSplit;
    CanSplitRoot(s, src);
    var per := s.numWorkers / s.numGroups;
    GroupsAlwaysFit(s.numWorkers, s.numGroups);
    AllSourcesSplit(s, src);
    BeyondGroups(dst, GroupSources(src, per, s.numGroups), per, src[0].value.shape[0] / per, s.numGroups, w);
  }

  /** Splits an array of each group over the workers of the group, in parts sized for worker 0's array. */
  method ScatterGroups(s: Session, src: int, dst: int, ghost from: Column, ghost to: Column) returns (r: Outcome<()>)
    requires s.Valid() && Shows(s, src, from) && Shows(s, dst, to)
    modifies s
    ensures s.Valid() && s.regCount == old(s.regCount) && Elsewhere(old(s.regs), s.regs, dst)
    ensures r.Ok? <==> 0 <= src < s.regCount && 0 <= dst < s.regCount && CanSplit(s, from)
    ensures r.Ok? ==> Shows(s, dst, SplitByGroup(s, from, to))
  {
    hide Times, Size, HandedOut, Splits, SplitGroups, GroupSource, GroupsFit, CanSplit;
    CanSplitRoot(s, from);
    var per := s.numWorkers / s.numGroups;
    GroupsAlwaysFit(s.numWorkers, s.numGroups);
    var got := s.GetRegister(0, src);
    if got.Err? { return Err(got.error); }
    var root := got.value;
    if root == null { return Err(UndefinedSource); }
    if per == 0 { return Err(DivisionByZero); }
    if root.shape == [] || root.shape[0] % per != 0 { return Err(NotDivisible); }
    var shard := root.shape[0] / per;
    ghost var ts := GroupSources(from, per, s.numGroups);
    ghost var before := s.regs;
    SplitStart(to, ts, per, shard);
    for g := 0 to s.numGroups
      invariant s.Valid() && s.regCount == old(s.regCount) && Elsewhere(before, s.regs, dst)
      invariant Times(per, g) <= s.numWorkers && RowsOutside(before, s.regs, 0, Times(per, g))
      invariant g > 0 ==> 0 <= dst < s.regCount
      invariant forall k :: 0 <= k < g ==> Splits(ts[k], shard, per)
      invariant Shows(s, dst, SplitGroups(to, ts, per, shard, g))
    {
      ghost var col := SplitGroups(to, ts, per, shard, g);
      var source := GroupArray(s, src, g, per, root, from, before);
      r := ScatterRange(s, dst, source, ShardStart(g, per), per, shard, col);
      if r.Err? {
        if CanSplit(s, from) { SourcesSplit(s, from, g); }
        return;
      }
      SplitNext(to, ts, per, shard, g);
    }
    SplitBySources(s, from);
    r := Ok(());
  }

  lemma SplitStart(col: Column, ts: seq<Tensor>, per: nat, shard: nat)
    requires GroupsFit(|ts|, per, |col|)
    ensures SplitGroups(col, ts, per, shard, 0) == col && Times(per, 0) == 0
  {
  }

  lemma SplitNext(col: Column, ts: seq<Tensor>, per: nat, shard: nat, g: nat)
    requires g < |ts| && GroupsFit(|ts|, per, |col|) && forall k :: 0 <= k <= g ==> Splits(ts[k], shard, per)
    ensures Times(per, g) + per == Times(per, g + 1) <= |col|
    ensures SplitGroups(col, ts, per, shard, g + 1) ==
      HandedOut(SplitGroups(col, ts, per, shard, g), Times(per, g), ts[g], shard, per, per)
  {
    GroupRoom(|ts|, per, g);
  }

  /** The array group `g` splits, read while the rows from the group's first worker on are untouched. */
  method GroupArray(
    s: Session, src: int, g: nat, per: nat, root: NDArray, ghost from: Column, ghost before: seq<seq<NDArray?>>)
    returns (a: NDArray)
    requires s.Valid() && 0 <= src < s.regCount && per > 0 && g < s.numGroups && |from| == s.numWorkers
    requires GroupsFit(s.numGroups, per, s.numWorkers) && from[0] == Some(Value(root)) && root.Valid()
    requires RowsOutside(before, s.regs, 0, Times(per, g))
    requires forall w :: 0 <= w < |before| ==> |before[w]| == s.regCount && View(before[w][src]) == from[w]
    ensures a.Valid() && Times(per, g) + per <= s.numWorkers && Value(a) == GroupSources(from, per, s.numGroups)[g]
  {
    GroupRoom(s.numGroups, per, g);
    var own := s.GetRegister(g * per, src);
    assert g * per == Times(per, g);
    var source := own.value;
    if source == null { a := root; } else { a := source; }
  }

  // ---------- gather ----------

  /** The tensors of a column, with a placeholder where there is none. */
  ghost function Filled(col: Column): (ts: seq<Tensor>)
    ensures |ts| == |col| && forall i :: 0 <= i < |col| && col[i].Some? ==> ts[i] == col[i].value
  {
    seq(|col|, i requires 0 <= i < |col| => match col[i] case Some(t) => t case None => Tensor([], []))
  }

  /** Joins the arrays of `n` workers starting at `base` on the first of them. */
  method GatherRange(s: Session, src: int, dst: int, base: nat, n: nat, ghost group: Column, ghost to: Column)
    returns (r: Outcome<()>)
    requires s.Valid() && base < s.numWorkers && base + n <= s.numWorkers
    requires Stackable(group) && |group| == n && Shows(s, dst, to)
    requires 0 <= src < s.regCount ==> forall i :: 0 <= i < n ==> View(s.regs[base + i][src]) == group[i]
    modifies s
    ensures s.Valid() && s.regCount == old(s.regCount) && Elsewhere(old(s.regs), s.regs, dst)
    ensures RowsOutside(old(s.regs), s.regs, base, base + 1)
    ensures r.Ok? <==> (n > 0 ==> 0 <= src < s.regCount) && 0 <= dst < s.regCount && Collected(group).Some?
    ensures r.Ok? ==> Shows(s, dst, to[base := Collected(group).value])
  {
    hide Times, Size, Join;
    var arrays: seq<NDArray?> := [];
    for i := 0 to n
      invariant s.Valid() && s.regs == old(s.regs) && s.regCount == old(s.regCount)
      invariant |arrays| == i && (i > 0 ==> 0 <= src < s.regCount)
      invariant forall k :: 0 <= k < i ==> arrays[k] == s.regs[base + k][src]
    {
      var got := s.GetRegister(base + i, src);
      if got.Err? { return Err(got.error); }
      arrays := arrays + [got.value];
    }
    ghost var ts := Filled(group);
    Shared(arrays, group);
    var joined := ConcatFirstDim(arrays, ts);
    if joined.Err? { return Err(joined.error); }
    assert View(joined.value) == Collected(group).value by {
      if n > 0 && group[0].Some? { assert Present(group) == ts; }
    }
    r := s.SetRegister(base, dst, joined.value);
  }

  /** Arrays and the column they show agree on what is there. */
  lemma Shared(arrays: seq<NDArray?>, group: Column)
    requires |arrays| == |group| && forall i :: 0 <= i < |group| ==> View(arrays[i]) == group[i]
    ensures Hold(arrays, Filled(group)) && (AllDefined(arrays) <==> AllThere(group))
    ensures Stackable(group) ==> StackableArrays(arrays)
  {
    forall i | 0 <= i < |group| ensures arrays[i] != null <==> group[i].Some? {
    }
  }

  /** Joins the arrays of all workers on worker 0. */
  method GatherAll(s: Session, src: int, dst: int, ghost from: Column, ghost to: Column) returns (r: Outcome<()>)
    requires s.Valid() && Shows(s, src, from) && Shows(s, dst, to) && Stackable(from)
    modifies s
    ensures s.Valid() && s.regCount == old(s.regCount) && Elsewhere(old(s.regs), s.regs, dst)
    ensures r.Ok? <==> 0 <= src < s.regCount && 0 <= dst < s.regCount && Collected(from).Some?
    ensures r.Ok? ==> Shows(s, dst, to[0 := Collected(from).value])
  {
    hide Stackable, Collected;
    r := GatherRange(s, src, dst, 0, s.numWorkers, from, to);
  }

  /** Groups without workers leave worker 0 with nothing. */
  method GatherNothing(s: Session, src: int, dst: int, ghost to: Column) returns (r: Outcome<()>)
    requires s.Valid() && Shows(s, dst, to)
    modifies s
    ensures s.Valid() && s.regCount == old(s.regCount) && Elsewhere(old(s.regs), s.regs, dst)
    ensures r.Ok? <==> 0 <= dst < s.regCount
    ensures r.Ok? ==> Shows(s, dst, to[0 := None])
  {
    ghost var before := s.regs;
    for g := 0 to s.numGroups
      invariant s.Valid() && s.regCount == old(s.regCount) && Elsewhere(before, s.regs, dst)
      invariant g > 0 ==> 0 <= dst < s.regCount
      invariant Shows(s, dst, if g == 0 then to else to[0 := None])
    {
      r := GatherRange(s, src, dst, 0, 0, [], if g == 0 then to else to[0 := None]);
      if r.Err? { return; }
    }
    r := Ok(());
  }

  /** Joins the arrays of each group of `per` workers on the first worker of the group. */
  method GatherByGroup(
    s: Session, src: int, dst: int, per: nat, ghost from: Column, ghost to: Column) returns (r: Outcome<()>)
    requires s.Valid() && Shows(s, src, from) && Shows(s, dst, to) && per > 0
      && GroupsFit(s.numGroups, per, s.numWorkers)
    requires forall g :: 0 <= g < s.numGroups ==> Stackable(Group(from, per, s.numGroups, g))
    modifies s
    ensures s.Valid() && s.regCount == old(s.regCount) && Elsewhere(old(s.regs), s.regs, dst)
    ensures var col := CollectGroups(to, from, per, s.numGroups, s.numGroups);
      (r.Ok? <==> 0 <= src < s.regCount && 0 <= dst < s.regCount && col.Some?) && (r.Ok? ==> Shows(s, dst, col.value))
  {
    hide Times, Size, Stackable, Collected, GroupsFit, CollectGroups;
    ghost var before := s.regs;
    CollectNone(to, from, per, s.numGroups);
    for g := 0 to s.numGroups
      invariant s.Valid() && s.regCount == old(s.regCount) && Elsewhere(before, s.regs, dst)
      invariant Times(per, g) <= s.numWorkers && RowsOutside(before, s.regs, 0, Times(per, g))
      invariant g > 0 ==> 0 <= src < s.regCount && 0 <= dst < s.regCount
      invariant CollectGroups(to, from, per, s.numGroups, g).Some?
      invariant Shows(s, dst, CollectGroups(to, from, per, s.numGroups, g).value)
    {
      GroupRoomOn(s, per, g);
      CollectNext(to, from, per, s.numGroups, g);
      ghost var col := CollectGroups(to, from, per, s.numGroups, g).value;
      r := GatherRange(s, src, dst, ShardStart(g, per), per, Group(from, per, s.numGroups, g), col);
      if r.Err? {
        CollectStops(to, from, per, s.numGroups, g);
        return;
      }
    }
    r := Ok(());
  }

  lemma CollectNone(dst: Column, src: Column, per: nat, groups: nat)
    requires |src| == |dst| && per > 0 && GroupsFit(groups, per, |src|)
    requires forall k :: 0 <= k < groups ==> Stackable(Group(src, per, groups, k))
    ensures CollectGroups(dst, src, per, groups, 0) == Some(dst) && Times(per, 0) == 0
  {
  }

  lemma CollectNext(dst: Column, src: Column, per: nat, groups: nat, g: nat)
    requires |src| == |dst| && per > 0 && g < groups && GroupsFit(groups, per, |src|)
    requires forall k :: 0 <= k < groups ==> Stackable(Group(src, per, groups, k))
    requires CollectGroups(dst, src, per, groups, g).Some?
    ensures Times(per, g) < |dst|
    ensures var own := Collected(Group(src, per, groups, g));
      CollectGroups(dst, src, per, groups, g + 1) ==
        if own.None? then None else Some(CollectGroups(dst, src, per, groups, g).value[Times(per, g) := own.value])
  {
    hide Times, Collected, Stackable;
    GroupRoom(groups, per, g);
  }

  lemma GroupRoomOn(s: Session, per: nat, g: nat)
    requires g < s.numGroups && GroupsFit(s.numGroups, per, s.numWorkers)
    ensures Times(per, g) + per == Times(per, g + 1) <= s.numWorkers
  {
    GroupRoom(s.numGroups, per, g);
  }

  /** Joins the arrays of each group on its first worker; with more groups than workers worker 0 ends with nothing. */
  method GatherGroups(s: Session, src: int, dst: int, ghost from: Column, ghost to: Column) returns (r: Outcome<()>)
    requires s.Valid() && Shows(s, src, from) && Shows(s, dst, to)
    requires GroupsFit(s.numGroups, s.numWorkers / s.numGroups, s.numWorkers)
    requires forall g :: 0 <= g < s.numGroups ==> Stackable(Group(from, s.numWorkers / s.numGroups, s.numGroups, g))
    modifies s
    ensures s.Valid() && s.regCount == old(s.regCount) && Elsewhere(old(s.regs), s.regs, dst)
    ensures s.numGroups > s.numWorkers ==>
      (r.Ok? <==> 0 <= dst < s.regCount) && (r.Ok? ==> Shows(s, dst, to[0 := None]))
    ensures s.numGroups <= s.numWorkers ==>
      s.numWorkers / s.numGroups > 0 &&
      var col := CollectGroups(to, from, s.numWorkers / s.numGroups, s.numGroups, s.numGroups);
      (r.Ok? <==> 0 <= src < s.regCount && 0 <= dst < s.regCount && col.Some?) && (r.Ok? ==> Shows(s, dst, col.value))
  {
    hide Times, Size, Stackable, Collected, CollectGroups, GroupsFit, Group, Shows;
    var per := s.numWorkers / s.numGroups;
    GroupsAlwaysFit(s.numWorkers, s.numGroups);
    if per == 0 {
      r := GatherNothing(s, src, dst, to);
    } else {
      r := GatherByGroup(s, src, dst, per, from, to);
    }
  }

  lemma {:induction false} CollectStops(dst: Column, src: Column, per: nat, groups: nat, g: nat)
    requires |src| == |dst| && per > 0 && g < groups && GroupsFit(groups, per, |src|)
    requires forall k :: 0 <= k < groups ==> Stackable(Group(src, per, groups, k))
    ensures Collected(Group(src, per, groups, g)).None? ==> CollectGroups(dst, src, per, groups, groups).None?
  {
    StaysStopped(dst, src, per, groups, g, groups);
  }

  lemma {:induction false} StaysStopped(dst: Column, src: Column, per: nat, groups: nat, g: nat, n: nat)
    requires |src| == |dst| && per > 0 && g < n <= groups && GroupsFit(groups, per, |src|)
    requires forall k :: 0 <= k < groups ==> Stackable(Group(src, per, groups, k))
    ensures Collected(Group(src, per, groups, g)).None? ==> CollectGroups(dst, src, per, groups, n).None?
    decreases n
  {
    hide Collected, Stackable;
    if g < n - 1 { StaysStopped(dst, src, per, groups, g, n - 1); }
  }

  // ---------- there and back ----------

  /** Scattering worker 0's array and gathering the parts restores it on worker 0. */
  method ScatterGatherAll(
    s: Session, src: nat, mid: nat, dst: nat, ghost from: Column, ghost via: Column, ghost to: Column)
    requires s.Valid() && src < s.regCount && mid < s.regCount && dst < s.regCount
    requires Shows(s, src, from) && Shows(s, mid, via) && Shows(s, dst, to)
    requires from[0].Some? && from[0].value.shape != [] && from[0].value.shape[0] % s.numWorkers == 0
    modifies s
    ensures s.Valid() && s.regCount == old(s.regCount) && View(s.regs[0][dst]) == from[0]
  {
    hide Times, Size, Stackable, Collected, Shard;
    var r := ScatterAll(s, src, mid, from[0], via);
    ghost var t, n := from[0].value, s.numWorkers;
    ghost var parts := HandedOut(via, 0, t, t.shape[0] / n, n, n);
    CollectShards(parts, t, t.shape[0] / n, n);
    r := GatherAll(s, mid, dst, parts, if mid == dst then parts else to);
  }

  /**
   The array on the group's first worker, or worker 0's where there is none, is back there
   exactly when it has worker 0's first dimension.
   */
  ghost predicate Restored(s: Session, dst: nat, from: Column, first: nat)
    requires first < |from| && from[0].Some? && from[0].value.shape != []
    reads s, set w | 0 <= w < |s.regs| && dst < |s.regs[w]| && s.regs[w][dst] != null :: s.regs[w][dst].data
  {
    var own := if from[first].Some? then from[first] else from[0];
    first < |s.regs| && dst < |s.regs[first]| && own.value.shape != []
    && (View(s.regs[first][dst]) == own <==> own.value.shape[0] == from[0].value.shape[0])
  }

  /**
   In groups, the array that was on a group's first worker comes back there exactly when it
   has worker 0's first dimension; a group without one gets worker 0's.
   */
  method ScatterGatherGroups(
    s: Session, src: nat, mid: nat, dst: nat, ghost per: nat, ghost from: Column, ghost via: Column, ghost to: Column)
    requires s.Valid() && src < s.regCount && mid < s.regCount && dst < s.regCount && per == s.numWorkers / s.numGroups
    requires Shows(s, src, from) && Shows(s, mid, via) && Shows(s, dst, to) && CanSplit(s, from)
    modifies s
    ensures s.Valid() && s.regCount == old(s.regCount)
    ensures forall g :: 0 <= g < s.numGroups ==> Times(per, g) < |from| && Restored(s, dst, from, Times(per, g))
  {
    hide Times, Size, Stackable, Collected, CollectGroups, SplitByGroup, GroupsFit, Group, Restored, CanSplit, Back;
    ShowsSize(s, src, from);
    ShowsSize(s, mid, via);
    ShowsSize(s, dst, to);
    CanSplitRoot(s, from);
    GroupsAlwaysFit(s.numWorkers, s.numGroups);
    var r := ScatterGroups(s, src, mid, from, via);
    ghost var parts := SplitByGroup(s, from, via);
    ghost var before := if mid == dst then parts else to;
    SplitComesBack(s, from, via, before, per);
    r := GatherGroups(s, mid, dst, parts, before);
    forall g | 0 <= g < s.numGroups ensures Times(per, g) < |from| && Restored(s, dst, from, Times(per, g)) {
      ShowsBack(s, dst, from, CollectGroups(before, parts, per, s.numGroups, s.numGroups).value, Times(per, g));
    }
  }

  lemma ShowsSize(s: Session, reg: int, col: Column)
    requires Shows(s, reg, col)
    ensures |col| == |s.regs|
  {
  }

  /** What `Restored` says, on the column. */
  ghost predicate Back(from: Column, col: Column, first: nat)
    requires first < |from| && from[0].Some? && from[0].value.shape != []
  {
    var own := if from[first].Some? then from[first] else from[0];
    first < |col| && own.value.shape != []
    && (col[first] == own <==> own.value.shape[0] == from[0].value.shape[0])
  }

  lemma ShowsBack(s: Session, dst: nat, from: Column, col: Column, first: nat)
    requires s.Valid() && dst < s.regCount && Shows(s, dst, col)
    requires first < |from| && from[0].Some? && from[0].value.shape != [] && Back(from, col, first)
    ensures Restored(s, dst, from, first)
  {
    assert View(s.regs[first][dst]) == col[first];
  }

  lemma SplitComesBack(s: Session, from: Column, via: Column, before: Column, per: nat)
    requires s.numGroups > 0 && |from| == |via| == |before| == s.numWorkers > 0 && CanSplit(s, from)
    requires per == s.numWorkers / s.numGroups
    ensures var parts, n := SplitByGroup(s, from, via), s.numGroups;
      per > 0 && GroupsFit(n, per, s.numWorkers) && from[0].Some? && from[0].value.shape != []
      && (forall g :: 0 <= g < n ==> Stackable(Group(parts, per, n, g)))
      && CollectGroups(before, parts, per, n, n).Some?
      && forall g :: 0 <= g < n ==>
           Times(per, g) < |from| && Back(from, CollectGroups(before, parts, per, n, n).value, Times(per, g))
  {
    hide Times, Stackable, Collected, Shard, CollectGroups, SplitGroups, Group, CanSplit, Splits;
    CanSplitRoot(s, from);
    GroupsAlwaysFit(s.numWorkers, s.numGroups);
    AllSourcesSplit(s, from);
    var n, ts, shard := s.numGroups, GroupSources(from, per, s.numGroups), from[0].value.shape[0] / per;
    EvenSplit(from[0].value.shape[0], per);
    SplitThenCollect(via, before, ts, per, shard, 0);
    forall g | 0 <= g < n
      ensures Times(per, g) < |from|
      ensures Back(from, CollectGroups(before, SplitByGroup(s, from, via), per, n, n).value, Times(per, g))
    {
      GroupRoom(n, per, g);
      SplitThenCollect(via, before, ts, per, shard, g);
      assert Splits(ts[g], shard, per) && Some(ts[g]) == GroupSource(from, per, n, g);
      SplitsHasShape(ts[g], shard, per);
    }
  }

  lemma SplitsHasShape(t: Tensor, shard: nat, n: nat)
    requires Splits(t, shard, n)
    ensures t.shape != []
  {
  }
}
