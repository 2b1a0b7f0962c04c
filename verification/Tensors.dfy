/** Flat tensors cut along and joined on their first dimension. */
module Tensors {
  import opened Base
  import opened IndexSpace

  datatype Tensor = Tensor(shape: seq<nat>, data: seq<real>) {
    predicate Valid() {
      |data| == Size(shape)
    }

    /** The number of elements under one index of the first dimension. */
    function Inner(): nat
      requires shape != []
    {
      Size(shape[1..])
    }
  }

  function Times(a: nat, b: nat): nat {
    a * b
  }

  lemma TimesFacts(a: nat, b: nat, c: nat)
    ensures Times(a + b, c) == Times(a, c) + Times(b, c)
    ensures a <= b ==> Times(a, c) <= Times(b, c)
    ensures Times(0, c) == 0
  {
    if a <= b { assert b * c == a * c + (b - a) * c; }
  }

  lemma FirstDim(t: Tensor)
    requires t.Valid() && t.shape != []
    ensures |t.data| == Times(t.shape[0], t.Inner())
  {
  }

  /** The part with first indices `start .. start + len`. */
  function Slice(t: Tensor, start: nat, len: nat): (r: Tensor)
    requires t.Valid() && t.shape != [] && start + len <= t.shape[0]
    ensures r.Valid() && r.shape == [len] + t.shape[1..]
  {
    var n := t.Inner();
    FirstDim(t);
    TimesFacts(start + len, t.shape[0], n);
    TimesFacts(start, start + len, n);
    TimesFacts(start, len, n);
    var r := Tensor([len] + t.shape[1..], t.data[Times(start, n)..Times(start + len, n)]);
    assert r.shape[1..] == t.shape[1..];
    r
  }

  /** Tensors that can be joined behind tensors with `n` elements per first index. */
  predicate Joinable(ts: seq<Tensor>, n: nat) {
    forall i :: 0 <= i < |ts| ==> ts[i].shape != [] && Times(ts[i].shape[0], n) <= |ts[i].data|
  }

  function FirstDims(ts: seq<Tensor>): nat
    requires forall i :: 0 <= i < |ts| ==> ts[i].shape != []
  {
    if ts == [] then 0 else FirstDims(ts[..|ts| - 1]) + ts[|ts| - 1].shape[0]
  }

  function JoinData(ts: seq<Tensor>, n: nat): (r: seq<real>)
    requires Joinable(ts, n)
    ensures |r| == Times(FirstDims(ts), n)
  {
    if ts == [] then TimesFacts(0, 0, n); [] else
    var last := ts[|ts| - 1];
    TimesFacts(FirstDims(ts[..|ts| - 1]), last.shape[0], n);
    JoinData(ts[..|ts| - 1], n) + last.data[..Times(last.shape[0], n)]
  }

  /** The tensors one after the other; the first one decides the remaining dimensions. */
  function Join(ts: seq<Tensor>): (r: Tensor)
    requires ts != [] && ts[0].shape != [] && Joinable(ts, ts[0].Inner())
    ensures r.Valid()
  {
    var r := Tensor([FirstDims(ts)] + ts[0].shape[1..], JoinData(ts, ts[0].Inner()));
    assert r.shape[1..] == ts[0].shape[1..];
    r
  }

  // ---------- cutting and joining ----------

  lemma TimesRight(a: nat, b: nat, c: nat)
    ensures Times(a, b + 1) == Times(a, b) + a
    ensures b <= c ==> Times(a, b) <= Times(a, c)
  {
    if b <= c { assert a * c == a * b + a * (c - b); }
  }

  lemma ShardFits(t: Tensor, shard: nat, n: nat, k: nat)
    requires t.shape != [] && Times(shard, n) <= t.shape[0] && k < n
    ensures Times(shard, k) + shard == Times(shard, k + 1) <= t.shape[0]
  {
    hide Times;
    TimesRight(shard, k, n);
    TimesRight(shard, k + 1, n);
  }

  /** The `k`-th of `n` parts of `shard` rows. */
  function Shard(t: Tensor, shard: nat, n: nat, k: nat): (r: Tensor)
    requires t.Valid() && t.shape != [] && Times(shard, n) <= t.shape[0] && k < n
    ensures r.Valid() && r.shape == [shard] + t.shape[1..]
  {
    ShardFits(t, shard, n, k);
    Slice(t, Times(shard, k), shard)
  }

  function Shards(t: Tensor, shard: nat, n: nat): (r: seq<Tensor>)
    requires t.Valid() && t.shape != [] && Times(shard, n) <= t.shape[0]
    ensures |r| == n && forall k :: 0 <= k < n ==> r[k] == Shard(t, shard, n, k)
  {
    seq(n, k requires 0 <= k < n => Shard(t, shard, n, k))
  }

  lemma ShardsJoinable(t: Tensor, shard: nat, n: nat)
    requires t.Valid() && t.shape != [] && Times(shard, n) <= t.shape[0]
    ensures Joinable(Shards(t, shard, n), t.Inner())
  {
    forall k | 0 <= k < n
      ensures Shards(t, shard, n)[k].shape != []
        && Times(Shards(t, shard, n)[k].shape[0], t.Inner()) <= |Shards(t, shard, n)[k].data|
    {
      var s := Shard(t, shard, n, k);
      FirstDim(s);
      assert s.shape[1..] == t.shape[1..];
    }
  }

  /** The first `k` parts joined are the first `k * shard` rows. */
  lemma {:induction false} JoinPrefix(t: Tensor, shard: nat, n: nat, k: nat)
    requires t.Valid() && t.shape != [] && Times(shard, n) <= t.shape[0] && k <= n
    ensures Joinable(Shards(t, shard, n)[..k], t.Inner())
    ensures FirstDims(Shards(t, shard, n)[..k]) == Times(shard, k)
    ensures Times(Times(shard, k), t.Inner()) <= |t.data|
    ensures JoinData(Shards(t, shard, n)[..k], t.Inner()) == t.data[..Times(Times(shard, k), t.Inner())]
    decreases k
  {
    hide Times, Slice, Size;
    var ts, m := Shards(t, shard, n), t.Inner();
    ShardsJoinable(t, shard, n);
    FirstDim(t);
    if k == 0 {
      TimesZero(shard, m);
    } else {
      JoinPrefix(t, shard, n, k - 1);
      assert ts[..k][..k - 1] == ts[..k - 1];
      ShardRows(t, shard, n, k - 1);
    }
  }

  /** A part holds the rows from the end of the part before it. */
  lemma ShardRows(t: Tensor, shard: nat, n: nat, k: nat)
    requires t.Valid() && t.shape != [] && Times(shard, n) <= t.shape[0] && k < n
    ensures var m, s := t.Inner(), Shard(t, shard, n, k);
      var from, to := Times(Times(shard, k), m), Times(Times(shard, k + 1), m);
      Times(shard, k) + shard == Times(shard, k + 1) && from <= to <= |t.data| && |s.data| == Times(shard, m)
      && s.data[..Times(shard, m)] == t.data[from..to] && t.data[..to] == t.data[..from] + t.data[from..to]
  {
    hide Times;
    var m, s := t.Inner(), Shard(t, shard, n, k);
    ShardFits(t, shard, n, k);
    TimesFacts(Times(shard, k), shard, m);
    TimesFacts(Times(shard, k + 1), t.shape[0], m);
    FirstDim(t);
    FirstDim(s);
    assert s.shape[1..] == t.shape[1..];
  }

  lemma TimesZero(shard: nat, m: nat)
    ensures Times(shard, 0) == 0 && Times(0, m) == 0
  {
  }

  /** Joining the equal parts of a tensor gives the tensor back. */
  lemma JoinShards(t: Tensor, shard: nat, n: nat)
    requires t.Valid() && t.shape != [] && t.shape[0] == Times(shard, n) && n > 0
    ensures Joinable(Shards(t, shard, n), t.Inner()) && Shards(t, shard, n)[0].shape[1..] == t.shape[1..]
    ensures Join(Shards(t, shard, n)) == t
  {
    hide Times;
    var ts := Shards(t, shard, n);
    JoinPrefix(t, shard, n, n);
    assert ts[..n] == ts;
    FirstDim(t);
    assert ts[0].shape[1..] == t.shape[1..];
    assert [t.shape[0]] + t.shape[1..] == t.shape;
  }

  // ---------- sums ----------

  /** The sum of the elements at one position over the tensors that are there. */
  function ColumnSum(ts: seq<Option<Tensor>>, i: nat): real {
    if ts == [] then 0.0 else
    ColumnSum(ts[..|ts| - 1], i) + (
      match ts[|ts| - 1]
      case Some(t) => if i < |t.data| then t.data[i] else 0.0
      case None => 0.0)
  }

  /** The first tensor that is there. */
  function First(ts: seq<Option<Tensor>>): Option<Tensor> {
    if ts == [] then None else if ts[0].Some? then ts[0] else First(ts[1..])
  }

  ghost predicate SameSize(ts: seq<Option<Tensor>>) {
    forall i, j :: 0 <= i < |ts| && 0 <= j < |ts| && ts[i].Some? && ts[j].Some? ==>
      |ts[i].value.data| == |ts[j].value.data|
  }

  /** The sum tensor: the shape of the first one, element by element the sum of all. */
  function Summed(ts: seq<Option<Tensor>>): Option<Tensor> {
    match First(ts)
    case None => None
    case Some(t) => Some(Tensor(t.shape, seq(|t.data|, i requires 0 <= i < |t.data| => ColumnSum(ts, i))))
  }

  /** Of one tensor the sum is the tensor, of none there is none. */
  lemma SumOfOne(t: Tensor)
    ensures Summed([Some(t)]) == Some(t) && Summed([None]) == None && Summed([]) == None
  {
    var one: seq<Option<Tensor>>, none: seq<Option<Tensor>> := [Some(t)], [None];
    assert one[..0] == [] && none[1..] == [];
    forall i: nat | i < |t.data| ensures ColumnSum(one, i) == t.data[i] {
      assert ColumnSum(one[..0], i) == 0.0;
    }
    assert First(one) == Some(t) && First(none[1..]) == None;
    assert Summed(one).value.data == t.data;
  }

  /** The sum over two lists of tensors is the sum over both, element by element, whatever is missing. */
  lemma {:induction false} SumOfBoth(a: seq<Option<Tensor>>, b: seq<Option<Tensor>>, i: nat)
    ensures ColumnSum(a + b, i) == ColumnSum(a, i) + ColumnSum(b, i)
    decreases |b|
  {
    if b == [] {
      assert a + b == a;
    } else {
      var n := |b| - 1;
      assert (a + b)[..|a| + n] == a + b[..n];
      SumOfBoth(a, b[..n], i);
    }
  }
}
