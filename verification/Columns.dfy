/** What the collectives do to a register seen across all workers. */
module Columns {
  import opened Base
  import opened Tensors

  /** The tensors a register holds, worker by worker. */
  type Column = seq<Option<Tensor>>

  // ---------- scatter ----------

  predicate Splits(t: Tensor, shard: nat, n: nat) {
    t.Valid() && t.shape != [] && Times(shard, n) <= t.shape[0]
  }

  /** The first `i` of `n` parts handed out to the workers from `base` on. */
  function HandedOut(col: Column, base: nat, t: Tensor, shard: nat, n: nat, i: nat): (r: Column)
    requires Splits(t, shard, n) && i <= n && base + n <= |col|
    ensures |r| == |col|
  {
    seq(|col|, w requires 0 <= w < |col| =>
      if base <= w < base + i then Some(Shard(t, shard, n, w - base)) else col[w])
  }

  lemma HandOutNext(col: Column, base: nat, t: Tensor, shard: nat, n: nat, i: nat)
    requires Splits(t, shard, n) && i < n && base + n <= |col|
    ensures HandedOut(col, base, t, shard, n, i + 1) ==
      HandedOut(col, base, t, shard, n, i)[base + i := Some(Shard(t, shard, n, i))]
  {
  }

  lemma HandOutStart(col: Column, base: nat, t: Tensor, shard: nat, n: nat)
    requires Splits(t, shard, n) && base + n <= |col|
    ensures HandedOut(col, base, t, shard, n, 0) == col
  {
  }

  /** Groups of `per` workers, as many as there are tensors, fit on the workers. */
  predicate GroupsFit(groups: nat, per: nat, workers: nat) {
    Times(per, groups) <= workers
  }

  /** The first `g` groups have split their tensors among their workers. */
  function SplitGroups(col: Column, ts: seq<Tensor>, per: nat, shard: nat, g: nat): (r: Column)
    requires g <= |ts| && GroupsFit(|ts|, per, |col|) && forall k :: 0 <= k < g ==> Splits(ts[k], shard, per)
    ensures |r| == |col|
  {
    if g == 0 then col else
    GroupRoom(|ts|, per, g - 1);
    HandedOut(SplitGroups(col, ts, per, shard, g - 1), Times(per, g - 1), ts[g - 1], shard, per, per)
  }

  lemma GroupRoom(groups: nat, per: nat, g: nat)
    requires g < groups
    ensures Times(per, g) + per == Times(per, g + 1) <= Times(per, groups)
  {
    hide Times;
    TimesRight(per, g, groups);
    TimesRight(per, g + 1, groups);
  }

  /** Worker `i` of group `g` ends up with the `i`-th part of the group's tensor. */
  lemma {:induction false} GroupParts(col: Column, ts: seq<Tensor>, per: nat, shard: nat, n: nat, g: nat, i: nat)
    requires n <= |ts| && GroupsFit(|ts|, per, |col|) && (forall k :: 0 <= k < n ==> Splits(ts[k], shard, per))
    requires g < n && i < per
    ensures Times(per, g) + i < |col|
    ensures SplitGroups(col, ts, per, shard, n)[Times(per, g) + i] == Some(Shard(ts[g], shard, per, i))
    decreases n
  {
    hide Times, Shard;
    GroupRoom(|ts|, per, n - 1);
    GroupRoom(|ts|, per, g);
    if g < n - 1 {
      TimesRight(per, g + 1, n - 1);
      GroupParts(col, ts, per, shard, n - 1, g, i);
    }
  }

  /** Workers beyond the groups keep what they had. */
  lemma {:induction false} BeyondGroups(col: Column, ts: seq<Tensor>, per: nat, shard: nat, g: nat, w: nat)
    requires g <= |ts| && GroupsFit(|ts|, per, |col|) && forall k :: 0 <= k < g ==> Splits(ts[k], shard, per)
    requires Times(per, |ts|) <= w < |col|
    ensures SplitGroups(col, ts, per, shard, g)[w] == col[w]
    decreases g
  {
    hide Times, Shard;
    if g > 0 {
      GroupRoom(|ts|, per, g - 1);
      BeyondGroups(col, ts, per, shard, g - 1, w);
    }
  }

  /** What group `g` splits: its first worker's tensor, or worker 0's when that one has none. */
  function GroupSource(src: Column, per: nat, groups: nat, g: nat): Option<Tensor>
    requires per > 0 && g < groups && GroupsFit(groups, per, |src|)
  {
    GroupRoom(groups, per, g);
    if src[Times(per, g)].Some? then src[Times(per, g)] else src[0]
  }

  function GroupSources(src: Column, per: nat, groups: nat): (ts: seq<Tensor>)
    requires per > 0 && groups > 0 && GroupsFit(groups, per, |src|) && |src| > 0 && src[0].Some?
    ensures |ts| == groups && forall g :: 0 <= g < groups ==> Some(ts[g]) == GroupSource(src, per, groups, g)
  {
    seq(groups, g requires 0 <= g < groups => GroupSource(src, per, groups, g).value)
  }

  // ---------- gather ----------

  ghost predicate AllThere(col: Column) {
    forall w :: 0 <= w < |col| ==> col[w].Some?
  }

  function Present(col: Column): (ts: seq<Tensor>)
    requires forall w :: 0 <= w < |col| ==> col[w].Some?
    ensures |ts| == |col| && forall w :: 0 <= w < |col| ==> ts[w] == col[w].value
  {
    seq(|col|, w requires 0 <= w < |col| => col[w].value)
  }

  /** Joining the column stays within its buffers. */
  predicate Stackable(col: Column) {
    col != [] && col[0].Some? && col[0].value.shape != [] ==>
      forall i :: 0 <= i < |col| && col[i].Some? ==>
        col[i].value.shape != [] && Times(col[i].value.shape[0], col[0].value.Inner()) <= |col[i].value.data|
  }

  /** The joined tensor; nothing when the first is missing. */
  ghost function Collected(col: Column): Option<Option<Tensor>>
    requires Stackable(col)
  {
    if col == [] || col[0].None? then Some(None)
    else if col[0].value.shape == [] || !AllThere(col) then None
    else Some(Some(Join(Present(col))))
  }

  /** The parts a tensor was split into collect to the tensor exactly when no row is left over. */
  lemma CollectShards(col: Column, t: Tensor, shard: nat, n: nat)
    requires Splits(t, shard, n) && n > 0
    requires |col| == n && forall k :: 0 <= k < n ==> col[k] == Some(Shard(t, shard, n, k))
    ensures Stackable(col) && Collected(col).Some?
    ensures Collected(col) == Some(Some(t)) <==> t.shape[0] == Times(shard, n)
  {
    hide Times, Shard, JoinData, FirstDims;
    var ts := Shards(t, shard, n);
    JoinPrefix(t, shard, n, n);
    ShardsJoinable(t, shard, n);
    assert ts[..n] == ts && Present(col) == ts;
    assert col[0].value.shape[1..] == t.shape[1..];
    forall i | 0 <= i < |col|
      ensures col[i].value.shape != [] && Times(col[i].value.shape[0], col[0].value.Inner()) <= |col[i].value.data|
    {
      assert ts[i] == col[i].value;
    }
    assert Join(ts).shape[0] == Times(shard, n);
    if t.shape[0] == Times(shard, n) { JoinShards(t, shard, n); }
  }

  /** The first `g` groups have collected their columns on their first worker. */
  ghost function CollectGroups(dst: Column, src: Column, per: nat, groups: nat, g: nat): (r: Option<Column>)
    requires |src| == |dst| && per > 0 && g <= groups && GroupsFit(groups, per, |src|)
    requires forall k :: 0 <= k < groups ==> Stackable(Group(src, per, groups, k))
    ensures r.Some? ==> |r.value| == |dst|
  {
    if g == 0 then Some(dst) else
    var before := CollectGroups(dst, src, per, groups, g - 1);
    var own := Collected(Group(src, per, groups, g - 1));
    GroupRoom(groups, per, g - 1);
    if before.None? || own.None? then None else Some(before.value[Times(per, g - 1) := own.value])
  }

  /** The workers of one group. */
  function Group(col: Column, per: nat, groups: nat, g: nat): (r: Column)
    requires g < groups && GroupsFit(groups, per, |col|)
    ensures |r| == per && forall i :: 0 <= i < per ==> Times(per, g) + i < |col| && r[i] == col[Times(per, g) + i]
  {
    GroupRoom(groups, per, g);
    col[Times(per, g)..Times(per, g) + per]
  }

  /** Every group that collects a tensor has it on its first worker. */
  lemma {:induction false} CollectedOnFirst(dst: Column, src: Column, per: nat, groups: nat, n: nat, g: nat)
    requires |src| == |dst| && per > 0 && n <= groups && GroupsFit(groups, per, |src|) && g < n
    requires forall k :: 0 <= k < groups ==> Stackable(Group(src, per, groups, k))
    requires forall k :: 0 <= k < n ==> Collected(Group(src, per, groups, k)).Some?
    ensures CollectGroups(dst, src, per, groups, n).Some? && Times(per, g) < |dst|
    ensures CollectGroups(dst, src, per, groups, n).value[Times(per, g)] == Collected(Group(src, per, groups, g)).value
    decreases n
  {
    hide Times, Collected;
    GroupRoom(groups, per, n - 1);
    GroupRoom(groups, per, g);
    if g < n - 1 {
      TimesRight(per, g + 1, n - 1);
      CollectedOnFirst(dst, src, per, groups, n - 1, g);
    } else if n > 1 {
      CollectedOnFirst(dst, src, per, groups, n - 1, 0);
    }
  }

  /**
   Collecting what every group split succeeds, and gives a group's tensor back on its first
   worker exactly when no row of it was left over.
   */
  lemma SplitThenCollect(mid: Column, dst: Column, ts: seq<Tensor>, per: nat, shard: nat, g: nat)
    requires per > 0 && |mid| == |dst| && GroupsFit(|ts|, per, |mid|) && g < |ts|
    requires forall k :: 0 <= k < |ts| ==> Splits(ts[k], shard, per)
    ensures var col := SplitGroups(mid, ts, per, shard, |ts|);
      (forall k :: 0 <= k < |ts| ==> Stackable(Group(col, per, |ts|, k)))
      && CollectGroups(dst, col, per, |ts|, |ts|).Some? && Times(per, g) < |dst|
      && (CollectGroups(dst, col, per, |ts|, |ts|).value[Times(per, g)] == Some(ts[g])
          <==> ts[g].shape[0] == Times(shard, per))
  {
    hide Times, Shard, Collected, CollectGroups, Stackable;
    var n := |ts|;
    var col := SplitGroups(mid, ts, per, shard, n);
    forall k | 0 <= k < n
      ensures Stackable(Group(col, per, n, k)) && Collected(Group(col, per, n, k)).Some?
      ensures Collected(Group(col, per, n, k)) == Some(Some(ts[k])) <==> ts[k].shape[0] == Times(shard, per)
    {
      var own := Group(col, per, n, k);
      forall i | 0 <= i < per ensures own[i] == Some(Shard(ts[k], shard, per, i)) {
        GroupParts(mid, ts, per, shard, n, k, i);
      }
      CollectShards(own, ts[k], shard, per);
    }
    CollectedOnFirst(dst, col, per, n, n, g);
  }
}
