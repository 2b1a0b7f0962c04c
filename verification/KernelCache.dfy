/** Shape signatures, the kernel cache with its approximate lookup, and the shape counter. */
module KernelCache {
  import opened Base

  type Shape = seq<int>
  type Signature = seq<Shape>

  const INT64_MAX: int := 0x7fff_ffff_ffff_ffff

  /** Dimension by dimension at least as large. */
  predicate CoversShape(c: Shape, q: Shape) {
    |c| == |q| && forall d :: 0 <= d < |q| ==> c[d] >= q[d]
  }

  /** A kernel for `c` can serve inputs of shape `q`. */
  predicate Covers(c: Signature, q: Signature) {
    |c| == |q| && forall i :: 0 <= i < |q| ==> CoversShape(c[i], q[i])
  }

  function Sum(xs: Shape): int {
    if xs == [] then 0 else Sum(xs[..|xs| - 1]) + xs[|xs| - 1]
  }

  /** The sum of all dimensions of all inputs. */
  function Total(s: Signature): int {
    if s == [] then 0 else Total(s[..|s| - 1]) + Sum(s[|s| - 1])
  }

  lemma SumNext(xs: Shape, n: nat)
    requires n < |xs|
    ensures Sum(xs[..n + 1]) == Sum(xs[..n]) + xs[n]
  {
    assert xs[..n + 1][..n] == xs[..n];
  }

  lemma TotalNext(s: Signature, n: nat)
    requires n < |s|
    ensures Total(s[..n + 1]) == Total(s[..n]) + Sum(s[n])
  {
    assert s[..n + 1][..n] == s[..n];
  }

  /** How much larger the cached shapes are in total, or -1 if they do not cover the query. */
  method ShapeDistance(query: Signature, cached: Signature) returns (dist: int)
    ensures dist == if Covers(cached, query) then Total(cached) - Total(query) else -1
  {
    if |query| != |cached| { return -1; }
    dist := 0;
    for i := 0 to |query|
      invariant forall k :: 0 <= k < i ==> CoversShape(cached[k], query[k])
      invariant dist == Total(cached[..i]) - Total(query[..i])
    {
      var q, c := query[i], cached[i];
      if |q| != |c| { return -1; }
      for d := 0 to |q|
        invariant forall k :: 0 <= k < d ==> c[k] >= q[k]
        invariant dist == Total(cached[..i]) - Total(query[..i]) + Sum(c[..d]) - Sum(q[..d])
      {
        if c[d] < q[d] {
          assert !CoversShape(cached[i], query[i]);
          return -1;
        }
        SumNext(c, d);
        SumNext(q, d);
        dist := dist + (c[d] - q[d]);
      }
      assert c[..|c|] == c && q[..|q|] == q;
      TotalNext(cached, i);
      TotalNext(query, i);
    }
    assert cached[..|cached|] == cached && query[..|query|] == query;
  }

  lemma {:induction false} SumMonotone(c: Shape, q: Shape)
    requires CoversShape(c, q)
    ensures Sum(c) >= Sum(q) && (Sum(c) == Sum(q) ==> c == q)
    decreases |c|
  {
    if c != [] {
      var n := |c| - 1;
      SumMonotone(c[..n], q[..n]);
      assert c == c[..n] + [c[n]] && q == q[..n] + [q[n]];
    }
  }

  /** Covering shapes are at least as large in total, and equally large only if they are the same. */
  lemma {:induction false} TotalMonotone(c: Signature, q: Signature)
    requires Covers(c, q)
    ensures Total(c) >= Total(q) && (Total(c) == Total(q) ==> c == q)
    decreases |c|
  {
    if c != [] {
      var n := |c| - 1;
      TotalMonotone(c[..n], q[..n]);
      SumMonotone(c[n], q[n]);
      assert c == c[..n] + [c[n]] && q == q[..n] + [q[n]];
    }
  }

  /** A cached signature the approximate lookup may answer with. */
  ghost predicate Nearest<M>(cache: map<Signature, M>, query: Signature, best: Signature) {
    best in cache && Covers(best, query) && Total(best) - Total(query) < INT64_MAX
    && forall c :: c in cache && Covers(c, query) ==> Total(best) <= Total(c)
  }

  /** No cached signature is close enough to be an answer. */
  ghost predicate NoneNear<M>(cache: map<Signature, M>, query: Signature) {
    forall c :: c in cache && Covers(c, query) ==> Total(c) - Total(query) >= INT64_MAX
  }

  class Cache<M(==)> {
    var cache: map<Signature, M>

    constructor ()
      ensures cache == map[]
    {
      cache := map[];
    }

    method Put(sig: Signature, kernel: M)
      modifies this
      ensures cache == old(cache)[sig := kernel]
    {
      cache := cache[sig := kernel];
    }

    /** The entry of least total slack among those that cover the query; entries come in any order. */
    method GetFuzzy(query: Signature) returns (best: Option<Signature>)
      ensures best.Some? ==> Nearest(cache, query, best.value)
      ensures best.None? ==> NoneNear(cache, query)
      ensures query in cache ==> best == Some(query)
    {
      best := None;
      var bestDist := INT64_MAX;
      var left := cache.Keys;
      while left != {}
        invariant left <= cache.Keys
        invariant best.None? ==> bestDist == INT64_MAX
        invariant best.Some? ==> best.value in cache && Covers(best.value, query)
        invariant best.Some? ==> bestDist == Total(best.value) - Total(query) < INT64_MAX
        invariant forall c :: c in cache && c !in left && Covers(c, query) ==> bestDist <= Total(c) - Total(query)
        decreases |left|
      {
        var c :| c in left;
        left := left - {c};
        var dist := ShapeDistance(query, c);
        if Covers(c, query) { TotalMonotone(c, query); }
        if 0 <= dist < bestDist {
          bestDist := dist;
          best := Some(c);
        }
      }
      if query in cache {
        assert Covers(query, query);
        assert bestDist <= 0;
        TotalMonotone(best.value, query);
      }
    }
  }

  /** The counter of shapes seen. */
  class Predictor {
    var freq: map<Signature, nat>
    var recent: seq<Signature>
    var total: nat

    const MAX_RECENT: nat := 200

    constructor ()
      ensures freq == map[] && recent == [] && total == 0
    {
      freq, recent, total := map[], [], 0;
    }

    method Record(sig: Signature)
      modifies this
      ensures freq == Counted(old(freq), sig) && total == old(total) + 1
      ensures old(|recent|) <= 200 ==> |recent| <= 200 && recent == LastOf(old(recent) + [sig], 200)
    {
      freq := Counted(freq, sig);
      recent := recent + [sig];
      if |recent| > MAX_RECENT { recent := recent[1..]; }
      total := total + 1;
    }

    /** The ratio of the shape among all runs never changes the answer. */
    method ShouldCompile(sig: Signature, threshold: int, ratio: real) returns (r: bool)
      ensures r == (sig in freq && freq[sig] >= threshold)
    {
      if sig !in freq { return false; }
      var count := freq[sig];
      if count < threshold { return false; }
      if total > 0 {
        if count as real / total as real >= ratio { return true; }
      }
      return count >= threshold;
    }
  }

  function CountOf(freq: map<Signature, nat>, sig: Signature): nat {
    if sig in freq then freq[sig] else 0
  }

  function Counted(freq: map<Signature, nat>, sig: Signature): map<Signature, nat> {
    freq[sig := CountOf(freq, sig) + 1]
  }

  /** The last `n` elements. */
  function LastOf<T>(s: seq<T>, n: nat): seq<T> {
    if |s| <= n then s else s[|s| - n..]
  }
}
