/** Broadcasting by the type checker: shapes are aligned on the right; a negative dimension is unknown. */
module Broadcast {
  import opened Base

  type Shape = seq<int>

  predicate Known(dim: int) {
    dim >= 0
  }

  predicate AllKnown(s: Shape) {
    forall i :: 0 <= i < |s| ==> Known(s[i])
  }

  function Max(a: nat, b: nat): nat {
    if a >= b then a else b
  }

  /** The dimension of `s` at position `i` of a shape of rank `rank`. */
  function Aligned(s: Shape, rank: nat, i: nat): int
    requires |s| <= rank && i < rank
  {
    if |s| + i >= rank then s[|s| + i - rank] else 1
  }

  // ---------- the rule of the type checker ----------

  function JoinDim(l: int, r: int): Option<int> {
    if l == r then Some(l)
    else if l == 1 then Some(r)
    else if r == 1 then Some(l)
    else if !Known(l) || !Known(r) then Some(-1)
    else None
  }

  ghost predicate Broadcasts(l: Shape, r: Shape) {
    var rank := Max(|l|, |r|);
    forall i :: 0 <= i < rank ==> JoinDim(Aligned(l, rank, i), Aligned(r, rank, i)).Some?
  }

  ghost function Joined(l: Shape, r: Shape): (out: Shape)
    requires Broadcasts(l, r)
    ensures |out| == Max(|l|, |r|)
  {
    var rank := Max(|l|, |r|);
    seq(rank, i requires 0 <= i < rank => JoinDim(Aligned(l, rank, i), Aligned(r, rank, i)).value)
  }

  method BroadcastShape(l: Shape, r: Shape) returns (out: Option<Shape>)
    ensures out.Some? <==> Broadcasts(l, r)
    ensures out.Some? ==> out.value == Joined(l, r)
  {
    var rank := Max(|l|, |r|);
    var dims: Shape := seq(rank, _ => 1);
    for i := 0 to rank
      invariant |dims| == rank
      invariant forall k :: 0 <= k < i ==> JoinDim(Aligned(l, rank, k), Aligned(r, rank, k)) == Some(dims[k])
    {
      var ldim := if |l| + i >= rank then l[|l| + i - rank] else 1;
      var rdim := if |r| + i >= rank then r[|r| + i - rank] else 1;
      if ldim == rdim {
        dims := dims[i := ldim];
      } else if ldim == 1 {
        dims := dims[i := rdim];
      } else if rdim == 1 {
        dims := dims[i := ldim];
      } else if !Known(ldim) || !Known(rdim) {
        dims := dims[i := -1];
      } else {
        assert JoinDim(Aligned(l, rank, i), Aligned(r, rank, i)).None?;
        return None;
      }
    }
    out := Some(dims);
  }

  lemma JoinedAt(l: Shape, r: Shape, i: nat)
    requires Broadcasts(l, r) && i < Max(|l|, |r|)
    ensures var rank := Max(|l|, |r|);
      JoinDim(Aligned(l, rank, i), Aligned(r, rank, i)) == Some(Joined(l, r)[i])
  {
  }

  /**
   Shapes are accepted exactly when at every position the dimensions are equal, or one of them
   is 1 or unknown; the announced dimension is known exactly when both are, and is then the
   one that is not 1.
   */
  lemma AcceptsExact(l: Shape, r: Shape)
    ensures var rank := Max(|l|, |r|);
      Broadcasts(l, r) <==> forall i :: 0 <= i < rank ==> Fits(Aligned(l, rank, i), Aligned(r, rank, i))
    ensures Broadcasts(l, r) ==> forall i :: 0 <= i < |Joined(l, r)| ==>
      IsJoined(Aligned(l, Max(|l|, |r|), i), Aligned(r, Max(|l|, |r|), i), Joined(l, r)[i])
  {
    var rank := Max(|l|, |r|);
    forall i | 0 <= i < rank
      ensures var a, b := Aligned(l, rank, i), Aligned(r, rank, i); JoinDim(a, b).Some? <==> Fits(a, b)
    {
    }
  }

  predicate Fits(a: int, b: int) {
    a == b || a == 1 || b == 1 || a < 0 || b < 0
  }

  predicate IsJoined(a: int, b: int, d: int) {
    if a >= 0 && b >= 0 then d == (if a == 1 then b else a) else d < 0
  }

  // ---------- unknown dimensions ----------

  /** A shape with the unknown dimensions filled in. */
  predicate Instance(c: Shape, s: Shape) {
    AllKnown(c) && |c| == |s| && forall i :: 0 <= i < |s| ==> Known(s[i]) ==> c[i] == s[i]
  }

  lemma DimSound(l: int, r: int, cl: nat, cr: nat)
    requires (Known(l) ==> cl == l) && (Known(r) ==> cr == r) && JoinDim(cl, cr).Some?
    ensures JoinDim(l, r).Some? && (Known(JoinDim(l, r).value) ==> JoinDim(cl, cr) == JoinDim(l, r))
  {
  }

  /**
   If some way of filling in the unknown dimensions can be broadcast, the type checker
   accepts, and its answer describes the broadcast shape.
   */
  lemma UnknownSound(l: Shape, r: Shape, cl: Shape, cr: Shape)
    requires Instance(cl, l) && Instance(cr, r) && Broadcasts(cl, cr)
    ensures Broadcasts(l, r) && Instance(Joined(cl, cr), Joined(l, r))
  {
    var rank := Max(|l|, |r|);
    forall i | 0 <= i < rank
      ensures JoinDim(Aligned(l, rank, i), Aligned(r, rank, i)).Some?
      ensures Known(Joined(cl, cr)[i])
      ensures Known(JoinDim(Aligned(l, rank, i), Aligned(r, rank, i)).value) ==>
        Joined(cl, cr)[i] == JoinDim(Aligned(l, rank, i), Aligned(r, rank, i)).value
    {
      JoinedAt(cl, cr, i);
      DimSound(Aligned(l, rank, i), Aligned(r, rank, i), Aligned(cl, rank, i), Aligned(cr, rank, i));
    }
  }
}
