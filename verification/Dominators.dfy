/**
 Depth-first post-order of an expression graph and its dominator tree.

 A graph maps every node to its children.  Nodes are numbered in creation order, so a
 node's children have smaller numbers; operators are not nodes.
 */
module Dominators {
  import opened Base

  type Node = nat
  type Graph = map<Node, seq<Node>>

  ghost predicate WellFormed(g: Graph) {
    forall n, i :: n in g && 0 <= i < |g[n]| ==> g[n][i] in g && g[n][i] < n
  }

  // ---------- paths and dominance ----------

  function PredOf(pred: map<Node, seq<Node>>, n: Node): seq<Node> {
    if n in pred then pred[n] else []
  }

  /** A path from `root` to `n`, each node followed by one it precedes. */
  ghost predicate IsPath(pred: map<Node, seq<Node>>, root: Node, p: seq<Node>, n: Node) {
    |p| > 0 && p[0] == root && p[|p| - 1] == n &&
    forall i :: 0 < i < |p| ==> p[i - 1] in PredOf(pred, p[i])
  }

  /** `d` lies on every path from `root` to `n`. */
  ghost predicate Dominates(pred: map<Node, seq<Node>>, root: Node, d: Node, n: Node) {
    forall p :: IsPath(pred, root, p, n) ==> d in p
  }

  ghost predicate Reachable(pred: map<Node, seq<Node>>, root: Node, n: Node) {
    exists p :: IsPath(pred, root, p, n)
  }

  lemma PathPrefix(pred: map<Node, seq<Node>>, root: Node, p: seq<Node>, n: Node, i: nat)
    requires IsPath(pred, root, p, n) && i < |p|
    ensures IsPath(pred, root, p[..i + 1], p[i])
  {
  }

  lemma PathExtend(pred: map<Node, seq<Node>>, root: Node, p: seq<Node>, m: Node, n: Node)
    requires IsPath(pred, root, p, m) && m in PredOf(pred, n)
    ensures IsPath(pred, root, p + [n], n)
  {
  }

  /** Continue path `q`, which ends at `p[i]`, with the rest of `p`. */
  lemma PathSplice(pred: map<Node, seq<Node>>, root: Node, p: seq<Node>, n: Node, i: nat, q: seq<Node>)
    requires IsPath(pred, root, p, n) && i < |p| && IsPath(pred, root, q, p[i])
    ensures IsPath(pred, root, q + p[i + 1..], n)
  {
    var r := q + p[i + 1..];
    forall k | 0 < k < |r|
      ensures r[k - 1] in PredOf(pred, r[k])
    {
      if k >= |q| {
        assert r[k] == p[i + 1 + k - |q|];
        assert r[k - 1] == p[i + k - |q|];
      }
    }
  }

  lemma SelfAndRootDominate(pred: map<Node, seq<Node>>, root: Node, n: Node)
    ensures Dominates(pred, root, n, n) && Dominates(pred, root, root, n)
  {
  }

  lemma DominatesTransitive(pred: map<Node, seq<Node>>, root: Node, a: Node, b: Node, c: Node)
    requires Dominates(pred, root, a, b) && Dominates(pred, root, b, c)
    ensures Dominates(pred, root, a, c)
  {
    forall p | IsPath(pred, root, p, c)
      ensures a in p
    {
      var i :| 0 <= i < |p| && p[i] == b;
      PathPrefix(pred, root, p, c, i);
      assert a in p[..i + 1];
    }
  }

  lemma {:induction false} NoMutualDominance(pred: map<Node, seq<Node>>, root: Node, a: Node, b: Node, p: seq<Node>)
    requires Dominates(pred, root, a, b) && Dominates(pred, root, b, a) && a != b && IsPath(pred, root, p, a)
    ensures false
    decreases |p|
  {
    var i :| 0 <= i < |p| && p[i] == b;
    PathPrefix(pred, root, p, a, i);
    NoMutualDominance(pred, root, b, a, p[..i + 1]);
  }

  lemma DominatesAntisymmetric(pred: map<Node, seq<Node>>, root: Node, a: Node, b: Node)
    requires Dominates(pred, root, a, b) && Dominates(pred, root, b, a) && Reachable(pred, root, a)
    ensures a == b
  {
    var p :| IsPath(pred, root, p, a);
    if a != b {
      NoMutualDominance(pred, root, a, b, p);
    }
  }

  /** The last position of `p` that holds `a` or `b`. */
  lemma {:induction false} LastOf(p: seq<Node>, a: Node, b: Node) returns (i: nat)
    requires a in p
    ensures i < |p| && (p[i] == a || p[i] == b) && a !in p[i + 1..] && b !in p[i + 1..]
    decreases |p|
  {
    var n := |p| - 1;
    if p[n] == a || p[n] == b {
      i := n;
    } else {
      i := LastOf(p[..n], a, b);
      assert p[i + 1..] == p[..n][i + 1..] + [p[n]];
    }
  }

  /** Reaching `p[i]` another way that avoids `x`, and then following `p`, shows that `x` does not dominate. */
  lemma Bypass(pred: map<Node, seq<Node>>, root: Node, p: seq<Node>, n: Node, i: nat, q: seq<Node>, x: Node)
    requires IsPath(pred, root, p, n) && i < |p| && IsPath(pred, root, q, p[i])
    requires x !in q && x !in p[i + 1..]
    ensures !Dominates(pred, root, x, n)
  {
    PathSplice(pred, root, p, n, i, q);
  }

  /** The dominators of a node form a chain. */
  lemma DominatorsFormAChain(pred: map<Node, seq<Node>>, root: Node, a: Node, b: Node, n: Node)
    requires Dominates(pred, root, a, n) && Dominates(pred, root, b, n) && Reachable(pred, root, n)
    ensures Dominates(pred, root, a, b) || Dominates(pred, root, b, a)
  {
    if !Dominates(pred, root, a, b) && !Dominates(pred, root, b, a) {
      var toB :| IsPath(pred, root, toB, b) && a !in toB;
      var toA :| IsPath(pred, root, toA, a) && b !in toA;
      var p :| IsPath(pred, root, p, n);
      var i := LastOf(p, a, b);
      if p[i] == a {
        Bypass(pred, root, p, n, i, toA, b);
      } else {
        Bypass(pred, root, p, n, i, toB, a);
      }
      assert false;
    }
  }

  /** The strict dominator that every other strict dominator dominates. */
  ghost predicate IsIdom(pred: map<Node, seq<Node>>, root: Node, d: Node, n: Node) {
    d != n && Dominates(pred, root, d, n) &&
    forall e :: e != n && Dominates(pred, root, e, n) ==> Dominates(pred, root, e, d)
  }

  lemma IdomUnique(pred: map<Node, seq<Node>>, root: Node, d: Node, e: Node, n: Node)
    requires IsIdom(pred, root, d, n) && IsIdom(pred, root, e, n) && Reachable(pred, root, n)
    ensures d == e
  {
    var p :| IsPath(pred, root, p, n);
    var i :| 0 <= i < |p| && p[i] == d;
    PathPrefix(pred, root, p, n, i);
    DominatesAntisymmetric(pred, root, d, e);
  }

  // ---------- the fixpoint iteration ----------

  type DomMap = map<Node, set<Node>>

  /** The intersection of the sets of the listed nodes. */
  function Meet(dom: DomMap, ps: seq<Node>): set<Node>
    requires ps != [] && forall i :: 0 <= i < |ps| ==> ps[i] in dom
  {
    if |ps| == 1 then dom[ps[0]] else Meet(dom, ps[..|ps| - 1]) * dom[ps[|ps| - 1]]
  }

  function NewDom(dom: DomMap, pred: map<Node, seq<Node>>, n: Node): set<Node>
    requires forall i :: 0 <= i < |PredOf(pred, n)| ==> PredOf(pred, n)[i] in dom
  {
    if PredOf(pred, n) == [] then {n} else Meet(dom, PredOf(pred, n)) + {n}
  }

  /** Every predecessor of a listed node is listed. */
  ghost predicate ClosedUnder(nodes: seq<Node>, pred: map<Node, seq<Node>>) {
    forall n, i :: n in nodes && 0 <= i < |PredOf(pred, n)| ==> PredOf(pred, n)[i] in nodes
  }

  method IntersectInto(dst: set<Node>, src: set<Node>) returns (r: set<Node>)
    ensures r == dst * src
  {
    r := dst;
    var todo := dst;
    while todo != {}
      invariant todo <= dst && r == dst * src + todo
      decreases |todo|
    {
      var x :| x in todo;
      todo := todo - {x};
      if x !in src {
        r := r - {x};
      }
    }
  }

  method MeetPreds(dom: DomMap, pred: map<Node, seq<Node>>, n: Node) returns (r: set<Node>)
    requires forall i :: 0 <= i < |PredOf(pred, n)| ==> PredOf(pred, n)[i] in dom
    ensures r == NewDom(dom, pred, n)
  {
    var ps := PredOf(pred, n);
    if ps == [] { return {n}; }
    r := dom[ps[0]];
    for i := 1 to |ps|
      invariant r == Meet(dom, ps[..i])
    {
      assert ps[..i + 1][..i] == ps[..i];
      r := IntersectInto(r, dom[ps[i]]);
    }
    assert ps[..|ps|] == ps;
    r := r + {n};
  }

  lemma {:induction false} MeetIs(dom: DomMap, ps: seq<Node>, d: Node)
    requires ps != [] && forall i :: 0 <= i < |ps| ==> ps[i] in dom
    ensures d in Meet(dom, ps) <==> forall i :: 0 <= i < |ps| ==> d in dom[ps[i]]
    decreases |ps|
  {
    var k := |ps| - 1;
    if k > 0 {
      MeetIs(dom, ps[..k], d);
      assert forall i :: 0 <= i < k ==> ps[..k][i] == ps[i];
    }
  }

  function Weight(dom: DomMap, nodes: seq<Node>): nat
    requires forall i :: 0 <= i < |nodes| ==> nodes[i] in dom
  {
    if nodes == [] then 0 else |dom[nodes[0]]| + Weight(dom, nodes[1..])
  }

  lemma SubsetSize(a: set<Node>, b: set<Node>)
    requires a <= b
    ensures |a| <= |b| && (a != b ==> |a| < |b|)
  {
    var c := b - a;
    assert b == a + c;
    if a != b {
      assert c != {};
    }
  }

  /** Replacing a node's set by a smaller one lowers the total size, strictly if the node is listed. */
  lemma {:induction false} WeightDrops(dom: DomMap, nodes: seq<Node>, n: Node, s: set<Node>)
    requires forall i :: 0 <= i < |nodes| ==> nodes[i] in dom
    requires n in dom && s < dom[n]
    ensures Weight(dom[n := s], nodes) <= Weight(dom, nodes)
    ensures n in nodes ==> Weight(dom[n := s], nodes) < Weight(dom, nodes)
    decreases |nodes|
  {
    if nodes != [] {
      SubsetSize(s, dom[n]);
      WeightDrops(dom, nodes[1..], n, s);
    }
  }

  /** The state of the iteration: sets only shrink towards, and never below, the true dominators. */
  ghost predicate Sound(dom: DomMap, nodes: seq<Node>, pred: map<Node, seq<Node>>, root: Node) {
    && ClosedUnder(nodes, pred)
    && dom.Keys == Elems(nodes)
    && (forall n :: n in nodes ==> dom[n] <= Elems(nodes))
    && (root in nodes ==> dom[root] == {root})
    && (forall n, d :: n in nodes && Dominates(pred, root, d, n) ==> d in dom[n])
  }

  ghost predicate Shrinking(dom: DomMap, nodes: seq<Node>, pred: map<Node, seq<Node>>, root: Node)
    requires ClosedUnder(nodes, pred) && dom.Keys == Elems(nodes)
  {
    forall n :: n in nodes && n != root ==> NewDom(dom, pred, n) <= dom[n]
  }

  lemma NewDomMembers(dom: DomMap, pred: map<Node, seq<Node>>, n: Node, d: Node)
    requires forall i :: 0 <= i < |PredOf(pred, n)| ==> PredOf(pred, n)[i] in dom
    ensures d in NewDom(dom, pred, n) <==>
      d == n || (PredOf(pred, n) != [] && forall i :: 0 <= i < |PredOf(pred, n)| ==> d in dom[PredOf(pred, n)[i]])
  {
    if PredOf(pred, n) != [] {
      MeetIs(dom, PredOf(pred, n), d);
    }
  }

  lemma PredListed(nodes: seq<Node>, pred: map<Node, seq<Node>>, dom: DomMap, n: Node)
    requires ClosedUnder(nodes, pred) && dom.Keys == Elems(nodes) && n in nodes
    ensures forall i :: 0 <= i < |PredOf(pred, n)| ==> PredOf(pred, n)[i] in dom
  {
  }

  /** Shrinking one set can only shrink the sets computed from it. */
  lemma NewDomMonotone(a: DomMap, b: DomMap, pred: map<Node, seq<Node>>, n: Node)
    requires a.Keys == b.Keys && forall m :: m in a ==> a[m] <= b[m]
    requires forall i :: 0 <= i < |PredOf(pred, n)| ==> PredOf(pred, n)[i] in a
    ensures NewDom(a, pred, n) <= NewDom(b, pred, n)
  {
    forall d | d in NewDom(a, pred, n) ensures d in NewDom(b, pred, n) {
      NewDomMembers(a, pred, n, d);
      NewDomMembers(b, pred, n, d);
    }
  }

  lemma DominatesPreds(pred: map<Node, seq<Node>>, root: Node, d: Node, n: Node, m: Node)
    requires Dominates(pred, root, d, n) && d != n && m in PredOf(pred, n)
    ensures Dominates(pred, root, d, m)
  {
    forall p | IsPath(pred, root, p, m)
      ensures d in p
    {
      PathExtend(pred, root, p, m, n);
      assert d in p + [n];
    }
  }

  /** The recomputed set still contains every true dominator. */
  lemma NewDomSound(dom: DomMap, nodes: seq<Node>, pred: map<Node, seq<Node>>, root: Node, n: Node, d: Node)
    requires Sound(dom, nodes, pred, root) && n in nodes && n != root && Reachable(pred, root, n)
      && Dominates(pred, root, d, n)
    ensures (forall i :: 0 <= i < |PredOf(pred, n)| ==> PredOf(pred, n)[i] in dom) && d in NewDom(dom, pred, n)
  {
    PredListed(nodes, pred, dom, n);
    NewDomMembers(dom, pred, n, d);
    if d != n {
      var p :| IsPath(pred, root, p, n);
      assert p[|p| - 2] in PredOf(pred, n);
      forall i | 0 <= i < |PredOf(pred, n)|
        ensures d in dom[PredOf(pred, n)[i]]
      {
        DominatesPreds(pred, root, d, n, PredOf(pred, n)[i]);
      }
    }
  }

  /** One update keeps the state sound and shrinking. */
  lemma UpdateKeeps(dom: DomMap, nodes: seq<Node>, pred: map<Node, seq<Node>>, root: Node, n: Node)
    requires Sound(dom, nodes, pred, root) && Shrinking(dom, nodes, pred, root)
    requires n in nodes && n != root && Reachable(pred, root, n)
    requires forall i :: 0 <= i < |PredOf(pred, n)| ==> PredOf(pred, n)[i] in dom
    ensures Sound(dom[n := NewDom(dom, pred, n)], nodes, pred, root)
    ensures Shrinking(dom[n := NewDom(dom, pred, n)], nodes, pred, root)
  {
    var s := NewDom(dom, pred, n);
    var dom' := dom[n := s];
    assert s <= dom[n];
    assert dom'.Keys == dom.Keys;
    forall d | Dominates(pred, root, d, n) ensures d in s {
      NewDomSound(dom, nodes, pred, root, n, d);
    }
    forall m | m in nodes && m != root
      ensures NewDom(dom', pred, m) <= dom'[m]
    {
      PredListed(nodes, pred, dom, m);
      NewDomMonotone(dom', dom, pred, m);
    }
  }

  ghost predicate Fixed(dom: DomMap, nodes: seq<Node>, pred: map<Node, seq<Node>>, root: Node)
    requires ClosedUnder(nodes, pred) && dom.Keys == Elems(nodes)
  {
    forall n :: n in nodes && n != root ==> dom[n] == NewDom(dom, pred, n)
  }

  /** At a fixpoint, membership means lying on every path. */
  lemma {:induction false} FixpointOnPaths(
    dom: DomMap, nodes: seq<Node>, pred: map<Node, seq<Node>>, root: Node, n: Node, d: Node, p: seq<Node>)
    requires Sound(dom, nodes, pred, root) && Fixed(dom, nodes, pred, root)
    requires n in nodes && d in dom[n] && IsPath(pred, root, p, n)
    ensures d in p
    decreases |p|
  {
    if n != root && d != n {
      var m := p[|p| - 2];
      PathPrefix(pred, root, p, n, |p| - 2);
      assert m in PredOf(pred, p[|p| - 1]);
      var i :| 0 <= i < |PredOf(pred, n)| && PredOf(pred, n)[i] == m;
      PredListed(nodes, pred, dom, n);
      NewDomMembers(dom, pred, n, d);
      FixpointOnPaths(dom, nodes, pred, root, m, d, p[..|p| - 1]);
    }
  }

  /** The computed sets are exactly the dominators. */
  ghost predicate Exact(dom: DomMap, nodes: seq<Node>, pred: map<Node, seq<Node>>, root: Node) {
    dom.Keys == Elems(nodes) && forall n, d :: n in nodes ==> (d in dom[n] <==> Dominates(pred, root, d, n))
  }

  lemma FixpointExact(dom: DomMap, nodes: seq<Node>, pred: map<Node, seq<Node>>, root: Node)
    requires Sound(dom, nodes, pred, root) && Fixed(dom, nodes, pred, root)
    ensures Exact(dom, nodes, pred, root)
  {
    forall n, d | n in nodes && d in dom[n]
      ensures Dominates(pred, root, d, n)
    {
      forall p | IsPath(pred, root, p, n) ensures d in p {
        FixpointOnPaths(dom, nodes, pred, root, n, d, p);
      }
    }
  }

  /** Initially every set is full, except the root's. */
  lemma StartSound(dom: DomMap, nodes: seq<Node>, pred: map<Node, seq<Node>>, root: Node)
    requires ClosedUnder(nodes, pred) && dom.Keys == Elems(nodes)
    requires forall n :: n in nodes ==> dom[n] == (if n == root then {root} else Elems(nodes))
    requires forall n :: n in nodes ==> Reachable(pred, root, n)
    ensures Sound(dom, nodes, pred, root) && Shrinking(dom, nodes, pred, root)
  {
    forall n, d | n in nodes && Dominates(pred, root, d, n)
      ensures d in dom[n]
    {
      var p :| IsPath(pred, root, p, n);
      if n == root {
        assert IsPath(pred, root, [root], root);
        assert d in [root];
      } else {
        var i :| 0 <= i < |p| && p[i] == d;
        PathStays(nodes, pred, root, p, n, i);
      }
    }
    forall n | n in nodes && n != root
      ensures NewDom(dom, pred, n) <= dom[n]
    {
      PredListed(nodes, pred, dom, n);
      forall d | d in NewDom(dom, pred, n) ensures d in Elems(nodes) {
        NewDomMembers(dom, pred, n, d);
        if d != n {
          assert d in dom[PredOf(pred, n)[0]];
        }
      }
    }
  }

  lemma {:induction false} PathStays(
    nodes: seq<Node>, pred: map<Node, seq<Node>>, root: Node, p: seq<Node>, n: Node, i: nat)
    requires ClosedUnder(nodes, pred) && IsPath(pred, root, p, n) && n in nodes && i < |p|
    ensures p[i] in nodes
    decreases |p| - i
  {
    if i < |p| - 1 {
      PathStays(nodes, pred, root, p, n, i + 1);
      assert p[i + 1 - 1] in PredOf(pred, p[i + 1]);
    }
  }

  /** Iterates the dataflow equations in place until nothing changes. */
  method ComputeDominators(nodes: seq<Node>, pred: map<Node, seq<Node>>, root: Node) returns (dom: DomMap)
    requires ClosedUnder(nodes, pred) && forall n :: n in nodes ==> Reachable(pred, root, n)
    ensures Exact(dom, nodes, pred, root)
  {
    dom := InitialSets(nodes, root);
    StartSound(dom, nodes, pred, root);
    var changed := true;
    while changed
      invariant Sound(dom, nodes, pred, root) && Shrinking(dom, nodes, pred, root)
      invariant !changed ==> Fixed(dom, nodes, pred, root)
      decreases Weight(dom, nodes), changed
    {
      dom, changed := Pass(dom, nodes, pred, root);
    }
    FixpointExact(dom, nodes, pred, root);
  }

  method InitialSets(nodes: seq<Node>, root: Node) returns (dom: DomMap)
    ensures dom.Keys == Elems(nodes)
    ensures forall n :: n in nodes ==> dom[n] == (if n == root then {root} else Elems(nodes))
  {
    dom := map[];
    for i := 0 to |nodes|
      invariant dom.Keys == Elems(nodes[..i])
      invariant forall n :: n in nodes[..i] ==> dom[n] == (if n == root then {root} else Elems(nodes))
    {
      assert nodes[..i + 1] == nodes[..i] + [nodes[i]];
      dom := dom[nodes[i] := if nodes[i] == root then {root} else Elems(nodes)];
    }
    assert nodes[..|nodes|] == nodes;
  }

  /** One sweep over the nodes, each update visible to the following ones. */
  method Pass(
    dom: DomMap, nodes: seq<Node>, pred: map<Node, seq<Node>>, root: Node) returns (dom': DomMap, changed: bool)
    requires Sound(dom, nodes, pred, root) && Shrinking(dom, nodes, pred, root)
    requires forall n :: n in nodes ==> Reachable(pred, root, n)
    ensures Sound(dom', nodes, pred, root) && Shrinking(dom', nodes, pred, root)
    ensures changed ==> Weight(dom', nodes) < Weight(dom, nodes)
    ensures !changed ==> dom' == dom && Fixed(dom, nodes, pred, root)
  {
    hide Dominates, Reachable, NewDom;
    dom', changed := dom, false;
    for i := 0 to |nodes|
      invariant Sound(dom', nodes, pred, root) && Shrinking(dom', nodes, pred, root)
      invariant changed ==> Weight(dom', nodes) < Weight(dom, nodes)
      invariant !changed ==> dom' == dom
      invariant !changed ==> forall j :: 0 <= j < i && nodes[j] != root ==> dom[nodes[j]] == NewDom(dom, pred, nodes[j])
    {
      var n := nodes[i];
      if n == root { continue; }
      PredListed(nodes, pred, dom', n);
      var s := MeetPreds(dom', pred, n);
      assert s <= dom'[n];
      if s != dom'[n] {
        UpdateKeeps(dom', nodes, pred, root, n);
        WeightDrops(dom', nodes, n, s);
        dom' := dom'[n := s];
        changed := true;
      }
    }
  }

  // ---------- the immediate dominator ----------

  /** Scans the dominators in any order and keeps the one with the largest dominator set. */
  method PickIdom(
    n: Node, root: Node, dom: DomMap, nodes: seq<Node>, ghost pred: map<Node, seq<Node>>) returns (idom: Node)
    requires Exact(dom, nodes, pred, root) && n in nodes && n != root
    requires forall m :: m in nodes ==> Reachable(pred, root, m) && dom[m] <= Elems(nodes)
    ensures IsIdom(pred, root, idom, n)
  {
    SelfAndRootDominate(pred, root, n);
    idom := root;
    var bestScore := 0;
    var todo := dom[n];
    while todo != {}
      invariant todo <= dom[n] && idom in dom[n] && idom != n
      invariant bestScore == 0 || bestScore == |dom[idom]|
      invariant forall c :: c in dom[n] && c !in todo && c != n ==> bestScore > 0 && |dom[c]| <= bestScore
      decreases |todo|
    {
      var candidate :| candidate in todo;
      todo := todo - {candidate};
      if candidate == n { continue; }
      var score := |dom[candidate]|;
      SelfAndRootDominate(pred, root, candidate);
      assert candidate in dom[candidate];
      if score > bestScore {
        idom, bestScore := candidate, score;
      }
    }
    LargestIsIdom(n, root, dom, nodes, pred, idom);
  }

  /** Along the chain of dominators the sets grow strictly. */
  lemma StrictDominatorIsSmaller(
    root: Node, dom: DomMap, nodes: seq<Node>, pred: map<Node, seq<Node>>, a: Node, b: Node)
    requires Exact(dom, nodes, pred, root) && a in nodes && b in nodes && Reachable(pred, root, a)
    requires Dominates(pred, root, a, b) && a != b
    ensures |dom[a]| < |dom[b]|
  {
    forall d | d in dom[a] ensures d in dom[b] {
      DominatesTransitive(pred, root, d, a, b);
    }
    SelfAndRootDominate(pred, root, b);
    if b in dom[a] {
      DominatesAntisymmetric(pred, root, a, b);
    }
    SubsetSize(dom[a], dom[b]);
  }

  lemma LargestIsIdom(n: Node, root: Node, dom: DomMap, nodes: seq<Node>, pred: map<Node, seq<Node>>, best: Node)
    requires Exact(dom, nodes, pred, root) && n in nodes
    requires forall m :: m in nodes ==> Reachable(pred, root, m) && dom[m] <= Elems(nodes)
    requires best in dom[n] && best != n
    requires forall c :: c in dom[n] && c != n ==> |dom[c]| <= |dom[best]|
    ensures IsIdom(pred, root, best, n)
  {
    forall e | e != n && Dominates(pred, root, e, n)
      ensures Dominates(pred, root, e, best)
    {
      assert e in dom[n] && e in Elems(nodes) && best in Elems(nodes);
      DominatorsFormAChain(pred, root, e, best, n);
      if !Dominates(pred, root, e, best) {
        SelfAndRootDominate(pred, root, best);
        StrictDominatorIsSmaller(root, dom, nodes, pred, best, e);
      }
    }
  }

  // ---------- the traversal ----------

  /** A chain of children from `from` down to `to`. */
  ghost predicate IsChain(g: Graph, from: Node, p: seq<Node>, to: Node) {
    |p| > 0 && p[0] == from && p[|p| - 1] == to &&
    forall i :: 0 < i < |p| ==> Linked(g, p[i - 1], p[i])
  }

  predicate Linked(g: Graph, parent: Node, child: Node) {
    parent in g && child in g[parent]
  }

  ghost predicate Descends(g: Graph, from: Node, to: Node) {
    exists p :: IsChain(g, from, p, to)
  }

  lemma DescendsFromChild(g: Graph, n: Node, child: Node, to: Node)
    requires n in g && child in g[n] && Descends(g, child, to)
    ensures Descends(g, n, to)
  {
    var p :| IsChain(g, child, p, to);
    assert IsChain(g, n, [n] + p, to);
  }

  lemma DescendsToSelf(g: Graph, n: Node)
    ensures Descends(g, n, n)
  {
    assert IsChain(g, n, [n], n);
  }

  /** Every node comes after all its children. */
  ghost predicate ChildrenFirst(g: Graph, order: seq<Node>) {
    forall i, c :: 0 <= i < |order| && order[i] in g && c in g[order[i]] ==> c in order[..i]
  }

  predicate ChildrenOk(g: Graph, cs: seq<Node>, bound: Node) {
    forall i :: 0 <= i < |cs| ==> cs[i] in g && cs[i] < bound
  }

  /** The depth-first post-order from `n`, appended to what was finished before. */
  function Post(g: Graph, n: Node, order: seq<Node>): seq<Node>
    requires WellFormed(g) && n in g
    decreases n, 1
  {
    if n in order then order else PostAll(g, n, g[n], order) + [n]
  }

  function PostAll(g: Graph, bound: Node, cs: seq<Node>, order: seq<Node>): seq<Node>
    requires WellFormed(g) && ChildrenOk(g, cs, bound)
    decreases bound, 0, |cs|
  {
    if cs == [] then order else PostAll(g, bound, cs[1..], Post(g, cs[0], order))
  }

  lemma PostNext(g: Graph, bound: Node, cs: seq<Node>, i: nat, order: seq<Node>)
    requires WellFormed(g) && ChildrenOk(g, cs, bound) && i < |cs|
    ensures PostAll(g, bound, cs[i..], order) == PostAll(g, bound, cs[i + 1..], Post(g, cs[i], order))
  {
    assert cs[i..][1..] == cs[i + 1..];
  }

  lemma PostEnds(g: Graph, n: Node, order: seq<Node>, last: seq<Node>)
    requires WellFormed(g) && n in g
    ensures n in order ==> Post(g, n, order) == order
    ensures n !in order ==> Post(g, n, order) == PostAll(g, n, g[n], order) + [n]
    ensures PostAll(g, n, [], last) == last
  {
  }

  /** The traversal adds the descendants of where it starts, behind what was finished before. */
  lemma {:induction false} PostAdds(g: Graph, n: Node, order: seq<Node>)
    requires WellFormed(g) && n in g && ChildrenFirst(g, order)
    ensures ChildrenFirst(g, Post(g, n, order)) && order <= Post(g, n, order)
    ensures forall x :: x in Post(g, n, order) <==> x in order || Descends(g, n, x)
    decreases n, 1
  {
    hide ChildrenFirst, Descends;
    if n in order {
      forall x | Descends(g, n, x) ensures x in order {
        DescendantsListed(g, order, n, x);
      }
    } else {
      PostAllAdds(g, n, g[n], order);
      AppendParent(g, PostAll(g, n, g[n], order), n);
      forall x ensures Descends(g, n, x) <==> x == n || exists i :: 0 <= i < |g[n]| && Descends(g, g[n][i], x) {
        DescendsByChild(g, n, x);
      }
    }
  }

  lemma {:induction false} PostAllAdds(g: Graph, bound: Node, cs: seq<Node>, order: seq<Node>)
    requires WellFormed(g) && ChildrenOk(g, cs, bound) && ChildrenFirst(g, order)
    ensures ChildrenFirst(g, PostAll(g, bound, cs, order)) && order <= PostAll(g, bound, cs, order)
    ensures forall x :: x in PostAll(g, bound, cs, order) <==>
      x in order || exists i :: 0 <= i < |cs| && Descends(g, cs[i], x)
    ensures forall i :: 0 <= i < |cs| ==> cs[i] in PostAll(g, bound, cs, order)
    decreases bound, 0, |cs|
  {
    hide ChildrenFirst, Descends, Post;
    if cs != [] {
      PostAdds(g, cs[0], order);
      PostAllAdds(g, bound, cs[1..], Post(g, cs[0], order));
      var all := PostAll(g, bound, cs, order);
      forall x ensures x in all <==> x in order || exists i :: 0 <= i < |cs| && Descends(g, cs[i], x) {
        if i :| 0 <= i < |cs| && Descends(g, cs[i], x) {
          if i > 0 { assert cs[1..][i - 1] == cs[i]; }
        }
        if i :| 0 <= i < |cs[1..]| && Descends(g, cs[1..][i], x) {
          assert cs[i + 1] == cs[1..][i];
        }
      }
      forall i | 0 <= i < |cs| ensures cs[i] in all {
        DescendsToSelf(g, cs[i]);
      }
    }
  }

  lemma AppendParent(g: Graph, order: seq<Node>, n: Node)
    requires ChildrenFirst(g, order) && n in g && forall i :: 0 <= i < |g[n]| ==> g[n][i] in order
    ensures ChildrenFirst(g, order + [n])
  {
    var all := order + [n];
    forall i, c | 0 <= i < |all| && all[i] in g && c in g[all[i]] ensures c in all[..i] {
      if i < |order| {
        assert c in order[..i] && all[..i] == order[..i];
      } else {
        assert all[..i] == order;
      }
    }
  }

  lemma DescendsByChild(g: Graph, n: Node, x: Node)
    requires n in g
    ensures Descends(g, n, x) <==> x == n || exists i :: 0 <= i < |g[n]| && Descends(g, g[n][i], x)
  {
    DescendsToSelf(g, n);
    if i :| 0 <= i < |g[n]| && Descends(g, g[n][i], x) { DescendsFromChild(g, n, g[n][i], x); }
    if Descends(g, n, x) && x != n {
      var p :| IsChain(g, n, p, x);
      assert Linked(g, p[0], p[1]);
      assert IsChain(g, p[1], p[1..], x);
      var i :| 0 <= i < |g[n]| && g[n][i] == p[1];
      assert Descends(g, g[n][i], x);
    }
  }

  lemma DescendantsListed(g: Graph, order: seq<Node>, n: Node, x: Node)
    requires ChildrenFirst(g, order) && n in order && Descends(g, n, x)
    ensures x in order
  {
    var p :| IsChain(g, n, p, x);
    ChainListed(g, order, p, |p| - 1);
  }

  lemma {:induction false} ChainListed(g: Graph, order: seq<Node>, p: seq<Node>, i: nat)
    requires ChildrenFirst(g, order) && i < |p| && p[0] in order
    requires forall k :: 0 < k < |p| ==> Linked(g, p[k - 1], p[k])
    ensures p[i] in order
  {
    if i > 0 {
      ChainListed(g, order, p, i - 1);
      assert Linked(g, p[i - 1], p[i]);
      var k :| 0 <= k < |order| && order[k] == p[i - 1];
      assert p[i] in order[..k];
    }
  }

  lemma {:induction false} PostAllConcat(g: Graph, bound: Node, cs: seq<Node>, ds: seq<Node>, order: seq<Node>)
    requires WellFormed(g) && ChildrenOk(g, cs, bound) && ChildrenOk(g, ds, bound)
    ensures ChildrenOk(g, cs + ds, bound)
    ensures PostAll(g, bound, cs + ds, order) == PostAll(g, bound, ds, PostAll(g, bound, cs, order))
    decreases |cs|
  {
    if cs == [] {
      assert cs + ds == ds;
    } else {
      assert (cs + ds)[1..] == cs[1..] + ds;
      PostAllConcat(g, bound, cs[1..], ds, Post(g, cs[0], order));
    }
  }

  ghost predicate Precedes(order: seq<Node>, x: Node, y: Node) {
    exists a, b :: 0 <= a < b < |order| && order[a] == x && order[b] == y
  }

  /**
   Children are visited from the first to the last: a child that was not finished before and is
   no descendant of an earlier one comes after everything that was finished before and after
   all descendants of the earlier ones.
   */
  lemma SiblingOrder(g: Graph, n: Node, order: seq<Node>, k: nat, x: Node)
    requires WellFormed(g) && n in g && n !in order && ChildrenFirst(g, order) && k < |g[n]|
    requires g[n][k] !in order && forall j :: 0 <= j < k ==> !Descends(g, g[n][j], g[n][k])
    requires x in order || exists j :: 0 <= j < k && Descends(g, g[n][j], x)
    ensures Precedes(Post(g, n, order), x, g[n][k])
  {
    hide ChildrenFirst, Descends, Post;
    PostEnds(g, n, order, []);
    var cs := g[n];
    var early, late := cs[..k], cs[k..];
    assert cs == early + late;
    PostAllConcat(g, n, early, late, order);
    var before := PostAll(g, n, early, order);
    PostAllAdds(g, n, early, order);
    PostAllAdds(g, n, late, before);
    var all := PostAll(g, n, cs, order);
    assert before <= all && late[0] == cs[k];
    forall j | 0 <= j < k ensures early[j] == cs[j] {
    }
    assert x in before && cs[k] !in before && cs[k] in all;
    var a :| 0 <= a < |before| && before[a] == x;
    var b :| 0 <= b < |all| && all[b] == cs[k];
    assert all[a] == x;
    assert forall i :: 0 <= i < |before| ==> all[i] == before[i];
    assert Post(g, n, order)[a] == x && Post(g, n, order)[b] == cs[k];
  }

  /** No node is listed twice, and none above the start is added. */
  lemma {:induction false} PostNoDup(g: Graph, n: Node, order: seq<Node>)
    requires WellFormed(g) && n in g && NoDup(order)
    ensures NoDup(Post(g, n, order)) && forall x :: x in Post(g, n, order) ==> x in order || x <= n
    decreases n, 1
  {
    if n !in order { PostAllNoDup(g, n, g[n], order); }
  }

  lemma {:induction false} PostAllNoDup(g: Graph, bound: Node, cs: seq<Node>, order: seq<Node>)
    requires WellFormed(g) && ChildrenOk(g, cs, bound) && NoDup(order)
    ensures NoDup(PostAll(g, bound, cs, order))
    ensures forall x :: x in PostAll(g, bound, cs, order) ==> x in order || x < bound
    decreases bound, 0, |cs|
  {
    if cs != [] {
      PostNoDup(g, cs[0], order);
      PostAllNoDup(g, bound, cs[1..], Post(g, cs[0], order));
    }
  }

  /**
   The traversal's fields while the nodes of `open` are entered but not finished: recorded
   predecessors are parents, and all edges out of finished nodes are recorded.
   */
  ghost predicate Consistent(
    g: Graph, visited: set<Node>, pred: map<Node, seq<Node>>, order: seq<Node>, open: set<Node>)
  {
    && WellFormed(g)
    && visited == open + Elems(order) && open !! Elems(order) && visited <= g.Keys
    && NoDup(order) && ChildrenFirst(g, order)
    && (forall p, c :: p in PredOf(pred, c) ==> p in visited && c in g[p])
    && (forall p, c :: p in Elems(order) && c in g[p] ==> p in PredOf(pred, c))
  }

  lemma EnterKeeps(g: Graph, visited: set<Node>, pred: map<Node, seq<Node>>, order: seq<Node>, open: set<Node>, n: Node)
    requires Consistent(g, visited, pred, order, open) && n in g && n !in visited
    ensures Consistent(g, visited + {n}, pred, order, open + {n})
  {
    assert n !in Elems(order);
  }

  lemma EdgeKeeps(
    g: Graph, visited: set<Node>, pred: map<Node, seq<Node>>, order: seq<Node>, open: set<Node>, n: Node, c: Node)
    requires Consistent(g, visited, pred, order, open) && n in open && c in g[n]
    ensures Consistent(g, visited, pred[c := PredOf(pred, c) + [n]], order, open)
    ensures n in PredOf(pred[c := PredOf(pred, c) + [n]], c)
  {
    var pred' := pred[c := PredOf(pred, c) + [n]];
    assert forall p, x :: p in PredOf(pred', x) <==> p in PredOf(pred, x) || (p == n && x == c);
  }

  lemma FinishKeeps(
    g: Graph, visited: set<Node>, pred: map<Node, seq<Node>>, order: seq<Node>, open: set<Node>, n: Node)
    requires Consistent(g, visited, pred, order, open + {n}) && n !in open
    requires forall i :: 0 <= i < |g[n]| ==> g[n][i] in order && n in PredOf(pred, g[n][i])
    ensures Consistent(g, visited, pred, order + [n], open)
  {
    var order' := order + [n];
    assert n !in Elems(order);
    assert Elems(order') == Elems(order) + {n};
    forall i, c | 0 <= i < |order'| && order'[i] in g && c in g[order'[i]]
      ensures c in order'[..i]
    {
      assert order'[..i] == order[..i];
      if i == |order| {
        assert order[..i] == order;
      }
    }
  }

  lemma VisitedIsFinished(
    g: Graph, visited: set<Node>, pred: map<Node, seq<Node>>, order: seq<Node>, open: set<Node>, n: Node)
    requires Consistent(g, visited, pred, order, open) && n in visited && n !in open
    ensures n in order
  {
    assert n in Elems(order);
  }

  lemma TraversalSound(g: Graph, visited: set<Node>, pred: map<Node, seq<Node>>, order: seq<Node>, open: set<Node>)
    requires Consistent(g, visited, pred, order, open)
    ensures WellFormed(g) && forall n :: n in order ==> n in visited
  {
    forall n | n in order ensures n in visited {
      assert n in Elems(order);
    }
  }

  /** The depth-first traversal, with the fields it fills. */
  class Traversal {
    const g: Graph
    var visited: set<Node>
    var pred: map<Node, seq<Node>>
    var postorder: seq<Node>

    constructor (g: Graph)
      ensures this.g == g && visited == {} && pred == map[] && postorder == []
    {
      this.g := g;
      visited, pred, postorder := {}, map[], [];
    }

    ghost predicate Valid(open: set<Node>)
      reads this
    {
      Consistent(g, visited, pred, postorder, open)
    }

    /** Edges recorded earlier stay recorded, and no edges of open nodes are added behind their back. */
    twostate predicate Grows(from: Node)
      reads this
    {
      && old(visited) <= visited && old(postorder) <= postorder
      && (forall p, c :: p in old(PredOf(pred, c)) ==> p in PredOf(pred, c))
      && (forall n :: n in visited && n !in old(visited) ==> Descends(g, from, n))
    }

    method Dfs(node: Node, ghost open: set<Node>)
      requires Valid(open) && node in g && forall x :: x in open ==> node < x
      modifies this
      ensures Valid(open) && node in postorder && Grows(node)
      ensures postorder == Post(g, node, old(postorder))
      decreases node
    {
      hide Consistent, Descends, WellFormed, Post, PostAll;
      TraversalSound(g, visited, pred, postorder, open);
      if node in visited {
        VisitedIsFinished(g, visited, pred, postorder, open, node);
        PostEnds(g, node, postorder, []);
        return;
      }
      EnterKeeps(g, visited, pred, postorder, open, node);
      DescendsToSelf(g, node);
      visited := visited + {node};
      var children := g[node];
      ChildrenSmaller(g, visited, pred, postorder, open + {node}, node);
      assert children[0..] == children;
      for i := 0 to |children|
        invariant PostAll(g, node, children[i..], postorder) == PostAll(g, node, children, old(postorder))
        invariant Valid(open + {node}) && Grows(node)
        invariant forall j :: 0 <= j < i ==> children[j] in postorder && node in PredOf(pred, children[j])
      {
        var child := children[i];
        PostNext(g, node, children, i, postorder);
        EdgeKeeps(g, visited, pred, postorder, open + {node}, node, child);
        pred := pred[child := PredOf(pred, child) + [node]];
        label L:
        Dfs(child, open + {node});
        forall n | n in visited && n !in old@L(visited)
          ensures Descends(g, node, n)
        {
          DescendsFromChild(g, node, child, n);
        }
      }
      FinishKeeps(g, visited, pred, postorder, open, node);
      assert children[|children|..] == [];
      PostEnds(g, node, old(postorder), postorder);
      postorder := postorder + [node];
    }
  }

  lemma ChildrenSmaller(
    g: Graph, visited: set<Node>, pred: map<Node, seq<Node>>, order: seq<Node>, open: set<Node>, n: Node)
    requires Consistent(g, visited, pred, order, open) && n in g
    ensures forall i :: 0 <= i < |g[n]| ==> g[n][i] in g && g[n][i] < n
  {
  }

  // ---------- the whole pass ----------

  datatype Span = Span(name: string, postIndex: nat, dominatorIndex: nat)

  /** `n` is below `root` in the graph. */
  ghost predicate OnChains(g: Graph, root: Node, d: Node, n: Node) {
    forall p :: IsChain(g, root, p, n) ==> d in p
  }

  /** Predecessors along a chain are exactly children links read backwards. */
  lemma ChainsArePaths(
    g: Graph, visited: set<Node>, pred: map<Node, seq<Node>>, order: seq<Node>, root: Node, p: seq<Node>, n: Node)
    requires Consistent(g, visited, pred, order, {}) && root in order
    ensures IsChain(g, root, p, n) <==> IsPath(pred, root, p, n)
  {
    if IsChain(g, root, p, n) {
      forall i | 0 < i < |p| ensures p[i - 1] in PredOf(pred, p[i]) {
        ChainStaysListed(g, visited, pred, order, root, p, n, i - 1);
        assert p[i - 1] in Elems(order);
      }
    }
    if IsPath(pred, root, p, n) {
      forall i | 0 < i < |p| ensures Linked(g, p[i - 1], p[i]) {
        assert p[i - 1] in PredOf(pred, p[i]);
      }
    }
  }

  lemma {:induction false} ChainStaysListed(
    g: Graph, visited: set<Node>, pred: map<Node, seq<Node>>, order: seq<Node>, root: Node, p: seq<Node>, n: Node,
    i: nat)
    requires Consistent(g, visited, pred, order, {}) && root in order && IsChain(g, root, p, n) && i < |p|
    ensures p[i] in order
    decreases i
  {
    if i > 0 {
      ChainStaysListed(g, visited, pred, order, root, p, n, i - 1);
      var k :| 0 <= k < |order| && order[k] == p[i - 1];
      assert p[i] in order[..k];
    }
  }

  /** Going down a chain, post-order positions decrease. */
  lemma {:induction false} ChainDescends(
    g: Graph, order: seq<Node>, root: Node, p: seq<Node>, n: Node, i: nat, a: nat, b: nat)
    requires ChildrenFirst(g, order) && NoDup(order) && IsChain(g, root, p, n) && i < |p| - 1
    requires a < |order| && b < |order| && order[a] == p[i] && order[b] == n
    ensures b < a
    decreases |p| - i
  {
    assert Linked(g, p[i + 1 - 1], p[i + 1]);
    assert p[i + 1] in order[..a];
    var k :| 0 <= k < a && order[k] == p[i + 1];
    if i + 1 < |p| - 1 {
      ChainDescends(g, order, root, p, n, i + 1, k, b);
    }
  }

  /** The immediate dominator in the graph: the closest node that every chain from the root passes. */
  ghost predicate IsGraphIdom(g: Graph, root: Node, d: Node, n: Node) {
    d != n && OnChains(g, root, d, n) && forall e :: e != n && OnChains(g, root, e, n) ==> OnChains(g, root, e, d)
  }

  /** What the traversal hands to the dominator computation. */
  lemma TraversalFacts(g: Graph, visited: set<Node>, pred: map<Node, seq<Node>>, order: seq<Node>, root: Node)
    requires Consistent(g, visited, pred, order, {}) && root in order
    requires forall n :: n in visited ==> Descends(g, root, n)
    ensures ClosedUnder(order, pred)
    ensures forall n :: n in order ==> Reachable(pred, root, n)
    ensures forall n :: n in order <==> Descends(g, root, n)
    ensures forall d, n :: Dominates(pred, root, d, n) <==> OnChains(g, root, d, n)
  {
    forall n, i | n in order && 0 <= i < |PredOf(pred, n)| ensures PredOf(pred, n)[i] in order {
      assert PredOf(pred, n)[i] in PredOf(pred, n);
      assert PredOf(pred, n)[i] in Elems(order);
    }
    forall n | n in order ensures Reachable(pred, root, n) {
      assert n in Elems(order);
      var p :| IsChain(g, root, p, n);
      ChainsArePaths(g, visited, pred, order, root, p, n);
    }
    forall n ensures n in order <==> Descends(g, root, n) {
      if n in order {
        assert n in Elems(order);
      }
      if Descends(g, root, n) {
        var p :| IsChain(g, root, p, n);
        ChainStaysListed(g, visited, pred, order, root, p, n, |p| - 1);
      }
    }
    forall d, n ensures Dominates(pred, root, d, n) <==> OnChains(g, root, d, n) {
      SameDominance(g, visited, pred, order, root, d, n);
    }
  }

  lemma SameDominance(
    g: Graph, visited: set<Node>, pred: map<Node, seq<Node>>, order: seq<Node>, root: Node, d: Node, n: Node)
    requires Consistent(g, visited, pred, order, {}) && root in order
    ensures Dominates(pred, root, d, n) <==> OnChains(g, root, d, n)
  {
    if Dominates(pred, root, d, n) {
      forall p | IsChain(g, root, p, n) ensures d in p {
        ChainsArePaths(g, visited, pred, order, root, p, n);
      }
    }
    if OnChains(g, root, d, n) {
      forall p | IsPath(pred, root, p, n) ensures d in p {
        ChainsArePaths(g, visited, pred, order, root, p, n);
      }
    }
  }

  /** The immediate dominator is finished after the node. */
  lemma IdomComesLater(g: Graph, order: seq<Node>, root: Node, d: Node, n: Node, a: nat, b: nat)
    requires ChildrenFirst(g, order) && NoDup(order) && Descends(g, root, n) && IsGraphIdom(g, root, d, n)
    requires a < |order| && b < |order| && order[a] == d && order[b] == n
    ensures b < a
  {
    var p :| IsChain(g, root, p, n);
    var i :| 0 <= i < |p| && p[i] == d;
    ChainDescends(g, order, root, p, n, i, a, b);
  }

  lemma IdomIsListed(g: Graph, order: seq<Node>, root: Node, d: Node, n: Node)
    requires forall m :: m in order <==> Descends(g, root, m)
    requires n in order && OnChains(g, root, d, n)
    ensures d in order
  {
    var p :| IsChain(g, root, p, n);
    var i :| 0 <= i < |p| && p[i] == d;
    assert IsChain(g, root, p[..i + 1], d);
  }

  /** Going down a chain, creation numbers decrease. */
  lemma {:induction false} ChainShrinks(g: Graph, root: Node, p: seq<Node>, n: Node, i: nat)
    requires WellFormed(g) && IsChain(g, root, p, n) && i < |p| - 1
    ensures n < p[i]
    decreases |p| - i
  {
    assert Linked(g, p[i + 1 - 1], p[i + 1]);
    var k :| 0 <= k < |g[p[i]]| && g[p[i]][k] == p[i + 1];
    if i + 1 < |p| - 1 {
      ChainShrinks(g, root, p, n, i + 1);
    }
  }

  lemma OnChainsIsAbove(g: Graph, root: Node, d: Node, n: Node)
    requires WellFormed(g) && Descends(g, root, n) && OnChains(g, root, d, n)
    ensures d >= n && Descends(g, root, d)
  {
    var p :| IsChain(g, root, p, n);
    var i :| 0 <= i < |p| && p[i] == d;
    assert IsChain(g, root, p[..i + 1], d);
    if i < |p| - 1 {
      ChainShrinks(g, root, p, n, i);
    }
  }

  /** The span of a node is determined by the graph and its root, whatever order the sets were scanned in. */
  lemma SpanUnique(g: Graph, root: Node, n: Node, s: Span, t: Span)
    requires WellFormed(g) && root in g && Descends(g, root, n)
    requires GoodSpan(g, root, Post(g, root, []), n, s) && GoodSpan(g, root, Post(g, root, []), n, t)
    ensures s == t
  {
    hide Post;
    var order := Post(g, root, []);
    PostNoDup(g, root, []);
    if n != root {
      var d, e := order[s.dominatorIndex], order[t.dominatorIndex];
      OnChainsIsAbove(g, root, d, n);
      OnChainsIsAbove(g, root, e, n);
      OnChainsIsAbove(g, root, d, e);
      OnChainsIsAbove(g, root, e, d);
    }
  }

  /** The span that node `n` must receive. */
  ghost predicate GoodSpan(g: Graph, root: Node, order: seq<Node>, n: Node, s: Span) {
    && s.name == "pass.capture_post_dfs"
    && s.postIndex < |order| && order[s.postIndex] == n
    && s.dominatorIndex < |order|
    && (if n == root then s.dominatorIndex == s.postIndex
        else IsGraphIdom(g, root, order[s.dominatorIndex], n) && s.postIndex < s.dominatorIndex)
  }

  method PostIndices(order: seq<Node>) returns (index: map<Node, nat>)
    requires NoDup(order)
    ensures index.Keys == Elems(order) && forall n :: n in index ==> index[n] < |order| && order[index[n]] == n
  {
    index := map[];
    for i := 0 to |order|
      invariant index.Keys == Elems(order[..i])
      invariant forall n :: n in index ==> index[n] < i && order[index[n]] == n
    {
      assert order[..i + 1] == order[..i] + [order[i]];
      index := index[order[i] := i];
    }
    assert order[..|order|] == order;
  }

  /**
   Gives every node without a span its post-order position and that of its immediate
   dominator; nodes that already have a span keep it.
   */
  method CapturePostDfsIndexInSpans(
    g: Graph, root: Node, spans: map<Node, Span>) returns (order: seq<Node>, spans': map<Node, Span>)
    requires WellFormed(g) && root in g
    ensures order == Post(g, root, [])
    ensures NoDup(order) && ChildrenFirst(g, order) && forall n :: n in order <==> Descends(g, root, n)
    ensures forall n :: n in spans ==> n in spans' && spans'[n] == spans[n]
    ensures forall n :: n in order && n !in spans ==> n in spans' && GoodSpan(g, root, order, n, spans'[n])
    ensures forall n :: n in spans' ==> n in spans || n in order
  {
    var t := new Traversal(g);
    t.Dfs(root, {});
    order := t.postorder;
    TraversalFacts(g, t.visited, t.pred, order, root);
    var postIndex := PostIndices(order);
    var dom := ComputeDominators(order, t.pred, root);
    spans' := AssignSpans(g, root, order, postIndex, dom, t.pred, spans);
  }

  method AssignSpans(
    g: Graph, root: Node, order: seq<Node>, postIndex: map<Node, nat>, dom: DomMap, ghost pred: map<Node, seq<Node>>,
    spans: map<Node, Span>)
    returns (spans': map<Node, Span>)
    requires NoDup(order) && ChildrenFirst(g, order) && (forall n :: n in order <==> Descends(g, root, n))
    requires postIndex.Keys == Elems(order)
    requires forall n :: n in postIndex ==> postIndex[n] < |order| && order[postIndex[n]] == n
    requires Exact(dom, order, pred, root) && forall n :: n in order ==> Reachable(pred, root, n)
    requires forall d, n :: Dominates(pred, root, d, n) <==> OnChains(g, root, d, n)
    ensures forall n :: n in spans ==> n in spans' && spans'[n] == spans[n]
    ensures forall n :: n in order && n !in spans ==> n in spans' && GoodSpan(g, root, order, n, spans'[n])
    ensures forall n :: n in spans' ==> n in spans || n in order
  {
    hide Descends, Dominates, Reachable, OnChains, ChildrenFirst, Exact;
    spans' := spans;
    for i := 0 to |order|
      invariant forall n :: n in spans ==> n in spans' && spans'[n] == spans[n]
      invariant forall n :: n in order[..i] && n !in spans ==> n in spans' && GoodSpan(g, root, order, n, spans'[n])
      invariant forall n :: n in spans' ==> n in spans || n in order
    {
      var n := order[i];
      assert order[..i + 1] == order[..i] + [n];
      assert n in Elems(order);
      var d := n;
      if n != root {
        d := FindIdom(g, root, order, dom, pred, n);
        assert d in Elems(order);
        IdomComesLater(g, order, root, d, n, postIndex[d], postIndex[n]);
      }
      if n !in spans {
        spans' := spans'[n := Span("pass.capture_post_dfs", postIndex[n], postIndex[d])];
      }
    }
    assert order[..|order|] == order;
  }

  method FindIdom(
    g: Graph, root: Node, order: seq<Node>, dom: DomMap, ghost pred: map<Node, seq<Node>>, n: Node) returns (d: Node)
    requires (forall m :: m in order <==> Descends(g, root, m)) && n in order && n != root
    requires Exact(dom, order, pred, root) && forall m :: m in order ==> Reachable(pred, root, m)
    requires forall d, n :: Dominates(pred, root, d, n) <==> OnChains(g, root, d, n)
    ensures d in order && IsGraphIdom(g, root, d, n)
  {
    forall m, e | m in order && e in dom[m] ensures e in order {
      IdomIsListed(g, order, root, e, m);
    }
    d := PickIdom(n, root, dom, order, pred);
    IdomIsListed(g, order, root, d, n);
  }
}
