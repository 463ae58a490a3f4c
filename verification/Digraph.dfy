/**
 Finite directed graphs given by adjacency lists, and what it means for one
 node to reach another. PlanGraph uses this for both of its edge directions.

 A path is a sequence of nodes, a walk a path between two given ends of at
 least one edge, and a cone everything reachable by walks. A graph is acyclic
 when no node reaches itself; an order in which every edge points backwards
 shows that.
 */
module Digraph {
  import opened Prelude

  // Node ids are strings in the source and are only ever compared. The ids the
  // planner and the executor single out are named; Other stands for any further id.
  datatype NodeId =
    | IMPACT | DESIGN | IMPLEMENT | AUTHOR_TESTS | DOCUMENT
    | VERIFY | REVIEW | RELEASE | REFACTOR
    | Other(tag: nat)

  type Adj = map<NodeId, seq<NodeId>>

  ghost predicate Closed(adj: Adj) {
    forall a, b :: a in adj && b in adj[a] ==> b in adj
  }

  predicate Edge(adj: Adj, a: NodeId, b: NodeId) {
    a in adj && b in adj[a]
  }

  ghost predicate IsPath(adj: Adj, p: seq<NodeId>) {
    && p != []
    && p[0] in adj
    && (|p| > 1 ==> Edge(adj, p[0], p[1]) && IsPath(adj, p[1..]))
  }

  ghost predicate Walk(adj: Adj, p: seq<NodeId>, a: NodeId, b: NodeId) {
    IsPath(adj, p) && |p| >= 2 && p[0] == a && p[|p| - 1] == b
  }

  /** b can be reached from a along one edge or more. */
  ghost predicate Reaches(adj: Adj, a: NodeId, b: NodeId) {
    exists p :: Walk(adj, p, a, b)
  }

  ghost predicate Acyclic(adj: Adj) {
    forall a :: a in adj ==> !Reaches(adj, a, a)
  }

  /** Everything reachable from a. */
  ghost function Cone(adj: Adj, a: NodeId): set<NodeId> {
    set b | b in adj && Reaches(adj, a, b)
  }

  lemma {:induction false} PathStep(adj: Adj, p: seq<NodeId>, i: nat)
    requires IsPath(adj, p) && i < |p|
    ensures p[i] in adj
    ensures i + 1 < |p| ==> Edge(adj, p[i], p[i + 1])
    ensures IsPath(adj, p[i..])
  {
    if i > 0 {
      PathStep(adj, p[1..], i - 1);
      assert p[1..][i - 1..] == p[i..];
    } else {
      assert p[0..] == p;
    }
  }

  lemma {:induction false} PathIntro(adj: Adj, p: seq<NodeId>)
    requires p != [] && p[0] in adj
    requires forall i :: 0 <= i < |p| ==> p[i] in adj
    requires forall i :: 0 <= i < |p| - 1 ==> Edge(adj, p[i], p[i + 1])
    ensures IsPath(adj, p)
  {
    if |p| > 1 {
      var q := p[1..];
      forall i | 0 <= i < |q| - 1
        ensures Edge(adj, q[i], q[i + 1])
      {
        assert Edge(adj, p[i + 1], p[i + 2]);
      }
      PathIntro(adj, q);
    }
  }

  lemma {:induction false} PathConcat(adj: Adj, p: seq<NodeId>, q: seq<NodeId>)
    requires IsPath(adj, p) && IsPath(adj, q) && Edge(adj, p[|p| - 1], q[0])
    ensures IsPath(adj, p + q)
  {
    assert (p + q)[1..] == p[1..] + q;
    if |p| > 1 {
      PathConcat(adj, p[1..], q);
    } else {
      assert p + q == [p[0]] + q;
    }
  }

  lemma {:induction false} PathPrefix(adj: Adj, p: seq<NodeId>, n: nat)
    requires IsPath(adj, p) && 0 < n <= |p|
    ensures IsPath(adj, p[..n])
  {
    if n > 1 {
      PathPrefix(adj, p[1..], n - 1);
      assert p[..n][1..] == p[1..][..n - 1];
    }
  }

  lemma EdgeReaches(adj: Adj, a: NodeId, b: NodeId)
    requires Edge(adj, a, b) && b in adj
    ensures Reaches(adj, a, b)
  {
    assert IsPath(adj, [a, b][1..]);
    assert Walk(adj, [a, b], a, b);
  }

  lemma ReachesInside(adj: Adj, a: NodeId, b: NodeId)
    requires Reaches(adj, a, b)
    ensures a in adj && b in adj
  {
    var p :| Walk(adj, p, a, b);
    PathStep(adj, p, |p| - 1);
  }

  lemma ReachesTrans(adj: Adj, a: NodeId, b: NodeId, c: NodeId)
    requires Reaches(adj, a, b) && Reaches(adj, b, c)
    ensures Reaches(adj, a, c)
  {
    var p :| Walk(adj, p, a, b);
    var q :| Walk(adj, q, b, c);
    PathConcat(adj, p, q[1..]);
    assert Walk(adj, p + q[1..], a, c);
  }

  /** A walk of one edge, or an edge followed by a walk. */
  lemma FirstStep(adj: Adj, a: NodeId, c: NodeId) returns (b: NodeId)
    requires Reaches(adj, a, c)
    ensures Edge(adj, a, b) && b in adj
    ensures b == c || Reaches(adj, b, c)
  {
    var p :| Walk(adj, p, a, c);
    b := p[1];
    PathStep(adj, p, 1);
    if |p| > 2 {
      assert Walk(adj, p[1..], b, c);
    }
  }

  /** A walk of one edge, or a walk followed by an edge. */
  lemma LastStep(adj: Adj, a: NodeId, c: NodeId) returns (b: NodeId)
    requires Reaches(adj, a, c)
    ensures Edge(adj, b, c)
    ensures b == a || Reaches(adj, a, b)
  {
    var p :| Walk(adj, p, a, c);
    var n := |p| - 1;
    b := p[n - 1];
    PathStep(adj, p, n - 1);
    if n > 1 {
      PathPrefix(adj, p, n);
      assert Walk(adj, p[..n], a, b);
    }
  }

  /** A set closed under the edges is closed under reachability. */
  lemma ClosedUnderReach(adj: Adj, s: set<NodeId>, a: NodeId, b: NodeId)
    requires forall x, y :: x in s && Edge(adj, x, y) ==> y in s
    requires a in s && Reaches(adj, a, b)
    ensures b in s
  {
    var p :| Walk(adj, p, a, b);
    PathStaysIn(adj, s, p);
  }

  lemma {:induction false} PathStaysIn(adj: Adj, s: set<NodeId>, p: seq<NodeId>)
    requires forall x, y :: x in s && Edge(adj, x, y) ==> y in s
    requires IsPath(adj, p) && p[0] in s
    ensures forall i :: 0 <= i < |p| ==> p[i] in s
  {
    if |p| > 1 {
      PathStaysIn(adj, s, p[1..]);
      assert forall i :: 0 < i < |p| ==> p[i] == p[1..][i - 1];
    }
  }

  /** More edges, more walks. */
  lemma {:induction false} PathMonotone(adj: Adj, big: Adj, p: seq<NodeId>)
    requires forall a, b :: Edge(adj, a, b) ==> Edge(big, a, b)
    requires adj.Keys <= big.Keys
    requires IsPath(adj, p)
    ensures IsPath(big, p)
  {
    if |p| > 1 {
      PathMonotone(adj, big, p[1..]);
    }
  }

  lemma ReachesMonotone(adj: Adj, big: Adj, a: NodeId, b: NodeId)
    requires forall x, y :: Edge(adj, x, y) ==> Edge(big, x, y)
    requires adj.Keys <= big.Keys
    requires Reaches(adj, a, b)
    ensures Reaches(big, a, b)
  {
    var p :| Walk(adj, p, a, b);
    PathMonotone(adj, big, p);
    assert Walk(big, p, a, b);
  }

  ghost predicate Transposed(adj: Adj, rev: Adj) {
    && adj.Keys == rev.Keys
    && forall a, b :: Edge(adj, a, b) <==> Edge(rev, b, a)
  }

  lemma {:induction false} ReversePath(adj: Adj, rev: Adj, p: seq<NodeId>) returns (q: seq<NodeId>)
    requires Transposed(adj, rev) && IsPath(adj, p)
    ensures IsPath(rev, q) && |q| == |p| && q[0] == p[|p| - 1] && q[|q| - 1] == p[0]
  {
    if |p| == 1 {
      q := p;
    } else {
      var r := ReversePath(adj, rev, p[1..]);
      PathConcat(rev, r, [p[0]]);
      q := r + [p[0]];
    }
  }

  /** Reachability in the transposed graph is reachability backwards. */
  lemma TransposedReaches(adj: Adj, rev: Adj, a: NodeId, b: NodeId)
    requires Transposed(adj, rev)
    ensures Reaches(adj, a, b) <==> Reaches(rev, b, a)
  {
    if Reaches(adj, a, b) {
      var p :| Walk(adj, p, a, b);
      var q := ReversePath(adj, rev, p);
      assert Walk(rev, q, b, a);
    }
    if Reaches(rev, b, a) {
      var p :| Walk(rev, p, b, a);
      var q := ReversePath(rev, adj, p);
      assert Walk(adj, q, a, b);
    }
  }

  /** In an acyclic graph, following an edge strictly shrinks what lies ahead. */
  lemma ConeShrinks(adj: Adj, a: NodeId, b: NodeId)
    requires Closed(adj) && Acyclic(adj) && Edge(adj, a, b)
    ensures Cone(adj, b) < Cone(adj, a)
  {
    EdgeReaches(adj, a, b);
    forall c | c in Cone(adj, b)
      ensures c in Cone(adj, a)
    {
      ReachesTrans(adj, a, b, c);
    }
    assert b in Cone(adj, a) && b !in Cone(adj, b);
  }

  /** Every nonempty set of nodes of an acyclic graph has a member with no edge into the set. */
  lemma {:induction false} MinimalIn(adj: Adj, s: set<NodeId>, n: NodeId) returns (m: NodeId)
    requires Closed(adj) && Acyclic(adj) && s <= adj.Keys && n in s
    ensures m in s && forall d :: d in adj[m] ==> d !in s
    decreases |Cone(adj, n)|
  {
    if d :| d in adj[n] && d in s {
      ConeShrinks(adj, n, d);
      SubsetCard(Cone(adj, d), Cone(adj, n));
      m := MinimalIn(adj, s, d);
    } else {
      m := n;
    }
  }

  /** topo lists every node once, each after everything its edges lead to. */
  ghost predicate IsTopo(adj: Adj, topo: seq<NodeId>) {
    && Distinct(topo)
    && (forall n :: n in topo <==> n in adj)
    && forall i, d :: 0 <= i < |topo| && d in adj[topo[i]] ==> d in topo[..i]
  }

  lemma {:induction false} TopoDescends(adj: Adj, topo: seq<NodeId>, p: seq<NodeId>, i: nat)
    requires IsTopo(adj, topo) && IsPath(adj, p) && |p| >= 2
    requires i < |topo| && topo[i] == p[0]
    ensures p[|p| - 1] in topo[..i]
  {
    var j :| 0 <= j < i && topo[j] == p[1];
    if |p| > 2 {
      TopoDescends(adj, topo, p[1..], j);
      assert forall x :: x in topo[..j] ==> x in topo[..i];
    }
  }

  /** A graph that can be listed this way has no cycle. */
  lemma TopoAcyclic(adj: Adj, topo: seq<NodeId>)
    requires IsTopo(adj, topo)
    ensures Acyclic(adj)
  {
    forall a | a in adj && Reaches(adj, a, a)
      ensures false
    {
      var p :| Walk(adj, p, a, a);
      var i :| 0 <= i < |topo| && topo[i] == a;
      TopoDescends(adj, topo, p, i);
    }
  }
}
