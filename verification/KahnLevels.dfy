/**
 keel/graph.py, _compute_levels: Kahn's algorithm, batched one level at a time.

 Each node waits for a number of dependencies; when a level is finished its
 dependents are told, and those that wait for nothing more form the next level,
 in plan order. The invariant ties the counters to the nodes already placed.
 */
module KahnLevels {
  import opened Prelude
  import opened Digraph
  import opened PlanGraphs

  /** How many entries of xs are still outside done. */
  ghost function Waiting(xs: seq<NodeId>, done: set<NodeId>): nat {
    if xs == [] then 0 else (if xs[0] in done then 0 else 1) + Waiting(xs[1..], done)
  }

  ghost predicate DistinctLists(adj: Adj) {
    forall n :: n in adj ==> Distinct(adj[n])
  }

  lemma {:induction false} WaitingDrops(xs: seq<NodeId>, done: set<NodeId>, d: NodeId)
    requires Distinct(xs) && d !in done
    ensures Waiting(xs, done + {d}) == Waiting(xs, done) - (if d in xs then 1 else 0)
  {
    if xs != [] {
      DistinctTail(xs);
      WaitingDrops(xs[1..], done, d);
    }
  }

  lemma {:induction false} WaitingAll(xs: seq<NodeId>)
    ensures Waiting(xs, {}) == |xs|
  {
    if xs != [] {
      WaitingAll(xs[1..]);
    }
  }

  lemma {:induction false} WaitingZero(xs: seq<NodeId>, done: set<NodeId>)
    ensures Waiting(xs, done) == 0 <==> forall d :: d in xs ==> d in done
  {
    if xs != [] {
      WaitingZero(xs[1..], done);
    }
  }

  /** Every counter is the number of dependencies still outside done. */
  ghost predicate Counting(deps: Adj, remaining: map<NodeId, int>, done: set<NodeId>) {
    remaining.Keys == deps.Keys && forall n :: n in deps ==> remaining[n] == Waiting(deps[n], done)
  }

  /** n is outside placed and waits for nothing once done is finished. */
  ghost predicate Released(deps: Adj, done: set<NodeId>, placed: set<NodeId>, n: NodeId) {
    n in deps && n !in placed && forall d :: d in deps[n] ==> d in done
  }

  /** Part way through one node's children: those in hit have been told that nid is finished. */
  ghost predicate Telling(deps: Adj, remaining: map<NodeId, int>, next: seq<NodeId>,
                          done: set<NodeId>, nid: NodeId, hit: set<NodeId>, placed: set<NodeId>) {
    && remaining.Keys == deps.Keys
    && (forall n :: n in deps ==> remaining[n] == Waiting(deps[n], if n in hit then done + {nid} else done))
    && NextIs(deps, next, done, nid, hit, placed)
  }

  ghost predicate NextIs(deps: Adj, next: seq<NodeId>, done: set<NodeId>, nid: NodeId, hit: set<NodeId>, placed: set<NodeId>) {
    && Distinct(next)
    && forall n :: n in next <==>
         Released(deps, done, placed, n) || (n in hit && Released(deps, done + {nid}, placed, n))
  }

  lemma NextGrows(deps: Adj, next: seq<NodeId>, done: set<NodeId>, nid: NodeId, hit: set<NodeId>, placed: set<NodeId>, child: NodeId)
    requires NextIs(deps, next, done, nid, hit, placed) && child !in hit && !Released(deps, done, placed, child)
    ensures NextIs(deps, if Released(deps, done + {nid}, placed, child) then next + [child] else next, done, nid, hit + {child}, placed)
  {
    assert child !in next;
  }

  lemma TellChild(deps: Adj, remaining: map<NodeId, int>, next: seq<NodeId>,
                  done: set<NodeId>, nid: NodeId, hit: set<NodeId>, placed: set<NodeId>, child: NodeId)
    requires DistinctLists(deps) && Telling(deps, remaining, next, done, nid, hit, placed)
    requires nid !in done && child in deps && nid in deps[child] && child !in hit
    requires forall n, d :: n in placed && n in deps && d in deps[n] ==> d in done
    ensures var r := remaining[child := remaining[child] - 1];
      Telling(deps, r, if r[child] == 0 then next + [child] else next, done, nid, hit + {child}, placed)
  {
    WaitingDrops(deps[child], done, nid);
    WaitingZero(deps[child], done + {nid});
    assert child !in placed;
    assert !Released(deps, done, placed, child);
    ChildReleased(deps, done, nid, placed, child, remaining[child] - 1);
    NextGrows(deps, next, done, nid, hit, placed, child);
  }

  lemma ChildReleased(deps: Adj, done: set<NodeId>, nid: NodeId, placed: set<NodeId>, child: NodeId, waiting: int)
    requires child in deps && child !in placed && waiting == Waiting(deps[child], done + {nid})
    ensures waiting == 0 <==> Released(deps, done + {nid}, placed, child)
  {
    WaitingZero(deps[child], done + {nid});
  }

  lemma ToldAll(deps: Adj, remaining: map<NodeId, int>, next: seq<NodeId>,
                done: set<NodeId>, nid: NodeId, hit: set<NodeId>, placed: set<NodeId>)
    requires DistinctLists(deps) && Telling(deps, remaining, next, done, nid, hit, placed)
    requires nid !in done && forall n :: n in hit <==> n in deps && nid in deps[n]
    ensures Counting(deps, remaining, done + {nid})
    ensures forall n :: n in next <==> Released(deps, done + {nid}, placed, n)
  {
    forall n | n in deps
      ensures remaining[n] == Waiting(deps[n], done + {nid})
    {
      WaitingDrops(deps[n], done, nid);
    }
    forall n
      ensures n in next <==> Released(deps, done + {nid}, placed, n)
    {
    }
  }

  /** Finish one node: decrement every child's counter, collecting those that reach zero. */
  method Release(deps: Adj, dependents: Adj, nid: NodeId, remaining0: map<NodeId, int>, next0: seq<NodeId>,
                 ghost done: set<NodeId>, ghost placed: set<NodeId>)
    returns (remaining: map<NodeId, int>, next: seq<NodeId>)
    requires Closed(deps) && Transposed(deps, dependents) && DistinctLists(deps) && DistinctLists(dependents)
    requires nid in deps && nid !in done
    requires forall n, d :: n in placed && n in deps && d in deps[n] ==> d in done
    requires Counting(deps, remaining0, done)
    requires Distinct(next0) && forall n :: n in next0 <==> Released(deps, done, placed, n)
    ensures Counting(deps, remaining, done + {nid})
    ensures Distinct(next) && forall n :: n in next <==> Released(deps, done + {nid}, placed, n)
  {
    remaining, next := remaining0, next0;
    var children := dependents[nid];
    ghost var hit: set<NodeId> := {};
    for j := 0 to |children|
      invariant hit == ToSet(children[..j])
      invariant Telling(deps, remaining, next, done, nid, hit, placed)
    {
      var child := children[j];
      TakeOne(children, j);
      ChildOf(deps, dependents, nid, child);
      TellChild(deps, remaining, next, done, nid, hit, placed, child);
      remaining := remaining[child := remaining[child] - 1];
      if remaining[child] == 0 {
        next := next + [child];
      }
      hit := hit + {child};
    }
    AllChildren(deps, dependents, nid);
    assert children[..|children|] == children;
    ToldAll(deps, remaining, next, done, nid, hit, placed);
  }

  lemma ChildOf(deps: Adj, dependents: Adj, nid: NodeId, child: NodeId)
    requires Transposed(deps, dependents) && nid in dependents && child in dependents[nid]
    ensures child in deps && nid in deps[child]
  {
    assert Edge(dependents, nid, child) && Edge(deps, child, nid);
  }

  lemma AllChildren(deps: Adj, dependents: Adj, nid: NodeId)
    requires Transposed(deps, dependents) && nid in dependents
    ensures forall n :: n in ToSet(dependents[nid]) <==> n in deps && nid in deps[n]
  {
    forall n
      ensures n in dependents[nid] <==> n in deps && nid in deps[n]
    {
      assert Edge(dependents, nid, n) <==> Edge(deps, n, nid);
    }
  }

  /** The frontier is what waits for nothing, in plan order, and hangs off the last level. */
  ghost predicate IsFrontier(order: seq<NodeId>, deps: Adj, levels: seq<seq<NodeId>>, frontier: seq<NodeId>) {
    var done := Below(levels, |levels|);
    && frontier == InOrder(order, ToSet(frontier))
    && (forall n :: n in frontier <==> Released(deps, done, done, n))
    && (levels != [] ==> forall n :: n in frontier ==> exists d :: d in deps[n] && d in levels[|levels| - 1])
  }

  ghost predicate Layers(order: seq<NodeId>, deps: Adj, levels: seq<seq<NodeId>>) {
    forall k {:trigger Layer(order, deps, levels, k)} :: 0 <= k < |levels| ==> Layer(order, deps, levels, k)
  }

  /** Placed nodes wait only for placed nodes. */
  ghost predicate Settled(deps: Adj, done: set<NodeId>) {
    done <= deps.Keys && forall n, d :: n in done && d in deps[n] ==> d in done
  }

  lemma InOrderOf(order: seq<NodeId>, xs: seq<NodeId>)
    requires Distinct(order) && forall n :: n in xs ==> n in order
    ensures var r := InOrder(order, ToSet(xs));
      Distinct(r) && ToSet(r) == ToSet(xs) && r == InOrder(order, ToSet(r))
  {
    var r := InOrder(order, ToSet(xs));
    assert ToSet(r) == ToSet(xs);
  }

  lemma PushLevel(order: seq<NodeId>, deps: Adj, levels: seq<seq<NodeId>>, frontier: seq<NodeId>)
    requires Layers(order, deps, levels) && IsFrontier(order, deps, levels, frontier) && frontier != []
    ensures Layers(order, deps, levels + [frontier])
    ensures Below(levels + [frontier], |levels| + 1) == Below(levels, |levels|) + ToSet(frontier)
  {
    var big := levels + [frontier];
    BelowExtend(levels, frontier, |levels|);
    forall k {:trigger Layer(order, deps, big, k)} | 0 <= k < |big|
      ensures Layer(order, deps, big, k)
    {
      PushedLayer(order, deps, levels, frontier, k);
    }
  }

  lemma PushedLayer(order: seq<NodeId>, deps: Adj, levels: seq<seq<NodeId>>, frontier: seq<NodeId>, k: nat)
    requires Layers(order, deps, levels) && IsFrontier(order, deps, levels, frontier) && frontier != []
    requires k <= |levels|
    ensures Layer(order, deps, levels + [frontier], k)
  {
    if k < |levels| {
      assert Layer(order, deps, levels, k);
      KeepLayer(order, deps, levels, frontier, k);
    } else {
      TopLayer(order, deps, levels, frontier);
    }
  }

  lemma KeepLayer(order: seq<NodeId>, deps: Adj, levels: seq<seq<NodeId>>, frontier: seq<NodeId>, k: nat)
    requires k < |levels| && Layer(order, deps, levels, k)
    ensures Layer(order, deps, levels + [frontier], k)
  {
    BelowExtend(levels, frontier, k);
    assert (levels + [frontier])[k] == levels[k];
    if k > 0 {
      assert (levels + [frontier])[k - 1] == levels[k - 1];
    }
  }

  lemma TopLayer(order: seq<NodeId>, deps: Adj, levels: seq<seq<NodeId>>, frontier: seq<NodeId>)
    requires IsFrontier(order, deps, levels, frontier) && frontier != []
    ensures Layer(order, deps, levels + [frontier], |levels|)
  {
    BelowExtend(levels, frontier, |levels|);
    var big := levels + [frontier];
    assert big[|levels|] == frontier;
    if |levels| > 0 {
      assert big[|levels| - 1] == levels[|levels| - 1];
    }
  }

  lemma NextFrontier(order: seq<NodeId>, deps: Adj, levels: seq<seq<NodeId>>, frontier: seq<NodeId>, next: seq<NodeId>)
    requires Distinct(order) && ToSet(order) == deps.Keys
    requires IsFrontier(order, deps, levels, frontier) && frontier != []
    requires Below(levels + [frontier], |levels| + 1) == Below(levels, |levels|) + ToSet(frontier)
    requires var placed := Below(levels, |levels|) + ToSet(frontier);
      forall n :: n in next <==> Released(deps, placed, placed, n)
    ensures IsFrontier(order, deps, levels + [frontier], InOrder(order, ToSet(next)))
  {
    forall n | n in next
      ensures n in order
    {
      assert n in ToSet(order);
    }
    InOrderOf(order, next);
    var done := Below(levels, |levels|);
    forall n | n in next
      ensures exists d :: d in deps[n] && d in frontier
    {
      assert !Released(deps, done, done, n);
      var d :| d in deps[n] && d !in done;
    }
    var f := InOrder(order, ToSet(next));
    assert forall n :: n in f <==> n in ToSet(f);
    assert forall n :: n in ToSet(next) <==> n in next;
  }

  lemma FirstFrontier(order: seq<NodeId>, deps: Adj, remaining: map<NodeId, int>)
    requires Distinct(order) && ToSet(order) == deps.Keys && Counting(deps, remaining, {})
    ensures IsFrontier(order, deps, [], Filter(order, n => n in remaining && remaining[n] == 0))
  {
    var f := Filter(order, n => n in remaining && remaining[n] == 0);
    forall n
      ensures n in f <==> Released(deps, {}, {}, n)
    {
      assert n in order <==> n in ToSet(order);
      if n in deps {
        WaitingZero(deps[n], {});
      }
    }
    FilterSame(order, n => n in remaining && remaining[n] == 0, n => n in ToSet(f));
  }

  /** Nothing released means everything placed: an acyclic graph cannot get stuck. */
  lemma NothingLeft(deps: Adj, done: set<NodeId>)
    requires Closed(deps) && Acyclic(deps) && done <= deps.Keys
    requires forall n :: !Released(deps, done, done, n)
    ensures done == deps.Keys
  {
    if n :| n in deps && n !in done {
      var m := MinimalIn(deps, deps.Keys - done, n);
      assert Released(deps, done, done, m);
    }
  }

  ghost predicate Rounds(order: seq<NodeId>, deps: Adj, levels: seq<seq<NodeId>>, frontier: seq<NodeId>, remaining: map<NodeId, int>) {
    var done := Below(levels, |levels|);
    && Layers(order, deps, levels)
    && IsFrontier(order, deps, levels, frontier)
    && Settled(deps, done)
    && Counting(deps, remaining, done)
  }

  lemma NextRound(order: seq<NodeId>, deps: Adj, levels: seq<seq<NodeId>>, frontier: seq<NodeId>,
                  remaining: map<NodeId, int>, next: seq<NodeId>)
    requires Distinct(order) && ToSet(order) == deps.Keys && frontier != []
    requires Layers(order, deps, levels) && IsFrontier(order, deps, levels, frontier)
    requires Below(levels, |levels|) <= deps.Keys
    requires var placed := Below(levels, |levels|) + ToSet(frontier);
      && Settled(deps, placed) && Counting(deps, remaining, placed)
      && forall n :: n in next <==> Released(deps, placed, placed, n)
    ensures Rounds(order, deps, levels + [frontier], InOrder(order, ToSet(next)), remaining)
    ensures |deps.Keys - Below(levels + [frontier], |levels| + 1)| < |deps.Keys - Below(levels, |levels|)|
  {
    PushLevel(order, deps, levels, frontier);
    NextFrontier(order, deps, levels, frontier, next);
    assert frontier[0] in frontier;
    assert Released(deps, Below(levels, |levels|), Below(levels, |levels|), frontier[0]);
    Shrinks(deps.Keys, Below(levels, |levels|), ToSet(frontier), frontier[0]);
  }

  lemma Shrinks(all: set<NodeId>, done: set<NodeId>, more: set<NodeId>, n: NodeId)
    requires n in all && n !in done && n in more
    ensures |all - (done + more)| < |all - done|
  {
    assert n in all - done;
    SubsetCard(all - (done + more), all - done);
  }

  method ComputeLevels(order: seq<NodeId>, deps: Adj, dependents: Adj) returns (levels: seq<seq<NodeId>>)
    requires Closed(deps) && Acyclic(deps) && Transposed(deps, dependents)
    requires DistinctLists(deps) && DistinctLists(dependents)
    requires Distinct(order) && ToSet(order) == deps.Keys
    ensures IsLayering(order, deps, levels)
  {
    var remaining: map<NodeId, int> := map n | n in deps.Keys :: |deps[n]|;
    forall n | n in deps
      ensures |deps[n]| == Waiting(deps[n], {})
    {
      WaitingAll(deps[n]);
    }
    var frontier := Filter(order, n => n in remaining && remaining[n] == 0);
    levels := [];
    FirstFrontier(order, deps, remaining);
    while frontier != []
      invariant Rounds(order, deps, levels, frontier, remaining)
      decreases |deps.Keys - Below(levels, |levels|)|
    {
      var next;
      remaining, next := ReleaseAll(order, deps, dependents, frontier, remaining, Below(levels, |levels|));
      NextRound(order, deps, levels, frontier, remaining, next);
      levels := levels + [frontier];
      frontier := InOrder(order, ToSet(next));  // next.sort by declaration index; next has no repeats
    }
    NothingLeft(deps, Below(levels, |levels|));
  }

  method ReleaseAll(order: seq<NodeId>, deps: Adj, dependents: Adj, frontier: seq<NodeId>,
                    remaining0: map<NodeId, int>, ghost done: set<NodeId>)
    returns (remaining: map<NodeId, int>, next: seq<NodeId>)
    requires Closed(deps) && Transposed(deps, dependents) && DistinctLists(deps) && DistinctLists(dependents)
    requires Settled(deps, done) && Counting(deps, remaining0, done)
    requires Distinct(frontier) && forall n :: n in frontier <==> Released(deps, done, done, n)
    ensures Settled(deps, done + ToSet(frontier))
    ensures Counting(deps, remaining, done + ToSet(frontier))
    ensures Distinct(next)
    ensures var placed := done + ToSet(frontier); forall n :: n in next <==> Released(deps, placed, placed, n)
  {
    remaining, next := remaining0, [];
    ghost var placed := done + ToSet(frontier);
    assert done + ToSet(frontier[..0]) == done;
    for i := 0 to |frontier|
      invariant Counting(deps, remaining, done + ToSet(frontier[..i]))
      invariant Distinct(next)
      invariant forall n :: n in next <==> Released(deps, done + ToSet(frontier[..i]), placed, n)
    {
      TakeOne(frontier, i);
      ghost var sofar := done + ToSet(frontier[..i]);
      assert sofar + {frontier[i]} == done + ToSet(frontier[..i + 1]);
      assert frontier[i] in frontier;
      remaining, next := Release(deps, dependents, frontier[i], remaining, next, sofar, placed);
    }
    assert frontier[..|frontier|] == frontier;
  }
}
