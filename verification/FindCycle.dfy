/** keel/graph.py, _find_cycle: depth-first search over a stack of half-consumed iterators. */
module FindCycles {
  import opened Prelude
  import opened Digraph

  datatype Color = White | Gray | Black

  // An iterator over deps[node] that has already yielded its first `taken` items.
  datatype Frame = Frame(node: NodeId, taken: nat)

  /** A cycle in execution order: each id is a dependency of the next, only the endpoint repeats. */
  ghost predicate IsCycle(deps: Adj, c: seq<NodeId>) {
    && |c| >= 2
    && c[0] == c[|c| - 1]
    && Distinct(c[1..])
    && forall i :: 0 <= i < |c| - 1 ==> Edge(deps, c[i + 1], c[i])
  }

  function Reverse<T>(xs: seq<T>): (r: seq<T>)
    ensures |r| == |xs|
    ensures forall i :: 0 <= i < |xs| ==> r[i] == xs[|xs| - 1 - i]
  {
    if xs == [] then [] else Reverse(xs[1..]) + [xs[0]]
  }

  /** The search state: gray nodes are the current path, black nodes are listed in finishing order. */
  ghost predicate Searching(deps: Adj, color: map<NodeId, Color>, path: seq<NodeId>, stack: seq<Frame>, done: seq<NodeId>) {
    && color.Keys == deps.Keys
    && Distinct(path)
    && (forall n :: n in path <==> n in color && color[n] == Gray)
    && (forall i :: 0 <= i < |path| - 1 ==> Edge(deps, path[i], path[i + 1]))
    && |stack| == |path|
    && (forall i :: 0 <= i < |stack| ==> FrameOk(deps, color, path, stack, i))
    && Finished(deps, color, done)
  }

  ghost predicate FrameOk(deps: Adj, color: map<NodeId, Color>, path: seq<NodeId>, stack: seq<Frame>, i: nat)
    requires i < |path| == |stack|
  {
    var f := stack[i];
    && f.node == path[i] && f.node in deps
    && f.taken <= |deps[f.node]|
    && forall j :: 0 <= j < f.taken ==>
         var d := deps[f.node][j];
         (d in color && color[d] == Black) || (i + 1 < |path| && path[i + 1] == d)
  }

  ghost predicate Finished(deps: Adj, color: map<NodeId, Color>, done: seq<NodeId>) {
    && Distinct(done)
    && (forall n :: n in done <==> n in color && color[n] == Black)
    && forall i, d :: 0 <= i < |done| && done[i] in deps && d in deps[done[i]] ==> d in done[..i]
  }

  ghost function Whites(color: map<NodeId, Color>): set<NodeId> {
    set n | n in color && color[n] == White
  }

  /** A back edge closes the current path into a cycle. */
  lemma BackEdge(deps: Adj, path: seq<NodeId>, k: nat, nxt: NodeId)
    requires Distinct(path) && k < |path| && path[k] == nxt
    requires forall i :: 0 <= i < |path| - 1 ==> Edge(deps, path[i], path[i + 1])
    requires Edge(deps, path[|path| - 1], nxt)
    ensures IsCycle(deps, Reverse(path[k..] + [nxt]))
  {
    var walk := path[k..] + [nxt];
    var c := Reverse(walk);
    var n := |walk|;
    forall i | 0 <= i < n - 1
      ensures Edge(deps, c[i + 1], c[i])
    {
      var j := n - 2 - i;
      assert c[i + 1] == walk[j] && c[i] == walk[j + 1];
      assert walk[j] == path[k + j];
      if j + 1 < n - 1 {
        assert Edge(deps, path[k + j], path[k + j + 1]);
      }
    }
    forall i, j | 0 <= i < j < |c[1..]|
      ensures c[1..][i] != c[1..][j]
    {
      assert c[1..][i] == walk[n - 2 - i] == path[k + n - 2 - i];
      assert c[1..][j] == walk[n - 2 - j] == path[k + n - 2 - j];
    }
  }

  lemma CycleIsCyclic(deps: Adj, c: seq<NodeId>)
    requires Closed(deps) && IsCycle(deps, c)
    ensures !Acyclic(deps)
  {
    var p := Reverse(c);
    var n := |c|;
    forall i | 0 <= i < n - 1
      ensures Edge(deps, p[i], p[i + 1])
    {
      assert Edge(deps, c[(n - 2 - i) + 1], c[n - 2 - i]);
    }
    forall i | 0 <= i < n
      ensures p[i] in deps
    {
      if i < n - 1 {
        assert Edge(deps, p[i], p[i + 1]);
      } else {
        assert p[i] == p[0];
        assert Edge(deps, p[0], p[1]);
      }
    }
    PathIntro(deps, p);
    assert Walk(deps, p, p[0], p[0]);
  }

  /** The stack after its top iterator has yielded one item. */
  function Bump(stack: seq<Frame>): (r: seq<Frame>)
    ensures |r| == |stack|
  {
    if stack == [] then []
    else
      var n := |stack| - 1;
      stack[..n] + [Frame(stack[n].node, stack[n].taken + 1)]
  }

  /** What the top iterator would yield next. */
  ghost predicate Yields(deps: Adj, stack: seq<Frame>, nxt: NodeId) {
    && stack != []
    && var f := stack[|stack| - 1];
       f.node in deps && f.taken < |deps[f.node]| && deps[f.node][f.taken] == nxt
  }

  /** A white node turns gray and is pushed on the path; the iterator below it moves on. */
  lemma Descend(deps: Adj, color: map<NodeId, Color>, path: seq<NodeId>, stack: seq<Frame>, done: seq<NodeId>, nxt: NodeId)
    requires Searching(deps, color, path, stack, done) && nxt in deps && color[nxt] == White
    requires stack == [] || Yields(deps, stack, nxt)
    ensures Searching(deps, color[nxt := Gray], path + [nxt], Bump(stack) + [Frame(nxt, 0)], done)
    ensures Whites(color[nxt := Gray]) == Whites(color) - {nxt}
  {
    var c, p, s := color[nxt := Gray], path + [nxt], Bump(stack) + [Frame(nxt, 0)];
    forall i | 0 <= i < |s|
      ensures FrameOk(deps, c, p, s, i)
    {
      if i < |stack| {
        assert FrameOk(deps, color, path, stack, i);
      }
    }
    forall i | 0 <= i < |p| - 1
      ensures Edge(deps, p[i], p[i + 1])
    {
      if i < |path| - 1 {
        assert Edge(deps, path[i], path[i + 1]);
      } else {
        assert FrameOk(deps, color, path, stack, i);
      }
    }
  }

  /** The top iterator yields a black node. */
  lemma Advance(deps: Adj, color: map<NodeId, Color>, path: seq<NodeId>, stack: seq<Frame>, done: seq<NodeId>, nxt: NodeId)
    requires Searching(deps, color, path, stack, done) && Yields(deps, stack, nxt)
    requires nxt in color && color[nxt] == Black
    ensures Searching(deps, color, path, Bump(stack), done)
  {
    forall i | 0 <= i < |stack|
      ensures FrameOk(deps, color, path, Bump(stack), i)
    {
      assert FrameOk(deps, color, path, stack, i);
    }
  }

  /** A node whose dependencies are all finished can itself be finished. */
  lemma FinishOne(deps: Adj, color: map<NodeId, Color>, done: seq<NodeId>, n: NodeId)
    requires Finished(deps, color, done) && n in deps && n in color && color[n] != Black
    requires forall d :: d in deps[n] ==> d in done
    ensures Finished(deps, color[n := Black], done + [n])
  {
    var dn := done + [n];
    forall i, d | 0 <= i < |dn| && dn[i] in deps && d in deps[dn[i]]
      ensures d in dn[..i]
    {
      if i < |done| {
        assert dn[..i] == done[..i];
      } else {
        assert dn[..i] == done;
      }
    }
  }

  /** An exhausted node turns black and leaves the path. */
  lemma Retire(deps: Adj, color: map<NodeId, Color>, path: seq<NodeId>, stack: seq<Frame>, done: seq<NodeId>)
    requires Searching(deps, color, path, stack, done) && stack != []
    requires var f := stack[|stack| - 1]; f.node in deps && f.taken == |deps[f.node]|
    ensures var n := path[|path| - 1];
      Searching(deps, color[n := Black], path[..|path| - 1], stack[..|stack| - 1], done + [n])
    ensures var n := path[|path| - 1]; Whites(color[n := Black]) == Whites(color)
  {
    var last := |path| - 1;
    var n := path[last];
    var c, p, s := color[n := Black], path[..last], stack[..last];
    assert FrameOk(deps, color, path, stack, last);
    assert n in path;
    forall d | d in deps[n]
      ensures d in done
    {
      var j :| 0 <= j < |deps[n]| && deps[n][j] == d;
    }
    FinishOne(deps, color, done, n);
    forall i | 0 <= i < |s|
      ensures FrameOk(deps, c, p, s, i)
    {
      assert FrameOk(deps, color, path, stack, i);
    }
    assert path == p + [n];
    assert forall m :: m in path <==> m in p || m == n;
    assert n !in p;
    assert forall i :: 0 <= i < |p| - 1 ==> Edge(deps, path[i], path[i + 1]);
  }

  /**
   The inner loop: pull items from the top iterator until one closes a cycle,
   one is white and gets pushed, or the iterator is exhausted.
   */
  method Pull(deps: Adj, color0: map<NodeId, Color>, path0: seq<NodeId>, stack0: seq<Frame>, ghost done: seq<NodeId>)
    returns (cycle: Option<seq<NodeId>>, descended: bool, color: map<NodeId, Color>, path: seq<NodeId>, stack: seq<Frame>)
    requires Closed(deps) && Searching(deps, color0, path0, stack0, done) && stack0 != []
    ensures cycle.Some? ==> IsCycle(deps, cycle.value)
    ensures cycle.None? ==> Searching(deps, color, path, stack, done) && stack != []
    ensures cycle.None? && descended ==> |Whites(color)| < |Whites(color0)|
    ensures cycle.None? && !descended ==> color == color0 && path == path0 && |stack| == |stack0|
    ensures cycle.None? && !descended ==>
      var f := stack[|stack| - 1]; f.node in deps && f.taken == |deps[f.node]|
    ensures cycle.None? ==> forall n :: n in color0 && color0[n] != White ==> n in color && color[n] == color0[n]
  {
    color, path, stack, descended := color0, path0, stack0, false;
    assert FrameOk(deps, color, path, stack, |stack| - 1);
    var node := stack[|stack| - 1].node;
    while stack[|stack| - 1].taken < |deps[node]|
      invariant |stack| == |stack0| && stack[|stack| - 1].node == node
      invariant Searching(deps, color, path, stack, done)
      invariant stack[|stack| - 1].taken <= |deps[node]|
      decreases |deps[node]| - stack[|stack| - 1].taken
    {
      var nxt := deps[node][stack[|stack| - 1].taken];
      assert node == path[|path| - 1] by {
        assert FrameOk(deps, color, path, stack, |stack| - 1);
      }
      if color[nxt] == Gray {
        var k :| 0 <= k < |path| && path[k] == nxt;
        cycle := Some(Reverse(path[k..] + [nxt]));
        BackEdge(deps, path, k, nxt);
        return;
      }
      if color[nxt] == White {
        Descend(deps, color, path, stack, done, nxt);
        color := color[nxt := Gray];
        path := path + [nxt];
        stack := Bump(stack) + [Frame(nxt, 0)];
        descended := true;
        cycle := None;
        return;
      }
      Advance(deps, color, path, stack, done, nxt);
      stack := Bump(stack);
    }
    cycle := None;
  }

  /** The inner loop: search everything reachable from one white node. */
  method SearchFrom(deps: Adj, color0: map<NodeId, Color>, ghost done0: seq<NodeId>, start: NodeId)
    returns (cycle: Option<seq<NodeId>>, color: map<NodeId, Color>, ghost done: seq<NodeId>)
    requires Closed(deps) && Searching(deps, color0, [], [], done0) && start in deps && color0[start] == White
    ensures cycle.Some? ==> IsCycle(deps, cycle.value)
    ensures cycle.None? ==> Searching(deps, color, [], [], done) && color[start] != White && done0 <= done
  {
    Descend(deps, color0, [], [], done0, start);
    color, done := color0[start := Gray], done0;
    var path := [start];
    var stack := [Frame(start, 0)];
    while stack != []
      invariant Searching(deps, color, path, stack, done)
      invariant color[start] != White && done0 <= done
      decreases |Whites(color)|, |stack|
    {
      var descended: bool;
      cycle, descended, color, path, stack := Pull(deps, color, path, stack, done);
      if cycle.Some? {
        return;
      }
      if !descended {
        Retire(deps, color, path, stack, done);
        done := done + [path[|path| - 1]];
        color := color[path[|path| - 1] := Black];
        stack := stack[..|stack| - 1];
        path := path[..|path| - 1];
      }
    }
    cycle := None;
  }

  method FindCycle(order: seq<NodeId>, deps: Adj) returns (cycle: Option<seq<NodeId>>)
    requires Closed(deps) && ToSet(order) == deps.Keys
    ensures cycle.None? <==> Acyclic(deps)
    ensures cycle.Some? ==> IsCycle(deps, cycle.value)
  {
    var color: map<NodeId, Color> := map n | n in deps.Keys :: White;
    ghost var done: seq<NodeId> := [];
    for s := 0 to |order|
      invariant Searching(deps, color, [], [], done)
      invariant forall j :: 0 <= j < s ==> order[j] in done
    {
      var start := order[s];
      assert start in ToSet(order);
      if color[start] != White {
        continue;
      }
      cycle, color, done := SearchFrom(deps, color, done, start);
      if cycle.Some? {
        CycleIsCyclic(deps, cycle.value);
        return;
      }
    }
    cycle := None;
    forall n | n in deps
      ensures n in done
    {
      assert n in ToSet(order);
    }
    TopoAcyclic(deps, done);
  }
}
