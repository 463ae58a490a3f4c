/** keel/graph.py, critical_path: the longest dependency chain, from root to leaf. */
module CriticalPaths {
  import opened Prelude
  import opened Digraph
  import opened PlanGraphs
  import opened FindCycles

  /** d is the first element of xs that occurs in s. */
  ghost predicate FirstAmong(xs: seq<NodeId>, s: seq<NodeId>, d: NodeId) {
    exists j :: 0 <= j < |xs| && xs[j] == d && d in s && forall i :: 0 <= i < j ==> xs[i] !in s
  }

  /**
   One node per level; each step goes to the first listed dependency on the level
   below, and the end is the first declared node of the top level.
   */
  ghost predicate IsCritical(order: seq<NodeId>, deps: Adj, levels: seq<seq<NodeId>>, path: seq<NodeId>) {
    && |path| == |levels|
    && (forall i :: 0 <= i < |path| ==> path[i] in levels[i] && path[i] in deps)
    && (forall i :: 0 < i < |path| ==> FirstAmong(deps[path[i]], levels[i - 1], path[i - 1]))
    && (path != [] ==> FirstAmong(order, levels[|levels| - 1], path[|path| - 1]))
  }

  /** The tables filled so far: lengths and predecessors of the first k levels. */
  ghost predicate Tabled(deps: Adj, levels: seq<seq<NodeId>>, length: map<NodeId, nat>,
                         previous: map<NodeId, Option<NodeId>>, k: nat, n: NodeId)
    requires k < |levels|
  {
    && n in deps && n in length && n in previous
    && length[n] == k + 1
    && (k == 0 ==> previous[n] == None)
    && (k > 0 ==> previous[n].Some? && FirstAmong(deps[n], levels[k - 1], previous[n].value))
  }

  /** The scan over one node's dependencies, all of them on levels below k. */
  method BestDependency(xs: seq<NodeId>, length: map<NodeId, nat>, ghost levels: seq<seq<NodeId>>, ghost k: nat)
    returns (best: Option<NodeId>, bestLen: nat)
    requires k < |levels|
    requires forall d :: d in xs ==> d in length && length[d] <= k
    requires forall d :: d in xs ==> (length[d] == k <==> k > 0 && d in levels[k - 1])
    requires k > 0 ==> exists d :: d in xs && d in levels[k - 1]
    requires k == 0 ==> xs == []
    ensures bestLen == k
    ensures k == 0 ==> best == None
    ensures k > 0 ==> best.Some? && FirstAmong(xs, levels[k - 1], best.value)
  {
    best, bestLen := None, 0;
    for j := 0 to |xs|
      invariant bestLen <= k
      invariant j == 0 ==> best == None
      invariant bestLen < k ==> forall i :: 0 <= i < j ==> xs[i] !in levels[k - 1]
      invariant k > 0 && bestLen == k ==> best.Some? && FirstAmong(xs, levels[k - 1], best.value)
    {
      if length[xs[j]] > bestLen {
        bestLen := length[xs[j]];
        best := Some(xs[j]);
      }
    }
  }

  ghost predicate TabledBelow(deps: Adj, levels: seq<seq<NodeId>>, length: map<NodeId, nat>,
                              previous: map<NodeId, Option<NodeId>>, k: nat)
    requires k <= |levels|
  {
    forall j, n {:trigger Tabled(deps, levels, length, previous, j, n)} ::
      0 <= j < k && n in levels[j] ==> Tabled(deps, levels, length, previous, j, n)
  }

  lemma NotBelow(order: seq<NodeId>, deps: Adj, levels: seq<seq<NodeId>>, k: nat, n: NodeId)
    requires IsLayering(order, deps, levels) && k < |levels| && n in levels[k]
    ensures forall j :: 0 <= j < k ==> n !in levels[j]
  {
    var _ := AtLayer(order, deps, levels, k, n);
    BelowIs(levels, k, n);
  }

  method FillLevel(order: seq<NodeId>, deps: Adj, levels: seq<seq<NodeId>>, k: nat,
                   length0: map<NodeId, nat>, previous0: map<NodeId, Option<NodeId>>)
    returns (length: map<NodeId, nat>, previous: map<NodeId, Option<NodeId>>)
    requires IsLayering(order, deps, levels) && k < |levels|
    requires TabledBelow(deps, levels, length0, previous0, k)
    ensures TabledBelow(deps, levels, length, previous, k)
    ensures forall n :: n in levels[k] ==> Tabled(deps, levels, length, previous, k, n)
  {
    length, previous := length0, previous0;
    for i := 0 to |levels[k]|
      invariant TabledBelow(deps, levels, length, previous, k)
      invariant forall j :: 0 <= j < i ==> Tabled(deps, levels, length, previous, k, levels[k][j])
    {
      var nid := levels[k][i];
      DepsTabled(order, deps, levels, length, previous, k, nid);
      NotBelow(order, deps, levels, k, nid);
      var best, bestLen := BestDependency(deps[nid], length, levels, k);
      PutEntry(deps, levels, length, previous, k, i, best);
      length := length[nid := bestLen + 1];
      previous := previous[nid := best];
    }
  }

  lemma PutEntry(deps: Adj, levels: seq<seq<NodeId>>, length: map<NodeId, nat>, previous: map<NodeId, Option<NodeId>>,
                 k: nat, i: nat, best: Option<NodeId>)
    requires k < |levels| && i < |levels[k]| && levels[k][i] in deps
    requires TabledBelow(deps, levels, length, previous, k)
    requires forall j :: 0 <= j < i ==> Tabled(deps, levels, length, previous, k, levels[k][j])
    requires forall j :: 0 <= j < k ==> levels[k][i] !in levels[j]
    requires k == 0 ==> best == None
    requires k > 0 ==> best.Some? && FirstAmong(deps[levels[k][i]], levels[k - 1], best.value)
    ensures var nid := levels[k][i];
      TabledBelow(deps, levels, length[nid := k + 1], previous[nid := best], k)
    ensures var nid := levels[k][i];
      forall j :: 0 <= j < i + 1 ==> Tabled(deps, levels, length[nid := k + 1], previous[nid := best], k, levels[k][j])
  {
    var nid := levels[k][i];
    var l, p := length[nid := k + 1], previous[nid := best];
    forall j, n | 0 <= j < k && n in levels[j]
      ensures Tabled(deps, levels, l, p, j, n)
    {
      assert Tabled(deps, levels, length, previous, j, n);
      assert n != nid;
    }
    forall j | 0 <= j < i + 1
      ensures Tabled(deps, levels, l, p, k, levels[k][j])
    {
      if j < i && levels[k][j] != nid {
        assert Tabled(deps, levels, length, previous, k, levels[k][j]);
      }
    }
  }

  method FillTables(order: seq<NodeId>, deps: Adj, levels: seq<seq<NodeId>>)
    returns (length: map<NodeId, nat>, previous: map<NodeId, Option<NodeId>>)
    requires IsLayering(order, deps, levels)
    ensures TabledBelow(deps, levels, length, previous, |levels|)
  {
    length, previous := map[], map[];
    for k := 0 to |levels|
      invariant TabledBelow(deps, levels, length, previous, k)
    {
      length, previous := FillLevel(order, deps, levels, k, length, previous);
    }
  }

  lemma DepsTabled(order: seq<NodeId>, deps: Adj, levels: seq<seq<NodeId>>, length: map<NodeId, nat>,
                   previous: map<NodeId, Option<NodeId>>, k: nat, n: NodeId)
    requires IsLayering(order, deps, levels) && k < |levels| && n in levels[k]
    requires TabledBelow(deps, levels, length, previous, k)
    ensures n in deps
    ensures forall d :: d in deps[n] ==> d in length && length[d] <= k
    ensures forall d :: d in deps[n] ==> (length[d] == k <==> k > 0 && d in levels[k - 1])
    ensures k > 0 ==> exists d :: d in deps[n] && d in levels[k - 1]
    ensures k == 0 ==> deps[n] == []
  {
    var below := AtLayer(order, deps, levels, k, n);
    forall d | d in deps[n]
      ensures d in length && length[d] <= k
      ensures length[d] == k <==> k > 0 && d in levels[k - 1]
    {
      BelowIs(levels, k, d);
      var j :| 0 <= j < k && d in levels[j];
      assert Tabled(deps, levels, length, previous, j, d);
      if k > 0 && d in levels[k - 1] {
        assert Tabled(deps, levels, length, previous, k - 1, d);
      }
    }
    if k == 0 {
      EmptySeq(deps[n]);
    }
  }

  method LastNode(order: seq<NodeId>, deps: Adj, levels: seq<seq<NodeId>>, length: map<NodeId, nat>)
    returns (end: Option<NodeId>)
    requires IsLayering(order, deps, levels)
    requires forall k, n :: 0 <= k < |levels| && n in levels[k] ==> n in length && length[n] == k + 1
    ensures end.None? <==> levels == []
    ensures end.Some? ==> FirstAmong(order, levels[|levels| - 1], end.value)
  {
    var top := |levels|;
    end := None;
    forall i | 0 <= i < |order|
      ensures order[i] in length && length[order[i]] <= top
      ensures top > 0 && (length[order[i]] == top <==> order[i] in levels[top - 1])
    {
      var k := LayerOf(order, deps, levels, order[i]);
    }
    for i := 0 to |order|
      invariant end.None? <==> i == 0
      invariant end.Some? ==> end.value in length && length[end.value] <= top
      invariant forall j :: 0 <= j < i ==> length[order[j]] <= length[end.value]
      invariant end.Some? && top > 0 && length[end.value] == top ==> FirstAmong(order, levels[top - 1], end.value)
    {
      if end.None? || length[order[i]] > length[end.value] {
        end := Some(order[i]);
      }
    }
    if top > 0 {
      assert Layer(order, deps, levels, top - 1);
      assert levels[top - 1][0] in order;
    }
  }

  method CriticalPath(order: seq<NodeId>, deps: Adj, levels: seq<seq<NodeId>>) returns (path: seq<NodeId>)
    requires IsLayering(order, deps, levels)
    ensures IsCritical(order, deps, levels, path)
  {
    var length, previous := FillTables(order, deps, levels);
    forall k, n | 0 <= k < |levels| && n in levels[k]
      ensures n in length && length[n] == k + 1
    {
      assert Tabled(deps, levels, length, previous, k, n);
    }
    var end := LastNode(order, deps, levels, length);
    if end == None {
      return [];
    }
    path := WalkBack(order, deps, levels, previous, length, end.value);
  }

  /** The tail of the path from level c up, and the node the cursor holds below it. */
  ghost predicate WalkedTo(deps: Adj, levels: seq<seq<NodeId>>, tail: seq<NodeId>, c: nat, cursor: Option<NodeId>) {
    && c + |tail| == |levels|
    && (cursor.None? <==> c == 0)
    && (cursor.Some? ==> cursor.value in levels[c - 1])
    && (forall i :: 0 <= i < |tail| ==> tail[i] in levels[c + i] && tail[i] in deps)
    && (forall i :: 0 < i < |tail| ==> FirstAmong(deps[tail[i]], levels[c + i - 1], tail[i - 1]))
    && (cursor.Some? && tail != [] ==> FirstAmong(deps[tail[0]], levels[c - 1], cursor.value))
  }

  method WalkBack(order: seq<NodeId>, deps: Adj, levels: seq<seq<NodeId>>, previous: map<NodeId, Option<NodeId>>,
                  ghost length: map<NodeId, nat>, end: NodeId)
    returns (path: seq<NodeId>)
    requires levels != [] && TabledBelow(deps, levels, length, previous, |levels|)
    requires FirstAmong(order, levels[|levels| - 1], end)
    ensures IsCritical(order, deps, levels, path)
  {
    var back: seq<NodeId> := [];
    var cursor := Some(end);
    ghost var c: nat := |levels|;
    while cursor != None
      invariant c <= |levels| && WalkedTo(deps, levels, Reverse(back), c, cursor)
      invariant back == [] ==> cursor == Some(end)
      invariant back != [] ==> back[0] == end
      decreases c
    {
      var n := cursor.value;
      assert Tabled(deps, levels, length, previous, c - 1, n);
      StepBack(deps, levels, Reverse(back), c, n, previous[n]);
      ReverseSnoc(back, n);
      back := back + [n];
      cursor := previous[n];
      c := c - 1;
    }
    path := Reverse(back);  // path.reverse()
    WalkedAll(order, deps, levels, path, end);
  }

  lemma ReverseSnoc(xs: seq<NodeId>, n: NodeId)
    ensures Reverse(xs + [n]) == [n] + Reverse(xs)
  {
  }

  lemma WalkedAll(order: seq<NodeId>, deps: Adj, levels: seq<seq<NodeId>>, path: seq<NodeId>, end: NodeId)
    requires WalkedTo(deps, levels, path, 0, None)
    requires path != [] && path[|path| - 1] == end && FirstAmong(order, levels[|levels| - 1], end)
    ensures IsCritical(order, deps, levels, path)
  {
  }

  lemma StepBack(deps: Adj, levels: seq<seq<NodeId>>, tail: seq<NodeId>, c: nat, n: NodeId, prev: Option<NodeId>)
    requires 0 < c <= |levels| && WalkedTo(deps, levels, tail, c, Some(n)) && n in deps
    requires c == 1 ==> prev == None
    requires c > 1 ==> prev.Some? && FirstAmong(deps[n], levels[c - 2], prev.value)
    ensures WalkedTo(deps, levels, [n] + tail, c - 1, prev)
  {
    var t := [n] + tail;
    forall i | 0 < i < |t|
      ensures FirstAmong(deps[t[i]], levels[c - 1 + i - 1], t[i - 1])
    {
      if i == 1 {
        assert t[1] == tail[0];
      } else {
        assert t[i] == tail[i - 1] && t[i - 1] == tail[i - 2];
        assert FirstAmong(deps[tail[i - 1]], levels[c + (i - 1) - 1], tail[(i - 1) - 1]);
      }
    }
    if prev.Some? {
      assert prev.value in levels[c - 2];
    }
  }

  /** What critical_path promises: a root-to-leaf chain that no dependency chain exceeds. */
  lemma CriticalIsLongest(order: seq<NodeId>, deps: Adj, levels: seq<seq<NodeId>>, path: seq<NodeId>)
    requires IsLayering(order, deps, levels) && IsCritical(order, deps, levels, path) && path != []
    ensures IsPath(deps, Reverse(path))
    ensures deps[path[0]] == []
    ensures forall n :: n in deps && n in order ==> path[|path| - 1] !in deps[n]
    ensures forall chain :: IsPath(deps, chain) && chain[0] in order ==> |chain| <= |path|
  {
    var q := Reverse(path);
    forall i | 0 <= i < |q| - 1
      ensures Edge(deps, q[i], q[i + 1])
    {
      assert FirstAmong(deps[path[|path| - 1 - i]], levels[|path| - 2 - i], path[|path| - 2 - i]);
    }
    PathIntro(deps, q);
    var _ := AtLayer(order, deps, levels, 0, path[0]);
    EmptySeq(deps[path[0]]);
    var leaf := path[|path| - 1];
    forall n | n in deps && n in order
      ensures leaf !in deps[n]
    {
      var k := LayerOf(order, deps, levels, n);
      var _ := AtLayer(order, deps, levels, k, n);
      var _ := AtLayer(order, deps, levels, |levels| - 1, leaf);
      BelowGrows(levels, k, |levels| - 1);
    }
    forall chain | IsPath(deps, chain) && chain[0] in order
      ensures |chain| <= |path|
    {
      var k := LayerOf(order, deps, levels, chain[0]);
      ChainBound(order, deps, levels, k, chain);
    }
  }
}
