// The Critical Path Method (orchestrate/priority.go): earliest and latest start
// times under unit weights give every node the size of the longest path through it.
module CriticalPath {
  import opened Types
  import opened Graph
  import opened Topo

  ghost predicate PathTo(g: Deps, n: NodeId, p: seq<NodeId>) {
    |p| >= 1 && Path(g, p) && p[|p| - 1] == n
  }

  ghost predicate PathFrom(g: Deps, n: NodeId, p: seq<NodeId>) {
    |p| >= 1 && Path(g, p) && p[0] == n
  }

  ghost predicate PathThrough(g: Deps, n: NodeId, p: seq<NodeId>) {
    Path(g, p) && n in p
  }

  ghost predicate LongestTo(g: Deps, n: NodeId, k: int) {
    (exists p :: PathTo(g, n, p) && |p| == k) && forall p :: PathTo(g, n, p) ==> |p| <= k
  }

  ghost predicate LongestFrom(g: Deps, n: NodeId, k: int) {
    (exists p :: PathFrom(g, n, p) && |p| == k) && forall p :: PathFrom(g, n, p) ==> |p| <= k
  }

  // The longest path through n has k nodes.
  ghost predicate LongestThrough(g: Deps, n: NodeId, k: int) {
    (exists p :: PathThrough(g, n, p) && |p| == k) && forall p :: PathThrough(g, n, p) ==> |p| <= k
  }

  // ----- paths -----

  lemma PathJoin(g: Deps, p: seq<NodeId>, q: seq<NodeId>)
    requires |p| >= 1 && |q| >= 1 && Path(g, p) && Path(g, q) && p[|p| - 1] == q[0]
    ensures Path(g, p + q[1..])
  {
    var r := p + q[1..];
    forall a, b | 0 <= a < b < |r| && b == a + 1
      ensures r[a] in g[r[b]]
    {
      if b < |p| {
        assert p[a] in g[p[b]];
      } else {
        var k := b - |p| + 1;
        assert r[b] == q[k] && r[a] == q[k - 1];
        assert q[k - 1] in g[q[k]];
      }
    }
  }

  lemma ThroughFromParts(g: Deps, n: NodeId, a: int, b: int)
    requires LongestTo(g, n, a) && LongestFrom(g, n, b)
    ensures LongestThrough(g, n, a + b - 1)
  {
    var p :| PathTo(g, n, p) && |p| == a;
    var q :| PathFrom(g, n, q) && |q| == b;
    PathJoin(g, p, q);
    var r := p + q[1..];
    assert r[|p| - 1] == n;
    assert PathThrough(g, n, r) && |r| == a + b - 1;
    forall s | PathThrough(g, n, s)
      ensures |s| <= a + b - 1
    {
      var i :| 0 <= i < |s| && s[i] == n;
      PathSlice(g, s, 0, i + 1);
      PathSlice(g, s, i, |s|);
      assert PathTo(g, n, s[0..i + 1]) && PathFrom(g, n, s[i..|s|]);
    }
  }

  // ----- one step of each pass -----

  // m is the maximum of 0 and est[d] + 1 over deps.
  ghost predicate MaxStart(deps: seq<NodeId>, est: map<NodeId, int>, m: int) {
    && (forall d :: d in deps ==> d in est && est[d] + 1 <= m)
    && (m == 0 || exists d :: d in deps && d in est && m == est[d] + 1)
    && m >= 0
  }

  lemma StartStep(g: Deps, n: NodeId, est: map<NodeId, int>, m: int)
    requires n in g && MaxStart(g[n], est, m)
    requires forall d :: d in g[n] ==> d in g && LongestTo(g, d, est[d] + 1)
    ensures LongestTo(g, n, m + 1)
  {
    if m == 0 {
      assert PathTo(g, n, [n]);
    } else {
      var d :| d in g[n] && d in est && m == est[d] + 1;
      assert LongestTo(g, d, est[d] + 1);
      var p :| PathTo(g, d, p) && |p| == est[d] + 1;
      assert Path(g, p + [n]);
      assert PathTo(g, n, p + [n]);
    }
    forall p | PathTo(g, n, p)
      ensures |p| <= m + 1
    {
      StartBound(g, n, est, m, p);
    }
  }

  lemma StartBound(g: Deps, n: NodeId, est: map<NodeId, int>, m: int, p: seq<NodeId>)
    requires n in g && MaxStart(g[n], est, m) && PathTo(g, n, p)
    requires forall d :: d in g[n] ==> d in g && LongestTo(g, d, est[d] + 1)
    ensures |p| <= m + 1
  {
    if |p| >= 2 {
      var q := p[0..|p| - 1];
      var d := q[|q| - 1];
      assert p[|p| - 2] in g[p[|p| - 1]];
      PathSlice(g, p, 0, |p| - 1);
      assert LongestTo(g, d, est[d] + 1) && PathTo(g, d, q);
    }
  }

  // m is the minimum of end and lst[d] over ds.
  ghost predicate MinLatest(ds: seq<NodeId>, lst: map<NodeId, int>, end: int, m: int) {
    && (forall d :: d in ds ==> d in lst && m <= lst[d])
    && (m == end || exists d :: d in ds && d in lst && m == lst[d])
    && m <= end
  }

  lemma LatestStep(g: Deps, n: NodeId, ds: seq<NodeId>, lst: map<NodeId, int>, end: int, m: int)
    requires n in g && MinLatest(ds, lst, end, m)
    requires forall d :: d in ds <==> d in g && n in g[d]
    requires forall d :: d in ds ==> LongestFrom(g, d, end - lst[d])
    ensures LongestFrom(g, n, end - m + 1)
  {
    if m == end {
      assert PathFrom(g, n, [n]);
    } else {
      var d :| d in ds && d in lst && m == lst[d];
      assert LongestFrom(g, d, end - lst[d]);
      var p :| PathFrom(g, d, p) && |p| == end - lst[d];
      PathExtend(g, n, p);
      assert PathFrom(g, n, [n] + p);
    }
    forall p | PathFrom(g, n, p)
      ensures |p| <= end - m + 1
    {
      if |p| >= 2 {
        assert p[0] in g[p[1]];
        PathSlice(g, p, 1, |p|);
        assert LongestFrom(g, p[1], end - lst[p[1]]) && PathFrom(g, p[1], p[1..|p|]);
      }
    }
  }

  // ----- the algorithm -----

  const WEIGHT := 1

  method EarliestStart(deps: seq<NodeId>, est: map<NodeId, int>) returns (maxEST: int)
    requires forall d :: d in deps ==> d in est && est[d] >= 0
    ensures MaxStart(deps, est, maxEST)
  {
    maxEST := 0;
    var j := 0;
    while j < |deps|
      invariant j <= |deps|
      invariant MaxStart(deps[..j], est, maxEST)
    {
      assert deps[..j + 1] == deps[..j] + [deps[j]];
      var v := est[deps[j]] + WEIGHT;
      if v > maxEST {
        maxEST := v;
      }
      j := j + 1;
    }
    assert deps[..j] == deps;
  }

  method LatestOf(ds: seq<NodeId>, lst: map<NodeId, int>, projectEnd: int) returns (minLST: int)
    requires forall d :: d in ds ==> d in lst
    ensures MinLatest(ds, lst, projectEnd, minLST)
  {
    minLST := projectEnd;
    var j := 0;
    while j < |ds|
      invariant j <= |ds|
      invariant MinLatest(ds[..j], lst, projectEnd, minLST)
    {
      assert ds[..j + 1] == ds[..j] + [ds[j]];
      if lst[ds[j]] < minLST {
        minLST := lst[ds[j]];
      }
      j := j + 1;
    }
    assert ds[..j] == ds;
  }

  method ForwardPass(g: Deps, order: seq<NodeId>) returns (est: map<NodeId, int>)
    requires TopoOrder(g, order)
    ensures est.Keys == g.Keys
    ensures forall n :: n in g ==> est[n] >= 0 && LongestTo(g, n, est[n] + 1)
  {
    hide *;
    est := map[];
    var i := 0;
    while i < |order|
      invariant i <= |order|
      invariant forall n :: n in est <==> n in order[..i]
      invariant forall n :: n in est ==> n in g && est[n] >= 0 && LongestTo(g, n, est[n] + 1)
    {
      var id := order[i];
      DepsEarlier(g, order, i);
      var maxEST := EarliestStart(g[id], est);
      StartStep(g, id, est, maxEST);
      NonNegative(g[id], est, maxEST);
      est := est[id := maxEST];
      assert order[..i + 1] == order[..i] + [id];
      i := i + 1;
    }
    assert order[..i] == order;
    OrderMembers(g, order);
  }

  lemma DepsEarlier(g: Deps, order: seq<NodeId>, i: nat)
    requires TopoOrder(g, order) && i < |order|
    ensures order[i] in g && forall d :: d in g[order[i]] ==> d in order[..i]
  {
  }

  lemma OrderMembers(g: Deps, order: seq<NodeId>)
    requires TopoOrder(g, order)
    ensures forall n :: n in order <==> n in g
  {
  }

  lemma NonNegative(deps: seq<NodeId>, est: map<NodeId, int>, m: int)
    requires MaxStart(deps, est, m)
    ensures m >= 0
  {
  }

  // order[i]'s dependents come later in the order.
  lemma DependentsLater(g: Deps, order: seq<NodeId>, i: nat, d: NodeId)
    requires TopoOrder(g, order) && i < |order| && d in g && order[i] in g[d]
    ensures d in order[i + 1..]
  {
    var k := IndexOf(order, d);
    assert order[i] in g[order[k]];
    var j :| 0 <= j < k && order[..k][j] == order[i];
    assert j == i;
    assert order[i + 1..][k - i - 1] == d;
  }

  // The nodes of order[i..] have their latest starts.
  ghost predicate LatestDone(g: Deps, order: seq<NodeId>, i: nat, lst: map<NodeId, int>, projectEnd: int) {
    && i <= |order| && lst.Keys == g.Keys
    && forall n :: n in order[i..] ==> n in g && LongestFrom(g, n, projectEnd - lst[n])
  }

  method BackwardPass(g: Deps, order: seq<NodeId>, downstream: map<NodeId, seq<NodeId>>, projectEnd: int)
    returns (lst: map<NodeId, int>)
    requires TopoOrder(g, order) && Transposed(g, downstream)
    ensures lst.Keys == g.Keys
    ensures forall n :: n in g ==> LongestFrom(g, n, projectEnd - lst[n])
  {
    hide *;
    lst := map n | n in g :: projectEnd - WEIGHT;
    LatestStart(g, order, lst, projectEnd);
    var i := |order|;
    while i > 0
      invariant 0 <= i <= |order|
      invariant LatestDone(g, order, i, lst, projectEnd)
    {
      i := i - 1;
      var id := order[i];
      var ds := Lookup(downstream, id);
      DependentsDone(g, order, i, downstream, lst, projectEnd);
      if |ds| == 0 {
        NoDependents(ds, lst, projectEnd);
        LatestMarked(g, order, i, ds, lst, projectEnd, projectEnd);
        lst := lst[id := projectEnd - WEIGHT];
      } else {
        var minLST := LatestOf(ds, lst, projectEnd);
        LatestMarked(g, order, i, ds, lst, projectEnd, minLST);
        lst := lst[id := minLST - WEIGHT];
      }
    }
    LatestEnd(g, order, lst, projectEnd);
  }

  lemma LatestStart(g: Deps, order: seq<NodeId>, lst: map<NodeId, int>, projectEnd: int)
    requires lst.Keys == g.Keys
    ensures LatestDone(g, order, |order|, lst, projectEnd)
  {
  }

  // The dependents of order[i] come later in the order.
  lemma DependentsDone(g: Deps, order: seq<NodeId>, i: nat, downstream: map<NodeId, seq<NodeId>>,
                       lst: map<NodeId, int>, projectEnd: int)
    requires TopoOrder(g, order) && Transposed(g, downstream)
    requires i < |order| && LatestDone(g, order, i + 1, lst, projectEnd)
    ensures order[i] in g
    ensures forall d :: d in Lookup(downstream, order[i]) <==> d in g && order[i] in g[d]
    ensures forall d :: d in Lookup(downstream, order[i]) ==> d in lst && LongestFrom(g, d, projectEnd - lst[d])
  {
    hide LongestFrom, Transposed;
    DownstreamMember(g, downstream, order[i]);
    forall d | d in Lookup(downstream, order[i])
      ensures d in lst && LongestFrom(g, d, projectEnd - lst[d])
    {
      DependentsLater(g, order, i, d);
    }
  }

  lemma LatestMarked(g: Deps, order: seq<NodeId>, i: nat, ds: seq<NodeId>, lst: map<NodeId, int>, projectEnd: int,
                     m: int)
    requires i < |order| && order[i] in g && LatestDone(g, order, i + 1, lst, projectEnd)
    requires forall d :: d in ds <==> d in g && order[i] in g[d]
    requires forall d :: d in ds ==> d in lst && LongestFrom(g, d, projectEnd - lst[d])
    requires MinLatest(ds, lst, projectEnd, m)
    ensures LatestDone(g, order, i, lst[order[i] := m - WEIGHT], projectEnd)
  {
    hide LongestFrom, MinLatest;
    LatestStep(g, order[i], ds, lst, projectEnd, m);
    assert order[i..] == [order[i]] + order[i + 1..];
  }

  lemma LatestEnd(g: Deps, order: seq<NodeId>, lst: map<NodeId, int>, projectEnd: int)
    requires TopoOrder(g, order) && LatestDone(g, order, 0, lst, projectEnd)
    ensures lst.Keys == g.Keys
    ensures forall n :: n in g ==> LongestFrom(g, n, projectEnd - lst[n])
  {
    hide LongestFrom;
    assert order[0..] == order;
    OrderMembers(g, order);
  }

  lemma NoDependents(ds: seq<NodeId>, lst: map<NodeId, int>, end: int)
    requires |ds| == 0
    ensures MinLatest(ds, lst, end, end)
  {
  }

  // A priority is the project end less the node's slack; no slack is negative, and there
  // is none along some path from a source to a sink.
  method ComputeCriticalPath(nodes: seq<Node>)
    returns (priorities: map<NodeId, int>, ghost slacks: map<NodeId, int>, ghost end: int)
    requires UniqueIds(nodes) && KnownDeps(nodes) && !Cyclic(DepMap(nodes))
    ensures priorities.Keys == slacks.Keys == DepMap(nodes).Keys
    ensures forall n :: n in priorities ==> LongestThrough(DepMap(nodes), n, priorities[n])
    ensures forall n :: n in priorities ==> slacks[n] >= 0 && priorities[n] == end - slacks[n]
    ensures nodes != [] ==>
      exists p :: SourceToSink(DepMap(nodes), p) && |p| == end && forall n :: n in p ==> slacks[n] == 0
  {
    hide *;
    ghost var g := DepMap(nodes);
    DepMapFacts(nodes);
    KnownDepsClosed(nodes);
    var downstream, degrees := BuildDagMaps(nodes);
    var topoOrder := TopologicalSort(nodes);
    var nodeMap := NodeDeps(nodes);
    var est := ForwardPass(nodeMap, topoOrder);
    OrderMembers(g, topoOrder);
    var projectEnd := ProjectEnd(topoOrder, est);
    var lst := BackwardPass(nodeMap, topoOrder, downstream, projectEnd);
    priorities := map n | n in est :: projectEnd - (lst[n] - est[n]);
    slacks, end := map n | n in est :: lst[n] - est[n], projectEnd;
    forall n | n in priorities
      ensures LongestThrough(g, n, priorities[n])
    {
      ThroughFromParts(g, n, est[n] + 1, projectEnd - lst[n]);
    }
    forall n | n in priorities
      ensures priorities[n] <= end
    {
      var m := PathStops(g, n, priorities[n], est);
    }
    if nodes != [] {
      assert nodes[0].id in g;
      NotEmpty(topoOrder, nodes[0].id);
      ghost var m :| m in topoOrder && end == est[m] + 1;
      EndReached(g, m, end, priorities[m]);
      var p := CriticalChain(g, priorities);
      assert forall n :: n in p ==> slacks[n] == 0;
    }
  }

  lemma NotEmpty(order: seq<NodeId>, n: NodeId)
    requires n in order
    ensures order != []
  {
  }

  // The latest earliest finish.
  method ProjectEnd(topoOrder: seq<NodeId>, est: map<NodeId, int>) returns (projectEnd: int)
    requires forall n :: n in topoOrder ==> n in est && est[n] >= 0
    ensures forall n :: n in topoOrder ==> est[n] + 1 <= projectEnd
    ensures topoOrder != [] ==> exists n :: n in topoOrder && projectEnd == est[n] + 1
  {
    projectEnd := 0;
    var i := 0;
    while i < |topoOrder|
      invariant i <= |topoOrder|
      invariant forall n :: n in topoOrder[..i] ==> est[n] + 1 <= projectEnd
      invariant if i == 0 then projectEnd == 0 else exists n :: n in topoOrder[..i] && projectEnd == est[n] + 1
    {
      var v := est[topoOrder[i]] + WEIGHT;
      assert topoOrder[..i + 1] == topoOrder[..i] + [topoOrder[i]];
      assert topoOrder[i] in topoOrder[..i + 1];
      if v > projectEnd {
        projectEnd := v;
      }
      i := i + 1;
    }
    assert topoOrder[..i] == topoOrder;
  }

  // A longest path through n stops somewhere, where its length is within the earliest finish.
  lemma PathStops(g: Deps, n: NodeId, k: int, est: map<NodeId, int>) returns (m: NodeId)
    requires LongestThrough(g, n, k)
    requires forall x :: x in g ==> x in est && LongestTo(g, x, est[x] + 1)
    ensures m in g && k <= est[m] + 1
  {
    var p :| PathThrough(g, n, p) && |p| == k;
    m := p[|p| - 1];
    assert PathTo(g, m, p);
  }

  // The longest path into m is a path through m.
  lemma EndReached(g: Deps, m: NodeId, k: int, through: int)
    requires LongestTo(g, m, k) && LongestThrough(g, m, through)
    ensures k <= through
  {
    var p :| PathTo(g, m, p) && |p| == k;
    assert PathThrough(g, m, p);
  }

  method NodeDeps(nodes: seq<Node>) returns (nodeMap: map<NodeId, seq<NodeId>>)
    requires UniqueIds(nodes)
    ensures nodeMap == DepMap(nodes)
  {
    nodeMap := map[];
    var i := 0;
    while i < |nodes|
      invariant i <= |nodes|
      invariant nodeMap == DepMap(nodes[..i])
    {
      nodeMap := nodeMap[nodes[i].id := nodes[i].deps];
      assert nodes[..i + 1][..i] == nodes[..i];
      i := i + 1;
    }
    assert nodes[..i] == nodes;
  }

  ghost predicate SourceToSink(g: Deps, p: seq<NodeId>) {
    |p| >= 1 && Path(g, p) && p[0] in g && g[p[0]] == [] && forall n :: n in g ==> p[|p| - 1] !in g[n]
  }

  // Some path from a source to a sink consists of nodes with the top priority,
  // and the top priority is its size: the critical path.
  lemma CriticalChain(g: Deps, priorities: map<NodeId, int>) returns (p: seq<NodeId>)
    requires priorities.Keys == g.Keys && g.Keys != {} && Closed(g)
    requires forall n :: n in priorities ==> LongestThrough(g, n, priorities[n])
    ensures SourceToSink(g, p)
    ensures forall n :: n in p ==> n in g && priorities[n] == |p|
    ensures forall n :: n in g ==> priorities[n] <= |p|
  {
    var top := TopPriority(g.Keys, priorities);
    assert LongestThrough(g, top, priorities[top]);
    p :| PathThrough(g, top, p) && |p| == priorities[top];
    forall n | n in p
      ensures priorities[n] == |p|
    {
      LongestBound(g, n, priorities[n], p);
    }
    ChainEnds(g, p);
  }

  lemma LongestBound(g: Deps, n: NodeId, k: int, p: seq<NodeId>)
    requires LongestThrough(g, n, k) && Path(g, p) && n in p
    ensures |p| <= k
  {
    assert PathThrough(g, n, p);
  }

  // A path that is longest through its ends starts at a source and stops at a sink.
  lemma ChainEnds(g: Deps, p: seq<NodeId>)
    requires |p| >= 1 && Path(g, p) && Closed(g)
    requires LongestThrough(g, p[0], |p|) && LongestThrough(g, p[|p| - 1], |p|)
    ensures g[p[0]] == [] && forall n :: n in g ==> p[|p| - 1] !in g[n]
  {
    hide LongestThrough;
    if g[p[0]] != [] {
      var q := [g[p[0]][0]] + p;
      PathExtend(g, g[p[0]][0], p);
      assert q[1] == p[0];
      LongestBound(g, p[0], |p|, q);
    }
    forall n | n in g
      ensures p[|p| - 1] !in g[n]
    {
      if p[|p| - 1] in g[n] {
        var q := p + [n];
        assert q[|p| - 1] == p[|p| - 1];
        LongestBound(g, p[|p| - 1], |p|, q);
      }
    }
  }

  lemma {:induction false} TopPriority(s: set<NodeId>, priorities: map<NodeId, int>) returns (top: NodeId)
    requires s != {} && s <= priorities.Keys
    ensures top in s && forall n :: n in s ==> priorities[n] <= priorities[top]
  {
    top :| top in s;
    if s - {top} == {} {
      assert s == {top};
    } else {
      var other := TopPriority(s - {top}, priorities);
      if priorities[other] > priorities[top] {
        top := other;
      }
      assert forall n :: n in s ==> n == top || n in s - {top} || priorities[n] <= priorities[top];
    }
  }
}
