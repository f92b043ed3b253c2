// Adjacency maps and Kahn's algorithm (orchestrate/topo.go).
module Topo {
  import opened Types
  import opened Graph

  ghost predicate UniqueIds(nodes: seq<Node>) {
    forall i, j :: 0 <= i < j < |nodes| ==> nodes[i].id != nodes[j].id
  }

  // The dependency lists by node ID.
  ghost function DepMap(nodes: seq<Node>): Deps {
    if nodes == [] then map[]
    else
      var last := |nodes| - 1;
      DepMap(nodes[..last])[nodes[last].id := nodes[last].deps]
  }

  lemma {:induction false} DepMapFacts(nodes: seq<Node>)
    requires UniqueIds(nodes)
    ensures forall i :: 0 <= i < |nodes| ==> nodes[i].id in DepMap(nodes) && DepMap(nodes)[nodes[i].id] == nodes[i].deps
    ensures forall n :: n in DepMap(nodes) ==> HasId(nodes, n)
    ensures |DepMap(nodes).Keys| == |nodes|
  {
    hide UniqueIds, HasId;
    if nodes != [] {
      var last := |nodes| - 1;
      UniquePrefix(nodes, last);
      DepMapFacts(nodes[..last]);
      MapsSnoc(DepMap(nodes[..last]), nodes, last);
    }
  }

  // g has the nodes' dependency lists under their IDs, and nothing else.
  ghost predicate Maps(g: Deps, nodes: seq<Node>) {
    && (forall i :: 0 <= i < |nodes| ==> nodes[i].id in g && g[nodes[i].id] == nodes[i].deps)
    && (forall n :: n in g ==> HasId(nodes, n))
    && |g.Keys| == |nodes|
  }

  lemma MapsSnoc(g: Deps, nodes: seq<Node>, last: nat)
    requires UniqueIds(nodes) && last == |nodes| - 1 && Maps(g, nodes[..last])
    ensures Maps(g[nodes[last].id := nodes[last].deps], nodes)
  {
    hide HasId, UniqueIds;
    HasIdSnoc(nodes, last);
    assert nodes[..last + 1] == nodes;
    var n, next := nodes[last], g[nodes[last].id := nodes[last].deps];
    assert n.id !in g;
    assert next.Keys == g.Keys + {n.id};
    forall i | 0 <= i < |nodes|
      ensures nodes[i].id in next && next[nodes[i].id] == nodes[i].deps
    {
      if i < last {
        assert nodes[..last][i] == nodes[i];
      }
    }
  }

  lemma UniquePrefix(nodes: seq<Node>, k: nat)
    requires UniqueIds(nodes) && k <= |nodes|
    ensures UniqueIds(nodes[..k])
  {
  }

  ghost predicate HasId(nodes: seq<Node>, n: NodeId) {
    exists i :: 0 <= i < |nodes| && nodes[i].id == n
  }

  // Every dependency names a node.
  ghost predicate KnownDeps(nodes: seq<Node>) {
    forall i, d :: 0 <= i < |nodes| && d in nodes[i].deps ==> HasId(nodes, d)
  }

  // Reading a missing key of a Go map of slices gives the empty slice.
  function Lookup(m: map<NodeId, seq<NodeId>>, k: NodeId): seq<NodeId> {
    if k in m then m[k] else []
  }

  function Occ(s: seq<NodeId>, x: NodeId): nat {
    multiset(s)[x]
  }

  // n occurs among the dependents of d as often as d occurs among the dependencies of n.
  ghost predicate Transposed(g: Deps, downstream: map<NodeId, seq<NodeId>>) {
    forall d, n :: Occ(Lookup(downstream, d), n) == if n in g then Occ(g[n], d) else 0
  }

  lemma OccAppend(s: seq<NodeId>, x: NodeId, y: NodeId)
    ensures Occ(s + [x], y) == Occ(s, y) + if x == y then 1 else 0
  {
  }

  lemma DownstreamMember(g: Deps, downstream: map<NodeId, seq<NodeId>>, d: NodeId)
    requires Transposed(g, downstream)
    ensures forall n :: n in Lookup(downstream, d) <==> n in g && d in g[n]
  {
    forall n
      ensures n in Lookup(downstream, d) <==> n in g && d in g[n]
    {
      assert n in Lookup(downstream, d) <==> Occ(Lookup(downstream, d), n) > 0;
      assert n in g ==> (d in g[n] <==> Occ(g[n], d) > 0);
    }
  }

  ghost predicate Sized(g: Deps, inDegree: map<NodeId, int>) {
    inDegree.Keys == g.Keys && forall n :: n in g ==> inDegree[n] == |g[n]|
  }

  method BuildDagMaps(nodes: seq<Node>) returns (downstream: map<NodeId, seq<NodeId>>, inDegree: map<NodeId, int>)
    requires UniqueIds(nodes)
    ensures Transposed(DepMap(nodes), downstream)
    ensures Sized(DepMap(nodes), inDegree)
  {
    downstream, inDegree := map[], map[];
    var i := 0;
    while i < |nodes|
      invariant i <= |nodes|
      invariant Transposed(DepMap(nodes[..i]), downstream)
      invariant Sized(DepMap(nodes[..i]), inDegree)
    {
      var n := nodes[i];
      ghost var g := DepMap(nodes[..i]);
      NewId(nodes, i);
      inDegree := inDegree[n.id := |n.deps|];
      TransposedStart(g, downstream, n.id);
      var j := 0;
      assert n.deps[..j] == [];
      while j < |n.deps|
        invariant j <= |n.deps|
        invariant Transposed(g[n.id := n.deps[..j]], downstream)
      {
        var dep := n.deps[j];
        TransposedNext(g, downstream, n.id, n.deps, j);
        downstream := downstream[dep := Lookup(downstream, dep) + [n.id]];
        j := j + 1;
      }
      assert n.deps[..j] == n.deps;
      i := i + 1;
    }
    assert nodes[..i] == nodes;
  }

  lemma NewId(nodes: seq<Node>, i: nat)
    requires UniqueIds(nodes) && i < |nodes|
    ensures nodes[i].id !in DepMap(nodes[..i])
    ensures DepMap(nodes[..i + 1]) == DepMap(nodes[..i])[nodes[i].id := nodes[i].deps]
  {
    DepMapFacts(nodes[..i]);
    assert nodes[..i + 1][..i] == nodes[..i];
  }

  lemma TransposedStart(g: Deps, downstream: map<NodeId, seq<NodeId>>, n: NodeId)
    requires Transposed(g, downstream) && n !in g
    ensures Transposed(g[n := []], downstream)
  {
    forall d, m
      ensures Occ(Lookup(downstream, d), m) == if m in g[n := []] then Occ(g[n := []][m], d) else 0
    {
      assert Occ([], d) == 0;
    }
  }

  lemma TransposedNext(g: Deps, downstream: map<NodeId, seq<NodeId>>, n: NodeId, deps: seq<NodeId>, j: nat)
    requires j < |deps| && Transposed(g[n := deps[..j]], downstream)
    ensures Transposed(g[n := deps[..j + 1]], downstream[deps[j] := Lookup(downstream, deps[j]) + [n]])
  {
    var dep := deps[j];
    var old', next := g[n := deps[..j]], g[n := deps[..j + 1]];
    var downstream' := downstream[dep := Lookup(downstream, dep) + [n]];
    assert deps[..j + 1] == deps[..j] + [dep];
    forall d, m
      ensures Occ(Lookup(downstream', d), m) == if m in next then Occ(next[m], d) else 0
    {
      assert Occ(Lookup(downstream, d), m) == if m in old' then Occ(old'[m], d) else 0;
      OccAppend(Lookup(downstream, dep), n, m);
      OccAppend(deps[..j], dep, d);
    }
  }

  // ----- Kahn's algorithm -----

  // The in-degree map counts open dependencies, plus decrements still owed for
  // the dependents of a node that is settled but not fully propagated.
  ghost predicate Degrees(g: Deps, settled: set<NodeId>, inDegree: map<NodeId, int>, owed: multiset<NodeId>) {
    && inDegree.Keys == g.Keys
    && forall n :: n in g ==> inDegree[n] == Open(g[n], settled) + owed[n]
  }

  lemma DegreesInit(g: Deps, inDegree: map<NodeId, int>)
    requires Sized(g, inDegree)
    ensures Degrees(g, {}, inDegree, multiset{})
  {
    forall n | n in g
      ensures inDegree[n] == Open(g[n], {})
    {
      OpenBound(g[n], {});
    }
  }

  // Settling x leaves one decrement owed for every entry of its dependents list.
  lemma DegreesSettle(g: Deps, settled: set<NodeId>, inDegree: map<NodeId, int>, owed: multiset<NodeId>,
                      x: NodeId, downstream: map<NodeId, seq<NodeId>>)
    requires Degrees(g, settled, inDegree, owed) && Transposed(g, downstream)
    requires x !in settled
    ensures Degrees(g, settled + {x}, inDegree, owed + multiset(Lookup(downstream, x)))
  {
    forall n | n in g
      ensures inDegree[n] == Open(g[n], settled + {x}) + (owed + multiset(Lookup(downstream, x)))[n]
    {
      OpenSettle(g[n], settled, x);
      assert Occ(Lookup(downstream, x), n) == Occ(g[n], x);
    }
  }

  lemma DegreesDecrement(g: Deps, settled: set<NodeId>, inDegree: map<NodeId, int>, owed: multiset<NodeId>,
                         rest: seq<NodeId>, j: nat)
    requires j < |rest| && rest[j] in g && Degrees(g, settled, inDegree, owed + multiset(rest[j..]))
    ensures inDegree[rest[j]] >= 1
    ensures Degrees(g, settled, inDegree[rest[j] := inDegree[rest[j]] - 1], owed + multiset(rest[j + 1..]))
  {
    assert rest[j..] == [rest[j]] + rest[j + 1..];
    assert multiset(rest[j..]) == multiset{rest[j]} + multiset(rest[j + 1..]);
  }

  // The node lists of Kahn's loop: what is emitted or queued is exactly what is ready.
  ghost predicate Frontier(g: Deps, order: seq<NodeId>, queue: seq<NodeId>, inDegree: map<NodeId, int>)
    requires inDegree.Keys == g.Keys
  {
    && Distinct(queue)
    && (forall n :: n in queue ==> n !in order)
    && forall n :: n in order || n in queue <==> n in g && inDegree[n] == 0
  }

  method TopologicalSort(nodes: seq<Node>) returns (order: seq<NodeId>)
    requires UniqueIds(nodes) && KnownDeps(nodes)
    ensures TopoPrefix(DepMap(nodes), order)
    ensures |order| == |nodes| <==> !Cyclic(DepMap(nodes))
    ensures |order| == |nodes| <==> TopoOrder(DepMap(nodes), order)
  {
    ghost var g := DepMap(nodes);
    DepMapFacts(nodes);
    KnownDepsClosed(nodes);
    var downstream, inDeg := BuildDagMaps(nodes);
    DegreesInit(g, inDeg);
    order := [];
    var queue := Roots(nodes, inDeg);
    assert Elements(order) == {};
    while |queue| > 0
      invariant Degrees(g, Elements(order), inDeg, multiset{})
      invariant Frontier(g, order, queue, inDeg)
      invariant TopoPrefix(g, order)
      decreases g.Keys - Elements(order)
    {
      var cur := queue[0];
      KahnTake(g, order, queue, inDeg, downstream);
      queue := queue[1..];
      order := order + [cur];
      DownstreamMember(g, downstream, cur);
      queue, inDeg := ReleaseDependents(g, order, queue, inDeg, Lookup(downstream, cur));
    }
    KahnComplete(g, order, inDeg);
  }

  // The initial queue: the nodes without dependencies, in declaration order.
  method Roots(nodes: seq<Node>, inDeg: map<NodeId, int>) returns (queue: seq<NodeId>)
    requires UniqueIds(nodes) && inDeg.Keys == DepMap(nodes).Keys
    ensures Frontier(DepMap(nodes), [], queue, inDeg)
  {
    DepMapFacts(nodes);
    queue := [];
    var i := 0;
    while i < |nodes|
      invariant i <= |nodes|
      invariant Distinct(queue)
      invariant forall n :: n in queue <==> n in inDeg && inDeg[n] == 0 && HasId(nodes[..i], n)
    {
      HasIdSnoc(nodes, i);
      if inDeg[nodes[i].id] == 0 {
        queue := queue + [nodes[i].id];
      }
      i := i + 1;
    }
    assert nodes[..i] == nodes;
  }

  // Decrement the in-degree of every entry of ds and queue the nodes that become ready.
  method ReleaseDependents(ghost g: Deps, ghost order: seq<NodeId>, queue0: seq<NodeId>, inDeg0: map<NodeId, int>,
                           ds: seq<NodeId>)
    returns (queue: seq<NodeId>, inDeg: map<NodeId, int>)
    requires Degrees(g, Elements(order), inDeg0, multiset{} + multiset(ds))
    requires Frontier(g, order, queue0, inDeg0)
    requires forall x :: x in ds ==> x in g
    ensures Degrees(g, Elements(order), inDeg, multiset{})
    ensures Frontier(g, order, queue, inDeg)
  {
    queue, inDeg := queue0, inDeg0;
    var j := 0;
    assert ds[j..] == ds;
    while j < |ds|
      invariant j <= |ds|
      invariant Degrees(g, Elements(order), inDeg, multiset{} + multiset(ds[j..]))
      invariant Frontier(g, order, queue, inDeg)
    {
      var x := ds[j];
      DegreesDecrement(g, Elements(order), inDeg, multiset{}, ds, j);
      FrontierDecrement(g, order, queue, inDeg, x);
      inDeg := inDeg[x := inDeg[x] - 1];
      if inDeg[x] == 0 {
        queue := queue + [x];
      }
      j := j + 1;
    }
    assert ds[j..] == [];
  }

  lemma HasIdSnoc(nodes: seq<Node>, i: nat)
    requires UniqueIds(nodes) && i < |nodes|
    ensures !HasId(nodes[..i], nodes[i].id)
    ensures forall n :: HasId(nodes[..i + 1], n) <==> HasId(nodes[..i], n) || n == nodes[i].id
  {
    var a, b := nodes[..i], nodes[..i + 1];
    assert forall k :: 0 <= k < i ==> a[k] == b[k];
    assert b[i] == nodes[i];
    forall n | HasId(a, n)
      ensures HasId(b, n)
    {
      var k :| 0 <= k < i && a[k].id == n;
      assert b[k].id == n;
    }
  }

  lemma FrontierDecrement(g: Deps, order: seq<NodeId>, queue: seq<NodeId>, inDeg: map<NodeId, int>, x: NodeId)
    requires inDeg.Keys == g.Keys && Frontier(g, order, queue, inDeg)
    requires x in g && inDeg[x] >= 1
    ensures inDeg[x] > 1 ==> Frontier(g, order, queue, inDeg[x := inDeg[x] - 1])
    ensures inDeg[x] == 1 ==> Frontier(g, order, queue + [x], inDeg[x := inDeg[x] - 1])
  {
    assert x !in order && x !in queue;
  }

  lemma KahnTake(g: Deps, order: seq<NodeId>, queue: seq<NodeId>, inDeg: map<NodeId, int>,
                 downstream: map<NodeId, seq<NodeId>>)
    requires Degrees(g, Elements(order), inDeg, multiset{}) && Frontier(g, order, queue, inDeg)
    requires TopoPrefix(g, order) && Transposed(g, downstream) && |queue| > 0
    ensures queue[0] in g && queue[0] !in order
    ensures Degrees(g, Elements(order + [queue[0]]), inDeg, multiset{} + multiset(Lookup(downstream, queue[0])))
    ensures Frontier(g, order + [queue[0]], queue[1..], inDeg)
    ensures TopoPrefix(g, order + [queue[0]])
    ensures Elements(order + [queue[0]]) == Elements(order) + {queue[0]}
  {
    var cur := queue[0];
    var next := order + [cur];
    assert queue == [cur] + queue[1..];
    assert cur in queue;
    assert Elements(next) == Elements(order) + {cur};
    DegreesSettle(g, Elements(order), inDeg, multiset{}, cur, downstream);
    OpenBound(g[cur], Elements(order));
    forall i, d | 0 <= i < |next| && d in g[next[i]]
      ensures d in next[..i]
    {
      if i < |order| {
        assert next[..i] == order[..i];
      } else {
        assert next[..i] == order;
        assert d in Elements(order);
      }
    }
  }

  // With an empty queue, whatever was not emitted waits in a circle.
  lemma KahnLeftover(g: Deps, order: seq<NodeId>, inDeg: map<NodeId, int>)
    requires Closed(g) && Degrees(g, Elements(order), inDeg, multiset{})
    requires forall n :: n in order <==> n in g && inDeg[n] == 0
    requires g.Keys - Elements(order) != {}
    ensures Cyclic(g)
  {
    var left := g.Keys - Elements(order);
    forall n | n in left
      ensures Waits(g, left, n)
    {
      OpenBound(g[n], Elements(order));
    }
    WaitingSetIsCyclic(g, left);
  }

  lemma KahnComplete(g: Deps, order: seq<NodeId>, inDeg: map<NodeId, int>)
    requires Closed(g) && Degrees(g, Elements(order), inDeg, multiset{})
    requires forall n :: n in order <==> n in g && inDeg[n] == 0
    requires TopoPrefix(g, order)
    ensures |order| == |g.Keys| <==> !Cyclic(g)
    ensures |order| == |g.Keys| <==> TopoOrder(g, order)
  {
    DistinctSize(order);
    SubsetSize(Elements(order), g.Keys);
    if n :| n in g.Keys && n !in order {
      assert n in g.Keys - Elements(order);
      KahnLeftover(g, order, inDeg);
    } else {
      assert Elements(order) == g.Keys;
      assert TopoOrder(g, order);
      TopoOrderIsAcyclic(g, order);
    }
  }

  lemma KnownDepsClosed(nodes: seq<Node>)
    requires UniqueIds(nodes)
    ensures KnownDeps(nodes) <==> Closed(DepMap(nodes))
  {
    DepMapFacts(nodes);
    var g := DepMap(nodes);
    if KnownDeps(nodes) {
      forall n, d | n in g && d in g[n]
        ensures d in g
      {
        var i :| 0 <= i < |nodes| && nodes[i].id == n;
        assert HasId(nodes, d);
      }
    }
    if Closed(g) {
      forall i, d | 0 <= i < |nodes| && d in nodes[i].deps
        ensures HasId(nodes, d)
      {
        assert nodes[i].id in g && d in g[nodes[i].id];
        assert d in g;
      }
    }
  }
}
