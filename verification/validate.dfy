// Three-colour cycle detection (orchestrate/dag.go), breadth-first
// connectivity and ValidateDAG (orchestrate/orchestrate.go).
module Validate {
  import opened Types
  import opened Graph
  import opened Topo

  datatype Color = White | Gray | Black

  // Gray nodes are the recursion stack. Black nodes are listed in the order in
  // which they were finished, and every dependent of a finished node finished earlier.
  ghost predicate Coloured(g: Deps, color: map<NodeId, Color>, stack: seq<NodeId>, finished: seq<NodeId>) {
    && color.Keys == g.Keys
    && (forall n :: n in g ==> (color[n] == Gray <==> n in stack))
    && (forall n :: n in finished <==> n in g && color[n] == Black)
    && Distinct(finished)
    && forall i, n :: 0 <= i < |finished| && n in g && finished[i] in g[n] ==> n in finished[..i]
  }

  ghost function Whites(color: map<NodeId, Color>): set<NodeId> {
    set n | n in color && color[n] == White
  }

  ghost function Blacks(color: map<NodeId, Color>): set<NodeId> {
    set n | n in color && color[n] == Black
  }

  lemma StartNode(g: Deps, color: map<NodeId, Color>, stack: seq<NodeId>, finished: seq<NodeId>, id: NodeId)
    requires Coloured(g, color, stack, finished) && id in g && color[id] == White
    ensures Coloured(g, color[id := Gray], stack + [id], finished) && id !in stack
    ensures Whites(color[id := Gray]) == Whites(color) - {id} && id in Whites(color)
    ensures Blacks(color[id := Gray]) == Blacks(color)
  {
  }

  lemma FinishNode(g: Deps, color: map<NodeId, Color>, stack: seq<NodeId>, finished: seq<NodeId>, id: NodeId)
    requires Coloured(g, color, stack + [id], finished) && id !in stack && id in g
    requires forall n :: n in g && id in g[n] ==> n in Blacks(color)
    ensures Coloured(g, color[id := Black], stack, finished + [id])
    ensures Whites(color[id := Black]) == Whites(color) && Blacks(color[id := Black]) == Blacks(color) + {id}
  {
    var next := finished + [id];
    assert id in stack + [id];
    assert color[id] == Gray;
    forall i, n | 0 <= i < |next| && n in g && next[i] in g[n]
      ensures n in next[..i]
    {
      if i < |finished| {
        assert next[..i] == finished[..i];
      } else {
        assert next[..i] == finished;
        assert n in Blacks(color);
      }
    }
  }

  lemma ColourOf(g: Deps, color: map<NodeId, Color>, stack: seq<NodeId>, finished: seq<NodeId>, n: NodeId)
    requires Coloured(g, color, stack, finished) && n in g
    ensures n in color
    ensures color[n] == Gray ==> n in stack
    ensures color[n] == Black <==> n in Blacks(color)
  {
  }

  ghost predicate OnCycle(g: Deps, n: NodeId) {
    exists p :: |p| >= 2 && Path(g, p) && p[0] == p[|p| - 1] == n
  }

  lemma OnCycleIsCyclic(g: Deps, n: NodeId)
    requires OnCycle(g, n)
    ensures Cyclic(g)
  {
  }

  // An edge back onto the stack closes a cycle.
  lemma BackEdge(g: Deps, stack: seq<NodeId>, next: NodeId)
    requires Path(g, stack) && next in g && stack[|stack| - 1] in g[next] && next in stack
    ensures OnCycle(g, next)
  {
    var k :| 0 <= k < |stack| && stack[k] == next;
    var stretch := stack[k..|stack|];
    PathSlice(g, stack, k, |stack|);
    PathSnoc(g, stretch, next);
    var p := stretch + [next];
    assert p[0] == next && p[|p| - 1] == next;
  }

  lemma SingletonPath(g: Deps, n: NodeId)
    requires n in g
    ensures Path(g, [] + [n])
  {
    assert [] + [n] == [n];
  }

  lemma PathSnoc(g: Deps, p: seq<NodeId>, n: NodeId)
    requires Path(g, p) && n in g && p[|p| - 1] in g[n]
    ensures Path(g, p + [n])
  {
  }

  lemma AllFinishedIsAcyclic(g: Deps, color: map<NodeId, Color>, finished: seq<NodeId>)
    requires Closed(g) && Coloured(g, color, [], finished) && forall n :: n in g ==> color[n] == Black
    ensures !Cyclic(g)
  {
    var rank := map n | n in g :: 0 - IndexOf(finished, n);
    forall n, d | n in g && d in g[n]
      ensures d in rank && rank[d] < rank[n]
    {
      var i := IndexOf(finished, d);
      assert n in finished[..i];
      var j :| 0 <= j < i && finished[j] == n;
    }
    RankedIsAcyclic(g, rank);
  }

  lemma WhiteOrBlack(g: Deps, color: map<NodeId, Color>, finished: seq<NodeId>, n: NodeId)
    requires Coloured(g, color, [], finished) && n in g
    ensures n in color && (color[n] == White || n in Blacks(color))
  {
  }

  lemma AllBlack(nodes: seq<Node>, color: map<NodeId, Color>, finished: seq<NodeId>)
    requires UniqueIds(nodes) && KnownDeps(nodes) && Coloured(DepMap(nodes), color, [], finished)
    requires forall k :: 0 <= k < |nodes| ==> nodes[k].id in Blacks(color)
    ensures !Cyclic(DepMap(nodes))
  {
    DepMapFacts(nodes);
    KnownDepsClosed(nodes);
    AllFinishedIsAcyclic(DepMap(nodes), color, finished);
  }

  // The state of one detectCycle call: the colour map the recursion writes.
  class CycleDetector {
    const adj: map<NodeId, seq<NodeId>>
    ghost const g: Deps
    var color: map<NodeId, Color>
    ghost var finished: seq<NodeId>

    constructor (ghost g: Deps, adj: map<NodeId, seq<NodeId>>, ids: set<NodeId>)
      requires ids == g.Keys
      ensures this.g == g && this.adj == adj && Coloured(g, color, [], finished)
    {
      this.g := g;
      this.adj := adj;
      color := map n | n in ids :: White;
      finished := [];
    }

    method Visit(id: NodeId, ghost stack: seq<NodeId>) returns (cycle: Option<NodeId>)
      requires Transposed(g, adj) && Closed(g)
      requires Coloured(g, color, stack, finished) && id in g && color[id] == White
      requires Path(g, stack + [id])
      modifies this
      ensures cycle.None? ==> Coloured(g, color, stack, finished) && color[id] == Black
      ensures cycle.None? ==> Blacks(old(color)) <= Blacks(color) && Whites(color) < Whites(old(color))
      ensures cycle.Some? ==> OnCycle(g, cycle.value)
      decreases Whites(color)
    {
      hide *;
      ghost var above, color0 := stack + [id], color;
      StartNode(g, color, stack, finished, id);
      color := color[id := Gray];
      DownstreamMember(g, adj, id);
      var ds := Lookup(adj, id);
      var j := 0;
      while j < |ds|
        invariant j <= |ds|
        invariant Coloured(g, color, above, finished)
        invariant forall i :: 0 <= i < j ==> ds[i] in Blacks(color)
        invariant Blacks(color0) <= Blacks(color) && Whites(color) <= Whites(color0) - {id}
      {
        var next := ds[j];
        assert next in ds;
        ColourOf(g, color, above, finished, next);
        match color[next] {
          case Gray =>
            BackEdge(g, above, next);
            return Some(next);
          case White =>
            PathSnoc(g, above, next);
            var c := Visit(next, above);
            if c.Some? {
              return c;
            }
            ColourOf(g, color, above, finished, next);
          case Black =>
        }
        j := j + 1;
      }
      forall n | n in g && id in g[n]
        ensures n in Blacks(color)
      {
        assert n in ds;
      }
      FinishNode(g, color, stack, finished, id);
      color := color[id := Black];
      finished := finished + [id];
      return None;
    }
  }

  method DetectCycle(nodes: seq<Node>) returns (cycle: Option<NodeId>)
    requires UniqueIds(nodes) && KnownDeps(nodes)
    ensures cycle.None? <==> !Cyclic(DepMap(nodes))
    ensures cycle.Some? ==> OnCycle(DepMap(nodes), cycle.value)
  {
    hide *;
    ghost var g := DepMap(nodes);
    DepMapFacts(nodes);
    KnownDepsClosed(nodes);
    var adj, degrees := BuildDagMaps(nodes);
    var d := new CycleDetector(g, adj, degrees.Keys);
    var i := 0;
    while i < |nodes|
      invariant i <= |nodes|
      invariant Coloured(g, d.color, [], d.finished)
      invariant forall k :: 0 <= k < i ==> nodes[k].id in Blacks(d.color)
    {
      WhiteOrBlack(g, d.color, d.finished, nodes[i].id);
      if d.color[nodes[i].id] == White {
        SingletonPath(g, nodes[i].id);
        var c := d.Visit(nodes[i].id, []);
        if c.Some? {
          OnCycleIsCyclic(g, c.value);
          return c;
        }
        WhiteOrBlack(g, d.color, d.finished, nodes[i].id);
      }
      i := i + 1;
    }
    AllBlack(nodes, d.color, d.finished);
    return None;
  }

  // ----- connectivity -----

  // a and b are joined by an edge, in either direction.
  ghost predicate Adjacent(g: Deps, a: NodeId, b: NodeId) {
    (a in g && b in g[a]) || (b in g && a in g[b])
  }

  ghost predicate NeighbourClosed(g: Deps, s: set<NodeId>) {
    forall a, b :: a in s && Adjacent(g, a, b) ==> b in s
  }

  // No set of nodes without outgoing or incoming edges separates a from b.
  ghost predicate SameComponent(g: Deps, a: NodeId, b: NodeId) {
    forall s: set<NodeId> :: a in s && NeighbourClosed(g, s) ==> b in s
  }

  ghost predicate Connected(g: Deps) {
    forall a, b :: a in g && b in g ==> SameComponent(g, a, b)
  }

  lemma SameComponentSymmetric(g: Deps, a: NodeId, b: NodeId)
    requires Closed(g) && a in g && b in g && SameComponent(g, a, b)
    ensures SameComponent(g, b, a)
  {
    forall s: set<NodeId> | b in s && NeighbourClosed(g, s)
      ensures a in s
    {
      var rest := g.Keys - s;
      assert NeighbourClosed(g, rest) by {
        forall x, y | x in rest && Adjacent(g, x, y)
          ensures y in rest
        {
          assert Adjacent(g, y, x);
        }
      }
    }
  }

  // Everything is connected as soon as everything is connected to one node.
  lemma ConnectedFromRoot(g: Deps, root: NodeId)
    requires Closed(g) && root in g
    ensures Connected(g) <==> forall n :: n in g ==> SameComponent(g, root, n)
  {
    if forall n :: n in g ==> SameComponent(g, root, n) {
      forall a, b | a in g && b in g
        ensures SameComponent(g, a, b)
      {
        SameComponentSymmetric(g, root, a);
      }
    }
  }

  ghost predicate Linked(g: Deps, adj: map<NodeId, seq<NodeId>>) {
    forall a, b :: b in Lookup(adj, a) <==> Adjacent(g, a, b)
  }

  lemma LinkedStart(g: Deps, adj: map<NodeId, seq<NodeId>>, n: NodeId)
    requires Linked(g, adj) && n !in g
    ensures Linked(g[n := []], adj)
  {
    forall a, b
      ensures b in Lookup(adj, a) <==> Adjacent(g[n := []], a, b)
    {
      assert Adjacent(g[n := []], a, b) <==> Adjacent(g, a, b);
    }
  }

  lemma LinkedNext(g: Deps, adj: map<NodeId, seq<NodeId>>, n: NodeId, deps: seq<NodeId>, j: nat)
    requires j < |deps| && Linked(g[n := deps[..j]], adj)
    ensures var adj1 := adj[n := Lookup(adj, n) + [deps[j]]];
            Linked(g[n := deps[..j + 1]], adj1[deps[j] := Lookup(adj1, deps[j]) + [n]])
  {
    var dep := deps[j];
    var adj1 := adj[n := Lookup(adj, n) + [dep]];
    var adj2 := adj1[dep := Lookup(adj1, dep) + [n]];
    assert deps[..j + 1] == deps[..j] + [dep];
    forall a, b
      ensures b in Lookup(adj2, a) <==> Adjacent(g[n := deps[..j + 1]], a, b)
    {
      assert b in Lookup(adj, a) <==> Adjacent(g[n := deps[..j]], a, b);
      assert b in Lookup(adj1, a) <==> b in Lookup(adj, a) || (a == n && b == dep);
      assert b in Lookup(adj2, a) <==> b in Lookup(adj1, a) || (a == dep && b == n);
    }
  }

  method UndirectedAdjacency(nodes: seq<Node>) returns (adj: map<NodeId, seq<NodeId>>)
    requires UniqueIds(nodes)
    ensures Linked(DepMap(nodes), adj)
  {
    adj := map[];
    var i := 0;
    while i < |nodes|
      invariant i <= |nodes|
      invariant Linked(DepMap(nodes[..i]), adj)
    {
      var n := nodes[i];
      ghost var g := DepMap(nodes[..i]);
      NewId(nodes, i);
      LinkedStart(g, adj, n.id);
      var j := 0;
      assert n.deps[..j] == [];
      while j < |n.deps|
        invariant j <= |n.deps|
        invariant Linked(g[n.id := n.deps[..j]], adj)
      {
        LinkedNext(g, adj, n.id, n.deps, j);
        adj := adj[n.id := Lookup(adj, n.id) + [n.deps[j]]];
        adj := adj[n.deps[j] := Lookup(adj, n.deps[j]) + [n.id]];
        j := j + 1;
      }
      assert n.deps[..j] == n.deps;
      i := i + 1;
    }
    assert nodes[..i] == nodes;
  }

  // What the search has seen: visited nodes belong to the root's component, and
  // the neighbours of every visited node that is neither queued nor exempt are visited.
  ghost predicate Searched(g: Deps, root: NodeId, visited: set<NodeId>, queue: seq<NodeId>, exempt: set<NodeId>) {
    && root in visited && visited <= g.Keys
    && (forall x :: x in visited ==> SameComponent(g, root, x))
    && (forall x :: x in queue ==> x in visited)
    && (forall x, y :: x in visited && x !in queue && x !in exempt && Adjacent(g, x, y) ==> y in visited)
  }

  lemma SearchVisit(g: Deps, root: NodeId, visited: set<NodeId>, queue: seq<NodeId>, cur: NodeId, n: NodeId)
    requires Closed(g) && Searched(g, root, visited, queue, {cur})
    requires cur in visited && Adjacent(g, cur, n)
    ensures Searched(g, root, visited + {n}, queue + [n], {cur})
  {
    forall s: set<NodeId> | root in s && NeighbourClosed(g, s)
      ensures n in s
    {
      assert SameComponent(g, root, cur);
    }
  }

  lemma SearchEnd(g: Deps, root: NodeId, visited: set<NodeId>)
    requires Closed(g) && Searched(g, root, visited, [], {})
    ensures forall n :: n in g ==> (n in visited <==> SameComponent(g, root, n))
  {
    assert NeighbourClosed(g, visited);
  }

  method CheckConnected(nodes: seq<Node>) returns (lost: Option<NodeId>)
    requires UniqueIds(nodes) && KnownDeps(nodes)
    ensures lost.None? <==> Connected(DepMap(nodes))
    ensures lost.Some? ==> lost.value in DepMap(nodes) && !SameComponent(DepMap(nodes), nodes[0].id, lost.value)
  {
    ghost var g := DepMap(nodes);
    DepMapFacts(nodes);
    KnownDepsClosed(nodes);
    if |nodes| <= 1 {
      AtMostOneNode(nodes);
      return None;
    }
    var adj := UndirectedAdjacency(nodes);
    ghost var root := nodes[0].id;
    ConnectedFromRoot(g, root);
    var visited := Search(g, adj, nodes[0].id);
    if |visited| != |nodes| {
      var i := 0;
      while i < |nodes|
        invariant i <= |nodes|
        invariant forall k :: 0 <= k < i ==> nodes[k].id in visited
      {
        if nodes[i].id !in visited {
          return Some(nodes[i].id);
        }
        i := i + 1;
      }
      EveryNodeVisited(nodes, visited);
    }
    SubsetSize(visited, g.Keys);
    return None;
  }

  lemma AtMostOneNode(nodes: seq<Node>)
    requires UniqueIds(nodes) && |nodes| <= 1
    ensures Connected(DepMap(nodes))
  {
    DepMapFacts(nodes);
    var g := DepMap(nodes);
    forall a, b | a in g && b in g
      ensures a == b
    {
      assert HasId(nodes, a) && HasId(nodes, b);
    }
  }

  lemma EveryNodeVisited(nodes: seq<Node>, visited: set<NodeId>)
    requires UniqueIds(nodes) && forall k :: 0 <= k < |nodes| ==> nodes[k].id in visited
    ensures DepMap(nodes).Keys <= visited
  {
    DepMapFacts(nodes);
  }

  // Breadth-first search from root.
  method Search(ghost g: Deps, adj: map<NodeId, seq<NodeId>>, root: NodeId) returns (visited: set<NodeId>)
    requires Closed(g) && Linked(g, adj) && root in g
    ensures visited <= g.Keys
    ensures forall n :: n in g ==> (n in visited <==> SameComponent(g, root, n))
  {
    hide SameComponent;
    visited := {root};
    var queue := [root];
    assert SameComponent(g, root, root) by { ComponentOfItself(g, root); }
    while |queue| > 0
      invariant Searched(g, root, visited, queue, {})
      decreases g.Keys - visited, |queue|
    {
      var cur := queue[0];
      assert queue == [cur] + queue[1..];
      queue := queue[1..];
      ghost var visited0, queue0 := visited, queue;
      var ns := Lookup(adj, cur);
      var j := 0;
      while j < |ns|
        invariant j <= |ns|
        invariant Searched(g, root, visited, queue, {cur}) && cur in visited
        invariant forall k :: 0 <= k < j ==> ns[k] in visited
        invariant visited0 <= visited
        invariant visited == visited0 ==> queue == queue0
      {
        var n := ns[j];
        if n !in visited {
          SearchVisit(g, root, visited, queue, cur, n);
          visited := visited + {n};
          queue := queue + [n];
        }
        j := j + 1;
      }
    }
    SearchEnd(g, root, visited);
  }

  lemma ComponentOfItself(g: Deps, n: NodeId)
    ensures SameComponent(g, n, n)
  {
  }

  datatype ValidationError =
    | DuplicateId(id: NodeId)
    | UnknownDep(id: NodeId)
    | CycleAt(id: NodeId)
    | Disconnected(id: NodeId)

  // The graphs the executor accepts.
  ghost predicate ValidDag(nodes: seq<Node>) {
    UniqueIds(nodes) && KnownDeps(nodes) && !Cyclic(DepMap(nodes)) && Connected(DepMap(nodes))
  }

  // The checks are made in this order, and the named node is to blame.
  ghost predicate Justified(nodes: seq<Node>, err: ValidationError) {
    match err
    case DuplicateId(n) => exists i, j :: 0 <= i < j < |nodes| && nodes[i].id == nodes[j].id == n
    case UnknownDep(d) => UniqueIds(nodes) && !HasId(nodes, d) && exists i :: 0 <= i < |nodes| && d in nodes[i].deps
    case CycleAt(n) => UniqueIds(nodes) && KnownDeps(nodes) && OnCycle(DepMap(nodes), n)
    case Disconnected(n) =>
      && UniqueIds(nodes) && KnownDeps(nodes) && !Cyclic(DepMap(nodes)) && |nodes| > 0
      && n in DepMap(nodes) && !SameComponent(DepMap(nodes), nodes[0].id, n)
  }

  method ValidateDAG(nodes: seq<Node>) returns (err: Option<ValidationError>)
    ensures err.None? <==> ValidDag(nodes)
    ensures err.Some? ==> Justified(nodes, err.value)
  {
    var seen: set<NodeId> := {};
    var i := 0;
    while i < |nodes|
      invariant i <= |nodes|
      invariant UniqueIds(nodes[..i])
      invariant forall n :: n in seen <==> HasId(nodes[..i], n)
    {
      if nodes[i].id in seen {
        Repeated(nodes, i);
        assert Justified(nodes, DuplicateId(nodes[i].id));
        return Some(DuplicateId(nodes[i].id));
      }
      NewIdSnoc(nodes, i);
      seen := seen + {nodes[i].id};
      i := i + 1;
    }
    assert nodes[..i] == nodes;
    i := 0;
    while i < |nodes|
      invariant i <= |nodes|
      invariant forall k, d :: 0 <= k < i && d in nodes[k].deps ==> d in seen
    {
      var j := 0;
      while j < |nodes[i].deps|
        invariant j <= |nodes[i].deps|
        invariant forall k :: 0 <= k < j ==> nodes[i].deps[k] in seen
      {
        if nodes[i].deps[j] !in seen {
          assert nodes[i].deps[j] in nodes[i].deps && !HasId(nodes, nodes[i].deps[j]);
          assert !KnownDeps(nodes);
          return Some(UnknownDep(nodes[i].deps[j]));
        }
        j := j + 1;
      }
      i := i + 1;
    }
    assert KnownDeps(nodes);
    var cycle := DetectCycle(nodes);
    if cycle.Some? {
      return Some(CycleAt(cycle.value));
    }
    var lost := CheckConnected(nodes);
    if lost.Some? {
      return Some(Disconnected(lost.value));
    }
    return None;
  }

  lemma Repeated(nodes: seq<Node>, i: nat)
    requires i < |nodes| && HasId(nodes[..i], nodes[i].id)
    ensures !UniqueIds(nodes) && exists k, j :: 0 <= k < j < |nodes| && nodes[k].id == nodes[j].id == nodes[i].id
  {
    var k :| 0 <= k < i && nodes[..i][k].id == nodes[i].id;
    assert nodes[k].id == nodes[i].id;
  }

  lemma NewIdSnoc(nodes: seq<Node>, i: nat)
    requires i < |nodes| && UniqueIds(nodes[..i]) && !HasId(nodes[..i], nodes[i].id)
    ensures UniqueIds(nodes[..i + 1])
    ensures forall n :: HasId(nodes[..i + 1], n) <==> HasId(nodes[..i], n) || n == nodes[i].id
  {
    var a, b := nodes[..i], nodes[..i + 1];
    assert forall k :: 0 <= k < i ==> a[k] == b[k];
    assert b[i] == nodes[i];
    assert UniqueIds(b);
    HasIdSnoc(b, i);
    assert b[..i] == a && b[..i + 1] == b;
  }
}
