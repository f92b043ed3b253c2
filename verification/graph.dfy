// Directed graphs given by dependency lists, independent of any algorithm:
// paths, cycles, topological orders, and the count of open dependencies that
// both Kahn's algorithm and the executor keep in their in-degree maps.
module Graph {
  import opened Types

  // g[n] lists the dependencies of n in declaration order, repetitions included.
  type Deps = map<NodeId, seq<NodeId>>

  // Every dependency is itself a node.
  ghost predicate Closed(g: Deps) {
    forall n, d :: n in g && d in g[n] ==> d in g
  }

  // A path runs from dependencies to dependents.
  ghost predicate Path(g: Deps, p: seq<NodeId>) {
    && |p| >= 1
    && (forall i :: 0 <= i < |p| ==> p[i] in g)
    && (forall i, j :: 0 <= i < j < |p| && j == i + 1 ==> p[i] in g[p[j]])
  }

  ghost predicate Cyclic(g: Deps) {
    exists p :: |p| >= 2 && Path(g, p) && p[0] == p[|p| - 1]
  }

  // Every node of g once, every dependency before its dependents.
  ghost predicate TopoOrder(g: Deps, order: seq<NodeId>) {
    && TopoPrefix(g, order)
    && forall n :: n in g ==> n in order
  }

  ghost predicate TopoPrefix(g: Deps, order: seq<NodeId>) {
    && Distinct(order)
    && (forall n :: n in order ==> n in g)
    && (forall i, d :: 0 <= i < |order| && d in g[order[i]] ==> d in order[..i])
  }

  // ----- cycles and ranks -----

  ghost predicate Ranked(g: Deps, rank: map<NodeId, int>) {
    forall n, d :: n in g && d in g[n] ==> d in rank && n in rank && rank[d] < rank[n]
  }

  lemma {:induction false} RankGrowsAlongPath(g: Deps, rank: map<NodeId, int>, p: seq<NodeId>)
    requires Ranked(g, rank) && Path(g, p) && |p| >= 2
    ensures p[0] in rank && p[|p| - 1] in rank && rank[p[0]] < rank[p[|p| - 1]]
  {
    var n := |p| - 1;
    assert p[n - 1] in g[p[n]];
    if n > 1 {
      RankGrowsAlongPath(g, rank, p[..n]);
    }
  }

  lemma RankedIsAcyclic(g: Deps, rank: map<NodeId, int>)
    requires Ranked(g, rank)
    ensures !Cyclic(g)
  {
    forall p | |p| >= 2 && Path(g, p)
      ensures p[0] != p[|p| - 1]
    {
      RankGrowsAlongPath(g, rank, p);
    }
  }

  lemma TopoOrderIsAcyclic(g: Deps, order: seq<NodeId>)
    requires TopoOrder(g, order)
    ensures !Cyclic(g)
  {
    var rank := map n | n in g :: IndexOf(order, n);
    forall n, d | n in g && d in g[n]
      ensures d in rank && rank[d] < rank[n]
    {
      assert d in g[order[IndexOf(order, n)]];
      assert d in order[..IndexOf(order, n)];
      var j :| 0 <= j < IndexOf(order, n) && order[j] == d;
    }
    RankedIsAcyclic(g, rank);
  }

  ghost function IndexOf(s: seq<NodeId>, x: NodeId): (i: nat)
    requires x in s
    ensures i < |s| && s[i] == x
  {
    var i :| 0 <= i < |s| && s[i] == x;
    i
  }

  // n has a dependency in s.
  ghost predicate Waits(g: Deps, s: set<NodeId>, n: NodeId)
    requires n in g
  {
    exists d :: d in s && d in g[n]
  }

  // A set of nodes in which everybody waits for somebody in the set contains a cycle.
  lemma WaitingSetIsCyclic(g: Deps, s: set<NodeId>)
    requires s != {} && s <= g.Keys
    requires forall n {:trigger Waits(g, s, n)} :: n in s ==> Waits(g, s, n)
    ensures Cyclic(g)
  {
    var n :| n in s;
    WalkBack(g, s, [n]);
  }

  lemma {:induction false} WalkBack(g: Deps, s: set<NodeId>, p: seq<NodeId>)
    requires s <= g.Keys
    requires forall n {:trigger Waits(g, s, n)} :: n in s ==> Waits(g, s, n)
    requires |p| >= 1 && Path(g, p) && Distinct(p) && Elements(p) <= s
    ensures Cyclic(g)
    decreases |s| - |p|
  {
    hide Path, Cyclic, Distinct;
    assert p[0] in Elements(p);
    assert Waits(g, s, p[0]);
    var d :| d in s && d in g[p[0]];
    PathExtend(g, d, p);
    var q := [d] + p;
    if d in p {
      var k :| 0 <= k < |p| && p[k] == d;
      PathReturns(g, q, k + 1);
    } else {
      DistinctPrepend(d, p);
      DistinctSize(q);
      SubsetSize(Elements(q), s);
      WalkBack(g, s, q);
    }
  }

  lemma DistinctPrepend(d: NodeId, p: seq<NodeId>)
    requires Distinct(p) && d !in p
    ensures Distinct([d] + p) && Elements([d] + p) == Elements(p) + {d}
  {
  }

  // A path that comes back to its first node contains a cycle.
  lemma PathReturns(g: Deps, q: seq<NodeId>, k: nat)
    requires Path(g, q) && 1 <= k < |q| && q[0] == q[k]
    ensures Cyclic(g)
  {
    var c := q[0..k + 1];
    PathSlice(g, q, 0, k + 1);
    hide Path;
    assert c[0] == c[|c| - 1];
  }

  lemma PathExtend(g: Deps, d: NodeId, p: seq<NodeId>)
    requires |p| >= 1 && Path(g, p) && d in g && d in g[p[0]]
    ensures Path(g, [d] + p)
  {
    var q := [d] + p;
    forall i, j | 0 <= i < j < |q| && j == i + 1
      ensures q[i] in g[q[j]]
    {
      if i > 0 {
        assert p[i - 1] in g[p[j - 1]];
      }
    }
  }

  // Any stretch of a path is a path.
  lemma PathSlice(g: Deps, p: seq<NodeId>, i: nat, j: nat)
    requires Path(g, p) && i < j <= |p|
    ensures Path(g, p[i..j])
  {
    var q := p[i..j];
    forall a, b | 0 <= a < b < |q| && b == a + 1
      ensures q[a] in g[q[b]]
    {
      assert p[i + a] in g[p[i + b]];
    }
  }

  // In an acyclic graph every non-empty set of nodes has a member none of whose
  // dependencies lie in the set.
  lemma SourceExists(g: Deps, s: set<NodeId>) returns (n: NodeId)
    requires !Cyclic(g) && s != {} && s <= g.Keys
    ensures n in s && forall d :: d in g[n] ==> d !in s
  {
    if forall n {:trigger Waits(g, s, n)} :: n in s ==> Waits(g, s, n) {
      WaitingSetIsCyclic(g, s);
      assert false;
    }
    n :| n in s && !Waits(g, s, n);
  }

  lemma AcyclicHasOrder(g: Deps) returns (order: seq<NodeId>)
    requires Closed(g) && !Cyclic(g)
    ensures TopoOrder(g, order)
  {
    order := ExtendOrder(g, []);
  }

  lemma {:induction false} ExtendOrder(g: Deps, prefix: seq<NodeId>) returns (order: seq<NodeId>)
    requires Closed(g) && !Cyclic(g) && TopoPrefix(g, prefix)
    ensures TopoOrder(g, order)
    decreases g.Keys - Elements(prefix)
  {
    var left := g.Keys - Elements(prefix);
    if left == {} {
      order := prefix;
      assert g.Keys <= Elements(prefix);
    } else {
      var n := SourceExists(g, left);
      var next := prefix + [n];
      forall i, d | 0 <= i < |next| && d in g[next[i]]
        ensures d in next[..i]
      {
        if i < |prefix| {
          assert next[..i] == prefix[..i];
        } else {
          assert next[..i] == prefix;
          assert d in Elements(prefix);
        }
      }
      assert Elements(next) == Elements(prefix) + {n};
      order := ExtendOrder(g, next);
    }
  }

  // ----- open dependencies -----

  // The number of occurrences in deps that are not settled yet.
  function Open(deps: seq<NodeId>, settled: set<NodeId>): nat {
    if deps == [] then 0
    else Open(deps[1..], settled) + (if deps[0] in settled then 0 else 1)
  }

  lemma {:induction false} OpenBound(deps: seq<NodeId>, settled: set<NodeId>)
    ensures Open(deps, settled) <= |deps|
    ensures settled == {} ==> Open(deps, settled) == |deps|
    ensures Open(deps, settled) == 0 <==> (forall d :: d in deps ==> d in settled)
  {
    if deps != [] {
      OpenBound(deps[1..], settled);
      assert forall d :: d in deps <==> d == deps[0] || d in deps[1..];
    }
  }

  // Settling one more node closes exactly its occurrences.
  lemma {:induction false} OpenSettle(deps: seq<NodeId>, settled: set<NodeId>, x: NodeId)
    requires x !in settled
    ensures Open(deps, settled) == Open(deps, settled + {x}) + multiset(deps)[x]
  {
    if deps != [] {
      OpenSettle(deps[1..], settled, x);
      assert deps == [deps[0]] + deps[1..];
      assert multiset(deps) == multiset{deps[0]} + multiset(deps[1..]);
    }
  }
}
