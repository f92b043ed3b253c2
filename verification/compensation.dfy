// Saga rollback and forward recovery (orchestrate/compensate.go).
module Compensation {
  import opened Types
  import opened Graph
  import opened Topo
  import opened Semantics
  import Meaning

  function CompensationAttempts(cc: CompensateConfig, undo: Compensator): nat {
    if undo.idempotent && cc.maxRetries > 0 then cc.maxRetries + 1 else 1
  }

  // The calls Compensate(resp, 0), ..., Compensate(resp, calls - 1) were made and
  // only the last one may have succeeded; all allowed attempts are used up unless
  // one succeeds or the context is cancelled during a backoff.
  ghost predicate Attempted(cc: CompensateConfig, undo: Compensator, resp: Response, ok: bool, calls: nat,
                            cancelled: bool) {
    && 1 <= calls <= CompensationAttempts(cc, undo)
    && (forall k :: 0 <= k < calls - 1 ==> !undo.undo(resp, k))
    && (ok <==> undo.undo(resp, calls - 1))
    && (!ok && calls < CompensationAttempts(cc, undo) ==> cancelled)
  }

  method ExecuteNodeCompensation(cc: CompensateConfig, undo: Compensator, resp: Response, cancelled: bool)
    returns (ok: bool, calls: nat)
    ensures Attempted(cc, undo, resp, ok, calls, cancelled)
    ensures var allowed := if undo.idempotent && cc.maxRetries > 0 then cc.maxRetries + 1 else 1;
      && 1 <= calls <= allowed && (ok <==> undo.undo(resp, calls - 1))
      && (forall k :: 0 <= k < calls - 1 ==> !undo.undo(resp, k))
      && (!ok && !cancelled ==> calls == allowed)
  {
    var maxAttempts := 1;
    if undo.idempotent && cc.maxRetries > 0 {
      maxAttempts := cc.maxRetries + 1;
    }
    ok, calls := false, 0;
    while calls < maxAttempts
      invariant calls <= maxAttempts
      invariant forall k :: 0 <= k < calls ==> !undo.undo(resp, k)
    {
      ok := undo.undo(resp, calls);
      calls := calls + 1;
      if ok {
        return;
      }
      if calls < maxAttempts && cancelled {
        // the select between ctx.Done and the backoff timer may go either way
        if * {
          return;
        }
      }
    }
  }

  // Some path leads from a to the different node b.
  ghost predicate Ancestor(g: Deps, a: NodeId, b: NodeId) {
    exists p :: |p| >= 2 && Path(g, p) && p[0] == a && p[|p| - 1] == b
  }

  lemma {:induction false} PathFollowsOrder(g: Deps, order: seq<NodeId>, p: seq<NodeId>, k: nat)
    requires TopoOrder(g, order) && Path(g, p) && |p| >= 2 && k < |order| && order[k] == p[|p| - 1]
    ensures p[0] in order[..k]
  {
    var n := |p| - 1;
    assert p[n - 1] in g[p[n]];
    assert p[n - 1] in order[..k];
    if n > 1 {
      var j :| 0 <= j < k && order[..k][j] == p[n - 1];
      PathSlice(g, p, 0, n);
      PathFollowsOrder(g, order, p[0..n], j);
      var i :| 0 <= i < j && order[..j][i] == p[0];
      assert order[..k][i] == p[0];
    }
  }

  // Nobody in the list is an ancestor of somebody later in the list.
  ghost predicate DescendantsFirst(g: Deps, visited: seq<NodeId>) {
    forall i, j :: 0 <= i < j < |visited| ==> !Ancestor(g, visited[i], visited[j])
  }

  // visited takes some of order[k..], in reverse order.
  ghost predicate ReverseSelection(order: seq<NodeId>, k: nat, visited: seq<NodeId>)
    requires k <= |order|
  {
    && Distinct(visited)
    && (forall n :: n in visited ==> n in order[k..])
    && forall i, j, a, b | 0 <= i < j < |visited| && 0 <= a < |order| && 0 <= b < |order| ::
         visited[i] == order[a] && visited[j] == order[b] ==> b < a
  }

  lemma ReverseIsDescendantsFirst(g: Deps, order: seq<NodeId>, visited: seq<NodeId>)
    requires TopoOrder(g, order) && ReverseSelection(order, 0, visited)
    ensures DescendantsFirst(g, visited)
  {
    forall i, j | 0 <= i < j < |visited|
      ensures !Ancestor(g, visited[i], visited[j])
    {
      forall p | |p| >= 2 && Path(g, p) && p[0] == visited[i] && p[|p| - 1] == visited[j]
        ensures false
      {
        assert visited[j] in order[0..];
        var b := IndexOf(order, visited[j]);
        assert forall a :: 0 <= a < b ==> order[..b][a] != visited[i];
        PathFollowsOrder(g, order, p, b);
      }
    }
  }

  // The completed nodes in reverse topological order.
  method CompletedReverse(ghost g: Deps, order: seq<NodeId>, status: map<NodeId, NodeStatus>)
    returns (completed: seq<NodeId>)
    requires TopoOrder(g, order) && g.Keys <= status.Keys
    ensures DescendantsFirst(g, completed) && Distinct(completed)
    ensures forall n :: n in completed <==> n in g && status[n] == NodeDone
  {
    completed := [];
    var i := |order|;
    while i > 0
      invariant 0 <= i <= |order|
      invariant ReverseSelection(order, i, completed)
      invariant forall n :: n in completed <==> n in order[i..] && status[n] == NodeDone
    {
      i := i - 1;
      var id := order[i];
      assert order[i..] == [id] + order[i + 1..];
      if status[id] == NodeDone {
        SelectNext(g, order, i, completed);
        completed := completed + [id];
      } else {
        assert forall n :: n in order[i + 1..] ==> n in order[i..];
      }
    }
    assert order[0..] == order;
    ReverseIsDescendantsFirst(g, order, completed);
  }

  lemma SelectNext(g: Deps, order: seq<NodeId>, i: nat, visited: seq<NodeId>)
    requires TopoOrder(g, order) && i < |order| && ReverseSelection(order, i + 1, visited)
    ensures ReverseSelection(order, i, visited + [order[i]])
  {
    var next := visited + [order[i]];
    assert order[i..] == [order[i]] + order[i + 1..];
    assert order[i] !in order[i + 1..];
    forall p, q, a, b | 0 <= p < q < |next| && 0 <= a < |order| && 0 <= b < |order|
      && next[p] == order[a] && next[q] == order[b]
      ensures b < a
    {
      if q == |visited| {
        assert visited[p] in order[i + 1..];
        var k :| 0 <= k < |order| - i - 1 && order[i + 1..][k] == visited[p];
        assert order[i + 1 + k] == order[a];
      }
    }
  }

  // A completed node with a compensator and a recorded result.
  ghost predicate Eligible(nm: NodeMap, status: map<NodeId, NodeStatus>, results: map<NodeId, Response>, n: NodeId) {
    n in nm && n in status && status[n] == NodeDone && nm[n].undo.Some? && n in results
  }

  // How often Compensate was called for n, and whether it ended in success.
  datatype Visit = Visit(id: NodeId, calls: nat, ok: bool)

  ghost predicate VisitOk(cc: CompensateConfig, nm: NodeMap, results: map<NodeId, Response>, cancelled: bool,
                          v: Visit) {
    && v.id in nm && nm[v.id].undo.Some? && v.id in results
    && Attempted(cc, nm[v.id].undo.value, results[v.id], v.ok, v.calls, cancelled)
  }

  ghost function VisitIds(trace: seq<Visit>): seq<NodeId> {
    seq(|trace|, i requires 0 <= i < |trace| => trace[i].id)
  }

  // The statuses after the visits in trace.
  ghost predicate StatusAfter(before: map<NodeId, NodeStatus>, trace: seq<Visit>, after: map<NodeId, NodeStatus>) {
    && after.Keys == before.Keys
    && (forall v :: v in trace && v.ok ==> v.id in after && after[v.id] == NodeCompensated)
    && forall n :: n in before && (forall v :: v in trace && v.ok ==> v.id != n) ==> after[n] == before[n]
  }

  // after is the outcome of a rollback of before.
  ghost predicate RolledBack(cc: CompensateConfig, nodes: seq<Node>, nm: NodeMap, before: map<NodeId, NodeStatus>,
                             results: map<NodeId, Response>, cancelled: bool, after: map<NodeId, NodeStatus>)
  {
    exists trace: seq<Visit> :: Rollback(cc, nodes, nm, before, results, cancelled, after, trace)
  }

  // Every eligible node is visited once, descendants before ancestors, and marked if its compensation succeeds.
  ghost predicate Rollback(cc: CompensateConfig, nodes: seq<Node>, nm: NodeMap, before: map<NodeId, NodeStatus>,
                           results: map<NodeId, Response>, cancelled: bool, after: map<NodeId, NodeStatus>,
                           trace: seq<Visit>)
  {
    && Distinct(VisitIds(trace)) && DescendantsFirst(DepMap(nodes), VisitIds(trace))
    && (forall n :: n in VisitIds(trace) <==> Eligible(nm, before, results, n))
    && (forall v :: v in trace ==> VisitOk(cc, nm, results, cancelled, v))
    && StatusAfter(before, trace, after)
  }

  method ExecuteBackwardCompensation(cc: CompensateConfig, nodes: seq<Node>, nm: NodeMap,
                                     status: map<NodeId, NodeStatus>, results: map<NodeId, Response>, cancelled: bool)
    returns (ok: bool, after: map<NodeId, NodeStatus>, trace: seq<Visit>)
    requires UniqueIds(nodes) && KnownDeps(nodes) && !Cyclic(DepMap(nodes))
    requires nm.Keys == DepMap(nodes).Keys && nm.Keys <= status.Keys
    ensures Rollback(cc, nodes, nm, status, results, cancelled, after, trace)
    ensures ok <==> forall v :: v in trace ==> v.ok
  {
    hide *;
    ghost var g := DepMap(nodes);
    DepMapFacts(nodes);
    KnownDepsClosed(nodes);
    var topoOrder := TopologicalSort(nodes);
    var completed := CompletedReverse(g, topoOrder, status);
    ok, after, trace := true, status, [];
    TraceStart(g, completed, status);
    var i := 0;
    while i < |completed|
      invariant i <= |completed|
      invariant Chosen(g, completed, i, VisitIds(trace))
      invariant forall k :: 0 <= k < i && Eligible(nm, status, results, completed[k]) ==>
        completed[k] in VisitIds(trace)
      invariant forall n :: n in VisitIds(trace) ==> Eligible(nm, status, results, n)
      invariant forall v :: v in trace ==> VisitOk(cc, nm, results, cancelled, v)
      invariant StatusAfter(status, trace, after)
      invariant ok <==> forall v :: v in trace ==> v.ok
    {
      var id := completed[i];
      assert id in completed;
      ChosenNext(g, completed, i, VisitIds(trace));
      EligibleNow(nm, status, results, id);
      if nm[id].undo.Some? && id in results {
        var succeeded, calls := ExecuteNodeCompensation(cc, nm[id].undo.value, results[id], cancelled);
        var v := Visit(id, calls, succeeded);
        VisitNow(cc, nm, results, cancelled, v);
        StatusNext(status, trace, after, v);
        VisitIdsSnoc(trace, v);
        trace := trace + [v];
        if succeeded {
          after := after[id := NodeCompensated];
        } else {
          ok := false;
        }
      }
      i := i + 1;
    }
    TraceEnd(g, nm, completed, status, results, VisitIds(trace));
    RollbackParts(cc, nodes, nm, status, results, cancelled, after, trace);
  }

  lemma RollbackParts(cc: CompensateConfig, nodes: seq<Node>, nm: NodeMap, before: map<NodeId, NodeStatus>,
                      results: map<NodeId, Response>, cancelled: bool, after: map<NodeId, NodeStatus>,
                      trace: seq<Visit>)
    requires Distinct(VisitIds(trace)) && DescendantsFirst(DepMap(nodes), VisitIds(trace))
    requires forall n :: n in VisitIds(trace) <==> Eligible(nm, before, results, n)
    requires forall v :: v in trace ==> VisitOk(cc, nm, results, cancelled, v)
    requires StatusAfter(before, trace, after)
    ensures Rollback(cc, nodes, nm, before, results, cancelled, after, trace)
  {
  }

  // ids is taken from the first i completed nodes, in their order.
  ghost predicate Chosen(g: Deps, completed: seq<NodeId>, i: nat, ids: seq<NodeId>) {
    && i <= |completed| && Distinct(ids) && DescendantsFirst(g, ids)
    && forall n :: n in ids ==> n in completed[..i]
  }

  lemma VisitIdsSnoc(trace: seq<Visit>, v: Visit)
    ensures VisitIds(trace + [v]) == VisitIds(trace) + [v.id]
  {
  }

  lemma TraceStart(g: Deps, completed: seq<NodeId>, status: map<NodeId, NodeStatus>)
    ensures Chosen(g, completed, 0, VisitIds([])) && VisitIds([]) == [] && StatusAfter(status, [], status)
  {
  }

  lemma ChosenNext(g: Deps, completed: seq<NodeId>, i: nat, ids: seq<NodeId>)
    requires DescendantsFirst(g, completed) && Distinct(completed)
    requires i < |completed| && Chosen(g, completed, i, ids)
    ensures Chosen(g, completed, i + 1, ids) && Chosen(g, completed, i + 1, ids + [completed[i]])
  {
    hide Ancestor;
    assert completed[..i + 1] == completed[..i] + [completed[i]];
    var next := ids + [completed[i]];
    forall a | 0 <= a < |ids|
      ensures ids[a] != completed[i] && !Ancestor(g, ids[a], completed[i])
    {
      assert ids[a] in completed[..i];
      var k :| 0 <= k < i && completed[..i][k] == ids[a];
      assert completed[k] == ids[a];
    }
  }

  lemma EligibleNow(nm: NodeMap, status: map<NodeId, NodeStatus>, results: map<NodeId, Response>, n: NodeId)
    requires n in nm && n in status && status[n] == NodeDone
    ensures Eligible(nm, status, results, n) <==> nm[n].undo.Some? && n in results
  {
  }

  lemma VisitNow(cc: CompensateConfig, nm: NodeMap, results: map<NodeId, Response>, cancelled: bool, v: Visit)
    requires v.id in nm && nm[v.id].undo.Some? && v.id in results
    requires Attempted(cc, nm[v.id].undo.value, results[v.id], v.ok, v.calls, cancelled)
    ensures VisitOk(cc, nm, results, cancelled, v)
  {
  }

  lemma StatusNext(before: map<NodeId, NodeStatus>, trace: seq<Visit>, after: map<NodeId, NodeStatus>, v: Visit)
    requires StatusAfter(before, trace, after) && v.id in before
    ensures v.ok ==> StatusAfter(before, trace + [v], after[v.id := NodeCompensated])
    ensures !v.ok ==> StatusAfter(before, trace + [v], after)
  {
    var next := trace + [v];
    assert next[|trace|] == v;
    assert forall u :: u in next <==> u in trace || u == v;
  }

  lemma TraceEnd(g: Deps, nm: NodeMap, completed: seq<NodeId>, status: map<NodeId, NodeStatus>,
                 results: map<NodeId, Response>, ids: seq<NodeId>)
    requires Chosen(g, completed, |completed|, ids)
    requires nm.Keys == g.Keys && forall n :: n in completed <==> n in g && n in status && status[n] == NodeDone
    requires forall k :: 0 <= k < |completed| && Eligible(nm, status, results, completed[k]) ==> completed[k] in ids
    requires forall n :: n in ids ==> Eligible(nm, status, results, n)
    ensures Distinct(ids) && DescendantsFirst(g, ids)
    ensures forall n :: n in ids <==> Eligible(nm, status, results, n)
  {
    forall n | Eligible(nm, status, results, n)
      ensures n in ids
    {
      assert n in completed;
      var k :| 0 <= k < |completed| && completed[k] == n;
    }
  }

  // A rollback turns Done into Compensated, for eligible nodes, and changes nothing else.
  lemma RollbackStatuses(nm: NodeMap, status: map<NodeId, NodeStatus>, results: map<NodeId, Response>,
                         trace: seq<Visit>, after: map<NodeId, NodeStatus>)
    requires forall n :: n in VisitIds(trace) <==> Eligible(nm, status, results, n)
    requires StatusAfter(status, trace, after)
    ensures after.Keys == status.Keys
    ensures forall n :: n in status ==>
      (after[n] == status[n] ||
       (status[n] == NodeDone && after[n] == NodeCompensated && Eligible(nm, status, results, n)))
  {
    forall n | n in status && after[n] != status[n]
      ensures status[n] == NodeDone && after[n] == NodeCompensated && Eligible(nm, status, results, n)
    {
      var v :| v in trace && v.ok && v.id == n;
      VisitListed(trace, v);
    }
  }

  lemma VisitListed(trace: seq<Visit>, v: Visit)
    requires v in trace
    ensures v.id in VisitIds(trace)
  {
    var i :| 0 <= i < |trace| && trace[i] == v;
    assert VisitIds(trace)[i] == v.id;
  }

  // It reports success exactly when every eligible node ends compensated.
  lemma RollbackSuccess(nm: NodeMap, status: map<NodeId, NodeStatus>, results: map<NodeId, Response>,
                        trace: seq<Visit>, after: map<NodeId, NodeStatus>)
    requires forall n :: n in VisitIds(trace) <==> Eligible(nm, status, results, n)
    requires StatusAfter(status, trace, after) && Distinct(VisitIds(trace))
    ensures (forall v :: v in trace ==> v.ok) <==>
      forall n :: Eligible(nm, status, results, n) ==> n in after && after[n] == NodeCompensated
  {
    hide Eligible;
    if forall v :: v in trace ==> v.ok {
      forall n | Eligible(nm, status, results, n)
        ensures n in after && after[n] == NodeCompensated
      {
        assert n in VisitIds(trace);
        var i :| 0 <= i < |trace| && VisitIds(trace)[i] == n;
        assert trace[i] in trace;
      }
    } else {
      var v :| v in trace && !v.ok;
      VisitListed(trace, v);
      FailedStays(nm, status, results, trace, after, v);
    }
  }

  lemma FailedStays(nm: NodeMap, status: map<NodeId, NodeStatus>, results: map<NodeId, Response>,
                    trace: seq<Visit>, after: map<NodeId, NodeStatus>, v: Visit)
    requires Eligible(nm, status, results, v.id) && v in trace && !v.ok
    requires StatusAfter(status, trace, after) && Distinct(VisitIds(trace))
    ensures v.id in after && after[v.id] == NodeDone
  {
    var i :| 0 <= i < |trace| && trace[i] == v;
    forall u | u in trace && u.ok
      ensures u.id != v.id
    {
      var j :| 0 <= j < |trace| && trace[j] == u;
      assert VisitIds(trace)[i] == v.id && VisitIds(trace)[j] == u.id;
      assert i != j;
    }
  }

  // A compensator that is not idempotent is called exactly once.
  lemma NotIdempotentCalledOnce(cc: CompensateConfig, nm: NodeMap, results: map<NodeId, Response>, cancelled: bool,
                                v: Visit)
    requires VisitOk(cc, nm, results, cancelled, v) && !nm[v.id].undo.value.idempotent
    ensures v.calls == 1
  {
  }

  // A rollback in plain terms. Exactly the completed compensatable nodes with a result are
  // visited, each once, and no node before one that depends on it.
  lemma RollbackVisits(cc: CompensateConfig, nodes: seq<Node>, nm: NodeMap, before: map<NodeId, NodeStatus>,
                          results: map<NodeId, Response>, cancelled: bool, after: map<NodeId, NodeStatus>,
                          trace: seq<Visit>)
    requires Rollback(cc, nodes, nm, before, results, cancelled, after, trace)
    ensures forall n :: (exists i :: 0 <= i < |trace| && trace[i].id == n) <==>
      n in nm && n in before && before[n] == NodeDone && nm[n].undo.Some? && n in results
    ensures forall i, j :: 0 <= i < j < |trace| ==> trace[i].id != trace[j].id
    ensures forall i, j, p :: 0 <= i < j < |trace| && |p| >= 2 && Path(DepMap(nodes), p) && p[0] == trace[i].id ==>
      p[|p| - 1] != trace[j].id
  {
    hide VisitOk, StatusAfter, DepMap, Path;
    var ids := VisitIds(trace);
    forall n
      ensures (exists i :: 0 <= i < |trace| && trace[i].id == n) <==>
        n in nm && n in before && before[n] == NodeDone && nm[n].undo.Some? && n in results
    {
      assert n in ids <==> Eligible(nm, before, results, n);
      if n in ids {
        var i :| 0 <= i < |trace| && ids[i] == n;
        assert trace[i].id == n;
      }
      if i :| 0 <= i < |trace| && trace[i].id == n {
        assert ids[i] == n;
      }
    }
    forall i, j | 0 <= i < j < |trace|
      ensures trace[i].id != trace[j].id && !Ancestor(DepMap(nodes), trace[i].id, trace[j].id)
    {
      assert ids[i] == trace[i].id && ids[j] == trace[j].id;
    }
  }

  // Exactly the nodes whose compensation succeeded are marked, and nothing else changes.
  lemma RollbackMarks(cc: CompensateConfig, nodes: seq<Node>, nm: NodeMap, before: map<NodeId, NodeStatus>,
                         results: map<NodeId, Response>, cancelled: bool, after: map<NodeId, NodeStatus>,
                         trace: seq<Visit>)
    requires Rollback(cc, nodes, nm, before, results, cancelled, after, trace)
    ensures after.Keys == before.Keys
    ensures forall n :: n in before ==>
      after[n] == if exists i :: 0 <= i < |trace| && trace[i].id == n && trace[i].ok then NodeCompensated else before[n]
  {
    hide VisitOk, DepMap, Path, Eligible, DescendantsFirst, VisitIds;
    forall n | n in before
      ensures after[n] ==
        if exists i :: 0 <= i < |trace| && trace[i].id == n && trace[i].ok then NodeCompensated else before[n]
    {
      if i :| 0 <= i < |trace| && trace[i].id == n && trace[i].ok {
        assert trace[i] in trace;
      }
    }
  }

  // Compensate is called until it succeeds, once if it is not idempotent, and else at most
  // once more than there are retries; fewer calls without success only after a cancellation.
  lemma RollbackCalls(cc: CompensateConfig, nodes: seq<Node>, nm: NodeMap, before: map<NodeId, NodeStatus>,
                         results: map<NodeId, Response>, cancelled: bool, after: map<NodeId, NodeStatus>,
                         trace: seq<Visit>)
    requires Rollback(cc, nodes, nm, before, results, cancelled, after, trace)
    ensures forall i :: 0 <= i < |trace| ==>
      && trace[i].id in nm && nm[trace[i].id].undo.Some? && trace[i].id in results
      && var undo := nm[trace[i].id].undo.value;
      var allowed := if undo.idempotent && cc.maxRetries > 0 then cc.maxRetries + 1 else 1;
      && 1 <= trace[i].calls <= allowed && (trace[i].ok <==> undo.undo(results[trace[i].id], trace[i].calls - 1))
      && (forall k :: 0 <= k < trace[i].calls - 1 ==> !undo.undo(results[trace[i].id], k))
      && (!trace[i].ok && !cancelled ==> trace[i].calls == allowed)
  {
    hide StatusAfter, DepMap, Path, Eligible, DescendantsFirst, VisitIds;
    forall i | 0 <= i < |trace|
      ensures VisitOk(cc, nm, results, cancelled, trace[i])
    {
      assert trace[i] in trace;
    }
  }

  // executeForwardRecovery: retry the failed node with fresh attempts.
  method ExecuteForwardRecovery(cc: CompensateConfig, node: Node, request: Request, cancelled: bool)
    returns (resp: Option<Response>)
    ensures resp == RecoveryOutcome(cc, node, request) || (cancelled && resp.None?)
    ensures var own, more := Meaning.Tries(node.retries), Meaning.Tries(cc.maxRetries);
      && (resp.None? && !cancelled ==> Meaning.NoneSucceeds(node, request, own, more))
      && (resp.Some? ==>
            exists k :: Meaning.FirstAt(node, request, own, more, k) && node.run(request, k).resp == resp.value)
  {
    Meaning.FirstSuccessMeans(node, request, MaxAttempts(node.retries), MaxAttempts(cc.maxRetries));
    hide Meaning.FirstAt, Meaning.NoneSucceeds;
    var first := MaxAttempts(node.retries);
    var maxAttempts := MaxAttempts(cc.maxRetries);
    var attempt := 0;
    while attempt < maxAttempts
      invariant attempt <= maxAttempts
      invariant RecoveryOutcome(cc, node, request) ==
        FirstSuccess(node, request, first + attempt, maxAttempts - attempt)
    {
      match node.run(request, first + attempt) {
        case Returned(r) =>
          return Some(r);
        case _ =>
      }
      if attempt < maxAttempts - 1 && cancelled {
        if * {
          return None;
        }
      }
      attempt := attempt + 1;
    }
    return None;
  }
}
