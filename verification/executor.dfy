// The event loop of one DAG execution (orchestrate/dag.go). Goroutines are the
// entries of `inFlight`; which of them finishes next, and when the caller cancels
// the context, is left open, so every contract holds for every completion order.
module Executor {
  import opened Types
  import opened Graph
  import opened Topo
  import opened Semantics
  import Meaning
  import opened EngineState
  import opened PriorityQueues
  import Checkpoints
  import opened Compensation

  // How a run ends.
  datatype Exit = Completed | EarlyExit | Failed(id: NodeId) | Cancelled

  // Between two snapshots only pending nodes changed their status.
  ghost predicate Moved(a: State, b: State) {
    && b.results == a.results && b.cancelled == a.cancelled && b.tainted == a.tainted
    && b.status.Keys == a.status.Keys
    && (forall n :: n in a.status && a.status[n] != NodePending ==> b.status[n] == a.status[n])
    && With(b.status, NodePending) <= With(a.status, NodePending)
    && b.pending <= a.pending
  }

  // Each node is scheduled at most once, when it stops being pending, and its completion is
  // handled at most once, when it stops running.
  ghost predicate Once(scheduled: seq<NodeId>, handled: seq<NodeId>, status: Statuses) {
    && Distinct(scheduled) && Distinct(handled)
    && (forall n :: n in scheduled ==> n in status && status[n] != NodePending)
    && (forall n :: n in handled ==> n in scheduled && status[n] != NodeRunning)
    && (forall n :: n in status && status[n] == NodeRunning ==> n in scheduled)
  }

  lemma OnceScheduled(scheduled: seq<NodeId>, handled: seq<NodeId>, status: Statuses, n: NodeId, to: NodeStatus)
    requires Once(scheduled, handled, status) && n in status && status[n] == NodePending && to != NodePending
    ensures Once(scheduled + [n], handled, status[n := to])
  {
    assert n !in scheduled;
  }

  lemma OnceHandled(scheduled: seq<NodeId>, handled: seq<NodeId>, status: Statuses, n: NodeId, to: NodeStatus)
    requires Once(scheduled, handled, status) && n in status && status[n] == NodeRunning
    requires to != NodePending && to != NodeRunning
    ensures Once(scheduled, handled + [n], status[n := to])
  {
    assert n !in handled;
  }

  lemma OnceRolledBack(scheduled: seq<NodeId>, handled: seq<NodeId>, status: Statuses, after: Statuses)
    requires Once(scheduled, handled, status) && after.Keys == status.Keys
    requires forall n :: n in status ==> after[n] == status[n] || after[n] == NodeCompensated
    ensures Once(scheduled, handled, after)
  {
  }

  lemma OnceBound(scheduled: seq<NodeId>, handled: seq<NodeId>, status: Statuses)
    requires Once(scheduled, handled, status)
    ensures |handled| <= |scheduled| <= |status.Keys|
  {
    DistinctSize(scheduled);
    DistinctSize(handled);
    SubsetSize(Elements(scheduled), status.Keys);
    SubsetSize(Elements(handled), Elements(scheduled));
  }

  lemma MovedTransitive(a: State, b: State, c: State)
    requires Moved(a, b) && Moved(b, c)
    ensures Moved(a, c)
  {
  }

  lemma MovedStep(a: State, b: State, n: NodeId)
    requires n in a.status && a.status[n] == NodePending && n in b.status && b.status[n] != NodePending
    requires b.status == a.status[n := b.status[n]] && b.pending <= a.pending
    requires b.results == a.results && b.cancelled == a.cancelled && b.tainted == a.tainted
    ensures Moved(a, b) && With(b.status, NodePending) < With(a.status, NodePending)
  {
    assert n in With(a.status, NodePending) && n !in With(b.status, NodePending);
  }

  lemma MovedSame(a: State, b: State)
    requires b.status == a.status && b.pending == a.pending
    requires b.results == a.results && b.cancelled == a.cancelled && b.tainted == a.tainted
    ensures Moved(a, b)
  {
  }

  lemma MovedFacts(a: State, b: State)
    requires Moved(a, b)
    ensures b.results == a.results && b.cancelled == a.cancelled && b.tainted == a.tainted && b.pending <= a.pending
    ensures With(b.status, NodePending) <= With(a.status, NodePending) && b.status.Keys == a.status.Keys
    ensures forall n :: n in a.status && a.status[n] != NodePending ==> b.status[n] == a.status[n]
  {
  }

  // The queued items carry the priorities of their nodes.
  ghost predicate RankedBy(view: seq<Item>, nm: NodeMap) {
    forall y :: y in view ==> y.nodeId in nm && y.priority == nm[y.nodeId].priority
  }

  lemma RankedInsert(view: seq<Item>, nm: NodeMap, id: NodeId, order: nat)
    requires RankedBy(view, nm) && id in nm
    ensures RankedBy(Insert(view, Item(id, nm[id].priority, order)), nm)
  {
    InsertMembers(view, Item(id, nm[id].priority, order));
  }

  // Of all queued nodes the one at the head has the highest priority, and of those with
  // that priority it came first.
  ghost predicate HeadFirst(view: seq<Item>, nm: NodeMap) {
    && view != [] && view[0].nodeId in nm
    && (forall n :: n in QueuedIds(view) ==> n in nm && nm[n].priority <= nm[view[0].nodeId].priority)
    && forall y :: y in view && y.priority == view[0].priority ==> view[0].order <= y.order
  }

  lemma RankedHead(view: seq<Item>, nm: NodeMap)
    requires RankedBy(view, nm) && view != [] && Sorted(view)
    ensures RankedBy(view[1..], nm) && HeadFirst(view, nm)
  {
    HeadIsBest(view);
    hide Before, Sorted;
    assert forall y :: y in view[1..] ==> y in view;
    forall n | n in QueuedIds(view)
      ensures n in nm && nm[n].priority <= nm[view[0].nodeId].priority
    {
      var i :| 0 <= i < |view| && view[i].nodeId == n;
      assert view[i] in view && view[0] in view;
    }
  }

  lemma NoneQueued()
    ensures QueuedIds([]) == []
  {
  }

  lemma RankedNone(nm: NodeMap)
    ensures RankedBy([], nm)
  {
  }

  // ----- inputs -----

  // The results of the dependencies, absent ones as None.
  method CollectUpstream(deps: seq<NodeId>, results: map<NodeId, Response>) returns (up: Upstream)
    ensures up == UpstreamOf(deps, results)
  {
    up := map[];
    var i := 0;
    while i < |deps|
      invariant i <= |deps|
      invariant up == UpstreamOf(deps[..i], results)
    {
      assert deps[..i + 1] == deps[..i] + [deps[i]];
      up := up[deps[i] := if deps[i] in results then Some(results[deps[i]]) else None];
      i := i + 1;
    }
    assert deps[..i] == deps;
  }

  method BuildNodeInput(node: Node, req: Request, results: map<NodeId, Response>) returns (input: Option<Request>)
    ensures input == NodeInput(node, req, UpstreamOf(node.deps, results))
    ensures Meaning.InputIs(node, req,
                            map d | d in node.deps :: if d in results then Some(results[d]) else None, input)
  {
    Meaning.NodeInputMeans(node, req, UpstreamOf(node.deps, results));
    hide Meaning.InputIs;
    var up := CollectUpstream(node.deps, results);
    if node.mapper.Some? {
      return node.mapper.value(up);
    }
    if |node.deps| == 0 {
      return Some(req);
    }
    if |node.deps| == 1 {
      var dep := node.deps[0];
      if dep in results {
        assert node.deps[..0] == [];
        assert DepMessages([], up) == [];
        assert DepMessages(node.deps, up) == results[dep].messages;
        return Some(Request(results[dep].messages, req.sessionId, req.options, req.metadata));
      }
      return Some(req);
    }
    var msgs := JoinMessages(node.deps, results, up);
    return Some(Request(msgs, req.sessionId, req.options, req.metadata));
  }

  // The messages of several dependencies, in the order of declaration.
  method JoinMessages(deps: seq<NodeId>, results: map<NodeId, Response>, ghost up: Upstream)
    returns (msgs: seq<Message>)
    requires up == UpstreamOf(deps, results)
    ensures msgs == DepMessages(deps, up)
  {
    msgs := [];
    var i := 0;
    while i < |deps|
      invariant i <= |deps|
      invariant msgs == DepMessages(deps[..i], up)
    {
      assert deps[..i + 1][..i] == deps[..i];
      if deps[i] in results {
        msgs := msgs + results[deps[i]].messages;
      } else {
        assert msgs + [] == msgs;
      }
      i := i + 1;
    }
    assert deps[..i] == deps;
  }

  // The body of a launched goroutine: attempts until one succeeds; a cancelled context
  // may turn it into an error at any blocking point.
  method RunNode(node: Node, request: Request, cancelled: bool) returns (resp: Option<Response>)
    ensures resp == RunOutcome(node, request) || (cancelled && resp.None?)
    ensures resp.None? && !cancelled ==> Meaning.NoneSucceeds(node, request, 0, Meaning.Tries(node.retries))
    ensures resp.Some? ==>
      exists k :: Meaning.FirstAt(node, request, 0, Meaning.Tries(node.retries), k)
                  && node.run(request, k).resp == resp.value
  {
    Meaning.FirstSuccessMeans(node, request, 0, MaxAttempts(node.retries));
    hide Meaning.FirstAt, Meaning.NoneSucceeds;
    var maxAttempts := MaxAttempts(node.retries);
    var attempt := 0;
    while attempt < maxAttempts
      invariant attempt <= maxAttempts
      invariant RunOutcome(node, request) == FirstSuccess(node, request, attempt, maxAttempts - attempt)
    {
      if cancelled {
        // slot acquisition, the runner or the backoff may give up
        if * {
          return None;
        }
      }
      match node.run(request, attempt) {
        case Returned(r) =>
          return Some(r);
        case _ =>
      }
      attempt := attempt + 1;
    }
    return None;
  }

  method CountRunning(status: Statuses) returns (running: nat)
    ensures running == |With(status, NodeRunning)|
  {
    running := 0;
    var left := status.Keys;
    while left != {}
      invariant left <= status.Keys
      invariant running == |With(status, NodeRunning) - left|
      decreases left
    {
      var n :| n in left;
      if status[n] == NodeRunning {
        running := running + 1;
        assert With(status, NodeRunning) - (left - {n}) == (With(status, NodeRunning) - left) + {n};
      } else {
        assert With(status, NodeRunning) - (left - {n}) == With(status, NodeRunning) - left;
      }
      left := left - {n};
    }
    assert With(status, NodeRunning) - left == With(status, NodeRunning);
  }

  class DagExecutor {
    const cfg: Config
    const nodes: seq<Node>
    const nodeMap: NodeMap
    const req: Request
    const downstream: map<NodeId, seq<NodeId>>
    const pq: PriorityQueue?
    const store: Checkpoints.InMemoryCheckpointStore?
    ghost const saved: map<NodeId, Response>
    ghost const ref: Verdicts

    var status: Statuses
    var results: map<NodeId, Response>
    var inDegree: map<NodeId, int>
    var pending: int
    var activePQ: int
    var doneCh: seq<Completion>

    // the launched goroutines, and the caller's and the executor's cancellation of the context
    var inFlight: map<NodeId, Request>
    var parentDone: bool
    var ownCancel: bool
    ghost var tainted: bool
    // the nodes skipped or started, and those whose completion was handled, in order
    ghost var scheduled: seq<NodeId>
    ghost var handled: seq<NodeId>

    constructor (cfg: Config, nodes: seq<Node>, nodeMap: NodeMap, req: Request, downstream: map<NodeId, seq<NodeId>>,
                 pq: PriorityQueue?, store: Checkpoints.InMemoryCheckpointStore?, status: Statuses,
                 results: map<NodeId, Response>, inDegree: map<NodeId, int>, pending: int, ghost ref: Verdicts)
      ensures this.cfg == cfg && this.nodes == nodes && this.nodeMap == nodeMap && this.req == req
      ensures this.downstream == downstream && this.pq == pq && this.store == store && this.saved == results
        && this.ref == ref
      ensures this.status == status && this.results == results && this.inDegree == inDegree && this.pending == pending
      ensures activePQ == 0 && doneCh == [] && inFlight == map[] && !parentDone && !ownCancel && !tainted
      ensures scheduled == [] && handled == []
    {
      this.cfg, this.nodes, this.nodeMap, this.req, this.downstream := cfg, nodes, nodeMap, req, downstream;
      this.pq, this.store, this.saved, this.ref := pq, store, results, ref;
      this.status, this.results, this.inDegree, this.pending := status, results, inDegree, pending;
      activePQ, doneCh, inFlight, parentDone, ownCancel, tainted := 0, [], map[], false, false, false;
      scheduled, handled := [], [];
    }

    ghost function W(): World {
      World(cfg, nodeMap, req, downstream, saved, ref)
    }

    ghost function Queue(): seq<NodeId>
      reads pq
    {
      if pq == null then [] else QueuedIds(pq.view)
    }

    ghost function Now(): State
      reads this, pq
    {
      State(status, results, inDegree, pending, inFlight, doneCh, Queue(), parentDone, tainted)
    }

    ghost predicate Holds(owed: multiset<NodeId>, exempt: set<NodeId>)
      reads this, pq
    {
      && (pq != null ==> pq.Valid() && RankedBy(pq.view, nodeMap))
      && Inv(W(), Now(), owed, exempt) && Once(scheduled, handled, status)
      && |nodeMap| == |nodes| && (forall n :: n in nodeMap ==> nodeMap[n].id == n)
    }

    // ----- scheduling -----

    // Pay the decrements owed to the dependents of a settled node and enqueue those that become ready.
    method PropagateDownstream(id: NodeId, ghost owed: multiset<NodeId>, ghost exempt: set<NodeId>)
      requires Holds(owed + multiset(Lookup(downstream, id)), exempt)
      modifies this, pq
      ensures Holds(owed, exempt) && Moved(old(Now()), Now())
      ensures pq != null ==> status == old(status)
      ensures activePQ == old(activePQ) && ownCancel == old(ownCancel)
      decreases With(status, NodePending), 4
    {
      hide *;
      ghost var start := Now();
      NowStatus(this);
      var ds := Lookup(downstream, id);
      DependentsKnown(this, owed + multiset(ds), exempt, id);
      MovedSame(start, Now());
      var j := 0;
      assert ds[j..] == ds;
      while j < |ds|
        invariant j <= |ds|
        invariant Holds(owed + multiset(ds[j..]), exempt) && Moved(start, Now())
        invariant pq != null ==> status == old(status)
        invariant activePQ == old(activePQ) && ownCancel == old(ownCancel)
      {
        ghost var before := Now();
        Shrinks(this, start);
        Decrement(ds, j, owed, exempt);
        MovedTransitive(start, before, Now());
        j := j + 1;
      }
      assert owed + multiset(ds[j..]) == owed;
    }

    lemma DecrementsTo(ds: seq<NodeId>, j: nat, owed: multiset<NodeId>, exempt: set<NodeId>)
      requires j < |ds| && ds[j] in nodeMap && Holds(owed + multiset(ds[j..]), exempt)
      ensures ds[j] in inDegree && ds[j] in status && ds[j] !in Queue()
      ensures var next := inDegree[ds[j] := inDegree[ds[j]] - 1];
        && Moved(Now(), Now().(inDegree := next))
        && Inv(W(), Now().(inDegree := next), owed + multiset(ds[j + 1..]),
               if IsReady(status, next, ds[j]) then exempt + {ds[j]} else exempt)
    {
      hide Inv, Once, RankedBy, Moved, Distinct, With, QueuedIds, Lookup;
      InvKeys(W(), Now(), owed + multiset(ds[j..]), exempt);
      InvDecrement(W(), Now(), owed, exempt, ds, j);
      MovedSame(Now(), Now().(inDegree := inDegree[ds[j] := inDegree[ds[j]] - 1]));
    }

    // One round of propagateDownstream's loop.
    method Decrement(ds: seq<NodeId>, j: nat, ghost owed: multiset<NodeId>, ghost exempt: set<NodeId>)
      requires j < |ds| && ds[j] in nodeMap && Holds(owed + multiset(ds[j..]), exempt)
      modifies this, pq
      ensures Holds(owed + multiset(ds[j + 1..]), exempt) && Moved(old(Now()), Now())
      ensures pq != null ==> status == old(status)
      ensures activePQ == old(activePQ) && ownCancel == old(ownCancel)
      decreases With(status, NodePending), 3
    {
      hide Inv, Once, RankedBy, Moved, Distinct, With, QueuedIds, Insert, Lookup;
      ghost var before := Now();
      var x := ds[j];
      DecrementsTo(ds, j, owed, exempt);
      ghost var rest := owed + multiset(ds[j + 1..]);
      inDegree := inDegree[x := inDegree[x] - 1];
      ghost var middle := Now();
      assert middle == before.(inDegree := inDegree);
      if inDegree[x] == 0 && status[x] == NodePending {
        EnqueueReady(x, rest, exempt);
        MovedTransitive(before, middle, Now());
      }
    }

    method EnqueueReady(id: NodeId, ghost owed: multiset<NodeId>, ghost exempt: set<NodeId>)
      requires Holds(owed, exempt + {id})
      requires IsReady(status, inDegree, id) && id !in Queue() && id in nodeMap
      modifies this, pq
      ensures Holds(owed, exempt) && Moved(old(Now()), Now())
      ensures pq != null ==> status == old(status) && inDegree == old(inDegree)
      ensures pq != null ==> forall n :: n in Queue() <==> n == id || n in old(Queue())
      ensures pq != null ==> pq.view == Insert(old(pq.view), Item(id, nodeMap[id].priority, old(pq.counter)))
      ensures pq == null ==> status[id] != NodePending
      ensures activePQ == old(activePQ) && ownCancel == old(ownCancel)
      decreases With(status, NodePending), 2
    {
      hide Inv, Once, RankedBy, Moved, With, Distinct;
      if pq != null {
        ghost var before, item := Now(), Item(id, nodeMap[id].priority, pq.counter);
        InsertIds(pq.view, item);
        RankedInsert(pq.view, nodeMap, id, pq.counter);
        QueueDistinct(W(), before, owed, exempt + {id});
        pq.Push(id, nodeMap[id].priority);
        InvPush(W(), before, owed, exempt, id, Queue());
        assert Now() == before.(queue := Queue());
        MovedSame(before, Now());
      } else {
        ScheduleReady(id, owed, exempt);
      }
    }

    // Check a ready node's condition, then skip or launch it.
    method ScheduleReady(id: NodeId, ghost owed: multiset<NodeId>, ghost exempt: set<NodeId>)
      requires Holds(owed, exempt + {id})
      requires IsReady(status, inDegree, id) && id !in Queue() && id in nodeMap
      modifies this, pq
      ensures Holds(owed, exempt) && Moved(old(Now()), Now())
      ensures id in status && results == old(results)
      ensures status[id] == if Meaning.Runs(nodeMap[id], results) then NodeRunning else NodeSkipped
      ensures pq != null ==> status == old(status)[id := status[id]]
      ensures activePQ == old(activePQ) && ownCancel == old(ownCancel)
      ensures With(status, NodePending) < With(old(status), NodePending)
      decreases With(status, NodePending), 1
    {
      hide Inv, Once, RankedBy, Moved, With, Distinct, ConditionHolds, NodeInput;
      ghost var before := Now();
      var node := nodeMap[id];
      if cfg.replayMode && store != null {
        if status[id] == NodeDone {
          // the node is pending: replay never reaches this point
          assert false;
        }
      }
      var up := CollectUpstream(node.deps, results);
      Meaning.ConditionMeans(node, results);
      if !ConditionHolds(node, up) {
        SkipNode(id, owed, exempt);
      } else {
        StartNode(id, owed, exempt);
      }
      MovedFacts(before, Now());
    }

    lemma SkipsTo(id: NodeId, owed: multiset<NodeId>, exempt: set<NodeId>)
      requires Holds(owed, exempt + {id})
      requires IsReady(status, inDegree, id) && id !in Queue() && id in nodeMap
      requires !ConditionHolds(nodeMap[id], UpstreamOf(nodeMap[id].deps, results))
      ensures var after := Now().(status := status[id := NodeSkipped], pending := pending - 1);
        && Inv(W(), after, owed + multiset(Lookup(downstream, id)), exempt)
        && Moved(Now(), after) && With(after.status, NodePending) < With(status, NodePending)
        && Once(scheduled + [id], handled, after.status)
    {
      hide Inv, Once, RankedBy, Moved, With, Distinct, ConditionHolds, NodeInput, QueuedIds, UpstreamOf, Lookup;
      InvSkip(W(), Now(), owed, exempt, id);
      OnceScheduled(scheduled, handled, status, id, NodeSkipped);
      MovedStep(Now(), Now().(status := status[id := NodeSkipped], pending := pending - 1), id);
    }

    // Skip a node whose condition is false, and go on with its dependents.
    method SkipNode(id: NodeId, ghost owed: multiset<NodeId>, ghost exempt: set<NodeId>)
      requires Holds(owed, exempt + {id})
      requires IsReady(status, inDegree, id) && id !in Queue() && id in nodeMap
      requires !ConditionHolds(nodeMap[id], UpstreamOf(nodeMap[id].deps, results))
      modifies this, pq
      ensures Holds(owed, exempt) && Moved(old(Now()), Now())
      ensures id in status && status[id] == NodeSkipped
      ensures pq != null ==> status == old(status)[id := NodeSkipped]
      ensures activePQ == old(activePQ) && ownCancel == old(ownCancel)
      ensures With(status, NodePending) < With(old(status), NodePending)
      decreases With(status, NodePending), 0
    {
      hide Inv, Once, RankedBy, Moved, With, Distinct, ConditionHolds, NodeInput, QueuedIds, UpstreamOf, Lookup;
      ghost var before := Now();
      SkipsTo(id, owed, exempt);
      scheduled := scheduled + [id];
      status := status[id := NodeSkipped];
      pending := pending - 1;
      ghost var after := Now();
      assert after == before.(status := status, pending := pending);
      PropagateDownstream(id, owed, exempt);
      MovedTransitive(before, after, Now());
      MovedFacts(after, Now());
    }

    // Launch a node whose condition holds, or report that its input cannot be built.
    method StartNode(id: NodeId, ghost owed: multiset<NodeId>, ghost exempt: set<NodeId>)
      requires Holds(owed, exempt + {id})
      requires IsReady(status, inDegree, id) && id !in Queue() && id in nodeMap
      requires ConditionHolds(nodeMap[id], UpstreamOf(nodeMap[id].deps, results))
      modifies this
      ensures Holds(owed, exempt) && Moved(old(Now()), Now())
      ensures id in status && status == old(status)[id := NodeRunning]
      ensures activePQ == old(activePQ) && ownCancel == old(ownCancel)
      ensures With(status, NodePending) < With(old(status), NodePending)
    {
      hide Inv, Once, RankedBy, Moved, With, Distinct, ConditionHolds, NodeInput, QueuedIds, Meaning.InputIs;
      ghost var before := Now();
      var input := BuildNodeInput(nodeMap[id], req, results);
      RoomForOne(W(), before, owed, exempt + {id}, id);
      OnceScheduled(scheduled, handled, status, id, NodeRunning);
      scheduled := scheduled + [id];
      status := status[id := NodeRunning];
      if input.None? {
        InvStartError(W(), before, owed, exempt, id);
        // doneCh has one slot for every node, so the send under the lock does not block
        assert |doneCh| < |nodes|;
        doneCh := doneCh + [Completion(id, None)];
        assert Now() == before.(status := status, doneCh := doneCh);
      } else {
        InvLaunch(W(), before, owed, exempt, id, input.value);
        inFlight := inFlight[id := input.value];
        assert Now() == before.(status := status, inFlight := inFlight);
      }
      MovedStep(before, Now(), id);
    }

    // ----- the priority queue -----

    // In priority mode activePQ counts the running nodes and respects the limit.
    ghost predicate ActiveOk()
      reads this
    {
      pq != null ==>
        activePQ == |With(status, NodeRunning)| && (cfg.maxConcurrency > 0 ==> activePQ <= cfg.maxConcurrency)
    }

    // Ready nodes wait only while the limit is reached.
    ghost predicate Drained()
      reads this, pq
    {
      Queue() != [] ==> cfg.maxConcurrency > 0 && activePQ >= cfg.maxConcurrency
    }

    method DrainPQ()
      requires Holds(multiset{}, {}) && ActiveOk()
      modifies this, pq
      ensures Holds(multiset{}, {}) && ActiveOk() && Drained()
      ensures Moved(old(Now()), Now()) && ownCancel == old(ownCancel)
    {
      hide Inv, Once, RankedBy, HeadFirst, Moved, With, Distinct, QueuedIds, Sorted;
      ghost var start := Now();
      MovedSame(start, start);
      NoneQueued();
      if pq == null {
        return;
      }
      var maxActive := if cfg.maxConcurrency > 0 then cfg.maxConcurrency else 0;
      var empty := pq.Empty();
      while !empty
        invariant Holds(multiset{}, {}) && ActiveOk() && Moved(start, Now()) && ownCancel == old(ownCancel)
        invariant empty <==> pq.view == []
        decreases With(status, NodePending)
      {
        if maxActive > 0 && activePQ >= maxActive {
          break;
        }
        ghost var before := Now();
        LaunchBest();
        MovedTransitive(start, before, Now());
        empty := pq.Empty();
      }
      assert pq.view == [] ==> Queue() == [];
    }

    // Take the best ready node out of the queue: nobody else knows it then.
    method PopBest() returns (nodeID: NodeId)
      requires pq != null && Holds(multiset{}, {}) && pq.view != []
      modifies pq
      ensures Holds(multiset{}, {} + {nodeID}) && HeadFirst(old(pq.view), nodeMap) && nodeID == old(pq.view)[0].nodeId
      ensures IsReady(status, inDegree, nodeID) && nodeID !in Queue() && nodeID in nodeMap
      ensures Moved(old(Now()), Now())
    {
      hide Inv, Once, RankedBy, HeadFirst, Moved, With, Distinct, Sorted;
      ghost var before := Now();
      RankedHead(pq.view, nodeMap) by { assert Sorted(pq.view); }
      nodeID := pq.Pop();
      assert Queue() == before.queue[1..] && nodeID == before.queue[0];
      InvPop(W(), before, multiset{});
      assert Now() == before.(queue := before.queue[1..]);
      MovedSame(before, Now());
    }

    // One round of drainPQ's loop: the best ready node is scheduled.
    method LaunchBest()
      requires pq != null && Holds(multiset{}, {}) && ActiveOk() && pq.view != []
      requires cfg.maxConcurrency > 0 ==> activePQ < cfg.maxConcurrency
      modifies this, pq
      ensures Holds(multiset{}, {}) && ActiveOk()
      ensures Moved(old(Now()), Now()) && ownCancel == old(ownCancel)
      ensures With(status, NodePending) < With(old(status), NodePending)
      ensures HeadFirst(old(pq.view), nodeMap)
      ensures old(pq.view)[0].nodeId in status
        && status == old(status)[old(pq.view)[0].nodeId := status[old(pq.view)[0].nodeId]]
    {
      hide Inv, Once, RankedBy, HeadFirst, Moved, With, Distinct, Sorted, QueuedIds;
      ghost var before := Now();
      var nodeID := PopBest();
      ghost var middle := Now();
      ScheduleReady(nodeID, multiset{}, {});
      MovedTransitive(before, middle, Now());
      RunningStep(before.status, nodeID, status[nodeID]);
      if status[nodeID] == NodeRunning {
        activePQ := activePQ + 1;
      }
    }

    // ----- goroutines and the end of a run -----

    // Some goroutine finishes and sends its completion; there is always room for it.
    method GoroutineSends(ghost owed: multiset<NodeId>)
      requires Holds(owed, {}) && inFlight != map[]
      modifies `inFlight, `doneCh
      ensures Holds(owed, {}) && |inFlight| == |old(inFlight)| - 1 && |doneCh| == |old(doneCh)| + 1
    {
      hide Inv, Once, RankedBy, With, RunOutcome;
      ghost var before := Now();
      FlightMember(inFlight);
      var id :| id in inFlight;
      InvInFlight(W(), before, owed, {}, id);
      var resp := RunNode(nodeMap[id], inFlight[id], parentDone);
      InvSend(W(), before, owed, {}, Completion(id, resp));
      assert |doneCh| < |nodes|;
      FlightRemove(inFlight, id);
      doneCh := doneCh + [Completion(id, resp)];
      inFlight := inFlight - {id};
      assert Now() == before.(inFlight := inFlight, doneCh := doneCh);
    }

    // drainDoneCh: receive the completions of all running nodes and discard them.
    method DrainDoneCh(count: nat)
      requires count == |inFlight| + |doneCh| && count <= |nodes|
      requires forall n :: n in inFlight ==> n in nodeMap
      modifies `inFlight, `doneCh
      ensures inFlight == map[] && doneCh == []
    {
      var left := count;
      while left > 0
        invariant left == |inFlight| + |doneCh| && left <= |nodes|
        invariant forall n :: n in inFlight ==> n in nodeMap
      {
        var more: bool := *;
        while inFlight != map[] && (doneCh == [] || more)
          invariant left == |inFlight| + |doneCh|
          invariant forall n :: n in inFlight ==> n in nodeMap
          decreases |inFlight|
        {
          FlightMember(inFlight);
          var id :| id in inFlight;
          FlightRemove(inFlight, id);
          var resp := RunNode(nodeMap[id], inFlight[id], true);
          assert |doneCh| < |nodes|;
          doneCh := doneCh + [Completion(id, resp)];
          inFlight := inFlight - {id};
          more := *;
        }
        doneCh := doneCh[1..];
        left := left - 1;
      }
      FlightEmpty(inFlight);
    }

    // ----- the event loop -----

    ghost predicate Static() {
      && UniqueIds(nodes) && KnownDeps(nodes) && !Cyclic(DepMap(nodes))
      && DepMap(nodes).Keys == nodeMap.Keys
    }

    // The checkpoint store holds exactly the recorded results.
    ghost predicate Mirrored()
      reads this, store
    {
      store != null ==> Mirrors(nodeMap.Keys, store.Entries(req.sessionId), results)
    }

    // The state at the head of the event loop.
    ghost predicate Idle()
      reads this, pq, store
    {
      Holds(multiset{}, {}) && ActiveOk() && Drained() && Mirrored() && Static() && !ownCancel
    }

    // The completion c has been received but not handled.
    ghost predicate Receiving(c: Completion)
      reads this, pq, store
    {
      && (pq != null ==> pq.Valid() && RankedBy(pq.view, nodeMap))
      && Inv(W(), Before(c), multiset{}, {}) && Once(scheduled, handled, status)
      && |nodeMap| == |nodes| && (forall n :: n in nodeMap ==> nodeMap[n].id == n)
      && Mirrored() && Static() && !ownCancel
    }

    ghost function Before(c: Completion): State
      reads this, pq
    {
      Now().(doneCh := [c] + doneCh, pending := pending + 1)
    }

    // In priority mode the received node no longer counts as active.
    ghost predicate OneLess()
      reads this
    {
      pq != null ==>
        activePQ + 1 == |With(status, NodeRunning)| && (cfg.maxConcurrency > 0 ==> activePQ < cfg.maxConcurrency)
    }

    // Finished, and after a failure under a compensation strategy, rolled back.
    ghost predicate Ended(exit: Exit)
      reads this, store
    {
      Finished(exit) && (exit.Failed? && Compensates(cfg) ==> Undone())
    }

    ghost predicate Undone()
      requires cfg.compensate.Some?
      reads this
    {
      exists before ::
        results.Keys == With(before, NodeDone)
          && RolledBack(cfg.compensate.value, nodes, nodeMap, before, results, parentDone, status)
    }

    // Nothing of the run is left behind, and what was recorded follows the reference
    // unless a cancellation was absorbed as a node failure.
    ghost predicate Finished(exit: Exit)
      reads this, store
    {
      && inFlight == map[] && doneCh == [] && Mirrored() && Kept(saved, nodeMap, results)
      && Once(scheduled, handled, status)
      && status.Keys == nodeMap.Keys && ref.Keys == nodeMap.Keys
      && (tainted ==> parentDone && !FailStop(cfg, nodeMap))
      && (!tainted ==> Recorded(ref, status, results))
      && (exit == Cancelled ==> parentDone)
      && (exit.Failed? ==> exit.id in nodeMap && status[exit.id] == NodeFailed
                           && (!tainted && !parentDone ==> ref[exit.id] == Fails))
      && (exit == EarlyExit ==> cfg.earlyExit.Some? && exists n :: n in results && cfg.earlyExit.value(n, results[n]))
      && (exit == Completed ==> Settled(status) == nodeMap.Keys && results.Keys == With(status, NodeDone))
    }

    // Propagate from a settled node and fill the free slots.
    method GoOn(id: NodeId)
      requires Holds(multiset{} + multiset(Lookup(downstream, id)), {}) && ActiveOk() && Mirrored() && Static()
        && !ownCancel
      modifies this, pq
      ensures Idle() && pending <= old(pending)
    {
      hide Inv, Once, RankedBy, Moved, With, Distinct, Cyclic, DepMap, UniqueIds, KnownDeps;
      ghost var start := Now();
      PropagateDownstream(id, multiset{}, {});
      MovedFacts(start, Now());
      ghost var middle := Now();
      DrainPQ();
      MovedFacts(middle, Now());
    }

    method SaveCheckpoint(id: NodeId, resp: Response)
      modifies store
      ensures store != null ==> store.Entries(req.sessionId) == old(store.Entries(req.sessionId))[id := resp]
    {
      if store != null {
        store.Save(req.sessionId, id, resp);
      }
    }

    // Stop the run: count the running nodes, cancel the context and drain doneCh.
    method StopRun()
      requires |inFlight| + |doneCh| == |With(status, NodeRunning)| <= |nodes|
      requires forall n :: n in inFlight ==> n in nodeMap
      modifies `inFlight, `doneCh, `ownCancel
      ensures inFlight == map[] && doneCh == []
    {
      var running := CountRunning(status);
      ownCancel := true;
      DrainDoneCh(running);
    }

    // Leave the loop early: whatever is still running is drained.
    method EndWith(exit: Exit, ghost owed: multiset<NodeId>)
      requires Holds(owed, {}) && Mirrored()
      requires exit == Cancelled ==> parentDone
      requires exit == EarlyExit ==>
        cfg.earlyExit.Some? && exists n :: n in results && cfg.earlyExit.value(n, results[n])
      requires exit == Cancelled || exit == EarlyExit
      modifies `inFlight, `doneCh, `ownCancel
      ensures Ended(exit)
    {
      hide Inv, Once, RankedBy, With, FailStop, Recorded, Settled, Mirrors, Kept;
      EndCounts(W(), Now(), owed);
      EndRecorded(W(), Now(), owed);
      StopRun();
      assert Mirrored();
      assert status.Keys == nodeMap.Keys && ref.Keys == nodeMap.Keys;
      assert tainted ==> parentDone && !FailStop(cfg, nodeMap);
      assert !tainted ==> Recorded(ref, status, results);
    }

    // What settling the received node with the given verdict will do.
    lemma SettlesTo(c: Completion, verdict: Verdict, taint: bool)
      requires Receiving(c)
      requires verdict.Done? || verdict == Skipped
      requires !tainted && !taint ==> c.id in ref && ref[c.id] == verdict
      requires taint ==> parentDone && !FailStop(cfg, nodeMap)
      ensures var to := if verdict.Done? then NodeDone else NodeSkipped;
        && c.id in status && status[c.id] == NodeRunning
        && Inv(W(), Now().(status := status[c.id := to],
                           results := if verdict.Done? then results[c.id := verdict.resp] else results,
                           tainted := tainted || taint),
               multiset{} + multiset(Lookup(downstream, c.id)), {})
        && |With(status[c.id := to], NodeRunning)| == |With(status, NodeRunning)| - 1
        && Once(scheduled, handled + [c.id], status[c.id := to])
    {
      hide Inv, Once, RankedBy, With, Static, FailStop, Mirrors, QueuedIds, Lookup;
      var s, to := Before(c), if verdict.Done? then NodeDone else NodeSkipped;
      HeadRunning(W(), s);
      InvReceive(W(), s, verdict, taint);
      assert s.doneCh[1..] == doneCh && s.doneCh[0] == c;
      LeaveRunning(status, c.id, to);
      OnceHandled(scheduled, handled, status, c.id, to);
    }

    // Settle the received node with the given verdict.
    method SettleReceived(c: Completion, verdict: Verdict, ghost taint: bool)
      requires Receiving(c) && OneLess()
      requires verdict.Done? || verdict == Skipped
      requires !tainted && !taint ==> c.id in ref && ref[c.id] == verdict
      requires taint ==> parentDone && !FailStop(cfg, nodeMap)
      modifies `status, `results, `tainted, `handled
      ensures Holds(multiset{} + multiset(Lookup(downstream, c.id)), {}) && ActiveOk()
      ensures results == if verdict.Done? then old(results)[c.id := verdict.resp] else old(results)
    {
      hide Inv, Once, RankedBy, With, Static, FailStop, Mirrors, QueuedIds, Lookup;
      SettlesTo(c, verdict, taint);
      ghost var before := Now();
      handled := handled + [c.id];
      if verdict.Done? {
        status := status[c.id := NodeDone];
        results := results[c.id := verdict.resp];
      } else {
        status := status[c.id := NodeSkipped];
      }
      tainted := tainted || taint;
      assert Now() == before.(status := status, results := results, tainted := tainted);
    }

    // Record the response of a node, from its own run or from a recovery.
    method RecordDone(c: Completion, resp: Response, ghost taint: bool)
      requires Receiving(c) && OneLess()
      requires !tainted && !taint ==> c.id in ref && ref[c.id] == Done(resp)
      requires taint ==> parentDone && !FailStop(cfg, nodeMap)
      modifies `status, `results, `tainted, `handled, store
      ensures Holds(multiset{} + multiset(Lookup(downstream, c.id)), {}) && ActiveOk() && Mirrored()
      ensures c.id in results && results[c.id] == resp
    {
      hide Inv, Once, RankedBy, With, Static, FailStop, Mirrors, Inv;
      if store != null {
        MirrorsSave(nodeMap.Keys, store.Entries(req.sessionId), results, c.id, resp);
      }
      SettleReceived(c, Done(resp), taint);
      SaveCheckpoint(c.id, resp);
    }

    method HandleNodeSuccess(c: Completion) returns (exit: Option<Exit>)
      requires c.resp.Some? && Receiving(c) && OneLess()
      modifies this, pq, store
      ensures exit == if cfg.earlyExit.Some? && cfg.earlyExit.value(c.id, c.resp.value) then Some(EarlyExit)
                      else if old(parentDone) then Some(Cancelled) else None
      ensures exit.None? ==> Idle() && pending <= old(pending)
      ensures exit.Some? ==> Ended(exit.value)
    {
      hide Inv, Once, RankedBy, With, Static, FailStop, Mirrors, Ended;
      SuccessVerdict(W(), Before(c));
      RecordDone(c, c.resp.value, false);
      if cfg.earlyExit.Some? && cfg.earlyExit.value(c.id, c.resp.value) {
        assert c.id in results && cfg.earlyExit.value(c.id, results[c.id]);
        EndWith(EarlyExit, multiset{} + multiset(Lookup(downstream, c.id)));
        return Some(EarlyExit);
      }
      if parentDone {
        EndWith(Cancelled, multiset{} + multiset(Lookup(downstream, c.id)));
        return Some(Cancelled);
      }
      GoOn(c.id);
      return None;
    }

    // Without a cancellation the run ends exactly if the failure strategy says so.
    method HandleNodeError(c: Completion) returns (exit: Option<Exit>)
      requires c.resp.None? && Receiving(c) && OneLess()
      modifies this, pq, store
      ensures c.id in nodeMap && (exit.Some? ==> exit.value == Failed(c.id))
      ensures !old(parentDone) ==> (exit.Some? <==>
        OnFailure(cfg, nodeMap[c.id],
          NodeInput(nodeMap[c.id], req, UpstreamOf(nodeMap[c.id].deps, old(results)))) == Fails)
      ensures !Compensates(cfg) ==> (exit.Some? <==> cfg.errorStrategy == Abort || !nodeMap[c.id].optional)
      ensures exit.Some? && !Compensates(cfg) ==> status == old(status)[c.id := NodeFailed]
      ensures exit.Some? && Compensates(cfg) ==>
        RolledBack(cfg.compensate.value, nodes, nodeMap, old(status)[c.id := NodeFailed], results, parentDone, status)
      ensures exit.None? ==> Idle() && pending <= old(pending)
      ensures exit.Some? ==> Ended(exit.value)
    {
      hide Inv, Once, RankedBy, With, FailStop, Mirrors, Finished, Undone, Static, NodeInput, StartOutcome, OnFailure,
        RecoveryOutcome;
      HeadRunning(W(), Before(c));
      var node := nodeMap[c.id];
      ghost var input := NodeInput(node, req, UpstreamOf(node.deps, results));
      FailureVerdict(W(), Before(c), input);
      if Compensates(cfg) {
        exit := CompensateNode(c);
      } else if cfg.errorStrategy == Abort || !node.optional {
        AbortVerdict(cfg, node, input);
        FailRun(c);
        exit := Some(Failed(c.id));
      } else {
        SkipVerdict(cfg, node, input);
        AbsorbedHere(cfg, nodeMap, c.id);
        SettleReceived(c, Skipped, !tainted && StartOutcome(node, input).Some?);
        GoOn(c.id);
        exit := None;
      }
    }

    // Record the response of a recovery and go on.
    method Recover(c: Completion, resp: Response, ghost taint: bool)
      requires Receiving(c) && OneLess() && c.id in nodeMap && Absorbs(cfg, nodeMap[c.id])
      requires !tainted && !taint ==> c.id in ref && ref[c.id] == Done(resp)
      requires taint ==> parentDone
      modifies this, pq, store
      ensures Idle() && pending <= old(pending)
    {
      hide Inv, Once, RankedBy, With, FailStop, Mirrors, Static, Lookup, QueuedIds;
      AbsorbedHere(cfg, nodeMap, c.id);
      RecordDone(c, resp, taint);
      GoOn(c.id);
    }

    // Forward recovery if configured, else backward compensation.
    method CompensateNode(c: Completion) returns (exit: Option<Exit>)
      requires c.resp.None? && Receiving(c) && OneLess() && Compensates(cfg)
      modifies this, pq, store
      ensures c.id in nodeMap && (exit.Some? ==> exit.value == Failed(c.id))
      ensures !old(parentDone) ==> (exit.Some? <==>
        OnFailure(cfg, nodeMap[c.id],
          NodeInput(nodeMap[c.id], req, UpstreamOf(nodeMap[c.id].deps, old(results)))) == Fails)
      ensures exit.Some? ==>
        RolledBack(cfg.compensate.value, nodes, nodeMap, old(status)[c.id := NodeFailed], results, parentDone, status)
      ensures exit.None? ==> Idle() && pending <= old(pending)
      ensures exit.Some? ==> Ended(exit.value)
    {
      hide Inv, Once, RankedBy, With, FailStop, Mirrors, Ended, Static, NodeInput, UpstreamOf, StartOutcome, OnFailure,
           RecoveryOutcome, RolledBack, Lookup, QueuedIds, ActiveOk,
           Meaning.InputIs, Meaning.NoneSucceeds, Meaning.FirstAt;
      HeadRunning(W(), Before(c));
      var node := nodeMap[c.id];
      var input := BuildNodeInput(node, req, results);
      FailureVerdict(W(), Before(c), input);
      if cfg.compensate.value.strategy == ForwardRecovery && input.Some? {
        var recovered := ExecuteForwardRecovery(cfg.compensate.value, node, input.value, parentDone);
        if recovered.Some? {
          RecoveredVerdict(cfg, node, input.value, recovered.value);
          Recover(c, recovered.value, !tainted && StartOutcome(node, input).Some?);
          return None;
        }
      }
      if !parentDone {
        UnrecoveredVerdict(cfg, node, input);
      }
      FailAndRollBack(c);
      return Some(Failed(c.id));
    }

    method FailAndRollBack(c: Completion)
      requires Receiving(c) && Compensates(cfg)
      requires !tainted && !parentDone ==> c.id in ref && ref[c.id] == Fails
      modifies `status, `inFlight, `doneCh, `ownCancel, `handled
      ensures Ended(Failed(c.id))
      ensures
        RolledBack(cfg.compensate.value, nodes, nodeMap, old(status)[c.id := NodeFailed], results, parentDone, status)
    {
      hide Inv, Once, RankedBy, With, RolledBack, Finished, Ended, UniqueIds, KnownDeps, Cyclic, DepMap, Mirrors;
      FailRun(c);
      RollBack(c.id);
    }

    // What marking the received node failed will do.
    lemma FailsTo(c: Completion)
      requires Receiving(c)
      ensures c.id in nodeMap && c.id in status && status.Keys == nodeMap.Keys == ref.Keys
      ensures var failed := status[c.id := NodeFailed];
        && |inFlight| + |doneCh| == |With(failed, NodeRunning)| <= |nodes|
        && results.Keys == With(failed, NodeDone)
        && Once(scheduled, handled + [c.id], failed)
        && (!tainted ==> Recorded(ref, failed, results))
      ensures (tainted ==> parentDone && !FailStop(cfg, nodeMap)) && Kept(saved, nodeMap, results)
      ensures forall n :: n in inFlight ==> n in nodeMap
    {
      hide Inv, Once, RankedBy, With, FailStop, Mirrors, Recorded, Kept, Static, QueuedIds, StartOutcome, NodeInput;
      var s := Before(c);
      HeadRunning(W(), s);
      EndCounts(W(), s, multiset{});
      EndRecorded(W(), s, multiset{});
      HeadInFlight(W(), s);
      assert s.doneCh[1..] == doneCh;
      LeaveRunning(status, c.id, NodeFailed);
      FailedNotDone(status, c.id);
      if !tainted {
        RecordedFailed(ref, status, results, c.id);
      }
      OnceHandled(scheduled, handled, status, c.id, NodeFailed);
    }

    // Mark the node failed and drain the run.
    method FailRun(c: Completion)
      requires Receiving(c)
      requires !tainted && !parentDone ==> c.id in ref && ref[c.id] == Fails
      modifies `status, `inFlight, `doneCh, `ownCancel, `handled
      ensures Finished(Failed(c.id)) && status == old(status)[c.id := NodeFailed]
        && results.Keys == With(status, NodeDone)
    {
      hide Inv, Once, RankedBy, With, FailStop, Mirrors, Recorded, Kept, Settled, Static, QueuedIds, StartOutcome,
           NodeInput;
      FailsTo(c);
      handled := handled + [c.id];
      status := status[c.id := NodeFailed];
      StopRun();
    }

    // Backward compensation of the completed nodes; its error is dropped.
    method RollBack(id: NodeId)
      requires Finished(Failed(id)) && Static() && Compensates(cfg) && results.Keys == With(status, NodeDone)
      modifies `status
      ensures Ended(Failed(id))
      ensures RolledBack(cfg.compensate.value, nodes, nodeMap, old(status), results, parentDone, status)
    {
      hide Mirrors, Recorded, FailStop, DescendantsFirst, Eligible, VisitOk, StatusAfter, Cyclic, UniqueIds, KnownDeps,
           DepMap, Distinct, VisitIds, Kept, Settled;
      var ok, after, trace :=
        ExecuteBackwardCompensation(cfg.compensate.value, nodes, nodeMap, status, results, parentDone);
      RollbackStatuses(nodeMap, status, results, trace, after);
      if !tainted {
        RecordedRollback(ref, status, after, results);
      }
      OnceRolledBack(scheduled, handled, status, after);
      ghost var before := status;
      status := after;
      assert results.Keys == With(before, NodeDone)
        && RolledBack(cfg.compensate.value, nodes, nodeMap, before, results, parentDone, status);
    }

    // Wait at the select until a completion is queued or the cancellation is observed.
    method AwaitEvent() returns (ctxDone: bool)
      requires Idle() && pending > 0
      modifies `inFlight, `doneCh, `parentDone
      ensures Idle() && (ctxDone ==> parentDone) && (!ctxDone ==> doneCh != [])
    {
      hide Inv, Once, RankedBy, With, Mirrors, Static;
      var cancel: bool := *;
      if cancel {
        Cancel();
      }
      SomethingRuns(W(), Now(), cfg.maxConcurrency, activePQ, pq != null);
      var more: bool := *;
      // with the context done, the select need not wait for a completion
      while inFlight != map[] && (more || (doneCh == [] && !parentDone))
        invariant Idle()
        invariant |inFlight| + |doneCh| > 0
        decreases |inFlight|
      {
        GoroutineSends(multiset{});
        cancel := *;
        if cancel {
          Cancel();
        }
        more := *;
      }
      ctxDone := parentDone;
      if doneCh != [] && ctxDone {
        // both cases of the select are ready: either may be taken
        ctxDone := *;
      }
    }

    // The caller cancels the context.
    method Cancel()
      requires Idle()
      modifies `parentDone
      ensures Idle()
    {
      hide Inv, Once, RankedBy, With, Mirrors, Static;
      ghost var before := Now();
      InvCancel(W(), before, multiset{}, {});
      parentDone := true;
      assert Now() == before.(cancelled := true);
    }

    // Receive the head of doneCh; one node less is pending, and active in priority mode.
    method ReceiveHead() returns (c: Completion)
      requires Idle() && doneCh != []
      modifies `doneCh, `pending, `activePQ
      ensures Receiving(c) && OneLess() && pending == old(pending) - 1
    {
      hide Inv, Once, RankedBy, With, Mirrors, Static;
      c := doneCh[0];
      ghost var before := Now();
      assert [c] + doneCh[1..] == doneCh;
      doneCh := doneCh[1..];
      pending := pending - 1;
      assert Before(c) == before;
      HeadRunning(W(), before);
      if pq != null {
        SomeRunning(status, c.id);
        activePQ := activePQ - 1;
      }
    }

    // One iteration of the event loop.
    method HandleEvent() returns (exit: Option<Exit>)
      requires Idle() && pending > 0
      modifies this, pq, store
      ensures exit.None? ==> Idle() && 0 <= pending < old(pending)
      ensures exit.Some? ==> Ended(exit.value)
    {
      hide Inv, Once, RankedBy, With, Mirrors, Static, Ended;
      var ctxDone := AwaitEvent();
      if ctxDone {
        EndWith(Cancelled, multiset{});
        return Some(Cancelled);
      }
      var c := ReceiveHead();
      if c.resp.None? {
        exit := HandleNodeError(c);
      } else {
        exit := HandleNodeSuccess(c);
      }
      if exit.None? {
        PendingIsNat(W(), Now());
      }
    }

    // The initial scheduling of run().
    method Start()
      requires Holds(multiset{}, nodeMap.Keys) && Mirrored() && Static() && !ownCancel
      requires (forall n :: n in status ==> status[n] != NodeRunning) && activePQ == 0 && Queue() == []
      modifies this, pq
      ensures Idle() && pending <= old(pending)
    {
      hide Inv, Once, RankedBy, With, Mirrors, Moved, Static;
      ghost var start := Now();
      NobodyRuns(status);
      EnqueueRoots();
      MovedFacts(start, Now());
      ghost var middle := Now();
      DrainPQ();
      MovedFacts(middle, Now());
    }

    method EnqueueRoots()
      requires Static() && Holds(multiset{}, nodeMap.Keys) && Queue() == []
      modifies this, pq
      ensures Holds(multiset{}, {}) && Moved(old(Now()), Now())
      ensures pq != null ==> status == old(status)
      ensures activePQ == old(activePQ) && ownCancel == old(ownCancel)
    {
      hide Inv, Once, RankedBy, With, Moved, Static, IdsFrom;
      ghost var start := Now();
      assert start.status == old(status);
      MovedSame(start, start);
      ExemptAll(this);
      var i := 0;
      while i < |nodes|
        invariant i <= |nodes|
        invariant Holds(multiset{}, IdsFrom(nodes, i)) && Moved(start, Now())
        invariant pq != null ==> status == start.status && forall n :: n in Queue() ==> n !in IdsFrom(nodes, i)
        invariant activePQ == old(activePQ) && ownCancel == old(ownCancel)
      {
        ghost var before := Now();
        EnqueueRoot(i);
        MovedTransitive(start, before, Now());
        i := i + 1;
      }
      NoneExempt(nodes, i);
    }

    // One round of the initial loop: node i is enqueued if it is ready.
    method EnqueueRoot(i: nat)
      requires i < |nodes| && Static() && Holds(multiset{}, IdsFrom(nodes, i))
      requires pq != null ==> forall n :: n in Queue() ==> n !in IdsFrom(nodes, i)
      modifies this, pq
      ensures Holds(multiset{}, IdsFrom(nodes, i + 1)) && Moved(old(Now()), Now())
      ensures pq != null ==> status == old(status) && forall n :: n in Queue() ==> n !in IdsFrom(nodes, i + 1)
      ensures activePQ == old(activePQ) && ownCancel == old(ownCancel)
    {
      hide Inv, Once, RankedBy, With, Mirrors, Moved, Static, IdsFrom;
      ghost var before := Now();
      NextExempt(this, i);
      var id := nodes[i].id;
      InvKeys(W(), before, multiset{}, IdsFrom(nodes, i));
      if inDegree[id] == 0 && status[id] == NodePending {
        EnqueueReady(id, multiset{}, IdsFrom(nodes, i + 1));
      } else {
        InvUnexempt(W(), before, multiset{}, IdsFrom(nodes, i + 1), id);
        MovedSame(before, Now());
      }
    }

    method Run() returns (exit: Exit)
      requires Holds(multiset{}, nodeMap.Keys) && Mirrored() && Static() && !ownCancel
      requires (forall n :: n in status ==> status[n] != NodeRunning) && activePQ == 0 && Queue() == []
      modifies this, pq, store
      ensures Ended(exit)
      // each node is skipped or started at most once, and its completion handled at most once
      ensures Distinct(scheduled) && Distinct(handled) && |handled| <= |scheduled| <= |nodeMap|
      ensures forall n :: n in handled ==> n in scheduled
    {
      hide Inv, Once, RankedBy, With, Mirrors, Static, Ended;
      Start();
      PendingIsNat(W(), Now());
      while pending > 0
        invariant Idle() && pending >= 0
        decreases pending
      {
        var e := HandleEvent();
        if e.Some? {
          EndedOnce(e.value);
          return e.value;
        }
      }
      Finish();
      EndedOnce(Completed);
      return Completed;
    }

    // What holds of the store and the recorded results at every point of a run.
    ghost predicate Sound()
      reads this, store
    {
      && Mirrored() && Kept(saved, nodeMap, results)
      && (tainted ==> parentDone && !FailStop(cfg, nodeMap))
      && (!tainted ==> Recorded(ref, status, results))
    }

    // The first k events of a run, as if the process were killed then.
    method RunPrefix(k: nat)
      requires Holds(multiset{}, nodeMap.Keys) && Mirrored() && Static() && !ownCancel
      requires (forall n :: n in status ==> status[n] != NodeRunning) && activePQ == 0 && Queue() == []
      modifies this, pq, store
      ensures Sound()
    {
      hide Inv, Once, RankedBy, With, Mirrors, Static, Ended, Recorded;
      Start();
      var i := 0;
      while i < k && pending > 0
        invariant Idle()
      {
        var e := HandleEvent();
        if e.Some? {
          EndedSound(e.value);
          return;
        }
        i := i + 1;
      }
      IdleSound();
    }

    lemma EndedOnce(exit: Exit)
      requires Ended(exit)
      ensures Distinct(scheduled) && Distinct(handled) && |handled| <= |scheduled| <= |nodeMap|
      ensures forall n :: n in handled ==> n in scheduled
    {
      OnceBound(scheduled, handled, status);
      assert |status| == |status.Keys| && |nodeMap| == |nodeMap.Keys|;
    }

    lemma IdleSound()
      requires Idle()
      ensures Sound()
    {
      hide Mirrors, Inv, Recorded, FailStop;
      EndCounts(W(), Now(), multiset{});
      EndRecorded(W(), Now(), multiset{});
    }

    lemma EndedSound(exit: Exit)
      requires Ended(exit)
      ensures Sound()
    {
    }

    // Nothing is pending any more: every node is settled and the channels are empty.
    lemma Finish()
      requires Idle() && pending == 0
      ensures Ended(Completed)
    {
      hide Mirrors, FailStop, Recorded;
      EndCounts(W(), Now(), multiset{});
      EndRecorded(W(), Now(), multiset{});
      AllSettled(W(), Now());
      hide Inv, Once, RankedBy;
    }
  }

  lemma SomeRunning(st: Statuses, n: NodeId)
    requires n in st && st[n] == NodeRunning
    ensures |With(st, NodeRunning)| >= 1
  {
    assert n in With(st, NodeRunning);
  }

  lemma NobodyRuns(st: Statuses)
    requires forall n :: n in st ==> st[n] != NodeRunning
    ensures With(st, NodeRunning) == {}
  {
  }

  lemma PendingIsNat(w: World, s: State)
    requires Inv(w, s, multiset{}, {})
    ensures s.pending >= 0
  {
    InvMembers(w, s, multiset{}, {});
  }

  lemma AllSettled(w: World, s: State)
    requires Inv(w, s, multiset{}, {}) && s.pending == 0
    ensures Settled(s.status) == w.nm.Keys && s.results.Keys == With(s.status, NodeDone)
    ensures s.inFlight == map[] && s.doneCh == []
  {
    hide Inv, Settled, Unfinished, With;
    InvMembers(w, s, multiset{}, {});
    NothingUnfinished(s.status);
    FlightEmpty(s.inFlight);
  }

  lemma NothingUnfinished(st: Statuses)
    requires |Unfinished(st)| == 0
    requires forall n :: n in st ==> st[n] != NodeFailed && st[n] != NodeCompensated
    ensures With(st, NodeRunning) == {} && Settled(st) == st.Keys
  {
    assert Unfinished(st) == {};
    forall n | n in st
      ensures n in Settled(st) && n !in With(st, NodeRunning)
    {
      assert n !in Unfinished(st);
    }
  }

  // With work left, some goroutine is in flight or has sent its completion.
  lemma SomethingRuns(w: World, s: State, limit: int, active: int, priorityMode: bool)
    requires Inv(w, s, multiset{}, {}) && s.pending > 0
    requires priorityMode ==> active == |With(s.status, NodeRunning)|
    requires !priorityMode ==> s.queue == []
    requires s.queue != [] ==> limit > 0 && active >= limit
    ensures |s.inFlight| + |s.doneCh| > 0
  {
    hide Inv;
    InvMembers(w, s, multiset{}, {});
    Progress(w, s);
  }

  ghost function IdsFrom(nodes: seq<Node>, i: nat): set<NodeId> {
    set k | i <= k < |nodes| :: nodes[k].id
  }

  lemma NextExempt(de: DagExecutor, i: nat)
    requires de.Static() && i < |de.nodes|
    ensures IdsFrom(de.nodes, i) == IdsFrom(de.nodes, i + 1) + {de.nodes[i].id}
    ensures de.nodes[i].id !in IdsFrom(de.nodes, i + 1) && de.nodes[i].id in de.nodeMap
  {
    NextIds(de.nodes, i);
    hide IdsFrom, Cyclic, KnownDeps;
    DepMapFacts(de.nodes);
  }

  lemma NextIds(nodes: seq<Node>, i: nat)
    requires UniqueIds(nodes) && i < |nodes|
    ensures IdsFrom(nodes, i) == IdsFrom(nodes, i + 1) + {nodes[i].id}
    ensures nodes[i].id !in IdsFrom(nodes, i + 1)
  {
    forall n | n in IdsFrom(nodes, i + 1)
      ensures n in IdsFrom(nodes, i) && n != nodes[i].id
    {
      var k :| i + 1 <= k < |nodes| && nodes[k].id == n;
    }
    forall n | n in IdsFrom(nodes, i) && n != nodes[i].id
      ensures n in IdsFrom(nodes, i + 1)
    {
      var k :| i <= k < |nodes| && nodes[k].id == n;
    }
  }

  lemma ExemptAll(de: DagExecutor)
    requires de.Static()
    ensures IdsFrom(de.nodes, 0) == de.nodeMap.Keys
  {
    DepMapFacts(de.nodes);
    forall n | n in de.nodeMap
      ensures n in IdsFrom(de.nodes, 0)
    {
      assert HasId(de.nodes, n);
    }
  }

  lemma NoneExempt(nodes: seq<Node>, i: nat)
    requires i == |nodes|
    ensures IdsFrom(nodes, i) == {}
  {
  }

  lemma InvUnexempt(w: World, s: State, owed: multiset<NodeId>, exempt: set<NodeId>, id: NodeId)
    requires Inv(w, s, owed, exempt + {id})
      && !(id in s.status && id in s.inDegree && s.inDegree[id] == 0 && s.status[id] == NodePending)
    ensures Inv(w, s, owed, exempt)
  {
    hide Counted, Flying, ValidWorld, Agrees, FlightAgrees, FailStop;
  }

  // A failed completion is the node's own failure, or an error after a cancellation.
  lemma FailureVerdict(w: World, s: State, input: Option<Request>)
    requires Inv(w, s, multiset{}, {}) && s.doneCh != [] && s.doneCh[0].resp.None?
    requires s.doneCh[0].id in w.nm ==>
      input == NodeInput(w.nm[s.doneCh[0].id], w.req, UpstreamOf(w.nm[s.doneCh[0].id].deps, s.results))
    ensures s.doneCh[0].id in w.nm
    ensures !s.tainted && StartOutcome(w.nm[s.doneCh[0].id], input).None? ==>
      s.doneCh[0].id in w.ref && w.ref[s.doneCh[0].id] == OnFailure(w.cfg, w.nm[s.doneCh[0].id], input)
    ensures !s.tainted && StartOutcome(w.nm[s.doneCh[0].id], input).Some? ==> s.cancelled
  {
    HeadVerdict(w, s);
    hide Inv, OnFailure, RefInput, StartOutcome, NodeInput;
  }

  lemma RecoveredVerdict(cfg: Config, node: Node, input: Request, resp: Response)
    requires Compensates(cfg) && cfg.compensate.value.strategy == ForwardRecovery
    requires RecoveryOutcome(cfg.compensate.value, node, input) == Some(resp)
    ensures OnFailure(cfg, node, Some(input)) == Done(resp)
  {
  }

  lemma UnrecoveredVerdict(cfg: Config, node: Node, input: Option<Request>)
    requires Compensates(cfg)
    requires !(cfg.compensate.value.strategy == ForwardRecovery && input.Some?
               && RecoveryOutcome(cfg.compensate.value, node, input.value).Some?)
    ensures OnFailure(cfg, node, input) == Fails
  {
  }

  lemma AbortVerdict(cfg: Config, node: Node, input: Option<Request>)
    requires !Compensates(cfg) && (cfg.errorStrategy == Abort || !node.optional)
    ensures OnFailure(cfg, node, input) == Fails
  {
  }

  lemma SkipVerdict(cfg: Config, node: Node, input: Option<Request>)
    requires !Compensates(cfg) && cfg.errorStrategy != Abort && node.optional
    ensures OnFailure(cfg, node, input) == Skipped
  {
  }

  lemma AbsorbedHere(cfg: Config, nm: NodeMap, id: NodeId)
    requires id in nm && Absorbs(cfg, nm[id])
    ensures !FailStop(cfg, nm)
  {
  }

  lemma RecordedFailed(ref: Verdicts, status: Statuses, results: map<NodeId, Response>, id: NodeId)
    requires Recorded(ref, status, results)
    ensures Recorded(ref, status[id := NodeFailed], results)
  {
  }

  lemma RecordedRollback(ref: Verdicts, before: Statuses, after: Statuses, results: map<NodeId, Response>)
    requires Recorded(ref, before, results) && before.Keys == after.Keys
    requires forall n :: n in before ==> after[n] == before[n] || after[n] == NodeCompensated
    ensures Recorded(ref, after, results)
  {
  }

  lemma FailedNotDone(st: Statuses, n: NodeId)
    requires n in st && st[n] == NodeRunning
    ensures With(st[n := NodeFailed], NodeDone) == With(st, NodeDone)
  {
  }

  lemma LeaveRunning(st: Statuses, n: NodeId, to: NodeStatus)
    requires n in st && st[n] == NodeRunning && (to == NodeDone || to == NodeSkipped || to == NodeFailed)
    ensures |With(st[n := to], NodeRunning)| == |With(st, NodeRunning)| - 1
  {
    assert n in With(st, NodeRunning);
    assert With(st[n := to], NodeRunning) == With(st, NodeRunning) - {n};
  }

  // A response on doneCh is the reference's response.
  lemma SuccessVerdict(w: World, s: State)
    requires Inv(w, s, multiset{}, {}) && s.doneCh != [] && s.doneCh[0].resp.Some?
    ensures s.doneCh[0].id in s.status && s.status[s.doneCh[0].id] == NodeRunning
    ensures !s.tainted ==> s.doneCh[0].id in w.ref && w.ref[s.doneCh[0].id] == Done(s.doneCh[0].resp.value)
  {
    HeadVerdict(w, s);
    hide Inv, OnFailure, RefInput, StartOutcome;
  }

  lemma HeadInFlight(w: World, s: State)
    requires Inv(w, s, multiset{}, {}) && s.doneCh != []
    ensures |s.inFlight| + |s.doneCh[1..]| == |With(s.status, NodeRunning)| - 1
  {
    InvMembers(w, s, multiset{}, {});
  }

  // What an exit path may rely on.
  lemma EndCounts(w: World, s: State, owed: multiset<NodeId>)
    requires Inv(w, s, owed, {})
    ensures |s.inFlight| + |s.doneCh| == |With(s.status, NodeRunning)| <= |w.nm|
    ensures s.status.Keys == w.nm.Keys == w.ref.Keys
    ensures forall n :: n in s.inFlight ==> n in w.nm
    ensures s.tainted ==> s.cancelled && !FailStop(w.cfg, w.nm)
    ensures Kept(w.saved, w.nm, s.results) && s.results.Keys == With(s.status, NodeDone)
  {
    InvMembers(w, s, owed, {});
    assert forall n :: n in With(s.status, NodeDone) <==> n in s.results;
    hide Transposed, Closed, Cyclic, LocalVerdict, FlightAgrees, Agrees, Degrees, FailStop, DepsSettled, Ready;
    forall n | n in s.inFlight
      ensures n in w.nm
    {
      assert n in With(s.status, NodeRunning);
    }
  }

  lemma EndRecorded(w: World, s: State, owed: multiset<NodeId>)
    requires Inv(w, s, owed, {})
    ensures !s.tainted ==> Recorded(w.ref, s.status, s.results)
  {
    InvMembers(w, s, owed, {});
    EndCounts(w, s, owed);
    hide Counted, Flying, Ready, ValidWorld, FlightAgrees, Agrees, Recorded, FailStop;
    if !s.tainted {
      AgreesRecorded(w, s.status, s.results);
    }
  }

  lemma AgreesRecorded(w: World, st: Statuses, results: Results)
    requires Agrees(w, st, results) && st.Keys == w.ref.Keys && results.Keys == With(st, NodeDone)
    ensures Recorded(w.ref, st, results)
  {
    forall n | n in results
      ensures n in w.ref && w.ref[n] == Done(results[n])
    {
      assert n in With(st, NodeDone);
    }
    forall n | n in st && st[n] == NodeDone
      ensures n in results
    {
      assert n in With(st, NodeDone);
    }
  }

  // No result loaded from the checkpoints is lost.
  ghost predicate Kept(saved: map<NodeId, Response>, nm: NodeMap, results: map<NodeId, Response>) {
    forall n :: n in saved && n in nm ==> n in results
  }

  // The saved results of the given nodes are the recorded ones.
  ghost predicate Mirrors(ids: set<NodeId>, entries: map<NodeId, Response>, results: map<NodeId, Response>) {
    forall n :: n in ids ==> (n in entries <==> n in results) && (n in results ==> entries[n] == results[n])
  }

  lemma MirrorsSave(ids: set<NodeId>, entries: map<NodeId, Response>, results: map<NodeId, Response>, n: NodeId,
                    resp: Response)
    requires Mirrors(ids, entries, results)
    ensures Mirrors(ids, entries[n := resp], results[n := resp])
  {
  }

  // The recorded results and skips are the reference's.
  ghost predicate Recorded(ref: Verdicts, status: Statuses, results: map<NodeId, Response>) {
    && (forall n :: n in results ==> n in ref && ref[n] == Done(results[n]))
    && (forall n :: n in status && status[n] == NodeDone ==> n in results)
    && (forall n :: n in status && n in ref && status[n] == NodeSkipped ==> ref[n] == Skipped)
  }

  lemma RunningStep(st: Statuses, n: NodeId, to: NodeStatus)
    requires n in st && st[n] == NodePending && (to == NodeRunning || to == NodeSkipped)
    ensures |With(st[n := to], NodeRunning)| == |With(st, NodeRunning)| + if to == NodeRunning then 1 else 0
  {
    if to == NodeRunning {
      StartSets(st, n);
      assert n !in With(st, NodeRunning);
    } else {
      assert n in Unfinished(st);
      MarkWith(st, n, to);
      assert With(st, NodeRunning) - {n} == With(st, NodeRunning);
    }
  }

  lemma FlightMember(inFlight: map<NodeId, Request>)
    requires inFlight != map[]
    ensures exists id :: id in inFlight
  {
  }

  lemma FlightRemove(inFlight: map<NodeId, Request>, id: NodeId)
    requires id in inFlight
    ensures |inFlight - {id}| == |inFlight| - 1
  {
    assert (inFlight - {id}).Keys == inFlight.Keys - {id};
    assert |inFlight| == |inFlight.Keys| && |inFlight - {id}| == |(inFlight - {id}).Keys|;
  }

  lemma FlightEmpty(inFlight: map<NodeId, Request>)
    requires |inFlight| == 0
    ensures inFlight == map[]
  {
  }

  lemma InvInFlight(w: World, s: State, owed: multiset<NodeId>, exempt: set<NodeId>, id: NodeId)
    requires Inv(w, s, owed, exempt) && id in s.inFlight
    ensures id in w.nm && |s.doneCh| < |w.nm|
  {
    InvMembers(w, s, owed, exempt);
    FlightRemove(s.inFlight, id);
    assert id in With(s.status, NodeRunning);
  }

  lemma DependentsKnown(de: DagExecutor, owed: multiset<NodeId>, exempt: set<NodeId>, id: NodeId)
    requires de.Holds(owed, exempt)
    ensures forall x :: x in Lookup(de.downstream, id) ==> x in de.nodeMap
  {
    DownstreamMember(DepsOf(de.nodeMap), de.downstream, id);
  }

  lemma NowStatus(de: DagExecutor)
    ensures de.Now().status == de.status
  {
  }

  lemma Shrinks(de: DagExecutor, start: State)
    requires Moved(start, de.Now())
    ensures With(de.status, NodePending) <= With(start.status, NodePending)
  {
  }

  lemma InvKeys(w: World, s: State, owed: multiset<NodeId>, exempt: set<NodeId>)
    requires Inv(w, s, owed, exempt)
    ensures s.inDegree.Keys == s.status.Keys == w.nm.Keys
  {
    InvMembers(w, s, owed, exempt);
  }

  lemma QueueDistinct(w: World, s: State, owed: multiset<NodeId>, exempt: set<NodeId>)
    requires Inv(w, s, owed, exempt)
    ensures Distinct(s.queue)
  {
  }

  // A pending node leaves room on doneCh: at most the other nodes are running.
  lemma RoomForOne(w: World, s: State, owed: multiset<NodeId>, exempt: set<NodeId>, n: NodeId)
    requires Inv(w, s, owed, exempt) && n in s.status && s.status[n] == NodePending
    ensures |s.inFlight| + |s.doneCh| < |w.nm|
  {
    hide Inv;
    InvMembers(w, s, owed, exempt);
    var others := With(s.status, NodeRunning);
    assert n !in others && others + {n} <= w.nm.Keys;
    assert |others + {n}| == |others| + 1;
    SubsetSize(others + {n}, w.nm.Keys);
    assert |w.nm.Keys| == |w.nm|;
  }
}
