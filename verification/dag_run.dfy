// ExecuteDAG (orchestrate/dag.go): set-up from nodes and checkpoints, the run, and
// the final aggregation; and what a crash in the middle of a run leaves behind.
module DagRun {
  import opened Types
  import opened Graph
  import opened Topo
  import opened Validate
  import CriticalPath
  import opened Semantics
  import opened EngineState
  import PriorityQueues
  import Checkpoints
  import Aggregators
  import Meaning
  import opened Executor
  import opened Compensation

  // ----- node tables -----

  ghost function NodesById(nodes: seq<Node>): NodeMap {
    if nodes == [] then map[]
    else
      var last := |nodes| - 1;
      NodesById(nodes[..last])[nodes[last].id := nodes[last]]
  }

  lemma {:induction false} NodesByIdFacts(nodes: seq<Node>)
    requires UniqueIds(nodes)
    ensures DepsOf(NodesById(nodes)) == DepMap(nodes)
    ensures |NodesById(nodes)| == |nodes|
    ensures forall n :: n in NodesById(nodes) ==> NodesById(nodes)[n].id == n
    ensures forall i :: 0 <= i < |nodes| ==> nodes[i].id in NodesById(nodes)
  {
    if nodes != [] {
      hide UniqueIds, HasId;
      var last := |nodes| - 1;
      UniquePrefix(nodes, last);
      NodesByIdFacts(nodes[..last]);
      NewId(nodes, last);
      assert nodes[..last + 1] == nodes;
      assert nodes[last].id !in DepsOf(NodesById(nodes[..last]));
      assert forall i :: 0 <= i < last ==> nodes[..last][i] == nodes[i];
      AddedSize(NodesById(nodes[..last]), nodes[last]);
    }
  }

  lemma AddedSize(nm: NodeMap, n: Node)
    requires n.id !in nm
    ensures |nm[n.id := n]| == |nm| + 1 && DepsOf(nm[n.id := n]) == DepsOf(nm)[n.id := n.deps]
  {
    assert nm[n.id := n].Keys == nm.Keys + {n.id};
    assert |nm.Keys| == |nm| && |nm[n.id := n].Keys| == |nm[n.id := n]|;
  }

  method BuildNodeMap(nodes: seq<Node>) returns (nodeMap: NodeMap)
    ensures nodeMap == NodesById(nodes)
  {
    nodeMap := map[];
    var i := 0;
    while i < |nodes|
      invariant i <= |nodes|
      invariant nodeMap == NodesById(nodes[..i])
    {
      assert nodes[..i + 1][..i] == nodes[..i];
      nodeMap := nodeMap[nodes[i].id := nodes[i]];
      i := i + 1;
    }
    assert nodes[..i] == nodes;
  }

  // ----- critical-path priorities -----

  ghost predicate SamePlan(a: seq<Node>, b: seq<Node>) {
    |a| == |b| && forall i :: 0 <= i < |a| ==> b[i] == a[i].(priority := b[i].priority)
  }

  lemma {:induction false} SamePlanFacts(a: seq<Node>, b: seq<Node>)
    requires SamePlan(a, b)
    ensures DepMap(a) == DepMap(b) && SameButPriority(NodesById(a), NodesById(b))
    ensures UniqueIds(a) ==> UniqueIds(b)
  {
    if a != [] {
      var last := |a| - 1;
      SamePlanFacts(a[..last], b[..last]);
    }
  }

  // Nodes without a priority of their own get the length of the longest path through them.
  ghost predicate CriticallyPlanned(nodes: seq<Node>, planned: seq<Node>) {
    && |nodes| == |planned|
    && forall i :: 0 <= i < |nodes| ==>
      if nodes[i].priority == 0 then CriticalPath.LongestThrough(DepMap(nodes), nodes[i].id, planned[i].priority)
      else planned[i].priority == nodes[i].priority
  }

  method ApplyCriticalPath(nodes: seq<Node>) returns (planned: seq<Node>)
    requires UniqueIds(nodes) && KnownDeps(nodes) && !Cyclic(DepMap(nodes))
    ensures SamePlan(nodes, planned) && CriticallyPlanned(nodes, planned)
  {
    hide CriticalPath.LongestThrough, Cyclic, KnownDeps, UniqueIds, HasId, DepMap;
    var cpPriorities, _, _ := CriticalPath.ComputeCriticalPath(nodes);
    DepMapFacts(nodes);
    planned := [];
    var i := 0;
    while i < |nodes|
      invariant i <= |nodes| && |planned| == i
      invariant forall k :: 0 <= k < i ==> planned[k] == nodes[k].(priority :=
        if nodes[k].priority == 0 then cpPriorities[nodes[k].id] else nodes[k].priority)
    {
      var n := nodes[i];
      if n.priority == 0 {
        n := n.(priority := cpPriorities[n.id]);
      }
      planned := planned + [n];
      i := i + 1;
    }
  }

  // ----- resuming from checkpoints -----

  ghost function Restrict(saved: map<NodeId, Response>, nm: NodeMap): map<NodeId, Response> {
    map n | n in saved && n in nm :: saved[n]
  }

  ghost predicate Loaded(nm: NodeMap, saved: map<NodeId, Response>, status: Statuses) {
    status.Keys == nm.Keys && forall n :: n in nm ==> status[n] == if n in saved then NodeDone else NodePending
  }

  method LoadCheckpoints(nodeMap: NodeMap, checkpointData: map<NodeId, Response>)
    returns (status: Statuses, results: map<NodeId, Response>)
    ensures Loaded(nodeMap, checkpointData, status) && results == Restrict(checkpointData, nodeMap)
  {
    status := map n | n in nodeMap :: NodePending;
    results := map[];
    var left := checkpointData.Keys;
    while left != {}
      invariant left <= checkpointData.Keys
      invariant Loaded(nodeMap, checkpointData - left, status)
      invariant results == Restrict(checkpointData - left, nodeMap)
      decreases left
    {
      var id :| id in left;
      var rest := left - {id};
      assert forall n :: n in checkpointData - rest <==> n in checkpointData - left || n == id;
      if id in nodeMap {
        results := results[id := checkpointData[id]];
        status := status[id := NodeDone];
      }
      left := rest;
      assert results == Restrict(checkpointData - left, nodeMap);
    }
    assert checkpointData - left == checkpointData;
  }

  // The IDs of the first i nodes that have status st.
  ghost function Listed(nodes: seq<Node>, i: nat, status: Statuses, st: NodeStatus): set<NodeId> {
    set k | 0 <= k < i && k < |nodes| && nodes[k].id in status && status[nodes[k].id] == st :: nodes[k].id
  }

  lemma ListedNext(nodes: seq<Node>, i: nat, status: Statuses, st: NodeStatus)
    requires UniqueIds(nodes) && i < |nodes| && nodes[i].id in status
    ensures nodes[i].id !in Listed(nodes, i, status, st)
    ensures Listed(nodes, i + 1, status, st) ==
      if status[nodes[i].id] == st then Listed(nodes, i, status, st) + {nodes[i].id} else Listed(nodes, i, status, st)
  {
  }

  lemma ListedMember(nodes: seq<Node>, status: Statuses, st: NodeStatus, n: NodeId)
    requires n in status ==> exists i :: 0 <= i < |nodes| && nodes[i].id == n
    ensures n in Listed(nodes, |nodes|, status, st) <==> n in With(status, st)
  {
  }

  lemma ListedNone(nodes: seq<Node>, status: Statuses, st: NodeStatus)
    ensures Listed(nodes, 0, status, st) == {}
  {
  }

  lemma HasIdAt(nodes: seq<Node>, n: NodeId)
    requires HasId(nodes, n)
    ensures exists i :: 0 <= i < |nodes| && nodes[i].id == n
  {
  }

  lemma ListedEnds(nodes: seq<Node>, status: Statuses, st: NodeStatus)
    requires UniqueIds(nodes) && status.Keys == DepMap(nodes).Keys
    ensures Listed(nodes, 0, status, st) == {}
    ensures Listed(nodes, |nodes|, status, st) == With(status, st)
    ensures forall i :: 0 <= i < |nodes| ==> nodes[i].id in status
  {
    DepMapFacts(nodes);
    hide UniqueIds, DepMap, HasId, With, Listed;
    forall n
      ensures n in Listed(nodes, |nodes|, status, st) <==> n in With(status, st)
    {
      if n in status {
        HasIdAt(nodes, n);
      }
      ListedMember(nodes, status, st, n);
    }
    ListedNone(nodes, status, st);
  }

  method CountPending(nodes: seq<Node>, status: Statuses) returns (pending: nat)
    requires UniqueIds(nodes) && status.Keys == DepMap(nodes).Keys
    ensures pending == |With(status, NodePending)|
  {
    hide *;
    ListedEnds(nodes, status, NodePending);
    pending := 0;
    var i := 0;
    while i < |nodes|
      invariant i <= |nodes|
      invariant pending == |Listed(nodes, i, status, NodePending)|
    {
      ListedNext(nodes, i, status, NodePending);
      if status[nodes[i].id] == NodePending {
        pending := pending + 1;
      }
      i := i + 1;
    }
  }

  // Decrement the in-degrees of the dependents of checkpointed nodes.
  method SettleSaved(nodes: seq<Node>, status: Statuses, downstream: map<NodeId, seq<NodeId>>,
                     inDegree0: map<NodeId, int>)
    returns (inDegree: map<NodeId, int>)
    requires UniqueIds(nodes) && status.Keys == DepMap(nodes).Keys
    requires Transposed(DepMap(nodes), downstream) && Sized(DepMap(nodes), inDegree0)
    ensures Degrees(DepMap(nodes), With(status, NodeDone), inDegree, multiset{})
  {
    hide *;
    ghost var g := DepMap(nodes);
    DegreesInit(g, inDegree0);
    ListedEnds(nodes, status, NodeDone);
    inDegree := inDegree0;
    var i := 0;
    while i < |nodes|
      invariant i <= |nodes|
      invariant Degrees(g, Listed(nodes, i, status, NodeDone), inDegree, multiset{})
    {
      var id := nodes[i].id;
      ListedNext(nodes, i, status, NodeDone);
      if status[id] == NodeDone {
        DegreesSettle(g, Listed(nodes, i, status, NodeDone), inDegree, multiset{}, id, downstream);
        DownstreamMember(g, downstream, id);
        inDegree := DecrementAll(g, Listed(nodes, i + 1, status, NodeDone), inDegree, Lookup(downstream, id));
      }
      i := i + 1;
    }
  }

  method DecrementAll(ghost g: Deps, ghost settled: set<NodeId>, inDegree0: map<NodeId, int>, ds: seq<NodeId>)
    returns (inDegree: map<NodeId, int>)
    requires Degrees(g, settled, inDegree0, multiset{} + multiset(ds)) && forall x :: x in ds ==> x in g
    ensures Degrees(g, settled, inDegree, multiset{})
  {
    inDegree := inDegree0;
    var j := 0;
    assert ds[j..] == ds;
    while j < |ds|
      invariant j <= |ds|
      invariant Degrees(g, settled, inDegree, multiset{} + multiset(ds[j..]))
    {
      DegreesDecrement(g, settled, inDegree, multiset{}, ds, j);
      inDegree := inDegree[ds[j] := inDegree[ds[j]] - 1];
      j := j + 1;
    }
    assert ds[j..] == [];
  }

  lemma LoadedSets(nm: NodeMap, saved: map<NodeId, Response>, st: Statuses)
    requires Loaded(nm, saved, st)
    ensures Settled(st) == With(st, NodeDone) == Restrict(saved, nm).Keys
    ensures Unfinished(st) == With(st, NodePending) && With(st, NodeRunning) == {}
    ensures st.Keys == Settled(st) + Unfinished(st)
  {
  }

  lemma InitialCounted(w: World, s: State, saved: map<NodeId, Response>)
    requires Loaded(w.nm, saved, s.status) && s.results == Restrict(saved, w.nm)
    requires Degrees(DepsOf(w.nm), With(s.status, NodeDone), s.inDegree, multiset{})
    requires s.pending == |With(s.status, NodePending)|
    ensures Counted(w, s.status, s.results, s.inDegree, s.pending, multiset{})
  {
    hide Degrees, With, Settled, Unfinished, Restrict;
    LoadedSets(w.nm, saved, s.status);
  }

  lemma InitialFlying(w: World, st: Statuses, saved: map<NodeId, Response>)
    requires Loaded(w.nm, saved, st) && w.saved == Restrict(saved, w.nm)
    ensures Flying(w, st, map[], [])
  {
    LoadedSets(w.nm, saved, st);
  }

  lemma InitialAgrees(w: World, st: Statuses, saved: map<NodeId, Response>)
    requires ValidWorld(w) && Loaded(w.nm, saved, st) && w.saved == Restrict(saved, w.nm)
    ensures Agrees(w, st, w.saved)
  {
    hide LocalVerdict, Transposed, Closed, Cyclic;
  }

  lemma NothingFlies(w: World, cancelled: bool)
    ensures FlightAgrees(w, map[], [], cancelled)
  {
  }

  lemma InitialReady(st: Statuses, inDegree: map<NodeId, int>)
    ensures Ready(st, inDegree, [], st.Keys)
  {
  }

  lemma InitialInv(w: World, s: State, saved: map<NodeId, Response>)
    requires ValidWorld(w) && Loaded(w.nm, saved, s.status) && s.results == w.saved == Restrict(saved, w.nm)
    requires Degrees(DepsOf(w.nm), With(s.status, NodeDone), s.inDegree, multiset{})
    requires s.pending == |With(s.status, NodePending)|
    requires s.inFlight == map[] && s.doneCh == [] && s.queue == [] && !s.cancelled && !s.tainted
    ensures Inv(w, s, multiset{}, w.nm.Keys)
  {
    hide ValidWorld, Degrees, Counted, Flying, Agrees, FlightAgrees, Ready, Restrict, With, FailStop, DepsOf;
    InitialAgrees(w, s.status, saved);
    InitialCounted(w, s, saved);
    InitialFlying(w, s.status, saved);
    InitialReady(s.status, s.inDegree);
    NothingFlies(w, s.cancelled);
  }

  ghost predicate ListedIn(order: seq<NodeId>, nodes: seq<Node>) {
    forall n :: n in order ==> n in NodesById(nodes)
  }

  ghost function Entries(store: Checkpoints.InMemoryCheckpointStore?, session: string): map<NodeId, Response>
    reads store
  {
    if store == null then map[] else store.Entries(session)
  }

  lemma NoEntries(session: string)
    ensures Entries(null, session) == map[]
  {
  }

  lemma EntriesOf(store: Checkpoints.InMemoryCheckpointStore, session: string)
    ensures Entries(store, session) == store.Entries(session)
  {
  }

  // A validated plan: the node list with its priorities, and the reference verdicts.
  method NewDagExecutor(cfg: Config, nodes: seq<Node>, req: Request, store: Checkpoints.InMemoryCheckpointStore?,
                        ghost order: seq<NodeId>)
    returns (de: DagExecutor)
    requires ValidDag(nodes) && TopoOrder(DepMap(nodes), order)
    ensures fresh(de) && (de.pq != null ==> fresh(de.pq)) && de.store == store && de.req == req && de.cfg == cfg
    ensures de.Holds(multiset{}, de.nodeMap.Keys) && de.Mirrored() && de.Static() && !de.ownCancel
    ensures (forall n :: n in de.status ==> de.status[n] != NodeRunning) && de.activePQ == 0 && de.Queue() == []
    ensures (de.pq != null <==> cfg.priorityScheduling)
      && (!(cfg.priorityScheduling && cfg.criticalPathAuto) ==> de.nodes == nodes)
    ensures cfg.priorityScheduling && cfg.criticalPathAuto ==> CriticallyPlanned(nodes, de.nodes)
    ensures SamePlan(nodes, de.nodes) && de.nodeMap == NodesById(de.nodes) && Transposed(DepMap(nodes), de.downstream)
    ensures DepsOf(NodesById(nodes)) == DepMap(nodes) && ListedIn(order, nodes)
    ensures de.ref == Sequential(cfg, NodesById(nodes), req, Entries(store, req.sessionId), order)
    ensures de.saved == Restrict(Entries(store, req.sessionId), de.nodeMap)
  {
    hide *;
    ValidParts(nodes);
    NodesByIdFacts(nodes);
    OrderListsNodes(nodes, order);
    var plan := nodes;
    if cfg.priorityScheduling && cfg.criticalPathAuto {
      plan := ApplyCriticalPath(nodes);
    } else {
      SamePlanItself(nodes);
    }
    SamePlanFacts(nodes, plan);
    NodesByIdFacts(plan);
    var nodeMap := BuildNodeMap(plan);
    var downstream, degrees := BuildDagMaps(plan);
    var checkpointData: map<NodeId, Response> := map[];
    if store != null {
      checkpointData := store.LoadAll(req.sessionId);
      EntriesOf(store, req.sessionId);
    } else {
      NoEntries(req.sessionId);
    }
    var status, results := LoadCheckpoints(nodeMap, checkpointData);
    LoadedKeys(nodeMap, checkpointData, status, plan);
    var pending := CountPending(plan, status);
    var inDegree := SettleSaved(plan, status, downstream, degrees);
    var pq: PriorityQueues.PriorityQueue? := null;
    if cfg.priorityScheduling {
      pq := new PriorityQueues.PriorityQueue();
    }
    ghost var ref := Sequential(cfg, NodesById(nodes), req, checkpointData, order);
    de := new DagExecutor(cfg, plan, nodeMap, req, downstream, pq, store, status, results, inDegree, pending, ref);
    ReadyToStart(de, nodes, checkpointData, order);
  }

  lemma ValidParts(nodes: seq<Node>)
    requires ValidDag(nodes)
    ensures UniqueIds(nodes) && KnownDeps(nodes) && !Cyclic(DepMap(nodes)) && Closed(DepMap(nodes))
  {
    KnownDepsClosed(nodes);
  }

  lemma SamePlanItself(nodes: seq<Node>)
    ensures SamePlan(nodes, nodes)
  {
  }

  lemma OrderListsNodes(nodes: seq<Node>, order: seq<NodeId>)
    requires UniqueIds(nodes) && TopoOrder(DepMap(nodes), order)
    ensures ListedIn(order, nodes)
    ensures forall n :: n in order ==> n in NodesById(nodes)
  {
    NodesByIdFacts(nodes);
    assert DepsOf(NodesById(nodes)).Keys == NodesById(nodes).Keys;
  }

  lemma LoadedKeys(nm: NodeMap, saved: map<NodeId, Response>, status: Statuses, plan: seq<Node>)
    requires Loaded(nm, saved, status) && DepsOf(nm) == DepMap(plan)
    ensures status.Keys == nm.Keys == DepMap(plan).Keys
  {
    assert DepsOf(nm).Keys == nm.Keys;
  }

  lemma ReadyToStart(de: DagExecutor, nodes: seq<Node>, saved: map<NodeId, Response>, order: seq<NodeId>)
    requires ValidDag(nodes) && TopoOrder(DepMap(nodes), order) && SamePlan(nodes, de.nodes)
    requires de.nodeMap == NodesById(de.nodes) && Transposed(DepMap(de.nodes), de.downstream)
    requires (forall n :: n in order ==> n in NodesById(nodes))
      && de.ref == Sequential(de.cfg, NodesById(nodes), de.req, saved, order)
    requires Loaded(de.nodeMap, saved, de.status) && de.results == de.saved == Restrict(saved, de.nodeMap)
    requires Degrees(DepMap(de.nodes), With(de.status, NodeDone), de.inDegree, multiset{})
    requires de.pending == |With(de.status, NodePending)|
    requires de.inFlight == map[] && de.doneCh == [] && !de.parentDone && !de.tainted && !de.ownCancel
    requires de.scheduled == [] && de.handled == []
    requires de.pq != null ==> de.pq.Valid() && de.pq.view == []
    requires saved == Entries(de.store, de.req.sessionId)
    ensures de.Holds(multiset{}, de.nodeMap.Keys) && de.Mirrored() && de.Static()
    ensures (forall n :: n in de.status ==> de.status[n] != NodeRunning) && de.Queue() == []
    ensures Transposed(DepMap(nodes), de.downstream) && DepsOf(NodesById(nodes)) == DepMap(nodes)
  {
    hide Sequential, TopoOrder, Cyclic, Transposed, Degrees, With, Inv, Once, RankedBy, Closed, Distinct, Solves,
         DepMap, NodesById, Restrict, SamePlan, UniqueIds, KnownDeps, ValidDag, SameButPriority;
    ValidParts(nodes);
    SamePlanFacts(nodes, de.nodes);
    SamePlanKnown(nodes, de.nodes);
    NodesByIdFacts(nodes);
    NodesByIdFacts(de.nodes);
    PlanSolves(de, nodes, saved, order);
    InitialInv(de.W(), de.Now(), saved);
    OnceAtStart(de.nodeMap, saved, de.status);
    RankedNone(de.nodeMap);
    RestrictMirrors(de.nodeMap, saved);
    LoadedKeys(de.nodeMap, saved, de.status, de.nodes);
  }

  lemma OnceAtStart(nm: NodeMap, saved: map<NodeId, Response>, status: Statuses)
    requires Loaded(nm, saved, status)
    ensures Once([], [], status)
  {
  }

  lemma RestrictMirrors(nm: NodeMap, saved: map<NodeId, Response>)
    ensures Mirrors(nm.Keys, saved, Restrict(saved, nm))
  {
  }

  lemma SamePlanKnown(a: seq<Node>, b: seq<Node>)
    requires SamePlan(a, b) && UniqueIds(a) && KnownDeps(a)
    ensures KnownDeps(b)
  {
    SamePlanFacts(a, b);
    KnownDepsClosed(a);
    KnownDepsClosed(b);
  }

  lemma PlanSolves(de: DagExecutor, nodes: seq<Node>, saved: map<NodeId, Response>, order: seq<NodeId>)
    requires UniqueIds(nodes) && UniqueIds(de.nodes) && SamePlan(nodes, de.nodes) && de.nodeMap == NodesById(de.nodes)
    requires TopoOrder(DepMap(nodes), order)
    requires (forall n :: n in order ==> n in NodesById(nodes))
      && de.ref == Sequential(de.cfg, NodesById(nodes), de.req, saved, order)
    ensures Solves(de.cfg, de.nodeMap, de.req, Restrict(saved, de.nodeMap), de.ref)
  {
    hide Sequential, TopoOrder, LocalVerdict;
    SamePlanFacts(nodes, de.nodes);
    NodesByIdFacts(nodes);
    NodesByIdFacts(de.nodes);
    SequentialPriority(de.cfg, NodesById(nodes), de.nodeMap, de.req, saved, order);
    SequentialSolves(de.cfg, de.nodeMap, de.req, saved, order);
  }

  // ----- the final output -----

  // Nodes nobody depends on.
  ghost function Terminals(g: Deps): set<NodeId> {
    set n | n in g && forall m :: m in g ==> n !in g[m]
  }

  function DoneResults(status: Statuses, results: map<NodeId, Response>): map<NodeId, Response> {
    map n | n in results && n in status && status[n] == NodeDone :: results[n]
  }

  // The results of completed terminal nodes, or of all completed nodes if there are none.
  function TermResults(terminal: set<NodeId>, status: Statuses, results: map<NodeId, Response>): map<NodeId, Response> {
    var term := map n | n in terminal && n in results && n in status && status[n] == NodeDone :: results[n];
    if term == map[] then DoneResults(status, results) else term
  }

  ghost function FinalOutput(cfg: Config, terminal: set<NodeId>, status: Statuses,
                             results: map<NodeId, Response>): Option<Response> {
    var all := TermResults(terminal, status, results);
    if cfg.aggregator.Some? then cfg.aggregator.value(all) else Some(Aggregators.ConcatOutput(all))
  }

  method TerminalNodes(nodes: seq<Node>, downstream: map<NodeId, seq<NodeId>>) returns (terminal: set<NodeId>)
    requires UniqueIds(nodes) && Transposed(DepMap(nodes), downstream)
    ensures terminal == Terminals(DepMap(nodes))
  {
    hide *;
    ghost var g := DepMap(nodes);
    terminal := {};
    var i := 0;
    TerminalStart(nodes, g);
    while i < |nodes|
      invariant i <= |nodes|
      invariant TerminalsAmong(nodes[..i], g, terminal)
    {
      DownstreamMember(g, downstream, nodes[i].id);
      TerminalNext(nodes, i, terminal, Lookup(downstream, nodes[i].id));
      if |Lookup(downstream, nodes[i].id)| == 0 {
        terminal := terminal + {nodes[i].id};
      }
      i := i + 1;
    }
    assert nodes[..i] == nodes;
    TerminalEnd(nodes, terminal);
  }

  ghost predicate TerminalsAmong(nodes: seq<Node>, g: Deps, terminal: set<NodeId>) {
    forall n :: n in terminal <==> HasId(nodes, n) && n in Terminals(g)
  }

  lemma TerminalStart(nodes: seq<Node>, g: Deps)
    ensures TerminalsAmong(nodes[..0], g, {})
  {
  }

  lemma TerminalNext(nodes: seq<Node>, i: nat, terminal: set<NodeId>, ds: seq<NodeId>)
    requires UniqueIds(nodes) && i < |nodes| && TerminalsAmong(nodes[..i], DepMap(nodes), terminal)
    requires forall n :: n in ds <==> n in DepMap(nodes) && nodes[i].id in DepMap(nodes)[n]
    ensures TerminalsAmong(nodes[..i + 1], DepMap(nodes), if |ds| == 0 then terminal + {nodes[i].id} else terminal)
  {
    hide UniqueIds, HasId;
    HasIdSnoc(nodes, i);
    HasIdMember(nodes, i);
    if |ds| > 0 {
      assert ds[0] in ds;
    }
  }

  lemma HasIdMember(nodes: seq<Node>, i: nat)
    requires UniqueIds(nodes) && i < |nodes|
    ensures nodes[i].id in DepMap(nodes)
  {
    DepMapFacts(nodes);
  }

  lemma TerminalEnd(nodes: seq<Node>, terminal: set<NodeId>)
    requires UniqueIds(nodes) && TerminalsAmong(nodes, DepMap(nodes), terminal)
    ensures terminal == Terminals(DepMap(nodes))
  {
    hide HasId, UniqueIds;
    DepMapFacts(nodes);
  }

  // None stands for an aggregator error.
  method Finalize(cfg: Config, terminal: set<NodeId>, status: Statuses, results: map<NodeId, Response>)
    returns (output: Option<Response>)
    ensures output == FinalOutput(cfg, terminal, status, results)
  {
    var all := TermResults(terminal, status, results);
    if cfg.aggregator.Some? {
      return cfg.aggregator.value(all);
    }
    var resp := Aggregators.ConcatMessages(all);
    return Some(resp);
  }

  // ----- what a run shows of its reference -----

  function StatusOf(ref: Verdicts): Statuses {
    map n | n in ref :: match ref[n]
      case Done(_) => NodeDone
      case Skipped => NodeSkipped
      case Fails => NodeFailed
      case Blocked => NodePending
  }

  function ResultsOf(ref: Verdicts): map<NodeId, Response> {
    map n | n in ref && ref[n].Done? :: ref[n].resp
  }

  ghost predicate NoFailure(ref: Verdicts) {
    forall n :: n in ref ==> ref[n].Done? || ref[n].Skipped?
  }

  lemma CompletedIsReference(ref: Verdicts, status: Statuses, results: map<NodeId, Response>)
    requires Recorded(ref, status, results) && Settled(status) == ref.Keys == status.Keys
    requires results.Keys == With(status, NodeDone)
    ensures NoFailure(ref) && status == StatusOf(ref) && results == ResultsOf(ref)
  {
    forall n | n in ref
      ensures (ref[n].Done? || ref[n].Skipped?) && status[n] == StatusOf(ref)[n] && (n in results <==> ref[n].Done?)
    {
      assert n in Settled(status);
      assert n in results <==> n in With(status, NodeDone);
    }
    assert forall n :: n in results ==> n in With(status, NodeDone);
  }

  datatype Outcome =
    | Invalid(err: ValidationError)
    | Trivial(output: Response)
    | Ran(exit: Exit, cancelled: bool, status: Statuses, results: map<NodeId, Response>, final: Option<Response>)

  // A run of the given nodes started with the saved results conforms to the sequential
  // evaluation in the given order. Only a cancelled context can make it deviate, and
  // only if some node's failure is absorbed instead of ending the run.
  ghost predicate Conforms(cfg: Config, nodes: seq<Node>, req: Request, saved: map<NodeId, Response>,
                           order: seq<NodeId>, r: Outcome)
    requires r.Ran? && ListedIn(order, nodes)
  {
    var nm := NodesById(nodes);
    var ref := Sequential(cfg, nm, req, saved, order);
    && (r.exit == Cancelled ==> r.cancelled)
    && (r.exit == EarlyExit ==>
          cfg.earlyExit.Some? && exists n :: n in r.results && cfg.earlyExit.value(n, r.results[n]))
    && (r.exit.Failed? ==> r.exit.id in r.status && r.status[r.exit.id] == NodeFailed)
    && r.final == (if r.exit == Completed || r.exit == EarlyExit
                   then FinalOutput(cfg, Terminals(DepMap(nodes)), r.status, r.results) else None)
    && ((r.cancelled ==> FailStop(cfg, nm)) ==>
        && Recorded(ref, r.status, r.results)
        && (r.exit.Failed? && !r.cancelled ==> r.exit.id in ref && ref[r.exit.id] == Fails)
        && (r.exit == Completed ==>
            NoFailure(ref) && r.status == StatusOf(ref) && r.results == ResultsOf(ref)))
  }

  // The completed nodes of a failed run have been rolled back.
  ghost predicate Undone(cfg: Config, nodes: seq<Node>, r: Outcome)
    requires r.Ran? && cfg.compensate.Some?
  {
    exists before ::
      r.results.Keys == With(before, NodeDone)
      && RolledBack(cfg.compensate.value, nodes, NodesById(nodes), before, r.results, r.cancelled, r.status)
  }

  lemma RolledBackSamePlan(cc: CompensateConfig, a: seq<Node>, b: seq<Node>, before: Statuses,
                           results: map<NodeId, Response>, cancelled: bool, after: Statuses)
    requires SamePlan(a, b) && RolledBack(cc, b, NodesById(b), before, results, cancelled, after)
    ensures RolledBack(cc, a, NodesById(a), before, results, cancelled, after)
  {
    hide Distinct, DescendantsFirst, Attempted, StatusAfter, VisitIds, NodesById, DepMap, SamePlan;
    SamePlanFacts(a, b);
    var trace :| Rollback(cc, b, NodesById(b), before, results, cancelled, after, trace);
    assert Rollback(cc, a, NodesById(a), before, results, cancelled, after, trace);
  }

  method ExecuteDAG(cfg: Config, nodes: seq<Node>, req: Request, store: Checkpoints.InMemoryCheckpointStore?)
    returns (r: Outcome)
    modifies store
    ensures nodes == [] <==> r.Trivial?
    ensures r.Invalid? <==> nodes != [] && !ValidDag(nodes)
    ensures r.Ran? ==> forall order :: TopoOrder(DepMap(nodes), order) ==>
      ListedIn(order, nodes) && Conforms(cfg, nodes, req, old(Entries(store, req.sessionId)), order, r)
    ensures r.Ran? && r.exit.Failed? && cfg.errorStrategy == Compensate && cfg.compensate.Some? ==>
      Undone(cfg, nodes, r)
  {
    hide *;
    if |nodes| == 0 {
      return Trivial(Response(req.messages, req.sessionId, ""));
    }
    var err := ValidateDAG(nodes);
    if err.Some? {
      return Invalid(err.value);
    }
    ValidParts(nodes);
    ghost var order := AcyclicHasOrder(DepMap(nodes));
    OrderListsNodes(nodes, order);
    var de := NewDagExecutor(cfg, nodes, req, store, order);
    var exit := de.Run();
    var output: Option<Response> := None;
    if exit == Completed || exit == EarlyExit {
      var terminal := TerminalNodes(nodes, de.downstream);
      output := Finalize(cfg, terminal, de.status, de.results);
    }
    r := Ran(exit, de.parentDone, de.status, de.results, output);
    RunConforms(de, nodes, old(Entries(store, req.sessionId)), order, r);
    AnyOrder(cfg, nodes, req, old(Entries(store, req.sessionId)), order, r);
    CompensatesIff(cfg);
    if exit.Failed? && Compensates(cfg) {
      RunUndone(de, nodes, r);
    }
  }

  lemma CompensatesIff(cfg: Config)
    ensures Compensates(cfg) <==> cfg.errorStrategy == Compensate && cfg.compensate.Some?
  {
  }

  lemma RunUndone(de: DagExecutor, nodes: seq<Node>, r: Outcome)
    requires r.Ran? && r.exit.Failed? && Compensates(de.cfg) && de.Ended(r.exit)
    requires SamePlan(nodes, de.nodes) && de.nodeMap == NodesById(de.nodes)
    requires r.cancelled == de.parentDone && r.status == de.status && r.results == de.results
    ensures Undone(de.cfg, nodes, r)
  {
    hide RolledBack, With, SamePlan, NodesById, Recorded, Mirrors, FailStop;
    var before :| de.results.Keys == With(before, NodeDone)
      && RolledBack(de.cfg.compensate.value, de.nodes, de.nodeMap, before, de.results, de.parentDone, de.status);
    RolledBackSamePlan(de.cfg.compensate.value, nodes, de.nodes, before, de.results, de.parentDone, de.status);
  }

  lemma AnyOrder(cfg: Config, nodes: seq<Node>, req: Request, saved: map<NodeId, Response>, order: seq<NodeId>,
                 r: Outcome)
    requires UniqueIds(nodes) && TopoOrder(DepMap(nodes), order) && ListedIn(order, nodes)
    requires r.Ran? && Conforms(cfg, nodes, req, saved, order, r)
    ensures forall o :: TopoOrder(DepMap(nodes), o) ==> ListedIn(o, nodes) && Conforms(cfg, nodes, req, saved, o, r)
  {
    hide Sequential, TopoOrder;
    NodesByIdFacts(nodes);
    forall o | TopoOrder(DepMap(nodes), o)
      ensures ListedIn(o, nodes) && Conforms(cfg, nodes, req, saved, o, r)
    {
      OrderListsNodes(nodes, o);
      OrderIndependent(cfg, NodesById(nodes), req, saved, order, o);
    }
  }

  lemma RunConforms(de: DagExecutor, nodes: seq<Node>, saved: map<NodeId, Response>, order: seq<NodeId>, r: Outcome)
    requires ListedIn(order, nodes) && r.Ran? && de.Ended(r.exit)
    requires de.ref == Sequential(de.cfg, NodesById(nodes), de.req, saved, order)
    requires SamePlan(nodes, de.nodes) && de.nodeMap == NodesById(de.nodes)
    requires r.cancelled == de.parentDone && r.status == de.status && r.results == de.results
    requires r.final ==
      if r.exit == Completed || r.exit == EarlyExit
      then FinalOutput(de.cfg, Terminals(DepMap(nodes)), de.status, de.results) else None
    ensures Conforms(de.cfg, nodes, de.req, saved, order, r)
  {
    hide Sequential, Recorded, Mirrors, FinalOutput, Terminals, FailStop, NodesById, DepMap, SamePlan;
    SamePlanFacts(nodes, de.nodes);
    SameFailStop(de.cfg, NodesById(nodes), de.nodeMap);
    if !de.tainted && r.exit == Completed {
      CompletedIsReference(de.ref, de.status, de.results);
    }
  }

  lemma SameFailStop(cfg: Config, a: NodeMap, b: NodeMap)
    requires SameButPriority(a, b)
    ensures FailStop(cfg, a) <==> FailStop(cfg, b)
  {
    assert forall n :: n in a ==> (Absorbs(cfg, a[n]) <==> Absorbs(cfg, b[n]));
  }

  // ----- main results -----

  // Runs of one graph from the same saved results, not cancelled and without an early
  // exit, end alike whatever the order of completions, the concurrency limit and the
  // scheduling mode: with the same statuses, results and output, or failed, depending
  // only on whether the reference has a failing node.
  lemma Confluence(c1: Config, c2: Config, nodes: seq<Node>, req: Request, saved: map<NodeId, Response>,
                   order: seq<NodeId>, r1: Outcome, r2: Outcome)
    requires UniqueIds(nodes) && TopoOrder(DepMap(nodes), order) && ListedIn(order, nodes)
    requires r1.Ran? && Conforms(c1, nodes, req, saved, order, r1)
    requires r2.Ran? && Conforms(c2, nodes, req, saved, order, r2)
    requires SameButScheduling(c1, c2) && !r1.cancelled && !r2.cancelled && c1.earlyExit.None?
    ensures r1.exit == Completed <==> NoFailure(Sequential(c1, NodesById(nodes), req, saved, order))
    ensures r1.exit == Completed <==> r2.exit == Completed
    ensures r1.exit == Completed ==> r1 == r2
  {
    hide FinalOutput, StatusOf, ResultsOf, Sequential, Recorded;
    SequentialScheduling(c1, c2, NodesById(nodes), req, saved, order);
    SameOutput(c1, c2, Terminals(DepMap(nodes)), r1.status, r1.results);
  }

  lemma SameOutput(c1: Config, c2: Config, terminal: set<NodeId>, status: Statuses, results: map<NodeId, Response>)
    requires SameButScheduling(c1, c2)
    ensures FinalOutput(c1, terminal, status, results) == FinalOutput(c2, terminal, status, results)
  {
    hide Aggregators.ConcatOutput;
  }

  // ----- what a completed run means, without the reference -----

  // A node of a completed run: saved results stay; otherwise its condition decides on the
  // dependencies' results, and its attempts on the input built from them.
  ghost predicate NodeOutcome(cfg: Config, node: Node, req: Request, saved: map<NodeId, Response>,
                              status: Statuses, results: map<NodeId, Response>) {
    && node.id in status
    && (status[node.id] == NodeDone <==> node.id in results)
    && (node.id in saved ==> status[node.id] == NodeDone && results[node.id] == saved[node.id])
    && (node.id !in saved ==>
          var up := map d | d in node.deps :: if d in results then Some(results[d]) else None;
          if node.condition.Some? && !node.condition.value(up) then status[node.id] == NodeSkipped
          else
            && (status[node.id] == NodeDone || status[node.id] == NodeSkipped)
            && StartedOutcome(cfg, node, req, up, if node.id in results then Done(results[node.id]) else Skipped))
  }

  // The verdict on a started node, for the input built from what it is shown.
  ghost predicate StartedOutcome(cfg: Config, node: Node, req: Request, up: Upstream, v: Verdict)
    requires forall d :: d in node.deps ==> d in up
  {
    exists input :: Meaning.InputIs(node, req, up, input) && Meaning.OutcomeIs(cfg, node, input, v)
  }

  lemma CompletedMeans(cfg: Config, nodes: seq<Node>, req: Request, saved: map<NodeId, Response>, order: seq<NodeId>,
                       r: Outcome)
    requires UniqueIds(nodes) && TopoOrder(DepMap(nodes), order) && ListedIn(order, nodes)
    requires r.Ran? && Conforms(cfg, nodes, req, saved, order, r) && r.exit == Completed
    requires r.cancelled ==> FailStop(cfg, NodesById(nodes))
    ensures forall k :: 0 <= k < |nodes| ==> NodeOutcome(cfg, nodes[k], req, saved, r.status, r.results)
  {
    hide Sequential, TopoOrder, FailStop, DepMap, NodeOutcome, FinalOutput, Recorded, UniqueIds;
    var nm := NodesById(nodes);
    NodesByIdFacts(nodes);
    SequentialSolves(cfg, nm, req, saved, order);
    forall k | 0 <= k < |nodes|
      ensures NodeOutcome(cfg, nodes[k], req, saved, r.status, r.results)
    {
      NodeAt(nodes, k);
      OutcomeFromVerdict(cfg, nm, req, saved, Sequential(cfg, nm, req, saved, order), nodes[k].id, r.status, r.results);
    }
  }

  lemma {:induction false} NodeAt(nodes: seq<Node>, k: nat)
    requires UniqueIds(nodes) && k < |nodes|
    ensures nodes[k].id in NodesById(nodes) && NodesById(nodes)[nodes[k].id] == nodes[k]
  {
    var last := |nodes| - 1;
    if k < last {
      UniquePrefix(nodes, last);
      NodeAt(nodes[..last], k);
      assert nodes[..last][k] == nodes[k];
    }
  }

  lemma OutcomeFromVerdict(cfg: Config, nm: NodeMap, req: Request, saved: map<NodeId, Response>, ref: Verdicts,
                           n: NodeId, status: Statuses, results: map<NodeId, Response>)
    requires Solves(cfg, nm, req, saved, ref) && n in nm && nm[n].id == n
    requires NoFailure(ref) && status == StatusOf(ref) && results == ResultsOf(ref)
    ensures NodeOutcome(cfg, nm[n], req, saved, status, results)
  {
    assert n in ref;
    hide Solves, Meaning.InputIs, Meaning.OutcomeIs;
    StatusFromVerdict(ref, status, results, n);
    if n !in saved {
      VerdictShown(cfg, nm, req, saved, ref, n, results);
    } else {
      Meaning.VerdictMeans(cfg, nm, req, saved, ref, n);
    }
    hide StatusOf, ResultsOf, StartedOutcome, NoFailure;
  }

  lemma StatusFromVerdict(ref: Verdicts, status: Statuses, results: map<NodeId, Response>, n: NodeId)
    requires NoFailure(ref) && status == StatusOf(ref) && results == ResultsOf(ref) && n in ref
    ensures n in status && (ref[n].Done? || ref[n].Skipped?)
    ensures status[n] == (if ref[n].Done? then NodeDone else NodeSkipped)
    ensures n in results <==> ref[n].Done?
    ensures ref[n].Done? ==> results[n] == ref[n].resp
  {
  }

  // The verdict, with the dependencies' results taken from what was recorded.
  lemma VerdictShown(cfg: Config, nm: NodeMap, req: Request, saved: map<NodeId, Response>, ref: Verdicts, n: NodeId,
                     results: map<NodeId, Response>)
    requires Solves(cfg, nm, req, saved, ref) && n in nm && n !in saved
    requires NoFailure(ref) && results == ResultsOf(ref)
    ensures n in ref
    ensures var up := map d | d in nm[n].deps :: if d in results then Some(results[d]) else None;
      if nm[n].condition.Some? && !nm[n].condition.value(up) then ref[n] == Skipped
      else StartedOutcome(cfg, nm[n], req, up, ref[n])
  {
    assert n in ref && (ref[n].Done? || ref[n].Skipped?);
    hide Meaning.InputIs, Meaning.OutcomeIs, Solves;
    Meaning.VerdictMeans(cfg, nm, req, saved, ref, n);
    ShownSame(nm[n].deps, ref, results);
    hide ResultsOf;
  }

  lemma ShownSame(deps: seq<NodeId>, ref: Verdicts, results: map<NodeId, Response>)
    requires NoFailure(ref) && results == ResultsOf(ref) && forall d :: d in deps ==> d in ref
    ensures (map d | d in deps :: if ref[d].Done? then Some(ref[d].resp) else None) ==
            (map d | d in deps :: if d in results then Some(results[d]) else None)
  {
  }

  // What is aggregated: the results of completed nodes that nobody depends on, or of all
  // completed nodes if there are none of those.
  ghost predicate Aggregated(chosen: map<NodeId, Response>, g: Deps, status: Statuses, results: map<NodeId, Response>) {
    forall n :: n in chosen <==>
      && n in results && n in status && status[n] == NodeDone
      && ((n in g && (forall m :: m in g ==> n !in g[m]))
          || forall t :: t in g && t in results && t in status && status[t] == NodeDone ==>
               exists m :: m in g && t in g[m])
  }

  // The output of the configured aggregator, or the joined messages, for what is aggregated.
  ghost predicate OutputFrom(cfg: Config, chosen: map<NodeId, Response>, output: Option<Response>) {
    if cfg.aggregator.Some? then output == cfg.aggregator.value(chosen)
    else
      output.Some?
      && exists keys :: Aggregators.Ascending(keys, chosen) && Aggregators.OutputIs(output.value, keys, chosen)
  }

  lemma OutputMeans(cfg: Config, g: Deps, status: Statuses, results: map<NodeId, Response>)
    ensures exists chosen ::
      && Aggregated(chosen, g, status, results) && (forall n :: n in chosen ==> chosen[n] == results[n])
      && OutputFrom(cfg, chosen, FinalOutput(cfg, Terminals(g), status, results))
  {
    var chosen := TermResults(Terminals(g), status, results);
    ChosenTerminals(g, status, results);
    Aggregators.ConcatMeans(chosen);
    hide Aggregators.Ascending, Aggregators.OutputIs, Aggregators.ConcatOutput, TermResults, Aggregated, Terminals;
    assert OutputFrom(cfg, chosen, FinalOutput(cfg, Terminals(g), status, results));
  }

  lemma ChosenTerminals(g: Deps, status: Statuses, results: map<NodeId, Response>)
    ensures var chosen := TermResults(Terminals(g), status, results);
      Aggregated(chosen, g, status, results) && forall n :: n in chosen ==> chosen[n] == results[n]
  {
    var terminal := Terminals(g);
    var term := map n | n in terminal && n in results && n in status && status[n] == NodeDone :: results[n];
    if term == map[] {
      forall t | t in g && t in results && t in status && status[t] == NodeDone
        ensures exists m :: m in g && t in g[m]
      {
        assert t !in term;
      }
    } else {
      var t :| t in term;
    }
  }

  // Kill one run after the other, the i-th after kills[i] events, each started with whatever
  // the store holds then, and let the last one finish: it conforms to the evaluation of the
  // first. `cancelled` tells whether a killed process had seen its context cancelled.
  method KillAndResume(cfg: Config, nodes: seq<Node>, req: Request, store: Checkpoints.InMemoryCheckpointStore,
                       kills: seq<nat>)
    returns (r: Outcome, cancelled: bool)
    requires ValidDag(nodes) && nodes != []
    modifies store
    ensures r.Ran?
    ensures (cancelled ==> FailStop(cfg, NodesById(nodes))) ==>
      forall order :: TopoOrder(DepMap(nodes), order) ==>
        ListedIn(order, nodes) && Conforms(cfg, nodes, req, old(store.Entries(req.sessionId)), order, r)
  {
    hide *;
    ValidParts(nodes);
    ghost var order := AcyclicHasOrder(DepMap(nodes));
    OrderListsNodes(nodes, order);
    EntriesOf(store, req.sessionId);
    ghost var saved0 := store.Entries(req.sessionId);
    cancelled := false;
    var i := 0;
    while i < |kills|
      invariant i <= |kills|
      invariant (cancelled ==> FailStop(cfg, NodesById(nodes))) ==>
        Sequential(cfg, NodesById(nodes), req, store.Entries(req.sessionId), order) ==
        Sequential(cfg, NodesById(nodes), req, saved0, order)
    {
      EntriesOf(store, req.sessionId);
      ghost var saved := store.Entries(req.sessionId);
      var de := NewDagExecutor(cfg, nodes, req, store, order);
      de.RunPrefix(kills[i]);
      cancelled := cancelled || de.parentDone;
      if cancelled ==> FailStop(cfg, NodesById(nodes)) {
        PrefixTransparent(de, nodes, saved, store.Entries(req.sessionId), order);
      }
      i := i + 1;
    }
    EntriesOf(store, req.sessionId);
    ghost var saved := store.Entries(req.sessionId);
    r := ExecuteDAG(cfg, nodes, req, store);
    if cancelled ==> FailStop(cfg, NodesById(nodes)) {
      ConformsFrom(cfg, nodes, req, saved0, saved, order, r);
      AnyOrder(cfg, nodes, req, saved0, order, r);
    }
  }

  // The saved responses of this graph's nodes are those of the evaluation from nothing.
  ghost predicate SavedCorrectly(cfg: Config, nodes: seq<Node>, req: Request, saved: map<NodeId, Response>,
                                 order: seq<NodeId>)
    requires ListedIn(order, nodes)
  {
    var full := Sequential(cfg, NodesById(nodes), req, map[], order);
    forall n :: n in saved && n in full ==> full[n] == Done(saved[n])
  }

  // Resuming from any correct checkpoints, of a node but not of its dependencies
  // included, conforms to the evaluation from nothing.
  method ResumeFromAnySubset(cfg: Config, nodes: seq<Node>, req: Request, store: Checkpoints.InMemoryCheckpointStore,
                             ghost order: seq<NodeId>)
    returns (r: Outcome)
    requires ValidDag(nodes) && nodes != [] && TopoOrder(DepMap(nodes), order) && ListedIn(order, nodes)
    requires SavedCorrectly(cfg, nodes, req, store.Entries(req.sessionId), order)
    modifies store
    ensures r.Ran? && Conforms(cfg, nodes, req, map[], order, r)
  {
    hide *;
    ValidParts(nodes);
    EntriesOf(store, req.sessionId);
    ghost var saved := store.Entries(req.sessionId);
    r := ExecuteDAG(cfg, nodes, req, store);
    SubsetTransparent(cfg, nodes, req, saved, order);
    ConformsFrom(cfg, nodes, req, map[], saved, order, r);
  }

  lemma SubsetTransparent(cfg: Config, nodes: seq<Node>, req: Request, saved: map<NodeId, Response>, order: seq<NodeId>)
    requires UniqueIds(nodes) && TopoOrder(DepMap(nodes), order) && ListedIn(order, nodes)
    requires SavedCorrectly(cfg, nodes, req, saved, order)
    ensures Sequential(cfg, NodesById(nodes), req, saved, order) == Sequential(cfg, NodesById(nodes), req, map[], order)
  {
    hide Sequential, TopoOrder, NodesById, DepMap;
    NodesByIdFacts(nodes);
    ResumeTransparent(cfg, NodesById(nodes), req, map[], saved, order);
  }

  // What the first process saved is what the reference gives, so nothing changes for the second.
  lemma PrefixTransparent(de: DagExecutor, nodes: seq<Node>, saved0: map<NodeId, Response>,
                          saved1: map<NodeId, Response>, order: seq<NodeId>)
    requires UniqueIds(nodes) && TopoOrder(DepMap(nodes), order) && ListedIn(order, nodes)
    requires SamePlan(nodes, de.nodes) && de.nodeMap == NodesById(de.nodes)
    requires de.ref == Sequential(de.cfg, NodesById(nodes), de.req, saved0, order)
    requires de.Sound() && de.store != null && de.store.Entries(de.req.sessionId) == saved1
    requires de.saved == Restrict(saved0, de.nodeMap)
    requires de.parentDone ==> FailStop(de.cfg, NodesById(nodes))
    ensures Sequential(de.cfg, NodesById(nodes), de.req, saved1, order) ==
            Sequential(de.cfg, NodesById(nodes), de.req, saved0, order)
  {
    hide Sequential, TopoOrder, FailStop, NodesById, DepMap, SamePlan;
    NodesByIdFacts(nodes);
    SamePlanFacts(nodes, de.nodes);
    SameFailStop(de.cfg, NodesById(nodes), de.nodeMap);
    SequentialSolves(de.cfg, NodesById(nodes), de.req, saved0, order);
    ResumeTransparent(de.cfg, NodesById(nodes), de.req, saved0, saved1, order);
  }

  lemma ConformsFrom(cfg: Config, nodes: seq<Node>, req: Request, saved0: map<NodeId, Response>,
                     saved1: map<NodeId, Response>, order: seq<NodeId>, r: Outcome)
    requires ListedIn(order, nodes) && r.Ran? && Conforms(cfg, nodes, req, saved1, order, r)
    requires Sequential(cfg, NodesById(nodes), req, saved1, order) ==
             Sequential(cfg, NodesById(nodes), req, saved0, order)
    ensures Conforms(cfg, nodes, req, saved0, order, r)
  {
    hide Sequential, NodesById;
  }
}
