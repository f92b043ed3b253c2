// The invariant of a DAG run, as a predicate on a snapshot of the executor's
// fields, and one lemma for each elementary change the executor makes.
module EngineState {
  import opened Types
  import opened Graph
  import opened Topo
  import opened Semantics

  type Statuses = map<NodeId, NodeStatus>

  type Results = map<NodeId, Response>

  // A message on doneCh. None stands for an error.
  datatype Completion = Completion(id: NodeId, resp: Option<Response>)

  // What never changes during a run. `ref` holds the verdicts of the reference semantics.
  datatype World = World(
    cfg: Config, nm: NodeMap, req: Request, downstream: map<NodeId, seq<NodeId>>, saved: Results, ref: Verdicts)

  // The changing fields. `inFlight` holds the launched nodes that have not sent their
  // completion yet, with the request they were launched with. `tainted` is set once an
  // error caused by a cancelled context, and not by the node itself, was absorbed as a
  // skip or by a recovery.
  datatype State = State(
    status: Statuses,
    results: Results,
    inDegree: map<NodeId, int>,
    pending: int,
    inFlight: map<NodeId, Request>,
    doneCh: seq<Completion>,
    queue: seq<NodeId>,
    cancelled: bool,
    tainted: bool)

  ghost function With(st: Statuses, s: NodeStatus): set<NodeId> {
    set n | n in st && st[n] == s
  }

  ghost function Settled(st: Statuses): set<NodeId> {
    set n | n in st && (st[n] == NodeDone || st[n] == NodeSkipped)
  }

  ghost function Unfinished(st: Statuses): set<NodeId> {
    set n | n in st && (st[n] == NodePending || st[n] == NodeRunning)
  }

  ghost predicate ValidWorld(w: World) {
    && (forall n :: n in w.nm ==> w.nm[n].id == n)
    && Closed(DepsOf(w.nm)) && !Cyclic(DepsOf(w.nm))
    && Transposed(DepsOf(w.nm), w.downstream)
    && Solves(w.cfg, w.nm, w.req, w.saved, w.ref)
  }

  // ----- the parts of the invariant -----

  // In-degrees count unsettled dependency occurrences plus decrements still owed;
  // pending counts the nodes that are Pending or Running; results exist for Done nodes.
  ghost predicate Counted(w: World, st: Statuses, results: Results, inDegree: map<NodeId, int>, pending: int,
                          owed: multiset<NodeId>)
  {
    && st.Keys == w.nm.Keys
    && Degrees(DepsOf(w.nm), Settled(st), inDegree, owed)
    && pending == |Unfinished(st)|
    && st.Keys == Settled(st) + Unfinished(st)
    && results.Keys == With(st, NodeDone)
  }

  // Running nodes have settled dependencies, and each owes exactly one
  // completion: it is either in flight or queued on doneCh, once. Saved nodes are done.
  ghost predicate Flying(w: World, st: Statuses, inFlight: map<NodeId, Request>, doneCh: seq<Completion>) {
    && (forall n :: n in With(st, NodeRunning) ==> DepsSettled(w, st, n))
    && With(st, NodeRunning) == inFlight.Keys + Queued(doneCh)
    && inFlight.Keys !! Queued(doneCh)
    && (forall i, j :: 0 <= i < j < |doneCh| ==> doneCh[i].id != doneCh[j].id)
    && (forall n :: n in w.saved && n in st ==> st[n] == NodeDone)
  }

  ghost function Queued(doneCh: seq<Completion>): set<NodeId> {
    set c | c in doneCh :: c.id
  }

  ghost predicate DepsSettled(w: World, st: Statuses, n: NodeId) {
    n in w.nm && forall d :: d in w.nm[n].deps ==> d in Settled(st)
  }

  // A pending node with in-degree zero waits in the ready queue, unless it is exempt
  // because the caller is about to enqueue it; the queue holds nothing else.
  ghost predicate Ready(st: Statuses, inDegree: map<NodeId, int>, queue: seq<NodeId>, exempt: set<NodeId>) {
    && (forall n :: IsReady(st, inDegree, n) ==> n in queue || n in exempt)
    && (forall n :: n in queue ==> IsReady(st, inDegree, n))
    && Distinct(queue)
  }

  ghost predicate IsReady(st: Statuses, inDegree: map<NodeId, int>, n: NodeId) {
    n in st && st[n] == NodePending && n in inDegree && inDegree[n] == 0
  }

  ghost function RefUpstream(w: World, n: NodeId): Upstream
    requires n in w.nm
  {
    UpVerdicts(w.nm[n].deps, w.ref)
  }

  ghost function RefInput(w: World, n: NodeId): Option<Request>
    requires n in w.nm
  {
    NodeInput(w.nm[n], w.req, RefUpstream(w, n))
  }

  ghost predicate Agrees(w: World, st: Statuses, results: Results) {
    forall n :: n in st && n in w.ref ==>
      && (st[n] == NodeDone ==> n in results && w.ref[n] == Done(results[n]))
      && (st[n] == NodeSkipped ==> w.ref[n] == Skipped)
  }

  // A launched node runs on the reference's input, its condition holding there.
  ghost predicate LaunchedWith(w: World, n: NodeId, request: Request) {
    n in w.nm && ConditionHolds(w.nm[n], RefUpstream(w, n)) && RefInput(w, n) == Some(request)
  }

  // A completion is the reference's, or an error after a cancellation.
  ghost predicate Truthful(w: World, c: Completion, cancelled: bool) {
    c.id in w.nm && ConditionHolds(w.nm[c.id], RefUpstream(w, c.id)) &&
    (c.resp == StartOutcome(w.nm[c.id], RefInput(w, c.id)) || (cancelled && c.resp.None?))
  }

  ghost predicate FlightAgrees(w: World, inFlight: map<NodeId, Request>, doneCh: seq<Completion>, cancelled: bool) {
    && (forall n :: n in inFlight ==> LaunchedWith(w, n, inFlight[n]))
    && (forall c :: c in doneCh ==> Truthful(w, c, cancelled))
  }

  // A failure that does not end the run.
  predicate Absorbs(cfg: Config, node: Node) {
    if Compensates(cfg) then cfg.compensate.value.strategy == ForwardRecovery
    else cfg.errorStrategy != Abort && node.optional
  }

  // No failure is absorbed: a caller can read this off the configuration and the nodes.
  ghost predicate FailStop(cfg: Config, nm: NodeMap) {
    forall n :: n in nm ==> !Absorbs(cfg, nm[n])
  }

  ghost predicate Inv(w: World, s: State, owed: multiset<NodeId>, exempt: set<NodeId>) {
    && ValidWorld(w)
    && Counted(w, s.status, s.results, s.inDegree, s.pending, owed)
    && Flying(w, s.status, s.inFlight, s.doneCh)
    && Ready(s.status, s.inDegree, s.queue, exempt)
    && (!s.tainted ==> Agrees(w, s.status, s.results) && FlightAgrees(w, s.inFlight, s.doneCh, s.cancelled))
    && (s.tainted ==> s.cancelled && !FailStop(w.cfg, w.nm))
  }

  // ----- consequences -----

  // The dependencies' results are the reference's results, so the reference's verdict
  // on n is the one computed from what is recorded.
  lemma LocalView(w: World, st: Statuses, results: Results, n: NodeId)
    requires ValidWorld(w) && st.Keys == w.nm.Keys && DepsSettled(w, st, n) && n !in w.saved
    requires results.Keys == With(st, NodeDone) && Agrees(w, st, results)
    ensures UpstreamOf(w.nm[n].deps, results) == RefUpstream(w, n)
    ensures n in w.ref && w.ref[n] == NodeVerdict(w.cfg, w.nm[n], w.req, RefUpstream(w, n))
  {
    hide NodeVerdict, Transposed, Closed, Cyclic;
    assert w.ref[n] == VerdictOn(w.cfg, w.nm, w.req, w.saved, w.ref, n);
    var deps := w.nm[n].deps;
    forall d | d in deps
      ensures Resolved(w.ref, d)
      ensures (d in results <==> w.ref[d].Done?) && (d in results ==> w.ref[d] == Done(results[d]))
    {
      assert d in Settled(st);
    }
    assert UpstreamOf(deps, results) == UpVerdicts(deps, w.ref);
  }

  lemma ZeroMeansSettled(w: World, st: Statuses, results: Results, inDegree: map<NodeId, int>, pending: int,
                         owed: multiset<NodeId>, n: NodeId)
    requires Counted(w, st, results, inDegree, pending, owed) && n in inDegree && inDegree[n] == 0
    ensures DepsSettled(w, st, n) && owed[n] == 0
  {
    OpenBound(DepsOf(w.nm)[n], Settled(st));
  }

  lemma NotSaved(w: World, st: Statuses, inFlight: map<NodeId, Request>, doneCh: seq<Completion>, n: NodeId)
    requires Flying(w, st, inFlight, doneCh) && n in st && st[n] != NodeDone
    ensures n !in w.saved
  {
  }

  // Goroutines in flight plus queued completions are the running nodes.
  lemma RunningCount(w: World, st: Statuses, inFlight: map<NodeId, Request>, doneCh: seq<Completion>)
    requires st.Keys == w.nm.Keys && Flying(w, st, inFlight, doneCh)
    ensures |inFlight| + |doneCh| == |With(st, NodeRunning)| <= |w.nm|
  {
    QueuedSize(doneCh);
    assert |With(st, NodeRunning)| == |inFlight.Keys| + |Queued(doneCh)|;
    SubsetSize(With(st, NodeRunning), w.nm.Keys);
  }

  lemma {:induction false} QueuedSize(doneCh: seq<Completion>)
    requires forall i, j :: 0 <= i < j < |doneCh| ==> doneCh[i].id != doneCh[j].id
    ensures |Queued(doneCh)| == |doneCh|
  {
    if doneCh == [] {
      assert Queued(doneCh) == {};
    } else {
      QueuedTail(doneCh);
      QueuedSize(doneCh[1..]);
    }
  }

  lemma QueuedTail(doneCh: seq<Completion>)
    requires |doneCh| > 0 && forall i, j :: 0 <= i < j < |doneCh| ==> doneCh[i].id != doneCh[j].id
    ensures Queued(doneCh) == Queued(doneCh[1..]) + {doneCh[0].id}
    ensures doneCh[0].id !in Queued(doneCh[1..])
  {
    assert doneCh == [doneCh[0]] + doneCh[1..];
    assert forall c :: c in doneCh <==> c == doneCh[0] || c in doneCh[1..];
  }

  lemma QueuedSnoc(doneCh: seq<Completion>, c: Completion)
    ensures Queued(doneCh + [c]) == Queued(doneCh) + {c.id}
  {
    assert forall x :: x in doneCh + [c] <==> x in doneCh || x == c;
  }

  // While work is left and the queue holds nothing that could start, some node is running.
  lemma Progress(w: World, s: State)
    requires Inv(w, s, multiset{}, {}) && s.pending > 0
    requires s.queue != [] ==> With(s.status, NodeRunning) != {}
    ensures With(s.status, NodeRunning) != {}
  {
    hide Transposed, Solves, Agrees, FlightAgrees, Flying;
    var left := Unfinished(s.status);
    assert left != {};
    var n := SourceExists(DepsOf(w.nm), left);
    if s.status[n] == NodePending {
      assert forall d :: d in w.nm[n].deps ==> d in DepsOf(w.nm);
      OpenBound(w.nm[n].deps, Settled(s.status));
      assert IsReady(s.status, s.inDegree, n);
    } else {
      assert n in With(s.status, NodeRunning);
    }
  }

  // ----- elementary changes, part by part -----

  lemma MarkSets(st: Statuses, n: NodeId, to: NodeStatus)
    requires n in Unfinished(st) && (to == NodeDone || to == NodeSkipped)
    ensures Settled(st[n := to]) == Settled(st) + {n} && n !in Settled(st)
    ensures Unfinished(st[n := to]) == Unfinished(st) - {n}
    ensures |Unfinished(st[n := to])| == |Unfinished(st)| - 1
    ensures (st[n := to]).Keys == st.Keys
  {
    var st' := st[n := to];
    assert forall m :: m in st' <==> m in st;
    assert Unfinished(st') == Unfinished(st) - {n};
  }

  lemma MarkWith(st: Statuses, n: NodeId, to: NodeStatus)
    requires n in Unfinished(st) && (to == NodeDone || to == NodeSkipped)
    ensures With(st[n := to], NodeRunning) == With(st, NodeRunning) - {n}
    ensures With(st[n := to], NodeDone) == if to == NodeDone then With(st, NodeDone) + {n} else With(st, NodeDone)
  {
    var st' := st[n := to];
    assert forall m :: m in st' <==> m in st;
  }

  lemma StartSets(st: Statuses, n: NodeId)
    requires n in st && st[n] == NodePending
    ensures Settled(st[n := NodeRunning]) == Settled(st)
    ensures Unfinished(st[n := NodeRunning]) == Unfinished(st)
    ensures With(st[n := NodeRunning], NodeRunning) == With(st, NodeRunning) + {n}
    ensures With(st[n := NodeRunning], NodeDone) == With(st, NodeDone)
  {
  }

  // n leaves the unfinished nodes: its dependents are owed a decrement each.
  lemma CountedSettle(w: World, st: Statuses, results: Results, inDegree: map<NodeId, int>, pending: int,
                      owed: multiset<NodeId>, n: NodeId, to: NodeStatus, results': Results)
    requires ValidWorld(w) && Counted(w, st, results, inDegree, pending, owed)
    requires n in Unfinished(st) && (to == NodeDone || to == NodeSkipped)
    requires results'.Keys == if to == NodeDone then results.Keys + {n} else results.Keys
    ensures Counted(w, st[n := to], results', inDegree, pending - 1, owed + multiset(Lookup(w.downstream, n)))
  {
    hide Transposed, Solves, Closed, Cyclic, Degrees, Settled, Unfinished, With, Lookup, DepsOf;
    MarkSets(st, n, to);
    MarkWith(st, n, to);
    UnfinishedKeys(st);
    DegreesSettle(DepsOf(w.nm), Settled(st), inDegree, owed, n, w.downstream);
  }

  lemma UnfinishedKeys(st: Statuses)
    ensures Unfinished(st) <= st.Keys
  {
  }

  lemma CountedDecrement(w: World, st: Statuses, results: Results, inDegree: map<NodeId, int>, pending: int,
                         owed: multiset<NodeId>, rest: seq<NodeId>, j: nat)
    requires j < |rest| && rest[j] in w.nm && Counted(w, st, results, inDegree, pending, owed + multiset(rest[j..]))
    ensures rest[j] in inDegree && inDegree[rest[j]] >= 1
    ensures Counted(w, st, results, inDegree[rest[j] := inDegree[rest[j]] - 1], pending, owed + multiset(rest[j + 1..]))
  {
    hide Degrees, Settled, With, Unfinished;
    DegreesKeys(w, st, inDegree, owed + multiset(rest[j..]));
    DegreesDecrement(DepsOf(w.nm), Settled(st), inDegree, owed, rest, j);
  }

  lemma DegreesKeys(w: World, st: Statuses, inDegree: map<NodeId, int>, owed: multiset<NodeId>)
    requires Degrees(DepsOf(w.nm), Settled(st), inDegree, owed)
    ensures inDegree.Keys == DepsOf(w.nm).Keys == w.nm.Keys
  {
  }

  lemma CountedStart(w: World, st: Statuses, results: Results, inDegree: map<NodeId, int>, pending: int,
                     owed: multiset<NodeId>, n: NodeId)
    requires Counted(w, st, results, inDegree, pending, owed) && n in st && st[n] == NodePending
    ensures Counted(w, st[n := NodeRunning], results, inDegree, pending, owed)
  {
    StartSets(st, n);
  }

  // Settled sets only grow, so running nodes keep their settled dependencies.
  lemma FlyingSettle(w: World, st: Statuses, inFlight: map<NodeId, Request>, doneCh: seq<Completion>, n: NodeId,
                     to: NodeStatus)
    requires Flying(w, st, inFlight, doneCh) && n in Unfinished(st) && (to == NodeDone || to == NodeSkipped)
    requires st[n] == NodeRunning ==> |doneCh| > 0 && doneCh[0].id == n
    ensures Flying(w, st[n := to], inFlight, if st[n] == NodeRunning then doneCh[1..] else doneCh)
  {
    MarkWith(st, n, to);
    forall m | m in With(st, NodeRunning) - {n}
      ensures DepsSettled(w, st[n := to], m)
    {
      DepsSettledMonotone(w, st, n, to, m);
    }
    hide With, Settled, DepsSettled;
    if st[n] == NodeRunning {
      QueuedTail(doneCh);
    }
  }

  lemma DepsSettledMonotone(w: World, st: Statuses, n: NodeId, to: NodeStatus, m: NodeId)
    requires DepsSettled(w, st, m) && n in Unfinished(st)
    ensures DepsSettled(w, st[n := to], m)
  {
    forall d | d in w.nm[m].deps
      ensures d in Settled(st[n := to])
    {
      assert d in Settled(st);
    }
  }

  lemma FlyingStart(w: World, st: Statuses, inFlight: map<NodeId, Request>, doneCh: seq<Completion>, n: NodeId,
                    request: Request)
    requires Flying(w, st, inFlight, doneCh) && n in st && st[n] == NodePending && DepsSettled(w, st, n)
    ensures Flying(w, st[n := NodeRunning], inFlight[n := request], doneCh)
    ensures Flying(w, st[n := NodeRunning], inFlight, doneCh + [Completion(n, None)])
  {
    StartSets(st, n);
    assert n !in With(st, NodeRunning);
    QueuedSnoc(doneCh, Completion(n, None));
    var st' := st[n := NodeRunning];
    forall m | m in With(st', NodeRunning)
      ensures DepsSettled(w, st', m)
    {
      assert DepsSettled(w, st, m);
    }
    forall i, j | 0 <= i < j < |doneCh| + 1
      ensures (doneCh + [Completion(n, None)])[i].id != (doneCh + [Completion(n, None)])[j].id
    {
      if j == |doneCh| {
        assert doneCh[i].id in Queued(doneCh);
      }
    }
  }

  lemma FlyingSend(w: World, st: Statuses, inFlight: map<NodeId, Request>, doneCh: seq<Completion>, c: Completion)
    requires Flying(w, st, inFlight, doneCh) && c.id in inFlight
    ensures Flying(w, st, inFlight - {c.id}, doneCh + [c])
  {
    QueuedSnoc(doneCh, c);
    forall i, j | 0 <= i < j < |doneCh| + 1
      ensures (doneCh + [c])[i].id != (doneCh + [c])[j].id
    {
      if j == |doneCh| {
        assert doneCh[i].id in Queued(doneCh);
      }
    }
  }

  lemma ReadyLeave(st: Statuses, inDegree: map<NodeId, int>, queue: seq<NodeId>, exempt: set<NodeId>, n: NodeId,
                   to: NodeStatus)
    requires Ready(st, inDegree, queue, exempt + {n}) && n in st && n !in queue && to != NodePending
    ensures Ready(st[n := to], inDegree, queue, exempt)
  {
    forall m
      ensures m != n ==> (IsReady(st[n := to], inDegree, m) <==> IsReady(st, inDegree, m))
      ensures !IsReady(st[n := to], inDegree, n)
    {
    }
  }

  lemma ReadyDecrement(st: Statuses, inDegree: map<NodeId, int>, queue: seq<NodeId>, exempt: set<NodeId>, x: NodeId)
    requires Ready(st, inDegree, queue, exempt) && x in inDegree && inDegree[x] >= 1
    ensures x !in queue
    ensures var next := inDegree[x := inDegree[x] - 1];
            Ready(st, next, queue, if IsReady(st, next, x) then exempt + {x} else exempt)
  {
    var next := inDegree[x := inDegree[x] - 1];
    assert !IsReady(st, inDegree, x);
    forall m | m != x
      ensures IsReady(st, next, m) <==> IsReady(st, inDegree, m)
    {
    }
  }

  lemma ReadyPush(st: Statuses, inDegree: map<NodeId, int>, queue: seq<NodeId>, exempt: set<NodeId>, n: NodeId,
                  queue': seq<NodeId>)
    requires Ready(st, inDegree, queue, exempt + {n}) && IsReady(st, inDegree, n)
    requires Distinct(queue') && forall m :: m in queue' <==> m == n || m in queue
    ensures Ready(st, inDegree, queue', exempt)
  {
    hide IsReady, Distinct;
  }

  lemma ReadyPop(st: Statuses, inDegree: map<NodeId, int>, queue: seq<NodeId>, exempt: set<NodeId>)
    requires Ready(st, inDegree, queue, exempt) && queue != []
    ensures Ready(st, inDegree, queue[1..], exempt + {queue[0]})
    ensures queue[0] !in queue[1..] && IsReady(st, inDegree, queue[0])
  {
    hide IsReady;
    assert queue == [queue[0]] + queue[1..];
    assert queue[0] in queue;
    forall i | 0 <= i < |queue| - 1
      ensures queue[1..][i] != queue[0]
    {
      assert queue[1..][i] == queue[i + 1];
    }
  }

  lemma AgreesSettle(w: World, st: Statuses, results: Results, n: NodeId, verdict: Verdict)
    requires Agrees(w, st, results) && n in st && n !in results && (n in w.ref ==> w.ref[n] == verdict)
    ensures verdict == Skipped ==> Agrees(w, st[n := NodeSkipped], results)
    ensures verdict.Done? ==> Agrees(w, st[n := NodeDone], results[n := verdict.resp])
    ensures Agrees(w, st[n := NodeRunning], results)
  {
  }

  lemma FlightLaunch(w: World, inFlight: map<NodeId, Request>, doneCh: seq<Completion>, cancelled: bool, n: NodeId,
                     request: Request)
    requires FlightAgrees(w, inFlight, doneCh, cancelled) && LaunchedWith(w, n, request)
    ensures FlightAgrees(w, inFlight[n := request], doneCh, cancelled)
  {
    hide LaunchedWith, Truthful;
  }

  // Sends and receives, and a cancellation in between.
  lemma FlightMove(w: World, inFlight: map<NodeId, Request>, doneCh: seq<Completion>, cancelled: bool,
                   inFlight': map<NodeId, Request>, doneCh': seq<Completion>, cancelled': bool)
    requires FlightAgrees(w, inFlight, doneCh, cancelled) && (cancelled ==> cancelled')
    requires forall n :: n in inFlight' ==> n in inFlight && inFlight'[n] == inFlight[n]
    requires forall c :: c in doneCh' ==> c in doneCh || Truthful(w, c, cancelled')
    ensures FlightAgrees(w, inFlight', doneCh', cancelled')
  {
    hide LaunchedWith;
    forall c | c in doneCh'
      ensures Truthful(w, c, cancelled')
    {
      if c in doneCh {
        assert Truthful(w, c, cancelled);
      }
    }
  }

  // ----- the actions of the executor -----

  lemma InvMembers(w: World, s: State, owed: multiset<NodeId>, exempt: set<NodeId>)
    requires Inv(w, s, owed, exempt)
    ensures s.status.Keys == s.inDegree.Keys == w.nm.Keys
    ensures s.results.Keys == With(s.status, NodeDone)
    ensures |s.inFlight| + |s.doneCh| == |With(s.status, NodeRunning)| <= |w.nm|
    ensures s.pending == |Unfinished(s.status)|
    ensures forall n :: n in w.nm ==> n in s.status && s.status[n] != NodeFailed && s.status[n] != NodeCompensated
  {
    hide ValidWorld, Flying, Ready, Agrees, FlightAgrees, Degrees, FailStop, Settled, Unfinished, With;
    RunningCount(w, s.status, s.inFlight, s.doneCh);
    DegreesKeys(w, s.status, s.inDegree, owed);
    NoFailures(s.status);
  }

  lemma NoFailures(st: Statuses)
    requires st.Keys == Settled(st) + Unfinished(st)
    ensures forall n :: n in st ==> st[n] != NodeFailed && st[n] != NodeCompensated
  {
    forall n | n in st
      ensures st[n] != NodeFailed && st[n] != NodeCompensated
    {
      assert n in Settled(st) + Unfinished(st);
    }
  }

  // A node found ready: its verdict depends on what is recorded.
  lemma ReadyVerdict(w: World, s: State, owed: multiset<NodeId>, exempt: set<NodeId>, n: NodeId)
    requires Inv(w, s, owed, exempt) && IsReady(s.status, s.inDegree, n)
    ensures n in w.nm && DepsSettled(w, s.status, n) && n !in s.results && n in Unfinished(s.status)
    ensures !s.tainted ==>
      && UpstreamOf(w.nm[n].deps, s.results) == RefUpstream(w, n)
      && n in w.ref && w.ref[n] == NodeVerdict(w.cfg, w.nm[n], w.req, RefUpstream(w, n))
  {
    InvMembers(w, s, owed, exempt);
    hide ValidWorld, Flying, Ready, Agrees, FlightAgrees, NodeVerdict, DepsSettled;
    ZeroMeansSettled(w, s.status, s.results, s.inDegree, s.pending, owed, n);
    NotSaved(w, s.status, s.inFlight, s.doneCh, n);
    if !s.tainted {
      LocalView(w, s.status, s.results, n);
    }
  }

  // scheduleReady finds the condition false.
  lemma InvSkip(w: World, s: State, owed: multiset<NodeId>, exempt: set<NodeId>, n: NodeId)
    requires Inv(w, s, owed, exempt + {n})
    requires IsReady(s.status, s.inDegree, n) && n !in s.queue && n in w.nm
    requires !ConditionHolds(w.nm[n], UpstreamOf(w.nm[n].deps, s.results))
    ensures Inv(w, s.(status := s.status[n := NodeSkipped], pending := s.pending - 1),
                owed + multiset(Lookup(w.downstream, n)), exempt)
  {
    ReadyVerdict(w, s, owed, exempt + {n}, n);
    hide Counted, Flying, Ready, Agrees, FlightAgrees, ValidWorld, FailStop, Unfinished, DepsSettled, NodeInput,
      AfterRun;
    CountedSettle(w, s.status, s.results, s.inDegree, s.pending, owed, n, NodeSkipped, s.results);
    FlyingSettle(w, s.status, s.inFlight, s.doneCh, n, NodeSkipped);
    ReadyLeave(s.status, s.inDegree, s.queue, exempt, n, NodeSkipped);
    if !s.tainted {
      AgreesSettle(w, s.status, s.results, n, Skipped);
    }
  }

  // What launching and failing to launch have in common.
  lemma StartParts(w: World, s: State, owed: multiset<NodeId>, exempt: set<NodeId>, n: NodeId)
    requires Inv(w, s, owed, exempt + {n})
    requires IsReady(s.status, s.inDegree, n) && n !in s.queue && n in w.nm
    ensures n in s.status && s.status[n] == NodePending && DepsSettled(w, s.status, n)
    ensures Counted(w, s.status[n := NodeRunning], s.results, s.inDegree, s.pending, owed)
    ensures Ready(s.status[n := NodeRunning], s.inDegree, s.queue, exempt)
    ensures !s.tainted ==>
      && Agrees(w, s.status[n := NodeRunning], s.results)
      && UpstreamOf(w.nm[n].deps, s.results) == RefUpstream(w, n)
  {
    ReadyVerdict(w, s, owed, exempt + {n}, n);
    hide Counted, Flying, Ready, Agrees, FlightAgrees, ValidWorld, FailStop, Unfinished, DepsSettled, NodeVerdict;
    CountedStart(w, s.status, s.results, s.inDegree, s.pending, owed, n);
    ReadyLeave(s.status, s.inDegree, s.queue, exempt, n, NodeRunning);
    if !s.tainted {
      AgreesSettle(w, s.status, s.results, n, w.ref[n]);
    }
  }

  ghost function Launched(s: State, n: NodeId, request: Request): State {
    s.(status := s.status[n := NodeRunning], inFlight := s.inFlight[n := request])
  }

  // scheduleReady launches the node.
  lemma InvLaunch(w: World, s: State, owed: multiset<NodeId>, exempt: set<NodeId>, n: NodeId, request: Request)
    requires Inv(w, s, owed, exempt + {n})
    requires IsReady(s.status, s.inDegree, n) && n !in s.queue && n in w.nm
    requires ConditionHolds(w.nm[n], UpstreamOf(w.nm[n].deps, s.results))
    requires NodeInput(w.nm[n], w.req, UpstreamOf(w.nm[n].deps, s.results)) == Some(request)
    ensures Inv(w, Launched(s, n, request), owed, exempt)
  {
    hide Counted, Flying, Ready, Agrees, FlightAgrees, ValidWorld, FailStop, DepsSettled, NodeInput, IsReady,
      UpstreamOf;
    StartParts(w, s, owed, exempt, n);
    FlyingStart(w, s.status, s.inFlight, s.doneCh, n, request);
    if !s.tainted {
      FlightLaunch(w, s.inFlight, s.doneCh, s.cancelled, n, request);
    }
  }

  // scheduleReady cannot build the input and sends the error itself.
  lemma InvStartError(w: World, s: State, owed: multiset<NodeId>, exempt: set<NodeId>, n: NodeId)
    requires Inv(w, s, owed, exempt + {n})
    requires IsReady(s.status, s.inDegree, n) && n !in s.queue && n in w.nm
    requires ConditionHolds(w.nm[n], UpstreamOf(w.nm[n].deps, s.results))
    requires NodeInput(w.nm[n], w.req, UpstreamOf(w.nm[n].deps, s.results)) == None
    ensures Inv(w, s.(status := s.status[n := NodeRunning], doneCh := s.doneCh + [Completion(n, None)]), owed, exempt)
  {
    hide Counted, Flying, Ready, Agrees, FlightAgrees, ValidWorld, FailStop, DepsSettled, NodeInput, IsReady,
      UpstreamOf;
    StartParts(w, s, owed, exempt, n);
    FlyingStart(w, s.status, s.inFlight, s.doneCh, n, w.req);
    if !s.tainted {
      assert Truthful(w, Completion(n, None), s.cancelled);
      FlightMove(w, s.inFlight, s.doneCh, s.cancelled, s.inFlight, s.doneCh + [Completion(n, None)], s.cancelled);
    }
  }

  // propagateDownstream pays one of the decrements it owes.
  lemma InvDecrement(w: World, s: State, owed: multiset<NodeId>, exempt: set<NodeId>, rest: seq<NodeId>, j: nat)
    requires j < |rest| && rest[j] in w.nm && Inv(w, s, owed + multiset(rest[j..]), exempt)
    ensures rest[j] in s.inDegree && rest[j] !in s.queue
    ensures var next := s.inDegree[rest[j] := s.inDegree[rest[j]] - 1];
            Inv(w, s.(inDegree := next), owed + multiset(rest[j + 1..]),
                if IsReady(s.status, next, rest[j]) then exempt + {rest[j]} else exempt)
  {
    hide Counted, Flying, Ready, Agrees, FlightAgrees, ValidWorld, FailStop, IsReady;
    CountedDecrement(w, s.status, s.results, s.inDegree, s.pending, owed, rest, j);
    ReadyDecrement(s.status, s.inDegree, s.queue, exempt, rest[j]);
  }

  lemma InvPush(w: World, s: State, owed: multiset<NodeId>, exempt: set<NodeId>, n: NodeId, queue': seq<NodeId>)
    requires Inv(w, s, owed, exempt + {n}) && IsReady(s.status, s.inDegree, n)
    requires Distinct(queue') && forall m :: m in queue' <==> m == n || m in s.queue
    ensures Inv(w, s.(queue := queue'), owed, exempt)
  {
    ReadyPush(s.status, s.inDegree, s.queue, exempt, n, queue');
    hide Counted, Flying, Ready, Agrees, FlightAgrees, ValidWorld, FailStop;
  }

  lemma InvPop(w: World, s: State, owed: multiset<NodeId>)
    requires Inv(w, s, owed, {}) && s.queue != []
    ensures Inv(w, s.(queue := s.queue[1..]), owed, {} + {s.queue[0]})
    ensures s.queue[0] !in s.queue[1..] && IsReady(s.status, s.inDegree, s.queue[0]) && s.queue[0] in w.nm
  {
    ReadyVerdict(w, s, owed, {}, s.queue[0]) by { ReadyPop(s.status, s.inDegree, s.queue, {}); }
    ReadyPop(s.status, s.inDegree, s.queue, {});
    hide Counted, Flying, Ready, Agrees, FlightAgrees, ValidWorld, FailStop;
  }

  ghost function Sent(s: State, c: Completion): State {
    s.(inFlight := s.inFlight - {c.id}, doneCh := s.doneCh + [c])
  }

  // A launched node sends its completion: its own outcome, or an error once the context is cancelled.
  lemma InvSend(w: World, s: State, owed: multiset<NodeId>, exempt: set<NodeId>, c: Completion)
    requires Inv(w, s, owed, exempt) && c.id in s.inFlight && c.id in w.nm
    requires c.resp == RunOutcome(w.nm[c.id], s.inFlight[c.id]) || (s.cancelled && c.resp.None?)
    ensures Inv(w, Sent(s, c), owed, exempt)
  {
    hide Counted, Flying, Ready, Agrees, FlightAgrees, ValidWorld, FailStop, RunOutcome;
    FlyingSend(w, s.status, s.inFlight, s.doneCh, c);
    if !s.tainted {
      FlightSend(w, s.inFlight, s.doneCh, s.cancelled, c);
    }
  }

  lemma FlightSend(w: World, inFlight: map<NodeId, Request>, doneCh: seq<Completion>, cancelled: bool, c: Completion)
    requires FlightAgrees(w, inFlight, doneCh, cancelled) && c.id in inFlight && c.id in w.nm
    requires c.resp == RunOutcome(w.nm[c.id], inFlight[c.id]) || (cancelled && c.resp.None?)
    ensures FlightAgrees(w, inFlight - {c.id}, doneCh + [c], cancelled)
  {
    hide ConditionHolds, RefUpstream, RefInput, RunOutcome;
    assert LaunchedWith(w, c.id, inFlight[c.id]);
    FlightMove(w, inFlight, doneCh, cancelled, inFlight - {c.id}, doneCh + [c], cancelled);
  }

  lemma InvCancel(w: World, s: State, owed: multiset<NodeId>, exempt: set<NodeId>)
    requires Inv(w, s, owed, exempt)
    ensures Inv(w, s.(cancelled := true), owed, exempt)
  {
    if !s.tainted {
      FlightMove(w, s.inFlight, s.doneCh, s.cancelled, s.inFlight, s.doneCh, true) by { hide Truthful; }
    }
    hide Counted, Flying, Ready, Agrees, FlightAgrees, ValidWorld, FailStop;
  }

  lemma HeadRunning(w: World, s: State)
    requires Inv(w, s, multiset{}, {}) && s.doneCh != []
    ensures var id := s.doneCh[0].id;
      && id in w.nm && id in s.status && s.status[id] == NodeRunning && id !in s.results && id in Unfinished(s.status)
  {
    hide ValidWorld, Ready, Agrees, FlightAgrees, Degrees, DepsSettled, FailStop;
    assert s.doneCh[0].id in Queued(s.doneCh);
    assert s.doneCh[0].id in With(s.status, NodeRunning);
  }

  // What the head of doneCh says about its node.
  lemma HeadVerdict(w: World, s: State)
    requires Inv(w, s, multiset{}, {}) && s.doneCh != []
    ensures var c := s.doneCh[0];
      && c.id in w.nm && c.id in s.status && s.status[c.id] == NodeRunning && c.id !in s.results
      && (!s.tainted ==>
          && c.id in w.ref
          && RefInput(w, c.id) == NodeInput(w.nm[c.id], w.req, UpstreamOf(w.nm[c.id].deps, s.results))
          && w.ref[c.id] == AfterRun(w.cfg, w.nm[c.id], RefInput(w, c.id), StartOutcome(w.nm[c.id], RefInput(w, c.id)))
          && (c.resp == StartOutcome(w.nm[c.id], RefInput(w, c.id)) || (s.cancelled && c.resp.None?)))
  {
    var c := s.doneCh[0];
    InvMembers(w, s, multiset{}, {});
    HeadRunning(w, s);
    assert c.id in With(s.status, NodeRunning);
    assert DepsSettled(w, s.status, c.id);
    NotSaved(w, s.status, s.inFlight, s.doneCh, c.id);
    hide Counted, Flying, Ready, Agrees, ValidWorld, FailStop, DepsSettled, AfterRun, StartOutcome, ConditionHolds;
    if !s.tainted {
      LocalView(w, s.status, s.results, c.id);
      assert Truthful(w, c, s.cancelled);
    }
  }

  // The state after the head of doneCh is received and its node settled with a verdict.
  ghost function Received(s: State, verdict: Verdict, taint: bool): State
    requires s.doneCh != []
  {
    var id := s.doneCh[0].id;
    s.(status := s.status[id := if verdict.Done? then NodeDone else NodeSkipped],
       results := if verdict.Done? then s.results[id := verdict.resp] else s.results,
       pending := s.pending - 1, doneCh := s.doneCh[1..], tainted := s.tainted || taint)
  }

  lemma InvReceive(w: World, s: State, verdict: Verdict, taint: bool)
    requires Inv(w, s, multiset{}, {}) && s.doneCh != []
    requires verdict.Done? || verdict == Skipped
    requires !s.tainted && !taint ==> s.doneCh[0].id in w.ref && w.ref[s.doneCh[0].id] == verdict
    requires taint ==> s.cancelled && !FailStop(w.cfg, w.nm)
    ensures Inv(w, Received(s, verdict, taint), multiset{} + multiset(Lookup(w.downstream, s.doneCh[0].id)), {})
  {
    hide *;
    var id := s.doneCh[0].id;
    var to := if verdict.Done? then NodeDone else NodeSkipped;
    var results := if verdict.Done? then s.results[id := verdict.resp] else s.results;
    InvParts(w, s);
    HeadRunning(w, s);
    CountedSettle(w, s.status, s.results, s.inDegree, s.pending, multiset{}, id, to, results);
    FlyingSettle(w, s.status, s.inFlight, s.doneCh, id, to);
    ReadySettleRunning(s.status, s.inDegree, s.queue, id, to);
    if !s.tainted && !taint {
      AgreesSettle(w, s.status, s.results, id, verdict);
      FlightReceive(w, s.inFlight, s.doneCh, s.cancelled);
    }
    ReceivedInv(w, s, verdict, taint, s.status[id := to], results);
  }

  lemma InvParts(w: World, s: State)
    requires Inv(w, s, multiset{}, {})
    ensures ValidWorld(w) && Counted(w, s.status, s.results, s.inDegree, s.pending, multiset{})
    ensures Flying(w, s.status, s.inFlight, s.doneCh) && Ready(s.status, s.inDegree, s.queue, {})
    ensures !s.tainted ==> Agrees(w, s.status, s.results) && FlightAgrees(w, s.inFlight, s.doneCh, s.cancelled)
    ensures s.tainted ==> s.cancelled && !FailStop(w.cfg, w.nm)
  {
    hide Counted, Flying, Ready, Agrees, FlightAgrees, ValidWorld, FailStop;
  }

  lemma ReceivedInv(w: World, s: State, verdict: Verdict, taint: bool, st: Statuses, results: Results)
    requires s.doneCh != [] && ValidWorld(w)
    requires st == s.status[s.doneCh[0].id := if verdict.Done? then NodeDone else NodeSkipped]
    requires results == if verdict.Done? then s.results[s.doneCh[0].id := verdict.resp] else s.results
    requires Counted(w, st, results, s.inDegree, s.pending - 1,
      multiset{} + multiset(Lookup(w.downstream, s.doneCh[0].id)))
    requires Flying(w, st, s.inFlight, s.doneCh[1..]) && Ready(st, s.inDegree, s.queue, {})
    requires !s.tainted && !taint ==> Agrees(w, st, results) && FlightAgrees(w, s.inFlight, s.doneCh[1..], s.cancelled)
    requires s.tainted || taint ==> s.cancelled && !FailStop(w.cfg, w.nm)
    ensures Inv(w, Received(s, verdict, taint), multiset{} + multiset(Lookup(w.downstream, s.doneCh[0].id)), {})
  {
    hide Counted, Flying, Ready, Agrees, FlightAgrees, ValidWorld, FailStop, Lookup;
  }

  lemma FlightReceive(w: World, inFlight: map<NodeId, Request>, doneCh: seq<Completion>, cancelled: bool)
    requires FlightAgrees(w, inFlight, doneCh, cancelled) && doneCh != []
    ensures FlightAgrees(w, inFlight, doneCh[1..], cancelled)
  {
    hide LaunchedWith, Truthful;
  }

  lemma ReadySettleRunning(st: Statuses, inDegree: map<NodeId, int>, queue: seq<NodeId>, n: NodeId, to: NodeStatus)
    requires Ready(st, inDegree, queue, {}) && n in st && st[n] == NodeRunning && to != NodePending
    ensures Ready(st[n := to], inDegree, queue, {})
  {
    assert !IsReady(st, inDegree, n);
    forall m
      ensures IsReady(st[n := to], inDegree, m) <==> IsReady(st, inDegree, m)
    {
    }
  }
}
