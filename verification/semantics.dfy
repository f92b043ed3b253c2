// What a DAG means, independent of scheduling: the input of a node, the verdict
// on a node given its dependencies, and the sequential evaluation of a graph.
module Semantics {
  import opened Types
  import opened Graph

  type NodeMap = map<NodeId, Node>

  ghost function DepsOf(nm: NodeMap): Deps {
    map n | n in nm :: nm[n].deps
  }

  // The results of the dependencies as conditions and mappers see them.
  function UpstreamOf(deps: seq<NodeId>, results: map<NodeId, Response>): Upstream {
    map d | d in deps :: if d in results then Some(results[d]) else None
  }

  function DepMessages(deps: seq<NodeId>, up: Upstream): seq<Message>
    requires forall d :: d in deps ==> d in up
  {
    if deps == [] then []
    else
      var last := |deps| - 1;
      DepMessages(deps[..last], up) + if up[deps[last]].Some? then up[deps[last]].value.messages else []
  }

  // buildNodeInput; None stands for a mapper error.
  function NodeInput(node: Node, req: Request, up: Upstream): Option<Request>
    requires forall d :: d in node.deps ==> d in up
  {
    if node.mapper.Some? then node.mapper.value(up)
    else if |node.deps| == 0 then Some(req)
    else if |node.deps| == 1 && up[node.deps[0]].None? then Some(req)
    else Some(Request(DepMessages(node.deps, up), req.sessionId, req.options, req.metadata))
  }

  // The response of the first successful attempt among `count` attempts starting at number `from`.
  function FirstSuccess(node: Node, request: Request, from: nat, count: nat): Option<Response>
    decreases count
  {
    if count == 0 then None
    else
      match node.run(request, from)
      case Returned(resp) => Some(resp)
      case _ => FirstSuccess(node, request, from + 1, count - 1)
  }

  function MaxAttempts(retries: int): nat {
    if retries + 1 <= 0 then 1 else retries + 1
  }

  // What a launched node reports: a response, or None after the last failed attempt.
  function RunOutcome(node: Node, request: Request): Option<Response> {
    FirstSuccess(node, request, 0, MaxAttempts(node.retries))
  }

  function RecoveryOutcome(cc: CompensateConfig, node: Node, request: Request): Option<Response> {
    FirstSuccess(node, request, MaxAttempts(node.retries), MaxAttempts(cc.maxRetries))
  }

  // Fails ends the whole run. Blocked nodes lie downstream of a failing one and never start.
  datatype Verdict = Done(resp: Response) | Skipped | Fails | Blocked

  predicate Compensates(cfg: Config) {
    cfg.errorStrategy == Compensate && cfg.compensate.Some?
  }

  function OnFailure(cfg: Config, node: Node, input: Option<Request>): Verdict {
    if Compensates(cfg) then
      if cfg.compensate.value.strategy == ForwardRecovery && input.Some?
         && RecoveryOutcome(cfg.compensate.value, node, input.value).Some?
      then Done(RecoveryOutcome(cfg.compensate.value, node, input.value).value)
      else Fails
    else if cfg.errorStrategy == Abort || !node.optional then Fails
    else Skipped
  }

  function AfterRun(cfg: Config, node: Node, input: Option<Request>, outcome: Option<Response>): Verdict {
    if outcome.Some? then Done(outcome.value) else OnFailure(cfg, node, input)
  }

  function ConditionHolds(node: Node, up: Upstream): bool {
    node.condition.Some? ==> node.condition.value(up)
  }

  // The completion of a node that is started: no outcome when its input cannot be built.
  function StartOutcome(node: Node, input: Option<Request>): Option<Response> {
    if input.None? then None else RunOutcome(node, input.value)
  }

  function NodeVerdict(cfg: Config, node: Node, req: Request, up: Upstream): Verdict
    requires forall d :: d in node.deps ==> d in up
  {
    if !ConditionHolds(node, up) then Skipped
    else
      var input := NodeInput(node, req, up);
      AfterRun(cfg, node, input, StartOutcome(node, input))
  }

  // ----- verdicts on a whole graph -----

  type Verdicts = map<NodeId, Verdict>

  predicate Resolved(ref: Verdicts, d: NodeId) {
    d in ref && (ref[d].Done? || ref[d].Skipped?)
  }

  function UpVerdicts(deps: seq<NodeId>, ref: Verdicts): Upstream {
    map d | d in deps :: if d in ref && ref[d].Done? then Some(ref[d].resp) else None
  }

  function LocalVerdict(cfg: Config, node: Node, req: Request, ref: Verdicts): Verdict {
    if forall d :: d in node.deps ==> Resolved(ref, d)
    then NodeVerdict(cfg, node, req, UpVerdicts(node.deps, ref))
    else Blocked
  }

  // The verdict on n in a run that starts with the saved results: a saved node is
  // done, whatever its dependencies; the others follow from their dependencies.
  function VerdictOn(cfg: Config, nm: NodeMap, req: Request, saved: map<NodeId, Response>, ref: Verdicts,
                     n: NodeId): Verdict
    requires n in nm
  {
    if n in saved then Done(saved[n]) else LocalVerdict(cfg, nm[n], req, ref)
  }

  // ref gives every node the verdict that the saved results and its dependencies entail.
  ghost predicate Solves(cfg: Config, nm: NodeMap, req: Request, saved: map<NodeId, Response>, ref: Verdicts) {
    && ref.Keys == nm.Keys
    && forall n :: n in nm ==> ref[n] == VerdictOn(cfg, nm, req, saved, ref, n)
  }

  // The reference: evaluate the nodes one after the other.
  function Sequential(cfg: Config, nm: NodeMap, req: Request, saved: map<NodeId, Response>,
                      order: seq<NodeId>): Verdicts
    requires forall n :: n in order ==> n in nm
  {
    if order == [] then map[]
    else
      var last := |order| - 1;
      var ref := Sequential(cfg, nm, req, saved, order[..last]);
      ref[order[last] := VerdictOn(cfg, nm, req, saved, ref, order[last])]
  }

  lemma VerdictCongruent(cfg: Config, nm: NodeMap, req: Request, saved: map<NodeId, Response>, a: Verdicts, b: Verdicts,
                         n: NodeId)
    requires n in nm && forall d :: d in nm[n].deps ==> d in a && d in b && a[d] == b[d]
    ensures VerdictOn(cfg, nm, req, saved, a, n) == VerdictOn(cfg, nm, req, saved, b, n)
  {
    LocalVerdictCongruent(cfg, nm[n], req, a, b);
  }

  lemma LocalVerdictCongruent(cfg: Config, node: Node, req: Request, a: Verdicts, b: Verdicts)
    requires forall d :: d in node.deps ==> d in a && d in b && a[d] == b[d]
    ensures LocalVerdict(cfg, node, req, a) == LocalVerdict(cfg, node, req, b)
  {
    assert UpVerdicts(node.deps, a) == UpVerdicts(node.deps, b);
    assert forall d :: d in node.deps ==> (Resolved(a, d) <==> Resolved(b, d));
  }

  lemma {:induction false} SequentialSolvesPrefix(cfg: Config, nm: NodeMap, req: Request, saved: map<NodeId, Response>,
                                                  order: seq<NodeId>)
    requires TopoPrefix(DepsOf(nm), order)
    ensures var ref := Sequential(cfg, nm, req, saved, order);
            ref.Keys == Elements(order) && forall n :: n in order ==> ref[n] == VerdictOn(cfg, nm, req, saved, ref, n)
  {
    hide VerdictOn;
    if order != [] {
      var last := |order| - 1;
      var id := order[last];
      TopoPrefixShorter(DepsOf(nm), order, last);
      assert order == order[..last] + [id];
      var before := Sequential(cfg, nm, req, saved, order[..last]);
      var ref := Sequential(cfg, nm, req, saved, order);
      SequentialSolvesPrefix(cfg, nm, req, saved, order[..last]);
      assert order[last] !in order[..last];
      forall n | n in order
        ensures ref[n] == VerdictOn(cfg, nm, req, saved, ref, n)
      {
        DepsInPrefix(nm, order, last, n);
        VerdictCongruent(cfg, nm, req, saved, before, ref, n);
      }
    }
  }

  lemma TopoPrefixShorter(g: Deps, order: seq<NodeId>, k: nat)
    requires TopoPrefix(g, order) && k <= |order|
    ensures TopoPrefix(g, order[..k])
  {
    assert forall i :: 0 <= i < k ==> order[..k][..i] == order[..i];
  }

  // The dependencies of order[last], and of every node before it, come before order[last].
  lemma DepsInPrefix(nm: NodeMap, order: seq<NodeId>, last: nat, n: NodeId)
    requires TopoPrefix(DepsOf(nm), order) && last == |order| - 1 && n in order
    ensures forall d :: d in nm[n].deps ==> d in order[..last]
  {
    var i := IndexOf(order, n);
    EarlierDeps(nm, order, i);
    forall d | d in nm[n].deps
      ensures d in order[..last]
    {
      var j :| 0 <= j < i && order[j] == d;
      assert order[..last][j] == d;
    }
  }

  lemma EarlierDeps(nm: NodeMap, order: seq<NodeId>, k: nat)
    requires TopoPrefix(DepsOf(nm), order) && k < |order|
    ensures order[k] in nm
    ensures forall d :: d in nm[order[k]].deps ==> d in nm && exists j :: 0 <= j < k && order[j] == d
  {
    assert order[k] in order;
    assert order[k] in DepsOf(nm);
    forall d | d in nm[order[k]].deps
      ensures d in nm && exists j :: 0 <= j < k && order[j] == d
    {
      assert d in DepsOf(nm)[order[k]];
      assert d in order[..k];
      var j :| 0 <= j < k && order[..k][j] == d;
      assert order[j] in DepsOf(nm);
    }
  }

  // The sequential evaluation in a topological order solves the equations ...
  lemma SequentialSolves(cfg: Config, nm: NodeMap, req: Request, saved: map<NodeId, Response>, order: seq<NodeId>)
    requires TopoOrder(DepsOf(nm), order)
    ensures Solves(cfg, nm, req, saved, Sequential(cfg, nm, req, saved, order))
  {
    SequentialSolvesPrefix(cfg, nm, req, saved, order);
  }

  // ... and an acyclic graph has one solution only.
  lemma {:induction false} SolutionsAgree(cfg: Config, nm: NodeMap, req: Request, saved: map<NodeId, Response>,
                                          order: seq<NodeId>, a: Verdicts, b: Verdicts, k: nat)
    requires TopoPrefix(DepsOf(nm), order) && k <= |order|
    requires Solves(cfg, nm, req, saved, a) && Solves(cfg, nm, req, saved, b)
    ensures forall i :: 0 <= i < k ==> order[i] in nm && a[order[i]] == b[order[i]]
  {
    hide VerdictOn, TopoPrefix;
    if k > 0 {
      SolutionsAgree(cfg, nm, req, saved, order, a, b, k - 1);
      EarlierDeps(nm, order, k - 1);
      var n := order[k - 1];
      forall d | d in nm[n].deps
        ensures d in nm && a[d] == b[d]
      {
        var j :| 0 <= j < k - 1 && order[j] == d;
      }
      VerdictCongruent(cfg, nm, req, saved, a, b, n);
    }
  }

  lemma SolutionUnique(cfg: Config, nm: NodeMap, req: Request, saved: map<NodeId, Response>, order: seq<NodeId>,
                       a: Verdicts, b: Verdicts)
    requires TopoOrder(DepsOf(nm), order)
    requires Solves(cfg, nm, req, saved, a) && Solves(cfg, nm, req, saved, b)
    ensures a == b
  {
    hide VerdictOn;
    SolutionsAgree(cfg, nm, req, saved, order, a, b, |order|);
    forall n | n in nm
      ensures a[n] == b[n]
    {
      assert n in DepsOf(nm);
      assert n in order;
    }
  }

  // Every topological order evaluates the graph to the same verdicts.
  lemma OrderIndependent(cfg: Config, nm: NodeMap, req: Request, saved: map<NodeId, Response>,
                         o1: seq<NodeId>, o2: seq<NodeId>)
    requires TopoOrder(DepsOf(nm), o1) && TopoOrder(DepsOf(nm), o2)
    ensures Sequential(cfg, nm, req, saved, o1) == Sequential(cfg, nm, req, saved, o2)
  {
    SequentialSolves(cfg, nm, req, saved, o1);
    SequentialSolves(cfg, nm, req, saved, o2);
    SolutionUnique(cfg, nm, req, saved, o1, Sequential(cfg, nm, req, saved, o1), Sequential(cfg, nm, req, saved, o2));
  }

  // Starting over with more saved results, all of them results of the run they
  // were saved in, changes no verdict, whichever of them were saved.
  lemma ResumeTransparent(cfg: Config, nm: NodeMap, req: Request, before: map<NodeId, Response>,
                          saved: map<NodeId, Response>, order: seq<NodeId>)
    requires TopoOrder(DepsOf(nm), order)
    requires forall n :: n in before && n in nm ==> n in saved
    requires var full := Sequential(cfg, nm, req, before, order);
             forall n :: n in saved && n in full ==> full[n] == Done(saved[n])
    ensures Sequential(cfg, nm, req, saved, order) == Sequential(cfg, nm, req, before, order)
  {
    hide LocalVerdict;
    var full := Sequential(cfg, nm, req, before, order);
    SequentialSolves(cfg, nm, req, before, order);
    SequentialSolves(cfg, nm, req, saved, order);
    assert Solves(cfg, nm, req, saved, full);
    SolutionUnique(cfg, nm, req, saved, order, full, Sequential(cfg, nm, req, saved, order));
  }

  // ----- priorities do not matter -----

  ghost predicate SameButPriority(a: NodeMap, b: NodeMap) {
    a.Keys == b.Keys && forall n :: n in a ==> b[n] == a[n].(priority := b[n].priority)
  }

  lemma {:induction false} FirstSuccessPriority(node: Node, p: int, request: Request, from: nat, count: nat)
    ensures FirstSuccess(node.(priority := p), request, from, count) == FirstSuccess(node, request, from, count)
    decreases count
  {
    if count > 0 {
      FirstSuccessPriority(node, p, request, from + 1, count - 1);
    }
  }

  lemma NodeVerdictPriority(cfg: Config, node: Node, p: int, req: Request, up: Upstream)
    requires forall d :: d in node.deps ==> d in up
    ensures NodeVerdict(cfg, node.(priority := p), req, up) == NodeVerdict(cfg, node, req, up)
  {
    var input := NodeInput(node, req, up);
    if input.Some? {
      FirstSuccessPriority(node, p, input.value, 0, MaxAttempts(node.retries));
      if Compensates(cfg) {
        FirstSuccessPriority(node, p, input.value, MaxAttempts(node.retries),
          MaxAttempts(cfg.compensate.value.maxRetries));
      }
    }
  }

  // Reassigning priorities, as the critical-path mode does, changes no verdict.
  lemma {:induction false} SequentialPriority(cfg: Config, a: NodeMap, b: NodeMap, req: Request,
                                              saved: map<NodeId, Response>, order: seq<NodeId>)
    requires SameButPriority(a, b) && forall n :: n in order ==> n in a
    ensures Sequential(cfg, a, req, saved, order) == Sequential(cfg, b, req, saved, order)
  {
    if order != [] {
      var last := |order| - 1;
      SequentialPriority(cfg, a, b, req, saved, order[..last]);
      var ref := Sequential(cfg, a, req, saved, order[..last]);
      NodeVerdictPriority(cfg, a[order[last]], b[order[last]].priority, req, UpVerdicts(a[order[last]].deps, ref));
    }
  }

  // ----- neither do concurrency limits and scheduling modes -----

  // The two configurations differ at most in how many nodes run at a time, in which
  // order they are launched, and in the replay mode.
  ghost predicate SameButScheduling(a: Config, b: Config) {
    b == a.(maxConcurrency := b.maxConcurrency, priorityScheduling := b.priorityScheduling,
            criticalPathAuto := b.criticalPathAuto, replayMode := b.replayMode)
  }

  lemma {:induction false} SequentialScheduling(a: Config, b: Config, nm: NodeMap, req: Request,
                                                saved: map<NodeId, Response>, order: seq<NodeId>)
    requires SameButScheduling(a, b) && forall n :: n in order ==> n in nm
    ensures Sequential(a, nm, req, saved, order) == Sequential(b, nm, req, saved, order)
  {
    if order != [] {
      var last := |order| - 1;
      SequentialScheduling(a, b, nm, req, saved, order[..last]);
      var ref, node := Sequential(a, nm, req, saved, order[..last]), nm[order[last]];
      if forall d :: d in node.deps ==> Resolved(ref, d) {
        assert NodeVerdict(a, node, req, UpVerdicts(node.deps, ref)) ==
               NodeVerdict(b, node, req, UpVerdicts(node.deps, ref));
      }
    }
  }
}
