// What an error caused by a cancelled context, and not by the node itself, can do to a
// run that goes on: the executor treats it like any other failure of the node
// (orchestrate/dag.go), so a node whose failures are absorbed gets a wrong verdict.
module Cancellation {
  import opened Types
  import Graph
  import Topo
  import opened Semantics
  import opened EngineState
  import DagRun

  // A node launched with this request and runner whose completion is replaced by an
  // error: the run ends, or the node's verdict is the one of its own completion.
  ghost predicate Harmless(cfg: Config, node: Node, run: (Request, nat) -> Attempt, request: Request) {
    var n := node.(run := run);
    OnFailure(cfg, n, Some(request)) == Fails
    || OnFailure(cfg, n, Some(request)) == AfterRun(cfg, n, Some(request), RunOutcome(n, request))
  }

  // A configuration is fail-stop exactly when no such error can change the verdict on a
  // launched node, whatever its runner does.
  lemma FailStopIff(cfg: Config, nm: NodeMap)
    ensures FailStop(cfg, nm) <==> forall n, run, request :: n in nm ==> Harmless(cfg, nm[n], run, request)
  {
    if FailStop(cfg, nm) {
      forall n, run, request | n in nm
        ensures Harmless(cfg, nm[n], run, request)
      {
        NotAbsorbedFails(cfg, nm[n].(run := run), Some(request)) by {
          assert !Absorbs(cfg, nm[n]);
        }
      }
    } else {
      var n :| n in nm && Absorbs(cfg, nm[n]);
      var run, request := AbsorbingDeviates(cfg, nm[n]);
      assert !Harmless(cfg, nm[n], run, request);
    }
  }

  lemma NotAbsorbedFails(cfg: Config, node: Node, input: Option<Request>)
    requires !Absorbs(cfg, node)
    ensures OnFailure(cfg, node, input) == Fails
  {
  }

  // Answers its first attempt differently from all later ones.
  function FirstAndLater(request: Request, k: nat): Attempt {
    Returned(Response(request.messages, if k == 0 then "first" else "later", ""))
  }

  // For every absorbing node some runner makes the difference: skipped instead of done,
  // or recovered by a later attempt with another response.
  lemma AbsorbingDeviates(cfg: Config, node: Node) returns (run: (Request, nat) -> Attempt, request: Request)
    requires Absorbs(cfg, node)
    ensures !Harmless(cfg, node, run, request)
  {
    run := FirstAndLater;
    request := Request([], "", "", "");
    var n := node.(run := run);
    assert run(request, 0) == Returned(Response([], "first", ""));
    assert RunOutcome(n, request) == Some(Response([], "first", ""));
    if Compensates(cfg) {
      var later := MaxAttempts(n.retries);
      assert run(request, later) == Returned(Response([], "later", ""));
      assert RecoveryOutcome(cfg.compensate.value, n, request) == Some(Response([], "later", ""));
      assert "first" != "later" by {
        assert "first"[0] != "later"[0];
      }
    }
  }

  // ----- a run that deviates -----

  // The node on its own, always launched, with a runner that succeeds.
  function Solo(node: Node): Node {
    node.(deps := [], condition := None, mapper := None, run := FirstAndLater)
  }

  ghost function SoloWorld(cfg: Config, node: Node, req: Request): World {
    var nm := map[node.id := Solo(node)];
    World(cfg, nm, req, map[], map[], Sequential(cfg, nm, req, map[], [node.id]))
  }

  ghost function SoloStart(id: NodeId): State {
    State(map[id := NodePending], map[], map[id := 0], 1, map[], [], [], false, false)
  }

  lemma SoloOrder(node: Node)
    ensures Graph.TopoOrder(DepsOf(map[node.id := Solo(node)]), [node.id])
  {
    var g := DepsOf(map[node.id := Solo(node)]);
    assert g == map[node.id := []];
    assert forall n :: n in g ==> n in [node.id];
  }

  lemma SoloValid(cfg: Config, node: Node, req: Request)
    ensures ValidWorld(SoloWorld(cfg, node, req))
    ensures Inv(SoloWorld(cfg, node, req), SoloStart(node.id), multiset{}, {node.id})
  {
    var w, s := SoloWorld(cfg, node, req), SoloStart(node.id);
    SoloOrder(node);
    SequentialSolves(cfg, w.nm, req, map[], [node.id]);
    Graph.TopoOrderIsAcyclic(DepsOf(w.nm), [node.id]);
    assert DepsOf(w.nm) == map[node.id := []];
    hide Sequential, Graph.Cyclic, Solves, Graph.TopoOrder;
    assert w.nm.Keys == {node.id};
    assert With(s.status, NodePending) == {node.id} && With(s.status, NodeDone) == {};
    assert DagRun.Restrict(map[], w.nm) == map[];
    DagRun.InitialInv(w, s, map[]);
  }

  // Undisturbed, the node is done with its first response.
  lemma SoloReference(cfg: Config, node: Node, req: Request)
    ensures var w := SoloWorld(cfg, node, req);
      && w.ref == map[node.id := Done(Response(req.messages, "first", ""))]
      && NodeInput(Solo(node), req, UpstreamOf([], map[])) == Some(req)
      && RunOutcome(Solo(node), req) == Some(Response(req.messages, "first", ""))
  {
    var w, n := SoloWorld(cfg, node, req), Solo(node);
    assert n.run(req, 0) == Returned(Response(req.messages, "first", ""));
    assert NodeVerdict(cfg, n, req, UpVerdicts([], map[])) == Done(Response(req.messages, "first", ""));
    assert LocalVerdict(cfg, n, req, map[]) == Done(Response(req.messages, "first", ""));
    assert [node.id][..0] == [];
    assert Sequential(cfg, w.nm, req, map[], []) == map[];
    assert VerdictOn(cfg, w.nm, req, map[], map[], node.id) == Done(Response(req.messages, "first", ""));
  }

  // A whole run of the engine that completes with something else than its reference: the
  // node is launched, the caller cancels, the node sends an error, and the error is
  // absorbed. So with any absorbing node in a configuration a cancellation can deviate.
  lemma AbsorbedRunDeviates(cfg: Config, node: Node, req: Request)
    returns (verdict: Verdict, s1: State, s2: State, s3: State, s4: State)
    requires Absorbs(cfg, node)
    ensures verdict == OnFailure(cfg, Solo(node), Some(req))
    ensures s1 == Launched(SoloStart(node.id), node.id, req) && s2 == s1.(cancelled := true)
    ensures s3 == Sent(s2, Completion(node.id, None)) && s4 == Received(s3, verdict, true)
    ensures var w := SoloWorld(cfg, node, req);
      && Inv(w, SoloStart(node.id), multiset{}, {node.id}) && Inv(w, s1, multiset{}, {}) && Inv(w, s2, multiset{}, {})
      && Inv(w, s3, multiset{}, {}) && Inv(w, s4, multiset{}, {})
      && s4.pending == 0 && s4.inFlight == map[] && s4.doneCh == []
      && w.ref[node.id].Done? && (s4.status[node.id] == NodeSkipped || s4.results[node.id] != w.ref[node.id].resp)
  {
    hide Inv, OnFailure, NodeInput, RunOutcome, FirstAndLater, Sequential, FailStop;
    var w, s0, c := SoloWorld(cfg, node, req), SoloStart(node.id), Completion(node.id, None);
    SoloValid(cfg, node, req);
    SoloReference(cfg, node, req);
    verdict := AbsorbedVerdict(cfg, node, req);
    s1 := Launched(s0, node.id, req);
    assert {} + {node.id} == {node.id};
    InvLaunch(w, s0, multiset{}, {}, node.id, req);
    s2 := s1.(cancelled := true);
    InvCancel(w, s1, multiset{}, {});
    s3 := Sent(s2, c);
    InvSend(w, s2, multiset{}, {}, c);
    s4 := Received(s3, verdict, true);
    InvReceive(w, s3, verdict, true);
    assert multiset{} + multiset(Topo.Lookup(w.downstream, node.id)) == multiset{};
  }

  lemma AbsorbedVerdict(cfg: Config, node: Node, req: Request) returns (verdict: Verdict)
    requires Absorbs(cfg, node)
    ensures verdict == OnFailure(cfg, Solo(node), Some(req))
    ensures verdict == Skipped || verdict == Done(Response(req.messages, "later", ""))
    ensures !FailStop(cfg, map[node.id := Solo(node)]) && "first" != "later"
  {
    var n := Solo(node);
    verdict := OnFailure(cfg, n, Some(req));
    assert "first"[0] != "later"[0];
    assert Absorbs(cfg, map[node.id := n][node.id]);
    if Compensates(cfg) {
      var later := MaxAttempts(n.retries);
      assert n.run(req, later) == Returned(Response(req.messages, "later", ""));
      assert RecoveryOutcome(cfg.compensate.value, n, req) == Some(Response(req.messages, "later", ""));
    }
  }
}
