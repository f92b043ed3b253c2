// What the reference evaluation means for a node, said of its dependencies, its
// condition, its mapper and its attempts alone.
module Meaning {
  import opened Types
  import opened Graph
  import opened Semantics

  // Attempt number k of a runner is the first success among those numbered from..from+count-1.
  ghost predicate FirstAt(node: Node, request: Request, from: nat, count: nat, k: nat) {
    && from <= k < from + count && node.run(request, k).Returned?
    && forall j :: from <= j < k ==> !node.run(request, j).Returned?
  }

  ghost predicate NoneSucceeds(node: Node, request: Request, from: nat, count: nat) {
    forall k :: from <= k < from + count ==> !node.run(request, k).Returned?
  }

  // max(retries + 1, 1)
  ghost function Tries(retries: int): nat {
    if retries > 0 then retries + 1 else 1
  }

  lemma {:induction false} FirstSuccessMeans(node: Node, request: Request, from: nat, count: nat)
    ensures FirstSuccess(node, request, from, count).None? <==> NoneSucceeds(node, request, from, count)
    ensures FirstSuccess(node, request, from, count).Some? ==>
      exists k :: FirstAt(node, request, from, count, k)
                  && node.run(request, k).resp == FirstSuccess(node, request, from, count).value
    decreases count
  {
    if count > 0 {
      if node.run(request, from).Returned? {
        assert FirstAt(node, request, from, count, from);
      } else {
        FirstSuccessMeans(node, request, from + 1, count - 1);
        if FirstSuccess(node, request, from, count).Some? {
          var k :| FirstAt(node, request, from + 1, count - 1, k)
                   && node.run(request, k).resp == FirstSuccess(node, request, from, count).value;
          assert FirstAt(node, request, from, count, k);
        }
      }
    }
  }

  // The messages are those of the dependencies one after the other, in their order: the
  // k-th dependency's lie between the k-th and the next cut.
  ghost predicate Joined(messages: seq<Message>, deps: seq<NodeId>, up: Upstream, cuts: seq<nat>)
    requires forall d :: d in deps ==> d in up
  {
    && |cuts| == |deps| + 1 && cuts[0] == 0 && cuts[|deps|] == |messages|
    && forall j, k :: 0 <= j < |deps| && k == j + 1 ==>
      && cuts[j] <= cuts[k] <= |messages|
      && messages[cuts[j]..cuts[k]] == if up[deps[j]].Some? then up[deps[j]].value.messages else []
  }

  lemma JoinedNext(messages: seq<Message>, deps: seq<NodeId>, n: nat, up: Upstream, cuts: seq<nat>, next: seq<Message>)
    requires n < |deps| && (forall d :: d in deps ==> d in up) && Joined(messages, deps[..n], up, cuts)
    requires next == messages + if up[deps[n]].Some? then up[deps[n]].value.messages else []
    ensures Joined(next, deps[..n + 1], up, cuts + [|next|])
  {
    var longer := cuts + [|next|];
    forall j, k | 0 <= j < n + 1 && k == j + 1
      ensures longer[j] <= longer[k] <= |next|
      ensures next[longer[j]..longer[k]] ==
        if up[deps[..n + 1][j]].Some? then up[deps[..n + 1][j]].value.messages else []
    {
      if j < n {
        assert cuts[j] <= cuts[k] <= |messages|;
        assert deps[..n][j] == deps[j];
        assert next[longer[j]..longer[k]] == messages[cuts[j]..cuts[k]];
      } else {
        assert next[|messages|..] == next[longer[j]..longer[k]];
      }
    }
  }

  lemma {:induction false} DepMessagesJoin(deps: seq<NodeId>, n: nat, up: Upstream) returns (cuts: seq<nat>)
    requires n <= |deps| && forall d :: d in deps ==> d in up
    ensures Joined(DepMessages(deps[..n], up), deps[..n], up, cuts)
  {
    if n == 0 {
      cuts := [0];
    } else {
      cuts := DepMessagesJoin(deps, n - 1, up);
      assert deps[..n][..n - 1] == deps[..n - 1];
      JoinedNext(DepMessages(deps[..n - 1], up), deps, n - 1, up, cuts, DepMessages(deps[..n], up));
      cuts := cuts + [|DepMessages(deps[..n], up)|];
    }
  }

  // The input of a node: its mapper's; or the original request without a dependency, or
  // with a single one that has no result; or else the dependencies' messages in the order
  // of declaration, under the original session, options and metadata.
  ghost predicate InputIs(node: Node, req: Request, up: Upstream, input: Option<Request>)
    requires forall d :: d in node.deps ==> d in up
  {
    if node.mapper.Some? then input == node.mapper.value(up)
    else if |node.deps| == 0 || (|node.deps| == 1 && up[node.deps[0]].None?) then input == Some(req)
    else
      && input.Some? && input.value.sessionId == req.sessionId
      && input.value.options == req.options && input.value.metadata == req.metadata
      && exists cuts :: Joined(input.value.messages, node.deps, up, cuts)
  }

  lemma NodeInputMeans(node: Node, req: Request, up: Upstream)
    requires forall d :: d in node.deps ==> d in up
    ensures InputIs(node, req, up, NodeInput(node, req, up))
  {
    assert node.deps[..|node.deps|] == node.deps;
    var cuts := DepMessagesJoin(node.deps, |node.deps|, up);
  }

  // With its condition true and this input, the node gets this verdict: done with the
  // first success of its own attempts; failing those, done with the first success of the
  // recovery attempts that follow, if there is forward recovery; failing those, skipped
  // if it is optional and failures neither abort nor compensate.
  ghost predicate OutcomeIs(cfg: Config, node: Node, input: Option<Request>, v: Verdict) {
    var own, saga := Tries(node.retries), cfg.errorStrategy == Compensate && cfg.compensate.Some?;
    if input.Some? && !NoneSucceeds(node, input.value, 0, own) then
      exists k :: FirstAt(node, input.value, 0, own, k) && v == Done(node.run(input.value, k).resp)
    else if saga && cfg.compensate.value.strategy == ForwardRecovery && input.Some?
            && !NoneSucceeds(node, input.value, own, Tries(cfg.compensate.value.maxRetries)) then
      exists k :: FirstAt(node, input.value, own, Tries(cfg.compensate.value.maxRetries), k)
                  && v == Done(node.run(input.value, k).resp)
    else if saga || cfg.errorStrategy == Abort || !node.optional then v == Fails
    else v == Skipped
  }

  lemma AfterRunMeans(cfg: Config, node: Node, input: Option<Request>)
    ensures OutcomeIs(cfg, node, input, AfterRun(cfg, node, input, StartOutcome(node, input)))
  {
    if input.Some? {
      FirstSuccessMeans(node, input.value, 0, MaxAttempts(node.retries));
      if cfg.compensate.Some? {
        FirstSuccessMeans(node, input.value, MaxAttempts(node.retries), MaxAttempts(cfg.compensate.value.maxRetries));
      }
    }
  }

  // The node has no condition, or it is true of what is recorded of its dependencies.
  ghost predicate Runs(node: Node, results: map<NodeId, Response>) {
    node.condition.None?
    || node.condition.value(map d | d in node.deps :: if d in results then Some(results[d]) else None)
  }

  lemma ConditionMeans(node: Node, results: map<NodeId, Response>)
    ensures ConditionHolds(node, UpstreamOf(node.deps, results)) <==> Runs(node, results)
  {
    assert UpstreamOf(node.deps, results) == map d | d in node.deps :: if d in results then Some(results[d]) else None;
  }

  // The verdict on every node of a graph, whatever ref solves its equations.
  lemma VerdictMeans(cfg: Config, nm: NodeMap, req: Request, saved: map<NodeId, Response>, ref: Verdicts, n: NodeId)
    requires Solves(cfg, nm, req, saved, ref) && n in nm
    ensures n in saved ==> ref[n] == Done(saved[n])
    ensures n !in saved && (exists d :: d in nm[n].deps && (d !in ref || ref[d].Fails? || ref[d].Blocked?)) ==>
      ref[n] == Blocked
    ensures n !in saved && (forall d :: d in nm[n].deps ==> d in ref && (ref[d].Done? || ref[d].Skipped?)) ==>
      var up := map d | d in nm[n].deps :: if ref[d].Done? then Some(ref[d].resp) else None;
      if nm[n].condition.Some? && !nm[n].condition.value(up) then ref[n] == Skipped
      else exists input :: InputIs(nm[n], req, up, input) && OutcomeIs(cfg, nm[n], input, ref[n])
  {
    assert ref[n] == VerdictOn(cfg, nm, req, saved, ref, n);
    var deps := nm[n].deps;
    if n !in saved && forall d :: d in deps ==> d in ref && (ref[d].Done? || ref[d].Skipped?) {
      var up := map d | d in deps :: if ref[d].Done? then Some(ref[d].resp) else None;
      assert up == UpVerdicts(deps, ref);
      var input := NodeInput(nm[n], req, up);
      NodeInputMeans(nm[n], req, up);
      AfterRunMeans(cfg, nm[n], input);
      hide OutcomeIs, InputIs, NodeInput, AfterRun, StartOutcome;
      assert ref[n] == NodeVerdict(cfg, nm[n], req, up);
    }
  }

  // A node whose condition is false is skipped, and one whose condition is true is
  // skipped only if it is optional.
  lemma ConditionDecides(cfg: Config, nm: NodeMap, req: Request, saved: map<NodeId, Response>, ref: Verdicts, n: NodeId)
    requires Solves(cfg, nm, req, saved, ref) && n in nm && n !in saved
    requires forall d :: d in nm[n].deps ==> d in ref && (ref[d].Done? || ref[d].Skipped?)
    ensures var up := map d | d in nm[n].deps :: if ref[d].Done? then Some(ref[d].resp) else None;
      && (nm[n].condition.Some? && !nm[n].condition.value(up) ==> ref[n] == Skipped)
      && ((nm[n].condition.None? || nm[n].condition.value(up)) && !nm[n].optional ==> ref[n] != Skipped)
  {
    VerdictMeans(cfg, nm, req, saved, ref, n);
    hide InputIs, NoneSucceeds, FirstAt;
  }
}
