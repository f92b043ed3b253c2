// The data the orchestrator passes around: requests, responses, nodes and
// the configuration of one DAG execution.
module Types {

  type NodeId = string

  datatype Option<+T> = None | Some(value: T)

  datatype Message = Message(role: string, text: string)

  datatype Request = Request(messages: seq<Message>, sessionId: string, options: string, metadata: string)

  datatype Response = Response(messages: seq<Message>, sessionId: string, metadata: string)

  // What one call of a runner gives back: a response, a nil response, or an error.
  datatype Attempt = Returned(resp: Response) | ReturnedNil | Errored

  // The map handed to conditions and input mappers. A dependency without a
  // result (it was skipped) is present with the value None.
  type Upstream = map<NodeId, Option<Response>>

  // The Compensatable interface: Undo on the k-th attempt succeeds or not.
  datatype Compensator = Compensator(undo: (Response, nat) -> bool, idempotent: bool)

  // Runners, conditions and mappers are arbitrary functions. The second
  // argument of `run` numbers the attempts, so a runner may fail and then succeed.
  datatype Node = Node(
    id: NodeId,
    deps: seq<NodeId>,
    run: (Request, nat) -> Attempt,
    mapper: Option<Upstream -> Option<Request>>,
    condition: Option<Upstream -> bool>,
    optional: bool,
    retries: int,
    priority: int,
    undo: Option<Compensator>)

  datatype NodeStatus = NodePending | NodeRunning | NodeDone | NodeFailed | NodeSkipped | NodeCompensated

  datatype ErrorStrategy = Abort | Skip | Compensate

  datatype CompensateStrategy = BackwardCompensate | ForwardRecovery

  datatype CompensateConfig = CompensateConfig(strategy: CompensateStrategy, maxRetries: int)

  datatype Config = Config(
    maxConcurrency: int,
    errorStrategy: ErrorStrategy,
    compensate: Option<CompensateConfig>,
    earlyExit: Option<(NodeId, Response) -> bool>,
    aggregator: Option<map<NodeId, Response> -> Option<Response>>,
    replayMode: bool,
    priorityScheduling: bool,
    criticalPathAuto: bool)

  ghost predicate Distinct<T(!new)>(s: seq<T>) {
    forall i, j :: 0 <= i < j < |s| ==> s[i] != s[j]
  }

  ghost function Elements<T>(s: seq<T>): set<T> {
    set x | x in s
  }

  lemma {:induction false} DistinctSize<T(!new)>(s: seq<T>)
    requires Distinct(s)
    ensures |Elements(s)| == |s|
  {
    if s == [] {
      assert Elements(s) == {};
    } else {
      var n := |s| - 1;
      DistinctSize(s[..n]);
      assert s == s[..n] + [s[n]];
      assert Elements(s) == Elements(s[..n]) + {s[n]};
    }
  }

  lemma CountedTwice<T>(s: seq<T>, i: nat, j: nat)
    requires i < j < |s| && s[i] == s[j]
    ensures multiset(s)[s[i]] >= 2
  {
    assert s == s[..j] + [s[j]] + s[j + 1..];
    assert s[i] in s[..j];
  }

  lemma SubsetSize<T>(a: set<T>, b: set<T>)
    requires a <= b
    ensures |a| <= |b|
    ensures |a| == |b| ==> a == b
  {
    assert b == a + (b - a);
    assert |b| == |a| + |b - a|;
  }
}
