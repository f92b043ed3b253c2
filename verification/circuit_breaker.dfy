// The three-state circuit breaker under concurrent calls and late results
// (largemodel/circuitbreaker.go).
module CircuitBreaker {
  datatype Phase = Closed | Open | HalfOpen

  datatype State = State(phase: Phase, failureCount: int, lastFailureAt: int, probeInFlight: bool)

  datatype Settings = Settings(threshold: int, resetTimeout: int)

  // Calls may overlap in any way: a result may be recorded long after its call was
  // allowed, in a different phase. `now` is the clock reading of the step.
  datatype Event = Allow(now: int) | Success(now: int) | Failure(now: int)

  const INITIAL := State(Closed, 0, 0, false)

  predicate Admits(cfg: Settings, s: State, now: int) {
    match s.phase
    case Closed => true
    case HalfOpen => !s.probeInFlight
    case Open => now - s.lastFailureAt >= cfg.resetTimeout
  }

  function Step(cfg: Settings, s: State, e: Event): State {
    match e
    case Allow(now) =>
      if s.phase == Closed || !Admits(cfg, s, now) then s
      else s.(phase := HalfOpen, probeInFlight := true)
    case Success(_) => s.(phase := Closed, failureCount := 0, probeInFlight := false)
    case Failure(now) =>
      match s.phase
      case Closed =>
        if s.failureCount + 1 >= cfg.threshold
        then s.(phase := Open, failureCount := s.failureCount + 1, lastFailureAt := now)
        else s.(failureCount := s.failureCount + 1)
      case HalfOpen => s.(phase := Open, lastFailureAt := now, probeInFlight := false)
      case Open => s
  }

  function After(cfg: Settings, trace: seq<Event>): State {
    if trace == [] then INITIAL
    else Step(cfg, After(cfg, trace[..|trace| - 1]), trace[|trace| - 1])
  }

  lemma AfterSnoc(cfg: Settings, trace: seq<Event>, e: Event)
    ensures After(cfg, trace + [e]) == Step(cfg, After(cfg, trace), e)
  {
    assert (trace + [e])[..|trace|] == trace;
  }

  // The failures recorded since the last recorded success, late ones included.
  function TrailingFailures(trace: seq<Event>): nat {
    if trace == [] then 0
    else
      match trace[|trace| - 1]
      case Success(_) => 0
      case Failure(_) => TrailingFailures(trace[..|trace| - 1]) + 1
      case Allow(_) => TrailingFailures(trace[..|trace| - 1])
  }

  function EffectiveThreshold(cfg: Settings): nat {
    if cfg.threshold > 1 then cfg.threshold else 1
  }

  // The phase is a function of the trailing failures: closed as long as they stay
  // below the threshold, and half open exactly while a probe is in flight.
  lemma {:induction false} TraceLaw(cfg: Settings, trace: seq<Event>)
    ensures var s := After(cfg, trace);
      && (s.phase == Closed <==> TrailingFailures(trace) < EffectiveThreshold(cfg))
      && (s.phase == HalfOpen <==> s.probeInFlight)
      && (s.phase == Closed ==> s.failureCount == TrailingFailures(trace))
  {
    if trace != [] {
      TraceLaw(cfg, trace[..|trace| - 1]);
    }
  }

  // ----- who is admitted, from the trace alone -----

  // A call was admitted from the threshold on, and no result has been recorded since.
  ghost predicate Unanswered(cfg: Settings, trace: seq<Event>)
    decreases |trace|, 0
  {
    trace != [] && trace[|trace| - 1].Allow? &&
    var before := trace[..|trace| - 1];
    Unanswered(cfg, before)
    || (TrailingFailures(before) >= EffectiveThreshold(cfg)
        && trace[|trace| - 1].now - OpenedAt(cfg, before) >= cfg.resetTimeout)
  }

  // When the circuit was last opened: by the failure that reached the threshold, or by
  // one that answered a probe.
  ghost function OpenedAt(cfg: Settings, trace: seq<Event>): int
    decreases |trace|, 1
  {
    if trace == [] then 0
    else
      var last, before := trace[|trace| - 1], trace[..|trace| - 1];
      if last.Failure? && (TrailingFailures(trace) == EffectiveThreshold(cfg) || Unanswered(cfg, before)) then last.now
      else OpenedAt(cfg, before)
  }

  lemma {:induction false} PhaseFromTrace(cfg: Settings, trace: seq<Event>)
    ensures var s := After(cfg, trace);
      && (s.phase == HalfOpen <==> Unanswered(cfg, trace))
      && (s.phase == Open ==> s.lastFailureAt == OpenedAt(cfg, trace))
  {
    if trace != [] {
      var before := trace[..|trace| - 1];
      PhaseFromTrace(cfg, before);
      TraceLaw(cfg, before);
      TraceLaw(cfg, trace);
    }
  }

  // Below the threshold every call is admitted. From the threshold on a call is admitted
  // exactly if no probe is unanswered and the reset timeout is over since the circuit
  // was last opened.
  lemma AdmissionLaw(cfg: Settings, trace: seq<Event>, now: int)
    ensures Admits(cfg, After(cfg, trace), now) <==>
      || TrailingFailures(trace) < EffectiveThreshold(cfg)
      || (!Unanswered(cfg, trace) && now - OpenedAt(cfg, trace) >= cfg.resetTimeout)
  {
    TraceLaw(cfg, trace);
    PhaseFromTrace(cfg, trace);
    hide After, TrailingFailures, Unanswered, OpenedAt;
  }

  ghost predicate Monotone(trace: seq<Event>) {
    forall i, j :: 0 <= i < j < |trace| ==> trace[i].now <= trace[j].now
  }

  // A call admitted although the circuit is not closed: a probe.
  predicate IsProbe(cfg: Settings, trace: seq<Event>, i: nat) {
    i < |trace| && trace[i].Allow? && After(cfg, trace[..i]).phase != Closed
    && Admits(cfg, After(cfg, trace[..i]), trace[i].now)
  }

  // Between the probe at i and index j no success was recorded: the next admission is
  // the failure of a probe plus the timeout away.
  lemma {:induction false} QuietAfterProbe(cfg: Settings, trace: seq<Event>, i: nat, j: nat)
    requires Monotone(trace) && IsProbe(cfg, trace, i) && i < j <= |trace|
    requires forall k :: i < k < j ==> !trace[k].Success?
    ensures var s := After(cfg, trace[..j]);
      (s.phase == HalfOpen && s.probeInFlight) || (s.phase == Open && s.lastFailureAt >= trace[i].now)
    decreases j
  {
    assert trace[..j][..j - 1] == trace[..j - 1];
    if j > i + 1 {
      QuietAfterProbe(cfg, trace, i, j - 1);
      assert trace[i].now <= trace[j - 1].now;
    }
  }

  // Two probes without a success in between are at least the reset timeout apart.
  lemma ProbesSpaced(cfg: Settings, trace: seq<Event>, i: nat, j: nat)
    requires Monotone(trace) && i < j && IsProbe(cfg, trace, i) && IsProbe(cfg, trace, j)
    requires forall k :: i < k < j ==> !trace[k].Success?
    ensures trace[j].now - trace[i].now >= cfg.resetTimeout
  {
    QuietAfterProbe(cfg, trace, i, j);
  }

  // The first probe comes at least the reset timeout after the failure that opened the circuit.
  lemma FirstProbeWaits(cfg: Settings, trace: seq<Event>, o: nat, j: nat)
    requires Monotone(trace) && o < j && IsProbe(cfg, trace, j)
    requires trace[o].Failure? && After(cfg, trace[..o]).phase != Open && After(cfg, trace[..o + 1]).phase == Open
    requires forall k :: o < k < j ==> !trace[k].Success? && !IsProbe(cfg, trace, k)
    ensures trace[j].now - trace[o].now >= cfg.resetTimeout
  {
    StaysOpen(cfg, trace, o, j);
  }

  lemma {:induction false} StaysOpen(cfg: Settings, trace: seq<Event>, o: nat, j: nat)
    requires o < j <= |trace|
    requires trace[o].Failure? && After(cfg, trace[..o]).phase != Open && After(cfg, trace[..o + 1]).phase == Open
    requires forall k :: o < k < j ==> !trace[k].Success? && !IsProbe(cfg, trace, k)
    ensures After(cfg, trace[..j]).phase == Open && After(cfg, trace[..j]).lastFailureAt == trace[o].now
    decreases j
  {
    assert trace[..j][..j - 1] == trace[..j - 1];
    if j > o + 1 {
      StaysOpen(cfg, trace, o, j - 1);
      assert !IsProbe(cfg, trace, j - 1);
    }
  }

  class CircuitBreakerMiddleware {
    const cfg: Settings
    var phase: Phase
    var failureCount: int
    var lastFailureAt: int
    var probeInFlight: bool
    // everything that happened so far
    ghost var trace: seq<Event>

    ghost predicate Valid()
      reads this
    {
      State(phase, failureCount, lastFailureAt, probeInFlight) == After(cfg, trace)
    }

    constructor (cfg: Settings)
      ensures Valid() && trace == [] && this.cfg == cfg
    {
      this.cfg := cfg;
      phase, failureCount, lastFailureAt, probeInFlight, trace := Closed, 0, 0, false, [];
    }

    method AllowCall(now: int) returns (ok: bool)
      requires Valid()
      modifies this
      ensures Valid() && trace == old(trace) + [Allow(now)]
      ensures ok <==>
        || TrailingFailures(old(trace)) < EffectiveThreshold(cfg)
        || (!Unanswered(cfg, old(trace)) && now - OpenedAt(cfg, old(trace)) >= cfg.resetTimeout)
    {
      hide After, TrailingFailures, Unanswered, OpenedAt;
      AdmissionLaw(cfg, trace, now);
      AfterSnoc(cfg, trace, Allow(now));
      trace := trace + [Allow(now)];
      match phase {
        case Closed =>
          return true;
        case HalfOpen =>
          if probeInFlight {
            return false;
          }
          probeInFlight := true;
          return true;
        case Open =>
          if now - lastFailureAt >= cfg.resetTimeout {
            phase := HalfOpen;
            probeInFlight := true;
            return true;
          }
          return false;
      }
    }

    method RecordResult(ok: bool, now: int)
      requires Valid()
      modifies this
      ensures Valid() && trace == old(trace) + [if ok then Success(now) else Failure(now)]
    {
      hide After;
      ghost var e := if ok then Success(now) else Failure(now);
      AfterSnoc(cfg, trace, e);
      trace := trace + [e];
      if ok {
        phase := Closed;
        failureCount := 0;
        probeInFlight := false;
        return;
      }
      match phase {
        case Closed =>
          failureCount := failureCount + 1;
          if failureCount >= cfg.threshold {
            phase := Open;
            lastFailureAt := now;
          }
        case HalfOpen =>
          phase := Open;
          lastFailureAt := now;
          probeInFlight := false;
        case Open =>
      }
    }
  }
}
