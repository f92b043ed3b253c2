// The AIMD backpressure controller with its waiter hand-off queue
// (orchestrate/backpressure.go). Every critical section is one step; a run is any
// interleaving of the callers' steps.
module Backpressure {
  import opened Types

  datatype Settings = Settings(initial: int, min: int, max: int, threshold: int, interval: int)

  const SECOND := 1_000_000_000

  // The defaults newBackpressureController fills in.
  function Normalise(c: Settings): Settings {
    var initial := if c.initial <= 0 then 1 else c.initial;
    var min := if c.min <= 0 then 1 else c.min;
    var max := if c.max <= 0 then initial * 4 else c.max;
    var raised := if initial < min then min else initial;
    var start := if raised > max then max else raised;
    Settings(start, min, max, c.threshold, if c.interval <= 0 then SECOND else c.interval)
  }

  // A waiting caller is known by its ticket (its channel). `handed` are the tickets whose
  // channel holds a slot that was not received yet; `lost` counts the slots handed to
  // callers that gave up instead of receiving them; `clock` is the latest clock reading.
  datatype State = State(
    concurrency: int,
    active: int,
    waiters: seq<nat>,
    latencies: seq<int>,
    lastAdjust: int,
    clock: int,
    holders: nat,
    handed: set<nat>,
    lost: nat,
    next: nat)

  datatype Event =
    | Acquire                         // enter acquire: take a slot or queue up
    | Receive(ticket: nat)            // a waiter receives its slot
    | Cancel(ticket: nat)             // a waiter sees ctx.Done first
    | Release(latency: int, now: int) // a holder releases

  function TruncDiv(a: int, b: int): int
    requires b > 0
  {
    if a >= 0 then a / b else -((-a) / b)
  }

  function Total(latencies: seq<int>): int {
    if latencies == [] then 0 else Total(latencies[..|latencies| - 1]) + latencies[|latencies| - 1]
  }

  // maybeAdjust: halve on high average latency, else add one.
  function Adjust(cfg: Settings, s: State, now: int): State {
    if now - s.lastAdjust < cfg.interval || s.latencies == [] then s
    else
      var avg := TruncDiv(Total(s.latencies), |s.latencies|);
      var limit := if avg > cfg.threshold
                   then (if TruncDiv(s.concurrency, 2) > cfg.min then TruncDiv(s.concurrency, 2) else cfg.min)
                   else (if s.concurrency + 1 < cfg.max then s.concurrency + 1 else cfg.max);
      s.(concurrency := limit, latencies := [], lastAdjust := now)
  }

  // Hand a slot to the first waiter.
  function HandOver(s: State): State
    requires s.waiters != []
  {
    s.(waiters := s.waiters[1..], handed := s.handed + {s.waiters[0]})
  }

  function Remove(waiters: seq<nat>, t: nat): seq<nat> {
    if waiters == [] then []
    else if waiters[0] == t then waiters[1..]
    else [waiters[0]] + Remove(waiters[1..], t)
  }

  predicate Enabled(s: State, e: Event) {
    match e
    case Acquire => true
    case Receive(t) => t in s.handed
    case Cancel(t) => t in s.waiters || t in s.handed
    case Release(latency, now) => s.holders > 0 && latency >= 0 && now >= s.clock
  }

  // The slot is given back and its latency recorded.
  function Returned(s: State, latency: int, now: int): State
    requires s.holders > 0
  {
    s.(latencies := s.latencies + [latency], holders := s.holders - 1, clock := now)
  }

  function Step(cfg: Settings, s: State, e: Event): State
    requires Enabled(s, e)
  {
    match e
    case Acquire =>
      if s.active < s.concurrency then s.(active := s.active + 1, holders := s.holders + 1)
      else s.(waiters := s.waiters + [s.next], next := s.next + 1)
    case Receive(t) =>
      s.(handed := s.handed - {t}, holders := s.holders + 1)
    case Cancel(t) =>
      if t in s.waiters then s.(waiters := Remove(s.waiters, t))
      else s.(handed := s.handed - {t}, lost := s.lost + 1)
    case Release(latency, now) =>
      var a := Adjust(cfg, Returned(s, latency, now), now);
      if a.waiters != [] && a.active <= a.concurrency then HandOver(a)
      else
        var b := a.(active := a.active - 1);
        if b.waiters != [] && b.active < b.concurrency then HandOver(b.(active := b.active + 1)) else b
  }

  function Initial(cfg: Settings, now: int): State {
    State(cfg.initial, 0, [], [], now, now, 0, {}, 0, 0)
  }

  // ----- the invariant -----

  ghost predicate Increasing(s: seq<nat>) {
    forall i, j :: 0 <= i < j < |s| ==> s[i] < s[j]
  }

  // The limit is within its bounds, every active slot is held, on its way or lost, and the
  // waiters stand in the order in which they came.
  ghost predicate Safe(cfg: Settings, s: State) {
    && cfg.min <= s.concurrency <= cfg.max
    && s.active == s.holders + |s.handed| + s.lost
    && s.active <= cfg.max
    && (s.waiters != [] ==> s.active >= 1)
    && Distinct(s.waiters) && Increasing(s.waiters)
    && (forall t :: t in s.waiters ==> t < s.next && t !in s.handed)
    && (forall t :: t in s.handed ==> t < s.next)
    && (forall i :: 0 <= i < |s.latencies| ==> s.latencies[i] >= 0)
    && s.lastAdjust <= s.clock < s.lastAdjust + cfg.interval
  }

  // A caller was granted a slot in the step from s to t, fresh or handed over.
  predicate Grants(s: State, t: State) {
    t.active > s.active || !(t.handed <= s.handed)
  }

  lemma {:induction false} RemoveIncreasing(waiters: seq<nat>, t: nat)
    requires Increasing(waiters)
    ensures Increasing(Remove(waiters, t)) && forall x :: x in Remove(waiters, t) ==> x in waiters
  {
    if waiters != [] {
      hide Increasing;
      IncreasingTail(waiters);
      RemoveIncreasing(waiters[1..], t);
      if waiters[0] != t {
        IncreasingJoin([waiters[0]], Remove(waiters[1..], t));
      }
    }
  }

  lemma IncreasingTail(s: seq<nat>)
    requires Increasing(s) && s != []
    ensures Increasing(s[1..]) && forall x :: x in s[1..] ==> s[0] < x
  {
  }

  lemma {:induction false} RemoveKeeps(waiters: seq<nat>, t: nat)
    requires Distinct(waiters)
    ensures Distinct(Remove(waiters, t))
    ensures forall x :: x in Remove(waiters, t) <==> x in waiters && x != t
    ensures t in waiters ==> |Remove(waiters, t)| == |waiters| - 1
  {
    if waiters != [] {
      assert waiters == [waiters[0]] + waiters[1..];
      if waiters[0] == t {
        assert forall i :: 1 <= i < |waiters| ==> waiters[i] != t;
      } else {
        RemoveKeeps(waiters[1..], t);
        var r := Remove(waiters[1..], t);
        assert waiters[0] !in r;
      }
    }
  }

  lemma AdjustBounds(cfg: Settings, s: State, now: int)
    requires 1 <= cfg.min <= cfg.max && cfg.min <= s.concurrency <= cfg.max
    ensures cfg.min <= Adjust(cfg, s, now).concurrency <= cfg.max
    ensures Adjust(cfg, s, now) == s.(concurrency := Adjust(cfg, s, now).concurrency,
                                      latencies := Adjust(cfg, s, now).latencies,
                                      lastAdjust := Adjust(cfg, s, now).lastAdjust)
  {
  }

  // The log stays as it is, grows or is emptied; once the interval is over it is emptied.
  lemma AdjustClock(cfg: Settings, s: State, now: int)
    requires s.latencies != [] && cfg.interval > 0 && s.lastAdjust <= now
    ensures var a := Adjust(cfg, s, now);
      a.lastAdjust <= now < a.lastAdjust + cfg.interval && (a.latencies == [] || a.latencies == s.latencies)
  {
    hide Total;
  }

  lemma HandOverKeeps(s: State)
    requires s.waiters != [] && Distinct(s.waiters) && forall t :: t in s.waiters ==> t < s.next && t !in s.handed
    ensures |HandOver(s).handed| == |s.handed| + 1 && !(HandOver(s).handed <= s.handed)
    ensures Distinct(HandOver(s).waiters)
    ensures Increasing(s.waiters) ==> Increasing(HandOver(s).waiters)
    ensures forall t :: t in HandOver(s).waiters ==> t in s.waiters && t !in HandOver(s).handed
    ensures forall t :: t in HandOver(s).handed ==> t in s.handed || t in s.waiters
  {
    var w := s.waiters[0];
    assert w in s.waiters && w !in s.handed;
    assert s.waiters == [w] + s.waiters[1..];
    assert forall i :: 1 <= i < |s.waiters| ==> s.waiters[i] != w;
  }

  lemma AcquireSafe(cfg: Settings, s: State)
    requires 1 <= cfg.min && Safe(cfg, s)
    ensures Safe(cfg, Step(cfg, s, Acquire))
    ensures var t := Step(cfg, s, Acquire); Grants(s, t) ==> t.active <= t.concurrency
  {
    assert s.next !in s.waiters && s.next !in s.handed;
    forall i | 0 <= i < |s.waiters|
      ensures s.waiters[i] < s.next
    {
      assert s.waiters[i] in s.waiters;
    }
  }

  lemma ReceiveSafe(cfg: Settings, s: State, t: nat)
    requires Safe(cfg, s) && t in s.handed
    ensures Safe(cfg, Step(cfg, s, Receive(t))) && !Grants(s, Step(cfg, s, Receive(t)))
  {
    assert |s.handed - {t}| == |s.handed| - 1;
    hide Distinct;
  }

  lemma CancelSafe(cfg: Settings, s: State, t: nat)
    requires Safe(cfg, s) && (t in s.waiters || t in s.handed)
    ensures Safe(cfg, Step(cfg, s, Cancel(t))) && !Grants(s, Step(cfg, s, Cancel(t)))
  {
    RemoveKeeps(s.waiters, t);
    RemoveIncreasing(s.waiters, t);
    hide Distinct, Increasing, Remove;
    if t !in s.waiters {
      assert |s.handed - {t}| == |s.handed| - 1;
    }
  }

  // Every step of every caller keeps the limit within its bounds, the slots accounted
  // for, and every grant within the limit.
  lemma StepSafe(cfg: Settings, s: State, e: Event)
    requires 1 <= cfg.min <= cfg.max && Safe(cfg, s) && Enabled(s, e)
    ensures Safe(cfg, Step(cfg, s, e))
    ensures Grants(s, Step(cfg, s, e)) ==> Step(cfg, s, e).active <= Step(cfg, s, e).concurrency
  {
    hide Safe, Step, Grants;
    match e {
      case Acquire =>
        AcquireSafe(cfg, s);
      case Receive(t) =>
        ReceiveSafe(cfg, s, t);
      case Cancel(t) =>
        CancelSafe(cfg, s, t);
      case Release(latency, now) =>
        ReleaseSafe(cfg, s, latency, now);
    }
  }

  lemma ReleaseSafe(cfg: Settings, s: State, latency: int, now: int)
    requires 1 <= cfg.min <= cfg.max && Safe(cfg, s) && Enabled(s, Release(latency, now))
    ensures Safe(cfg, Step(cfg, s, Release(latency, now)))
    ensures var t := Step(cfg, s, Release(latency, now)); Grants(s, t) ==> t.active <= t.concurrency
  {
    hide Adjust, HandOver, Distinct;
    var s0 := Returned(s, latency, now);
    AdjustBounds(cfg, s0, now);
    AdjustClock(cfg, s0, now);
    var a := Adjust(cfg, s0, now);
    if a.waiters != [] {
      HandOverKeeps(a);
      HandOverFields(a);
    }
  }

  lemma HandOverFields(s: State)
    requires s.waiters != []
    ensures HandOver(s) == s.(waiters := HandOver(s).waiters, handed := HandOver(s).handed)
  {
  }

  ghost predicate IsRun(cfg: Settings, s: State, events: seq<Event>, t: State)
    decreases events
  {
    if events == [] then t == s
    else Enabled(s, events[0]) && IsRun(cfg, Step(cfg, s, events[0]), events[1..], t)
  }

  // Over all interleavings.
  lemma {:induction false} RunSafe(cfg: Settings, s: State, events: seq<Event>, t: State)
    requires 1 <= cfg.min <= cfg.max && Safe(cfg, s) && IsRun(cfg, s, events, t)
    ensures Safe(cfg, t)
    decreases events
  {
    if events != [] {
      StepSafe(cfg, s, events[0]);
      RunSafe(cfg, Step(cfg, s, events[0]), events[1..], t);
    }
  }

  // ----- the settings and the adjustment, in plain terms -----

  // Given values are kept, missing ones are one, four times the initial limit, and one
  // second; the initial limit is moved to the nearest bound.
  lemma NormaliseMeans(c: Settings)
    ensures var n, initial := Normalise(c), if c.initial > 0 then c.initial else 1;
      && n.threshold == c.threshold
      && n.interval == (if c.interval > 0 then c.interval else 1_000_000_000)
      && n.min == (if c.min > 0 then c.min else 1)
      && n.max == (if c.max > 0 then c.max else 4 * initial)
      && (n.min <= n.max ==>
            && n.min <= n.initial <= n.max && (n.min <= initial <= n.max ==> n.initial == initial)
            && (initial < n.min ==> n.initial == n.min) && (initial > n.max ==> n.initial == n.max))
  {
  }

  // Nothing changes before the interval is over. Then the log is emptied, and the limit
  // goes up by one, to the maximum at most, if the average latency is within the threshold;
  // else it is halved, to the minimum at least.
  lemma AdjustMeans(cfg: Settings, s: State, now: int)
    requires 1 <= cfg.min <= cfg.max && cfg.min <= s.concurrency <= cfg.max
    requires forall i :: 0 <= i < |s.latencies| ==> s.latencies[i] >= 0
    ensures var a, calm := Adjust(cfg, s, now),
                           cfg.threshold >= 0 && Total(s.latencies) < (cfg.threshold + 1) * |s.latencies|;
      if now < s.lastAdjust + cfg.interval || s.latencies == [] then a == s
      else
        && a == s.(latencies := [], lastAdjust := now, concurrency := a.concurrency)
        && (calm ==> a.concurrency == s.concurrency + 1 || a.concurrency == s.concurrency == cfg.max)
        && (!calm ==> a.concurrency <= s.concurrency / 2 || a.concurrency == cfg.min)
        && (!calm ==> a.concurrency >= s.concurrency / 2 && a.concurrency >= cfg.min)
  {
    if s.latencies != [] {
      TotalPositive(s.latencies);
      AverageWithin(Total(s.latencies), |s.latencies|, cfg.threshold);
    }
  }

  // ----- first in, first out -----

  // The slot at the head of the queue is handed over.
  ghost predicate Serves(s: State, u: State) {
    && s.waiters != [] && s.waiters[0] !in s.handed
    && u.waiters == s.waiters[1..] && u.handed == s.handed + {s.waiters[0]} && u.next == s.next
  }

  // Somebody joins the end of the queue.
  ghost predicate Joins(s: State, u: State) {
    u.waiters == s.waiters + [s.next] && u.next == s.next + 1 && u.handed == s.handed
  }

  // What a step does to the queue.
  lemma QueueStep(cfg: Settings, s: State, e: Event)
    requires Safe(cfg, s) && Enabled(s, e)
    ensures var u := Step(cfg, s, e);
      match e
      case Acquire => Joins(s, u) || (u.waiters == s.waiters && u.next == s.next && u.handed == s.handed)
      case Receive(t) => u.waiters == s.waiters && u.next == s.next && u.handed == s.handed - {t}
      case Cancel(t) =>
        u.next == s.next && u.handed <= s.handed && forall w :: w in u.waiters ==> w in s.waiters
      case Release(_, _) => Serves(s, u) || (u.waiters == s.waiters && u.next == s.next && u.handed == s.handed)
  {
    hide Total, TruncDiv, Distinct, Increasing;
    if e.Cancel? {
      RemoveMembers(s.waiters, e.ticket);
    } else if e.Release? {
      assert s.waiters != [] ==> s.waiters[0] in s.waiters;
      hide Safe, Step;
      QueueRelease(cfg, s, e.latency, e.now);
    }
  }

  lemma QueueRelease(cfg: Settings, s: State, latency: int, now: int)
    requires Enabled(s, Release(latency, now)) && (s.waiters != [] ==> s.waiters[0] !in s.handed)
    ensures var u := Step(cfg, s, Release(latency, now));
      Serves(s, u) || (u.waiters == s.waiters && u.next == s.next && u.handed == s.handed)
  {
    hide Total, TruncDiv;
  }

  lemma {:induction false} RemoveMembers(waiters: seq<nat>, t: nat)
    ensures forall x :: x in Remove(waiters, t) ==> x in waiters
  {
    if waiters != [] {
      RemoveMembers(waiters[1..], t);
    }
  }

  lemma WaitersIncrease(cfg: Settings, s: State)
    requires Safe(cfg, s)
    ensures Increasing(s.waiters) && forall w :: w in s.waiters ==> w < s.next
  {
  }

  // A step gives the slot to whoever has waited longest: to nobody's disadvantage who
  // still waits afterwards.
  lemma OldestFirst(cfg: Settings, s: State, e: Event, x: nat)
    requires Safe(cfg, s) && Enabled(s, e)
    requires x in Step(cfg, s, e).handed && x !in s.handed
    ensures s.waiters != [] && x == s.waiters[0] && Step(cfg, s, e).waiters == s.waiters[1..]
    ensures forall w :: w in Step(cfg, s, e).waiters ==> x < w
    ensures Step(cfg, s, e).handed == s.handed + {x}
  {
    hide Safe, Step, Enabled;
    QueueStep(cfg, s, e);
    WaitersIncrease(cfg, s);
  }

  // The tickets handed over during a run, in order.
  ghost function HandOvers(cfg: Settings, s: State, events: seq<Event>): (log: seq<nat>)
    decreases events
  {
    if events == [] || !Enabled(s, events[0]) then []
    else Given(s, Step(cfg, s, events[0])) + HandOvers(cfg, Step(cfg, s, events[0]), events[1..])
  }

  // The ticket that a step put among those with a slot on its way, if any.
  ghost function Given(s: State, u: State): seq<nat> {
    if exists x :: x in u.handed && x !in s.handed then var x :| x in u.handed && x !in s.handed; [x] else []
  }

  // The tickets from a up to, but not including, b.
  ghost function Issued(a: nat, b: nat): seq<nat>
    requires a <= b
  {
    seq(b - a, i requires 0 <= i < b - a => a + i)
  }

  lemma GivenHead(s: State, u: State)
    ensures Serves(s, u) ==> Given(s, u) == [s.waiters[0]]
    ensures u.handed <= s.handed ==> Given(s, u) == []
  {
    if Serves(s, u) {
      assert s.waiters[0] in u.handed && s.waiters[0] !in s.handed;
    }
  }

  // One step: who waited and who has come are who is given a slot and who waits then.
  lemma ServedStep(cfg: Settings, s: State, e: Event)
    requires Safe(cfg, s) && Enabled(s, e) && !e.Cancel?
    ensures var u := Step(cfg, s, e);
      s.next <= u.next && s.waiters + Issued(s.next, u.next) == Given(s, u) + u.waiters
  {
    hide Safe, Step, Enabled, Given;
    QueueStep(cfg, s, e);
    GivenHead(s, Step(cfg, s, e));
  }

  lemma IssuedAdds(a: nat, b: nat, c: nat)
    requires a <= b <= c
    ensures Issued(a, c) == Issued(a, b) + Issued(b, c)
  {
  }

  // Without a cancellation the queue is served strictly in order: who waited, followed by
  // who has come since, are those served, followed by those still waiting.
  lemma {:induction false} ServedInOrder(cfg: Settings, s: State, events: seq<Event>, t: State)
    requires 1 <= cfg.min <= cfg.max && Safe(cfg, s) && IsRun(cfg, s, events, t)
    requires forall i :: 0 <= i < |events| ==> !events[i].Cancel?
    ensures s.next <= t.next && s.waiters + Issued(s.next, t.next) == HandOvers(cfg, s, events) + t.waiters
    decreases events
  {
    hide Safe, Step, Enabled, Given, Issued;
    if events == [] {
      NoneIssued(s.next);
    } else {
      var u := Step(cfg, s, events[0]);
      StepSafe(cfg, s, events[0]);
      ServedInOrder(cfg, u, events[1..], t);
      ServedStep(cfg, s, events[0]);
      IssuedAdds(s.next, u.next, t.next);
      Regroup(s.waiters, Issued(s.next, u.next), Issued(u.next, t.next), Given(s, u), u.waiters,
              HandOvers(cfg, u, events[1..]), t.waiters);
    }
  }

  lemma NoneIssued(a: nat)
    ensures Issued(a, a) == []
  {
  }

  lemma Regroup(a: seq<nat>, b: seq<nat>, c: seq<nat>, d: seq<nat>, e: seq<nat>, f: seq<nat>, g: seq<nat>)
    requires a + b == d + e && e + c == f + g
    ensures a + (b + c) == (d + f) + g
  {
    assert a + (b + c) == (a + b) + c;
    assert (d + e) + c == d + (e + c);
    assert d + (f + g) == (d + f) + g;
  }

  // With cancellations, those who are served still are in order.
  lemma {:induction false} ServedIncreasing(cfg: Settings, s: State, events: seq<Event>, t: State)
    requires 1 <= cfg.min <= cfg.max && Safe(cfg, s) && IsRun(cfg, s, events, t)
    ensures Increasing(HandOvers(cfg, s, events))
    ensures forall x :: x in HandOvers(cfg, s, events) ==> x in s.waiters || x >= s.next
    decreases events
  {
    hide Safe, Step, Enabled, Given;
    if events != [] {
      var u := Step(cfg, s, events[0]);
      StepSafe(cfg, s, events[0]);
      ServedIncreasing(cfg, u, events[1..], t);
      GivenFirst(cfg, s, events[0]);
      IncreasingJoin(Given(s, u), HandOvers(cfg, u, events[1..]));
    }
  }

  lemma IncreasingJoin(a: seq<nat>, b: seq<nat>)
    requires |a| <= 1 && Increasing(b) && forall x, y :: x in a && y in b ==> x < y
    ensures Increasing(a + b)
  {
    if a != [] {
      forall j | 0 <= j < |b|
        ensures a[0] < b[j]
      {
        assert a[0] in a && b[j] in b;
      }
    }
  }

  lemma GivenFirst(cfg: Settings, s: State, e: Event)
    requires Safe(cfg, s) && Enabled(s, e)
    ensures var u := Step(cfg, s, e);
      && s.next <= u.next && |Given(s, u)| <= 1
      && (forall w :: w in u.waiters || w >= u.next ==> w in s.waiters || w >= s.next)
      && forall x :: x in Given(s, u) ==> x in s.waiters && forall w :: w in u.waiters || w >= u.next ==> x < w
  {
    hide Safe, Step, Enabled, Given;
    QueueStep(cfg, s, e);
    WaitersIncrease(cfg, s);
    GivenHead(s, Step(cfg, s, e));
  }

  // The controller starts within its bounds exactly when they are in order after defaulting.
  lemma InitialSafe(c: Settings, now: int)
    ensures Normalise(c).min >= 1 && Normalise(c).max >= 1
    ensures Safe(Normalise(c), Initial(Normalise(c), now)) <==> Normalise(c).min <= Normalise(c).max
  {
  }

  // ----- lost slots -----

  // The next step of some caller grants a slot.
  ghost predicate GrantsNext(cfg: Settings, s: State) {
    exists e :: Enabled(s, e) && Grants(s, Step(cfg, s, e))
  }

  // Whatever the callers do, no slot is ever granted again.
  ghost predicate NeverGrants(cfg: Settings, s: State) {
    forall events, t :: IsRun(cfg, s, events, t) ==> !GrantsNext(cfg, t)
  }

  // ----- what the limit can still grow to -----

  // The slots that may still be released.
  function Releases(s: State): nat {
    s.holders + |s.handed|
  }

  // The limit after h releases, each of them adjusting it, when no latency is on record:
  // an instant release raises it by one, unless the threshold is below zero.
  function Peak(cfg: Settings, limit: int, h: nat): int {
    if cfg.threshold < 0 then limit else Min(cfg.max, limit + h)
  }

  function Min(a: int, b: int): int {
    if a < b then a else b
  }

  function Raised(cfg: Settings, limit: int): int {
    Min(limit + 1, cfg.max)
  }

  function Halved(cfg: Settings, limit: int): int {
    if TruncDiv(limit, 2) > cfg.min then TruncDiv(limit, 2) else cfg.min
  }

  // After k instant releases the average of what is on record is within the threshold.
  predicate Calm(cfg: Settings, s: State, k: nat) {
    cfg.threshold >= 0 && Total(s.latencies) < (cfg.threshold + 1) * (|s.latencies| + k)
  }

  // The lost slots reach everything the limit can still grow to: where it is; what it grows
  // to after being halved by the next release; and what it grows to after being raised by
  // the k-th release, the first one that can bring the average down or any later one.
  ghost predicate Exhausted(cfg: Settings, s: State) {
    var h := Releases(s);
    && s.lost >= s.concurrency
    && (h >= 1 ==> s.lost >= Peak(cfg, Halved(cfg, s.concurrency), h - 1))
    && forall k :: 1 <= k <= h && Calm(cfg, s, k) ==> s.lost >= Peak(cfg, Raised(cfg, s.concurrency), h - k)
  }

  // With no latency on record it is the peak of the present limit that counts.
  lemma FreshExhausted(cfg: Settings, s: State)
    requires 1 <= cfg.min <= cfg.max && cfg.min <= s.concurrency <= cfg.max && s.latencies == []
    ensures Exhausted(cfg, s) <==> s.lost >= Peak(cfg, s.concurrency, Releases(s))
  {
    var h := Releases(s);
    assert Total(s.latencies) == 0;
    if cfg.threshold >= 0 {
      forall k: nat | k >= 1
        ensures Calm(cfg, s, k)
      {
        ProductMonotone(cfg.threshold + 1, 1, k);
      }
      if h >= 1 {
        assert Calm(cfg, s, 1);
      }
    }
  }

  // The average of nonnegative latencies is within the threshold exactly if their total is below the next multiple.
  lemma AverageWithin(total: int, n: int, threshold: int)
    requires total >= 0 && n > 0
    ensures TruncDiv(total, n) <= threshold <==> threshold >= 0 && total < (threshold + 1) * n
  {
    var q := total / n;
    assert total == n * q + total % n;
    if q <= threshold {
      ProductMonotone(n, q + 1, threshold + 1);
    } else {
      ProductMonotone(n, threshold + 1, q);
    }
  }

  lemma ProductMonotone(n: int, a: int, b: int)
    requires n > 0 && a <= b
    ensures n * a <= n * b
  {
    assert n * (b - a) >= 0;
  }

  lemma {:induction false} TotalPositive(latencies: seq<int>)
    requires forall i :: 0 <= i < |latencies| ==> latencies[i] >= 0
    ensures Total(latencies) >= 0
  {
    if latencies != [] {
      TotalPositive(latencies[..|latencies| - 1]);
    }
  }

  // What a release does to the limit: nothing, or it raises it if the k = 1 average allows,
  // or it halves it, and empties the log.
  lemma ReleaseAdjusts(cfg: Settings, s: State, latency: int, now: int)
    requires 1 <= cfg.min <= cfg.max && Safe(cfg, s) && Enabled(s, Release(latency, now))
    ensures var r, a := Returned(s, latency, now), Adjust(cfg, Returned(s, latency, now), now);
      if now < s.lastAdjust + cfg.interval then a == r
      else
        var calm := cfg.threshold >= 0 && Total(s.latencies) + latency < (cfg.threshold + 1) * (|s.latencies| + 1);
        a == r.(concurrency := if calm then Raised(cfg, s.concurrency) else Halved(cfg, s.concurrency),
                latencies := [], lastAdjust := now)
  {
    var all := s.latencies + [latency];
    assert all[..|all| - 1] == s.latencies;
    TotalPositive(all);
    AverageWithin(Total(all), |all|, cfg.threshold);
  }

  // A release grants exactly if somebody waits and the slot is still within the limit.
  lemma ReleaseGrantsIff(cfg: Settings, s: State, latency: int, now: int)
    requires Safe(cfg, s) && Enabled(s, Release(latency, now))
    ensures var a, t := Adjust(cfg, Returned(s, latency, now), now), Step(cfg, s, Release(latency, now));
      && (Grants(s, t) <==> s.waiters != [] && s.active <= a.concurrency)
      && (!Grants(s, t) ==> t == a.(active := s.active - 1))
  {
    hide Total, TruncDiv;
    if s.waiters != [] {
      assert s.waiters[0] in s.waiters;
    }
  }

  // ----- exhausted states never grant -----

  lemma ExhaustedRelease(cfg: Settings, s: State, latency: int, now: int)
    requires 1 <= cfg.min <= cfg.max && Safe(cfg, s) && Exhausted(cfg, s) && Enabled(s, Release(latency, now))
    ensures var t := Step(cfg, s, Release(latency, now)); Exhausted(cfg, t) && !Grants(s, t)
  {
    ReleaseAdjusts(cfg, s, latency, now);
    ReleaseGrantsIff(cfg, s, latency, now);
    hide Adjust, TruncDiv, Step;
    var a, t := Adjust(cfg, Returned(s, latency, now), now), Step(cfg, s, Release(latency, now));
    TotalSnoc(s.latencies, latency);
    if now < s.lastAdjust + cfg.interval {
      hide Total;
      forall k | 1 <= k <= Releases(t) && Calm(cfg, t, k)
        ensures Calm(cfg, s, k + 1)
      {
      }
    } else {
      if cfg.threshold >= 0 && Total(s.latencies) + latency < (cfg.threshold + 1) * (|s.latencies| + 1) {
        assert Calm(cfg, s, 1);
      }
      hide Total, Calm;
      PeakAbove(cfg, a.concurrency, Releases(s) - 1);
      if !Grants(s, t) {
        FreshExhausted(cfg, t);
      }
    }
  }

  lemma TotalSnoc(latencies: seq<int>, latency: int)
    ensures Total(latencies + [latency]) == Total(latencies) + latency
  {
    assert (latencies + [latency])[..|latencies|] == latencies;
  }

  lemma PeakAbove(cfg: Settings, limit: int, h: nat)
    requires limit <= cfg.max
    ensures Peak(cfg, limit, h) >= limit
  {
  }

  lemma ExhaustedCancel(cfg: Settings, s: State, x: nat)
    requires 1 <= cfg.min <= cfg.max && Safe(cfg, s) && Exhausted(cfg, s) && x in s.handed
    ensures Exhausted(cfg, s.(handed := s.handed - {x}, lost := s.lost + 1))
  {
    var t := s.(handed := s.handed - {x}, lost := s.lost + 1);
    assert |t.handed| == |s.handed| - 1;
    hide Total, TruncDiv;
    forall k | 1 <= k <= Releases(t) && Calm(cfg, t, k)
      ensures t.lost >= Peak(cfg, Raised(cfg, t.concurrency), Releases(t) - k)
    {
      assert Calm(cfg, s, k);
    }
  }

  lemma ExhaustedStep(cfg: Settings, s: State, e: Event)
    requires 1 <= cfg.min <= cfg.max && Safe(cfg, s) && Exhausted(cfg, s) && Enabled(s, e)
    ensures Exhausted(cfg, Step(cfg, s, e)) && !Grants(s, Step(cfg, s, e))
  {
    match e {
      case Acquire =>
        var t := Step(cfg, s, e);
        assert t == s.(waiters := t.waiters, next := t.next);
        SameExhausted(cfg, s, t);
      case Receive(x) =>
        assert |s.handed - {x}| == |s.handed| - 1;
        SameExhausted(cfg, s, Step(cfg, s, e));
      case Cancel(x) =>
        if x in s.waiters {
          SameExhausted(cfg, s, Step(cfg, s, e));
        } else {
          ExhaustedCancel(cfg, s, x);
        }
      case Release(latency, now) =>
        ExhaustedRelease(cfg, s, latency, now);
    }
  }

  // Only the limit, the log, and the numbers of lost and releasable slots matter.
  lemma SameExhausted(cfg: Settings, s: State, t: State)
    requires t.concurrency == s.concurrency && t.latencies == s.latencies && t.lost == s.lost
    requires Releases(t) == Releases(s)
    ensures Exhausted(cfg, t) <==> Exhausted(cfg, s)
  {
    hide Total, TruncDiv;
    assert forall k :: Calm(cfg, t, k) <==> Calm(cfg, s, k);
  }

  lemma {:induction false} ExhaustedForever(cfg: Settings, s: State, events: seq<Event>, t: State)
    requires 1 <= cfg.min <= cfg.max && Safe(cfg, s) && Exhausted(cfg, s) && IsRun(cfg, s, events, t)
    ensures Exhausted(cfg, t) && !GrantsNext(cfg, t)
    decreases events
  {
    hide Step, Exhausted, Safe, Grants, Enabled;
    if events == [] {
      forall e | Enabled(t, e)
        ensures !Grants(t, Step(cfg, t, e))
      {
        ExhaustedStep(cfg, t, e);
      }
    } else {
      ExhaustedStep(cfg, s, events[0]);
      StepSafe(cfg, s, events[0]);
      ExhaustedForever(cfg, Step(cfg, s, events[0]), events[1..], t);
    }
  }

  // ----- all others can -----

  // A latency that brings the average above the threshold.
  function LongLatency(cfg: Settings, s: State): int {
    if cfg.threshold < 0 then 0 else (cfg.threshold + 1) * (|s.latencies| + 1)
  }

  // An instant release before the interval is over changes neither limit nor lost slots.
  lemma EarlyRelease(cfg: Settings, s: State) returns (e: Event)
    requires 1 <= cfg.min <= cfg.max && Safe(cfg, s) && s.holders > 0
    ensures e == Release(0, s.clock) && Enabled(s, e)
    ensures var t := Step(cfg, s, e);
      Grants(s, t) || (Safe(cfg, t) && t.holders == s.holders - 1 && t.handed == s.handed && t.lost == s.lost
                       && t.concurrency == s.concurrency && t.latencies == s.latencies + [0])
  {
    e := Release(0, s.clock);
    StepSafe(cfg, s, e);
    ReleaseAdjusts(cfg, s, 0, s.clock);
    ReleaseGrantsIff(cfg, s, 0, s.clock);
    hide Step, Adjust, TruncDiv, Total, Peak;
  }

  // A release when the interval is over raises the limit or halves it, and empties the log.
  lemma DueRelease(cfg: Settings, s: State, latency: int) returns (e: Event)
    requires 1 <= cfg.min <= cfg.max && Safe(cfg, s) && s.holders > 0 && latency >= 0
    ensures e == Release(latency, s.clock + cfg.interval) && Enabled(s, e)
    ensures var t := Step(cfg, s, e);
      var calm := cfg.threshold >= 0 && Total(s.latencies) + latency < (cfg.threshold + 1) * (|s.latencies| + 1);
      Grants(s, t) || (Safe(cfg, t) && t.holders == s.holders - 1 && t.handed == s.handed && t.lost == s.lost
                       && t.latencies == [] && cfg.min <= t.concurrency <= cfg.max
                       && t.concurrency == if calm then Raised(cfg, s.concurrency) else Halved(cfg, s.concurrency))
  {
    e := Release(latency, s.clock + cfg.interval);
    StepSafe(cfg, s, e);
    ReleaseAdjusts(cfg, s, latency, s.clock + cfg.interval);
    ReleaseGrantsIff(cfg, s, latency, s.clock + cfg.interval);
    hide Step, Adjust, TruncDiv, Total, Peak, Raised, Halved;
  }

  lemma LongIsPositive(cfg: Settings, s: State)
    ensures LongLatency(cfg, s) >= 0
    ensures cfg.threshold >= 0 ==> LongLatency(cfg, s) >= (cfg.threshold + 1) * (|s.latencies| + 1)
  {
    if cfg.threshold >= 0 {
      ProductMonotone(cfg.threshold + 1, 0, |s.latencies| + 1);
    }
  }

  // The release to go on with: an early one while the limit is enough or the average still
  // too high, else one that raises or halves the limit.
  lemma NextRelease(cfg: Settings, s: State) returns (e: Event)
    requires 1 <= cfg.min <= cfg.max && Safe(cfg, s) && !Exhausted(cfg, s) && s.handed == {}
      && s.active >= s.concurrency
    ensures e.Release? && Enabled(s, e)
    ensures var t := Step(cfg, s, e);
      Grants(s, t) || (Safe(cfg, t) && !Exhausted(cfg, t) && t.holders < s.holders && t.handed == {})
  {
    assert |s.handed| == 0;
    assert s.lost < s.concurrency ==> s.holders > 0;
    assert s.holders == 0 ==> Exhausted(cfg, s);
    TotalPositive(s.latencies);
    hide Safe, Step, Enabled, Grants, Raised, Halved, Peak;
    if s.lost < s.concurrency {
      e := EarlyRelease(cfg, s);
    } else if s.lost < Peak(cfg, Halved(cfg, s.concurrency), s.holders - 1) {
      LongIsPositive(cfg, s);
      e := DueRelease(cfg, s, LongLatency(cfg, s));
      FreshStep(cfg, s, e);
    } else {
      var k: nat :| 1 <= k <= s.holders && Calm(cfg, s, k)
        && s.lost < Peak(cfg, Raised(cfg, s.concurrency), s.holders - k);
      if k == 1 {
        e := DueRelease(cfg, s, 0);
        FreshStep(cfg, s, e);
      } else {
        e := EarlyRelease(cfg, s);
        if !Grants(s, Step(cfg, s, e)) {
          LaterCalm(cfg, s, Step(cfg, s, e), k);
        }
      }
    }
  }

  lemma FreshStep(cfg: Settings, s: State, e: Event)
    requires 1 <= cfg.min <= cfg.max && Enabled(s, e) && s.handed == {}
    requires var t := Step(cfg, s, e);
      Grants(s, t) || (t.holders == s.holders - 1 && t.handed == {} && t.lost == s.lost && t.latencies == []
                       && cfg.min <= t.concurrency <= cfg.max && s.lost < Peak(cfg, t.concurrency, s.holders - 1))
    ensures Grants(s, Step(cfg, s, e)) || !Exhausted(cfg, Step(cfg, s, e))
  {
    hide Step, Enabled, Grants, Peak, Exhausted;
    if !Grants(s, Step(cfg, s, e)) {
      FreshExhausted(cfg, Step(cfg, s, e));
    }
  }

  // One release later the limit can be raised one release sooner.
  lemma LaterCalm(cfg: Settings, s: State, t: State, k: nat)
    requires 1 < k <= s.holders && Calm(cfg, s, k) && s.lost < Peak(cfg, Raised(cfg, s.concurrency), s.holders - k)
    requires t.holders == s.holders - 1 && t.handed == {} && t.lost == s.lost
    requires t.concurrency == s.concurrency && t.latencies == s.latencies + [0]
    ensures !Exhausted(cfg, t)
  {
    TotalSnoc(s.latencies, 0);
    assert |t.handed| == 0;
    hide Total, Peak, Raised, Halved;
    assert Calm(cfg, t, k - 1);
    assert Releases(t) - (k - 1) == s.holders - k;
  }

  lemma ReceiveOne(cfg: Settings, s: State, x: nat)
    requires 1 <= cfg.min <= cfg.max && Safe(cfg, s) && !Exhausted(cfg, s) && x in s.handed
    ensures Enabled(s, Receive(x))
    ensures var t := Step(cfg, s, Receive(x));
      Safe(cfg, t) && !Exhausted(cfg, t) && t.holders + |t.handed| == s.holders + |s.handed| && |t.handed| < |s.handed|
  {
    assert |s.handed - {x}| == |s.handed| - 1;
    StepSafe(cfg, s, Receive(x));
    SameExhausted(cfg, s, Step(cfg, s, Receive(x)));
  }

  lemma AcquireGrants(cfg: Settings, s: State)
    requires s.active < s.concurrency
    ensures Enabled(s, Acquire) && Grants(s, Step(cfg, s, Acquire))
  {
  }

  // Unless the slots are exhausted, some run grants one: receive what is handed over, then release.
  lemma {:induction false} SomeRunGrants(cfg: Settings, s: State) returns (events: seq<Event>, t: State)
    requires 1 <= cfg.min <= cfg.max && Safe(cfg, s) && !Exhausted(cfg, s)
    ensures IsRun(cfg, s, events, t) && GrantsNext(cfg, t)
    decreases s.holders + |s.handed|, |s.handed|
  {
    hide *;
    if s.active < s.concurrency {
      AcquireGrants(cfg, s);
      events, t := GrantNow(cfg, s, Acquire);
    } else if x :| x in s.handed {
      ReceiveOne(cfg, s, x);
      events, t := SomeRunGrants(cfg, Step(cfg, s, Receive(x)));
      events := RunCons(cfg, s, Receive(x), events, t);
    } else {
      assert s.handed == {};
      var e := NextRelease(cfg, s);
      if Grants(s, Step(cfg, s, e)) {
        events, t := GrantNow(cfg, s, e);
      } else {
        events, t := SomeRunGrants(cfg, Step(cfg, s, e));
        events := RunCons(cfg, s, e, events, t);
      }
    }
  }

  lemma GrantNow(cfg: Settings, s: State, e: Event) returns (events: seq<Event>, t: State)
    requires Enabled(s, e) && Grants(s, Step(cfg, s, e))
    ensures events == [] && t == s && IsRun(cfg, s, events, t) && GrantsNext(cfg, t)
  {
    events, t := [], s;
  }

  lemma RunCons(cfg: Settings, s: State, e: Event, rest: seq<Event>, t: State) returns (events: seq<Event>)
    requires Enabled(s, e) && IsRun(cfg, Step(cfg, s, e), rest, t)
    ensures IsRun(cfg, s, events, t)
  {
    hide Step, Enabled;
    events := [e] + rest;
    assert events[1..] == rest;
  }

  // No slot is ever granted again, by any calls with latencies of at least zero and a clock
  // that does not go back, exactly when the lost slots reach all the limit can grow to.
  lemma NeverGrantsIff(cfg: Settings, s: State)
    requires 1 <= cfg.min <= cfg.max && Safe(cfg, s)
    ensures NeverGrants(cfg, s) <==> Exhausted(cfg, s)
  {
    hide Exhausted, Safe, GrantsNext, IsRun;
    if Exhausted(cfg, s) {
      forall events, t | IsRun(cfg, s, events, t)
        ensures !GrantsNext(cfg, t)
      {
        ExhaustedForever(cfg, s, events, t);
      }
    } else {
      var events, t := SomeRunGrants(cfg, s);
    }
  }

  // Without a cancellation no slot is lost, holders and hand-offs are the active slots,
  // and waiters always have one of them to wait for.
  lemma {:induction false} NeverStranded(cfg: Settings, s: State, events: seq<Event>, t: State)
    requires 1 <= cfg.min <= cfg.max && Safe(cfg, s) && s.lost == 0 && IsRun(cfg, s, events, t)
    requires forall i :: 0 <= i < |events| ==> !events[i].Cancel?
    ensures t.lost == 0 && t.active == t.holders + |t.handed| && !NeverGrants(cfg, t)
    ensures t.waiters != [] ==> t.holders > 0 || t.handed != {}
    decreases events
  {
    hide NeverGrants;
    if events == [] {
      assert t.handed == {} ==> |t.handed| == 0;
      NeverGrantsIff(cfg, t);
    } else {
      StepSafe(cfg, s, events[0]);
      NeverStranded(cfg, Step(cfg, s, events[0]), events[1..], t);
    }
  }

  // One cancellation after a hand-over is enough to stop a controller with limit one.
  lemma CancelledHandOverStops(now: int)
    ensures var cfg := Normalise(Settings(1, 1, 1, 0, 0));
            exists t :: IsRun(cfg, Initial(cfg, now), [Acquire, Acquire, Release(0, now), Cancel(0)], t)
              && NeverGrants(cfg, t)
  {
    var cfg := Normalise(Settings(1, 1, 1, 0, 0));
    var s1 := Step(cfg, Initial(cfg, now), Acquire);
    var s2 := Step(cfg, s1, Acquire);
    assert s2.waiters == [0];
    var s3 := Step(cfg, s2, Release(0, now));
    assert s3.handed == {0} && s3.waiters == [];
    var s4 := Step(cfg, s3, Cancel(0));
    assert s4.handed == {} && s4.lost == 1;
    hide Step, NeverGrants, Enabled;
    RunFour(cfg, Initial(cfg, now), s1, s2, s3, s4, Acquire, Acquire, Release(0, now), Cancel(0));
    NeverGrantsIff(cfg, s4) by {
      RunSafe(cfg, Initial(cfg, now), [Acquire, Acquire, Release(0, now), Cancel(0)], s4);
    }
  }

  lemma RunFour(cfg: Settings, s0: State, s1: State, s2: State, s3: State, s4: State, a: Event, b: Event, c: Event,
                d: Event)
    requires Enabled(s0, a) && s1 == Step(cfg, s0, a) && Enabled(s1, b) && s2 == Step(cfg, s1, b)
    requires Enabled(s2, c) && s3 == Step(cfg, s2, c) && Enabled(s3, d) && s4 == Step(cfg, s3, d)
    ensures IsRun(cfg, s0, [a, b, c, d], s4)
  {
    hide Step, Enabled;
    assert [a, b, c, d][1..] == [b, c, d] && [b, c, d][1..] == [c, d] && [c, d][1..] == [d] && [d][1..] == [];
    assert IsRun(cfg, s4, [], s4);
    assert IsRun(cfg, s3, [d], s4);
    assert IsRun(cfg, s2, [c, d], s4);
    assert IsRun(cfg, s1, [b, c, d], s4);
  }

  // ----- the controller object -----

  class BackpressureController {
    const cfg: Settings
    var concurrency: int
    var active: int
    var waiters: seq<nat>
    var latencies: seq<int>
    var lastAdjust: int
    var next: nat
    ghost var clock: int
    // the callers' side
    ghost var holders: nat
    ghost var handed: set<nat>
    ghost var lost: nat

    ghost function Now(): State
      reads this
    {
      State(concurrency, active, waiters, latencies, lastAdjust, clock, holders, handed, lost, next)
    }

    constructor (c: Settings, now: int)
      ensures cfg == Normalise(c) && Now() == Initial(cfg, now)
      ensures concurrency == cfg.initial && active == 0 && waiters == [] && latencies == [] && lastAdjust == now
    {
      var n := Normalise(c);
      cfg := n;
      concurrency, active, waiters, latencies, lastAdjust, next := n.initial, 0, [], [], now, 0;
      clock, holders, handed, lost := now, 0, {}, 0;
    }

    // The critical section at the start of acquire; None means a slot was taken.
    method Enter() returns (ticket: Option<nat>)
      modifies this
      ensures Now() == Step(cfg, old(Now()), Acquire)
      ensures ticket == if old(active < concurrency) then None else Some(old(next))
      ensures ticket.None? ==> active == old(active) + 1 && waiters == old(waiters)
      ensures ticket.Some? ==> active == old(active) && waiters == old(waiters) + [ticket.value]
      ensures concurrency == old(concurrency)
    {
      if active < concurrency {
        active := active + 1;
        holders := holders + 1;
        return None;
      }
      ticket := Some(next);
      waiters := waiters + [next];
      next := next + 1;
    }

    // The waiter's select takes <-ch.
    ghost method TakeHanded(ticket: nat)
      requires ticket in handed
      modifies `handed, `holders
      ensures Now() == Step(cfg, old(Now()), Receive(ticket))
    {
      handed := handed - {ticket};
      holders := holders + 1;
    }

    // The waiter's select takes ctx.Done: it removes itself from the queue if it is still there.
    method GiveUp(ticket: nat)
      requires Enabled(Now(), Cancel(ticket)) && Distinct(waiters)
      modifies this
      ensures Now() == Step(cfg, old(Now()), Cancel(ticket))
      ensures ticket in old(waiters) ==>
        exists i :: 0 <= i < |old(waiters)| && old(waiters)[i] == ticket
                    && waiters == old(waiters)[..i] + old(waiters)[i + 1..]
      ensures ticket !in old(waiters) ==> waiters == old(waiters)
      ensures active == old(active) && concurrency == old(concurrency)
    {
      if ticket !in waiters {
        handed := handed - {ticket};
        lost := lost + 1;
      }
      ghost var before := waiters;
      var i := 0;
      while i < |waiters|
        invariant i <= |waiters| && waiters == before
        invariant ticket !in waiters[..i]
      {
        if waiters[i] == ticket {
          RemoveAt(waiters, i);
          waiters := waiters[..i] + waiters[i + 1..];
          return;
        }
        i := i + 1;
      }
    }

    method SlotRelease(latency: int, now: int)
      requires holders > 0 && latency >= 0 && now >= clock
      modifies this
      ensures Now() == Step(cfg, old(Now()), Release(latency, now))
      // a slot that is handed over goes to the caller at the head of the queue
      ensures handed == old(handed) || (old(waiters) != [] && handed == old(handed) + {old(waiters)[0]})
      ensures if old(waiters) != [] && old(active) <= concurrency
              then waiters == old(waiters)[1..] && active == old(active)
                   && handed == old(handed) + {old(waiters)[0]}
              else waiters == old(waiters) && active == old(active) - 1 && handed == old(handed)
    {
      hide Adjust, Total, TruncDiv;
      clock, holders := now, holders - 1;
      latencies := latencies + [latency];
      MaybeAdjust(now);
      if |waiters| > 0 && active <= concurrency {
        handed := handed + {waiters[0]};
        waiters := waiters[1..];
      } else {
        active := active - 1;
        if |waiters| > 0 && active < concurrency {
          // the second wake-up of release: with waiters, active was above the limit before
          assert false;
        }
      }
    }

    method MaybeAdjust(now: int)
      modifies `concurrency, `latencies, `lastAdjust
      ensures Now() == Adjust(cfg, old(Now()), now)
    {
      if now - lastAdjust < cfg.interval {
        return;
      }
      if |latencies| == 0 {
        return;
      }
      var total, i := 0, 0;
      while i < |latencies|
        invariant i <= |latencies| && total == Total(latencies[..i])
      {
        assert latencies[..i + 1][..i] == latencies[..i];
        total := total + latencies[i];
        i := i + 1;
      }
      assert latencies[..i] == latencies;
      var avgLatency := TruncDiv(total, |latencies|);
      latencies := [];
      lastAdjust := now;
      if avgLatency > cfg.threshold {
        concurrency := if TruncDiv(concurrency, 2) > cfg.min then TruncDiv(concurrency, 2) else cfg.min;
      } else {
        concurrency := if concurrency + 1 < cfg.max then concurrency + 1 else cfg.max;
      }
    }
  }

  lemma {:induction false} RemoveAt(waiters: seq<nat>, i: nat)
    requires i < |waiters| && waiters[i] !in waiters[..i]
    ensures Remove(waiters, waiters[i]) == waiters[..i] + waiters[i + 1..]
  {
    if i > 0 {
      var t := waiters[i];
      assert waiters[0] in waiters[..i];
      assert waiters[1..][..i - 1] == waiters[..i][1..];
      RemoveAt(waiters[1..], i - 1);
      assert [waiters[0]] + (waiters[1..][..i - 1] + waiters[1..][i..]) == waiters[..i] + waiters[i + 1..];
    }
  }
}
