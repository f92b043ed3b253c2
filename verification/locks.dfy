// The slots a launched node takes: first the global one, then one per resource tag in
// sorted order (orchestrate/dag.go, orchestrate/resource.go). Goroutines interleave at
// every channel operation; each of their operations is one step.
module Locks {
  import opened Types
  import opened Lex
  import TokenBuckets

  datatype Lock = Global | Tag(name: string)

  // The order in which slots are taken.
  predicate Below(a: Lock, b: Lock) {
    match (a, b)
    case (Global, Tag(_)) => true
    case (Tag(x), Tag(y)) => Lt(x, y)
    case _ => false
  }

  datatype Phase =
    | Acquiring(taken: nat)         // the first `taken` slots of the plan are held
    | Limiting                      // all slots are held; waiting for rate tokens
    | Working                       // the runner runs
    | Releasing(rest: seq<Lock>)    // the slots in rest are still held
    | Finished

  // A goroutine with the slots it takes, in order, and its phase. A starved one waits for
  // tokens that a bucket never grants.
  datatype Worker = Worker(plan: seq<Lock>, starved: bool, phase: Phase)

  datatype State = State(workers: seq<Worker>, occupied: map<Lock, nat>)

  // acquire skips tags without a concurrency limit.
  function Limited(tags: seq<string>, limits: map<Lock, nat>): seq<Lock> {
    if tags == [] then []
    else if Tag(tags[0]) in limits then [Tag(tags[0])] + Limited(tags[1..], limits)
    else Limited(tags[1..], limits)
  }

  // The slots of a node: the global slot if there is a global limit, then its sorted tags.
  function Plan(tags: seq<string>, limits: map<Lock, nat>): seq<Lock> {
    (if Global in limits then [Global] else []) + Limited(SortBy(tags, Self), limits)
  }

  // Some tag of the node has a bucket with less than one token per second.
  predicate Starved(tags: seq<string>, rates: map<string, real>) {
    exists t :: t in tags && t in rates && rates[t] < 1.0
  }

  ghost predicate NeverFills(rate: real, now: int) {
    forall times :: TokenBuckets.Grants(TokenBuckets.Fresh(rate, now), times) == 0
  }

  lemma NeverFillsIff(rate: real, now: int)
    ensures NeverFills(rate, now) <==> rate < 1.0
  {
    TokenBuckets.GrantsIffRate(rate, now);
    if rate >= 1.0 {
      var times :| TokenBuckets.Grants(TokenBuckets.Fresh(rate, now), times) > 0;
    } else {
      forall times
        ensures TokenBuckets.Grants(TokenBuckets.Fresh(rate, now), times) == 0
      {
        assert !(TokenBuckets.Grants(TokenBuckets.Fresh(rate, now), times) > 0);
      }
    }
  }

  // Those are the nodes with a bucket that never grants anything.
  lemma StarvedIff(tags: seq<string>, rates: map<string, real>, now: int)
    ensures Starved(tags, rates) <==> exists t :: t in tags && t in rates && NeverFills(rates[t], now)
  {
    hide NeverFills;
    forall t | t in rates
      ensures rates[t] < 1.0 <==> NeverFills(rates[t], now)
    {
      NeverFillsIff(rates[t], now);
    }
  }

  function Held(w: Worker): seq<Lock> {
    match w.phase
    case Acquiring(k) => if k <= |w.plan| then w.plan[..k] else w.plan
    case Limiting => w.plan
    case Working => w.plan
    case Releasing(rest) => rest
    case Finished => []
  }

  // Tags are released before the global slot, which is a deferred call.
  function ReleaseOrder(held: seq<Lock>): seq<Lock> {
    if held != [] && held[0] == Global then held[1..] + [Global] else held
  }

  // Worker i can take its next step without being cancelled.
  predicate CanStep(limits: map<Lock, nat>, s: State, i: nat) {
    i < |s.workers| &&
    match s.workers[i].phase
    case Acquiring(k) =>
      k < |s.workers[i].plan| ==>
        var l := s.workers[i].plan[k];
        l in s.occupied && l in limits && s.occupied[l] < limits[l]
    case Limiting => !s.workers[i].starved
    case Finished => false
    case _ => true
  }

  predicate CanCancel(s: State, i: nat) {
    i < |s.workers| && (s.workers[i].phase.Acquiring? || s.workers[i].phase.Limiting?)
  }

  function Step(limits: map<Lock, nat>, s: State, i: nat): State
    requires CanStep(limits, s, i)
  {
    var w := s.workers[i];
    match w.phase
    case Acquiring(k) =>
      if k < |w.plan| then
        State(s.workers[i := w.(phase := Acquiring(k + 1))], s.occupied[w.plan[k] := s.occupied[w.plan[k]] + 1])
      else s.(workers := s.workers[i := w.(phase := Limiting)])
    case Limiting => s.(workers := s.workers[i := w.(phase := Working)])
    case Working => s.(workers := s.workers[i := w.(phase := Releasing(ReleaseOrder(w.plan)))])
    case Releasing(rest) =>
      if rest == [] then s.(workers := s.workers[i := w.(phase := Finished)])
      else
        // a non-blocking receive: an empty channel stays empty
        State(s.workers[i := w.(phase := Releasing(rest[1..]))],
              if rest[0] in s.occupied && s.occupied[rest[0]] > 0
              then s.occupied[rest[0] := s.occupied[rest[0]] - 1] else s.occupied)
  }

  // The context is cancelled: the slots taken so far are given back.
  function Cancel(s: State, i: nat): State
    requires CanCancel(s, i)
  {
    s.(workers := s.workers[i := s.workers[i].(phase := Releasing(ReleaseOrder(Held(s.workers[i]))))])
  }

  // ----- the invariant -----

  // Sorted tags: a tag named twice stands next to itself.
  ghost predicate Ordered(plan: seq<Lock>) {
    forall i, j :: 0 <= i < j < |plan| ==> plan[i] == plan[j] || Below(plan[i], plan[j])
  }

  ghost predicate WellPlanned(limits: map<Lock, nat>, w: Worker) {
    && Ordered(w.plan)
    && (forall l :: l in w.plan ==> l in limits)
    && (w.phase.Acquiring? ==> w.phase.taken <= |w.plan|)
    && forall l :: l in Held(w) ==> l in limits
  }

  // How many slots of l the workers hold together.
  function Holders(workers: seq<Worker>, l: Lock): nat {
    if workers == [] then 0
    else Holders(workers[..|workers| - 1], l) + multiset(Held(workers[|workers| - 1]))[l]
  }

  // Every occupied slot belongs to a worker that holds it, within the limit.
  ghost predicate Safe(limits: map<Lock, nat>, s: State) {
    && s.occupied.Keys == limits.Keys
    && (forall i :: 0 <= i < |s.workers| ==> WellPlanned(limits, s.workers[i]))
    && (forall l :: l in limits ==> s.occupied[l] == Holders(s.workers, l) <= limits[l])
  }

  lemma {:induction false} HoldersUpdate(workers: seq<Worker>, i: nat, w: Worker, l: Lock)
    requires i < |workers|
    ensures Holders(workers[i := w], l) + multiset(Held(workers[i]))[l] == Holders(workers, l) + multiset(Held(w))[l]
  {
    var n := |workers| - 1;
    if i < n {
      assert workers[i := w][..n] == workers[..n][i := w];
      HoldersUpdate(workers[..n], i, w, l);
    } else {
      assert workers[i := w][..n] == workers[..n];
    }
  }

  // A step that changes only worker i, and the occupancy by what it takes or gives back.
  lemma SafeUpdate(limits: map<Lock, nat>, s: State, i: nat, w: Worker, occupied: map<Lock, nat>)
    requires Safe(limits, s) && i < |s.workers| && WellPlanned(limits, w) && occupied.Keys == limits.Keys
    requires forall l :: l in limits ==>
      occupied[l] + multiset(Held(s.workers[i]))[l] == s.occupied[l] + multiset(Held(w))[l]
    requires forall l :: l in limits ==> occupied[l] <= limits[l]
    ensures Safe(limits, State(s.workers[i := w], occupied))
  {
    hide WellPlanned, Held;
    forall l | l in limits
      ensures occupied[l] == Holders(s.workers[i := w], l)
    {
      HoldersUpdate(s.workers, i, w, l);
    }
  }

  lemma ReleaseOrderKeeps(held: seq<Lock>)
    ensures multiset(ReleaseOrder(held)) == multiset(held) && |ReleaseOrder(held)| == |held|
    ensures forall l :: l in ReleaseOrder(held) <==> l in held
  {
    if held != [] && held[0] == Global {
      assert held == [held[0]] + held[1..];
    }
  }

  // Worker w holds the same slots in another phase.
  lemma SameHeld(limits: map<Lock, nat>, w: Worker, v: Worker)
    requires WellPlanned(limits, w) && v.plan == w.plan && multiset(Held(v)) == multiset(Held(w)) && !v.phase.Acquiring?
    ensures WellPlanned(limits, v)
  {
    assert forall l :: l in Held(v) ==> l in multiset(Held(v));
  }

  lemma TakeOne(limits: map<Lock, nat>, w: Worker)
    requires WellPlanned(limits, w) && w.phase.Acquiring? && w.phase.taken < |w.plan|
    ensures var v := w.(phase := Acquiring(w.phase.taken + 1));
            WellPlanned(limits, v) && Held(v) == Held(w) + [w.plan[w.phase.taken]]
    ensures w.plan[w.phase.taken] in limits
  {
    var k := w.phase.taken;
    assert w.plan[..k + 1] == w.plan[..k] + [w.plan[k]];
  }

  lemma GiveOne(limits: map<Lock, nat>, w: Worker)
    requires WellPlanned(limits, w) && w.phase.Releasing? && w.phase.rest != []
    ensures var v := w.(phase := Releasing(w.phase.rest[1..]));
            WellPlanned(limits, v) && Held(w) == [w.phase.rest[0]] + Held(v)
    ensures w.phase.rest[0] in limits
  {
  }

  lemma TakeSafe(limits: map<Lock, nat>, s: State, i: nat)
    requires Safe(limits, s) && CanStep(limits, s, i)
    requires s.workers[i].phase.Acquiring? && s.workers[i].phase.taken < |s.workers[i].plan|
    ensures Safe(limits, Step(limits, s, i))
  {
    var w, t := s.workers[i], Step(limits, s, i);
    TakeOne(limits, w) by { assert WellPlanned(limits, w); }
    hide WellPlanned, Held;
    SafeUpdate(limits, s, i, t.workers[i], t.occupied);
  }

  lemma GiveSafe(limits: map<Lock, nat>, s: State, i: nat)
    requires Safe(limits, s) && CanStep(limits, s, i)
    requires s.workers[i].phase.Releasing? && s.workers[i].phase.rest != []
    ensures Safe(limits, Step(limits, s, i))
  {
    var w, t := s.workers[i], Step(limits, s, i);
    GiveOne(limits, w) by { assert WellPlanned(limits, w); }
    hide WellPlanned, Held;
    HeldCounted(s.workers, i, w.phase.rest[0]);
    SafeUpdate(limits, s, i, t.workers[i], t.occupied);
  }

  // A worker that goes on to phase next holds what it held.
  lemma QuietSafe(limits: map<Lock, nat>, s: State, i: nat, next: Phase)
    requires Safe(limits, s) && i < |s.workers| && !next.Acquiring?
    requires multiset(Held(s.workers[i].(phase := next))) == multiset(Held(s.workers[i]))
    ensures Safe(limits, s.(workers := s.workers[i := s.workers[i].(phase := next)]))
  {
    SameHeld(limits, s.workers[i], s.workers[i].(phase := next)) by { assert WellPlanned(limits, s.workers[i]); }
    hide WellPlanned, Held;
    SafeUpdate(limits, s, i, s.workers[i].(phase := next), s.occupied);
  }

  // The next phase of a worker that neither takes nor gives back a slot.
  function Turned(w: Worker): Phase {
    match w.phase
    case Acquiring(_) => Limiting
    case Limiting => Working
    case Working => Releasing(ReleaseOrder(w.plan))
    case Releasing(_) => Finished
    case Finished => Finished
  }

  lemma TurnHeld(w: Worker)
    requires w.phase.Acquiring? ==> w.phase.taken == |w.plan|
    requires w.phase.Releasing? ==> w.phase.rest == []
    ensures multiset(Held(w.(phase := Turned(w)))) == multiset(Held(w))
  {
    if w.phase.Acquiring? {
      assert w.plan[..w.phase.taken] == w.plan;
    }
    ReleaseOrderKeeps(w.plan);
  }

  lemma TurnSafe(limits: map<Lock, nat>, s: State, i: nat)
    requires Safe(limits, s) && CanStep(limits, s, i)
    requires s.workers[i].phase.Acquiring? ==> s.workers[i].phase.taken >= |s.workers[i].plan|
    requires s.workers[i].phase.Releasing? ==> s.workers[i].phase.rest == []
    ensures Safe(limits, Step(limits, s, i))
  {
    var w := s.workers[i];
    assert w.phase.Acquiring? ==> w.phase.taken == |w.plan| by { assert WellPlanned(limits, w); }
    hide Safe, Held, ReleaseOrder;
    TurnHeld(w);
    QuietSafe(limits, s, i, Turned(w));
  }

  lemma StepSafe(limits: map<Lock, nat>, s: State, i: nat)
    requires Safe(limits, s) && CanStep(limits, s, i)
    ensures Safe(limits, Step(limits, s, i))
  {
    assert i < |s.workers|;
    hide *;
    if s.workers[i].phase.Acquiring? && s.workers[i].phase.taken < |s.workers[i].plan| {
      TakeSafe(limits, s, i);
    } else if s.workers[i].phase.Releasing? && s.workers[i].phase.rest != [] {
      GiveSafe(limits, s, i);
    } else {
      TurnSafe(limits, s, i);
    }
  }

  lemma {:induction false} HeldCounted(workers: seq<Worker>, i: nat, l: Lock)
    requires i < |workers|
    ensures Holders(workers, l) >= multiset(Held(workers[i]))[l]
  {
    var n := |workers| - 1;
    if i < n {
      HeldCounted(workers[..n], i, l);
    }
  }

  lemma CancelSafe(limits: map<Lock, nat>, s: State, i: nat)
    requires Safe(limits, s) && CanCancel(s, i)
    ensures Safe(limits, Cancel(s, i))
  {
    ReleaseOrderKeeps(Held(s.workers[i]));
    QuietSafe(limits, s, i, Releasing(ReleaseOrder(Held(s.workers[i]))));
  }

  // ----- all runs -----

  // A run: each entry names a worker and whether it is cancelled.
  ghost predicate IsRun(limits: map<Lock, nat>, s: State, schedule: seq<(nat, bool)>, t: State)
    decreases schedule
  {
    if schedule == [] then t == s
    else
      var (i, cancel) := schedule[0];
      if cancel then CanCancel(s, i) && IsRun(limits, Cancel(s, i), schedule[1..], t)
      else CanStep(limits, s, i) && IsRun(limits, Step(limits, s, i), schedule[1..], t)
  }

  ghost predicate Reachable(limits: map<Lock, nat>, s: State, t: State) {
    exists schedule :: IsRun(limits, s, schedule, t)
  }

  ghost predicate Planned(s: State, plans: seq<seq<Lock>>) {
    |s.workers| == |plans| && forall i :: 0 <= i < |plans| ==> s.workers[i].plan == plans[i]
  }

  lemma {:induction false} RunSafe(limits: map<Lock, nat>, s: State, schedule: seq<(nat, bool)>, t: State,
                                   plans: seq<seq<Lock>>)
    requires Safe(limits, s) && Planned(s, plans) && IsRun(limits, s, schedule, t)
    ensures Safe(limits, t) && Planned(t, plans)
    decreases schedule
  {
    if schedule != [] {
      hide Safe;
      var (i, cancel) := schedule[0];
      if cancel {
        CancelSafe(limits, s, i);
        RunSafe(limits, Cancel(s, i), schedule[1..], t, plans);
      } else {
        StepSafe(limits, s, i);
        RunSafe(limits, Step(limits, s, i), schedule[1..], t, plans);
      }
    }
  }

  lemma {:induction false} RunKeepsStarved(limits: map<Lock, nat>, s: State, schedule: seq<(nat, bool)>, t: State)
    requires IsRun(limits, s, schedule, t)
    ensures |t.workers| == |s.workers|
    ensures forall i :: 0 <= i < |s.workers| ==> t.workers[i].starved == s.workers[i].starved
    decreases schedule
  {
    if schedule != [] {
      var (i, cancel) := schedule[0];
      RunKeepsStarved(limits, if cancel then Cancel(s, i) else Step(limits, s, i), schedule[1..], t);
    }
  }

  lemma {:induction false} RunAppend(limits: map<Lock, nat>, s: State, a: seq<(nat, bool)>, t: State,
                                     b: seq<(nat, bool)>, u: State)
    requires IsRun(limits, s, a, t) && IsRun(limits, t, b, u)
    ensures IsRun(limits, s, a + b, u)
    decreases a
  {
    if a == [] {
      assert a + b == b;
    } else {
      hide Step, Cancel, CanStep, CanCancel;
      var (i, cancel) := a[0];
      assert (a + b)[1..] == a[1..] + b;
      RunAppend(limits, if cancel then Cancel(s, i) else Step(limits, s, i), a[1..], t, b, u);
    }
  }

  // One step before a run.
  lemma StepRun(limits: map<Lock, nat>, s: State, i: nat, rest: seq<(nat, bool)>, t: State)
    requires CanStep(limits, s, i) && IsRun(limits, Step(limits, s, i), rest, t)
    ensures IsRun(limits, s, [(i, false)] + rest, t)
  {
    hide Step, CanStep;
    assert ([(i, false)] + rest)[1..] == rest;
  }

  function Plans(tagLists: seq<seq<string>>, limits: map<Lock, nat>): seq<seq<Lock>> {
    seq(|tagLists|, i requires 0 <= i < |tagLists| => Plan(tagLists[i], limits))
  }

  // The start of any number of nodes with the given tag lists.
  function Start(tagLists: seq<seq<string>>, limits: map<Lock, nat>, rates: map<string, real>): State {
    State(seq(|tagLists|, i requires 0 <= i < |tagLists| =>
                Worker(Plan(tagLists[i], limits), Starved(tagLists[i], rates), Acquiring(0))),
          map l | l in limits :: 0)
  }

  lemma StartSafe(tagLists: seq<seq<string>>, limits: map<Lock, nat>, rates: map<string, real>)
    ensures Safe(limits, Start(tagLists, limits, rates))
    ensures Planned(Start(tagLists, limits, rates), Plans(tagLists, limits))
  {
    hide Plan, Starved;
    var s := Start(tagLists, limits, rates);
    forall i | 0 <= i < |s.workers|
      ensures WellPlanned(limits, s.workers[i])
    {
      PlanOrdered(tagLists[i], limits);
    }
    forall l | l in limits
      ensures Holders(s.workers, l) == 0
    {
      NobodyHolds(s.workers, l);
    }
  }

  lemma {:induction false} NobodyHolds(workers: seq<Worker>, l: Lock)
    requires forall i :: 0 <= i < |workers| ==> workers[i].phase == Acquiring(0)
    ensures Holders(workers, l) == 0
  {
    if workers != [] {
      NobodyHolds(workers[..|workers| - 1], l);
    }
  }

  // ----- plans -----

  // The global slot first, then the limited tags in order; every slot in it has a limit.
  lemma PlanOrdered(tags: seq<string>, limits: map<Lock, nat>)
    ensures Ordered(Plan(tags, limits)) && forall l :: l in Plan(tags, limits) ==> l in limits
  {
    SortBySorted(tags, Self);
    var sorted := SortBy(tags, Self);
    LimitedOrdered(sorted, limits);
    var plan := Plan(tags, limits);
    forall i, j | 0 <= i < j < |plan|
      ensures plan[i] == plan[j] || Below(plan[i], plan[j])
    {
      if Global in limits && i == 0 {
        assert plan[j] in Limited(sorted, limits);
      }
    }
  }

  lemma {:induction false} LimitedOrdered(tags: seq<string>, limits: map<Lock, nat>)
    requires SortedBy(tags, Self)
    ensures Ordered(Limited(tags, limits))
    ensures forall l :: l in Limited(tags, limits) ==> l.Tag? && l in limits && l.name in tags
  {
    if tags != [] {
      LimitedOrdered(tags[1..], limits);
      forall l | l in Limited(tags[1..], limits)
        ensures l == Tag(tags[0]) || Below(Tag(tags[0]), l)
      {
        var k :| 0 <= k < |tags| - 1 && tags[1..][k] == l.name;
        assert tags[k + 1] == l.name;
        assert Le(Self(tags[0]), Self(tags[k + 1]));
      }
    }
  }

  // A plan takes a limited tag as often as the node names it, and the global slot once.
  lemma PlanCounts(tags: seq<string>, limits: map<Lock, nat>, l: Lock)
    ensures multiset(Plan(tags, limits))[l] ==
      if l !in limits then 0 else if l == Global then 1 else multiset(tags)[l.name]
  {
    var sorted := SortBy(tags, Self);
    LimitedCounts(sorted, limits, l);
  }

  lemma {:induction false} LimitedCounts(tags: seq<string>, limits: map<Lock, nat>, l: Lock)
    ensures multiset(Limited(tags, limits))[l] == if l in limits && l.Tag? then multiset(tags)[l.name] else 0
  {
    if tags != [] {
      assert tags == [tags[0]] + tags[1..];
      LimitedCounts(tags[1..], limits, l);
    }
  }

  // ----- when a deadlock is reachable -----

  ghost predicate Unfinished(s: State, i: nat) {
    i < |s.workers| && !s.workers[i].phase.Finished?
  }

  // Somebody is unfinished, and nobody can step.
  ghost predicate Stuck(limits: map<Lock, nat>, s: State) {
    (exists i :: Unfinished(s, i)) && forall i :: !CanStep(limits, s, i)
  }

  // All slots of lock l that the nodes in `group` take.
  function Taken(plans: seq<seq<Lock>>, group: set<nat>, l: Lock): nat {
    if plans == [] then 0
    else
      var n := |plans| - 1;
      Taken(plans[..n], group, l) + if n in group then multiset(plans[n])[l] else 0
  }

  // The slots of l that the nodes in `group` can hold while each still waits for one more.
  function Spare(plans: seq<seq<Lock>>, group: set<nat>, l: Lock): nat {
    if plans == [] then 0
    else
      var n := |plans| - 1;
      Spare(plans[..n], group, l) + if n in group && multiset(plans[n])[l] > 0 then multiset(plans[n])[l] - 1 else 0
  }

  ghost predicate Used(plans: seq<seq<Lock>>, l: Lock) {
    exists i :: 0 <= i < |plans| && l in plans[i]
  }

  // The group fits below l all at once, and can then take every slot of l while each of
  // its nodes waits for one more.
  ghost predicate Jams(limits: map<Lock, nat>, plans: seq<seq<Lock>>, l: Lock, group: set<nat>) {
    && l in limits && Used(plans, l)
    && (forall x :: x in limits && Below(x, l) ==> Taken(plans, group, x) <= limits[x])
    && limits[l] <= Spare(plans, group, l)
  }

  // Worker i waits for the slot l.
  predicate Wants(s: State, i: nat, l: Lock) {
    i < |s.workers| && s.workers[i].phase.Acquiring? && s.workers[i].phase.taken < |s.workers[i].plan|
    && s.workers[i].plan[s.workers[i].phase.taken] == l
  }

  lemma BelowTransitive(a: Lock, b: Lock, c: Lock)
    requires Below(a, b) && Below(b, c)
    ensures Below(a, c)
  {
    if a.Tag? {
      LtTransitive(a.name, b.name, c.name);
    }
  }

  lemma BelowIrreflexive(a: Lock)
    ensures !Below(a, a)
  {
    if a.Tag? {
      LtIrreflexive(a.name);
    }
  }

  lemma BelowTotal(a: Lock, b: Lock)
    ensures a == b || Below(a, b) || Below(b, a)
  {
    if a.Tag? && b.Tag? {
      LtTotal(a.name, b.name);
    }
  }

  // The greatest slot that one of the first n workers waits for.
  lemma {:induction false} TopWanted(s: State, n: nat) returns (l: Option<Lock>)
    requires n <= |s.workers|
    ensures l.Some? ==> exists i: nat :: i < n && Wants(s, i, l.value)
    ensures forall i: nat, k :: i < n && Wants(s, i, k) ==> l.Some? && (k == l.value || Below(k, l.value))
  {
    l := None;
    if n > 0 {
      l := TopWanted(s, n - 1);
      var w := s.workers[n - 1];
      if w.phase.Acquiring? && w.phase.taken < |w.plan| {
        var k := w.plan[w.phase.taken];
        assert Wants(s, n - 1, k);
        if l.None? {
          l := Some(k);
        } else {
          BelowTotal(k, l.value);
          if Below(l.value, k) {
            forall i: nat, x | i < n - 1 && Wants(s, i, x)
              ensures x == k || Below(x, k)
            {
              if x != l.value {
                BelowTransitive(x, l.value, k);
              }
            }
            l := Some(k);
          }
        }
      }
    }
  }

  // No worker waits for tokens in vain.
  ghost predicate Fed(s: State) {
    forall i :: 0 <= i < |s.workers| ==> !s.workers[i].starved
  }

  // In a stuck state every unfinished worker waits for a lock that is full.
  lemma StuckWants(limits: map<Lock, nat>, s: State, i: nat)
    requires Safe(limits, s) && Fed(s) && Stuck(limits, s) && Unfinished(s, i)
    ensures var w := s.workers[i];
      && w.phase.Acquiring? && w.phase.taken < |w.plan| && Wants(s, i, w.plan[w.phase.taken])
      && w.plan[w.phase.taken] in limits && s.occupied[w.plan[w.phase.taken]] == limits[w.plan[w.phase.taken]]
  {
    assert !CanStep(limits, s, i);
    assert WellPlanned(limits, s.workers[i]);
  }

  // The holders of the greatest lock waited for jam it.
  lemma StuckJams(limits: map<Lock, nat>, s: State, plans: seq<seq<Lock>>) returns (l: Lock, group: set<nat>)
    requires Safe(limits, s) && Fed(s) && Planned(s, plans) && Stuck(limits, s)
    ensures Jams(limits, plans, l, group)
  {
    l := GreatestWanted(limits, s);
    group := set i | 0 <= i < |s.workers| && l in Held(s.workers[i]);
    HoldersWant(limits, s, l);
    hide Held, Stuck, Safe, Wants, Below, Taken, Spare;
    forall x | x in limits && Below(x, l)
      ensures Taken(plans, group, x) <= limits[x]
    {
      GroupFits(limits, s, plans, l, group, x);
    }
    GroupFills(limits, s, plans, l, group);
  }

  // Workers that wait for l fit below it, where they hold all they take.
  lemma GroupFits(limits: map<Lock, nat>, s: State, plans: seq<seq<Lock>>, l: Lock, group: set<nat>, x: Lock)
    requires Safe(limits, s) && Planned(s, plans) && x in limits && Below(x, l)
    requires forall i :: i in group ==> Wants(s, i, l)
    ensures Taken(plans, group, x) <= limits[x]
  {
    hide Held, Safe, Wants, Below;
    forall i | 0 <= i < |s.workers| && i in group
      ensures multiset(plans[i])[x] == multiset(Held(s.workers[i]))[x]
    {
      BelowIsHeld(limits, s, i, x, l);
    }
    TakenIsHeld(s.workers, plans, group, x);
    WithinLimit(limits, s, x);
  }

  // Workers that hold l and wait for l hold all its slots, and each is one short.
  lemma GroupFills(limits: map<Lock, nat>, s: State, plans: seq<seq<Lock>>, l: Lock, group: set<nat>)
    requires Safe(limits, s) && Planned(s, plans) && l in limits && l in s.occupied && s.occupied[l] == limits[l]
    requires forall i :: 0 <= i < |s.workers| ==> (i in group <==> l in Held(s.workers[i]))
    requires forall i :: i in group ==> Wants(s, i, l)
    ensures limits[l] <= Spare(plans, group, l)
  {
    hide Held, Safe, Wants;
    forall i | 0 <= i < |s.workers|
      ensures var c := multiset(Held(s.workers[i]))[l];
        if i in group then c < multiset(plans[i])[l] else c == 0
    {
      if i in group {
        OneMissing(limits, s, i, l);
      }
    }
    HeldIsSpare(s.workers, plans, group, l);
    WithinLimit(limits, s, l);
  }

  lemma WithinLimit(limits: map<Lock, nat>, s: State, l: Lock)
    requires Safe(limits, s) && l in limits
    ensures l in s.occupied && s.occupied[l] == Holders(s.workers, l) <= limits[l]
  {
  }

  // In a stuck state somebody waits for a full lock, and nobody for a greater one.
  lemma GreatestWanted(limits: map<Lock, nat>, s: State) returns (l: Lock)
    requires Safe(limits, s) && Fed(s) && Stuck(limits, s)
    ensures l in limits && s.occupied[l] == limits[l]
    ensures exists v :: 0 <= v < |s.workers| && l in s.workers[v].plan
    ensures forall i: nat, k :: i < |s.workers| && Wants(s, i, k) ==> k == l || Below(k, l)
  {
    var top := TopWanted(s, |s.workers|);
    var u :| Unfinished(s, u);
    StuckWants(limits, s, u);
    l := top.value;
    var v: nat :| v < |s.workers| && Wants(s, v, l);
    StuckWants(limits, s, v);
    assert l in s.workers[v].plan;
  }

  lemma HoldersWant(limits: map<Lock, nat>, s: State, l: Lock)
    requires Safe(limits, s) && Fed(s) && Stuck(limits, s)
    requires forall i: nat, k :: i < |s.workers| && Wants(s, i, k) ==> k == l || Below(k, l)
    ensures forall i :: 0 <= i < |s.workers| && l in Held(s.workers[i]) ==> Wants(s, i, l)
  {
    forall i | 0 <= i < |s.workers| && l in Held(s.workers[i])
      ensures Wants(s, i, l)
    {
      assert Unfinished(s, i);
      StuckWants(limits, s, i);
      hide Stuck, Safe;
      HolderWantsSame(limits, s, i, l);
    }
  }

  // A worker that holds l and waits for nothing above l, waits for l.
  lemma HolderWantsSame(limits: map<Lock, nat>, s: State, i: nat, l: Lock)
    requires Safe(limits, s) && i < |s.workers| && l in Held(s.workers[i])
    requires s.workers[i].phase.Acquiring? && s.workers[i].phase.taken < |s.workers[i].plan|
    requires var k := s.workers[i].plan[s.workers[i].phase.taken]; k == l || Below(k, l)
    ensures Wants(s, i, l)
  {
    var w := s.workers[i];
    var k := w.plan[w.phase.taken];
    assert WellPlanned(limits, w);
    var j :| 0 <= j < w.phase.taken && w.plan[j] == l;
    if k != l {
      BelowTransitive(l, k, l);
      BelowIrreflexive(l);
    }
  }

  // A worker that waits for l holds everything below l that it will ever take.
  lemma BelowIsHeld(limits: map<Lock, nat>, s: State, i: nat, x: Lock, l: Lock)
    requires Safe(limits, s) && Wants(s, i, l) && Below(x, l)
    ensures multiset(s.workers[i].plan)[x] == multiset(Held(s.workers[i]))[x]
  {
    var w := s.workers[i];
    var k := w.phase.taken;
    assert WellPlanned(limits, w);
    assert w.plan == w.plan[..k] + w.plan[k..];
    forall j | k <= j < |w.plan|
      ensures w.plan[j] != x
    {
      if w.plan[j] == x {
        BelowIrreflexive(l);
        if j > k {
          BelowTransitive(l, x, l);
        }
      }
    }
    assert x !in w.plan[k..];
  }

  lemma OneMissing(limits: map<Lock, nat>, s: State, i: nat, l: Lock)
    requires Safe(limits, s) && Wants(s, i, l)
    ensures multiset(Held(s.workers[i]))[l] < multiset(s.workers[i].plan)[l]
  {
    var w := s.workers[i];
    var k := w.phase.taken;
    assert w.plan == w.plan[..k] + [w.plan[k]] + w.plan[k + 1..];
  }

  lemma {:induction false} TakenIsHeld(workers: seq<Worker>, plans: seq<seq<Lock>>, group: set<nat>, x: Lock)
    requires |workers| == |plans|
    requires forall i :: 0 <= i < |workers| && i in group ==> multiset(plans[i])[x] == multiset(Held(workers[i]))[x]
    ensures Taken(plans, group, x) <= Holders(workers, x)
  {
    if workers != [] {
      hide Held;
      TakenIsHeld(workers[..|workers| - 1], plans[..|workers| - 1], group, x);
    }
  }

  lemma {:induction false} HeldIsSpare(workers: seq<Worker>, plans: seq<seq<Lock>>, group: set<nat>, l: Lock)
    requires |workers| == |plans|
    requires forall i :: 0 <= i < |workers| ==> var c := multiset(Held(workers[i]))[l];
      if i in group then c < multiset(plans[i])[l] else c == 0
    ensures Holders(workers, l) <= Spare(plans, group, l)
  {
    if workers != [] {
      hide Held;
      HeldIsSpare(workers[..|workers| - 1], plans[..|workers| - 1], group, l);
    }
  }

  // ----- reaching a deadlock -----

  // Worker i still has to take a slot of l.
  ghost predicate Needs(s: State, i: nat, l: Lock) {
    i < |s.workers| && s.workers[i].phase.Acquiring? && s.workers[i].phase.taken <= |s.workers[i].plan|
    && l in s.workers[i].plan[s.workers[i].phase.taken..]
  }

  // Lock l is full, all its slots are held by workers that need one more, and somebody needs one.
  ghost predicate Jammed(limits: map<Lock, nat>, s: State, l: Lock) {
    && l in limits && l in s.occupied && s.occupied[l] >= limits[l]
    && (forall i :: 0 <= i < |s.workers| && l in Held(s.workers[i]) ==> Needs(s, i, l))
    && exists i :: Needs(s, i, l)
  }

  // A worker that takes a slot takes none of a full lock: if it needs that lock, it still does.
  lemma JammedTakes(limits: map<Lock, nat>, s: State, l: Lock, i: nat)
    requires l in limits && l in s.occupied && s.occupied[l] >= limits[l] && CanStep(limits, s, i)
    requires s.workers[i].phase.Acquiring? && s.workers[i].phase.taken < |s.workers[i].plan|
    requires l in Held(s.workers[i]) ==> Needs(s, i, l)
    ensures var t := Step(limits, s, i);
      && t.occupied.Keys == s.occupied.Keys && t.occupied[l] == s.occupied[l]
      && (l in Held(t.workers[i]) ==> Needs(s, i, l)) && (Needs(s, i, l) ==> Needs(t, i, l))
  {
    var w := s.workers[i];
    var k := w.phase.taken;
    assert w.plan[..k + 1] == w.plan[..k] + [w.plan[k]];
    assert w.plan[k] != l;
    assert w.plan[k..] == [w.plan[k]] + w.plan[k + 1..];
  }

  // A worker that can step neither gets nor gives back a slot of a jammed lock.
  lemma JammedWorker(limits: map<Lock, nat>, s: State, l: Lock, i: nat)
    requires Safe(limits, s) && Jammed(limits, s, l) && CanStep(limits, s, i)
    ensures var t := Step(limits, s, i);
      && t.occupied.Keys == s.occupied.Keys && t.occupied[l] == s.occupied[l]
      && |t.workers| == |s.workers| && (l in Held(t.workers[i]) ==> Needs(s, i, l))
      && (Needs(s, i, l) ==> Needs(t, i, l))
  {
    var w := s.workers[i];
    assert WellPlanned(limits, w);
    hide Safe;
    assert l in Held(w) ==> Needs(s, i, l);
    match w.phase {
      case Acquiring(k) =>
        if k < |w.plan| {
          JammedTakes(limits, s, l, i);
        } else {
          assert w.plan[..k] == w.plan && w.plan[k..] == [];
        }
      case Working =>
        ReleaseOrderKeeps(w.plan);
      case _ =>
    }
  }

  lemma JammedStep(limits: map<Lock, nat>, s: State, l: Lock, i: nat)
    requires Safe(limits, s) && Jammed(limits, s, l) && CanStep(limits, s, i)
    ensures Jammed(limits, Step(limits, s, i), l)
  {
    JammedWorker(limits, s, l, i);
    var t := Step(limits, s, i);
    assert forall j :: 0 <= j < |s.workers| && j != i ==> t.workers[j] == s.workers[j];
    hide Step, CanStep, Held;
    forall j | 0 <= j < |t.workers| && l in Held(t.workers[j])
      ensures Needs(t, j, l)
    {
      if j != i {
        assert Needs(s, j, l);
      }
    }
    var n :| Needs(s, n, l);
    assert Needs(t, n, l);
  }

  // The steps a worker has left at most.
  function Left(w: Worker): nat {
    match w.phase
    case Acquiring(k) => if k <= |w.plan| then 2 * |w.plan| - k + 4 else |w.plan| + 4
    case Limiting => |w.plan| + 3
    case Working => |w.plan| + 2
    case Releasing(rest) => |rest| + 1
    case Finished => 0
  }

  function TotalLeft(workers: seq<Worker>): nat {
    if workers == [] then 0 else TotalLeft(workers[..|workers| - 1]) + Left(workers[|workers| - 1])
  }

  lemma {:induction false} TotalLeftUpdate(workers: seq<Worker>, i: nat, w: Worker)
    requires i < |workers|
    ensures TotalLeft(workers[i := w]) + Left(workers[i]) == TotalLeft(workers) + Left(w)
  {
    var n := |workers| - 1;
    if i < n {
      assert workers[i := w][..n] == workers[..n][i := w];
      TotalLeftUpdate(workers[..n], i, w);
    } else {
      assert workers[i := w][..n] == workers[..n];
    }
  }

  lemma StepShrinks(limits: map<Lock, nat>, s: State, i: nat)
    requires Safe(limits, s) && CanStep(limits, s, i)
    ensures TotalLeft(Step(limits, s, i).workers) < TotalLeft(s.workers)
  {
    var w, t := s.workers[i], Step(limits, s, i);
    assert WellPlanned(limits, w);
    ReleaseOrderKeeps(w.plan);
    assert Left(t.workers[i]) < Left(w);
    assert t.workers == s.workers[i := t.workers[i]];
    hide Step, Left;
    TotalLeftUpdate(s.workers, i, t.workers[i]);
  }

  // Worker i has still to wait for tokens that never come.
  ghost predicate Starves(s: State, i: nat) {
    i < |s.workers| && s.workers[i].starved && (s.workers[i].phase.Acquiring? || s.workers[i].phase.Limiting?)
  }

  // Without a cancellation somebody will never finish.
  ghost predicate Doomed(limits: map<Lock, nat>, s: State) {
    (exists l :: Jammed(limits, s, l)) || exists i :: Starves(s, i)
  }

  lemma StarvesStep(limits: map<Lock, nat>, s: State, n: nat, i: nat)
    requires Starves(s, n) && CanStep(limits, s, i)
    ensures Starves(Step(limits, s, i), n)
  {
  }

  lemma DoomedStep(limits: map<Lock, nat>, s: State, i: nat)
    requires Safe(limits, s) && Doomed(limits, s) && CanStep(limits, s, i)
    ensures Doomed(limits, Step(limits, s, i))
  {
    hide Safe, Step, CanStep, Jammed, Starves;
    if l :| Jammed(limits, s, l) {
      JammedStep(limits, s, l, i);
    } else {
      var n :| Starves(s, n);
      StarvesStep(limits, s, n, i);
    }
  }

  lemma DoomedUnfinished(limits: map<Lock, nat>, s: State)
    requires Doomed(limits, s)
    ensures exists i :: Unfinished(s, i)
  {
    if l :| Jammed(limits, s, l) {
      var n :| Needs(s, n, l);
      assert Unfinished(s, n);
    } else {
      var n :| Starves(s, n);
      assert Unfinished(s, n);
    }
  }

  // From a doomed state let everybody run who can: what remains is stuck.
  lemma {:induction false} RunOut(limits: map<Lock, nat>, s: State) returns (schedule: seq<(nat, bool)>, t: State)
    requires Safe(limits, s) && Doomed(limits, s)
    ensures IsRun(limits, s, schedule, t) && Stuck(limits, t)
    decreases TotalLeft(s.workers)
  {
    hide Safe, Step, CanStep, Doomed, Unfinished;
    if i :| CanStep(limits, s, i) {
      StepSafe(limits, s, i);
      DoomedStep(limits, s, i);
      StepShrinks(limits, s, i);
      schedule, t := RunOut(limits, Step(limits, s, i));
      StepRun(limits, s, i, schedule, t);
      schedule := [(i, false)] + schedule;
    } else {
      schedule, t := [], s;
      DoomedUnfinished(limits, s);
    }
  }

  // How often l occurs among the slots from the j-th up to the k-th.
  ghost function Between(plan: seq<Lock>, j: nat, k: nat, l: Lock): nat
    requires j <= k <= |plan|
  {
    multiset(plan[j..k])[l]
  }

  lemma BetweenNext(plan: seq<Lock>, j: nat, k: nat, l: Lock)
    requires j < k <= |plan|
    ensures Between(plan, j, k, l) == Between(plan, j + 1, k, l) + if plan[j] == l then 1 else 0
  {
    assert plan[j..k] == [plan[j]] + plan[j + 1..k];
  }

  // Worker i is about to take the j-th slot of this plan.
  ghost predicate At(s: State, i: nat, plan: seq<Lock>, j: nat) {
    i < |s.workers| && s.workers[i].plan == plan && s.workers[i].phase == Acquiring(j)
  }

  // There is room for the slots of the plan from the j-th up to the k-th.
  ghost predicate Room(limits: map<Lock, nat>, s: State, plan: seq<Lock>, j: nat, k: nat) {
    j <= k <= |plan| && s.occupied.Keys == limits.Keys
    && forall l :: l in limits ==> s.occupied[l] + Between(plan, j, k, l) <= limits[l]
  }

  // t has the occupancy of s and the slots of the plan from the j-th up to the k-th.
  ghost predicate Gained(limits: map<Lock, nat>, s: State, t: State, plan: seq<Lock>, j: nat, k: nat) {
    j <= k <= |plan| && s.occupied.Keys == t.occupied.Keys == limits.Keys
    && forall l :: l in limits ==> t.occupied[l] == s.occupied[l] + Between(plan, j, k, l)
  }

  // Worker i takes one slot on its way to the k-th.
  lemma TakeNext(limits: map<Lock, nat>, s: State, i: nat, plan: seq<Lock>, j: nat, k: nat)
    requires Safe(limits, s) && At(s, i, plan, j) && j < k && Room(limits, s, plan, j, k)
    ensures CanStep(limits, s, i)
    ensures var next := Step(limits, s, i);
      && At(next, i, plan, j + 1) && Room(limits, next, plan, j + 1, k)
      && next.workers == s.workers[i := s.workers[i].(phase := Acquiring(j + 1))]
      && forall l :: l in limits ==>
        next.occupied[l] + Between(plan, j + 1, k, l) == s.occupied[l] + Between(plan, j, k, l)
  {
    assert plan[j] in limits by { assert WellPlanned(limits, s.workers[i]); }
    BetweenNext(plan, j, k, plan[j]);
    assert s.occupied[plan[j]] < limits[plan[j]];
    hide Safe, WellPlanned, Between, Held, Ordered, Below;
    OneTaken(limits, s.occupied, plan, j, k);
  }

  lemma OneTaken(limits: map<Lock, nat>, occupied: map<Lock, nat>, plan: seq<Lock>, j: nat, k: nat)
    requires j < k <= |plan| && plan[j] in limits && occupied.Keys == limits.Keys
    ensures var next := occupied[plan[j] := occupied[plan[j]] + 1];
      forall l :: l in limits ==> next[l] + Between(plan, j + 1, k, l) == occupied[l] + Between(plan, j, k, l)
  {
    hide Between;
    forall l | l in limits
      ensures Between(plan, j, k, l) == Between(plan, j + 1, k, l) + if plan[j] == l then 1 else 0
    {
      BetweenNext(plan, j, k, l);
    }
  }

  lemma GainedNothing(limits: map<Lock, nat>, s: State, plan: seq<Lock>, j: nat)
    requires j <= |plan| && s.occupied.Keys == limits.Keys
    ensures Gained(limits, s, s, plan, j, j) && IsRun(limits, s, [], s)
  {
  }

  lemma GainedMore(limits: map<Lock, nat>, s: State, u: State, t: State, plan: seq<Lock>, j: nat, k: nat)
    requires j < k && s.occupied.Keys == u.occupied.Keys == limits.Keys && Gained(limits, u, t, plan, j + 1, k)
    requires forall l :: l in limits ==>
      u.occupied[l] + Between(plan, j + 1, k, l) == s.occupied[l] + Between(plan, j, k, l)
    ensures Gained(limits, s, t, plan, j, k)
  {
    hide Between;
  }

  // Worker i, alone, takes the next slots of its plan up to the k-th.
  lemma {:induction false} Advance(limits: map<Lock, nat>, s: State, i: nat, plan: seq<Lock>, j: nat, k: nat)
    returns (schedule: seq<(nat, bool)>, t: State)
    requires Safe(limits, s) && At(s, i, plan, j) && Room(limits, s, plan, j, k)
    ensures IsRun(limits, s, schedule, t) && Safe(limits, t) && Gained(limits, s, t, plan, j, k)
    ensures t.workers == s.workers[i := s.workers[i].(phase := Acquiring(k))]
    decreases k - j
  {
    assert s.occupied.Keys == limits.Keys && j <= k <= |plan|;
    hide Safe, Held, Step, CanStep, Between, Gained, Room, IsRun;
    if j == k {
      schedule, t := [], s;
      GainedNothing(limits, s, plan, j);
      assert s.workers[i := s.workers[i].(phase := Acquiring(k))] == s.workers;
    } else {
      TakeNext(limits, s, i, plan, j, k);
      StepSafe(limits, s, i);
      SafeKeys(limits, Step(limits, s, i));
      var next := Step(limits, s, i);
      schedule, t := Advance(limits, next, i, plan, j + 1, k);
      StepRun(limits, s, i, schedule, t);
      schedule := [(i, false)] + schedule;
      GainedMore(limits, s, next, t, plan, j, k);
    }
  }

  lemma SafeKeys(limits: map<Lock, nat>, s: State)
    requires Safe(limits, s)
    ensures s.occupied.Keys == limits.Keys
  {
  }

  // The place in the plan where h slots of l are taken, and the next is l again.
  lemma {:induction false} PrefixWith(plan: seq<Lock>, l: Lock, h: nat, n: nat) returns (k: nat)
    requires n <= |plan| && multiset(plan[..n])[l] > h
    ensures k < n && plan[k] == l && multiset(plan[..k])[l] == h
  {
    assert plan[..n] == plan[..n - 1] + [plan[n - 1]];
    if multiset(plan[..n - 1])[l] > h {
      k := PrefixWith(plan, l, h, n - 1);
    } else {
      k := n - 1;
    }
  }

  lemma PrefixBelow(plan: seq<Lock>, k: nat, x: Lock)
    requires Ordered(plan) && k < |plan| && x != plan[k] && !Below(x, plan[k])
    ensures multiset(plan[..k])[x] == 0
  {
    assert x !in plan[..k];
  }

  lemma PrefixAtMost(plan: seq<Lock>, k: nat, x: Lock)
    requires k <= |plan|
    ensures multiset(plan[..k])[x] <= multiset(plan)[x]
  {
    assert plan == plan[..k] + plan[k..];
  }

  lemma {:induction false} TakenPrefix(plans: seq<seq<Lock>>, group: set<nat>, x: Lock, m: nat)
    requires m <= |plans|
    ensures Taken(plans[..m], group, x) <= Taken(plans, group, x)
    decreases |plans|
  {
    if m < |plans| {
      var n := |plans| - 1;
      assert plans[..n][..m] == plans[..m];
      TakenPrefix(plans[..n], group, x, m);
    } else {
      assert plans[..m] == plans;
    }
  }

  // The first m nodes have run into the jam, the others have not started.
  ghost predicate Filled(limits: map<Lock, nat>, s: State, plans: seq<seq<Lock>>, l: Lock, group: set<nat>, m: nat) {
    && Safe(limits, s) && Planned(s, plans) && m <= |plans| && l in limits
    && Placed(s, plans, l, m) && Loaded(limits, s, plans, l, group, m)
  }

  ghost predicate Placed(s: State, plans: seq<seq<Lock>>, l: Lock, m: nat)
    requires |s.workers| == |plans|
  {
    && (forall i :: 0 <= i < |plans| ==> s.workers[i].phase.Acquiring?)
    && (forall i :: m <= i < |plans| ==> s.workers[i].phase == Acquiring(0))
    && (forall i :: 0 <= i < |plans| && l in plans[i] ==> Needs(s, i, l))
  }

  ghost predicate Loaded(limits: map<Lock, nat>, s: State, plans: seq<seq<Lock>>, l: Lock, group: set<nat>, m: nat)
    requires m <= |plans| && l in limits && s.occupied.Keys == limits.Keys
  {
    && (forall x :: x in limits && Below(x, l) ==> s.occupied[x] <= Taken(plans[..m], group, x))
    && s.occupied[l] == if Spare(plans[..m], group, l) < limits[l] then Spare(plans[..m], group, l) else limits[l]
  }

  // Node m runs until it has as many more slots of l as it can, and waits for the next.
  lemma FillOne(limits: map<Lock, nat>, s: State, plans: seq<seq<Lock>>, l: Lock, group: set<nat>, m: nat)
    returns (schedule: seq<(nat, bool)>, t: State)
    requires Jams(limits, plans, l, group) && m < |plans| && Filled(limits, s, plans, l, group, m)
    ensures IsRun(limits, s, schedule, t) && Filled(limits, t, plans, l, group, m + 1)
  {
    var plan := plans[m];
    if m in group && l in plan {
      var count, room := multiset(plan)[l], limits[l] - s.occupied[l];
      var h := if count - 1 < room then count - 1 else room;
      assert plan[..|plan|] == plan;
      var k := PrefixWith(plan, l, h, |plan|);
      forall x | x in limits
        ensures s.occupied[x] + multiset(plan[..k])[x] <= limits[x]
      {
        FitsBelow(limits, s, plans, l, group, m, k, x);
      }
      assert plan[0..k] == plan[..k];
      schedule, t := Advance(limits, s, m, plan, 0, k);
      FilledNext(limits, s, t, plans, l, group, m, k);
    } else {
      assert plans[..m + 1][..m] == plans[..m];
      schedule, t := [], s;
    }
  }

  lemma FilledNext(limits: map<Lock, nat>, s: State, t: State, plans: seq<seq<Lock>>, l: Lock, group: set<nat>, m: nat,
                   k: nat)
    requires Jams(limits, plans, l, group) && m < |plans| && Filled(limits, s, plans, l, group, m) && m in group
    requires k < |plans[m]| && plans[m][k] == l
    requires var c, room := multiset(plans[m])[l], limits[l] - s.occupied[l];
      multiset(plans[m][..k])[l] == if c - 1 < room then c - 1 else room
    requires Safe(limits, t) && t.workers == s.workers[m := s.workers[m].(phase := Acquiring(k))]
    requires forall x :: x in limits ==> t.occupied[x] == s.occupied[x] + multiset(plans[m][..k])[x]
    ensures Filled(limits, t, plans, l, group, m + 1)
  {
    LoadedNext(limits, s, t, plans, l, group, m, k);
    PlacedNext(s, t, plans, l, m, k);
    hide Placed, Loaded, Safe, Jams;
  }

  lemma PlacedNext(s: State, t: State, plans: seq<seq<Lock>>, l: Lock, m: nat, k: nat)
    requires Planned(s, plans) && m < |plans| && k < |plans[m]| && plans[m][k] == l && Placed(s, plans, l, m)
    requires t.workers == s.workers[m := s.workers[m].(phase := Acquiring(k))]
    ensures Planned(t, plans) && Placed(t, plans, l, m + 1)
  {
    NeedsNext(s, t, m, k, plans, l);
    hide Needs;
  }

  lemma LoadedNext(limits: map<Lock, nat>, s: State, t: State, plans: seq<seq<Lock>>, l: Lock, group: set<nat>, m: nat,
                   k: nat)
    requires Jams(limits, plans, l, group) && m < |plans| && Filled(limits, s, plans, l, group, m) && m in group
    requires k < |plans[m]| && plans[m][k] == l
    requires var c, room := multiset(plans[m])[l], limits[l] - s.occupied[l];
      multiset(plans[m][..k])[l] == if c - 1 < room then c - 1 else room
    requires l in limits && t.occupied.Keys == limits.Keys
    requires forall x :: x in limits ==> t.occupied[x] == s.occupied[x] + multiset(plans[m][..k])[x]
    ensures Loaded(limits, t, plans, l, group, m + 1)
  {
    hide Safe, Jams, Taken, Spare, Placed, Below, Planned;
    assert l in plans[m];
    SpareNext(plans, group, l, m);
    forall x | x in limits && Below(x, l)
      ensures t.occupied[x] <= Taken(plans[..m + 1], group, x)
    {
      FitsBelow(limits, s, plans, l, group, m, k, x);
    }
  }

  lemma SpareNext(plans: seq<seq<Lock>>, group: set<nat>, l: Lock, m: nat)
    requires m < |plans|
    ensures Spare(plans[..m + 1], group, l) ==
      Spare(plans[..m], group, l) + if m in group && multiset(plans[m])[l] > 0 then multiset(plans[m])[l] - 1 else 0
  {
    assert plans[..m + 1][..m] == plans[..m];
  }

  lemma FitsBelow(limits: map<Lock, nat>, s: State, plans: seq<seq<Lock>>, l: Lock, group: set<nat>, m: nat, k: nat,
                  x: Lock)
    requires Jams(limits, plans, l, group) && m < |plans| && Filled(limits, s, plans, l, group, m) && m in group
    requires k < |plans[m]| && plans[m][k] == l && s.occupied[l] + multiset(plans[m][..k])[l] <= limits[l]
    requires x in limits
    ensures s.occupied[x] + multiset(plans[m][..k])[x] <= limits[x]
    ensures Below(x, l) ==> s.occupied[x] + multiset(plans[m][..k])[x] <= Taken(plans[..m + 1], group, x)
  {
    assert plans[..m + 1][..m] == plans[..m];
    assert WellPlanned(limits, s.workers[m]);
    if Below(x, l) {
      PrefixAtMost(plans[m], k, x);
      TakenPrefix(plans, group, x, m + 1);
    } else if x != l {
      PrefixBelow(plans[m], k, x);
    }
  }

  // Node m at its k-th slot, which is l, still needs l; the other nodes are where they were.
  lemma NeedsNext(s: State, t: State, m: nat, k: nat, plans: seq<seq<Lock>>, l: Lock)
    requires Planned(s, plans) && m < |plans| && k < |plans[m]| && plans[m][k] == l
    requires t.workers == s.workers[m := s.workers[m].(phase := Acquiring(k))]
    requires forall i :: 0 <= i < |plans| && l in plans[i] ==> Needs(s, i, l)
    ensures forall i :: 0 <= i < |plans| && l in plans[i] ==> Needs(t, i, l)
  {
    assert plans[m][k..][0] == l;
    forall i | 0 <= i < |plans| && l in plans[i]
      ensures Needs(t, i, l)
    {
      assert Needs(s, i, l);
    }
  }

  lemma {:induction false} FillAll(limits: map<Lock, nat>, s: State, plans: seq<seq<Lock>>, l: Lock, group: set<nat>,
                                   m: nat)
    returns (schedule: seq<(nat, bool)>, t: State)
    requires Jams(limits, plans, l, group) && Filled(limits, s, plans, l, group, m)
    ensures IsRun(limits, s, schedule, t) && Filled(limits, t, plans, l, group, |plans|)
    decreases |plans| - m
  {
    hide Jams, Filled;
    FilledLength(limits, s, plans, l, group, m);
    if m == |plans| {
      schedule, t := [], s;
    } else {
      var first, u := FillOne(limits, s, plans, l, group, m);
      schedule, t := FillAll(limits, u, plans, l, group, m + 1);
      RunAppend(limits, s, first, u, schedule, t);
      schedule := first + schedule;
    }
  }

  lemma FilledLength(limits: map<Lock, nat>, s: State, plans: seq<seq<Lock>>, l: Lock, group: set<nat>, m: nat)
    requires Filled(limits, s, plans, l, group, m)
    ensures m <= |plans|
  {
  }

  lemma FilledIsJammed(limits: map<Lock, nat>, s: State, plans: seq<seq<Lock>>, l: Lock, group: set<nat>)
    requires Jams(limits, plans, l, group) && Filled(limits, s, plans, l, group, |plans|)
    ensures Jammed(limits, s, l)
  {
    assert plans[..|plans|] == plans;
    var u :| 0 <= u < |plans| && l in plans[u];
    assert Needs(s, u, l);
  }

  lemma StartFilled(tagLists: seq<seq<string>>, limits: map<Lock, nat>, rates: map<string, real>, l: Lock,
                    group: set<nat>)
    requires l in limits
    ensures Filled(limits, Start(tagLists, limits, rates), Plans(tagLists, limits), l, group, 0)
  {
    hide Plan, Starved;
    StartSafe(tagLists, limits, rates);
    var plans := Plans(tagLists, limits);
    assert plans[..0] == [];
    assert forall i :: 0 <= i < |plans| ==> plans[i][0..] == plans[i];
  }

  ghost predicate SomeStarved(tagLists: seq<seq<string>>, rates: map<string, real>) {
    exists i :: 0 <= i < |tagLists| && Starved(tagLists[i], rates)
  }

  lemma StartStarved(tagLists: seq<seq<string>>, limits: map<Lock, nat>, rates: map<string, real>)
    ensures var s := Start(tagLists, limits, rates);
      && (SomeStarved(tagLists, rates) ==> exists i :: Starves(s, i))
      && (!SomeStarved(tagLists, rates) ==> Fed(s))
  {
    hide Plan, Starved;
    var s := Start(tagLists, limits, rates);
    if i :| 0 <= i < |tagLists| && Starved(tagLists[i], rates) {
      assert Starves(s, i);
    }
  }

  // A deadlock is reachable exactly if some node waits for tokens that never come, or some
  // group of nodes jams some lock: whatever the limits, however often the nodes name a tag,
  // cancellations included.
  lemma DeadlockIff(tagLists: seq<seq<string>>, limits: map<Lock, nat>, rates: map<string, real>)
    ensures (exists t :: Reachable(limits, Start(tagLists, limits, rates), t) && Stuck(limits, t))
       <==> SomeStarved(tagLists, rates) || (exists l, group :: Jams(limits, Plans(tagLists, limits), l, group))
  {
    var s, plans := Start(tagLists, limits, rates), Plans(tagLists, limits);
    StartSafe(tagLists, limits, rates);
    StartStarved(tagLists, limits, rates);
    hide Start, Plans, Safe, Planned, Jams, Filled, Stuck, Jammed, IsRun, SomeStarved, Starves;
    if t :| Reachable(limits, s, t) && Stuck(limits, t) {
      if !SomeStarved(tagLists, rates) {
        var l, group := ReachedJams(limits, s, t, plans);
      }
    }
    if SomeStarved(tagLists, rates) {
      var rest, t := RunOut(limits, s);
    }
    if l, group :| Jams(limits, plans, l, group) {
      JamsLimited(limits, plans, l, group);
      StartFilled(tagLists, limits, rates, l, group);
      var first, u := FillAll(limits, s, plans, l, group, 0);
      FilledIsJammed(limits, u, plans, l, group);
      FilledIsSafe(limits, u, plans, l, group);
      var rest, t := RunOut(limits, u);
      RunAppend(limits, s, first, u, rest, t);
    }
  }

  lemma ReachedJams(limits: map<Lock, nat>, s: State, t: State, plans: seq<seq<Lock>>)
    returns (l: Lock, group: set<nat>)
    requires Safe(limits, s) && Planned(s, plans) && Fed(s) && Reachable(limits, s, t) && Stuck(limits, t)
    ensures Jams(limits, plans, l, group)
  {
    hide Safe, Planned, Stuck, Jams, IsRun;
    var schedule :| IsRun(limits, s, schedule, t);
    RunSafe(limits, s, schedule, t, plans);
    RunKeepsStarved(limits, s, schedule, t);
    l, group := StuckJams(limits, t, plans);
  }

  lemma JamsLimited(limits: map<Lock, nat>, plans: seq<seq<Lock>>, l: Lock, group: set<nat>)
    requires Jams(limits, plans, l, group)
    ensures l in limits
  {
  }

  lemma FilledIsSafe(limits: map<Lock, nat>, s: State, plans: seq<seq<Lock>>, l: Lock, group: set<nat>)
    requires Filled(limits, s, plans, l, group, |plans|)
    ensures Safe(limits, s)
  {
  }

  // ----- what a caller can check -----

  // How many slots of l the nodes take beyond the first of each.
  function Excess(plans: seq<seq<Lock>>, l: Lock): nat {
    if plans == [] then 0
    else
      var n := |plans| - 1;
      Excess(plans[..n], l) + if multiset(plans[n])[l] > 0 then multiset(plans[n])[l] - 1 else 0
  }

  lemma {:induction false} SpareAtMost(plans: seq<seq<Lock>>, group: set<nat>, l: Lock)
    ensures Spare(plans, group, l) <= Excess(plans, l)
  {
    if plans != [] {
      SpareAtMost(plans[..|plans| - 1], group, l);
    }
  }

  // If every bucket grants tokens and no lock in use is named again as often as its limit,
  // all nodes together, then every reachable state of every interleaving is within the
  // limits, and as long as somebody is unfinished somebody can step.
  lemma DeadlockFree(tagLists: seq<seq<string>>, limits: map<Lock, nat>, rates: map<string, real>, t: State)
    requires !SomeStarved(tagLists, rates)
    requires var plans := Plans(tagLists, limits);
      forall l :: l in limits && Used(plans, l) ==> Excess(plans, l) < limits[l]
    requires Reachable(limits, Start(tagLists, limits, rates), t)
    ensures Safe(limits, t) && !Stuck(limits, t)
  {
    var s, plans := Start(tagLists, limits, rates), Plans(tagLists, limits);
    StartSafe(tagLists, limits, rates);
    StartStarved(tagLists, limits, rates);
    hide Start, Plans, Safe, Planned, Stuck;
    var schedule :| IsRun(limits, s, schedule, t);
    RunSafe(limits, s, schedule, t, plans);
    if Stuck(limits, t) {
      var l, group := ReachedJams(limits, s, t, plans);
      SpareAtMost(plans, group, l);
    }
  }

  // The usual case: limits and rates of at least one, and no node names a tag twice.
  lemma DistinctTagsDeadlockFree(tagLists: seq<seq<string>>, limits: map<Lock, nat>, rates: map<string, real>, t: State)
    requires forall l :: l in limits ==> limits[l] >= 1
    requires forall tag :: tag in rates ==> rates[tag] >= 1.0
    requires forall i :: 0 <= i < |tagLists| ==> Distinct(tagLists[i])
    requires Reachable(limits, Start(tagLists, limits, rates), t)
    ensures Safe(limits, t) && !Stuck(limits, t)
  {
    var plans := Plans(tagLists, limits);
    forall l, i | l in limits && 0 <= i < |plans|
      ensures multiset(plans[i])[l] <= 1
    {
      PlanCounts(tagLists[i], limits, l);
      if l.Tag? {
        OccursOnce(tagLists[i], l.name);
      }
    }
    hide Plans;
    forall l | l in limits
      ensures Excess(plans, l) == 0
    {
      NoExcess(plans, l);
    }
    DeadlockFree(tagLists, limits, rates, t);
  }

  lemma {:induction false} NoExcess(plans: seq<seq<Lock>>, l: Lock)
    requires forall i :: 0 <= i < |plans| ==> multiset(plans[i])[l] <= 1
    ensures Excess(plans, l) == 0
  {
    if plans != [] {
      NoExcess(plans[..|plans| - 1], l);
    }
  }

  lemma {:induction false} OccursOnce(s: seq<string>, x: string)
    requires Distinct(s)
    ensures multiset(s)[x] <= 1
  {
    if s != [] {
      var n := |s| - 1;
      assert s == s[..n] + [s[n]];
      OccursOnce(s[..n], x);
      if x == s[n] {
        assert x !in s[..n];
      }
    }
  }

  // ----- what the slots are for, and how runs end -----

  // How many runners work at the moment that need a slot of l.
  ghost function Busy(workers: seq<Worker>, l: Lock): nat {
    if workers == [] then 0
    else
      var w := workers[|workers| - 1];
      Busy(workers[..|workers| - 1], l) + if w.phase.Working? && l in w.plan then 1 else 0
  }

  lemma {:induction false} BusyHold(workers: seq<Worker>, l: Lock)
    ensures Busy(workers, l) <= Holders(workers, l)
  {
    if workers != [] {
      BusyHold(workers[..|workers| - 1], l);
    }
  }

  // In no reachable state do more runners work on a tag than its limit, or at all than the global one.
  lemma WorkWithinLimit(tagLists: seq<seq<string>>, limits: map<Lock, nat>, rates: map<string, real>, t: State, l: Lock)
    requires Reachable(limits, Start(tagLists, limits, rates), t) && l in limits
    ensures Busy(t.workers, l) <= limits[l]
  {
    var s, plans := Start(tagLists, limits, rates), Plans(tagLists, limits);
    StartSafe(tagLists, limits, rates);
    hide Start, Plans;
    var schedule :| IsRun(limits, s, schedule, t);
    RunSafe(limits, s, schedule, t, plans);
    BusyHold(t.workers, l);
  }

  // A node that gives its slots back without having been cancelled has worked in between.
  lemma {:induction false} WorkedBefore(limits: map<Lock, nat>, s: State, schedule: seq<(nat, bool)>, t: State, i: nat)
    returns (k: nat, u: State)
    requires IsRun(limits, s, schedule, t) && i < |s.workers| && i < |t.workers| && (i, true) !in schedule
    requires s.workers[i].phase.Acquiring? || s.workers[i].phase.Limiting? || s.workers[i].phase.Working?
    requires t.workers[i].phase.Releasing? || t.workers[i].phase.Finished?
    ensures k <= |schedule| && IsRun(limits, s, schedule[..k], u)
    ensures i < |u.workers| && u.workers[i].phase.Working?
    decreases schedule
  {
    if s.workers[i].phase.Working? {
      k, u := 0, s;
    } else {
      var (j, cancel) := schedule[0];
      assert (j, cancel) in schedule;
      var next := if cancel then Cancel(s, j) else Step(limits, s, j);
      k, u := WorkedBefore(limits, next, schedule[1..], t, i);
      assert schedule[..k + 1][1..] == schedule[1..][..k];
      k := k + 1;
    }
  }

  lemma CancelShrinks(limits: map<Lock, nat>, s: State, i: nat)
    requires Safe(limits, s) && CanCancel(s, i)
    ensures TotalLeft(Cancel(s, i).workers) < TotalLeft(s.workers)
  {
    var w, t := s.workers[i], Cancel(s, i);
    assert WellPlanned(limits, w);
    ReleaseOrderKeeps(Held(w));
    assert Left(t.workers[i]) < Left(w);
    hide Left;
    TotalLeftUpdate(s.workers, i, t.workers[i]);
  }

  // Every run is finite: this many steps and cancellations at most.
  lemma {:induction false} RunBound(limits: map<Lock, nat>, s: State, schedule: seq<(nat, bool)>, t: State)
    requires Safe(limits, s) && IsRun(limits, s, schedule, t)
    ensures |schedule| + TotalLeft(t.workers) <= TotalLeft(s.workers)
    decreases schedule
  {
    if schedule != [] {
      hide Safe, Step, Cancel, CanStep, CanCancel;
      var (i, cancel) := schedule[0];
      if cancel {
        CancelSafe(limits, s, i);
        CancelShrinks(limits, s, i);
        RunBound(limits, Cancel(s, i), schedule[1..], t);
      } else {
        StepSafe(limits, s, i);
        StepShrinks(limits, s, i);
        RunBound(limits, Step(limits, s, i), schedule[1..], t);
      }
    }
  }

  // Where nobody can step and nobody is stuck, everybody has finished and all slots are free.
  lemma AllFinished(limits: map<Lock, nat>, s: State)
    requires Safe(limits, s) && !Stuck(limits, s) && forall i :: !CanStep(limits, s, i)
    ensures forall i :: 0 <= i < |s.workers| ==> s.workers[i].phase.Finished?
    ensures forall l :: l in limits ==> s.occupied[l] == 0
  {
    forall i | 0 <= i < |s.workers|
      ensures s.workers[i].phase.Finished?
    {
      assert !Unfinished(s, i);
    }
    hide CanStep, Stuck;
    forall l | l in limits
      ensures Holders(s.workers, l) == 0
    {
      NothingHeld(s.workers, l);
    }
  }

  lemma {:induction false} NothingHeld(workers: seq<Worker>, l: Lock)
    requires forall i :: 0 <= i < |workers| ==> workers[i].phase.Finished?
    ensures Holders(workers, l) == 0
  {
    if workers != [] {
      NothingHeld(workers[..|workers| - 1], l);
    }
  }

  // The global slot is taken first, then the tags by name; and it is given back last.
  lemma PlanSorted(tags: seq<string>, limits: map<Lock, nat>)
    ensures var plan := Plan(tags, limits);
      && (forall i, j :: 0 <= i < j < |plan| ==>
            plan[j].Tag? && (plan[i].Tag? ==> plan[i].name == plan[j].name || Lt(plan[i].name, plan[j].name)))
      && (plan != [] && plan[0] == Global ==> ReleaseOrder(plan)[|plan| - 1] == Global)
  {
    PlanOrdered(tags, limits);
    GlobalFirst(tags, limits);
    hide Plan;
  }

  lemma GlobalFirst(tags: seq<string>, limits: map<Lock, nat>)
    ensures forall j :: 1 <= j < |Plan(tags, limits)| ==> Plan(tags, limits)[j].Tag?
  {
    PlanOrdered(tags, limits);
    PlanCounts(tags, limits, Global);
    var plan := Plan(tags, limits);
    hide Plan;
    forall j | 1 <= j < |plan|
      ensures plan[j].Tag?
    {
      if plan[j] == plan[0] == Global {
        CountedTwice(plan, 0, j);
      }
    }
  }

  // ----- one node, and two -----

  predicate Overdrawn(plan: seq<Lock>, limits: map<Lock, nat>, l: Lock) {
    l in plan && l in limits && multiset(plan)[l] > limits[l]
  }

  // A node alone can get stuck exactly if it names a lock more often than its limit allows,
  // or a tag whose bucket never grants a token.
  lemma LoneWorkerStuckIff(tags: seq<string>, limits: map<Lock, nat>, rates: map<string, real>)
    ensures (exists t :: Reachable(limits, Start([tags], limits, rates), t) && Stuck(limits, t))
       <==> Starved(tags, rates) || (exists l :: Overdrawn(Plan(tags, limits), limits, l))
  {
    DeadlockIff([tags], limits, rates);
    assert [tags][0] == tags;
    PlanOrdered(tags, limits);
    var plans, plan := Plans([tags], limits), Plan(tags, limits);
    assert plans == [plan] && plans[..0] == [];
    hide Plan, Plans, Start, Stuck, Reachable, Starved;
    if l, group :| Jams(limits, plans, l, group) {
      assert l in plan && Spare(plans[..0], group, l) == 0;
      assert Overdrawn(plan, limits, l);
    }
    if l :| Overdrawn(plan, limits, l) {
      var i :| 0 <= i < |plan| && plan[i] == l;
      var k := FirstOverdrawn(plan, limits, i);
      LoneJams(plan, limits, k);
    }
  }

  lemma {:induction false} FirstOverdrawn(plan: seq<Lock>, limits: map<Lock, nat>, i: nat) returns (k: nat)
    requires i < |plan| && Overdrawn(plan, limits, plan[i])
    ensures k < |plan| && Overdrawn(plan, limits, plan[k])
      && forall j :: 0 <= j < k ==> !Overdrawn(plan, limits, plan[j])
  {
    if j :| 0 <= j < i && Overdrawn(plan, limits, plan[j]) {
      k := FirstOverdrawn(plan, limits, j);
    } else {
      k := i;
    }
  }

  lemma LoneJams(plan: seq<Lock>, limits: map<Lock, nat>, k: nat)
    requires Ordered(plan) && k < |plan| && Overdrawn(plan, limits, plan[k])
    requires forall j :: 0 <= j < k ==> !Overdrawn(plan, limits, plan[j])
    ensures Jams(limits, [plan], plan[k], {0})
  {
    var l, plans := plan[k], [plan];
    assert plans[..0] == [] && plans[0] == plan;
    assert Used(plans, l);
    forall x | x in limits && Below(x, l)
      ensures Taken(plans, {0}, x) <= limits[x]
    {
      if j :| 0 <= j < |plan| && plan[j] == x {
        BelowIrreflexive(l);
        if j > k {
          BelowTransitive(x, l, x);
          BelowIrreflexive(x);
        }
      } else {
        assert x !in plan;
      }
      assert !Overdrawn(plan, limits, x);
    }
  }

  // The smallest deadlock: one node, one tag named twice, limit one.
  lemma RepeatedTagDeadlocks()
    ensures var limits: map<Lock, nat> := map[Tag("a") := 1];
            exists t :: IsRun(limits, Start([["a", "a"]], limits, map[]), [(0, false)], t) && Stuck(limits, t)
  {
    var limits: map<Lock, nat> := map[Tag("a") := 1];
    hide Plan;
    RepeatedTagPlan(limits);
    var s := Start([["a", "a"]], limits, map[]);
    assert s.workers[0].plan == [Tag("a"), Tag("a")];
    assert CanStep(limits, s, 0);
    var t := Step(limits, s, 0);
    assert IsRun(limits, t, [], t);
    assert [(0, false)][1..] == [];
    assert IsRun(limits, s, [(0, false)], t);
    assert Unfinished(t, 0);
  }

  lemma RepeatedTagPlan(limits: map<Lock, nat>)
    requires limits.Keys == {Tag("a")}
    ensures Plan(["a", "a"], limits) == [Tag("a"), Tag("a")]
  {
    assert ["a", "a"][1..] == ["a"] && ["a"][1..] == [];
    assert SortBy(["a"], Self) == ["a"];
    assert SortBy(["a", "a"], Self) == ["a", "a"];
    assert Limited(["a"], limits) == [Tag("a")];
  }

  // Nodes that never get stuck alone can get stuck together: two that name a tag twice, with limit two.
  lemma TwoNodesDeadlock()
    ensures var limits: map<Lock, nat> := map[Tag("a") := 2];
      && (forall t :: Reachable(limits, Start([["a", "a"]], limits, map[]), t) ==> !Stuck(limits, t))
      && var s := Start([["a", "a"], ["a", "a"]], limits, map[]);
      exists t :: IsRun(limits, s, [(0, false), (1, false)], t) && Stuck(limits, t)
  {
    var limits: map<Lock, nat> := map[Tag("a") := 2];
    hide *;
    NotAlone(limits);
    TwoStart(limits);
    BothTakeOne(limits, Start([["a", "a"], ["a", "a"]], limits, map[]));
  }

  lemma NotAlone(limits: map<Lock, nat>)
    requires limits == map[Tag("a") := 2]
    ensures forall t :: Reachable(limits, Start([["a", "a"]], limits, map[]), t) ==> !Stuck(limits, t)
  {
    hide Plan, Start, Reachable, Stuck;
    RepeatedTagPlan(limits);
    LoneWorkerStuckIff(["a", "a"], limits, map[]);
    assert forall l :: !Overdrawn([Tag("a"), Tag("a")], limits, l);
  }

  lemma TwoStart(limits: map<Lock, nat>)
    requires limits == map[Tag("a") := 2]
    ensures var s := Start([["a", "a"], ["a", "a"]], limits, map[]);
      && s.occupied == map[Tag("a") := 0]
      && s.workers == [Worker([Tag("a"), Tag("a")], false, Acquiring(0)),
        Worker([Tag("a"), Tag("a")], false, Acquiring(0))]
  {
    hide Plan;
    RepeatedTagPlan(limits);
  }

  lemma BothTakeOne(limits: map<Lock, nat>, s: State)
    requires limits == map[Tag("a") := 2] && s.occupied == map[Tag("a") := 0]
    requires s.workers == [Worker([Tag("a"), Tag("a")], false, Acquiring(0)),
      Worker([Tag("a"), Tag("a")], false, Acquiring(0))]
    ensures exists t :: IsRun(limits, s, [(0, false), (1, false)], t) && Stuck(limits, t)
  {
    var u := Step(limits, s, 0);
    var t := Step(limits, u, 1);
    assert t.workers == [Worker([Tag("a"), Tag("a")], false, Acquiring(1)),
      Worker([Tag("a"), Tag("a")], false, Acquiring(1))];
    assert t.occupied[Tag("a")] == 2;
    assert Unfinished(t, 0);
    assert IsRun(limits, t, [], t);
    hide Step;
    StepRun(limits, u, 1, [], t);
    StepRun(limits, s, 0, [(1, false)], t);
    assert [(0, false)] + [(1, false)] == [(0, false), (1, false)];
    assert [(1, false)] + [] == [(1, false)];
  }
}
