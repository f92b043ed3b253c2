// A launched node under backpressure: it takes a slot of the controller first and the
// slots of its tags inside (orchestrate/dag.go). The two protocols run together here;
// the slot is given back when the node is done with its tags.
module Launch {
  import opened Types
  import Backpressure
  import Locks

  datatype Stage =
    | Outside                 // has not asked for a slot
    | Waiting(ticket: nat)    // waits in the controller's queue, or for a slot handed to it
    | Inside                  // holds a slot, and goes through its tags
    | Left

  datatype State = State(stages: seq<Stage>, bp: Backpressure.State, locks: Locks.State)

  // One step of node i; latency and now are what it measures when it gives its slot back.
  datatype Move = Go(i: nat, latency: int, now: int) | Stop(i: nat)

  // Node i can take its next step without being cancelled.
  predicate CanGo(limits: map<Locks.Lock, nat>, s: State, i: nat) {
    i < |s.stages| && i < |s.locks.workers| &&
    match s.stages[i]
    case Outside => true
    case Waiting(t) => t in s.bp.handed
    case Inside => s.locks.workers[i].phase.Finished? || Locks.CanStep(limits, s.locks, i)
    case Left => false
  }

  // The context is cancelled while node i waits for the controller or for its tags.
  predicate CanStop(s: State, i: nat) {
    i < |s.stages| && i < |s.locks.workers| &&
    match s.stages[i]
    case Waiting(_) => true
    case Inside => Locks.CanCancel(s.locks, i)
    case _ => false
  }

  predicate Possible(limits: map<Locks.Lock, nat>, s: State, m: Move) {
    match m
    case Go(i, latency, now) => CanGo(limits, s, i) && latency >= 0 && now >= s.bp.clock
    case Stop(i) => CanStop(s, i)
  }

  // What the move does to the controller, if anything.
  function Call(s: State, m: Move): Option<Backpressure.Event>
    requires m.i < |s.stages| && m.i < |s.locks.workers|
  {
    match m
    case Go(i, latency, now) =>
      (match s.stages[i]
       case Outside => Some(Backpressure.Acquire)
       case Waiting(t) => Some(Backpressure.Receive(t))
       case Inside =>
         if s.locks.workers[i].phase.Finished? then Some(Backpressure.Release(latency, now)) else None
       case Left => None)
    case Stop(i) =>
      if s.stages[i].Waiting? then Some(Backpressure.Cancel(s.stages[i].ticket)) else None
  }

  function NextStage(s: State, m: Move): Stage
    requires m.i < |s.stages| && m.i < |s.locks.workers|
  {
    match m
    case Go(i, _, _) =>
      (match s.stages[i]
       case Outside => if s.bp.active < s.bp.concurrency then Inside else Waiting(s.bp.next)
       case Waiting(_) => Inside
       case Inside => if s.locks.workers[i].phase.Finished? then Left else Inside
       case Left => Left)
    case Stop(i) => if s.stages[i].Waiting? then Left else s.stages[i]
  }

  function NextLocks(limits: map<Locks.Lock, nat>, s: State, m: Move): Locks.State
    requires Possible(limits, s, m)
  {
    if !s.stages[m.i].Inside? || s.locks.workers[m.i].phase.Finished? then s.locks
    else if m.Go? then Locks.Step(limits, s.locks, m.i)
    else Locks.Cancel(s.locks, m.i)
  }

  // ----- the invariant -----

  ghost function Insiders(stages: seq<Stage>): set<nat> {
    set i | 0 <= i < |stages| && stages[i].Inside?
  }

  ghost function Tickets(bp: Backpressure.State): set<nat> {
    (set t | t in bp.waiters) + bp.handed
  }

  // The tickets of the controller are those of the waiting nodes, each node's its own.
  ghost predicate Ticketed(stages: seq<Stage>, bp: Backpressure.State) {
    && (forall i :: 0 <= i < |stages| && stages[i].Waiting? ==> stages[i].ticket in Tickets(bp))
    && (forall i, j :: 0 <= i < j < |stages| && stages[i].Waiting? && stages[j].Waiting? ==>
          stages[i].ticket != stages[j].ticket)
    && (forall t :: t in Tickets(bp) ==> exists i :: Waits(stages, i, t))
  }

  predicate Waits(stages: seq<Stage>, i: nat, t: nat) {
    i < |stages| && stages[i] == Waiting(t)
  }

  // A node takes slots of its tags only inside, and has given them all back when it leaves.
  ghost predicate Placed(stages: seq<Stage>, workers: seq<Locks.Worker>) {
    |stages| == |workers| &&
    forall i :: 0 <= i < |stages| && !stages[i].Inside? ==>
      workers[i].phase == Locks.Acquiring(0) || workers[i].phase.Finished?
  }

  ghost predicate Safe(cfg: Backpressure.Settings, limits: map<Locks.Lock, nat>, s: State) {
    && Backpressure.Safe(cfg, s.bp) && Locks.Safe(limits, s.locks)
    && Placed(s.stages, s.locks.workers) && Ticketed(s.stages, s.bp)
    && |Insiders(s.stages)| == s.bp.holders
  }

  lemma NextIsNew(cfg: Backpressure.Settings, bp: Backpressure.State)
    requires Backpressure.Safe(cfg, bp)
    ensures bp.next !in bp.waiters && bp.next !in bp.handed
  {
  }

  lemma AcquireEffects(cfg: Backpressure.Settings, bp: Backpressure.State)
    requires bp.next !in bp.waiters && bp.next !in bp.handed
    ensures var next := Backpressure.Step(cfg, bp, Backpressure.Acquire);
      if bp.active < bp.concurrency then next.holders == bp.holders + 1 && Tickets(next) == Tickets(bp)
      else next.holders == bp.holders && Tickets(next) == Tickets(bp) + {bp.next} && bp.next !in Tickets(bp)
  {
  }

  lemma ReceiveEffects(cfg: Backpressure.Settings, bp: Backpressure.State, t: nat)
    requires t in bp.handed && t !in bp.waiters
    ensures var next := Backpressure.Step(cfg, bp, Backpressure.Receive(t));
      next.holders == bp.holders + 1 && Tickets(next) == Tickets(bp) - {t}
  {
  }

  lemma CancelEffects(cfg: Backpressure.Settings, bp: Backpressure.State, t: nat)
    requires Distinct(bp.waiters) && (t in bp.waiters <==> t !in bp.handed)
    ensures var next := Backpressure.Step(cfg, bp, Backpressure.Cancel(t));
      next.holders == bp.holders && Tickets(next) == Tickets(bp) - {t}
  {
    Backpressure.RemoveKeeps(bp.waiters, t);
    hide Distinct, Backpressure.Remove;
  }

  lemma ReleaseEffects(cfg: Backpressure.Settings, bp: Backpressure.State, latency: int, now: int)
    requires Backpressure.Enabled(bp, Backpressure.Release(latency, now))
    ensures var next := Backpressure.Step(cfg, bp, Backpressure.Release(latency, now));
      next.holders == bp.holders - 1 && Tickets(next) == Tickets(bp)
  {
    hide Backpressure.Total, Backpressure.TruncDiv;
    if bp.waiters != [] {
      assert bp.waiters == [bp.waiters[0]] + bp.waiters[1..];
    }
  }

  // What the calls do to the slots held and the tickets.
  lemma CallEffects(cfg: Backpressure.Settings, bp: Backpressure.State, e: Backpressure.Event)
    requires Backpressure.Safe(cfg, bp) && Backpressure.Enabled(bp, e)
    ensures var next := Backpressure.Step(cfg, bp, e);
      match e
      case Acquire =>
        if bp.active < bp.concurrency then next.holders == bp.holders + 1 && Tickets(next) == Tickets(bp)
        else next.holders == bp.holders && Tickets(next) == Tickets(bp) + {bp.next} && bp.next !in Tickets(bp)
      case Receive(t) => next.holders == bp.holders + 1 && Tickets(next) == Tickets(bp) - {t}
      case Cancel(t) => next.holders == bp.holders && Tickets(next) == Tickets(bp) - {t}
      case Release(_, _) => next.holders == bp.holders - 1 && Tickets(next) == Tickets(bp)
  {
    hide Backpressure.Step, Tickets, Distinct;
    match e {
      case Acquire =>
        NextIsNew(cfg, bp);
        AcquireEffects(cfg, bp);
      case Receive(t) =>
        ReceiveEffects(cfg, bp, t);
      case Cancel(t) =>
        CancelEffects(cfg, bp, t);
      case Release(latency, now) =>
        ReleaseEffects(cfg, bp, latency, now);
    }
  }

  // The call is one the controller allows.
  lemma CallEnabled(cfg: Backpressure.Settings, limits: map<Locks.Lock, nat>, s: State, m: Move)
    requires Safe(cfg, limits, s) && Possible(limits, s, m) && Call(s, m).Some?
    ensures Backpressure.Enabled(s.bp, Call(s, m).value)
  {
    hide Backpressure.Safe, Locks.Safe;
    if s.stages[m.i].Inside? {
      assert m.i in Insiders(s.stages);
    }
  }

  function Next(cfg: Backpressure.Settings, limits: map<Locks.Lock, nat>, s: State, m: Move): State
    requires Possible(limits, s, m)
    requires Call(s, m).Some? ==> Backpressure.Enabled(s.bp, Call(s, m).value)
  {
    State(s.stages[m.i := NextStage(s, m)],
          if Call(s, m).Some? then Backpressure.Step(cfg, s.bp, Call(s, m).value) else s.bp,
          NextLocks(limits, s, m))
  }

  lemma InsidersUpdate(stages: seq<Stage>, i: nat, to: Stage)
    requires i < |stages|
    ensures |Insiders(stages[i := to])| ==
      |Insiders(stages)| + (if to.Inside? then 1 else 0) - (if stages[i].Inside? then 1 else 0)
  {
    var before, after := Insiders(stages), Insiders(stages[i := to]);
    assert i in before <==> stages[i].Inside?;
    forall k: nat
      ensures k in after <==> if k == i then to.Inside? else k in before
    {
    }
    hide Insiders;
    if to.Inside? == stages[i].Inside? {
      assert after == before;
    } else if to.Inside? {
      assert after == before + {i};
    } else {
      assert before == after + {i};
    }
  }

  // Node i gets a new ticket, or gives up the one it has, if any.
  lemma TicketedUpdate(stages: seq<Stage>, bp: Backpressure.State, i: nat, to: Stage, next: Backpressure.State)
    requires i < |stages| && Ticketed(stages, bp)
    requires to.Waiting? ==>
      !stages[i].Waiting? && to.ticket !in Tickets(bp) && Tickets(next) == Tickets(bp) + {to.ticket}
    requires !to.Waiting? ==>
      Tickets(next) == if stages[i].Waiting? then Tickets(bp) - {stages[i].ticket} else Tickets(bp)
    ensures Ticketed(stages[i := to], next)
  {
    hide Tickets;
    var after := stages[i := to];
    forall t | t in Tickets(next)
      ensures exists j :: Waits(after, j, t)
    {
      if to == Waiting(t) {
        assert Waits(after, i, t);
      } else {
        var j :| Waits(stages, j, t);
        assert Waits(after, j, t);
      }
    }
  }

  lemma LocksSafe(cfg: Backpressure.Settings, limits: map<Locks.Lock, nat>, s: State, m: Move)
    requires Safe(cfg, limits, s) && Possible(limits, s, m)
    ensures Locks.Safe(limits, NextLocks(limits, s, m))
    ensures Placed(s.stages[m.i := NextStage(s, m)], NextLocks(limits, s, m).workers)
  {
    if s.stages[m.i].Inside? && !s.locks.workers[m.i].phase.Finished? {
      if m.Go? {
        Locks.StepSafe(limits, s.locks, m.i);
      } else {
        Locks.CancelSafe(limits, s.locks, m.i);
      }
    }
    hide Locks.Safe, Backpressure.Safe, Ticketed;
  }

  // Every step of every node keeps both protocols safe and tied to each other.
  lemma StepSafe(cfg: Backpressure.Settings, limits: map<Locks.Lock, nat>, s: State, m: Move)
    requires 1 <= cfg.min <= cfg.max && Safe(cfg, limits, s) && Possible(limits, s, m)
    ensures Call(s, m).Some? ==> Backpressure.Enabled(s.bp, Call(s, m).value)
    ensures Safe(cfg, limits, Next(cfg, limits, s, m))
  {
    LocksSafe(cfg, limits, s, m);
    hide Locks.Safe, Backpressure.Safe, Backpressure.Step, Locks.Step, Tickets, Ticketed, Insiders, Placed, NextLocks;
    InsidersUpdate(s.stages, m.i, NextStage(s, m));
    if Call(s, m).Some? {
      var e := Call(s, m).value;
      CallEnabled(cfg, limits, s, m);
      Backpressure.StepSafe(cfg, s.bp, e);
      CallEffects(cfg, s.bp, e);
      TicketedUpdate(s.stages, s.bp, m.i, NextStage(s, m), Backpressure.Step(cfg, s.bp, e));
    } else {
      TicketedUpdate(s.stages, s.bp, m.i, NextStage(s, m), s.bp);
    }
  }

  // ----- progress -----

  // With the nodes outside taken for finished, the locks are where they are.
  ghost function InsideOnly(s: State): Locks.State
    requires |s.stages| == |s.locks.workers|
  {
    s.locks.(workers := seq(|s.stages|, i requires 0 <= i < |s.stages| =>
      if s.stages[i].Inside? then s.locks.workers[i] else s.locks.workers[i].(phase := Locks.Finished)))
  }

  lemma {:induction false} SameHolders(a: seq<Locks.Worker>, b: seq<Locks.Worker>, l: Locks.Lock)
    requires |a| == |b| && forall i :: 0 <= i < |a| ==> multiset(Locks.Held(a[i])) == multiset(Locks.Held(b[i]))
    ensures Locks.Holders(a, l) == Locks.Holders(b, l)
  {
    if a != [] {
      hide Locks.Held;
      SameHolders(a[..|a| - 1], b[..|b| - 1], l);
    }
  }

  lemma InsideOnlySafe(cfg: Backpressure.Settings, limits: map<Locks.Lock, nat>, s: State)
    requires Safe(cfg, limits, s)
    ensures Locks.Safe(limits, InsideOnly(s))
  {
    var t := InsideOnly(s);
    forall i | 0 <= i < |s.stages|
      ensures Locks.WellPlanned(limits, t.workers[i])
      ensures multiset(Locks.Held(t.workers[i])) == multiset(Locks.Held(s.locks.workers[i]))
    {
      assert Locks.WellPlanned(limits, s.locks.workers[i]);
    }
    hide Locks.WellPlanned, Locks.Held, Backpressure.Safe, Ticketed, Placed;
    forall l | l in limits
      ensures Locks.Holders(t.workers, l) == Locks.Holders(s.locks.workers, l)
    {
      SameHolders(t.workers, s.locks.workers, l);
    }
  }

  // If nodes are inside and none of them can go on, some lock is jammed.
  lemma InsideJams(cfg: Backpressure.Settings, limits: map<Locks.Lock, nat>, s: State, plans: seq<seq<Locks.Lock>>)
    returns (l: Locks.Lock, group: set<nat>)
    requires Safe(cfg, limits, s) && Locks.Fed(s.locks) && Locks.Planned(s.locks, plans)
    requires Insiders(s.stages) != {} && forall i :: !CanGo(limits, s, i)
    ensures Locks.Jams(limits, plans, l, group)
  {
    var t := InsideOnly(s);
    InsideOnlySafe(cfg, limits, s);
    var i :| i in Insiders(s.stages);
    assert !CanGo(limits, s, i);
    assert Locks.Unfinished(t, i);
    forall j: nat
      ensures !Locks.CanStep(limits, t, j)
    {
      assert !CanGo(limits, s, j);
    }
    hide Locks.Safe, Backpressure.Safe, Locks.Jams, Ticketed, Placed;
    l, group := Locks.StuckJams(limits, t, plans);
  }

  // With no lock to jam and no bucket that never fills, somebody can go on while anybody
  // has not left; or slots were lost to cancelled waiters, and those who are left wait and
  // can be cancelled as well.
  lemma Progress(cfg: Backpressure.Settings, limits: map<Locks.Lock, nat>, s: State, plans: seq<seq<Locks.Lock>>)
    requires Safe(cfg, limits, s) && Locks.Fed(s.locks) && Locks.Planned(s.locks, plans)
    requires forall l, group :: !Locks.Jams(limits, plans, l, group)
    requires forall i :: !CanGo(limits, s, i)
    ensures forall i :: 0 <= i < |s.stages| ==> s.stages[i].Left? || (s.stages[i].Waiting? && CanStop(s, i))
    ensures (exists i :: 0 <= i < |s.stages| && !s.stages[i].Left?) ==> s.bp.lost > 0
  {
    if Insiders(s.stages) != {} {
      var l, group := InsideJams(cfg, limits, s, plans);
    }
    hide Locks.Safe, Locks.Jams, Locks.CanStep;
    forall i | 0 <= i < |s.stages|
      ensures s.stages[i].Left? || (s.stages[i].Waiting? && CanStop(s, i))
    {
      assert !CanGo(limits, s, i);
      assert i !in Insiders(s.stages);
    }
    if i :| 0 <= i < |s.stages| && !s.stages[i].Left? {
      OnlyWaiting(cfg, limits, s, i);
    }
  }

  // A slot handed over is one that a waiting node can receive.
  lemma HandedGoes(limits: map<Locks.Lock, nat>, s: State, t: nat)
    requires |s.stages| == |s.locks.workers| && Ticketed(s.stages, s.bp) && t in s.bp.handed
    ensures exists j :: CanGo(limits, s, j)
  {
    assert t in Tickets(s.bp);
    var j :| Waits(s.stages, j, t);
    assert CanGo(limits, s, j);
  }

  lemma OnlyWaiting(cfg: Backpressure.Settings, limits: map<Locks.Lock, nat>, s: State, i: nat)
    requires Safe(cfg, limits, s) && i < |s.stages| && s.stages[i].Waiting? && Insiders(s.stages) == {}
    requires forall j :: !CanGo(limits, s, j)
    ensures s.bp.lost > 0
  {
    if t :| t in s.bp.handed {
      HandedGoes(limits, s, t);
    }
    assert s.stages[i].ticket in Tickets(s.bp);
    assert |s.bp.handed| == 0;
  }

  // ----- all runs -----

  ghost predicate IsRun(cfg: Backpressure.Settings, limits: map<Locks.Lock, nat>, s: State, moves: seq<Move>, t: State)
    decreases moves
  {
    if moves == [] then t == s
    else
      && Possible(limits, s, moves[0])
      && (Call(s, moves[0]).Some? ==> Backpressure.Enabled(s.bp, Call(s, moves[0]).value))
      && IsRun(cfg, limits, Next(cfg, limits, s, moves[0]), moves[1..], t)
  }

  function Start(cfg: Backpressure.Settings, tagLists: seq<seq<string>>, limits: map<Locks.Lock, nat>,
                 rates: map<string, real>, now: int): State {
    State(seq(|tagLists|, i => Outside), Backpressure.Initial(cfg, now), Locks.Start(tagLists, limits, rates))
  }

  lemma StartSafe(c: Backpressure.Settings, tagLists: seq<seq<string>>, limits: map<Locks.Lock, nat>,
                  rates: map<string, real>, now: int)
    requires var cfg := Backpressure.Normalise(c); cfg.min <= cfg.max
    ensures Safe(Backpressure.Normalise(c), limits, Start(Backpressure.Normalise(c), tagLists, limits, rates, now))
    ensures Locks.Planned(Locks.Start(tagLists, limits, rates), Locks.Plans(tagLists, limits))
  {
    var cfg := Backpressure.Normalise(c);
    var s := Start(cfg, tagLists, limits, rates, now);
    Backpressure.InitialSafe(c, now);
    Locks.StartSafe(tagLists, limits, rates);
    hide Locks.Plan, Locks.Starved, Locks.Safe, Backpressure.Safe;
    assert Insiders(s.stages) == {} && Tickets(s.bp) == {};
  }

  lemma MoveKeeps(cfg: Backpressure.Settings, limits: map<Locks.Lock, nat>, s: State, m: Move,
                  plans: seq<seq<Locks.Lock>>)
    requires Possible(limits, s, m) && Locks.Planned(s.locks, plans) && Locks.Fed(s.locks)
    requires Call(s, m).Some? ==> Backpressure.Enabled(s.bp, Call(s, m).value)
    ensures var t := Next(cfg, limits, s, m); Locks.Planned(t.locks, plans) && Locks.Fed(t.locks)
  {
  }

  lemma {:induction false} RunSafe(cfg: Backpressure.Settings, limits: map<Locks.Lock, nat>, s: State, moves: seq<Move>,
                                   t: State, plans: seq<seq<Locks.Lock>>)
    requires 1 <= cfg.min <= cfg.max && Safe(cfg, limits, s) && Locks.Planned(s.locks, plans) && Locks.Fed(s.locks)
    requires IsRun(cfg, limits, s, moves, t)
    ensures Safe(cfg, limits, t) && Locks.Planned(t.locks, plans) && Locks.Fed(t.locks)
    decreases moves
  {
    if moves != [] {
      hide Safe, Locks.Planned, Locks.Fed, Next, Possible, Call;
      StepSafe(cfg, limits, s, moves[0]);
      MoveKeeps(cfg, limits, s, moves[0], plans);
      RunSafe(cfg, limits, Next(cfg, limits, s, moves[0]), moves[1..], t, plans);
    }
  }

  // The moves a node has left at most, besides those on its tags.
  function StageLeft(stages: seq<Stage>): nat {
    if stages == [] then 0 else StageLeft(stages[..|stages| - 1]) + Rank(stages[|stages| - 1])
  }

  function Rank(stage: Stage): nat {
    match stage
    case Outside => 3
    case Waiting(_) => 2
    case Inside => 1
    case Left => 0
  }

  lemma {:induction false} StageLeftUpdate(stages: seq<Stage>, i: nat, to: Stage)
    requires i < |stages|
    ensures StageLeft(stages[i := to]) + Rank(stages[i]) == StageLeft(stages) + Rank(to)
  {
    var n := |stages| - 1;
    if i < n {
      assert stages[i := to][..n] == stages[..n][i := to];
      StageLeftUpdate(stages[..n], i, to);
    } else {
      assert stages[i := to][..n] == stages[..n];
    }
  }

  lemma MoveShrinks(cfg: Backpressure.Settings, limits: map<Locks.Lock, nat>, s: State, m: Move)
    requires Safe(cfg, limits, s) && Possible(limits, s, m)
    ensures StageLeft(s.stages[m.i := NextStage(s, m)]) + Locks.TotalLeft(NextLocks(limits, s, m).workers)
      < StageLeft(s.stages) + Locks.TotalLeft(s.locks.workers)
  {
    StageLeftUpdate(s.stages, m.i, NextStage(s, m));
    hide StageLeft, Locks.TotalLeft, Locks.Safe, Backpressure.Safe, Ticketed, Placed, Insiders;
    if s.stages[m.i].Inside? && !s.locks.workers[m.i].phase.Finished? {
      if m.Go? {
        Locks.StepShrinks(limits, s.locks, m.i);
      } else {
        Locks.CancelShrinks(limits, s.locks, m.i);
      }
    }
  }

  // Every run is finite: this many moves at most.
  lemma {:induction false} RunBound(cfg: Backpressure.Settings, limits: map<Locks.Lock, nat>, s: State,
                                    moves: seq<Move>, t: State)
    requires 1 <= cfg.min <= cfg.max && Safe(cfg, limits, s) && IsRun(cfg, limits, s, moves, t)
    ensures |moves| + StageLeft(t.stages) + Locks.TotalLeft(t.locks.workers)
      <= StageLeft(s.stages) + Locks.TotalLeft(s.locks.workers)
    decreases moves
  {
    if moves != [] {
      StepSafe(cfg, limits, s, moves[0]);
      MoveShrinks(cfg, limits, s, moves[0]);
      hide Safe, Possible, Call, StageLeft, NextStage, NextLocks, Locks.TotalLeft;
      RunBound(cfg, limits, Next(cfg, limits, s, moves[0]), moves[1..], t);
    }
  }

  // Nodes that take a backpressure slot first and then the slots of their tags never
  // block each other for good: whatever the settings after defaulting, under the same
  // condition on tags, limits and rates as without backpressure. Only slots lost to
  // cancelled waiters can leave nodes waiting, and the cancellation reaches those too.
  lemma DeadlockFree(c: Backpressure.Settings, tagLists: seq<seq<string>>, limits: map<Locks.Lock, nat>,
                     rates: map<string, real>, now: int, moves: seq<Move>, t: State)
    requires var cfg := Backpressure.Normalise(c); cfg.min <= cfg.max
    requires !Locks.SomeStarved(tagLists, rates)
    requires forall l, group :: !Locks.Jams(limits, Locks.Plans(tagLists, limits), l, group)
    requires var cfg := Backpressure.Normalise(c);
      IsRun(cfg, limits, Start(cfg, tagLists, limits, rates, now), moves, t)
    ensures Safe(Backpressure.Normalise(c), limits, t)
    ensures (exists i :: CanGo(limits, t, i))
      || (forall i :: 0 <= i < |t.stages| ==> t.stages[i].Left?)
      || (t.bp.lost > 0 && forall i :: 0 <= i < |t.stages| ==> t.stages[i].Left? || CanStop(t, i))
  {
    var cfg, plans := Backpressure.Normalise(c), Locks.Plans(tagLists, limits);
    StartSafe(c, tagLists, limits, rates, now);
    Locks.StartStarved(tagLists, limits, rates);
    Backpressure.InitialSafe(c, now);
    hide Safe, Locks.Planned, Locks.Fed, Locks.Jams, Locks.Plans, Locks.Start, IsRun, CanGo, CanStop,
      Backpressure.Normalise;
    RunSafe(cfg, limits, Start(cfg, tagLists, limits, rates, now), moves, t, plans);
    if forall i :: !CanGo(limits, t, i) {
      Progress(cfg, limits, t, plans);
    }
  }
}
