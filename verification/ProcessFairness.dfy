/**
  How the CPU is shared in runs with the test hooks off: preemption, time slices, and who gets its turn by when.
 */
module ProcessFairness {
  import opened Process
  import opened ProcessTree
  import opened Signals
  import opened ProcessInvariant
  import opened ProcessRuns
  import opened ProcessProgress
  import opened ProcessMeaning
  import opened ProcessLaws

  // ----- preemption -----

  /** From `m` to `r`, a task taken off the CPU while it ran becomes ready, one that had stopped running stays as
      it was; the task put on the CPU was ready; nobody else changes state. */
  ghost predicate Exchanged(m: Sys, r: Sys) {
    var c := m.current;
    && c in m.tasks && r.tasks.Keys == m.tasks.Keys && r.current in m.tasks
    && (r.current != c ==> m.tasks[r.current].state == Runnable && r.tasks[r.current].state == Running)
    && r.tasks[c].state == (if r.current != c && m.tasks[c].state == Running then Runnable else m.tasks[c].state)
    && forall t | t in m.tasks && t != c && t != r.current :: r.tasks[t].state == m.tasks[t].state
  }

  lemma ScheduledExchanges(m: Sys, r: Sys)
    requires m.current in m.tasks && Scheduled(m, r)
    ensures Exchanged(m, r)
  {
  }

  /** One tick, with `m` the state that the dispatch of signals leaves. */
  lemma Preemption(k: Sys) returns (m: Sys)
    requires Inv(k) && Enabled(k, TimerTick)
    ensures Settled(k, k.current, m) && m.current == k.current && Exchanged(m, Next(k, TimerTick, false))
  {
    CurrentOutcome(k);
    m := Dispatch(k, k.current);
    DispatchSettles(k, k.current);
    assert m.tasks[m.current].timeLeft >= 1 by { SwitchKeeps(m, false); }
    SwitchMeaning(m);
    ScheduledExchanges(m, Switch(m, false));
  }

  // ----- a task that nobody disturbs -----

  predicate OnTheGo(v: Task) { v.state == Running || v.state == Runnable }

  /** A change that leaves a ready or running task so. */
  predicate Holds(v: Task, w: Task) { OnTheGo(v) ==> w.state == v.state }

  /** A change that brings no signal that could end or stop a task. */
  predicate Soothes(v: Task, w: Task) { Peaceful(v) ==> Peaceful(w) }

  lemma SendHolds(v: Task, s: int)
    ensures Holds(v, Send(v, s))
    ensures (1 <= s < NSIG ==> Default(s) == Ignore) ==> Soothes(v, Send(v, s))
  {
    if (1 <= s < NSIG ==> Default(s) == Ignore) && Peaceful(v) { SendPeaceful(v, s); }
  }

  lemma RegisterHolds(v: Task, s: int, h: Handler)
    ensures Holds(v, Register(v, s, h)) && Soothes(v, Register(v, s, h))
  {
  }

  lemma DeliverHolds(v: Task)
    ensures Holds(v, Deliver(v)) && Soothes(v, Deliver(v))
  {
    DeliverMeaning(v);
  }

  lemma SpectatorHolds(v: Task, w: Task)
    requires Spectator(v, w)
    ensures Holds(v, w) && Soothes(v, w)
  {
    SendHolds(v, SIGCHLD);
  }

  lemma WaitHolds(k: Sys, t: Ref)
    requires k.current in k.tasks && k.current in k.kids && t in k.tasks && OnTheGo(k.tasks[t]) && t != k.current
    requires forall c | c in k.kids[k.current] :: c in k.parent && k.parent[c] == k.current
    ensures t in WaitPass(k).tasks && WaitPass(k).tasks[t] == k.tasks[t]
  {
  }

  /** The task takes itself off, or risks it. */
  predicate Yields(k: Sys, step: Step, t: Ref) {
    k.current == t && (step.SelfSignal? || step.ExitCall? || step.WaitCall?)
  }

  /** A signal that could end or stop the task is sent to it. */
  predicate Threatens(step: Step, t: Ref) {
    step.Signal? && step.target == t && 1 <= step.sig < NSIG && Default(step.sig) != Ignore
  }

  lemma SelfHolds(k: Sys, s: int, hooks: bool, t: Ref)
    requires Inv(k) && Enabled(k, SelfSignal(s)) && t in k.tasks && t != k.current
    ensures var r := Next(k, SelfSignal(s), hooks);
            t in r.tasks && Holds(k.tasks[t], r.tasks[t]) && Soothes(k.tasks[t], r.tasks[t])
  {
    SelfOutcome(k, s);
    var m := SendTo(k, k.current, s);
    DispatchBystander(m, k.current, Dispatch(m, k.current), t);
    SpectatorHolds(k.tasks[t], Dispatch(m, k.current).tasks[t]);
  }

  /** Between ticks a ready or running task stays so, unless it yields. */
  lemma StepHolds(k: Sys, step: Step, hooks: bool, t: Ref)
    requires Inv(k) && Enabled(k, step) && t in k.tasks && OnTheGo(k.tasks[t]) && step != TimerTick
    requires !Yields(k, step, t)
    ensures var r := Next(k, step, hooks);
            && t in r.tasks && Holds(k.tasks[t], r.tasks[t])
            && (!Threatens(step, t) ==> Soothes(k.tasks[t], r.tasks[t]))
  {
    match step {
      case Signal(u, s) => SendHolds(k.tasks[u], s);
      case SelfSignal(s) => SelfHolds(k, s, hooks, t);
      case Install(u, s, h) => RegisterHolds(k.tasks[u], s, h);
      case ExitCall(code) =>
        Relatives(k, k.current);
        ExitBystander(k, k.current, code, t);
        SpectatorHolds(k.tasks[t], Exit(k, k.current, code).tasks[t]);
      case WaitCall =>
        WaitReady(k);
        WaitHolds(k, t);
      case Return => DeliverHolds(k.tasks[k.current]);
      case _ =>
    }
  }

  /** Ready or running, with no signal pending that could end or stop it. */
  predicate Fit(k: Sys, t: Ref) {
    t in k.tasks && OnTheGo(k.tasks[t]) && Peaceful(k.tasks[t])
  }

  lemma PeacefulDispatch(k: Sys, t: Ref)
    requires t in k.tasks && Fit(k, t) && Dispatchable(k, t, k.tasks[t].pending)
    ensures var w := Dispatch(k, t).tasks[t]; Holds(k.tasks[t], w) && Soothes(k.tasks[t], w)
  {
    PeacefulSpared(k.tasks[t]);
    DispatchMeaning(k, t, k.tasks[t].pending, 1, Dispatch(k, t));
  }

  lemma DispatchFit(k: Sys, t: Ref)
    requires Inv(k) && Enabled(k, TimerTick) && Fit(k, t)
    ensures Dispatchable(k, k.current, k.tasks[k.current].pending)
    ensures var m := Dispatch(k, k.current); Fit(m, t) && m.tasks[t].state == k.tasks[t].state
  {
    CurrentOutcome(k);
    var m := Dispatch(k, k.current);
    if t == k.current {
      PeacefulDispatch(k, t);
    } else {
      DispatchBystander(k, k.current, m, t);
      SpectatorHolds(k.tasks[t], m.tasks[t]);
    }
  }

  lemma SwitchFit(k: Sys, t: Ref)
    requires k.current in k.tasks && k.tasks[k.current].timeLeft >= 1 && Fit(k, t)
    ensures Fit(Switch(k, false), t)
  {
    if PickNext(k) != k.current { HandOverFit(k, PickNext(k), t); }
  }

  lemma HandOverFit(k: Sys, next: Ref, t: Ref)
    requires k.current in k.tasks && next in k.tasks && Fit(k, t)
    ensures Fit(HandOver(k, next), t)
  {
  }

  lemma TickFit(k: Sys, t: Ref)
    requires Inv(k) && Enabled(k, TimerTick) && Fit(k, t)
    ensures Fit(Next(k, TimerTick, false), t)
  {
    DispatchFit(k, t);
    var m := Dispatch(k, k.current);
    CurrentOutcome(k);
    assert m.current in m.tasks && m.tasks[m.current].timeLeft >= 1 by { SwitchKeeps(m, false); }
    SwitchFit(m, t);
  }

  lemma StepFit(k: Sys, step: Step, t: Ref)
    requires Inv(k) && Enabled(k, step) && Fit(k, t) && !Yields(k, step, t) && !Threatens(step, t)
    ensures Fit(Next(k, step, false), t)
  {
    if step == TimerTick { TickFit(k, t); } else { StepHolds(k, step, false, t); }
  }

  /** Through the run, the task is sent nothing that could end or stop it, and makes no exit, wait or kill call. */
  ghost predicate Undisturbed(k: Sys, steps: seq<Step>, t: Ref)
    requires Inv(k) && RunOk(k, steps, false)
    decreases |steps|
  {
    steps == [] || (!Yields(k, steps[0], t) && !Threatens(steps[0], t)
                    && Undisturbed(Next(k, steps[0], false), steps[1..], t))
  }

  /** The task is ready or running in every state of the run. */
  ghost predicate AlwaysFit(k: Sys, steps: seq<Step>, t: Ref)
    requires Inv(k) && RunOk(k, steps, false)
    decreases |steps|
  {
    Fit(k, t) && (steps == [] || AlwaysFit(Next(k, steps[0], false), steps[1..], t))
  }

  lemma {:induction false} StaysFit(k: Sys, steps: seq<Step>, t: Ref)
    requires Inv(k) && RunOk(k, steps, false) && Fit(k, t) && Undisturbed(k, steps, t)
    ensures AlwaysFit(k, steps, t)
    decreases |steps|
  {
    if steps != [] {
      StepFit(k, steps[0], t);
      StaysFit(Next(k, steps[0], false), steps[1..], t);
    }
  }

  // ----- newcomers and leavers on the run list -----

  lemma {:induction false} IndexConcat(a: seq<Ref>, b: seq<Ref>, x: Ref)
    ensures Index(a + b, x) == if x in a then Index(a, x) else |a| + Index(b, x)
  {
    if a == [] {
      assert a + b == b;
    } else {
      IndexConcat(a[1..], b, x);
      assert (a + b)[1..] == a[1..] + b;
    }
  }

  lemma SkipIndex(a: seq<Ref>, z: Ref, b: seq<Ref>, x: Ref)
    requires x != z
    ensures Index(a + b, x) <= Index(a + [z] + b, x) <= Index(a + b, x) + 1
  {
    IndexConcat(a, b, x);
    IndexConcat(a + [z], b, x);
    IndexConcat(a, [z], x);
  }

  lemma OthersIs(run: seq<Ref>, c: Ref, n: nat)
    requires Index(run, c) == n < |run|
    ensures Others(run, c) == run[n + 1..] + run[..n]
  {
  }

  /** A list split before and after place `n` of its front part, or of its back part. */
  lemma TurnedFront(x: seq<Ref>, y: seq<Ref>, n: nat)
    requires n < |x|
    ensures (x + y)[n + 1..] == x[n + 1..] + y && (x + y)[..n] == x[..n]
  {
  }

  lemma TurnedBack(x: seq<Ref>, y: seq<Ref>, n: nat)
    requires |x| <= n < |x| + |y|
    ensures (x + y)[n + 1..] + (x + y)[..n] == y[n - |x| + 1..] + x + y[..n - |x|]
  {
    assert (x + y)[n + 1..] == y[n - |x| + 1..] && (x + y)[..n] == x + y[..n - |x|];
  }

  lemma FrontPlace(x: seq<Ref>, z: Ref, y: seq<Ref>, c: Ref)
    requires c in x
    ensures Index(x + [z] + y, c) == Index(x, c) == Index(x + y, c)
  {
    IndexConcat(x, y, c);
    IndexConcat(x + [z], y, c);
    IndexConcat(x, [z], c);
  }

  lemma BackPlace(x: seq<Ref>, z: Ref, y: seq<Ref>, c: Ref)
    requires c !in x && z != c
    ensures Index(x + [z] + y, c) == |x| + 1 + Index(y, c) && Index(x + y, c) == |x| + Index(y, c)
  {
    IndexConcat(x, y, c);
    IndexConcat(x + [z], y, c);
  }

  /** One more entry in the list is one more entry in the order the scheduler looks at the tasks. */
  lemma FrontSplit(x: seq<Ref>, z: Ref, y: seq<Ref>, c: Ref, i: nat)
    requires i < |x| && Index(x + [z] + y, c) == i == Index(x + y, c)
    ensures Others(x + [z] + y, c) == x[i + 1..] + [z] + (y + x[..i])
    ensures Others(x + y, c) == x[i + 1..] + (y + x[..i])
  {
    OthersIs(x + [z] + y, c, i);
    OthersIs(x + y, c, i);
    assert (x + [z] + y)[i + 1..] + (x + [z] + y)[..i] == x[i + 1..] + [z] + (y + x[..i]) by {
      TurnedFront(x + [z], y, i);
      TurnedFront(x, [z], i);
    }
    assert (x + y)[i + 1..] + (x + y)[..i] == x[i + 1..] + (y + x[..i]) by { TurnedFront(x, y, i); }
  }

  lemma BackSplit(x: seq<Ref>, z: Ref, y: seq<Ref>, c: Ref, j: nat)
    requires j < |y| && Index(x + [z] + y, c) == |x| + 1 + j && Index(x + y, c) == |x| + j
    ensures Others(x + [z] + y, c) == y[j + 1..] + x + [z] + y[..j]
    ensures Others(x + y, c) == y[j + 1..] + x + y[..j]
  {
    OthersIs(x + [z] + y, c, |x| + 1 + j);
    OthersIs(x + y, c, |x| + j);
    TurnedBack(x + [z], y, |x| + 1 + j);
    TurnedBack(x, y, |x| + j);
    Regroup(y[j + 1..], x, [z]);
  }

  lemma Regroup(a: seq<Ref>, b: seq<Ref>, c: seq<Ref>)
    ensures a + (b + c) == a + b + c
  {
  }

  lemma OthersSplit(x: seq<Ref>, z: Ref, y: seq<Ref>, c: Ref) returns (a: seq<Ref>, b: seq<Ref>)
    requires z != c && c in x + y
    ensures Others(x + [z] + y, c) == a + [z] + b && Others(x + y, c) == a + b
  {
    if c in x {
      var i := Index(x, c);
      a, b := x[i + 1..], y + x[..i];
      FrontPlace(x, z, y, c);
      FrontSplit(x, z, y, c, i);
    } else {
      var j := Index(y, c);
      a, b := y[j + 1..] + x, y[..j];
      BackPlace(x, z, y, c);
      BackSplit(x, z, y, c, j);
    }
  }

  /** It puts a task back by one place at most. */
  lemma PlaceShifts(x: seq<Ref>, z: Ref, y: seq<Ref>, c: Ref, t: Ref)
    requires z != c && c in x + y && t != z
    ensures Index(Others(x + y, c), t) <= Index(Others(x + [z] + y, c), t) <= Index(Others(x + y, c), t) + 1
  {
    var a, b := OthersSplit(x, z, y, c);
    SkipIndex(a, z, b, t);
  }

  /** The step puts a new task on the list. */
  predicate Joins(step: Step) { step.ForkCall? || step.SpawnUser? || step.SpawnKernel? || step.SpawnInit? }

  function TickOf(step: Step): nat { if step == TimerTick then 1 else 0 }
  function SliceOf(step: Step): nat { if Joins(step) then QUANTUM else 0 }

  /** How many ticks the task is from the CPU. */
  function Distance(k: Sys, t: Ref): nat
    requires k.current in k.tasks
  {
    if k.current == t then 0 else Wait(k, t)
  }

  /** A newcomer goes to the head of the list. */
  lemma JoinNearer(k: Sys, c: Ref, r: Sys, t: Ref)
    requires k.current in k.tasks && c !in k.run && t != c && k.current in k.run
    requires r.run == [c] + k.run && r.current == k.current && k.current in r.tasks
    requires r.tasks[k.current].timeLeft == k.tasks[k.current].timeLeft
    ensures Distance(r, t) <= Distance(k, t) + QUANTUM
  {
    assert [] + [c] + k.run == r.run && [] + k.run == k.run;
    PlaceShifts([], c, k.run, k.current, t);
  }

  lemma JoinList(k: Sys, step: Step)
    requires Inv(k) && Enabled(k, step) && Joins(step)
    ensures step.child !in k.tasks && Next(k, step, false).run == [step.child] + k.run
  {
  }

  lemma WithoutPlace(list: seq<Ref>, i: nat, c: Ref)
    requires i < |list| && c in list && c != list[i]
    ensures list == list[..i] + [list[i]] + list[i + 1..] && c in list[..i] + list[i + 1..]
  {
    var j :| 0 <= j < |list| && list[j] == c;
    assert c == if j < i then list[..i][j] else list[i + 1..][j - i - 1];
  }

  /** A leaver only brings the others nearer. */
  lemma LeaveNearer(k: Sys, z: Ref, r: Sys, t: Ref)
    requires k.current in k.tasks && z in k.run && z != k.current && z != t && k.current in k.run
    requires r.run == Remove(k.run, z) && r.current == k.current && k.current in r.tasks
    requires r.tasks[k.current].timeLeft == k.tasks[k.current].timeLeft
    ensures Distance(r, t) <= Distance(k, t)
  {
    RemoveMeaning(k.run, z);
    var i: nat :| DroppedAt(k.run, z, r.run, i);
    var x, y := k.run[..i], k.run[i + 1..];
    WithoutPlace(k.run, i, k.current);
    PlaceShifts(x, z, y, k.current, t);
  }

  lemma WaitNearer(k: Sys, t: Ref)
    requires Inv(k) && Enabled(k, WaitCall) && t in k.tasks && k.tasks[t].state != Zombie
    ensures Distance(Next(k, WaitCall, false), t) <= Distance(k, t)
  {
    WaitReady(k);
    StepStill(k, WaitCall, false);
    var list := k.kids[k.current];
    var j := FirstZombie(k.tasks, list);
    var r := Next(k, WaitCall, false);
    if j < |list| {
      var z := list[j];
      assert DeadAt(k.tasks, k.kids, k.init, z);
      LeaveNearer(k, z, r, t);
    }
  }

  /** Each tick brings a ready task nearer to the CPU, and only a newcomer takes it farther, by a slice. */
  lemma StepNearer(k: Sys, step: Step, t: Ref)
    requires Inv(k) && Enabled(k, step) && t in k.tasks && k.tasks[t].state != Zombie
    requires Waiting(k, t) || (k.current == t && step != TimerTick)
    ensures Distance(Next(k, step, false), t) + TickOf(step) <= Distance(k, t) + SliceOf(step)
  {
    if step == TimerTick {
      WaitBound(k, t);
      TickNearer(k, false, t);
    } else if Joins(step) {
      JoinList(k, step);
      StepStill(k, step, false);
      JoinNearer(k, step.child, Next(k, step, false), t);
    } else if step == WaitCall {
      WaitNearer(k, t);
    } else {
      StepStill(k, step, false);
      SameWait(k, Next(k, step, false), t);
    }
  }

  lemma SameWait(k: Sys, m: Sys, t: Ref)
    requires k.current in k.tasks && m.current == k.current && m.run == k.run && k.current in m.tasks
    requires m.tasks[k.current].timeLeft == k.tasks[k.current].timeLeft
    ensures Distance(m, t) == Distance(k, t)
  {
  }

  // ----- its turns -----

  /** The task is on the CPU in some state of the run. */
  ghost predicate HasCpu(k: Sys, steps: seq<Step>, t: Ref)
    requires Inv(k) && RunOk(k, steps, false)
    decreases |steps|
  {
    k.current == t || (steps != [] && HasCpu(Next(k, steps[0], false), steps[1..], t))
  }

  function Newcomers(steps: seq<Step>): nat {
    if steps == [] then 0 else (if Joins(steps[0]) then 1 else 0) + Newcomers(steps[1..])
  }

  /** From every state of the run on, the task has its turn within ten ticks for each other task on the list, and
      for each that joins it. */
  ghost predicate TakesTurns(k: Sys, steps: seq<Step>, t: Ref)
    requires Inv(k) && RunOk(k, steps, false)
    decreases |steps|
  {
    && (Ticks(steps) > (|k.run| - 1) * QUANTUM + QUANTUM * Newcomers(steps) ==> HasCpu(k, steps, t))
    && (steps == [] || TakesTurns(Next(k, steps[0], false), steps[1..], t))
  }

  lemma Budget(steps: seq<Step>)
    requires steps != []
    ensures Ticks(steps) == TickOf(steps[0]) + Ticks(steps[1..])
    ensures QUANTUM * Newcomers(steps) == SliceOf(steps[0]) + QUANTUM * Newcomers(steps[1..])
  {
  }

  lemma FitWaits(k: Sys, t: Ref)
    requires Inv(k) && Fit(k, t) && t != KTHREADD && t != k.current
    ensures Waiting(k, t)
  {
    assert TaskAt(k.tasks, k.current, t);
  }

  lemma {:induction false} TurnComes(k: Sys, steps: seq<Step>, t: Ref)
    requires Inv(k) && RunOk(k, steps, false) && Fit(k, t) && t != KTHREADD && Undisturbed(k, steps, t)
    requires Ticks(steps) > Distance(k, t) + QUANTUM * Newcomers(steps)
    ensures HasCpu(k, steps, t)
    decreases |steps|
  {
    if k.current != t {
      FitWaits(k, t);
      StepFit(k, steps[0], t);
      StepNearer(k, steps[0], t);
      Budget(steps);
      TurnComes(Next(k, steps[0], false), steps[1..], t);
    }
  }

  lemma FitDistance(k: Sys, t: Ref)
    requires Inv(k) && Fit(k, t) && t != KTHREADD
    ensures |k.run| >= 1 && Distance(k, t) <= (|k.run| - 1) * QUANTUM
  {
    assert k.current in k.run;
    if k.current != t {
      FitWaits(k, t);
      WaitBound(k, t);
    }
  }

  /** An undisturbed task is ready or running in every state of the run, and from every one of them on it has the
      CPU within ten ticks for each other task on the list and for each that joins it meanwhile. */
  lemma {:induction false} RoundRobin(k: Sys, steps: seq<Step>, t: Ref)
    requires Inv(k) && RunOk(k, steps, false) && Fit(k, t) && t != KTHREADD && Undisturbed(k, steps, t)
    ensures AlwaysFit(k, steps, t) && TakesTurns(k, steps, t)
    decreases |steps|
  {
    StaysFit(k, steps, t);
    FitDistance(k, t);
    if Ticks(steps) > (|k.run| - 1) * QUANTUM + QUANTUM * Newcomers(steps) { TurnComes(k, steps, t); }
    if steps != [] {
      StepFit(k, steps[0], t);
      RoundRobin(Next(k, steps[0], false), steps[1..], t);
    }
  }

  // ----- the longest wait there can be -----

  /** Pids are never reused, so this many tasks can still be made. */
  function Room(k: Sys): int { MAX_PROC - 1 - k.counter + if k.init == NONE then 1 else 0 }

  lemma StepRoom(k: Sys, step: Step)
    requires Inv(k) && Enabled(k, step)
    ensures Room(Next(k, step, false)) == Room(k) - if Joins(step) then 1 else 0
  {
    if step.SelfSignal? { SelfRoom(k, step.sig); }
  }

  lemma SelfRoom(k: Sys, s: int)
    requires Inv(k) && Enabled(k, SelfSignal(s))
    ensures Room(Next(k, SelfSignal(s), false)) == Room(k)
  {
    SelfOutcome(k, s);
  }

  lemma RoomLeft(k: Sys)
    requires Inv(k)
    ensures Room(k) >= 0
  {
  }

  lemma {:induction false} NewcomersBound(k: Sys, steps: seq<Step>)
    requires Inv(k) && RunOk(k, steps, false)
    ensures Newcomers(steps) <= Room(k)
    decreases |steps|
  {
    RoomLeft(k);
    if steps != [] {
      StepRoom(k, steps[0]);
      NewcomersBound(Next(k, steps[0], false), steps[1..]);
    }
  }

  /** Distinct numbers below `n` are at most `n`. */
  lemma {:induction false} Pigeonhole(s: seq<nat>, n: nat)
    requires Distinct(s) && forall i: nat | i < |s| :: s[i] < n
    ensures |s| <= n
    decreases n
  {
    if s == [] {
      return;
    }
    assert s[0] < n;
    if n - 1 in s {
      var i :| 0 <= i < |s| && s[i] == n - 1;
      var rest := s[..i] + s[i + 1..];
      forall j: nat | j < |rest|
        ensures rest[j] < n - 1
      {
        assert if j < i then rest[j] == s[j] != s[i] else rest[j] == s[j + 1] != s[i];
      }
      Pigeonhole(rest, n - 1);
    } else {
      Pigeonhole(s, n - 1);
    }
  }

  /** The pids in use, closed up over those that no task on the list has. */
  function Rank(k: Sys, t: Ref): int
    requires t in k.tasks
  {
    var pid := k.tasks[t].pid;
    if pid == 0 then 0 else if k.init == NONE then pid - 2 else if pid > 2 then pid - 1 else pid
  }

  lemma Ranked(k: Sys, t: Ref, u: Ref)
    requires Inv(k) && t in k.run && u in k.run
    ensures 0 <= Rank(k, t) < k.counter - (if k.init == NONE then 1 else 0)
    ensures t != u ==> Rank(k, t) != Rank(k, u)
  {
    assert PidAt(k.tasks, k.init, k.counter, t) && PidAt(k.tasks, k.init, k.counter, u) && Apart(k.tasks, t, u);
  }

  /** The tasks on the list and those still to come are at most 127. */
  lemma ListBound(k: Sys)
    requires Inv(k)
    ensures |k.run| + Room(k) <= MAX_PROC - 1
  {
    var n := k.counter - if k.init == NONE then 1 else 0;
    forall i: nat, j: nat | i < |k.run| && j < |k.run|
      ensures k.run[i] in k.tasks && k.run[j] in k.tasks && 0 <= Rank(k, k.run[i]) < n
      ensures i != j ==> Rank(k, k.run[i]) != Rank(k, k.run[j])
    {
      assert k.run[i] in k.run && k.run[j] in k.run;
      Ranked(k, k.run[i], k.run[j]);
    }
    Pigeonhole(Ranks(k, n), n);
  }

  ghost function Ranks(k: Sys, n: int): (s: seq<nat>)
    requires forall i: nat | i < |k.run| :: k.run[i] in k.tasks && 0 <= Rank(k, k.run[i]) < n
    ensures |s| == |k.run| && forall i: nat | i < |s| :: s[i] == Rank(k, k.run[i])
  {
    seq(|k.run|, i requires 0 <= i < |k.run| && k.run[i] in k.tasks && 0 <= Rank(k, k.run[i]) => Rank(k, k.run[i]))
  }

  /** The longest wait: ten ticks for each of 126 others. */
  const PATIENCE: nat := 1260

  lemma NewcomersWait(k: Sys, steps: seq<Step>)
    requires Inv(k) && RunOk(k, steps, false)
    ensures |k.run| >= 1 && (|k.run| - 1) * QUANTUM + QUANTUM * Newcomers(steps) <= PATIENCE
  {
    ListBound(k);
    NewcomersBound(k, steps);
    assert k.current in k.run;
  }

  /** Nobody starves: whatever the others do, tasks coming and going included, an undisturbed task has the CPU within
      any 1261 ticks. */
  lemma NoStarvation(k: Sys, steps: seq<Step>, t: Ref)
    requires Inv(k) && RunOk(k, steps, false) && Fit(k, t) && t != KTHREADD && Undisturbed(k, steps, t)
    requires Ticks(steps) > PATIENCE
    ensures HasCpu(k, steps, t)
  {
    NewcomersWait(k, steps);
    FitDistance(k, t);
    TurnComes(k, steps, t);
  }

  // ----- its time slice -----

  lemma TickSlice(k: Sys)
    requires Inv(k) && Enabled(k, TimerTick) && Fit(k, k.current) && k.tasks[k.current].state == Running
    requires k.tasks[k.current].timeLeft > 1
    ensures var r := Next(k, TimerTick, false);
            && r.current == k.current && r.tasks[k.current].state == Running
            && r.tasks[k.current].timeLeft == k.tasks[k.current].timeLeft - 1
  {
    DispatchFit(k, k.current);
  }

  /** A running task that is left alone keeps the CPU until its slice is used up, one tick at a time. */
  lemma {:induction false} SliceLaw(k: Sys, steps: seq<Step>)
    requires Inv(k) && RunOk(k, steps, false) && Fit(k, k.current) && k.tasks[k.current].state == Running
    requires Undisturbed(k, steps, k.current) && Ticks(steps) < k.tasks[k.current].timeLeft
    ensures var r := Run(k, steps, false);
            && r.current == k.current && r.tasks[r.current].state == Running
            && r.tasks[r.current].timeLeft == k.tasks[k.current].timeLeft - Ticks(steps)
    decreases |steps|
  {
    if steps != [] {
      var m := Next(k, steps[0], false);
      StepFit(k, steps[0], k.current);
      if steps[0] == TimerTick {
        TickSlice(k);
      } else {
        StepStill(k, steps[0], false);
        StepHolds(k, steps[0], false, k.current);
      }
      SliceLaw(m, steps[1..]);
    }
  }

  // ----- SIGKILL in bounded time -----

  /** The task is doomed, and on the CPU or ready for it. */
  predicate Due(k: Sys, t: Ref) {
    Doomed(k, t) && (k.current == t || k.tasks[t].state == Runnable)
  }

  /** The task ends in the course of the run. */
  ghost predicate EndsIn(k: Sys, steps: seq<Step>, t: Ref)
    requires Inv(k) && RunOk(k, steps, false)
    decreases |steps|
  {
    DeadNow(k.tasks, t) || (steps != [] && EndsIn(Next(k, steps[0], false), steps[1..], t))
  }

  lemma TickDue(k: Sys, t: Ref)
    requires Inv(k) && Enabled(k, TimerTick) && Due(k, t) && t != k.current
    ensures Due(Next(k, TimerTick, false), t)
  {
    TickDoomed(k, false, t);
    CurrentOutcome(k);
    var m := Dispatch(k, k.current);
    DispatchBystander(k, k.current, m, t);
    SpectatorHolds(k.tasks[t], m.tasks[t]);
    assert m.current in m.tasks && m.tasks[m.current].timeLeft >= 1 by { SwitchKeeps(m, false); }
    SwitchHolds(m, t);
  }

  lemma SwitchHolds(k: Sys, t: Ref)
    requires k.current in k.tasks && k.tasks[k.current].timeLeft >= 1 && t in k.tasks
    requires k.tasks[t].state == Runnable && t != k.current
    ensures var r := Switch(k, false); t in r.tasks && (r.current == t || r.tasks[t].state == Runnable)
  {
  }

  lemma StepDue(k: Sys, step: Step, t: Ref)
    requires Inv(k) && Enabled(k, step) && Due(k, t) && !(k.current == t && step == TimerTick)
    ensures var r := Next(k, step, false); DeadNow(r.tasks, t) || Due(r, t)
  {
    if Comes(k, step, t) {
      if step.SelfSignal? { DoomedEnds(k, step, false); } else { Relatives(k, t); }
    } else if step == TimerTick {
      TickDue(k, t);
    } else {
      StepDoomed(k, step, false, t);
      StepStill(k, step, false);
      if k.current != t { StepHolds(k, step, false, t); }
    }
  }

  lemma {:induction false} KillWithin(k: Sys, steps: seq<Step>, t: Ref)
    requires Inv(k) && RunOk(k, steps, false) && Due(k, t) && t in k.run
    requires Ticks(steps) > Distance(k, t) + QUANTUM * Newcomers(steps)
    ensures EndsIn(k, steps, t)
    decreases |steps|
  {
    var m := Next(k, steps[0], false);
    if steps[0] == TimerTick && k.current == t {
      DoomedEnds(k, TimerTick, false);
      assert DeadNow(m.tasks, t);
    } else {
      StepDue(k, steps[0], t);
      if !DeadNow(m.tasks, t) {
        StepNearer(k, steps[0], t);
        Budget(steps);
        KillWithin(m, steps[1..], t);
      }
    }
  }

  /** SIGKILL is prompt: with `n` tasks on the list, a live task that is sent it is dead before `(n - 1) * 10 + 1`
      ticks are over, ten more for each task that joins the list meanwhile; and in any case before 1261 are. */
  lemma KillDeadline(k: Sys, steps: seq<Step>, t: Ref)
    requires Inv(k) && t in k.run && k.tasks[t].state != Zombie
    requires RunOk(Next(k, Signal(t, SIGKILL), false), steps, false)
    requires Ticks(steps) > (|k.run| - 1) * QUANTUM + QUANTUM * Newcomers(steps) || Ticks(steps) > PATIENCE
    ensures EndsIn(Next(k, Signal(t, SIGKILL), false), steps, t)
  {
    var k1 := Next(k, Signal(t, SIGKILL), false);
    KillDooms(k, t, false);
    assert TaskAt(k.tasks, k.current, t);
    if k1.current != t { WaitBound(k1, t); }
    NewcomersWait(k1, steps);
    KillWithin(k1, steps, t);
  }
}
