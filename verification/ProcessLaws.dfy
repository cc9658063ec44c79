/**
  Laws of whole runs that join the operations: a child is waited for once, SIGKILL ends its target in bounded
  time, and a task that nobody disturbs gets the CPU again and again.
 */
module ProcessLaws {
  import opened Process
  import opened ProcessTree
  import opened Signals
  import opened ProcessInvariant
  import opened ProcessRuns
  import opened ProcessSafety
  import opened ProcessMeaning

  // ----- a child is waited for once -----

  /** The pids that `wait` answers in the course of a run. */
  ghost function WaitedFor(k: Sys, steps: seq<Step>, hooks: bool): (pids: seq<nat>)
    requires Inv(k) && RunOk(k, steps, hooks)
    decreases |steps|
  {
    if steps == [] then []
    else
      (if steps[0] == WaitCall && WaitAnswer(k).Reaped? then [WaitAnswer(k).pid] else [])
      + WaitedFor(Next(k, steps[0], hooks), steps[1..], hooks)
  }

  /** A pid given out before that no task has. */
  ghost predicate Gone(tasks: Tasks, counter: nat, pid: nat) {
    3 <= pid <= counter && forall u {:trigger tasks[u]} | u in tasks :: tasks[u].pid != pid
  }

  /** After `wait` answered a pid, no task has it. */
  lemma ReapedGone(k: Sys)
    requires Inv(k) && Enabled(k, WaitCall) && WaitAnswer(k).Reaped?
    ensures var r := Next(k, WaitCall, false); Gone(r.tasks, r.counter, WaitAnswer(k).pid)
  {
    WaitReady(k);
    var list := k.kids[k.current];
    var z := list[FirstZombie(k.tasks, list)];
    assert DeadAt(k.tasks, k.kids, k.init, z) && PidAt(k.tasks, k.init, k.counter, z);
    var r := Next(k, WaitCall, false);
    forall u | u in r.tasks
      ensures r.tasks[u].pid != k.tasks[z].pid
    {
      assert Apart(k.tasks, u, z);
    }
  }

  lemma StepGone(k: Sys, step: Step, hooks: bool, pid: nat)
    requires Inv(k) && Enabled(k, step) && Gone(k.tasks, k.counter, pid)
    ensures var r := Next(k, step, hooks); Gone(r.tasks, r.counter, pid)
  {
    StepFates(k, step, hooks);
    CounterGrows(k, step, hooks);
    if !Resumes(k, step) { FatesGone(k.tasks, k.counter, Next(k, step, hooks).tasks, pid); }
  }

  lemma FatesGone(tasks: Tasks, counter: nat, tasks': Tasks, pid: nat)
    requires Fates(tasks, counter, tasks') && Gone(tasks, counter, pid)
    ensures Gone(tasks', counter, pid)
  {
    forall u | u in tasks'
      ensures tasks'[u].pid != pid
    {
      assert FateAt(tasks, counter, tasks', u);
    }
  }

  /** A pid that is gone is never answered. */
  lemma {:induction false} GoneUnanswered(k: Sys, steps: seq<Step>, hooks: bool, pid: nat)
    requires Inv(k) && RunOk(k, steps, hooks) && Gone(k.tasks, k.counter, pid)
    ensures pid !in WaitedFor(k, steps, hooks)
    decreases |steps|
  {
    if steps != [] {
      StepGone(k, steps[0], hooks, pid);
      GoneUnanswered(Next(k, steps[0], hooks), steps[1..], hooks, pid);
    }
  }

  predicate Distinct(pids: seq<nat>) {
    forall i: nat, j: nat | i < j < |pids| :: pids[i] != pids[j]
  }

  lemma ConsDistinct(pid: nat, pids: seq<nat>)
    requires Distinct(pids) && pid !in pids
    ensures Distinct([pid] + pids)
  {
  }

  /** In no run is a pid the answer of `wait` twice. */
  lemma {:induction false} WaitedOnce(k: Sys, steps: seq<Step>, hooks: bool)
    requires Inv(k) && RunOk(k, steps, hooks)
    ensures Distinct(WaitedFor(k, steps, hooks))
    decreases |steps|
  {
    if steps != [] {
      var m := Next(k, steps[0], hooks);
      WaitedOnce(m, steps[1..], hooks);
      if steps[0] == WaitCall && WaitAnswer(k).Reaped? {
        ReapedGone(k);
        GoneUnanswered(m, steps[1..], hooks, WaitAnswer(k).pid);
        ConsDistinct(WaitAnswer(k).pid, WaitedFor(m, steps[1..], hooks));
      } else {
        assert [] + WaitedFor(m, steps[1..], hooks) == WaitedFor(m, steps[1..], hooks);
      }
    }
  }

  // ----- what a dispatch and a switch leave of the others -----

  /** The task is as it was, or was sent SIGCHLD. */
  predicate Spectator(v: Task, w: Task) { w == v || w == Send(v, SIGCHLD) }

  lemma ExitBystander(k: Sys, c: Ref, code: int, t: Ref)
    requires CanExit(k, c) && t in k.tasks && t != c
    ensures Spectator(k.tasks[t], Exit(k, c, code).tasks[t])
  {
  }

  /** Another task's dispatch makes a spectator of a task. */
  lemma DispatchBystander(k: Sys, c: Ref, r: Sys, t: Ref)
    requires (Quiet(k, c, r) || QuietThenExit(k, c, r)) && t in k.tasks && t != c
    ensures t in r.tasks && Spectator(k.tasks[t], r.tasks[t])
  {
    if !Quiet(k, c, r) {
      var m, code :| Quiet(k, c, m) && !Halted(m.tasks[c]) && CanExit(m, c) && r == Exit(m, c, code);
      assert m.tasks[t] == k.tasks[t];
      ExitBystander(m, c, code, t);
    }
  }

  lemma CurrentOutcome(k: Sys)
    requires Inv(k) && Enabled(k, TimerTick)
    ensures Dispatchable(k, k.current, k.tasks[k.current].pending)
    ensures var m := Dispatch(k, k.current);
            Inv(m) && (Quiet(k, k.current, m) || QuietThenExit(k, k.current, m)) && m.current == k.current
  {
    DispatchKeeps(k, k.current);
    DispatchOutcome(k, k.current);
  }

  lemma SelfOutcome(k: Sys, s: int)
    requires Inv(k) && Enabled(k, SelfSignal(s))
    ensures var m := SendTo(k, k.current, s);
            && Inv(m) && Dispatchable(m, k.current, m.tasks[k.current].pending)
            && (Quiet(m, k.current, Dispatch(m, k.current)) || QuietThenExit(m, k.current, Dispatch(m, k.current)))
  {
    SendMild(k.tasks[k.current], s);
    SetMild(k, k.current, Send(k.tasks[k.current], s), k.calls);
    DispatchReady(SendTo(k, k.current, s), k.current);
    DispatchOutcome(SendTo(k, k.current, s), k.current);
  }

  // ----- SIGKILL -----

  /** SIGKILL is pending for a task that is neither dead nor stopped. */
  predicate Doomed(k: Sys, t: Ref) {
    t in k.tasks && !Halted(k.tasks[t]) && Has(k.tasks[t].pending, SIGKILL)
  }

  /** Sending SIGKILL dooms a live task, sleeping or stopped as it may be, and makes it ready unless it runs. */
  lemma KillDooms(k: Sys, t: Ref, hooks: bool)
    requires Inv(k) && t in k.tasks && k.tasks[t].state != Zombie
    ensures var r := Next(k, Signal(t, SIGKILL), hooks);
            Doomed(r, t) && (k.tasks[t].state != Running ==> r.tasks[t].state == Runnable)
  {
    SendMeaning(k.tasks[t], SIGKILL);
  }

  /** The step is one that makes its caller `t` handle its signals, or exit. */
  predicate Comes(k: Sys, step: Step, t: Ref) {
    k.current == t && (step == TimerTick || step.SelfSignal? || step.ExitCall?)
  }

  /** The first of these that handles signals ends it, with the code of a signal no higher than SIGKILL. */
  lemma DoomedEnds(k: Sys, step: Step, hooks: bool)
    requires Inv(k) && Enabled(k, step) && Doomed(k, k.current) && (step == TimerTick || step.SelfSignal?)
    ensures EndedByKill(Next(k, step, hooks), k.current)
  {
    var c := k.current;
    if step == TimerTick {
      CurrentOutcome(k);
      KillEnds(k, c);
      SwitchEnded(Dispatch(k, c), c, hooks);
    } else {
      SelfOutcome(k, step.sig);
      SendMeaning(k.tasks[c], step.sig);
      KillEnds(SendTo(k, c, step.sig), c);
    }
  }

  predicate EndedByKill(k: Sys, t: Ref) {
    t in k.tasks && k.tasks[t].state == Zombie && 128 < k.tasks[t].exitCode <= 128 + SIGKILL
  }

  lemma KillEnds(k: Sys, t: Ref)
    requires Doomed(k, t) && Dispatchable(k, t, k.tasks[t].pending)
    ensures EndedByKill(Dispatch(k, t), t)
  {
    KillAlwaysKills(k, t);
  }

  lemma SwitchEnded(k: Sys, t: Ref, hooks: bool)
    requires Inv(k) && EndedByKill(k, t)
    ensures k.tasks[k.current].timeLeft >= 1 && EndedByKill(Switch(k, hooks), t)
  {
    SwitchKeeps(k, hooks);
    SwitchFates(k, hooks);
    assert FateAt(k.tasks, k.counter, Switch(k, hooks).tasks, t);
  }

  /** A change that leaves a task neither dead nor stopped and takes no SIGKILL back. */
  predicate Dooms(v: Task, w: Task) {
    !Halted(v) && Has(v.pending, SIGKILL) ==> !Halted(w) && Has(w.pending, SIGKILL)
  }

  lemma SendDooms(v: Task, s: int)
    ensures Dooms(v, Send(v, s))
  {
    SendMeaning(v, s);
  }

  lemma RegisterDooms(v: Task, s: int, h: Handler)
    ensures Dooms(v, Register(v, s, h))
  {
  }

  lemma DeliverDooms(v: Task)
    ensures Dooms(v, Deliver(v))
  {
    DeliverMeaning(v);
  }

  lemma SpectatorDooms(v: Task, w: Task)
    requires Spectator(v, w)
    ensures Dooms(v, w)
  {
    SendDooms(v, SIGCHLD);
  }

  lemma WaitDooms(k: Sys, t: Ref)
    requires k.current in k.tasks && k.current in k.kids && t in k.tasks && k.tasks[t].state != Zombie
    requires forall c | c in k.kids[k.current] :: c in k.parent && k.parent[c] == k.current
    ensures t in WaitPass(k).tasks && Dooms(k.tasks[t], WaitPass(k).tasks[t])
  {
  }

  lemma AccountDooms(k: Sys, next: Ref, hooks: bool, t: Ref)
    requires t in k.tasks
    ensures Dooms(k.tasks[t], Account(k, next, hooks).tasks[t])
  {
  }

  lemma HandOverDooms(k: Sys, next: Ref, t: Ref)
    requires k.current in k.tasks && next in k.tasks && t in k.tasks
    ensures t in HandOver(k, next).tasks && Dooms(k.tasks[t], HandOver(k, next).tasks[t])
  {
  }

  lemma SwitchDooms(k: Sys, hooks: bool, t: Ref)
    requires k.current in k.tasks && k.tasks[k.current].timeLeft >= 1 && t in k.tasks
    ensures t in Switch(k, hooks).tasks && Dooms(k.tasks[t], Switch(k, hooks).tasks[t])
  {
    var next := PickNext(k);
    if next != k.current {
      HandOverDooms(k, next, t);
      AccountDooms(HandOver(k, next), next, hooks, t);
    }
  }

  lemma TickDoomed(k: Sys, hooks: bool, t: Ref)
    requires Inv(k) && Enabled(k, TimerTick) && Doomed(k, t) && t != k.current
    ensures Doomed(Next(k, TimerTick, hooks), t)
  {
    CurrentOutcome(k);
    var m := Dispatch(k, k.current);
    DispatchBystander(k, k.current, m, t);
    SpectatorDooms(k.tasks[t], m.tasks[t]);
    assert m.current in m.tasks && m.tasks[m.current].timeLeft >= 1 by { SwitchKeeps(m, hooks); }
    SwitchDooms(m, hooks, t);
  }

  lemma SelfDoomed(k: Sys, s: int, hooks: bool, t: Ref)
    requires Inv(k) && Enabled(k, SelfSignal(s)) && Doomed(k, t) && t != k.current
    ensures Doomed(Next(k, SelfSignal(s), hooks), t)
  {
    SelfOutcome(k, s);
    var m := SendTo(k, k.current, s);
    DispatchBystander(m, k.current, Dispatch(m, k.current), t);
    SpectatorDooms(k.tasks[t], Dispatch(m, k.current).tasks[t]);
  }

  /** Until then nothing saves it: no handler, no continue, no wait, no test hook. */
  lemma StepDoomed(k: Sys, step: Step, hooks: bool, t: Ref)
    requires Inv(k) && Enabled(k, step) && Doomed(k, t) && !Comes(k, step, t)
    ensures Doomed(Next(k, step, hooks), t)
  {
    match step {
      case Signal(u, s) => SendDooms(k.tasks[u], s);
      case SelfSignal(s) => SelfDoomed(k, s, hooks, t);
      case Install(u, s, h) => RegisterDooms(k.tasks[u], s, h);
      case ExitCall(code) =>
        Relatives(k, k.current);
        ExitBystander(k, k.current, code, t);
        SpectatorDooms(k.tasks[t], Exit(k, k.current, code).tasks[t]);
      case TimerTick => TickDoomed(k, hooks, t);
      case Return => DeliverDooms(k.tasks[k.current]);
      case WaitCall =>
        WaitReady(k);
        WaitDooms(k, t);
      case _ =>
    }
  }

  /** Through the run, `t` neither handles its signals nor exits. */
  ghost predicate NotYet(k: Sys, steps: seq<Step>, hooks: bool, t: Ref)
    requires Inv(k) && RunOk(k, steps, hooks)
    decreases |steps|
  {
    steps == [] || (!Comes(k, steps[0], t) && NotYet(Next(k, steps[0], hooks), steps[1..], hooks, t))
  }

  lemma {:induction false} DoomedStays(k: Sys, steps: seq<Step>, hooks: bool, t: Ref)
    requires Inv(k) && RunOk(k, steps, hooks) && Doomed(k, t) && NotYet(k, steps, hooks, t)
    ensures Doomed(Run(k, steps, hooks), t)
    decreases |steps|
  {
    if steps != [] {
      StepDoomed(k, steps[0], hooks, t);
      DoomedStays(Next(k, steps[0], hooks), steps[1..], hooks, t);
    }
  }

  /** SIGKILL works: whatever happens after it was sent to a live task, the first tick that finds the task on
      the CPU ends it, with the code of a signal no higher than SIGKILL. */
  lemma KillLaw(k: Sys, t: Ref, mid: seq<Step>, last: Step, hooks: bool)
    requires Inv(k) && t in k.tasks && k.tasks[t].state != Zombie
    requires var k1 := Next(k, Signal(t, SIGKILL), hooks);
             && RunOk(k1, mid, hooks) && NotYet(k1, mid, hooks, t)
             && var k2 := Run(k1, mid, hooks);
                k2.current == t && Enabled(k2, last) && (last == TimerTick || last.SelfSignal?)
    ensures EndedByKill(Next(Run(Next(k, Signal(t, SIGKILL), hooks), mid, hooks), last, hooks), t)
  {
    KillDooms(k, t, hooks);
    var k1 := Next(k, Signal(t, SIGKILL), hooks);
    DoomedStays(k1, mid, hooks, t);
    DoomedEnds(Run(k1, mid, hooks), last, hooks);
  }
}
