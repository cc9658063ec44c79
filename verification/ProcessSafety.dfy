/**
  What can never happen in any run: a zombie coming back, a stopped task moving on its own.
 */
module ProcessSafety {
  import opened Process
  import opened ProcessTree
  import opened ProcessInvariant
  import opened ProcessRuns

  // ----- zombies and stopped tasks -----

  /** The task keeps its identity; a zombie stays dead with its exit code, a stopped task stays stopped. */
  predicate Fate(v: Task, w: Task) {
    && w.pid == v.pid
    && (v.state == Zombie ==> w.state == Zombie && w.exitCode == v.exitCode)
    && (v.state == Stopped ==> w.state == Stopped)
  }

  /** Whoever was there met this fate; a newcomer has a pid never used before, or the reserved one. */
  predicate FateAt(tasks: Tasks, counter: nat, tasks': Tasks, u: Ref) {
    && u in tasks'
    && if u in tasks then Fate(tasks[u], tasks'[u]) else tasks'[u].pid > counter || tasks'[u].pid == INIT_PID
  }

  ghost predicate Fates(tasks: Tasks, counter: nat, tasks': Tasks) {
    forall u {:trigger FateAt(tasks, counter, tasks', u)} | u in tasks' :: FateAt(tasks, counter, tasks', u)
  }

  lemma FatesTrans(tasks: Tasks, counter: nat, tasks': Tasks, tasks'': Tasks)
    requires Fates(tasks, counter, tasks') && Fates(tasks', counter, tasks'') && tasks'.Keys == tasks.Keys
    ensures Fates(tasks, counter, tasks'')
  {
    forall u | u in tasks''
      ensures FateAt(tasks, counter, tasks'', u)
    {
      assert FateAt(tasks', counter, tasks'', u);
      if u in tasks' { assert FateAt(tasks, counter, tasks', u); }
    }
  }

  lemma ExitFates(k: Sys, t: Ref, code: int)
    requires CanExit(k, t) && !Halted(k.tasks[t])
    ensures Fates(k.tasks, k.counter, Exit(k, t, code).tasks)
  {
    var r := Exit(k, t, code);
    forall u | u in r.tasks
      ensures FateAt(k.tasks, k.counter, r.tasks, u)
    {
      SendMild(k.tasks[u], SIGCHLD);
    }
  }

  lemma QuietFates(k: Sys, t: Ref, r: Sys)
    requires Quiet(k, t, r)
    ensures Fates(k.tasks, k.counter, r.tasks)
  {
  }

  lemma DispatchFates(k: Sys, t: Ref, r: Sys)
    requires Quiet(k, t, r) || QuietThenExit(k, t, r)
    ensures Fates(k.tasks, k.counter, r.tasks)
  {
    if Quiet(k, t, r) {
      QuietFates(k, t, r);
    } else {
      var m, code :| Quiet(k, t, m) && !Halted(m.tasks[t]) && CanExit(m, t) && r == Exit(m, t, code);
      QuietFates(k, t, m);
      ExitFates(m, t, code);
      FatesTrans(k.tasks, k.counter, m.tasks, r.tasks);
    }
  }

  lemma AccountFates(k: Sys, next: Ref, hooks: bool)
    ensures Fates(k.tasks, k.counter, Account(k, next, hooks).tasks)
  {
    var k1 := k.(lap := k.lap.(num := k.lap.num + 1));
    var k2 := BlockHook(k1, next);
    assert Fates(k.tasks, k.counter, k2.tasks);
    assert Fates(k2.tasks, k.counter, UnblockHook(k2).tasks);
    FatesTrans(k.tasks, k.counter, k2.tasks, UnblockHook(k2).tasks);
  }

  lemma HandOverFates(k: Sys, next: Ref)
    requires k.current in k.tasks && next in k.tasks && k.tasks[next].state == Runnable && next != k.current
    ensures Fates(k.tasks, k.counter, HandOver(k, next).tasks)
  {
  }

  lemma SwitchFates(k: Sys, hooks: bool)
    requires k.current in k.tasks && k.tasks[k.current].timeLeft >= 1
    ensures Fates(k.tasks, k.counter, Switch(k, hooks).tasks)
  {
    var next := PickNext(k);
    if next != k.current {
      HandOverFates(k, next);
      var m := HandOver(k, next);
      AccountFates(m, next, hooks);
      FatesTrans(k.tasks, k.counter, m.tasks, Account(m, next, hooks).tasks);
    }
  }

  lemma TickFates(k: Sys, hooks: bool)
    requires Inv(k) && Enabled(k, TimerTick)
    ensures Fates(k.tasks, k.counter, Next(k, TimerTick, hooks).tasks)
  {
    DispatchKeeps(k, k.current);
    DispatchOutcome(k, k.current);
    var m := Dispatch(k, k.current);
    DispatchFates(k, k.current, m);
    SwitchKeeps(m, hooks);
    SwitchFates(m, hooks);
    FatesTrans(k.tasks, k.counter, m.tasks, Switch(m, hooks).tasks);
  }

  lemma SelfFates(k: Sys, s: int, hooks: bool)
    requires Inv(k) && Enabled(k, SelfSignal(s))
    ensures Fates(k.tasks, k.counter, Next(k, SelfSignal(s), hooks).tasks)
  {
    var m := SendTo(k, k.current, s);
    SendMild(k.tasks[k.current], s);
    SetMild(k, k.current, Send(k.tasks[k.current], s), k.calls);
    DispatchReady(m, k.current);
    DispatchOutcome(m, k.current);
    DispatchFates(m, k.current, Dispatch(m, k.current));
    FatesTrans(k.tasks, k.counter, m.tasks, Dispatch(m, k.current).tasks);
  }

  lemma AddFates(k: Sys, c: Ref, p: Ref, v: Task)
    requires Fresh(k, c) && p in k.kids && (v.pid > k.counter || v.pid == INIT_PID)
    ensures Fates(k.tasks, k.counter, AddTask(k, c, p, v).tasks)
  {
  }

  lemma WaitFates(k: Sys)
    requires Caller(k) && k.current in k.kids
    requires forall c | c in k.kids[k.current] :: c in k.parent && k.parent[c] == k.current
    ensures Fates(k.tasks, k.counter, WaitPass(k).tasks)
  {
  }

  lemma CounterGrows(k: Sys, step: Step, hooks: bool)
    requires Inv(k) && Enabled(k, step)
    ensures Next(k, step, hooks).counter >= k.counter
  {
  }

  /** SIGCONT or SIGKILL resumes a stopped task. */
  predicate Resumes(k: Sys, step: Step) {
    step.Signal? && step.target in k.tasks && k.tasks[step.target].state == Stopped
        && (step.sig == SIGCONT || step.sig == SIGKILL)
  }

  /** No step revives a zombie, and only SIGCONT or SIGKILL sent to a stopped task moves it. */
  lemma StepFates(k: Sys, step: Step, hooks: bool)
    requires Inv(k) && Enabled(k, step)
    ensures var r := Next(k, step, hooks);
            if Resumes(k, step) then r == SetTask(k, step.target, Send(k.tasks[step.target], step.sig))
                && r.tasks[step.target].state == Runnable
            else Fates(k.tasks, k.counter, r.tasks)
  {
    match step {
      case Signal(t, s) => SendMild(k.tasks[t], s);
      case SelfSignal(s) => SelfFates(k, s, hooks);
      case Install(t, s, h) => RegisterMild(k.tasks[t], s, h);
      case ExitCall(code) =>
        Relatives(k, k.current);
        ExitFates(k, k.current, code);
      case TimerTick => TickFates(k, hooks);
      case WaitCall =>
        WaitReady(k);
        WaitFates(k);
      case ForkCall(c) => AddFates(k, c, k.current, Fork(k, c).tasks[c]);
      case SpawnUser(c, p) => AddFates(k, c, p, NewTask(k.counter + 1, true));
      case SpawnKernel(c) => AddFates(k, c, KTHREADD, NewTask(k.counter + 1, false));
      case SpawnInit(c) => AddFates(k, c, INIT_TASK, NewTask(INIT_PID, true));
      case Return => DeliverMild(k.tasks[k.current]);
    }
  }

  ghost predicate EndedAs(tasks: Tasks, pid: nat, code: int) {
    forall u {:trigger tasks[u]} | u in tasks && tasks[u].pid == pid ::
        tasks[u].state == Zombie && tasks[u].exitCode == code
  }

  lemma FatesEnded(tasks: Tasks, counter: nat, tasks': Tasks, pid: nat, code: int)
    requires Fates(tasks, counter, tasks') && EndedAs(tasks, pid, code) && 3 <= pid <= counter
    ensures EndedAs(tasks', pid, code)
  {
    forall u | u in tasks' && tasks'[u].pid == pid
      ensures tasks'[u].state == Zombie && tasks'[u].exitCode == code
    {
      assert FateAt(tasks, counter, tasks', u);
    }
  }

  /** Dead is dead: whatever the run, a pid whose task has ended never names a live task again. */
  lemma {:induction false} ZombieForever(k: Sys, steps: seq<Step>, hooks: bool, pid: nat, code: int)
    requires Inv(k) && RunOk(k, steps, hooks) && 3 <= pid <= k.counter && EndedAs(k.tasks, pid, code)
    ensures EndedAs(Run(k, steps, hooks).tasks, pid, code)
    decreases |steps|
  {
    if steps != [] {
      var m := Next(k, steps[0], hooks);
      StepFates(k, steps[0], hooks);
      CounterGrows(k, steps[0], hooks);
      if !Resumes(k, steps[0]) { FatesEnded(k.tasks, k.counter, m.tasks, pid, code); }
      ZombieForever(m, steps[1..], hooks, pid, code);
    }
  }

  /** Only dead tasks are removed. */
  lemma StepPresent(k: Sys, step: Step, hooks: bool, t: Ref)
    requires Inv(k) && Enabled(k, step) && t in k.tasks && k.tasks[t].state != Zombie
    ensures t in Next(k, step, hooks).tasks
  {
    match step {
      case WaitCall =>
        WaitReady(k);
        var j := FirstZombie(k.tasks, k.kids[k.current]);
      case _ =>
    }
  }

  /** The step resumes task `t`, should it be stopped. */
  predicate ResumesTask(step: Step, t: Ref) {
    step.Signal? && step.target == t && (step.sig == SIGCONT || step.sig == SIGKILL)
  }

  lemma StepStopped(k: Sys, step: Step, hooks: bool, t: Ref)
    requires Inv(k) && Enabled(k, step) && t in k.tasks && k.tasks[t].state == Stopped && !ResumesTask(step, t)
    ensures var r := Next(k, step, hooks);
            t in r.tasks && r.tasks[t].state == Stopped
            && r.tasks[t].pid == k.tasks[t].pid
  {
    StepPresent(k, step, hooks, t);
    StepFates(k, step, hooks);
    if !Resumes(k, step) {
      assert FateAt(k.tasks, k.counter, Next(k, step, hooks).tasks, t);
    }
  }

  /** A stopped task stays stopped, and stays there, in every run that sends it neither SIGCONT nor SIGKILL. */
  lemma {:induction false} StoppedStays(k: Sys, steps: seq<Step>, hooks: bool, t: Ref)
    requires Inv(k) && RunOk(k, steps, hooks) && t in k.tasks && k.tasks[t].state == Stopped
    requires forall i: nat | i < |steps| :: !ResumesTask(steps[i], t)
    ensures var r := Run(k, steps, hooks);
            t in r.tasks && r.tasks[t].state == Stopped
            && r.tasks[t].pid == k.tasks[t].pid
    decreases |steps|
  {
    if steps != [] {
      StepStopped(k, steps[0], hooks, t);
      StoppedStays(Next(k, steps[0], hooks), steps[1..], hooks, t);
    }
  }
}
