/**
  What runs always get to do: a parent is never asleep over a dead child, the CPU always has a
  running task, and a runnable task reaches it in bounded time.
 */
module ProcessProgress {
  import opened Process
  import opened ProcessTree
  import opened Signals
  import opened ProcessInvariant
  import opened ProcessRuns

  // ----- no lost wakeup -----

  ghost predicate AwakeAt(tasks: Tasks, kids: Kids, p: Ref) {
    p in tasks && p in kids
        && (tasks[p].state == Blocked ==> forall c | c in kids[p] :: c in tasks ==> tasks[c].state != Zombie)
  }

  /** No blocked task has a zombie child. */
  ghost predicate Awake(tasks: Tasks, kids: Kids) {
    forall p {:trigger AwakeAt(tasks, kids, p)} | p in tasks :: AwakeAt(tasks, kids, p)
  }

  /** No task falls asleep and none dies. */
  predicate Gentle(tasks: Tasks, tasks': Tasks) {
    && tasks'.Keys == tasks.Keys
    && forall t {:trigger tasks'[t]} | t in tasks' ::
         (tasks'[t].state == Blocked ==> tasks[t].state == Blocked)
             && (tasks'[t].state == Zombie ==> tasks[t].state == Zombie)
  }

  lemma GentleAwake(tasks: Tasks, kids: Kids, tasks': Tasks)
    requires Awake(tasks, kids) && Gentle(tasks, tasks')
    ensures Awake(tasks', kids)
  {
    forall p | p in tasks'
      ensures AwakeAt(tasks', kids, p)
    {
      assert AwakeAt(tasks, kids, p);
    }
  }

  /** Exiting wakes exactly the tasks that get a dead child: the parent, and the reaper of dead orphans. */
  lemma ExitAwake(k: Sys, t: Ref, code: int)
    requires CanExit(k, t) && Awake(k.tasks, k.kids) && Tree(k.tasks, k.kids, k.parent)
    ensures Awake(Exit(k, t, code).tasks, Exit(k, t, code).kids)
  {
    var r := Exit(k, t, code);
    forall p | p in r.tasks
      ensures AwakeAt(r.tasks, r.kids, p)
    {
      assert AwakeAt(k.tasks, k.kids, p) && KidsAt(k.kids, k.parent, p);
      SendMild(k.tasks[p], SIGCHLD);
      forall c | c in r.kids[p] && c in r.tasks && r.tasks[p].state == Blocked
        ensures r.tasks[c].state != Zombie
      {
        assert c in k.kids[p];
        SendMild(k.tasks[c], SIGCHLD);
      }
    }
  }

  lemma ReapAwake(k: Sys, z: Ref)
    requires Structure(k) && Awake(k.tasks, k.kids) && z in k.tasks && k.parent[z] in k.kids
    ensures Awake(Reap(k, z).tasks, Reap(k, z).kids)
  {
    var r := Reap(k, z);
    assert KidsAt(k.kids, k.parent, k.parent[z]);
    RemoveFacts(k.kids[k.parent[z]], z);
    forall p | p in r.tasks
      ensures AwakeAt(r.tasks, r.kids, p)
    {
      assert AwakeAt(k.tasks, k.kids, p);
    }
  }

  lemma AddAwake(k: Sys, c: Ref, p: Ref, v: Task)
    requires Structure(k) && Awake(k.tasks, k.kids) && Fresh(k, c) && p in k.tasks && v.state == Runnable
    ensures Awake(AddTask(k, c, p, v).tasks, AddTask(k, c, p, v).kids)
  {
    var r := AddTask(k, c, p, v);
    forall q | q in r.tasks
      ensures AwakeAt(r.tasks, r.kids, q)
    {
      if q != c { assert AwakeAt(k.tasks, k.kids, q) && KidsAt(k.kids, k.parent, q); }
    }
  }

  lemma WaitAwake(k: Sys)
    requires Structure(k) && Awake(k.tasks, k.kids)
    requires forall c | c in k.kids[k.current] :: c in k.parent && k.parent[c] == k.current
    ensures Awake(WaitPass(k).tasks, WaitPass(k).kids)
  {
    var c := k.current;
    var r := WaitPass(k);
    var j := FirstZombie(k.tasks, k.kids[c]);
    if j < |k.kids[c]| {
      ReapAwake(k, k.kids[c][j]);
    } else if k.kids[c] != [] || c == k.init {
      assert KidsAt(k.kids, k.parent, c);
      forall p | p in r.tasks
        ensures AwakeAt(r.tasks, r.kids, p)
      {
        assert AwakeAt(k.tasks, k.kids, p);
      }
    }
  }

  lemma QuietAwake(k: Sys, t: Ref, r: Sys)
    requires Quiet(k, t, r) && Awake(k.tasks, k.kids)
    ensures Awake(r.tasks, r.kids)
  {
    GentleAwake(k.tasks, k.kids, r.tasks);
  }

  lemma DispatchAwake(k: Sys, t: Ref, r: Sys)
    requires Inv(k) && Awake(k.tasks, k.kids) && (Quiet(k, t, r) || QuietThenExit(k, t, r))
    ensures Awake(r.tasks, r.kids)
  {
    if Quiet(k, t, r) {
      QuietAwake(k, t, r);
    } else {
      var m, code :| Quiet(k, t, m) && !Halted(m.tasks[t]) && CanExit(m, t) && r == Exit(m, t, code);
      QuietAwake(k, t, m);
      assert Tree(m.tasks, m.kids, m.parent) by { QuietKeeps(k, t, m); }
      ExitAwake(m, t, code);
    }
  }

  lemma HandOverAwake(k: Sys, next: Ref)
    requires k.current in k.tasks && next in k.tasks && Awake(k.tasks, k.kids)
    ensures Awake(HandOver(k, next).tasks, k.kids)
  {
    GentleAwake(k.tasks, k.kids, HandOver(k, next).tasks);
  }

  lemma SwitchAwake(k: Sys)
    requires k.current in k.tasks && k.tasks[k.current].timeLeft >= 1 && Awake(k.tasks, k.kids)
    ensures Awake(Switch(k, false).tasks, Switch(k, false).kids)
  {
    var v := k.tasks[k.current];
    if v.state == Running && v.timeLeft > 1 {
      GentleAwake(k.tasks, k.kids, k.tasks[k.current := v.(timeLeft := v.timeLeft - 1)]);
    } else if PickNext(k) == k.current {
      GentleAwake(k.tasks, k.kids, k.tasks[k.current := v.(timeLeft := v.quantum)]);
    } else {
      HandOverAwake(k, PickNext(k));
    }
  }

  lemma SetAwake(k: Sys, t: Ref, v: Task)
    requires Awake(k.tasks, k.kids) && t in k.tasks && Mild(k.tasks[t], v)
    ensures Awake(SetTask(k, t, v).tasks, k.kids)
  {
    GentleAwake(k.tasks, k.kids, SetTask(k, t, v).tasks);
  }

  lemma SelfAwake(k: Sys, s: int)
    requires Inv(k) && Enabled(k, SelfSignal(s)) && Awake(k.tasks, k.kids)
    ensures var r := Next(k, SelfSignal(s), false); Awake(r.tasks, r.kids)
  {
    var c := k.current;
    var m := SendTo(k, c, s);
    SendMild(k.tasks[c], s);
    SetAwake(k, c, Send(k.tasks[c], s));
    SetMild(k, c, Send(k.tasks[c], s), k.calls);
    DispatchReady(m, c);
    DispatchOutcome(m, c);
    DispatchAwake(m, c, Dispatch(m, c));
  }

  lemma TickAwake(k: Sys)
    requires Inv(k) && Enabled(k, TimerTick) && Awake(k.tasks, k.kids)
    ensures var r := Next(k, TimerTick, false); Awake(r.tasks, r.kids)
  {
    var c := k.current;
    DispatchKeeps(k, c);
    DispatchOutcome(k, c);
    DispatchAwake(k, c, Dispatch(k, c));
    SwitchKeeps(Dispatch(k, c), false);
    SwitchAwake(Dispatch(k, c));
  }

  /** With the test hooks off, every step keeps every sleeping parent's children alive. */
  lemma StepAwake(k: Sys, step: Step)
    requires Inv(k) && Enabled(k, step) && Awake(k.tasks, k.kids)
    ensures Awake(Next(k, step, false).tasks, Next(k, step, false).kids)
  {
    var c := k.current;
    match step {
      case Signal(t, s) =>
        SendMild(k.tasks[t], s);
        SetAwake(k, t, Send(k.tasks[t], s));
      case SelfSignal(s) => SelfAwake(k, s);
      case Install(t, s, h) =>
        RegisterMild(k.tasks[t], s, h);
        SetAwake(k, t, Register(k.tasks[t], s, h));
      case ExitCall(code) =>
        Relatives(k, c);
        ExitAwake(k, c, code);
      case WaitCall =>
        WaitReady(k);
        WaitAwake(k);
      case TimerTick => TickAwake(k);
      case Return =>
        DeliverMild(k.tasks[c]);
        SetAwake(k, c, Deliver(k.tasks[c]));
      case ForkCall(x) =>
        AddAwake(k, x, c, Fork(k, x).tasks[x]);
      case SpawnUser(x, p) =>
        AddAwake(k, x, p, NewTask(k.counter + 1, true));
      case SpawnKernel(x) =>
        AddAwake(k, x, KTHREADD, NewTask(k.counter + 1, false));
      case SpawnInit(x) =>
        AddAwake(k, x, INIT_TASK, NewTask(INIT_PID, true));
    }
  }

  /** No lost wakeup, in any run. */
  lemma {:induction false} NoLostWakeup(k: Sys, steps: seq<Step>)
    requires Inv(k) && RunOk(k, steps, false) && Awake(k.tasks, k.kids)
    ensures Awake(Run(k, steps, false).tasks, Run(k, steps, false).kids)
    decreases |steps|
  {
    if steps != [] {
      StepAwake(k, steps[0]);
      NoLostWakeup(Next(k, steps[0], false), steps[1..]);
    }
  }

  // ----- the CPU always has a running task -----

  /** Only signals that a task ignores by default are pending. */
  predicate Peaceful(v: Task) {
    forall s: nat | 1 <= s < NSIG && Has(v.pending, s) :: Default(s) == Ignore
  }

  /** The boot task is running or ready, and no signal that could end or stop it is pending. */
  predicate Idle(k: Sys) {
    && INIT_TASK in k.tasks && k.tasks[INIT_TASK].state == (if k.current == INIT_TASK then Running else Runnable)
    && Peaceful(k.tasks[INIT_TASK])
  }

  /** The step does not send the boot task a signal whose default action ends or stops it. */
  predicate Harmless(step: Step) {
    step.Signal? && step.target == INIT_TASK ==> Default(if step.sig < 0 then 0 else step.sig) == Ignore
  }

  /** Whatever its handlers, such a task is neither ended nor stopped by dispatch. */
  lemma PeacefulSpared(v: Task)
    requires Peaceful(v)
    ensures !Fatal(v, v.pending) && FirstHalt(v, v.pending, 1) == 32
  {
  }

  lemma SendPeaceful(v: Task, s: int)
    requires Peaceful(v) && (1 <= s < NSIG ==> Default(s) == Ignore)
    ensures Peaceful(Send(v, s))
  {
    forall i: nat | 1 <= i < NSIG && Has(Send(v, s).pending, i)
      ensures Default(i) == Ignore
    {
      assert i == s || Has(v.pending, i);
    }
  }

  lemma ExitIdle(k: Sys, t: Ref, code: int)
    requires CanExit(k, t) && Idle(k) && t != INIT_TASK
    ensures Idle(Exit(k, t, code))
  {
    SendPeaceful(k.tasks[INIT_TASK], SIGCHLD);
  }

  lemma DispatchIdle(k: Sys, r: Sys)
    requires Idle(k) && Inv(k) && Enabled(k, TimerTick)
    requires Dispatchable(k, k.current, k.tasks[k.current].pending) && r == Dispatch(k, k.current)
    ensures Idle(r)
  {
    var t := k.current;
    DispatchOutcome(k, t);
    if t == INIT_TASK {
      PeacefulSpared(k.tasks[t]);
      DispatchMeaning(k, t, k.tasks[t].pending, 1, r);
    } else if !Quiet(k, t, r) {
      var m, code :| Quiet(k, t, m) && !Halted(m.tasks[t]) && CanExit(m, t) && r == Exit(m, t, code);
      ExitIdle(m, t, code);
    }
  }

  lemma AccountIdle(k: Sys, hooks: bool)
    requires Idle(k) && k.current in k.tasks && k.tasks[k.current].state == Running && k.tasks[INIT_TASK].pid == 0
    ensures var r := Account(k, k.current, hooks);
            Idle(r) && r.current in r.tasks
            && r.tasks[r.current].state == Running
  {
  }

  lemma PickRunnable(k: Sys)
    requires NoDup(k.run) && k.current in k.run && INIT_TASK in k.run && Idle(k) && k.current != INIT_TASK
    ensures PickNext(k) != k.current
  {
    OthersFacts(k.run, k.current);
    var o := Others(k.run, k.current);
    assert INIT_TASK in o;
    var i :| 0 <= i < |o| && o[i] == INIT_TASK;
    assert FirstRunnable(k.tasks, o) <= i;
  }

  lemma SwitchIdle(k: Sys, hooks: bool)
    requires Inv(k) && Idle(k) && k.tasks[k.current].timeLeft >= 1
    ensures var r := Switch(k, hooks); Idle(r) && r.current in r.tasks && r.tasks[r.current].state == Running
  {
    var next := PickNext(k);
    assert PidAt(k.tasks, k.init, k.counter, INIT_TASK);
    PickListed(k);
    if k.current != INIT_TASK { PickRunnable(k); }
    if next != k.current && !(k.tasks[k.current].state == Running && k.tasks[k.current].timeLeft > 1) {
      AccountIdle(HandOver(k, next), hooks);
    }
  }

  /** Every tick ends with the current task running. */
  lemma TickRuns(k: Sys, hooks: bool)
    requires Inv(k) && Idle(k) && Enabled(k, TimerTick)
    ensures var r := Next(k, TimerTick, hooks); Idle(r) && r.tasks[r.current].state == Running
  {
    DispatchKeeps(k, k.current);
    var m := Dispatch(k, k.current);
    DispatchIdle(k, m);
    SwitchKeeps(m, hooks);
    SwitchIdle(m, hooks);
  }

  lemma StepIdle(k: Sys, step: Step, hooks: bool)
    requires Inv(k) && Idle(k) && Enabled(k, step) && Harmless(step)
    ensures Idle(Next(k, step, hooks))
  {
    match step {
      case Signal(t, s) =>
        SendMild(k.tasks[t], s);
        if t == INIT_TASK { SendPeaceful(k.tasks[t], s); }
      case SelfSignal(s) => SelfIdle(k, s, hooks);
      case Install(t, s, h) => RegisterMild(k.tasks[t], s, h);
      case ExitCall(code) =>
        Relatives(k, k.current);
        ExitIdle(k, k.current, code);
      case WaitCall =>
        WaitReady(k);
        WaitIdle(k);
      case TimerTick => TickRuns(k, hooks);
      case ForkCall(c) => AddIdle(k, c, k.current, Fork(k, c).tasks[c]);
      case SpawnUser(c, p) => AddIdle(k, c, p, NewTask(k.counter + 1, true));
      case SpawnKernel(c) => AddIdle(k, c, KTHREADD, NewTask(k.counter + 1, false));
      case SpawnInit(c) => AddIdle(k, c, INIT_TASK, NewTask(INIT_PID, true));
      case Return => DeliverIdle(k);
    }
  }

  lemma AddIdle(k: Sys, c: Ref, p: Ref, v: Task)
    requires Idle(k) && Fresh(k, c) && p in k.kids
    ensures Idle(AddTask(k, c, p, v))
  {
  }

  lemma WaitIdle(k: Sys)
    requires Idle(k) && Caller(k) && k.current in k.kids
    requires forall c | c in k.kids[k.current] :: c in k.parent && k.parent[c] == k.current
    ensures Idle(WaitPass(k))
  {
  }

  lemma DeliverIdle(k: Sys)
    requires Idle(k) && k.current in k.tasks
    ensures Idle(SetTask(k, k.current, Deliver(k.tasks[k.current])))
  {
    DeliverMild(k.tasks[k.current]);
  }

  lemma SelfIdle(k: Sys, s: int, hooks: bool)
    requires Inv(k) && Idle(k) && Enabled(k, SelfSignal(s))
    ensures Idle(Next(k, SelfSignal(s), hooks))
  {
    var c := k.current;
    var m := SendTo(k, c, s);
    SendMild(k.tasks[c], s);
    SetMild(k, c, Send(k.tasks[c], s), k.calls);
    DispatchReady(m, c);
    DispatchOutcome(m, c);
    var r := Dispatch(m, c);
    if !Quiet(m, c, r) {
      var n, code :| Quiet(m, c, n) && !Halted(n.tasks[c]) && CanExit(n, c) && r == Exit(n, c, code);
      ExitIdle(n, c, code);
    }
  }

  /** Every tick of the run ends with the current task running. */
  ghost predicate TicksRun(k: Sys, steps: seq<Step>, hooks: bool)
    requires Inv(k) && RunOk(k, steps, hooks)
    decreases |steps|
  {
    steps == [] ||
    (var m := Next(k, steps[0], hooks);
     (steps[0] == TimerTick ==> m.tasks[m.current].state == Running) && TicksRun(m, steps[1..], hooks))
  }

  /** In every run that sends the boot task no signal whose default action ends or stops it, every
      tick ends with the current task running. */
  lemma {:induction false} AlwaysRunning(k: Sys, steps: seq<Step>, hooks: bool)
    requires Inv(k) && Idle(k) && RunOk(k, steps, hooks) && forall i: nat | i < |steps| :: Harmless(steps[i])
    ensures Idle(Run(k, steps, hooks)) && TicksRun(k, steps, hooks)
    decreases |steps|
  {
    if steps != [] {
      StepIdle(k, steps[0], hooks);
      if steps[0] == TimerTick { TickRuns(k, hooks); }
      AlwaysRunning(Next(k, steps[0], hooks), steps[1..], hooks);
    }
  }

  /** All of this holds of the state the kernel boots into. */
  lemma BootGood()
    ensures Inv(Boot()) && Idle(Boot()) && Awake(Boot().tasks, Boot().kids)
  {
    BootInv();
  }

  // ----- bounded waiting -----

  /** Moving on to the `j`-th of the other tasks brings a later one `j + 1` places nearer. */
  lemma Rotate(run: seq<Ref>, c: Ref, j: nat, ix: nat)
    requires NoDup(run) && c in run && j < ix < |Others(run, c)|
    ensures var o := Others(run, c); Index(Others(run, o[j]), o[ix]) == ix - j - 1
  {
    OthersNoDup(run, c);
    OthersAt(run, c, j);
    OthersAt(run, c, ix);
    var d, x := Others(run, c)[j], Others(run, c)[ix];
    var p := After(Index(run, c), j, |run|);
    IndexAt(run, p);
    AfterAfter(Index(run, c), j, ix, |run|);
    RotatedAt(run, d, p, ix - j - 1, x);
  }

  lemma RotatedAt(run: seq<Ref>, d: Ref, p: nat, m: nat, x: Ref)
    requires NoDup(run) && d in run && Index(run, d) == p && m < |run| - 1 && run[After(p, m, |run|)] == x
    ensures Index(Others(run, d), x) == m
  {
    OthersNoDup(run, d);
    OthersAt(run, d, m);
    IndexAt(Others(run, d), m);
  }

  lemma AfterAfter(i: nat, j: nat, ix: nat, n: nat)
    requires i < n && j < ix < n - 1
    ensures After(i, j, n) < n && After(After(i, j, n), ix - j - 1, n) == After(i, ix, n)
  {
  }

  /** How far `x` is from the CPU: whole quanta of the tasks before it, then what is left of the current slice. */
  function Wait(k: Sys, x: Ref): nat
    requires k.current in k.tasks
  {
    Index(Others(k.run, k.current), x) * QUANTUM + k.tasks[k.current].timeLeft
  }

  predicate Waiting(k: Sys, x: Ref) {
    x in k.run && x in k.tasks && k.tasks[x].state == Runnable && k.current != x
  }

  lemma WaitBound(k: Sys, x: Ref)
    requires Inv(k) && Waiting(k, x)
    ensures 1 <= Wait(k, x) <= (|k.run| - 1) * QUANTUM
  {
    OthersFacts(k.run, k.current);
    OthersNoDup(k.run, k.current);
    assert TaskAt(k.tasks, k.current, k.current);
  }

  lemma SwitchNearer(k: Sys, hooks: bool, x: Ref)
    requires Inv(k) && Waiting(k, x) && k.tasks[k.current].timeLeft >= 1
    ensures var r := Switch(k, hooks); r.current in r.tasks && (r.current != x ==> Wait(r, x) < Wait(k, x))
  {
    var o, v := Others(k.run, k.current), k.tasks[k.current];
    OthersFacts(k.run, k.current);
    var ix, j := Index(o, x), FirstRunnable(k.tasks, o);
    assert j <= ix;
    if !(v.state == Running && v.timeLeft > 1) && o[j] != x {
      Rotate(k.run, k.current, j, ix);
      HandOverTime(k, o[j], hooks);
    }
  }

  lemma HandOverTime(k: Sys, next: Ref, hooks: bool)
    requires Inv(k) && next in k.tasks && next != k.current
    ensures var r := Account(HandOver(k, next), next, hooks); next in r.tasks && r.tasks[next].timeLeft == QUANTUM
  {
    assert TaskAt(k.tasks, k.current, next);
  }

  lemma DispatchStill(k: Sys, t: Ref, r: Sys, x: Ref)
    requires (Quiet(k, t, r) || QuietThenExit(k, t, r)) && x in k.tasks && x != t && k.tasks[x].state == Runnable
    ensures r.run == k.run && r.current == k.current && t in r.tasks && r.tasks[t].timeLeft == k.tasks[t].timeLeft
    ensures x in r.tasks && r.tasks[x].state == Runnable
  {
    if !Quiet(k, t, r) {
      var m, code :| Quiet(k, t, m) && !Halted(m.tasks[t]) && CanExit(m, t) && r == Exit(m, t, code);
      assert m.tasks[x] == k.tasks[x];
      SendMild(m.tasks[x], SIGCHLD);
    }
  }

  lemma TickNearer(k: Sys, hooks: bool, x: Ref)
    requires Inv(k) && Enabled(k, TimerTick) && Waiting(k, x)
    ensures var r := Next(k, TimerTick, hooks); r.current != x ==> Wait(r, x) < Wait(k, x)
  {
    DispatchKeeps(k, k.current);
    DispatchOutcome(k, k.current);
    var m := Dispatch(k, k.current);
    DispatchStill(k, k.current, m, x);
    SwitchKeeps(m, hooks);
    SwitchNearer(m, hooks, x);
  }

  /** Between ticks nobody moves: the current task keeps the CPU and its time. */
  lemma StepStill(k: Sys, step: Step, hooks: bool)
    requires Inv(k) && Enabled(k, step) && step != TimerTick
    ensures var r := Next(k, step, hooks);
            r.current == k.current
            && r.tasks[k.current].timeLeft == k.tasks[k.current].timeLeft
  {
    match step {
      case Signal(t, s) => SendMild(k.tasks[t], s);
      case SelfSignal(s) =>
        SendMild(k.tasks[k.current], s);
        SetMild(k, k.current, Send(k.tasks[k.current], s), k.calls);
        DispatchReady(SendTo(k, k.current, s), k.current);
      case Install(t, s, h) => RegisterMild(k.tasks[t], s, h);
      case ExitCall(code) => Relatives(k, k.current);
      case Return => DeliverMild(k.tasks[k.current]);
      case _ =>
    }
  }

  function Ticks(steps: seq<Step>): nat {
    if steps == [] then 0 else (if steps[0] == TimerTick then 1 else 0) + Ticks(steps[1..])
  }

  /** `x` waits for the CPU all through the run, and no task comes or goes. */
  ghost predicate Waits(k: Sys, steps: seq<Step>, hooks: bool, x: Ref)
    requires Inv(k) && RunOk(k, steps, hooks)
    decreases |steps|
  {
    Waiting(k, x)
        && (steps == [] || (var m := Next(k, steps[0], hooks); m.run == k.run && Waits(m, steps[1..], hooks, x)))
  }

  /** Bounded waiting: with `n` tasks on the list, no ready task waits through `(n - 1) * 10` ticks. */
  lemma {:induction false} BoundedWaiting(k: Sys, steps: seq<Step>, hooks: bool, x: Ref)
    requires Inv(k) && RunOk(k, steps, hooks) && Waits(k, steps, hooks, x)
    ensures Ticks(steps) < Wait(k, x) <= (|k.run| - 1) * QUANTUM
    decreases |steps|
  {
    WaitBound(k, x);
    if steps != [] {
      var m := Next(k, steps[0], hooks);
      if steps[0] == TimerTick { TickNearer(k, hooks, x); } else { StepStill(k, steps[0], hooks); }
      BoundedWaiting(m, steps[1..], hooks, x);
    }
  }
}
