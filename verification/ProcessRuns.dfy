/**
  Every run of the process system: system calls, signals and timer ticks in any order.
 */
module ProcessRuns {
  import opened Bits
  import opened Process
  import opened ProcessTree
  import opened ProcessInvariant

  /** One step of the machine. A spawn or fork that fails leaves the tasks alone and is no step. */
  datatype Step =
    | Signal(target: Ref, sig: int)                       // kernel_signal_send to any task
    | SelfSignal(sig: int)                                // kill(self): send, then dispatch at once
    | Install(target: Ref, signo: int, handler: Handler)  // signal()
    | ExitCall(code: int)
    | WaitCall                                            // one scan-then-block pass
    | ForkCall(child: Ref)
    | SpawnUser(child: Ref, under: Ref)                   // exec_user_fn
    | SpawnKernel(child: Ref)                             // exec_fn
    | SpawnInit(child: Ref)                               // exec_init_fn
    | TimerTick
    | Return                                              // signal delivery on the way to ring 3

  /** The current task can make a system call: not the boot task, not dead, not stopped. */
  predicate Caller(k: Sys) {
    k.current in k.tasks && k.current != INIT_TASK && !Halted(k.tasks[k.current])
  }

  predicate Enabled(k: Sys, step: Step) {
    match step
    case Signal(t, _) => t in k.tasks
    case SelfSignal(s) => Caller(k) && 1 <= s < NSIG && Spared(SendTo(k, k.current, s), k.current)
    case Install(t, _, _) => t in k.tasks
    case ExitCall(_) => Caller(k) && !Protected(k.init, k.current)
    case WaitCall => Caller(k)
    case ForkCall(c) => Caller(k) && Fresh(k, c) && k.counter < MAX_PROC - 1
    case SpawnUser(c, p) => Fresh(k, c) && p in k.tasks && p != KTHREADD && k.tasks[p].state != Zombie
        && k.counter + 1 < MAX_PROC - 1
    case SpawnKernel(c) => Fresh(k, c) && k.counter < MAX_PROC - 1
    case SpawnInit(c) => Fresh(k, c) && k.init == NONE && k.counter < MAX_PROC - 1
    case TimerTick => k.current in k.tasks && Spared(k, k.current)
    case Return => k.current in k.tasks
  }

  lemma DeliverMild(v: Task)
    ensures Mild(v, Deliver(v)) && Deliver(v).state == v.state
  {
  }

  lemma WaitReady(k: Sys)
    requires Structure(k)
    ensures forall c | c in k.kids[k.current] :: c in k.parent && k.parent[c] == k.current
  {
    assert KidsAt(k.kids, k.parent, k.current);
  }

  lemma ReapInv(k: Sys, z: Ref)
    requires Inv(k) && z in k.tasks && k.tasks[z].state == Zombie && z != k.current
    ensures k.parent[z] in k.kids && Inv(Reap(k, z))
  {
    assert DeadAt(k.tasks, k.kids, k.init, z);
    ReapKeeps(k, z);
    var r := Reap(k, z);
    forall t | t in r.tasks
      ensures TaskAt(r.tasks, r.current, t)
    {
      assert TaskAt(k.tasks, k.current, t);
    }
  }

  lemma WaitKeeps(k: Sys)
    requires Inv(k) && Caller(k) && forall c | c in k.kids[k.current] :: c in k.parent && k.parent[c] == k.current
    ensures Inv(WaitPass(k))
  {
    var c := k.current;
    var j := FirstZombie(k.tasks, k.kids[c]);
    if j < |k.kids[c]| {
      ReapInv(k, k.kids[c][j]);
    } else if k.kids[c] != [] || c == k.init {
      TameKeeps(k, WaitPass(k));
    }
  }

  lemma AddInv(k: Sys, c: Ref, p: Ref, v: Task, init: Ref, counter: nat)
    requires Inv(k) && Fresh(k, c) && p in k.tasks && k.tasks[p].state != Zombie && v.state == Runnable
    requires k.counter <= counter < MAX_PROC && (init == k.init || (k.init == NONE && init == c && p == INIT_TASK))
    requires if init == c then v.pid == INIT_PID else v.pid == k.counter + 1 == counter
    requires SigOk(v) && v.quantum == v.timeLeft == QUANTUM
    ensures Inv(AddTask(k, c, p, v).(init := init, counter := counter))
  {
    AddTaskKeeps(k, c, p, v, init, counter);
    var r := AddTask(k, c, p, v).(init := init, counter := counter);
    forall t | t in r.tasks
      ensures TaskAt(r.tasks, r.current, t)
    {
      if t != c { assert TaskAt(k.tasks, k.current, t); }
    }
  }

  lemma ForkKeeps(k: Sys, c: Ref)
    requires Inv(k) && Caller(k) && Fresh(k, c) && k.counter < MAX_PROC - 1
    ensures Inv(Fork(k, c))
  {
    var v := k.tasks[k.current];
    assert TaskAt(k.tasks, k.current, k.current);
    AddInv(k, c, k.current, Task(Runnable, k.counter + 1, v.quantum, v.quantum, 0, Zero(), v.handlers, v.user), k.init,
        k.counter + 1);
  }

  lemma SpawnKeeps(k: Sys, c: Ref, p: Ref, user: bool)
    requires Inv(k) && Fresh(k, c) && p in k.tasks && k.tasks[p].state != Zombie && k.counter < MAX_PROC - 1
    ensures Inv(SpawnTask(k, c, p, user))
  {
    AddInv(k, c, p, NewTask(k.counter + 1, user), k.init, k.counter + 1);
  }

  lemma StartInitKeeps(k: Sys, c: Ref)
    requires Inv(k) && Fresh(k, c) && k.init == NONE
    ensures Inv(StartInit(k, c))
  {
    assert DeadAt(k.tasks, k.kids, k.init, INIT_TASK);
    AddInv(k, c, INIT_TASK, NewTask(INIT_PID, true), c, k.counter);
  }

  /** What a step does. */
  ghost function Next(k: Sys, step: Step, hooks: bool): (r: Sys)
    requires Inv(k) && Enabled(k, step)
    ensures Inv(r)
  {
    match step
    case Signal(t, s) => SendMild(k.tasks[t], s); SetMild(k, t, Send(k.tasks[t], s), k.calls); SendTo(k, t, s)
    case SelfSignal(s) =>
      SendMild(k.tasks[k.current], s); SetMild(k, k.current, Send(k.tasks[k.current], s), k.calls);
      DispatchKeeps(SendTo(k, k.current, s), k.current);
      Dispatch(SendTo(k, k.current, s), k.current)
    case Install(t, s, h) =>
      RegisterMild(k.tasks[t], s, h); SetMild(k, t, Register(k.tasks[t], s, h), k.calls);
      SetTask(k, t, Register(k.tasks[t], s, h))
    case ExitCall(code) => ExitKeeps(k, k.current, code); Exit(k, k.current, code)
    case WaitCall => WaitReady(k); WaitKeeps(k); WaitPass(k)
    case ForkCall(c) => ForkKeeps(k, c); Fork(k, c)
    case SpawnUser(c, p) => SpawnKeeps(k, c, p, true); SpawnTask(k, c, p, true)
    case SpawnKernel(c) =>
      assert DeadAt(k.tasks, k.kids, k.init, KTHREADD); SpawnKeeps(k, c, KTHREADD, false);
      SpawnTask(k, c, KTHREADD, false)
    case SpawnInit(c) => StartInitKeeps(k, c); StartInit(k, c)
    case TimerTick => TickKeeps(k, hooks); Tick(k, hooks)
    case Return =>
      DeliverMild(k.tasks[k.current]); SetMild(k, k.current, Deliver(k.tasks[k.current]), k.calls);
      SetTask(k, k.current, Deliver(k.tasks[k.current]))
  }

  ghost predicate RunOk(k: Sys, steps: seq<Step>, hooks: bool)
    requires Inv(k)
    decreases |steps|
  {
    steps == [] || (Enabled(k, steps[0]) && RunOk(Next(k, steps[0], hooks), steps[1..], hooks))
  }

  /** The state after a run: the invariant holds in every reachable state. */
  ghost function Run(k: Sys, steps: seq<Step>, hooks: bool): (r: Sys)
    requires Inv(k) && RunOk(k, steps, hooks)
    ensures Inv(r)
    decreases |steps|
  {
    if steps == [] then k else Run(Next(k, steps[0], hooks), steps[1..], hooks)
  }

  lemma BootInv()
    ensures Inv(Boot())
  {
    var k := Boot();
    assert KidsAt(k.kids, k.parent, INIT_TASK) && KidsAt(k.kids, k.parent, KTHREADD);
    assert ChildAt(k.tasks, k.kids, k.parent, KTHREADD);
  }
}
