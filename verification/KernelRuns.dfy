/**
  The linked kernel refines the abstract one: started on linked records, every step of every run
  does what `ProcessRuns.Next` says, so all that is proved of runs holds of the linked kernel.
 */
module KernelRuns {
  import opened Process
  import opened ProcessInvariant
  import opened ProcessRuns
  import Kernel

  /** The linked kernel in a state the invariant allows. */
  ghost predicate Sound(k: Kernel.TaskTable)
    reads k
  {
    k.Valid() && Inv(k.Abs())
  }

  /** Boot. */
  method Start() returns (k: Kernel.TaskTable)
    ensures fresh(k) && Sound(k) && k.Abs() == Boot()
  {
    k := new Kernel.TaskTable();
    BootInv();
  }

  /** A signal to oneself is handled at once. */
  method ExecuteSelf(k: Kernel.TaskTable, s: int, hooks: bool)
    requires Sound(k) && Enabled(k.Abs(), SelfSignal(s))
    modifies k
    ensures Sound(k) && k.Abs() == Next(old(k.Abs()), SelfSignal(s), hooks)
  {
    ghost var a, b := k.Abs(), Next(k.Abs(), SelfSignal(s), hooks);
    SendMild(a.tasks[a.current], s);
    SetMild(a, a.current, Send(a.tasks[a.current], s), a.calls);
    DispatchReady(SendTo(a, a.current, s), a.current);
    k.Send(k.current, s);
    k.Dispatch(k.current);
    assert k.Abs() == b;
  }

  method ExecuteSignal(k: Kernel.TaskTable, step: Step, hooks: bool)
    requires Sound(k) && Enabled(k.Abs(), step) && (step.Signal? || step.Install? || step.Return?)
    modifies k
    ensures Sound(k) && k.Abs() == Next(old(k.Abs()), step, hooks)
  {
    ghost var a, b := k.Abs(), Next(k.Abs(), step, hooks);
    match step {
      case Signal(t, s) =>
        k.Send(t, s);
      case Install(t, s, h) =>
        k.Register(t, s, h);
      case Return =>
        assert TaskAt(a.tasks, a.current, a.current);
        var _ := k.CheckPending(k.current);
    }
    assert k.Abs() == b;
  }

  method ExecuteSpawn(k: Kernel.TaskTable, step: Step, hooks: bool)
    requires Sound(k) && Enabled(k.Abs(), step)
    requires (step.ForkCall? || step.SpawnUser? || step.SpawnKernel? || step.SpawnInit?)
    modifies k
    ensures Sound(k) && k.Abs() == Next(old(k.Abs()), step, hooks)
  {
    ghost var b := Next(k.Abs(), step, hooks);
    match step {
      case ForkCall(c) =>
        var _ := k.Fork(c, true);
      case SpawnUser(c, p) =>
        var _ := k.ExecUser(c, p, true);
      case SpawnKernel(c) =>
        var _ := k.ExecKernel(c, true);
      case SpawnInit(c) =>
        var _ := k.ExecInit(c, true);
    }
    assert k.Abs() == b;
  }

  /** One system call, signal or tick, run on the links. */
  method Execute(k: Kernel.TaskTable, step: Step, hooks: bool)
    requires Sound(k) && Enabled(k.Abs(), step)
    modifies k
    ensures Sound(k) && k.Abs() == Next(old(k.Abs()), step, hooks)
  {
    ghost var a, b := k.Abs(), Next(k.Abs(), step, hooks);
    match step {
      case ExitCall(code) =>
        Relatives(a, a.current);
        k.DoExit(k.current, code);
        assert k.Abs() == b;
      case WaitCall =>
        WaitReady(a);
        var _ := k.WaitPass();
        assert k.Abs() == b;
      case TimerTick =>
        TickKeeps(a, hooks);
        k.TimerTick(hooks);
        assert k.Abs() == b;
      case ForkCall(_) => ExecuteSpawn(k, step, hooks);
      case SpawnUser(_, _) => ExecuteSpawn(k, step, hooks);
      case SpawnKernel(_) => ExecuteSpawn(k, step, hooks);
      case SpawnInit(_) => ExecuteSpawn(k, step, hooks);
      case SelfSignal(s) => ExecuteSelf(k, s, hooks);
      case _ => ExecuteSignal(k, step, hooks);
    }
  }

  /** A whole run. */
  method ExecuteAll(k: Kernel.TaskTable, steps: seq<Step>, hooks: bool)
    requires Sound(k) && RunOk(k.Abs(), steps, hooks)
    modifies k
    ensures Sound(k) && k.Abs() == Run(old(k.Abs()), steps, hooks)
  {
    ghost var a := k.Abs();
    var i := 0;
    while i < |steps|
      invariant i <= |steps| && Sound(k) && RunOk(k.Abs(), steps[i..], hooks)
      invariant Run(k.Abs(), steps[i..], hooks) == Run(a, steps, hooks)
    {
      assert steps[i..][1..] == steps[i + 1..];
      Execute(k, steps[i], hooks);
      i := i + 1;
    }
  }

  /** `sys_kill`, with the outcome of the uid check as a parameter. */
  method Kill(k: Kernel.TaskTable, pid: nat, s: int, allowed: bool) returns (r: int)
    requires Sound(k) && Caller(k.Abs())
    requires k.tasks[k.current].pid == pid && 1 <= s < NSIG ==> Enabled(k.Abs(), SelfSignal(s))
    modifies k
    ensures Sound(k)
    ensures r == if 0 <= s < NSIG && allowed && exists t | t in old(k.run) :: old(k.tasks)[t].pid == pid then 0 else -1
    ensures r == -1 || s == 0 ==> k.Abs() == old(k.Abs())
    ensures r == 0 && s != 0 ==> exists t | t in old(k.run) && old(k.tasks)[t].pid == pid ::
              k.Abs() == Next(old(k.Abs()), if t == old(k.current) then SelfSignal(s) else Signal(t, s), false)
  {
    if s < 0 || s >= NSIG {
      return -1;
    }
    var target := k.FindByPid(pid);
    if target == NONE || !allowed {
      return -1;
    }
    if s == 0 {
      return 0;
    }
    if target == k.current {
      Execute(k, SelfSignal(s), false);
    } else {
      Execute(k, Signal(target, s), false);
    }
    return 0;
  }
}
