/**
  What every operation of the process system keeps, beyond the tree: signal state, time slices, who is on the CPU.
 */
module ProcessInvariant {
  import opened Bits
  import opened Process
  import opened ProcessTree
  import opened Signals

  // ----- one task -----

  /** A task's signal state: a continue and a stop are never pending together, bit 31 is never
      set, SIGKILL and SIGSTOP keep the default disposition. */
  predicate SigOk(v: Task) {
    && !(Has(v.pending, SIGCONT) && (Has(v.pending, SIGSTOP) || Has(v.pending, SIGTSTP)))
    && !Has(v.pending, 32) && v.handlers[SIGKILL] == SIG_DFL && v.handlers[SIGSTOP] == SIG_DFL
  }

  /** What holds of each task: signal state, time slice, and only the current task is on the CPU. */
  predicate TaskAt(tasks: Tasks, current: Ref, t: Ref) {
    && t in tasks && SigOk(tasks[t]) && tasks[t].quantum == QUANTUM && 1 <= tasks[t].timeLeft <= QUANTUM
    && (t != current ==> tasks[t].timeLeft == QUANTUM && tasks[t].state != Running)
  }

  ghost predicate TasksOk(tasks: Tasks, current: Ref) {
    forall t {:trigger TaskAt(tasks, current, t)} | t in tasks :: TaskAt(tasks, current, t)
  }

  ghost predicate Inv(k: Sys) { Structure(k) && TasksOk(k.tasks, k.current) }

  /** A change that signals can make to a task other than ending it. */
  predicate Mild(v: Task, w: Task) {
    && w.pid == v.pid && w.quantum == v.quantum && w.timeLeft == v.timeLeft && (SigOk(v) ==> SigOk(w))
    && (w.state == v.state || (w.state == Stopped && v.state != Zombie)
        || (w.state == Runnable && (v.state == Blocked || v.state == Stopped)))
    && w.exitCode == v.exitCode
  }

  lemma SendMild(v: Task, s: int)
    ensures Mild(v, Send(v, s)) && (Send(v, s).state == Stopped ==> v.state == Stopped)
    ensures 1 <= s < NSIG ==> Send(v, s).state != Blocked
    ensures v.state == Stopped && Send(v, s).state != Stopped ==> s == SIGCONT || s == SIGKILL
  {
  }

  lemma RegisterMild(v: Task, s: int, h: Handler)
    ensures Mild(v, Register(v, s, h)) && Register(v, s, h).state == v.state
  {
  }

  /** A change that leaves pid, time slice and life alone and puts no task on the CPU. */
  predicate Tame(v: Task, w: Task) {
    && w.pid == v.pid && w.quantum == v.quantum && w.timeLeft == v.timeLeft && (SigOk(v) ==> SigOk(w))
    && (w.state == Running ==> v.state == Running) && (w.state == Zombie <==> v.state == Zombie)
        && w.exitCode == v.exitCode
  }

  predicate AllTame(tasks: Tasks, tasks': Tasks) {
    tasks'.Keys == tasks.Keys && forall t {:trigger tasks'[t]} | t in tasks :: Tame(tasks[t], tasks'[t])
  }

  lemma TameKeeps(k: Sys, r: Sys)
    requires Inv(k) && AllTame(k.tasks, r.tasks) && r == k.(tasks := r.tasks, calls := r.calls, lap := r.lap)
    ensures Inv(r)
  {
    TasksKeep(k, r);
    forall t | t in r.tasks
      ensures TaskAt(r.tasks, r.current, t)
    {
      assert TaskAt(k.tasks, k.current, t);
    }
  }

  lemma SetMild(k: Sys, t: Ref, v: Task, calls: seq<Call>)
    requires Inv(k) && t in k.tasks && Mild(k.tasks[t], v)
    ensures Inv(SetTask(k, t, v).(calls := calls))
  {
    TameKeeps(k, SetTask(k, t, v).(calls := calls));
  }

  // ----- exit -----

  lemma Relatives(k: Sys, t: Ref)
    requires Structure(k) && t in k.tasks && !Protected(k.init, t)
    ensures CanExit(k, t) && k.parent[t] in k.tasks
  {
    assert ChildAt(k.tasks, k.kids, k.parent, t);
  }

  lemma ExitTasks(k: Sys, t: Ref, code: int)
    requires CanExit(k, t) && TasksOk(k.tasks, k.current)
    ensures var r := Exit(k, t, code);
            && TasksOk(r.tasks, r.current) && SamePids(k.tasks, r.tasks)
            && forall u {:trigger r.tasks[u]} | u in r.tasks && u != t :: Mild(k.tasks[u], r.tasks[u])
  {
    var r := Exit(k, t, code);
    forall u | u in r.tasks
      ensures TaskAt(r.tasks, r.current, u) && r.tasks[u].pid == k.tasks[u].pid
      ensures (u != t ==> Mild(k.tasks[u], r.tasks[u]))
    {
      assert TaskAt(k.tasks, k.current, u);
      SendMild(k.tasks[u], SIGCHLD);
    }
  }

  lemma ExitKeeps(k: Sys, t: Ref, code: int)
    requires Inv(k) && t in k.tasks && !Protected(k.init, t)
    ensures CanExit(k, t) && Inv(Exit(k, t, code))
  {
    Relatives(k, t);
    ExitTasks(k, t, code);
    OrphanedKeeps(k, t);
    TasksKeep(Orphaned(k, t, Reaper(k)), Exit(k, t, code));
  }

  // ----- dispatch -----

  /** Dispatch is a quiet change to the one task, possibly followed by its exit. */
  ghost predicate Quiet(k: Sys, t: Ref, r: Sys) {
    && t in k.tasks && t in r.tasks && r == k.(tasks := k.tasks[t := r.tasks[t]], calls := r.calls)
    && Mild(k.tasks[t], r.tasks[t])
        && (r.tasks[t].state == k.tasks[t].state || (r.tasks[t].state == Stopped && !Halted(k.tasks[t])))
  }

  ghost predicate QuietThenExit(k: Sys, t: Ref, r: Sys) {
    exists m: Sys, code: int :: Quiet(k, t, m) && !Halted(m.tasks[t]) && CanExit(m, t) && r == Exit(m, t, code)
  }

  /** One signal. */
  lemma HandleCases(k: Sys, t: Ref, snap: Word, s: nat)
    requires Dispatchable(k, t, snap) && 1 <= s < NSIG && Has(snap, s) && !Halted(k.tasks[t])
    ensures Quiet(k, t, Handle(k, t, s)) || QuietThenExit(k, t, Handle(k, t, s))
  {
    var v := k.tasks[t];
    var m := SetTask(k, t, Handled(v, s)).(calls := k.calls + CallOf(t, v, s));
    assert Quiet(k, t, m);
  }

  lemma {:induction false} DispatchCases(k: Sys, t: Ref, snap: Word, s: nat, r: Sys)
    requires Dispatchable(k, t, snap) && 1 <= s <= 32 && !Halted(k.tasks[t]) && r == DispatchFrom(k, t, snap, s)
    ensures Quiet(k, t, r) || QuietThenExit(k, t, r)
    decreases 32 - s
  {
    if s == 32 {
    } else if !Has(snap, s) {
      DispatchCases(k, t, snap, s + 1, r);
    } else {
      HandleKeeps(k, t, snap, s);
      HandleCases(k, t, snap, s);
      var k1 := Handle(k, t, s);
      if Halted(k1.tasks[t]) {
        HaltedStops(k1, t, snap, s + 1);
      } else {
        DispatchCases(k1, t, snap, s + 1, r);
        QuietTwice(k, t, k1, r);
      }
    }
  }

  lemma QuietTwice(k: Sys, t: Ref, m: Sys, r: Sys)
    requires Quiet(k, t, m) && !Halted(m.tasks[t]) && (Quiet(m, t, r) || QuietThenExit(m, t, r))
    ensures Quiet(k, t, r) || QuietThenExit(k, t, r)
  {
    if Quiet(m, t, r) {
      QuietTrans(k, t, m, r);
    } else {
      var n, code :| Quiet(m, t, n) && !Halted(n.tasks[t]) && CanExit(n, t) && r == Exit(n, t, code);
      QuietTrans(k, t, m, n);
    }
  }

  lemma QuietTrans(k: Sys, t: Ref, m: Sys, r: Sys)
    requires Quiet(k, t, m) && !Halted(m.tasks[t]) && Quiet(m, t, r)
    ensures Quiet(k, t, r)
  {
    assert m.tasks[t := r.tasks[t]] == k.tasks[t := r.tasks[t]];
  }

  /** The boot task, init and kthreadd are never dispatched a signal that ends them. */
  predicate Spared(k: Sys, t: Ref)
    requires t in k.tasks
  {
    Protected(k.init, t) ==> !Fatal(k.tasks[t], k.tasks[t].pending)
  }

  lemma DispatchReady(k: Sys, t: Ref)
    requires Inv(k) && t in k.tasks && Spared(k, t)
    ensures Dispatchable(k, t, k.tasks[t].pending)
  {
    assert TaskAt(k.tasks, k.current, t);
    if !Protected(k.init, t) { Relatives(k, t); }
  }

  lemma ExitIsFatal(k: Sys, t: Ref, snap: Word, r: Sys)
    requires Dispatchable(k, t, snap) && !Halted(k.tasks[t]) && r == DispatchFrom(k, t, snap, 1)
    requires QuietThenExit(k, t, r)
    ensures Fatal(k.tasks[t], snap)
  {
    DispatchMeaning(k, t, snap, 1, r);
    var h := FirstHalt(k.tasks[t], snap, 1);
    assert Has(snap, h) && EffectOf(k.tasks[t], h) == Acts(Terminate);
  }

  lemma DispatchOutcome(k: Sys, t: Ref)
    requires Inv(k) && t in k.tasks && Spared(k, t) && Dispatchable(k, t, k.tasks[t].pending)
    ensures Quiet(k, t, Dispatch(k, t)) || (QuietThenExit(k, t, Dispatch(k, t)) && !Protected(k.init, t))
  {
    var r := Dispatch(k, t);
    var snap := k.tasks[t].pending;
    if Halted(k.tasks[t]) {
      HaltedStops(k, t, snap, 1);
      assert k.tasks[t := k.tasks[t]] == k.tasks;
    } else {
      DispatchCases(k, t, snap, 1, r);
      if QuietThenExit(k, t, r) { ExitIsFatal(k, t, snap, r); }
    }
  }

  lemma QuietKeeps(k: Sys, t: Ref, r: Sys)
    requires Inv(k) && Quiet(k, t, r)
    ensures Inv(r)
  {
    TameKeeps(k, r);
  }

  lemma DispatchKeeps(k: Sys, t: Ref)
    requires Inv(k) && t in k.tasks && Spared(k, t)
    ensures Dispatchable(k, t, k.tasks[t].pending) && Inv(Dispatch(k, t))
  {
    DispatchReady(k, t);
    DispatchOutcome(k, t);
    var r := Dispatch(k, t);
    if Quiet(k, t, r) {
      QuietKeeps(k, t, r);
    } else {
      var m, code :| Quiet(k, t, m) && !Halted(m.tasks[t]) && CanExit(m, t) && r == Exit(m, t, code);
      QuietKeeps(k, t, m);
      ExitKeeps(m, t, code);
    }
  }

  // ----- scheduling -----

  lemma BlockKeeps(k: Sys)
    requires Inv(k)
    ensures Inv(BlockHook(k, k.current))
  {
    var r := BlockHook(k, k.current);
    assert AllTame(k.tasks, r.tasks) by {
      forall t | t in k.tasks ensures Tame(k.tasks[t], r.tasks[t]) { assert TaskAt(k.tasks, k.current, t); }
    }
    TameKeeps(k, r);
  }

  lemma UnblockKeeps(k: Sys)
    requires Inv(k)
    ensures Inv(UnblockHook(k))
  {
    TameKeeps(k, UnblockHook(k));
  }

  /** The test hooks change states only, and never touch the task just put on the CPU or pid 0. */
  lemma AccountKeeps(k: Sys, hooks: bool)
    requires Inv(k)
    ensures Inv(Account(k, k.current, hooks))
  {
    if k.lap.anchor == NONE {
      TameKeeps(k, k.(lap := k.lap.(anchor := k.current)));
    } else if k.current == k.lap.anchor {
      var k1 := k.(lap := k.lap.(num := k.lap.num + 1));
      TameKeeps(k, k1);
      BlockKeeps(k1);
      UnblockKeeps(BlockHook(k1, k.current));
    }
  }

  lemma HandOverKeeps(k: Sys, next: Ref)
    requires Inv(k) && next in k.run && next != k.current && k.tasks[next].state == Runnable
    ensures Inv(HandOver(k, next))
  {
    var r := HandOver(k, next);
    TasksKeep(k, r.(current := k.current));
    forall t | t in r.tasks
      ensures TaskAt(r.tasks, r.current, t)
    {
      assert TaskAt(k.tasks, k.current, t);
    }
  }

  lemma SliceKeeps(k: Sys, left: nat)
    requires Inv(k) && 1 <= left <= QUANTUM
    ensures Inv(SetTask(k, k.current, k.tasks[k.current].(timeLeft := left)))
  {
    var r := SetTask(k, k.current, k.tasks[k.current].(timeLeft := left));
    SetTaskKeeps(k, k.current, r.tasks[k.current]);
    forall t | t in r.tasks
      ensures TaskAt(r.tasks, r.current, t)
    {
      assert TaskAt(k.tasks, k.current, t);
    }
  }

  lemma SwitchKeeps(k: Sys, hooks: bool)
    requires Inv(k)
    ensures 1 <= k.tasks[k.current].timeLeft && Inv(Switch(k, hooks))
  {
    var v := k.tasks[k.current];
    assert TaskAt(k.tasks, k.current, k.current);
    var next := PickNext(k);
    PickListed(k);
    if v.state == Running && v.timeLeft > 1 {
      SliceKeeps(k, v.timeLeft - 1);
    } else if next == k.current {
      SliceKeeps(k, v.quantum);
    } else {
      HandOverKeeps(k, next);
      AccountKeeps(HandOver(k, next), hooks);
    }
  }

  lemma TickKeeps(k: Sys, hooks: bool)
    requires Inv(k) && Spared(k, k.current)
    ensures Dispatchable(k, k.current, k.tasks[k.current].pending) && k.tasks[k.current].timeLeft >= 1
    ensures Inv(Tick(k, hooks))
  {
    assert TaskAt(k.tasks, k.current, k.current);
    DispatchKeeps(k, k.current);
    SwitchKeeps(Dispatch(k, k.current), hooks);
  }
}
