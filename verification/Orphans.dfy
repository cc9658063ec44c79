/**
  The loop of `do_exit` that hands the children of a task to the reaper: when it ends, what it
  leaves, a run of the kernel that reaches a state where it would not end, and what becomes of
  orphans once the reaper itself has exited.
 */
module Orphans {
  import opened Bits
  import opened Process
  import opened ProcessTree
  import opened ProcessInvariant
  import opened ProcessRuns

  /** One round of the loop: the first child of `t`, if there is one, goes to `p`. */
  function Round(k: Sys, t: Ref, p: Ref): (r: Sys) {
    if t in k.kids && p in k.kids && k.kids[t] != [] && k.kids[t][0] in k.parent && k.parent[k.kids[t][0]] in k.kids
    then Reparent(k, k.kids[t][0], p) else k
  }

  function Rounds(k: Sys, t: Ref, p: Ref, n: nat): (r: Sys) {
    if n == 0 then k else Round(Rounds(k, t, p, n - 1), t, p)
  }

  /** After `n` rounds the loop has ended. */
  predicate Ended(k: Sys, t: Ref, p: Ref, n: nat) {
    t in Rounds(k, t, p, n).kids && Rounds(k, t, p, n).kids[t] == []
  }

  /** The state after `i` rounds, for a reaper other than the task. */
  ghost function OrphanedBy(k: Sys, t: Ref, p: Ref, i: nat): (r: Sys)
    requires t in k.kids && p in k.kids && i <= |k.kids[t]|
  {
    k.(kids := k.kids[t := k.kids[t][i..]][p := Reversed(k.kids[t][..i]) + k.kids[p]],
       parent := map c | c in k.parent :: if c in k.kids[t][..i] then p else k.parent[c])
  }

  lemma {:induction false} ReversedSnoc(list: seq<Ref>, x: Ref)
    ensures Reversed(list + [x]) == [x] + Reversed(list)
  {
    if list != [] {
      assert (list + [x])[1..] == list[1..] + [x];
      ReversedSnoc(list[1..], x);
    } else {
      assert Reversed([x]) == [x];
    }
  }

  lemma OrphanStep(k: Sys, t: Ref, p: Ref, i: nat)
    requires t in k.kids && p in k.kids && p != t && i < |k.kids[t]| && KidsAt(k.kids, k.parent, t)
    ensures var m, c := OrphanedBy(k, t, p, i), k.kids[t][i];
            c in m.parent && m.parent[c] == t && Reparent(m, c, p) == OrphanedBy(k, t, p, i + 1)
  {
    var m, c, list := OrphanedBy(k, t, p, i), k.kids[t][i], k.kids[t];
    var o := OrphanedBy(k, t, p, i + 1);
    assert list[..i + 1] == list[..i] + [c];
    assert c !in list[..i] && c in list;
    var r := Reparent(m, c, p);
    assert m.kids[t] == list[i..] && Remove(list[i..], c) == list[i + 1..];
    ReversedSnoc(list[..i], c);
    assert r.kids[p] == o.kids[p];
    assert r.kids == o.kids;
    assert r.parent == o.parent;
  }

  lemma OrphanEnds(k: Sys, t: Ref, p: Ref)
    requires t in k.kids && p in k.kids && p != t
    ensures OrphanedBy(k, t, p, 0) == k && OrphanedBy(k, t, p, |k.kids[t]|) == Orphaned(k, t, p)
  {
    assert k.kids[t][0..] == k.kids[t] && k.kids[t][..0] == [] && [] + k.kids[p] == k.kids[p];
    assert OrphanedBy(k, t, p, 0).kids == k.kids;
    assert OrphanedBy(k, t, p, 0).parent == k.parent;
    assert k.kids[t][..|k.kids[t]|] == k.kids[t] && k.kids[t][|k.kids[t]|..] == [];
  }

  lemma {:induction false} RoundsAre(k: Sys, t: Ref, p: Ref, n: nat)
    requires t in k.kids && p in k.kids && p != t && n <= |k.kids[t]| && KidsAt(k.kids, k.parent, t)
    ensures Rounds(k, t, p, n) == OrphanedBy(k, t, p, n)
  {
    if n == 0 {
      OrphanEnds(k, t, p);
    } else {
      RoundsAre(k, t, p, n - 1);
      RoundIs(k, t, p, n - 1);
    }
  }

  lemma RoundIs(k: Sys, t: Ref, p: Ref, i: nat)
    requires t in k.kids && p in k.kids && p != t && i < |k.kids[t]| && KidsAt(k.kids, k.parent, t)
    ensures Round(OrphanedBy(k, t, p, i), t, p) == OrphanedBy(k, t, p, i + 1)
  {
    OrphanStep(k, t, p, i);
    var m := OrphanedBy(k, t, p, i);
    assert m.kids[t] == k.kids[t][i..] && m.kids[t][0] == k.kids[t][i];
  }

  /** A task that inherits its own first child is where it was. */
  lemma SelfReparentStuck(k: Sys, t: Ref)
    requires t in k.kids && k.kids[t] != [] && k.kids[t][0] in k.parent && k.parent[k.kids[t][0]] == t
    ensures Reparent(k, k.kids[t][0], t) == k
  {
    var c := k.kids[t][0];
    assert Remove(k.kids[t], c) == k.kids[t][1..];
    assert [c] + k.kids[t][1..] == k.kids[t];
    assert k.kids[t := k.kids[t][1..]][t := k.kids[t]] == k.kids;
    assert k.parent[c := t] == k.parent;
  }

  lemma {:induction false} RoundsStuck(k: Sys, t: Ref, n: nat)
    requires t in k.kids && k.kids[t] != [] && k.kids[t][0] in k.parent && k.parent[k.kids[t][0]] == t
    ensures Rounds(k, t, t, n) == k
  {
    if n > 0 {
      RoundsStuck(k, t, n - 1);
      SelfReparentStuck(k, t);
    }
  }

  lemma LoopOther(k: Sys, t: Ref, p: Ref)
    requires t in k.kids && p in k.kids && KidsAt(k.kids, k.parent, t) && t != p
    ensures Ended(k, t, p, |k.kids[t]|) && Rounds(k, t, p, |k.kids[t]|) == Orphaned(k, t, p)
  {
    RoundsAre(k, t, p, |k.kids[t]|);
    OrphanEnds(k, t, p);
  }

  lemma LoopStuck(k: Sys, t: Ref)
    requires t in k.kids && KidsAt(k.kids, k.parent, t) && k.kids[t] != []
    ensures forall n: nat :: !Ended(k, t, t, n)
  {
    assert k.kids[t][0] in k.kids[t];
    forall n: nat
      ensures !Ended(k, t, t, n)
    {
      RoundsStuck(k, t, n);
    }
  }

  /** In every state of the system the loop of `do_exit` ends, after as many rounds as there are children
      and with the specified result, exactly when the task is not its own reaper or has no children. */
  lemma OrphanLoop(k: Sys, t: Ref)
    requires Structure(k) && t in k.tasks
    ensures (exists n: nat :: Ended(k, t, Reaper(k), n)) <==> t != Reaper(k) || k.kids[t] == []
    ensures t != Reaper(k) ==> Rounds(k, t, Reaper(k), |k.kids[t]|) == Orphaned(k, t, Reaper(k))
  {
    assert KidsAt(k.kids, k.parent, t) && Reaper(k) in k.kids;
    if t != Reaper(k) {
      LoopOther(k, t, Reaper(k));
    } else if k.kids[t] == [] {
      assert Ended(k, t, t, 0);
    } else {
      LoopStuck(k, t);
    }
  }

  // ----- the exit of a childless reaper -----

  /** `do_exit` of the reaper when it has no children: the loop is not entered, and the kernel goes on
      naming the zombie as the reaper. */
  function ReaperExit(k: Sys, code: int): (r: Sys)
    requires Reaper(k) in k.tasks && Reaper(k) in k.parent && Reaper(k) in k.kids && k.kids[Reaper(k)] == []
  {
    var t := Reaper(k);
    k.(tasks := map u | u in k.tasks ::
      if u == t then k.tasks[t].(state := Zombie, exitCode := code)
      else if u == k.parent[t] then Send(k.tasks[u], SIGCHLD) else k.tasks[u])
  }

  /** Once a childless init has exited, the next task that exits hands its children to a zombie: the
      zombie has children exactly if that task had any, and these are then its children. */
  lemma ReaperLost(k: Sys, code: int, t: Ref, code': int)
    requires Inv(k) && k.init != NONE && k.kids[k.init] == [] && t in k.tasks && !Protected(k.init, t)
    ensures var m := ReaperExit(k, code);
            && CanExit(m, t) && Reaper(m) == k.init
            && var r := Exit(m, t, code');
               && r.tasks[k.init].state == Zombie && r.tasks[t].state == Zombie && r.kids[t] == []
               && (r.kids[k.init] != [] <==> k.kids[t] != [])
               && (forall c | c in k.kids[t] :: c in r.parent && r.parent[c] == k.init && c in r.kids[k.init])
  {
    var m := ReaperExit(k, code);
    assert KidsAt(k.kids, k.parent, t);
    Relatives(k, t);
    assert CanExit(m, t);
    SendStays(m.tasks[k.init], SIGCHLD);
  }

  lemma SendStays(v: Task, s: int)
    requires v.state == Zombie
    ensures Send(v, s).state == Zombie
  {
  }

  // ----- a reachable state in which it would not end -----

  lemma {:induction false} NothingPending(k: Sys, t: Ref, s: nat)
    requires t in k.tasks && 1 <= s <= 32 && Dispatchable(k, t, Zero())
    ensures DispatchFrom(k, t, Zero(), s) == k
    decreases 32 - s
  {
    if s < 32 { NothingPending(k, t, s + 1); }
  }

  /** The current task runs, has `n` ticks left and no signal pending. */
  predicate Busy(k: Sys, n: nat) {
    && k.current in k.tasks && k.tasks[k.current].state == Running && k.tasks[k.current].timeLeft == n
    && k.tasks[k.current].pending == Zero()
  }

  /** The current task with `n` ticks left. */
  function WithTime(k: Sys, n: nat): (r: Sys)
    requires k.current in k.tasks
  {
    SetTask(k, k.current, k.tasks[k.current].(timeLeft := n))
  }

  lemma WithTimeTwice(k: Sys, a: nat, b: nat)
    requires k.current in k.tasks
    ensures WithTime(WithTime(k, a), b) == WithTime(k, b) && WithTime(k, k.tasks[k.current].timeLeft) == k
  {
    assert WithTime(WithTime(k, a), b).tasks == WithTime(k, b).tasks;
    assert WithTime(k, k.tasks[k.current].timeLeft).tasks == k.tasks;
  }

  lemma Undisturbed(k: Sys, n: nat)
    requires Busy(k, n)
    ensures Enabled(k, TimerTick) && Dispatchable(k, k.current, k.tasks[k.current].pending)
    ensures Dispatch(k, k.current) == k
  {
    NothingPending(k, k.current, 1);
  }

  lemma QuietTick(k: Sys, n: nat, hooks: bool)
    requires Inv(k) && Busy(k, n) && n >= 1
    ensures Enabled(k, TimerTick) && Next(k, TimerTick, hooks) == Switch(k, hooks)
  {
    Undisturbed(k, n);
  }

  lemma SwitchDown(k: Sys, n: nat, hooks: bool)
    requires Busy(k, n + 1) && n >= 1
    ensures Switch(k, hooks) == WithTime(k, n)
  {
  }

  lemma RunCons(k: Sys, step: Step, m: Sys, rest: seq<Step>, hooks: bool)
    requires Inv(k) && Enabled(k, step) && m == Next(k, step, hooks) && RunOk(m, rest, hooks)
    ensures RunOk(k, [step] + rest, hooks) && Run(k, [step] + rest, hooks) == Run(m, rest, hooks)
  {
    assert ([step] + rest)[1..] == rest;
  }

  /** While time is left the current task keeps the CPU. */
  lemma {:induction false} CountDown(k: Sys, n: nat, last: seq<Step>, hooks: bool, r: Sys) returns (steps: seq<Step>)
    requires Inv(k) && Busy(k, n + 1) && r == WithTime(k, 1) && Inv(r) && RunOk(r, last, hooks)
    ensures RunOk(k, steps, hooks) && Run(k, steps, hooks) == Run(r, last, hooks)
    decreases n
  {
    WithTimeTwice(k, n, 1);
    steps := last;
    if n > 0 {
      QuietTick(k, n + 1, hooks);
      SwitchDown(k, n, hooks);
      var rest := CountDown(WithTime(k, n), n - 1, last, hooks, r);
      RunCons(k, TimerTick, WithTime(k, n), rest, hooks);
      steps := [TimerTick] + rest;
    }
  }

  /** Right after boot and the start of init as task 3, with one tick left to the boot task. */
  function BeforeInit(): (k: Sys) { WithTime(StartInit(Boot(), 3), 1) }

  lemma InitNext()
    ensures PickNext(BeforeInit()) == 3
  {
    var k := BeforeInit();
    assert k.run == [3, INIT_TASK] && k.current == INIT_TASK;
    assert Index(k.run, k.current) == 1 by { assert k.run[1..] == [INIT_TASK]; }
    assert Others(k.run, k.current) == [3];
    assert FirstRunnable(k.tasks, [3]) == 0;
  }

  /** Init has the CPU and can fork. */
  predicate InitRuns(k: Sys) {
    && k.current == 3 && k.init == 3 && 3 in k.tasks && k.tasks[3].state == Running && 3 in k.kids
    && Fresh(k, 4) && k.counter == 2
  }

  lemma InitTurn(hooks: bool)
    ensures InitRuns(Switch(BeforeInit(), hooks))
  {
    InitNext();
  }

  lemma {:induction false} TimeInv(k: Sys, n: nat)
    requires Inv(k) && Busy(k, n + 1)
    ensures Inv(WithTime(k, 1))
    decreases n
  {
    WithTimeTwice(k, n, 1);
    if n > 0 {
      SwitchKeeps(k, false);
      SwitchDown(k, n, false);
      TimeInv(WithTime(k, n), n - 1);
    }
  }

  lemma InitForks(k: Sys, hooks: bool)
    requires Inv(k) && InitRuns(k)
    ensures Enabled(k, ForkCall(4))
    ensures var r := Next(k, ForkCall(4), hooks);
            r.current == Reaper(r) && r.current in r.tasks
            && r.kids[r.current] != []
  {
  }

  /** The last tick of the boot task, and the fork of init. */
  lemma ForkAtLast(hooks: bool) returns (steps: seq<Step>)
    requires Inv(BeforeInit())
    ensures RunOk(BeforeInit(), steps, hooks)
    ensures var r := Run(BeforeInit(), steps, hooks);
            r.current == Reaper(r) && r.current in r.tasks
            && r.kids[r.current] != []
  {
    var k := BeforeInit();
    QuietTick(k, 1, hooks);
    InitTurn(hooks);
    var m := Next(k, TimerTick, hooks);
    InitForks(m, hooks);
    var r := Next(m, ForkCall(4), hooks);
    RunCons(m, ForkCall(4), r, [], hooks);
    RunCons(k, TimerTick, m, [ForkCall(4)] + [], hooks);
    steps := [TimerTick] + ([ForkCall(4)] + []);
  }

  lemma BootReady(hooks: bool)
    ensures Inv(Boot()) && Enabled(Boot(), SpawnInit(3)) && Next(Boot(), SpawnInit(3), hooks) == StartInit(Boot(), 3)
    ensures Busy(StartInit(Boot(), 3), 10)
  {
    BootInv();
  }

  /** A run from boot after which the current task is its own reaper and has a child: init is started, gets
      the CPU and forks. Were it to exit now, the loop would never end. */
  lemma StuckReachable(hooks: bool) returns (steps: seq<Step>)
    ensures Inv(Boot()) && RunOk(Boot(), steps, hooks)
    ensures var k := Run(Boot(), steps, hooks);
            k.current == Reaper(k) && !exists n: nat :: Ended(k, k.current, Reaper(k), n)
  {
    BootReady(hooks);
    var k := StartInit(Boot(), 3);
    TimeInv(k, 9);
    var last := ForkAtLast(hooks);
    var rest := CountDown(k, 9, last, hooks, BeforeInit());
    RunCons(Boot(), SpawnInit(3), k, rest, hooks);
    steps := [SpawnInit(3)] + rest;
    var r := Run(BeforeInit(), last, hooks);
    OrphanLoop(r, r.current);
  }
}
