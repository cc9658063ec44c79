/**
  Tasks, signals and the process tree on values: what each kernel operation does to the table
  of tasks, the run list and the children lists. `Kernel` runs the same operations on the linked
  records in memory.
 */
module Process {
  import opened Bits

  /** The address of a `struct task`; 0 is null. */
  type Ref = nat
  const NONE: Ref := 0
  const INIT_TASK: Ref := 1      // pid 0, static
  const KTHREADD: Ref := 2       // pid 2, static, never on the run list

  const MAX_PROC: nat := 128
  const INIT_PID: nat := 1
  const QUANTUM: nat := 10

  datatype State = Runnable | Running | Blocked | Zombie | Stopped

  /** A signal handler: 0 is the default action, 1 ignores, any other value is an entry point. */
  type Handler = nat
  const SIG_DFL: Handler := 0
  const SIG_IGN: Handler := 1

  const NSIG: nat := 32
  const SIGKILL: nat := 9
  const SIGCHLD: nat := 17
  const SIGCONT: nat := 18
  const SIGSTOP: nat := 19
  const SIGTSTP: nat := 20

  type Handlers = h: seq<Handler> | |h| == NSIG witness seq(NSIG, _ => 0)

  datatype Task = Task(state: State, pid: nat, quantum: nat, timeLeft: nat, exitCode: int,
                       pending: Word, handlers: Handlers, user: bool)

  // ----- signals of one task -----

  predicate Has(w: Word, s: nat)
    requires 1 <= s <= 32
  {
    w[s - 1]
  }

  function With(w: Word, s: nat): Word
    requires 1 <= s <= 32
  {
    w[s - 1 := true]
  }

  function Minus(w: Word, s: nat): Word
    requires 1 <= s <= 32
  {
    w[s - 1 := false]
  }

  predicate Immutable(s: nat) { s == SIGKILL || s == SIGSTOP }
  predicate StopClass(s: nat) { s == SIGSTOP || s == SIGTSTP }

  datatype Action = Terminate | Stop | Ignore

  /** The default action table. */
  function Default(s: nat): Action {
    if 1 <= s <= 4 || 6 <= s <= 9 || s == 11 || 13 <= s <= 15 then Terminate
    else if StopClass(s) then Stop else Ignore
  }

  /** `kernel_signal_register`. */
  function Register(t: Task, s: int, h: Handler): (r: Task) {
    if s <= 0 || s >= NSIG || Immutable(s) then t else t.(handlers := t.handlers[s := h])
  }

  /** Job control at send time: a continue drops pending stops and resumes, a stop drops a pending continue. */
  function JobControl(t: Task, s: nat): (r: Task)
    requires 1 <= s < NSIG
  {
    if s == SIGCONT then
      t.(pending := Minus(Minus(t.pending, SIGSTOP), SIGTSTP),
         state := if t.state == Stopped then Runnable else t.state)
    else if StopClass(s) then t.(pending := Minus(t.pending, SIGCONT))
    else t
  }

  /** `kernel_signal_send`. */
  function Send(t: Task, s: int): (r: Task) {
    if s <= 0 || s >= NSIG then t else
      var u := JobControl(t, s);
      var wakes := u.state == Blocked || (u.state == Stopped && s == SIGKILL);
      u.(pending := With(u.pending, s), state := if wakes then Runnable else u.state)
  }

  // ----- the system -----

  /** A handler call made by dispatch for a kernel task. */
  datatype Call = Call(task: Ref, handler: Handler, sig: nat)

  /** The lap counters of the scheduler's test hooks. */
  datatype Lap = Lap(anchor: Ref, num: nat, blocked: bool, unblocked: bool)

  datatype Sys = Sys(tasks: map<Ref, Task>, run: seq<Ref>, kids: map<Ref, seq<Ref>>, parent: map<Ref, Ref>,
                     current: Ref, counter: nat, init: Ref, lap: Lap, calls: seq<Call>)

  /** The records are all there: static tasks, current task, and links for every task. */
  predicate Shape(k: Sys) {
    && k.kids.Keys == k.tasks.Keys && k.parent.Keys == k.tasks.Keys
    && INIT_TASK in k.tasks && KTHREADD in k.tasks && k.current in k.tasks && NONE !in k.tasks
    && (k.init == NONE || k.init in k.tasks)
  }

  function SetTask(k: Sys, t: Ref, v: Task): (r: Sys)
    requires t in k.tasks
    ensures r.tasks.Keys == k.tasks.Keys
  {
    k.(tasks := k.tasks[t := v])
  }

  function SendTo(k: Sys, t: Ref, s: int): (r: Sys)
    requires t in k.tasks
  {
    SetTask(k, t, Send(k.tasks[t], s))
  }

  /** The task that inherits orphans. */
  function Reaper(k: Sys): Ref { if k.init != NONE then k.init else INIT_TASK }

  function Remove(list: seq<Ref>, c: Ref): (r: seq<Ref>) {
    if list == [] then [] else if list[0] == c then list[1..] else [list[0]] + Remove(list[1..], c)
  }

  /** `task_reparent`: out of the old parent's children, first of the new parent's. */
  function Reparent(k: Sys, c: Ref, p: Ref): (r: Sys)
    requires c in k.parent && k.parent[c] in k.kids && p in k.kids
  {
    var kids1 := k.kids[k.parent[c] := Remove(k.kids[k.parent[c]], c)];
    k.(kids := kids1[p := [c] + kids1[p]], parent := k.parent[c := p])
  }

  function Reversed(list: seq<Ref>): (r: seq<Ref>)
    ensures |r| == |list| && forall c :: c in r <==> c in list
  {
    if list == [] then [] else Reversed(list[1..]) + [list[0]]
  }

  /** What the reparenting loop of `do_exit` comes to: moved one by one, first child first, the
      children of `t` end up in front of those of `p`, last child first. */
  function Orphaned(k: Sys, t: Ref, p: Ref): (r: Sys)
    requires t in k.kids && p in k.kids
    ensures r.kids.Keys == k.kids.Keys && r.parent.Keys == k.parent.Keys
  {
    k.(kids := k.kids[t := []][p := Reversed(k.kids[t]) + k.kids[p]],
       parent := map c | c in k.parent :: if c in k.kids[t] then p else k.parent[c])
  }

  /** Everything `do_exit` relies on: records for the relatives, and an inheritor other than the task itself. */
  predicate CanExit(k: Sys, t: Ref) {
    && t in k.tasks && t in k.kids && t in k.parent && Reaper(k) in k.tasks && Reaper(k) in k.kids && t != Reaper(k)
    && (k.parent[t] == NONE || k.parent[t] in k.tasks) && k.parent[t] != t && NONE !in k.tasks
  }

  /** The tasks `do_exit` sends SIGCHLD to: the parent, and the reaper if it inherits anything. */
  predicate Notified(k: Sys, t: Ref, u: Ref)
    requires t in k.kids && t in k.parent
  {
    (u == Reaper(k) && k.kids[t] != []) || u == k.parent[t]
  }

  /** `do_exit`: the task becomes a zombie, its children go to the reaper, and nothing else changes. */
  function Exit(k: Sys, t: Ref, code: int): (r: Sys)
    requires CanExit(k, t)
    ensures r.tasks.Keys == k.tasks.Keys && SameFrame(k, r)
    ensures r.tasks[t] == k.tasks[t].(state := Zombie, exitCode := code) && r.calls == k.calls
  {
    Orphaned(k, t, Reaper(k)).(tasks := map u | u in k.tasks ::
      if u == t then k.tasks[t].(state := Zombie, exitCode := code)
      else if Notified(k, t, u) then Send(k.tasks[u], SIGCHLD) else k.tasks[u])
  }

  // ----- dispatch -----

  /** What signal handling does not touch in the system. */
  predicate SameFrame(k: Sys, r: Sys) {
    r.init == k.init && r.run == k.run && r.current == k.current && r.counter == k.counter && r.lap == k.lap
  }

  /** What signal handling does not touch in the task. */
  predicate SameSelf(v: Task, w: Task) {
    w == v.(state := w.state, exitCode := w.exitCode, pending := w.pending)
  }

  /** What a signal does to a task: its disposition. */
  datatype Effect = Acts(action: Action) | Ignored | Caught | Called(handler: Handler)

  function EffectOf(v: Task, s: nat): (e: Effect)
    requires 1 <= s < NSIG
  {
    if Immutable(s) || v.handlers[s] == SIG_DFL then Acts(Default(s))
    else if v.handlers[s] == SIG_IGN then Ignored
    else if v.user then Caught
    else Called(v.handlers[s])
  }

  /** What handling a signal, short of ending the task, does to it. A signal caught by a user task stays pending. */
  function Handled(v: Task, s: nat): (w: Task)
    requires 1 <= s < NSIG
    ensures SameSelf(v, w)
  {
    match EffectOf(v, s)
    case Caught => v
    case Acts(Stop) => v.(pending := Minus(v.pending, s), state := if v.state == Zombie then Zombie else Stopped)
    case _ => v.(pending := Minus(v.pending, s))
  }

  function CallOf(t: Ref, v: Task, s: nat): seq<Call>
    requires 1 <= s < NSIG
  {
    if EffectOf(v, s).Called? then [Call(t, v.handlers[s], s)] else []
  }

  /** The body of the dispatch loop for one signal, with `sig_default_action`. */
  function Handle(k: Sys, t: Ref, s: nat): (r: Sys)
    requires t in k.tasks && 1 <= s < NSIG && (EffectOf(k.tasks[t], s) == Acts(Terminate) ==> CanExit(k, t))
    ensures r.tasks.Keys == k.tasks.Keys && SameFrame(k, r) && SameSelf(k.tasks[t], r.tasks[t])
  {
    var v := k.tasks[t];
    var m := SetTask(k, t, Handled(v, s)).(calls := k.calls + CallOf(t, v, s));
    if EffectOf(v, s) == Acts(Terminate) then Exit(m, t, 128 + s) else m
  }

  predicate Halted(v: Task) { v.state == Zombie || v.state == Stopped }

  /** A signal of the snapshot ends the task. */
  predicate Fatal(v: Task, snap: Word) {
    exists s: nat | 1 <= s < NSIG :: Has(snap, s) && EffectOf(v, s) == Acts(Terminate)
  }

  /** No signal of the snapshot ends a task that must not end; bit 31 is clear. */
  predicate Dispatchable(k: Sys, t: Ref, snap: Word) {
    t in k.tasks && !Has(snap, 32) && (Fatal(k.tasks[t], snap) ==> CanExit(k, t))
  }

  /** `kernel_signal_dispatch` from signal `s` on: the snapshot is handled in ascending order until
      the task is terminated or stopped. */
  function DispatchFrom(k: Sys, t: Ref, snap: Word, s: nat): (r: Sys)
    requires 1 <= s <= 32 && ((t in k.tasks && Halted(k.tasks[t])) || Dispatchable(k, t, snap))
    ensures r.tasks.Keys == k.tasks.Keys && SameFrame(k, r) && SameSelf(k.tasks[t], r.tasks[t])
    decreases 32 - s
  {
    if s == 32 then k
    else if !Has(snap, s) then DispatchFrom(k, t, snap, s + 1)
    else if Halted(k.tasks[t]) then k
    else
      HandleKeeps(k, t, snap, s);
      DispatchFrom(Handle(k, t, s), t, snap, s + 1)
  }

  lemma HandleKeeps(k: Sys, t: Ref, snap: Word, s: nat)
    requires Dispatchable(k, t, snap) && 1 <= s < NSIG && Has(snap, s)
    ensures var r := Handle(k, t, s);
            t in r.tasks && (Halted(r.tasks[t]) || Dispatchable(r, t, snap))
            && (!Halted(r.tasks[t]) ==> r == k.(tasks := k.tasks[t := r.tasks[t]], calls := r.calls))
  {
  }

  /** `kernel_signal_dispatch`. */
  function Dispatch(k: Sys, t: Ref): (r: Sys)
    requires t in k.tasks && Dispatchable(k, t, k.tasks[t].pending)
    ensures r.tasks.Keys == k.tasks.Keys && SameFrame(k, r) && SameSelf(k.tasks[t], r.tasks[t])
  {
    DispatchFrom(k, t, k.tasks[t].pending, 1)
  }

  /** The lowest pending signal with a user handler, or 32: what `signal_check_and_deliver` picks. */
  function NextCaught(v: Task, s: nat): (r: nat)
    requires 1 <= s <= 32
    ensures s <= r <= 32
    ensures r < 32 ==> Has(v.pending, r) && !Immutable(r) && v.handlers[r] > SIG_IGN
    ensures forall i: nat | s <= i < r :: !(Has(v.pending, i) && !Immutable(i) && v.handlers[i] > SIG_IGN)
    decreases 32 - s
  {
    if s == 32 then 32
    else if Has(v.pending, s) && !Immutable(s) && v.handlers[s] > SIG_IGN then s
    else NextCaught(v, s + 1)
  }

  /** `signal_check_and_deliver` on return to ring 3: the chosen signal stops being pending. */
  function Deliver(v: Task): (r: Task) {
    var s := NextCaught(v, 1);
    if s < 32 then v.(pending := Minus(v.pending, s)) else v
  }

  // ----- scheduling -----

  function Index(list: seq<Ref>, x: Ref): (i: nat)
    ensures i <= |list| && (x in list <==> i < |list|) && (i < |list| ==> list[i] == x)
  {
    if list == [] then 0 else if list[0] == x then 0 else 1 + Index(list[1..], x)
  }

  /** The other tasks in the order the scheduler looks at them: after the current one, then from the head. */
  function Others(run: seq<Ref>, current: Ref): (r: seq<Ref>) {
    var i := Index(run, current);
    if i < |run| then run[i + 1..] + run[..i] else run
  }

  function FirstRunnable(tasks: map<Ref, Task>, list: seq<Ref>): (j: nat)
    ensures j <= |list|
    ensures j < |list| ==> list[j] in tasks && tasks[list[j]].state == Runnable
    ensures forall i: nat | i < j :: !(list[i] in tasks && tasks[list[i]].state == Runnable)
  {
    if list == [] then 0
    else if list[0] in tasks && tasks[list[0]].state == Runnable then 0
    else 1 + FirstRunnable(tasks, list[1..])
  }

  /** `pick_next_task`. */
  function PickNext(k: Sys): (t: Ref)
    ensures t == k.current || (t in k.tasks && k.tasks[t].state == Runnable)
  {
    var o := Others(k.run, k.current);
    var j := FirstRunnable(k.tasks, o);
    if j < |o| then o[j] else k.current
  }

  /** A task the block hook may hit. */
  predicate HookTarget(k: Sys, next: Ref, t: Ref) {
    && t in k.tasks && t != next && t != k.lap.anchor && k.tasks[t].pid != 0
    && (k.tasks[t].state == Runnable || k.tasks[t].state == Running)
  }

  /** The hook target of highest pid along a list, or null. */
  function Highest(k: Sys, next: Ref, list: seq<Ref>): (t: Ref)
    ensures t != NONE ==> t in list && HookTarget(k, next, t)
    ensures forall u | u in list && u != NONE && HookTarget(k, next, u) ::
              t != NONE && k.tasks[u].pid <= k.tasks[t].pid
  {
    if list == [] then NONE else
      var best := Highest(k, next, list[..|list| - 1]);
      var t := list[|list| - 1];
      if t != NONE && HookTarget(k, next, t) && (best == NONE || k.tasks[t].pid > k.tasks[best].pid) then t else best
  }

  /** What scheduling does not touch. */
  predicate SameLinks(k: Sys, r: Sys) {
    && r.tasks.Keys == k.tasks.Keys && r.run == k.run && r.kids == k.kids
    && r.parent == k.parent && r.counter == k.counter && r.init == k.init
  }

  /** `maybe_block_faulty_target`. */
  function BlockHook(k: Sys, next: Ref): (r: Sys)
    ensures SameLinks(k, r) && r.current == k.current
  {
    if k.lap.blocked || k.lap.num != 3 then k else
      var t := Highest(k, next, k.run);
      if t == NONE then k else
        SetTask(k, t, k.tasks[t].(state := Blocked)).(lap := k.lap.(blocked := true))
  }

  /** `maybe_unblock_faulty_target`. */
  function UnblockHook(k: Sys): (r: Sys)
    ensures SameLinks(k, r) && r.current == k.current
  {
    if k.lap.unblocked || k.lap.num != 4 then k else
      k.(tasks := map t | t in k.tasks ::
           if t in k.run && k.tasks[t].state == Blocked then k.tasks[t].(state := Runnable) else k.tasks[t],
         lap := k.lap.(unblocked := true))
  }

  /** Lap accounting after a pick; the two test hooks run only when `hooks` is on. */
  function Account(k: Sys, next: Ref, hooks: bool): (r: Sys)
    ensures SameLinks(k, r) && r.current == k.current
  {
    if k.lap.anchor == NONE then k.(lap := k.lap.(anchor := next))
    else if next != k.lap.anchor then k
    else
      var k1 := k.(lap := k.lap.(num := k.lap.num + 1));
      if hooks then UnblockHook(BlockHook(k1, next)) else k1
  }

  /** Handing the CPU over: the current task gets a full slice and keeps its state unless it was
      running, `next` starts running. */
  function HandOver(k: Sys, next: Ref): (r: Sys)
    requires k.current in k.tasks && next in k.tasks
  {
    var v := k.tasks[k.current];
    var k1 := SetTask(k, k.current,
        v.(timeLeft := v.quantum, state := if v.state == Running then Runnable else v.state));
    SetTask(k1, next, k1.tasks[next].(state := Running)).(current := next)
  }

  /** `schedule` after signal dispatch, with the context switch that follows it. */
  function Switch(k: Sys, hooks: bool): (r: Sys)
    requires k.current in k.tasks && k.tasks[k.current].timeLeft >= 1
    ensures SameLinks(k, r)
  {
    var v := k.tasks[k.current];
    if v.state == Running && v.timeLeft > 1 then SetTask(k, k.current, v.(timeLeft := v.timeLeft - 1))
    else if PickNext(k) == k.current then SetTask(k, k.current, v.(timeLeft := v.quantum))
    else Account(HandOver(k, PickNext(k)), PickNext(k), hooks)
  }

  /** One timer tick: dispatch, schedule, switch. */
  function Tick(k: Sys, hooks: bool): (r: Sys)
    requires k.current in k.tasks && Dispatchable(k, k.current, k.tasks[k.current].pending)
    requires k.tasks[k.current].timeLeft >= 1
    ensures r.counter == k.counter && r.run == k.run && r.init == k.init && r.tasks.Keys == k.tasks.Keys
  {
    Switch(Dispatch(k, k.current), hooks)
  }

  // ----- creation, waiting, reaping -----

  predicate Fresh(k: Sys, c: Ref) { c != NONE && c !in k.tasks }

  /** A new task: first child of `p`, first of the run list. */
  function AddTask(k: Sys, c: Ref, p: Ref, v: Task): (r: Sys)
    requires p in k.kids
  {
    k.(tasks := k.tasks[c := v], kids := k.kids[c := []][p := [c] + k.kids[p]],
       parent := k.parent[c := p], run := [c] + k.run)
  }

  /** `task_fork` when it succeeds. */
  function Fork(k: Sys, c: Ref): (r: Sys)
    requires k.current in k.tasks && k.current in k.kids
  {
    var v := k.tasks[k.current];
    var u := Task(Runnable, k.counter + 1, v.quantum, v.quantum, 0, Zero(), v.handlers, v.user);
    AddTask(k, c, k.current, u).(counter := k.counter + 1)
  }

  function NewTask(pid: nat, user: bool): Task {
    Task(Runnable, pid, QUANTUM, QUANTUM, 0, Zero(), seq(NSIG, _ => SIG_DFL), user)
  }

  /** `exec_user_fn` (user task under `p`) and `exec_fn` (kernel thread under kthreadd) when they succeed. */
  function SpawnTask(k: Sys, c: Ref, p: Ref, user: bool): (r: Sys)
    requires p in k.kids
  {
    AddTask(k, c, p, NewTask(k.counter + 1, user)).(counter := k.counter + 1)
  }

  /** `exec_init_fn` when it succeeds: the reserved pid 1, under the boot task. */
  function StartInit(k: Sys, c: Ref): (r: Sys)
    requires INIT_TASK in k.kids
  {
    AddTask(k, c, INIT_TASK, NewTask(INIT_PID, true)).(init := c)
  }

  /** `task_reap`. */
  function Reap(k: Sys, z: Ref): (r: Sys)
    requires z in k.parent && k.parent[z] in k.kids
  {
    k.(tasks := k.tasks - {z}, run := Remove(k.run, z), parent := k.parent - {z},
       kids := k.kids[k.parent[z] := Remove(k.kids[k.parent[z]], z)] - {z})
  }

  function FirstZombie(tasks: map<Ref, Task>, list: seq<Ref>): (j: nat)
    ensures j <= |list|
    ensures j < |list| ==> list[j] in tasks && tasks[list[j]].state == Zombie
    ensures forall i: nat | i < j :: !(list[i] in tasks && tasks[list[i]].state == Zombie)
  {
    if list == [] then 0
    else if list[0] in tasks && tasks[list[0]].state == Zombie then 0
    else 1 + FirstZombie(tasks, list[1..])
  }

  /** The answer of one pass of `sys_wait`: -1, a pid with its exit code, or none yet. */
  datatype WaitResult = NoChild | Reaped(pid: nat, code: int) | Asleep

  function WaitAnswer(k: Sys): (a: WaitResult)
    requires k.current in k.kids
  {
    var list := k.kids[k.current];
    var j := FirstZombie(k.tasks, list);
    if list == [] && k.current != k.init then NoChild
    else if j < |list| then Reaped(k.tasks[list[j]].pid, k.tasks[list[j]].exitCode) else Asleep
  }

  /** One scan-then-block pass of `sys_wait`: reap the first dead child, or block. */
  function WaitPass(k: Sys): (r: Sys)
    requires k.current in k.tasks && k.current in k.kids
    requires forall c | c in k.kids[k.current] :: c in k.parent && k.parent[c] == k.current
  {
    var c := k.current;
    var j := FirstZombie(k.tasks, k.kids[c]);
    if k.kids[c] == [] && c != k.init then k
    else if j < |k.kids[c]| then Reap(k, k.kids[c][j])
    else SetTask(k, c, k.tasks[c].(state := Blocked))
  }

  function BootTask(state: State, pid: nat): Task { NewTask(pid, false).(state := state) }

  /** The state `task_init` leaves. */
  function Boot(): (k: Sys) {
    Sys(map[INIT_TASK := BootTask(Running, 0), KTHREADD := BootTask(Blocked, 2)], [INIT_TASK],
        map[INIT_TASK := [KTHREADD], KTHREADD := []], map[INIT_TASK := NONE, KTHREADD := INIT_TASK],
        INIT_TASK, 2, NONE, Lap(NONE, 0, false, false), [])
  }
}
