/**
  What each operation on tasks comes to, said on the records and lists before and after it: the
  functions of `Process` are not mentioned in any of these descriptions.
 */
module ProcessMeaning {
  import opened Bits
  import opened Process
  import opened ProcessTree
  import opened Signals
  import opened ProcessInvariant

  // ----- sending and registering -----

  /** Sending `s` takes back a pending `i`: a continue takes back stops, a stop takes back a continue. */
  predicate Cancels(s: int, i: nat) {
    || (s == SIGCONT && (i == SIGSTOP || i == SIGTSTP))
    || ((s == SIGSTOP || s == SIGTSTP) && i == SIGCONT)
  }

  /** Signal `s` was sent to task `v`: it is pending, what it cancels is not, a task that sleeps is ready
      again, and one that is stopped only by SIGKILL and SIGCONT. An unknown signal does nothing. */
  ghost predicate Sent(v: Task, s: int, w: Task) {
    if 1 <= s < NSIG then
      && Has(w.pending, s)
      && (forall i: nat | 1 <= i <= 32 && i != s :: Has(w.pending, i) == (Has(v.pending, i) && !Cancels(s, i)))
      && w.state == (if v.state == Blocked || (v.state == Stopped && (s == SIGKILL || s == SIGCONT)) then Runnable
                     else v.state)
      && w == v.(pending := w.pending, state := w.state)
    else w == v
  }

  lemma SendMeaning(v: Task, s: int)
    ensures Sent(v, s, Send(v, s))
  {
  }

  /** Handler `h` was registered for `s`; SIGKILL, SIGSTOP and unknown signals cannot be caught. */
  ghost predicate Registered(v: Task, s: int, h: Handler, w: Task) {
    && w == v.(handlers := w.handlers)
    && forall i: nat | i < NSIG ::
         w.handlers[i] == if i == s && i != 0 && i != SIGKILL && i != SIGSTOP then h else v.handlers[i]
  }

  lemma RegisterMeaning(v: Task, s: int, h: Handler)
    ensures Registered(v, s, h, Register(v, s, h))
  {
    if 0 < s < NSIG {
    } else {
      assert Register(v, s, h) == v;
    }
  }

  // ----- exit -----

  /** The children `list` were put one by one in front of `old`. */
  ghost predicate Handed(list: seq<Ref>, before: seq<Ref>, after: seq<Ref>) {
    && |after| == |list| + |before|
    && (forall i: nat | i < |list| :: after[i] == list[|list| - 1 - i])
    && forall i: nat | i < |before| :: after[|list| + i] == before[i]
  }

  /** Task `t` ended with `code`: it is a zombie without children, these have the reaper for a parent, and
      the parent, and a reaper that got children, were sent SIGCHLD. Nothing else changed. */
  ghost predicate Exited(k: Sys, t: Ref, code: int, r: Sys) {
    var p := if k.init != NONE then k.init else INIT_TASK;
    && t in k.tasks && t in k.kids && t in k.parent && p in k.kids
    && r == k.(tasks := r.tasks, kids := r.kids, parent := r.parent)
    && r.tasks.Keys == k.tasks.Keys && r.kids.Keys == k.kids.Keys && r.parent.Keys == k.parent.Keys
    && r.tasks[t] == k.tasks[t].(state := Zombie, exitCode := code)
    && (forall u | u in k.tasks && u != t ::
          if u == k.parent[t] || (u == p && k.kids[t] != []) then Sent(k.tasks[u], SIGCHLD, r.tasks[u])
          else r.tasks[u] == k.tasks[u])
    && r.kids[t] == [] && Handed(k.kids[t], k.kids[p], r.kids[p])
    && (forall q | q in k.kids && q != t && q != p :: r.kids[q] == k.kids[q])
    && forall c | c in k.parent :: r.parent[c] == if c in k.kids[t] then p else k.parent[c]
  }

  lemma {:induction false} ReversedAt(list: seq<Ref>, i: nat)
    requires i < |list|
    ensures Reversed(list)[i] == list[|list| - 1 - i]
  {
    if i < |list| - 1 { ReversedAt(list[1..], i); }
  }

  lemma ExitMeaning(k: Sys, t: Ref, code: int)
    requires CanExit(k, t)
    ensures Exited(k, t, code, Exit(k, t, code))
  {
    SendMeaningAll(k.tasks, SIGCHLD);
    forall i: nat | i < |k.kids[t]|
      ensures Reversed(k.kids[t])[i] == k.kids[t][|k.kids[t]| - 1 - i]
    {
      ReversedAt(k.kids[t], i);
    }
  }

  lemma SendMeaningAll(tasks: Tasks, s: int)
    ensures forall u | u in tasks :: Sent(tasks[u], s, Send(tasks[u], s))
  {
    forall u | u in tasks
      ensures Sent(tasks[u], s, Send(tasks[u], s))
    {
      SendMeaning(tasks[u], s);
    }
  }

  // ----- dispatch, on the handlers -----

  /** The signals whose default action ends a task: SIGHUP, SIGINT, SIGQUIT, SIGILL, SIGABRT, SIGBUS, SIGFPE,
      SIGKILL, SIGSEGV, SIGPIPE, SIGALRM, SIGTERM. */
  predicate EndsByDefault(s: nat) { s in {1, 2, 3, 4, 6, 7, 8, 9, 11, 13, 14, 15} }

  predicate Ends(v: Task, s: nat)
    requires 1 <= s < NSIG
  {
    s == SIGKILL || (EndsByDefault(s) && v.handlers[s] == 0)
  }

  predicate Suspends(v: Task, s: nat)
    requires 1 <= s < NSIG
  {
    s == SIGSTOP || (s == SIGTSTP && v.handlers[s] == 0)
  }

  /** The task has a handler of its own for `s`. */
  predicate HasHandler(v: Task, s: nat)
    requires 1 <= s < NSIG
  {
    v.handlers[s] > 1 && s != SIGKILL && s != SIGSTOP
  }

  lemma EffectMeaning(v: Task, s: nat)
    requires 1 <= s < NSIG
    ensures EffectOf(v, s) == Acts(Terminate) <==> Ends(v, s)
    ensures EffectOf(v, s) == Acts(Stop) <==> Suspends(v, s)
    ensures EffectOf(v, s) == Caught <==> v.user && HasHandler(v, s)
    ensures EffectOf(v, s).Called? <==> !v.user && HasHandler(v, s)
    ensures Halts(v, s) <==> Ends(v, s) || Suspends(v, s)
  {
  }

  /** The pending signals of `v` were drained, up to and with `h`, the lowest one that ends or suspends the
      task; 32 if there is none. A signal that a user task has a handler for stays pending. */
  ghost predicate Drained(v: Task, h: nat, w: Task) {
    && 1 <= h <= 32
    && (forall i: nat | 1 <= i < h && Has(v.pending, i) :: !Ends(v, i) && !Suspends(v, i))
    && (h < 32 ==> Has(v.pending, h) && (Ends(v, h) || Suspends(v, h)))
    && (forall i: nat | 1 <= i < 32 ::
          Has(w.pending, i) == (Has(v.pending, i) && (i > h || (v.user && HasHandler(v, i)))))
    && w.state == (if h == 32 then v.state else if Suspends(v, h) then Stopped else Zombie)
    && w.exitCode == (if h < 32 && Ends(v, h) then 128 + h else v.exitCode)
    && w == v.(state := w.state, exitCode := w.exitCode, pending := w.pending)
  }

  /** The kernel called the handlers of task `t` for the pending signals in `[s, h)`, in ascending order. */
  ghost predicate CallsMade(t: Ref, v: Task, s: nat, h: nat, made: seq<Call>)
    requires 1 <= s <= h <= 32
  {
    && (forall n: nat | n < |made| :: CallFits(t, v, s, h, made[n]))
    && (forall n: nat, m: nat | n < m < |made| :: made[n].sig < made[m].sig)
    && forall i: nat | s <= i < h && Has(v.pending, i) && !v.user && HasHandler(v, i) ::
         Call(t, v.handlers[i], i) in made
  }

  predicate CallFits(t: Ref, v: Task, s: nat, h: nat, c: Call)
    requires 1 <= s <= h <= 32
  {
    && s <= c.sig < h && Has(v.pending, c.sig) && !v.user && HasHandler(v, c.sig)
    && c.task == t && c.handler == v.handlers[c.sig]
  }

  lemma CallsSkip(t: Ref, v: Task, s: nat, h: nat, made: seq<Call>)
    requires 1 <= s < h <= 32 && CallsMade(t, v, s + 1, h, made)
    requires !(Has(v.pending, s) && !v.user && HasHandler(v, s))
    ensures CallsMade(t, v, s, h, made)
  {
    assert forall n: nat | n < |made| :: CallFits(t, v, s + 1, h, made[n]);
  }

  lemma CallsCons(t: Ref, v: Task, s: nat, h: nat, made: seq<Call>)
    requires 1 <= s < h <= 32 && CallsMade(t, v, s + 1, h, made)
    requires Has(v.pending, s) && !v.user && HasHandler(v, s)
    ensures CallsMade(t, v, s, h, [Call(t, v.handlers[s], s)] + made)
  {
    var c := Call(t, v.handlers[s], s);
    var all := [c] + made;
    forall n: nat | n < |all|
      ensures CallFits(t, v, s, h, all[n]) && (n > 0 ==> all[n].sig > s)
    {
      if n > 0 { assert CallFits(t, v, s + 1, h, made[n - 1]) && all[n] == made[n - 1]; }
    }
    assert c in all && forall x | x in made :: x in all;
  }

  lemma {:induction false} CallsForMeaning(t: Ref, v: Task, s: nat, h: nat)
    requires 1 <= s <= h <= 32
    ensures CallsMade(t, v, s, h, CallsFor(t, v, v.pending, s, h))
    decreases h - s
  {
    if s < h {
      CallsForMeaning(t, v, s + 1, h);
      EffectMeaning(v, s);
      var rest := CallsFor(t, v, v.pending, s + 1, h);
      if Has(v.pending, s) && !v.user && HasHandler(v, s) {
        CallsCons(t, v, s, h, rest);
      } else {
        CallsSkip(t, v, s, h, rest);
        assert [] + rest == rest;
      }
    }
  }

  /** Dispatch on a task that is neither dead nor stopped, on its handlers. */
  lemma DispatchOnHandlers(k: Sys, t: Ref) returns (h: nat, made: seq<Call>)
    requires t in k.tasks && Dispatchable(k, t, k.tasks[t].pending) && !Halted(k.tasks[t])
    ensures var r := Dispatch(k, t);
            Drained(k.tasks[t], h, r.tasks[t]) && CallsMade(t, k.tasks[t], 1, h, made) && r.calls == k.calls + made
  {
    var v, r := k.tasks[t], Dispatch(k, t);
    DispatchMeaning(k, t, v.pending, 1, r);
    h := FirstHalt(v, v.pending, 1);
    made := CallsFor(t, v, v.pending, 1, h);
    CallsForMeaning(t, v, 1, h);
    DrainedIs(t, v, r.tasks[t]);
  }

  lemma DrainedIs(t: Ref, v: Task, w: Task)
    requires Dispatched(t, v, v.pending, 1, w) && SameSelf(v, w)
    ensures Drained(v, FirstHalt(v, v.pending, 1), w)
  {
    var h := FirstHalt(v, v.pending, 1);
    forall i: nat | 1 <= i < 32
      ensures i < h && Has(v.pending, i) ==> !Ends(v, i) && !Suspends(v, i)
      ensures Has(w.pending, i) == (Has(v.pending, i) && (i > h || (v.user && HasHandler(v, i))))
    {
      EffectMeaning(v, i);
    }
    if h < 32 { EffectMeaning(v, h); }
  }

  /** Dispatch drained the signals of `t`, and `t` exited if one of them ends it. Nothing else changed. */
  ghost predicate Settled(k: Sys, t: Ref, r: Sys) {
    && t in k.tasks && t in r.tasks
    && if Halted(k.tasks[t]) then r == k
       else exists h: nat, made: seq<Call>, m: Sys :: SettledBy(k, t, h, made, m, r)
  }

  /** With `m` the system before the exit, if there is one. */
  ghost predicate SettledBy(k: Sys, t: Ref, h: nat, made: seq<Call>, m: Sys, r: Sys)
    requires t in k.tasks && t in r.tasks
  {
    && Drained(k.tasks[t], h, r.tasks[t]) && CallsMade(t, k.tasks[t], 1, h, made)
    && t in m.tasks && m == k.(tasks := k.tasks[t := m.tasks[t]], calls := k.calls + made)
    && if h < 32 && Ends(k.tasks[t], h) then Exited(m, t, 128 + h, r) else r == m
  }

  lemma DispatchSettles(k: Sys, t: Ref)
    requires t in k.tasks && Dispatchable(k, t, k.tasks[t].pending)
    ensures Settled(k, t, Dispatch(k, t))
  {
    var r, snap := Dispatch(k, t), k.tasks[t].pending;
    if Halted(k.tasks[t]) {
      HaltedStops(k, t, snap, 1);
    } else {
      var h, made := DispatchOnHandlers(k, t);
      DispatchCases(k, t, snap, 1, r);
      if Quiet(k, t, r) {
        assert SettledBy(k, t, h, made, r, r);
      } else {
        var m, code :| Quiet(k, t, m) && !Halted(m.tasks[t]) && CanExit(m, t) && r == Exit(m, t, code);
        ExitMeaning(m, t, code);
        assert SettledBy(k, t, h, made, m, r);
      }
    }
  }

  /** On return to ring 3, `s` is the lowest pending signal with a handler, 32 if there is none; it alone is
      no longer pending. */
  ghost predicate Delivered(v: Task, s: nat, w: Task) {
    && 1 <= s <= 32 && (s < 32 ==> Has(v.pending, s) && HasHandler(v, s))
    && (forall i: nat | 1 <= i < s :: !(Has(v.pending, i) && HasHandler(v, i)))
    && (forall i: nat | 1 <= i < 32 :: Has(w.pending, i) == (Has(v.pending, i) && i != s))
    && w == v.(pending := w.pending)
  }

  lemma DeliverMeaning(v: Task)
    ensures Delivered(v, NextCaught(v, 1), Deliver(v))
  {
  }

  // ----- creation -----

  /** Task `c` was made: first child of `p`, childless, at the head of the run list; no other record, list
      or link changed. */
  ghost predicate Born(k: Sys, c: Ref, p: Ref, r: Sys) {
    && c in r.tasks && c in r.kids && c in r.parent && p in k.kids && p in r.kids
    && r.tasks.Keys == k.tasks.Keys + {c} && r.kids.Keys == k.kids.Keys + {c} && r.parent.Keys == k.parent.Keys + {c}
    && (forall u | u in k.tasks && u != c :: r.tasks[u] == k.tasks[u])
    && r.kids[c] == [] && r.kids[p] == [c] + k.kids[p]
    && (forall q | q in k.kids && q != c && q != p :: r.kids[q] == k.kids[q])
    && r.parent[c] == p && (forall u | u in k.parent && u != c :: r.parent[u] == k.parent[u])
    && r.run == [c] + k.run && r.current == k.current && r.lap == k.lap && r.calls == k.calls
  }

  lemma AddMeaning(k: Sys, c: Ref, p: Ref, v: Task)
    requires p in k.kids && p != c
    ensures Born(k, c, p, AddTask(k, c, p, v)) && AddTask(k, c, p, v).tasks[c] == v
  {
  }

  /** A new record: ready with a full slice, nothing pending. */
  ghost predicate Newborn(v: Task, pid: int) {
    && v.state == Runnable && v.pid == pid && v.exitCode == 0 && v.timeLeft == v.quantum
    && forall i: nat | 1 <= i <= 32 :: !Has(v.pending, i)
  }

  /** A spawned task starts with the default action for every signal. */
  ghost predicate Spawned(v: Task, pid: int, user: bool) {
    Newborn(v, pid) && v.user == user && v.quantum == 10 && forall i: nat | i < NSIG :: v.handlers[i] == 0
  }

  /** A forked task has the parent's quantum, handlers and ring. */
  ghost predicate Forked(v: Task, u: Task, pid: int) {
    Newborn(u, pid) && u.quantum == v.quantum && u.handlers == v.handlers && u.user == v.user
  }

  // ----- reaping and waiting -----

  /** List `after` is `before` without `z`, in the same order. */
  ghost predicate Dropped(before: seq<Ref>, z: Ref, after: seq<Ref>) {
    if z in before then exists i: nat :: DroppedAt(before, z, after, i) else after == before
  }

  predicate DroppedAt(before: seq<Ref>, z: Ref, after: seq<Ref>, i: nat) {
    i < |before| && before[i] == z && after == before[..i] + before[i + 1..]
  }

  lemma DroppedHead(list: seq<Ref>)
    requires list != []
    ensures Dropped(list, list[0], list[1..])
  {
    assert list[..0] + list[1..] == list[1..];
    assert DroppedAt(list, list[0], list[1..], 0);
  }

  lemma DroppedCons(x: Ref, before: seq<Ref>, z: Ref, after: seq<Ref>)
    requires Dropped(before, z, after) && x != z
    ensures Dropped([x] + before, z, [x] + after)
  {
    if z in before {
      var i: nat :| DroppedAt(before, z, after, i);
      var all := [x] + before;
      assert all[i + 1] == z && all[..i + 1] == [x] + before[..i] && all[i + 2..] == before[i + 1..];
      assert DroppedAt(all, z, [x] + after, i + 1);
    }
  }

  lemma {:induction false} RemoveMeaning(list: seq<Ref>, z: Ref)
    ensures Dropped(list, z, Remove(list, z))
  {
    if list == [] {
    } else if list[0] == z {
      DroppedHead(list);
    } else {
      RemoveMeaning(list[1..], z);
      DroppedCons(list[0], list[1..], z, Remove(list[1..], z));
      assert list == [list[0]] + list[1..];
    }
  }

  /** Task `z`, a child of `p`, is gone from all records and lists; the others and their order are as before. */
  ghost predicate Buried(k: Sys, z: Ref, p: Ref, r: Sys) {
    && r == k.(tasks := r.tasks, run := r.run, kids := r.kids, parent := r.parent)
    && r.tasks.Keys == k.tasks.Keys - {z} && (forall u | u in r.tasks :: r.tasks[u] == k.tasks[u])
    && r.parent.Keys == k.parent.Keys - {z} && (forall u | u in r.parent :: r.parent[u] == k.parent[u])
    && Dropped(k.run, z, r.run)
    && p in k.kids && r.kids.Keys == k.kids.Keys - {z}
    && (forall q | q in r.kids :: if q == p then Dropped(k.kids[p], z, r.kids[p]) else r.kids[q] == k.kids[q])
  }

  lemma ReapMeaning(k: Sys, z: Ref)
    requires z in k.parent && k.parent[z] in k.kids
    ensures Buried(k, z, k.parent[z], Reap(k, z))
  {
    RemoveMeaning(k.run, z);
    RemoveMeaning(k.kids[k.parent[z]], z);
  }

  /** One pass of `wait` by the current task answered `a`. A pid and a code are those of its first dead child,
      which is then gone; else no child is dead and the caller sleeps; a childless caller other than init is
      turned away. */
  ghost predicate Waited(k: Sys, a: WaitResult, r: Sys)
    requires k.current in k.tasks && k.current in k.kids
  {
    var c := k.current;
    match a
    case Reaped(pid, code) =>
      exists i: nat :: i < |k.kids[c]| && DeadAs(k.tasks, k.kids[c][i], pid, code)
        && (forall j: nat | j < i :: !DeadNow(k.tasks, k.kids[c][j])) && Buried(k, k.kids[c][i], c, r)
    case Asleep =>
      && (forall z | z in k.kids[c] :: !DeadNow(k.tasks, z)) && (k.kids[c] != [] || c == k.init)
      && r == k.(tasks := r.tasks) && r.tasks.Keys == k.tasks.Keys
      && r.tasks[c] == k.tasks[c].(state := Blocked) && forall u | u in k.tasks && u != c :: r.tasks[u] == k.tasks[u]
    case NoChild => k.kids[c] == [] && c != k.init && r == k
  }

  predicate DeadNow(tasks: Tasks, z: Ref) { z in tasks && tasks[z].state == Zombie }

  predicate DeadAs(tasks: Tasks, z: Ref, pid: nat, code: int) {
    DeadNow(tasks, z) && tasks[z].pid == pid && tasks[z].exitCode == code
  }

  lemma WaitMeaning(k: Sys)
    requires k.current in k.tasks && k.current in k.kids
    requires forall c | c in k.kids[k.current] :: c in k.parent && k.parent[c] == k.current
    ensures Waited(k, WaitAnswer(k), WaitPass(k))
  {
    var list := k.kids[k.current];
    var j := FirstZombie(k.tasks, list);
    if j < |list| {
      ReapMeaning(k, list[j]);
      assert DeadAs(k.tasks, list[j], k.tasks[list[j]].pid, k.tasks[list[j]].exitCode);
    }
  }

  // ----- scheduling -----

  /** A task other than the current one is ready. */
  ghost predicate OtherReady(k: Sys) {
    exists t :: t in k.run && t != k.current && ReadyNow(k.tasks, t)
  }

  predicate ReadyNow(tasks: Tasks, t: Ref) { t in tasks && tasks[t].state == Runnable }

  /** Task `t` is the first ready one after the current one, going round the run list. */
  ghost predicate NextReady(k: Sys, t: Ref) {
    exists q: nat, j: nat :: q < |k.run| && j < |k.run| - 1 && NextReadyAt(k, t, q, j)
  }

  ghost predicate NextReadyAt(k: Sys, t: Ref, q: nat, j: nat)
    requires q < |k.run| && j < |k.run| - 1
  {
    && k.run[q] == k.current && k.run[After(q, j, |k.run|)] == t && ReadyNow(k.tasks, t)
    && forall i: nat | i < j :: !ReadyNow(k.tasks, k.run[After(q, i, |k.run|)])
  }

  /** The scheduler ran. A running task with time left keeps the CPU for one tick less. Else it keeps it, with
      a full slice, if no other task is ready; and else the next ready one runs, and the old one gets a
      full slice and is ready, unless it was not running any more. No other task changes. */
  ghost predicate Scheduled(k: Sys, r: Sys)
    requires k.current in k.tasks
  {
    var c, v := k.current, k.tasks[k.current];
    && r == k.(tasks := r.tasks, current := r.current, lap := r.lap) && r.tasks.Keys == k.tasks.Keys
    && r.current in r.tasks && LapCounted(k, r)
    && (forall t | t in k.tasks && t != c && t != r.current :: r.tasks[t] == k.tasks[t])
    && if v.state == Running && v.timeLeft > 1 then
         r.current == c && r.tasks[c] == v.(timeLeft := v.timeLeft - 1)
       else if !OtherReady(k) then
         r.current == c && r.tasks[c] == v.(timeLeft := v.quantum)
       else
         && r.current != c && NextReady(k, r.current)
         && r.tasks[r.current] == k.tasks[r.current].(state := Running)
         && r.tasks[c] == v.(timeLeft := v.quantum, state := if v.state == Running then Runnable else v.state)
  }

  /** The first task switched to is the anchor of the laps, and each later switch to it is a lap. */
  predicate LapCounted(k: Sys, r: Sys) {
    if r.current == k.current then r.lap == k.lap
    else r.lap == k.lap.(anchor := if k.lap.anchor == NONE then r.current else k.lap.anchor,
                         num := if k.lap.anchor == r.current != NONE then k.lap.num + 1 else k.lap.num)
  }

  lemma PickMeaning(k: Sys)
    requires NoDup(k.run) && k.current in k.run
    ensures if PickNext(k) == k.current then !OtherReady(k)
            else OtherReady(k) && PickNext(k) in k.run && NextReady(k, PickNext(k))
  {
    OthersFacts(k.run, k.current);
    OthersNoDup(k.run, k.current);
    var o := Others(k.run, k.current);
    var q, j := Index(k.run, k.current), FirstRunnable(k.tasks, o);
    if j < |o| {
      assert o[j] in o;
      forall i: nat | i <= j
        ensures k.run[After(q, i, |k.run|)] == o[i]
      {
        OthersAt(k.run, k.current, i);
      }
      assert NextReadyAt(k, o[j], q, j);
    } else {
      assert forall t | t in k.run && t != k.current :: t in o;
    }
  }

  /** What the scheduler does with the test hooks off. */
  lemma SwitchMeaning(k: Sys)
    requires NoDup(k.run) && k.current in k.run && k.current in k.tasks && k.tasks[k.current].timeLeft >= 1
    ensures Scheduled(k, Switch(k, false))
  {
    var v := k.tasks[k.current];
    PickMeaning(k);
    if PickNext(k) != k.current && !(v.state == Running && v.timeLeft > 1) { HandOverMeaning(k, PickNext(k)); }
  }

  lemma HandOverMeaning(k: Sys, next: Ref)
    requires k.current in k.tasks && next != k.current && OtherReady(k) && NextReady(k, next)
    requires !(k.tasks[k.current].state == Running && k.tasks[k.current].timeLeft > 1)
    requires next in k.tasks
    ensures Scheduled(k, Account(HandOver(k, next), next, false))
  {
  }

  // ----- the test hooks -----

  /** On lap 3, once, the hook blocks a task: the eligible one of highest pid. */
  ghost predicate Struck(k: Sys, next: Ref, r: Sys) {
    if k.lap.blocked || k.lap.num != 3 || forall t | t in k.run :: !Eligible(k, next, t) then r == k
    else exists t :: StruckAt(k, next, t, r)
  }

  /** A task that the hook may block: ready or running, and not the boot task, the anchor or `next`. */
  predicate Eligible(k: Sys, next: Ref, t: Ref) {
    t in k.tasks && t != next && t != k.lap.anchor && k.tasks[t].pid != 0
        && (k.tasks[t].state == Runnable || k.tasks[t].state == Running)
  }

  ghost predicate StruckAt(k: Sys, next: Ref, t: Ref, r: Sys) {
    && t in k.run && Eligible(k, next, t)
    && (forall u | u in k.run && Eligible(k, next, u) :: k.tasks[u].pid <= k.tasks[t].pid)
    && r == k.(tasks := k.tasks[t := k.tasks[t].(state := Blocked)], lap := k.lap.(blocked := true))
  }

  lemma StrikeMeaning(k: Sys, next: Ref)
    requires NONE !in k.run
    ensures Struck(k, next, BlockHook(k, next))
  {
    var t := Highest(k, next, k.run);
    if !k.lap.blocked && k.lap.num == 3 && t != NONE {
      assert StruckAt(k, next, t, BlockHook(k, next));
    }
  }

  /** On lap 4, once, every blocked task on the list is made ready. */
  ghost predicate Unstruck(k: Sys, r: Sys) {
    if k.lap.unblocked || k.lap.num != 4 then r == k
    else
      && r == k.(tasks := r.tasks, lap := k.lap.(unblocked := true)) && r.tasks.Keys == k.tasks.Keys
      && forall t | t in k.tasks ::
           if t in k.run && k.tasks[t].state == Blocked then r.tasks[t] == k.tasks[t].(state := Runnable)
           else r.tasks[t] == k.tasks[t]
  }

  lemma UnstrikeMeaning(k: Sys)
    ensures Unstruck(k, UnblockHook(k))
  {
  }

  /** The scheduler ran, and the hooks after it if they are on and a lap was completed. */
  ghost predicate Rescheduled(k: Sys, hooks: bool, r: Sys)
    requires k.current in k.tasks
  {
    exists m: Sys, n: Sys :: RescheduledBy(k, hooks, m, n, r)
  }

  ghost predicate RescheduledBy(k: Sys, hooks: bool, m: Sys, n: Sys, r: Sys)
    requires k.current in k.tasks
  {
    Scheduled(k, m) && if hooks && m.lap.num > k.lap.num then Struck(m, m.current, n) && Unstruck(n, r) else r == m
  }

  /** The hooks come last. */
  lemma HooksAfter(k: Sys, hooks: bool)
    requires k.current in k.tasks && k.tasks[k.current].timeLeft >= 1
    ensures var m := Switch(k, false);
            Switch(k, hooks) == if hooks && m.lap.num > k.lap.num then UnblockHook(BlockHook(m, m.current)) else m
  {
    var next := PickNext(k);
    if next != k.current { AccountHooks(HandOver(k, next), hooks); }
  }

  lemma AccountHooks(k: Sys, hooks: bool)
    ensures var m := Account(k, k.current, false);
            Account(k, k.current, hooks) ==
            if hooks && m.lap.num > k.lap.num then UnblockHook(BlockHook(m, m.current)) else m
  {
  }

  lemma RescheduleMeaning(k: Sys, hooks: bool)
    requires NoDup(k.run) && NONE !in k.run && k.current in k.run && k.current in k.tasks
    requires k.tasks[k.current].timeLeft >= 1
    ensures Rescheduled(k, hooks, Switch(k, hooks))
  {
    SwitchMeaning(k);
    var m := Switch(k, false);
    var n := BlockHook(m, m.current);
    StrikeMeaning(m, m.current);
    UnstrikeMeaning(n);
    HooksAfter(k, hooks);
    assert RescheduledBy(k, hooks, m, n, Switch(k, hooks));
  }

  /** A tick of the timer: the current task's signals are settled, then the scheduler runs. */
  ghost predicate Ticked(k: Sys, hooks: bool, r: Sys) {
    exists m: Sys :: TickedBy(k, hooks, m, r)
  }

  ghost predicate TickedBy(k: Sys, hooks: bool, m: Sys, r: Sys) {
    Settled(k, k.current, m) && m.current == k.current && m.current in m.tasks && Rescheduled(m, hooks, r)
  }

  lemma TickMeaning(k: Sys, hooks: bool)
    requires NoDup(k.run) && NONE !in k.run && k.current in k.run && k.current in k.tasks
    requires k.tasks[k.current].timeLeft >= 1 && Dispatchable(k, k.current, k.tasks[k.current].pending)
    ensures Ticked(k, hooks, Tick(k, hooks))
  {
    var m := Dispatch(k, k.current);
    DispatchSettles(k, k.current);
    RescheduleMeaning(m, hooks);
    assert TickedBy(k, hooks, m, Tick(k, hooks));
  }

  // ----- boot -----

  /** The boot task, pid 0, runs; kthreadd, pid 2, its child, sleeps and is not on the run list; the next pid is 3. */
  ghost predicate Booted(k: Sys) {
    && k.tasks.Keys == {INIT_TASK, KTHREADD} && k.run == [INIT_TASK] && k.current == INIT_TASK && k.counter == 2
    && Spawned(k.tasks[INIT_TASK].(state := Runnable), 0, false) && k.tasks[INIT_TASK].state == Running
    && Spawned(k.tasks[KTHREADD].(state := Runnable), 2, false) && k.tasks[KTHREADD].state == Blocked
    && k.kids == map[INIT_TASK := [KTHREADD], KTHREADD := []] && k.init == NONE && k.calls == []
    && k.parent == map[INIT_TASK := NONE, KTHREADD := INIT_TASK] && k.lap == Lap(NONE, 0, false, false)
  }
}
