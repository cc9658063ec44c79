/**
  What signal dispatch comes to, said without its loop, and what signals can never do.
 */
module Signals {
  import opened Bits
  import opened Process

  // ----- dispatch, declaratively -----

  /** The signal ends or stops the task. */
  predicate Halts(v: Task, s: nat)
    requires 1 <= s < NSIG
  {
    EffectOf(v, s) == Acts(Terminate) || EffectOf(v, s) == Acts(Stop)
  }

  /** The lowest signal of the snapshot, from `s` on, that ends or stops the task; 32 if none does. */
  function FirstHalt(v: Task, snap: Word, s: nat): (h: nat)
    requires 1 <= s <= 32
    ensures s <= h <= 32
    ensures h < 32 ==> Has(snap, h) && Halts(v, h)
    ensures forall i: nat | s <= i < h :: !(Has(snap, i) && Halts(v, i))
    decreases 32 - s
  {
    if s == 32 then 32 else if Has(snap, s) && Halts(v, s) then s else FirstHalt(v, snap, s + 1)
  }

  /** The kernel-handler calls for the signals in `[s, h)` of the snapshot, ascending. */
  function CallsFor(t: Ref, v: Task, snap: Word, s: nat, h: nat): (r: seq<Call>)
    requires 1 <= s <= h <= 32
    decreases h - s
  {
    if s == h then []
    else (if Has(snap, s) then CallOf(t, v, s) else []) + CallsFor(t, v, snap, s + 1, h)
  }

  /** After dispatch from `s` on: handled signals are gone, caught ones and those after the halting one stay. */
  ghost predicate PendingAfter(v: Task, snap: Word, s: nat, h: nat, w: Word)
    requires 1 <= s <= h <= 32
  {
    forall i: nat | 1 <= i < NSIG ::
      Has(w, i) == (Has(v.pending, i) && !(s <= i <= h && Has(snap, i) && EffectOf(v, i) != Caught))
  }

  /** The whole effect on the task of dispatching the snapshot from signal `s` on, `h` being the first halting one. */
  ghost predicate Dispatched(t: Ref, v: Task, snap: Word, s: nat, w: Task)
    requires 1 <= s <= 32
  {
    var h := FirstHalt(v, snap, s);
    && PendingAfter(v, snap, s, h, w.pending)
    && w.state == (if h == 32 then v.state else if EffectOf(v, h) == Acts(Stop) then Stopped else Zombie)
    && w.exitCode == (if h < 32 && EffectOf(v, h) == Acts(Terminate) then 128 + h else v.exitCode)
  }

  /** What the loop body does to the task. */
  function Outcome(v: Task, s: nat): (w: Task)
    requires 1 <= s < NSIG
  {
    if EffectOf(v, s) == Acts(Terminate) then Handled(v, s).(state := Zombie, exitCode := 128 + s) else Handled(v, s)
  }

  /** A signal that does not halt, then the rest. */
  lemma HandledThen(t: Ref, v: Task, s: nat, w: Task, snap: Word, x: Task)
    requires 1 <= s < NSIG && Has(snap, s) && !Halted(v) && !Halts(v, s) && w == Outcome(v, s)
    requires Dispatched(t, w, snap, s + 1, x)
    ensures Dispatched(t, v, snap, s, x)
  {
    SameEffects(v, w, snap, s + 1);
    var h := FirstHalt(v, snap, s);
    forall i: nat | 1 <= i < NSIG
      ensures Has(x.pending, i) == (Has(v.pending, i) && !(s <= i <= h && Has(snap, i) && EffectOf(v, i) != Caught))
    {
      assert EffectOf(w, i) == EffectOf(v, i);
    }
  }

  /** A signal that halts ends it. */
  lemma HandledLast(t: Ref, v: Task, s: nat, w: Task, snap: Word)
    requires 1 <= s < NSIG && Has(snap, s) && !Halted(v) && Halts(v, s) && w == Outcome(v, s)
    ensures Dispatched(t, v, snap, s, w) && CallsFor(t, v, snap, s, FirstHalt(v, snap, s)) == []
  {
  }

  lemma SkippedThen(t: Ref, v: Task, s: nat, snap: Word, x: Task)
    requires 1 <= s < NSIG && !Has(snap, s) && Dispatched(t, v, snap, s + 1, x)
    ensures Dispatched(t, v, snap, s, x)
    ensures CallsFor(t, v, snap, s, FirstHalt(v, snap, s)) == CallsFor(t, v, snap, s + 1, FirstHalt(v, snap, s + 1))
  {
  }

  /** Dispatch handles the snapshot in ascending order, up to and including the first signal that
      halts the task; the handlers it runs are those a kernel task caught, in the same order. */
  lemma {:induction false} DispatchMeaning(k: Sys, t: Ref, snap: Word, s: nat, r: Sys)
    requires 1 <= s <= 32 && Dispatchable(k, t, snap) && !Halted(k.tasks[t]) && r == DispatchFrom(k, t, snap, s)
    ensures t in r.tasks && Dispatched(t, k.tasks[t], snap, s, r.tasks[t])
    ensures r.calls == k.calls + CallsFor(t, k.tasks[t], snap, s, FirstHalt(k.tasks[t], snap, s))
    decreases 32 - s
  {
    var v := k.tasks[t];
    if s == 32 {
    } else if !Has(snap, s) {
      DispatchMeaning(k, t, snap, s + 1, r);
      SkippedThen(t, v, s, snap, r.tasks[t]);
    } else {
      HandleKeeps(k, t, snap, s);
      var k1 := Handle(k, t, s);
      if Halts(v, s) {
        HaltedStops(k1, t, snap, s + 1);
        HandledLast(t, v, s, k1.tasks[t], snap);
      } else {
        DispatchMeaning(k1, t, snap, s + 1, r);
        HandledThen(t, v, s, k1.tasks[t], snap, r.tasks[t]);
        CallsThen(t, v, s, k1.tasks[t], snap, k.calls, k1.calls);
      }
    }
  }

  lemma CallsThen(t: Ref, v: Task, s: nat, w: Task, snap: Word, calls: seq<Call>, calls1: seq<Call>)
    requires 1 <= s < NSIG && Has(snap, s) && !Halted(v) && !Halts(v, s) && w == Outcome(v, s)
    requires calls1 == calls + CallOf(t, v, s)
    ensures calls1 + CallsFor(t, w, snap, s + 1, FirstHalt(w, snap, s + 1))
            == calls + CallsFor(t, v, snap, s, FirstHalt(v, snap, s))
  {
    var h := FirstHalt(v, snap, s + 1);
    SameEffects(v, w, snap, s + 1);
    SameCalls(t, v, w, snap, s + 1, h);
    assert FirstHalt(v, snap, s) == h;
    assert CallsFor(t, v, snap, s, h) == CallOf(t, v, s) + CallsFor(t, v, snap, s + 1, h);
    assert calls + CallOf(t, v, s) + CallsFor(t, v, snap, s + 1, h)
        == calls + (CallOf(t, v, s) + CallsFor(t, v, snap, s + 1, h));
  }

  lemma {:induction false} HaltedStops(k: Sys, t: Ref, snap: Word, s: nat)
    requires 1 <= s <= 32 && t in k.tasks && Halted(k.tasks[t])
    ensures DispatchFrom(k, t, snap, s) == k
    decreases 32 - s
  {
    if s < 32 { HaltedStops(k, t, snap, s + 1); }
  }

  lemma {:induction false} SameEffects(v: Task, w: Task, snap: Word, s: nat)
    requires 1 <= s <= 32 && w.handlers == v.handlers && w.user == v.user
    ensures FirstHalt(w, snap, s) == FirstHalt(v, snap, s)
    decreases 32 - s
  {
    if s < 32 { SameEffects(v, w, snap, s + 1); }
  }

  lemma {:induction false} SameCalls(t: Ref, v: Task, w: Task, snap: Word, s: nat, h: nat)
    requires 1 <= s <= h <= 32 && w.handlers == v.handlers && w.user == v.user
    ensures CallsFor(t, w, snap, s, h) == CallsFor(t, v, snap, s, h)
    decreases h - s
  {
    if s < h { SameCalls(t, v, w, snap, s + 1, h); }
  }

  /** SIGKILL cannot be escaped: a task with it pending that is neither dead nor stopped ends in
      this dispatch, with the code of the lowest terminating signal, which is at most SIGKILL. */
  lemma KillAlwaysKills(k: Sys, t: Ref)
    requires t in k.tasks && Dispatchable(k, t, k.tasks[t].pending) && !Halted(k.tasks[t])
    requires Has(k.tasks[t].pending, SIGKILL)
    ensures var r, h := Dispatch(k, t), FirstHalt(k.tasks[t], k.tasks[t].pending, 1);
            && h <= SIGKILL && EffectOf(k.tasks[t], h) == Acts(Terminate)
            && r.tasks[t].state == Zombie && r.tasks[t].exitCode == 128 + h
  {
    DispatchMeaning(k, t, k.tasks[t].pending, 1, Dispatch(k, t));
  }
}
