/**
  Frame conservation across whole life cycles: fork then teardown, image then teardown, and the
  memory side of `spawn_user`, `task_fork` and `task_reap`. A failed spawn gives every frame back;
  a failed fork does so exactly when at most two frames were free.
 */
module Spawn {
  import opened FrameBitmap
  import opened PageTables
  import opened AddressSpaces
  import opened ForkCopying
  import opened Teardown
  import opened UserImage

  /** A child that is copied and later torn down leaves exactly the free frames there were. */
  method ForkThenTeardown(mc: Machine, ghost w0: World, c: nat) returns (ok: bool, ghost w: World)
    requires mc.frames.Valid() && System(mc.mem, w0, mc.Free())
    requires mc.cr3 in w0.dirs && c in w0.dirs && c != mc.cr3
    requires forall k: nat | UserIndex(k) :: c < TOTAL && !HasTable(mc.mem, c, k)
    modifies mc`mem, mc.frames.bitmap
    ensures mc.frames.Valid() && mc.Free() == old(mc.Free()) && w == w0 && System(mc.mem, w0, mc.Free())
  {
    ghost var free0 := mc.Free();
    ok, w := ForkCopy(mc, w0, c);
    ghost var w1, free1 := w, mc.Free();
    w := ProcTeardown(mc, w1, c);
    GrownThenDropped(w0, w1, free0, free1, c);
  }

  lemma GrownThenDropped(w0: World, w: World, free0: set<nat>, free: set<nat>, c: nat)
    requires Grown(w0, w, free0, free, c) && w0.own.Keys !! free0 && Bare(w0, c)
    ensures Owned(w, c) == free0 - free && free + Owned(w, c) == free0
    ensures w.(own := w.own - Owned(w, c)) == w0
  {
    assert Owned(w, c) == free0 - free;
    assert w.own - Owned(w, c) == w0.own;
  }

  /** Loading an image, whether it succeeds or fails half-way, and tearing down restores the free frames. */
  method LoadThenTeardown(mc: Machine, ghost w0: World, c: nat, img: seq<Byte>) returns (ok: bool, ghost w: World)
    requires mc.frames.Valid() && System(mc.mem, w0, mc.Free()) && mc.cr3 in w0.dirs && c in w0.dirs && c != mc.cr3
    requires forall k: nat | UserIndex(k) :: c < TOTAL && !HasTable(mc.mem, c, k)
    modifies mc`mem, mc.frames.bitmap
    ensures mc.frames.Valid() && mc.Free() == old(mc.Free()) && w == w0 && System(mc.mem, w0, mc.Free())
  {
    ghost var free0 := mc.Free();
    ok, w := LoadUserImage(mc, w0, c, img);
    ghost var w1, free1 := w, mc.Free();
    w := ProcTeardown(mc, w1, c);
    GrownThenDropped(w0, w1, free0, free1, c);
  }

  // ----- kernel stacks -----

  /** The kernel-stack ledger without what is mapped at `slot`. */
  ghost function Without(stack: map<nat, nat>, slot: nat): (r: map<nat, nat>) {
    map f | f in stack && stack[f] != slot :: stack[f]
  }

  /** Frame `f` mapped at `slot`, in place of whatever was there. */
  ghost function Stacked(w: World, slot: nat, f: nat): (r: World) {
    w.(stack := Without(w.stack, slot)[f := slot])
  }

  ghost function Unstacked(w: World, f: nat): (r: World) {
    w.(stack := w.stack - {f})
  }

  /** A free frame becomes a kernel-stack page: it is neither free nor owned, and only its slot names it. */
  lemma KeepOnStack(m: Memory, w: World, free: set<nat>, d: nat, slot: nat, f: nat)
    requires System(m, w, free) && d in w.dirs && slot < 1024 && !ScratchSlot(slot) && f in free
    ensures HasTable(m, d, KSTACK_PDI) && Table(m, d, KSTACK_PDI) == Frame(w.kstack) < TOTAL
    ensures System(WithPte(m, d, KSTACK_PDI, slot, Entry(f, PRESENT + RW)), Stacked(w, slot, f), free - {f})
  {
    assert Space(m, w, free, d);
    var m', w' := WithPte(m, d, KSTACK_PDI, slot, Entry(f, PRESENT + RW)), Stacked(w, slot, f);
    StackSpaces(m, m', w, w', free, free - {f});
    KeepLedger(m, m', w, free);
    StackApart(m, m', w, w', free, free - {f}, slot);
  }

  /** A kernel-stack page is unmapped and freed. */
  lemma KeepOnUnstack(m: Memory, w: World, free: set<nat>, d: nat, f: nat)
    requires System(m, w, free) && d in w.dirs && f in w.stack && w.stack[f] < 1024
    ensures HasTable(m, d, KSTACK_PDI) && Table(m, d, KSTACK_PDI) == Frame(w.kstack) < TOTAL
    ensures System(WithPte(m, d, KSTACK_PDI, w.stack[f], NIL), Unstacked(w, f), free + {f})
  {
    assert Space(m, w, free, d);
    var m', w' := WithPte(m, d, KSTACK_PDI, w.stack[f], NIL), Unstacked(w, f);
    StackSpaces(m, m', w, w', free, free + {f});
    KeepLedger(m, m', w, free);
    StackApart(m, m', w, w', free, free + {f}, w.stack[f]);
  }

  /** One entry of the kernel-stack table changes, and one frame moves between free and stack. */
  ghost predicate Moved(m: Memory, m': Memory, w: World, w': World, free: set<nat>, free': set<nat>) {
    && w' == w.(stack := w'.stack) && Frame(w.kstack) < TOTAL
    && (forall g: nat | g < TOTAL && g != Frame(w.kstack) :: m'[g] == m[g])
    && (forall f | f in w'.stack || f in free' :: f in w.stack || f in free)
  }

  lemma StackSpaces(m: Memory, m': Memory, w: World, w': World, free: set<nat>, free': set<nat>)
    requires System(m, w, free) && Moved(m, m', w, w', free, free')
    ensures (forall d | d in w.dirs :: m'[d] == m[d] && Space(m', w', free', d)) && Shared(m', w', free')
  {
    forall d | d in w.dirs
      ensures m'[d] == m[d] && Space(m', w', free', d)
    {
      assert Space(m, w, free, d);
      SameDirectory(m, m', d);
      assert forall i: nat | i < 1024 :: HasTable(m', d, i) == HasTable(m, d, i) && Table(m', d, i) == Table(m, d, i);
    }
  }

  /** Every other kernel page is translated as before. */
  lemma StackWalk(m: Memory, m': Memory, w: World, free: set<nat>, d: nat, i: nat, j: nat, slot: nat)
    requires Space(m, w, free, d) && KernelPage(i, j) && slot < 1024 && !(i == KSTACK_PDI && j == slot)
    requires Frame(w.kstack) < TOTAL && (forall g: nat | g < TOTAL && g != Frame(w.kstack) :: m'[g] == m[g])
    requires m'[d] == m[d]
    requires forall s: nat | s < 1024 && s != slot :: m'[Frame(w.kstack)][s] == m[Frame(w.kstack)][s]
    ensures Walk(m', d, i, j) == Walk(m, d, i, j)
  {
    if HasTable(m, d, i) {
      assert Table(m, d, i) == Frame(w.kstack) ==> i == KSTACK_PDI;
    }
  }

  lemma StackApart(m: Memory, m': Memory, w: World, w': World, free: set<nat>, free': set<nat>, slot: nat)
    requires System(m, w, free) && Moved(m, m', w, w', free, free') && slot < 1024 && !ScratchSlot(slot)
    requires forall s: nat | s < 1024 && s != slot :: m'[Frame(w.kstack)][s] == m[Frame(w.kstack)][s]
    requires forall d | d in w.dirs :: m'[d] == m[d]
    requires w'.stack.Keys !! free'
    requires forall f | f in w'.stack ::
             if f in free then w'.stack[f] == slot && m'[Frame(w.kstack)][slot] == Entry(f, PRESENT + RW)
                                         else w'.stack[f] == w.stack[f] != slot
    requires Present(m'[Frame(w.kstack)][slot]) ==>
             Frame(m'[Frame(w.kstack)][slot]) in w'.stack && Frame(m'[Frame(w.kstack)][slot]) in free
    requires forall f | f in free' && f !in free :: w.stack[f] == slot
    ensures KernelApart(m', w', free') && Stacks(m', w', free')
  {
    forall d: nat, i: nat, j: nat | d in w.dirs && KernelEntry(m', d, i, j)
      ensures var f := Frame(Walk(m', d, i, j));
              f !in w.own && f !in free' && (f in w'.stack ==> i == KSTACK_PDI && j == w'.stack[f])
    {
      assert Space(m, w, free, d);
      if i == KSTACK_PDI && j == slot {
        assert Walk(m', d, i, j) == m'[Frame(w.kstack)][slot];
      } else {
        StackWalk(m, m', w, free, d, i, j, slot);
        assert KernelEntry(m, d, i, j);
      }
    }
  }

  /** A kernel-stack frame is seen at its slot, and is no table of a directory. */
  lemma StackSeen(m: Memory, w: World, free: set<nat>, p: nat, f: nat)
    requires System(m, w, free) && p in w.dirs && f in w.stack
    ensures Directory(m, p) && w.stack[f] < 1024 && RESERVED <= f < TOTAL && f !in free && f !in w.own
    ensures Walk(m, p, KSTACK_PDI, w.stack[f]) == Entry(f, PRESENT + RW)
    ensures Accessible(m, p, KSTACK_PDI, w.stack[f]) && Frame(Walk(m, p, KSTACK_PDI, w.stack[f])) == f
    ensures !Reads(m, p, f)
  {
    assert Space(m, w, free, p);
    forall k: nat | k < SELF && HasTable(m, p, k)
      ensures Table(m, p, k) != f
    {
      if UserIndex(k) {
        assert Live(m, TableRef(p, k));
      }
    }
  }

  /** One kernel-stack page: `alloc_page` at page `slot` of the kernel-stack table. */
  method AllocStackPage(mc: Machine, ghost w0: World, slot: nat) returns (ok: bool, ghost f: nat, ghost w: World)
    requires mc.frames.Valid() && System(mc.mem, w0, mc.Free()) && mc.cr3 in w0.dirs && slot < 512
    modifies mc`mem, mc.frames.bitmap
    ensures mc.frames.Valid() && System(mc.mem, w, mc.Free()) && ok == (old(mc.Free()) != {})
    ensures !ok ==> mc.mem == old(mc.mem) && mc.Free() == old(mc.Free()) && w == w0
    ensures ok ==> && f in old(mc.Free()) && mc.Free() == old(mc.Free()) - {f} && w == Stacked(w0, slot, f)
                   && Frame(w0.kstack) < TOTAL
                       && mc.mem == WithWord(old(mc.mem), Frame(w0.kstack), slot, Entry(f, PRESENT + RW))
  {
    FreeIsUnread(mc.mem, w0, mc.Free(), mc.cr3);
    ghost var m, free, p := mc.mem, mc.Free(), mc.cr3;
    w := w0;
    ok, f := MapStackPage(mc, slot);
    if ok {
      w := Stacked(w0, slot, f);
      KeepOnStack(m, w0, free, p, slot, f);
    }
  }

  /** `alloc_page` in a table that exists. */
  method MapStackPage(mc: Machine, slot: nat) returns (ok: bool, ghost f: nat)
    requires mc.Valid() && HasTable(mc.mem, mc.cr3, KSTACK_PDI) && slot < 1024
    modifies mc`mem, mc.frames.bitmap
    ensures mc.frames.Valid() && ok == (old(mc.Free()) != {})
    ensures !ok ==> mc.mem == old(mc.mem) && mc.Free() == old(mc.Free())
    ensures ok ==> && f in old(mc.Free()) && mc.Free() == old(mc.Free()) - {f}
                   && Table(old(mc.mem), mc.cr3, KSTACK_PDI) < TOTAL
                   && mc.mem == WithPte(old(mc.mem), mc.cr3, KSTACK_PDI, slot, Entry(f, PRESENT + RW))
  {
    StackPage(slot);
    f := if mc.Free() == {} then 0 else Lowest(mc.Free());
    ok := mc.AllocPage(KSTACK_BASE + slot * 4096, PRESENT + RW);
  }

  /** `free_page` on a kernel-stack page. */
  method FreeStackPage(mc: Machine, ghost w: World, slot: nat, ghost f: nat)
    requires mc.frames.Valid() && System(mc.mem, w, mc.Free()) && mc.cr3 in w.dirs && slot < 512
    requires f in w.stack && w.stack[f] == slot
    modifies mc`mem, mc.frames.bitmap
    ensures mc.frames.Valid() && mc.Free() == old(mc.Free()) + {f} && System(mc.mem, Unstacked(w, f), mc.Free())
    ensures Frame(w.kstack) < TOTAL && mc.mem == WithWord(old(mc.mem), Frame(w.kstack), slot, NIL)
  {
    ghost var m, free, p := mc.mem, mc.Free(), mc.cr3;
    FreeIsUnread(m, w, free, p);
    StackSeen(m, w, free, p, f);
    StackPage(slot);
    mc.FreePage(KSTACK_BASE + slot * 4096);
    KeepOnUnstack(m, w, free, p, f);
  }

  /** The two kernel-stack pages of `pid` are `f0` and `f1`. */
  ghost predicate HasStack(w: World, pid: nat, f0: nat, f1: nat) {
    && pid < 128 && f0 in w.stack && w.stack[f0] == 2 * pid && f1 in w.stack && w.stack[f1] == 2 * pid + 1
  }

  /** No frame is mapped at the kernel-stack pages of `pid`. */
  ghost predicate SlotsFree(w: World, pid: nat) {
    forall f | f in w.stack :: w.stack[f] != 2 * pid && w.stack[f] != 2 * pid + 1
  }

  /** Memory as before, outside the frames of `mine`, the scratch entries and the stack entries of `pid`. */
  ghost predicate Framed(m0: Memory, m: Memory, mine: set<nat>, kt: nat, pid: nat) {
    && kt < TOTAL && (forall f: nat | f < TOTAL && f !in mine && f != kt :: m[f] == m0[f])
    && (forall s: nat | s < 1024 && !ScratchSlot(s) && s != 2 * pid && s != 2 * pid + 1 :: m[kt][s] == m0[kt][s])
  }

  /** No scratch page is left mapped, on success or when none was mapped before. */
  ghost predicate Tidy(m0: Memory, m: Memory, kt: nat, ok: bool) {
    kt < TOTAL && (ok || ScratchClear(m0, kt) ==> ScratchClear(m, kt))
  }

  lemma TidyTrans(m0: Memory, m1: Memory, m2: Memory, kt: nat, ok: bool)
    requires Tidy(m0, m1, kt, false) && Tidy(m1, m2, kt, ok)
    ensures Tidy(m0, m2, kt, ok)
  {
  }

  lemma TidyStack(m0: Memory, m: Memory, kt: nat, pid: nat)
    requires StackEntriesOnly(m0, m, kt, pid) && pid < 128
    ensures Tidy(m0, m, kt, false)
  {
  }

  lemma TidySame(m0: Memory, m: Memory, kt: nat)
    requires kt < TOTAL && (m[kt] == m0[kt] || m[kt] == m0[kt][SCRATCH_TABLE := NIL])
    ensures Tidy(m0, m, kt, false)
  {
  }

  /** Only the stack entries of `pid` changed. */
  ghost predicate StackEntriesOnly(m0: Memory, m: Memory, kt: nat, pid: nat) {
    && kt < TOTAL && (forall f: nat | f < TOTAL && f != kt :: m[f] == m0[f])
    && (forall s: nat | s < 1024 && s != 2 * pid && s != 2 * pid + 1 :: m[kt][s] == m0[kt][s])
  }

  /** The kernel stack of a new process: both pages, or none. */
  method AllocStack(mc: Machine, ghost w0: World, pid: nat)
    returns (ok: bool, ghost f0: nat, ghost f1: nat, ghost w: World)
    requires mc.frames.Valid() && System(mc.mem, w0, mc.Free()) && mc.cr3 in w0.dirs && pid < 128
    modifies mc`mem, mc.frames.bitmap
    ensures mc.frames.Valid() && System(mc.mem, w, mc.Free()) && w == w0.(stack := w.stack)
    ensures ok == (|old(mc.Free())| >= 2)
    ensures StackEntriesOnly(old(mc.mem), mc.mem, Frame(w0.kstack), pid)
    ensures !ok ==> mc.Free() == old(mc.Free()) && (SlotsFree(w0, pid) ==> w == w0)
    ensures ok ==> StackTaken(old(mc.mem), mc.mem, w0, w, old(mc.Free()), mc.Free(), pid, f0, f1)
  {
    ghost var free := mc.Free();
    ok, f0, f1, w := StackPages(mc, w0, pid);
    if ok { Pair(free, f0, f1); } else { AtMostOneSize(free); }
  }

  /** The two `alloc_page` calls. */
  method StackPages(mc: Machine, ghost w0: World, pid: nat)
    returns (ok: bool, ghost f0: nat, ghost f1: nat, ghost w: World)
    requires mc.frames.Valid() && System(mc.mem, w0, mc.Free()) && mc.cr3 in w0.dirs && pid < 128
    modifies mc`mem, mc.frames.bitmap
    ensures mc.frames.Valid() && System(mc.mem, w, mc.Free()) && w == w0.(stack := w.stack)
    ensures StackEntriesOnly(old(mc.mem), mc.mem, Frame(w0.kstack), pid)
    ensures !ok ==> mc.Free() == old(mc.Free()) && AtMostOne(mc.Free()) && (SlotsFree(w0, pid) ==> w == w0)
    ensures ok ==> StackTaken(old(mc.mem), mc.mem, w0, w, old(mc.Free()), mc.Free(), pid, f0, f1)
  {
    ghost var m, free, kt := mc.mem, mc.Free(), Frame(w0.kstack);
    FreeNotStacked(m, w0, free);
    ok, f0, w := AllocStackPage(mc, w0, 2 * pid);
    f1 := f0;
    if !ok { return; }
    ghost var m1 := mc.mem;
    StackEntryWritten(m, kt, 2 * pid, Entry(f0, PRESENT + RW), pid);
    ok, f1, w := SecondStackPage(mc, w0, pid, f0);
    StackEntriesTrans(m, m1, mc.mem, kt, pid);
    OneOff(free, f0, f1);
  }

  lemma FreeNotStacked(m: Memory, w: World, free: set<nat>)
    requires System(m, w, free)
    ensures Frame(w.kstack) < TOTAL && (forall f | f in free :: f !in w.stack && f < TOTAL)
  {
  }

  lemma StackEntryWritten(m: Memory, kt: nat, slot: nat, e: Word, pid: nat)
    requires kt < TOTAL && slot < 1024 && (slot == 2 * pid || slot == 2 * pid + 1)
    ensures StackEntriesOnly(m, WithWord(m, kt, slot, e), kt, pid)
  {
  }

  lemma OneOff(free: set<nat>, f0: nat, f1: nat)
    requires f0 in free
    ensures free - {f0} - {f1} == free - {f0, f1} && free - {f0} + {f0} == free
    ensures free - {f0} == {} ==> AtMostOne(free)
  {
    if free - {f0} == {} {
      assert forall f | f in free :: f == f0 || f in free - {f0};
    }
  }

  ghost predicate AtMostOne(s: set<nat>) { forall f, g | f in s && g in s :: f == g }

  lemma AtMostOneSize(s: set<nat>)
    requires AtMostOne(s)
    ensures |s| < 2
  {
    if f :| f in s {
      assert s == {f};
    }
  }

  lemma StackEntriesTrans(m0: Memory, m1: Memory, m2: Memory, kt: nat, pid: nat)
    requires StackEntriesOnly(m0, m1, kt, pid) && StackEntriesOnly(m1, m2, kt, pid)
    ensures StackEntriesOnly(m0, m2, kt, pid)
  {
  }

  /** The second page; when it cannot be had the first one goes back. */
  method SecondStackPage(mc: Machine, ghost w0: World, pid: nat, ghost f0: nat)
      returns (ok: bool, ghost f1: nat, ghost w: World)
    requires mc.frames.Valid() && pid < 128 && System(mc.mem, Stacked(w0, 2 * pid, f0), mc.Free()) && mc.cr3 in w0.dirs
    requires f0 !in w0.stack && forall f | f in mc.Free() :: f !in w0.stack
    modifies mc`mem, mc.frames.bitmap
    ensures mc.frames.Valid() && System(mc.mem, w, mc.Free()) && w == w0.(stack := w.stack)
    ensures ok == (old(mc.Free()) != {})
    ensures StackEntriesOnly(old(mc.mem), mc.mem, Frame(w0.kstack), pid)
    ensures !ok ==> mc.Free() == old(mc.Free()) + {f0} && (SlotsFree(w0, pid) ==> w == w0)
    ensures ok ==> && f1 in old(mc.Free()) && f1 != f0 && mc.Free() == old(mc.Free()) - {f1}
                   && w == Stacked(Stacked(w0, 2 * pid, f0), 2 * pid + 1, f1) && HasStack(w, pid, f0, f1)
  {
    ghost var m, w1, kt := mc.mem, Stacked(w0, 2 * pid, f0), Frame(w0.kstack);
    FreeNotStacked(m, w1, mc.Free());
    ok, f1, w := AllocStackPage(mc, w1, 2 * pid + 1);
    if !ok {
      FreeStackPage(mc, w1, 2 * pid, f0);
      w := Unstacked(w1, f0);
      StackedBack(w0, 2 * pid, f0);
      StackEntryWritten(m, kt, 2 * pid, NIL, pid);
    } else {
      StackedTwice(w0, pid, f0, f1);
      StackEntryWritten(m, kt, 2 * pid + 1, Entry(f1, PRESENT + RW), pid);
    }
  }

  lemma LessOne(free: set<nat>, f: nat)
    requires f in free
    ensures |free - {f}| == |free| - 1 && (free - {f} == {} <==> |free| == 1) && (free - {f}) + {f} == free
  {
  }

  lemma StackedBack(w: World, slot: nat, f: nat)
    requires f !in w.stack
    ensures Unstacked(Stacked(w, slot, f), f).stack == Without(w.stack, slot)
    ensures (forall g | g in w.stack :: w.stack[g] != slot) ==> Unstacked(Stacked(w, slot, f), f) == w
  {
    assert Unstacked(Stacked(w, slot, f), f).stack == Without(w.stack, slot);
  }

  lemma StackedTwice(w: World, pid: nat, f0: nat, f1: nat)
    requires pid < 128 && f0 !in w.stack && f1 !in w.stack && f0 != f1
    ensures var w' := Stacked(Stacked(w, 2 * pid, f0), 2 * pid + 1, f1);
            HasStack(w', pid, f0, f1) && (SlotsFree(w, pid) ==> Unstacked(Unstacked(w', f0), f1) == w)
  {
    var w' := Stacked(Stacked(w, 2 * pid, f0), 2 * pid + 1, f1);
    if SlotsFree(w, pid) {
      assert Unstacked(Unstacked(w', f0), f1).stack == w.stack;
    }
  }

  /** Frees the two kernel-stack pages of a process. */
  method FreeStack(mc: Machine, ghost w: World, pid: nat, ghost f0: nat, ghost f1: nat)
    requires mc.frames.Valid() && System(mc.mem, w, mc.Free()) && mc.cr3 in w.dirs && HasStack(w, pid, f0, f1)
    modifies mc`mem, mc.frames.bitmap
    ensures mc.frames.Valid() && mc.Free() == old(mc.Free()) + {f0, f1}
    ensures System(mc.mem, Unstacked(Unstacked(w, f0), f1), mc.Free())
    ensures StackEntriesOnly(old(mc.mem), mc.mem, Frame(w.kstack), pid)
  {
    ghost var free := mc.Free();
    FreeStackPage(mc, w, 2 * pid, f0);
    FreeStackPage(mc, Unstacked(w, f0), 2 * pid + 1, f1);
    assert free + {f0} + {f1} == free + {f0, f1};
  }

  // ----- directories that go out of use -----

  /** Directory `c` out of use, with whatever hangs below it. */
  ghost function Forgotten(w: World, c: nat): (r: World) {
    w.(dirs := w.dirs - {c}, own := w.own - Owned(w, c))
  }

  /** A directory can go out of use at any time: its frames are then nobody's, and not free either. */
  lemma KeepOnForget(m: Memory, w: World, free: set<nat>, c: nat)
    requires System(m, w, free)
    ensures System(m, Forgotten(w, c), free)
  {
    var w' := Forgotten(w, c);
    forall d | d in w'.dirs
      ensures Space(m, w', free, d)
    {
      assert Space(m, w, free, d);
    }
    ForgetLedger(m, w, c);
    assert KernelApart(m, w', free);
  }

  lemma ForgetLedger(m: Memory, w: World, c: nat)
    requires Ledger(m, w)
    ensures Ledger(m, Forgotten(w, c))
  {
    forall r | UserRef(w.dirs - {c}, r) && Live(m, r)
      ensures Target(m, r) in Forgotten(w, c).own
    {
      assert UserRef(w.dirs, r);
    }
  }

  /** Frames can be taken away from the free ones. */
  lemma KeepOnTake(m: Memory, w: World, free: set<nat>, rest: set<nat>)
    requires System(m, w, free) && rest <= free
    ensures System(m, w, rest)
  {
    forall d | d in w.dirs
      ensures Space(m, w, rest, d)
    {
      assert Space(m, w, free, d);
    }
    assert KernelApart(m, w, rest);
  }

  /** Stack pages and directory given up, the ledger is what it was. */
  lemma WorldBack(w0: World, w: World, free: set<nat>, free': set<nat>, c: nat, pid: nat, f0: nat, f1: nat)
    requires pid < 128 && f0 !in w0.stack && f1 !in w0.stack && f0 != f1 && c !in w0.dirs
    requires var w1 := Stacked(Stacked(w0, 2 * pid, f0), 2 * pid + 1, f1);
             Bare(w0, c) && Grown(w1.(dirs := w1.dirs + {c}), w, free, free', c) && w1.own.Keys !! free
    ensures Restored(w0, Forgotten(Unstacked(Unstacked(w, f0), f1), c), pid)
  {
    StackedTwice(w0, pid, f0, f1);
    var w1 := Stacked(Stacked(w0, 2 * pid, f0), 2 * pid + 1, f1);
    GrownThenDropped(w1.(dirs := w1.dirs + {c}), w, free, free', c);
    var w2 := Unstacked(Unstacked(w, f0), f1);
    assert w2.own - Owned(w2, c) == w0.own by { assert Owned(w2, c) == Owned(w, c); }
    assert w2.dirs - {c} == w0.dirs;
  }

  // ----- spawn_user -----

  /** The address space of a new process: `paging_proc_init`, then the image. */
  method SpaceAndImage(mc: Machine, ghost w1: World, pd0: nat, c: nat, img: seq<Byte>)
      returns (ok: bool, ghost w: World)
    requires mc.frames.Valid() && System(mc.mem, w1, mc.Free())
    requires mc.cr3 in w1.dirs && pd0 in w1.dirs && c in w1.pds && c !in w1.dirs
    modifies mc`mem, mc.frames.bitmap
    ensures mc.frames.Valid() && System(mc.mem, w, mc.Free())
    ensures Bare(w1, c) && Grown(w1.(dirs := w1.dirs + {c}), w, old(mc.Free()), mc.Free(), c)
    ensures Untouched(old(mc.mem), mc.mem, old(mc.Free()) + {c}, Frame(w1.kstack))
    ensures Tidy(old(mc.mem), mc.mem, Frame(w1.kstack), ok)
    ensures ok == (0 < |img| <= 4096 && |old(mc.Free())| >= 4)
    ensures ok ==> Loaded(mc.mem, c, img) && |Owned(w, c)| == 4
  {
    ghost var m, free := mc.mem, mc.Free();
    ProcInit(mc, w1, pd0, c);
    ghost var m1 := mc.mem;
    TidySame(m, m1, Frame(w1.kstack));
    ok, w := LoadUserImage(mc, w1.(dirs := w1.dirs + {c}), c, img);
    UntouchedThen(m, m1, mc.mem, free, c, Frame(w1.kstack));
    TidyTrans(m, m1, mc.mem, Frame(w1.kstack), ok);
  }

  lemma UntouchedThen(m0: Memory, m1: Memory, m2: Memory, free: set<nat>, c: nat, kt: nat)
    requires Untouched(m0, m1, {c}, kt) && Untouched(m1, m2, free + {c}, kt)
    ensures Untouched(m0, m2, free + {c}, kt)
  {
  }

  /** Gives back the stack pages of a process and all that its directory owns: the failure path of
      `spawn_user` once the stack pages are there, and the memory side of `task_reap`. */
  method ReapMemory(mc: Machine, ghost w: World, c: nat, pid: nat, ghost f0: nat, ghost f1: nat)
    requires mc.frames.Valid() && System(mc.mem, w, mc.Free()) && mc.cr3 in w.dirs && c in w.dirs && c != mc.cr3
    requires HasStack(w, pid, f0, f1)
    modifies mc`mem, mc.frames.bitmap
    ensures mc.frames.Valid() && mc.Free() == old(mc.Free()) + {f0, f1} + Owned(w, c)
    ensures System(mc.mem, Forgotten(Unstacked(Unstacked(w, f0), f1), c), mc.Free())
    ensures Framed(old(mc.mem), mc.mem, {c}, Frame(w.kstack), pid)
    ensures Tidy(old(mc.mem), mc.mem, Frame(w.kstack), false)
  {
    ghost var w1, kt, m := Unstacked(Unstacked(w, f0), f1), Frame(w.kstack), mc.mem;
    FreeStack(mc, w, pid, f0, f1);
    ghost var m1 := mc.mem;
    TearAway(mc, w1, c);
    assert Owned(w1, c) == Owned(w, c);
    TidyStack(m, m1, kt, pid);
    TidyTrans(m, m1, mc.mem, kt, false);
    StackThen(m, m1, mc.mem, c, kt, pid);
  }

  /** Teardown of a directory that goes out of use. */
  method TearAway(mc: Machine, ghost w: World, c: nat)
    requires mc.frames.Valid() && System(mc.mem, w, mc.Free()) && mc.cr3 in w.dirs && c in w.dirs && c != mc.cr3
    modifies mc`mem, mc.frames.bitmap
    ensures mc.frames.Valid() && mc.Free() == old(mc.Free()) + Owned(w, c) && System(mc.mem, Forgotten(w, c), mc.Free())
    ensures Untouched(old(mc.mem), mc.mem, {c}, Frame(w.kstack)) && Tidy(old(mc.mem), mc.mem, Frame(w.kstack), false)
  {
    ghost var m := mc.mem;
    ghost var w1 := ProcTeardown(mc, w, c);
    ForgottenAnyway(w, c);
    KeepOnForget(mc.mem, w1, mc.Free(), c);
    TidySame(m, mc.mem, Frame(w.kstack));
  }

  lemma StackThen(m0: Memory, m1: Memory, m2: Memory, c: nat, kt: nat, pid: nat)
    requires StackEntriesOnly(m0, m1, kt, pid) && Untouched(m1, m2, {c}, kt)
    ensures Framed(m0, m2, {c}, kt, pid)
  {
  }

  lemma ForgottenAnyway(w: World, c: nat)
    ensures Forgotten(w.(own := w.own - Owned(w, c)), c) == Forgotten(w, c)
  {
    var w' := w.(own := w.own - Owned(w, c));
    assert Owned(w', c) == {};
    assert w'.own - Owned(w', c) == w'.own;
  }

  /** The memory side of `spawn_user`. It succeeds exactly when the size fits a page and six frames
      can be had: two stack pages, two tables and two pages. A spawn that fails, at whatever point,
      leaves exactly the free frames it found. Nothing else that was in use is written: no page or
      table of another process, no kernel stack and no kernel entry but the new stack's. */
  method SpawnUser(mc: Machine, ghost w0: World, pd0: nat, c: nat, pid: nat, img: seq<Byte>)
    returns (ok: bool, ghost w: World, ghost f0: nat, ghost f1: nat)
    requires mc.frames.Valid() && System(mc.mem, w0, mc.Free())
    requires mc.cr3 in w0.dirs && pd0 in w0.dirs && c in w0.pds && c !in w0.dirs && pid < 128
    modifies mc`mem, mc.frames.bitmap
    ensures mc.frames.Valid() && System(mc.mem, w, mc.Free())
    ensures ok == (0 < |img| <= 4096 && |old(mc.Free())| >= 6)
    ensures Framed(old(mc.mem), mc.mem, old(mc.Free()) + {c}, Frame(w0.kstack), pid)
    ensures Tidy(old(mc.mem), mc.mem, Frame(w0.kstack), ok)
    ensures !ok ==> mc.Free() == old(mc.Free()) && Restored(w0, w, pid)
    ensures ok ==> Added(w0, w, old(mc.Free()), mc.Free(), c, pid, f0, f1)
    ensures ok ==> Loaded(mc.mem, c, img) && |Owned(w, c)| == 4
  {
    ghost var m, free, kt := mc.mem, mc.Free(), Frame(w0.kstack);
    w, f0, f1 := w0, 0, 0;
    if |img| == 0 || |img| > 4096 { return false, w, f0, f1; }
    var got;
    got, f0, f1, w := AllocStack(mc, w0, pid);
    TidyStack(m, mc.mem, kt, pid);
    if !got { return false, w, f0, f1; }
    ok, w := SpawnBuild(mc, w0, w, m, free, pd0, c, pid, img, f0, f1);
    if !ok {
      ghost var m1 := mc.mem;
      w := Remove(mc, w0, w, free, c, pid, f0, f1);
      FramedTrans(m, m1, mc.mem, free + {c}, {c}, kt, pid);
      TidyTrans(m, m1, mc.mem, kt, false);
    }
  }

  /** The part of `spawn_user` after the stack pages, up to the test of the result. */
  method SpawnBuild(mc: Machine, ghost w0: World, ghost w1: World, ghost m0: Memory, ghost free0: set<nat>, pd0: nat,
      c: nat, ghost pid: nat, img: seq<Byte>, ghost f0: nat, ghost f1: nat)
    returns (ok: bool, ghost w: World)
    requires mc.frames.Valid() && System(mc.mem, w1, mc.Free()) && 0 < |img| <= 4096
    requires mc.cr3 in w0.dirs && pd0 in w0.dirs && c in w0.pds && c !in w0.dirs
    requires StackTaken(m0, mc.mem, w0, w1, free0, mc.Free(), pid, f0, f1)
    modifies mc`mem, mc.frames.bitmap
    ensures mc.frames.Valid() && System(mc.mem, w, mc.Free())
    ensures ok == (|free0| >= 6)
    ensures Framed(m0, mc.mem, free0 + {c}, Frame(w0.kstack), pid) && Tidy(m0, mc.mem, Frame(w0.kstack), ok)
    ensures Added(w0, w, free0, mc.Free(), c, pid, f0, f1)
    ensures ok ==> Loaded(mc.mem, c, img) && |Owned(w, c)| == 4
  {
    ghost var m1, free1, kt := mc.mem, mc.Free(), Frame(w0.kstack);
    ok, w := SpaceAndImage(mc, w1, pd0, c, img);
    TwoLess(free0, f0, f1);
    FramedStack(m0, m1, mc.mem, free0, free1, c, kt, pid);
    TidyStack(m0, m1, kt, pid);
    TidyTrans(m0, m1, mc.mem, kt, ok);
    SpaceAdded(w0, w1, w, free0, free1, mc.Free(), c, pid, f0, f1);
  }

  /** Takes an added process away again. */
  method Remove(mc: Machine, ghost w0: World, ghost w1: World, ghost free0: set<nat>, c: nat,
                pid: nat, ghost f0: nat, ghost f1: nat)
    returns (ghost w: World)
    requires mc.frames.Valid() && System(mc.mem, w1, mc.Free()) && mc.cr3 in w0.dirs && c !in w0.dirs
    requires Added(w0, w1, free0, mc.Free(), c, pid, f0, f1)
    modifies mc`mem, mc.frames.bitmap
    ensures mc.frames.Valid() && System(mc.mem, w, mc.Free())
    ensures mc.Free() == free0 && Restored(w0, w, pid)
    ensures Framed(old(mc.mem), mc.mem, {c}, Frame(w0.kstack), pid)
    ensures Tidy(old(mc.mem), mc.mem, Frame(w0.kstack), false)
  {
    ghost var free1 := mc.Free();
    w := Forgotten(Unstacked(Unstacked(w1, f0), f1), c);
    ReapMemory(mc, w1, c, pid, f0, f1);
    AddedBack(w0, w1, free0, free1, c, pid, f0, f1);
  }

  lemma AddedBack(w0: World, w: World, free0: set<nat>, free: set<nat>, c: nat, pid: nat, f0: nat, f1: nat)
    requires Added(w0, w, free0, free, c, pid, f0, f1)
    ensures free + {f0, f1} + Owned(w, c) == free0
  {
  }

  /** The ledger as it was; exactly so when the stack slots were unused before. */
  ghost predicate Restored(w0: World, w: World, pid: nat) {
    w == w0.(stack := w.stack) && (SlotsFree(w0, pid) ==> w == w0)
  }

  /** The kernel stack of `pid` was taken from the free frames, and nothing else happened. */
  ghost predicate StackTaken(m0: Memory, m: Memory, w0: World, w: World, free0: set<nat>, free: set<nat>,
                             pid: nat, f0: nat, f1: nat) {
    && pid < 128 && f0 != f1 && f0 in free0 && f1 in free0 && free == free0 - {f0, f1}
    && (forall f | f in free0 :: f !in w0.stack)
    && w == Stacked(Stacked(w0, 2 * pid, f0), 2 * pid + 1, f1) && StackEntriesOnly(m0, m, Frame(w0.kstack), pid)
  }

  /** A process was added: directory `c` is in use, `pid` has the stack `f0`, `f1`, both and all that
      `c` owns were free before; undoing just that restores the ledger. */
  ghost predicate Added(w0: World, w: World, free0: set<nat>, free: set<nat>, c: nat, pid: nat, f0: nat, f1: nat) {
    && w == w0.(dirs := w0.dirs + {c}, own := w.own, stack := w.stack) && HasStack(w, pid, f0, f1)
    && (forall f | f in w0.own :: f in w.own && w.own[f] == w0.own[f])
    && (forall f | f in w0.stack && w0.stack[f] != 2 * pid && w0.stack[f] != 2 * pid + 1 ::
          f in w.stack && w.stack[f] == w0.stack[f])
    && f0 in free0 && f1 in free0 && Owned(w, c) <= free0 && f0 !in Owned(w, c) && f1 !in Owned(w, c)
    && free == free0 - {f0, f1} - Owned(w, c)
    && Restored(w0, Forgotten(Unstacked(Unstacked(w, f0), f1), c), pid)
  }

  lemma SpaceAdded(w0: World, w1: World, w: World, free0: set<nat>, free1: set<nat>, free: set<nat>,
                   c: nat, pid: nat, f0: nat, f1: nat)
    requires pid < 128 && f0 != f1 && f0 in free0 && f1 in free0 && free1 == free0 - {f0, f1} && c !in w0.dirs
    requires (forall f | f in free0 :: f !in w0.stack) && w1 == Stacked(Stacked(w0, 2 * pid, f0), 2 * pid + 1, f1)
    requires w1.own.Keys !! free1 && Bare(w1, c) && Grown(w1.(dirs := w1.dirs + {c}), w, free1, free, c)
    ensures Added(w0, w, free0, free, c, pid, f0, f1)
  {
    GrownThenDropped(w1.(dirs := w1.dirs + {c}), w, free1, free, c);
    WorldBack(w0, w, free1, free, c, pid, f0, f1);
    StackedTwice(w0, pid, f0, f1);
  }

  lemma TwoLess(free: set<nat>, f0: nat, f1: nat)
    requires f0 in free && f1 in free && f0 != f1
    ensures |free - {f0, f1}| == |free| - 2 && free - {f0, f1} + {f0, f1} == free
  {
    assert free - {f0, f1} == free - {f0} - {f1};
  }

  lemma FramedStack(m0: Memory, m1: Memory, m2: Memory, free0: set<nat>, free1: set<nat>, c: nat, kt: nat, pid: nat)
    requires StackEntriesOnly(m0, m1, kt, pid) && Untouched(m1, m2, free1 + {c}, kt) && free1 <= free0
    ensures Framed(m0, m2, free0 + {c}, kt, pid)
  {
  }

  lemma FramedTrans(m0: Memory, m1: Memory, m2: Memory, mine: set<nat>, mine': set<nat>, kt: nat, pid: nat)
    requires Framed(m0, m1, mine, kt, pid) && Framed(m1, m2, mine', kt, pid) && mine' <= mine
    ensures Framed(m0, m2, mine, kt, pid)
  {
  }

  // ----- task_fork -----

  /** Every user table of directory `p` in `m0` is copied below directory `c` in `m`. */
  ghost predicate Copied(m0: Memory, m: Memory, p: nat, c: nat) {
    p < TOTAL && c < TOTAL && forall k: nat | UserIndex(k) :: TableCopied(m0, m, p, c, k, 1024)
  }

  /** A copy of what a directory has now is a copy of what it had before the stack and the new directory. */
  lemma CopiedSince(m0: Memory, m1: Memory, m: Memory, w: World, p: nat, c: nat)
    requires Ledger(m0, w) && p in w.dirs && m1[p] == m0[p] && (forall f | f in w.own :: m1[f] == m0[f])
    requires Copied(m1, m, p, c)
    ensures Copied(m0, m, p, c)
  {
    forall k: nat | UserIndex(k)
      ensures TableCopied(m0, m, p, c, k, 1024)
    {
      assert TableCopied(m1, m, p, c, k, 1024) && HasTable(m1, p, k) == HasTable(m0, p, k);
      if HasTable(m0, p, k) {
        TableOwned(m0, w, p, k);
        forall j: nat | j < 1024
          ensures EntryCopied(m0, m, Walk(m0, p, k, j), Walk(m, c, k, j))
        {
          assert EntryCopied(m1, m, Walk(m1, p, k, j), Walk(m, c, k, j)) && Walk(m1, p, k, j) == Walk(m0, p, k, j);
          if Present(Walk(m0, p, k, j)) {
            assert Live(m0, PageRef(p, k, j));
          }
        }
      }
    }
  }

  lemma SameOwned(w: World, w': World, d: nat)
    requires w'.own == w.own
    ensures Owned(w', d) == Owned(w, d)
  {
  }

  /** `paging_fork_copy` into a bare directory. */
  method CopyInto(mc: Machine, ghost w0: World, c: nat) returns (ok: bool, ghost w: World)
    requires mc.frames.Valid() && System(mc.mem, w0, mc.Free())
    requires mc.cr3 in w0.dirs && c in w0.dirs && c != mc.cr3
    requires forall k: nat | UserIndex(k) :: c < TOTAL && !HasTable(mc.mem, c, k)
    modifies mc`mem, mc.frames.bitmap
    ensures mc.frames.Valid() && System(mc.mem, w, mc.Free()) && Grown(w0, w, old(mc.Free()), mc.Free(), c)
    ensures Untouched(old(mc.mem), mc.mem, old(mc.Free()) + {c}, Frame(w0.kstack))
    ensures ok == (|old(mc.Free())| >= |Owned(w0, mc.cr3)|)
    ensures ok ==> Copied(old(mc.mem), mc.mem, mc.cr3, c) && ScratchClear(mc.mem, Frame(w0.kstack))
    ensures ok ==> |Owned(w, c)| == |Owned(w0, mc.cr3)|
    ensures !ok ==> mc.Free() == {}
                    && ScratchLeft(old(mc.mem), mc.mem, w0, mc.cr3, Frame(w0.kstack), |old(mc.Free())|, old(mc.Free()))
  {
    ok, w := ForkCopy(mc, w0, c);
  }

  lemma SameStays(m: Memory, m': Memory, w: World, w': World, p: nat, n: int)
    requires p < TOTAL && w'.own == w.own && m'[p] == m[p]
    requires forall k: nat, j: nat | UserIndex(k) && j < 1024 :: Walk(m', p, k, j) == Walk(m, p, k, j)
    ensures DataStays(m', w', p, n) == DataStays(m, w, p, n) && TableStays(m', w', p, n) == TableStays(m, w, p, n)
  {
    assert forall k: nat :: HasPage(m', p, k) == HasPage(m, p, k);
    assert forall x: nat :: FirstPaged(m', p, x) == FirstPaged(m, p, x);
    assert forall x: nat :: TablesTo(w', p, x) == TablesTo(w, p, x) && Before(w', p, x) == Before(w, p, x);
  }

  /** The address space of a forked child: `paging_proc_init`, after which memory is `mid`, then `paging_fork_copy`. */
  method ForkSpace(mc: Machine, ghost w1: World, pd0: nat, c: nat) returns (ok: bool, ghost w: World, ghost mid: Memory)
    requires mc.frames.Valid() && System(mc.mem, w1, mc.Free())
    requires mc.cr3 in w1.dirs && pd0 in w1.dirs && c in w1.pds && c !in w1.dirs
    modifies mc`mem, mc.frames.bitmap
    ensures mc.frames.Valid() && System(mc.mem, w, mc.Free())
    ensures Bare(w1, c) && Grown(w1.(dirs := w1.dirs + {c}), w, old(mc.Free()), mc.Free(), c)
    ensures Untouched(old(mc.mem), mid, {c}, Frame(w1.kstack))
    ensures Untouched(mid, mc.mem, old(mc.Free()) + {c}, Frame(w1.kstack))
    ensures ok == (|old(mc.Free())| >= |Owned(w1, mc.cr3)|)
    ensures ok ==> Copied(mid, mc.mem, mc.cr3, c) && ScratchClear(mc.mem, Frame(w1.kstack))
    ensures ok ==> |Owned(w, c)| == |Owned(w1, mc.cr3)|
    ensures Frame(w1.kstack) < TOTAL && mid[Frame(w1.kstack)] == old(mc.mem)[Frame(w1.kstack)]
    ensures !ok ==> mc.Free() == {}
                    && ScratchLeft(mid, mc.mem, w1, mc.cr3, Frame(w1.kstack), |old(mc.Free())|, old(mc.Free()))
  {
    ProcInit(mc, w1, pd0, c);
    mid := mc.mem;
    ghost var w2 := w1.(dirs := w1.dirs + {c});
    SameOwned(w1, w2, mc.cr3);
    ghost var n := |mc.Free()|;
    ok, w := CopyInto(mc, w2, c);
    if !ok { SameStays(mid, mid, w1, w2, mc.cr3, n); }
  }

  /** Neither the new stack nor the new directory is part of what is copied. */
  lemma ForkedFrom(m0: Memory, m1: Memory, mid: Memory, m: Memory, w: World, free: set<nat>, p: nat, c: nat, pid: nat)
    requires System(m0, w, free) && p in w.dirs && c in w.pds && c !in w.dirs && Copied(mid, m, p, c)
    requires StackEntriesOnly(m0, m1, Frame(w.kstack), pid) && Untouched(m1, mid, {c}, Frame(w.kstack))
    ensures Copied(m0, m, p, c)
  {
    CopiedSince(m0, mid, m, w, p, c);
  }

  /** Nor do they count when the copy fails. */
  lemma LeftSince(m0: Memory, m1: Memory, mid: Memory, m: Memory, w: World, w': World, free: set<nat>, p: nat, c: nat,
                  pid: nat, n: int, lost: set<nat>)
    requires System(m0, w, free) && p in w.dirs && c in w.pds && c !in w.dirs && w'.own == w.own && pid < 128
    requires StackEntriesOnly(m0, m1, Frame(w.kstack), pid) && Untouched(m1, mid, {c}, Frame(w.kstack))
    requires mid[Frame(w.kstack)] == m1[Frame(w.kstack)] && ScratchLeft(mid, m, w', p, Frame(w.kstack), n, lost)
    ensures ScratchLeft(m0, m, w, p, Frame(w.kstack), n, lost)
  {
    assert forall k: nat, j: nat | UserIndex(k) && j < 1024 :: Walk(mid, p, k, j) == Walk(m0, p, k, j) by {
      forall k: nat, j: nat | UserIndex(k) && j < 1024
        ensures Walk(mid, p, k, j) == Walk(m0, p, k, j)
      {
        if HasTable(m0, p, k) { TableOwned(m0, w, p, k); }
      }
    }
    SameStays(m0, mid, w, w', p, n);
  }

  /** The part of `task_fork` after the stack pages, up to the test of the result. */
  method ForkBuild(mc: Machine, ghost w0: World, ghost w1: World, ghost m0: Memory, ghost free0: set<nat>, pd0: nat,
      c: nat, ghost pid: nat, ghost f0: nat, ghost f1: nat)
    returns (ok: bool, ghost w: World)
    requires mc.frames.Valid() && System(mc.mem, w1, mc.Free()) && System(m0, w0, free0)
    requires mc.cr3 in w0.dirs && pd0 in w0.dirs && c in w0.pds && c !in w0.dirs
    requires StackTaken(m0, mc.mem, w0, w1, free0, mc.Free(), pid, f0, f1)
    modifies mc`mem, mc.frames.bitmap
    ensures mc.frames.Valid() && System(mc.mem, w, mc.Free())
    ensures ok == (|free0| >= 2 + |Owned(w0, mc.cr3)|)
    ensures Framed(m0, mc.mem, free0 + {c}, Frame(w0.kstack), pid)
    ensures Added(w0, w, free0, mc.Free(), c, pid, f0, f1)
    ensures ok ==> Copied(m0, mc.mem, mc.cr3, c) && ScratchClear(mc.mem, Frame(w0.kstack))
    ensures ok ==> |Owned(w, c)| == |Owned(w0, mc.cr3)|
    ensures !ok ==> mc.Free() == {}
                    && ScratchLeft(m0, mc.mem, w0, mc.cr3, Frame(w0.kstack), |free0| - 2, free0 - {f0, f1})
  {
    ghost var m1, free1, kt := mc.mem, mc.Free(), Frame(w0.kstack);
    SameOwned(w0, w1, mc.cr3);
    ghost var mid;
    ok, w, mid := ForkSpace(mc, w1, pd0, c);
    TwoLess(free0, f0, f1);
    BuiltFrames(m0, m1, mid, mc.mem, w0, w1, w, free0, free1, mc.Free(), c, pid, f0, f1);
    BuiltCopy(m0, m1, mid, mc.mem, w0, w1, free0, mc.cr3, c, pid, |free1|, free1, ok);
  }

  /** The frames of the stack and of the copy are all that changed. */
  lemma BuiltFrames(m0: Memory, m1: Memory, mid: Memory, m: Memory, w0: World, w1: World, w: World, free0: set<nat>,
                    free1: set<nat>, free: set<nat>, c: nat, pid: nat, f0: nat, f1: nat)
    requires StackTaken(m0, m1, w0, w1, free0, free1, pid, f0, f1) && c !in w0.dirs && w1.own.Keys !! free1
    requires Bare(w1, c) && Grown(w1.(dirs := w1.dirs + {c}), w, free1, free, c)
    requires Untouched(m1, mid, {c}, Frame(w0.kstack)) && Untouched(mid, m, free1 + {c}, Frame(w0.kstack))
    ensures Framed(m0, m, free0 + {c}, Frame(w0.kstack), pid) && Added(w0, w, free0, free, c, pid, f0, f1)
  {
    UntouchedThen(m1, mid, m, free1, c, Frame(w0.kstack));
    FramedStack(m0, m1, m, free0, free1, c, Frame(w0.kstack), pid);
    SpaceAdded(w0, w1, w, free0, free1, free, c, pid, f0, f1);
  }

  /** What the copy made of the directory as it was before the stack. */
  lemma BuiltCopy(m0: Memory, m1: Memory, mid: Memory, m: Memory, w: World, w': World, free: set<nat>, p: nat, c: nat,
                  pid: nat, n: int, lost: set<nat>, ok: bool)
    requires System(m0, w, free) && p in w.dirs && c in w.pds && c !in w.dirs && w'.own == w.own && pid < 128
    requires StackEntriesOnly(m0, m1, Frame(w.kstack), pid) && Untouched(m1, mid, {c}, Frame(w.kstack))
    requires mid[Frame(w.kstack)] == m1[Frame(w.kstack)]
    requires if ok then Copied(mid, m, p, c) else ScratchLeft(mid, m, w', p, Frame(w.kstack), n, lost)
    ensures if ok then Copied(m0, m, p, c) else ScratchLeft(m0, m, w, p, Frame(w.kstack), n, lost)
  {
    if ok {
      ForkedFrom(m0, m1, mid, m, w, free, p, c, pid);
    } else {
      LeftSince(m0, m1, mid, m, w, w', free, p, c, pid, n, lost);
    }
  }

  /** Writing a kernel-stack page keeps the system. */
  lemma KeepOnStackWrite(m: Memory, m': Memory, w: World, free: set<nat>, f: nat)
    requires System(m, w, free) && f in w.stack && forall g: nat | g < TOTAL && g != f :: m'[g] == m[g]
    ensures System(m', w, free)
  {
    KeepSystem(m, m', w, free, {f});
  }

  /** Copies kernel-stack page `g` to page `f`. */
  method CopyStackPage(mc: Machine, ghost w: World, src: nat, dst: nat, ghost g: nat, ghost f: nat)
    requires mc.frames.Valid() && System(mc.mem, w, mc.Free()) && mc.cr3 in w.dirs && f != g
    requires f in w.stack && g in w.stack && src == w.stack[g] && dst == w.stack[f]
    modifies mc`mem
    ensures f < TOTAL && g < TOTAL && mc.mem == old(mc.mem)[f := old(mc.mem)[g]]
    ensures mc.Free() == old(mc.Free()) && System(mc.mem, w, mc.Free())
  {
    ghost var m, free := mc.mem, mc.Free();
    StackSeen(m, w, free, mc.cr3, g);
    StackSeen(m, w, free, mc.cr3, f);
    CopyThrough(mc, KSTACK_PDI, src, KSTACK_PDI, dst, g, f);
    KeepOnStackWrite(m, mc.mem, w, free, f);
  }

  /** A store to kernel-stack page `f`. */
  method StoreToStack(mc: Machine, ghost w: World, dst: nat, word: nat, e: Word, ghost f: nat)
    requires mc.frames.Valid() && System(mc.mem, w, mc.Free()) && mc.cr3 in w.dirs && f in w.stack && dst == w.stack[f]
    requires word < 1024
    modifies mc`mem
    ensures f < TOTAL && mc.mem == WithWord(old(mc.mem), f, word, e)
    ensures mc.Free() == old(mc.Free()) && System(mc.mem, w, mc.Free())
  {
    ghost var m, free := mc.mem, mc.Free();
    StackSeen(m, w, free, mc.cr3, f);
    mc.Store(KSTACK_PDI, dst, word, e);
    KeepOnStackWrite(m, mc.mem, w, free, f);
  }

  /** The child's kernel stack `f0`, `f1` is the parent's `g0`, `g1`, with the saved `eax` set to 0. */
  ghost predicate StackCloned(m0: Memory, m: Memory, g0: nat, g1: nat, f0: nat, f1: nat, half: nat, word: nat) {
    && g0 < TOTAL && g1 < TOTAL && f0 < TOTAL && f1 < TOTAL && word < 1024
    && m[f0] == (if half == 0 then m0[g0][word := NIL] else m0[g0])
    && m[f1] == (if half == 0 then m0[g1] else m0[g1][word := NIL])
  }

  /** The loop of `task_fork` over the kernel stack, and the store to the child's trap frame: `half`
      and `word` say where in the stack the saved `eax` lies. */
  method CopyStack(mc: Machine, ghost w: World, q: nat, pid: nat, half: nat, word: nat,
                   ghost g0: nat, ghost g1: nat, ghost f0: nat, ghost f1: nat)
    requires mc.frames.Valid() && System(mc.mem, w, mc.Free()) && mc.cr3 in w.dirs && q != pid && half < 2
    requires word < 1024
    requires HasStack(w, q, g0, g1) && HasStack(w, pid, f0, f1)
    modifies mc`mem
    ensures mc.Free() == old(mc.Free()) && System(mc.mem, w, mc.Free())
    ensures forall g: nat | g < TOTAL && g != f0 && g != f1 :: mc.mem[g] == old(mc.mem)[g]
    ensures StackCloned(old(mc.mem), mc.mem, g0, g1, f0, f1, half, word)
  {
    ghost var m := mc.mem;
    CopyStackPage(mc, w, 2 * q, 2 * pid, g0, f0);
    CopyStackPage(mc, w, 2 * q + 1, 2 * pid + 1, g1, f1);
    ghost var f := if half == 0 then f0 else f1;
    StoreToStack(mc, w, 2 * pid + half, word, NIL, f);
    Cloned(m, g0, g1, f0, f1, half, word);
  }

  lemma Cloned(m: Memory, g0: nat, g1: nat, f0: nat, f1: nat, half: nat, word: nat)
    requires g0 < TOTAL && g1 < TOTAL && f0 < TOTAL && f1 < TOTAL && f0 != f1 && g1 != f0 && word < 1024
    ensures var m1 := m[f0 := m[g0]];
            var m2 := WithWord(m1[f1 := m1[g1]], if half == 0 then f0 else f1, word, NIL);
            && StackCloned(m, m2, g0, g1, f0, f1, half, word)
            && forall g: nat | g < TOTAL && g != f0 && g != f1 :: m2[g] == m[g]
  {
  }

  /** The memory side of `task_fork` by a process with pid `q` and kernel stack `g0`, `g1`. It succeeds
      exactly when there are two frames for the stack and one for every table and page of the parent.
      Then the child has a copy of every user page and of the kernel stack, but for the saved `eax`.
      When it fails the stack pages are freed and the half-built directory is dropped without a
      teardown: the free frames are those found if and only if these were at most two, and of any
      more only two are left. The scratch entries are then as `ScratchLeft` says, for a copy that had
      two frames less. */
  method ForkUser(mc: Machine, ghost w0: World, pd0: nat, c: nat, q: nat, pid: nat, half: nat, word: nat,
                  ghost g0: nat, ghost g1: nat)
    returns (ok: bool, ghost w: World, ghost f0: nat, ghost f1: nat)
    requires mc.frames.Valid() && System(mc.mem, w0, mc.Free())
    requires mc.cr3 in w0.dirs && pd0 in w0.dirs && c in w0.pds && c !in w0.dirs && pid < 128
    requires HasStack(w0, q, g0, g1) && q != pid && half < 2 && word < 1024
    modifies mc`mem, mc.frames.bitmap
    ensures mc.frames.Valid() && System(mc.mem, w, mc.Free())
    ensures ok == (|old(mc.Free())| >= 2 + |Owned(w0, mc.cr3)|)
    ensures Framed(old(mc.mem), mc.mem, old(mc.Free()) + {c}, Frame(w0.kstack), pid)
    ensures ok ==> Added(w0, w, old(mc.Free()), mc.Free(), c, pid, f0, f1)
    ensures ok ==> Copied(old(mc.mem), mc.mem, mc.cr3, c) && ScratchClear(mc.mem, Frame(w0.kstack))
    ensures ok ==> StackCloned(old(mc.mem), mc.mem, g0, g1, f0, f1, half, word)
    ensures ok ==> |Owned(w, c)| == |Owned(w0, mc.cr3)|
    ensures !ok ==> Restored(w0, w, pid) && Leaked(old(mc.Free()), mc.Free())
    ensures !ok ==> ScratchLeft(old(mc.mem), mc.mem, w0, mc.cr3, Frame(w0.kstack), |old(mc.Free())| - 2,
                                old(mc.Free()) - mc.Free())
    ensures !ok ==> ClearIff(old(mc.mem), mc.mem, mc.cr3, Frame(w0.kstack), |old(mc.Free())| <= 3)
  {
    ghost var m, free, kt := mc.mem, mc.Free(), Frame(w0.kstack);
    assert mc.cr3 < TOTAL;
    var got;
    got, f0, f1, w := AllocStack(mc, w0, pid);
    if got {
      ok, w := ForkRest(mc, w0, w, m, free, pd0, c, q, pid, half, word, g0, g1, f0, f1);
    } else {
      StackFramed(m, mc.mem, free + {c}, kt, pid);
      NothingLeft(m, mc.mem, w0, mc.cr3, kt, |free| - 2, free - mc.Free(), pid);
      ok := false;
    }
  }

  /** What a failed fork leaves of the free frames: all of them if there were at most two, else two. */
  ghost predicate Leaked(free0: set<nat>, free: set<nat>) {
    && free <= free0 && (free == free0 <==> |free0| <= 2)
    && |free| == if |free0| <= 2 then |free0| else 2
  }

  /** The part of `task_fork` after the stack pages. */
  method ForkRest(mc: Machine, ghost w0: World, ghost w1: World, ghost m0: Memory, ghost free0: set<nat>, pd0: nat,
      c: nat, q: nat, pid: nat, half: nat, word: nat, ghost g0: nat, ghost g1: nat, ghost f0: nat, ghost f1: nat)
    returns (ok: bool, ghost w: World)
    requires mc.frames.Valid() && System(mc.mem, w1, mc.Free()) && System(m0, w0, free0)
    requires mc.cr3 in w0.dirs && pd0 in w0.dirs && c in w0.pds && c !in w0.dirs
    requires HasStack(w0, q, g0, g1) && q != pid && half < 2 && word < 1024
    requires StackTaken(m0, mc.mem, w0, w1, free0, mc.Free(), pid, f0, f1)
    modifies mc`mem, mc.frames.bitmap
    ensures mc.frames.Valid() && System(mc.mem, w, mc.Free())
    ensures ok == (|free0| >= 2 + |Owned(w0, mc.cr3)|)
    ensures Framed(m0, mc.mem, free0 + {c}, Frame(w0.kstack), pid)
    ensures ok ==> Added(w0, w, free0, mc.Free(), c, pid, f0, f1)
    ensures ok ==> Copied(m0, mc.mem, mc.cr3, c) && ScratchClear(mc.mem, Frame(w0.kstack))
    ensures ok ==> StackCloned(m0, mc.mem, g0, g1, f0, f1, half, word)
    ensures ok ==> |Owned(w, c)| == |Owned(w0, mc.cr3)|
    ensures !ok ==> Restored(w0, w, pid) && Leaked(free0, mc.Free())
                    && ScratchLeft(m0, mc.mem, w0, mc.cr3, Frame(w0.kstack), |free0| - 2, free0 - mc.Free())
                    && ClearIff(m0, mc.mem, mc.cr3, Frame(w0.kstack), |free0| <= 3)
  {
    ghost var p := mc.cr3;
    ok, w := ForkBuild(mc, w0, w1, m0, free0, pd0, c, pid, f0, f1);
    assert ok == (|free0| >= 2 + |Owned(w0, p)|);
    if ok {
      SucceedFork(mc, w0, w, m0, free0, c, q, pid, half, word, g0, g1, f0, f1);
    } else {
      w := FailFork(mc, w0, w, m0, free0, c, pid, f0, f1);
    }
  }

  /** Freeing the stack pages leaves the scratch entries alone. */
  lemma LeftThen(m0: Memory, m: Memory, m': Memory, w: World, p: nat, kt: nat, n: int, lost: set<nat>, pid: nat)
    requires ScratchLeft(m0, m, w, p, kt, n, lost) && StackEntriesOnly(m, m', kt, pid) && pid < 128
    requires Ledger(m0, w) && p in w.dirs && n < |Owned(w, p)|
    ensures ScratchLeft(m0, m', w, p, kt, n, lost) && ClearIff(m0, m', p, kt, n <= 1)
  {
    PagedClear(m0, m', w, p, kt, n, lost);
  }

  /** A fork that gets no stack leaves them alone too. */
  lemma NothingLeft(m: Memory, m': Memory, w: World, p: nat, kt: nat, n: int, lost: set<nat>, pid: nat)
    requires p < TOTAL && StackEntriesOnly(m, m', kt, pid) && pid < 128 && n < 0
    ensures ScratchLeft(m, m', w, p, kt, n, lost) && ClearIff(m, m', p, kt, true)
  {
  }

  /** The parent's kernel stack is not written. */
  lemma StackStays(m0: Memory, m: Memory, w0: World, free0: set<nat>, c: nat, pid: nat, q: nat, g0: nat, g1: nat)
    requires System(m0, w0, free0) && Framed(m0, m, free0 + {c}, Frame(w0.kstack), pid) && c in w0.pds
    requires HasStack(w0, q, g0, g1)
    ensures g0 < TOTAL && g1 < TOTAL && m[g0] == m0[g0] && m[g1] == m0[g1]
  {
  }

  lemma StackFramed(m0: Memory, m: Memory, mine: set<nat>, kt: nat, pid: nat)
    requires StackEntriesOnly(m0, m, kt, pid)
    ensures Framed(m0, m, mine, kt, pid)
  {
  }

  lemma Pair(free: set<nat>, f0: nat, f1: nat)
    requires f0 in free && f1 in free && f0 != f1
    ensures Leaked(free, {f0, f1}) && |free| >= 2
  {
    TwoLess(free, f0, f1);
    if |free| == 2 {
      assert free - {f0, f1} == {};
    }
  }

  /** The failure path of `task_fork`: the stack pages go back, the directory is left as it is. */
  method AbandonFork(mc: Machine, ghost w0: World, ghost w1: World, ghost m0: Memory, ghost free0: set<nat>,
      ghost c: nat, pid: nat, ghost f0: nat, ghost f1: nat)
    returns (ghost w: World)
    requires mc.frames.Valid() && System(mc.mem, w1, mc.Free()) && mc.cr3 in w1.dirs && mc.Free() == {}
    requires Added(w0, w1, free0, mc.Free(), c, pid, f0, f1) && Framed(m0, mc.mem, free0 + {c}, Frame(w0.kstack), pid)
    modifies mc`mem, mc.frames.bitmap
    ensures mc.frames.Valid() && System(mc.mem, w, mc.Free()) && mc.Free() == {f0, f1} && Restored(w0, w, pid)
    ensures Framed(m0, mc.mem, free0 + {c}, Frame(w0.kstack), pid)
    ensures StackEntriesOnly(old(mc.mem), mc.mem, Frame(w0.kstack), pid)
  {
    ghost var m1, kt := mc.mem, Frame(w0.kstack);
    w := Forgotten(Unstacked(Unstacked(w1, f0), f1), c);
    FreeStack(mc, w1, pid, f0, f1);
    KeepOnForget(mc.mem, Unstacked(Unstacked(w1, f0), f1), mc.Free(), c);
    StackFramed(m1, mc.mem, {}, kt, pid);
    FramedTrans(m0, m1, mc.mem, free0 + {c}, {}, kt, pid);
  }

  /** The success path, with the parent's stack as it was before the fork. */
  method SucceedFork(mc: Machine, ghost w0: World, ghost w: World, ghost m0: Memory, ghost free0: set<nat>,
      ghost c: nat, q: nat, pid: nat, half: nat, word: nat, ghost g0: nat, ghost g1: nat, ghost f0: nat, ghost f1: nat)
    requires mc.frames.Valid() && System(mc.mem, w, mc.Free()) && System(m0, w0, free0) && mc.cr3 in w0.dirs
    requires HasStack(w0, q, g0, g1) && q != pid && half < 2 && word < 1024 && c in w0.pds
    requires Added(w0, w, free0, mc.Free(), c, pid, f0, f1) && Framed(m0, mc.mem, free0 + {c}, Frame(w0.kstack), pid)
    requires Copied(m0, mc.mem, mc.cr3, c) && ScratchClear(mc.mem, Frame(w0.kstack))
    modifies mc`mem
    ensures mc.frames.Valid() && mc.Free() == old(mc.Free()) && System(mc.mem, w, mc.Free())
    ensures Framed(m0, mc.mem, free0 + {c}, Frame(w0.kstack), pid)
    ensures Copied(m0, mc.mem, mc.cr3, c) && ScratchClear(mc.mem, Frame(w0.kstack))
    ensures StackCloned(m0, mc.mem, g0, g1, f0, f1, half, word)
  {
    StackStays(m0, mc.mem, w0, free0, c, pid, q, g0, g1);
    FinishFork(mc, w, m0, free0, c, q, pid, half, word, g0, g1, f0, f1);
  }

  /** What is left after the failure path. */
  method FailFork(mc: Machine, ghost w0: World, ghost w1: World, ghost m0: Memory, ghost free0: set<nat>,
      ghost c: nat, pid: nat, ghost f0: nat, ghost f1: nat)
    returns (ghost w: World)
    requires mc.frames.Valid() && System(mc.mem, w1, mc.Free()) && mc.cr3 in w1.dirs && mc.Free() == {}
    requires Added(w0, w1, free0, mc.Free(), c, pid, f0, f1) && Framed(m0, mc.mem, free0 + {c}, Frame(w0.kstack), pid)
    requires Ledger(m0, w0) && mc.cr3 in w0.dirs && |free0| < 2 + |Owned(w0, mc.cr3)|
    requires ScratchLeft(m0, mc.mem, w0, mc.cr3, Frame(w0.kstack), |free0| - 2, free0 - {f0, f1})
    modifies mc`mem, mc.frames.bitmap
    ensures mc.frames.Valid() && System(mc.mem, w, mc.Free()) && Restored(w0, w, pid) && Leaked(free0, mc.Free())
    ensures Framed(m0, mc.mem, free0 + {c}, Frame(w0.kstack), pid)
    ensures ScratchLeft(m0, mc.mem, w0, mc.cr3, Frame(w0.kstack), |free0| - 2, free0 - mc.Free())
    ensures ClearIff(m0, mc.mem, mc.cr3, Frame(w0.kstack), |free0| <= 3)
  {
    ghost var m := mc.mem;
    w := AbandonFork(mc, w0, w1, m0, free0, c, pid, f0, f1);
    LeftThen(m0, m, mc.mem, w0, mc.cr3, Frame(w0.kstack), |free0| - 2, free0 - {f0, f1}, pid);
    Pair(free0, f0, f1);
  }

  /** The success path of `task_fork`, as far as memory goes. */
  method FinishFork(mc: Machine, ghost w: World, ghost m0: Memory, ghost free0: set<nat>, ghost c: nat,
                    q: nat, pid: nat, half: nat, word: nat, ghost g0: nat, ghost g1: nat, ghost f0: nat, ghost f1: nat)
    requires mc.frames.Valid() && System(mc.mem, w, mc.Free()) && mc.cr3 in w.dirs && c in w.dirs
    requires HasStack(w, q, g0, g1) && HasStack(w, pid, f0, f1) && q != pid && half < 2 && word < 1024
    requires f0 in free0 && f1 in free0 && g0 < TOTAL && g1 < TOTAL && mc.mem[g0] == m0[g0] && mc.mem[g1] == m0[g1]
    requires Framed(m0, mc.mem, free0 + {c}, Frame(w.kstack), pid)
    requires Copied(m0, mc.mem, mc.cr3, c) && ScratchClear(mc.mem, Frame(w.kstack))
    modifies mc`mem
    ensures mc.Free() == old(mc.Free()) && System(mc.mem, w, mc.Free())
    ensures Framed(m0, mc.mem, free0 + {c}, Frame(w.kstack), pid)
    ensures Copied(m0, mc.mem, mc.cr3, c) && ScratchClear(mc.mem, Frame(w.kstack))
    ensures StackCloned(m0, mc.mem, g0, g1, f0, f1, half, word)
  {
    ghost var m, free := mc.mem, mc.Free();
    CopyStack(mc, w, q, pid, half, word, g0, g1, f0, f1);
    StackWritten(m0, m, mc.mem, w, free, mc.cr3, c, f0, f1);
    FramedMine(m0, m, mc.mem, free0 + {c}, Frame(w.kstack), pid, f0, f1);
  }

  lemma FramedMine(m0: Memory, m: Memory, m': Memory, mine: set<nat>, kt: nat, pid: nat, f0: nat, f1: nat)
    requires Framed(m0, m, mine, kt, pid) && f0 in mine && f1 in mine && m'[kt] == m[kt]
    requires forall g: nat | g < TOTAL && g != f0 && g != f1 :: m'[g] == m[g]
    ensures Framed(m0, m', mine, kt, pid)
  {
  }

  /** Writing kernel-stack pages touches no user page and no table. */
  lemma StackWritten(m0: Memory, m: Memory, m': Memory, w: World, free: set<nat>, p: nat, c: nat, f0: nat, f1: nat)
    requires System(m, w, free) && c in w.dirs && f0 in w.stack && f1 in w.stack && Copied(m0, m, p, c)
    requires forall g: nat | g < TOTAL && g != f0 && g != f1 :: m'[g] == m[g]
    ensures Copied(m0, m', p, c) && Frame(w.kstack) < TOTAL && m'[Frame(w.kstack)] == m[Frame(w.kstack)]
  {
    forall k: nat | UserIndex(k)
      ensures TableCopied(m0, m', p, c, k, 1024)
    {
      KeepTableCopied(m0, m, m', w, free, p, c, k, f0);
    }
  }

  // ----- life cycles -----

  /** `task_reap` of a process added since memory was `m0` and the free frames `free0`. */
  method ReapAdded(mc: Machine, ghost w0: World, ghost w1: World, ghost m0: Memory, ghost free0: set<nat>, c: nat,
                   pid: nat, ghost f0: nat, ghost f1: nat)
    returns (ghost w: World)
    requires mc.frames.Valid() && System(mc.mem, w1, mc.Free()) && mc.cr3 in w0.dirs && c !in w0.dirs
    requires Added(w0, w1, free0, mc.Free(), c, pid, f0, f1) && Framed(m0, mc.mem, free0 + {c}, Frame(w0.kstack), pid)
    modifies mc`mem, mc.frames.bitmap
    ensures mc.frames.Valid() && System(mc.mem, w, mc.Free())
    ensures mc.Free() == free0 && Restored(w0, w, pid) && Framed(m0, mc.mem, free0 + {c}, Frame(w0.kstack), pid)
  {
    ghost var m1 := mc.mem;
    w := Remove(mc, w0, w1, free0, c, pid, f0, f1);
    FramedTrans(m0, m1, mc.mem, free0 + {c}, {c}, Frame(w0.kstack), pid);
  }

  /** What reaping needs to know of a spawn. */
  method TrySpawn(mc: Machine, ghost w0: World, pd0: nat, c: nat, pid: nat, img: seq<Byte>)
    returns (ok: bool, ghost w: World, ghost f0: nat, ghost f1: nat)
    requires mc.frames.Valid() && System(mc.mem, w0, mc.Free())
    requires mc.cr3 in w0.dirs && pd0 in w0.dirs && c in w0.pds && c !in w0.dirs && pid < 128
    modifies mc`mem, mc.frames.bitmap
    ensures mc.frames.Valid() && System(mc.mem, w, mc.Free())
    ensures Framed(old(mc.mem), mc.mem, old(mc.Free()) + {c}, Frame(w0.kstack), pid)
    ensures if ok then Added(w0, w, old(mc.Free()), mc.Free(), c, pid, f0, f1)
            else mc.Free() == old(mc.Free()) && Restored(w0, w, pid)
  {
    ok, w, f0, f1 := SpawnUser(mc, w0, pd0, c, pid, img);
  }

  /** A process that is spawned and later reaped, or that could not be spawned, leaves exactly the
      free frames there were, the ledger, and every frame that was in use. */
  method SpawnThenReap(mc: Machine, ghost w0: World, pd0: nat, c: nat, pid: nat, img: seq<Byte>)
    returns (ok: bool, ghost w: World)
    requires mc.frames.Valid() && System(mc.mem, w0, mc.Free())
    requires mc.cr3 in w0.dirs && pd0 in w0.dirs && c in w0.pds && c !in w0.dirs && pid < 128
    modifies mc`mem, mc.frames.bitmap
    ensures mc.frames.Valid() && System(mc.mem, w, mc.Free())
    ensures mc.Free() == old(mc.Free()) && Restored(w0, w, pid)
    ensures Framed(old(mc.mem), mc.mem, old(mc.Free()) + {c}, Frame(w0.kstack), pid)
  {
    ghost var m, free, f0, f1 := mc.mem, mc.Free(), 0, 0;
    ok, w, f0, f1 := TrySpawn(mc, w0, pd0, c, pid, img);
    if ok {
      w := ReapAdded(mc, w0, w, m, free, c, pid, f0, f1);
    }
  }

  /** A fork that succeeds and is later reaped leaves exactly the free frames there were; one that
      fails does so exactly when there were at most two. */
  method ForkThenReap(mc: Machine, ghost w0: World, pd0: nat, c: nat, q: nat, pid: nat, half: nat, word: nat,
                      ghost g0: nat, ghost g1: nat)
    returns (ok: bool, ghost w: World)
    requires mc.frames.Valid() && System(mc.mem, w0, mc.Free())
    requires mc.cr3 in w0.dirs && pd0 in w0.dirs && c in w0.pds && c !in w0.dirs && pid < 128
    requires HasStack(w0, q, g0, g1) && q != pid && half < 2 && word < 1024
    modifies mc`mem, mc.frames.bitmap
    ensures mc.frames.Valid() && System(mc.mem, w, mc.Free()) && ok == (|old(mc.Free())| >= 2 + |Owned(w0, mc.cr3)|)
    ensures Restored(w0, w, pid) && (mc.Free() == old(mc.Free()) <==> ok || |old(mc.Free())| <= 2)
    ensures Framed(old(mc.mem), mc.mem, old(mc.Free()) + {c}, Frame(w0.kstack), pid)
  {
    ghost var m, free, f0, f1 := mc.mem, mc.Free(), 0, 0;
    ok, w, f0, f1 := ForkUser(mc, w0, pd0, c, q, pid, half, word, g0, g1);
    if ok {
      w := ReapAdded(mc, w0, w, m, free, c, pid, f0, f1);
    }
  }

  // ----- a run that leaks -----

  /** Takes frames until `n` are left, as kernel code that allocates them would. */
  method TakeAllBut(mc: Machine, ghost w: World, n: nat)
    requires mc.frames.Valid() && System(mc.mem, w, mc.Free()) && n <= |mc.Free()|
    modifies mc.frames.bitmap
    ensures mc.frames.Valid() && System(mc.mem, w, mc.Free()) && |mc.Free()| == n
  {
    var left := mc.frames.FreeCount();
    while left > n
      invariant mc.frames.Valid() && System(mc.mem, w, mc.Free()) && left == |mc.Free()| >= n
    {
      ghost var free := mc.Free();
      var _ := mc.frames.AllocFrame();
      KeepOnTake(mc.mem, w, free, mc.Free());
      LessOne(free, Lowest(free));
      left := left - 1;
    }
  }

  /** Six frames of the free ones are gone. */
  lemma SixLess(w0: World, w: World, free0: set<nat>, free: set<nat>, c: nat, pid: nat, f0: nat, f1: nat)
    requires Added(w0, w, free0, free, c, pid, f0, f1) && |Owned(w, c)| == 4
    ensures |free| == |free0| - 6
  {
    TwoLess(free0, f0, f1);
    Split(free0 - {f0, f1}, free);
    assert free0 - {f0, f1} - free == Owned(w, c);
  }

  /** `paging_proc_switch`. */
  method Switch(mc: Machine, p: nat)
    requires mc.frames.Valid()
    modifies mc`cr3
    ensures mc.cr3 == p && mc.frames.Valid() && mc.Free() == old(mc.Free())
  {
    mc.cr3 := p;
  }

  /** After a spawn both tables of the process have a page. */
  lemma LoadedPaged(m: Memory, w: World, c: nat, img: seq<Byte>)
    requires Ledger(m, w) && c in w.dirs && c < TOTAL && Loaded(m, c, img) && |Owned(w, c)| == 4
    ensures Paged(m, c)
  {
    forall k: nat | UserIndex(k) && HasTable(m, c, k)
      ensures HasPage(m, c, k)
    {
      if k != CODE_PDI && k != STACK_PDI { FiveOwned(m, w, c, k); }
    }
  }

  /** A third table would be a fifth frame. */
  lemma FiveOwned(m: Memory, w: World, c: nat, k: nat)
    requires Ledger(m, w) && c in w.dirs && c < TOTAL && UserIndex(k) && HasTable(m, c, k)
    requires k != CODE_PDI && k != STACK_PDI
    requires Present(Walk(m, c, CODE_PDI, CODE_PTI)) && Present(Walk(m, c, STACK_PDI, STACK_PTI))
    ensures |Owned(w, c)| > 4
  {
    var r0, r1 := PageRef(c, CODE_PDI, CODE_PTI), PageRef(c, STACK_PDI, STACK_PTI);
    assert Live(m, r0) && Live(m, r1);
    TableOwned(m, w, c, CODE_PDI);
    TableOwned(m, w, c, STACK_PDI);
    TableOwned(m, w, c, k);
    FiveIn(Owned(w, c), Target(m, r0), Target(m, r1), Table(m, c, CODE_PDI), Table(m, c, STACK_PDI), Table(m, c, k));
  }

  lemma FiveIn(s: set<nat>, a: nat, b: nat, c: nat, d: nat, e: nat)
    requires {a, b, c, d, e} <= s && a != b && a != c && a != d && a != e && b != c && b != d && b != e
    requires c != d && c != e && d != e
    ensures |s| > 4
  {
    Split(s, {a, b, c, d, e});
  }

  /** The current process has two tables with a page each, the scratch pages are clear, and `left`
      frames are enough for the stack of a child but not for all of its memory. */
  ghost predicate Short(m: Memory, w: World, p: nat, left: nat) {
    && p < TOTAL && p in w.dirs && Frame(w.kstack) < TOTAL && 3 <= left <= 5
    && Paged(m, p) && |Owned(w, p)| == 4 && ScratchClear(m, Frame(w.kstack))
  }

  /** Spawning with frames to spare. */
  method SpawnAmple(mc: Machine, ghost w0: World, pd0: nat, p: nat, pid: nat, img: seq<Byte>, ghost other: nat,
                    ghost left: nat)
    returns (ghost w: World, ghost g0: nat, ghost g1: nat)
    requires mc.frames.Valid() && System(mc.mem, w0, mc.Free()) && |mc.Free()| >= 11 && 0 < |img| <= 4096
    requires mc.cr3 in w0.dirs && pd0 in w0.dirs && p in w0.pds && p !in w0.dirs && pid < 128 && 3 <= left <= 5
    modifies mc`mem, mc.frames.bitmap
    ensures mc.frames.Valid() && System(mc.mem, w, mc.Free()) && |mc.Free()| >= 5
    ensures w.pds == w0.pds && pd0 in w.dirs && p in w.dirs && (other !in w0.dirs && other != p ==> other !in w.dirs)
    ensures HasStack(w, pid, g0, g1) && Short(mc.mem, w, p, left)
  {
    ghost var free0 := mc.Free();
    var ok;
    ok, w, g0, g1 := SpawnUser(mc, w0, pd0, p, pid, img);
    SixLess(w0, w, free0, mc.Free(), p, pid, g0, g1);
    LoadedPaged(mc.mem, w, p, img);
  }

  /** What is left in the scratch data page after a fork by such a process. */
  lemma ShortLeft(m0: Memory, m: Memory, w: World, p: nat, left: nat, lost: set<nat>)
    requires Ledger(m0, w) && Short(m0, w, p, left) && ScratchLeft(m0, m, w, p, Frame(w.kstack), left - 2, lost)
    ensures Present(m[Frame(w.kstack)][SCRATCH_DATA]) <==> left > 3
    ensures left > 3 ==> Frame(m[Frame(w.kstack)][SCRATCH_DATA]) in lost
  {
    PagedScratch(m0, w, p, left - 2);
  }

  /** The scratch data page maps a frame lost from `before`, exactly when that had more than three. */
  ghost predicate DataMapsLost(m: Memory, p: nat, before: set<nat>, free: set<nat>)
    requires p < TOTAL
  {
    var e := Walk(m, p, KSTACK_PDI, SCRATCH_DATA);
    (Present(e) <==> |before| > 3) && (Present(e) ==> Frame(e) in before && Frame(e) !in free)
  }

  lemma ShortOutcome(m0: Memory, m: Memory, w0: World, w: World, free0: set<nat>, free: set<nat>, p: nat)
    requires Ledger(m0, w0) && Short(m0, w0, p, |free0|) && Leaked(free0, free)
    requires System(m, w, free) && p in w.dirs && w.kstack == w0.kstack
    requires ScratchLeft(m0, m, w0, p, Frame(w0.kstack), |free0| - 2, free0 - free)
    ensures free < free0 && |free| == 2 && DataMapsLost(m, p, free0, free)
  {
    LeakedSome(free0, free);
    DataSeen(m, w, free, p);
    ShortLeft(m0, m, w0, p, |free0|, free0 - free);
  }

  lemma DataSeen(m: Memory, w: World, free: set<nat>, p: nat)
    requires System(m, w, free) && p in w.dirs
    ensures p < TOTAL && Frame(w.kstack) < TOTAL
    ensures Walk(m, p, KSTACK_PDI, SCRATCH_DATA) == m[Frame(w.kstack)][SCRATCH_DATA]
  {
    assert Space(m, w, free, p);
  }

  /** A fork that is bound to fail. */
  method ForkFails(mc: Machine, ghost w0: World, pd0: nat, c: nat, q: nat, pid: nat, ghost g0: nat, ghost g1: nat)
    returns (ok: bool, ghost w: World)
    requires mc.frames.Valid() && System(mc.mem, w0, mc.Free())
    requires mc.cr3 in w0.dirs && pd0 in w0.dirs && c in w0.pds && c !in w0.dirs && pid < 128
    requires HasStack(w0, q, g0, g1) && q != pid && |mc.Free()| < 2 + |Owned(w0, mc.cr3)|
    modifies mc`mem, mc.frames.bitmap
    ensures mc.frames.Valid() && !ok && Leaked(old(mc.Free()), mc.Free())
    ensures System(mc.mem, w, mc.Free()) && mc.cr3 in w.dirs && w.kstack == w0.kstack
    ensures ScratchLeft(old(mc.mem), mc.mem, w0, mc.cr3, Frame(w0.kstack), |old(mc.Free())| - 2,
                        old(mc.Free()) - mc.Free())
  {
    ghost var f0, f1;
    ok, w, f0, f1 := ForkUser(mc, w0, pd0, c, q, pid, 0, 0, g0, g1);
  }

  /** A fork with three to five frames by a process that owns four. */
  method ForkStarved(mc: Machine, ghost w0: World, pd0: nat, c: nat, q: nat, pid: nat, ghost g0: nat, ghost g1: nat)
    returns (ok: bool)
    requires mc.frames.Valid() && System(mc.mem, w0, mc.Free())
    requires mc.cr3 in w0.dirs && pd0 in w0.dirs && c in w0.pds && c !in w0.dirs && pid < 128
    requires HasStack(w0, q, g0, g1) && q != pid && Short(mc.mem, w0, mc.cr3, |mc.Free()|)
    modifies mc`mem, mc.frames.bitmap
    ensures mc.frames.Valid() && !ok && mc.Free() < old(mc.Free()) && |mc.Free()| == 2
    ensures mc.cr3 < TOTAL && DataMapsLost(mc.mem, mc.cr3, old(mc.Free()), mc.Free())
  {
    ghost var m, free, w := mc.mem, mc.Free(), w0;
    assert Ledger(m, w0);
    ok, w := ForkFails(mc, w0, pd0, c, q, pid, g0, g1);
    ShortOutcome(m, mc.mem, w0, w, free, mc.Free(), mc.cr3);
  }

  lemma LeakedSome(free0: set<nat>, free: set<nat>)
    requires Leaked(free0, free) && |free0| >= 3
    ensures free < free0 && |free| == 2
  {
  }

  /** The kernel takes all but `left` frames, then the process forks. */
  method ForkWithFew(mc: Machine, ghost w0: World, pd0: nat, c: nat, q: nat, pid: nat, ghost g0: nat, ghost g1: nat,
                     left: nat)
    returns (ok: bool, ghost before: set<nat>)
    requires mc.frames.Valid() && System(mc.mem, w0, mc.Free())
    requires mc.cr3 in w0.dirs && pd0 in w0.dirs && c in w0.pds && c !in w0.dirs && pid < 128
    requires HasStack(w0, q, g0, g1) && q != pid && left <= |mc.Free()| && Short(mc.mem, w0, mc.cr3, left)
    modifies mc`mem, mc.frames.bitmap
    ensures mc.frames.Valid() && !ok && |before| == left && mc.Free() < before && |mc.Free()| == 2
    ensures mc.cr3 < TOTAL && DataMapsLost(mc.mem, mc.cr3, before, mc.Free())
  {
    TakeAllBut(mc, w0, left);
    before := mc.Free();
    ok := ForkStarved(mc, w0, pd0, c, q, pid, g0, g1);
  }

  /** Boot, one process with pid 2 spawned and switched to. */
  method BootAndSpawn(boot: Memory, pd0: nat, table0: nat, p: nat, ghost c: nat, ghost pds: set<nat>, ghost left: nat)
    returns (mc: Machine, ghost w: World, ghost g0: nat, ghost g1: nat)
    requires pd0 < RESERVED && table0 < RESERVED && pd0 != table0 && pd0 != p && pd0 != c && p != c
    requires pd0 in pds && p in pds && c in pds && table0 !in pds && (forall d | d in pds :: d < RESERVED)
    requires 3 <= left <= 5
    ensures fresh(mc) && fresh(mc.frames.bitmap) && mc.frames.Valid() && System(mc.mem, w, mc.Free()) && mc.cr3 == p
    ensures p in w.dirs && pd0 in w.dirs && c in w.pds && c !in w.dirs && HasStack(w, 2, g0, g1)
    ensures |mc.Free()| >= 5 && Short(mc.mem, w, p, left)
  {
    mc, w := BootMemory(boot, pd0, table0, pds);
    w, g0, g1 := SpawnAmple(mc, w, pd0, p, 2, [0x90], c, left);
    Switch(mc, p);
  }

  /** A fork that leaks, from boot: one process is spawned and switched to, the kernel takes all but
      `left` frames, three, four or five, and the process forks. The fork fails, all but two of the
      frames are lost, and the scratch data page is left mapped to one of the lost frames exactly
      when there were more than three. */
  method LeakFromBoot(boot: Memory, pd0: nat, table0: nat, p: nat, c: nat, ghost pds: set<nat>, left: nat)
    returns (mc: Machine, ok: bool, ghost before: set<nat>)
    requires pd0 < RESERVED && table0 < RESERVED && pd0 != table0 && pd0 != p && pd0 != c && p != c
    requires pd0 in pds && p in pds && c in pds && table0 !in pds && (forall d | d in pds :: d < RESERVED)
    requires 3 <= left <= 5
    ensures fresh(mc) && mc.frames.Valid() && !ok && |before| == left && mc.Free() < before && |mc.Free()| == 2
    ensures mc.cr3 == p < TOTAL && DataMapsLost(mc.mem, p, before, mc.Free())
  {
    ghost var w, g0, g1;
    mc, w, g0, g1 := BootAndSpawn(boot, pd0, table0, p, c, pds, left);
    ok, before := ForkWithFew(mc, w, pd0, c, 2, 3, g0, g1, left);
  }
}
