/**
  Runs of the memory system: any sequence of spawns, forks, reaps and switches from boot, with every
  frame accounted for.
 */
module MemoryRuns {
  import opened FrameBitmap
  import opened PageTables
  import opened AddressSpaces
  import opened ForkCopying
  import opened UserImage
  import opened Spawn

  /** `page_directories`: the frame of each pid's directory. */
  predicate Directories(pd: seq<nat>) {
    && |pd| == 128 && (forall i: nat | i < 128 :: pd[i] < RESERVED)
    && forall i: nat, j: nat | i < j < 128 :: pd[i] != pd[j]
  }

  /** The frames mapped at the kernel-stack pages of `pid`. */
  ghost function StackOf(w: World, pid: nat): (s: set<nat>) {
    set f | f in w.stack && (w.stack[f] == 2 * pid || w.stack[f] == 2 * pid + 1)
  }

  /** Process `k` has a directory in use and a kernel stack of two pages. */
  ghost predicate Alive(w: World, pd: seq<nat>, k: nat)
    requires |pd| == 128
  {
    && 0 < k < 128 && pd[k] in w.pds && pd[k] in w.dirs
    && exists f0: nat, f1: nat :: HasStack(w, k, f0, f1) && StackOf(w, k) == {f0, f1}
  }

  /** Process `k` has nothing. */
  ghost predicate Gone(w: World, pd: seq<nat>, k: nat)
    requires |pd| == 128 && k < 128
  {
    pd[k] in w.pds && (k > 0 ==> pd[k] !in w.dirs) && Bare(w, pd[k]) && SlotsFree(w, k)
  }

  /** Exactly the processes `live` exist. */
  ghost predicate Peopled(w: World, pd: seq<nat>, live: set<nat>) {
    && Directories(pd) && pd[0] in w.dirs
    && (forall k {:trigger Alive(w, pd, k)} | k in live :: Alive(w, pd, k))
    && (forall k: nat {:trigger Gone(w, pd, k)} | k < 128 && k !in live :: Gone(w, pd, k))
  }

  lemma ThreeParts(a: set<nat>, b: set<nat>, c: set<nat>)
    requires a !! b && a !! c && b !! c
    ensures |a + b + c| == |a| + |b| + |c|
  {
  }

  // ----- the books -----

  /** What matters of the memory system: the number of free frames, of tables and pages of each
      process, the current process and the number of frames lost. */
  datatype Book = Book(free: nat, sizes: map<nat, nat>, cur: nat, lost: nat)

  /** Forks are made by the current process; `half` and `word` place its saved `eax`. */
  datatype Step = SpawnStep(pid: nat, img: seq<Byte>) | ForkStep(pid: nat, half: nat, word: nat)
                | ReapStep(pid: nat) | SwitchStep(pid: nat)

  /** What the callers see to: a new pid is unused, a process in existence is switched to or reaped, and
      the current one is not reaped. */
  predicate Enabled(b: Book, s: Step) {
    match s
    case SpawnStep(pid, _) => 0 < pid < 128 && pid !in b.sizes
    case ForkStep(pid, half, word) => 0 < pid < 128 && pid !in b.sizes && b.cur in b.sizes && half < 2 && word < 1024
    case ReapStep(pid) => pid in b.sizes && pid != b.cur
    case SwitchStep(pid) => pid == 0 || pid in b.sizes
  }

  function Next(b: Book, s: Step): (r: Book)
    requires Enabled(b, s)
  {
    match s
    case SpawnStep(pid, img) => if 0 < |img| <= 4096 && b.free >= 6 then Grow(b, pid, 4) else b
    case ForkStep(pid, _, _) =>
      var z := b.sizes[b.cur];
      if b.free >= 2 + z then Grow(b, pid, z)
      else if b.free <= 2 then b else b.(free := 2, lost := b.lost + (b.free - 2))
    case ReapStep(pid) => b.(free := b.free + 2 + b.sizes[pid], sizes := b.sizes - {pid})
    case SwitchStep(pid) => b.(cur := pid)
  }

  function Grow(b: Book, pid: nat, z: nat): (r: Book)
    requires b.free >= 2 + z
  {
    b.(free := b.free - 2 - z, sizes := b.sizes[pid := z])
  }

  /** A run; what is not enabled is not done. */
  function Run(b: Book, steps: seq<Step>): (r: Book)
    decreases |steps|
  {
    if steps == [] then b
    else var last := |steps| - 1;
      var r := Run(b, steps[..last]);
      if Enabled(r, steps[last]) then Next(r, steps[last]) else r
  }

  /** What the processes below `n` hold: two stack pages each, tables and pages. */
  function Held(sizes: map<nat, nat>, n: nat): (sum: nat) {
    if n == 0 then 0 else Held(sizes, n - 1) + if n - 1 in sizes then 2 + sizes[n - 1] else 0
  }

  lemma {:induction false} HeldWith(sizes: map<nat, nat>, pid: nat, z: nat, n: nat)
    requires pid !in sizes
    ensures Held(sizes[pid := z], n) == Held(sizes, n) + if pid < n then 2 + z else 0
  {
    if n > 0 { HeldWith(sizes, pid, z, n - 1); }
  }

  lemma {:induction false} NothingHeld(n: nat)
    ensures Held(map[], n) == 0
  {
    if n > 0 { NothingHeld(n - 1); }
  }

  ghost predicate Small(b: Book, n: nat) { forall k | k in b.sizes :: k < n }

  /** No step makes or destroys a frame. */
  lemma NextTotal(b: Book, s: Step, n: nat)
    requires Enabled(b, s) && n >= 128 && Small(b, n)
    ensures var r := Next(b, s);
            Small(r, n) && r.free + Held(r.sizes, n) + r.lost == b.free + Held(b.sizes, n) + b.lost
  {
    match s
    case SpawnStep(pid, _) => HeldWith(b.sizes, pid, 4, n);
    case ForkStep(pid, _, _) => HeldWith(b.sizes, pid, b.sizes[b.cur], n);
    case ReapStep(pid) =>
      HeldWith(b.sizes - {pid}, pid, b.sizes[pid], n);
      assert (b.sizes - {pid})[pid := b.sizes[pid]] == b.sizes;
    case SwitchStep(pid) =>
  }

  lemma {:induction false} RunTotal(b: Book, steps: seq<Step>, n: nat)
    requires n >= 128 && Small(b, n)
    ensures var r := Run(b, steps);
            Small(r, n) && r.free + Held(r.sizes, n) + r.lost == b.free + Held(b.sizes, n) + b.lost
    decreases |steps|
  {
    if steps != [] {
      var last := |steps| - 1;
      RunTotal(b, steps[..last], n);
      var r := Run(b, steps[..last]);
      if Enabled(r, steps[last]) { NextTotal(r, steps[last], n); }
    }
  }

  /** The books agree with the ledger. */
  ghost predicate Booked(w: World, free: set<nat>, pd: seq<nat>, b: Book) {
    && Peopled(w, pd, b.sizes.Keys) && |free| == b.free
    && (forall k | k in b.sizes :: k < 128 && |Owned(w, pd[k])| == b.sizes[k])
    && (b.cur == 0 || b.cur in b.sizes)
  }

  /** The ledger `w` is `w0` with frames for directory `c` and the stack pages `f0`, `f1`. */
  ghost predicate Extends(w0: World, w: World, c: nat, f0: nat, f1: nat) {
    && (forall f | f in w0.own :: f in w.own && w.own[f] == w0.own[f])
    && (forall f | f in w.own && f !in w0.own :: w.own[f].dir == c)
    && (forall f | f in w0.stack :: f in w.stack && w.stack[f] == w0.stack[f])
    && (forall f | f in w.stack && f !in w0.stack :: f == f0 || f == f1)
    && f0 !in w0.stack && f1 !in w0.stack && f0 in w.stack && f1 in w.stack
  }

  /** An added process adds its stack and what it owns to the ledger, and nothing else. */
  lemma AddedExtends(w0: World, w: World, free0: set<nat>, free: set<nat>, c: nat, pid: nat, f0: nat, f1: nat)
    requires Added(w0, w, free0, free, c, pid, f0, f1) && SlotsFree(w0, pid)
    ensures Extends(w0, w, c, f0, f1)
  {
    var w1 := Unstacked(Unstacked(w, f0), f1);
    assert Forgotten(w1, c) == w0;
    assert w0.stack == w.stack - {f0} - {f1} && w0.own == w.own - Owned(w1, c);
    forall f | f in w.own && f !in w0.own
      ensures w.own[f].dir == c
    {
      assert f in Owned(w1, c);
    }
  }

  lemma OthersOwned(w0: World, w: World, c: nat, f0: nat, f1: nat, d: nat)
    requires Extends(w0, w, c, f0, f1) && d != c
    ensures Owned(w, d) == Owned(w0, d)
  {
  }

  lemma AddedAlive(w0: World, w: World, pd: seq<nat>, pid: nat, f0: nat, f1: nat, k: nat)
    requires Directories(pd) && pid < 128 && Extends(w0, w, pd[pid], f0, f1) && HasStack(w, pid, f0, f1)
    requires w.pds == w0.pds && w.dirs == w0.dirs + {pd[pid]} && k < 128 && k != pid
    ensures Alive(w0, pd, k) ==> Alive(w, pd, k)
    ensures Gone(w0, pd, k) ==> Gone(w, pd, k)
  {
    assert StackOf(w, k) == StackOf(w0, k);
    if Alive(w0, pd, k) {
      var g0: nat, g1: nat :| HasStack(w0, k, g0, g1) && StackOf(w0, k) == {g0, g1};
      assert HasStack(w, k, g0, g1);
    }
    assert pd[k] != pd[pid];
  }

  lemma AddedNew(w0: World, w: World, pd: seq<nat>, pid: nat, f0: nat, f1: nat)
    requires Directories(pd) && 0 < pid < 128 && Extends(w0, w, pd[pid], f0, f1) && HasStack(w, pid, f0, f1)
    requires w.pds == w0.pds && w.dirs == w0.dirs + {pd[pid]} && Gone(w0, pd, pid)
    ensures Alive(w, pd, pid)
  {
    assert StackOf(w, pid) == {f0, f1};
  }

  lemma AddedPeople(w0: World, w: World, pd: seq<nat>, live: set<nat>, pid: nat, f0: nat, f1: nat)
    requires Peopled(w0, pd, live) && 0 < pid < 128 && pid !in live && Extends(w0, w, pd[pid], f0, f1)
    requires w.pds == w0.pds && w.dirs == w0.dirs + {pd[pid]} && HasStack(w, pid, f0, f1)
    ensures Peopled(w, pd, live + {pid})
  {
    forall k: nat | k < 128 && k != pid
      ensures if k in live then Alive(w, pd, k) else Gone(w, pd, k)
    {
      AddedAlive(w0, w, pd, pid, f0, f1, k);
    }
    AddedNew(w0, w, pd, pid, f0, f1);
    assert forall k | k in live :: Alive(w0, pd, k);
  }

  lemma AddedCount(free0: set<nat>, free: set<nat>, f0: nat, f1: nat, owned: set<nat>)
    requires f0 in free0 && f1 in free0 && f0 != f1 && owned <= free0 && f0 !in owned && f1 !in owned
    requires free == free0 - {f0, f1} - owned
    ensures |free0| == |free| + 2 + |owned|
  {
    ThreeParts(free, {f0, f1}, owned);
    assert free0 == free + {f0, f1} + owned;
  }

  /** Only the new process changed its size. */
  lemma SizesGrow(w0: World, w: World, pd: seq<nat>, sizes: map<nat, nat>, pid: nat, f0: nat, f1: nat, z: nat)
    requires Directories(pd) && pid < 128 && pid !in sizes && Extends(w0, w, pd[pid], f0, f1)
    requires forall k | k in sizes :: k < 128 && |Owned(w0, pd[k])| == sizes[k]
    requires z == |Owned(w, pd[pid])|
    ensures forall k | k in sizes[pid := z] :: k < 128 && |Owned(w, pd[k])| == sizes[pid := z][k]
  {
    forall k | k in sizes
      ensures Owned(w, pd[k]) == Owned(w0, pd[k])
    {
      OthersOwned(w0, w, pd[pid], f0, f1, pd[k]);
    }
  }

  lemma AddedBalance(w0: World, w: World, free0: set<nat>, free: set<nat>, c: nat, pid: nat, f0: nat, f1: nat)
    requires Added(w0, w, free0, free, c, pid, f0, f1)
    ensures |free0| == |free| + 2 + |Owned(w, c)|
  {
    AddedCount(free0, free, f0, f1, Owned(w, c));
  }

  /** A process of size `z` joined with stack pages `f0`, `f1`: the ledger has these and what it owns,
      and nothing else changed. */
  ghost predicate JoinedWith(w0: World, w: World, free0: set<nat>, free: set<nat>, c: nat, pid: nat, f0: nat, f1: nat,
                             z: nat) {
    && Extends(w0, w, c, f0, f1) && HasStack(w, pid, f0, f1) && w.pds == w0.pds && w.dirs == w0.dirs + {c}
    && |Owned(w, c)| == z && |free0| == |free| + 2 + z
  }

  ghost predicate Joined(w0: World, w: World, free0: set<nat>, free: set<nat>, c: nat, pid: nat, z: nat) {
    exists f0: nat, f1: nat :: JoinedWith(w0, w, free0, free, c, pid, f0, f1, z)
  }

  lemma AddedJoined(w0: World, w: World, free0: set<nat>, free: set<nat>, c: nat, pid: nat, f0: nat, f1: nat)
    requires Added(w0, w, free0, free, c, pid, f0, f1) && SlotsFree(w0, pid)
    ensures Joined(w0, w, free0, free, c, pid, |Owned(w, c)|)
  {
    AddedExtends(w0, w, free0, free, c, pid, f0, f1);
    AddedBalance(w0, w, free0, free, c, pid, f0, f1);
    assert JoinedWith(w0, w, free0, free, c, pid, f0, f1, |Owned(w, c)|);
  }

  /** A process that joined is booked. */
  lemma JoinedBooked(w0: World, w: World, free0: set<nat>, free: set<nat>, pd: seq<nat>, b: Book, pid: nat, z: nat)
    requires Booked(w0, free0, pd, b) && 0 < pid < 128 && pid !in b.sizes
    requires Joined(w0, w, free0, free, pd[pid], pid, z)
    ensures b.free >= 2 + z && Booked(w, free, pd, Grow(b, pid, z))
  {
    var f0: nat, f1: nat :| JoinedWith(w0, w, free0, free, pd[pid], pid, f0, f1, z);
    assert Peopled(w, pd, b.sizes[pid := z].Keys) by {
      AddedPeople(w0, w, pd, b.sizes.Keys, pid, f0, f1);
      assert b.sizes[pid := z].Keys == b.sizes.Keys + {pid};
    }
    SizesGrow(w0, w, pd, b.sizes, pid, f0, f1, z);
  }

  // ----- reaping -----

  /** The ledger without a process. */
  ghost function Reaped(w: World, c: nat, f0: nat, f1: nat): (r: World) {
    Forgotten(Unstacked(Unstacked(w, f0), f1), c)
  }

  lemma ReapedExtends(w: World, c: nat, f0: nat, f1: nat)
    requires f0 in w.stack && f1 in w.stack
    ensures Extends(Reaped(w, c, f0, f1), w, c, f0, f1) && Bare(Reaped(w, c, f0, f1), c)
  {
    var w1 := Unstacked(Unstacked(w, f0), f1);
    assert Owned(w1, c) == Owned(w, c);
    assert w1.stack == w.stack - {f0} - {f1};
  }

  lemma ReapedAlive(w: World, pd: seq<nat>, pid: nat, f0: nat, f1: nat, k: nat)
    requires Directories(pd) && pid < 128 && HasStack(w, pid, f0, f1) && k < 128 && k != pid
    ensures Alive(w, pd, k) ==> Alive(Reaped(w, pd[pid], f0, f1), pd, k)
    ensures Gone(w, pd, k) ==> Gone(Reaped(w, pd[pid], f0, f1), pd, k)
  {
    var w' := Reaped(w, pd[pid], f0, f1);
    ReapedExtends(w, pd[pid], f0, f1);
    assert StackOf(w', k) == StackOf(w, k);
    if Alive(w, pd, k) {
      var g0: nat, g1: nat :| HasStack(w, k, g0, g1) && StackOf(w, k) == {g0, g1};
      assert HasStack(w', k, g0, g1);
    }
    assert pd[k] != pd[pid];
  }

  lemma ReapedGone(w: World, pd: seq<nat>, pid: nat, f0: nat, f1: nat)
    requires Directories(pd) && Alive(w, pd, pid) && HasStack(w, pid, f0, f1) && StackOf(w, pid) == {f0, f1}
    ensures Gone(Reaped(w, pd[pid], f0, f1), pd, pid)
  {
    var w' := Reaped(w, pd[pid], f0, f1);
    ReapedExtends(w, pd[pid], f0, f1);
    forall f | f in w'.stack
      ensures w'.stack[f] != 2 * pid && w'.stack[f] != 2 * pid + 1
    {
      assert f in StackOf(w, pid) ==> f == f0 || f == f1;
    }
  }

  lemma ReapedPeople(w: World, pd: seq<nat>, live: set<nat>, pid: nat, f0: nat, f1: nat)
    requires Peopled(w, pd, live) && pid in live && HasStack(w, pid, f0, f1) && StackOf(w, pid) == {f0, f1}
    ensures Peopled(Reaped(w, pd[pid], f0, f1), pd, live - {pid})
  {
    assert Alive(w, pd, pid);
    ReapedExtends(w, pd[pid], f0, f1);
    ReapedGone(w, pd, pid, f0, f1);
    forall k: nat | k < 128 && k != pid
      ensures if k in live then Alive(Reaped(w, pd[pid], f0, f1), pd, k) else Gone(Reaped(w, pd[pid], f0, f1), pd, k)
    {
      ReapedAlive(w, pd, pid, f0, f1, k);
    }
    assert forall k | k in live :: Alive(w, pd, k);
  }

  lemma SizesShrink(w: World, pd: seq<nat>, sizes: map<nat, nat>, pid: nat, f0: nat, f1: nat)
    requires Directories(pd) && pid < 128 && f0 in w.stack && f1 in w.stack
    requires forall k | k in sizes :: k < 128 && |Owned(w, pd[k])| == sizes[k]
    ensures forall k | k in sizes - {pid} :: k < 128 && |Owned(Reaped(w, pd[pid], f0, f1), pd[k])| == (sizes - {pid})[k]
  {
    var w' := Reaped(w, pd[pid], f0, f1);
    ReapedExtends(w, pd[pid], f0, f1);
    forall k | k in sizes && k != pid
      ensures Owned(w, pd[k]) == Owned(w', pd[k])
    {
      OthersOwned(w', w, pd[pid], f0, f1, pd[k]);
    }
  }

  lemma ReapedCount(m: Memory, w: World, free: set<nat>, c: nat, f0: nat, f1: nat)
    requires System(m, w, free) && f0 in w.stack && f1 in w.stack && f0 != f1
    ensures |free + {f0, f1} + Owned(w, c)| == |free| + 2 + |Owned(w, c)|
  {
    ThreeParts(free, {f0, f1}, Owned(w, c));
  }

  /** A process that was reaped is struck from the books. */
  lemma ReapedBooked(w: World, free: set<nat>, free': set<nat>, pd: seq<nat>, b: Book, pid: nat,
                     f0: nat, f1: nat)
    requires Booked(w, free, pd, b) && Enabled(b, ReapStep(pid)) && pid < 128
    requires HasStack(w, pid, f0, f1) && StackOf(w, pid) == {f0, f1} && |free'| == |free| + 2 + |Owned(w, pd[pid])|
    ensures Booked(Reaped(w, pd[pid], f0, f1), free', pd, Next(b, ReapStep(pid)))
  {
    assert Peopled(Reaped(w, pd[pid], f0, f1), pd, (b.sizes - {pid}).Keys) by {
      ReapedPeople(w, pd, b.sizes.Keys, pid, f0, f1);
      assert (b.sizes - {pid}).Keys == b.sizes.Keys - {pid};
    }
    SizesShrink(w, pd, b.sizes, pid, f0, f1);
  }

  // ----- the machine keeps the books -----

  /** The machine, its ledger and its books. */
  ghost predicate Kept(mc: Machine, w: World, pd: seq<nat>, b: Book)
    reads mc, mc.frames, mc.frames.bitmap
  {
    && mc.frames.Valid() && System(mc.mem, w, mc.Free()) && Booked(w, mc.Free(), pd, b)
    && b.cur < 128 && mc.cr3 == pd[b.cur] && mc.cr3 in w.dirs
  }

  /** A pid that is not in use has a directory that is not in use, and no stack. */
  lemma Vacant(w: World, pd: seq<nat>, live: set<nat>, pid: nat)
    requires Peopled(w, pd, live) && 0 < pid < 128 && pid !in live
    ensures pd[pid] in w.pds && pd[pid] !in w.dirs && SlotsFree(w, pid) && pd[0] in w.dirs
  {
    assert Gone(w, pd, pid);
  }

  /** The current directory is in use. */
  lemma CurrentInUse(w: World, pd: seq<nat>, live: set<nat>, cur: nat)
    requires Peopled(w, pd, live) && (cur == 0 || cur in live)
    ensures cur < 128 && pd[cur] in w.dirs
  {
    if cur in live { assert Alive(w, pd, cur); }
  }

  /** A process in existence has a stack, and no other process its directory. */
  lemma StackExists(w: World, pd: seq<nat>, live: set<nat>, k: nat, q: nat) returns (f0: nat, f1: nat)
    requires Peopled(w, pd, live) && k in live && q < 128
    ensures 0 < k < 128 && HasStack(w, k, f0, f1) && StackOf(w, k) == {f0, f1} && pd[k] in w.dirs
    ensures k != q ==> pd[k] != pd[q]
  {
    assert Alive(w, pd, k);
    f0, f1 :| HasStack(w, k, f0, f1) && StackOf(w, k) == {f0, f1};
  }

  /** `spawn_user`, as far as the ledger goes. */
  method SpawnLedger(mc: Machine, ghost w0: World, pd0: nat, c: nat, pid: nat, img: seq<Byte>)
    returns (ok: bool, ghost w: World, ghost f0: nat, ghost f1: nat)
    requires mc.frames.Valid() && System(mc.mem, w0, mc.Free())
    requires mc.cr3 in w0.dirs && pd0 in w0.dirs && c in w0.pds && c !in w0.dirs && pid < 128
    modifies mc`mem, mc.frames.bitmap
    ensures mc.frames.Valid() && System(mc.mem, w, mc.Free())
    ensures ok == (0 < |img| <= 4096 && |old(mc.Free())| >= 6)
    ensures if ok then Added(w0, w, old(mc.Free()), mc.Free(), c, pid, f0, f1) && |Owned(w, c)| == 4
            else mc.Free() == old(mc.Free()) && Restored(w0, w, pid)
  {
    ok, w, f0, f1 := SpawnUser(mc, w0, pd0, c, pid, img);
  }

  /** `spawn_user` for an unused pid. */
  method SpawnFor(mc: Machine, ghost w0: World, pd0: nat, c: nat, pid: nat, img: seq<Byte>)
    returns (ok: bool, ghost w: World)
    requires mc.frames.Valid() && System(mc.mem, w0, mc.Free()) && SlotsFree(w0, pid)
    requires mc.cr3 in w0.dirs && pd0 in w0.dirs && c in w0.pds && c !in w0.dirs && pid < 128
    modifies mc`mem, mc.frames.bitmap
    ensures mc.frames.Valid() && System(mc.mem, w, mc.Free()) && mc.cr3 in w.dirs
    ensures ok == (0 < |img| <= 4096 && |old(mc.Free())| >= 6)
    ensures if ok then Joined(w0, w, old(mc.Free()), mc.Free(), c, pid, 4)
            else |mc.Free()| == |old(mc.Free())| && w == w0
  {
    ghost var free, f0, f1 := mc.Free(), 0, 0;
    ok, w, f0, f1 := SpawnLedger(mc, w0, pd0, c, pid, img);
    if ok { AddedJoined(w0, w, free, mc.Free(), c, pid, f0, f1); }
  }

  /** `task_fork` for an unused pid, by a process of size `z`. */
  method ForkFor(mc: Machine, ghost w0: World, pd0: nat, c: nat, q: nat, pid: nat, half: nat, word: nat, ghost z: nat)
    returns (ok: bool, ghost w: World)
    requires mc.frames.Valid() && System(mc.mem, w0, mc.Free()) && SlotsFree(w0, pid)
    requires mc.cr3 in w0.dirs && pd0 in w0.dirs && c in w0.pds && c !in w0.dirs && pid < 128
    requires (exists g0: nat, g1: nat :: HasStack(w0, q, g0, g1)) && q != pid && half < 2 && word < 1024
    requires |Owned(w0, mc.cr3)| == z
    modifies mc`mem, mc.frames.bitmap
    ensures mc.frames.Valid() && System(mc.mem, w, mc.Free()) && mc.cr3 in w.dirs
    ensures ok == (|old(mc.Free())| >= 2 + z)
    ensures if ok then Joined(w0, w, old(mc.Free()), mc.Free(), c, pid, z)
            else |mc.Free()| == (if |old(mc.Free())| <= 2 then |old(mc.Free())| else 2) && w == w0
  {
    ghost var g0: nat, g1: nat :| HasStack(w0, q, g0, g1);
    ghost var free, f0, f1 := mc.Free(), 0, 0;
    ok, w, f0, f1 := ForkUser(mc, w0, pd0, c, q, pid, half, word, g0, g1);
    if ok { AddedJoined(w0, w, free, mc.Free(), c, pid, f0, f1); }
  }

  /** The memory side of `task_reap`. */
  method ReapFor(mc: Machine, ghost w0: World, c: nat, pid: nat, ghost f0: nat, ghost f1: nat)
    requires mc.frames.Valid() && System(mc.mem, w0, mc.Free()) && mc.cr3 in w0.dirs && c in w0.dirs && c != mc.cr3
    requires HasStack(w0, pid, f0, f1)
    modifies mc`mem, mc.frames.bitmap
    ensures mc.frames.Valid() && System(mc.mem, Reaped(w0, c, f0, f1), mc.Free())
    ensures mc.cr3 in Reaped(w0, c, f0, f1).dirs
    ensures |mc.Free()| == |old(mc.Free())| + 2 + |Owned(w0, c)|
  {
    ReapedCount(mc.mem, w0, mc.Free(), c, f0, f1);
    ReapMemory(mc, w0, c, pid, f0, f1);
  }

  /** The outcome of a spawn or fork of a process of size `z`, booked. */
  lemma OutcomeBooked(w0: World, w: World, free0: set<nat>, free: set<nat>, pd: seq<nat>, b: Book, b': Book, pid: nat,
                      z: nat, ok: bool)
    requires Booked(w0, free0, pd, b) && 0 < pid < 128 && pid !in b.sizes
    requires if ok then Joined(w0, w, free0, free, pd[pid], pid, z) else w == w0
    requires b' == if ok && b.free >= 2 + z then Grow(b, pid, z) else b.(free := b'.free, lost := b'.lost)
    requires !ok ==> |free| == b'.free
    ensures Booked(w, free, pd, b')
  {
    if ok { JoinedBooked(w0, w, free0, free, pd, b, pid, z); }
  }

  method DoSpawn(mc: Machine, ghost w0: World, pd: seq<nat>, b: Book, pid: nat, img: seq<Byte>) returns (ghost w: World)
    requires Kept(mc, w0, pd, b) && Enabled(b, SpawnStep(pid, img))
    modifies mc`mem, mc.frames.bitmap
    ensures Kept(mc, w, pd, Next(b, SpawnStep(pid, img)))
  {
    ghost var free, b' := mc.Free(), Next(b, SpawnStep(pid, img));
    Vacant(w0, pd, b.sizes.Keys, pid);
    var ok;
    ok, w := SpawnFor(mc, w0, pd[0], pd[pid], pid, img);
    OutcomeBooked(w0, w, free, mc.Free(), pd, b, b', pid, 4, ok);
  }

  method DoFork(mc: Machine, ghost w0: World, pd: seq<nat>, b: Book, pid: nat, half: nat, word: nat)
    returns (ghost w: World)
    requires Kept(mc, w0, pd, b) && Enabled(b, ForkStep(pid, half, word))
    modifies mc`mem, mc.frames.bitmap
    ensures Kept(mc, w, pd, Next(b, ForkStep(pid, half, word)))
  {
    ghost var free, b' := mc.Free(), Next(b, ForkStep(pid, half, word));
    Vacant(w0, pd, b.sizes.Keys, pid);
    assert exists g0: nat, g1: nat :: HasStack(w0, b.cur, g0, g1) by { assert Alive(w0, pd, b.cur); }
    var ok;
    ok, w := ForkFor(mc, w0, pd[0], pd[pid], b.cur, pid, half, word, b.sizes[b.cur]);
    OutcomeBooked(w0, w, free, mc.Free(), pd, b, b', pid, b.sizes[b.cur], ok);
  }

  method DoReap(mc: Machine, ghost w0: World, pd: seq<nat>, b: Book, pid: nat) returns (ghost w: World)
    requires Kept(mc, w0, pd, b) && Enabled(b, ReapStep(pid))
    modifies mc`mem, mc.frames.bitmap
    ensures Kept(mc, w, pd, Next(b, ReapStep(pid)))
  {
    ghost var free := mc.Free();
    ghost var f0, f1 := StackExists(w0, pd, b.sizes.Keys, pid, b.cur);
    w := Reaped(w0, pd[pid], f0, f1);
    ReapFor(mc, w0, pd[pid], pid, f0, f1);
    ReapedBooked(w0, free, mc.Free(), pd, b, pid, f0, f1);
  }

  /** One step of the memory system does what the books say. */
  method Do(mc: Machine, ghost w0: World, pd: seq<nat>, b: Book, s: Step) returns (ghost w: World)
    requires Kept(mc, w0, pd, b) && Enabled(b, s)
    modifies mc`mem, mc`cr3, mc.frames.bitmap
    ensures Kept(mc, w, pd, Next(b, s))
  {
    w := w0;
    match s
    case SpawnStep(pid, img) =>
      w := DoSpawn(mc, w0, pd, b, pid, img);
    case ForkStep(pid, half, word) =>
      w := DoFork(mc, w0, pd, b, pid, half, word);
    case ReapStep(pid) =>
      w := DoReap(mc, w0, pd, b, pid);
    case SwitchStep(pid) =>
      CurrentInUse(w0, pd, b.sizes.Keys, pid);
      Switch(mc, pd[pid]);
  }

  /** A step that is not enabled is not done. */
  method Try(mc: Machine, ghost w0: World, pd: seq<nat>, b0: Book, s: Step) returns (b: Book, ghost w: World)
    requires Kept(mc, w0, pd, b0)
    modifies mc`mem, mc`cr3, mc.frames.bitmap
    ensures Kept(mc, w, pd, b) && b == if Enabled(b0, s) then Next(b0, s) else b0
  {
    b, w := b0, w0;
    if Enabled(b0, s) {
      w := Do(mc, w0, pd, b0, s);
      b := Next(b0, s);
    }
  }

  lemma RunOn(b: Book, steps: seq<Step>, n: nat)
    requires n < |steps|
    ensures var r := Run(b, steps[..n]);
            Run(b, steps[..n + 1]) == if Enabled(r, steps[n]) then Next(r, steps[n]) else r
    ensures n + 1 == |steps| ==> Run(b, steps[..n + 1]) == Run(b, steps)
  {
    assert steps[..n + 1][..n] == steps[..n];
    assert n + 1 == |steps| ==> steps[..n + 1] == steps;
  }

  /** Every run does what the books say: the number of free frames, the processes and the size of each
      after any sequence of steps are those computed by `Run`. */
  method DoAll(mc: Machine, ghost w0: World, pd: seq<nat>, b0: Book, steps: seq<Step>) returns (b: Book, ghost w: World)
    requires Kept(mc, w0, pd, b0)
    modifies mc`mem, mc`cr3, mc.frames.bitmap
    ensures Kept(mc, w, pd, b) && b == Run(b0, steps)
  {
    b, w := b0, w0;
    for n := 0 to |steps|
      invariant Kept(mc, w, pd, b) && b == Run(b0, steps[..n])
      invariant n == |steps| ==> b == Run(b0, steps)
    {
      RunOn(b0, steps, n);
      b, w := Try(mc, w, pd, b, steps[n]);
    }
  }

  lemma BootPeopled(w: World, pd: seq<nat>)
    requires Directories(pd) && w.pds == (set k: nat | k < |pd| :: pd[k]) && w.own == map[] && w.stack == map[]
    requires pd[0] in w.dirs && forall d | d in w.dirs :: d == pd[0]
    ensures Peopled(w, pd, {})
  {
    forall k: nat | k < 128
      ensures pd[k] in w.pds && Gone(w, pd, k)
    {
      assert k > 0 ==> pd[0] != pd[k];
    }
  }

  /** The books at boot, with the kernel-stack table in place. */
  const BOOT := Book(TOTAL - RESERVED - 1, map[], 0, 0)

  /** From boot, after any sequence of spawns, forks, reaps and switches, failed ones included, the
      machine is as the books say. Free frames, frames lost in failed forks, and two stack pages
      with all tables and pages of every process make up the frames there were. */
  method RunFromBoot(boot: Memory, table0: nat, pd: seq<nat>, steps: seq<Step>)
    returns (mc: Machine, b: Book, ghost w: World)
    requires Directories(pd) && table0 < RESERVED && forall i: nat | i < |pd| :: pd[i] != table0
    ensures fresh(mc) && Kept(mc, w, pd, b) && b == Run(BOOT, steps)
    ensures |mc.Free()| + Held(b.sizes, |pd|) + b.lost == TOTAL - RESERVED - 1
  {
    ghost var pds := set k: nat | k < |pd| :: pd[k];
    mc, w := BootMemory(boot, pd[0], table0, pds);
    BootPeopled(w, pd);
    assert BOOT.sizes.Keys == {};
    b, w := DoAll(mc, w, pd, BOOT, steps);
    RunTotal(BOOT, steps, |pd|);
    NothingHeld(|pd|);
  }
}
