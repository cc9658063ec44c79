/**
  `paging_proc_teardown`: the user frames of a dead process go back to the allocator, each once.
 */
module Teardown {
  import opened FrameBitmap
  import opened PageTables
  import opened AddressSpaces
  import opened ForkCopying

  /** The frames of the first `n` pages of a table. */
  ghost function PagesUpTo(m: Memory, c: nat, i: nat, n: nat): (s: set<nat>)
    requires c < TOTAL && i < 1024 && n <= 1024
  {
    set j: nat | j < n && Present(Walk(m, c, i, j)) :: Frame(Walk(m, c, i, j))
  }

  /** `phys_free_frame` on a frame that is not free: no double free can pass. */
  method FreeOnce(mc: Machine, f: nat)
    requires mc.frames.Valid() && RESERVED <= f < TOTAL && f !in mc.Free()
    modifies mc.frames.bitmap
    ensures mc.frames.Valid() && mc.Free() == old(mc.Free()) + {f}
  {
    mc.frames.FreeFrame(f * FRAME_SIZE);
  }

  /** The inner loop: frees every page of the table seen at the scratch page. */
  method FreePages(mc: Machine, ghost m: Memory, ghost c: nat, ghost i: nat)
    requires Runs(mc, {}) && c < TOTAL && i < 1024 && HasTable(m, c, i) && Table(m, c, i) < TOTAL
    requires Walk(mc.mem, mc.cr3, KSTACK_PDI, SCRATCH_TABLE) == Entry(Table(m, c, i), PRESENT + RW)
    requires mc.mem[Table(m, c, i)] == m[Table(m, c, i)]
    requires forall j: nat | j < 1024 && Present(Walk(m, c, i, j)) ::
               RESERVED <= Frame(Walk(m, c, i, j)) < TOTAL && Frame(Walk(m, c, i, j)) !in mc.Free()
    requires forall j: nat, k: nat | j < k < 1024 && Present(Walk(m, c, i, j)) && Present(Walk(m, c, i, k)) ::
               Frame(Walk(m, c, i, j)) != Frame(Walk(m, c, i, k))
    modifies mc.frames.bitmap
    ensures mc.frames.Valid() && mc.Free() == old(mc.Free()) + PagesUpTo(m, c, i, 1024)
  {
    for n := 0 to 1024
      invariant mc.frames.Valid() && mc.Free() == old(mc.Free()) + PagesUpTo(m, c, i, n)
    {
      var pte := mc.Load(KSTACK_PDI, SCRATCH_TABLE, n);
      assert pte == Walk(m, c, i, n);
      assert PagesUpTo(m, c, i, n + 1) == PagesUpTo(m, c, i, n) + if Present(pte) then {Frame(pte)} else {};
      if Present(pte) {
        FreeOnce(mc, Frame(pte));
      }
    }
  }

  lemma TablePages(m: Memory, w: World, free: set<nat>, c: nat, i: nat)
    requires System(m, w, free) && c in w.dirs && UserIndex(i) && HasTable(m, c, i)
    ensures Table(m, c, i) in w.own && w.own[Table(m, c, i)] == TableRef(c, i)
    ensures forall j: nat | j < 1024 && Present(Walk(m, c, i, j)) ::
              Frame(Walk(m, c, i, j)) in w.own && w.own[Frame(Walk(m, c, i, j))] == PageRef(c, i, j)
    ensures Below(w, c, i) == PagesUpTo(m, c, i, 1024) + {Table(m, c, i)}
  {
    TableOwned(m, w, c, i);
    ChildPages(m, w, free, c, i);
    forall f | f in Below(w, c, i)
      ensures f in PagesUpTo(m, c, i, 1024) + {Table(m, c, i)}
    {
      var r := w.own[f];
      assert Live(m, r) && Target(m, r) == f;
      if r.PageRef? {
        assert Present(Walk(m, c, i, r.j));
      }
    }
  }

  /** The pages of table `i` and the table are distinct frames in use, none read by directory `p`. */
  ghost predicate Releasable(m: Memory, free: set<nat>, p: nat, c: nat, i: nat)
    requires p < TOTAL && c < TOTAL && i < 1024
  {
    && RESERVED <= Table(m, c, i) < TOTAL && Table(m, c, i) !in free && !Reads(m, p, Table(m, c, i))
    && (forall j: nat | j < 1024 && Present(Walk(m, c, i, j)) ::
          && RESERVED <= Frame(Walk(m, c, i, j)) < TOTAL && Frame(Walk(m, c, i, j)) !in free
          && Frame(Walk(m, c, i, j)) != Table(m, c, i))
    && (forall j: nat, k: nat | j < k < 1024 && Present(Walk(m, c, i, j)) && Present(Walk(m, c, i, k)) ::
          Frame(Walk(m, c, i, j)) != Frame(Walk(m, c, i, k)))
    && FreeUnread(m, p, free + PagesUpTo(m, c, i, 1024))
  }

  /** One round of the outer loop, on the machine: the pages, then the table, go back to the
      allocator, the directory entry is cleared and the scratch page is unmapped; no other word changes. */
  method ReleaseTable(mc: Machine, c: nat, i: nat)
    requires Runs(mc, {}) && c < RESERVED && i < 1024 && HasTable(mc.mem, c, i)
    requires Walk(mc.mem, mc.cr3, 0, c) == Entry(c, PRESENT + RW) && !Reads(mc.mem, mc.cr3, c)
    requires Releasable(mc.mem, mc.Free(), mc.cr3, c, i)
    modifies mc`mem, mc.frames.bitmap
    ensures Runs(mc, {})
    ensures mc.Free() == old(mc.Free()) + (PagesUpTo(old(mc.mem), c, i, 1024) + {Table(old(mc.mem), c, i)})
    ensures mc.cr3 < TOTAL && Untouched(old(mc.mem), mc.mem, {c}, Table(old(mc.mem), mc.cr3, KSTACK_PDI))
    ensures mc.mem[c] == old(mc.mem)[c][i := ABSENT]
    ensures mc.mem[Table(old(mc.mem), mc.cr3, KSTACK_PDI)]
            == old(mc.mem)[Table(old(mc.mem), mc.cr3, KSTACK_PDI)][SCRATCH_TABLE := NIL]
  {
    ghost var m, p := mc.mem, mc.cr3;
    var t := Frame(mc.Load(0, c, i));
    FreeTable(mc, c, i, t);
    assert Walk(mc.mem, p, 0, c) == Walk(m, p, 0, c) by {
      WithPteUpdates(m, p, KSTACK_PDI, SCRATCH_TABLE, NIL);
    }
    mc.Store(0, c, i, ABSENT);
    assert mc.mem[p] == m[p];
    SameDirectory(m, mc.mem, p);
  }

  /** Frees what hangs below a directory entry, seen through the scratch page. */
  method FreeTable(mc: Machine, ghost c: nat, ghost i: nat, t: nat)
    requires Runs(mc, {}) && c < TOTAL && i < 1024 && HasTable(mc.mem, c, i) && t == Table(mc.mem, c, i)
    requires Releasable(mc.mem, mc.Free(), mc.cr3, c, i)
    modifies mc`mem, mc.frames.bitmap
    ensures mc.frames.Valid() && mc.cr3 < TOTAL && HasTable(old(mc.mem), mc.cr3, KSTACK_PDI)
    ensures Table(old(mc.mem), mc.cr3, KSTACK_PDI) < TOTAL && FreeUnread(old(mc.mem), mc.cr3, mc.Free())
    ensures mc.Free() == old(mc.Free()) + PagesUpTo(old(mc.mem), c, i, 1024) + {t}
    ensures mc.mem == WithPte(old(mc.mem), mc.cr3, KSTACK_PDI, SCRATCH_TABLE, NIL)
  {
    ghost var m, p := mc.mem, mc.cr3;
    MapScratch(mc, {}, SCRATCH_TABLE, t);
    ghost var m1 := mc.mem;
    assert Walk(m1, p, KSTACK_PDI, SCRATCH_TABLE) == Entry(t, PRESENT + RW);
    FreePages(mc, m, c, i);
    assert Runs(mc, {}) by { SameDirectory(m, m1, p); }
    UnmapScratch(mc, {}, SCRATCH_TABLE);
    ghost var kt := Table(m, p, KSTACK_PDI);
    assert mc.mem[kt] == m[kt][SCRATCH_TABLE := NIL];
    assert mc.mem == WithWord(m, kt, SCRATCH_TABLE, NIL);
    FreeOnce(mc, t);
  }

  /** One round of the outer loop, for an entry that is present. */
  method TearPresent(mc: Machine, ghost m0: Memory, ghost w0: World, ghost free0: set<nat>, ghost w1: World, c: nat,
      i: nat)
    requires Runs(mc, {}) && UserIndex(i) && Tearing(m0, mc.mem, w0, w1, free0, mc.Free(), mc.cr3, c, i)
    requires HasTable(mc.mem, c, i)
    modifies mc`mem, mc.frames.bitmap
    ensures Runs(mc, {})
    ensures Tearing(m0, mc.mem, w0, w1.(own := w1.own - Below(w1, c, i)), free0, mc.Free(), mc.cr3, c, i + 1)
  {
    ghost var m, free, p := mc.mem, mc.Free(), mc.cr3;
    assert c < RESERVED && Walk(m, p, 0, c) == Entry(c, PRESENT + RW) && !Reads(m, p, c)
        && Table(m, p, KSTACK_PDI) == Frame(w1.kstack) by { DirectoryReady(m, w1, free, p, c); }
    ReleaseReady(m, w1, free, p, c, i);
    ReleaseTable(mc, c, i);
    TearReleased(m0, m, mc.mem, w0, w1, free0, free, p, c, i);
  }

  /** One round of the outer loop. */
  method TearEntry(mc: Machine, ghost m0: Memory, ghost w0: World, ghost free0: set<nat>, ghost w1: World, c: nat,
      i: nat)
    returns (ghost w: World)
    requires Runs(mc, {}) && UserIndex(i) && Tearing(m0, mc.mem, w0, w1, free0, mc.Free(), mc.cr3, c, i)
    modifies mc`mem, mc.frames.bitmap
    ensures Runs(mc, {}) && Tearing(m0, mc.mem, w0, w, free0, mc.Free(), mc.cr3, c, i + 1)
  {
    w := w1.(own := w1.own - Below(w1, c, i));
    assert Walk(mc.mem, mc.cr3, 0, c) == Entry(c, PRESENT + RW) by {
      DirectoryReady(mc.mem, w1, mc.Free(), mc.cr3, c);
    }
    if Present(mc.Load(0, c, i)) {
      TearPresent(mc, m0, w0, free0, w1, c, i);
    } else {
      TearAbsent(m0, mc.mem, w0, w1, free0, mc.Free(), mc.cr3, c, i);
    }
  }

  /** `paging_proc_teardown`: exactly the frames owned by directory `c` become free, each freed
      once, and the directory has no user table left. No other word of memory changes, except that
      the scratch table page ends up unmapped when there was anything to free. */
  method ProcTeardown(mc: Machine, ghost w0: World, c: nat) returns (ghost w: World)
    requires mc.frames.Valid() && System(mc.mem, w0, mc.Free())
    requires mc.cr3 in w0.dirs && c in w0.dirs && c != mc.cr3
    modifies mc`mem, mc.frames.bitmap
    ensures mc.frames.Valid() && System(mc.mem, w, mc.Free())
    ensures w == w0.(own := w0.own - Owned(w0, c))
    ensures mc.Free() == old(mc.Free()) + Owned(w0, c)
    ensures forall k: nat | UserIndex(k) :: c < TOTAL && !HasTable(mc.mem, c, k)
    ensures forall k: nat | k < 1024 && !UserIndex(k) :: mc.mem[c][k] == old(mc.mem)[c][k]
    ensures Frame(w0.kstack) < TOTAL && Untouched(old(mc.mem), mc.mem, {c}, Frame(w0.kstack))
    ensures mc.mem[Frame(w0.kstack)] == if Owned(w0, c) == {} then old(mc.mem)[Frame(w0.kstack)]
                                        else old(mc.mem)[Frame(w0.kstack)][SCRATCH_TABLE := NIL]
  {
    ghost var m0, free0, p := mc.mem, mc.Free(), mc.cr3;
    DirectoryReady(m0, w0, free0, p, c);
    TearStart(m0, w0, free0, p, c);
    w := w0;
    for i := 1 to 768
      invariant Runs(mc, {})
      invariant Tearing(m0, mc.mem, w0, w, free0, mc.Free(), p, c, i)
    {
      w := TearEntry(mc, m0, w0, free0, w, c, i);
    }
    TearEnd(w0, w, free0, mc.Free(), c);
    assert mc.Free() == free0 <==> Owned(w0, c) == {} by { assert Owned(w0, c) !! free0; }
  }

  /** The kernel-stack table after releasing: as it was, or with the scratch table page unmapped. */
  ghost predicate StackTableAfter(m0: Memory, m: Memory, kt: nat, same: bool)
    requires kt < TOTAL
  {
    m[kt] == if same then m0[kt] else m0[kt][SCRATCH_TABLE := NIL]
  }

  /** State of the outer loop: every entry under `i` is released. */
  ghost predicate Tearing(m0: Memory, m: Memory, w0: World, w: World, free0: set<nat>, free: set<nat>, p: nat, c: nat,
      i: nat) {
    && p in w.dirs && c in w.dirs && p != c && p < TOTAL && c < TOTAL && System(m, w, free)
    && Dropped(w0, w, free0, free, c, i) && m[p] == m0[p]
    && (forall k: nat | UserIndex(k) && k < i :: !HasTable(m, c, k))
    && (forall k: nat | k < 1024 && !UserIndex(k) :: m[c][k] == m0[c][k])
    && Untouched(m0, m, {c}, Frame(w.kstack)) && StackTableAfter(m0, m, Frame(w.kstack), free == free0)
  }

  lemma TearReleased(m0: Memory, m: Memory, m': Memory, w0: World, w: World, free0: set<nat>, free: set<nat>, p: nat,
      c: nat, i: nat)
    requires Tearing(m0, m, w0, w, free0, free, p, c, i) && UserIndex(i) && HasTable(m, c, i)
    requires Untouched(m, m', {c}, Frame(w.kstack)) && m'[Frame(w.kstack)] == m[Frame(w.kstack)][SCRATCH_TABLE := NIL]
    requires m'[c] == m[c][i := ABSENT]
    ensures Tearing(m0, m', w0, w.(own := w.own - Below(w, c, i)), free0, free + Below(w, c, i), p, c, i + 1)
  {
    assert m'[p] == m[p] by { assert Space(m, w, free, p); }
    ReleaseStep(m, m', w, free, c, i);
    DroppedStep(w0, w, free0, free, c, i);
    assert forall k: nat | UserIndex(k) && k < i + 1 :: HasTable(m', c, k) ==> k != i && HasTable(m, c, k);
    assert free + Below(w, c, i) != free0 by {
      TableOwned(m, w, c, i);
      assert Table(m, c, i) in Below(w, c, i);
    }
  }

  lemma TearAbsent(m0: Memory, m: Memory, w0: World, w: World, free0: set<nat>, free: set<nat>, p: nat, c: nat, i: nat)
    requires Tearing(m0, m, w0, w, free0, free, p, c, i) && UserIndex(i) && !HasTable(m, c, i)
    ensures free + Below(w, c, i) == free && w.(own := w.own - Below(w, c, i)) == w
    ensures Tearing(m0, m, w0, w, free0, free, p, c, i + 1)
  {
    NothingBelow(m, w, c, i);
    DroppedStep(w0, w, free0, free, c, i);
  }

  lemma TearStart(m: Memory, w: World, free: set<nat>, p: nat, c: nat)
    requires System(m, w, free) && p in w.dirs && c in w.dirs && p != c
    ensures Tearing(m, m, w, w, free, free, p, c, 1)
    ensures forall f | f in w.own :: w.own[f].i < 768
  {
    assert Space(m, w, free, p);
    var gone := set f | f in w.own && w.own[f].dir == c && w.own[f].i < 1;
    assert gone == {};
    assert w.own - gone == w.own;
  }

  lemma TearEnd(w0: World, w: World, free0: set<nat>, free: set<nat>, c: nat)
    requires Dropped(w0, w, free0, free, c, 768) && forall f | f in w0.own :: w0.own[f].i < 768
    ensures w == w0.(own := w0.own - Owned(w0, c)) && free == free0 + Owned(w0, c)
  {
    assert (set f | f in w0.own && w0.own[f].dir == c && w0.own[f].i < 768) == Owned(w0, c);
  }

  /** Progress of teardown: what hung below entries under `i` moved from the ledger to the free set. */
  ghost predicate Dropped(w0: World, w: World, free0: set<nat>, free: set<nat>, c: nat, i: nat) {
    var gone := set f | f in w0.own && w0.own[f].dir == c && w0.own[f].i < i;
    w == w0.(own := w0.own - gone) && free == free0 + gone
  }

  lemma FreedUnread(m: Memory, w: World, free: set<nat>, p: nat, c: nat, i: nat)
    requires System(m, w, free) && p in w.dirs && c in w.dirs && p != c && UserIndex(i)
    ensures FreeUnread(m, p, free + Below(w, c, i))
  {
    FreeIsUnread(m, w, free, p);
    forall f | f in Below(w, c, i)
      ensures !Reads(m, p, f)
    {
      OwnedUnread(m, w, free, p, f);
    }
  }

  lemma DroppedStep(w0: World, w: World, free0: set<nat>, free: set<nat>, c: nat, i: nat)
    requires Dropped(w0, w, free0, free, c, i)
    ensures Dropped(w0, w.(own := w.own - Below(w, c, i)), free0, free + Below(w, c, i), c, i + 1)
  {
    var gone := set f | f in w0.own && w0.own[f].dir == c && w0.own[f].i < i;
    var gone' := set f | f in w0.own && w0.own[f].dir == c && w0.own[f].i < i + 1;
    assert gone' == gone + Below(w, c, i);
    assert w.own - Below(w, c, i) == w0.own - gone';
  }

  lemma NothingBelow(m: Memory, w: World, c: nat, i: nat)
    requires Ledger(m, w) && c in w.dirs && UserIndex(i) && !HasTable(m, c, i)
    ensures Below(w, c, i) == {} && w.own - Below(w, c, i) == w.own
  {
    forall f | f in w.own
      ensures f !in Below(w, c, i)
    {
      assert Live(m, w.own[f]);
    }
  }

  lemma ReleaseReady(m: Memory, w: World, free: set<nat>, p: nat, c: nat, i: nat)
    requires System(m, w, free) && p in w.dirs && c in w.dirs && p != c && UserIndex(i) && HasTable(m, c, i)
    ensures Releasable(m, free, p, c, i)
    ensures Below(w, c, i) == PagesUpTo(m, c, i, 1024) + {Table(m, c, i)}
  {
    TablePages(m, w, free, c, i);
    FreedUnread(m, w, free, p, c, i);
  }

  lemma ReleaseStep(m: Memory, m': Memory, w: World, free: set<nat>, c: nat, i: nat)
    requires System(m, w, free) && c in w.dirs && UserIndex(i)
    requires Untouched(m, m', {c}, Frame(w.kstack)) && m'[c] == m[c][i := ABSENT]
    ensures System(m', w.(own := w.own - Below(w, c, i)), free + Below(w, c, i))
  {
    var m1 := m'[c := m[c]];
    KeepSystem(m, m1, w, free, {});
    assert m' == WithWord(m1, c, i, ABSENT);
    KeepOnDrop(m1, w, free, c, i);
  }
}
