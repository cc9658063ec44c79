/**
  `paging_fork_copy`, run through the page tables it edits: the child gets its own copy of every
  user page, and nothing that was in use before is written.
 */
module ForkCopying {
  import opened FrameBitmap
  import opened PageTables
  import opened AddressSpaces

  const KSTACK_BASE := 0xEF00_0000

  /** Page `slot` of the kernel-stack table. */
  lemma StackPage(slot: nat)
    requires slot < 1024
    ensures var va := KSTACK_BASE + slot * 4096; Pdi(va) == KSTACK_PDI && Pti(va) == slot && va % 4096 == 0
  {
  }

  /** The machine can run: the current directory is sound, has a kernel-stack table, and reads
      neither a free frame nor a `spare` one (allocated, not yet in use). */
  ghost predicate Runs(mc: Machine, spare: set<nat>)
    reads mc, mc.frames, mc.frames.bitmap
  {
    && mc.frames.Valid() && Directory(mc.mem, mc.cr3) && HasTable(mc.mem, mc.cr3, KSTACK_PDI)
    && FreeUnread(mc.mem, mc.cr3, mc.Free() + spare)
  }

  /** Maps `frame` at a scratch page of the kernel-stack table. */
  method MapScratch(mc: Machine, ghost spare: set<nat>, slot: nat, frame: nat)
    requires Runs(mc, spare) && ScratchSlot(slot) && frame < TOTAL
    modifies mc`mem, mc.frames.bitmap
    ensures Runs(mc, spare) && mc.Free() == old(mc.Free())
    ensures mc.mem == WithPte(old(mc.mem), mc.cr3, KSTACK_PDI, slot, Entry(frame, PRESENT + RW))
  {
    var va := KSTACK_BASE + slot * 4096;
    StackPage(slot);
    FrameAddress(frame);
    WithPteUpdates(mc.mem, mc.cr3, KSTACK_PDI, slot, Entry(frame, PRESENT + RW));
    mc.MapPage(frame * 4096, va, PRESENT + RW);
  }

  /** Unmaps a scratch page. */
  method UnmapScratch(mc: Machine, ghost spare: set<nat>, slot: nat)
    requires Runs(mc, spare) && ScratchSlot(slot)
    modifies mc`mem
    ensures Runs(mc, spare)
    ensures mc.mem == if Present(Walk(old(mc.mem), mc.cr3, KSTACK_PDI, slot))
                      then WithPte(old(mc.mem), mc.cr3, KSTACK_PDI, slot, NIL) else old(mc.mem)
    ensures !Present(Walk(mc.mem, mc.cr3, KSTACK_PDI, slot))
  {
    var va := KSTACK_BASE + slot * 4096;
    StackPage(slot);
    WithPteUpdates(mc.mem, mc.cr3, KSTACK_PDI, slot, NIL);
    mc.UnmapPage(va);
  }

  /** Clears the frame `f` mapped at a page, word by word. */
  method ClearThrough(mc: Machine, i: nat, j: nat, ghost f: nat)
    requires Directory(mc.mem, mc.cr3) && i < SELF && j < 1024
    requires Accessible(mc.mem, mc.cr3, i, j) && Frame(Walk(mc.mem, mc.cr3, i, j)) == f && !Reads(mc.mem, mc.cr3, f)
    modifies mc`mem
    ensures mc.mem == old(mc.mem)[f := ZeroPage()]
  {
    for k := 0 to 1024
      invariant forall g: nat | g < TOTAL && g != f :: mc.mem[g] == old(mc.mem)[g]
      invariant forall x: nat | x < k :: mc.mem[f][x] == NIL
    {
      SameWalk(old(mc.mem), mc.mem, mc.cr3, f, i, j);
      mc.Store(i, j, k, NIL);
    }
    assert mc.mem[f] == ZeroPage();
  }

  /** Copies the page `(i, j)` into the frame `f` mapped at page `(a, b)`, word by word. */
  method CopyThrough(mc: Machine, i: nat, j: nat, a: nat, b: nat, ghost src: nat, ghost f: nat)
    requires Directory(mc.mem, mc.cr3) && i < SELF && j < 1024 && a < SELF && b < 1024
    requires Accessible(mc.mem, mc.cr3, i, j) && Frame(Walk(mc.mem, mc.cr3, i, j)) == src
    requires Accessible(mc.mem, mc.cr3, a, b) && Frame(Walk(mc.mem, mc.cr3, a, b)) == f
    requires !Reads(mc.mem, mc.cr3, f) && src != f
    modifies mc`mem
    ensures mc.mem == old(mc.mem)[f := old(mc.mem)[src]]
  {
    for k := 0 to 1024
      invariant forall g: nat | g < TOTAL && g != f :: mc.mem[g] == old(mc.mem)[g]
      invariant forall x: nat | x < k :: mc.mem[f][x] == old(mc.mem)[src][x]
    {
      SameWalk(old(mc.mem), mc.mem, mc.cr3, f, i, j);
      SameWalk(old(mc.mem), mc.mem, mc.cr3, f, a, b);
      mc.Store(a, b, k, mc.Load(i, j, k));
    }
    assert mc.mem[f] == old(mc.mem)[src];
  }

  /** A store outside the tables changes no translation. */
  lemma SameWalk(m: Memory, m': Memory, d: nat, f: nat, i: nat, j: nat)
    requires Directory(m, d) && i < SELF && j < 1024 && !Reads(m, d, f)
    requires forall g: nat | g < TOTAL && g != f :: m'[g] == m[g]
    ensures Directory(m', d) && Walk(m', d, i, j) == Walk(m, d, i, j)
  {
    SameDirectory(m, m', d);
    if HasTable(m, d, i) {
      assert Reads(m, d, Table(m, d, i));
    }
  }

  // ----- fork -----

  /** Entry `e1` of the child copies entry `e0` of the parent: same flags, equal page contents. */
  ghost predicate EntryCopied(m0: Memory, m: Memory, e0: Word, e1: Word) {
    if Present(e0) then
      && Present(e1) && Flags(e1) == Flags(e0)
      && Frame(e0) < TOTAL && Frame(e1) < TOTAL && m[Frame(e1)] == m0[Frame(e0)]
    else e1 == NIL
  }

  /** The first `n` entries of table `i` are copied, the others empty. */
  ghost predicate TableCopied(m0: Memory, m: Memory, p: nat, c: nat, i: nat, n: nat)
    requires p < TOTAL && c < TOTAL && i < 1024 && n <= 1024
  {
    if HasTable(m0, p, i) then
      && HasTable(m, c, i) && Flags(m[c][i]) == Flags(m0[p][i])
      && (forall j: nat | j < n :: EntryCopied(m0, m, Walk(m0, p, i, j), Walk(m, c, i, j)))
      && (forall j: nat | n <= j < 1024 :: Walk(m, c, i, j) == NIL)
    else !HasTable(m, c, i)
  }

  /** The ledger only grew, by the frames taken from `free0`, all for directory `c`. */
  ghost predicate Grown(w0: World, w: World, free0: set<nat>, free: set<nat>, c: nat) {
    && w == w0.(own := w.own) && free <= free0
    && w.own.Keys == w0.own.Keys + (free0 - free)
    && (forall f | f in w0.own :: w.own[f] == w0.own[f])
    && (forall f | f in free0 - free :: w.own[f].dir == c)
  }

  /** Directory `c` owns nothing. */
  ghost predicate Bare(w: World, c: nat) {
    forall f | f in w.own :: w.own[f].dir != c
  }

  /** Directory `c` owns no page. */
  ghost predicate NoPage(w: World, c: nat) {
    forall f | f in w.own && w.own[f].dir == c :: w.own[f].TableRef?
  }

  /** The scratch data page is as it was while directory `c` has no page, then shows a page of it. */
  ghost predicate DataAt(m0: Memory, m: Memory, w: World, c: nat, kt: nat)
    requires kt < TOTAL
  {
    var e := m[kt][SCRATCH_DATA];
    || (e == m0[kt][SCRATCH_DATA] && NoPage(w, c))
    || (Present(e) && Frame(e) in w.own && w.own[Frame(e)].PageRef? && w.own[Frame(e)].dir == c)
  }

  /** The scratch table page is as it was while directory `c` has no table, then shows a table of it. */
  ghost predicate TableAt(m0: Memory, m: Memory, w: World, c: nat, kt: nat)
    requires kt < TOTAL
  {
    var e := m[kt][SCRATCH_TABLE];
    || (e == m0[kt][SCRATCH_TABLE] && Bare(w, c))
    || (Present(e) && Frame(e) in w.own && w.own[Frame(e)].TableRef? && w.own[Frame(e)].dir == c)
  }

  ghost predicate ScratchAt(m0: Memory, m: Memory, w: World, c: nat, kt: nat) {
    kt < TOTAL && DataAt(m0, m, w, c, kt) && TableAt(m0, m, w, c, kt)
  }

  /** Frame `f` was mapped at the scratch page for its kind, and no other entry of table `kt` changed. */
  ghost predicate ScratchShows(m: Memory, m': Memory, kt: nat, f: nat, r: Ref) {
    && kt < TOTAL && f < TOTAL
    && m'[kt] == m[kt][(if r.PageRef? then SCRATCH_DATA else SCRATCH_TABLE) := Entry(f, PRESENT + RW)]
  }

  lemma KeepScratchAt(m0: Memory, m: Memory, m': Memory, w: World, c: nat, kt: nat, f: nat, r: Ref)
    requires ScratchAt(m0, m, w, c, kt) && ScratchShows(m, m', kt, f, r) && f !in w.own && r.dir == c
    requires r.PageRef? ==> !Bare(w, c)
    ensures ScratchAt(m0, m', w.(own := w.own[f := r]), c, kt)
  {
  }

  /** Every table below `i` is copied, none above `i` is there yet; `kt` is the scratch table. */
  ghost predicate Forking(m0: Memory, m: Memory, w0: World, w: World, free0: set<nat>, free: set<nat>,
                          p: nat, c: nat, kt: nat, i: nat)
    requires p < TOTAL && c < TOTAL
  {
    && Bare(w0, c) && Grown(w0, w, free0, free, c) && Untouched(m0, m, free0 + {c}, kt) && ScratchAt(m0, m, w, c, kt)
    && (forall k: nat | k < i && UserIndex(k) :: TableCopied(m0, m, p, c, k, 1024))
    && (forall k: nat | i < k && UserIndex(k) :: !HasTable(m, c, k))
  }

  /** A finished table stays copied while other frames are written. */
  lemma KeepTableCopied(m0: Memory, m: Memory, m': Memory, w: World, free: set<nat>, p: nat, c: nat, k: nat, t: nat)
    requires System(m, w, free) && p < TOTAL && c in w.dirs && UserIndex(k) && TableCopied(m0, m, p, c, k, 1024)
    requires m'[c][k] == m[c][k]
    requires t in w.own ==> w.own[t].TableRef? && w.own[t] != TableRef(c, k)
    requires forall f | f in w.own && f != t :: m'[f] == m[f]
    ensures TableCopied(m0, m', p, c, k, 1024)
  {
    if HasTable(m0, p, k) {
      assert Live(m, TableRef(c, k));
      forall j: nat | j < 1024
        ensures EntryCopied(m0, m', Walk(m0, p, k, j), Walk(m', c, k, j))
      {
        assert EntryCopied(m0, m, Walk(m0, p, k, j), Walk(m, c, k, j));
        assert Walk(m', c, k, j) == Walk(m, c, k, j);
        if Present(Walk(m, c, k, j)) {
          assert Live(m, PageRef(c, k, j));
        }
      }
    }
  }

  /** The parent still sees its own pages while the child is being built. */
  lemma ParentUnchanged(m0: Memory, m: Memory, w0: World, free0: set<nat>, p: nat, c: nat, i: nat, j: nat)
    requires System(m0, w0, free0) && p in w0.dirs && c in w0.dirs && p != c && UserIndex(i) && j < 1024
    requires Untouched(m0, m, free0 + {c}, Frame(w0.kstack))
    ensures m[p] == m0[p] && Walk(m, p, i, j) == Walk(m0, p, i, j)
    ensures Present(Walk(m0, p, i, j)) ==>
              Frame(Walk(m0, p, i, j)) in w0.own && m[Frame(Walk(m0, p, i, j))] == m0[Frame(Walk(m0, p, i, j))]
  {
    assert m[p] == m0[p];
    if HasTable(m0, p, i) {
      assert Live(m0, TableRef(p, i));
      assert m[Table(m0, p, i)] == m0[Table(m0, p, i)];
    }
    if Present(Walk(m0, p, i, j)) {
      assert Live(m0, PageRef(p, i, j));
    }
  }

  /** One page copied: the state after the three writes of the inner loop body. */
  ghost function AfterPage(m: Memory, p: nat, c: nat, i: nat, n: nat, f: nat): (r: Memory)
    requires p < TOTAL && c < TOTAL && i < 1024 && n < 1024 && f < TOTAL
    requires HasTable(m, p, KSTACK_PDI) && Table(m, p, KSTACK_PDI) < TOTAL
    requires HasTable(m, c, i) && Table(m, c, i) < TOTAL && Frame(Walk(m, p, i, n)) < TOTAL
  {
    var m1 := WithPte(m, p, KSTACK_PDI, SCRATCH_DATA, Entry(f, PRESENT + RW));
    var m2 := m1[f := m1[Frame(Walk(m, p, i, n))]];
    m2[Table(m, c, i) := m2[Table(m, c, i)][n := Entry(f, Flags(Walk(m, p, i, n)))]]
  }

  /** Where the three frames that a page copy touches stand in the ledger. */
  lemma PageStepFrames(m: Memory, w: World, free: set<nat>, p: nat, c: nat, i: nat, n: nat)
    requires System(m, w, free) && p in w.dirs && c in w.dirs
    requires UserIndex(i) && n < 1024 && HasTable(m, c, i) && Present(Walk(m, p, i, n))
    ensures HasTable(m, p, KSTACK_PDI) && Table(m, p, KSTACK_PDI) == Frame(w.kstack) < TOTAL
    ensures Frame(w.kstack) !in w.own && Frame(w.kstack) !in free && Frame(w.kstack) !in w.pds
    ensures Table(m, c, i) in w.own && w.own[Table(m, c, i)] == TableRef(c, i)
    ensures Frame(Walk(m, p, i, n)) in w.own && w.own[Frame(Walk(m, p, i, n))] == PageRef(p, i, n)
    ensures forall g | g in w.own || g in free :: RESERVED <= g < TOTAL
    ensures c in w.pds && p in w.pds && c < RESERVED && p < RESERVED && w.own.Keys !! free
  {
    assert Space(m, w, free, p);
    assert Live(m, TableRef(c, i)) && Live(m, PageRef(p, i, n));
  }

  lemma PageStepSystem(m: Memory, w: World, free: set<nat>, p: nat, c: nat, i: nat, n: nat, f: nat)
    requires System(m, w, free) && p in w.dirs && c in w.dirs && p != c
    requires UserIndex(i) && n < 1024 && f in free
    requires HasTable(m, c, i) && !Present(Walk(m, c, i, n)) && Present(Walk(m, p, i, n))
    ensures HasTable(m, p, KSTACK_PDI) && Table(m, p, KSTACK_PDI) < TOTAL
    ensures Table(m, c, i) < TOTAL && Frame(Walk(m, p, i, n)) < TOTAL
    ensures System(AfterPage(m, p, c, i, n, f), w.(own := w.own[f := PageRef(c, i, n)]), free - {f})
  {
    PageStepFrames(m, w, free, p, c, i, n);
    var e := Entry(f, Flags(Walk(m, p, i, n)));
    var m1 := WithPte(m, p, KSTACK_PDI, SCRATCH_DATA, Entry(f, PRESENT + RW));
    var m2 := m1[f := m1[Frame(Walk(m, p, i, n))]];
    assert System(m2, w, free) by {
      KeepOnScratch(m, w, free, p, SCRATCH_DATA, Entry(f, PRESENT + RW));
      KeepOnFreeWrite(m1, w, free, f, m1[Frame(Walk(m, p, i, n))]);
    }
    assert m2[c] == m[c] && m2[Table(m, c, i)] == m[Table(m, c, i)];
    assert AfterPage(m, p, c, i, n, f) == WithPte(m2, c, i, n, e);
    KeepOnNewPage(m2, w, free, c, i, n, e);
  }

  /** The child's table after one more entry, from what each write did. */
  lemma PageStepTable(m0: Memory, m: Memory, m': Memory, p: nat, c: nat, i: nat, n: nat, t: nat, kt: nat, f: nat)
    requires p < TOTAL && c < TOTAL && UserIndex(i) && n < 1024 && t < TOTAL && f < TOTAL
    requires TableCopied(m0, m, p, c, i, n) && HasTable(m0, p, i) && Table(m, c, i) == t
    requires Present(Walk(m0, p, i, n)) && Frame(Walk(m0, p, i, n)) < TOTAL
    requires PageWritten(m, m', c, i, n, t, kt, f, Walk(m0, p, i, n))
    requires m'[f] == m0[Frame(Walk(m0, p, i, n))]
    requires forall j: nat | j < n && Present(Walk(m, c, i, j)) ::
               Frame(Walk(m, c, i, j)) != t && Frame(Walk(m, c, i, j)) != kt && Frame(Walk(m, c, i, j)) != f
    ensures TableCopied(m0, m', p, c, i, n + 1)
  {
    forall j: nat | j < 1024
      ensures Walk(m', c, i, j) == if j == n then Entry(f, Flags(Walk(m0, p, i, n))) else Walk(m, c, i, j)
      ensures j < n ==> EntryCopied(m0, m', Walk(m0, p, i, j), Walk(m', c, i, j))
    {
      if j < n {
        assert EntryCopied(m0, m, Walk(m0, p, i, j), Walk(m, c, i, j));
      }
    }
  }

  lemma KeepGrown(w0: World, w: World, free0: set<nat>, free: set<nat>, c: nat, f: nat, r: Ref)
    requires Grown(w0, w, free0, free, c) && f in free && f !in w.own && r.dir == c
    ensures Grown(w0, w.(own := w.own[f := r]), free0, free - {f}, c)
  {
  }

  lemma KeepTablesBelow(m0: Memory, m: Memory, m': Memory, w: World, free: set<nat>, p: nat, c: nat, i: nat, t: nat)
    requires System(m, w, free) && p < TOTAL && c in w.dirs
    requires forall k: nat | k < i && UserIndex(k) :: TableCopied(m0, m, p, c, k, 1024)
    requires t in w.own ==> w.own[t] == TableRef(c, i)
    requires forall f | f in w.own && f != t :: m'[f] == m[f]
    requires forall k: nat | k < 1024 && k != i :: m'[c][k] == m[c][k]
    ensures forall k: nat | k < i && UserIndex(k) :: TableCopied(m0, m', p, c, k, 1024)
  {
    forall k: nat | k < i && UserIndex(k)
      ensures TableCopied(m0, m', p, c, k, 1024)
    {
      KeepTableCopied(m0, m, m', w, free, p, c, k, t);
    }
  }

  /** Giving frame `f` to the child, and writing only it, the child's table `t`, the scratch
      table and the child's directory entry `i`, keeps the progress of the fork. */
  lemma KeepForking(m0: Memory, m: Memory, m': Memory, w0: World, w: World, free0: set<nat>, free: set<nat>,
                    p: nat, c: nat, kt: nat, i: nat, t: nat, f: nat, r: Ref)
    requires p < TOTAL && c < TOTAL && Forking(m0, m, w0, w, free0, free, p, c, kt, i)
    requires f in free && f !in w.own && r.dir == c
    requires t == f || (t in w.own && w.own[t] == TableRef(c, i))
    requires kt < TOTAL && Untouched(m, m', {t, f, c}, kt) && ScratchShows(m, m', kt, f, r) && (r.PageRef? ==> t != f)
    requires forall k: nat | k < 1024 && k != i :: m'[c][k] == m[c][k]
    requires forall k: nat | k < i && UserIndex(k) :: TableCopied(m0, m', p, c, k, 1024)
    ensures Forking(m0, m', w0, w.(own := w.own[f := r]), free0, free - {f}, p, c, kt, i)
  {
    assert t in free0;
    KeepGrown(w0, w, free0, free, c, f, r);
    KeepScratchAt(m0, m, m', w, c, kt, f, r);
    assert forall k: nat | i < k && UserIndex(k) :: HasTable(m', c, k) == HasTable(m, c, k);
  }

  /** What the three writes of a page copy change: the scratch table, the new frame, the child's table. */
  ghost predicate PageWritten(m: Memory, m': Memory, c: nat, i: nat, n: nat, t: nat, kt: nat, f: nat, e: Word)
    requires c < TOTAL && i < 1024 && n < 1024 && t < TOTAL && f < TOTAL
  {
    && Untouched(m, m', {t, f}, kt) && ScratchShows(m, m', kt, f, PageRef(c, i, n))
    && m'[t] == m[t][n := Entry(f, Flags(e))]
    && c != t && c != kt && c != f && t != kt && t != f && f != kt && Table(m, c, i) == t
  }

  /** Copying one page keeps what is already copied. */
  lemma PageStepForking(m0: Memory, m: Memory, m': Memory, w0: World, w: World, free0: set<nat>, free: set<nat>,
                        p: nat, c: nat, i: nat, n: nat, t: nat, kt: nat, f: nat, e: Word)
    requires System(m, w, free) && p < TOTAL && c in w.dirs && UserIndex(i) && n < 1024 && f in free && kt !in w.own
    requires Forking(m0, m, w0, w, free0, free, p, c, kt, i)
    requires t in w.own && w.own[t] == TableRef(c, i) && PageWritten(m, m', c, i, n, t, kt, f, e)
    ensures Forking(m0, m', w0, w.(own := w.own[f := PageRef(c, i, n)]), free0, free - {f}, p, c, kt, i)
  {
    KeepTablesBelow(m0, m, m', w, free, p, c, i, t);
    KeepForking(m0, m, m', w0, w, free0, free, p, c, kt, i, t, f, PageRef(c, i, n));
  }

  /** The pages of a child's table are owned as such. */
  lemma ChildPages(m: Memory, w: World, free: set<nat>, c: nat, i: nat)
    requires System(m, w, free) && c in w.dirs && UserIndex(i)
    ensures forall j: nat | j < 1024 && Present(Walk(m, c, i, j)) ::
              Frame(Walk(m, c, i, j)) in w.own && w.own[Frame(Walk(m, c, i, j))] == PageRef(c, i, j)
  {
    forall j: nat | j < 1024 && Present(Walk(m, c, i, j))
      ensures Frame(Walk(m, c, i, j)) in w.own && w.own[Frame(Walk(m, c, i, j))] == PageRef(c, i, j)
    {
      assert Live(m, PageRef(c, i, j));
    }
  }

  /** Mapping the scratch data page leaves the other pages of a copy where they were. */
  lemma DataMapped(m: Memory, p: nat, i: nat, n: nat, f: nat)
    requires Directory(m, p) && HasTable(m, p, KSTACK_PDI) && UserIndex(i) && n < 1024 && f < TOTAL
    ensures var m1 := WithPte(m, p, KSTACK_PDI, SCRATCH_DATA, Entry(f, PRESENT + RW));
            && Walk(m1, p, KSTACK_PDI, SCRATCH_DATA) == Entry(f, PRESENT + RW)
            && Walk(m1, p, i, n) == Walk(m, p, i, n)
            && Walk(m1, p, KSTACK_PDI, SCRATCH_TABLE) == Walk(m, p, KSTACK_PDI, SCRATCH_TABLE)
  {
    WithPteUpdates(m, p, KSTACK_PDI, SCRATCH_DATA, Entry(f, PRESENT + RW));
  }

  /** The body of the inner loop of `paging_fork_copy`, for a present entry of the parent. */
  method CopyPage(mc: Machine, c: nat, i: nat, n: nat) returns (ok: bool, ghost f: nat)
    requires Runs(mc, {}) && c < TOTAL && UserIndex(i) && n < 1024
    requires HasTable(mc.mem, c, i) && Table(mc.mem, c, i) < TOTAL && !Reads(mc.mem, mc.cr3, Table(mc.mem, c, i))
    requires Accessible(mc.mem, mc.cr3, i, n) && Frame(Walk(mc.mem, mc.cr3, i, n)) !in mc.Free()
    requires Walk(mc.mem, mc.cr3, KSTACK_PDI, SCRATCH_TABLE) == Entry(Table(mc.mem, c, i), PRESENT + RW)
    modifies mc`mem, mc.frames.bitmap
    ensures Runs(mc, {}) && ok == (old(mc.Free()) != {})
    ensures !ok ==> mc.Free() == {} && mc.mem == WithPte(old(mc.mem), mc.cr3, KSTACK_PDI, SCRATCH_TABLE, NIL)
    ensures ok ==> f in old(mc.Free()) && mc.Free() == old(mc.Free()) - {f}
                   && mc.mem == AfterPage(old(mc.mem), mc.cr3, c, i, n, f)
  {
    ghost var m, p, t := mc.mem, mc.cr3, Table(mc.mem, c, i);
    WindowShowsTables(m, p, i);
    var pte := mc.Load(SELF, i, n);
    var addr := mc.frames.AllocFrame();
    var frame := addr / 4096;
    f := frame;
    if addr == 0 {
      UnmapScratch(mc, {}, SCRATCH_TABLE);
      return false, f;
    }
    MapScratch(mc, {f}, SCRATCH_DATA, frame);
    ghost var m1 := mc.mem;
    DataMapped(m, p, i, n, f);
    CopyThrough(mc, i, n, KSTACK_PDI, SCRATCH_DATA, Frame(pte), f);
    SameWalk(m1, mc.mem, p, f, KSTACK_PDI, SCRATCH_TABLE);
    mc.Store(KSTACK_PDI, SCRATCH_TABLE, n, Entry(frame, Flags(pte)));
    SameDirectory(m1, mc.mem, p);
    return true, f;
  }

  /** State of the inner loop: `n` entries of table `i` done, the child's table in scratch view. */
  ghost predicate Inner(m0: Memory, m: Memory, w0: World, w: World, free0: set<nat>, free: set<nat>,
                        p: nat, c: nat, i: nat, n: nat)
  {
    && p in w.dirs && c in w.dirs && p != c && p < TOTAL && c < TOTAL && UserIndex(i) && n <= 1024
    && System(m, w, free) && m[p] == m0[p] && HasTable(m0, p, i)
    && Forking(m0, m, w0, w, free0, free, p, c, Table(m0, p, KSTACK_PDI), i) && TableCopied(m0, m, p, c, i, n)
    && Walk(m, p, KSTACK_PDI, SCRATCH_TABLE) == Entry(Table(m, c, i), PRESENT + RW)
  }

  /** What a page copy needs holds in the inner loop. */
  lemma InnerReady(m: Memory, w: World, free: set<nat>, p: nat, c: nat, i: nat, n: nat)
    requires System(m, w, free) && p in w.dirs && c in w.dirs && p != c
    requires UserIndex(i) && n < 1024 && HasTable(m, c, i) && Present(Walk(m, p, i, n))
    ensures Table(m, c, i) < TOTAL && !Reads(m, p, Table(m, c, i))
    ensures Accessible(m, p, i, n) && Frame(Walk(m, p, i, n)) !in free
  {
    PageStepFrames(m, w, free, p, c, i, n);
    OwnedUnread(m, w, free, p, Table(m, c, i));
  }

  /** A directory reads no frame owned by another directory. */
  lemma OwnedUnread(m: Memory, w: World, free: set<nat>, p: nat, f: nat)
    requires System(m, w, free) && p in w.dirs && f in w.own && w.own[f].dir != p
    ensures !Reads(m, p, f)
  {
    assert Space(m, w, free, p);
    forall k: nat | k < SELF && HasTable(m, p, k)
      ensures Table(m, p, k) != f
    {
      if UserIndex(k) {
        assert Live(m, TableRef(p, k));
      }
    }
  }

  /** Copying one page advances the fork by one entry. */
  lemma InnerStep(m0: Memory, m: Memory, w0: World, w: World, free0: set<nat>, free: set<nat>,
                  p: nat, c: nat, i: nat, n: nat, f: nat)
    requires Inner(m0, m, w0, w, free0, free, p, c, i, n) && n < 1024 && f in free
    requires Present(Walk(m0, p, i, n)) && Walk(m, p, i, n) == Walk(m0, p, i, n) && Frame(Walk(m0, p, i, n)) < TOTAL
    requires m[Frame(Walk(m0, p, i, n))] == m0[Frame(Walk(m0, p, i, n))]
    ensures HasTable(m, p, KSTACK_PDI) && Table(m, p, KSTACK_PDI) < TOTAL && Table(m, c, i) < TOTAL
    ensures Inner(m0, AfterPage(m, p, c, i, n, f), w0, w.(own := w.own[f := PageRef(c, i, n)]), free0, free - {f}, p,
            c, i, n + 1)
  {
    InnerWrites(m, w, free, p, c, i, n, f);
    var m' := AfterPage(m, p, c, i, n, f);
    var t, kt := Table(m, c, i), Frame(w.kstack);
    PageStepSystem(m, w, free, p, c, i, n, f);
    PageStepForking(m0, m, m', w0, w, free0, free, p, c, i, n, t, kt, f, Walk(m0, p, i, n));
    PageStepCopied(m0, m, m', w, free, p, c, i, n, t, kt, f);
  }

  /** What copying one page writes, by the ledger. */
  lemma InnerWrites(m: Memory, w: World, free: set<nat>, p: nat, c: nat, i: nat, n: nat, f: nat)
    requires System(m, w, free) && p in w.dirs && c in w.dirs && p != c && f in free && f < TOTAL
    requires UserIndex(i) && n < 1024 && HasTable(m, c, i) && Present(Walk(m, p, i, n))
    ensures p < TOTAL && c < TOTAL && HasTable(m, p, KSTACK_PDI) && Table(m, p, KSTACK_PDI) == Frame(w.kstack) < TOTAL
    ensures Table(m, c, i) in w.own && w.own[Table(m, c, i)] == TableRef(c, i) && Table(m, c, i) < TOTAL
    ensures Frame(Walk(m, p, i, n)) < TOTAL && Frame(w.kstack) !in w.own
    ensures var m' := AfterPage(m, p, c, i, n, f);
            && PageWritten(m, m', c, i, n, Table(m, c, i), Frame(w.kstack), f, Walk(m, p, i, n))
            && m'[f] == m[Frame(Walk(m, p, i, n))] && m'[p] == m[p] && m'[c] == m[c]
            && Walk(m', p, KSTACK_PDI, SCRATCH_TABLE) == Walk(m, p, KSTACK_PDI, SCRATCH_TABLE)
  {
    PageStepFrames(m, w, free, p, c, i, n);
    AfterPageWrites(m, p, c, i, n, Table(m, c, i), Frame(w.kstack), f);
  }

  lemma AfterPageWrites(m: Memory, p: nat, c: nat, i: nat, n: nat, t: nat, kt: nat, f: nat)
    requires p < TOTAL && c < TOTAL && i < 1024 && n < 1024 && f < TOTAL && t < TOTAL && kt < TOTAL
    requires HasTable(m, p, KSTACK_PDI) && Table(m, p, KSTACK_PDI) == kt
    requires HasTable(m, c, i) && Table(m, c, i) == t && Frame(Walk(m, p, i, n)) < TOTAL
    requires c != t && c != kt && c != f && t != kt && t != f && f != kt && p != t && p != kt && p != f
    requires Frame(Walk(m, p, i, n)) != kt
    ensures PageWritten(m, AfterPage(m, p, c, i, n, f), c, i, n, t, kt, f, Walk(m, p, i, n))
    ensures AfterPage(m, p, c, i, n, f)[f] == m[Frame(Walk(m, p, i, n))]
    ensures AfterPage(m, p, c, i, n, f)[p] == m[p]
    ensures Walk(AfterPage(m, p, c, i, n, f), p, KSTACK_PDI, SCRATCH_TABLE) == Walk(m, p, KSTACK_PDI, SCRATCH_TABLE)
  {
  }

  lemma PageStepCopied(m0: Memory, m: Memory, m': Memory, w: World, free: set<nat>,
                       p: nat, c: nat, i: nat, n: nat, t: nat, kt: nat, f: nat)
    requires System(m, w, free) && p < TOTAL && c in w.dirs && UserIndex(i) && n < 1024 && f in free
    requires TableCopied(m0, m, p, c, i, n) && HasTable(m0, p, i) && t in w.own && w.own[t] == TableRef(c, i)
    requires kt !in w.own
    requires Present(Walk(m0, p, i, n)) && Frame(Walk(m0, p, i, n)) < TOTAL
    requires PageWritten(m, m', c, i, n, t, kt, f, Walk(m0, p, i, n)) && m'[f] == m0[Frame(Walk(m0, p, i, n))]
    ensures TableCopied(m0, m', p, c, i, n + 1)
  {
    ChildPages(m, w, free, c, i);
    PageStepTable(m0, m, m', p, c, i, n, t, kt, f);
  }

  lemma InnerSkip(m0: Memory, m: Memory, w0: World, w: World, free0: set<nat>, free: set<nat>,
                  p: nat, c: nat, i: nat, n: nat)
    requires Inner(m0, m, w0, w, free0, free, p, c, i, n) && n < 1024 && !Present(Walk(m0, p, i, n))
    ensures Inner(m0, m, w0, w, free0, free, p, c, i, n + 1)
  {
    assert EntryCopied(m0, m, Walk(m0, p, i, n), Walk(m, c, i, n));
  }

  /** The same place in another directory. */
  function At(r: Ref, d: nat): Ref { r.(dir := d) }

  /** What hangs below the child hung below the parent, at the same place. */
  ghost predicate Inside(m0: Memory, m: Memory, p: nat, c: nat)
    requires p < TOTAL && c < TOTAL
  {
    forall r | UserRef({c}, r) && Live(m, r) :: Live(m0, At(r, p))
  }

  /** A place of the parent that the child lacks. */
  ghost predicate Missing(m0: Memory, m: Memory, p: nat, c: nat, r: Ref)
    requires p < TOTAL && c < TOTAL
  {
    UserRef({p}, r) && Live(m0, r) && !Live(m, At(r, c))
  }

  /** The copy stopped at table `i` of the parent: all tables below are copied and none above is
      there. A child with a table `i` lacks a page of it, and the scratch table page is unmapped. */
  ghost predicate StoppedAt(m0: Memory, m: Memory, w: World, p: nat, c: nat, kt: nat, i: nat)
    requires p < TOTAL && c < TOTAL && kt < TOTAL
  {
    && UserIndex(i) && HasTable(m0, p, i)
    && (forall k: nat | k < i && UserIndex(k) :: TableCopied(m0, m, p, c, k, 1024))
    && (forall k: nat | i < k && UserIndex(k) :: !HasTable(m, c, k))
    && if HasTable(m, c, i) then
         && m[kt][SCRATCH_TABLE] == NIL
         && exists j: nat :: j < 1024 && Missing(m0, m, p, c, PageRef(p, i, j))
       else TableAt(m0, m, w, c, kt)
  }

  /** A failed copy: the last frame is gone, the ledger says where all of them went, and the
      child still lacks something. */
  ghost predicate Starved(m0: Memory, m: Memory, w0: World, w: World, free0: set<nat>, free: set<nat>, p: nat, c: nat)
    requires p < TOTAL && c < TOTAL
  {
    var kt := Table(m0, p, KSTACK_PDI);
    && free == {} && System(m, w, {}) && Bare(w0, c) && Grown(w0, w, free0, {}, c)
    && Untouched(m0, m, free0 + {c}, kt) && DataAt(m0, m, w, c, kt)
    && Inside(m0, m, p, c) && exists i: nat :: StoppedAt(m0, m, w, p, c, kt, i)
  }

  lemma CopiedInside(m0: Memory, m: Memory, p: nat, c: nat, r: Ref, n: nat)
    requires p < TOTAL && c < TOTAL && UserRef({c}, r) && n <= 1024 && TableCopied(m0, m, p, c, r.i, n) && Live(m, r)
    ensures Live(m0, At(r, p))
  {
    if r.PageRef? && r.j < n {
      assert EntryCopied(m0, m, Walk(m0, p, r.i, r.j), Walk(m, c, r.i, r.j));
    }
  }

  lemma ForkingInside(m0: Memory, m: Memory, w0: World, w: World, free0: set<nat>, free: set<nat>,
                      p: nat, c: nat, kt: nat, i: nat, n: nat)
    requires p < TOTAL && c < TOTAL && Forking(m0, m, w0, w, free0, free, p, c, kt, i) && n <= 1024
    requires UserIndex(i) ==> !HasTable(m, c, i) || TableCopied(m0, m, p, c, i, n)
    ensures Inside(m0, m, p, c)
  {
    forall r | UserRef({c}, r) && Live(m, r)
      ensures Live(m0, At(r, p))
    {
      assert HasTable(m, c, r.i);
      CopiedInside(m0, m, p, c, r, if r.i < i then 1024 else n);
    }
  }

  /** No frame for an entry of the parent: the child's table is unmapped and the copy has failed. */
  lemma InnerStarved(m0: Memory, m: Memory, w0: World, w: World, free0: set<nat>, p: nat, c: nat, i: nat, n: nat)
    requires Inner(m0, m, w0, w, free0, {}, p, c, i, n) && n < 1024 && Present(Walk(m0, p, i, n))
    ensures HasTable(m, p, KSTACK_PDI) && Table(m, p, KSTACK_PDI) < TOTAL
    ensures var m' := WithPte(m, p, KSTACK_PDI, SCRATCH_TABLE, NIL);
            Starved(m0, m', w0, w, free0, {}, p, c) && Walk(m', p, KSTACK_PDI, SCRATCH_TABLE) == NIL
  {
    KeepOnScratch(m, w, {}, p, SCRATCH_TABLE, NIL);
    var m', kt := WithPte(m, p, KSTACK_PDI, SCRATCH_TABLE, NIL), Frame(w.kstack);
    assert Untouched(m, m', {}, kt);
    assert Inside(m0, m', p, c) by {
      ForkingInside(m0, m, w0, w, free0, {}, p, c, kt, i, n);
      KeepInside(m0, m, m', w, p, c);
    }
    assert StoppedAt(m0, m', w, p, c, kt, i) by {
      KeepTablesBelow(m0, m, m', w, {}, p, c, i, kt);
      assert Missing(m0, m', p, c, PageRef(p, i, n)) by { SameLive(m, m', w, PageRef(c, i, n)); }
    }
  }

  lemma KeepInside(m0: Memory, m: Memory, m': Memory, w: World, p: nat, c: nat)
    requires Ledger(m, w) && p < TOTAL && c < TOTAL && c in w.dirs && Inside(m0, m, p, c)
    requires m'[c] == m[c] && forall f | f in w.own :: m'[f] == m[f]
    ensures Inside(m0, m', p, c)
  {
    forall r | UserRef({c}, r) && Live(m', r)
      ensures Live(m0, At(r, p))
    {
      SameLive(m, m', w, r);
    }
  }

  lemma OuterStarved(m0: Memory, m: Memory, w0: World, w: World, free0: set<nat>, p: nat, c: nat, i: nat)
    requires Outer(m0, m, w0, w, free0, {}, p, c, i) && UserIndex(i) && HasTable(m0, p, i)
    ensures Starved(m0, m, w0, w, free0, {}, p, c)
  {
    ForkingInside(m0, m, w0, w, free0, {}, p, c, Table(m0, p, KSTACK_PDI), i, 0);
    assert StoppedAt(m0, m, w, p, c, Table(m0, p, KSTACK_PDI), i);
  }

  /** One round of the inner loop of `paging_fork_copy`. */
  method CopyEntry(mc: Machine, ghost m0: Memory, ghost w0: World, ghost free0: set<nat>, ghost w1: World, c: nat,
      i: nat, n: nat)
    returns (ok: bool, ghost w: World)
    requires Runs(mc, {}) && System(m0, w0, free0) && c in w0.dirs && Space(m0, w0, free0, mc.cr3) && mc.cr3 in w0.dirs
    requires n < 1024 && Inner(m0, mc.mem, w0, w1, free0, mc.Free(), mc.cr3, c, i, n)
    modifies mc`mem, mc.frames.bitmap
    ensures Runs(mc, {})
    ensures if ok then Inner(m0, mc.mem, w0, w, free0, mc.Free(), mc.cr3, c, i, n + 1)
            else Starved(m0, mc.mem, w0, w, free0, mc.Free(), mc.cr3, c)
                 && Walk(mc.mem, mc.cr3, KSTACK_PDI, SCRATCH_TABLE) == NIL
  {
    w := w1;
    ghost var m, free, p := mc.mem, mc.Free(), mc.cr3;
    ParentUnchanged(m0, m, w0, free0, p, c, i, n);
    WindowShowsTables(m, p, i);
    var pte := mc.Load(SELF, i, n);
    if !Present(pte) {
      InnerSkip(m0, m, w0, w, free0, free, p, c, i, n);
      return true, w;
    }
    InnerReady(m, w, free, p, c, i, n);
    var copied, f := CopyPage(mc, c, i, n);
    if !copied {
      InnerStarved(m0, m, w0, w, free0, p, c, i, n);
      return false, w;
    }
    InnerStep(m0, m, w0, w, free0, free, p, c, i, n, f);
    w := w.(own := w.own[f := PageRef(c, i, n)]);
    return true, w;
  }

  /** The inner loop of `paging_fork_copy`. */
  method CopyEntries(mc: Machine, ghost m0: Memory, ghost w0: World, ghost free0: set<nat>, ghost w1: World, c: nat,
      i: nat)
    returns (ok: bool, ghost w: World)
    requires Runs(mc, {}) && System(m0, w0, free0) && c in w0.dirs && Space(m0, w0, free0, mc.cr3) && mc.cr3 in w0.dirs
    requires Inner(m0, mc.mem, w0, w1, free0, mc.Free(), mc.cr3, c, i, 0)
    modifies mc`mem, mc.frames.bitmap
    ensures Runs(mc, {})
    ensures if ok then Inner(m0, mc.mem, w0, w, free0, mc.Free(), mc.cr3, c, i, 1024)
            else Starved(m0, mc.mem, w0, w, free0, mc.Free(), mc.cr3, c)
                 && Walk(mc.mem, mc.cr3, KSTACK_PDI, SCRATCH_TABLE) == NIL
  {
    w := w1;
    for n := 0 to 1024
      invariant Runs(mc, {})
      invariant Inner(m0, mc.mem, w0, w, free0, mc.Free(), mc.cr3, c, i, n)
    {
      ok, w := CopyEntry(mc, m0, w0, free0, w, c, i, n);
      if !ok { return false, w; }
    }
    return true, w;
  }

  /** The state after a cleared table was hung below the child: the three writes before the inner loop. */
  ghost function AfterTable(m: Memory, p: nat, c: nat, i: nat, t: nat): (r: Memory)
    requires p < TOTAL && c < TOTAL && i < 1024 && t < TOTAL
    requires HasTable(m, p, KSTACK_PDI) && Table(m, p, KSTACK_PDI) < TOTAL
  {
    var m1 := WithPte(m, p, KSTACK_PDI, SCRATCH_TABLE, Entry(t, PRESENT + RW));
    WithWord(m1[t := ZeroPage()], c, i, Entry(t, Flags(m[p][i])))
  }

  /** The part of the outer loop of `paging_fork_copy` that gives the child an empty table. */
  method NewChildTable(mc: Machine, c: nat, i: nat) returns (ok: bool, ghost t: nat)
    requires Runs(mc, {}) && c < RESERVED && UserIndex(i) && HasTable(mc.mem, mc.cr3, i)
    requires Walk(mc.mem, mc.cr3, 0, c) == Entry(c, PRESENT + RW) && !Reads(mc.mem, mc.cr3, c)
    modifies mc`mem, mc.frames.bitmap
    ensures Runs(mc, {}) && ok == (old(mc.Free()) != {})
    ensures !ok ==> mc.Free() == {} && mc.mem == old(mc.mem)
    ensures ok ==> t in old(mc.Free()) && mc.Free() == old(mc.Free()) - {t}
                   && mc.mem == AfterTable(old(mc.mem), mc.cr3, c, i, t)
  {
    ghost var m, p := mc.mem, mc.cr3;
    WindowShowsTables(m, p, i);
    var pde := mc.Load(SELF, SELF, i);
    var addr := mc.frames.AllocFrame();
    var table := addr / 4096;
    t := table;
    if addr == 0 { return false, t; }
    MapScratch(mc, {t}, SCRATCH_TABLE, table);
    ghost var m1 := mc.mem;
    assert Walk(m1, p, KSTACK_PDI, SCRATCH_TABLE) == Entry(t, PRESENT + RW)
        && Walk(m1, p, 0, c) == Walk(m, p, 0, c) by {
      WithPteUpdates(m, p, KSTACK_PDI, SCRATCH_TABLE, Entry(t, PRESENT + RW));
    }
    ClearThrough(mc, KSTACK_PDI, SCRATCH_TABLE, t);
    SameWalk(m1, mc.mem, p, t, 0, c);
    mc.Store(0, c, i, Entry(table, Flags(pde)));
    SameDirectory(m1, mc.mem, p);
    return true, t;
  }

  lemma TableStepSystem(m: Memory, w: World, free: set<nat>, p: nat, c: nat, i: nat, t: nat)
    requires System(m, w, free) && p in w.dirs && c in w.dirs && p != c && UserIndex(i) && t in free
    requires HasTable(m, p, i) && !HasTable(m, c, i)
    ensures HasTable(m, p, KSTACK_PDI) && Table(m, p, KSTACK_PDI) < TOTAL && Table(m, p, KSTACK_PDI) !in w.own
    ensures Table(m, p, KSTACK_PDI) !in free && Table(m, p, KSTACK_PDI) !in w.pds
    ensures System(AfterTable(m, p, c, i, t), w.(own := w.own[t := TableRef(c, i)]), free - {t})
  {
    assert Space(m, w, free, p);
    var m1 := WithPte(m, p, KSTACK_PDI, SCRATCH_TABLE, Entry(t, PRESENT + RW));
    var m2 := m1[t := ZeroPage()];
    assert System(m2, w, free) by {
      KeepOnScratch(m, w, free, p, SCRATCH_TABLE, Entry(t, PRESENT + RW));
      KeepOnFreeWrite(m1, w, free, t, ZeroPage());
    }
    assert m2[c] == m[c];
    KeepOnNewTable(m2, w, free, c, i, t, Flags(m[p][i]));
    assert Flags(m[p][i]) % 4096 == Flags(m[p][i]);
  }

  lemma AfterTableWrites(m: Memory, p: nat, c: nat, i: nat, t: nat, kt: nat)
    requires p < TOTAL && c < TOTAL && UserIndex(i) && t < TOTAL && kt < TOTAL
    requires HasTable(m, p, KSTACK_PDI) && Table(m, p, KSTACK_PDI) == kt
    requires c != t && c != kt && t != kt && p != t && p != kt && p != c
    ensures var m' := AfterTable(m, p, c, i, t);
            && Untouched(m, m', {t, c}, kt) && ScratchShows(m, m', kt, t, TableRef(c, i))
            && m'[t] == ZeroPage() && m'[c] == m[c][i := Entry(t, Flags(m[p][i]))] && m'[p] == m[p]
            && Walk(m', p, KSTACK_PDI, SCRATCH_TABLE) == Entry(t, PRESENT + RW)
  {
  }

  /** Hanging the empty table starts the inner loop. */
  lemma TableStep(m0: Memory, m: Memory, w0: World, w: World, free0: set<nat>, free: set<nat>,
                  p: nat, c: nat, i: nat, t: nat)
    requires p in w.dirs && c in w.dirs && p != c && p < TOTAL && c < TOTAL && UserIndex(i) && t in free
    requires System(m, w, free) && m[p] == m0[p] && HasTable(m0, p, i) && !HasTable(m, c, i)
    requires Forking(m0, m, w0, w, free0, free, p, c, Table(m0, p, KSTACK_PDI), i)
    ensures HasTable(m, p, KSTACK_PDI) && Table(m, p, KSTACK_PDI) < TOTAL
    ensures Inner(m0, AfterTable(m, p, c, i, t), w0, w.(own := w.own[t := TableRef(c, i)]), free0, free - {t}, p, c, i,
            0)
  {
    TableStepSystem(m, w, free, p, c, i, t);
    var m', kt := AfterTable(m, p, c, i, t), Table(m, p, KSTACK_PDI);
    AfterTableWrites(m, p, c, i, t, kt);
    assert Forking(m0, m', w0, w.(own := w.own[t := TableRef(c, i)]), free0, free - {t}, p, c, kt, i) by {
      KeepTablesBelow(m0, m, m', w, free, p, c, i, t);
      KeepForking(m0, m, m', w0, w, free0, free, p, c, kt, i, t, t, TableRef(c, i));
    }
    EmptyCopy(m0, m', p, c, i, t);
  }

  lemma EmptyCopy(m0: Memory, m: Memory, p: nat, c: nat, i: nat, t: nat)
    requires p < TOTAL && c < TOTAL && i < 1024 && t < TOTAL && HasTable(m0, p, i)
    requires m[c][i] == Entry(t, Flags(m0[p][i])) && m[t] == ZeroPage()
    ensures TableCopied(m0, m, p, c, i, 0)
  {
    assert HasTable(m, c, i) && Table(m, c, i) == t;
  }

  /** State of the outer loop: every table below `i` is done and none is there from `i` on. */
  ghost predicate Outer(m0: Memory, m: Memory, w0: World, w: World, free0: set<nat>, free: set<nat>, p: nat, c: nat,
      i: nat)
  {
    && p in w.dirs && c in w.dirs && p != c && p < TOTAL && c < TOTAL
    && System(m, w, free) && m[p] == m0[p]
    && Forking(m0, m, w0, w, free0, free, p, c, Table(m0, p, KSTACK_PDI), i)
    && (UserIndex(i) ==> !HasTable(m, c, i))
  }

  lemma OuterStart(m: Memory, w: World, free: set<nat>, p: nat, c: nat)
    requires System(m, w, free) && p in w.dirs && c in w.dirs && p != c
    requires forall k: nat | UserIndex(k) :: !HasTable(m, c, k)
    ensures Outer(m, m, w, w, free, free, p, c, 1)
  {
    forall f | f in w.own
      ensures w.own[f].dir != c
    {
      assert Live(m, w.own[f]);
      assert HasTable(m, w.own[f].dir, w.own[f].i);
    }
  }

  /** A copied, or absent, table ends one round of the outer loop. */
  lemma OuterStep(m0: Memory, m: Memory, w0: World, w: World, free0: set<nat>, free: set<nat>, p: nat, c: nat, i: nat)
    requires p in w.dirs && c in w.dirs && p != c && p < TOTAL && c < TOTAL && UserIndex(i)
    requires System(m, w, free) && m[p] == m0[p]
    requires Forking(m0, m, w0, w, free0, free, p, c, Table(m0, p, KSTACK_PDI), i)
    requires TableCopied(m0, m, p, c, i, 1024)
    ensures Outer(m0, m, w0, w, free0, free, p, c, i + 1)
  {
    assert forall k: nat | k < i + 1 && UserIndex(k) :: k < i || k == i;
  }

  /** One round of the outer loop of `paging_fork_copy`. */
  method CopyTable(mc: Machine, ghost m0: Memory, ghost w0: World, ghost free0: set<nat>, ghost w1: World, c: nat,
      i: nat)
    returns (ok: bool, ghost w: World)
    requires Runs(mc, {}) && System(m0, w0, free0) && c in w0.dirs && Space(m0, w0, free0, mc.cr3) && mc.cr3 in w0.dirs
    requires UserIndex(i) && Outer(m0, mc.mem, w0, w1, free0, mc.Free(), mc.cr3, c, i)
    modifies mc`mem, mc.frames.bitmap
    ensures Runs(mc, {})
    ensures if ok then Outer(m0, mc.mem, w0, w, free0, mc.Free(), mc.cr3, c, i + 1)
            else c < TOTAL && Starved(m0, mc.mem, w0, w, free0, mc.Free(), mc.cr3, c)
  {
    w := w1;
    ghost var m, free, p := mc.mem, mc.Free(), mc.cr3;
    DirectoryReady(m, w, free, p, c);
    WindowShowsTables(m, p, i);
    if !Present(mc.Load(SELF, SELF, i)) {
      OuterStep(m0, m, w0, w, free0, free, p, c, i);
      return true, w;
    }
    var made, t := NewChildTable(mc, c, i);
    if !made {
      OuterStarved(m0, m, w0, w, free0, p, c, i);
      return false, w;
    }
    TableStep(m0, m, w0, w, free0, free, p, c, i, t);
    w := w.(own := w.own[t := TableRef(c, i)]);
    ok, w := CopyEntries(mc, m0, w0, free0, w, c, i);
    if !ok { return false, w; }
    OuterStep(m0, mc.mem, w0, w, free0, mc.Free(), p, c, i);
    return true, w;
  }

  /** Both scratch pages are unmapped. */
  ghost predicate ScratchClear(m: Memory, kt: nat)
    requires kt < TOTAL
  {
    !Present(m[kt][SCRATCH_TABLE]) && !Present(m[kt][SCRATCH_DATA])
  }

  /** The loops of `paging_fork_copy`. */
  method CopyTables(mc: Machine, ghost w0: World, c: nat) returns (ok: bool, ghost w: World)
    requires Runs(mc, {}) && System(mc.mem, w0, mc.Free())
    requires mc.cr3 in w0.dirs && c in w0.dirs && c != mc.cr3
    requires forall k: nat | UserIndex(k) :: c < TOTAL && !HasTable(mc.mem, c, k)
    modifies mc`mem, mc.frames.bitmap
    ensures Runs(mc, {}) && mc.cr3 < TOTAL && c < TOTAL
    ensures if ok then Outer(old(mc.mem), mc.mem, w0, w, old(mc.Free()), mc.Free(), mc.cr3, c, 768)
            else Starved(old(mc.mem), mc.mem, w0, w, old(mc.Free()), mc.Free(), mc.cr3, c)
  {
    ghost var m0, free0, p := mc.mem, mc.Free(), mc.cr3;
    DirectoryReady(m0, w0, free0, p, c);
    OuterStart(m0, w0, free0, p, c);
    w := w0;
    for i := 1 to 768
      invariant Runs(mc, {})
      invariant Outer(m0, mc.mem, w0, w, free0, mc.Free(), p, c, i)
    {
      ok, w := CopyTable(mc, m0, w0, free0, w, c, i);
      if !ok { return false, w; }
    }
    return true, w;
  }

  /** The two `unmap_page` calls at the end of `paging_fork_copy`. */
  method UnmapBoth(mc: Machine)
    requires Runs(mc, {})
    modifies mc`mem
    ensures Runs(mc, {}) && mc.cr3 < TOTAL
    ensures Untouched(old(mc.mem), mc.mem, {}, Table(old(mc.mem), mc.cr3, KSTACK_PDI))
    ensures ScratchClear(mc.mem, Table(old(mc.mem), mc.cr3, KSTACK_PDI))
  {
    UnmapScratch(mc, {}, SCRATCH_TABLE);
    UnmapScratch(mc, {}, SCRATCH_DATA);
  }

  /** `paging_fork_copy`. It succeeds exactly when there is a free frame for every table and page of
      the current directory, and then every user table is copied into directory `c` and the scratch
      pages are unmapped again. In every case the ledger grows by exactly the frames taken and
      nothing else that was in use is written, but the two scratch entries. A failed copy may leave
      these mapped, to frames of the half-built child: `ScratchLeft` says when. */
  method ForkCopy(mc: Machine, ghost w0: World, c: nat) returns (ok: bool, ghost w: World)
    requires mc.frames.Valid() && System(mc.mem, w0, mc.Free())
    requires mc.cr3 in w0.dirs && c in w0.dirs && c != mc.cr3
    requires forall k: nat | UserIndex(k) :: c < TOTAL && !HasTable(mc.mem, c, k)
    modifies mc`mem, mc.frames.bitmap
    ensures mc.frames.Valid() && System(mc.mem, w, mc.Free())
    ensures Bare(w0, c) && Grown(w0, w, old(mc.Free()), mc.Free(), c)
    ensures mc.cr3 < TOTAL && c < TOTAL && Frame(w0.kstack) < TOTAL
    ensures Untouched(old(mc.mem), mc.mem, old(mc.Free()) + {c}, Frame(w0.kstack))
    ensures ok == (|old(mc.Free())| >= |Owned(w0, mc.cr3)|)
    ensures ok ==> forall k: nat | UserIndex(k) :: TableCopied(old(mc.mem), mc.mem, mc.cr3, c, k, 1024)
    ensures ok ==> ScratchClear(mc.mem, Frame(w0.kstack))
    ensures ok ==> |Owned(w, c)| == |Owned(w0, mc.cr3)|
    ensures !ok ==> mc.Free() == {}
                    && ScratchLeft(old(mc.mem), mc.mem, w0, mc.cr3, Frame(w0.kstack), |old(mc.Free())|, old(mc.Free()))
                    && ClearIff(old(mc.mem), mc.mem, mc.cr3, Frame(w0.kstack), |old(mc.Free())| <= 1)
  {
    ghost var m0, free0, p := mc.mem, mc.Free(), mc.cr3;
    DirectoryReady(m0, w0, free0, p, c);
    assert Space(m0, w0, free0, c);
    WindowShowsTables(m0, p, KSTACK_PDI);
    mc.Store(0, c, KSTACK_PDI, mc.Load(SELF, SELF, KSTACK_PDI));
    assert mc.mem[c] == m0[c] && mc.mem == m0;
    ok, w := CopyTables(mc, w0, c);
    if ok {
      ghost var m := mc.mem;
      UnmapBoth(mc);
      OuterEnd(m0, m, mc.mem, w0, w, free0, mc.Free(), p, c);
    } else {
      CopyFailed(m0, mc.mem, w0, w, free0, p, c);
    }
  }

  lemma OuterEnd(m0: Memory, m: Memory, m': Memory, w0: World, w: World, free0: set<nat>, free: set<nat>, p: nat,
      c: nat)
    requires Outer(m0, m, w0, w, free0, free, p, c, 768) && Table(m0, p, KSTACK_PDI) == Frame(w.kstack)
    requires Untouched(m, m', {}, Frame(w.kstack)) && Ledger(m0, w0) && w0.own.Keys !! free0
    ensures System(m', w, free) && Untouched(m0, m', free0 + {c}, Frame(w.kstack))
    ensures Bare(w0, c) && Grown(w0, w, free0, free, c)
    ensures forall k: nat | UserIndex(k) :: TableCopied(m0, m', p, c, k, 1024)
    ensures |Owned(w, c)| == |Owned(w0, p)| && |free0| == |free| + |Owned(w0, p)|
  {
    KeepSystem(m, m', w, free, {});
    KeepTablesBelow(m0, m, m', w, free, p, c, 768, Frame(w.kstack));
    EnoughFrames(m0, m', w0, w, free0, free, p, c);
  }

  // ----- how many frames a fork needs -----

  /** The user frames of a directory: its tables and its pages. */
  ghost function Owned(w: World, c: nat): (s: set<nat>)
    ensures s <= w.own.Keys
  {
    set f | f in w.own && w.own[f].dir == c
  }

  /** The places of the frames `s`, written as places of directory 0. */
  ghost function Spots(w: World, s: set<nat>): (r: set<Ref>)
    requires s <= w.own.Keys
  {
    set f | f in s :: At(w.own[f], 0)
  }

  /** Distinct frames of a directory have distinct places. */
  lemma SpotsCount(m: Memory, w: World, d: nat, s: set<nat>)
    requires Ledger(m, w) && s <= Owned(w, d)
    ensures |Spots(w, s)| == |s|
  {
    forall f, g | f in s && g in s && At(w.own[f], 0) == At(w.own[g], 0)
      ensures f == g
    {
      assert w.own[f] == w.own[g];
    }
    ImageCount(s, w.own);
  }

  lemma {:induction false} ImageCount(s: set<nat>, own: map<nat, Ref>)
    requires forall f | f in s :: f in own
    requires forall f, g | f in s && g in s && At(own[f], 0) == At(own[g], 0) :: f == g
    ensures |set f | f in s :: At(own[f], 0)| == |s|
  {
    var image := set f | f in s :: At(own[f], 0);
    if s == {} {
      assert image == {};
    } else {
      var x :| x in s;
      var rest := s - {x};
      ImageCount(rest, own);
      assert image == (set f | f in rest :: At(own[f], 0)) + {At(own[x], 0)};
    }
  }

  /** A place is among those of `s` exactly when it is live and its frame is in `s`. */
  lemma SpotLive(m: Memory, w: World, d: nat, s: set<nat>, r: Ref)
    requires Ledger(m, w) && d in w.dirs && UserRef({0}, r) && s <= Owned(w, d)
    ensures r in Spots(w, s) <==> Live(m, At(r, d)) && Target(m, At(r, d)) in s
    ensures Live(m, At(r, d)) ==> Target(m, At(r, d)) in Owned(w, d) && w.own[Target(m, At(r, d))] == At(r, d)
  {
    if Live(m, At(r, d)) {
      var f := Target(m, At(r, d));
      assert w.own[f] == At(r, d);
      assert f in Owned(w, d) && At(w.own[f], 0) == r;
    }
    if r in Spots(w, s) {
      var f :| f in s && At(w.own[f], 0) == r;
      assert w.own[f] == At(r, d);
    }
  }

  lemma SpotsAreUser(m: Memory, w: World, s: set<nat>)
    requires Ledger(m, w) && s <= w.own.Keys
    ensures forall r | r in Spots(w, s) :: UserRef({0}, r)
  {
  }

  lemma InsideSpots(m0: Memory, m: Memory, w0: World, w: World, p: nat, c: nat)
    requires Ledger(m0, w0) && Ledger(m, w) && p in w0.dirs && c in w.dirs && Inside(m0, m, p, c)
    ensures Spots(w, Owned(w, c)) <= Spots(w0, Owned(w0, p))
  {
    SpotsAreUser(m, w, Owned(w, c));
    forall r | r in Spots(w, Owned(w, c))
      ensures r in Spots(w0, Owned(w0, p))
    {
      SpotLive(m, w, c, Owned(w, c), r);
      SpotLive(m0, w0, p, Owned(w0, p), r);
      assert Live(m0, At(At(r, c), p));
    }
  }

  /** Fewer places, fewer frames. */
  lemma SpotsCompare(m0: Memory, m: Memory, w0: World, w: World, p: nat, c: nat, s0: set<nat>, s: set<nat>)
    requires Ledger(m0, w0) && Ledger(m, w) && s0 <= Owned(w0, p) && s <= Owned(w, c) && Spots(w, s) <= Spots(w0, s0)
    ensures |s| <= |s0| && (|s| == |s0| ==> Spots(w, s) == Spots(w0, s0))
  {
    SpotsCount(m, w, c, s);
    SpotsCount(m0, w0, p, s0);
    Subset(Spots(w, s), Spots(w0, s0));
  }

  lemma Subset(a: set<Ref>, b: set<Ref>)
    requires a <= b
    ensures |a| <= |b| && (|a| == |b| ==> a == b)
  {
    assert |b| == |a| + |b - a| by { assert b == a + (b - a); }
  }

  /** A directory without user tables owns nothing. */
  lemma NoTables(m: Memory, w: World, c: nat)
    requires Ledger(m, w) && forall k: nat | UserIndex(k) :: c < TOTAL && !HasTable(m, c, k)
    ensures Bare(w, c) && Owned(w, c) == {}
  {
    forall f | f in w.own
      ensures w.own[f].dir != c
    {
      assert Live(m, w.own[f]);
      assert HasTable(m, w.own[f].dir, w.own[f].i);
    }
  }

  lemma GrownOwned(w0: World, w: World, free0: set<nat>, free: set<nat>, c: nat)
    requires Bare(w0, c) && Grown(w0, w, free0, free, c) && w0.own.Keys !! free0
    ensures Owned(w, c) == free0 - free
  {
  }

  /** A finished copy has every place of the parent, and no other. */
  lemma CopyCovers(m0: Memory, m: Memory, p: nat, c: nat)
    requires p < TOTAL && c < TOTAL && forall k: nat | UserIndex(k) :: TableCopied(m0, m, p, c, k, 1024)
    ensures Inside(m, m0, c, p) && Inside(m0, m, p, c)
  {
    forall r | UserRef({p}, r) && Live(m0, r)
      ensures Live(m, At(r, c))
    {
      assert TableCopied(m0, m, p, c, r.i, 1024);
      if r.PageRef? { CopiedAt(m0, m, p, c, r.i, r.j); }
    }
    forall r | UserRef({c}, r) && Live(m, r)
      ensures Live(m0, At(r, p))
    {
      CopiedInside(m0, m, p, c, r, 1024);
    }
  }

  lemma Split(free0: set<nat>, free: set<nat>)
    requires free <= free0
    ensures |free0| == |free| + |free0 - free|
  {
    assert free0 == free + (free0 - free);
  }

  /** A finished copy took one frame for every frame of the parent. */
  lemma EnoughFrames(m0: Memory, m: Memory, w0: World, w: World, free0: set<nat>, free: set<nat>, p: nat, c: nat)
    requires Ledger(m0, w0) && Ledger(m, w) && p in w0.dirs && c in w.dirs && p < TOTAL && c < TOTAL
    requires Bare(w0, c) && Grown(w0, w, free0, free, c) && w0.own.Keys !! free0
    requires forall k: nat | UserIndex(k) :: TableCopied(m0, m, p, c, k, 1024)
    ensures |Owned(w, c)| == |Owned(w0, p)| && |free0| == |free| + |Owned(w0, p)|
  {
    CopyCovers(m0, m, p, c);
    InsideSpots(m, m0, w, w0, c, p);
    InsideSpots(m0, m, w0, w, p, c);
    SpotsCompare(m, m0, w, w0, c, p, Owned(w, c), Owned(w0, p));
    SpotsCompare(m0, m, w0, w, p, c, Owned(w0, p), Owned(w, c));
    GrownOwned(w0, w, free0, free, c);
    Split(free0, free);
  }

  lemma TooFewFrames(m0: Memory, m: Memory, w0: World, w: World, free0: set<nat>, p: nat, c: nat, r: Ref)
    requires Ledger(m0, w0) && Ledger(m, w) && p in w0.dirs && c in w.dirs && p < TOTAL && c < TOTAL
    requires Bare(w0, c) && Grown(w0, w, free0, {}, c) && w0.own.Keys !! free0
    requires Inside(m0, m, p, c) && Missing(m0, m, p, c, r)
    ensures |free0| < |Owned(w0, p)|
  {
    InsideSpots(m0, m, w0, w, p, c);
    assert Spots(w, Owned(w, c)) != Spots(w0, Owned(w0, p)) by { MissingSpot(m0, m, w0, w, p, c, r); }
    SpotsCompare(m0, m, w0, w, p, c, Owned(w0, p), Owned(w, c));
    GrownOwned(w0, w, free0, {}, c);
    assert Owned(w, c) == free0;
  }

  /** What the child lacks where the copy stopped. */
  lemma StarvedMissing(m0: Memory, m: Memory, w0: World, w: World, free0: set<nat>, p: nat, c: nat) returns (r: Ref)
    requires p < TOTAL && c < TOTAL && Starved(m0, m, w0, w, free0, {}, p, c)
    ensures Missing(m0, m, p, c, r)
  {
    var i: nat :| StoppedAt(m0, m, w, p, c, Table(m0, p, KSTACK_PDI), i);
    if HasTable(m, c, i) {
      var j: nat :| j < 1024 && Missing(m0, m, p, c, PageRef(p, i, j));
      return PageRef(p, i, j);
    }
    return TableRef(p, i);
  }

  lemma MissingSpot(m0: Memory, m: Memory, w0: World, w: World, p: nat, c: nat, r: Ref)
    requires Ledger(m0, w0) && Ledger(m, w) && p in w0.dirs && c in w.dirs && p < TOTAL && c < TOTAL
    requires Missing(m0, m, p, c, r)
    ensures Spots(w, Owned(w, c)) != Spots(w0, Owned(w0, p))
  {
    SpotLive(m0, w0, p, Owned(w0, p), At(r, 0));
    SpotLive(m, w, c, Owned(w, c), At(r, 0));
    assert At(At(r, 0), p) == r && At(At(r, 0), c) == At(r, c);
  }

  // ----- what a failed copy leaves in the scratch pages -----

  /** The frames that directory `p` has for its entries below `i`. */
  ghost function Before(w: World, p: nat, i: nat): (s: set<nat>)
    ensures s <= Owned(w, p)
  {
    set f | f in w.own && w.own[f].dir == p && w.own[f].i < i
  }

  /** The tables that directory `p` has up to entry `x`. */
  ghost function TablesTo(w: World, p: nat, x: nat): (s: set<nat>)
    ensures s <= Owned(w, p)
  {
    set f | f in w.own && w.own[f].dir == p && w.own[f].TableRef? && w.own[f].i <= x
  }

  ghost predicate HasPage(m: Memory, p: nat, i: nat)
    requires p < TOTAL
  {
    UserIndex(i) && exists j: nat :: j < 1024 && Present(Walk(m, p, i, j))
  }

  /** Table `x` is the first one of directory `p` with a page in it. */
  ghost predicate FirstPaged(m: Memory, p: nat, x: nat)
    requires p < TOTAL
  {
    HasPage(m, p, x) && forall k: nat | k < x :: !HasPage(m, p, k)
  }

  /** With `n` frames the copy of directory `p` gets as far as its first page. */
  ghost predicate DataStays(m: Memory, w: World, p: nat, n: int)
    requires p < TOTAL
  {
    exists x: nat :: FirstPaged(m, p, x) && n > |TablesTo(w, p, x)|
  }

  /** With `n` frames the copy of directory `p` stops for want of a table, and not of the first one. */
  ghost predicate TableStays(m: Memory, w: World, p: nat, n: int)
    requires p < TOTAL
  {
    n > 0 && exists i: nat :: UserIndex(i) && HasTable(m, p, i) && n == |Before(w, p, i)|
  }

  /** Entry `s` of table `kt` maps a frame of `lost`. */
  ghost predicate MapsAny(m: Memory, kt: nat, s: nat, lost: set<nat>)
    requires kt < TOTAL && s < 1024
  {
    Present(m[kt][s]) && Frame(m[kt][s]) in lost
  }

  /** The scratch entries after a copy of directory `p` that failed with `n` frames, all of them in
      `lost`: exactly which still map one of these, and what the other ones hold. */
  ghost predicate ScratchLeft(m0: Memory, m: Memory, w0: World, p: nat, kt: nat, n: int, lost: set<nat>) {
    && p < TOTAL && kt < TOTAL
    && (if DataStays(m0, w0, p, n) then MapsAny(m, kt, SCRATCH_DATA, lost)
        else m[kt][SCRATCH_DATA] == m0[kt][SCRATCH_DATA])
    && (if TableStays(m0, w0, p, n) then MapsAny(m, kt, SCRATCH_TABLE, lost)
        else m[kt][SCRATCH_TABLE] == if n <= 0 then m0[kt][SCRATCH_TABLE] else NIL)
  }

  /** Where the copy stopped at `i` the child has all of the parent below `i` and nothing above. */
  lemma StoppedPlace(m0: Memory, m: Memory, w: World, p: nat, c: nat, kt: nat, i: nat, r: Ref)
    requires p < TOTAL && c < TOTAL && kt < TOTAL && StoppedAt(m0, m, w, p, c, kt, i) && UserRef({0}, r)
    ensures r.i < i ==> Live(m, At(r, c)) == Live(m0, At(r, p))
    ensures r.i > i ==> !Live(m, At(r, c))
    ensures r.i == i && !HasTable(m, c, i) ==> !Live(m, At(r, c))
  {
    if r.i < i {
      assert TableCopied(m0, m, p, c, r.i, 1024);
      if r.PageRef? { CopiedAt(m0, m, p, c, r.i, r.j); }
    }
  }

  /** No frame for table `i`: the copy took exactly the frames of the tables before it. */
  lemma StoppedForTable(m0: Memory, m: Memory, w0: World, w: World, p: nat, c: nat, kt: nat, i: nat)
    requires Ledger(m0, w0) && Ledger(m, w) && p in w0.dirs && c in w.dirs && p < TOTAL && c < TOTAL && kt < TOTAL
    requires StoppedAt(m0, m, w, p, c, kt, i) && !HasTable(m, c, i)
    ensures |Owned(w, c)| == |Before(w0, p, i)|
  {
    var s, s0 := Owned(w, c), Before(w0, p, i);
    SpotsAreUser(m, w, s);
    SpotsAreUser(m0, w0, s0);
    forall r | UserRef({0}, r)
      ensures r in Spots(w, s) <==> r in Spots(w0, s0)
    {
      StoppedPlace(m0, m, w, p, c, kt, i, r);
      SpotLive(m, w, c, s, r);
      SpotLive(m0, w0, p, s0, r);
    }
    SpotsCompare(m0, m, w0, w, p, c, s0, s);
    SpotsCompare(m, m0, w, w0, c, p, s, s0);
  }

  /** No frame for a page of table `i`: the copy stopped inside of a table. */
  lemma StoppedForPage(m0: Memory, m: Memory, w0: World, w: World, p: nat, c: nat, kt: nat, i: nat, k: nat)
    requires Ledger(m0, w0) && Ledger(m, w) && p in w0.dirs && c in w.dirs && p < TOTAL && c < TOTAL && kt < TOTAL
    requires StoppedAt(m0, m, w, p, c, kt, i) && HasTable(m, c, i) && Inside(m0, m, p, c)
    ensures |Owned(w, c)| != |Before(w0, p, k)|
  {
    var s, s0 := Owned(w, c), Before(w0, p, k);
    SpotsAreUser(m, w, s);
    SpotsAreUser(m0, w0, s0);
    var j: nat :| j < 1024 && Missing(m0, m, p, c, PageRef(p, i, j));
    var r := if k <= i then TableRef(0, i) else PageRef(0, i, j);
    SpotLive(m, w, c, s, r);
    SpotLive(m0, w0, p, s0, r);
    if k <= i {
      assert Spots(w0, s0) <= Spots(w, s) by { StoppedAfter(m0, m, w0, w, p, c, kt, i, k); }
      SpotsCompare(m, m0, w, w0, c, p, s, s0);
    } else {
      assert Spots(w, s) <= Spots(w0, s0) by { StoppedBefore(m0, m, w0, w, p, c, kt, i, k); }
      SpotsCompare(m0, m, w0, w, p, c, s0, s);
    }
  }

  lemma StoppedAfter(m0: Memory, m: Memory, w0: World, w: World, p: nat, c: nat, kt: nat, i: nat, k: nat)
    requires Ledger(m0, w0) && Ledger(m, w) && p in w0.dirs && c in w.dirs && p < TOTAL && c < TOTAL && kt < TOTAL
    requires StoppedAt(m0, m, w, p, c, kt, i) && k <= i
    ensures Spots(w0, Before(w0, p, k)) <= Spots(w, Owned(w, c))
  {
    SpotsAreUser(m0, w0, Before(w0, p, k));
    forall r | r in Spots(w0, Before(w0, p, k))
      ensures r in Spots(w, Owned(w, c))
    {
      StoppedPlace(m0, m, w, p, c, kt, i, r);
      SpotLive(m, w, c, Owned(w, c), r);
      SpotLive(m0, w0, p, Before(w0, p, k), r);
    }
  }

  lemma StoppedBefore(m0: Memory, m: Memory, w0: World, w: World, p: nat, c: nat, kt: nat, i: nat, k: nat)
    requires Ledger(m0, w0) && Ledger(m, w) && p in w0.dirs && c in w.dirs && p < TOTAL && c < TOTAL && kt < TOTAL
    requires StoppedAt(m0, m, w, p, c, kt, i) && i < k && Inside(m0, m, p, c)
    ensures Spots(w, Owned(w, c)) <= Spots(w0, Before(w0, p, k))
  {
    SpotsAreUser(m, w, Owned(w, c));
    forall r | r in Spots(w, Owned(w, c))
      ensures r in Spots(w0, Before(w0, p, k))
    {
      StoppedPlace(m0, m, w, p, c, kt, i, r);
      SpotLive(m, w, c, Owned(w, c), r);
      SpotLive(m0, w0, p, Before(w0, p, k), r);
      assert Live(m0, At(At(r, c), p));
    }
  }

  /** Among the tables with a page there is a first one. */
  lemma {:induction false} FirstExists(m: Memory, p: nat, a: nat) returns (x: nat)
    requires p < TOTAL && HasPage(m, p, a)
    ensures FirstPaged(m, p, x) && x <= a
    decreases a
  {
    if k: nat :| k < a && HasPage(m, p, k) {
      x := FirstExists(m, p, k);
    } else {
      x := a;
    }
  }

  lemma TablesGot(m0: Memory, m: Memory, w0: World, w: World, p: nat, c: nat, kt: nat, i: nat, a: nat, x: nat)
    requires Ledger(m0, w0) && Ledger(m, w) && p in w0.dirs && c in w.dirs && p < TOTAL && c < TOTAL && kt < TOTAL
    requires StoppedAt(m0, m, w, p, c, kt, i) && UserIndex(a) && HasTable(m, c, a) && x <= a
    ensures Spots(w0, TablesTo(w0, p, x)) <= Spots(w, Owned(w, c))
  {
    SpotsAreUser(m0, w0, TablesTo(w0, p, x));
    forall r | r in Spots(w0, TablesTo(w0, p, x))
      ensures r in Spots(w, Owned(w, c))
    {
      StoppedPlace(m0, m, w, p, c, kt, i, r);
      SpotLive(m, w, c, Owned(w, c), r);
      SpotLive(m0, w0, p, TablesTo(w0, p, x), r);
    }
  }

  /** A child with a page `(a, b)` has the parent's tables up to the first one with a page, and more. */
  lemma PageGot(m0: Memory, m: Memory, w0: World, w: World, p: nat, c: nat, kt: nat, i: nat, a: nat, b: nat)
    requires Ledger(m0, w0) && Ledger(m, w) && p in w0.dirs && c in w.dirs && p < TOTAL && c < TOTAL && kt < TOTAL
    requires StoppedAt(m0, m, w, p, c, kt, i) && Inside(m0, m, p, c)
    requires UserIndex(a) && b < 1024 && Present(Walk(m, c, a, b))
    ensures DataStays(m0, w0, p, |Owned(w, c)|)
  {
    assert Live(m0, At(PageRef(c, a, b), p));
    var x := FirstExists(m0, p, a);
    var s, s0 := Owned(w, c), TablesTo(w0, p, x);
    TablesGot(m0, m, w0, w, p, c, kt, i, a, x);
    SpotLive(m, w, c, s, PageRef(0, a, b));
    SpotLive(m0, w0, p, s0, PageRef(0, a, b));
    SpotsCompare(m, m0, w, w0, c, p, s, s0);
  }

  /** A child without a page has at most the parent's tables up to the first one with a page. */
  lemma PageNotGot(m0: Memory, m: Memory, w0: World, w: World, p: nat, c: nat, kt: nat, i: nat, x: nat)
    requires Ledger(m0, w0) && Ledger(m, w) && p in w0.dirs && c in w.dirs && p < TOTAL && c < TOTAL && kt < TOTAL
    requires StoppedAt(m0, m, w, p, c, kt, i) && Inside(m0, m, p, c) && NoPage(w, c) && FirstPaged(m0, p, x)
    ensures |Owned(w, c)| <= |TablesTo(w0, p, x)|
  {
    var s, s0 := Owned(w, c), TablesTo(w0, p, x);
    SpotsAreUser(m, w, s);
    var j: nat :| j < 1024 && Present(Walk(m0, p, x, j));
    StoppedPlace(m0, m, w, p, c, kt, i, PageRef(0, x, j));
    assert i <= x by { assert !Live(m, PageRef(c, x, j)); }
    forall r | r in Spots(w, s)
      ensures r in Spots(w0, s0)
    {
      StoppedPlace(m0, m, w, p, c, kt, i, r);
      SpotLive(m, w, c, s, r);
      SpotLive(m0, w0, p, s0, r);
      assert Live(m0, At(At(r, c), p));
    }
    SpotsCompare(m0, m, w0, w, p, c, s0, s);
  }

  /** The data page shows a page of the child exactly when there were frames for one. */
  lemma DataLeft(m0: Memory, m: Memory, w0: World, w: World, p: nat, c: nat, kt: nat, i: nat)
    requires Ledger(m0, w0) && Ledger(m, w) && p in w0.dirs && c in w.dirs && p < TOTAL && c < TOTAL && kt < TOTAL
    requires StoppedAt(m0, m, w, p, c, kt, i) && Inside(m0, m, p, c)
    ensures NoPage(w, c) <==> !DataStays(m0, w0, p, |Owned(w, c)|)
  {
    if NoPage(w, c) {
      forall x: nat | FirstPaged(m0, p, x)
        ensures |Owned(w, c)| <= |TablesTo(w0, p, x)|
      {
        PageNotGot(m0, m, w0, w, p, c, kt, i, x);
      }
    } else {
      var f :| f in w.own && w.own[f].dir == c && w.own[f].PageRef?;
      PageGot(m0, m, w0, w, p, c, kt, i, w.own[f].i, w.own[f].j);
    }
  }

  /** The table page is left mapped exactly when it was a table, and not the first one, that got no frame. */
  lemma TableLeft(m0: Memory, m: Memory, w0: World, w: World, p: nat, c: nat, kt: nat, i: nat)
    requires Ledger(m0, w0) && Ledger(m, w) && p in w0.dirs && c in w.dirs && p < TOTAL && c < TOTAL && kt < TOTAL
    requires StoppedAt(m0, m, w, p, c, kt, i) && Inside(m0, m, p, c)
    ensures TableStays(m0, w0, p, |Owned(w, c)|) <==> !HasTable(m, c, i) && Owned(w, c) != {}
    ensures HasTable(m, c, i) ==> Owned(w, c) != {}
  {
    if HasTable(m, c, i) {
      TableOwned(m, w, c, i);
      assert Table(m, c, i) in Owned(w, c);
      forall k: nat | UserIndex(k)
        ensures |Owned(w, c)| != |Before(w0, p, k)|
      {
        StoppedForPage(m0, m, w0, w, p, c, kt, i, k);
      }
    } else {
      StoppedForTable(m0, m, w0, w, p, c, kt, i);
    }
  }

  lemma DataShown(m0: Memory, m: Memory, w: World, c: nat, kt: nat, lost: set<nat>, stays: bool)
    requires kt < TOTAL && DataAt(m0, m, w, c, kt) && Owned(w, c) == lost && (NoPage(w, c) <==> !stays)
    ensures if stays then MapsAny(m, kt, SCRATCH_DATA, lost) else m[kt][SCRATCH_DATA] == m0[kt][SCRATCH_DATA]
  {
  }

  lemma TableShown(m0: Memory, m: Memory, w: World, p: nat, c: nat, kt: nat, i: nat, lost: set<nat>, stays: bool)
    requires p < TOTAL && c < TOTAL && kt < TOTAL && StoppedAt(m0, m, w, p, c, kt, i) && Owned(w, c) == lost
    requires (stays <==> !HasTable(m, c, i) && lost != {}) && (HasTable(m, c, i) ==> lost != {})
    ensures if stays then MapsAny(m, kt, SCRATCH_TABLE, lost)
            else m[kt][SCRATCH_TABLE] == if |lost| <= 0 then m0[kt][SCRATCH_TABLE] else NIL
  {
    assert lost == {} <==> Bare(w, c) by {
      forall f | f in w.own && w.own[f].dir == c
        ensures f in lost
      {
      }
    }
  }

  /** What a failed copy leaves in the scratch entries, by the number of frames there were. */
  lemma StoppedScratch(m0: Memory, m: Memory, w0: World, w: World, p: nat, c: nat, kt: nat, i: nat)
    requires Ledger(m0, w0) && Ledger(m, w) && p in w0.dirs && c in w.dirs && p < TOTAL && c < TOTAL && kt < TOTAL
    requires StoppedAt(m0, m, w, p, c, kt, i) && Inside(m0, m, p, c) && DataAt(m0, m, w, c, kt)
    ensures ScratchLeft(m0, m, w0, p, kt, |Owned(w, c)|, Owned(w, c))
  {
    DataLeft(m0, m, w0, w, p, c, kt, i);
    TableLeft(m0, m, w0, w, p, c, kt, i);
    var lost := Owned(w, c);
    DataShown(m0, m, w, c, kt, lost, DataStays(m0, w0, p, |lost|));
    TableShown(m0, m, w, p, c, kt, i, lost, TableStays(m0, w0, p, |lost|));
  }

  lemma ScratchAfter(m0: Memory, m: Memory, w0: World, w: World, free0: set<nat>, p: nat, c: nat, kt: nat, i: nat)
    requires Ledger(m0, w0) && Ledger(m, w) && p in w0.dirs && c in w.dirs && p < TOTAL && c < TOTAL && kt < TOTAL
    requires w0.own.Keys !! free0 && Bare(w0, c) && Grown(w0, w, free0, {}, c)
    requires StoppedAt(m0, m, w, p, c, kt, i) && Inside(m0, m, p, c) && DataAt(m0, m, w, c, kt)
    ensures ScratchLeft(m0, m, w0, p, kt, |free0|, free0)
  {
    StoppedScratch(m0, m, w0, w, p, c, kt, i);
    GrownOwned(w0, w, free0, {}, c);
    assert Owned(w, c) == free0;
  }

  /** Every user table of directory `p` has a page in it. */
  ghost predicate Paged(m: Memory, p: nat)
    requires p < TOTAL
  {
    forall k: nat | UserIndex(k) && HasTable(m, p, k) :: HasPage(m, p, k)
  }

  /** For a directory whose tables all have a page, clear scratch pages stay clear exactly when `few` holds. */
  ghost predicate ClearIff(m0: Memory, m: Memory, p: nat, kt: nat, few: bool) {
    p < TOTAL && kt < TOTAL && (Paged(m0, p) && ScratchClear(m0, kt) ==> (ScratchClear(m, kt) <==> few))
  }

  /** What is known of a copy that ran out of frames. */
  lemma CopyFailed(m0: Memory, m: Memory, w0: World, w: World, free0: set<nat>, p: nat, c: nat)
    requires Ledger(m0, w0) && w0.own.Keys !! free0 && p in w0.dirs && c in w.dirs && p < TOTAL && c < TOTAL
    requires Starved(m0, m, w0, w, free0, {}, p, c)
    ensures |free0| < |Owned(w0, p)| && ScratchLeft(m0, m, w0, p, Table(m0, p, KSTACK_PDI), |free0|, free0)
    ensures ClearIff(m0, m, p, Table(m0, p, KSTACK_PDI), |free0| <= 1)
  {
    var r := StarvedMissing(m0, m, w0, w, free0, p, c);
    TooFewFrames(m0, m, w0, w, free0, p, c, r);
    var i: nat :| StoppedAt(m0, m, w, p, c, Table(m0, p, KSTACK_PDI), i);
    ScratchAfter(m0, m, w0, w, free0, p, c, Table(m0, p, KSTACK_PDI), i);
    PagedClear(m0, m, w0, p, Table(m0, p, KSTACK_PDI), |free0|, free0);
  }

  /** A directory whose tables all have a page: the copy leaves the scratch pages clear exactly when
      there was at most one frame, for a table that then got no page. */
  lemma PagedScratch(m: Memory, w: World, p: nat, n: nat)
    requires Ledger(m, w) && p in w.dirs && p < TOTAL && Paged(m, p) && n < |Owned(w, p)|
    ensures DataStays(m, w, p, n) <==> n > 1
    ensures TableStays(m, w, p, n) ==> n > 1
  {
    var f :| f in Owned(w, p);
    assert Live(m, w.own[f]) && HasTable(m, p, w.own[f].i);
    var x := FirstExists(m, p, w.own[f].i);
    FirstTable(m, w, p, x);
    forall y: nat | FirstPaged(m, p, y)
      ensures |TablesTo(w, p, y)| == 1
    {
      FirstTable(m, w, p, y);
    }
    forall i: nat | UserIndex(i) && Before(w, p, i) != {}
      ensures |Before(w, p, i)| > 1
    {
      TableAndPage(m, w, p, i);
    }
  }

  lemma FirstTable(m: Memory, w: World, p: nat, x: nat)
    requires Ledger(m, w) && p in w.dirs && p < TOTAL && Paged(m, p) && FirstPaged(m, p, x)
    ensures |TablesTo(w, p, x)| == 1
  {
    assert HasTable(m, p, x);
    TableOwned(m, w, p, x);
    forall f | f in TablesTo(w, p, x)
      ensures f == Table(m, p, x)
    {
      assert Live(m, w.own[f]) && HasTable(m, p, w.own[f].i);
      assert HasPage(m, p, w.own[f].i);
    }
    assert TablesTo(w, p, x) == {Table(m, p, x)};
  }

  lemma TableAndPage(m: Memory, w: World, p: nat, i: nat)
    requires Ledger(m, w) && p in w.dirs && p < TOTAL && Paged(m, p) && Before(w, p, i) != {}
    ensures |Before(w, p, i)| > 1
  {
    var f :| f in Before(w, p, i);
    var k := w.own[f].i;
    assert Live(m, w.own[f]) && HasTable(m, p, k);
    assert HasPage(m, p, k);
    var j: nat :| j < 1024 && Present(Walk(m, p, k, j));
    TableOwned(m, w, p, k);
    assert Live(m, PageRef(p, k, j));
    TwoIn(Before(w, p, i), Table(m, p, k), Frame(Walk(m, p, k, j)));
  }

  lemma TwoIn(s: set<nat>, a: nat, b: nat)
    requires a in s && b in s && a != b
    ensures |s| > 1
  {
    assert |s| == |s - {a}| + 1 && b in s - {a};
  }

  lemma PagedClear(m0: Memory, m: Memory, w0: World, p: nat, kt: nat, n: int, lost: set<nat>)
    requires p < TOTAL && p in w0.dirs && Ledger(m0, w0) && ScratchLeft(m0, m, w0, p, kt, n, lost)
    requires n < |Owned(w0, p)|
    ensures ClearIff(m0, m, p, kt, n <= 1)
  {
    if Paged(m0, p) && n >= 0 { PagedScratch(m0, w0, p, n); }
  }

  // ----- isolation -----

  /** A translation of directory `d`, through the recursive window or not, reaches frame `f`. */
  ghost predicate Reaches(m: Memory, d: nat, i: nat, j: nat, f: nat)
    requires d < TOTAL
  {
    i < 1024 && j < 1024 && Present(Walk(m, d, i, j)) && Frame(Walk(m, d, i, j)) == f
  }

  /** With the scratch pages unmapped, a user page is reached by its own place only: by no other
      page of any directory, whether of a process, of the kernel or of the window. */
  lemma OnlyReach(m: Memory, w: World, free: set<nat>, c: nat, i: nat, j: nat, d: nat, a: nat, b: nat)
    requires System(m, w, free) && ScratchClear(m, Frame(w.kstack))
    requires c in w.dirs && UserIndex(i) && j < 1024 && Present(Walk(m, c, i, j)) && d in w.dirs
    ensures Reaches(m, d, a, b, Frame(Walk(m, c, i, j))) ==> d == c && a == i && b == j
  {
    var f := Frame(Walk(m, c, i, j));
    assert f in w.own && w.own[f] == PageRef(c, i, j) by { assert Live(m, PageRef(c, i, j)); }
    if UserIndex(a) {
      assert b < 1024 ==> Live(m, PageRef(d, a, b)) == Present(Walk(m, d, a, b));
    } else if a == SELF {
      assert Space(m, w, free, d);
      WindowReach(m, w, free, d, b, f);
    } else if a < SELF {
      KernelReach(m, w, free, d, a, b, f);
    }
  }

  /** Kernel pages lie on nobody's frames, and the scratch pages are unmapped. */
  lemma KernelReach(m: Memory, w: World, free: set<nat>, d: nat, a: nat, b: nat, f: nat)
    requires System(m, w, free) && ScratchClear(m, Frame(w.kstack)) && d in w.dirs && f in w.own
    requires a < SELF && !UserIndex(a)
    ensures !Reaches(m, d, a, b, f)
  {
    assert Space(m, w, free, d);
    if b < 1024 {
      if a == KSTACK_PDI && ScratchSlot(b) {
        assert Walk(m, d, a, b) == m[Frame(w.kstack)][b];
      } else {
        assert KernelEntry(m, d, a, b) == Present(Walk(m, d, a, b));
      }
    }
  }

  /** The window shows tables and the directory, never a user page. */
  lemma WindowReach(m: Memory, w: World, free: set<nat>, d: nat, b: nat, f: nat)
    requires System(m, w, free) && d in w.dirs && Space(m, w, free, d) && f in w.own && w.own[f].PageRef?
    ensures !Reaches(m, d, SELF, b, f)
  {
    if b < 1024 && HasTable(m, d, b) {
      WindowShowsTables(m, d, b);
      if UserIndex(b) {
        assert Live(m, TableRef(d, b));
      }
    }
  }

  /** A copied page is open to ring 3 exactly if the original is. */
  lemma CopiedRing3(m0: Memory, m: Memory, p: nat, c: nat, i: nat, j: nat)
    requires p < TOTAL && c < TOTAL && i < 1024 && j < 1024 && TableCopied(m0, m, p, c, i, 1024)
    ensures Ring3(m, c, i, j) <==> Ring3(m0, p, i, j)
  {
    CopiedAt(m0, m, p, c, i, j);
  }

  /** Fork isolation: after a successful copy every user page is mapped in the child exactly when
      it was in the parent, with the same flags and equal contents, on a frame that was free before
      and that no other translation of any directory reaches; the parent's mappings and contents
      are as they were. */
  lemma ForkIsolation(m0: Memory, m: Memory, w0: World, w: World, free0: set<nat>, free: set<nat>,
                      p: nat, c: nat, i: nat, j: nat)
    requires System(m0, w0, free0) && System(m, w, free) && Bare(w0, c) && Grown(w0, w, free0, free, c)
    requires p in w0.dirs && c in w0.dirs && p != c && UserIndex(i) && j < 1024
    requires Untouched(m0, m, free0 + {c}, Frame(w0.kstack)) && ScratchClear(m, Frame(w0.kstack))
    requires TableCopied(m0, m, p, c, i, 1024)
    ensures Present(Walk(m, c, i, j)) <==> Present(Walk(m0, p, i, j))
    ensures Ring3(m, c, i, j) <==> Ring3(m0, p, i, j)
    ensures Present(Walk(m, c, i, j)) ==>
              var f, f0 := Frame(Walk(m, c, i, j)), Frame(Walk(m0, p, i, j));
              && Flags(Walk(m, c, i, j)) == Flags(Walk(m0, p, i, j))
              && f in free0 && f !in free && f0 < TOTAL && m[f] == m0[f0]
              && (forall d, a: nat, b: nat | d in w.dirs ::
                    d < TOTAL && (Reaches(m, d, a, b, f) ==> d == c && a == i && b == j))
    ensures Walk(m, p, i, j) == Walk(m0, p, i, j)
    ensures Present(Walk(m0, p, i, j)) ==>
              Frame(Walk(m0, p, i, j)) < TOTAL && m[Frame(Walk(m0, p, i, j))] == m0[Frame(Walk(m0, p, i, j))]
  {
    ParentUnchanged(m0, m, w0, free0, p, c, i, j);
    CopiedAt(m0, m, p, c, i, j);
    CopiedRing3(m0, m, p, c, i, j);
    if Present(Walk(m, c, i, j)) {
      ChildOwns(m, w0, w, free0, free, c, i, j);
      forall d, a: nat, b: nat | d in w.dirs
        ensures d < TOTAL && (Reaches(m, d, a, b, Frame(Walk(m, c, i, j))) ==> d == c && a == i && b == j)
      {
        OnlyReach(m, w, free, c, i, j, d, a, b);
      }
    }
  }

  lemma CopiedAt(m0: Memory, m: Memory, p: nat, c: nat, i: nat, j: nat)
    requires p < TOTAL && c < TOTAL && i < 1024 && j < 1024 && TableCopied(m0, m, p, c, i, 1024)
    ensures EntryCopied(m0, m, Walk(m0, p, i, j), Walk(m, c, i, j))
  {
  }

  /** A page of the child lies on a frame that was free before. */
  lemma ChildOwns(m: Memory, w0: World, w: World, free0: set<nat>, free: set<nat>, c: nat, i: nat, j: nat)
    requires Ledger(m, w) && Bare(w0, c) && Grown(w0, w, free0, free, c) && c in w.dirs && UserIndex(i) && j < 1024
    requires c < TOTAL && Present(Walk(m, c, i, j))
    ensures Frame(Walk(m, c, i, j)) in free0 && Frame(Walk(m, c, i, j)) !in free
  {
    OneOwner(m, w, PageRef(c, i, j));
  }

  /** A frame in the ledger is named by its owner and by no other place. */
  lemma OneOwner(m: Memory, w: World, r: Ref)
    requires Ledger(m, w) && UserRef(w.dirs, r) && Live(m, r)
    ensures Target(m, r) in w.own && w.own[Target(m, r)] == r
    ensures forall r' | UserRef(w.dirs, r') && r' != r && Live(m, r') :: Target(m, r') != Target(m, r)
  {
  }
}
