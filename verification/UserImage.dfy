/**
  Creating an address space: `paging_proc_init`, `load_user_page` and `paging_load_user_image`.
 */
module UserImage {
  import opened FrameBitmap
  import opened PageTables
  import opened AddressSpaces
  import opened ForkCopying

  type Byte = x: int | 0 <= x < 256

  const USER_CODE := 0x0804_8000
  const USER_STACK := 0xC000_0000 - 4096
  const CODE_PDI: nat := 32            // pages of USER_CODE and USER_STACK
  const CODE_PTI: nat := 72
  const STACK_PDI: nat := 767
  const STACK_PTI: nat := 1023

  lemma UserIndices()
    ensures Pdi(USER_CODE) == CODE_PDI && Pti(USER_CODE) == CODE_PTI
    ensures Pdi(USER_STACK) == STACK_PDI && Pti(USER_STACK) == STACK_PTI
  {
  }

  // ----- paging_proc_init -----

  /** A new directory: kernel entries of directory 0, nothing in user space, itself as last entry. */
  function InitPage(pd0: Page, c: nat): (r: Page)
    requires c < RESERVED
  {
    seq(1024, k requires 0 <= k < 1024 => InitWord(pd0, c, k))
  }

  function InitWord(pd0: Page, c: nat, k: nat): (e: Word)
    requires c < RESERVED && k < 1024
  {
    if k == SELF then Entry(c, PRESENT + RW) else if UserIndex(k) then ABSENT else pd0[k]
  }

  /** The stores of `paging_proc_init`. */
  method FillDirectory(mc: Machine, pd0: nat, c: nat)
    requires Directory(mc.mem, mc.cr3) && c < RESERVED && pd0 < RESERVED && c != pd0
    requires Walk(mc.mem, mc.cr3, 0, c) == Entry(c, PRESENT + RW) && !Reads(mc.mem, mc.cr3, c)
    requires Walk(mc.mem, mc.cr3, 0, pd0) == Entry(pd0, PRESENT + RW)
    modifies mc`mem
    ensures mc.mem == old(mc.mem)[c := InitPage(old(mc.mem)[pd0], c)]
  {
    ghost var m := mc.mem;
    for k := 0 to 1024
      invariant forall g: nat | g < TOTAL && g != c :: mc.mem[g] == m[g]
      invariant forall x: nat | x < k :: mc.mem[c][x] == ABSENT
    {
      SameWalk(m, mc.mem, mc.cr3, c, 0, c);
      mc.Store(0, c, k, ABSENT);
    }
    SameWalk(m, mc.mem, mc.cr3, c, 0, c);
    SameWalk(m, mc.mem, mc.cr3, c, 0, pd0);
    mc.Store(0, c, 0, mc.Load(0, pd0, 0));
    for k := 768 to 1023
      invariant forall g: nat | g < TOTAL && g != c :: mc.mem[g] == m[g]
      invariant forall x: nat | x < 1024 :: mc.mem[c][x] == if x == 0 || 768 <= x < k then m[pd0][x] else ABSENT
    {
      SameWalk(m, mc.mem, mc.cr3, c, 0, c);
      SameWalk(m, mc.mem, mc.cr3, c, 0, pd0);
      mc.Store(0, c, k, mc.Load(0, pd0, k));
    }
    SameWalk(m, mc.mem, mc.cr3, c, 0, c);
    mc.Store(0, c, SELF, Entry(c, PRESENT + RW));
    assert mc.mem[c] == InitPage(m[pd0], c);
  }

  /** A directory filled like that joins the system with no user frame. */
  lemma KeepOnInit(m: Memory, w: World, free: set<nat>, pd0: nat, c: nat)
    requires System(m, w, free) && pd0 in w.dirs && c in w.pds && c !in w.dirs
    ensures c < RESERVED && System(m[c := InitPage(m[pd0], c)], w.(dirs := w.dirs + {c}), free)
    ensures forall k: nat | UserIndex(k) :: !HasTable(m[c := InitPage(m[pd0], c)], c, k)
  {
    var m', w' := m[c := InitPage(m[pd0], c)], w.(dirs := w.dirs + {c});
    KeepSystem(m, m', w, free, {c});
    assert m'[pd0] == m[pd0] && Initialised(m', pd0, c);
    JoinSystem(m', w, free, pd0, c);
  }

  lemma JoinSystem(m: Memory, w: World, free: set<nat>, pd0: nat, c: nat)
    requires System(m, w, free) && pd0 in w.dirs && c in w.pds && c !in w.dirs && c < RESERVED && Initialised(m, pd0, c)
    ensures System(m, w.(dirs := w.dirs + {c}), free) && forall k: nat | UserIndex(k) :: !HasTable(m, c, k)
  {
    var w' := w.(dirs := w.dirs + {c});
    InitSpace(m, w, free, pd0, c);
    assert forall d | d in w'.dirs :: Space(m, w', free, d) by {
      forall d | d in w.dirs
        ensures Space(m, w', free, d)
      {
        assert Space(m, w, free, d);
      }
    }
    InitApart(m, w, free, pd0, c);
    InitLedger(m, w, c);
  }

  /** Directory `c` has the kernel entries of `pd0`, no user entries and itself as last entry. */
  ghost predicate Initialised(m: Memory, pd0: nat, c: nat)
    requires pd0 < TOTAL && c < RESERVED
  {
    forall k: nat | k < 1024 :: m[c][k] == InitWord(m[pd0], c, k)
  }

  lemma InitSpace(m: Memory, w: World, free: set<nat>, pd0: nat, c: nat)
    requires Space(m, w, free, pd0) && c in w.pds && c < RESERVED && Initialised(m, pd0, c)
    ensures Space(m, w.(dirs := w.dirs + {c}), free, c)
  {
    assert forall k: nat | k < 1024 && k != SELF :: HasTable(m, c, k) == (!UserIndex(k) && HasTable(m, pd0, k));
    assert forall k: nat | k < SELF && HasTable(m, c, k) :: Table(m, c, k) == Table(m, pd0, k);
  }

  /** The new directory translates kernel pages as `pd0` does. */
  lemma InitApart(m: Memory, w: World, free: set<nat>, pd0: nat, c: nat)
    requires KernelApart(m, w, free) && pd0 in w.dirs && pd0 < TOTAL && c < RESERVED && Initialised(m, pd0, c)
    ensures KernelApart(m, w.(dirs := w.dirs + {c}), free)
  {
    forall d: nat, i: nat, j: nat | d in w.dirs + {c} && KernelEntry(m, d, i, j)
      ensures var f := Frame(Walk(m, d, i, j));
              f !in w.own && f !in free && (f in w.stack ==> i == KSTACK_PDI && j == w.stack[f])
    {
      assert d == c ==> Walk(m, c, i, j) == Walk(m, pd0, i, j) && KernelEntry(m, pd0, i, j);
    }
  }

  lemma InitLedger(m: Memory, w: World, c: nat)
    requires Ledger(m, w) && c in w.pds && forall k: nat | UserIndex(k) :: c < TOTAL && !HasTable(m, c, k)
    ensures Ledger(m, w.(dirs := w.dirs + {c}))
  {
    forall r | UserRef(w.dirs + {c}, r) && r.dir == c
      ensures !Live(m, r)
    {
      assert !HasTable(m, c, r.i);
    }
  }

  /** `paging_proc_init`: directory `c` joins the system with no user frame, sharing the kernel
      entries of directory `pd0`; no other frame changes. */
  method ProcInit(mc: Machine, ghost w: World, pd0: nat, c: nat)
    requires mc.frames.Valid() && System(mc.mem, w, mc.Free())
    requires mc.cr3 in w.dirs && pd0 in w.dirs && c in w.pds && c !in w.dirs
    modifies mc`mem
    ensures mc.frames.Valid() && mc.Free() == old(mc.Free()) && System(mc.mem, w.(dirs := w.dirs + {c}), mc.Free())
    ensures Bare(w, c) && forall k: nat | UserIndex(k) :: c < TOTAL && !HasTable(mc.mem, c, k)
    ensures c < RESERVED && pd0 < RESERVED && mc.mem == old(mc.mem)[c := InitPage(old(mc.mem)[pd0], c)]
    ensures Frame(w.kstack) < TOTAL && mc.mem[Frame(w.kstack)] == old(mc.mem)[Frame(w.kstack)]
    ensures Untouched(old(mc.mem), mc.mem, {c}, Frame(w.kstack))
  {
    ghost var m, free := mc.mem, mc.Free();
    DirectoryReady(m, w, free, mc.cr3, c);
    assert Walk(m, mc.cr3, 0, pd0) == Entry(pd0, PRESENT + RW);
    FillDirectory(mc, pd0, c);
    assert System(mc.mem, w.(dirs := w.dirs + {c}), free)
        && forall k: nat | UserIndex(k) :: c < TOTAL && !HasTable(mc.mem, c, k) by { KeepOnInit(m, w, free, pd0, c); }
  }

  // ----- load_user_page -----

  function ByteAt(img: seq<Byte>, k: nat): Byte { if k < |img| then img[k] else 0 }

  /** Word `k` of a page that holds `img` followed by zeroes, little end first. */
  function ImageWord(img: seq<Byte>, k: nat): Word {
    var b0, b1, b2, b3 := ByteAt(img, 4 * k), ByteAt(img, 4 * k + 1), ByteAt(img, 4 * k + 2), ByteAt(img, 4 * k + 3);
    // value b0 + 2^8 b1 + 2^16 b2 + 2^24 b3, split at bit 12
    Word32(b1 / 16 + 16 * b2 + 4096 * b3, b0 + 256 * (b1 % 16))
  }

  function ImagePage(img: seq<Byte>): Page {
    seq<Word>(1024, k requires 0 <= k < 1024 => ImageWord(img, k))
  }

  /** The number a word stands for. */
  function Value(w: Word): nat { w.hi * 4096 + w.lo }

  /** Byte `b` of a page, as the CPU reads it. */
  function ByteIn(p: Page, b: nat): nat
    requires b < 4096
  {
    Value(p[b / 4]) / [1, 0x100, 0x1_0000, 0x100_0000][b % 4] % 256
  }

  /** The page holds the bytes of the image, then zeroes. */
  ghost predicate HoldsImage(p: Page, img: seq<Byte>) {
    forall b: nat | b < 4096 :: ByteIn(p, b) == if b < |img| then img[b] else 0
  }

  lemma WordValue(b0: nat, b1: nat, b2: nat, b3: nat)
    requires b0 < 256 && b1 < 256 && b2 < 256 && b3 < 256
    ensures var w: Word := Word32(b1 / 16 + 16 * b2 + 4096 * b3, b0 + 256 * (b1 % 16));
            Value(w) == b0 + 0x100 * b1 + 0x1_0000 * b2 + 0x100_0000 * b3
  {
  }

  lemma Digits(b0: nat, b1: nat, b2: nat, b3: nat, v: nat)
    requires b0 < 256 && b1 < 256 && b2 < 256 && b3 < 256
    requires v == b0 + 0x100 * b1 + 0x1_0000 * b2 + 0x100_0000 * b3
    ensures v % 256 == b0 && v / 0x100 % 256 == b1 && v / 0x1_0000 % 256 == b2 && v / 0x100_0000 % 256 == b3
  {
    assert v / 0x100 == b1 + 0x100 * b2 + 0x1_0000 * b3;
    assert v / 0x1_0000 == b2 + 0x100 * b3;
    assert v / 0x100_0000 == b3;
  }

  lemma ImageByte(img: seq<Byte>, k: nat, r: nat)
    requires k < 1024 && r < 4
    ensures Value(ImageWord(img, k)) / [1, 0x100, 0x1_0000, 0x100_0000][r] % 256 == ByteAt(img, 4 * k + r)
  {
    var b0, b1, b2, b3 := ByteAt(img, 4 * k), ByteAt(img, 4 * k + 1), ByteAt(img, 4 * k + 2), ByteAt(img, 4 * k + 3);
    WordValue(b0, b1, b2, b3);
    Digits(b0, b1, b2, b3, Value(ImageWord(img, k)));
  }

  /** The words of the image page spell the bytes of the image. */
  lemma ImageBytes(img: seq<Byte>)
    ensures HoldsImage(ImagePage(img), img)
  {
    forall b: nat | b < 4096
      ensures ByteIn(ImagePage(img), b) == if b < |img| then img[b] else 0
    {
      ImageByte(img, b / 4, b % 4);
      assert 4 * (b / 4) + b % 4 == b;
    }
  }

  /** Writes a page image through the scratch data page. */
  method WriteImage(mc: Machine, img: seq<Byte>, ghost f: nat)
    requires Directory(mc.mem, mc.cr3) && Accessible(mc.mem, mc.cr3, KSTACK_PDI, SCRATCH_DATA)
    requires Frame(Walk(mc.mem, mc.cr3, KSTACK_PDI, SCRATCH_DATA)) == f && !Reads(mc.mem, mc.cr3, f)
    modifies mc`mem
    ensures mc.mem == old(mc.mem)[f := ImagePage(img)] && HoldsImage(mc.mem[f], img)
  {
    for k := 0 to 1024
      invariant forall g: nat | g < TOTAL && g != f :: mc.mem[g] == old(mc.mem)[g]
      invariant forall x: nat | x < k :: mc.mem[f][x] == ImageWord(img, x)
    {
      SameWalk(old(mc.mem), mc.mem, mc.cr3, f, KSTACK_PDI, SCRATCH_DATA);
      mc.Store(KSTACK_PDI, SCRATCH_DATA, k, ImageWord(img, k));
    }
    assert mc.mem[f] == ImagePage(img);
    ImageBytes(img);
  }

  /** Scratch page `slot` is unmapped, and the other one as it was. */
  ghost predicate Unmapped(m: Memory, m': Memory, kt: nat, slot: nat)
    requires kt < TOTAL && ScratchSlot(slot)
  {
    !Present(m'[kt][slot]) && forall s: nat | ScratchSlot(s) && s != slot :: m'[kt][s] == m[kt][s]
  }

  /** Takes a frame and clears it through the scratch table page. */
  method TakeCleared(mc: Machine) returns (ok: bool, t: nat)
    requires Runs(mc, {})
    modifies mc`mem, mc.frames.bitmap
    ensures ok == (old(mc.Free()) != {}) && mc.cr3 < TOTAL && Table(old(mc.mem), mc.cr3, KSTACK_PDI) < TOTAL
    ensures !ok ==> Runs(mc, {}) && mc.Free() == {} && mc.mem == old(mc.mem)
    ensures ok ==> Runs(mc, {t}) && t in old(mc.Free()) && mc.Free() == old(mc.Free()) - {t} && mc.mem[t] == ZeroPage()
    ensures ok ==> Untouched(old(mc.mem), mc.mem, {t}, Table(old(mc.mem), mc.cr3, KSTACK_PDI))
    ensures ok ==> Unmapped(old(mc.mem), mc.mem, Table(old(mc.mem), mc.cr3, KSTACK_PDI), SCRATCH_TABLE)
  {
    ghost var m, p := mc.mem, mc.cr3;
    var addr := mc.frames.AllocFrame();
    t := addr / 4096;
    if addr == 0 { return false, t; }
    MapScratch(mc, {t}, SCRATCH_TABLE, t);
    ghost var m1 := mc.mem;
    assert Walk(m1, p, KSTACK_PDI, SCRATCH_TABLE) == Entry(t, PRESENT + RW);
    ClearThrough(mc, KSTACK_PDI, SCRATCH_TABLE, t);
    SameDirectory(m1, mc.mem, p);
    UnmapScratch(mc, {t}, SCRATCH_TABLE);
    return true, t;
  }

  /** The first half of `load_user_page`: a cleared table for the page, when there is none. */
  method AddUserTable(mc: Machine, c: nat, i: nat) returns (ok: bool, ghost t: nat)
    requires Runs(mc, {}) && c < RESERVED && UserIndex(i) && !Reads(mc.mem, mc.cr3, c)
    requires HasTable(mc.mem, mc.cr3, 0) && Walk(mc.mem, mc.cr3, 0, c) == Entry(c, PRESENT + RW)
    requires c != Table(mc.mem, mc.cr3, KSTACK_PDI)
    modifies mc`mem, mc.frames.bitmap
    ensures Runs(mc, {}) && ok == (old(mc.Free()) != {}) && Table(old(mc.mem), mc.cr3, KSTACK_PDI) < TOTAL
    ensures !ok ==> mc.Free() == {} && mc.mem == old(mc.mem)
    ensures ok ==> t in old(mc.Free()) && mc.Free() == old(mc.Free()) - {t} && mc.mem[t] == ZeroPage()
    ensures ok ==> mc.mem[c] == old(mc.mem)[c][i := UserEntry(t)]
    ensures ok ==> Untouched(old(mc.mem), mc.mem, {t, c}, Table(old(mc.mem), mc.cr3, KSTACK_PDI))
    ensures ok ==> Unmapped(old(mc.mem), mc.mem, Table(old(mc.mem), mc.cr3, KSTACK_PDI), SCRATCH_TABLE)
  {
    ghost var m, p := mc.mem, mc.cr3;
    var taken, table := TakeCleared(mc);
    t := table;
    if !taken { return false, t; }
    assert mc.mem[p] == m[p] && mc.mem[Table(m, p, 0)] == m[Table(m, p, 0)];
    assert Walk(mc.mem, p, 0, c) == Entry(c, PRESENT + RW);
    mc.Store(0, c, i, UserEntry(table));
    SameDirectory(m, mc.mem, p);
    return true, t;
  }

  /** Writes entry `j` of the table `t` through the scratch table page. */
  method LinkPage(mc: Machine, ghost spare: set<nat>, t: nat, j: nat, e: Word)
    requires Runs(mc, spare) && t < TOTAL && j < 1024 && !Reads(mc.mem, mc.cr3, t)
    modifies mc`mem, mc.frames.bitmap
    ensures Runs(mc, spare) && mc.Free() == old(mc.Free()) && Table(old(mc.mem), mc.cr3, KSTACK_PDI) < TOTAL
    ensures mc.mem[t] == old(mc.mem)[t][j := e]
    ensures Untouched(old(mc.mem), mc.mem, {t}, Table(old(mc.mem), mc.cr3, KSTACK_PDI))
    ensures Unmapped(old(mc.mem), mc.mem, Table(old(mc.mem), mc.cr3, KSTACK_PDI), SCRATCH_TABLE)
  {
    ghost var m, p := mc.mem, mc.cr3;
    MapScratch(mc, spare, SCRATCH_TABLE, t);
    WithPteUpdates(m, p, KSTACK_PDI, SCRATCH_TABLE, Entry(t, PRESENT + RW));
    mc.Store(KSTACK_PDI, SCRATCH_TABLE, j, e);
    SameDirectory(m, mc.mem, p);
    UnmapScratch(mc, spare, SCRATCH_TABLE);
  }

  /** Fills the new frame `f` through the scratch data page. */
  method FillFrame(mc: Machine, ghost spare: set<nat>, f: nat, img: seq<Byte>)
    requires Runs(mc, spare) && f < TOTAL && !Reads(mc.mem, mc.cr3, f)
    modifies mc`mem, mc.frames.bitmap
    ensures Runs(mc, spare) && mc.Free() == old(mc.Free()) && Table(old(mc.mem), mc.cr3, KSTACK_PDI) < TOTAL
    ensures mc.mem[f] == ImagePage(img)
    ensures Untouched(old(mc.mem), mc.mem, {f}, Table(old(mc.mem), mc.cr3, KSTACK_PDI))
    ensures Unmapped(old(mc.mem), mc.mem, Table(old(mc.mem), mc.cr3, KSTACK_PDI), SCRATCH_DATA)
  {
    ghost var m, p := mc.mem, mc.cr3;
    MapScratch(mc, spare, SCRATCH_DATA, f);
    WithPteUpdates(m, p, KSTACK_PDI, SCRATCH_DATA, Entry(f, PRESENT + RW));
    WriteImage(mc, img, f);
    SameDirectory(m, mc.mem, p);
    UnmapScratch(mc, spare, SCRATCH_DATA);
  }

  /** The second half of `load_user_page`: a frame for the page, linked and filled. */
  method AddUserPage(mc: Machine, t: nat, j: nat, img: seq<Byte>) returns (ok: bool, ghost f: nat)
    requires Runs(mc, {}) && t < TOTAL && j < 1024 && !Reads(mc.mem, mc.cr3, t) && t !in mc.Free()
    modifies mc`mem, mc.frames.bitmap
    ensures Runs(mc, {}) && ok == (old(mc.Free()) != {}) && Table(old(mc.mem), mc.cr3, KSTACK_PDI) < TOTAL
    ensures !ok ==> mc.Free() == {} && mc.mem == old(mc.mem)
    ensures ok ==> f in old(mc.Free()) && mc.Free() == old(mc.Free()) - {f} && mc.mem[f] == ImagePage(img)
    ensures ok ==> mc.mem[t] == old(mc.mem)[t][j := UserEntry(f)]
    ensures ok ==> Untouched(old(mc.mem), mc.mem, {f, t}, Table(old(mc.mem), mc.cr3, KSTACK_PDI))
    ensures ok ==> ScratchClear(mc.mem, Table(old(mc.mem), mc.cr3, KSTACK_PDI))
  {
    ghost var m, p := mc.mem, mc.cr3;
    var addr := mc.frames.AllocFrame();
    var frame := addr / 4096;
    f := frame;
    if addr == 0 { return false, f; }
    LinkPage(mc, {f}, t, j, UserEntry(frame));
    assert mc.mem[p] == m[p];
    SameDirectory(m, mc.mem, p);
    FillFrame(mc, {f}, frame, img);
    return true, f;
  }

  lemma KeepOnUserTable(m: Memory, m': Memory, w: World, free: set<nat>, c: nat, i: nat, t: nat)
    requires System(m, w, free) && c in w.dirs && UserIndex(i) && !HasTable(m, c, i) && t in free
    requires m'[t] == ZeroPage() && m'[c] == m[c][i := UserEntry(t)]
    requires Untouched(m, m', {t, c}, Frame(w.kstack))
    ensures System(m', w.(own := w.own[t := TableRef(c, i)]), free - {t})
  {
    var m1 := m'[c := m[c]];
    KeepSystem(m, m1, w, free, {t});
    KeepOnNewTable(m1, w, free, c, i, t, PRESENT + RW + USER);
    assert m' == WithWord(m1, c, i, UserEntry(t));
  }

  lemma KeepOnUserPage(m: Memory, m': Memory, w: World, free: set<nat>, c: nat, i: nat, j: nat, f: nat, t: nat)
    requires System(m, w, free) && c in w.dirs && UserIndex(i) && j < 1024 && f in free
    requires HasTable(m, c, i) && t == Table(m, c, i) && t in w.own && !Present(Walk(m, c, i, j))
    requires m'[t] == m[t][j := UserEntry(f)] && Untouched(m, m', {f, t}, Frame(w.kstack))
    ensures System(m', w.(own := w.own[f := PageRef(c, i, j)]), free - {f})
  {
    var m1 := m'[t := m[t]];
    assert Untouched(m, m1, {f}, Frame(w.kstack));
    FilledPage(m, m1, w, free, f);
    Relinked(m, m', t, j, UserEntry(f));
    assert Walk(m, c, i, j) == m1[t][j];
    LinkedPage(m1, w, free, c, i, j, f, t);
  }

  lemma Relinked(m: Memory, m': Memory, t: nat, j: nat, e: Word)
    requires t < TOTAL && j < 1024 && m'[t] == m[t][j := e]
    ensures var m1 := m'[t := m[t]]; m' == m1[t := m1[t][j := e]]
  {
  }

  lemma FilledPage(m: Memory, m1: Memory, w: World, free: set<nat>, f: nat)
    requires System(m, w, free) && f in free && Untouched(m, m1, {f}, Frame(w.kstack))
    ensures System(m1, w, free) && forall d | d in w.dirs :: m1[d] == m[d]
  {
    KeepSystem(m, m1, w, free, {f});
    DirsKept(m, m1, w, free, {f});
  }

  lemma LinkedPage(m: Memory, w: World, free: set<nat>, c: nat, i: nat, j: nat, f: nat, t: nat)
    requires System(m, w, free) && c in w.dirs && UserIndex(i) && j < 1024 && f in free
    requires HasTable(m, c, i) && t == Table(m, c, i) && t < TOTAL && !Present(m[t][j])
    ensures System(m[t := m[t][j := UserEntry(f)]], w.(own := w.own[f := PageRef(c, i, j)]), free - {f})
  {
    var e := UserEntry(f);
    assert Walk(m, c, i, j) == m[t][j];
    KeepOnNewPage(m, w, free, c, i, j, e);
    assert WithPte(m, c, i, j, e) == m[t := m[t][j := e]];
  }

  /** The entry of a user page. */
  function UserEntry(f: nat): (e: Word)
    requires f < TOTAL
    ensures Present(e) && Frame(e) == f && Flags(e) == PRESENT + RW + USER
  {
    Entry(f, PRESENT + RW + USER)
  }

  /** What loading into directory `c` may change: frames that were free, the user entries of `c` and
      the tables `c` already had, and the scratch entries, which are not left mapped. */
  ghost predicate Loading(m0: Memory, m: Memory, w0: World, w: World, free0: set<nat>, free: set<nat>, c: nat) {
    && c < TOTAL && System(m, w, free) && Grown(w0, w, free0, free, c)
    && Untouched(m0, m, free0 + {c} + Owned(w0, c), Frame(w0.kstack))
    && (forall k: nat | k < 1024 && !UserIndex(k) :: m[c][k] == m0[c][k])
    && (ScratchClear(m0, Frame(w0.kstack)) ==> ScratchClear(m, Frame(w0.kstack)))
  }

  /** User page `(i, j)` of directory `c` shows the image `img`. */
  ghost predicate Shows(m: Memory, c: nat, i: nat, j: nat, img: seq<Byte>) {
    && c < TOTAL && UserIndex(i) && j < 1024
    && Accessible(m, c, i, j) && Flags(Walk(m, c, i, j)) == PRESENT + RW + USER
    && m[Frame(Walk(m, c, i, j))] == ImagePage(img) && HoldsImage(m[Frame(Walk(m, c, i, j))], img)
  }

  /** Everything else user-visible in `c` is as before. */
  ghost predicate OthersKept(m0: Memory, m: Memory, c: nat, i: nat, j: nat)
    requires c < TOTAL
  {
    forall a: nat, b: nat | UserIndex(a) && b < 1024 && !(a == i && b == j) ::
      Walk(m, c, a, b) == Walk(m0, c, a, b)
      && (Accessible(m0, c, a, b) ==> m[Frame(Walk(m0, c, a, b))] == m0[Frame(Walk(m0, c, a, b))])
  }

  /** The frames `taken` were drawn from `free0`, one after the other, and `free` is what is left. */
  ghost predicate Drawn(free0: set<nat>, taken: seq<nat>, free: set<nat>)
    decreases |taken|
  {
    if taken == [] then free == free0 else taken[0] in free0 && Drawn(free0 - {taken[0]}, taken[1..], free)
  }

  lemma {:induction false} DrawnThen(free0: set<nat>, a: seq<nat>, free1: set<nat>, b: seq<nat>, free2: set<nat>)
    requires Drawn(free0, a, free1) && Drawn(free1, b, free2)
    ensures Drawn(free0, a + b, free2)
    decreases |a|
  {
    if a == [] {
      assert a + b == b;
    } else {
      DrawnThen(free0 - {a[0]}, a[1..], free1, b, free2);
      assert (a + b)[1..] == a[1..] + b;
    }
  }

  lemma DrawnOne(free: set<nat>, f: nat)
    requires f in free
    ensures Drawn(free, [f], free - {f})
  {
    assert [f][1..] == [];
  }

  lemma {:induction false} DrawnCount(free0: set<nat>, taken: seq<nat>, free: set<nat>)
    requires Drawn(free0, taken, free)
    ensures |free0| == |taken| + |free|
    decreases |taken|
  {
    if taken != [] { DrawnCount(free0 - {taken[0]}, taken[1..], free); }
  }

  /** The table part of `load_user_page`. */
  method UserTable(mc: Machine, ghost w0: World, c: nat, i: nat, ghost other: nat)
    returns (ok: bool, ghost w: World, ghost taken: seq<nat>)
    requires Runs(mc, {}) && System(mc.mem, w0, mc.Free()) && mc.cr3 in w0.dirs && c in w0.dirs && c != mc.cr3
    requires UserIndex(i)
    modifies mc`mem, mc.frames.bitmap
    ensures Runs(mc, {})
    ensures Loading(old(mc.mem), mc.mem, w0, w, old(mc.Free()), mc.Free(), c)
    ensures mc.mem[mc.cr3] == old(mc.mem)[mc.cr3]
    ensures !ok ==> mc.Free() == {}
    ensures ok ==> HasTable(mc.mem, c, i)
    ensures forall f | f in w0.own :: mc.mem[f] == old(mc.mem)[f]
    ensures forall a: nat, b: nat | UserIndex(a) && b < 1024 :: Walk(mc.mem, c, a, b) == Walk(old(mc.mem), c, a, b)
    ensures Drawn(old(mc.Free()), taken, mc.Free()) && |taken| == if ok && !HasTable(old(mc.mem), c, i) then 1 else 0
    ensures UserIndex(other) && other != i ==> mc.mem[c][other] == old(mc.mem)[c][other]
    ensures ok && !HasTable(old(mc.mem), c, i) ==> Flags(mc.mem[c][i]) == PRESENT + RW + USER
  {
    ghost var m, free, p := mc.mem, mc.Free(), mc.cr3;
    DirectoryReady(m, w0, free, p, c);
    LoadingStart(m, w0, free, c);
    w := w0;
    taken := [];
    if Present(mc.Load(0, c, i)) { return true, w, taken; }
    var made, t := AddUserTable(mc, c, i);
    if !made { return false, w, taken; }
    taken := [t];
    DrawnOne(free, t);
    UserTableDone(m, mc.mem, w0, free, c, i, t);
    UserTableKept(m, mc.mem, w0, free, p, c, i, t);
    w := w0.(own := w0.own[t := TableRef(c, i)]);
    return true, w, taken;
  }

  lemma LoadingStart(m: Memory, w: World, free: set<nat>, c: nat)
    requires System(m, w, free) && c in w.dirs
    ensures Loading(m, m, w, w, free, free, c)
  {
  }

  lemma UserTableDone(m: Memory, m': Memory, w: World, free: set<nat>, c: nat, i: nat, t: nat)
    requires System(m, w, free) && c in w.dirs && UserIndex(i) && !HasTable(m, c, i) && t in free
    requires m'[t] == ZeroPage() && m'[c] == m[c][i := UserEntry(t)]
    requires Untouched(m, m', {t, c}, Frame(w.kstack)) && Unmapped(m, m', Frame(w.kstack), SCRATCH_TABLE)
    ensures Loading(m, m', w, w.(own := w.own[t := TableRef(c, i)]), free, free - {t}, c)
  {
    GrownOne(w, free, c, t, TableRef(c, i));
    KeepOnUserTable(m, m', w, free, c, i, t);
  }

  lemma UserTableKept(m: Memory, m': Memory, w: World, free: set<nat>, p: nat, c: nat, i: nat, t: nat)
    requires System(m, w, free) && p in w.dirs && c in w.dirs && p != c && UserIndex(i) && !HasTable(m, c, i)
    requires t in free
    requires m'[t] == ZeroPage() && m'[c] == m[c][i := UserEntry(t)]
    requires Untouched(m, m', {t, c}, Frame(w.kstack))
    ensures m'[p] == m[p] && forall f | f in w.own :: m'[f] == m[f]
    ensures forall a: nat, b: nat | UserIndex(a) && b < 1024 :: Walk(m', c, a, b) == Walk(m, c, a, b)
  {
    SameUserWalks(m, m', w, free, c, i, t);
  }

  /** A new empty table changes no translation. */
  lemma SameUserWalks(m: Memory, m': Memory, w: World, free: set<nat>, c: nat, i: nat, t: nat)
    requires System(m, w, free) && c in w.dirs && UserIndex(i) && !HasTable(m, c, i) && t in free
    requires m'[t] == ZeroPage() && m'[c] == m[c][i := UserEntry(t)]
    requires Untouched(m, m', {t, c}, Frame(w.kstack))
    ensures forall a: nat, b: nat | UserIndex(a) && b < 1024 :: Walk(m', c, a, b) == Walk(m, c, a, b)
  {
    forall a: nat, b: nat | UserIndex(a) && b < 1024
      ensures Walk(m', c, a, b) == Walk(m, c, a, b)
    {
      if a != i && HasTable(m, c, a) {
        TableOwned(m, w, c, a);
      }
    }
  }

  lemma LoadingTrans(m0: Memory, m1: Memory, m2: Memory, w0: World, w1: World, w2: World,
                     free0: set<nat>, free1: set<nat>, free2: set<nat>, c: nat)
    requires Loading(m0, m1, w0, w1, free0, free1, c) && Loading(m1, m2, w1, w2, free1, free2, c)
    ensures Loading(m0, m2, w0, w2, free0, free2, c)
  {
    assert Grown(w0, w2, free0, free2, c) by { GrownTrans(w0, w1, w2, free0, free1, free2, c); }
    assert Owned(w1, c) <= free0 + Owned(w0, c) by { GrownMine(w0, w1, free0, free1, c); }
    UntouchedTrans(m0, m1, m2, free0 + {c} + Owned(w0, c), free1 + {c} + Owned(w1, c), Frame(w0.kstack));
  }

  lemma UntouchedTrans(m0: Memory, m1: Memory, m2: Memory, mine: set<nat>, mine': set<nat>, kt: nat)
    requires Untouched(m0, m1, mine, kt) && Untouched(m1, m2, mine', kt) && mine' <= mine
    ensures Untouched(m0, m2, mine, kt)
  {
  }

  lemma GrownMine(w0: World, w: World, free0: set<nat>, free: set<nat>, c: nat)
    requires Grown(w0, w, free0, free, c)
    ensures Owned(w, c) <= free0 + Owned(w0, c)
  {
  }

  lemma GrownTrans(w0: World, w1: World, w2: World, free0: set<nat>, free1: set<nat>, free2: set<nat>, c: nat)
    requires Grown(w0, w1, free0, free1, c) && Grown(w1, w2, free1, free2, c)
    ensures Grown(w0, w2, free0, free2, c)
  {
    assert free0 - free2 == (free0 - free1) + (free1 - free2);
  }

  /** Where the table of a user page stands. */
  lemma UserTableReady(m: Memory, w: World, free: set<nat>, p: nat, c: nat, i: nat)
    requires System(m, w, free) && p in w.dirs && c in w.dirs && p != c && UserIndex(i) && HasTable(m, c, i)
    ensures RESERVED <= Table(m, c, i) < TOTAL && Table(m, c, i) in w.own && w.own[Table(m, c, i)] == TableRef(c, i)
    ensures Table(m, c, i) !in free && !Reads(m, p, Table(m, c, i))
  {
    TableOwned(m, w, c, i);
    OwnedUnread(m, w, free, p, Table(m, c, i));
  }

  lemma UserPageDone(m: Memory, m': Memory, w: World, free: set<nat>, c: nat, i: nat, j: nat, f: nat, t: nat,
      img: seq<Byte>)
    requires System(m, w, free) && c in w.dirs && UserIndex(i) && j < 1024 && f in free && f < TOTAL
    requires HasTable(m, c, i) && t == Table(m, c, i) && t in w.own && w.own[t] == TableRef(c, i) && t < TOTAL
    requires !Present(Walk(m, c, i, j)) && Untouched(m, m', {f, t}, Frame(w.kstack))
    requires ScratchClear(m', Frame(w.kstack))
    requires m'[t] == m[t][j := UserEntry(f)] && m'[f] == ImagePage(img)
    ensures Loading(m, m', w, w.(own := w.own[f := PageRef(c, i, j)]), free, free - {f}, c)
    ensures Shows(m', c, i, j, img) && OthersKept(m, m', c, i, j) && forall d | d in w.dirs :: m'[d] == m[d]
  {
    DirsKept(m, m', w, free, {f, t});
    UserPageShows(m, m', c, i, j, f, img);
    UserPageKept(m, m', w, free, c, i, j, f, t);
    GrownOne(w, free, c, f, PageRef(c, i, j));
    KeepOnUserPage(m, m', w, free, c, i, j, f, t);
    assert t in Owned(w, c);
  }

  lemma UserPageShows(m: Memory, m': Memory, c: nat, i: nat, j: nat, f: nat, img: seq<Byte>)
    requires c < TOTAL && UserIndex(i) && j < 1024 && f < TOTAL && HasTable(m, c, i) && Table(m, c, i) < TOTAL
    requires m'[c] == m[c]
    requires m'[Table(m, c, i)] == m[Table(m, c, i)][j := UserEntry(f)] && m'[f] == ImagePage(img)
    ensures Shows(m', c, i, j, img)
  {
    ImageBytes(img);
  }

  lemma GrownOne(w: World, free: set<nat>, c: nat, f: nat, r: Ref)
    requires f in free && f !in w.own && r.dir == c
    ensures Grown(w, w.(own := w.own[f := r]), free, free - {f}, c)
  {
    assert free - (free - {f}) == {f};
  }

  lemma UserPageKept(m: Memory, m': Memory, w: World, free: set<nat>, c: nat, i: nat, j: nat, f: nat, t: nat)
    requires System(m, w, free) && c in w.dirs && UserIndex(i) && j < 1024 && f in free && m'[c] == m[c]
    requires HasTable(m, c, i) && t == Table(m, c, i) && t in w.own && w.own[t] == TableRef(c, i)
    requires m'[t] == m[t][j := UserEntry(f)] && Untouched(m, m', {f, t}, Frame(w.kstack))
    ensures OthersKept(m, m', c, i, j)
  {
    forall a: nat, b: nat | UserIndex(a) && b < 1024 && !(a == i && b == j)
      ensures Walk(m', c, a, b) == Walk(m, c, a, b)
      ensures Accessible(m, c, a, b) ==> m'[Frame(Walk(m, c, a, b))] == m[Frame(Walk(m, c, a, b))]
    {
      UserPageKeptAt(m, m', w, free, c, i, j, f, t, a, b);
    }
  }

  lemma UserPageKeptAt(m: Memory, m': Memory, w: World, free: set<nat>, c: nat, i: nat, j: nat, f: nat, t: nat, a: nat,
      b: nat)
    requires System(m, w, free) && c in w.dirs && UserIndex(i) && j < 1024 && f in free && m'[c] == m[c]
    requires HasTable(m, c, i) && t == Table(m, c, i) && t in w.own && w.own[t] == TableRef(c, i)
    requires m'[t] == m[t][j := UserEntry(f)] && Untouched(m, m', {f, t}, Frame(w.kstack))
    requires UserIndex(a) && b < 1024 && !(a == i && b == j)
    ensures Walk(m', c, a, b) == Walk(m, c, a, b)
    ensures Accessible(m, c, a, b) ==> m'[Frame(Walk(m, c, a, b))] == m[Frame(Walk(m, c, a, b))]
  {
    if HasTable(m, c, a) {
      TableOwned(m, w, c, a);
    }
    if Present(Walk(m, c, a, b)) {
      assert Live(m, PageRef(c, a, b));
    }
  }

  /** The page part of `load_user_page`. */
  method UserPage(mc: Machine, ghost w0: World, c: nat, i: nat, j: nat, img: seq<Byte>)
    returns (ok: bool, ghost w: World, ghost taken: seq<nat>)
    requires Runs(mc, {}) && System(mc.mem, w0, mc.Free()) && mc.cr3 in w0.dirs && c in w0.dirs && c != mc.cr3
    requires UserIndex(i) && j < 1024 && HasTable(mc.mem, c, i) && !Present(Walk(mc.mem, c, i, j))
    modifies mc`mem, mc.frames.bitmap
    ensures Runs(mc, {})
    ensures Loading(old(mc.mem), mc.mem, w0, w, old(mc.Free()), mc.Free(), c)
    ensures mc.mem[mc.cr3] == old(mc.mem)[mc.cr3]
    ensures !ok ==> mc.Free() == {}
    ensures ok ==> Shows(mc.mem, c, i, j, img) && OthersKept(old(mc.mem), mc.mem, c, i, j)
    ensures ok ==> ScratchClear(mc.mem, Frame(w0.kstack))
    ensures Drawn(old(mc.Free()), taken, mc.Free()) && |taken| == if ok then 1 else 0
    ensures mc.mem[c] == old(mc.mem)[c]
  {
    ghost var m, free, p := mc.mem, mc.Free(), mc.cr3;
    DirectoryReady(m, w0, free, p, c);
    UserTableReady(m, w0, free, p, c, i);
    LoadingStart(m, w0, free, c);
    w := w0;
    var t := Frame(mc.Load(0, c, i));
    taken := [];
    var made, f := AddUserPage(mc, t, j, img);
    if !made { return false, w, taken; }
    taken := [f];
    DrawnOne(free, f);
    UserPageDone(m, mc.mem, w0, free, c, i, j, f, t, img);
    w := w0.(own := w0.own[f := PageRef(c, i, j)]);
    return true, w, taken;
  }

  /** `load_user_page` for a page that the directory does not map yet. */
  method LoadUserPage(mc: Machine, ghost w0: World, c: nat, va: nat, img: seq<Byte>, ghost other: nat)
    returns (ok: bool, ghost w: World, ghost taken: seq<nat>)
    requires Runs(mc, {}) && System(mc.mem, w0, mc.Free()) && mc.cr3 in w0.dirs && c in w0.dirs && c != mc.cr3
    requires UserIndex(Pdi(va)) && c < TOTAL && !Present(Walk(mc.mem, c, Pdi(va), Pti(va)))
    modifies mc`mem, mc.frames.bitmap
    ensures Runs(mc, {})
    ensures Loading(old(mc.mem), mc.mem, w0, w, old(mc.Free()), mc.Free(), c)
    ensures mc.mem[mc.cr3] == old(mc.mem)[mc.cr3]
    ensures !ok ==> mc.Free() == {}
    ensures ok ==> Shows(mc.mem, c, Pdi(va), Pti(va), img) && OthersKept(old(mc.mem), mc.mem, c, Pdi(va), Pti(va))
    ensures ok ==> ScratchClear(mc.mem, Frame(w0.kstack))
    ensures Drawn(old(mc.Free()), taken, mc.Free())
    ensures ok && !HasTable(old(mc.mem), c, Pdi(va)) ==> |taken| == 2
    ensures !ok ==> |taken| <= 1
    ensures UserIndex(other) && other != Pdi(va) ==> mc.mem[c][other] == old(mc.mem)[c][other]
    ensures ok && !HasTable(old(mc.mem), c, Pdi(va)) ==> Flags(mc.mem[c][Pdi(va)]) == PRESENT + RW + USER
  {
    ghost var m, free, p := mc.mem, mc.Free(), mc.cr3;
    var i, j := Pdi(va), Pti(va);
    ok, w, taken := UserTable(mc, w0, c, i, other);
    if !ok { return; }
    ghost var m1, free1, w1, taken1 := mc.mem, mc.Free(), w, taken;
    ok, w, taken := UserPage(mc, w1, c, i, j, img);
    DrawnThen(free, taken1, free1, taken, mc.Free());
    taken := taken1 + taken;
    LoadingTrans(m, m1, mc.mem, w0, w1, w, free, free1, mc.Free(), c);
    if ok {
      KeptThroughTable(m, m1, mc.mem, w0, free, c, i, j);
    }
  }

  lemma KeptThroughTable(m: Memory, m1: Memory, m2: Memory, w: World, free: set<nat>, c: nat, i: nat, j: nat)
    requires System(m, w, free) && c in w.dirs && c < TOTAL && OthersKept(m1, m2, c, i, j)
    requires forall f | f in w.own :: m1[f] == m[f]
    requires forall a: nat, b: nat | UserIndex(a) && b < 1024 :: Walk(m1, c, a, b) == Walk(m, c, a, b)
    ensures OthersKept(m, m2, c, i, j)
  {
    forall a: nat, b: nat | UserIndex(a) && b < 1024 && !(a == i && b == j)
      ensures Walk(m2, c, a, b) == Walk(m, c, a, b)
      ensures Accessible(m, c, a, b) ==> m2[Frame(Walk(m, c, a, b))] == m[Frame(Walk(m, c, a, b))]
    {
      assert Walk(m1, c, a, b) == Walk(m, c, a, b);
      if Present(Walk(m, c, a, b)) {
        assert Live(m, PageRef(c, a, b));
      }
    }
  }

  /** Two tables and two pages. */
  lemma FourFrames(free0: set<nat>, taken: seq<nat>, free: set<nat>, ok: bool)
    requires Drawn(free0, taken, free) && (if ok then |taken| == 4 else |taken| <= 3 && free == {})
    ensures ok == (|free0| >= 4) && (ok ==> |free0 - free| == 4)
  {
    DrawnCount(free0, taken, free);
    DrawnSubset(free0, taken, free);
    Split(free0, free);
  }

  lemma {:induction false} DrawnSubset(free0: set<nat>, taken: seq<nat>, free: set<nat>)
    requires Drawn(free0, taken, free)
    ensures free <= free0
    decreases |taken|
  {
    if taken != [] { DrawnSubset(free0 - {taken[0]}, taken[1..], free); }
  }

  /** The code page of directory `c` holds the image, its stack page zeroes, both open to ring 3, and it
      has no other user page. */
  ghost predicate Loaded(m: Memory, c: nat, img: seq<Byte>) {
    && Shows(m, c, CODE_PDI, CODE_PTI, img) && Shows(m, c, STACK_PDI, STACK_PTI, [])
    && Ring3(m, c, CODE_PDI, CODE_PTI) && Ring3(m, c, STACK_PDI, STACK_PTI)
    && (forall a: nat, b: nat {:trigger UserMapped(m, c, a, b)} | UserMapped(m, c, a, b) ::
          (a == CODE_PDI && b == CODE_PTI) || (a == STACK_PDI && b == STACK_PTI))
  }

  /** User page `(a, b)` of directory `c` is mapped. */
  ghost predicate UserMapped(m: Memory, c: nat, a: nat, b: nat)
    requires c < TOTAL
  {
    UserIndex(a) && b < 1024 && Present(Walk(m, c, a, b))
  }

  /** The two loads of `paging_load_user_image`. */
  method LoadPages(mc: Machine, ghost w0: World, c: nat, img: seq<Byte>)
      returns (ok: bool, ghost w: World, ghost taken: seq<nat>)
    requires Runs(mc, {}) && System(mc.mem, w0, mc.Free()) && mc.cr3 in w0.dirs && c in w0.dirs && c != mc.cr3
    requires c < TOTAL && forall k: nat | UserIndex(k) :: !HasTable(mc.mem, c, k)
    modifies mc`mem, mc.frames.bitmap
    ensures Runs(mc, {})
    ensures Loading(old(mc.mem), mc.mem, w0, w, old(mc.Free()), mc.Free(), c)
    ensures Drawn(old(mc.Free()), taken, mc.Free()) && if ok then |taken| == 4 else |taken| <= 3 && mc.Free() == {}
    ensures ok ==> Loaded(mc.mem, c, img) && ScratchClear(mc.mem, Frame(w0.kstack))
  {
    ghost var m, free := mc.mem, mc.Free();
    UserIndices();
    assert !HasTable(m, c, CODE_PDI) && !HasTable(m, c, STACK_PDI);
    ok, w, taken := LoadUserPage(mc, w0, c, USER_CODE, img, STACK_PDI);
    if !ok { return; }
    ghost var m1, free1, w1, taken1 := mc.mem, mc.Free(), w, taken;
    ok, w, taken := LoadUserPage(mc, w1, c, USER_STACK, [], CODE_PDI);
    DrawnThen(free, taken1, free1, taken, mc.Free());
    taken := taken1 + taken;
    LoadingTrans(m, m1, mc.mem, w0, w1, w, free, free1, mc.Free(), c);
    if ok {
      OnlyTwoPages(m, m1, mc.mem, c, img);
    }
  }

  lemma BareLoading(m0: Memory, m: Memory, w0: World, w: World, free0: set<nat>, free: set<nat>, c: nat)
    requires Loading(m0, m, w0, w, free0, free, c) && Owned(w0, c) == {}
    ensures Untouched(m0, m, free0 + {c}, Frame(w0.kstack))
  {
  }

  /** `paging_load_user_image`: the code page holds the image, the stack page is zeroed. It succeeds
      exactly when the size fits a page and two tables and two pages can be had; a size that does
      not fit is refused before anything happens. Nothing that was in use is written, and no
      scratch page is left mapped. */
  method LoadUserImage(mc: Machine, ghost w0: World, c: nat, img: seq<Byte>) returns (ok: bool, ghost w: World)
    requires mc.frames.Valid() && System(mc.mem, w0, mc.Free()) && mc.cr3 in w0.dirs && c in w0.dirs && c != mc.cr3
    requires forall k: nat | UserIndex(k) :: c < TOTAL && !HasTable(mc.mem, c, k)
    modifies mc`mem, mc.frames.bitmap
    ensures mc.frames.Valid() && System(mc.mem, w, mc.Free())
    ensures Bare(w0, c) && Grown(w0, w, old(mc.Free()), mc.Free(), c)
    ensures Frame(w0.kstack) < TOTAL && Untouched(old(mc.mem), mc.mem, old(mc.Free()) + {c}, Frame(w0.kstack))
    ensures c < TOTAL && forall k: nat | k < 1024 && !UserIndex(k) :: mc.mem[c][k] == old(mc.mem)[c][k]
    ensures ok || ScratchClear(old(mc.mem), Frame(w0.kstack)) ==> ScratchClear(mc.mem, Frame(w0.kstack))
    ensures ok == (0 < |img| <= 4096 && |old(mc.Free())| >= 4)
    ensures ok ==> |Owned(w, c)| == 4
    ensures !ok && 0 < |img| <= 4096 ==> mc.Free() == {}
    ensures !(0 < |img| <= 4096) ==> mc.mem == old(mc.mem) && mc.Free() == old(mc.Free()) && w == w0
    ensures ok ==> Loaded(mc.mem, c, img)
  {
    ghost var m, free := mc.mem, mc.Free();
    NoTables(m, w0, c);
    if |img| == 0 || |img| > 4096 {
      LoadingStart(m, w0, free, c);
      return false, w0;
    }
    assert Runs(mc, {}) by { DirectoryReady(m, w0, free, mc.cr3, c); }
    ghost var taken;
    ok, w, taken := LoadPages(mc, w0, c, img);
    FourFrames(free, taken, mc.Free(), ok);
    GrownOwned(w0, w, free, mc.Free(), c);
    BareLoading(m, mc.mem, w0, w, free, mc.Free(), c);
  }

  /** The code page survives the loading of the stack page, and there are no others. */
  lemma OnlyTwoPages(m: Memory, m1: Memory, m2: Memory, c: nat, img: seq<Byte>)
    requires c < TOTAL && (forall k: nat | UserIndex(k) :: !HasTable(m, c, k))
    requires OthersKept(m, m1, c, CODE_PDI, CODE_PTI) && OthersKept(m1, m2, c, STACK_PDI, STACK_PTI)
    requires Shows(m1, c, CODE_PDI, CODE_PTI, img) && Shows(m2, c, STACK_PDI, STACK_PTI, [])
    requires Flags(m2[c][CODE_PDI]) == PRESENT + RW + USER && Flags(m2[c][STACK_PDI]) == PRESENT + RW + USER
    ensures Loaded(m2, c, img)
  {
    forall a: nat, b: nat | UserMapped(m2, c, a, b)
      ensures (a == CODE_PDI && b == CODE_PTI) || (a == STACK_PDI && b == STACK_PTI)
    {
      assert !HasTable(m, c, a);
    }
  }
}
