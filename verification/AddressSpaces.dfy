/**
  Address spaces built on the page tables: who owns each frame, and what creating, copying,
  loading and tearing down an address space does to ownership.
 */
module AddressSpaces {
  import opened FrameBitmap
  import opened PageTables

  const KSTACK_PDI: nat := 956         // 0xEF000000 >> 22
  const SCRATCH_TABLE: nat := 512      // page of 0xEF200000
  const SCRATCH_DATA: nat := 513       // page of 0xEF201000

  /** Directory entries 1..767 are private to a process. */
  predicate UserIndex(i: nat) { 1 <= i < 768 }

  predicate ScratchSlot(s: nat) { s == SCRATCH_TABLE || s == SCRATCH_DATA }

  /** A place that holds a user frame: a directory entry or a page-table entry. */
  datatype Ref = TableRef(dir: nat, i: nat) | PageRef(dir: nat, i: nat, j: nat)

  /** Bookkeeping: the static `page_directories`, the directories in use, the identity table,
      the kernel-stack directory entry, the one owner of every user frame, and the slot of every
      kernel-stack frame. */
  datatype World = World(pds: set<nat>, dirs: set<nat>, table0: nat, kstack: Word, own: map<nat, Ref>,
                         stack: map<nat, nat>)

  predicate UserRef(dirs: set<nat>, r: Ref) {
    r.dir in dirs && UserIndex(r.i) && (r.PageRef? ==> r.j < 1024)
  }

  predicate Live(m: Memory, r: Ref)
    requires r.dir < TOTAL && r.i < 1024 && (r.PageRef? ==> r.j < 1024)
  {
    match r
    case TableRef(d, i) => HasTable(m, d, i)
    case PageRef(d, i, j) => Present(Walk(m, d, i, j))
  }

  function Target(m: Memory, r: Ref): nat
    requires r.dir < TOTAL && r.i < 1024 && (r.PageRef? ==> r.j < 1024)
  {
    match r
    case TableRef(d, i) => Table(m, d, i)
    case PageRef(d, i, j) => Frame(Walk(m, d, i, j))
  }

  /** Every user table and user page of every directory has exactly one owner. */
  ghost predicate Ledger(m: Memory, w: World) {
    && w.dirs <= w.pds
    && (forall d | d in w.pds :: d < RESERVED)
    && (forall r | UserRef(w.dirs, r) && Live(m, r) :: Target(m, r) in w.own && w.own[Target(m, r)] == r)
    && (forall f | f in w.own :: RESERVED <= f < TOTAL && UserRef(w.dirs, w.own[f])
                                 && Live(m, w.own[f]) && Target(m, w.own[f]) == f)
  }

  /** What every directory shares: the identity table, the kernel-stack table, and kernel
      tables that are nobody's user frame. */
  ghost predicate Space(m: Memory, w: World, free: set<nat>, d: nat) {
    && Directory(m, d)
    && HasTable(m, d, 0) && Table(m, d, 0) == w.table0
    && HasTable(m, d, KSTACK_PDI) && m[d][KSTACK_PDI] == w.kstack
    && (forall i: nat | i < SELF && !UserIndex(i) && HasTable(m, d, i) ::
          Table(m, d, i) !in w.own && Table(m, d, i) !in free && Table(m, d, i) !in w.pds && Table(m, d, i) !in w.stack)
  }

  /** A kernel page: shared by all directories, and not one of the two scratch pages. */
  predicate KernelPage(i: nat, j: nat) {
    i < SELF && !UserIndex(i) && j < 1024 && !(i == KSTACK_PDI && ScratchSlot(j))
  }

  ghost predicate KernelEntry(m: Memory, d: nat, i: nat, j: nat) {
    d < TOTAL && KernelPage(i, j) && Present(Walk(m, d, i, j))
  }

  /** Kernel pages lie on frames that are neither free nor any process's, and a kernel-stack frame
      is mapped at its own slot only. */
  ghost predicate KernelApart(m: Memory, w: World, free: set<nat>) {
    forall d: nat, i: nat, j: nat {:trigger KernelEntry(m, d, i, j)} | d in w.dirs && KernelEntry(m, d, i, j) ::
      var f := Frame(Walk(m, d, i, j));
      f !in w.own && f !in free && (f in w.stack ==> i == KSTACK_PDI && j == w.stack[f])
  }

  /** Every kernel-stack frame is mapped at its slot. */
  ghost predicate Stacks(m: Memory, w: World, free: set<nat>)
    requires Frame(w.kstack) < TOTAL
  {
    forall f | f in w.stack ::
      && RESERVED <= f < TOTAL && f !in w.own && f !in free && w.stack[f] < 1024 && !ScratchSlot(w.stack[f])
      && m[Frame(w.kstack)][w.stack[f]] == Entry(f, PRESENT + RW)
  }

  /** The identity table and the kernel-stack table, which all directories share. */
  ghost predicate Shared(m: Memory, w: World, free: set<nat>) {
    && w.table0 < RESERVED && w.table0 !in w.pds
    && (forall j: nat | j < 1024 :: m[w.table0][j] == Entry(j, PRESENT + RW))
    && var kt := Frame(w.kstack);
    kt < TOTAL && kt != w.table0 && kt !in w.pds && kt !in free && kt !in w.own && kt !in w.stack
  }

  /** The invariant of the whole memory system. */
  ghost predicate System(m: Memory, w: World, free: set<nat>) {
    && Ledger(m, w) && Shared(m, w, free)
    && w.own.Keys !! free && (forall f | f in free :: RESERVED <= f < TOTAL)
    && (forall d | d in w.dirs :: Space(m, w, free, d))
    && Stacks(m, w, free) && KernelApart(m, w, free)
  }

  /** The scratch entries are the only ones of table `kt` that changed. */
  ghost predicate ScratchEntriesOnly(m: Memory, m': Memory, kt: nat)
    requires kt < TOTAL
  {
    forall s: nat | s < 1024 && !ScratchSlot(s) :: m'[kt][s] == m[kt][s]
  }

  /** Outside the frames of `mine` and the scratch entries of table `kt` memory is as it was. */
  ghost predicate Untouched(m0: Memory, m: Memory, mine: set<nat>, kt: nat) {
    && kt < TOTAL && ScratchEntriesOnly(m0, m, kt)
    && (forall f: nat | f < TOTAL && f !in mine && f != kt :: m[f] == m0[f])
  }

  lemma FreeIsUnread(m: Memory, w: World, free: set<nat>, d: nat)
    requires System(m, w, free) && d in w.dirs
    ensures Space(m, w, free, d) && FreeUnread(m, d, free)
  {
    assert Space(m, w, free, d);
    forall f | f in free
      ensures !Reads(m, d, f)
    {
      forall i: nat | i < SELF && HasTable(m, d, i)
        ensures Table(m, d, i) != f
      {
        if UserIndex(i) {
          assert Live(m, TableRef(d, i));
        }
      }
    }
  }

  /** The static directories are writable through the identity map, and no table is one. */
  lemma DirectoryReady(m: Memory, w: World, free: set<nat>, p: nat, c: nat)
    requires System(m, w, free) && p in w.dirs && c in w.pds && c != p
    ensures Space(m, w, free, p) && FreeUnread(m, p, free) && p < RESERVED && c < RESERVED
    ensures Walk(m, p, 0, c) == Entry(c, PRESENT + RW) && Accessible(m, p, 0, c) && Frame(Walk(m, p, 0, c)) == c
    ensures !Reads(m, p, c)
  {
    FreeIsUnread(m, w, free, p);
    forall k: nat | k < SELF && HasTable(m, p, k)
      ensures Table(m, p, k) != c
    {
      if UserIndex(k) {
        assert Live(m, TableRef(p, k));
      }
    }
  }

  /** Kernel translations survive when only frames that are free, owned or directories change, no
      directory changes in a kernel entry, and the kernel-stack table in its scratch entries only. */
  lemma KernelWalk(m: Memory, m': Memory, w: World, free: set<nat>, mine: set<nat>, d: nat, i: nat, j: nat)
    requires Space(m, w, free, d) && d in w.dirs && KernelPage(i, j)
    requires Untouched(m, m', mine, Frame(w.kstack))
    requires forall f | f in mine :: f in free || f in w.own || f in w.pds || f in w.stack
    requires m'[d][i] == m[d][i]
    ensures Walk(m', d, i, j) == Walk(m, d, i, j)
  {
    if HasTable(m, d, i) {
      assert Table(m, d, i) == Frame(w.kstack) ==> i == KSTACK_PDI;
    }
  }

  /** Kernel pages stay apart when they are translated as before and no frame joins the managed ones. */
  lemma KeepApart(m: Memory, m': Memory, w: World, w': World, free: set<nat>, free': set<nat>)
    requires KernelApart(m, w, free) && w'.dirs == w.dirs && w'.stack == w.stack
    requires forall f | f in w'.own || f in free' :: f in w.own || f in free
    requires forall d, i: nat, j: nat | d in w.dirs && KernelPage(i, j) ::
             d < TOTAL && Walk(m', d, i, j) == Walk(m, d, i, j)
    ensures KernelApart(m', w', free')
  {
    forall d: nat, i: nat, j: nat | d in w.dirs && KernelEntry(m', d, i, j)
      ensures var f := Frame(Walk(m', d, i, j));
              f !in w'.own && f !in free' && (f in w'.stack ==> i == KSTACK_PDI && j == w'.stack[f])
    {
      assert KernelEntry(m, d, i, j);
    }
  }

  lemma KeepShared(m: Memory, m': Memory, w: World, w': World, free: set<nat>, free': set<nat>)
    requires Shared(m, w, free) && m'[w.table0] == m[w.table0]
    requires w'.pds == w.pds && w'.table0 == w.table0 && w'.stack == w.stack && w'.kstack == w.kstack
    requires forall f | f in w'.own || f in free' :: f in w.own || f in free
    ensures Shared(m', w', free')
  {
  }

  /** A change to free frames, kernel stacks, unused directories and scratch entries alone keeps the system. */
  lemma KeepSystem(m: Memory, m': Memory, w: World, free: set<nat>, mine: set<nat>)
    requires System(m, w, free)
    requires Untouched(m, m', mine, Frame(w.kstack))
    requires forall f | f in mine :: f in free || f in w.stack || (f in w.pds && f !in w.dirs)
    ensures System(m', w, free)
  {
    forall d | d in w.dirs
      ensures m'[d] == m[d] && Space(m', w, free, d)
    {
      assert Space(m, w, free, d);
      SameDirectory(m, m', d);
      assert forall i: nat | i < 1024 :: HasTable(m', d, i) == HasTable(m, d, i) && Table(m', d, i) == Table(m, d, i);
    }
    assert Ledger(m', w) by { KeepLedger(m, m', w, free); }
    assert KernelApart(m', w, free) && Stacks(m', w, free) by { KeepKernel(m, m', w, w, free, free, mine); }
  }

  /** No directory in use is written with the frames of `mine`. */
  lemma DirsKept(m: Memory, m': Memory, w: World, free: set<nat>, mine: set<nat>)
    requires System(m, w, free) && Untouched(m, m', mine, Frame(w.kstack))
    requires forall f | f in mine :: f in free || f in w.own || f in w.stack
    ensures forall d | d in w.dirs :: m'[d] == m[d]
  {
  }

  lemma KeepLedger(m: Memory, m': Memory, w: World, free: set<nat>)
    requires System(m, w, free)
    requires forall d | d in w.dirs :: m'[d] == m[d]
    requires forall f | f in w.own :: m'[f] == m[f]
    ensures Ledger(m', w)
  {
    forall r | UserRef(w.dirs, r)
      ensures Live(m', r) == Live(m, r) && (Live(m, r) ==> Target(m', r) == Target(m, r))
    {
      SameLive(m, m', w, r);
    }
  }

  /** A place is in use as before when its directory and its table are as before. */
  lemma SameLive(m: Memory, m': Memory, w: World, r: Ref)
    requires Ledger(m, w) && UserRef(w.dirs, r) && m'[r.dir] == m[r.dir] && forall f | f in w.own :: m'[f] == m[f]
    ensures Live(m', r) == Live(m, r) && (Live(m, r) ==> Target(m', r) == Target(m, r))
  {
    assert HasTable(m', r.dir, r.i) == HasTable(m, r.dir, r.i);
    if r.PageRef? && HasTable(m, r.dir, r.i) {
      TableOwned(m, w, r.dir, r.i);
    }
  }

  lemma KeepKernel(m: Memory, m': Memory, w: World, w': World, free: set<nat>, free': set<nat>, mine: set<nat>)
    requires System(m, w, free) && Untouched(m, m', mine, Frame(w.kstack))
    requires w'.dirs == w.dirs && w'.stack == w.stack && w'.kstack == w.kstack
    requires forall f | f in w'.own || f in free' :: f in w.own || f in free
    requires forall f | f in mine :: f in free || f in w.own || f in w.pds || f in w.stack
    requires forall d, i: nat | d in w.dirs && i < SELF && !UserIndex(i) :: m'[d][i] == m[d][i]
    ensures KernelApart(m', w', free') && Stacks(m', w', free')
  {
    forall d, i: nat, j: nat | d in w.dirs && KernelPage(i, j)
      ensures d < TOTAL && Walk(m', d, i, j) == Walk(m, d, i, j)
    {
      assert Space(m, w, free, d);
      KernelWalk(m, m', w, free, mine, d, i, j);
    }
    KeepApart(m, m', w, w', free, free');
  }

  /** Writing a frame that is still free keeps the system. */
  lemma KeepOnFreeWrite(m: Memory, w: World, free: set<nat>, f: nat, p: Page)
    requires System(m, w, free) && f in free
    ensures System(m[f := p], w, free)
  {
    KeepSystem(m, m[f := p], w, free, {f});
  }

  /** Writing a scratch entry of the kernel-stack table keeps the system. */
  lemma KeepOnScratch(m: Memory, w: World, free: set<nat>, d: nat, k: nat, e: Word)
    requires System(m, w, free) && d in w.dirs && ScratchSlot(k)
    ensures HasTable(m, d, KSTACK_PDI) && Table(m, d, KSTACK_PDI) == Frame(w.kstack) < TOTAL
    ensures System(WithPte(m, d, KSTACK_PDI, k, e), w, free)
  {
    assert Space(m, w, free, d);
    KeepSystem(m, WithPte(m, d, KSTACK_PDI, k, e), w, free, {});
  }

  /** The ledger follows when one place changes its target and all others keep theirs. */
  lemma LedgerAfterNew(m: Memory, m': Memory, w: World, r0: Ref, f: nat)
    requires Ledger(m, w) && UserRef(w.dirs, r0) && !Live(m, r0)
    requires Live(m', r0) && Target(m', r0) == f && f !in w.own && RESERVED <= f < TOTAL
    requires forall r | UserRef(w.dirs, r) && r != r0 ::
               Live(m', r) == Live(m, r) && (Live(m, r) ==> Target(m', r) == Target(m, r))
    ensures Ledger(m', w.(own := w.own[f := r0]))
  {
  }

  /** A cleared free frame becomes table `i` of directory `c`: it moves from free to owned. */
  lemma KeepOnNewTable(m: Memory, w: World, free: set<nat>, c: nat, i: nat, t: nat, flags: nat)
    requires System(m, w, free) && c in w.dirs && UserIndex(i) && !HasTable(m, c, i)
    requires t in free && m[t] == ZeroPage() && flags % 2 == 1
    ensures System(WithWord(m, c, i, Entry(t, flags)), w.(own := w.own[t := TableRef(c, i)]), free - {t})
  {
    var m' := WithWord(m, c, i, Entry(t, flags));
    var w' := w.(own := w.own[t := TableRef(c, i)]);
    NewTableSpaces(m, w, free, c, i, t, flags);
    NewTableRefs(m, w, c, i, t, flags);
    UserEntryKernel(m, m', w, w', free, free - {t}, c, i);
  }

  /** A change of user entry `(c, i)` of a directory, frames moving between free and owned, keeps the kernel's part. */
  lemma UserEntryKernel(m: Memory, m': Memory, w: World, w': World, free: set<nat>, free': set<nat>, c: nat, i: nat)
    requires System(m, w, free) && c in w.dirs && UserIndex(i) && w' == w.(own := w'.own)
    requires forall f | f in w'.own || f in free' :: f in w.own || f in free
    requires (forall g: nat | g < TOTAL && g != c :: m'[g] == m[g])
    requires forall k: nat | k < 1024 && k != i :: m'[c][k] == m[c][k]
    ensures Shared(m', w', free') && KernelApart(m', w', free') && Stacks(m', w', free')
  {
    KeepShared(m, m', w, w', free, free');
    KeepKernel(m, m', w, w', free, free', {c});
  }

  lemma NewTableSpaces(m: Memory, w: World, free: set<nat>, c: nat, i: nat, t: nat, flags: nat)
    requires System(m, w, free) && c in w.dirs && UserIndex(i) && !HasTable(m, c, i) && t in free && flags % 2 == 1
    ensures forall d | d in w.dirs ::
              Space(WithWord(m, c, i, Entry(t, flags)), w.(own := w.own[t := TableRef(c, i)]), free - {t}, d)
  {
    forall d | d in w.dirs
      ensures Space(WithWord(m, c, i, Entry(t, flags)), w.(own := w.own[t := TableRef(c, i)]), free - {t}, d)
    {
      FreeIsUnread(m, w, free, d);
      NewTableSpace(m, w, free, c, i, t, flags, d);
    }
  }

  lemma NewTableSpace(m: Memory, w: World, free: set<nat>, c: nat, i: nat, t: nat, flags: nat, d: nat)
    requires Space(m, w, free, d) && c < TOTAL && UserIndex(i) && t in free && t < TOTAL && !Reads(m, d, t)
    requires !HasTable(m, c, i) && flags % 2 == 1
    ensures Space(WithWord(m, c, i, Entry(t, flags)), w.(own := w.own[t := TableRef(c, i)]), free - {t}, d)
  {
    var m' := WithWord(m, c, i, Entry(t, flags));
    assert forall k: nat | k < 1024 :: HasTable(m', d, k) == (HasTable(m, d, k) || (d == c && k == i));
    assert forall k: nat | k < 1024 :: Table(m', d, k) == if d == c && k == i then t else Table(m, d, k);
  }

  lemma NewTableRefs(m: Memory, w: World, c: nat, i: nat, t: nat, flags: nat)
    requires Ledger(m, w) && c in w.dirs && UserIndex(i) && !HasTable(m, c, i)
    requires t !in w.own && RESERVED <= t < TOTAL && m[t] == ZeroPage() && flags % 2 == 1
    ensures Ledger(WithWord(m, c, i, Entry(t, flags)), w.(own := w.own[t := TableRef(c, i)]))
  {
    var m' := WithWord(m, c, i, Entry(t, flags));
    forall r | UserRef(w.dirs, r) && r != TableRef(c, i)
      ensures Live(m', r) == Live(m, r) && (Live(m, r) ==> Target(m', r) == Target(m, r))
    {
      assert HasTable(m', r.dir, r.i) == (HasTable(m, r.dir, r.i) || (r.dir == c && r.i == i));
      if r.PageRef? && HasTable(m, r.dir, r.i) {
        assert Live(m, TableRef(r.dir, r.i));
      }
    }
    LedgerAfterNew(m, m', w, TableRef(c, i), t);
  }

  /** The table that a user directory entry names is owned by that entry. */
  lemma TableOwned(m: Memory, w: World, c: nat, i: nat)
    requires Ledger(m, w) && c in w.dirs && UserIndex(i) && HasTable(m, c, i)
    ensures Table(m, c, i) in w.own && w.own[Table(m, c, i)] == TableRef(c, i) && RESERVED <= Table(m, c, i) < TOTAL
  {
    assert Live(m, TableRef(c, i));
  }

  /** A free frame becomes page `(i, j)` of directory `c`. */
  lemma KeepOnNewPage(m: Memory, w: World, free: set<nat>, c: nat, i: nat, j: nat, e: Word)
    requires System(m, w, free) && c in w.dirs && UserIndex(i) && j < 1024
    requires HasTable(m, c, i) && !Present(Walk(m, c, i, j))
    requires Frame(e) in free && Present(e)
    ensures Table(m, c, i) in w.own && w.own[Table(m, c, i)] == TableRef(c, i)
    ensures System(WithPte(m, c, i, j, e), w.(own := w.own[Frame(e) := PageRef(c, i, j)]), free - {Frame(e)})
  {
    TableOwned(m, w, c, i);
    var m', w' := WithPte(m, c, i, j, e), w.(own := w.own[Frame(e) := PageRef(c, i, j)]);
    NewPageRefs(m, w, c, i, j, e);
    NewPageSpaces(m, m', w, free, Table(m, c, i), Frame(e), PageRef(c, i, j));
    NewPageKernel(m, m', w, free, Table(m, c, i), Frame(e), PageRef(c, i, j));
  }

  /** Writing an owned table, and giving away a free frame, keeps all but the ledger. */
  lemma NewPageSpaces(m: Memory, m': Memory, w: World, free: set<nat>, t: nat, f: nat, r: Ref)
    requires System(m, w, free) && f in free && t in w.own
    requires forall g: nat | g < TOTAL && g != t :: m'[g] == m[g]
    ensures forall d | d in w.dirs :: Space(m', w.(own := w.own[f := r]), free - {f}, d)
  {
    forall d | d in w.dirs
      ensures Space(m', w.(own := w.own[f := r]), free - {f}, d)
    {
      NewPageSpace(m, m', w, free, d, f, r);
    }
  }

  lemma NewPageKernel(m: Memory, m': Memory, w: World, free: set<nat>, t: nat, f: nat, r: Ref)
    requires System(m, w, free) && f in free && t in w.own
    requires forall g: nat | g < TOTAL && g != t :: m'[g] == m[g]
    ensures var w', free' := w.(own := w.own[f := r]), free - {f};
            Shared(m', w', free') && KernelApart(m', w', free') && Stacks(m', w', free')
  {
    var w', free' := w.(own := w.own[f := r]), free - {f};
    assert forall d | d in w.dirs :: m'[d] == m[d];
    KeepShared(m, m', w, w', free, free');
    KeepKernel(m, m', w, w', free, free', {t});
  }

  lemma NewPageSpace(m: Memory, m': Memory, w: World, free: set<nat>, d: nat, f: nat, r: Ref)
    requires Space(m, w, free, d) && m'[d] == m[d] && f in free
    ensures Space(m', w.(own := w.own[f := r]), free - {f}, d)
  {
    SameDirectory(m, m', d);
    assert forall k: nat | k < 1024 :: HasTable(m', d, k) == HasTable(m, d, k) && Table(m', d, k) == Table(m, d, k);
  }

  lemma NewPageRefs(m: Memory, w: World, c: nat, i: nat, j: nat, e: Word)
    requires Ledger(m, w) && c in w.dirs && UserIndex(i) && j < 1024
    requires HasTable(m, c, i) && Table(m, c, i) in w.own && !Present(Walk(m, c, i, j))
    requires RESERVED <= Frame(e) < TOTAL && Frame(e) !in w.own && Present(e)
    ensures Ledger(WithPte(m, c, i, j, e), w.(own := w.own[Frame(e) := PageRef(c, i, j)]))
  {
    var m' := WithPte(m, c, i, j, e);
    assert Live(m, TableRef(c, i));
    forall r | UserRef(w.dirs, r) && r != PageRef(c, i, j)
      ensures Live(m', r) == Live(m, r) && (Live(m, r) ==> Target(m', r) == Target(m, r))
    {
      NewPageRef(m, w, c, i, j, e, r);
    }
    LedgerAfterNew(m, m', w, PageRef(c, i, j), Frame(e));
  }

  lemma NewPageRef(m: Memory, w: World, c: nat, i: nat, j: nat, e: Word, r: Ref)
    requires Ledger(m, w) && c in w.dirs && UserIndex(i) && j < 1024
    requires HasTable(m, c, i) && Table(m, c, i) in w.own && w.own[Table(m, c, i)] == TableRef(c, i)
    requires UserRef(w.dirs, r) && r != PageRef(c, i, j)
    ensures var m' := WithPte(m, c, i, j, e);
            Live(m', r) == Live(m, r) && (Live(m, r) ==> Target(m', r) == Target(m, r))
  {
    var m' := WithPte(m, c, i, j, e);
    assert m'[r.dir] == m[r.dir];
    if r.PageRef? && HasTable(m, r.dir, r.i) {
      TableOwned(m, w, r.dir, r.i);
    }
  }

  /** The frames owned below directory entry `(c, i)`: the table and its pages. */
  ghost function Below(w: World, c: nat, i: nat): (s: set<nat>) {
    set f | f in w.own && w.own[f].dir == c && w.own[f].i == i
  }

  /** Clearing directory entry `(c, i)` and freeing what hung below keeps the system. */
  lemma KeepOnDrop(m: Memory, w: World, free: set<nat>, c: nat, i: nat)
    requires System(m, w, free) && c in w.dirs && UserIndex(i)
    ensures System(WithWord(m, c, i, ABSENT), w.(own := w.own - Below(w, c, i)), free + Below(w, c, i))
  {
    var m' := WithWord(m, c, i, ABSENT);
    var w', free' := w.(own := w.own - Below(w, c, i)), free + Below(w, c, i);
    assert forall d | d in w.dirs :: Space(m', w', free', d) by {
      forall d | d in w.dirs
        ensures Space(m', w', free', d)
      {
        DropSpace(m, w, free, c, i, d);
      }
    }
    DropRefs(m, w, c, i);
    UserEntryKernel(m, m', w, w', free, free', c, i);
  }

  lemma DropSpace(m: Memory, w: World, free: set<nat>, c: nat, i: nat, d: nat)
    requires Space(m, w, free, d) && c < TOTAL && UserIndex(i)
    ensures Space(WithWord(m, c, i, ABSENT), w.(own := w.own - Below(w, c, i)), free + Below(w, c, i), d)
  {
    var m' := WithWord(m, c, i, ABSENT);
    assert forall k: nat | k < 1024 :: HasTable(m', d, k) == (HasTable(m, d, k) && !(d == c && k == i));
    assert forall k: nat | k < 1024 && HasTable(m', d, k) :: Table(m', d, k) == Table(m, d, k);
  }

  lemma DropRefs(m: Memory, w: World, c: nat, i: nat)
    requires Ledger(m, w) && c in w.dirs && UserIndex(i)
    ensures Ledger(WithWord(m, c, i, ABSENT), w.(own := w.own - Below(w, c, i)))
  {
    var m' := WithWord(m, c, i, ABSENT);
    forall r | UserRef(w.dirs, r)
      ensures if r.dir == c && r.i == i then !Live(m', r)
              else Live(m', r) == Live(m, r) && (Live(m, r) ==> Target(m', r) == Target(m, r))
    {
      assert HasTable(m', r.dir, r.i) == (HasTable(m, r.dir, r.i) && !(r.dir == c && r.i == i));
      if r.PageRef? && HasTable(m, r.dir, r.i) {
        assert Live(m, TableRef(r.dir, r.i));
      }
    }
  }

  /** The memory system holds at boot, once the kernel-stack table exists: nobody owns anything yet. */
  lemma BootSystem(m: Memory, pd0: nat, table0: nat, pds: set<nat>, free: set<nat>, t: nat, flags: nat)
    requires pd0 < RESERVED && table0 < RESERVED && pd0 != table0 && Booted(m, pd0, table0)
    requires pd0 in pds && table0 !in pds && (forall d | d in pds :: d < RESERVED)
    requires (forall f | f in free :: RESERVED <= f < TOTAL) && t in free
    ensures var m1 := WithTable(m, pd0, KSTACK_PDI, t, flags);
            System(m1, World(pds, {pd0}, table0, m1[pd0][KSTACK_PDI], map[], map[]), free - {t})
  {
    var m1 := WithTable(m, pd0, KSTACK_PDI, t, flags);
    assert m1[table0] == m[table0];
    assert forall i: nat | i < 1024 :: HasTable(m1, pd0, i) <==> i == 0 || i == KSTACK_PDI || i == SELF;
    assert Table(m1, pd0, KSTACK_PDI) == t && Table(m1, pd0, 0) == table0 && Table(m1, pd0, SELF) == pd0;
    forall i: nat, j: nat | KernelEntry(m1, pd0, i, j)
      ensures Frame(Walk(m1, pd0, i, j)) < RESERVED
    {
      assert i == 0;
    }
  }

  method AddStackTable(k: Machine, pd0: nat, table0: nat, ghost pds: set<nat>) returns (ghost w: World)
    requires k.Valid() && k.cr3 == pd0 && RESERVED in k.Free()
    requires pd0 < RESERVED && table0 < RESERVED && pd0 != table0 && Booted(k.mem, pd0, table0)
    requires pd0 in pds && table0 !in pds && (forall d | d in pds :: d < RESERVED)
    modifies k`mem, k.frames.bitmap
    ensures k.Valid() && System(k.mem, w, k.Free()) && w.pds == pds && w.own == map[] && w.stack == map[]
    ensures pd0 in w.dirs && forall d | d in w.dirs :: d == pd0
    ensures |k.Free()| == |old(k.Free())| - 1
  {
    ghost var free, m := k.Free(), k.mem;
    var _ := k.AddTable(KSTACK_PDI, PRESENT + RW);
    w := World(pds, {pd0}, table0, k.mem[pd0][KSTACK_PDI], map[], map[]);
    BootSystem(m, pd0, table0, pds, free, Lowest(free), PRESENT + RW);
    assert Directory(k.mem, pd0) && FreeUnread(k.mem, pd0, k.Free()) by { FreeIsUnread(k.mem, w, k.Free(), pd0); }
  }

  /** `paging_init`, then the kernel-stack table: the memory system is up. */
  method BootMemory(boot: Memory, pd0: nat, table0: nat, ghost pds: set<nat>) returns (k: Machine, ghost w: World)
    requires pd0 < RESERVED && table0 < RESERVED && pd0 != table0
    requires pd0 in pds && table0 !in pds && (forall d | d in pds :: d < RESERVED)
    ensures fresh(k) && fresh(k.frames.bitmap) && k.frames.Valid() && k.cr3 == pd0 && w.pds == pds
    ensures pd0 in w.dirs && forall d | d in w.dirs :: d == pd0
    ensures System(k.mem, w, k.Free()) && w.own == map[] && w.stack == map[]
    ensures |k.Free()| == TOTAL - RESERVED - 1
  {
    k := new Machine(boot, pd0, table0);
    w := AddStackTable(k, pd0, table0, pds);
  }
}
