/**
  The page loops of the kernel allocators, run on the page tables: `vmalloc` backs a range of kernel
  pages with `alloc_page` and `vfree` gives them back with `free_page`; the slab and the heap do the
  same with one page at a time. Page tables that had to be made stay behind.
 */
module KernelPages {
  import opened FrameBitmap
  import opened PageTables

  /** Page number `n` below the window, at address `4096 * n`. */
  predicate BelowWindow(n: nat) { n < SELF * 1024 }

  lemma PageAddress(n: nat)
    requires BelowWindow(n)
    ensures var va := n * 4096; Pdi(va) == n / 1024 < SELF && Pti(va) == n % 1024 < 1024 && va % 4096 == 0
  {
  }

  /** The entry of page `n`. */
  ghost function PageAt(m: Memory, d: nat, n: nat): (e: Word)
    requires d < TOTAL && BelowWindow(n)
  {
    Walk(m, d, n / 1024, n % 1024)
  }

  ghost predicate Backable(m: Memory, d: nat, n: nat)
    requires d < TOTAL && BelowWindow(n)
  {
    HasTable(m, d, n / 1024)
  }

  /** The table made for page `n`, if it was missing; `free` is what is left of the free frames then. */
  ghost function NewTable(m: Memory, d: nat, free: set<nat>, n: nat): (s: set<nat>)
    requires d < TOTAL && BelowWindow(n)
  {
    if Backable(m, d, n) || free == {} then {} else {Lowest(free)}
  }

  /** Memory `m'` is `m` with page `n` mapped to frame `f` and the tables `t` made for it. */
  ghost predicate MappedOne(m: Memory, m': Memory, d: nat, n: nat, f: nat, t: set<nat>)
    requires d < TOTAL && BelowWindow(n)
  {
    && Present(PageAt(m', d, n)) && Frame(PageAt(m', d, n)) == f && Backable(m', d, n)
    && (forall x: nat | BelowWindow(x) && x != n :: PageAt(m', d, x) == PageAt(m, d, x))
    && (forall g: nat :: Reads(m', d, g) ==> Reads(m, d, g) || g in t)
    && (forall x: nat | BelowWindow(x) :: Backable(m', d, x) <==> Backable(m, d, x) || x / 1024 == n / 1024)
  }

  lemma MapResultIs(m: Memory, free: set<nat>, d: nat, n: nat, e: Word, flags: nat)
    requires Directory(m, d) && FreeUnread(m, d, free) && BelowWindow(n) && Present(e)
    requires HasTable(m, d, n / 1024) || free != {}
    ensures var r := MapResult(m, free, d, n / 1024, n % 1024, e, flags);
            && r.free == free - NewTable(m, d, free, n)
            && MappedOne(m, r.mem, d, n, Frame(e), NewTable(m, d, free, n))
  {
    var i, j := n / 1024, n % 1024;
    if HasTable(m, d, i) {
      WithPteUpdates(m, d, i, j, e);
    } else {
      WithTableUpdates(m, d, i, Lowest(free), flags);
      WithPteUpdates(WithTable(m, d, i, Lowest(free), flags), d, i, j, e);
    }
  }

  lemma OneOrTwo(free: set<nat>)
    ensures free != {} <==> |free| >= 1
    ensures free != {} ==> (free != {Lowest(free)} <==> |free| >= 2)
  {
    if free != {} {
      assert |free| == |free - {Lowest(free)}| + 1;
      assert free != {Lowest(free)} <==> free - {Lowest(free)} != {};
    }
  }

  /** `alloc_page` for page number `n`: it takes a frame, and one more if the page has no table. */
  method BackPage(mc: Machine, n: nat, flags: nat) returns (ok: bool, ghost f: nat, ghost t: set<nat>)
    requires mc.Valid() && BelowWindow(n)
    modifies mc`mem, mc.frames.bitmap
    ensures mc.Valid()
    ensures ok == (|old(mc.Free())| >= if Backable(old(mc.mem), mc.cr3, n) then 1 else 2)
    ensures !ok ==> mc.mem == old(mc.mem) && mc.Free() == old(mc.Free())
    ensures ok ==> f in old(mc.Free()) && t <= old(mc.Free()) - {f} && mc.Free() == old(mc.Free()) - {f} - t
    ensures ok ==> MappedOne(old(mc.mem), mc.mem, mc.cr3, n, f, t)
    ensures ok ==> |t| == if Backable(old(mc.mem), mc.cr3, n) then 0 else 1
  {
    ghost var m, free := mc.mem, mc.Free();
    PageAddress(n);
    OneOrTwo(free);
    ok := mc.AllocPage(n * 4096, flags);
    f, t := 0, {};
    if ok {
      f := Lowest(free);
      t := NewTable(m, mc.cr3, free - {f}, n);
      MapResultIs(m, free - {f}, mc.cr3, n, Entry(f, OrPresent(flags)), flags);
    }
  }

  /** The frames taken and what is left: `got` for the pages, in order and distinct, `tabs` for tables. */
  ghost predicate Taken(free0: set<nat>, free: set<nat>, got: seq<nat>, tabs: set<nat>) {
    && (forall f | f in got :: f in free0 && f !in tabs) && tabs <= free0
    && (forall f :: f in free <==> f in free0 && f !in got && f !in tabs)
    && forall x: nat, y: nat | x < y < |got| :: got[x] != got[y]
  }

  /** Pages `n0` and up are mapped to the frames `got`, and no other page changed. */
  ghost predicate Backed(m0: Memory, m: Memory, d: nat, n0: nat, got: seq<nat>)
    requires d < TOTAL && n0 + |got| <= SELF * 1024
  {
    && (forall x: nat | x < |got| :: PageIs(m, d, n0 + x, got[x]))
    && (forall x: nat | BelowWindow(x) && !(n0 <= x < n0 + |got|) :: PageAt(m, d, x) == PageAt(m0, d, x))
  }

  /** Page `n` is mapped to frame `f`, which is no page table. */
  ghost predicate PageIs(m: Memory, d: nat, n: nat, f: nat)
    requires d < TOTAL && BelowWindow(n)
  {
    Present(PageAt(m, d, n)) && Frame(PageAt(m, d, n)) == f && !Reads(m, d, f)
  }

  /** The directory entries below which pages of the range lack a table. */
  ghost function Missing(m: Memory, d: nat, n0: nat, n: nat): (s: set<nat>)
    requires d < TOTAL && n0 + n <= SELF * 1024
  {
    set x: nat | n0 <= x < n0 + n && !Backable(m, d, x) :: x / 1024
  }

  /** The tables are there that were there, and those that the range lacked. */
  ghost predicate TablesMade(m0: Memory, m: Memory, d: nat, n0: nat, n: nat)
    requires d < TOTAL && n0 + n <= SELF * 1024
  {
    forall x: nat | BelowWindow(x) :: Backable(m, d, x) <==> Backable(m0, d, x) || x / 1024 in Missing(m0, d, n0, n)
  }

  /** Every page of the range has a table. */
  ghost predicate Tabled(m: Memory, d: nat, n0: nat, n: nat)
    requires d < TOTAL && n0 + n <= SELF * 1024
  {
    forall x: nat | n0 <= x < n0 + n :: Backable(m, d, x)
  }

  lemma TakenMore(free0: set<nat>, free: set<nat>, got: seq<nat>, tabs: set<nat>, f: nat, t: set<nat>)
    requires Taken(free0, free, got, tabs) && f in free && t <= free - {f}
    ensures Taken(free0, free - {f} - t, got + [f], tabs + t)
  {
  }

  lemma BackedMore(m0: Memory, m: Memory, m': Memory, d: nat, n0: nat, got: seq<nat>, f: nat, t: set<nat>)
    requires d < TOTAL && n0 + |got| < SELF * 1024 && Backed(m0, m, d, n0, got)
    requires MappedOne(m, m', d, n0 + |got|, f, t) && !Reads(m, d, f) && f !in t && forall g | g in got :: g !in t
    ensures Backed(m0, m', d, n0, got + [f])
  {
    forall x: nat | x < |got + [f]|
      ensures PageIs(m', d, n0 + x, (got + [f])[x])
    {
      if x < |got| { assert PageIs(m, d, n0 + x, got[x]) && got[x] in got; }
    }
  }

  lemma TablesMore(m0: Memory, m: Memory, m': Memory, d: nat, n0: nat, n: nat, f: nat, t: set<nat>)
    requires d < TOTAL && n0 + n < SELF * 1024 && TablesMade(m0, m, d, n0, n) && MappedOne(m, m', d, n0 + n, f, t)
    ensures TablesMade(m0, m', d, n0, n + 1)
  {
    MissingNext(m0, d, n0, n);
  }

  lemma MissingNext(m: Memory, d: nat, n0: nat, n: nat)
    requires d < TOTAL && n0 + n < SELF * 1024
    ensures Missing(m, d, n0, n + 1) ==
            Missing(m, d, n0, n) + if Backable(m, d, n0 + n) then {} else {(n0 + n) / 1024}
  {
    var x := n0 + n;
    if !Backable(m, d, x) { assert x / 1024 in Missing(m, d, n0, n + 1); }
  }

  /** One more entry lacks a table exactly when page `n0 + n` has none yet. */
  lemma MissingCount(m0: Memory, m: Memory, d: nat, n0: nat, n: nat)
    requires d < TOTAL && n0 + n < SELF * 1024 && TablesMade(m0, m, d, n0, n)
    ensures |Missing(m0, d, n0, n + 1)| == |Missing(m0, d, n0, n)| + if Backable(m, d, n0 + n) then 0 else 1
  {
    MissingNext(m0, d, n0, n);
    var i := (n0 + n) / 1024;
    if i in Missing(m0, d, n0, n) {
      assert Missing(m0, d, n0, n) + {i} == Missing(m0, d, n0, n);
    }
  }

  lemma MissingGrows(m: Memory, d: nat, n0: nat, k: nat, n: nat)
    requires d < TOTAL && k <= n && n0 + n <= SELF * 1024
    ensures |Missing(m, d, n0, k)| <= |Missing(m, d, n0, n)|
  {
    Smaller(Missing(m, d, n0, k), Missing(m, d, n0, n));
  }

  lemma Smaller(a: set<nat>, b: set<nat>)
    requires a <= b
    ensures |a| <= |b|
  {
    assert b == a + (b - a);
  }

  lemma MissingNone(m: Memory, d: nat, n0: nat, n: nat)
    requires d < TOTAL && n0 + n <= SELF * 1024
    ensures |Missing(m, d, n0, n)| == 0 <==> Tabled(m, d, n0, n)
  {
    forall x: nat | n0 <= x < n0 + n && !Backable(m, d, x)
      ensures Missing(m, d, n0, n) != {}
    {
      assert x / 1024 in Missing(m, d, n0, n);
    }
    if Tabled(m, d, n0, n) { assert Missing(m, d, n0, n) == {}; }
  }

  /** How many frames backing the range takes: one for each page and one for each table that it lacks. */
  ghost function Needed(m: Memory, d: nat, n0: nat, n: nat): (sum: nat)
    requires d < TOTAL && n0 + n <= SELF * 1024
  {
    n + |Missing(m, d, n0, n)|
  }

  lemma NeededNext(m0: Memory, m: Memory, d: nat, n0: nat, k: nat, n: nat)
    requires d < TOTAL && k < n && n0 + n <= SELF * 1024 && TablesMade(m0, m, d, n0, k)
    ensures Needed(m0, d, n0, k + 1) == Needed(m0, d, n0, k) + if Backable(m, d, n0 + k) then 1 else 2
    ensures Needed(m0, d, n0, k + 1) <= Needed(m0, d, n0, n)
  {
    MissingCount(m0, m, d, n0, k);
    MissingGrows(m0, d, n0, k + 1, n);
  }

  /** The loop of `vmalloc` after the pages of `got`. */
  ghost predicate Part(m0: Memory, m: Memory, d: nat, free0: set<nat>, free: set<nat>, n0: nat, got: seq<nat>,
                       tabs: set<nat>)
    requires d < TOTAL && n0 + |got| <= SELF * 1024
  {
    Shaped(m0, m, d, free0, free, n0, got, tabs) && Counted(free0, free, |got|, |tabs|, Needed(m0, d, n0, |got|))
  }

  ghost predicate Shaped(m0: Memory, m: Memory, d: nat, free0: set<nat>, free: set<nat>, n0: nat, got: seq<nat>,
                         tabs: set<nat>)
    requires d < TOTAL && n0 + |got| <= SELF * 1024
  {
    Taken(free0, free, got, tabs) && Backed(m0, m, d, n0, got) && TablesMade(m0, m, d, n0, |got|)
  }

  ghost predicate Counted(free0: set<nat>, free: set<nat>, pages: nat, tables: nat, needed: nat) {
    pages + tables == needed && |free| + needed == |free0|
  }

  lemma CountedMore(free0: set<nat>, free: set<nat>, tabs: set<nat>, pages: nat, needed: nat, f: nat, t: set<nat>)
    requires Counted(free0, free, pages, |tabs|, needed) && f in free && t <= free - {f} && tabs !! t
    ensures Counted(free0, free - {f} - t, pages + 1, |tabs + t|, needed + 1 + |t|)
  {
    assert |free - {f}| == |free| - 1;
    assert (free - {f} - t) + t == free - {f};
    assert |tabs + t| == |tabs| + |t|;
  }

  lemma ShapedMore(m0: Memory, m: Memory, m': Memory, d: nat, free0: set<nat>, free: set<nat>, n0: nat, got: seq<nat>,
                   tabs: set<nat>, f: nat, t: set<nat>)
    requires d < TOTAL && n0 + |got| < SELF * 1024 && Shaped(m0, m, d, free0, free, n0, got, tabs)
    requires FreeUnread(m, d, free) && f in free && t <= free - {f} && MappedOne(m, m', d, n0 + |got|, f, t)
    ensures Shaped(m0, m', d, free0, free - {f} - t, n0, got + [f], tabs + t) && tabs !! t
  {
    TakenMore(free0, free, got, tabs, f, t);
    BackedMore(m0, m, m', d, n0, got, f, t);
    TablesMore(m0, m, m', d, n0, |got|, f, t);
  }

  lemma PartMore(m0: Memory, m: Memory, m': Memory, d: nat, free0: set<nat>, free: set<nat>, n0: nat, got: seq<nat>,
                 tabs: set<nat>, f: nat, t: set<nat>)
    requires d < TOTAL && n0 + |got| < SELF * 1024 && Part(m0, m, d, free0, free, n0, got, tabs)
    requires FreeUnread(m, d, free) && f in free && t <= free - {f} && MappedOne(m, m', d, n0 + |got|, f, t)
    requires |t| == if Backable(m, d, n0 + |got|) then 0 else 1
    ensures Part(m0, m', d, free0, free - {f} - t, n0, got + [f], tabs + t)
  {
    ShapedMore(m0, m, m', d, free0, free, n0, got, tabs, f, t);
    PartCounted(m0, m, d, free0, free, n0, |got|, tabs, f, t);
  }

  lemma PartCounted(m0: Memory, m: Memory, d: nat, free0: set<nat>, free: set<nat>, n0: nat, n: nat, tabs: set<nat>,
                    f: nat, t: set<nat>)
    requires d < TOTAL && n0 + n < SELF * 1024 && TablesMade(m0, m, d, n0, n)
    requires Counted(free0, free, n, |tabs|, Needed(m0, d, n0, n)) && f in free && t <= free - {f} && tabs !! t
    requires |t| == if Backable(m, d, n0 + n) then 0 else 1
    ensures Counted(free0, free - {f} - t, n + 1, |tabs + t|, Needed(m0, d, n0, n + 1))
  {
    NeededNext(m0, m, d, n0, n, n + 1);
    CountedMore(free0, free, tabs, n, Needed(m0, d, n0, n), f, t);
  }

  lemma PartFails(m0: Memory, m: Memory, d: nat, free0: set<nat>, free: set<nat>, n0: nat, got: seq<nat>,
                  tabs: set<nat>, n: nat)
    requires d < TOTAL && |got| < n && n0 + n <= SELF * 1024 && Part(m0, m, d, free0, free, n0, got, tabs)
    requires |free| < if Backable(m, d, n0 + |got|) then 1 else 2
    ensures |free0| < Needed(m0, d, n0, n)
  {
    NeededNext(m0, m, d, n0, |got|, n);
  }

  /** One round of the loop of `vmalloc`, for page `x` of a range of `n`. */
  method BackNext(mc: Machine, ghost m0: Memory, ghost free0: set<nat>, ghost n0: nat, ghost n: nat, x: nat,
                  ghost got0: seq<nat>, ghost tabs0: set<nat>, flags: nat)
    returns (ok: bool, ghost got: seq<nat>, ghost tabs: set<nat>)
    requires mc.Valid() && x == n0 + |got0| && |got0| < n && n0 + n <= SELF * 1024
    requires Part(m0, mc.mem, mc.cr3, free0, mc.Free(), n0, got0, tabs0)
    modifies mc`mem, mc.frames.bitmap
    ensures mc.Valid() && (!ok ==> |free0| < Needed(m0, mc.cr3, n0, n))
    ensures ok ==> |got| == |got0| + 1 && Part(m0, mc.mem, mc.cr3, free0, mc.Free(), n0, got, tabs)
  {
    ghost var m, free, f, t := mc.mem, mc.Free(), 0, {};
    got, tabs := got0, tabs0;
    ok, f, t := BackPage(mc, x, flags);
    if ok {
      PartMore(m0, m, mc.mem, mc.cr3, free0, free, n0, got0, tabs0, f, t);
      got, tabs := got0 + [f], tabs0 + t;
    } else {
      PartFails(m0, m, mc.cr3, free0, free, n0, got0, tabs0, n);
    }
  }

  lemma PartStart(m: Memory, d: nat, free: set<nat>, n0: nat)
    requires d < TOTAL && n0 <= SELF * 1024
    ensures Part(m, m, d, free, free, n0, [], {})
  {
    assert Missing(m, d, n0, 0) == {};
  }

  lemma PartEnd(m0: Memory, m: Memory, d: nat, free0: set<nat>, free: set<nat>, n0: nat, got: seq<nat>, tabs: set<nat>)
    requires d < TOTAL && n0 + |got| <= SELF * 1024 && Part(m0, m, d, free0, free, n0, got, tabs)
    ensures |free0| >= Needed(m0, d, n0, |got|) && |tabs| == |Missing(m0, d, n0, |got|)|
  {
  }

  /** The loop of `vmalloc`: every page of the range gets a frame, exactly if there are as many as it
      has pages and lacks tables. */
  method BackRange(mc: Machine, n0: nat, n: nat, flags: nat)
    returns (ok: bool, ghost got: seq<nat>, ghost tabs: set<nat>)
    requires mc.Valid() && n0 + n <= SELF * 1024
    modifies mc`mem, mc.frames.bitmap
    ensures mc.Valid() && ok == (|old(mc.Free())| >= Needed(old(mc.mem), mc.cr3, n0, n))
    ensures ok ==> |got| == n && Taken(old(mc.Free()), mc.Free(), got, tabs)
    ensures ok ==> Backed(old(mc.mem), mc.mem, mc.cr3, n0, got) && |tabs| == |Missing(old(mc.mem), mc.cr3, n0, n)|
  {
    ghost var m0, free0 := mc.mem, mc.Free();
    got, tabs := [], {};
    PartStart(m0, mc.cr3, free0, n0);
    for k := 0 to n
      modifies mc`mem, mc.frames.bitmap
      invariant mc.Valid() && |got| == k && Part(m0, mc.mem, mc.cr3, free0, mc.Free(), n0, got, tabs)
    {
      ok, got, tabs := BackNext(mc, m0, free0, n0, n, n0 + k, got, tabs, flags);
      if !ok { return false, got, tabs; }
    }
    PartEnd(m0, mc.mem, mc.cr3, free0, mc.Free(), n0, got, tabs);
    return true, got, tabs;
  }

  /** `free_page` for page number `n`, mapped to frame `f`. */
  method DropPage(mc: Machine, n: nat, ghost f: nat)
    requires mc.Valid() && BelowWindow(n) && PageIs(mc.mem, mc.cr3, n, f) && RESERVED <= f < TOTAL
    modifies mc`mem, mc.frames.bitmap
    ensures mc.Valid() && mc.Free() == old(mc.Free()) + {f} && !Present(PageAt(mc.mem, mc.cr3, n))
    ensures forall x: nat | BelowWindow(x) && x != n :: PageAt(mc.mem, mc.cr3, x) == PageAt(old(mc.mem), mc.cr3, x)
    ensures forall g: nat :: Reads(mc.mem, mc.cr3, g) == Reads(old(mc.mem), mc.cr3, g)
  {
    PageAddress(n);
    WithPteUpdates(mc.mem, mc.cr3, n / 1024, n % 1024, NIL);
    mc.FreePage(n * 4096);
  }

  /** The first `k` pages of a backed range are dropped again. */
  ghost predicate Dropped(m1: Memory, m: Memory, d: nat, n0: nat, got: seq<nat>, k: nat)
    requires d < TOTAL && n0 + |got| <= SELF * 1024 && k <= |got|
  {
    && (forall x: nat | n0 <= x < n0 + k :: !Present(PageAt(m, d, x)))
    && (forall x: nat | k <= x < |got| :: PageIs(m, d, n0 + x, got[x]))
    && (forall x: nat | BelowWindow(x) && !(n0 <= x < n0 + |got|) :: PageAt(m, d, x) == PageAt(m1, d, x))
  }

  lemma DroppedMore(m1: Memory, m: Memory, m': Memory, d: nat, n0: nat, got: seq<nat>, k: nat)
    requires d < TOTAL && n0 + |got| <= SELF * 1024 && k < |got| && Dropped(m1, m, d, n0, got, k)
    requires !Present(PageAt(m', d, n0 + k)) && (forall g: nat :: Reads(m', d, g) == Reads(m, d, g))
    requires forall x: nat | BelowWindow(x) && x != n0 + k :: PageAt(m', d, x) == PageAt(m, d, x)
    ensures Dropped(m1, m', d, n0, got, k + 1)
  {
    forall x: nat | k < x < |got|
      ensures PageIs(m', d, n0 + x, got[x])
    {
      assert PageIs(m, d, n0 + x, got[x]);
    }
  }

  /** The loop of `vfree`. */
  method DropRange(mc: Machine, n0: nat, n: nat, ghost got: seq<nat>)
    requires mc.Valid() && |got| == n && n0 + n <= SELF * 1024 && (forall f | f in got :: RESERVED <= f < TOTAL)
    requires forall x: nat | x < n :: PageIs(mc.mem, mc.cr3, n0 + x, got[x])
    modifies mc`mem, mc.frames.bitmap
    ensures mc.Valid() && Dropped(old(mc.mem), mc.mem, mc.cr3, n0, got, n)
    ensures forall f :: f in mc.Free() <==> f in old(mc.Free()) || f in got
  {
    for k := 0 to n
      modifies mc`mem, mc.frames.bitmap
      invariant mc.Valid() && Dropped(old(mc.mem), mc.mem, mc.cr3, n0, got, k)
      invariant forall f :: f in mc.Free() <==> f in old(mc.Free()) || f in got[..k]
    {
      ghost var m := mc.mem;
      assert got[k] in got && PageIs(m, mc.cr3, n0 + k, got[k]);
      DropPage(mc, n0 + k, got[k]);
      DroppedMore(old(mc.mem), m, mc.mem, mc.cr3, n0, got, k);
      assert got[..k + 1] == got[..k] + [got[k]];
    }
    assert got[..n] == got;
  }

  /** The same translation: both absent, or the same entry. */
  predicate SameEntry(e: Word, e': Word) { Present(e') == Present(e) && (Present(e) ==> e' == e) }

  /** Backing a range of unmapped kernel pages and dropping it again leaves every translation as it was,
      and of the free frames all but the tables that were made: the free frames are those there were
      exactly when every page of the range had a table before. */
  method BackThenDrop(mc: Machine, n0: nat, n: nat, flags: nat) returns (ok: bool, ghost tabs: set<nat>)
    requires mc.Valid() && n0 + n <= SELF * 1024
    requires forall x: nat | n0 <= x < n0 + n :: !Present(PageAt(mc.mem, mc.cr3, x))
    modifies mc`mem, mc.frames.bitmap
    ensures mc.Valid()
    ensures ok == (|old(mc.Free())| >= Needed(old(mc.mem), mc.cr3, n0, n))
    ensures ok ==> tabs <= old(mc.Free()) && mc.Free() == old(mc.Free()) - tabs
    ensures ok ==> |tabs| == |Missing(old(mc.mem), mc.cr3, n0, n)|
    ensures ok ==> (mc.Free() == old(mc.Free()) <==> Tabled(old(mc.mem), mc.cr3, n0, n))
    ensures ok ==>
              forall x: nat | BelowWindow(x) :: SameEntry(PageAt(old(mc.mem), mc.cr3, x), PageAt(mc.mem, mc.cr3, x))
  {
    ghost var got;
    ok, got, tabs := BackRange(mc, n0, n, flags);
    if ok {
      DropRange(mc, n0, n, got);
      TablesLeft(old(mc.Free()), mc.Free(), tabs);
      MissingNone(old(mc.mem), mc.cr3, n0, n);
    }
  }

  lemma TablesLeft(free0: set<nat>, free: set<nat>, tabs: set<nat>)
    requires tabs <= free0 && forall f :: f in free <==> f in free0 && f !in tabs
    ensures free == free0 - tabs && (free == free0 <==> |tabs| == 0)
  {
    if f :| f in tabs {
      assert f in free0 && f !in free;
    }
  }
}
