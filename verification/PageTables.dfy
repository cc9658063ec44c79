/**
  Two-level page tables of a 32-bit x86 machine, edited from inside through the recursive window.
  Memory is a sequence of 4 KiB frames of 1024 words; every access of the paging code goes
  through the hardware walk of the current page directory.
 */
module PageTables {
  import opened FrameBitmap
  import Bits

  /** A 32-bit word, as its upper 20 and its lower 12 bits. */
  datatype Word32 = Word32(hi: nat, lo: nat)
  type Word = x: Word32 | x.hi < 0x10_0000 && x.lo < 4096 witness Word32(0, 0)
  type Page = p: seq<Word> | |p| == 1024 witness seq(1024, _ => Word32(0, 0))
  type Memory = m: seq<Page> | |m| == TOTAL witness seq<Page>(TOTAL, _ => ZeroPage())

  const PRESENT := 1
  const RW := 2
  const USER := 4
  const NIL: Word := Word32(0, 0)           // an all-zero word
  const ABSENT: Word := Word32(0, RW)       // a directory entry not in use
  function ZeroPage(): Page { seq(1024, _ => Word32(0, 0)) }
  const SELF: nat := 1023                   // directory index of the recursive window, 0xFFC00000

  predicate Present(e: Word) { e.lo % 2 == 1 }
  function Frame(e: Word): nat { e.hi }
  function Flags(e: Word): nat { e.lo }

  /** `frame | (flags & 0xFFF)`, for an aligned frame address. */
  function Entry(frame: nat, flags: nat): (e: Word)
    requires frame < 0x10_0000
    ensures Present(e) == (flags % 2 == 1)
  {
    Word32(frame, flags % 4096)
  }

  /** `flags | PRESENT`. */
  function OrPresent(flags: nat): nat { if flags % 2 == 0 then flags + 1 else flags }

  /** The flags of a table made on demand: USER is passed up from the page. */
  function TableFlags(flags: nat): nat { PRESENT + RW + (if flags / 4 % 2 == 1 then USER else 0) }

  /** Directory index and table index of an address. */
  function Pdi(va: nat): nat { va / 0x40_0000 }
  function Pti(va: nat): (j: nat)
    ensures j < 1024
  {
    va / 4096 % 1024
  }

  /** The frame number of a 32-bit physical address. */
  function FrameOf(pa: nat): (f: nat)
    requires pa < 0x1_0000_0000
    ensures f < 0x10_0000
  {
    pa / 4096
  }

  /** The hardware walk: the page-table entry that translates page `(i, j)` under directory frame `d`. */
  function Walk(m: Memory, d: nat, i: nat, j: nat): (e: Word)
    requires d < TOTAL && i < 1024 && j < 1024
  {
    if Present(m[d][i]) && Frame(m[d][i]) < TOTAL then m[Frame(m[d][i])][j] else NIL
  }

  /** The page is translated to a frame that exists, so a load or store there does not fault. */
  predicate Accessible(m: Memory, d: nat, i: nat, j: nat)
    requires d < TOTAL && i < 1024 && j < 1024
  {
    Present(Walk(m, d, i, j)) && Frame(Walk(m, d, i, j)) < TOTAL
  }

  predicate HasTable(m: Memory, d: nat, i: nat)
    requires d < TOTAL && i < 1024
  {
    Present(m[d][i])
  }

  function Table(m: Memory, d: nat, i: nat): nat
    requires d < TOTAL && i < 1024
  {
    Frame(m[d][i])
  }

  /** What the kernel keeps of the directory it runs on: the last entry names the directory
      itself, and the page tables below the window are existing, distinct frames. */
  ghost predicate Directory(m: Memory, d: nat) {
    && d < TOTAL
    && HasTable(m, d, SELF) && Table(m, d, SELF) == d
    && (forall i: nat | i < SELF && HasTable(m, d, i) :: Table(m, d, i) < TOTAL && Table(m, d, i) != d)
    && (forall i: nat, j: nat | i < j < SELF && HasTable(m, d, i) && HasTable(m, d, j) ::
          Table(m, d, i) != Table(m, d, j))
  }

  /** The frames the walk reads below the window. */
  ghost predicate Reads(m: Memory, d: nat, f: nat)
    requires d < TOTAL
  {
    f == d || exists i: nat :: i < SELF && HasTable(m, d, i) && Table(m, d, i) == f
  }

  /** The pages below the window. */
  ghost function Pages(): (s: set<(nat, nat)>)
    ensures forall i: nat, j: nat :: (i, j) in s <==> i < SELF && j < 1024
  {
    set i: nat, j: nat | i < SELF && j < 1024 :: (i, j)
  }

  /** The abstract page map: page to page-table entry, below the window. */
  ghost function PageMap(m: Memory, d: nat): (pm: map<(nat, nat), Word>)
    requires d < TOTAL
  {
    map p | p in Pages() && Present(Walk(m, d, p.0, p.1)) :: Walk(m, d, p.0, p.1)
  }

  /** Page `i` of the recursive window is the page table `i`; its last page is the directory. */
  lemma WindowShowsTables(m: Memory, d: nat, i: nat)
    requires Directory(m, d) && i < 1024
    ensures Walk(m, d, SELF, i) == m[d][i]
    ensures Accessible(m, d, SELF, SELF) && Frame(Walk(m, d, SELF, SELF)) == d
    ensures HasTable(m, d, i) ==> Accessible(m, d, SELF, i)
  {
  }

  function WithWord(m: Memory, f: nat, k: nat, w: Word): (r: Memory)
    requires f < TOTAL && k < 1024
  {
    m[f := m[f][k := w]]
  }

  /** Memory after writing the entry of page `(i, j)` into an existing table. */
  function WithPte(m: Memory, d: nat, i: nat, j: nat, e: Word): (r: Memory)
    requires d < TOTAL && i < 1024 && j < 1024
    requires HasTable(m, d, i) && Table(m, d, i) < TOTAL
  {
    WithWord(m, Table(m, d, i), j, e)
  }

  /** Memory after hanging the cleared frame `t` below the directory as table `i`. */
  function WithTable(m: Memory, d: nat, i: nat, t: nat, flags: nat): (r: Memory)
    requires d < TOTAL && i < 1024 && t < TOTAL
  {
    WithWord(m, d, i, Entry(t, TableFlags(flags)))[t := ZeroPage()]
  }

  /** Being a directory depends on the directory frame alone. */
  lemma SameDirectory(m: Memory, m': Memory, d: nat)
    requires Directory(m, d) && m'[d] == m[d]
    ensures Directory(m', d)
    ensures forall f: nat :: Reads(m', d, f) == Reads(m, d, f)
  {
    assert forall i: nat | i < 1024 :: HasTable(m', d, i) == HasTable(m, d, i) && Table(m', d, i) == Table(m, d, i);
  }

  /** Writing one entry changes the translation of that page and of no other. */
  lemma WithPteUpdates(m: Memory, d: nat, i: nat, j: nat, e: Word)
    requires Directory(m, d) && i < SELF && j < 1024 && HasTable(m, d, i)
    ensures Directory(WithPte(m, d, i, j, e), d)
    ensures forall f: nat :: Reads(WithPte(m, d, i, j, e), d, f) == Reads(m, d, f)
    ensures forall a: nat, b: nat | a < SELF && b < 1024 ::
              Walk(WithPte(m, d, i, j, e), d, a, b) == if a == i && b == j then e else Walk(m, d, a, b)
  {
    var m' := WithPte(m, d, i, j, e);
    SameDirectory(m, m', d);
    forall a: nat, b: nat | a < SELF && b < 1024
      ensures Walk(m', d, a, b) == if a == i && b == j then e else Walk(m, d, a, b)
    {
      assert a != i && HasTable(m, d, a) ==> Table(m, d, a) != Table(m, d, i);
    }
  }

  /** A new table is invisible: it changes no translation at all. */
  lemma WithTableUpdates(m: Memory, d: nat, i: nat, t: nat, flags: nat)
    requires Directory(m, d) && i < SELF && !HasTable(m, d, i)
    requires t < TOTAL && !Reads(m, d, t)
    ensures var m' := WithTable(m, d, i, t, flags);
            && Directory(m', d)
            && HasTable(m', d, i) && Table(m', d, i) == t
            && (forall f: nat :: Reads(m', d, f) ==> f == t || Reads(m, d, f))
            && (forall a: nat, b: nat | a < SELF && b < 1024 :: Walk(m', d, a, b) == Walk(m, d, a, b))
  {
    var m' := WithTable(m, d, i, t, flags);
    assert forall k: nat | k < 1024 :: m'[d][k] == if k == i then Entry(t, TableFlags(flags)) else m[d][k];
    assert forall k: nat | k < 1024 :: HasTable(m', d, k) <==> k == i || HasTable(m, d, k);
    assert forall k: nat | k < 1024 && HasTable(m', d, k) :: Table(m', d, k) == if k == i then t else Table(m, d, k);
    forall a: nat, b: nat | a < SELF && b < 1024
      ensures Walk(m', d, a, b) == Walk(m, d, a, b)
    {
      if a != i && HasTable(m, d, a) {
        assert m'[Table(m, d, a)] == m[Table(m, d, a)];
      }
    }
  }

  /** The free frames are not part of the live directory. */
  ghost predicate FreeUnread(m: Memory, d: nat, free: set<nat>)
    requires d < TOTAL
  {
    forall f | f in free :: f < TOTAL && !Reads(m, d, f)
  }

  datatype Mapped = Mapped(mem: Memory, free: set<nat>, ok: bool)

  /** What `map_page` does for an aligned page below the window. */
  ghost function MapResult(m: Memory, free: set<nat>, d: nat, i: nat, j: nat, e: Word, flags: nat): (r: Mapped)
    requires Directory(m, d) && FreeUnread(m, d, free) && i < SELF && j < 1024
  {
    if HasTable(m, d, i) then Mapped(WithPte(m, d, i, j, e), free, true)
    else if free == {} then Mapped(m, free, false)
    else
      WithTableUpdates(m, d, i, Lowest(free), flags);
      Mapped(WithPte(WithTable(m, d, i, Lowest(free), flags), d, i, j, e), free - {Lowest(free)}, true)
  }

  /** Refinement: mapping is exactly an update of the abstract page map, a page table being
      allocated or not; it fails, changing nothing, only when a table is missing and no frame is free. */
  lemma MapRefines(m: Memory, free: set<nat>, d: nat, i: nat, j: nat, e: Word, flags: nat)
    requires Directory(m, d) && FreeUnread(m, d, free) && i < SELF && j < 1024 && Present(e)
    ensures var r := MapResult(m, free, d, i, j, e, flags);
            && Directory(r.mem, d) && FreeUnread(r.mem, d, r.free)
            && r.ok == (HasTable(m, d, i) || free != {})
            && PageMap(r.mem, d) == if r.ok then PageMap(m, d)[(i, j) := e] else PageMap(m, d)
  {
    if HasTable(m, d, i) {
      WithPteUpdates(m, d, i, j, e);
    } else if free != {} {
      WithTableUpdates(m, d, i, Lowest(free), flags);
      WithPteUpdates(WithTable(m, d, i, Lowest(free), flags), d, i, j, e);
    }
  }

  /** `map_page` on addresses: a misaligned request is ignored. */
  ghost function MapPageResult(m: Memory, free: set<nat>, d: nat, pa: nat, va: nat, flags: nat): (r: Mapped)
    requires Directory(m, d) && FreeUnread(m, d, free) && pa < 0x1_0000_0000 && Pdi(va) < SELF
  {
    if pa % 4096 != 0 || va % 4096 != 0 then Mapped(m, free, false)
    else MapResult(m, free, d, Pdi(va), Pti(va), Entry(FrameOf(pa), OrPresent(flags)), flags)
  }

  /** An entry that lets ring 3 through, for reading and writing. */
  predicate Grants(e: Word) { Present(e) && e.lo / 2 % 2 == 1 && e.lo / 4 % 2 == 1 }

  /** Ring 3 can use a page only if the entries of both levels let it through. */
  predicate Ring3(m: Memory, d: nat, i: nat, j: nat)
    requires d < TOTAL && i < 1024 && j < 1024
  {
    Grants(m[d][i]) && Grants(Walk(m, d, i, j))
  }

  /** A page mapped with `flags` is open to ring 3 exactly if these ask for it, unless it hangs below a
      table made for the kernel: a table made on demand never stands in the way. */
  lemma MapRing3(m: Memory, free: set<nat>, d: nat, i: nat, j: nat, f: nat, flags: nat)
    requires Directory(m, d) && FreeUnread(m, d, free) && i < SELF && j < 1024 && f < TOTAL && flags < 4096
    requires HasTable(m, d, i) || free != {}
    ensures var r := MapResult(m, free, d, i, j, Entry(f, OrPresent(flags)), flags);
            Ring3(r.mem, d, i, j) <==>
            flags / 2 % 2 == 1 && flags / 4 % 2 == 1 && (HasTable(m, d, i) ==> Grants(m[d][i]))
  {
    var e := Entry(f, OrPresent(flags));
    FlagsKept(f, flags);
    if HasTable(m, d, i) {
      WithPteUpdates(m, d, i, j, e);
    } else {
      WithTableUpdates(m, d, i, Lowest(free), flags);
      WithPteUpdates(WithTable(m, d, i, Lowest(free), flags), d, i, j, e);
    }
  }

  lemma FlagsKept(f: nat, flags: nat)
    requires f < TOTAL && flags < 4096
    ensures Grants(Entry(f, OrPresent(flags))) <==> flags / 2 % 2 == 1 && flags / 4 % 2 == 1
    ensures Grants(Entry(f, TableFlags(flags))) <==> flags / 4 % 2 == 1
  {
  }

  /** Removing a mapping is exactly removing it from the abstract page map. */
  lemma UnmapRefines(m: Memory, d: nat, i: nat, j: nat)
    requires Directory(m, d) && i < SELF && j < 1024 && HasTable(m, d, i)
    ensures Directory(WithPte(m, d, i, j, NIL), d)
    ensures PageMap(WithPte(m, d, i, j, NIL), d) == PageMap(m, d) - {(i, j)}
  {
    WithPteUpdates(m, d, i, j, NIL);
  }

  /** The directory and identity table as `paging_init` leaves them. */
  ghost predicate Booted(m: Memory, pd0: nat, table0: nat)
    requires pd0 < TOTAL && table0 < TOTAL
  {
    && m[pd0][0] == Entry(table0, PRESENT + RW) && m[pd0][SELF] == Entry(pd0, PRESENT + RW)
    && (forall j: nat | 0 < j < SELF :: m[pd0][j] == ABSENT)
    && (forall j: nat | j < 1024 :: m[table0][j] == Entry(j, PRESENT + RW))
  }

  /** The directory that boot builds maps the first 4 MiB to themselves and nothing else. */
  lemma BootDirectory(m: Memory, pd0: nat, table0: nat)
    requires pd0 < RESERVED && table0 < RESERVED && pd0 != table0 && Booted(m, pd0, table0)
    ensures Directory(m, pd0)
    ensures forall f: nat | Reads(m, pd0, f) :: f < RESERVED
    ensures forall i: nat, j: nat :: (i, j) in PageMap(m, pd0) <==> i == 0 && j < 1024
    ensures forall j: nat | j < 1024 :: PageMap(m, pd0)[(0, j)] == Entry(j, PRESENT + RW)
  {
    assert forall k: nat | k < 1024 :: HasTable(m, pd0, k) <==> k == 0 || k == SELF;
    forall i: nat, j: nat | i < SELF && j < 1024
      ensures Walk(m, pd0, i, j) == if i == 0 then Entry(j, PRESENT + RW) else NIL
    {
      assert i != 0 ==> !HasTable(m, pd0, i);
    }
  }

  /** The table-filling loops of `paging_init`. */
  method BootTables(boot: Memory, pd0: nat, table0: nat) returns (m: Memory)
    requires pd0 < RESERVED && table0 < RESERVED && pd0 != table0
    ensures Booted(m, pd0, table0)
    ensures forall f: nat | f < TOTAL && f != pd0 && f != table0 :: m[f] == boot[f]
  {
    m := boot;
    for i := 0 to 1024
      invariant forall j: nat | j < i :: m[pd0][j] == ABSENT
      invariant forall f: nat | f < TOTAL && f != pd0 :: m[f] == boot[f]
    {
      m := WithWord(m, pd0, i, ABSENT);
    }
    for i := 0 to 1024
      invariant forall j: nat | j < 1024 :: m[pd0][j] == ABSENT
      invariant forall j: nat | j < i :: m[table0][j] == Entry(j, PRESENT + RW)
      invariant forall f: nat | f < TOTAL && f != pd0 && f != table0 :: m[f] == boot[f]
    {
      m := WithWord(m, table0, i, Entry(i, PRESENT + RW));
    }
    m := WithWord(m, pd0, 0, Entry(table0, PRESENT + RW));
    m := WithWord(m, pd0, SELF, Entry(pd0, PRESENT + RW));
  }

  /** Once its page is unmapped, a frame that is no table can be free. */
  lemma UnmapUnreads(m: Memory, d: nat, i: nat, j: nat, free: set<nat>, f: nat)
    requires Directory(m, d) && i < SELF && j < 1024 && HasTable(m, d, i) && FreeUnread(m, d, free) && !Reads(m, d, f)
    ensures var m' := WithPte(m, d, i, j, NIL);
            Directory(m', d) && FreeUnread(m', d, free + if RESERVED <= f < TOTAL then {f} else {})
  {
    SameDirectory(m, WithPte(m, d, i, j, NIL), d);
  }

  /** The machine: memory, the directory CR3 points to, and the frame allocator. */
  class Machine {
    var mem: Memory
    var cr3: nat
    const frames: FrameAllocator

    /** `paging_init`, over whatever memory holds at boot: identity map of the first 4 MiB by
        the static table `table0`, and the recursive entry. */
    constructor (boot: Memory, pd0: nat, table0: nat)
      requires pd0 < RESERVED && table0 < RESERVED && pd0 != table0
      ensures Valid() && cr3 == pd0 && fresh(frames) && fresh(frames.bitmap)
      ensures Free() == Bits.Span(RESERVED, TOTAL)
      ensures forall i: nat, j: nat :: (i, j) in PageMap(mem, cr3) <==> i == 0 && j < 1024
      ensures forall j: nat | j < 1024 :: PageMap(mem, cr3)[(0, j)] == Entry(j, PRESENT + RW)
      ensures Booted(mem, pd0, table0)
    {
      var m := BootTables(boot, pd0, table0);
      BootDirectory(m, pd0, table0);
      mem := m;
      cr3 := pd0;
      frames := new FrameAllocator();
      new;
      assert FreeUnread(mem, cr3, Free());
    }

    ghost function Free(): (s: set<nat>)
      requires frames.Valid()
      reads this, frames, frames.bitmap
      ensures forall f | f in s :: RESERVED <= f < TOTAL
    {
      frames.Free()
    }

    ghost predicate Valid()
      reads this, frames, frames.bitmap
    {
      frames.Valid() && Directory(mem, cr3) && FreeUnread(mem, cr3, Free())
    }

    /** A word store of the CPU: it lands where the walk says. */
    method Store(i: nat, j: nat, k: nat, w: Word)
      requires cr3 < TOTAL && i < 1024 && j < 1024 && k < 1024 && Accessible(mem, cr3, i, j)
      modifies this`mem
      ensures mem == WithWord(old(mem), Frame(Walk(old(mem), cr3, i, j)), k, w)
    {
      mem := WithWord(mem, Frame(Walk(mem, cr3, i, j)), k, w);
    }

    /** A word load of the CPU. */
    function Load(i: nat, j: nat, k: nat): (w: Word)
      requires cr3 < TOTAL && i < 1024 && j < 1024 && k < 1024 && Accessible(mem, cr3, i, j)
      reads this
    {
      mem[Frame(Walk(mem, cr3, i, j))][k]
    }

    /** `get_physaddr`: the translation of an address, in the window too; 0 when there is none. */
    method GetPhysAddr(va: nat) returns (pa: nat)
      requires Directory(mem, cr3) && Pdi(va) < 1024
      ensures pa == if Present(Walk(mem, cr3, Pdi(va), Pti(va)))
                    then Frame(Walk(mem, cr3, Pdi(va), Pti(va))) * 4096 + va % 4096 else 0
      ensures Pdi(va) < SELF ==>
                pa == if (Pdi(va), Pti(va)) in PageMap(mem, cr3)
                      then Frame(PageMap(mem, cr3)[(Pdi(va), Pti(va))]) * 4096 + va % 4096 else 0
    {
      var i, j := Pdi(va), Pti(va);
      WindowShowsTables(mem, cr3, i);
      if !Present(Load(SELF, SELF, i)) { return 0; }
      var pte := Load(SELF, i, j);
      if !Present(pte) { return 0; }
      return Frame(pte) * 4096 + va % 4096;
    }

    /** The part of `map_page` that hangs a cleared table below a directory entry not present. */
    method AddTable(i: nat, flags: nat) returns (ok: bool)
      requires Valid() && i < SELF && !HasTable(mem, cr3, i)
      modifies this`mem, frames.bitmap
      ensures frames.Valid()
      ensures ok == (old(Free()) != {})
      ensures !ok ==> mem == old(mem) && Free() == old(Free())
      ensures ok ==> mem == WithTable(old(mem), cr3, i, Lowest(old(Free())), flags)
      ensures ok ==> Free() == old(Free()) - {Lowest(old(Free()))}
    {
      var newTable := frames.AllocFrame();
      if newTable == 0 { return false; }
      var t := newTable / 4096;
      ghost var d, m1 := cr3, WithTable(mem, cr3, i, t, flags);
      WithTableUpdates(mem, d, i, t, flags);
      WindowShowsTables(mem, d, i);
      Store(SELF, SELF, i, Entry(t, TableFlags(flags)));
      for k := 0 to 1024
        modifies this`mem
        invariant mem[d] == m1[d]
        invariant forall f: nat | f < TOTAL && f != t :: mem[f] == m1[f]
        invariant forall j: nat | j < k :: mem[t][j] == NIL
      {
        SameDirectory(m1, mem, d);
        WindowShowsTables(mem, d, i);
        Store(SELF, i, k, NIL);
      }
      assert mem[t] == ZeroPage();
      assert mem == m1;
      return true;
    }

    /** The part of `map_page` that writes the entry, clearing a present one first. */
    method WritePte(i: nat, j: nat, e: Word)
      requires Directory(mem, cr3) && i < SELF && j < 1024 && HasTable(mem, cr3, i)
      modifies this`mem
      ensures mem == WithPte(old(mem), cr3, i, j, e)
    {
      WindowShowsTables(mem, cr3, i);
      if Present(Load(SELF, i, j)) {
        Store(SELF, i, j, NIL);
        SameDirectory(old(mem), mem, cr3);
        WindowShowsTables(mem, cr3, i);
      }
      Store(SELF, i, j, e);
      assert mem == WithPte(old(mem), cr3, i, j, e) by {
        var t := Table(old(mem), cr3, i);
        assert mem[t] == old(mem)[t][j := e];
      }
    }

    /** `map_page` once the address is split: entry `e` for page `(i, j)`. */
    method MapAt(i: nat, j: nat, e: Word, flags: nat)
      requires Valid() && i < SELF && j < 1024 && Present(e)
      modifies this`mem, frames.bitmap
      ensures Valid()
      ensures var r := MapResult(old(mem), old(Free()), cr3, i, j, e, flags);
              mem == r.mem && Free() == r.free
    {
      MapRefines(mem, Free(), cr3, i, j, e, flags);
      WindowShowsTables(mem, cr3, i);
      if !Present(Load(SELF, SELF, i)) {
        var ok := AddTable(i, flags);
        if !ok { return; }
        WithTableUpdates(old(mem), cr3, i, Lowest(old(Free())), flags);
      }
      WritePte(i, j, e);
    }

    /** `map_page`. */
    method MapPage(pa: nat, va: nat, flags: nat)
      requires Valid() && pa < 0x1_0000_0000 && Pdi(va) < SELF
      modifies this`mem, frames.bitmap
      ensures Valid()
      ensures var r := MapPageResult(old(mem), old(Free()), cr3, pa, va, flags);
              mem == r.mem && Free() == r.free
    {
      if pa % 4096 != 0 || va % 4096 != 0 { return; }
      var e := Entry(FrameOf(pa), OrPresent(flags));
      MapAt(Pdi(va), Pti(va), e, flags);
    }

    /** `unmap_page`. */
    method UnmapPage(va: nat)
      requires Valid() && Pdi(va) < SELF
      modifies this`mem
      ensures Valid()
      ensures va % 4096 != 0 || (Pdi(va), Pti(va)) !in PageMap(old(mem), cr3) ==> mem == old(mem)
      ensures va % 4096 == 0 && (Pdi(va), Pti(va)) in PageMap(old(mem), cr3) ==>
                mem == WithPte(old(mem), cr3, Pdi(va), Pti(va), NIL)
      ensures va % 4096 == 0 ==> PageMap(mem, cr3) == PageMap(old(mem), cr3) - {(Pdi(va), Pti(va))}
    {
      if va % 4096 != 0 { return; }
      var i, j := Pdi(va), Pti(va);
      WindowShowsTables(mem, cr3, i);
      if !Present(Load(SELF, SELF, i)) { return; }
      if !Present(Load(SELF, i, j)) { return; }
      UnmapRefines(mem, cr3, i, j);
      Store(SELF, i, j, NIL);
      SameDirectory(old(mem), mem, cr3);
    }

    /** `alloc_page`: a fresh frame at an aligned address below the window. It fails, changing
        nothing, exactly when a frame for the page or for a missing table cannot be had. At an
        unaligned address nothing is mapped; a frame is lost if the page happens to be mapped. */
    method AllocPage(va: nat, flags: nat) returns (ok: bool)
      requires Valid() && Pdi(va) < SELF
      modifies this`mem, frames.bitmap
      ensures Valid()
      ensures va % 4096 == 0 ==>
                ok == (old(Free()) != {} &&
                       (HasTable(old(mem), cr3, Pdi(va)) || old(Free()) != {Lowest(old(Free()))}))
      ensures !ok ==> mem == old(mem) && Free() == old(Free())
      ensures ok && va % 4096 == 0 ==>
                var f := Lowest(old(Free()));
                var e := Entry(f, OrPresent(flags));
                var r := MapResult(old(mem), old(Free()) - {f}, cr3, Pdi(va), Pti(va), e, flags);
                mem == r.mem && Free() == r.free
      ensures va % 4096 != 0 ==> ok == (old(Free()) != {} && (Pdi(va), Pti(va)) in PageMap(old(mem), cr3))
      ensures ok && va % 4096 != 0 ==> mem == old(mem) && Free() == old(Free()) - {Lowest(old(Free()))}
    {
      var addr := frames.AllocFrame();
      if addr == 0 { return false; }
      ghost var f, free1 := addr / 4096, Free();
      assert addr == f * 4096 && FreeUnread(mem, cr3, free1);
      var e := Entry(addr / 4096, OrPresent(flags));
      MapRefines(mem, free1, cr3, Pdi(va), Pti(va), e, flags);
      MapPage(addr, va, flags);
      var pa := GetPhysAddr(va);
      if pa == 0 {
        frames.FreeFrame(addr);
        assert Free() == old(Free());
        return false;
      }
      return true;
    }

    /** `free_page` below the window, for a page that is no page table. The frame is unmapped and freed;
        a reserved or nonexistent frame is only unmapped, and an unaligned address does nothing. */
    method FreePage(va: nat)
      requires Valid() && Pdi(va) < SELF
      requires va % 4096 == 0 && (Pdi(va), Pti(va)) in PageMap(mem, cr3) ==>
                 !Reads(mem, cr3, Frame(Walk(mem, cr3, Pdi(va), Pti(va))))
      modifies this`mem, frames.bitmap
      ensures Valid()
      ensures va % 4096 != 0 || (Pdi(va), Pti(va)) !in PageMap(old(mem), cr3) ==>
                mem == old(mem) && Free() == old(Free())
      ensures va % 4096 == 0 && (Pdi(va), Pti(va)) in PageMap(old(mem), cr3) ==>
                var f := Frame(Walk(old(mem), cr3, Pdi(va), Pti(va)));
                && (f != 0 ==> mem == WithPte(old(mem), cr3, Pdi(va), Pti(va), NIL))
                && (f == 0 ==> mem == old(mem))
                && Free() == old(Free()) + if RESERVED <= f < TOTAL then {f} else {}
    {
      var pa := GetPhysAddr(va);
      if pa == 0 { return; }
      ghost var f := Frame(Walk(mem, cr3, Pdi(va), Pti(va)));
      FrameAddress(f);
      if va % 4096 == 0 {
        UnmapUnreads(mem, cr3, Pdi(va), Pti(va), Free(), f);
      } else {
        Offset(f, va % 4096);
      }
      UnmapPage(va);
      frames.FreeFrame(pa);
    }
  }

  lemma Offset(f: nat, x: nat)
    requires 0 < x < 4096
    ensures (f * 4096 + x) % 4096 == x
  {
  }

  /** `alloc_page` at an unaligned address of a mapped page. */
  method AllocUnaligned(mc: Machine, va: nat) returns (ok: bool)
    requires mc.Valid() && Pdi(va) < SELF && va % 4096 != 0 && mc.Free() != {}
    requires (Pdi(va), Pti(va)) in PageMap(mc.mem, mc.cr3)
    modifies mc`mem, mc.frames.bitmap
    ensures mc.Valid() && ok && mc.mem == old(mc.mem) && mc.Free() == old(mc.Free()) - {Lowest(old(mc.Free()))}
  {
    ok := mc.AllocPage(va, PRESENT + RW);
  }

  /** Address 1: unaligned, and in the first page. */
  function FirstOdd(): (va: nat)
    ensures va == 1 && Pdi(va) == 0 && Pti(va) == 0 && va % 4096 != 0
  {
    1
  }

  lemma LowestManaged(free: set<nat>)
    requires free == Bits.Span(RESERVED, TOTAL)
    ensures free != {} && Lowest(free) == RESERVED
  {
    assert RESERVED in free;
  }

  /** A frame lost, from boot: `alloc_page` at the unaligned address 1 of a mapped page reports success,
      changes no word of memory, and the frame it took is neither free nor mapped. */
  method LoseFrame(boot: Memory, pd0: nat, table0: nat) returns (mc: Machine, ok: bool)
    requires pd0 < RESERVED && table0 < RESERVED && pd0 != table0
    ensures fresh(mc) && mc.Valid() && ok && Booted(mc.mem, pd0, table0) && mc.cr3 == pd0
    ensures mc.Free() == Bits.Span(RESERVED, TOTAL) - {RESERVED}
    ensures forall i: nat, j: nat | (i, j) in PageMap(mc.mem, pd0) :: Frame(PageMap(mc.mem, pd0)[(i, j)]) < RESERVED
  {
    mc := new Machine(boot, pd0, table0);
    LowestManaged(mc.Free());
    var va := FirstOdd();
    ok := AllocUnaligned(mc, va);
  }
}
