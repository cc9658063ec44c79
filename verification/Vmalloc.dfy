/**
  The page-run allocator: a bitmap of the pages of the vmalloc zone and a singly linked list of
  the regions handed out. Bitmap and list agree at all times, and the word-skipping search finds
  the lowest free run.
 */
module Vmalloc {
  import opened Bits

  const PAGES: nat := 64512            // pages of 0xF0000000 .. 0xFFBFFFFF
  const WORDS: nat := 2016
  const BASE: nat := 0xF000_0000
  const LIMIT: nat := 0xFFBF_FFFF

  /** A region of the list, with the address of its node. */
  datatype Region = Region(node: nat, start: nat, n: nat)

  predicate Covers(r: Region, i: nat) { r.start <= i < r.start + r.n }

  /** Some region of the list covers page `i`. */
  ghost predicate Covered(list: seq<Region>, i: nat) {
    exists r :: r in list && Covers(r, i)
  }

  predicate Apart(a: Region, b: Region) { a.start + a.n <= b.start || b.start + b.n <= a.start }

  ghost predicate RegionsOk(list: seq<Region>) {
    && (forall r | r in list :: 1 <= r.n && r.start + r.n <= PAGES && r.node != 0)
    && (forall i, j | 0 <= i < j < |list| :: Apart(list[i], list[j]) && list[i].node != list[j].node)
  }

  /** Agreement: a page bit is set exactly when a region covers the page. */
  ghost predicate Agree(ws: seq<Word>, list: seq<Region>) {
    |ws| == WORDS && forall i: nat | i < PAGES :: Bit(ws, i) <==> Covered(list, i)
  }

  /** Regions being apart, the region that covers a page is the only one. */
  lemma OneRegion(list: seq<Region>, i: nat, a: Region, b: Region)
    requires RegionsOk(list) && a in list && b in list && Covers(a, i) && Covers(b, i)
    ensures a == b
  {
    var j :| 0 <= j < |list| && list[j] == a;
    var k :| 0 <= k < |list| && list[k] == b;
  }

  /** The bitmap with the bits of `[s, s + n)` set to `v`. */
  function WithRun(ws: seq<Word>, s: nat, n: nat, v: bool): (r: seq<Word>)
    requires s + n <= 32 * |ws|
    ensures |r| == |ws|
    ensures forall i: nat | i < 32 * |ws| :: Bit(r, i) == if s <= i < s + n then v else Bit(ws, i)
  {
    if n == 0 then ws else WithBit(WithRun(ws, s, n - 1, v), s + n - 1, v)
  }

  /** A bitmap is known by its bits. */
  lemma SameBits(a: seq<Word>, b: seq<Word>)
    requires |a| == |b| && forall i: nat | i < 32 * |a| :: Bit(a, i) == Bit(b, i)
    ensures a == b
  {
    forall w: nat | w < |a|
      ensures a[w] == b[w]
    {
      forall k: nat | k < 32
        ensures a[w][k] == b[w][k]
      {
        var i := 32 * w + k;
        assert i / 32 == w && i % 32 == k && Bit(a, i) == Bit(b, i);
      }
    }
  }

  // ----- the two operations on values -----

  datatype Zone = Zone(ws: seq<Word>, list: seq<Region>)

  ghost predicate ZoneInv(z: Zone) { RegionsOk(z.list) && Agree(z.ws, z.list) }

  function Allocated(z: Zone, r: Region): (z': Zone)
    requires r.start + r.n <= 32 * |z.ws|
  {
    Zone(WithRun(z.ws, r.start, r.n, true), [r] + z.list)
  }

  /** Index of the first region that starts at page `s`, or the length of the list. */
  function Search(list: seq<Region>, s: nat): (k: nat)
    ensures k <= |list| && (k < |list| ==> list[k].start == s) && forall i: nat | i < k :: list[i].start != s
  {
    if list == [] then 0 else if list[0].start == s then 0 else 1 + Search(list[1..], s)
  }

  function Removed(z: Zone, k: nat): (z': Zone)
    requires k < |z.list| && z.list[k].start + z.list[k].n <= 32 * |z.ws|
  {
    Zone(WithRun(z.ws, z.list[k].start, z.list[k].n, false), z.list[..k] + z.list[k + 1..])
  }

  /** Handing out a free run keeps agreement. */
  lemma AllocatedKeeps(z: Zone, r: Region)
    requires ZoneInv(z) && 1 <= r.n && r.start + r.n <= PAGES && FreeRun(z.ws, r.start, r.n)
    requires r.node != 0 && forall q | q in z.list :: q.node != r.node
    ensures ZoneInv(Allocated(z, r))
  {
    var z' := Allocated(z, r);
    forall q | q in z.list
      ensures Apart(r, q)
    {
      var i := if r.start <= q.start then q.start else r.start;
      assert Covers(r, i) ==> !Bit(z.ws, i);
      assert Covers(q, i) ==> Covered(z.list, i);
    }
    forall i: nat | i < PAGES
      ensures Covered(z'.list, i) <==> Covers(r, i) || Covered(z.list, i)
    {
      if Covers(r, i) { assert r in z'.list; }
      if Covered(z.list, i) {
        var q :| q in z.list && Covers(q, i);
        assert q in z'.list;
      }
    }
  }

  /** Taking a region back keeps agreement. */
  lemma RemovedKeeps(z: Zone, k: nat)
    requires ZoneInv(z) && k < |z.list|
    ensures ZoneInv(Removed(z, k))
  {
    var z', r := Removed(z, k), z.list[k];
    RegionsWithout(z.list, k);
    forall i: nat | i < PAGES
      ensures Covered(z'.list, i) <==> Covered(z.list, i) && !Covers(r, i)
    {
      CoveredWithout(z.list, k, i);
    }
  }

  lemma RegionsWithout(list: seq<Region>, k: nat)
    requires RegionsOk(list) && k < |list|
    ensures RegionsOk(list[..k] + list[k + 1..])
  {
    var rest := list[..k] + list[k + 1..];
    assert forall q | q in rest :: q in list;
    forall i, j | 0 <= i < j < |rest|
      ensures Apart(rest[i], rest[j]) && rest[i].node != rest[j].node
    {
      var i', j' := if i < k then i else i + 1, if j < k then j else j + 1;
      assert rest[i] == list[i'] && rest[j] == list[j'] && i' < j';
    }
  }

  lemma CoveredWithout(list: seq<Region>, k: nat, i: nat)
    requires RegionsOk(list) && k < |list|
    ensures Covered(list[..k] + list[k + 1..], i) <==> Covered(list, i) && !Covers(list[k], i)
  {
    var rest := list[..k] + list[k + 1..];
    if Covered(rest, i) {
      var q :| q in rest && Covers(q, i);
      RestIsOther(list, k, q);
      if Covers(list[k], i) { OneRegion(list, i, q, list[k]); }
    }
    if Covered(list, i) && !Covers(list[k], i) {
      var q :| q in list && Covers(q, i);
      assert q in rest;
    }
  }

  lemma RestIsOther(list: seq<Region>, k: nat, q: Region)
    requires RegionsOk(list) && k < |list| && q in list[..k] + list[k + 1..]
    ensures q in list && q != list[k]
  {
    var rest := list[..k] + list[k + 1..];
    var j :| 0 <= j < |rest| && rest[j] == q;
    assert q == list[if j < k then j else j + 1];
  }

  /** Freeing what was just handed out restores bitmap and list. */
  lemma AllocThenFree(z: Zone, r: Region)
    requires ZoneInv(z) && r.start + r.n <= PAGES && FreeRun(z.ws, r.start, r.n)
    ensures Search(Allocated(z, r).list, r.start) == 0
    ensures Removed(Allocated(z, r), 0) == z
  {
    var a := Allocated(z, r);
    var b := Removed(a, 0);
    assert b.list == z.list;
    SameBits(b.ws, z.ws);
  }

  /** Every run of well-formed operations keeps agreement. */
  datatype Op = Alloc(node: nat, n: nat, start: nat) | Free(start: nat)

  ghost predicate Enabled(z: Zone, op: Op)
    requires ZoneInv(z)
  {
    match op
    case Alloc(node, n, start) =>
      n >= 1 && node != 0 && LowestRun(z.ws, PAGES, n, start) && forall q | q in z.list :: q.node != node
    case Free(start) => Search(z.list, start) < |z.list|
  }

  ghost function Step(z: Zone, op: Op): (r: Zone)
    requires ZoneInv(z) && Enabled(z, op)
    ensures ZoneInv(r)
  {
    match op
    case Alloc(node, n, start) =>
      AllocatedKeeps(z, Region(node, start, n));
      Allocated(z, Region(node, start, n))
    case Free(start) =>
      RemovedKeeps(z, Search(z.list, start));
      Removed(z, Search(z.list, start))
  }

  ghost predicate RunOk(z: Zone, ops: seq<Op>)
    requires ZoneInv(z)
    decreases |ops|
  {
    ops == [] || (Enabled(z, ops[0]) && RunOk(Step(z, ops[0]), ops[1..]))
  }

  ghost function Run(z: Zone, ops: seq<Op>): (r: Zone)
    requires ZoneInv(z) && RunOk(z, ops)
    ensures ZoneInv(r)
    decreases |ops|
  {
    if ops == [] then z else Run(Step(z, ops[0]), ops[1..])
  }

  // ----- the list and the bitmap in memory -----

  /** `struct vmalloc_region`; `next` is a node address, 0 for none. */
  datatype Node = Node(start: nat, npages: nat, next: nat)

  function At(list: seq<Region>, i: nat): nat { if i < |list| then list[i].node else 0 }

  ghost predicate LinkedAt(nodes: map<nat, Node>, list: seq<Region>, i: nat)
    requires i < |list|
  {
    list[i].node in nodes && nodes[list[i].node] == Node(list[i].start, list[i].n, At(list, i + 1))
  }

  ghost predicate Linked(nodes: map<nat, Node>, list: seq<Region>) {
    forall i: nat | i < |list| :: LinkedAt(nodes, list, i)
  }

  lemma LinkFront(nodes: map<nat, Node>, list: seq<Region>, r: Region)
    requires Linked(nodes, list) && forall q | q in list :: q.node != r.node
    ensures Linked(nodes[r.node := Node(r.start, r.n, At(list, 0))], [r] + list)
  {
    var nodes', l' := nodes[r.node := Node(r.start, r.n, At(list, 0))], [r] + list;
    forall i: nat | i < |l'|
      ensures LinkedAt(nodes', l', i)
    {
      if i > 0 { assert LinkedAt(nodes, list, i - 1); }
    }
  }

  lemma LinkRemoved(nodes: map<nat, Node>, list: seq<Region>, k: nat)
    requires Linked(nodes, list) && RegionsOk(list) && k < |list|
    ensures var rest := list[..k] + list[k + 1..];
            Linked(if k == 0 then nodes
                else nodes[list[k - 1].node := Node(list[k - 1].start, list[k - 1].n, At(list, k + 1))], rest)
  {
    var rest := list[..k] + list[k + 1..];
    var nodes' := if k == 0 then nodes
        else nodes[list[k - 1].node := Node(list[k - 1].start, list[k - 1].n, At(list, k + 1))];
    forall i: nat | i < |rest|
      ensures LinkedAt(nodes', rest, i)
    {
      var j := if i < k then i else i + 1;
      assert LinkedAt(nodes, list, j) && rest[i] == list[j];
    }
  }

  /** The page of the zone that an address lies in. */
  function PageOf(addr: nat): nat { if addr < BASE then 0 else (addr - BASE) / 4096 }

  class VmallocZone {
    const bitmap: array<Word>
    var head: nat
    var nodes: map<nat, Node>
    ghost var list: seq<Region>

    ghost predicate Valid()
      reads this, bitmap
    {
      bitmap.Length == WORDS && ZoneInv(Abs()) && Linked(nodes, list) && head == At(list, 0)
    }

    ghost function Abs(): (z: Zone)
      reads this, bitmap
    {
      Zone(bitmap[..], list)
    }

    /** `vmalloc_init`. */
    constructor ()
      ensures Valid() && fresh(bitmap) && list == []
    {
      bitmap := new Word[WORDS](_ => Zero());
      head, nodes, list := 0, map[], [];
      new;
      assert forall i: nat | i < PAGES :: !Bit(bitmap[..], i) && !Covered(list, i);
    }

    /** The first-fit search of `vmalloc`, which skips words that are all ones. It answers exactly
        what a bit-by-bit scan would: the lowest free run, or none. */
    method FindRun(n: nat) returns (found: bool, start: nat)
      requires bitmap.Length == WORDS && n >= 1
      ensures found ==> LowestRun(bitmap[..], PAGES, n, start)
      ensures !found ==> NoRun(bitmap[..], PAGES, n)
    {
      var run := 0;
      start := 0;
      for w := 0 to WORDS
        invariant RunSoFar(bitmap[..], n, 32 * w, run, start)
      {
        if bitmap[w] == Ones() {
          SkipFull(bitmap[..], n, w);
          run := 0;
          continue;
        }
        found, run, start := ScanWord(w, n, run, start);
        if found { return true, start; }
      }
      return false, start;
    }

    /** The inner loop of the search, over the bits of one word. */
    method ScanWord(w: nat, n: nat, run0: nat, start0: nat) returns (found: bool, run: nat, start: nat)
      requires bitmap.Length == WORDS && w < WORDS && RunSoFar(bitmap[..], n, 32 * w, run0, start0)
      ensures found ==> LowestRun(bitmap[..], PAGES, n, start)
      ensures !found ==> RunSoFar(bitmap[..], n, 32 * w + 32, run, start)
    {
      run, start := run0, start0;
      var i := 32 * w;
      for b := 0 to 32
        invariant i == 32 * w + b && RunSoFar(bitmap[..], n, i, run, start)
      {
        if i >= PAGES { break; }
        assert i / 32 == w && i % 32 == b && Bit(bitmap[..], i) == bitmap[w][b];
        if !bitmap[w][b] {
          ScanClear(bitmap[..], PAGES, n, i, run, start);
          if run == 0 { start := i; }
          run := run + 1;
          if run == n { return true, run, start; }
        } else {
          ScanSet(bitmap[..], n, i, run, start);
          run := 0;
        }
        i := i + 1;
      }
      return false, run, start;
    }

    method Put(i: nat, v: bool)
      requires bitmap.Length == WORDS && i < PAGES
      modifies bitmap
      ensures bitmap[..] == WithBit(old(bitmap[..]), i, v)
    {
      bitmap[i / 32] := bitmap[i / 32][i % 32 := v];
    }

    /** Sets or clears the bits of a region one by one. */
    method PutRun(s: nat, n: nat, v: bool)
      requires bitmap.Length == WORDS && s + n <= PAGES
      modifies bitmap
      ensures bitmap[..] == WithRun(old(bitmap[..]), s, n, v)
    {
      for j := 0 to n
        invariant bitmap[..] == WithRun(old(bitmap[..]), s, j, v)
      {
        Put(s + j, v);
      }
    }

    /** `vmalloc`: `node` is what `kmalloc` returned, `mapped` whether the pages could be mapped.
        Null for a zero count, no node or no run; else the lowest run of `n` free pages. */
    method Alloc(n: nat, node: nat, mapped: bool) returns (panic: bool, addr: nat)
      requires Valid() && forall q | q in list :: q.node != node
      modifies this, bitmap
      ensures !panic ==> Valid()
      ensures !panic && addr == 0 ==> Abs() == old(Abs()) && (n == 0 || node == 0 || NoRun(old(bitmap[..]), PAGES, n))
      ensures !panic && addr != 0 ==>
                && n >= 1 && addr >= BASE && (addr - BASE) % 4096 == 0
                && LowestRun(old(bitmap[..]), PAGES, n, (addr - BASE) / 4096)
                && Abs() == Allocated(old(Abs()), Region(node, (addr - BASE) / 4096, n))
      ensures panic == (n >= 1 && node != 0 && !mapped && !NoRun(old(bitmap[..]), PAGES, n))
    {
      if n == 0 { return false, 0; }
      if node == 0 { return false, 0; }
      var found, start := FindRun(n);
      if !found { return false, 0; }
      if !mapped { return true, 0; }
      ghost var z, r := Abs(), Region(node, start, n);
      AllocatedKeeps(z, r);
      LinkFront(nodes, list, r);
      PutRun(start, n, true);
      nodes := nodes[node := Node(start, n, head)];
      head := node;
      list := [r] + list;
      return false, BASE + start * 4096;
    }

    /** The list walk of `vfree`, with the node before the one found. */
    method FindRegion(idx: nat) returns (prev: nat, cur: nat, ghost k: nat)
      requires Valid()
      ensures k == Search(list, idx) && (cur == 0 <==> k == |list|) && cur == At(list, k)
      ensures prev == if k == 0 then 0 else list[k - 1].node
    {
      prev, cur, k := 0, head, 0;
      assert list != [] ==> LinkedAt(nodes, list, 0);
      while cur != 0 && nodes[cur].start != idx
        invariant k <= |list| && cur == At(list, k) && prev == (if k == 0 then 0 else list[k - 1].node)
        invariant k < |list| ==> LinkedAt(nodes, list, k) && list[k] in list
        invariant k + Search(list[k..], idx) == Search(list, idx)
        decreases |list| - k
      {
        assert list[k..][0] == list[k] && list[k..][1..] == list[k + 1..];
        prev := cur;
        cur := nodes[cur].next;
        k := k + 1;
        assert k < |list| ==> LinkedAt(nodes, list, k);
      }
      assert k < |list| ==> list[k..][0] == list[k];
    }

    /** `vfree`: null is ignored; an address outside the zone or that starts no region panics;
        else the region leaves the list and its pages are free again. */
    method Free(addr: nat) returns (panic: bool)
      requires Valid()
      modifies this, bitmap
      ensures Valid()
      ensures panic == (addr != 0 && (addr < BASE || addr >= LIMIT || Search(old(list), PageOf(addr)) == |old(list)|))
      ensures addr == 0 || panic ==> Abs() == old(Abs())
      ensures addr != 0 && !panic ==> Abs() == Removed(old(Abs()), Search(old(list), PageOf(addr)))
    {
      if addr == 0 { return false; }
      if addr < BASE || addr >= LIMIT { return true; }
      var prev, cur, k := FindRegion(PageOf(addr));
      if cur == 0 { return true; }
      Unlink(prev, cur, k);
      return false;
    }

    /** The part of `vfree` that takes region `k` out of the list and clears its bits. */
    method Unlink(prev: nat, cur: nat, ghost k: nat)
      requires Valid() && k < |list| && cur == list[k].node && prev == (if k == 0 then 0 else list[k - 1].node)
      modifies this, bitmap
      ensures Valid() && Abs() == Removed(old(Abs()), k)
    {
      assert LinkedAt(nodes, list, k);
      ghost var z := Abs();
      RemovedKeeps(z, k);
      LinkRemoved(nodes, list, k);
      assert k > 0 ==> LinkedAt(nodes, list, k - 1) && list[k - 1] in list;
      var npages := nodes[cur].npages;
      if prev != 0 {
        nodes := nodes[prev := nodes[prev].(next := nodes[cur].next)];
      } else {
        head := nodes[cur].next;
      }
      assert list[k] in list;
      PutRun(nodes[cur].start, npages, false);
      list := list[..k] + list[k + 1..];
    }

    /** `vmalloc_query`: the set bits and the nodes, counted; the bits are the pages of the regions. */
    method Query() returns (used: nat, regions: nat)
      requires Valid()
      ensures used == SumPages(list) && regions == |list|
    {
      used := CountBits();
      assert UsedSet(bitmap[..]) == CoveredSet(list);
      CoveredSize(list);
      regions := CountRegions();
    }

    method CountBits() returns (used: nat)
      requires bitmap.Length == WORDS
      ensures used == |UsedSet(bitmap[..])|
    {
      used := 0;
      ghost var s := UsedSet(bitmap[..]);
      for i := 0 to PAGES
        invariant used == |set j: nat | j < i && j in s|
      {
        assert (set j: nat | j < i + 1 && j in s)
            == (set j: nat | j < i && j in s) + (if i in s then {i as nat} else {});
        assert Bit(bitmap[..], i) == bitmap[i / 32][i % 32];
        if bitmap[i / 32][i % 32] { used := used + 1; }
      }
      assert (set j: nat | j < PAGES && j in s) == s;
    }

    method CountRegions() returns (regions: nat)
      requires Valid()
      ensures regions == |list|
    {
      regions := 0;
      var cur := head;
      assert forall i | 0 <= i < |list| :: list[i] in list;
      while cur != 0
        invariant regions <= |list| && cur == At(list, regions)
        decreases |list| - regions
      {
        assert LinkedAt(nodes, list, regions);
        cur := nodes[cur].next;
        regions := regions + 1;
      }
    }

    /** `vbrk`: the lowest free page, or the end of the zone when every page is taken. */
    method Brk() returns (addr: nat)
      requires Valid()
      ensures (forall i: nat | i < PAGES :: Covered(list, i)) <==> addr == LIMIT
      ensures addr != LIMIT ==> var i := (addr - BASE) / 4096;
                                addr >= BASE && i < PAGES && !Covered(list, i) && forall j: nat | j < i ::
                                    Covered(list, j)
    {
      for i := 0 to PAGES
        invariant forall j: nat | j < i :: Bit(bitmap[..], j)
      {
        if !bitmap[i / 32][i % 32] {
          assert !Bit(bitmap[..], i);
          return BASE + i * 4096;
        }
      }
      return LIMIT;
    }
  }

  ghost function UsedSet(ws: seq<Word>): (s: set<nat>)
    requires |ws| == WORDS
  {
    set i: nat | i < PAGES && Bit(ws, i)
  }

  ghost function CoveredSet(list: seq<Region>): (s: set<nat>) {
    set i: nat | i < PAGES && Covered(list, i)
  }

  function SumPages(list: seq<Region>): nat { if list == [] then 0 else list[0].n + SumPages(list[1..]) }

  /** The pages taken are as many as the regions hold together. */
  lemma {:induction false} CoveredSize(list: seq<Region>)
    requires RegionsOk(list)
    ensures |CoveredSet(list)| == SumPages(list)
  {
    if list == [] {
      assert CoveredSet(list) == {};
    } else {
      var r, rest := list[0], list[1..];
      RegionsWithout(list, 0);
      assert list[..0] + list[1..] == rest;
      CoveredSize(rest);
      CoveredSplit(list);
    }
  }

  lemma CoveredSplit(list: seq<Region>)
    requires RegionsOk(list) && list != []
    ensures CoveredSet(list) == Span(list[0].start, list[0].start + list[0].n) + CoveredSet(list[1..])
    ensures Span(list[0].start, list[0].start + list[0].n) !! CoveredSet(list[1..])
  {
    var r, rest := list[0], list[1..];
    assert list[..0] + list[1..] == rest && r in list && r.start + r.n <= PAGES;
    forall i: nat
      ensures Covered(rest, i) <==> Covered(list, i) && !Covers(r, i)
    {
      CoveredWithout(list, 0, i);
    }
    assert forall i: nat | Covers(r, i) :: Covered(list, i);
  }

  /** A full word restarts the scan behind it. */
  lemma SkipFull(ws: seq<Word>, n: nat, w: nat)
    requires w < |ws| && ws[w] == Ones() && n >= 1 && forall s: nat | s + n <= 32 * w :: !FreeRun(ws, s, n)
    ensures RunSoFar(ws, n, 32 * w + 32, 0, 0)
  {
    assert forall i: nat | 32 * w <= i < 32 * w + 32 :: Bit(ws, i);
    forall s: nat | s + n <= 32 * w + 32
      ensures !FreeRun(ws, s, n)
    {
      if s + n > 32 * w {
        assert Bit(ws, s + n - 1);
      }
    }
  }
}
