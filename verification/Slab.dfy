/**
  The chunk pool behind `kmalloc`: six size classes, one intrusive free list per class threaded
  through the free objects, and one page header per pool page. The lists and headers in memory
  refine a partition of the objects of the mapped pages into live and free ones.
 */
module Slab {
  const HDR: nat := 8
  const POOL_BASE: nat := 0xD0000     // first page of the zone
  const CLASSES: nat := 6

  /** An address, as its page number and its offset in the page; `a & ~0xFFF` keeps the page. */
  datatype Addr = Addr(page: nat, off: nat)
  const NULL := Addr(0, 0)

  /** Object size of a class: 8, 16, ..., 256. */
  function SizeOf(c: nat): (n: nat)
    requires c < CLASSES
  {
    [8, 16, 32, 64, 128, 256][c]
  }

  /** `i * SizeOf(c)`, one product per class. */
  function Offset(c: nat, i: nat): (n: nat)
    requires c < CLASSES
  {
    if c == 0 then 8 * i else if c == 1 then 16 * i else if c == 2 then 32 * i
    else if c == 3 then 64 * i else if c == 4 then 128 * i else 256 * i
  }

  /** Objects per page of a class: as many as fit after the header. */
  function PerPage(c: nat): (n: nat)
    requires c < CLASSES
    ensures HDR + Offset(c, n) <= 4096 < HDR + Offset(c, n + 1) && 15 <= n <= 511
  {
    [511, 255, 127, 63, 31, 15][c]
  }

  /** The address of object `i` of a page. */
  function Slot(p: nat, c: nat, i: nat): (a: Addr)
    requires c < CLASSES
  {
    Addr(p, HDR + Offset(c, i))
  }

  lemma OffsetSpaced(c: nat, i: nat, j: nat)
    requires c < CLASSES
    ensures i < j ==> Offset(c, i) + SizeOf(c) <= Offset(c, j)
    ensures Offset(c, i + 1) == Offset(c, i) + SizeOf(c)
    ensures i < PerPage(c) ==> HDR + Offset(c, i) + SizeOf(c) <= 4096
  {
  }

  /** A page header. */
  datatype Header = Header(cls: nat, free: nat, total: nat)

  /** `a` is object `i` of a mapped page. */
  ghost predicate IsSlot(pages: map<nat, Header>, a: Addr, i: nat) {
    a.page in pages && pages[a.page].cls < CLASSES && i < PerPage(pages[a.page].cls)
        && a == Slot(a.page, pages[a.page].cls, i)
  }

  ghost predicate IsObject(pages: map<nat, Header>, a: Addr) {
    exists i: nat :: IsSlot(pages, a, i)
  }

  /** Objects lie inside their page, after the header, and different ones never overlap. */
  lemma ObjectsDisjoint(pages: map<nat, Header>, a: Addr, b: Addr)
    requires IsObject(pages, a) && IsObject(pages, b) && a != b
    ensures HDR <= a.off && a.off + SizeOf(pages[a.page].cls) <= 4096
    ensures a.page != b.page || a.off + SizeOf(pages[a.page].cls) <= b.off || b.off + SizeOf(pages[a.page].cls) <= a.off
  {
    var i: nat :| IsSlot(pages, a, i);
    var j: nat :| IsSlot(pages, b, j);
    OffsetSpaced(pages[a.page].cls, i, j);
    OffsetSpaced(pages[a.page].cls, j, i);
  }

  /** Entries of a free list that lie in page `p`. */
  function CountIn(list: seq<Addr>, p: nat): (n: nat)
    ensures n <= |list|
  {
    if list == [] then 0 else (if list[0].page == p then 1 else 0) + CountIn(list[1..], p)
  }

  /** The list without the entries of page `p`. */
  function Without(list: seq<Addr>, p: nat): (r: seq<Addr>)
    ensures |r| == |list| - CountIn(list, p)
    ensures forall a :: a in r <==> a in list && a.page != p
  {
    if list == [] then [] else
      (if list[0].page == p then [] else [list[0]]) + Without(list[1..], p)
  }

  ghost predicate NoDup(list: seq<Addr>) {
    forall i, j | 0 <= i < j < |list| :: list[i] != list[j]
  }

  lemma {:induction false} WithoutKeeps(list: seq<Addr>, p: nat, q: nat)
    requires NoDup(list)
    ensures NoDup(Without(list, p)) && CountIn(Without(list, p), q) == if q == p then 0 else CountIn(list, q)
  {
    if list != [] {
      WithoutKeeps(list[1..], p, q);
      var rest := Without(list[1..], p);
      if list[0].page != p {
        assert Without(list, p) == [list[0]] + rest && ([list[0]] + rest)[1..] == rest;
        assert list[0] !in rest by {
          assert forall i | 0 < i < |list| :: list[0] != list[i];
        }
      } else {
        assert Without(list, p) == rest;
      }
    }
  }

  lemma {:induction false} CountZero(list: seq<Addr>, p: nat)
    requires forall a | a in list :: a.page != p
    ensures CountIn(list, p) == 0
  {
    if list != [] { CountZero(list[1..], p); }
  }

  lemma {:induction false} CountAll(list: seq<Addr>, p: nat)
    requires forall a | a in list :: a.page == p
    ensures CountIn(list, p) == |list|
  {
    if list != [] { CountAll(list[1..], p); }
  }

  /** Total capacity of a set of pages. */
  ghost function Capacity(pages: map<nat, Header>): (n: nat)
    decreases |pages|
  {
    if pages == map[] then 0 else
      var p :| p in pages;
      pages[p].total + Capacity(pages - {p})
  }

  lemma {:induction false} CapacityWithout(pages: map<nat, Header>, p: nat)
    requires p in pages
    ensures Capacity(pages) == pages[p].total + Capacity(pages - {p})
    decreases |pages|
  {
    var q :| q in pages && Capacity(pages) == pages[q].total + Capacity(pages - {q});
    if q != p {
      CapacityWithout(pages - {q}, p);
      CapacityWithout(pages - {p}, q);
      assert pages - {q} - {p} == pages - {p} - {q};
    }
  }

  lemma CapacityUpdate(pages: map<nat, Header>, p: nat, h: Header)
    requires p in pages && h.total == pages[p].total
    ensures Capacity(pages[p := h]) == Capacity(pages)
  {
    CapacityWithout(pages, p);
    CapacityWithout(pages[p := h], p);
    assert pages[p := h] - {p} == pages - {p};
  }

  // ----- the abstract pool -----

  datatype Pool = Pool(lists: seq<seq<Addr>>, pages: map<nat, Header>, live: set<Addr>, vptr: nat)

  ghost function LiveIn(live: set<Addr>, p: nat): (s: set<Addr>) {
    set a | a in live && a.page == p
  }

  /** A page header is right: counted entries, counted live objects, and not wholly free unless in `full`. */
  ghost predicate PageOk(s: Pool, full: set<nat>, p: nat)
    requires |s.lists| == CLASSES && p in s.pages
  {
    var h := s.pages[p];
    && POOL_BASE <= p < s.vptr && h.cls < CLASSES
    && h.total == PerPage(h.cls) && h.free == CountIn(s.lists[h.cls], p)
    && h.free + |LiveIn(s.live, p)| == h.total
    && (p !in full ==> h.free < h.total)
  }

  ghost predicate PagesInv(s: Pool, full: set<nat>)
    requires |s.lists| == CLASSES
  {
    s.vptr >= POOL_BASE && forall p | p in s.pages :: PageOk(s, full, p)
  }

  /** `a` is a free object of class `c`. */
  ghost predicate FreeObject(s: Pool, c: nat, a: Addr) {
    IsObject(s.pages, a) && s.pages[a.page].cls == c && a !in s.live
  }

  /** A free list has no duplicate and names exactly the free objects of its class. */
  ghost predicate ListOk(s: Pool, c: nat)
    requires |s.lists| == CLASSES && c < CLASSES
  {
    NoDup(s.lists[c]) && forall a :: a in s.lists[c] <==> FreeObject(s, c, a)
  }

  ghost predicate ListsInv(s: Pool)
    requires |s.lists| == CLASSES
  {
    (forall c: nat | c < CLASSES :: ListOk(s, c)) && forall a | a in s.live :: IsObject(s.pages, a)
  }

  function FreeObjects(lists: seq<seq<Addr>>): nat
    requires |lists| == CLASSES
  {
    |lists[0]| + |lists[1]| + |lists[2]| + |lists[3]| + |lists[4]| + |lists[5]|
  }

  ghost predicate Balanced(s: Pool)
    requires |s.lists| == CLASSES
  {
    |s.live| + FreeObjects(s.lists) == Capacity(s.pages)
  }

  /** The pool invariant; pages in `full` may be wholly free. */
  ghost predicate PoolInv(s: Pool, full: set<nat>) {
    |s.lists| == CLASSES && PagesInv(s, full) && ListsInv(s) && Balanced(s)
  }

  /** The objects of a page in order: the list that a refill threads. */
  function Slots(p: nat, c: nat): (r: seq<Addr>)
    requires c < CLASSES
  {
    seq(PerPage(c), i requires 0 <= i => Slot(p, c, i))
  }

  ghost function Refilled(s: Pool, c: nat): (r: Pool)
    requires |s.lists| == CLASSES && c < CLASSES
  {
    s.(lists := s.lists[c := Slots(s.vptr, c)],
       pages := s.pages[s.vptr := Header(c, PerPage(c), PerPage(c))],
       vptr := s.vptr + 1)
  }

  ghost function Popped(s: Pool, c: nat): (r: Pool)
    requires |s.lists| == CLASSES && c < CLASSES && s.lists[c] != [] && s.lists[c][0].page in s.pages
    requires s.pages[s.lists[c][0].page].free > 0
  {
    var a := s.lists[c][0];
    var h := s.pages[a.page];
    s.(lists := s.lists[c := s.lists[c][1..]], pages := s.pages[a.page := h.(free := h.free - 1)], live := s.live + {a})
  }

  ghost function Pushed(s: Pool, a: Addr): (r: Pool)
    requires |s.lists| == CLASSES && a.page in s.pages && s.pages[a.page].cls < CLASSES
  {
    var h := s.pages[a.page];
    s.(lists := s.lists[h.cls := [a] + s.lists[h.cls]], pages := s.pages[a.page := h.(free := h.free + 1)],
        live := s.live - {a})
  }

  ghost function Dropped(s: Pool, p: nat): (r: Pool)
    requires |s.lists| == CLASSES && p in s.pages && s.pages[p].cls < CLASSES
  {
    var c := s.pages[p].cls;
    s.(lists := s.lists[c := Without(s.lists[c], p)], pages := s.pages - {p})
  }

  /** Being an object depends on the classes of the pages alone. */
  lemma SameObjects(pages: map<nat, Header>, pages': map<nat, Header>, a: Addr)
    requires (a.page in pages) == (a.page in pages')
    requires a.page in pages ==> pages[a.page].cls == pages'[a.page].cls
    ensures IsObject(pages, a) == IsObject(pages', a)
  {
    if IsObject(pages, a) {
      var i: nat :| IsSlot(pages, a, i);
      assert IsSlot(pages', a, i);
    }
    if IsObject(pages', a) {
      var i: nat :| IsSlot(pages', a, i);
      assert IsSlot(pages, a, i);
    }
  }

  // ----- taking an object -----

  lemma PoppedPages(s: Pool, full: set<nat>, c: nat)
    requires |s.lists| == CLASSES && PagesInv(s, full) && c < CLASSES && s.lists[c] != []
    requires var a := s.lists[c][0]; a.page in s.pages && s.pages[a.page].cls == c && a !in s.live
    ensures s.pages[s.lists[c][0].page].free > 0
    ensures PagesInv(Popped(s, c), full - {s.lists[c][0].page})
  {
    var a := s.lists[c][0];
    var p := a.page;
    assert PageOk(s, full, p);
    var r := Popped(s, c);
    forall q | q in r.pages
      ensures PageOk(r, full - {p}, q)
    {
      assert PageOk(s, full, q);
      assert LiveIn(r.live, q) == if q == p then LiveIn(s.live, q) + {a} else LiveIn(s.live, q);
    }
  }

  lemma PoppedLists(s: Pool, c: nat)
    requires |s.lists| == CLASSES && ListsInv(s) && c < CLASSES && s.lists[c] != []
    requires s.lists[c][0].page in s.pages && s.pages[s.lists[c][0].page].free > 0
    ensures ListsInv(Popped(s, c))
  {
    var a, l := s.lists[c][0], s.lists[c];
    var r := Popped(s, c);
    assert ListOk(s, c) && a in l && l == [a] + l[1..];
    assert a !in l[1..] by { assert forall i | 0 < i < |l| :: l[0] != l[i]; }
    forall b ensures IsObject(s.pages, b) == IsObject(r.pages, b) { SameObjects(s.pages, r.pages, b); }
    forall d: nat | d < CLASSES
      ensures ListOk(r, d)
    {
      assert ListOk(s, d);
      forall b
        ensures b in r.lists[d] <==> FreeObject(r, d, b)
      {
        assert b in s.lists[d] <==> FreeObject(s, d, b);
      }
    }
  }

  /** Taking the first object of a class: it was free, it is live now, and its page is not wholly free. */
  lemma PoppedKeeps(s: Pool, full: set<nat>, c: nat)
    requires PoolInv(s, full) && c < CLASSES && s.lists[c] != []
    ensures var a := s.lists[c][0];
            && FreeObject(s, c, a) && s.pages[a.page].free > 0
            && PoolInv(Popped(s, c), full - {a.page})
  {
    HeadIsFree(s, c);
    PoppedPages(s, full, c);
    PoppedLists(s, c);
    PoppedBalanced(s, c);
  }

  lemma HeadIsFree(s: Pool, c: nat)
    requires |s.lists| == CLASSES && ListsInv(s) && c < CLASSES && s.lists[c] != []
    ensures FreeObject(s, c, s.lists[c][0])
  {
    assert ListOk(s, c) && s.lists[c][0] in s.lists[c];
  }

  lemma PoppedBalanced(s: Pool, c: nat)
    requires |s.lists| == CLASSES && Balanced(s) && c < CLASSES && s.lists[c] != []
    requires var a := s.lists[c][0]; a.page in s.pages && s.pages[a.page].free > 0 && a !in s.live
    ensures Balanced(Popped(s, c))
  {
    var a := s.lists[c][0];
    CapacityUpdate(s.pages, a.page, Popped(s, c).pages[a.page]);
  }

  // ----- giving an object back -----

  lemma PushedPages(s: Pool, full: set<nat>, a: Addr)
    requires |s.lists| == CLASSES && PagesInv(s, full) && a in s.live && a.page in s.pages
    ensures s.pages[a.page].cls < CLASSES && PagesInv(Pushed(s, a), full + {a.page})
  {
    var p := a.page;
    assert PageOk(s, full, p);
    var r := Pushed(s, a);
    var c := s.pages[p].cls;
    assert r.lists[c][1..] == s.lists[c];
    forall q | q in r.pages
      ensures PageOk(r, full + {p}, q)
    {
      assert PageOk(s, full, q);
      assert LiveIn(s.live, q) == if q == p then LiveIn(r.live, q) + {a} else LiveIn(r.live, q);
    }
  }

  lemma PushedLists(s: Pool, a: Addr)
    requires |s.lists| == CLASSES && ListsInv(s) && a in s.live && a.page in s.pages && s.pages[a.page].cls < CLASSES
    ensures ListsInv(Pushed(s, a))
  {
    var r, c := Pushed(s, a), s.pages[a.page].cls;
    forall b ensures IsObject(s.pages, b) == IsObject(r.pages, b) { SameObjects(s.pages, r.pages, b); }
    assert ListOk(s, c) && a !in s.lists[c];
    forall d: nat | d < CLASSES
      ensures ListOk(r, d)
    {
      assert ListOk(s, d);
      forall b
        ensures b in r.lists[d] <==> FreeObject(r, d, b)
      {
        assert b in s.lists[d] <==> FreeObject(s, d, b);
      }
    }
  }

  lemma PushedKeeps(s: Pool, full: set<nat>, a: Addr)
    requires PoolInv(s, full) && a in s.live
    ensures a.page in s.pages && s.pages[a.page].cls < CLASSES
    ensures PoolInv(Pushed(s, a), full + {a.page})
  {
    assert IsObject(s.pages, a);
    PushedPages(s, full, a);
    PushedLists(s, a);
    CapacityUpdate(s.pages, a.page, Pushed(s, a).pages[a.page]);
    assert s.live == (s.live - {a}) + {a};
  }

  // ----- releasing and adding pages -----

  /** A wholly free page holds no live object. */
  lemma WhollyFree(s: Pool, full: set<nat>, p: nat)
    requires |s.lists| == CLASSES && PagesInv(s, full) && p in s.pages && s.pages[p].free == s.pages[p].total
    ensures forall a | a in s.live :: a.page != p
  {
    assert PageOk(s, full, p) && LiveIn(s.live, p) == {};
    forall a | a in s.live
      ensures a.page != p
    {
      assert a !in LiveIn(s.live, p);
    }
  }

  lemma DroppedPages(s: Pool, full: set<nat>, p: nat)
    requires |s.lists| == CLASSES && PagesInv(s, full) && p in s.pages && s.pages[p].cls < CLASSES
    requires NoDup(s.lists[s.pages[p].cls])
    ensures PagesInv(Dropped(s, p), full - {p})
  {
    var r := Dropped(s, p);
    var c := s.pages[p].cls;
    forall q | q in r.pages
      ensures PageOk(r, full - {p}, q)
    {
      assert PageOk(s, full, q);
      WithoutKeeps(s.lists[c], p, q);
    }
  }

  lemma DroppedLists(s: Pool, p: nat)
    requires |s.lists| == CLASSES && ListsInv(s) && p in s.pages && s.pages[p].cls < CLASSES
    requires forall a | a in s.live :: a.page != p
    ensures ListsInv(Dropped(s, p))
  {
    var r := Dropped(s, p);
    var c := s.pages[p].cls;
    assert ListOk(s, c);
    forall b
      ensures IsObject(r.pages, b) == (IsObject(s.pages, b) && b.page != p)
    {
      if b.page != p { SameObjects(s.pages, r.pages, b); }
    }
    forall d: nat | d < CLASSES
      ensures ListOk(r, d)
    {
      assert ListOk(s, d);
      WithoutKeeps(s.lists[c], p, p);
    }
  }

  /** Releasing a wholly free page removes exactly its objects from the class list. */
  lemma DroppedKeeps(s: Pool, full: set<nat>, p: nat)
    requires PoolInv(s, full) && p in s.pages && s.pages[p].free == s.pages[p].total
    ensures s.pages[p].cls < CLASSES && PoolInv(Dropped(s, p), full - {p})
    ensures forall a :: IsObject(s.pages, a) && a.page == p ==>
            a in s.lists[s.pages[p].cls] && a !in Dropped(s, p).lists[s.pages[p].cls]
  {
    assert PageOk(s, full, p) && ListOk(s, s.pages[p].cls);
    WhollyFree(s, full, p);
    DroppedPages(s, full, p);
    DroppedLists(s, p);
    CapacityWithout(s.pages, p);
  }

  lemma FreshPage(s: Pool, full: set<nat>)
    requires |s.lists| == CLASSES && PagesInv(s, full)
    ensures s.vptr !in s.pages
  {
    forall q | q in s.pages ensures q != s.vptr { assert PageOk(s, full, q); }
  }

  lemma RefilledPages(s: Pool, full: set<nat>, c: nat)
    requires |s.lists| == CLASSES && PagesInv(s, full) && ListsInv(s) && c < CLASSES && s.lists[c] == []
    ensures PagesInv(Refilled(s, c), full + {s.vptr})
  {
    var r, p := Refilled(s, c), s.vptr;
    CountAll(r.lists[c], p);
    forall q | q in r.pages
      ensures PageOk(r, full + {p}, q)
    {
      if q == p {
        forall a | a in s.live ensures a.page != p { assert IsObject(s.pages, a) && PageOk(s, full, a.page); }
        assert LiveIn(s.live, p) == {};
      } else {
        assert PageOk(s, full, q);
        if s.pages[q].cls == c { CountZero(r.lists[c], q); }
      }
    }
  }

  lemma RefilledLists(s: Pool, full: set<nat>, c: nat)
    requires |s.lists| == CLASSES && PagesInv(s, full) && ListsInv(s) && c < CLASSES && s.lists[c] == []
    ensures ListsInv(Refilled(s, c))
  {
    var r, p := Refilled(s, c), s.vptr;
    FreshPage(s, full);
    forall b
      ensures IsObject(r.pages, b) == (IsObject(s.pages, b) || b in r.lists[c])
    {
      if b.page != p {
        SameObjects(s.pages, r.pages, b);
      } else if IsObject(r.pages, b) {
        var i: nat :| IsSlot(r.pages, b, i);
        assert r.lists[c][i] == b;
      }
      if b in r.lists[c] {
        var i :| 0 <= i < |r.lists[c]| && r.lists[c][i] == b;
        assert IsSlot(r.pages, b, i);
      }
    }
    assert NoDup(r.lists[c]) by {
      forall i, j | 0 <= i < j < |r.lists[c]| ensures r.lists[c][i] != r.lists[c][j] { OffsetSpaced(c, i, j); }
    }
    forall a | a in s.live ensures a.page != p { assert IsObject(s.pages, a); }
    forall d: nat | d < CLASSES
      ensures ListOk(r, d)
    {
      assert ListOk(s, d);
      forall b
        ensures b in r.lists[d] <==> FreeObject(r, d, b)
      {
        assert b in s.lists[d] <==> FreeObject(s, d, b);
      }
    }
  }

  lemma RefilledBalanced(s: Pool, c: nat)
    requires |s.lists| == CLASSES && Balanced(s) && c < CLASSES && s.lists[c] == [] && s.vptr !in s.pages
    ensures Balanced(Refilled(s, c))
  {
    var r, p := Refilled(s, c), s.vptr;
    CapacityWithout(r.pages, p);
    assert r.pages - {p} == s.pages;
  }

  /** A new page, all free, for a class with an empty list. */
  lemma RefilledKeeps(s: Pool, full: set<nat>, c: nat)
    requires PoolInv(s, full) && c < CLASSES && s.lists[c] == []
    ensures PoolInv(Refilled(s, c), full + {s.vptr})
  {
    FreshPage(s, full);
    RefilledPages(s, full, c);
    RefilledLists(s, full, c);
    RefilledBalanced(s, c);
  }

  // ----- the lists in memory -----

  function At(list: seq<Addr>, i: nat): Addr { if i < |list| then list[i] else NULL }

  /** Entry `i` of a list holds, in its first word, the address of the next entry. */
  ghost predicate ThreadAt(link: map<Addr, Addr>, list: seq<Addr>, i: nat)
    requires i < |list|
  {
    list[i] in link && link[list[i]] == At(list, i + 1) && list[i] != NULL
  }

  ghost predicate Threaded(link: map<Addr, Addr>, head: Addr, list: seq<Addr>) {
    head == At(list, 0) && forall i: nat | i < |list| :: ThreadAt(link, list, i)
  }

  lemma KeepThreaded(link: map<Addr, Addr>, x: Addr, v: Addr, head: Addr, list: seq<Addr>)
    requires Threaded(link, head, list) && x !in list
    ensures Threaded(link[x := v], head, list)
  {
    var link' := link[x := v];
    forall i: nat | i < |list| ensures ThreadAt(link', list, i) { assert ThreadAt(link, list, i); }
  }

  lemma ThreadTail(link: map<Addr, Addr>, head: Addr, list: seq<Addr>)
    requires Threaded(link, head, list) && list != []
    ensures head in link && head == list[0] && Threaded(link, link[head], list[1..])
  {
    assert ThreadAt(link, list, 0);
    forall i: nat | i < |list| - 1 ensures ThreadAt(link, list[1..], i) { assert ThreadAt(link, list, i + 1); }
  }

  lemma ThreadPush(link: map<Addr, Addr>, head: Addr, list: seq<Addr>, a: Addr)
    requires Threaded(link, head, list) && a !in list && a != NULL
    ensures Threaded(link[a := head], a, [a] + list)
  {
    var link', l' := link[a := head], [a] + list;
    forall i: nat | i < |l'|
      ensures ThreadAt(link', l', i)
    {
      if i > 0 { assert ThreadAt(link, list, i - 1); }
    }
  }

  /** Unlinking the entry after a non-empty prefix `kept`. */
  lemma ThreadSkip(link: map<Addr, Addr>, head: Addr, kept: seq<Addr>, rest: seq<Addr>)
    requires Threaded(link, head, kept + rest) && NoDup(kept + rest) && kept != [] && rest != []
    ensures rest[0] in link && Threaded(link[kept[|kept| - 1] := link[rest[0]]], head, kept + rest[1..])
  {
    var l, l', k := kept + rest, kept + rest[1..], |kept| - 1;
    assert ThreadAt(link, l, |kept|) && l[|kept|] == rest[0];
    var link' := link[kept[k] := link[rest[0]]];
    assert l[k] == kept[k];
    forall i: nat | i < |l'|
      ensures ThreadAt(link', l', i)
    {
      var j := if i < |kept| then i else i + 1;
      assert ThreadAt(link, l, j) && l[j] == l'[i];
      assert i != k ==> l[j] != l[k];
    }
  }

  lemma {:induction false} SweepSpec(kept: seq<Addr>, rest: seq<Addr>, p: nat)
    requires rest != []
    ensures rest[0].page == p ==> kept + Without(rest, p) == kept + Without(rest[1..], p)
    ensures rest[0].page != p ==> kept + Without(rest, p) == (kept + [rest[0]]) + Without(rest[1..], p)
    ensures kept + rest == (kept + [rest[0]]) + rest[1..] && Last(kept + [rest[0]]) == rest[0]
  {
    ConcatFacts(kept, rest[0], rest[1..]);
    ConcatFacts(kept, rest[0], Without(rest[1..], p));
    assert rest == [rest[0]] + rest[1..];
    assert [] + Without(rest[1..], p) == Without(rest[1..], p);
  }

  lemma ConcatFacts(a: seq<Addr>, x: Addr, b: seq<Addr>)
    ensures a + ([x] + b) == (a + [x]) + b && (a + [x])[|a|] == x
  {
  }

  /** The last entry of a list, null if there is none. */
  ghost function Last(list: seq<Addr>): Addr { if list == [] then NULL else list[|list| - 1] }

  /** The cell after `kept` names the first entry of `rest`, which is not null. */
  lemma NothingSwept(rest: seq<Addr>, p: nat)
    ensures [] + rest == rest && [] + Without(rest, p) == Without(rest, p)
  {
  }

  lemma NothingLeft(kept: seq<Addr>, p: nat)
    ensures kept + [] == kept && Without([], p) == []
  {
  }

  lemma NextCell(link: map<Addr, Addr>, head: Addr, kept: seq<Addr>, rest: seq<Addr>)
    requires Threaded(link, head, kept + rest)
    ensures if Last(kept) == NULL then head == At(rest, 0) else Last(kept) in link && link[Last(kept)] == At(rest, 0)
    ensures rest != [] ==> rest[0] != NULL
  {
    var l := kept + rest;
    if kept != [] { assert ThreadAt(link, l, |kept| - 1); }
    if rest != [] { assert ThreadAt(link, l, |kept|); }
  }

  lemma DropKeepsNoDup(kept: seq<Addr>, rest: seq<Addr>)
    requires NoDup(kept + rest) && rest != []
    ensures NoDup(kept + rest[1..])
  {
    var l, l' := kept + rest, kept + rest[1..];
    forall i, j | 0 <= i < j < |l'|
      ensures l'[i] != l'[j]
    {
      assert l'[i] == l[if i < |kept| then i else i + 1] && l'[j] == l[if j < |kept| then j else j + 1];
    }
  }

  /** `cpool_hdr_t`. */
  datatype PageHeader = PageHeader(objSize: nat, free: nat, total: nat)

  function Stored(h: Header): PageHeader
    requires h.cls < CLASSES
  {
    PageHeader(SizeOf(h.cls), h.free, h.total)
  }

  /** `cache_index`: the first class whose objects hold `size` bytes, or -1 if none does. */
  method CacheIndex(size: nat) returns (c: int)
    ensures c == -1 <==> size > 256
    ensures c != -1 ==> 0 <= c < CLASSES && SizeOf(c) >= size && forall d: nat | d < c :: SizeOf(d) < size
    ensures 0 < size <= 256 ==> c == ClassFor(size)
  {
    for i := 0 to CLASSES
      invariant forall d: nat | d < i :: SizeOf(d) < size
    {
      if SizeOf(i) >= size { return i; }
    }
    assert SizeOf(5) < size;
    return -1;
  }

  /** `cache_index_exact`: the class with exactly this object size; it panics when there is none. */
  method CacheIndexExact(size: nat) returns (panic: bool, c: nat)
    ensures panic <==> forall d: nat | d < CLASSES :: SizeOf(d) != size
    ensures !panic ==> c < CLASSES && SizeOf(c) == size && forall d: nat | d < CLASSES && SizeOf(d) == size :: d == c
  {
    c := 0;
    for i := 0 to CLASSES
      invariant forall d: nat | d < i :: SizeOf(d) != size
    {
      if SizeOf(i) == size { return false, i; }
    }
    return true, c;
  }

  class ChunkPool {
    var heads: seq<Addr>
    var link: map<Addr, Addr>
    var headers: map<nat, PageHeader>
    var vptr: nat
    var pageCount: nat
    var usedCount: nat
    ghost var pool: Pool

    /** Memory and counters show the abstract pool. */
    ghost predicate Shows()
      reads this
    {
      && |heads| == CLASSES && |pool.lists| == CLASSES && vptr == pool.vptr
      && (forall c: nat | c < CLASSES :: Threaded(link, heads[c], pool.lists[c]))
      && (forall p | p in pool.pages ::
            p in headers && pool.pages[p].cls < CLASSES && headers[p] == Stored(pool.pages[p]))
      && pageCount == |pool.pages| && usedCount == |pool.live|
    }

    ghost predicate Valid()
      reads this
    {
      PoolInv(pool, {}) && Shows()
    }

    /** `kmalloc_init`. */
    constructor ()
      ensures Valid() && pool == Pool(seq(CLASSES, _ => []), map[], {}, POOL_BASE)
    {
      heads := seq(CLASSES, _ => NULL);
      link, headers, vptr, pageCount, usedCount := map[], map[], POOL_BASE, 0, 0;
      pool := Pool(seq(CLASSES, _ => []), map[], {}, POOL_BASE);
    }

    /** `cpool_refill`; `mapped` is the answer of `alloc_page`. */
    method Refill(c: nat, mapped: bool) returns (panic: bool)
      requires Shows() && c < CLASSES && pool.lists[c] == [] && vptr > 0 && vptr !in pool.pages
      requires forall d: nat, a | d < CLASSES && d != c && a in pool.lists[d] :: a.page != vptr
      modifies this
      ensures panic == ((old(vptr) + 1) * 4096 > 0xEEFF_FFFF || !mapped)
      ensures Shows() && pool == if panic then old(pool) else Refilled(old(pool), c)
    {
      if (vptr + 1) * 4096 > 0xEEFF_FFFF { return true; }
      if !mapped { return true; }
      var n, p := PerPage(c), vptr;
      headers := headers[p := PageHeader(SizeOf(c), n, n)];
      ThreadSlots(p, c, pool.lists);
      heads := heads[c := Addr(p, HDR)];
      vptr := vptr + 1;
      pageCount := pageCount + 1;
      assert |Refilled(pool, c).pages| == |pool.pages| + 1;
      pool := Refilled(pool, c);
      return false;
    }

    /** The head of a class list comes off. */
    method Pop(c: nat) returns (a: Addr)
      requires Shows() && c < CLASSES && pool.lists[c] != []
      requires var x := pool.lists[c][0]; x.page in pool.pages && pool.pages[x.page].free > 0 && x !in pool.live
      modifies this
      ensures Shows() && a == old(pool).lists[c][0] && pool == Popped(old(pool), c)
    {
      ThreadTail(link, heads[c], pool.lists[c]);
      a := heads[c];
      heads := heads[c := link[a]];
      headers := headers[a.page := headers[a.page].(free := headers[a.page].free - 1)];
      usedCount := usedCount + 1;
      assert |Popped(pool, c).pages| == |pool.pages| by {
        assert Popped(pool, c).pages.Keys == pool.pages.Keys;
      }
      pool := Popped(pool, c);
    }

    /** `kmalloc`: null for size 0; a panic for more than 256 bytes or when a page is needed and
        cannot be had; else the first free object of the first class that fits, which becomes live. */
    method Alloc(size: nat, mapped: bool) returns (panic: bool, a: Addr)
      requires Valid()
      modifies this
      ensures Valid()
      ensures panic || size == 0 ==> pool == old(pool) && a == NULL
      ensures panic == (size > 256 || (size > 0 && old(pool).lists[ClassFor(size)] == []
                                       && ((old(vptr) + 1) * 4096 > 0xEEFF_FFFF || !mapped)))
      ensures !panic && size > 0 ==> size <= 256 && CanTake(old(pool), ClassFor(size))
      ensures !panic && size > 0 ==> var t := Stocked(old(pool), ClassFor(size));
                                     a == t.lists[ClassFor(size)][0] && pool == Popped(t, ClassFor(size))
    {
      if size == 0 { return false, NULL; }
      if size > 256 { return true, NULL; }
      var c := CacheIndex(size);
      AllocReady(pool, c);
      AllocKeeps(pool, c);
      assert Threaded(link, heads[c], pool.lists[c]);
      assert pool.lists[c] != [] ==> ThreadAt(link, pool.lists[c], 0);
      if heads[c] == NULL {
        panic := Refill(c, mapped);
        if panic { return true, NULL; }
      }
      a := Pop(c);
      return false, a;
    }

    /** An object goes to the front of its class list. */
    method Push(a: Addr, c: nat)
      requires Shows() && a in pool.live && a.page in pool.pages && c == pool.pages[a.page].cls && a != NULL
      requires forall d: nat | d < CLASSES :: a !in pool.lists[d]
      modifies this
      ensures Shows() && pool == Pushed(old(pool), a)
    {
      ghost var s, link0, heads0 := pool, link, heads;
      link := link[a := heads[c]];
      heads := heads[c := a];
      headers := headers[a.page := headers[a.page].(free := headers[a.page].free + 1)];
      assert s.live == (s.live - {a}) + {a};
      usedCount := usedCount - 1;
      pool := Pushed(s, a);
      assert pool.pages.Keys == s.pages.Keys;
      forall d: nat | d < CLASSES
        ensures Threaded(link, heads[d], pool.lists[d])
      {
        if d == c {
          ThreadPush(link0, heads0[c], s.lists[c], a);
        } else {
          KeepThreaded(link0, a, heads0[c], heads0[d], s.lists[d]);
        }
      }
    }

    /** `*cur = **cur`: the entry after `kept` leaves the list. */
    method Unlink(c: nat, cur: Addr, nxt: Addr, ghost kept: seq<Addr>, ghost rest: seq<Addr>,
        ghost lists: seq<seq<Addr>>)
      requires c < CLASSES && |heads| == CLASSES == |lists| && rest != [] && nxt == rest[0]
      requires Threaded(link, heads[c], kept + rest) && NoDup(kept + rest)
      requires forall d: nat | d < CLASSES && d != c :: Threaded(link, heads[d], lists[d])
      requires kept != [] ==> forall d: nat | d < CLASSES && d != c :: cur !in lists[d]
      requires cur == Last(kept)
      modifies this`link, this`heads
      ensures |heads| == CLASSES && Threaded(link, heads[c], kept + rest[1..])
      ensures forall d: nat | d < CLASSES && d != c :: Threaded(link, heads[d], lists[d])
    {
      if kept != [] { assert ThreadAt(link, kept + rest, |kept| - 1); }
      if cur == NULL {
        assert kept + rest == rest && kept + rest[1..] == rest[1..];
        ThreadTail(link, heads[c], rest);
        heads := heads[c := link[nxt]];
      } else {
        ThreadSkip(link, heads[c], kept, rest);
        ghost var link0 := link;
        link := link[cur := link[nxt]];
        forall d: nat | d < CLASSES && d != c
          ensures Threaded(link, heads[d], lists[d])
        {
          KeepThreaded(link0, cur, link0[nxt], heads[d], lists[d]);
        }
      }
    }

    /** Half-way through the unlink loop: `kept` has been looked at, `rest` not yet. */
    ghost predicate Sweeping(c: nat, p: nat, lists: seq<seq<Addr>>, kept: seq<Addr>, rest: seq<Addr>)
      requires c < CLASSES && |lists| == CLASSES
      reads this`link, this`heads
    {
      && |heads| == CLASSES && Without(lists[c], p) == kept + Without(rest, p)
      && Threaded(link, heads[c], kept + rest) && NoDup(kept + rest)
      && (forall d: nat | d < CLASSES && d != c :: Threaded(link, heads[d], lists[d]))
      && forall a | a in kept + rest :: a in lists[c]
    }

    /** One round of the loop: the cell after `cur` is unlinked or passed. */
    method SweepCell(c: nat, p: nat, cur0: Addr, nxt: Addr, ghost lists: seq<seq<Addr>>, ghost kept0: seq<Addr>,
                     ghost rest: seq<Addr>)
      returns (cur: Addr, ghost kept: seq<Addr>)
      requires c < CLASSES && |lists| == CLASSES && Sweeping(c, p, lists, kept0, rest) && cur0 == Last(kept0)
      requires forall d: nat, a | d < CLASSES && d != c && a in lists[c] :: a !in lists[d]
      requires rest != [] && nxt == rest[0]
      modifies this`link, this`heads
      ensures Sweeping(c, p, lists, kept, rest[1..]) && cur == Last(kept)
    {
      SweepSpec(kept0, rest, p);
      cur, kept := cur0, kept0;
      if nxt.page == p {
        Unlink(c, cur, nxt, kept, rest, lists);
        DropKeepsNoDup(kept, rest);
      } else {
        kept := kept + [nxt];
        cur := nxt;
      }
    }

    /** The unlink loop of `kfree`: `cur` is the cell being looked at, the list head when null. */
    method Sweep(c: nat, p: nat, ghost lists: seq<seq<Addr>>)
      requires c < CLASSES && |heads| == CLASSES == |lists| && NoDup(lists[c])
      requires forall d: nat | d < CLASSES :: Threaded(link, heads[d], lists[d])
      requires forall d: nat, a | d < CLASSES && d != c && a in lists[c] :: a !in lists[d]
      modifies this`link, this`heads
      ensures |heads| == CLASSES && Threaded(link, heads[c], Without(lists[c], p))
      ensures forall d: nat | d < CLASSES && d != c :: Threaded(link, heads[d], lists[d])
    {
      ghost var kept, rest := [], lists[c];
      var cur, nxt := NULL, heads[c];
      NothingSwept(rest, p);
      NextCell(link, nxt, kept, rest);
      while nxt != NULL
        invariant Sweeping(c, p, lists, kept, rest) && cur == Last(kept)
        invariant nxt == At(rest, 0) && (nxt == NULL ==> rest == [])
        decreases |rest|
      {
        cur, kept := SweepCell(c, p, cur, nxt, lists, kept, rest);
        rest := rest[1..];
        NextCell(link, heads[c], kept, rest);
        nxt := if cur == NULL then heads[c] else link[cur];
      }
      NothingLeft(kept, p);
    }

    /** `kfree` of null or of a live object: the object becomes free, and a page that becomes
        wholly free is unmapped together with all its objects. */
    method Free(a: Addr)
      requires Valid() && (a == NULL || a in pool.live)
      modifies this
      ensures Valid()
      ensures a == NULL ==> pool == old(pool)
      ensures a != NULL ==> CanFree(old(pool), a) && pool == Freed(old(pool), a)
    {
      if a == NULL { return; }
      FreeReady(pool, a);
      FreeKeeps(pool, a);
      var p := a.page;
      var c := ClassOf(p);
      Push(a, c);
      if headers[p].free == headers[p].total {
        ReleasePage(p, c);
      }
    }

    /** The class of a mapped page, read from its header: the panic of `cache_index_exact` cannot happen. */
    method ClassOf(p: nat) returns (c: nat)
      requires Shows() && p in pool.pages
      ensures c == pool.pages[p].cls
    {
      assert p in headers && headers[p] == Stored(pool.pages[p]);
      var panic, found := CacheIndexExact(headers[p].objSize);
      c := found;
    }

    /** The release of a page by `kfree`. */
    method ReleasePage(p: nat, c: nat)
      requires Shows() && p in pool.pages && c == pool.pages[p].cls && NoDup(pool.lists[c])
      requires forall d: nat, a | d < CLASSES && d != c && a in pool.lists[c] :: a !in pool.lists[d]
      modifies this
      ensures Shows() && pool == Dropped(old(pool), p)
    {
      ghost var s := pool;
      Sweep(c, p, s.lists);
      headers := headers - {p};
      assert s.pages == (s.pages - {p})[p := s.pages[p]];
      assert |s.pages| == |s.pages - {p}| + 1;
      pageCount := pageCount - 1;
      pool := Dropped(s, p);
    }

    /** `kmalloc_query`: the free objects counted along the lists, so that used and free objects
        together are the capacity of the mapped pages. */
    method Query() returns (pages: nat, used: nat, free: nat)
      requires Valid()
      ensures pages == |pool.pages| && used == |pool.live| && used + free == Capacity(pool.pages)
    {
      pages, used, free := pageCount, usedCount, 0;
      SumIsFree(pool.lists);
      for c := 0 to CLASSES
        invariant free == SumUpTo(pool.lists, c)
      {
        var p := heads[c];
        ghost var i := 0;
        assert Threaded(link, heads[c], pool.lists[c]);
        if i < |pool.lists[c]| { assert ThreadAt(link, pool.lists[c], i); }
        while p != NULL
          invariant i <= |pool.lists[c]| && p == At(pool.lists[c], i) && free == SumUpTo(pool.lists, c) + i
          invariant i < |pool.lists[c]| ==> p != NULL
          decreases |pool.lists[c]| - i
        {
          assert ThreadAt(link, pool.lists[c], i);
          free := free + 1;
          p := link[p];
          i := i + 1;
          if i < |pool.lists[c]| { assert ThreadAt(link, pool.lists[c], i); }
        }
      }
    }

    /** The loop of `cpool_refill`: threads the objects of a new page, touching no other list. */
    method ThreadSlots(p: nat, c: nat, ghost lists: seq<seq<Addr>>)
      requires c < CLASSES && |heads| == CLASSES == |lists| && p > 0
      requires forall d: nat | d < CLASSES && d != c :: Threaded(link, heads[d], lists[d])
      requires forall d: nat, a | d < CLASSES && d != c && a in lists[d] :: a.page != p
      modifies this`link
      ensures Threaded(link, Addr(p, HDR), Slots(p, c))
      ensures forall d: nat | d < CLASSES && d != c :: Threaded(link, heads[d], lists[d])
    {
      var n, obj := PerPage(c), Addr(p, HDR);
      for i := 0 to n
        invariant obj == Slot(p, c, i)
        invariant forall k: nat | k < i :: ThreadAt(link, Slots(p, c), k)
        invariant forall d: nat | d < CLASSES && d != c :: Threaded(link, heads[d], lists[d])
      {
        OffsetSpaced(c, i, i + 1);
        forall k: nat | k < i ensures Slots(p, c)[k] != obj { OffsetSpaced(c, k, i); }
        var next := if i + 1 < n then Addr(p, obj.off + SizeOf(c)) else NULL;
        ghost var link0 := link;
        link := link[obj := next];
        forall d: nat | d < CLASSES && d != c
          ensures Threaded(link, heads[d], lists[d])
        {
          KeepThreaded(link0, obj, next, heads[d], lists[d]);
        }
        forall k: nat | k < i ensures ThreadAt(link, Slots(p, c), k) { assert ThreadAt(link0, Slots(p, c), k); }
        obj := Addr(p, obj.off + SizeOf(c));
      }
    }
  }

  /** The pool an allocation of class `c` takes from: as it is, or with a new page. */
  ghost function Stocked(s: Pool, c: nat): (r: Pool)
    requires |s.lists| == CLASSES && c < CLASSES
  {
    if s.lists[c] == [] then Refilled(s, c) else s
  }

  /** The first class whose objects hold `size` bytes. */
  function ClassFor(size: nat): (c: nat)
    requires 0 < size <= 256
    ensures c < CLASSES && SizeOf(c) >= size && (c > 0 ==> SizeOf(c - 1) < size)
  {
    if size <= 8 then 0 else if size <= 16 then 1 else if size <= 32 then 2
    else if size <= 64 then 3 else if size <= 128 then 4 else 5
  }

  /** The stocked pool has a well-formed first object of class `c`. */
  ghost predicate CanTake(s: Pool, c: nat) {
    && |s.lists| == CLASSES && c < CLASSES
    && var t := Stocked(s, c);
       t.lists[c] != [] && t.lists[c][0].page in t.pages && t.pages[t.lists[c][0].page].free > 0
           && t.lists[c][0] !in t.live
  }

  lemma AllocReady(s: Pool, c: nat)
    requires PoolInv(s, {}) && c < CLASSES
    ensures s.vptr > 0 && s.vptr !in s.pages
    ensures forall d: nat, a | d < CLASSES && d != c && a in s.lists[d] :: a.page != s.vptr
  {
    FreshLists(s, c);
  }

  /** A refill keeps the invariant up to the new page, which the first object lies in. */
  lemma RefillStocks(s: Pool, c: nat, r: Pool)
    requires PoolInv(s, {}) && c < CLASSES && s.lists[c] == [] && r == Refilled(s, c)
    ensures r.lists[c] != [] && PoolInv(r, {r.lists[c][0].page})
  {
    RefilledHead(s, c);
    RefilledKeeps(s, {}, c);
    assert {} + {s.vptr} == {r.lists[c][0].page};
  }

  lemma RefilledHead(s: Pool, c: nat)
    requires |s.lists| == CLASSES && c < CLASSES
    ensures Refilled(s, c).lists[c] != [] && Refilled(s, c).lists[c][0].page == s.vptr
  {
  }

  /** An allocation of class `c` keeps the invariant. */
  lemma AllocKeeps(s: Pool, c: nat)
    requires PoolInv(s, {}) && c < CLASSES
    ensures CanTake(s, c) && PoolInv(Popped(Stocked(s, c), c), {})
  {
    if s.lists[c] == [] { RefillStocks(s, c, Refilled(s, c)); }
    TakeKeeps(Stocked(s, c), c);
  }

  lemma TakeKeeps(t: Pool, c: nat)
    requires |t.lists| == CLASSES && c < CLASSES && t.lists[c] != []
    requires PoolInv(t, {}) || PoolInv(t, {t.lists[c][0].page})
    ensures FreeObject(t, c, t.lists[c][0]) && t.pages[t.lists[c][0].page].free > 0 && PoolInv(Popped(t, c), {})
  {
    var p := t.lists[c][0].page;
    assert {} - {p} == {} && {p} - {p} == {};
    if PoolInv(t, {}) {
      PoppedKeeps(t, {}, c);
    } else {
      PoppedKeeps(t, {p}, c);
    }
  }

  /** What an allocation gives its caller: an object that was not live, of a class that holds the
      request, that overlaps no object live before. */
  lemma AllocMeaning(s: Pool, size: nat, b: Addr)
    requires PoolInv(s, {}) && 0 < size <= 256 && b in s.live
    ensures CanTake(s, ClassFor(size)) && Stocked(s, ClassFor(size)).live == s.live
    ensures var t := Stocked(s, ClassFor(size));
            var a := t.lists[ClassFor(size)][0];
            && a !in s.live && Popped(t, ClassFor(size)).live == s.live + {a}
            && IsObject(t.pages, a) && IsObject(t.pages, b) && SizeOf(t.pages[a.page].cls) >= size
            && (a.page != b.page || a.off + size <= b.off || b.off + SizeOf(t.pages[b.page].cls) <= a.off)
  {
    var c := ClassFor(size);
    var t := Stocked(s, c);
    assert CanTake(s, c) by { AllocKeeps(s, c); }
    var a := t.lists[c][0];
    assert IsObject(t.pages, a) && t.pages[a.page].cls == c && a !in s.live && CanTake(s, c) by {
      AllocFree(s, c);
    }
    assert IsObject(t.pages, b) by {
      AllocReady(s, c);
      assert IsObject(s.pages, b);
      SameObjects(s.pages, t.pages, b);
    }
    ObjectsDisjoint(t.pages, a, b);
  }

  lemma AllocFree(s: Pool, c: nat)
    requires PoolInv(s, {}) && c < CLASSES
    ensures CanTake(s, c) && FreeObject(Stocked(s, c), c, Stocked(s, c).lists[c][0])
  {
    if s.lists[c] == [] { RefillStocks(s, c, Refilled(s, c)); }
    TakeKeeps(Stocked(s, c), c);
  }

  function SumUpTo(lists: seq<seq<Addr>>, c: nat): nat
    requires |lists| == CLASSES && c <= CLASSES
  {
    if c == 0 then 0 else SumUpTo(lists, c - 1) + |lists[c - 1]|
  }

  lemma SumIsFree(lists: seq<seq<Addr>>)
    requires |lists| == CLASSES
    ensures SumUpTo(lists, CLASSES) == FreeObjects(lists)
  {
    assert SumUpTo(lists, 1) == SumUpTo(lists, 0) + |lists[0]|;
    assert SumUpTo(lists, 2) == SumUpTo(lists, 1) + |lists[1]|;
    assert SumUpTo(lists, 3) == SumUpTo(lists, 2) + |lists[2]|;
    assert SumUpTo(lists, 4) == SumUpTo(lists, 3) + |lists[3]|;
    assert SumUpTo(lists, 5) == SumUpTo(lists, 4) + |lists[4]|;
  }

  ghost predicate CanFree(s: Pool, a: Addr) {
    |s.lists| == CLASSES && a.page in s.pages && s.pages[a.page].cls < CLASSES
  }

  /** A release: the object goes back, and so does its page once no object of it is live. */
  ghost function Freed(s: Pool, a: Addr): (r: Pool)
    requires CanFree(s, a)
  {
    var t := Pushed(s, a);
    if t.pages[a.page].free == t.pages[a.page].total then Dropped(t, a.page) else t
  }

  lemma FreeReady(s: Pool, a: Addr)
    requires PoolInv(s, {}) && a in s.live
    ensures CanFree(s, a) && a != NULL && forall d: nat | d < CLASSES :: a !in s.lists[d]
    ensures NoDup([a] + s.lists[s.pages[a.page].cls])
    ensures forall d: nat, b | d < CLASSES && d != s.pages[a.page].cls && b in [a] + s.lists[s.pages[a.page].cls] ::
            b !in s.lists[d]
  {
    assert IsObject(s.pages, a);
    var c := s.pages[a.page].cls;
    assert ListOk(s, c);
    forall d: nat | d < CLASSES
      ensures a !in s.lists[d]
    {
      assert ListOk(s, d);
    }
    forall d: nat, b | d < CLASSES && d != c && b in [a] + s.lists[c]
      ensures b !in s.lists[d]
    {
      assert ListOk(s, d);
    }
  }

  /** A release keeps the invariant: in particular no page that stays is wholly free. */
  lemma FreeKeeps(s: Pool, a: Addr)
    requires PoolInv(s, {}) && a in s.live
    ensures CanFree(s, a) && PoolInv(Freed(s, a), {}) && Freed(s, a).live == s.live - {a}
  {
    PushedKeeps(s, {}, a);
    var t, p := Pushed(s, a), a.page;
    assert {} + {p} == {p} && {p} - {p} == {};
    if t.pages[p].free == t.pages[p].total {
      DroppedKeeps(t, {p}, p);
    } else {
      NotFull(t, p);
    }
  }

  /** Taking an object and giving it back restores the pool, list order included; a page that had to be mapped for
      it is gone again, and only its place in the zone is used up. */
  lemma TakeThenGive(s: Pool, c: nat)
    requires PoolInv(s, {}) && c < CLASSES
    ensures CanTake(s, c)
    ensures var t := Stocked(s, c);
            && CanFree(Popped(t, c), t.lists[c][0])
            && Freed(Popped(t, c), t.lists[c][0]) == if s.lists[c] != [] then s else s.(vptr := s.vptr + 1)
  {
    AllocKeeps(s, c);
    AllocFree(s, c);
    var t := Stocked(s, c);
    var a := t.lists[c][0];
    PopThenPush(t, c);
    if s.lists[c] != [] {
      assert PageOk(s, {}, a.page);
    } else {
      FreshPage(s, {});
      RefilledDropped(s, c);
    }
  }

  lemma PopThenPush(t: Pool, c: nat)
    requires |t.lists| == CLASSES && c < CLASSES && t.lists[c] != []
    requires var a := t.lists[c][0]; a.page in t.pages && t.pages[a.page].cls == c && a !in t.live
    requires t.pages[t.lists[c][0].page].free > 0
    ensures Pushed(Popped(t, c), t.lists[c][0]) == t
  {
    var a := t.lists[c][0];
    var r := Pushed(Popped(t, c), a);
    assert [a] + t.lists[c][1..] == t.lists[c];
    assert r.lists == t.lists && r.pages == t.pages && r.live == t.live;
  }

  lemma RefilledDropped(s: Pool, c: nat)
    requires |s.lists| == CLASSES && c < CLASSES && s.lists[c] == [] && s.vptr !in s.pages
    ensures Dropped(Refilled(s, c), s.vptr) == s.(vptr := s.vptr + 1)
  {
    var t, p := Refilled(s, c), s.vptr;
    var r := Dropped(t, p);
    CountAll(t.lists[c], p);
    assert Without(t.lists[c], p) == [] && r.lists == s.lists;
    assert r.pages == s.pages;
  }

  lemma NotFull(t: Pool, p: nat)
    requires PoolInv(t, {p}) && p in t.pages && t.pages[p].free != t.pages[p].total
    ensures PoolInv(t, {})
  {
    forall q | q in t.pages ensures PageOk(t, {}, q) { assert PageOk(t, {p}, q); }
  }

  lemma FreshLists(s: Pool, c: nat)
    requires PoolInv(s, {})
    ensures s.vptr !in s.pages && forall d: nat, a | d < CLASSES && d != c && a in s.lists[d] :: a.page != s.vptr
  {
    FreshPage(s, {});
    forall d: nat, a | d < CLASSES && d != c && a in s.lists[d]
      ensures a.page != s.vptr
    {
      assert ListOk(s, d) && FreeObject(s, d, a);
    }
  }

  // ----- runs -----

  datatype Op = Take(size: nat) | Give(addr: Addr)

  ghost predicate Enabled(s: Pool, op: Op) {
    match op
    case Take(size) => 0 < size <= 256
    case Give(a) => a in s.live
  }

  ghost function Step(s: Pool, op: Op): (r: Pool)
    requires PoolInv(s, {}) && Enabled(s, op)
    ensures PoolInv(r, {})
  {
    match op
    case Take(size) =>
      AllocKeeps(s, ClassFor(size));
      Popped(Stocked(s, ClassFor(size)), ClassFor(size))
    case Give(a) =>
      FreeKeeps(s, a);
      Freed(s, a)
  }

  /** `ops` can be executed one after the other from `s`. */
  ghost predicate RunOk(s: Pool, ops: seq<Op>)
    requires PoolInv(s, {})
    decreases |ops|
  {
    ops == [] || (Enabled(s, ops[0]) && RunOk(Step(s, ops[0]), ops[1..]))
  }

  /** The invariant holds after every run of allocations and releases. */
  ghost function Run(s: Pool, ops: seq<Op>): (r: Pool)
    requires PoolInv(s, {}) && RunOk(s, ops)
    ensures PoolInv(r, {})
    decreases |ops|
  {
    if ops == [] then s else Run(Step(s, ops[0]), ops[1..])
  }

  /** An object stays live, in a mapped page, over every run that does not give it back. */
  lemma {:induction false} LiveObjectStays(s: Pool, ops: seq<Op>, a: Addr)
    requires PoolInv(s, {}) && RunOk(s, ops) && a in s.live && Give(a) !in ops
    ensures a in Run(s, ops).live && IsObject(Run(s, ops).pages, a)
    decreases |ops|
  {
    if ops != [] {
      if ops[0].Give? { FreeKeeps(s, ops[0].addr); }
      LiveObjectStays(Step(s, ops[0]), ops[1..], a);
    }
  }
}
