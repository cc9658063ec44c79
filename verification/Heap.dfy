/**
  The byte-granular kernel heap: a doubly linked list of blocks with headers in memory, first
  fit, splitting and coalescing. The linked headers refine a plain sequence of blocks.
 */
module Heap {
  const BASE: nat := 0xC000_0000
  const LIMIT: nat := 0xCFFF_FFFF
  const HDR: nat := 16
  const PAGE: nat := 4096
  const WORD: nat := 0x1_0000_0000

  datatype Block = Block(addr: nat, size: nat, used: bool)

  /** `ALIGN8` in 32-bit arithmetic. */
  function Align8(size: nat): (r: nat) { (size + 7) % WORD / 8 * 8 }

  /** `ALIGN8` rounds up to a multiple of 8 exactly when the addition does not wrap. */
  lemma Align8RoundsUp(size: nat)
    requires size < WORD
    ensures Align8(size) % 8 == 0
    ensures size <= Align8(size) < size + 8 <==> size <= WORD - 8
  {
  }

  /** The address just after a block. */
  function End(b: Block): nat { b.addr + HDR + b.size }

  /** The address of block `i`, or the end of the heap. */
  function At(bs: seq<Block>, i: nat, hi: nat): nat { if i < |bs| then bs[i].addr else hi }

  /** Block `i` ends where the next one starts. */
  ghost predicate TileAt(bs: seq<Block>, hi: nat, i: nat)
    requires i < |bs|
  {
    End(bs[i]) == At(bs, i + 1, hi)
  }

  /** The blocks tile `[BASE, hi)` without gap or overlap. */
  ghost predicate Tiled(bs: seq<Block>, hi: nat) {
    At(bs, 0, hi) == BASE && forall i: nat | i < |bs| :: TileAt(bs, hi, i)
  }

  predicate SizeOk(b: Block) { b.size >= 8 && b.size % 8 == 0 }

  /** Payload sizes are positive multiples of 8. */
  ghost predicate Sized(bs: seq<Block>) { forall b | b in bs :: SizeOk(b) }

  ghost predicate SeparatedAt(bs: seq<Block>, i: nat) {
    i + 1 < |bs| ==> bs[i].used || bs[i + 1].used
  }

  /** No two neighbours are both free. */
  ghost predicate Coalesced(bs: seq<Block>) {
    forall i: nat | i < |bs| :: SeparatedAt(bs, i)
  }

  ghost predicate HeapInv(bs: seq<Block>, hi: nat) {
    Tiled(bs, hi) && Sized(bs) && Coalesced(bs) && hi % PAGE == 0 && hi <= LIMIT
  }

  predicate Fits(b: Block, size: nat) { !b.used && b.size >= size }

  /** First fit: the index of the first block that fits, or the number of blocks. */
  function FirstFit(bs: seq<Block>, size: nat): (k: nat)
    ensures k <= |bs|
    ensures k < |bs| ==> Fits(bs[k], size)
    ensures forall i: nat | i < k :: !Fits(bs[i], size)
  {
    if bs == [] then 0 else if Fits(bs[0], size) then 0 else 1 + FirstFit(bs[1..], size)
  }

  /** Bytes added for a request: whole pages that hold the request and a header. */
  function GrowBytes(nbytes: nat): (r: nat)
    ensures r % PAGE == 0 && nbytes + HDR <= r < nbytes + HDR + PAGE && r >= PAGE
  {
    (nbytes + HDR + PAGE - 1) / PAGE * PAGE
  }

  /** The heap with `total` more bytes: a free last block is stretched, else a block is added. */
  function Grown(bs: seq<Block>, hi: nat, total: nat): (r: seq<Block>)
    requires total >= HDR
  {
    if bs != [] && !bs[|bs| - 1].used
    then bs[|bs| - 1 := bs[|bs| - 1].(size := bs[|bs| - 1].size + total)]
    else bs + [Block(hi, total - HDR, false)]
  }

  /** Block `k` taken for `size` bytes; what is left over is split off if it can hold a block. */
  function Taken(bs: seq<Block>, k: nat, size: nat): (r: seq<Block>)
    requires k < |bs| && bs[k].size >= size
  {
    if bs[k].size >= size + HDR + 8
    then bs[..k] + [Block(bs[k].addr, size, true), Block(bs[k].addr + HDR + size, bs[k].size - size - HDR, false)]
        + bs[k + 1..]
    else bs[k := bs[k].(used := true)]
  }

  predicate NextFree(bs: seq<Block>, k: nat) { k + 1 < |bs| && !bs[k + 1].used }
  predicate PrevFree(bs: seq<Block>, k: nat) { 0 < k <= |bs| && !bs[k - 1].used }

  /** Block `k` freed and merged with free neighbours: one free block over the whole stretch. */
  function Released(bs: seq<Block>, k: nat): (r: seq<Block>)
    requires k < |bs|
  {
    var before := if PrevFree(bs, k) then bs[k - 1].size + HDR else 0;
    var after := if NextFree(bs, k) then HDR + bs[k + 1].size else 0;
    var first := if PrevFree(bs, k) then k - 1 else k;
    var last := if NextFree(bs, k) then k + 1 else k;
    bs[..first] + [Block(bs[first].addr, before + bs[k].size + after, false)] + bs[last + 1..]
  }

  /** The used blocks. */
  ghost function Live(bs: seq<Block>): (s: set<Block>) {
    set b | b in bs && b.used
  }

  // ----- each operation keeps the invariant -----

  lemma PageArithmetic(hi: nat, total: nat, size: nat)
    requires hi % PAGE == 0 && total % PAGE == 0 && size % 8 == 0 && total >= PAGE
    ensures (hi + total) % PAGE == 0 && (size + total) % 8 == 0 && (total - HDR) % 8 == 0
  {
    var q := total / PAGE;
    assert total == 8 * (512 * q);
  }

  lemma GrownKeeps(bs: seq<Block>, hi: nat, total: nat)
    requires HeapInv(bs, hi) && total >= PAGE && total % PAGE == 0 && hi + total <= LIMIT
    ensures HeapInv(Grown(bs, hi, total), hi + total)
    ensures Live(Grown(bs, hi, total)) == Live(bs)
  {
    var r := Grown(bs, hi, total);
    assert bs != [] ==> SizeOk(bs[|bs| - 1]);
    PageArithmetic(hi, total, if bs == [] then 0 else bs[|bs| - 1].size);
    GrownTiled(bs, hi, total);
    forall i: nat | i < |r|
      ensures SeparatedAt(r, i)
    {
      assert i < |bs| ==> SeparatedAt(bs, i);
    }
    assert forall i: nat | i < |bs| && bs[i].used :: r[i] == bs[i];
    assert forall i: nat | i < |r| && r[i].used :: r[i] == bs[i];
  }

  lemma GrownTiled(bs: seq<Block>, hi: nat, total: nat)
    requires Tiled(bs, hi) && total >= HDR
    ensures Tiled(Grown(bs, hi, total), hi + total)
  {
    var r, top := Grown(bs, hi, total), hi + total;
    forall i: nat | i < |r|
      ensures TileAt(r, top, i)
    {
      assert i < |bs| ==> TileAt(bs, hi, i);
    }
    assert r[0].addr == if bs == [] then hi else bs[0].addr;
  }

  lemma TakenKeeps(bs: seq<Block>, hi: nat, k: nat, size: nat)
    requires HeapInv(bs, hi) && k < |bs| && Fits(bs[k], size) && size >= 8 && size % 8 == 0
    ensures HeapInv(Taken(bs, k, size), hi)
    ensures Taken(bs, k, size)[k].addr == bs[k].addr && Taken(bs, k, size)[k].size >= size
  {
    TakenTiled(bs, hi, k, size);
    TakenSized(bs, k, size);
  }

  lemma TakenSized(bs: seq<Block>, k: nat, size: nat)
    requires Sized(bs) && k < |bs| && bs[k].size >= size && size >= 8 && size % 8 == 0
    ensures Sized(Taken(bs, k, size))
  {
    assert SizeOk(bs[k]);
    var r := Taken(bs, k, size);
    if bs[k].size >= size + HDR + 8 {
      MultipleOf8(bs[k].size, size + HDR);
      assert SizeOk(r[k]) && SizeOk(r[k + 1]);
      assert forall b | b in r :: b in bs || b == r[k] || b == r[k + 1];
    } else {
      assert forall b | b in r :: b in bs || b == r[k];
    }
  }

  lemma MultipleOf8(a: nat, b: nat)
    requires a % 8 == 0 && b % 8 == 0 && a >= b
    ensures (a - b) % 8 == 0
  {
  }

  lemma TakenTiled(bs: seq<Block>, hi: nat, k: nat, size: nat)
    requires Tiled(bs, hi) && Coalesced(bs) && k < |bs| && Fits(bs[k], size)
    ensures Tiled(Taken(bs, k, size), hi) && Coalesced(Taken(bs, k, size))
  {
    var r := Taken(bs, k, size);
    var shift := |r| - |bs|;
    assert TileAt(bs, hi, k) && SeparatedAt(bs, k);
    forall i: nat | i < |r|
      ensures TileAt(r, hi, i)
      ensures SeparatedAt(r, i)
    {
      if i < k {
        assert TileAt(bs, hi, i) && SeparatedAt(bs, i);
      } else if i > k + shift {
        assert TileAt(bs, hi, i - shift) && SeparatedAt(bs, i - shift);
      }
    }
  }

  /** The blocks before and after block `k` stay, and no more than a header and seven bytes are wasted: a larger
      rest is a free block of its own. */
  lemma TakenExact(bs: seq<Block>, k: nat, size: nat)
    requires k < |bs| && Fits(bs[k], size)
    ensures var r := Taken(bs, k, size);
            && k < |r| && r[..k] == bs[..k] && r[k].used && r[k].addr == bs[k].addr
            && size <= r[k].size < size + HDR + 8
            && if bs[k].size < size + HDR + 8 then r[k].size == bs[k].size && r[k + 1..] == bs[k + 1..]
               else r[k].size == size && k + 1 < |r| && !r[k + 1].used && r[k + 2..] == bs[k + 1..]
  {
    var r := Taken(bs, k, size);
    if bs[k].size >= size + HDR + 8 {
      assert r[k + 2..] == bs[k + 1..];
    } else {
      assert r[k + 1..] == bs[k + 1..];
    }
  }

  /** Allocating adds exactly the new block to the live ones. */
  lemma TakenLive(bs: seq<Block>, hi: nat, k: nat, size: nat)
    requires HeapInv(bs, hi) && k < |bs| && Fits(bs[k], size)
    ensures Taken(bs, k, size)[k] !in Live(bs)
    ensures Live(Taken(bs, k, size)) == Live(bs) + {Taken(bs, k, size)[k]}
  {
    var r := Taken(bs, k, size);
    assert forall i: nat | i < |bs| && i != k :: bs[i] == if i < k then r[i] else r[i + |r| - |bs|];
    assert forall i: nat | i < |r| && r[i].used && i != k :: r[i] == if i < k then bs[i] else bs[i + |bs| - |r|];
    if r[k] in bs {
      var j :| 0 <= j < |bs| && bs[j] == r[k];
      SameAddr(bs, hi, j, k);
    }
  }

  /** Addresses ascend along the list, so a block is known by its address. */
  lemma {:induction false} Ascending(bs: seq<Block>, hi: nat, i: nat, j: nat)
    requires Tiled(bs, hi) && i < j <= |bs|
    ensures End(bs[i]) <= At(bs, j, hi)
    decreases j - i
  {
    assert TileAt(bs, hi, i);
    if i + 1 < j {
      Ascending(bs, hi, i + 1, j);
    }
  }

  lemma SameAddr(bs: seq<Block>, hi: nat, i: nat, j: nat)
    requires Tiled(bs, hi) && i < |bs| && j < |bs| && bs[i].addr == bs[j].addr
    ensures i == j
  {
    if i < j {
      Ascending(bs, hi, i, j);
    } else if j < i {
      Ascending(bs, hi, j, i);
    }
  }

  /** Payloads are 8-aligned and pairwise disjoint, inside the heap. */
  lemma PayloadsDisjoint(bs: seq<Block>, hi: nat, i: nat, j: nat)
    requires HeapInv(bs, hi) && i < j < |bs|
    ensures (bs[i].addr + HDR) % 8 == 0
    ensures BASE <= bs[i].addr && bs[i].addr + HDR + bs[i].size <= bs[j].addr && End(bs[j]) <= hi
  {
    Ascending(bs, hi, i, j);
    Ascending(bs, hi, j, |bs|);
    Aligned(bs, hi, i);
  }

  lemma {:induction false} Aligned(bs: seq<Block>, hi: nat, i: nat)
    requires Tiled(bs, hi) && Sized(bs) && i < |bs|
    ensures bs[i].addr % 8 == 0 && BASE <= bs[i].addr
  {
    if i > 0 {
      Aligned(bs, hi, i - 1);
      assert TileAt(bs, hi, i - 1) && SizeOk(bs[i - 1]);
    }
  }

  lemma ReleasedKeeps(bs: seq<Block>, hi: nat, k: nat)
    requires HeapInv(bs, hi) && k < |bs| && bs[k].used
    ensures HeapInv(Released(bs, k), hi)
  {
    ReleasedTiled(bs, hi, k);
    ReleasedSized(bs, k);
    ReleasedCoalesced(bs, k);
  }

  lemma ReleasedSized(bs: seq<Block>, k: nat)
    requires Sized(bs) && k < |bs|
    ensures Sized(Released(bs, k))
  {
    assert SizeOk(bs[k]) && (k > 0 ==> SizeOk(bs[k - 1])) && (k + 1 < |bs| ==> SizeOk(bs[k + 1]));
    var r := Released(bs, k);
    var first := if PrevFree(bs, k) then k - 1 else k;
    assert SizeOk(r[first]);
    assert forall b | b in r :: b in bs || b == r[first];
  }

  lemma ReleasedTiled(bs: seq<Block>, hi: nat, k: nat)
    requires Tiled(bs, hi) && k < |bs|
    ensures Tiled(Released(bs, k), hi)
  {
    var r := Released(bs, k);
    var first := if PrevFree(bs, k) then k - 1 else k;
    var gone := |bs| - |r|;
    assert TileAt(bs, hi, k) && (k > 0 ==> TileAt(bs, hi, k - 1)) && (k + 1 < |bs| ==> TileAt(bs, hi, k + 1));
    forall i: nat | i < |r|
      ensures TileAt(r, hi, i)
    {
      if i < first {
        assert TileAt(bs, hi, i);
      } else if i > first {
        assert TileAt(bs, hi, i + gone);
      }
    }
  }

  lemma ReleasedCoalesced(bs: seq<Block>, k: nat)
    requires Coalesced(bs) && k < |bs|
    ensures Coalesced(Released(bs, k))
  {
    var r := Released(bs, k);
    var first := if PrevFree(bs, k) then k - 1 else k;
    var gone := |bs| - |r|;
    forall i: nat | i < |r|
      ensures SeparatedAt(r, i)
    {
      if i < first {
        assert SeparatedAt(bs, i);
      } else {
        assert i + gone < |bs| && SeparatedAt(bs, i + gone);
      }
    }
  }

  /** Freeing removes exactly that block from the live ones. */
  lemma ReleasedLive(bs: seq<Block>, hi: nat, k: nat)
    requires HeapInv(bs, hi) && k < |bs| && bs[k].used
    ensures Live(Released(bs, k)) == Live(bs) - {bs[k]}
  {
    forall b | b in Live(bs) && b != bs[k]
      ensures b in Live(Released(bs, k))
    {
      ReleasedStays(bs, k, b);
    }
    forall b | b in Live(Released(bs, k))
      ensures b in Live(bs) && b != bs[k]
    {
      ReleasedWas(bs, hi, k, b);
    }
  }

  /** Where the blocks of the list after a release come from. */
  lemma ReleasedPlaces(bs: seq<Block>, k: nat, first: nat, gone: nat)
    requires k < |bs| && first == (if PrevFree(bs, k) then k - 1 else k) && gone == |bs| - |Released(bs, k)|
    ensures var r := Released(bs, k);
            && first < |r| && !r[first].used && first + gone <= k + 1
            && (forall i: nat | i < first :: r[i] == bs[i])
            && (forall i: nat | first < i < |r| :: r[i] == bs[i + gone] && i + gone > k)
            && (forall i: nat | first <= i <= first + gone && i != k :: !bs[i].used)
  {
  }

  lemma ReleasedStays(bs: seq<Block>, k: nat, b: Block)
    requires k < |bs| && b in bs && b.used && b != bs[k]
    ensures b in Released(bs, k)
  {
    var r := Released(bs, k);
    var first, gone := if PrevFree(bs, k) then k - 1 else k, |bs| - |r|;
    ReleasedPlaces(bs, k, first, gone);
    var i :| 0 <= i < |bs| && bs[i] == b;
    assert i < first || i > first + gone;
    assert r[if i < first then i else i - gone] == b;
  }

  lemma ReleasedWas(bs: seq<Block>, hi: nat, k: nat, b: Block)
    requires Tiled(bs, hi) && k < |bs| && b in Released(bs, k) && b.used
    ensures b in bs && b != bs[k]
  {
    var r := Released(bs, k);
    var first, gone := if PrevFree(bs, k) then k - 1 else k, |bs| - |r|;
    ReleasedPlaces(bs, k, first, gone);
    var i :| 0 <= i < |r| && r[i] == b;
    var j: nat := if i < first then i else i + gone;
    assert bs[j] == b && j != k;
    if b == bs[k] { SameAddr(bs, hi, j, k); }
  }

  // ----- exactness -----

  /** Growth for a request always leaves a block that fits it, so the second search succeeds. */
  lemma GrowMakesFit(bs: seq<Block>, hi: nat, size: nat)
    requires HeapInv(bs, hi)
    ensures FirstFit(Grown(bs, hi, GrowBytes(size)), size) < |Grown(bs, hi, GrowBytes(size))|
  {
    var r := Grown(bs, hi, GrowBytes(size));
    assert Fits(r[|r| - 1], size);
  }

  /** Allocating without growth and freeing again restores the very same block list. */
  lemma AllocThenFree(bs: seq<Block>, hi: nat, size: nat)
    requires HeapInv(bs, hi)
    ensures var k := FirstFit(bs, size); k < |bs| ==> Released(Taken(bs, k, size), k) == bs
  {
    var k := FirstFit(bs, size);
    if k < |bs| {
      var t := Taken(bs, k, size);
      assert SeparatedAt(bs, k) && (k > 0 ==> SeparatedAt(bs, k - 1));
      assert k > 0 ==> bs[k - 1].used && t[k - 1] == bs[k - 1];
      assert Released(t, k) == bs;
    }
  }

  // ----- runs -----

  /** One heap operation: an allocation, a release by payload address, or a break. */
  datatype Op = Alloc(size: nat) | Free(addr: nat) | Brk(nbytes: nat)

  datatype State = State(blocks: seq<Block>, end: nat)

  function IndexOf(bs: seq<Block>, addr: nat): (k: nat)
    ensures k <= |bs| && (k < |bs| ==> bs[k].addr == addr) && forall i: nat | i < k :: bs[i].addr != addr
  {
    if bs == [] then 0 else if bs[0].addr == addr then 0 else 1 + IndexOf(bs[1..], addr)
  }

  /** A growth by `total` bytes passes the limit check. */
  predicate CanGrow(s: State, total: nat) { s.end + total <= LIMIT }

  /** The call does not panic, and a released address came from the heap. Requests stay inside the zone. */
  predicate Enabled(s: State, op: Op) {
    match op
    case Alloc(size) => size <= 0x1000_0000 &&
      (size == 0 || FirstFit(s.blocks, Align8(size)) < |s.blocks| || CanGrow(s, GrowBytes(Align8(size))))
    case Free(addr) => addr == 0 || (addr >= HDR && IndexOf(s.blocks, addr - HDR) < |s.blocks|
                                     && s.blocks[IndexOf(s.blocks, addr - HDR)].used)
    case Brk(nbytes) => nbytes <= 0x1000_0000 && (nbytes == 0 || CanGrow(s, GrowBytes(nbytes)))
  }

  /** `kmem_heap_grow`. */
  function Grow(s: State, nbytes: nat): State {
    State(Grown(s.blocks, s.end, GrowBytes(nbytes)), s.end + GrowBytes(nbytes))
  }

  /** The heap from which an allocation is served: as it is, or grown when nothing fits. */
  function Served(s: State, size: nat): (r: State) {
    if FirstFit(s.blocks, size) < |s.blocks| then s else Grow(s, size)
  }

  ghost function Step(s: State, op: Op): (r: State)
    requires HeapInv(s.blocks, s.end) && Enabled(s, op)
    ensures HeapInv(r.blocks, r.end)
  {
    match op
    case Alloc(size) =>
      if size == 0 then s else
        ServedFits(s, size);
        var g := Served(s, Align8(size));
        var k := FirstFit(g.blocks, Align8(size));
        TakenKeeps(g.blocks, g.end, k, Align8(size));
        State(Taken(g.blocks, k, Align8(size)), g.end)
    case Free(addr) =>
      if addr == 0 then s else
        var k := IndexOf(s.blocks, addr - HDR);
        ReleasedKeeps(s.blocks, s.end, k);
        State(Released(s.blocks, k), s.end)
    case Brk(nbytes) =>
      if nbytes == 0 then s else
        GrownKeeps(s.blocks, s.end, GrowBytes(nbytes));
        Grow(s, nbytes)
  }

  /** An enabled request is served: aligned, in a block that fits, found by the search. */
  lemma ServedFits(s: State, size: nat)
    requires HeapInv(s.blocks, s.end) && 0 < size <= 0x1000_0000 && Enabled(s, Alloc(size))
    ensures Align8(size) >= 8 && Align8(size) % 8 == 0 && Align8(size) >= size
    ensures var g := Served(s, Align8(size));
            HeapInv(g.blocks, g.end) && FirstFit(g.blocks, Align8(size)) < |g.blocks|
                && Live(g.blocks) == Live(s.blocks)
  {
    Align8RoundsUp(size);
    if FirstFit(s.blocks, Align8(size)) == |s.blocks| {
      GrowMakesFit(s.blocks, s.end, Align8(size));
      GrownKeeps(s.blocks, s.end, GrowBytes(Align8(size)));
    }
  }

  ghost predicate RunOk(s: State, ops: seq<Op>)
    requires HeapInv(s.blocks, s.end)
    decreases |ops|
  {
    ops == [] || (Enabled(s, ops[0]) && RunOk(Step(s, ops[0]), ops[1..]))
  }

  ghost function Run(s: State, ops: seq<Op>): (r: State)
    requires HeapInv(s.blocks, s.end) && RunOk(s, ops)
    ensures HeapInv(r.blocks, r.end)
    decreases |ops|
  {
    if ops == [] then s else Run(Step(s, ops[0]), ops[1..])
  }

  /** What a block is to its owner while others come and go: over every run in which its payload
      is not released, a live block keeps its place and size. */
  lemma {:induction false} LiveBlockStays(s: State, ops: seq<Op>, b: Block)
    requires HeapInv(s.blocks, s.end) && RunOk(s, ops) && b in Live(s.blocks)
    requires Free(b.addr + HDR) !in ops
    ensures b in Live(Run(s, ops).blocks)
    decreases |ops|
  {
    if ops != [] {
      var changed := StepLive(s, ops[0]);
      LiveBlockStays(Step(s, ops[0]), ops[1..], b);
    }
  }

  lemma AllocLive(s: State, size: nat) returns (b: Block)
    requires HeapInv(s.blocks, s.end) && size > 0 && Enabled(s, Alloc(size))
    ensures b !in Live(s.blocks) && Live(Step(s, Alloc(size)).blocks) == Live(s.blocks) + {b}
    ensures size <= b.size < size + 8 + HDR + 8
  {
    ServedFits(s, size);
    Align8RoundsUp(size);
    var g := Served(s, Align8(size));
    var k := FirstFit(g.blocks, Align8(size));
    TakenLive(g.blocks, g.end, k, Align8(size));
    TakenExact(g.blocks, k, Align8(size));
    b := Taken(g.blocks, k, Align8(size))[k];
  }

  /** One step changes the live blocks by exactly the block `b` allocated or released. */
  lemma StepLive(s: State, op: Op) returns (b: Block)
    requires HeapInv(s.blocks, s.end) && Enabled(s, op)
    ensures op.Alloc? && op.size > 0 ==>
              && b !in Live(s.blocks) && Live(Step(s, op).blocks) == Live(s.blocks) + {b}
              && op.size <= b.size < op.size + 8 + HDR + 8
    ensures op.Free? && op.addr != 0 ==>
              b in Live(s.blocks) && b.addr + HDR == op.addr && Live(Step(s, op).blocks) == Live(s.blocks) - {b}
    ensures op.Brk? || (op.Alloc? && op.size == 0) || (op.Free? && op.addr == 0) ==>
            Live(Step(s, op).blocks) == Live(s.blocks)
  {
    b := Block(0, 0, false);
    match op
    case Alloc(size) =>
      if size > 0 {
        b := AllocLive(s, size);
      }
    case Free(addr) =>
      if addr != 0 {
        var k := IndexOf(s.blocks, addr - HDR);
        ReleasedLive(s.blocks, s.end, k);
        b := s.blocks[k];
      }
    case Brk(nbytes) =>
      if nbytes != 0 {
        GrownKeeps(s.blocks, s.end, GrowBytes(nbytes));
      }
  }

  // ----- the headers in memory -----

  /** `kmem_block_t`; links are addresses, 0 for none. */
  datatype Header = Header(size: nat, used: bool, next: nat, prev: nat)

  function NextOf(bs: seq<Block>, i: nat): nat { if i + 1 < |bs| then bs[i + 1].addr else 0 }
  function PrevOf(bs: seq<Block>, i: nat): nat { if 0 < i <= |bs| then bs[i - 1].addr else 0 }

  ghost predicate LinkedAt(hdr: map<nat, Header>, bs: seq<Block>, i: nat)
    requires i < |bs|
  {
    bs[i].addr in hdr && hdr[bs[i].addr] == Header(bs[i].size, bs[i].used, NextOf(bs, i), PrevOf(bs, i))
  }

  /** Memory holds the list: forward and backward links are mutually inverse by construction. */
  ghost predicate Linked(hdr: map<nat, Header>, bs: seq<Block>) {
    forall i: nat | i < |bs| :: LinkedAt(hdr, bs, i)
  }

  ghost predicate Distinct(bs: seq<Block>) {
    forall i: nat, j: nat | i < j < |bs| :: bs[i].addr < bs[j].addr
  }

  lemma TiledDistinct(bs: seq<Block>, hi: nat)
    requires Tiled(bs, hi) && Sized(bs)
    ensures Distinct(bs) && forall i: nat | i < |bs| :: 0 < bs[i].addr < hi
  {
    forall i: nat, j: nat | i < j < |bs|
      ensures bs[i].addr < bs[j].addr
    {
      Ascending(bs, hi, i, j);
    }
    forall i: nat | i < |bs|
      ensures 0 < bs[i].addr < hi
    {
      Aligned(bs, hi, i);
      Ascending(bs, hi, i, |bs|);
    }
  }

  /** The headers after a growth. */
  lemma LinkGrown(hdr: map<nat, Header>, hdr': map<nat, Header>, bs: seq<Block>, hi: nat, total: nat)
    requires Linked(hdr, bs) && Distinct(bs) && (forall i: nat | i < |bs| :: 0 < bs[i].addr < hi) && total >= HDR
    requires var n := |bs| - 1;
             if bs == [] then hdr' == hdr[hi := Header(total - HDR, false, 0, 0)]
             else if !bs[n].used then
               hdr' == hdr[bs[n].addr := Header(bs[n].size + total, false, 0, PrevOf(bs, n))]
             else
               hdr' == hdr[hi := Header(total - HDR, false, 0, bs[n].addr)]
                          [bs[n].addr := Header(bs[n].size, true, hi, PrevOf(bs, n))]
    ensures Linked(hdr', Grown(bs, hi, total))
  {
    var r := Grown(bs, hi, total);
    forall i: nat | i < |r|
      ensures LinkedAt(hdr', r, i)
    {
      assert i < |bs| ==> LinkedAt(hdr, bs, i);
    }
  }

  lemma LinkWhole(hdr0: map<nat, Header>, hdr: map<nat, Header>, bs: seq<Block>, k: nat, size: nat)
    requires k < |bs| && size <= bs[k].size < size + HDR + 8 && (forall i: nat | i < |bs| :: LinkedAt(hdr0, bs, i))
    requires forall i: nat, j: nat | i < j < |bs| :: bs[i].addr != bs[j].addr
    requires bs[k].addr in hdr0 && hdr == hdr0[bs[k].addr := hdr0[bs[k].addr].(used := true)]
    ensures forall i: nat | i < |bs| :: LinkedAt(hdr, Taken(bs, k, size), i)
  {
    forall i: nat | i < |bs|
      ensures LinkedAt(hdr, Taken(bs, k, size), i)
    {
      assert LinkedAt(hdr0, bs, i);
    }
  }

  /** The headers after block `k` is split for `size` bytes. */
  lemma LinkSplit(hdr: map<nat, Header>, hdr': map<nat, Header>, bs: seq<Block>, k: nat, size: nat)
    requires Linked(hdr, bs) && Distinct(bs) && k < |bs| && !bs[k].used && bs[k].size >= size + HDR + 8
    requires k + 1 < |bs| ==> bs[k].addr + HDR + size < bs[k + 1].addr
    requires var b, split := bs[k].addr, bs[k].addr + HDR + size;
             var h1 := hdr[split := Header(bs[k].size - size - HDR, false, NextOf(bs, k), b)];
             var h2 := if k + 1 < |bs|
                 then h1[bs[k + 1].addr := Header(bs[k + 1].size, bs[k + 1].used, NextOf(bs, k + 1), split)] else h1;
             hdr' == h2[b := Header(size, true, split, PrevOf(bs, k))]
    ensures Linked(hdr', Taken(bs, k, size))
  {
    var r := Taken(bs, k, size);
    forall i: nat | i < |r|
      ensures LinkedAt(hdr', r, i)
    {
      if i < k {
        assert LinkedAt(hdr, bs, i);
      } else if i > k + 1 {
        assert LinkedAt(hdr, bs, i - 1);
      }
    }
  }

  /** Blocks `k` and `k + 1` joined in the list. */
  function Merged(bs: seq<Block>, k: nat): (r: seq<Block>)
    requires k + 1 < |bs|
  {
    bs[..k] + [bs[k].(size := bs[k].size + HDR + bs[k + 1].size)] + bs[k + 2..]
  }

  /** Merging with the next, then with the previous block, is the release in one piece. */
  lemma MergesAreReleased(bs: seq<Block>, k: nat)
    requires k < |bs|
    ensures var b1 := bs[k := bs[k].(used := false)];
            var b2 := if NextFree(bs, k) then Merged(b1, k) else b1;
            (if PrevFree(bs, k) then Merged(b2, k - 1) else b2) == Released(bs, k)
  {
  }

  /** The headers after block `k` absorbs the next one. */
  lemma LinkMerged(hdr: map<nat, Header>, hdr': map<nat, Header>, bs: seq<Block>, k: nat)
    requires Linked(hdr, bs) && Distinct(bs) && k + 1 < |bs|
    requires var b := bs[k].addr;
             var h1 := hdr[b := Header(bs[k].size + HDR + bs[k + 1].size, bs[k].used, NextOf(bs, k + 1),
                 PrevOf(bs, k))];
             hdr' == if k + 2 < |bs|
                 then h1[bs[k + 2].addr := Header(bs[k + 2].size, bs[k + 2].used, NextOf(bs, k + 2), b)] else h1
    ensures Linked(hdr', Merged(bs, k)) && Distinct(Merged(bs, k))
  {
    var r := Merged(bs, k);
    forall i: nat | i < |r|
      ensures LinkedAt(hdr', r, i)
    {
      if i < k {
        assert LinkedAt(hdr, bs, i);
      } else if i > k {
        assert LinkedAt(hdr, bs, i + 1);
      }
    }
  }

  class KernelHeap {
    var head: nat
    var end: nat
    var hdr: map<nat, Header>
    ghost var blocks: seq<Block>

    ghost predicate Valid()
      reads this
    {
      HeapInv(blocks, end) && Linked(hdr, blocks) && head == At(blocks, 0, 0)
    }

    ghost function Abs(): State
      reads this
    {
      State(blocks, end)
    }

    constructor ()
      ensures Valid() && Abs() == State([], BASE)
    {
      head, end, hdr, blocks := 0, BASE, map[], [];
    }

    /** The first-fit search along the links. */
    method Find(size: nat) returns (blk: nat, ghost k: nat)
      requires Valid()
      ensures k == FirstFit(blocks, size)
      ensures blk == At(blocks, FirstFit(blocks, size), 0)
    {
      blk, k := head, 0;
      TiledDistinct(blocks, end);
      while blk != 0
        invariant k <= |blocks| && blk == At(blocks, k, 0)
        invariant k + FirstFit(blocks[k..], size) == FirstFit(blocks, size)
        decreases |blocks| - k
      {
        assert LinkedAt(hdr, blocks, k) && blocks[k..][0] == blocks[k] && blocks[k..][1..] == blocks[k + 1..];
        if !hdr[blk].used && hdr[blk].size >= size { return; }
        blk := hdr[blk].next;
        k := k + 1;
      }
    }

    /** `kmem_heap_grow`; `pages` says how many pages can still be mapped. A panic stops the kernel. */
    method GrowBy(nbytes: nat, pages: nat) returns (panic: bool)
      requires Valid() && nbytes <= 0x1000_0000
      modifies this
      ensures panic == (!CanGrow(old(Abs()), GrowBytes(nbytes)) || GrowBytes(nbytes) / PAGE > pages)
      ensures panic ==> Valid() && Abs() == old(Abs())
      ensures !panic ==> Valid() && Abs() == Grow(old(Abs()), nbytes)
    {
      var total := GrowBytes(nbytes);
      if end + total > LIMIT { return true; }
      if total / PAGE > pages { return true; }
      TiledDistinct(blocks, end);
      var last, cur := 0, head;
      ghost var k := 0;
      while cur != 0
        invariant k <= |blocks| && cur == At(blocks, k, 0) && last == PrevOf(blocks, k)
        decreases |blocks| - k
      {
        assert LinkedAt(hdr, blocks, k);
        last := cur;
        cur := hdr[cur].next;
        k := k + 1;
      }
      ghost var hdr0 := hdr;
      if blocks != [] {
        assert LinkedAt(hdr, blocks, |blocks| - 1) && TileAt(blocks, end, |blocks| - 1);
      }
      if last != 0 && !hdr[last].used && last + HDR + hdr[last].size == end {
        hdr := hdr[last := hdr[last].(size := hdr[last].size + total)];
      } else {
        hdr := hdr[end := Header(total - HDR, false, 0, last)];
        if last != 0 {
          hdr := hdr[last := hdr[last].(next := end)];
        } else {
          head := end;
        }
      }
      LinkGrown(hdr0, hdr, blocks, end, total);
      GrownKeeps(blocks, end, total);
      blocks := Grown(blocks, end, total);
      end := end + total;
      return false;
    }

    /** `kmem_brk`. */
    method Brk(nbytes: nat, pages: nat) returns (panic: bool, r: nat)
      requires Valid() && nbytes <= 0x1000_0000
      modifies this
      ensures Valid() && r == end
      ensures panic == (nbytes != 0 && (!CanGrow(old(Abs()), GrowBytes(nbytes)) || GrowBytes(nbytes) / PAGE > pages))
      ensures Abs() == if nbytes != 0 && !panic then Grow(old(Abs()), nbytes) else old(Abs())
    {
      if nbytes == 0 { return false, end; }
      panic := GrowBy(nbytes, pages);
      r := end;
    }

    /** The tail of `kmem_alloc`: splits block `blk` if worth it, and marks it used. */
    method Take(blk: nat, ghost k: nat, size: nat)
      requires Valid() && k < |blocks| && blk == blocks[k].addr && Fits(blocks[k], size) && size >= 8 && size % 8 == 0
      modifies this`hdr, this`blocks
      ensures Valid() && blocks == Taken(old(blocks), k, size) && size <= blocks[k].size < size + HDR + 8
    {
      TiledDistinct(blocks, end);
      TakenKeeps(blocks, end, k, size);
      assert LinkedAt(hdr, blocks, k) && TileAt(blocks, end, k) && (k + 1 < |blocks| ==> LinkedAt(hdr, blocks, k + 1));
      ghost var hdr0, bs := hdr, blocks;
      if hdr[blk].size >= size + HDR + 8 {
        var split := blk + HDR + size;
        var next := hdr[blk].next;
        hdr := hdr[split := Header(hdr[blk].size - size - HDR, false, next, blk)];
        if next != 0 {
          hdr := hdr[next := hdr[next].(prev := split)];
        }
        hdr := hdr[blk := hdr[blk].(next := split)];
        hdr := hdr[blk := hdr[blk].(size := size)];
        hdr := hdr[blk := hdr[blk].(used := true)];
        LinkSplit(hdr0, hdr, bs, k, size);
      } else {
        hdr := hdr[blk := hdr[blk].(used := true)];
        LinkWhole(hdr0, hdr, bs, k, size);
      }
      TakenExact(bs, k, size);
      blocks := Taken(bs, k, size);
    }

    /** `kmem_alloc`: null for a zero size; else the payload of the lowest block that fits, after
        growth if none did. Only `kmem_heap_grow` can panic: the out-of-memory panic is dead code. */
    method Alloc(size: nat, pages: nat) returns (panic: bool, addr: nat)
      requires Valid() && size <= 0x1000_0000
      modifies this
      ensures Valid()
      ensures panic == (size != 0 && FirstFit(old(blocks), Align8(size)) == |old(blocks)|
                        && (!CanGrow(old(Abs()), GrowBytes(Align8(size))) || GrowBytes(Align8(size)) / PAGE > pages))
      ensures panic || size == 0 ==> addr == 0 && Abs() == old(Abs())
      ensures !panic && size != 0 ==> Enabled(old(Abs()), Op.Alloc(size)) && Abs() == Step(old(Abs()), Op.Alloc(size))
      ensures !panic && size != 0 ==>
                var g := Served(old(Abs()), Align8(size));
                FirstFit(g.blocks, Align8(size)) < |g.blocks|
                    && addr == g.blocks[FirstFit(g.blocks, Align8(size))].addr + HDR
    {
      if size == 0 { return false, 0; }
      var need := Align8(size);
      Align8RoundsUp(size);
      var blk, k := Find(need);
      TiledDistinct(blocks, end);
      if blk == 0 {
        GrowMakesFit(blocks, end, need);
        panic := GrowBy(need, pages);
        if panic { return true, 0; }
        blk, k := Find(need);
        TiledDistinct(blocks, end);
        assert blk != 0;
      }
      Take(blk, k, need);
      return false, blk + HDR;
    }

    /** Joins block `blk` with the block after it. */
    method Absorb(blk: nat, ghost k: nat)
      requires Linked(hdr, blocks) && Distinct(blocks) && k + 1 < |blocks| && blk == blocks[k].addr
      requires forall i: nat | i < |blocks| :: 0 < blocks[i].addr
      modifies this`hdr, this`blocks
      ensures Linked(hdr, blocks) && Distinct(blocks) && blocks == Merged(old(blocks), k)
      ensures forall i: nat | i < |blocks| :: 0 < blocks[i].addr
    {
      assert LinkedAt(hdr, blocks, k) && LinkedAt(hdr, blocks, k + 1)
          && (k + 2 < |blocks| ==> LinkedAt(hdr, blocks, k + 2));
      ghost var hdr0, bs := hdr, blocks;
      var nxt := hdr[blk].next;
      var after := hdr[nxt].next;
      hdr := hdr[blk := hdr[blk].(size := hdr[blk].size + HDR + hdr[nxt].size)];
      hdr := hdr[blk := hdr[blk].(next := after)];
      if after != 0 {
        hdr := hdr[after := hdr[after].(prev := blk)];
      }
      LinkMerged(hdr0, hdr, bs, k);
      blocks := Merged(bs, k);
    }

    /** `kmem_free` of null, or of a payload address that belongs to a block. Freeing a block that
        is already free panics; otherwise the block joins its free neighbours. */
    method Release(addr: nat, ghost k: nat) returns (panic: bool)
      requires Valid() && (addr == 0 || (k < |blocks| && addr == blocks[k].addr + HDR))
      modifies this`hdr, this`blocks
      ensures Valid()
      ensures panic == (addr != 0 && !old(blocks)[k].used)
      ensures panic || addr == 0 ==> blocks == old(blocks)
      ensures !panic && addr != 0 ==> blocks == Released(old(blocks), k)
    {
      if addr == 0 { return false; }
      TiledDistinct(blocks, end);
      ghost var bs := blocks;
      assert LinkedAt(hdr, bs, k);
      var blk := addr - HDR;
      if !hdr[blk].used { return true; }
      ReleasedKeeps(bs, end, k);
      MarkFree(blk, k);
      Coalesce(blk, k, bs);
      return false;
    }

    method MarkFree(blk: nat, ghost k: nat)
      requires Linked(hdr, blocks) && Distinct(blocks) && k < |blocks| && blk == blocks[k].addr
      modifies this`hdr, this`blocks
      ensures Linked(hdr, blocks) && Distinct(blocks) && blocks == old(blocks)[k := old(blocks)[k].(used := false)]
    {
      ghost var bs, hdr0 := blocks, hdr;
      assert LinkedAt(hdr, bs, k);
      hdr := hdr[blk := hdr[blk].(used := false)];
      blocks := bs[k := bs[k].(used := false)];
      forall i: nat | i < |bs|
        ensures LinkedAt(hdr, blocks, i)
      {
        assert LinkedAt(hdr0, bs, i);
      }
    }

    /** The two merges of `kmem_free`. */
    method Coalesce(blk: nat, ghost k: nat, ghost bs: seq<Block>)
      requires k < |bs| && blk == bs[k].addr && blocks == bs[k := bs[k].(used := false)]
      requires Linked(hdr, blocks) && Distinct(blocks) && forall i: nat | i < |blocks| :: 0 < blocks[i].addr
      modifies this`hdr, this`blocks
      ensures Linked(hdr, blocks) && blocks == Released(bs, k)
    {
      assert LinkedAt(hdr, blocks, k) && (k + 1 < |bs| ==> LinkedAt(hdr, blocks, k + 1));
      var next := hdr[blk].next;
      if next != 0 && !hdr[next].used {
        Absorb(blk, k);
      }
      assert LinkedAt(hdr, blocks, k) && (k > 0 ==> LinkedAt(hdr, blocks, k - 1) && blocks[k - 1] == bs[k - 1]);
      var prev := hdr[blk].prev;
      if prev != 0 && !hdr[prev].used {
        Absorb(prev, k - 1);
      }
      MergesAreReleased(bs, k);
    }

    /** `kmem_size`: the payload size of a block. */
    method Size(addr: nat, ghost k: nat) returns (size: nat)
      requires Valid() && (addr == 0 || (k < |blocks| && addr == blocks[k].addr + HDR))
      ensures size == if addr == 0 then 0 else blocks[k].size
    {
      if addr == 0 { return 0; }
      assert LinkedAt(hdr, blocks, k);
      return hdr[addr - HDR].size;
    }

    /** `kmem_dyn_alloc_query`: counts and bytes along the list. Payload and header bytes together
        are the whole heap. */
    method Query() returns (total: nat, used: nat, usedBytes: nat, freeBytes: nat)
      requires Valid()
      ensures total == |blocks| && used == Count(blocks, true) && total - used == Count(blocks, false)
      ensures usedBytes == Bytes(blocks, true) && freeBytes == Bytes(blocks, false)
      ensures usedBytes + freeBytes + HDR * total == end - BASE
    {
      total, used, usedBytes, freeBytes := 0, 0, 0, 0;
      TiledDistinct(blocks, end);
      AllBytes(blocks, end, 0);
      var blk := head;
      while blk != 0
        invariant total <= |blocks| && blk == At(blocks, total, 0)
        invariant used + Count(blocks[total..], true) == Count(blocks, true)
        invariant total - used + Count(blocks[total..], false) == Count(blocks, false)
        invariant usedBytes + Bytes(blocks[total..], true) == Bytes(blocks, true)
        invariant freeBytes + Bytes(blocks[total..], false) == Bytes(blocks, false)
        decreases |blocks| - total
      {
        assert LinkedAt(hdr, blocks, total) && blocks[total..][0] == blocks[total]
            && blocks[total..][1..] == blocks[total + 1..];
        if hdr[blk].used {
          used, usedBytes := used + 1, usedBytes + hdr[blk].size;
        } else {
          freeBytes := freeBytes + hdr[blk].size;
        }
        blk := hdr[blk].next;
        total := total + 1;
      }
      assert blocks[total..] == [] && blocks[0..] == blocks;
    }
  }

  function Count(bs: seq<Block>, used: bool): nat {
    if bs == [] then 0 else (if bs[0].used == used then 1 else 0) + Count(bs[1..], used)
  }

  function Bytes(bs: seq<Block>, used: bool): nat {
    if bs == [] then 0 else (if bs[0].used == used then bs[0].size else 0) + Bytes(bs[1..], used)
  }

  /** From block `i` on, payloads and headers fill the heap to its end. */
  lemma {:induction false} AllBytes(bs: seq<Block>, hi: nat, i: nat)
    requires Tiled(bs, hi) && i <= |bs|
    ensures Bytes(bs[i..], true) + Bytes(bs[i..], false) + HDR * (|bs| - i) == hi - At(bs, i, hi)
    decreases |bs| - i
  {
    if i < |bs| {
      assert bs[i..][0] == bs[i] && bs[i..][1..] == bs[i + 1..] && TileAt(bs, hi, i);
      AllBytes(bs, hi, i + 1);
    }
  }
}
