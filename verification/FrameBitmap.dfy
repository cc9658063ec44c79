/**
  The physical frame allocator: one bit per 4 KiB frame of a 64 MiB machine, 0 = free.
  The bitmap refines a plain set of free frames.
 */
module FrameBitmap {
  import opened Bits

  const FRAME_SIZE := 4096
  const TOTAL := 16384        // 64 MiB of frames
  const RESERVED := 1024      // the identity-mapped first 4 MiB
  const WORDS := 512

  ghost function FreeSet(ws: seq<Word>): (s: set<nat>)
    requires |ws| == WORDS
    ensures forall f: nat :: f in s <==> f < TOTAL && !Bit(ws, f)
  {
    set f: nat | f < TOTAL && !Bit(ws, f)
  }

  /** The least element. */
  ghost function Lowest(s: set<nat>): (m: nat)
    requires s != {}
    ensures m in s && forall f | f in s :: m <= f
  {
    LowestExists(s);
    var m :| m in s && forall f | f in s :: m <= f;
    m
  }

  lemma LowestExists(s: set<nat>)
    requires s != {}
    ensures exists m :: m in s && forall f | f in s :: m <= f
  {
    var x :| x in s;
    LowestAbove(s, 0, x);
  }

  lemma {:induction false} LowestAbove(s: set<nat>, k: nat, x: nat)
    requires x in s && forall f | f in s :: k <= f
    ensures exists m :: m in s && forall f | f in s :: m <= f
    decreases x - k
  {
    if k !in s {
      LowestAbove(s, k + 1, x);
    }
  }

  lemma FrameAddress(f: nat)
    ensures f * FRAME_SIZE / FRAME_SIZE == f && f * FRAME_SIZE % FRAME_SIZE == 0
  {
  }

  class FrameAllocator {
    const bitmap: array<Word>

    ghost predicate Valid()
      reads this, bitmap
    {
      bitmap.Length == WORDS && forall f: nat | f < RESERVED :: Bit(bitmap[..], f)
    }

    ghost function Free(): (s: set<nat>)
      requires Valid()
      reads this, bitmap
      ensures forall f | f in s :: RESERVED <= f < TOTAL
    {
      FreeSet(bitmap[..])
    }

    constructor ()
      ensures Valid() && fresh(bitmap)
      ensures Free() == Span(RESERVED, TOTAL)
    {
      bitmap := new Word[WORDS](_ => Ones());
      new;
      for i := RESERVED to TOTAL
        invariant forall f: nat | f < TOTAL :: Bit(bitmap[..], f) == !(RESERVED <= f < i)
      {
        Put(i, false);
      }
    }

    method Put(frame: nat, used: bool)
      requires bitmap.Length == WORDS && frame < TOTAL
      modifies bitmap
      ensures bitmap[..] == WithBit(old(bitmap[..]), frame, used)
    {
      bitmap[frame / 32] := bitmap[frame / 32][frame % 32 := used];
    }

    /** The lowest free frame, or address 0 exactly when no frame is free. */
    method AllocFrame() returns (addr: nat)
      requires Valid()
      modifies bitmap
      ensures Valid()
      ensures addr == 0 <==> old(Free()) == {}
      ensures addr == 0 ==> Free() == old(Free())
      ensures addr != 0 ==>
                && addr % FRAME_SIZE == 0
                && old(Free()) != {} && addr / FRAME_SIZE == Lowest(old(Free()))
                && Free() == old(Free()) - {addr / FRAME_SIZE}
    {
      for i := 0 to WORDS
        invariant bitmap[..] == old(bitmap[..])
        invariant forall f: nat | f < 32 * i :: Bit(bitmap[..], f)
      {
        if bitmap[i] == Ones() { continue; }
        for j := 0 to 32
          invariant bitmap[..] == old(bitmap[..])
          invariant forall f: nat | f < 32 * i + j :: Bit(bitmap[..], f)
        {
          var frame := i * 32 + j;
          if !bitmap[frame / 32][frame % 32] {
            assert frame in Free();
            Put(frame, true);
            return frame * FRAME_SIZE;
          }
        }
      }
      return 0;
    }

    /** Frees the frame at `addr`; a misaligned, reserved or out-of-range address is ignored. */
    method FreeFrame(addr: nat)
      requires Valid()
      modifies bitmap
      ensures Valid()
      ensures Free() == old(Free()) +
                        (if addr % FRAME_SIZE == 0 && RESERVED <= addr / FRAME_SIZE < TOTAL
                         then {addr / FRAME_SIZE} else {})
    {
      if addr % FRAME_SIZE != 0 { return; }
      var index := addr / FRAME_SIZE;
      if index >= TOTAL || index < RESERVED { return; }
      Put(index, false);
    }

    /** The lowest start of `n` adjacent free frames, or 0 exactly when there is none (or `n` is 0). */
    method AllocContiguous(n: nat) returns (addr: nat)
      requires Valid()
      modifies bitmap
      ensures Valid()
      ensures addr == 0 ==> Free() == old(Free()) && (n == 0 || NoRun(old(bitmap[..]), TOTAL, n))
      ensures addr != 0 ==>
                && addr % FRAME_SIZE == 0
                && LowestRun(old(bitmap[..]), TOTAL, n, addr / FRAME_SIZE)
                && Free() == old(Free()) - Span(addr / FRAME_SIZE, addr / FRAME_SIZE + n)
    {
      if n == 0 { return 0; }
      var count, start := 0, 0;
      for i := 0 to TOTAL
        invariant bitmap[..] == old(bitmap[..])
        invariant RunSoFar(bitmap[..], n, i, count, start)
      {
        assert Bit(bitmap[..], i) == bitmap[i / 32][i % 32];
        if !bitmap[i / 32][i % 32] {
          ScanClear(bitmap[..], TOTAL, n, i, count, start);
          if count == 0 { start := i; }
          count := count + 1;
          if count == n {
            assert RESERVED <= start by { assert !Bit(bitmap[..], start); }
            assert LowestRun(old(bitmap[..]), TOTAL, n, start) && Free() == old(Free());
            FrameAddress(start);
            TakeRun(start, n);
            return start * FRAME_SIZE;
          }
        } else {
          ScanSet(bitmap[..], n, i, count, start);
          count := 0;
        }
      }
      return 0;
    }

    /** Marks `n` frames from `start` as used. */
    method TakeRun(start: nat, n: nat)
      requires Valid() && start + n <= TOTAL
      modifies bitmap
      ensures Valid() && Free() == old(Free()) - Span(start, start + n)
    {
      for j := start to start + n
        invariant forall f: nat | f < TOTAL :: Bit(bitmap[..], f) == (start <= f < j || old(Bit(bitmap[..], f)))
      {
        Put(j, true);
      }
    }

    /** Frees `n` frames from `base`, all or nothing. */
    method FreeContiguous(base: nat, n: nat)
      requires Valid()
      requires base <= TOTAL * FRAME_SIZE
      modifies bitmap
      ensures Valid()
      ensures Free() == old(Free()) +
                        (if base % FRAME_SIZE == 0 && RESERVED <= base / FRAME_SIZE && base / FRAME_SIZE + n <= TOTAL
                         then Span(base / FRAME_SIZE, base / FRAME_SIZE + n) else {})
    {
      if n == 0 || base % FRAME_SIZE != 0 { return; }
      var start := base / FRAME_SIZE;
      if start < RESERVED || n > TOTAL - start { return; }
      for i := start to start + n
        invariant forall f: nat | f < TOTAL ::
            Bit(bitmap[..], f) == (old(Bit(bitmap[..], f)) && !(start <= f < i))
      {
        Put(i, false);
      }
    }

    /** The number of free frames. */
    method FreeCount() returns (count: nat)
      requires Valid()
      ensures count == |Free()|
    {
      count := 0;
      for i := 0 to TOTAL
        invariant count == |set f: nat | f < i && f in Free()|
      {
        assert (set f: nat | f < i + 1 && f in Free())
            == (set f: nat | f < i && f in Free()) + (if i in Free() then {i as nat} else {});
        if !bitmap[i / 32][i % 32] { count := count + 1; }
      }
      assert (set f: nat | f < TOTAL && f in Free()) == Free();
    }
  }
}
