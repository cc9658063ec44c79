/**
  32-bit words seen as their bits, least significant bit first, and bitmaps made of such words.
  Bitwise C operators act position by position; `Increment` is the ripple-carry `+ 1`.
 */
module Bits {
  type Word = w: seq<bool> | |w| == 32 witness seq(32, _ => false)

  function Zero(): Word { seq(32, _ => false) }
  function Ones(): Word { seq(32, _ => true) }

  function Not(w: seq<bool>): (r: seq<bool>)
    ensures |r| == |w|
  {
    seq(|w|, i requires 0 <= i < |w| => !w[i])
  }

  function And(a: seq<bool>, b: seq<bool>): (r: seq<bool>)
    requires |a| == |b|
    ensures |r| == |a|
  {
    seq(|a|, i requires 0 <= i < |a| => a[i] && b[i])
  }

  /** `w + 1`, dropping the carry out of the last bit. */
  function Increment(w: seq<bool>): (r: seq<bool>)
    ensures |r| == |w|
  {
    if w == [] then []
    else if w[0] then [false] + Increment(w[1..])
    else [true] + w[1..]
  }

  /** `w & (~w + 1)`, the C idiom that keeps only the lowest set bit. */
  function Isolate(w: seq<bool>): (r: seq<bool>)
    ensures |r| == |w|
  {
    And(w, Increment(Not(w)))
  }

  predicate IsLowest(w: seq<bool>, k: nat) {
    k < |w| && w[k] && forall j | 0 <= j < k :: !w[j]
  }

  /** The idiom is right: it keeps the lowest set bit and no other. */
  lemma {:induction false} IsolateKeepsLowest(w: seq<bool>, k: nat)
    requires IsLowest(w, k)
    ensures forall i | 0 <= i < |w| :: Isolate(w)[i] == (i == k)
  {
    var n := Not(w);
    if w[0] {
      assert Increment(n) == [true] + n[1..];
    } else {
      assert Not(w[1..]) == n[1..];
      IsolateKeepsLowest(w[1..], k - 1);
      assert Isolate(w) == [false] + Isolate(w[1..]);
    }
  }

  /** Bit `i` of a bitmap stored as an array of words: `map[i / 32] >> (i % 32) & 1`. */
  predicate Bit(ws: seq<Word>, i: nat)
    requires i < 32 * |ws|
  {
    ws[i / 32][i % 32]
  }

  /** The bitmap after a single-bit set (`|=`) or clear (`&= ~`). */
  function WithBit(ws: seq<Word>, i: nat, v: bool): (r: seq<Word>)
    requires i < 32 * |ws|
    ensures |r| == |ws|
    ensures forall j: nat | j < 32 * |ws| :: Bit(r, j) == if j == i then v else Bit(ws, j)
  {
    var r := ws[i / 32 := ws[i / 32][i % 32 := v]];
    assert forall j: nat | j < 32 * |ws| && j != i :: j / 32 == i / 32 ==> j % 32 != i % 32;
    r
  }

  /** No bit in `[start, start + n)` is set. */
  predicate FreeRun(ws: seq<Word>, start: nat, n: nat)
    requires start + n <= 32 * |ws|
  {
    forall i: nat | start <= i < start + n :: !Bit(ws, i)
  }

  /** `start` is the lowest place below `limit` where `n` clear bits fit. */
  ghost predicate LowestRun(ws: seq<Word>, limit: nat, n: nat, start: nat)
    requires limit <= 32 * |ws|
  {
    && start + n <= limit && FreeRun(ws, start, n)
    && forall s: nat | s < start :: !FreeRun(ws, s, n)
  }

  ghost predicate NoRun(ws: seq<Word>, limit: nat, n: nat)
    requires limit <= 32 * |ws|
  {
    forall s: nat | s + n <= limit :: !FreeRun(ws, s, n)
  }

  /** Scan invariant: the last `count` bits before `i` are clear, no run of `n` ends before `i`. */
  ghost predicate RunSoFar(ws: seq<Word>, n: nat, i: nat, count: nat, start: nat)
    requires i <= 32 * |ws|
  {
    && count < n && count <= i
    && (count > 0 ==> start == i - count)
    && FreeRun(ws, i - count, count)
    && (count < i ==> Bit(ws, i - count - 1))
    && forall s: nat | s + n <= i :: !FreeRun(ws, s, n)
  }

  /** A clear bit extends the current run; when it completes it, the run is the lowest one. */
  lemma ScanClear(ws: seq<Word>, limit: nat, n: nat, i: nat, count: nat, start: nat)
    requires i < limit <= 32 * |ws| && RunSoFar(ws, n, i, count, start) && !Bit(ws, i)
    ensures var start' := if count == 0 then i else start;
            if count + 1 == n then LowestRun(ws, limit, n, start') else RunSoFar(ws, n, i + 1, count + 1, start')
  {
    var start' := if count == 0 then i else start;
    assert forall k: nat | start' <= k < start' + count + 1 :: !Bit(ws, k);
    if count + 1 < n {
      forall s: nat | s + n <= i + 1
        ensures !FreeRun(ws, s, n)
      {
        if s + n == i + 1 { assert Bit(ws, i - count - 1); }
      }
    }
  }

  /** A set bit ends the current run. */
  lemma ScanSet(ws: seq<Word>, n: nat, i: nat, count: nat, start: nat)
    requires i < 32 * |ws| && RunSoFar(ws, n, i, count, start) && Bit(ws, i)
    ensures RunSoFar(ws, n, i + 1, 0, start)
  {
    forall s: nat | s + n <= i + 1
      ensures !FreeRun(ws, s, n)
    {
      if s + n == i + 1 { assert Bit(ws, s + n - 1); }
    }
  }

  /** The numbers in `[lo, hi)`. */
  function Span(lo: nat, hi: nat): (s: set<nat>)
    ensures forall f: nat :: f in s <==> lo <= f < hi
    ensures lo <= hi ==> |s| == hi - lo
    decreases hi - lo
  {
    if lo >= hi then {} else {lo} + Span(lo + 1, hi)
  }
}
