/**
  Signal frames: what the kernel pushes on the user stack to run a handler, and what `sigreturn`
  takes back from it.
 */
module Sigframe {
  import opened Bits
  import Process
  import Kernel

  const WRAP: nat := 0x1_0000_0000
  const FRAME_SIZE: nat := 80
  const USER_CS: nat := 0x23
  const USER_DS: nat := 0x2B

  // ----- flags -----

  function ToNat(w: seq<bool>): nat {
    if w == [] then 0 else (if w[0] then 1 else 0) + 2 * ToNat(w[1..])
  }

  function FromNat(n: nat, len: nat): (w: seq<bool>)
    ensures |w| == len
  {
    if len == 0 then [] else [n % 2 == 1] + FromNat(n / 2, len - 1)
  }

  lemma {:induction false} FromToNat(w: seq<bool>)
    ensures FromNat(ToNat(w), |w|) == w
  {
    if w != [] { FromToNat(w[1..]); }
  }

  function Pow2(k: nat): nat { if k == 0 then 1 else 2 * Pow2(k - 1) }

  lemma {:induction false} ToFromNat(n: nat, len: nat)
    requires n < Pow2(len)
    ensures ToNat(FromNat(n, len)) == n
  {
    if len > 0 {
      ToFromNat(n / 2, len - 1);
      assert FromNat(n, len)[1..] == FromNat(n / 2, len - 1);
    }
  }

  function Flags(n: nat): Word { FromNat(n, 32) }

  /** The flags user code may change, 0xCD5: carry, parity, adjust, zero, sign, direction, overflow. */
  predicate Restorable(i: nat) { i in {0, 2, 4, 6, 7, 10, 11} }

  /** The flags that are always set, 0x202: the reserved bit and the interrupt flag. */
  predicate Forced(i: nat) { i == 1 || i == 9 }

  /** `(eflags & 0xCD5) | 0x202`. */
  function Sanitized(n: nat): nat {
    ToNat(seq(32, i requires 0 <= i < 32 => (Flags(n)[i] && Restorable(i)) || Forced(i)))
  }

  /** `eflags & ~(1 << 10)`. */
  function DirectionCleared(n: nat): nat { ToNat(Flags(n)[10 := false]) }

  /** Flags as ring 3 can have them: interrupts on, nothing set outside what is restored. */
  predicate UserFlags(n: nat) {
    forall i | 0 <= i < 32 :: (Forced(i) ==> Flags(n)[i]) && (!Forced(i) && !Restorable(i) ==> !Flags(n)[i])
  }

  /** Bit `i` of a number: shifted right by `i` it is odd. */
  predicate BitOf(n: nat, i: nat) { if i == 0 then n % 2 == 1 else BitOf(n / 2, i - 1) }

  lemma {:induction false} FlagsAreBits(n: nat, len: nat, i: nat)
    requires i < len
    ensures FromNat(n, len)[i] == BitOf(n, i)
  {
    if i > 0 { FlagsAreBits(n / 2, len - 1, i - 1); }
  }

  lemma {:induction false} HighBits(n: nat, k: nat, i: nat)
    requires n < Pow2(k) && i >= k
    ensures !BitOf(n, i)
  {
    if i > 0 { HighBits(n / 2, if k > 0 then k - 1 else 0, i - 1); }
  }

  /** Bits `i` to `i + 3` of a number, from the four bits above the lower ones. */
  lemma FourBits(n: nat, high: nat, a: bool, b: bool, c: bool, d: bool, i: nat)
    requires n == (if a then 1 else 0) + (if b then 2 else 0) + (if c then 4 else 0) + (if d then 8 else 0) + 16 * high
    ensures BitOf(n, i) == if i == 0 then a else if i == 1 then b else if i == 2 then c else if i == 3 then d
                           else BitOf(high, i - 4)
  {
    var n1, n2, n3 := n / 2, n / 4, n / 8;
    assert n1 / 2 == n2 && n2 / 2 == n3 && n3 / 2 == high;
    if i > 0 {
      assert BitOf(n, i) == BitOf(n1, i - 1);
      if i > 1 {
        assert BitOf(n1, i - 1) == BitOf(n2, i - 2);
        if i > 2 { assert BitOf(n2, i - 2) == BitOf(n3, i - 3); }
      }
    }
  }

  /** The two masks are those of the source. */
  lemma MasksAre(i: nat, restored: nat, forced: nat)
    requires i < 32 && restored == 0xCD5 && forced == 0x202
    ensures Restorable(i) == BitOf(restored, i) && Forced(i) == BitOf(forced, i)
  {
    FourBits(restored, 0xCD, true, false, true, false, i);
    FourBits(forced, 0x20, false, true, false, false, i);
    if i >= 4 {
      FourBits(0xCD, 0xC, true, false, true, true, i - 4);
      FourBits(0x20, 0x2, false, false, false, false, i - 4);
    }
    if i >= 8 {
      FourBits(0xC, 0, false, false, true, true, i - 8);
      FourBits(0x2, 0, false, true, false, false, i - 8);
    }
    if i >= 12 { HighBits(0, 0, i - 12); }
  }

  /** Each flag after sanitizing: as it was where user code may change it, set where it must be, else clear. */
  lemma SanitizedFlags(n: nat)
    ensures Sanitized(n) < WRAP
    ensures forall i | 0 <= i < 32 :: Flags(Sanitized(n))[i] == ((Flags(n)[i] && Restorable(i)) || Forced(i))
  {
    var w := seq(32, i requires 0 <= i < 32 => (Flags(n)[i] && Restorable(i)) || Forced(i));
    FromToNat(w);
    ToNatBound(w);
    WrapIsPow();
  }

  /** Clearing the direction flag changes bit 10 alone. */
  lemma ClearedFlags(n: nat)
    ensures DirectionCleared(n) < WRAP
    ensures forall i | 0 <= i < 32 :: Flags(DirectionCleared(n))[i] == (Flags(n)[i] && i != 10)
  {
    FromToNat(Flags(n)[10 := false]);
    ToNatBound(Flags(n)[10 := false]);
    WrapIsPow();
  }

  lemma {:induction false} ToNatBound(w: seq<bool>)
    ensures ToNat(w) < Pow2(|w|)
  {
    if w != [] { ToNatBound(w[1..]); }
  }

  lemma WrapIsPow()
    ensures Pow2(32) == WRAP
  {
    assert Pow2(8) == 256 && Pow2(16) == 65536 && Pow2(24) == 0x100_0000;
  }

  /** Sanitizing leaves flags alone exactly when they are user flags. */
  lemma SanitizedExact(n: nat)
    requires n < WRAP
    ensures Sanitized(n) == n <==> UserFlags(n)
  {
    var w := seq(32, i requires 0 <= i < 32 => (Flags(n)[i] && Restorable(i)) || Forced(i));
    WrapIsPow();
    ToFromNat(n, 32);
    FromToNat(w);
    if Sanitized(n) == n {
      assert w == Flags(n);
      forall i | 0 <= i < 32
        ensures (Forced(i) ==> Flags(n)[i]) && (!Forced(i) && !Restorable(i) ==> !Flags(n)[i])
      {
        assert w[i] == Flags(n)[i];
      }
    }
    if UserFlags(n) { assert w == Flags(n); }
  }

  // ----- frames -----

  /** `struct trap_frame`: sixteen words. */
  datatype Frame = Frame(ds: nat, edi: nat, esi: nat, ebp: nat, espSaved: nat, ebx: nat, edx: nat, ecx: nat, eax: nat,
                         intNo: nat, errCode: nat, eip: nat, cs: nat, eflags: nat, userEsp: nat, userSs: nat)

  function Words(f: Frame): (s: seq<nat>)
    ensures |s| == 16
  {
    [f.ds, f.edi, f.esi, f.ebp, f.espSaved, f.ebx, f.edx, f.ecx, f.eax, f.intNo, f.errCode, f.eip, f.cs, f.eflags,
     f.userEsp, f.userSs]
  }

  function FromWords(s: seq<nat>): Frame
    requires |s| == 16
  {
    Frame(s[0], s[1], s[2], s[3], s[4], s[5], s[6], s[7], s[8], s[9], s[10], s[11], s[12], s[13], s[14], s[15])
  }

  /** User memory, in aligned words. */
  type Memory = map<nat, nat>

  function At(mem: Memory, a: nat): nat { if a in mem then mem[a] else 0 }

  /** The base of a new signal frame: `((esp - 80) & ~15) - 4` on 32-bit words. */
  function Base(esp: nat): nat {
    var u := (esp + WRAP - FRAME_SIZE) % WRAP;
    (u - u % 16 + WRAP - 4) % WRAP
  }

  /** The frame ends at least four bytes below the interrupted stack pointer, exactly when there is room. */
  lemma FrameBelow(esp: nat)
    requires esp < WRAP
    ensures Base(esp) + FRAME_SIZE + 4 <= esp <==> esp >= 96
    ensures esp >= 96 ==> Base(esp) % 16 == 12 && esp <= Base(esp) + 99
  {
    var u := (esp + WRAP - FRAME_SIZE) % WRAP;
    if esp >= 80 {
      assert u == esp - 80;
      if esp >= 96 {
        var v := u - u % 16;
        assert v >= 16 && Base(esp) == v - 4;
      }
    } else {
      assert u == esp + WRAP - 80;
    }
  }

  /** mov eax, 119; int 0x80; nop - as two little-endian words. */
  const TRAMPOLINE: seq<nat> := [0x0000_77b8, 0x9080_cd00]

  /** Byte `b` of a word, little end first. */
  function ByteOf(w: nat, b: nat): nat
    requires b < 4
  {
    (w / [1, 0x100, 0x1_0000, 0x100_0000][b]) % 256
  }

  /** The trampoline as the source writes it, byte by byte; 119 is the number of `sigreturn`. */
  lemma TrampolineBytes()
    ensures var code := [0xb8, 119, 0, 0, 0, 0xcd, 0x80, 0x90];
            forall i | 0 <= i < 8 :: ByteOf(TRAMPOLINE[i / 4], i % 4) == code[i]
  {
  }

  /** The twenty words of a signal frame at `base`. */
  function Image(base: nat, sig: nat, f: Frame): (s: seq<nat>)
    ensures |s| == 20
  {
    [base + 72, sig] + Words(f) + TRAMPOLINE
  }

  /** Memory holds `s` from `base` on. */
  ghost predicate Holds(mem: Memory, base: nat, s: seq<nat>) {
    forall i | 0 <= i < |s| :: At(mem, base + 4 * i) == s[i]
  }

  ghost predicate SameOutside(mem: Memory, mem': Memory, base: nat, size: nat) {
    forall a: nat | !(base <= a < base + size) :: At(mem', a) == At(mem, a)
  }

  /** Memory after storing `s` upwards from `base`. */
  function Stored(mem: Memory, base: nat, s: seq<nat>): (mem': Memory) {
    if s == [] then mem else Stored(mem, base, s[..|s| - 1])[base + 4 * (|s| - 1) := s[|s| - 1]]
  }

  lemma {:induction false} StoredHolds(mem: Memory, base: nat, s: seq<nat>)
    ensures Holds(Stored(mem, base, s), base, s) && SameOutside(mem, Stored(mem, base, s), base, 4 * |s|)
  {
    if s != [] {
      var n := |s| - 1;
      StoredHolds(mem, base, s[..n]);
      assert forall i | 0 <= i < n :: s[..n][i] == s[i];
    }
  }

  /** The frame of the handler's first instruction. */
  function HandlerFrame(f: Frame, handler: nat): Frame {
    f.(eip := handler, userEsp := Base(f.userEsp), eflags := DirectionCleared(f.eflags))
  }

  /** A frame made safe for ring 3. */
  function Returned(f: Frame): Frame {
    f.(cs := USER_CS, userSs := USER_DS, ds := USER_DS, eflags := Sanitized(f.eflags))
  }

  /** The frame `sigreturn` resumes, called with stack pointer `esp`: the saved words start four bytes above it. */
  function Resumed(mem: Memory, esp: nat): Frame {
    Returned(FromWords(seq(16, i requires 0 <= i < 16 => At(mem, esp + 4 + 4 * i))))
  }

  /** A frame as an interrupt of ring 3 leaves it. */
  predicate UserFrame(f: Frame) {
    f.cs == USER_CS && f.userSs == USER_DS && f.ds == USER_DS && UserFlags(f.eflags)
  }

  /** What `sigreturn` resumes always runs in ring 3 with user flags, whatever user code left in memory,
      and the general registers, the stack pointer and the instruction pointer are those found there. */
  lemma ReturnedSafe(f: Frame)
    ensures UserFrame(Returned(f)) && Returned(f).eflags < WRAP
    ensures Returned(f) == f.(cs := Returned(f).cs, userSs := Returned(f).userSs, ds := Returned(f).ds,
                              eflags := Returned(f).eflags)
  {
    SanitizedFlags(f.eflags);
  }

  /** A saved frame comes back unchanged exactly when it is one ring 3 can have. */
  lemma ReturnedExact(f: Frame)
    requires f.eflags < WRAP
    ensures Returned(f) == f <==> UserFrame(f)
  {
    SanitizedExact(f.eflags);
  }

  /** Delivery then `sigreturn`: once the handler has popped its return address, whatever the frame
      held comes back, if nobody wrote over it. */
  lemma RoundTrip(mem: Memory, base: nat, sig: nat, f: Frame)
    requires Holds(mem, base, Image(base, sig, f))
    ensures Resumed(mem, base + 4) == Returned(f)
    ensures At(mem, base) == base + 72 && At(mem, base + 72) == TRAMPOLINE[0] && At(mem, base + 76) == TRAMPOLINE[1]
  {
    var s, w := Image(base, sig, f), seq(16, i requires 0 <= i < 16 => At(mem, base + 4 + 4 + 4 * i));
    forall i | 0 <= i < 16
      ensures w[i] == Words(f)[i]
    {
      assert At(mem, base + 4 * (i + 2)) == s[i + 2];
    }
    assert w == Words(f);
    assert At(mem, base + 4 * 0) == s[0] && At(mem, base + 4 * 18) == s[18] && At(mem, base + 4 * 19) == s[19];
  }

  // ----- handlers interrupted by handlers -----

  /** What happens while user code runs: stores of its own, and signals delivered to it, each with
      the handler and all that happens up to its `sigreturn`. */
  datatype Event = Write(addr: nat, value: nat) | Delivery(at: Frame, sig: nat, handler: nat, body: seq<Event>)

  /** The stack pointer that a handler starts with. */
  function StartEsp(f: Frame, handler: nat): nat { HandlerFrame(f, handler).userEsp }

  /** Memory when the handler starts. */
  function Pushed(mem: Memory, f: Frame, sig: nat): Memory {
    Stored(mem, Base(f.userEsp), Image(Base(f.userEsp), sig, f))
  }

  /** The address is inside a signal frame not yet returned from. */
  ghost predicate Live(frames: set<nat>, a: nat) {
    exists b | b in frames :: b <= a < b + FRAME_SIZE
  }

  /** The kernel delivers to a frame that ring 3 can have, with room on a stack that ends at `limit`. */
  predicate Delivered(f: Frame, limit: nat) {
    UserFrame(f) && f.eflags < WRAP && 96 <= f.userEsp <= limit
  }

  /** User code keeps off the pending signal frames, and its stack pointer never rises above `limit`.
      A handler starts with the stack pointer of its frame and has popped one word when it reaches the
      trampoline. */
  ghost predicate Proper(events: seq<Event>, frames: set<nat>, limit: nat) {
    if events == [] then true else
      && Proper(events[1..], frames, limit)
      && match events[0]
         case Write(a, _) => !Live(frames, a)
         case Delivery(f, _, handler, body) =>
           var esp := StartEsp(f, handler);
           Delivered(f, limit) && Proper(body, frames + {esp}, esp + 4)
  }

  function Exec(events: seq<Event>, mem: Memory): Memory {
    if events == [] then mem else
      match events[0]
      case Write(a, v) => Exec(events[1..], mem[a := v])
      case Delivery(f, sig, _, body) => Exec(events[1..], Exec(body, Pushed(mem, f, sig)))
  }

  /** Every `sigreturn` resumes exactly the frame that was interrupted, at every depth. */
  ghost predicate AllResume(events: seq<Event>, mem: Memory) {
    if events == [] then true else
      match events[0]
      case Write(a, v) => AllResume(events[1..], mem[a := v])
      case Delivery(f, sig, handler, body) =>
        var mem1 := Pushed(mem, f, sig);
        var mem2 := Exec(body, mem1);
        AllResume(body, mem1) && Resumed(mem2, StartEsp(f, handler) + 4) == f && AllResume(events[1..], mem2)
  }

  ghost predicate SameLive(mem: Memory, mem': Memory, frames: set<nat>) {
    forall a: nat | Live(frames, a) :: At(mem', a) == At(mem, a)
  }

  /** The new frame lies below every pending one. */
  lemma NewFrameApart(frames: set<nat>, limit: nat, f: Frame, base: nat, sig: nat, mem: Memory)
    requires limit < WRAP && (forall b | b in frames :: limit <= b + 4) && 96 <= f.userEsp <= limit
    requires base == Base(f.userEsp)
    ensures base + FRAME_SIZE + 4 <= limit && SameLive(mem, Stored(mem, base, Image(base, sig, f)), frames)
  {
    FrameBelow(f.userEsp);
    StoredHolds(mem, base, Image(base, sig, f));
  }

  lemma SameLiveTrans(mem: Memory, mem1: Memory, mem2: Memory, frames: set<nat>)
    requires SameLive(mem, mem1, frames) && SameLive(mem1, mem2, frames)
    ensures SameLive(mem, mem2, frames)
  {
  }

  /** A handler that keeps off its own frame gives the interrupted frame back. */
  lemma HandlerReturns(f: Frame, base: nat, sig: nat, mem: Memory, mem1: Memory, mem2: Memory, frames: set<nat>)
    requires mem1 == Stored(mem, base, Image(base, sig, f)) && SameLive(mem1, mem2, frames + {base})
    requires UserFrame(f) && f.eflags < WRAP
    ensures Resumed(mem2, base + 4) == f && SameLive(mem1, mem2, frames)
  {
    StoredHolds(mem, base, Image(base, sig, f));
    FrameKept(mem1, mem2, frames, base, Image(base, sig, f));
    RoundTrip(mem2, base, sig, f);
    ReturnedExact(f);
  }

  /** A delivery and its handler, up to the `sigreturn`. */
  lemma {:induction false} DeliveryRoundTrip(f: Frame, base: nat, sig: nat, body: seq<Event>, frames: set<nat>,
                                             mem: Memory, mem1: Memory, mem2: Memory)
    requires UserFrame(f) && f.eflags < WRAP && base + 4 < WRAP && (forall b | b in frames :: base <= b)
    requires Proper(body, frames + {base}, base + 4)
    requires mem1 == Stored(mem, base, Image(base, sig, f)) && mem2 == Exec(body, mem1)
    ensures AllResume(body, mem1) && Resumed(mem2, base + 4) == f && SameLive(mem1, mem2, frames)
    decreases body, 2
  {
    NestedRoundTrip(body, frames + {base}, base + 4, mem1);
    HandlerReturns(f, base, sig, mem, mem1, mem2, frames);
  }

  /** Round trip at any nesting depth: every frame is restored exactly and no pending frame is touched. */
  lemma {:induction false} NestedRoundTrip(events: seq<Event>, frames: set<nat>, limit: nat, mem: Memory)
    requires Proper(events, frames, limit) && limit < WRAP && forall b | b in frames :: limit <= b + 4
    ensures AllResume(events, mem) && SameLive(mem, Exec(events, mem), frames)
    decreases events, 1
  {
    if events != [] {
      match events[0] {
        case Write(a, v) =>
          var mem1 := mem[a := v];
          NestedRoundTrip(events[1..], frames, limit, mem1);
          assert SameLive(mem, mem1, frames);
          SameLiveTrans(mem, mem1, Exec(events[1..], mem1), frames);
        case Delivery(f, sig, handler, body) =>
          var base := Base(f.userEsp);
          NewFrameApart(frames, limit, f, base, sig, mem);
          var mem1 := Pushed(mem, f, sig);
          var mem2 := Exec(body, mem1);
          DeliveryRoundTrip(f, base, sig, body, frames, mem, mem1, mem2);
          NestedRoundTrip(events[1..], frames, limit, mem2);
          SameLiveTrans(mem, mem1, mem2, frames);
          SameLiveTrans(mem, mem2, Exec(events[1..], mem2), frames);
      }
    }
  }

  lemma FrameKept(mem: Memory, mem': Memory, frames: set<nat>, base: nat, s: seq<nat>)
    requires Holds(mem, base, s) && 4 * |s| <= FRAME_SIZE && SameLive(mem, mem', frames + {base})
    ensures Holds(mem', base, s) && SameLive(mem, mem', frames)
  {
    forall i | 0 <= i < |s|
      ensures At(mem', base + 4 * i) == s[i]
    {
      assert base in frames + {base};
      assert Live(frames + {base}, base + 4 * i);
    }
    forall a: nat | Live(frames, a)
      ensures At(mem', a) == At(mem, a)
    {
      var b :| b in frames && b <= a < b + FRAME_SIZE;
      assert b in frames + {base};
      assert Live(frames + {base}, a);
    }
  }

  /** Memory holds the registers `f` from `a` on, in the order of `struct trap_frame`. */
  ghost predicate SavedAt(mem: Memory, a: nat, f: Frame) {
    && At(mem, a) == f.ds && At(mem, a + 4) == f.edi && At(mem, a + 8) == f.esi && At(mem, a + 12) == f.ebp
    && At(mem, a + 16) == f.espSaved && At(mem, a + 20) == f.ebx && At(mem, a + 24) == f.edx
    && At(mem, a + 28) == f.ecx && At(mem, a + 32) == f.eax && At(mem, a + 36) == f.intNo
    && At(mem, a + 40) == f.errCode && At(mem, a + 44) == f.eip && At(mem, a + 48) == f.cs
    && At(mem, a + 52) == f.eflags && At(mem, a + 56) == f.userEsp && At(mem, a + 60) == f.userSs
  }

  lemma HoldsSaved(mem: Memory, base: nat, sig: nat, f: Frame)
    requires Holds(mem, base, Image(base, sig, f))
    ensures SavedAt(mem, base + 8, f)
  {
    var s := Image(base, sig, f);
    assert forall i | 2 <= i < 18 :: At(mem, base + 4 * i) == s[i] == Words(f)[i - 2];
    assert At(mem, base + 4 * 2) == s[2] && At(mem, base + 4 * 3) == s[3] && At(mem, base + 4 * 4) == s[4]
        && At(mem, base + 4 * 5) == s[5] && At(mem, base + 4 * 6) == s[6] && At(mem, base + 4 * 7) == s[7]
        && At(mem, base + 4 * 8) == s[8] && At(mem, base + 4 * 9) == s[9] && At(mem, base + 4 * 10) == s[10]
        && At(mem, base + 4 * 11) == s[11] && At(mem, base + 4 * 12) == s[12] && At(mem, base + 4 * 13) == s[13]
        && At(mem, base + 4 * 14) == s[14] && At(mem, base + 4 * 15) == s[15] && At(mem, base + 4 * 16) == s[16]
        && At(mem, base + 4 * 17) == s[17];
  }

  /** The handler of a signal is about to run, in the place of user code that was interrupted with the
      registers `f` and the memory `mem`. It starts at its first instruction, on a stack that holds
      its return address, the signal number and what `sigreturn` needs to resume exactly what was
      interrupted; the return address is that of code that calls `sigreturn`. The direction flag is
      clear, as C code expects, every other register and flag is as it was, and so is all memory
      outside of the 80 bytes from the stack pointer on. */
  ghost predicate HandlerStarts(f: Frame, mem: Memory, f': Frame, mem': Memory, sig: nat, handler: nat) {
    var esp := f'.userEsp;
    && f'.eip == handler
    && At(mem', At(mem', esp)) == TRAMPOLINE[0] && At(mem', At(mem', esp) + 4) == TRAMPOLINE[1]
    && At(mem', esp + 4) == sig && SavedAt(mem', esp + 8, f) && Resumed(mem', esp + 4) == Returned(f)
    && (f.userEsp < WRAP && f.userEsp >= 96 ==> esp % 16 == 12 && esp + FRAME_SIZE + 4 <= f.userEsp <= esp + 99)
    && (forall i | 0 <= i < 32 :: Flags(f'.eflags)[i] == (Flags(f.eflags)[i] && i != 10))
    && f' == f.(eip := f'.eip, userEsp := f'.userEsp, eflags := f'.eflags)
    && SameOutside(mem, mem', esp, FRAME_SIZE)
  }

  lemma DeliveryStarts(f: Frame, mem: Memory, sig: nat, handler: nat)
    ensures HandlerStarts(f, mem, HandlerFrame(f, handler), Pushed(mem, f, sig), sig, handler)
  {
    PushedHolds(f, mem, sig);
    ClearedFlags(f.eflags);
    if f.userEsp < WRAP { FrameBelow(f.userEsp); }
  }

  lemma PushedHolds(f: Frame, mem: Memory, sig: nat)
    ensures var base, mem' := Base(f.userEsp), Pushed(mem, f, sig);
            && At(mem', base) == base + 72 && At(mem', base + 4) == sig && SavedAt(mem', base + 8, f)
            && Resumed(mem', base + 4) == Returned(f)
            && At(mem', base + 72) == TRAMPOLINE[0] && At(mem', base + 76) == TRAMPOLINE[1]
            && SameOutside(mem, mem', base, FRAME_SIZE)
  {
    var base := Base(f.userEsp);
    StoredHolds(mem, base, Image(base, sig, f));
    RoundTrip(Pushed(mem, f, sig), base, sig, f);
    HoldsSaved(Pushed(mem, f, sig), base, sig, f);
    assert At(Pushed(mem, f, sig), base + 4 * 1) == Image(base, sig, f)[1];
  }

  /** One user task's registers at the kernel boundary, and its memory. */
  class UserThread {
    var frame: Frame
    var mem: Memory

    constructor (f: Frame, m: Memory)
      ensures frame == f && mem == m
    {
      frame, mem := f, m;
    }

    /** Stores words upwards from `base`. */
    method Store(base: nat, s: seq<nat>)
      modifies this`mem
      ensures mem == Stored(old(mem), base, s)
    {
      var i := 0;
      while i < |s|
        invariant i <= |s| && mem == Stored(old(mem), base, s[..i])
      {
        assert s[..i + 1][..i] == s[..i];
        mem := mem[base + 4 * i := s[i]];
        i := i + 1;
      }
      assert s[..i] == s;
    }

    /** `setup_user_sigframe`. */
    method SetupFrame(sig: nat, handler: nat)
      modifies this
      ensures mem == old(Pushed(mem, frame, sig)) && frame == old(HandlerFrame(frame, handler))
      ensures HandlerStarts(old(frame), old(mem), frame, mem, sig, handler)
    {
      ghost var f, m := frame, mem;
      var usp := (frame.userEsp + WRAP - FRAME_SIZE) % WRAP;
      usp := usp - usp % 16;
      usp := (usp + WRAP - 4) % WRAP;
      Store(usp, Image(usp, sig, frame));
      frame := frame.(eip := handler);
      frame := frame.(userEsp := usp);
      frame := frame.(eflags := DirectionCleared(frame.eflags));
      assert frame == HandlerFrame(f, handler) && mem == Pushed(m, f, sig);
      DeliveryStarts(f, m, sig, handler);
    }

    /** `sys_sigreturn`. */
    method Sigreturn() returns (eax: nat)
      requires frame.userEsp >= 4
      modifies this`frame
      ensures frame == Resumed(mem, old(frame.userEsp)) && eax == frame.eax && UserFrame(frame)
    {
      var sf, s, i := frame.userEsp - 4, [], 0;
      ghost var m, esp := mem, frame.userEsp;
      while i < 16
        invariant i <= 16 && |s| == i && forall j | 0 <= j < i :: s[j] == At(m, esp + 4 + 4 * j)
      {
        s := s + [At(mem, sf + 8 + 4 * i)];
        i := i + 1;
      }
      assert s == seq(16, j requires 0 <= j < 16 => At(m, esp + 4 + 4 * j));
      frame := FromWords(s);
      frame := frame.(cs := USER_CS);
      frame := frame.(userSs := USER_DS);
      frame := frame.(ds := USER_DS);
      frame := frame.(eflags := Sanitized(frame.eflags));
      eax := frame.eax;
      ReturnedSafe(FromWords(s));
    }

    /** `signal_check_and_deliver`: nothing on the way back to the kernel, one signal on the way to ring 3. */
    method CheckAndDeliver(k: Kernel.TaskTable)
      requires k.current in k.tasks && !Process.Has(k.tasks[k.current].pending, 32)
      modifies this, k`tasks
      ensures var v := old(k.tasks[k.current]);
              var sig := Process.NextCaught(v, 1);
              if old(frame.cs) % 4 != 3 then frame == old(frame) && mem == old(mem) && k.tasks == old(k.tasks)
              else
                && k.tasks == old(k.tasks)[k.current := Process.Deliver(v)]
                && (if sig == 32 then frame == old(frame) && mem == old(mem)
                    else HandlerStarts(old(frame), old(mem), frame, mem, sig, v.handlers[sig])
                         && frame == old(HandlerFrame(frame, v.handlers[sig])) && mem == old(Pushed(mem, frame, sig)))
    {
      if frame.cs % 4 != 3 {
        return;
      }
      var handlers := k.tasks[k.current].handlers;
      var sig := k.CheckPending(k.current);
      if sig < 32 {
        SetupFrame(sig, handlers[sig]);
      }
    }
  }
}
