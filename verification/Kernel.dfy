/**
  The kernel's own data structures: task records linked by `next`, `parent`, `children` and
  `sibling` pointers. Every operation, run on the links, does what its counterpart in `Process`
  says.
 */
module Kernel {
  import opened Bits
  import opened Process
  import opened Orphans
  import opened ProcessTree
  import opened Signals
  import Meaning = ProcessMeaning

  type Links = map<Ref, Ref>

  // ----- chains -----

  /** Following `link` from `first` visits exactly `list` and ends at null. */
  predicate Chain(link: Links, first: Ref, list: seq<Ref>)
    decreases |list|
  {
    if list == [] then first == NONE
    else first == list[0] && first != NONE && first in link && Chain(link, link[first], list[1..])
  }

  lemma {:induction false} ChainFrame(link: Links, link': Links, first: Ref, list: seq<Ref>)
    requires Chain(link, first, list) && forall x | x in list :: x in link && x in link' && link'[x] == link[x]
    ensures Chain(link', first, list)
    decreases |list|
  {
    if list != [] { ChainFrame(link, link', link[first], list[1..]); }
  }

  /** The walk has reached `cur` after `seen`. */
  lemma {:induction false} ChainUnlink(link: Links, first: Ref, seen: seq<Ref>, cur: Ref, c: Ref, rest: seq<Ref>)
    requires Chain(link, first, seen + [cur, c] + rest) && NoDup(seen + [cur, c] + rest) && cur in link && c in link
    ensures Chain(link[cur := link[c]], first, seen + [cur] + rest)
    decreases |seen|
  {
    var list := seen + [cur, c] + rest;
    if seen == [] {
      assert list[1..] == [c] + rest && list[1..][1..] == rest;
      forall x | x in rest ensures x != cur { var i :| 0 <= i < |rest| && rest[i] == x; assert list[i + 2] == x; }
      ChainMembers(link, link[c], rest);
      ChainFrame(link, link[cur := link[c]], link[c], rest);
      assert ([] + [cur] + rest)[1..] == rest;
    } else {
      assert list[1..] == seen[1..] + [cur, c] + rest;
      ChainUnlink(link, link[first], seen[1..], cur, c, rest);
      assert list[|seen|] == cur;
      assert (seen + [cur] + rest)[1..] == seen[1..] + [cur] + rest;
    }
  }

  lemma {:induction false} ChainMembers(link: Links, first: Ref, list: seq<Ref>)
    requires Chain(link, first, list)
    ensures forall x | x in list :: x in link && x != NONE
    decreases |list|
  {
    if list != [] { ChainMembers(link, link[first], list[1..]); }
  }

  lemma {:induction false} ChainSplit(link: Links, first: Ref, list: seq<Ref>, i: nat)
    requires Chain(link, first, list) && i < |list|
    ensures Chain(link, list[i], list[i..]) && list[i] in link
            && link[list[i]] == if i + 1 < |list| then list[i + 1] else NONE
    decreases |list|
  {
    if i > 0 {
      ChainSplit(link, link[first], list[1..], i - 1);
      assert list[1..][i - 1..] == list[i..];
    } else {
      assert list[0..] == list;
    }
  }

  lemma {:induction false} RemoveAt(seen: seq<Ref>, c: Ref, rest: seq<Ref>)
    requires c !in seen
    ensures Remove(seen + [c] + rest, c) == seen + rest
  {
    var list := seen + [c] + rest;
    if seen == [] {
      assert list[1..] == rest;
    } else {
      assert list[1..] == seen[1..] + [c] + rest;
      RemoveAt(seen[1..], c, rest);
    }
  }

  lemma {:induction false} RemoveAbsent(list: seq<Ref>, c: Ref)
    requires c !in list
    ensures Remove(list, c) == list
  {
    if list != [] { RemoveAbsent(list[1..], c); }
  }

  lemma ListAround(list: seq<Ref>, n: nat)
    requires n + 1 < |list|
    ensures list == list[..n] + [list[n], list[n + 1]] + list[n + 2..]
    ensures list == list[..n] + [list[n]] + [list[n + 1]] + list[n + 2..]
  {
  }

  /** Unlinking `c` from a chain, the way the kernel's two unlink loops do it: past the head, the
      predecessor is found by walking. */
  method Unlink(link: Links, first: Ref, c: Ref, ghost list: seq<Ref>) returns (link': Links, first': Ref)
    requires Chain(link, first, list) && NoDup(list) && c != NONE
    ensures Chain(link', first', Remove(list, c)) && link'.Keys == link.Keys
    ensures forall x | x in link && x !in list :: link'[x] == link[x]
  {
    link', first' := link, first;
    if first == c {
      first' := link[c];
    } else {
      var cur := first;
      ghost var seen: seq<Ref> := [];
      while cur != NONE && link[cur] != c
        invariant |seen| <= |list| && seen == list[..|seen|] && c !in seen && Chain(link, cur, list[|seen|..])
        invariant cur != NONE ==> cur != c
        decreases |list| - |seen|
      {
        assert list[|seen|..][1..] == list[|seen| + 1..];
        seen := seen + [cur];
        cur := link[cur];
      }
      if cur != NONE {
        assert list[|seen|..][1..] == list[|seen| + 1..];
        ghost var rest := list[|seen| + 2..];
        ChainMembers(link, first, list);
        ListAround(list, |seen|);
        ChainUnlink(link, first, seen, cur, c, rest);
        RemoveAt(seen + [cur], c, rest);
        link' := link[cur := link[c]];
      } else {
        assert seen == list;
        RemoveAbsent(list, c);
      }
    }
  }

  // ----- the children lists -----

  /** The children of `p`, from its `children` pointer along the `sibling` links. */
  ghost predicate KidsOk(kids: Kids, parent: Links, children: Links, sibling: Links, p: Ref) {
    KidsAt(kids, parent, p) && p in children && Chain(sibling, children[p], kids[p])
  }

  lemma KidsFrame(kids: Kids, parent: Links, children: Links, sibling: Links,
                  kids': Kids, parent': Links, children': Links, sibling': Links, q: Ref)
    requires KidsOk(kids, parent, children, sibling, q) && q in kids' && kids'[q] == kids[q]
    requires q in children' && children'[q] == children[q]
    requires forall x | x in kids[q] :: x in sibling && x in sibling' && sibling'[x] == sibling[x]
    requires forall x | x in kids[q] :: x in parent && x in parent' && parent'[x] == parent[x]
    ensures KidsOk(kids', parent', children', sibling', q)
  {
    ChainFrame(sibling, sibling', children[q], kids[q]);
  }

  ghost predicate Family(kids: Kids, parent: Links, children: Links, sibling: Links) {
    forall p {:trigger KidsOk(kids, parent, children, sibling, p)} | p in kids ::
        KidsOk(kids, parent, children, sibling, p)
  }

  lemma AddKeepsFamily(kids: Kids, parent: Links, children: Links, sibling: Links, p: Ref, c: Ref)
    requires Family(kids, parent, children, sibling) && NONE !in kids
    requires p in kids && c in parent && parent[c] == NONE && c != NONE && p in children
    ensures Family(kids[p := [c] + kids[p]], parent[c := p], children[p := c], sibling[c := children[p]])
  {
    var kids', parent', children', sibling' := kids[p := [c] + kids[p]], parent[c := p], children[p := c],
        sibling[c := children[p]];
    forall q | q in kids'
      ensures KidsOk(kids', parent', children', sibling', q)
    {
      assert KidsOk(kids, parent, children, sibling, q);
      ChainMembers(sibling, children[q], kids[q]);
      if q == p {
        ChainFrame(sibling, sibling', children[p], kids[p]);
        ConsNoDup(c, kids[p]);
        assert kids'[p][1..] == kids[p];
      } else {
        KidsFrame(kids, parent, children, sibling, kids', parent', children', sibling', q);
      }
    }
  }

  lemma RemoveKeepsFamily(kids: Kids, parent: Links, children: Links, sibling: Links, p: Ref, c: Ref, link: Links,
      first: Ref)
    requires Family(kids, parent, children, sibling) && p in kids && c in parent && parent[c] == p
    requires Chain(link, first, Remove(kids[p], c)) && link.Keys == sibling.Keys
    requires forall x | x in sibling && x !in kids[p] :: link[x] == sibling[x]
    ensures Family(kids[p := Remove(kids[p], c)], parent[c := NONE], children[p := first], link[c := NONE])
  {
    var kids', parent', children', sibling' := kids[p := Remove(kids[p], c)], parent[c := NONE], children[p := first],
        link[c := NONE];
    assert KidsOk(kids, parent, children, sibling, p);
    RemoveFacts(kids[p], c);
    forall q | q in kids'
      ensures KidsOk(kids', parent', children', sibling', q)
    {
      assert KidsOk(kids, parent, children, sibling, q);
      ChainMembers(sibling, children[q], kids[q]);
      if q == p {
        ChainMembers(link, first, kids'[p]);
        ChainFrame(link, sibling', first, kids'[p]);
      } else {
        KidsFrame(kids, parent, children, sibling, kids', parent', children', sibling', q);
      }
    }
  }

  // ----- the writes of `do_exit` -----

  /** The first write and the first send of `do_exit`. */
  function ExitNoted(tasks: Tasks, t: Ref, p: Ref, code: int, orphans: bool): (r: Tasks)
    requires t in tasks && p in tasks
    ensures r.Keys == tasks.Keys
  {
    var t1 := tasks[t := tasks[t].(exitCode := code)];
    if orphans then t1[p := Process.Send(t1[p], SIGCHLD)] else t1
  }

  /** The last write and the last send. */
  function Buried(tasks: Tasks, t: Ref, q: Ref): Tasks
    requires t in tasks && (q == NONE || q in tasks)
  {
    var t1 := tasks[t := tasks[t].(state := Zombie)];
    if q != NONE then t1[q := Process.Send(t1[q], SIGCHLD)] else t1
  }

  /** The three writes and two sends of `do_exit`. */
  function ExitWrites(tasks: Tasks, t: Ref, p: Ref, q: Ref, code: int, orphans: bool): Tasks
    requires t in tasks && p in tasks && (q == NONE || q in tasks)
  {
    Buried(ExitNoted(tasks, t, p, code, orphans), t, q)
  }

  lemma ExitWritesSum(tasks: Tasks, t: Ref, p: Ref, q: Ref, code: int, orphans: bool)
    requires t in tasks && p in tasks && (q == NONE || q in tasks) && NONE !in tasks && t != p && t != q
    ensures ExitWrites(tasks, t, p, q, code, orphans) == map u | u in tasks ::
              if u == t then tasks[t].(state := Zombie, exitCode := code)
              else if (u == p && orphans) || u == q then Process.Send(tasks[u], SIGCHLD) else tasks[u]
  {
    SendTwice(tasks[p]);
  }

  lemma ExitIs(k: Sys, t: Ref, code: int)
    requires CanExit(k, t)
    ensures var p := Reaper(k);
            var tasks := ExitWrites(k.tasks, t, p, k.parent[t], code, k.kids[t] != []);
            Exit(k, t, code) == Orphaned(k, t, p).(tasks := tasks)
  {
    ExitWritesSum(k.tasks, t, Reaper(k), k.parent[t], code, k.kids[t] != []);
    ExitTasksAre(k, t, code);
  }

  lemma ExitTasksAre(k: Sys, t: Ref, code: int)
    requires CanExit(k, t)
    ensures Exit(k, t, code).tasks == map u | u in k.tasks ::
              if u == t then k.tasks[t].(state := Zombie, exitCode := code)
              else if (u == Reaper(k) && k.kids[t] != []) || u == k.parent[t] then Process.Send(k.tasks[u], SIGCHLD)
              else k.tasks[u]
  {
  }

  lemma SendTwice(v: Task)
    ensures Process.Send(Process.Send(v, SIGCHLD), SIGCHLD) == Process.Send(v, SIGCHLD)
  {
    var w := Process.Send(v, SIGCHLD);
    assert With(w.pending, SIGCHLD) == w.pending;
  }

  // ----- draining a set of signals -----

  /** `w >> 1`. */
  function ShiftRight(w: Word): Word { w[1..] + [false] }

  predicate OneHot(w: Word, b: nat) { b < 32 && forall i | 0 <= i < 32 :: w[i] == (i == b) }

  /** The loop that recovers a signal number from its bit. */
  method SignalNumber(bit: Word, ghost b: nat) returns (signum: nat)
    requires OneHot(bit, b)
    ensures signum == b + 1
  {
    signum := 1;
    var tmp := ShiftRight(bit);
    while tmp != Zero()
      invariant signum <= b + 1 && (forall i | 0 <= i < 32 :: tmp[i] == (i == b - signum))
      invariant (signum <= b ==> tmp[b - signum])
      decreases b + 1 - signum
    {
      assert signum <= b;
      signum := signum + 1;
      tmp := ShiftRight(tmp);
    }
  }

  /** The signals of `snap` from `s` on. */
  predicate Rest(snap: Word, s: nat, w: Word) {
    1 <= s <= 33 && forall i | 0 <= i < 32 :: w[i] == (snap[i] && i >= s - 1)
  }

  /** One round of the drain: take the lowest signal out of the set. */
  method TakeLowest(pending: Word, ghost snap: Word, ghost s: nat) returns (signum: nat, left: Word)
    requires pending != Zero() && Rest(snap, s, pending)
    ensures s <= signum <= 32 && Has(snap, signum) && (forall i: nat | s <= i < signum :: !Has(snap, i))
    ensures Rest(snap, signum + 1, left)
  {
    ghost var b := Lowest(pending);
    IsolateKeepsLowest(pending, b);
    var bit := Isolate(pending);
    left := And(pending, Not(bit));
    signum := SignalNumber(bit, b);
  }

  lemma AllClear(w: Word)
    requires forall i | 0 <= i < 32 :: !w[i]
    ensures w == Zero()
  {
  }

  ghost function Lowest(w: Word): (b: nat)
    requires w != Zero()
    ensures IsLowest(w, b)
  {
    assert exists j | 0 <= j < 32 :: w[j] by { if forall j | 0 <= j < 32 :: !w[j] { AllClear(w); } }
    LowestSet(w, 0)
  }

  ghost function LowestSet(w: Word, i: nat): (b: nat)
    requires (forall j | 0 <= j < i && j < 32 :: !w[j]) && exists j | i <= j < 32 :: w[j]
    ensures IsLowest(w, b)
    decreases 32 - i
  {
    if w[i] then i else LowestSet(w, i + 1)
  }

  /** Signals not in the snapshot do not matter. */
  lemma {:induction false} DispatchSkips(k: Sys, t: Ref, snap: Word, s: nat, s': nat)
    requires 1 <= s <= s' <= 32 && ((t in k.tasks && Halted(k.tasks[t])) || Dispatchable(k, t, snap))
    requires forall i: nat | s <= i < s' :: !Has(snap, i)
    ensures DispatchFrom(k, t, snap, s) == DispatchFrom(k, t, snap, s')
    decreases s' - s
  {
    if s < s' { DispatchSkips(k, t, snap, s + 1, s'); }
  }

  lemma {:induction false} CaughtSkips(v: Task, s: nat, s': nat)
    requires 1 <= s <= s' <= 32
    requires forall i: nat | s <= i < s' :: !(Has(v.pending, i) && !Immutable(i) && v.handlers[i] > SIG_IGN)
    ensures NextCaught(v, s) == NextCaught(v, s')
    decreases s' - s
  {
    if s < s' { CaughtSkips(v, s + 1, s'); }
  }

  /** `sig_default_action` on values. */
  ghost function ByDefault(k: Sys, t: Ref, s: nat): Sys
    requires t in k.tasks && (Default(s) == Terminate ==> CanExit(k, t))
  {
    match Default(s)
    case Terminate => Exit(k, t, 128 + s)
    case Stop => SetTask(k, t, k.tasks[t].(state := if k.tasks[t].state == Zombie then Zombie else Stopped))
    case Ignore => k
  }

  lemma HandleActs(k: Sys, t: Ref, s: nat)
    requires t in k.tasks && 1 <= s < NSIG && EffectOf(k.tasks[t], s).Acts?
    requires (Default(s) == Terminate ==> CanExit(k, t))
    ensures Handle(k, t, s) == ByDefault(SetTask(k, t, k.tasks[t].(pending := Minus(k.tasks[t].pending, s))), t, s)
  {
    assert k.calls + [] == k.calls;
  }

  // ----- the scheduler's walk -----

  /** The order of `pick_next_task`: the tasks after the current one, those before it, the current one. */
  ghost function Circle(run: seq<Ref>, c: Ref): seq<Ref> { Others(run, c) + [c] }

  ghost predicate IsCircle(run: seq<Ref>, q: nat, w: seq<Ref>) {
    q < |run| == |w| && forall i: nat | i < |w| :: w[i] == run[After(q, i, |run|)]
  }

  lemma CircleIs(run: seq<Ref>, c: Ref)
    requires c in run
    ensures IsCircle(run, Index(run, c), Circle(run, c))
  {
    forall i: nat | i < |run| - 1
      ensures |Others(run, c)| == |run| - 1 && Circle(run, c)[i] == run[After(Index(run, c), i, |run|)]
    {
      OthersAt(run, c, i);
    }
  }

  /** The task after place `p` of the list, back at the head from the end. */
  lemma ListStep(next: Links, head: Ref, run: seq<Ref>, p: nat)
    requires Chain(next, head, run) && p < |run|
    ensures run[p] in next
    ensures (if next[run[p]] != NONE then next[run[p]] else head) == run[if p + 1 < |run| then p + 1 else 0]
  {
    ChainSplit(next, head, run, p);
    ChainMembers(next, head, run);
    if p + 1 < |run| { assert run[p + 1] in run; }
  }

  /** Following `next`, and from the end back to the head, goes round the circle once. */
  lemma CircleStep(next: Links, head: Ref, run: seq<Ref>, q: nat, w: seq<Ref>, i: nat)
    requires Chain(next, head, run) && NoDup(run) && IsCircle(run, q, w) && i < |run|
    ensures w[i] in next && w[i] in run && (i + 1 < |w| ==> w[i + 1] != w[0])
    ensures (if next[w[i]] != NONE then next[w[i]] else head) == w[if i + 1 < |w| then i + 1 else 0]
  {
    ListStep(next, head, run, After(q, i, |run|));
  }

  predicate Ready(tasks: Tasks, c: Ref, t: Ref) { t in tasks && tasks[t].state == Runnable && t != c }

  /** The first ready task of the circle is the pick. */
  lemma PickIs(k: Sys, i: nat)
    requires k.current in k.run && NoDup(k.run) && i < |Circle(k.run, k.current)|
    requires forall j | 0 <= j < i :: !Ready(k.tasks, k.current, Circle(k.run, k.current)[j])
    requires Circle(k.run, k.current)[i] == k.current || Ready(k.tasks, k.current, Circle(k.run, k.current)[i])
    ensures Process.PickNext(k) == Circle(k.run, k.current)[i]
  {
    var o, w := Others(k.run, k.current), Circle(k.run, k.current);
    OthersFacts(k.run, k.current);
    var j := FirstRunnable(k.tasks, o);
    if i < |o| {
      assert w[i] == o[i] && o[i] in o;
    }
    assert w[..|o|] == o;
  }

  lemma {:induction false} SameStates(tasks: Tasks, tasks': Tasks, list: seq<Ref>)
    requires forall t | t in list :: t in tasks && t in tasks' && tasks'[t].state == tasks[t].state
    ensures FirstRunnable(tasks', list) == FirstRunnable(tasks, list)
  {
    if list != [] { SameStates(tasks, tasks', list[1..]); }
  }

  /** Refilling the slice does not change the pick. */
  lemma PickSame(k: Sys, v: Task)
    requires k.current in k.run && NoDup(k.run) && (forall t | t in k.run :: t in k.tasks)
    requires v.state == k.tasks[k.current].state
    ensures Process.PickNext(SetTask(k, k.current, v)) == Process.PickNext(k)
  {
    OthersFacts(k.run, k.current);
    SameStates(k.tasks, k.tasks[k.current := v], Others(k.run, k.current));
  }

  lemma HandOverSame(k: Sys, next: Ref)
    requires k.current in k.tasks && next in k.tasks
    ensures var v := k.tasks[k.current];
            HandOver(SetTask(k, k.current, v.(timeLeft := v.quantum)), next)
            == HandOver(k, next)
  {
    var v := k.tasks[k.current];
    var w := v.(timeLeft := v.quantum, state := if v.state == Running then Runnable else v.state);
    assert k.tasks[k.current := v.(timeLeft := v.quantum)][k.current := w] == k.tasks[k.current := w];
  }

  /** The unblock hook after the first `i` tasks of the list. */
  ghost function UnblockedTo(k: Sys, i: nat): Tasks
    requires i <= |k.run|
  {
    map t | t in k.tasks ::
        if t in k.run[..i] && k.tasks[t].state == Blocked then k.tasks[t].(state := Runnable) else k.tasks[t]
  }

  lemma UnblockedStep(k: Sys, i: nat)
    requires i < |k.run| && NoDup(k.run) && k.run[i] in k.tasks
    ensures var t, m := k.run[i], UnblockedTo(k, i);
            t in m && m[t] == k.tasks[t]
                && UnblockedTo(k, i + 1) == if m[t].state == Blocked then m[t := m[t].(state := Runnable)] else m
  {
    assert k.run[..i + 1] == k.run[..i] + [k.run[i]];
  }

  // ----- records that come and go -----

  lemma NewKeepsFamily(kids: Kids, parent: Links, children: Links, sibling: Links, c: Ref)
    requires Family(kids, parent, children, sibling) && c !in kids && c !in parent
    ensures Family(kids[c := []], parent[c := NONE], children[c := NONE], sibling[c := NONE])
  {
    var kids', parent', children', sibling' := kids[c := []], parent[c := NONE], children[c := NONE],
        sibling[c := NONE];
    forall q | q in kids'
      ensures KidsOk(kids', parent', children', sibling', q)
    {
      if q != c {
        assert KidsOk(kids, parent, children, sibling, q);
        ChainMembers(sibling, children[q], kids[q]);
        KidsFrame(kids, parent, children, sibling, kids', parent', children', sibling', q);
      }
    }
  }

  lemma FreeKeepsFamily(kids: Kids, parent: Links, children: Links, sibling: Links, z: Ref)
    requires Family(kids, parent, children, sibling) && z in parent && parent[z] == NONE && NONE !in kids
    ensures Family(kids - {z}, parent - {z}, children, sibling)
  {
    forall q | q in kids - {z}
      ensures KidsOk(kids - {z}, parent - {z}, children, sibling, q)
    {
      assert KidsOk(kids, parent, children, sibling, q);
    }
  }

  /** The hook target of highest pid, one task further along the list. */
  lemma MoveFirst(done: seq<Ref>, rest: seq<Ref>)
    requires rest != []
    ensures done + rest == (done + [rest[0]]) + rest[1..]
  {
  }

  lemma HighestSnoc(k: Sys, next: Ref, list: seq<Ref>, t: Ref)
    ensures var best := Highest(k, next, list);
            Highest(k, next, list + [t]) ==
            if t != NONE && HookTarget(k, next, t)
                && (best == NONE || k.tasks[t].pid > k.tasks[best].pid) then t else best
  {
    assert (list + [t])[..|list|] == list;
  }

  class TaskTable {
    var tasks: map<Ref, Task>    // the fields of the records other than links
    var next: Links
    var parent: Links
    var children: Links
    var sibling: Links
    var head: Ref
    var current: Ref
    var init: Ref
    var counter: nat
    var lap: Lap
    var calls: seq<Call>
    ghost var run: seq<Ref>
    ghost var kids: Kids

    ghost function Abs(): Sys
      reads this
    {
      Sys(tasks, run, kids, parent, current, counter, init, lap, calls)
    }

    /** The tree links spell the children lists. */
    ghost predicate TreeOk()
      reads this`kids, this`parent, this`children, this`sibling
    {
      NONE !in kids && Family(kids, parent, children, sibling)
    }

    /** The `next` links spell the run list. */
    ghost predicate ListOk()
      reads this`next, this`head, this`run
    {
      Chain(next, head, run) && NoDup(run)
    }

    ghost predicate Valid()
      reads this
    {
      TreeOk() && ListOk()
    }

    /** `task_init`. */
    constructor ()
      ensures Valid() && Abs() == Boot() && Shape(Abs()) && Meaning.Booted(Abs())
    {
      tasks := map[INIT_TASK := BootTask(Running, 0), KTHREADD := BootTask(Blocked, 2)];
      next := map[INIT_TASK := NONE, KTHREADD := NONE];
      parent := map[INIT_TASK := NONE, KTHREADD := INIT_TASK];
      children := map[INIT_TASK := KTHREADD, KTHREADD := NONE];
      sibling := map[INIT_TASK := NONE, KTHREADD := NONE];
      head, current, init, counter := INIT_TASK, INIT_TASK, NONE, 2;
      lap, calls := Lap(NONE, 0, false, false), [];
      run := [INIT_TASK];
      kids := map[INIT_TASK := [KTHREADD], KTHREADD := []];
      new;
      assert KidsOk(kids, parent, children, sibling, INIT_TASK) && KidsOk(kids, parent, children, sibling, KTHREADD);
    }

    // ----- the tree -----

    /** `task_add_child`. */
    method AddChild(p: Ref, c: Ref)
      requires TreeOk() && p in kids && c in parent && parent[c] == NONE && c != NONE
      modifies this`parent, this`sibling, this`children, this`kids
      ensures TreeOk() && kids == old(kids[p := [c] + kids[p]]) && parent == old(parent[c := p])
    {
      assert KidsOk(kids, parent, children, sibling, p);
      AddKeepsFamily(kids, parent, children, sibling, p, c);
      parent := parent[c := p];
      sibling := sibling[c := children[p]];
      children := children[p := c];
      kids := kids[p := [c] + kids[p]];
    }

    /** `task_remove_child`. */
    method RemoveChild(p: Ref, c: Ref)
      requires TreeOk() && p in kids && c in parent && parent[c] == p && c != NONE
      modifies this`parent, this`sibling, this`children, this`kids
      ensures TreeOk() && kids == old(kids[p := Remove(kids[p], c)]) && parent == old(parent[c := NONE])
    {
      assert KidsOk(kids, parent, children, sibling, p);
      var link, first := Unlink(sibling, children[p], c, kids[p]);
      RemoveKeepsFamily(kids, parent, children, sibling, p, c, link, first);
      children := children[p := first];
      sibling := link[c := NONE];
      parent := parent[c := NONE];
      kids := kids[p := Remove(kids[p], c)];
    }

    /** `task_reparent`. */
    method Reparent(c: Ref, p: Ref)
      requires TreeOk() && p in kids && c in parent && parent[c] in kids && c != NONE
      modifies this`parent, this`sibling, this`children, this`kids
      ensures TreeOk() && Abs() == Process.Reparent(old(Abs()), c, p)
    {
      if parent[c] != NONE {
        RemoveChild(parent[c], c);
      }
      AddChild(p, c);
      assert parent == old(parent[c := p]);
    }

    // ----- signals and exit -----

    /** `kernel_signal_send`. */
    method Send(t: Ref, s: int)
      requires t in tasks
      modifies this`tasks
      ensures tasks == old(tasks[t := Process.Send(tasks[t], s)])
      ensures tasks == old(tasks)[t := tasks[t]] && Meaning.Sent(old(tasks[t]), s, tasks[t])
    {
      Meaning.SendMeaning(tasks[t], s);
      if s <= 0 || s >= NSIG {
        assert tasks[t := tasks[t]] == tasks;
        return;
      }
      if s == SIGCONT {
        tasks := tasks[t := tasks[t].(pending := Minus(Minus(tasks[t].pending, SIGSTOP), SIGTSTP))];
        if tasks[t].state == Stopped {
          tasks := tasks[t := tasks[t].(state := Runnable)];
        }
      } else if StopClass(s) {
        tasks := tasks[t := tasks[t].(pending := Minus(tasks[t].pending, SIGCONT))];
      }
      tasks := tasks[t := tasks[t].(pending := With(tasks[t].pending, s))];
      if tasks[t].state == Blocked || (tasks[t].state == Stopped && s == SIGKILL) {
        tasks := tasks[t := tasks[t].(state := Runnable)];
      }
    }

    /** The loop of `do_exit` that hands the children over, one at a time; each round leaves one child fewer. */
    method Orphan(t: Ref, reaper: Ref)
      requires TreeOk() && t in kids && reaper in kids && t != reaper
      modifies this`parent, this`sibling, this`children, this`kids
      ensures TreeOk() && Abs() == Orphaned(old(Abs()), t, reaper)
    {
      ghost var k := Abs();
      OrphanEnds(k, t, reaper);
      ghost var i := 0;
      assert KidsOk(kids, parent, children, sibling, t);
      while children[t] != NONE
        invariant TreeOk() && t in children && i <= |k.kids[t]|
        invariant kids == OrphanedBy(k, t, reaper, i).kids && parent == OrphanedBy(k, t, reaper, i).parent
        decreases |k.kids[t]| - i
      {
        assert KidsOk(kids, parent, children, sibling, t) && KidsAt(k.kids, k.parent, t);
        OrphanStep(k, t, reaper, i);
        Reparent(children[t], reaper);
        i := i + 1;
        assert KidsOk(kids, parent, children, sibling, t);
      }
      assert KidsOk(kids, parent, children, sibling, t);
    }

    /** `kernel_signal_register`. */
    method Register(t: Ref, s: int, h: Handler)
      requires t in tasks
      modifies this`tasks
      ensures tasks == old(tasks[t := Process.Register(tasks[t], s, h)])
      ensures tasks == old(tasks)[t := tasks[t]] && Meaning.Registered(old(tasks[t]), s, h, tasks[t])
    {
      Meaning.RegisterMeaning(tasks[t], s, h);
      if s <= 0 || s >= NSIG || Immutable(s) {
        assert tasks[t := tasks[t]] == tasks;
        return;
      }
      tasks := tasks[t := tasks[t].(handlers := tasks[t].handlers[s := h])];
    }

    /** The start of `do_exit`: the exit code, and a signal to a reaper that will inherit children. */
    method NoteExit(t: Ref, code: int, reaper: Ref)
      requires TreeOk() && t in tasks && t in kids && reaper in tasks && t != reaper
      modifies this`tasks
      ensures tasks == ExitNoted(old(tasks), t, reaper, code, kids[t] != [])
    {
      assert KidsOk(kids, parent, children, sibling, t);
      tasks := tasks[t := tasks[t].(exitCode := code)];
      if children[t] != NONE && reaper != t {
        Send(reaper, SIGCHLD);
      }
    }

    /** `do_exit`. */
    method DoExit(t: Ref, code: int)
      requires Valid() && CanExit(Abs(), t)
      modifies this`tasks, this`parent, this`sibling, this`children, this`kids
      ensures Valid() && Abs() == Exit(old(Abs()), t, code)
      ensures Meaning.Exited(old(Abs()), t, code, Abs())
    {
      ghost var k := Abs();
      assert t !in kids[t] by { assert KidsOk(kids, parent, children, sibling, t); }
      var reaper := if init != NONE then init else INIT_TASK;
      NoteExit(t, code, reaper);
      Orphan(t, reaper);
      assert parent[t] == k.parent[t];
      Bury(t);
      ExitIs(k, t, code);
      assert Abs() == Exit(k, t, code);
      Meaning.ExitMeaning(k, t, code);
    }

    /** The end of `do_exit`: the task is a zombie, and its parent is told. */
    method Bury(t: Ref)
      requires t in tasks && t in parent && (parent[t] == NONE || parent[t] in tasks)
      modifies this`tasks
      ensures tasks == Buried(old(tasks), t, parent[t])
    {
      tasks := tasks[t := tasks[t].(state := Zombie)];
      if parent[t] != NONE {
        Send(parent[t], SIGCHLD);
      }
    }

    /** `sig_default_action`. */
    method DefaultAction(t: Ref, s: nat)
      requires Valid() && t in tasks && (Default(s) == Terminate ==> CanExit(Abs(), t))
      modifies this`tasks, this`parent, this`sibling, this`children, this`kids
      ensures Valid() && Abs() == ByDefault(old(Abs()), t, s)
    {
      match Default(s) {
        case Terminate => DoExit(t, 128 + s);
        case Stop =>
          if tasks[t].state != Zombie {
            tasks := tasks[t := tasks[t].(state := Stopped)];
          } else {
            assert tasks[t := tasks[t]] == tasks;
          }
        case Ignore =>
      }
    }

    /** The body of the drain loop. */
    method HandleSignal(t: Ref, s: nat)
      requires Valid() && t in tasks && 1 <= s < NSIG
      requires (EffectOf(tasks[t], s) == Acts(Terminate) ==> CanExit(Abs(), t))
      modifies this`tasks, this`parent, this`sibling, this`children, this`kids, this`calls
      ensures Valid() && Abs() == Handle(old(Abs()), t, s)
    {
      ghost var k := Abs();
      var v := tasks[t];
      if Immutable(s) {
        HandleActs(k, t, s);
        tasks := tasks[t := v.(pending := Minus(v.pending, s))];
        DefaultAction(t, s);
      } else if v.handlers[s] == SIG_IGN {
        assert k.calls + [] == k.calls;
        tasks := tasks[t := v.(pending := Minus(v.pending, s))];
      } else if v.handlers[s] == SIG_DFL {
        HandleActs(k, t, s);
        tasks := tasks[t := v.(pending := Minus(v.pending, s))];
        DefaultAction(t, s);
      } else if !v.user {
        tasks := tasks[t := v.(pending := Minus(v.pending, s))];
        calls := calls + [Call(t, v.handlers[s], s)];
      } else {
        assert tasks[t := v] == tasks && k.calls + [] == k.calls;
      }
    }

    /** One round of the drain: the lowest signal is taken out of the set and handled. */
    method DispatchOne(t: Ref, pending: Word, ghost snap: Word, ghost s: nat) returns (left: Word, ghost s': nat)
      requires Valid() && 1 <= s <= 32 && pending != Zero() && Rest(snap, s, pending)
      requires Dispatchable(Abs(), t, snap) && !Halted(tasks[t])
      modifies this`tasks, this`parent, this`sibling, this`children, this`kids, this`calls
      ensures Valid() && t in tasks && s < s' <= 32 && Rest(snap, s', left)
      ensures (Halted(tasks[t]) || Dispatchable(Abs(), t, snap))
      ensures DispatchFrom(Abs(), t, snap, s') == old(DispatchFrom(Abs(), t, snap, s))
    {
      var signum;
      signum, left := TakeLowest(pending, snap, s);
      DispatchSkips(Abs(), t, snap, s, signum);
      HandleKeeps(Abs(), t, snap, signum);
      HandleSignal(t, signum);
      s' := signum + 1;
    }

    /** `kernel_signal_dispatch`. */
    method Dispatch(t: Ref)
      requires Valid() && t in tasks && Dispatchable(Abs(), t, tasks[t].pending)
      modifies this`tasks, this`parent, this`sibling, this`children, this`kids, this`calls
      ensures Valid() && Abs() == Process.Dispatch(old(Abs()), t)
      ensures Meaning.Settled(old(Abs()), t, Abs())
    {
      ghost var k, snap := Abs(), tasks[t].pending;
      var pending := tasks[t].pending;
      ghost var s := 1;
      while pending != Zero()
        invariant 1 <= s <= 32 && Valid() && t in tasks && Rest(snap, s, pending)
        invariant Halted(tasks[t]) || Dispatchable(Abs(), t, snap)
        invariant DispatchFrom(Abs(), t, snap, s) == Process.Dispatch(k, t)
        decreases 32 - s
      {
        if Halted(tasks[t]) {
          break;
        }
        pending, s := DispatchOne(t, pending, snap, s);
      }
      if Halted(tasks[t]) {
        HaltedStops(Abs(), t, snap, s);
      } else {
        forall i: nat | s <= i < 32 ensures !Has(snap, i) { assert !pending[i - 1]; }
        DispatchSkips(Abs(), t, snap, s, 32);
      }
      Meaning.DispatchSettles(k, t);
    }

    /** The signal chosen by `signal_check_and_deliver` for a return to ring 3; 32 if none. */
    method CheckPending(t: Ref) returns (sig: nat)
      requires t in tasks && !Has(tasks[t].pending, 32)
      modifies this`tasks
      ensures sig == old(NextCaught(tasks[t], 1)) && tasks == old(tasks[t := Deliver(tasks[t])])
      ensures tasks == old(tasks)[t := tasks[t]] && Meaning.Delivered(old(tasks[t]), sig, tasks[t])
    {
      var v := tasks[t];
      Meaning.DeliverMeaning(v);
      var pending := v.pending;
      ghost var s := 1;
      while pending != Zero()
        invariant 1 <= s <= 32 && Rest(v.pending, s, pending) && NextCaught(v, s) == NextCaught(v, 1)
        invariant tasks == old(tasks)
        decreases 32 - s
      {
        var signum, left := TakeLowest(pending, v.pending, s);
        pending := left;
        CaughtSkips(v, s, signum);
        s := signum + 1;
        if !Immutable(signum) && v.handlers[signum] != SIG_DFL && v.handlers[signum] != SIG_IGN {
          tasks := tasks[t := v.(pending := Minus(v.pending, signum))];
          return signum;
        }
      }
      forall i: nat | s <= i < 32 ensures !Has(v.pending, i) { assert !pending[i - 1]; }
      CaughtSkips(v, s, 32);
      assert tasks[t := v] == tasks;
      sig := 32;
    }

    // ----- scheduling -----

    ghost predicate Scheduled()
      reads this
    {
      current in run && forall t | t in run :: t in tasks
    }

    /** The walk of `pick_next_task`, round the circle until a ready task or back at the start. */
    method WalkCircle(ghost q: nat, ghost w: seq<Ref>) returns (r: Ref, ghost i: nat)
      requires ListOk() && Scheduled() && IsCircle(run, q, w) && w[|w| - 1] == current
      ensures i < |w| && r == w[i] && (forall j | 0 <= j < i :: !Ready(tasks, current, w[j]))
      ensures Ready(tasks, current, r) || r == current
    {
      i := 0;
      CircleStep(next, head, run, q, w, |run| - 1);
      var t := next[current];
      if t == NONE {
        t := head;
      }
      var start := t;
      while true
        invariant i < |w| && t == w[i] && start == w[0]
        invariant forall j | 0 <= j < i :: !Ready(tasks, current, w[j])
        decreases |w| - i
      {
        CircleStep(next, head, run, q, w, i);
        if t != current && tasks[t].state == Runnable {
          return t, i;
        }
        t := if next[t] != NONE then next[t] else head;
        if t == start {
          break;
        }
        i := i + 1;
      }
      r := current;
    }

    /** `pick_next_task`. */
    method PickNext() returns (r: Ref)
      requires ListOk() && Scheduled()
      ensures r == Process.PickNext(Abs())
    {
      CircleIs(run, current);
      ghost var i;
      r, i := WalkCircle(Index(run, current), Circle(run, current));
      PickIs(Abs(), i);
    }

    /** The body of the walk: a task that may be blocked and has a higher pid is the new target. */
    method HigherOf(nxt: Ref, ghost list: seq<Ref>, best: Ref, t: Ref) returns (target: Ref)
      requires t in tasks && t != NONE && best == Highest(Abs(), nxt, list)
      ensures target == Highest(Abs(), nxt, list + [t])
    {
      HighestSnoc(Abs(), nxt, list, t);
      target := best;
      if t == nxt || t == lap.anchor || tasks[t].pid == 0 {
      } else if tasks[t].state != Runnable && tasks[t].state != Running {
      } else if target == NONE || tasks[t].pid > tasks[target].pid {
        target := t;
      }
    }

    /** The walk of `maybe_block_faulty_target`. */
    method HookTargetOf(nxt: Ref) returns (target: Ref)
      requires ListOk() && Scheduled()
      ensures target == Highest(Abs(), nxt, run)
    {
      target := NONE;
      var t := head;
      ghost var done, rest := [], run;
      while t != NONE
        invariant Chain(next, t, rest) && run == done + rest && target == Highest(Abs(), nxt, done)
        decreases |rest|
      {
        assert run[|done|] == t;
        target := HigherOf(nxt, done, target, t);
        MoveFirst(done, rest);
        done, rest := done + [t], rest[1..];
        t := next[t];
      }
      assert done + [] == done;
    }

    /** `maybe_block_faulty_target`. */
    method BlockHook(nxt: Ref)
      requires ListOk() && Scheduled()
      modifies this`tasks, this`lap
      ensures Abs() == Process.BlockHook(old(Abs()), nxt) && Meaning.Struck(old(Abs()), nxt, Abs())
    {
      ChainMembers(next, head, run);
      Meaning.StrikeMeaning(Abs(), nxt);
      if lap.blocked || lap.num != 3 {
        return;
      }
      var target := HookTargetOf(nxt);
      if target == NONE {
        return;
      }
      tasks := tasks[target := tasks[target].(state := Blocked)];
      lap := lap.(blocked := true);
    }

    /** `maybe_unblock_faulty_target`. */
    method UnblockHook()
      requires ListOk() && Scheduled()
      modifies this`tasks, this`lap
      ensures Abs() == Process.UnblockHook(old(Abs())) && Meaning.Unstruck(old(Abs()), Abs())
    {
      if lap.unblocked || lap.num != 4 {
        return;
      }
      ghost var k := Abs();
      var t := head;
      ghost var i := 0;
      assert run[0..] == run && UnblockedTo(k, 0) == tasks;
      while t != NONE
        invariant i <= |run| && Chain(next, t, run[i..]) && tasks == UnblockedTo(k, i)
        invariant lap == k.lap
        decreases |run| - i
      {
        UnblockedStep(k, i);
        assert run[i..][1..] == run[i + 1..];
        if tasks[t].state == Blocked {
          tasks := tasks[t := tasks[t].(state := Runnable)];
        }
        t := next[t];
        i := i + 1;
      }
      assert run[..i] == run;
      lap := lap.(unblocked := true);
      assert Abs() == Process.UnblockHook(k);
      Meaning.UnstrikeMeaning(k);
    }

    method AccountLap(nxt: Ref, hooks: bool)
      requires ListOk() && Scheduled()
      modifies this`tasks, this`lap
      ensures Abs() == Account(old(Abs()), nxt, hooks)
    {
      if lap.anchor == NONE {
        lap := lap.(anchor := nxt);
      } else if nxt == lap.anchor {
        lap := lap.(num := lap.num + 1);
        if hooks {
          BlockHook(nxt);
          UnblockHook();
        }
      }
    }

    /** The end of `schedule`, with the context switch of the interrupt stub. */
    method GiveCpu(nxt: Ref, hooks: bool)
      requires ListOk() && Scheduled() && nxt in run && nxt != current
      requires tasks[current].timeLeft == tasks[current].quantum
      modifies this`tasks, this`lap, this`current
      ensures ListOk() && Abs() == Account(HandOver(old(Abs()), nxt), nxt, hooks)
    {
      ghost var k := Abs();
      if tasks[current].state == Running {
        tasks := tasks[current := tasks[current].(state := Runnable)];
      } else {
        assert tasks[current := tasks[current]] == tasks;
      }
      tasks := tasks[nxt := tasks[nxt].(state := Running)];
      current := nxt;
      assert Abs() == HandOver(k, nxt);
      AccountLap(nxt, hooks);
    }

    /** `schedule` from the time-slice check on. */
    method SwitchTask(hooks: bool)
      requires ListOk() && Scheduled() && tasks[current].timeLeft >= 1
      modifies this`tasks, this`lap, this`current
      ensures ListOk() && Abs() == Switch(old(Abs()), hooks)
      ensures Meaning.Rescheduled(old(Abs()), hooks, Abs())
    {
      ChainMembers(next, head, run);
      Meaning.RescheduleMeaning(Abs(), hooks);
      CheckSlice(hooks);
    }

    method CheckSlice(hooks: bool)
      requires ListOk() && Scheduled() && tasks[current].timeLeft >= 1
      modifies this`tasks, this`lap, this`current
      ensures ListOk() && Abs() == Switch(old(Abs()), hooks)
    {
      ghost var k := Abs();
      ghost var v := tasks[current];
      if tasks[current].state == Running {
        tasks := tasks[current := tasks[current].(timeLeft := tasks[current].timeLeft - 1)];
        if tasks[current].timeLeft > 0 {
          return;
        }
      }
      tasks := tasks[current := tasks[current].(timeLeft := tasks[current].quantum)];
      assert Abs() == SetTask(k, current, v.(timeLeft := v.quantum));
      PickSame(k, v.(timeLeft := v.quantum));
      var nxt := PickNext();
      if nxt == current {
        return;
      }
      PickListed(k);
      HandOverSame(k, nxt);
      GiveCpu(nxt, hooks);
    }

    /** The start of `schedule`: dispatch, if anything is pending. */
    method DispatchCurrent()
      requires Valid() && current in tasks && Dispatchable(Abs(), current, tasks[current].pending)
      modifies this`tasks, this`parent, this`sibling, this`children, this`kids, this`calls
      ensures Valid() && Abs() == Process.Dispatch(old(Abs()), current)
    {
      if tasks[current].pending != Zero() {
        Dispatch(current);
      } else {
        DispatchSkips(Abs(), current, tasks[current].pending, 1, 32);
      }
    }

    /** One timer tick: `schedule` and the switch. */
    method TimerTick(hooks: bool)
      requires Valid() && Scheduled() && Dispatchable(Abs(), current, tasks[current].pending)
      requires tasks[current].timeLeft >= 1
      modifies this`tasks, this`parent, this`sibling, this`children, this`kids, this`calls, this`lap, this`current
      ensures Valid() && Abs() == Tick(old(Abs()), hooks)
      ensures Meaning.Ticked(old(Abs()), hooks, Abs())
    {
      ghost var k := Abs();
      ChainMembers(next, head, run);
      DispatchCurrent();
      SwitchTask(hooks);
      Meaning.TickMeaning(k, hooks);
    }

    // ----- creation, waiting, reaping -----

    /** The unlink loop of `task_reap` on the run list. */
    method Delist(z: Ref)
      requires ListOk() && z != NONE
      modifies this`next, this`head, this`run
      ensures ListOk() && run == old(Remove(run, z))
    {
      RemoveFacts(run, z);
      next, head := Unlink(next, head, z, run);
      run := Remove(run, z);
    }

    /** The record is freed. */
    method FreeRecord(z: Ref)
      requires TreeOk() && z in parent && parent[z] == NONE
      modifies this`tasks, this`parent, this`kids
      ensures TreeOk() && tasks == old(tasks - {z}) && parent == old(parent - {z}) && kids == old(kids - {z})
    {
      FreeKeepsFamily(kids, parent, children, sibling, z);
      tasks := tasks - {z};
      parent := parent - {z};
      kids := kids - {z};
    }

    method DropChild(z: Ref)
      requires TreeOk() && z in parent && parent[z] in kids && z != NONE
      modifies this`tasks, this`parent, this`sibling, this`children, this`kids
      ensures TreeOk() && tasks == old(tasks - {z})
      ensures parent == old(parent - {z}) && kids == old(kids[parent[z] := Remove(kids[parent[z]], z)] - {z})
    {
      if parent[z] != NONE {
        RemoveChild(parent[z], z);
      }
      FreeRecord(z);
      assert parent == old(parent - {z});
    }

    /** `task_reap`, for the links; the memory it frees is the business of the allocators. Leaving the
        run list and leaving the tree touch different links and commute. */
    method Reap(z: Ref)
      requires Valid() && z in parent && parent[z] in kids && z != NONE
      modifies this`tasks, this`parent, this`sibling, this`children, this`kids, this`next, this`head, this`run
      ensures Valid() && Abs() == Process.Reap(old(Abs()), z)
      ensures Meaning.Buried(old(Abs()), z, old(parent[z]), Abs())
    {
      ghost var k := Abs();
      Delist(z);
      DropChild(z);
      assert Abs() == Process.Reap(k, z);
      Meaning.ReapMeaning(k, z);
    }

    /** The scan of `sys_wait`: the first dead child of the current task, or null. */
    method FindZombie() returns (z: Ref)
      requires TreeOk() && current in kids && forall c | c in kids[current] :: c in tasks
      ensures var list, j := kids[current], FirstZombie(tasks, kids[current]);
              z == (if j < |list| then list[j] else NONE) && NONE !in list
    {
      assert KidsOk(kids, parent, children, sibling, current);
      ChainMembers(sibling, children[current], kids[current]);
      z := children[current];
      ghost var i, list := 0, kids[current];
      assert list[0..] == list;
      while z != NONE && tasks[z].state != Zombie
        invariant i <= |list| && Chain(sibling, z, list[i..])
        invariant FirstZombie(tasks, list) == i + FirstZombie(tasks, list[i..])
        invariant z != NONE ==> z in list
        decreases |list| - i
      {
        assert list[i..][1..] == list[i + 1..];
        z := sibling[z];
        i := i + 1;
      }
    }

    /** One pass of the loop of `sys_wait`: scan, then reap or block. */
    method WaitPass() returns (r: WaitResult)
      requires Valid() && current in tasks && current in kids
      requires forall c | c in kids[current] :: c in tasks && c in parent && parent[c] == current
      modifies this`tasks, this`parent, this`sibling, this`children, this`kids, this`next, this`head, this`run
      ensures Valid() && Abs() == Process.WaitPass(old(Abs()))
      ensures r == old(WaitAnswer(Abs())) && Meaning.Waited(old(Abs()), r, Abs())
    {
      Meaning.WaitMeaning(Abs());
      assert KidsOk(kids, parent, children, sibling, current);
      if children[current] == NONE && current != init {
        return NoChild;
      }
      var zombie := FindZombie();
      if zombie != NONE {
        r := Reaped(tasks[zombie].pid, tasks[zombie].exitCode);
        Reap(zombie);
      } else {
        tasks := tasks[current := tasks[current].(state := Blocked)];
        r := Asleep;
      }
    }

    /** A record is made, with no links yet. */
    method NewRecord(c: Ref, v: Task)
      requires TreeOk() && c != NONE && c !in kids && c !in parent
      modifies this`tasks, this`parent, this`sibling, this`children, this`kids
      ensures TreeOk() && tasks == old(tasks[c := v]) && parent == old(parent[c := NONE]) && kids == old(kids[c := []])
    {
      NewKeepsFamily(kids, parent, children, sibling, c);
      tasks := tasks[c := v];
      parent, children, sibling := parent[c := NONE], children[c := NONE], sibling[c := NONE];
      kids := kids[c := []];
    }

    method NewChild(c: Ref, p: Ref, v: Task)
      requires TreeOk() && c != NONE && c !in kids && c !in parent && p in kids
      modifies this`tasks, this`parent, this`sibling, this`children, this`kids
      ensures TreeOk() && tasks == old(tasks[c := v])
      ensures parent == old(parent[c := p]) && kids == old(kids[c := []][p := [c] + kids[p]])
    {
      NewRecord(c, v);
      AddChild(p, c);
      assert parent == old(parent[c := p]);
    }

    /** A record goes to the head of the run list. */
    method Enlist(c: Ref)
      requires ListOk() && c != NONE && c !in run
      modifies this`next, this`head, this`run
      ensures ListOk() && run == [c] + old(run)
    {
      ChainMembers(next, head, run);
      ChainFrame(next, next[c := head], head, run);
      ConsNoDup(c, run);
      next := next[c := head];
      head := c;
      run := [c] + run;
      assert run[1..] == old(run);
    }

    /** A new task: child of `p`, head of the run list. */
    method Insert(c: Ref, p: Ref, v: Task)
      requires Valid() && c != NONE && c !in kids && c !in parent && c !in run && p in kids
      modifies this`tasks, this`parent, this`sibling, this`children, this`kids, this`next, this`head, this`run
      ensures Valid() && Abs() == AddTask(old(Abs()), c, p, v)
      ensures Meaning.Born(old(Abs()), c, p, Abs()) && tasks[c] == v
    {
      ghost var k := Abs();
      NewChild(c, p, v);
      Enlist(c);
      assert Abs() == AddTask(k, c, p, v);
      Meaning.AddMeaning(k, c, p, v);
    }

    /** `pid_alloc`. */
    method PidAlloc() returns (pid: int)
      modifies this`counter
      ensures if old(counter) >= MAX_PROC - 1 then pid == -1 && counter == old(counter)
              else pid == counter == old(counter) + 1
    {
      if counter >= MAX_PROC - 1 {
        return -1;
      }
      counter := counter + 1;
      pid := counter;
    }

    /** `task_fork`; `built` tells whether the record, kernel stack and address space could be made. */
    method Fork(c: Ref, built: bool) returns (pid: int)
      requires Valid() && c != NONE && c !in kids && c !in parent && c !in run && current in tasks && current in kids
      modifies this`tasks, this`parent, this`sibling, this`children, this`kids, this`next, this`head, this`run,
      this`counter
      ensures Valid()
      ensures pid == if current != INIT_TASK && old(counter) < MAX_PROC - 1 && built then old(counter) + 1 else -1
      ensures Abs() == if pid == -1 then old(Abs()) else Process.Fork(old(Abs()), c)
      ensures pid != -1 ==> Meaning.Born(old(Abs()), c, current, Abs())
      ensures pid != -1 ==> counter == pid && Meaning.Forked(old(tasks[current]), tasks[c], pid)
    {
      if current == INIT_TASK {
        return -1;
      }
      pid := PidAlloc();
      if pid < 0 {
        return -1;
      }
      if !built {
        counter := counter - 1;
        return -1;
      }
      var v := tasks[current];
      Insert(c, current, Task(Runnable, pid, v.quantum, v.quantum, 0, Zero(), v.handlers, v.user));
    }

    /** `spawn_user`, for a pid its caller has chosen. */
    method SpawnUser(c: Ref, pid: nat, p: Ref, built: bool) returns (ok: bool)
      requires Valid() && c != NONE && c !in kids && c !in parent && c !in run && (p == NONE || p in kids)
      modifies this`tasks, this`parent, this`sibling, this`children, this`kids, this`next, this`head, this`run
      ensures Valid() && ok == (p != NONE && p != KTHREADD && counter < MAX_PROC - 1 && built)
      ensures Abs() == if ok then AddTask(old(Abs()), c, p, NewTask(pid, true)) else old(Abs())
      ensures ok ==> Meaning.Born(old(Abs()), c, p, Abs()) && Meaning.Spawned(tasks[c], pid, true)
    {
      if p == NONE || p == KTHREADD || counter >= MAX_PROC - 1 || !built {
        return false;
      }
      Insert(c, p, NewTask(pid, true));
      ok := true;
    }

    /** `exec_user_fn`: the claim on a pid is rolled back when the spawn fails. */
    method ExecUser(c: Ref, p: Ref, built: bool) returns (ok: bool)
      requires Valid() && c != NONE && c !in kids && c !in parent && c !in run && (p == NONE || p in kids)
      modifies this`tasks, this`parent, this`sibling, this`children, this`kids, this`next, this`head, this`run,
      this`counter
      ensures Valid() && ok == (p != NONE && p != KTHREADD && old(counter) + 1 < MAX_PROC - 1 && built)
      ensures Abs() == if ok then SpawnTask(old(Abs()), c, p, true) else old(Abs())
      ensures ok ==> Meaning.Born(old(Abs()), c, p, Abs())
      ensures ok ==> counter == old(counter) + 1 && Meaning.Spawned(tasks[c], counter, true)
    {
      var pid := PidAlloc();
      if pid < 0 {
        return false;
      }
      ok := SpawnUser(c, pid, p, built);
      if !ok {
        counter := counter - 1;
      }
    }

    /** `exec_fn`: a kernel thread, always under kthreadd. */
    method ExecKernel(c: Ref, built: bool) returns (ok: bool)
      requires Valid() && c != NONE && c !in kids && c !in parent && c !in run && KTHREADD in kids
      modifies this`tasks, this`parent, this`sibling, this`children, this`kids, this`next, this`head, this`run,
      this`counter
      ensures Valid() && ok == (old(counter) < MAX_PROC - 1 && built)
      ensures Abs() == if ok then SpawnTask(old(Abs()), c, KTHREADD, false) else old(Abs())
      ensures ok ==> Meaning.Born(old(Abs()), c, KTHREADD, Abs())
      ensures ok ==> counter == old(counter) + 1 && Meaning.Spawned(tasks[c], counter, false)
    {
      var pid := PidAlloc();
      if pid < 0 {
        return false;
      }
      if !built {
        counter := counter - 1;
        return false;
      }
      Insert(c, KTHREADD, NewTask(pid, false));
      ok := true;
    }

    /** `exec_init_fn`. */
    method ExecInit(c: Ref, built: bool) returns (ok: bool)
      requires Valid() && c != NONE && c !in kids && c !in parent && c !in run && INIT_TASK in kids
      modifies this`tasks, this`parent, this`sibling, this`children, this`kids, this`next, this`head, this`run,
      this`init
      ensures Valid() && ok == (counter < MAX_PROC - 1 && built)
      ensures Abs() == if ok then StartInit(old(Abs()), c) else old(Abs()).(init := NONE)
      ensures ok ==> Meaning.Born(old(Abs()), c, INIT_TASK, Abs()) && Meaning.Spawned(tasks[c], 1, true) && init == c
    {
      ok := SpawnUser(c, INIT_PID, INIT_TASK, built);
      init := if ok then c else NONE;
    }

    /** The search of `sys_kill`. */
    method FindByPid(pid: nat) returns (t: Ref)
      requires ListOk() && forall x | x in run :: x in tasks
      ensures t == NONE ==> forall x | x in run :: tasks[x].pid != pid
      ensures t != NONE ==> t in run && tasks[t].pid == pid
    {
      t := head;
      ghost var i := 0;
      assert run[0..] == run;
      while t != NONE && tasks[t].pid != pid
        invariant i <= |run| && Chain(next, t, run[i..]) && forall j | 0 <= j < i :: tasks[run[j]].pid != pid
        invariant t != NONE ==> t in run
        decreases |run| - i
      {
        assert run[i..][1..] == run[i + 1..];
        t := next[t];
        i := i + 1;
      }
    }
  }
}
