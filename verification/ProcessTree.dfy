/**
  The structure every kernel step keeps: one tree over all tasks, one run list, distinct pids.
 */
module ProcessTree {
  import opened Process

  // ----- lists of tasks -----

  ghost predicate NoDup(list: seq<Ref>) {
    forall i, j | 0 <= i < j < |list| :: list[i] != list[j]
  }

  lemma {:induction false} RemoveFacts(list: seq<Ref>, c: Ref)
    requires NoDup(list)
    ensures NoDup(Remove(list, c)) && forall x :: x in Remove(list, c) <==> x in list && x != c
  {
    if list != [] && list[0] != c {
      assert list == [list[0]] + list[1..];
      RemoveFacts(list[1..], c);
      ConsNoDup(list[0], Remove(list[1..], c));
    } else if list != [] {
      assert list == [list[0]] + list[1..];
    }
  }

  lemma ConsNoDup(x: Ref, list: seq<Ref>)
    requires NoDup(list) && x !in list
    ensures NoDup([x] + list) && forall y :: y in [x] + list <==> y == x || y in list
  {
  }

  lemma ConcatNoDup(a: seq<Ref>, b: seq<Ref>)
    requires NoDup(a) && NoDup(b) && forall x | x in a :: x !in b
    ensures NoDup(a + b)
  {
    forall i, j | 0 <= i < j < |a + b|
      ensures (a + b)[i] != (a + b)[j]
    {
      if i < |a| <= j { assert a[i] in a && b[j - |a|] in b; }
    }
  }

  lemma {:induction false} ReversedNoDup(list: seq<Ref>)
    requires NoDup(list)
    ensures NoDup(Reversed(list))
  {
    if list != [] {
      assert list == [list[0]] + list[1..];
      ReversedNoDup(list[1..]);
      ConcatNoDup(Reversed(list[1..]), [list[0]]);
    }
  }

  lemma OthersFacts(run: seq<Ref>, c: Ref)
    requires NoDup(run) && c in run
    ensures forall t :: t in Others(run, c) <==> t in run && t != c
  {
    var i := Index(run, c);
    assert run == run[..i] + [run[i]] + run[i + 1..];
  }

  lemma {:induction false} IndexAt(list: seq<Ref>, i: nat)
    requires NoDup(list) && i < |list|
    ensures Index(list, list[i]) == i
  {
    if i > 0 {
      assert NoDup(list[1..]);
      assert list[1..][i - 1] == list[i];
      IndexAt(list[1..], i - 1);
    }
  }

  lemma OthersNoDup(run: seq<Ref>, c: Ref)
    requires NoDup(run) && c in run
    ensures NoDup(Others(run, c)) && |Others(run, c)| == |run| - 1
  {
    var i := Index(run, c);
    forall x | x in run[i + 1..] ensures x !in run[..i] {}
    ConcatNoDup(run[i + 1..], run[..i]);
  }

  /** The place `j + 1` steps after place `i` on a circle of `n`. */
  function After(i: nat, j: nat, n: nat): nat
    requires i < n && j < n
  {
    if i + 1 + j < n then i + 1 + j else i + 1 + j - n
  }

  lemma OthersAt(run: seq<Ref>, c: Ref, j: nat)
    requires c in run && j < |run| - 1
    ensures |Others(run, c)| == |run| - 1 && After(Index(run, c), j, |run|) < |run|
    ensures Others(run, c)[j] == run[After(Index(run, c), j, |run|)]
  {
    ConcatAt(run, Index(run, c), j);
  }

  lemma ConcatAt(run: seq<Ref>, i: nat, j: nat)
    requires i < |run| && j < |run| - 1
    ensures (run[i + 1..] + run[..i])[j] == run[After(i, j, |run|)]
  {
  }

  lemma PickListed(k: Sys)
    requires NoDup(k.run) && k.current in k.run
    ensures PickNext(k) in k.run
  {
    OthersFacts(k.run, k.current);
  }

  // ----- the structure -----

  type Tasks = map<Ref, Task>
  type Kids = map<Ref, seq<Ref>>
  type Parents = map<Ref, Ref>

  /** The children list of `p` holds tasks whose parent is `p`, each once. */
  ghost predicate KidsAt(kids: Kids, parent: Parents, p: Ref) {
    p in kids && NoDup(kids[p]) && forall c {:trigger c in kids[p]} | c in kids[p] :: c in parent && parent[c] == p
  }

  /** Task `c` is in the children list of its parent, which is an older task. */
  predicate ChildAt(tasks: Tasks, kids: Kids, parent: Parents, c: Ref) {
    && c in tasks && c in parent && parent[c] in tasks && parent[c] in kids
    && c in kids[parent[c]] && tasks[parent[c]].pid < tasks[c].pid
  }

  /** Every task but the boot task is exactly once in the children list of its parent, and in no other. */
  ghost predicate Tree(tasks: Tasks, kids: Kids, parent: Parents) {
    && (forall p {:trigger KidsAt(kids, parent, p)} | p in kids :: KidsAt(kids, parent, p))
    && (forall c {:trigger ChildAt(tasks, kids, parent, c)} | c in tasks && c != INIT_TASK ::
        ChildAt(tasks, kids, parent, c))
  }

  ghost predicate Rooted(parent: Parents, init: Ref) {
    && INIT_TASK in parent && parent[INIT_TASK] == NONE && KTHREADD in parent && parent[KTHREADD] == INIT_TASK
    && (init != NONE ==> init != INIT_TASK && init != KTHREADD && init in parent && parent[init] == INIT_TASK)
  }

  predicate Protected(init: Ref, t: Ref) { t == INIT_TASK || t == KTHREADD || t == init }

  /** A zombie has no children and is not one of the tasks that must live. */
  predicate DeadAt(tasks: Tasks, kids: Kids, init: Ref, t: Ref) {
    t in tasks && t in kids && (tasks[t].state == Zombie ==> kids[t] == [] && !Protected(init, t))
  }

  ghost predicate Dead(tasks: Tasks, kids: Kids, init: Ref) {
    forall t {:trigger DeadAt(tasks, kids, init, t)} | t in tasks :: DeadAt(tasks, kids, init, t)
  }

  /** The pids: 0, 1 and 2 for the boot tasks, 3 up to the counter for the others. */
  predicate PidAt(tasks: Tasks, init: Ref, counter: nat, t: Ref) {
    && t in tasks
    && if t == INIT_TASK then tasks[t].pid == 0 else if t == KTHREADD then tasks[t].pid == 2
       else if t == init then tasks[t].pid == INIT_PID else 3 <= tasks[t].pid <= counter
  }

  predicate Apart(tasks: Tasks, t: Ref, u: Ref) {
    t in tasks && u in tasks && (t != u ==> tasks[t].pid != tasks[u].pid)
  }

  /** Pids are distinct. */
  ghost predicate Named(tasks: Tasks, init: Ref, counter: nat) {
    && 2 <= counter < MAX_PROC
    && (forall t {:trigger PidAt(tasks, init, counter, t)} | t in tasks :: PidAt(tasks, init, counter, t))
    && (forall t, u {:trigger Apart(tasks, t, u)} | t in tasks && u in tasks :: Apart(tasks, t, u))
  }

  /** The run list holds every task but kthreadd, once. */
  ghost predicate Listed(tasks: Tasks, run: seq<Ref>) {
    NoDup(run) && forall t {:trigger t in run} :: t in run <==> t in tasks && t != KTHREADD
  }

  ghost predicate Structure(k: Sys) {
    && Shape(k) && Tree(k.tasks, k.kids, k.parent) && Rooted(k.parent, k.init) && Dead(k.tasks, k.kids, k.init)
    && Named(k.tasks, k.init, k.counter) && Listed(k.tasks, k.run) && k.current in k.run
  }

  // ----- what each elementary change keeps -----

  predicate SamePids(tasks: Tasks, tasks': Tasks) {
    tasks'.Keys == tasks.Keys && forall t {:trigger tasks'[t]} | t in tasks :: tasks'[t].pid == tasks[t].pid
  }

  lemma SamePidsKeep(tasks: Tasks, tasks': Tasks, kids: Kids, parent: Parents, init: Ref, counter: nat, run: seq<Ref>)
    requires SamePids(tasks, tasks')
    requires Tree(tasks, kids, parent) && Named(tasks, init, counter) && Listed(tasks, run)
    ensures Tree(tasks', kids, parent) && Named(tasks', init, counter) && Listed(tasks', run)
  {
    forall c | c in tasks' && c != INIT_TASK
      ensures ChildAt(tasks', kids, parent, c)
    {
      assert ChildAt(tasks, kids, parent, c);
      assert tasks'[parent[c]].pid == tasks[parent[c]].pid;
    }
    forall t | t in tasks'
      ensures PidAt(tasks', init, counter, t)
    {
      assert PidAt(tasks, init, counter, t);
    }
    forall t, u | t in tasks' && u in tasks'
      ensures Apart(tasks', t, u)
    {
      assert Apart(tasks, t, u);
    }
  }

  /** A change to task fields: pids stay, and only a childless unprotected task may become a zombie. */
  lemma TasksKeep(k: Sys, r: Sys)
    requires Structure(k) && SamePids(k.tasks, r.tasks) && r == k.(tasks := r.tasks, calls := r.calls, lap := r.lap)
    requires forall t | t in r.tasks && r.tasks[t].state == Zombie ::
             k.tasks[t].state == Zombie || (k.kids[t] == [] && !Protected(k.init, t))
    ensures Structure(r)
  {
    SamePidsKeep(k.tasks, r.tasks, k.kids, k.parent, k.init, k.counter, k.run);
    forall t | t in r.tasks
      ensures DeadAt(r.tasks, r.kids, r.init, t)
    {
      assert DeadAt(k.tasks, k.kids, k.init, t);
    }
  }

  lemma SetTaskKeeps(k: Sys, t: Ref, v: Task)
    requires Structure(k) && t in k.tasks && v.pid == k.tasks[t].pid
    requires v.state == Zombie ==> k.tasks[t].state == Zombie || (k.kids[t] == [] && !Protected(k.init, t))
    ensures Structure(SetTask(k, t, v))
  {
    TasksKeep(k, SetTask(k, t, v));
  }

  lemma OrphanedTree(k: Sys, t: Ref, p: Ref)
    requires Structure(k) && t in k.tasks && !Protected(k.init, t) && p == Reaper(k)
    ensures Tree(k.tasks, Orphaned(k, t, p).kids, Orphaned(k, t, p).parent)
  {
    var r := Orphaned(k, t, p);
    assert KidsAt(k.kids, k.parent, t) && KidsAt(k.kids, k.parent, p);
    forall q | q in r.kids
      ensures KidsAt(r.kids, r.parent, q)
    {
      assert KidsAt(k.kids, k.parent, q);
      if q == p {
        ReversedNoDup(k.kids[t]);
        ConcatNoDup(Reversed(k.kids[t]), k.kids[p]);
      }
    }
    forall c | c in r.tasks && c != INIT_TASK
      ensures ChildAt(r.tasks, r.kids, r.parent, c)
    {
      assert ChildAt(k.tasks, k.kids, k.parent, c);
      assert PidAt(k.tasks, k.init, k.counter, p) && PidAt(k.tasks, k.init, k.counter, t);
    }
  }

  /** Handing the children of a task to the reaper. */
  lemma OrphanedKeeps(k: Sys, t: Ref)
    requires Structure(k) && t in k.tasks && !Protected(k.init, t)
    ensures Structure(Orphaned(k, t, Reaper(k))) && Orphaned(k, t, Reaper(k)).kids[t] == []
  {
    var p := Reaper(k);
    var r := Orphaned(k, t, p);
    OrphanedTree(k, t, p);
    assert Rooted(r.parent, r.init) by { assert KidsAt(k.kids, k.parent, t); }
    assert Dead(r.tasks, r.kids, r.init) by { OrphanedDead(k, t, p); }
  }

  lemma OrphanedDead(k: Sys, t: Ref, p: Ref)
    requires Dead(k.tasks, k.kids, k.init) && t in k.kids && p in k.kids && p in k.tasks && Protected(k.init, p)
    ensures Dead(k.tasks, Orphaned(k, t, p).kids, k.init)
  {
    var r := Orphaned(k, t, p);
    forall u | u in r.tasks
      ensures DeadAt(r.tasks, r.kids, r.init, u)
    {
      assert DeadAt(k.tasks, k.kids, k.init, u) && DeadAt(k.tasks, k.kids, k.init, p);
    }
  }

  lemma AddTaskTree(k: Sys, c: Ref, p: Ref, v: Task)
    requires Structure(k) && Fresh(k, c) && p in k.tasks && k.tasks[p].pid < v.pid
    ensures Tree(AddTask(k, c, p, v).tasks, AddTask(k, c, p, v).kids, AddTask(k, c, p, v).parent)
  {
    var r := AddTask(k, c, p, v);
    forall q | q in r.kids
      ensures KidsAt(r.kids, r.parent, q)
    {
      if q != c {
        assert KidsAt(k.kids, k.parent, q);
        if q == p { ConsNoDup(c, k.kids[p]); }
      }
    }
    forall x | x in r.tasks && x != INIT_TASK
      ensures ChildAt(r.tasks, r.kids, r.parent, x)
    {
      if x != c { assert ChildAt(k.tasks, k.kids, k.parent, x); }
    }
  }

  lemma AddTaskNames(tasks: Tasks, init: Ref, counter: nat, c: Ref, v: Task, init': Ref, counter': nat)
    requires Named(tasks, init, counter) && c !in tasks && c != NONE && INIT_TASK in tasks && KTHREADD in tasks
    requires NONE !in tasks
    requires counter <= counter' < MAX_PROC && (init' == init || (init == NONE && init' == c))
    requires if init' == c then v.pid == INIT_PID else v.pid == counter + 1 == counter'
    ensures Named(tasks[c := v], init', counter')
  {
    var tasks' := tasks[c := v];
    forall t | t in tasks'
      ensures PidAt(tasks', init', counter', t)
    {
      if t != c { assert PidAt(tasks, init, counter, t); }
    }
    forall t, u | t in tasks' && u in tasks'
      ensures Apart(tasks', t, u)
    {
      if t != c { assert PidAt(tasks, init, counter, t); }
      if u != c { assert PidAt(tasks, init, counter, u); }
      if t != c && u != c { assert Apart(tasks, t, u); }
    }
  }

  /** A new task with a new pid under a living parent. */
  lemma AddTaskKeeps(k: Sys, c: Ref, p: Ref, v: Task, init: Ref, counter: nat)
    requires Structure(k) && Fresh(k, c) && p in k.tasks && k.tasks[p].state != Zombie && v.state != Zombie
    requires k.counter <= counter < MAX_PROC && (init == k.init || (k.init == NONE && init == c && p == INIT_TASK))
    requires if init == c then v.pid == INIT_PID else v.pid == k.counter + 1 == counter
    ensures Structure(AddTask(k, c, p, v).(init := init, counter := counter))
  {
    var r := AddTask(k, c, p, v).(init := init, counter := counter);
    assert PidAt(k.tasks, k.init, k.counter, p);
    AddTaskTree(k, c, p, v);
    AddTaskNames(k.tasks, k.init, k.counter, c, v, init, counter);
    forall t | t in r.tasks
      ensures DeadAt(r.tasks, r.kids, r.init, t)
    {
      if t != c { assert DeadAt(k.tasks, k.kids, k.init, t); }
    }
    ConsNoDup(c, k.run);
  }

  lemma ReapTree(k: Sys, z: Ref)
    requires Structure(k) && z in k.tasks && z != INIT_TASK && k.kids[z] == [] && k.parent[z] in k.kids
    ensures Tree(Reap(k, z).tasks, Reap(k, z).kids, Reap(k, z).parent)
  {
    var r := Reap(k, z);
    assert ChildAt(k.tasks, k.kids, k.parent, z);
    assert KidsAt(k.kids, k.parent, k.parent[z]);
    RemoveFacts(k.kids[k.parent[z]], z);
    forall q | q in r.kids
      ensures KidsAt(r.kids, r.parent, q)
    {
      assert KidsAt(k.kids, k.parent, q);
    }
    forall c | c in r.tasks && c != INIT_TASK
      ensures ChildAt(r.tasks, r.kids, r.parent, c)
    {
      assert ChildAt(k.tasks, k.kids, k.parent, c);
    }
  }

  /** A childless unprotected task leaves. */
  lemma ReapKeeps(k: Sys, z: Ref)
    requires Structure(k) && z in k.tasks && !Protected(k.init, z) && k.kids[z] == [] && z != k.current
    ensures k.parent[z] in k.kids && Structure(Reap(k, z))
  {
    assert ChildAt(k.tasks, k.kids, k.parent, z);
    var r := Reap(k, z);
    ReapTree(k, z);
    RemoveFacts(k.run, z);
    forall t | t in r.tasks
      ensures DeadAt(r.tasks, r.kids, r.init, t) && PidAt(r.tasks, r.init, r.counter, t)
    {
      assert DeadAt(k.tasks, k.kids, k.init, t) && PidAt(k.tasks, k.init, k.counter, t);
    }
    forall t, u | t in r.tasks && u in r.tasks
      ensures Apart(r.tasks, t, u)
    {
      assert Apart(k.tasks, t, u);
    }
  }

  // ----- what the structure means -----

  /** The `n`-th ancestor of a task, null above the boot task. */
  function Ancestor(k: Sys, t: Ref, n: nat): Ref {
    if n == 0 then t else
      var a := Ancestor(k, t, n - 1);
      if a in k.parent then k.parent[a] else NONE
  }

  /** Ancestors get strictly older, so no task is its own ancestor. */
  lemma {:induction false} Acyclic(k: Sys, t: Ref, n: nat)
    requires Structure(k) && t in k.tasks && n > 0
    ensures Ancestor(k, t, n) != t
    ensures Ancestor(k, t, n) in k.tasks ==> k.tasks[Ancestor(k, t, n)].pid + n <= k.tasks[t].pid
    ensures Ancestor(k, t, n) == NONE || Ancestor(k, t, n) in k.tasks
  {
    var a := Ancestor(k, t, n - 1);
    if n > 1 { Acyclic(k, t, n - 1); }
    if a in k.tasks && a != INIT_TASK { assert ChildAt(k.tasks, k.kids, k.parent, a); }
  }

  /** Every task descends from the boot task. */
  lemma {:induction false} Descends(k: Sys, t: Ref, a: Ref, n: nat) returns (m: nat)
    requires Structure(k) && t in k.tasks && a == Ancestor(k, t, n) && a in k.tasks
    ensures Ancestor(k, t, m) == INIT_TASK
    decreases k.tasks[a].pid
  {
    if a == INIT_TASK {
      m := n;
    } else {
      assert ChildAt(k.tasks, k.kids, k.parent, a);
      m := Descends(k, t, k.parent[a], n + 1);
    }
  }

  /** The two-page kernel stack of a pid, below the vmalloc zone. */
  function StackBase(pid: nat): nat { 0xEF000000 + pid * 2 * 4096 }

  lemma StacksApart(k: Sys, t: Ref, u: Ref)
    requires Structure(k) && t in k.tasks && u in k.tasks && t != u
    ensures StackBase(k.tasks[t].pid) + 8192 <= StackBase(k.tasks[u].pid)
            || StackBase(k.tasks[u].pid) + 8192 <= StackBase(k.tasks[t].pid)
    ensures StackBase(k.tasks[t].pid) + 8192 <= 0xEF100000
  {
    assert Apart(k.tasks, t, u) && PidAt(k.tasks, k.init, k.counter, t);
  }
}
