/** The life of a process (kernel/proc/proc.c): fork, wait, exit, kill, sleeping on
    timers and semaphores, as a step system. A step is what the running process
    does between two calls of `schedule`, or a timer tick. */
module Life {

  type Id = nat  // a pcb

  datatype RunState = Sleeping | Runnable | Zombie
  datatype WaitState = WaitNone | WaitChild | WaitTimer | WaitSem

  /** The kernel call a process is in the middle of. */
  datatype Call = User | InWait(request: nat) | InSleep | InDown

  datatype Proc = Proc(pid: nat, parent: Id, state: RunState, wait: WaitState, killed: bool, call: Call)

  /** `timers` are the processes with a timer in the list, `queued` those whose wait
      structure is in the queue of a semaphore; a kernel that is `hung` is inside a loop
      that does not end. */
  datatype Kernel = Kernel(
    procs: map<Id, Proc>,
    curr: Id,
    idle: Id,
    init: Id,
    timers: set<Id>,
    queued: set<Id>,
    hung: bool)

  /** `wakeup_proc`. Its assertion is `state != Zombie`. */
  function Woken(x: Proc): Proc {
    if x.state != Runnable then x.(state := Runnable, wait := WaitNone) else x
  }

  /** `c` is a child of `p` that a call `do_wait(request)` is about. */
  predicate Matches(procs: map<Id, Proc>, p: Id, request: nat, c: Id) {
    c in procs && c != p && procs[c].parent == p && (request == 0 || procs[c].pid == request)
  }

  /** `p` has a child. */
  predicate Parent(procs: map<Id, Proc>, p: Id) {
    exists c :: c in procs && c != p && procs[c].parent == p
  }

  predicate ZombieChild(procs: map<Id, Proc>, p: Id) {
    exists c :: c in procs && c != p && procs[c].parent == p && procs[c].state == Zombie
  }

  datatype Event =
    | Fork(c: Id, pid: nat)       // do_fork
    | Reap(request: nat, z: Id)   // do_wait finds the zombie z
    | WaitSleep(request: nat)     // do_wait finds children, but no zombie
    | Exit                        // do_exit
    | Kill(p: Id)                 // do_kill
    | Sleep                       // do_sleep
    | SleepDone                   // do_sleep after schedule: del_timer
    | DownBlock(lost: set<Id>)    // down on a semaphore that is taken; its queue may lose waiters
    | Up(p: Id)                   // up wakes p, first in the queue of its semaphore
    | Fire(p: Id)                 // run_timers wakes p
    | Schedule(next: Id)          // schedule
    | Return                      // any other return to user mode

  /** One process changed, the rest as they were. */
  function Set(k: Kernel, p: Id, x: Proc): Kernel { k.(procs := k.procs[p := x]) }

  /** What `do_exit` leaves of process `p`: the current one is a zombie, its
      children belong to init; its parent, and init if a zombie was among the
      children, are woken from `do_wait`. */
  function AfterExit(k: Kernel, p: Id): Proc
    requires p in k.procs && k.curr in k.procs
  {
    var x := k.procs[p];
    var y := if p == k.curr then x.(state := Zombie, call := User)
             else if x.parent == k.curr then x.(parent := k.init)
             else x;
    if p != k.curr && x.wait == WaitChild &&
      (p == k.procs[k.curr].parent || (p == k.init && ZombieChild(k.procs, k.curr)))
    then Woken(y) else y
  }

  predicate Running(k: Kernel) {
    k.curr in k.procs && k.procs[k.curr].state == Runnable
  }

  /** The current process calls `do_wait(r)`, or goes round its loop once more. */
  predicate Requesting(k: Kernel, r: nat) {
    k.curr in k.procs && (k.procs[k.curr].call == User || k.procs[k.curr].call == InWait(r))
  }

  /** `p` has a child that `do_wait(r)` is about, and none of those is a zombie. */
  ghost predicate Pending(procs: map<Id, Proc>, p: Id, r: nat) {
    var pending :=
      && (exists c :: Matches(procs, p, r, c))
      && (forall c :: Matches(procs, p, r, c) ==> procs[c].state != Zombie);
    pending
  }

  ghost predicate Can(k: Kernel, e: Event) {
    && k.curr in k.procs && !k.hung
    && match e
      case Fork(c, pid) =>
        && Running(k) && k.procs[k.curr].call == User && c !in k.procs
        && pid > 0 && forall p :: p in k.procs ==> k.procs[p].pid != pid
      case Reap(r, z) =>
        && Running(k) && Requesting(k, r) && Matches(k.procs, k.curr, r, z)
        && k.procs[z].state == Zombie && z != k.init
      case WaitSleep(r) =>
        Running(k) && k.curr != k.idle && Requesting(k, r) && Pending(k.procs, k.curr, r)
      case Exit =>
        Running(k) && k.curr != k.idle && (k.procs[k.curr].call == User || k.procs[k.curr].call.InWait?)
      case Kill(p) => Running(k) && p in k.procs && p != k.idle && !k.procs[p].killed
      case Sleep => Running(k) && k.curr != k.idle && k.procs[k.curr].call == User
      case SleepDone => Running(k) && k.procs[k.curr].call == InSleep
      case DownBlock(_) => Running(k) && k.curr != k.idle && k.procs[k.curr].call == User
      case Up(p) => Running(k) && p in k.queued && p in k.procs
      case Fire(p) => p in k.timers && p in k.procs
      case Schedule(next) => next in k.procs && k.procs[next].state == Runnable
      case Return => Running(k) && k.procs[k.curr].call != InSleep
  }

  ghost function Step(k: Kernel, e: Event): Kernel
    requires Can(k, e)
  {
    var x := k.procs[k.curr];
    match e
    case Fork(c, pid) => Set(k, c, Proc(pid, k.curr, Runnable, WaitNone, false, User))
    case Reap(_, z) => Set(k, k.curr, x.(call := User)).(procs := k.procs[k.curr := x.(call := User)] - {z})
    case WaitSleep(r) => Set(k, k.curr, x.(state := Sleeping, wait := WaitChild, call := InWait(r)))
    case Exit =>
      k.(procs := map p | p in k.procs :: AfterExit(k, p), hung := k.curr == k.init && Parent(k.procs, k.init))
    case Kill(p) =>
      var y := k.procs[p].(killed := true);
      Set(k, p, if y.wait == WaitChild || y.wait == WaitTimer then Woken(y) else y)
    case Sleep =>
      Set(k, k.curr, x.(state := Sleeping, wait := WaitTimer, call := InSleep)).(timers := k.timers + {k.curr})
    case SleepDone => Set(k, k.curr, x.(call := User)).(timers := k.timers - {k.curr})
    case DownBlock(lost) =>
      Set(k, k.curr, x.(state := Sleeping, wait := WaitSem, call := InDown)).(queued := k.queued - lost + {k.curr})
    case Up(p) => Set(k, p, Woken(k.procs[p])).(queued := k.queued - {p})
    case Fire(p) => Set(k, p, Woken(k.procs[p])).(timers := k.timers - {p})
    case Schedule(next) => k.(curr := next)
    case Return => Set(k, k.curr, x.(call := User))
  }

  // ---------------------------------------------------------------- invariant

  /** `wait_state` is set exactly while a process sleeps, and tells where. */
  predicate StateOk(x: Proc) {
    && (x.wait == WaitNone <==> x.state != Sleeping)
    && (x.wait == WaitChild ==> x.call.InWait?)
    && (x.wait == WaitTimer ==> x.call == InSleep)
    && (x.wait == WaitSem ==> x.call == InDown)
    && (x.state == Zombie ==> x.call == User)
  }

  /** Parents exist, and none but init, when it has exited, is a zombie. */
  predicate FamilyOk(k: Kernel, p: Id)
    requires p in k.procs
  {
    p != k.idle ==>
      && k.procs[p].parent in k.procs && k.procs[p].parent != p
      && (k.procs[k.procs[p].parent].state == Zombie ==> k.procs[p].parent == k.init)
  }

  /** A process asleep in `do_wait` has a child it waits for, and none of those
      has exited yet. */
  ghost predicate Waiting(k: Kernel, p: Id)
    requires p in k.procs
  {
    k.procs[p].wait == WaitChild && k.procs[p].call.InWait? ==>
      Pending(k.procs, p, k.procs[p].call.request)
  }

  ghost predicate Inv(k: Kernel) {
    var inv :=
      && k.curr in k.procs && k.idle in k.procs && k.init in k.procs && k.idle != k.init
      && k.procs[k.idle].state == Runnable && k.procs[k.init].parent == k.idle
      && (forall p {:trigger StateOk(k.procs[p])} :: p in k.procs ==> StateOk(k.procs[p]))
      && (forall p {:trigger FamilyOk(k, p)} :: p in k.procs ==> FamilyOk(k, p))
      && (forall p {:trigger Waiting(k, p)} :: p in k.procs ==> Waiting(k, p))
      && (forall p :: p in k.timers ==> p in k.procs && k.procs[p].call == InSleep)
      && (forall p :: p in k.queued ==> p in k.procs && k.procs[p].wait == WaitSem);
    inv
  }

  /** After `init_proc`: idle and init. */
  function Boot(): Kernel {
    Kernel(map[0 := Proc(0, 0, Runnable, WaitNone, false, User), 1 := Proc(1, 0, Runnable, WaitNone, false, User)],
           0, 0, 1, {}, {}, false)
  }

  lemma BootInv()
    ensures Inv(Boot()) && Boot().curr == Boot().idle && Boot().procs.Keys == {Boot().idle, Boot().init}
  {
  }

  // --------------------------------------------------------------- every step

  /** A step that changes only `p`, and not whether it is a zombie. */
  lemma SetKeeps(k: Kernel, p: Id, y: Proc, timers: set<Id>, queued: set<Id>)
    requires Inv(k) && p in k.procs
    requires y.parent == k.procs[p].parent && y.pid == k.procs[p].pid
    requires y.state == Zombie <==> k.procs[p].state == Zombie
    requires StateOk(y) && (p == k.idle ==> y.state == Runnable)
    requires Waiting(k.(procs := k.procs[p := y]), p)
    requires forall q :: q in timers ==> q in k.timers || (q == p && y.call == InSleep)
    requires p in timers ==> y.call == InSleep
    requires forall q :: q in queued ==> q in k.queued || q == p
    requires p in queued ==> y.wait == WaitSem
    ensures Inv(k.(procs := k.procs[p := y], timers := timers, queued := queued))
  {
    var k' := k.(procs := k.procs[p := y], timers := timers, queued := queued);
    assert Waiting(k.(procs := k.procs[p := y]), p);
    ChangedKeeps(k, k', p);
  }

  lemma ChangedKeeps(k: Kernel, k': Kernel, p: Id)
    requires Inv(k) && p in k.procs && k'.curr == k.curr && k'.idle == k.idle && k'.init == k.init
    requires k'.procs.Keys == k.procs.Keys && forall x :: x in k.procs && x != p ==> k'.procs[x] == k.procs[x]
    requires k'.procs[p].parent == k.procs[p].parent && k'.procs[p].pid == k.procs[p].pid
    requires k'.procs[p].state == Zombie <==> k.procs[p].state == Zombie
    requires StateOk(k'.procs[p]) && (p == k.idle ==> k'.procs[p].state == Runnable) && Waiting(k', p)
    requires forall q :: q in k'.timers ==> q in k'.procs && k'.procs[q].call == InSleep
    requires forall q :: q in k'.queued ==> q in k'.procs && k'.procs[q].wait == WaitSem
    ensures Inv(k')
  {
    forall q | q in k'.procs ensures StateOk(k'.procs[q]) { if q != p { assert StateOk(k.procs[q]); } }
    forall q | q in k'.procs ensures FamilyOk(k', q) {
      assert FamilyOk(k, q);
      SetFamily(k, k', p, q);
    }
    forall q | q in k'.procs ensures Waiting(k', q) {
      if q != p {
        assert Waiting(k, q);
        SetWaiting(k, k', p, q);
      }
    }
  }

  lemma SetFamily(k: Kernel, k': Kernel, p: Id, q: Id)
    requires p in k.procs && q in k.procs && FamilyOk(k, q) && k'.idle == k.idle && k'.init == k.init
    requires k'.procs.Keys == k.procs.Keys && forall x :: x in k.procs && x != p ==> k'.procs[x] == k.procs[x]
    requires k'.procs[p].parent == k.procs[p].parent
    requires k'.procs[p].state == Zombie <==> k.procs[p].state == Zombie
    ensures FamilyOk(k', q)
  {
  }

  lemma SetWaiting(k: Kernel, k': Kernel, p: Id, q: Id)
    requires p in k.procs && q in k.procs && q != p && Waiting(k, q)
    requires k'.procs.Keys == k.procs.Keys && forall x :: x in k.procs && x != p ==> k'.procs[x] == k.procs[x]
    requires k'.procs[p].parent == k.procs[p].parent && k'.procs[p].pid == k.procs[p].pid
    requires k'.procs[p].state == Zombie <==> k.procs[p].state == Zombie
    ensures Waiting(k', q)
  {
    if Waits(k, q) { PendingFrame(k.procs, k'.procs, q, k.procs[q].call.request); }
  }

  predicate Waits(k: Kernel, q: Id)
    requires q in k.procs
  {
    k.procs[q].wait == WaitChild && k.procs[q].call.InWait?
  }

  /** What a waiter waits for depends on its own children only: they may not
      become zombies or go away. */
  lemma PendingFrame(procs: map<Id, Proc>, procs': map<Id, Proc>, q: Id, r: nat)
    requires Pending(procs, q, r)
    requires forall c :: c in procs && c != q && procs[c].parent == q ==>
      c in procs' && procs'[c].parent == q && procs'[c].pid == procs[c].pid &&
        (procs'[c].state == Zombie ==> procs[c].state == Zombie)
    requires forall c :: c in procs' && c != q && procs'[c].parent == q ==>
      (c in procs && procs[c].parent == q) || procs'[c].state != Zombie
    ensures Pending(procs', q, r)
  {
    var c :| Matches(procs, q, r, c);
    assert Matches(procs', q, r, c);
    forall x | Matches(procs', q, r, x) ensures procs'[x].state != Zombie {
      if x in procs && procs[x].parent == q { assert Matches(procs, q, r, x); }
    }
  }

  lemma WakeKeeps(k: Kernel, p: Id, timers: set<Id>, queued: set<Id>, killed: bool)
    requires Inv(k) && p in k.procs && k.procs[p].state != Zombie && timers <= k.timers
    requires queued <= k.queued && p !in queued
    ensures Inv(k.(procs := k.procs[p := Woken(k.procs[p].(killed := killed))], timers := timers, queued := queued))
  {
    assert StateOk(k.procs[p]);
    SetKeeps(k, p, Woken(k.procs[p].(killed := killed)), timers, queued);
  }

  lemma ForkKeeps(k: Kernel, c: Id, pid: nat)
    requires Inv(k) && Can(k, Fork(c, pid))
    ensures Inv(Step(k, Fork(c, pid)))
  {
    var k' := Step(k, Fork(c, pid));
    assert StateOk(k.procs[k.curr]);
    forall q | q in k'.procs ensures StateOk(k'.procs[q]) { if q != c { assert StateOk(k.procs[q]); } }
    forall q | q in k'.procs ensures FamilyOk(k', q) { if q != c { assert FamilyOk(k, q); } }
    forall q | q in k'.procs ensures Waiting(k', q) {
      if q != c {
        assert Waiting(k, q);
        if Waits(k, q) { PendingFrame(k.procs, k'.procs, q, k.procs[q].call.request); }
      }
    }
  }

  lemma ReapKeeps(k: Kernel, r: nat, z: Id)
    requires Inv(k) && Can(k, Reap(r, z))
    ensures Inv(Step(k, Reap(r, z)))
  {
    var k' := Step(k, Reap(r, z));
    assert StateOk(k.procs[k.curr]) && StateOk(k.procs[z]);
    forall q | q in k'.procs ensures StateOk(k'.procs[q]) { if q != k.curr { assert StateOk(k.procs[q]); } }
    forall q | q in k'.procs ensures FamilyOk(k', q) { assert FamilyOk(k, q); }
    forall q | q in k'.procs ensures Waiting(k', q) { ReapWaiting(k, r, z, k', q); }
  }

  lemma ReapWaiting(k: Kernel, r: nat, z: Id, k': Kernel, q: Id)
    requires Inv(k) && Can(k, Reap(r, z)) && k' == Step(k, Reap(r, z)) && q in k'.procs
    ensures Waiting(k', q)
  {
    assert StateOk(k.procs[k.curr]);
    if q != k.curr {
      assert Waiting(k, q);
      if Waits(k, q) { PendingFrame(k.procs, k'.procs, q, k.procs[q].call.request); }
    }
  }

  /** `do_exit`: the parent is woken if it waits, and so is init when it inherits
      a zombie; every other waiter keeps a living child to wait for. */
  lemma ExitKeeps(k: Kernel)
    requires Inv(k) && Can(k, Exit)
    ensures Inv(Step(k, Exit))
  {
    var k' := Step(k, Exit);
    ExitTops(k, k');
    forall q | q in k'.procs ensures StateOk(k'.procs[q]) { ExitState(k, k', q); }
    forall q | q in k'.procs ensures FamilyOk(k', q) { ExitFamily(k, k', q); }
    forall q | q in k'.procs ensures Waiting(k', q) { ExitWaiting(k, k', q); }
  }

  lemma ExitTops(k: Kernel, k': Kernel)
    requires Inv(k) && Can(k, Exit) && k' == Step(k, Exit)
    ensures k'.procs.Keys == k.procs.Keys && k'.idle == k.idle && k'.init == k.init && k'.curr == k.curr &&
      k'.timers == k.timers
    ensures k'.procs[k.idle].state == Runnable && k'.procs[k.init].parent == k.idle && k'.queued == k.queued
    ensures forall p :: p in k'.timers ==> p in k'.procs && k'.procs[p].call == InSleep
    ensures forall p :: p in k'.queued ==> p in k'.procs && k'.procs[p].wait == WaitSem
  {
    assert FamilyOk(k, k.curr) && FamilyOk(k, k.init);
  }

  lemma ExitState(k: Kernel, k': Kernel, q: Id)
    requires Inv(k) && Can(k, Exit) && k' == Step(k, Exit) && q in k.procs
    ensures StateOk(k'.procs[q])
  {
    assert StateOk(k.procs[k.curr]) && StateOk(k.procs[q]);
  }

  lemma ExitFamily(k: Kernel, k': Kernel, q: Id)
    requires Inv(k) && Can(k, Exit) && k' == Step(k, Exit) && q in k.procs
    ensures FamilyOk(k', q)
  {
    assert FamilyOk(k, q);
  }

  lemma ExitWaiting(k: Kernel, k': Kernel, q: Id)
    requires Inv(k) && Can(k, Exit) && k' == Step(k, Exit) && q in k.procs
    ensures Waiting(k', q)
  {
    assert StateOk(k.procs[k.curr]) && StateOk(k.procs[q]);
    assert Waiting(k, q);
    if Waits(k', q) {
      assert q != k.curr && q != k.procs[k.curr].parent && k'.procs[q].call == k.procs[q].call;
      assert q == k.init ==> !ZombieChild(k.procs, k.curr);
      forall c | c in k'.procs && c != q && k'.procs[c].parent == q
        ensures (c in k.procs && k.procs[c].parent == q) || k'.procs[c].state != Zombie
      {
        if k.procs[c].parent != q {
          assert k.procs[c].parent == k.curr && q == k.init;
          assert FamilyOk(k, c);
        }
      }
      PendingFrame(k.procs, k'.procs, q, k.procs[q].call.request);
    }
  }

  lemma StepKeeps(k: Kernel, e: Event)
    requires Inv(k) && Can(k, e)
    ensures Inv(Step(k, e))
  {
    var x := k.procs[k.curr];
    assert StateOk(x);
    match e
    case Fork(c, pid) => ForkKeeps(k, c, pid);
    case Reap(r, z) => ReapKeeps(k, r, z);
    case WaitSleep(r) => WaitSleepKeeps(k, r);
    case Exit => ExitKeeps(k);
    case Kill(p) => KillKeeps(k, p);
    case Sleep => SetKeeps(k, k.curr, x.(state := Sleeping, wait := WaitTimer, call := InSleep), k.timers + {k.curr},
      k.queued);
    case SleepDone => SetKeeps(k, k.curr, x.(call := User), k.timers - {k.curr}, k.queued);
    case DownBlock(lost) =>
      SetKeeps(k, k.curr, x.(state := Sleeping, wait := WaitSem, call := InDown), k.timers, k.queued - lost + {k.curr});
    case Up(p) =>
      assert StateOk(k.procs[p]);
      WakeKeeps(k, p, k.timers, k.queued - {p}, k.procs[p].killed);
    case Fire(p) =>
      assert StateOk(k.procs[p]);
      WakeKeeps(k, p, k.timers - {p}, k.queued, k.procs[p].killed);
    case Schedule(next) => ScheduleKeeps(k, next);
    case Return => SetKeeps(k, k.curr, x.(call := User), k.timers, k.queued);
  }

  lemma WaitSleepKeeps(k: Kernel, r: nat)
    requires Inv(k) && Can(k, WaitSleep(r))
    ensures Inv(Step(k, WaitSleep(r)))
  {
    var y := k.procs[k.curr].(state := Sleeping, wait := WaitChild, call := InWait(r));
    assert StateOk(k.procs[k.curr]);
    PendingFrame(k.procs, k.procs[k.curr := y], k.curr, r);
    SetKeeps(k, k.curr, y, k.timers, k.queued);
  }

  lemma KillKeeps(k: Kernel, p: Id)
    requires Inv(k) && Can(k, Kill(p))
    ensures Inv(Step(k, Kill(p)))
  {
    assert StateOk(k.procs[p]);
    var y := k.procs[p].(killed := true);
    if y.wait == WaitChild || y.wait == WaitTimer {
      WakeKeeps(k, p, k.timers, k.queued, true);
    } else {
      SetKeeps(k, p, y, k.timers, k.queued);
    }
  }

  lemma ScheduleKeeps(k: Kernel, next: Id)
    requires Inv(k) && Can(k, Schedule(next))
    ensures Inv(k.(curr := next))
  {
    var k' := k.(curr := next);
    forall q | q in k'.procs ensures StateOk(k'.procs[q]) { assert StateOk(k.procs[q]); }
    forall q | q in k'.procs ensures FamilyOk(k', q) { assert FamilyOk(k, q); }
    forall q | q in k'.procs ensures Waiting(k', q) { assert Waiting(k, q); }
  }

  // ---------------------------------------------------------------- every run

  ghost predicate Legal(k: Kernel, es: seq<Event>)
    decreases |es|
  {
    es == [] || (Can(k, es[0]) && Legal(Step(k, es[0]), es[1..]))
  }

  ghost function Exec(k: Kernel, es: seq<Event>): Kernel
    requires Legal(k, es)
    decreases |es|
  {
    if es == [] then k else Exec(Step(k, es[0]), es[1..])
  }

  lemma {:induction false} RunKeepsInvariant(k: Kernel, es: seq<Event>)
    requires Inv(k) && Legal(k, es)
    ensures Inv(Exec(k, es))
    decreases |es|
  {
    if es != [] {
      StepKeeps(k, es[0]);
      RunKeepsInvariant(Step(k, es[0]), es[1..]);
    }
  }

  /** In every reachable state, a process asleep in `do_wait` has a child its
      request is about and none of those is a zombie: no exit goes unnoticed. */
  lemma NoLostChildWakeup(es: seq<Event>, p: Id)
    requires Legal(Boot(), es) && p in Exec(Boot(), es).procs
    ensures
      var k := Exec(Boot(), es);
      && (k.procs[p].state == Sleeping <==> k.procs[p].wait != WaitNone)
      && (k.procs[p].wait == WaitChild ==>
            k.procs[p].call.InWait? && Pending(k.procs, p, k.procs[p].call.request))
  {
    BootInv();
    RunKeepsInvariant(Boot(), es);
    var k := Exec(Boot(), es);
    assert StateOk(k.procs[p]) && Waiting(k, p);
  }

  /** Who the next event would pass to `wakeup_proc`. */
  ghost predicate WakesUp(k: Kernel, e: Event, p: Id)
    requires Can(k, e) && p in k.procs
  {
    match e
    case Kill(q) => p == q && (k.procs[p].wait == WaitChild || k.procs[p].wait == WaitTimer)
    case Up(q) => p == q
    case Fire(q) => p == q
    case Exit => p != k.curr && k.procs[p].wait == WaitChild &&
      (p == k.procs[k.curr].parent || (p == k.init && ZombieChild(k.procs, k.curr)))
    case _ => false
  }

  /** The assertion of `wakeup_proc` cannot fail; nor can that of `up`, that the
      process it finds first in the queue is in WAIT_SEM; and a process that a
      timer finds waiting is in an interruptible wait. */
  lemma NeverWakesZombie(k: Kernel, e: Event, p: Id)
    requires Inv(k) && Can(k, e) && p in k.procs && WakesUp(k, e, p)
    ensures k.procs[p].state != Zombie
    ensures e.Up? ==> k.procs[p].wait == WaitSem
    ensures e.Fire? && k.procs[p].wait != WaitNone ==> k.procs[p].wait == WaitTimer
  {
    assert StateOk(k.procs[p]);
  }

  // ------------------------------------------------------------- init can be killed

  /** Init forks, waits for its child, and is killed by it. */
  function KillInit(): seq<Event> {
    [Schedule(1), Fork(2, 2), WaitSleep(0), Schedule(2), Kill(1), Schedule(1)]
  }

  /** Init is running again inside `do_wait`, killed, with its child alive. */
  function Killed(): Kernel {
    Kernel(map[0 := Proc(0, 0, Runnable, WaitNone, false, User),
               1 := Proc(1, 0, Runnable, WaitNone, true, InWait(0)),
               2 := Proc(2, 1, Runnable, WaitNone, false, User)],
           1, 0, 1, {}, {}, false)
  }

  lemma Follow(k: Kernel, e: Event, rest: seq<Event>)
    requires Can(k, e) && Legal(Step(k, e), rest)
    ensures Legal(k, [e] + rest) && Exec(k, [e] + rest) == Exec(Step(k, e), rest)
  {
    assert ([e] + rest)[1..] == rest;
  }

  /** What `KillInit` passes through. */
  function Family(curr: Id, init: Proc): Kernel {
    Kernel(map[0 := Proc(0, 0, Runnable, WaitNone, false, User),
               1 := init,
               2 := Proc(2, 1, Runnable, WaitNone, false, User)],
           curr, 0, 1, {}, {}, false)
  }

  lemma ForksAndWaits(rest: seq<Event>)
    requires Legal(Family(1, Proc(1, 0, Sleeping, WaitChild, false, InWait(0))), rest)
    ensures
      var es := [Schedule(1)] + ([Fork(2, 2)] + ([WaitSleep(0)] + rest));
      Legal(Boot(), es) && Exec(Boot(), es) == Exec(Family(1, Proc(1, 0, Sleeping, WaitChild, false, InWait(0))), rest)
  {
    var k1 := Step(Boot(), Schedule(1));
    var k2 := Step(k1, Fork(2, 2));
    assert k2 == Family(1, Proc(1, 0, Runnable, WaitNone, false, User));
    assert Matches(k2.procs, 1, 0, 2);
    assert Pending(k2.procs, 1, 0);
    assert Step(k2, WaitSleep(0)) == Family(1, Proc(1, 0, Sleeping, WaitChild, false, InWait(0)));
    Follow(k2, WaitSleep(0), rest);
    Follow(k1, Fork(2, 2), [WaitSleep(0)] + rest);
    Follow(Boot(), Schedule(1), [Fork(2, 2)] + ([WaitSleep(0)] + rest));
  }

  lemma KilledByChild(k: Kernel, es: seq<Event>)
    requires k == Family(1, Proc(1, 0, Sleeping, WaitChild, false, InWait(0))) &&
      es == [Schedule(2), Kill(1), Schedule(1)]
    ensures Legal(k, es) && Exec(k, es) == Killed()
  {
    var k1 := Step(k, Schedule(2));
    var k2 := Step(k1, Kill(1));
    assert k2 == Family(2, Proc(1, 0, Runnable, WaitNone, true, InWait(0)));
    var t := es[2..];
    assert t == [Schedule(1)] + [];
    assert Step(k2, Schedule(1)) == Killed();
    Follow(k2, Schedule(1), []);
    Follow(k1, Kill(1), t);
    Follow(k, Schedule(2), [Kill(1)] + t);
    assert es == [Schedule(2)] + ([Kill(1)] + t);
  }

  /** From boot, init comes to the call of `do_exit` in `do_wait` while it has a child,
      and with that call the kernel hangs. */
  lemma InitExitReached()
    ensures Legal(Boot(), KillInit()) && Exec(Boot(), KillInit()) == Killed()
    ensures Killed().curr == Killed().init && Killed().procs[1].killed && Killed().procs[1].call == InWait(0)
    ensures Running(Killed()) && Parent(Killed().procs, Killed().init)
    ensures Can(Killed(), Exit) && Step(Killed(), Exit).hung
  {
    var t := [Schedule(2), Kill(1), Schedule(1)];
    KilledByChild(Family(1, Proc(1, 0, Sleeping, WaitChild, false, InWait(0))), t);
    ForksAndWaits(t);
    assert [Schedule(1)] + ([Fork(2, 2)] + ([WaitSleep(0)] + t)) == KillInit();
    assert Killed().procs[2].parent == 1;
  }
}
