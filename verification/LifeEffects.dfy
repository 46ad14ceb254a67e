/** What each step of the process life cycle (kernel/proc/proc.c, kernel/proc/schedule.c)
    does to whom, and that a child stays a child. */
module LifeEffects {
  import opened Life

  /** Every process but `p` is as it was, and so is who may be waiting for what. */
  ghost predicate OnlyChanges(k: Kernel, k': Kernel, p: Id) {
    && k'.procs.Keys == k.procs.Keys && k'.idle == k.idle && k'.init == k.init && k'.hung == k.hung
    && (forall q :: q in k.procs && q != p ==> k'.procs[q] == k.procs[q])
    && (p in k.procs ==> k'.procs[p].parent == k.procs[p].parent && k'.procs[p].pid == k.procs[p].pid)
  }

  /** The child of a fork is a child of the process that forks, runnable, and the one
      with that pid; nobody's other children change. */
  lemma ForkEffect(k: Kernel, c: Id, pid: nat)
    requires Inv(k) && Can(k, Fork(c, pid))
    ensures
      var k' := Step(k, Fork(c, pid));
      && Matches(k'.procs, k.curr, 0, c) && Matches(k'.procs, k.curr, pid, c)
      && (forall x :: Matches(k'.procs, k.curr, pid, x) ==> x == c)
      && k'.procs[c].state == Runnable && k'.procs[c].wait == WaitNone && k'.procs[c].call == User &&
        !k'.procs[c].killed
      && (forall p, r, x :: x != c || p != k.curr ==> (Matches(k'.procs, p, r, x) <==> Matches(k.procs, p, r, x)))
      && (forall q :: q in k.procs ==> q in k'.procs && k'.procs[q] == k.procs[q])
      && k'.curr == k.curr && k'.timers == k.timers && k'.queued == k.queued
  {
    assert StateOk(k.procs[k.curr]);
  }

  /** The zombie is gone, and with it only the wait of its parent. */
  lemma ReapEffect(k: Kernel, r: nat, z: Id)
    requires Inv(k) && Can(k, Reap(r, z))
    ensures
      var k' := Step(k, Reap(r, z));
      && k'.procs.Keys == k.procs.Keys - {z} && k.procs[z].parent == k.curr && k.procs[z].state == Zombie
      && (forall q :: q in k'.procs && q != k.curr ==> k'.procs[q] == k.procs[q])
      && k'.procs[k.curr].call == User && k'.procs[k.curr].state == Runnable
      && (forall p, s, x :: x != z ==> (Matches(k'.procs, p, s, x) <==> Matches(k.procs, p, s, x)))
      && k'.curr == k.curr && k'.timers == k.timers && k'.queued == k.queued
  {
  }

  /** A killed process is marked, and runs again if it sleeps in do_wait or do_sleep. */
  lemma KillEffect(k: Kernel, p: Id)
    requires Inv(k) && Can(k, Kill(p))
    ensures
      var k' := Step(k, Kill(p));
      && OnlyChanges(k, k', p) && k'.curr == k.curr && k'.timers == k.timers && k'.queued == k.queued
      && k'.procs[p].killed && k'.procs[p].call == k.procs[p].call
      && (k.procs[p].state == Sleeping && (k.procs[p].call.InWait? || k.procs[p].call.InSleep?) ==>
            k'.procs[p].state == Runnable && k'.procs[p].wait == WaitNone)
      && (k.procs[p].state != Sleeping || k.procs[p].call.InDown? ==>
            k'.procs[p].state == k.procs[p].state && k'.procs[p].wait == k.procs[p].wait)
  {
    assert StateOk(k.procs[p]);
  }

  /** Whoever exits is a zombie and has no child, and its children are those of init;
      its parent is runnable if it was waiting for a child, and so is init if it has
      inherited a zombie. */
  lemma ExitEffect(k: Kernel)
    requires Inv(k) && Can(k, Exit) && k.curr != k.init
    ensures
      var k' := Step(k, Exit);
      && k'.procs.Keys == k.procs.Keys && k'.procs[k.curr].state == Zombie
      && (forall r, x :: !Matches(k'.procs, k.curr, r, x))
      && (forall r, x :: Matches(k.procs, k.curr, r, x) ==> Matches(k'.procs, k.init, r, x) || x == k.init)
      && (forall q :: q in k.procs && k.procs[q].parent != k.curr ==> k'.procs[q].parent == k.procs[q].parent)
      && (forall q :: q in k.procs && q != k.curr ==>
            (k'.procs[q].state == k.procs[q].state && k'.procs[q].wait == k.procs[q].wait) ||
            (k.procs[q].wait == WaitChild && (q == k.procs[k.curr].parent || q == k.init)))
      && (!ZombieChild(k.procs, k.curr) && k.procs[k.curr].parent != k.init ==> k'.procs[k.init] == k.procs[k.init])
      && k.procs[k.curr].parent in k.procs
      && (k.procs[k.procs[k.curr].parent].wait == WaitChild ==> k'.procs[k.procs[k.curr].parent].state == Runnable)
      && (k.procs[k.init].wait == WaitChild && ZombieChild(k.procs, k.curr) ==> k'.procs[k.init].state == Runnable)
      && (forall q :: q in k.procs ==> k'.procs[q].pid == k.procs[q].pid && k'.procs[q].killed == k.procs[q].killed)
      && k'.curr == k.curr && k'.timers == k.timers && k'.queued == k.queued && !k'.hung
  {
    assert FamilyOk(k, k.curr);
  }

  /** Init exits like any other process, but gives its children to nobody: with one
      left the kernel hangs. */
  lemma InitExitEffect(k: Kernel)
    requires Inv(k) && Can(k, Exit) && k.curr == k.init
    ensures
      var k' := Step(k, Exit);
      && k'.procs.Keys == k.procs.Keys && k'.procs[k.init].state == Zombie
      && (forall q :: q in k.procs && q != k.init && q != k.idle ==> k'.procs[q] == k.procs[q])
      && (forall q :: q in k.procs ==> k'.procs[q].parent == k.procs[q].parent)
      && (k'.hung <==> exists x :: Matches(k.procs, k.init, 0, x))
      && k'.curr == k.curr && k'.timers == k.timers && k'.queued == k.queued
  {
    if Parent(k.procs, k.init) {
      var c :| c in k.procs && c != k.init && k.procs[c].parent == k.init;
      assert Matches(k.procs, k.init, 0, c);
    }
  }

  /** Going to sleep: in do_wait, in do_sleep with a timer, or in a semaphore's queue. */
  lemma SleepEffect(k: Kernel, e: Event)
    requires Inv(k) && Can(k, e) && (e.WaitSleep? || e.Sleep? || e.DownBlock?)
    ensures
      var k' := Step(k, e);
      var y := k'.procs[k.curr];
      && OnlyChanges(k, k', k.curr) && k'.curr == k.curr && y.state == Sleeping && y.killed == k.procs[k.curr].killed
      && (e.WaitSleep? ==>
            y.wait == WaitChild && y.call == InWait(e.request) && k'.timers == k.timers && k'.queued == k.queued)
      && (e.Sleep? ==>
            y.wait == WaitTimer && y.call == InSleep && k'.timers == k.timers + {k.curr} && k'.queued == k.queued)
      && (e.DownBlock? ==>
            && y.wait == WaitSem && y.call == InDown && k.curr in k'.queued && k'.timers == k.timers
            && forall q :: q != k.curr ==> (q in k'.queued <==> q in k.queued && q !in e.lost))
  {
  }

  /** Waking up: by a semaphore, or by a timer, which is then gone. */
  lemma WakeEffect(k: Kernel, e: Event)
    requires Inv(k) && Can(k, e) && (e.Up? || e.Fire?)
    ensures
      var k' := Step(k, e);
      && e.p in k.procs && OnlyChanges(k, k', e.p) && k'.curr == k.curr
      && k'.procs[e.p].state == Runnable && k'.procs[e.p].wait == WaitNone
      && k'.procs[e.p].call == k.procs[e.p].call && k'.procs[e.p].killed == k.procs[e.p].killed
      && k'.queued == (if e.Up? then k.queued - {e.p} else k.queued)
      && k'.timers == (if e.Fire? then k.timers - {e.p} else k.timers)
  {
    assert StateOk(k.procs[e.p]);
  }

  /** schedule only changes who is current; other returns only end the call, and
      do_sleep takes its timer back. */
  lemma TurnEffect(k: Kernel, e: Event)
    requires Inv(k) && Can(k, e) && (e.Schedule? || e.Return? || e.SleepDone?)
    ensures
      var k' := Step(k, e);
      && OnlyChanges(k, k', k.curr) && k'.queued == k.queued
      && (e.Schedule? ==> k'.procs == k.procs && k'.curr == e.next && k'.timers == k.timers)
      && (!e.Schedule? ==> k'.curr == k.curr && k'.procs[k.curr] == k.procs[k.curr].(call := User))
      && (e.SleepDone? ==> k'.timers == k.timers - {k.curr})
      && (e.Return? ==> k'.timers == k.timers)
  {
  }

  // ------------------------------------------------------------- a child stays a child

  /** Neither does `p` exit during the run, nor is its child `c` reaped. */
  ghost predicate Stays(k: Kernel, es: seq<Event>, p: Id, c: Id)
    requires Legal(k, es)
    decreases |es|
  {
    es == [] ||
    (!(es[0].Exit? && k.curr == p) && !(es[0].Reap? && es[0].z == c) && Stays(Step(k, es[0]), es[1..], p, c))
  }

  lemma StaysStep(k: Kernel, e: Event, p: Id, r: nat, c: Id)
    requires Inv(k) && Can(k, e) && Matches(k.procs, p, r, c) && p in k.procs && c != k.idle
    requires !(e.Exit? && k.curr == p) && !(e.Reap? && e.z == c)
    ensures Matches(Step(k, e).procs, p, r, c) && p in Step(k, e).procs
  {
    match e
    case Fork(x, pid) => ForkEffect(k, x, pid);
    case Reap(s, z) =>
      ReapEffect(k, s, z);
      assert FamilyOk(k, c);
    case Exit =>
      if k.curr != k.init { ExitEffect(k); }
    case Kill(q) => KillEffect(k, q);
    case WaitSleep(_) => SleepEffect(k, e);
    case Sleep => SleepEffect(k, e);
    case DownBlock(_) => SleepEffect(k, e);
    case Up(_) => WakeEffect(k, e);
    case Fire(_) => WakeEffect(k, e);
    case _ => TurnEffect(k, e);
  }

  /** Until its parent exits or it is reaped, a process remains the child, with the pid,
      that its parent can wait for. */
  lemma {:induction false} ChildStays(k: Kernel, es: seq<Event>, p: Id, r: nat, c: Id)
    requires Inv(k) && Legal(k, es) && Stays(k, es, p, c)
    requires Matches(k.procs, p, r, c) && p in k.procs && c != k.idle
    ensures Matches(Exec(k, es).procs, p, r, c) && p in Exec(k, es).procs
    decreases |es|
  {
    if es != [] {
      StepKeeps(k, es[0]);
      StaysStep(k, es[0], p, r, c);
      ChildStays(Step(k, es[0]), es[1..], p, r, c);
    }
  }

  /** What a process forks it can wait for, whatever else happens in between. */
  lemma ForkedChildStays(k: Kernel, c: Id, pid: nat, es: seq<Event>)
    requires Inv(k) && Can(k, Fork(c, pid))
    requires Legal(Step(k, Fork(c, pid)), es) && Stays(Step(k, Fork(c, pid)), es, k.curr, c)
    ensures
      var procs := Exec(Step(k, Fork(c, pid)), es).procs;
      Matches(procs, k.curr, 0, c) && Matches(procs, k.curr, pid, c)
  {
    ForkEffect(k, c, pid);
    StepKeeps(k, Fork(c, pid));
    ChildStays(Step(k, Fork(c, pid)), es, k.curr, 0, c);
    ChildStays(Step(k, Fork(c, pid)), es, k.curr, pid, c);
  }
}
