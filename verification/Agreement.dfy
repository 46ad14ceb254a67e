/** Run-queue agreement (kernel/proc/schedule.c, kernel/proc/stride_scheduler.c) over
    every run, whatever the strides of the processes that wake: nothing here depends
    on the order of the heap. */
module Agreement {
  import opened SkewTree
  import opened Scheduling

  /** The steps of the kernel, with `wakeup_proc` as it is: any process but a zombie. */
  ghost predicate Possible(s: Sched, e: Event) {
    if e.Wake? then s.curr in s.procs && e.p in s.procs && e.p in s.stride && s.procs[e.p].state != Zombie
    else Enabled(s, e)
  }

  ghost function Next(s: Sched, e: Event): Sched
    requires Possible(s, e)
  {
    if e.Wake? then WakeStep(s, e.p) else Step(s, e)
  }

  /** The heap holds, once each, the processes that are RUNNABLE, not current and not
      idle; num_proc is their number; their time slices are between 1 and the maximum. */
  ghost predicate Agrees(s: Sched) {
    var agrees := Tables(s) && QueueIs(s, Ready(s));
    agrees
  }

  lemma WakeAgrees(s: Sched, p: Pid)
    requires Agrees(s) && Possible(s, Wake(p))
    ensures Agrees(WakeStep(s, p))
  {
    if s.procs[p].state != Runnable {
      var s1 := s.(procs := s.procs[p := s.procs[p].(state := Runnable)]);
      if p != s.curr && p != s.idle {
        assert Tables(s1) && QueueIs(s1, Ready(s));
        EnqueueQueue(s1, p, Ready(s));
        ReadyAfterWake(s, s1, p);
      } else {
        assert Ready(s1) == Ready(s);
      }
    }
  }

  lemma RequeueAgrees(s: Sched)
    requires Agrees(s)
    ensures Tables(Requeue(s)) && QueueIs(Requeue(s), Contenders(s))
  {
    if Enqueues(s) { EnqueueQueue(s, s.curr, Ready(s)); }
  }

  lemma ScheduleAgrees(s: Sched)
    requires Agrees(s)
    ensures Schedulable(s) && Agrees(ScheduleStep(s))
  {
    RequeueAgrees(s);
    var s1, c := Requeue(s), Contenders(s);
    if s1.pool.Node? {
      HasReady(s1, c, s1.pool.item);
      var s2 := ScheduleStep(s);
      ReadyAfterPick(s, s2);
      ScheduleQueue(s1, c, s2);
    } else {
      forall q ensures q !in c { HasReady(s1, c, q); }
      ReadyAfterPick(s, ScheduleStep(s));
      assert c == {} && Ready(ScheduleStep(s)) == c;
    }
  }

  lemma OtherAgrees(s: Sched, e: Event)
    requires Agrees(s) && Enabled(s, e) && !e.Wake? && !e.Reschedule?
    ensures Agrees(Step(s, e))
  {
    assert Ready(Step(s, e)) == Ready(s);
  }

  lemma NextAgrees(s: Sched, e: Event)
    requires Agrees(s) && Possible(s, e)
    ensures Agrees(Next(s, e))
  {
    match e
    case Wake(p) => WakeAgrees(s, p);
    case Reschedule => ScheduleAgrees(s);
    case _ => OtherAgrees(s, e);
  }

  ghost predicate Happens(s: Sched, es: seq<Event>)
    decreases |es|
  {
    es == [] || (Possible(s, es[0]) && Happens(Next(s, es[0]), es[1..]))
  }

  ghost function After(s: Sched, es: seq<Event>): Sched
    requires Happens(s, es)
    decreases |es|
  {
    if es == [] then s else After(Next(s, es[0]), es[1..])
  }

  lemma {:induction false} RunAgrees(s: Sched, es: seq<Event>)
    requires Agrees(s) && Happens(s, es)
    ensures Agrees(After(s, es))
    decreases |es|
  {
    if es != [] {
      NextAgrees(s, es[0]);
      RunAgrees(Next(s, es[0]), es[1..]);
    }
  }

  /** In every state the kernel can reach from boot. */
  lemma AlwaysAgrees(es: seq<Event>, p: Pid)
    requires Happens(Boot(), es)
    ensures
      var s := After(Boot(), es);
      && s.curr in s.procs && s.idle in s.procs
      && (Has(s.pool, p) <==> p in s.procs && s.procs[p].state == Runnable && p != s.curr && p != s.idle)
      && Items(s.pool)[p] <= 1
      && s.num == |Ready(s)|
      && (Has(s.pool, p) ==> 1 <= s.procs[p].timeSlice <= MaxTimeSlice)
  {
    BootInv();
    RunAgrees(Boot(), es);
    var s := After(Boot(), es);
    HasReady(s, Ready(s), p);
  }
}
