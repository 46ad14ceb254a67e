/** What each step of the scheduler (kernel/proc/schedule.c, kernel/proc/stride_scheduler.c)
    does to whom. */
module SchedEffects {
  import opened Words
  import opened SkewTree
  import opened Scheduling

  /** Every process but `p` is as it was, and so are all strides but that of `p`. */
  ghost predicate OnlyChanges(s: Sched, s': Sched, p: Pid) {
    && s'.idle == s.idle
    && (forall q :: q != p ==> (q in s'.procs <==> q in s.procs) && (q in s'.stride <==> q in s.stride))
    && (forall q :: q in s.procs && q != p ==> s'.procs[q] == s.procs[q])
    && (forall q :: q in s.stride && q != p ==> s'.stride[q] == s.stride[q])
  }

  /** A tick takes one from the slice of the current process, if it has any left and is
      not idle, and nothing else. */
  lemma TickEffect(s: Sched)
    requires Enabled(s, Tick)
    ensures
      var s' := Step(s, Tick);
      && OnlyChanges(s, s', s.curr) && s'.curr == s.curr && s'.stride == s.stride && s'.pool == s.pool &&
        s'.num == s.num
      && s'.procs[s.curr].state == s.procs[s.curr].state && s'.procs[s.curr].priority == s.procs[s.curr].priority
      && (s.curr != s.idle && s.procs[s.curr].timeSlice > 0 ==>
            s'.procs[s.curr].timeSlice + 1 == s.procs[s.curr].timeSlice)
      && (s.curr == s.idle || s.procs[s.curr].timeSlice == 0 ==> s' == s)
  {
  }

  /** A process that blocks does not compete at the next `schedule`. */
  lemma BlockEffect(s: Sched, zombie: bool)
    requires Enabled(s, Block(zombie))
    ensures
      var s' := Step(s, Block(zombie));
      && OnlyChanges(s, s', s.curr) && s'.curr == s.curr && s'.stride == s.stride && s'.pool == s.pool &&
        s'.num == s.num
      && s'.procs[s.curr].priority == s.procs[s.curr].priority
      && s'.procs[s.curr].timeSlice == s.procs[s.curr].timeSlice
      && Contenders(s') == Contenders(s) - {s.curr}
  {
    BlockContends(s, Step(s, Block(zombie)));
  }

  lemma BlockContends(s: Sched, s': Sched)
    requires s.curr in s.procs && s'.curr == s.curr && s'.idle == s.idle && s'.procs.Keys == s.procs.Keys
    requires s'.procs[s.curr].state != Runnable && forall q :: q in s.procs && q != s.curr ==> s'.procs[q] == s.procs[q]
    ensures Contenders(s') == Contenders(s) - {s.curr}
  {
    assert Ready(s') == Ready(s);
  }

  /** It can be woken again exactly if it sleeps. */
  lemma BlockedThenWoken(s: Sched, zombie: bool)
    requires Enabled(s, Block(zombie))
    ensures Enabled(Step(s, Block(zombie)), Wake(s.curr)) <==> !zombie
  {
  }

  /** Once another process runs it can be reaped exactly if it has exited. */
  lemma BlockedThenReaped(s: Sched, zombie: bool)
    requires Inv(s) && Enabled(s, Block(zombie))
    ensures
      var s' := Step(s, Block(zombie));
      && Schedulable(s') && ScheduleStep(s').curr != s.curr
      && (Enabled(ScheduleStep(s'), Reap(s.curr)) <==> zombie)
  {
    var s' := Step(s, Block(zombie));
    StepKeeps(s, Block(zombie));
    BlockEffect(s, zombie);
    PickedOther(s', s.curr);
    RescheduleKeeps(s');
  }

  lemma PickedOther(s: Sched, p: Pid)
    requires Inv(s) && s.curr in s.procs && p !in Contenders(s) && p != s.idle
    ensures Schedulable(s) && ScheduleStep(s).curr != p
    ensures ScheduleStep(s).curr in s.procs && ScheduleStep(s).curr in ScheduleStep(s).stride
  {
    PickIsMinimal(s);
    ScheduleKeeps(s);
  }

  /** A new process has priority 1, stride 0 and no slice, and does not compete. */
  lemma CreateEffect(s: Sched, p: Pid)
    requires Inv(s) && Enabled(s, Create(p))
    ensures
      var s' := Step(s, Create(p));
      && OnlyChanges(s, s', p) && s'.curr == s.curr && s'.pool == s.pool && s'.num == s.num
      && p in s'.procs && p in s'.stride && s'.procs[p].priority == 1 && s'.procs[p].timeSlice == 0 && s'.stride[p] == 0
      && Contenders(s') == Contenders(s) && s'.procs[p].state != Zombie && s'.procs[p].state != Runnable
  {
    var s' := Step(s, Create(p));
    assert s.curr != p;
    assert Ready(s') == Ready(s);
  }

  /** A process that wakes competes from then on, with the stride and priority it had
      and its slice, or a full one if that was used up. */
  lemma WakeEffect(s: Sched, p: Pid)
    requires s.curr in s.procs && p in s.procs && p in s.stride && s.procs[p].state != Zombie && p != s.idle
    ensures
      var s' := WakeStep(s, p);
      && OnlyChanges(s, s', p) && s'.curr == s.curr && s'.stride == s.stride && s'.curr in s'.procs
      && s'.procs[p].state == Runnable && s'.procs[p].priority == s.procs[p].priority
      && Contenders(s') == Contenders(s) + {p}
      && (s.procs[p].state == Runnable ==> s' == s)
      && (s.procs[p].state != Runnable && p != s.curr && s.procs[p].timeSlice == 0 ==>
            s'.procs[p].timeSlice == MaxTimeSlice)
      && (p == s.curr || 0 < s.procs[p].timeSlice <= MaxTimeSlice ==>
            s'.procs[p].timeSlice == s.procs[p].timeSlice)
  {
    WakeContends(s, WakeStep(s, p), p);
  }

  lemma WakeContends(s: Sched, s': Sched, p: Pid)
    requires s.curr in s.procs && p in s.procs && p != s.idle && s'.curr == s.curr && s'.idle == s.idle
    requires s'.procs.Keys == s.procs.Keys && forall q :: q in s.procs && q != p ==> s'.procs[q] == s.procs[q]
    requires s'.procs[p].state == Runnable
    ensures Contenders(s') == Contenders(s) + {p}
  {
    forall q ensures q in Contenders(s') <==> q in Contenders(s) || q == p {
      if q in s.procs && q != p { assert s'.procs[q] == s.procs[q]; }
    }
  }

  /** A priority set to 0 counts as 1; nothing else changes. */
  lemma PriorityEffect(s: Sched, v: u32)
    requires Enabled(s, SetPriority(v))
    ensures
      var s' := Step(s, SetPriority(v));
      && OnlyChanges(s, s', s.curr) && s'.curr == s.curr && s'.stride == s.stride && s'.pool == s.pool &&
        s'.num == s.num
      && (v > 0 ==> s'.procs[s.curr].priority == v) && (v == 0 ==> s'.procs[s.curr].priority == 1)
      && s'.procs[s.curr].state == s.procs[s.curr].state && s'.procs[s.curr].timeSlice == s.procs[s.curr].timeSlice
  {
  }

  /** A process that is reaped is gone, and nothing else changes. */
  lemma ReapEffect(s: Sched, p: Pid)
    requires Enabled(s, Reap(p))
    ensures
      var s' := Step(s, Reap(p));
      && OnlyChanges(s, s', p) && p !in s'.procs && s.procs[p].state == Zombie
      && s'.curr == s.curr && s'.pool == s.pool && s'.num == s.num && Contenders(s') == Contenders(s)
  {
    assert Ready(Step(s, Reap(p))) == Ready(s);
  }

  /** `schedule` changes no state and no priority, and no slice but that of the process
      it requeues, which is full again if it was used up. */
  lemma RescheduleKeeps(s: Sched)
    requires Inv(s)
    ensures Schedulable(s)
    ensures
      var s', full := ScheduleStep(s), if s.procs[s.curr].timeSlice == 0 then MaxTimeSlice
        else s.procs[s.curr].timeSlice;
      && s'.idle == s.idle && s'.procs.Keys == s.procs.Keys
      && (forall q :: q in s.procs ==>
            s'.procs[q].state == s.procs[q].state && s'.procs[q].priority == s.procs[q].priority)
      && (forall q :: q in s.procs && q != s.curr ==> s'.procs[q].timeSlice == s.procs[q].timeSlice)
      && (Enqueues(s) ==> s'.procs[s.curr].timeSlice == full)
      && (!Enqueues(s) ==> s'.procs[s.curr] == s.procs[s.curr])
  {
    PickIsMinimal(s);
  }

  /** `schedule` changes the stride of the process it picks only. */
  lemma RescheduleStrides(s: Sched)
    requires Inv(s)
    ensures Schedulable(s)
    ensures
      var s' := ScheduleStep(s);
      && s'.stride.Keys == s.stride.Keys
      && (forall q :: q in s.stride && (q != s'.curr || Contenders(s) == {}) ==> s'.stride[q] == s.stride[q])
  {
    PickIsMinimal(s);
    if Contenders(s) == {} { RootOrNone(s); }
  }

  /** The stride of the process picked grows by the quotient of BIG_STRIDE and its priority. */
  lemma PickedPass(s: Sched)
    requires Inv(s) && s.curr in s.procs && Contenders(s) != {}
    ensures
      Schedulable(s) &&
      var s' := ScheduleStep(s);
      && s'.curr in s.procs && s'.curr in s.stride && s'.curr in s'.stride
      && IsQuotient(s'.stride[s'.curr] - s.stride[s'.curr], s.procs[s'.curr].priority)
  {
    PickIsMinimal(s);
    var s' := ScheduleStep(s);
    NonEmptyPool(s);
    StepStride(s, Reschedule, s'.curr);
    PassMeans(s.procs[s'.curr]);
  }

  /** `pass` is BIG_STRIDE divided by `priority`, rounded down. */
  ghost predicate IsQuotient(pass: int, priority: int) {
    pass * priority <= BigStride < (pass + 1) * priority
  }

  lemma RootOrNone(s: Sched)
    requires Inv(s) && Contenders(s) == {}
    ensures Requeue(s).pool.Leaf?
  {
    if s.pool.Node? { HasReady(s, Ready(s), s.pool.item); }
  }

  lemma PassMeans(q: Proc)
    requires q.priority > 0
    ensures IsQuotient(Pass(q), q.priority)
  {
    Distribute(Pass(q), 1, q.priority);
  }
}
