/** What wakeup_proc (kernel/proc/schedule.c) and the wrapping comparison of
    kernel/proc/stride_scheduler.c do together when the stride of a woken process
    is anywhere: the exact condition under which the next pick is still minimal,
    and a run that misses it. */
module StaleStrides {
  import opened Words
  import opened SkewTree
  import opened Scheduling

  /** A difference of true strides that reads as negative in 32 bits. */
  predicate ReadsNegative(d: int) { d % W32 >= 0x8000_0000 }

  /** The comparison of two strides that are `d` apart goes the right way. */
  predicate Right(d: int) {
    && (d > 0 ==> !ReadsNegative(d))
    && (d < 0 ==> ReadsNegative(d))
  }

  lemma CompReads(a: int, b: int)
    ensures StrideComp(Wrap32(a), Wrap32(b)) == -1 <==> ReadsNegative(a - b)
  {
    ModDiff(a, b);
  }

  /** For strides less than 2^32 apart, right means in the range of an `i32`. */
  lemma RightRange(d: int)
    requires -W32 < d < W32
    ensures Right(d) <==> -0x8000_0000 <= d < 0x8000_0000
  {
    if d < 0 { assert d % W32 == d + W32; }
  }

  /** Who is at the root after a process is added. */
  lemma AddRoot(t: Tree<Pid>, x: Pid, key: u32)
    ensures Add(t, x, key).Node?
    ensures Add(t, x, key).item == if t.Node? && StrideComp(t.key, key) == -1 then t.item else x
    ensures Add(t, x, key).key == if t.Node? && StrideComp(t.key, key) == -1 then t.key else key
  {
  }

  /** `schedule` would run a process with the least true stride of all that compete. */
  ghost predicate PicksMinimal(s: Sched)
    requires Schedulable(s)
  {
    && ScheduleStep(s).curr in Contenders(s)
    && forall q :: q in Contenders(s) ==> q in s.stride && s.stride[ScheduleStep(s).curr] <= s.stride[q]
  }

  /** Waking `p` leaves the next pick minimal. The root of the queue meets `p`
      first, and the current process, if it goes on, meets the winner. */
  ghost predicate WakesWell(s: Sched, p: Pid)
    requires s.curr in s.procs && s.curr in s.stride && p in s.stride && (s.pool.Node? ==> s.pool.item in s.stride)
  {
    var x, c := s.stride[p], s.stride[s.curr];
    if s.pool.Leaf? then Enqueues(s) ==> Right(x - c)
    else
      var r := s.stride[s.pool.item];
      if !Enqueues(s) then Right(r - x)
      else if x <= r then Right(r - x) && Right(x - c)
      else Right(r - x) || (c <= r && Right(x - c))
  }

  /** A process that joins the queue through `wakeup_proc`. */
  ghost predicate Joins(s: Sched, p: Pid) {
    p in s.procs && p in s.stride && s.procs[p].state != Runnable && p != s.curr && p != s.idle
  }

  ghost function Winner(a: Pid, b: Pid, stride: map<Pid, int>): Pid
    requires a in stride && b in stride
  {
    if ReadsNegative(stride[a] - stride[b]) then a else b
  }

  /** The process at the root when `schedule` picks. */
  ghost function Picked(s: Sched, p: Pid): Pid
    requires s.curr in s.procs && s.curr in s.stride && p in s.stride && (s.pool.Node? ==> s.pool.item in s.stride)
  {
    var w := if s.pool.Leaf? then p else Winner(s.pool.item, p, s.stride);
    if Enqueues(s) then Winner(w, s.curr, s.stride) else w
  }

  lemma RootFacts(s: Sched)
    requires Inv(s)
    ensures s.curr in s.stride && s.curr in s.procs
    ensures s.pool.Leaf? ==> Ready(s) == {}
    ensures s.pool.Node? ==>
      && s.pool.item in Ready(s) && s.pool.item in s.stride && s.pool.key == Wrap32(s.stride[s.pool.item])
      && (forall q :: q in Ready(s) ==> q in s.stride && s.stride[s.pool.item] <= s.stride[q])
      && (s.curr != s.idle ==> -BigStride <= s.stride[s.pool.item] - s.stride[s.curr] <= BigStride)
  {
    var base :| WindowAt(s, base);
    if s.pool.Node? {
      HasReady(s, Ready(s), s.pool.item);
      forall q | q in Ready(s) ensures q in s.stride && s.stride[s.pool.item] <= s.stride[q] {
        HasReady(s, Ready(s), q);
        RootMinimal(s.pool, s.stride, base, base + BigStride, q);
      }
    } else {
      forall q ensures q !in Ready(s) { HasReady(s, Ready(s), q); }
    }
  }

  lemma WakeContends(s: Sched, p: Pid)
    requires Tables(s) && Joins(s, p)
    ensures s.curr in s.procs && Contenders(WakeStep(s, p)) == Contenders(s) + {p}
  {
    var s1 := s.(procs := s.procs[p := s.procs[p].(state := Runnable)]);
    ReadyAfterWake(s, s1, p);
  }

  /** The root of the queue after the wakeup. */
  lemma WakeRoot(s: Sched, p: Pid)
    requires Inv(s) && Joins(s, p)
    requires s.pool.Node? ==> s.pool.item in s.stride
    ensures
      var w, t := if s.pool.Leaf? then p else Winner(s.pool.item, p, s.stride), WakeStep(s, p).pool;
      t.Node? && t.item == w && t.key == Wrap32(s.stride[w]) && w in s.procs
  {
    RootFacts(s);
    AddRoot(s.pool, p, Wrap32(s.stride[p]));
    if s.pool.Node? { CompReads(s.stride[s.pool.item], s.stride[p]); }
  }

  lemma WakePicks(s: Sched, p: Pid)
    requires Inv(s) && Joins(s, p)
    ensures s.curr in s.procs && s.curr in s.stride && (s.pool.Node? ==> s.pool.item in s.stride)
    ensures Schedulable(WakeStep(s, p)) && ScheduleStep(WakeStep(s, p)).curr == Picked(s, p)
  {
    RootFacts(s);
    WakeRoot(s, p);
    var s', st := WakeStep(s, p), s.stride;
    assert s'.curr == s.curr && s'.stride == st && Enqueues(s') == Enqueues(s);
    if Enqueues(s) {
      AddRoot(s'.pool, s.curr, Wrap32(st[s.curr]));
      CompReads(st[s'.pool.item], st[s.curr]);
    }
    RequeuePicks(s');
  }

  /** `schedule` runs the root of the queue it finds. */
  lemma RequeuePicks(s: Sched)
    requires s.curr in s.procs && s.curr in s.stride && Requeue(s).pool.Node?
    requires Requeue(s).pool.item in s.procs && Requeue(s).pool.item in s.stride
    requires forall q :: q in s.procs ==> s.procs[q].priority > 0
    ensures Schedulable(s) && ScheduleStep(s).curr == Requeue(s).pool.item
  {
  }

  /** After waking `p`, wherever its stride is, the next pick is minimal if and only
      if `WakesWell` holds. */
  lemma WakePickExact(s: Sched, p: Pid)
    requires Inv(s) && Joins(s, p)
    ensures s.curr in s.procs && s.curr in s.stride && (s.pool.Node? ==> s.pool.item in s.stride)
    ensures Schedulable(WakeStep(s, p))
    ensures PicksMinimal(WakeStep(s, p)) <==> WakesWell(s, p)
  {
    WakePicks(s, p);
    WakeContends(s, p);
    PickedContends(s, p);
    LeastOfThree(s, p);
    DecidedByThree(s, p);
    assert WakeStep(s, p).stride == s.stride;
  }

  lemma PickedContends(s: Sched, p: Pid)
    requires Inv(s) && Joins(s, p)
    requires s.curr in s.procs && s.curr in s.stride && (s.pool.Node? ==> s.pool.item in s.stride)
    ensures Picked(s, p) in Contenders(s) + {p}
  {
    RootFacts(s);
  }

  /** Only the root, the current process and `p` matter. */
  ghost predicate LeastAmong(s: Sched, p: Pid, w: Pid)
    requires s.curr in s.procs && s.curr in s.stride && p in s.stride && w in s.stride &&
      (s.pool.Node? ==> s.pool.item in s.stride)
  {
    && s.stride[w] <= s.stride[p]
    && (s.pool.Node? ==> s.stride[w] <= s.stride[s.pool.item])
    && (Enqueues(s) ==> s.stride[w] <= s.stride[s.curr])
  }

  lemma LeastOfThree(s: Sched, p: Pid)
    requires Inv(s) && Joins(s, p)
    requires s.curr in s.procs && s.curr in s.stride && (s.pool.Node? ==> s.pool.item in s.stride)
    ensures (forall q :: q in Contenders(s) + {p} ==> q in s.stride && s.stride[Picked(s, p)] <= s.stride[q]) <==>
      LeastAmong(s, p, Picked(s, p))
  {
    RootFacts(s);
  }

  /** The three comparisons made give the least of the three exactly if `WakesWell`. */
  lemma DecidedByThree(s: Sched, p: Pid)
    requires Inv(s) && Joins(s, p)
    requires s.curr in s.procs && s.curr in s.stride && (s.pool.Node? ==> s.pool.item in s.stride)
    ensures LeastAmong(s, p, Picked(s, p)) <==> WakesWell(s, p)
  {
    RootFacts(s);
    var x, c := s.stride[p], s.stride[s.curr];
    if s.pool.Node? && Enqueues(s) {
      Three(s.stride[s.pool.item], x, c);
    }
  }

  lemma Three(r: int, x: int, c: int)
    requires -BigStride <= r - c <= BigStride
    ensures
      var w := if ReadsNegative(r - x) then r else x;
      var v := if ReadsNegative(w - c) then w else c;
      (v <= x && v <= r && v <= c) <==>
        if x <= r then Right(r - x) && Right(x - c) else Right(r - x) || (c <= r && Right(x - c))
  {
    if r < c { assert (r - c) % W32 == r - c + W32; } else { assert (r - c) % W32 == r - c; }
  }

  /** The same condition as ranges, for strides less than 2^32 apart. */
  lemma WakesWellRange(s: Sched, p: Pid)
    requires Inv(s) && Joins(s, p)
    requires s.curr in s.procs && s.curr in s.stride && (s.pool.Node? ==> s.pool.item in s.stride)
    requires s.pool.Node? ==> -W32 < s.stride[s.pool.item] - s.stride[p] < W32
    requires Enqueues(s) ==> -W32 < s.stride[s.curr] - s.stride[p] < W32
    ensures WakesWell(s, p) <==>
      && (s.pool.Node? ==> -0x8000_0000 <= s.stride[s.pool.item] - s.stride[p] < 0x8000_0000)
      && (Enqueues(s) ==> s.stride[s.curr] - s.stride[p] <= 0x8000_0000)
      && (s.pool.Leaf? && Enqueues(s) ==> -0x8000_0000 < s.stride[s.curr] - s.stride[p])
  {
    RootFacts(s);
    if s.pool.Node? { RightRange(s.stride[s.pool.item] - s.stride[p]); }
    if Enqueues(s) { RightRange(s.stride[p] - s.stride[s.curr]); }
  }

  /** The window assumption of the step system is enough. */
  lemma FittingWakesWell(s: Sched, p: Pid)
    requires Inv(s) && Joins(s, p) && FitsWindow(s, p)
    ensures s.curr in s.procs && s.curr in s.stride && (s.pool.Node? ==> s.pool.item in s.stride)
    ensures WakesWell(s, p)
  {
    RootFacts(s);
    if s.pool.Node? { assert Has(s.pool, s.pool.item); }
    WakesWellRange(s, p);
  }

  // ------------------------------------------------------------------- a real run

  /** One process runs alone three times; then a second one is created, at stride 0. */
  function AloneThrice(): seq<Event> {
    [Create(1), Wake(1), Reschedule, Reschedule, Reschedule, Create(2)]
  }

  /** Its state: process 1 is current at 3 * 2^30, process 2 is not yet runnable. */
  function Late(): Sched {
    Sched(map[0 := Proc(Runnable, 1, 0), 1 := Proc(Runnable, 1, 5), 2 := Proc(Uninit, 1, 0)],
          map[0 := 0, 1 := 0xC000_0000, 2 := 0],
          Leaf, 0, 1, 0)
  }

  /** From boot, without any priority set, waking a new process makes `schedule`
      prefer the one that has run before. */
  lemma StaleStrideMisleads()
    ensures Legal(Boot(), AloneThrice()) && Exec(Boot(), AloneThrice()) == Late()
    ensures Inv(Late()) && Joins(Late(), 2) && !WakesWell(Late(), 2)
    ensures Schedulable(WakeStep(Late(), 2)) && ScheduleStep(WakeStep(Late(), 2)).curr == 1
    ensures !PicksMinimal(WakeStep(Late(), 2))
  {
    var late := Late();
    RunsAlone(Boot(), AloneThrice());
    BootInv();
    RunKeepsInvariant(Boot(), AloneThrice());
    MissesLate(late);
  }

  lemma MissesLate(late: Sched)
    requires late == Late() && Inv(late)
    ensures Joins(late, 2) && !WakesWell(late, 2)
    ensures Schedulable(WakeStep(late, 2)) && ScheduleStep(WakeStep(late, 2)).curr == 1
    ensures !PicksMinimal(WakeStep(late, 2))
  {
    WakePickExact(late, 2);
    WakePicks(late, 2);
  }

  /** Process 1 alone, current, picked `n` times. */
  function Alone(n: nat): Sched {
    Sched(map[0 := Proc(Runnable, 1, 0), 1 := Proc(Runnable, 1, 5)], map[0 := 0, 1 := n * BigStride], Leaf, 0, 1, 0)
  }

  lemma AlonePicked(n: nat)
    ensures Enabled(Alone(n), Reschedule) && Step(Alone(n), Reschedule) == Alone(n + 1)
  {
    var s := Alone(n);
    var s1 := Requeue(s);
    assert s1.pool == Node(1, Wrap32(s.stride[1]), Leaf, Leaf);
    assert s1.procs == s.procs;
    var s2 := Step(s, Reschedule);
    assert Pass(s.procs[1]) == BigStride;
    assert s2.pool == Leaf;
    assert s2.stride == map[0 := 0, 1 := (n + 1) * BigStride];
  }

  lemma Follow(s: Sched, e: Event, rest: seq<Event>)
    requires Enabled(s, e) && Legal(Step(s, e), rest)
    ensures Legal(s, [e] + rest) && Exec(s, [e] + rest) == Exec(Step(s, e), rest)
  {
    assert ([e] + rest)[1..] == rest;
  }

  /** The run from the first pick on. */
  lemma RunsOn(s: Sched, es: seq<Event>)
    requires s == Alone(1) && es == [Reschedule, Reschedule, Create(2)]
    ensures Legal(s, es) && Exec(s, es) == Late()
  {
    AlonePicked(1);
    AlonePicked(2);
    var s2, s3 := Alone(2), Alone(3);
    assert Step(s3, Create(2)) == Late();
    var t := es[2..];
    assert t == [Create(2)] + [];
    Follow(s3, Create(2), []);
    Follow(s2, Reschedule, t);
    Follow(s, Reschedule, [Reschedule] + t);
    assert [Reschedule] + ([Reschedule] + t) == es;
  }

  /** Process 1 created and woken, before its first pick. */
  function Queued(): Sched {
    Sched(map[0 := Proc(Runnable, 1, 0), 1 := Proc(Runnable, 1, 5)], map[0 := 0, 1 := 0], Node(1, 0, Leaf, Leaf), 1,
      0, 0)
  }

  lemma StartsAlone(rest: seq<Event>)
    requires Legal(Queued(), rest)
    ensures Legal(Boot(), [Create(1)] + ([Wake(1)] + rest))
    ensures Exec(Boot(), [Create(1)] + ([Wake(1)] + rest)) == Exec(Queued(), rest)
  {
    var s := Step(Boot(), Create(1));
    assert Step(s, Wake(1)) == Queued();
    Follow(s, Wake(1), rest);
    Follow(Boot(), Create(1), [Wake(1)] + rest);
  }

  lemma FirstPick()
    ensures Enabled(Queued(), Reschedule) && Step(Queued(), Reschedule) == Alone(1)
  {
    var s := Step(Queued(), Reschedule);
    assert s.stride == map[0 := 0, 1 := 1 * BigStride];
    assert s.procs == Alone(1).procs;
  }

  lemma RunsAlone(boot: Sched, es: seq<Event>)
    requires boot == Boot() && es == AloneThrice()
    ensures Legal(boot, es) && Exec(boot, es) == Late()
  {
    var t := es[3..];
    assert t == [Reschedule, Reschedule, Create(2)];
    RunsOn(Alone(1), t);
    FirstPick();
    Follow(Queued(), Reschedule, t);
    StartsAlone([Reschedule] + t);
    assert es == [Create(1)] + ([Wake(1)] + ([Reschedule] + t));
  }
}
