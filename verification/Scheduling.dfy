/** The scheduler core of kernel/proc/schedule.c over the stride run queue of
    kernel/proc/stride_scheduler.c, as a step system.

    Strides are kept here as unbounded integers; the kernel stores, and its heap
    compares, only their low 32 bits (the keys of `pool`). */
module Scheduling {
  import opened Words
  import opened SkewTree

  type Pid = nat

  const MaxTimeSlice := 5

  datatype RunState = Uninit | Sleeping | Runnable | Zombie

  datatype Proc = Proc(state: RunState, priority: u32, timeSlice: int)

  /** `pool` and `num` are the run queue; `stride` holds the true strides. */
  datatype Sched = Sched(
    procs: map<Pid, Proc>,
    stride: map<Pid, int>,
    pool: Tree<Pid>,
    num: int,
    curr: Pid,
    idle: Pid)

  datatype Event =
    | Create(p: Pid)       // alloc_proc in do_fork
    | Wake(p: Pid)         // wakeup_proc
    | Reschedule           // schedule
    | Block(zombie: bool)  // the current process sleeps or exits, before it calls schedule
    | Tick                 // scheduler_proc_tick
    | SetPriority(v: u32)  // set_priority
    | Reap(p: Pid)         // the end of do_wait

  /** How much one pick adds to the stride. Zero for a priority above 2^30. */
  function Pass(q: Proc): int
    requires q.priority > 0
  {
    BigStride / q.priority
  }

  // ------------------------------------------------------------------- steps

  /** `stride_enqueue`. */
  function Enqueue(s: Sched, p: Pid): Sched
    requires p in s.procs && p in s.stride
  {
    var q := s.procs[p];
    var slice := if q.timeSlice == 0 || q.timeSlice > MaxTimeSlice then MaxTimeSlice else q.timeSlice;
    s.(pool := Add(s.pool, p, Wrap32(s.stride[p])),
       procs := s.procs[p := q.(timeSlice := slice)],
       num := s.num + 1)
  }

  /** `wakeup_proc`. */
  function WakeStep(s: Sched, p: Pid): Sched
    requires p in s.procs && p in s.stride
  {
    if s.procs[p].state == Runnable then s
    else
      var s1 := s.(procs := s.procs[p := s.procs[p].(state := Runnable)]);
      if p != s.curr && p != s.idle then Enqueue(s1, p) else s1
  }

  predicate Enqueues(s: Sched)
    requires s.curr in s.procs
  {
    s.procs[s.curr].state == Runnable && s.curr != s.idle
  }

  /** The first half of `schedule`: a current process that can go on is queued. */
  function Requeue(s: Sched): Sched
    requires s.curr in s.procs && s.curr in s.stride
  {
    if Enqueues(s) then Enqueue(s, s.curr) else s
  }

  /** `stride_pick_next`: the stride of the root grows while the root is still in the heap. */
  function PickNext(s: Sched): Sched
    requires s.pool.Node? && s.pool.item in s.procs && s.pool.item in s.stride
    requires s.procs[s.pool.item].priority > 0
  {
    var p := s.pool.item;
    var pass := Pass(s.procs[p]);
    s.(stride := s.stride[p := s.stride[p] + pass],
       pool := s.pool.(key := Wrap32(s.pool.key + pass)))
  }

  /** `stride_dequeue`. */
  function Dequeue(s: Sched, p: Pid): Sched
    requires Has(s.pool, p)
  {
    s.(pool := Remove(s.pool, p), num := s.num - 1)
  }

  ghost predicate Schedulable(s: Sched) {
    && s.curr in s.procs && s.curr in s.stride
    && var s1 := Requeue(s);
      s1.pool.Node? ==>
        s1.pool.item in s1.procs && s1.pool.item in s1.stride && s1.procs[s1.pool.item].priority > 0
  }

  /** `schedule`. */
  ghost function ScheduleStep(s: Sched): Sched
    requires Schedulable(s)
  {
    var s1 := Requeue(s);
    if s1.pool.Leaf? then s1.(curr := s.idle)
    else
      var p := s1.pool.item;
      Dequeue(PickNext(s1), p).(curr := p)
  }

  /** `scheduler_proc_tick`. */
  function TickStep(s: Sched): Sched
    requires s.curr in s.procs
  {
    var q := s.procs[s.curr];
    if s.curr != s.idle && q.timeSlice > 0 then
      s.(procs := s.procs[s.curr := q.(timeSlice := q.timeSlice - 1)])
    else s
  }

  /** What the rest of the kernel guarantees when it takes a step. `Wake` of a
      process that joins the queue carries the window assumption. */
  ghost predicate Enabled(s: Sched, e: Event) {
    && s.curr in s.procs && s.curr in s.stride
    && match e
      case Create(p) => p !in s.procs
      case Wake(p) =>
        && p in s.procs && p in s.stride && s.procs[p].state != Zombie
        && (s.procs[p].state != Runnable && p != s.curr && p != s.idle ==> FitsWindow(s, p))
      case Reschedule => Schedulable(s)
      case Block(_) => Enqueues(s)
      case Tick => true
      case SetPriority(_) => true
      case Reap(p) => p in s.procs && s.procs[p].state == Zombie && p != s.curr
  }

  ghost function Step(s: Sched, e: Event): Sched
    requires Enabled(s, e)
  {
    match e
    case Create(p) => s.(procs := s.procs[p := Proc(Uninit, 1, 0)], stride := s.stride[p := 0])
    case Wake(p) => WakeStep(s, p)
    case Reschedule => ScheduleStep(s)
    case Block(z) =>
      s.(procs := s.procs[s.curr := s.procs[s.curr].(state := if z then Zombie else Sleeping)])
    case Tick => TickStep(s)
    case SetPriority(v) =>
      s.(procs := s.procs[s.curr := s.procs[s.curr].(priority := if v == 0 then 1 else v)])
    case Reap(p) => s.(procs := s.procs - {p})
  }

  // -------------------------------------------------------------- invariants

  /** The processes that must be queued. */
  ghost function Ready(s: Sched): set<Pid> {
    set p | p in s.procs && s.procs[p].state == Runnable && p != s.curr && p != s.idle
  }

  /** The stride of `p` is within BigStride of every process in the window. */
  ghost predicate FitsWindow(s: Sched, p: Pid) {
    forall x :: p in s.stride && x in s.stride && (Has(s.pool, x) || (x == s.curr && x != s.idle)) ==>
      -BigStride <= s.stride[x] - s.stride[p] <= BigStride
  }

  ghost predicate Tables(s: Sched) {
    && s.procs.Keys <= s.stride.Keys
    && s.curr in s.procs && s.idle in s.procs && s.procs[s.idle].state == Runnable
    && (forall p :: p in s.procs ==> s.procs[p].priority > 0 && 0 <= s.procs[p].timeSlice <= MaxTimeSlice)
  }

  /** Run-queue agreement: the heap holds `ready`, each process once. */
  ghost predicate QueueIs(s: Sched, ready: set<Pid>) {
    && Items(s.pool) == multiset(ready)
    && s.num == |ready|
    && (forall p :: p in ready && p in s.procs ==> 1 <= s.procs[p].timeSlice)
  }

  /** The stride window, at `base`: heap and current process lie in
      `[base, base + BigStride]`, and the heap is ordered by true stride. */
  ghost predicate WindowAt(s: Sched, base: int) {
    && Keyed(s.pool, s.stride, base, base + BigStride)
    && Ordered(s.pool, s.stride, base + BigStride)
    && (s.curr != s.idle && s.curr in s.stride ==> base <= s.stride[s.curr] <= base + BigStride)
  }

  ghost predicate Inv(s: Sched) {
    var inv :=
      && Tables(s)
      && QueueIs(s, Ready(s))
      && exists base :: WindowAt(s, base);
    inv
  }

  /** After `init_proc` and `init_scheduler`, only idle exists. */
  function Boot(): Sched {
    Sched(map[0 := Proc(Runnable, 1, 0)], map[0 := 0], Leaf, 0, 0, 0)
  }

  lemma BootInv()
    ensures Inv(Boot())
  {
    assert WindowAt(Boot(), 0);
    assert Ready(Boot()) == {};
  }

  // -------------------------------------------- what enqueue and schedule keep

  lemma HasReady(s: Sched, ready: set<Pid>, p: Pid)
    requires QueueIs(s, ready)
    ensures Has(s.pool, p) <==> p in ready
  {
    HasItem(s.pool, p);
  }

  lemma EnqueueQueue(s: Sched, p: Pid, ready: set<Pid>)
    requires Tables(s) && QueueIs(s, ready) && p in s.procs && p !in ready
    ensures Tables(Enqueue(s, p)) && QueueIs(Enqueue(s, p), ready + {p})
  {
    var one := Node(p, Wrap32(s.stride[p]), Leaf, Leaf);
    MergeItems(s.pool, one);
    assert Items(one) == multiset{p};
    assert multiset(ready + {p}) == multiset(ready) + multiset{p};
  }

  lemma EnqueueWindow(s: Sched, p: Pid, base: int)
    requires WindowAt(s, base) && p in s.procs && p in s.stride
    requires base <= s.stride[p] <= base + BigStride
    ensures WindowAt(Enqueue(s, p), base)
  {
    var one := Node(p, Wrap32(s.stride[p]), Leaf, Leaf);
    MergeKeyed(s.pool, one, s.stride, base, base + BigStride);
    MergeOrdered(s.pool, one, s.stride, base, base + BigStride);
  }

  /** A process that fits the window can be enqueued: some window holds them all. */
  lemma JoinWindow(s: Sched, p: Pid, base: int) returns (base': int)
    requires Tables(s) && WindowAt(s, base) && FitsWindow(s, p)
    requires p in s.procs && p != s.curr
    ensures WindowAt(s, base') && base' <= s.stride[p] <= base' + BigStride
  {
    var v := s.stride[p];
    base' := if v < base then v else if v > base + BigStride then v - BigStride else base;
    forall x | Has(s.pool, x) && x in s.stride
      ensures base' <= s.stride[x] <= base' + BigStride
    {
      HasItem(s.pool, x);
      KeyedItem(s.pool, s.stride, base, base + BigStride, x);
    }
    Rebound(s.pool, s.stride, base, base + BigStride, base', base' + BigStride);
  }

  /** The processes competing for the processor when `schedule` picks. */
  ghost function Contenders(s: Sched): set<Pid>
    requires s.curr in s.procs
  {
    Ready(s) + (if Enqueues(s) then {s.curr} else {})
  }

  lemma RequeueKeeps(s: Sched, base: int)
    requires Tables(s) && QueueIs(s, Ready(s)) && WindowAt(s, base)
    ensures Tables(Requeue(s)) && QueueIs(Requeue(s), Contenders(s)) && WindowAt(Requeue(s), base)
  {
    if Enqueues(s) {
      EnqueueQueue(s, s.curr, Ready(s));
      EnqueueWindow(s, s.curr, base);
    }
  }

  /** `schedule` picks a process with the least true stride among all that
      compete, even after the stored strides have wrapped around; with none
      competing it runs idle. */
  lemma PickIsMinimal(s: Sched)
    requires Inv(s)
    ensures Schedulable(s)
    ensures Contenders(s) == {} ==> ScheduleStep(s).curr == s.idle
    ensures Contenders(s) != {} ==> ScheduleStep(s).curr in Contenders(s)
    ensures forall p :: p in Contenders(s) ==> s.stride[ScheduleStep(s).curr] <= s.stride[p]
  {
    var base :| WindowAt(s, base);
    RequeueKeeps(s, base);
    var s1 := Requeue(s);
    if s1.pool.Node? {
      HasReady(s1, Contenders(s), s1.pool.item);
    } else {
      assert multiset(Contenders(s)) == multiset{};
      assert Contenders(s) == {};
    }
    forall p | p in Contenders(s)
      ensures s1.pool.Node? && s1.stride[s1.pool.item] <= s1.stride[p]
    {
      HasReady(s1, Contenders(s), p);
      RootMinimal(s1.pool, s1.stride, base, base + BigStride, p);
    }
  }

  lemma WrapAdd(a: int, d: int)
    ensures Wrap32(Wrap32(a) + d) == Wrap32(a + d)
  {
    ModShift(a % W32 + d, a / W32);
    assert a + d == a % W32 + d + a / W32 * W32;
  }

  /** `Remove` of the root does not look at the root's key: raising it before
      the removal does no harm. */
  lemma PickThenDequeue(s: Sched)
    requires s.pool.Node? && s.pool.item in s.procs && s.pool.item in s.stride
    requires s.procs[s.pool.item].priority > 0
    ensures Dequeue(PickNext(s), s.pool.item).pool == Merge(s.pool.left, s.pool.right)
    ensures s.pool.key == Wrap32(s.stride[s.pool.item]) ==>
      PickNext(s).pool.key == Wrap32(PickNext(s).stride[s.pool.item])
  {
    WrapAdd(s.stride[s.pool.item], Pass(s.procs[s.pool.item]));
  }

  lemma ReadyAfterPick(s: Sched, s2: Sched)
    requires Tables(s) && s2.procs == Requeue(s).procs && s2.idle == s.idle
    ensures Ready(s2) == Contenders(s) - {s2.curr}
  {
  }

  lemma ScheduleKeeps(s: Sched)
    requires Inv(s)
    ensures Schedulable(s) && Inv(ScheduleStep(s))
    ensures Contenders(s) != {} ==> WindowAt(ScheduleStep(s), s.stride[ScheduleStep(s).curr])
  {
    PickIsMinimal(s);
    var base :| WindowAt(s, base);
    RequeueKeeps(s, base);
    var s1, c := Requeue(s), Contenders(s);
    var s2 := ScheduleStep(s);
    ReadyAfterPick(s, s2);
    if s1.pool.Leaf? {
      assert c == {} by { assert multiset(c) == multiset{}; }
      assert WindowAt(s2, base);
    } else {
      PickKeeps(s1, base, c, s2);
    }
  }

  lemma PickKeeps(s1: Sched, base: int, c: set<Pid>, s2: Sched)
    requires Tables(s1) && QueueIs(s1, c) && WindowAt(s1, base) && s1.pool.Node?
    requires s1.pool.item in s1.procs
    requires s2 == Dequeue(PickNext(s1), s1.pool.item).(curr := s1.pool.item)
    requires Ready(s2) == c - {s2.curr}
    ensures Inv(s2) && WindowAt(s2, s1.stride[s1.pool.item])
  {
    ScheduleQueue(s1, c, s2);
    ScheduleWindow(s1, base, c, s2);
  }

  lemma ScheduleQueue(s1: Sched, c: set<Pid>, s2: Sched)
    requires Tables(s1) && QueueIs(s1, c) && s1.pool.Node?
    requires s1.pool.item in s1.procs
    requires s2 == Dequeue(PickNext(s1), s1.pool.item).(curr := s1.pool.item)
    ensures QueueIs(s2, c - {s1.pool.item})
  {
    MergeItems(s1.pool.left, s1.pool.right);
    TakeFrom(c, s1.pool.item, Items(s1.pool.left), Items(s1.pool.right));
  }

  lemma TakeFrom(c: set<Pid>, p: Pid, l: multiset<Pid>, r: multiset<Pid>)
    requires multiset{p} + l + r == multiset(c)
    ensures p in c && l + r == multiset(c - {p})
  {
    assert (multiset{p} + l + r)[p] == 1 + (l + r)[p];
    assert multiset(c) == multiset(c - {p}) + multiset{p};
    assert l + r == (multiset{p} + l + r) - multiset{p};
  }

  lemma ScheduleWindow(s1: Sched, base: int, c: set<Pid>, s2: Sched)
    requires Tables(s1) && WindowAt(s1, base) && QueueIs(s1, c)
    requires s1.pool.Node? && s1.pool.item in s1.procs
    requires s2 == Dequeue(PickNext(s1), s1.pool.item).(curr := s1.pool.item)
    ensures WindowAt(s2, s1.stride[s1.pool.item])
  {
    var p, l, r, st := s1.pool.item, s1.pool.left, s1.pool.right, s1.stride;
    var low, high := st[p], base + BigStride;
    MergeKeyed(l, r, st, low, high);
    MergeOrdered(l, r, st, low, high);
    var t := Merge(l, r);
    MergeItems(l, r);
    assert !Has(t, p) by {
      HasItem(t, p);
      assert Items(s1.pool)[p] <= 1;
    }
    forall x | Has(t, x) && x in st ensures low <= st[x] <= low + BigStride {
      HasItem(t, x);
      KeyedItem(t, st, low, high, x);
    }
    Rebound(t, st, low, high, low, low + BigStride);
    KeyedFrame(t, st, low, low + BigStride, p, s2.stride[p]);
    OrderedFrame(t, st, low + BigStride, p, s2.stride[p]);
    PassBound(s1.procs[p]);
  }

  lemma PassBound(q: Proc)
    requires q.priority > 0
    ensures 0 <= Pass(q) <= BigStride
    ensures Pass(q) == 0 <==> q.priority > BigStride
  {
    var d, n := q.priority, Pass(q);
    assert BigStride == n * d + BigStride % d;
    if n >= 1 {
      MulGrows(n, d);
    }
  }

  lemma MulGrows(n: int, d: int)
    requires n >= 1 && d >= 1
    ensures n <= n * d && d <= n * d
  {
  }

  // ---------------------------------------------------------- every step, every run

  lemma WakeKeeps(s: Sched, p: Pid)
    requires Inv(s) && Enabled(s, Wake(p))
    ensures Inv(WakeStep(s, p))
  {
    var base :| WindowAt(s, base);
    if s.procs[p].state != Runnable {
      var s1 := s.(procs := s.procs[p := s.procs[p].(state := Runnable)]);
      if p != s.curr {
        WakeJoins(s, s1, p, base);
      } else {
        assert WindowAt(s1, base);
        assert Ready(s1) == Ready(s);
      }
    }
  }

  lemma WakeJoins(s: Sched, s1: Sched, p: Pid, base: int)
    requires Tables(s) && QueueIs(s, Ready(s)) && WindowAt(s, base) && FitsWindow(s, p)
    requires p in s.procs && s.procs[p].state != Runnable && p != s.curr && p != s.idle
    requires s1 == s.(procs := s.procs[p := s.procs[p].(state := Runnable)])
    ensures Inv(Enqueue(s1, p))
  {
    var base' := JoinWindow(s, p, base);
    var ready := Ready(s);
    assert Tables(s1) && QueueIs(s1, ready) && WindowAt(s1, base');
    JoinKeeps(s1, p, ready, base');
    ReadyAfterWake(s, s1, p);
  }

  lemma ReadyAfterWake(s: Sched, s1: Sched, p: Pid)
    requires p in s.procs && p in s.stride && p != s.curr && p != s.idle
    requires s1 == s.(procs := s.procs[p := s.procs[p].(state := Runnable)])
    ensures Ready(Enqueue(s1, p)) == Ready(s) + {p}
  {
  }

  lemma JoinKeeps(s: Sched, p: Pid, ready: set<Pid>, base: int)
    requires Tables(s) && QueueIs(s, ready) && WindowAt(s, base)
    requires p in s.procs && p !in ready && base <= s.stride[p] <= base + BigStride
    ensures Tables(Enqueue(s, p)) && QueueIs(Enqueue(s, p), ready + {p}) && WindowAt(Enqueue(s, p), base)
  {
    EnqueueQueue(s, p, ready);
    EnqueueWindow(s, p, base);
  }

  lemma SmallStepKeeps(s: Sched, e: Event)
    requires Inv(s) && Enabled(s, e) && !e.Create? && !e.Wake? && !e.Reschedule?
    ensures Inv(Step(s, e))
  {
    var base :| WindowAt(s, base);
    var s' := Step(s, e);
    assert Ready(s') == Ready(s);
    assert WindowAt(s', base);
  }

  lemma CreateKeeps(s: Sched, p: Pid)
    requires Inv(s) && Enabled(s, Create(p))
    ensures Inv(Step(s, Create(p)))
  {
    var base :| WindowAt(s, base);
    var s' := Step(s, Create(p));
    HasReady(s, Ready(s), p);
    KeyedFrame(s.pool, s.stride, base, base + BigStride, p, 0);
    OrderedFrame(s.pool, s.stride, base + BigStride, p, 0);
    assert WindowAt(s', base);
    assert Ready(s') == Ready(s);
  }

  lemma StepKeeps(s: Sched, e: Event)
    requires Inv(s) && Enabled(s, e)
    ensures Inv(Step(s, e))
  {
    match e
    case Create(p) => CreateKeeps(s, p);
    case Wake(p) => WakeKeeps(s, p);
    case Reschedule => ScheduleKeeps(s);
    case _ => SmallStepKeeps(s, e);
  }

  ghost predicate Legal(s: Sched, es: seq<Event>)
    decreases |es|
  {
    es == [] || (Enabled(s, es[0]) && Legal(Step(s, es[0]), es[1..]))
  }

  ghost function Exec(s: Sched, es: seq<Event>): Sched
    requires Legal(s, es)
    decreases |es|
  {
    if es == [] then s else Exec(Step(s, es[0]), es[1..])
  }

  /** Run-queue agreement and the stride window hold in every reachable state. */
  lemma {:induction false} RunKeepsInvariant(s: Sched, es: seq<Event>)
    requires Inv(s) && Legal(s, es)
    ensures Inv(Exec(s, es))
    decreases |es|
  {
    if es != [] {
      StepKeeps(s, es[0]);
      RunKeepsInvariant(Step(s, es[0]), es[1..]);
    }
  }

  /** In every reachable state any two processes of the window differ by at most BigStride. */
  lemma WindowSpread(s: Sched, p: Pid, q: Pid)
    requires Inv(s)
    requires p in Ready(s) || (p == s.curr && p != s.idle)
    requires q in Ready(s) || (q == s.curr && q != s.idle)
    ensures -BigStride <= s.stride[p] - s.stride[q] <= BigStride
  {
    var base :| WindowAt(s, base);
    if p in Ready(s) { KeyedItem(s.pool, s.stride, base, base + BigStride, p) by { HasReady(s, Ready(s), p); } }
    if q in Ready(s) { KeyedItem(s.pool, s.stride, base, base + BigStride, q) by { HasReady(s, Ready(s), q); } }
  }

  // ------------------------------------------------------- proportional share

  /** This step runs `i`, taken from the queue. */
  ghost predicate PicksNow(s: Sched, e: Event, i: Pid)
    requires Enabled(s, e)
  {
    e.Reschedule? && Requeue(s).pool.Node? && ScheduleStep(s).curr == i
  }

  ghost function Picks(s: Sched, es: seq<Event>, i: Pid): nat
    requires Legal(s, es)
    decreases |es|
  {
    if es == [] then 0
    else (if PicksNow(s, es[0], i) then 1 else 0) + Picks(Step(s, es[0]), es[1..], i)
  }

  /** `i` exists during the whole run and its priority is not changed. */
  ghost predicate Fixed(s: Sched, es: seq<Event>, i: Pid)
    requires Legal(s, es)
    decreases |es|
  {
    && i in s.procs
    && (es != [] ==>
        && !(es[0].SetPriority? && s.curr == i)
        && Fixed(Step(s, es[0]), es[1..], i))
  }

  lemma StepStride(s: Sched, e: Event, i: Pid)
    requires Inv(s) && Enabled(s, e) && i in s.procs && i in Step(s, e).procs
    requires !(e.SetPriority? && s.curr == i)
    ensures Step(s, e).procs[i].priority == s.procs[i].priority
    ensures Step(s, e).stride[i] == s.stride[i] + (if PicksNow(s, e, i) then Pass(s.procs[i]) else 0)
  {
  }

  lemma {:induction false} RunStride(s: Sched, es: seq<Event>, i: Pid)
    requires Inv(s) && Legal(s, es) && Fixed(s, es, i)
    ensures i in Exec(s, es).procs && i in Exec(s, es).stride && Exec(s, es).procs[i].priority == s.procs[i].priority
    ensures Exec(s, es).stride[i] == s.stride[i] + Picks(s, es, i) * Pass(s.procs[i])
    decreases |es|
  {
    if es != [] {
      StepKeeps(s, es[0]);
      StepStride(s, es[0], i);
      RunStride(Step(s, es[0]), es[1..], i);
      Distribute(if PicksNow(s, es[0], i) then 1 else 0, Picks(Step(s, es[0]), es[1..], i), Pass(s.procs[i]));
    }
  }

  lemma Distribute(a: int, b: int, c: int)
    ensures (a + b) * c == a * c + b * c
  {
  }

  /** Two processes with fixed priorities that start at the same stride get the
      processor in proportion to their priorities, to within one BigStride. */
  lemma ProportionalShare(s: Sched, es: seq<Event>, i: Pid, j: Pid)
    requires Inv(s) && Legal(s, es)
    requires Fixed(s, es, i) && Fixed(s, es, j) && s.stride[i] == s.stride[j]
    requires var e := Exec(s, es); i in Ready(e) || (i == e.curr && i != e.idle)
    requires var e := Exec(s, es); j in Ready(e) || (j == e.curr && j != e.idle)
    ensures -BigStride
         <= Picks(s, es, i) * Pass(s.procs[i]) - Picks(s, es, j) * Pass(s.procs[j])
         <= BigStride
  {
    RunKeepsInvariant(s, es);
    RunStride(s, es, i);
    RunStride(s, es, j);
    WindowSpread(Exec(s, es), i, j);
  }

  // ----------------------------------------------------------- bounded bypass

  /** `i` waits in the queue at every state of the run, and is never picked. */
  ghost predicate Bypassed(s: Sched, es: seq<Event>, i: Pid)
    requires Legal(s, es)
    decreases |es|
  {
    && i in Ready(s)
    && (es != [] ==> !PicksNow(s, es[0], i) && Bypassed(Step(s, es[0]), es[1..], i))
  }

  lemma {:induction false} BypassedFixed(s: Sched, es: seq<Event>, i: Pid)
    requires Inv(s) && Legal(s, es) && Bypassed(s, es, i)
    ensures Fixed(s, es, i) && Picks(s, es, i) == 0
    decreases |es|
  {
    if es != [] {
      StepKeeps(s, es[0]);
      BypassedFixed(Step(s, es[0]), es[1..], i);
    }
  }

  /** While `i` waits, another process is picked only at a stride not above that of `i`. */
  lemma PickBelow(s: Sched, e: Event, i: Pid, j: Pid)
    requires Inv(s) && Enabled(s, e) && i in Ready(s) && PicksNow(s, e, j)
    ensures j in s.procs && s.stride[j] <= s.stride[i]
    ensures Step(s, e).stride[j] <= s.stride[i] + Pass(s.procs[j])
  {
    PickIsMinimal(s);
    StepKeeps(s, e);
    assert i in Contenders(s) && j in Contenders(s);
    StepStride(s, e, j);
  }

  lemma {:induction false} BypassStride(s: Sched, es: seq<Event>, i: Pid, j: Pid)
    requires Inv(s) && Legal(s, es) && Bypassed(s, es, i) && Fixed(s, es, j)
    ensures Picks(s, es, j) > 0 ==> j in Exec(s, es).stride && Exec(s, es).stride[j] <= s.stride[i] + Pass(s.procs[j])
    decreases |es|
  {
    if es != [] {
      var e, s' := es[0], Step(s, es[0]);
      StepKeeps(s, e);
      StepStride(s, e, i);
      StepStride(s, e, j);
      if Picks(s', es[1..], j) > 0 {
        BypassStride(s', es[1..], i, j);
      } else if PicksNow(s, e, j) {
        PickBelow(s, e, i, j);
        RunStride(s', es[1..], j);
      }
    }
  }

  lemma BypassGain(s: Sched, es: seq<Event>, i: Pid, j: Pid)
    requires Inv(s) && Legal(s, es) && Bypassed(s, es, i) && Fixed(s, es, j)
    requires j in Ready(s) || (j == s.curr && j != s.idle)
    ensures Picks(s, es, j) > 0 ==> Picks(s, es, j) * Pass(s.procs[j]) <= BigStride + Pass(s.procs[j])
  {
    BypassStride(s, es, i, j);
    RunStride(s, es, j);
    WindowSpread(s, i, j);
  }

  /** While `i` waits, a process `j` of the window overtakes it at most
      BigStride / pass + 1 times. */
  lemma BoundedBypass(s: Sched, es: seq<Event>, i: Pid, j: Pid)
    requires Inv(s) && Legal(s, es) && Bypassed(s, es, i) && Fixed(s, es, j)
    requires j in Ready(s) || (j == s.curr && j != s.idle)
    requires Pass(s.procs[j]) > 0
    ensures Picks(s, es, j) <= BigStride / Pass(s.procs[j]) + 1
  {
    BypassGain(s, es, i, j);
    var n, d := Picks(s, es, j), Pass(s.procs[j]);
    if n > 0 {
      OvertakeBound(n, d, n * d);
    } else {
      NonNegativeDiv(BigStride, d);
    }
  }

  lemma OvertakeBound(n: int, d: int, gained: int)
    requires d > 0 && gained == n * d && gained <= BigStride + d
    ensures n <= BigStride / d + 1
  {
    Distribute(n - 1, 1, d);
    DivLower(n - 1, d);
  }

  lemma DivLower(n: int, d: int)
    requires d > 0 && n * d <= BigStride
    ensures n <= BigStride / d
  {
    var q := BigStride / d;
    assert BigStride < q * d + d;
    if n > q {
      Distribute(n - q - 1, q + 1, d);
      Distribute(q, 1, d);
      NonNegative(n - q - 1, d);
    }
  }

  lemma NonNegative(a: int, b: int)
    requires a >= 0 && b >= 0
    ensures a * b >= 0
  {
  }

  // ------------------------------------------------------ a waiting process runs

  /** How often `j` can still be picked before `i`. */
  ghost function Slack(s: Sched, i: Pid, j: Pid): nat
    requires i in s.stride && j in s.stride && j in s.procs
    requires 0 < s.procs[j].priority <= BigStride
  {
    PassBound(s.procs[j]);
    if s.stride[j] > s.stride[i] then 0
    else
      NonNegativeDiv(s.stride[i] - s.stride[j], Pass(s.procs[j]));
      (s.stride[i] - s.stride[j]) / Pass(s.procs[j]) + 1
  }

  lemma NonNegativeDiv(x: int, d: int)
    requires 0 <= x && 0 < d
    ensures 0 <= x / d
  {
  }

  ghost predicate Known(s: Sched, cs: seq<Pid>) {
    forall k :: 0 <= k < |cs| ==> cs[k] in s.procs && cs[k] in s.stride && 0 < s.procs[cs[k]].priority <= BigStride
  }

  ghost function TotalSlack(s: Sched, i: Pid, cs: seq<Pid>): nat
    requires i in s.stride && Known(s, cs)
  {
    if cs == [] then 0 else Slack(s, i, cs[0]) + TotalSlack(s, i, cs[1..])
  }

  /** Only `i` and the processes `cs` compete during the run, their priorities
      stay as they are and none has a pass of zero. */
  ghost predicate Company(s: Sched, es: seq<Event>, i: Pid, cs: seq<Pid>)
    requires Legal(s, es)
    decreases |es|
  {
    && Known(s, cs)
    && s.curr in s.procs
    && (forall p :: p in Contenders(s) ==> p == i || p in cs)
    && (es != [] ==> !es[0].SetPriority? && Company(Step(s, es[0]), es[1..], i, cs))
  }

  ghost function Reschedules(es: seq<Event>): nat {
    if es == [] then 0 else (if es[0].Reschedule? then 1 else 0) + Reschedules(es[1..])
  }

  lemma SlackDrops(s: Sched, s': Sched, i: Pid, j: Pid)
    requires i in s.stride && i in s'.stride && s'.stride[i] == s.stride[i]
    requires j in s.stride && j in s'.stride && j in s.procs && j in s'.procs
    requires 0 < s.procs[j].priority <= BigStride && s'.procs[j].priority == s.procs[j].priority
    requires s.stride[j] <= s.stride[i] && s'.stride[j] == s.stride[j] + Pass(s.procs[j])
    ensures Slack(s', i, j) == Slack(s, i, j) - 1
  {
    PassBound(s.procs[j]);
    var x, d := s.stride[i] - s.stride[j], Pass(s.procs[j]);
    if x < d {
      assert x / d == 0;
    } else {
      DivStep(x, d);
    }
  }

  lemma DivStep(x: int, d: int)
    requires 0 < d
    ensures (x - d) / d == x / d - 1
  {
    var q, q' := x / d, (x - d) / d;
    assert q * d <= x < q * d + d && q' * d <= x - d < q' * d + d;
    Distribute(q', 1, d);
    Distribute(q, 1, d);
    if q' + 1 < q { Distribute(q - (q' + 1), q' + 1, d); MulGrows(q - (q' + 1), d); }
    if q < q' + 1 { Distribute(q' + 1 - q, q, d); MulGrows(q' + 1 - q, d); }
  }

  lemma {:induction false} TotalFollows(s: Sched, s': Sched, i: Pid, cs: seq<Pid>, j: Pid, n: nat)
    requires i in s.stride && i in s'.stride && s'.stride[i] == s.stride[i]
    requires Known(s, cs) && Known(s', cs)
    requires forall k, l :: 0 <= k < l < |cs| ==> cs[k] != cs[l]
    requires forall k :: 0 <= k < |cs| ==> s'.procs[cs[k]].priority == s.procs[cs[k]].priority
    requires forall k :: 0 <= k < |cs| && cs[k] != j ==> s'.stride[cs[k]] == s.stride[cs[k]]
    requires j in cs ==> Slack(s', i, j) == Slack(s, i, j) - n
    ensures TotalSlack(s', i, cs) == TotalSlack(s, i, cs) - (if j in cs then n else 0)
  {
    if cs != [] {
      TotalFollows(s, s', i, cs[1..], j, n);
      if cs[0] != j {
        assert Slack(s', i, cs[0]) == Slack(s, i, cs[0]);
      }
    }
  }

  lemma CompanyStep(s: Sched, e: Event, i: Pid, cs: seq<Pid>)
    requires Inv(s) && Enabled(s, e) && !e.SetPriority? && i in Ready(s) && i in Step(s, e).procs
    requires Known(s, cs) && Known(Step(s, e), cs)
    requires forall k, l :: 0 <= k < l < |cs| ==> cs[k] != cs[l]
    requires forall p :: p in Contenders(s) ==> p == i || p in cs
    requires !PicksNow(s, e, i)
    ensures TotalSlack(Step(s, e), i, cs) == TotalSlack(s, i, cs) - (if e.Reschedule? then 1 else 0)
  {
    var s' := Step(s, e);
    StepKeeps(s, e);
    StepStride(s, e, i);
    forall k | 0 <= k < |cs|
      ensures s'.procs[cs[k]].priority == s.procs[cs[k]].priority
      ensures !PicksNow(s, e, cs[k]) ==> s'.stride[cs[k]] == s.stride[cs[k]]
    {
      StepStride(s, e, cs[k]);
    }
    if e.Reschedule? {
      PickIsMinimal(s);
      var j := s'.curr;
      assert i in Contenders(s);
      NonEmptyPool(s);
      StepStride(s, e, j);
      SlackDrops(s, s', i, j);
      TotalFollows(s, s', i, cs, j, 1);
    } else {
      TotalFollows(s, s', i, cs, i, 0);
    }
  }

  lemma NonEmptyPool(s: Sched)
    requires Inv(s) && Contenders(s) != {}
    ensures Requeue(s).pool.Node?
  {
    var base :| WindowAt(s, base);
    RequeueKeeps(s, base);
    var p :| p in Contenders(s);
    HasReady(Requeue(s), Contenders(s), p);
  }

  /** A queued process cannot be passed over for ever: while it waits, the
      number of calls of `schedule` is bounded by the slack of its company. */
  lemma {:induction false} EventuallyPicked(s: Sched, es: seq<Event>, i: Pid, cs: seq<Pid>)
    requires Inv(s) && Legal(s, es) && Bypassed(s, es, i) && Company(s, es, i, cs)
    requires forall k, l :: 0 <= k < l < |cs| ==> cs[k] != cs[l]
    ensures Reschedules(es) <= TotalSlack(s, i, cs)
    decreases |es|
  {
    if es != [] {
      StepKeeps(s, es[0]);
      CompanyStep(s, es[0], i, cs);
      EventuallyPicked(Step(s, es[0]), es[1..], i, cs);
    }
  }

  /** The slack of one process of the window is at most BigStride / pass + 1. */
  lemma SlackBound(s: Sched, i: Pid, j: Pid)
    requires Inv(s) && i in Ready(s) && (j in Ready(s) || (j == s.curr && j != s.idle))
    requires s.procs[j].priority <= BigStride
    ensures Slack(s, i, j) <= BigStride / Pass(s.procs[j]) + 1
  {
    WindowSpread(s, i, j);
    PassBound(s.procs[j]);
    var d := Pass(s.procs[j]);
    if s.stride[j] <= s.stride[i] {
      var q := (s.stride[i] - s.stride[j]) / d;
      assert q * d <= s.stride[i] - s.stride[j];
      DivLower(q, d);
    }
  }

  /** The sum over a company of BigStride / pass + 1. */
  ghost function SumOfBounds(s: Sched, cs: seq<Pid>): int
    requires Known(s, cs)
  {
    if cs == [] then 0
    else
      PassBound(s.procs[cs[0]]);
      BigStride / Pass(s.procs[cs[0]]) + 1 + SumOfBounds(s, cs[1..])
  }

  lemma {:induction false} SlackSum(s: Sched, i: Pid, cs: seq<Pid>)
    requires Inv(s) && i in Ready(s) && i in s.stride && Known(s, cs)
    requires forall k :: 0 <= k < |cs| ==> cs[k] in Ready(s) || (cs[k] == s.curr && cs[k] != s.idle)
    ensures TotalSlack(s, i, cs) <= SumOfBounds(s, cs)
  {
    if cs != [] {
      SlackBound(s, i, cs[0]);
      SlackSum(s, i, cs[1..]);
    }
  }

  /** While `i` waits with the company `cs`, all of which are in the window at the
      start, `schedule` is called at most the sum of BigStride / pass + 1 times. */
  lemma WaitsAtMostSum(s: Sched, es: seq<Event>, i: Pid, cs: seq<Pid>)
    requires Inv(s) && Legal(s, es) && Bypassed(s, es, i) && Company(s, es, i, cs)
    requires forall k, l :: 0 <= k < l < |cs| ==> cs[k] != cs[l]
    requires forall k :: 0 <= k < |cs| ==> cs[k] in Ready(s) || (cs[k] == s.curr && cs[k] != s.idle)
    ensures Reschedules(es) <= SumOfBounds(s, cs)
  {
    EventuallyPicked(s, es, i, cs);
    SlackSum(s, i, cs);
  }
}
