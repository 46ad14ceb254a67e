/** What a priority above BigStride, whose pass is 0, does to waiting under the stride
    scheduler (kernel/proc/stride_scheduler.c): in a fixed company of two or more,
    waiting is bounded if and only if nobody has such a priority. */
module Starvation {
  import opened Words
  import opened Sets
  import opened SkewTree
  import opened Scheduling
  import opened StaleStrides

  /** `n` calls of `schedule` in a row. */
  function Reruns(n: nat): seq<Event> {
    if n == 0 then [] else [Reschedule] + Reruns(n - 1)
  }

  /** Process `j` competes with pass 0, from below everyone else or, when it is the
      current process, from no higher. */
  ghost predicate Monopolises(s: Sched, j: Pid) {
    && s.curr in s.procs && j in Contenders(s) && j in s.stride && s.procs[j].priority > BigStride
    && forall q :: q in Contenders(s) && q != j ==>
      q in s.stride && (s.stride[j] < s.stride[q] || (j == s.curr && s.stride[j] == s.stride[q]))
  }

  /** A current process that is requeued wins ties. */
  lemma TieWins(s: Sched)
    requires Inv(s) && s.curr in s.procs && Enqueues(s)
    requires forall q :: q in Ready(s) ==> q in s.stride && s.curr in s.stride && s.stride[s.curr] <= s.stride[q]
    ensures Schedulable(s) && ScheduleStep(s).curr == s.curr
  {
    PickIsMinimal(s);
    RootFacts(s);
    AddRoot(s.pool, s.curr, Wrap32(s.stride[s.curr]));
    if s.pool.Node? {
      var d := s.stride[s.pool.item] - s.stride[s.curr];
      CompReads(s.stride[s.pool.item], s.stride[s.curr]);
      RightRange(d);
    }
  }

  lemma MonopolyPick(s: Sched, j: Pid)
    requires Inv(s) && Monopolises(s, j)
    ensures Schedulable(s) && Requeue(s).pool.Node? && ScheduleStep(s).curr == j
  {
    PickIsMinimal(s);
    NonEmptyPool(s);
    if j == s.curr {
      assert Enqueues(s);
      assert forall q :: q in Ready(s) ==> q in Contenders(s) && q != j;
      TieWins(s);
    }
  }

  /** Whoever competes before a pick competes after it. */
  lemma SameContenders(s: Sched, s': Sched)
    requires Inv(s) && Schedulable(s) && s' == ScheduleStep(s) && Contenders(s) != {}
    ensures Requeue(s).pool.Node? && s'.curr in s'.procs && Contenders(s') == Contenders(s)
    ensures s'.curr in Contenders(s) && s'.idle == s.idle
    ensures forall q :: q in s.procs ==> q in s'.procs && s'.procs[q].priority == s.procs[q].priority
  {
    PickIsMinimal(s);
    NonEmptyPool(s);
    ReadyAfterPick(s, s');
    assert s'.procs[s'.curr].state == Runnable;
  }

  /** Whoever is picked with pass 0 keeps the processor. */
  lemma PickedZero(s: Sched, s': Sched)
    requires Inv(s) && Schedulable(s) && s' == ScheduleStep(s) && Contenders(s) != {}
    requires s'.curr in s.procs && s.procs[s'.curr].priority > BigStride
    ensures Monopolises(s', s'.curr)
  {
    var j := s'.curr;
    PickIsMinimal(s);
    SameContenders(s, s');
    PassBound(s.procs[j]);
    StepStride(s, Reschedule, j);
    forall q | q in Contenders(s) && q != j ensures q in s'.stride && s'.stride[j] <= s'.stride[q] {
      StepStride(s, Reschedule, q);
    }
  }

  lemma MonopolyStep(s: Sched, j: Pid)
    requires Inv(s) && Monopolises(s, j)
    ensures Enabled(s, Reschedule) && PicksNow(s, Reschedule, j)
    ensures Inv(Step(s, Reschedule)) && Monopolises(Step(s, Reschedule), j)
    ensures Contenders(Step(s, Reschedule)) == Contenders(s)
    ensures Step(s, Reschedule).curr == j && Step(s, Reschedule).idle == s.idle
  {
    MonopolyPick(s, j);
    ScheduleKeeps(s);
    SameContenders(s, ScheduleStep(s));
    PickedZero(s, ScheduleStep(s));
  }

  /** In `n` calls of `schedule`, `j` is picked each time and all others wait. */
  ghost predicate Starves(s: Sched, j: Pid, n: nat) {
    var es := Reruns(n);
    var starves :=
      && Legal(s, es) && Picks(s, es, j) == n && Reschedules(es) == n
      && forall i :: i in Ready(s) && i != j ==> Bypassed(s, es, i);
    starves
  }

  /** A process with priority above 2^30 that is below all others, or current and no
      higher, is picked at every `schedule`, for any number of them. */
  lemma {:induction false} ZeroPassStarves(s: Sched, j: Pid, n: nat)
    requires Inv(s) && Monopolises(s, j)
    ensures Starves(s, j, n)
    decreases n
  {
    if n == 0 {
      RerunsNone(s, j);
    } else {
      MonopolyStep(s, j);
      var s' := Step(s, Reschedule);
      ZeroPassStarves(s', j, n - 1);
      RerunsOn(s, s', j, n);
    }
  }

  lemma RerunsNone(s: Sched, j: Pid)
    ensures Starves(s, j, 0)
  {
  }

  lemma RerunsOn(s: Sched, s': Sched, j: Pid, n: nat)
    requires n > 0 && Enabled(s, Reschedule) && PicksNow(s, Reschedule, j) && s' == Step(s, Reschedule)
    requires Contenders(s') == Contenders(s) && s'.curr == j && s'.idle == s.idle
    requires Starves(s', j, n - 1)
    ensures Starves(s, j, n)
  {
    var es := Reruns(n);
    assert es[0] == Reschedule && es[1..] == Reruns(n - 1);
    forall i | i in Ready(s) && i != j ensures Bypassed(s, es, i) {
      assert i in Contenders(s');
    }
  }

  // ---------------------------------------------------------------- getting there

  /** `cs` are the contenders whose pass is not 0. */
  ghost predicate Others(s: Sched, cs: seq<Pid>) {
    && s.curr in s.procs && Known(s, cs)
    && (forall k, l :: 0 <= k < l < |cs| ==> cs[k] != cs[l])
    && (forall p :: p in Contenders(s) && s.procs[p].priority <= BigStride ==> p in cs)
  }

  /** A pick touches the stride of the one picked only, and no priority. */
  lemma PickTouches(s: Sched, s': Sched, q: Pid)
    requires Inv(s) && Schedulable(s) && s' == ScheduleStep(s) && q in s.procs
    ensures q in s'.procs && q in s'.stride && q in s.stride && s'.procs[q].priority == s.procs[q].priority
    ensures q != s'.curr ==> s'.stride[q] == s.stride[q]
  {
    StepStride(s, Reschedule, q);
  }

  lemma OthersKept(s: Sched, s': Sched, cs: seq<Pid>)
    requires Inv(s) && Schedulable(s) && s' == ScheduleStep(s) && Others(s, cs) && Contenders(s) != {}
    ensures Others(s', cs)
    ensures forall k :: 0 <= k < |cs| ==> s'.procs[cs[k]].priority == s.procs[cs[k]].priority
    ensures forall k :: 0 <= k < |cs| && cs[k] != s'.curr ==> s'.stride[cs[k]] == s.stride[cs[k]]
  {
    forall k | 0 <= k < |cs|
      ensures cs[k] in s'.procs && cs[k] in s'.stride && s'.procs[cs[k]].priority == s.procs[cs[k]].priority
      ensures cs[k] != s'.curr ==> s'.stride[cs[k]] == s.stride[cs[k]]
    {
      PickTouches(s, s', cs[k]);
    }
    SameContenders(s, s');
    OthersStay(s, s', cs);
  }

  lemma OthersStay(s: Sched, s': Sched, cs: seq<Pid>)
    requires Others(s, cs) && Known(s', cs) && s'.curr in s'.procs && Contenders(s') == Contenders(s)
    requires forall q :: q in s.procs ==> q in s'.procs && s'.procs[q].priority == s.procs[q].priority
    ensures Others(s', cs)
  {
    forall p | p in Contenders(s') && s'.procs[p].priority <= BigStride ensures p in cs {
      assert p in Contenders(s) && p in s.procs;
    }
  }

  lemma OthersStep(s: Sched, s': Sched, j: Pid, cs: seq<Pid>)
    requires Inv(s) && Schedulable(s) && s' == ScheduleStep(s) && Others(s, cs)
    requires j in Contenders(s) && j in s.stride && s.procs[j].priority > BigStride
    requires s'.curr in s.procs && s.procs[s'.curr].priority <= BigStride
    ensures Others(s', cs) && j in s'.stride && j in Contenders(s') && s'.procs[j].priority == s.procs[j].priority
    ensures TotalSlack(s', j, cs) == TotalSlack(s, j, cs) - 1
  {
    var p := s'.curr;
    PickIsMinimal(s);
    SameContenders(s, s');
    OthersKept(s, s', cs);
    StepStride(s, Reschedule, j);
    StepStride(s, Reschedule, p);
    SlackDrops(s, s', j, p);
    TotalFollows(s, s', j, cs, p, 1);
  }

  /** After `m` calls of `schedule`, `h` keeps the processor. */
  ghost predicate Ends(s: Sched, m: nat, h: Pid) {
    var ends := Legal(s, Reruns(m)) && Monopolises(Exec(s, Reruns(m)), h) && Exec(s, Reruns(m)).curr == h;
    ends
  }

  lemma EndsNow(s: Sched, h: Pid)
    requires Monopolises(s, h) && s.curr == h
    ensures Ends(s, 0, h)
  {
  }

  lemma EndsLater(s: Sched, s': Sched, n: nat, h: Pid)
    requires Enabled(s, Reschedule) && s' == Step(s, Reschedule) && Ends(s', n, h)
    ensures Ends(s, n + 1, h)
  {
    Follow(s, Reschedule, Reruns(n));
  }

  /** A contender `j` of pass 0, and `k` more picks of others before its turn comes. */
  ghost predicate Racing(s: Sched, j: Pid, cs: seq<Pid>, k: nat) {
    var racing :=
      && Inv(s) && Others(s, cs) && j in Contenders(s) && j in s.stride && s.procs[j].priority > BigStride
      && TotalSlack(s, j, cs) == k;
    racing
  }

  /** One call of `schedule` ends the race, or leaves a shorter one. */
  lemma OneRound(s: Sched, j: Pid, cs: seq<Pid>, k: nat) returns (s': Sched, done: bool)
    requires Racing(s, j, cs, k)
    ensures done ==> Ends(s, 1, s'.curr)
    ensures !done ==> k > 0 && Racing(s', j, cs, k - 1) && forall n: nat, h :: Ends(s', n, h) ==> Ends(s, n + 1, h)
  {
    ScheduleKeeps(s);
    s' := ScheduleStep(s);
    PickContends(s, s');
    done := s.procs[s'.curr].priority > BigStride;
    if done {
      PickedZero(s, s');
      EndsNow(s', s'.curr);
      EndsLater(s, s', 0, s'.curr);
    } else {
      OthersStep(s, s', j, cs);
      forall n: nat, h | Ends(s', n, h) ensures Ends(s, n + 1, h) { EndsLater(s, s', n, h); }
    }
  }

  /** From any state with a contender of pass 0, wherever its stride is, some calls of
      `schedule` lead to a state in which one contender keeps the processor. */
  lemma {:induction false} ReachesMonopoly(s: Sched, j: Pid, cs: seq<Pid>, k: nat) returns (m: nat, h: Pid)
    requires Racing(s, j, cs, k)
    ensures Ends(s, m, h)
    decreases k
  {
    var s', done := OneRound(s, j, cs, k);
    if done {
      m, h := 1, s'.curr;
    } else {
      m, h := ReachesMonopoly(s', j, cs, k - 1);
      m := m + 1;
    }
  }

  lemma PickContends(s: Sched, s': Sched)
    requires Inv(s) && Schedulable(s) && s' == ScheduleStep(s) && Contenders(s) != {}
    ensures s'.curr in Contenders(s) && s'.curr in s.procs && s' == Step(s, Reschedule)
  {
    PickIsMinimal(s);
  }

  // ------------------------------------------------------- a fixed company of contenders

  /** The same processes `c` compete at every state of the run, and no priority is set. */
  ghost predicate Together(s: Sched, es: seq<Event>, c: set<Pid>)
    requires Legal(s, es)
    decreases |es|
  {
    && s.curr in s.procs && Contenders(s) == c
    && (es != [] ==> !es[0].SetPriority? && Together(Step(s, es[0]), es[1..], c))
  }

  /** After `es`, process `i` waits during all of `fs`, in the company it is in now. */
  ghost predicate Waits(s: Sched, es: seq<Event>, fs: seq<Event>, i: Pid) {
    var waits :=
      && s.curr in s.procs && Legal(s, es) && Together(s, es, Contenders(s))
      && Legal(Exec(s, es), fs) && Together(Exec(s, es), fs, Contenders(s)) && Bypassed(Exec(s, es), fs, i);
    waits
  }

  /** Nobody ever waits for more than `bound` calls of `schedule`. */
  ghost predicate WaitsAtMost(s: Sched, bound: nat) {
    forall es, fs, i :: Waits(s, es, fs, i) ==> Reschedules(fs) <= bound
  }

  ghost predicate NoZeroPass(s: Sched)
    requires s.curr in s.procs
  {
    forall q :: q in Contenders(s) ==> q in s.procs && s.procs[q].priority <= BigStride
  }

  lemma TogetherStep(s: Sched, e: Event, c: set<Pid>)
    requires Inv(s) && Enabled(s, e) && !e.SetPriority? && s.curr in s.procs && Contenders(s) == c
    requires Step(s, e).curr in Step(s, e).procs && Contenders(Step(s, e)) == c
    ensures forall q :: q in c ==>
      q in s.procs && q in Step(s, e).procs && Step(s, e).procs[q].priority == s.procs[q].priority
  {
    forall q | q in c ensures q in s.procs && q in Step(s, e).procs &&
      Step(s, e).procs[q].priority == s.procs[q].priority {
      StepStride(s, e, q);
    }
  }

  lemma {:induction false} TogetherKeeps(s: Sched, es: seq<Event>, c: set<Pid>)
    requires Inv(s) && Legal(s, es) && Together(s, es, c)
    ensures Inv(Exec(s, es)) && Exec(s, es).curr in Exec(s, es).procs && Contenders(Exec(s, es)) == c
    ensures forall q :: q in c ==>
      q in s.procs && q in Exec(s, es).procs && Exec(s, es).procs[q].priority == s.procs[q].priority
    decreases |es|
  {
    if es != [] {
      StepKeeps(s, es[0]);
      TogetherStep(s, es[0], c);
      TogetherKeeps(Step(s, es[0]), es[1..], c);
    }
  }

  /** `cs` lists the set `c`. */
  ghost predicate Lists(cs: seq<Pid>, c: set<Pid>) {
    && (forall k, l :: 0 <= k < l < |cs| ==> cs[k] != cs[l])
    && (forall q :: q in c <==> q in cs)
  }

  lemma {:induction false} Listing(c: set<Pid>) returns (cs: seq<Pid>)
    ensures Lists(cs, c)
  {
    if c == {} {
      cs := [];
    } else {
      var q :| q in c;
      var rest := Listing(c - {q});
      cs := [q] + rest;
      assert forall x :: x in cs <==> x == q || x in rest;
    }
  }

  lemma {:induction false} TogetherCompany(s: Sched, fs: seq<Event>, i: Pid, c: set<Pid>, cs: seq<Pid>)
    requires Inv(s) && Legal(s, fs) && Together(s, fs, c) && Lists(cs, c) && NoZeroPass(s)
    ensures Company(s, fs, i, cs)
    decreases |fs|
  {
    KnownList(s, c, cs);
    if fs != [] {
      StepKeeps(s, fs[0]);
      TogetherStep(s, fs[0], c);
      TogetherCompany(Step(s, fs[0]), fs[1..], i, c, cs);
    }
  }

  lemma KnownList(s: Sched, c: set<Pid>, cs: seq<Pid>)
    requires Inv(s) && s.curr in s.procs && Contenders(s) == c && Lists(cs, c) && NoZeroPass(s)
    ensures Known(s, cs)
    ensures forall k :: 0 <= k < |cs| ==> cs[k] in Ready(s) || (cs[k] == s.curr && cs[k] != s.idle)
  {
    forall k | 0 <= k < |cs| ensures cs[k] in c && cs[k] in s.procs { }
  }

  /** The bound depends on priorities only. */
  lemma {:induction false} SumSame(s: Sched, s': Sched, cs: seq<Pid>)
    requires Known(s, cs) && Known(s', cs)
    requires forall k :: 0 <= k < |cs| ==> s'.procs[cs[k]].priority == s.procs[cs[k]].priority
    ensures SumOfBounds(s', cs) == SumOfBounds(s, cs)
  {
    if cs != [] { SumSame(s, s', cs[1..]); }
  }

  lemma {:induction false} SumPositive(s: Sched, cs: seq<Pid>)
    requires Known(s, cs)
    ensures SumOfBounds(s, cs) >= 0
  {
    if cs != [] {
      PassBound(s.procs[cs[0]]);
      NonNegativeDiv(BigStride, Pass(s.procs[cs[0]]));
      SumPositive(s, cs[1..]);
    }
  }

  /** Without a pass of 0, the sum of BigStride / pass + 1 over the company is a bound. */
  lemma BoundHolds(s: Sched, cs: seq<Pid>, es: seq<Event>, fs: seq<Event>, i: Pid)
    requires Inv(s) && s.curr in s.procs && NoZeroPass(s) && Lists(cs, Contenders(s)) && Known(s, cs) &&
      Waits(s, es, fs, i)
    ensures Reschedules(fs) <= SumOfBounds(s, cs)
  {
    var c, t := Contenders(s), Exec(s, es);
    TogetherKeeps(s, es, c);
    KnownList(t, c, cs);
    TogetherCompany(t, fs, i, c, cs);
    WaitsAtMostSum(t, fs, i, cs);
    SumSame(s, t, cs);
  }

  lemma {:induction false} RerunsTogether(s: Sched, m: nat)
    requires Inv(s) && s.curr in s.procs && Contenders(s) != {}
    ensures Legal(s, Reruns(m)) && Together(s, Reruns(m), Contenders(s))
    decreases m
  {
    if m > 0 {
      ScheduleKeeps(s);
      var s' := ScheduleStep(s);
      SameContenders(s, s');
      RerunsTogether(s', m - 1);
      assert Reruns(m)[0] == Reschedule && Reruns(m)[1..] == Reruns(m - 1);
    }
  }

  /** With a pass of 0 among two or more contenders, somebody waits for any number of calls. */
  lemma NoBound(s: Sched, j: Pid, n: nat) returns (m: nat, i: Pid)
    requires Inv(s) && s.curr in s.procs && |Contenders(s)| >= 2
    requires j in Contenders(s) && s.procs[j].priority > BigStride
    ensures Waits(s, Reruns(m), Reruns(n), i) && Reschedules(Reruns(n)) == n
  {
    var c := Contenders(s);
    var cs := Listing(set q | q in c && s.procs[q].priority <= BigStride);
    StartRace(s, j, cs);
    var h;
    m, h := ReachesMonopoly(s, j, cs, TotalSlack(s, j, cs));
    var t := Exec(s, Reruns(m));
    RerunsTogether(s, m);
    TogetherKeeps(s, Reruns(m), c);
    ZeroPassStarves(t, h, n);
    RerunsTogether(t, n);
    i := Another(c, h);
    assert i in Ready(t);
  }

  lemma StartRace(s: Sched, j: Pid, cs: seq<Pid>)
    requires Inv(s) && s.curr in s.procs && j in Contenders(s) && s.procs[j].priority > BigStride
    requires Lists(cs, set q | q in Contenders(s) && s.procs[q].priority <= BigStride)
    ensures j in s.stride && Known(s, cs) && Racing(s, j, cs, TotalSlack(s, j, cs))
  {
    forall k | 0 <= k < |cs| ensures cs[k] in s.procs && cs[k] in s.stride && 0 < s.procs[cs[k]].priority <= BigStride {
      assert cs[k] in cs;
    }
  }

  lemma Another(c: set<Pid>, h: Pid) returns (i: Pid)
    requires |c| >= 2
    ensures i in c && i != h
  {
    if c <= {h} { SubsetCard(c, {h}); }
    i :| i in c && i != h;
  }

  lemma BoundExists(s: Sched) returns (bound: nat)
    requires Inv(s) && s.curr in s.procs && NoZeroPass(s)
    ensures WaitsAtMost(s, bound)
  {
    var cs := Listing(Contenders(s));
    KnownList(s, Contenders(s), cs);
    SumPositive(s, cs);
    bound := SumOfBounds(s, cs);
    forall es, fs, i | Waits(s, es, fs, i) ensures Reschedules(fs) <= bound {
      BoundHolds(s, cs, es, fs, i);
    }
  }

  lemma BoundFails(s: Sched, j: Pid, bound: nat)
    requires Inv(s) && s.curr in s.procs && |Contenders(s)| >= 2
    requires j in Contenders(s) && s.procs[j].priority > BigStride
    ensures !WaitsAtMost(s, bound)
  {
    var m, i := NoBound(s, j, bound + 1);
    assert Waits(s, Reruns(m), Reruns(bound + 1), i);
  }

  /** As long as the same two or more processes compete, the number of calls of
      `schedule` any of them waits is bounded if and only if none has a priority
      above 2^30. */
  lemma WaitingBoundedIff(s: Sched)
    requires Inv(s) && s.curr in s.procs && |Contenders(s)| >= 2
    ensures (exists bound: nat :: WaitsAtMost(s, bound)) <==> NoZeroPass(s)
  {
    if NoZeroPass(s) {
      var bound := BoundExists(s);
      assert WaitsAtMost(s, bound);
    } else {
      var j :| j in Contenders(s) && !(j in s.procs && s.procs[j].priority <= BigStride);
      forall bound: nat ensures !WaitsAtMost(s, bound) { BoundFails(s, j, bound); }
    }
  }

  // ------------------------------------------------------------------- a real run

  /** Two processes are created and woken, each runs once, and the second to run
      raises its priority to 2^31. */
  function RaiseOnce(): seq<Event> {
    [Create(1), Wake(1), Create(2), Wake(2), Reschedule, Reschedule, SetPriority(0x8000_0000)]
  }

  function Both(): Sched {
    Sched(map[0 := Proc(Runnable, 1, 0), 1 := Proc(Runnable, 1, 5), 2 := Proc(Runnable, 1, 5)],
          map[0 := 0, 1 := 0, 2 := 0],
          Node(2, 0, Node(1, 0, Leaf, Leaf), Leaf), 2, 0, 0)
  }

  function SecondRuns(): Sched {
    Sched(Both().procs, map[0 := 0, 1 := 0, 2 := BigStride], Node(1, 0, Leaf, Leaf), 1, 2, 0)
  }

  function FirstRuns(): Sched {
    Sched(Both().procs, map[0 := 0, 1 := BigStride, 2 := BigStride], Node(2, BigStride, Leaf, Leaf), 1, 1, 0)
  }

  function Raised(): Sched {
    FirstRuns().(procs := Both().procs[1 := Proc(Runnable, 0x8000_0000, 5)])
  }

  lemma BothReady(rest: seq<Event>)
    requires Legal(Both(), rest)
    ensures
      var es := [Create(1)] + ([Wake(1)] + ([Create(2)] + ([Wake(2)] + rest)));
      Legal(Boot(), es) && Exec(Boot(), es) == Exec(Both(), rest)
  {
    var q := Queued();
    var s := Step(q, Create(2));
    assert Step(s, Wake(2)) == Both();
    Follow(s, Wake(2), rest);
    Follow(q, Create(2), [Wake(2)] + rest);
    StartsAlone([Create(2)] + ([Wake(2)] + rest));
  }

  lemma SecondPicked()
    ensures Enabled(Both(), Reschedule) && Step(Both(), Reschedule) == SecondRuns()
  {
    var s := Step(Both(), Reschedule);
    assert s.stride == SecondRuns().stride;
  }

  lemma FirstPicked()
    ensures Enabled(SecondRuns(), Reschedule) && Step(SecondRuns(), Reschedule) == FirstRuns()
  {
    var s := SecondRuns();
    var s1 := Requeue(s);
    assert s1.procs == s.procs;
    assert s1.pool == Node(1, 0, Node(2, BigStride, Leaf, Leaf), Leaf);
    assert Step(s, Reschedule).stride == FirstRuns().stride;
  }

  lemma RaisesOn(s: Sched, es: seq<Event>)
    requires s == Both() && es == [Reschedule, Reschedule, SetPriority(0x8000_0000)]
    ensures Legal(s, es) && Exec(s, es) == Raised()
  {
    SecondPicked();
    FirstPicked();
    var t := es[2..];
    assert t == [SetPriority(0x8000_0000)] + [];
    assert Step(FirstRuns(), SetPriority(0x8000_0000)) == Raised();
    Follow(FirstRuns(), SetPriority(0x8000_0000), []);
    Follow(SecondRuns(), Reschedule, t);
    Follow(s, Reschedule, [Reschedule] + t);
    assert es == [Reschedule] + ([Reschedule] + t);
  }

  lemma ReachesRaised(boot: Sched, es: seq<Event>)
    requires boot == Boot() && es == RaiseOnce()
    ensures Legal(boot, es) && Exec(boot, es) == Raised()
  {
    var t := es[4..];
    assert t == [Reschedule, Reschedule, SetPriority(0x8000_0000)];
    RaisesOn(Both(), t);
    BothReady(t);
    assert es == [Create(1)] + ([Wake(1)] + ([Create(2)] + ([Wake(2)] + t)));
  }

  lemma RaisedMonopolises(r: Sched)
    requires r == Raised()
    ensures r.curr == 1 && Ready(r) == {2} && r.stride[1] == r.stride[2] && Monopolises(r, 1)
  {
  }

  /** From boot: process 1 is current, process 2 is queued at the same stride, and from
      then on 1 is picked at every `schedule`. */
  lemma RaisedStarves(n: nat)
    ensures Legal(Boot(), RaiseOnce()) && Exec(Boot(), RaiseOnce()) == Raised()
    ensures Raised().curr == 1 && Ready(Raised()) == {2} && Raised().stride[1] == Raised().stride[2]
    ensures Starves(Raised(), 1, n)
  {
    var boot, es, r := Boot(), RaiseOnce(), Raised();
    ReachesRaised(boot, es);
    BootInv();
    RunKeepsInvariant(boot, es);
    RaisedMonopolises(r);
    ZeroPassStarves(r, 1, n);
  }
}
