/** Dining philosophers with semaphores (kernel/sync/test_phi.c:90-113), for any
    number of seats and any interleaving: every statement is a step of its own. */
module PhilSem {
  import opened Ring
  import opened Semaphore
  import opened Sets
  import opened Table

  /** The next thing a philosopher does. `Wait` is asleep in `down`, `Woken` is
      chosen by an `up` and not yet running. */
  datatype Pc =
    | Think
    | TakeWait | TakeWoken  // take_forks: down(&mutex)
    | T1                    // state = HUNGRY
    | T2                    // phi_test(self)
    | T3                    // up(&mutex)
    | T4                    // down(&sem[self])
    | ForkWait | ForkWoken  // asleep there
    | Eat                   // take_forks has returned
    | PutWait | PutWoken    // put_forks: down(&mutex)
    | P1                    // state = THINKING
    | P2                    // phi_test(left)
    | P3                    // phi_test(right)
    | P4                    // up(&mutex)

  datatype Sys = Sys(mood: seq<Mood>, mutex: Sem, sems: seq<Sem>, pc: seq<Pc>)

  predicate Sized(s: Sys) {
    |s.mood| == |s.sems| == |s.pc| && |s.pc| >= 2
  }

  function SetPc(s: Sys, i: nat, x: Pc): Sys
    requires i < |s.pc|
  {
    s.(pc := s.pc[i := x])
  }

  /** `up(&g_phi_sem[i])`. */
  function UpFork(s: Sys, i: nat): Sys
    requires Sized(s) && i < |s.pc|
  {
    var s1 := s.(sems := s.sems[i := Up(s.sems[i])]);
    match Wakes(s.sems[i])
    case None => s1
    case Some(q) => if q < |s.pc| then SetPc(s1, q, ForkWoken) else s1
  }

  /** `phi_test_sem`. */
  function Test(s: Sys, i: nat): Sys
    requires Sized(s) && i < |s.pc|
  {
    if MayEat(s.mood, i) then UpFork(s.(mood := s.mood[i := Eating]), i) else s
  }

  /** `up(&g_phi_mutex)`. */
  function UpMutex(s: Sys): Sys {
    var s1 := s.(mutex := Up(s.mutex));
    match Wakes(s.mutex)
    case None => s1
    case Some(q) =>
      if q < |s.pc| then SetPc(s1, q, if s.pc[q] == TakeWait then TakeWoken else PutWoken) else s1
  }

  function DownMutex(s: Sys, i: nat, got: Pc, wait: Pc): Sys
    requires i < |s.pc|
  {
    SetPc(s.(mutex := Down(s.mutex, i)), i, if s.mutex.value > 0 then got else wait)
  }

  predicate CanStep(s: Sys, i: nat) {
    && Sized(s) && i < |s.pc|
    && s.pc[i] != TakeWait && s.pc[i] != PutWait && s.pc[i] != ForkWait
  }

  /** The next statement of philosopher `i`. */
  function Step(s: Sys, i: nat): Sys
    requires CanStep(s, i)
  {
    var n := |s.pc|;
    match s.pc[i]
    case Think => DownMutex(s, i, T1, TakeWait)
    case TakeWoken => SetPc(s, i, T1)
    case T1 => SetPc(s.(mood := s.mood[i := Hungry]), i, T2)
    case T2 => SetPc(Test(s, i), i, T3)
    case T3 => UpMutex(SetPc(s, i, T4))
    case T4 =>
      SetPc(s.(sems := s.sems[i := Down(s.sems[i], i)]), i, if s.sems[i].value > 0 then Eat else ForkWait)
    case ForkWoken => SetPc(s, i, Eat)
    case Eat => DownMutex(s, i, P1, PutWait)
    case PutWoken => SetPc(s, i, P1)
    case P1 => SetPc(s.(mood := s.mood[i := Thinking]), i, P2)
    case P2 => SetPc(Test(s, Left(i, n)), i, P3)
    case P3 => SetPc(Test(s, Right(i, n)), i, P4)
    case P4 => UpMutex(SetPc(s, i, Think))
    case _ => s
  }

  // ---------------------------------------------------------------- invariant

  /** Philosophers in the critical section, or chosen to enter it. */
  predicate Inside(x: Pc) {
    x == TakeWoken || x == T1 || x == T2 || x == T3 ||
    x == PutWoken || x == P1 || x == P2 || x == P3 || x == P4
  }

  function InsideSet(pc: seq<Pc>): set<nat> {
    set i | 0 <= i < |pc| && Inside(pc[i])
  }

  predicate MutexQueue(mutex: Sem, pc: seq<Pc>) {
    && SemOk(mutex)
    && forall q :: q in mutex.queue ==> q < |pc| && (pc[q] == TakeWait || pc[q] == PutWait)
  }

  /** There is one token: the mutex is free, or one philosopher is inside. */
  predicate OneInside(s: Sys) {
    MutexQueue(s.mutex, s.pc) && s.mutex.value + |InsideSet(s.pc)| == 1
  }

  /** What a philosopher's place in the program says about his mood and his semaphore. */
  predicate Seat(x: Pc, mood: Mood, sem: Sem, i: nat) {
    match x
    case Think => mood == Thinking && sem == Sem(0, [])
    case TakeWait => mood == Thinking && sem == Sem(0, [])
    case TakeWoken => mood == Thinking && sem == Sem(0, [])
    case T1 => mood == Thinking && sem == Sem(0, [])
    case T2 => mood == Hungry && sem == Sem(0, [])
    case T3 => (mood == Hungry && sem == Sem(0, [])) || (mood == Eating && sem == Sem(1, []))
    case T4 => (mood == Hungry && sem == Sem(0, [])) || (mood == Eating && sem == Sem(1, []))
    case ForkWait => mood == Hungry && sem == Sem(0, [i])
    case ForkWoken => mood == Eating && sem == Sem(0, [])
    case Eat => mood == Eating && sem == Sem(0, [])
    case PutWait => mood == Eating && sem == Sem(0, [])
    case PutWoken => mood == Eating && sem == Sem(0, [])
    case P1 => mood == Eating && sem == Sem(0, [])
    case P2 => mood == Thinking && sem == Sem(0, [])
    case P3 => mood == Thinking && sem == Sem(0, [])
    case P4 => mood == Thinking && sem == Sem(0, [])
  }

  /** `i` is about to be tested by whoever is inside. */
  predicate TestDue(pc: seq<Pc>, i: nat)
    requires i < |pc|
  {
    var l, r := Left(i, |pc|), Right(i, |pc|);
    pc[i] == T2 || pc[r] == P2 || pc[l] == P2 || pc[l] == P3
  }

  /** Nobody is hungry in vain: a neighbour eats, or a test is on its way. */
  predicate Justified(s: Sys, i: nat)
    requires Sized(s) && i < |s.pc|
  {
    s.mood[i] == Hungry ==> EatingNeighbour(s.mood, i) || TestDue(s.pc, i)
  }

  ghost predicate Inv(s: Sys) {
    var inv :=
      && Sized(s)
      && OneInside(s)
      && Apart(s.mood)
      && (forall i :: 0 <= i < |s.pc| ==> Seat(s.pc[i], s.mood[i], s.sems[i], i))
      && (forall i :: 0 <= i < |s.pc| ==> Justified(s, i));
    inv
  }

  // --------------------------------------------------------------- every step

  lemma MoveInside(pc: seq<Pc>, i: nat, x: Pc)
    requires i < |pc|
    ensures |InsideSet(pc[i := x])| == |InsideSet(pc)| - Bit(Inside(pc[i])) + Bit(Inside(x))
  {
    CardMove(InsideSet(pc), InsideSet(pc[i := x]), i);
  }

  lemma Alone(s: Sys, i: nat, j: nat)
    requires OneInside(s) && i < |s.pc| && j < |s.pc| && Inside(s.pc[i])
    ensures s.mutex.value == 0 && (Inside(s.pc[j]) ==> i == j)
  {
    var all := InsideSet(s.pc);
    assert i in all;
    if Inside(s.pc[j]) {
      assert j in all;
      assert |all - {i}| == 0;
      assert j !in all - {i};
    }
  }

  /** A step that leaves mood, forks and the critical section alone. */
  lemma PlainMove(s: Sys, i: nat, x: Pc)
    requires Inv(s) && i < |s.pc|
    requires Inside(x) <==> Inside(s.pc[i])
    requires Seat(x, s.mood[i], s.sems[i], i)
    requires s.pc[i] != TakeWait && s.pc[i] != PutWait && s.pc[i] != T2 && s.pc[i] != P2 && s.pc[i] != P3
    ensures Inv(SetPc(s, i, x))
  {
    var s' := SetPc(s, i, x);
    forall j | 0 <= j < |s.pc| ensures Justified(s', j) {
      assert Justified(s, j);
    }
    MoveInside(s.pc, i, x);
  }

  lemma EnterKeeps(s: Sys, i: nat, got: Pc, wait: Pc)
    requires Inv(s) && CanStep(s, i)
    requires (s.pc[i] == Think && got == T1 && wait == TakeWait) || (s.pc[i] == Eat && got == P1 && wait == PutWait)
    ensures Inv(DownMutex(s, i, got, wait))
  {
    var s' := DownMutex(s, i, got, wait);
    forall j | 0 <= j < |s.pc| ensures Justified(s', j) {
      assert Justified(s, j);
    }
    EnterInside(s, i, got, wait);
  }

  lemma EnterInside(s: Sys, i: nat, got: Pc, wait: Pc)
    requires OneInside(s) && i < |s.pc| && !Inside(s.pc[i]) && s.pc[i] != TakeWait && s.pc[i] != PutWait
    requires Inside(got) && (wait == TakeWait || wait == PutWait)
    ensures OneInside(DownMutex(s, i, got, wait))
  {
    if s.mutex.value > 0 {
      MoveInside(s.pc, i, got);
    } else {
      MoveInside(s.pc, i, wait);
      JoinKeepsAll(s.mutex.queue, i);
    }
  }

  lemma ExitKeeps(s: Sys, i: nat, x: Pc)
    requires Inv(s) && CanStep(s, i)
    requires (s.pc[i] == T3 && x == T4) || (s.pc[i] == P4 && x == Think)
    ensures Inv(UpMutex(SetPc(s, i, x)))
  {
    var s1 := SetPc(s, i, x);
    ExitFrame(s, i, x);
    ExitSeats(s, s1);
    ExitOne(s, i, x);
  }

  lemma ExitFrame(s: Sys, i: nat, x: Pc)
    requires Inv(s) && i < |s.pc| && ((s.pc[i] == T3 && x == T4) || (s.pc[i] == P4 && x == Think))
    ensures
      var s' := UpMutex(SetPc(s, i, x));
      Sized(s') && |s'.pc| == |s.pc| && s'.mood == s.mood && s'.sems == s.sems && forall j :: 0 <= j < |s'.pc| ==>
        Justified(s', j)
  {
    if s.mutex.queue != [] { assert s.mutex.queue[0] in s.mutex.queue; }
    JustifiedFrame(s, UpMutex(SetPc(s, i, x)));
  }

  lemma ExitOne(s: Sys, i: nat, x: Pc)
    requires OneInside(s) && i < |s.pc| && Inside(s.pc[i]) && !Inside(x) && MutexQueue(s.mutex, s.pc[i := x])
    ensures OneInside(UpMutex(SetPc(s, i, x)))
  {
    MoveInside(s.pc, i, x);
    HandOver(SetPc(s, i, x));
  }

  lemma ExitSeats(s: Sys, s1: Sys)
    requires Inv(s) && s1.mood == s.mood && s1.sems == s.sems && s1.mutex == s.mutex && |s1.pc| == |s.pc|
    requires forall j :: 0 <= j < |s.pc| ==>
      s1.pc[j] == s.pc[j] || (s.pc[j] == T3 && s1.pc[j] == T4) || (s.pc[j] == P4 && s1.pc[j] == Think)
    ensures MutexQueue(s1.mutex, s1.pc)
    ensures forall j :: 0 <= j < |s.pc| ==> Seat(UpMutex(s1).pc[j], s.mood[j], s.sems[j], j)
  {
    forall j | 0 <= j < |s.pc| ensures Seat(UpMutex(s1).pc[j], s.mood[j], s.sems[j], j) {
      assert Seat(s.pc[j], s.mood[j], s.sems[j], j);
      if s.mutex.queue != [] { assert s.mutex.queue[0] in s.mutex.queue; }
    }
  }

  /** Nobody loses a reason to be hungry while the moods and the pending tests stay. */
  lemma JustifiedFrame(s: Sys, s': Sys)
    requires Inv(s) && Sized(s') && s'.mood == s.mood
    requires forall k :: 0 <= k < |s.pc| && (s.pc[k] == T2 || s.pc[k] == P2 || s.pc[k] == P3) ==> s'.pc[k] == s.pc[k]
    ensures forall j :: 0 <= j < |s'.pc| ==> Justified(s', j)
  {
    forall j | 0 <= j < |s'.pc| ensures Justified(s', j) { assert Justified(s, j); }
  }

  lemma HandOver(s: Sys)
    requires MutexQueue(s.mutex, s.pc) && s.mutex.value + |InsideSet(s.pc)| == 0
    ensures OneInside(UpMutex(s))
  {
    if s.mutex.queue != [] {
      var q := s.mutex.queue[0];
      assert q in s.mutex.queue;
      MoveInside(s.pc, q, if s.pc[q] == TakeWait then TakeWoken else PutWoken);
      PopMutex(s);
    }
  }

  lemma PopMutex(s: Sys)
    requires MutexQueue(s.mutex, s.pc) && s.mutex.queue != []
    ensures MutexQueue(UpMutex(s).mutex, UpMutex(s).pc)
  {
    var q := s.mutex.queue[0];
    assert q in s.mutex.queue;
    assert forall p :: p in s.mutex.queue[1..] ==> p in s.mutex.queue && p != q;
  }

  lemma HungryKeeps(s: Sys, i: nat)
    requires Inv(s) && CanStep(s, i) && s.pc[i] == T1
    ensures Inv(Step(s, i))
  {
    var s' := Step(s, i);
    ApartAfterRise(s.mood, i, Hungry);
    forall j | 0 <= j < |s.pc| ensures Justified(s', j) {
      assert Justified(s, j);
    }
    SameInside(s, s', i);
  }

  lemma SameInside(s: Sys, s': Sys, i: nat)
    requires OneInside(s) && i < |s.pc| && Inside(s.pc[i]) && s'.mutex == s.mutex
    requires |s'.pc| == |s.pc| && Inside(s'.pc[i])
    requires forall j :: 0 <= j < |s.pc| && j != i ==>
      s'.pc[j] == s.pc[j] || (s.pc[j] == ForkWait && s'.pc[j] == ForkWoken)
    ensures OneInside(s')
  {
    assert InsideSet(s'.pc) == InsideSet(s.pc);
  }

  lemma RiseKeeps(s: Sys, i: nat)
    requires Inv(s) && CanStep(s, i) && s.pc[i] == P1
    ensures Inv(Step(s, i))
  {
    var n, s' := |s.pc|, Step(s, i);
    ApartAfterRise(s.mood, i, Thinking);
    forall j | 0 <= j < n ensures Justified(s', j) {
      assert Justified(s, j);
      Neighbours(j, n);
    }
    SameInside(s, s', i);
  }

  lemma TestSelfKeeps(s: Sys, i: nat)
    requires Inv(s) && CanStep(s, i) && s.pc[i] == T2
    ensures Inv(Step(s, i))
  {
    var n, s' := |s.pc|, Step(s, i);
    if MayEat(s.mood, i) { ApartAfterTest(s.mood, i); }
    forall j | 0 <= j < n ensures Justified(s', j) {
      assert Justified(s, j);
    }
    SameInside(s, s', i);
  }

  /** The one inside lets a hungry neighbour eat: the grant reaches him, asleep or not. */
  lemma GrantKeeps(s: Sys, i: nat, k: nat)
    requires Inv(s) && i < |s.pc| && k < |s.pc| && k != i
    requires Inside(s.pc[k]) && MayEat(s.mood, i)
    ensures Inv(Test(s, i)) && Test(s, i).pc[k] == s.pc[k]
    ensures Test(s, i).mood[i] == Eating
    ensures s.pc[i] == ForkWait ==> Test(s, i).pc[i] == ForkWoken
  {
    var n, s' := |s.pc|, Test(s, i);
    ApartAfterTest(s.mood, i);
    assert Seat(s.pc[i], s.mood[i], s.sems[i], i);
    Alone(s, k, i);
    assert s.pc[i] == T4 || s.pc[i] == ForkWait;
    forall j | 0 <= j < n ensures Justified(s', j) {
      assert Justified(s, j);
    }
    SameInside(s, s', k);
  }

  /** The one inside moves past a test that does not let the neighbour eat. */
  lemma TestedMove(s: Sys, k: nat, x: Pc, i: nat)
    requires Inv(s) && k < |s.pc| && i < |s.pc| && !MayEat(s.mood, i)
    requires (s.pc[k] == P2 && x == P3 && i == Left(k, |s.pc|)) || (s.pc[k] == P3 && x == P4 && i == Right(k, |s.pc|))
    ensures Inv(SetPc(s, k, x))
  {
    var n, s' := |s.pc|, SetPc(s, k, x);
    forall j | 0 <= j < n ensures Justified(s', j) {
      assert Justified(s, j);
      Neighbours(j, n);
    }
    SameInside(s, s', k);
  }

  lemma TestNeighbourKeeps(s: Sys, k: nat, x: Pc, i: nat)
    requires Inv(s) && k < |s.pc|
    requires (s.pc[k] == P2 && x == P3 && i == Left(k, |s.pc|)) || (s.pc[k] == P3 && x == P4 && i == Right(k, |s.pc|))
    ensures Inv(SetPc(Test(s, i), k, x))
  {
    Neighbours(k, |s.pc|);
    if MayEat(s.mood, i) {
      GrantKeeps(s, i, k);
    }
    TestedMove(Test(s, i), k, x, i);
  }

  lemma ForkKeeps(s: Sys, i: nat)
    requires Inv(s) && CanStep(s, i) && s.pc[i] == T4
    ensures Inv(Step(s, i))
  {
    var s' := Step(s, i);
    assert Seat(s.pc[i], s.mood[i], s.sems[i], i);
    forall j | 0 <= j < |s.pc| ensures Justified(s', j) {
      assert Justified(s, j);
    }
    MoveInside(s.pc, i, s'.pc[i]);
  }

  lemma StepKeeps(s: Sys, i: nat)
    requires Inv(s) && CanStep(s, i)
    ensures Inv(Step(s, i))
  {
    assert Seat(s.pc[i], s.mood[i], s.sems[i], i);
    match s.pc[i]
    case Think => EnterKeeps(s, i, T1, TakeWait);
    case TakeWoken => PlainMove(s, i, T1);
    case T1 => HungryKeeps(s, i);
    case T2 => TestSelfKeeps(s, i);
    case T3 => ExitKeeps(s, i, T4);
    case T4 => ForkKeeps(s, i);
    case ForkWoken => PlainMove(s, i, Eat);
    case Eat => EnterKeeps(s, i, P1, PutWait);
    case PutWoken => PlainMove(s, i, P1);
    case P1 => RiseKeeps(s, i);
    case P2 => TestNeighbourKeeps(s, i, P3, Left(i, |s.pc|));
    case P3 => TestNeighbourKeeps(s, i, P4, Right(i, |s.pc|));
    case P4 => ExitKeeps(s, i, Think);
    case _ =>
  }

  // ---------------------------------------------------------------- every run

  /** A run is the sequence of philosophers that take the next step. */
  ghost predicate Legal(s: Sys, run: seq<nat>)
    decreases |run|
  {
    run == [] || (CanStep(s, run[0]) && Legal(Step(s, run[0]), run[1..]))
  }

  ghost function Exec(s: Sys, run: seq<nat>): Sys
    requires Legal(s, run)
    decreases |run|
  {
    if run == [] then s else Exec(Step(s, run[0]), run[1..])
  }

  /** `test_phi_sem` before the philosophers start. */
  ghost predicate Start(s: Sys) {
    && Sized(s) && s.mutex == Sem(1, [])
    && forall i :: 0 <= i < |s.pc| ==> s.pc[i] == Think && s.mood[i] == Thinking && s.sems[i] == Sem(0, [])
  }

  lemma {:induction false} RunKeepsInvariant(s: Sys, run: seq<nat>)
    requires Inv(s) && Legal(s, run)
    ensures Inv(Exec(s, run))
    decreases |run|
  {
    if run != [] {
      StepKeeps(s, run[0]);
      RunKeepsInvariant(Step(s, run[0]), run[1..]);
    }
  }

  /** Past `take_forks` and before the end of the meal. */
  predicate AtTable(x: Pc) { x == Eat || x == PutWait || x == PutWoken || x == P1 }

  /** In every reachable state: neighbours do not eat together; a philosopher
      whose `take_forks` has returned eats until his `put_forks`; when the mutex
      is free every hungry one has an eating neighbour; and nobody who has been
      given the forks is left asleep. */
  lemma Safety(s: Sys, run: seq<nat>, i: nat)
    requires Start(s) && Legal(s, run)
    requires i < |Exec(s, run).pc|
    ensures
      var r := Exec(s, run);
      && Sized(r)
      && (r.mood[i] == Eating ==> !EatingNeighbour(r.mood, i))
      && (AtTable(r.pc[i]) ==> r.mood[i] == Eating)
      && (r.mutex.value > 0 && r.mood[i] == Hungry ==> EatingNeighbour(r.mood, i))
      && (r.pc[i] == ForkWait ==> r.mood[i] == Hungry && r.sems[i].queue == [i])
  {
    assert InsideSet(s.pc) == {};
    assert Inv(s);
    RunKeepsInvariant(s, run);
    var r := Exec(s, run);
    assert Seat(r.pc[i], r.mood[i], r.sems[i], i);
    if r.mutex.value > 0 && r.mood[i] == Hungry { HungryJustified(r, i); }
  }

  lemma HungryJustified(s: Sys, i: nat)
    requires Inv(s) && s.mutex.value > 0 && i < |s.pc| && s.mood[i] == Hungry
    ensures EatingNeighbour(s.mood, i)
  {
    assert Justified(s, i);
    assert InsideSet(s.pc) == {};
    forall j | 0 <= j < |s.pc| ensures !Inside(s.pc[j]) { assert j !in InsideSet(s.pc); }
  }

  // ------------------------------------------------------ how many steps a meal takes

  /** The fewest steps of his own that bring a philosopher here from before take_forks;
      once the meal is over, it is counted down to the end of put_forks. */
  function Fewest(x: Pc): int {
    match x
    case Think => 0
    case TakeWait => 1
    case TakeWoken => 1
    case T1 => 1
    case T2 => 2
    case T3 => 3
    case T4 => 4
    case ForkWait => 5
    case ForkWoken => 5
    case Eat => 5
    case PutWait => 6
    case PutWoken => 6
    case P1 => 6
    case P2 => -3
    case P3 => -2
    case P4 => -1
  }

  /** The most, with three calls of down that block. */
  function Most(x: Pc): int {
    match x
    case Think => 0
    case TakeWait => 1
    case TakeWoken => 1
    case T1 => 2
    case T2 => 3
    case T3 => 4
    case T4 => 5
    case ForkWait => 6
    case ForkWoken => 6
    case Eat => 7
    case PutWait => 8
    case PutWoken => 8
    case P1 => 9
    case P2 => -3
    case P3 => -2
    case P4 => -1
  }

  /** Philosopher `i` ends a meal. */
  predicate Ate(mood: seq<Mood>, mood': seq<Mood>, i: nat) {
    i < |mood| && i < |mood'| && mood[i] == Eating && mood'[i] != Eating
  }

  /** All that others do to a philosopher: wake him up, or let him eat. */
  predicate Nudged(s: Sys, s': Sys, i: nat)
    requires i < |s.pc| && i < |s.mood|
  {
    && |s'.pc| == |s.pc| && |s'.mood| == |s.mood|
    && (s'.mood[i] == s.mood[i] || (MayEat(s.mood, i) && s'.mood[i] == Eating))
    && (s'.pc[i] == s.pc[i]
        || (s.pc[i] == TakeWait && s'.pc[i] == TakeWoken)
        || (s.pc[i] == PutWait && s'.pc[i] == PutWoken)
        || (s.pc[i] == ForkWait && s'.pc[i] == ForkWoken && s'.mood[i] == Eating))
  }

  lemma TestNudges(s: Sys, k: nat, i: nat)
    requires Sized(s) && k < |s.pc| && i < |s.pc|
    requires Seat(s.pc[k], s.mood[k], s.sems[k], k)
    ensures Nudged(s, Test(s, k), i)
  {
  }

  lemma UpMutexNudges(s: Sys, i: nat)
    requires Sized(s) && i < |s.pc| && MutexQueue(s.mutex, s.pc)
    ensures Nudged(s, UpMutex(s), i)
  {
    if s.mutex.queue != [] { assert s.mutex.queue[0] in s.mutex.queue; }
  }

  /** A philosopher is one step further. */
  predicate Forward(s: Sys, s': Sys, i: nat)
    requires i < |s.pc|
  {
    && |s'.pc| == |s.pc|
    && Fewest(s'.pc[i]) + 10 * Bit(Ate(s.mood, s'.mood, i)) <= Fewest(s.pc[i]) + 1
    && Most(s'.pc[i]) + 13 * Bit(Ate(s.mood, s'.mood, i)) >= Most(s.pc[i]) + 1
  }

  /** Every step of his own takes a philosopher forward. */
  lemma OwnStep(s: Sys, i: nat)
    requires Inv(s) && CanStep(s, i)
    ensures Forward(s, Step(s, i), i)
  {
    var x, n := s.pc[i], |s.pc|;
    assert Seat(x, s.mood[i], s.sems[i], i);
    if x == T2 || x == P2 || x == P3 {
      var k := if x == T2 then i else if x == P2 then Left(i, n) else Right(i, n);
      assert Seat(s.pc[k], s.mood[k], s.sems[k], k);
      TestNudges(s, k, i);
      OwnTest(s, i, k);
    } else if x == T3 || x == P4 {
      var s1 := SetPc(s, i, if x == T3 then T4 else Think);
      ExitSeats(s, s1);
      UpMutexNudges(s1, i);
      OwnUp(s, s1, i);
    } else {
      OwnPlain(s, i);
    }
  }

  lemma OwnTest(s: Sys, i: nat, k: nat)
    requires CanStep(s, i) && k < |s.pc| && Nudged(s, Test(s, k), i)
    requires (s.pc[i] == T2 && k == i) || (s.pc[i] == P2 && k == Left(i, |s.pc|)) ||
      (s.pc[i] == P3 && k == Right(i, |s.pc|))
    ensures Forward(s, Step(s, i), i)
  {
  }

  lemma OwnUp(s: Sys, s1: Sys, i: nat)
    requires CanStep(s, i) && (s.pc[i] == T3 || s.pc[i] == P4)
    requires s1 == SetPc(s, i, if s.pc[i] == T3 then T4 else Think) && Nudged(s1, UpMutex(s1), i)
    ensures Forward(s, Step(s, i), i)
  {
  }

  lemma OwnPlain(s: Sys, i: nat)
    requires CanStep(s, i) && Seat(s.pc[i], s.mood[i], s.sems[i], i)
    requires s.pc[i] != T2 && s.pc[i] != P2 && s.pc[i] != P3 && s.pc[i] != T3 && s.pc[i] != P4
    ensures Forward(s, Step(s, i), i)
  {
  }

  lemma OthersStep(s: Sys, j: nat, i: nat)
    requires Inv(s) && CanStep(s, j) && i < |s.pc| && i != j
    ensures Nudged(s, Step(s, j), i)
  {
    var x := s.pc[j];
    if x == T2 || x == P2 || x == P3 {
      var k := if x == T2 then j else if x == P2 then Left(j, |s.pc|) else Right(j, |s.pc|);
      assert Seat(s.pc[k], s.mood[k], s.sems[k], k);
      TestNudges(s, k, i);
    } else if x == T3 || x == P4 {
      var s1 := SetPc(s, j, if x == T3 then T4 else Think);
      ExitSeats(s, s1);
      UpMutexNudges(s1, i);
    }
  }

  function Steps(run: seq<nat>, i: nat): nat {
    if run == [] then 0 else Bit(run[0] == i) + Steps(run[1..], i)
  }

  ghost function Meals(s: Sys, run: seq<nat>, i: nat): nat
    requires Legal(s, run)
    decreases |run|
  {
    if run == [] then 0 else Bit(Ate(s.mood, Step(s, run[0]).mood, i)) + Meals(Step(s, run[0]), run[1..], i)
  }

  lemma NudgedCounts(s: Sys, s': Sys, i: nat)
    requires i < |s.pc| && i < |s.mood| && Nudged(s, s', i)
    ensures i < |s'.pc| && !Ate(s.mood, s'.mood, i)
    ensures Fewest(s'.pc[i]) == Fewest(s.pc[i]) && Most(s'.pc[i]) == Most(s.pc[i])
  {
  }

  /** One step of anybody, in the accounts of philosopher `i`. */
  lemma AnyStep(s: Sys, j: nat, i: nat)
    requires Inv(s) && CanStep(s, j) && i < |s.pc|
    ensures
      var s' := Step(s, j);
      && i < |s'.pc|
      && Fewest(s'.pc[i]) + 10 * Bit(Ate(s.mood, s'.mood, i)) <= Fewest(s.pc[i]) + Bit(j == i)
      && Most(s'.pc[i]) + 13 * Bit(Ate(s.mood, s'.mood, i)) >= Most(s.pc[i]) + Bit(j == i)
  {
    if j == i {
      OwnStep(s, i);
    } else {
      OthersStep(s, j, i);
      NudgedCounts(s, Step(s, j), i);
    }
  }

  lemma {:induction false} MealsFrom(s: Sys, run: seq<nat>, i: nat)
    requires Inv(s) && Legal(s, run) && i < |s.pc|
    ensures
      var r := Exec(s, run);
      && i < |r.pc|
      && Fewest(r.pc[i]) + 10 * Meals(s, run, i) <= Fewest(s.pc[i]) + Steps(run, i)
      && Most(r.pc[i]) + 13 * Meals(s, run, i) >= Most(s.pc[i]) + Steps(run, i)
    decreases |run|
  {
    if run != [] {
      StepKeeps(s, run[0]);
      AnyStep(s, run[0], i);
      MealsFrom(Step(s, run[0]), run[1..], i);
    }
  }

  /** However the philosophers take turns, each eats once in every 13 of his own steps,
      and at most once in 10. */
  lemma StepsPerMeal(s: Sys, run: seq<nat>, i: nat)
    requires Start(s) && Legal(s, run) && i < |s.pc|
    ensures 10 * Meals(s, run, i) - 3 <= Steps(run, i) <= 13 * Meals(s, run, i) + 9
  {
    assert InsideSet(s.pc) == {};
    assert Inv(s);
    MealsFrom(s, run, i);
  }

  ghost predicate Runs(s: Sys, run: seq<nat>, s': Sys, i: nat, meals: nat) {
    Legal(s, run) && Exec(s, run) == s' && Meals(s, run, i) == meals
  }

  lemma OneMore(s: Sys, run: seq<nat>, s1: Sys, s': Sys, i: nat, meals: nat)
    requires CanStep(s, i) && Step(s, i) == s1 && Runs(s1, run, s', i, meals)
    ensures Runs(s, [i] + run, s', i, meals + Bit(Ate(s.mood, s1.mood, i)))
  {
    var more := [i] + run;
    assert more[0] == i && more[1..] == run;
  }

  /** The table when nobody but `i` has done anything yet. */
  ghost function Only(s: Sys, i: nat, x: Pc, mood: Mood, mutex: nat, fork: nat): Sys
    requires Sized(s) && i < |s.pc|
  {
    Sys(s.mood[i := mood], Sem(mutex, []), s.sems[i := Sem(fork, [])], s.pc[i := x])
  }

  /** Taking the forks with nobody else about. */
  lemma TakeAlone(s: Sys, i: nat)
    requires Start(s) && i < |s.pc|
    ensures CanStep(s, i) && Step(s, i) == Only(s, i, T1, Thinking, 0, 0)
    ensures Step(Only(s, i, T1, Thinking, 0, 0), i) == Only(s, i, T2, Hungry, 0, 0)
    ensures Step(Only(s, i, T2, Hungry, 0, 0), i) == Only(s, i, T3, Eating, 0, 1)
    ensures Step(Only(s, i, T3, Eating, 0, 1), i) == Only(s, i, T4, Eating, 1, 1)
    ensures Step(Only(s, i, T4, Eating, 1, 1), i) == Only(s, i, Eat, Eating, 1, 0)
  {
    Neighbours(i, |s.pc|);
  }

  /** Putting them back. */
  lemma PutAlone(s: Sys, i: nat)
    requires Start(s) && i < |s.pc|
    ensures Step(Only(s, i, Eat, Eating, 1, 0), i) == Only(s, i, P1, Eating, 0, 0)
    ensures Step(Only(s, i, P1, Eating, 0, 0), i) == Only(s, i, P2, Thinking, 0, 0)
    ensures Step(Only(s, i, P4, Thinking, 0, 0), i) == s
  {
    assert Only(s, i, Think, Thinking, 1, 0) == s;
  }

  /** Nobody is hungry, so the tests do nothing. */
  lemma TestAlone(s: Sys, i: nat)
    requires Start(s) && i < |s.pc|
    ensures Step(Only(s, i, P2, Thinking, 0, 0), i) == Only(s, i, P3, Thinking, 0, 0)
    ensures Step(Only(s, i, P3, Thinking, 0, 0), i) == Only(s, i, P4, Thinking, 0, 0)
  {
  }

  lemma FiveMore(s0: Sys, s1: Sys, s2: Sys, s3: Sys, s4: Sys, s5: Sys, run: seq<nat>, s': Sys, i: nat, meals: nat,
      last: nat)
    requires CanStep(s0, i) && Step(s0, i) == s1 && CanStep(s1, i) && Step(s1, i) == s2
    requires CanStep(s2, i) && Step(s2, i) == s3 && CanStep(s3, i) && Step(s3, i) == s4
    requires CanStep(s4, i) && Step(s4, i) == s5 && Runs(s5, run, s', i, meals)
    requires !Ate(s0.mood, s1.mood, i) && !Ate(s2.mood, s3.mood, i)
    requires !Ate(s3.mood, s4.mood, i) && !Ate(s4.mood, s5.mood, i)
    requires last == meals + Bit(Ate(s1.mood, s2.mood, i))
    ensures Runs(s0, [i] + ([i] + ([i] + ([i] + ([i] + run)))), s', i, last)
  {
    OneMore(s4, run, s5, s', i, meals);
    var run1 := [i] + run;
    OneMore(s3, run1, s4, s', i, meals);
    var run2 := [i] + run1;
    OneMore(s2, run2, s3, s', i, meals);
    var run3 := [i] + run2;
    OneMore(s1, run3, s2, s', i, meals);
    var run4 := [i] + run3;
    OneMore(s0, run4, s1, s', i, last);
  }

  /** Alone at the table a philosopher eats in 10 steps, and leaves it as it was. */
  lemma MealAlone(s: Sys, i: nat)
    requires Start(s) && i < |s.pc|
    ensures Runs(s, [i, i, i, i, i, i, i, i, i, i], s, i, 1)
  {
    TakeAlone(s, i);
    PutAlone(s, i);
    TestAlone(s, i);
    var eats, none: seq<nat> := Only(s, i, Eat, Eating, 1, 0), [];
    assert Runs(s, none, s, i, 0);
    FiveMore(eats, Only(s, i, P1, Eating, 0, 0), Only(s, i, P2, Thinking, 0, 0), Only(s, i, P3, Thinking, 0, 0),
      Only(s, i, P4, Thinking, 0, 0), s, none, s, i, 0, 1);
    var put := [i] + ([i] + ([i] + ([i] + ([i] + none))));
    FiveMore(s, Only(s, i, T1, Thinking, 0, 0), Only(s, i, T2, Hungry, 0, 0), Only(s, i, T3, Eating, 0, 1),
      Only(s, i, T4, Eating, 1, 1), eats, put, s, i, 1, 1);
    assert [i] + ([i] + ([i] + ([i] + ([i] + put)))) == [i, i, i, i, i, i, i, i, i, i];
  }
}
