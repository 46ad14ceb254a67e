/** Dining philosophers with the monitor (kernel/sync/test_phi.c:178-212), for
    any number of seats, over the monitor of module Monitor with its real
    semaphores and wait queues. */
module PhilMonitor {
  import opened Semaphore
  import opened Sets
  import opened Table
  import M = Monitor

  /** How far a philosopher is; `mon.pc` says whether he runs, waits or is woken there. */
  datatype Stage =
    | Idle       // before take_forks
    | TakeIn     // entered (or entering) take_forks; next: state = HUNGRY
    | TakeTest   // next: phi_test(self)
    | TakeCheck  // next: wait_cond if still HUNGRY
    | TakeOut    // in wait_cond, or past it; next: release the monitor
    | Dine       // take_forks has returned
    | PutIn      // entered (or entering) put_forks; next: state = THINKING
    | PutLeft    // next: phi_test(left)
    | PutRight   // in signal_cond for left, or past it; next: phi_test(right)
    | PutOut     // in signal_cond for right, or past it; next: release the monitor

  datatype Sys = Sys(mon: M.Mon, mood: seq<Mood>, stage: seq<Stage>)

  ghost predicate Sized(s: Sys) {
    && |s.mood| == |s.stage| == |s.mon.conds| && |s.stage| >= 2
    && (forall i: nat :: i in s.mon.pc <==> i < |s.stage|)
  }

  /** `phi_test_cond(k)` as philosopher `i` executes it. */
  function Test(s: Sys, i: nat, k: nat): Sys
    requires Sized(s) && k < |s.stage|
  {
    if MayEat(s.mood, k) then s.(mood := s.mood[k := Eating], mon := M.Signal(s.mon, i, k)) else s
  }

  function At(s: Sys, i: nat, x: Stage): Sys
    requires i < |s.stage|
  {
    s.(stage := s.stage[i := x])
  }

  ghost predicate CanStep(s: Sys, i: nat) {
    && Sized(s) && i < |s.stage|
    && match s.mon.pc[i]
      case Outside => s.stage[i] == Idle || s.stage[i] == Dine
      case Active => s.stage[i] != Idle && s.stage[i] != Dine
      case WokenMutex => true
      case WokenNext => true
      case WokenCond(_) => true
      case _ => false
  }

  /** The next statement of philosopher `i`. */
  function Step(s: Sys, i: nat): Sys
    requires CanStep(s, i)
  {
    var n := |s.stage|;
    match s.mon.pc[i]
    case Outside => At(s.(mon := M.Enter(s.mon, i)), i, if s.stage[i] == Idle then TakeIn else PutIn)
    case Active => (
      match s.stage[i]
      case TakeIn => At(s.(mood := s.mood[i := Hungry]), i, TakeTest)
      case TakeTest => At(Test(s, i, i), i, TakeCheck)
      case TakeCheck =>
        At(if s.mood[i] == Hungry then s.(mon := M.Wait(s.mon, i, i)) else s, i, TakeOut)
      case TakeOut => At(s.(mon := M.Leave(s.mon, i)), i, Dine)
      case PutIn => At(s.(mood := s.mood[i := Thinking]), i, PutLeft)
      case PutLeft => At(Test(s, i, Left(i, n)), i, PutRight)
      case PutRight => At(Test(s, i, Right(i, n)), i, PutOut)
      case PutOut => At(s.(mon := M.Leave(s.mon, i)), i, Idle)
      case _ => s)
    case _ => s.(mon := M.Resume(s.mon, i))
  }

  // ---------------------------------------------------------------- invariant

  /** What is known of a philosopher from his stage. */
  predicate Seat(x: Stage, pc: M.Pc, mood: Mood, i: nat) {
    match x
    case Idle => pc == M.Outside && mood == Thinking
    case TakeIn => (pc == M.WaitMutex || pc == M.WokenMutex || pc == M.Active) && mood == Thinking
    case TakeTest => pc == M.Active && mood == Hungry
    case TakeCheck => pc == M.Active && mood != Thinking
    case TakeOut =>
      (pc == M.WaitCond(i) && mood == Hungry) || ((pc == M.WokenCond(i) || pc == M.Active) && mood == Eating)
    case Dine => pc == M.Outside && mood == Eating
    case PutIn => (pc == M.WaitMutex || pc == M.WokenMutex || pc == M.Active) && mood == Eating
    case PutLeft => pc == M.Active && mood == Thinking
    case PutRight => (pc == M.WaitNext || pc == M.WokenNext || pc == M.Active) && mood == Thinking
    case PutOut => (pc == M.WaitNext || pc == M.WokenNext || pc == M.Active) && mood == Thinking
  }

  predicate TestDue(stage: seq<Stage>, i: nat)
    requires i < |stage|
  {
    var l, r := Left(i, |stage|), Right(i, |stage|);
    stage[i] == TakeTest || stage[r] == PutLeft || stage[l] == PutLeft || stage[l] == PutRight
  }

  /** Nobody is hungry in vain: a neighbour eats, or a test is on its way. */
  predicate Justified(s: Sys, i: nat)
    requires Sized(s) && i < |s.stage|
  {
    s.mood[i] == Hungry ==> EatingNeighbour(s.mood, i) || TestDue(s.stage, i)
  }

  /** Waiters and signallers are still in their queues, so they can be woken. */
  predicate Reachable(mon: M.Mon, i: nat)
    requires i in mon.pc && i < |mon.conds|
  {
    && (mon.pc[i] == M.WaitCond(i) ==> i in mon.conds[i].sem.queue)
    && (mon.pc[i] == M.WaitNext ==> i in mon.next.queue && mon.mutex.value == 0)
  }

  /** While a signaller waits, the monitor belongs to a philosopher on his way
      out of `take_forks`; so no second signal can happen. */
  predicate Handed(s: Sys, k: nat, h: nat)
    requires Sized(s) && k < |s.stage| && h < |s.stage|
  {
    && (s.mon.pc[k] == M.WaitNext && M.HasToken(s.mon.pc[h]) ==> s.stage[h] == TakeOut)
    && (s.mon.pc[k] == M.WaitNext && s.mon.pc[h] == M.WaitNext ==> k == h)
  }

  /** The part of the invariant that is about philosophers. */
  ghost predicate Rules(s: Sys) {
    var rules :=
      && Sized(s)
      && Apart(s.mood)
      && (forall i :: 0 <= i < |s.stage| ==> Seat(s.stage[i], s.mon.pc[i], s.mood[i], i))
      && (forall i :: 0 <= i < |s.stage| ==> Reachable(s.mon, i))
      && (forall i :: 0 <= i < |s.stage| ==> Justified(s, i))
      && (forall k, h :: 0 <= k < |s.stage| && 0 <= h < |s.stage| ==> Handed(s, k, h));
    rules
  }

  ghost predicate Inv(s: Sys) {
    M.Inv(s.mon) && Rules(s)
  }

  // ------------------------------------------------------------ consequences

  lemma Alone(s: Sys, i: nat, j: nat)
    requires Inv(s) && i < |s.stage| && j < |s.stage| && M.HasToken(s.mon.pc[i])
    ensures M.HasToken(s.mon.pc[j]) ==> i == j
    ensures s.mon.mutex.value == 0 && s.mon.next.value == 0 && s.mon.conds[j].sem.value == 0
  {
    M.TokenElsewhere(s.mon, i);
  }

  /** The count of a condition is one if its philosopher waits there, else zero. */
  lemma CountIs(s: Sys, i: nat)
    requires Inv(s) && i < |s.stage|
    ensures s.mon.conds[i].count == Bit(M.WaitsOn(s.mon.pc[i], i))
  {
    assert M.CondOk(s.mon.conds[i], s.mon.pc, i);
    var w := M.Waiters(s.mon.pc, i);
    forall p | p in w ensures p == i {
      assert Seat(s.stage[p], s.mon.pc[p], s.mood[p], p);
    }
    assert w == if i in w then {i} else {};
  }

  /** A philosopher who runs inside, other than on his way out of `take_forks`,
      has no signaller waiting behind him. */
  lemma NoSignaller(s: Sys, i: nat)
    requires Inv(s) && i < |s.stage| && s.mon.pc[i] == M.Active && s.stage[i] != TakeOut
    ensures s.mon.nextCount == 0
    ensures forall k :: 0 <= k < |s.stage| ==> s.mon.pc[k] != M.WaitNext
  {
    forall k | 0 <= k < |s.stage| ensures !M.Signals(s.mon.pc[k]) {
      assert Handed(s, k, i);
      Alone(s, i, k);
    }
    assert M.Signallers(s.mon.pc) == {};
  }

  /** At most one signaller is pending, in every state. */
  lemma NextCountBound(s: Sys)
    requires Inv(s)
    ensures s.mon.nextCount <= 1
  {
    var g := M.Signallers(s.mon.pc);
    if g != {} {
      var k :| k in g;
      forall h | h in g ensures h == k {
        assert Handed(s, k, h) && Handed(s, h, k);
        assert Seat(s.stage[h], s.mon.pc[h], s.mood[h], h) && Seat(s.stage[k], s.mon.pc[k], s.mood[k], k);
        if M.HasToken(s.mon.pc[k]) { Alone(s, k, h); }
      }
      assert g == {k};
    }
  }

  ghost predicate NobodySignals(s: Sys)
    requires Sized(s)
  {
    forall k :: 0 <= k < |s.stage| ==> s.mon.pc[k] != M.WaitNext
  }

  /** Moods and pending tests that stay keep everybody's reason to be hungry. */
  lemma JustifiedFrame(s: Sys, s': Sys)
    requires Rules(s) && Sized(s') && s'.mood == s.mood
    requires forall k :: 0 <= k < |s.stage| && s.stage[k] in {TakeTest, PutLeft, PutRight} ==>
      s'.stage[k] == s.stage[k]
    ensures forall j :: 0 <= j < |s'.stage| ==> Justified(s', j)
  {
    forall j | 0 <= j < |s'.stage| ensures Justified(s', j) { assert Justified(s, j); }
  }

  // --------------------------------------------------------------- every step

  lemma EnterRules(s: Sys, i: nat)
    requires Rules(s) && CanStep(s, i) && s.mon.pc[i] == M.Outside
    ensures Rules(Step(s, i))
  {
    var s' := Step(s, i);
    JustifiedFrame(s, s');
    forall j | 0 <= j < |s.stage| ensures Seat(s'.stage[j], s'.mon.pc[j], s'.mood[j], j) && Reachable(s'.mon, j) {
      assert Seat(s.stage[j], s.mon.pc[j], s.mood[j], j) && Reachable(s.mon, j);
    }
    forall k, h | 0 <= k < |s.stage| && 0 <= h < |s.stage| ensures Handed(s', k, h) {
      assert Handed(s, k, h) && Reachable(s.mon, k);
    }
  }

  lemma ResumeRules(s: Sys, i: nat)
    requires Rules(s) && CanStep(s, i) && s.mon.pc[i] != M.Outside && s.mon.pc[i] != M.Active
    ensures Rules(Step(s, i))
  {
    var s' := Step(s, i);
    assert Seat(s.stage[i], s.mon.pc[i], s.mood[i], i);
    JustifiedFrame(s, s');
    forall j | 0 <= j < |s.stage| ensures Seat(s'.stage[j], s'.mon.pc[j], s'.mood[j], j) && Reachable(s'.mon, j) {
      assert Seat(s.stage[j], s.mon.pc[j], s.mood[j], j) && Reachable(s.mon, j);
    }
    forall k, h | 0 <= k < |s.stage| && 0 <= h < |s.stage| ensures Handed(s', k, h) {
      assert Handed(s, k, h);
    }
  }

  /** Steps that touch only the running philosopher's mood and stage. */
  lemma MoodRules(s: Sys, i: nat)
    requires Rules(s) && CanStep(s, i) && s.mon.pc[i] == M.Active && (s.stage[i] == TakeIn || s.stage[i] == PutIn)
    requires NobodySignals(s)
    ensures Rules(Step(s, i))
  {
    var n, s' := |s.stage|, Step(s, i);
    ApartAfterRise(s.mood, i, s'.mood[i]);
    forall j | 0 <= j < n ensures Justified(s', j) && Seat(s'.stage[j], s'.mon.pc[j], s'.mood[j], j) {
      assert Justified(s, j) && Seat(s.stage[j], s.mon.pc[j], s.mood[j], j);
      Neighbours(j, n);
    }
    forall j | 0 <= j < n ensures Reachable(s'.mon, j) { assert Reachable(s.mon, j); }
  }

  /** `phi_test(self)`: the signal to oneself does nothing, for nobody waits there. */
  lemma TestSelfRules(s: Sys, i: nat)
    requires Rules(s) && CanStep(s, i) && s.mon.pc[i] == M.Active && s.stage[i] == TakeTest
    requires NobodySignals(s) && s.mon.conds[i].count == 0
    ensures Rules(Step(s, i)) && Step(s, i).mon == s.mon
  {
    var n, s' := |s.stage|, Step(s, i);
    if MayEat(s.mood, i) { ApartAfterTest(s.mood, i); }
    forall j | 0 <= j < n ensures Justified(s', j) && Seat(s'.stage[j], s'.mon.pc[j], s'.mood[j], j) {
      assert Justified(s, j) && Seat(s.stage[j], s.mon.pc[j], s.mood[j], j);
    }
    forall j | 0 <= j < n ensures Reachable(s'.mon, j) { assert Reachable(s.mon, j); }
  }

  /** What a release of the monitor does to the others. */
  lemma ReleaseEffect(m: M.Mon, j: Pid)
    requires M.WellFormed(m) && j in m.pc
    ensures
      var r := M.Release(m);
      && j in r.pc && r.conds == m.conds
      && (r.pc[j] == m.pc[j]
          || (m.pc[j] == M.WaitMutex && r.pc[j] == M.WokenMutex && m.nextCount <= 0)
          || (m.pc[j] == M.WaitNext && r.pc[j] == M.WokenNext && m.nextCount > 0))
  {
    if m.mutex.queue != [] { assert m.mutex.queue[0] in m.mutex.queue; }
    if m.next.queue != [] { assert m.next.queue[0] in m.next.queue; }
  }

  lemma LeaveEffect(m: M.Mon, i: Pid, j: Pid)
    requires M.Inv(m) && i in m.pc && m.pc[i] == M.Active && j in m.pc && j != i
    ensures
      var r := M.Leave(m, i);
      && i in r.pc && r.pc[i] == M.Outside
      && j in r.pc && r.conds == m.conds
      && (r.pc[j] == m.pc[j]
          || (m.pc[j] == M.WaitMutex && r.pc[j] == M.WokenMutex && m.nextCount <= 0)
          || (m.pc[j] == M.WaitNext && r.pc[j] == M.WokenNext && m.nextCount > 0))
  {
    M.MoveFree(m, i, M.Outside, m.nextCount);
    var m1 := m.(pc := m.pc[i := M.Outside]);
    ReleaseEffect(m1, j);
    ReleaseEffect(m1, i);
  }

  /** Leaving with a signaller pending wakes him, and then nobody waits in `next`. */
  lemma LeaveServesSignaller(s: Sys, i: nat)
    requires Inv(s) && i < |s.stage| && s.mon.pc[i] == M.Active
    ensures forall k :: 0 <= k < |s.stage| ==> M.Leave(s.mon, i).pc[k] != M.WaitNext
  {
    var m := s.mon;
    forall k | 0 <= k < |s.stage| ensures M.Leave(m, i).pc[k] != M.WaitNext {
      if k == i {
        var j := if i == 0 then 1 else 0;
        LeaveEffect(m, i, j);
      } else {
        LeaveEffect(m, i, k);
        if m.pc[k] == M.WaitNext {
          assert k in M.Signallers(m.pc);
          assert m.nextCount > 0;
          assert Reachable(m, k);
          var q := m.next.queue[0];
          assert q in m.next.queue;
          assert Handed(s, k, q);
        }
      }
    }
  }

  lemma LeaveRules(s: Sys, i: nat, m': M.Mon, x: Stage)
    requires Rules(s) && i < |s.stage| && s.mon.pc[i] == M.Active
    requires (s.stage[i] == TakeOut && x == Dine) || (s.stage[i] == PutOut && x == Idle)
    requires m'.pc.Keys == s.mon.pc.Keys && m'.conds == s.mon.conds && m'.pc[i] == M.Outside
    requires forall j :: 0 <= j < |s.stage| && j != i ==>
      || m'.pc[j] == s.mon.pc[j]
      || (s.mon.pc[j] == M.WaitMutex && m'.pc[j] == M.WokenMutex)
      || (s.mon.pc[j] == M.WaitNext && m'.pc[j] == M.WokenNext)
    requires forall k :: 0 <= k < |s.stage| ==> m'.pc[k] != M.WaitNext
    ensures Rules(At(s.(mon := m'), i, x))
  {
    var n, s' := |s.stage|, At(s.(mon := m'), i, x);
    JustifiedFrame(s, s');
    forall j | 0 <= j < n ensures Seat(s'.stage[j], s'.mon.pc[j], s'.mood[j], j) && Reachable(s'.mon, j) {
      assert Seat(s.stage[j], s.mon.pc[j], s.mood[j], j) && Reachable(s.mon, j);
    }
  }

  lemma LeaveKeeps(s: Sys, i: nat)
    requires Inv(s) && CanStep(s, i) && s.mon.pc[i] == M.Active && (s.stage[i] == TakeOut || s.stage[i] == PutOut)
    ensures Inv(Step(s, i))
  {
    var m' := M.Leave(s.mon, i);
    M.LeaveKeeps(s.mon, i);
    LeaveAll(s, i, m');
    LeaveServesSignaller(s, i);
    LeaveRules(s, i, m', if s.stage[i] == TakeOut then Dine else Idle);
    StepLeaves(s, i);
  }

  lemma StepLeaves(s: Sys, i: nat)
    requires CanStep(s, i) && s.mon.pc[i] == M.Active && (s.stage[i] == TakeOut || s.stage[i] == PutOut)
    ensures Step(s, i) == At(s.(mon := M.Leave(s.mon, i)), i, if s.stage[i] == TakeOut then Dine else Idle)
  {
  }

  lemma LeaveAll(s: Sys, i: nat, m': M.Mon)
    requires Inv(s) && i < |s.stage| && s.mon.pc[i] == M.Active && m' == M.Leave(s.mon, i)
    ensures m'.pc.Keys == s.mon.pc.Keys && m'.pc[i] == M.Outside && m'.conds == s.mon.conds
    ensures forall j :: 0 <= j < |s.stage| && j != i ==>
      || m'.pc[j] == s.mon.pc[j]
      || (s.mon.pc[j] == M.WaitMutex && m'.pc[j] == M.WokenMutex)
      || (s.mon.pc[j] == M.WaitNext && m'.pc[j] == M.WokenNext)
  {
    LeaveKeys(s.mon, i);
    LeaveEffect(s.mon, i, if i == 0 then 1 else 0);
    forall j | 0 <= j < |s.stage| && j != i
      ensures
        || m'.pc[j] == s.mon.pc[j]
        || (s.mon.pc[j] == M.WaitMutex && m'.pc[j] == M.WokenMutex)
        || (s.mon.pc[j] == M.WaitNext && m'.pc[j] == M.WokenNext)
    {
      LeaveEffect(s.mon, i, j);
    }
  }

  lemma LeaveKeys(m: M.Mon, i: Pid)
    requires M.Inv(m) && i in m.pc
    ensures M.Leave(m, i).pc.Keys == m.pc.Keys
  {
    if m.mutex.queue != [] { assert m.mutex.queue[0] in m.mutex.queue; }
    if m.next.queue != [] { assert m.next.queue[0] in m.next.queue; }
  }

  lemma WaitRules(s: Sys, i: nat, m': M.Mon)
    requires Rules(s) && i < |s.stage| && s.mon.pc[i] == M.Active && s.stage[i] == TakeCheck && s.mood[i] == Hungry
    requires NobodySignals(s)
    requires m'.pc.Keys == s.mon.pc.Keys && |m'.conds| == |s.mon.conds|
    requires m'.pc[i] == M.WaitCond(i) && i in m'.conds[i].sem.queue
    requires forall j :: 0 <= j < |s.stage| && j != i ==>
      && m'.conds[j] == s.mon.conds[j]
      && (m'.pc[j] == s.mon.pc[j] || (s.mon.pc[j] == M.WaitMutex && m'.pc[j] == M.WokenMutex))
    ensures Rules(At(s.(mon := m'), i, TakeOut))
  {
    var n, s' := |s.stage|, At(s.(mon := m'), i, TakeOut);
    JustifiedFrame(s, s');
    forall j | 0 <= j < n ensures Seat(s'.stage[j], s'.mon.pc[j], s'.mood[j], j) && Reachable(s'.mon, j) {
      assert Seat(s.stage[j], s.mon.pc[j], s.mood[j], j) && Reachable(s.mon, j);
    }
  }

  lemma WaitEffect(m: M.Mon, i: Pid, c: nat)
    requires M.Inv(m) && i in m.pc && m.pc[i] == M.Active && c < |m.conds| && m.nextCount == 0
    ensures
      var r := M.Wait(m, i, c);
      && r.pc.Keys == m.pc.Keys && |r.conds| == |m.conds|
      && (forall k :: 0 <= k < |m.conds| && k != c ==> r.conds[k] == m.conds[k])
      && (forall j :: j in m.pc && j != i ==>
            r.pc[j] == m.pc[j] || (m.pc[j] == M.WaitMutex && r.pc[j] == M.WokenMutex))
  {
    M.WaitKeeps(m, i, c);
    if m.mutex.queue != [] { assert m.mutex.queue[0] in m.mutex.queue; }
  }

  lemma CheckKeeps(s: Sys, i: nat)
    requires Inv(s) && CanStep(s, i) && s.mon.pc[i] == M.Active && s.stage[i] == TakeCheck
    ensures Inv(Step(s, i))
  {
    NoSignaller(s, i);
    assert Seat(s.stage[i], s.mon.pc[i], s.mood[i], i);
    if s.mood[i] == Hungry {
      M.WaitKeeps(s.mon, i, i);
      WaitEffect(s.mon, i, i);
      WaitRules(s, i, M.Wait(s.mon, i, i));
    } else {
      FedRules(s, i);
    }
  }

  lemma FedRules(s: Sys, i: nat)
    requires Rules(s) && i < |s.stage| && s.mon.pc[i] == M.Active && s.stage[i] == TakeCheck && s.mood[i] == Eating
    requires NobodySignals(s)
    ensures Rules(At(s, i, TakeOut))
  {
    var s' := At(s, i, TakeOut);
    JustifiedFrame(s, s');
    forall j | 0 <= j < |s.stage| ensures Seat(s'.stage[j], s'.mon.pc[j], s'.mood[j], j) && Reachable(s'.mon, j) {
      assert Seat(s.stage[j], s.mon.pc[j], s.mood[j], j) && Reachable(s.mon, j);
    }
  }

  /** `phi_test` finds the neighbour allowed to eat: he sleeps in `wait_cond`,
      alone on his condition, so the signal is not lost. */
  lemma GrantFinds(s: Sys, i: nat, k: nat)
    requires Inv(s) && i < |s.stage| && k < |s.stage| && k != i && s.mon.pc[i] == M.Active
    requires MayEat(s.mood, k)
    ensures s.stage[k] == TakeOut && s.mon.pc[k] == M.WaitCond(k) && s.mon.conds[k].count == 1
    ensures s.mon.conds[k].sem.queue != [] && s.mon.conds[k].sem.queue[0] == k
  {
    var m := s.mon;
    Alone(s, i, k);
    assert Seat(s.stage[k], m.pc[k], s.mood[k], k);
    CountIs(s, k);
    assert Reachable(m, k);
    assert M.CondOk(m.conds[k], m.pc, k);
    var q := m.conds[k].sem.queue[0];
    assert q in m.conds[k].sem.queue;
    assert Seat(s.stage[q], m.pc[q], s.mood[q], q);
  }

  /** The signal wakes exactly the waiter and parks the signaller. */
  lemma SignalEffect(m: M.Mon, i: Pid, k: nat)
    requires k < |m.conds| && k != i && m.conds[k].count == 1
    requires m.conds[k].sem.queue != [] && m.conds[k].sem.queue[0] == k
    requires m.next.value == 0 && m.mutex.value == 0
    ensures
      var r := M.Signal(m, i, k);
      && r.pc == m.pc[i := M.WaitNext][k := M.WokenCond(k)]
      && |r.conds| == |m.conds| && (forall j :: 0 <= j < |r.conds| && j != k ==> r.conds[j] == m.conds[j])
      && i in r.next.queue && r.mutex.value == 0
  {
  }

  lemma GrantRules(s: Sys, i: nat, k: nat, m': M.Mon)
    requires Rules(s) && i < |s.stage| && k < |s.stage| && k != i && s.mon.pc[i] == M.Active
    requires MayEat(s.mood, k) && s.stage[k] == TakeOut && s.mon.pc[k] == M.WaitCond(k)
    requires (s.stage[i] == PutLeft && k == Left(i, |s.stage|)) || (s.stage[i] == PutRight && k == Right(i, |s.stage|))
    requires NobodySignals(s)
    requires forall j :: 0 <= j < |s.stage| && j != i ==> !M.HasToken(s.mon.pc[j])
    requires m'.pc == s.mon.pc[i := M.WaitNext][k := M.WokenCond(k)] && |m'.conds| == |s.mon.conds|
    requires forall j :: 0 <= j < |m'.conds| && j != k ==> m'.conds[j] == s.mon.conds[j]
    requires i in m'.next.queue && m'.mutex.value == 0
    ensures Rules(At(s.(mood := s.mood[k := Eating], mon := m'), i, if s.stage[i] == PutLeft then PutRight else PutOut))
  {
    var s' := At(s.(mood := s.mood[k := Eating], mon := m'), i, if s.stage[i] == PutLeft then PutRight else PutOut);
    ApartAfterTest(s.mood, k);
    GrantJustified(s, i, k, s');
    GrantSeats(s, i, k, m', s');
    GrantHanded(s, i, k, m', s');
  }

  lemma GrantHanded(s: Sys, i: nat, k: nat, m': M.Mon, s': Sys)
    requires Sized(s) && Sized(s') && i < |s.stage| && k < |s.stage| && k != i && s.stage[k] == TakeOut &&
      NobodySignals(s)
    requires forall j :: 0 <= j < |s.stage| && j != i ==> !M.HasToken(s.mon.pc[j])
    requires m'.pc == s.mon.pc[i := M.WaitNext][k := M.WokenCond(k)]
    requires |s'.stage| == |s.stage| && s'.stage[k] == s.stage[k] && s'.mon == m'
    ensures forall j, h :: 0 <= j < |s.stage| && 0 <= h < |s.stage| ==> Handed(s', j, h)
  {
    forall j, h | 0 <= j < |s.stage| && 0 <= h < |s.stage| ensures Handed(s', j, h) {
      assert s'.mon.pc[j] == M.WaitNext ==> j == i;
      assert M.HasToken(s'.mon.pc[h]) ==> h == k;
    }
  }

  lemma GrantSeats(s: Sys, i: nat, k: nat, m': M.Mon, s': Sys)
    requires Rules(s) && i < |s.stage| && k < |s.stage| && k != i && s.mon.pc[i] == M.Active
    requires s.stage[k] == TakeOut && s.mon.pc[k] == M.WaitCond(k) && (s.stage[i] == PutLeft || s.stage[i] == PutRight)
    requires m'.pc == s.mon.pc[i := M.WaitNext][k := M.WokenCond(k)] && |m'.conds| == |s.mon.conds|
    requires forall j :: 0 <= j < |m'.conds| && j != k ==> m'.conds[j] == s.mon.conds[j]
    requires i in m'.next.queue && m'.mutex.value == 0 && NobodySignals(s)
    requires s' == At(s.(mood := s.mood[k := Eating], mon := m'), i, if s.stage[i] == PutLeft then PutRight else PutOut)
    ensures forall j :: 0 <= j < |s.stage| ==> Seat(s'.stage[j], s'.mon.pc[j], s'.mood[j], j) && Reachable(s'.mon, j)
  {
    forall j | 0 <= j < |s.stage| ensures Seat(s'.stage[j], s'.mon.pc[j], s'.mood[j], j) && Reachable(s'.mon, j) {
      assert Seat(s.stage[j], s.mon.pc[j], s.mood[j], j) && Reachable(s.mon, j);
    }
  }

  lemma GrantJustified(s: Sys, i: nat, k: nat, s': Sys)
    requires Rules(s) && Sized(s') && i < |s.stage| && k < |s.stage| && k != i
    requires (s.stage[i] == PutLeft && k == Left(i, |s.stage|) && s'.stage == s.stage[i := PutRight])
          || (s.stage[i] == PutRight && k == Right(i, |s.stage|) && s'.stage == s.stage[i := PutOut])
    requires s'.mood == s.mood[k := Eating]
    ensures forall j :: 0 <= j < |s.stage| ==> Justified(s', j)
  {
    forall j | 0 <= j < |s.stage| ensures Justified(s', j) {
      assert Justified(s, j);
      Neighbours(j, |s.stage|);
    }
  }

  lemma NoGrantRules(s: Sys, i: nat, k: nat)
    requires Rules(s) && i < |s.stage| && k < |s.stage| && s.mon.pc[i] == M.Active && !MayEat(s.mood, k)
    requires (s.stage[i] == PutLeft && k == Left(i, |s.stage|)) || (s.stage[i] == PutRight && k == Right(i, |s.stage|))
    requires NobodySignals(s)
    ensures Rules(At(s, i, if s.stage[i] == PutLeft then PutRight else PutOut))
  {
    var n, s' := |s.stage|, At(s, i, if s.stage[i] == PutLeft then PutRight else PutOut);
    forall j | 0 <= j < n ensures Justified(s', j) {
      assert Justified(s, j);
      Neighbours(j, n);
    }
    forall j | 0 <= j < n ensures Seat(s'.stage[j], s'.mon.pc[j], s'.mood[j], j) && Reachable(s'.mon, j) {
      assert Seat(s.stage[j], s.mon.pc[j], s.mood[j], j) && Reachable(s.mon, j);
    }
  }

  lemma GrantKeeps(s: Sys, i: nat, k: nat)
    requires Inv(s) && i < |s.stage| && k < |s.stage| && k != i && s.mon.pc[i] == M.Active && MayEat(s.mood, k)
    requires (s.stage[i] == PutLeft && k == Left(i, |s.stage|)) || (s.stage[i] == PutRight && k == Right(i, |s.stage|))
    ensures M.Inv(M.Signal(s.mon, i, k))
    ensures Rules(At(Test(s, i, k), i, if s.stage[i] == PutLeft then PutRight else PutOut))
  {
    NoSignaller(s, i);
    AllAlone(s, i);
    GrantSignals(s, i, k);
    GrantRules(s, i, k, M.Signal(s.mon, i, k));
  }

  lemma AllAlone(s: Sys, i: nat)
    requires Inv(s) && i < |s.stage| && s.mon.pc[i] == M.Active
    ensures forall j :: 0 <= j < |s.stage| && j != i ==> !M.HasToken(s.mon.pc[j])
  {
    forall j | 0 <= j < |s.stage| && j != i ensures !M.HasToken(s.mon.pc[j]) { Alone(s, i, j); }
  }

  lemma GrantSignals(s: Sys, i: nat, k: nat)
    requires Inv(s) && i < |s.stage| && k < |s.stage| && k != i && s.mon.pc[i] == M.Active && MayEat(s.mood, k)
    requires (s.stage[i] == PutLeft && k == Left(i, |s.stage|)) || (s.stage[i] == PutRight && k == Right(i, |s.stage|))
    ensures s.stage[k] == TakeOut && s.mon.pc[k] == M.WaitCond(k)
    ensures
      var m' := M.Signal(s.mon, i, k);
      && M.Inv(m') && m'.pc == s.mon.pc[i := M.WaitNext][k := M.WokenCond(k)] && |m'.conds| == |s.mon.conds|
      && (forall j :: 0 <= j < |m'.conds| && j != k ==> m'.conds[j] == s.mon.conds[j])
      && i in m'.next.queue && m'.mutex.value == 0
  {
    GrantFinds(s, i, k);
    Alone(s, i, i);
    M.SignalKeeps(s.mon, i, k);
    SignalEffect(s.mon, i, k);
  }

  lemma TestNeighbourKeeps(s: Sys, i: nat)
    requires Inv(s) && CanStep(s, i) && s.mon.pc[i] == M.Active && (s.stage[i] == PutLeft || s.stage[i] == PutRight)
    ensures Inv(Step(s, i))
  {
    var n := |s.stage|;
    var k := if s.stage[i] == PutLeft then Left(i, n) else Right(i, n);
    Neighbours(i, n);
    NoSignaller(s, i);
    if MayEat(s.mood, k) {
      GrantKeeps(s, i, k);
    } else {
      NoGrantRules(s, i, k);
    }
  }

  lemma StepKeeps(s: Sys, i: nat)
    requires Inv(s) && CanStep(s, i)
    ensures Inv(Step(s, i))
  {
    match s.mon.pc[i]
    case Outside =>
      M.EnterKeeps(s.mon, i);
      EnterRules(s, i);
    case Active => RunningKeeps(s, i);
    case _ =>
      M.ResumeKeeps(s.mon, i);
      ResumeRules(s, i);
  }

  lemma RunningKeeps(s: Sys, i: nat)
    requires Inv(s) && CanStep(s, i) && s.mon.pc[i] == M.Active
    ensures Inv(Step(s, i))
  {
    match s.stage[i]
    case TakeIn => NoSignaller(s, i); MoodRules(s, i);
    case TakeTest => NoSignaller(s, i); CountIs(s, i); TestSelfRules(s, i);
    case TakeCheck => CheckKeeps(s, i);
    case TakeOut => LeaveKeeps(s, i);
    case PutIn => NoSignaller(s, i); MoodRules(s, i);
    case PutLeft => TestNeighbourKeeps(s, i);
    case PutRight => TestNeighbourKeeps(s, i);
    case PutOut => LeaveKeeps(s, i);
    case _ =>
  }

  // ---------------------------------------------------------------- every run

  ghost predicate Legal(s: Sys, run: seq<nat>)
    decreases |run|
  {
    run == [] || (CanStep(s, run[0]) && Legal(Step(s, run[0]), run[1..]))
  }

  ghost function Exec(s: Sys, run: seq<nat>): Sys
    requires Legal(s, run)
    decreases |run|
  {
    if run == [] then s else Exec(Step(s, run[0]), run[1..])
  }

  lemma {:induction false} RunKeepsInvariant(s: Sys, run: seq<nat>)
    requires Inv(s) && Legal(s, run)
    ensures Inv(Exec(s, run))
    decreases |run|
  {
    if run != [] {
      StepKeeps(s, run[0]);
      RunKeepsInvariant(Step(s, run[0]), run[1..]);
    }
  }

  /** `test_phi_cond` before the philosophers start. */
  ghost predicate Start(s: Sys) {
    && Sized(s) && M.Fresh(s.mon)
    && forall i :: 0 <= i < |s.stage| ==> s.stage[i] == Idle && s.mood[i] == Thinking
  }

  lemma StartInv(s: Sys)
    requires Start(s)
    ensures Inv(s)
  {
    M.FreshInv(s.mon);
  }

  /** When the monitor is free, every hungry philosopher has an eating neighbour. */
  lemma HungryJustified(s: Sys, i: nat)
    requires Inv(s) && i < |s.stage| && s.mood[i] == Hungry && s.mon.mutex.value > 0
    ensures EatingNeighbour(s.mood, i)
  {
    assert Justified(s, i);
    assert M.Holders(s.mon.pc) == {};
    forall j | 0 <= j < |s.stage| ensures s.stage[j] != TakeTest && s.stage[j] != PutLeft && s.stage[j] != PutRight {
      assert j !in M.Holders(s.mon.pc);
      assert Seat(s.stage[j], s.mon.pc[j], s.mood[j], j) && Reachable(s.mon, j);
    }
  }

  /** In every reachable state: neighbours do not eat together; a philosopher
      past `take_forks` eats until his `put_forks`; when the monitor is free
      every hungry one has an eating neighbour; at most one signaller is pending;
      and whoever sleeps on his condition is hungry and can be woken. */
  lemma Safety(s: Sys, run: seq<nat>, i: nat)
    requires Start(s) && Legal(s, run) && i < |Exec(s, run).stage|
    ensures
      var r := Exec(s, run);
      && Sized(r)
      && (r.mood[i] == Eating ==> !EatingNeighbour(r.mood, i))
      && (r.stage[i] == Dine || r.stage[i] == PutIn ==> r.mood[i] == Eating)
      && (r.mon.mutex.value > 0 && r.mood[i] == Hungry ==> EatingNeighbour(r.mood, i))
      && r.mon.nextCount <= 1
      && (r.mon.pc[i] == M.WaitCond(i) ==> r.mood[i] == Hungry && i in r.mon.conds[i].sem.queue)
  {
    StartInv(s);
    RunKeepsInvariant(s, run);
    var r := Exec(s, run);
    assert Seat(r.stage[i], r.mon.pc[i], r.mood[i], i) && Reachable(r.mon, i);
    NextCountBound(r);
    if r.mon.mutex.value > 0 && r.mood[i] == Hungry { HungryJustified(r, i); }
  }

  // ------------------------------------------------------ how many steps a meal takes

  /** Asleep in a call of the monitor, or woken there and not yet running. */
  predicate HeldUp(pc: M.Pc) { pc != M.Outside && pc != M.Active }

  /** The fewest steps of his own that bring a philosopher here from before take_forks;
      once the meal is over, it is counted down to the end of put_forks. */
  function Fewest(x: Stage): int {
    match x
    case Idle => 0
    case TakeIn => 1
    case TakeTest => 2
    case TakeCheck => 3
    case TakeOut => 4
    case Dine => 5
    case PutIn => 6
    case PutLeft => -3
    case PutRight => -2
    case PutOut => -1
  }

  /** The most, when every call that can block does. */
  function Most(x: Stage, pc: M.Pc): int {
    match x
    case Idle => 0
    case TakeIn => 2 - Bit(HeldUp(pc))
    case TakeTest => 3
    case TakeCheck => 4
    case TakeOut => 6 - Bit(HeldUp(pc))
    case Dine => 7
    case PutIn => 9 - Bit(HeldUp(pc))
    case PutLeft => -5
    case PutRight => -3 - Bit(HeldUp(pc))
    case PutOut => -1 - Bit(HeldUp(pc))
  }

  /** Philosopher `i` ends a meal. */
  predicate Ate(mood: seq<Mood>, mood': seq<Mood>, i: nat) {
    i < |mood| && i < |mood'| && mood[i] == Eating && mood'[i] != Eating
  }

  /** A step of his own takes a philosopher forward by one. */
  lemma OwnStep(s: Sys, i: nat)
    requires Inv(s) && CanStep(s, i)
    ensures
      var s' := Step(s, i);
      && |s'.stage| == |s.stage| && i in s'.mon.pc
      && Fewest(s'.stage[i]) + 10 * Bit(Ate(s.mood, s'.mood, i)) <= Fewest(s.stage[i]) + 1
      && Most(s'.stage[i], s'.mon.pc[i]) + 15 * Bit(Ate(s.mood, s'.mood, i)) >= Most(s.stage[i], s.mon.pc[i]) + 1
  {
    assert Seat(s.stage[i], s.mon.pc[i], s.mood[i], i);
    StepSized(s, i);
    if s.mon.pc[i] != M.Outside && s.mon.pc[i] != M.Active {
      M.ResumeKeeps(s.mon, i);
      Resumed(s, i);
    } else {
      Moved(s, i);
    }
  }

  lemma StepSized(s: Sys, i: nat)
    requires Inv(s) && CanStep(s, i)
    ensures Sized(Step(s, i)) && |Step(s, i).stage| == |s.stage|
  {
    StepKeeps(s, i);
  }

  /** The right to go on turns into going on. */
  lemma Resumed(s: Sys, i: nat)
    requires CanStep(s, i) && Sized(Step(s, i)) && |Step(s, i).stage| == |s.stage|
    requires s.mon.pc[i] != M.Outside && s.mon.pc[i] != M.Active && M.Resume(s.mon, i).pc[i] == M.Active
    requires Seat(s.stage[i], s.mon.pc[i], s.mood[i], i)
    ensures Fewest(Step(s, i).stage[i]) == Fewest(s.stage[i]) && Step(s, i).mood == s.mood
    ensures Most(Step(s, i).stage[i], Step(s, i).mon.pc[i]) == Most(s.stage[i], s.mon.pc[i]) + 1
  {
  }

  lemma Moved(s: Sys, i: nat)
    requires CanStep(s, i) && Sized(Step(s, i)) && |Step(s, i).stage| == |s.stage|
    requires s.mon.pc[i] == M.Outside || s.mon.pc[i] == M.Active
    requires Seat(s.stage[i], s.mon.pc[i], s.mood[i], i)
    ensures
      var s' := Step(s, i);
      && Fewest(s'.stage[i]) + 10 * Bit(Ate(s.mood, s'.mood, i)) == Fewest(s.stage[i]) + 1
      && Most(s'.stage[i], s'.mon.pc[i]) + 15 * Bit(Ate(s.mood, s'.mood, i)) >= Most(s.stage[i], s.mon.pc[i]) + 1
  {
  }

  /** All that others do to a philosopher: wake him up, or let him eat. */
  predicate Nudged(s: Sys, s': Sys, i: nat)
    requires i < |s.stage| && i < |s.mood| && i in s.mon.pc
  {
    && |s'.stage| == |s.stage| && |s'.mood| == |s.mood| && i in s'.mon.pc
    && (s'.mood[i] == s.mood[i] || (MayEat(s.mood, i) && s'.mood[i] == Eating))
    && s'.stage[i] == s.stage[i]
    && (s'.mon.pc[i] == s.mon.pc[i]
        || (s.mon.pc[i] == M.WaitMutex && s'.mon.pc[i] == M.WokenMutex)
        || (s.mon.pc[i] == M.WaitNext && s'.mon.pc[i] == M.WokenNext)
        || (s.mon.pc[i] == M.WaitCond(i) && s'.mon.pc[i] == M.WokenCond(i) && s'.mood[i] == Eating))
  }

  lemma OthersStep(s: Sys, j: nat, i: nat)
    requires Inv(s) && CanStep(s, j) && i < |s.stage| && i != j
    ensures Nudged(s, Step(s, j), i)
  {
    var x := s.stage[j];
    if s.mon.pc[j] == M.Active {
      if x == TakeOut || x == PutOut {
        LeaveEffect(s.mon, j, i);
        StepLeaves(s, j);
      } else {
        NoSignaller(s, j);
        if x == TakeCheck { WaitEffect(s.mon, j, j); }
        if x == TakeTest { CountIs(s, j); }
        if x == PutLeft || x == PutRight { TestNudges(s, j, i); }
      }
    }
  }

  lemma TestNudges(s: Sys, j: nat, i: nat)
    requires Inv(s) && CanStep(s, j) && i < |s.stage| && i != j && s.mon.pc[j] == M.Active
    requires s.stage[j] == PutLeft || s.stage[j] == PutRight
    ensures Nudged(s, Step(s, j), i)
  {
    var k := if s.stage[j] == PutLeft then Left(j, |s.stage|) else Right(j, |s.stage|);
    Neighbours(j, |s.stage|);
    if MayEat(s.mood, k) { GrantSignals(s, j, k); }
    GrantNudges(s, j, k, i);
  }

  lemma GrantNudges(s: Sys, j: nat, k: nat, i: nat)
    requires CanStep(s, j) && i < |s.stage| && i != j && k < |s.stage| && s.mon.pc[j] == M.Active
    requires (s.stage[j] == PutLeft && k == Left(j, |s.stage|)) || (s.stage[j] == PutRight && k == Right(j, |s.stage|))
    requires MayEat(s.mood, k) ==>
      s.mon.pc[k] == M.WaitCond(k) && M.Signal(s.mon, j, k).pc == s.mon.pc[j := M.WaitNext][k := M.WokenCond(k)]
    ensures Nudged(s, Step(s, j), i)
  {
  }

  function Steps(run: seq<nat>, i: nat): nat {
    if run == [] then 0 else Bit(run[0] == i) + Steps(run[1..], i)
  }

  ghost function Meals(s: Sys, run: seq<nat>, i: nat): nat
    requires Legal(s, run)
    decreases |run|
  {
    if run == [] then 0 else Bit(Ate(s.mood, Step(s, run[0]).mood, i)) + Meals(Step(s, run[0]), run[1..], i)
  }

  lemma NudgedCounts(s: Sys, s': Sys, i: nat)
    requires i < |s.stage| && i < |s.mood| && i in s.mon.pc && Nudged(s, s', i)
    ensures i < |s'.stage| && i in s'.mon.pc && !Ate(s.mood, s'.mood, i)
    ensures Fewest(s'.stage[i]) == Fewest(s.stage[i])
    ensures Most(s'.stage[i], s'.mon.pc[i]) == Most(s.stage[i], s.mon.pc[i])
  {
  }

  /** One step of anybody, in the accounts of philosopher `i`. */
  lemma AnyStep(s: Sys, j: nat, i: nat)
    requires Inv(s) && CanStep(s, j) && i < |s.stage|
    ensures
      var s' := Step(s, j);
      && i < |s'.stage| && i in s'.mon.pc && i in s.mon.pc
      && Fewest(s'.stage[i]) + 10 * Bit(Ate(s.mood, s'.mood, i)) <= Fewest(s.stage[i]) + Bit(j == i)
      && Most(s'.stage[i], s'.mon.pc[i]) + 15 * Bit(Ate(s.mood, s'.mood, i)) >=
            Most(s.stage[i], s.mon.pc[i]) + Bit(j == i)
  {
    if j == i {
      OwnStep(s, i);
    } else {
      OthersStep(s, j, i);
      NudgedCounts(s, Step(s, j), i);
    }
  }

  lemma {:induction false} MealsFrom(s: Sys, run: seq<nat>, i: nat)
    requires Inv(s) && Legal(s, run) && i < |s.stage|
    ensures
      var r := Exec(s, run);
      && i < |r.stage| && i in r.mon.pc && i in s.mon.pc
      && Fewest(r.stage[i]) + 10 * Meals(s, run, i) <= Fewest(s.stage[i]) + Steps(run, i)
      && Most(r.stage[i], r.mon.pc[i]) + 15 * Meals(s, run, i) >= Most(s.stage[i], s.mon.pc[i]) + Steps(run, i)
    decreases |run|
  {
    if run != [] {
      StepKeeps(s, run[0]);
      AnyStep(s, run[0], i);
      MealsFrom(Step(s, run[0]), run[1..], i);
    }
  }

  /** However the philosophers take turns, each eats once in every 15 of his own steps,
      and at most once in 10. */
  lemma StepsPerMeal(s: Sys, run: seq<nat>, i: nat)
    requires Start(s) && Legal(s, run) && i < |s.stage|
    ensures 10 * Meals(s, run, i) - 3 <= Steps(run, i) <= 15 * Meals(s, run, i) + 9
  {
    StartInv(s);
    MealsFrom(s, run, i);
  }
}
