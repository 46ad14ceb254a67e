/** The Hoare-style monitor of kernel/sync/monitor.c, for any number of
    processes and conditions, over the semaphores of module Semaphore.

    Kernel code is not preempted, so a step is what a process does from one call
    of `schedule` to the next. A process that an `up` has chosen but that has
    not run yet is in one of the `Woken` states. */
module Monitor {
  import opened Ring
  import opened Semaphore
  import opened Sets

  /** Where a process is. */
  datatype Pc =
    | Outside
    | WaitMutex | WokenMutex          // in down(&monitor->mutex)
    | Active                          // executing inside the monitor
    | WaitNext | WokenNext            // in signal_cond, in down(&monitor->next)
    | WaitCond(c: nat) | WokenCond(c: nat)  // in wait_cond, in down(&cond->sem)

  datatype Cond = Cond(sem: Sem, count: int)

  /** `struct monitor`, and the processes that use it. */
  datatype Mon = Mon(mutex: Sem, next: Sem, nextCount: int, conds: seq<Cond>, pc: map<Pid, Pc>)

  // ------------------------------------------------------------------ the steps

  /** `up(&monitor->mutex)`. */
  function GiveMutex(m: Mon): Mon {
    match Wakes(m.mutex)
    case None => m.(mutex := Up(m.mutex))
    case Some(q) => m.(mutex := Up(m.mutex), pc := m.pc[q := WokenMutex])
  }

  /** `up(&monitor->next)`. */
  function GiveNext(m: Mon): Mon {
    match Wakes(m.next)
    case None => m.(next := Up(m.next))
    case Some(q) => m.(next := Up(m.next), pc := m.pc[q := WokenNext])
  }

  /** `up(&cond->sem)`. */
  function GiveCond(m: Mon, c: nat): Mon
    requires c < |m.conds|
  {
    var conds := m.conds[c := m.conds[c].(sem := Up(m.conds[c].sem))];
    match Wakes(m.conds[c].sem)
    case None => m.(conds := conds)
    case Some(q) => m.(conds := conds, pc := m.pc[q := WokenCond(c)])
  }

  /** How every routine of the monitor ends, and how `wait_cond` lets go. */
  function Release(m: Mon): Mon {
    if m.nextCount > 0 then GiveNext(m) else GiveMutex(m)
  }

  /** `down(&monitor->mutex)` at the start of a routine. */
  function Enter(m: Mon, p: Pid): Mon {
    m.(mutex := Down(m.mutex, p), pc := m.pc[p := if m.mutex.value > 0 then Active else WaitMutex])
  }

  function Leave(m: Mon, p: Pid): Mon {
    Release(m.(pc := m.pc[p := Outside]))
  }

  function AddCount(m: Mon, c: nat, d: int): Mon
    requires c < |m.conds|
  {
    m.(conds := m.conds[c := m.conds[c].(count := m.conds[c].count + d)])
  }

  /** `wait_cond`: count up, release the monitor, `down(&cond->sem)`. */
  function Wait(m: Mon, p: Pid, c: nat): Mon
    requires c < |m.conds|
  {
    var m1 := Release(AddCount(m, c, 1).(pc := m.pc[p := WaitCond(c)]));
    assert |m1.conds| == |m.conds|;
    var blocked := m1.conds[c].sem.value == 0;
    var m2 := m1.(conds := m1.conds[c := m1.conds[c].(sem := Down(m1.conds[c].sem, p))]);
    if blocked then m2 else AddCount(m2, c, -1).(pc := m2.pc[p := Active])
  }

  /** `signal_cond`: if somebody waits, `up(&cond->sem)` and `down(&monitor->next)`. */
  function Signal(m: Mon, p: Pid, c: nat): Mon
    requires c < |m.conds|
  {
    if m.conds[c].count <= 0 then m
    else
      var m1 := GiveCond(m.(nextCount := m.nextCount + 1, pc := m.pc[p := WaitNext]), c);
      var blocked := m1.next.value == 0;
      var m2 := m1.(next := Down(m1.next, p));
      if blocked then m2 else m2.(nextCount := m2.nextCount - 1, pc := m2.pc[p := Active])
  }

  /** A woken process returns from its `down` and finishes the call it was in. */
  function Resume(m: Mon, p: Pid): Mon
    requires p in m.pc
  {
    match m.pc[p]
    case WokenMutex => m.(pc := m.pc[p := Active])
    case WokenNext => m.(pc := m.pc[p := Active], nextCount := m.nextCount - 1)
    case WokenCond(c) =>
      if c < |m.conds| then AddCount(m, c, -1).(pc := m.pc[p := Active]) else m
    case _ => m
  }

  datatype Event = EEnter(p: Pid) | ELeave(p: Pid) | EWait(p: Pid, c: nat) | ESignal(p: Pid, c: nat) | EResume(p: Pid)

  predicate Can(m: Mon, e: Event) {
    && e.p in m.pc
    && match e
      case EEnter(p) => m.pc[p] == Outside
      case ELeave(p) => m.pc[p] == Active
      case EWait(p, c) => m.pc[p] == Active && c < |m.conds|
      case ESignal(p, c) => m.pc[p] == Active && c < |m.conds|
      case EResume(p) => m.pc[p].WokenMutex? || m.pc[p].WokenNext? || m.pc[p].WokenCond?
  }

  function Step(m: Mon, e: Event): Mon
    requires Can(m, e)
  {
    match e
    case EEnter(p) => Enter(m, p)
    case ELeave(p) => Leave(m, p)
    case EWait(p, c) => Wait(m, p, c)
    case ESignal(p, c) => Signal(m, p, c)
    case EResume(p) => Resume(m, p)
  }

  // ----------------------------------------------------------------- invariant

  /** The processes that have the right to be inside: running there, or chosen to. */
  predicate HasToken(x: Pc) { x.Active? || x.WokenMutex? || x.WokenNext? || x.WokenCond? }
  predicate Signals(x: Pc) { x.WaitNext? || x.WokenNext? }
  predicate WaitsOn(x: Pc, c: nat) { x == WaitCond(c) || x == WokenCond(c) }

  function Holders(pc: map<Pid, Pc>): set<Pid> { set p | p in pc && HasToken(pc[p]) }
  function Signallers(pc: map<Pid, Pc>): set<Pid> { set p | p in pc && Signals(pc[p]) }
  function Waiters(pc: map<Pid, Pc>, c: nat): set<Pid> { set p | p in pc && WaitsOn(pc[p], c) }

  function Banked(conds: seq<Cond>): nat {
    if conds == [] then 0 else conds[0].sem.value + Banked(conds[1..])
  }

  /** mutex.value + next.value + the values of all condition semaphores + the holders. */
  function Tokens(m: Mon): nat {
    m.mutex.value + m.next.value + Banked(m.conds) + |Holders(m.pc)|
  }

  predicate QueueOf(s: Sem, pc: map<Pid, Pc>, x: Pc) {
    SemOk(s) && forall q :: q in s.queue ==> q in pc && pc[q] == x
  }

  predicate WellFormed(m: Mon) {
    && QueueOf(m.mutex, m.pc, WaitMutex)
    && QueueOf(m.next, m.pc, WaitNext)
    && m.nextCount == |Signallers(m.pc)|
    && (forall c :: 0 <= c < |m.conds| ==> CondOk(m.conds[c], m.pc, c))
    && (forall p :: p in m.pc && (m.pc[p].WaitCond? || m.pc[p].WokenCond?) ==> m.pc[p].c < |m.conds|)
  }

  predicate CondOk(d: Cond, pc: map<Pid, Pc>, c: nat) {
    && QueueOf(d.sem, pc, WaitCond(c))
    && d.count == |Waiters(pc, c)|
  }

  /** A token banked in `next` or in a condition is owed to somebody waiting there. */
  predicate BankedForSomeone(m: Mon) {
    && (m.next.value > 0 ==> exists p :: p in m.pc && m.pc[p] == WaitNext)
    && (forall c :: 0 <= c < |m.conds| && m.conds[c].sem.value > 0 ==> exists p :: p in m.pc && m.pc[p] == WaitCond(c))
  }

  predicate Inv(m: Mon) {
    WellFormed(m) && Tokens(m) == 1 && BankedForSomeone(m)
  }

  // ------------------------------------------------------- counting by one process

  lemma MoveHolder(pc: map<Pid, Pc>, p: Pid, x: Pc)
    requires p in pc
    ensures |Holders(pc[p := x])| == |Holders(pc)| - Bit(HasToken(pc[p])) + Bit(HasToken(x))
  {
    CardMove(Holders(pc), Holders(pc[p := x]), p);
  }

  lemma MoveSignaller(pc: map<Pid, Pc>, p: Pid, x: Pc)
    requires p in pc
    ensures |Signallers(pc[p := x])| == |Signallers(pc)| - Bit(Signals(pc[p])) + Bit(Signals(x))
  {
    CardMove(Signallers(pc), Signallers(pc[p := x]), p);
  }

  lemma MoveWaiter(pc: map<Pid, Pc>, p: Pid, x: Pc, c: nat)
    requires p in pc
    ensures |Waiters(pc[p := x], c)| == |Waiters(pc, c)| - Bit(WaitsOn(pc[p], c)) + Bit(WaitsOn(x, c))
  {
    CardMove(Waiters(pc, c), Waiters(pc[p := x], c), p);
  }

  lemma {:induction false} BankedUpdate(conds: seq<Cond>, c: nat, x: Cond)
    requires c < |conds|
    ensures Banked(conds[c := x]) == Banked(conds) - conds[c].sem.value + x.sem.value
  {
    if c == 0 {
      assert conds[c := x][1..] == conds[1..];
    } else {
      BankedUpdate(conds[1..], c - 1, x);
      assert conds[c := x][1..] == conds[1..][c - 1 := x];
    }
  }

  lemma {:induction false} BankedHas(conds: seq<Cond>, c: nat)
    requires c < |conds|
    ensures conds[c].sem.value <= Banked(conds)
  {
    if c > 0 { BankedHas(conds[1..], c - 1); }
  }

  // -------------------------------------------------------------- queues by step

  lemma KeepQueue(s: Sem, pc: map<Pid, Pc>, x: Pc, q: Pid, y: Pc)
    requires QueueOf(s, pc, x) && q in pc && pc[q] != x
    ensures QueueOf(s, pc[q := y], x)
  {
  }

  lemma PopQueue(s: Sem, pc: map<Pid, Pc>, x: Pc, y: Pc)
    requires QueueOf(s, pc, x) && s.queue != []
    ensures QueueOf(Up(s), pc[s.queue[0] := y], x)
  {
    assert forall q :: q in s.queue[1..] ==> q in s.queue && q != s.queue[0];
  }

  lemma PushQueue(s: Sem, pc: map<Pid, Pc>, x: Pc, p: Pid)
    requires QueueOf(s, pc, x) && p in pc && pc[p] == x && p !in s.queue
    ensures QueueOf(Down(s, p), pc, x)
  {
    JoinKeepsAll(s.queue, p);
  }

  /** Moving a process that is in no queue changes the counts it belongs to and
      nothing else. */
  lemma MoveFree(m: Mon, p: Pid, y: Pc, n: int)
    requires WellFormed(m) && p in m.pc
    requires !m.pc[p].WaitMutex? && !m.pc[p].WaitNext? && !m.pc[p].WaitCond? && !m.pc[p].WokenCond? && !y.WaitCond? &&
      !y.WokenCond?
    requires n == m.nextCount - Bit(Signals(m.pc[p])) + Bit(Signals(y))
    ensures WellFormed(m.(pc := m.pc[p := y], nextCount := n))
    ensures Tokens(m.(pc := m.pc[p := y], nextCount := n)) == Tokens(m) - Bit(HasToken(m.pc[p])) + Bit(HasToken(y))
  {
    var m' := m.(pc := m.pc[p := y], nextCount := n);
    MoveHolder(m.pc, p, y);
    MoveSignaller(m.pc, p, y);
    KeepQueue(m.mutex, m.pc, WaitMutex, p, y);
    KeepQueue(m.next, m.pc, WaitNext, p, y);
    forall c | 0 <= c < |m.conds| ensures CondOk(m'.conds[c], m'.pc, c) {
      assert CondOk(m.conds[c], m.pc, c);
      MoveWaiter(m.pc, p, y, c);
      KeepQueue(m.conds[c].sem, m.pc, WaitCond(c), p, y);
    }
  }

  /** Moving a process into or out of `wait_cond`. */
  lemma MoveWaiting(m: Mon, p: Pid, y: Pc, c: nat, d: int)
    requires WellFormed(m) && p in m.pc && c < |m.conds|
    requires !m.pc[p].WaitMutex? && !m.pc[p].WaitNext? && !m.pc[p].WokenNext? && !m.pc[p].WaitCond?
    requires m.pc[p].WokenCond? ==> m.pc[p].c == c
    requires y == Active || y == WaitCond(c)
    requires d == Bit(WaitsOn(y, c)) - Bit(WaitsOn(m.pc[p], c))
    ensures WellFormed(AddCount(m, c, d).(pc := m.pc[p := y]))
    ensures Tokens(AddCount(m, c, d).(pc := m.pc[p := y])) == Tokens(m) - Bit(HasToken(m.pc[p])) + Bit(HasToken(y))
  {
    var m' := AddCount(m, c, d).(pc := m.pc[p := y]);
    MoveHolder(m.pc, p, y);
    MoveSignaller(m.pc, p, y);
    BankedUpdate(m.conds, c, m'.conds[c]);
    KeepQueue(m.mutex, m.pc, WaitMutex, p, y);
    KeepQueue(m.next, m.pc, WaitNext, p, y);
    forall k | 0 <= k < |m'.conds| ensures CondOk(m'.conds[k], m'.pc, k) {
      assert CondOk(m.conds[k], m.pc, k);
      MoveWaiter(m.pc, p, y, k);
      KeepQueue(m.conds[k].sem, m.pc, WaitCond(k), p, y);
    }
  }

  lemma GiveMutexKeeps(m: Mon)
    requires WellFormed(m)
    ensures WellFormed(GiveMutex(m)) && Tokens(GiveMutex(m)) == Tokens(m) + 1
  {
    if m.mutex.queue != [] {
      var q := m.mutex.queue[0];
      PopQueue(m.mutex, m.pc, WaitMutex, WokenMutex);
      WakeCounts(m, q, WokenMutex);
    }
  }

  lemma GiveNextKeeps(m: Mon)
    requires WellFormed(m)
    ensures WellFormed(GiveNext(m)) && Tokens(GiveNext(m)) == Tokens(m) + 1
  {
    if m.next.queue != [] {
      var q := m.next.queue[0];
      PopQueue(m.next, m.pc, WaitNext, WokenNext);
      WakeCounts(m, q, WokenNext);
    }
  }

  /** Waking `q` makes it a holder and changes no count. */
  lemma WakeCounts(m: Mon, q: Pid, y: Pc)
    requires WellFormed(m) && q in m.pc
    requires (m.pc[q] == WaitMutex && y == WokenMutex) || (m.pc[q] == WaitNext && y == WokenNext)
    ensures |Holders(m.pc[q := y])| == |Holders(m.pc)| + 1
    ensures m.nextCount == |Signallers(m.pc[q := y])|
    ensures m.pc[q] == WaitMutex ==> QueueOf(m.next, m.pc[q := y], WaitNext)
    ensures m.pc[q] == WaitNext ==> QueueOf(m.mutex, m.pc[q := y], WaitMutex)
    ensures forall c :: 0 <= c < |m.conds| ==> CondOk(m.conds[c], m.pc[q := y], c)
  {
    MoveHolder(m.pc, q, y);
    MoveSignaller(m.pc, q, y);
    forall c | 0 <= c < |m.conds| ensures CondOk(m.conds[c], m.pc[q := y], c) {
      assert CondOk(m.conds[c], m.pc, c);
      MoveWaiter(m.pc, q, y, c);
      KeepQueue(m.conds[c].sem, m.pc, WaitCond(c), q, y);
    }
  }

  lemma GiveCondKeeps(m: Mon, c: nat)
    requires WellFormed(m) && c < |m.conds|
    ensures WellFormed(GiveCond(m, c)) && Tokens(GiveCond(m, c)) == Tokens(m) + 1
  {
    var m', s := GiveCond(m, c), m.conds[c].sem;
    BankedUpdate(m.conds, c, m'.conds[c]);
    assert CondOk(m.conds[c], m.pc, c);
    if s.queue != [] {
      var q := s.queue[0];
      PopQueue(s, m.pc, WaitCond(c), WokenCond(c));
      MoveHolder(m.pc, q, WokenCond(c));
      MoveSignaller(m.pc, q, WokenCond(c));
      KeepQueue(m.mutex, m.pc, WaitMutex, q, WokenCond(c));
      KeepQueue(m.next, m.pc, WaitNext, q, WokenCond(c));
      forall k | 0 <= k < |m'.conds| ensures CondOk(m'.conds[k], m'.pc, k) {
        assert CondOk(m.conds[k], m.pc, k);
        MoveWaiter(m.pc, q, WokenCond(c), k);
        if k != c { KeepQueue(m.conds[k].sem, m.pc, WaitCond(k), q, WokenCond(c)); }
      }
    } else {
      forall k | 0 <= k < |m'.conds| ensures CondOk(m'.conds[k], m'.pc, k) { assert CondOk(m.conds[k], m.pc, k); }
    }
  }

  lemma ReleaseKeeps(m: Mon)
    requires WellFormed(m)
    ensures WellFormed(Release(m)) && Tokens(Release(m)) == Tokens(m) + 1
  {
    if m.nextCount > 0 { GiveNextKeeps(m); } else { GiveMutexKeeps(m); }
  }

  // ---------------------------------------------------------------- every step

  lemma TokenElsewhere(m: Mon, p: Pid)
    requires Tokens(m) == 1 && p in m.pc && HasToken(m.pc[p])
    ensures m.mutex.value == 0 && m.next.value == 0
    ensures forall c :: 0 <= c < |m.conds| ==> m.conds[c].sem.value == 0
    ensures forall q :: q in m.pc && HasToken(m.pc[q]) ==> q == p
  {
    assert p in Holders(m.pc);
    assert Holders(m.pc) - {p} == {} by {
      assert |Holders(m.pc) - {p}| == |Holders(m.pc)| - 1;
    }
    forall c | 0 <= c < |m.conds| ensures m.conds[c].sem.value == 0 { BankedHas(m.conds, c); }
    forall q | q in m.pc && HasToken(m.pc[q]) ensures q == p { assert q in Holders(m.pc); }
  }

  lemma EnterKeeps(m: Mon, p: Pid)
    requires Inv(m) && Can(m, EEnter(p))
    ensures Inv(Enter(m, p))
  {
    if m.mutex.value > 0 {
      MoveFree(m, p, Active, m.nextCount);
    } else {
      EnterBlocks(m, p);
    }
    StillOwed(m, Enter(m, p), p);
  }

  lemma EnterBlocks(m: Mon, p: Pid)
    requires Inv(m) && Can(m, EEnter(p)) && m.mutex.value == 0
    ensures WellFormed(Enter(m, p)) && Tokens(Enter(m, p)) == 1
  {
    var m1 := m.(pc := m.pc[p := WaitMutex]);
    MoveFree(m, p, WaitMutex, m.nextCount);
    assert p !in m.mutex.queue;
    PushQueue(m1.mutex, m1.pc, WaitMutex, p);
  }

  /** A banked token stays owed while the process it is owed to stays where it is. */
  lemma StillOwed(m: Mon, m': Mon, p: Pid)
    requires BankedForSomeone(m) && p in m.pc
    requires |m'.conds| == |m.conds| && m'.next.value == m.next.value
    requires forall c :: 0 <= c < |m.conds| ==> m'.conds[c].sem.value == m.conds[c].sem.value
    requires !m.pc[p].WaitNext? && !m.pc[p].WaitCond?
    requires forall q :: q in m.pc && q != p ==> q in m'.pc && m'.pc[q] == m.pc[q]
    ensures BankedForSomeone(m')
  {
    if m'.next.value > 0 {
      var q :| q in m.pc && m.pc[q] == WaitNext;
      assert m'.pc[q] == WaitNext;
    }
    forall c | 0 <= c < |m'.conds| && m'.conds[c].sem.value > 0
      ensures exists q :: q in m'.pc && m'.pc[q] == WaitCond(c)
    {
      var q :| q in m.pc && m.pc[q] == WaitCond(c);
      assert m'.pc[q] == WaitCond(c);
    }
  }

  /** Releasing banks a token in `next` only if a signaller is waiting there. */
  lemma ReleaseOwed(m: Mon)
    requires WellFormed(m) && Tokens(m) == 0
    ensures BankedForSomeone(Release(m))
    ensures forall c :: 0 <= c < |m.conds| ==> Release(m).conds[c].sem.value == 0
    ensures Release(m).conds == m.conds && Release(m).nextCount == m.nextCount
    ensures forall q :: q in m.pc && q !in m.mutex.queue && q !in m.next.queue ==>
      q in Release(m).pc && Release(m).pc[q] == m.pc[q]
  {
    var r := Release(m);
    forall c | 0 <= c < |m.conds| ensures m.conds[c].sem.value == 0 { BankedHas(m.conds, c); }
    if r.next.value > 0 {
      assert m.nextCount > 0 && m.next.queue == [] && r.pc == m.pc;
      var q :| q in Signallers(m.pc);
      assert q !in Holders(m.pc) by { assert Holders(m.pc) == {}; }
      assert r.pc[q] == WaitNext;
    }
  }

  lemma LeaveKeeps(m: Mon, p: Pid)
    requires Inv(m) && Can(m, ELeave(p))
    ensures Inv(Leave(m, p))
  {
    MoveFree(m, p, Outside, m.nextCount);
    var m1 := m.(pc := m.pc[p := Outside]);
    ReleaseKeeps(m1);
    ReleaseOwed(m1);
  }

  /** A process that waits always blocks, and gives the monitor away. */
  lemma WaitKeeps(m: Mon, p: Pid, c: nat)
    requires Inv(m) && Can(m, EWait(p, c))
    ensures Inv(Wait(m, p, c))
    ensures Wait(m, p, c).pc[p] == WaitCond(c) && p in Wait(m, p, c).conds[c].sem.queue
  {
    var m0 := AddCount(m, c, 1).(pc := m.pc[p := WaitCond(c)]);
    MoveWaiting(m, p, WaitCond(c), c, 1);
    ReleaseKeeps(m0);
    ReleaseOwed(m0);
    var m1 := Release(m0);
    assert m1.pc[p] == WaitCond(c);
    BlockOnCond(m1, p, c);
  }

  lemma BlockOnCond(m: Mon, p: Pid, c: nat)
    requires Inv(m) && p in m.pc && m.pc[p] == WaitCond(c) && c < |m.conds|
    requires m.conds[c].sem.value == 0 && p !in m.conds[c].sem.queue
    ensures Inv(m.(conds := m.conds[c := m.conds[c].(sem := Down(m.conds[c].sem, p))]))
  {
    var m' := m.(conds := m.conds[c := m.conds[c].(sem := Down(m.conds[c].sem, p))]);
    BankedUpdate(m.conds, c, m'.conds[c]);
    forall k | 0 <= k < |m'.conds| ensures CondOk(m'.conds[k], m'.pc, k) {
      assert CondOk(m.conds[k], m.pc, k);
      if k == c { PushQueue(m.conds[c].sem, m.pc, WaitCond(c), p); }
    }
    forall k | 0 <= k < |m'.conds| && m'.conds[k].sem.value > 0
      ensures exists q :: q in m'.pc && m'.pc[q] == WaitCond(k)
    {
      assert m.conds[k].sem.value > 0;
    }
  }

  /** A process that signals a condition with a waiter always blocks in `next`
      and gives the monitor away; without a waiter nothing happens. */
  lemma SignalKeeps(m: Mon, p: Pid, c: nat)
    requires Inv(m) && Can(m, ESignal(p, c))
    ensures Inv(Signal(m, p, c))
    ensures m.conds[c].count > 0 ==> Signal(m, p, c).pc[p] == WaitNext
    ensures m.conds[c].count == 0 <==> Signal(m, p, c) == m
  {
    if m.conds[c].count > 0 { SignalHandsOver(m, p, c); }
  }

  /** With a waiter, the signaller gives the monitor away and queues up in `next`. */
  lemma SignalHandsOver(m: Mon, p: Pid, c: nat)
    requires Inv(m) && Can(m, ESignal(p, c)) && m.conds[c].count > 0
    ensures Inv(Signal(m, p, c)) && Signal(m, p, c).pc[p] == WaitNext
  {
    TokenElsewhere(m, p);
    SignalFrees(m, p, c);
    var m1 := GiveCond(m.(nextCount := m.nextCount + 1, pc := m.pc[p := WaitNext]), c);
    PushQueue(m1.next, m1.pc, WaitNext, p);
  }

  /** The state between the `up` on the condition and the `down` on `next`. */
  lemma SignalFrees(m: Mon, p: Pid, c: nat)
    requires Inv(m) && Can(m, ESignal(p, c)) && m.conds[c].count > 0
    ensures
      var m1 := GiveCond(m.(nextCount := m.nextCount + 1, pc := m.pc[p := WaitNext]), c);
      && WellFormed(m1) && Tokens(m1) == 1 && BankedForSomeone(m1)
      && m1.next == m.next && p in m1.pc && m1.pc[p] == WaitNext && p !in m1.next.queue
  {
    TokenElsewhere(m, p);
    var m0 := m.(nextCount := m.nextCount + 1, pc := m.pc[p := WaitNext]);
    MoveFree(m, p, WaitNext, m.nextCount + 1);
    GiveCondKeeps(m0, c);
    GiveCondOwed(m0, c);
    var m1 := GiveCond(m0, c);
    assert m1.next == m.next && m1.pc[p] == WaitNext;
    assert p !in m1.next.queue;
  }

  lemma GiveCondOwed(m: Mon, c: nat)
    requires WellFormed(m) && Tokens(m) == 0 && c < |m.conds| && m.conds[c].count > 0
    ensures BankedForSomeone(GiveCond(m, c))
    ensures forall q :: q in m.pc && q !in m.conds[c].sem.queue ==>
      q in GiveCond(m, c).pc && GiveCond(m, c).pc[q] == m.pc[q]
  {
    var r := GiveCond(m, c);
    assert CondOk(m.conds[c], m.pc, c);
    forall k | 0 <= k < |m.conds| ensures m.conds[k].sem.value == 0 { BankedHas(m.conds, k); }
    if r.conds[c].sem.value > 0 {
      assert m.conds[c].sem.queue == [] && r.pc == m.pc;
      var q :| q in Waiters(m.pc, c);
      assert q !in Holders(m.pc) by { assert Holders(m.pc) == {}; }
      assert r.pc[q] == WaitCond(c);
    }
  }

  lemma ResumeKeeps(m: Mon, p: Pid)
    requires Inv(m) && Can(m, EResume(p))
    ensures Inv(Resume(m, p)) && Resume(m, p).pc[p] == Active
  {
    TokenElsewhere(m, p);
    match m.pc[p]
    case WokenCond(c) => MoveWaiting(m, p, Active, c, -1);
    case WokenMutex => MoveFree(m, p, Active, m.nextCount);
    case WokenNext => MoveFree(m, p, Active, m.nextCount - 1);
  }

  lemma StepKeeps(m: Mon, e: Event)
    requires Inv(m) && Can(m, e)
    ensures Inv(Step(m, e))
  {
    match e
    case EEnter(p) => EnterKeeps(m, p);
    case ELeave(p) => LeaveKeeps(m, p);
    case EWait(p, c) => WaitKeeps(m, p, c);
    case ESignal(p, c) => SignalKeeps(m, p, c);
    case EResume(p) => ResumeKeeps(m, p);
  }

  // ---------------------------------------------------------------- every run

  ghost predicate Legal(m: Mon, es: seq<Event>)
    decreases |es|
  {
    es == [] || (Can(m, es[0]) && Legal(Step(m, es[0]), es[1..]))
  }

  ghost function Exec(m: Mon, es: seq<Event>): Mon
    requires Legal(m, es)
    decreases |es|
  {
    if es == [] then m else Exec(Step(m, es[0]), es[1..])
  }

  /** After `init_monitor` with `n` conditions, no process is inside. */
  ghost predicate Fresh(m: Mon) {
    && m.mutex == Sem(1, []) && m.next == Sem(0, []) && m.nextCount == 0
    && (forall c :: 0 <= c < |m.conds| ==> m.conds[c] == Cond(Sem(0, []), 0))
    && (forall p :: p in m.pc ==> m.pc[p] == Outside)
  }

  lemma {:induction false} BankedZero(conds: seq<Cond>)
    requires forall c :: 0 <= c < |conds| ==> conds[c].sem.value == 0
    ensures Banked(conds) == 0
  {
    if conds != [] { BankedZero(conds[1..]); }
  }

  lemma FreshInv(m: Mon)
    requires Fresh(m)
    ensures Inv(m)
  {
    BankedZero(m.conds);
    assert Holders(m.pc) == {} && Signallers(m.pc) == {};
    forall c | 0 <= c < |m.conds| ensures CondOk(m.conds[c], m.pc, c) {
      assert Waiters(m.pc, c) == {};
    }
  }

  /** Over any run from a fresh monitor there is exactly one token; the counts
      equal the pending waiters and signallers; a banked token is owed. */
  lemma {:induction false} RunKeepsInvariant(m: Mon, es: seq<Event>)
    requires Inv(m) && Legal(m, es)
    ensures Inv(Exec(m, es))
    decreases |es|
  {
    if es != [] {
      StepKeeps(m, es[0]);
      RunKeepsInvariant(Step(m, es[0]), es[1..]);
    }
  }

  /** Mutual exclusion: at most one process is active in the monitor, and while
      one is, nobody else has even been chosen to enter. */
  lemma MutualExclusion(m: Mon, es: seq<Event>, p: Pid, q: Pid)
    requires Fresh(m) && Legal(m, es)
    requires var r := Exec(m, es).pc; p in r && q in r && r[p] == Active && HasToken(r[q])
    ensures p == q
  {
    FreshInv(m);
    RunKeepsInvariant(m, es);
    TokenElsewhere(Exec(m, es), p);
  }
}
