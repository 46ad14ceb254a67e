/** Counting semaphores (kernel/sync/sem.c) over the wait queue as it really
    behaves (module Ring): a process that blocks keeps, of those queued before
    it, only the last. */
module Semaphore {
  import opened Prelude
  import opened Ring

  type Pid = nat

  datatype Sem = Sem(value: nat, queue: seq<Pid>)

  /** `down` up to the point where it returns or calls `schedule`. It blocks
      exactly if the value is zero. */
  function Down(s: Sem, p: Pid): Sem {
    if s.value > 0 then s.(value := s.value - 1) else s.(queue := Join(s.queue, p))
  }

  /** `up`: the token is banked, or handed to the first in the queue. */
  function Up(s: Sem): Sem {
    if s.queue == [] then s.(value := s.value + 1) else s.(queue := s.queue[1..])
  }

  function Wakes(s: Sem): Option<Pid> {
    if s.queue == [] then None else Some(s.queue[0])
  }

  predicate SemOk(s: Sem) {
    && (s.value > 0 ==> s.queue == [])
    && |s.queue| <= 2
    && (|s.queue| == 2 ==> s.queue[0] != s.queue[1])
  }

  // ------------------------------------------------------------------ whole runs

  datatype Op = OpDown(p: Pid) | OpUp

  /** A semaphore, the processes blocked on it, and how many calls of `down`
      have been passed so far. */
  datatype Use = Use(sem: Sem, blocked: set<Pid>, passed: nat)

  predicate Can(u: Use, op: Op) {
    op.OpDown? ==> op.p !in u.blocked  // a blocked process runs nothing
  }

  function Step(u: Use, op: Op): Use {
    match op
    case OpDown(p) =>
      if u.sem.value > 0 then Use(Down(u.sem, p), u.blocked, u.passed + 1)
      else Use(Down(u.sem, p), u.blocked + {p}, u.passed)
    case OpUp =>
      match Wakes(u.sem)
      case None => Use(Up(u.sem), u.blocked, u.passed)
      case Some(p) => Use(Up(u.sem), u.blocked - {p}, u.passed + 1)
  }

  predicate UseOk(u: Use) {
    SemOk(u.sem) && forall p :: p in u.sem.queue ==> p in u.blocked
  }

  ghost predicate Legal(u: Use, ops: seq<Op>)
    decreases |ops|
  {
    ops == [] || (Can(u, ops[0]) && Legal(Step(u, ops[0]), ops[1..]))
  }

  ghost function Run(u: Use, ops: seq<Op>): Use
    decreases |ops|
  {
    if ops == [] then u else Run(Step(u, ops[0]), ops[1..])
  }

  function Ups(ops: seq<Op>): nat {
    if ops == [] then 0 else (if ops[0] == OpUp then 1 else 0) + Ups(ops[1..])
  }

  lemma StepOk(u: Use, op: Op)
    requires UseOk(u) && Can(u, op)
    ensures UseOk(Step(u, op))
  {
    match op
    case OpDown(p) =>
      JoinKeepsAll(u.sem.queue, p);
    case OpUp =>
      if u.sem.queue != [] {
        assert forall x :: x in u.sem.queue[1..] ==> x in u.sem.queue && x != u.sem.queue[0];
      }
  }

  /** Tokens are neither made nor destroyed: every `up` is banked or has let
      exactly one `down` through. */
  lemma {:induction false} TokensConserved(u: Use, ops: seq<Op>)
    requires UseOk(u) && Legal(u, ops)
    ensures UseOk(Run(u, ops))
    ensures Run(u, ops).sem.value + Run(u, ops).passed == u.sem.value + u.passed + Ups(ops)
    decreases |ops|
  {
    if ops != [] {
      StepOk(u, ops[0]);
      TokensConserved(Step(u, ops[0]), ops[1..]);
    }
  }

  // -------------------------------------------------------------- lost waiters

  /** Everybody who is blocked can still be woken. */
  predicate NoneLost(u: Use) {
    forall p :: p in u.blocked ==> p in u.sem.queue
  }

  ghost predicate NeverLost(u: Use, ops: seq<Op>)
    decreases |ops|
  {
    NoneLost(u) && (ops != [] ==> NeverLost(Step(u, ops[0]), ops[1..]))
  }

  ghost predicate AtMostTwo(u: Use, ops: seq<Op>)
    decreases |ops|
  {
    |u.blocked| <= 2 && (ops != [] ==> AtMostTwo(Step(u, ops[0]), ops[1..]))
  }

  /** A waiter that has dropped out of the queue sleeps for ever, whatever the
      other processes do. */
  lemma {:induction false} LostForever(u: Use, ops: seq<Op>, p: Pid)
    requires UseOk(u) && Legal(u, ops)
    requires p in u.blocked && p !in u.sem.queue
    ensures p in Run(u, ops).blocked && p !in Run(u, ops).sem.queue
    decreases |ops|
  {
    if ops != [] {
      StepOk(u, ops[0]);
      if ops[0].OpDown? { JoinKeepsAll(u.sem.queue, ops[0].p); }
      LostForever(Step(u, ops[0]), ops[1..], p);
    }
  }

  lemma QueueIsBlocked(u: Use)
    requires UseOk(u)
    ensures NoneLost(u) ==> |u.blocked| == |u.sem.queue|
    ensures |u.blocked| <= |u.sem.queue| ==> NoneLost(u)
  {
    var q := u.sem.queue;
    var s := set p | p in q;
    assert |s| == |q| by {
      if |q| == 1 { assert s == {q[0]}; }
      if |q| == 2 { assert s == {q[0], q[1]}; }
      if |q| == 0 { assert s == {}; }
    }
    assert s <= u.blocked;
    if NoneLost(u) { assert s == u.blocked; }
    if |u.blocked| <= |q| {
      assert |u.blocked - s| == |u.blocked| - |s|;
      assert u.blocked - s == {};
    }
  }

  lemma StepLoss(u: Use, op: Op)
    requires UseOk(u) && Can(u, op) && NoneLost(u)
    ensures |u.blocked| <= 2
    ensures NoneLost(Step(u, op)) <==> |Step(u, op).blocked| <= 2
  {
    QueueIsBlocked(u);
    StepOk(u, op);
    var v := Step(u, op);
    QueueIsBlocked(v);
    if op.OpDown? && u.sem.value == 0 {
      assert |v.blocked| == |u.blocked| + 1;
    } else if op.OpUp? && u.sem.queue != [] {
      assert |v.blocked| == |u.blocked| - 1;
    }
  }

  /** Over a whole run no waiter is ever lost exactly if there are never more
      than two processes blocked at a time. */
  lemma {:induction false} NeverLostIffAtMostTwo(u: Use, ops: seq<Op>)
    requires UseOk(u) && NoneLost(u) && Legal(u, ops)
    ensures NeverLost(u, ops) <==> AtMostTwo(u, ops)
    decreases |ops|
  {
    QueueIsBlocked(u);
    if ops != [] {
      StepOk(u, ops[0]);
      StepLoss(u, ops[0]);
      if NoneLost(Step(u, ops[0])) {
        NeverLostIffAtMostTwo(Step(u, ops[0]), ops[1..]);
      }
    }
  }

  /** Three calls of `down` on an empty semaphore and three of `up`: one process is left. */
  lemma ThirdWaiterLost()
    ensures
      var start := Use(Sem(0, []), {}, 0);
      var ops := [OpDown(1), OpDown(2), OpDown(3), OpUp, OpUp, OpUp];
      && Legal(start, ops)
      && Run(start, ops) == Use(Sem(1, []), {2}, 2)
  {
    var u0 := Use(Sem(0, []), {}, 0);
    var u1 := Step(u0, OpDown(1));
    var u2 := Step(u1, OpDown(2));
    var u3 := Step(u2, OpDown(3));
    var u4 := Step(u3, OpUp);
    var u5 := Step(u4, OpUp);
    var u6 := Step(u5, OpUp);
    assert u1.sem.queue == [1] && u2.sem.queue == [2, 1] && u3.sem.queue == [3, 1];
    assert u5.blocked == {2};
    var t1 := [OpUp];
    var t2 := [OpUp] + t1;
    var t3 := [OpUp] + t2;
    var t4 := [OpDown(3)] + t3;
    var t5 := [OpDown(2)] + t4;
    assert t1 == [OpUp] + [] && Run(u6, []) == u6;
    RunCons(u5, OpUp, []);
    RunCons(u4, OpUp, t1);
    RunCons(u3, OpUp, t2);
    RunCons(u2, OpDown(3), t3);
    RunCons(u1, OpDown(2), t4);
    RunCons(u0, OpDown(1), t5);
    assert [OpDown(1)] + t5 == [OpDown(1), OpDown(2), OpDown(3), OpUp, OpUp, OpUp];
    assert u6 == Use(Sem(1, []), {2}, 2);
  }

  lemma RunCons(u: Use, op: Op, rest: seq<Op>)
    requires Can(u, op) && Legal(Step(u, op), rest)
    ensures Legal(u, [op] + rest) && Run(u, [op] + rest) == Run(Step(u, op), rest)
  {
    assert ([op] + rest)[1..] == rest;
  }

  // ------------------------------------------------- the semaphore and its ring

  /** The processes of the wait structures of a queue. */
  ghost function Owners(waits: seq<Link>): (q: seq<Pid>)
    ensures |q| == |waits| && forall i :: 0 <= i < |waits| ==> q[i] == waits[i].owner
  {
    seq(|waits|, i requires 0 <= i < |waits| => waits[i].owner)
  }

  lemma OwnersJoin(waits: seq<Link>, wait: Link)
    ensures Owners(Join(waits, wait)) == Join(Owners(waits), wait.owner)
    ensures waits != [] ==> Owners(waits[1..]) == Owners(waits)[1..]
  {
  }

  /** `struct semaphore`, with the processes it has put to sleep. */
  class Semaphore {
    var value: nat
    const head: Link           // wait_queue
    var asleep: set<Pid>       // in state PROC_SLEEPING with wait_state WAIT_SEM
    ghost var waits: seq<Link> // the wait structures in the ring, in order
    ghost var passed: nat      // calls of down that got a token

    ghost function State(): Use
      reads this
    {
      Use(Sem(value, Owners(waits)), asleep, passed)
    }

    ghost predicate Valid()
      reads this, [head] + waits
    {
      IsRing([head] + waits) && UseOk(State())
    }

    /** `init_sem`. */
    constructor (value: nat)
      ensures Valid() && State() == Use(Sem(value, []), {}, 0) && fresh(head)
    {
      this.value, asleep, waits, passed := value, {}, [], 0;
      head := new Link(0);
      new;
      assert [head] + waits == [head];
    }

    /** `down` up to the point where it returns (null) or calls `schedule`, asleep
        with the wait structure returned. */
    method DoDown(p: Pid) returns (wait: Link?)
      requires Valid() && p !in asleep
      modifies this, head, waits
      ensures Valid() && State() == Step(old(State()), OpDown(p))
      ensures wait == null <==> old(value) > 0
      ensures wait == null ==> waits == old(waits)
      ensures wait != null ==> fresh(wait) && wait.owner == p && waits == Join(old(waits), wait)
    {
      ghost var u := State();
      StepOk(u, OpDown(p));
      if value > 0 {
        value, passed := value - 1, passed + 1;
        return null;
      }
      var node := new Link(p);
      OwnersJoin(waits, node);
      AddWaitQueue(head, node, waits);
      waits := Join(waits, node);
      asleep := asleep + {p};
      wait := node;
    }

    /** `up`. The process woken was put to sleep by this semaphore, as the assertion
        on its wait_state demands, and its wait structure is out of the ring. */
    method DoUp() returns (wait: Link?)
      requires Valid()
      modifies this, head, waits
      ensures Valid() && State() == Step(old(State()), OpUp)
      ensures wait == null <==> old(waits) == []
      ensures wait == null ==> waits == []
      ensures wait != null ==>
        && wait == old(waits)[0] && waits == old(waits)[1..]
        && Wakes(old(State()).sem) == Some(wait.owner) && wait.owner in old(asleep)
        && IsRing([wait]) && wait.wakeupState == WaitSem
    {
      StepOk(State(), OpUp);
      var first := WaitQueueFirst(head, waits);
      if first == null {
        value := value + 1;
      } else {
        WakeupWait(first);
      }
      wait := first;
    }

    /** The other branch of `up`, with `wakeup_wait`. */
    method WakeupWait(first: Link)
      requires Valid() && waits != [] && first == waits[0]
      modifies this`waits, this`asleep, this`passed, head, waits
      ensures Valid() && State() == Step(old(State()), OpUp)
      ensures waits == old(waits)[1..]
      ensures Wakes(old(State()).sem) == Some(first.owner) && first.owner in old(asleep)
      ensures IsRing([first]) && first.wakeupState == WaitSem
    {
      ghost var u := State();
      StepOk(u, OpUp);
      OwnersJoin(waits, head);
      assert first.owner in u.sem.queue;
      assert first.owner in asleep;
      DelFirst(head, waits);
      first.wakeupState := WaitSem;
      waits := waits[1..];
      asleep, passed := asleep - {first.owner}, passed + 1;
    }

    /** The end of `down`, once `up` has woken the process: its wait structure is out
        of the ring, so `del_curr_wait` has nothing to do, and the assertion holds. */
    method ResumeDown(wait: Link) returns (queued: bool)
      requires IsRing([wait]) && wait.wakeupState == WaitSem
      ensures !queued
    {
      var empty := ListEmpty(wait, [wait]);
      queued := !empty;
      assert wait.wakeupState == WaitSem;
    }

    /** `try_down` is `down` if that would not block, and nothing otherwise. */
    method TryDown(p: Pid) returns (ok: bool)
      requires Valid() && p !in asleep
      modifies this`value, this`passed
      ensures Valid() && waits == old(waits)
      ensures ok <==> p !in Step(old(State()), OpDown(p)).blocked
      ensures State() == if ok then Step(old(State()), OpDown(p)) else old(State())
    {
      ok := value > 0;
      if ok { value, passed := value - 1, passed + 1; }
    }

    /** Any run of `down` and `up` on the ring is the run of the step system. */
    method Perform(ops: seq<Op>)
      requires Valid() && Legal(State(), ops)
      modifies this, head, waits
      ensures Valid() && State() == Run(old(State()), ops)
    {
      var i := 0;
      assert ops[0..] == ops;
      while i < |ops|
        invariant 0 <= i <= |ops| && Valid() && Legal(State(), ops[i..])
        invariant Run(State(), ops[i..]) == Run(old(State()), ops)
        invariant forall k :: 0 <= k < |waits| ==> waits[k] in old(waits) || fresh(waits[k])
      {
        assert ops[i..][0] == ops[i] && ops[i..][1..] == ops[i + 1..];
        if ops[i].OpDown? {
          var wait := DoDown(ops[i].p);
        } else {
          var wait := DoUp();
        }
        i := i + 1;
      }
    }
  }
}
