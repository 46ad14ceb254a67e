/** The sleep timers of kernel/proc/schedule.c: a list in which each timer
    stores the ticks that remain after the one before it.

    The list is proved to stand for a plain map from timer to ticks left, and
    the kernel's loops are proved to compute the list functions below. */
module Timers {
  import opened Words

  /** A timer is named by the process that sleeps on it. */
  datatype Timer = Timer(id: nat, expires: u32)

  // --------------------------------------------------------- what it stands for

  /** Ticks left for every timer, counted from `off`. */
  function LeftFrom(ts: seq<Timer>, off: nat): map<nat, nat> {
    if ts == [] then map[]
    else LeftFrom(ts[1..], off + ts[0].expires)[ts[0].id := off + ts[0].expires]
  }

  function Left(ts: seq<Timer>): map<nat, nat> { LeftFrom(ts, 0) }

  ghost predicate Distinct(ts: seq<Timer>) {
    forall i, j :: 0 <= i < j < |ts| ==> ts[i].id != ts[j].id
  }

  ghost predicate Holds(ts: seq<Timer>, id: nat) {
    exists k :: 0 <= k < |ts| && ts[k].id == id
  }

  function Total(ts: seq<Timer>): nat {
    if ts == [] then 0 else ts[0].expires + Total(ts[1..])
  }

  /** What holds between operations. The bound on the total is why no 32-bit
      sum wraps: the last timer has that many ticks left. */
  ghost predicate Good(ts: seq<Timer>) {
    && Distinct(ts)
    && Total(ts) < W32
    && (ts != [] ==> ts[0].expires > 0)
  }

  // ----------------------------------------------------------------- operations

  /** `add_timer`. */
  function Insert(ts: seq<Timer>, id: nat, t: u32): seq<Timer> {
    if ts == [] then [Timer(id, t)]
    else if t < ts[0].expires then [Timer(id, t), ts[0].(expires := ts[0].expires - t)] + ts[1..]
    else [ts[0]] + Insert(ts[1..], id, t - ts[0].expires)
  }

  /** `del_timer`. */
  function Delete(ts: seq<Timer>, id: nat): seq<Timer>
    requires Total(ts) < W32
  {
    if ts == [] then []
    else if ts[0].id != id then [ts[0]] + Delete(ts[1..], id)
    else if |ts| == 1 then []
    else
      assert Total(ts) == ts[0].expires + ts[1].expires + Total(ts[1..][1..]);
      [ts[1].(expires := ts[0].expires + ts[1].expires)] + ts[2..]
  }

  /** The timers at the head with nothing left, and the rest. */
  function Expired(ts: seq<Timer>): (seq<nat>, seq<Timer>) {
    if ts == [] || ts[0].expires > 0 then ([], ts)
    else
      var (ids, rest) := Expired(ts[1..]);
      ([ts[0].id] + ids, rest)
  }

  /** `run_timers`: the timers that fire, in order, and the list that remains. */
  function Tick(ts: seq<Timer>): (seq<nat>, seq<Timer>)
    requires ts != [] ==> ts[0].expires > 0
  {
    if ts == [] then ([], [])
    else Expired([ts[0].(expires := ts[0].expires - 1)] + ts[1..])
  }

  // ------------------------------------------------------------ they refine the map

  lemma {:induction false} LeftKeys(ts: seq<Timer>, off: nat, id: nat)
    ensures id in LeftFrom(ts, off) <==> Holds(ts, id)
  {
    if ts != [] {
      LeftKeys(ts[1..], off + ts[0].expires, id);
      if Holds(ts, id) && ts[0].id != id {
        var k :| 0 <= k < |ts| && ts[k].id == id;
        assert ts[1..][k - 1].id == id;
      }
    }
  }

  lemma {:induction false} LeftBounds(ts: seq<Timer>, off: nat, id: nat)
    requires id in LeftFrom(ts, off)
    ensures off <= LeftFrom(ts, off)[id] <= off + Total(ts)
  {
    if ts[0].id != id {
      LeftBounds(ts[1..], off + ts[0].expires, id);
    }
  }

  lemma {:induction false} InsertLeft(ts: seq<Timer>, id: nat, t: u32, off: nat)
    requires Distinct(ts) && !Holds(ts, id)
    ensures LeftFrom(Insert(ts, id, t), off) == LeftFrom(ts, off)[id := off + t]
  {
    if ts != [] {
      assert ts[0].id != id;
      if t < ts[0].expires {
        var r := Insert(ts, id, t);
        assert r[1..] == [ts[0].(expires := ts[0].expires - t)] + ts[1..];
        assert r[1..][1..] == ts[1..];
      } else {
        assert !Holds(ts[1..], id);
        InsertLeft(ts[1..], id, t - ts[0].expires, off + ts[0].expires);
        assert Insert(ts, id, t)[1..] == Insert(ts[1..], id, t - ts[0].expires);
      }
    }
  }

  lemma {:induction false} DeleteLeft(ts: seq<Timer>, id: nat, off: nat)
    requires Distinct(ts) && Total(ts) < W32
    ensures LeftFrom(Delete(ts, id), off) == LeftFrom(ts, off) - {id}
  {
    if ts != [] {
      var rest := ts[1..];
      if ts[0].id != id {
        DeleteLeft(rest, id, off + ts[0].expires);
        assert Delete(ts, id)[1..] == Delete(rest, id);
      } else {
        LeftKeys(rest, off + ts[0].expires, id);
        if |ts| > 1 {
          assert Delete(ts, id)[1..] == rest[1..];
        }
      }
    }
  }

  lemma {:induction false} InsertKeeps(ts: seq<Timer>, id: nat, t: u32)
    requires Distinct(ts) && !Holds(ts, id)
    ensures Distinct(Insert(ts, id, t))
    ensures forall x :: Holds(Insert(ts, id, t), x) <==> x == id || Holds(ts, x)
    ensures Total(Insert(ts, id, t)) == if t <= Total(ts) then Total(ts) else t
  {
    if ts != [] {
      if t < ts[0].expires {
        InsertFirst(ts, id, t);
      } else {
        assert !Holds(ts[1..], id);
        InsertKeeps(ts[1..], id, t - ts[0].expires);
        InsertLater(ts, id, t);
      }
    }
  }

  lemma InsertFirst(ts: seq<Timer>, id: nat, t: u32)
    requires Distinct(ts) && !Holds(ts, id) && ts != [] && t < ts[0].expires
    ensures Distinct(Insert(ts, id, t)) && Total(Insert(ts, id, t)) == Total(ts)
    ensures forall x :: Holds(Insert(ts, id, t), x) <==> x == id || Holds(ts, x)
  {
    var head := ts[0].(expires := ts[0].expires - t);
    var rest := [head] + ts[1..];
    assert Insert(ts, id, t) == [Timer(id, t)] + rest;
    assert Total(rest) == head.expires + Total(ts[1..]) by { assert rest[1..] == ts[1..]; }
    assert Total([Timer(id, t)] + rest) == t + Total(rest) by { assert ([Timer(id, t)] + rest)[1..] == rest; }
    FirstIds(ts, id, head, rest);
    ConsDistinct(Timer(id, t), rest);
    forall x ensures Holds([Timer(id, t)] + rest, x) <==> x == id || Holds(ts, x) { ConsHolds(Timer(id, t), rest, x); }
  }

  lemma FirstIds(ts: seq<Timer>, id: nat, head: Timer, rest: seq<Timer>)
    requires Distinct(ts) && !Holds(ts, id) && ts != [] && head.id == ts[0].id && rest == [head] + ts[1..]
    ensures Distinct(rest) && !Holds(rest, id) && forall x :: Holds(rest, x) <==> Holds(ts, x)
  {
    assert ts == [ts[0]] + ts[1..];
    ConsDistinct(head, ts[1..]);
    ConsDistinct(ts[0], ts[1..]);
    forall x ensures Holds(rest, x) <==> Holds(ts, x) {
      ConsHolds(head, ts[1..], x);
      ConsHolds(ts[0], ts[1..], x);
    }
  }

  lemma InsertLater(ts: seq<Timer>, id: nat, t: u32)
    requires Distinct(ts) && ts != [] && t >= ts[0].expires && ts[0].id != id
    requires Distinct(Insert(ts[1..], id, t - ts[0].expires))
    requires forall x :: Holds(Insert(ts[1..], id, t - ts[0].expires), x) <==> x == id || Holds(ts[1..], x)
    ensures Distinct(Insert(ts, id, t))
    ensures Total(Insert(ts, id, t)) == ts[0].expires + Total(Insert(ts[1..], id, t - ts[0].expires))
    ensures forall x :: Holds(Insert(ts, id, t), x) <==> x == id || Holds(ts, x)
  {
    var rest := Insert(ts[1..], id, t - ts[0].expires);
    assert Insert(ts, id, t) == [ts[0]] + rest && ts == [ts[0]] + ts[1..];
    assert ([ts[0]] + rest)[1..] == rest;
    forall x ensures Holds([ts[0]] + rest, x) <==> x == id || Holds(ts, x) {
      ConsHolds(ts[0], rest, x);
      ConsHolds(ts[0], ts[1..], x);
    }
    ConsDistinct(ts[0], ts[1..]);
    ConsDistinct(ts[0], rest);
  }

  lemma ConsHolds(a: Timer, ts: seq<Timer>, x: nat)
    ensures Holds([a] + ts, x) <==> a.id == x || Holds(ts, x)
  {
    var r := [a] + ts;
    if Holds(ts, x) {
      var k :| 0 <= k < |ts| && ts[k].id == x;
      assert r[k + 1].id == x;
    }
    if a.id == x { assert r[0].id == x; }
    if Holds(r, x) && a.id != x {
      var k :| 0 <= k < |r| && r[k].id == x;
      assert ts[k - 1].id == x;
    }
  }

  lemma ConsDistinct(a: Timer, ts: seq<Timer>)
    ensures Distinct([a] + ts) <==> Distinct(ts) && !Holds(ts, a.id)
  {
    var r := [a] + ts;
    if Distinct(r) {
      assert forall i :: 0 <= i < |ts| ==> ts[i] == r[i + 1];
      assert forall i :: 0 <= i < |ts| ==> ts[i].id != r[0].id;
    }
  }

  lemma {:induction false} DeleteKeeps(ts: seq<Timer>, id: nat)
    requires Distinct(ts) && Total(ts) < W32
    ensures Distinct(Delete(ts, id)) && Total(Delete(ts, id)) <= Total(ts)
    ensures forall x :: Holds(Delete(ts, id), x) <==> x != id && Holds(ts, x)
    ensures ts != [] && ts[0].expires > 0 && Delete(ts, id) != [] ==> Delete(ts, id)[0].expires > 0
  {
    if ts != [] {
      var a, rest, r := ts[0], ts[1..], Delete(ts, id);
      assert ts == [a] + rest;
      ConsDistinct(a, rest);
      if a.id != id {
        DeleteKeeps(rest, id);
        assert r[1..] == Delete(rest, id);
        ConsDistinct(a, Delete(rest, id));
        forall x ensures Holds(r, x) <==> x != id && Holds(ts, x) {
          ConsHolds(a, rest, x);
          ConsHolds(a, Delete(rest, id), x);
        }
      } else {
        forall x ensures Holds(r, x) <==> x != id && Holds(ts, x) {
          ConsHolds(a, rest, x);
          if |ts| > 1 {
            ConsHolds(rest[0], rest[1..], x);
            assert rest == [rest[0]] + rest[1..];
            ConsHolds(r[0], rest[1..], x);
          }
        }
        if |ts| > 1 {
          assert rest == [rest[0]] + rest[1..];
          assert r[1..] == rest[1..];
          ConsDistinct(rest[0], rest[1..]);
          ConsDistinct(r[0], rest[1..]);
        }
      }
    }
  }

  /** `add_timer` adds one entry to the map and keeps the rest. */
  lemma AddRefines(ts: seq<Timer>, id: nat, t: u32)
    requires Good(ts) && id !in Left(ts) && t > 0
    ensures Good(Insert(ts, id, t)) && Left(Insert(ts, id, t)) == Left(ts)[id := t]
  {
    LeftKeys(ts, 0, id);
    InsertLeft(ts, id, t, 0);
    InsertKeeps(ts, id, t);
  }

  /** `del_timer` removes one entry of the map, if it is there, and keeps the rest. */
  lemma DelRefines(ts: seq<Timer>, id: nat)
    requires Good(ts)
    ensures Good(Delete(ts, id)) && Left(Delete(ts, id)) == Left(ts) - {id}
  {
    DeleteLeft(ts, id, 0);
    DeleteKeeps(ts, id);
  }

  // ------------------------------------------------------------------- one tick

  lemma {:induction false} LeftShift(ts: seq<Timer>, off: nat)
    ensures LeftFrom(ts, off + 1).Keys == LeftFrom(ts, off).Keys
    ensures forall x :: x in LeftFrom(ts, off) ==> LeftFrom(ts, off + 1)[x] == LeftFrom(ts, off)[x] + 1
  {
    if ts != [] {
      LeftShift(ts[1..], off + ts[0].expires);
    }
  }

  /** The timers that expire are the first of the list, in its order. */
  lemma {:induction false} ExpiredOrder(ts: seq<Timer>)
    ensures
      var ids := Expired(ts).0;
      |ids| <= |ts| && forall i :: 0 <= i < |ids| ==> ids[i] == ts[i].id
  {
    if ts != [] && ts[0].expires == 0 {
      ExpiredOrder(ts[1..]);
      var ids, rest := Expired(ts).0, Expired(ts[1..]).0;
      forall i | 0 <= i < |ids| ensures ids[i] == ts[i].id { if i > 0 { assert ids[i] == rest[i - 1]; } }
    }
  }

  lemma HeadFires(ts: seq<Timer>)
    requires Good(ts) && ts != []
    ensures
      var us := ts[0 := ts[0].(expires := ts[0].expires - 1)];
      Distinct(us) && Total(us) < W32 && Tick(ts) == Expired(us)
  {
    var us := ts[0 := ts[0].(expires := ts[0].expires - 1)];
    assert us == [us[0]] + ts[1..];
    HeadTicks(ts, us);
  }

  lemma TickOrder(ts: seq<Timer>)
    requires ts != [] ==> ts[0].expires > 0
    ensures
      var ids := Tick(ts).0;
      |ids| <= |ts| && forall i :: 0 <= i < |ids| ==> ids[i] == ts[i].id
  {
    if ts != [] { ExpiredOrder([ts[0].(expires := ts[0].expires - 1)] + ts[1..]); }
  }

  lemma {:induction false} ExpiredLeft(ts: seq<Timer>)
    requires Distinct(ts) && Total(ts) < W32
    ensures Good(Expired(ts).1)
    ensures forall x :: x in Expired(ts).0 <==> x in Left(ts) && Left(ts)[x] == 0
    ensures Left(Expired(ts).1) == map x | x in Left(ts) && Left(ts)[x] > 0 :: Left(ts)[x]
    ensures |Expired(ts).0| + |Expired(ts).1| == |ts|
  {
    if ts != [] {
      var rest := ts[1..];
      assert ts == [ts[0]] + rest;
      ConsDistinct(ts[0], rest);
      if ts[0].expires == 0 {
        ExpiredLeft(rest);
        LeftKeys(rest, 0, ts[0].id);
        assert Left(ts) == Left(rest)[ts[0].id := 0];
      } else {
        forall x | x in Left(ts) ensures Left(ts)[x] > 0 {
          if x != ts[0].id { LeftBounds(rest, ts[0].expires, x); }
        }
      }
    }
  }

  /** The map one tick later. */
  function Later(m: map<nat, nat>): map<nat, nat> {
    map x | x in m && m[x] > 1 :: m[x] - 1
  }

  lemma HeadTicks(ts: seq<Timer>, us: seq<Timer>)
    requires Good(ts) && ts != [] && us == [ts[0].(expires := ts[0].expires - 1)] + ts[1..]
    ensures Distinct(us) && Total(us) < W32
    ensures Left(us).Keys == Left(ts).Keys
    ensures forall x :: x in Left(ts) ==> Left(ts)[x] == Left(us)[x] + 1
  {
    var rest := ts[1..];
    assert us[1..] == rest;
    assert ts == [ts[0]] + rest;
    ConsDistinct(ts[0], rest);
    ConsDistinct(us[0], rest);
    LeftShift(rest, ts[0].expires - 1);
  }

  /** `run_timers` takes one tick from every timer and fires exactly those that
      had one left. */
  lemma TickRefines(ts: seq<Timer>)
    requires Good(ts)
    ensures Good(Tick(ts).1) && Left(Tick(ts).1) == Later(Left(ts))
    ensures forall x :: x in Tick(ts).0 <==> x in Left(ts) && Left(ts)[x] == 1
  {
    if ts != [] {
      var us := [ts[0].(expires := ts[0].expires - 1)] + ts[1..];
      HeadTicks(ts, us);
      ExpiredLeft(us);
    }
  }

  // ------------------------------------------------------------------ whole runs

  datatype Op = Add(id: nat, t: u32) | Del(id: nat) | Clock

  /** What the callers guarantee (the assertions of `add_timer`): a timer that
      is added is not in the list and has time left. */
  ghost predicate Legal(m: map<nat, nat>, ops: seq<Op>)
    decreases |ops|
  {
    ops == [] || (
      && (ops[0].Add? ==> ops[0].t > 0 && ops[0].id !in m)
      && Legal(MapStep(m, ops[0]), ops[1..]))
  }

  function MapStep(m: map<nat, nat>, op: Op): map<nat, nat> {
    match op
    case Add(id, t) => m[id := t]
    case Del(id) => m - {id}
    case Clock => Later(m)
  }

  function MapRun(m: map<nat, nat>, ops: seq<Op>): map<nat, nat>
    decreases |ops|
  {
    if ops == [] then m else MapRun(MapStep(m, ops[0]), ops[1..])
  }

  ghost function ListStep(ts: seq<Timer>, op: Op): seq<Timer>
    requires Good(ts)
  {
    match op
    case Add(id, t) => Insert(ts, id, t)
    case Del(id) => Delete(ts, id)
    case Clock => Tick(ts).1
  }

  lemma StepRefines(ts: seq<Timer>, op: Op)
    requires Good(ts) && (op.Add? ==> op.t > 0 && op.id !in Left(ts))
    ensures Good(ListStep(ts, op)) && Left(ListStep(ts, op)) == MapStep(Left(ts), op)
  {
    match op
    case Add(id, t) => AddRefines(ts, id, t);
    case Del(id) => DelRefines(ts, id);
    case Clock => TickRefines(ts);
  }

  ghost function ListRun(ts: seq<Timer>, ops: seq<Op>): (r: seq<Timer>)
    requires Good(ts) && Legal(Left(ts), ops)
    ensures Good(r)
    decreases |ops|
  {
    if ops == [] then ts
    else
      StepRefines(ts, ops[0]);
      ListRun(ListStep(ts, ops[0]), ops[1..])
  }

  /** Under any interleaving of additions, deletions and ticks the delta list
      stands for the plain map, and the head delta is nonzero. */
  lemma {:induction false} RunRefines(ts: seq<Timer>, ops: seq<Op>)
    requires Good(ts) && Legal(Left(ts), ops)
    ensures Left(ListRun(ts, ops)) == MapRun(Left(ts), ops)
    decreases |ops|
  {
    if ops != [] {
      StepRefines(ts, ops[0]);
      RunRefines(ListStep(ts, ops[0]), ops[1..]);
    }
  }

  function Clocks(ops: seq<Op>): nat {
    if ops == [] then 0 else (if ops[0] == Clock then 1 else 0) + Clocks(ops[1..])
  }

  /** `id` is neither added nor deleted. */
  predicate Leaves(ops: seq<Op>, id: nat) {
    forall k :: 0 <= k < |ops| ==> ops[k] == Clock || ops[k].id != id
  }

  lemma {:induction false} MapCounts(m: map<nat, nat>, ops: seq<Op>, id: nat)
    requires id in m && Leaves(ops, id) && Clocks(ops) < m[id]
    ensures id in MapRun(m, ops) && MapRun(m, ops)[id] == m[id] - Clocks(ops)
    decreases |ops|
  {
    if ops != [] {
      MapCounts(MapStep(m, ops[0]), ops[1..], id);
    }
  }

  /** A timer with `t` ticks left that nobody deletes does not fire during the
      next `t - 1` ticks, whatever else happens, and fires at tick `t`. */
  lemma FiresOnTime(ts: seq<Timer>, ops: seq<Op>, id: nat)
    requires Good(ts) && Legal(Left(ts), ops) && id in Left(ts)
    requires Leaves(ops, id) && Clocks(ops) < Left(ts)[id]
    ensures id in Left(ListRun(ts, ops))
    ensures id in Tick(ListRun(ts, ops)).0 <==> Clocks(ops) + 1 == Left(ts)[id]
  {
    RunRefines(ts, ops);
    MapCounts(Left(ts), ops, id);
    TickRefines(ListRun(ts, ops));
  }

  // ------------------------------------------------------------ the kernel's loops

  /** `g_timer_list`. Every `expires` is a `u32`: that the methods below verify
      means that none of their additions and subtractions wraps. */
  class TimerList {
    var timers: seq<Timer>

    ghost predicate Valid()
      reads this
    {
      Good(timers)
    }

    constructor ()
      ensures Valid() && timers == []
    {
      timers := [];
    }

    /** `add_timer`, with the caller's obligations. */
    method AddTimer(id: nat, time: u32)
      requires Valid() && id !in Left(timers) && time > 0
      modifies this
      ensures Valid()
      ensures timers == Insert(old(timers), id, time)
      ensures Left(timers) == old(Left(timers))[id := time]
    {
      AddRefines(timers, id, time);
      WalkAndInsert(id, time);
    }

    /** The loop of `add_timer`: walk the list, turning the time into a delta. */
    method WalkAndInsert(id: nat, time: u32)
      modifies this
      ensures timers == Insert(old(timers), id, time)
    {
      ghost var before := timers;
      var expires: u32 := time;
      var i := 0;
      while i < |timers|
        invariant 0 <= i <= |timers| && timers == before
        invariant time == SumTo(before, i) + expires
      {
        if expires < timers[i].expires {
          timers := timers[i := timers[i].(expires := timers[i].expires - expires)];
          break;
        }
        expires := expires - timers[i].expires;
        i := i + 1;
      }
      InsertAt(before, id, time, i, expires);
      timers := timers[..i] + [Timer(id, expires)] + timers[i..];
    }

    /** `del_timer`: the time of a timer that goes is handed to the next one. */
    method DelTimer(id: nat)
      requires Distinct(timers) && Total(timers) < W32
      modifies this
      ensures timers == Delete(old(timers), id)
      ensures old(Valid()) ==> Valid() && Left(timers) == old(Left(timers)) - {id}
    {
      if Good(timers) { DelRefines(timers, id); }
      var i := 0;
      while i < |timers| && timers[i].id != id
        invariant 0 <= i <= |timers| && timers == old(timers)
        invariant forall j :: 0 <= j < i ==> timers[j].id != id
      {
        i := i + 1;
      }
      if i < |timers| {
        timers := Unhook(timers, id, i);
      } else {
        DeleteAt(timers, id, i);
      }
    }

    /** `run_timers`: one tick, then every timer with nothing left is reported
        and deleted. The assertion on the head cannot fail. */
    method RunTimers() returns (fired: seq<nat>)
      requires Valid()
      modifies this
      ensures Valid()
      ensures fired == Tick(old(timers)).0 && timers == Tick(old(timers)).1
      ensures Left(timers) == Later(old(Left(timers)))
      ensures forall x :: x in fired <==> x in old(Left(timers)) && old(Left(timers))[x] == 1
      ensures |fired| <= |old(timers)| && forall i :: 0 <= i < |fired| ==> fired[i] == old(timers)[i].id
    {
      TickOrder(timers);
      TickRefines(timers);
      if timers == [] { return []; }
      assert timers[0].expires != 0;
      HeadFires(timers);
      timers := timers[0 := timers[0].(expires := timers[0].expires - 1)];
      fired := FireExpired();
    }

    /** The second half of `run_timers`. */
    method FireExpired() returns (fired: seq<nat>)
      requires Distinct(timers) && Total(timers) < W32
      modifies this
      ensures fired == Expired(old(timers)).0 && timers == Expired(old(timers)).1
    {
      fired := [];
      while timers != [] && timers[0].expires == 0
        invariant Distinct(timers) && Total(timers) < W32
        invariant Expired(old(timers)).0 == fired + Expired(timers).0 && Expired(old(timers)).1 == Expired(timers).1
        decreases |timers|
      {
        var timer := timers[0];
        DropZero(timers);
        fired := fired + [timer.id];
        DelTimer(timer.id);
      }
    }
  }

  function SumTo(ts: seq<Timer>, i: nat): nat
    requires i <= |ts|
  {
    if i == 0 then 0 else SumTo(ts, i - 1) + ts[i - 1].expires
  }

  lemma {:induction false} SumShift(ts: seq<Timer>, i: nat)
    requires 0 < i <= |ts|
    ensures SumTo(ts, i) == ts[0].expires + SumTo(ts[1..], i - 1)
  {
    if i > 1 { SumShift(ts, i - 1); }
  }

  /** `Insert`, at the position where the walk stops with `expires` left. */
  lemma {:induction false} InsertAt(ts: seq<Timer>, id: nat, t: u32, i: nat, expires: u32)
    requires i <= |ts| && t == SumTo(ts, i) + expires
    requires i < |ts| ==> expires < ts[i].expires
    ensures i == |ts| ==> Insert(ts, id, t) == ts + [Timer(id, expires)]
    ensures i < |ts| ==>
      Insert(ts, id, t) == ts[..i] + [Timer(id, expires), ts[i].(expires := ts[i].expires - expires)] + ts[i + 1..]
    decreases i
  {
    if i > 0 {
      SumShift(ts, i);
      InsertAt(ts[1..], id, t - ts[0].expires, i - 1, expires);
    }
  }

  /** `Delete`, at the position where a scan stops. */
  lemma {:induction false} DeleteAt(ts: seq<Timer>, id: nat, i: nat)
    requires Total(ts) < W32 && i <= |ts| && (i < |ts| ==> ts[i].id == id)
    requires forall j :: 0 <= j < i ==> ts[j].id != id
    ensures i == |ts| ==> Delete(ts, id) == ts
    ensures i + 1 == |ts| ==> Delete(ts, id) == ts[..i]
    ensures i + 1 < |ts| ==>
      && ts[i].expires + ts[i + 1].expires < W32
      && Delete(ts, id) == ts[..i] + [ts[i + 1].(expires := ts[i].expires + ts[i + 1].expires)] + ts[i + 2..]
    decreases i
  {
    if i > 0 {
      DeleteAt(ts[1..], id, i - 1);
      assert Delete(ts, id) == [ts[0]] + Delete(ts[1..], id);
      FirstApart(ts, i);
      if i + 1 < |ts| {
        Shift(ts[0], ts[1..][..i - 1], [ts[i + 1].(expires := ts[i].expires + ts[i + 1].expires)], ts[i + 2..]);
      }
    } else if |ts| > 1 {
      DeleteFirst(ts);
    }
  }

  /** The stores of `del_timer` for the timer at position `i`. */
  method Unhook(ts: seq<Timer>, id: nat, i: nat) returns (r: seq<Timer>)
    requires Total(ts) < W32 && i < |ts| && ts[i].id == id && forall j :: 0 <= j < i ==> ts[j].id != id
    ensures r == Delete(ts, id)
  {
    DeleteAt(ts, id, i);
    r := ts;
    if ts[i].expires != 0 && i + 1 < |ts| {
      r := r[i + 1 := r[i + 1].(expires := r[i + 1].expires + r[i].expires)];
    }
    Unhooked(ts, i, r);
    r := r[..i] + r[i + 1..];
  }

  lemma Unhooked(ts: seq<Timer>, i: nat, r: seq<Timer>)
    requires i < |ts| == |r| && (i + 1 == |ts| ==> r == ts)
    requires i + 1 < |ts| ==> ts[i].expires + ts[i + 1].expires < W32 && r == ts[i + 1 := r[i + 1]]
    ensures i + 1 == |ts| ==> r[..i] + r[i + 1..] == ts[..i]
    ensures i + 1 < |ts| ==> r[..i] + r[i + 1..] == ts[..i] + [r[i + 1]] + ts[i + 2..]
  {
    if i + 1 < |ts| { assert r[i + 1..] == [r[i + 1]] + ts[i + 2..]; }
  }

  lemma DeleteFirst(ts: seq<Timer>)
    requires Total(ts) < W32 && |ts| > 1
    ensures ts[0].expires + ts[1].expires < W32
    ensures Delete(ts, ts[0].id) == ts[..0] + [ts[1].(expires := ts[0].expires + ts[1].expires)] + ts[2..]
  {
    TotalTwo(ts, 0);
    assert ts[..0] == [] && ts[1..][1..] == ts[2..];
  }

  lemma FirstApart(ts: seq<Timer>, i: nat)
    requires 0 < i <= |ts|
    ensures ts == [ts[0]] + ts[1..] && ts[..i] == [ts[0]] + ts[1..][..i - 1]
    ensures i + 1 < |ts| ==> ts[1..][i + 1..] == ts[i + 2..]
  {
  }

  lemma Shift(x: Timer, a: seq<Timer>, b: seq<Timer>, c: seq<Timer>)
    ensures [x] + (a + b + c) == ([x] + a) + b + c
  {
  }

  lemma {:induction false} TotalTwo(ts: seq<Timer>, i: nat)
    requires i + 1 < |ts|
    ensures ts[i].expires + ts[i + 1].expires <= Total(ts)
    decreases i
  {
    if i > 0 {
      TotalTwo(ts[1..], i - 1);
    } else {
      assert Total(ts) == ts[0].expires + (ts[1..][0].expires + Total(ts[1..][1..]));
    }
  }

  /** Deleting an expired head is dropping it. */
  lemma DropZero(ts: seq<Timer>)
    requires ts != [] && ts[0].expires == 0 && Distinct(ts) && Total(ts) < W32
    ensures Delete(ts, ts[0].id) == ts[1..] && Distinct(ts[1..])
  {
    assert ts == [ts[0]] + ts[1..];
    ConsDistinct(ts[0], ts[1..]);
  }
}
