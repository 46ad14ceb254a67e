/** Process identifiers (kernel/proc/proc.c:244-268): `alloc_pid` with its cached
    window of pids known to be free, and the way `do_fork` and `do_wait` use it. */
module Pids {
  import opened Prelude
  import opened Sets

  /** The pid after `p`, going round in [1, max). */
  function Succ(p: int, max: int): int {
    if p + 1 >= max then 1 else p + 1
  }

  /** How many steps of `Succ` lead from `a` to `b`. */
  function Dist(a: int, b: int, max: int): int {
    if a <= b then b - a else b - a + max - 1
  }

  predicate InRange(p: int, max: int) { 1 <= p < max }

  /** `r` is the first pid not in use, counting round from `from`. */
  ghost predicate FirstFree(live: seq<int>, from: int, r: int, max: int) {
    && InRange(r, max) && r !in live
    && AllLiveBefore(live, from, r, max)
  }

  ghost predicate AllLiveBefore(live: seq<int>, from: int, r: int, max: int) {
    forall x :: InRange(x, max) && Dist(from, x, max) < Dist(from, r, max) ==> x in live
  }

  /** There is only one such pid: the allocator's answer is determined by the
      pids in use and the last one handed out. */
  lemma FirstFreeUnique(live: seq<int>, from: int, r: int, r': int, max: int)
    requires InRange(from, max) && FirstFree(live, from, r, max) && FirstFree(live, from, r', max)
    ensures r == r'
  {
    assert Dist(from, r, max) == Dist(from, r', max);
  }

  /** No pid in use lies strictly between the last one handed out and the
      cached bound: that is why the allocator may skip its scan. */
  ghost predicate Window(live: seq<int>, prev: int, next: int) {
    forall k :: 0 <= k < |live| ==> !(prev < live[k] < next)
  }

  lemma {:induction false} RangeCard(a: int, b: int) returns (s: set<int>)
    requires a <= b
    ensures (forall x :: x in s <==> a <= x < b) && |s| == b - a
    decreases b - a
  {
    if a < b {
      var r := RangeCard(a, b - 1);
      s := r + {b - 1};
    } else {
      s := {};
    }
  }

  function Elems(q: seq<int>): set<int> { set x | x in q }

  lemma {:induction false} SeqCard(q: seq<int>)
    ensures |Elems(q)| <= |q|
  {
    if q != [] {
      SeqCard(q[1..]);
      assert Elems(q) == Elems(q[1..]) + {q[0]};
    }
  }

  /** With fewer processes than pids some pid is free. */
  lemma SomeFree(live: seq<int>, max: int) returns (f: int)
    requires |live| < max - 1
    ensures InRange(f, max) && f !in live
  {
    SeqCard(live);
    var all := RangeCard(1, max);
    if forall x :: x in all ==> x in Elems(live) {
      SubsetCard(all, Elems(live));
    }
    f :| f in all && f !in Elems(live);
  }

  lemma DistSucc(from: int, p: int, f: int, max: int)
    requires InRange(from, max) && InRange(p, max) && InRange(f, max)
    requires Dist(from, p, max) < Dist(from, f, max)
    ensures InRange(Succ(p, max), max)
    ensures Dist(from, Succ(p, max), max) == Dist(from, p, max) + 1
  {
  }

  lemma LiveStep(live: seq<int>, from: int, p: int, f: int, max: int)
    requires InRange(from, max) && InRange(p, max) && InRange(f, max)
    requires AllLiveBefore(live, from, p, max) && p in live && f !in live
    requires Dist(from, p, max) <= Dist(from, f, max)
    ensures InRange(Succ(p, max), max)
    ensures Dist(from, p, max) < Dist(from, Succ(p, max), max) <= Dist(from, f, max)
    ensures AllLiveBefore(live, from, Succ(p, max), max)
  {
    assert p != f;
    assert Dist(from, p, max) < Dist(from, f, max);
    DistSucc(from, p, f, max);
    forall x | InRange(x, max) && Dist(from, x, max) < Dist(from, Succ(p, max), max) ensures x in live {
      if Dist(from, x, max) == Dist(from, p, max) { assert x == p; }
    }
  }

  /** The process list, as far as pids are concerned, with the two static
      variables of `alloc_pid`. */
  class PidTable {
    const maxProcess: int
    const maxPid: int
    var prevPid: int
    var nextPid: int
    var pids: seq<int>  // g_proc_list, front first

    ghost predicate Valid()
      reads this
    {
      && 1 <= maxProcess && maxPid == 2 * maxProcess
      && 1 <= prevPid <= maxPid && 1 <= nextPid <= maxPid
      && (forall k :: 0 <= k < |pids| ==> InRange(pids[k], maxPid))
      && (forall j, k :: 0 <= j < k < |pids| ==> pids[j] != pids[k])
      && Window(pids, prevPid, nextPid)
    }

    constructor (maxProcess: int)
      requires maxProcess >= 1
      ensures Valid() && pids == [] && this.maxProcess == maxProcess
    {
      this.maxProcess := maxProcess;
      maxPid := 2 * maxProcess;
      prevPid, nextPid := 2 * maxProcess, 2 * maxProcess;
      pids := [];
    }

    /** The loop of `alloc_pid`, from a first candidate. It may restart, but every
        change of the candidate brings it closer to the pid `free`, which is free. */
    method Scan(ghost free: int)
      requires 1 <= prevPid < maxPid
      requires InRange(free, maxPid) && free !in pids
      requires forall k :: 0 <= k < |pids| ==> InRange(pids[k], maxPid)
      modifies this`prevPid, this`nextPid
      ensures prevPid < nextPid <= maxPid
      ensures FirstFree(pids, old(prevPid), prevPid, maxPid) && Window(pids, prevPid, nextPid)
    {
      ghost var from := prevPid;
      nextPid := maxPid;
      var i := 0;
      while i < |pids|
        invariant 0 <= i <= |pids|
        invariant 1 <= prevPid < nextPid <= maxPid
        invariant forall k :: 0 <= k < i ==> pids[k] != prevPid && !(prevPid < pids[k] < nextPid)
        invariant Dist(from, prevPid, maxPid) <= Dist(from, free, maxPid)
        invariant AllLiveBefore(pids, from, prevPid, maxPid)
        decreases Dist(from, free, maxPid) - Dist(from, prevPid, maxPid), |pids| - i
      {
        if pids[i] == prevPid {
          LiveStep(pids, from, prevPid, free, maxPid);
          prevPid := prevPid + 1;
          if prevPid >= nextPid {
            if prevPid >= maxPid { prevPid := 1; }
            nextPid := maxPid;
            i := 0;
            continue;
          }
        } else if prevPid < pids[i] < nextPid {
          nextPid := pids[i];
        }
        i := i + 1;
      }
    }

    /** `alloc_pid`. */
    method AllocPid() returns (pid: int)
      requires Valid() && |pids| < maxPid - 1
      modifies this`prevPid, this`nextPid
      ensures Valid() && pid == prevPid
      ensures FirstFree(pids, Succ(old(prevPid), maxPid), pid, maxPid)
    {
      ghost var free := SomeFree(pids, maxPid);
      prevPid := if prevPid + 1 >= maxPid then 1 else prevPid + 1;
      if prevPid >= nextPid || prevPid == 1 {
        Scan(free);
      }
      pid := prevPid;
    }

    /** `do_fork`, as far as the limit, the pid and the list are concerned; `memory`
        says whether its allocations succeed. The new process goes to the front of
        the list, and a fork that fails leaves list and pid window alone. */
    method Fork(memory: bool) returns (pid: int)
      requires Valid()
      modifies this
      ensures Valid()
      ensures pid == -ENoFreeProc <==> old(|pids|) + 1 > maxProcess
      ensures pid == -ENoMem <==> old(|pids|) + 1 <= maxProcess && !memory
      ensures pid < 0 ==> pids == old(pids) && prevPid == old(prevPid) && nextPid == old(nextPid)
      ensures pid >= 0 ==>
        && FirstFree(old(pids), Succ(old(prevPid), maxPid), pid, maxPid)
        && pids == [pid] + old(pids)
    {
      if |pids| + 1 > maxProcess { return -ENoFreeProc; }
      if !memory { return -ENoMem; }
      pid := AllocPid();
      pids := [pid] + pids;
    }

    /** The end of `do_wait`: a process leaves the list, wherever it is in it. */
    method Reap(k: nat)
      requires Valid() && k < |pids|
      modifies this`pids
      ensures Valid() && pids == old(pids)[..k] + old(pids)[k + 1..]
    {
      ghost var before := pids;
      pids := pids[..k] + pids[k + 1..];
      assert forall j :: 0 <= j < |pids| ==> pids[j] == if j < k then before[j] else before[j + 1];
    }
  }
}
