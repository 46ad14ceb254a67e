/** Circular doubly linked lists (kernel/lib/list.h) and the wait queue built
    from them (kernel/sync/wait.c). */
module Ring {

  const WaitInt: int := 0x8000_0000
  const WaitSem: int := 0x100

  /** `struct list`. `owner` names the structure the link is part of, which macros
      such as LIST2WAIT recover, and for a wait structure its process; such a
      structure also has a `wakeupState`. */
  class Link {
    var prev: Link
    var next: Link
    const owner: nat
    var wakeupState: int

    /** `init_list`, and for a wait structure `init_wait`. */
    constructor (owner: nat)
      ensures prev == this && next == this && this.owner == owner && IsRing([this])
      ensures wakeupState == WaitInt
    {
      this.owner := owner;
      wakeupState := WaitInt;
      prev := this;
      next := this;
    }
  }

  /** Following `next` from `s[0]` visits `s` and comes back, and `prev` is its inverse. */
  ghost predicate IsRing(s: seq<Link>)
    reads s
  {
    && s != []
    && (forall i, j :: 0 <= i < j < |s| ==> s[i] != s[j])
    && (forall i :: 0 <= i < |s| - 1 ==> s[i].next == s[i + 1])
    && (forall i :: 0 < i < |s| ==> s[i].prev == s[i - 1])
    && s[|s| - 1].next == s[0]
    && s[0].prev == s[|s| - 1]
  }

  /** `list_empty`. */
  method ListEmpty(list: Link, ghost s: seq<Link>) returns (empty: bool)
    requires IsRing(s) && s[0] == list
    ensures empty <==> s == [list]
  {
    empty := list == list.prev && list == list.next;
    assert |s| > 1 ==> s[0] != s[1];
  }

  /** `add_list`: the stores, whatever the arguments are. */
  method AddList(prev: Link, next: Link, entry: Link)
    requires entry != prev && entry != next
    modifies prev`next, next`prev, entry
    ensures prev.next == entry && next.prev == entry && entry.prev == prev && entry.next == next
  {
    next.prev := entry;
    prev.next := entry;
    entry.prev := prev;
    entry.next := next;
  }

  /** `del_list`: the stores. The deleted node keeps its links. */
  method DelList(list: Link)
    modifies list.prev`next, list.next`prev
    ensures old(list.prev).next == old(list.next)
    ensures old(list.next).prev == old(list.prev)
  {
    list.prev.next := list.next;
    list.next.prev := list.prev;
  }

  /** `add_list` as its comment describes it: `prev` and `next` are consecutive. */
  method InsertBetween(prev: Link, next: Link, entry: Link, ghost s: seq<Link>, ghost i: nat)
    requires IsRing(s) && i < |s| && entry !in s
    requires prev == s[i] && next == if i + 1 < |s| then s[i + 1] else s[0]
    modifies prev`next, next`prev, entry
    ensures IsRing(s[..i + 1] + [entry] + s[i + 1..])
  {
    ghost var r := s[..i + 1] + [entry] + s[i + 1..];
    AddList(prev, next, entry);
    assert forall k :: 0 <= k <= i ==> r[k] == s[k];
    assert forall k :: i + 1 < k < |r| ==> r[k] == s[k - 1];
  }

  /** `del_list` followed by `init_list`. */
  method Unlink(x: Link, ghost s: seq<Link>, ghost i: nat)
    requires IsRing(s) && 0 < i < |s| && x == s[i]
    modifies x.prev`next, x.next`prev, x
    ensures IsRing(s[..i] + s[i + 1..]) && IsRing([x])
  {
    ghost var r := s[..i] + s[i + 1..];
    assert x.prev == s[i - 1] && x.next == if i + 1 < |s| then s[i + 1] else s[0];
    assert x !in r;
    DelList(x);
    x.prev := x;
    x.next := x;
    assert forall k :: 0 <= k < i ==> r[k] == s[k];
    assert forall k :: i <= k < |r| ==> r[k] == s[k + 1];
    assert r[|r| - 1] == if i + 1 < |s| then s[|s| - 1] else s[i - 1];
  }

  // -------------------------------------------------------------- wait queue

  /** What a wait queue holds after a process joins it: the newcomer in front,
      and of those before it only the last. */
  function Join<T>(q: seq<T>, x: T): seq<T> {
    if q == [] then [x] else [x, q[|q| - 1]]
  }

  /** Nobody is dropped when a process joins exactly if at most one is queued. */
  lemma JoinKeepsAll<T>(q: seq<T>, x: T)
    requires forall i, j :: 0 <= i < j < |q| ==> q[i] != q[j]
    requires x !in q
    ensures (forall w :: w in q ==> w in Join(q, x)) <==> |q| <= 1
    ensures forall w :: w in Join(q, x) ==> w == x || w in q
  {
    if |q| >= 2 {
      assert q[0] in q && q[0] !in Join(q, x);
    }
  }

  /** `add_wait_queue` passes the queue head as `prev` and the last node as
      `next`, the wrong way round. The ring that remains is `Join`. */
  method AddWaitQueue(head: Link, wait: Link, ghost q: seq<Link>)
    requires IsRing([head] + q) && wait !in [head] + q
    modifies head, head.prev, wait
    ensures IsRing([head] + Join(q, wait))
  {
    ghost var s := [head] + q;
    assert head == s[0] && head.prev == s[|s| - 1];
    assert q != [] ==> head.prev == q[|q| - 1];
    AddList(head, head.prev, wait);
  }

  /** `wait_queue_first`. */
  method WaitQueueFirst(head: Link, ghost q: seq<Link>) returns (first: Link?)
    requires IsRing([head] + q)
    ensures if q == [] then first == null else first == q[0]
  {
    ghost var s := [head] + q;
    assert q != [] ==> s[0].next == s[1] && s[0] != s[1];
    if head.next != head { return head.next; } else { return null; }
  }

  /** `del_wait_queue` of the first waiter, as `up` does it. */
  method DelFirst(head: Link, ghost q: seq<Link>)
    requires IsRing([head] + q) && q != []
    modifies head, q
    ensures IsRing([head] + q[1..])
    ensures IsRing([q[0]])
  {
    ghost var s := [head] + q;
    var x := head.next;
    assert x == s[1] == q[0];
    assert x.next == if |q| > 1 then s[2] else head;
    assert |q| > 1 ==> s[2] == q[1];
    Unlink(x, s, 1);
    assert s[..1] + s[2..] == [head] + q[1..];
  }
}
