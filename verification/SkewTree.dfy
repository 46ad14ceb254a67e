/** The skew heap of lib/skew_heap.h as a value, ordered by the wrap-around
    stride comparison of kernel/proc/stride_scheduler.c.

    The pointer version is proved to compute exactly these functions in module
    SkewHeap; the scheduler's run-level results are proved over them in module
    Scheduling. */
module SkewTree {
  import opened Words

  const BigStride: int := 0x4000_0000

  /** A heap node: the process it belongs to and the 32-bit stride stored there. */
  datatype Tree<T> = Leaf | Node(item: T, key: u32, left: Tree<T>, right: Tree<T>)

  function Sign(x: int): (r: int) {
    if x < 0 then -1 else if x > 0 then 1 else 0
  }

  /** `stride_comp_fn`: the sign of the 32-bit difference read as an `i32`. */
  function StrideComp(a: u32, b: u32): int {
    Sign(Signed32(Wrap32(a - b)))
  }

  /** `merge_skew_heap`. */
  function Merge<T>(a: Tree<T>, b: Tree<T>): Tree<T> {
    if a.Leaf? then b
    else if b.Leaf? then a
    else if StrideComp(a.key, b.key) == -1 then
      Node(a.item, a.key, Merge(a.right, b), a.left)
    else
      Node(b.item, b.key, Merge(a, b.right), b.left)
  }

  /** `add_skew_heap`. */
  function Add<T>(t: Tree<T>, x: T, key: u32): Tree<T> {
    Merge(t, Node(x, key, Leaf, Leaf))
  }

  function Items<T>(t: Tree<T>): multiset<T> {
    match t
    case Leaf => multiset{}
    case Node(x, _, l, r) => multiset{x} + Items(l) + Items(r)
  }

  predicate Has<T(==)>(t: Tree<T>, x: T) {
    t.Node? && (t.item == x || Has(t.left, x) || Has(t.right, x))
  }

  /** `del_skew_heap`: the children of `x` are merged and take its place. */
  function Remove<T(==)>(t: Tree<T>, x: T): Tree<T>
    requires Has(t, x)
  {
    if t.item == x then Merge(t.left, t.right)
    else if Has(t.left, x) then Node(t.item, t.key, Remove(t.left, x), t.right)
    else Node(t.item, t.key, t.left, Remove(t.right, x))
  }

  // ---------------------------------------------------------------- contents

  lemma {:induction false} HasItem<T>(t: Tree<T>, x: T)
    ensures Has(t, x) <==> x in Items(t)
  {
    if t.Node? {
      HasItem(t.left, x);
      HasItem(t.right, x);
    }
  }

  lemma {:induction false} MergeItems<T>(a: Tree<T>, b: Tree<T>)
    ensures Items(Merge(a, b)) == Items(a) + Items(b)
  {
    if a.Node? && b.Node? {
      if StrideComp(a.key, b.key) == -1 {
        MergeItems(a.right, b);
      } else {
        MergeItems(a, b.right);
      }
    }
  }

  lemma {:induction false} RemoveItems<T>(t: Tree<T>, x: T)
    requires Has(t, x)
    ensures Items(Remove(t, x)) == Items(t) - multiset{x}
  {
    if t.item == x {
      MergeItems(t.left, t.right);
      assert multiset{x} + Items(t.left) + Items(t.right) - multiset{x} == Items(t.left) + Items(t.right);
    } else if Has(t.left, x) {
      RemoveItems(t.left, x);
      HasItem(t.left, x);
      TakeOne(t.item, Items(t.left), Items(t.right), x);
    } else {
      RemoveItems(t.right, x);
      HasItem(t.right, x);
      TakeOne(t.item, Items(t.right), Items(t.left), x);
    }
  }

  lemma TakeOne<T>(y: T, l: multiset<T>, r: multiset<T>, x: T)
    requires x in l
    ensures multiset{y} + (l - multiset{x}) + r == multiset{y} + l + r - multiset{x}
    ensures multiset{y} + r + (l - multiset{x}) == multiset{y} + r + l - multiset{x}
  {
  }

  function Size<T>(t: Tree<T>): nat {
    if t.Leaf? then 0 else 1 + Size(t.left) + Size(t.right)
  }

  lemma {:induction false} MergeSize<T>(a: Tree<T>, b: Tree<T>)
    ensures Size(Merge(a, b)) == Size(a) + Size(b)
  {
    if a.Node? && b.Node? {
      if StrideComp(a.key, b.key) == -1 {
        MergeSize(a.right, b);
      } else {
        MergeSize(a, b.right);
      }
    }
  }

  lemma {:induction false} RemoveSize<T>(t: Tree<T>, x: T)
    requires Has(t, x)
    ensures Size(Remove(t, x)) == Size(t) - 1
  {
    if t.item == x {
      MergeSize(t.left, t.right);
    } else if Has(t.left, x) {
      RemoveSize(t.left, x);
    } else {
      RemoveSize(t.right, x);
    }
  }

  // -------------------------------------------------------------- comparison

  /** The comparison of two stored strides tells the order of the true strides
      they stand for exactly when the true difference fits an `i32`. */
  lemma CompExact(a: int, b: int)
    requires -W32 < a - b < W32
    ensures StrideComp(Wrap32(a), Wrap32(b)) == Sign(a - b)
       <==> -0x8000_0000 <= a - b < 0x8000_0000
    ensures -1 <= Sign(a - b) <= 1 && (Sign(a - b) < 0 <==> a < b) && (Sign(a - b) > 0 <==> a > b)
  {
    var d := Wrap32(a) - Wrap32(b);
    assert Wrap32(d) == Wrap32(a - b) by { ModDiff(a, b); }
    if a - b < 0 {
      assert Wrap32(a - b) == a - b + W32;
    }
  }

  lemma ModDiff(a: int, b: int)
    ensures (a % W32 - b % W32) % W32 == (a - b) % W32
  {
    var q := a / W32 - b / W32;
    assert a - b == q * W32 + (a % W32 - b % W32);
    ModShift(a % W32 - b % W32, q);
  }

  lemma {:induction false} ModShift(x: int, q: int)
    ensures (x + q * W32) % W32 == x % W32
    decreases if q < 0 then -q else q
  {
    if q > 0 {
      ModShift(x, q - 1);
      assert x + q * W32 == (x + (q - 1) * W32) + W32;
    } else if q < 0 {
      ModShift(x, q + 1);
      assert x + (q + 1) * W32 == (x + q * W32) + W32;
    }
  }

  // -------------------------------------------------------------- heap order

  /** Every node stores the low 32 bits of the true stride of its process, and
      every true stride of `t` lies in `[low, high]`. */
  ghost predicate Keyed<T>(t: Tree<T>, stride: map<T, int>, low: int, high: int) {
    t.Node? ==>
      && t.item in stride
      && t.key == Wrap32(stride[t.item])
      && low <= stride[t.item] <= high
      && Keyed(t.left, stride, low, high)
      && Keyed(t.right, stride, low, high)
  }

  /** Heap order on the true strides. */
  ghost predicate Ordered<T>(t: Tree<T>, stride: map<T, int>, high: int) {
    t.Node? ==>
      && t.item in stride
      && Keyed(t.left, stride, stride[t.item], high)
      && Keyed(t.right, stride, stride[t.item], high)
      && Ordered(t.left, stride, high)
      && Ordered(t.right, stride, high)
  }

  lemma {:induction false} KeyedWeaken<T>(t: Tree<T>, stride: map<T, int>, lo: int, hi: int, lo': int, hi': int)
    requires Keyed(t, stride, lo, hi) && lo' <= lo && hi <= hi'
    ensures Keyed(t, stride, lo', hi')
  {
    if t.Node? {
      KeyedWeaken(t.left, stride, lo, hi, lo', hi');
      KeyedWeaken(t.right, stride, lo, hi, lo', hi');
    }
  }

  lemma {:induction false} MergeKeyed<T>(a: Tree<T>, b: Tree<T>, stride: map<T, int>, lo: int, hi: int)
    requires Keyed(a, stride, lo, hi) && Keyed(b, stride, lo, hi)
    ensures Keyed(Merge(a, b), stride, lo, hi)
  {
    if a.Node? && b.Node? {
      if StrideComp(a.key, b.key) == -1 {
        MergeKeyed(a.right, b, stride, lo, hi);
      } else {
        MergeKeyed(a, b.right, stride, lo, hi);
      }
    }
  }

  /** Merging two heaps whose strides share one window keeps true heap order,
      although only wrapped 32-bit strides are ever compared. */
  lemma {:induction false} MergeOrdered<T>(a: Tree<T>, b: Tree<T>, stride: map<T, int>, lo: int, hi: int)
    requires hi - lo < 0x8000_0000
    requires Keyed(a, stride, lo, hi) && Keyed(b, stride, lo, hi)
    requires Ordered(a, stride, hi) && Ordered(b, stride, hi)
    ensures Ordered(Merge(a, b), stride, hi)
  {
    if a.Node? && b.Node? {
      CompExact(stride[a.item], stride[b.item]);
      if StrideComp(a.key, b.key) == -1 {
        MergeOrdered(a.right, b, stride, lo, hi);
        RootIsLeast(b, stride, hi, stride[a.item]);
        MergeKeyed(a.right, b, stride, stride[a.item], hi);
      } else {
        MergeOrdered(a, b.right, stride, lo, hi);
        RootIsLeast(a, stride, hi, stride[b.item]);
        MergeKeyed(a, b.right, stride, stride[b.item], hi);
      }
    }
  }

  lemma RootIsLeast<T>(t: Tree<T>, stride: map<T, int>, hi: int, low: int)
    requires t.Node? && Ordered(t, stride, hi)
    requires low <= stride[t.item] <= hi && t.key == Wrap32(stride[t.item])
    ensures Keyed(t, stride, low, hi)
  {
    KeyedWeaken(t.left, stride, stride[t.item], hi, low, hi);
    KeyedWeaken(t.right, stride, stride[t.item], hi, low, hi);
  }

  lemma {:induction false} RemoveKeyed<T>(t: Tree<T>, x: T, stride: map<T, int>, lo: int, hi: int)
    requires Has(t, x) && Keyed(t, stride, lo, hi)
    ensures Keyed(Remove(t, x), stride, lo, hi)
  {
    if t.item == x {
      MergeKeyed(t.left, t.right, stride, lo, hi);
    } else if Has(t.left, x) {
      RemoveKeyed(t.left, x, stride, lo, hi);
    } else {
      RemoveKeyed(t.right, x, stride, lo, hi);
    }
  }

  /** Deleting any node, wherever it sits, keeps heap order. */
  lemma {:induction false} RemoveOrdered<T>(t: Tree<T>, x: T, stride: map<T, int>, lo: int, hi: int)
    requires hi - lo < 0x8000_0000
    requires Has(t, x)
    requires Keyed(t, stride, lo, hi) && Ordered(t, stride, hi)
    ensures Ordered(Remove(t, x), stride, hi)
  {
    if t.item == x {
      MergeOrdered(t.left, t.right, stride, lo, hi);
    } else if Has(t.left, x) {
      RemoveOrdered(t.left, x, stride, lo, hi);
      RemoveKeyed(t.left, x, stride, stride[t.item], hi);
    } else {
      RemoveOrdered(t.right, x, stride, lo, hi);
      RemoveKeyed(t.right, x, stride, stride[t.item], hi);
    }
  }

  lemma {:induction false} KeyedItem<T>(t: Tree<T>, stride: map<T, int>, lo: int, hi: int, x: T)
    requires Keyed(t, stride, lo, hi) && Has(t, x)
    ensures x in stride && lo <= stride[x] <= hi
  {
    if t.item != x {
      if Has(t.left, x) {
        KeyedItem(t.left, stride, lo, hi, x);
      } else {
        KeyedItem(t.right, stride, lo, hi, x);
      }
    }
  }

  /** The root of a heap has the least true stride of all the processes in it. */
  lemma RootMinimal<T>(t: Tree<T>, stride: map<T, int>, lo: int, hi: int, x: T)
    requires Has(t, x) && Keyed(t, stride, lo, hi) && Ordered(t, stride, hi)
    ensures t.item in stride && x in stride && stride[t.item] <= stride[x]
  {
    RootIsLeast(t, stride, hi, stride[t.item]);
    KeyedItem(t, stride, stride[t.item], hi, x);
  }

  lemma {:induction false} KeyedFrame<T>(t: Tree<T>, stride: map<T, int>, lo: int, hi: int, x: T, v: int)
    requires !Has(t, x) && Keyed(t, stride, lo, hi)
    ensures Keyed(t, stride[x := v], lo, hi)
  {
    if t.Node? {
      KeyedFrame(t.left, stride, lo, hi, x, v);
      KeyedFrame(t.right, stride, lo, hi, x, v);
    }
  }

  /** Raising the stride of a process that is not in the tree changes nothing in it. */
  lemma {:induction false} OrderedFrame<T>(t: Tree<T>, stride: map<T, int>, hi: int, x: T, v: int)
    requires !Has(t, x) && Ordered(t, stride, hi)
    ensures Ordered(t, stride[x := v], hi)
  {
    if t.Node? {
      KeyedFrame(t.left, stride, stride[t.item], hi, x, v);
      KeyedFrame(t.right, stride, stride[t.item], hi, x, v);
      OrderedFrame(t.left, stride, hi, x, v);
      OrderedFrame(t.right, stride, hi, x, v);
    }
  }

  /** The bounds of a heap may be replaced by any that its processes meet. */
  lemma {:induction false} Rebound<T>(t: Tree<T>, stride: map<T, int>, lo: int, hi: int, lo': int, hi': int)
    requires Keyed(t, stride, lo, hi) && Ordered(t, stride, hi)
    requires forall x :: Has(t, x) && x in stride ==> lo' <= stride[x] <= hi'
    ensures Keyed(t, stride, lo', hi') && Ordered(t, stride, hi')
  {
    if t.Node? {
      assert Has(t, t.item);
      assert forall x :: Has(t.left, x) ==> Has(t, x);
      assert forall x :: Has(t.right, x) ==> Has(t, x);
      Rebound(t.left, stride, lo, hi, lo', hi');
      Rebound(t.right, stride, lo, hi, lo', hi');
      ReboundHigh(t.left, stride, stride[t.item], hi, hi');
      ReboundHigh(t.right, stride, stride[t.item], hi, hi');
    }
  }

  lemma {:induction false} ReboundHigh<T>(t: Tree<T>, stride: map<T, int>, lo: int, hi: int, hi': int)
    requires Keyed(t, stride, lo, hi)
    requires forall x :: Has(t, x) && x in stride ==> stride[x] <= hi'
    ensures Keyed(t, stride, lo, hi')
  {
    if t.Node? {
      assert Has(t, t.item);
      assert forall x :: Has(t.left, x) ==> Has(t, x);
      assert forall x :: Has(t.right, x) ==> Has(t, x);
      ReboundHigh(t.left, stride, lo, hi, hi');
      ReboundHigh(t.right, stride, lo, hi, hi');
    }
  }
}
