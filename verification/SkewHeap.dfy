/** The in-place skew heap with parent pointers (lib/skew_heap.h).

    Every operation is proved to turn the pointer structure of a tree into the
    pointer structure of the tree that module SkewTree computes. Because a
    `Tree` is finite and its nodes are distinct, this includes acyclicity and
    the absence of sharing. */
module SkewHeap {
  import opened Words
  import opened SkewTree

  /** The part of a `pcb` that the scheduler uses. */
  class Proc {
    var parent: Proc?
    var left: Proc?
    var right: Proc?
    var stride: u32
    var priority: u32
    var timeSlice: nat
    var needReschedule: bool

    /** `alloc_proc`. */
    constructor ()
      ensures parent == null && left == null && right == null
      ensures stride == 0 && priority == 1 && timeSlice == 0 && !needReschedule
    {
      parent, left, right := null, null, null;
      stride, priority, timeSlice, needReschedule := 0, 1, 0, false;
    }
  }

  ghost function Nodes(t: Tree<Proc>): set<Proc> {
    match t
    case Leaf => {}
    case Node(x, _, l, r) => {x} + Nodes(l) + Nodes(r)
  }

  /** The links of a node at one moment. */
  datatype Link = Link(parent: Proc?, left: Proc?, right: Proc?, stride: u32)

  ghost function Snap(s: set<Proc>): map<Proc, Link>
    reads s`parent, s`left, s`right, s`stride
  {
    map n | n in s :: Link(n.parent, n.left, n.right, n.stride)
  }

  /** The links `m` at `p` form the tree `t`: children, parent links, stored
      strides, all nodes distinct. The parent of the root is left open. */
  ghost predicate Wired(m: map<Proc, Link>, p: Proc?, t: Tree<Proc>) {
    var wired :=
      match t
      case Leaf => p == null
      case Node(x, k, l, r) =>
        && p == x && x in m
        && m[x].stride == k
        && x !in Nodes(l) && x !in Nodes(r) && Nodes(l) !! Nodes(r)
        && Wired(m, m[x].left, l)
        && Wired(m, m[x].right, r)
        && (l.Node? ==> m[l.item].parent == x)
        && (r.Node? ==> m[r.item].parent == x);
    wired
  }

  /** A heap as the run queue holds it: the root has no parent. */
  ghost predicate Heap(p: Proc?, t: Tree<Proc>)
    reads Nodes(t)`parent, Nodes(t)`left, Nodes(t)`right, Nodes(t)`stride
  {
    var wired := Wired(Snap(Nodes(t)), p, t) && (t.Node? ==> t.item.parent == null);
    wired
  }

  ghost predicate Same(m: map<Proc, Link>, m': map<Proc, Link>, s: set<Proc>) {
    forall n :: n in s && n in m ==> n in m' && m'[n] == m[n]
  }

  // ------------------------------------------------------- node sets of trees

  lemma {:induction false} MergeNodes(a: Tree<Proc>, b: Tree<Proc>)
    ensures Nodes(Merge(a, b)) == Nodes(a) + Nodes(b)
  {
    if a.Node? && b.Node? {
      if StrideComp(a.key, b.key) == -1 {
        MergeNodes(a.right, b);
      } else {
        MergeNodes(a, b.right);
      }
    }
  }

  lemma {:induction false} HasNode(t: Tree<Proc>, x: Proc)
    ensures x in Nodes(t) <==> Has(t, x)
  {
    if t.Node? {
      HasNode(t.left, x);
      HasNode(t.right, x);
    }
  }

  lemma {:induction false} RemoveNodes(t: Tree<Proc>, x: Proc)
    requires Has(t, x)
    ensures Nodes(Remove(t, x)) <= Nodes(t)
  {
    if t.item == x {
      MergeNodes(t.left, t.right);
    } else if Has(t.left, x) {
      RemoveNodes(t.left, x);
    } else {
      RemoveNodes(t.right, x);
    }
  }

  lemma {:induction false} WiredNodes(m: map<Proc, Link>, p: Proc?, t: Tree<Proc>)
    requires Wired(m, p, t)
    ensures Nodes(t) <= m.Keys
  {
    if t.Node? {
      WiredNodes(m, m[t.item].left, t.left);
      WiredNodes(m, m[t.item].right, t.right);
    }
  }

  /** The structure depends on the links of its own nodes only, and not on the
      parent link of its root. */
  lemma {:induction false} WiredFrame(m: map<Proc, Link>, m': map<Proc, Link>, p: Proc?, t: Tree<Proc>)
    requires Wired(m, p, t)
    requires t.Node? ==>
      && t.item in m' && m'[t.item].(parent := m[t.item].parent) == m[t.item]
      && Same(m, m', Nodes(t) - {t.item})
    ensures Wired(m', p, t)
  {
    if t.Node? {
      var l, r := t.left, t.right;
      assert Same(m, m', Nodes(l)) && Same(m, m', Nodes(r));
      WiredNodes(m, m[t.item].left, l);
      WiredNodes(m, m[t.item].right, r);
      WiredFrame(m, m', m[t.item].left, l);
      WiredFrame(m, m', m[t.item].right, r);
    }
  }

  // ------------------------------------------------------------------- merge

  lemma MergeFrame(m: map<Proc, Link>, m': map<Proc, Link>, p: Proc?, t: Tree<Proc>)
    requires Wired(m, p, t) && Same(m, m', Nodes(t))
    ensures Wired(m', p, t)
    ensures t.Node? ==> m'[t.item] == m[t.item]
  {
    WiredNodes(m, p, t);
    WiredFrame(m, m', p, t);
  }

  /** The stores that `merge_skew_heap` makes after its recursive call. */
  method Attach(x: Proc, leftChild: Proc?, rightChild: Proc?, ghost l: Tree<Proc>, ghost r: Tree<Proc>,
      ghost all: set<Proc>)
    requires x in all && Nodes(l) <= all
    requires Wired(Snap(all), leftChild, l) && Wired(Snap(all), rightChild, r)
    requires x !in Nodes(l) && x !in Nodes(r) && Nodes(l) !! Nodes(r)
    requires r.Node? ==> r.item.parent == x
    modifies x`left, x`right, (if leftChild == null then {} else {leftChild})`parent
    ensures Wired(Snap(all), x, Node(x, x.stride, l, r))
  {
    ghost var m := Snap(all);
    x.left := leftChild;
    x.right := rightChild;
    if leftChild != null { leftChild.parent := x; }
    ghost var m' := Snap(all);
    assert Same(m, m', Nodes(r));
    MergeFrame(m, m', rightChild, r);
    assert l.Node? ==> Same(m, m', Nodes(l) - {l.item});
    WiredFrame(m, m', leftChild, l);
  }

  /** `merge_skew_heap`. `all` is any set of nodes the caller watches. */
  method MergeInPlace(a: Proc?, b: Proc?, ghost ta: Tree<Proc>, ghost tb: Tree<Proc>, ghost all: set<Proc>)
    returns (r: Proc?)
    requires Nodes(ta) !! Nodes(tb) && Nodes(ta) + Nodes(tb) <= all
    requires Wired(Snap(all), a, ta) && Wired(Snap(all), b, tb)
    modifies (Nodes(ta) + Nodes(tb))`parent, (Nodes(ta) + Nodes(tb))`left, (Nodes(ta) + Nodes(tb))`right
    ensures Wired(Snap(all), r, Merge(ta, tb))
    ensures r != null ==> r.parent == old(r.parent)
    decreases ta, tb, 1
  {
    if a == null { return b; }
    if b == null { return a; }
    if StrideComp(a.stride, b.stride) == -1 {
      MergeIntoLeft(a, b, ta, tb, all);
      return a;
    } else {
      MergeIntoRight(a, b, ta, tb, all);
      return b;
    }
  }

  method MergeIntoLeft(a: Proc, b: Proc, ghost ta: Tree<Proc>, ghost tb: Tree<Proc>, ghost all: set<Proc>)
    requires Nodes(ta) !! Nodes(tb) && Nodes(ta) + Nodes(tb) <= all
    requires Wired(Snap(all), a, ta) && Wired(Snap(all), b, tb)
    modifies (Nodes(ta) + Nodes(tb))`parent, (Nodes(ta) + Nodes(tb))`left, (Nodes(ta) + Nodes(tb))`right
    ensures Wired(Snap(all), a, Node(a, ta.key, Merge(ta.right, tb), ta.left))
    ensures a.parent == old(a.parent)
    decreases ta, tb, 0
  {
    ghost var m := Snap(all);
    MergeNodes(ta.right, tb);
    var rightChild := a.left;
    var leftChild := MergeInPlace(a.right, b, ta.right, tb, all);
    assert Nodes(ta.left) !! Nodes(ta.right) + Nodes(tb);
    assert Same(m, Snap(all), Nodes(ta.left));
    MergeFrame(m, Snap(all), rightChild, ta.left);
    Attach(a, leftChild, rightChild, Merge(ta.right, tb), ta.left, all);
  }

  method MergeIntoRight(a: Proc, b: Proc, ghost ta: Tree<Proc>, ghost tb: Tree<Proc>, ghost all: set<Proc>)
    requires Nodes(ta) !! Nodes(tb) && Nodes(ta) + Nodes(tb) <= all
    requires Wired(Snap(all), a, ta) && Wired(Snap(all), b, tb)
    modifies (Nodes(ta) + Nodes(tb))`parent, (Nodes(ta) + Nodes(tb))`left, (Nodes(ta) + Nodes(tb))`right
    ensures Wired(Snap(all), b, Node(b, tb.key, Merge(ta, tb.right), tb.left))
    ensures b.parent == old(b.parent)
    decreases ta, tb, 0
  {
    ghost var m := Snap(all);
    MergeNodes(ta, tb.right);
    var rightChild := b.left;
    var leftChild := MergeInPlace(a, b.right, ta, tb.right, all);
    assert Nodes(tb.left) !! Nodes(ta) + Nodes(tb.right);
    assert Same(m, Snap(all), Nodes(tb.left));
    MergeFrame(m, Snap(all), rightChild, tb.left);
    Attach(b, leftChild, rightChild, Merge(ta, tb.right), tb.left, all);
  }

  /** `add_skew_heap`: the new node's links are reset, then it is merged in. */
  method AddInPlace(root: Proc?, x: Proc, ghost t: Tree<Proc>) returns (r: Proc)
    requires Heap(root, t) && x !in Nodes(t)
    modifies (Nodes(t) + {x})`parent, (Nodes(t) + {x})`left, (Nodes(t) + {x})`right
    ensures Heap(r, Add(t, x, x.stride))
  {
    ghost var all := Nodes(t) + {x};
    ghost var m := Snap(Nodes(t));
    ghost var tx := Node(x, x.stride, Leaf, Leaf);
    x.parent, x.left, x.right := null, null, null;
    assert Nodes(Leaf) == {};
    assert Nodes(tx) == {x};
    MergeFrame(m, Snap(all), root, t);
    assert Wired(Snap(all), x, tx);
    MergeNodes(t, tx);
    r := MergeInPlace(root, x, t, tx, all);
  }

  // ---------------------------------------------------------------- deletion

  /** The subtree of `t` at `x`. */
  ghost function At(t: Tree<Proc>, x: Proc): (s: Tree<Proc>)
    requires Has(t, x)
    ensures s.Node? && s.item == x
    ensures Nodes(s) <= Nodes(t)
  {
    if t.item == x then t
    else if Has(t.left, x) then At(t.left, x)
    else At(t.right, x)
  }

  lemma {:induction false} WiredAt(m: map<Proc, Link>, p: Proc?, t: Tree<Proc>, x: Proc)
    requires Wired(m, p, t) && Has(t, x)
    ensures x in m && Wired(m, x, At(t, x))
    ensures x != t.item ==>
      var q := m[x].parent;
      q != null && q in Nodes(t) && q !in Nodes(At(t, x))
  {
    if t.item != x {
      HasNode(t.left, x);
      HasNode(t.right, x);
      if Has(t.left, x) {
        WiredAt(m, m[t.item].left, t.left, x);
      } else {
        WiredAt(m, m[t.item].right, t.right, x);
      }
    }
  }

  /** What `del_skew_heap` does when the node is not the root: the subtree of
      `x` becomes `sub` at `r`, hung under the parent of `x` in its place. */
  ghost predicate Replaced(m: map<Proc, Link>, m': map<Proc, Link>, t: Tree<Proc>, x: Proc, r: Proc?, sub: Tree<Proc>)
    requires Has(t, x)
  {
    && x in m && m[x].parent != null
    && var q: Proc := m[x].parent;
    && q in m && q in m'
    && m'[q] == (if m[q].left == x then m[q].(left := r) else m[q].(right := r))
    && Same(m, m', Nodes(t) - Nodes(At(t, x)) - {q})
    && Wired(m', r, sub)
    && (sub.Node? ==> m'[sub.item].parent == q)
  }

  /** `Remove`, with the tree that replaces the subtree of `x` given. */
  ghost function Graft(t: Tree<Proc>, x: Proc, sub: Tree<Proc>): Tree<Proc>
    requires Has(t, x)
  {
    if t.item == x then sub
    else if Has(t.left, x) then Node(t.item, t.key, Graft(t.left, x, sub), t.right)
    else Node(t.item, t.key, t.left, Graft(t.right, x, sub))
  }

  lemma {:induction false} RemoveIsGraft(t: Tree<Proc>, x: Proc)
    requires Has(t, x)
    ensures Remove(t, x) == Graft(t, x, Merge(At(t, x).left, At(t, x).right))
  {
    if t.item != x {
      if Has(t.left, x) {
        RemoveIsGraft(t.left, x);
      } else {
        RemoveIsGraft(t.right, x);
      }
    }
  }

  lemma {:induction false} GraftNodes(t: Tree<Proc>, x: Proc, sub: Tree<Proc>)
    requires Has(t, x) && Nodes(sub) <= Nodes(At(t, x))
    ensures Nodes(Graft(t, x, sub)) <= Nodes(t)
  {
    if t.item != x {
      if Has(t.left, x) {
        GraftNodes(t.left, x, sub);
      } else {
        GraftNodes(t.right, x, sub);
      }
    }
  }

  lemma {:induction false} GraftWired(m: map<Proc, Link>, m': map<Proc, Link>, p: Proc?, t: Tree<Proc>, x: Proc,
      r: Proc?, sub: Tree<Proc>)
    requires Has(t, x) && t.item != x
    requires Wired(m, p, t)
    requires Replaced(m, m', t, x, r, sub)
    requires Nodes(sub) <= Nodes(At(t, x))
    ensures Wired(m', p, Graft(t, x, sub))
    ensures Graft(t, x, sub).item == t.item && m'[t.item].parent == m[t.item].parent
    decreases t, 1
  {
    HasNode(t.left, x);
    HasNode(t.right, x);
    if Has(t.left, x) {
      GraftLeft(m, m', p, t, x, r, sub);
    } else {
      GraftRight(m, m', p, t, x, r, sub);
    }
  }

  lemma {:induction false} GraftLeft(m: map<Proc, Link>, m': map<Proc, Link>, p: Proc?, t: Tree<Proc>, x: Proc,
      r: Proc?, sub: Tree<Proc>)
    requires t.Node? && t.item != x && Has(t.left, x)
    requires Wired(m, p, t)
    requires Replaced(m, m', t, x, r, sub)
    requires Nodes(sub) <= Nodes(At(t, x))
    ensures Wired(m', p, Graft(t, x, sub))
    ensures m'[t.item].parent == m[t.item].parent
    decreases t, 0
  {
    var l := t.left;
    GraftNodes(l, x, sub);
    WiredAt(m, m[t.item].left, l, x);
    assert Nodes(t.right) !! Nodes(l);
    if l.item != x {
      assert Nodes(l) - Nodes(At(l, x)) <= Nodes(t) - Nodes(At(t, x));
      GraftWired(m, m', m[t.item].left, l, x, r, sub);
    }
    MergeFrame(m, m', m[t.item].right, t.right);
  }

  lemma {:induction false} GraftRight(m: map<Proc, Link>, m': map<Proc, Link>, p: Proc?, t: Tree<Proc>, x: Proc,
      r: Proc?, sub: Tree<Proc>)
    requires t.Node? && t.item != x && Has(t.right, x) && !Has(t.left, x)
    requires Wired(m, p, t)
    requires Replaced(m, m', t, x, r, sub)
    requires Nodes(sub) <= Nodes(At(t, x))
    ensures Wired(m', p, Graft(t, x, sub))
    ensures m'[t.item].parent == m[t.item].parent
    decreases t, 0
  {
    var l := t.right;
    GraftNodes(l, x, sub);
    WiredAt(m, m[t.item].right, l, x);
    assert Nodes(t.left) !! Nodes(l);
    if l.item != x {
      assert Nodes(l) - Nodes(At(l, x)) <= Nodes(t) - Nodes(At(t, x));
      GraftWired(m, m', m[t.item].right, l, x, r, sub);
    }
    MergeFrame(m, m', m[t.item].left, t.left);
  }

  /** `del_skew_heap`: any node may be deleted, not only the root. */
  method DeleteInPlace(root: Proc, x: Proc, ghost t: Tree<Proc>) returns (r: Proc?)
    requires Heap(root, t) && Has(t, x)
    modifies Nodes(t)`parent, Nodes(t)`left, Nodes(t)`right
    ensures Heap(r, Remove(t, x))
  {
    ghost var all, m := Nodes(t), Snap(Nodes(t));
    var q := x.parent;
    WiredAt(m, root, t, x);
    r := MergeChildren(root, x, t);
    if q != null {
      ReplaceChild(root, x, q, r, t, m);
      r := root;
    } else {
      MergeNodes(t.left, t.right);
      MergeFrame(Snap(all), Snap(Nodes(Remove(t, x))), r, Remove(t, x));
    }
  }

  /** The beginning of `del_skew_heap`: what takes the place of `x`. */
  method MergeChildren(root: Proc, x: Proc, ghost t: Tree<Proc>) returns (r: Proc?)
    requires Heap(root, t) && Has(t, x)
    modifies Nodes(t)`parent, Nodes(t)`left, Nodes(t)`right
    ensures Same(old(Snap(Nodes(t))), Snap(Nodes(t)), Nodes(t) - Nodes(At(t, x)))
    ensures Wired(Snap(Nodes(t)), r, Merge(At(t, x).left, At(t, x).right))
    ensures r != null ==> r.parent == old(x.parent)
  {
    ghost var all, m, s := Nodes(t), Snap(Nodes(t)), At(t, x);
    WiredAt(m, root, t, x);
    MergeNodes(s.left, s.right);
    var q := x.parent;
    r := MergeInPlace(x.left, x.right, s.left, s.right, all);
    ghost var sub, m1 := Merge(s.left, s.right), Snap(all);
    assert Same(m, m1, all - Nodes(s));
    if r != null {
      assert r in Nodes(sub) && Nodes(sub) <= Nodes(s);
      SetParent(r, q, sub, all);
      SameTwice(m, m1, Snap(all), all - Nodes(s), all - {r});
    }
  }

  lemma SameTwice(m: map<Proc, Link>, m1: map<Proc, Link>, m2: map<Proc, Link>, s: set<Proc>, s1: set<Proc>)
    requires Same(m, m1, s) && Same(m1, m2, s1) && s <= s1
    ensures Same(m, m2, s)
  {
  }

  method SetParent(r: Proc, q: Proc?, ghost sub: Tree<Proc>, ghost all: set<Proc>)
    requires r in all && Wired(Snap(all), r, sub)
    modifies r`parent
    ensures r.parent == q && Wired(Snap(all), r, sub)
    ensures Same(old(Snap(all)), Snap(all), all - {r})
  {
    ghost var m := Snap(all);
    r.parent := q;
    WiredNodes(m, r, sub);
    WiredFrame(m, Snap(all), r, sub);
  }

  /** The end of `del_skew_heap` when `x` has a parent `q`; `m` are the links
      before the deletion began. */
  method ReplaceChild(root: Proc, x: Proc, q: Proc, r: Proc?, ghost t: Tree<Proc>, ghost m: map<Proc, Link>)
    requires Has(t, x) && x != t.item
    requires Wired(m, root, t) && m[root].parent == null
    requires x in m && m[x].parent == q
    requires q in Nodes(t) && q !in Nodes(At(t, x))
    requires Same(m, Snap(Nodes(t)), Nodes(t) - Nodes(At(t, x)))
    requires Wired(Snap(Nodes(t)), r, Merge(At(t, x).left, At(t, x).right))
    requires r != null ==> r.parent == q
    modifies q`left, q`right
    ensures Heap(root, Remove(t, x))
  {
    ghost var all, s := Nodes(t), At(t, x);
    ghost var sub, m2 := Merge(s.left, s.right), Snap(all);
    MergeNodes(s.left, s.right);
    WiredNodes(m, root, t);
    if q.left == x { q.left := r; } else { q.right := r; }
    MergeFrame(m2, Snap(all), r, sub);
    GraftWired(m, Snap(all), root, t, x, r, sub);
    RemoveIsGraft(t, x);
    GraftNodes(t, x, sub);
    MergeFrame(Snap(all), Snap(Nodes(Remove(t, x))), root, Remove(t, x));
  }

  // --------------------------------------------------------------- run queue

  lemma {:induction false} RemoveNodesExact(m: map<Proc, Link>, p: Proc?, t: Tree<Proc>, x: Proc)
    requires Wired(m, p, t) && Has(t, x)
    ensures x in Nodes(t) && Nodes(Remove(t, x)) == Nodes(t) - {x}
  {
    HasNode(t, x);
    if t.item == x {
      MergeNodes(t.left, t.right);
    } else {
      HasNode(t.left, x);
      HasNode(t.right, x);
      if Has(t.left, x) {
        RemoveNodesExact(m, m[t.item].left, t.left, x);
      } else {
        RemoveNodesExact(m, m[t.item].right, t.right, x);
      }
    }
  }

  lemma AddNodes(t: Tree<Proc>, p: Proc, k: u32)
    ensures Nodes(Add(t, p, k)) == Nodes(t) + {p}
  {
    var one := Node(p, k, Leaf, Leaf);
    assert Nodes(one.left) == {} && Nodes(one.right) == {};
    MergeNodes(t, one);
  }

  /** `struct run_queue` with the operations of the stride scheduler. */
  class RunQueue {
    var pool: Proc?
    var num: int
    const maxTimeSlice: nat
    ghost var tree: Tree<Proc>
    ghost var nodes: set<Proc>

    /** The heap is well linked and counted. */
    ghost predicate Linked()
      reads this, Nodes(tree)`parent, Nodes(tree)`left, Nodes(tree)`right, Nodes(tree)`stride
    {
      && Heap(pool, tree) && nodes == Nodes(tree)
      && num == Size(tree)
    }

    /** Whoever is queued has a time slice left, and none above the maximum. */
    ghost predicate Sliced()
      reads this, nodes`timeSlice
    {
      && 0 < maxTimeSlice
      && forall p :: p in nodes ==> 1 <= p.timeSlice <= maxTimeSlice
    }

    ghost predicate Valid()
      reads this, nodes`timeSlice
      reads Nodes(tree)`parent, Nodes(tree)`left, Nodes(tree)`right, Nodes(tree)`stride
    {
      Linked() && Sliced()
    }

    /** `init_scheduler` and `stride_init`. */
    constructor (maxTimeSlice: nat)
      requires 0 < maxTimeSlice
      ensures Valid() && tree == Leaf && this.maxTimeSlice == maxTimeSlice
    {
      pool, num, tree, nodes := null, 0, Leaf, {};
      this.maxTimeSlice := maxTimeSlice;
    }

    /** The heap part of `stride_enqueue`. */
    method AddToPool(p: Proc)
      requires Linked() && p !in Nodes(tree)
      modifies this`pool, this`num, this`tree, this`nodes
      modifies (Nodes(tree) + {p})`parent, (Nodes(tree) + {p})`left, (Nodes(tree) + {p})`right
      ensures Linked() && nodes == old(nodes) + {p}
      ensures tree == Add(old(tree), p, p.stride)
    {
      MergeSize(tree, Node(p, p.stride, Leaf, Leaf));
      AddNodes(tree, p, p.stride);
      pool := AddInPlace(pool, p, tree);
      tree, nodes := Add(tree, p, p.stride), nodes + {p};
      num := num + 1;
    }

    /** `stride_enqueue`. */
    method Enqueue(p: Proc)
      requires Valid() && p !in Nodes(tree)
      modifies this`pool, this`num, this`tree, this`nodes
      modifies (Nodes(tree) + {p})`parent, (Nodes(tree) + {p})`left, (Nodes(tree) + {p})`right
      modifies p`timeSlice
      ensures Valid() && Nodes(tree) == old(Nodes(tree)) + {p}
      ensures tree == Add(old(tree), p, p.stride)
      ensures p.timeSlice == if 1 <= old(p.timeSlice) <= maxTimeSlice then old(p.timeSlice) else maxTimeSlice
    {
      AddNodes(tree, p, p.stride);
      AddToPool(p);
      if p.timeSlice == 0 || p.timeSlice > maxTimeSlice {
        p.timeSlice := maxTimeSlice;
      }
    }

    /** `stride_dequeue`, whose assertion cannot fail. */
    method Dequeue(p: Proc)
      requires Valid() && Has(tree, p)
      modifies this`pool, this`num, this`tree, this`nodes
      modifies Nodes(tree)`parent, Nodes(tree)`left, Nodes(tree)`right
      ensures Valid()
      ensures tree == Remove(old(tree), p)
      ensures Nodes(tree) == old(Nodes(tree)) - {p}
    {
      ghost var before := Nodes(tree);
      RemoveNodesExact(Snap(before), pool, tree, p);
      RemoveSize(tree, p);
      assert num > 0;
      pool := DeleteInPlace(pool, p, tree);
      tree, nodes := Remove(tree, p), nodes - {p};
      assert Nodes(tree) == before - {p};
      num := num - 1;
    }

    /** `stride_pick_next`. The root's key grows while it is still in the heap:
        the pointer structure stays sound, the heap order does not. */
    method PickNext() returns (p: Proc?)
      requires Valid() && (pool != null ==> pool.priority > 0)
      modifies this`tree, (if pool == null then {} else {pool})`stride
      ensures Valid() && pool == old(pool) && num == old(num)
      ensures p == pool
      ensures p == null ==> tree == old(tree)
      ensures p != null ==>
        && p.stride == Wrap32(old(p.stride) + BigStride / p.priority)
        && old(tree).Node? && tree == old(tree).(key := p.stride)
    {
      if pool == null { return null; }
      p := pool;
      ghost var m := Snap(Nodes(tree));
      ghost var t := tree;
      p.stride := Wrap32(p.stride + BigStride / p.priority);
      tree := t.(key := p.stride);
      assert Nodes(tree) == Nodes(t);
      KeyRaised(m, Snap(Nodes(t)), p, t, p.stride);
      assert Heap(pool, tree);
    }

    /** The queue part of `schedule`: a current process that can go on is
        queued, the root is picked and taken out, and idle runs if there is none. */
    method Schedule(curr: Proc, idle: Proc, runnable: bool) returns (next: Proc)
      requires Valid() && curr !in Nodes(tree)
      requires forall p :: p in Nodes(tree) + {curr} ==> p.priority > 0
      modifies this`pool, this`num, this`tree, this`nodes
      modifies Nodes(tree)`parent, Nodes(tree)`left, Nodes(tree)`right, Nodes(tree)`stride
      modifies curr`parent, curr`left, curr`right, curr`stride, curr`timeSlice, curr`needReschedule
      ensures Valid() && !curr.needReschedule
      ensures curr.timeSlice ==
        if !(runnable && curr != idle) || 1 <= old(curr.timeSlice) <= maxTimeSlice then old(curr.timeSlice)
        else maxTimeSlice
      ensures next != idle ==> 1 <= next.timeSlice <= maxTimeSlice
      ensures
        var before := if runnable && curr != idle then Add(old(tree), curr, old(curr.stride)) else old(tree);
        if before.Leaf? then next == idle && tree == Leaf
        else
          && next == before.item && next !in Nodes(tree)
          && tree == Merge(before.left, before.right)
          && next.priority > 0 && next.stride == Wrap32(old(next.stride) + BigStride / next.priority)
      ensures Nodes(tree) == old(Nodes(tree)) + (if runnable && curr != idle then {curr} else {}) - {next}
      ensures curr.priority == old(curr.priority)
      ensures forall p :: p in old(nodes) ==> p.timeSlice == old(p.timeSlice) && p.priority == old(p.priority)
    {
      Requeue(curr, runnable && curr != idle);
      var picked := TakeNext();
      next := if picked != null then picked else idle;
    }

    /** The first half of `schedule`. */
    method Requeue(curr: Proc, goesOn: bool)
      requires Valid() && curr !in Nodes(tree)
      modifies this`pool, this`num, this`tree, this`nodes
      modifies (Nodes(tree) + {curr})`parent, (Nodes(tree) + {curr})`left, (Nodes(tree) + {curr})`right
      modifies curr`timeSlice, curr`needReschedule
      ensures Valid() && !curr.needReschedule
      ensures tree == if goesOn then Add(old(tree), curr, curr.stride) else old(tree)
      ensures nodes == if goesOn then old(nodes) + {curr} else old(nodes)
      ensures curr.timeSlice ==
        if !goesOn || 1 <= old(curr.timeSlice) <= maxTimeSlice then old(curr.timeSlice) else maxTimeSlice
      ensures forall p :: p in old(nodes) ==> p.timeSlice == old(p.timeSlice) && p.priority == old(p.priority)
    {
      curr.needReschedule := false;
      if goesOn { Enqueue(curr); }
    }

    /** `scheduler_proc_tick` with `stride_proc_tick`: idle always gives way; any other
        process loses one tick of its slice, if it has one left, and gives way exactly
        when none is left. */
    method ProcTick(p: Proc, idle: Proc)
      requires Valid() && p !in nodes
      modifies p`timeSlice, p`needReschedule
      ensures Valid()
      ensures p == idle ==> p.timeSlice == old(p.timeSlice) && p.needReschedule
      ensures p != idle && old(p.timeSlice) > 0 ==> p.timeSlice + 1 == old(p.timeSlice)
      ensures p != idle && old(p.timeSlice) == 0 ==> p.timeSlice == 0
      ensures p != idle ==> (p.needReschedule <==> old(p.needReschedule) || p.timeSlice == 0)
    {
      if p != idle {
        if p.timeSlice > 0 { p.timeSlice := p.timeSlice - 1; }
        if p.timeSlice == 0 { p.needReschedule := true; }
      } else {
        p.needReschedule := true;
      }
    }

    /** The root is picked and taken out. */
    method TakeNext() returns (p: Proc?)
      requires Valid() && (pool != null ==> pool.priority > 0)
      modifies this`pool, this`num, this`tree, this`nodes
      modifies Nodes(tree)`parent, Nodes(tree)`left, Nodes(tree)`right, Nodes(tree)`stride
      ensures Valid()
      ensures p == null <==> old(tree).Leaf?
      ensures p == null ==> tree == Leaf && nodes == {}
      ensures p != null ==>
        && p == old(tree).item && tree == Merge(old(tree).left, old(tree).right)
        && p in old(nodes) && nodes == old(nodes) - {p}
        && p.stride == Wrap32(old(p.stride) + BigStride / p.priority)
      ensures forall q :: q in old(nodes) ==> q.timeSlice == old(q.timeSlice) && q.priority == old(q.priority)
    {
      HasRoot(pool, tree);
      p := PickNext();
      if p != null { Dequeue(p); }
    }
  }

  lemma HasRoot(p: Proc?, t: Tree<Proc>)
    requires Heap(p, t)
    ensures p != null ==> Has(t, p) && p in Nodes(t)
  {
  }

  lemma KeyRaised(m: map<Proc, Link>, m': map<Proc, Link>, p: Proc, t: Tree<Proc>, k: u32)
    requires Wired(m, p, t)
    requires p in m' && m'[p] == m[p].(stride := k)
    requires Same(m, m', Nodes(t) - {p})
    ensures Wired(m', p, t.(key := k))
  {
    MergeFrame(m, m', m[p].left, t.left);
    MergeFrame(m, m', m[p].right, t.right);
  }
}
