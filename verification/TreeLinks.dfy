/** The links of the process tree as a value: parent, youngest child, and the
    younger and older sibling of every process (kernel/proc/proc.c:83-104). */
module TreeLinks {
  import opened Prelude

  datatype Link<T> = Link(parent: Option<T>, child: Option<T>, younger: Option<T>, older: Option<T>)

  type Links<T> = map<T, Link<T>>

  /** For every process its children, youngest first. */
  type Kids<T> = map<T, seq<T>>

  function At<T>(ks: seq<T>, i: int): Option<T> {
    if 0 <= i < |ks| then Some(ks[i]) else None
  }

  /** The links of the `i`-th child of `p`. */
  ghost predicate ChildOk<T>(m: Links<T>, p: T, ks: seq<T>, i: nat)
    requires i < |ks|
  {
    && ks[i] in m
    && m[ks[i]].parent == Some(p)
    && m[ks[i]].younger == At(ks, i - 1)
    && m[ks[i]].older == At(ks, i + 1)
  }

  /** The child chain of `p` is `ks`, each child once. */
  ghost predicate ChainOk<T>(m: Links<T>, p: T, ks: seq<T>) {
    var ok :=
      && p in m && m[p].child == At(ks, 0)
      && Distinct(ks)
      && forall i {:trigger ChildOk(m, p, ks, i)} :: 0 <= i < |ks| ==> ChildOk(m, p, ks, i);
    ok
  }

  ghost predicate ParentOk<T>(m: Links<T>, kids: Kids<T>, birth: map<T, nat>, p: T) {
    && p in m && m[p].parent.Some?
    && var q := m[p].parent.value;
    q in kids && p in kids[q] && q in birth && p in birth && birth[q] < birth[p]
  }

  ghost predicate Chains<T>(m: Links<T>, kids: Kids<T>) {
    forall p {:trigger ChainOk(m, p, kids[p])} :: p in m && p in kids ==> ChainOk(m, p, kids[p])
  }

  ghost predicate Parents<T>(m: Links<T>, kids: Kids<T>, root: T, birth: map<T, nat>) {
    forall p {:trigger ParentOk(m, kids, birth, p)} :: p in m && p != root ==> ParentOk(m, kids, birth, p)
  }

  /** The links form the tree `kids` rooted at `root`: every other process is in
      the chain of its parent, and was created after its parent. */
  ghost predicate TreeOk<T>(m: Links<T>, kids: Kids<T>, root: T, birth: map<T, nat>) {
    var tree :=
      && kids.Keys == m.Keys && birth.Keys == m.Keys && root in m && m[root].parent == None
      && Chains(m, kids)
      && Parents(m, kids, root, birth);
    tree
  }

  // ---------------------------------------------------------- what a tree means

  /** The ancestor `n` generations up. */
  ghost function Ancestor<T>(m: Links<T>, p: T, n: nat): Option<T> {
    if n == 0 then Some(p)
    else if p !in m || m[p].parent.None? then None
    else Ancestor(m, m[p].parent.value, n - 1)
  }

  /** Every process descends from the root: the links contain no cycle. */
  lemma {:induction false} DescendsFromRoot<T>(m: Links<T>, kids: Kids<T>, root: T, birth: map<T, nat>, p: T)
    returns (n: nat)
    requires TreeOk(m, kids, root, birth) && p in m
    ensures Ancestor(m, p, n) == Some(root)
    decreases birth[p]
  {
    if p == root {
      n := 0;
    } else {
      assert ParentOk(m, kids, birth, p);
      var k := DescendsFromRoot(m, kids, root, birth, m[p].parent.value);
      n := k + 1;
    }
  }

  /** No process is in two chains, or twice in one. */
  lemma OnlyInParentsChain<T>(m: Links<T>, kids: Kids<T>, root: T, birth: map<T, nat>, p: T, i: nat, q: T, j: nat)
    requires TreeOk(m, kids, root, birth)
    requires p in kids && i < |kids[p]| && q in kids && j < |kids[q]| && kids[p][i] == kids[q][j]
    ensures p == q && i == j
  {
    assert ChainOk(m, p, kids[p]) && ChainOk(m, q, kids[q]);
    assert ChildOk(m, p, kids[p], i) && ChildOk(m, q, kids[q], j);
  }

  lemma NotOwnChild<T>(m: Links<T>, kids: Kids<T>, root: T, birth: map<T, nat>, p: T)
    requires TreeOk(m, kids, root, birth) && p in m
    ensures p !in kids[p]
  {
    forall i | 0 <= i < |kids[p]| ensures kids[p][i] != p {
      assert ChainOk(m, p, kids[p]) && ChildOk(m, p, kids[p], i);
      if kids[p][i] != root { assert ParentOk(m, kids, birth, kids[p][i]); }
    }
  }

  /** A chain depends on the child link of its owner and the sibling and parent
      links of its members. */
  lemma ChainFrame<T>(m: Links<T>, m': Links<T>, p: T, ks: seq<T>)
    requires ChainOk(m, p, ks) && p in m' && m'[p].child == m[p].child
    requires forall i :: 0 <= i < |ks| && ks[i] in m ==> ks[i] in m' && m'[ks[i]] == m[ks[i]].(child := m'[ks[i]].child)
    ensures ChainOk(m', p, ks)
  {
    forall i | 0 <= i < |ks| ensures ChildOk(m', p, ks, i) { assert ChildOk(m, p, ks, i); }
  }

  // ------------------------------------------------------------------ set_links

  /** `set_links`: `x` becomes the youngest child of `p`. */
  ghost function Linked<T>(m: Links<T>, x: T, p: T): Links<T>
    requires p in m
  {
    var first := m[p].child;
    var m1 := m[x := Link(Some(p), None, None, first)];
    var m2 := if first.Some? && first.value in m then m1[first.value := m1[first.value].(younger := Some(x))] else m1;
    m2[p := m2[p].(child := Some(x))]
  }

  lemma LinkedTree<T>(m: Links<T>, kids: Kids<T>, root: T, birth: map<T, nat>, x: T, p: T, b: nat)
    requires TreeOk(m, kids, root, birth) && x !in m && p in m
    requires birth[p] < b
    ensures TreeOk(Linked(m, x, p), kids[p := [x] + kids[p]][x := []], root, birth[x := b])
  {
    var m', kids' := Linked(m, x, p), kids[p := [x] + kids[p]][x := []];
    NotOwnChild(m, kids, root, birth, p);
    assert ChainOk(m, p, kids[p]);
    assert Chains(m', kids') by {
      LinkedChain(m, m', p, kids[p], x);
      forall q | q in m && q != p ensures ChainOk(m', q, kids[q]) {
        LinkedElsewhere(m, m', kids, root, birth, x, p, q);
      }
    }
    LinkedParents(m, m', kids, root, birth, x, p, b);
  }

  lemma LinkedParents<T>(m: Links<T>, m': Links<T>, kids: Kids<T>, root: T, birth: map<T, nat>, x: T, p: T, b: nat)
    requires TreeOk(m, kids, root, birth) && x !in m && p in m && birth[p] < b && m' == Linked(m, x, p)
    ensures Parents(m', kids[p := [x] + kids[p]][x := []], root, birth[x := b])
    ensures m'.Keys == m.Keys + {x} && m'[root].parent == None
  {
    var kids' := kids[p := [x] + kids[p]][x := []];
    assert ChainOk(m, p, kids[p]);
    assert kids[p] != [] ==> ChildOk(m, p, kids[p], 0);
    forall q | q in m' && q != root ensures ParentOk(m', kids', birth[x := b], q) {
      if q != x {
        assert ParentOk(m, kids, birth, q);
      } else {
        assert x in [x] + kids[p];
      }
    }
  }

  lemma LinkedElsewhere<T>(m: Links<T>, m': Links<T>, kids: Kids<T>, root: T, birth: map<T, nat>, x: T, p: T, q: T)
    requires TreeOk(m, kids, root, birth) && x !in m && p in m && q in m && q != p
    requires m' == Linked(m, x, p)
    ensures ChainOk(m', q, kids[q])
  {
    assert ChainOk(m, p, kids[p]) && ChainOk(m, q, kids[q]);
    assert kids[p] != [] ==> ChildOk(m, p, kids[p], 0);
    forall i | 0 <= i < |kids[q]|
      ensures kids[q][i] in m && kids[q][i] in m' && m'[kids[q][i]] == m[kids[q][i]].(child := m'[kids[q][i]].child)
    {
      assert ChildOk(m, q, kids[q], i);
    }
    ChainFrame(m, m', q, kids[q]);
  }

  lemma LinkedChain<T>(m: Links<T>, m': Links<T>, p: T, ks: seq<T>, x: T)
    requires ChainOk(m, p, ks) && x !in m && p !in ks
    requires m' == Linked(m, x, p)
    ensures ChainOk(m', p, [x] + ks)
  {
    var r := [x] + ks;
    assert ks != [] ==> ChildOk(m, p, ks, 0);
    forall i | 0 <= i < |ks| ensures ks[i] != x { assert ChildOk(m, p, ks, i); }
    forall i | 0 <= i < |r| ensures ChildOk(m', p, r, i) {
      if i > 0 { assert ChildOk(m, p, ks, i - 1); }
    }
  }

  // --------------------------------------------------------------- remove_links

  /** `remove_links`: `x` leaves the chain of `p`. */
  ghost function Unlinked<T>(m: Links<T>, x: T, p: T): Links<T>
    requires x in m && p in m
  {
    var y, o := m[x].younger, m[x].older;
    var m1 := if o.Some? && o.value in m then m[o.value := m[o.value].(younger := y)] else m;
    if y.Some? && y.value in m then m1[y.value := m1[y.value].(older := o)] else m1[p := m1[p].(child := o)]
  }

  /** The links of all but `x` after `remove_links`. */
  lemma UnlinkedTree<T>(m: Links<T>, kids: Kids<T>, root: T, birth: map<T, nat>, x: T, p: T, i: nat)
    requires TreeOk(m, kids, root, birth) && x in m && x != root && kids[x] == []
    requires p in m && m[x].parent == Some(p) && i < |kids[p]| && kids[p][i] == x
    ensures TreeOk(Unlinked(m, x, p) - {x}, kids[p := kids[p][..i] + kids[p][i + 1..]] - {x}, root, birth - {x})
  {
    var u := Unlinked(m, x, p);
    var m', kids' := u - {x}, kids[p := kids[p][..i] + kids[p][i + 1..]] - {x};
    NotOwnChild(m, kids, root, birth, p);
    assert ChainOk(m, p, kids[p]);
    UnlinkedKeeps(m, p, kids[p], i);
    assert Chains(m', kids') by {
      UnlinkedChain(m, u, m', p, kids[p], i);
      forall q | q in m && q != p && q != x ensures ChainOk(m', q, kids[q]) {
        UnlinkedElsewhere(m, m', kids, root, birth, x, p, i, q);
      }
    }
    forall q | q in m' && q != root ensures ParentOk(m', kids', birth - {x}, q) {
      assert ParentOk(m, kids, birth, q);
      if m[q].parent == Some(p) { UnlinkedParent(kids[p], i, q); }
    }
  }

  lemma UnlinkedKeeps<T>(m: Links<T>, p: T, ks: seq<T>, i: nat)
    requires ChainOk(m, p, ks) && i < |ks| && ks[i] in m
    ensures Unlinked(m, ks[i], p).Keys == m.Keys
    ensures forall q :: q in m ==> Unlinked(m, ks[i], p)[q].parent == m[q].parent
  {
    assert ChildOk(m, p, ks, i);
  }

  lemma UnlinkedParent<T>(ks: seq<T>, i: nat, q: T)
    requires i < |ks| && q in ks && q != ks[i]
    ensures q in ks[..i] + ks[i + 1..]
  {
    var j :| 0 <= j < |ks| && ks[j] == q;
    var r := ks[..i] + ks[i + 1..];
    assert r[if j < i then j else j - 1] == q;
  }

  lemma UnlinkedChain<T>(m: Links<T>, u: Links<T>, m': Links<T>, p: T, ks: seq<T>, i: nat)
    requires ChainOk(m, p, ks) && i < |ks| && ks[i] in m && p !in ks
    requires u == Unlinked(m, ks[i], p) && m' == u - {ks[i]}
    ensures ChainOk(m', p, ks[..i] + ks[i + 1..])
  {
    var r := ks[..i] + ks[i + 1..];
    assert ChildOk(m, p, ks, i);
    if i > 0 { assert ChildOk(m, p, ks, i - 1); }
    if i + 1 < |ks| { assert ChildOk(m, p, ks, i + 1); }
    forall j | 0 <= j < |r| ensures ChildOk(m', p, r, j) {
      assert ChildOk(m, p, ks, if j < i then j else j + 1);
      assert r[j] == if j < i then ks[j] else ks[j + 1];
    }
  }

  lemma UnlinkedElsewhere<T>(m: Links<T>, m': Links<T>, kids: Kids<T>, root: T, birth: map<T, nat>, x: T, p: T,
      i: nat, q: T)
    requires TreeOk(m, kids, root, birth) && x in m && p in m && i < |kids[p]| && kids[p][i] == x
    requires q in m && q != p && q != x
    requires m' == Unlinked(m, x, p) - {x}
    ensures ChainOk(m', q, kids[q])
  {
    var ks := kids[p];
    assert ChainOk(m, p, ks) && ChainOk(m, q, kids[q]);
    assert ChildOk(m, p, ks, i);
    if i > 0 { assert ChildOk(m, p, ks, i - 1); }
    if i + 1 < |ks| { assert ChildOk(m, p, ks, i + 1); }
    forall j | 0 <= j < |kids[q]|
      ensures kids[q][j] in m && kids[q][j] in m' && m'[kids[q][j]] == m[kids[q][j]].(child := m'[kids[q][j]].child)
    {
      assert ChildOk(m, q, kids[q], j);
    }
    ChainFrame(m, m', q, kids[q]);
  }

  // ------------------------------------------------------ the loop of do_exit

  /** One turn of the loop: the youngest child of `cur` becomes the youngest of
      `init`. The next child of `cur` keeps a stale younger link until its turn. */
  ghost function Moved<T>(m: Links<T>, cur: T, init: T): Links<T>
    requires cur in m && init in m && m[cur].child.Some? && m[cur].child.value in m
  {
    var c := m[cur].child.value;
    var m1 := m[cur := m[cur].(child := m[c].older)];
    var m2 := m1[c := m1[c].(younger := None)];
    var h := m2[init].child;
    var m3 := m2[c := m2[c].(older := h)];
    var m4 := if h.Some? && h.value in m then m3[h.value := m3[h.value].(younger := Some(c))] else m3;
    var m5 := m4[c := m4[c].(parent := Some(init))];
    m5[init := m5[init].(child := Some(c))]
  }

  /** `ChainOk`, but for the younger link of the first child. */
  ghost predicate LooseChain<T>(m: Links<T>, p: T, ks: seq<T>) {
    var ok :=
      && p in m && m[p].child == At(ks, 0)
      && Distinct(ks)
      && (ks != [] ==> ks[0] in m && m[ks[0]].parent == Some(p) && m[ks[0]].older == At(ks, 1))
      && forall i {:trigger ChildOk(m, p, ks, i)} :: 1 <= i < |ks| ==> ChildOk(m, p, ks, i);
    ok
  }

  /** The tree while `cur` gives its children away. */
  ghost predicate LooseTree<T>(m: Links<T>, kids: Kids<T>, root: T, birth: map<T, nat>, cur: T) {
    var tree :=
      && kids.Keys == m.Keys && birth.Keys == m.Keys && root in m && m[root].parent == None
      && (forall p {:trigger ChainOk(m, p, kids[p])} :: p in m && p != cur ==> ChainOk(m, p, kids[p]))
      && cur in m && LooseChain(m, cur, kids[cur])
      && Parents(m, kids, root, birth);
    tree
  }

  /** `init` is the first process created after the root. */
  ghost predicate Eldest<T>(m: Links<T>, root: T, birth: map<T, nat>, init: T) {
    && init in m && init in birth && init != root && m[init].parent == Some(root)
    && forall q :: q in m && q in birth && q != root && q != init ==> birth[init] < birth[q]
  }

  lemma LooseFromTree<T>(m: Links<T>, kids: Kids<T>, root: T, birth: map<T, nat>, cur: T)
    requires TreeOk(m, kids, root, birth) && cur in m
    ensures LooseTree(m, kids, root, birth, cur)
  {
    assert ChainOk(m, cur, kids[cur]);
    if kids[cur] != [] { assert ChildOk(m, cur, kids[cur], 0); }
    assert LooseChain(m, cur, kids[cur]);
  }

  lemma TreeFromLoose<T>(m: Links<T>, kids: Kids<T>, root: T, birth: map<T, nat>, cur: T)
    requires LooseTree(m, kids, root, birth, cur) && kids[cur] == []
    ensures TreeOk(m, kids, root, birth)
  {
    assert ChainOk(m, cur, kids[cur]);
    assert Chains(m, kids);
  }

  lemma MovedLoose<T>(m: Links<T>, m': Links<T>, cur: T, ks: seq<T>, init: T, hs: seq<T>)
    requires LooseChain(m, cur, ks) && ks != [] && ChainOk(m, init, hs) && cur != init
    requires cur !in ks && init !in ks && init !in hs
    requires forall i, j :: 0 <= i < |ks| && 0 <= j < |hs| ==> ks[i] != hs[j]
    requires m' == Moved(m, cur, init)
    ensures LooseChain(m', cur, ks[1..]) && ChainOk(m', init, [ks[0]] + hs)
  {
    var c, ks', hs' := ks[0], ks[1..], [ks[0]] + hs;
    assert hs != [] ==> ChildOk(m, init, hs, 0);
    assert |ks| > 1 ==> ChildOk(m, cur, ks, 1);
    forall i | 1 <= i < |ks'| ensures ChildOk(m', cur, ks', i) { assert ChildOk(m, cur, ks, i + 1); }
    forall i | 0 <= i < |hs'| ensures ChildOk(m', init, hs', i) {
      if i > 0 { assert ChildOk(m, init, hs, i - 1); }
    }
  }

  lemma MovedElsewhere<T>(m: Links<T>, m': Links<T>, kids: Kids<T>, root: T, birth: map<T, nat>, cur: T, init: T, q: T)
    requires LooseTree(m, kids, root, birth, cur) && init in m && cur != init && kids[cur] != []
    requires q in m && q != cur && q != init
    requires m' == Moved(m, cur, init)
    ensures ChainOk(m', q, kids[q])
  {
    assert ChainOk(m, init, kids[init]) && ChainOk(m, q, kids[q]);
    assert kids[init] != [] ==> ChildOk(m, init, kids[init], 0);
    forall j | 0 <= j < |kids[q]|
      ensures kids[q][j] in m && kids[q][j] in m' && m'[kids[q][j]] == m[kids[q][j]].(child := m'[kids[q][j]].child)
    {
      assert ChildOk(m, q, kids[q], j);
    }
    ChainFrame(m, m', q, kids[q]);
  }

  lemma LooseMember<T>(m: Links<T>, ks: seq<T>, p: T, i: nat)
    requires LooseChain(m, p, ks) && i < |ks|
    ensures ks[i] in m && m[ks[i]].parent == Some(p)
  {
    if i > 0 { assert ChildOk(m, p, ks, i); }
  }

  lemma MovedApart<T>(m: Links<T>, kids: Kids<T>, root: T, birth: map<T, nat>, cur: T, init: T)
    requires LooseTree(m, kids, root, birth, cur) && Eldest(m, root, birth, init)
    requires cur != init && cur != root
    ensures cur !in kids[cur] && init !in kids[cur] && init !in kids[init]
    ensures forall i, j :: 0 <= i < |kids[cur]| && 0 <= j < |kids[init]| ==> kids[cur][i] != kids[init][j]
  {
    var ks, hs := kids[cur], kids[init];
    assert ChainOk(m, init, hs);
    assert ParentOk(m, kids, birth, cur);
    forall i | 0 <= i < |ks| ensures ks[i] != cur && ks[i] in m && m[ks[i]].parent == Some(cur) {
      LooseMember(m, ks, cur, i);
      if ks[i] != root { assert ParentOk(m, kids, birth, ks[i]); }
    }
    forall j | 0 <= j < |hs| ensures hs[j] in m && m[hs[j]].parent == Some(init) { assert ChildOk(m, init, hs, j); }
  }

  /** One turn of the loop keeps the tree, loose at `cur`. */
  lemma MovedTree<T>(m: Links<T>, kids: Kids<T>, root: T, birth: map<T, nat>, cur: T, init: T)
    requires LooseTree(m, kids, root, birth, cur) && Eldest(m, root, birth, init)
    requires cur != init && cur != root && kids[cur] != []
    ensures m[cur].child == Some(kids[cur][0]) && kids[cur][0] in m
    ensures
      var kids' := kids[cur := kids[cur][1..]][init := [kids[cur][0]] + kids[init]];
      LooseTree(Moved(m, cur, init), kids', root, birth, cur) && Eldest(Moved(m, cur, init), root, birth, init)
  {
    var ks, hs, c := kids[cur], kids[init], kids[cur][0];
    LooseMember(m, ks, cur, 0);
    var m', kids' := Moved(m, cur, init), kids[cur := ks[1..]][init := [c] + hs];
    MovedApart(m, kids, root, birth, cur, init);
    assert ChainOk(m, init, hs);
    MovedLoose(m, m', cur, ks, init, hs);
    forall q | q in m' && q != cur ensures ChainOk(m', q, kids'[q]) {
      if q != init { MovedElsewhere(m, m', kids, root, birth, cur, init, q); }
    }
    MovedParents(m, m', kids, kids', root, birth, cur, init);
  }

  lemma MovedParents<T>(m: Links<T>, m': Links<T>, kids: Kids<T>, kids': Kids<T>, root: T, birth: map<T, nat>,
      cur: T, init: T)
    requires LooseTree(m, kids, root, birth, cur) && Eldest(m, root, birth, init)
    requires cur != init && cur != root && kids[cur] != []
    requires m[cur].child == Some(kids[cur][0]) && kids[cur][0] in m
    requires m' == Moved(m, cur, init) && kids' == kids[cur := kids[cur][1..]][init := [kids[cur][0]] + kids[init]]
    ensures m'.Keys == m.Keys && Parents(m', kids', root, birth) && m'[root].parent == None
    ensures Eldest(m', root, birth, init)
  {
    var ks, c := kids[cur], kids[cur][0];
    LooseMember(m, ks, cur, 0);
    forall q | q in m' && q != root ensures ParentOk(m', kids', birth, q) {
      assert ParentOk(m, kids, birth, q);
      if q == c {
        assert c in kids'[init];
      } else {
        assert m'[q].parent == m[q].parent;
        if m[q].parent == Some(cur) {
          var j :| 0 <= j < |ks| && ks[j] == q;
          assert ks[1..][j - 1] == q;
        } else if m[q].parent == Some(init) {
          assert q in kids'[init];
        }
      }
    }
  }

  /** If it is `init` itself that exits with a child left, a turn of the loop
      changes nothing: the loop of `do_exit` never ends. */
  lemma InitExitNeverEnds<T>(m: Links<T>, kids: Kids<T>, root: T, birth: map<T, nat>, init: T)
    requires TreeOk(m, kids, root, birth) && init in m && kids[init] != []
    ensures m[init].child.Some? && m[init].child.value in m
    ensures Moved(m, init, init) == m
  {
    var ks := kids[init];
    NotOwnChild(m, kids, root, birth, init);
    assert ChainOk(m, init, ks) && ChildOk(m, init, ks, 0);
    assert init != ks[0];
    if |ks| > 1 {
      assert ChildOk(m, init, ks, 1);
      assert ks[1] != init && ks[0] != ks[1];
    }
  }

  /** The links after `n` turns of the loop of `do_exit`, or fewer if it has ended. */
  ghost function Turns<T>(m: Links<T>, cur: T, init: T, n: nat): Links<T>
    decreases n
  {
    if n == 0 || cur !in m || init !in m || m[cur].child.None? || m[cur].child.value !in m then m
    else Turns(Moved(m, cur, init), cur, init, n - 1)
  }

  /** The condition of the loop fails after `n` turns. */
  ghost predicate EndsAfter<T>(m: Links<T>, cur: T, init: T, n: nat) {
    var last := Turns(m, cur, init, n);
    cur in last && last[cur].child.None?
  }

  lemma {:induction false} OtherEnds<T>(m: Links<T>, kids: Kids<T>, root: T, birth: map<T, nat>, cur: T, init: T)
    requires LooseTree(m, kids, root, birth, cur) && Eldest(m, root, birth, init) && cur != init && cur != root
    ensures EndsAfter(m, cur, init, |kids[cur]|)
    decreases |kids[cur]|
  {
    assert LooseChain(m, cur, kids[cur]);
    if kids[cur] != [] {
      MovedTree(m, kids, root, birth, cur, init);
      var kids' := kids[cur := kids[cur][1..]][init := [kids[cur][0]] + kids[init]];
      OtherEnds(Moved(m, cur, init), kids', root, birth, cur, init);
    }
  }

  lemma {:induction false} InitNeverEnds<T>(m: Links<T>, kids: Kids<T>, root: T, birth: map<T, nat>, init: T, n: nat)
    requires TreeOk(m, kids, root, birth) && init in m && kids[init] != []
    ensures Turns(m, init, init, n) == m && !EndsAfter(m, init, init, n)
    decreases n
  {
    InitExitNeverEnds(m, kids, root, birth, init);
    if n > 0 { InitNeverEnds(m, kids, root, birth, init, n - 1); }
  }

  /** The loop of `do_exit` ends if and only if it is not init that exits, or init has
      no child. */
  lemma ExitEndsIff<T>(m: Links<T>, kids: Kids<T>, root: T, birth: map<T, nat>, cur: T, init: T)
    requires TreeOk(m, kids, root, birth) && Eldest(m, root, birth, init) && cur in m && cur != root
    ensures (exists n: nat :: EndsAfter(m, cur, init, n)) <==> cur != init || kids[init] == []
  {
    if cur != init {
      LooseFromTree(m, kids, root, birth, cur);
      OtherEnds(m, kids, root, birth, cur, init);
    } else if kids[init] == [] {
      assert ChainOk(m, init, kids[init]);
      assert EndsAfter(m, init, init, 0);
    } else {
      forall n: nat ensures !EndsAfter(m, init, init, n) { InitNeverEnds(m, kids, root, birth, init, n); }
    }
  }
}
