/** The process table (kernel/proc/proc.c): `set_links`, `remove_links` and the
    re-parenting loop of `do_exit`, store by store.

    A `pcb` is named by its address, and `links` is the memory that holds the
    tree links of all of them. */
module ProcTree {
  import opened Prelude
  import opened TreeLinks

  type Addr = int

  ghost function Reverse(s: seq<Addr>): seq<Addr> {
    if s == [] then [] else Reverse(s[1..]) + [s[0]]
  }

  lemma {:induction false} ReverseAppend(done: seq<Addr>, c: Addr)
    ensures Reverse(done + [c]) == [c] + Reverse(done)
  {
    if done == [] {
      assert done + [c] == [c];
    } else {
      ReverseAppend(done[1..], c);
      assert (done + [c])[1..] == done[1..] + [c];
    }
  }

  /** The list holds every process but idle, each once. */
  ghost predicate Listed(list: seq<Addr>, idle: Addr, all: set<Addr>) {
    var listed :=
      && idle in all && idle !in list && Distinct(list)
      && forall p :: p in all <==> p == idle || p in list;
    listed
  }

  ghost predicate Before(birth: map<Addr, nat>, clock: nat) {
    forall p :: p in birth ==> birth[p] < clock
  }

  lemma ListedCons(list: seq<Addr>, idle: Addr, all: set<Addr>, x: Addr)
    requires Listed(list, idle, all) && x !in all
    ensures Listed([x] + list, idle, all + {x})
  {
  }

  lemma ListedDrop(list: seq<Addr>, idle: Addr, all: set<Addr>, k: nat)
    requires Listed(list, idle, all) && k < |list|
    ensures Listed(list[..k] + list[k + 1..], idle, all - {list[k]})
  {
    var r := list[..k] + list[k + 1..];
    assert forall j :: 0 <= j < |r| ==> r[j] == if j < k then list[j] else list[j + 1];
    forall p | p in list && p != list[k] ensures p in r { UnlinkedParent(list, k, p); }
  }

  /** The stores of `set_links`, on the memory of links. */
  method StoreSet(links: Links<Addr>, x: Addr, p: Addr) returns (r: Links<Addr>)
    requires p in links && x !in links && (links[p].child.Some? ==> links[p].child.value in links)
    ensures r == Linked(links, x, p) && r.Keys == links.Keys + {x}
  {
    r := links[x := Link(Some(p), None, None, links[p].child)];
    if r[x].older.Some? {
      var o := r[x].older.value;
      r := r[o := r[o].(younger := Some(x))];
    }
    r := r[p := r[p].(child := Some(x))];
  }

  /** The stores of `remove_links`. */
  method StoreRemove(links: Links<Addr>, x: Addr, p: Addr) returns (r: Links<Addr>)
    requires x in links && p in links
    requires links[x].older.Some? ==> links[x].older.value in links
    requires links[x].younger.Some? ==> links[x].younger.value in links
    ensures r == Unlinked(links, x, p)
  {
    r := links;
    var link := r[x];
    if link.older.Some? {
      r := r[link.older.value := r[link.older.value].(younger := link.younger)];
    }
    if link.younger.Some? {
      r := r[link.younger.value := r[link.younger.value].(older := link.older)];
    } else {
      r := r[p := r[p].(child := link.older)];
    }
  }

  /** The stores of one turn of the loop of `do_exit`. */
  method StoreMove(links: Links<Addr>, cur: Addr, init: Addr) returns (r: Links<Addr>)
    requires cur in links && init in links && links[cur].child.Some? && links[cur].child.value in links
    requires cur != init && (links[init].child.Some? ==> links[init].child.value in links)
    ensures r == Moved(links, cur, init) && r.Keys == links.Keys
  {
    r := links;
    var c := r[cur].child.value;
    r := r[cur := r[cur].(child := r[c].older)];
    r := r[c := r[c].(younger := None)];
    r := r[c := r[c].(older := r[init].child)];
    if r[init].child.Some? {
      var h := r[init].child.value;
      r := r[h := r[h].(younger := Some(c))];
    }
    r := r[c := r[c].(parent := Some(init))];
    r := r[init := r[init].(child := Some(c))];
  }

  /** `init` is known, once it exists, to be the first process after idle; a zombie
      has no children. */
  ghost predicate Settled(links: Links<Addr>, kids: Kids<Addr>, idle: Addr, birth: map<Addr, nat>,
      init: Option<Addr>, zombies: set<Addr>) {
    var settled :=
      && (init.Some? ==> Eldest(links, idle, birth, init.value))
      && idle !in zombies && (init.Some? ==> init.value !in zombies)
      && forall z :: z in zombies ==> z in links && z in kids && kids[z] == [];
    settled
  }

  class ProcTable {
    const idle: Addr
    var links: Links<Addr>
    var list: seq<Addr>           // g_proc_list
    var num: int                  // g_num_proc
    var init: Option<Addr>        // g_init_proc
    var zombies: set<Addr>        // those in state PROC_ZOMBIE
    ghost var kids: Kids<Addr>    // the tree
    ghost var birth: map<Addr, nat>
    ghost var clock: nat

    ghost predicate Valid()
      reads this
    {
      && Listed(list, idle, links.Keys) && num == |list| + 1
      && Before(birth, clock)
      && TreeOk(links, kids, idle, birth)
      && Settled(links, kids, idle, birth, init, zombies)
    }

    /** `init_proc`: only idle exists, outside the list. */
    constructor (idle: Addr)
      ensures Valid() && this.idle == idle && list == [] && kids == map[idle := []] && init == None && zombies == {}
    {
      this.idle := idle;
      list, num, init, zombies := [], 1, None, {};
      links := map[idle := Link(None, None, None, None)];
      kids, birth, clock := map[idle := []], map[idle := 0], 1;
      new;
      assert ChainOk(links, idle, []);
    }

    /** The end of `init_proc`: the first process becomes init. */
    method SetInit(x: Addr)
      requires Valid() && list == [x] && x !in zombies
      modifies this`init
      ensures Valid() && init == Some(x)
    {
      OnlyOne(links, kids, idle, birth, list, x);
      init := Some(x);
    }

    /** `set_links` of a new process `x` whose parent field is already `p`: it goes
        to the front of the list and becomes the youngest child of its parent. */
    method SetLinks(x: Addr, p: Addr)
      requires Valid() && x !in links && p in links && p !in zombies
      modifies this`links, this`list, this`num, this`kids, this`birth, this`clock
      ensures Valid()
      ensures list == [x] + old(list) && num == old(num) + 1
      ensures kids == old(kids)[p := [x] + old(kids)[p]][x := []]
    {
      ListedCons(list, idle, links.Keys, x);
      list := [x] + list;
      links, kids, birth := AddToTree(links, kids, idle, birth, clock, init, zombies, x, p);
      num, clock := num + 1, clock + 1;
    }

    /** `remove_links` of a zombie, as `do_wait` calls it; `k` is its place in the list. */
    method RemoveLinks(x: Addr, k: nat) returns (ghost p: Addr, ghost i: nat)
      requires Valid() && x in zombies && k < |list| && list[k] == x
      modifies this`links, this`list, this`num, this`zombies, this`kids, this`birth
      ensures Valid() && zombies == old(zombies) - {x}
      ensures list == old(list)[..k] + old(list)[k + 1..] && num == old(num) - 1
      ensures p in old(kids) && i < |old(kids)[p]| && old(kids)[p][i] == x
      ensures kids == old(kids)[p := old(kids)[p][..i] + old(kids)[p][i + 1..]] - {x}
    {
      ListedDrop(list, idle, links.Keys, k);
      list := list[..k] + list[k + 1..];
      links, kids, birth, p, i := RemoveFromTree(links, kids, idle, birth, init, zombies, x);
      zombies := zombies - {x};
      num := num - 1;
    }

    /** `do_exit` of a process other than init, on the process table: it becomes a
        zombie, and its children go to init. */
    method GiveChildrenToInit(cur: Addr)
      requires Valid() && init.Some? && cur in links && cur != idle && cur != init.value && cur !in zombies
      modifies this`links, this`zombies, this`kids
      ensures Valid() && zombies == old(zombies) + {cur}
      ensures kids == Given(old(kids), cur, init.value, old(kids)[cur], [])
    {
      ghost var kids0 := kids;
      links, kids := GiveAll(links, kids, idle, birth, cur, init.value);
      zombies := zombies + {cur};
      GivenSettled(kids0, kids, cur, init.value, zombies);
    }
  }

  /** Zombies stay childless while another process gives its children to init. */
  lemma GivenSettled(kids0: Kids<Addr>, kids: Kids<Addr>, cur: Addr, init: Addr, zombies: set<Addr>)
    requires init in kids0 && cur in kids0 && cur != init && init !in zombies
    requires kids == Given(kids0, cur, init, kids0[cur], [])
    requires forall z :: z in zombies && z != cur ==> z in kids0 && kids0[z] == []
    ensures forall z :: z in zombies ==> z in kids && kids[z] == []
  {
  }

  /** The only process beside idle is a child of idle. */
  lemma OnlyOne(links: Links<Addr>, kids: Kids<Addr>, idle: Addr, birth: map<Addr, nat>, list: seq<Addr>, x: Addr)
    requires TreeOk(links, kids, idle, birth) && Listed(list, idle, links.Keys) && list == [x]
    ensures Eldest(links, idle, birth, x)
  {
    assert x in list && x in links;
    assert ParentOk(links, kids, birth, x);
    var q := links[x].parent.value;
    assert q in links && q != x;
    assert q == idle;
  }

  /** The tree when `cur` has given `done` of its children to `init` and has `ks` left. */
  ghost function Given(kids: Kids<Addr>, cur: Addr, init: Addr, done: seq<Addr>, ks: seq<Addr>): Kids<Addr>
    requires init in kids
  {
    kids[cur := ks][init := Reverse(done) + kids[init]]
  }

  lemma GivenStep(kids: Kids<Addr>, cur: Addr, init: Addr, done: seq<Addr>, ks: seq<Addr>)
    requires init in kids && cur != init && ks != []
    ensures
      var g := Given(kids, cur, init, done, ks);
      g[cur := ks[1..]][init := [ks[0]] + g[init]] == Given(kids, cur, init, done + [ks[0]], ks[1..])
  {
    ReverseAppend(done, ks[0]);
    assert [ks[0]] + (Reverse(done) + kids[init]) == Reverse(done + [ks[0]]) + kids[init];
  }

  lemma GivenNone(kids: Kids<Addr>, cur: Addr, init: Addr)
    requires init in kids && cur in kids && cur != init
    ensures Given(kids, cur, init, [], kids[cur]) == kids
  {
    assert Reverse([]) + kids[init] == kids[init];
  }

  /** The loop of `do_exit`: the children of `cur` go to `init` one by one, so
      they end up reversed, ahead of the children `init` had. */
  method GiveAll(links0: Links<Addr>, ghost kids0: Kids<Addr>, ghost root: Addr, ghost birth: map<Addr, nat>,
      cur: Addr, init: Addr)
    returns (links: Links<Addr>, ghost kids: Kids<Addr>)
    requires TreeOk(links0, kids0, root, birth) && Eldest(links0, root, birth, init)
    requires cur in links0 && cur != root && cur != init
    ensures TreeOk(links, kids, root, birth) && Eldest(links, root, birth, init) && links.Keys == links0.Keys
    ensures kids == Given(kids0, cur, init, kids0[cur], [])
  {
    links, kids := links0, kids0;
    LooseFromTree(links, kids, root, birth, cur);
    ghost var done: seq<Addr>, ks: seq<Addr> := [], kids0[cur];
    GivenNone(kids0, cur, init);
    while links[cur].child.Some?
      invariant links.Keys == links0.Keys
      invariant LooseTree(links, kids, root, birth, cur) && Eldest(links, root, birth, init)
      invariant kids0[cur] == done + ks
      invariant kids == Given(kids0, cur, init, done, ks)
      decreases |ks|
    {
      links, kids := GiveFirst(links, kids, root, birth, cur, init, kids0, done, ks);
      done, ks := done + [ks[0]], ks[1..];
    }
    assert LooseChain(links, cur, ks);
    assert done == kids0[cur];
    TreeFromLoose(links, kids, root, birth, cur);
  }

  /** One turn of that loop. */
  method GiveFirst(links0: Links<Addr>, ghost kids1: Kids<Addr>, ghost root: Addr, ghost birth: map<Addr, nat>,
      cur: Addr, init: Addr,
      ghost kids0: Kids<Addr>, ghost done: seq<Addr>, ghost ks: seq<Addr>)
    returns (links: Links<Addr>, ghost kids: Kids<Addr>)
    requires LooseTree(links0, kids1, root, birth, cur) && Eldest(links0, root, birth, init)
    requires cur != root && cur != init && links0[cur].child.Some?
    requires cur in kids0 && init in kids0 && kids1 == Given(kids0, cur, init, done, ks)
    ensures LooseTree(links, kids, root, birth, cur) && Eldest(links, root, birth, init) && links.Keys == links0.Keys
    ensures ks != [] && kids == Given(kids0, cur, init, done + [ks[0]], ks[1..])
  {
    assert kids1[cur] == ks && LooseChain(links0, cur, ks);
    GivenStep(kids0, cur, init, done, ks);
    MovedTree(links0, kids1, root, birth, cur, init);
    HeadListed(links0, kids1, root, birth, init, cur);
    links := StoreMove(links0, cur, init);
    kids := Given(kids0, cur, init, done + [ks[0]], ks[1..]);
  }

  method AddToTree(links0: Links<Addr>, ghost kids0: Kids<Addr>, ghost root: Addr, ghost birth0: map<Addr, nat>,
      ghost clock: nat,
      ghost init: Option<Addr>, ghost zombies: set<Addr>, x: Addr, p: Addr)
    returns (links: Links<Addr>, ghost kids: Kids<Addr>, ghost birth: map<Addr, nat>)
    requires TreeOk(links0, kids0, root, birth0) && Before(birth0, clock) &&
      Settled(links0, kids0, root, birth0, init, zombies)
    requires x !in links0 && p in links0 && p !in zombies
    ensures TreeOk(links, kids, root, birth) && Before(birth, clock + 1) &&
      Settled(links, kids, root, birth, init, zombies)
    ensures links.Keys == links0.Keys + {x}
    ensures kids == kids0[p := [x] + kids0[p]][x := []]
  {
    LinkedTree(links0, kids0, root, birth0, x, p, clock);
    ChildListed(links0, kids0, root, birth0, p);
    links := StoreSet(links0, x, p);
    kids, birth := kids0[p := [x] + kids0[p]][x := []], birth0[x := clock];
    AddedSettled(links0, kids0, root, birth0, clock, init, zombies, x, p);
  }

  lemma AddedSettled(m: Links<Addr>, kids: Kids<Addr>, root: Addr, birth: map<Addr, nat>, clock: nat,
      init: Option<Addr>, zombies: set<Addr>, x: Addr, p: Addr)
    requires TreeOk(m, kids, root, birth) && Before(birth, clock) && Settled(m, kids, root, birth, init, zombies)
    requires x !in m && p in m && p !in zombies && (m[p].child.Some? ==> m[p].child.value in m)
    ensures Settled(Linked(m, x, p), kids[p := [x] + kids[p]][x := []], root, birth[x := clock], init, zombies)
  {
    var m', kids' := Linked(m, x, p), kids[p := [x] + kids[p]][x := []];
    forall q | q in m ensures q in m' && m'[q].parent == m[q].parent { }
    if init.Some? { assert Eldest(m', root, birth[x := clock], init.value); }
    forall z | z in zombies ensures z in m' && z in kids' && kids'[z] == [] {
      assert z in m && z != x && z != p;
    }
  }

  method RemoveFromTree(links0: Links<Addr>, ghost kids0: Kids<Addr>, ghost root: Addr, ghost birth0: map<Addr, nat>,
      ghost init: Option<Addr>, ghost zombies: set<Addr>, x: Addr)
    returns (links: Links<Addr>, ghost kids: Kids<Addr>, ghost birth: map<Addr, nat>, ghost p: Addr, ghost i: nat)
    requires TreeOk(links0, kids0, root, birth0) && Settled(links0, kids0, root, birth0, init, zombies) && x in zombies
    ensures TreeOk(links, kids, root, birth) && Settled(links, kids, root, birth, init, zombies - {x})
    ensures links.Keys == links0.Keys - {x} && birth == birth0 - {x}
    ensures p in kids0 && i < |kids0[p]| && kids0[p][i] == x
    ensures kids == kids0[p := kids0[p][..i] + kids0[p][i + 1..]] - {x}
  {
    assert ParentOk(links0, kids0, birth0, x);
    var parent := links0[x].parent.value;
    p := parent;
    i :| 0 <= i < |kids0[p]| && kids0[p][i] == x;
    UnlinkedTree(links0, kids0, root, birth0, x, p, i);
    SiblingsListed(links0, kids0, root, birth0, x, p, i);
    assert ChainOk(links0, p, kids0[p]);
    UnlinkedKeeps(links0, p, kids0[p], i);
    links := StoreRemove(links0, x, parent);
    links := links - {x};
    kids, birth := kids0[p := kids0[p][..i] + kids0[p][i + 1..]] - {x}, birth0 - {x};
    RemovedSettled(links0, kids0, root, birth0, init, zombies, x, p, i, links, kids);
  }

  lemma RemovedSettled(links0: Links<Addr>, kids0: Kids<Addr>, root: Addr, birth0: map<Addr, nat>,
      init: Option<Addr>, zombies: set<Addr>,
      x: Addr, p: Addr, i: nat, links: Links<Addr>, kids: Kids<Addr>)
    requires Settled(links0, kids0, root, birth0, init, zombies) && x in zombies
    requires p in kids0 && i < |kids0[p]|
    requires links.Keys == links0.Keys - {x} && forall q :: q in links ==> links[q].parent == links0[q].parent
    requires kids == kids0[p := kids0[p][..i] + kids0[p][i + 1..]] - {x}
    ensures Settled(links, kids, root, birth0 - {x}, init, zombies - {x})
  {
    if init.Some? {
      assert init.value != x && init.value in links;
      assert Eldest(links, root, birth0 - {x}, init.value);
    }
    forall z | z in zombies - {x} ensures z in links && z in kids && kids[z] == [] {
      assert z in links0 && kids0[z] == [] && z != p;
    }
  }

  lemma ChildListed(m: Links<Addr>, kids: Kids<Addr>, root: Addr, birth: map<Addr, nat>, p: Addr)
    requires TreeOk(m, kids, root, birth) && p in m
    ensures m[p].child.Some? ==> m[p].child.value in m
  {
    assert ChainOk(m, p, kids[p]);
    assert kids[p] != [] ==> ChildOk(m, p, kids[p], 0);
  }

  lemma HeadListed(m: Links<Addr>, kids: Kids<Addr>, root: Addr, birth: map<Addr, nat>, init: Addr, cur: Addr)
    requires LooseTree(m, kids, root, birth, cur) && init in m && init != cur
    ensures m[init].child.Some? ==> m[init].child.value in m
  {
    assert ChainOk(m, init, kids[init]);
    assert kids[init] != [] ==> ChildOk(m, init, kids[init], 0);
  }

  lemma SiblingsListed(m: Links<Addr>, kids: Kids<Addr>, root: Addr, birth: map<Addr, nat>, x: Addr, p: Addr, i: nat)
    requires TreeOk(m, kids, root, birth) && p in m && i < |kids[p]| && kids[p][i] == x
    ensures x in m
    ensures m[x].older.Some? ==> m[x].older.value in m
    ensures m[x].younger.Some? ==> m[x].younger.value in m
  {
    assert ChainOk(m, p, kids[p]) && ChildOk(m, p, kids[p], i);
    if i > 0 { assert ChildOk(m, p, kids[p], i - 1); }
    if i + 1 < |kids[p]| { assert ChildOk(m, p, kids[p], i + 1); }
  }
}
