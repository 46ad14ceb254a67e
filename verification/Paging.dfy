/** The page-table operations of kernel/mm/pmm.c over frames with reference
    counts: get_pte, add_page, del_page, alloc_page_gpte and alloc_gpt of
    kernel/proc/proc.c. */
module Paging {
  import opened Prelude
  import opened Sets
  import opened PageTable

  /** The pages whose valid entry is frame `f`. */
  ghost function Refs(flat: Flat, f: int): set<Vp> {
    set k | k in flat && IsValid(flat[k]) && Ppn(flat[k]) == f
  }

  /** Word `w` is a valid entry of frame `f`. */
  ghost predicate Hits(w: nat, f: int) { IsValid(w) && Ppn(w) == f }

  /** Frames in use, tables and free frames are kept apart, and a reference count
      is the number of valid entries; frame `held` has one more. */
  ghost predicate Owned(mem: Mem, where: Where, flat: Flat, ref: map<int, int>, free: set<int>, held: int) {
    var owned :=
      && mem.Keys <= ref.Keys
      && (forall f :: f in free ==> f in mem && f !in where && f != held)
      && (forall k :: k in flat && IsValid(flat[k]) ==> Usable(mem, where, free, Ppn(flat[k])))
      && (forall f {:trigger Refs(flat, f)} :: f in mem && f !in where ==> ref[f] == |Refs(flat, f)| + Bit(f == held));
    owned
  }

  ghost predicate Usable(mem: Mem, where: Where, free: set<int>, f: int) {
    f in mem && f !in where && f !in free
  }

  lemma RefsPut(flat: Flat, k: Vp, w: nat, f: int)
    ensures |Refs(Put(flat, k, w), f)| == |Refs(flat, f)| - Bit(Hits(Word(flat, k), f)) + Bit(Hits(w, f))
    ensures forall x :: x != k ==> (x in Refs(Put(flat, k, w), f) <==> x in Refs(flat, f))
    ensures k in Refs(Put(flat, k, w), f) <==> Hits(w, f)
    ensures k in Refs(flat, f) <==> Hits(Word(flat, k), f)
  {
    CardMove(Refs(flat, f), Refs(Put(flat, k, w), f), k);
  }

  /** Storing a valid entry for the frame held. */
  lemma PutHeld(mem: Mem, where: Where, flat: Flat, ref: map<int, int>, free: set<int>, f: int, k: Vp, w: nat,
      mem': Mem)
    requires Frames(mem) && Owned(mem, where, flat, ref, free, f) && Usable(mem, where, free, f) &&
      mem'.Keys == mem.Keys
    requires !IsValid(Word(flat, k)) && Hits(w, f)
    ensures Owned(mem', where, Put(flat, k, w), ref, free, -1)
  {
    forall g | g in mem' && g !in where ensures ref[g] == |Refs(Put(flat, k, w), g)| + Bit(g == -1) {
      RefsPut(flat, k, w, g);
    }
  }

  /** Storing another entry for the same frame. */
  lemma PutSame(mem: Mem, where: Where, flat: Flat, ref: map<int, int>, free: set<int>, f: int, k: Vp, w: nat,
      mem': Mem)
    requires Frames(mem) && Owned(mem, where, flat, ref, free, -1) && mem'.Keys == mem.Keys
    requires Hits(Word(flat, k), f) && Hits(w, f)
    ensures Owned(mem', where, Put(flat, k, w), ref, free, -1)
  {
    forall g | g in mem' && g !in where ensures ref[g] == |Refs(Put(flat, k, w), g)| {
      RefsPut(flat, k, w, g);
    }
  }

  /** Removing a valid entry: the frame is freed when this was the last one. */
  lemma PutZero(mem: Mem, where: Where, flat: Flat, ref: map<int, int>, free: set<int>, held: int, k: Vp, f: int,
      mem': Mem, ref': map<int, int>, free': set<int>)
    requires Owned(mem, where, flat, ref, free, held) && mem'.Keys == mem.Keys
    requires Hits(Word(flat, k), f) && f != held
    requires f in ref && ref' == ref[f := ref[f] - 1]
    requires free' == if ref'[f] == 0 then free + {f} else free
    ensures Owned(mem', where, Put(flat, k, 0), ref', free', held)
    ensures f in free' <==> Refs(Put(flat, k, 0), f) == {}
  {
    var flat' := Put(flat, k, 0);
    forall g | g in mem' && g !in where ensures ref'[g] == |Refs(flat', g)| + Bit(g == held) {
      RefsPut(flat, k, 0, g);
    }
    assert Usable(mem, where, free, f);
    forall x | x in flat' && IsValid(flat'[x]) ensures Usable(mem', where, free', Ppn(flat'[x])) {
      assert x in flat && flat[x] == flat'[x];
      assert x in Refs(flat', Ppn(flat'[x]));
    }
  }

  /** The contents of the frames in use are the same. */
  ghost predicate SameData(mem: Mem, where: Where, free: set<int>, mem': Mem) {
    var ok :=
      mem'.Keys == mem.Keys && forall f :: Usable(mem, where, free, f) ==> mem'[f] == mem[f];
    ok
  }

  /** More tables, made from frames that were free. */
  ghost predicate Grows(where: Where, free: set<int>, where': Where) {
    var ok :=
      && (forall t :: t in where ==> t in where' && where'[t] == where[t])
      && (forall t :: t in where' && t !in where ==> t in free && !where'[t].Root?);
    ok
  }

  /** Tables stay where they are, and no address space is added. */
  ghost predicate Keeps(where: Where, where': Where) {
    var ok :=
      && (forall t :: t in where ==> t in where' && where'[t] == where[t])
      && (forall t :: t in where' && t !in where ==> !where'[t].Root?);
    ok
  }

  /** No frame is lost: what was free or a table still is one of the two. */
  ghost predicate NoneLost(where: Where, free: set<int>, where': Where, free': set<int>) {
    var ok := free + where.Keys <= free' + where'.Keys;
    ok
  }

  /** Every page has the leaf table it had. */
  ghost predicate SameTables(mem: Mem, where: Where, mem': Mem) {
    var ok :=
      forall k {:trigger LeafTable(mem', k)} :: User(where, k) ==> LeafTable(mem', k) == LeafTable(mem, k);
    ok
  }

  /** A frame goes back to the allocator exactly when its last entry goes. */
  ghost predicate FreedWhenLast(mem: Mem, where: Where, flat: Flat, free: set<int>, flat': Flat, free': set<int>) {
    var ok :=
      forall f :: Usable(mem, where, free, f) ==> (f in free' <==> Refs(flat, f) != {} && Refs(flat', f) == {});
    ok
  }

  lemma TakeFree(mem: Mem, where: Where, flat: Flat, ref: map<int, int>, free: set<int>, held: int, f: int)
    requires Frames(mem) && Owned(mem, where, flat, ref, free, held) && f in free
    ensures f != -1 && f != held && Owned(mem, where, flat, ref, free - {f}, held)
    ensures Usable(mem, where, free - {f}, f) && Refs(flat, f) == {}
  {
    forall k | k in flat ensures k !in Refs(flat, f) { }
  }

  /** The place of the table that entry `i` of a table at `n` points to. */
  ghost function Below(n: Node, i: int): Node {
    if n.Root? then Mid(n.r, i) else Leaf(n.r, n.g, i)
  }

  /** Frame `f` cleared, and entry `i` of table `t` pointing to it. */
  function Linked(mem: Mem, t: int, i: int, f: nat): Mem
    requires t in mem && 0 <= i < |mem[t]| && t != f
  {
    Store(mem[f := seq(Entries, _ => 0)], t, i, Pte(f, 1))
  }

  lemma NewTableSound(mem: Mem, where: Where, flat: Flat, ref: map<int, int>, free: set<int>, held: int, t: int,
      i: int, f: int)
    requires Shape(mem, where) && Refines(mem, where, flat) && Owned(mem, where, flat, ref, free, held)
    requires t in where && 0 <= i < Entries && Next(mem, t, i) == -1
    requires where[t].Mid? || (where[t].Root? && i < UserRoots)
    requires Usable(mem, where, free, f) && Refs(flat, f) == {} && f != held
    ensures
      var mem', where' := Linked(mem, t, i, f), where[f := Below(where[t], i)];
      && Shape(mem', where') && Refines(mem', where', flat) && Owned(mem', where', flat, ref[f := 1], free, held)
      && SameData(mem, where, free + {f}, mem') && Grows(where, free + {f}, where')
      && Next(mem', t, i) == f
      && forall r, g :: (r, g) != (t, i) && r in where ==> Next(mem', r, g) == Next(mem, r, g)
  {
    var mem', where' := Linked(mem, t, i, f), where[f := Below(where[t], i)];
    assert seq(Entries, _ => 0) == Zeros();
    if where[t].Root? { NewMid(mem, where, flat, t, i, f); } else { NewLeaf(mem, where, flat, t, i, f); }
    TableOwned(mem, where, flat, ref, free, held, f, where', mem');
  }

  lemma TableOwned(mem: Mem, where: Where, flat: Flat, ref: map<int, int>, free: set<int>, held: int, f: int,
      where': Where, mem': Mem)
    requires Owned(mem, where, flat, ref, free, held) && Usable(mem, where, free, f) && Refs(flat, f) == {} && f != held
    requires mem'.Keys == mem.Keys && where'.Keys == where.Keys + {f}
    ensures Owned(mem', where', flat, ref[f := 1], free, held)
  {
    forall k | k in flat && IsValid(flat[k]) ensures Usable(mem', where', free, Ppn(flat[k])) {
      assert k !in Refs(flat, f);
    }
  }

  method Pick(frames: set<int>) returns (f: int)
    requires frames != {}
    ensures f in frames
  {
    assert (forall x :: x !in frames) ==> frames == {};
    f :| f in frames;
  }

  class Mmu {
    var mem: Mem
    var ref: map<int, int>
    var free: set<int>
    ghost var where: Where
    ghost var flat: Flat

    ghost predicate Sound(held: int)
      reads this
    {
      var sound := Shape(mem, where) && Refines(mem, where, flat) && Owned(mem, where, flat, ref, free, held);
      sound
    }

    ghost predicate Valid()
      reads this
    {
      Sound(-1)
    }

    /** Managed frames, none of them in use yet. */
    constructor (frames: set<nat>)
      ensures Valid() && flat == map[] && where == map[] && free == frames && mem.Keys == frames
    {
      mem := map f | f in frames :: seq(Entries, _ => 0);
      ref := map f | f in frames :: 0;
      free := frames;
      where := map[];
      flat := map[];
      new;
      assert forall f :: Refs(flat, f) == {};
    }

    /** `alloc_page`: any free frame, or -1 if there is none. */
    method AllocPage(ghost held: int) returns (f: int)
      requires Sound(held)
      modifies this`free
      ensures Sound(held)
      ensures f == -1 <==> old(free) == {}
      ensures f == -1 ==> free == old(free)
      ensures f != -1 ==>
        && f in old(free) && free == old(free) - {f} && f != held
        && Usable(mem, where, free, f) && Refs(flat, f) == {}
    {
      var frames := free;
      if frames == {} { return -1; }
      f := Pick(frames);
      free := frames - {f};
      TakeFree(mem, where, flat, ref, frames, held, f);
    }

    /** One step of `get_pte`: make a table for entry `i` of table `t`. */
    method NewTable(t: int, i: int, ghost held: int) returns (f: int)
      requires Sound(held) && t in where && 0 <= i < Entries && Next(mem, t, i) == -1
      requires where[t].Mid? || (where[t].Root? && i < UserRoots)
      modifies this`mem, this`ref, this`free, this`where
      ensures Sound(held)
      ensures f == -1 <==> old(free) == {}
      ensures f == -1 ==> mem == old(mem) && ref == old(ref) && free == old(free) && where == old(where)
      ensures f != -1 ==> Next(mem, t, i) == f
      ensures f != -1 ==> f in ref && ref[f] == 1
      ensures SameData(old(mem), old(where), old(free), mem) && Grows(old(where), old(free), where) && free <= old(free)
      ensures NoneLost(old(where), old(free), where, free)
      ensures forall r, g :: (r, g) != (t, i) && r in old(where) ==> Next(mem, r, g) == old(Next(mem, r, g))
    {
      f := AllocPage(held);
      if f != -1 {
        NewTableSound(mem, where, flat, ref, free, held, t, i, f);
        mem, ref, where := Linked(mem, t, i, f), ref[f := 1], where[f := Below(where[t], i)];
      } else {
        Unchanged(mem, where, flat, free);
      }
    }

    /** `get_pte`: the leaf table and index of the entry for `addr`; table -1 stands for NULL. */
    method GetPte(root: int, addr: int, create: bool, ghost held: int) returns (t: int, i: int)
      requires Sound(held) && Is(where, root, Root(root)) && 0 <= addr < UserEnd
      modifies this`mem, this`ref, this`free, this`where
      ensures Sound(held)
      ensures t == LeafTable(mem, PageOf(root, addr)) && i == Ptx(addr)
      ensures t != -1 ==> t in mem && t in where && mem[t][i] == Word(flat, PageOf(root, addr))
      ensures t == -1 ==> Word(flat, PageOf(root, addr)) == 0
      ensures !create || old(LeafTable(mem, PageOf(root, addr))) != -1 ==>
        mem == old(mem) && ref == old(ref) && free == old(free) && where == old(where)
      ensures create && t == -1 ==> free == {}
      ensures SameData(old(mem), old(where), old(free), mem) && Grows(old(where), old(free), where) && free <= old(free)
      ensures NoneLost(old(where), old(free), where, free)
    {
      ghost var k := PageOf(root, addr);
      Unchanged(mem, where, flat, free);
      if !create {
        t, i := FindPte(mem, where, flat, root, addr);
        return;
      }
      assert User(where, k);
      Path(mem, where, k);
      i := Ptx(addr);
      var mid := Next(mem, root, Gptx(addr));
      if mid == -1 {
        mid := NewTable(root, Gptx(addr), held);
        if mid == -1 { AtLeaf(mem, where, flat, k); return -1, i; }
        Path(mem, where, k);
      }
      t := Next(mem, mid, Mptx(addr));
      if t == -1 {
        t := NewTable(mid, Mptx(addr), held);
      }
      AtLeaf(mem, where, flat, k);
    }

    /** `del_page`; frame `held` has a reference the tables do not show. */
    method DelPage(root: int, addr: int, ghost held: int)
      requires Sound(held) && Is(where, root, Root(root)) && 0 <= addr < UserEnd
      requires !Hits(Word(flat, PageOf(root, addr)), held)
      modifies this`mem, this`ref, this`free, this`flat
      ensures Sound(held)
      ensures
        var k := PageOf(root, addr);
        flat == if IsValid(Word(old(flat), k)) then Put(old(flat), k, 0) else old(flat)
      ensures SameData(old(mem), where, old(free), mem) && old(free) <= free
      ensures SameTables(old(mem), where, mem)
      ensures FreedWhenLast(mem, where, old(flat), old(free), flat, free)
    {
      ghost var k := PageOf(root, addr);
      var t, i := FindPte(mem, where, flat, root, addr);
      if t != -1 && IsValid(mem[t][i]) {
        mem, ref, free := Unmap(mem, where, flat, ref, free, held, k, t, i);
        flat := Put(flat, k, 0);
      } else {
        Unchanged(mem, where, flat, free);
      }
    }

    /** `add_page`: map `page` at `addr`. */
    method AddPage(root: int, page: int, addr: int, flags: nat) returns (ret: int)
      requires Valid() && Is(where, root, Root(root)) && 0 <= addr < UserEnd
      requires Usable(mem, where, free, page) && flags < 1024
      modifies this
      ensures Valid() && (ret == 0 || ret == -ENoMem)
      ensures ret == 0 ==> flat == old(flat)[PageOf(root, addr) := Pte(page, WithV(flags))]
      ensures ret == 0 ==> EntryAs(flat[PageOf(root, addr)], page, flags)
      ensures ret != 0 ==> flat == old(flat) && free == {} && old(LeafTable(mem, PageOf(root, addr))) == -1
      ensures SameData(old(mem), old(where), old(free), mem) && Grows(old(where), old(free), where)
      ensures FreedWhenLast(old(mem), old(where), old(flat), old(free), flat, free)
      ensures NoneLost(old(where), old(free), where, free)
    {
      var w := MakeEntry(page, flags);
      ret := AddEntry(root, page, addr, w);
    }

    /** `add_page` with the entry word made. */
    method AddEntry(root: int, page: int, addr: int, w: nat) returns (ret: int)
      requires Valid() && Is(where, root, Root(root)) && 0 <= addr < UserEnd
      requires Usable(mem, where, free, page) && Hits(w, page) && w != 0
      modifies this
      ensures Valid() && (ret == 0 || ret == -ENoMem)
      ensures ret == 0 ==> flat == old(flat)[PageOf(root, addr) := w]
      ensures ret != 0 ==> flat == old(flat) && free == {} && old(LeafTable(mem, PageOf(root, addr))) == -1
      ensures SameData(old(mem), old(where), old(free), mem) && Grows(old(where), old(free), where)
      ensures FreedWhenLast(old(mem), old(where), old(flat), old(free), flat, free)
      ensures NoneLost(old(where), old(free), where, free)
    {
      ghost var k := PageOf(root, addr);
      var t, i := GetPte(root, addr, true, -1);
      if t == -1 {
        NoneFreed(old(mem), old(where), old(free), flat, free);
        return -ENoMem;
      }
      assert Usable(mem, where, free, page);
      ghost var mem1, free1 := mem, free;
      mem, ref, free := MapFrame(mem, where, flat, ref, free, k, t, i, page, w);
      MapThrough(old(mem), old(where), old(free), mem1, where, free1, mem, flat, flat[k := w], free);
      flat := flat[k := w];
      ret := 0;
    }

    /** `alloc_page_gpte`: a fresh frame for `addr`; -1 stands for NULL. */
    method AllocPageGpte(root: int, addr: int, flags: nat) returns (page: int)
      requires Valid() && Is(where, root, Root(root)) && 0 <= addr < UserEnd && flags < 1024
      modifies this
      ensures Valid()
      ensures page == -1 ==> flat == old(flat)
      ensures page != -1 ==>
        && page in old(free)
        && flat == old(flat)[PageOf(root, addr) := Pte(page, WithV(flags))]
        && EntryAs(flat[PageOf(root, addr)], page, flags)
        && Refs(flat, page) == {PageOf(root, addr)} && ref[page] == 1
      ensures SameData(old(mem), old(where), old(free), mem) && Grows(old(where), old(free), where)
      ensures NoneLost(old(where), old(free), where, if page == -1 then free else free + {page})
    {
      page := AllocPage(-1);
      if page == -1 {
        Unchanged(mem, where, flat, free);
        return;
      }
      ghost var free1 := free;
      var ok := MapNew(root, page, addr, flags);
      FewerFree(old(mem), old(where), old(free), free1, mem, where);
      NoneLostHeld(old(where), old(free), where, free, page);
      if !ok { return -1; }
    }

    /** A frame just allocated is mapped, or given back. */
    method MapNew(root: int, page: int, addr: int, flags: nat) returns (ok: bool)
      requires Valid() && Is(where, root, Root(root)) && 0 <= addr < UserEnd && flags < 1024
      requires Usable(mem, where, free, page) && Refs(flat, page) == {}
      modifies this
      ensures Valid()
      ensures !ok ==> flat == old(flat) && page in free
      ensures ok ==>
        && flat == old(flat)[PageOf(root, addr) := Pte(page, WithV(flags))]
        && EntryAs(flat[PageOf(root, addr)], page, flags)
        && Refs(flat, page) == {PageOf(root, addr)} && page in ref && ref[page] == 1
      ensures SameData(old(mem), old(where), old(free), mem) && Grows(old(where), old(free), where)
      ensures NoneLost(old(where), old(free), where, free)
    {
      var ret := AddPage(root, page, addr, flags);
      ok := ret == 0;
      if ok {
        OnlyRef(old(flat), PageOf(root, addr), page, flags);
        RefOne(mem, where, flat, ref, free, page, PageOf(root, addr));
      } else {
        GiveBack(mem, where, flat, ref, free, page);
        free := free + {page};
      }
    }

    /** `memcpy` of a whole frame into a new one that is not mapped yet. */
    method CopyFrame(dst: int, src: int)
      requires Valid() && Usable(mem, where, free, dst) && Refs(flat, dst) == {} && src in mem
      modifies this`mem
      ensures Valid() && mem == old(mem)[dst := old(mem)[src]]
      ensures SameTables(old(mem), where, mem) && SameData(old(mem), where, free + {dst}, mem)
    {
      DataStore(mem, where, flat, dst, mem[src]);
      SameOwned(mem, where, flat, ref, free, mem[dst := mem[src]]);
      mem := mem[dst := mem[src]];
    }

    /** `alloc_gpt`: a root table with the kernel's entries and no user page. */
    method AllocGpt(boot: seq<nat>) returns (root: int)
      requires Valid() && |boot| == Entries && forall i :: 0 <= i < UserRoots ==> boot[i] == 0
      modifies this
      ensures Valid() && flat == old(flat)
      ensures root == -1 <==> old(free) == {}
      ensures root == -1 ==> where == old(where) && free == old(free)
      ensures root != -1 ==> root in old(free) && where == old(where)[root := Root(root)] && free == old(free) - {root}
      ensures root != -1 ==> root in mem && mem[root] == boot
      ensures SameData(old(mem), old(where), old(free), mem)
    {
      root := AllocPage(-1);
      if root == -1 {
        Unchanged(mem, where, flat, free);
        return;
      }
      NewRoot(mem, where, flat, root, boot);
      TableOwned(mem, where, flat, ref, free, -1, root, where[root := Root(root)], mem[root := boot]);
      mem, where := mem[root := boot], where[root := Root(root)];
    }
  }

  lemma SameOwned(mem: Mem, where: Where, flat: Flat, ref: map<int, int>, free: set<int>, mem': Mem)
    requires Owned(mem, where, flat, ref, free, -1) && mem'.Keys == mem.Keys
    ensures Owned(mem', where, flat, ref, free, -1)
  {
  }

  lemma FewerFree(mem: Mem, where: Where, free: set<int>, free1: set<int>, mem': Mem, where': Where)
    requires free1 <= free && SameData(mem, where, free1, mem') && Grows(where, free1, where')
    ensures SameData(mem, where, free, mem') && Grows(where, free, where')
  {
    forall f | Usable(mem, where, free, f) ensures mem'[f] == mem[f] { assert Usable(mem, where, free1, f); }
  }

  lemma GiveBack(mem: Mem, where: Where, flat: Flat, ref: map<int, int>, free: set<int>, f: int)
    requires Frames(mem) && Owned(mem, where, flat, ref, free, -1) && Refs(flat, f) == {} && f in mem && f !in where
    ensures Owned(mem, where, flat, ref, free + {f}, -1)
  {
    forall k | k in flat && IsValid(flat[k]) ensures Usable(mem, where, free + {f}, Ppn(flat[k])) {
      assert k !in Refs(flat, f);
    }
  }

  lemma RefOne(mem: Mem, where: Where, flat: Flat, ref: map<int, int>, free: set<int>, f: int, k: Vp)
    requires Owned(mem, where, flat, ref, free, -1) && f in mem && f !in where && f != -1 && Refs(flat, f) == {k}
    ensures f in ref && ref[f] == 1
  {
  }

  lemma OnlyRef(flat: Flat, k: Vp, page: nat, flags: nat)
    requires Refs(flat, page) == {} && flags < 1024
    ensures Refs(flat[k := Pte(page, WithV(flags))], page) == {k}
  {
    EntryParts(page, flags);
    EntryParts(page, WithV(flags));
  }

  /** A root table whose user entries are 0 adds an empty address space. */
  lemma NewRoot(mem: Mem, where: Where, flat: Flat, f: int, boot: seq<nat>)
    requires Shape(mem, where) && Refines(mem, where, flat) && f in mem && f !in where
    requires |boot| == Entries && forall i :: 0 <= i < UserRoots ==> boot[i] == 0
    ensures Shape(mem[f := boot], where[f := Root(f)]) && Refines(mem[f := boot], where[f := Root(f)], flat)
  {
    var mem', where' := mem[f := boot], where[f := Root(f)];
    forall t, i | t in where' && 0 <= i < Entries ensures EntryOk(where', t, i, mem'[t][i]) {
      if t != f { assert EntryOk(where, t, i, mem[t][i]); }
    }
    forall x | User(where', x) ensures Walk(mem', x) == Word(flat, x) {
      if x.r == f {
        assert !User(where, x);
      } else {
        Path(mem, where, x);
        assert Walk(mem, x) == Word(flat, x);
      }
    }
  }

  method MakeEntry(page: nat, flags: nat) returns (w: nat)
    requires flags < 1024
    ensures w == Pte(page, WithV(flags)) && Hits(w, page) && w != 0 && EntryAs(w, page, flags)
  {
    EntryParts(page, flags);
    EntryParts(page, WithV(flags));
    w := Pte(page, WithV(flags));
  }

  /** Frames in use stay in use while tables are made. */
  lemma SameThrough(mem0: Mem, where0: Where, free0: set<int>, mem1: Mem, where1: Where, free1: set<int>, mem: Mem)
    requires SameData(mem0, where0, free0, mem1) && Grows(where0, free0, where1) && free1 <= free0
    requires SameData(mem1, where1, free1, mem)
    ensures SameData(mem0, where0, free0, mem)
  {
    forall f | Usable(mem0, where0, free0, f) ensures mem[f] == mem0[f] {
      assert Usable(mem1, where1, free1, f) && mem1[f] == mem0[f];
    }
  }

  lemma FreedThrough(mem0: Mem, where0: Where, free0: set<int>, mem1: Mem, where1: Where, free1: set<int>,
      flat: Flat, flat': Flat, free: set<int>)
    requires mem1.Keys == mem0.Keys && Grows(where0, free0, where1) && free1 <= free0
    requires FreedWhenLast(mem1, where1, flat, free1, flat', free)
    ensures FreedWhenLast(mem0, where0, flat, free0, flat', free)
  {
    forall f | Usable(mem0, where0, free0, f) ensures f in free <==> Refs(flat, f) != {} && Refs(flat', f) == {} {
      assert Usable(mem1, where1, free1, f);
    }
  }

  lemma MapThrough(mem0: Mem, where0: Where, free0: set<int>, mem1: Mem, where1: Where, free1: set<int>, mem: Mem,
      flat: Flat, flat': Flat, free: set<int>)
    requires SameData(mem0, where0, free0, mem1) && Grows(where0, free0, where1) && free1 <= free0
    requires SameData(mem1, where1, free1, mem) && FreedWhenLast(mem1, where1, flat, free1, flat', free)
    requires NoneLost(where0, free0, where1, free1) && free1 <= free
    ensures SameData(mem0, where0, free0, mem) && FreedWhenLast(mem0, where0, flat, free0, flat', free)
    ensures NoneLost(where0, free0, where1, free)
  {
    SameThrough(mem0, where0, free0, mem1, where1, free1, mem);
    FreedThrough(mem0, where0, free0, mem1, where1, free1, flat, flat', free);
  }

  lemma NoneLostHeld(where: Where, free: set<int>, where': Where, free': set<int>, page: int)
    requires NoneLost(where, free - {page}, where', free')
    ensures NoneLost(where, free, where', free' + {page})
  {
  }

  lemma NoneFreed(mem: Mem, where: Where, free: set<int>, flat: Flat, free': set<int>)
    requires free' <= free
    ensures FreedWhenLast(mem, where, flat, free, flat, free')
  {
  }

  /** The stores of `add_page` into an existing leaf table. */
  method MapFrame(mem: Mem, ghost where: Where, ghost flat: Flat, ref: map<int, int>, free: set<int>, ghost k: Vp,
      t: int, i: int, page: int, w: nat)
    returns (mem': Mem, ref': map<int, int>, free': set<int>)
    requires Shape(mem, where) && Refines(mem, where, flat) && Owned(mem, where, flat, ref, free, -1)
    requires User(where, k) && t == LeafTable(mem, k) && i == k.p && t in mem && mem[t][i] == Word(flat, k)
    requires Usable(mem, where, free, page) && Hits(w, page) && w != 0
    ensures
      var flat' := flat[k := w];
      && Shape(mem', where) && Refines(mem', where, flat') && Owned(mem', where, flat', ref', free', -1)
      && SameData(mem, where, free, mem') && SameTables(mem, where, mem')
      && FreedWhenLast(mem, where, flat, free, flat', free')
    ensures free <= free'
  {
    ghost var flat';
    mem', ref', free', flat' := DropOld(mem, where, flat, ref, free, k, t, i, page);
    MapStore(mem', where, flat', ref', free', k, page, w);
    PutTwice(flat, flat', k, w);
    MapAfter(mem, where, flat, free, mem', flat', free', k, page, w, Store(mem', t, i, w));
    mem' := Store(mem', t, i, w);
  }

  /** The entry of page `k` may be set to frame `page`, which has its reference counted already. */
  ghost predicate Ready(mem: Mem, where: Where, flat: Flat, ref: map<int, int>, free: set<int>, k: Vp, page: int) {
    var ready :=
      && Usable(mem, where, free, page)
      && if Hits(Word(flat, k), page) then Owned(mem, where, flat, ref, free, -1)
         else !IsValid(Word(flat, k)) && Owned(mem, where, flat, ref, free, page);
    ready
  }

  /** The first half of `add_page`: count the reference, and drop another frame's entry. */
  method DropOld(mem: Mem, ghost where: Where, ghost flat: Flat, ref: map<int, int>, free: set<int>, ghost k: Vp,
      t: int, i: int, page: int)
    returns (mem': Mem, ref': map<int, int>, free': set<int>, ghost flat': Flat)
    requires Shape(mem, where) && Refines(mem, where, flat) && Owned(mem, where, flat, ref, free, -1)
    requires User(where, k) && t == LeafTable(mem, k) && i == k.p && t in mem && mem[t][i] == Word(flat, k)
    requires Usable(mem, where, free, page)
    ensures Shape(mem', where) && Refines(mem', where, flat') && Ready(mem', where, flat', ref', free', k, page)
    ensures t in mem' && LeafTable(mem', k) == t
    ensures SameData(mem, where, free, mem') && SameTables(mem, where, mem')
    ensures FreedWhenLast(mem, where, flat, free, flat', free')
    ensures (flat' == flat || flat' == Put(flat, k, 0)) && free <= free'
  {
    mem', ref', free', flat' := mem, ref[page := ref[page] + 1], free, flat;
    Hold(mem, where, flat, ref, free, page);
    Unchanged(mem, where, flat, free);
    if IsValid(mem[t][i]) {
      if Ppn(mem[t][i]) == page {
        ref' := ref'[page := ref'[page] - 1];
        assert ref' == ref;
      } else {
        mem', ref', free' := Unmap(mem', where, flat, ref', free', page, k, t, i);
        flat' := Put(flat, k, 0);
        StillUsable(mem, where, free, mem', flat', ref', free', k, page);
        assert LeafTable(mem', k) == t;
      }
    }
  }

  /** What the last store of `add_page` leaves alone, after the old entry has been dealt with. */
  lemma MapAfter(mem0: Mem, where: Where, flat0: Flat, free0: set<int>, mem: Mem, flat: Flat, free: set<int>,
      k: Vp, page: int, w: nat, mem': Mem)
    requires SameData(mem0, where, free0, mem) && SameTables(mem0, where, mem)
    requires SameData(mem, where, {}, mem') && SameTables(mem, where, mem')
    requires FreedWhenLast(mem0, where, flat0, free0, flat, free) && page !in free
    requires flat == flat0 || flat == Put(flat0, k, 0)
    requires Hits(w, page) && (IsValid(Word(flat, k)) ==> Hits(Word(flat, k), page))
    ensures SameData(mem0, where, free0, mem') && SameTables(mem0, where, mem')
    ensures FreedWhenLast(mem0, where, flat0, free0, flat0[k := w], free)
  {
    PutTwice(flat0, flat, k, w);
    SameTwice(mem0, where, free0, mem, mem');
    FreedAfter(mem0, where, flat0, free0, flat, free, k, page, w);
  }

  lemma PutTwice(flat0: Flat, flat: Flat, k: Vp, w: nat)
    requires flat == flat0 || flat == Put(flat0, k, 0)
    ensures flat[k := w] == flat0[k := w]
  {
  }

  lemma StillUsable(mem0: Mem, where: Where, free0: set<int>, mem: Mem, flat: Flat, ref: map<int, int>,
      free: set<int>, k: Vp, page: int)
    requires Usable(mem0, where, free0, page) && mem.Keys == mem0.Keys
    requires Owned(mem, where, flat, ref, free, page)
    ensures Usable(mem, where, free, page)
  {
  }

  lemma SameTwice(mem0: Mem, where: Where, free0: set<int>, mem: Mem, mem': Mem)
    requires SameData(mem0, where, free0, mem) && SameTables(mem0, where, mem)
    requires SameData(mem, where, {}, mem') && SameTables(mem, where, mem')
    ensures SameData(mem0, where, free0, mem') && SameTables(mem0, where, mem')
  {
    forall f | Usable(mem0, where, free0, f) ensures mem'[f] == mem0[f] {
      assert Usable(mem, where, {}, f) && mem[f] == mem0[f];
    }
    forall x | User(where, x) ensures LeafTable(mem', x) == LeafTable(mem0, x) {
      assert LeafTable(mem, x) == LeafTable(mem0, x);
    }
  }

  lemma FreedAfter(mem: Mem, where: Where, flat0: Flat, free0: set<int>, flat: Flat, free: set<int>, k: Vp,
      page: int, w: nat)
    requires FreedWhenLast(mem, where, flat0, free0, flat, free) && page !in free
    requires Hits(w, page) && (IsValid(Word(flat, k)) ==> Hits(Word(flat, k), page))
    ensures FreedWhenLast(mem, where, flat0, free0, flat[k := w], free)
  {
    assert flat[k := w] == Put(flat, k, w);
    forall f | Usable(mem, where, free0, f) ensures f in free <==> Refs(flat0, f) != {} && Refs(flat[k := w], f) == {} {
      RefsPut(flat, k, w, f);
      if f != page { assert Refs(flat[k := w], f) == Refs(flat, f); }
    }
  }

  lemma Hold(mem: Mem, where: Where, flat: Flat, ref: map<int, int>, free: set<int>, f: int)
    requires Frames(mem) && Owned(mem, where, flat, ref, free, -1) && Usable(mem, where, free, f)
    ensures Owned(mem, where, flat, ref[f := ref[f] + 1], free, f)
  {
  }

  lemma MapStore(mem: Mem, where: Where, flat: Flat, ref: map<int, int>, free: set<int>, k: Vp, page: int, w: nat)
    requires Shape(mem, where) && Refines(mem, where, flat)
    requires User(where, k) && LeafTable(mem, k) in mem
    requires Ready(mem, where, flat, ref, free, k, page) && Hits(w, page) && w != 0
    ensures
      var mem', flat' := Store(mem, LeafTable(mem, k), k.p, w), flat[k := w];
      && Shape(mem', where) && Refines(mem', where, flat') && Owned(mem', where, flat', ref, free, -1)
      && SameData(mem, where, {}, mem') && SameTables(mem, where, mem')
  {
    var mem' := Store(mem, LeafTable(mem, k), k.p, w);
    TableStore(mem, where, flat, k, w);
    if Hits(Word(flat, k), page) {
      PutSame(mem, where, flat, ref, free, page, k, w, mem');
    } else {
      PutHeld(mem, where, flat, ref, free, page, k, w, mem');
    }
  }

  lemma TableStore(mem: Mem, where: Where, flat: Flat, k: Vp, w: nat)
    requires Shape(mem, where) && Refines(mem, where, flat) && User(where, k) && LeafTable(mem, k) in mem
    ensures
      var mem' := Store(mem, LeafTable(mem, k), k.p, w);
      && Shape(mem', where) && Refines(mem', where, Put(flat, k, w))
      && SameData(mem, where, {}, mem') && SameTables(mem, where, mem')
  {
    Path(mem, where, k);
    LeafStore(mem, where, flat, k, w);
  }

  lemma Unchanged(mem: Mem, where: Where, flat: Flat, free: set<int>)
    ensures SameData(mem, where, free, mem) && SameTables(mem, where, mem)
    ensures Grows(where, free, where) && FreedWhenLast(mem, where, flat, free, flat, free)
  {
  }

  /** `get_pte` without creating tables: it only reads. */
  method FindPte(mem: Mem, ghost where: Where, ghost flat: Flat, root: int, addr: int) returns (t: int, i: int)
    requires Shape(mem, where) && Refines(mem, where, flat) && Is(where, root, Root(root)) && 0 <= addr < UserEnd
    ensures User(where, PageOf(root, addr)) && t == LeafTable(mem, PageOf(root, addr)) && i == Ptx(addr)
    ensures if t == -1 then Word(flat, PageOf(root, addr)) == 0
            else t in mem && t in where && mem[t][i] == Word(flat, PageOf(root, addr))
  {
    AtLeaf(mem, where, flat, PageOf(root, addr));
    i := Ptx(addr);
    var mid := Next(mem, root, Gptx(addr));
    t := if mid == -1 then -1 else Next(mem, mid, Mptx(addr));
  }

  /** The stores of `del_page`. */
  method Unmap(mem: Mem, ghost where: Where, ghost flat: Flat, ref: map<int, int>, free: set<int>, ghost held: int,
      ghost k: Vp, t: int, i: int)
    returns (mem': Mem, ref': map<int, int>, free': set<int>)
    requires Shape(mem, where) && Refines(mem, where, flat) && Owned(mem, where, flat, ref, free, held)
    requires User(where, k) && t == LeafTable(mem, k) && i == k.p && t in mem
    requires mem[t][i] == Word(flat, k) && IsValid(Word(flat, k)) && !Hits(Word(flat, k), held)
    ensures Shape(mem', where) && Refines(mem', where, Put(flat, k, 0)) &&
      Owned(mem', where, Put(flat, k, 0), ref', free', held)
    ensures SameData(mem, where, free, mem') && SameTables(mem, where, mem') && free <= free'
    ensures FreedWhenLast(mem, where, flat, free, Put(flat, k, 0), free')
  {
    var f := Ppn(mem[t][i]);
    DelSound(mem, where, flat, ref, free, held, k, f);
    ref' := ref[f := ref[f] - 1];
    free' := if ref'[f] == 0 then free + {f} else free;
    mem' := Store(mem, t, i, 0);
  }

  /** Taking a valid entry out of the tables. */
  lemma DelSound(mem: Mem, where: Where, flat: Flat, ref: map<int, int>, free: set<int>, held: int, k: Vp, f: int)
    requires Shape(mem, where) && Refines(mem, where, flat) && Owned(mem, where, flat, ref, free, held)
    requires User(where, k) && LeafTable(mem, k) in mem && Hits(Word(flat, k), f) && f != held
    ensures f in ref && Is(where, LeafTable(mem, k), Leaf(k.r, k.g, k.m))
    ensures
      var mem', ref', flat' := Store(mem, LeafTable(mem, k), k.p, 0), ref[f := ref[f] - 1], Put(flat, k, 0);
      var free' := if ref'[f] == 0 then free + {f} else free;
      && Shape(mem', where) && Refines(mem', where, flat') && Owned(mem', where, flat', ref', free', held)
      && SameData(mem, where, free, mem')
      && SameTables(mem, where, mem')
      && FreedWhenLast(mem, where, flat, free, flat', free')
  {
    var mem', ref', flat' := Store(mem, LeafTable(mem, k), k.p, 0), ref[f := ref[f] - 1], Put(flat, k, 0);
    var free' := if ref'[f] == 0 then free + {f} else free;
    Path(mem, where, k);
    LeafStore(mem, where, flat, k, 0);
    PutZero(mem, where, flat, ref, free, held, k, f, mem', ref', free');
    LastGone(mem, where, flat, free, k, f, free');
  }

  lemma LastGone(mem: Mem, where: Where, flat: Flat, free: set<int>, k: Vp, f: int, free': set<int>)
    requires Hits(Word(flat, k), f) && (free' == free || free' == free + {f})
    requires f in free' <==> Refs(Put(flat, k, 0), f) == {}
    ensures FreedWhenLast(mem, where, flat, free, Put(flat, k, 0), free')
  {
    var flat' := Put(flat, k, 0);
    forall g | Usable(mem, where, free, g) ensures g in free' <==> Refs(flat, g) != {} && Refs(flat', g) == {} {
      RefsPut(flat, k, 0, g);
      if g != f { assert Refs(flat', g) == Refs(flat, g); }
    }
  }

  lemma AtLeaf(mem: Mem, where: Where, flat: Flat, k: Vp)
    requires Shape(mem, where) && Refines(mem, where, flat) && User(where, k)
    ensures
      var t := LeafTable(mem, k);
      if t == -1 then Word(flat, k) == 0 else t in mem && t in where && mem[t][k.p] == Word(flat, k)
  {
    Path(mem, where, k);
    var t := LeafTable(mem, k);
    assert t == -1 ==> t !in mem;
    assert Walk(mem, k) == Word(flat, k);
  }
}
