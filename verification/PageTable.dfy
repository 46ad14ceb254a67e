/** Sv39 page tables (kernel/mm/page.h, the entry conversions of kernel/mm/pmm.h,
    get_pte of kernel/mm/pmm.c) as values: memory is a map from frame number to 512
    words, and the three-level walk is compared with a flat map from virtual page
    to entry word. The user half of an address space has two entries in the root
    table; the root entries above it are gigapage leaves of the kernel. */
module PageTable {
  import opened Prelude

  const Entries: int := 512
  const UserRoots: int := 2

  // ------------------------------------------------------------------ addresses

  function Gptx(addr: int): int { addr / 0x4000_0000 % 512 }
  function Mptx(addr: int): int { addr / 0x20_0000 % 512 }
  function Ptx(addr: int): int { addr / 0x1000 % 512 }
  function Offset(addr: int): int { addr % 0x1000 }

  /** `ptx2addr`. */
  function Address(g: int, m: int, p: int, offset: int): int {
    g * 0x4000_0000 + m * 0x20_0000 + p * 0x1000 + offset
  }

  /** Putting the parts of an address together gives its lowest 39 bits back. */
  lemma SplitThenJoin(addr: int)
    ensures Address(Gptx(addr), Mptx(addr), Ptx(addr), Offset(addr)) == addr % 0x80_0000_0000
    ensures 0 <= addr < 0x80_0000_0000 ==> Address(Gptx(addr), Mptx(addr), Ptx(addr), Offset(addr)) == addr
  {
    var a, b := addr / 0x1000, addr / 0x20_0000;
    assert b == a / 512 && addr / 0x4000_0000 == b / 512;
  }

  /** The parts of an address put together are the parts it was put together from. */
  lemma JoinThenSplit(g: int, m: int, p: int, offset: int)
    requires 0 <= g < 512 && 0 <= m < 512 && 0 <= p < 512 && 0 <= offset < 4096
    ensures
      var a := Address(g, m, p, offset);
      Gptx(a) == g && Mptx(a) == m && Ptx(a) == p && Offset(a) == offset
  {
    Digit(g, m);
    Digit(g * 512 + m, p);
    HighPart((g * 512 + m) * 512 + p, offset);
  }

  lemma Digit(hi: int, lo: int)
    requires 0 <= lo < 512
    ensures (hi * 512 + lo) / 512 == hi && (hi * 512 + lo) % 512 == lo
  {
  }

  lemma HighPart(vpn: int, offset: int)
    requires 0 <= vpn && 0 <= offset < 4096
    ensures
      var a := vpn * 4096 + offset;
      a / 0x1000 == vpn && a % 0x1000 == offset && a / 0x20_0000 == vpn / 512 && a / 0x4000_0000 == vpn / 512 / 512
  {
  }

  // -------------------------------------------------------------------- entries

  predicate IsValid(w: nat) { w % 2 == 1 }

  function Ppn(w: nat): int { w / 1024 }

  function Flags(w: nat): int { w % 1024 }

  /** `ppn2pte`: a frame number and ten flag bits. */
  function Pte(ppn: nat, flags: nat): nat { ppn * 1024 + flags }

  /** `PTE_V | flags`. */
  function WithV(flags: nat): nat { if flags % 2 == 1 then flags else flags + 1 }

  lemma EntryParts(ppn: nat, flags: nat)
    requires flags < 1024
    ensures Ppn(Pte(ppn, flags)) == ppn && Flags(Pte(ppn, flags)) == flags
    ensures IsValid(Pte(ppn, flags)) <==> flags % 2 == 1
    ensures 0 <= WithV(flags) < 1024 && WithV(flags) % 2 == 1 && WithV(flags) / 2 == flags / 2
  {
  }

  /** Entry `w` is valid, of frame `page`, and every flag bit but PTE_V is as asked. */
  ghost predicate EntryAs(w: nat, page: int, flags: nat) {
    IsValid(w) && Ppn(w) == page && Flags(w) / 2 == flags / 2
  }

  /** There is only one such entry. */
  lemma EntryUnique(w: nat, w': nat, page: int, flags: nat)
    requires EntryAs(w, page, flags) && EntryAs(w', page, flags)
    ensures w == w'
  {
    OddFlags(w, page);
    OddFlags(w', page);
  }

  lemma OddFlags(w: nat, page: int)
    requires IsValid(w) && Ppn(w) == page
    ensures w == page * 1024 + Flags(w) && Flags(w) == Flags(w) / 2 * 2 + 1
  {
    var f := Flags(w);
    assert w == page * 1024 + f;
    var h, bit := f / 2, f % 2;
    assert w == 2 * (page * 512 + h) + bit;
  }

  // --------------------------------------------------------- memory and the walk

  type Mem = map<int, seq<nat>>

  function Store(mem: Mem, t: int, i: int, w: nat): Mem
    requires t in mem && 0 <= i < |mem[t]|
  {
    var row: seq<nat> := mem[t];
    mem[t := row[i := w]]
  }

  /** A virtual page of the address space with root table `r`. */
  datatype Vp = Vp(r: int, g: int, m: int, p: int)

  function PageOf(root: int, addr: int): Vp {
    Vp(root, Gptx(addr), Mptx(addr), Ptx(addr))
  }

  /** The frame that entry `i` of table `t` points to, or -1. */
  function Next(mem: Mem, t: int, i: int): int {
    if t in mem && 0 <= i < |mem[t]| && IsValid(mem[t][i]) then Ppn(mem[t][i]) else -1
  }

  function LeafTable(mem: Mem, k: Vp): int {
    var mid := Next(mem, k.r, k.g);
    if mid == -1 then -1 else Next(mem, mid, k.m)
  }

  /** The entry word of page `k`; 0 where a table is missing. */
  function Walk(mem: Mem, k: Vp): nat {
    var t := LeafTable(mem, k);
    if t in mem && 0 <= k.p < |mem[t]| then mem[t][k.p] else 0
  }

  /** `va2pa_mmu`: the physical address of `va`, or 0. */
  function Translate(mem: Mem, root: int, va: int): int {
    var mid := Next(mem, root, Gptx(va));
    if mid == -1 then 0 else
      var leaf := Next(mem, mid, Mptx(va));
      if leaf == -1 then 0 else
        var frame := Next(mem, leaf, Ptx(va));
        if frame == -1 then 0 else frame * 4096 + Offset(va)
  }

  // ------------------------------------------------------------------- invariant

  /** The place of a table in the tree of an address space. */
  datatype Node = Root(r: int) | Mid(r: int, g: int) | Leaf(r: int, g: int, m: int)

  type Where = map<int, Node>

  ghost predicate Is(where: Where, t: int, n: Node) {
    t in where && where[t] == n
  }

  /** Entry `i` of a table leads where its place in the tree says. */
  ghost predicate EntryOk(where: Where, t: int, i: int, w: nat)
    requires t in where
  {
    match where[t]
    case Root(r) => i < UserRoots && IsValid(w) ==> Is(where, Ppn(w), Mid(r, i))
    case Mid(r, g) => IsValid(w) ==> Is(where, Ppn(w), Leaf(r, g, i))
    case Leaf(_, _, _) => true
  }

  ghost predicate Frames(mem: Mem) {
    forall f :: f in mem ==> 0 <= f && |mem[f]| == Entries
  }

  ghost predicate Shape(mem: Mem, where: Where) {
    var ok :=
      && Frames(mem)
      && (forall t :: t in where ==> t in mem && (where[t].Root? ==> where[t].r == t))
      && (forall t, i {:trigger EntryOk(where, t, i, mem[t][i])} :: t in where && 0 <= i < Entries ==>
        EntryOk(where, t, i, mem[t][i]));
    ok
  }

  ghost predicate User(where: Where, k: Vp) {
    Is(where, k.r, Root(k.r)) && 0 <= k.g < UserRoots && 0 <= k.m < Entries && 0 <= k.p < Entries
  }

  /** The flat map holds the entry words that are not 0. */
  type Flat = map<Vp, nat>

  ghost function Word(flat: Flat, k: Vp): nat { if k in flat then flat[k] else 0 }

  ghost function Put(flat: Flat, k: Vp, w: nat): Flat {
    if w == 0 then flat - {k} else flat[k := w]
  }

  ghost predicate Refines(mem: Mem, where: Where, flat: Flat) {
    var ok :=
      && (forall k {:trigger Walk(mem, k)} :: User(where, k) ==> Walk(mem, k) == Word(flat, k))
      && (forall k :: k in flat ==> User(where, k) && flat[k] != 0);
    ok
  }

  /** The tables on the way to `k` are where they should be. */
  lemma Path(mem: Mem, where: Where, k: Vp)
    requires Shape(mem, where) && User(where, k)
    ensures
      var mid, leaf := Next(mem, k.r, k.g), LeafTable(mem, k);
      && (mid != -1 ==> Is(where, mid, Mid(k.r, k.g)))
      && (leaf != -1 ==> mid != -1 && Is(where, leaf, Leaf(k.r, k.g, k.m)))
  {
    assert EntryOk(where, k.r, k.g, mem[k.r][k.g]);
    var mid := Next(mem, k.r, k.g);
    if mid != -1 { assert EntryOk(where, mid, k.m, mem[mid][k.m]); }
  }

  /** Translation by the hardware's walk is translation by the flat map. */
  lemma TranslateIsFlat(mem: Mem, where: Where, flat: Flat, root: int, va: int)
    requires Shape(mem, where) && Refines(mem, where, flat)
    requires Is(where, root, Root(root)) && 0 <= va < UserEnd
    ensures
      var w := Word(flat, PageOf(root, va));
      Translate(mem, root, va) == if IsValid(w) then Ppn(w) * 4096 + va % 4096 else 0
  {
    var k := PageOf(root, va);
    assert User(where, k);
    Path(mem, where, k);
    var t := LeafTable(mem, k);
    assert t == -1 ==> t !in mem;
    assert Walk(mem, k) == Word(flat, k);
    assert t != -1 ==> Walk(mem, k) == mem[t][k.p];
  }

  // --------------------------------------------------------------- what stores do

  /** Storing an entry in a leaf table changes the flat map at one key. */
  lemma LeafStore(mem: Mem, where: Where, flat: Flat, k: Vp, w: nat)
    requires Shape(mem, where) && Refines(mem, where, flat) && User(where, k)
    requires LeafTable(mem, k) in mem
    ensures
      var t := LeafTable(mem, k);
      var mem' := Store(mem, t, k.p, w);
      && Shape(mem', where) && Refines(mem', where, Put(flat, k, w))
      && forall x :: User(where, x) ==> LeafTable(mem', x) == LeafTable(mem, x)
  {
    var t := LeafTable(mem, k);
    var mem' := Store(mem, t, k.p, w);
    Path(mem, where, k);
    forall x | User(where, x) ensures LeafTable(mem', x) == LeafTable(mem, x)
    {
      Path(mem, where, x);
    }
    forall x | User(where, x) ensures Walk(mem', x) == Word(Put(flat, k, w), x) {
      Path(mem, where, x);
      assert Walk(mem, x) == Word(flat, x);
    }
  }

  /** The pages below a missing table have no entry. */
  ghost function Zeros(): seq<nat> { seq(Entries, _ => 0) }

  /** A new middle table, all zero, changes no entry. */
  lemma NewMid(mem: Mem, where: Where, flat: Flat, r: int, g: int, f: int)
    requires Shape(mem, where) && Refines(mem, where, flat)
    requires Is(where, r, Root(r)) && 0 <= g < UserRoots && Next(mem, r, g) == -1
    requires f in mem && f !in where
    ensures
      var mem' := Store(mem[f := Zeros()], r, g, Pte(f, 1));
      var where' := where[f := Mid(r, g)];
      && Shape(mem', where') && Refines(mem', where', flat) && Next(mem', r, g) == f
  {
    var mem' := Store(mem[f := Zeros()], r, g, Pte(f, 1));
    var where' := where[f := Mid(r, g)];
    EntryParts(f, 1);
    forall t, i | t in where' && 0 <= i < Entries ensures EntryOk(where', t, i, mem'[t][i]) {
      if t != f { assert EntryOk(where, t, i, mem[t][i]); }
    }
    forall x | User(where', x) ensures Walk(mem', x) == Word(flat, x) {
      assert User(where, x);
      Path(mem, where, x);
      assert Walk(mem, x) == Word(flat, x);
    }
  }

  /** A new leaf table, all zero, changes no entry. */
  lemma NewLeaf(mem: Mem, where: Where, flat: Flat, t: int, m: int, f: int)
    requires Shape(mem, where) && Refines(mem, where, flat)
    requires t in where && where[t].Mid? && 0 <= m < Entries && Next(mem, t, m) == -1
    requires f in mem && f !in where
    ensures
      var mem' := Store(mem[f := Zeros()], t, m, Pte(f, 1));
      var where' := where[f := Leaf(where[t].r, where[t].g, m)];
      && Shape(mem', where') && Refines(mem', where', flat) && Next(mem', t, m) == f
  {
    var mem' := Store(mem[f := Zeros()], t, m, Pte(f, 1));
    var where' := where[f := Leaf(where[t].r, where[t].g, m)];
    EntryParts(f, 1);
    forall u, i | u in where' && 0 <= i < Entries ensures EntryOk(where', u, i, mem'[u][i]) {
      if u != f { assert EntryOk(where, u, i, mem[u][i]); }
    }
    forall x | User(where', x) ensures Walk(mem', x) == Word(flat, x) {
      assert User(where, x);
      Path(mem, where, x);
      assert Walk(mem, x) == Word(flat, x);
    }
  }

  /** Storing into a frame that is no table changes no entry. */
  lemma DataStore(mem: Mem, where: Where, flat: Flat, f: int, content: seq<nat>)
    requires Shape(mem, where) && Refines(mem, where, flat)
    requires f in mem && f !in where && |content| == Entries
    ensures Shape(mem[f := content], where) && Refines(mem[f := content], where, flat)
    ensures forall x :: User(where, x) ==> LeafTable(mem[f := content], x) == LeafTable(mem, x)
  {
    var mem' := mem[f := content];
    forall x | User(where, x) ensures LeafTable(mem', x) == LeafTable(mem, x) { Path(mem, where, x); }
    forall x | User(where, x) ensures Walk(mem', x) == Word(flat, x) {
      Path(mem, where, x);
      assert Walk(mem, x) == Word(flat, x);
    }
  }
}
