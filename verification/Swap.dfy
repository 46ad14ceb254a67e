/** FIFO swapping (kernel/mm/swap.c, fifo_swap.c, swap.h, the swap part of
    handle_page_fault in vmm.c and alloc_pages in pmm.c) for one address space.
    Pages are named by their number, the address shifted by PAGE_SHIFT. */
module Swap {
  import opened Prelude

  const SectSize: int := 512
  const PageSect: int := PageSize / SectSize

  /** How many pages the disk holds: any number. In the kernel, 64 sectors make 8. */
  const Slots: nat

  const IdeSections: int := Slots * PageSect
  const SwapMaxOffset: int := Slots

  // --------------------------------------------------------- entries and the disk

  /** `addr2swap`, of an address in page `a`. */
  function Addr2Swap(a: int): int { a * 256 }

  function SwapOffset(entry: int): int { entry / 256 }

  /** Pages that have a slot on the disk: `swap_offset` asserts this. */
  predicate IsPage(a: int) { 0 < a < SwapMaxOffset }

  /** The flags handle_page_fault gives a page: PTE_V, with PTE_R and PTE_W in a writable area. */
  function FaultFlags(writable: bool): nat { if writable then 0x7 else 0x1 }

  predicate HasV(flags: int) { flags % 2 == 1 }
  predicate HasR(flags: int) { flags / 2 % 2 == 1 }
  predicate HasW(flags: int) { flags / 4 % 2 == 1 }

  /** The entry of a page says of its area whether it is writable, and nothing else. */
  predicate FlagsOk(flags: int, writable: bool) {
    0 <= flags < 8 && HasV(flags) && (HasR(flags) <==> writable) && (HasW(flags) <==> writable)
  }

  lemma FaultFlagsOk(writable: bool)
    ensures FlagsOk(FaultFlags(writable), writable)
  {
  }

  /** A page-table entry word, by what it says. */
  datatype Entry = Absent | OnDisk(entry: int) | Present(frame: int, flags: int)

  function Encode(e: Entry): int {
    match e
    case Absent => 0
    case OnDisk(s) => s
    case Present(f, flags) => f * 1024 + flags
  }

  /** The kernel tells the three kinds of entry apart by `*p_pte == 0` and PTE_V, and
      finds the slot of a page again from its entry. */
  lemma EncodeTells(a: int, f: nat, flags: nat)
    requires IsPage(a) && flags < 1024 && flags % 2 == 1
    ensures Encode(Absent) == 0
    ensures Encode(OnDisk(Addr2Swap(a))) != 0 && Encode(OnDisk(Addr2Swap(a))) % 2 == 0
    ensures Encode(Present(f, flags)) % 2 == 1
    ensures Encode(Present(f, flags)) / 1024 == f && Encode(Present(f, flags)) % 1024 == flags
    ensures SwapOffset(Addr2Swap(a)) == a
  {
  }

  /** The disk has this size. */
  predicate IsDisk(ide: seq<int>) { |ide| == Slots * PageSize }

  /** That is the size of the source's sectors. */
  lemma DiskSize(ide: seq<int>)
    ensures IsDisk(ide) <==> |ide| == IdeSections * SectSize
  {
  }

  /** The page in the slot of `entry`: `read_swap_ide`. */
  function ReadSlot(ide: seq<int>, entry: int): seq<int>
    requires IsDisk(ide) && 0 < SwapOffset(entry) < SwapMaxOffset
  {
    var at := SwapOffset(entry) * PageSect * SectSize;
    ide[at..at + PageSect * SectSize]
  }

  /** `write_swap_ide`. */
  function WriteSlot(ide: seq<int>, entry: int, page: seq<int>): seq<int>
    requires IsDisk(ide) && 0 < SwapOffset(entry) < SwapMaxOffset && |page| == PageSize
  {
    var at := SwapOffset(entry) * PageSect * SectSize;
    ide[..at] + page + ide[at + PageSect * SectSize..]
  }

  /** The bytes of the disk that belong to page `a`. */
  ghost function DiskPage(ide: seq<int>, a: int): seq<int>
    requires IsDisk(ide) && IsPage(a)
  {
    ide[a * PageSize..(a + 1) * PageSize]
  }

  lemma SlotRead(ide: seq<int>, a: int)
    requires IsDisk(ide) && IsPage(a)
    ensures SwapOffset(Addr2Swap(a)) == a && ReadSlot(ide, Addr2Swap(a)) == DiskPage(ide, a)
  {
    OffsetOf(a);
    var at := a * PageSize;
    assert SwapOffset(Addr2Swap(a)) * PageSect * SectSize == at && PageSect * SectSize == PageSize;
    assert ReadSlot(ide, Addr2Swap(a)) == ide[at..at + PageSize];
  }

  lemma OffsetOf(a: int)
    ensures SwapOffset(Addr2Swap(a)) == a
  {
  }

  /** Writing the slot of one page changes that page and, as distinct pages never
      share a slot, no other. */
  lemma SlotWritten(ide: seq<int>, a: int, page: seq<int>, b: int)
    requires IsDisk(ide) && IsPage(a) && IsPage(b) && |page| == PageSize
    ensures SwapOffset(Addr2Swap(a)) == a && IsDisk(WriteSlot(ide, Addr2Swap(a), page))
    ensures DiskPage(WriteSlot(ide, Addr2Swap(a), page), b) == if b == a then page else DiskPage(ide, b)
  {
    var w, at := WriteSlot(ide, Addr2Swap(a), page), a * PageSize;
    WriteParts(ide, a, page);
    if b == a {
      Middle(ide[..at], page, ide[at + PageSize..]);
    } else {
      assert b * PageSize + PageSize <= at || at + PageSize <= b * PageSize;
      Outside(ide[..at], page, ide[at + PageSize..], ide, b * PageSize, PageSize);
    }
  }

  /** Writing the slot of a page replaces the bytes that belong to it. */
  lemma WriteParts(ide: seq<int>, a: int, page: seq<int>)
    requires IsDisk(ide) && IsPage(a) && |page| == PageSize
    ensures SwapOffset(Addr2Swap(a)) == a && 0 <= a * PageSize && a * PageSize + PageSize <= |ide|
    ensures WriteSlot(ide, Addr2Swap(a), page) == ide[..a * PageSize] + page + ide[a * PageSize + PageSize..]
    ensures IsDisk(WriteSlot(ide, Addr2Swap(a), page))
  {
    OffsetOf(a);
    assert SwapOffset(Addr2Swap(a)) * PageSect * SectSize == a * PageSize && PageSect * SectSize == PageSize;
  }

  lemma Middle(x: seq<int>, y: seq<int>, z: seq<int>)
    ensures (x + y + z)[|x|..|x| + |y|] == y
  {
  }

  lemma Outside(x: seq<int>, y: seq<int>, z: seq<int>, ide: seq<int>, from: nat, n: nat)
    requires |x| + |y| + |z| == |ide| && ide[..|x|] == x && ide[|x| + |y|..] == z
    requires from + n <= |x| || (|x| + |y| <= from && from + n <= |ide|)
    ensures (x + y + z)[from..from + n] == ide[from..from + n]
  {
    var w := x + y + z;
    forall i | from <= i < from + n ensures w[i] == ide[i] {
      if i < |x| { assert ide[..|x|][i] == ide[i]; } else { assert ide[|x| + |y|..][i - |x| - |y|] == ide[i]; }
    }
  }

  // -------------------------------------------------------------------- invariant

  type Table = map<int, Entry>
  type Frames = map<int, seq<int>>

  /** A `struct page` on the replacement list, with its `pra_addr`. */
  datatype Node = Node(frame: int, page: int)

  /** What the user of the memory sees, and when each page was loaded. */
  datatype History = History(view: Frames, loaded: map<int, nat>, clock: nat)

  ghost predicate Loaded(list: seq<Node>, f: int) {
    exists i :: 0 <= i < |list| && list[i].frame == f
  }

  ghost predicate Mapped(pte: Table, n: Node) {
    n.page in pte && pte[n.page].Present? && pte[n.page].frame == n.frame
  }

  ghost predicate Lives(pte: Table, list: seq<Node>, a: int) {
    a in pte && pte[a].Present? && Node(pte[a].frame, a) in list
  }

  ghost predicate Distinct(list: seq<Node>) {
    forall i, j :: 0 <= i < j < |list| ==> list[i].frame != list[j].frame
  }

  /** Frame `f` is on the list, free, or `held` by the allocation going on. */
  ghost predicate Placed(list: seq<Node>, free: set<int>, held: int, f: int) {
    && 0 <= f
    && (f in free ==> f != held && !Loaded(list, f))
    && (f == held ==> !Loaded(list, f))
    && (f in free || f == held || Loaded(list, f))
  }

  /** The replacement list holds each resident page once. */
  ghost predicate Listed(pte: Table, mem: Frames, list: seq<Node>, free: set<int>, held: int) {
    var ok :=
      && Distinct(list) && free <= mem.Keys && (held == -1 || held in mem)
      && (forall i {:trigger Mapped(pte, list[i])} :: 0 <= i < |list| ==> Mapped(pte, list[i]) && list[i].frame in mem)
      && (forall a {:trigger Lives(pte, list, a)} :: a in pte && pte[a].Present? ==> Lives(pte, list, a))
      && (forall f {:trigger Placed(list, free, held, f)} :: f in mem ==> Placed(list, free, held, f));
    ok
  }

  /** What a page holds, wherever it is. */
  ghost predicate Holds(e: Entry, a: int, mem: Frames, ide: seq<int>, content: seq<int>)
    requires IsDisk(ide) && IsPage(a)
  {
    match e
    case Absent => false
    case OnDisk(s) => s == Addr2Swap(a) && DiskPage(ide, a) == content
    case Present(f, _) => f in mem && mem[f] == content
  }

  /** `view` is the memory as its user sees it. */
  ghost predicate Shows(pte: Table, mem: Frames, ide: seq<int>, view: Frames) {
    var ok :=
      && IsDisk(ide)
      && (forall f :: f in mem ==> |mem[f]| == PageSize)
      && (forall a :: a in pte ==> IsPage(a))
      && (forall a :: a in view <==> a in pte && pte[a] != Absent)
      && (forall a {:trigger Holds(pte[a], a, mem, ide, view[a])} :: a in view ==>
        |view[a]| == PageSize && Holds(pte[a], a, mem, ide, view[a]));
    ok
  }

  /** The list is in the order of loading, the latest first. */
  ghost predicate InLoadOrder(list: seq<Node>, loaded: map<int, nat>, clock: nat) {
    var ok :=
      && (forall i {:trigger Stamped(list, loaded, clock, i)} :: 0 <= i < |list| ==> Stamped(list, loaded, clock, i))
      && (forall i, j {:trigger Later(list, loaded, i, j)} :: 0 <= i < j < |list| ==> Later(list, loaded, i, j));
    ok
  }

  ghost predicate Stamped(list: seq<Node>, loaded: map<int, nat>, clock: nat, i: int) {
    0 <= i < |list| && list[i].page in loaded && loaded[list[i].page] < clock
  }

  ghost predicate Later(list: seq<Node>, loaded: map<int, nat>, i: int, j: int) {
    && 0 <= i < |list| && list[i].page in loaded
    && 0 <= j < |list| && list[j].page in loaded
    && loaded[list[i].page] > loaded[list[j].page]
  }

  ghost predicate Good(pte: Table, mem: Frames, ide: seq<int>, list: seq<Node>, free: set<int>, h: History, held: int) {
    var ok := Listed(pte, mem, list, free, held) && Shows(pte, mem, ide, h.view) &&
      InLoadOrder(list, h.loaded, h.clock);
    ok
  }

  /** Every resident page is in an area, and its entry has the flags of that area. */
  ghost predicate Permits(pte: Table, area: map<int, bool>) {
    var ok := forall a :: a in pte && pte[a].Present? ==> a in area && FlagsOk(pte[a].flags, area[a]);
    ok
  }

  // ------------------------------------------------------------------- eviction

  lemma EvictListed(pte: Table, mem: Frames, list: seq<Node>, free: set<int>, a: int)
    requires Listed(pte, mem, list, free, -1) && list != [] && a == list[|list| - 1].page
    ensures Listed(pte[a := OnDisk(Addr2Swap(a))], mem, list[..|list| - 1], free + {list[|list| - 1].frame}, -1)
  {
    var last := |list| - 1;
    var n, pte', list', free' := list[last], pte[a := OnDisk(Addr2Swap(a))], list[..last], free + {list[last].frame};
    assert list == list' + [n];
    assert Mapped(pte, list[last]);
    forall i | 0 <= i < |list'| ensures Mapped(pte', list'[i]) && list'[i].frame in mem && list'[i].frame != n.frame {
      assert Mapped(pte, list[i]) && list[i].frame != list[last].frame;
    }
    forall x | x in pte' && pte'[x].Present? ensures Lives(pte', list', x) {
      assert Lives(pte, list, x);
    }
    forall f | f in mem ensures Placed(list', free', -1, f) {
      assert Placed(list, free, -1, f);
      if f != n.frame && Loaded(list, f) {
        var i :| 0 <= i < |list| && list[i].frame == f;
        assert list'[i].frame == f;
      }
    }
  }

  lemma EvictShows(pte: Table, mem: Frames, ide: seq<int>, view: Frames, f: int, a: int)
    requires Shows(pte, mem, ide, view) && a in pte && pte[a].Present? && pte[a].frame == f && f in mem
    ensures SwapOffset(Addr2Swap(a)) == a && IsPage(a)
    ensures Shows(pte[a := OnDisk(Addr2Swap(a))], mem, WriteSlot(ide, Addr2Swap(a), mem[f]), view)
  {
    SlotWritten(ide, a, mem[f], a);
    var e := Addr2Swap(a);
    var pte', ide' := pte[a := OnDisk(e)], WriteSlot(ide, e, mem[f]);
    forall x | x in view ensures |view[x]| == PageSize && Holds(pte'[x], x, mem, ide', view[x]) {
      assert Holds(pte[x], x, mem, ide, view[x]);
      SlotWritten(ide, a, mem[f], x);
    }
  }

  /** The last page of the list is the one longest resident. */
  lemma OldestLast(pte: Table, mem: Frames, list: seq<Node>, free: set<int>, loaded: map<int, nat>, clock: nat)
    requires Listed(pte, mem, list, free, -1) && InLoadOrder(list, loaded, clock) && list != []
    ensures InLoadOrder(list[..|list| - 1], loaded, clock)
    ensures IsOldest(pte, loaded, list[|list| - 1].page)
  {
    var last, list' := |list| - 1, list[..|list| - 1];
    assert Stamped(list, loaded, clock, last);
    forall i | 0 <= i < |list'| ensures Stamped(list', loaded, clock, i) && Later(list, loaded, i, last) {
      assert Stamped(list, loaded, clock, i);
    }
    forall i, j | 0 <= i < j < |list'| ensures Later(list', loaded, i, j) {
      assert Later(list, loaded, i, j);
    }
    forall b | b in pte && pte[b].Present? ensures b in loaded && loaded[list[last].page] <= loaded[b] {
      assert Lives(pte, list, b);
      var i :| 0 <= i < |list| && list[i] == Node(pte[b].frame, b);
      if i < last { assert Later(list, loaded, i, last); }
    }
  }

  /** No resident page was loaded before `a`. */
  ghost predicate IsOldest(pte: Table, loaded: map<int, nat>, a: int) {
    a in loaded && forall b :: b in pte && pte[b].Present? ==> b in loaded && loaded[a] <= loaded[b]
  }

  /** With no frame free, some page is resident: the assertion of fifo_swap_out_page holds. */
  lemma NotEmpty(pte: Table, mem: Frames, list: seq<Node>)
    requires Listed(pte, mem, list, {}, -1) && mem != map[]
    ensures list != []
  {
    assert (forall f :: f !in mem) ==> mem == map[];
    var f :| f in mem;
    assert Placed(list, {}, -1, f);
  }

  /** One round of `swap_out` with `fifo_swap_out_page`; its assertion holds. */
  method Evict(pte: Table, mem: Frames, ide: seq<int>, list: seq<Node>, free: set<int>, ghost h: History)
    returns (a: int, pte': Table, ide': seq<int>, list': seq<Node>, free': set<int>)
    requires Good(pte, mem, ide, list, free, h, -1) && list != []
    ensures Good(pte', mem, ide', list', free', h, -1) && free' != {}
    ensures a in pte && pte[a].Present? && pte' == pte[a := OnDisk(Addr2Swap(a))]
    ensures IsOldest(pte, h.loaded, a)
  {
    var n := list[|list| - 1];
    list' := list[..|list| - 1];
    a := n.page;
    assert Mapped(pte, list[|list| - 1]);
    assert pte[a].Present?;
    EvictListed(pte, mem, list, free, a);
    EvictShows(pte, mem, ide, h.view, n.frame, a);
    OldestLast(pte, mem, list, free, h.loaded, h.clock);
    ide' := WriteSlot(ide, Addr2Swap(a), mem[n.frame]);
    pte' := pte[a := OnDisk(Addr2Swap(a))];
    free' := free + {n.frame};
    assert n.frame in free';
  }

  // -------------------------------------------------------------------- loading

  lemma LoadListed(pte: Table, mem: Frames, list: seq<Node>, free: set<int>, f: nat, a: int, flags: nat, mem': Frames)
    requires Listed(pte, mem, list, free, f) && (a in pte ==> !pte[a].Present?) && mem'.Keys == mem.Keys
    ensures Listed(pte[a := Present(f, flags)], mem', [Node(f, a)] + list, free, -1)
  {
    var pte', list' := pte[a := Present(f, flags)], [Node(f, a)] + list;
    assert Placed(list, free, f, f);
    forall i | 0 <= i < |list'|
      ensures Mapped(pte', list'[i]) && list'[i].frame in mem' && (i > 0 ==> list'[i].frame != f) {
      if i > 0 { assert Mapped(pte, list[i - 1]) && list[i - 1] == list'[i]; }
    }
    forall x | x in pte' && pte'[x].Present? ensures Lives(pte', list', x) {
      if x != a { assert Lives(pte, list, x); }
    }
    forall x | x in mem' ensures Placed(list', free, -1, x) {
      assert Placed(list, free, f, x);
      if Loaded(list, x) {
        var i :| 0 <= i < |list| && list[i].frame == x;
        assert list'[i + 1].frame == x;
      }
      assert list'[0].frame == f;
    }
  }

  lemma LoadShows(pte: Table, mem: Frames, ide: seq<int>, view: Frames, list: seq<Node>, free: set<int>, f: nat,
      a: int, flags: nat, content: seq<int>)
    requires Shows(pte, mem, ide, view) && Listed(pte, mem, list, free, f) && IsPage(a) && |content| == PageSize
    requires a in view ==> content == view[a]
    ensures Shows(pte[a := Present(f, flags)], mem[f := content], ide, view[a := content])
  {
    var pte', mem', view' := pte[a := Present(f, flags)], mem[f := content], view[a := content];
    assert Placed(list, free, f, f);
    forall x | x in view' ensures |view'[x]| == PageSize && Holds(pte'[x], x, mem', ide, view'[x]) {
      if x != a {
        assert Holds(pte[x], x, mem, ide, view[x]);
        if pte[x].Present? { assert Lives(pte, list, x); assert Loaded(list, pte[x].frame); }
      }
    }
  }

  lemma NewestFirst(list: seq<Node>, loaded: map<int, nat>, clock: nat, f: int, a: int)
    requires InLoadOrder(list, loaded, clock) && forall i :: 0 <= i < |list| ==> list[i].page != a
    ensures InLoadOrder([Node(f, a)] + list, loaded[a := clock], clock + 1)
  {
    var list', loaded' := [Node(f, a)] + list, loaded[a := clock];
    assert list'[0] == Node(f, a) && forall i :: 0 < i < |list'| ==> list'[i] == list[i - 1];
    var clock' := clock + 1;
    forall i | 0 <= i < |list'| ensures Stamped(list', loaded', clock', i) {
      if i > 0 { assert Stamped(list, loaded, clock, i - 1); }
    }
    forall i, j | 0 <= i < j < |list'| ensures Later(list', loaded', i, j) {
      assert Stamped(list, loaded, clock, j - 1);
      if i > 0 { assert Later(list, loaded, i - 1, j - 1); }
    }
    assert InLoadOrder(list', loaded', clock');
  }

  /** What the user sees after touching page `a`: a page never touched appears with some contents. */
  ghost predicate Touched(view: Frames, view': Frames, a: int) {
    a in view' && |view'[a]| == PageSize && view' == view[a := if a in view then view[a] else view'[a]]
  }

  /** What the user sees after storing a byte. */
  ghost predicate Changed(view: Frames, view': Frames, a: int, offset: nat, b: int) {
    && (forall x :: x != a ==> (x in view' <==> x in view))
    && (forall x :: x != a && x in view ==> view'[x] == view[x])
    && a in view' && |view'[a]| == PageSize && offset < PageSize && view'[a][offset] == b
    && (a in view ==> |view[a]| == PageSize && view'[a] == view[a][offset := b])
  }

  /** The tail of alloc_page_gpte, whose frame is not cleared, or of swap_in and its caller. */
  method Load(pte: Table, mem: Frames, ide: seq<int>, list: seq<Node>, free: set<int>, ghost h: History, f: nat,
      a: int, area: map<int, bool>)
    returns (pte': Table, mem': Frames, list': seq<Node>, ghost h': History)
    requires Good(pte, mem, ide, list, free, h, f)
    requires IsPage(a) && (a in pte ==> !pte[a].Present?) && Permits(pte, area) && a in area
    ensures Good(pte', mem', ide, list', free, h', -1) && mem' != map[] && Permits(pte', area)
    ensures a in pte' && pte'[a].Present? && pte'[a].frame == f && FlagsOk(pte'[a].flags, area[a])
    ensures list' == [Node(f, a)] + list
    ensures Touched(h.view, h'.view, a) && h'.loaded == h.loaded[a := h.clock] && h'.clock == h.clock + 1
  {
    var flags := FaultFlags(area[a]);
    FaultFlagsOk(area[a]);
    var content := mem[f];
    if a in pte && pte[a].OnDisk? {
      assert Holds(pte[a], a, mem, ide, h.view[a]);
      SlotRead(ide, a);
      content := ReadSlot(ide, pte[a].entry);
    }
    LoadListed(pte, mem, list, free, f, a, flags, mem[f := content]);
    LoadShows(pte, mem, ide, h.view, list, free, f, a, flags, content);
    forall i | 0 <= i < |list| ensures list[i].page != a { assert Mapped(pte, list[i]); }
    NewestFirst(list, h.loaded, h.clock, f, a);
    pte', mem', list' := pte[a := Present(f, flags)], mem[f := content], [Node(f, a)] + list;
    h' := History(h.view[a := content], h.loaded[a := h.clock], h.clock + 1);
    assert f in mem';
  }

  method TakeFrame(pte: Table, mem: Frames, ide: seq<int>, list: seq<Node>, free: set<int>, ghost h: History)
    returns (f: nat, free': set<int>)
    requires Good(pte, mem, ide, list, free, h, -1) && free != {}
    ensures Good(pte, mem, ide, list, free', h, f)
  {
    assert (forall x :: x !in free) ==> free == {};
    var x :| x in free;
    assert Placed(list, free, -1, x);
    f := x;
    free' := free - {f};
    TakeListed(pte, mem, list, free, f);
  }

  lemma TakeListed(pte: Table, mem: Frames, list: seq<Node>, free: set<int>, f: int)
    requires Listed(pte, mem, list, free, -1) && f in free
    ensures Listed(pte, mem, list, free - {f}, f)
  {
    var free' := free - {f};
    assert free' <= mem.Keys && f in mem;
    forall y | y in mem ensures Placed(list, free', f, y) { assert Placed(list, free, -1, y); }
    forall i | 0 <= i < |list| ensures Mapped(pte, list[i]) && list[i].frame in mem { assert Mapped(pte, list[i]); }
    forall a | a in pte && pte[a].Present? ensures Lives(pte, list, a) { assert Lives(pte, list, a); }
  }

  // -------------------------------------------------------------------- accesses

  lemma Seen(pte: Table, mem: Frames, ide: seq<int>, view: Frames, a: int)
    requires Shows(pte, mem, ide, view) && a in pte && pte[a].Present?
    ensures a in view && pte[a].frame in mem && mem[pte[a].frame] == view[a] && |view[a]| == PageSize
  {
    assert Holds(pte[a], a, mem, ide, view[a]);
  }

  /** A store into a resident page. */
  lemma Stored(pte: Table, mem: Frames, ide: seq<int>, list: seq<Node>, free: set<int>, view: Frames, a: int,
      content: seq<int>)
    requires Listed(pte, mem, list, free, -1) && Shows(pte, mem, ide, view)
    requires a in pte && pte[a].Present? && pte[a].frame in mem && |content| == PageSize
    ensures
      var mem' := mem[pte[a].frame := content];
      Listed(pte, mem', list, free, -1) && Shows(pte, mem', ide, view[a := content])
  {
    var f := pte[a].frame;
    var mem', view' := mem[f := content], view[a := content];
    assert Lives(pte, list, a);
    forall i | 0 <= i < |list| ensures Mapped(pte, list[i]) && list[i].frame in mem' { assert Mapped(pte, list[i]); }
    forall x | x in mem' ensures Placed(list, free, -1, x) { }
    assert Holds(pte[a], a, mem, ide, view[a]);
    forall x | x in view' ensures |view'[x]| == PageSize && Holds(pte[x], x, mem', ide, view'[x]) {
      if x != a {
        assert Holds(pte[x], x, mem, ide, view[x]);
        if pte[x].Present? { assert Lives(pte, list, x); }
      }
    }
  }

  /** How handle_page_fault ends; `AssertFailed` is the assertion of swap_in. */
  datatype Fault = Loaded | Invalid | AssertFailed

  class Space {
    /** The pages of areas, and whether their area is writable. */
    const area: map<int, bool>
    var numFaults: nat   // g_num_page_fault
    var pte: Table
    var mem: Frames
    var ide: seq<int>
    var list: seq<Node>
    var free: set<int>
    ghost var h: History

    /** A space with at least one frame. */
    ghost predicate Valid()
      reads this
    {
      var valid := Good(pte, mem, ide, list, free, h, -1) && mem != map[] && Permits(pte, area);
      valid
    }

    ghost predicate Resident(a: int)
      reads this
    {
      a in pte && pte[a].Present?
    }

    /** A space without pages, with these frames and this disk. */
    constructor (frames: Frames, disk: seq<int>, area: map<int, bool>)
      requires frames != map[] && (forall f :: f in frames ==> 0 <= f && |frames[f]| == PageSize) && IsDisk(disk)
      ensures Valid() && h.view == map[] && this.area == area && numFaults == 0
    {
      this.area, numFaults := area, 0;
      pte, mem, ide, list, free := map[], frames, disk, [], frames.Keys;
      h := History(map[], map[], 0);
      new;
      assert forall f :: f in mem ==> Placed(list, free, -1, f);
    }

    /** One round of `swap_out`: the page longest resident goes to its slot. */
    method SwapOut() returns (a: int)
      requires Valid() && list != []
      modifies this`pte, this`ide, this`list, this`free
      ensures Valid() && free != {}
      ensures old(Resident(a)) && pte == old(pte)[a := OnDisk(Addr2Swap(a))]
      ensures IsOldest(old(pte), h.loaded, a)
    {
      a, pte, ide, list, free := Evict(pte, mem, ide, list, free, h);
    }

    /** `alloc_pages(1)`: swap out until a frame is free. */
    method AllocPage() returns (f: nat)
      requires Valid()
      modifies this`pte, this`ide, this`list, this`free
      ensures Good(pte, mem, ide, list, free, h, f) && mem != map[] && Permits(pte, area)
      ensures forall b :: Resident(b) ==> old(Resident(b))
    {
      while free == {}
        invariant Valid()
        invariant forall b :: Resident(b) ==> old(Resident(b))
        decreases free == {}
      {
        NotEmpty(pte, mem, list);
        var a := SwapOut();
      }
      f, free := TakeFrame(pte, mem, ide, list, free, h);
    }

    /** `handle_page_fault` at page `a`. A page outside the areas gets -E_INVAL. A page
        that is resident, so that its permission was missing, and that the allocation
        does not happen to evict, fails the assertion of swap_in. */
    method HandlePageFault(a: int) returns (r: Fault)
      requires Valid() && IsPage(a)
      modifies this
      ensures numFaults == old(numFaults) + 1
      ensures r == Invalid <==> a !in area
      ensures r == Invalid ==>
        Valid() && pte == old(pte) && mem == old(mem) && ide == old(ide) && list == old(list) && h == old(h)
      ensures r == AssertFailed ==> old(Resident(a))
      ensures r == Loaded ==>
        && Valid() && Resident(a) && Touched(old(h).view, h.view, a)
        && HasV(pte[a].flags) && (HasR(pte[a].flags) <==> area[a]) && (HasW(pte[a].flags) <==> area[a])
        && h.loaded == old(h).loaded[a := old(h).clock] && h.clock == old(h).clock + 1
        && list != [] && list[0] == Node(pte[a].frame, a)
    {
      numFaults := numFaults + 1;
      if a !in area { return Invalid; }
      var f := AllocPage();
      if a in pte && pte[a].Present? {
        assert Resident(a);
        return AssertFailed;
      }
      pte, mem, list, h := Load(pte, mem, ide, list, free, h, f, a, area);
      r := Loaded;
    }

    /** Whether the hardware lets an access to page `a` through. */
    predicate CanRead(a: int)
      reads this
    {
      a in pte && pte[a].Present? && HasV(pte[a].flags) && HasR(pte[a].flags)
    }

    predicate CanWrite(a: int)
      reads this
    {
      a in pte && pte[a].Present? && HasV(pte[a].flags) && HasW(pte[a].flags)
    }

    /** A load instruction of the kernel, with the page fault it may raise. It succeeds
        exactly in a writable area, as only there PTE_R is set, and then after one fault
        at most. */
    method Read(a: int, offset: nat) returns (done: bool, b: int)
      requires Valid() && IsPage(a) && offset < PageSize
      modifies this
      ensures done <==> a in area && area[a]
      ensures done ==>
        && Valid() && Touched(old(h).view, h.view, a) && b == h.view[a][offset]
        && numFaults == old(numFaults) + if old(Resident(a)) then 0 else 1
    {
      b := 0;
      if !CanRead(a) {
        var r := HandlePageFault(a);
        if r != Loaded || !CanRead(a) { return false, 0; }
      }
      Seen(pte, mem, ide, h.view, a);
      b := mem[pte[a].frame][offset];
      done := true;
    }

    /** A store instruction of the kernel, likewise. */
    method Write(a: int, offset: nat, b: int) returns (done: bool)
      requires Valid() && IsPage(a) && offset < PageSize
      modifies this
      ensures done <==> a in area && area[a]
      ensures done ==>
        && Valid() && Changed(old(h).view, h.view, a, offset, b)
        && numFaults == old(numFaults) + if old(Resident(a)) then 0 else 1
    {
      if !CanWrite(a) {
        var r := HandlePageFault(a);
        if r != Loaded || !CanWrite(a) { return false; }
      }
      Seen(pte, mem, ide, h.view, a);
      var f := pte[a].frame;
      var content := mem[f][offset := b];
      Stored(pte, mem, ide, list, free, h.view, a, content);
      mem := mem[f := content];
      h := h.(view := h.view[a := content]);
      done := true;
    }
  }

  // --------------------------------------------------------------- whole programs

  /** A memory access of the user at a byte of a page. */
  datatype Access = Get(page: int, offset: nat) | Set(page: int, offset: nat, value: int)

  datatype Byte = Unwritten | Written(value: int)

  /** The value last stored at a byte by the first `n` accesses. */
  function LastWrite(ops: seq<Access>, n: nat, page: int, offset: nat): Byte
    requires n <= |ops|
  {
    if n == 0 then Unwritten
    else if ops[n - 1].Set? && ops[n - 1].page == page && ops[n - 1].offset == offset then Written(ops[n - 1].value)
    else LastWrite(ops, n - 1, page, offset)
  }

  ghost predicate Agrees(ops: seq<Access>, n: nat, view: Frames, page: int, offset: nat)
    requires n <= |ops|
  {
    LastWrite(ops, n, page, offset).Written? ==>
      page in view && offset < |view[page]| && view[page][offset] == LastWrite(ops, n, page, offset).value
  }

  /** Every byte written so far has the value last written. */
  ghost predicate Remembers(ops: seq<Access>, n: nat, view: Frames)
    requires n <= |ops|
  {
    var ok := forall page, offset {:trigger Agrees(ops, n, view, page, offset)} :: Agrees(ops, n, view, page, offset);
    ok
  }

  lemma RemembersGet(ops: seq<Access>, n: nat, view: Frames, view': Frames)
    requires n < |ops| && ops[n].Get? && Remembers(ops, n, view) && Touched(view, view', ops[n].page)
    ensures Remembers(ops, n + 1, view')
  {
    var m := n + 1;
    forall page, offset ensures Agrees(ops, m, view', page, offset) {
      assert Agrees(ops, n, view, page, offset);
    }
  }

  lemma RemembersSet(ops: seq<Access>, n: nat, view: Frames, view': Frames)
    requires n < |ops| && ops[n].Set? && Remembers(ops, n, view) &&
      Changed(view, view', ops[n].page, ops[n].offset, ops[n].value)
    ensures Remembers(ops, n + 1, view')
  {
    var m := n + 1;
    forall page, offset ensures Agrees(ops, m, view', page, offset) {
      assert Agrees(ops, n, view, page, offset);
    }
  }

  /** Swapping is transparent: whatever pages move between memory and disk, each
      load returns the value last stored at its byte. */
  method Run(space: Space, ops: seq<Access>) returns (outs: seq<int>)
    requires space.Valid() && forall i :: 0 <= i < |ops| ==> IsPage(ops[i].page) && ops[i].offset < PageSize
    requires forall i :: 0 <= i < |ops| ==> ops[i].page in space.area && space.area[ops[i].page]
    modifies space
    ensures space.Valid() && |outs| == |ops|
    ensures forall i :: 0 <= i < |ops| && ops[i].Get? && LastWrite(ops, i, ops[i].page, ops[i].offset).Written? ==>
      outs[i] == LastWrite(ops, i, ops[i].page, ops[i].offset).value
  {
    outs := [];
    while |outs| < |ops|
      invariant space.Valid() && |outs| <= |ops| && Remembers(ops, |outs|, space.h.view)
      invariant forall i :: 0 <= i < |outs| && ops[i].Get? && LastWrite(ops, i, ops[i].page, ops[i].offset).Written? ==>
        outs[i] == LastWrite(ops, i, ops[i].page, ops[i].offset).value
    {
      var op := ops[|outs|];
      ghost var view := space.h.view;
      assert Agrees(ops, |outs|, view, op.page, op.offset);
      if op.Get? {
        var done, b := space.Read(op.page, op.offset);
        RemembersGet(ops, |outs|, view, space.h.view);
        outs := outs + [b];
      } else {
        var done := space.Write(op.page, op.offset, op.value);
        RemembersSet(ops, |outs|, view, space.h.view);
        outs := outs + [op.value];
      }
    }
  }
}
