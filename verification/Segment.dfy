/** Loading a PT_LOAD segment (the loops of load_bin in kernel/proc/proc.c):
    pages are allocated one at a time, the file's bytes are copied into them, and
    the rest up to the memory size is cleared. */
module Segment {
  import opened Prelude
  import opened Words
  import P = PageTable

  type Page = seq<int>

  /** `memcpy` or `memset` inside one page: it never goes past the page. */
  function Fill(content: Page, off: int, bytes: seq<int>): (r: Page)
    requires |content| == PageSize && 0 <= off && off + |bytes| <= PageSize
    ensures |r| == PageSize
    ensures forall o :: 0 <= o < PageSize ==> r[o] == if off <= o < off + |bytes| then bytes[o - off] else content[o]
  {
    content[..off] + bytes + content[off + |bytes|..]
  }

  /** The program header's fields and the file they refer to. */
  datatype Header = Header(file: seq<int>, offset: int, va: int, filesz: int, memsz: int)

  /** What load_bin checks, what it takes for granted of the file, and no address wrap. */
  ghost predicate Loadable(h: Header) {
    && 0 <= h.filesz <= h.memsz && 0 <= h.va && h.va + h.memsz + PageSize <= W64
    && 0 <= h.offset && h.offset + h.filesz <= |h.file|
  }

  /** The byte that belongs at address `x`. */
  function Want(h: Header, x: int): int
    requires Loadable(h) && h.va <= x
  {
    if x < h.va + h.filesz then h.file[h.offset + x - h.va] else 0
  }

  /** The page at address `p` is right from the start of the segment up to address `hi`. */
  ghost predicate PageOk(h: Header, content: Page, p: int, hi: int)
    requires Loadable(h)
  {
    |content| == PageSize && forall o :: 0 <= o < PageSize && h.va <= p + o < hi ==> content[o] == Want(h, p + o)
  }

  function PageAt(first: int, k: int): int { first + PageSize * k }

  /** The first `n` pages from `first` on are right up to `hi`. */
  ghost predicate Done(h: Header, pages: map<int, Page>, first: int, n: nat, hi: int)
    requires Loadable(h)
  {
    forall k {:trigger PageAt(first, k)} :: 0 <= k < n ==>
      PageAt(first, k) in pages && PageOk(h, pages[PageAt(first, k)], PageAt(first, k), hi)
  }

  /** The bytes that belong from address `x` on. */
  ghost predicate Belong(h: Header, x: int, bytes: seq<int>)
    requires Loadable(h)
  {
    h.va <= x && forall i :: 0 <= i < |bytes| ==> bytes[i] == Want(h, x + i)
  }

  lemma FillOk(h: Header, content: Page, p: int, hi: int, bytes: seq<int>)
    requires Loadable(h) && PageOk(h, content, p, hi) && Belong(h, hi, bytes) && p <= hi && hi + |bytes| <= p + PageSize
    ensures PageOk(h, Fill(content, hi - p, bytes), p, hi + |bytes|)
  {
    var r := Fill(content, hi - p, bytes);
    forall o | 0 <= o < PageSize && h.va <= p + o < hi + |bytes| ensures r[o] == Want(h, p + o) {
      if p + o >= hi { assert bytes[o - (hi - p)] == Want(h, hi + (o - (hi - p))); }
    }
  }

  /** Filling the page at position `k` from where the segment is right so far. */
  lemma FillDone(h: Header, pages: map<int, Page>, first: int, n: nat, hi: int, k: nat, content: Page, bytes: seq<int>)
    requires Loadable(h) && Done(h, pages, first, k, hi) && n == k + 1
    requires PageAt(first, k) <= hi && hi + |bytes| <= PageAt(first, n)
    requires PageOk(h, content, PageAt(first, k), hi) && Belong(h, hi, bytes)
    ensures Done(h, pages[PageAt(first, k) := Fill(content, hi - PageAt(first, k), bytes)], first, n, hi + |bytes|)
  {
    var p := PageAt(first, k);
    FillOk(h, content, p, hi, bytes);
    var pages' := pages[p := Fill(content, hi - p, bytes)];
    forall i | 0 <= i < n ensures PageAt(first, i) in pages' &&
      PageOk(h, pages'[PageAt(first, i)], PageAt(first, i), hi + |bytes|) {
      if i < k { assert PageAt(first, i) + PageSize <= p; }
    }
  }

  /** The addresses of the pages mapped, in the order they are. */
  function LogFrom(first: int, n: nat): seq<int> {
    if n == 0 then [] else LogFrom(first, n - 1) + [PageAt(first, n - 1)]
  }

  /** Each page is in the log once: position `k` holds page `k`. */
  lemma {:induction false} LogAt(first: int, n: nat, k: nat)
    requires k < n
    ensures |LogFrom(first, n)| == n && LogFrom(first, n)[k] == PageAt(first, k)
  {
    if n > 1 { LogAt(first, n - 1, if k < n - 1 then k else 0); }
  }

  /** How many pages the bytes from `va` to `end` touch. */
  function Needed(va: int, end: int): int {
    if va < end then (end - 1) / PageSize - va / PageSize + 1 else 0
  }

  /** The gigapages and megapages that have a middle and a leaf table. */
  datatype Tables = Tables(mids: set<int>, leafs: set<int>)

  function Gigapage(p: int): int { p / 0x4000_0000 }

  function Megapage(p: int): int { p / 0x20_0000 }

  /** Two pages share a middle table if their root indices agree, and a leaf table if
      their middle indices agree as well. */
  lemma SharedTables(p: int, q: int)
    requires 0 <= p < 0x80_0000_0000 && 0 <= q < 0x80_0000_0000
    ensures Gigapage(p) == Gigapage(q) <==> P.Gptx(p) == P.Gptx(q)
    ensures Megapage(p) == Megapage(q) <==> P.Gptx(p) == P.Gptx(q) && P.Mptx(p) == P.Mptx(q)
  {
    Indices(p);
    Indices(q);
  }

  lemma Indices(p: int)
    requires 0 <= p < 0x80_0000_0000
    ensures P.Gptx(p) == Gigapage(p) && Megapage(p) == P.Gptx(p) * 512 + P.Mptx(p) && 0 <= P.Mptx(p) < 512
  {
    assert Gigapage(p) == Megapage(p) / 512;
  }

  /** How many tables get_pte makes to map page `p`. */
  function Missing(t: Tables, p: int): nat {
    (if Gigapage(p) in t.mids then 0 else 1) + (if Megapage(p) in t.leafs then 0 else 1)
  }

  function WithTables(t: Tables, p: int): Tables {
    Tables(t.mids + {Gigapage(p)}, t.leafs + {Megapage(p)})
  }

  /** The tables once the first `n` pages are mapped, and the frames that takes. */
  function TablesAfter(t: Tables, first: int, n: nat): Tables {
    if n == 0 then t else WithTables(TablesAfter(t, first, n - 1), PageAt(first, n - 1))
  }

  function Frames(t: Tables, first: int, n: nat): nat {
    if n == 0 then 0
    else Frames(t, first, n - 1) + 1 + Missing(TablesAfter(t, first, n - 1), PageAt(first, n - 1))
  }

  lemma {:induction false} FramesGrow(t: Tables, first: int, m: nat, n: nat)
    requires m <= n
    ensures Frames(t, first, m) <= Frames(t, first, n)
    decreases n
  {
    if m < n { FramesGrow(t, first, m, n - 1); }
  }

  /** Pages outside the range are as they were. */
  ghost predicate Elsewhere(pages0: map<int, Page>, pages: map<int, Page>, lo: int, hi: int) {
    forall p :: !(lo <= p < hi) ==>
      (p in pages <==> p in pages0) && (p in pages && p in pages0 ==> pages[p] == pages0[p])
  }

  /** Where a loop over pages stands: `pva` is the next page to map, the bytes below
      `tb` are in place, and `tb` is in the next page if there is more to do. */
  ghost predicate At(h: Header, first: int, n: nat, pva: int, tb: int) {
    && pva == PageAt(first, n) && h.va <= tb && first <= h.va < first + PageSize
    && (n == 0 ==> tb == h.va)
    && (n > 0 ==> h.va < tb && pva - PageSize < tb <= pva)
  }

  /** The number of bytes that go into the next page. */
  function Chunk(pva: int, tb: int, toEnd: int): int {
    var size := PageSize - (tb - pva);
    if toEnd < pva + PageSize then size - (pva + PageSize - toEnd) else size
  }

  lemma ChunkFits(h: Header, first: int, n: nat, pva: int, tb: int, toEnd: int)
    requires At(h, first, n, pva, tb) && pva <= tb < toEnd
    ensures 0 <= tb - pva && 0 < Chunk(pva, tb, toEnd) && tb - pva + Chunk(pva, tb, toEnd) <= PageSize
    ensures tb + Chunk(pva, tb, toEnd) == if toEnd < pva + PageSize then toEnd else pva + PageSize
    ensures At(h, first, n + 1, pva + PageSize, tb + Chunk(pva, tb, toEnd))
  {
  }

  /** An uncleared page starts out right: nothing of the segment before `tb` is in it. */
  lemma NewPageOk(h: Header, first: int, n: nat, pva: int, tb: int, content: Page)
    requires Loadable(h) && At(h, first, n, pva, tb) && pva <= tb && |content| == PageSize
    ensures PageOk(h, content, pva, tb)
  {
  }

  class Loader {
    /** The pages mapped, by address. */
    var pages: map<int, Page>
    /** The frames the allocator can still hand out, with whatever they contain. */
    var supply: seq<Page>
    /** Every mapping made. */
    var log: seq<int>
    var tables: Tables

    ghost predicate Valid()
      reads this
    {
      forall i :: 0 <= i < |supply| ==> |supply[i]| == PageSize
    }

    /** `alloc_page_gpte`: an uncleared page at address `p`, and the tables for it. */
    method AllocPage(p: int) returns (ok: bool)
      requires Valid()
      modifies this
      ensures Valid() && (ok <==> 1 + Missing(old(tables), p) <= |old(supply)|)
      ensures ok ==>
        && |supply| == |old(supply)| - 1 - Missing(old(tables), p) && tables == WithTables(old(tables), p)
        && pages == old(pages)[p := old(supply)[0]] && log == old(log) + [p]
      ensures !ok ==> pages == old(pages) && log == old(log)
    {
      if supply == [] { return false; }
      var page := supply[0];
      supply := supply[1..];
      ok := MakeTables(p);
      if ok {
        pages, log := pages[p := page], log + [p];
      } else {
        supply := [page] + supply;
      }
    }

    /** `get_pte` with creation: the middle table first, then the leaf table. */
    method MakeTables(p: int) returns (ok: bool)
      requires Valid()
      modifies this`supply, this`tables
      ensures Valid() && (ok <==> Missing(old(tables), p) <= |old(supply)|)
      ensures ok ==> |supply| == |old(supply)| - Missing(old(tables), p) && tables == WithTables(old(tables), p)
    {
      if Gigapage(p) !in tables.mids {
        if supply == [] { return false; }
        supply, tables := supply[1..], tables.(mids := tables.mids + {Gigapage(p)});
      }
      if Megapage(p) !in tables.leafs {
        if supply == [] { return false; }
        supply, tables := supply[1..], tables.(leafs := tables.leafs + {Megapage(p)});
      }
      assert tables == WithTables(old(tables), p);
      ok := true;
    }

    /** One iteration of either loop: map the next page and fill it up to `toEnd`. */
    method FillPage(h: Header, fromFile: bool, tb: int, toEnd: int, pva: int, ghost first: int, ghost n: nat)
      returns (ok: bool, tb': int)
      requires Valid() && Loadable(h) && At(h, first, n, pva, tb) && pva <= tb < toEnd && Done(h, pages, first, n, tb)
      requires if fromFile then toEnd == h.va + h.filesz else h.va + h.filesz <= tb
      modifies this
      ensures Valid() && (ok <==> 1 + Missing(old(tables), pva) <= |old(supply)|)
      ensures ok ==>
        && At(h, first, n + 1, pva + PageSize, tb') && Done(h, pages, first, n + 1, tb')
        && tb' == (if toEnd < pva + PageSize then toEnd else pva + PageSize)
        && |supply| == |old(supply)| - 1 - Missing(old(tables), pva) && log == old(log) + [pva]
        && tables == WithTables(old(tables), pva)
        && Elsewhere(old(pages), pages, pva, pva + PageSize)
      ensures !ok ==> log == old(log) && pages == old(pages) && tb' == tb
    {
      ghost var pages0 := pages;
      tb' := tb;
      ok := AllocPage(pva);
      if !ok { return; }
      var size := Chunk(pva, tb, toEnd);
      ChunkFits(h, first, n, pva, tb, toEnd);
      var bytes;
      if fromFile {
        var from := h.offset + (tb - h.va);
        bytes := h.file[from..from + size];
      } else {
        bytes := seq(size, _ => 0);
      }
      assert Belong(h, tb, bytes);
      NewPageOk(h, first, n, pva, tb, pages[pva]);
      FillDone(h, pages0, first, n + 1, tb, n, pages[pva], bytes);
      pages := pages[pva := Fill(pages[pva], tb - pva, bytes)];
      assert pages == pages0[pva := pages[pva]];
      tb' := tb + size;
    }

    /** The loop that copies (`fromFile`) and the loop that clears whole pages. */
    method FillPages(h: Header, fromFile: bool, tb0: int, toEnd: int, pva0: int, ghost w: Start, ghost n0: nat)
      returns (ok: bool, tb: int, pva: int, ghost n: nat)
      requires Valid() && Loadable(h) && Progress(h, w, pages, log, n0, pva0, tb0)
      requires Spent(w, tables, |supply|, n0) && (tb0 < toEnd ==> pva0 <= tb0)
      requires if fromFile then toEnd == h.va + h.filesz else h.va + h.filesz <= tb0
      modifies this
      ensures Valid() && Progress(h, w, pages, log, n, pva, tb)
      ensures ok ==> Spent(w, tables, |supply|, n) && tb == if tb0 < toEnd then toEnd else tb0
      ensures !ok ==> w.supply < Frames(w.tables, w.first, n + 1) && pva <= tb < toEnd
    {
      ok, tb, pva, n := true, tb0, pva0, n0;
      while tb < toEnd
        invariant Valid() && Progress(h, w, pages, log, n, pva, tb) && Spent(w, tables, |supply|, n)
        invariant tb < toEnd ==> pva <= tb
        invariant tb0 < toEnd ==> tb <= toEnd
        invariant tb0 >= toEnd ==> tb == tb0
        decreases toEnd - tb
      {
        ghost var pages1, log1 := pages, log;
        ghost var tb1 := tb;
        ok, tb := FillPage(h, fromFile, tb, toEnd, pva, w.first, n);
        if !ok { return; }
        ProgressPage(h, w, pages1, log1, n, pva, tb1, pages, log, tb);
        pva, n := pva + PageSize, n + 1;
      }
    }

    /** The branch that clears the rest of the page the file's bytes end in. */
    method ClearTail(h: Header, tb: int, toEnd: int, pva: int, ghost first: int, ghost n: nat) returns (tb': int)
      requires Valid() && Loadable(h) && At(h, first, n, pva, tb) && Done(h, pages, first, n, tb)
      requires tb == h.va + h.filesz && n > 0 && tb < pva && tb < toEnd
      modifies this`pages
      ensures At(h, first, n, pva, tb') && Done(h, pages, first, n, tb')
      ensures tb' == if toEnd < pva then toEnd else pva
      ensures Elsewhere(old(pages), pages, first, pva)
    {
      var off := tb + PageSize - pva;
      var size := PageSize - off;
      if toEnd < pva { size := size - (pva - toEnd); }
      var page := pva - PageSize;
      assert page == PageAt(first, n - 1);
      ghost var k: nat := n - 1;
      var bytes := seq(size, _ => 0);
      assert Done(h, pages, first, k, tb) && PageOk(h, pages[page], page, tb) && Belong(h, tb, bytes);
      FillDone(h, pages, first, n, tb, k, pages[page], bytes);
      pages := pages[page := Fill(pages[page], off, bytes)];
      tb' := tb + size;
      assert (toEnd < pva && tb' == toEnd) || (toEnd >= pva && tb' == pva);
    }

    /** One segment of `load_bin`. It succeeds exactly when there are frames enough for
        its pages and for the tables that are missing, and then maps each page the
        segment touches once, in order, and nothing else. */
    method LoadSegment(h: Header) returns (ok: bool, ghost n: nat)
      requires Valid() && Loadable(h)
      modifies this
      ensures Valid() && 0 <= Needed(h.va, h.va + h.memsz)
      ensures
        var frames := Frames(old(tables), RoundDown(h.va, PageSize), Needed(h.va, h.va + h.memsz));
        && (ok <==> frames <= |old(supply)|)
        && (ok ==> n == Needed(h.va, h.va + h.memsz) && |supply| == |old(supply)| - frames)
      ensures ok ==> Done(h, pages, RoundDown(h.va, PageSize), n, h.va + h.memsz)
      ensures log == old(log) + LogFrom(RoundDown(h.va, PageSize), n)
      ensures Elsewhere(old(pages), pages, RoundDown(h.va, PageSize), PageAt(RoundDown(h.va, PageSize), n))
    {
      var first := RoundDown(h.va, PageSize);
      FirstPage(h.va);
      ghost var w, tb, pva := Start(first, pages, log, tables, |supply|), 0, 0;
      ok, tb, pva, n := FillSegment(h, first, w);
      HowMany(h, w, n, pva, tb, ok);
    }

    /** The three parts of the loading of a segment, from its first page on. */
    method FillSegment(h: Header, first: int, ghost w: Start)
      returns (ok: bool, ghost end: int, ghost next: int, ghost n: nat)
      requires Valid() && Loadable(h) && first <= h.va < first + PageSize
      requires w == Start(first, pages, log, tables, |supply|)
      modifies this
      ensures Valid() && Progress(h, w, pages, log, n, next, end)
      ensures ok ==> Spent(w, tables, |supply|, n) && end == h.va + h.memsz
      ensures !ok ==> w.supply < Frames(w.tables, first, n + 1) && next <= end < h.va + h.memsz
    {
      var pva, tb := first, h.va;
      ok, tb, pva, n := FillPages(h, true, tb, h.va + h.filesz, pva, w, 0);
      var toEnd := h.va + h.memsz;
      if ok && tb < pva && tb < toEnd {
        ghost var pages1 := pages;
        tb := ClearTail(h, tb, toEnd, pva, w.first, n);
        ElsewhereTwice(w.pages, pages1, pages, w.first, pva, pva);
      }
      if ok && tb < toEnd {
        ok, tb, pva, n := FillPages(h, false, tb, toEnd, pva, w, n);
      }
      end, next := tb, pva;
    }
  }

  lemma HowMany(h: Header, w: Start, n: nat, pva: int, tb: int, ok: bool)
    requires At(h, w.first, n, pva, tb) && w.first == h.va / PageSize * PageSize && 0 <= h.memsz
    requires if ok then tb == h.va + h.memsz
             else w.supply < Frames(w.tables, w.first, n + 1) && pva <= tb < h.va + h.memsz
    ensures 0 <= Needed(h.va, h.va + h.memsz)
    ensures ok ==> n == Needed(h.va, h.va + h.memsz)
    ensures !ok ==> w.supply < Frames(w.tables, w.first, Needed(h.va, h.va + h.memsz))
  {
    if ok {
      NeedsExactly(h, w.first, n, pva, tb, h.va + h.memsz);
    } else {
      NeedsMore(h, w.first, n, pva, tb, h.va + h.memsz);
      FramesGrow(w.tables, w.first, n + 1, Needed(h.va, h.va + h.memsz));
    }
  }

  /** Where loading began: the first page, and the pages, the log, the tables and the
      number of free frames then. */
  datatype Start = Start(first: int, pages: map<int, Page>, log: seq<int>, tables: Tables, supply: int)

  /** What mapping `n` pages has taken from the allocator. */
  ghost predicate Spent(w: Start, tables: Tables, left: int, n: nat) {
    tables == TablesAfter(w.tables, w.first, n) && left == w.supply - Frames(w.tables, w.first, n)
  }

  ghost predicate Progress(h: Header, w: Start, pages: map<int, Page>, log: seq<int>, n: nat, pva: int, tb: int)
    requires Loadable(h)
  {
    var ok :=
      && At(h, w.first, n, pva, tb) && Done(h, pages, w.first, n, tb)
      && log == w.log + LogFrom(w.first, n)
      && Elsewhere(w.pages, pages, w.first, pva);
    ok
  }

  lemma ProgressPage(h: Header, w: Start, pages: map<int, Page>, log: seq<int>, n: nat, pva: int, tb: int,
      pages': map<int, Page>, log': seq<int>, tb': int)
    requires Loadable(h) && Progress(h, w, pages, log, n, pva, tb)
    requires At(h, w.first, n + 1, pva + PageSize, tb') && Done(h, pages', w.first, n + 1, tb')
    requires log' == log + [pva] && Elsewhere(pages, pages', pva, pva + PageSize)
    ensures Progress(h, w, pages', log', n + 1, pva + PageSize, tb')
  {
    ElsewhereStep(w.pages, pages, pages', w.first, pva);
  }

  lemma FirstPage(va: int)
    requires 0 <= va
    ensures RoundDown(va, PageSize) <= va < RoundDown(va, PageSize) + PageSize &&
      RoundDown(va, PageSize) == va / PageSize * PageSize
  {
  }

  lemma ElsewhereTwice(pages0: map<int, Page>, pages1: map<int, Page>, pages: map<int, Page>, first: int, mid: int,
      pva: int)
    requires Elsewhere(pages0, pages1, first, mid) && Elsewhere(pages1, pages, first, pva) && mid <= pva
    ensures Elsewhere(pages0, pages, first, pva)
  {
  }

  lemma NeedsMore(h: Header, first: int, n: nat, pva: int, tb: int, toEnd: int)
    requires At(h, first, n, pva, tb) && pva <= tb < toEnd && first == h.va / PageSize * PageSize
    ensures n < Needed(h.va, toEnd)
  {
    PageIndex(first, n, tb);
  }

  lemma NeedsExactly(h: Header, first: int, n: nat, pva: int, tb: int, toEnd: int)
    requires At(h, first, n, pva, tb) && tb == toEnd && first == h.va / PageSize * PageSize
    ensures n == Needed(h.va, toEnd)
  {
    if n > 0 {
      PageIndex(first, n - 1, toEnd - 1);
      LastIndex(first, n, toEnd - 1);
    }
  }

  lemma LastIndex(first: int, n: nat, x: int)
    requires first % PageSize == 0 && x < PageAt(first, n)
    ensures x / PageSize < first / PageSize + n
  {
  }

  lemma PageIndex(first: int, n: nat, x: int)
    requires first % PageSize == 0 && PageAt(first, n) <= x
    ensures first / PageSize + n <= x / PageSize
  {
  }

  lemma ElsewhereStep(pages0: map<int, Page>, pages1: map<int, Page>, pages: map<int, Page>, first: int, pva: int)
    requires Elsewhere(pages0, pages1, first, pva) && Elsewhere(pages1, pages, pva, pva + PageSize) && first <= pva
    ensures Elsewhere(pages0, pages, first, pva + PageSize)
  {
  }

  /** A segment that is done has the file's byte, or zero beyond the file's, at each of its addresses. */
  lemma ByteLoaded(h: Header, pages: map<int, Page>, n: nat, x: int)
    requires Loadable(h) && h.va <= x < h.va + h.memsz
    requires n == Needed(h.va, h.va + h.memsz) && Done(h, pages, RoundDown(h.va, PageSize), n, h.va + h.memsz)
    ensures
      var p := RoundDown(x, PageSize);
      && p in pages && 0 <= x - p < |pages[p]|
      && pages[p][x - p] == if x < h.va + h.filesz then h.file[h.offset + (x - h.va)] else 0
  {
    var first, p, k := RoundDown(h.va, PageSize), RoundDown(x, PageSize), x / PageSize - h.va / PageSize;
    FirstPage(x);
    Between(h.va, x, h.va + h.memsz - 1);
    assert PageAt(first, k) == p;
    var o := x - p;
    assert pages[p][o] == Want(h, p + o);
  }

  lemma Between(a: int, x: int, b: int)
    requires 0 <= a <= x <= b
    ensures a / PageSize <= x / PageSize <= b / PageSize
  {
  }
}
