/** The best-fit page allocator (kernel/mm/best_fit_pmm.c): the page descriptors,
    the address-ordered free list, and the loops over them. Each operation is
    proved to compute the function on runs that module FreeRuns defines. */
module BestFit {
  import opened Prelude
  import opened FreeRuns

  const Uint32Max := 0xffff_ffff

  /** `struct page`, as far as the allocator uses it. */
  datatype Page = Page(reserved: bool, head: bool, property: int, ref: int)

  ghost predicate InTable(list: seq<int>, n: int) {
    forall i :: 0 <= i < |list| ==> 0 <= list[i] < n
  }

  /** The free list together with the lengths in the descriptors. */
  ghost function RunsOf(list: seq<int>, pages: seq<Page>): (rs: seq<Run>)
    requires InTable(list, |pages|)
    ensures |rs| == |list|
    ensures forall i :: 0 <= i < |list| ==> rs[i] == Run(list[i], pages[list[i]].property)
  {
    seq(|list|, i requires 0 <= i < |list| => Run(list[i], pages[list[i]].property))
  }

  /** PAGE_PROPERTY and a non-zero property mark exactly the first pages of runs. */
  ghost predicate Marks(list: seq<int>, pages: seq<Page>) {
    forall p :: 0 <= p < |pages| ==> (pages[p].head <==> p in list) && (pages[p].property != 0 <==> p in list)
  }

  ghost predicate Inside(rs: seq<Run>, pages: seq<Page>) {
    forall p :: Free(rs, p) ==> 0 <= p < |pages| && !pages[p].reserved
  }

  ghost predicate Good(list: seq<int>, pages: seq<Page>) {
    var good :=
      && |pages| < Uint32Max
      && InTable(list, |pages|)
      && Canonical(RunsOf(list, pages))
      && Marks(list, pages)
      && Inside(RunsOf(list, pages), pages);
    good
  }

  lemma {:induction false} RunFits(rs: seq<Run>, low: int, i: nat)
    requires Above(rs, low) && i < |rs|
    ensures low < rs[i].start && 0 < rs[i].len
    ensures Free(rs, rs[i].start) && Free(rs, rs[i].End() - 1)
    ensures forall j :: i < j < |rs| ==> rs[i].End() < rs[j].start
  {
    if i > 0 {
      RunFits(rs[1..], rs[0].End(), i - 1);
      assert forall j :: i < j < |rs| ==> rs[j] == rs[1..][j - 1];
    } else {
      forall j | 0 < j < |rs| ensures rs[0].End() < rs[j].start {
        RunFits(rs[1..], rs[0].End(), j - 1);
      }
    }
  }

  class Allocator {
    var pages: seq<Page>
    var freeList: seq<int>
    var numFree: int

    ghost predicate Valid()
      reads this
    {
      Good(freeList, pages) && numFree == Total(RunsOf(freeList, pages))
    }

    ghost function Runs(): seq<Run>
      requires Valid()
      reads this
    {
      RunsOf(freeList, pages)
    }

    /** `init_page` and `best_fit_init_memmap`: of `total` pages the `n` from
        `base` on become one free run. */
    constructor (total: nat, base: nat, n: nat)
      requires 0 < n && base + n <= total < Uint32Max
      ensures Valid() && Runs() == [Run(base, n)] && |pages| == total
      ensures forall i :: 0 <= i < total ==> (pages[i].reserved <==> !(base <= i < base + n)) && pages[i].ref == 0
    {
      var table := seq(total, i => Page(i < base || i >= base + n, false, 0, 0));
      pages := table[base := table[base].(head := true, property := n)];
      freeList := [base];
      numFree := n;
      new;
      ghost var one := [Run(base, n)];
      assert RunsOf(freeList, pages) == one;
      assert Canonical(one) by { assert Above(one[1..], base + n); }
      forall p | Free(one, p) ensures base <= p < base + n { assert !Free(one[1..], p); }
      assert Total(one) == n by { assert Total(one[1..]) == 0; }
      assert Marks(freeList, pages);
      assert Inside(one, pages);
    }

    /** The scan of `best_fit_alloc_pages`. */
    method FindBest(n: int) returns (b: int)
      requires Valid() && 0 < n
      ensures b == -1 ==> forall j :: 0 <= j < |Runs()| ==> Runs()[j].len < n
      ensures b != -1 ==> 0 <= b < |freeList| && IsBest(Runs(), n, b)
    {
      b := -1;
      var min := Uint32Max;
      ghost var rs := Runs();
      var i := 0;
      while i < |freeList|
        invariant 0 <= i <= |freeList|
        invariant -1 <= b < i
        invariant b == -1 ==> min == Uint32Max && forall j :: 0 <= j < i ==> rs[j].len < n
        invariant b != -1 ==> min == rs[b].len && min >= n
        invariant b != -1 ==> forall j :: 0 <= j < i && rs[j].len >= n ==>
          rs[b].len < rs[j].len || (rs[b].len == rs[j].len && b <= j)
      {
        var p := pages[freeList[i]];
        RunFits(rs, -1, i);
        if p.property >= n && p.property < min {
          b := i;
          min := p.property;
        }
        i := i + 1;
      }
    }
 
    /** `best_fit_alloc_pages`: -1 stands for NULL. */
    method AllocPages(n: int) returns (page: int, ghost b: int)
      requires Valid() && 0 < n
      modifies this
      ensures Valid() && SameReserved(old(pages), pages)
      ensures page == -1 <==> forall j :: 0 <= j < |old(Runs())| ==> old(Runs())[j].len < n
      ensures page == -1 ==> Runs() == old(Runs()) && numFree == old(numFree)
      ensures page != -1 ==>
        && 0 <= b < |old(Runs())| && IsBest(old(Runs()), n, b)
        && page == old(Runs())[b].start
        && Runs() == Carve(old(Runs()), b, n)
        && numFree == old(numFree) - n
    {
      ghost var rs := Runs();
      b := -1;
      if n > numFree {
        forall j | 0 <= j < |rs| ensures rs[j].len < n { RunInTotal(rs, -1, j); }
        return -1, -1;
      }
      var k := FindBest(n);
      if k == -1 {
        assert rs == Runs();
        return -1, -1;
      }
      b := k;
      page := freeList[k];
      CarveTotal(rs, k, n);
      freeList, pages := TakeRun(freeList, pages, k, n);
      numFree := numFree - n;
    }

    /** `best_fit_free_pages` of a block in use. */
    method FreePages(base: int, n: int)
      requires Valid() && 0 <= base && base + n <= |pages| && Releasable(Runs(), base, n)
      requires forall p :: base <= p < base + n ==> !pages[p].reserved
      modifies this
      ensures Valid() && SameReserved(old(pages), pages)
      ensures Runs() == Release(old(Runs()), base, n)
      ensures numFree == old(numFree) + n
    {
      ReleaseTotal(Runs(), base, n);
      numFree := numFree + n;
      freeList, pages := PutBack(freeList, pages, base, n);
    }
  }

  /** The stores of `best_fit_alloc_pages` once run `k` is chosen. */
  method TakeRun(list: seq<int>, pages: seq<Page>, k: nat, n: int) returns (list': seq<int>, pages': seq<Page>)
    requires Good(list, pages) && k < |list| && 0 < n <= pages[list[k]].property
    ensures Good(list', pages') && SameReserved(pages, pages')
    ensures RunsOf(list', pages') == Carve(RunsOf(list, pages), k, n)
  {
    list', pages' := list, pages;
    var page := list[k];
    if pages'[page].property > n {
      SplitInTable(list, pages, k, n);
      var p := page + n;
      pages' := pages'[p := pages'[p].(property := pages'[page].property - n, head := true)];
      list' := list'[k := p];
    } else {
      CarveWhole(list, pages, k, n);
      list' := list'[..k] + list'[k + 1..];
    }
    pages' := pages'[page := pages'[page].(head := false, property := 0)];
    if pages[page].property > n { CarveSplit(list, pages, k, n, pages'); }
  }

  // ------------------------------------------------ what the stores of alloc do

  lemma Starts(list: seq<int>, pages: seq<Page>, b: nat, j: nat)
    requires Good(list, pages) && b < |list| && j < |list| && b != j
    ensures
      var rs := RunsOf(list, pages);
      list[j] != list[b] && !InRun(rs[b], list[j])
  {
    var rs := RunsOf(list, pages);
    RunFits(rs, -1, b);
    RunFits(rs, -1, j);
  }

  /** The run at `b` is longer than needed: its tail stays in its place. */
  ghost predicate SplitStores(list: seq<int>, pages: seq<Page>, b: nat, n: int, pages': seq<Page>)
    requires InTable(list, |pages|) && b < |list|
  {
    var page, p := list[b], list[b] + n;
    && |pages'| == |pages| && 0 <= page < p < |pages|
    && pages'[page] == pages[page].(head := false, property := 0)
    && pages'[p] == pages[p].(head := true, property := pages[page].property - n)
    && forall q :: 0 <= q < |pages| && q != page && q != p ==> pages'[q] == pages[q]
  }

  lemma CarveSplit(list: seq<int>, pages: seq<Page>, b: nat, n: int, pages': seq<Page>)
    requires Good(list, pages) && b < |list| && 0 < n < pages[list[b]].property
    requires SplitStores(list, pages, b, n, pages')
    ensures Good(list[b := list[b] + n], pages')
    ensures RunsOf(list[b := list[b] + n], pages') == Carve(RunsOf(list, pages), b, n)
  {
    var rs, p := RunsOf(list, pages), list[b] + n;
    RunFits(rs, -1, b);
    forall j | 0 <= j < |list| && j != b ensures list[j] != list[b] && list[j] != p { Starts(list, pages, b, j); }
    SplitRuns(list, pages, b, n, pages');
    CarveAbove(rs, b, n, -1);
    ReplaceMarks(list, pages, b, p, pages');
    CarveInside(rs, pages, pages', b, n);
  }

  lemma SplitRuns(list: seq<int>, pages: seq<Page>, b: nat, n: int, pages': seq<Page>)
    requires InTable(list, |pages|) && b < |list| && 0 < n < pages[list[b]].property
    requires SplitStores(list, pages, b, n, pages')
    requires forall j :: 0 <= j < |list| && j != b ==> list[j] != list[b] && list[j] != list[b] + n
    ensures InTable(list[b := list[b] + n], |pages'|)
    ensures RunsOf(list[b := list[b] + n], pages') == Carve(RunsOf(list, pages), b, n)
  {
    var rs, list', p := RunsOf(list, pages), list[b := list[b] + n], list[b] + n;
    CarveAt(rs, b, n);
    assert rs[b] == Run(list[b], pages[list[b]].property) && list'[b] == p;
    assert Run(p, pages'[p].property) == Run(rs[b].start + n, rs[b].len - n);
    RunsUpdate(list, pages, list', pages', b);
  }

  lemma RunsUpdate(list: seq<int>, pages: seq<Page>, list': seq<int>, pages': seq<Page>, b: nat)
    requires InTable(list, |pages|) && InTable(list', |pages'|) && b < |list| == |list'|
    requires forall j :: 0 <= j < |list| && j != b ==>
      list'[j] == list[j] && pages'[list[j]].property == pages[list[j]].property
    ensures RunsOf(list', pages') == RunsOf(list, pages)[b := Run(list'[b], pages'[list'[b]].property)]
  {
  }

  lemma SplitInTable(list: seq<int>, pages: seq<Page>, b: nat, n: int)
    requires Good(list, pages) && b < |list| && 0 < n < pages[list[b]].property
    ensures 0 <= list[b] < list[b] + n < |pages|
  {
    var rs := RunsOf(list, pages);
    RunFits(rs, -1, b);
    assert Free(rs, rs[b].End() - 1);
  }

  /** Position `b` of the list passes from its page to page `p`. */
  lemma ReplaceMarks(list: seq<int>, pages: seq<Page>, b: nat, p: int, pages': seq<Page>)
    requires Marks(list, pages) && b < |list| && 0 <= p < |pages| == |pages'| && p != list[b]
    requires forall j :: 0 <= j < |list| && j != b ==> list[j] != list[b]
    requires pages'[p].head && pages'[p].property != 0
    requires forall q :: 0 <= q < |pages| && q != p ==>
      if q == list[b] then !pages'[q].head && pages'[q].property == 0
      else pages'[q].head == pages[q].head && pages'[q].property == pages[q].property
    ensures Marks(list[b := p], pages')
  {
    var list' := list[b := p];
    forall q | 0 <= q < |pages'| ensures q in list' <==> q == p || (q in list && q != list[b]) {
      if q in list && q != list[b] {
        var j :| 0 <= j < |list| && list[j] == q;
        assert list'[j] == q;
      }
      assert list'[b] == p;
    }
  }

  /** Position `b` leaves the list. */
  lemma RemoveMarks(list: seq<int>, pages: seq<Page>, b: nat, pages': seq<Page>)
    requires Marks(list, pages) && b < |list| && |pages| == |pages'|
    requires forall j :: 0 <= j < |list| && j != b ==> list[j] != list[b]
    requires forall q :: 0 <= q < |pages| ==>
      if q == list[b] then !pages'[q].head && pages'[q].property == 0
      else pages'[q].head == pages[q].head && (pages'[q].property != 0 <==> pages[q].property != 0)
    ensures Marks(list[..b] + list[b + 1..], pages')
  {
    var list' := list[..b] + list[b + 1..];
    forall q | 0 <= q < |pages'| ensures q in list' <==> q in list && q != list[b] {
      if q in list && q != list[b] {
        var j :| 0 <= j < |list| && list[j] == q;
        assert list'[if j < b then j else j - 1] == q;
      }
    }
  }

  lemma CarveInside(rs: seq<Run>, pages: seq<Page>, pages': seq<Page>, b: nat, n: int)
    requires Canonical(rs) && b < |rs| && 0 < n <= rs[b].len && Inside(rs, pages)
    requires |pages'| == |pages| && forall p :: 0 <= p < |pages| ==> pages'[p].reserved == pages[p].reserved
    ensures Inside(Carve(rs, b, n), pages')
  {
    forall p | Free(Carve(rs, b, n), p) ensures 0 <= p < |pages'| && !pages'[p].reserved {
      CarveFree(rs, b, n, -1, p);
    }
  }

  /** The run at `b` has the size wanted: it leaves the list. */
  lemma CarveWhole(list: seq<int>, pages: seq<Page>, b: nat, n: int)
    requires Good(list, pages) && b < |list| && 0 < n == pages[list[b]].property
    ensures
      var pages' := pages[list[b] := pages[list[b]].(head := false, property := 0)];
      var list' := list[..b] + list[b + 1..];
      Good(list', pages') && RunsOf(list', pages') == Carve(RunsOf(list, pages), b, n)
  {
    var rs := RunsOf(list, pages);
    var page := list[b];
    var pages' := pages[page := pages[page].(head := false, property := 0)];
    var list' := list[..b] + list[b + 1..];
    forall j | 0 <= j < |list| && j != b ensures list[j] != page { Starts(list, pages, b, j); }
    CarveAt(rs, b, n);
    CarveAbove(rs, b, n, -1);
    assert RunsOf(list', pages') == Carve(rs, b, n);
    RemoveMarks(list, pages, b, pages');
    CarveInside(rs, pages, pages', b, n);
  }

  // -------------------------------------------------------------- freeing a block

  lemma GoodDistinct(list: seq<int>, pages: seq<Page>)
    requires Good(list, pages)
    ensures Distinct(list)
  {
    forall i, j | 0 <= i < j < |list| ensures list[i] != list[j] { Starts(list, pages, i, j); }
  }

  /** No page of a block in use is the first of a run. */
  lemma BlockUnlisted(list: seq<int>, pages: seq<Page>, base: int, n: int)
    requires Good(list, pages) && Releasable(RunsOf(list, pages), base, n)
    ensures forall p :: base <= p < base + n ==> p !in list
  {
    var rs := RunsOf(list, pages);
    forall j | 0 <= j < |list| ensures !(base <= list[j] < base + n) {
      RunFits(rs, -1, j);
      assert Free(rs, list[j]);
    }
  }

  /** The first loop of `best_fit_free_pages`; its assertions cannot fail. */
  method ClearBlock(list: seq<int>, pages: seq<Page>, base: int, n: int) returns (r: seq<Page>)
    requires Good(list, pages) && Releasable(RunsOf(list, pages), base, n)
    requires 0 <= base && base + n <= |pages|
    requires forall p :: base <= p < base + n ==> !pages[p].reserved
    ensures |r| == |pages|
    ensures forall p :: 0 <= p < |pages| ==> r[p] == if base <= p < base + n then Page(false, false, 0, 0) else pages[p]
  {
    BlockUnlisted(list, pages, base, n);
    r := pages;
    var p := base;
    while p < base + n
      invariant base <= p <= base + n && |r| == |pages|
      invariant forall q :: 0 <= q < |pages| ==> r[q] == if base <= q < p then Page(false, false, 0, 0) else pages[q]
    {
      assert !r[p].reserved && !r[p].head && r[p].property == 0;
      r := r[p := Page(false, false, r[p].property, 0)];
      p := p + 1;
    }
  }

  /** Two neighbours in the list become one run: the second page stops being a head. */
  method FuseWithNext(list: seq<int>, pages: seq<Page>, i: nat) returns (list': seq<int>, pages': seq<Page>)
    requires InTable(list, |pages|) && Distinct(list) && Marks(list, pages) && i + 1 < |list|
    requires pages[list[i]].property > 0 && pages[list[i + 1]].property > 0
    ensures InTable(list', |pages'|) && Distinct(list') && Marks(list', pages')
    ensures |pages'| == |pages| && forall p :: 0 <= p < |pages| ==> pages'[p].reserved == pages[p].reserved
    ensures list' == list[..i + 1] + list[i + 2..]
    ensures
      var rs := RunsOf(list, pages);
      RunsOf(list', pages') == rs[..i] + [Run(rs[i].start, rs[i].len + rs[i + 1].len)] + rs[i + 2..]
  {
    var p, q := list[i], list[i + 1];
    pages' := pages[p := pages[p].(property := pages[p].property + pages[q].property)];
    pages' := pages'[q := pages'[q].(head := false, property := 0)];
    list' := list[..i + 1] + list[i + 2..];
    FusedStores(list, pages, i, pages');
    Dropped(list, i + 1);
    FusedRuns(list, pages, i, pages');
  }

  lemma FusedStores(list: seq<int>, pages: seq<Page>, i: nat, pages': seq<Page>)
    requires InTable(list, |pages|) && Distinct(list) && Marks(list, pages) && i + 1 < |list|
    requires pages[list[i]].property > 0 && pages[list[i + 1]].property > 0
    requires
      var p, q := list[i], list[i + 1];
      var pages1 := pages[p := pages[p].(property := pages[p].property + pages[q].property)];
      pages' == pages1[q := pages1[q].(head := false, property := 0)]
    ensures Marks(list[..i + 1] + list[i + 2..], pages')
  {
    assert list[i] in list;
    RemoveMarks(list, pages, i + 1, pages');
  }

  lemma Dropped(list: seq<int>, b: nat)
    requires Distinct(list) && b < |list|
    ensures Distinct(list[..b] + list[b + 1..])
  {
    var r := list[..b] + list[b + 1..];
    forall i, j | 0 <= i < j < |r| ensures r[i] != r[j] {
      assert r[i] == list[if i < b then i else i + 1] && r[j] == list[if j < b then j else j + 1];
    }
  }

  lemma FusedRuns(list: seq<int>, pages: seq<Page>, i: nat, pages': seq<Page>)
    requires InTable(list, |pages|) && Distinct(list) && i + 1 < |list| && |pages'| == |pages|
    requires pages'[list[i]].property == pages[list[i]].property + pages[list[i + 1]].property
    requires forall j :: 0 <= j < |list| && j != i && j != i + 1 ==> pages'[list[j]].property == pages[list[j]].property
    ensures InTable(list[..i + 1] + list[i + 2..], |pages'|)
    ensures
      var rs := RunsOf(list, pages);
      RunsOf(list[..i + 1] + list[i + 2..], pages') ==
        rs[..i] + [Run(rs[i].start, rs[i].len + rs[i + 1].len)] + rs[i + 2..]
  {
    var rs, list' := RunsOf(list, pages), list[..i + 1] + list[i + 2..];
    forall j | 0 <= j < |list'| ensures list'[j] == list[if j <= i then j else j + 1] { }
    var want := rs[..i] + [Run(rs[i].start, rs[i].len + rs[i + 1].len)] + rs[i + 2..];
    var got := RunsOf(list', pages');
    forall j | 0 <= j < |want| ensures got[j] == want[j] { }
  }

  /** The list and the descriptors fit together, in any order. */
  ghost predicate Table(list: seq<int>, pages: seq<Page>) {
    InTable(list, |pages|) && Distinct(list) && Marks(list, pages)
  }

  /** The block is a run of its own at place `k`. */
  lemma InsertedTable(list: seq<int>, pages: seq<Page>, base: int, n: int, k: nat, pages': seq<Page>)
    requires Table(list, pages) && k <= |list|
    requires 0 <= base < |pages| == |pages'| && n > 0 && base !in list
    requires pages'[base].head && pages'[base].property == n
    requires forall p :: 0 <= p < |pages| && p != base ==>
      pages'[p].head == pages[p].head && pages'[p].property == pages[p].property
    ensures Table(list[..k] + [base] + list[k..], pages')
  {
    var list' := list[..k] + [base] + list[k..];
    forall j | 0 <= j < |list'| ensures list'[j] == if j < k then list[j] else if j == k then base else list[j - 1] { }
    forall p | 0 <= p < |pages'| ensures p in list' <==> p == base || p in list { }
  }

  lemma InsertedRuns(list: seq<int>, pages: seq<Page>, base: int, k: nat, pages': seq<Page>)
    requires InTable(list, |pages|) && k <= |list| && 0 <= base < |pages'| == |pages|
    requires forall j :: 0 <= j < |list| ==> pages'[list[j]].property == pages[list[j]].property
    ensures InTable(list[..k] + [base] + list[k..], |pages'|)
    ensures RunsOf(list[..k] + [base] + list[k..], pages') ==
            RunsOf(list, pages)[..k] + [Run(base, pages'[base].property)] + RunsOf(list, pages)[k..]
  {
    var list' := list[..k] + [base] + list[k..];
    forall j | 0 <= j < |list'| ensures 0 <= list'[j] < |pages'| { }
    var want := RunsOf(list, pages)[..k] + [Run(base, pages'[base].property)] + RunsOf(list, pages)[k..];
    var got := RunsOf(list', pages');
    forall j | 0 <= j < |want| ensures got[j] == want[j] { }
  }

  /** What `FuseWithNext` does to a list written as three parts. */
  lemma FuseParts(a: seq<Run>, x: Run, y: Run, c: seq<Run>, rs: seq<Run>)
    requires rs == a + [x] + ([y] + c)
    ensures |a| + 1 < |rs| && rs[|a|] == x && rs[|a| + 1] == y
    ensures rs[..|a|] == a && rs[|a| + 2..] == c
  {
  }

  method FuseAt(list: seq<int>, pages: seq<Page>, ghost a: seq<Run>, ghost x: Run, ghost y: Run, ghost c: seq<Run>,
      i: nat)
    returns (list': seq<int>, pages': seq<Page>)
    requires Table(list, pages) && i == |a| && 0 < x.len && 0 < y.len
    requires RunsOf(list, pages) == a + [x] + ([y] + c)
    ensures Table(list', pages') && SameReserved(pages, pages')
    ensures RunsOf(list', pages') == a + [Run(x.start, x.len + y.len)] + c
  {
    FuseParts(a, x, y, c, RunsOf(list, pages));
    list', pages' := FuseWithNext(list, pages, i);
  }

  lemma LastFirst(a: seq<Run>, r: Run, c: seq<Run>, rs: seq<Run>)
    requires rs == a + [r] + c
    ensures rs[|a|] == r
    ensures a != [] ==> rs[|a| - 1] == a[|a| - 1] && rs == a[..|a| - 1] + [a[|a| - 1]] + ([r] + c)
    ensures c != [] ==> rs[|a| + 1] == c[0] && rs == a + [r] + ([c[0]] + c[1..])
  {
  }

  /** The runs before the block, after fusing with the last of them if it touches. */
  ghost function Before(a: seq<Run>, r: Run): seq<Run> {
    if Touches(a, r) then a[..|a| - 1] else a
  }

  ghost function Grown(a: seq<Run>, r: Run): Run {
    if Touches(a, r) then Run(a[|a| - 1].start, a[|a| - 1].len + r.len) else r
  }

  ghost predicate Touches(a: seq<Run>, r: Run) {
    a != [] && a[|a| - 1].End() == r.start
  }

  ghost predicate Positive(rs: seq<Run>) {
    forall j :: 0 <= j < |rs| ==> 0 < rs[j].len
  }

  /** The middle of `best_fit_free_pages`: the block at `k` is fused with the run before it. */
  method JoinPrevious(list: seq<int>, pages: seq<Page>, k: nat, ghost a: seq<Run>, ghost r: Run, ghost c: seq<Run>)
    returns (list': seq<int>, pages': seq<Page>, at: nat)
    requires Table(list, pages) && k == |a| && 0 < r.len && Positive(a)
    requires RunsOf(list, pages) == a + [r] + c
    ensures Table(list', pages') && SameReserved(pages, pages')
    ensures at == |Before(a, r)| && 0 < Grown(a, r).len
    ensures RunsOf(list', pages') == Before(a, r) + [Grown(a, r)] + c
  {
    LastFirst(a, r, c, RunsOf(list, pages));
    if k > 0 && list[k - 1] + pages[list[k - 1]].property == list[k] {
      list', pages' := FuseAt(list, pages, a[..k - 1], a[k - 1], r, c, k - 1);
      at := k - 1;
    } else {
      list', pages', at := list, pages, k;
    }
  }

  /** The end of `best_fit_free_pages`: the run at `at` is fused with the one after it. */
  method JoinNext(list: seq<int>, pages: seq<Page>, at: nat, ghost a: seq<Run>, ghost r: Run, ghost c: seq<Run>)
    returns (list': seq<int>, pages': seq<Page>)
    requires Table(list, pages) && at == |a| && 0 < r.len && Positive(c)
    requires RunsOf(list, pages) == a + [r] + c
    ensures Table(list', pages') && SameReserved(pages, pages')
    ensures RunsOf(list', pages') == a + Absorb(r, c)
  {
    LastFirst(a, r, c, RunsOf(list, pages));
    if at + 1 < |list| && list[at] + pages[list[at]].property == list[at + 1] {
      list', pages' := FuseAt(list, pages, a, r, c[0], c[1..], at);
      Shift(a, Run(r.start, r.len + c[0].len), c[1..]);
    } else {
      list', pages' := list, pages;
      Shift(a, r, c);
    }
  }

  lemma Shift(a: seq<Run>, r: Run, c: seq<Run>)
    ensures a + [r] + c == a + ([r] + c)
  {
  }

  ghost predicate SameReserved(pages: seq<Page>, pages': seq<Page>) {
    |pages'| == |pages| && forall p :: 0 <= p < |pages| ==> pages'[p].reserved == pages[p].reserved
  }

  /** The beginning of `best_fit_free_pages`: the block goes into the list by address. */
  method InsertBlock(list: seq<int>, pages: seq<Page>, base: int, n: int)
    returns (list': seq<int>, pages': seq<Page>, k: nat)
    requires Good(list, pages) && Releasable(RunsOf(list, pages), base, n)
    requires 0 <= base && base + n <= |pages|
    requires forall p :: base <= p < base + n ==> !pages[p].reserved
    ensures Table(list', pages') && SameReserved(pages, pages')
    ensures k <= |list| && k < |list'|
    ensures forall j :: 0 <= j < k ==> list[j] < base
    ensures k < |list| ==> list[k] >= base
    ensures RunsOf(list', pages') == RunsOf(list, pages)[..k] + [Run(base, n)] + RunsOf(list, pages)[k..]
  {
    GoodDistinct(list, pages);
    BlockUnlisted(list, pages, base, n);
    pages' := ClearBlock(list, pages, base, n);
    pages' := pages'[base := pages'[base].(property := n, head := true)];
    k := 0;
    while k < |list| && list[k] < base
      invariant 0 <= k <= |list|
      invariant forall j :: 0 <= j < k ==> list[j] < base
    {
      k := k + 1;
    }
    list' := list[..k] + [base] + list[k..];
    BlockStores(list, pages, base, n, pages');
    InsertedTable(list, pages, base, n, k, pages');
    InsertedRuns(list, pages, base, k, pages');
  }

  lemma BlockStores(list: seq<int>, pages: seq<Page>, base: int, n: int, pages': seq<Page>)
    requires Good(list, pages) && n > 0 && 0 <= base && base + n <= |pages| == |pages'|
    requires forall p :: base <= p < base + n ==> p !in list
    requires forall p :: 0 <= p < |pages| && p != base ==>
      pages'[p] == if base <= p < base + n then Page(false, false, 0, 0) else pages[p]
    ensures forall p :: 0 <= p < |pages| && p != base ==>
      pages'[p].head == pages[p].head && pages'[p].property == pages[p].property
    ensures forall j :: 0 <= j < |list| ==> pages'[list[j]].property == pages[list[j]].property
  {
    forall j | 0 <= j < |list| ensures list[j] != base { assert list[j] in list; }
  }

  /** `best_fit_free_pages` on the list and the descriptors. */
  method PutBack(list: seq<int>, pages: seq<Page>, base: int, n: int) returns (list': seq<int>, pages': seq<Page>)
    requires Good(list, pages) && Releasable(RunsOf(list, pages), base, n)
    requires 0 <= base && base + n <= |pages|
    requires forall p :: base <= p < base + n ==> !pages[p].reserved
    ensures Good(list', pages') && SameReserved(pages, pages')
    ensures RunsOf(list', pages') == Release(RunsOf(list, pages), base, n)
  {
    ghost var rs, r := RunsOf(list, pages), Run(base, n);
    var k, at;
    list', pages', k := InsertBlock(list, pages, base, n);
    ghost var a, c := rs[..k], rs[k..];
    PositiveRuns(rs, k);
    list', pages', at := JoinPrevious(list', pages', k, a, r, c);
    list', pages' := JoinNext(list', pages', at, Before(a, r), Grown(a, r), c);
    ReleasedAt(rs, base, n, k);
    PutBackGood(list, pages, base, n, list', pages');
  }

  lemma PutBackGood(list: seq<int>, pages: seq<Page>, base: int, n: int, list': seq<int>, pages': seq<Page>)
    requires Good(list, pages) && Releasable(RunsOf(list, pages), base, n)
    requires 0 <= base && base + n <= |pages|
    requires forall p :: base <= p < base + n ==> !pages[p].reserved
    requires Table(list', pages') && SameReserved(pages, pages')
    requires RunsOf(list', pages') == Release(RunsOf(list, pages), base, n)
    ensures Good(list', pages')
  {
    var rs := RunsOf(list, pages);
    ReleaseGood(rs, pages, base, n);
    InsideSame(Release(rs, base, n), pages, pages');
  }

  lemma ReleasedAt(rs: seq<Run>, base: int, n: int, k: nat)
    requires Canonical(rs) && k <= |rs|
    requires forall i :: 0 <= i < k ==> rs[i].start < base
    requires k < |rs| ==> rs[k].start >= base
    ensures Release(rs, base, n) == Before(rs[..k], Run(base, n)) + Absorb(Grown(rs[..k], Run(base, n)), rs[k..])
  {
    if k > 0 && rs[k - 1].End() == base {
      ReleasedTouching(rs, base, n, k);
      BeforeAt(rs, Run(base, n), k);
    } else {
      ReleasedApart(rs, base, n, k);
    }
  }

  lemma ReleasedApart(rs: seq<Run>, base: int, n: int, k: nat)
    requires Canonical(rs) && k <= |rs| && !(k > 0 && rs[k - 1].End() == base)
    requires forall i :: 0 <= i < k ==> rs[i].start < base
    requires k < |rs| ==> rs[k].start >= base
    ensures Release(rs, base, n) == Before(rs[..k], Run(base, n)) + Absorb(Grown(rs[..k], Run(base, n)), rs[k..])
  {
    BeforeAt(rs, Run(base, n), k);
    ReleaseApart(rs, -1, base, n, k);
  }

  lemma ReleasedTouching(rs: seq<Run>, base: int, n: int, k: nat)
    requires Canonical(rs) && 0 < k <= |rs| && rs[k - 1].End() == base
    requires forall i :: 0 <= i < k ==> rs[i].start < base
    ensures Release(rs, base, n) == rs[..k - 1] + Absorb(Run(rs[k - 1].start, rs[k - 1].len + n), rs[k..])
  {
    ReleaseTouching(rs, -1, base, n, k - 1);
  }

  lemma BeforeAt(rs: seq<Run>, r: Run, k: nat)
    requires k <= |rs|
    ensures k > 0 && rs[k - 1].End() == r.start ==>
      Before(rs[..k], r) == rs[..k - 1] && Grown(rs[..k], r) == Run(rs[k - 1].start, rs[k - 1].len + r.len)
    ensures !(k > 0 && rs[k - 1].End() == r.start) ==> Before(rs[..k], r) == rs[..k] && Grown(rs[..k], r) == r
  {
    if k > 0 { assert rs[..k][k - 1] == rs[k - 1] && rs[..k][..k - 1] == rs[..k - 1]; }
  }

  lemma PositiveRuns(rs: seq<Run>, k: nat)
    requires Canonical(rs) && k <= |rs|
    ensures Positive(rs[..k]) && Positive(rs[k..])
  {
    forall j | 0 <= j < |rs| ensures 0 < rs[j].len { RunFits(rs, -1, j); }
  }

  lemma InsideSame(rs: seq<Run>, pages: seq<Page>, pages': seq<Page>)
    requires Inside(rs, pages) && SameReserved(pages, pages')
    ensures Inside(rs, pages')
  {
  }

  lemma ReleaseGood(rs: seq<Run>, pages: seq<Page>, base: int, n: int)
    requires Canonical(rs) && Inside(rs, pages) && Releasable(rs, base, n) && 0 <= base && base + n <= |pages|
    requires forall p :: base <= p < base + n ==> !pages[p].reserved
    ensures Canonical(Release(rs, base, n)) && Inside(Release(rs, base, n), pages)
  {
    ReleaseAbove(rs, base, n, -1);
    forall p | Free(Release(rs, base, n), p) ensures 0 <= p < |pages| && !pages[p].reserved {
      ReleaseFree(rs, base, n, -1, p);
    }
  }
}
