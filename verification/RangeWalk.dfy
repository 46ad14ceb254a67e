/** del_range and copy_range (kernel/mm/pmm.c): walks over an address range that
    skip 512 bytes at a time where a table is missing. */
module RangeWalk {
  import opened Prelude
  import opened Words
  import opened PageTable
  import opened Paging

  const PtSize: int := 512

  /** The address of a page. */
  function Addr(k: Vp): int { Address(k.g, k.m, k.p, 0) }

  ghost predicate InRange(k: Vp, root: int, lo: int, hi: int) {
    k.r == root && lo <= Addr(k) < hi
  }

  /** `user_access` of a range of whole pages. */
  ghost predicate PageRange(start: int, end: int) {
    start % PageSize == 0 && end % PageSize == 0 && UserBegin <= start < end <= UserEnd
  }

  /** Keys of a flat map have table indices. */
  ghost predicate Indexed(flat: Flat) {
    forall k :: k in flat ==> 0 <= k.g < UserRoots && 0 <= k.m < Entries && 0 <= k.p < Entries
  }

  /** A step of the walk, by 512 bytes or from one page to the next. */
  ghost predicate IsStep(s: int, s': int) {
    && 0 <= s < UserEnd && s % PtSize == 0
    && (s' == s + PtSize || (s % PageSize == 0 && s' == s + PageSize))
  }

  /** The only page whose address a step passes is the one it starts at. */
  lemma Passed(k: Vp, s: int, s': int)
    requires IsStep(s, s') && 0 <= k.g < UserRoots && 0 <= k.m < Entries && 0 <= k.p < Entries
    ensures s <= Addr(k) < s' ==> Addr(k) == s && k == PageOf(k.r, s)
    ensures s % PageSize == 0 && k == PageOf(k.r, s) ==> Addr(k) == s
  {
    var a := Addr(k);
    Aligned(k);
    if s <= a < s' { OnlyBoundary(s, s', a); }
    JoinThenSplit(k.g, k.m, k.p, 0);
    if s % PageSize == 0 { SplitThenJoin(s); }
  }

  lemma OnlyBoundary(s: int, s': int, a: int)
    requires IsStep(s, s') && a % PageSize == 0 && s <= a < s'
    ensures a == s
  {
  }

  /** A skip that does not reach the next page stays in the page. */
  lemma SamePage(root: int, s: int)
    requires 0 <= s < UserEnd && s % PtSize == 0 && (s + PtSize) % PageSize != 0
    ensures PageOf(root, s + PtSize) == PageOf(root, s)
  {
    var v := s / PageSize;
    assert (s + PtSize) / PageSize == v;
    HighPart(v, s % PageSize);
    HighPart(v, (s + PtSize) % PageSize);
  }

  /** A step adds its page to the range covered, if it starts at a page. */
  ghost predicate Grown(k: Vp, root: int, lo: int, s: int, s': int, aligned: bool, here: Vp) {
    && (InRange(k, root, lo, s') <==> InRange(k, root, lo, s) || (aligned && k == here))
    && (aligned && k == here ==> !InRange(k, root, lo, s))
  }

  lemma RangeGrows(k: Vp, root: int, lo: int, s: int, s': int)
    requires IsStep(s, s') && lo <= s && 0 <= k.g < UserRoots && 0 <= k.m < Entries && 0 <= k.p < Entries
    ensures Grown(k, root, lo, s, s', s % PageSize == 0, PageOf(root, s))
  {
    Passed(k, s, s');
    if s <= Addr(k) < s' { Aligned(k); }
  }

  lemma Aligned(k: Vp)
    ensures Addr(k) % PageSize == 0
  {
    assert Addr(k) == PageSize * (k.g * 0x40000 + k.m * 512 + k.p);
  }

  // ------------------------------------------------------------------- del_range

  /** The entries of `root` in the range that were valid are 0; the others are as they were. */
  ghost predicate Deleted(flat0: Flat, flat: Flat, root: int, lo: int, hi: int) {
    var ok := forall k :: Word(flat, k) == if InRange(k, root, lo, hi) && IsValid(Word(flat0, k)) then 0
      else Word(flat0, k);
    ok
  }

  lemma DeletedStep(flat0: Flat, flat: Flat, flat': Flat, root: int, lo: int, s: int, s': int)
    requires Indexed(flat0) && Deleted(flat0, flat, root, lo, s) && lo <= s && IsStep(s, s')
    requires s % PageSize != 0 ==> flat' == flat
    requires s % PageSize == 0 ==>
      flat' == if IsValid(Word(flat, PageOf(root, s))) then Put(flat, PageOf(root, s), 0) else flat
    ensures Deleted(flat0, flat', root, lo, s')
  {
    forall k | k in flat0 ensures Grown(k, root, lo, s, s', s % PageSize == 0, PageOf(root, s)) {
      RangeGrows(k, root, lo, s, s');
    }
    DeletedAt(flat0, flat, flat', root, lo, s, s', s % PageSize == 0, PageOf(root, s));
  }

  lemma DeletedAt(flat0: Flat, flat: Flat, flat': Flat, root: int, lo: int, s: int, s': int, aligned: bool, here: Vp)
    requires Deleted(flat0, flat, root, lo, s)
    requires forall k :: k in flat0 ==> Grown(k, root, lo, s, s', aligned, here)
    requires flat' == if aligned && IsValid(Word(flat, here)) then Put(flat, here, 0) else flat
    ensures Deleted(flat0, flat', root, lo, s')
  {
    forall k ensures Word(flat', k) == if InRange(k, root, lo, s') && IsValid(Word(flat0, k)) then 0
      else Word(flat0, k) {
      assert Word(flat, k) == if InRange(k, root, lo, s) && IsValid(Word(flat0, k)) then 0 else Word(flat0, k);
      if k in flat0 { assert Grown(k, root, lo, s, s', aligned, here); }
    }
  }

  /** The skip of both walks. */
  lemma Skips(s: int)
    requires 0 <= s && s % PtSize == 0
    ensures RoundDown(s + PtSize, PtSize) == s + PtSize
  {
  }

  /** No valid entry was made. */
  ghost predicate Shrinks(flat: Flat, flat': Flat) {
    var ok := forall f :: Refs(flat', f) <= Refs(flat, f);
    ok
  }

  lemma FreedTwice(mem: Mem, where: Where, flat0: Flat, free0: set<int>, mem1: Mem, flat1: Flat, free1: set<int>,
      flat2: Flat, free2: set<int>)
    requires FreedWhenLast(mem, where, flat0, free0, flat1, free1) &&
      FreedWhenLast(mem1, where, flat1, free1, flat2, free2)
    requires mem1.Keys == mem.Keys && free0 <= free1 <= free2 && Shrinks(flat0, flat1) && Shrinks(flat1, flat2)
    ensures FreedWhenLast(mem, where, flat0, free0, flat2, free2) && Shrinks(flat0, flat2)
  {
    forall f | Usable(mem, where, free0, f) ensures f in free2 <==> Refs(flat0, f) != {} && Refs(flat2, f) == {} {
      assert f in free1 || Usable(mem1, where, free1, f);
    }
  }

  lemma PutShrinks(flat: Flat, k: Vp)
    ensures Shrinks(flat, Put(flat, k, 0)) && Shrinks(flat, flat)
  {
  }

  /** How far a walk that deletes has come: up to address `s`. */
  ghost predicate Progress(mem0: Mem, where: Where, flat0: Flat, free0: set<int>, mem: Mem, flat: Flat,
      free: set<int>, root: int, lo: int, s: int) {
    var ok :=
      && mem.Keys == mem0.Keys && free0 <= free && Shrinks(flat0, flat)
      && FreedWhenLast(mem0, where, flat0, free0, flat, free)
      && Deleted(flat0, flat, root, lo, s);
    ok
  }

  /** Where a walk may stand between two iterations. */
  ghost predicate Stands(mem: Mem, root: int, s: int, end: int) {
    var ok := s <= end && s % PtSize == 0 && end % PageSize == 0 &&
      (s % PageSize != 0 ==> LeafTable(mem, PageOf(root, s)) == -1);
    ok
  }

  lemma ProgressStep(mem0: Mem, where: Where, flat0: Flat, free0: set<int>, mem: Mem, flat: Flat, free: set<int>,
      root: int, lo: int, s: int,
      mem': Mem, flat': Flat, free': set<int>, s': int)
    requires Progress(mem0, where, flat0, free0, mem, flat, free, root, lo, s)
    requires Indexed(flat0) && lo <= s && IsStep(s, s')
    requires s % PageSize != 0 ==> flat' == flat
    requires s % PageSize == 0 ==>
      flat' == if IsValid(Word(flat, PageOf(root, s))) then Put(flat, PageOf(root, s), 0) else flat
    requires mem'.Keys == mem.Keys && free <= free' && FreedWhenLast(mem, where, flat, free, flat', free')
    ensures Progress(mem0, where, flat0, free0, mem', flat', free', root, lo, s')
  {
    PutShrinks(flat, PageOf(root, s));
    FreedTwice(mem0, where, flat0, free0, mem, flat, free, flat', free');
    DeletedStep(flat0, flat, flat', root, lo, s, s');
  }

  lemma StandsFirst(mem: Mem, root: int, start: int, end: int)
    requires PageRange(start, end)
    ensures Stands(mem, root, start, end) && 0 < start < end <= UserEnd
  {
    var a := start / PageSize;
    assert start == PageSize * a && PageSize * a == PtSize * (8 * a);
  }

  lemma StandsSkip(mem: Mem, root: int, s: int, end: int)
    requires Stands(mem, root, s, end) && 0 <= s < end <= UserEnd && LeafTable(mem, PageOf(root, s)) == -1
    ensures Stands(mem, root, s + PtSize, end) && IsStep(s, s + PtSize)
    ensures RoundDown(s + PtSize, PtSize) == s + PtSize
  {
    Skips(s);
    NextStop(s, end);
    if (s + PtSize) % PageSize != 0 { SamePage(root, s); }
  }

  lemma NextStop(s: int, end: int)
    requires s < end && s % PtSize == 0 && end % PageSize == 0
    ensures s + PtSize <= end && (s + PtSize) % PtSize == 0
    ensures s % PageSize == 0 ==> s + PageSize <= end && (s + PageSize) % PageSize == 0 && (s + PageSize) % PtSize == 0
  {
    var a, b := s / PtSize, end / PageSize;
    assert s == PtSize * a && end == PtSize * (8 * b);
    Stop(a, b);
    if s % PageSize == 0 {
      assert s == PageSize * (s / PageSize);
      PageStop(s / PageSize, b);
    }
  }

  lemma Stop(a: int, b: int)
    requires a < 8 * b
    ensures PtSize * a + PtSize <= PageSize * b && (PtSize * a + PtSize) % PtSize == 0
  {
    assert a + 1 <= 8 * b;
    Scale(a + 1, 8 * b);
    Whole(a + 1, PtSize);
  }

  lemma Scale(a: int, b: int)
    requires a <= b
    ensures 512 * a <= 512 * b
  {
  }

  lemma PageStop(a: int, b: int)
    requires a < b
    ensures PageSize * a + PageSize <= PageSize * b
    ensures (PageSize * a + PageSize) % PageSize == 0 && (PageSize * a + PageSize) % PtSize == 0
  {
    Whole(a + 1, PageSize);
    Whole(8 * (a + 1), PtSize);
  }

  lemma Whole(k: int, d: int)
    requires d == PtSize || d == PageSize
    ensures (d * k) % d == 0
  {
  }

  lemma StandsPage(mem: Mem, root: int, s: int, end: int, mem': Mem)
    requires Stands(mem, root, s, end) && 0 <= s < end <= UserEnd && LeafTable(mem, PageOf(root, s)) != -1
    ensures s % PageSize == 0 && Stands(mem', root, s + PageSize, end) && IsStep(s, s + PageSize)
  {
    NextStop(s, end);
  }

  lemma KeysIndexed(mem: Mem, where: Where, flat: Flat)
    requires Refines(mem, where, flat)
    ensures Indexed(flat)
  {
    forall k | k in flat ensures User(where, k) { }
  }

  /** One iteration of `del_range`; the result is the new `start`. */
  method DelHere(mmu: Mmu, root: int, s: int, end: int, ghost lo: int, ghost mem0: Mem, ghost flat0: Flat,
      ghost free0: set<int>)
    returns (s': int)
    requires mmu.Valid() && Is(mmu.where, root, Root(root)) && 0 <= lo <= s < end <= UserEnd && Indexed(flat0)
    requires Stands(mmu.mem, root, s, end)
    requires Progress(mem0, mmu.where, flat0, free0, mmu.mem, mmu.flat, mmu.free, root, lo, s)
    modifies mmu
    ensures mmu.Valid() && mmu.where == old(mmu.where) && s < s'
    ensures Stands(mmu.mem, root, s', end)
    ensures Progress(mem0, mmu.where, flat0, free0, mmu.mem, mmu.flat, mmu.free, root, lo, s')
  {
    ghost var flat1, mem1, free1 := mmu.flat, mmu.mem, mmu.free;
    Unchanged(mem1, mmu.where, flat1, free1);
    var t, i := FindPte(mmu.mem, mmu.where, mmu.flat, root, s);
    if t == -1 {
      StandsSkip(mem1, root, s, end);
      s' := RoundDown(s + PtSize, PtSize);
    } else {
      if mmu.mem[t][i] != 0 {
        mmu.DelPage(root, s, -1);
      }
      StandsPage(mem1, root, s, end, mmu.mem);
      s' := s + PageSize;
    }
    ProgressStep(mem0, mmu.where, flat0, free0, mem1, flat1, free1, root, lo, s, mmu.mem, mmu.flat, mmu.free, s');
  }

  /** `del_range`: it leaves no valid entry in the range, and ends exactly at `end`. */
  method DelRange(mmu: Mmu, root: int, start: int, end: int)
    requires mmu.Valid() && Is(mmu.where, root, Root(root)) && PageRange(start, end)
    modifies mmu
    ensures mmu.Valid() && mmu.where == old(mmu.where)
    ensures Deleted(old(mmu.flat), mmu.flat, root, start, end)
    ensures FreedWhenLast(old(mmu.mem), mmu.where, old(mmu.flat), old(mmu.free), mmu.flat, mmu.free)
  {
    ghost var mem0, flat0, free0, where := mmu.mem, mmu.flat, mmu.free, mmu.where;
    Unchanged(mem0, where, flat0, free0);
    KeysIndexed(mem0, where, flat0);
    PutShrinks(flat0, PageOf(root, start));
    StandsFirst(mem0, root, start, end);
    var s := DelHere(mmu, root, start, end, start, mem0, flat0, free0);
    while s != 0 && s < end
      invariant mmu.Valid() && mmu.where == where && start < s
      invariant Stands(mmu.mem, root, s, end)
      invariant Progress(mem0, where, flat0, free0, mmu.mem, mmu.flat, mmu.free, root, start, s)
      decreases end - s
    {
      s := DelHere(mmu, root, s, end, start, mem0, flat0, free0);
    }
  }
}
