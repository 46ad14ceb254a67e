/** copy_range (kernel/mm/pmm.c): the user pages of one address space are copied
    into another. */
module CopyWalk {
  import opened Prelude
  import opened Words
  import opened PageTable
  import opened Paging
  import opened RangeWalk

  /** How copy_range ends; `AssertFailed` is its assertion that a new page was found. */
  datatype Outcome = Copied | NoMemory | AssertFailed

  /** The page of `from` at the address of `k`. */
  function Src(from: int, k: Vp): Vp { Vp(from, k.g, k.m, k.p) }

  /** Page `k` has a frame of its own with the bytes and user flags of its source. */
  ghost predicate CopyAt(mem0: Mem, mem: Mem, flat: Flat, s: nat, k: Vp) {
    && k in flat && Ppn(flat[k]) in mem && Ppn(s) in mem0
    && mem[Ppn(flat[k])] == mem0[Ppn(s)]
    && Flags(flat[k]) == s % 32
    && Refs(flat, Ppn(flat[k])) == {k}
    && Ppn(flat[k]) != Ppn(s)
  }

  ghost predicate KeyCopied(mem0: Mem, flat0: Flat, mem: Mem, flat: Flat, from: int, to: int, lo: int, hi: int, k: Vp) {
    if InRange(k, to, lo, hi) && IsValid(Word(flat0, Src(from, k)))
      then CopyAt(mem0, mem, flat, Word(flat0, Src(from, k)), k)
    else Word(flat, k) == Word(flat0, k)
  }

  /** The valid pages of `from` with addresses in the range are copied, and nothing else is changed. */
  ghost predicate CopiedTo(mem0: Mem, flat0: Flat, mem: Mem, flat: Flat, from: int, to: int, lo: int, hi: int) {
    var ok := forall k :: KeyCopied(mem0, flat0, mem, flat, from, to, lo, hi, k);
    ok
  }

  /** The contents of the source are what they were. */
  ghost predicate SourceKept(mem0: Mem, flat0: Flat, mem: Mem, from: int) {
    var ok := forall k :: k in flat0 && k.r == from && IsValid(flat0[k]) ==>
      Ppn(flat0[k]) in mem0 && Ppn(flat0[k]) in mem && mem[Ppn(flat0[k])] == mem0[Ppn(flat0[k])];
    ok
  }

  /** A step that stores nothing. */
  lemma CopyNothing(mem0: Mem, flat0: Flat, mem: Mem, flat: Flat, from: int, to: int, lo: int, s: int, s': int,
      aligned: bool, here: Vp)
    requires CopiedTo(mem0, flat0, mem, flat, from, to, lo, s) && from != to
    requires forall k :: Src(from, k) in flat0 ==> Grown(k, to, lo, s, s', aligned, here)
    requires aligned ==> !IsValid(Word(flat0, Src(from, here)))
    ensures CopiedTo(mem0, flat0, mem, flat, from, to, lo, s')
  {
    forall k ensures KeyCopied(mem0, flat0, mem, flat, from, to, lo, s', k) {
      if Src(from, k) in flat0 { assert Grown(k, to, lo, s, s', aligned, here); }
      assert KeyCopied(mem0, flat0, mem, flat, from, to, lo, s, k);
    }
  }

  /** A copy of another page leaves the copy at `k` as it is. */
  lemma CopyStays(mem0: Mem, mem: Mem, where: Where, flat: Flat, free: set<int>, ref: map<int, int>, s: nat, k: Vp,
      mem': Mem, here: Vp, w: nat)
    requires CopyAt(mem0, mem, flat, s, k) && k != here && Refs(flat, Ppn(w)) == {}
    requires Owned(mem, where, flat, ref, free, -1) && SameData(mem, where, free, mem')
    ensures CopyAt(mem0, mem', flat[here := w], s, k)
  {
    var n := Ppn(flat[k]);
    assert k in Refs(flat, n);
    assert here !in Refs(flat, n);
    assert Refs(flat[here := w], n) == {k};
    assert Usable(mem, where, free, n);
  }

  /** The page just copied. */
  lemma CopyMade(mem0: Mem, flat0: Flat, mem: Mem, flat: Flat, from: int, here: Vp, mem': Mem, w: nat)
    requires SourceKept(mem0, flat0, mem, from)
    requires Word(flat, Src(from, here)) == Word(flat0, Src(from, here)) && IsValid(Word(flat0, Src(from, here)))
    requires Refs(flat, Ppn(w)) == {} && IsValid(w) && Flags(w) == Word(flat0, Src(from, here)) % 32
    requires Ppn(w) in mem' && Ppn(Word(flat0, Src(from, here))) in mem &&
      mem'[Ppn(w)] == mem[Ppn(Word(flat0, Src(from, here)))]
    ensures CopyAt(mem0, mem', flat[here := w], Word(flat0, Src(from, here)), here)
  {
    var s := Word(flat0, Src(from, here));
    assert Src(from, here) in flat0 && flat0[Src(from, here)] == s;
    assert Src(from, here) in Refs(flat, Ppn(s));
    assert Refs(flat[here := w], Ppn(w)) == {here};
  }

  lemma SourceStays(mem0: Mem, flat0: Flat, mem: Mem, where: Where, flat: Flat, ref: map<int, int>, free: set<int>,
      from: int, mem': Mem)
    requires SourceKept(mem0, flat0, mem, from) && Owned(mem, where, flat, ref, free, -1) &&
      SameData(mem, where, free, mem')
    requires forall k: Vp :: k.r == from ==> Word(flat, k) == Word(flat0, k)
    ensures SourceKept(mem0, flat0, mem', from)
  {
    forall k | k in flat0 && k.r == from && IsValid(flat0[k])
      ensures Ppn(flat0[k]) in mem0 && Ppn(flat0[k]) in mem' && mem'[Ppn(flat0[k])] == mem0[Ppn(flat0[k])]
    {
      assert Word(flat, k) == Word(flat0, k);
      assert Usable(mem, where, free, Ppn(flat[k]));
    }
  }

  /** A step that copies the page it stands at. */
  lemma CopyOne(mem0: Mem, flat0: Flat, mem: Mem, where: Where, flat: Flat, ref: map<int, int>, free: set<int>,
      from: int, to: int, lo: int, s: int, s': int, here: Vp, mem': Mem, w: nat)
    requires CopiedTo(mem0, flat0, mem, flat, from, to, lo, s) && from != to && here.r == to
    requires SourceKept(mem0, flat0, mem, from) && IsValid(Word(flat0, Src(from, here)))
    requires forall k :: Src(from, k) in flat0 ==> Grown(k, to, lo, s, s', true, here)
    requires Owned(mem, where, flat, ref, free, -1) && SameData(mem, where, free, mem')
    requires Refs(flat, Ppn(w)) == {} && IsValid(w) && Flags(w) == Word(flat0, Src(from, here)) % 32
    requires Ppn(w) in mem' && Ppn(Word(flat0, Src(from, here))) in mem &&
      mem'[Ppn(w)] == mem[Ppn(Word(flat0, Src(from, here)))]
    ensures CopiedTo(mem0, flat0, mem', flat[here := w], from, to, lo, s')
  {
    var flat' := flat[here := w];
    assert KeyCopied(mem0, flat0, mem, flat, from, to, lo, s, Src(from, here));
    CopyMade(mem0, flat0, mem, flat, from, here, mem', w);
    forall k ensures KeyCopied(mem0, flat0, mem', flat', from, to, lo, s', k) {
      assert KeyCopied(mem0, flat0, mem, flat, from, to, lo, s, k);
      if Src(from, k) in flat0 { assert Grown(k, to, lo, s, s', true, here); }
      if k != here && InRange(k, to, lo, s) && IsValid(Word(flat0, Src(from, k))) {
        CopyStays(mem0, mem, where, flat, free, ref, Word(flat0, Src(from, k)), k, mem', here, w);
      }
    }
  }

  // -------------------------------------------------------------------- the walk

  lemma CopyEntry(n: nat, s: nat)
    requires IsValid(s)
    ensures s % 32 < 1024
    ensures
      var w := Pte(n, WithV(s % 32));
      IsValid(w) && Ppn(w) == n && Flags(w) == s % 32
  {
    var f := s % 32;
    assert f % 2 == 1;
    EntryParts(n, f);
  }

  lemma GrowsTwice(where: Where, free: set<int>, where1: Where, free1: set<int>, where2: Where)
    requires Grows(where, free, where1) && Grows(where1, free1, where2) && free1 <= free
    ensures Grows(where, free, where2)
  {
  }

  /** The body of the loop of `copy_range` for a valid source entry `word`. */
  method CopyPage(mmu: Mmu, from: int, to: int, addr: int, word: nat) returns (r: Outcome, ghost w: nat)
    requires mmu.Valid() && Is(mmu.where, from, Root(from)) && Is(mmu.where, to, Root(to)) && 0 <= addr < UserEnd
    requires word == Word(mmu.flat, PageOf(from, addr)) && IsValid(word)
    modifies mmu
    ensures mmu.Valid() && mmu.mem.Keys == old(mmu.mem.Keys) && Ppn(word) in mmu.mem
    ensures r == Copied ==>
      && mmu.flat == old(mmu.flat)[PageOf(to, addr) := w]
      && IsValid(w) && Flags(w) == word % 32 && old(Refs(mmu.flat, Ppn(w))) == {}
      && Ppn(w) in mmu.mem && mmu.mem[Ppn(w)] == old(mmu.mem)[Ppn(word)]
    ensures r != Copied ==> mmu.flat == old(mmu.flat) && mmu.free == {}
    ensures SameData(old(mmu.mem), old(mmu.where), old(mmu.free), mmu.mem)
    ensures Grows(old(mmu.where), old(mmu.free), mmu.where)
  {
    w := 0;
    ghost var mem0, where0, free0 := mmu.mem, mmu.where, mmu.free;
    var newPage;
    r, newPage := NewCopy(mmu, from, to, addr, word);
    if r != Copied { return; }
    ghost var mem1, where1, free1 := mmu.mem, mmu.where, mmu.free;
    CopyEntry(newPage, word);
    var ret := mmu.AddPage(to, newPage, addr, word % 32);
    assert ret == 0;
    w := Pte(newPage, WithV(word % 32));
    SameThrough(mem0, where0, free0, mem1, where1, free1, mmu.mem);
    GrowsTwice(where0, free0, where1, free1, mmu.where);
  }

  /** The table for the copy, and a new frame with the contents of the old one. */
  method NewCopy(mmu: Mmu, from: int, to: int, addr: int, word: nat) returns (r: Outcome, newPage: int)
    requires mmu.Valid() && Is(mmu.where, to, Root(to)) && 0 <= addr < UserEnd
    requires word == Word(mmu.flat, PageOf(from, addr)) && IsValid(word)
    modifies mmu
    ensures mmu.Valid() && mmu.flat == old(mmu.flat) && mmu.free <= old(mmu.free) && Ppn(word) in mmu.mem
    ensures r == Copied ==>
      && Usable(mmu.mem, mmu.where, mmu.free, newPage) && Refs(mmu.flat, newPage) == {}
      && mmu.mem[newPage] == old(mmu.mem)[Ppn(word)]
      && LeafTable(mmu.mem, PageOf(to, addr)) != -1
    ensures r != Copied ==> mmu.free == {}
    ensures SameData(old(mmu.mem), old(mmu.where), old(mmu.free), mmu.mem)
    ensures Grows(old(mmu.where), old(mmu.free), mmu.where)
  {
    newPage := -1;
    ghost var mem0, where0, free0 := mmu.mem, mmu.where, mmu.free;
    InUse(mem0, where0, mmu.flat, mmu.ref, free0, PageOf(from, addr));
    var t, i := mmu.GetPte(to, addr, true, -1);
    if t == -1 { return NoMemory, newPage; }
    ghost var mem1, where1, free1 := mmu.mem, mmu.where, mmu.free;
    var page := Ppn(word);
    assert mem1[page] == mem0[page];
    newPage := Duplicate(mmu, page, PageOf(to, addr));
    SameThrough(mem0, where0, free0, mem1, where1, free1, mmu.mem);
    r := if newPage == -1 then AssertFailed else Copied;
  }

  /** `alloc_page` and `memcpy`: a new frame with the contents of `page`. */
  method Duplicate(mmu: Mmu, page: int, ghost k: Vp) returns (newPage: int)
    requires mmu.Valid() && page in mmu.mem && User(mmu.where, k)
    modifies mmu`free, mmu`mem
    ensures mmu.Valid() && mmu.free <= old(mmu.free)
    ensures newPage != -1 ==>
      && Usable(mmu.mem, mmu.where, mmu.free, newPage) && Refs(mmu.flat, newPage) == {}
      && mmu.mem[newPage] == old(mmu.mem)[page]
    ensures newPage == -1 ==> mmu.free == {}
    ensures LeafTable(mmu.mem, k) == old(LeafTable(mmu.mem, k))
    ensures SameData(old(mmu.mem), mmu.where, old(mmu.free), mmu.mem)
  {
    newPage := mmu.AllocPage(-1);
    if newPage == -1 {
      Unchanged(mmu.mem, mmu.where, mmu.flat, mmu.free);
      return;
    }
    mmu.CopyFrame(newPage, page);
    assert mmu.free + {newPage} == old(mmu.free);
  }

  lemma InUse(mem: Mem, where: Where, flat: Flat, ref: map<int, int>, free: set<int>, k: Vp)
    requires Owned(mem, where, flat, ref, free, -1) && IsValid(Word(flat, k))
    ensures Usable(mem, where, free, Ppn(Word(flat, k)))
  {
    assert k in flat;
  }

  /** How far the walk has come: up to address `s`. */
  ghost predicate CopyProgress(mem0: Mem, flat0: Flat, mem: Mem, flat: Flat, from: int, to: int, lo: int, s: int) {
    var ok :=
      && mem.Keys == mem0.Keys && SourceKept(mem0, flat0, mem, from)
      && CopiedTo(mem0, flat0, mem, flat, from, to, lo, s);
    ok
  }

  lemma AllGrown(flat0: Flat, from: int, to: int, lo: int, s: int, s': int)
    requires Indexed(flat0) && IsStep(s, s') && lo <= s
    ensures forall k :: Src(from, k) in flat0 ==> Grown(k, to, lo, s, s', s % PageSize == 0, PageOf(to, s))
  {
    forall k | Src(from, k) in flat0 ensures Grown(k, to, lo, s, s', s % PageSize == 0, PageOf(to, s)) {
      RangeGrows(k, to, lo, s, s');
    }
  }

  /** The source entries are those at the start. */
  lemma SourceWord(mem0: Mem, flat0: Flat, mem: Mem, flat: Flat, from: int, to: int, lo: int, s: int)
    requires CopiedTo(mem0, flat0, mem, flat, from, to, lo, s) && from != to
    ensures forall k: Vp :: k.r == from ==> Word(flat, k) == Word(flat0, k)
  {
    forall k: Vp | k.r == from ensures Word(flat, k) == Word(flat0, k) {
      assert KeyCopied(mem0, flat0, mem, flat, from, to, lo, s, k);
    }
  }

  lemma NothingStep(mem0: Mem, flat0: Flat, mem: Mem, flat: Flat, from: int, to: int, lo: int, s: int, s': int)
    requires CopyProgress(mem0, flat0, mem, flat, from, to, lo, s) && from != to
    requires Indexed(flat0) && IsStep(s, s') && lo <= s
    requires !IsValid(Word(flat, PageOf(from, s)))
    ensures CopyProgress(mem0, flat0, mem, flat, from, to, lo, s')
  {
    SourceWord(mem0, flat0, mem, flat, from, to, lo, s);
    AllGrown(flat0, from, to, lo, s, s');
    CopyNothing(mem0, flat0, mem, flat, from, to, lo, s, s', s % PageSize == 0, PageOf(to, s));
  }

  lemma OneStep(mem0: Mem, flat0: Flat, mem: Mem, where: Where, flat: Flat, ref: map<int, int>, free: set<int>,
      from: int, to: int, lo: int, s: int, mem': Mem, w: nat)
    requires CopyProgress(mem0, flat0, mem, flat, from, to, lo, s) && from != to
    requires Indexed(flat0) && 0 <= s < UserEnd && s % PageSize == 0 && lo <= s
    requires IsValid(Word(flat, PageOf(from, s)))
    requires Owned(mem, where, flat, ref, free, -1) && SameData(mem, where, free, mem')
    requires Refs(flat, Ppn(w)) == {} && IsValid(w) && Flags(w) == Word(flat, PageOf(from, s)) % 32
    requires Ppn(w) in mem' && Ppn(Word(flat, PageOf(from, s))) in mem &&
      mem'[Ppn(w)] == mem[Ppn(Word(flat, PageOf(from, s)))]
    ensures CopyProgress(mem0, flat0, mem', flat[PageOf(to, s) := w], from, to, lo, s + PageSize)
  {
    var here := PageOf(to, s);
    assert Src(from, here) == PageOf(from, s);
    AtPage(s);
    SourceWord(mem0, flat0, mem, flat, from, to, lo, s);
    AllGrown(flat0, from, to, lo, s, s + PageSize);
    SourceStays(mem0, flat0, mem, where, flat, ref, free, from, mem');
    CopyOne(mem0, flat0, mem, where, flat, ref, free, from, to, lo, s, s + PageSize, here, mem', w);
  }

  lemma AtPage(s: int)
    requires 0 <= s < UserEnd && s % PageSize == 0
    ensures IsStep(s, s + PageSize)
  {
  }

  /** One iteration of `copy_range`; `s'` is the new `start`. */
  method CopyHere(mmu: Mmu, from: int, to: int, s: int, end: int, ghost lo: int, ghost mem0: Mem, ghost flat0: Flat)
    returns (r: Outcome, s': int)
    requires mmu.Valid() && Is(mmu.where, from, Root(from)) && Is(mmu.where, to, Root(to)) && from != to
    requires 0 <= lo <= s < end <= UserEnd && Indexed(flat0) && Stands(mmu.mem, from, s, end)
    requires CopyProgress(mem0, flat0, mmu.mem, mmu.flat, from, to, lo, s)
    modifies mmu
    ensures mmu.Valid() && Keeps(old(mmu.where), mmu.where)
    ensures Is(mmu.where, from, Root(from)) && Is(mmu.where, to, Root(to))
    ensures r == Copied ==>
      s < s' <= end && Stands(mmu.mem, from, s', end) && CopyProgress(mem0, flat0, mmu.mem, mmu.flat, from, to, lo, s')
    ensures r != Copied ==> CopyProgress(mem0, flat0, mmu.mem, mmu.flat, from, to, lo, s) && mmu.free == {}
  {
    ghost var mem1, where1, flat1, ref1, free1 := mmu.mem, mmu.where, mmu.flat, mmu.ref, mmu.free;
    r := Copied;
    var t, i := FindPte(mmu.mem, mmu.where, mmu.flat, from, s);
    if t == -1 {
      StandsSkip(mem1, from, s, end);
      NothingStep(mem0, flat0, mem1, flat1, from, to, lo, s, s + PtSize);
      s' := RoundDown(s + PtSize, PtSize);
      return;
    }
    var word := mmu.mem[t][i];
    s' := s + PageSize;
    if IsValid(word) {
      ghost var w;
      r, w := CopyPage(mmu, from, to, s, word);
      if r != Copied {
        KeepsCopies(mem0, flat0, mem1, where1, flat1, ref1, free1, from, to, lo, s, mmu.mem);
        return;
      }
      StandsPage(mem1, from, s, end, mmu.mem);
      OneStep(mem0, flat0, mem1, where1, flat1, ref1, free1, from, to, lo, s, mmu.mem, w);
    } else {
      StandsPage(mem1, from, s, end, mmu.mem);
      NothingStep(mem0, flat0, mem1, flat1, from, to, lo, s, s');
    }
  }

  /** Frames in use keep their contents, so the copies made so far stay. */
  lemma KeepsCopies(mem0: Mem, flat0: Flat, mem: Mem, where: Where, flat: Flat, ref: map<int, int>, free: set<int>,
      from: int, to: int, lo: int, s: int, mem': Mem)
    requires CopyProgress(mem0, flat0, mem, flat, from, to, lo, s) && from != to
    requires Owned(mem, where, flat, ref, free, -1) && SameData(mem, where, free, mem')
    ensures CopyProgress(mem0, flat0, mem', flat, from, to, lo, s)
  {
    SourceWord(mem0, flat0, mem, flat, from, to, lo, s);
    SourceStays(mem0, flat0, mem, where, flat, ref, free, from, mem');
    forall k ensures KeyCopied(mem0, flat0, mem', flat, from, to, lo, s, k) {
      assert KeyCopied(mem0, flat0, mem, flat, from, to, lo, s, k);
      if InRange(k, to, lo, s) && IsValid(Word(flat0, Src(from, k))) {
        assert k in Refs(flat, Ppn(flat[k]));
        assert Usable(mem, where, free, Ppn(flat[k]));
      }
    }
  }

  /** `copy_range`: on success each valid source page has a copy of its own, with
      nothing else in either space changed; otherwise the same holds up to the
      address `at` that it reached. */
  method CopyRange(mmu: Mmu, from: int, to: int, start: int, end: int) returns (r: Outcome, ghost at: int)
    requires mmu.Valid() && Is(mmu.where, from, Root(from)) && Is(mmu.where, to, Root(to)) && from != to
    requires PageRange(start, end)
    modifies mmu
    ensures mmu.Valid() && if r == Copied then at == end else start <= at < end && mmu.free == {}
    ensures Is(mmu.where, from, Root(from)) && Is(mmu.where, to, Root(to))
    ensures Keeps(old(mmu.where), mmu.where)
    ensures CopiedTo(old(mmu.mem), old(mmu.flat), mmu.mem, mmu.flat, from, to, start, at)
    ensures SourceKept(old(mmu.mem), old(mmu.flat), mmu.mem, from)
  {
    ghost var mem0, flat0, where0 := mmu.mem, mmu.flat, mmu.where;
    KeysIndexed(mem0, mmu.where, flat0);
    NothingCopied(mem0, mmu.where, flat0, mmu.ref, mmu.free, from, to, start);
    StandsFirst(mem0, from, start, end);
    var s;
    at := start;
    r, s := CopyHere(mmu, from, to, start, end, start, mem0, flat0);
    while r == Copied && s != 0 && s < end
      invariant mmu.Valid() && Is(mmu.where, from, Root(from)) && Is(mmu.where, to, Root(to))
      invariant Keeps(where0, mmu.where)
      invariant start <= at < end
      invariant r == Copied ==> at < s <= end && Stands(mmu.mem, from, s, end)
      invariant r == Copied ==> CopyProgress(mem0, flat0, mmu.mem, mmu.flat, from, to, start, s)
      invariant r != Copied ==> CopyProgress(mem0, flat0, mmu.mem, mmu.flat, from, to, start, at) && mmu.free == {}
      decreases r == Copied, end - s
    {
      ghost var where1 := mmu.where;
      at := s;
      r, s := CopyHere(mmu, from, to, s, end, start, mem0, flat0);
      KeepsTwice(where0, where1, mmu.where);
    }
    if r == Copied { at := end; }
  }

  lemma KeepsTwice(where: Where, where1: Where, where2: Where)
    requires Keeps(where, where1) && Keeps(where1, where2)
    ensures Keeps(where, where2)
  {
  }

  lemma NothingCopied(mem: Mem, where: Where, flat: Flat, ref: map<int, int>, free: set<int>, from: int, to: int,
      lo: int)
    requires Owned(mem, where, flat, ref, free, -1)
    ensures CopyProgress(mem, flat, mem, flat, from, to, lo, lo)
  {
    forall k | k in flat && k.r == from && IsValid(flat[k]) ensures Ppn(flat[k]) in mem {
      assert Usable(mem, where, free, Ppn(flat[k]));
    }
    assert forall k :: KeyCopied(mem, flat, mem, flat, from, to, lo, lo, k);
  }
}
