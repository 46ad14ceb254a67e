/** The free list of the best-fit allocator (kernel/mm/best_fit_pmm.c) as a value:
    a sequence of runs of free pages. */
module FreeRuns {

  datatype Run = Run(start: int, len: int) {
    function End(): int { start + len }
  }

  predicate InRun(r: Run, p: int) { r.start <= p < r.End() }

  /** Non-empty runs in ascending order, all beyond `low`, no two touching. */
  predicate Above(rs: seq<Run>, low: int) {
    rs == [] || (low < rs[0].start && 0 < rs[0].len && Above(rs[1..], rs[0].End()))
  }

  /** The ascending sequence of maximal runs of pages. */
  predicate Canonical(rs: seq<Run>) { Above(rs, -1) }

  /** Page `p` is free. */
  predicate Free(rs: seq<Run>, p: int) {
    rs != [] && (InRun(rs[0], p) || Free(rs[1..], p))
  }

  function Total(rs: seq<Run>): int {
    if rs == [] then 0 else rs[0].len + Total(rs[1..])
  }

  // --------------------------------------------------------------- uniqueness

  lemma {:induction false} FreeBeyond(rs: seq<Run>, low: int, p: int)
    requires Above(rs, low) && Free(rs, p)
    ensures low < p
  {
    if !InRun(rs[0], p) { FreeBeyond(rs[1..], rs[0].End(), p); }
  }

  lemma {:induction false} Lower(rs: seq<Run>, low: int, low': int)
    requires Above(rs, low) && low' <= low
    ensures Above(rs, low')
  {
  }

  /** The first run is determined by the free pages. */
  lemma HeadMeaning(rs: seq<Run>, low: int)
    requires Above(rs, low) && rs != []
    ensures Free(rs, rs[0].start) && !Free(rs, rs[0].End())
    ensures forall p :: Free(rs, p) ==> rs[0].start <= p
    ensures forall p :: rs[0].start <= p < rs[0].End() ==> Free(rs, p)
    ensures forall p :: Free(rs[1..], p) <==> Free(rs, p) && rs[0].End() <= p
  {
    forall p | Free(rs[1..], p) ensures rs[0].End() < p { FreeBeyond(rs[1..], rs[0].End(), p); }
  }

  /** The free pages determine the list. */
  lemma {:induction false} CanonicalUnique(a: seq<Run>, b: seq<Run>, low: int)
    requires Above(a, low) && Above(b, low)
    requires forall p :: Free(a, p) <==> Free(b, p)
    ensures a == b
  {
    if a == [] {
      if b != [] { HeadMeaning(b, low); }
    } else {
      HeadMeaning(a, low);
      assert b != [];
      HeadMeaning(b, low);
      assert a[0].start == b[0].start;
      assert a[0].End() == b[0].End();
      CanonicalUnique(a[1..], b[1..], a[0].End());
      assert a == [a[0]] + a[1..] && b == [b[0]] + b[1..];
    }
  }

  // --------------------------------------------------------------- allocation

  /** `b` is the lowest of the smallest runs that can hold `n` pages. */
  ghost predicate IsBest(rs: seq<Run>, n: int, b: nat) {
    && b < |rs| && rs[b].len >= n
    && forall j :: 0 <= j < |rs| && rs[j].len >= n ==> rs[b].len < rs[j].len || (rs[b].len == rs[j].len && b <= j)
  }

  /** The list after the first `n` pages of run `b` are taken. */
  function Carve(rs: seq<Run>, b: nat, n: int): seq<Run>
    requires b < |rs|
  {
    if b > 0 then [rs[0]] + Carve(rs[1..], b - 1, n)
    else if rs[0].len > n then [Run(rs[0].start + n, rs[0].len - n)] + rs[1..]
    else rs[1..]
  }

  lemma {:induction false} CarveAbove(rs: seq<Run>, b: nat, n: int, low: int)
    requires Above(rs, low) && b < |rs| && 0 < n <= rs[b].len
    ensures Above(Carve(rs, b, n), low)
  {
    if b > 0 {
      CarveAbove(rs[1..], b - 1, n, rs[0].End());
    } else {
      Lower(rs[1..], rs[0].End(), low);
    }
  }

  lemma {:induction false} CarveFree(rs: seq<Run>, b: nat, n: int, low: int, p: int)
    requires Above(rs, low) && b < |rs| && 0 < n <= rs[b].len
    ensures low < rs[b].start
    ensures Free(Carve(rs, b, n), p) <==> Free(rs, p) && !(rs[b].start <= p < rs[b].start + n)
  {
    if b > 0 {
      CarveFree(rs[1..], b - 1, n, rs[0].End(), p);
    } else if Free(rs[1..], p) {
      FreeBeyond(rs[1..], rs[0].End(), p);
    }
  }

  lemma {:induction false} CarveTotal(rs: seq<Run>, b: nat, n: int)
    requires b < |rs| && n <= rs[b].len
    ensures Total(Carve(rs, b, n)) == Total(rs) - n
  {
    if b > 0 { CarveTotal(rs[1..], b - 1, n); }
  }

  lemma {:induction false} RunInTotal(rs: seq<Run>, low: int, j: nat)
    requires Above(rs, low) && j < |rs|
    ensures 0 < rs[j].len <= Total(rs)
  {
    TotalPositive(rs[1..], rs[0].End());
    if j > 0 { RunInTotal(rs[1..], rs[0].End(), j - 1); }
  }

  lemma {:induction false} TotalPositive(rs: seq<Run>, low: int)
    requires Above(rs, low)
    ensures 0 <= Total(rs)
  {
    if rs != [] { TotalPositive(rs[1..], rs[0].End()); }
  }

  // -------------------------------------------------------------------- freeing

  /** A block of pages that are all in use. */
  ghost predicate Releasable(rs: seq<Run>, base: int, n: int) {
    n > 0 && forall p :: base <= p < base + n ==> !Free(rs, p)
  }

  /** Put `r` in front, fused with the next run if they touch. */
  function Absorb(r: Run, rs: seq<Run>): seq<Run> {
    if rs != [] && r.End() == rs[0].start then [Run(r.start, r.len + rs[0].len)] + rs[1..] else [r] + rs
  }

  /** `best_fit_free_pages`: the block goes to its place by address and is fused
      with the runs it touches. */
  function Release(rs: seq<Run>, base: int, n: int): seq<Run> {
    if rs == [] || rs[0].start >= base then Absorb(Run(base, n), rs)
    else if rs[0].End() == base then Absorb(Run(rs[0].start, rs[0].len + n), rs[1..])
    else [rs[0]] + Release(rs[1..], base, n)
  }

  lemma AbsorbAbove(r: Run, rs: seq<Run>, low: int)
    requires low < r.start && 0 < r.len && Above(rs, low)
    requires rs != [] ==> r.End() <= rs[0].start
    ensures Above(Absorb(r, rs), low)
  {
  }

  lemma AbsorbFree(r: Run, rs: seq<Run>, p: int)
    requires 0 < r.len && (rs != [] ==> 0 < rs[0].len)
    ensures Free(Absorb(r, rs), p) <==> Free(rs, p) || InRun(r, p)
  {
  }

  /** A block in use does not overlap the first run. */
  lemma BesideHead(rs: seq<Run>, low: int, base: int, n: int)
    requires Above(rs, low) && rs != [] && Releasable(rs, base, n)
    ensures rs[0].End() <= base || base + n <= rs[0].start
    ensures Releasable(rs[1..], base, n)
  {
    assert !Free(rs, base);
    if base < rs[0].start < base + n { assert Free(rs, rs[0].start); }
    forall p | base <= p < base + n ensures !Free(rs[1..], p) { assert !Free(rs, p); }
  }

  lemma {:induction false} ReleaseAbove(rs: seq<Run>, base: int, n: int, low: int)
    requires Above(rs, low) && Releasable(rs, base, n) && low < base
    ensures Above(Release(rs, base, n), low)
  {
    if rs != [] {
      BesideHead(rs, low, base, n);
      if rs[0].start < base {
        if rs[0].End() == base {
          Lower(rs[1..], rs[0].End(), low);
          if rs[1..] != [] { BesideHead(rs[1..], rs[0].End(), base, n); }
          AbsorbAbove(Run(rs[0].start, rs[0].len + n), rs[1..], low);
        } else {
          ReleaseAbove(rs[1..], base, n, rs[0].End());
        }
      } else {
        AbsorbAbove(Run(base, n), rs, low);
      }
    }
  }

  lemma {:induction false} ReleaseFree(rs: seq<Run>, base: int, n: int, low: int, p: int)
    requires Above(rs, low) && n > 0
    ensures Free(Release(rs, base, n), p) <==> Free(rs, p) || base <= p < base + n
  {
    if rs == [] || rs[0].start >= base {
      AbsorbFree(Run(base, n), rs, p);
    } else if rs[0].End() == base {
      AbsorbFree(Run(rs[0].start, rs[0].len + n), rs[1..], p);
    } else {
      ReleaseFree(rs[1..], base, n, rs[0].End(), p);
    }
  }

  lemma {:induction false} ReleaseTotal(rs: seq<Run>, base: int, n: int)
    ensures Total(Release(rs, base, n)) == Total(rs) + n
  {
    if rs != [] && rs[0].start < base && rs[0].End() != base { ReleaseTotal(rs[1..], base, n); }
  }

  // ------------------------------------------------------------- consequences

  /** Allocating a block and freeing it again restores the list exactly. */
  lemma AllocThenFree(rs: seq<Run>, b: nat, n: int)
    requires Canonical(rs) && b < |rs| && 0 < n <= rs[b].len
    ensures Release(Carve(rs, b, n), rs[b].start, n) == rs
  {
    var c, s := Carve(rs, b, n), rs[b].start;
    CarveAbove(rs, b, n, -1);
    forall p ensures Free(c, p) <==> Free(rs, p) && !(s <= p < s + n) { CarveFree(rs, b, n, -1, p); }
    CarveFree(rs, b, n, -1, s);
    ReleaseAbove(c, s, n, -1);
    forall p ensures Free(Release(c, s, n), p) <==> Free(rs, p) {
      ReleaseFree(c, s, n, -1, p);
      if s <= p < s + n { RunIsFree(rs, b, p); }
    }
    CanonicalUnique(Release(c, s, n), rs, -1);
  }

  lemma {:induction false} RunIsFree(rs: seq<Run>, b: nat, p: int)
    requires b < |rs| && InRun(rs[b], p)
    ensures Free(rs, p)
  {
    if b > 0 { RunIsFree(rs[1..], b - 1, p); }
  }

  /** The order in which two blocks are freed does not matter. */
  lemma FreeOrderIrrelevant(rs: seq<Run>, a: nat, m: int, b: nat, n: int)
    requires Canonical(rs) && Releasable(rs, a, m) && Releasable(rs, b, n)
    requires a + m <= b || b + n <= a
    ensures Release(Release(rs, a, m), b, n) == Release(Release(rs, b, n), a, m)
  {
    ReleaseTwice(rs, a, m, b, n);
    ReleaseTwice(rs, b, n, a, m);
    CanonicalUnique(Release(Release(rs, a, m), b, n), Release(Release(rs, b, n), a, m), -1);
  }

  lemma ReleaseTwice(rs: seq<Run>, a: nat, m: int, b: nat, n: int)
    requires Canonical(rs) && Releasable(rs, a, m) && Releasable(rs, b, n)
    requires a + m <= b || b + n <= a
    ensures Canonical(Release(Release(rs, a, m), b, n))
    ensures forall p :: Free(Release(Release(rs, a, m), b, n), p) <==> Free(rs, p) || a <= p < a + m || b <= p < b + n
  {
    var r := Release(rs, a, m);
    ReleaseAbove(rs, a, m, -1);
    forall p ensures Free(r, p) <==> Free(rs, p) || a <= p < a + m { ReleaseFree(rs, a, m, -1, p); }
    ReleaseAbove(r, b, n, -1);
    forall p ensures Free(Release(r, b, n), p) <==> Free(rs, p) || a <= p < a + m || b <= p < b + n {
      ReleaseFree(r, b, n, -1, p);
    }
  }

  // ---------------------------------------------------------------------- size

  ghost function Range(a: int, b: int): (s: set<int>)
    requires a <= b
    ensures forall x :: x in s <==> a <= x < b
    ensures |s| == b - a
    decreases b - a
  {
    if a == b then {} else Range(a, b - 1) + {b - 1}
  }

  /** `num_free` is the number of free pages. */
  lemma {:induction false} TotalCounts(rs: seq<Run>, low: int) returns (pages: set<int>)
    requires Above(rs, low)
    ensures forall p :: p in pages <==> Free(rs, p)
    ensures |pages| == Total(rs)
  {
    if rs == [] {
      pages := {};
    } else {
      HeadMeaning(rs, low);
      var rest := TotalCounts(rs[1..], rs[0].End());
      var head := Range(rs[0].start, rs[0].End());
      assert head !! rest;
      pages := head + rest;
    }
  }

  // ----------------------------------------------- the same, by position in the list

  lemma {:induction false} CarveAt(rs: seq<Run>, b: nat, n: int)
    requires b < |rs|
    ensures Carve(rs, b, n) ==
      if rs[b].len > n then rs[b := Run(rs[b].start + n, rs[b].len - n)] else rs[..b] + rs[b + 1..]
  {
    if b > 0 {
      CarveAt(rs[1..], b - 1, n);
      assert rs == [rs[0]] + rs[1..];
    }
  }

  /** `Release`, at the place `k` where a scan by address stops: nothing before it touches. */
  lemma {:induction false} ReleaseApart(rs: seq<Run>, low: int, base: int, n: int, k: nat)
    requires Above(rs, low) && k <= |rs|
    requires forall i :: 0 <= i < k ==> rs[i].start < base
    requires k < |rs| ==> rs[k].start >= base
    requires k > 0 ==> rs[k - 1].End() != base
    ensures Release(rs, base, n) == rs[..k] + Absorb(Run(base, n), rs[k..])
    decreases k
  {
    if k == 0 {
      assert rs[0..] == rs;
    } else {
      if k > 1 { assert rs[1..][0].start == rs[1].start; }
      assert rs[0].End() != base;
      ReleaseApart(rs[1..], rs[0].End(), base, n, k - 1);
      Split(rs, k);
      Assoc(rs[0], rs[1..][..k - 1], Absorb(Run(base, n), rs[k..]));
    }
  }

  /** `Release`, at the place `k` where a scan by address stops: the run before it touches. */
  lemma {:induction false} ReleaseTouching(rs: seq<Run>, low: int, base: int, n: int, k: nat)
    requires Above(rs, low) && k + 1 <= |rs|
    requires forall i :: 0 <= i <= k ==> rs[i].start < base
    requires rs[k].End() == base
    ensures Release(rs, base, n) == rs[..k] + Absorb(Run(rs[k].start, rs[k].len + n), rs[k + 1..])
    decreases k
  {
    if k > 0 {
      assert rs[1..][0].start == rs[1].start;
      assert rs[0].End() != base;
      ReleaseTouching(rs[1..], rs[0].End(), base, n, k - 1);
      Split(rs, k);
      Assoc(rs[0], rs[1..][..k - 1], Absorb(Run(rs[k].start, rs[k].len + n), rs[k + 1..]));
    } else {
      assert rs[..0] == [];
    }
  }

  lemma Split(rs: seq<Run>, k: nat)
    requires 0 < k <= |rs|
    ensures rs[..k] == [rs[0]] + rs[1..][..k - 1] && rs[1..][k - 1..] == rs[k..]
    ensures k < |rs| ==> rs[1..][k..] == rs[k + 1..]
  {
  }

  lemma Assoc(x: Run, a: seq<Run>, b: seq<Run>)
    ensures [x] + (a + b) == ([x] + a) + b
  {
  }
}
