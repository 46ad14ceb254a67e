/** The areas of an address space (kernel/mm/vmm.c): a sorted list with a
    one-entry cache, the checks made on insertion, and the checks made on it. */
module Vma {
  import opened Prelude
  import opened Words

  const KernelBegin: int := 0xFFFF_FFFF_8020_0000
  const KernelEnd: int := 0xFFFF_FFFF_8200_0000

  datatype Flags = Flags(read: bool, write: bool, exec: bool, stack: bool)

  /** `struct vm_area`: the bytes from `start` up to, but not including, `end`. */
  datatype Area = Area(start: int, end: int, flags: Flags)

  predicate In(a: Area, addr: int) { a.start <= addr < a.end }

  predicate Overlap(a: Area, b: Area) { a.start < b.end && b.start < a.end }

  /** Non-empty areas in ascending order from `low` on, none overlapping another. */
  predicate Sorted(areas: seq<Area>, low: int) {
    areas == [] || (low <= areas[0].start < areas[0].end && Sorted(areas[1..], areas[0].end))
  }

  /** Some area of the list. */
  predicate Has(areas: seq<Area>, a: Area) {
    areas != [] && (areas[0] == a || Has(areas[1..], a))
  }

  /** The area that holds `addr`, looking through the whole list. */
  function Find(areas: seq<Area>, addr: int): Option<Area> {
    if areas == [] then None else if In(areas[0], addr) then Some(areas[0]) else Find(areas[1..], addr)
  }

  /** Whether any area of the list overlaps `a`. */
  predicate Clashes(areas: seq<Area>, a: Area) {
    areas != [] && (Overlap(areas[0], a) || Clashes(areas[1..], a))
  }

  lemma {:induction false} BeyondLow(areas: seq<Area>, low: int, a: Area)
    requires Sorted(areas, low) && Has(areas, a)
    ensures low <= a.start < a.end
  {
    if areas[0] != a { BeyondLow(areas[1..], areas[0].end, a); }
  }

  /** An area of the list that holds the address is the one a search finds. */
  lemma {:induction false} FindUnique(areas: seq<Area>, low: int, a: Area, addr: int)
    requires Sorted(areas, low) && Has(areas, a) && In(a, addr)
    ensures Find(areas, addr) == Some(a)
  {
    if areas[0] != a {
      BeyondLow(areas[1..], areas[0].end, a);
      FindUnique(areas[1..], areas[0].end, a, addr);
    }
  }

  lemma {:induction false} FindHas(areas: seq<Area>, addr: int)
    ensures Find(areas, addr).Some? ==> Has(areas, Find(areas, addr).value) && In(Find(areas, addr).value, addr)
  {
    if areas != [] && !In(areas[0], addr) { FindHas(areas[1..], addr); }
  }

  // ------------------------------------------------------------------- insertion

  /** The list with `a` at its place by start address. */
  function Inserted(areas: seq<Area>, a: Area): seq<Area> {
    if areas == [] || areas[0].start >= a.start then [a] + areas else [areas[0]] + Inserted(areas[1..], a)
  }

  /** What the two neighbour checks of add_vma look at. */
  predicate NeighboursOk(areas: seq<Area>, a: Area) {
    if areas == [] then true
    else if areas[0].start >= a.start then a.end <= areas[0].start
    else
      && (areas[1..] == [] || areas[1].start >= a.start ==> areas[0].end <= a.start)
      && NeighboursOk(areas[1..], a)
  }

  lemma {:induction false} NoneFromHere(areas: seq<Area>, low: int, a: Area)
    requires Sorted(areas, low) && a.end <= low
    ensures !Clashes(areas, a)
  {
    if areas != [] { NoneFromHere(areas[1..], areas[0].end, a); }
  }

  /** The checks of the neighbours pass exactly when no area of the list overlaps. */
  lemma {:induction false} NeighboursSuffice(areas: seq<Area>, low: int, a: Area)
    requires Sorted(areas, low) && a.start < a.end
    ensures NeighboursOk(areas, a) <==> !Clashes(areas, a)
  {
    if areas != [] {
      if areas[0].start >= a.start {
        if a.end <= areas[0].start { NoneFromHere(areas[1..], areas[0].end, a); }
      } else {
        NeighboursSuffice(areas[1..], areas[0].end, a);
        if areas[1..] != [] && areas[1].start < a.start { assert areas[0].end <= areas[1..][0].start; }
      }
    }
  }

  lemma {:induction false} InsertedSorted(areas: seq<Area>, low: int, a: Area)
    requires Sorted(areas, low) && low <= a.start < a.end && !Clashes(areas, a)
    ensures Sorted(Inserted(areas, a), low)
  {
    if areas != [] && areas[0].start < a.start { InsertedSorted(areas[1..], areas[0].end, a); }
  }

  lemma {:induction false} InsertedHas(areas: seq<Area>, a: Area, x: Area)
    ensures Has(Inserted(areas, a), x) <==> x == a || Has(areas, x)
  {
    if areas != [] && areas[0].start < a.start { InsertedHas(areas[1..], a, x); }
  }

  // -------------------------------------------- the same, by position in the list

  lemma {:induction false} InsertedAt(areas: seq<Area>, a: Area, k: nat)
    requires k <= |areas| && (forall j :: 0 <= j < k ==> areas[j].start < a.start)
    requires k < |areas| ==> areas[k].start >= a.start
    ensures Inserted(areas, a) == areas[..k] + [a] + areas[k..]
    ensures NeighboursOk(areas, a) <==>
      (k > 0 ==> areas[k - 1].end <= a.start) && (k < |areas| ==> a.end <= areas[k].start)
    decreases k
  {
    if k == 0 {
      assert areas[..0] == [] && areas[0..] == areas;
    } else {
      InsertedAt(areas[1..], a, k - 1);
      assert areas[..k] == [areas[0]] + areas[1..][..k - 1] && areas[1..][k - 1..] == areas[k..];
    }
  }

  lemma {:induction false} FindSkip(areas: seq<Area>, addr: int, i: nat)
    requires i <= |areas| && forall j :: 0 <= j < i ==> !In(areas[j], addr)
    ensures Find(areas, addr) == Find(areas[i..], addr)
    decreases i
  {
    if i == 0 {
      assert areas[0..] == areas;
    } else {
      FindSkip(areas[1..], addr, i - 1);
      assert areas[1..][i - 1..] == areas[i..];
    }
  }

  // ---------------------------------------------------------------- permissions

  /** Byte `b` of area `a` may be read, or written. */
  predicate Allows(a: Area, b: int, write: bool) {
    && (if write then a.flags.write else a.flags.read)
    && !(write && a.flags.stack && b < a.start + PageSize)
  }

  /** Byte `b` lies in an area with the permission, outside a stack's first page when writing. */
  predicate ByteOk(areas: seq<Area>, b: int, write: bool) {
    var found := Find(areas, b);
    found.Some? && Allows(found.value, b, write)
  }

  predicate UserAccess(begin: int, end: int) { UserBegin <= begin < end <= UserEnd }

  predicate KernelAccess(begin: int, end: int) { KernelBegin <= begin < end <= KernelEnd }

  /** A non-empty range inside bounds cannot come from a wrapped sum. */
  lemma NoWrap(addr: u64, len: u64)
    ensures UserAccess(addr, Wrap64(addr + len)) <==> len > 0 && UserBegin <= addr && addr + len <= UserEnd
    ensures KernelAccess(addr, Wrap64(addr + len)) <==> len > 0 && KernelBegin <= addr && addr + len <= KernelEnd
    ensures UserAccess(addr, Wrap64(addr + len)) ==> Wrap64(addr + len) == addr + len
  {
    assert Wrap64(addr + len) == if addr + len < W64 then addr + len else addr + len - W64;
  }

  /** The bytes from one that was checked up to the end of its area. */
  lemma RestOfArea(areas: seq<Area>, a: Area, begin: int, write: bool)
    requires Sorted(areas, 0) && Find(areas, begin) == Some(a) && Allows(a, begin, write)
    ensures begin < a.end && forall b :: begin <= b < a.end ==> ByteOk(areas, b, write)
  {
    FindHas(areas, begin);
    forall b | begin <= b < a.end ensures ByteOk(areas, b, write) {
      FindUnique(areas, 0, a, b);
    }
  }

  /** How vm_map ends; `AssertFailed` is the overlap assertion of add_vma. */
  datatype MapResult = Mapped | Inval | NoDev | AssertFailed

  class Vmm {
    var areas: seq<Area>
    var curr: Option<Area>
    var count: int

    ghost predicate Valid()
      reads this
    {
      Sorted(areas, 0) && (curr.Some? ==> Has(areas, curr.value)) && count == |areas|
    }

    /** `init_vmm`. */
    constructor ()
      ensures Valid() && areas == []
    {
      areas, curr, count := [], None, 0;
    }

    /** `find_vma`: with its cache it finds what a search of the list finds. */
    method FindVma(addr: int) returns (r: Option<Area>)
      requires Valid()
      modifies this`curr
      ensures Valid() && r == Find(areas, addr)
      ensures curr == if r == None then old(curr) else r
    {
      r := curr;
      if !(r.Some? && r.value.start <= addr && r.value.end > addr) {
        r := None;
        var i := 0;
        while i < |areas|
          invariant 0 <= i <= |areas| && r == None
          invariant forall j :: 0 <= j < i ==> !In(areas[j], addr)
        {
          if areas[i].start <= addr && areas[i].end > addr {
            r := Some(areas[i]);
            break;
          }
          i := i + 1;
        }
        FindSkip(areas, addr, i);
        FindHas(areas, addr);
      } else {
        FindUnique(areas, 0, r.value, addr);
      }
      if r.Some? { curr := r; }
    }

    /** `add_vma`: its assertions hold exactly when the area is not empty and overlaps none. */
    method AddVma(a: Area) returns (ok: bool)
      requires Valid() && 0 <= a.start
      modifies this`areas, this`count
      ensures Valid() && (ok <==> a.start < a.end && !Clashes(old(areas), a))
      ensures areas == if ok then Inserted(old(areas), a) else old(areas)
    {
      if !(a.start < a.end) { return false; }
      var k := 0;
      while k < |areas| && areas[k].start < a.start
        invariant 0 <= k <= |areas|
        invariant forall j :: 0 <= j < k ==> areas[j].start < a.start
      {
        k := k + 1;
      }
      InsertedAt(areas, a, k);
      NeighboursSuffice(areas, 0, a);
      if k > 0 && !NotOverlapping(areas[k - 1], a) { PartsOk(areas, 0, k - 1); return false; }
      if k < |areas| && !NotOverlapping(a, areas[k]) { PartsOk(areas, 0, k); return false; }
      InsertedSorted(areas, 0, a);
      if curr.Some? { InsertedHas(areas, a, curr.value); }
      areas := areas[..k] + [a] + areas[k..];
      count := count + 1;
      ok := true;
    }

    /** `vm_map`; `memory` says whether malloc finds memory for the area. */
    method VmMap(addr: u64, len: u64, flags: Flags, memory: bool) returns (r: MapResult)
      requires Valid()
      modifies this
      ensures Valid()
      ensures r == Outcome(old(areas), MapStart(addr), MapEnd(addr, len), memory)
      ensures areas == if r == Mapped then Inserted(old(areas), Area(MapStart(addr), MapEnd(addr, len), flags))
        else old(areas)
    {
      var start, end := RoundDown(addr, PageSize), RoundUp64(Wrap64(addr + len), PageSize);
      if !UserAccess(start, end) { return Inval; }
      var vma := FindVma(start);
      FindHas(areas, start);
      if vma.Some? && end > vma.value.start { return Inval; }
      if !memory { return NoDev; }
      var ok := AddVma(Area(start, end, flags));
      ClashAnyFlags(old(areas), start, end, flags);
      r := if ok then Mapped else AssertFailed;
    }
  }

  /** `test_vma_overlap`. */
  predicate NotOverlapping(prev: Area, next: Area) {
    prev.start < prev.end && prev.end <= next.start && next.start < next.end
  }

  lemma {:induction false} PartsOk(areas: seq<Area>, low: int, k: nat)
    requires Sorted(areas, low) && k < |areas|
    ensures areas[k].start < areas[k].end
  {
    if k > 0 { PartsOk(areas[1..], areas[0].end, k - 1); }
  }

  function MapStart(addr: u64): int { RoundDown(addr, PageSize) }

  function MapEnd(addr: u64, len: u64): int { RoundUp64(Wrap64(addr + len), PageSize) }

  const NoFlags := Flags(false, false, false, false)

  /** What vm_map does with a page range, by conditions a caller could check. */
  ghost function Outcome(areas: seq<Area>, start: int, end: int, memory: bool): MapResult {
    if !UserAccess(start, end) || Find(areas, start).Some? then Inval
    else if !memory then NoDev
    else if Clashes(areas, Area(start, end, NoFlags)) then AssertFailed
    else Mapped
  }

  lemma {:induction false} ClashAnyFlags(areas: seq<Area>, start: int, end: int, flags: Flags)
    ensures Clashes(areas, Area(start, end, flags)) <==> Clashes(areas, Area(start, end, NoFlags))
  {
    if areas != [] { ClashAnyFlags(areas[1..], start, end, flags); }
  }

  /** Byte `b` lies in an area of the list that may be written, but not in the first page
      of a stack. */
  ghost predicate Writable(areas: seq<Area>, b: int) {
    exists a :: Has(areas, a) && a.start <= b < a.end && a.flags.write && (a.flags.stack ==> a.start + PageSize <= b)
  }

  /** Byte `b` lies in an area of the list that may be read. */
  ghost predicate Readable(areas: seq<Area>, b: int) {
    exists a :: Has(areas, a) && a.start <= b < a.end && a.flags.read
  }

  lemma ByteOkMeans(areas: seq<Area>, b: int)
    requires Sorted(areas, 0)
    ensures ByteOk(areas, b, true) <==> Writable(areas, b)
    ensures ByteOk(areas, b, false) <==> Readable(areas, b)
  {
    FindHas(areas, b);
    forall a | Has(areas, a) && a.start <= b < a.end ensures Find(areas, b) == Some(a) { FindUnique(areas, 0, a, b); }
  }

  /** A non-empty range in user bounds, without wrap-around, of bytes that may all be accessed. */
  ghost predicate MayAccess(areas: seq<Area>, addr: u64, len: u64, write: bool) {
    && len > 0 && UserBegin <= addr && addr + len <= UserEnd
    && forall b :: addr <= b < addr + len ==> if write then Writable(areas, b) else Readable(areas, b)
  }

  /** `check_vmm`: a null `vmm` asks about kernel memory. */
  method CheckVmm(vmm: Vmm?, addr: u64, len: u64, write: bool) returns (r: bool)
    requires vmm != null ==> vmm.Valid()
    modifies if vmm != null then {vmm} else {}
    ensures vmm != null ==> vmm.Valid() && vmm.areas == old(vmm.areas)
    ensures vmm != null ==> (r <==> MayAccess(vmm.areas, addr, len, write))
    ensures vmm == null ==> (r <==> len > 0 && KernelBegin <= addr && addr + len <= KernelEnd)
  {
    NoWrap(addr, len);
    if vmm == null { return KernelAccess(addr, Wrap64(addr + len)); }
    if !UserAccess(addr, Wrap64(addr + len)) { return false; }
    var begin, end: int := addr, addr + len;
    while begin < end
      invariant vmm.Valid() && vmm.areas == old(vmm.areas) && addr <= begin
      invariant forall b :: addr <= b < begin ==> ByteOk(vmm.areas, b, write)
    {
      var vma := vmm.FindVma(begin);
      FindHas(vmm.areas, begin);
      if vma.None? || begin < vma.value.start || !Allows(vma.value, begin, write) {
        assert !ByteOk(vmm.areas, begin, write);
        ByteOkMeans(vmm.areas, begin);
        return false;
      }
      RestOfArea(vmm.areas, vma.value, begin, write);
      begin := vma.value.end;
    }
    forall b | addr <= b < addr + len ensures if write then Writable(vmm.areas, b) else Readable(vmm.areas, b) {
      ByteOkMeans(vmm.areas, b);
    }
    r := true;
  }

  // ------------------------------------------------------------ what vm_map misses

  /** The overlap assertion fails exactly for a range whose first byte is in no area
      and in which another area starts. */
  lemma {:induction false} ClashMeansStart(areas: seq<Area>, low: int, start: int, end: int)
    requires Sorted(areas, low) && start < end
    ensures Clashes(areas, Area(start, end, NoFlags)) && Find(areas, start).None? <==>
      Find(areas, start).None? && StartsInside(areas, start, end)
  {
    if areas != [] { ClashMeansStart(areas[1..], areas[0].end, start, end); }
  }

  predicate StartsInside(areas: seq<Area>, start: int, end: int) {
    areas != [] && (start < areas[0].start < end || StartsInside(areas[1..], start, end))
  }

  /** vm_map answers a request that overlaps an area with -E_INVAL in one case and
      with a failed assertion in the other. */
  lemma OverlapTwoWays()
    ensures
      var areas := [Area(0x80_1000, 0x80_3000, NoFlags)];
      && Outcome(areas, 0x80_2000, 0x80_4000, true) == Inval
      && Outcome(areas, 0x80_0000, 0x80_2000, true) == AssertFailed
  {
    var areas := [Area(0x80_1000, 0x80_3000, NoFlags)];
    assert Find(areas[1..], 0x80_0000) == None;
  }

  /** When vm_map succeeds, the new area holds the bytes asked for unless their
      end wraps around, and is the least range of whole pages that does. */
  lemma MapCovers(addr: u64, len: u64)
    requires UserAccess(MapStart(addr), MapEnd(addr, len))
    ensures MapStart(addr) <= addr && addr + len <= MapEnd(addr, len) <==> addr + len < W64
    ensures MapStart(addr) % PageSize == 0 && MapEnd(addr, len) % PageSize == 0
    ensures addr < MapStart(addr) + PageSize
    ensures addr + len < W64 ==> MapEnd(addr, len) < addr + len + PageSize
  {
    var e := Wrap64(addr + len);
    assert e == if addr + len < W64 then addr + len else addr + len - W64;
    RoundsDown(addr);
    RoundsUp(e);
  }

  lemma RoundsDown(a: int)
    requires 0 <= a
    ensures a - PageSize < RoundDown(a, PageSize) <= a && RoundDown(a, PageSize) % PageSize == 0
  {
  }

  lemma RoundsUp(e: u64)
    requires 0 < RoundUp64(e, PageSize)
    ensures e <= RoundUp64(e, PageSize) < e + PageSize && RoundUp64(e, PageSize) % PageSize == 0
  {
  }

  /** A length whose end wraps is accepted when the address is not page-aligned. */
  lemma WrappedLengthAccepted()
    ensures Outcome([], MapStart(0x80_0010), MapEnd(0x80_0010, 0xFFFF_FFFF_FFFF_FFF8), true) == Mapped
  {
  }
}
