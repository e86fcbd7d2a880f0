/**
 * User address spaces as the image loader uses them (kernel/executive/process/address_space.c):
 * owned regions in the order they were mapped, and the protection of each mapped page.
 */
module AddressSpaces {
  import opened Status

  const PAGE := 4096
  const USER_MIN := 0x1_0000
  const USER_MAX := 0x8000_0000_0000
  const REGION_CAPACITY := 32

  /** Every user page is readable; it may also be writable or executable. */
  datatype Protection = Protection(write: bool, execute: bool)

  const READ_ONLY := Protection(false, false)
  const READ_WRITE := Protection(true, false)

  datatype Region = Region(base: nat, size: nat)
  {
    predicate Has(page: nat) { base / PAGE <= page < (base + size) / PAGE }
  }

  /** The luck is what the page allocator will answer to the requests to come; past its end it grants. */
  datatype Space = Space(regions: seq<Region>, table: map<nat, Protection>, luck: seq<bool>)

  predicate RangeValid(base: nat, size: nat) {
    size != 0 && USER_MIN <= base < USER_MAX && size <= USER_MAX - base
  }

  predicate Touch(a: Region, b: Region) {
    a.base < b.base + b.size && b.base < a.base + a.size
  }

  predicate Aligned(r: Region) {
    r.base % PAGE == 0 && r.size % PAGE == 0 && RangeValid(r.base, r.size)
  }

  ghost predicate Apart(regions: seq<Region>) {
    forall i, j :: 0 <= i < j < |regions| ==> !Touch(regions[i], regions[j])
  }

  ghost predicate Holds(regions: seq<Region>, page: nat) {
    exists i :: 0 <= i < |regions| && regions[i].Has(page)
  }

  /** Regions are aligned and apart, their pages are the mapped ones, and none is writable code. */
  ghost predicate SpaceOk(s: Space) {
    && (forall i :: 0 <= i < |s.regions| ==> Aligned(s.regions[i]))
    && Apart(s.regions)
    && (forall p: nat :: p in s.table <==> Holds(s.regions, p))
    && (forall p: nat :: p in s.table ==> !(s.table[p].write && s.table[p].execute))
  }

  // Looking for room.

  predicate PowerOfTwo(n: nat) {
    n == 1 || (n > 1 && n % 2 == 0 && PowerOfTwo(n / 2))
  }

  function AlignUp(v: nat, alignment: nat): nat
    requires alignment > 0
  {
    (v + alignment - 1) / alignment * alignment
  }

  lemma AlignUpUp(v: nat, alignment: nat)
    requires alignment > 0
    ensures AlignUp(v, alignment) >= v
  {
    var q := (v + alignment - 1) / alignment;
    assert q * alignment + (v + alignment - 1) % alignment == v + alignment - 1;
  }

  predicate IsFree(regions: seq<Region>, r: Region) {
    forall i :: 0 <= i < |regions| ==> !Touch(r, regions[i])
  }

  /** The furthest aligned end of the regions that the candidate touches. */
  function NextCandidate(regions: seq<Region>, r: Region, alignment: nat): (n: nat)
    requires alignment > 0
    ensures n >= r.base
    decreases |regions|
  {
    if regions == [] then r.base
    else
      var rest := NextCandidate(regions[1..], r, alignment);
      var end := AlignUp(regions[0].base + regions[0].size, alignment);
      if Touch(r, regions[0]) && end > rest then end else rest
  }

  function Search(regions: seq<Region>, candidate: nat, end: nat, size: nat, alignment: nat): (r: Checked<nat>)
    requires alignment > 0
    ensures r.Ok? ==> candidate <= r.value && r.value + size <= end && IsFree(regions, Region(r.value, size))
    decreases end - candidate
  {
    if candidate >= end || size > end - candidate then Err(NotFound)
    else
      var r := Region(candidate, size);
      if IsFree(regions, r) then Ok(candidate)
      else
        var next := NextCandidate(regions, r, alignment);
        if next <= candidate then Err(InvalidState) else Search(regions, next, end, size, alignment)
  }

  predicate SearchArguments(base: nat, end: nat, size: nat, alignment: nat) {
    && size != 0 && size % PAGE == 0
    && alignment >= PAGE && PowerOfTwo(alignment) && alignment % PAGE == 0
    && USER_MIN <= base < end <= USER_MAX && size <= end - base
  }

  function FindFreeRange(s: Space, base: nat, end: nat, size: nat, alignment: nat): (r: Checked<nat>)
    ensures r.Ok? ==> base <= r.value && r.value + size <= end && IsFree(s.regions, Region(r.value, size))
  {
    if !SearchArguments(base, end, size, alignment) then Err(InvalidArgument)
    else
      AlignUpUp(base, alignment);
      Search(s.regions, AlignUp(base, alignment), end, size, alignment)
  }

  /** An aligned address below an aligned-up end lies below the end itself. */
  lemma AlignedBelow(c: nat, end: nat, alignment: nat)
    requires alignment > 0 && c % alignment == 0 && c < AlignUp(end, alignment)
    ensures c < end
  {
    var q, n := c / alignment, (end + alignment - 1) / alignment;
    assert c == q * alignment;
    assert q >= n ==> q * alignment >= n * alignment;
    assert q + 1 <= n ==> (q + 1) * alignment <= n * alignment;
    assert n * alignment <= end + alignment - 1;
  }

  /** No aligned candidate that a step of the search passes over is free. */
  lemma {:induction false} PassedOver(regions: seq<Region>, r: Region, alignment: nat, c: nat)
    requires alignment > 0 && c % alignment == 0 && r.base <= c < NextCandidate(regions, r, alignment)
    ensures !IsFree(regions, Region(c, r.size))
    decreases |regions|
  {
    hide AlignUp;
    var end := regions[0].base + regions[0].size;
    if Touch(r, regions[0]) && c < AlignUp(end, alignment) {
      AlignedBelow(c, end, alignment);
      assert Touch(Region(c, r.size), regions[0]);
    } else {
      PassedOver(regions[1..], r, alignment, c);
      var i :| 0 <= i < |regions[1..]| && Touch(Region(c, r.size), regions[1..][i]);
      assert regions[1..][i] == regions[i + 1];
    }
  }

  /** Each step of the search makes progress. */
  lemma {:induction false} NextIsFurther(regions: seq<Region>, r: Region, alignment: nat)
    requires alignment > 0 && !IsFree(regions, r)
    ensures NextCandidate(regions, r, alignment) > r.base
    decreases |regions|
  {
    hide AlignUp;
    AlignUpUp(regions[0].base + regions[0].size, alignment);
    if !Touch(r, regions[0]) {
      var i :| 0 <= i < |regions| && Touch(r, regions[i]);
      assert regions[1..][i - 1] == regions[i];
      NextIsFurther(regions[1..], r, alignment);
    }
  }

  lemma {:induction false} NextAligned(regions: seq<Region>, r: Region, alignment: nat)
    requires alignment > 0 && r.base % alignment == 0
    ensures NextCandidate(regions, r, alignment) % alignment == 0
    decreases |regions|
  {
    if regions != [] {
      NextAligned(regions[1..], r, alignment);
      MultipleOf((regions[0].base + regions[0].size + alignment - 1) / alignment, alignment);
    }
  }

  lemma MultipleOf(q: nat, alignment: nat)
    requires alignment > 0
    ensures q * alignment % alignment == 0
  {
    var d, r := q * alignment / alignment, q * alignment % alignment;
    assert (q - d) * alignment == r;
    assert q - d >= 1 ==> (q - d) * alignment >= alignment;
    assert q - d <= -1 ==> (q - d) * alignment < 0;
  }

  /** Larger powers of two are multiples of smaller ones. */
  lemma {:induction false} PowersDivide(n: nat, d: nat)
    requires PowerOfTwo(n) && PowerOfTwo(d) && d <= n
    ensures n % d == 0
    decreases n
  {
    if d > 1 {
      PowersDivide(n / 2, d / 2);
      var q := n / 2 / (d / 2);
      assert n / 2 == q * (d / 2);
      assert n == q * d;
      MultipleOf(q, d);
    }
  }

  /** The search finds the lowest aligned free range from its candidate on, or there is none. */
  lemma {:induction false} SearchFindsLowest(regions: seq<Region>, candidate: nat, end: nat, size: nat, alignment: nat)
    requires alignment > 0 && candidate % alignment == 0
    ensures var r := Search(regions, candidate, end, size, alignment);
            && (r == Err(NotFound) || (r.Ok? && r.value % alignment == 0))
            && forall c :: candidate <= c && c + size <= end && c < end && c % alignment == 0 && (r.Ok? ==> c < r.value) ==>
                 !IsFree(regions, Region(c, size))
    decreases end - candidate
  {
    hide IsFree, AlignUp, NextCandidate;
    if candidate < end && size <= end - candidate {
      var g := Region(candidate, size);
      if !IsFree(regions, g) {
        NextIsFurther(regions, g, alignment);
        NextAligned(regions, g, alignment);
        var next := NextCandidate(regions, g, alignment);
        SearchFindsLowest(regions, next, end, size, alignment);
        forall c | candidate <= c < next && c % alignment == 0
          ensures !IsFree(regions, Region(c, size))
        {
          PassedOver(regions, g, alignment, c);
        }
      }
    }
  }

  /**
   * The range found is the lowest one that is aligned, free and inside the bounds; acceptable bounds
   * without such a range are answered NOT_FOUND, and the search never gets stuck.
   */
  lemma LowestFree(s: Space, base: nat, end: nat, size: nat, alignment: nat)
    ensures var r := FindFreeRange(s, base, end, size, alignment);
            && (r == Err(InvalidArgument) <==> !SearchArguments(base, end, size, alignment))
            && (r.Ok? || r == Err(NotFound) || r == Err(InvalidArgument))
            && (r.Ok? ==> alignment > 0 && r.value % alignment == 0)
            && (r != Err(InvalidArgument) ==> alignment > 0 && forall c ::
                  base <= c && c + size <= end && c < end && c % alignment == 0 && (r.Ok? ==> c < r.value) ==>
                    !IsFree(s.regions, Region(c, size)))
  {
    hide IsFree, Search, PowerOfTwo;
    if SearchArguments(base, end, size, alignment) {
      var start := AlignUp(base, alignment);
      MultipleOf((base + alignment - 1) / alignment, alignment);
      SearchFindsLowest(s.regions, start, end, size, alignment);
      forall c | base <= c && c % alignment == 0
        ensures start <= c
      {
        if c < start {
          AlignedBelow(c, base, alignment);
        }
      }
    }
  }

  // Mapping.

  datatype Change = Change(status: Status, space: Space)

  function Refusal(base: nat, size: nat, p: Protection): Option<Failure> {
    if !RangeValid(base, size) then Some(InvalidUserBuffer)
    else if base % PAGE != 0 || size % PAGE != 0 then Some(AlignmentError)
    else if p.write && p.execute then Some(AccessDenied)
    else None
  }

  function PagesOf(r: Region): set<nat> {
    set page: nat | r.base / PAGE <= page < (r.base + r.size) / PAGE && r.Has(page)
  }

  function Paint(table: map<nat, Protection>, r: Region, p: Protection): map<nat, Protection> {
    map x | x in table.Keys + PagesOf(r) :: if r.Has(x) then p else table[x]
  }

  function Erase(table: map<nat, Protection>, r: Region): map<nat, Protection> {
    map x | x in table && !r.Has(x) :: table[x]
  }

  function MapOwned(s: Space, base: nat, size: nat, p: Protection): Change {
    var r := Region(base, size);
    var refusal := Refusal(base, size, p);
    if refusal.Some? then Change(refusal.value, s)
    else if |s.regions| >= REGION_CAPACITY then Change(BufferTooSmall, s)
    else if !IsFree(s.regions, r) then Change(AddressConflict, s)
    else
      var luck := if s.luck == [] then [] else s.luck[1..];
      if s.luck != [] && !s.luck[0] then Change(NoMemory, s.(luck := luck))
      else Change(Success, Space(s.regions + [r], Paint(s.table, r, p), luck))
  }

  predicate Contains(outer: Region, inner: Region) {
    inner.base >= outer.base && inner.base + inner.size <= outer.base + outer.size
  }

  function ProtectOwned(s: Space, base: nat, size: nat, p: Protection): Change {
    var r := Region(base, size);
    var refusal := Refusal(base, size, p);
    if refusal.Some? then Change(refusal.value, s)
    else if !exists i :: 0 <= i < |s.regions| && Contains(s.regions[i], r) then Change(NotFound, s)
    else Change(Success, s.(table := Paint(s.table, r, p)))
  }

  function FindExact(regions: seq<Region>, r: Region): (i: nat)
    ensures i <= |regions|
    ensures i < |regions| ==> regions[i] == r
    ensures forall j :: 0 <= j < i ==> regions[j] != r
  {
    if regions == [] then 0 else if regions[0] == r then 0 else 1 + FindExact(regions[1..], r)
  }

  function UnmapOwned(s: Space, base: nat, size: nat): Change {
    if size == 0 || size % PAGE != 0 then Change(InvalidArgument, s)
    else
      var r := Region(base, size);
      var i := FindExact(s.regions, r);
      if i == |s.regions| then Change(NotFound, s)
      else Change(Success, s.(regions := s.regions[..i] + s.regions[i + 1..], table := Erase(s.table, r)))
  }

  /** Whether code may be fetched from an address. */
  predicate Executable(s: Space, address: nat) {
    RangeValid(address, 1) && address / PAGE in s.table && s.table[address / PAGE].execute
  }

  // What the operations keep.

  lemma HoldsConcat(a: seq<Region>, b: seq<Region>, page: nat)
    ensures Holds(a + b, page) <==> Holds(a, page) || Holds(b, page)
  {
    if Holds(a, page) {
      var i :| 0 <= i < |a| && a[i].Has(page);
      assert (a + b)[i].Has(page);
    }
    if Holds(b, page) {
      var i :| 0 <= i < |b| && b[i].Has(page);
      assert (a + b)[|a| + i].Has(page);
    }
    if Holds(a + b, page) {
      var i :| 0 <= i < |a + b| && (a + b)[i].Has(page);
      if i < |a| { assert a[i].Has(page); } else { assert b[i - |a|].Has(page); }
    }
  }

  lemma HoldsOne(r: Region, page: nat)
    ensures Holds([r], page) <==> r.Has(page)
  {
    assert [r][0] == r;
  }

  lemma ApartPages(a: Region, b: Region, page: nat)
    requires Aligned(a) && Aligned(b) && a.Has(page)
    ensures !Touch(a, b) ==> !b.Has(page)
  {
    assert a.base <= page * PAGE < a.base + a.size;
  }

  lemma MapKeeps(s: Space, base: nat, size: nat, p: Protection)
    requires SpaceOk(s)
    ensures SpaceOk(MapOwned(s, base, size, p).space)
  {
    hide Touch, Aligned, Region.Has;
    var c := MapOwned(s, base, size, p);
    var r := Region(base, size);
    if c.status == Success {
      AlignedOf(base, size, p);
      forall page: nat
        ensures page in c.space.table <==> Holds(c.space.regions, page)
      {
        HoldsConcat(s.regions, [r], page);
        HoldsOne(r, page);
        PaintKeys(s.table, r, p, page);
      }
      ApartAppend(s.regions, r);
    }
  }

  lemma AlignedOf(base: nat, size: nat, p: Protection)
    requires Refusal(base, size, p) == None
    ensures Aligned(Region(base, size)) && !(p.write && p.execute)
  {
  }

  lemma PaintKeys(table: map<nat, Protection>, r: Region, p: Protection, page: nat)
    ensures page in Paint(table, r, p) <==> page in table || r.Has(page)
    ensures page in Paint(table, r, p) ==> Paint(table, r, p)[page] == if r.Has(page) then p else table[page]
  {
  }

  lemma ApartAppend(regions: seq<Region>, r: Region)
    requires Apart(regions) && IsFree(regions, r)
    ensures Apart(regions + [r])
  {
    hide Touch;
    var all := regions + [r];
    forall i, j | 0 <= i < j < |all|
      ensures !Touch(all[i], all[j])
    {
      if j == |regions| {
        TouchSymmetric(r, regions[i]);
      }
    }
  }

  lemma TouchSymmetric(a: Region, b: Region)
    ensures Touch(a, b) == Touch(b, a)
  {
  }

  lemma ProtectKeeps(s: Space, base: nat, size: nat, p: Protection)
    requires SpaceOk(s)
    ensures SpaceOk(ProtectOwned(s, base, size, p).space)
    ensures ProtectOwned(s, base, size, p).space.regions == s.regions
    ensures ProtectOwned(s, base, size, p).space.luck == s.luck
  {
    hide Touch, Region.Has, Aligned, Contains;
    var c := ProtectOwned(s, base, size, p);
    var r := Region(base, size);
    if c.status == Success {
      AlignedOf(base, size, p);
      var i :| 0 <= i < |s.regions| && Contains(s.regions[i], r);
      forall page: nat
        ensures page in c.space.table <==> Holds(s.regions, page)
        ensures page in c.space.table ==> !(c.space.table[page].write && c.space.table[page].execute)
      {
        PaintKeys(s.table, r, p, page);
        if r.Has(page) {
          ContainedPage(s.regions[i], r, page);
        }
      }
    }
  }

  lemma ContainedPage(outer: Region, inner: Region, page: nat)
    requires Aligned(outer) && Aligned(inner) && Contains(outer, inner) && inner.Has(page)
    ensures outer.Has(page)
  {
  }

  /** Unmapping the region mapped last undoes the mapping: its pages go and all others stay. */
  lemma UnmapLast(s: Space, front: seq<Region>, r: Region)
    requires SpaceOk(s) && s.regions == front + [r]
    ensures var c := UnmapOwned(s, r.base, r.size);
            && c.status == Success && c.space.regions == front && SpaceOk(c.space)
            && (forall p: nat :: p in c.space.table <==> (p in s.table && !r.Has(p)))
            && (forall p: nat :: p in c.space.table ==> c.space.table[p] == s.table[p])
  {
    hide Touch, Region.Has;
    var last := |front|;
    assert s.regions[last] == r && Aligned(r);
    var i := FindExact(s.regions, r);
    LastIsOnly(s.regions, last, i);
    assert s.regions[..i] + s.regions[i + 1..] == front;
    var c := UnmapOwned(s, r.base, r.size);
    forall p: nat
      ensures p in c.space.table <==> Holds(front, p)
    {
      HoldsConcat(front, [r], p);
      HoldsOne(r, p);
      if Holds(front, p) {
        var k :| 0 <= k < |front| && front[k].Has(p);
        assert s.regions[k] == front[k] && !Touch(front[k], r);
        ApartPages(front[k], r, p);
      }
    }
    assert forall k :: 0 <= k < |front| ==> front[k] == s.regions[k];
  }

  lemma LastIsOnly(regions: seq<Region>, last: nat, i: nat)
    requires Apart(regions) && last < |regions| && Aligned(regions[last]) && last == |regions| - 1
    requires i <= |regions| && (i < |regions| ==> regions[i] == regions[last]) && forall j :: 0 <= j < i ==> regions[j] != regions[last]
    ensures i == last
  {
    if i < last {
      TouchItself(regions[last]);
    }
  }

  lemma TouchItself(r: Region)
    requires Aligned(r)
    ensures Touch(r, r)
  {
  }
}
