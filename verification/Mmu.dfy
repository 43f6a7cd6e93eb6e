/** Address-space accounting (src/mmu.c) and `sys_brk` (src/syscall.c). Host mappings are the key
    set of a byte map; the page size is that of the supported host, 4096. */
module Mmu {
  import opened Words
  import opened Memory

  // ---- page rounding ----

  /** `x & -k` and `(x + k - 1) & -k` for the page size k, a power of two. */
  function RoundDown(x: u64): u64 { x - x % 4096 }
  function RoundUp(x: u64): u64 { RoundDown(Wrap64(x + 4095)) }

  lemma RoundUpBounds(x: u64)
    requires x + 4095 < TWO64
    ensures x <= RoundUp(x) < x + 4096 && RoundUp(x) % 4096 == 0
  {
  }

  lemma RoundUpExact(x: u64)
    requires x % 4096 == 0 && x + 4095 < TWO64
    ensures RoundUp(x) == x
  {
    hide RoundUp;
    RoundUpBounds(x);
  }

  lemma RoundDownBounds(x: u64)
    ensures RoundDown(x) <= x < RoundDown(x) + 4096 && RoundDown(x) % 4096 == 0
  {
  }

  // ---- the host's mmap and munmap, on the mapped bytes ----

  predicate Free(m: Mem, lo: u64, n: nat) { forall h: u64 | h in m :: !(lo <= h < lo + n) }

  predicate AllMapped(m: Mem, lo: u64, n: nat) { forall h: u64 | lo <= h < lo + n :: h in m }

  predicate Within(h: u64, lo: u64, n: nat) { lo <= h < lo + n }

  function MapZero(m: Mem, lo: u64, n: nat): Mem {
    m + (map h: u64 | lo <= h < lo + n && Within(h, lo, n) :: 0)
  }

  function Unmap(m: Mem, lo: u64, n: nat): Mem {
    map h: u64 | h in m && !(lo <= h < lo + n) :: m[h]
  }

  /** An anonymous mapping without MAP_FIXED: the host honours the hint when the range is free and
      otherwise picks another place, which the guest never hears of. */
  function MmapHint(m: Mem, lo: u64, n: nat): Mem {
    if lo + n <= TWO64 && Free(m, lo, n) then MapZero(m, lo, n) else m
  }

  // ---- mmu_t ----

  datatype Space = Space(hostAlloc: u64, guestAlloc: u64, base: u64, mem: Mem)

  /** A call of `mmu_alloc` that needs more pages. */
  predicate Grows(s: Space, size: int) {
    size > 0 && Wrap64(s.guestAlloc + size) > ToGuest(s.hostAlloc)
  }

  /** `mmu_alloc`, without the returned address, which is the old `guest_alloc`. `None` is a
      failed assertion. The shrinking branch unmaps above `host_alloc`, as the code does. */
  function AllocStep(s: Space, size: int): Option<Space> {
    var g := Wrap64(s.guestAlloc + size);
    if s.guestAlloc < s.base || g < s.base then None
    else if Grows(s, size) then
      var n := RoundUp(Wrap64(size));
      Some(s.(guestAlloc := g, hostAlloc := Wrap64(s.hostAlloc + n), mem := MmapHint(s.mem, s.hostAlloc, n)))
    else if size < 0 && RoundUp(g) < ToGuest(s.hostAlloc) then
      var n := ToGuest(s.hostAlloc) - RoundUp(g);
      Some(s.(guestAlloc := g, hostAlloc := Wrap64((s.hostAlloc as int) - n), mem := Unmap(s.mem, s.hostAlloc, n)))
    else Some(s.(guestAlloc := g))
  }

  /** The call does not wrap the 64-bit counters. */
  predicate NoWrap(s: Space, size: int) {
    0 <= s.guestAlloc + size && s.hostAlloc + (if size > 0 then size else 0) + 4096 <= TWO64
  }

  /** base <= guest_alloc <= TO_GUEST(host_alloc), with host_alloc page-aligned. */
  predicate Accounted(s: Space) {
    && GUEST_OFFSET <= s.hostAlloc
    && s.base <= s.guestAlloc <= s.hostAlloc - GUEST_OFFSET
    && s.hostAlloc % 4096 == 0
  }

  /** Every guest address from base to the end of the accounted pages is mapped. */
  predicate Covered(s: Space) {
    forall h: u64 | s.base + GUEST_OFFSET <= h < s.hostAlloc :: h in s.mem
  }

  /** Nothing is mapped at or above the accounted end, and what has not been handed out is zero. */
  predicate Fresh(s: Space) {
    && (forall h: u64 | h in s.mem :: h < s.hostAlloc)
    && (forall h: u64 | s.guestAlloc + GUEST_OFFSET <= h < s.hostAlloc && h in s.mem :: s.mem[h] == 0)
  }

  /** The state after loading, and after any run of growing calls. */
  predicate Sound(s: Space) { Accounted(s) && Covered(s) && Fresh(s) }

  lemma GuestOfHost(h: u64)
    requires h >= GUEST_OFFSET
    ensures ToGuest(h) == h - GUEST_OFFSET
  {
  }

  lemma GrowAccounts(s: Space, size: int)
    requires Accounted(s) && NoWrap(s, size) && Grows(s, size)
    ensures AllocStep(s, size) == Some(Space(s.hostAlloc + RoundUp(size), s.guestAlloc + size, s.base,
                                             MmapHint(s.mem, s.hostAlloc, RoundUp(size))))
    ensures size <= RoundUp(size) < size + 4096 && RoundUp(size) % 4096 == 0
  {
    hide MmapHint, RoundUp;
    RoundUpBounds(size);
  }

  lemma ShrinkAccounts(s: Space, size: int)
    requires Accounted(s) && NoWrap(s, size) && size < 0 && s.base <= s.guestAlloc + size
    ensures var g := s.guestAlloc + size;
      && g <= RoundUp(g) < g + 4096 && RoundUp(g) % 4096 == 0
      && var end := s.hostAlloc - GUEST_OFFSET;
         AllocStep(s, size) == Some(
           if RoundUp(g) < end
           then Space(RoundUp(g) + GUEST_OFFSET, g, s.base, Unmap(s.mem, s.hostAlloc, end - RoundUp(g)))
           else s.(guestAlloc := g))
  {
    hide Unmap, RoundUp, ToGuest;
    RoundUpBounds(s.guestAlloc + size);
    GuestOfHost(s.hostAlloc);
  }

  lemma StayAccounts(s: Space, size: int)
    requires Accounted(s) && NoWrap(s, size) && size >= 0 && !Grows(s, size)
    ensures AllocStep(s, size) == Some(s.(guestAlloc := s.guestAlloc + size))
    ensures s.guestAlloc + size <= s.hostAlloc - GUEST_OFFSET
  {
    hide RoundUp, ToGuest;
    GuestOfHost(s.hostAlloc);
  }

  /** The bookkeeping of one call, growing or shrinking: it is refused exactly when it would go
      below base, and otherwise the break moves by the requested amount and the three fields stay
      in order with host_alloc on a page boundary. */
  lemma AllocAccounts(s: Space, size: int)
    requires Accounted(s) && NoWrap(s, size)
    ensures AllocStep(s, size) == None <==> s.guestAlloc + size < s.base
    ensures AllocStep(s, size).Some? ==>
      var t := AllocStep(s, size).value;
      Accounted(t) && t.guestAlloc == s.guestAlloc + size && t.base == s.base
  {
    hide MmapHint, Unmap, RoundUp, ToGuest;
    if Grows(s, size) {
      GrowAccounts(s, size);
    } else if size >= 0 {
      StayAccounts(s, size);
    } else if s.base <= s.guestAlloc + size {
      ShrinkAccounts(s, size);
      hide AllocStep;
    }
  }

  // ---- what is mapped ----

  lemma MapZeroBytes(m: Mem, lo: u64, n: nat, h: u64)
    ensures h in MapZero(m, lo, n) <==> h in m || Within(h, lo, n)
    ensures Within(h, lo, n) ==> MapZero(m, lo, n)[h] == 0
    ensures !Within(h, lo, n) && h in m ==> MapZero(m, lo, n)[h] == m[h]
  {
  }

  /** One call keeps the coverage of the accounted pages if and only if it needs no new page, or
      the range it asks the host for is entirely free, or is already entirely mapped. */
  lemma AllocCovers(s: Space, size: int)
    requires Accounted(s) && NoWrap(s, size) && Covered(s) && s.base <= s.guestAlloc + size
    ensures AllocStep(s, size).Some?
    ensures Covered(AllocStep(s, size).value) <==>
      !Grows(s, size) || Free(s.mem, s.hostAlloc, RoundUp(size)) || AllMapped(s.mem, s.hostAlloc, RoundUp(size))
  {
    hide RoundUp, ToGuest;
    if Grows(s, size) {
      GrowAccounts(s, size);
      GrowCovers(s, size);
    } else if size >= 0 {
      StayAccounts(s, size);
    } else {
      ShrinkAccounts(s, size);
    }
  }

  lemma GrowCovers(s: Space, size: int)
    requires Accounted(s) && NoWrap(s, size) && Covered(s) && Grows(s, size)
    ensures Covered(Space(s.hostAlloc + RoundUp(size), s.guestAlloc + size, s.base, MmapHint(s.mem, s.hostAlloc, RoundUp(size))))
      <==> Free(s.mem, s.hostAlloc, RoundUp(size)) || AllMapped(s.mem, s.hostAlloc, RoundUp(size))
  {
    RoundUpBounds(size);
    hide RoundUp, ToGuest;
    var n := RoundUp(size);
    var t := Space(s.hostAlloc + n, s.guestAlloc + size, s.base, MmapHint(s.mem, s.hostAlloc, n));
    if Free(s.mem, s.hostAlloc, n) {
      forall h: u64 | t.base + GUEST_OFFSET <= h < t.hostAlloc
        ensures h in t.mem
      {
        MapZeroBytes(s.mem, s.hostAlloc, n, h);
      }
    } else if Covered(t) {
      assert AllMapped(s.mem, s.hostAlloc, n);
    }
  }

  // ---- runs ----

  function AllocRun(s: Space, sizes: seq<int>): Option<Space>
    decreases sizes
  {
    if sizes == [] then Some(s)
    else
      var t := AllocStep(s, sizes[0]);
      if t.None? then None else AllocRun(t.value, sizes[1..])
  }

  /** The addresses the calls of a run return. */
  function Addresses(s: Space, sizes: seq<int>): seq<u64>
    requires AllocRun(s, sizes).Some?
    decreases sizes
  {
    if sizes == [] then [] else [s.guestAlloc] + Addresses(AllocStep(s, sizes[0]).value, sizes[1..])
  }

  function Sum(sizes: seq<int>): int { if sizes == [] then 0 else sizes[0] + Sum(sizes[1..]) }

  /** Every call of the run passes its assertions and does not wrap. */
  predicate Admissible(s: Space, sizes: seq<int>)
    decreases sizes
  {
    sizes == [] ||
    (NoWrap(s, sizes[0]) && AllocStep(s, sizes[0]).Some? && Admissible(AllocStep(s, sizes[0]).value, sizes[1..]))
  }

  /** Bookkeeping over any mixed run of growing and shrinking calls. */
  lemma {:induction false} RunAccounts(s: Space, sizes: seq<int>)
    requires Accounted(s) && Admissible(s, sizes)
    ensures AllocRun(s, sizes).Some?
    decreases sizes
    ensures var t := AllocRun(s, sizes).value;
      Accounted(t) && t.base == s.base && t.guestAlloc == s.guestAlloc + Sum(sizes)
  {
    hide AllocStep, NoWrap, Accounted;
    if sizes != [] {
      AllocAccounts(s, sizes[0]);
      RunAccounts(AllocStep(s, sizes[0]).value, sizes[1..]);
    }
  }

  /** The condition of AllocCovers on one call, in the state before it. */
  predicate MeetsHost(s: Space, size: int) {
    !Grows(s, size) ||
    (var n := RoundUp(Wrap64(size)); Free(s.mem, s.hostAlloc, n) || AllMapped(s.mem, s.hostAlloc, n))
  }

  /** Every call of the run meets it in its own state. */
  predicate AllMeetHost(s: Space, sizes: seq<int>)
    decreases sizes
  {
    sizes == [] ||
    (MeetsHost(s, sizes[0]) && AllocStep(s, sizes[0]).Some? && AllMeetHost(AllocStep(s, sizes[0]).value, sizes[1..]))
  }

  /** The accounted pages are mapped after every call of the run. */
  predicate AlwaysCovered(s: Space, sizes: seq<int>) {
    forall k | 0 <= k <= |sizes| :: AllocRun(s, sizes[..k]).Some? && Covered(AllocRun(s, sizes[..k]).value)
  }

  lemma CoveredTail(s: Space, sizes: seq<int>)
    requires sizes != [] && AllocStep(s, sizes[0]).Some?
    ensures AlwaysCovered(s, sizes) <==> Covered(s) && AlwaysCovered(AllocStep(s, sizes[0]).value, sizes[1..])
  {
    hide AllocStep, Covered;
    var t := AllocStep(s, sizes[0]).value;
    forall k | 0 < k <= |sizes|
      ensures AllocRun(s, sizes[..k]) == AllocRun(t, sizes[1..][..k - 1])
    {
      assert sizes[..k][1..] == sizes[1..][..k - 1];
    }
    assert sizes[..0] == [];
    if AlwaysCovered(s, sizes) {
      forall k | 0 <= k <= |sizes[1..]|
        ensures AllocRun(t, sizes[1..][..k]).Some? && Covered(AllocRun(t, sizes[1..][..k]).value)
      {
        assert AllocRun(s, sizes[..k + 1]) == AllocRun(t, sizes[1..][..k]);
      }
      assert Covered(AllocRun(s, sizes[..0]).value);
    }
  }

  /** Coverage over any mixed run of growing and shrinking calls: it is kept throughout if and only
      if every call that needs pages asks, in its own state, for a range that is entirely free or
      already entirely mapped. */
  lemma {:induction false} RunCovers(s: Space, sizes: seq<int>)
    requires Accounted(s) && Covered(s) && Admissible(s, sizes)
    ensures AlwaysCovered(s, sizes) <==> AllMeetHost(s, sizes)
    decreases sizes
  {
    hide AllocStep, NoWrap, Accounted, Covered, MeetsHost, AlwaysCovered;
    if sizes == [] {
      NothingToCover(s);
    } else {
      var t := AllocStep(s, sizes[0]).value;
      AllocAccounts(s, sizes[0]);
      StepCovers(s, sizes[0]);
      CoveredTail(s, sizes);
      if Covered(t) {
        RunCovers(t, sizes[1..]);
      } else {
        CoveredFirst(t, sizes[1..]);
      }
    }
  }

  lemma NothingToCover(s: Space)
    requires Covered(s)
    ensures AlwaysCovered(s, [])
  {
    hide Covered;
    var none: seq<int> := [];
    assert forall k | 0 <= k <= |none| :: none[..k] == none;
  }

  lemma CoveredFirst(s: Space, sizes: seq<int>)
    ensures AlwaysCovered(s, sizes) ==> Covered(s)
  {
    hide Covered;
    assert sizes[..0] == [];
  }

  lemma StepCovers(s: Space, size: int)
    requires Accounted(s) && NoWrap(s, size) && Covered(s) && AllocStep(s, size).Some?
    ensures Covered(AllocStep(s, size).value) <==> MeetsHost(s, size)
  {
    hide AllocStep, Covered, Free, AllMapped, RoundUp, ToGuest;
    AllocAccounts(s, size);
    AllocCovers(s, size);
  }

  /** One growing call hands out a fresh, mapped, zeroed range, touches nothing that was there,
      and leaves the state sound. */
  lemma AllocSound(s: Space, size: int)
    requires Sound(s) && NoWrap(s, size) && size >= 0
    ensures AllocStep(s, size).Some?
    ensures var t := AllocStep(s, size).value;
      && Sound(t) && t.guestAlloc == s.guestAlloc + size && t.base == s.base
      && s.hostAlloc <= t.hostAlloc < s.hostAlloc + size + 4096
      && (forall h: u64 | h in s.mem :: h in t.mem && t.mem[h] == s.mem[h])
      && (forall h: u64 | Within(h, s.guestAlloc + GUEST_OFFSET, size) :: h in t.mem && t.mem[h] == 0)
  {
    if Grows(s, size) {
      GrowSound(s, size);
    } else {
      StayAccounts(s, size);
      hide AllocStep, Grows, ToGuest;
      var t := s.(guestAlloc := s.guestAlloc + size);
      assert Sound(t);
    }
  }

  lemma GrowSound(s: Space, size: int)
    requires Sound(s) && NoWrap(s, size) && Grows(s, size)
    ensures AllocStep(s, size).Some?
    ensures var t := AllocStep(s, size).value;
      && Sound(t) && t.guestAlloc == s.guestAlloc + size && t.base == s.base
      && s.hostAlloc <= t.hostAlloc < s.hostAlloc + size + 4096
      && (forall h: u64 | h in s.mem :: h in t.mem && t.mem[h] == s.mem[h])
      && (forall h: u64 | Within(h, s.guestAlloc + GUEST_OFFSET, size) :: h in t.mem && t.mem[h] == 0)
  {
    hide AllocStep, RoundUp, ToGuest, MapZero;
    GrowAccounts(s, size);
    var n := RoundUp(size);
    assert Free(s.mem, s.hostAlloc, n);
    FreshPages(s, size, n);
  }

  lemma FreshPages(s: Space, size: int, n: nat)
    requires Sound(s) && 0 < size <= n < size + 4096 && n % 4096 == 0 && s.hostAlloc + n < TWO64
    ensures var t := Space(s.hostAlloc + n, s.guestAlloc + size, s.base, MapZero(s.mem, s.hostAlloc, n));
      && Sound(t)
      && (forall h: u64 | h in s.mem :: h in t.mem && t.mem[h] == s.mem[h])
      && (forall h: u64 | Within(h, s.guestAlloc + GUEST_OFFSET, size) :: h in t.mem && t.mem[h] == 0)
  {
    hide MapZero;
    var t := Space(s.hostAlloc + n, s.guestAlloc + size, s.base, MapZero(s.mem, s.hostAlloc, n));
    forall h: u64
      ensures h in t.mem <==> h in s.mem || Within(h, s.hostAlloc, n)
      ensures Within(h, s.hostAlloc, n) ==> t.mem[h] == 0
      ensures h in s.mem ==> t.mem[h] == s.mem[h]
    {
      MapZeroBytes(s.mem, s.hostAlloc, n, h);
    }
  }

  /** Any run of nonnegative calls that fits the address space keeps the state sound; the ranges
      it returns are contiguous, hence disjoint, and all of [base, guest_alloc) is mapped. */
  lemma {:induction false} GrowthRun(s: Space, sizes: seq<int>)
    requires Sound(s)
    requires forall k | 0 <= k < |sizes| :: sizes[k] >= 0
    requires s.hostAlloc + Sum(sizes) + 4096 * |sizes| <= TWO64
    ensures AllocRun(s, sizes).Some? && Sound(AllocRun(s, sizes).value)
    ensures AllocRun(s, sizes).value.guestAlloc == s.guestAlloc + Sum(sizes)
    ensures |Addresses(s, sizes)| == |sizes|
    ensures forall k | 0 <= k < |sizes| :: Addresses(s, sizes)[k] == s.guestAlloc + Sum(sizes[..k])
    decreases sizes
  {
    hide AllocStep, Sound;
    if sizes == [] {
    } else {
      SumNonnegative(sizes[1..]);
      assert NoWrap(s, sizes[0]);
      AllocSound(s, sizes[0]);
      var t := AllocStep(s, sizes[0]).value;
      GrowthRun(t, sizes[1..]);
      forall k | 0 <= k < |sizes|
        ensures Addresses(s, sizes)[k] == s.guestAlloc + Sum(sizes[..k])
      {
        if k > 0 {
          assert sizes[..k][1..] == sizes[1..][..k - 1];
          assert Addresses(s, sizes)[k] == Addresses(t, sizes[1..])[k - 1];
        }
      }
    }
  }

  lemma {:induction false} SumNonnegative(sizes: seq<int>)
    requires forall k | 0 <= k < |sizes| :: sizes[k] >= 0
    ensures Sum(sizes) >= 0
  {
    if sizes != [] { SumNonnegative(sizes[1..]); }
  }

  lemma {:induction false} SumPrefix(sizes: seq<int>, i: nat, j: nat)
    requires i < j <= |sizes|
    requires forall k | 0 <= k < |sizes| :: sizes[k] >= 0
    ensures Sum(sizes[..i]) + sizes[i] <= Sum(sizes[..j])
    decreases i
  {
    assert sizes[..j][1..] == sizes[1..][..j - 1];
    if i == 0 {
      SumNonnegative(sizes[1..][..j - 1]);
    } else {
      assert sizes[..i][1..] == sizes[1..][..i - 1];
      SumPrefix(sizes[1..], i - 1, j - 1);
    }
  }

  /** Different calls of a growing run return disjoint ranges. */
  lemma RangesDisjoint(s: Space, sizes: seq<int>, i: nat, j: nat)
    requires Sound(s) && i < j < |sizes|
    requires forall k | 0 <= k < |sizes| :: sizes[k] >= 0
    requires s.hostAlloc + Sum(sizes) + 4096 * |sizes| <= TWO64
    ensures AllocRun(s, sizes).Some? && |Addresses(s, sizes)| == |sizes|
    ensures Addresses(s, sizes)[i] + sizes[i] <= Addresses(s, sizes)[j]
  {
    GrowthRun(s, sizes);
    SumPrefix(sizes, i, j);
  }

  // ---- shrinking loses pages ----

  const START: Space := Space(0x0888_0001_0000, 0x1_0000, 0x1_0000, map[])
  const TWO_PAGES: Mem := MapZero(map[], 0x0888_0001_0000, 0x2000)

  lemma PageMultiples()
    ensures RoundUp(0x2000) == 0x2000 && RoundUp(0x3000) == 0x3000 && RoundUp(0x1_1000) == 0x1_1000
  {
    hide RoundUp;
    RoundUpExact(0x2000);
    RoundUpExact(0x3000);
    RoundUpExact(0x1_1000);
  }

  lemma TwoPagesIn()
    ensures AllocStep(START, 0x2000) == Some(Space(0x0888_0001_2000, 0x1_2000, 0x1_0000, TWO_PAGES))
  {
    hide AllocStep, MapZero, ToGuest, RoundUp;
    GuestOfHost(0x0888_0001_0000);
    PageMultiples();
    GrowAccounts(START, 0x2000);
  }

  lemma OnePageBack(m: Mem)
    ensures AllocStep(Space(0x0888_0001_2000, 0x1_2000, 0x1_0000, m), -0x1000)
         == Some(Space(0x0888_0001_1000, 0x1_1000, 0x1_0000, Unmap(m, 0x0888_0001_2000, 0x1000)))
  {
    hide AllocStep, Unmap, RoundUp;
    PageMultiples();
    ShrinkAccounts(Space(0x0888_0001_2000, 0x1_2000, 0x1_0000, m), -0x1000);
  }

  lemma ThreePagesElsewhere(m: Mem)
    requires 0x0888_0001_1000 in m
    ensures AllocStep(Space(0x0888_0001_1000, 0x1_1000, 0x1_0000, m), 0x3000)
         == Some(Space(0x0888_0001_4000, 0x1_4000, 0x1_0000, m))
  {
    hide AllocStep, MapZero, ToGuest, RoundUp;
    GuestOfHost(0x0888_0001_1000);
    PageMultiples();
    GrowAccounts(Space(0x0888_0001_1000, 0x1_1000, 0x1_0000, m), 0x3000);
  }

  /** The coverage law fails: two pages are handed out, one is given back, three more are asked
      for. The host still has the second page mapped at the hint, so the new pages go elsewhere
      and a guest address below the break is not mapped. */
  lemma ShrinkThenGrowLosesPages()
    ensures Sound(START)
    ensures var r := AllocRun(START, [0x2000, -0x1000, 0x3000]);
      && r.Some? && Accounted(r.value) && !Covered(r.value)
      && 0x1_2000 < r.value.guestAlloc && ToHost(0x1_2000) !in r.value.mem
  {
    hide AllocStep, Unmap, MapZero, AllocRun;
    var m := Unmap(TWO_PAGES, 0x0888_0001_2000, 0x1000);
    SecondPageLeft();
    TwoPagesIn();
    OnePageBack(TWO_PAGES);
    ThreePagesElsewhere(m);
    var s1 := Space(0x0888_0001_2000, 0x1_2000, 0x1_0000, TWO_PAGES);
    var s2 := Space(0x0888_0001_1000, 0x1_1000, 0x1_0000, m);
    var s3 := Space(0x0888_0001_4000, 0x1_4000, 0x1_0000, m);
    RunOfThree(START, s1, s2, s3, 0x2000, -0x1000, 0x3000);
    assert !Covered(s3) by { assert 0x0888_0001_2000 !in s3.mem; }
  }

  lemma SecondPageLeft()
    ensures var m := Unmap(TWO_PAGES, 0x0888_0001_2000, 0x1000); 0x0888_0001_1000 in m && 0x0888_0001_2000 !in m
  {
    hide MapZero;
    MapZeroBytes(map[], 0x0888_0001_0000, 0x2000, 0x0888_0001_1000);
    MapZeroBytes(map[], 0x0888_0001_0000, 0x2000, 0x0888_0001_2000);
  }

  lemma RunOfThree(s: Space, s1: Space, s2: Space, s3: Space, a: int, b: int, c: int)
    requires AllocStep(s, a) == Some(s1) && AllocStep(s1, b) == Some(s2) && AllocStep(s2, c) == Some(s3)
    ensures AllocRun(s, [a, b, c]) == Some(s3)
  {
    hide AllocStep;
    assert [a, b, c][1..] == [b, c] && [b, c][1..] == [c] && [c][1..] == [];
    assert AllocRun(s2, [c]) == Some(s3);
    assert AllocRun(s1, [b, c]) == Some(s3);
  }

  // ---- sys_brk ----

  /** `(int64_t)addr - guest_alloc`. */
  function BrkIncrement(s: Space, addr: u64): int { Signed64(Wrap64((addr as int) - s.guestAlloc)) }

  /** Whatever the requested address, a `brk` that passes its assertions leaves the break there. */
  lemma BrkSetsBreak(s: Space, addr: u64)
    requires AllocStep(s, BrkIncrement(s, addr)).Some?
    ensures AllocStep(s, BrkIncrement(s, addr)).value.guestAlloc == addr
  {
    hide MmapHint, Unmap, RoundUp, ToGuest;
    var d := (addr as int) - s.guestAlloc;
    var k := if Signed64(Wrap64(d)) == d then 0 else if d < 0 then 1 else -1;
    assert Signed64(Wrap64(d)) == d + k * 0x1_0000_0000_0000_0000;
    WrapShift64(addr, k);
  }

  lemma BrkUp(s: Space, addr: u64)
    requires Accounted(s) && s.hostAlloc <= 0x4000_0000_0000_0000
    ensures addr - s.guestAlloc < TWO63 ==> BrkIncrement(s, addr) == (addr as int) - s.guestAlloc
    ensures addr - s.guestAlloc >= TWO63 ==> BrkIncrement(s, addr) == (addr as int) - s.guestAlloc - TWO64
  {
  }

  /** For an address space of ordinary size, `brk` keeps the bookkeeping if and only if the
      request is less than 2^63 above the break. A larger one is taken for a shrink, and the break
      moves above the accounted pages. */
  lemma BrkAccounts(s: Space, addr: u64)
    requires Accounted(s) && s.hostAlloc <= 0x4000_0000_0000_0000 && s.base <= addr
    ensures AllocStep(s, BrkIncrement(s, addr)).Some?
    ensures Accounted(AllocStep(s, BrkIncrement(s, addr)).value) <==> addr - s.guestAlloc < TWO63
  {
    BrkUp(s, addr);
    hide MmapHint, Unmap, RoundUp, ToGuest, BrkIncrement;
    if addr - s.guestAlloc < TWO63 {
      AllocAccounts(s, BrkIncrement(s, addr));
    } else {
      FarBrk(s, addr, BrkIncrement(s, addr));
    }
  }

  lemma FarBrk(s: Space, addr: u64, incr: int)
    requires Accounted(s) && s.hostAlloc <= 0x4000_0000_0000_0000 && s.base <= addr
    requires addr - s.guestAlloc >= TWO63 && incr == (addr as int) - s.guestAlloc - TWO64
    ensures AllocStep(s, incr).Some? && !Accounted(AllocStep(s, incr).value)
  {
    hide Unmap, MmapHint, RoundUp;
    GuestOfHost(s.hostAlloc);
    WrapShift64(addr, -1);
  }

  /** A request 2^63 above the break, on which the bookkeeping is lost. */
  lemma FarBrkCounterexample()
    ensures Accounted(START) && START.base <= 0x8000_0000_0001_0000
    ensures var r := AllocStep(START, BrkIncrement(START, 0x8000_0000_0001_0000)); r.Some? && !Accounted(r.value)
  {
    hide AllocStep, BrkIncrement;
    BrkAccounts(START, 0x8000_0000_0001_0000);
  }
}
