/** The initial stack image built by `machine_setup` (src/machine.c): the argument strings above a
    32 MiB stack, and below its top, from high to low, three zero words, the argument pointers and
    the argument count. */
module StackImage {
  import opened Words
  import opened Memory
  import opened Mmu
  import opened Segments
  import opened AddressSpace
  import Isa
  import Runs

  const STACK_SIZE: int := 0x200_0000
  const SP: nat := 2

  /** `argc` as the loop sees it: argument 0 is never pushed, present or not. */
  function Count(argv: seq<seq<byte>>): nat { if argv == [] then 1 else |argv| }

  /** Bytes taken by the strings from index k on, terminators included. */
  function Tail(argv: seq<seq<byte>>, k: nat): nat
    decreases |argv| - k
  {
    if k >= |argv| then 0 else |argv[k]| + 1 + Tail(argv, k + 1)
  }

  /** Where the copy of argument i lies: the strings follow the stack, the last argument first. */
  function StringAddress(top: nat, argv: seq<seq<byte>>, i: nat): nat { top + Tail(argv, i + 1) }

  /** The address of the stack word for argument i; word 0 is the count. */
  function Slot(top: nat, argv: seq<seq<byte>>, i: nat): int { top - 8 * (Count(argv) + 3 - i) }

  /** The eight bytes at guest address a hold v. */
  predicate WordAt(m: Mem, a: int, v: nat) {
    forall h: u64 | a + GUEST_OFFSET <= h < a + GUEST_OFFSET + 8 ::
      h in m && m[h] == ByteOf(v, h - a - GUEST_OFFSET)
  }

  /** The bytes at guest address a are those of d, and then a zero. */
  predicate StringAt(m: Mem, a: int, d: seq<byte>) {
    && (forall h: u64 | a + GUEST_OFFSET <= h < a + GUEST_OFFSET + |d| ::
          h in m && m[h] == d[h - a - GUEST_OFFSET])
    && (forall h: u64 | h == a + GUEST_OFFSET + |d| :: h in m && m[h] == 0)
  }

  predicate ZeroAt(m: Mem, a: int, n: nat) {
    forall h: u64 | a + GUEST_OFFSET <= h < a + GUEST_OFFSET + n :: h in m && m[h] == 0
  }

  /** Every byte below guest address a is still there, unchanged. */
  predicate Keeps(m: Mem, m': Mem, a: int) {
    forall h: u64 | h in m && h < a + GUEST_OFFSET :: h in m' && m'[h] == m[h]
  }

  /** The address space is large enough for the stack and the strings. */
  predicate Fits(s: Space, argv: seq<seq<byte>>) {
    && 8 * (Count(argv) + 3) <= STACK_SIZE
    && s.hostAlloc + STACK_SIZE + Tail(argv, 1) + 4096 * (Count(argv) + 1) <= TWO64
  }

  /** What is in place once the arguments above index i have been pushed onto a space s0. */
  predicate Built(s0: Space, s: Space, argv: seq<seq<byte>>, i: nat) {
    var top := s0.guestAlloc + STACK_SIZE;
    && Sound(s) && s.base == s0.base && Keeps(s0.mem, s.mem, s0.guestAlloc)
    && s.guestAlloc == top + Tail(argv, i + 1)
    && ZeroAt(s.mem, top - 24, 24)
    && (forall j: nat | i < j < |argv| ::
          WordAt(s.mem, Slot(top, argv, j), StringAddress(top, argv, j)) &&
          StringAt(s.mem, StringAddress(top, argv, j), argv[j]))
  }

  lemma {:induction false} TailSplits(argv: seq<seq<byte>>, i: nat, j: nat)
    requires i < j < |argv|
    ensures Tail(argv, j) <= Tail(argv, i + 1) && Tail(argv, i + 1) + |argv[i]| + 1 == Tail(argv, i)
    decreases j - i
  {
    if i + 1 < j {
      TailSplits(argv, i + 1, j);
    }
  }

  /** The strings are pairwise disjoint and all above the stack. */
  lemma StringsDisjoint(top: nat, argv: seq<seq<byte>>, i: nat, j: nat)
    requires i < j < |argv|
    ensures top <= StringAddress(top, argv, j)
    ensures StringAddress(top, argv, j) + |argv[j]| + 1 <= StringAddress(top, argv, i)
  {
    TailSplits(argv, i, j);
    assert Tail(argv, j) == |argv[j]| + 1 + Tail(argv, j + 1);
  }

  /** The bytes form of a word is what an eight-byte load reads. */
  lemma WordLoads(m: Mem, a: u64, v: u64)
    requires a + GUEST_OFFSET + 8 < TWO64 && WordAt(m, a, v)
    ensures Mapped(m, a, 8) && LoadLE(m, a, 8) == v
  {
    hide ToHost, ToGuest, LoadLE, StoreLE, Low, ByteOf, Mapped, Distance;
    var m' := StoreLE(m, a, v, 8);
    LoadAfterStore(m, a, v, 8);
    LowWidths(v);
    forall h: u64 | InRange(h, a, 8) && h in m'
      ensures h in m && m[h] == m'[h]
    {
      StoreByte(m, a, v, 8, h);
      DistanceNoWrap(h, a, 8);
    }
    LoadDepends(m', m, a, 8);
  }

  lemma DistanceNoWrap(h: u64, a: u64, n: nat)
    requires a + GUEST_OFFSET + n < TWO64
    ensures InRange(h, a, n) <==> a + GUEST_OFFSET <= h < a + GUEST_OFFSET + n
    ensures InRange(h, a, n) ==> Distance(h, a) == h - a - GUEST_OFFSET
  {
  }

  lemma WordMapped(m: Mem, a: u64)
    requires a + GUEST_OFFSET + 8 < TWO64 && AllMapped(m, a + GUEST_OFFSET, 8)
    ensures Mapped(m, a, 8)
  {
    hide Mapped, Distance;
    forall h: u64 | InRange(h, a, 8)
      ensures h in m
    {
      DistanceNoWrap(h, a, 8);
    }
    RangeMapped(m, a, 8);
  }

  /** Writing a word inside the mapped memory, in host addresses. */
  lemma WordStored(m: Mem, m': Mem, a: u64, v: u64)
    requires a + GUEST_OFFSET + 8 < TWO64 && AllMapped(m, a + GUEST_OFFSET, 8) && Stored(m, m', a, 8, v)
    ensures WordAt(m', a, v)
    ensures forall h: u64 | h in m && !Hit(h, a, 8) :: m'[h] == m[h]
  {
    hide ByteOf, Distance, InRange;
    forall h: u64 | h in m
      ensures h in m' && m'[h] == if Hit(h, a, 8) then ByteOf(v, h - a - GUEST_OFFSET) else m[h]
    {
      assert h in m'.Keys;
      DistanceNoWrap(h, a, 8);
    }
    forall h: u64 | a + GUEST_OFFSET <= h < a + GUEST_OFFSET + 8
      ensures h in m' && m'[h] == ByteOf(v, h - a - GUEST_OFFSET)
    {
      assert h in m && Hit(h, a, 8);
    }
  }

  /** Host address h backs one of the n bytes at guest address a. */
  predicate Hit(h: u64, a: int, n: nat) { a + GUEST_OFFSET <= h < a + GUEST_OFFSET + n }

  /** What one round of the loop makes of the memory: a string at the old break, its address in
      the next stack slot, everything else as it was. */
  predicate Pushed(m: Mem, m': Mem, d: seq<byte>, addr: nat, slot: nat) {
    && WordAt(m', slot, addr) && StringAt(m', addr, d) && m'.Keys == m.Keys
    && (forall h: u64 | h in m && !Hit(h, slot, 8) && !Hit(h, addr, |d|) :: m'[h] == m[h])
  }

  lemma BuiltBounds(s0: Space, s: Space, argv: seq<seq<byte>>, i: nat)
    requires Fits(s0, argv) && 0 < i < |argv|
    requires s.guestAlloc == s0.guestAlloc + STACK_SIZE + Tail(argv, i + 1)
    ensures Tail(argv, i) == Tail(argv, i + 1) + |argv[i]| + 1
    ensures s0.guestAlloc <= Slot(s0.guestAlloc + STACK_SIZE, argv, i)
    ensures Slot(s0.guestAlloc + STACK_SIZE, argv, i) + 8 <= s0.guestAlloc + STACK_SIZE - 24
  {
  }

  lemma SoundPushed(t: Space, m: Mem, d: seq<byte>, addr: nat, slot: nat)
    requires Sound(t) && Pushed(t.mem, m, d, addr, slot) && slot + 8 <= addr && addr + |d| <= t.guestAlloc
    ensures Sound(t.(mem := m))
  {
    hide WordAt, StringAt;
  }

  /** The facts about the memory that a round has to carry over: m keeps what s had below the
      break, except for one slot. */
  lemma Carried(s: Mem, t: Mem, m: Mem, d: seq<byte>, addr: nat, slot: nat, h: u64)
    requires Pushed(t, m, d, addr, slot) && (forall x: u64 | x in s :: x in t && t[x] == s[x])
    requires h in s && h < addr + GUEST_OFFSET && !Hit(h, slot, 8)
    ensures h in m && m[h] == s[h]
  {
    hide WordAt, StringAt;
  }

  /** Same memory on the n bytes at a. */
  predicate Agree(m: Mem, m': Mem, a: int, n: nat) {
    forall h: u64 | Hit(h, a, n) && h in m :: h in m' && m'[h] == m[h]
  }

  lemma AgreeCarries(m: Mem, m': Mem, a: int, v: nat, d: seq<byte>)
    ensures WordAt(m, a, v) && Agree(m, m', a, 8) ==> WordAt(m', a, v)
    ensures StringAt(m, a, d) && Agree(m, m', a, |d| + 1) ==> StringAt(m', a, d)
    ensures ZeroAt(m, a, 24) && Agree(m, m', a, 24) ==> ZeroAt(m', a, 24)
  {
    hide ByteOf;
  }

  lemma Apart(top: nat, argv: seq<seq<byte>>, i: nat, j: nat)
    requires i < j < |argv|
    ensures Slot(top, argv, i) + 8 <= Slot(top, argv, j) <= top - 32
    ensures top <= StringAddress(top, argv, j)
    ensures StringAddress(top, argv, j) + |argv[j]| + 1 <= StringAddress(top, argv, i)
  {
    StringsDisjoint(top, argv, i, j);
  }

  /** One round keeps the invariant of the loop. */
  lemma RoundBuilds(s0: Space, s: Space, t: Space, m: Mem, argv: seq<seq<byte>>, i: nat)
    requires Sound(s0) && Fits(s0, argv) && 0 < i < |argv| && Built(s0, s, argv, i)
    requires NoWrap(s, |argv[i]| + 1) && AllocStep(s, |argv[i]| + 1) == Some(t)
    requires Slot(s0.guestAlloc + STACK_SIZE, argv, i) >= 0
    requires Pushed(t.mem, m, argv[i], s.guestAlloc, Slot(s0.guestAlloc + STACK_SIZE, argv, i))
    ensures Built(s0, t.(mem := m), argv, i - 1)
  {
    hide AllocStep, Sound, NoWrap, Fits, Slot, Tail, WordAt, StringAt, ZeroAt;
    var top := s0.guestAlloc + STACK_SIZE;
    var slot := Slot(top, argv, i);
    AllocSound(s, |argv[i]| + 1);
    BuiltBounds(s0, s, argv, i);
    SoundPushed(t, m, argv[i], s.guestAlloc, slot);
    forall h: u64 | h in s.mem && h < s.guestAlloc + GUEST_OFFSET && !Hit(h, slot, 8)
      ensures h in m && m[h] == s.mem[h]
    {
      Carried(s.mem, t.mem, m, argv[i], s.guestAlloc, slot, h);
    }
    hide Pushed;
    assert Keeps(s0.mem, m, s0.guestAlloc);
    AgreeCarries(s.mem, m, top - 24, 0, []);
    forall j: nat | i - 1 < j < |argv|
      ensures WordAt(m, Slot(top, argv, j), StringAddress(top, argv, j))
      ensures StringAt(m, StringAddress(top, argv, j), argv[j])
    {
      if j > i {
        Apart(top, argv, i, j);
        AgreeCarries(s.mem, m, Slot(top, argv, j), StringAddress(top, argv, j), []);
        AgreeCarries(s.mem, m, StringAddress(top, argv, j), 0, argv[j]);
      }
    }
  }

  // ---- machine_setup ----

  /** The finished image over a space s0: the low half of the word at sp is the
      argument count; the word at sp + 8 * i is the address of a terminated
      copy of argument i, for every argument but the first; the three words above the last of them
      are zero; the strings lie above the stack, apart from each other and below the break; and
      what the program had in memory is still there. */
  predicate Complete(s0: Space, s: Space, sp: u64, argv: seq<seq<byte>>) {
    var top := s0.guestAlloc + STACK_SIZE;
    && Sound(s) && s.base == s0.base && Keeps(s0.mem, s.mem, s0.guestAlloc)
    && sp == top - 8 * (Count(argv) + 3) && top <= s.guestAlloc
    && Mapped(s.mem, sp, 8) && LoadLE(s.mem, sp, 8) % 0x1_0000_0000 == |argv|
    && ZeroAt(s.mem, sp + 8 * Count(argv), 24)
    && (forall i: nat | 1 <= i < |argv| :: Argument(s, sp, top, argv, i))
    && (forall i: nat, j: nat | 1 <= i < j < |argv| ::
          StringAddress(top, argv, j) + |argv[j]| < StringAddress(top, argv, i))
  }

  predicate Argument(s: Space, sp: u64, top: nat, argv: seq<seq<byte>>, i: nat)
    requires i < |argv|
  {
    var p := StringAddress(top, argv, i);
    && sp + 8 * i < TWO64 && Mapped(s.mem, sp + 8 * i, 8) && LoadLE(s.mem, sp + 8 * i, 8) == p
    && StringAt(s.mem, p, argv[i]) && top <= p && p + |argv[i]| + 1 <= s.guestAlloc
  }

  /** The bytes the finished argument takes are below the break. */
  lemma {:induction false} TailBound(argv: seq<seq<byte>>, i: nat, j: nat)
    requires i <= j
    ensures Tail(argv, j) <= Tail(argv, i)
    decreases j - i
  {
    if i < j && i < |argv| {
      TailBound(argv, i + 1, j);
    }
  }

  /** Every slot of the image is inside the mapped stack. */
  lemma StackMapped(s0: Space, s: Space, argv: seq<seq<byte>>, i: nat)
    requires Sound(s0) && Sound(s) && s.base == s0.base && Fits(s0, argv) && i < Count(argv)
    requires s0.guestAlloc + STACK_SIZE <= s.guestAlloc
    ensures var slot := Slot(s0.guestAlloc + STACK_SIZE, argv, i);
      && s0.guestAlloc <= slot <= s.guestAlloc - 32 && slot + GUEST_OFFSET + 8 < TWO64
      && AllMapped(s.mem, slot + GUEST_OFFSET, 8)
  {
    hide Fresh;
  }

  /** Storing the count below the pointers completes the image. */
  lemma Completes(s0: Space, s: Space, m: Mem, sp: nat, argc: u64, argv: seq<seq<byte>>)
    requires Sound(s0) && Fits(s0, argv) && Built(s0, s, argv, 0) && sp == Slot(s0.guestAlloc + STACK_SIZE, argv, 0)
    requires Stored(s.mem, m, sp, 8, argc)
    requires argc % 0x1_0000_0000 == |argv|
    ensures Complete(s0, s.(mem := m), sp, argv)
  {
    hide AllocStep, Covered, Fresh, Tail, WordAt, StringAt, ZeroAt, StoreLE, Mapped, LoadLE, ToHost, ToGuest, Low;
    StackMapped(s0, s, argv, 0);
    WordStored(s.mem, m, sp, argc);
    WordLoads(m, sp, argc);
    var top := s0.guestAlloc + STACK_SIZE;
    assert Sound(s.(mem := m)) by { SoundStored(s, m, sp); }
    AgreeCarries(s.mem, m, top - 24, 0, []);
    forall i: nat | 1 <= i < |argv|
      ensures Argument(s.(mem := m), sp, top, argv, i)
    {
      ArgumentBuilt(s0, s, m, sp, argv, i);
    }
    forall i: nat, j: nat | 1 <= i < j < |argv|
      ensures StringAddress(top, argv, j) + |argv[j]| < StringAddress(top, argv, i)
    {
      StringsDisjoint(top, argv, i, j);
    }
  }

  lemma SoundStored(s: Space, m: Mem, sp: nat)
    requires Sound(s) && m.Keys == s.mem.Keys && sp + 8 <= s.guestAlloc
    requires forall h: u64 | h in s.mem && !Hit(h, sp, 8) :: m[h] == s.mem[h]
    ensures Sound(s.(mem := m))
  {
  }

  lemma ArgumentBuilt(s0: Space, s: Space, m: Mem, sp: nat, argv: seq<seq<byte>>, i: nat)
    requires Accounted(s) && Fits(s0, argv) && Built(s0, s, argv, 0) && 1 <= i < |argv|
    requires sp == Slot(s0.guestAlloc + STACK_SIZE, argv, 0)
    requires forall h: u64 | h in s.mem && !Hit(h, sp, 8) :: h in m && m[h] == s.mem[h]
    ensures sp < TWO64 && Argument(s.(mem := m), sp, s0.guestAlloc + STACK_SIZE, argv, i)
  {
    hide Sound, Tail, WordAt, StringAt, ZeroAt, Mapped, LoadLE;
    var top := s0.guestAlloc + STACK_SIZE;
    Apart(top, argv, 0, i);
    TailBound(argv, 1, i);
    assert Tail(argv, i) == Tail(argv, i + 1) + |argv[i]| + 1 by { TailStep(argv, i); }
    AgreeCarries(s.mem, m, Slot(top, argv, i), StringAddress(top, argv, i), []);
    AgreeCarries(s.mem, m, StringAddress(top, argv, i), 0, argv[i]);
    WordLoads(m, sp + 8 * i, StringAddress(top, argv, i));
  }

  lemma TailStep(argv: seq<seq<byte>>, i: nat)
    requires i < |argv|
    ensures Tail(argv, i) == Tail(argv, i + 1) + |argv[i]| + 1
  {
  }

  /** The pages still available when the arguments above index i have been pushed. */
  predicate Room(s0: Space, s: Space, argv: seq<seq<byte>>, i: nat) {
    s.hostAlloc <= s0.hostAlloc + STACK_SIZE + 4096 + Tail(argv, i + 1) + 4096 * (Count(argv) - 1 - i)
  }

  lemma RoomForString(s0: Space, s: Space, argv: seq<seq<byte>>, i: nat)
    requires Fits(s0, argv) && 0 < i < |argv| && Room(s0, s, argv, i)
    ensures NoWrap(s, |argv[i]| + 1) && Tail(argv, i) == Tail(argv, i + 1) + |argv[i]| + 1
  {
    TailBound(argv, 1, i);
    TailStep(argv, i);
    hide Tail;
  }

  /** The empty stack. */
  lemma StackBuilds(s0: Space, t: Space, argv: seq<seq<byte>>)
    requires Sound(s0) && Fits(s0, argv) && AllocStep(s0, STACK_SIZE) == Some(t)
    ensures Built(s0, t, argv, Count(argv) - 1) && Room(s0, t, argv, Count(argv) - 1)
  {
    hide AllocStep, Sound;
    assert NoWrap(s0, STACK_SIZE);
    AllocSound(s0, STACK_SIZE);
  }

  /** The string and its pointer, written into the space t left by the allocation at addr. */
  lemma RoundPushes(t: Mem, m1: Mem, m2: Mem, d: seq<byte>, addr: u64, slot: u64)
    requires slot + 8 <= addr && addr + GUEST_OFFSET + |d| + 1 < TWO64
    requires AllMapped(t, slot + GUEST_OFFSET, 8) && ZeroAt(t, addr, |d| + 1)
    requires Copied(t, m1, addr, d)
    requires Stored(m1, m2, slot, 8, addr)
    ensures Pushed(t, m2, d, addr, slot)
  {
    hide InRange, Distance, ByteOf, WordAt;
    WordStored(m1, m2, slot, addr);
  }

  /** The body of the loop. */
  method PushArgument(mmu: Allocator, gp: array<u64>, argv: seq<seq<byte>>, i: nat, ghost s0: Space)
    requires gp.Length == 32 && 0 < i < |argv|
    requires Sound(s0) && Fits(s0, argv) && Built(s0, mmu.View(), argv, i) && Room(s0, mmu.View(), argv, i)
    requires gp[SP] == Slot(s0.guestAlloc + STACK_SIZE, argv, i + 1)
    modifies mmu, gp
    ensures Built(s0, mmu.View(), argv, i - 1) && Room(s0, mmu.View(), argv, i - 1)
    ensures gp[SP] == Slot(s0.guestAlloc + STACK_SIZE, argv, i)
    ensures forall k | 0 <= k < 32 && k != SP :: gp[k] == old(gp[k])
  {
    hide AllocStep, Sound, Fits, Tail, WordAt, StringAt, ZeroAt, Mapped, LoadLE, Pushed, NoWrap, Stored, Copied;
    ghost var s := mmu.View();
    var len := |argv[i]|;
    RoomForString(s0, s, argv, i);
    AllocSound(s, len + 1);
    var addr := mmu.Alloc(len + 1);
    ghost var t := mmu.View();
    StackMapped(s0, t, argv, i);
    StringMapped(s, t, len);
    mmu.WriteString(addr.value, argv[i]);
    ghost var m1 := mmu.mem;
    gp[SP] := Wrap64(gp[SP] - 8);
    CopyKeeps(t.mem, m1, addr.value, argv[i], gp[SP]);
    WordMapped(m1, gp[SP]);
    mmu.WriteWord(gp[SP], addr.value);
    RoundPushes(t.mem, m1, mmu.mem, argv[i], addr.value, gp[SP]);
    RoundBuilds(s0, s, t, mmu.mem, argv, i);
  }

  lemma CopyKeeps(m: Mem, m': Mem, a: u64, d: seq<byte>, slot: u64)
    requires slot + GUEST_OFFSET + 8 < TWO64 && AllMapped(m, slot + GUEST_OFFSET, 8) && Copied(m, m', a, d)
    ensures AllMapped(m', slot + GUEST_OFFSET, 8)
  {
    assert forall h: u64 | h in m :: h in m'.Keys;
  }

  lemma StringMapped(s: Space, t: Space, len: nat)
    requires Sound(s) && NoWrap(s, len + 1) && AllocStep(s, len + 1) == Some(t)
    ensures ZeroAt(t.mem, s.guestAlloc, len + 1) && AllMapped(t.mem, s.guestAlloc + GUEST_OFFSET, len)
    ensures s.guestAlloc + GUEST_OFFSET + len + 1 < TWO64
  {
    hide AllocStep, Covered, Fresh;
    AllocSound(s, len + 1);
  }

  /** The stack with its three zero words. */
  method EmptyStack(mmu: Allocator, gp: array<u64>, argv: seq<seq<byte>>)
    requires gp.Length == 32 && Sound(mmu.View()) && Fits(mmu.View(), argv)
    modifies mmu, gp
    ensures var s0 := old(mmu.View());
      && Built(s0, mmu.View(), argv, Count(argv) - 1) && Room(s0, mmu.View(), argv, Count(argv) - 1)
      && gp[SP] == Slot(s0.guestAlloc + STACK_SIZE, argv, Count(argv))
    ensures forall k | 0 <= k < 32 && k != SP :: gp[k] == old(gp[k])
  {
    hide AllocStep, Sound, Fits, Built, Tail, Room, Wrap64;
    ghost var s0 := mmu.View();
    ghost var top := s0.guestAlloc + STACK_SIZE;
    RoomForStack(s0, argv);
    var addr := mmu.Alloc(0x200_0000);
    StackBuilds(s0, mmu.View(), argv);
    InWord(top);
    InWord(top - 8);
    InWord(top - 16);
    InWord(top - 24);
    gp[SP] := Wrap64(addr.value + 0x200_0000);
    gp[SP] := Wrap64(gp[SP] - 8);
    gp[SP] := Wrap64(gp[SP] - 8);
    gp[SP] := Wrap64(gp[SP] - 8);
  }

  /** The count word. */
  method PushCount(mmu: Allocator, gp: array<u64>, argv: seq<seq<byte>>, above: u32, ghost s0: Space)
    requires gp.Length == 32 && Sound(s0) && Fits(s0, argv) && |argv| < TWO31 && Built(s0, mmu.View(), argv, 0)
    requires gp[SP] == Slot(s0.guestAlloc + STACK_SIZE, argv, 1)
    modifies mmu, gp
    ensures Complete(s0, mmu.View(), gp[SP], argv)
    ensures forall k | 0 <= k < 32 && k != SP :: gp[k] == old(gp[k])
  {
    hide Sound, Fits, Built, Tail, Mapped, LoadLE, Stored, Complete, Wrap64;
    ghost var s := mmu.View();
    CountMapped(s0, s, argv);
    InWord(Slot(s0.guestAlloc + STACK_SIZE, argv, 0));
    gp[SP] := Wrap64(gp[SP] - 8);
    mmu.WriteWord(gp[SP], |argv| + 0x1_0000_0000 * above);
    CountLow(|argv|, above);
    Completes(s0, s, mmu.mem, gp[SP], |argv| + 0x1_0000_0000 * above, argv);
  }

  lemma CountLow(n: nat, above: u32)
    requires n < TWO31
    ensures (n + 0x1_0000_0000 * above) % 0x1_0000_0000 == n
  {
  }

  /** `machine_setup`. The count word gets eight bytes from a four-byte `int`, so its upper half is
      whatever follows that variable; `above` stands for it. */
  method MachineSetup(mmu: Allocator, gp: array<u64>, argv: seq<seq<byte>>, above: u32)
    requires gp.Length == 32 && Sound(mmu.View()) && Fits(mmu.View(), argv) && |argv| < TWO31
    modifies mmu, gp
    ensures Complete(old(mmu.View()), mmu.View(), gp[SP], argv)
    ensures forall k | 0 <= k < 32 && k != SP :: gp[k] == old(gp[k])
  {
    hide Sound, Fits, Built, Slot, Complete, Room;
    ghost var s0 := mmu.View();
    EmptyStack(mmu, gp, argv);
    var i := |argv| - 1;
    while i > 0
      invariant (if argv == [] then -1 else 0) <= i < Count(argv)
      invariant var k := if i < 0 then 0 else i;
        && Built(s0, mmu.View(), argv, k) && Room(s0, mmu.View(), argv, k)
        && gp[SP] == Slot(s0.guestAlloc + STACK_SIZE, argv, k + 1)
      invariant forall k | 0 <= k < 32 && k != SP :: gp[k] == old(gp[k])
    {
      PushArgument(mmu, gp, argv, i, s0);
      i := i - 1;
    }
    PushCount(mmu, gp, argv, above, s0);
  }

  lemma InWord(x: int)
    requires 0 <= x < TWO64
    ensures Wrap64(x) == x
  {
  }

  lemma RoomForStack(s0: Space, argv: seq<seq<byte>>)
    requires Sound(s0) && Fits(s0, argv)
    ensures AllocStep(s0, STACK_SIZE).Some? && s0.guestAlloc + STACK_SIZE < TWO64
    ensures s0.guestAlloc <= Slot(s0.guestAlloc + STACK_SIZE, argv, 0)
  {
    hide AllocStep, Covered, Fresh;
    assert NoWrap(s0, STACK_SIZE);
    AllocSound(s0, STACK_SIZE);
  }

  lemma CountMapped(s0: Space, s: Space, argv: seq<seq<byte>>)
    requires Sound(s0) && Fits(s0, argv) && Built(s0, s, argv, 0)
    ensures var slot := Slot(s0.guestAlloc + STACK_SIZE, argv, 0); 0 <= slot < TWO64 && Mapped(s.mem, slot, 8)
  {
    hide Sound, WordAt, StringAt, ZeroAt, StoreLE, Mapped;
    StackMapped(s0, s, argv, 0);
    WordMapped(s.mem, Slot(s0.guestAlloc + STACK_SIZE, argv, 0));
  }

  // ---- from the executable to the first instruction ----

  lemma ImageKept(s: Space, m': Mem, p: Phdr, file: seq<byte>)
    requires GoodSegment(p, file) && Image(s.mem, p, file) && Sound(s) && s.guestAlloc == s.hostAlloc - GUEST_OFFSET
    requires Keeps(s.mem, m', s.guestAlloc)
    ensures Image(m', p, file)
  {
    hide SegLo, SegHi, FileHi, Covered;
    assert forall h: u64 | h in s.mem :: h in m' && m'[h] == s.mem[h];
    assert forall h: u64 | SegLo(p) <= h < SegHi(p) :: h in m';
    assert forall h: u64 | p.vaddr + GUEST_OFFSET <= h < p.vaddr + GUEST_OFFSET + p.filesz :: h in s.mem;
  }

  /** No session from a, on any host and kernel, reaches an odd pc or a nonzero x0. */
  ghost predicate StaysGood(a: Isa.Arch) {
    forall host: Isa.HostFloat, kernel: Runs.Kernel, n: nat ::
      var r := Runs.Session(host, kernel, a, n);
      r.Some? ==> Runs.Good(r.value)
  }

  /** Loading and setup together, on a zeroed machine: at the first instruction every segment is
      still in place below the finished stack image, and from an even entry address every session
      of the interpreter, whatever the host's floats and the system calls do, keeps pc even and x0
      zero at every fetch. */
  method Boot(ps: seq<Phdr>, file: seq<byte>, argv: seq<seq<byte>>, above: u32, entry: u64)
      returns (mmu: Allocator, gp: array<u64>, ghost loaded: Space)
    requires GoodHeaders(ps, file) && |argv| < TWO31
    requires exists i :: 0 <= i < |ps| && ps[i].ptype == PT_LOAD
    requires 8 * (Count(argv) + 3) <= STACK_SIZE
    requires MaxEnd(0, ps) + STACK_SIZE + Tail(argv, 1) + 4096 * (Count(argv) + 1) <= TWO64
    ensures gp.Length == 32 && forall k | 0 <= k < 32 && k != SP :: gp[k] == 0
    ensures LoadAll(Space(0, 0, 0, map[]), ps, file) == Some(loaded)
    ensures Complete(loaded, mmu.View(), gp[SP], argv)
    ensures forall i | 0 <= i < |ps| && ps[i].ptype == PT_LOAD :: Image(mmu.mem, ps[i], file)
    ensures var a := Isa.Arch(entry, gp[..], seq(32, _ => 0), mmu.mem);
      entry % 2 == 0 ==> Runs.Good(a) && StaysGood(a)
  {
    hide GoodSegment, PageDisjoint, Image, Sound, LoadAll, Tail, Runs.Session, Runs.Good, StaysGood, SegLo, SegHi,
         Argument, ZeroAt, StringAddress;
    mmu := new Allocator();
    gp := new u64[32](_ => 0);
    ElfSound(mmu.View(), ps, file);
    var ok := mmu.LoadElf(ps, file);
    loaded := mmu.View();
    MachineSetup(mmu, gp, argv, above);
    forall i | 0 <= i < |ps| && ps[i].ptype == PT_LOAD
      ensures GoodSegment(ps[i], file) && Image(mmu.mem, ps[i], file)
    {
      ImageKept(loaded, mmu.mem, ps[i], file);
    }
    ghost var a := Isa.Arch(entry, gp[..], seq(32, _ => 0), mmu.mem);
    if entry % 2 == 0 {
      StartsGood(a);
    }
  }

  lemma StartsGood(a: Isa.Arch)
    requires a.x[0] == 0 && a.pc % 2 == 0
    ensures Runs.Good(a) && StaysGood(a)
  {
    hide Runs.Session;
    forall host: Isa.HostFloat, kernel: Runs.Kernel, n: nat
      ensures var r := Runs.Session(host, kernel, a, n); r.Some? ==> Runs.Good(r.value)
    {
      Runs.SessionKeepsGood(host, kernel, a, n);
    }
  }
}
