/** Guest memory as the interpreter sees it: the bytes of the host address space that back the
    guest, reached through `TO_HOST`. An address that is not a key is not mapped; touching it
    kills the emulator. Little-endian accesses of any width wrap modulo 2^64. */
module Memory {
  import opened Words

  /** `GUEST_MEMORY_OFFSET`. */
  const GUEST_OFFSET: int := 0x0888_0000_0000

  /** Mapped bytes, keyed by host address. */
  type Mem = map<u64, byte>

  function ToHost(a: u64): u64 { Wrap64(a + GUEST_OFFSET) }
  function ToGuest(h: u64): u64 { Wrap64((h as int) - GUEST_OFFSET) }

  function Next(a: u64): u64 { Wrap64(a + 1) }

  /** All of the n bytes at guest address a are mapped. */
  predicate Mapped(m: Mem, a: u64, n: nat)
    decreases n
  {
    n == 0 || (ToHost(a) in m && Mapped(m, Next(a), n - 1))
  }

  function LoadLE(m: Mem, a: u64, n: nat): nat
    requires Mapped(m, a, n)
    decreases n
  {
    if n == 0 then 0 else m[ToHost(a)] + 256 * LoadLE(m, Next(a), n - 1)
  }

  function StoreLE(m: Mem, a: u64, v: nat, n: nat): Mem
    decreases n
  {
    if n == 0 then m else StoreLE(m[ToHost(a) := v % 256], Next(a), v / 256, n - 1)
  }

  /** The value truncated to n bytes. */
  function Low(v: nat, n: nat): nat {
    if n == 0 then 0 else v % 256 + 256 * Low(v / 256, n - 1)
  }

  function ByteOf(v: nat, k: nat): byte {
    if k == 0 then v % 256 else ByteOf(v / 256, k - 1)
  }

  /** How far host address h lies above guest address a, modulo 2^64. */
  function Distance(h: u64, a: u64): u64 {
    var g: int := ToGuest(h);
    if g >= a then g - a else g - a + 0x1_0000_0000_0000_0000
  }

  predicate InRange(h: u64, a: u64, n: nat) { Distance(h, a) < n }

  predicate Disjoint(a: u64, n: nat, b: u64, k: nat) {
    Distance(ToHost(b), a) >= n && Distance(ToHost(a), b) >= k
  }

  /** The n bytes at guest address a have become the low bytes of v, lowest first, and nothing else
      has changed. */
  predicate Stored(m: Mem, m': Mem, a: u64, n: nat, v: u64) {
    && m'.Keys == m.Keys
    && (forall h: u64 | h in m' :: m'[h] == if InRange(h, a, n) then ByteOf(v, Distance(h, a)) else m[h])
  }

  /** The bytes from guest address a on have become those of data, and nothing else has changed. */
  predicate Copied(m: Mem, m': Mem, a: u64, data: seq<byte>) {
    && m'.Keys == m.Keys
    && (forall h: u64 | h in m' ::
          m'[h] == if a + GUEST_OFFSET <= h < a + GUEST_OFFSET + |data| then data[h - a - GUEST_OFFSET] else m[h])
  }

  lemma HostGuest(h: u64, a: u64)
    ensures ToHost(ToGuest(h)) == h && ToGuest(ToHost(a)) == a
  {
  }

  lemma DistanceStep(h: u64, a: u64)
    ensures Distance(h, a) == 0 <==> h == ToHost(a)
    ensures h != ToHost(a) ==> Distance(h, Next(a)) == Distance(h, a) - 1
    ensures h == ToHost(a) ==> Distance(h, Next(a)) == TWO64 - 1
  {
    HostGuest(h, a);
    hide ToHost, ToGuest;
  }

  /** A store changes exactly the bytes in its range. */
  lemma {:induction false} StoreByte(m: Mem, a: u64, v: nat, n: nat, h: u64)
    requires n <= TWO64
    ensures h in StoreLE(m, a, v, n) <==> h in m || InRange(h, a, n)
    ensures InRange(h, a, n) ==> StoreLE(m, a, v, n)[h] == ByteOf(v, Distance(h, a))
    ensures !InRange(h, a, n) && h in m ==> StoreLE(m, a, v, n)[h] == m[h]
    decreases n
  {
    if n > 0 {
      DistanceStep(h, a);
      StoreByte(m[ToHost(a) := v % 256], Next(a), v / 256, n - 1, h);
    }
  }

  lemma {:induction false} MappedRange(m: Mem, a: u64, n: nat, h: u64)
    requires Mapped(m, a, n) && InRange(h, a, n)
    ensures h in m
    decreases n
  {
    if h != ToHost(a) {
      DistanceStep(h, a);
      MappedRange(m, Next(a), n - 1, h);
    }
  }

  /** Conversely, a range all of whose bytes are keys is mapped. */
  lemma {:induction false} RangeMapped(m: Mem, a: u64, n: nat)
    requires n <= TWO64
    requires forall h: u64 :: InRange(h, a, n) ==> h in m
    ensures Mapped(m, a, n)
    decreases n
  {
    if n > 0 {
      DistanceStep(ToHost(a), a);
      assert InRange(ToHost(a), a, n);
      forall h: u64 | InRange(h, Next(a), n - 1)
        ensures h in m
      {
        DistanceStep(h, a);
        assert InRange(h, a, n);
      }
      RangeMapped(m, Next(a), n - 1);
    }
  }

  /** A store inside the mapped memory does not change what is mapped. */
  lemma StoreKeepsKeys(m: Mem, a: u64, v: nat, n: nat)
    requires Mapped(m, a, n) && n <= TWO64
    ensures StoreLE(m, a, v, n).Keys == m.Keys
  {
    forall h: u64
      ensures h in StoreLE(m, a, v, n).Keys <==> h in m.Keys
    {
      StoreByte(m, a, v, n, h);
      if InRange(h, a, n) { MappedRange(m, a, n, h); }
    }
  }

  /** A store inside the mapped memory, all at once. */
  lemma StoreIsStored(m: Mem, p: u64, n: nat, v: u64)
    requires Mapped(m, p, n) && n <= TWO64
    ensures Stored(m, StoreLE(m, p, v, n), p, n, v)
  {
    hide StoreLE, Mapped, InRange, Distance, ByteOf;
    StoreKeepsKeys(m, p, v, n);
    var m' := StoreLE(m, p, v, n);
    forall h: u64 | h in m'
      ensures h in m && m'[h] == if InRange(h, p, n) then ByteOf(v, Distance(h, p)) else m[h]
    {
      assert h in m'.Keys;
      StoreByte(m, p, v, n, h);
    }
  }

  /** A load sees only the bytes in its range. */
  lemma {:induction false} LoadDepends(m: Mem, m': Mem, a: u64, n: nat)
    requires n <= TWO64 && Mapped(m, a, n)
    requires forall h: u64 :: InRange(h, a, n) && h in m ==> h in m' && m'[h] == m[h]
    ensures Mapped(m', a, n) && LoadLE(m', a, n) == LoadLE(m, a, n)
    decreases n
  {
    if n > 0 {
      DistanceStep(ToHost(a), a);
      assert InRange(ToHost(a), a, n);
      forall h: u64 | InRange(h, Next(a), n - 1) && h in m
        ensures h in m' && m'[h] == m[h]
      {
        DistanceStep(h, a);
        assert InRange(h, a, n);
      }
      LoadDepends(m, m', Next(a), n - 1);
    }
  }

  /** Loading what was just stored, at any address and width, gives the truncated value. */
  lemma {:induction false} LoadAfterStore(m: Mem, a: u64, v: nat, n: nat)
    requires n <= TWO64
    ensures Mapped(StoreLE(m, a, v, n), a, n)
    ensures LoadLE(StoreLE(m, a, v, n), a, n) == Low(v, n)
    decreases n
  {
    if n > 0 {
      var m' := m[ToHost(a) := v % 256];
      LoadAfterStore(m', Next(a), v / 256, n - 1);
      DistanceStep(ToHost(a), a);
      StoreByte(m', Next(a), v / 256, n - 1, ToHost(a));
    }
  }

  /** Two ranges are disjoint exactly when they share no byte. */
  lemma DisjointRanges(a: u64, n: nat, b: u64, k: nat, h: u64)
    requires Disjoint(a, n, b, k)
    ensures !(InRange(h, a, n) && InRange(h, b, k))
  {
    HostGuest(h, a);
    HostGuest(h, b);
    hide ToHost, ToGuest;
  }

  /** Stores to disjoint ranges commute. */
  lemma DisjointStoresCommute(m: Mem, a: u64, v: nat, n: nat, b: u64, w: nat, k: nat)
    requires n <= TWO64 && k <= TWO64 && Disjoint(a, n, b, k)
    ensures StoreLE(StoreLE(m, a, v, n), b, w, k) == StoreLE(StoreLE(m, b, w, k), a, v, n)
  {
    var l, r := StoreLE(StoreLE(m, a, v, n), b, w, k), StoreLE(StoreLE(m, b, w, k), a, v, n);
    forall h: u64
      ensures h in l <==> h in r
      ensures h in l ==> l[h] == r[h]
    {
      DisjointRanges(a, n, b, k, h);
      StoreByte(m, a, v, n, h);
      StoreByte(StoreLE(m, a, v, n), b, w, k, h);
      StoreByte(m, b, w, k, h);
      StoreByte(StoreLE(m, b, w, k), a, v, n, h);
    }
    assert l.Keys == r.Keys;
  }

  /** A load is not affected by a store to a disjoint range. */
  lemma LoadAfterDisjointStore(m: Mem, a: u64, n: nat, b: u64, w: nat, k: nat)
    requires n <= TWO64 && k <= TWO64 && Disjoint(a, n, b, k) && Mapped(m, a, n)
    ensures Mapped(StoreLE(m, b, w, k), a, n)
    ensures LoadLE(StoreLE(m, b, w, k), a, n) == LoadLE(m, a, n)
  {
    var m' := StoreLE(m, b, w, k);
    forall h: u64 | InRange(h, a, n) && h in m
      ensures h in m' && m'[h] == m[h]
    {
      DisjointRanges(a, n, b, k, h);
      StoreByte(m, b, w, k, h);
    }
    LoadDepends(m, m', a, n);
  }

  /** A second store of the same width to the same address wins. */
  lemma {:induction false} StoreOverwrites(m: Mem, a: u64, v: nat, w: nat, n: nat)
    requires n <= TWO64
    ensures StoreLE(StoreLE(m, a, v, n), a, w, n) == StoreLE(m, a, w, n)
  {
    var l, r := StoreLE(StoreLE(m, a, v, n), a, w, n), StoreLE(m, a, w, n);
    forall h: u64
      ensures h in l <==> h in r
      ensures h in l ==> l[h] == r[h]
    {
      StoreByte(m, a, v, n, h);
      StoreByte(StoreLE(m, a, v, n), a, w, n, h);
      StoreByte(m, a, w, n, h);
    }
    assert l.Keys == r.Keys;
  }

  function Pow256(n: nat): (r: nat)
    ensures r > 0
  {
    if n == 0 then 1 else 256 * Pow256(n - 1)
  }

  lemma {:induction false} LowIsModulo(v: nat, n: nat)
    ensures Low(v, n) == v % Pow256(n)
  {
    if n > 0 {
      LowIsModulo(v / 256, n - 1);
      ModStep(v, Pow256(n - 1));
    }
  }

  lemma ModStep(v: nat, m: nat)
    requires m > 0
    ensures v % 256 + 256 * ((v / 256) % m) == v % (256 * m)
  {
    var q, r: int := v / 256, v % 256;
    var q2, r2: int := q / m, q % m;
    assert q == m * q2 + r2;
    assert v == (256 * m) * q2 + (256 * r2 + r) by { assert 256 * (m * q2) == (256 * m) * q2; }
    Remainder(v, 256 * m, q2, 256 * r2 + r);
  }

  lemma Remainder(x: int, m: int, q: int, r: int)
    requires 0 <= r < m && x == m * q + r
    ensures x % m == r
  {
    var d := x / m - q;
    assert m * d == r - x % m by { assert m * (x / m) - m * q == m * d; }
    Spread(m, d);
  }

  /** A nonzero multiple of m is at least m away from zero. */
  lemma Spread(m: int, d: int)
    requires m > 0
    ensures d >= 1 ==> m * d >= m
    ensures d <= -1 ==> m * d <= -m
    ensures d == 0 ==> m * d == 0
  {
  }

  lemma LowOfWidth(v: nat, n: nat, p: int)
    requires Pow256(n) == p
    ensures Low(v, n) == v % p
  {
    LowIsModulo(v, n);
  }

  lemma LowWidths(v: u64)
    ensures Low(v, 1) == v % 0x100 && Low(v, 2) == v % 0x1_0000
    ensures Low(v, 4) == Wrap32(v) && Low(v, 8) == v
  {
    hide Low, Pow256;
    PowersOf256();
    LowOfWidth(v, 1, 0x100);
    LowOfWidth(v, 2, 0x1_0000);
    LowOfWidth(v, 4, 0x1_0000_0000);
    LowOfWidth(v, 8, 0x1_0000_0000_0000_0000);
  }

  lemma PowersOf256()
    ensures Pow256(1) == 0x100 && Pow256(2) == 0x1_0000 && Pow256(4) == 0x1_0000_0000
    ensures Pow256(8) == 0x1_0000_0000_0000_0000
  {
    assert Pow256(2) == 256 * Pow256(1);
    assert Pow256(3) == 256 * Pow256(2);
    assert Pow256(4) == 256 * Pow256(3);
    assert Pow256(5) == 256 * Pow256(4);
    assert Pow256(6) == 256 * Pow256(5);
    assert Pow256(7) == 256 * Pow256(6);
    assert Pow256(8) == 256 * Pow256(7);
  }

  function JoinWord(b0: bv8, b1: bv8, b2: bv8, b3: bv8): bv32 {
    (b0 as bv32) | ((b1 as bv32) << 8) | ((b2 as bv32) << 16) | ((b3 as bv32) << 24)
  }

  /** `*(uint32_t *)TO_HOST(pc)` as a bit pattern. */
  function FetchWord(m: Mem, pc: u64): bv32
    requires Mapped(m, pc, 4)
  {
    var a1 := Next(pc);
    var a2 := Next(a1);
    var a3 := Next(a2);
    JoinWord(m[ToHost(pc)] as bv8, m[ToHost(a1)] as bv8, m[ToHost(a2)] as bv8, m[ToHost(a3)] as bv8)
  }

  lemma {:induction false} ByteWitness(v: byte) returns (b: bv8)
    ensures b as int == v && v as bv8 == b
  {
    if v == 0 {
      b := 0;
    } else {
      var c := ByteWitness(v - 1);
      b := c + 1;
      ByteSuccessor(c);
    }
  }

  lemma ByteSuccessor(b: bv8)
    requires b != 0xff
    ensures (b + 1) as int == b as int + 1
  {
  }

  lemma JoinValue(b0: bv8, b1: bv8, b2: bv8, b3: bv8)
    ensures ((b0 as bv32) | ((b1 as bv32) << 8) | ((b2 as bv32) << 16) | ((b3 as bv32) << 24)) as int
         == b0 as int + 0x100 * (b1 as int) + 0x1_0000 * (b2 as int) + 0x100_0000 * (b3 as int)
  {
  }

  lemma JoinWordValue(b0: bv8, b1: bv8, b2: bv8, b3: bv8)
    ensures JoinWord(b0, b1, b2, b3) as int
         == b0 as int + 0x100 * (b1 as int) + 0x1_0000 * (b2 as int) + 0x100_0000 * (b3 as int)
  {
    JoinValue(b0, b1, b2, b3);
    assert JoinWord(b0, b1, b2, b3) == ((b0 as bv32) | ((b1 as bv32) << 8) | ((b2 as bv32) << 16) | ((b3 as bv32) << 24));
  }

  lemma LoadFour(m: Mem, a0: u64, a1: u64, a2: u64, a3: u64)
    requires a1 == Next(a0) && a2 == Next(a1) && a3 == Next(a2) && Mapped(m, a0, 4)
    ensures ToHost(a0) in m && ToHost(a1) in m && ToHost(a2) in m && ToHost(a3) in m
    ensures LoadLE(m, a0, 4) == (m[ToHost(a0)] as int) + 0x100 * (m[ToHost(a1)] as int)
                                + 0x1_0000 * (m[ToHost(a2)] as int) + 0x100_0000 * (m[ToHost(a3)] as int)
  {
    hide ToHost, Next;
    assert Mapped(m, a1, 3) && Mapped(m, a2, 2) && Mapped(m, a3, 1);
    assert LoadLE(m, a3, 1) == m[ToHost(a3)];
    assert LoadLE(m, a2, 2) == m[ToHost(a2)] + 256 * LoadLE(m, a3, 1);
    assert LoadLE(m, a1, 3) == m[ToHost(a1)] + 256 * LoadLE(m, a2, 2);
  }

  lemma WordOfBytes(b0: byte, b1: byte, b2: byte, b3: byte)
    ensures JoinWord(b0 as bv8, b1 as bv8, b2 as bv8, b3 as bv8) as int
         == (b0 as int) + 0x100 * (b1 as int) + 0x1_0000 * (b2 as int) + 0x100_0000 * (b3 as int)
  {
    hide JoinWord;
    var c0 := ByteWitness(b0);
    var c1 := ByteWitness(b1);
    var c2 := ByteWitness(b2);
    var c3 := ByteWitness(b3);
    JoinWordValue(c0, c1, c2, c3);
  }

  /** The fetched word is the little-endian load of four bytes. */
  lemma FetchIsLoad(m: Mem, pc: u64)
    requires Mapped(m, pc, 4)
    ensures FetchWord(m, pc) as int == LoadLE(m, pc, 4)
  {
    hide ToHost, Next, LoadLE, JoinWord;
    var a1 := Next(pc);
    var a2 := Next(a1);
    var a3 := Next(a2);
    LoadFour(m, pc, a1, a2, a3);
    WordOfBytes(m[ToHost(pc)], m[ToHost(a1)], m[ToHost(a2)], m[ToHost(a3)]);
  }
}
