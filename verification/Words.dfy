/** The C integer types of the emulator, as bounded mathematical integers.
    Every place where the C code relies on wrap-around, truncation or a change of
    signedness goes through one of the functions below. */
module Words {
  const TWO31: int := 0x8000_0000
  const TWO32: int := 0x1_0000_0000
  const TWO63: int := 0x8000_0000_0000_0000
  const TWO64: int := 0x1_0000_0000_0000_0000

  type byte = x: int | 0 <= x < 0x100
  type u32 = x: int | 0 <= x < 0x1_0000_0000
  type u64 = x: int | 0 <= x < 0x1_0000_0000_0000_0000

  datatype Option<+T> = None | Some(value: T)

  /** Conversion to `uint64_t`. */
  function Wrap64(x: int): u64 { x % 0x1_0000_0000_0000_0000 }

  /** Conversion to `uint32_t`. */
  function Wrap32(x: int): u32 { x % 0x1_0000_0000 }

  /** Reading a `uint64_t` as `int64_t`. */
  function Signed64(x: u64): int { if x < 0x8000_0000_0000_0000 then x else x - 0x1_0000_0000_0000_0000 }

  /** Reading a `uint32_t` as `int32_t`. */
  function Signed32(x: u32): int { if x < 0x8000_0000 then x else x - 0x1_0000_0000 }

  /** The cast `(int64_t)(int32_t)x`, stored back into a `uint64_t`. */
  function SextWord(x: int): u64 { Wrap64(Signed32(Wrap32(x))) }

  function Pow2(k: nat): (r: nat)
    ensures r > 0
  {
    if k == 0 then 1 else 2 * Pow2(k - 1)
  }

  function Abs(x: int): nat { if x < 0 then -x else x }

  /** A register value as a vector of bits, and back. */
  function Bits(x: u64): bv64 { x as bv64 }
  function Value(b: bv64): u64 { b as int }
  function Bits32(x: u32): bv32 { x as bv32 }
  function Value32(b: bv32): u32 { b as int }

  /** The three bitwise operators. */
  function AndBits(a: bv64, b: bv64): bv64 { a & b }
  function OrBits(a: bv64, b: bv64): bv64 { a | b }
  function XorBits(a: bv64, b: bv64): bv64 { a ^ b }
  function And64(a: u64, b: u64): u64 { Value(AndBits(Bits(a), Bits(b))) }
  function Or64(a: u64, b: u64): u64 { Value(OrBits(Bits(a), Bits(b))) }
  function Xor64(a: u64, b: u64): u64 { Value(XorBits(Bits(a), Bits(b))) }

  lemma SignedRoundTrip64(x: u64)
    ensures Wrap64(Signed64(x)) == x
    ensures -TWO63 <= Signed64(x) < TWO63
  {
  }

  /** Reducing modulo 2^64 first does not change the low word. */
  lemma LowWordOfWrap(x: int)
    ensures Wrap32(Wrap64(x)) == Wrap32(x)
  {
    var q, r := x / 0x1_0000_0000_0000_0000, x % 0x1_0000_0000_0000_0000;
    assert x == 0x1_0000_0000 * (0x1_0000_0000 * q) + r;
  }

  /** Adding a multiple of 2^64 is invisible. */
  lemma WrapShift64(x: int, k: int)
    ensures Wrap64(x + k * 0x1_0000_0000_0000_0000) == Wrap64(x)
  {
  }

  lemma WrapShift32(x: int, k: int)
    ensures Wrap32(x + k * 0x1_0000_0000) == Wrap32(x)
  {
  }

  /** Sign extension from 32 bits keeps the low word and only looks at it. */
  lemma SextWordLow(x: int)
    ensures Wrap32(SextWord(x)) == Wrap32(x)
    ensures SextWord(Wrap32(x)) == SextWord(x)
  {
    var s := Signed32(Wrap32(x));
    LowWordOfWrap(s);
    assert s == Wrap32(x) || s == Wrap32(x) + (-1) * 0x1_0000_0000;
    WrapShift32(Wrap32(x), -1);
  }
}
