/** The bits of a 64-bit register value. Registers are numbers and only the three bitwise operators
    read them as bit-vectors; here the two views are joined. */
module WideBits {
  import opened Words

  /** Bit k of a number. */
  function BitOf(x: nat, k: nat): int { if k == 0 then x % 2 else BitOf(x / 2, k - 1) }

  // ---- numbers and bit-vectors ----

  lemma BackToBits(b: bv64, x: u64)
    requires Value(b) == x
    ensures Bits(x) == b
  {
  }

  lemma DoubledEven(b: bv64, k: bv64)
    requires k < 0x8000_0000_0000_0000 && b == k << 1
    ensures Value(b) == 2 * (Value(k) as int)
  {
  }

  lemma DoubledOdd(b: bv64, k: bv64)
    requires k < 0x8000_0000_0000_0000 && b == (k << 1) | 1
    ensures Value(b) == 2 * (Value(k) as int) + 1
  {
  }

  lemma TopBitClear(k: bv64)
    requires Value(k) < 0x8000_0000_0000_0000
    ensures k < 0x8000_0000_0000_0000
  {
  }

  /** Every register value is the value of a bit-vector. */
  lemma {:induction false} Witness(x: u64) returns (b: bv64)
    ensures Value(b) == x && Bits(x) == b
  {
    if x == 0 {
      b := 0;
    } else {
      hide Value, Bits;
      var k := Witness(x / 2);
      TopBitClear(k);
      if x % 2 == 0 {
        b := k << 1;
        DoubledEven(b, k);
      } else {
        b := (k << 1) | 1;
        DoubledOdd(b, k);
      }
      BackToBits(b, x);
    }
  }

  lemma Cut32(b: bv64) returns (h: bv32, l: bv32)
    ensures b == ((h as bv64) << 32) | (l as bv64)
  {
    h, l := (b >> 32) as bv32, (b & 0xffff_ffff) as bv32;
  }

  lemma Join32(b: bv64, h: bv32, l: bv32)
    requires b == ((h as bv64) << 32) | (l as bv64)
    ensures Value(b) == TWO32 * Value32(h) + Value32(l)
  {
  }

  lemma BackToBits32(b: bv32, x: u32)
    requires Value32(b) == x
    ensures Bits32(x) == b
  {
  }

  /** Every 32-bit value is the value of a bit-vector. */
  lemma Witness32(x: u32) returns (b: bv32)
    ensures Value32(b) == x && Bits32(x) == b
  {
    hide Value, Bits, Value32, Bits32;
    var w := Witness(x);
    var h, l := Cut32(w);
    Join32(w, h, l);
    b := l;
    BackToBits32(b, x);
  }

  lemma HalfSmall(b: bv64)
    ensures b >> 1 < 0x8000_0000_0000_0000
  {
  }

  lemma EvenBits(b: bv64)
    requires b & 1 == 0
    ensures b == (b >> 1) << 1
  {
  }

  lemma OddBits(b: bv64)
    requires b & 1 != 0
    ensures b == ((b >> 1) << 1) | 1
  {
  }

  function Half(b: bv64): bv64 { b >> 1 }
  predicate Odd(b: bv64) { b & 1 != 0 }

  /** Shifting right by one halves the value; the low bit is the remainder. */
  lemma Halves(b: bv64)
    ensures Value(Half(b)) == Value(b) / 2 && (Odd(b) <==> Value(b) % 2 == 1)
  {
    hide Value;
    HalfSmall(b);
    if b & 1 == 0 {
      EvenBits(b);
      DoubledEven(b, b >> 1);
    } else {
      OddBits(b);
      DoubledOdd(b, b >> 1);
    }
  }

  /** The bit-vector of a number, and of its half. */
  lemma HalfOf(x: u64) returns (b: bv64)
    ensures Bits(x) == b && Bits(x / 2) == Half(b) && (Odd(b) <==> x % 2 == 1)
  {
    hide Value, Bits, Half, Odd;
    b := Witness(x);
    Halves(b);
    BackToBits(Half(b), x / 2);
  }

  // ---- the bitwise operators ----

  lemma AndShift(x: bv64, y: bv64)
    ensures Half(AndBits(x, y)) == AndBits(Half(x), Half(y)) && (Odd(AndBits(x, y)) <==> Odd(x) && Odd(y))
  {
  }

  lemma OrShift(x: bv64, y: bv64)
    ensures Half(OrBits(x, y)) == OrBits(Half(x), Half(y)) && (Odd(OrBits(x, y)) <==> Odd(x) || Odd(y))
  {
  }

  lemma XorShift(x: bv64, y: bv64)
    ensures Half(XorBits(x, y)) == XorBits(Half(x), Half(y)) && (Odd(XorBits(x, y)) <==> Odd(x) != Odd(y))
  {
  }

  lemma AndHalves(x: u64, y: u64)
    ensures And64(x, y) / 2 == And64(x / 2, y / 2)
    ensures And64(x, y) % 2 == 1 <==> x % 2 == 1 && y % 2 == 1
  {
    hide Value, Bits, Half, Odd, AndBits, OrBits, XorBits;
    var a := HalfOf(x);
    var b := HalfOf(y);
    AndShift(a, b);
    Halves(AndBits(a, b));
  }

  lemma OrHalves(x: u64, y: u64)
    ensures Or64(x, y) / 2 == Or64(x / 2, y / 2)
    ensures Or64(x, y) % 2 == 1 <==> x % 2 == 1 || y % 2 == 1
  {
    hide Value, Bits, Half, Odd, AndBits, OrBits, XorBits;
    var a := HalfOf(x);
    var b := HalfOf(y);
    OrShift(a, b);
    Halves(OrBits(a, b));
  }

  lemma XorHalves(x: u64, y: u64)
    ensures Xor64(x, y) / 2 == Xor64(x / 2, y / 2)
    ensures Xor64(x, y) % 2 == 1 <==> x % 2 != y % 2
  {
    hide Value, Bits, Half, Odd, AndBits, OrBits, XorBits;
    var a := HalfOf(x);
    var b := HalfOf(y);
    XorShift(a, b);
    Halves(XorBits(a, b));
  }

  lemma {:induction false} BitIsBit(x: nat, k: nat)
    ensures BitOf(x, k) == 0 || BitOf(x, k) == 1
  {
    if k > 0 { BitIsBit(x / 2, k - 1); }
  }

  /** Every bit of a bitwise result is the operation on that bit of the operands. */
  lemma {:induction false} BitwiseBits(x: u64, y: u64, k: nat)
    ensures BitOf(And64(x, y), k) == 1 <==> BitOf(x, k) == 1 && BitOf(y, k) == 1
    ensures BitOf(Or64(x, y), k) == 1 <==> BitOf(x, k) == 1 || BitOf(y, k) == 1
    ensures BitOf(Xor64(x, y), k) == 1 <==> BitOf(x, k) != BitOf(y, k)
    decreases k
  {
    hide And64, Or64, Xor64;
    AndHalves(x, y);
    OrHalves(x, y);
    XorHalves(x, y);
    if k > 0 {
      BitwiseBits(x / 2, y / 2, k - 1);
    }
  }

  /** The low n bits determine a number below 2^n. */
  lemma {:induction false} BitsDetermine(x: nat, y: nat, n: nat)
    requires x < Pow2(n) && y < Pow2(n)
    requires forall k: nat :: k < n ==> BitOf(x, k) == BitOf(y, k)
    ensures x == y
    decreases n
  {
    if n > 0 {
      forall k: nat | k < n - 1
        ensures BitOf(x / 2, k) == BitOf(y / 2, k)
      {
        assert BitOf(x, k + 1) == BitOf(y, k + 1);
      }
      BitsDetermine(x / 2, y / 2, n - 1);
      assert BitOf(x, 0) == BitOf(y, 0);
    }
  }
}
