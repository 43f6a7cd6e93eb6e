/** The 64x64 -> high 64 multiplication helpers (src/interp_util.h).
    `Mulhu` works limb by limb exactly as the C code does, with every intermediate value
    wrapped to its C type; the contracts say that the result is the exact high half. */
module HighMultiply {
  import opened Words

  /** Schoolbook multiplication of two-limb numbers in base 2^32. */
  lemma LimbProduct(a: u64, b: u64, a0: int, a1: int, b0: int, b1: int)
    requires a == a1 * 0x1_0000_0000 + a0 && b == b1 * 0x1_0000_0000 + b0
    ensures a * b == a1 * b1 * 0x1_0000_0000_0000_0000 + (a1 * b0 + a0 * b1) * 0x1_0000_0000 + a0 * b0
  {
    calc {
      a * b;
      (a1 * 0x1_0000_0000 + a0) * b;
      a1 * b * 0x1_0000_0000 + a0 * b;
      { assert a1 * b == a1 * b1 * 0x1_0000_0000 + a1 * b0; assert a0 * b == a0 * b1 * 0x1_0000_0000 + a0 * b0; }
      a1 * b1 * 0x1_0000_0000_0000_0000 + (a1 * b0 + a0 * b1) * 0x1_0000_0000 + a0 * b0;
    }
  }

  lemma MulMonotone(x: int, y: int, k: int)
    requires 0 <= k && x <= y
    ensures x * k <= y * k
  {
  }

  /** A 32x32 product does not overflow 64 bits and leaves room for two more limbs. */
  method LimbMul(x: u64, y: u64) returns (p: u64)
    requires x < TWO32 && y < TWO32
    ensures p == x * y && p <= 0xffff_fffe_0000_0001
  {
    MulMonotone(0, x, y);
    MulMonotone(x, 0xffff_ffff, y);
    MulMonotone(y, 0xffff_ffff, 0xffff_ffff);
    p := Wrap64(x * y);
  }

  /** src/interp_util.h `mulhu`. */
  method Mulhu(a: u64, b: u64) returns (r: u64)
    ensures r == (a * b) / TWO64
  {
    var a0, a1 := Wrap32(a), a / 0x1_0000_0000;
    var b0, b1 := Wrap32(b), b / 0x1_0000_0000;
    var p00 := LimbMul(a0, b0);
    var p10 := LimbMul(a1, b0);
    var p01 := LimbMul(a0, b1);
    var p11 := LimbMul(a1, b1);
    LimbProduct(a, b, a0, a1, b0, b1);
    r := AddLimbs(p00, p01, p10, p11);
  }

  lemma SplitWords(t: u64)
    ensures Wrap32(t / 0x1_0000_0000) == t / 0x1_0000_0000
    ensures (t / 0x1_0000_0000) * 0x1_0000_0000 + Wrap32(t) == t
  {
  }

  /** The carry chain of `mulhu` over its four partial products. Every sum is written with
      the wrap of its C type; the assertions say that none of them wraps. */
  method AddLimbs(p00: u64, p01: u64, p10: u64, p11: u64) returns (r: u64)
    requires p00 <= 0xffff_fffe_0000_0001 && p01 <= 0xffff_fffe_0000_0001
    requires p10 <= 0xffff_fffe_0000_0001 && p11 <= 0xffff_fffe_0000_0001
    ensures r == (p11 * 0x1_0000_0000_0000_0000 + (p10 + p01) * 0x1_0000_0000 + p00) / 0x1_0000_0000_0000_0000
  {
    var t := Wrap64(p10 + p00 / 0x1_0000_0000);
    assert t == p10 + p00 / 0x1_0000_0000;
    ghost var s1 := t;
    SplitWords(t);
    var y1, y2 := Wrap32(t), Wrap32(t / 0x1_0000_0000);
    t := Wrap64(p01 + y1);
    assert t == p01 + s1 % 0x1_0000_0000;
    ghost var s2 := t;
    y1 := Wrap32(t);
    t := Wrap64(p11 + y2 + t / 0x1_0000_0000);
    assert t == p11 + s1 / 0x1_0000_0000 + s2 / 0x1_0000_0000;
    SplitWords(t);
    y2 := Wrap32(t);
    var y3: u64 := Wrap32(t / 0x1_0000_0000);
    r := y3 * 0x1_0000_0000 + y2;
    HighLimbs(p00, p01, p10, p11, s1, s2, r);
  }

  /** The carries of the limb algorithm add up to the high half of the product. */
  lemma HighLimbs(p00: int, p01: int, p10: int, p11: int, s1: int, s2: int, r: int)
    requires s1 == p10 + p00 / 0x1_0000_0000
    requires s2 == p01 + s1 % 0x1_0000_0000
    requires r == p11 + s1 / 0x1_0000_0000 + s2 / 0x1_0000_0000
    ensures r == (p11 * 0x1_0000_0000_0000_0000 + (p10 + p01) * 0x1_0000_0000 + p00) / 0x1_0000_0000_0000_0000
  {
    var low := (s2 % 0x1_0000_0000) * 0x1_0000_0000 + p00 % 0x1_0000_0000;
    assert p11 * 0x1_0000_0000_0000_0000 + (p10 + p01) * 0x1_0000_0000 + p00
        == r * 0x1_0000_0000_0000_0000 + low;
  }

  /** `-a` on `int64_t` under two's-complement wrap, as a `uint64_t` magnitude. */
  function Magnitude(a: u64): (m: u64)
    ensures m == Abs(Signed64(a))
  {
    if Signed64(a) < 0 then Wrap64(0 - a) else a
  }

  /** Negating a 128-bit product: the high half of `-p` is `~hi`, plus one when the low
      half is zero. */
  lemma NegatedHigh(p: int)
    requires 0 <= p && p / TWO64 < TWO64
    ensures Wrap64((-p) / TWO64) == Wrap64(TWO64 - 1 - p / TWO64 + (if p % TWO64 == 0 then 1 else 0))
  {
    var hi, lo := p / 0x1_0000_0000_0000_0000, p % 0x1_0000_0000_0000_0000;
    assert p == hi * 0x1_0000_0000_0000_0000 + lo;
    if lo == 0 {
      assert -p == (-hi) * 0x1_0000_0000_0000_0000;
    } else {
      assert -p == (-hi - 1) * 0x1_0000_0000_0000_0000 + (0x1_0000_0000_0000_0000 - lo);
    }
  }

  lemma ProductFits(a: nat, b: nat)
    requires a < TWO64 && b < TWO64
    ensures a * b / TWO64 < TWO64
  {
    MulMonotone(b, 0x1_0000_0000_0000_0000, a);
    MulMonotone(a, 0xffff_ffff_ffff_ffff, 0x1_0000_0000_0000_0000);
  }

  /** The wrapped signed product vanishes exactly when the low half of |a*b| does. */
  lemma LowHalfZero(p: int, k: int, w: int)
    requires w == p + k * TWO64 || w == -p + k * TWO64
    ensures Wrap64(w) == 0 <==> p % TWO64 == 0
  {
    var q := p / 0x1_0000_0000_0000_0000;
    if w == p + k * TWO64 {
      WrapShift64(p, k);
    } else {
      WrapShift64(-p, k);
      assert -p == (-q) * 0x1_0000_0000_0000_0000 - p % 0x1_0000_0000_0000_0000;
    }
  }

  /** The unsigned 64-bit product differs from the signed one by a multiple of 2^64. */
  lemma SignedProduct(a: u64, b: u64) returns (k: int)
    ensures a * b == Signed64(a) * Signed64(b) + k * TWO64
  {
    var da, db := (if Signed64(a) < 0 then 1 else 0), (if Signed64(b) < 0 then 1 else 0);
    var sa, sb := Signed64(a), Signed64(b);
    assert a == sa + da * 0x1_0000_0000_0000_0000 && b == sb + db * 0x1_0000_0000_0000_0000;
    k := da * sb + db * sa + da * db * 0x1_0000_0000_0000_0000;
    calc {
      a * b;
      (sa + da * 0x1_0000_0000_0000_0000) * b;
      sa * b + da * b * 0x1_0000_0000_0000_0000;
      { assert sa * b == sa * sb + db * sa * 0x1_0000_0000_0000_0000;
        assert da * b == da * sb + da * db * 0x1_0000_0000_0000_0000; }
      sa * sb + k * 0x1_0000_0000_0000_0000;
    }
  }

  /** src/interp_util.h `mulh`: the high half of the signed product. */
  method Mulh(a: u64, b: u64) returns (r: u64)
    ensures r == Wrap64((Signed64(a) * Signed64(b)) / TWO64)
  {
    var negate := (Signed64(a) < 0) != (Signed64(b) < 0);
    var res := Mulhu(Magnitude(a), Magnitude(b));
    ghost var p: int := Magnitude(a) * Magnitude(b);
    ProductFits(Magnitude(a), Magnitude(b));
    if negate {
      r := Wrap64(TWO64 - 1 - res + (if Wrap64(a * b) == 0 then 1 else 0));
      ghost var k := SignedProduct(a, b);
      assert Signed64(a) * Signed64(b) == -p by { SignRule(Signed64(a), Signed64(b)); }
      LowHalfZero(p, k, a * b);
      NegatedHigh(p);
    } else {
      r := res;
      assert Signed64(a) * Signed64(b) == p by { SignRule(Signed64(a), Signed64(b)); }
    }
  }

  lemma SignRule(x: int, y: int)
    ensures x * y == if (x < 0) != (y < 0) then -(Abs(x) * Abs(y)) else Abs(x) * Abs(y)
  {
  }

  /** src/interp_util.h `mulhsu`: the high half of the signed-by-unsigned product. */
  method Mulhsu(a: u64, b: u64) returns (r: u64)
    ensures r == Wrap64((Signed64(a) * b) / TWO64)
  {
    var negate := Signed64(a) < 0;
    var res := Mulhu(Magnitude(a), b);
    ghost var p: int := Magnitude(a) * b;
    ProductFits(Magnitude(a), b);
    if negate {
      r := Wrap64(TWO64 - 1 - res + (if Wrap64(a * b) == 0 then 1 else 0));
      assert Signed64(a) * b == -p by { SignRule(Signed64(a), b); }
      assert a * b == Signed64(a) * b + b * TWO64 by {
        assert a == Signed64(a) + 0x1_0000_0000_0000_0000;
      }
      LowHalfZero(p, b, a * b);
      NegatedHigh(p);
    } else {
      r := res;
    }
  }
}
