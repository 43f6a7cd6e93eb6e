/** Laws of the division handlers, for all operands (section 7.2 of the RISC-V Unprivileged
    ISA, version 20191213). */
module Division {
  import opened Words
  import opened Instruction
  import opened Alu

  /** What it means for (q, r) to be the truncating quotient and remainder of a by b. */
  predicate IsTruncated(a: int, b: int, q: int, r: int) {
    && a == b * q + r
    && Abs(r) < Abs(b)
    && (r != 0 ==> (r < 0 <==> a < 0))
  }

  lemma MulSigns(x: int, y: int)
    ensures (-x) * y == -(x * y) && x * (-y) == -(x * y) && (-x) * (-y) == x * y
  {
  }

  lemma TruncatedLaw(a: int, b: int)
    requires b != 0
    ensures IsTruncated(a, b, TruncDiv(a, b), TruncRem(a, b))
  {
    var m, n: int := Abs(a), Abs(b);
    var q, r: int := m / n, m % n;
    assert m == n * q + r;
    MulSigns(n, q);
  }

  /** Multiplying by something other than zero does not shrink. */
  lemma MulAtLeast(b: int, k: int)
    requires k != 0
    ensures Abs(b * k) >= Abs(b)
  {
    if k > 0 {
      MulBound(Abs(b), k);
    } else {
      MulBound(Abs(b), -k);
    }
    MulSigns(Abs(b), Abs(k));
  }

  lemma MulBound(b: nat, k: int)
    requires k >= 1
    ensures b * k >= b
  {
  }

  /** Quotient and remainder are determined by the law. */
  lemma TruncatedUnique(a: int, b: int, q: int, r: int, q': int, r': int)
    requires IsTruncated(a, b, q, r) && IsTruncated(a, b, q', r')
    ensures q == q' && r == r'
  {
    assert b * (q - q') == r' - r;
    if q != q' {
      MulAtLeast(b, q - q');
    }
  }

  /** `div` and `rem`: the identity modulo 2^64, the size and the sign of the remainder, and
      the zero-divisor and overflow results. Away from those two cases the identity is exact
      over the integers, so by TruncatedUnique it fixes both results. */
  lemma SignedDivision(a: u64, b: u64, q: u64, r: u64)
    requires Some(q) == RegResult(DIV, a, b) && Some(r) == RegResult(REM, a, b)
    ensures Wrap64(b * q + r) == a
    ensures b == 0 ==> q == TWO64 - 1 && r == a
    ensures a == TWO63 && b == TWO64 - 1 ==> q == TWO63 && r == 0
    ensures b != 0 ==> Abs(Signed64(r)) < Abs(Signed64(b))
    ensures b != 0 && Signed64(r) != 0 ==> (Signed64(r) < 0 <==> Signed64(a) < 0)
    ensures b != 0 && !(a == TWO63 && b == TWO64 - 1) ==>
      IsTruncated(Signed64(a), Signed64(b), Signed64(q), Signed64(r))
  {
    if b == 0 {
    } else if a == TWO63 && b == TWO64 - 1 {
      OverflowCase();
    } else {
      SignedCore(a, b);
    }
  }

  /** The regular case of `div` and `rem`. */
  lemma SignedCore(a: u64, b: u64)
    requires b != 0 && !(a == TWO63 && b == TWO64 - 1)
    ensures var q, r := Wrap64(TruncDiv(Signed64(a), Signed64(b))), Wrap64(TruncRem(Signed64(a), Signed64(b)));
      && Wrap64(b * q + r) == a
      && IsTruncated(Signed64(a), Signed64(b), Signed64(q), Signed64(r))
  {
    var A, B := Signed64(a), Signed64(b);
    var Q, R := TruncDiv(A, B), TruncRem(A, B);
    TruncatedLaw(A, B);
    QuotientRange(A, B);
    SignedOfWrap(Q);
    SignedOfWrap(R);
    WrapOfProduct(b, Wrap64(Q), Wrap64(R), B, Q, R);
    SignedRoundTrip64(a);
  }

  lemma SignedOfWrap(x: int)
    requires -TWO63 <= x < TWO63
    ensures Signed64(Wrap64(x)) == x
  {
  }

  lemma OverflowCase()
    ensures Wrap64((TWO64 - 1) * TWO63 + 0) == TWO63
  {
    WrapShift64(0x8000_0000_0000_0000, 0x7fff_ffff_ffff_ffff);
  }

  /** Except for the overflow case the quotient fits in 64 signed bits. */
  lemma QuotientRange(a: int, b: int)
    requires -TWO63 <= a < TWO63 && b != 0
    requires !(a == -TWO63 && b == -1)
    ensures -TWO63 <= TruncDiv(a, b) < TWO63
  {
    var m, n: int := Abs(a), Abs(b);
    var q: int := m / n;
    assert m == n * q + m % n;
    MulBound(q, n);
    if n >= 2 { MulBound2(q, n); }
  }

  lemma MulBound2(q: nat, n: int)
    requires n >= 2
    ensures n * q >= 2 * q
  {
  }

  /** A congruence modulo 2^64 carried through `b * q + r`. */
  lemma WrapOfProduct(b: u64, q: u64, r: u64, B: int, Q: int, R: int)
    requires B == Signed64(b) && Q == Signed64(q) && R == Signed64(r)
    ensures Wrap64(b * q + r) == Wrap64(B * Q + R)
  {
    var db, dq, dr := (if B < 0 then 1 else 0), (if Q < 0 then 1 else 0), (if R < 0 then 1 else 0);
    var k := B * dq + Q * db + db * dq * 0x1_0000_0000_0000_0000 + dr;
    assert b * q == B * Q + (B * dq + Q * db + db * dq * 0x1_0000_0000_0000_0000) * 0x1_0000_0000_0000_0000 by {
      assert b == B + db * 0x1_0000_0000_0000_0000;
      assert q == Q + dq * 0x1_0000_0000_0000_0000;
      Expand(B, db, Q, dq, 0x1_0000_0000_0000_0000);
    }
    assert b * q + r == (B * Q + R) + k * 0x1_0000_0000_0000_0000;
    WrapShift64(B * Q + R, k);
  }

  lemma Expand(x: int, dx: int, y: int, dy: int, m: int)
    ensures (x + dx * m) * (y + dy * m) == x * y + (x * dy + y * dx + dx * dy * m) * m
  {
  }

  /** `divu` and `remu`. */
  lemma UnsignedDivision(a: u64, b: u64, q: u64, r: u64)
    requires Some(q) == RegResult(DIVU, a, b) && Some(r) == RegResult(REMU, a, b)
    ensures Wrap64(b * q + r) == a
    ensures b == 0 ==> q == TWO64 - 1 && r == a
    ensures b != 0 ==> a == b * q + r && r < b
  {
    if b != 0 {
      QuotientFits(a, b);
      assert q == a / b && r == a % b;
    }
  }

  lemma QuotientFits(a: u64, b: u64)
    requires b != 0
    ensures 0 <= a / b <= a && 0 <= a % b < b && a == b * (a / b) + a % b
  {
    MulBound(a / b, b);
  }

  /** Section 7.2 on 32-bit operands: the values `divw`, `remw`, `divuw` and `remuw` should
      sign-extend. */
  function DivWord(a: u32, b: u32): int {
    if b == 0 then -1
    else if Signed32(a) == -TWO31 && Signed32(b) == -1 then -TWO31
    else TruncDiv(Signed32(a), Signed32(b))
  }

  function RemWord(a: u32, b: u32): int {
    if b == 0 then Signed32(a)
    else if Signed32(a) == -TWO31 && Signed32(b) == -1 then 0
    else TruncRem(Signed32(a), Signed32(b))
  }

  function DivuWord(a: u32, b: u32): int { if b == 0 then 0xffff_ffff else a / b }

  function RemuWord(a: u32, b: u32): int { if b == 0 then a else a % b }

  /** The result section 7.2 prescribes for each W form, on the low words. */
  function WordSpec(op: RegOp, a: u32, b: u32): u64
    requires op in {DIVW, DIVUW, REMW, REMUW}
  {
    match op
    case DIVW => SextWord(DivWord(a, b))
    case DIVUW => SextWord(DivuWord(a, b))
    case REMW => SextWord(RemWord(a, b))
    case _ => SextWord(RemuWord(a, b))
  }

  /** The W forms agree with section 7.2 exactly when `rs2` is zero or has a nonzero low
      word; on the remaining operands the host divides by zero. */
  lemma WordDivision(op: RegOp, a: u64, b: u64)
    requires op in {DIVW, DIVUW, REMW, REMUW}
    ensures RegResult(op, a, b) == Some(WordSpec(op, Wrap32(a), Wrap32(b)))
      <==> b == 0 || Wrap32(b) != 0
    ensures RegResult(op, a, b) == None <==> !(b == 0 || Wrap32(b) != 0)
  {
    var lo1, lo2 := Wrap32(a), Wrap32(b);
    if b == 0 {
      SextOfSigned(lo1);
      SextWordLow(a);
      assert SextWord(-1) == 0xffff_ffff_ffff_ffff && SextWord(0xffff_ffff) == 0xffff_ffff_ffff_ffff;
    } else if lo2 != 0 {
      WordOverflow(lo1, lo2);
    }
  }

  /** -2^31 / -1 is computed in 64 bits and truncated, which gives the prescribed -2^31. */
  lemma WordOverflow(a: u32, b: u32)
    requires b != 0
    ensures SextWord(DivWord(a, b)) == SextWord(TruncDiv(Signed32(a), Signed32(b)))
    ensures RemWord(a, b) == TruncRem(Signed32(a), Signed32(b))
  {
  }

  lemma SextOfSigned(x: u32)
    ensures SextWord(Signed32(x)) == SextWord(x)
  {
    WrapShift32(x, -1);
  }

  /** A concrete operand pair on which the W forms kill the host although section 7.2
      defines a result. */
  lemma WordDivisionCounterexample()
    ensures RegResult(DIVW, 7, TWO32) == None && RegResult(REMUW, 7, TWO32) == None
    ensures DivWord(Wrap32(7), Wrap32(TWO32)) == -1 && RemuWord(Wrap32(7), Wrap32(TWO32)) == 7
  {
  }

  /** The sign extension of a 32-bit number is that number, read as 64 or as 32 bits. */
  lemma SignedOfSext(x: int)
    requires -TWO31 <= x < TWO31
    ensures Signed64(SextWord(x)) == x && Wrap32(SextWord(x)) == Wrap32(x)
  {
    SextWordLow(x);
    assert Signed32(Wrap32(x)) == x;
  }

  /** A congruence modulo 2^32 carried through `b * q + r`. */
  lemma LowWordIdentity(b: int, q: int, r: int, b': int, q': int, r': int)
    requires Wrap32(b) == Wrap32(b') && Wrap32(q) == Wrap32(q') && Wrap32(r) == Wrap32(r')
    ensures Wrap32(b * q + r) == Wrap32(b' * q' + r')
  {
    var kb, kq, kr := b / TWO32 - b' / TWO32, q / TWO32 - q' / TWO32, r / TWO32 - r' / TWO32;
    assert b == b' + kb * TWO32 && q == q' + kq * TWO32 && r == r' + kr * TWO32;
    Expand(b', kb, q', kq, TWO32);
    var k := b' * kq + q' * kb + kb * kq * TWO32;
    assert b * q + r == b' * q' + r' + (k + kr) * TWO32;
    WrapShift32(b' * q' + r', k + kr);
  }

  /** Except for the overflow case the quotient fits in 32 signed bits. */
  lemma WordQuotientRange(a: int, b: int)
    requires -TWO31 <= a < TWO31 && b != 0 && !(a == -TWO31 && b == -1)
    ensures -TWO31 <= TruncDiv(a, b) < TWO31
  {
    var m, n: int := Abs(a), Abs(b);
    var q: int := m / n;
    assert m == n * q + m % n;
    MulBound(q, n);
    if n >= 2 { MulBound2(q, n); }
  }

  /** `divw` and `remw`, on every operand pair on which they return: the 32-bit identity, the size
      and the sign of the remainder, and the zero-divisor and overflow results. Away from those two
      cases the identity is exact over the integers, so it fixes both results. */
  lemma SignedWordDivision(a: u64, b: u64, q: u64, r: u64)
    requires Some(q) == RegResult(DIVW, a, b) && Some(r) == RegResult(REMW, a, b)
    ensures Wrap32(b * q + r) == Wrap32(a)
    ensures var A, B := Signed32(Wrap32(a)), Signed32(Wrap32(b));
      && (b == 0 ==> q == TWO64 - 1 && r == SextWord(a))
      && (A == -TWO31 && B == -1 ==> Signed64(q) == -TWO31 && r == 0)
      && (b != 0 ==> Abs(Signed64(r)) < Abs(B))
      && (b != 0 && r != 0 ==> (Signed64(r) < 0 <==> A < 0))
      && (b != 0 && !(A == -TWO31 && B == -1) ==> IsTruncated(A, B, Signed64(q), Signed64(r)))
  {
    var A, B := Signed32(Wrap32(a)), Signed32(Wrap32(b));
    if b == 0 {
      SextWordLow(a);
      LowWordIdentity(b, q, r, 0, q, a);
    } else {
      TruncatedLaw(A, B);
      if A == -TWO31 && B == -1 {
        SignedWordOverflow(a, b, q, r);
      } else {
        SignedWordCore(a, b, q, r);
      }
    }
  }

  lemma SignedWordOverflow(a: u64, b: u64, q: u64, r: u64)
    requires Signed32(Wrap32(a)) == -TWO31 && Signed32(Wrap32(b)) == -1
    requires q == SextWord(TruncDiv(-TWO31, -1)) && r == SextWord(TruncRem(-TWO31, -1))
    ensures Signed64(q) == -TWO31 && r == 0 && Wrap32(b * q + r) == Wrap32(a)
  {
    LowWordIdentity(b, q, r, -1, -TWO31, 0);
  }

  /** The regular case of `divw` and `remw`. */
  lemma SignedWordCore(a: u64, b: u64, q: u64, r: u64)
    requires var A, B := Signed32(Wrap32(a)), Signed32(Wrap32(b));
      && B != 0 && !(A == -TWO31 && B == -1)
      && q == SextWord(TruncDiv(A, B)) && r == SextWord(TruncRem(A, B))
    ensures Wrap32(b * q + r) == Wrap32(a)
    ensures IsTruncated(Signed32(Wrap32(a)), Signed32(Wrap32(b)), Signed64(q), Signed64(r))
  {
    hide TruncDiv, TruncRem, SextWord;
    var A, B := Signed32(Wrap32(a)), Signed32(Wrap32(b));
    var Q, R := TruncDiv(A, B), TruncRem(A, B);
    TruncatedLaw(A, B);
    WordQuotientRange(A, B);
    SignedOfSext(Q);
    SignedOfSext(R);
    LowOfSigned(a);
    LowOfSigned(b);
    LowWordIdentity(b, q, r, B, Q, R);
  }

  lemma LowOfSigned(x: int)
    ensures Wrap32(Signed32(Wrap32(x))) == Wrap32(x)
  {
    WrapShift32(Wrap32(x), -1);
  }

  /** `divuw` and `remuw`, on every operand pair on which they return; both results are the sign
      extensions of their low words. */
  lemma UnsignedWordDivision(a: u64, b: u64, q: u64, r: u64)
    requires Some(q) == RegResult(DIVUW, a, b) && Some(r) == RegResult(REMUW, a, b)
    ensures Wrap32(b * q + r) == Wrap32(a)
    ensures q == SextWord(Wrap32(q)) && r == SextWord(Wrap32(r))
    ensures b == 0 ==> q == TWO64 - 1 && r == SextWord(a)
    ensures b != 0 ==> Wrap32(a) == Wrap32(b) * Wrap32(q) + Wrap32(r) && Wrap32(r) < Wrap32(b)
  {
    if b == 0 {
      WordLow(Wrap32(a));
      SextWordLow(a);
      LowWordIdentity(b, q, r, 0, q, a);
    } else {
      UnsignedWordCore(a, b, q, r);
    }
  }

  lemma UnsignedWordCore(a: u64, b: u64, q: u64, r: u64)
    requires var A, B := Wrap32(a), Wrap32(b); B != 0 && q == SextWord(A / B) && r == SextWord(A % B)
    ensures Wrap32(b * q + r) == Wrap32(a)
    ensures q == SextWord(Wrap32(q)) && r == SextWord(Wrap32(r))
    ensures Wrap32(a) == Wrap32(b) * Wrap32(q) + Wrap32(r) && Wrap32(r) < Wrap32(b)
  {
    hide SextWord;
    var A, B: int := Wrap32(a), Wrap32(b);
    QuotientFits(A, B);
    WordLow(A / B);
    WordLow(A % B);
    SameLow(b);
    SameLow(a);
    LowWordIdentity(b, q, r, B, A / B, A % B);
  }

  lemma SameLow(x: int)
    ensures Wrap32(Wrap32(x)) == Wrap32(x)
  {
  }

  lemma WordLow(x: u32)
    ensures Wrap32(SextWord(x)) == x
  {
    SextWordLow(x);
  }
}
