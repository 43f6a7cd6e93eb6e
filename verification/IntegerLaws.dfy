/** What the integer instructions compute, in laws that hold between them: subtraction undoes
    addition, a set-less-than is the borrow of a subtraction, shifts double and halve, the two
    halves of a product are the product, a bitwise result is the operation on every bit, and an
    immediate form is the register form on the extended immediate. */
module IntegerLaws {
  import opened Words
  import opened Instruction
  import opened Alu
  import opened WideBits
  import opened BitPatterns
  import Memory
  import HighMultiply
  import WordForms

  // ---- addition, subtraction, comparison ----

  /** Congruent modulo 2^64. */
  predicate Same(x: int, y: int) { (x - y) % 0x1_0000_0000_0000_0000 == 0 }

  lemma WrapIsSame(r: u64, x: int)
    ensures Wrap64(x) == r <==> Same(r, x)
  {
  }

  /** ADD returns the one register value congruent to the sum. */
  lemma AddIsSum(x: u64, y: u64, r: u64)
    ensures RegResult(ADD, x, y) == Some(r) <==> Same(r, x + y)
    ensures RegResult(ADD, x, y) == RegResult(ADD, y, x) && RegResult(ADD, x, 0) == Some(x)
  {
    WrapIsSame(r, x + y);
  }

  /** SUB undoes ADD, and nothing else does. */
  lemma SubUndoesAdd(x: u64, y: u64, r: u64)
    ensures RegResult(SUB, x, y) == Some(r) <==> RegResult(ADD, r, y) == Some(x)
  {
  }

  /** SLTU is the borrow of the subtraction. */
  lemma SetIsBorrow(x: u64, y: u64, d: u64, b: u64)
    requires RegResult(SUB, x, y) == Some(d)
    ensures RegResult(SLTU, x, y) == Some(b) <==> (d as int) + y == (x as int) + b * TWO64
  {
  }

  /** SLT is SLTU with both operands moved up by 2^63. */
  lemma SignedSet(x: u64, y: u64, x': u64, y': u64)
    requires RegResult(ADD, x, TWO63) == Some(x') && RegResult(ADD, y, TWO63) == Some(y')
    ensures RegResult(SLT, x, y) == RegResult(SLTU, x', y')
  {
  }

  // ---- bitwise ----

  lemma BitwiseArms(x: u64, y: u64)
    ensures RegResult(AND, x, y) == Some(And64(x, y)) && RegResult(OR, x, y) == Some(Or64(x, y))
    ensures RegResult(XOR, x, y) == Some(Xor64(x, y))
  {
    hide And64, Or64, Xor64;
  }

  /** Every bit of AND is one where both operands have one; by BitsDetermine the bits fix it. */
  lemma AndLaw(x: u64, y: u64, r: u64, k: nat)
    requires RegResult(AND, x, y) == Some(r)
    ensures BitOf(r, k) == 1 <==> BitOf(x, k) == 1 && BitOf(y, k) == 1
  {
    hide *;
    BitwiseArms(x, y);
    BitwiseBits(x, y, k);
  }

  /** OR has a one where either operand has one. */
  lemma OrLaw(x: u64, y: u64, r: u64, k: nat)
    requires RegResult(OR, x, y) == Some(r)
    ensures BitOf(r, k) == 1 <==> BitOf(x, k) == 1 || BitOf(y, k) == 1
  {
    hide *;
    BitwiseArms(x, y);
    BitwiseBits(x, y, k);
  }

  /** XOR has a one where the operands differ. */
  lemma XorLaw(x: u64, y: u64, r: u64, k: nat)
    requires RegResult(XOR, x, y) == Some(r)
    ensures BitOf(r, k) == 1 <==> BitOf(x, k) != BitOf(y, k)
  {
    hide *;
    BitwiseArms(x, y);
    BitwiseBits(x, y, k);
  }

  // ---- shifts ----

  lemma ShiftArms(x: u64, y: u64)
    ensures RegResult(SLL, x, y) == Some(Wrap64(x * Pow2(y % 64)))
    ensures RegResult(SRL, x, y) == Some(Wrap64(x / Pow2(y % 64)))
    ensures RegResult(SRA, x, y) == Some(Wrap64(Signed64(x) / Pow2(y % 64)))
  {
    hide Pow2;
  }

  lemma DoubleWrap(z: int)
    ensures Wrap64(2 * z) == Wrap64(2 * (Wrap64(z) as int))
  {
    WrapShift64(2 * (Wrap64(z) as int), 2 * (z / 0x1_0000_0000_0000_0000));
  }

  /** The amount is the low six bits of rs2, and shifting by none changes nothing. */
  lemma ShiftAmount(op: RegOp, x: u64, y: u64)
    requires op in {SLL, SRL, SRA}
    ensures RegResult(op, x, y) == RegResult(op, x, y % 64) && RegResult(op, x, 0) == Some(x)
  {
    hide RegResult, Pow2, Wrap64, Signed64;
    ShiftArms(x, y);
    ShiftArms(x, y % 64);
    ShiftArms(x, 0);
    ShiftByNone(x);
  }

  lemma ShiftByNone(x: u64)
    ensures Wrap64(x * Pow2(0)) == x && Wrap64(x / Pow2(0)) == x && Wrap64(Signed64(x) / Pow2(0)) == x
  {
    SignedRoundTrip64(x);
    assert Pow2(0) == 1;
  }

  /** Shifting left by one more is adding the result to itself. */
  lemma ShiftLeftLaw(x: u64, k: u64, r: u64)
    requires k < 63 && RegResult(SLL, x, k) == Some(r)
    ensures RegResult(SLL, x, k + 1) == RegResult(ADD, r, r)
  {
    hide RegResult, Pow2, Wrap64;
    AddArm(r);
    ShiftArms(x, k);
    ShiftArms(x, k + 1);
    PowStep(k);
    ProductOfDouble(x, Pow2(k));
    DoubleWrap(x * Pow2(k));
  }

  lemma ProductOfDouble(x: int, p: int)
    ensures x * (2 * p) == 2 * (x * p)
  {
  }

  lemma AddArm(r: u64)
    ensures RegResult(ADD, r, r) == Some(Wrap64(2 * (r as int)))
  {
  }

  lemma PowStep(k: nat)
    ensures Pow2(0) == 1 && Pow2(k + 1) == 2 * Pow2(k)
  {
  }

  lemma DivUnique(x: int, m: int, q: int, r: int)
    requires 0 <= r < m && x == m * q + r
    ensures x / m == q
  {
    var d := x / m - q;
    assert m * d == r - x % m by { assert m * (x / m) - m * q == m * d; }
    Memory.Spread(m, d);
  }

  lemma Regroup(p: int, h: int, b: int)
    ensures p * (2 * h + b) == (2 * p) * h + p * b
  {
  }

  /** Dividing by 2p is dividing by p and halving. */
  lemma HalfOfQuotient(x: int, p: int)
    requires p > 0
    ensures x / (2 * p) == (x / p) / 2
  {
    var q, r := x / p, x % p;
    var h, b := q / 2, q % 2;
    assert x == p * q + r;
    Regroup(p, h, b);
    var low := if b == 0 then r else p + r;
    assert x == (2 * p) * h + low;
    DivUnique(x, 2 * p, h, low);
  }

  lemma Scale(p: int, q: int)
    requires p >= 1
    ensures q >= 0 ==> p * q >= q
    ensures q <= 0 ==> p * q <= q
  {
  }

  lemma QuotientInRange(x: int, p: int)
    requires p > 0
    ensures x >= 0 ==> 0 <= x / p <= x
    ensures x < 0 ==> x <= x / p < 0
  {
    var q := x / p;
    assert x == p * q + x % p;
    Memory.Spread(p, q);
    Scale(p, q);
    Scale(p, q + 1);
    assert p * (q + 1) == p * q + p;
  }

  lemma ShiftRightArms(x: u64, k: u64, r: u64, s: u64)
    requires k < 64 && RegResult(SRL, x, k) == Some(r) && RegResult(SRA, x, k) == Some(s)
    ensures r == x / Pow2(k) && Signed64(s) == Signed64(x) / Pow2(k)
  {
    hide RegResult, Pow2, Signed64;
    ShiftArms(x, k);
    SignedRoundTrip64(x);
    QuotientInRange(x, Pow2(k));
    QuotientInRange(Signed64(x), Pow2(k));
    SignedOfWrap(Signed64(x) / Pow2(k));
  }

  /** Shifting right by one more halves, rounding down: the number itself for SRL, the signed number
      for SRA. */
  lemma ShiftRightLaw(x: u64, k: u64, r: u64, s: u64, r': u64, s': u64)
    requires k < 63 && RegResult(SRL, x, k) == Some(r) && RegResult(SRA, x, k) == Some(s)
    requires RegResult(SRL, x, k + 1) == Some(r') && RegResult(SRA, x, k + 1) == Some(s')
    ensures r' == r / 2 && Signed64(s') == Signed64(s) / 2
  {
    hide RegResult, Pow2, Signed64;
    ShiftRightArms(x, k, r, s);
    ShiftRightArms(x, k + 1, r', s');
    PowStep(k);
    HalfOfQuotient(x, Pow2(k));
    HalfOfQuotient(Signed64(x), Pow2(k));
  }

  lemma SignedOfWrap(x: int)
    requires -TWO63 <= x < TWO63
    ensures Signed64(Wrap64(x)) == x
  {
  }

  /** So the results are the rounded quotients by a power of two. */
  lemma ShiftRightBounds(x: u64, k: u64, r: u64, s: u64)
    requires k < 64 && RegResult(SRL, x, k) == Some(r) && RegResult(SRA, x, k) == Some(s)
    ensures r * Pow2(k) <= x < (r + 1) * Pow2(k)
    ensures Signed64(s) * Pow2(k) <= Signed64(x) < (Signed64(s) + 1) * Pow2(k)
  {
    hide RegResult, Pow2, Signed64;
    ShiftRightArms(x, k, r, s);
    Bracket(x, Pow2(k));
    Bracket(Signed64(x), Pow2(k));
  }

  lemma Bracket(x: int, p: int)
    requires p > 0
    ensures (x / p) * p <= x < (x / p + 1) * p
  {
    assert x == p * (x / p) + x % p;
  }

  /** And those powers are what they should be. */
  lemma Powers()
    ensures Pow2(0) == 1 && Pow2(1) == 2 && Pow2(8) == 0x100 && Pow2(16) == 0x1_0000
    ensures Pow2(32) == 0x1_0000_0000 && Pow2(63) == 0x8000_0000_0000_0000
  {
    assert Pow2(2) == 4 && Pow2(4) == 16;
    hide Pow2;
    PowSum(4, 4);
    PowSum(8, 8);
    PowSum(16, 16);
    PowSum(32, 16);
    PowSum(48, 8);
    PowSum(56, 4);
    PowSum(60, 2);
    PowSum(62, 1);
  }

  lemma {:induction false} PowSum(m: nat, n: nat)
    ensures Pow2(m + n) == Pow2(m) * Pow2(n)
    decreases n
  {
    if n > 0 {
      PowSum(m, n - 1);
      assert Pow2(m) * (2 * Pow2(n - 1)) == 2 * (Pow2(m) * Pow2(n - 1));
    }
  }

  // ---- products ----

  lemma ProductArms(x: u64, y: u64)
    ensures RegResult(MUL, x, y) == Some(Wrap64(x * y))
    ensures RegResult(MULHU, x, y) == Some(Wrap64((x * y) / TWO64))
    ensures RegResult(MULH, x, y) == Some(Wrap64((Signed64(x) * Signed64(y)) / TWO64))
    ensures RegResult(MULHSU, x, y) == Some(Wrap64((Signed64(x) * y) / TWO64))
  {
    hide Signed64;
  }

  /** The two halves of an unsigned product are the product. */
  lemma UnsignedProduct(x: u64, y: u64, h: u64, l: u64)
    requires RegResult(MULHU, x, y) == Some(h) && RegResult(MUL, x, y) == Some(l)
    ensures h * TWO64 + l == x * y
  {
    hide RegResult, Wrap64;
    ProductArms(x, y);
    HighMultiply.ProductFits(x, y);
    HighInRange(x * y);
    BothHalves(x * y);
  }

  lemma HighInRange(p: int)
    requires 0 <= p && p / TWO64 < TWO64
    ensures Wrap64(p / TWO64) == p / TWO64
  {
  }

  lemma BothHalves(p: int)
    ensures (p / TWO64) * TWO64 + Wrap64(p) == p
  {
  }

  lemma SignedBounds(x: int, y: int)
    requires -TWO63 <= x < TWO63 && -TWO63 <= y < TWO64
    ensures -TWO63 <= (x * y) / TWO64 < TWO63
  {
    HighMultiply.MulMonotone(Abs(x), TWO63, Abs(y));
    HighMultiply.SignRule(x, y);
    assert Abs(x) * Abs(y) <= TWO63 * Abs(y) <= TWO63 * (TWO64 - 1);
  }

  /** The high half, signed, and the low half of a signed product are the product. */
  lemma SignedProduct(x: u64, y: u64, h: u64, l: u64)
    requires RegResult(MULH, x, y) == Some(h) && RegResult(MUL, x, y) == Some(l)
    ensures Signed64(h) * TWO64 + l == Signed64(x) * Signed64(y)
  {
    SignedRoundTrip64(x);
    SignedRoundTrip64(y);
    hide RegResult, Signed64;
    ProductArms(x, y);
    var k := HighMultiply.SignedProduct(x, y);
    var p := Signed64(x) * Signed64(y);
    WrapShift64(p, k);
    SignedBounds(Signed64(x), Signed64(y));
    SignedOfWrap(p / TWO64);
    BothHalves(p);
  }

  /** The same for a signed by an unsigned factor. */
  lemma MixedProduct(x: u64, y: u64, h: u64, l: u64)
    requires RegResult(MULHSU, x, y) == Some(h) && RegResult(MUL, x, y) == Some(l)
    ensures Signed64(h) * TWO64 + l == Signed64(x) * y
  {
    SignedRoundTrip64(x);
    var k := if x < 0x8000_0000_0000_0000 then 0 else y as int;
    assert x * y == Signed64(x) * y + k * TWO64;
    hide RegResult, Signed64;
    ProductArms(x, y);
    var p := Signed64(x) * y;
    WrapShift64(p, k);
    SignedBounds(Signed64(x), y);
    SignedOfWrap(p / TWO64);
    BothHalves(p);
  }

  // ---- immediate forms ----

  /** The register form of a register-immediate operation. */
  function RegForm(op: ImmOp): RegOp {
    match op
    case ADDI => ADD case SLLI => SLL case SLTI => SLT case SLTIU => SLTU case XORI => XOR
    case SRLI => SRL case SRAI => SRA case ORI => OR case ANDI => AND
    case ADDIW => ADDW case SLLIW => SLLW case SRLIW => SRLW case SRAIW => SRAW
  }

  /** Multiples of 2^32 do not show in the low bits. */
  lemma LowOfSum(x: int, k: int)
    ensures (x + 0x1_0000_0000 * k) % 64 == x % 64 && (x + 0x1_0000_0000 * k) % 32 == x % 32
  {
    Memory.Remainder(x + 0x1_0000_0000 * k, 64, x / 64 + 0x400_0000 * k, x % 64);
    Memory.Remainder(x + 0x1_0000_0000 * k, 32, x / 32 + 0x800_0000 * k, x % 32);
  }

  /** The low bits of the immediate, as a number. */
  lemma LowBits(imm: bv32)
    ensures Low6(imm) == Simm(imm) % 64 && Low5(imm) == Simm(imm) % 32
  {
    hide Simm, Value32, Low6, Low5;
    Low6Value(imm);
    Low5Value(imm);
    SimmValue(imm);
    LowOfSum(Value32(imm), -1);
  }

  lemma Low6Value(imm: bv32)
    ensures Low6(imm) == Value32(imm) % 64
  {
    hide Value32;
    var h, l := Parts6(imm);
    var h', l' := Low6Join(imm, h, l);
  }

  lemma Low6Join(imm: bv32, h: bv26, l: bv6) returns (h': int, l': int)
    requires imm == ((h as bv32) << 6) | (l as bv32)
    ensures Value32(imm) == 64 * h' + l' && 0 <= l' < 64 && Low6(imm) == l'
  {
    h', l' := h as int, l as int;
    assert (imm & 0x3f) as bv6 == l;
  }

  lemma Low5Value(imm: bv32)
    ensures Low5(imm) == Value32(imm) % 32
  {
    hide Value32;
    var h, l := Parts5(imm);
    var h', l' := Low5Join(imm, h, l);
  }

  lemma Low5Join(imm: bv32, h: bv27, l: bv5) returns (h': int, l': int)
    requires imm == ((h as bv32) << 5) | (l as bv32)
    ensures Value32(imm) == 32 * h' + l' && 0 <= l' < 32 && Low5(imm) == l'
  {
    h', l' := h as int, l as int;
    assert (imm & 0x1f) as bv5 == l;
  }

  /** A register-immediate instruction computes what its register form computes on the sign-extended
      immediate. */
  lemma ImmediateLaw(op: ImmOp, x: u64, imm: bv32)
    ensures RegResult(RegForm(op), x, Wrap64(Simm(imm))) == Some(ImmResult(op, x, imm))
  {
    hide Simm, Low6, Low5, Pow2, And64, Or64, Xor64;
    LowBits(imm);
    SimmRange(imm);
    ImmediateValue(op, x, Simm(imm), Low6(imm), Low5(imm));
  }

  lemma SimmRange(imm: bv32)
    ensures -TWO31 <= Simm(imm) < TWO31
  {
    hide Simm, Value32;
    SimmValue(imm);
  }

  lemma ImmediateValue(op: ImmOp, x: u64, i: int, n6: nat, n5: nat)
    requires -TWO31 <= i < TWO31 && n6 == i % 64 && n5 == i % 32
    ensures RegResult(RegForm(op), x, Wrap64(i)) == Some(ImmValue(op, x, i, n6, n5))
  {
    if op in {SLLI, SRLI, SRAI} {
      ImmediateShift(op, x, i, n6, n5);
    } else if op in {ADDIW, SLLIW, SRLIW, SRAIW} {
      ImmediateWord(op, x, i, n6, n5);
    } else {
      ImmediateCompute(op, x, i, n6, n5);
    }
  }

  lemma ImmediateCompute(op: ImmOp, x: u64, i: int, n6: nat, n5: nat)
    requires -TWO31 <= i < TWO31 && op in {ADDI, SLTI, SLTIU, XORI, ORI, ANDI}
    ensures RegResult(RegForm(op), x, Wrap64(i)) == Some(ImmValue(op, x, i, n6, n5))
  {
    hide Pow2, And64, Or64, Xor64, Signed64, Wrap64;
    SignedOfWrap(i);
    WrapOfSum(x, i);
  }

  lemma WrapOfSum(x: u64, i: int)
    requires -TWO31 <= i < TWO31
    ensures Wrap64(x + Wrap64(i)) == Wrap64(x + i)
  {
    WrapShift64(x + i, if i < 0 then 1 else 0);
  }

  lemma ImmediateShift(op: ImmOp, x: u64, i: int, n6: nat, n5: nat)
    requires op in {SLLI, SRLI, SRAI} && n6 == i % 64
    ensures RegResult(RegForm(op), x, Wrap64(i)) == Some(ImmValue(op, x, i, n6, n5))
  {
    hide RegResult, Pow2, Wrap64, Signed64;
    LowOfWrap(i);
    ShiftArms(x, Wrap64(i));
  }

  lemma ImmediateWord(op: ImmOp, x: u64, i: int, n6: nat, n5: nat)
    requires op in {ADDIW, SLLIW, SRLIW, SRAIW} && n5 == i % 32
    ensures RegResult(RegForm(op), x, Wrap64(i)) == Some(ImmValue(op, x, i, n6, n5))
  {
    hide RegResult, ImmValue, Pow2, Wrap64, SextWord, Signed32, Wrap32;
    WordForms.Canonical(RegForm(op), x, Wrap64(i));
    WordForms.CanonicalImm(op, x, i, n6, n5);
    LowWordOfWrap(i);
    LowOfWrap(i);
    WordForms.ShiftAmount(Wrap64(i));
    WordForms.LowSum(Wrap32(x), i);
    LowTwice(x);
  }

  lemma LowTwice(x: int)
    ensures Wrap32(Wrap32(x)) == Wrap32(x)
  {
  }

  lemma LowOfWrap(i: int)
    ensures Wrap64(i) % 64 == i % 64 && Wrap64(i) % 32 == i % 32
  {
    LowOfSum(Wrap64(i), 0x1_0000_0000 * (i / 0x1_0000_0000_0000_0000));
  }

  // ---- the word forms ----

  lemma SextOfWrap(z: int)
    ensures SextWord(Wrap64(z)) == SextWord(z)
  {
    hide Wrap64;
    LowWordOfWrap(z);
  }

  /** ADDW, SUBW and MULW are the sign-extended low words of ADD, SUB and MUL. */
  lemma WordOfWide(x: u64, y: u64, s: u64, d: u64, p: u64)
    requires RegResult(ADD, x, y) == Some(s) && RegResult(SUB, x, y) == Some(d) && RegResult(MUL, x, y) == Some(p)
    ensures RegResult(ADDW, x, y) == Some(SextWord(s)) && RegResult(SUBW, x, y) == Some(SextWord(d))
    ensures RegResult(MULW, x, y) == Some(SextWord(p))
  {
    hide Wrap64, SextWord;
    SextOfWrap(x + y);
    SextOfWrap((x as int) - y);
  }
}
