/** The W-form handlers (src/interp.c) compute a 32-bit operation and sign-extend it. */
module WordForms {
  import opened Words
  import opened Instruction
  import opened Alu

  /** The add, subtract, shift and multiply operations on 32-bit words. */
  function Op32(op: RegOp, a: u32, b: u32): u32
    requires op in {ADDW, SUBW, SLLW, SRLW, SRAW, MULW}
  {
    match op
    case ADDW => Wrap32(a + b)
    case SUBW => Wrap32((a as int) - b)
    case SLLW => Wrap32(a * Pow2(b % 32))
    case SRLW => Wrap32(ShiftRight(a, b % 32))
    case SRAW => Wrap32(ShiftRight(Signed32(a), b % 32))
    case _ => Wrap32(a * b)
  }

  /** The register-immediate W forms on 32-bit words. */
  function ImmOp32(op: ImmOp, a: u32, i: int, shamt: nat): u32
    requires op in {ADDIW, SLLIW, SRLIW, SRAIW}
  {
    match op
    case ADDIW => Wrap32(a + i)
    case SLLIW => Wrap32(a * Pow2(shamt))
    case SRLIW => Wrap32(ShiftRight(a, shamt))
    case _ => Wrap32(ShiftRight(Signed32(a), shamt))
  }

  lemma LowFactor(q: int, r: int, b: int)
    ensures Wrap32((q * 0x1_0000_0000 + r) * b) == Wrap32(r * b)
  {
    WrapShift32(r * b, q * b);
    assert (q * 0x1_0000_0000 + r) * b == r * b + (q * b) * 0x1_0000_0000;
  }

  /** Congruence modulo 2^32 is kept by a product. */
  lemma LowProduct(a: int, b: int)
    ensures Wrap32(a * b) == Wrap32(Wrap32(a) * b)
  {
    LowFactor(a / 0x1_0000_0000, a % 0x1_0000_0000, b);
  }

  lemma LowSum(a: int, b: int)
    ensures Wrap32(a + b) == Wrap32(Wrap32(a) + Wrap32(b))
    ensures Wrap32(a + b) == Wrap32(Wrap32(a) + b)
    ensures Wrap32(a - b) == Wrap32(Wrap32(a) - Wrap32(b))
  {
    var qa, qb := a / 0x1_0000_0000, b / 0x1_0000_0000;
    var ra, rb := a % 0x1_0000_0000, b % 0x1_0000_0000;
    WrapShift32(ra + rb, qa + qb);
    WrapShift32(ra + b, qa);
    WrapShift32(ra - rb, qa - qb);
  }

  /** The shift amount is in the low word. */
  lemma ShiftAmount(b: u64)
    ensures Wrap32(b) % 32 == b % 32
  {
    var q, r := b / 0x1_0000_0000, b % 0x1_0000_0000;
    assert b == 32 * (0x800_0000 * q) + r;
  }

  /** An arithmetic shift of a 32-bit value stays in 32 signed bits. */
  lemma ShiftInRange(x: int, k: nat)
    requires -TWO31 <= x < TWO31
    ensures -TWO31 <= x / Pow2(k) < TWO31
  {
    var p: int := Pow2(k);
    var q := x / p;
    assert x == p * q + x % p && p * q == -(p * (-q - 1)) - p;
    if q >= 0x8000_0000 {
      Grow(p, q);
    } else if q < -0x8000_0000 {
      Grow(p, -q - 1);
    }
  }

  lemma Grow(p: int, q: int)
    requires p >= 1 && q >= 0
    ensures p * q >= q
  {
  }

  /** A 64-bit product, truncated to a word, only needs the low word of its first factor. */
  lemma TruncatedProduct(a: int, p: int)
    ensures SextWord(Wrap64(a * p)) == SextWord(Wrap32(Wrap32(a) * p))
  {
    LowProduct(a, p);
    LowWordOfWrap(a * p);
    SextWordLow(Wrap64(a * p));
  }

  lemma TruncatedSum(a: int, b: int)
    ensures SextWord(a + b) == SextWord(Wrap32(Wrap32(a) + b))
  {
    LowSum(a, b);
    SextWordLow(a + b);
  }

  lemma TruncatedPair(a: int, b: int)
    ensures SextWord(a + b) == SextWord(Wrap32(Wrap32(a) + Wrap32(b)))
    ensures SextWord(a - b) == SextWord(Wrap32(Wrap32(a) - Wrap32(b)))
  {
    LowSum(a, b);
    SextWordLow(a + b);
    SextWordLow(a - b);
  }

  /** Every W handler returns the sign-extended 32-bit operation on the low words, for all
      64-bit operands. */
  lemma Canonical(op: RegOp, a: u64, b: u64)
    requires op in {ADDW, SUBW, SLLW, SRLW, SRAW, MULW}
    ensures RegResult(op, a, b) == Some(SextWord(Op32(op, Wrap32(a), Wrap32(b))))
  {
    var lo1, lo2 := Wrap32(a), Wrap32(b);
    ShiftAmount(b);
    match op {
      case ADDW => TruncatedPair(a, b);
      case SUBW => TruncatedPair(a, b);
      case SLLW => TruncatedProduct(a, Pow2(b % 32));
      case SRLW => SextWordLow(ShiftRight(lo1, b % 32));
      case SRAW => SextWordLow(ShiftRight(Signed32(lo1), b % 32));
      case MULW => TruncatedProduct(a, b); LowProduct(b, lo1);
    }
  }

  lemma CanonicalImm(op: ImmOp, a: u64, i: int, shamt6: nat, shamt5: nat)
    requires op in {ADDIW, SLLIW, SRLIW, SRAIW}
    ensures ImmValue(op, a, i, shamt6, shamt5) == SextWord(ImmOp32(op, Wrap32(a), i, shamt5))
  {
    var lo := Wrap32(a);
    match op {
      case ADDIW => TruncatedSum(a, i);
      case SLLIW => TruncatedProduct(a, Pow2(shamt5));
      case SRLIW => SextWordLow(ShiftRight(lo, shamt5));
      case SRAIW => ShiftedWord(Signed32(lo), shamt5);   // extends without truncating first
    }
  }

  lemma ShiftedWord(x: int, k: nat)
    requires -TWO31 <= x < TWO31
    ensures Wrap64(ShiftRight(x, k)) == SextWord(Wrap32(ShiftRight(x, k)))
  {
    ShiftInRange(x, k);
    SextInRange(x / Pow2(k));
    SextWordLow(x / Pow2(k));
  }

  lemma SextInRange(x: int)
    requires -TWO31 <= x < TWO31
    ensures SextWord(x) == Wrap64(x)
  {
  }

  /** A computation built from W instructions. */
  datatype WordTree = Leaf(value: u64) | Node(op: RegOp, left: WordTree, right: WordTree)

  predicate AllWordOps(t: WordTree) {
    t.Leaf? || (t.op in {ADDW, SUBW, SLLW, SRLW, SRAW, MULW} && AllWordOps(t.left) && AllWordOps(t.right))
  }

  /** As the handlers compute it: 64-bit registers, sign extension after every operation. */
  function Eval64(t: WordTree): u64
    requires AllWordOps(t)
  {
    match t
    case Leaf(v) => v
    case Node(op, l, r) =>
      var v := RegResult(op, Eval64(l), Eval64(r));
      if v.Some? then v.value else 0
  }

  /** As a 32-bit machine computes it: truncate the leaves once, then stay in 32 bits. */
  function Eval32(t: WordTree): u32
    requires AllWordOps(t)
  {
    match t
    case Leaf(v) => Wrap32(v)
    case Node(op, l, r) => Op32(op, Eval32(l), Eval32(r))
  }

  /** Chaining W instructions in any shape computes the 32-bit value; every inner node holds
      its canonical sign extension. */
  lemma {:induction false} ChainedWords(t: WordTree)
    requires AllWordOps(t)
    ensures Wrap32(Eval64(t)) == Eval32(t)
    ensures t.Node? ==> Eval64(t) == SextWord(Eval32(t))
  {
    match t
    case Leaf(_) =>
    case Node(op, l, r) =>
      ChainedWords(l);
      ChainedWords(r);
      Canonical(op, Eval64(l), Eval64(r));
      SextWordLow(Eval32(t));
  }
}
