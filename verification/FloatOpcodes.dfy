/** The floating-point opcode table (chapters 11, 12 and 24 of the RISC-V Unprivileged ISA,
    version 20191213) and its agreement with the nested switches of src/decode.c. */
module FloatOpcodes {
  import opened Words
  import opened Instruction
  import opened Decode
  import opened Assembler

  /** The selecting fields of an OP-FP instruction: the high six bits of funct7, and the values
      that rs2 and funct3 must have, where the operation fixes them. */
  datatype Row = Row(f7: bv7, rs2: Option<bv5>, f3: Option<bv3>)

  function KindCode(k: IntKind): bv5 { match k case W => 0 case WU => 1 case L => 2 case LU => 3 }

  function FpRow(k: FpOp): Option<Row> {
    match k
    case FADD(_) => Some(Row(0x00, None, None))
    case FSUB(_) => Some(Row(0x04, None, None))
    case FMUL(_) => Some(Row(0x08, None, None))
    case FDIV(_) => Some(Row(0x0c, None, None))
    case FSQRT(_) => Some(Row(0x2c, Some(0), None))
    case FSGNJ(_) => Some(Row(0x10, None, Some(0)))
    case FSGNJN(_) => Some(Row(0x10, None, Some(1)))
    case FSGNJX(_) => Some(Row(0x10, None, Some(2)))
    case FMIN(_) => Some(Row(0x14, None, Some(0)))
    case FMAX(_) => Some(Row(0x14, None, Some(1)))
    case FLE(_) => Some(Row(0x50, None, Some(0)))
    case FLT(_) => Some(Row(0x50, None, Some(1)))
    case FEQ(_) => Some(Row(0x50, None, Some(2)))
    case FCVT(m) => Some(Row(0x20, Some(if m.S? then 1 else 0), None))
    case FCVTX(i, _) => Some(Row(0x60, Some(KindCode(i)), None))
    case FCVTF(_, i) => Some(Row(0x68, Some(KindCode(i)), None))
    case FMVX(_) => Some(Row(0x70, Some(0), Some(0)))
    case FCLASS(_) => Some(Row(0x70, Some(0), Some(1)))
    case FMVF(_) => Some(Row(0x78, Some(0), Some(0)))
    case _ => None
  }

  predicate Selected(row: Row, b: bv7, f3: bv3, rs2: bv5) {
    b == row.f7 && (row.rs2.Some? ==> rs2 == row.rs2.value) && (row.f3.Some? ==> f3 == row.f3.value)
  }

  predicate IsArith(k: FpOp) {
    k.FADD? || k.FSUB? || k.FMUL? || k.FDIV? || k.FSGNJ? || k.FSGNJN? || k.FSGNJX? || k.FMIN? || k.FMAX?
  }

  lemma ArithRowDecodes(k: FpOp, b: bv7, f3: bv3, rs2: bv5)
    requires IsArith(k) && Selected(FpRow(k).value, b, f3, rs2)
    ensures FpGroup(b, k.fmt, f3, rs2) == Some(Fp(k))
  {
  }

  predicate IsConvert(k: FpOp) { k.FCVT? || k.FCVTX? || k.FCVTF? || k.FSQRT? }

  lemma ConvertRowDecodes(k: FpOp, b: bv7, f3: bv3, rs2: bv5)
    requires IsConvert(k) && Selected(FpRow(k).value, b, f3, rs2)
    ensures FpGroup(b, k.fmt, f3, rs2) == Some(Fp(k))
  {
  }

  lemma OtherRowDecodes(k: FpOp, b: bv7, f3: bv3, rs2: bv5)
    requires !IsArith(k) && !IsConvert(k) && FpRow(k).Some? && Selected(FpRow(k).value, b, f3, rs2)
    ensures FpGroup(b, k.fmt, f3, rs2) == Some(Fp(k))
  {
  }

  lemma RowDecodes(k: FpOp, b: bv7, f3: bv3, rs2: bv5)
    requires FpRow(k).Some? && Selected(FpRow(k).value, b, f3, rs2)
    ensures FpGroup(b, k.fmt, f3, rs2) == Some(Fp(k))
  {
    hide FpGroup, FpRow, Selected;
    if IsArith(k) {
      ArithRowDecodes(k, b, f3, rs2);
    } else if IsConvert(k) {
      ConvertRowDecodes(k, b, f3, rs2);
    } else {
      OtherRowDecodes(k, b, f3, rs2);
    }
  }

  lemma DecodedRow(k: FpOp, b: bv7, m: Fmt, f3: bv3, rs2: bv5)
    requires FpGroup(b, m, f3, rs2) == Some(Fp(k))
    ensures k.fmt == m && FpRow(k).Some? && Selected(FpRow(k).value, b, f3, rs2)
  {
  }

  /** The selector yields an operation exactly for the fields its row of the table selects and
      for its precision in the low bit of funct7. */
  lemma TableSelector(k: FpOp, f7: bv7, f3: bv3, rs2: bv5)
    ensures FpOpOf(f7, f3, rs2) == Some(Fp(k)) <==>
      && FpRow(k).Some? && Selected(FpRow(k).value, f7 & 0x7e, f3, rs2)
      && (f7 & 1 == 0 <==> k.fmt == S)
  {
    hide FpGroup, Selected, FpRow;
    var m := if f7 & 1 == 0 then S else D;
    if FpOpOf(f7, f3, rs2) == Some(Fp(k)) {
      DecodedRow(k, f7 & 0x7e, m, f3, rs2);
    }
    if FpRow(k).Some? && Selected(FpRow(k).value, f7 & 0x7e, f3, rs2) {
      RowDecodes(k, f7 & 0x7e, f3, rs2);
    }
  }

  /** The fused multiply-adds: an opcode each, the precision in funct2. */
  predicate IsFused(k: FpOp) { k.FMADD? || k.FMSUB? || k.FNMSUB? || k.FNMADD? }

  function FusedOpcode(k: FpOp): bv5 {
    if k.FMADD? then 0x10 else if k.FMSUB? then 0x11 else if k.FNMSUB? then 0x12 else 0x13
  }

  lemma FusedSelector(k: FpOp, o: bv5, f2: bv2)
    requires 0x10 <= o <= 0x13
    ensures FmaOpOf(o, f2) == Some(Fp(k)) <==>
      IsFused(k) && f2 == (if k.fmt.S? then 0 else 1) && o == FusedOpcode(k)
  {
    assert o == 0x10 || o == 0x11 || o == 0x12 || o == 0x13;
  }

  // ---- whole words ----

  /** The word is the OP-FP encoding of k: its row of the table is selected, and the low bit of
      funct7 is its precision. */
  predicate IsOpFp(k: FpOp, d: bv32) {
    && d & 3 == 3 && Opcode(d) == 0x14 && FpRow(k).Some?
    && Selected(FpRow(k).value, Funct7(d) & 0x7e, Funct3(d), Rs2(d))
    && (Funct7(d) & 1 == 0 <==> k.fmt == S)
  }

  predicate IsFusedWord(k: FpOp, d: bv32) {
    d & 3 == 3 && Opcode(d) == FusedOpcode(k) && Funct2(d) == (if k.fmt.S? then 0 else 1)
  }

  /** The operation of an accepted word, where it is a floating-point computation. */
  function FpOf(r: Option<Inst>): Option<FpOp> {
    if r.Some? && r.value.op.Fp? then Some(r.value.op.fp) else None
  }

  /** Every word decodes to a floating-point operation of the table if and only if it is the
      standard's encoding of it, and then its registers are in their standard places. */
  lemma TableExact(prev: Inst, d: bv32, k: FpOp)
    requires !IsFused(k)
    ensures FpOf(DecodeInst(prev, d)) == Some(k) <==> IsOpFp(k, d)
    ensures IsOpFp(k, d) ==> DecodeInst(prev, d) == Some(RecR(Fp(k), Rd(d), Rs1(d), Rs2(d)))
  {
    hide DecodeInst, FpOpOf, FmaOpOf, Opcode, Funct2, Funct3, Funct7, Rd, Rs1, Rs2, Selected, FpRow, IsFused, FpGroup;
    FpWords(prev, d);
    if d & 3 == 3 && Opcode(d) == 0x14 {
      TableSelector(k, Funct7(d), Funct3(d), Rs2(d));
      FpOpcodes(Opcode(d), Funct2(d), Funct3(d), Funct7(d), Rs2(d));
    } else if d & 3 == 3 && 0x10 <= Opcode(d) <= 0x13 {
      FusedSelector(k, Opcode(d), Funct2(d));
      FpOpcodes(Opcode(d), Funct2(d), Funct3(d), Funct7(d), Rs2(d));
    }
  }

  /** The same for the fused multiply-adds, which have a third source. */
  lemma FusedExact(prev: Inst, d: bv32, k: FpOp)
    requires IsFused(k)
    ensures FpOf(DecodeInst(prev, d)) == Some(k) <==> IsFusedWord(k, d)
    ensures IsFusedWord(k, d) ==>
      DecodeInst(prev, d) == Some(Inst(Rd(d), Rs1(d), Rs2(d), Rs3(d), 0, 0, Fp(k), false, false))
  {
    hide DecodeInst, FpOpOf, FmaOpOf, Opcode, Funct2, Funct3, Funct7, Rd, Rs1, Rs2, Rs3, Selected, FpGroup;
    FpWords(prev, d);
    if d & 3 == 3 && 0x10 <= Opcode(d) <= 0x13 {
      FusedSelector(k, Opcode(d), Funct2(d));
    } else if d & 3 == 3 && Opcode(d) == 0x14 {
      TableSelector(k, Funct7(d), Funct3(d), Rs2(d));
    }
  }

  /** Which words can decode to a floating-point operation. */
  lemma FpWords(prev: Inst, d: bv32)
    ensures var r := DecodeInst(prev, d);
      if d & 3 == 3 && Opcode(d) == 0x14 then r == WithOp(RType(d), FpOpOf(Funct7(d), Funct3(d), Rs2(d)))
      else if d & 3 == 3 && 0x10 <= Opcode(d) <= 0x13 then r == WithOp(FprType(d), FmaOpOf(Opcode(d), Funct2(d)))
      else FpOf(r) == None
  {
    hide DecodeMajor, FpOf, WithOp, RType, FprType, Opcode, Funct2, Funct3, Funct7, Rs2, FpOpOf, FmaOpOf,
         DecodeQ0, DecodeQ1, DecodeQ2;
    CompressedNotFp(d);
    MajorFp(prev, d, Opcode(d), Funct3(d), Funct7(d));
  }

  lemma MajorFp(prev: Inst, d: bv32, o: bv5, f3: bv3, f7: bv7)
    ensures var r := DecodeMajor(prev, d, o, f3, f7);
      if o == 0x14 then r == WithOp(RType(d), FpOpOf(f7, f3, Rs2(d)))
      else if 0x10 <= o <= 0x13 then r == WithOp(FprType(d), FmaOpOf(o, Funct2(d)))
      else FpOf(r) == None
  {
    hide RType, IType, SType, BType, UType, JType, FprType, CsrType, Imm116, Funct2, Rs2, FpOpOf, FmaOpOf,
         LoadOpOf, ImmOpOf, ImmWordOpOf, StoreOpOf, RegOpOf, RegWordOpOf, BranchOpOf, CsrOpOf;
    SelectorsNotFp(f3, f7, Imm116(d));
    RegSelectorsNotFp(f3, f7);
  }

  predicate NotFp(k: Option<Op>) { k.None? || !k.value.Fp? }

  lemma SelectorsNotFp(f3: bv3, f7: bv7, imm116: bv6)
    ensures NotFp(LoadOpOf(f3)) && NotFp(StoreOpOf(f3)) && NotFp(BranchOpOf(f3)) && NotFp(CsrOpOf(f3))
    ensures NotFp(ImmOpOf(f3, imm116)) && NotFp(ImmWordOpOf(f3, f7))
  {
  }

  lemma RegSelectorsNotFp(f3: bv3, f7: bv7)
    ensures NotFp(RegOpOf(f3, f7)) && NotFp(RegWordOpOf(f3, f7))
  {
  }

  lemma CompressedNotFp(d: bv32)
    ensures FpOf(DecodeQ0(d)) == None && FpOf(DecodeQ1(d)) == None && FpOf(DecodeQ2(d)) == None
  {
    hide COpcode, CFunct1, CFunct2Low, CFunct2High, Rp1, Rp2, Rc1, Rc2, CIImm, CIImm2, CIImm3, CIImm4, CIImm5,
         CBImm, CSImm, CSImm2, CJImm, CSSImm, CSSImm2, CIWImm;
  }
}
