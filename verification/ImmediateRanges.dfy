/** The numeric ranges of immediates: what the layouts of src/decode.c can produce, read as an
    `int32_t`. */
module ImmediateRanges {
  import opened Words
  import opened Instruction
  import opened Alu
  import opened BitPatterns
  import opened Decode
  import opened Assembler
  import opened Compressed
  import FloatOpcodes
  import FenceOpcodes
  import ExpansionTheorem
  import Runs

  // ---- sign-extended fields ----

  lemma Extend6(imm: bv32)
    ensures imm & 0x20 == 0 ==> (SignExtend(imm, 26) == imm <==> imm & 0xffff_ffe0 == 0)
    ensures imm & 0x20 != 0 ==> (SignExtend(imm, 26) == imm <==> imm & 0xffff_ffe0 == 0xffff_ffe0)
  {
  }

  /** Layout CI, and the shifts and C.ANDI. */
  lemma Range6(imm: bv32)
    ensures SignExtend(imm, 26) == imm <==> -0x20 <= Simm(imm) < 0x20
  {
    hide SignExtend, Simm;
    Extend6(imm);
    Cut5(imm);
  }

  lemma Extend9(imm: bv32)
    ensures imm & 0x100 == 0 ==> (SignExtend(imm, 23) == imm <==> imm & 0xffff_ff00 == 0)
    ensures imm & 0x100 != 0 ==> (SignExtend(imm, 23) == imm <==> imm & 0xffff_ff00 == 0xffff_ff00)
  {
  }

  /** Layout CB. */
  lemma Range9(imm: bv32)
    ensures SignExtend(imm, 23) == imm <==> -0x100 <= Simm(imm) < 0x100
  {
    hide SignExtend, Simm;
    Extend9(imm);
    Cut8(imm);
  }

  lemma Extend10(imm: bv32)
    ensures imm & 0x200 == 0 ==> (SignExtend(imm, 22) == imm <==> imm & 0xffff_fe00 == 0)
    ensures imm & 0x200 != 0 ==> (SignExtend(imm, 22) == imm <==> imm & 0xffff_fe00 == 0xffff_fe00)
  {
  }

  /** Layout CI for C.ADDI16SP. */
  lemma Range10(imm: bv32)
    ensures SignExtend(imm, 22) == imm <==> -0x200 <= Simm(imm) < 0x200
  {
    hide SignExtend, Simm;
    Extend10(imm);
    Cut9(imm);
  }

  lemma Extend12(imm: bv32)
    ensures imm & 0x800 == 0 ==> (SignExtend(imm, 20) == imm <==> imm & 0xffff_f800 == 0)
    ensures imm & 0x800 != 0 ==> (SignExtend(imm, 20) == imm <==> imm & 0xffff_f800 == 0xffff_f800)
  {
  }

  /** Layout I, S and CJ. */
  lemma Range12(imm: bv32)
    ensures SignExtend(imm, 20) == imm <==> -0x800 <= Simm(imm) < 0x800
  {
    hide SignExtend, Simm;
    Extend12(imm);
    Cut11(imm);
  }

  lemma Extend13(imm: bv32)
    ensures imm & 0x1000 == 0 ==> (SignExtend(imm, 19) == imm <==> imm & 0xffff_f000 == 0)
    ensures imm & 0x1000 != 0 ==> (SignExtend(imm, 19) == imm <==> imm & 0xffff_f000 == 0xffff_f000)
  {
  }

  /** Layout B. */
  lemma Range13(imm: bv32)
    ensures SignExtend(imm, 19) == imm <==> -0x1000 <= Simm(imm) < 0x1000
  {
    hide SignExtend, Simm;
    Extend13(imm);
    Cut12(imm);
  }

  lemma Extend18(imm: bv32)
    ensures imm & 0x2_0000 == 0 ==> (SignExtend(imm, 14) == imm <==> imm & 0xfffe_0000 == 0)
    ensures imm & 0x2_0000 != 0 ==> (SignExtend(imm, 14) == imm <==> imm & 0xfffe_0000 == 0xfffe_0000)
  {
  }

  /** Layout CI for C.LUI. */
  lemma Range18(imm: bv32)
    ensures SignExtend(imm, 14) == imm <==> -0x2_0000 <= Simm(imm) < 0x2_0000
  {
    hide SignExtend, Simm;
    Extend18(imm);
    Cut17(imm);
  }

  lemma Extend21(imm: bv32)
    ensures imm & 0x10_0000 == 0 ==> (SignExtend(imm, 11) == imm <==> imm & 0xfff0_0000 == 0)
    ensures imm & 0x10_0000 != 0 ==> (SignExtend(imm, 11) == imm <==> imm & 0xfff0_0000 == 0xfff0_0000)
  {
  }

  /** Layout J. */
  lemma Range21(imm: bv32)
    ensures SignExtend(imm, 11) == imm <==> -0x10_0000 <= Simm(imm) < 0x10_0000
  {
    hide SignExtend, Simm;
    Extend21(imm);
    Cut20(imm);
  }

  // ---- unsigned scaled fields ----

  lemma Scaled3fc(imm: bv32)
    ensures FitsMask(imm, 0x3fc) <==> 0 <= Simm(imm) < 0x400 && Simm(imm) % 4 == 0
  {
    hide Simm;
    Cut10(imm);
    Multiple2(imm);
    assert FitsMask(imm, 0x3fc) <==> imm & 0xffff_fc00 == 0 && imm & 0x3 == 0;
  }

  lemma Scaledf8(imm: bv32)
    ensures FitsMask(imm, 0xf8) <==> 0 <= Simm(imm) < 0x100 && Simm(imm) % 8 == 0
  {
    hide Simm;
    Cut8(imm);
    Multiple3(imm);
    assert FitsMask(imm, 0xf8) <==> imm & 0xffff_ff00 == 0 && imm & 0x7 == 0;
  }

  lemma Scaled7c(imm: bv32)
    ensures FitsMask(imm, 0x7c) <==> 0 <= Simm(imm) < 0x80 && Simm(imm) % 4 == 0
  {
    hide Simm;
    Cut7(imm);
    Multiple2(imm);
    assert FitsMask(imm, 0x7c) <==> imm & 0xffff_ff80 == 0 && imm & 0x3 == 0;
  }

  lemma Scaled1f8(imm: bv32)
    ensures FitsMask(imm, 0x1f8) <==> 0 <= Simm(imm) < 0x200 && Simm(imm) % 8 == 0
  {
    hide Simm;
    Cut9(imm);
    Multiple3(imm);
    assert FitsMask(imm, 0x1f8) <==> imm & 0xffff_fe00 == 0 && imm & 0x7 == 0;
  }

  lemma Scaledfc(imm: bv32)
    ensures FitsMask(imm, 0xfc) <==> 0 <= Simm(imm) < 0x100 && Simm(imm) % 4 == 0
  {
    hide Simm;
    Cut8(imm);
    Multiple2(imm);
    assert FitsMask(imm, 0xfc) <==> imm & 0xffff_ff00 == 0 && imm & 0x3 == 0;
  }

  // ---- 32-bit words ----

  predicate Signed12(v: int) { -0x800 <= v < 0x800 }
  predicate Signed13(v: int) { -0x1000 <= v < 0x1000 && v % 2 == 0 }
  predicate Signed21(v: int) { -0x10_0000 <= v < 0x10_0000 && v % 2 == 0 }
  predicate Upper20(v: int) { v % 0x1000 == 0 }

  /** Shift immediates are the amount, and for the arithmetic shifts 2^10 above it. */
  predicate AluRange(k: ImmOp, v: int) {
    match k
    case SLLI => 0 <= v < 64
    case SRLI => 0 <= v < 64
    case SRAI => 0x400 <= v < 0x440
    case SLLIW => 0 <= v < 32
    case SRLIW => 0 <= v < 32
    case SRAIW => 0x400 <= v < 0x420
    case _ => Signed12(v)
  }

  /** The range and granularity of the immediate of every operation. ECALL alone keeps the field of
      the reused record. */
  predicate BaseRange(op: Op, v: int) {
    match op
    case Load(_) => Signed12(v)
    case Flw => Signed12(v)
    case Fld => Signed12(v)
    case Jalr => Signed12(v)
    case Store(_) => Signed12(v)
    case Fsw => Signed12(v)
    case Fsd => Signed12(v)
    case Imm(k) => AluRange(k, v)
    case Branch(_) => Signed13(v)
    case Jal => Signed21(v)
    case Lui => Upper20(v)
    case Auipc => Upper20(v)
    case Ecall => true
    case _ => v == 0
  }

  /** The conditions of the standard's layouts are these ranges. */
  lemma Reaches(imm: bv32)
    ensures Imm12(imm) <==> Signed12(Simm(imm))
    ensures Imm13(imm) <==> Signed13(Simm(imm))
    ensures Imm21(imm) <==> Signed21(Simm(imm))
    ensures Imm32(imm) <==> Upper20(Simm(imm))
  {
    hide SignExtend, Simm;
    Range12(imm);
    Range13(imm);
    Range21(imm);
    Multiple1(imm);
    Multiple12(imm);
  }

  lemma AluReaches(k: ImmOp, imm: bv32)
    ensures ImmOk(k, imm) <==> AluRange(k, Simm(imm))
  {
    hide SignExtend, Simm, Imm12, Imm13, Imm21, Imm32, Signed12, Signed13, Signed21, Upper20;
    Reaches(imm);
    Cut5(imm);
    Cut6(imm);
    Arithmetic5(imm);
    Arithmetic6(imm);
  }

  lemma WellFormedInRange(i: Inst)
    requires WellFormed(i)
    ensures BaseRange(i.op, Simm(i.imm))
  {
    hide Simm, ImmOk, AluRange, Imm12, Imm13, Imm21, Imm32, Signed12, Signed13, Signed21, Upper20;
    Reaches(i.imm);
    if i.op.Imm? {
      AluReaches(i.op.alu, i.imm);
    }
    ZeroValue();
  }

  lemma ZeroValue()
    ensures Simm(0) == 0
  {
  }

  /** Fences and floating-point computation have no immediate. */
  lemma NoImmediate(prev: Inst, d: bv32, i: Inst)
    requires d & 3 == 3 && DecodeInst(prev, d) == Some(i) && (i.op.Fp? || i.op.Fence? || i.op.FenceI?)
    ensures i.imm == 0
  {
    hide DecodeInst, FpOpOf, FmaOpOf, Opcode, Funct2, Funct3, Funct7, Rd, Rs1, Rs2, Rs3, DecodeMajor;
    if i.op.Fp? {
      FloatOpcodes.FpWords(prev, d);
    } else {
      FenceOpcodes.FenceWords(prev, d);
    }
  }

  /** Every accepted 32-bit word has its immediate in the range of its operation. */
  lemma DecodedInRange(prev: Inst, d: bv32, i: Inst)
    requires d & 3 == 3 && DecodeInst(prev, d) == Some(i)
    ensures BaseRange(i.op, Simm(i.imm))
  {
    hide DecodeInst, Encode, Opcode, Funct3, WellFormed, Simm;
    if i.op.Fp? || i.op.Fence? || i.op.FenceI? {
      NoImmediate(prev, d, i);
      ZeroValue();
    } else if !i.op.Ecall? {
      if d == 0x73 { Runs.EcallWord(prev); }
      DecodeThenEncode(prev, d, i);
      WellFormedInRange(i);
    }
  }

  // ---- compressed words ----

  /** The range and granularity of the decoded immediate of every compressed form; a shift amount
      is decoded as six signed bits, of which execution reads the low six. */
  predicate FormRange(c: Form, v: int) {
    match c
    case C_ADDI4SPN => 0 < v < 0x400 && v % 4 == 0
    case C_FLD => 0 <= v < 0x100 && v % 8 == 0
    case C_LD => 0 <= v < 0x100 && v % 8 == 0
    case C_FSD => 0 <= v < 0x100 && v % 8 == 0
    case C_SD => 0 <= v < 0x100 && v % 8 == 0
    case C_LW => 0 <= v < 0x80 && v % 4 == 0
    case C_SW => 0 <= v < 0x80 && v % 4 == 0
    case C_ADDI => -0x20 <= v < 0x20
    case C_ADDIW => -0x20 <= v < 0x20
    case C_LI => -0x20 <= v < 0x20
    case C_ANDI => -0x20 <= v < 0x20
    case C_SRLI => -0x20 <= v < 0x20
    case C_SRAI => -0x20 <= v < 0x20
    case C_SLLI => -0x20 <= v < 0x20
    case C_ADDI16SP => -0x200 <= v < 0x200 && v % 16 == 0 && v != 0
    case C_LUI => -0x2_0000 <= v < 0x2_0000 && v % 0x1000 == 0 && v != 0
    case C_J => -0x800 <= v < 0x800 && v % 2 == 0
    case C_BEQZ => -0x100 <= v < 0x100 && v % 2 == 0
    case C_BNEZ => -0x100 <= v < 0x100 && v % 2 == 0
    case C_FLDSP => 0 <= v < 0x200 && v % 8 == 0
    case C_LDSP => 0 <= v < 0x200 && v % 8 == 0
    case C_FSDSP => 0 <= v < 0x200 && v % 8 == 0
    case C_SDSP => 0 <= v < 0x200 && v % 8 == 0
    case C_LWSP => 0 <= v < 0x100 && v % 4 == 0
    case C_SWSP => 0 <= v < 0x100 && v % 4 == 0
    case _ => v == 0
  }

  lemma NonzeroValue(imm: bv32)
    ensures imm == 0 <==> Simm(imm) == 0
  {
    hide Simm;
    Multiple12(imm);
    Cut12(imm);
    ZeroValue();
  }

  lemma MemoryFormRange(c: Form, i: Inst)
    requires Fits(c, i) && c in {C_FLD, C_LW, C_LD, C_FSD, C_SW, C_SD}
    ensures FormRange(c, Simm(i.imm)) && !IsShiftImm(i.op)
  {
    hide FitsMask, Popular, Simm;
    Scaledf8(i.imm);
    Scaled7c(i.imm);
  }

  lemma StackFormRange(c: Form, i: Inst)
    requires Fits(c, i) && c in {C_FLDSP, C_LWSP, C_LDSP, C_FSDSP, C_SWSP, C_SDSP}
    ensures FormRange(c, Simm(i.imm)) && !IsShiftImm(i.op)
  {
    hide FitsMask, Popular, Simm;
    Scaled1f8(i.imm);
    Scaledfc(i.imm);
  }

  lemma ImmFormRange(c: Form, i: Inst)
    requires Fits(c, i) && c in {C_ADDI4SPN, C_ADDI, C_ADDIW, C_LI, C_ANDI}
    ensures FormRange(c, Simm(i.imm)) && !IsShiftImm(i.op)
  {
    hide FitsMask, SignExtend, Popular, Simm;
    Scaled3fc(i.imm);
    Range6(i.imm);
    NonzeroValue(i.imm);
  }

  lemma UpperFormRange(c: Form, i: Inst)
    requires Fits(c, i) && c in {C_ADDI16SP, C_LUI}
    ensures FormRange(c, Simm(i.imm)) && !IsShiftImm(i.op)
  {
    hide FitsMask, SignExtend, Popular, Simm;
    Range10(i.imm);
    Multiple4(i.imm);
    Range18(i.imm);
    Multiple12(i.imm);
    NonzeroValue(i.imm);
  }

  lemma JumpFormRange(c: Form, i: Inst)
    requires Fits(c, i) && c in {C_J, C_BEQZ, C_BNEZ}
    ensures FormRange(c, Simm(i.imm)) && !IsShiftImm(i.op)
  {
    hide FitsMask, SignExtend, Popular, Simm;
    Range12(i.imm);
    Range9(i.imm);
    Multiple1(i.imm);
  }

  lemma ShiftFormRange(c: Form, i: Inst)
    requires Fits(c, i) && c in {C_SRLI, C_SRAI, C_SLLI}
    ensures IsShiftImm(i.op) && FormRange(c, Simm(SignExtend(i.imm, 26)))
  {
    hide FitsMask, SignExtend, Popular, Simm;
    SignExtendTwice6(i.imm);
    Range6(SignExtend(i.imm, 26));
  }

  lemma RegFormRange(c: Form, i: Inst)
    requires Fits(c, i) && c in {C_SUB, C_XOR, C_OR, C_AND, C_SUBW, C_ADDW}
    ensures FormRange(c, Simm(i.imm)) && !IsShiftImm(i.op)
  {
    hide Popular, Simm;
    ZeroValue();
  }

  lemma MoveFormRange(c: Form, i: Inst)
    requires Fits(c, i) && c in {C_MV, C_ADD, C_JR, C_JALR}
    ensures FormRange(c, Simm(i.imm)) && !IsShiftImm(i.op)
  {
    hide Popular, Simm;
    ZeroValue();
  }

  lemma FormsInRange(c: Form, i: Inst)
    requires Fits(c, i)
    ensures FormRange(c, Simm(Decoded(i).imm))
  {
    hide Fits, FormRange, Simm, IsShiftImm, SignExtend;
    if c in {C_SRLI, C_SRAI, C_SLLI} {
      ShiftFormRange(c, i);
    } else if c in {C_FLD, C_LW, C_LD, C_FSD, C_SW, C_SD} {
      MemoryFormRange(c, i);
    } else if c in {C_FLDSP, C_LWSP, C_LDSP, C_FSDSP, C_SWSP, C_SDSP} {
      StackFormRange(c, i);
    } else if c in {C_ADDI4SPN, C_ADDI, C_ADDIW, C_LI, C_ANDI} {
      ImmFormRange(c, i);
    } else if c in {C_ADDI16SP, C_LUI} {
      UpperFormRange(c, i);
    } else if c in {C_J, C_BEQZ, C_BNEZ} {
      JumpFormRange(c, i);
    } else if c in {C_SUB, C_XOR, C_OR, C_AND, C_SUBW, C_ADDW} {
      RegFormRange(c, i);
    } else {
      MoveFormRange(c, i);
    }
  }

  /** Every accepted compressed word is one of the listed forms and has its immediate in the range
      of that form. */
  lemma CompressedInRange(prev: Inst, d: bv32, j: Inst) returns (c: Form)
    requires d & 3 != 3 && DecodeInst(prev, d) == Some(j)
    ensures Fits(c, Expansion(j)) && Assemble(c, Expansion(j)) == d & 0xffff
    ensures FormRange(c, Simm(j.imm))
  {
    hide DecodeInst, Fits, Assemble, Expansion, Decoded, FormRange, Simm;
    c := ExpansionTheorem.DecodeThenAssemble(prev, d, j);
    FormsInRange(c, Expansion(j));
  }
}
