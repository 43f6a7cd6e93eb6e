/** A compressed instruction means what its 32-bit expansion means. */
module ExpansionTheorem {
  import opened Words
  import opened Instruction
  import opened Alu
  import opened Decode
  import opened Assembler
  import opened Memory
  import opened Isa
  import opened Compressed
  import Locality

  lemma FormQuadrants(w: bv16)
    ensures var h := w as bv32; (h & 3 == 0 <==> w & 3 == 0) && (h & 3 == 1 <==> w & 3 == 1) && (h & 3 == 2 <==> w & 3 == 2)
    ensures w & 3 == 0 || w & 3 == 1 || w & 3 == 2 || w & 3 == 3
    ensures (w as bv32) & 3 == 3 <==> w & 3 == 3
  {
  }

  lemma CoverHalf(prev: Inst, w: bv16, j: Inst)
    requires (w as bv32) & 3 != 3 && DecodeInst(prev, w as bv32) == Some(j)
    ensures Covers(FormOf(w as bv32), w as bv32, j)
  {
    hide DecodeInst, DecodeQ0, DecodeQ1, DecodeQ2, FormQ0, FormQ1, FormQ2, Covers, COpcode;
    FormQuadrants(w);
    if w & 3 == 0 {
      Quadrant0(prev, w as bv32);
      CoverQ0(w, j);
    } else if w & 3 == 1 {
      Quadrant1(prev, w as bv32);
      CoverQ1(w, j);
    } else {
      Quadrant2(prev, w as bv32);
      CoverQ2(w, j);
    }
  }

  lemma HalfBits(d: bv32)
    ensures ((d & 0xffff) as bv16) as bv32 == d & 0xffff
    ensures (d & 0xffff) & 3 == d & 3 && (d & 0xffff) & 0xffff == d & 0xffff
  {
  }

  lemma HalfDecodes(prev: Inst, d: bv32)
    requires d & 3 != 3
    ensures (d & 0xffff) & 3 != 3 && DecodeInst(prev, d & 0xffff) == DecodeInst(prev, d)
  {
    hide DecodeInst;
    HalfBits(d);
    Locality.DecodeIsLocal(prev, prev, d, d & 0xffff);
  }

  /** Every accepted word whose low bits are not 3 is, in its low halfword, one of the listed
      forms of the instruction it decodes to: the decoder accepts no reserved encoding, and
      assembling the decoded instruction gives the same sixteen bits back. */
  lemma DecodeThenAssemble(prev: Inst, d: bv32, j: Inst) returns (c: Form)
    requires d & 3 != 3 && DecodeInst(prev, d) == Some(j)
    ensures Fits(c, Expansion(j)) && Assemble(c, Expansion(j)) == d & 0xffff && Decoded(Expansion(j)) == j
  {
    hide DecodeInst, Fits, Assemble, Expansion, Decoded, FormOf;
    HalfDecodes(prev, d);
    HalfBits(d);
    var w := (d & 0xffff) as bv16;
    CoverHalf(prev, w, j);
    c := FormOf(w as bv32);
  }

  // ---- the expansion is a well-formed 32-bit instruction ----

  lemma MaskedImmediates(imm: bv32, mask: bv32)
    requires mask & 0x7ff == mask && FitsMask(imm, mask)
    ensures Imm12(imm)
  {
  }

  lemma NarrowCI(imm: bv32)
    requires SignExtend(imm, 26) == imm
    ensures SignExtend(imm, 20) == imm
  {
  }

  lemma NarrowCI16(imm: bv32)
    requires SignExtend(imm, 22) == imm
    ensures SignExtend(imm, 20) == imm
  {
  }

  lemma NarrowCB(imm: bv32)
    requires SignExtend(imm, 23) == imm
    ensures SignExtend(imm, 19) == imm
  {
  }

  lemma NarrowCJ(imm: bv32)
    requires SignExtend(imm, 20) == imm
    ensures SignExtend(imm, 11) == imm
  {
  }

  lemma ShiftImmediates(imm: bv32)
    ensures FitsMask(imm, 0x3f) ==> ImmOk(SLLI, imm) && ImmOk(SRLI, imm)
    ensures imm & 0xffff_ffc0 == 0x400 ==> ImmOk(SRAI, imm)
  {
  }

  lemma MemoryFormsWellFormed(c: Form, i: Inst)
    requires Fits(c, i) && c in {C_FLD, C_LW, C_LD, C_FSD, C_SW, C_SD}
    ensures WellFormed(i)
  {
    hide FitsMask, Imm12, Popular;
    if c == C_LW || c == C_SW {
      MaskedImmediates(i.imm, 0x7c);
    } else {
      MaskedImmediates(i.imm, 0xf8);
    }
  }

  lemma StackLoadsWellFormed(c: Form, i: Inst)
    requires Fits(c, i) && c in {C_FLDSP, C_LWSP, C_LDSP}
    ensures WellFormed(i)
  {
    hide FitsMask, Imm12, Popular;
    MaskedImmediates(i.imm, if c == C_LWSP then 0xfc else 0x1f8);
  }

  lemma StackStoresWellFormed(c: Form, i: Inst)
    requires Fits(c, i) && c in {C_FSDSP, C_SWSP, C_SDSP}
    ensures WellFormed(i)
  {
    hide FitsMask, Imm12, Popular;
    MaskedImmediates(i.imm, if c == C_SWSP then 0xfc else 0x1f8);
  }

  lemma ImmFormsWellFormed(c: Form, i: Inst)
    requires Fits(c, i) && c in {C_ADDI4SPN, C_ADDI, C_ADDIW, C_LI, C_ADDI16SP, C_ANDI}
    ensures WellFormed(i)
  {
    hide FitsMask, SignExtend, Popular;
    if c == C_ADDI4SPN {
      MaskedImmediates(i.imm, 0x3fc);
    } else if c == C_ADDI16SP {
      NarrowCI16(i.imm);
    } else {
      NarrowCI(i.imm);
    }
  }

  lemma ShiftFormsWellFormed(c: Form, i: Inst)
    requires Fits(c, i) && c in {C_SRLI, C_SRAI, C_SLLI, C_LUI}
    ensures WellFormed(i)
  {
    hide FitsMask, SignExtend, Popular, ImmOk;
    ShiftImmediates(i.imm);
  }

  lemma RegFormsWellFormed(c: Form, i: Inst)
    requires Fits(c, i) && c in {C_SUB, C_XOR, C_OR, C_AND}
    ensures WellFormed(i)
  {
    hide Popular;
  }

  lemma MoveFormsWellFormed(c: Form, i: Inst)
    requires Fits(c, i) && c in {C_SUBW, C_ADDW, C_MV, C_ADD}
    ensures WellFormed(i)
  {
    hide Popular;
  }

  lemma JumpFormsWellFormed(c: Form, i: Inst)
    requires Fits(c, i) && c in {C_J, C_BEQZ, C_BNEZ, C_JR, C_JALR}
    ensures WellFormed(i)
  {
    hide SignExtend, Popular;
    if c == C_J {
      NarrowCJ(i.imm);
    } else if c == C_BEQZ || c == C_BNEZ {
      NarrowCB(i.imm);
    } else {
      ZeroImmediate();
    }
  }

  lemma ZeroImmediate()
    ensures SignExtend(0, 20) == 0
  {
  }

  /** The expansion of a form is a legal 32-bit instruction. */
  lemma ExpansionWellFormed(c: Form, i: Inst)
    requires Fits(c, i)
    ensures WellFormed(i)
  {
    hide Fits, WellFormed;
    if c in {C_FLD, C_LW, C_LD, C_FSD, C_SW, C_SD} {
      MemoryFormsWellFormed(c, i);
    } else if c in {C_FLDSP, C_LWSP, C_LDSP} {
      StackLoadsWellFormed(c, i);
    } else if c in {C_FSDSP, C_SWSP, C_SDSP} {
      StackStoresWellFormed(c, i);
    } else if c in {C_ADDI4SPN, C_ADDI, C_ADDIW, C_LI, C_ADDI16SP, C_ANDI} {
      ImmFormsWellFormed(c, i);
    } else if c in {C_SRLI, C_SRAI, C_SLLI, C_LUI} {
      ShiftFormsWellFormed(c, i);
    } else if c in {C_SUB, C_XOR, C_OR, C_AND} {
      RegFormsWellFormed(c, i);
    } else if c in {C_SUBW, C_ADDW, C_MV, C_ADD} {
      MoveFormsWellFormed(c, i);
    } else {
      JumpFormsWellFormed(c, i);
    }
  }

  // ---- execution ----

  lemma SameShiftAmount(imm: bv32)
    ensures SignExtend(imm, 26) & 0x3f == imm & 0x3f
  {
  }

  lemma ShiftArm(host: HostFloat, i: Inst, a: Arch)
    requires IsShiftImm(i.op)
    ensures Execute(host, i.(imm := SignExtend(i.imm, 26)), a) == Execute(host, i, a)
  {
    hide SignExtend, Simm;
    SameShiftAmount(i.imm);
    assert Low6(SignExtend(i.imm, 26)) == Low6(i.imm);
    hide Low6, Low5, WriteX;
  }

  /** The record decoded from a form executes as the expansion executes at length two. */
  lemma DecodedExecutes(host: HostFloat, i: Inst, a: Arch)
    ensures Execute(host, Decoded(i), a) == Execute(host, i.(rvc := true), a)
  {
    hide Execute, SignExtend;
    if IsShiftImm(i.op) {
      ShiftArm(host, i.(rvc := true), a);
    }
  }

  /** Compressed meaning preservation. Every accepted compressed instruction, executed in any
      state, does exactly what its 32-bit expansion does, except that fall-through and link
      addresses are two bytes further instead of four; the expansion has a 32-bit encoding which
      decodes to it. */
  lemma CompressedMeansExpansion(host: HostFloat, prev: Inst, prev': Inst, d: bv32, j: Inst, a: Arch) returns (c: Form, i: Inst)
    requires d & 3 != 3 && DecodeInst(prev, d) == Some(j)
    ensures Fits(c, i) && Assemble(c, i) == d & 0xffff
    ensures WellFormed(i) && !i.op.Ecall? && DecodeInst(prev', Encode(i)) == Some(i) && !i.rvc
    ensures Execute(host, j, a) == Execute(host, i.(rvc := true), a)
    ensures DifferOnlyInLength(i, a, Execute(host, j, a), Execute(host, i, a))
  {
    hide DecodeInst, Fits, Assemble, Decoded, WellFormed, Encode, Execute, DifferOnlyInLength;
    c := DecodeThenAssemble(prev, d, j);
    i := Expansion(j);
    ExpansionWellFormed(c, i);
    FormsAreNotEcall(c, i);
    EncodeThenDecode(prev', i);
    DecodedExecutes(host, i, a);
    LengthMatters(host, i, a);
  }

  /** The operations that have a compressed form. */
  predicate Compressible(i: Inst) { !i.op.Ecall? && !i.op.Fp? && !i.rvc }

  lemma FormsAreNotEcall(c: Form, i: Inst)
    requires Fits(c, i)
    ensures Compressible(i)
  {
    hide Fits, Compressible;
    if c in {C_ADDI4SPN, C_FLD, C_LW, C_LD, C_FSD, C_SW, C_SD} {
      Q0Compressible(c, i);
    } else if c in {C_ADDI, C_ADDIW, C_LI, C_ADDI16SP, C_LUI, C_SRLI, C_SRAI, C_ANDI, C_J, C_BEQZ, C_BNEZ} {
      Q1Compressible(c, i);
    } else if c in {C_SUB, C_XOR, C_OR, C_AND, C_SUBW, C_ADDW} {
      Q1RegCompressible(c, i);
    } else {
      Q2Compressible(c, i);
    }
  }

  lemma Q0Compressible(c: Form, i: Inst)
    requires Fits(c, i) && c in {C_ADDI4SPN, C_FLD, C_LW, C_LD, C_FSD, C_SW, C_SD}
    ensures Compressible(i)
  {
    hide FitsMask, SignExtend, Popular;
  }

  lemma Q1Compressible(c: Form, i: Inst)
    requires Fits(c, i)
    requires c in {C_ADDI, C_ADDIW, C_LI, C_ADDI16SP, C_LUI, C_SRLI, C_SRAI, C_ANDI, C_J, C_BEQZ, C_BNEZ}
    ensures Compressible(i)
  {
    hide FitsMask, SignExtend, Popular;
  }

  lemma Q1RegCompressible(c: Form, i: Inst)
    requires Fits(c, i) && c in {C_SUB, C_XOR, C_OR, C_AND, C_SUBW, C_ADDW}
    ensures Compressible(i)
  {
    hide FitsMask, SignExtend, Popular;
  }

  lemma Q2Compressible(c: Form, i: Inst)
    requires Fits(c, i)
    requires c in {C_SLLI, C_FLDSP, C_LWSP, C_LDSP, C_JR, C_MV, C_JALR, C_ADD, C_FSDSP, C_SWSP, C_SDSP}
    ensures Compressible(i)
  {
    hide FitsMask, SignExtend, Popular;
  }

  predicate Taken(i: Inst, a: Arch) {
    i.op.Branch? && BranchTaken(i.op.cond, a.x[i.rs1 as int], a.x[i.rs2 as int])
  }

  /** What the length changes: the fall-through address and the link value, nothing else. */
  predicate DifferOnlyInLength(i: Inst, a: Arch, short: Result, long: Result) {
    match (short, long)
    case (Dead, Dead) => true
    case (Running(s), Running(l)) =>
      && s.f == l.f && s.mem == l.mem
      && (if i.op.Jal? || i.op.Jalr?
          then s.pc == l.pc && s.x == WriteX(a.x, i.rd, Wrap64(a.pc + 2)) && l.x == WriteX(a.x, i.rd, Wrap64(a.pc + 4))
          else s.x == l.x && (if Taken(i, a) then s.pc == l.pc else s.pc == Wrap64(a.pc + 2) && l.pc == Wrap64(a.pc + 4)))
    case _ => false
  }

  lemma LengthOfTransfers(host: HostFloat, i: Inst, a: Arch)
    requires (i.op.Jal? || i.op.Jalr? || i.op.Branch?) && !i.rvc
    ensures DifferOnlyInLength(i, a, Execute(host, i.(rvc := true), a), Execute(host, i, a))
  {
    hide BranchTaken, Simm, WriteX, ClearBit0;
  }

  lemma LengthOfMemoryAccesses(host: HostFloat, i: Inst, a: Arch)
    requires (i.op.Load? || i.op.Store? || i.op.Flw? || i.op.Fld? || i.op.Fsw? || i.op.Fsd?) && !i.rvc
    ensures DifferOnlyInLength(i, a, Execute(host, i.(rvc := true), a), Execute(host, i, a))
  {
    hide LoadExtend, LoadLE, StoreLE, Mapped, Simm, WriteX, Wrap64;
  }

  lemma LengthMatters(host: HostFloat, i: Inst, a: Arch)
    requires !i.op.Ecall? && !i.rvc
    ensures DifferOnlyInLength(i, a, Execute(host, i.(rvc := true), a), Execute(host, i, a))
  {
    hide ImmResult, RegResult, LoadExtend, LoadLE, StoreLE, Mapped, FpEffect, BranchTaken, Simm, WriteX;
    if i.op.Jal? || i.op.Jalr? || i.op.Branch? {
      LengthOfTransfers(host, i, a);
    } else if i.op.Load? || i.op.Store? || i.op.Flw? || i.op.Fld? || i.op.Fsw? || i.op.Fsd? {
      LengthOfMemoryAccesses(host, i, a);
    }
  }
}
