/** The compressed instructions in the encoding direction (chapter 16 and the listings of section
    16.8 of the RISC-V Unprivileged ISA, version 20191213): each form has a halfword layout and
    a 32-bit instruction it expands to. Decoding inverts the layouts, accepts nothing else, and
    yields an instruction that executes as the expansion does. */
module Compressed {
  import opened Words
  import opened Instruction
  import opened Decode
  import opened Assembler

  /** The RV64DC forms, without C.EBREAK. */
  datatype Form =
    | C_ADDI4SPN | C_FLD | C_LW | C_LD | C_FSD | C_SW | C_SD
    | C_ADDI | C_ADDIW | C_LI | C_ADDI16SP | C_LUI
    | C_SRLI | C_SRAI | C_ANDI
    | C_SUB | C_XOR | C_OR | C_AND | C_SUBW | C_ADDW
    | C_J | C_BEQZ | C_BNEZ
    | C_SLLI | C_FLDSP | C_LWSP | C_LDSP
    | C_JR | C_MV | C_JALR | C_ADD
    | C_FSDSP | C_SWSP | C_SDSP

  // ---- halfword layouts ----

  /** Registers x8 to x15 in three bits. */
  function P(r: bv5): bv32 { (r as bv32) & 7 }
  predicate Popular(r: bv5) { r & 0x18 == 8 }

  /** nzuimm[5:4|9:6|2|3] in bits 12:5. */
  function LayCIW(q: bv2, f3: bv3, rd: bv5, imm: bv32): bv32 {
    (q as bv32) | (P(rd) << 2) | (((imm >> 3) & 1) << 5) | (((imm >> 2) & 1) << 6) | (((imm >> 6) & 0xf) << 7)
    | (((imm >> 4) & 3) << 11) | ((f3 as bv32) << 13)
  }

  /** uimm[5:3] in bits 12:10, uimm[7:6] in bits 6:5; the register in bits 4:2 is rd' or rs2'. */
  function LayCL8(f3: bv3, r2: bv5, rs1: bv5, imm: bv32): bv32 {
    (P(r2) << 2) | (((imm >> 6) & 3) << 5) | (P(rs1) << 7) | (((imm >> 3) & 7) << 10) | ((f3 as bv32) << 13)
  }

  /** uimm[5:3] in bits 12:10, uimm[2|6] in bits 6:5. */
  function LayCL4(f3: bv3, r2: bv5, rs1: bv5, imm: bv32): bv32 {
    (P(r2) << 2) | (((imm >> 6) & 1) << 5) | (((imm >> 2) & 1) << 6) | (P(rs1) << 7) | (((imm >> 3) & 7) << 10) | ((f3 as bv32) << 13)
  }

  /** imm[5] in bit 12, imm[4:0] in bits 6:2. */
  function LayCI(q: bv2, f3: bv3, rd: bv5, imm: bv32): bv32 {
    (q as bv32) | ((imm & 0x1f) << 2) | ((rd as bv32) << 7) | (((imm >> 5) & 1) << 12) | ((f3 as bv32) << 13)
  }

  /** nzimm[17] in bit 12, nzimm[16:12] in bits 6:2. */
  function LayCILui(rd: bv5, imm: bv32): bv32 { LayCI(1, 3, rd, imm >> 12) }

  /** nzimm[9] in bit 12, nzimm[4|6|8:7|5] in bits 6:2. */
  function LayCI16(imm: bv32): bv32 {
    1 | (((imm >> 5) & 1) << 2) | (((imm >> 7) & 3) << 3) | (((imm >> 6) & 1) << 5) | (((imm >> 4) & 1) << 6)
    | (2 << 7) | (((imm >> 9) & 1) << 12) | (3 << 13)
  }

  /** uimm[5] in bit 12, uimm[4:3|8:6] in bits 6:2. */
  function LayCISP8(f3: bv3, rd: bv5, imm: bv32): bv32 {
    2 | (((imm >> 6) & 7) << 2) | (((imm >> 3) & 3) << 5) | ((rd as bv32) << 7) | (((imm >> 5) & 1) << 12) | ((f3 as bv32) << 13)
  }

  /** uimm[5] in bit 12, uimm[4:2|7:6] in bits 6:2. */
  function LayCISP4(f3: bv3, rd: bv5, imm: bv32): bv32 {
    2 | (((imm >> 6) & 3) << 2) | (((imm >> 2) & 7) << 4) | ((rd as bv32) << 7) | (((imm >> 5) & 1) << 12) | ((f3 as bv32) << 13)
  }

  /** uimm[5:3|8:6] in bits 12:7. */
  function LayCSS8(f3: bv3, rs2: bv5, imm: bv32): bv32 {
    2 | ((rs2 as bv32) << 2) | (((imm >> 6) & 7) << 7) | (((imm >> 3) & 7) << 10) | ((f3 as bv32) << 13)
  }

  /** uimm[5:2|7:6] in bits 12:7. */
  function LayCSS4(f3: bv3, rs2: bv5, imm: bv32): bv32 {
    2 | ((rs2 as bv32) << 2) | (((imm >> 6) & 3) << 7) | (((imm >> 2) & 0xf) << 9) | ((f3 as bv32) << 13)
  }

  /** imm[5] in bit 12, funct2 in bits 11:10, imm[4:0] in bits 6:2. */
  function LayCBAlu(f2: bv2, rd: bv5, imm: bv32): bv32 {
    1 | ((imm & 0x1f) << 2) | (P(rd) << 7) | ((f2 as bv32) << 10) | (((imm >> 5) & 1) << 12) | (4 << 13)
  }

  function LayCA(f1: bv1, f2: bv2, rd: bv5, rs2: bv5): bv32 {
    1 | (P(rs2) << 2) | ((f2 as bv32) << 5) | (P(rd) << 7) | (3 << 10) | ((f1 as bv32) << 12) | (4 << 13)
  }

  /** imm[8|4:3] in bits 12:10, imm[7:6|2:1|5] in bits 6:2. */
  function LayCB(f3: bv3, rs1: bv5, imm: bv32): bv32 {
    1 | (((imm >> 5) & 1) << 2) | (((imm >> 1) & 3) << 3) | (((imm >> 6) & 3) << 5) | (P(rs1) << 7)
    | (((imm >> 3) & 3) << 10) | (((imm >> 8) & 1) << 12) | ((f3 as bv32) << 13)
  }

  /** imm[11|4|9:8|10|6|7|3:1|5] in bits 12:2. */
  function LayCJ(imm: bv32): bv32 {
    1 | (((imm >> 5) & 1) << 2) | (((imm >> 1) & 7) << 3) | (((imm >> 7) & 1) << 6) | (((imm >> 6) & 1) << 7)
    | (((imm >> 10) & 1) << 8) | (((imm >> 8) & 3) << 9) | (((imm >> 4) & 1) << 11) | (((imm >> 11) & 1) << 12) | (5 << 13)
  }

  function LayCR(f1: bv1, r1: bv5, r2: bv5): bv32 {
    2 | ((r2 as bv32) << 2) | ((r1 as bv32) << 7) | ((f1 as bv32) << 12) | (4 << 13)
  }

  /** The halfword of form c for the base instruction i it expands to. */
  function Assemble(c: Form, i: Inst): bv32 {
    match c
    case C_ADDI4SPN => LayCIW(0, 0, i.rd, i.imm)
    case C_FLD => LayCL8(1, i.rd, i.rs1, i.imm)
    case C_LW => LayCL4(2, i.rd, i.rs1, i.imm)
    case C_LD => LayCL8(3, i.rd, i.rs1, i.imm)
    case C_FSD => LayCL8(5, i.rs2, i.rs1, i.imm)
    case C_SW => LayCL4(6, i.rs2, i.rs1, i.imm)
    case C_SD => LayCL8(7, i.rs2, i.rs1, i.imm)
    case C_ADDI => LayCI(1, 0, i.rd, i.imm)
    case C_ADDIW => LayCI(1, 1, i.rd, i.imm)
    case C_LI => LayCI(1, 2, i.rd, i.imm)
    case C_ADDI16SP => LayCI16(i.imm)
    case C_LUI => LayCILui(i.rd, i.imm)
    case C_SRLI => LayCBAlu(0, i.rd, i.imm)
    case C_SRAI => LayCBAlu(1, i.rd, i.imm)
    case C_ANDI => LayCBAlu(2, i.rd, i.imm)
    case C_SUB => LayCA(0, 0, i.rd, i.rs2)
    case C_XOR => LayCA(0, 1, i.rd, i.rs2)
    case C_OR => LayCA(0, 2, i.rd, i.rs2)
    case C_AND => LayCA(0, 3, i.rd, i.rs2)
    case C_SUBW => LayCA(1, 0, i.rd, i.rs2)
    case C_ADDW => LayCA(1, 1, i.rd, i.rs2)
    case C_J => LayCJ(i.imm)
    case C_BEQZ => LayCB(6, i.rs1, i.imm)
    case C_BNEZ => LayCB(7, i.rs1, i.imm)
    case C_SLLI => LayCI(2, 0, i.rd, i.imm)
    case C_FLDSP => LayCISP8(1, i.rd, i.imm)
    case C_LWSP => LayCISP4(2, i.rd, i.imm)
    case C_LDSP => LayCISP8(3, i.rd, i.imm)
    case C_JR => LayCR(0, i.rs1, 0)
    case C_MV => LayCR(0, i.rd, i.rs2)
    case C_JALR => LayCR(1, i.rs1, 0)
    case C_ADD => LayCR(1, i.rd, i.rs2)
    case C_FSDSP => LayCSS8(5, i.rs2, i.imm)
    case C_SWSP => LayCSS4(6, i.rs2, i.imm)
    case C_SDSP => LayCSS8(7, i.rs2, i.imm)
  }

  // ---- which base instructions a form can express ----

  predicate FitsMask(imm: bv32, mask: bv32) { imm & mask == imm }

  /** The expansion is a base instruction of the listed shape, with the operands and immediates
      the form has room for and without the encodings the standard reserves. */
  predicate Fits(c: Form, i: Inst) {
    match c
    case C_ADDI4SPN => i == RecI(Imm(ADDI), i.rd, 2, i.imm) && Popular(i.rd) && FitsMask(i.imm, 0x3fc) && i.imm != 0
    case C_FLD => i == RecI(Fld, i.rd, i.rs1, i.imm) && Popular(i.rd) && Popular(i.rs1) && FitsMask(i.imm, 0xf8)
    case C_LW => i == RecI(Load(LW), i.rd, i.rs1, i.imm) && Popular(i.rd) && Popular(i.rs1) && FitsMask(i.imm, 0x7c)
    case C_LD => i == RecI(Load(LD), i.rd, i.rs1, i.imm) && Popular(i.rd) && Popular(i.rs1) && FitsMask(i.imm, 0xf8)
    case C_FSD => i == RecS(Fsd, i.rs1, i.rs2, i.imm) && Popular(i.rs1) && Popular(i.rs2) && FitsMask(i.imm, 0xf8)
    case C_SW => i == RecS(Store(SW), i.rs1, i.rs2, i.imm) && Popular(i.rs1) && Popular(i.rs2) && FitsMask(i.imm, 0x7c)
    case C_SD => i == RecS(Store(SD), i.rs1, i.rs2, i.imm) && Popular(i.rs1) && Popular(i.rs2) && FitsMask(i.imm, 0xf8)
    case C_ADDI => i == RecI(Imm(ADDI), i.rd, i.rd, i.imm) && SignExtend(i.imm, 26) == i.imm
    case C_ADDIW => i == RecI(Imm(ADDIW), i.rd, i.rd, i.imm) && SignExtend(i.imm, 26) == i.imm && i.rd != 0
    case C_LI => i == RecI(Imm(ADDI), i.rd, 0, i.imm) && SignExtend(i.imm, 26) == i.imm
    case C_ADDI16SP => i == RecI(Imm(ADDI), 2, 2, i.imm) && SignExtend(i.imm, 22) == i.imm && i.imm & 0xf == 0 && i.imm != 0
    case C_LUI => i == RecU(Lui, i.rd, i.imm) && SignExtend(i.imm, 14) == i.imm && i.imm & 0xfff == 0 && i.imm != 0 && i.rd != 2
    case C_SRLI => i == RecI(Imm(SRLI), i.rd, i.rd, i.imm) && Popular(i.rd) && FitsMask(i.imm, 0x3f)
    case C_SRAI => i == RecI(Imm(SRAI), i.rd, i.rd, i.imm) && Popular(i.rd) && i.imm & 0xffff_ffc0 == 0x400
    case C_ANDI => i == RecI(Imm(ANDI), i.rd, i.rd, i.imm) && Popular(i.rd) && SignExtend(i.imm, 26) == i.imm
    case C_SUB => i == RecR(Reg(SUB), i.rd, i.rd, i.rs2) && Popular(i.rd) && Popular(i.rs2)
    case C_XOR => i == RecR(Reg(XOR), i.rd, i.rd, i.rs2) && Popular(i.rd) && Popular(i.rs2)
    case C_OR => i == RecR(Reg(OR), i.rd, i.rd, i.rs2) && Popular(i.rd) && Popular(i.rs2)
    case C_AND => i == RecR(Reg(AND), i.rd, i.rd, i.rs2) && Popular(i.rd) && Popular(i.rs2)
    case C_SUBW => i == RecR(Reg(SUBW), i.rd, i.rd, i.rs2) && Popular(i.rd) && Popular(i.rs2)
    case C_ADDW => i == RecR(Reg(ADDW), i.rd, i.rd, i.rs2) && Popular(i.rd) && Popular(i.rs2)
    case C_J => i == RecU(Jal, 0, i.imm) && SignExtend(i.imm, 20) == i.imm && i.imm & 1 == 0
    case C_BEQZ => i == RecS(Branch(BEQ), i.rs1, 0, i.imm) && Popular(i.rs1) && SignExtend(i.imm, 23) == i.imm && i.imm & 1 == 0
    case C_BNEZ => i == RecS(Branch(BNE), i.rs1, 0, i.imm) && Popular(i.rs1) && SignExtend(i.imm, 23) == i.imm && i.imm & 1 == 0
    case C_SLLI => i == RecI(Imm(SLLI), i.rd, i.rd, i.imm) && FitsMask(i.imm, 0x3f)
    case C_FLDSP => i == RecI(Fld, i.rd, 2, i.imm) && FitsMask(i.imm, 0x1f8)
    case C_LWSP => i == RecI(Load(LW), i.rd, 2, i.imm) && FitsMask(i.imm, 0xfc) && i.rd != 0
    case C_LDSP => i == RecI(Load(LD), i.rd, 2, i.imm) && FitsMask(i.imm, 0x1f8) && i.rd != 0
    case C_JR => i == RecI(Jalr, 0, i.rs1, 0) && i.rs1 != 0
    case C_MV => i == RecR(Reg(ADD), i.rd, 0, i.rs2) && i.rs2 != 0
    case C_JALR => i == RecI(Jalr, 1, i.rs1, 0) && i.rs1 != 0
    case C_ADD => i == RecR(Reg(ADD), i.rd, i.rd, i.rs2) && i.rs2 != 0
    case C_FSDSP => i == RecS(Fsd, 2, i.rs2, i.imm) && FitsMask(i.imm, 0x1f8)
    case C_SWSP => i == RecS(Store(SW), 2, i.rs2, i.imm) && FitsMask(i.imm, 0xfc)
    case C_SDSP => i == RecS(Store(SD), 2, i.rs2, i.imm) && FitsMask(i.imm, 0x1f8)
  }

  /** What the decoder makes of a compressed form: the expansion's record marked as compressed,
      except that a shift amount is sign-extended from six bits and SRAI loses bit 10. */
  function Decoded(i: Inst): Inst {
    if IsShiftImm(i.op) then i.(rvc := true, imm := SignExtend(i.imm, 26)) else i.(rvc := true)
  }

  // ---- reading a layout back ----

  lemma ReadCIW(rd: bv5, imm: bv32)
    requires Popular(rd) && FitsMask(imm, 0x3fc)
    ensures var h := LayCIW(0, 0, rd, imm); h & 3 == 0 && COpcode(h) == 0 && Rp2(h) == rd && CIWImm(h) == imm
  {
  }

  lemma ReadCL8(f3: bv3, r2: bv5, rs1: bv5, imm: bv32)
    requires Popular(r2) && Popular(rs1) && FitsMask(imm, 0xf8)
    ensures var h := LayCL8(f3, r2, rs1, imm);
      h & 3 == 0 && COpcode(h) == f3 && Rp1(h) == rs1 && Rp2(h) == r2 && CSImm(h) == imm
  {
  }

  lemma ReadCL4(f3: bv3, r2: bv5, rs1: bv5, imm: bv32)
    requires Popular(r2) && Popular(rs1) && FitsMask(imm, 0x7c)
    ensures var h := LayCL4(f3, r2, rs1, imm);
      h & 3 == 0 && COpcode(h) == f3 && Rp1(h) == rs1 && Rp2(h) == r2 && CSImm2(h) == imm
  {
  }

  lemma ReadCI(q: bv2, f3: bv3, rd: bv5, imm: bv32)
    ensures var h := LayCI(q, f3, rd, imm);
      h & 3 == q as bv32 && COpcode(h) == f3 && Rc1(h) == rd && CIImm(h) == SignExtend(imm, 26)
  {
  }

  lemma ReadCI16(imm: bv32)
    requires SignExtend(imm, 22) == imm && imm & 0xf == 0
    ensures var h := LayCI16(imm); h & 3 == 1 && COpcode(h) == 3 && Rc1(h) == 2 && CIImm3(h) == imm
  {
  }

  lemma ReadCILui(rd: bv5, imm: bv32)
    requires SignExtend(imm, 14) == imm && imm & 0xfff == 0
    ensures var h := LayCILui(rd, imm); h & 3 == 1 && COpcode(h) == 3 && Rc1(h) == rd && CIImm5(h) == imm
  {
  }

  lemma ReadCISP8(f3: bv3, rd: bv5, imm: bv32)
    requires FitsMask(imm, 0x1f8)
    ensures var h := LayCISP8(f3, rd, imm); h & 3 == 2 && COpcode(h) == f3 && Rc1(h) == rd && CIImm2(h) == imm
  {
  }

  lemma ReadCISP4(f3: bv3, rd: bv5, imm: bv32)
    requires FitsMask(imm, 0xfc)
    ensures var h := LayCISP4(f3, rd, imm); h & 3 == 2 && COpcode(h) == f3 && Rc1(h) == rd && CIImm4(h) == imm
  {
  }

  lemma ReadCSS8(f3: bv3, rs2: bv5, imm: bv32)
    requires FitsMask(imm, 0x1f8)
    ensures var h := LayCSS8(f3, rs2, imm); h & 3 == 2 && COpcode(h) == f3 && Rc2(h) == rs2 && CSSImm(h) == imm
  {
  }

  lemma ReadCSS4(f3: bv3, rs2: bv5, imm: bv32)
    requires FitsMask(imm, 0xfc)
    ensures var h := LayCSS4(f3, rs2, imm); h & 3 == 2 && COpcode(h) == f3 && Rc2(h) == rs2 && CSSImm2(h) == imm
  {
  }

  lemma ReadCBAlu(f2: bv2, rd: bv5, imm: bv32)
    requires Popular(rd)
    ensures var h := LayCBAlu(f2, rd, imm);
      h & 3 == 1 && COpcode(h) == 4 && CFunct2High(h) == f2 && Rp1(h) == rd && CIImm(h) == SignExtend(imm, 26)
  {
  }

  lemma ReadCA(f1: bv1, f2: bv2, rd: bv5, rs2: bv5)
    requires Popular(rd) && Popular(rs2)
    ensures var h := LayCA(f1, f2, rd, rs2);
      && h & 3 == 1 && COpcode(h) == 4 && CFunct2High(h) == 3 && CFunct1(h) == f1 && CFunct2Low(h) == f2
      && Rp1(h) == rd && Rp2(h) == rs2
  {
  }

  lemma ReadCB(f3: bv3, rs1: bv5, imm: bv32)
    requires Popular(rs1) && SignExtend(imm, 23) == imm && imm & 1 == 0
    ensures var h := LayCB(f3, rs1, imm); h & 3 == 1 && COpcode(h) == f3 && Rp1(h) == rs1 && CBImm(h) == imm
  {
  }

  lemma ReadCJ(imm: bv32)
    requires SignExtend(imm, 20) == imm && imm & 1 == 0
    ensures var h := LayCJ(imm); h & 3 == 1 && COpcode(h) == 5 && CJImm(h) == imm
  {
  }

  lemma ReadCR(f1: bv1, r1: bv5, r2: bv5)
    ensures var h := LayCR(f1, r1, r2);
      h & 3 == 2 && COpcode(h) == 4 && CFunct1(h) == f1 && Rc1(h) == r1 && Rc2(h) == r2
  {
  }

  // ---- decoding what was assembled ----

  /** What the three compressed quadrants decode to, once the selecting fields are known. */
  lemma Quadrant0(prev: Inst, h: bv32)
    requires h & 3 == 0
    ensures DecodeInst(prev, h) == DecodeQ0(h)
  {
  }

  lemma Quadrant1(prev: Inst, h: bv32)
    requires h & 3 == 1
    ensures DecodeInst(prev, h) == DecodeQ1(h)
  {
  }

  lemma Quadrant2(prev: Inst, h: bv32)
    requires h & 3 == 2
    ensures DecodeInst(prev, h) == DecodeQ2(h)
  {
  }

  /** A record marked as compressed. */
  function Rvc(i: Inst): Inst { i.(rvc := true) }

  lemma DecodeCIW(prev: Inst, rd: bv5, imm: bv32)
    requires Popular(rd) && FitsMask(imm, 0x3fc) && imm != 0
    ensures DecodeInst(prev, LayCIW(0, 0, rd, imm)) == Some(Rvc(RecI(Imm(ADDI), rd, 2, imm)))
  {
    hide DecodeInst, LayCIW, COpcode, Rp2, CIWImm, Popular, FitsMask;
    ReadCIW(rd, imm);
    Quadrant0(prev, LayCIW(0, 0, rd, imm));
  }

  lemma DecodeCL8(prev: Inst, r2: bv5, rs1: bv5, imm: bv32)
    requires Popular(r2) && Popular(rs1) && FitsMask(imm, 0xf8)
    ensures DecodeInst(prev, LayCL8(1, r2, rs1, imm)) == Some(Rvc(RecI(Fld, r2, rs1, imm)))
    ensures DecodeInst(prev, LayCL8(3, r2, rs1, imm)) == Some(Rvc(RecI(Load(LD), r2, rs1, imm)))
    ensures DecodeInst(prev, LayCL8(5, r2, rs1, imm)) == Some(Rvc(RecS(Fsd, rs1, r2, imm)))
    ensures DecodeInst(prev, LayCL8(7, r2, rs1, imm)) == Some(Rvc(RecS(Store(SD), rs1, r2, imm)))
  {
    hide DecodeInst, LayCL8, COpcode, Rp1, Rp2, CSImm, Popular, FitsMask;
    ReadCL8(1, r2, rs1, imm);
    ReadCL8(3, r2, rs1, imm);
    ReadCL8(5, r2, rs1, imm);
    ReadCL8(7, r2, rs1, imm);
    Quadrant0(prev, LayCL8(1, r2, rs1, imm));
    Quadrant0(prev, LayCL8(3, r2, rs1, imm));
    Quadrant0(prev, LayCL8(5, r2, rs1, imm));
    Quadrant0(prev, LayCL8(7, r2, rs1, imm));
  }

  lemma DecodeCL4(prev: Inst, r2: bv5, rs1: bv5, imm: bv32)
    requires Popular(r2) && Popular(rs1) && FitsMask(imm, 0x7c)
    ensures DecodeInst(prev, LayCL4(2, r2, rs1, imm)) == Some(Rvc(RecI(Load(LW), r2, rs1, imm)))
    ensures DecodeInst(prev, LayCL4(6, r2, rs1, imm)) == Some(Rvc(RecS(Store(SW), rs1, r2, imm)))
  {
    hide DecodeInst, LayCL4, COpcode, Rp1, Rp2, CSImm2, Popular, FitsMask;
    ReadCL4(2, r2, rs1, imm);
    ReadCL4(6, r2, rs1, imm);
    Quadrant0(prev, LayCL4(2, r2, rs1, imm));
    Quadrant0(prev, LayCL4(6, r2, rs1, imm));
  }

  lemma DecodeCI(prev: Inst, rd: bv5, imm: bv32)
    requires SignExtend(imm, 26) == imm
    ensures DecodeInst(prev, LayCI(1, 0, rd, imm)) == Some(Rvc(RecI(Imm(ADDI), rd, rd, imm)))
    ensures rd != 0 ==> DecodeInst(prev, LayCI(1, 1, rd, imm)) == Some(Rvc(RecI(Imm(ADDIW), rd, rd, imm)))
    ensures DecodeInst(prev, LayCI(1, 2, rd, imm)) == Some(Rvc(RecI(Imm(ADDI), rd, 0, imm)))
  {
    hide DecodeInst, LayCI, COpcode, Rc1, CIImm, SignExtend, DecodeCLui, DecodeCAlu;
    ReadCI(1, 0, rd, imm);
    ReadCI(1, 1, rd, imm);
    ReadCI(1, 2, rd, imm);
    Quadrant1(prev, LayCI(1, 0, rd, imm));
    Quadrant1(prev, LayCI(1, 1, rd, imm));
    Quadrant1(prev, LayCI(1, 2, rd, imm));
  }

  lemma DecodeCSlli(prev: Inst, rd: bv5, imm: bv32)
    ensures DecodeInst(prev, LayCI(2, 0, rd, imm)) == Some(Rvc(RecI(Imm(SLLI), rd, rd, SignExtend(imm, 26))))
  {
    hide DecodeInst, LayCI, COpcode, Rc1, CIImm, SignExtend, DecodeCJump;
    ReadCI(2, 0, rd, imm);
    Quadrant2(prev, LayCI(2, 0, rd, imm));
  }

  lemma DecodeCI16(prev: Inst, imm: bv32)
    requires SignExtend(imm, 22) == imm && imm & 0xf == 0 && imm != 0
    ensures DecodeInst(prev, LayCI16(imm)) == Some(Rvc(RecI(Imm(ADDI), 2, 2, imm)))
  {
    hide DecodeInst, LayCI16, COpcode, Rc1, CIImm3, SignExtend, DecodeCAlu;
    ReadCI16(imm);
    Quadrant1(prev, LayCI16(imm));
  }

  lemma DecodeCILui(prev: Inst, rd: bv5, imm: bv32)
    requires SignExtend(imm, 14) == imm && imm & 0xfff == 0 && imm != 0 && rd != 2
    ensures DecodeInst(prev, LayCILui(rd, imm)) == Some(Rvc(RecU(Lui, rd, imm)))
  {
    hide DecodeInst, LayCILui, COpcode, Rc1, CIImm5, SignExtend, DecodeCAlu;
    ReadCILui(rd, imm);
    Quadrant1(prev, LayCILui(rd, imm));
  }

  lemma DecodeCBAlu(prev: Inst, rd: bv5, imm: bv32)
    requires Popular(rd)
    ensures DecodeInst(prev, LayCBAlu(0, rd, imm)) == Some(Rvc(RecI(Imm(SRLI), rd, rd, SignExtend(imm, 26))))
    ensures DecodeInst(prev, LayCBAlu(1, rd, imm)) == Some(Rvc(RecI(Imm(SRAI), rd, rd, SignExtend(imm, 26))))
    ensures DecodeInst(prev, LayCBAlu(2, rd, imm)) == Some(Rvc(RecI(Imm(ANDI), rd, rd, SignExtend(imm, 26))))
  {
    hide DecodeInst, LayCBAlu, COpcode, CFunct2High, Rp1, CIImm, SignExtend, Popular, DecodeCLui;
    ReadCBAlu(0, rd, imm);
    ReadCBAlu(1, rd, imm);
    ReadCBAlu(2, rd, imm);
    Quadrant1(prev, LayCBAlu(0, rd, imm));
    Quadrant1(prev, LayCBAlu(1, rd, imm));
    Quadrant1(prev, LayCBAlu(2, rd, imm));
  }

  function CARegOp(f1: bv1, f2: bv2): RegOp {
    if f1 == 0 then (if f2 == 0 then SUB else if f2 == 1 then XOR else if f2 == 2 then OR else AND)
    else if f2 == 0 then SUBW else ADDW
  }

  lemma DecodeCA(prev: Inst, f1: bv1, f2: bv2, rd: bv5, rs2: bv5)
    requires Popular(rd) && Popular(rs2) && (f1 == 1 ==> f2 < 2)
    ensures DecodeInst(prev, LayCA(f1, f2, rd, rs2)) == Some(Rvc(RecR(Reg(CARegOp(f1, f2)), rd, rd, rs2)))
  {
    hide DecodeInst, LayCA, COpcode, CFunct1, CFunct2Low, CFunct2High, Rp1, Rp2, Popular, DecodeCLui;
    ReadCA(f1, f2, rd, rs2);
    Quadrant1(prev, LayCA(f1, f2, rd, rs2));
  }

  lemma DecodeCB(prev: Inst, rs1: bv5, imm: bv32)
    requires Popular(rs1) && SignExtend(imm, 23) == imm && imm & 1 == 0
    ensures DecodeInst(prev, LayCB(6, rs1, imm)) == Some(Rvc(RecS(Branch(BEQ), rs1, 0, imm)))
    ensures DecodeInst(prev, LayCB(7, rs1, imm)) == Some(Rvc(RecS(Branch(BNE), rs1, 0, imm)))
  {
    hide DecodeInst, LayCB, COpcode, Rp1, CBImm, SignExtend, Popular, DecodeCLui, DecodeCAlu;
    ReadCB(6, rs1, imm);
    ReadCB(7, rs1, imm);
    Quadrant1(prev, LayCB(6, rs1, imm));
    Quadrant1(prev, LayCB(7, rs1, imm));
  }

  lemma DecodeCJ(prev: Inst, imm: bv32)
    requires SignExtend(imm, 20) == imm && imm & 1 == 0
    ensures DecodeInst(prev, LayCJ(imm)) == Some(Rvc(RecU(Jal, 0, imm)))
  {
    hide DecodeInst, LayCJ, COpcode, CJImm, SignExtend, DecodeCLui, DecodeCAlu;
    ReadCJ(imm);
    Quadrant1(prev, LayCJ(imm));
  }

  lemma DecodeCISP(prev: Inst, rd: bv5, imm: bv32)
    ensures FitsMask(imm, 0x1f8) ==> DecodeInst(prev, LayCISP8(1, rd, imm)) == Some(Rvc(RecI(Fld, rd, 2, imm)))
    ensures FitsMask(imm, 0x1f8) && rd != 0 ==> DecodeInst(prev, LayCISP8(3, rd, imm)) == Some(Rvc(RecI(Load(LD), rd, 2, imm)))
    ensures FitsMask(imm, 0xfc) && rd != 0 ==> DecodeInst(prev, LayCISP4(2, rd, imm)) == Some(Rvc(RecI(Load(LW), rd, 2, imm)))
  {
    hide DecodeInst, LayCISP8, LayCISP4, COpcode, Rc1, CIImm2, CIImm4, FitsMask, DecodeCJump;
    if FitsMask(imm, 0x1f8) {
      ReadCISP8(1, rd, imm);
      ReadCISP8(3, rd, imm);
      Quadrant2(prev, LayCISP8(1, rd, imm));
      Quadrant2(prev, LayCISP8(3, rd, imm));
    }
    if FitsMask(imm, 0xfc) {
      ReadCISP4(2, rd, imm);
      Quadrant2(prev, LayCISP4(2, rd, imm));
    }
  }

  lemma DecodeCSS(prev: Inst, rs2: bv5, imm: bv32)
    ensures FitsMask(imm, 0x1f8) ==> DecodeInst(prev, LayCSS8(5, rs2, imm)) == Some(Rvc(RecS(Fsd, 2, rs2, imm)))
    ensures FitsMask(imm, 0x1f8) ==> DecodeInst(prev, LayCSS8(7, rs2, imm)) == Some(Rvc(RecS(Store(SD), 2, rs2, imm)))
    ensures FitsMask(imm, 0xfc) ==> DecodeInst(prev, LayCSS4(6, rs2, imm)) == Some(Rvc(RecS(Store(SW), 2, rs2, imm)))
  {
    hide DecodeInst, LayCSS8, LayCSS4, COpcode, Rc2, CSSImm, CSSImm2, FitsMask, DecodeCJump;
    if FitsMask(imm, 0x1f8) {
      ReadCSS8(5, rs2, imm);
      ReadCSS8(7, rs2, imm);
      Quadrant2(prev, LayCSS8(5, rs2, imm));
      Quadrant2(prev, LayCSS8(7, rs2, imm));
    }
    if FitsMask(imm, 0xfc) {
      ReadCSS4(6, rs2, imm);
      Quadrant2(prev, LayCSS4(6, rs2, imm));
    }
  }

  lemma DecodeCR(prev: Inst, r1: bv5, r2: bv5)
    ensures r2 != 0 ==> DecodeInst(prev, LayCR(0, r1, r2)) == Some(Rvc(RecR(Reg(ADD), r1, 0, r2)))
    ensures r2 != 0 ==> DecodeInst(prev, LayCR(1, r1, r2)) == Some(Rvc(RecR(Reg(ADD), r1, r1, r2)))
    ensures r1 != 0 ==> DecodeInst(prev, LayCR(0, r1, 0)) == Some(Rvc(RecI(Jalr, 0, r1, 0)))
    ensures r1 != 0 ==> DecodeInst(prev, LayCR(1, r1, 0)) == Some(Rvc(RecI(Jalr, 1, r1, 0)))
  {
    hide DecodeInst, LayCR, COpcode, CFunct1, Rc1, Rc2;
    ReadCR(0, r1, r2);
    ReadCR(1, r1, r2);
    ReadCR(0, r1, 0);
    ReadCR(1, r1, 0);
    Quadrant2(prev, LayCR(0, r1, r2));
    Quadrant2(prev, LayCR(1, r1, r2));
    Quadrant2(prev, LayCR(0, r1, 0));
    Quadrant2(prev, LayCR(1, r1, 0));
  }

  lemma Q0Forms(prev: Inst, c: Form, i: Inst)
    requires Fits(c, i) && c in {C_ADDI4SPN, C_FLD, C_LW, C_LD, C_FSD, C_SW, C_SD}
    ensures DecodeInst(prev, Assemble(c, i)) == Some(Decoded(i))
  {
    hide DecodeInst, LayCIW, LayCL8, LayCL4, Popular, FitsMask, SignExtend;
    match c
    case C_ADDI4SPN => DecodeCIW(prev, i.rd, i.imm);
    case C_FLD => DecodeCL8(prev, i.rd, i.rs1, i.imm);
    case C_LW => DecodeCL4(prev, i.rd, i.rs1, i.imm);
    case C_LD => DecodeCL8(prev, i.rd, i.rs1, i.imm);
    case C_FSD => DecodeCL8(prev, i.rs2, i.rs1, i.imm);
    case C_SW => DecodeCL4(prev, i.rs2, i.rs1, i.imm);
    case C_SD => DecodeCL8(prev, i.rs2, i.rs1, i.imm);
  }

  lemma Q1ImmForms(prev: Inst, c: Form, i: Inst)
    requires Fits(c, i) && c in {C_ADDI, C_ADDIW, C_LI}
    ensures DecodeInst(prev, Assemble(c, i)) == Some(Decoded(i))
  {
    hide DecodeInst, LayCI, SignExtend;
    DecodeCI(prev, i.rd, i.imm);
  }

  lemma AddSpForm(prev: Inst, i: Inst)
    requires Fits(C_ADDI16SP, i)
    ensures DecodeInst(prev, Assemble(C_ADDI16SP, i)) == Some(Decoded(i))
  {
    hide DecodeInst, LayCI16, SignExtend;
    DecodeCI16(prev, i.imm);
  }

  lemma LuiForm(prev: Inst, i: Inst)
    requires Fits(C_LUI, i)
    ensures DecodeInst(prev, Assemble(C_LUI, i)) == Some(Decoded(i))
  {
    hide DecodeInst, LayCILui, SignExtend;
    DecodeCILui(prev, i.rd, i.imm);
  }

  lemma Q1ShiftForms(prev: Inst, c: Form, i: Inst)
    requires Fits(c, i) && c in {C_SRLI, C_SRAI, C_ANDI}
    ensures DecodeInst(prev, Assemble(c, i)) == Some(Decoded(i))
  {
    hide DecodeInst, LayCBAlu, Popular, FitsMask, SignExtend;
    DecodeCBAlu(prev, i.rd, i.imm);
  }

  lemma Q1RegForms(prev: Inst, c: Form, i: Inst)
    requires Fits(c, i) && c in {C_SUB, C_XOR, C_OR, C_AND, C_SUBW, C_ADDW}
    ensures DecodeInst(prev, Assemble(c, i)) == Some(Decoded(i))
  {
    hide DecodeInst, LayCA, Popular;
    match c
    case C_SUB => DecodeCA(prev, 0, 0, i.rd, i.rs2);
    case C_XOR => DecodeCA(prev, 0, 1, i.rd, i.rs2);
    case C_OR => DecodeCA(prev, 0, 2, i.rd, i.rs2);
    case C_AND => DecodeCA(prev, 0, 3, i.rd, i.rs2);
    case C_SUBW => DecodeCA(prev, 1, 0, i.rd, i.rs2);
    case C_ADDW => DecodeCA(prev, 1, 1, i.rd, i.rs2);
  }

  lemma Q1JumpForms(prev: Inst, c: Form, i: Inst)
    requires Fits(c, i) && c in {C_J, C_BEQZ, C_BNEZ}
    ensures DecodeInst(prev, Assemble(c, i)) == Some(Decoded(i))
  {
    hide DecodeInst, LayCJ, LayCB, Popular, SignExtend;
    match c
    case C_J => DecodeCJ(prev, i.imm);
    case C_BEQZ => DecodeCB(prev, i.rs1, i.imm);
    case C_BNEZ => DecodeCB(prev, i.rs1, i.imm);
  }

  lemma Q2LoadForms(prev: Inst, c: Form, i: Inst)
    requires Fits(c, i) && c in {C_SLLI, C_FLDSP, C_LWSP, C_LDSP}
    ensures DecodeInst(prev, Assemble(c, i)) == Some(Decoded(i))
  {
    hide DecodeInst, LayCI, LayCISP8, LayCISP4, LayCSS8, LayCSS4, LayCR, FitsMask, SignExtend;
    match c
    case C_SLLI => DecodeCSlli(prev, i.rd, i.imm);
    case C_FLDSP => DecodeCISP(prev, i.rd, i.imm);
    case C_LWSP => DecodeCISP(prev, i.rd, i.imm);
    case C_LDSP => DecodeCISP(prev, i.rd, i.imm);
  }

  lemma Q2JumpForms(prev: Inst, c: Form, i: Inst)
    requires Fits(c, i) && c in {C_JR, C_JALR}
    ensures DecodeInst(prev, Assemble(c, i)) == Some(Decoded(i))
  {
    hide DecodeInst, LayCI, LayCISP8, LayCISP4, LayCSS8, LayCSS4, LayCR, FitsMask, SignExtend;
    match c
    case C_JR => DecodeCR(prev, i.rs1, 0);
    case C_JALR => DecodeCR(prev, i.rs1, 0);
  }

  lemma Q2RegForms(prev: Inst, c: Form, i: Inst)
    requires Fits(c, i) && c in {C_MV, C_ADD}
    ensures DecodeInst(prev, Assemble(c, i)) == Some(Decoded(i))
  {
    hide DecodeInst, LayCI, LayCISP8, LayCISP4, LayCSS8, LayCSS4, LayCR, FitsMask, SignExtend;
    match c
    case C_MV => DecodeCR(prev, i.rd, i.rs2);
    case C_ADD => DecodeCR(prev, i.rd, i.rs2);
  }

  lemma Q2StoreForms(prev: Inst, c: Form, i: Inst)
    requires Fits(c, i) && c in {C_FSDSP, C_SWSP, C_SDSP}
    ensures DecodeInst(prev, Assemble(c, i)) == Some(Decoded(i))
  {
    hide DecodeInst, LayCI, LayCISP8, LayCISP4, LayCSS8, LayCSS4, LayCR, FitsMask, SignExtend;
    match c
    case C_FSDSP => DecodeCSS(prev, i.rs2, i.imm);
    case C_SWSP => DecodeCSS(prev, i.rs2, i.imm);
    case C_SDSP => DecodeCSS(prev, i.rs2, i.imm);
  }

  /** Every compressed form of every instruction it can express decodes to that instruction. */
  lemma AssembleThenDecode(prev: Inst, c: Form, i: Inst)
    requires Fits(c, i)
    ensures DecodeInst(prev, Assemble(c, i)) == Some(Decoded(i))
  {
    hide DecodeInst, Assemble, Fits, Decoded;
    if c in {C_ADDI4SPN, C_FLD, C_LW, C_LD, C_FSD, C_SW, C_SD} {
      Q0Forms(prev, c, i);
    } else if c in {C_ADDI, C_ADDIW, C_LI} {
      Q1ImmForms(prev, c, i);
    } else if c == C_ADDI16SP {
      AddSpForm(prev, i);
    } else if c == C_LUI {
      LuiForm(prev, i);
    } else if c in {C_SRLI, C_SRAI, C_ANDI} {
      Q1ShiftForms(prev, c, i);
    } else if c in {C_SUB, C_XOR, C_OR, C_AND, C_SUBW, C_ADDW} {
      Q1RegForms(prev, c, i);
    } else if c in {C_J, C_BEQZ, C_BNEZ} {
      Q1JumpForms(prev, c, i);
    } else if c in {C_SLLI, C_FLDSP, C_LWSP, C_LDSP} {
      Q2LoadForms(prev, c, i);
    } else if c in {C_JR, C_JALR} {
      Q2JumpForms(prev, c, i);
    } else if c in {C_MV, C_ADD} {
      Q2RegForms(prev, c, i);
    } else {
      Q2StoreForms(prev, c, i);
    }
  }

  // ---- assembling what was decoded ----

  lemma RebuildCIW(w: bv16)
    requires w & 3 == 0 && COpcode(w as bv32) == 0
    ensures var h := w as bv32; LayCIW(0, 0, Rp2(h), CIWImm(h)) == h && Popular(Rp2(h)) && FitsMask(CIWImm(h), 0x3fc)
  {
  }

  lemma RebuildCL8(w: bv16)
    requires w & 3 == 0
    ensures var h := w as bv32; LayCL8(COpcode(h), Rp2(h), Rp1(h), CSImm(h)) == h
    ensures var h := w as bv32; Popular(Rp1(h)) && Popular(Rp2(h)) && FitsMask(CSImm(h), 0xf8)
  {
  }

  lemma RebuildCL4(w: bv16)
    requires w & 3 == 0
    ensures var h := w as bv32; LayCL4(COpcode(h), Rp2(h), Rp1(h), CSImm2(h)) == h
    ensures var h := w as bv32; Popular(Rp1(h)) && Popular(Rp2(h)) && FitsMask(CSImm2(h), 0x7c)
  {
  }

  lemma RebuildCI(w: bv16, q: bv2)
    requires w & 3 == q as bv16
    ensures var h := w as bv32; LayCI(q, COpcode(h), Rc1(h), CIImm(h)) == h
  {
  }

  lemma RebuildCI16(w: bv16)
    requires w & 3 == 1 && COpcode(w as bv32) == 3 && Rc1(w as bv32) == 2
    ensures var h := w as bv32; LayCI16(CIImm3(h)) == h
  {
  }

  lemma RebuildCJ(w: bv16)
    requires w & 3 == 1 && COpcode(w as bv32) == 5
    ensures var h := w as bv32; LayCJ(CJImm(h)) == h
  {
  }

  lemma RebuildCB(w: bv16)
    requires w & 3 == 1
    ensures var h := w as bv32; LayCB(COpcode(h), Rp1(h), CBImm(h)) == h && Popular(Rp1(h))
  {
  }

  lemma RebuildCISP8(w: bv16)
    requires w & 3 == 2
    ensures var h := w as bv32; LayCISP8(COpcode(h), Rc1(h), CIImm2(h)) == h && FitsMask(CIImm2(h), 0x1f8)
  {
  }

  lemma RebuildCISP4(w: bv16)
    requires w & 3 == 2
    ensures var h := w as bv32; LayCISP4(COpcode(h), Rc1(h), CIImm4(h)) == h && FitsMask(CIImm4(h), 0xfc)
  {
  }

  lemma RebuildCSS8(w: bv16)
    requires w & 3 == 2
    ensures var h := w as bv32; LayCSS8(COpcode(h), Rc2(h), CSSImm(h)) == h && FitsMask(CSSImm(h), 0x1f8)
  {
  }

  lemma RebuildCSS4(w: bv16)
    requires w & 3 == 2
    ensures var h := w as bv32; LayCSS4(COpcode(h), Rc2(h), CSSImm2(h)) == h && FitsMask(CSSImm2(h), 0xfc)
  {
  }

  lemma RebuildCR(w: bv16)
    requires w & 3 == 2 && COpcode(w as bv32) == 4
    ensures var h := w as bv32; LayCR(CFunct1(h), Rc1(h), Rc2(h)) == h
  {
  }

  lemma RebuildCA(w: bv16)
    requires w & 3 == 1 && COpcode(w as bv32) == 4 && CFunct2High(w as bv32) == 3
    ensures var h := w as bv32; LayCA(CFunct1(h), CFunct2Low(h), Rp1(h), Rp2(h)) == h && Popular(Rp1(h)) && Popular(Rp2(h))
  {
  }

  lemma RebuildCBAlu(w: bv16)
    requires w & 3 == 1 && COpcode(w as bv32) == 4
    ensures var h := w as bv32; LayCBAlu(CFunct2High(h), Rp1(h), CIImm(h)) == h && Popular(Rp1(h))
  {
  }

  /** The layout keeps six bits of the immediate. */
  lemma SixBits(f2: bv2, rd: bv5, q: bv2, f3: bv3, imm: bv32)
    ensures LayCBAlu(f2, rd, imm & 0x3f) == LayCBAlu(f2, rd, imm)
    ensures LayCBAlu(f2, rd, (imm & 0x3f) | 0x400) == LayCBAlu(f2, rd, imm)
    ensures LayCI(q, f3, rd, imm & 0x3f) == LayCI(q, f3, rd, imm)
  {
  }

  lemma RebuildCILui(w: bv16)
    requires w & 3 == 1 && COpcode(w as bv32) == 3
    ensures var h := w as bv32; LayCILui(Rc1(h), CIImm5(h)) == h
  {
  }

  // ---- the decoded immediates are in range ----

  lemma RangeCI(h: bv32)
    ensures SignExtend(CIImm(h), 26) == CIImm(h)
  {
    SignExtendTwice6((((h >> 12) & 1) << 5) | ((h >> 2) & 0x1f));
    hide SignExtend;
  }

  lemma SignExtendTwice6(x: bv32)
    ensures SignExtend(SignExtend(x, 26), 26) == SignExtend(x, 26)
  {
  }

  lemma RangeCI16(h: bv32)
    ensures SignExtend(CIImm3(h), 22) == CIImm3(h)
  {
    SignExtendTwice10((((h >> 2) & 1) << 5) | (((h >> 3) & 3) << 7) | (((h >> 5) & 1) << 6) | (((h >> 6) & 1) << 4) | (((h >> 12) & 1) << 9));
    hide SignExtend;
  }

  lemma SignExtendTwice10(x: bv32)
    ensures SignExtend(SignExtend(x, 22), 22) == SignExtend(x, 22)
  {
  }

  lemma RangeCILui(h: bv32)
    ensures SignExtend(CIImm5(h), 14) == CIImm5(h)
  {
    SignExtendTwice18((((h >> 2) & 0x1f) << 12) | (((h >> 12) & 1) << 17));
    hide SignExtend;
  }

  lemma SignExtendTwice18(x: bv32)
    ensures SignExtend(SignExtend(x, 14), 14) == SignExtend(x, 14)
  {
  }

  lemma RangeCB(h: bv32)
    ensures SignExtend(CBImm(h), 23) == CBImm(h)
  {
    SignExtendTwice9((((h >> 12) & 1) << 8) | (((h >> 5) & 3) << 6) | (((h >> 2) & 1) << 5) | (((h >> 10) & 3) << 3) | (((h >> 3) & 3) << 1));
    hide SignExtend;
  }

  lemma SignExtendTwice9(x: bv32)
    ensures SignExtend(SignExtend(x, 23), 23) == SignExtend(x, 23)
  {
  }

  lemma RangeCJ(h: bv32)
    ensures SignExtend(CJImm(h), 20) == CJImm(h)
  {
    SignExtendTwice12((((h >> 2) & 1) << 5) | (((h >> 3) & 7) << 1) | (((h >> 6) & 1) << 7) | (((h >> 7) & 1) << 6)
      | (((h >> 8) & 1) << 10) | (((h >> 9) & 3) << 8) | (((h >> 11) & 1) << 4) | (((h >> 12) & 1) << 11));
    hide SignExtend;
  }

  lemma Granularity(h: bv32)
    ensures CIImm3(h) & 0xf == 0 && CIImm5(h) & 0xfff == 0 && CBImm(h) & 1 == 0 && CJImm(h) & 1 == 0
  {
  }

  lemma ShiftRange(imm: bv32)
    ensures FitsMask(imm & 0x3f, 0x3f) && ((imm & 0x3f) | 0x400) & 0xffff_ffc0 == 0x400
    ensures SignExtend(imm & 0x3f, 26) == SignExtend(imm, 26)
    ensures SignExtend((imm & 0x3f) | 0x400, 26) == SignExtend(imm, 26)
  {
  }

  // ---- every accepted halfword is one of the forms ----

  /** The base instruction a decoded compressed record stands for. */
  function Expansion(j: Inst): Inst {
    if j.op == Imm(SRAI) then j.(rvc := false, imm := (j.imm & 0x3f) | 0x400)
    else if IsShiftImm(j.op) then j.(rvc := false, imm := j.imm & 0x3f)
    else j.(rvc := false)
  }

  function FormQ0(f3: bv3): Form {
    if f3 == 0 then C_ADDI4SPN else if f3 == 1 then C_FLD else if f3 == 2 then C_LW else if f3 == 3 then C_LD
    else if f3 == 5 then C_FSD else if f3 == 6 then C_SW else C_SD
  }

  function FormQ1(h: bv32): Form {
    var f3 := COpcode(h);
    if f3 == 0 then C_ADDI
    else if f3 == 1 then C_ADDIW
    else if f3 == 2 then C_LI
    else if f3 == 3 then (if Rc1(h) == 2 then C_ADDI16SP else C_LUI)
    else if f3 == 4 then FormAlu(CFunct2High(h), CFunct1(h), CFunct2Low(h))
    else if f3 == 5 then C_J
    else if f3 == 6 then C_BEQZ
    else C_BNEZ
  }

  function FormAlu(high: bv2, f1: bv1, low: bv2): Form {
    if high == 0 then C_SRLI else if high == 1 then C_SRAI else if high == 2 then C_ANDI
    else if f1 == 0 then (if low == 0 then C_SUB else if low == 1 then C_XOR else if low == 2 then C_OR else C_AND)
    else if low == 0 then C_SUBW else C_ADDW
  }

  function FormQ2(h: bv32): Form {
    var f3 := COpcode(h);
    if f3 == 0 then C_SLLI
    else if f3 == 1 then C_FLDSP
    else if f3 == 2 then C_LWSP
    else if f3 == 3 then C_LDSP
    else if f3 == 4 then
      (if CFunct1(h) == 0 then (if Rc2(h) == 0 then C_JR else C_MV) else if Rc2(h) == 0 then C_JALR else C_ADD)
    else if f3 == 5 then C_FSDSP
    else if f3 == 6 then C_SWSP
    else C_SDSP
  }

  function FormOf(h: bv32): Form {
    if h & 3 == 0 then FormQ0(COpcode(h)) else if h & 3 == 1 then FormQ1(h) else FormQ2(h)
  }

  /** The halfword h is form c of the instruction that j stands for. */
  predicate Covers(c: Form, h: bv32, j: Inst) {
    Fits(c, Expansion(j)) && Assemble(c, Expansion(j)) == h && Decoded(Expansion(j)) == j
  }

  lemma CoverPlain(c: Form, h: bv32, i: Inst)
    requires !IsShiftImm(i.op) && !i.rvc && Fits(c, i) && Assemble(c, i) == h
    ensures Covers(c, h, Rvc(i))
  {
    hide Fits, Assemble;
    assert Expansion(Rvc(i)) == i;
  }

  lemma CoverCIW(w: bv16)
    requires w & 3 == 0 && COpcode(w as bv32) == 0 && CIWImm(w as bv32) != 0
    ensures var h := w as bv32; Covers(C_ADDI4SPN, h, Rvc(RecI(Imm(ADDI), Rp2(h), 2, CIWImm(h))))
  {
    hide LayCIW, COpcode, Rp2, CIWImm, Popular, FitsMask, Covers;
    var h := w as bv32;
    RebuildCIW(w);
    CoverPlain(C_ADDI4SPN, h, RecI(Imm(ADDI), Rp2(h), 2, CIWImm(h)));
  }

  lemma CoverCL8(w: bv16)
    requires w & 3 == 0
    ensures var h := w as bv32;
      && (COpcode(h) == 1 ==> Covers(C_FLD, h, Rvc(RecI(Fld, Rp2(h), Rp1(h), CSImm(h)))))
      && (COpcode(h) == 3 ==> Covers(C_LD, h, Rvc(RecI(Load(LD), Rp2(h), Rp1(h), CSImm(h)))))
      && (COpcode(h) == 5 ==> Covers(C_FSD, h, Rvc(RecS(Fsd, Rp1(h), Rp2(h), CSImm(h)))))
      && (COpcode(h) == 7 ==> Covers(C_SD, h, Rvc(RecS(Store(SD), Rp1(h), Rp2(h), CSImm(h)))))
  {
    hide LayCL8, COpcode, Rp1, Rp2, CSImm, Popular, FitsMask, Covers;
    var h := w as bv32;
    RebuildCL8(w);
    if COpcode(h) == 1 {
      CoverPlain(C_FLD, h, RecI(Fld, Rp2(h), Rp1(h), CSImm(h)));
    } else if COpcode(h) == 3 {
      CoverPlain(C_LD, h, RecI(Load(LD), Rp2(h), Rp1(h), CSImm(h)));
    } else if COpcode(h) == 5 {
      CoverPlain(C_FSD, h, RecS(Fsd, Rp1(h), Rp2(h), CSImm(h)));
    } else if COpcode(h) == 7 {
      CoverPlain(C_SD, h, RecS(Store(SD), Rp1(h), Rp2(h), CSImm(h)));
    }
  }

  lemma CoverCL4(w: bv16)
    requires w & 3 == 0
    ensures var h := w as bv32;
      && (COpcode(h) == 2 ==> Covers(C_LW, h, Rvc(RecI(Load(LW), Rp2(h), Rp1(h), CSImm2(h)))))
      && (COpcode(h) == 6 ==> Covers(C_SW, h, Rvc(RecS(Store(SW), Rp1(h), Rp2(h), CSImm2(h)))))
  {
    hide LayCL4, COpcode, Rp1, Rp2, CSImm2, Popular, FitsMask, Covers;
    var h := w as bv32;
    RebuildCL4(w);
    if COpcode(h) == 2 {
      CoverPlain(C_LW, h, RecI(Load(LW), Rp2(h), Rp1(h), CSImm2(h)));
    } else if COpcode(h) == 6 {
      CoverPlain(C_SW, h, RecS(Store(SW), Rp1(h), Rp2(h), CSImm2(h)));
    }
  }

  lemma CoverQ0(w: bv16, j: Inst)
    requires w & 3 == 0 && DecodeQ0(w as bv32) == Some(j)
    ensures Covers(FormQ0(COpcode(w as bv32)), w as bv32, j)
  {
    hide COpcode, Rp1, Rp2, CIWImm, CSImm, CSImm2, Covers;
    var f3 := COpcode(w as bv32);
    if f3 == 0 {
      CoverCIW(w);
    } else if f3 == 2 || f3 == 6 {
      CoverCL4(w);
    } else {
      CoverCL8(w);
    }
  }

  lemma CoverCI(w: bv16)
    requires w & 3 == 1
    ensures var h := w as bv32;
      && (COpcode(h) == 0 ==> Covers(C_ADDI, h, Rvc(RecI(Imm(ADDI), Rc1(h), Rc1(h), CIImm(h)))))
      && (COpcode(h) == 1 && Rc1(h) != 0 ==> Covers(C_ADDIW, h, Rvc(RecI(Imm(ADDIW), Rc1(h), Rc1(h), CIImm(h)))))
      && (COpcode(h) == 2 ==> Covers(C_LI, h, Rvc(RecI(Imm(ADDI), Rc1(h), 0, CIImm(h)))))
  {
    hide LayCI, COpcode, Rc1, CIImm, SignExtend, Covers;
    var h := w as bv32;
    RebuildCI(w, 1);
    RangeCI(h);
    if COpcode(h) == 0 {
      CoverPlain(C_ADDI, h, RecI(Imm(ADDI), Rc1(h), Rc1(h), CIImm(h)));
    } else if COpcode(h) == 1 && Rc1(h) != 0 {
      CoverPlain(C_ADDIW, h, RecI(Imm(ADDIW), Rc1(h), Rc1(h), CIImm(h)));
    } else if COpcode(h) == 2 {
      CoverPlain(C_LI, h, RecI(Imm(ADDI), Rc1(h), 0, CIImm(h)));
    }
  }

  lemma CoverCI16(w: bv16)
    requires w & 3 == 1 && COpcode(w as bv32) == 3 && Rc1(w as bv32) == 2 && CIImm3(w as bv32) != 0
    ensures var h := w as bv32; Covers(C_ADDI16SP, h, Rvc(RecI(Imm(ADDI), 2, 2, CIImm3(h))))
  {
    hide LayCI16, COpcode, Rc1, CIImm3, CIImm5, CBImm, CJImm, SignExtend, Covers;
    var h := w as bv32;
    RebuildCI16(w);
    RangeCI16(h);
    Granularity(h);
    CoverPlain(C_ADDI16SP, h, RecI(Imm(ADDI), 2, 2, CIImm3(h)));
  }

  lemma CoverCILui(w: bv16)
    requires w & 3 == 1 && COpcode(w as bv32) == 3 && Rc1(w as bv32) != 2 && CIImm5(w as bv32) != 0
    ensures var h := w as bv32; Covers(C_LUI, h, Rvc(RecU(Lui, Rc1(h), CIImm5(h))))
  {
    hide LayCILui, COpcode, Rc1, CIImm3, CIImm5, CBImm, CJImm, SignExtend, Covers;
    var h := w as bv32;
    RebuildCILui(w);
    RangeCILui(h);
    Granularity(h);
    CoverPlain(C_LUI, h, RecU(Lui, Rc1(h), CIImm5(h)));
  }

  lemma CoverCJ(w: bv16)
    requires w & 3 == 1 && COpcode(w as bv32) == 5
    ensures var h := w as bv32; Covers(C_J, h, Rvc(RecU(Jal, 0, CJImm(h))))
  {
    hide LayCJ, COpcode, CIImm3, CIImm5, CBImm, CJImm, SignExtend, Covers;
    var h := w as bv32;
    RebuildCJ(w);
    RangeCJ(h);
    Granularity(h);
    CoverPlain(C_J, h, RecU(Jal, 0, CJImm(h)));
  }

  lemma CoverCB(w: bv16)
    requires w & 3 == 1
    ensures var h := w as bv32;
      && (COpcode(h) == 6 ==> Covers(C_BEQZ, h, Rvc(RecS(Branch(BEQ), Rp1(h), 0, CBImm(h)))))
      && (COpcode(h) == 7 ==> Covers(C_BNEZ, h, Rvc(RecS(Branch(BNE), Rp1(h), 0, CBImm(h)))))
  {
    hide LayCB, COpcode, Rp1, CIImm3, CIImm5, CBImm, CJImm, SignExtend, Popular, Covers;
    var h := w as bv32;
    RebuildCB(w);
    RangeCB(h);
    Granularity(h);
    if COpcode(h) == 6 {
      CoverPlain(C_BEQZ, h, RecS(Branch(BEQ), Rp1(h), 0, CBImm(h)));
    } else if COpcode(h) == 7 {
      CoverPlain(C_BNEZ, h, RecS(Branch(BNE), Rp1(h), 0, CBImm(h)));
    }
  }

  lemma CoverCA(w: bv16, c: Form, k: RegOp)
    requires w & 3 == 1 && COpcode(w as bv32) == 4 && CFunct2High(w as bv32) == 3
    requires var h := w as bv32; c == FormAlu(3, CFunct1(h), CFunct2Low(h)) && k == CARegOp(CFunct1(h), CFunct2Low(h))
    requires CFunct1(w as bv32) == 1 ==> CFunct2Low(w as bv32) < 2
    ensures var h := w as bv32; Covers(c, h, Rvc(RecR(Reg(k), Rp1(h), Rp1(h), Rp2(h))))
  {
    hide LayCA, COpcode, CFunct1, CFunct2Low, CFunct2High, Rp1, Rp2, Popular, Covers;
    var h := w as bv32;
    RebuildCA(w);
    FitsCA(c, RecR(Reg(k), Rp1(h), Rp1(h), Rp2(h)), CFunct1(h), CFunct2Low(h));
    CoverPlain(c, h, RecR(Reg(k), Rp1(h), Rp1(h), Rp2(h)));
    hide Fits, Assemble, FormAlu, CARegOp;
  }

  lemma FitsCA(c: Form, i: Inst, f1: bv1, f2: bv2)
    requires c == FormAlu(3, f1, f2) && (f1 == 1 ==> f2 < 2)
    requires i == RecR(Reg(CARegOp(f1, f2)), i.rd, i.rd, i.rs2) && Popular(i.rd) && Popular(i.rs2)
    ensures Fits(c, i) && Assemble(c, i) == LayCA(f1, f2, i.rd, i.rs2)
  {
    hide LayCA, Popular;
    if f1 == 0 {
      if f2 == 0 { assert c == C_SUB; } else if f2 == 1 { assert c == C_XOR; } else if f2 == 2 { assert c == C_OR; } else { assert c == C_AND; }
    } else {
      if f2 == 0 { assert c == C_SUBW; } else { assert c == C_ADDW; }
    }
  }

  /** The three six-bit shifts, and C.ANDI which shares their layout. */
  lemma CoverCSrli(w: bv16)
    requires w & 3 == 1 && COpcode(w as bv32) == 4 && CFunct2High(w as bv32) == 0
    ensures var h := w as bv32; Covers(C_SRLI, h, Rvc(RecI(Imm(SRLI), Rp1(h), Rp1(h), CIImm(h))))
  {
    hide LayCBAlu, LayCI, COpcode, CFunct2High, Rp1, CIImm, SignExtend, Popular, FitsMask;
    var h := w as bv32;
    RebuildCBAlu(w);
    RangeCI(h);
    ShiftRange(CIImm(h));
    SixBits(CFunct2High(h), Rp1(h), 1, 0, CIImm(h));
  }

  lemma CoverCSrai(w: bv16)
    requires w & 3 == 1 && COpcode(w as bv32) == 4 && CFunct2High(w as bv32) == 1
    ensures var h := w as bv32; Covers(C_SRAI, h, Rvc(RecI(Imm(SRAI), Rp1(h), Rp1(h), CIImm(h))))
  {
    hide LayCBAlu, LayCI, COpcode, CFunct2High, Rp1, CIImm, SignExtend, Popular, FitsMask;
    var h := w as bv32;
    RebuildCBAlu(w);
    RangeCI(h);
    ShiftRange(CIImm(h));
    SixBits(CFunct2High(h), Rp1(h), 1, 0, CIImm(h));
  }

  lemma CoverCAndi(w: bv16)
    requires w & 3 == 1 && COpcode(w as bv32) == 4 && CFunct2High(w as bv32) == 2
    ensures var h := w as bv32; Covers(C_ANDI, h, Rvc(RecI(Imm(ANDI), Rp1(h), Rp1(h), CIImm(h))))
  {
    hide LayCBAlu, COpcode, CFunct2High, Rp1, CIImm, SignExtend, Popular, Covers;
    var h := w as bv32;
    RebuildCBAlu(w);
    RangeCI(h);
    CoverPlain(C_ANDI, h, RecI(Imm(ANDI), Rp1(h), Rp1(h), CIImm(h)));
  }

  lemma CoverCSlli(w: bv16)
    requires w & 3 == 2 && COpcode(w as bv32) == 0
    ensures var h := w as bv32; Covers(C_SLLI, h, Rvc(RecI(Imm(SLLI), Rc1(h), Rc1(h), CIImm(h))))
  {
    hide LayCBAlu, LayCI, COpcode, Rc1, CIImm, SignExtend, FitsMask;
    var h := w as bv32;
    RebuildCI(w, 2);
    RangeCI(h);
    ShiftRange(CIImm(h));
    SixBits(0, Rc1(h), 2, 0, CIImm(h));
  }

  lemma CoverCISP(w: bv16)
    requires w & 3 == 2
    ensures var h := w as bv32;
      && (COpcode(h) == 1 ==> Covers(C_FLDSP, h, Rvc(RecI(Fld, Rc1(h), 2, CIImm2(h)))))
      && (COpcode(h) == 2 && Rc1(h) != 0 ==> Covers(C_LWSP, h, Rvc(RecI(Load(LW), Rc1(h), 2, CIImm4(h)))))
      && (COpcode(h) == 3 && Rc1(h) != 0 ==> Covers(C_LDSP, h, Rvc(RecI(Load(LD), Rc1(h), 2, CIImm2(h)))))
  {
    hide LayCISP8, LayCISP4, COpcode, Rc1, CIImm2, CIImm4, FitsMask, Covers;
    var h := w as bv32;
    RebuildCISP8(w);
    RebuildCISP4(w);
    if COpcode(h) == 1 {
      CoverPlain(C_FLDSP, h, RecI(Fld, Rc1(h), 2, CIImm2(h)));
    } else if COpcode(h) == 2 && Rc1(h) != 0 {
      CoverPlain(C_LWSP, h, RecI(Load(LW), Rc1(h), 2, CIImm4(h)));
    } else if COpcode(h) == 3 && Rc1(h) != 0 {
      CoverPlain(C_LDSP, h, RecI(Load(LD), Rc1(h), 2, CIImm2(h)));
    }
  }

  lemma CoverCSS(w: bv16)
    requires w & 3 == 2
    ensures var h := w as bv32;
      && (COpcode(h) == 5 ==> Covers(C_FSDSP, h, Rvc(RecS(Fsd, 2, Rc2(h), CSSImm(h)))))
      && (COpcode(h) == 6 ==> Covers(C_SWSP, h, Rvc(RecS(Store(SW), 2, Rc2(h), CSSImm2(h)))))
      && (COpcode(h) == 7 ==> Covers(C_SDSP, h, Rvc(RecS(Store(SD), 2, Rc2(h), CSSImm(h)))))
  {
    hide LayCSS8, LayCSS4, COpcode, Rc2, CSSImm, CSSImm2, FitsMask, Covers;
    var h := w as bv32;
    RebuildCSS8(w);
    RebuildCSS4(w);
    if COpcode(h) == 5 {
      CoverPlain(C_FSDSP, h, RecS(Fsd, 2, Rc2(h), CSSImm(h)));
    } else if COpcode(h) == 6 {
      CoverPlain(C_SWSP, h, RecS(Store(SW), 2, Rc2(h), CSSImm2(h)));
    } else if COpcode(h) == 7 {
      CoverPlain(C_SDSP, h, RecS(Store(SD), 2, Rc2(h), CSSImm(h)));
    }
  }

  lemma CoverCR(w: bv16)
    requires w & 3 == 2 && COpcode(w as bv32) == 4
    ensures var h := w as bv32;
      && (CFunct1(h) == 0 && Rc2(h) == 0 && Rc1(h) != 0 ==> Covers(C_JR, h, Rvc(RecI(Jalr, 0, Rc1(h), 0))))
      && (CFunct1(h) == 0 && Rc2(h) != 0 ==> Covers(C_MV, h, Rvc(RecR(Reg(ADD), Rc1(h), 0, Rc2(h)))))
      && (CFunct1(h) == 1 && Rc2(h) == 0 && Rc1(h) != 0 ==> Covers(C_JALR, h, Rvc(RecI(Jalr, 1, Rc1(h), 0))))
      && (CFunct1(h) == 1 && Rc2(h) != 0 ==> Covers(C_ADD, h, Rvc(RecR(Reg(ADD), Rc1(h), Rc1(h), Rc2(h)))))
  {
    hide LayCR, COpcode, CFunct1, Rc1, Rc2, Covers;
    var h := w as bv32;
    RebuildCR(w);
    if Rc2(h) == 0 && Rc1(h) != 0 {
      if CFunct1(h) == 0 {
        CoverPlain(C_JR, h, RecI(Jalr, 0, Rc1(h), 0));
      } else {
        CoverPlain(C_JALR, h, RecI(Jalr, 1, Rc1(h), 0));
      }
    } else if Rc2(h) != 0 {
      if CFunct1(h) == 0 {
        CoverPlain(C_MV, h, RecR(Reg(ADD), Rc1(h), 0, Rc2(h)));
      } else {
        CoverPlain(C_ADD, h, RecR(Reg(ADD), Rc1(h), Rc1(h), Rc2(h)));
      }
    }
  }

  lemma CoverAlu(w: bv16, j: Inst)
    requires w & 3 == 1 && COpcode(w as bv32) == 4 && DecodeCAlu(w as bv32) == Some(j)
    ensures var h := w as bv32; Covers(FormAlu(CFunct2High(h), CFunct1(h), CFunct2Low(h)), h, j)
  {
    hide COpcode, CFunct1, CFunct2Low, CFunct2High, Rp1, Rp2, CIImm, Covers;
    var h := w as bv32;
    if CFunct2High(h) == 3 {
      CoverCA(w, FormAlu(3, CFunct1(h), CFunct2Low(h)), CARegOp(CFunct1(h), CFunct2Low(h)));
    } else if CFunct2High(h) == 0 {
      CoverCSrli(w);
    } else if CFunct2High(h) == 1 {
      CoverCSrai(w);
    } else {
      CoverCAndi(w);
    }
  }

  lemma CoverQ1(w: bv16, j: Inst)
    requires w & 3 == 1 && DecodeQ1(w as bv32) == Some(j)
    ensures Covers(FormQ1(w as bv32), w as bv32, j)
  {
    hide COpcode, CFunct1, CFunct2Low, CFunct2High, Rp1, Rp2, Rc1, CIImm, CIImm3, CIImm5, CBImm, CJImm, DecodeCAlu, FormAlu, Covers;
    var f3 := COpcode(w as bv32);
    if f3 == 3 {
      if Rc1(w as bv32) == 2 { CoverCI16(w); } else { CoverCILui(w); }
    } else if f3 == 4 {
      CoverAlu(w, j);
    } else if f3 == 5 {
      CoverCJ(w);
    } else if f3 < 3 {
      CoverCI(w);
    } else {
      CoverCB(w);
    }
  }

  lemma CoverQ2Jumps(w: bv16, j: Inst)
    requires w & 3 == 2 && COpcode(w as bv32) == 4 && DecodeCJump(w as bv32) == Some(j)
    ensures Covers(FormQ2(w as bv32), w as bv32, j)
  {
    hide COpcode, CFunct1, Rc1, Rc2, Covers;
    CoverCR(w);
  }

  lemma CoverQ2(w: bv16, j: Inst)
    requires w & 3 == 2 && DecodeQ2(w as bv32) == Some(j)
    ensures Covers(FormQ2(w as bv32), w as bv32, j)
  {
    hide COpcode, CFunct1, Rc1, Rc2, CIImm, CIImm2, CIImm4, CSSImm, CSSImm2, Covers, DecodeCJump;
    var f3 := COpcode(w as bv32);
    if f3 == 0 {
      CoverCSlli(w);
    } else if f3 < 4 {
      CoverCISP(w);
    } else if f3 == 4 {
      CoverQ2Jumps(w, j);
    } else {
      CoverCSS(w);
    }
  }
}
