/** The instruction formats of the standard in the encoding direction (sections 2.2 and 2.3
    and the opcode listings of chapter 24 of the RISC-V Unprivileged ISA, version 20191213),
    and the proof that `decode_inst` inverts them. */
module Assembler {
  import opened Words
  import opened Instruction
  import opened Decode

  // ---- formats ----

  function EncR(o: bv5, f3: bv3, f7: bv7, rd: bv5, rs1: bv5, rs2: bv5): bv32 {
    3 | ((o as bv32) << 2) | ((rd as bv32) << 7) | ((f3 as bv32) << 12) | ((rs1 as bv32) << 15) | ((rs2 as bv32) << 20) | ((f7 as bv32) << 25)
  }

  function EncI(o: bv5, f3: bv3, rd: bv5, rs1: bv5, imm: bv32): bv32 {
    3 | ((o as bv32) << 2) | ((rd as bv32) << 7) | ((f3 as bv32) << 12) | ((rs1 as bv32) << 15) | ((imm & 0xfff) << 20)
  }

  /** imm[4:0] where an R-type has rd, imm[11:5] where it has funct7. */
  function EncS(o: bv5, f3: bv3, rs1: bv5, rs2: bv5, imm: bv32): bv32 {
    3 | ((o as bv32) << 2) | ((imm & 0x1f) << 7) | ((f3 as bv32) << 12) | ((rs1 as bv32) << 15) | ((rs2 as bv32) << 20)
    | (((imm >> 5) & 0x7f) << 25)
  }

  /** imm[4:1|11] where an R-type has rd, imm[12|10:5] where it has funct7. */
  function EncB(o: bv5, f3: bv3, rs1: bv5, rs2: bv5, imm: bv32): bv32 {
    3 | ((o as bv32) << 2) | (BLow(imm) << 7) | ((f3 as bv32) << 12) | ((rs1 as bv32) << 15) | ((rs2 as bv32) << 20)
    | (BHigh(imm) << 25)
  }
  function BLow(imm: bv32): bv32 { ((imm >> 11) & 1) | (((imm >> 1) & 0xf) << 1) }
  function BHigh(imm: bv32): bv32 { ((imm >> 5) & 0x3f) | (((imm >> 12) & 1) << 6) }

  function EncU(o: bv5, rd: bv5, imm: bv32): bv32 {
    3 | ((o as bv32) << 2) | ((rd as bv32) << 7) | (imm & 0xffff_f000)
  }

  /** imm[20|10:1|11|19:12] in bits 31:12. */
  function EncJ(o: bv5, rd: bv5, imm: bv32): bv32 {
    3 | ((o as bv32) << 2) | ((rd as bv32) << 7) | JBits(imm)
  }
  function JBits(imm: bv32): bv32 {
    (((imm >> 12) & 0xff) << 12) | (((imm >> 11) & 1) << 20) | (((imm >> 1) & 0x3ff) << 21) | (((imm >> 20) & 1) << 31)
  }

  // ---- opcode tables ----

  function LoadF3(k: LoadOp): bv3 {
    match k case LB => 0 case LH => 1 case LW => 2 case LD => 3 case LBU => 4 case LHU => 5 case LWU => 6
  }

  function StoreF3(k: StoreOp): bv3 { match k case SB => 0 case SH => 1 case SW => 2 case SD => 3 }

  predicate IsWordImm(k: ImmOp) { k in {ADDIW, SLLIW, SRLIW, SRAIW} }

  function ImmF3(k: ImmOp): bv3 {
    match k
    case ADDI => 0 case SLLI => 1 case SLTI => 2 case SLTIU => 3 case XORI => 4
    case SRLI => 5 case SRAI => 5 case ORI => 6 case ANDI => 7
    case ADDIW => 0 case SLLIW => 1 case SRLIW => 5 case SRAIW => 5
  }

  predicate IsWordReg(k: RegOp) {
    k in {ADDW, SUBW, SLLW, SRLW, SRAW, MULW, DIVW, DIVUW, REMW, REMUW}
  }

  function RegF3(k: RegOp): bv3 {
    match k
    case ADD => 0 case SUB => 0 case SLL => 1 case SLT => 2 case SLTU => 3 case XOR => 4
    case SRL => 5 case SRA => 5 case OR => 6 case AND => 7
    case MUL => 0 case MULH => 1 case MULHSU => 2 case MULHU => 3
    case DIV => 4 case DIVU => 5 case REM => 6 case REMU => 7
    case ADDW => 0 case SUBW => 0 case SLLW => 1 case SRLW => 5 case SRAW => 5
    case MULW => 0 case DIVW => 4 case DIVUW => 5 case REMW => 6 case REMUW => 7
  }

  function RegF7(k: RegOp): bv7 {
    if k in {SUB, SRA, SUBW, SRAW} then 0x20
    else if k in {MUL, MULH, MULHSU, MULHU, DIV, DIVU, REM, REMU, MULW, DIVW, DIVUW, REMW, REMUW} then 1
    else 0
  }

  function BranchF3(k: BranchOp): bv3 {
    match k case BEQ => 0 case BNE => 1 case BLT => 4 case BGE => 5 case BLTU => 6 case BGEU => 7
  }

  function CsrF3(k: CsrOp): bv3 {
    match k case CSRRW => 1 case CSRRS => 2 case CSRRC => 3 case CSRRWI => 5 case CSRRSI => 6 case CSRRCI => 7
  }

  /** Everything except floating-point computation, which is treated separately below. */
  function Encode(i: Inst): bv32
    requires !i.op.Fp?
  {
    match i.op
    case Load(k) => EncI(0x00, LoadF3(k), i.rd, i.rs1, i.imm)
    case Flw => EncI(0x01, 2, i.rd, i.rs1, i.imm)
    case Fld => EncI(0x01, 3, i.rd, i.rs1, i.imm)
    case Fence => 0x0f
    case FenceI => 0x100f
    case Imm(k) => EncI(ImmOpcode(k), ImmF3(k), i.rd, i.rs1, i.imm)
    case Auipc => EncU(0x05, i.rd, i.imm)
    case Store(k) => EncS(0x08, StoreF3(k), i.rs1, i.rs2, i.imm)
    case Fsw => EncS(0x09, 2, i.rs1, i.rs2, i.imm)
    case Fsd => EncS(0x09, 3, i.rs1, i.rs2, i.imm)
    case Reg(k) => EncR(RegOpcode(k), RegF3(k), RegF7(k), i.rd, i.rs1, i.rs2)
    case Lui => EncU(0x0d, i.rd, i.imm)
    case Branch(k) => EncB(0x18, BranchF3(k), i.rs1, i.rs2, i.imm)
    case Jalr => EncI(0x19, 0, i.rd, i.rs1, i.imm)
    case Jal => EncJ(0x1b, i.rd, i.imm)
    case Ecall => 0x73
    case Csr(k) => EncI(0x1c, CsrF3(k), i.rd, i.rs1, i.csr as bv32)
  }

  // ---- the immediates the standard allows ----

  /** Twelve signed bits; thirteen and twenty-one signed even ones; twenty high bits. */
  predicate Imm12(imm: bv32) { SignExtend(imm, 20) == imm }
  predicate Imm13(imm: bv32) { SignExtend(imm, 19) == imm && imm & 1 == 0 }
  predicate Imm21(imm: bv32) { SignExtend(imm, 11) == imm && imm & 1 == 0 }
  predicate Imm32(imm: bv32) { imm & 0xfff == 0 }

  /** Shift immediates carry the operation in their high bits. */
  predicate ImmOk(k: ImmOp, imm: bv32) {
    match k
    case SLLI => imm & 0xffff_ffc0 == 0
    case SRLI => imm & 0xffff_ffc0 == 0
    case SRAI => imm & 0xffff_ffc0 == 0x400
    case SLLIW => imm & 0xffff_ffe0 == 0
    case SRLIW => imm & 0xffff_ffe0 == 0
    case SRAIW => imm & 0xffff_ffe0 == 0x400
    case _ => Imm12(imm)
  }

  /** The record of each format: the fields the format does not have are zero. */
  function RecR(op: Op, rd: bv5, rs1: bv5, rs2: bv5): Inst { Inst(rd, rs1, rs2, 0, 0, 0, op, false, false) }
  function RecI(op: Op, rd: bv5, rs1: bv5, imm: bv32): Inst { Inst(rd, rs1, 0, 0, imm, 0, op, false, op.Jalr?) }
  function RecS(op: Op, rs1: bv5, rs2: bv5, imm: bv32): Inst { Inst(0, rs1, rs2, 0, imm, 0, op, false, false) }
  function RecU(op: Op, rd: bv5, imm: bv32): Inst { Inst(rd, 0, 0, 0, imm, 0, op, false, op.Jal?) }
  function RecCsr(op: Op, rd: bv5, rs1: bv5, csr: bv16): Inst { Inst(rd, rs1, 0, 0, 0, csr, op, false, false) }

  /** The records a 32-bit instruction may decode to. */
  predicate WellFormed(i: Inst) {
    match i.op
    case Load(_) => Imm12(i.imm) && i == RecI(i.op, i.rd, i.rs1, i.imm)
    case Flw => Imm12(i.imm) && i == RecI(i.op, i.rd, i.rs1, i.imm)
    case Fld => Imm12(i.imm) && i == RecI(i.op, i.rd, i.rs1, i.imm)
    case Jalr => Imm12(i.imm) && i == RecI(i.op, i.rd, i.rs1, i.imm)
    case Imm(k) => ImmOk(k, i.imm) && i == RecI(i.op, i.rd, i.rs1, i.imm)
    case Store(_) => Imm12(i.imm) && i == RecS(i.op, i.rs1, i.rs2, i.imm)
    case Fsw => Imm12(i.imm) && i == RecS(i.op, i.rs1, i.rs2, i.imm)
    case Fsd => Imm12(i.imm) && i == RecS(i.op, i.rs1, i.rs2, i.imm)
    case Branch(_) => Imm13(i.imm) && i == RecS(i.op, i.rs1, i.rs2, i.imm)
    case Reg(_) => i == RecR(i.op, i.rd, i.rs1, i.rs2)
    case Lui => Imm32(i.imm) && i == RecU(i.op, i.rd, i.imm)
    case Auipc => Imm32(i.imm) && i == RecU(i.op, i.rd, i.imm)
    case Jal => Imm21(i.imm) && i == RecU(i.op, i.rd, i.imm)
    case Csr(_) => i.csr & 0xf000 == 0 && i == RecCsr(i.op, i.rd, i.rs1, i.csr)
    case Fence => i == BLANK.(op := Fence)
    case FenceI => i == BLANK.(op := FenceI)
    case Ecall => i == BLANK.(op := Ecall, continueExec := true)
    case Fp(_) => false
  }

  // ---- reading a format back ----

  lemma ReadR(o: bv5, f3: bv3, f7: bv7, rd: bv5, rs1: bv5, rs2: bv5)
    ensures var d := EncR(o, f3, f7, rd, rs1, rs2);
      && d & 3 == 3 && Opcode(d) == o && Funct3(d) == f3 && Funct7(d) == f7
      && Rd(d) == rd && Rs1(d) == rs1 && Rs2(d) == rs2
  {
  }

  lemma ReadI(o: bv5, f3: bv3, rd: bv5, rs1: bv5, imm: bv32)
    ensures var d := EncI(o, f3, rd, rs1, imm);
      && d & 3 == 3 && Opcode(d) == o && Funct3(d) == f3 && Rd(d) == rd && Rs1(d) == rs1
  {
  }

  lemma ReadIImm(o: bv5, f3: bv3, rd: bv5, rs1: bv5, imm: bv32)
    ensures var d := EncI(o, f3, rd, rs1, imm);
      && d >> 20 == imm & 0xfff
      && IImm(d) == SignExtend(imm, 20)
      && Imm116(d) == ((imm >> 6) & 0x3f) as bv6 && Funct7(d) == ((imm >> 5) & 0x7f) as bv7
  {
    TopBits(o, f3, rd, rs1, imm);
    HighBits(EncI(o, f3, rd, rs1, imm), imm);
  }

  lemma TopBits(o: bv5, f3: bv3, rd: bv5, rs1: bv5, imm: bv32)
    ensures EncI(o, f3, rd, rs1, imm) >> 20 == imm & 0xfff
  {
  }

  /** Everything an I-type immediate determines lies in bits 31:20. */
  lemma HighBits(d: bv32, imm: bv32)
    requires d >> 20 == imm & 0xfff
    ensures IImm(d) == SignExtend(imm, 20)
    ensures Imm116(d) == ((imm >> 6) & 0x3f) as bv6 && Funct7(d) == ((imm >> 5) & 0x7f) as bv7
  {
  }

  lemma ReadS(o: bv5, f3: bv3, rs1: bv5, rs2: bv5, imm: bv32)
    ensures var d := EncS(o, f3, rs1, rs2, imm);
      && d & 3 == 3 && Opcode(d) == o && Funct3(d) == f3 && Rs1(d) == rs1 && Rs2(d) == rs2
      && SImm(d) == SignExtend(imm, 20)
  {
  }

  lemma ReadB(o: bv5, f3: bv3, rs1: bv5, rs2: bv5, imm: bv32)
    ensures var d := EncB(o, f3, rs1, rs2, imm);
      && d & 3 == 3 && Opcode(d) == o && Funct3(d) == f3 && Rs1(d) == rs1 && Rs2(d) == rs2
      && BImm(d) == SignExtend(imm & 0xffff_fffe, 19)
  {
  }

  lemma ReadU(o: bv5, rd: bv5, imm: bv32)
    ensures var d := EncU(o, rd, imm);
      d & 3 == 3 && Opcode(d) == o && Rd(d) == rd && UImm(d) == imm & 0xffff_f000
  {
  }

  lemma ReadJ(o: bv5, rd: bv5, imm: bv32)
    ensures var d := EncJ(o, rd, imm);
      d & 3 == 3 && Opcode(d) == o && Rd(d) == rd && JImm(d) == SignExtend(imm & 0xffff_fffe, 11)
  {
  }

  // ---- which branch of decode_inst an opcode takes ----

  lemma SelectLoad(prev: Inst, d: bv32)
    requires d & 3 == 3 && Opcode(d) == 0x00
    ensures DecodeInst(prev, d) == WithOp(IType(d), LoadOpOf(Funct3(d)))
  {
  }

  lemma SelectFpLoad(prev: Inst, d: bv32)
    requires d & 3 == 3 && Opcode(d) == 0x01
    ensures DecodeInst(prev, d) ==
      if Funct3(d) == 2 then Some(IType(d).(op := Flw)) else if Funct3(d) == 3 then Some(IType(d).(op := Fld)) else None
  {
  }

  lemma SelectImm(prev: Inst, d: bv32)
    requires d & 3 == 3 && (Opcode(d) == 0x04 || Opcode(d) == 0x06)
    ensures DecodeInst(prev, d) == WithOp(IType(d),
      if Opcode(d) == 0x04 then ImmOpOf(Funct3(d), Imm116(d)) else ImmWordOpOf(Funct3(d), Funct7(d)))
  {
  }

  lemma SelectStore(prev: Inst, d: bv32)
    requires d & 3 == 3 && Opcode(d) == 0x08
    ensures DecodeInst(prev, d) == WithOp(SType(d), StoreOpOf(Funct3(d)))
  {
  }

  lemma SelectFpStore(prev: Inst, d: bv32)
    requires d & 3 == 3 && Opcode(d) == 0x09
    ensures DecodeInst(prev, d) ==
      if Funct3(d) == 2 then Some(SType(d).(op := Fsw)) else if Funct3(d) == 3 then Some(SType(d).(op := Fsd)) else None
  {
  }

  lemma SelectReg(prev: Inst, d: bv32)
    requires d & 3 == 3 && (Opcode(d) == 0x0c || Opcode(d) == 0x0e)
    ensures DecodeInst(prev, d) == WithOp(RType(d),
      if Opcode(d) == 0x0c then RegOpOf(Funct3(d), Funct7(d)) else RegWordOpOf(Funct3(d), Funct7(d)))
  {
  }

  lemma SelectUpper(prev: Inst, d: bv32)
    requires d & 3 == 3 && (Opcode(d) == 0x05 || Opcode(d) == 0x0d)
    ensures DecodeInst(prev, d) == Some(UType(d).(op := if Opcode(d) == 0x05 then Auipc else Lui))
  {
  }

  lemma SelectBranch(prev: Inst, d: bv32)
    requires d & 3 == 3 && Opcode(d) == 0x18
    ensures DecodeInst(prev, d) == WithOp(BType(d), BranchOpOf(Funct3(d)))
  {
  }

  lemma SelectJump(prev: Inst, d: bv32)
    requires d & 3 == 3 && (Opcode(d) == 0x19 || Opcode(d) == 0x1b)
    ensures DecodeInst(prev, d) ==
      if Opcode(d) == 0x19 then Some(IType(d).(op := Jalr, continueExec := true))
      else Some(JType(d).(op := Jal, continueExec := true))
  {
  }

  lemma SelectSystem(prev: Inst, d: bv32)
    requires d & 3 == 3 && Opcode(d) == 0x1c
    ensures DecodeInst(prev, d) ==
      if d == 0x73 then Some(prev.(op := Ecall, continueExec := true)) else WithOp(CsrType(d), CsrOpOf(Funct3(d)))
  {
  }

  // ---- decoding what was encoded ----

  lemma LoadRoundTrip(prev: Inst, k: LoadOp, rd: bv5, rs1: bv5, imm: bv32)
    requires Imm12(imm)
    ensures DecodeInst(prev, EncI(0x00, LoadF3(k), rd, rs1, imm)) == Some(RecI(Load(k), rd, rs1, imm))
  {
    hide DecodeInst, EncI;
    ReadI(0x00, LoadF3(k), rd, rs1, imm);
    ReadIImm(0x00, LoadF3(k), rd, rs1, imm);
    SelectLoad(prev, EncI(0x00, LoadF3(k), rd, rs1, imm));
  }

  lemma FpLoadRoundTrip(prev: Inst, rd: bv5, rs1: bv5, imm: bv32)
    requires Imm12(imm)
    ensures DecodeInst(prev, EncI(0x01, 2, rd, rs1, imm)) == Some(RecI(Flw, rd, rs1, imm))
    ensures DecodeInst(prev, EncI(0x01, 3, rd, rs1, imm)) == Some(RecI(Fld, rd, rs1, imm))
  {
    hide DecodeInst, EncI;
    forall f3: bv3 | f3 == 2 || f3 == 3
      ensures DecodeInst(prev, EncI(0x01, f3, rd, rs1, imm)) == Some(RecI(if f3 == 2 then Flw else Fld, rd, rs1, imm))
    {
      ReadI(0x01, f3, rd, rs1, imm);
      ReadIImm(0x01, f3, rd, rs1, imm);
      SelectFpLoad(prev, EncI(0x01, f3, rd, rs1, imm));
    }
  }

  /** The bits an I-type operation is selected by, for each immediate it may carry. */
  lemma ImmSelectors(k: ImmOp, imm: bv32)
    requires ImmOk(k, imm)
    ensures Imm12(imm)
    ensures !IsWordImm(k) ==> ImmOpOf(ImmF3(k), ((imm >> 6) & 0x3f) as bv6) == Some(Imm(k))
    ensures IsWordImm(k) ==> ImmWordOpOf(ImmF3(k), ((imm >> 5) & 0x7f) as bv7) == Some(Imm(k))
  {
    hide SignExtend;
    match k {
      case SLLI => ShiftField(imm, 0);
      case SRLI => ShiftField(imm, 0);
      case SRAI => ShiftField(imm, 0x400);
      case SLLIW => WordShiftField(imm, 0);
      case SRLIW => WordShiftField(imm, 0);
      case SRAIW => WordShiftField(imm, 0x400);
      case _ =>
    }
  }

  lemma ShiftField(imm: bv32, high: bv32)
    requires high == 0 || high == 0x400
    requires imm & 0xffff_ffc0 == high
    ensures (imm >> 6) & 0x3f == high >> 6 && SignExtend(imm, 20) == imm
  {
  }

  lemma WordShiftField(imm: bv32, high: bv32)
    requires high == 0 || high == 0x400
    requires imm & 0xffff_ffe0 == high
    ensures (imm >> 5) & 0x7f == high >> 5 && SignExtend(imm, 20) == imm
  {
  }

  function ImmOpcode(k: ImmOp): bv5 { if IsWordImm(k) then 0x06 else 0x04 }
  function RegOpcode(k: RegOp): bv5 { if IsWordReg(k) then 0x0e else 0x0c }

  lemma ImmRoundTrip(prev: Inst, k: ImmOp, rd: bv5, rs1: bv5, imm: bv32)
    requires ImmOk(k, imm)
    ensures DecodeInst(prev, EncI(ImmOpcode(k), ImmF3(k), rd, rs1, imm)) == Some(RecI(Imm(k), rd, rs1, imm))
  {
    hide DecodeInst, EncI;
    var o := ImmOpcode(k);
    ReadI(o, ImmF3(k), rd, rs1, imm);
    ReadIImm(o, ImmF3(k), rd, rs1, imm);
    ImmSelectors(k, imm);
    SelectImm(prev, EncI(o, ImmF3(k), rd, rs1, imm));
  }

  lemma StoreRoundTrip(prev: Inst, k: StoreOp, rs1: bv5, rs2: bv5, imm: bv32)
    requires Imm12(imm)
    ensures DecodeInst(prev, EncS(0x08, StoreF3(k), rs1, rs2, imm)) == Some(RecS(Store(k), rs1, rs2, imm))
  {
    hide DecodeInst, EncS;
    ReadS(0x08, StoreF3(k), rs1, rs2, imm);
    SelectStore(prev, EncS(0x08, StoreF3(k), rs1, rs2, imm));
  }

  lemma FpStoreRoundTrip(prev: Inst, rs1: bv5, rs2: bv5, imm: bv32)
    requires Imm12(imm)
    ensures DecodeInst(prev, EncS(0x09, 2, rs1, rs2, imm)) == Some(RecS(Fsw, rs1, rs2, imm))
    ensures DecodeInst(prev, EncS(0x09, 3, rs1, rs2, imm)) == Some(RecS(Fsd, rs1, rs2, imm))
  {
    hide DecodeInst, EncS;
    forall f3: bv3 | f3 == 2 || f3 == 3
      ensures DecodeInst(prev, EncS(0x09, f3, rs1, rs2, imm)) == Some(RecS(if f3 == 2 then Fsw else Fsd, rs1, rs2, imm))
    {
      ReadS(0x09, f3, rs1, rs2, imm);
      SelectFpStore(prev, EncS(0x09, f3, rs1, rs2, imm));
    }
  }

  lemma RegSelectors(k: RegOp)
    ensures !IsWordReg(k) ==> RegOpOf(RegF3(k), RegF7(k)) == Some(Reg(k))
    ensures IsWordReg(k) ==> RegWordOpOf(RegF3(k), RegF7(k)) == Some(Reg(k))
  {
  }

  lemma RegRoundTrip(prev: Inst, k: RegOp, rd: bv5, rs1: bv5, rs2: bv5)
    ensures DecodeInst(prev, EncR(RegOpcode(k), RegF3(k), RegF7(k), rd, rs1, rs2)) == Some(RecR(Reg(k), rd, rs1, rs2))
  {
    hide DecodeInst, EncR;
    RegSelectors(k);
    ReadR(RegOpcode(k), RegF3(k), RegF7(k), rd, rs1, rs2);
    SelectReg(prev, EncR(RegOpcode(k), RegF3(k), RegF7(k), rd, rs1, rs2));
  }

  lemma BranchRoundTrip(prev: Inst, k: BranchOp, rs1: bv5, rs2: bv5, imm: bv32)
    requires Imm13(imm)
    ensures DecodeInst(prev, EncB(0x18, BranchF3(k), rs1, rs2, imm)) == Some(RecS(Branch(k), rs1, rs2, imm))
  {
    hide DecodeInst, EncB;
    ReadB(0x18, BranchF3(k), rs1, rs2, imm);
    EvenBits(imm);
    SelectBranch(prev, EncB(0x18, BranchF3(k), rs1, rs2, imm));
  }

  lemma EvenBits(imm: bv32)
    requires imm & 1 == 0
    ensures imm & 0xffff_fffe == imm
  {
  }

  lemma JumpRoundTrip(prev: Inst, rd: bv5, rs1: bv5, imm: bv32)
    ensures Imm12(imm) ==> DecodeInst(prev, EncI(0x19, 0, rd, rs1, imm)) == Some(RecI(Jalr, rd, rs1, imm))
    ensures Imm21(imm) ==> DecodeInst(prev, EncJ(0x1b, rd, imm)) == Some(RecU(Jal, rd, imm))
  {
    hide DecodeInst, EncI, EncJ;
    ReadI(0x19, 0, rd, rs1, imm);
    ReadIImm(0x19, 0, rd, rs1, imm);
    SelectJump(prev, EncI(0x19, 0, rd, rs1, imm));
    ReadJ(0x1b, rd, imm);
    if imm & 1 == 0 { EvenBits(imm); }
    SelectJump(prev, EncJ(0x1b, rd, imm));
  }

  lemma CsrRoundTrip(prev: Inst, k: CsrOp, rd: bv5, rs1: bv5, csr: bv16)
    requires csr & 0xf000 == 0
    ensures DecodeInst(prev, EncI(0x1c, CsrF3(k), rd, rs1, csr as bv32)) == Some(RecCsr(Csr(k), rd, rs1, csr))
  {
    hide DecodeInst, EncI, CsrF3, CsrOpOf, Funct3, Opcode, Rd, Rs1, CsrType;
    var d := EncI(0x1c, CsrF3(k), rd, rs1, csr as bv32);
    ReadI(0x1c, CsrF3(k), rd, rs1, csr as bv32);
    TopBits(0x1c, CsrF3(k), rd, rs1, csr as bv32);
    CsrField(d, csr);
    CsrSelectors(k);
    NotEcall(d);
    SelectSystem(prev, d);
  }

  lemma CsrSelectors(k: CsrOp)
    ensures CsrOpOf(CsrF3(k)) == Some(Csr(k)) && CsrF3(k) != 0
  {
  }

  lemma NotEcall(d: bv32)
    requires Funct3(d) != 0
    ensures d != 0x73
  {
  }

  lemma CsrField(d: bv32, csr: bv16)
    requires csr & 0xf000 == 0 && d >> 20 == (csr as bv32) & 0xfff
    ensures CsrType(d) == BLANK.(csr := csr, rs1 := Rs1(d), rd := Rd(d))
  {
  }

  lemma UpperRoundTrip(prev: Inst, rd: bv5, imm: bv32)
    requires Imm32(imm)
    ensures DecodeInst(prev, EncU(0x0d, rd, imm)) == Some(RecU(Lui, rd, imm))
    ensures DecodeInst(prev, EncU(0x05, rd, imm)) == Some(RecU(Auipc, rd, imm))
  {
    hide DecodeInst, EncU;
    ReadU(0x0d, rd, imm);
    ReadU(0x05, rd, imm);
    SelectUpper(prev, EncU(0x0d, rd, imm));
    SelectUpper(prev, EncU(0x05, rd, imm));
    HighImm(imm);
  }

  lemma HighImm(imm: bv32)
    requires imm & 0xfff == 0
    ensures imm & 0xffff_f000 == imm
  {
  }

  lemma FixedWords(prev: Inst)
    ensures DecodeInst(prev, 0x0f) == Some(BLANK.(op := Fence))
    ensures DecodeInst(prev, 0x100f) == Some(BLANK.(op := FenceI))
    ensures DecodeInst(prev, 0x73) == Some(prev.(op := Ecall, continueExec := true))
  {
  }

  lemma LoadsRoundTrip(prev: Inst, i: Inst)
    requires WellFormed(i) && (i.op.Load? || i.op.Flw? || i.op.Fld?)
    ensures DecodeInst(prev, Encode(i)) == Some(i)
  {
    hide DecodeInst, EncI, SignExtend, LoadF3;
    match i.op
    case Load(k) => LoadRoundTrip(prev, k, i.rd, i.rs1, i.imm);
    case Flw => FpLoadRoundTrip(prev, i.rd, i.rs1, i.imm);
    case Fld => FpLoadRoundTrip(prev, i.rd, i.rs1, i.imm);
  }

  lemma StoresRoundTrip(prev: Inst, i: Inst)
    requires WellFormed(i) && (i.op.Store? || i.op.Fsw? || i.op.Fsd?)
    ensures DecodeInst(prev, Encode(i)) == Some(i)
  {
    hide DecodeInst, EncS, SignExtend, StoreF3;
    match i.op
    case Store(k) => StoreRoundTrip(prev, k, i.rs1, i.rs2, i.imm);
    case Fsw => FpStoreRoundTrip(prev, i.rs1, i.rs2, i.imm);
    case Fsd => FpStoreRoundTrip(prev, i.rs1, i.rs2, i.imm);
  }

  lemma ComputeRoundTrip(prev: Inst, i: Inst)
    requires WellFormed(i) && (i.op.Imm? || i.op.Reg? || i.op.Lui? || i.op.Auipc? || i.op.Csr?)
    ensures DecodeInst(prev, Encode(i)) == Some(i)
  {
    hide DecodeInst, EncI, EncR, EncU, ImmOk, ImmF3, RegF3, RegF7, CsrF3, ImmOpcode, RegOpcode, Imm32;
    match i.op
    case Imm(k) => ImmRoundTrip(prev, k, i.rd, i.rs1, i.imm);
    case Reg(k) => RegRoundTrip(prev, k, i.rd, i.rs1, i.rs2);
    case Lui => UpperRoundTrip(prev, i.rd, i.imm);
    case Auipc => UpperRoundTrip(prev, i.rd, i.imm);
    case Csr(k) => CsrRoundTrip(prev, k, i.rd, i.rs1, i.csr);
  }

  lemma ControlRoundTrip(prev: Inst, i: Inst)
    requires WellFormed(i) && (i.op.Branch? || i.op.Jalr? || i.op.Jal?)
    ensures DecodeInst(prev, Encode(i)) == Some(i)
  {
    hide DecodeInst, EncI, EncB, EncJ, Imm12, Imm13, Imm21, BranchF3;
    match i.op
    case Branch(k) => BranchRoundTrip(prev, k, i.rs1, i.rs2, i.imm);
    case Jalr => JumpRoundTrip(prev, i.rd, i.rs1, i.imm);
    case Jal => JumpRoundTrip(prev, i.rd, i.rs1, i.imm);
  }

  /** Decoding inverts the standard's encoding: every well-formed 32-bit instruction comes
      back as itself, whatever the reused record held before. ECALL alone keeps the fields it
      does not write. */
  lemma EncodeThenDecode(prev: Inst, i: Inst)
    requires WellFormed(i)
    ensures DecodeInst(prev, Encode(i))
         == Some(if i.op.Ecall? then prev.(op := Ecall, continueExec := true) else i)
  {
    hide DecodeInst, EncI, EncR, EncS, EncB, EncU, EncJ, SignExtend;
    if i.op.Load? || i.op.Flw? || i.op.Fld? {
      LoadsRoundTrip(prev, i);
    } else if i.op.Store? || i.op.Fsw? || i.op.Fsd? {
      StoresRoundTrip(prev, i);
    } else if i.op.Imm? || i.op.Reg? || i.op.Lui? || i.op.Auipc? || i.op.Csr? {
      ComputeRoundTrip(prev, i);
    } else if i.op.Branch? || i.op.Jalr? || i.op.Jal? {
      ControlRoundTrip(prev, i);
    } else {
      FixedWords(prev);
    }
  }

  // ---- encoding what was decoded ----

  lemma RebuildR(d: bv32)
    requires d & 3 == 3
    ensures EncR(Opcode(d), Funct3(d), Funct7(d), Rd(d), Rs1(d), Rs2(d)) == d
  {
  }

  lemma RebuildI(d: bv32)
    requires d & 3 == 3
    ensures EncI(Opcode(d), Funct3(d), Rd(d), Rs1(d), IImm(d)) == d
    ensures EncI(Opcode(d), Funct3(d), Rd(d), Rs1(d), d >> 20) == d
    ensures Imm12(IImm(d))
  {
  }

  /** Sign extension is idempotent, for the three widths in use. */
  lemma SignExtendTwice12(x: bv32)
    ensures SignExtend(SignExtend(x, 20), 20) == SignExtend(x, 20)
  {
  }

  lemma SignExtendTwice13(x: bv32)
    ensures SignExtend(SignExtend(x, 19), 19) == SignExtend(x, 19)
  {
  }

  lemma SignExtendTwice21(x: bv32)
    ensures SignExtend(SignExtend(x, 11), 11) == SignExtend(x, 11)
  {
  }

  lemma SRange(d: bv32)
    ensures Imm12(SImm(d))
  {
    SignExtendTwice12((((d >> 25) & 0x7f) << 5) | ((d >> 7) & 0x1f));
    hide SignExtend;
  }

  lemma SFields(d: bv32)
    ensures SImm(d) & 0x1f == (d >> 7) & 0x1f && (SImm(d) >> 5) & 0x7f == (d >> 25) & 0x7f
  {
  }

  lemma RebuildS(d: bv32)
    requires d & 3 == 3
    ensures EncS(Opcode(d), Funct3(d), Rs1(d), Rs2(d), SImm(d)) == d
    ensures Imm12(SImm(d))
  {
    SFields(d);
    SRange(d);
    hide SImm, SignExtend;
    RebuildR(d);
  }

  lemma BRange(d: bv32)
    ensures Imm13(BImm(d))
  {
    assert BImm(d) & 1 == 0;
    SignExtendTwice13((((d >> 31) & 0x1) << 12) | (((d >> 7) & 0x1) << 11) | (((d >> 25) & 0x3f) << 5) | (((d >> 8) & 0xf) << 1));
    hide SignExtend;
  }

  lemma BFields(d: bv32)
    ensures (BImm(d) >> 11) & 1 == (d >> 7) & 1
    ensures (BImm(d) >> 1) & 0xf == (d >> 8) & 0xf
    ensures (BImm(d) >> 5) & 0x3f == (d >> 25) & 0x3f
    ensures (BImm(d) >> 12) & 1 == (d >> 31) & 1
  {
  }

  lemma BJoin(d: bv32)
    ensures ((d >> 7) & 1) | (((d >> 8) & 0xf) << 1) == (d >> 7) & 0x1f
    ensures ((d >> 25) & 0x3f) | (((d >> 31) & 1) << 6) == (d >> 25) & 0x7f
  {
  }

  lemma RebuildB(d: bv32)
    requires d & 3 == 3
    ensures EncB(Opcode(d), Funct3(d), Rs1(d), Rs2(d), BImm(d)) == d
    ensures Imm13(BImm(d))
  {
    BFields(d);
    BRange(d);
    BJoin(d);
    hide BImm, SignExtend;
    RebuildR(d);
  }

  lemma RebuildU(d: bv32)
    requires d & 3 == 3
    ensures EncU(Opcode(d), Rd(d), UImm(d)) == d
    ensures Imm32(UImm(d))
  {
  }

  lemma JRange(d: bv32)
    ensures Imm21(JImm(d))
  {
    assert JImm(d) & 1 == 0;
    SignExtendTwice21((((d >> 31) & 0x1) << 20) | (((d >> 12) & 0xff) << 12) | (((d >> 20) & 0x1) << 11) | (((d >> 21) & 0x3ff) << 1));
    hide SignExtend;
  }

  lemma JFields(d: bv32)
    ensures (JImm(d) >> 12) & 0xff == (d >> 12) & 0xff
    ensures (JImm(d) >> 11) & 1 == (d >> 20) & 1
    ensures (JImm(d) >> 1) & 0x3ff == (d >> 21) & 0x3ff
    ensures (JImm(d) >> 20) & 1 == (d >> 31) & 1
  {
  }

  lemma JJoin(d: bv32)
    ensures (((d >> 12) & 0xff) << 12) | (((d >> 20) & 1) << 20) | (((d >> 21) & 0x3ff) << 21) | (((d >> 31) & 1) << 31)
         == d & 0xffff_f000
  {
  }

  lemma RebuildJ(d: bv32)
    requires d & 3 == 3
    ensures EncJ(Opcode(d), Rd(d), JImm(d)) == d
    ensures Imm21(JImm(d))
  {
    JFields(d);
    JRange(d);
    JJoin(d);
    hide JImm, SignExtend;
    RebuildU(d);
  }

  /** The opcode tables are read the same way in both directions. */
  lemma SelectorsInvert(f3: bv3, op: Op)
    ensures LoadOpOf(f3) == Some(op) ==> op.Load? && LoadF3(op.load) == f3
    ensures StoreOpOf(f3) == Some(op) ==> op.Store? && StoreF3(op.store) == f3
    ensures BranchOpOf(f3) == Some(op) ==> op.Branch? && BranchF3(op.cond) == f3
    ensures CsrOpOf(f3) == Some(op) ==> op.Csr? && CsrF3(op.csrOp) == f3
  {
  }

  lemma RegSelectorsInvert(f3: bv3, f7: bv7, op: Op)
    requires RegOpOf(f3, f7) == Some(op)
    ensures op.Reg? && !IsWordReg(op.reg) && RegF3(op.reg) == f3 && RegF7(op.reg) == f7
  {
  }

  lemma RegWordSelectorsInvert(f3: bv3, f7: bv7, op: Op)
    requires RegWordOpOf(f3, f7) == Some(op)
    ensures op.Reg? && IsWordReg(op.reg) && RegF3(op.reg) == f3 && RegF7(op.reg) == f7
  {
  }

  lemma ImmSelectorsInvert(d: bv32, op: Op)
    ensures ImmOpOf(Funct3(d), Imm116(d)) == Some(op) ==>
      op.Imm? && !IsWordImm(op.alu) && ImmF3(op.alu) == Funct3(d)
    ensures ImmWordOpOf(Funct3(d), Funct7(d)) == Some(op) ==>
      op.Imm? && IsWordImm(op.alu) && ImmF3(op.alu) == Funct3(d)
  {
  }

  /** The selecting bits of a shift are the high bits of its decoded immediate. */
  lemma ShiftImmBits(d: bv32)
    ensures Imm116(d) == 0 ==> IImm(d) & 0xffff_ffc0 == 0
    ensures Imm116(d) == 0x10 ==> IImm(d) & 0xffff_ffc0 == 0x400
    ensures Funct7(d) == 0 ==> IImm(d) & 0xffff_ffe0 == 0
    ensures Funct7(d) == 0x20 ==> IImm(d) & 0xffff_ffe0 == 0x400
  {
  }

  lemma ImmDecodesOk(d: bv32, op: Op)
    requires op.Imm?
    requires ImmOpOf(Funct3(d), Imm116(d)) == Some(op) || ImmWordOpOf(Funct3(d), Funct7(d)) == Some(op)
    requires Imm12(IImm(d))
    ensures ImmOk(op.alu, IImm(d))
  {
    ShiftImmBits(d);
    hide IImm, Imm116, Funct7, Funct3, SignExtend;
  }

  ghost predicate Reencodes(i: Inst, d: bv32) {
    WellFormed(i) && Encode(i) == d
  }

  lemma LoadReencodes(prev: Inst, d: bv32, i: Inst)
    requires d & 3 == 3 && Opcode(d) == 0x00 && DecodeInst(prev, d) == Some(i)
    ensures Reencodes(i, d)
  {
    SelectLoad(prev, d);
    hide DecodeInst;
    RebuildI(d);
    hide EncI, IImm, SignExtend;
    SelectorsInvert(Funct3(d), i.op);
  }

  lemma FpLoadReencodes(prev: Inst, d: bv32, i: Inst)
    requires d & 3 == 3 && Opcode(d) == 0x01 && DecodeInst(prev, d) == Some(i)
    ensures Reencodes(i, d)
  {
    SelectFpLoad(prev, d);
    hide DecodeInst;
    RebuildI(d);
    hide EncI, IImm, SignExtend;
  }

  lemma ImmReencodes(prev: Inst, d: bv32, i: Inst)
    requires d & 3 == 3 && (Opcode(d) == 0x04 || Opcode(d) == 0x06) && DecodeInst(prev, d) == Some(i)
    ensures Reencodes(i, d)
  {
    SelectImm(prev, d);
    hide DecodeInst;
    RebuildI(d);
    ImmSelectorsInvert(d, i.op);
    ImmDecodesOk(d, i.op);
    hide EncI, IImm, ImmOk, Imm116, ImmF3, ImmOpOf, ImmWordOpOf, SignExtend;
  }

  lemma StoreReencodes(prev: Inst, d: bv32, i: Inst)
    requires d & 3 == 3 && Opcode(d) == 0x08 && DecodeInst(prev, d) == Some(i)
    ensures Reencodes(i, d)
  {
    SelectStore(prev, d);
    hide DecodeInst;
    RebuildS(d);
    hide EncS, SImm, SignExtend;
    SelectorsInvert(Funct3(d), i.op);
  }

  lemma FpStoreReencodes(prev: Inst, d: bv32, i: Inst)
    requires d & 3 == 3 && Opcode(d) == 0x09 && DecodeInst(prev, d) == Some(i)
    ensures Reencodes(i, d)
  {
    SelectFpStore(prev, d);
    hide DecodeInst;
    RebuildS(d);
    hide EncS, SImm, SignExtend;
  }

  lemma RegReencodes(prev: Inst, d: bv32, i: Inst)
    requires d & 3 == 3 && (Opcode(d) == 0x0c || Opcode(d) == 0x0e) && DecodeInst(prev, d) == Some(i)
    ensures Reencodes(i, d)
  {
    SelectReg(prev, d);
    hide DecodeInst;
    RebuildR(d);
    hide EncR, RegOpOf, RegWordOpOf, RegF3, RegF7, IsWordReg;
    if Opcode(d) == 0x0c {
      RegSelectorsInvert(Funct3(d), Funct7(d), i.op);
    } else {
      RegWordSelectorsInvert(Funct3(d), Funct7(d), i.op);
    }
  }

  lemma UpperReencodes(prev: Inst, d: bv32, i: Inst)
    requires d & 3 == 3 && (Opcode(d) == 0x05 || Opcode(d) == 0x0d) && DecodeInst(prev, d) == Some(i)
    ensures Reencodes(i, d)
  {
    SelectUpper(prev, d);
    hide DecodeInst;
    RebuildU(d);
    hide EncU, UImm, Imm32;
  }

  lemma BranchReencodes(prev: Inst, d: bv32, i: Inst)
    requires d & 3 == 3 && Opcode(d) == 0x18 && DecodeInst(prev, d) == Some(i)
    ensures Reencodes(i, d)
  {
    SelectBranch(prev, d);
    hide DecodeInst;
    RebuildB(d);
    hide EncB, BImm, SignExtend;
    SelectorsInvert(Funct3(d), i.op);
  }

  lemma JalReencodes(prev: Inst, d: bv32, i: Inst)
    requires d & 3 == 3 && Opcode(d) == 0x1b && DecodeInst(prev, d) == Some(i)
    ensures Reencodes(i, d)
  {
    SelectJump(prev, d);
    hide DecodeInst;
    RebuildJ(d);
    hide EncJ, JImm, SignExtend;
  }

  /** JALR is the one integer instruction whose funct3 is not checked. */
  lemma JalrReencodes(prev: Inst, d: bv32, i: Inst)
    requires d & 3 == 3 && Opcode(d) == 0x19 && DecodeInst(prev, d) == Some(i)
    ensures WellFormed(i) && i.op.Jalr?
    ensures Encode(i) == d <==> Funct3(d) == 0
  {
    SelectJump(prev, d);
    hide DecodeInst;
    RebuildI(d);
    ReadI(0x19, 0, i.rd, i.rs1, i.imm);
    hide EncI, IImm, SignExtend;
  }

  lemma CsrReencodes(prev: Inst, d: bv32, i: Inst)
    requires d & 3 == 3 && Opcode(d) == 0x1c && d != 0x73 && DecodeInst(prev, d) == Some(i)
    ensures Reencodes(i, d)
  {
    SelectSystem(prev, d);
    hide DecodeInst;
    RebuildI(d);
    CsrWidth(d);
    SelectorsInvert(Funct3(d), i.op);
    hide EncI, IImm, SignExtend, CsrOpOf, CsrF3;
  }

  lemma CsrWidth(d: bv32)
    ensures CsrType(d).csr & 0xf000 == 0 && CsrType(d).csr as bv32 == d >> 20
  {
  }

  lemma FpOpcodes(o: bv5, f2: bv2, f3: bv3, f7: bv7, rs2: bv5)
    ensures var r := FpOpOf(f7, f3, rs2); r.None? || r.value.Fp?
    ensures var r := FmaOpOf(o, f2); r.None? || r.value.Fp?
  {
  }

  /** The remaining opcodes are rejected, or are fences or floating-point computation. */
  lemma OtherOpcodes(prev: Inst, d: bv32)
    requires d & 3 == 3
    requires Opcode(d) !in {0x00, 0x01, 0x04, 0x05, 0x06, 0x08, 0x09, 0x0c, 0x0d, 0x0e, 0x18, 0x19, 0x1b, 0x1c}
    ensures var r := DecodeInst(prev, d); r.None? || r.value.op.Fence? || r.value.op.FenceI? || r.value.op.Fp?
  {
    FpOpcodes(Opcode(d), Funct2(d), Funct3(d), Funct7(d), Rs2(d));
    hide FpOpOf, FmaOpOf, RType, IType, SType, BType, UType, JType, FprType, CsrType,
         LoadOpOf, ImmOpOf, ImmWordOpOf, StoreOpOf, RegOpOf, RegWordOpOf, BranchOpOf, CsrOpOf, Opcode, Imm116, Funct3, Funct7;
  }

  /** Conversely, every accepted 32-bit integer, memory, control or CSR word decodes to a
      well-formed record, and that record encodes back to the very same word, except that a
      JALR with a nonzero funct3 is accepted too. So the decoder is exact on its domain: no two
      words share a record, and no field is read from the wrong bits. */
  lemma DecodeThenEncode(prev: Inst, d: bv32, i: Inst)
    requires d & 3 == 3 && d != 0x73 && DecodeInst(prev, d) == Some(i)
    requires !i.op.Fp? && !i.op.Fence? && !i.op.FenceI?
    ensures WellFormed(i)
    ensures Encode(i) == d <==> !(Opcode(d) == 0x19 && Funct3(d) != 0)
  {
    hide DecodeInst, Encode, WellFormed, Opcode, Funct3;
    var o := Opcode(d);
    if o == 0x00 { LoadReencodes(prev, d, i); }
    else if o == 0x01 { FpLoadReencodes(prev, d, i); }
    else if o == 0x04 || o == 0x06 { ImmReencodes(prev, d, i); }
    else if o == 0x05 || o == 0x0d { UpperReencodes(prev, d, i); }
    else if o == 0x08 { StoreReencodes(prev, d, i); }
    else if o == 0x09 { FpStoreReencodes(prev, d, i); }
    else if o == 0x0c || o == 0x0e { RegReencodes(prev, d, i); }
    else if o == 0x18 { BranchReencodes(prev, d, i); }
    else if o == 0x19 { JalrReencodes(prev, d, i); }
    else if o == 0x1b { JalReencodes(prev, d, i); }
    else if o == 0x1c { CsrReencodes(prev, d, i); }
    else { OtherOpcodes(prev, d); }
  }

  /** An accepted word that is not the encoding of its record: a JALR with funct3 1. */
  lemma JalrCounterexample(prev: Inst)
    ensures DecodeInst(prev, 0x1067) == Some(RecI(Jalr, 0, 0, 0))
    ensures Encode(RecI(Jalr, 0, 0, 0)) == 0x67
  {
    assert Opcode(0x1067) == 0x19;
  }
}
