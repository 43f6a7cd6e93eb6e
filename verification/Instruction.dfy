/** The decoded instruction record `inst_t` (src/rvemu.h). The C enum `inst_type_t` is
    grouped by the macro that generates the handler, so that one group is one handler shape. */
module Instruction {

  datatype LoadOp = LB | LH | LW | LD | LBU | LHU | LWU

  datatype StoreOp = SB | SH | SW | SD

  datatype ImmOp =
    | ADDI | SLLI | SLTI | SLTIU | XORI | SRLI | SRAI | ORI | ANDI
    | ADDIW | SLLIW | SRLIW | SRAIW

  datatype RegOp =
    | ADD | SUB | SLL | SLT | SLTU | XOR | SRL | SRA | OR | AND
    | MUL | MULH | MULHSU | MULHU | DIV | DIVU | REM | REMU
    | ADDW | SUBW | SLLW | SRLW | SRAW | MULW | DIVW | DIVUW | REMW | REMUW

  datatype BranchOp = BEQ | BNE | BLT | BGE | BLTU | BGEU

  datatype CsrOp = CSRRW | CSRRS | CSRRC | CSRRWI | CSRRSI | CSRRCI

  /** Single or double precision: the suffix of a floating-point instruction. */
  datatype Fmt = S | D

  /** The integer side of a conversion. */
  datatype IntKind = W | WU | L | LU

  /** Floating-point instructions other than loads and stores; `FADD(S)` is `inst_fadd_s`,
      `FCVTX(WU, D)` is `inst_fcvt_wu_d`, `FCVTF(D, L)` is `inst_fcvt_d_l` and `FCVT(S)`, the
      conversion to single, is `inst_fcvt_s_d`. */
  datatype FpOp =
    | FMADD(fmt: Fmt) | FMSUB(fmt: Fmt) | FNMSUB(fmt: Fmt) | FNMADD(fmt: Fmt)
    | FADD(fmt: Fmt) | FSUB(fmt: Fmt) | FMUL(fmt: Fmt) | FDIV(fmt: Fmt) | FSQRT(fmt: Fmt)
    | FMIN(fmt: Fmt) | FMAX(fmt: Fmt)
    | FSGNJ(fmt: Fmt) | FSGNJN(fmt: Fmt) | FSGNJX(fmt: Fmt)
    | FEQ(fmt: Fmt) | FLT(fmt: Fmt) | FLE(fmt: Fmt)
    | FCVTX(kind: IntKind, fmt: Fmt) | FCVTF(fmt: Fmt, kind: IntKind) | FCVT(fmt: Fmt)
    | FMVX(fmt: Fmt) | FMVF(fmt: Fmt) | FCLASS(fmt: Fmt)

  datatype Op =
    | Load(load: LoadOp)
    | Fence
    | FenceI
    | Imm(alu: ImmOp)
    | Auipc
    | Store(store: StoreOp)
    | Reg(reg: RegOp)
    | Lui
    | Branch(cond: BranchOp)
    | Jalr
    | Jal
    | Ecall
    | Csr(csrOp: CsrOp)
    | Flw
    | Fld
    | Fsw
    | Fsd
    | Fp(fp: FpOp)

  /** Register numbers are five bits wide; `imm` is the bit pattern of an `int32_t`. */
  datatype Inst = Inst(
    rd: bv5, rs1: bv5, rs2: bv5, rs3: bv5,
    imm: bv32, csr: bv16, op: Op, rvc: bool, continueExec: bool)

  /** An all-zero `inst_t`: type 0 is `inst_lb`. */
  const BLANK: Inst := Inst(0, 0, 0, 0, 0, 0, Load(LB), false, false)

  const X_ZERO: bv5 := 0
  const X_RA: bv5 := 1
  const X_SP: bv5 := 2

  /** Shift instructions read only the low bits of their immediate. */
  predicate IsShiftImm(op: Op) {
    op.Imm? && op.alu in {SLLI, SRLI, SRAI}
  }
}
