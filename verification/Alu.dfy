/** The values computed by the integer handlers (src/interp.c), over `uint64_t` operands. */
module Alu {
  import opened Words
  import opened Instruction

  /** `(int64_t)inst->imm`. */
  function Simm(imm: bv32): int {
    if imm < 0x8000_0000 then imm as int else imm as int - 0x1_0000_0000
  }

  /** `imm & 0x3f` and `imm & 0x1f`. */
  function Low6(imm: bv32): nat { ((imm & 0x3f) as bv6) as int }
  function Low5(imm: bv32): nat { ((imm & 0x1f) as bv5) as int }

  function Bool(b: bool): u64 { if b then 1 else 0 }

  /** `x >> k` for a signed `x`; dividing by a positive number rounds down. */
  function ShiftRight(x: int, k: nat): int { x / Pow2(k) }

  /** C division: the quotient is truncated toward zero. */
  function TruncDiv(a: int, b: int): int
    requires b != 0
  {
    var q := Abs(a) / Abs(b);
    if (a < 0) == (b < 0) then q else -q
  }

  /** C remainder: it takes the sign of the dividend. */
  function TruncRem(a: int, b: int): int
    requires b != 0
  {
    var r := Abs(a) % Abs(b);
    if a < 0 then -r else r
  }

  /** Handlers of the register-immediate macro, for immediate `i` and the shift amounts
      `i & 0x3f` and `i & 0x1f`. */
  function ImmValue(op: ImmOp, rs1: u64, i: int, shamt6: nat, shamt5: nat): u64 {
    match op
    case ADDI => Wrap64(rs1 + i)
    case SLLI => Wrap64(rs1 * Pow2(shamt6))
    case SLTI => Bool(Signed64(rs1) < i)
    case SLTIU => Bool(rs1 < Wrap64(i))
    case XORI => Xor64(rs1, Wrap64(i))
    case SRLI => Wrap64(ShiftRight(rs1, shamt6))
    case SRAI => Wrap64(ShiftRight(Signed64(rs1), shamt6))
    case ORI => Or64(rs1, Wrap64(i))
    case ANDI => And64(rs1, Wrap64(i))
    case ADDIW => SextWord(rs1 + i)
    case SLLIW => SextWord(Wrap64(rs1 * Pow2(shamt5)))
    case SRLIW => SextWord(ShiftRight(Wrap32(rs1), shamt5))
    case SRAIW => Wrap64(ShiftRight(Signed32(Wrap32(rs1)), shamt5))
  }

  function ImmResult(op: ImmOp, rs1: u64, imm: bv32): u64 {
    ImmValue(op, rs1, Simm(imm), Low6(imm), Low5(imm))
  }

  /** Handlers of the register-register macro, and `div`/`divu`/`rem`.
      `None` is a host division by zero, which kills the emulator: the W-form handlers test
      all 64 bits of `rs2` for zero but divide by its low word. */
  function RegResult(op: RegOp, rs1: u64, rs2: u64): Option<u64> {
    var lo1, lo2 := Wrap32(rs1), Wrap32(rs2);
    match op
    case ADD => Some(Wrap64(rs1 + rs2))
    case SUB => Some(Wrap64((rs1 as int) - rs2))
    case SLL => Some(Wrap64(rs1 * Pow2(rs2 % 64)))
    case SLT => Some(Bool(Signed64(rs1) < Signed64(rs2)))
    case SLTU => Some(Bool(rs1 < rs2))
    case XOR => Some(Xor64(rs1, rs2))
    case SRL => Some(Wrap64(ShiftRight(rs1, rs2 % 64)))
    case SRA => Some(Wrap64(ShiftRight(Signed64(rs1), rs2 % 64)))
    case OR => Some(Or64(rs1, rs2))
    case AND => Some(And64(rs1, rs2))
    case MUL => Some(Wrap64(rs1 * rs2))
    case MULH => Some(Wrap64((Signed64(rs1) * Signed64(rs2)) / TWO64))
    case MULHSU => Some(Wrap64((Signed64(rs1) * rs2) / TWO64))
    case MULHU => Some(Wrap64((rs1 * rs2) / TWO64))
    case DIV =>
      if rs2 == 0 then Some(TWO64 - 1)
      else if rs1 == TWO63 && rs2 == TWO64 - 1 then Some(TWO63)
      else Some(Wrap64(TruncDiv(Signed64(rs1), Signed64(rs2))))
    case DIVU => if rs2 == 0 then Some(TWO64 - 1) else Some(Wrap64(rs1 / rs2))
    case REM =>
      if rs2 == 0 then Some(rs1)
      else if rs1 == TWO63 && rs2 == TWO64 - 1 then Some(0)
      else Some(Wrap64(TruncRem(Signed64(rs1), Signed64(rs2))))
    case REMU => if rs2 == 0 then Some(rs1) else Some(Wrap64(rs1 % rs2))
    case ADDW => Some(SextWord(rs1 + rs2))
    case SUBW => Some(SextWord((rs1 as int) - rs2))
    case SLLW => Some(SextWord(Wrap64(rs1 * Pow2(rs2 % 32))))
    case SRLW => Some(SextWord(ShiftRight(lo1, rs2 % 32)))
    case SRAW => Some(SextWord(ShiftRight(Signed32(lo1), rs2 % 32)))
    case MULW => Some(SextWord(Wrap64(rs1 * rs2)))
    case DIVW =>
      if rs2 == 0 then Some(TWO64 - 1)
      else if lo2 == 0 then None
      else Some(SextWord(TruncDiv(Signed32(lo1), Signed32(lo2))))
    case DIVUW =>
      if rs2 == 0 then Some(TWO64 - 1)
      else if lo2 == 0 then None
      else Some(SextWord(lo1 / lo2))
    case REMW =>
      if rs2 == 0 then Some(SextWord(rs1))
      else if lo2 == 0 then None
      else Some(SextWord(TruncRem(Signed32(lo1), Signed32(lo2))))
    case REMUW =>
      if rs2 == 0 then Some(SextWord(rs1))
      else if lo2 == 0 then None
      else Some(SextWord(lo1 % lo2))
  }

  /** The conditions of the branch macro. */
  predicate BranchTaken(op: BranchOp, rs1: u64, rs2: u64) {
    match op
    case BEQ => rs1 == rs2
    case BNE => rs1 != rs2
    case BLT => Signed64(rs1) < Signed64(rs2)
    case BGE => Signed64(rs1) >= Signed64(rs2)
    case BLTU => rs1 < rs2
    case BGEU => rs1 >= rs2
  }

  function LoadWidth(op: LoadOp): nat {
    match op
    case LB => 1 case LBU => 1
    case LH => 2 case LHU => 2
    case LW => 4 case LWU => 4
    case LD => 8
  }

  /** `uint64_t val = *(ty *)...`: sign- or zero-extension of the loaded value. */
  function LoadExtend(op: LoadOp, raw: u64): u64 {
    match op
    case LB => if raw < 0x80 then raw else Wrap64((raw as int) - 0x100)
    case LH => if raw < 0x8000 then raw else Wrap64((raw as int) - 0x1_0000)
    case LW => if raw < 0x8000_0000 then raw else Wrap64((raw as int) - 0x1_0000_0000)
    case LD => raw
    case LBU => raw
    case LHU => raw
    case LWU => raw
  }

  function StoreWidth(op: StoreOp): nat {
    match op
    case SB => 1
    case SH => 2
    case SW => 4
    case SD => 8
  }

  /** The CSR handlers accept `fflags`, `frm` and `fcsr`. */
  predicate CsrSupported(csr: bv16) { csr == 1 || csr == 2 || csr == 3 }
}
