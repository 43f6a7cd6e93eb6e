/** The instruction decoder (src/decode.c): immediate extractors and `decode_inst`.
    A rejected word (failed assertion, `fatal` or `unreachable`, all of which end the
    process) is `None`. */
module Decode {
  import opened Words
  import opened Instruction

  // ---- fields of 32-bit instructions ----

  function Opcode(d: bv32): bv5 { ((d >> 2) & 0x1f) as bv5 }
  function Rd(d: bv32): bv5 { ((d >> 7) & 0x1f) as bv5 }
  function Rs1(d: bv32): bv5 { ((d >> 15) & 0x1f) as bv5 }
  function Rs2(d: bv32): bv5 { ((d >> 20) & 0x1f) as bv5 }
  function Rs3(d: bv32): bv5 { ((d >> 27) & 0x1f) as bv5 }
  function Funct2(d: bv32): bv2 { ((d >> 25) & 0x3) as bv2 }
  function Funct3(d: bv32): bv3 { ((d >> 12) & 0x7) as bv3 }
  function Funct7(d: bv32): bv7 { ((d >> 25) & 0x7f) as bv7 }
  function Imm116(d: bv32): bv6 { ((d >> 26) & 0x3f) as bv6 }

  /** `(imm << k) >> k` on `int32_t`: sign-extend the low 32 - k bits. */
  function SignExtend(imm: bv32, k: nat): bv32
    requires 0 < k < 32
  {
    var s := imm << k;
    (s >> k) | ((0 - (s >> 31)) << (32 - k))
  }

  function UImm(d: bv32): bv32 { d & 0xffff_f000 }

  /** `(int32_t)data >> 20`. */
  function IImm(d: bv32): bv32 { (d >> 20) | ((0 - (d >> 31)) << 12) }

  function JImm(d: bv32): bv32 {
    var imm20 := (d >> 31) & 0x1;
    var imm101 := (d >> 21) & 0x3ff;
    var imm11 := (d >> 20) & 0x1;
    var imm1912 := (d >> 12) & 0xff;
    SignExtend((imm20 << 20) | (imm1912 << 12) | (imm11 << 11) | (imm101 << 1), 11)
  }

  function BImm(d: bv32): bv32 {
    var imm12 := (d >> 31) & 0x1;
    var imm105 := (d >> 25) & 0x3f;
    var imm41 := (d >> 8) & 0xf;
    var imm11 := (d >> 7) & 0x1;
    SignExtend((imm12 << 12) | (imm11 << 11) | (imm105 << 5) | (imm41 << 1), 19)
  }

  function SImm(d: bv32): bv32 {
    var imm115 := (d >> 25) & 0x7f;
    var imm40 := (d >> 7) & 0x1f;
    SignExtend((imm115 << 5) | imm40, 20)
  }

  function UType(d: bv32): Inst { BLANK.(imm := UImm(d), rd := Rd(d)) }
  function IType(d: bv32): Inst { BLANK.(imm := IImm(d), rs1 := Rs1(d), rd := Rd(d)) }
  function JType(d: bv32): Inst { BLANK.(imm := JImm(d), rd := Rd(d)) }
  function BType(d: bv32): Inst { BLANK.(imm := BImm(d), rs1 := Rs1(d), rs2 := Rs2(d)) }
  function RType(d: bv32): Inst { BLANK.(rs1 := Rs1(d), rs2 := Rs2(d), rd := Rd(d)) }
  function SType(d: bv32): Inst { BLANK.(imm := SImm(d), rs1 := Rs1(d), rs2 := Rs2(d)) }
  function CsrType(d: bv32): Inst { BLANK.(csr := (d >> 20) as bv16, rs1 := Rs1(d), rd := Rd(d)) }
  function FprType(d: bv32): Inst {
    BLANK.(rs1 := Rs1(d), rs2 := Rs2(d), rs3 := Rs3(d), rd := Rd(d))
  }

  // ---- fields of 16-bit instructions ----

  function COpcode(d: bv32): bv3 { ((d >> 13) & 0x7) as bv3 }
  function CFunct1(d: bv32): bv1 { ((d >> 12) & 0x1) as bv1 }
  function CFunct2Low(d: bv32): bv2 { ((d >> 5) & 0x3) as bv2 }
  function CFunct2High(d: bv32): bv2 { ((d >> 10) & 0x3) as bv2 }
  function Rp1(d: bv32): bv5 { (((d >> 7) & 0x7) + 8) as bv5 }
  function Rp2(d: bv32): bv5 { (((d >> 2) & 0x7) + 8) as bv5 }
  function Rc1(d: bv32): bv5 { ((d >> 7) & 0x1f) as bv5 }
  function Rc2(d: bv32): bv5 { ((d >> 2) & 0x1f) as bv5 }

  function CIImm(d: bv32): bv32 {
    var imm40 := (d >> 2) & 0x1f;
    var imm5 := (d >> 12) & 0x1;
    SignExtend((imm5 << 5) | imm40, 26)
  }

  function CIImm2(d: bv32): bv32 {
    var imm86 := (d >> 2) & 0x7;
    var imm43 := (d >> 5) & 0x3;
    var imm5 := (d >> 12) & 0x1;
    (imm86 << 6) | (imm43 << 3) | (imm5 << 5)
  }

  function CIImm3(d: bv32): bv32 {
    var imm5 := (d >> 2) & 0x1;
    var imm87 := (d >> 3) & 0x3;
    var imm6 := (d >> 5) & 0x1;
    var imm4 := (d >> 6) & 0x1;
    var imm9 := (d >> 12) & 0x1;
    SignExtend((imm5 << 5) | (imm87 << 7) | (imm6 << 6) | (imm4 << 4) | (imm9 << 9), 22)
  }

  function CIImm4(d: bv32): bv32 {
    var imm5 := (d >> 12) & 0x1;
    var imm42 := (d >> 4) & 0x7;
    var imm76 := (d >> 2) & 0x3;
    (imm5 << 5) | (imm42 << 2) | (imm76 << 6)
  }

  function CIImm5(d: bv32): bv32 {
    var imm1612 := (d >> 2) & 0x1f;
    var imm17 := (d >> 12) & 0x1;
    SignExtend((imm1612 << 12) | (imm17 << 17), 14)
  }

  function CBImm(d: bv32): bv32 {
    var imm5 := (d >> 2) & 0x1;
    var imm21 := (d >> 3) & 0x3;
    var imm76 := (d >> 5) & 0x3;
    var imm43 := (d >> 10) & 0x3;
    var imm8 := (d >> 12) & 0x1;
    SignExtend((imm8 << 8) | (imm76 << 6) | (imm5 << 5) | (imm43 << 3) | (imm21 << 1), 23)
  }

  function CSImm(d: bv32): bv32 {
    var imm76 := (d >> 5) & 0x3;
    var imm53 := (d >> 10) & 0x7;
    (imm76 << 6) | (imm53 << 3)
  }

  function CSImm2(d: bv32): bv32 {
    var imm6 := (d >> 5) & 0x1;
    var imm2 := (d >> 6) & 0x1;
    var imm53 := (d >> 10) & 0x7;
    (imm6 << 6) | (imm2 << 2) | (imm53 << 3)
  }

  function CJImm(d: bv32): bv32 {
    var imm5 := (d >> 2) & 0x1;
    var imm31 := (d >> 3) & 0x7;
    var imm7 := (d >> 6) & 0x1;
    var imm6 := (d >> 7) & 0x1;
    var imm10 := (d >> 8) & 0x1;
    var imm98 := (d >> 9) & 0x3;
    var imm4 := (d >> 11) & 0x1;
    var imm11 := (d >> 12) & 0x1;
    SignExtend((imm5 << 5) | (imm31 << 1) | (imm7 << 7) | (imm6 << 6)
               | (imm10 << 10) | (imm98 << 8) | (imm4 << 4) | (imm11 << 11), 20)
  }

  function CSSImm(d: bv32): bv32 {
    var imm86 := (d >> 7) & 0x7;
    var imm53 := (d >> 10) & 0x7;
    (imm86 << 6) | (imm53 << 3)
  }

  function CSSImm2(d: bv32): bv32 {
    var imm76 := (d >> 7) & 0x3;
    var imm52 := (d >> 9) & 0xf;
    (imm76 << 6) | (imm52 << 2)
  }

  function CIWImm(d: bv32): bv32 {
    var imm3 := (d >> 5) & 0x1;
    var imm2 := (d >> 6) & 0x1;
    var imm96 := (d >> 7) & 0xf;
    var imm54 := (d >> 11) & 0x3;
    (imm3 << 3) | (imm2 << 2) | (imm96 << 6) | (imm54 << 4)
  }

  // The C readers take a `uint16_t`; none of the fields above reaches past bit 15.
  function CAType(d: bv32): Inst { BLANK.(rd := Rp1(d), rs2 := Rp2(d), rvc := true) }
  function CRType(d: bv32): Inst { BLANK.(rs1 := Rc1(d), rs2 := Rc2(d), rvc := true) }
  function CIType(d: bv32): Inst { BLANK.(imm := CIImm(d), rd := Rc1(d), rvc := true) }
  function CIType2(d: bv32): Inst { BLANK.(imm := CIImm2(d), rd := Rc1(d), rvc := true) }
  function CIType3(d: bv32): Inst { BLANK.(imm := CIImm3(d), rd := Rc1(d), rvc := true) }
  function CIType4(d: bv32): Inst { BLANK.(imm := CIImm4(d), rd := Rc1(d), rvc := true) }
  function CIType5(d: bv32): Inst { BLANK.(imm := CIImm5(d), rd := Rc1(d), rvc := true) }
  function CBType(d: bv32): Inst { BLANK.(imm := CBImm(d), rs1 := Rp1(d), rvc := true) }
  function CBType2(d: bv32): Inst { BLANK.(imm := CIImm(d), rd := Rp1(d), rvc := true) }
  function CSType(d: bv32): Inst { BLANK.(imm := CSImm(d), rs1 := Rp1(d), rs2 := Rp2(d), rvc := true) }
  function CSType2(d: bv32): Inst { BLANK.(imm := CSImm2(d), rs1 := Rp1(d), rs2 := Rp2(d), rvc := true) }
  function CJType(d: bv32): Inst { BLANK.(imm := CJImm(d), rvc := true) }
  function CLType(d: bv32): Inst { BLANK.(imm := CSImm2(d), rs1 := Rp1(d), rd := Rp2(d), rvc := true) }
  function CLType2(d: bv32): Inst { BLANK.(imm := CSImm(d), rs1 := Rp1(d), rd := Rp2(d), rvc := true) }
  function CSSType(d: bv32): Inst { BLANK.(imm := CSSImm(d), rs2 := Rc2(d), rvc := true) }
  function CSSType2(d: bv32): Inst { BLANK.(imm := CSSImm2(d), rs2 := Rc2(d), rvc := true) }
  function CIWType(d: bv32): Inst { BLANK.(imm := CIWImm(d), rd := Rp2(d), rvc := true) }

  // ---- decode_inst ----

  /** `assert(c); return i`. */
  function Guard(c: bool, i: Inst): Option<Inst> { if c then Some(i) else None }

  function DecodeQ0(d: bv32): Option<Inst> {
    var c := COpcode(d);
    if c == 0 then /* C.ADDI4SPN */
      var i := CIWType(d).(rs1 := X_SP, op := Imm(ADDI));
      Guard(i.imm != 0, i)
    else if c == 1 then Some(CLType2(d).(op := Fld))
    else if c == 2 then Some(CLType(d).(op := Load(LW)))
    else if c == 3 then Some(CLType2(d).(op := Load(LD)))
    else if c == 5 then Some(CSType(d).(op := Fsd))
    else if c == 6 then Some(CSType2(d).(op := Store(SW)))
    else if c == 7 then Some(CSType(d).(op := Store(SD)))
    else None
  }

  /** The C.ADDI16SP / C.LUI slot. */
  function DecodeCLui(d: bv32): Option<Inst> {
    if Rc1(d) == 2 then
      var i := CIType3(d);
      Guard(i.imm != 0, i.(rs1 := i.rd, op := Imm(ADDI)))
    else
      var i := CIType5(d);
      Guard(i.imm != 0, i.(op := Lui))
  }

  /** The C.SRLI ... C.ADDW slot. */
  function DecodeCAlu(d: bv32): Option<Inst> {
    var h := CFunct2High(d);
    if h != 3 then
      var i := CBType2(d);
      var j := i.(rs1 := i.rd);
      Some(j.(op := Imm(if h == 0 then SRLI else if h == 1 then SRAI else ANDI)))
    else
      var i := CAType(d);
      var j := i.(rs1 := i.rd);
      var l := CFunct2Low(d);
      if CFunct1(d) == 0 then
        Some(j.(op := Reg(if l == 0 then SUB else if l == 1 then XOR else if l == 2 then OR else AND)))
      else if l == 0 then Some(j.(op := Reg(SUBW)))
      else if l == 1 then Some(j.(op := Reg(ADDW)))
      else None
  }

  function DecodeQ1(d: bv32): Option<Inst> {
    var c := COpcode(d);
    if c == 0 then var i := CIType(d); Some(i.(rs1 := i.rd, op := Imm(ADDI)))
    else if c == 1 then var i := CIType(d); Guard(i.rd != 0, i.(rs1 := i.rd, op := Imm(ADDIW)))
    else if c == 2 then Some(CIType(d).(rs1 := X_ZERO, op := Imm(ADDI)))
    else if c == 3 then DecodeCLui(d)
    else if c == 4 then DecodeCAlu(d)
    else if c == 5 then Some(CJType(d).(rd := X_ZERO, op := Jal, continueExec := true))
    else Some(CBType(d).(rs2 := X_ZERO, op := Branch(if c == 6 then BEQ else BNE)))
  }

  /** The C.JR / C.MV / C.EBREAK / C.JALR / C.ADD slot. */
  function DecodeCJump(d: bv32): Option<Inst> {
    var i := CRType(d);
    if CFunct1(d) == 0 then
      if i.rs2 == 0 then Guard(i.rs1 != 0, i.(rd := X_ZERO, op := Jalr, continueExec := true))
      else Some(i.(rd := i.rs1, rs1 := X_ZERO, op := Reg(ADD)))
    else
      if i.rs1 == 0 && i.rs2 == 0 then None
      else if i.rs2 == 0 then Some(i.(rd := X_RA, op := Jalr, continueExec := true))
      else Some(i.(rd := i.rs1, op := Reg(ADD)))
  }

  function DecodeQ2(d: bv32): Option<Inst> {
    var c := COpcode(d);
    if c == 0 then var i := CIType(d); Some(i.(rs1 := i.rd, op := Imm(SLLI)))
    else if c == 1 then Some(CIType2(d).(rs1 := X_SP, op := Fld))
    else if c == 2 then var i := CIType4(d); Guard(i.rd != 0, i.(rs1 := X_SP, op := Load(LW)))
    else if c == 3 then var i := CIType2(d); Guard(i.rd != 0, i.(rs1 := X_SP, op := Load(LD)))
    else if c == 4 then DecodeCJump(d)
    else if c == 5 then Some(CSSType(d).(rs1 := X_SP, op := Fsd))
    else if c == 6 then Some(CSSType2(d).(rs1 := X_SP, op := Store(SW)))
    else Some(CSSType(d).(rs1 := X_SP, op := Store(SD)))
  }

  function LoadOpOf(f3: bv3): Option<Op> {
    if f3 == 0 then Some(Load(LB)) else if f3 == 1 then Some(Load(LH)) else if f3 == 2 then Some(Load(LW))
    else if f3 == 3 then Some(Load(LD)) else if f3 == 4 then Some(Load(LBU)) else if f3 == 5 then Some(Load(LHU))
    else if f3 == 6 then Some(Load(LWU)) else None
  }

  function ImmOpOf(f3: bv3, imm116: bv6): Option<Op> {
    if f3 == 0 then Some(Imm(ADDI))
    else if f3 == 1 then (if imm116 == 0 then Some(Imm(SLLI)) else None)
    else if f3 == 2 then Some(Imm(SLTI))
    else if f3 == 3 then Some(Imm(SLTIU))
    else if f3 == 4 then Some(Imm(XORI))
    else if f3 == 5 then (if imm116 == 0 then Some(Imm(SRLI)) else if imm116 == 0x10 then Some(Imm(SRAI)) else None)
    else if f3 == 6 then Some(Imm(ORI))
    else if f3 == 7 then Some(Imm(ANDI))
    else None
  }

  function ImmWordOpOf(f3: bv3, f7: bv7): Option<Op> {
    if f3 == 0 then Some(Imm(ADDIW))
    else if f3 == 1 then (if f7 == 0 then Some(Imm(SLLIW)) else None)
    else if f3 == 5 then (if f7 == 0 then Some(Imm(SRLIW)) else if f7 == 0x20 then Some(Imm(SRAIW)) else None)
    else None
  }

  function StoreOpOf(f3: bv3): Option<Op> {
    if f3 == 0 then Some(Store(SB)) else if f3 == 1 then Some(Store(SH))
    else if f3 == 2 then Some(Store(SW)) else if f3 == 3 then Some(Store(SD)) else None
  }

  function RegOpOf(f3: bv3, f7: bv7): Option<Op> {
    if f7 == 0 then
      if f3 == 0 then Some(Reg(ADD)) else if f3 == 1 then Some(Reg(SLL)) else if f3 == 2 then Some(Reg(SLT))
      else if f3 == 3 then Some(Reg(SLTU)) else if f3 == 4 then Some(Reg(XOR)) else if f3 == 5 then Some(Reg(SRL))
      else if f3 == 6 then Some(Reg(OR)) else if f3 == 7 then Some(Reg(AND)) else None
    else if f7 == 1 then
      if f3 == 0 then Some(Reg(MUL)) else if f3 == 1 then Some(Reg(MULH)) else if f3 == 2 then Some(Reg(MULHSU))
      else if f3 == 3 then Some(Reg(MULHU)) else if f3 == 4 then Some(Reg(DIV)) else if f3 == 5 then Some(Reg(DIVU))
      else if f3 == 6 then Some(Reg(REM)) else if f3 == 7 then Some(Reg(REMU)) else None
    else if f7 == 0x20 then
      if f3 == 0 then Some(Reg(SUB)) else if f3 == 5 then Some(Reg(SRA)) else None
    else None
  }

  function RegWordOpOf(f3: bv3, f7: bv7): Option<Op> {
    if f7 == 0 then
      if f3 == 0 then Some(Reg(ADDW)) else if f3 == 1 then Some(Reg(SLLW)) else if f3 == 5 then Some(Reg(SRLW)) else None
    else if f7 == 1 then
      if f3 == 0 then Some(Reg(MULW)) else if f3 == 4 then Some(Reg(DIVW)) else if f3 == 5 then Some(Reg(DIVUW))
      else if f3 == 6 then Some(Reg(REMW)) else if f3 == 7 then Some(Reg(REMUW)) else None
    else if f7 == 0x20 then
      if f3 == 0 then Some(Reg(SUBW)) else if f3 == 5 then Some(Reg(SRAW)) else None
    else None
  }

  function BranchOpOf(f3: bv3): Option<Op> {
    if f3 == 0 then Some(Branch(BEQ)) else if f3 == 1 then Some(Branch(BNE)) else if f3 == 4 then Some(Branch(BLT))
    else if f3 == 5 then Some(Branch(BGE)) else if f3 == 6 then Some(Branch(BLTU)) else if f3 == 7 then Some(Branch(BGEU)) else None
  }

  function CsrOpOf(f3: bv3): Option<Op> {
    if f3 == 1 then Some(Csr(CSRRW)) else if f3 == 2 then Some(Csr(CSRRS)) else if f3 == 3 then Some(Csr(CSRRC))
    else if f3 == 5 then Some(Csr(CSRRWI)) else if f3 == 6 then Some(Csr(CSRRSI)) else if f3 == 7 then Some(Csr(CSRRCI))
    else None
  }

  /** The four fused multiply-add opcodes 0x10 to 0x13. */
  function FmaOpOf(opcode: bv5, f2: bv2): Option<Op> {
    if f2 != 0 && f2 != 1 then None
    else
      var m := if f2 == 0 then S else D;
      Some(Fp(if opcode == 0x10 then FMADD(m) else if opcode == 0x11 then FMSUB(m)
              else if opcode == 0x12 then FNMSUB(m) else FNMADD(m)))
  }

  function KindOf(rs2: bv5): Option<IntKind> {
    if rs2 == 0 then Some(W) else if rs2 == 1 then Some(WU)
    else if rs2 == 2 then Some(L) else if rs2 == 3 then Some(LU) else None
  }

  /** Opcode 0x14. The cases of the switch over funct7 come in pairs that differ in the low
      bit, which is the precision. */
  function FpOpOf(f7: bv7, f3: bv3, rs2: bv5): Option<Op> {
    FpGroup(f7 & 0x7e, if f7 & 1 == 0 then S else D, f3, rs2)
  }

  function FpGroup(b: bv7, m: Fmt, f3: bv3, rs2: bv5): Option<Op> {
    if b == 0x00 then Some(Fp(FADD(m)))
    else if b == 0x04 then Some(Fp(FSUB(m)))
    else if b == 0x08 then Some(Fp(FMUL(m)))
    else if b == 0x0c then Some(Fp(FDIV(m)))
    else if b == 0x10 then
      (if f3 == 0 then Some(Fp(FSGNJ(m))) else if f3 == 1 then Some(Fp(FSGNJN(m)))
       else if f3 == 2 then Some(Fp(FSGNJX(m))) else None)
    else if b == 0x14 then
      (if f3 == 0 then Some(Fp(FMIN(m))) else if f3 == 1 then Some(Fp(FMAX(m))) else None)
    else if b == 0x20 then (if rs2 == (if m.S? then 1 else 0) then Some(Fp(FCVT(m))) else None)
    else if b == 0x2c then (if rs2 == 0 then Some(Fp(FSQRT(m))) else None)
    else if b == 0x50 then
      (if f3 == 0 then Some(Fp(FLE(m))) else if f3 == 1 then Some(Fp(FLT(m)))
       else if f3 == 2 then Some(Fp(FEQ(m))) else None)
    else if b == 0x60 then (var k := KindOf(rs2); if k.Some? then Some(Fp(FCVTX(k.value, m))) else None)
    else if b == 0x68 then (var k := KindOf(rs2); if k.Some? then Some(Fp(FCVTF(m, k.value))) else None)
    else if b == 0x70 then
      (if rs2 != 0 then None else if f3 == 0 then Some(Fp(FMVX(m))) else if f3 == 1 then Some(Fp(FCLASS(m))) else None)
    else if b == 0x78 then (if rs2 == 0 && f3 == 0 then Some(Fp(FMVF(m))) else None)
    else None
  }

  function WithOp(i: Inst, k: Option<Op>): Option<Inst> {
    if k.Some? then Some(i.(op := k.value)) else None
  }

  function DecodeQ3(prev: Inst, d: bv32): Option<Inst> {
    DecodeMajor(prev, d, Opcode(d), Funct3(d), Funct7(d))
  }

  /** The switch over the major opcode. */
  function DecodeMajor(prev: Inst, d: bv32, o: bv5, f3: bv3, f7: bv7): Option<Inst> {
    if o == 0x00 then WithOp(IType(d), LoadOpOf(f3))
    else if o == 0x01 then
      (if f3 == 2 then Some(IType(d).(op := Flw)) else if f3 == 3 then Some(IType(d).(op := Fld)) else None)
    else if o == 0x03 then
      (if f3 == 0 then Some(BLANK.(op := Fence)) else if f3 == 1 then Some(BLANK.(op := FenceI)) else None)
    else if o == 0x04 then WithOp(IType(d), ImmOpOf(f3, Imm116(d)))
    else if o == 0x05 then Some(UType(d).(op := Auipc))
    else if o == 0x06 then WithOp(IType(d), ImmWordOpOf(f3, f7))
    else if o == 0x08 then WithOp(SType(d), StoreOpOf(f3))
    else if o == 0x09 then
      (if f3 == 2 then Some(SType(d).(op := Fsw)) else if f3 == 3 then Some(SType(d).(op := Fsd)) else None)
    else if o == 0x0c then WithOp(RType(d), RegOpOf(f3, f7))
    else if o == 0x0d then Some(UType(d).(op := Lui))
    else if o == 0x0e then WithOp(RType(d), RegWordOpOf(f3, f7))
    else if 0x10 <= o <= 0x13 then WithOp(FprType(d), FmaOpOf(o, Funct2(d)))
    else if o == 0x14 then WithOp(RType(d), FpOpOf(f7, f3, Rs2(d)))
    else if o == 0x18 then WithOp(BType(d), BranchOpOf(f3))
    else if o == 0x19 then Some(IType(d).(op := Jalr, continueExec := true))
    else if o == 0x1b then Some(JType(d).(op := Jal, continueExec := true))
    else if o == 0x1c then
      // ECALL overwrites two fields of the reused record and leaves the others as they were
      (if d == 0x73 then Some(prev.(op := Ecall, continueExec := true))
       else WithOp(CsrType(d), CsrOpOf(f3)))
    else None
  }

  /** `decode_inst(inst, data)`, where `prev` is the content of `*inst` before the call. */
  function DecodeInst(prev: Inst, d: bv32): Option<Inst> {
    var quadrant := d & 0x3;
    if quadrant == 0 then DecodeQ0(d)
    else if quadrant == 1 then DecodeQ1(d)
    else if quadrant == 2 then DecodeQ2(d)
    else DecodeQ3(prev, d)
  }
}
