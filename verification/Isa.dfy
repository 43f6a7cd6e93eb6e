/** The flat semantics the emulator is meant to implement: one instruction is one step on the
    architectural state. There is no block, no exit reason, no re-entry address and no reused
    instruction record here, and x0 is never written. */
module Isa {
  import opened Words
  import opened Instruction
  import opened Alu
  import opened Memory
  import opened Decode
  import opened FloatBits

  type Regs = s: seq<u64> | |s| == 32 witness seq(32, i => 0)

  datatype Arch = Arch(pc: u64, x: Regs, f: Regs, mem: Mem)

  /** What one or more steps lead to: still running, stopped by an ECALL with pc behind it, or
      the emulator process is dead (rejected word, unmapped access, host division by zero,
      unsupported CSR). */
  datatype Result = Running(arch: Arch) | Called(arch: Arch) | Dead

  /** Floating-point arithmetic is whatever the host computes on the operand bit patterns. */
  type HostFloat = (FpOp, u64, u64, u64) -> u64

  datatype FpWrite = ToX(value: u64) | ToF(value: u64)

  function Len(i: Inst): nat { if i.rvc then 2 else 4 }

  function WriteX(x: Regs, rd: bv5, v: u64): Regs {
    if rd == 0 then x else x[rd as int := v]
  }

  function SetLow(prior: u64, w: u32): u64 { Wrap64((prior / 0x1_0000_0000) * 0x1_0000_0000 + w) }

  function Boxed(w: u32): u64 { Wrap64(0xffff_ffff_0000_0000 + w) }

  /** An operand as the instruction's precision reads it. */
  function Operand(m: Fmt, v: u64): u64 { if m.S? then Wrap32(v) else v }

  /** Writing a single-precision result leaves the high half of the register alone. */
  function FpResult(m: Fmt, prior: u64, v: u64): (w: FpWrite)
    ensures w.ToF?
  {
    ToF(if m.S? then SetLow(prior, Wrap32(v)) else v)
  }

  function SignInject(m: Fmt, a: u64, b: u64, n: bool, x: bool): u64 {
    if m.S? then Boxed(Value32(Fsgnj32(Bits32(Wrap32(a)), Bits32(Wrap32(b)), n, x)))
    else Value(Fsgnj64(Bits(a), Bits(b), n, x))
  }

  function Classify(m: Fmt, a: u64): u64 {
    if m.S? then Classify32(Bits32(Wrap32(a))) as int else Classify64(Bits(a)) as int
  }

  /** x1 is the integer register rs1, f1 to f3 the floating-point sources, prior the destination. */
  function FpEffect(host: HostFloat, k: FpOp, x1: u64, f1: u64, f2: u64, f3: u64, prior: u64): FpWrite {
    match k
    case FSGNJ(m) => ToF(SignInject(m, f1, f2, false, false))
    case FSGNJN(m) => ToF(SignInject(m, f1, f2, true, false))
    case FSGNJX(m) => ToF(SignInject(m, f1, f2, false, true))
    case FCLASS(m) => ToX(Classify(m, f1))
    case FMVX(m) => ToX(if m.S? then SextWord(f1) else f1)
    case FMVF(m) => ToF(if m.S? then SetLow(prior, Wrap32(x1)) else x1)
    case FEQ(m) => ToX(host(k, Operand(m, f1), Operand(m, f2), 0))
    case FLT(m) => ToX(host(k, Operand(m, f1), Operand(m, f2), 0))
    case FLE(m) => ToX(host(k, Operand(m, f1), Operand(m, f2), 0))
    case FCVTX(_, m) => ToX(host(k, Operand(m, f1), 0, 0))
    case FCVTF(m, _) => FpResult(m, prior, host(k, x1, 0, 0))
    case FCVT(m) => FpResult(m, prior, host(k, if m.S? then f1 else Wrap32(f1), 0, 0))
    case FSQRT(m) => FpResult(m, prior, host(k, Operand(m, f1), 0, 0))
    case FMADD(m) => FpResult(m, prior, host(k, Operand(m, f1), Operand(m, f2), Operand(m, f3)))
    case FMSUB(m) => FpResult(m, prior, host(k, Operand(m, f1), Operand(m, f2), Operand(m, f3)))
    case FNMSUB(m) => FpResult(m, prior, host(k, Operand(m, f1), Operand(m, f2), Operand(m, f3)))
    case FNMADD(m) => FpResult(m, prior, host(k, Operand(m, f1), Operand(m, f2), Operand(m, f3)))
    case _ => FpResult(k.fmt, prior, host(k, Operand(k.fmt, f1), Operand(k.fmt, f2), 0))
  }

  /** The effective address of a load or store. */
  function Address(i: Inst, a: Arch): u64 { Wrap64(a.x[i.rs1 as int] + Simm(i.imm)) }

  function ExecLoad(i: Inst, k: LoadOp, a: Arch, next: u64): Result {
    var addr := Address(i, a);
    if !Mapped(a.mem, addr, LoadWidth(k)) then Dead
    else Running(a.(pc := next, x := WriteX(a.x, i.rd, LoadExtend(k, Wrap64(LoadLE(a.mem, addr, LoadWidth(k)))))))
  }

  function ExecStore(i: Inst, value: u64, width: nat, a: Arch, next: u64): Result {
    var addr := Address(i, a);
    if !Mapped(a.mem, addr, width) then Dead
    else Running(a.(pc := next, mem := StoreLE(a.mem, addr, value, width)))
  }

  function ExecFpLoad(i: Inst, m: Fmt, a: Arch, next: u64): Result {
    var addr, width := Address(i, a), if m.S? then 4 else 8;
    if !Mapped(a.mem, addr, width) then Dead
    else
      var v := LoadLE(a.mem, addr, width);
      Running(a.(pc := next, f := a.f[i.rd as int := if m.S? then Boxed(Wrap32(v)) else Wrap64(v)]))
  }

  /** The register write of a floating-point instruction. */
  function Written(i: Inst, w: FpWrite, a: Arch, next: u64): Result {
    match w
    case ToX(v) => Running(a.(pc := next, x := WriteX(a.x, i.rd, v)))
    case ToF(v) => Running(a.(pc := next, f := a.f[i.rd as int := v]))
  }

  function ExecFp(host: HostFloat, i: Inst, k: FpOp, a: Arch, next: u64): Result {
    var w := FpEffect(host, k, a.x[i.rs1 as int], a.f[i.rs1 as int], a.f[i.rs2 as int], a.f[i.rs3 as int], a.f[i.rd as int]);
    Written(i, w, a, next)
  }

  /** Executing one decoded instruction. */
  function Execute(host: HostFloat, i: Inst, a: Arch): Result {
    var next := Wrap64(a.pc + Len(i));
    var x1, x2 := a.x[i.rs1 as int], a.x[i.rs2 as int];
    match i.op
    case Load(k) => ExecLoad(i, k, a, next)
    case Store(k) => ExecStore(i, x2, StoreWidth(k), a, next)
    case Fence => Running(a.(pc := next))
    case FenceI => Running(a.(pc := next))
    case Imm(k) => Running(a.(pc := next, x := WriteX(a.x, i.rd, ImmResult(k, x1, i.imm))))
    case Reg(k) =>
      var v := RegResult(k, x1, x2);
      if v.None? then Dead else Running(a.(pc := next, x := WriteX(a.x, i.rd, v.value)))
    case Auipc => Running(a.(pc := next, x := WriteX(a.x, i.rd, Wrap64(a.pc + Simm(i.imm)))))
    case Lui => Running(a.(pc := next, x := WriteX(a.x, i.rd, Wrap64(Simm(i.imm)))))
    case Branch(k) => Running(a.(pc := if BranchTaken(k, x1, x2) then Wrap64(a.pc + Simm(i.imm)) else next))
    case Jal => Running(a.(pc := Wrap64(a.pc + Simm(i.imm)), x := WriteX(a.x, i.rd, next)))
    case Jalr => Running(a.(pc := ClearBit0(Wrap64(x1 + Simm(i.imm))), x := WriteX(a.x, i.rd, next)))
    case Ecall => Called(a.(pc := Wrap64(a.pc + 4)))
    case Csr(_) =>
      if CsrSupported(i.csr) then Running(a.(pc := next, x := WriteX(a.x, i.rd, 0))) else Dead
    case Flw => ExecFpLoad(i, S, a, next)
    case Fld => ExecFpLoad(i, D, a, next)
    case Fsw => ExecStore(i, a.f[i.rs2 as int], 4, a, next)
    case Fsd => ExecStore(i, a.f[i.rs2 as int], 8, a, next)
    case Fp(k) => ExecFp(host, i, k, a, next)
  }

  // ---- one lemma for each shape of instruction ----

  lemma RegArm(host: HostFloat, i: Inst, k: RegOp, a: Arch)
    requires i.op == Reg(k)
    ensures var v := RegResult(k, a.x[i.rs1 as int], a.x[i.rs2 as int]);
      Execute(host, i, a) ==
        if v.None? then Dead else Running(a.(pc := Wrap64(a.pc + Len(i)), x := WriteX(a.x, i.rd, v.value)))
  {
    hide RegResult, WriteX, Wrap64;
  }

  lemma ImmArm(host: HostFloat, i: Inst, a: Arch)
    ensures var next := Wrap64(a.pc + Len(i));
      && (i.op.Imm? ==>
            var v := ImmResult(i.op.alu, a.x[i.rs1 as int], i.imm);
            Execute(host, i, a) == Running(a.(pc := next, x := WriteX(a.x, i.rd, v))))
      && (i.op == Lui ==>
            Execute(host, i, a) == Running(a.(pc := next, x := WriteX(a.x, i.rd, Wrap64(Simm(i.imm))))))
      && (i.op == Auipc ==>
            Execute(host, i, a) == Running(a.(pc := next, x := WriteX(a.x, i.rd, Wrap64(a.pc + Simm(i.imm))))))
  {
    hide ImmResult, WriteX, Wrap64, Simm;
  }

  lemma BranchArm(host: HostFloat, i: Inst, k: BranchOp, a: Arch)
    requires i.op == Branch(k)
    ensures var taken := BranchTaken(k, a.x[i.rs1 as int], a.x[i.rs2 as int]);
      Execute(host, i, a) == Running(a.(pc := Wrap64(a.pc + (if taken then Simm(i.imm) else Len(i)))))
  {
    hide BranchTaken, Simm, Wrap64;
  }

  lemma JumpArms(host: HostFloat, i: Inst, a: Arch)
    ensures var next, x1 := Wrap64(a.pc + Len(i)), a.x[i.rs1 as int];
      && (i.op == Jal ==>
            Execute(host, i, a) == Running(a.(pc := Wrap64(a.pc + Simm(i.imm)), x := WriteX(a.x, i.rd, next))))
      && (i.op == Jalr ==>
            Execute(host, i, a) == Running(a.(pc := ClearBit0(Wrap64(x1 + Simm(i.imm))), x := WriteX(a.x, i.rd, next))))
  {
    hide WriteX, Simm, Wrap64, ClearBit0;
  }

  lemma PlainArms(host: HostFloat, i: Inst, a: Arch)
    ensures var next := Wrap64(a.pc + Len(i));
      && (i.op == Fence || i.op == FenceI ==> Execute(host, i, a) == Running(a.(pc := next)))
      && (i.op.Csr? ==>
            var read := Running(a.(pc := next, x := WriteX(a.x, i.rd, 0)));
            Execute(host, i, a) == if CsrSupported(i.csr) then read else Dead)
  {
    hide WriteX, Wrap64, CsrSupported;
  }

  lemma LoadArm(host: HostFloat, i: Inst, l: LoadOp, a: Arch)
    requires i.op == Load(l)
    ensures Execute(host, i, a) == ExecLoad(i, l, a, Wrap64(a.pc + Len(i)))
  {
    hide ExecLoad;
  }

  lemma StoreArm(host: HostFloat, i: Inst, k: StoreOp, a: Arch)
    requires i.op == Store(k)
    ensures forall pc: u64, mem: Mem :: Address(i, a.(pc := pc, mem := mem)) == Address(i, a)
    ensures Execute(host, i, a) ==
      if Mapped(a.mem, Address(i, a), StoreWidth(k))
      then Running(a.(pc := Wrap64(a.pc + Len(i)), mem := StoreLE(a.mem, Address(i, a), a.x[i.rs2 as int], StoreWidth(k))))
      else Dead
  {
    hide StoreLE, Mapped;
  }

  lemma FpMemoryArms(host: HostFloat, i: Inst, a: Arch)
    ensures var next, f2 := Wrap64(a.pc + Len(i)), a.f[i.rs2 as int];
      && (i.op == Flw ==> Execute(host, i, a) == ExecFpLoad(i, S, a, next))
      && (i.op == Fld ==> Execute(host, i, a) == ExecFpLoad(i, D, a, next))
      && (i.op == Fsw ==> Execute(host, i, a) == ExecStore(i, f2, 4, a, next))
      && (i.op == Fsd ==> Execute(host, i, a) == ExecStore(i, f2, 8, a, next))
  {
    hide ExecFpLoad, ExecStore;
  }

  lemma FpArm(host: HostFloat, i: Inst, k: FpOp, a: Arch)
    requires i.op == Fp(k)
    ensures Execute(host, i, a) == ExecFp(host, i, k, a, Wrap64(a.pc + Len(i)))
  {
  }

  /** `t & ~(uint64_t)1`. */
  function ClearBit0(t: u64): u64 { t - t % 2 }

  /** Fetch, decode with no memory of earlier instructions, execute. */
  function Step(host: HostFloat, a: Arch): Result {
    if !Mapped(a.mem, a.pc, 4) then Dead
    else
      var i := DecodeInst(BLANK, FetchWord(a.mem, a.pc));
      if i.None? then Dead else Execute(host, i.value, a)
  }

  /** At most n steps; a call or a death ends the run. */
  function Run(host: HostFloat, a: Arch, n: nat): Result
    decreases n
  {
    if n == 0 then Running(a)
    else
      var r := Step(host, a);
      if r.Running? then Run(host, r.arch, n - 1) else r
  }
}
