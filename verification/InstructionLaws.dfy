/** What executing one instruction does to the state, stated on the instruction itself: which
    register gets which value, where control goes, and what stays as it was. */
module InstructionLaws {
  import opened Words
  import opened Instruction
  import opened Alu
  import opened Isa
  import opened IntegerLaws

  /** Register rd has become v, x0 excepted, and every other register is as before. */
  predicate Writes(x: Regs, x': Regs, rd: bv5, v: u64) {
    forall r | 0 <= r < 32 :: x'[r] == if r == rd as int && r != 0 then v else x[r]
  }

  lemma WriteLaw(x: Regs, rd: bv5, v: u64)
    ensures Writes(x, WriteX(x, rd, v), rd, v)
  {
    assert rd == 0 <==> rd as int == 0;
  }

  /** pc has moved behind the instruction. */
  predicate Advances(i: Inst, a: Arch, b: Arch) { Same(b.pc, a.pc + (if i.rvc then 2 else 4)) }

  /** The instruction only writes v to rd. */
  predicate Computes(i: Inst, a: Arch, b: Arch, v: u64) {
    Writes(a.x, b.x, i.rd, v) && b.f == a.f && b.mem == a.mem && Advances(i, a, b)
  }

  lemma NextAdvances(i: Inst, a: Arch, b: Arch)
    requires b.pc == Wrap64(a.pc + Len(i))
    ensures Advances(i, a, b)
  {
    WrapIsSame(b.pc, a.pc + Len(i));
  }

  // ---- computation ----

  /** A register-register instruction writes the value the laws of IntegerLaws and Division speak
      of, computed from rs1 and rs2; it dies only with a host division by zero. */
  lemma RegisterLaw(host: HostFloat, i: Inst, k: RegOp, a: Arch, v: u64)
    requires i.op == Reg(k) && RegResult(k, a.x[i.rs1 as int], a.x[i.rs2 as int]) == Some(v)
    ensures Execute(host, i, a).Running? && Computes(i, a, Execute(host, i, a).arch, v)
  {
    hide Execute, RegResult, WriteX, Writes, Wrap64, Advances;
    RegArm(host, i, k, a);
    WriteLaw(a.x, i.rd, v);
    NextAdvances(i, a, Execute(host, i, a).arch);
  }

  /** A register-immediate instruction writes what its register form computes on rs1 and the
      register value congruent to the immediate. */
  lemma RegisterImmediateLaw(host: HostFloat, i: Inst, k: ImmOp, a: Arch, y: u64, v: u64)
    requires i.op == Imm(k) && Same(y, Simm(i.imm))
    requires RegResult(RegForm(k), a.x[i.rs1 as int], y) == Some(v)
    ensures Execute(host, i, a).Running? && Computes(i, a, Execute(host, i, a).arch, v)
  {
    hide Execute, RegResult, ImmResult, WriteX, Writes, Wrap64, Advances, Simm, RegForm;
    WrapIsSame(y, Simm(i.imm));
    ImmediateLaw(k, a.x[i.rs1 as int], i.imm);
    ImmArm(host, i, a);
    WriteLaw(a.x, i.rd, v);
    NextAdvances(i, a, Execute(host, i, a).arch);
  }

  /** LUI writes the immediate and AUIPC its sum with the address of the instruction. */
  lemma UpperLaw(host: HostFloat, i: Inst, a: Arch, v: u64)
    requires i.op == Lui || i.op == Auipc
    requires Same(v, if i.op == Lui then Simm(i.imm) else a.pc + Simm(i.imm))
    ensures Execute(host, i, a).Running? && Computes(i, a, Execute(host, i, a).arch, v)
  {
    hide Execute, WriteX, Writes, Wrap64, Advances, Simm;
    WrapIsSame(v, if i.op == Lui then Simm(i.imm) else a.pc + Simm(i.imm));
    ImmArm(host, i, a);
    WriteLaw(a.x, i.rd, v);
    NextAdvances(i, a, Execute(host, i, a).arch);
  }

  // ---- control ----

  function Biased(x: u64): u64 { (x + 0x8000_0000_0000_0000) % 0x1_0000_0000_0000_0000 }

  /** What the branch conditions are: equality, the order of the register values, and for the signed
      order that of the values moved up by 2^63. */
  predicate Holds(k: BranchOp, x: u64, y: u64) {
    match k
    case BEQ => x == y
    case BNE => x != y
    case BLT => Biased(x) < Biased(y)
    case BGE => Biased(y) <= Biased(x)
    case BLTU => x < y
    case BGEU => y <= x
  }

  lemma TakenHolds(k: BranchOp, x: u64, y: u64)
    ensures BranchTaken(k, x, y) <==> Holds(k, x, y)
  {
    SignedOrder(x, y);
    hide Signed64, Biased;
  }

  lemma SignedOrder(x: u64, y: u64)
    ensures Signed64(x) < Signed64(y) <==> Biased(x) < Biased(y)
  {
  }

  /** A branch whose condition holds goes to the address congruent to pc plus the immediate, any
      other falls through; nothing else changes. */
  lemma BranchLaw(host: HostFloat, i: Inst, k: BranchOp, a: Arch, target: u64)
    requires i.op == Branch(k) && Same(target, a.pc + Simm(i.imm))
    ensures Execute(host, i, a).Running?
    ensures var b := Execute(host, i, a).arch;
      && b.x == a.x && b.f == a.f && b.mem == a.mem
      && (if Holds(k, a.x[i.rs1 as int], a.x[i.rs2 as int]) then b.pc == target else Advances(i, a, b))
  {
    hide Execute, BranchTaken, Holds, Simm, Wrap64, Advances;
    BranchArm(host, i, k, a);
    TakenHolds(k, a.x[i.rs1 as int], a.x[i.rs2 as int]);
    WrapIsSame(target, a.pc + Simm(i.imm));
    if !Holds(k, a.x[i.rs1 as int], a.x[i.rs2 as int]) {
      NextAdvances(i, a, Execute(host, i, a).arch);
    }
  }

  /** The conditions among themselves, and against the set instructions: opposite pairs, and exactly
      one of less, equal and greater in either order. */
  lemma BranchOrder(x: u64, y: u64)
    ensures BranchTaken(BNE, x, y) <==> !BranchTaken(BEQ, x, y)
    ensures BranchTaken(BGE, x, y) <==> !BranchTaken(BLT, x, y)
    ensures BranchTaken(BGEU, x, y) <==> !BranchTaken(BLTU, x, y)
    ensures BranchTaken(BLT, x, y) <==> !BranchTaken(BEQ, x, y) && !BranchTaken(BLT, y, x)
    ensures BranchTaken(BLTU, x, y) <==> !BranchTaken(BEQ, x, y) && !BranchTaken(BLTU, y, x)
    ensures BranchTaken(BLT, x, y) <==> RegResult(SLT, x, y) == Some(1)
    ensures BranchTaken(BLTU, x, y) <==> RegResult(SLTU, x, y) == Some(1)
  {
  }

  /** JAL goes to the address congruent to pc plus the immediate, JALR to the even one of the sum of
      rs1 and the immediate and the address before it; both link the address behind themselves. */
  lemma JumpLaw(host: HostFloat, i: Inst, a: Arch, target: u64, link: u64)
    requires i.op == Jal || i.op == Jalr
    requires Same(target, (if i.op == Jal then a.pc else a.x[i.rs1 as int]) + Simm(i.imm))
    requires Same(link, a.pc + (if i.rvc then 2 else 4))
    ensures Execute(host, i, a).Running?
    ensures var b := Execute(host, i, a).arch;
      && Writes(a.x, b.x, i.rd, link) && b.f == a.f && b.mem == a.mem
      && (if i.op == Jal then b.pc == target else b.pc % 2 == 0 && b.pc <= target <= b.pc + 1)
  {
    hide Execute, WriteX, Writes, Simm, Wrap64;
    JumpArms(host, i, a);
    WriteLaw(a.x, i.rd, link);
    WrapIsSame(target, (if i.op == Jal then a.pc else a.x[i.rs1 as int]) + Simm(i.imm));
    WrapIsSame(link, a.pc + Len(i));
    ClearsLowBit(target);
  }

  lemma ClearsLowBit(t: u64)
    ensures ClearBit0(t) % 2 == 0 && ClearBit0(t) <= t <= ClearBit0(t) + 1
  {
  }

  // ---- fences and CSRs ----

  /** A fence only moves pc. */
  lemma FenceLaw(host: HostFloat, i: Inst, a: Arch)
    requires i.op == Fence || i.op == FenceI
    ensures Execute(host, i, a).Running?
    ensures var b := Execute(host, i, a).arch; b.x == a.x && b.f == a.f && b.mem == a.mem && Advances(i, a, b)
  {
    hide Execute, Wrap64, Advances;
    PlainArms(host, i, a);
    NextAdvances(i, a, Execute(host, i, a).arch);
  }

  /** A CSR instruction writes zero to rd if the CSR is one of the three of floating point, numbers
      1 to 3, and otherwise kills the emulator. */
  lemma CsrLaw(host: HostFloat, i: Inst, a: Arch)
    requires i.op.Csr?
    ensures Execute(host, i, a) == Dead <==> !(1 <= i.csr as int <= 3)
    ensures Execute(host, i, a) != Dead ==> Execute(host, i, a).Running? && Computes(i, a, Execute(host, i, a).arch, 0)
  {
    hide Execute, WriteX, Writes, Wrap64, Advances, CsrSupported;
    PlainArms(host, i, a);
    CsrNumbers(i.csr);
    WriteLaw(a.x, i.rd, 0);
    if CsrSupported(i.csr) {
      NextAdvances(i, a, Execute(host, i, a).arch);
    }
  }

  lemma CsrNumbers(c: bv16)
    ensures CsrSupported(c) <==> 1 <= c as int <= 3
  {
    assert CsrSupported(c) ==> 1 <= c as int <= 3;
    assert c as int == 1 ==> c == 1;
    assert c as int == 2 ==> c == 2;
    assert c as int == 3 ==> c == 3;
  }
}
