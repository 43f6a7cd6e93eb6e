/** Runs of the flat semantics: how they compose, where they stop, and what every one keeps. */
module Runs {
  import opened Words
  import opened Instruction
  import opened Alu
  import opened BitPatterns
  import opened Memory
  import opened Decode
  import opened Assembler
  import opened WideBits
  import opened Isa

  // ---- composition ----

  lemma {:induction false} RunAdd(host: HostFloat, a: Arch, n: nat, m: nat, b: Arch)
    requires Run(host, a, n) == Running(b)
    ensures Run(host, a, n + m) == Run(host, b, m)
    decreases n
  {
    hide Step;
    if n > 0 {
      RunAdd(host, Step(host, a).arch, n - 1, m, b);
    }
  }

  lemma RunNone(host: HostFloat, a: Arch)
    ensures Run(host, a, 0) == Running(a)
  {
    hide Step;
  }

  lemma RunOne(host: HostFloat, a: Arch)
    ensures Run(host, a, 1) == Step(host, a)
  {
    hide Step;
    var r := Step(host, a);
    if r.Running? {
      assert Run(host, r.arch, 0) == r;
    }
  }

  /** A run that has stopped stays stopped. */
  lemma {:induction false} RunStops(host: HostFloat, a: Arch, n: nat, m: nat)
    requires !Run(host, a, n).Running?
    ensures Run(host, a, n + m) == Run(host, a, n)
    decreases n
  {
    hide Step;
    if n > 0 && Step(host, a).Running? {
      RunStops(host, Step(host, a).arch, n - 1, m);
    }
  }

  // ---- the decoder and the reused record ----

  /** Only ECALL reads the previous contents of the record. */
  lemma PrevOnlyForEcall(prev: Inst, d: bv32)
    requires d != 0x73
    ensures DecodeInst(prev, d) == DecodeInst(BLANK, d)
  {
    hide LoadOpOf, ImmOpOf, ImmWordOpOf, StoreOpOf, RegOpOf, RegWordOpOf, BranchOpOf, CsrOpOf, FpOpOf, FmaOpOf,
         UType, IType, JType, BType, RType, SType, CsrType, FprType, DecodeQ0, DecodeQ1, DecodeQ2;
  }

  lemma EcallWord(prev: Inst)
    ensures DecodeInst(prev, 0x73) == Some(prev.(op := Ecall, continueExec := true))
  {
    hide LoadOpOf, ImmOpOf, ImmWordOpOf, StoreOpOf, RegOpOf, RegWordOpOf, BranchOpOf, CsrOpOf, FpOpOf, FmaOpOf,
         UType, IType, JType, BType, RType, SType, CsrType, FprType, DecodeQ0, DecodeQ1, DecodeQ2;
  }

  /** The effect of an instruction does not depend on what the reused record held before,
      although ECALL keeps most of it. */
  lemma HistoryIndependent(host: HostFloat, prev: Inst, d: bv32, a: Arch)
    ensures DecodeInst(prev, d).Some? <==> DecodeInst(BLANK, d).Some?
    ensures DecodeInst(prev, d).Some? ==>
      Execute(host, DecodeInst(prev, d).value, a) == Execute(host, DecodeInst(BLANK, d).value, a)
  {
    hide DecodeInst;
    if d == 0x73 {
      EcallWord(prev);
      EcallWord(BLANK);
      EcallArm(host, DecodeInst(prev, d).value, a);
      EcallArm(host, DecodeInst(BLANK, d).value, a);
    } else {
      PrevOnlyForEcall(prev, d);
    }
    hide Execute;
  }

  lemma EcallArm(host: HostFloat, i: Inst, a: Arch)
    requires i.op == Ecall
    ensures Execute(host, i, a) == Called(a.(pc := Wrap64(a.pc + 4)))
  {
  }

  // ---- which instructions leave a block ----

  predicate Leaves(op: Op) { op.Jal? || op.Jalr? || op.Ecall? }

  lemma Compressed0Flags(d: bv32)
    ensures var r := DecodeQ0(d); r.Some? ==> (r.value.continueExec <==> Leaves(r.value.op)) && !r.value.op.Ecall?
  {
    hide CIWImm, CSImm, CSImm2, Rp1, Rp2, COpcode;
  }

  lemma Compressed1Flags(d: bv32)
    ensures var r := DecodeQ1(d); r.Some? ==> (r.value.continueExec <==> Leaves(r.value.op)) && !r.value.op.Ecall?
  {
    hide CIImm, CIImm3, CIImm5, CJImm, CBImm, Rp1, Rp2, Rc1, COpcode, CFunct1, CFunct2Low, CFunct2High;
  }

  lemma Compressed2Flags(d: bv32)
    ensures var r := DecodeQ2(d); r.Some? ==> (r.value.continueExec <==> Leaves(r.value.op)) && !r.value.op.Ecall?
  {
    hide CIImm, CIImm2, CIImm4, CSSImm, CSSImm2, Rc1, Rc2, COpcode, CFunct1;
  }

  /** Each selector stays within its group. */
  lemma SelectedOps(f3: bv3, f7: bv7, x: bv6)
    ensures var r := LoadOpOf(f3); r.Some? ==> r.value.Load?
    ensures var r := ImmOpOf(f3, x); r.Some? ==> r.value.Imm?
    ensures var r := ImmWordOpOf(f3, f7); r.Some? ==> r.value.Imm?
    ensures var r := StoreOpOf(f3); r.Some? ==> r.value.Store?
    ensures var r := BranchOpOf(f3); r.Some? ==> r.value.Branch?
    ensures var r := CsrOpOf(f3); r.Some? ==> r.value.Csr?
  {
  }

  lemma SelectedRegOps(f3: bv3, f7: bv7)
    ensures var r := RegOpOf(f3, f7); r.Some? ==> r.value.Reg?
    ensures var r := RegWordOpOf(f3, f7); r.Some? ==> r.value.Reg?
  {
  }

  lemma SelectedFpOps(o: bv5, f2: bv2, f3: bv3, f7: bv7, rs2: bv5)
    ensures var r := FpOpOf(f7, f3, rs2); r.Some? ==> r.value.Fp?
    ensures var r := FmaOpOf(o, f2); r.Some? ==> r.value.Fp?
  {
  }

  lemma PlainRecords(d: bv32)
    ensures !UType(d).continueExec && !IType(d).continueExec && !JType(d).continueExec && !BType(d).continueExec
    ensures !RType(d).continueExec && !SType(d).continueExec && !CsrType(d).continueExec && !FprType(d).continueExec
  {
    hide Rd, Rs1, Rs2, Rs3, IImm, UImm, JImm, BImm, SImm;
  }

  /** Execution goes on with the next instruction. */
  predicate Sequential(i: Inst) { !i.continueExec && !Leaves(i.op) && !i.op.Branch? }

  lemma LoadOpcodes(prev: Inst, d: bv32, o: bv5, f3: bv3, f7: bv7)
    requires o == 0x00 || o == 0x01 || o == 0x03
    ensures var r := DecodeMajor(prev, d, o, f3, f7); r.Some? ==> Sequential(r.value)
  {
    hide LoadOpOf, ImmOpOf, ImmWordOpOf, StoreOpOf, RegOpOf, RegWordOpOf, BranchOpOf, CsrOpOf, FpOpOf, FmaOpOf,
         Funct2, Imm116, UType, IType, JType, BType, RType, SType, CsrType, FprType;
    PlainRecords(d);
    SelectedOps(f3, f7, Imm116(d));
  }

  lemma ImmOpcodes(prev: Inst, d: bv32, o: bv5, f3: bv3, f7: bv7)
    requires o == 0x04 || o == 0x05 || o == 0x06
    ensures var r := DecodeMajor(prev, d, o, f3, f7); r.Some? ==> Sequential(r.value)
  {
    hide LoadOpOf, ImmOpOf, ImmWordOpOf, StoreOpOf, RegOpOf, RegWordOpOf, BranchOpOf, CsrOpOf, FpOpOf, FmaOpOf,
         Funct2, Imm116, UType, IType, JType, BType, RType, SType, CsrType, FprType;
    PlainRecords(d);
    SelectedOps(f3, f7, Imm116(d));
  }

  lemma StoreOpcodes(prev: Inst, d: bv32, o: bv5, f3: bv3, f7: bv7)
    requires o == 0x08 || o == 0x09 || o == 0x0d
    ensures var r := DecodeMajor(prev, d, o, f3, f7); r.Some? ==> Sequential(r.value)
  {
    hide LoadOpOf, ImmOpOf, ImmWordOpOf, StoreOpOf, RegOpOf, RegWordOpOf, BranchOpOf, CsrOpOf, FpOpOf, FmaOpOf,
         Funct2, Imm116, UType, IType, JType, BType, RType, SType, CsrType, FprType;
    PlainRecords(d);
    SelectedOps(f3, f7, Imm116(d));
  }

  lemma RegOpcodes(prev: Inst, d: bv32, o: bv5, f3: bv3, f7: bv7)
    requires o == 0x0c || o == 0x0e
    ensures var r := DecodeMajor(prev, d, o, f3, f7); r.Some? ==> Sequential(r.value)
  {
    hide LoadOpOf, ImmOpOf, ImmWordOpOf, StoreOpOf, RegOpOf, RegWordOpOf, BranchOpOf, CsrOpOf, FpOpOf, FmaOpOf,
         Funct2, Imm116, UType, IType, JType, BType, RType, SType, CsrType, FprType;
    PlainRecords(d);
    SelectedRegOps(f3, f7);
  }

  lemma FpOpcodes(prev: Inst, d: bv32, o: bv5, f3: bv3, f7: bv7)
    requires 0x10 <= o <= 0x14
    ensures var r := DecodeMajor(prev, d, o, f3, f7); r.Some? ==> Sequential(r.value)
  {
    hide LoadOpOf, ImmOpOf, ImmWordOpOf, StoreOpOf, RegOpOf, RegWordOpOf, BranchOpOf, CsrOpOf, FpOpOf, FmaOpOf,
         Funct2, Imm116, UType, IType, JType, BType, RType, SType, CsrType, FprType;
    PlainRecords(d);
    SelectedFpOps(o, Funct2(d), f3, f7, Rs2(d));
  }

  lemma ControlOpcodes(prev: Inst, d: bv32, o: bv5, f3: bv3, f7: bv7)
    requires (o == 0x18 || o == 0x1c) && d != 0x73
    ensures var r := DecodeMajor(prev, d, o, f3, f7); r.Some? ==>
      && (r.value.continueExec <==> Leaves(r.value.op)) && !r.value.op.Ecall? && !r.value.op.Jal?
      && (r.value.op.Branch? ==> r.value.imm == BType(d).imm)
  {
    hide LoadOpOf, ImmOpOf, ImmWordOpOf, StoreOpOf, RegOpOf, RegWordOpOf, BranchOpOf, CsrOpOf, FpOpOf, FmaOpOf,
         Funct2, Imm116, UType, IType, JType, BType, RType, SType, CsrType, FprType;
    PlainRecords(d);
    SelectedOps(f3, f7, Imm116(d));
  }

  lemma JumpOpcodes(prev: Inst, d: bv32, o: bv5, f3: bv3, f7: bv7)
    requires o == 0x19 || o == 0x1b
    ensures var r := DecodeMajor(prev, d, o, f3, f7); 
      && r.Some? && r.value.continueExec && Leaves(r.value.op) && !r.value.op.Ecall? && !r.value.op.Branch?
      && (r.value.op.Jal? ==> r.value.imm == JType(d).imm)
  {
    hide LoadOpOf, ImmOpOf, ImmWordOpOf, StoreOpOf, RegOpOf, RegWordOpOf, BranchOpOf, CsrOpOf, FpOpOf, FmaOpOf,
         Funct2, Imm116, UType, IType, JType, BType, RType, SType, CsrType, FprType;
    PlainRecords(d);
  }

  predicate Listed(o: bv5) {
    || o == 0x00 || o == 0x01 || o == 0x03 || o == 0x04 || o == 0x05 || o == 0x06 || o == 0x08 || o == 0x09
    || o == 0x0c || o == 0x0d || o == 0x0e || 0x10 <= o <= 0x14 || o == 0x18 || o == 0x19 || o == 0x1b || o == 0x1c
  }

  lemma UnlistedOpcodes(prev: Inst, d: bv32, o: bv5, f3: bv3, f7: bv7)
    requires !Listed(o)
    ensures var r := DecodeMajor(prev, d, o, f3, f7); r.None?
  {
    hide LoadOpOf, ImmOpOf, ImmWordOpOf, StoreOpOf, RegOpOf, RegWordOpOf, BranchOpOf, CsrOpOf, FpOpOf, FmaOpOf,
         Funct2, Imm116, UType, IType, JType, BType, RType, SType, CsrType, FprType;
  }

  lemma BaseFlags(prev: Inst, d: bv32)
    ensures var r := DecodeQ3(prev, d); r.Some? && d != 0x73 ==>
      && (r.value.continueExec <==> Leaves(r.value.op)) && !r.value.op.Ecall?
      && (r.value.op.Branch? ==> r.value.imm == BImm(d)) && (r.value.op.Jal? ==> r.value.imm == JImm(d))
  {
    hide DecodeMajor, Opcode, Funct3, Funct7, BImm, JImm, Rd, Rs1, Rs2;
    var o, f3, f7 := Opcode(d), Funct3(d), Funct7(d);
    if !Listed(o) {
      UnlistedOpcodes(prev, d, o, f3, f7);
    } else if o < 0x04 {
      LoadOpcodes(prev, d, o, f3, f7);
    } else if o < 0x08 {
      ImmOpcodes(prev, d, o, f3, f7);
    } else if o == 0x0c || o == 0x0e {
      RegOpcodes(prev, d, o, f3, f7);
    } else if o < 0x10 {
      StoreOpcodes(prev, d, o, f3, f7);
    } else if o < 0x18 {
      FpOpcodes(prev, d, o, f3, f7);
    } else if o == 0x19 || o == 0x1b {
      JumpOpcodes(prev, d, o, f3, f7);
    } else if d != 0x73 {
      ControlOpcodes(prev, d, o, f3, f7);
    }
  }

  /** The decoder marks exactly the unconditional jumps and ECALL as leaving the block, and
      yields an ECALL for the word 0x73 alone. */
  lemma DecodeFlags(prev: Inst, d: bv32)
    ensures var r := DecodeInst(prev, d); r.Some? ==>
      (r.value.continueExec <==> Leaves(r.value.op)) && (r.value.op.Ecall? <==> d == 0x73)
  {
    hide DecodeQ0, DecodeQ1, DecodeQ2, DecodeQ3;
    Compressed0Flags(d);
    Compressed1Flags(d);
    Compressed2Flags(d);
    BaseFlags(prev, d);
    EcallWord(prev);
    assert 0x73 & 0x3 == 0x3 as bv32;
  }

  // ---- alignment of control transfers ----

  lemma EvenImmediates(d: bv32)
    ensures BImm(d) & 1 == 0 && JImm(d) & 1 == 0
  {
  }

  lemma EvenCompressedImmediates(d: bv32)
    ensures CBImm(d) & 1 == 0 && CJImm(d) & 1 == 0
  {
  }

  /** Branches and direct jumps only have even offsets. */
  predicate EvenTarget(i: Inst) { i.op.Branch? || i.op.Jal? ==> i.imm & 1 == 0 }

  lemma Compressed0Even(d: bv32)
    ensures var r := DecodeQ0(d); r.Some? ==> EvenTarget(r.value)
  {
    hide CIWImm, CSImm, CSImm2, Rp1, Rp2, COpcode;
  }

  lemma Compressed1Even(d: bv32)
    ensures var r := DecodeQ1(d); r.Some? ==> EvenTarget(r.value)
  {
    hide CIImm, CIImm3, CIImm5, CJImm, CBImm, Rp1, Rp2, Rc1, COpcode, CFunct1, CFunct2Low, CFunct2High;
    EvenCompressedImmediates(d);
  }

  lemma Compressed2Even(d: bv32)
    ensures var r := DecodeQ2(d); r.Some? ==> EvenTarget(r.value)
  {
    hide CIImm, CIImm2, CIImm4, CSSImm, CSSImm2, Rc1, Rc2, COpcode, CFunct1;
  }

  /** Every branch and direct jump the decoder yields, compressed or not, has an even offset. */
  lemma DecodeEven(prev: Inst, d: bv32)
    ensures var r := DecodeInst(prev, d); r.Some? ==> EvenTarget(r.value)
  {
    hide DecodeQ0, DecodeQ1, DecodeQ2, DecodeQ3, BImm, JImm;
    Compressed0Even(d);
    Compressed1Even(d);
    Compressed2Even(d);
    BaseFlags(prev, d);
    EvenImmediates(d);
    EcallWord(prev);
  }

  // ---- what every run keeps ----

  /** A program in memory: where the four bytes at pc are the standard's encoding of an instruction,
      the step executes that instruction. */
  lemma EncodedStep(host: HostFloat, a: Arch, i: Inst)
    requires WellFormed(i) && Mapped(a.mem, a.pc, 4) && LoadLE(a.mem, a.pc, 4) == Value32(Encode(i))
    ensures Step(host, a) == Execute(host, i, a)
  {
    hide DecodeInst, FetchWord, Execute, Mapped, LoadLE, Encode, Value32, Bits32;
    FetchValue(a.mem, a.pc);
    BackToBits32(FetchWord(a.mem, a.pc), LoadLE(a.mem, a.pc, 4));
    BackToBits32(Encode(i), LoadLE(a.mem, a.pc, 4));
    EncodeThenDecode(BLANK, i);
    if i.op.Ecall? {
      EcallArm(host, i, a);
      EcallArm(host, DecodeInst(BLANK, Encode(i)).value, a);
    }
  }

  lemma FetchValue(m: Mem, pc: u64)
    requires Mapped(m, pc, 4)
    ensures Value32(FetchWord(m, pc)) == LoadLE(m, pc, 4)
  {
    hide FetchWord, Mapped, LoadLE;
    FetchIsLoad(m, pc);
  }

  /** x0 reads zero and the next fetch is at an even address. */
  predicate Good(a: Arch) { a.x[0] == 0 && a.pc % 2 == 0 }

  lemma EvenWrap(p: int, q: int)
    requires p % 2 == 0 && q % 2 == 0
    ensures Wrap64(p + q) % 2 == 0
  {
  }

  lemma WriteKeepsZero(x: Regs)
    ensures forall rd: bv5, v: u64 :: WriteX(x, rd, v)[0] == x[0]
  {
    forall rd: bv5, v: u64
      ensures WriteX(x, rd, v)[0] == x[0]
    {
    }
  }

  lemma ExecuteKeepsZero(host: HostFloat, i: Inst, a: Arch)
    requires a.x[0] == 0
    ensures var r := Execute(host, i, a); !r.Dead? ==> r.arch.x[0] == 0
  {
    hide ImmResult, RegResult, LoadExtend, LoadLE, StoreLE, Mapped, FpEffect, BranchTaken, Simm, Wrap64, ClearBit0,
         WriteX, Boxed, LoadWidth, StoreWidth, CsrSupported;
    WriteKeepsZero(a.x);
  }

  lemma ExecuteKeepsEven(host: HostFloat, i: Inst, a: Arch)
    requires a.pc % 2 == 0 && EvenTarget(i)
    ensures var r := Execute(host, i, a); !r.Dead? ==> r.arch.pc % 2 == 0
  {
    hide ImmResult, RegResult, LoadExtend, LoadLE, StoreLE, Mapped, FpEffect, BranchTaken, Simm, WriteX;
    EvenWrap(a.pc, 2);
    EvenWrap(a.pc, 4);
    if i.op.Branch? || i.op.Jal? {
      Multiple1(i.imm);
      EvenWrap(a.pc, Simm(i.imm));
    }
  }

  lemma StepKeepsGood(host: HostFloat, a: Arch)
    requires Good(a)
    ensures var r := Step(host, a); !r.Dead? ==> Good(r.arch)
  {
    hide DecodeInst, FetchWord, Execute, Mapped;
    if Mapped(a.mem, a.pc, 4) {
      var w := FetchWord(a.mem, a.pc);
      DecodeEven(BLANK, w);
      if DecodeInst(BLANK, w).Some? {
        ExecuteKeepsZero(host, DecodeInst(BLANK, w).value, a);
        ExecuteKeepsEven(host, DecodeInst(BLANK, w).value, a);
      }
    }
  }

  /** Every state a run reaches, through branches, jumps, compressed steps and up to the ECALL
      that ends it, is good. */
  lemma {:induction false} RunKeepsGood(host: HostFloat, a: Arch, n: nat)
    requires Good(a)
    ensures var r := Run(host, a, n); !r.Dead? ==> Good(r.arch)
    decreases n
  {
    hide Step, Good;
    if n > 0 {
      StepKeepsGood(host, a);
      var r := Step(host, a);
      if r.Running? {
        RunKeepsGood(host, r.arch, n - 1);
      }
    }
  }

  /** The word at pc is 0x73. */
  ghost predicate FetchesEcall(a: Arch) {
    Mapped(a.mem, a.pc, 4) && FetchWord(a.mem, a.pc) == 0x73
  }

  lemma StepCalls(host: HostFloat, a: Arch)
    ensures Step(host, a).Called? <==> FetchesEcall(a)
    ensures FetchesEcall(a) ==> Step(host, a) == Called(a.(pc := Wrap64(a.pc + 4)))
  {
    hide DecodeInst, FetchWord, Execute, Mapped;
    if Mapped(a.mem, a.pc, 4) {
      var w := FetchWord(a.mem, a.pc);
      DecodeFlags(BLANK, w);
      EcallWord(BLANK);
      var d := DecodeInst(BLANK, w);
      if d.Some? {
        OnlyEcallCalls(host, d.value, a);
      }
    }
  }

  lemma OnlyEcallCalls(host: HostFloat, i: Inst, a: Arch)
    ensures Execute(host, i, a).Called? <==> i.op.Ecall?
    ensures i.op.Ecall? ==> Execute(host, i, a) == Called(a.(pc := Wrap64(a.pc + 4)))
  {
    hide ImmResult, RegResult, LoadExtend, LoadLE, StoreLE, Mapped, FpEffect, BranchTaken, Simm, WriteX;
  }

  /** A run ends in a call exactly at its first ECALL word: every earlier fetch was another
      word, the one at the last state was 0x73, and the resulting state differs from that state
      only in pc, which lies four bytes behind. */
  lemma {:induction false} StopsAtFirstEcall(host: HostFloat, a: Arch, n: nat, b: Arch) returns (k: nat, c: Arch)
    requires Run(host, a, n) == Called(b)
    ensures k < n && Run(host, a, k) == Running(c)
    ensures FetchesEcall(c) && b == c.(pc := Wrap64(c.pc + 4))
    ensures forall j: nat :: j < k ==> Run(host, a, j).Running? && !FetchesEcall(Run(host, a, j).arch)
    decreases n
  {
    hide Step, FetchesEcall;
    StepCalls(host, a);
    var r := Step(host, a);
    if r.Called? {
      k, c := 0, a;
    } else {
      var k', c' := StopsAtFirstEcall(host, r.arch, n - 1, b);
      k, c := k' + 1, c';
      forall j: nat | j < k
        ensures Run(host, a, j).Running? && !FetchesEcall(Run(host, a, j).arch)
      {
        if j > 0 {
          assert Run(host, a, j) == Run(host, r.arch, j - 1);
        }
      }
    }
  }

  // ---- across system calls ----

  /** A system call returns a value in a0 and may change guest memory in any way. */
  type Kernel = Arch -> (u64, Mem)

  function Resume(kernel: Kernel, a: Arch): Arch {
    var (ret, mem) := kernel(a);
    a.(x := a.x[10 := ret], mem := mem)
  }

  /** The answer is in a0, register 10, and every other register and pc are as the call left them. */
  lemma ResumeLaw(kernel: Kernel, a: Arch)
    ensures var b := Resume(kernel, a);
      && b.x[10] == kernel(a).0 && b.mem == kernel(a).1 && b.pc == a.pc && b.f == a.f
      && (forall r | 0 <= r < 32 && r != 10 :: b.x[r] == a.x[r])
  {
  }

  /** The main loop: at most n instructions, with every ECALL answered and resumed behind. */
  function Session(host: HostFloat, kernel: Kernel, a: Arch, n: nat): Option<Arch>
    decreases n
  {
    if n == 0 then Some(a)
    else
      var r := Step(host, a);
      if r.Dead? then None
      else if r.Called? then Session(host, kernel, Resume(kernel, r.arch), n - 1)
      else Session(host, kernel, r.arch, n - 1)
  }

  /** Up to a call a session is the run. */
  lemma {:induction false} SessionRuns(host: HostFloat, kernel: Kernel, a: Arch, n: nat, m: nat, b: Arch)
    requires Run(host, a, n) == Running(b)
    ensures Session(host, kernel, a, n + m) == Session(host, kernel, b, m)
    decreases n
  {
    hide Step;
    if n > 0 {
      SessionRuns(host, kernel, Step(host, a).arch, n - 1, m, b);
    }
  }

  /** At a call the kernel is asked once, in the state with pc behind the ECALL, and the session goes
      on from its answer; a session in which the emulator dies has no state. */
  lemma SessionCalls(host: HostFloat, kernel: Kernel, a: Arch, n: nat)
    ensures FetchesEcall(a) ==>
      Session(host, kernel, a, n + 1) == Session(host, kernel, Resume(kernel, a.(pc := Wrap64(a.pc + 4))), n)
    ensures Step(host, a) == Dead ==> Session(host, kernel, a, n + 1) == None
  {
    hide Step, FetchesEcall, Resume;
    StepCalls(host, a);
  }

  /** From an even entry and x0 = 0, every fetch of every session, whatever the system calls
      answer, is at an even address with x0 reading zero. */
  lemma {:induction false} SessionKeepsGood(host: HostFloat, kernel: Kernel, a: Arch, n: nat)
    requires Good(a)
    ensures var r := Session(host, kernel, a, n); r.Some? ==> Good(r.value)
    decreases n
  {
    hide Step;
    if n > 0 {
      StepKeepsGood(host, a);
      var r := Step(host, a);
      if r.Called? {
        SessionKeepsGood(host, kernel, Resume(kernel, r.arch), n - 1);
      } else if r.Running? {
        SessionKeepsGood(host, kernel, r.arch, n - 1);
      }
    }
  }
}
