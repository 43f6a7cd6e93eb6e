/** A compressed instruction is decoded from its sixteen bits alone, although the interpreter
    always fetches four bytes. */
module Locality {
  import opened Words
  import opened Instruction
  import opened Memory
  import opened Decode
  import opened Isa

  /** No field of a 16-bit format reaches past bit 15. */
  lemma FieldsLocal(d: bv32)
    ensures var h := d & 0xffff;
      && COpcode(h) == COpcode(d) && CFunct1(h) == CFunct1(d) && CFunct2Low(h) == CFunct2Low(d)
      && CFunct2High(h) == CFunct2High(d) && h & 3 == d & 3
      && Rp1(h) == Rp1(d) && Rp2(h) == Rp2(d) && Rc1(h) == Rc1(d) && Rc2(h) == Rc2(d)
  {
  }

  lemma LoadImmsLocal(d: bv32)
    ensures var h := d & 0xffff;
      && CSImm(h) == CSImm(d) && CSImm2(h) == CSImm2(d) && CIWImm(h) == CIWImm(d)
      && CSSImm(h) == CSSImm(d) && CSSImm2(h) == CSSImm2(d)
  {
  }

  lemma CIImmsLocal(d: bv32)
    ensures var h := d & 0xffff;
      && CIImm(h) == CIImm(d) && CIImm2(h) == CIImm2(d) && CIImm3(h) == CIImm3(d)
      && CIImm4(h) == CIImm4(d) && CIImm5(h) == CIImm5(d)
  {
  }

  lemma JumpImmsLocal(d: bv32)
    ensures var h := d & 0xffff; CJImm(h) == CJImm(d) && CBImm(h) == CBImm(d)
  {
  }

  lemma Q0Local(d: bv32)
    ensures DecodeQ0(d & 0xffff) == DecodeQ0(d)
  {
    hide COpcode, Rp1, Rp2, CSImm, CSImm2, CIWImm;
    FieldsLocal(d);
    LoadImmsLocal(d);
  }

  lemma Q1Local(d: bv32)
    ensures DecodeQ1(d & 0xffff) == DecodeQ1(d)
  {
    hide COpcode, CFunct1, CFunct2Low, CFunct2High, Rp1, Rp2, Rc1, CIImm, CIImm3, CIImm5, CJImm, CBImm;
    FieldsLocal(d);
    CIImmsLocal(d);
    JumpImmsLocal(d);
  }

  lemma Q2Local(d: bv32)
    ensures DecodeQ2(d & 0xffff) == DecodeQ2(d)
  {
    hide COpcode, CFunct1, Rc1, Rc2, CIImm, CIImm2, CIImm4, CSSImm, CSSImm2;
    FieldsLocal(d);
    CIImmsLocal(d);
    LoadImmsLocal(d);
  }

  /** Acceptance and the decoded record depend only on the low halfword, and not on the history
      of the reused record. */
  lemma DecodeIsLocal(prev: Inst, prev': Inst, d: bv32, d': bv32)
    requires d & 3 != 3 && d & 0xffff == d' & 0xffff
    ensures DecodeInst(prev, d) == DecodeInst(prev', d')
  {
    hide DecodeQ0, DecodeQ1, DecodeQ2, DecodeQ3, COpcode, CFunct1, CFunct2Low, CFunct2High, Rp1, Rp2, Rc1, Rc2;
    FieldsLocal(d);
    FieldsLocal(d');
    Q0Local(d);
    Q0Local(d');
    Q1Local(d);
    Q1Local(d');
    Q2Local(d);
    Q2Local(d');
  }

  lemma LowHalf(b0: bv8, b1: bv8, b2: bv8, b3: bv8)
    ensures ((b0 as bv32) | ((b1 as bv32) << 8) | ((b2 as bv32) << 16) | ((b3 as bv32) << 24)) & 0xffff
         == (b0 as bv32) | ((b1 as bv32) << 8)
  {
  }

  function LowWord(b0: bv8, b1: bv8): bv32 { (b0 as bv32) | ((b1 as bv32) << 8) }

  lemma LowHalfOfWord(b0: bv8, b1: bv8, b2: bv8, b3: bv8)
    ensures JoinWord(b0, b1, b2, b3) & 0xffff == LowWord(b0, b1)
  {
    LowHalf(b0, b1, b2, b3);
    assert JoinWord(b0, b1, b2, b3) == (b0 as bv32) | ((b1 as bv32) << 8) | ((b2 as bv32) << 16) | ((b3 as bv32) << 24);
  }

  lemma DecodeHalf(d: bv32, h: bv32)
    requires d & 0xffff == h && h & 3 != 3
    ensures DecodeInst(BLANK, d) == DecodeInst(BLANK, h)
  {
    hide DecodeInst;
    HalfOfHalf(d);
    DecodeIsLocal(BLANK, BLANK, h, d);
  }

  lemma HalfOfHalf(d: bv32)
    ensures (d & 0xffff) & 0xffff == d & 0xffff
  {
  }

  lemma JoinIsLocal(b0: bv8, b1: bv8, b2: bv8, b3: bv8)
    requires LowWord(b0, b1) & 3 != 3
    ensures DecodeInst(BLANK, JoinWord(b0, b1, b2, b3)) == DecodeInst(BLANK, LowWord(b0, b1))
  {
    hide JoinWord, LowWord, DecodeInst;
    LowHalfOfWord(b0, b1, b2, b3);
    DecodeHalf(JoinWord(b0, b1, b2, b3), LowWord(b0, b1));
  }

  /** The halfword at pc. */
  function HalfAt(m: Mem, pc: u64): bv32
    requires Mapped(m, pc, 2)
  {
    LowWord(m[ToHost(pc)] as bv8, m[ToHost(Next(pc))] as bv8)
  }

  /** A fetch that finds a compressed halfword at pc decodes that halfword alone, whatever the two
      bytes after it are. */
  lemma FetchIsLocal(m: Mem, pc: u64)
    requires Mapped(m, pc, 4) && Mapped(m, pc, 2) && HalfAt(m, pc) & 3 != 3
    ensures DecodeInst(BLANK, FetchWord(m, pc)) == DecodeInst(BLANK, HalfAt(m, pc))
  {
    hide DecodeInst, JoinWord, LowWord, ToHost, Next;
    var a2 := Next(Next(pc));
    var a3 := Next(a2);
    LoadFour(m, pc, Next(pc), a2, a3);
    JoinIsLocal(m[ToHost(pc)] as bv8, m[ToHost(Next(pc))] as bv8, m[ToHost(a2)] as bv8, m[ToHost(a3)] as bv8);
  }

  /** The step at a mapped compressed halfword: it is that halfword's instruction, whatever the two
      bytes behind it hold, if and only if those are mapped too; if not, the four-byte fetch kills
      the emulator. */
  lemma CompressedStep(host: HostFloat, a: Arch)
    requires Mapped(a.mem, a.pc, 2) && HalfAt(a.mem, a.pc) & 3 != 3
    ensures var j := DecodeInst(BLANK, HalfAt(a.mem, a.pc));
      Step(host, a) == if j.Some? && Mapped(a.mem, a.pc, 4) then Execute(host, j.value, a) else Dead
  {
    hide DecodeInst, HalfAt, FetchWord, Execute, Mapped;
    if Mapped(a.mem, a.pc, 4) {
      FetchIsLocal(a.mem, a.pc);
    }
  }

  // ---- a compressed instruction at the end of the mapped memory ----

  const ZEROS: Regs := seq(32, _ => 0)

  /** C.NOP in the last two mapped bytes. */
  const AT_THE_END: Arch := Arch(0x1000, ZEROS, ZEROS, map[GUEST_OFFSET + 0x1000 := 1, GUEST_OFFSET + 0x1001 := 0])

  lemma NopIsCompressed()
    ensures LowWord(1, 0) == 1 && (1 as bv32) & 3 == 1 && DecodeInst(BLANK, 1) == Some(BLANK.(op := Imm(ADDI), rvc := true))
  {
    assert COpcode(1) == 0 && Rc1(1) == 0 && CIImm(1) == 0;
  }

  lemma EndMapped()
    ensures Mapped(AT_THE_END.mem, 0x1000, 2) && !Mapped(AT_THE_END.mem, 0x1000, 4)
    ensures HalfAt(AT_THE_END.mem, 0x1000) == LowWord(1, 0)
  {
    assert ToHost(0x1000) == GUEST_OFFSET + 0x1000 && Next(0x1000) == 0x1001 && Next(0x1001) == 0x1002;
    assert ToHost(0x1001) == GUEST_OFFSET + 0x1001 && ToHost(0x1002) == GUEST_OFFSET + 0x1002;
    hide ToHost, Next, LowWord;
    assert !Mapped(AT_THE_END.mem, 0x1002, 2);
  }

  /** The instruction at pc is mapped, accepted and executable, and the step dies. */
  lemma LastHalfwordDies(host: HostFloat)
    ensures Mapped(AT_THE_END.mem, 0x1000, 2) && HalfAt(AT_THE_END.mem, 0x1000) & 3 != 3
    ensures DecodeInst(BLANK, HalfAt(AT_THE_END.mem, 0x1000)).Some?
    ensures Execute(host, DecodeInst(BLANK, HalfAt(AT_THE_END.mem, 0x1000)).value, AT_THE_END).Running?
    ensures Step(host, AT_THE_END) == Dead
  {
    hide DecodeInst, HalfAt, Mapped, LowWord, Step;
    NopIsCompressed();
    EndMapped();
    CompressedStep(host, AT_THE_END);
  }
}
