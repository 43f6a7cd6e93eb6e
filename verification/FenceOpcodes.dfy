/** The FENCE slot of the decoder: any word of the MISC-MEM opcode with funct3 0 is a FENCE and with
    funct3 1 a FENCE.I, whatever its other fields. */
module FenceOpcodes {
  import opened Words
  import opened Instruction
  import opened Decode
  import opened Assembler

  predicate NotFence(k: Option<Op>) { k.None? || (!k.value.Fence? && !k.value.FenceI?) }

  lemma SelectorsNotFence(f3: bv3, f7: bv7, imm116: bv6)
    ensures NotFence(LoadOpOf(f3)) && NotFence(StoreOpOf(f3)) && NotFence(BranchOpOf(f3)) && NotFence(CsrOpOf(f3))
    ensures NotFence(ImmOpOf(f3, imm116)) && NotFence(ImmWordOpOf(f3, f7))
  {
  }

  lemma RegSelectorsNotFence(f3: bv3, f7: bv7)
    ensures NotFence(RegOpOf(f3, f7)) && NotFence(RegWordOpOf(f3, f7))
  {
  }

  /** A record that is neither of the two. */
  predicate NotFenceRecord(r: Option<Inst>) { r.None? || (!r.value.op.Fence? && !r.value.op.FenceI?) }

  lemma MajorFences(prev: Inst, d: bv32, o: bv5, f3: bv3, f7: bv7)
    ensures var r := DecodeMajor(prev, d, o, f3, f7);
      if o == 0x03 && f3 == 0 then r == Some(BLANK.(op := Fence))
      else if o == 0x03 && f3 == 1 then r == Some(BLANK.(op := FenceI))
      else NotFenceRecord(r) && (o == 0x03 ==> r == None)
  {
    hide RType, IType, SType, BType, UType, JType, FprType, CsrType, Imm116, Funct2, Rs2,
         LoadOpOf, ImmOpOf, ImmWordOpOf, StoreOpOf, RegOpOf, RegWordOpOf, BranchOpOf, CsrOpOf, FpOpOf, FmaOpOf;
    SelectorsNotFence(f3, f7, Imm116(d));
    RegSelectorsNotFence(f3, f7);
    FpOpcodes(o, Funct2(d), f3, f7, Rs2(d));
  }

  lemma CompressedNotFence(d: bv32)
    ensures NotFenceRecord(DecodeQ0(d)) && NotFenceRecord(DecodeQ1(d)) && NotFenceRecord(DecodeQ2(d))
  {
    hide COpcode, CFunct1, CFunct2Low, CFunct2High, Rp1, Rp2, Rc1, Rc2, CIImm, CIImm2, CIImm3, CIImm4, CIImm5,
         CBImm, CSImm, CSImm2, CJImm, CSSImm, CSSImm2, CIWImm;
  }

  lemma FenceWords(prev: Inst, d: bv32)
    ensures var r := DecodeInst(prev, d); var o, f3 := Opcode(d), Funct3(d);
      if d & 3 == 3 && o == 0x03 && f3 == 0 then r == Some(BLANK.(op := Fence))
      else if d & 3 == 3 && o == 0x03 && f3 == 1 then r == Some(BLANK.(op := FenceI))
      else NotFenceRecord(r) && (d & 3 == 3 && o == 0x03 ==> r == None)
  {
    hide DecodeMajor, NotFenceRecord, Opcode, Funct3, Funct7, DecodeQ0, DecodeQ1, DecodeQ2;
    CompressedNotFence(d);
    MajorFences(prev, d, Opcode(d), Funct3(d), Funct7(d));
  }

  lemma FenceBits(d: bv32)
    ensures d & 0x707f == 0x0f <==> d & 3 == 3 && Opcode(d) == 0x03 && Funct3(d) == 0
    ensures d & 0x707f == 0x100f <==> d & 3 == 3 && Opcode(d) == 0x03 && Funct3(d) == 1
    ensures d & 0x7f == 0x0f <==> d & 3 == 3 && Opcode(d) == 0x03
  {
  }

  /** On the bits of any word, whatever the reused record held: which words are fences, and that the
      rest of the opcode is rejected. */
  lemma FenceExact(prev: Inst, d: bv32)
    ensures DecodeInst(prev, d) == Some(BLANK.(op := Fence)) <==> d & 0x707f == 0x0f
    ensures DecodeInst(prev, d) == Some(BLANK.(op := FenceI)) <==> d & 0x707f == 0x100f
    ensures d & 0x7f == 0x0f && d & 0x707f != 0x0f && d & 0x707f != 0x100f ==> DecodeInst(prev, d) == None
  {
    hide DecodeInst, Opcode, Funct3;
    FenceWords(prev, d);
    FenceBits(d);
  }
}
