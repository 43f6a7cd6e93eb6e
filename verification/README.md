# A verified model of the RV64 interpreter

The emulator runs RV64IMC(FD) user programs. It loads the PT_LOAD segments of an executable
into its own address space at a fixed offset, builds an initial stack, and then interprets:
an inner loop fetches a word, decodes it into one reused instruction record and calls a handler;
an outer loop goes from block to block until a handler reports an ECALL.

This project models that machine in Dafny and proves what it is for:

- the two nested loops, with their exit reasons, re-entry addresses and reused record, do exactly
  what a flat fetch-decode-execute semantics does, for every program, start state and number of
  instructions (`Interpreter.Hart.MachineStep`);
- every run of that semantics, across system calls, keeps pc even and x0 zero, and ends at its
  first ECALL (`Runs`);
- the decoder inverts the encodings of the standard, 32-bit and compressed, in both directions, and
  every compressed instruction executes as its 32-bit expansion (`Assembler`, `Compressed`,
  `ExpansionTheorem`, `Locality`);
- the arithmetic handlers compute the exact high products, the truncating division laws and
  canonical W results (`HighMultiply`, `Division`, `WordForms`);
- every executed instruction writes what it should, where it should, and goes where it should, by laws
  that tie the operations to each other (`InstructionLaws`, `IntegerLaws`, `MemoryLaws`, `FloatLaws`);
- memory behaves as memory (`Memory`, `MemoryLaws`);
- the allocator, the segment loader, `brk` and the stack image account for every byte
  (`Mmu`, `Segments`, `AddressSpace`, `StackImage`);
- floating-point classification and sign injection are exact on bit patterns (`FloatBits`).

"The standard" is the RISC-V Unprivileged ISA, version 20191213.

## How the model is laid out

Values of C integer types are bounded mathematical integers (`Words`), with every wrap-around,
truncation and change of signedness written out; instruction words and immediates are bit-vectors.
Register fields are five-bit vectors: the masks of src/decode.c are modelled as conversions to that
type, so every decoded register index is in 0..31.
Pure code (field extraction, the decoder's case analysis, classification) is modelled as functions.
Code that updates state is a class: `Interpreter.Hart` has the fields of `state_t`, the guest
memory and the static `inst_t`; `AddressSpace.Allocator` has the fields of `mmu_t` and the mapped
bytes. Their methods are proved against specification functions (`Isa.Step`, `Mmu.AllocStep`,
`Segments.LoadStep`), and the laws are proved about those functions.

Programs need not stop, so the two execution loops take a budget of instructions, and their
contracts hold for every budget: a run that returns in the C code returns here for every budget
that is large enough, with the same state, and one that does not is still in step with the flat
semantics when any budget runs out. Everything that ends the emulator process (a rejected word, an
access to an unmapped byte, a host division by zero, an unsupported CSR) is the result `Dead`.

## What turned out false of the code

- The W divisions test all 64 bits of rs2 for zero but divide by its low word.
  `Division.WordDivisionCounterexample` shows operands that kill the host,
  `Division.WordDivision` proves that they meet section 7.2 of the standard if and only if rs2 is
  zero or has a nonzero low word.
- Shrinking the heap unmaps the range above the accounted end. The bookkeeping survives any mixed
  run (`Mmu.RunAccounts`), page coverage does not: `Mmu.ShrinkThenGrowLosesPages` is a run of three
  calls that leaves an address below the break unmapped, and `Mmu.AllocCovers` says for every call
  exactly when coverage is kept: no new page is needed, or the range asked for is entirely free or
  already entirely mapped. `Mmu.RunCovers` says it for whole runs.
- A `brk` to an address 2^63 or more above the break is taken for a shrink, and the break ends above
  the accounted pages. `Mmu.FarBrkCounterexample` is such a request, and `Mmu.BrkAccounts` proves that the bookkeeping is kept if and only if the
  request is less than that.
- A JALR word is accepted with any funct3: `Assembler.JalrCounterexample` is one.
  `Assembler.DecodeThenEncode` proves that an accepted word is the encoding of its record if and
  only if it does not have the JALR opcode with a nonzero funct3.
- The interpreter always fetches four bytes. A compressed instruction is decoded from its own
  halfword alone, but one in the last two mapped bytes kills the emulator:
  `Locality.LastHalfwordDies` is such a state, and `Locality.CompressedStep` proves that the step at a
  compressed halfword is that halfword's instruction exactly when the two bytes behind it are mapped.

## Model

| member | source | states |
|---|---|---|
| Interpreter.Hart.MachineStep | src/machine.c:9-26 | For every budget, program and state with x0 = 0: returns after the first ECALL with exactly the registers, memory and pc of the flat semantics, dies when it dies, is still in step otherwise; the two assertions on the exit reason hold |
| Interpreter.Hart.ExecBlock | src/interp.c:1150-1163 | The block is left exactly when a handler set a reason and the architectural next pc; the flat semantics has then done the same number of steps |
| Interpreter.Hart.FetchAndExecute | src/interp.c:1153-1162 | One round is one flat step, whatever the reused record held |
| Interpreter.Hart.Dispatch | src/interp.c:825-861 | Whatever the decoded operation, the handler leaves the state the flat semantics prescribes, up to the clearing of x0 that follows |
| Interpreter.Hart.SetGp | src/interp.c:1157-1158 | A register write followed by clearing x0 is a write to a register file whose x0 cannot be written |
| Interpreter.Hart.LoadHandler | src/interp.c:9-50 | Loads refine the flat semantics, faults included |
| Interpreter.Hart.ImmHandler | src/interp.c:54-128 | Register-immediate instructions refine the flat semantics |
| Interpreter.Hart.StoreHandler | src/interp.c:138-163 | Stores refine the flat semantics, faults included |
| Interpreter.Hart.ComputeReg | src/interp.c:167-349 | Register-register values, with the high products computed from 32-bit limbs, are those of the flat semantics |
| Interpreter.Hart.RegHandler | src/interp.c:167-349 | Register-register instructions refine the flat semantics; a host division by zero is a death in both |
| Interpreter.Hart.UpperHandler | src/interp.c:133-355 | AUIPC and LUI refine the flat semantics |
| Interpreter.Hart.BranchHandler | src/interp.c:357-401 | A taken branch leaves the block with its target, one not taken falls through |
| Interpreter.Hart.JalrHandler | src/interp.c:408-429 | The target is computed from the old rs1 even when rd is rs1, its low bit cleared, and the link written |
| Interpreter.Hart.JalHandler | src/interp.c:434-438 | Link and target are those of the flat semantics, for both instruction lengths |
| Interpreter.Hart.EcallHandler | src/interp.c:443-446 | Leaves the block with the ECALL reason and pc + 4 |
| Interpreter.Hart.CsrHandler | src/interp.c:448-481 | The three supported CSRs read as zero, others are fatal |
| Interpreter.Hart.FlwHandler | src/interp.c:488-494 | Single loads fill the upper half with ones |
| Interpreter.Hart.FldHandler | src/interp.c:497-500 | Double loads refine the flat semantics |
| Interpreter.Hart.FswHandler | src/interp.c:502-508 | Single stores refine the flat semantics |
| Interpreter.Hart.FsdHandler | src/interp.c:502-510 | Double stores refine the flat semantics |
| Interpreter.Hart.FpHandler | src/interp.c:514-821 | Floating-point instructions refine the flat semantics, around the host's arithmetic |
| InstructionLaws.WriteLaw | src/interp.c:1157-1158 | A register write gives rd its value, unless rd is x0, and leaves every other register |
| InstructionLaws.RegisterLaw | src/interp.c:167-349 | A register-register instruction writes its value to rd, moves pc behind itself and changes nothing else |
| InstructionLaws.RegisterImmediateLaw | src/interp.c:54-128 | A register-immediate instruction writes what its register form computes on the register value congruent to the immediate |
| InstructionLaws.UpperLaw | src/interp.c:133-355 | LUI writes the register value congruent to the immediate, AUIPC that congruent to pc plus the immediate |
| InstructionLaws.BranchLaw | src/interp.c:357-401 | A branch whose condition holds goes to the address congruent to pc plus the immediate, any other falls through; the signed order is that of the operands moved up by 2^63 |
| InstructionLaws.BranchOrder | src/interp.c:371-401 | Opposite pairs of conditions, exactly one of less, equal and greater, and agreement with SLT and SLTU |
| InstructionLaws.JumpLaw | src/interp.c:408-438 | JAL goes to the address congruent to pc plus the immediate, JALR to the even one at or just below rs1 plus the immediate; the link is the address behind |
| InstructionLaws.FenceLaw | src/interp.c:7-7 | A fence only moves pc |
| InstructionLaws.CsrLaw | src/interp.c:448-481 | The emulator dies exactly for CSR numbers other than 1 to 3; otherwise rd becomes zero and nothing else changes |
| IntegerLaws.AddIsSum | src/interp.c:173-173 | ADD is the one register value congruent to the sum; it is commutative and has unit 0 |
| IntegerLaws.SubUndoesAdd | src/interp.c:221-221 | SUB yields exactly the values to which adding rs2 gives rs1 |
| IntegerLaws.SetIsBorrow | src/interp.c:186-188 | SLTU is the borrow of the subtraction |
| IntegerLaws.SignedSet | src/interp.c:181-183 | SLT is SLTU on the operands moved up by 2^63 |
| IntegerLaws.AndLaw | src/interp.c:201-201 | Every bit of AND |
| IntegerLaws.OrLaw | src/interp.c:198-198 | Every bit of OR |
| IntegerLaws.XorLaw | src/interp.c:190-190 | Every bit of XOR |
| WideBits.BitsDetermine | src/interp.c:190-201 | The bits fix the value |
| IntegerLaws.ShiftAmount | src/interp.c:176-226 | Shift amounts are taken modulo 64, and shifting by none changes nothing |
| IntegerLaws.ShiftLeftLaw | src/interp.c:176-178 | Shifting left by one more adds the result to itself |
| IntegerLaws.ShiftRightLaw | src/interp.c:193-226 | Shifting right by one more halves the number, for SRA the signed one, rounding down |
| IntegerLaws.ShiftRightBounds | src/interp.c:193-226 | Both right shifts are the rounded quotient by the power of two |
| IntegerLaws.ImmediateLaw | src/interp.c:54-128 | Every register-immediate operation is its register form on the sign-extended immediate, shift amounts and W forms included |
| IntegerLaws.WordOfWide | src/interp.c:234-295 | ADDW, SUBW and MULW are the sign-extended low words of ADD, SUB and MUL |
| Runs.HistoryIndependent | src/interp.c:1151-1157 | Acceptance and effect of a word do not depend on the previous contents of the reused record |
| Runs.PrevOnlyForEcall | src/decode.c:1342-1347 | Only the ECALL word reads the previous record |
| Runs.DecodeFlags | src/decode.c:354-1382 | The decoder marks exactly JAL, JALR and ECALL as leaving the block, and decodes an ECALL from the word 0x73 alone |
| Runs.DecodeEven | src/decode.c:34-64 | Every branch and JAL immediate, compressed ones too, is even |
| Runs.RunAdd | src/machine.c:9-21 | Runs compose: n + m steps are n steps and then m |
| Runs.RunStops | src/machine.c:19-25 | A run that has stopped stays stopped |
| Runs.StepCalls | src/interp.c:443-446 | A step is a call if and only if it fetches the ECALL word, and then only pc changes, by four |
| Runs.StopsAtFirstEcall | src/machine.c:9-26 | A run that ends in a call ends at its first ECALL: every earlier fetch was another word |
| Runs.StepKeepsGood | src/interp.c:1152-1162 | One step keeps pc even and x0 zero |
| Runs.RunKeepsGood | src/machine.c:9-26 | Every state of every run has an even pc and x0 zero |
| Runs.SessionKeepsGood | src/rvemu.c:15-27 | The same across any number of system calls, whatever they return and write |
| Runs.SessionRuns | src/rvemu.c:15-16 | Up to a call a session is the run |
| Runs.SessionCalls | src/rvemu.c:15-27 | At a call the kernel is asked once, with pc behind the ECALL, and the session goes on from its answer |
| Runs.ResumeLaw | src/rvemu.c:25-26 | The answer is in a0 and every other register and pc are as the call left them |
| Assembler.EncodeThenDecode | src/decode.c:614-1382 | Decoding inverts the standard's encoding of every integer, memory, control and CSR instruction, immediates and sign extension included |
| Assembler.DecodeThenEncode | src/decode.c:614-1382 | Every accepted such word decodes to a well-formed record, and is its encoding if and only if it does not have the JALR opcode with nonzero funct3 |
| Assembler.JalrCounterexample | src/decode.c:1332-1336 | The word 0x1067 is accepted as a JALR whose encoding is 0x67 |
| FenceOpcodes.FenceExact | src/decode.c:664-684 | On the bits of any word: it is a FENCE if and only if opcode and funct3 say so, whatever its other fields, likewise FENCE.I, and every other word of that opcode is rejected |
| Runs.EncodedStep | src/interp.c:1153-1157 | Where the four bytes at pc are the standard's encoding of an instruction, the step executes that instruction |
| ImmediateRanges.DecodedInRange | src/decode.c:19-102 | Every accepted 32-bit word has its immediate, as a signed number, in the range and granularity of its operation: all loads, stores, ALU and shift operations, branches, jumps and upper immediates, and zero where there is none |
| ImmediateRanges.CompressedInRange | src/decode.c:132-352 | The same for every accepted compressed word, form by form |
| ImmediateRanges.Reaches | src/decode.c:19-85 | The conditions under which the I, S, B, J and U layouts invert are exactly the signed numeric ranges of the standard |
| ImmediateRanges.AluReaches | src/decode.c:26-32 | The same for the register-immediate operations, shift amounts included |
| FloatOpcodes.TableExact | src/decode.c:1028-1303 | A word, of any length, decodes to a floating-point operation if and only if it is the standard's OP-FP encoding of it, and then its registers are in their standard places |
| FloatOpcodes.FusedExact | src/decode.c:964-1027 | The same for the fused multiply-adds, with their third source |
| Compressed.AssembleThenDecode | src/decode.c:357-612 | Every compressed form of every instruction it can express decodes to that instruction |
| ExpansionTheorem.DecodeThenAssemble | src/decode.c:357-612 | Every accepted compressed word is one of the listed forms and reassembles to its sixteen bits; no reserved encoding is accepted |
| ExpansionTheorem.ExpansionWellFormed | src/decode.c:357-612 | The expansion of a form is a legal 32-bit instruction |
| ExpansionTheorem.CompressedMeansExpansion | src/decode.c:357-612 | From any state a compressed instruction does what its 32-bit expansion does, except that fall-through and link addresses are pc + 2 for pc + 4; the expansion has an encoding that decodes to it |
| ExpansionTheorem.LengthMatters | src/interp.c:1162-1163 | The length of an instruction shows in the fall-through and link addresses only: pc + 2 against pc + 4 unless a branch is taken or a jump is made |
| Locality.DecodeIsLocal | src/decode.c:354-612 | Acceptance and record of a compressed word depend on its low halfword only |
| Locality.CompressedStep | src/interp.c:1153-1157 | At a mapped compressed halfword the step executes that halfword's instruction, whatever lies behind it, when the two bytes behind are mapped; when they are not, the emulator dies |
| Locality.LastHalfwordDies | src/interp.c:1153-1153 | A C.NOP in the last two mapped bytes is accepted and executable, and the step dies |
| HighMultiply.Mulhu | src/interp_util.h:6-20 | The result is floor(a * b / 2^64) for all operands, with no intermediate overflow |
| HighMultiply.AddLimbs | src/interp_util.h:11-19 | The limb additions with their truncations lose no carry |
| HighMultiply.Mulh | src/interp_util.h:22-26 | The result is the floor of the signed product over 2^64, for all operands, INT64_MIN and zero low words included |
| HighMultiply.Mulhsu | src/interp_util.h:28-32 | The same for the mixed product |
| IntegerLaws.UnsignedProduct | src/interp.c:204-218 | MULHU times 2^64 plus MUL is the product of the operands |
| IntegerLaws.SignedProduct | src/interp.c:204-208 | The signed value of MULH times 2^64 plus MUL is the signed product |
| IntegerLaws.MixedProduct | src/interp.c:204-214 | The same for MULHSU |
| Division.SignedDivision | src/interp.c:303-349 | Identity modulo 2^64, size and sign of the remainder, zero-divisor and overflow results; exact over the integers elsewhere |
| Division.UnsignedDivision | src/interp.c:228-333 | Identity and remainder bound, zero-divisor results |
| Division.TruncatedUnique | src/interp.c:303-349 | The law determines quotient and remainder |
| Division.WordDivision | src/interp.c:253-285 | The W forms give the result of section 7.2 if and only if rs2 is zero or has a nonzero low word; otherwise the host divides by zero |
| Division.WordDivisionCounterexample | src/interp.c:253-285 | Concrete operands on which the W forms kill the host although a result is prescribed |
| Division.SignedWordDivision | src/interp.c:253-285 | DIVW and REMW, wherever they return: identity modulo 2^32, size and sign of the remainder, zero-divisor and overflow results; exact over the integers elsewhere |
| Division.UnsignedWordDivision | src/interp.c:263-285 | DIVUW and REMUW, wherever they return: identity, remainder bound, zero-divisor results, and both results sign-extended |
| WordForms.Canonical | src/interp.c:234-295 | Every W handler is the sign-extended 32-bit operation on the low words, for all 64-bit operands |
| WordForms.CanonicalImm | src/interp.c:107-128 | The same for the register-immediate W forms |
| WordForms.ChainedWords | src/interp.c:234-295 | Any tree of W operations computes the 32-bit value, however the truncations are ordered |
| Memory.LoadAfterStore | src/interp.c:9-163 | A load of the bytes just stored gives the truncated value, at any address and width |
| Memory.StoreByte | src/interp.c:138-163 | A store changes exactly the bytes in its range |
| Memory.DisjointStoresCommute | src/interp.c:138-163 | Stores to disjoint ranges commute |
| Memory.LoadAfterDisjointStore | src/interp.c:9-163 | A load is not affected by a store elsewhere |
| Memory.StoreOverwrites | src/interp.c:138-163 | The second of two stores to one place wins |
| Memory.StoreKeepsKeys | src/interp.c:138-163 | A store does not change what is mapped |
| Memory.FetchIsLoad | src/interp.c:1153-1153 | The fetched word is the little-endian load at pc |
| MemoryLaws.StoreThenLoad | src/interp.c:9-163 | A load instruction after a store of the same width and address writes the one extension of the truncated register that is congruent and in range |
| MemoryLaws.ExtendsUnique | src/interp.c:26-50 | There is only one such value |
| MemoryLaws.StoresCommute | src/interp.c:138-163 | Store instructions to disjoint ranges commute, faults included |
| MemoryLaws.LoadLaw | src/interp.c:9-50 | For the address congruent to rs1 plus the immediate, a load dies exactly if a byte of its width there is not mapped, and otherwise writes the extension of the little-endian number there, whatever wrote it |
| MemoryLaws.LoadByte | src/interp.c:9-50 | The bytes of a loaded number, lowest first, are those in memory |
| MemoryLaws.StoreLaw | src/interp.c:138-163 | At that address an integer or floating-point store dies likewise, and otherwise puts the low bytes of rs2 there and changes nothing else |
| MemoryLaws.FpLoadLaw | src/interp.c:488-500 | FLW and FLD likewise; a single gets ones in the upper half |
| FloatBits.Classify32Exact | src/interp_util.h:60-83 | Exactly the one of ten bits that section 11.9 prescribes is set, for every pattern |
| FloatBits.Classify64Exact | src/interp_util.h:100-123 | The same for doubles |
| FloatBits.Inject32 | src/interp_util.h:37-40 | Sign injection keeps or flips exactly the sign, as the operation says |
| FloatBits.Inject64 | src/interp_util.h:42-45 | The same for doubles |
| FloatBits.InjectedClass32 | src/interp_util.h:37-83 | Sign injection keeps the class or moves it to its mirror, fixing both NaN classes |
| FloatBits.InjectedClass64 | src/interp_util.h:42-123 | The same for doubles |
| FloatLaws.FpFileLaw | src/interp.c:514-821 | A floating-point instruction writes one register, in the file the standard names for it, and nothing else |
| FloatLaws.SignInjectionLaw | src/interp.c:624-651 | The executed FSGNJ, FSGNJN and FSGNJX keep the magnitude of rs1 and take the sign of rs2, its opposite, or the exclusive or; a single is boxed with ones |
| FloatLaws.ClassLaw | src/interp.c:764-771 | The executed FCLASS writes the bit of the class of rs1 to the integer register |
| FloatLaws.MoveLaw | src/interp.c:655-734 | The four moves between the files: copies for a double, the low half with the upper kept, and the sign-extended low half |
| FloatLaws.MoveRoundTrip | src/interp.c:655-734 | A register moved to the floating-point file and back is unchanged |
| FloatLaws.HostLaw | src/interp.c:514-821 | Every other instruction gives the host its sources in order and precision and writes the answer whole, or to the low half of a single |
| Mmu.AllocAccounts | src/mmu.c:138-170 | One call is refused exactly below base; otherwise the break moves by the request and the fields stay ordered and aligned |
| Mmu.RunAccounts | src/mmu.c:138-170 | The same over any mixed run of growing and shrinking calls |
| Mmu.AllocCovers | src/mmu.c:145-168 | Exactly when a call keeps every accounted page mapped |
| Mmu.RunCovers | src/mmu.c:138-170 | Over any mixed run coverage is kept throughout if and only if every call that needs pages asks, in its own state, for a range entirely free or entirely mapped |
| Mmu.AllocSound | src/mmu.c:138-157 | A growing call hands out a fresh, mapped, zeroed range and touches nothing else |
| Mmu.GrowthRun | src/mmu.c:138-157 | Over any run of nonnegative calls the returned ranges are contiguous and all of [base, break) is mapped |
| Mmu.RangesDisjoint | src/mmu.c:138-157 | Different calls of a growing run return disjoint ranges |
| Mmu.ShrinkThenGrowLosesPages | src/mmu.c:158-168 | A run of three calls after which an address below the break is unmapped |
| Mmu.BrkSetsBreak | src/syscall.c:113-121 | A `brk` that passes its assertions leaves the break at the requested address, whatever it is |
| Mmu.BrkAccounts | src/syscall.c:113-121 | `brk` keeps the bookkeeping if and only if the request is less than 2^63 above the break |
| Mmu.FarBrkCounterexample | src/syscall.c:117-119 | A request on which the bookkeeping is lost |
| Segments.SegmentLoads | src/mmu.c:69-105 | One well-formed segment: its pages are mapped, its file bytes in place, the pages wholly behind them zero, nothing else changes, the accounting moves to the larger end |
| Segments.ElfLoads | src/mmu.c:128-135 | For any page-disjoint headers every segment is in place at the end and host_alloc is the largest page-rounded end |
| Segments.ElfSound | src/mmu.c:101-135 | After loading, base and break are at host_alloc, nothing is mapped above, and the allocator's invariant holds |
| AddressSpace.Allocator.Alloc | src/mmu.c:138-170 | The method returns the old break and leaves the state of the specification, refusals included |
| AddressSpace.Allocator.SysBrk | src/syscall.c:113-121 | Returns the requested address, or the break for zero, and leaves the break there |
| AddressSpace.Allocator.LoadSegment | src/mmu.c:69-105 | Refines the specification of one segment |
| AddressSpace.Allocator.LoadElf | src/mmu.c:128-135 | For well-formed headers it succeeds with every image in place |
| AddressSpace.Allocator.WriteString | src/rvemu.h:261-263 | Writes exactly the given bytes, inside mapped memory |
| AddressSpace.Allocator.WriteWord | src/rvemu.h:261-263 | The eight bytes at the address become those of the word, lowest first; what is mapped and every other byte stay; a load gives the word back |
| StackImage.MachineSetup | src/machine.c:40-70 | The word at sp + 8i addresses a terminated copy of argument i for 1 <= i < argc; the three words behind the last are zero; the strings are apart, above the stack and below the break; the program's bytes are unchanged; only sp changes among the registers |
| StackImage.PushArgument | src/machine.c:55-66 | One round of the loop keeps that image for the arguments pushed so far |
| StackImage.StringsDisjoint | src/machine.c:55-60 | The copies are pairwise disjoint and above the stack |
| StackImage.Boot | src/rvemu.c:10-27 | Loading and setup together: at the first instruction every segment is in place under the finished stack image, and from an even entry every session keeps pc even and x0 zero |

## Left out

- Floating-point arithmetic, comparison, square root and conversion: a parameter of the model
  (`Isa.HostFloat`), because the code computes them with the host's floats.
- A NaN-boxing invariant: it does not hold, since single results write only the low half.
- System calls other than `brk`: an arbitrary function of the state in `Runs.Session`.
- ELF header reading, file access and host permissions: program headers and file contents are inputs.
- Failure of `mmap` for lack of memory, and `munmap` failures.
- CSR behaviour beyond "reads as zero, writes are dropped". The six CSR handlers have one body, so
  their order in the dispatch table, which differs from that of the enumeration, is not modelled.
- Debug output and instruction printing.
- Page sizes other than 4096 bytes.
- Interpreter.Hart.MachineStep: takes a budget of instructions, because a run need not end.
- Interpreter.Hart.FpHandler: does not say what the host's floating-point arithmetic computes;
  `FloatLaws.HostLaw` says what the host is given and where its answer goes.
- HighMultiply.Mulh: takes the negation and the product of signed operands to wrap in two's
  complement, where C leaves their overflow undefined; `Mulhsu` likewise for the negation.
- StackImage.MachineSetup: says nothing about the upper half of the argument-count word, because the
  code copies eight bytes from a four-byte variable; an input stands for that half.
- Segments.SegmentLoads: says nothing about the bytes between the end of the file part and the end
  of its last page, because the code does not clear them.
- Assembler.DecodeThenEncode: leaves out FENCE and FENCE.I, whose records do not keep the whole word
  (`FenceOpcodes.FenceExact` fixes them), ECALL (`Runs.DecodeFlags`), and floating-point computation,
  for which `FloatOpcodes.TableExact` and `FloatOpcodes.FusedExact` fix operation and registers (the
  rounding mode is not decoded).
