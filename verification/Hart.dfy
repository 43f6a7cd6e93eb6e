/** The interpreter as it is written: `state_t` with its four control fields, the one static
    `inst_t` that every instruction reuses, the handlers of src/interp.c, `exec_block_interp`
    and `machine_step`. Each method is proved against the flat semantics of module Isa.
    Programs need not stop, so the two loops take a budget of instructions; the contracts hold
    for every budget. */
module Interpreter {
  import opened Words
  import opened Instruction
  import opened Alu
  import opened HighMultiply
  import opened Memory
  import opened Decode
  import opened Isa
  import opened Runs

  datatype ExitReason = NoExit | DirectBranch | IndirectBranch | EcallExit

  /** How a budgeted loop ends: as the C loop does, with the process dead, or out of budget. */
  datatype Outcome = Exited | Died | OutOfBudget

  class Hart {
    const host: HostFloat
    const gp: array<u64>
    const fp: array<u64>
    var pc: u64
    var reenterPc: u64
    var exitReason: ExitReason
    var mem: Mem
    var inst: Inst

    ghost predicate Valid() {
      gp.Length == 32 && fp.Length == 32 && gp != fp
    }

    /** The architectural state at an instruction boundary. */
    ghost function State(): Arch
      requires Valid()
      reads this, gp, fp
    {
      Arch(pc, gp[..], fp[..], mem)
    }

    /** The architectural state a finished block hands over. */
    ghost function Handover(): Arch
      requires Valid()
      reads this, gp, fp
    {
      Arch(reenterPc, gp[..], fp[..], mem)
    }

    /** An instruction has been decoded and no handler has run yet. */
    ghost predicate Ready()
      reads this, gp, fp
    {
      Valid() && gp[0] == 0 && exitReason == NoExit
      && (inst.continueExec <==> inst.op.Jal? || inst.op.Jalr? || inst.op.Ecall?)
    }

    /** What a handler must leave behind when the flat semantics yields r: the registers agree
        once x0 is cleared; either the block goes on and pc is still the address of this
        instruction, or the block is left and the exit reason and re-entry address are set. */
    ghost predicate Handled(r: Result, ok: bool)
      requires Valid()
      reads this, gp, fp
    {
      match r
      case Dead => !ok
      case Running(b) =>
        && ok && gp[..][0 := 0] == b.x && fp[..] == b.f && mem == b.mem
        && (if inst.continueExec
            then (exitReason == DirectBranch || exitReason == IndirectBranch) && reenterPc == b.pc
            else exitReason == NoExit && Wrap64(pc + Len(inst)) == b.pc)
      case Called(b) =>
        && ok && gp[..][0 := 0] == b.x && fp[..] == b.f && mem == b.mem
        && inst.continueExec && exitReason == EcallExit && reenterPc == b.pc
    }

    /** `state->gp_regs[rd] = v`; seen through the clearing of x0 that follows every handler, it
        is a write to a register file whose x0 cannot be written. */
    method SetGp(rd: bv5, v: u64)
      requires Valid() && gp[0] == 0
      modifies gp
      ensures gp[..][0 := 0] == WriteX(old(gp[..]), rd, v)
    {
      gp[rd as int] := v;
      assert gp[..] == old(gp[..])[rd as int := v];
    }

    /** Clearing x0 changes nothing when no register was written. */
    lemma ClearIsNoop()
      requires Valid() && gp[0] == 0
      ensures gp[..][0 := 0] == gp[..]
    {
    }

    /** The load macro. */
    method LoadHandler(k: LoadOp) returns (ok: bool)
      requires Ready() && inst.op == Load(k)
      modifies gp
      ensures Handled(Execute(host, inst, old(State())), ok)
    {
      hide Execute, WriteX, Simm, LoadExtend, LoadLE, Mapped;
      LoadArm(host, inst, k, State());
      var addr := Wrap64(gp[inst.rs1 as int] + Simm(inst.imm));
      ok := Mapped(mem, addr, LoadWidth(k));
      if ok {
        var raw := Wrap64(LoadLE(mem, addr, LoadWidth(k)));
        SetGp(inst.rd, LoadExtend(k, raw));
      }
    }

    /** The register-immediate macro. */
    method ImmHandler(k: ImmOp) returns (ok: bool)
      requires Ready() && inst.op == Imm(k)
      modifies gp
      ensures Handled(Execute(host, inst, old(State())), ok)
    {
      hide Execute, WriteX, Simm, ImmResult;
      ImmArm(host, inst, State());
      var rs1 := gp[inst.rs1 as int];
      SetGp(inst.rd, ImmResult(k, rs1, inst.imm));
      ok := true;
    }

    /** The store macro. */
    method StoreHandler(k: StoreOp) returns (ok: bool)
      requires Ready() && inst.op == Store(k)
      modifies this`mem
      ensures Handled(Execute(host, inst, old(State())), ok)
    {
      hide Execute, StoreWidth, WriteX, Simm, Low5, Low6, ImmValue, RegResult, LoadExtend, LoadLE, StoreLE, Mapped, FpEffect, BranchTaken;
      StoreArm(host, inst, k, State());
      var addr := Wrap64(gp[inst.rs1 as int] + Simm(inst.imm));
      ok := Mapped(mem, addr, StoreWidth(k));
      if ok {
        mem := StoreLE(mem, addr, gp[inst.rs2 as int], StoreWidth(k));
      }
      ClearIsNoop();
    }

    /** The value of a register-register instruction; the three high multiplications are
        computed limb by limb. */
    method ComputeReg(k: RegOp, rs1: u64, rs2: u64) returns (v: Option<u64>)
      ensures v == RegResult(k, rs1, rs2)
    {
      if k == MULHU {
        var h := Mulhu(rs1, rs2);
        ProductFits(rs1, rs2);
        v := Some(h);
      } else if k == MULH {
        var h := Mulh(rs1, rs2);
        v := Some(h);
      } else if k == MULHSU {
        var h := Mulhsu(rs1, rs2);
        v := Some(h);
      } else {
        v := RegResult(k, rs1, rs2);
      }
    }

    /** The register-register macro, and `div`, `divu`, `rem`. */
    method RegHandler(k: RegOp) returns (ok: bool)
      requires Ready() && inst.op == Reg(k)
      modifies gp
      ensures Handled(Execute(host, inst, old(State())), ok)
    {
      hide Execute, WriteX, RegResult;
      RegArm(host, inst, k, State());
      var v := ComputeReg(k, gp[inst.rs1 as int], gp[inst.rs2 as int]);
      ok := v.Some?;
      if ok {
        SetGp(inst.rd, v.value);
      }
    }

    method UpperHandler() returns (ok: bool)
      requires Ready() && (inst.op.Lui? || inst.op.Auipc?)
      modifies gp
      ensures Handled(Execute(host, inst, old(State())), ok)
    {
      hide Execute, WriteX, Simm, ImmResult;
      ImmArm(host, inst, State());
      SetGp(inst.rd, if inst.op.Lui? then Wrap64(Simm(inst.imm)) else Wrap64(pc + Simm(inst.imm)));
      ok := true;
    }

    /** The branch macro: a taken branch moves pc, sets the exit fields, and marks the static
        record so that the block loop stops. */
    method BranchHandler(k: BranchOp) returns (ok: bool)
      requires Ready() && inst.op == Branch(k)
      modifies this`pc, this`reenterPc, this`exitReason, this`inst
      ensures Handled(Execute(host, old(inst), old(State())), ok)
    {
      hide Execute, Simm, BranchTaken;
      BranchArm(host, inst, k, State());
      var rs1, rs2 := gp[inst.rs1 as int], gp[inst.rs2 as int];
      var target := Wrap64(pc + Simm(inst.imm));
      if BranchTaken(k, rs1, rs2) {
        pc := target;
        reenterPc := target;
        exitReason := DirectBranch;
        inst := inst.(continueExec := true);
      }
      ClearIsNoop();
      ok := true;
    }

    /** `jalr` reads rs1 before it writes the link register, which may be the same. */
    method JalrHandler() returns (ok: bool)
      requires Ready() && inst.op.Jalr?
      modifies gp, this`reenterPc, this`exitReason
      ensures Handled(Execute(host, inst, old(State())), ok)
    {
      hide Execute, WriteX, Simm;
      JumpArms(host, inst, State());
      var rs1 := gp[inst.rs1 as int];
      SetGp(inst.rd, Wrap64(pc + Len(inst)));
      exitReason := IndirectBranch;
      reenterPc := ClearBit0(Wrap64(rs1 + Simm(inst.imm)));
      ok := true;
    }

    method JalHandler() returns (ok: bool)
      requires Ready() && inst.op.Jal?
      modifies gp, this`pc, this`reenterPc, this`exitReason
      ensures Handled(Execute(host, inst, old(State())), ok)
    {
      hide Execute, WriteX, Simm;
      JumpArms(host, inst, State());
      SetGp(inst.rd, Wrap64(pc + Len(inst)));
      pc := Wrap64(pc + Simm(inst.imm));
      reenterPc := pc;
      exitReason := DirectBranch;
      ok := true;
    }

    method EcallHandler() returns (ok: bool)
      requires Ready() && inst.op.Ecall?
      modifies this`reenterPc, this`exitReason
      ensures Handled(Execute(host, inst, old(State())), ok)
    {
      hide WriteX, Simm, Low5, Low6, ImmValue, RegResult, LoadExtend, LoadLE, StoreLE, Mapped, FpEffect, BranchTaken;
      exitReason := EcallExit;
      reenterPc := Wrap64(pc + 4);
      ClearIsNoop();
      ok := true;
    }

    /** The CSR macro: supported registers read as zero, writes are dropped. */
    method CsrHandler() returns (ok: bool)
      requires Ready() && inst.op.Csr?
      modifies gp
      ensures Handled(Execute(host, inst, old(State())), ok)
    {
      hide Execute, WriteX;
      PlainArms(host, inst, State());
      ok := CsrSupported(inst.csr);
      if ok {
        SetGp(inst.rd, 0);
      }
    }

    method SetFp(rd: bv5, v: u64)
      requires Valid()
      modifies fp
      ensures fp[..] == old(fp[..])[rd as int := v] && gp[..] == old(gp[..])
    {
      fp[rd as int] := v;
    }

    method FlwHandler() returns (ok: bool)
      requires Ready() && inst.op == Flw
      modifies fp
      ensures Handled(Execute(host, inst, old(State())), ok)
    {
      hide Execute, Simm, LoadLE, StoreLE, Mapped;
      FpMemoryArms(host, inst, State());
      var addr := Wrap64(gp[inst.rs1 as int] + Simm(inst.imm));
      ok := Mapped(mem, addr, 4);
      if ok {
        SetFp(inst.rd, Boxed(Wrap32(LoadLE(mem, addr, 4))));
      }
      ClearIsNoop();
    }

    method FldHandler() returns (ok: bool)
      requires Ready() && inst.op == Fld
      modifies fp
      ensures Handled(Execute(host, inst, old(State())), ok)
    {
      hide Execute, Simm, LoadLE, StoreLE, Mapped;
      FpMemoryArms(host, inst, State());
      var addr := Wrap64(gp[inst.rs1 as int] + Simm(inst.imm));
      ok := Mapped(mem, addr, 8);
      if ok {
        SetFp(inst.rd, Wrap64(LoadLE(mem, addr, 8)));
      }
      ClearIsNoop();
    }

    method FswHandler() returns (ok: bool)
      requires Ready() && inst.op == Fsw
      modifies this`mem
      ensures Handled(Execute(host, inst, old(State())), ok)
    {
      hide Execute, Simm, LoadLE, StoreLE, Mapped;
      FpMemoryArms(host, inst, State());
      var addr := Wrap64(gp[inst.rs1 as int] + Simm(inst.imm));
      ok := Mapped(mem, addr, 4);
      if ok {
        mem := StoreLE(mem, addr, fp[inst.rs2 as int], 4);
      }
      ClearIsNoop();
    }

    method FsdHandler() returns (ok: bool)
      requires Ready() && inst.op == Fsd
      modifies this`mem
      ensures Handled(Execute(host, inst, old(State())), ok)
    {
      hide Execute, Simm, LoadLE, StoreLE, Mapped;
      FpMemoryArms(host, inst, State());
      var addr := Wrap64(gp[inst.rs1 as int] + Simm(inst.imm));
      ok := Mapped(mem, addr, 8);
      if ok {
        mem := StoreLE(mem, addr, fp[inst.rs2 as int], 8);
      }
      ClearIsNoop();
    }

    /** The result of a floating-point instruction goes to one of the two register files. */
    method FpWriteBack(w: FpWrite)
      requires Ready() && inst.op.Fp?
      modifies gp, fp
      ensures Handled(Written(inst, w, old(State()), Wrap64(pc + Len(inst))), true)
    {
      hide WriteX, Wrap64;
      if w.ToX? {
        SetGp(inst.rd, w.value);
      } else {
        SetFp(inst.rd, w.value);
        ClearIsNoop();
      }
    }

    method FpHandler(k: FpOp) returns (ok: bool)
      requires Ready() && inst.op == Fp(k)
      modifies gp, fp
      ensures Handled(Execute(host, inst, old(State())), ok)
    {
      hide Execute, FpEffect, Handled, Written, Wrap64;
      FpArm(host, inst, k, State());
      var rs1 := inst.rs1 as int;
      var w := FpEffect(host, k, gp[rs1], fp[rs1], fp[inst.rs2 as int], fp[inst.rs3 as int], fp[inst.rd as int]);
      FpWriteBack(w);
      ok := true;
    }

    /** `funcs[inst.type](state, &inst)`. */
    method Dispatch() returns (ok: bool)
      requires Ready()
      modifies this, gp, fp
      ensures Handled(Execute(host, old(inst), old(State())), ok)
    {
      hide WriteX, Simm, Low5, Low6, ImmValue, RegResult, LoadExtend, LoadLE, StoreLE, Mapped, FpEffect, BranchTaken;
      match inst.op {
        case Load(k) => ok := LoadHandler(k);
        case Fence => ok := true; ClearIsNoop();
        case FenceI => ok := true; ClearIsNoop();
        case Imm(k) => ok := ImmHandler(k);
        case Auipc => ok := UpperHandler();
        case Store(k) => ok := StoreHandler(k);
        case Reg(k) => ok := RegHandler(k);
        case Lui => ok := UpperHandler();
        case Branch(k) => ok := BranchHandler(k);
        case Jalr => ok := JalrHandler();
        case Jal => ok := JalHandler();
        case Ecall => ok := EcallHandler();
        case Csr(_) => ok := CsrHandler();
        case Flw => ok := FlwHandler();
        case Fld => ok := FldHandler();
        case Fsw => ok := FswHandler();
        case Fsd => ok := FsdHandler();
        case Fp(k) => ok := FpHandler(k);
      }
    }

    /** What the block loop sees after one instruction and the clearing of x0. */
    ghost predicate Stepped(r: Result, ok: bool)
      requires Valid()
      reads this, gp, fp
    {
      && (ok <==> !r.Dead?)
      && (ok ==> gp[0] == 0)
      && (ok && !inst.continueExec ==>
            exitReason == NoExit && r == Running(State().(pc := Wrap64(pc + Len(inst)))))
      && (ok && inst.continueExec ==>
            if exitReason == EcallExit then r == Called(Handover()) else exitReason != NoExit && r == Running(Handover()))
    }

    /** The loop body of `exec_block_interp` up to the test of `continue_exec`: fetch, decode into
        the reused record, dispatch, clear x0. It does one step of the flat semantics, whatever
        the record held before. */
    method FetchAndExecute() returns (ok: bool)
      requires Valid() && gp[0] == 0 && exitReason == NoExit
      modifies this, gp, fp
      ensures Stepped(Step(host, old(State())), ok)
    {
      hide DecodeInst, Execute, FetchWord, Mapped;
      if !Mapped(mem, pc, 4) {
        return false;
      }
      var raw := FetchWord(mem, pc);
      ghost var a := State();
      HistoryIndependent(host, inst, raw, a);
      var d := DecodeInst(inst, raw);
      if d.None? {
        return false;
      }
      DecodeFlags(inst, raw);
      ghost var r := Execute(host, d.value, a);
      inst := d.value;
      assert State() == a;
      ok := Dispatch();
      if ok {
        ghost var cleared := gp[..][0 := 0];
        gp[0] := 0;
        assert gp[..] == cleared;
      }
    }

    /** src/interp.c `exec_block_interp`, for at most `budget` instructions. The block is left
        exactly when a handler has set a reason and a re-entry address, and then the flat
        semantics has done the same number of steps and stands at that address. */
    method ExecBlock(budget: nat) returns (outcome: Outcome, used: nat)
      requires Valid() && gp[0] == 0 && exitReason == NoExit
      modifies this, gp, fp
      ensures used <= budget
      ensures outcome != Died ==> gp[0] == 0
      ensures outcome == Exited ==> 0 < used && exitReason != NoExit
      ensures outcome == Exited ==>
        Run(host, old(State()), used) == if exitReason == EcallExit then Called(Handover()) else Running(Handover())
      ensures outcome == Died ==> Run(host, old(State()), used) == Dead
      ensures outcome == OutOfBudget ==> used == budget && Run(host, old(State()), used) == Running(State())
    {
      hide Step, Run;
      ghost var start := State();
      RunNone(host, start);
      used := 0;
      while true
        invariant used <= budget && Valid() && gp[0] == 0 && exitReason == NoExit
        invariant Run(host, start, used) == Running(State())
        decreases budget - used
      {
        if used == budget {
          return OutOfBudget, used;
        }
        ghost var a := State();
        var ok := FetchAndExecute();
        RunAdd(host, start, used, 1, a);
        RunOne(host, a);
        used := used + 1;
        if !ok {
          return Died, used;
        }
        if inst.continueExec {
          return Exited, used;
        }
        pc := Wrap64(pc + Len(inst));
      }
    }

    /** src/machine.c `machine_step`, for at most `budget` instructions. For every start state
        with x0 = 0, every program and every budget, the two nested loops do exactly what the
        flat semantics does: they return after the first ECALL with its state, they die when it
        dies, and they are still running when it is. */
    method MachineStep(budget: nat) returns (outcome: Outcome)
      requires Valid() && gp[0] == 0
      modifies this, gp, fp
      ensures match Run(host, old(State()), budget)
              case Called(b) => outcome == Exited && State() == b && exitReason == EcallExit && gp[0] == 0
              case Dead => outcome == Died
              case Running(b) => outcome == OutOfBudget && State() == b && gp[0] == 0
    {
      hide Step, Run;
      ghost var start := State();
      var total := 0;
      RunNone(host, start);
      while true
        invariant total <= budget && Valid() && gp[0] == 0
        invariant Run(host, start, total) == Running(State())
        decreases budget - total
      {
        exitReason := NoExit;
        ghost var a := State();
        var used;
        outcome, used := ExecBlock(budget - total);
        RunAdd(host, start, total, used, a);
        total := total + used;
        if outcome == OutOfBudget {
          return;
        }
        if outcome == Died {
          RunStops(host, start, total, budget - total);
          return;
        }
        assert exitReason != NoExit;
        if exitReason == DirectBranch || exitReason == IndirectBranch {
          pc := reenterPc;
          continue;
        }
        break;
      }
      RunStops(host, start, total, budget - total);
      pc := reenterPc;
      assert exitReason == EcallExit;
    }
  }
}
