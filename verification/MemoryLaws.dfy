/** The laws of loads and stores, at the level of executed instructions. */
module MemoryLaws {
  import opened Words
  import opened Instruction
  import opened Alu
  import opened Memory
  import opened Isa
  import opened IntegerLaws
  import opened InstructionLaws

  /** Two to the number of bits the load transfers. */
  function Span(l: LoadOp): int {
    match l
    case LB => 0x100 case LBU => 0x100
    case LH => 0x1_0000 case LHU => 0x1_0000
    case LW => 0x1_0000_0000 case LWU => 0x1_0000_0000
    case LD => 0x1_0000_0000_0000_0000
  }

  predicate IsSigned(l: LoadOp) { l.LB? || l.LH? || l.LW? || l.LD? }

  /** r is v cut to the width of the load and extended: it is congruent to v, and in the signed or
      the unsigned range of that width. There is exactly one such r. */
  predicate Extends(l: LoadOp, r: u64, v: u64) {
    && r % Span(l) == v % Span(l)
    && (if IsSigned(l) then -Span(l) <= 2 * Signed64(r) < Span(l) else r < Span(l))
  }

  lemma SpanOfWidth(l: LoadOp, v: u64)
    ensures Low(v, LoadWidth(l)) == v % Span(l)
  {
    hide Low;
    LowWidths(v);
  }

  lemma ExtendLow(l: LoadOp, v: u64)
    ensures Extends(l, LoadExtend(l, v % Span(l)), v)
  {
    var low := v % Span(l);
    if LoadExtend(l, low) != low {
      assert LoadExtend(l, low) == low + 0x1_0000_0000_0000_0000 - Span(l);
    }
  }

  lemma ExtendsUnique(l: LoadOp, r: u64, q: u64, v: u64)
    requires Extends(l, r, v) && Extends(l, q, v)
    ensures r == q
  {
    hide Span, Signed64;
    SpanPositive(l);
    if IsSigned(l) {
      SignedCongruent(l, r);
      SignedCongruent(l, q);
      OneInWindow(2 * Signed64(r), 2 * Signed64(q), Signed64(r), Signed64(q), Span(l));
      SignedRoundTrip64(r);
      SignedRoundTrip64(q);
    } else {
      OneInWindow(2 * r - Span(l), 2 * q - Span(l), r, q, Span(l));
    }
  }

  lemma SpanPositive(l: LoadOp)
    ensures Span(l) > 0
  {
  }

  lemma SignedCongruent(l: LoadOp, r: u64)
    ensures Signed64(r) % Span(l) == r % Span(l)
  {
    match l
    case LB | LBU => ShiftMod(r, 0x100, 0x100_0000_0000_0000);
    case LH | LHU => ShiftMod(r, 0x1_0000, 0x1_0000_0000_0000);
    case LW | LWU => ShiftMod(r, 0x1_0000_0000, 0x1_0000_0000);
    case LD => ShiftMod(r, 0x1_0000_0000_0000_0000, 1);
  }

  lemma ShiftMod(x: int, s: int, c: int)
    requires s > 0
    ensures (x - s * c) % s == x % s
  {
    assert x - s * c == s * (x / s - c) + x % s;
    Remainder(x - s * c, s, x / s - c, x % s);
  }

  /** Congruent numbers in a window as wide as the modulus are equal. */
  lemma OneInWindow(x2: int, y2: int, x: int, y: int, s: int)
    requires s > 0 && x % s == y % s && x2 - y2 == 2 * (x - y)
    requires -s <= x2 < s && -s <= y2 < s
    ensures x == y
  {
    var d := x / s - y / s;
    assert x - y == s * d by { assert s * (x / s) - s * (y / s) == s * d; }
    Spread(s, d);
  }

  /** A load that follows a store of the same width to the same address writes the extended
      truncation of the stored register, and nothing else. */
  lemma StoreThenLoad(host: HostFloat, st: Inst, k: StoreOp, ld: Inst, l: LoadOp, a: Arch, b: Arch) returns (v: u64)
    requires st.op == Store(k) && ld.op == Load(l) && StoreWidth(k) == LoadWidth(l)
    requires Execute(host, st, a) == Running(b) && Address(st, a) == Address(ld, b)
    ensures Extends(l, v, a.x[st.rs2 as int])
    ensures Execute(host, ld, b) == Running(b.(pc := Wrap64(b.pc + Len(ld)), x := WriteX(a.x, ld.rd, v)))
  {
    hide Execute, LoadLE, StoreLE, Mapped, Low, LoadExtend, Extends, Address, WriteX, Span, Wrap64;
    var x2 := a.x[st.rs2 as int];
    SpanLimit(l);
    StoreArm(host, st, k, a);
    LoadArm(host, ld, l, b);
    InWord(x2 % Span(l), Span(l));
    LoadAfterStore(a.mem, Address(st, a), x2, LoadWidth(l));
    SpanOfWidth(l, x2);
    ExtendLow(l, x2);
    v := LoadExtend(l, x2 % Span(l));
  }

  lemma {:induction false} MappedByKeys(m: Mem, m': Mem, a: u64, n: nat)
    requires m.Keys == m'.Keys
    ensures Mapped(m, a, n) <==> Mapped(m', a, n)
    decreases n
  {
    if n > 0 {
      assert ToHost(a) in m.Keys <==> ToHost(a) in m'.Keys;
      MappedByKeys(m, m', Next(a), n - 1);
    }
  }

  /** Two steps, the second only if the first one runs on. */
  function Both(host: HostFloat, i: Inst, j: Inst, a: Arch): Result {
    var r := Execute(host, i, a);
    if r.Running? then Execute(host, j, r.arch) else r
  }

  /** Stores of any width to disjoint ranges commute, faults included. */
  lemma StoresCommute(host: HostFloat, i: Inst, k: StoreOp, j: Inst, l: StoreOp, a: Arch)
    requires i.op == Store(k) && j.op == Store(l)
    requires Disjoint(Address(i, a), StoreWidth(k), Address(j, a), StoreWidth(l))
    ensures Both(host, i, j, a) == Both(host, j, i, a)
  {
    hide Execute, StoreLE, Mapped, Disjoint, Address, Len, StoreWidth;
    var p, q, n, m := Address(i, a), Address(j, a), StoreWidth(k), StoreWidth(l);
    var v, w := a.x[i.rs2 as int], a.x[j.rs2 as int];
    StoreArm(host, i, k, a);
    StoreArm(host, j, l, a);
    StoreWidths(k);
    StoreWidths(l);
    if Mapped(a.mem, p, n) {
      StoreKeepsKeys(a.mem, p, v, n);
      MappedByKeys(a.mem, StoreLE(a.mem, p, v, n), q, m);
      StoreArm(host, j, l, a.(pc := Wrap64(a.pc + Len(i)), mem := StoreLE(a.mem, p, v, n)));
    }
    if Mapped(a.mem, q, m) {
      StoreKeepsKeys(a.mem, q, w, m);
      MappedByKeys(a.mem, StoreLE(a.mem, q, w, m), p, n);
      StoreArm(host, i, k, a.(pc := Wrap64(a.pc + Len(j)), mem := StoreLE(a.mem, q, w, m)));
    }
    DisjointStoresCommute(a.mem, p, v, n, q, w, m);
    WrapTwice(a.pc, Len(i), Len(j));
  }

  lemma WrapTwice(pc: int, i: int, j: int)
    ensures Wrap64(Wrap64(pc + i) + j) == Wrap64(Wrap64(pc + j) + i)
  {
  }

  lemma StoreWidths(k: StoreOp)
    ensures StoreWidth(k) <= TWO64
  {
  }

  // ---- where an access goes ----

  /** p is the address the instruction accesses: congruent to rs1 plus the immediate. */
  predicate Accesses(i: Inst, a: Arch, p: u64) { Same(p, a.x[i.rs1 as int] + Simm(i.imm)) }

  lemma AddressLaw(i: Inst, a: Arch, p: u64)
    requires Accesses(i, a, p)
    ensures Address(i, a) == p
  {
    hide Simm, Wrap64;
    WrapIsSame(p, a.x[i.rs1 as int] + Simm(i.imm));
  }

  lemma {:induction false} LoadBound(m: Mem, a: u64, n: nat)
    requires Mapped(m, a, n)
    ensures LoadLE(m, a, n) < Pow256(n)
    decreases n
  {
    if n > 0 {
      LoadBound(m, Next(a), n - 1);
    }
  }

  /** The bytes of a loaded value, lowest first, are those in memory. */
  lemma {:induction false} LoadByte(m: Mem, a: u64, n: nat, h: u64)
    requires Mapped(m, a, n) && InRange(h, a, n)
    ensures h in m && ByteOf(LoadLE(m, a, n), Distance(h, a)) == m[h]
    decreases n
  {
    DistanceStep(h, a);
    if h != ToHost(a) {
      hide ToHost, Next, Distance;
      LoadByte(m, Next(a), n - 1, h);
    }
  }

  lemma LoadFits(m: Mem, a: u64, l: LoadOp)
    requires Mapped(m, a, LoadWidth(l))
    ensures LoadLE(m, a, LoadWidth(l)) < Span(l)
  {
    hide LoadLE, Mapped, Pow256;
    LoadBound(m, a, LoadWidth(l));
    PowersOf256();
  }

  /** A load dies if a byte of its width at p is not mapped; otherwise it writes the extension of the
      little-endian number at p to rd, whatever wrote that. */
  lemma LoadLaw(host: HostFloat, i: Inst, l: LoadOp, a: Arch, p: u64) returns (v: u64)
    requires i.op == Load(l) && Accesses(i, a, p)
    ensures Execute(host, i, a) == Dead <==> !Mapped(a.mem, p, LoadWidth(l))
    ensures Mapped(a.mem, p, LoadWidth(l)) ==>
      var raw := LoadLE(a.mem, p, LoadWidth(l));
      && raw < Span(l) && Extends(l, v, raw)
      && Execute(host, i, a).Running? && Computes(i, a, Execute(host, i, a).arch, v)
  {
    hide Execute, Accesses, Address, LoadLE, Mapped, LoadExtend, Extends, WriteX, Writes, Advances, Wrap64, LoadWidth, Span;
    AddressLaw(i, a, p);
    LoadArm(host, i, l, a);
    v := 0;
    if Mapped(a.mem, p, LoadWidth(l)) {
      var raw := LoadLE(a.mem, p, LoadWidth(l));
      LoadFits(a.mem, p, l);
      SpanLimit(l);
      v := LoadExtend(l, raw);
      ExtendLow(l, raw);
      InWord(raw, Span(l));
      WriteLaw(a.x, i.rd, v);
      NextAdvances(i, a, Execute(host, i, a).arch);
    }
  }

  lemma SpanLimit(l: LoadOp)
    ensures 0 < Span(l) <= TWO64
  {
  }

  lemma InWord(raw: nat, span: int)
    requires raw < span <= TWO64
    ensures Wrap64(raw) == raw && raw % span == raw
  {
    Remainder(raw, span, 0, raw);
  }

  /** The width of a store, and the register it stores. */
  function WidthOf(op: Op): nat {
    match op
    case Store(SB) => 1
    case Store(SH) => 2
    case Store(SW) => 4
    case Fsw => 4
    case _ => 8
  }

  predicate IsStore(op: Op) { op.Store? || op.Fsw? || op.Fsd? }

  function Source(i: Inst, a: Arch): u64 { if i.op.Store? then a.x[i.rs2 as int] else a.f[i.rs2 as int] }

  lemma StoreArms(host: HostFloat, i: Inst, a: Arch)
    requires IsStore(i.op)
    ensures Execute(host, i, a) == ExecStore(i, Source(i, a), WidthOf(i.op), a, Wrap64(a.pc + Len(i)))
  {
    FpMemoryArms(host, i, a);
    if i.op.Store? { StoreArm(host, i, i.op.store, a); }
    hide Execute, StoreLE, Mapped, Wrap64;
  }

  /** An integer or floating-point store dies if a byte of its width at p is not mapped; otherwise it
      puts the low bytes of rs2 there and changes nothing else. */
  lemma StoreLaw(host: HostFloat, i: Inst, a: Arch, p: u64)
    requires IsStore(i.op) && Accesses(i, a, p)
    ensures Execute(host, i, a) == Dead <==> !Mapped(a.mem, p, WidthOf(i.op))
    ensures Mapped(a.mem, p, WidthOf(i.op)) ==>
      && Execute(host, i, a).Running?
      && var b := Execute(host, i, a).arch;
         b.x == a.x && b.f == a.f && Advances(i, a, b) && Stored(a.mem, b.mem, p, WidthOf(i.op), Source(i, a))
  {
    hide Execute, Accesses, Address, StoreLE, Mapped, Stored, Advances, Wrap64, Source;
    AddressLaw(i, a, p);
    StoreArms(host, i, a);
    if Mapped(a.mem, p, WidthOf(i.op)) {
      StoreIsStored(a.mem, p, WidthOf(i.op), Source(i, a));
      NextAdvances(i, a, Execute(host, i, a).arch);
    }
  }

  /** A floating-point load dies likewise; otherwise rd becomes the number at p, with ones in the
      upper half for a single. */
  lemma FpLoadLaw(host: HostFloat, i: Inst, a: Arch, p: u64)
    requires (i.op == Flw || i.op == Fld) && Accesses(i, a, p)
    ensures var n := if i.op == Flw then 4 else 8;
      && (Execute(host, i, a) == Dead <==> !Mapped(a.mem, p, n))
      && (Mapped(a.mem, p, n) ==>
            && Execute(host, i, a).Running?
            && var b := Execute(host, i, a).arch;
               && b.x == a.x && b.mem == a.mem && Advances(i, a, b)
               && (forall r | 0 <= r < 32 && r != i.rd as int :: b.f[r] == a.f[r])
               && b.f[i.rd as int] == LoadLE(a.mem, p, n) + (if i.op == Flw then 0xffff_ffff_0000_0000 else 0))
  {
    hide Execute, Accesses, Address, LoadLE, Mapped, Advances, Wrap64, Wrap32, Boxed;
    var n := if i.op == Flw then 4 else 8;
    AddressLaw(i, a, p);
    FpMemoryArms(host, i, a);
    if Mapped(a.mem, p, n) {
      LoadFits(a.mem, p, if i.op == Flw then LWU else LD);
      BoxedValue(LoadLE(a.mem, p, n));
      NextAdvances(i, a, Execute(host, i, a).arch);
    }
  }

  lemma BoxedValue(raw: nat)
    ensures raw < TWO32 ==> Boxed(Wrap32(raw)) == raw + 0xffff_ffff_0000_0000
    ensures raw < TWO64 ==> Wrap64(raw) == raw
  {
  }
}
