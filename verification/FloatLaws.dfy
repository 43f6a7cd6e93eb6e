/** The floating-point instructions that work on bit patterns, and which register file each of the
    others writes, stated on the executed instruction. Register values are numbers: the sign of a
    double is its quotient by 2^63, its magnitude the remainder. */
module FloatLaws {
  import opened Words
  import opened Instruction
  import opened FloatBits
  import opened Isa
  import opened IntegerLaws
  import opened InstructionLaws
  import opened WideBits

  // ---- signs and magnitudes of patterns, as numbers ----

  function Magnitude64(b: bv64): bv64 { b & 0x7fff_ffff_ffff_ffff }
  predicate Negative64(b: bv64) { b & 0x8000_0000_0000_0000 != 0 }

  lemma SignClear64(b: bv64)
    requires !Negative64(b)
    ensures b == Magnitude64(b)
  {
  }

  lemma SignSet64(b: bv64)
    requires Negative64(b)
    ensures b == Magnitude64(b) | 0x8000_0000_0000_0000
  {
  }

  lemma Small64(b: bv64)
    ensures Magnitude64(b) < 0x8000_0000_0000_0000
  {
  }

  lemma SmallValue64(m: bv64)
    requires m < 0x8000_0000_0000_0000
    ensures Value(m) < TWO63
  {
    hide Value;
    AddSign64(m | 0x8000_0000_0000_0000, m);
  }

  lemma AddSign64(b: bv64, m: bv64)
    requires m < 0x8000_0000_0000_0000 && b == m | 0x8000_0000_0000_0000
    ensures Value(b) == Value(m) + TWO63
  {
  }

  lemma Number64(b: bv64)
    ensures Value(Magnitude64(b)) == Value(b) % TWO63
    ensures Value(b) / TWO63 == if Negative64(b) then 1 else 0
  {
    hide Value, Magnitude64, Negative64;
    Small64(b);
    SmallValue64(Magnitude64(b));
    if Negative64(b) {
      SignSet64(b);
      AddSign64(b, Magnitude64(b));
    } else {
      SignClear64(b);
    }
  }

  lemma Mixed64(v: bv64, a: bv64, b: bv64)
    ensures Magnitude64(Mix64(v, a, b)) == Magnitude64(a)
    ensures Negative64(Mix64(v, a, b)) <==> Negative64(v) != Negative64(b)
  {
    MixedSign64(v, a, b);
    hide Negative64;
  }

  lemma MixedSign64(v: bv64, a: bv64, b: bv64)
    ensures Negative64(Mix64(v, a, b)) <==> Negative64(v) != Negative64(b)
  {
  }

  lemma Injected64Bits(a: bv64, b: bv64, n: bool, x: bool)
    ensures var r := Fsgnj64(a, b, n, x);
      Magnitude64(r) == Magnitude64(a) && (Negative64(r) <==> InjectedSign(Negative64(a), Negative64(b), n, x))
  {
    assert !Negative64(0) && Negative64(0x8000_0000_0000_0000);
    hide Mix64, Magnitude64, Negative64;
    Mixed64(if x then a else if n then 0x8000_0000_0000_0000 else 0, a, b);
  }

  function Magnitude32(b: bv32): bv32 { b & 0x7fff_ffff }
  predicate Negative32(b: bv32) { b & 0x8000_0000 != 0 }

  lemma SignClear32(b: bv32)
    requires !Negative32(b)
    ensures b == Magnitude32(b)
  {
  }

  lemma SignSet32(b: bv32)
    requires Negative32(b)
    ensures b == Magnitude32(b) | 0x8000_0000
  {
  }

  lemma Small32(b: bv32)
    ensures Magnitude32(b) < 0x8000_0000
  {
  }

  lemma SmallValue32(m: bv32)
    requires m < 0x8000_0000
    ensures Value32(m) < TWO31
  {
    hide Value32;
    AddSign32(m | 0x8000_0000, m);
  }

  lemma AddSign32(b: bv32, m: bv32)
    requires m < 0x8000_0000 && b == m | 0x8000_0000
    ensures Value32(b) == Value32(m) + TWO31
  {
  }

  lemma Number32(b: bv32)
    ensures Value32(Magnitude32(b)) == Value32(b) % TWO31
    ensures Value32(b) / TWO31 == if Negative32(b) then 1 else 0
  {
    hide Value32, Magnitude32, Negative32;
    Small32(b);
    SmallValue32(Magnitude32(b));
    if Negative32(b) {
      SignSet32(b);
      AddSign32(b, Magnitude32(b));
    } else {
      SignClear32(b);
    }
  }

  lemma Mixed32(v: bv32, a: bv32, b: bv32)
    ensures Magnitude32(Mix32(v, a, b)) == Magnitude32(a)
    ensures Negative32(Mix32(v, a, b)) <==> Negative32(v) != Negative32(b)
  {
    MixedSign32(v, a, b);
    hide Negative32;
  }

  lemma MixedSign32(v: bv32, a: bv32, b: bv32)
    ensures Negative32(Mix32(v, a, b)) <==> Negative32(v) != Negative32(b)
  {
  }

  lemma Injected32Bits(a: bv32, b: bv32, n: bool, x: bool)
    ensures var r := Fsgnj32(a, b, n, x);
      Magnitude32(r) == Magnitude32(a) && (Negative32(r) <==> InjectedSign(Negative32(a), Negative32(b), n, x))
  {
    assert !Negative32(0) && Negative32(0x8000_0000);
    hide Mix32, Magnitude32, Negative32;
    Mixed32(if x then a else if n then 0x8000_0000 else 0, a, b);
  }

  // ---- sign injection ----

  /** The sign FSGNJ, FSGNJN and FSGNJX give to their result: that of the second operand, the other
      one, and the exclusive or of both. */
  function NewSign(k: FpOp, s1: int, s2: int): int {
    if k.FSGNJ? then s2 else if k.FSGNJN? then 1 - s2 else if s1 == s2 then 0 else 1
  }

  predicate Injects(k: FpOp) { k.FSGNJ? || k.FSGNJN? || k.FSGNJX? }

  lemma Injected64(k: FpOp, x: u64, y: u64)
    requires Injects(k)
    ensures var r := Value(Fsgnj64(Bits(x), Bits(y), k.FSGNJN?, k.FSGNJX?));
      r % TWO63 == x % TWO63 && r / TWO63 == NewSign(k, x / TWO63, y / TWO63)
  {
    hide Value, Bits, Fsgnj64, Magnitude64, Negative64;
    var a := Witness(x);
    var b := Witness(y);
    var r := Fsgnj64(a, b, k.FSGNJN?, k.FSGNJX?);
    Number64(a);
    Number64(b);
    Number64(r);
    Injected64Bits(a, b, k.FSGNJN?, k.FSGNJX?);
  }

  lemma Injected32(k: FpOp, x: u32, y: u32)
    requires Injects(k)
    ensures var r := Value32(Fsgnj32(Bits32(x), Bits32(y), k.FSGNJN?, k.FSGNJX?));
      r % TWO31 == x % TWO31 && r / TWO31 == NewSign(k, x / TWO31, y / TWO31)
  {
    hide Value32, Bits32, Fsgnj32, Magnitude32, Negative32;
    var a := Witness32(x);
    var b := Witness32(y);
    var r := Fsgnj32(a, b, k.FSGNJN?, k.FSGNJX?);
    Number32(a);
    Number32(b);
    Number32(r);
    Injected32Bits(a, b, k.FSGNJN?, k.FSGNJX?);
  }

  // ---- which register file is written ----

  /** The operations whose result goes to an integer register. */
  predicate ToInteger(k: FpOp) { k.FEQ? || k.FLT? || k.FLE? || k.FCVTX? || k.FMVX? || k.FCLASS? }

  /** The instruction only writes v to floating-point register rd. */
  predicate ComputesFp(i: Inst, a: Arch, b: Arch, v: u64) {
    && b.x == a.x && b.mem == a.mem && Advances(i, a, b)
    && (forall r | 0 <= r < 32 :: b.f[r] == if r == i.rd as int then v else a.f[r])
  }

  function Effect(host: HostFloat, i: Inst, k: FpOp, a: Arch): FpWrite {
    FpEffect(host, k, a.x[i.rs1 as int], a.f[i.rs1 as int], a.f[i.rs2 as int], a.f[i.rs3 as int], a.f[i.rd as int])
  }

  lemma EffectFile(host: HostFloat, i: Inst, k: FpOp, a: Arch)
    ensures Effect(host, i, k, a).ToX? <==> ToInteger(k)
  {
    hide SignInject, Classify, SetLow, Operand, SextWord, FpResult;
  }

  /** A floating-point instruction writes one register, in the file the standard names for it, and
      nothing else. */
  lemma FpFileLaw(host: HostFloat, i: Inst, k: FpOp, a: Arch)
    requires i.op == Fp(k)
    ensures Execute(host, i, a).Running?
    ensures var b, v := Execute(host, i, a).arch, Effect(host, i, k, a).value;
      if ToInteger(k) then Computes(i, a, b, v) else ComputesFp(i, a, b, v)
  {
    hide Execute, FpEffect, WriteX, Writes, Wrap64, Advances, ToInteger;
    EffectFile(host, i, k, a);
    FpArm(host, i, k, a);
    NextAdvances(i, a, Execute(host, i, a).arch);
    WriteLaw(a.x, i.rd, Effect(host, i, k, a).value);
  }

  // ---- the instructions on bit patterns ----

  /** v has the magnitude of x and the new sign; a single is boxed with ones in the upper half. */
  predicate IsInjected(k: FpOp, x: u64, y: u64, v: u64) {
    if k.fmt == D then v % TWO63 == x % TWO63 && v / TWO63 == NewSign(k, x / TWO63, y / TWO63)
    else
      var w, x', y' := v % TWO32, x % TWO32, y % TWO32;
      && v / TWO32 == 0xffff_ffff
      && w % TWO31 == x' % TWO31 && w / TWO31 == NewSign(k, x' / TWO31, y' / TWO31)
  }

  lemma InjectedValue(host: HostFloat, i: Inst, k: FpOp, a: Arch, v: u64)
    requires i.op == Fp(k) && Injects(k) && v == Effect(host, i, k, a).value
    ensures IsInjected(k, a.f[i.rs1 as int], a.f[i.rs2 as int], v)
  {
    hide Fsgnj32, Fsgnj64, Value, Bits, Value32, Bits32, NewSign, Boxed;
    var x, y := a.f[i.rs1 as int], a.f[i.rs2 as int];
    if k.fmt == D {
      Injected64(k, x, y);
    } else {
      Injected32(k, Wrap32(x), Wrap32(y));
      BoxedHalves(Value32(Fsgnj32(Bits32(Wrap32(x)), Bits32(Wrap32(y)), k.FSGNJN?, k.FSGNJX?)));
    }
  }

  lemma BoxedHalves(w: u32)
    ensures Boxed(w) / TWO32 == 0xffff_ffff && Boxed(w) % TWO32 == w
  {
  }

  lemma ClassValue(host: HostFloat, i: Inst, k: FpOp, a: Arch, b64: bv64, b32: bv32)
    requires i.op == Fp(k) && k.FCLASS?
    requires Value(b64) == a.f[i.rs1 as int] && Value32(b32) == a.f[i.rs1 as int] % TWO32
    ensures Effect(host, i, k, a) == ToX((if k.fmt == D then ClassBit(Class64(b64)) else ClassBit(Class32(b32))) as int)
  {
    hide Class32, Class64, ClassBit, Classify32, Classify64, Value, Bits, Value32, Bits32;
    BackToBits(b64, a.f[i.rs1 as int]);
    BackToBits32(b32, Wrap32(a.f[i.rs1 as int]));
    Classify64Exact(b64);
    Classify32Exact(b32);
  }

  lemma MoveValue(host: HostFloat, i: Inst, k: FpOp, a: Arch, v: u64)
    requires i.op == Fp(k) && (k.FMVX? || k.FMVF?) && v == Effect(host, i, k, a).value
    ensures k == FMVF(D) ==> v == a.x[i.rs1 as int]
    ensures k == FMVX(D) ==> v == a.f[i.rs1 as int]
    ensures k == FMVF(S) ==> v / TWO32 == a.f[i.rd as int] / TWO32 && v % TWO32 == a.x[i.rs1 as int] % TWO32
    ensures k == FMVX(S) ==> v % TWO32 == a.f[i.rs1 as int] % TWO32 && -TWO31 <= Signed64(v) < TWO31
  {
    SetLowHalves(a.f[i.rd as int], Wrap32(a.x[i.rs1 as int]));
    SextHalves(a.f[i.rs1 as int]);
    hide SetLow, SextWord, Signed64;
  }

  lemma SetLowHalves(prior: u64, w: u32)
    ensures SetLow(prior, w) / TWO32 == prior / TWO32 && SetLow(prior, w) % TWO32 == w
  {
  }

  lemma SextHalves(x: u64)
    ensures SextWord(x) % TWO32 == x % TWO32 && -TWO31 <= Signed64(SextWord(x)) < TWO31
  {
    SextWordLow(x);
  }

  /** A register moved to the floating-point file and back is unchanged. */
  lemma MoveRoundTrip(host: HostFloat, i: Inst, j: Inst, a: Arch)
    requires i.op == Fp(FMVF(D)) && j.op == Fp(FMVX(D)) && j.rs1 == i.rd
    ensures Execute(host, i, a).Running? && Execute(host, j, Execute(host, i, a).arch).Running?
    ensures Writes(a.x, Execute(host, j, Execute(host, i, a).arch).arch.x, j.rd, a.x[i.rs1 as int])
  {
    hide Execute, Effect, Writes, Advances;
    FpFileLaw(host, i, FMVF(D), a);
    MoveValue(host, i, FMVF(D), a, Effect(host, i, FMVF(D), a).value);
    var b := Execute(host, i, a).arch;
    FpFileLaw(host, j, FMVX(D), b);
    MoveValue(host, j, FMVX(D), b, Effect(host, j, FMVX(D), b).value);
  }

  // ---- the laws, on the executed instruction ----

  /** FSGNJ, FSGNJN and FSGNJX keep the magnitude of rs1 and set the sign; a single is boxed with
      ones in the upper half. */
  lemma SignInjectionLaw(host: HostFloat, i: Inst, k: FpOp, a: Arch)
    requires i.op == Fp(k) && Injects(k)
    ensures Execute(host, i, a).Running?
    ensures var b := Execute(host, i, a).arch; var v := b.f[i.rd as int];
      ComputesFp(i, a, b, v) && IsInjected(k, a.f[i.rs1 as int], a.f[i.rs2 as int], v)
  {
    hide Execute, FpEffect, IsInjected, Advances;
    FpFileLaw(host, i, k, a);
    InjectedValue(host, i, k, a, Effect(host, i, k, a).value);
  }

  /** FCLASS writes the one bit section 11.9 assigns to the class of rs1: b64 is its pattern for a
      double, b32 that of its low half for a single. */
  lemma ClassLaw(host: HostFloat, i: Inst, k: FpOp, a: Arch, b64: bv64, b32: bv32)
    requires i.op == Fp(k) && k.FCLASS?
    requires Value(b64) == a.f[i.rs1 as int] && Value32(b32) == a.f[i.rs1 as int] % TWO32
    ensures Execute(host, i, a).Running?
    ensures var cls := if k.fmt == D then Class64(b64) else Class32(b32);
      Computes(i, a, Execute(host, i, a).arch, ClassBit(cls) as int)
  {
    hide Execute, FpEffect, Computes, Class32, Class64, ClassBit, Value, Value32, Advances;
    FpFileLaw(host, i, k, a);
    ClassValue(host, i, k, a, b64, b32);
  }

  /** FMV.D.X and FMV.X.D copy the register; FMV.W.X replaces the low half of rd and keeps the upper
      one; FMV.X.W is the low half of rs1, sign-extended. */
  lemma MoveLaw(host: HostFloat, i: Inst, k: FpOp, a: Arch, v: u64)
    requires i.op == Fp(k) && (k.FMVX? || k.FMVF?)
    requires k == FMVX(D) ==> v == a.f[i.rs1 as int]
    requires k == FMVX(S) ==> v % TWO32 == a.f[i.rs1 as int] % TWO32 && -TWO31 <= Signed64(v) < TWO31
    requires k == FMVF(D) ==> v == a.x[i.rs1 as int]
    requires k == FMVF(S) ==> v / TWO32 == a.f[i.rd as int] / TWO32 && v % TWO32 == a.x[i.rs1 as int] % TWO32
    ensures Execute(host, i, a).Running?
    ensures var b := Execute(host, i, a).arch; if k.FMVX? then Computes(i, a, b, v) else ComputesFp(i, a, b, v)
  {
    hide Execute, FpEffect, Computes, ComputesFp, Advances, Signed64;
    FpFileLaw(host, i, k, a);
    var w := Effect(host, i, k, a).value;
    MoveValue(host, i, k, a, w);
    if k == FMVX(S) {
      SameWord(v, w);
    } else if k == FMVF(S) {
      SameHalves(v, w);
    } else {
      assert k.fmt == D;
    }
    hide Effect;
  }

  lemma SameHalves(v: u64, w: u64)
    requires v / TWO32 == w / TWO32 && v % TWO32 == w % TWO32
    ensures v == w
  {
  }

  /** A number in the signed 32-bit range is determined by its low word. */
  lemma SameWord(v: u64, w: u64)
    requires v % TWO32 == w % TWO32 && -TWO31 <= Signed64(v) < TWO31 && -TWO31 <= Signed64(w) < TWO31
    ensures v == w
  {
  }

  // ---- the instructions the host computes ----

  predicate OnHost(k: FpOp) { !Injects(k) && !k.FCLASS? && !k.FMVX? && !k.FMVF? }

  /** The number of floating-point sources. */
  function Arity(k: FpOp): nat {
    if k.FCVTF? then 0
    else if k.FSQRT? || k.FCVT? || k.FCVTX? then 1
    else if k.FMADD? || k.FMSUB? || k.FNMSUB? || k.FNMADD? then 3
    else 2
  }

  /** A source as the operation reads it: its low half if it is a single. The conversion between the
      two precisions reads the one it does not write. */
  function Given(k: FpOp, n: nat, x: u64): u64 {
    if Arity(k) < n then 0
    else if (if k.FCVT? then k.fmt == D else k.fmt == S) then x % TWO32
    else x
  }

  /** What the host answers: it is given the sources in order, each in its precision. */
  function Answer(host: HostFloat, k: FpOp, x1: u64, f1: u64, f2: u64, f3: u64): u64 {
    host(k, if k.FCVTF? then x1 else Given(k, 1, f1), Given(k, 2, f2), Given(k, 3, f3))
  }

  /** The answer goes whole to an integer or double destination, and to the low half of a single. */
  predicate Delivers(k: FpOp, v: u64, prior: u64, r: u64) {
    if ToInteger(k) || k.fmt == D then r == v else r / TWO32 == prior / TWO32 && r % TWO32 == v % TWO32
  }

  /** Every other instruction writes the host's answer, and nothing else. */
  lemma HostLaw(host: HostFloat, i: Inst, k: FpOp, a: Arch) returns (r: u64)
    requires i.op == Fp(k) && OnHost(k)
    ensures Execute(host, i, a).Running?
    ensures var b := Execute(host, i, a).arch; if ToInteger(k) then Computes(i, a, b, r) else ComputesFp(i, a, b, r)
    ensures var v := Answer(host, k, a.x[i.rs1 as int], a.f[i.rs1 as int], a.f[i.rs2 as int], a.f[i.rs3 as int]);
      Delivers(k, v, a.f[i.rd as int], r)
  {
    hide Execute, FpEffect, Computes, ComputesFp, Advances, ToInteger, OnHost, Answer, Delivers;
    FpFileLaw(host, i, k, a);
    r := Effect(host, i, k, a).value;
    HostValue(host, k, a.x[i.rs1 as int], a.f[i.rs1 as int], a.f[i.rs2 as int], a.f[i.rs3 as int], a.f[i.rd as int]);
  }

  lemma HostValue(host: HostFloat, k: FpOp, x1: u64, f1: u64, f2: u64, f3: u64, prior: u64)
    requires OnHost(k)
    ensures Delivers(k, Answer(host, k, x1, f1, f2, f3), prior, FpEffect(host, k, x1, f1, f2, f3, prior).value)
  {
    SetLowHalves(prior, Wrap32(Answer(host, k, x1, f1, f2, f3)));
    hide SetLow, SignInject, Classify, SextWord;
  }
}
