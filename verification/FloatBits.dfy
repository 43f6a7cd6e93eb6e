/** Sign injection and classification of floating-point bit patterns (src/interp_util.h), against
    the class table of section 11.9 of the RISC-V Unprivileged ISA, version 20191213. */
module FloatBits {

  // ---- sign injection ----

  function Fsgnj32(a: bv32, b: bv32, n: bool, x: bool): bv32 {
    var v := if x then a else if n then 0x8000_0000 else 0;
    Mix32(v, a, b)
  }

  /** The magnitude of a with the sign of v ^ b. */
  function Mix32(v: bv32, a: bv32, b: bv32): bv32 { (a & 0x7fff_ffff) | ((v ^ b) & 0x8000_0000) }

  function Fsgnj64(a: bv64, b: bv64, n: bool, x: bool): bv64 {
    var v := if x then a else if n then 0x8000_0000_0000_0000 else 0;
    Mix64(v, a, b)
  }

  function Mix64(v: bv64, a: bv64, b: bv64): bv64 {
    (a & 0x7fff_ffff_ffff_ffff) | ((v ^ b) & 0x8000_0000_0000_0000)
  }

  // ---- the classifiers, as the C code computes them ----

  function Bit(c: bool, k: bv16): bv16 { if c then k else 0 }

  /** The common tail of `f32_classify` and `f64_classify`. */
  function ClassMask(sign: bool, infOrNaN: bool, subnormalOrZero: bool, fracZero: bool, isNaN: bool, isSNaN: bool): bv16 {
    Bit(sign && infOrNaN && fracZero, 0x1)
    | Bit(sign && !infOrNaN && !subnormalOrZero, 0x2)
    | Bit(sign && subnormalOrZero && !fracZero, 0x4)
    | Bit(sign && subnormalOrZero && fracZero, 0x8)
    | Bit(!sign && infOrNaN && fracZero, 0x80)
    | Bit(!sign && !infOrNaN && !subnormalOrZero, 0x40)
    | Bit(!sign && subnormalOrZero && !fracZero, 0x20)
    | Bit(!sign && subnormalOrZero && fracZero, 0x10)
    | Bit(isNaN && isSNaN, 0x100)
    | Bit(isNaN && !isSNaN, 0x200)
  }

  function Classify32(a: bv32): bv16 {
    var exp := (a >> 23) & 0xff;
    ClassMask(
      a >> 31 != 0,
      exp == 0xff,
      exp == 0,
      a & 0x007f_ffff == 0,
      !a & 0x7f80_0000 == 0 && a & 0x007f_ffff != 0,
      a & 0x7fc0_0000 == 0x7f80_0000 && a & 0x003f_ffff != 0)
  }

  function Classify64(a: bv64): bv16 {
    var exp := (a >> 52) & 0x7ff;
    ClassMask(
      a >> 63 != 0,
      exp == 0x7ff,
      exp == 0,
      a & 0x000f_ffff_ffff_ffff == 0,
      !a & 0x7ff0_0000_0000_0000 == 0 && a & 0x000f_ffff_ffff_ffff != 0,
      a & 0x7ff8_0000_0000_0000 == 0x7ff0_0000_0000_0000 && a & 0x0007_ffff_ffff_ffff != 0)
  }

  // ---- the standard's classes ----

  datatype Class =
    | NegInf | NegNormal | NegSubnormal | NegZero
    | PosZero | PosSubnormal | PosNormal | PosInf
    | SignalingNaN | QuietNaN

  /** The class of a number given as sign, exponent field, and fraction; a NaN is quiet when the
      most significant fraction bit is set. */
  function ClassOf(negative: bool, expZero: bool, expOnes: bool, fracZero: bool, quietBit: bool): Class {
    if expOnes then
      if !fracZero then (if quietBit then QuietNaN else SignalingNaN)
      else if negative then NegInf else PosInf
    else if expZero then
      if fracZero then (if negative then NegZero else PosZero)
      else (if negative then NegSubnormal else PosSubnormal)
    else if negative then NegNormal else PosNormal
  }

  function Class32(a: bv32): Class {
    ClassOf(a & 0x8000_0000 != 0, a & 0x7f80_0000 == 0, a & 0x7f80_0000 == 0x7f80_0000,
            a & 0x007f_ffff == 0, a & 0x0040_0000 != 0)
  }

  function Class64(a: bv64): Class {
    ClassOf(a & 0x8000_0000_0000_0000 != 0, a & 0x7ff0_0000_0000_0000 == 0,
            a & 0x7ff0_0000_0000_0000 == 0x7ff0_0000_0000_0000,
            a & 0x000f_ffff_ffff_ffff == 0, a & 0x0008_0000_0000_0000 != 0)
  }

  /** The bit of the class mask assigned to each class. */
  function ClassBit(c: Class): bv16 {
    match c
    case NegInf => 0x1
    case NegNormal => 0x2
    case NegSubnormal => 0x4
    case NegZero => 0x8
    case PosZero => 0x10
    case PosSubnormal => 0x20
    case PosNormal => 0x40
    case PosInf => 0x80
    case SignalingNaN => 0x100
    case QuietNaN => 0x200
  }

  /** The class after flipping the sign: both NaN classes stay. */
  function Mirror(c: Class): Class {
    match c
    case NegInf => PosInf
    case NegNormal => PosNormal
    case NegSubnormal => PosSubnormal
    case NegZero => PosZero
    case PosZero => NegZero
    case PosSubnormal => NegSubnormal
    case PosNormal => NegNormal
    case PosInf => NegInf
    case SignalingNaN => SignalingNaN
    case QuietNaN => QuietNaN
  }

  lemma MaskIsClass(sign: bool, inf: bool, sub: bool, fracZero: bool, isNaN: bool, isSNaN: bool, quietBit: bool)
    requires !(inf && sub)
    requires isNaN <==> inf && !fracZero
    requires isSNaN <==> inf && !quietBit && !fracZero
    ensures ClassMask(sign, inf, sub, fracZero, isNaN, isSNaN) == ClassBit(ClassOf(sign, sub, inf, fracZero, quietBit))
  {
  }

  /** Every 32-bit pattern gets exactly the one bit its class prescribes. */
  lemma Classify32Exact(a: bv32)
    ensures Classify32(a) == ClassBit(Class32(a))
  {
    Fields32(a);
    MaskIsClass(a >> 31 != 0, (a >> 23) & 0xff == 0xff, (a >> 23) & 0xff == 0, a & 0x007f_ffff == 0,
                !a & 0x7f80_0000 == 0 && a & 0x007f_ffff != 0,
                a & 0x7fc0_0000 == 0x7f80_0000 && a & 0x003f_ffff != 0, a & 0x0040_0000 != 0);
    hide ClassMask, ClassOf, ClassBit;
  }

  lemma Fields32(a: bv32)
    ensures a >> 31 != 0 <==> a & 0x8000_0000 != 0
    ensures (a >> 23) & 0xff == 0xff <==> a & 0x7f80_0000 == 0x7f80_0000
    ensures (a >> 23) & 0xff == 0 <==> a & 0x7f80_0000 == 0
    ensures !a & 0x7f80_0000 == 0 <==> a & 0x7f80_0000 == 0x7f80_0000
    ensures (a & 0x7fc0_0000 == 0x7f80_0000 && a & 0x003f_ffff != 0)
       <==> (a & 0x7f80_0000 == 0x7f80_0000 && a & 0x0040_0000 == 0 && a & 0x007f_ffff != 0)
  {
  }

  /** The same for 64-bit patterns. */
  lemma Classify64Exact(a: bv64)
    ensures Classify64(a) == ClassBit(Class64(a))
  {
    Fields64(a);
    MaskIsClass(a >> 63 != 0, (a >> 52) & 0x7ff == 0x7ff, (a >> 52) & 0x7ff == 0, a & 0x000f_ffff_ffff_ffff == 0,
                !a & 0x7ff0_0000_0000_0000 == 0 && a & 0x000f_ffff_ffff_ffff != 0,
                a & 0x7ff8_0000_0000_0000 == 0x7ff0_0000_0000_0000 && a & 0x0007_ffff_ffff_ffff != 0,
                a & 0x0008_0000_0000_0000 != 0);
    hide ClassMask, ClassOf, ClassBit;
  }

  lemma Fields64(a: bv64)
    ensures a >> 63 != 0 <==> a & 0x8000_0000_0000_0000 != 0
    ensures (a >> 52) & 0x7ff == 0x7ff <==> a & 0x7ff0_0000_0000_0000 == 0x7ff0_0000_0000_0000
    ensures (a >> 52) & 0x7ff == 0 <==> a & 0x7ff0_0000_0000_0000 == 0
    ensures !a & 0x7ff0_0000_0000_0000 == 0 <==> a & 0x7ff0_0000_0000_0000 == 0x7ff0_0000_0000_0000
    ensures (a & 0x7ff8_0000_0000_0000 == 0x7ff0_0000_0000_0000 && a & 0x0007_ffff_ffff_ffff != 0)
       <==> (a & 0x7ff0_0000_0000_0000 == 0x7ff0_0000_0000_0000 && a & 0x0008_0000_0000_0000 == 0
             && a & 0x000f_ffff_ffff_ffff != 0)
  {
  }

  lemma FlipSign(negative: bool, expZero: bool, expOnes: bool, fracZero: bool, quietBit: bool)
    ensures ClassOf(!negative, expZero, expOnes, fracZero, quietBit)
         == Mirror(ClassOf(negative, expZero, expOnes, fracZero, quietBit))
  {
  }

  /** What the sign bit of a result must be, for the three injections. */
  predicate InjectedSign(aNeg: bool, bNeg: bool, n: bool, x: bool) {
    if x then aNeg != bNeg else if n then !bNeg else bNeg
  }

  lemma FlippedFields32(a: bv32)
    ensures var r := a ^ 0x8000_0000;
      && (r & 0x8000_0000 != 0 <==> a & 0x8000_0000 == 0)
      && r & 0x7f80_0000 == a & 0x7f80_0000 && r & 0x007f_ffff == a & 0x007f_ffff && r & 0x0040_0000 == a & 0x0040_0000
  {
  }

  /** Flipping the sign bit moves the class to its mirror. */
  lemma MirrorClass32(a: bv32)
    ensures Class32(a ^ 0x8000_0000) == Mirror(Class32(a))
  {
    FlippedFields32(a);
    FlipSign(a & 0x8000_0000 != 0, a & 0x7f80_0000 == 0, a & 0x7f80_0000 == 0x7f80_0000, a & 0x007f_ffff == 0, a & 0x0040_0000 != 0);
    hide ClassOf, Mirror;
  }

  /** A pattern is its magnitude and its sign bit. */
  lemma Parts32(a: bv32)
    ensures a == (a & 0x7fff_ffff) | (a & 0x8000_0000)
    ensures a ^ 0x8000_0000 == (a & 0x7fff_ffff) | ((a & 0x8000_0000) ^ 0x8000_0000)
  {
  }

  lemma SignValues32(a: bv32)
    ensures a & 0x8000_0000 == 0 || a & 0x8000_0000 == 0x8000_0000
  {
  }

  lemma Combine32(ma: bv32, sa: bv32, mr: bv32, sr: bv32)
    requires mr == ma && (sa == 0 || sa == 0x8000_0000) && (sr == 0 || sr == 0x8000_0000)
    ensures sr == sa ==> mr | sr == ma | sa
    ensures sr != sa ==> mr | sr == ma | (sa ^ 0x8000_0000)
  {
  }

  lemma Sign32(a: bv32, b: bv32, n: bool, x: bool)
    ensures Fsgnj32(a, b, n, x) & 0x7fff_ffff == a & 0x7fff_ffff
    ensures Fsgnj32(a, b, n, x) & 0x8000_0000 != 0 <==> InjectedSign(a & 0x8000_0000 != 0, b & 0x8000_0000 != 0, n, x)
  {
  }

  /** Sign injection changes at most the sign bit, and sets it as prescribed. */
  lemma Inject32(a: bv32, b: bv32, n: bool, x: bool)
    ensures Fsgnj32(a, b, n, x) ==
      if InjectedSign(a & 0x8000_0000 != 0, b & 0x8000_0000 != 0, n, x) == (a & 0x8000_0000 != 0) then a else a ^ 0x8000_0000
  {
    hide Fsgnj32, InjectedSign;
    var r := Fsgnj32(a, b, n, x);
    Sign32(a, b, n, x);
    Parts32(a);
    Parts32(r);
    SignValues32(a);
    SignValues32(r);
    Combine32(a & 0x7fff_ffff, a & 0x8000_0000, r & 0x7fff_ffff, r & 0x8000_0000);
  }

  /** So it keeps the class or moves it to its mirror, and never changes a NaN class. */
  lemma InjectedClass32(a: bv32, b: bv32, n: bool, x: bool)
    ensures Class32(Fsgnj32(a, b, n, x)) ==
      if InjectedSign(a & 0x8000_0000 != 0, b & 0x8000_0000 != 0, n, x) == (a & 0x8000_0000 != 0) then Class32(a) else Mirror(Class32(a))
  {
    Inject32(a, b, n, x);
    MirrorClass32(a);
    hide Fsgnj32, Class32, Mirror, InjectedSign;
  }

  lemma FlippedFields64(a: bv64)
    ensures var r := a ^ 0x8000_0000_0000_0000;
      && (r & 0x8000_0000_0000_0000 != 0 <==> a & 0x8000_0000_0000_0000 == 0)
      && r & 0x7ff0_0000_0000_0000 == a & 0x7ff0_0000_0000_0000 && r & 0x000f_ffff_ffff_ffff == a & 0x000f_ffff_ffff_ffff && r & 0x0008_0000_0000_0000 == a & 0x0008_0000_0000_0000
  {
  }

  /** Flipping the sign bit moves the class to its mirror. */
  lemma MirrorClass64(a: bv64)
    ensures Class64(a ^ 0x8000_0000_0000_0000) == Mirror(Class64(a))
  {
    FlippedFields64(a);
    FlipSign(a & 0x8000_0000_0000_0000 != 0, a & 0x7ff0_0000_0000_0000 == 0, a & 0x7ff0_0000_0000_0000 == 0x7ff0_0000_0000_0000, a & 0x000f_ffff_ffff_ffff == 0, a & 0x0008_0000_0000_0000 != 0);
    hide ClassOf, Mirror;
  }

  /** A pattern is its magnitude and its sign bit. */
  lemma Parts64(a: bv64)
    ensures a == (a & 0x7fff_ffff_ffff_ffff) | (a & 0x8000_0000_0000_0000)
    ensures a ^ 0x8000_0000_0000_0000 == (a & 0x7fff_ffff_ffff_ffff) | ((a & 0x8000_0000_0000_0000) ^ 0x8000_0000_0000_0000)
  {
  }

  lemma SignValues64(a: bv64)
    ensures a & 0x8000_0000_0000_0000 == 0 || a & 0x8000_0000_0000_0000 == 0x8000_0000_0000_0000
  {
  }

  lemma Combine64(ma: bv64, sa: bv64, mr: bv64, sr: bv64)
    requires mr == ma && (sa == 0 || sa == 0x8000_0000_0000_0000) && (sr == 0 || sr == 0x8000_0000_0000_0000)
    ensures sr == sa ==> mr | sr == ma | sa
    ensures sr != sa ==> mr | sr == ma | (sa ^ 0x8000_0000_0000_0000)
  {
  }

  lemma Sign64(a: bv64, b: bv64, n: bool, x: bool)
    ensures Fsgnj64(a, b, n, x) & 0x7fff_ffff_ffff_ffff == a & 0x7fff_ffff_ffff_ffff
    ensures Fsgnj64(a, b, n, x) & 0x8000_0000_0000_0000 != 0 <==> InjectedSign(a & 0x8000_0000_0000_0000 != 0, b & 0x8000_0000_0000_0000 != 0, n, x)
  {
  }

  /** Sign injection changes at most the sign bit, and sets it as prescribed. */
  lemma Inject64(a: bv64, b: bv64, n: bool, x: bool)
    ensures Fsgnj64(a, b, n, x) ==
      if InjectedSign(a & 0x8000_0000_0000_0000 != 0, b & 0x8000_0000_0000_0000 != 0, n, x) == (a & 0x8000_0000_0000_0000 != 0) then a else a ^ 0x8000_0000_0000_0000
  {
    hide Fsgnj64, InjectedSign;
    var r := Fsgnj64(a, b, n, x);
    Sign64(a, b, n, x);
    Parts64(a);
    Parts64(r);
    SignValues64(a);
    SignValues64(r);
    Combine64(a & 0x7fff_ffff_ffff_ffff, a & 0x8000_0000_0000_0000, r & 0x7fff_ffff_ffff_ffff, r & 0x8000_0000_0000_0000);
  }

  /** So it keeps the class or moves it to its mirror, and never changes a NaN class. */
  lemma InjectedClass64(a: bv64, b: bv64, n: bool, x: bool)
    ensures Class64(Fsgnj64(a, b, n, x)) ==
      if InjectedSign(a & 0x8000_0000_0000_0000 != 0, b & 0x8000_0000_0000_0000 != 0, n, x) == (a & 0x8000_0000_0000_0000 != 0) then Class64(a) else Mirror(Class64(a))
  {
    Inject64(a, b, n, x);
    MirrorClass64(a);
    hide Fsgnj64, Class64, Mirror, InjectedSign;
  }

}
