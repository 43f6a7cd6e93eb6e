/** The value of a 32-bit pattern read as an `int32_t`. A pattern is cut at a bit position p into a
    high and a low part; its value is then 2^p * high + low, and each mask condition on the pattern
    is a condition on one part, hence a range or a divisibility of the value. */
module BitPatterns {
  import opened Words
  import opened Alu

  lemma SignParts(imm: bv32) returns (s: bv1, r: bv31)
    ensures imm == ((s as bv32) << 31) | (r as bv32)
    ensures imm < 0x8000_0000 <==> s == 0
  {
    s, r := (imm >> 31) as bv1, (imm & 0x7fff_ffff) as bv31;
  }

  lemma SignJoin(imm: bv32, s: bv1, r: bv31) returns (s': int, r': int)
    requires imm == ((s as bv32) << 31) | (r as bv32)
    ensures Value32(imm) == 0x8000_0000 * s' + r' && 0 <= s' <= 1 && 0 <= r' < 0x8000_0000
    ensures s == 0 <==> s' == 0
  {
    s', r' := s as int, r as int;
  }

  lemma SimmSign(imm: bv32)
    ensures Simm(imm) == if imm < 0x8000_0000 then Value32(imm) else Value32(imm) - 0x1_0000_0000
  {
  }

  lemma SimmValue(imm: bv32)
    ensures Simm(imm) == if Value32(imm) < 0x8000_0000 then Value32(imm) else Value32(imm) - 0x1_0000_0000
    ensures 0 <= Value32(imm) < 0x1_0000_0000
  {
    hide Simm, Value32;
    var s, r := SignParts(imm);
    var s', r' := SignJoin(imm, s, r);
    SimmSign(imm);
  }

  // ---- cuts ----

  lemma Parts1(imm: bv32) returns (h: bv31, l: bv1)
    ensures imm == ((h as bv32) << 1) | (l as bv32)
  {
    h, l := (imm >> 1) as bv31, (imm & 0x1) as bv1;
  }

  lemma Join1(imm: bv32, h: bv31, l: bv1) returns (h': int, l': int)
    requires imm == ((h as bv32) << 1) | (l as bv32)
    ensures Value32(imm) == 0x2 * h' + l' && 0 <= h' <= 0x7fff_ffff && 0 <= l' < 0x2
    ensures (l == 0 <==> l' == 0) && (imm & 0x1 == 0 <==> l == 0)
  {
    h', l' := h as int, l as int;
  }

  lemma Multiple1(imm: bv32)
    ensures imm & 0x1 == 0 <==> Simm(imm) % 0x2 == 0
  {
    hide Simm, Value32;
    var h, l := Parts1(imm);
    var h', l' := Join1(imm, h, l);
    SimmValue(imm);
  }

  lemma Parts2(imm: bv32) returns (h: bv30, l: bv2)
    ensures imm == ((h as bv32) << 2) | (l as bv32)
  {
    h, l := (imm >> 2) as bv30, (imm & 0x3) as bv2;
  }

  lemma Join2(imm: bv32, h: bv30, l: bv2) returns (h': int, l': int)
    requires imm == ((h as bv32) << 2) | (l as bv32)
    ensures Value32(imm) == 0x4 * h' + l' && 0 <= h' <= 0x3fff_ffff && 0 <= l' < 0x4
    ensures (l == 0 <==> l' == 0) && (imm & 0x3 == 0 <==> l == 0)
  {
    h', l' := h as int, l as int;
  }

  lemma Multiple2(imm: bv32)
    ensures imm & 0x3 == 0 <==> Simm(imm) % 0x4 == 0
  {
    hide Simm, Value32;
    var h, l := Parts2(imm);
    var h', l' := Join2(imm, h, l);
    SimmValue(imm);
  }

  lemma Parts3(imm: bv32) returns (h: bv29, l: bv3)
    ensures imm == ((h as bv32) << 3) | (l as bv32)
  {
    h, l := (imm >> 3) as bv29, (imm & 0x7) as bv3;
  }

  lemma Join3(imm: bv32, h: bv29, l: bv3) returns (h': int, l': int)
    requires imm == ((h as bv32) << 3) | (l as bv32)
    ensures Value32(imm) == 0x8 * h' + l' && 0 <= h' <= 0x1fff_ffff && 0 <= l' < 0x8
    ensures (l == 0 <==> l' == 0) && (imm & 0x7 == 0 <==> l == 0)
  {
    h', l' := h as int, l as int;
  }

  lemma Multiple3(imm: bv32)
    ensures imm & 0x7 == 0 <==> Simm(imm) % 0x8 == 0
  {
    hide Simm, Value32;
    var h, l := Parts3(imm);
    var h', l' := Join3(imm, h, l);
    SimmValue(imm);
  }

  lemma Parts4(imm: bv32) returns (h: bv28, l: bv4)
    ensures imm == ((h as bv32) << 4) | (l as bv32)
  {
    h, l := (imm >> 4) as bv28, (imm & 0xf) as bv4;
  }

  lemma Join4(imm: bv32, h: bv28, l: bv4) returns (h': int, l': int)
    requires imm == ((h as bv32) << 4) | (l as bv32)
    ensures Value32(imm) == 0x10 * h' + l' && 0 <= h' <= 0xfff_ffff && 0 <= l' < 0x10
    ensures (l == 0 <==> l' == 0) && (imm & 0xf == 0 <==> l == 0)
  {
    h', l' := h as int, l as int;
  }

  lemma Multiple4(imm: bv32)
    ensures imm & 0xf == 0 <==> Simm(imm) % 0x10 == 0
  {
    hide Simm, Value32;
    var h, l := Parts4(imm);
    var h', l' := Join4(imm, h, l);
    SimmValue(imm);
  }

  lemma Parts5(imm: bv32) returns (h: bv27, l: bv5)
    ensures imm == ((h as bv32) << 5) | (l as bv32)
  {
    h, l := (imm >> 5) as bv27, (imm & 0x1f) as bv5;
  }

  lemma Join5(imm: bv32, h: bv27, l: bv5) returns (h': int, l': int)
    requires imm == ((h as bv32) << 5) | (l as bv32)
    ensures Value32(imm) == 0x20 * h' + l' && 0 <= h' <= 0x7ff_ffff && 0 <= l' < 0x20
    ensures (h == 0 <==> h' == 0) && (h == 0x7ff_ffff <==> h' == 0x7ff_ffff)
    ensures (imm & 0xffff_ffe0 == 0 <==> h == 0) && (imm & 0xffff_ffe0 == 0xffff_ffe0 <==> h == 0x7ff_ffff)
  {
    h', l' := h as int, l as int;
  }

  lemma Cut5(imm: bv32)
    ensures imm & 0xffff_ffe0 == 0 <==> 0 <= Simm(imm) < 0x20
    ensures imm & 0xffff_ffe0 == 0 || imm & 0xffff_ffe0 == 0xffff_ffe0 <==> -0x20 <= Simm(imm) < 0x20
  {
    hide Simm, Value32;
    var h, l := Parts5(imm);
    var h', l' := Join5(imm, h, l);
    SimmValue(imm);
  }

  lemma High5(imm: bv32, h: bv27, l: bv5) returns (h': int, l': int)
    requires imm == ((h as bv32) << 5) | (l as bv32)
    ensures Value32(imm) == 0x20 * h' + l' && 0 <= l' < 0x20
    ensures (imm & 0xffff_ffe0 == 0x400 <==> h == 0x20) && (h == 0x20 <==> h' == 0x20)
  {
    h', l' := h as int, l as int;
  }

  lemma Arithmetic5(imm: bv32)
    ensures imm & 0xffff_ffe0 == 0x400 <==> 0x400 <= Simm(imm) < 0x420
  {
    hide Simm, Value32;
    var h, l := Parts5(imm);
    var h', l' := High5(imm, h, l);
    SimmValue(imm);
  }

  lemma Parts6(imm: bv32) returns (h: bv26, l: bv6)
    ensures imm == ((h as bv32) << 6) | (l as bv32)
  {
    h, l := (imm >> 6) as bv26, (imm & 0x3f) as bv6;
  }

  lemma Join6(imm: bv32, h: bv26, l: bv6) returns (h': int, l': int)
    requires imm == ((h as bv32) << 6) | (l as bv32)
    ensures Value32(imm) == 0x40 * h' + l' && 0 <= h' <= 0x3ff_ffff && 0 <= l' < 0x40
    ensures (h == 0 <==> h' == 0) && (h == 0x3ff_ffff <==> h' == 0x3ff_ffff)
    ensures (imm & 0xffff_ffc0 == 0 <==> h == 0) && (imm & 0xffff_ffc0 == 0xffff_ffc0 <==> h == 0x3ff_ffff)
  {
    h', l' := h as int, l as int;
  }

  lemma Cut6(imm: bv32)
    ensures imm & 0xffff_ffc0 == 0 <==> 0 <= Simm(imm) < 0x40
    ensures imm & 0xffff_ffc0 == 0 || imm & 0xffff_ffc0 == 0xffff_ffc0 <==> -0x40 <= Simm(imm) < 0x40
  {
    hide Simm, Value32;
    var h, l := Parts6(imm);
    var h', l' := Join6(imm, h, l);
    SimmValue(imm);
  }

  lemma High6(imm: bv32, h: bv26, l: bv6) returns (h': int, l': int)
    requires imm == ((h as bv32) << 6) | (l as bv32)
    ensures Value32(imm) == 0x40 * h' + l' && 0 <= l' < 0x40
    ensures (imm & 0xffff_ffc0 == 0x400 <==> h == 0x10) && (h == 0x10 <==> h' == 0x10)
  {
    h', l' := h as int, l as int;
  }

  lemma Arithmetic6(imm: bv32)
    ensures imm & 0xffff_ffc0 == 0x400 <==> 0x400 <= Simm(imm) < 0x440
  {
    hide Simm, Value32;
    var h, l := Parts6(imm);
    var h', l' := High6(imm, h, l);
    SimmValue(imm);
  }

  lemma Parts7(imm: bv32) returns (h: bv25, l: bv7)
    ensures imm == ((h as bv32) << 7) | (l as bv32)
  {
    h, l := (imm >> 7) as bv25, (imm & 0x7f) as bv7;
  }

  lemma Join7(imm: bv32, h: bv25, l: bv7) returns (h': int, l': int)
    requires imm == ((h as bv32) << 7) | (l as bv32)
    ensures Value32(imm) == 0x80 * h' + l' && 0 <= h' <= 0x1ff_ffff && 0 <= l' < 0x80
    ensures (h == 0 <==> h' == 0) && (h == 0x1ff_ffff <==> h' == 0x1ff_ffff)
    ensures (imm & 0xffff_ff80 == 0 <==> h == 0) && (imm & 0xffff_ff80 == 0xffff_ff80 <==> h == 0x1ff_ffff)
  {
    h', l' := h as int, l as int;
  }

  lemma Cut7(imm: bv32)
    ensures imm & 0xffff_ff80 == 0 <==> 0 <= Simm(imm) < 0x80
    ensures imm & 0xffff_ff80 == 0 || imm & 0xffff_ff80 == 0xffff_ff80 <==> -0x80 <= Simm(imm) < 0x80
  {
    hide Simm, Value32;
    var h, l := Parts7(imm);
    var h', l' := Join7(imm, h, l);
    SimmValue(imm);
  }

  lemma Parts8(imm: bv32) returns (h: bv24, l: bv8)
    ensures imm == ((h as bv32) << 8) | (l as bv32)
  {
    h, l := (imm >> 8) as bv24, (imm & 0xff) as bv8;
  }

  lemma Join8(imm: bv32, h: bv24, l: bv8) returns (h': int, l': int)
    requires imm == ((h as bv32) << 8) | (l as bv32)
    ensures Value32(imm) == 0x100 * h' + l' && 0 <= h' <= 0xff_ffff && 0 <= l' < 0x100
    ensures (h == 0 <==> h' == 0) && (h == 0xff_ffff <==> h' == 0xff_ffff)
    ensures (imm & 0xffff_ff00 == 0 <==> h == 0) && (imm & 0xffff_ff00 == 0xffff_ff00 <==> h == 0xff_ffff)
  {
    h', l' := h as int, l as int;
  }

  lemma Cut8(imm: bv32)
    ensures imm & 0xffff_ff00 == 0 <==> 0 <= Simm(imm) < 0x100
    ensures imm & 0xffff_ff00 == 0 || imm & 0xffff_ff00 == 0xffff_ff00 <==> -0x100 <= Simm(imm) < 0x100
  {
    hide Simm, Value32;
    var h, l := Parts8(imm);
    var h', l' := Join8(imm, h, l);
    SimmValue(imm);
  }

  lemma Parts9(imm: bv32) returns (h: bv23, l: bv9)
    ensures imm == ((h as bv32) << 9) | (l as bv32)
  {
    h, l := (imm >> 9) as bv23, (imm & 0x1ff) as bv9;
  }

  lemma Join9(imm: bv32, h: bv23, l: bv9) returns (h': int, l': int)
    requires imm == ((h as bv32) << 9) | (l as bv32)
    ensures Value32(imm) == 0x200 * h' + l' && 0 <= h' <= 0x7f_ffff && 0 <= l' < 0x200
    ensures (h == 0 <==> h' == 0) && (h == 0x7f_ffff <==> h' == 0x7f_ffff)
    ensures (imm & 0xffff_fe00 == 0 <==> h == 0) && (imm & 0xffff_fe00 == 0xffff_fe00 <==> h == 0x7f_ffff)
  {
    h', l' := h as int, l as int;
  }

  lemma Cut9(imm: bv32)
    ensures imm & 0xffff_fe00 == 0 <==> 0 <= Simm(imm) < 0x200
    ensures imm & 0xffff_fe00 == 0 || imm & 0xffff_fe00 == 0xffff_fe00 <==> -0x200 <= Simm(imm) < 0x200
  {
    hide Simm, Value32;
    var h, l := Parts9(imm);
    var h', l' := Join9(imm, h, l);
    SimmValue(imm);
  }

  lemma Parts10(imm: bv32) returns (h: bv22, l: bv10)
    ensures imm == ((h as bv32) << 10) | (l as bv32)
  {
    h, l := (imm >> 10) as bv22, (imm & 0x3ff) as bv10;
  }

  lemma Join10(imm: bv32, h: bv22, l: bv10) returns (h': int, l': int)
    requires imm == ((h as bv32) << 10) | (l as bv32)
    ensures Value32(imm) == 0x400 * h' + l' && 0 <= h' <= 0x3f_ffff && 0 <= l' < 0x400
    ensures (h == 0 <==> h' == 0) && (h == 0x3f_ffff <==> h' == 0x3f_ffff)
    ensures (imm & 0xffff_fc00 == 0 <==> h == 0) && (imm & 0xffff_fc00 == 0xffff_fc00 <==> h == 0x3f_ffff)
  {
    h', l' := h as int, l as int;
  }

  lemma Cut10(imm: bv32)
    ensures imm & 0xffff_fc00 == 0 <==> 0 <= Simm(imm) < 0x400
    ensures imm & 0xffff_fc00 == 0 || imm & 0xffff_fc00 == 0xffff_fc00 <==> -0x400 <= Simm(imm) < 0x400
  {
    hide Simm, Value32;
    var h, l := Parts10(imm);
    var h', l' := Join10(imm, h, l);
    SimmValue(imm);
  }

  lemma Parts11(imm: bv32) returns (h: bv21, l: bv11)
    ensures imm == ((h as bv32) << 11) | (l as bv32)
  {
    h, l := (imm >> 11) as bv21, (imm & 0x7ff) as bv11;
  }

  lemma Join11(imm: bv32, h: bv21, l: bv11) returns (h': int, l': int)
    requires imm == ((h as bv32) << 11) | (l as bv32)
    ensures Value32(imm) == 0x800 * h' + l' && 0 <= h' <= 0x1f_ffff && 0 <= l' < 0x800
    ensures (h == 0 <==> h' == 0) && (h == 0x1f_ffff <==> h' == 0x1f_ffff)
    ensures (imm & 0xffff_f800 == 0 <==> h == 0) && (imm & 0xffff_f800 == 0xffff_f800 <==> h == 0x1f_ffff)
  {
    h', l' := h as int, l as int;
  }

  lemma Cut11(imm: bv32)
    ensures imm & 0xffff_f800 == 0 <==> 0 <= Simm(imm) < 0x800
    ensures imm & 0xffff_f800 == 0 || imm & 0xffff_f800 == 0xffff_f800 <==> -0x800 <= Simm(imm) < 0x800
  {
    hide Simm, Value32;
    var h, l := Parts11(imm);
    var h', l' := Join11(imm, h, l);
    SimmValue(imm);
  }

  lemma Parts12(imm: bv32) returns (h: bv20, l: bv12)
    ensures imm == ((h as bv32) << 12) | (l as bv32)
  {
    h, l := (imm >> 12) as bv20, (imm & 0xfff) as bv12;
  }

  lemma Join12(imm: bv32, h: bv20, l: bv12) returns (h': int, l': int)
    requires imm == ((h as bv32) << 12) | (l as bv32)
    ensures Value32(imm) == 0x1000 * h' + l' && 0 <= h' <= 0xf_ffff && 0 <= l' < 0x1000
    ensures (h == 0 <==> h' == 0) && (h == 0xf_ffff <==> h' == 0xf_ffff)
    ensures (imm & 0xffff_f000 == 0 <==> h == 0) && (imm & 0xffff_f000 == 0xffff_f000 <==> h == 0xf_ffff)
    ensures (l == 0 <==> l' == 0) && (imm & 0xfff == 0 <==> l == 0)
  {
    h', l' := h as int, l as int;
  }

  lemma Cut12(imm: bv32)
    ensures imm & 0xffff_f000 == 0 <==> 0 <= Simm(imm) < 0x1000
    ensures imm & 0xffff_f000 == 0 || imm & 0xffff_f000 == 0xffff_f000 <==> -0x1000 <= Simm(imm) < 0x1000
  {
    hide Simm, Value32;
    var h, l := Parts12(imm);
    var h', l' := Join12(imm, h, l);
    SimmValue(imm);
  }

  lemma Multiple12(imm: bv32)
    ensures imm & 0xfff == 0 <==> Simm(imm) % 0x1000 == 0
  {
    hide Simm, Value32;
    var h, l := Parts12(imm);
    var h', l' := Join12(imm, h, l);
    SimmValue(imm);
  }

  lemma Parts17(imm: bv32) returns (h: bv15, l: bv17)
    ensures imm == ((h as bv32) << 17) | (l as bv32)
  {
    h, l := (imm >> 17) as bv15, (imm & 0x1_ffff) as bv17;
  }

  lemma Join17(imm: bv32, h: bv15, l: bv17) returns (h': int, l': int)
    requires imm == ((h as bv32) << 17) | (l as bv32)
    ensures Value32(imm) == 0x2_0000 * h' + l' && 0 <= h' <= 0x7fff && 0 <= l' < 0x2_0000
    ensures (h == 0 <==> h' == 0) && (h == 0x7fff <==> h' == 0x7fff)
    ensures (imm & 0xfffe_0000 == 0 <==> h == 0) && (imm & 0xfffe_0000 == 0xfffe_0000 <==> h == 0x7fff)
  {
    h', l' := h as int, l as int;
  }

  lemma Cut17(imm: bv32)
    ensures imm & 0xfffe_0000 == 0 <==> 0 <= Simm(imm) < 0x2_0000
    ensures imm & 0xfffe_0000 == 0 || imm & 0xfffe_0000 == 0xfffe_0000 <==> -0x2_0000 <= Simm(imm) < 0x2_0000
  {
    hide Simm, Value32;
    var h, l := Parts17(imm);
    var h', l' := Join17(imm, h, l);
    SimmValue(imm);
  }

  lemma Parts20(imm: bv32) returns (h: bv12, l: bv20)
    ensures imm == ((h as bv32) << 20) | (l as bv32)
  {
    h, l := (imm >> 20) as bv12, (imm & 0xf_ffff) as bv20;
  }

  lemma Join20(imm: bv32, h: bv12, l: bv20) returns (h': int, l': int)
    requires imm == ((h as bv32) << 20) | (l as bv32)
    ensures Value32(imm) == 0x10_0000 * h' + l' && 0 <= h' <= 0xfff && 0 <= l' < 0x10_0000
    ensures (h == 0 <==> h' == 0) && (h == 0xfff <==> h' == 0xfff)
    ensures (imm & 0xfff0_0000 == 0 <==> h == 0) && (imm & 0xfff0_0000 == 0xfff0_0000 <==> h == 0xfff)
  {
    h', l' := h as int, l as int;
  }

  lemma Cut20(imm: bv32)
    ensures imm & 0xfff0_0000 == 0 <==> 0 <= Simm(imm) < 0x10_0000
    ensures imm & 0xfff0_0000 == 0 || imm & 0xfff0_0000 == 0xfff0_0000 <==> -0x10_0000 <= Simm(imm) < 0x10_0000
  {
    hide Simm, Value32;
    var h, l := Parts20(imm);
    var h', l' := Join20(imm, h, l);
    SimmValue(imm);
  }
}
