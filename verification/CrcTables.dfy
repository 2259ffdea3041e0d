/**
 The two lookup tables of `crc16`, and the proof that entry `i` of them together is the
 register that eight shifts make of `i`.
 */
module CrcTables {

  type Byte = x: bv16 | x <= 0xFF

  /** One shift of the register, with the reflected polynomial. */
  function Step(x: bv16): bv16 {
    if x & 1 == 1 then (x >> 1) ^ 0xA001 else x >> 1
  }

  function Step8(x: bv16): bv16 {
    Step(Step(Step(Step(Step(Step(Step(Step(x))))))))
  }

  // ---- The tables, eight entries a row ----

  const HI_00: seq<Byte> := [0x00, 0xC1, 0x81, 0x40, 0x01, 0xC0, 0x80, 0x41]
  const HI_08: seq<Byte> := [0x01, 0xC0, 0x80, 0x41, 0x00, 0xC1, 0x81, 0x40]
  const HI_10: seq<Byte> := [0x01, 0xC0, 0x80, 0x41, 0x00, 0xC1, 0x81, 0x40]
  const HI_18: seq<Byte> := [0x00, 0xC1, 0x81, 0x40, 0x01, 0xC0, 0x80, 0x41]
  const HI_20: seq<Byte> := [0x01, 0xC0, 0x80, 0x41, 0x00, 0xC1, 0x81, 0x40]
  const HI_28: seq<Byte> := [0x00, 0xC1, 0x81, 0x40, 0x01, 0xC0, 0x80, 0x41]
  const HI_30: seq<Byte> := [0x00, 0xC1, 0x81, 0x40, 0x01, 0xC0, 0x80, 0x41]
  const HI_38: seq<Byte> := [0x01, 0xC0, 0x80, 0x41, 0x00, 0xC1, 0x81, 0x40]
  const HI_40: seq<Byte> := [0x01, 0xC0, 0x80, 0x41, 0x00, 0xC1, 0x81, 0x40]
  const HI_48: seq<Byte> := [0x00, 0xC1, 0x81, 0x40, 0x01, 0xC0, 0x80, 0x41]
  const HI_50: seq<Byte> := [0x00, 0xC1, 0x81, 0x40, 0x01, 0xC0, 0x80, 0x41]
  const HI_58: seq<Byte> := [0x01, 0xC0, 0x80, 0x41, 0x00, 0xC1, 0x81, 0x40]
  const HI_60: seq<Byte> := [0x00, 0xC1, 0x81, 0x40, 0x01, 0xC0, 0x80, 0x41]
  const HI_68: seq<Byte> := [0x01, 0xC0, 0x80, 0x41, 0x00, 0xC1, 0x81, 0x40]
  const HI_70: seq<Byte> := [0x01, 0xC0, 0x80, 0x41, 0x00, 0xC1, 0x81, 0x40]
  const HI_78: seq<Byte> := [0x00, 0xC1, 0x81, 0x40, 0x01, 0xC0, 0x80, 0x41]
  const HI_80: seq<Byte> := [0x01, 0xC0, 0x80, 0x41, 0x00, 0xC1, 0x81, 0x40]
  const HI_88: seq<Byte> := [0x00, 0xC1, 0x81, 0x40, 0x01, 0xC0, 0x80, 0x41]
  const HI_90: seq<Byte> := [0x00, 0xC1, 0x81, 0x40, 0x01, 0xC0, 0x80, 0x41]
  const HI_98: seq<Byte> := [0x01, 0xC0, 0x80, 0x41, 0x00, 0xC1, 0x81, 0x40]
  const HI_A0: seq<Byte> := [0x00, 0xC1, 0x81, 0x40, 0x01, 0xC0, 0x80, 0x41]
  const HI_A8: seq<Byte> := [0x01, 0xC0, 0x80, 0x41, 0x00, 0xC1, 0x81, 0x40]
  const HI_B0: seq<Byte> := [0x01, 0xC0, 0x80, 0x41, 0x00, 0xC1, 0x81, 0x40]
  const HI_B8: seq<Byte> := [0x00, 0xC1, 0x81, 0x40, 0x01, 0xC0, 0x80, 0x41]
  const HI_C0: seq<Byte> := [0x00, 0xC1, 0x81, 0x40, 0x01, 0xC0, 0x80, 0x41]
  const HI_C8: seq<Byte> := [0x01, 0xC0, 0x80, 0x41, 0x00, 0xC1, 0x81, 0x40]
  const HI_D0: seq<Byte> := [0x01, 0xC0, 0x80, 0x41, 0x00, 0xC1, 0x81, 0x40]
  const HI_D8: seq<Byte> := [0x00, 0xC1, 0x81, 0x40, 0x01, 0xC0, 0x80, 0x41]
  const HI_E0: seq<Byte> := [0x01, 0xC0, 0x80, 0x41, 0x00, 0xC1, 0x81, 0x40]
  const HI_E8: seq<Byte> := [0x00, 0xC1, 0x81, 0x40, 0x01, 0xC0, 0x80, 0x41]
  const HI_F0: seq<Byte> := [0x00, 0xC1, 0x81, 0x40, 0x01, 0xC0, 0x80, 0x41]
  const HI_F8: seq<Byte> := [0x01, 0xC0, 0x80, 0x41, 0x00, 0xC1, 0x81, 0x40]
  const HI_0: seq<Byte> := HI_00 + HI_08 + HI_10 + HI_18
    + HI_20 + HI_28 + HI_30 + HI_38
  const HI_1: seq<Byte> := HI_40 + HI_48 + HI_50 + HI_58
    + HI_60 + HI_68 + HI_70 + HI_78
  const HI_2: seq<Byte> := HI_80 + HI_88 + HI_90 + HI_98
    + HI_A0 + HI_A8 + HI_B0 + HI_B8
  const HI_3: seq<Byte> := HI_C0 + HI_C8 + HI_D0 + HI_D8
    + HI_E0 + HI_E8 + HI_F0 + HI_F8
  const HI: seq<Byte> := HI_0 + HI_1 + HI_2 + HI_3

  const LO_00: seq<Byte> := [0x00, 0xC0, 0xC1, 0x01, 0xC3, 0x03, 0x02, 0xC2]
  const LO_08: seq<Byte> := [0xC6, 0x06, 0x07, 0xC7, 0x05, 0xC5, 0xC4, 0x04]
  const LO_10: seq<Byte> := [0xCC, 0x0C, 0x0D, 0xCD, 0x0F, 0xCF, 0xCE, 0x0E]
  const LO_18: seq<Byte> := [0x0A, 0xCA, 0xCB, 0x0B, 0xC9, 0x09, 0x08, 0xC8]
  const LO_20: seq<Byte> := [0xD8, 0x18, 0x19, 0xD9, 0x1B, 0xDB, 0xDA, 0x1A]
  const LO_28: seq<Byte> := [0x1E, 0xDE, 0xDF, 0x1F, 0xDD, 0x1D, 0x1C, 0xDC]
  const LO_30: seq<Byte> := [0x14, 0xD4, 0xD5, 0x15, 0xD7, 0x17, 0x16, 0xD6]
  const LO_38: seq<Byte> := [0xD2, 0x12, 0x13, 0xD3, 0x11, 0xD1, 0xD0, 0x10]
  const LO_40: seq<Byte> := [0xF0, 0x30, 0x31, 0xF1, 0x33, 0xF3, 0xF2, 0x32]
  const LO_48: seq<Byte> := [0x36, 0xF6, 0xF7, 0x37, 0xF5, 0x35, 0x34, 0xF4]
  const LO_50: seq<Byte> := [0x3C, 0xFC, 0xFD, 0x3D, 0xFF, 0x3F, 0x3E, 0xFE]
  const LO_58: seq<Byte> := [0xFA, 0x3A, 0x3B, 0xFB, 0x39, 0xF9, 0xF8, 0x38]
  const LO_60: seq<Byte> := [0x28, 0xE8, 0xE9, 0x29, 0xEB, 0x2B, 0x2A, 0xEA]
  const LO_68: seq<Byte> := [0xEE, 0x2E, 0x2F, 0xEF, 0x2D, 0xED, 0xEC, 0x2C]
  const LO_70: seq<Byte> := [0xE4, 0x24, 0x25, 0xE5, 0x27, 0xE7, 0xE6, 0x26]
  const LO_78: seq<Byte> := [0x22, 0xE2, 0xE3, 0x23, 0xE1, 0x21, 0x20, 0xE0]
  const LO_80: seq<Byte> := [0xA0, 0x60, 0x61, 0xA1, 0x63, 0xA3, 0xA2, 0x62]
  const LO_88: seq<Byte> := [0x66, 0xA6, 0xA7, 0x67, 0xA5, 0x65, 0x64, 0xA4]
  const LO_90: seq<Byte> := [0x6C, 0xAC, 0xAD, 0x6D, 0xAF, 0x6F, 0x6E, 0xAE]
  const LO_98: seq<Byte> := [0xAA, 0x6A, 0x6B, 0xAB, 0x69, 0xA9, 0xA8, 0x68]
  const LO_A0: seq<Byte> := [0x78, 0xB8, 0xB9, 0x79, 0xBB, 0x7B, 0x7A, 0xBA]
  const LO_A8: seq<Byte> := [0xBE, 0x7E, 0x7F, 0xBF, 0x7D, 0xBD, 0xBC, 0x7C]
  const LO_B0: seq<Byte> := [0xB4, 0x74, 0x75, 0xB5, 0x77, 0xB7, 0xB6, 0x76]
  const LO_B8: seq<Byte> := [0x72, 0xB2, 0xB3, 0x73, 0xB1, 0x71, 0x70, 0xB0]
  const LO_C0: seq<Byte> := [0x50, 0x90, 0x91, 0x51, 0x93, 0x53, 0x52, 0x92]
  const LO_C8: seq<Byte> := [0x96, 0x56, 0x57, 0x97, 0x55, 0x95, 0x94, 0x54]
  const LO_D0: seq<Byte> := [0x9C, 0x5C, 0x5D, 0x9D, 0x5F, 0x9F, 0x9E, 0x5E]
  const LO_D8: seq<Byte> := [0x5A, 0x9A, 0x9B, 0x5B, 0x99, 0x59, 0x58, 0x98]
  const LO_E0: seq<Byte> := [0x88, 0x48, 0x49, 0x89, 0x4B, 0x8B, 0x8A, 0x4A]
  const LO_E8: seq<Byte> := [0x4E, 0x8E, 0x8F, 0x4F, 0x8D, 0x4D, 0x4C, 0x8C]
  const LO_F0: seq<Byte> := [0x44, 0x84, 0x85, 0x45, 0x87, 0x47, 0x46, 0x86]
  const LO_F8: seq<Byte> := [0x82, 0x42, 0x43, 0x83, 0x41, 0x81, 0x80, 0x40]
  const LO_0: seq<Byte> := LO_00 + LO_08 + LO_10 + LO_18
    + LO_20 + LO_28 + LO_30 + LO_38
  const LO_1: seq<Byte> := LO_40 + LO_48 + LO_50 + LO_58
    + LO_60 + LO_68 + LO_70 + LO_78
  const LO_2: seq<Byte> := LO_80 + LO_88 + LO_90 + LO_98
    + LO_A0 + LO_A8 + LO_B0 + LO_B8
  const LO_3: seq<Byte> := LO_C0 + LO_C8 + LO_D0 + LO_D8
    + LO_E0 + LO_E8 + LO_F0 + LO_F8
  const LO: seq<Byte> := LO_0 + LO_1 + LO_2 + LO_3

  // ---- Every entry is right ----

  /** Table entry `i`: the high table holds the low byte of the register. */
  predicate Entry(h: Byte, l: Byte, i: nat) {
    i < 256 && (l << 8) | h == Step8(i as bv16)
  }

  /** From index `x` on, the two tables agree with `e`. */
  ghost predicate Agree<T>(e: (T, T, nat) -> bool, h: seq<T>, l: seq<T>, x: nat) {
    |h| == |l| && forall k :: 0 <= k < |h| ==> e(h[k], l[k], x + k)
  }

  lemma Join<T>(e: (T, T, nat) -> bool, h: seq<T>, l: seq<T>, x: nat, h': seq<T>, l': seq<T>, x': nat)
    requires Agree(e, h, l, x) && Agree(e, h', l', x') && x' == x + |h|
    ensures Agree(e, h + h', l + l', x)
  {
    forall k | 0 <= k < |h + h'| ensures e((h + h')[k], (l + l')[k], x + k) {
      if k >= |h| {
        var k' := k - |h|;
        assert e(h'[k'], l'[k'], x' + k');
      }
    }
  }

  ghost predicate Row<T>(e: (T, T, nat) -> bool, h: seq<T>, l: seq<T>, x: nat) {
    |h| == |l| == 8 &&
    e(h[0], l[0], x) && e(h[1], l[1], x + 1) && e(h[2], l[2], x + 2) && e(h[3], l[3], x + 3) &&
    e(h[4], l[4], x + 4) && e(h[5], l[5], x + 5) && e(h[6], l[6], x + 6) && e(h[7], l[7], x + 7)
  }

  lemma Eight<T>(e: (T, T, nat) -> bool, h: seq<T>, l: seq<T>, x: nat)
    requires Row(e, h, l, x)
    ensures |h| == 8 && Agree(e, h, l, x)
  {
  }

  lemma Row00() ensures Row(Entry, HI_00, LO_00, 0x00) {}
  lemma Row08() ensures Row(Entry, HI_08, LO_08, 0x08) {}
  lemma Row10() ensures Row(Entry, HI_10, LO_10, 0x10) {}
  lemma Row18() ensures Row(Entry, HI_18, LO_18, 0x18) {}
  lemma Row20() ensures Row(Entry, HI_20, LO_20, 0x20) {}
  lemma Row28() ensures Row(Entry, HI_28, LO_28, 0x28) {}
  lemma Row30() ensures Row(Entry, HI_30, LO_30, 0x30) {}
  lemma Row38() ensures Row(Entry, HI_38, LO_38, 0x38) {}
  lemma Row40() ensures Row(Entry, HI_40, LO_40, 0x40) {}
  lemma Row48() ensures Row(Entry, HI_48, LO_48, 0x48) {}
  lemma Row50() ensures Row(Entry, HI_50, LO_50, 0x50) {}
  lemma Row58() ensures Row(Entry, HI_58, LO_58, 0x58) {}
  lemma Row60() ensures Row(Entry, HI_60, LO_60, 0x60) {}
  lemma Row68() ensures Row(Entry, HI_68, LO_68, 0x68) {}
  lemma Row70() ensures Row(Entry, HI_70, LO_70, 0x70) {}
  lemma Row78() ensures Row(Entry, HI_78, LO_78, 0x78) {}
  lemma Row80() ensures Row(Entry, HI_80, LO_80, 0x80) {}
  lemma Row88() ensures Row(Entry, HI_88, LO_88, 0x88) {}
  lemma Row90() ensures Row(Entry, HI_90, LO_90, 0x90) {}
  lemma Row98() ensures Row(Entry, HI_98, LO_98, 0x98) {}
  lemma RowA0() ensures Row(Entry, HI_A0, LO_A0, 0xA0) {}
  lemma RowA8() ensures Row(Entry, HI_A8, LO_A8, 0xA8) {}
  lemma RowB0() ensures Row(Entry, HI_B0, LO_B0, 0xB0) {}
  lemma RowB8() ensures Row(Entry, HI_B8, LO_B8, 0xB8) {}
  lemma RowC0() ensures Row(Entry, HI_C0, LO_C0, 0xC0) {}
  lemma RowC8() ensures Row(Entry, HI_C8, LO_C8, 0xC8) {}
  lemma RowD0() ensures Row(Entry, HI_D0, LO_D0, 0xD0) {}
  lemma RowD8() ensures Row(Entry, HI_D8, LO_D8, 0xD8) {}
  lemma RowE0() ensures Row(Entry, HI_E0, LO_E0, 0xE0) {}
  lemma RowE8() ensures Row(Entry, HI_E8, LO_E8, 0xE8) {}
  lemma RowF0() ensures Row(Entry, HI_F0, LO_F0, 0xF0) {}
  lemma RowF8() ensures Row(Entry, HI_F8, LO_F8, 0xF8) {}
  lemma Quarter0()
    ensures |HI_0| == 64 && Agree(Entry, HI_0, LO_0, 0x00)
  {
    hide Row, Agree, Entry;
    Row00(); Eight(Entry, HI_00, LO_00, 0x00);
    Row08(); Eight(Entry, HI_08, LO_08, 0x08);
    Row10(); Eight(Entry, HI_10, LO_10, 0x10);
    Row18(); Eight(Entry, HI_18, LO_18, 0x18);
    Row20(); Eight(Entry, HI_20, LO_20, 0x20);
    Row28(); Eight(Entry, HI_28, LO_28, 0x28);
    Row30(); Eight(Entry, HI_30, LO_30, 0x30);
    Row38(); Eight(Entry, HI_38, LO_38, 0x38);
    Join(Entry, HI_00, LO_00, 0x00, HI_08, LO_08, 0x08);
    var h1, l1 := HI_00 + HI_08, LO_00 + LO_08;
    Join(Entry, h1, l1, 0x00, HI_10, LO_10, 0x10);
    var h2, l2 := h1 + HI_10, l1 + LO_10;
    Join(Entry, h2, l2, 0x00, HI_18, LO_18, 0x18);
    var h3, l3 := h2 + HI_18, l2 + LO_18;
    Join(Entry, h3, l3, 0x00, HI_20, LO_20, 0x20);
    var h4, l4 := h3 + HI_20, l3 + LO_20;
    Join(Entry, h4, l4, 0x00, HI_28, LO_28, 0x28);
    var h5, l5 := h4 + HI_28, l4 + LO_28;
    Join(Entry, h5, l5, 0x00, HI_30, LO_30, 0x30);
    var h6, l6 := h5 + HI_30, l5 + LO_30;
    Join(Entry, h6, l6, 0x00, HI_38, LO_38, 0x38);
    var h7, l7 := h6 + HI_38, l6 + LO_38;
  }

  lemma Quarter1()
    ensures |HI_1| == 64 && Agree(Entry, HI_1, LO_1, 0x40)
  {
    hide Row, Agree, Entry;
    Row40(); Eight(Entry, HI_40, LO_40, 0x40);
    Row48(); Eight(Entry, HI_48, LO_48, 0x48);
    Row50(); Eight(Entry, HI_50, LO_50, 0x50);
    Row58(); Eight(Entry, HI_58, LO_58, 0x58);
    Row60(); Eight(Entry, HI_60, LO_60, 0x60);
    Row68(); Eight(Entry, HI_68, LO_68, 0x68);
    Row70(); Eight(Entry, HI_70, LO_70, 0x70);
    Row78(); Eight(Entry, HI_78, LO_78, 0x78);
    Join(Entry, HI_40, LO_40, 0x40, HI_48, LO_48, 0x48);
    var h1, l1 := HI_40 + HI_48, LO_40 + LO_48;
    Join(Entry, h1, l1, 0x40, HI_50, LO_50, 0x50);
    var h2, l2 := h1 + HI_50, l1 + LO_50;
    Join(Entry, h2, l2, 0x40, HI_58, LO_58, 0x58);
    var h3, l3 := h2 + HI_58, l2 + LO_58;
    Join(Entry, h3, l3, 0x40, HI_60, LO_60, 0x60);
    var h4, l4 := h3 + HI_60, l3 + LO_60;
    Join(Entry, h4, l4, 0x40, HI_68, LO_68, 0x68);
    var h5, l5 := h4 + HI_68, l4 + LO_68;
    Join(Entry, h5, l5, 0x40, HI_70, LO_70, 0x70);
    var h6, l6 := h5 + HI_70, l5 + LO_70;
    Join(Entry, h6, l6, 0x40, HI_78, LO_78, 0x78);
    var h7, l7 := h6 + HI_78, l6 + LO_78;
  }

  lemma Quarter2()
    ensures |HI_2| == 64 && Agree(Entry, HI_2, LO_2, 0x80)
  {
    hide Row, Agree, Entry;
    Row80(); Eight(Entry, HI_80, LO_80, 0x80);
    Row88(); Eight(Entry, HI_88, LO_88, 0x88);
    Row90(); Eight(Entry, HI_90, LO_90, 0x90);
    Row98(); Eight(Entry, HI_98, LO_98, 0x98);
    RowA0(); Eight(Entry, HI_A0, LO_A0, 0xA0);
    RowA8(); Eight(Entry, HI_A8, LO_A8, 0xA8);
    RowB0(); Eight(Entry, HI_B0, LO_B0, 0xB0);
    RowB8(); Eight(Entry, HI_B8, LO_B8, 0xB8);
    Join(Entry, HI_80, LO_80, 0x80, HI_88, LO_88, 0x88);
    var h1, l1 := HI_80 + HI_88, LO_80 + LO_88;
    Join(Entry, h1, l1, 0x80, HI_90, LO_90, 0x90);
    var h2, l2 := h1 + HI_90, l1 + LO_90;
    Join(Entry, h2, l2, 0x80, HI_98, LO_98, 0x98);
    var h3, l3 := h2 + HI_98, l2 + LO_98;
    Join(Entry, h3, l3, 0x80, HI_A0, LO_A0, 0xA0);
    var h4, l4 := h3 + HI_A0, l3 + LO_A0;
    Join(Entry, h4, l4, 0x80, HI_A8, LO_A8, 0xA8);
    var h5, l5 := h4 + HI_A8, l4 + LO_A8;
    Join(Entry, h5, l5, 0x80, HI_B0, LO_B0, 0xB0);
    var h6, l6 := h5 + HI_B0, l5 + LO_B0;
    Join(Entry, h6, l6, 0x80, HI_B8, LO_B8, 0xB8);
    var h7, l7 := h6 + HI_B8, l6 + LO_B8;
  }

  lemma Quarter3()
    ensures |HI_3| == 64 && Agree(Entry, HI_3, LO_3, 0xC0)
  {
    hide Row, Agree, Entry;
    RowC0(); Eight(Entry, HI_C0, LO_C0, 0xC0);
    RowC8(); Eight(Entry, HI_C8, LO_C8, 0xC8);
    RowD0(); Eight(Entry, HI_D0, LO_D0, 0xD0);
    RowD8(); Eight(Entry, HI_D8, LO_D8, 0xD8);
    RowE0(); Eight(Entry, HI_E0, LO_E0, 0xE0);
    RowE8(); Eight(Entry, HI_E8, LO_E8, 0xE8);
    RowF0(); Eight(Entry, HI_F0, LO_F0, 0xF0);
    RowF8(); Eight(Entry, HI_F8, LO_F8, 0xF8);
    Join(Entry, HI_C0, LO_C0, 0xC0, HI_C8, LO_C8, 0xC8);
    var h1, l1 := HI_C0 + HI_C8, LO_C0 + LO_C8;
    Join(Entry, h1, l1, 0xC0, HI_D0, LO_D0, 0xD0);
    var h2, l2 := h1 + HI_D0, l1 + LO_D0;
    Join(Entry, h2, l2, 0xC0, HI_D8, LO_D8, 0xD8);
    var h3, l3 := h2 + HI_D8, l2 + LO_D8;
    Join(Entry, h3, l3, 0xC0, HI_E0, LO_E0, 0xE0);
    var h4, l4 := h3 + HI_E0, l3 + LO_E0;
    Join(Entry, h4, l4, 0xC0, HI_E8, LO_E8, 0xE8);
    var h5, l5 := h4 + HI_E8, l4 + LO_E8;
    Join(Entry, h5, l5, 0xC0, HI_F0, LO_F0, 0xF0);
    var h6, l6 := h5 + HI_F0, l5 + LO_F0;
    Join(Entry, h6, l6, 0xC0, HI_F8, LO_F8, 0xF8);
    var h7, l7 := h6 + HI_F8, l6 + LO_F8;
  }

  lemma TableEntries()
    ensures Agree(Entry, HI, LO, 0)
  {
    Quarter0(); Quarter1(); Quarter2(); Quarter3();
    Join(Entry, HI_0, LO_0, 0, HI_1, LO_1, 64);
    Join(Entry, HI_0 + HI_1, LO_0 + LO_1, 0, HI_2, LO_2, 128);
    Join(Entry, HI_0 + HI_1 + HI_2, LO_0 + LO_1 + LO_2, 0, HI_3, LO_3, 192);
  }
}
