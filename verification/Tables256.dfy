/** The antilog and log tables of the eight bit field, row by row as the source lists them,
    and the computed facts about them: each antilog is twice the one before, the logs point at
    their antilogs, and one recurs only after 255 steps. */
module Tables256 {
  datatype Row<T> = Row(x0: T, x1: T, x2: T, x3: T, x4: T, x5: T, x6: T, x7: T,
                        x8: T, x9: T, x10: T, x11: T, x12: T, x13: T, x14: T, x15: T)

  function At<T>(r: Row<T>, i: nat): T {
    match i
    case 0 => r.x0 case 1 => r.x1 case 2 => r.x2 case 3 => r.x3
    case 4 => r.x4 case 5 => r.x5 case 6 => r.x6 case 7 => r.x7
    case 8 => r.x8 case 9 => r.x9 case 10 => r.x10 case 11 => r.x11
    case 12 => r.x12 case 13 => r.x13 case 14 => r.x14 case _ => r.x15
  }

  // EXP_TABLE
  const E0: Row<bv8> := Row(0x01, 0x02, 0x04, 0x08, 0x10, 0x20, 0x40, 0x80,
    0x1D, 0x3A, 0x74, 0xE8, 0xCD, 0x87, 0x13, 0x26)
  const E1: Row<bv8> := Row(0x4C, 0x98, 0x2D, 0x5A, 0xB4, 0x75, 0xEA, 0xC9,
    0x8F, 0x03, 0x06, 0x0C, 0x18, 0x30, 0x60, 0xC0)
  const E2: Row<bv8> := Row(0x9D, 0x27, 0x4E, 0x9C, 0x25, 0x4A, 0x94, 0x35,
    0x6A, 0xD4, 0xB5, 0x77, 0xEE, 0xC1, 0x9F, 0x23)
  const E3: Row<bv8> := Row(0x46, 0x8C, 0x05, 0x0A, 0x14, 0x28, 0x50, 0xA0,
    0x5D, 0xBA, 0x69, 0xD2, 0xB9, 0x6F, 0xDE, 0xA1)
  const E4: Row<bv8> := Row(0x5F, 0xBE, 0x61, 0xC2, 0x99, 0x2F, 0x5E, 0xBC,
    0x65, 0xCA, 0x89, 0x0F, 0x1E, 0x3C, 0x78, 0xF0)
  const E5: Row<bv8> := Row(0xFD, 0xE7, 0xD3, 0xBB, 0x6B, 0xD6, 0xB1, 0x7F,
    0xFE, 0xE1, 0xDF, 0xA3, 0x5B, 0xB6, 0x71, 0xE2)
  const E6: Row<bv8> := Row(0xD9, 0xAF, 0x43, 0x86, 0x11, 0x22, 0x44, 0x88,
    0x0D, 0x1A, 0x34, 0x68, 0xD0, 0xBD, 0x67, 0xCE)
  const E7: Row<bv8> := Row(0x81, 0x1F, 0x3E, 0x7C, 0xF8, 0xED, 0xC7, 0x93,
    0x3B, 0x76, 0xEC, 0xC5, 0x97, 0x33, 0x66, 0xCC)
  const E8: Row<bv8> := Row(0x85, 0x17, 0x2E, 0x5C, 0xB8, 0x6D, 0xDA, 0xA9,
    0x4F, 0x9E, 0x21, 0x42, 0x84, 0x15, 0x2A, 0x54)
  const E9: Row<bv8> := Row(0xA8, 0x4D, 0x9A, 0x29, 0x52, 0xA4, 0x55, 0xAA,
    0x49, 0x92, 0x39, 0x72, 0xE4, 0xD5, 0xB7, 0x73)
  const E10: Row<bv8> := Row(0xE6, 0xD1, 0xBF, 0x63, 0xC6, 0x91, 0x3F, 0x7E,
    0xFC, 0xE5, 0xD7, 0xB3, 0x7B, 0xF6, 0xF1, 0xFF)
  const E11: Row<bv8> := Row(0xE3, 0xDB, 0xAB, 0x4B, 0x96, 0x31, 0x62, 0xC4,
    0x95, 0x37, 0x6E, 0xDC, 0xA5, 0x57, 0xAE, 0x41)
  const E12: Row<bv8> := Row(0x82, 0x19, 0x32, 0x64, 0xC8, 0x8D, 0x07, 0x0E,
    0x1C, 0x38, 0x70, 0xE0, 0xDD, 0xA7, 0x53, 0xA6)
  const E13: Row<bv8> := Row(0x51, 0xA2, 0x59, 0xB2, 0x79, 0xF2, 0xF9, 0xEF,
    0xC3, 0x9B, 0x2B, 0x56, 0xAC, 0x45, 0x8A, 0x09)
  const E14: Row<bv8> := Row(0x12, 0x24, 0x48, 0x90, 0x3D, 0x7A, 0xF4, 0xF5,
    0xF7, 0xF3, 0xFB, 0xEB, 0xCB, 0x8B, 0x0B, 0x16)
  const E15: Row<bv8> := Row(0x2C, 0x58, 0xB0, 0x7D, 0xFA, 0xE9, 0xCF, 0x83,
    0x1B, 0x36, 0x6C, 0xD8, 0xAD, 0x47, 0x8E, 0x01)
  const E16: Row<bv8> := Row(0x02, 0x04, 0x08, 0x10, 0x20, 0x40, 0x80, 0x1D,
    0x3A, 0x74, 0xE8, 0xCD, 0x87, 0x13, 0x26, 0x4C)
  const E17: Row<bv8> := Row(0x98, 0x2D, 0x5A, 0xB4, 0x75, 0xEA, 0xC9, 0x8F,
    0x03, 0x06, 0x0C, 0x18, 0x30, 0x60, 0xC0, 0x9D)
  const E18: Row<bv8> := Row(0x27, 0x4E, 0x9C, 0x25, 0x4A, 0x94, 0x35, 0x6A,
    0xD4, 0xB5, 0x77, 0xEE, 0xC1, 0x9F, 0x23, 0x46)
  const E19: Row<bv8> := Row(0x8C, 0x05, 0x0A, 0x14, 0x28, 0x50, 0xA0, 0x5D,
    0xBA, 0x69, 0xD2, 0xB9, 0x6F, 0xDE, 0xA1, 0x5F)
  const E20: Row<bv8> := Row(0xBE, 0x61, 0xC2, 0x99, 0x2F, 0x5E, 0xBC, 0x65,
    0xCA, 0x89, 0x0F, 0x1E, 0x3C, 0x78, 0xF0, 0xFD)
  const E21: Row<bv8> := Row(0xE7, 0xD3, 0xBB, 0x6B, 0xD6, 0xB1, 0x7F, 0xFE,
    0xE1, 0xDF, 0xA3, 0x5B, 0xB6, 0x71, 0xE2, 0xD9)
  const E22: Row<bv8> := Row(0xAF, 0x43, 0x86, 0x11, 0x22, 0x44, 0x88, 0x0D,
    0x1A, 0x34, 0x68, 0xD0, 0xBD, 0x67, 0xCE, 0x81)
  const E23: Row<bv8> := Row(0x1F, 0x3E, 0x7C, 0xF8, 0xED, 0xC7, 0x93, 0x3B,
    0x76, 0xEC, 0xC5, 0x97, 0x33, 0x66, 0xCC, 0x85)
  const E24: Row<bv8> := Row(0x17, 0x2E, 0x5C, 0xB8, 0x6D, 0xDA, 0xA9, 0x4F,
    0x9E, 0x21, 0x42, 0x84, 0x15, 0x2A, 0x54, 0xA8)
  const E25: Row<bv8> := Row(0x4D, 0x9A, 0x29, 0x52, 0xA4, 0x55, 0xAA, 0x49,
    0x92, 0x39, 0x72, 0xE4, 0xD5, 0xB7, 0x73, 0xE6)
  const E26: Row<bv8> := Row(0xD1, 0xBF, 0x63, 0xC6, 0x91, 0x3F, 0x7E, 0xFC,
    0xE5, 0xD7, 0xB3, 0x7B, 0xF6, 0xF1, 0xFF, 0xE3)
  const E27: Row<bv8> := Row(0xDB, 0xAB, 0x4B, 0x96, 0x31, 0x62, 0xC4, 0x95,
    0x37, 0x6E, 0xDC, 0xA5, 0x57, 0xAE, 0x41, 0x82)
  const E28: Row<bv8> := Row(0x19, 0x32, 0x64, 0xC8, 0x8D, 0x07, 0x0E, 0x1C,
    0x38, 0x70, 0xE0, 0xDD, 0xA7, 0x53, 0xA6, 0x51)
  const E29: Row<bv8> := Row(0xA2, 0x59, 0xB2, 0x79, 0xF2, 0xF9, 0xEF, 0xC3,
    0x9B, 0x2B, 0x56, 0xAC, 0x45, 0x8A, 0x09, 0x12)
  const E30: Row<bv8> := Row(0x24, 0x48, 0x90, 0x3D, 0x7A, 0xF4, 0xF5, 0xF7,
    0xF3, 0xFB, 0xEB, 0xCB, 0x8B, 0x0B, 0x16, 0x2C)
  const E31: Row<bv8> := Row(0x58, 0xB0, 0x7D, 0xFA, 0xE9, 0xCF, 0x83, 0x1B,
    0x36, 0x6C, 0xD8, 0xAD, 0x47, 0x8E, 0x01, 0x00)

  // LOG_TABLE
  const L0: Row<nat> := Row(0, 0, 1, 25, 2, 50, 26, 198, 3, 223, 51, 238, 27, 104, 199, 75)
  const L1: Row<nat> := Row(4, 100, 224, 14, 52, 141, 239, 129, 28, 193, 105, 248, 200, 8, 76, 113)
  const L2: Row<nat> := Row(5, 138, 101, 47, 225, 36, 15, 33, 53, 147, 142, 218, 240, 18, 130, 69)
  const L3: Row<nat> := Row(29, 181, 194, 125, 106, 39, 249, 185, 201, 154, 9, 120, 77, 228, 114, 166)
  const L4: Row<nat> := Row(6, 191, 139, 98, 102, 221, 48, 253, 226, 152, 37, 179, 16, 145, 34, 136)
  const L5: Row<nat> := Row(54, 208, 148, 206, 143, 150, 219, 189, 241, 210, 19, 92, 131, 56, 70, 64)
  const L6: Row<nat> := Row(30, 66, 182, 163, 195, 72, 126, 110, 107, 58, 40, 84, 250, 133, 186, 61)
  const L7: Row<nat> := Row(202, 94, 155, 159, 10, 21, 121, 43, 78, 212, 229, 172, 115, 243, 167, 87)
  const L8: Row<nat> := Row(7, 112, 192, 247, 140, 128, 99, 13, 103, 74, 222, 237, 49, 197, 254, 24)
  const L9: Row<nat> := Row(227, 165, 153, 119, 38, 184, 180, 124, 17, 68, 146, 217, 35, 32, 137, 46)
  const L10: Row<nat> := Row(55, 63, 209, 91, 149, 188, 207, 205, 144, 135, 151, 178, 220, 252, 190, 97)
  const L11: Row<nat> := Row(242, 86, 211, 171, 20, 42, 93, 158, 132, 60, 57, 83, 71, 109, 65, 162)
  const L12: Row<nat> := Row(31, 45, 67, 216, 183, 123, 164, 118, 196, 23, 73, 236, 127, 12, 111, 246)
  const L13: Row<nat> := Row(108, 161, 59, 82, 41, 157, 85, 170, 251, 96, 134, 177, 187, 204, 62, 90)
  const L14: Row<nat> := Row(203, 89, 95, 176, 156, 169, 160, 81, 11, 245, 22, 235, 122, 117, 44, 215)
  const L15: Row<nat> := Row(79, 174, 213, 233, 230, 231, 173, 232, 116, 214, 244, 234, 168, 80, 88, 175)

  function ExpRow(r: nat): Row<bv8> {
    match r
    case 0 => E0 case 1 => E1 case 2 => E2 case 3 => E3 case 4 => E4 case 5 => E5
    case 6 => E6 case 7 => E7 case 8 => E8 case 9 => E9 case 10 => E10 case 11 => E11
    case 12 => E12 case 13 => E13 case 14 => E14 case 15 => E15 case 16 => E16 case 17 => E17
    case 18 => E18 case 19 => E19 case 20 => E20 case 21 => E21 case 22 => E22 case 23 => E23
    case 24 => E24 case 25 => E25 case 26 => E26 case 27 => E27 case 28 => E28 case 29 => E29
    case 30 => E30 case _ => E31
  }

  function LogRow(r: nat): Row<nat> {
    match r
    case 0 => L0 case 1 => L1 case 2 => L2 case 3 => L3 case 4 => L4 case 5 => L5
    case 6 => L6 case 7 => L7 case 8 => L8 case 9 => L9 case 10 => L10 case 11 => L11
    case 12 => L12 case 13 => L13 case 14 => L14 case _ => L15
  }

  /** EXP_TABLE[k] */
  function ExpTable(k: nat): bv8 { At(ExpRow(k / 16), k % 16) }

  /** LOG_TABLE[a] */
  function LogTable(a: nat): nat { At(LogRow(a / 16), a % 16) }

  /** A byte times x, reduced by x^8 + x^4 + x^3 + x^2 + 1. */
  function Double(a: bv8): bv8 {
    if a & 0x80 == 0 then a << 1 else (a << 1) ^ 0x1D
  }

  predicate Doubles(r: Row<bv8>, next: Row<bv8>) {
    && r.x1 == Double(r.x0) && r.x2 == Double(r.x1) && r.x3 == Double(r.x2) && r.x4 == Double(r.x3)
    && r.x5 == Double(r.x4) && r.x6 == Double(r.x5) && r.x7 == Double(r.x6) && r.x8 == Double(r.x7)
    && r.x9 == Double(r.x8) && r.x10 == Double(r.x9) && r.x11 == Double(r.x10) && r.x12 == Double(r.x11)
    && r.x13 == Double(r.x12) && r.x14 == Double(r.x13) && r.x15 == Double(r.x14) && next.x0 == Double(r.x15)
  }

  /** The last row, whose final entry is zero. */
  predicate DoublesLast(r: Row<bv8>) {
    && r.x1 == Double(r.x0) && r.x2 == Double(r.x1) && r.x3 == Double(r.x2) && r.x4 == Double(r.x3)
    && r.x5 == Double(r.x4) && r.x6 == Double(r.x5) && r.x7 == Double(r.x6) && r.x8 == Double(r.x7)
    && r.x9 == Double(r.x8) && r.x10 == Double(r.x9) && r.x11 == Double(r.x10) && r.x12 == Double(r.x11)
    && r.x13 == Double(r.x12) && r.x14 == Double(r.x13)
  }

  predicate Hit(k: nat, v: nat) { k < 255 && v < 256 && At(ExpRow(k / 16), k % 16) == v as bv8 }

  /** Every log of row r but the first points at its byte. */
  predicate Hits(l: Row<nat>, r: nat) {
    && Hit(l.x1, 16 * r + 1) && Hit(l.x2, 16 * r + 2) && Hit(l.x3, 16 * r + 3) && Hit(l.x4, 16 * r + 4)
    && Hit(l.x5, 16 * r + 5) && Hit(l.x6, 16 * r + 6) && Hit(l.x7, 16 * r + 7) && Hit(l.x8, 16 * r + 8)
    && Hit(l.x9, 16 * r + 9) && Hit(l.x10, 16 * r + 10) && Hit(l.x11, 16 * r + 11) && Hit(l.x12, 16 * r + 12)
    && Hit(l.x13, 16 * r + 13) && Hit(l.x14, 16 * r + 14) && Hit(l.x15, 16 * r + 15)
  }

  /** No entry of the row but the first and the last is one. */
  predicate NoOne(r: Row<bv8>) {
    && r.x1 != 1 && r.x2 != 1 && r.x3 != 1 && r.x4 != 1 && r.x5 != 1 && r.x6 != 1 && r.x7 != 1
    && r.x8 != 1 && r.x9 != 1 && r.x10 != 1 && r.x11 != 1 && r.x12 != 1 && r.x13 != 1 && r.x14 != 1
  }

  // ----- the tables satisfy these relations; each lemma is a computation -----

  lemma LastRow()
    ensures DoublesLast(E31)
  {}

  lemma ExpRows0()
    ensures Doubles(E0, E1) && NoOne(E0) && E0.x15 != 1
    ensures Doubles(E1, E2) && NoOne(E1) && E1.x0 != 1 && E1.x15 != 1
    ensures Doubles(E2, E3) && NoOne(E2) && E2.x0 != 1 && E2.x15 != 1
    ensures Doubles(E3, E4) && NoOne(E3) && E3.x0 != 1 && E3.x15 != 1
  {}

  lemma ExpRows1()
    ensures Doubles(E4, E5) && NoOne(E4) && E4.x0 != 1 && E4.x15 != 1
    ensures Doubles(E5, E6) && NoOne(E5) && E5.x0 != 1 && E5.x15 != 1
    ensures Doubles(E6, E7) && NoOne(E6) && E6.x0 != 1 && E6.x15 != 1
    ensures Doubles(E7, E8) && NoOne(E7) && E7.x0 != 1 && E7.x15 != 1
  {}

  lemma ExpRows2()
    ensures Doubles(E8, E9) && NoOne(E8) && E8.x0 != 1 && E8.x15 != 1
    ensures Doubles(E9, E10) && NoOne(E9) && E9.x0 != 1 && E9.x15 != 1
    ensures Doubles(E10, E11) && NoOne(E10) && E10.x0 != 1 && E10.x15 != 1
    ensures Doubles(E11, E12) && NoOne(E11) && E11.x0 != 1 && E11.x15 != 1
  {}

  lemma ExpRows3()
    ensures Doubles(E12, E13) && NoOne(E12) && E12.x0 != 1 && E12.x15 != 1
    ensures Doubles(E13, E14) && NoOne(E13) && E13.x0 != 1 && E13.x15 != 1
    ensures Doubles(E14, E15) && NoOne(E14) && E14.x0 != 1 && E14.x15 != 1
    ensures Doubles(E15, E16) && NoOne(E15) && E15.x0 != 1 && E15.x15 == 1
  {}

  lemma ExpRows4()
    ensures Doubles(E16, E17)
    ensures Doubles(E17, E18)
    ensures Doubles(E18, E19)
    ensures Doubles(E19, E20)
  {}

  lemma ExpRows5()
    ensures Doubles(E20, E21)
    ensures Doubles(E21, E22)
    ensures Doubles(E22, E23)
    ensures Doubles(E23, E24)
  {}

  lemma ExpRows6()
    ensures Doubles(E24, E25)
    ensures Doubles(E25, E26)
    ensures Doubles(E26, E27)
    ensures Doubles(E27, E28)
  {}

  lemma ExpRows7()
    ensures Doubles(E28, E29)
    ensures Doubles(E29, E30)
    ensures Doubles(E30, E31)
  {}

  lemma LogRows0()
    ensures Hit(L0.x1, 1) && Hit(L0.x2, 2) && Hit(L0.x3, 3)
    ensures Hit(L0.x4, 4) && Hit(L0.x5, 5) && Hit(L0.x6, 6) && Hit(L0.x7, 7)
    ensures Hit(L0.x8, 8) && Hit(L0.x9, 9) && Hit(L0.x10, 10) && Hit(L0.x11, 11)
    ensures Hit(L0.x12, 12) && Hit(L0.x13, 13) && Hit(L0.x14, 14) && Hit(L0.x15, 15)
    ensures Hit(L1.x0, 16) && Hit(L1.x1, 17) && Hit(L1.x2, 18) && Hit(L1.x3, 19)
    ensures Hit(L1.x4, 20) && Hit(L1.x5, 21) && Hit(L1.x6, 22) && Hit(L1.x7, 23)
    ensures Hit(L1.x8, 24) && Hit(L1.x9, 25) && Hit(L1.x10, 26) && Hit(L1.x11, 27)
    ensures Hit(L1.x12, 28) && Hit(L1.x13, 29) && Hit(L1.x14, 30) && Hit(L1.x15, 31)
  {}

  lemma LogRows1()
    ensures Hit(L2.x0, 32) && Hit(L2.x1, 33) && Hit(L2.x2, 34) && Hit(L2.x3, 35)
    ensures Hit(L2.x4, 36) && Hit(L2.x5, 37) && Hit(L2.x6, 38) && Hit(L2.x7, 39)
    ensures Hit(L2.x8, 40) && Hit(L2.x9, 41) && Hit(L2.x10, 42) && Hit(L2.x11, 43)
    ensures Hit(L2.x12, 44) && Hit(L2.x13, 45) && Hit(L2.x14, 46) && Hit(L2.x15, 47)
    ensures Hit(L3.x0, 48) && Hit(L3.x1, 49) && Hit(L3.x2, 50) && Hit(L3.x3, 51)
    ensures Hit(L3.x4, 52) && Hit(L3.x5, 53) && Hit(L3.x6, 54) && Hit(L3.x7, 55)
    ensures Hit(L3.x8, 56) && Hit(L3.x9, 57) && Hit(L3.x10, 58) && Hit(L3.x11, 59)
    ensures Hit(L3.x12, 60) && Hit(L3.x13, 61) && Hit(L3.x14, 62) && Hit(L3.x15, 63)
  {}

  lemma LogRows2()
    ensures Hit(L4.x0, 64) && Hit(L4.x1, 65) && Hit(L4.x2, 66) && Hit(L4.x3, 67)
    ensures Hit(L4.x4, 68) && Hit(L4.x5, 69) && Hit(L4.x6, 70) && Hit(L4.x7, 71)
    ensures Hit(L4.x8, 72) && Hit(L4.x9, 73) && Hit(L4.x10, 74) && Hit(L4.x11, 75)
    ensures Hit(L4.x12, 76) && Hit(L4.x13, 77) && Hit(L4.x14, 78) && Hit(L4.x15, 79)
    ensures Hit(L5.x0, 80) && Hit(L5.x1, 81) && Hit(L5.x2, 82) && Hit(L5.x3, 83)
    ensures Hit(L5.x4, 84) && Hit(L5.x5, 85) && Hit(L5.x6, 86) && Hit(L5.x7, 87)
    ensures Hit(L5.x8, 88) && Hit(L5.x9, 89) && Hit(L5.x10, 90) && Hit(L5.x11, 91)
    ensures Hit(L5.x12, 92) && Hit(L5.x13, 93) && Hit(L5.x14, 94) && Hit(L5.x15, 95)
  {}

  lemma LogRows3()
    ensures Hit(L6.x0, 96) && Hit(L6.x1, 97) && Hit(L6.x2, 98) && Hit(L6.x3, 99)
    ensures Hit(L6.x4, 100) && Hit(L6.x5, 101) && Hit(L6.x6, 102) && Hit(L6.x7, 103)
    ensures Hit(L6.x8, 104) && Hit(L6.x9, 105) && Hit(L6.x10, 106) && Hit(L6.x11, 107)
    ensures Hit(L6.x12, 108) && Hit(L6.x13, 109) && Hit(L6.x14, 110) && Hit(L6.x15, 111)
    ensures Hit(L7.x0, 112) && Hit(L7.x1, 113) && Hit(L7.x2, 114) && Hit(L7.x3, 115)
    ensures Hit(L7.x4, 116) && Hit(L7.x5, 117) && Hit(L7.x6, 118) && Hit(L7.x7, 119)
    ensures Hit(L7.x8, 120) && Hit(L7.x9, 121) && Hit(L7.x10, 122) && Hit(L7.x11, 123)
    ensures Hit(L7.x12, 124) && Hit(L7.x13, 125) && Hit(L7.x14, 126) && Hit(L7.x15, 127)
  {}

  lemma LogRows4()
    ensures Hit(L8.x0, 128) && Hit(L8.x1, 129) && Hit(L8.x2, 130) && Hit(L8.x3, 131)
    ensures Hit(L8.x4, 132) && Hit(L8.x5, 133) && Hit(L8.x6, 134) && Hit(L8.x7, 135)
    ensures Hit(L8.x8, 136) && Hit(L8.x9, 137) && Hit(L8.x10, 138) && Hit(L8.x11, 139)
    ensures Hit(L8.x12, 140) && Hit(L8.x13, 141) && Hit(L8.x14, 142) && Hit(L8.x15, 143)
    ensures Hit(L9.x0, 144) && Hit(L9.x1, 145) && Hit(L9.x2, 146) && Hit(L9.x3, 147)
    ensures Hit(L9.x4, 148) && Hit(L9.x5, 149) && Hit(L9.x6, 150) && Hit(L9.x7, 151)
    ensures Hit(L9.x8, 152) && Hit(L9.x9, 153) && Hit(L9.x10, 154) && Hit(L9.x11, 155)
    ensures Hit(L9.x12, 156) && Hit(L9.x13, 157) && Hit(L9.x14, 158) && Hit(L9.x15, 159)
  {}

  lemma LogRows5()
    ensures Hit(L10.x0, 160) && Hit(L10.x1, 161) && Hit(L10.x2, 162) && Hit(L10.x3, 163)
    ensures Hit(L10.x4, 164) && Hit(L10.x5, 165) && Hit(L10.x6, 166) && Hit(L10.x7, 167)
    ensures Hit(L10.x8, 168) && Hit(L10.x9, 169) && Hit(L10.x10, 170) && Hit(L10.x11, 171)
    ensures Hit(L10.x12, 172) && Hit(L10.x13, 173) && Hit(L10.x14, 174) && Hit(L10.x15, 175)
    ensures Hit(L11.x0, 176) && Hit(L11.x1, 177) && Hit(L11.x2, 178) && Hit(L11.x3, 179)
    ensures Hit(L11.x4, 180) && Hit(L11.x5, 181) && Hit(L11.x6, 182) && Hit(L11.x7, 183)
    ensures Hit(L11.x8, 184) && Hit(L11.x9, 185) && Hit(L11.x10, 186) && Hit(L11.x11, 187)
    ensures Hit(L11.x12, 188) && Hit(L11.x13, 189) && Hit(L11.x14, 190) && Hit(L11.x15, 191)
  {}

  lemma LogRows6()
    ensures Hit(L12.x0, 192) && Hit(L12.x1, 193) && Hit(L12.x2, 194) && Hit(L12.x3, 195)
    ensures Hit(L12.x4, 196) && Hit(L12.x5, 197) && Hit(L12.x6, 198) && Hit(L12.x7, 199)
    ensures Hit(L12.x8, 200) && Hit(L12.x9, 201) && Hit(L12.x10, 202) && Hit(L12.x11, 203)
    ensures Hit(L12.x12, 204) && Hit(L12.x13, 205) && Hit(L12.x14, 206) && Hit(L12.x15, 207)
    ensures Hit(L13.x0, 208) && Hit(L13.x1, 209) && Hit(L13.x2, 210) && Hit(L13.x3, 211)
    ensures Hit(L13.x4, 212) && Hit(L13.x5, 213) && Hit(L13.x6, 214) && Hit(L13.x7, 215)
    ensures Hit(L13.x8, 216) && Hit(L13.x9, 217) && Hit(L13.x10, 218) && Hit(L13.x11, 219)
    ensures Hit(L13.x12, 220) && Hit(L13.x13, 221) && Hit(L13.x14, 222) && Hit(L13.x15, 223)
  {}

  lemma LogRows7()
    ensures Hit(L14.x0, 224) && Hit(L14.x1, 225) && Hit(L14.x2, 226) && Hit(L14.x3, 227)
    ensures Hit(L14.x4, 228) && Hit(L14.x5, 229) && Hit(L14.x6, 230) && Hit(L14.x7, 231)
    ensures Hit(L14.x8, 232) && Hit(L14.x9, 233) && Hit(L14.x10, 234) && Hit(L14.x11, 235)
    ensures Hit(L14.x12, 236) && Hit(L14.x13, 237) && Hit(L14.x14, 238) && Hit(L14.x15, 239)
    ensures Hit(L15.x0, 240) && Hit(L15.x1, 241) && Hit(L15.x2, 242) && Hit(L15.x3, 243)
    ensures Hit(L15.x4, 244) && Hit(L15.x5, 245) && Hit(L15.x6, 246) && Hit(L15.x7, 247)
    ensures Hit(L15.x8, 248) && Hit(L15.x9, 249) && Hit(L15.x10, 250) && Hit(L15.x11, 251)
    ensures Hit(L15.x12, 252) && Hit(L15.x13, 253) && Hit(L15.x14, 254) && Hit(L15.x15, 255)
  {}

  lemma ExpRowOf(r: nat)
    requires r < 16
    ensures Doubles(ExpRow(r), ExpRow(r + 1))
  {
    hide Doubles, NoOne;
    match r {
      case 0 => ExpRows0(); case 1 => ExpRows0(); case 2 => ExpRows0(); case 3 => ExpRows0();
      case 4 => ExpRows1(); case 5 => ExpRows1(); case 6 => ExpRows1(); case 7 => ExpRows1();
      case 8 => ExpRows2(); case 9 => ExpRows2(); case 10 => ExpRows2(); case 11 => ExpRows2();
      case 12 => ExpRows3(); case 13 => ExpRows3(); case 14 => ExpRows3(); case _ => ExpRows3();
    }
  }

  lemma ExpRowOfHigh(r: nat)
    requires 16 <= r < 31
    ensures Doubles(ExpRow(r), ExpRow(r + 1))
  {
    hide Doubles, NoOne;
    match r {
      case 16 => ExpRows4(); case 17 => ExpRows4(); case 18 => ExpRows4(); case 19 => ExpRows4();
      case 20 => ExpRows5(); case 21 => ExpRows5(); case 22 => ExpRows5(); case 23 => ExpRows5();
      case 24 => ExpRows6(); case 25 => ExpRows6(); case 26 => ExpRows6(); case 27 => ExpRows6();
      case 28 => ExpRows7(); case 29 => ExpRows7(); case _ => ExpRows7();
    }
  }

  lemma OneOf(r: nat)
    requires r < 16
    ensures NoOne(ExpRow(r)) && (r > 0 ==> ExpRow(r).x0 != 1) && (ExpRow(r).x15 == 1 <==> r == 15)
  {
    hide Doubles, NoOne;
    match r {
      case 0 => ExpRows0(); case 1 => ExpRows0(); case 2 => ExpRows0(); case 3 => ExpRows0();
      case 4 => ExpRows1(); case 5 => ExpRows1(); case 6 => ExpRows1(); case 7 => ExpRows1();
      case 8 => ExpRows2(); case 9 => ExpRows2(); case 10 => ExpRows2(); case 11 => ExpRows2();
      case 12 => ExpRows3(); case 13 => ExpRows3(); case 14 => ExpRows3(); case _ => ExpRows3();
    }
  }

  lemma LogRowOf(r: nat)
    requires r < 16
    ensures Hits(LogRow(r), r) && (r > 0 ==> Hit(LogRow(r).x0, 16 * r))
  {
    hide Hit;
    match r {
      case 0 => LogRows0(); case 1 => LogRows0(); case 2 => LogRows1(); case 3 => LogRows1();
      case 4 => LogRows2(); case 5 => LogRows2(); case 6 => LogRows3(); case 7 => LogRows3();
      case 8 => LogRows4(); case 9 => LogRows4(); case 10 => LogRows5(); case 11 => LogRows5();
      case 12 => LogRows6(); case 13 => LogRows6(); case 14 => LogRows7(); case _ => LogRows7();
    }
  }

}
