/** The two tables of the sixteen bit checksums, row by row as the source lists them, and the
    computed facts about them: the first row and the first column are remainders, and every
    other entry is the sum of the two it stands under. */
module CrcTables {
  import opened Tables256

  /** One bit of the division, low bit first. */
  function StepLow(x: bv16): bv16 { if x & 1 == 1 then (x >> 1) ^ 0x8408 else x >> 1 }

  /** One bit of the division, high bit first. */
  function StepHigh(x: bv16): bv16 { if x & 0x8000 == 0x8000 then (x << 1) ^ 0x1021 else x << 1 }

  function EightLow(x: bv16): bv16 { StepLow(StepLow(StepLow(StepLow(StepLow(StepLow(StepLow(StepLow(x)))))))) }

  function EightHigh(x: bv16): bv16 {
    StepHigh(StepHigh(StepHigh(StepHigh(StepHigh(StepHigh(StepHigh(StepHigh(x))))))))
  }

  // CCITT16_TABLE1
  const LOW0: Row<bv16> := Row(0x0000, 0x1189, 0x2312, 0x329b, 0x4624, 0x57ad, 0x6536, 0x74bf,
    0x8c48, 0x9dc1, 0xaf5a, 0xbed3, 0xca6c, 0xdbe5, 0xe97e, 0xf8f7)
  const LOW1: Row<bv16> := Row(0x1081, 0x0108, 0x3393, 0x221a, 0x56a5, 0x472c, 0x75b7, 0x643e,
    0x9cc9, 0x8d40, 0xbfdb, 0xae52, 0xdaed, 0xcb64, 0xf9ff, 0xe876)
  const LOW2: Row<bv16> := Row(0x2102, 0x308b, 0x0210, 0x1399, 0x6726, 0x76af, 0x4434, 0x55bd,
    0xad4a, 0xbcc3, 0x8e58, 0x9fd1, 0xeb6e, 0xfae7, 0xc87c, 0xd9f5)
  const LOW3: Row<bv16> := Row(0x3183, 0x200a, 0x1291, 0x0318, 0x77a7, 0x662e, 0x54b5, 0x453c,
    0xbdcb, 0xac42, 0x9ed9, 0x8f50, 0xfbef, 0xea66, 0xd8fd, 0xc974)
  const LOW4: Row<bv16> := Row(0x4204, 0x538d, 0x6116, 0x709f, 0x0420, 0x15a9, 0x2732, 0x36bb,
    0xce4c, 0xdfc5, 0xed5e, 0xfcd7, 0x8868, 0x99e1, 0xab7a, 0xbaf3)
  const LOW5: Row<bv16> := Row(0x5285, 0x430c, 0x7197, 0x601e, 0x14a1, 0x0528, 0x37b3, 0x263a,
    0xdecd, 0xcf44, 0xfddf, 0xec56, 0x98e9, 0x8960, 0xbbfb, 0xaa72)
  const LOW6: Row<bv16> := Row(0x6306, 0x728f, 0x4014, 0x519d, 0x2522, 0x34ab, 0x0630, 0x17b9,
    0xef4e, 0xfec7, 0xcc5c, 0xddd5, 0xa96a, 0xb8e3, 0x8a78, 0x9bf1)
  const LOW7: Row<bv16> := Row(0x7387, 0x620e, 0x5095, 0x411c, 0x35a3, 0x242a, 0x16b1, 0x0738,
    0xffcf, 0xee46, 0xdcdd, 0xcd54, 0xb9eb, 0xa862, 0x9af9, 0x8b70)
  const LOW8: Row<bv16> := Row(0x8408, 0x9581, 0xa71a, 0xb693, 0xc22c, 0xd3a5, 0xe13e, 0xf0b7,
    0x0840, 0x19c9, 0x2b52, 0x3adb, 0x4e64, 0x5fed, 0x6d76, 0x7cff)
  const LOW9: Row<bv16> := Row(0x9489, 0x8500, 0xb79b, 0xa612, 0xd2ad, 0xc324, 0xf1bf, 0xe036,
    0x18c1, 0x0948, 0x3bd3, 0x2a5a, 0x5ee5, 0x4f6c, 0x7df7, 0x6c7e)
  const LOW10: Row<bv16> := Row(0xa50a, 0xb483, 0x8618, 0x9791, 0xe32e, 0xf2a7, 0xc03c, 0xd1b5,
    0x2942, 0x38cb, 0x0a50, 0x1bd9, 0x6f66, 0x7eef, 0x4c74, 0x5dfd)
  const LOW11: Row<bv16> := Row(0xb58b, 0xa402, 0x9699, 0x8710, 0xf3af, 0xe226, 0xd0bd, 0xc134,
    0x39c3, 0x284a, 0x1ad1, 0x0b58, 0x7fe7, 0x6e6e, 0x5cf5, 0x4d7c)
  const LOW12: Row<bv16> := Row(0xc60c, 0xd785, 0xe51e, 0xf497, 0x8028, 0x91a1, 0xa33a, 0xb2b3,
    0x4a44, 0x5bcd, 0x6956, 0x78df, 0x0c60, 0x1de9, 0x2f72, 0x3efb)
  const LOW13: Row<bv16> := Row(0xd68d, 0xc704, 0xf59f, 0xe416, 0x90a9, 0x8120, 0xb3bb, 0xa232,
    0x5ac5, 0x4b4c, 0x79d7, 0x685e, 0x1ce1, 0x0d68, 0x3ff3, 0x2e7a)
  const LOW14: Row<bv16> := Row(0xe70e, 0xf687, 0xc41c, 0xd595, 0xa12a, 0xb0a3, 0x8238, 0x93b1,
    0x6b46, 0x7acf, 0x4854, 0x59dd, 0x2d62, 0x3ceb, 0x0e70, 0x1ff9)
  const LOW15: Row<bv16> := Row(0xf78f, 0xe606, 0xd49d, 0xc514, 0xb1ab, 0xa022, 0x92b9, 0x8330,
    0x7bc7, 0x6a4e, 0x58d5, 0x495c, 0x3de3, 0x2c6a, 0x1ef1, 0x0f78)

  // CCITT16_TABLE2
  const HIGH0: Row<bv16> := Row(0x0000, 0x1021, 0x2042, 0x3063, 0x4084, 0x50a5, 0x60c6, 0x70e7,
    0x8108, 0x9129, 0xa14a, 0xb16b, 0xc18c, 0xd1ad, 0xe1ce, 0xf1ef)
  const HIGH1: Row<bv16> := Row(0x1231, 0x0210, 0x3273, 0x2252, 0x52b5, 0x4294, 0x72f7, 0x62d6,
    0x9339, 0x8318, 0xb37b, 0xa35a, 0xd3bd, 0xc39c, 0xf3ff, 0xe3de)
  const HIGH2: Row<bv16> := Row(0x2462, 0x3443, 0x0420, 0x1401, 0x64e6, 0x74c7, 0x44a4, 0x5485,
    0xa56a, 0xb54b, 0x8528, 0x9509, 0xe5ee, 0xf5cf, 0xc5ac, 0xd58d)
  const HIGH3: Row<bv16> := Row(0x3653, 0x2672, 0x1611, 0x0630, 0x76d7, 0x66f6, 0x5695, 0x46b4,
    0xb75b, 0xa77a, 0x9719, 0x8738, 0xf7df, 0xe7fe, 0xd79d, 0xc7bc)
  const HIGH4: Row<bv16> := Row(0x48c4, 0x58e5, 0x6886, 0x78a7, 0x0840, 0x1861, 0x2802, 0x3823,
    0xc9cc, 0xd9ed, 0xe98e, 0xf9af, 0x8948, 0x9969, 0xa90a, 0xb92b)
  const HIGH5: Row<bv16> := Row(0x5af5, 0x4ad4, 0x7ab7, 0x6a96, 0x1a71, 0x0a50, 0x3a33, 0x2a12,
    0xdbfd, 0xcbdc, 0xfbbf, 0xeb9e, 0x9b79, 0x8b58, 0xbb3b, 0xab1a)
  const HIGH6: Row<bv16> := Row(0x6ca6, 0x7c87, 0x4ce4, 0x5cc5, 0x2c22, 0x3c03, 0x0c60, 0x1c41,
    0xedae, 0xfd8f, 0xcdec, 0xddcd, 0xad2a, 0xbd0b, 0x8d68, 0x9d49)
  const HIGH7: Row<bv16> := Row(0x7e97, 0x6eb6, 0x5ed5, 0x4ef4, 0x3e13, 0x2e32, 0x1e51, 0x0e70,
    0xff9f, 0xefbe, 0xdfdd, 0xcffc, 0xbf1b, 0xaf3a, 0x9f59, 0x8f78)
  const HIGH8: Row<bv16> := Row(0x9188, 0x81a9, 0xb1ca, 0xa1eb, 0xd10c, 0xc12d, 0xf14e, 0xe16f,
    0x1080, 0x00a1, 0x30c2, 0x20e3, 0x5004, 0x4025, 0x7046, 0x6067)
  const HIGH9: Row<bv16> := Row(0x83b9, 0x9398, 0xa3fb, 0xb3da, 0xc33d, 0xd31c, 0xe37f, 0xf35e,
    0x02b1, 0x1290, 0x22f3, 0x32d2, 0x4235, 0x5214, 0x6277, 0x7256)
  const HIGH10: Row<bv16> := Row(0xb5ea, 0xa5cb, 0x95a8, 0x8589, 0xf56e, 0xe54f, 0xd52c, 0xc50d,
    0x34e2, 0x24c3, 0x14a0, 0x0481, 0x7466, 0x6447, 0x5424, 0x4405)
  const HIGH11: Row<bv16> := Row(0xa7db, 0xb7fa, 0x8799, 0x97b8, 0xe75f, 0xf77e, 0xc71d, 0xd73c,
    0x26d3, 0x36f2, 0x0691, 0x16b0, 0x6657, 0x7676, 0x4615, 0x5634)
  const HIGH12: Row<bv16> := Row(0xd94c, 0xc96d, 0xf90e, 0xe92f, 0x99c8, 0x89e9, 0xb98a, 0xa9ab,
    0x5844, 0x4865, 0x7806, 0x6827, 0x18c0, 0x08e1, 0x3882, 0x28a3)
  const HIGH13: Row<bv16> := Row(0xcb7d, 0xdb5c, 0xeb3f, 0xfb1e, 0x8bf9, 0x9bd8, 0xabbb, 0xbb9a,
    0x4a75, 0x5a54, 0x6a37, 0x7a16, 0x0af1, 0x1ad0, 0x2ab3, 0x3a92)
  const HIGH14: Row<bv16> := Row(0xfd2e, 0xed0f, 0xdd6c, 0xcd4d, 0xbdaa, 0xad8b, 0x9de8, 0x8dc9,
    0x7c26, 0x6c07, 0x5c64, 0x4c45, 0x3ca2, 0x2c83, 0x1ce0, 0x0cc1)
  const HIGH15: Row<bv16> := Row(0xef1f, 0xff3e, 0xcf5d, 0xdf7c, 0xaf9b, 0xbfba, 0x8fd9, 0x9ff8,
    0x6e17, 0x7e36, 0x4e55, 0x5e74, 0x2e93, 0x3eb2, 0x0ed1, 0x1ef0)

  function LowRow(h: bv8): Row<bv16> {
    if h == 0 then LOW0 else if h == 1 then LOW1 else if h == 2 then LOW2 else if h == 3 then LOW3 else
    if h == 4 then LOW4 else if h == 5 then LOW5 else if h == 6 then LOW6 else if h == 7 then LOW7 else
    if h == 8 then LOW8 else if h == 9 then LOW9 else if h == 10 then LOW10 else if h == 11 then LOW11 else
    if h == 12 then LOW12 else if h == 13 then LOW13 else if h == 14 then LOW14 else LOW15
  }

  function HighRow(h: bv8): Row<bv16> {
    if h == 0 then HIGH0 else if h == 1 then HIGH1 else if h == 2 then HIGH2 else if h == 3 then HIGH3 else
    if h == 4 then HIGH4 else if h == 5 then HIGH5 else if h == 6 then HIGH6 else if h == 7 then HIGH7 else
    if h == 8 then HIGH8 else if h == 9 then HIGH9 else if h == 10 then HIGH10 else if h == 11 then HIGH11 else
    if h == 12 then HIGH12 else if h == 13 then HIGH13 else if h == 14 then HIGH14 else HIGH15
  }

  function Entry(r: Row<bv16>, l: bv8): bv16 {
    if l == 0 then r.x0 else if l == 1 then r.x1 else if l == 2 then r.x2 else if l == 3 then r.x3 else
    if l == 4 then r.x4 else if l == 5 then r.x5 else if l == 6 then r.x6 else if l == 7 then r.x7 else
    if l == 8 then r.x8 else if l == 9 then r.x9 else if l == 10 then r.x10 else if l == 11 then r.x11 else
    if l == 12 then r.x12 else if l == 13 then r.x13 else if l == 14 then r.x14 else r.x15
  }

  function LowTable(b: bv8): bv16 { Entry(LowRow(b >> 4), b & 15) }

  function HighTable(b: bv8): bv16 { Entry(HighRow(b >> 4), b & 15) }

  function Plus(a: bv16, b: bv16): bv16 { a ^ b }

  /** Every entry is the row's first plus the first row's. */
  predicate Spread(r: Row<bv16>, z: Row<bv16>) {
    && r.x0 == Plus(r.x0, z.x0)
    && r.x1 == Plus(r.x0, z.x1)
    && r.x2 == Plus(r.x0, z.x2)
    && r.x3 == Plus(r.x0, z.x3)
    && r.x4 == Plus(r.x0, z.x4)
    && r.x5 == Plus(r.x0, z.x5)
    && r.x6 == Plus(r.x0, z.x6)
    && r.x7 == Plus(r.x0, z.x7)
    && r.x8 == Plus(r.x0, z.x8)
    && r.x9 == Plus(r.x0, z.x9)
    && r.x10 == Plus(r.x0, z.x10)
    && r.x11 == Plus(r.x0, z.x11)
    && r.x12 == Plus(r.x0, z.x12)
    && r.x13 == Plus(r.x0, z.x13)
    && r.x14 == Plus(r.x0, z.x14)
    && r.x15 == Plus(r.x0, z.x15)
  }

  lemma LowSpread0()
    ensures Spread(LOW0, LOW0) && Spread(LOW1, LOW0) && Spread(LOW2, LOW0) && Spread(LOW3, LOW0)
  {}

  lemma LowSpread1()
    ensures Spread(LOW4, LOW0) && Spread(LOW5, LOW0) && Spread(LOW6, LOW0) && Spread(LOW7, LOW0)
  {}

  lemma LowSpread2()
    ensures Spread(LOW8, LOW0) && Spread(LOW9, LOW0) && Spread(LOW10, LOW0) && Spread(LOW11, LOW0)
  {}

  lemma LowSpread3()
    ensures Spread(LOW12, LOW0) && Spread(LOW13, LOW0) && Spread(LOW14, LOW0) && Spread(LOW15, LOW0)
  {}

  lemma LowSpread()
    ensures Spread(LOW0, LOW0) && Spread(LOW1, LOW0) && Spread(LOW2, LOW0) && Spread(LOW3, LOW0)
    ensures Spread(LOW4, LOW0) && Spread(LOW5, LOW0) && Spread(LOW6, LOW0) && Spread(LOW7, LOW0)
    ensures Spread(LOW8, LOW0) && Spread(LOW9, LOW0) && Spread(LOW10, LOW0) && Spread(LOW11, LOW0)
    ensures Spread(LOW12, LOW0) && Spread(LOW13, LOW0) && Spread(LOW14, LOW0) && Spread(LOW15, LOW0)
  {
    hide Spread;
    LowSpread0();
    LowSpread1();
    LowSpread2();
    LowSpread3();
  }

  lemma HighSpread0()
    ensures Spread(HIGH0, HIGH0) && Spread(HIGH1, HIGH0) && Spread(HIGH2, HIGH0) && Spread(HIGH3, HIGH0)
  {}

  lemma HighSpread1()
    ensures Spread(HIGH4, HIGH0) && Spread(HIGH5, HIGH0) && Spread(HIGH6, HIGH0) && Spread(HIGH7, HIGH0)
  {}

  lemma HighSpread2()
    ensures Spread(HIGH8, HIGH0) && Spread(HIGH9, HIGH0) && Spread(HIGH10, HIGH0) && Spread(HIGH11, HIGH0)
  {}

  lemma HighSpread3()
    ensures Spread(HIGH12, HIGH0) && Spread(HIGH13, HIGH0) && Spread(HIGH14, HIGH0) && Spread(HIGH15, HIGH0)
  {}

  lemma HighSpread()
    ensures Spread(HIGH0, HIGH0) && Spread(HIGH1, HIGH0) && Spread(HIGH2, HIGH0) && Spread(HIGH3, HIGH0)
    ensures Spread(HIGH4, HIGH0) && Spread(HIGH5, HIGH0) && Spread(HIGH6, HIGH0) && Spread(HIGH7, HIGH0)
    ensures Spread(HIGH8, HIGH0) && Spread(HIGH9, HIGH0) && Spread(HIGH10, HIGH0) && Spread(HIGH11, HIGH0)
    ensures Spread(HIGH12, HIGH0) && Spread(HIGH13, HIGH0) && Spread(HIGH14, HIGH0) && Spread(HIGH15, HIGH0)
  {
    hide Spread;
    HighSpread0();
    HighSpread1();
    HighSpread2();
    HighSpread3();
  }

  lemma LowFirstRow()
    ensures LOW0.x0 == EightLow(0x0000) && LOW0.x1 == EightLow(0x0001) && LOW0.x2 == EightLow(0x0002)
    ensures LOW0.x3 == EightLow(0x0003)
    ensures LOW0.x4 == EightLow(0x0004) && LOW0.x5 == EightLow(0x0005) && LOW0.x6 == EightLow(0x0006)
    ensures LOW0.x7 == EightLow(0x0007)
    ensures LOW0.x8 == EightLow(0x0008) && LOW0.x9 == EightLow(0x0009) && LOW0.x10 == EightLow(0x000a)
    ensures LOW0.x11 == EightLow(0x000b)
    ensures LOW0.x12 == EightLow(0x000c) && LOW0.x13 == EightLow(0x000d) && LOW0.x14 == EightLow(0x000e)
    ensures LOW0.x15 == EightLow(0x000f)
  {}

  lemma LowFirstColumn()
    ensures LOW0.x0 == EightLow(0x0000) && LOW1.x0 == EightLow(0x0010) && LOW2.x0 == EightLow(0x0020)
    ensures LOW3.x0 == EightLow(0x0030)
    ensures LOW4.x0 == EightLow(0x0040) && LOW5.x0 == EightLow(0x0050) && LOW6.x0 == EightLow(0x0060)
    ensures LOW7.x0 == EightLow(0x0070)
    ensures LOW8.x0 == EightLow(0x0080) && LOW9.x0 == EightLow(0x0090) && LOW10.x0 == EightLow(0x00a0)
    ensures LOW11.x0 == EightLow(0x00b0)
    ensures LOW12.x0 == EightLow(0x00c0) && LOW13.x0 == EightLow(0x00d0) && LOW14.x0 == EightLow(0x00e0)
    ensures LOW15.x0 == EightLow(0x00f0)
  {}

  lemma HighFirstRow()
    ensures HIGH0.x0 == EightHigh(0x0000) && HIGH0.x1 == EightHigh(0x0100) && HIGH0.x2 == EightHigh(0x0200)
    ensures HIGH0.x3 == EightHigh(0x0300)
    ensures HIGH0.x4 == EightHigh(0x0400) && HIGH0.x5 == EightHigh(0x0500) && HIGH0.x6 == EightHigh(0x0600)
    ensures HIGH0.x7 == EightHigh(0x0700)
    ensures HIGH0.x8 == EightHigh(0x0800) && HIGH0.x9 == EightHigh(0x0900) && HIGH0.x10 == EightHigh(0x0a00)
    ensures HIGH0.x11 == EightHigh(0x0b00)
    ensures HIGH0.x12 == EightHigh(0x0c00) && HIGH0.x13 == EightHigh(0x0d00) && HIGH0.x14 == EightHigh(0x0e00)
    ensures HIGH0.x15 == EightHigh(0x0f00)
  {}

  lemma HighFirstColumn()
    ensures HIGH0.x0 == EightHigh(0x0000) && HIGH1.x0 == EightHigh(0x1000) && HIGH2.x0 == EightHigh(0x2000)
    ensures HIGH3.x0 == EightHigh(0x3000)
    ensures HIGH4.x0 == EightHigh(0x4000) && HIGH5.x0 == EightHigh(0x5000) && HIGH6.x0 == EightHigh(0x6000)
    ensures HIGH7.x0 == EightHigh(0x7000)
    ensures HIGH8.x0 == EightHigh(0x8000) && HIGH9.x0 == EightHigh(0x9000) && HIGH10.x0 == EightHigh(0xa000)
    ensures HIGH11.x0 == EightHigh(0xb000)
    ensures HIGH12.x0 == EightHigh(0xc000) && HIGH13.x0 == EightHigh(0xd000) && HIGH14.x0 == EightHigh(0xe000)
    ensures HIGH15.x0 == EightHigh(0xf000)
  {}

  lemma EntrySpread(r: Row<bv16>, z: Row<bv16>, l: bv8)
    requires Spread(r, z) && l < 16
    ensures Entry(r, l) == Plus(r.x0, Entry(z, l))
  {
    hide *;
    if l < 8 { EntrySpreadLow(r, z, l); } else { EntrySpreadHigh(r, z, l); }
  }

  lemma EntrySpreadLow(r: Row<bv16>, z: Row<bv16>, l: bv8)
    requires Spread(r, z) && l < 8
    ensures Entry(r, l) == Plus(r.x0, Entry(z, l))
  {
    hide Plus;
  }

  lemma EntrySpreadHigh(r: Row<bv16>, z: Row<bv16>, l: bv8)
    requires Spread(r, z) && 8 <= l < 16
    ensures Entry(r, l) == Plus(r.x0, Entry(z, l))
  {
    hide Plus;
  }

  lemma LowRowIs(h: bv8)
    requires h < 16
    ensures Spread(LowRow(h), LOW0) && LowRow(h).x0 == EightLow(((h << 4) as bv16))
  {
    hide Spread, EightLow;
    LowSpread();
    LowFirstColumn();
  }

  lemma LowEntryIs(l: bv8)
    requires l < 16
    ensures Entry(LOW0, l) == EightLow((l as bv16))
  {
    hide EightLow;
    LowFirstRow();
  }

  lemma HighRowIs(h: bv8)
    requires h < 16
    ensures Spread(HighRow(h), HIGH0) && HighRow(h).x0 == EightHigh(((h << 4) as bv16) << 8)
  {
    hide Spread, EightHigh;
    HighSpread();
    HighFirstColumn();
  }

  lemma HighEntryIs(l: bv8)
    requires l < 16
    ensures Entry(HIGH0, l) == EightHigh((l as bv16) << 8)
  {
    hide EightHigh;
    HighFirstRow();
  }
}
