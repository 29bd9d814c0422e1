// The checksum of memory headers: the table-driven CRC-32 against the bit-at-a-time
// definition of section 8 of RFC 1952, and the changes it is bound to detect.
module Crc32 {
  const POLYNOMIAL: bv32 := 0xEDB8_8320
  const ALL_ONES: bv32 := 0xFFFF_FFFF

  function Xor(a: bv32, b: bv32): bv32 { a ^ b }
  function Half(a: bv32): bv32 { a >> 1 }
  predicate Odd(a: bv32) { a & 1 == 1 }

  // One step of the reflected shift register.
  function Step(x: bv32): bv32 {
    if Odd(x) then Xor(POLYNOMIAL, Half(x)) else Half(x)
  }

  // The eight steps for one byte.
  function Step8(x: bv32): bv32 {
    Step(Step(Step(Step(Step(Step(Step(Step(x))))))))
  }

  // ---- Algebra of the register ----

  lemma XorAssoc(a: bv32, b: bv32, c: bv32)
    ensures Xor(Xor(a, b), c) == Xor(a, Xor(b, c))
  {
  }

  lemma XorComm(a: bv32, b: bv32)
    ensures Xor(a, b) == Xor(b, a)
  {
  }

  lemma XorSelf(a: bv32, b: bv32)
    ensures Xor(a, Xor(a, b)) == b
  {
  }

  lemma HalfXor(a: bv32, b: bv32)
    ensures Half(Xor(a, b)) == Xor(Half(a), Half(b))
    ensures Odd(Xor(a, b)) <==> Odd(a) != Odd(b)
  {
  }

  // A step is linear ...
  lemma StepXor(x: bv32, y: bv32)
    ensures Step(Xor(x, y)) == Xor(Step(x), Step(y))
  {
    hide Xor, Half, Odd;
    HalfXor(x, y);
    var p, a, b := POLYNOMIAL, Half(x), Half(y);
    XorAssoc(p, a, b);
    XorAssoc(a, p, b);
    XorComm(a, p);
    XorAssoc(p, a, Xor(p, b));
    XorSelf(p, Xor(a, b));
  }

  // ... and can be undone: the top bit tells whether the polynomial was added.
  lemma StepInjective(x: bv32, y: bv32)
    requires Step(x) == Step(y)
    ensures x == y
  {
  }

  lemma Step8Xor(x: bv32, y: bv32)
    ensures Step8(Xor(x, y)) == Xor(Step8(x), Step8(y))
  {
    hide Xor, Step;
    var x1, y1 := Step(x), Step(y);
    var x2, y2 := Step(x1), Step(y1);
    var x3, y3 := Step(x2), Step(y2);
    var x4, y4 := Step(x3), Step(y3);
    var x5, y5 := Step(x4), Step(y4);
    var x6, y6 := Step(x5), Step(y5);
    var x7, y7 := Step(x6), Step(y6);
    StepXor(x, y);
    StepXor(x1, y1);
    StepXor(x2, y2);
    StepXor(x3, y3);
    StepXor(x4, y4);
    StepXor(x5, y5);
    StepXor(x6, y6);
    StepXor(x7, y7);
  }

  lemma Step8Injective(x: bv32, y: bv32)
    requires Step8(x) == Step8(y)
    ensures x == y
  {
    hide Xor, Step;
    var x1, y1 := Step(x), Step(y);
    var x2, y2 := Step(x1), Step(y1);
    var x3, y3 := Step(x2), Step(y2);
    var x4, y4 := Step(x3), Step(y3);
    var x5, y5 := Step(x4), Step(y4);
    var x6, y6 := Step(x5), Step(y5);
    var x7, y7 := Step(x6), Step(y6);
    StepInjective(x7, y7);
    StepInjective(x6, y6);
    StepInjective(x5, y5);
    StepInjective(x4, y4);
    StepInjective(x3, y3);
    StepInjective(x2, y2);
    StepInjective(x1, y1);
    StepInjective(x, y);
  }

  // Zeros are shifted out.
  lemma Step8Zeros(x: bv32)
    requires x & 0xFF == 0
    ensures Step8(x) == x >> 8
  {
  }

  // ---- The table ----

  const ROW_0: seq<bv32> := [
    0x0000_0000, 0x7707_3096, 0xEE0E_612C, 0x9909_51BA,
    0x076D_C419, 0x706A_F48F, 0xE963_A535, 0x9E64_95A3,
    0x0EDB_8832, 0x79DC_B8A4, 0xE0D5_E91E, 0x97D2_D988,
    0x09B6_4C2B, 0x7EB1_7CBD, 0xE7B8_2D07, 0x90BF_1D91
  ]

  const ROW_1: seq<bv32> := [
    0x1DB7_1064, 0x6AB0_20F2, 0xF3B9_7148, 0x84BE_41DE,
    0x1ADA_D47D, 0x6DDD_E4EB, 0xF4D4_B551, 0x83D3_85C7,
    0x136C_9856, 0x646B_A8C0, 0xFD62_F97A, 0x8A65_C9EC,
    0x1401_5C4F, 0x6306_6CD9, 0xFA0F_3D63, 0x8D08_0DF5
  ]

  const ROW_2: seq<bv32> := [
    0x3B6E_20C8, 0x4C69_105E, 0xD560_41E4, 0xA267_7172,
    0x3C03_E4D1, 0x4B04_D447, 0xD20D_85FD, 0xA50A_B56B,
    0x35B5_A8FA, 0x42B2_986C, 0xDBBB_C9D6, 0xACBC_F940,
    0x32D8_6CE3, 0x45DF_5C75, 0xDCD6_0DCF, 0xABD1_3D59
  ]

  const ROW_3: seq<bv32> := [
    0x26D9_30AC, 0x51DE_003A, 0xC8D7_5180, 0xBFD0_6116,
    0x21B4_F4B5, 0x56B3_C423, 0xCFBA_9599, 0xB8BD_A50F,
    0x2802_B89E, 0x5F05_8808, 0xC60C_D9B2, 0xB10B_E924,
    0x2F6F_7C87, 0x5868_4C11, 0xC161_1DAB, 0xB666_2D3D
  ]

  const ROW_4: seq<bv32> := [
    0x76DC_4190, 0x01DB_7106, 0x98D2_20BC, 0xEFD5_102A,
    0x71B1_8589, 0x06B6_B51F, 0x9FBF_E4A5, 0xE8B8_D433,
    0x7807_C9A2, 0x0F00_F934, 0x9609_A88E, 0xE10E_9818,
    0x7F6A_0DBB, 0x086D_3D2D, 0x9164_6C97, 0xE663_5C01
  ]

  const ROW_5: seq<bv32> := [
    0x6B6B_51F4, 0x1C6C_6162, 0x8565_30D8, 0xF262_004E,
    0x6C06_95ED, 0x1B01_A57B, 0x8208_F4C1, 0xF50F_C457,
    0x65B0_D9C6, 0x12B7_E950, 0x8BBE_B8EA, 0xFCB9_887C,
    0x62DD_1DDF, 0x15DA_2D49, 0x8CD3_7CF3, 0xFBD4_4C65
  ]

  const ROW_6: seq<bv32> := [
    0x4DB2_6158, 0x3AB5_51CE, 0xA3BC_0074, 0xD4BB_30E2,
    0x4ADF_A541, 0x3DD8_95D7, 0xA4D1_C46D, 0xD3D6_F4FB,
    0x4369_E96A, 0x346E_D9FC, 0xAD67_8846, 0xDA60_B8D0,
    0x4404_2D73, 0x3303_1DE5, 0xAA0A_4C5F, 0xDD0D_7CC9
  ]

  const ROW_7: seq<bv32> := [
    0x5005_713C, 0x2702_41AA, 0xBE0B_1010, 0xC90C_2086,
    0x5768_B525, 0x206F_85B3, 0xB966_D409, 0xCE61_E49F,
    0x5EDE_F90E, 0x29D9_C998, 0xB0D0_9822, 0xC7D7_A8B4,
    0x59B3_3D17, 0x2EB4_0D81, 0xB7BD_5C3B, 0xC0BA_6CAD
  ]

  const ROW_8: seq<bv32> := [
    0xEDB8_8320, 0x9ABF_B3B6, 0x03B6_E20C, 0x74B1_D29A,
    0xEAD5_4739, 0x9DD2_77AF, 0x04DB_2615, 0x73DC_1683,
    0xE363_0B12, 0x9464_3B84, 0x0D6D_6A3E, 0x7A6A_5AA8,
    0xE40E_CF0B, 0x9309_FF9D, 0x0A00_AE27, 0x7D07_9EB1
  ]

  const ROW_9: seq<bv32> := [
    0xF00F_9344, 0x8708_A3D2, 0x1E01_F268, 0x6906_C2FE,
    0xF762_575D, 0x8065_67CB, 0x196C_3671, 0x6E6B_06E7,
    0xFED4_1B76, 0x89D3_2BE0, 0x10DA_7A5A, 0x67DD_4ACC,
    0xF9B9_DF6F, 0x8EBE_EFF9, 0x17B7_BE43, 0x60B0_8ED5
  ]

  const ROW_A: seq<bv32> := [
    0xD6D6_A3E8, 0xA1D1_937E, 0x38D8_C2C4, 0x4FDF_F252,
    0xD1BB_67F1, 0xA6BC_5767, 0x3FB5_06DD, 0x48B2_364B,
    0xD80D_2BDA, 0xAF0A_1B4C, 0x3603_4AF6, 0x4104_7A60,
    0xDF60_EFC3, 0xA867_DF55, 0x316E_8EEF, 0x4669_BE79
  ]

  const ROW_B: seq<bv32> := [
    0xCB61_B38C, 0xBC66_831A, 0x256F_D2A0, 0x5268_E236,
    0xCC0C_7795, 0xBB0B_4703, 0x2202_16B9, 0x5505_262F,
    0xC5BA_3BBE, 0xB2BD_0B28, 0x2BB4_5A92, 0x5CB3_6A04,
    0xC2D7_FFA7, 0xB5D0_CF31, 0x2CD9_9E8B, 0x5BDE_AE1D
  ]

  const ROW_C: seq<bv32> := [
    0x9B64_C2B0, 0xEC63_F226, 0x756A_A39C, 0x026D_930A,
    0x9C09_06A9, 0xEB0E_363F, 0x7207_6785, 0x0500_5713,
    0x95BF_4A82, 0xE2B8_7A14, 0x7BB1_2BAE, 0x0CB6_1B38,
    0x92D2_8E9B, 0xE5D5_BE0D, 0x7CDC_EFB7, 0x0BDB_DF21
  ]

  const ROW_D: seq<bv32> := [
    0x86D3_D2D4, 0xF1D4_E242, 0x68DD_B3F8, 0x1FDA_836E,
    0x81BE_16CD, 0xF6B9_265B, 0x6FB0_77E1, 0x18B7_4777,
    0x8808_5AE6, 0xFF0F_6A70, 0x6606_3BCA, 0x1101_0B5C,
    0x8F65_9EFF, 0xF862_AE69, 0x616B_FFD3, 0x166C_CF45
  ]

  const ROW_E: seq<bv32> := [
    0xA00A_E278, 0xD70D_D2EE, 0x4E04_8354, 0x3903_B3C2,
    0xA767_2661, 0xD060_16F7, 0x4969_474D, 0x3E6E_77DB,
    0xAED1_6A4A, 0xD9D6_5ADC, 0x40DF_0B66, 0x37D8_3BF0,
    0xA9BC_AE53, 0xDEBB_9EC5, 0x47B2_CF7F, 0x30B5_FFE9
  ]

  const ROW_F: seq<bv32> := [
    0xBDBD_F21C, 0xCABA_C28A, 0x53B3_9330, 0x24B4_A3A6,
    0xBAD0_3605, 0xCDD7_0693, 0x54DE_5729, 0x23D9_67BF,
    0xB366_7A2E, 0xC461_4AB8, 0x5D68_1B02, 0x2A6F_2B94,
    0xB40B_BE37, 0xC30C_8EA1, 0x5A05_DF1B, 0x2D02_EF8D
  ]

  const CRC_ROWS: seq<seq<bv32>> := [
    ROW_0, ROW_1, ROW_2, ROW_3, ROW_4, ROW_5, ROW_6, ROW_7, ROW_8, ROW_9, ROW_A, ROW_B, ROW_C, ROW_D, ROW_E, ROW_F
  ]

  // crc_table[i], the table taken as rows of sixteen.
  function Table(i: bv8): bv32 {
    Nibbles(i);
    CRC_ROWS[(i >> 4) as int][(i & 15) as int]
  }

  lemma Nibbles(i: bv8)
    ensures (i >> 4) as int < 16 && (i & 15) as int < 16
  {
  }

  function Join(base: bv32, lo: bv32): bv32 { base | lo }

  function RowOf(base: bv32): seq<bv32> {
    [ Step8(Join(base, 0)), Step8(Join(base, 1)), Step8(Join(base, 2)), Step8(Join(base, 3)),
      Step8(Join(base, 4)), Step8(Join(base, 5)), Step8(Join(base, 6)), Step8(Join(base, 7)),
      Step8(Join(base, 8)), Step8(Join(base, 9)), Step8(Join(base, 10)), Step8(Join(base, 11)),
      Step8(Join(base, 12)), Step8(Join(base, 13)), Step8(Join(base, 14)), Step8(Join(base, 15)) ]
  }

  // The table is linear, so that a few of its entries determine the others.
  lemma Disjoint(x: bv32, y: bv32)
    requires x & y == 0
    ensures Step8(x | y) == Xor(Step8(x), Step8(y))
  {
    OrXor(x, y);
    Step8Xor(x, y);
  }

  lemma OrXor(x: bv32, y: bv32)
    requires x & y == 0
    ensures x | y == Xor(x, y)
  {
  }

  lemma LowBits(base: bv32, lo: bv32)
    requires base & 15 == 0 && lo <= 15
    ensures base & lo == 0
  {
  }

  lemma LowEntry(base: bv32, lo: bv32)
    requires base & 15 == 0 && lo <= 15
    ensures Step8(Join(base, lo)) == Xor(Step8(base), Step8(lo))
  {
    hide Step8;
    LowBits(base, lo);
    Disjoint(base, lo);
  }

  lemma LowPowers()
    ensures Step8(0) == 0x0000_0000 && Step8(1) == 0x7707_3096 && Step8(2) == 0xEE0E_612C
    ensures Step8(4) == 0x076D_C419 && Step8(8) == 0x0EDB_8832
  {
  }

  lemma HighPowers()
    ensures Step8(0x10) == 0x1DB7_1064 && Step8(0x20) == 0x3B6E_20C8
    ensures Step8(0x40) == 0x76DC_4190 && Step8(0x80) == 0xEDB8_8320
  {
  }

  lemma CheckRow0()
    ensures ROW_0 == RowOf(0x00)
  {
    hide Step8;
    LowPowers();
    Disjoint(2, 1);
    Disjoint(4, 1);
    Disjoint(4, 2);
    Disjoint(4, 3);
    Disjoint(8, 1);
    Disjoint(8, 2);
    Disjoint(8, 3);
    Disjoint(8, 4);
    Disjoint(8, 5);
    Disjoint(8, 6);
    Disjoint(8, 7);
  }

  // The row behind an entry is row 0 with the entry added.
  function Added(c: bv32): seq<bv32> {
    [ Xor(c, Step8(0)), Xor(c, Step8(1)), Xor(c, Step8(2)), Xor(c, Step8(3)),
      Xor(c, Step8(4)), Xor(c, Step8(5)), Xor(c, Step8(6)), Xor(c, Step8(7)),
      Xor(c, Step8(8)), Xor(c, Step8(9)), Xor(c, Step8(10)), Xor(c, Step8(11)),
      Xor(c, Step8(12)), Xor(c, Step8(13)), Xor(c, Step8(14)), Xor(c, Step8(15)) ]
  }

  lemma RowAdded(base: bv32)
    requires base & 15 == 0
    ensures RowOf(base) == Added(Step8(base))
  {
    hide Step8, Xor, Join;
    LowEntry(base, 0);
    LowEntry(base, 1);
    LowEntry(base, 2);
    LowEntry(base, 3);
    LowEntry(base, 4);
    LowEntry(base, 5);
    LowEntry(base, 6);
    LowEntry(base, 7);
    LowEntry(base, 8);
    LowEntry(base, 9);
    LowEntry(base, 10);
    LowEntry(base, 11);
    LowEntry(base, 12);
    LowEntry(base, 13);
    LowEntry(base, 14);
    LowEntry(base, 15);
  }

  lemma CheckRow1()
    ensures ROW_1 == RowOf(0x10)
  {
    hide Step8;
    CheckRow0();
    HighPowers();
    RowAdded(0x10);
  }

  lemma CheckRow2()
    ensures ROW_2 == RowOf(0x20)
  {
    hide Step8;
    CheckRow0();
    HighPowers();
    RowAdded(0x20);
  }

  lemma CheckRow3()
    ensures ROW_3 == RowOf(0x30)
  {
    hide Step8;
    CheckRow0();
    HighPowers();
    Disjoint(0x20, 0x10);
    RowAdded(0x30);
  }

  lemma CheckRow4()
    ensures ROW_4 == RowOf(0x40)
  {
    hide Step8;
    CheckRow0();
    HighPowers();
    RowAdded(0x40);
  }

  lemma CheckRow5()
    ensures ROW_5 == RowOf(0x50)
  {
    hide Step8;
    CheckRow0();
    HighPowers();
    Disjoint(0x40, 0x10);
    RowAdded(0x50);
  }

  lemma CheckRow6()
    ensures ROW_6 == RowOf(0x60)
  {
    hide Step8;
    CheckRow0();
    HighPowers();
    Disjoint(0x40, 0x20);
    RowAdded(0x60);
  }

  lemma CheckRow7()
    ensures ROW_7 == RowOf(0x70)
  {
    hide Step8;
    CheckRow0();
    HighPowers();
    Disjoint(0x40, 0x20);
    Disjoint(0x60, 0x10);
    RowAdded(0x70);
  }

  lemma CheckRow8()
    ensures ROW_8 == RowOf(0x80)
  {
    hide Step8;
    CheckRow0();
    HighPowers();
    RowAdded(0x80);
  }

  lemma CheckRow9()
    ensures ROW_9 == RowOf(0x90)
  {
    hide Step8;
    CheckRow0();
    HighPowers();
    Disjoint(0x80, 0x10);
    RowAdded(0x90);
  }

  lemma CheckRowA()
    ensures ROW_A == RowOf(0xA0)
  {
    hide Step8;
    CheckRow0();
    HighPowers();
    Disjoint(0x80, 0x20);
    RowAdded(0xA0);
  }

  lemma CheckRowB()
    ensures ROW_B == RowOf(0xB0)
  {
    hide Step8;
    CheckRow0();
    HighPowers();
    Disjoint(0x80, 0x20);
    Disjoint(0xA0, 0x10);
    RowAdded(0xB0);
  }

  lemma CheckRowC()
    ensures ROW_C == RowOf(0xC0)
  {
    hide Step8;
    CheckRow0();
    HighPowers();
    Disjoint(0x80, 0x40);
    RowAdded(0xC0);
  }

  lemma CheckRowD()
    ensures ROW_D == RowOf(0xD0)
  {
    hide Step8;
    CheckRow0();
    HighPowers();
    Disjoint(0x80, 0x40);
    Disjoint(0xC0, 0x10);
    RowAdded(0xD0);
  }

  lemma CheckRowE()
    ensures ROW_E == RowOf(0xE0)
  {
    hide Step8;
    CheckRow0();
    HighPowers();
    Disjoint(0x80, 0x40);
    Disjoint(0xC0, 0x20);
    RowAdded(0xE0);
  }

  lemma CheckRowF()
    ensures ROW_F == RowOf(0xF0)
  {
    hide Step8;
    CheckRow0();
    HighPowers();
    Disjoint(0x80, 0x40);
    Disjoint(0xC0, 0x20);
    Disjoint(0xE0, 0x10);
    RowAdded(0xF0);
  }

  lemma RowEntry(base: bv32, lo: bv8)
    requires lo < 16
    ensures lo as int < 16
    ensures RowOf(base)[lo as int] == Step8(Join(base, lo as bv32))
  {
    hide Step8;
    if lo == 0 {
      assert lo as int == 0;
    } else if lo == 1 {
      assert lo as int == 1;
    } else if lo == 2 {
      assert lo as int == 2;
    } else if lo == 3 {
      assert lo as int == 3;
    } else if lo == 4 {
      assert lo as int == 4;
    } else if lo == 5 {
      assert lo as int == 5;
    } else if lo == 6 {
      assert lo as int == 6;
    } else if lo == 7 {
      assert lo as int == 7;
    } else if lo == 8 {
      assert lo as int == 8;
    } else if lo == 9 {
      assert lo as int == 9;
    } else if lo == 10 {
      assert lo as int == 10;
    } else if lo == 11 {
      assert lo as int == 11;
    } else if lo == 12 {
      assert lo as int == 12;
    } else if lo == 13 {
      assert lo as int == 13;
    } else if lo == 14 {
      assert lo as int == 14;
    } else if lo == 15 {
      assert lo as int == 15;
    }
  }

  lemma RowBase(hi: bv8)
    requires hi < 16
    ensures hi as int < 16
    ensures CRC_ROWS[hi as int] == RowOf((hi as bv32) << 4)
  {
    hide Step8, RowOf, Join;
    if hi == 0 {
      assert hi as int == 0;
      CheckRow0();
    } else if hi == 1 {
      assert hi as int == 1;
      CheckRow1();
    } else if hi == 2 {
      assert hi as int == 2;
      CheckRow2();
    } else if hi == 3 {
      assert hi as int == 3;
      CheckRow3();
    } else if hi == 4 {
      assert hi as int == 4;
      CheckRow4();
    } else if hi == 5 {
      assert hi as int == 5;
      CheckRow5();
    } else if hi == 6 {
      assert hi as int == 6;
      CheckRow6();
    } else if hi == 7 {
      assert hi as int == 7;
      CheckRow7();
    } else if hi == 8 {
      assert hi as int == 8;
      CheckRow8();
    } else if hi == 9 {
      assert hi as int == 9;
      CheckRow9();
    } else if hi == 10 {
      assert hi as int == 10;
      CheckRowA();
    } else if hi == 11 {
      assert hi as int == 11;
      CheckRowB();
    } else if hi == 12 {
      assert hi as int == 12;
      CheckRowC();
    } else if hi == 13 {
      assert hi as int == 13;
      CheckRowD();
    } else if hi == 14 {
      assert hi as int == 14;
      CheckRowE();
    } else if hi == 15 {
      assert hi as int == 15;
      CheckRowF();
    }
  }

  // The table holds the eight steps of its index.
  lemma TableRight(i: bv8)
    ensures Table(i) == Step8(i as bv32)
  {
    hide Step8, RowOf;
    RowBase(i >> 4);
    RowEntry(((i >> 4) as bv32) << 4, i & 15);
    Rejoin(i);
  }

  lemma Rejoin(i: bv8)
    ensures Join(((i >> 4) as bv32) << 4, (i & 15) as bv32) == i as bv32
  {
  }

  // ---- The checksum ----

  // The register after a buffer, bit by bit: the byte is added and shifted through.
  function Register(crc: bv32, buffer: seq<bv8>): bv32
    decreases |buffer|
  {
    if buffer == [] then crc
    else Register(Step8(Xor(crc, buffer[0] as bv32)), buffer[1..])
  }

  function Checksum(buffer: seq<bv8>): bv32 {
    Xor(Register(ALL_ONES, buffer), ALL_ONES)
  }

  // (crc >> 8) ^ crc_table[(uint8_t)crc ^ byte]
  function TableStep(crc: bv32, byte: bv8): bv32 {
    Xor(crc >> 8, Table(((crc & 0xFF) as bv8) ^ byte))
  }

  lemma TableStepRight(crc: bv32, byte: bv8)
    ensures TableStep(crc, byte) == Step8(Xor(crc, byte as bv32))
  {
    hide Step8, Table;
    var i := ((crc & 0xFF) as bv8) ^ byte;
    TableRight(i);
    var high := crc & 0xFFFF_FF00;
    SplitLow(crc, byte);
    Step8Xor(high, i as bv32);
    HighShift(crc);
  }

  lemma SplitLow(crc: bv32, byte: bv8)
    ensures Xor(crc & 0xFFFF_FF00, (((crc & 0xFF) as bv8) ^ byte) as bv32) == Xor(crc, byte as bv32)
  {
  }

  lemma HighShift(crc: bv32)
    ensures Step8(crc & 0xFFFF_FF00) == crc >> 8
  {
    hide Step8;
    HighZero(crc);
    Step8Zeros(crc & 0xFFFF_FF00);
  }

  lemma HighZero(crc: bv32)
    ensures (crc & 0xFFFF_FF00) & 0xFF == 0 && (crc & 0xFFFF_FF00) >> 8 == crc >> 8
  {
  }

  // s_crc32
  method SCrc32(buffer: seq<bv8>) returns (r: bv32)
    ensures r == Checksum(buffer)
  {
    hide Step8, Xor, Table;
    var crc := ALL_ONES;
    for i := 0 to |buffer|
      invariant Register(crc, buffer[i..]) == Register(ALL_ONES, buffer)
    {
      TableStepRight(crc, buffer[i]);
      assert buffer[i..][1..] == buffer[i + 1..];
      crc := Xor(crc >> 8, Table(((crc & 0xFF) as bv8) ^ buffer[i]));
    }
    r := Xor(crc, ALL_ONES);
  }

  // One byte of a run of the register, from the register and the byte to the register behind it.
  lemma NextRegister(crc: bv32, byte: bv8, rest: seq<bv8>, next: bv32)
    requires Step8(Xor(crc, byte as bv32)) == next
    ensures Register(crc, [byte] + rest) == Register(next, rest)
  {
    hide Step8, Xor;
    assert ([byte] + rest)[1..] == rest;
  }

  // The register over the nine digits "123456789".
  lemma FirstDigits()
    ensures Step8(Xor(0xFFFF_FFFF, 0x31)) == 0x7C23_1048
    ensures Step8(Xor(0x7C23_1048, 0x32)) == 0xB0AC_BB32
    ensures Step8(Xor(0xB0AC_BB32, 0x33)) == 0x77B7_9C2D
  {
  }

  lemma MiddleDigits()
    ensures Step8(Xor(0x77B7_9C2D, 0x34)) == 0x641C_1F5C
    ensures Step8(Xor(0x641C_1F5C, 0x35)) == 0x340A_C5E3
    ensures Step8(Xor(0x340A_C5E3, 0x36)) == 0xF68D_2C9E
  {
  }

  lemma LastDigits()
    ensures Step8(Xor(0xF68D_2C9E, 0x37)) == 0xAFFC_9660
    ensures Step8(Xor(0xAFFC_9660, 0x38)) == 0x651F_2550
    ensures Step8(Xor(0x651F_2550, 0x39)) == 0x340B_C6D9
  {
  }

  lemma NoRegister(crc: bv32)
    ensures Register(crc, []) == crc
  {
  }

  // The check value of CRC-32, and the checksum of nothing.
  lemma CheckValue()
    ensures Checksum([0x31, 0x32, 0x33, 0x34, 0x35, 0x36, 0x37, 0x38, 0x39]) == 0xCBF4_3926
    ensures Checksum([]) == 0
  {
    FirstDigits();
    MiddleDigits();
    LastDigits();
    hide Step8, Register;
    NextRegister(0xFFFF_FFFF, 0x31, [0x32, 0x33, 0x34, 0x35, 0x36, 0x37, 0x38, 0x39], 0x7C23_1048);
    NextRegister(0x7C23_1048, 0x32, [0x33, 0x34, 0x35, 0x36, 0x37, 0x38, 0x39], 0xB0AC_BB32);
    NextRegister(0xB0AC_BB32, 0x33, [0x34, 0x35, 0x36, 0x37, 0x38, 0x39], 0x77B7_9C2D);
    NextRegister(0x77B7_9C2D, 0x34, [0x35, 0x36, 0x37, 0x38, 0x39], 0x641C_1F5C);
    NextRegister(0x641C_1F5C, 0x35, [0x36, 0x37, 0x38, 0x39], 0x340A_C5E3);
    NextRegister(0x340A_C5E3, 0x36, [0x37, 0x38, 0x39], 0xF68D_2C9E);
    NextRegister(0xF68D_2C9E, 0x37, [0x38, 0x39], 0xAFFC_9660);
    NextRegister(0xAFFC_9660, 0x38, [0x39], 0x651F_2550);
    NextRegister(0x651F_2550, 0x39, [], 0x340B_C6D9);
    assert [0x31 as bv8] + [0x32, 0x33, 0x34, 0x35, 0x36, 0x37, 0x38, 0x39] ==
           [0x31, 0x32, 0x33, 0x34, 0x35, 0x36, 0x37, 0x38, 0x39];
    assert [0x32 as bv8] + [0x33, 0x34, 0x35, 0x36, 0x37, 0x38, 0x39] ==
           [0x32, 0x33, 0x34, 0x35, 0x36, 0x37, 0x38, 0x39];
    assert [0x33 as bv8] + [0x34, 0x35, 0x36, 0x37, 0x38, 0x39] == [0x33, 0x34, 0x35, 0x36, 0x37, 0x38, 0x39];
    assert [0x34 as bv8] + [0x35, 0x36, 0x37, 0x38, 0x39] == [0x34, 0x35, 0x36, 0x37, 0x38, 0x39];
    assert [0x35 as bv8] + [0x36, 0x37, 0x38, 0x39] == [0x35, 0x36, 0x37, 0x38, 0x39];
    assert [0x36 as bv8] + [0x37, 0x38, 0x39] == [0x36, 0x37, 0x38, 0x39];
    assert [0x37 as bv8] + [0x38, 0x39] == [0x37, 0x38, 0x39];
    assert [0x38 as bv8] + [0x39] == [0x38, 0x39];
    assert [0x39 as bv8] + [] == [0x39];
    NoRegister(0x340B_C6D9);
    NoRegister(ALL_ONES);
  }

  // ---- What the checksum detects ----

  lemma {:induction false} RegisterConcat(crc: bv32, a: seq<bv8>, b: seq<bv8>)
    ensures Register(crc, a + b) == Register(Register(crc, a), b)
    decreases |a|
  {
    hide Step8, Xor;
    if a == [] {
      assert a + b == b;
    } else {
      assert (a + b)[1..] == a[1..] + b;
      RegisterConcat(Step8(Xor(crc, a[0] as bv32)), a[1..], b);
    }
  }

  lemma XorCancel(a: bv32, x: bv32, y: bv32)
    requires Xor(a, x) == Xor(a, y) || Xor(x, a) == Xor(y, a)
    ensures x == y
  {
    hide Xor;
    XorComm(a, x);
    XorComm(a, y);
    XorSelf(a, x);
    XorSelf(a, y);
  }

  // Two registers that differ stay different through equal input.
  lemma {:induction false} RegisterInjective(c: bv32, d: bv32, buffer: seq<bv8>)
    requires Register(c, buffer) == Register(d, buffer)
    ensures c == d
    decreases |buffer|
  {
    hide Step8, Xor;
    if buffer != [] {
      var b := buffer[0] as bv32;
      RegisterInjective(Step8(Xor(c, b)), Step8(Xor(d, b)), buffer[1..]);
      Step8Injective(Xor(c, b), Xor(d, b));
      XorCancel(b, c, d);
    }
  }

  // The bytes of a short buffer, the first one lowest.
  function Word(u: seq<bv8>): bv32 {
    if u == [] then 0 else Entered(u[0], Word(u[1..]))
  }

  function Entered(b: bv8, w: bv32): bv32 {
    Xor(b as bv32, w << 8)
  }

  function StepBytes(x: bv32, n: nat): bv32
    decreases n
  {
    if n == 0 then x else StepBytes(Step8(x), n - 1)
  }

  lemma {:induction false} StepBytesInjective(x: bv32, y: bv32, n: nat)
    requires StepBytes(x, n) == StepBytes(y, n)
    ensures x == y
    decreases n
  {
    hide Step8;
    if n > 0 {
      StepBytesInjective(Step8(x), Step8(y), n - 1);
      Step8Injective(x, y);
    }
  }

  lemma WordShort(u: seq<bv8>)
    requires |u| <= 3
    ensures Word(u) <= 0x00FF_FFFF
    ensures |u| <= 2 ==> Word(u) <= 0xFFFF
    ensures |u| <= 1 ==> Word(u) <= 0xFF
  {
    if u != [] {
      WordShort(u[1..]);
      WordGrows(u[0] as bv32, Word(u[1..]));
    }
  }

  lemma WordGrows(b: bv32, w: bv32)
    requires b <= 0xFF
    ensures w <= 0xFFFF ==> Xor(b, w << 8) <= 0x00FF_FFFF
    ensures w <= 0xFF ==> Xor(b, w << 8) <= 0xFFFF
    ensures w == 0 ==> Xor(b, w << 8) <= 0xFF
  {
  }

  // Adding later input to the stepped register, or shifted to the register before.
  lemma Push(x: bv32, w: bv32)
    requires w <= 0x00FF_FFFF
    ensures Xor(Step8(x), w) == Step8(Xor(x, w << 8))
  {
    hide Step8, Xor;
    Step8Xor(x, w << 8);
    ShiftBack(w);
    Step8Zeros(w << 8);
  }

  lemma ShiftBack(w: bv32)
    requires w <= 0x00FF_FFFF
    ensures (w << 8) & 0xFF == 0 && (w << 8) >> 8 == w
  {
  }

  lemma PushEntered(crc: bv32, b: bv8, w: bv32)
    requires w <= 0x00FF_FFFF
    ensures Xor(Step8(Xor(crc, b as bv32)), w) == Step8(Xor(crc, Entered(b, w)))
  {
    hide Step8, Xor;
    Push(Xor(crc, b as bv32), w);
    XorAssoc(crc, b as bv32, w << 8);
  }

  // Up to four bytes enter the register as one word.
  lemma {:induction false} RegisterShort(crc: bv32, u: seq<bv8>)
    requires |u| <= 4
    ensures Register(crc, u) == StepBytes(Xor(crc, Word(u)), |u|)
    decreases |u|
  {
    hide Step8, Xor, Entered;
    if u == [] {
      XorZero(crc);
    } else {
      RegisterShort(Step8(Xor(crc, u[0] as bv32)), u[1..]);
      WordShort(u[1..]);
      PushEntered(crc, u[0], Word(u[1..]));
    }
  }

  lemma XorZero(x: bv32)
    ensures Xor(x, 0) == x
  {
  }

  lemma WordDigits(u: seq<bv8>, v: seq<bv8>)
    requires 0 < |u| == |v| <= 4 && Word(u) == Word(v)
    ensures u[0] == v[0] && Word(u[1..]) == Word(v[1..])
  {
    hide Entered;
    WordShort(u[1..]);
    WordShort(v[1..]);
    Digits(u[0], Word(u[1..]), v[0], Word(v[1..]));
  }

  lemma {:induction false} WordInjective(u: seq<bv8>, v: seq<bv8>)
    requires |u| == |v| <= 4 && Word(u) == Word(v)
    ensures u == v
    decreases |u|
  {
    if u != [] {
      hide Word;
      WordDigits(u, v);
      WordInjective(u[1..], v[1..]);
      assert u == [u[0]] + u[1..] && v == [v[0]] + v[1..];
    }
  }

  lemma Digits(b: bv8, w: bv32, c: bv8, x: bv32)
    requires w <= 0x00FF_FFFF && x <= 0x00FF_FFFF
    requires Entered(b, w) == Entered(c, x)
    ensures b == c && w == x
  {
  }

  // A change confined to four consecutive bytes always changes the checksum.
  lemma BurstDetected(x: seq<bv8>, y: seq<bv8>, i: nat)
    requires |x| == |y| && x != y && i <= |x|
    requires forall j :: 0 <= j < |x| && !(i <= j < i + 4) ==> x[j] == y[j]
    ensures Checksum(x) != Checksum(y)
  {
    hide Xor, Register;
    var k := if i + 4 <= |x| then i + 4 else |x|;
    var a, u, v, b := x[..i], x[i..k], y[i..k], x[k..];
    assert y[..i] == a && y[k..] == b;
    assert x == a + (u + b) && y == a + (v + b);
    RegisterConcat(ALL_ONES, a, u + b);
    RegisterConcat(ALL_ONES, a, v + b);
    var c := Register(ALL_ONES, a);
    RegisterConcat(c, u, b);
    RegisterConcat(c, v, b);
    if Checksum(x) == Checksum(y) {
      XorCancel(ALL_ONES, Register(ALL_ONES, x), Register(ALL_ONES, y));
      RegisterInjective(Register(c, u), Register(c, v), b);
      RegisterShort(c, u);
      RegisterShort(c, v);
      StepBytesInjective(Xor(c, Word(u)), Xor(c, Word(v)), |u|);
      XorCancel(c, Word(u), Word(v));
      WordInjective(u, v);
    }
  }
}
