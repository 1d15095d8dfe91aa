/** The digest of "abc" from section A.5 of RFC 1320, four operations at a time. */
module Md4Vector {
  import opened Bytes
  import opened Md4

  const ABC: seq<byte> := [0x61, 0x62, 0x63]

  /** The one block that the padded message fills. */
  ghost predicate IsAbc(x: Block) {
    x[0] == 0x8063_6261 && x[14] == 24 && forall k :: 0 < k < 16 && k != 14 ==> x[k] == 0
  }

  /** Four operations carried out on known registers and known words. */
  lemma Four(x: Block, round: nat, j: nat, r: Regs, w: seq<bv32>, s: Regs)
    requires round < 3 && j <= 12 && j % 4 == 0 && |w| == 4
    requires x[WordOf(round, j)] == w[0] && x[WordOf(round, j + 1)] == w[1]
    requires x[WordOf(round, j + 2)] == w[2] && x[WordOf(round, j + 3)] == w[3]
    requires s.a == Mixed(round, r.a, r.b, r.c, r.d, w[0], ShiftOf(round, 0))
    requires s.d == Mixed(round, r.d, s.a, r.b, r.c, w[1], ShiftOf(round, 1))
    requires s.c == Mixed(round, r.c, s.d, s.a, r.b, w[2], ShiftOf(round, 2))
    requires s.b == Mixed(round, r.b, s.c, s.d, s.a, w[3], ShiftOf(round, 3))
    ensures Operations(x, round, j, 16, r) == Operations(x, round, j + 4, 16, s)
  {
    hide Mixed, ShiftOf, WordOf;
    Next(x, round, j, r, Regs(r.d, s.a, r.b, r.c));
    Next(x, round, j + 1, Regs(r.d, s.a, r.b, r.c), Regs(r.c, s.d, s.a, r.b));
    Next(x, round, j + 2, Regs(r.c, s.d, s.a, r.b), Regs(r.b, s.c, s.d, s.a));
    hide Operations;
    Next(x, round, j + 3, Regs(r.b, s.c, s.d, s.a), s);
  }

  lemma Next(x: Block, round: nat, j: nat, r: Regs, s: Regs)
    requires round < 3 && j < 16 && Operation(x, round, j, r) == s
    ensures Operations(x, round, j, 16, r) == Operations(x, round, j + 1, 16, s)
  {
    hide Operation;
  }

  lemma Round1a(x: Block)
    requires IsAbc(x)
    ensures Operations(x, 0, 0, 16, Regs(0x6745_2301, 0xEFCD_AB89, 0x98BA_DCFE, 0x1032_5476)) ==
            Operations(x, 0, 4, 16, Regs(0x031B_1304, 0xF66D_8F45, 0xD384_54E4, 0xEE12_3855))
  {
    hide Operations;
    Four(x, 0, 0, Regs(0x6745_2301, 0xEFCD_AB89, 0x98BA_DCFE, 0x1032_5476), [0x8063_6261, 0, 0, 0],
         Regs(0x031B_1304, 0xF66D_8F45, 0xD384_54E4, 0xEE12_3855));
    hide *;
  }

  lemma Round1b(x: Block)
    requires IsAbc(x)
    ensures Operations(x, 0, 4, 16, Regs(0x031B_1304, 0xF66D_8F45, 0xD384_54E4, 0xEE12_3855)) ==
            Operations(x, 0, 8, 16, Regs(0xE98A_3AC6, 0x613B_2BC8, 0x9785_4E65, 0x0F43_5CF0))
  {
    hide Operations;
    Four(x, 0, 4, Regs(0x031B_1304, 0xF66D_8F45, 0xD384_54E4, 0xEE12_3855), [0, 0, 0, 0],
         Regs(0xE98A_3AC6, 0x613B_2BC8, 0x9785_4E65, 0x0F43_5CF0));
    hide *;
  }

  lemma Round1c(x: Block)
    requires IsAbc(x)
    ensures Operations(x, 0, 8, 16, Regs(0xE98A_3AC6, 0x613B_2BC8, 0x9785_4E65, 0x0F43_5CF0)) ==
            Operations(x, 0, 12, 16, Regs(0xC65C_C9B7, 0xA7D1_3ACB, 0x15D2_EEF5, 0x6E36_5830))
  {
    hide Operations;
    Four(x, 0, 8, Regs(0xE98A_3AC6, 0x613B_2BC8, 0x9785_4E65, 0x0F43_5CF0), [0, 0, 0, 0],
         Regs(0xC65C_C9B7, 0xA7D1_3ACB, 0x15D2_EEF5, 0x6E36_5830));
    hide *;
  }

  lemma Round1d(x: Block)
    requires IsAbc(x)
    ensures Operations(x, 0, 12, 16, Regs(0xC65C_C9B7, 0xA7D1_3ACB, 0x15D2_EEF5, 0x6E36_5830)) ==
            Operations(x, 0, 16, 16, Regs(0xA299_A540, 0xDA71_7395, 0x24BA_ADCB, 0x04E1_9293))
  {
    hide Operations;
    Four(x, 0, 12, Regs(0xC65C_C9B7, 0xA7D1_3ACB, 0x15D2_EEF5, 0x6E36_5830), [0, 0, 0x0000_0018, 0],
         Regs(0xA299_A540, 0xDA71_7395, 0x24BA_ADCB, 0x04E1_9293));
    hide *;
  }

  lemma Round2a(x: Block)
    requires IsAbc(x)
    ensures Operations(x, 1, 0, 16, Regs(0xA299_A540, 0xDA71_7395, 0x24BA_ADCB, 0x04E1_9293)) ==
            Operations(x, 1, 4, 16, Regs(0x1389_A66C, 0x228B_5116, 0xDD3D_21A5, 0x43B6_7F2E))
  {
    hide Operations;
    Four(x, 1, 0, Regs(0xA299_A540, 0xDA71_7395, 0x24BA_ADCB, 0x04E1_9293), [0x8063_6261, 0, 0, 0],
         Regs(0x1389_A66C, 0x228B_5116, 0xDD3D_21A5, 0x43B6_7F2E));
    hide *;
  }

  lemma Round2b(x: Block)
    requires IsAbc(x)
    ensures Operations(x, 1, 4, 16, Regs(0x1389_A66C, 0x228B_5116, 0xDD3D_21A5, 0x43B6_7F2E)) ==
            Operations(x, 1, 8, 16, Regs(0x8E5C_895D, 0x4EC6_8171, 0xBD68_A784, 0x8ABF_3B85))
  {
    hide Operations;
    Four(x, 1, 4, Regs(0x1389_A66C, 0x228B_5116, 0xDD3D_21A5, 0x43B6_7F2E), [0, 0, 0, 0],
         Regs(0x8E5C_895D, 0x4EC6_8171, 0xBD68_A784, 0x8ABF_3B85));
    hide *;
  }

  lemma Round2c(x: Block)
    requires IsAbc(x)
    ensures Operations(x, 1, 8, 16, Regs(0x8E5C_895D, 0x4EC6_8171, 0xBD68_A784, 0x8ABF_3B85)) ==
            Operations(x, 1, 12, 16, Regs(0xBE6D_33DB, 0x0323_E3B7, 0x7466_1D2D, 0x75CB_1DF4))
  {
    hide Operations;
    Four(x, 1, 8, Regs(0x8E5C_895D, 0x4EC6_8171, 0xBD68_A784, 0x8ABF_3B85), [0, 0, 0, 0x0000_0018],
         Regs(0xBE6D_33DB, 0x0323_E3B7, 0x7466_1D2D, 0x75CB_1DF4));
    hide *;
  }

  lemma Round2d(x: Block)
    requires IsAbc(x)
    ensures Operations(x, 1, 12, 16, Regs(0xBE6D_33DB, 0x0323_E3B7, 0x7466_1D2D, 0x75CB_1DF4)) ==
            Operations(x, 1, 16, 16, Regs(0x7296_594C, 0x8E53_1B8F, 0x3DD4_2422, 0x4E7E_1748))
  {
    hide Operations;
    Four(x, 1, 12, Regs(0xBE6D_33DB, 0x0323_E3B7, 0x7466_1D2D, 0x75CB_1DF4), [0, 0, 0, 0],
         Regs(0x7296_594C, 0x8E53_1B8F, 0x3DD4_2422, 0x4E7E_1748));
    hide *;
  }

  lemma Round3a(x: Block)
    requires IsAbc(x)
    ensures Operations(x, 2, 0, 16, Regs(0x7296_594C, 0x8E53_1B8F, 0x3DD4_2422, 0x4E7E_1748)) ==
            Operations(x, 2, 4, 16, Regs(0xFE66_819A, 0xFD9F_CFEB, 0x2F4E_3583, 0x7382_4016))
  {
    hide Operations;
    Four(x, 2, 0, Regs(0x7296_594C, 0x8E53_1B8F, 0x3DD4_2422, 0x4E7E_1748), [0x8063_6261, 0, 0, 0],
         Regs(0xFE66_819A, 0xFD9F_CFEB, 0x2F4E_3583, 0x7382_4016));
    hide *;
  }

  lemma Round3b(x: Block)
    requires IsAbc(x)
    ensures Operations(x, 2, 4, 16, Regs(0xFE66_819A, 0xFD9F_CFEB, 0x2F4E_3583, 0x7382_4016)) ==
            Operations(x, 2, 8, 16, Regs(0x74A1_3DC8, 0x71A2_AD97, 0x03F2_B578, 0x99E6_AF11))
  {
    hide Operations;
    Four(x, 2, 4, Regs(0xFE66_819A, 0xFD9F_CFEB, 0x2F4E_3583, 0x7382_4016), [0, 0, 0, 0x0000_0018],
         Regs(0x74A1_3DC8, 0x71A2_AD97, 0x03F2_B578, 0x99E6_AF11));
    hide *;
  }

  lemma Round3c(x: Block)
    requires IsAbc(x)
    ensures Operations(x, 2, 8, 16, Regs(0x74A1_3DC8, 0x71A2_AD97, 0x03F2_B578, 0x99E6_AF11)) ==
            Operations(x, 2, 12, 16, Regs(0x798F_0B3E, 0xACBF_46AD, 0xEA0C_CD51, 0x3F5D_0629))
  {
    hide Operations;
    Four(x, 2, 8, Regs(0x74A1_3DC8, 0x71A2_AD97, 0x03F2_B578, 0x99E6_AF11), [0, 0, 0, 0],
         Regs(0x798F_0B3E, 0xACBF_46AD, 0xEA0C_CD51, 0x3F5D_0629));
    hide *;
  }

  lemma Round3d(x: Block)
    requires IsAbc(x)
    ensures Operations(x, 2, 12, 16, Regs(0x798F_0B3E, 0xACBF_46AD, 0xEA0C_CD51, 0x3F5D_0629)) ==
            Operations(x, 2, 16, 16, Regs(0x12BC_25A3, 0x630A_7626, 0x4F4F_E461, 0x8D40_5204))
  {
    hide Operations;
    Four(x, 2, 12, Regs(0x798F_0B3E, 0xACBF_46AD, 0xEA0C_CD51, 0x3F5D_0629), [0, 0, 0, 0],
         Regs(0x12BC_25A3, 0x630A_7626, 0x4F4F_E461, 0x8D40_5204));
    hide *;
  }

  lemma {:induction false} Block(x: Block)
    requires IsAbc(x)
    ensures BlockStep(x, START) == Regs(0x7A01_48A4, 0x52D8_21AF, 0xE80A_C15F, 0x9D72_A67A)
  {
    Round1a(x); Round1b(x); Round1c(x); Round1d(x);
    Round2a(x); Round2b(x); Round2c(x); Round2d(x);
    Round3a(x); Round3b(x); Round3c(x); Round3d(x);
    assert Operations(x, 0, 0, 16, START) == Regs(0xA299_A540, 0xDA71_7395, 0x24BA_ADCB, 0x04E1_9293) by { hide IsAbc; Done(x, 0, Regs(0xA299_A540, 0xDA71_7395, 0x24BA_ADCB, 0x04E1_9293)); }
    assert Operations(x, 1, 0, 16, Regs(0xA299_A540, 0xDA71_7395, 0x24BA_ADCB, 0x04E1_9293)) == Regs(0x7296_594C, 0x8E53_1B8F, 0x3DD4_2422, 0x4E7E_1748) by { hide IsAbc; Done(x, 1, Regs(0x7296_594C, 0x8E53_1B8F, 0x3DD4_2422, 0x4E7E_1748)); }
    assert Operations(x, 2, 0, 16, Regs(0x7296_594C, 0x8E53_1B8F, 0x3DD4_2422, 0x4E7E_1748)) == Regs(0x12BC_25A3, 0x630A_7626, 0x4F4F_E461, 0x8D40_5204) by { hide IsAbc; Done(x, 2, Regs(0x12BC_25A3, 0x630A_7626, 0x4F4F_E461, 0x8D40_5204)); }
    hide Operations, IsAbc;
  }

  lemma Done(x: Block, round: nat, r: Regs)
    requires round < 3
    ensures Operations(x, round, 16, 16, r) == r
  {
  }

  /** The padded message is one block of these words. */
  lemma {:induction false} AbcPadded()
    ensures |Padded(ABC)| == 64
    ensures forall i :: 0 <= i < 64 ==>
      Padded(ABC)[i] == if i < 3 then 0x61 + i else if i == 3 then 0x80 else if i == 56 then 24 else 0
  {
    assert Zeros(3) == 52 && BitLength(3) == 24;
    LeOf24();
    hide Zeros, BitLength, Le, Repeat;
  }

  lemma LeOf24()
    ensures Le(24, 8) == [24, 0, 0, 0, 0, 0, 0, 0]
  {
    assert Le(0, 1) == [0] && Le(0, 2) == [0, 0] && Le(0, 3) == [0, 0, 0] && Le(0, 4) == [0, 0, 0, 0];
    assert Le(0, 5) == [0, 0, 0, 0, 0] && Le(0, 6) == [0, 0, 0, 0, 0, 0] && Le(0, 7) == [0, 0, 0, 0, 0, 0, 0];
  }

  lemma {:induction false} AbcBlock()
    ensures |Padded(ABC)| == 64 && IsAbc(FirstBlock(Padded(ABC)))
  {
    AbcPadded();
    hide Padded, WordAt;
    var p := Padded(ABC);
    WordIs(p, 0, 0x61, 0x62, 0x63, 0x80, 0x8063_6261);
    WordIs(p, 56, 24, 0, 0, 0, 24);
    forall k | 0 < k < 16 && k != 14
      ensures WordAt(p, 4 * k) == 0
    {
      WordIs(p, 4 * k, 0, 0, 0, 0, 0);
    }
    forall k | 0 <= k < 16
      ensures FirstBlock(p)[k] == WordAt(p, 4 * k)
    {
    }
    hide FirstBlock;
  }

  lemma WordIs(p: seq<byte>, i: nat, a: byte, b: byte, c: byte, d: byte, w: bv32)
    requires i + 4 <= |p| && p[i] == a && p[i + 1] == b && p[i + 2] == c && p[i + 3] == d
    requires w as int == a + 0x100 * b + 0x1_0000 * c + 0x100_0000 * d
    ensures WordAt(p, i) == w
  {
  }

  /** The digest that RFC 1320 prints for "abc". */
  lemma {:induction false} AbcDigest()
    ensures Digest(ABC) ==
            [0xA4, 0x48, 0x01, 0x7A, 0xAF, 0x21, 0xD8, 0x52, 0x5F, 0xC1, 0x0A, 0xE8, 0x7A, 0xA6, 0x72, 0x9D]
  {
    AbcBlock();
    AbcOutput();
    hide *;
    Block(FirstBlock(Padded(ABC)));
    OneBlock(ABC);
  }

  lemma OneBlock(m: seq<byte>)
    requires |Padded(m)| == 64
    ensures Digest(m) == Output(BlockStep(FirstBlock(Padded(m)), START))
  {
    hide Padded, Output, BlockStep, FirstBlock;
    assert Padded(m)[64..] == [];
    assert Blocks(Padded(m), 1, START) == Blocks(Padded(m)[64..], 0, BlockStep(FirstBlock(Padded(m)), START));
  }

  lemma AbcOutput()
    ensures Output(Regs(0x7A01_48A4, 0x52D8_21AF, 0xE80A_C15F, 0x9D72_A67A)) ==
            [0xA4, 0x48, 0x01, 0x7A, 0xAF, 0x21, 0xD8, 0x52, 0x5F, 0xC1, 0x0A, 0xE8, 0x7A, 0xA6, 0x72, 0x9D]
  {
    var r := Regs(0x7A01_48A4, 0x52D8_21AF, 0xE80A_C15F, 0x9D72_A67A);
    assert WordBytes(r.a) == [0xA4, 0x48, 0x01, 0x7A];
    assert WordBytes(r.b) == [0xAF, 0x21, 0xD8, 0x52];
    assert WordBytes(r.c) == [0x5F, 0xC1, 0x0A, 0xE8];
    assert WordBytes(r.d) == [0x7A, 0xA6, 0x72, 0x9D];
    hide WordBytes;
  }

}
