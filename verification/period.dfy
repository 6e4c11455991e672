// The period of the generator: x to the power PERIOD is one.
module Period {
  import opened Words
  import opened Generator
  import opened MachineWords

  const PERIOD: int64 := 1317624576693539401

  // A machine word and the word of the same bits.
  ghost predicate Same(r: Word, w: bv64) {
    forall i :: 0 <= i < 64 ==> (r.bits[i] <==> Bit(w, Mask(i)))
  }

  lemma SquareIsSame(r: Word, w: bv64)
    requires Same(r, w)
    ensures Same(SquarePass(r, 64), Square(w))
  {
    hide Mask, Bit, Square, SquarePass;
    SquarePassBits(r, 64);
    forall i | 0 <= i < 64
      ensures SquarePass(r, 64).bits[i] <==> Bit(Square(w), Mask(i))
    {
      SquareBits(w, i / 2);
      assert i == 2 * (i / 2) + i % 2;
    }
  }

  lemma ShiftIsSame(r: Word, w: bv64)
    requires Same(r, w)
    ensures Same(Step(r), Shifted(w))
  {
    hide Mask, Bit, Shifted;
    forall i | 0 <= i < 64
      ensures Step(r).bits[i] <==> Bit(Shifted(w), Mask(i))
    {
      ShiftedBits(w, i);
    }
  }

  // The power x^n, as a machine word.
  ghost predicate IsPower(n: nat, w: bv64) {
    Same(Steps(One(), n), w)
  }

  lemma FirstPower()
    ensures IsPower(1, 2)
  {
    hide Mask, Bit, Steps;
    StepsOfOne(1);
    forall i | 0 <= i < 64
      ensures Bit(2, Mask(i)) <==> i == 1
    {
      TwoIsBitOne(Mask(i));
      MaskLowBits(i);
    }
  }

  lemma TwoIsBitOne(m: bv64)
    ensures (Bit(2, m) <==> Bit(m, 2)) && (Bit(1, m) <==> Bit(m, 1))
  {
  }

  // Squaring doubles the exponent, and a step adds one to it.
  lemma Next(n: nat, w: bv64, m: nat, v: bv64)
    requires IsPower(n, w)
    requires (m == 2 * n && v == Square(w)) || (m == 2 * n + 1 && v == Shifted(Square(w)))
    ensures IsPower(m, v)
  {
    hide Same, Step, Square, Shifted, SquarePass;
    SquareIsSame(Steps(One(), n), w);
    SquareDoublesExponent(n);
    if m == 2 * n + 1 {
      ShiftIsSame(Steps(One(), 2 * n), Square(w));
      StepsNext(One(), 2 * n);
    }
  }

  // The powers along the binary digits of PERIOD: each exponent is twice the one before, or one more.

  lemma Powers1()
    ensures IsPower(0x9249, 0xF2F2_F2F2_0000_F200)
  {
    hide IsPower;
    FirstPower();
    Next(0x1, 0x2, 0x2, 0x4);
    Next(0x2, 0x4, 0x4, 0x10);
    Next(0x4, 0x10, 0x9, 0x200);
    Next(0x9, 0x200, 0x12, 0x4_0000);
    Next(0x12, 0x4_0000, 0x24, 0x10_0000_0000);
    Next(0x24, 0x10_0000_0000, 0x49, 0xE00);
    Next(0x49, 0xE00, 0x92, 0x54_0000);
    Next(0x92, 0x54_0000, 0x124, 0x1110_0000_0000);
    Next(0x124, 0x1110_0000_0000, 0x249, 0xE0E_0E00);
    Next(0x249, 0xE0E_0E00, 0x492, 0x54_0054_0054_0000);
    Next(0x492, 0x54_0054_0054_0000, 0x924, 0x6660_0000_7770);
    Next(0x924, 0x6660_0000_7770, 0x1249, 0xF2F2_F200);
    Next(0x1249, 0xF2F2_F200, 0x2492, 0x5504_5504_5504_0000);
    Next(0x2492, 0x5504_5504_5504_0000, 0x4924, 0x6666_0060_7777_0070);
    Next(0x4924, 0x6666_0060_7777_0070, 0x9249, 0xF2F2_F2F2_0000_F200);
  }

  lemma Powers2()
    requires IsPower(0x9249, 0xF2F2_F2F2_0000_F200)
    ensures IsPower(0x4924_9249, 0xF5F5_F5F5_F50A_FA07)
  {
    hide IsPower;
    Next(0x9249, 0xF2F2_F2F2_0000_F200, 0x1_2492, 0xAB1D_AB1D_FE19_AB1B);
    Next(0x1_2492, 0xAB1D_AB1D_FE19_AB1B, 0x2_4924, 0x888F_07F7_999E_07F5);
    Next(0x2_4924, 0x888F_07F7_999E_07F5, 0x4_9249, 0x101_01FE_00FF_FCFD);
    Next(0x4_9249, 0x101_01FE_00FF_FCFD, 0x9_2492, 0x7_5552_5556_FFFD);
    Next(0x9_2492, 0x7_5552_5556_FFFD, 0x12_4924, 0x1111_117F_2222_224D);
    Next(0x12_4924, 0x1111_117F_2222_224D, 0x24_9249, 0x606_0606_0606_F5F4);
    Next(0x24_9249, 0x606_0606_0606_F5F4, 0x49_2492, 0x78_0078_557D_557C);
    Next(0x49_2492, 0x78_0078_557D_557C, 0x92_4924, 0x1111_7F91_1111_7F90);
    Next(0x92_4924, 0x1111_7F91_1111_7F90, 0x124_9249, 0xC0C_0C0C_FFFF_0C0E);
    Next(0x124_9249, 0xC0C_0C0C_FFFF_0C0E, 0x249_2492, 0x54E5_54E5_01E0_01E4);
    Next(0x249_2492, 0x54E5_54E5_01E0_01E4, 0x492_4924, 0x7770_F877_7770_F867);
    Next(0x492_4924, 0x7770_F877_7770_F867, 0x924_9249, 0xFCFC_FC03_FF00_FEFC);
    Next(0x924_9249, 0xFCFC_FC03_FF00_FEFC, 0x1249_2492, 0xFFE4_AAB1_FFE4_554C);
    Next(0x1249_2492, 0xFFE4_AAB1_FFE4_554C, 0x2492_4924, 0xFFFF_F861_CCCC_CB50);
    Next(0x2492_4924, 0xFFFF_F861_CCCC_CB50, 0x4924_9249, 0xF5F5_F5F5_F50A_FA07);
  }

  lemma Powers3()
    requires IsPower(0x4924_9249, 0xF5F5_F5F5_F50A_FA07)
    ensures IsPower(0x2492_4924_9249, 0xF1F1_F1F1_0000_00F1)
  {
    hide IsPower;
    Next(0x4924_9249, 0xF5F5_F5F5_F50A_FA07, 0x9249_2492, 0xFE67_AB32_FE32_AB65);
    Next(0x9249_2492, 0xFE67_AB32_FE32_AB65, 0x1_2492_4924, 0xFFF8_696E_999E_0F0A);
    Next(0x1_2492_4924, 0xFFF8_696E_999E_0F0A, 0x2_4924_9249, 0xD7D7_D728_DB24_DBD9);
    Next(0x2_4924_9249, 0xD7D7_D728_DB24_DBD9, 0x4_9249_2492, 0xE62F_B37A_E62E_4C86);
    Next(0x4_9249_2492, 0xE62F_B37A_E62E_4C86, 0x9_2492_4924, 0xF878_19FE_CB4B_2ACF);
    Next(0x9_2492_4924, 0xF878_19FE_CB4B_2ACF, 0x12_4924_9249, 0xF50A_F50A_0505_F5FB);
    Next(0x12_4924_9249, 0xF50A_F50A_0505_F5FB, 0x24_9249_2492, 0xAB66_01CC_FE66_549E);
    Next(0x24_9249_2492, 0xAB66_01CC_FE66_549E, 0x49_2492_4924, 0x888F_7878_1116_F0E3);
    Next(0x49_2492_4924, 0x888F_7878_1116_F0E3, 0x92_4924_9249, 0x8181_817E_7F80_7D83);
    Next(0x92_4924_9249, 0x8181_817E_7F80_7D83, 0x124_9249_2492, 0xD553_8006_D556_2AAE);
    Next(0x124_9249_2492, 0xD553_8006_D556_2AAE, 0x249_2492_4924, 0xE666_660E_C444_443F);
    Next(0x249_2492_4924, 0xE666_660E_C444_443F, 0x492_4924_9249, 0xF8F8_F8F8_F8F8_09FB);
    Next(0x492_4924_9249, 0xF8F8_F8F8_F8F8_09FB, 0x924_9249_2492, 0xFF81_FF81_AA80_FF82);
    Next(0x924_9249_2492, 0xFF81_FF81_AA80_FF82, 0x1249_2492_4924, 0xEEEE_8006_FFFF_8004);
    Next(0x1249_2492_4924, 0xEEEE_8006_FFFF_8004, 0x2492_4924_9249, 0xF1F1_F1F1_0000_00F1);
  }

  lemma Powers4()
    requires IsPower(0x2492_4924_9249, 0xF1F1_F1F1_0000_00F1)
    ensures IsPower(0x1249_2492_4924_9249, 0x1)
  {
    hide IsPower;
    Next(0x2492_4924_9249, 0xF1F1_F1F1_0000_00F1, 0x4924_9249_2492, 0xAB06_AB06_AB06_FE01);
    Next(0x4924_9249_2492, 0xAB06_AB06_AB06_FE01, 0x9249_2492_4924, 0x999E_0079_888F_006A);
    Next(0x9249_2492_4924, 0x999E_0079_888F_006A, 0x1_2492_4924_9249, 0xD0D_0DF2_0000_FD0F);
    Next(0x1_2492_4924_9249, 0xD0D_0DF2_0000_FD0F, 0x2_4924_9249_2492, 0x1B7_01B7_54E7_AB49);
    Next(0x2_4924_9249_2492, 0x1B7_01B7_54E7_AB49, 0x4_9249_2492_4924, 0x1116_8F7E_4443_CB2A);
    Next(0x4_9249_2492_4924, 0x1116_8F7E_4443_CB2A, 0x9_2492_4924_9249, 0x2E2E_2ED1_23DC_DDD0);
    Next(0x9_2492_4924_9249, 0x2E2E_2ED1_23DC_DDD0, 0x12_4924_9249_2492, 0x19A9_4CFC_4CFC_E607);
    Next(0x12_4924_9249_2492, 0x19A9_4CFC_4CFC_E607, 0x24_9249_2492_4924, 0x1696_8897_25A5_AAA5);
    Next(0x24_9249_2492_4924, 0x1696_8897_25A5_AAA5, 0x49_2492_4924_9249, 0x6F9_06F9_0B0B_06F4);
    Next(0x49_2492_4924_9249, 0x6F9_06F9_0B0B_06F4, 0x92_4924_9249_2492, 0x28_AA82_0079_FFD7);
    Next(0x92_4924_9249_2492, 0x28_AA82_0079_FFD7, 0x124_9249_2492_4924, 0x880_8888_9109);
    Next(0x124_9249_2492_4924, 0x880_8888_9109, 0x249_2492_4924_9249, 0x8080_8080_8181_8082);
    Next(0x249_2492_4924_9249, 0x8080_8080_8181_8082, 0x492_4924_9249_2492, 0x8000_8000_8001_8003);
    Next(0x492_4924_9249_2492, 0x8000_8000_8001_8003, 0x924_9249_2492_4924, 0x8000_0000_8000_0002);
    Next(0x924_9249_2492_4924, 0x8000_0000_8000_0002, 0x1249_2492_4924_9249, 0x1);
  }

  // x to the power PERIOD is one.
  lemma PeriodOfOne()
    ensures Steps(One(), PERIOD) == One()
  {
    hide Steps, Mask, Bit;
    Powers1();
    Powers2();
    Powers3();
    Powers4();
    var r := Steps(One(), PERIOD);
    forall i | 0 <= i < 64
      ensures r.bits[i] <==> i == 0
    {
      TwoIsBitOne(Mask(i));
      MaskLowBits(i);
    }
    assert r.bits == One().bits;
  }

  // After PERIOD steps every word comes back.
  lemma PeriodReturns(r: Word)
    ensures Steps(r, PERIOD) == r
  {
    hide Steps, Product;
    ProductWithOne(r);
    ProductOfSteps(r, One(), PERIOD, 64);
    PeriodOfOne();
  }

  lemma {:induction false} WholePeriods(r: Word, n: nat, k: nat)
    ensures Steps(r, n + k * PERIOD) == Steps(r, n)
    decreases k
  {
    hide Steps;
    if k > 0 {
      WholePeriods(r, n, k - 1);
      assert n + k * PERIOD == n + (k - 1) * PERIOD + PERIOD;
      StepsAdd(r, n + (k - 1) * PERIOD, PERIOD);
      PeriodReturns(Steps(r, n + (k - 1) * PERIOD));
    }
  }
}
