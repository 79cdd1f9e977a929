/** Which CRC it is: the generator polynomial, coefficient by coefficient, and the published check value. */
module CrcCheck {
  import opened Crc

  // ----- the generator

  /** The register holds a polynomial: the coefficient of x^0 in its top bit, that of x^31 in its lowest. */
  predicate Coefficient(c: bv32, k: nat)
    requires k < 32
  {
    Odd(Halves(c, 31 - k)) == 1
  }

  /** x^32 + x^26 + x^23 + x^22 + x^16 + x^12 + x^11 + x^10 + x^8 + x^7 + x^5 + x^4 + x^2 + x + 1, below x^32. */
  predicate Generator(k: nat) {
    k in {0, 1, 2, 4, 5, 7, 8, 10, 11, 12, 16, 22, 23, 26}
  }

  lemma Halves0()
    ensures Halves(POLYNOMIAL, 0) == 0xedb8_8320 && Halves(POLYNOMIAL, 1) == 0x76dc_4190
    ensures Halves(POLYNOMIAL, 2) == 0x3b6e_20c8 && Halves(POLYNOMIAL, 3) == 0x1db7_1064
    ensures Halves(POLYNOMIAL, 4) == 0x0edb_8832 && Halves(POLYNOMIAL, 5) == 0x076d_c419
    ensures Halves(POLYNOMIAL, 6) == 0x03b6_e20c && Halves(POLYNOMIAL, 7) == 0x01db_7106
  {
  }

  lemma Halves1()
    ensures Halves(POLYNOMIAL, 8) == 0x00ed_b883 && Halves(POLYNOMIAL, 9) == 0x0076_dc41
    ensures Halves(POLYNOMIAL, 10) == 0x003b_6e20 && Halves(POLYNOMIAL, 11) == 0x001d_b710
    ensures Halves(POLYNOMIAL, 12) == 0x000e_db88 && Halves(POLYNOMIAL, 13) == 0x0007_6dc4
    ensures Halves(POLYNOMIAL, 14) == 0x0003_b6e2 && Halves(POLYNOMIAL, 15) == 0x0001_db71
  {
    Halves0();
  }

  lemma Halves2()
    ensures Halves(POLYNOMIAL, 16) == 0x0000_edb8 && Halves(POLYNOMIAL, 17) == 0x0000_76dc
    ensures Halves(POLYNOMIAL, 18) == 0x0000_3b6e && Halves(POLYNOMIAL, 19) == 0x0000_1db7
    ensures Halves(POLYNOMIAL, 20) == 0x0000_0edb && Halves(POLYNOMIAL, 21) == 0x0000_076d
    ensures Halves(POLYNOMIAL, 22) == 0x0000_03b6 && Halves(POLYNOMIAL, 23) == 0x0000_01db
  {
    Halves1();
  }

  lemma Halves3()
    ensures Halves(POLYNOMIAL, 24) == 0x0000_00ed && Halves(POLYNOMIAL, 25) == 0x0000_0076
    ensures Halves(POLYNOMIAL, 26) == 0x0000_003b && Halves(POLYNOMIAL, 27) == 0x0000_001d
    ensures Halves(POLYNOMIAL, 28) == 0x0000_000e && Halves(POLYNOMIAL, 29) == 0x0000_0007
    ensures Halves(POLYNOMIAL, 30) == 0x0000_0003 && Halves(POLYNOMIAL, 31) == 0x0000_0001
  {
    Halves2();
  }

  lemma Generator0(k: nat)
    requires 0 <= k < 8
    ensures Coefficient(POLYNOMIAL, k) <==> Generator(k)
  {
    Halves3();
  }

  lemma Generator1(k: nat)
    requires 8 <= k < 16
    ensures Coefficient(POLYNOMIAL, k) <==> Generator(k)
  {
    Halves2();
  }

  lemma Generator2(k: nat)
    requires 16 <= k < 24
    ensures Coefficient(POLYNOMIAL, k) <==> Generator(k)
  {
    Halves1();
  }

  lemma Generator3(k: nat)
    requires 24 <= k < 32
    ensures Coefficient(POLYNOMIAL, k) <==> Generator(k)
  {
    Halves0();
  }

  /** The constant of the loop is the generator, reflected. */
  lemma PolynomialIsGenerator(k: nat)
    requires k < 32
    ensures Coefficient(POLYNOMIAL, k) <==> Generator(k)
  {
    if k < 8 {
      Generator0(k);
    } else if k < 16 {
      Generator1(k);
    } else if k < 24 {
      Generator2(k);
    } else {
      Generator3(k);
    }
  }

  lemma {:induction false} HalvesXor(a: bv32, b: bv32, n: nat)
    ensures Halves(Xor(a, b), n) == Xor(Halves(a, n), Halves(b, n))
    decreases n
  {
    if 0 < n {
      HalvesXor(a, b, n - 1);
      HalfXor(Halves(a, n - 1), Halves(b, n - 1));
    }
  }

  lemma {:induction false} HalvesAdd(c: bv32, m: nat, n: nat)
    ensures Halves(Halves(c, m), n) == Halves(c, m + n)
    decreases n
  {
    if 0 < n { HalvesAdd(c, m, n - 1); }
  }

  lemma FourHighs(c: bv32)
    ensures High(High(High(High(c)))) == 0
  {
  }

  lemma HalfEight(c: bv32)
    ensures Half(Half(Half(Half(Half(Half(Half(Half(c)))))))) == High(c)
  {
  }

  lemma HalvesHigh(c: bv32)
    ensures Halves(c, 8) == High(c)
  {
    var h1 := Half(c);
    var h2 := Half(h1);
    var h3 := Half(h2);
    var h4 := Half(h3);
    var h5 := Half(h4);
    var h6 := Half(h5);
    HalvesUnfold(c, h1, h2, h3, h4, h5, h6, Half(h6));
    HalfEight(c);
  }

  lemma NothingLeft(c: bv32)
    ensures Halves(c, 32) == 0
  {
    HalvesHigh(c);
    HalvesHigh(High(c));
    HalvesHigh(High(High(c)));
    HalvesHigh(High(High(High(c))));
    HalvesAdd(c, 8, 8);
    HalvesAdd(c, 16, 8);
    HalvesAdd(c, 24, 8);
    FourHighs(c);
  }

  lemma OddXorOdd(x: bv32, y: bv32)
    ensures Odd(Xor(x, y)) == 1 <==> ((Odd(x) == 1) != (Odd(y) == 1))
  {
  }

  lemma CoefficientXor(a: bv32, b: bv32, k: nat)
    requires k < 32
    ensures Coefficient(Xor(a, b), k) <==> (Coefficient(a, k) != Coefficient(b, k))
  {
    HalvesXor(a, b, 31 - k);
    OddXorOdd(Halves(a, 31 - k), Halves(b, 31 - k));
  }

  lemma {:induction false} HalvesZero(n: nat)
    ensures Halves(0, n) == 0 && Odd(0) == 0
  {
    if 0 < n { HalvesZero(n - 1); }
  }

  lemma CoefficientHalf(c: bv32, k: nat)
    requires k < 32
    ensures Coefficient(Half(c), k) <==> 0 < k && Coefficient(c, k - 1)
  {
    HalvesAdd(c, 1, 31 - k);
    assert Halves(c, 1) == Half(Halves(c, 0));
    if k == 0 {
      NothingLeft(c);
      HalvesZero(0);
    }
  }

  /** One turn of the loop multiplies the register's polynomial by x, modulo the generator. */
  lemma TurnMultiplies(c: bv32, k: nat)
    requires k < 32
    ensures Coefficient(Shift(c), k) <==> ((0 < k && Coefficient(c, k - 1)) != (Coefficient(c, 31) && Generator(k)))
  {
    PolynomialIsGenerator(k);
    CoefficientHalf(c, k);
    CoefficientXor(Half(c), Fold(Odd(c)), k);
    OddIsBit(c);
    FoldBit();
    HalvesZero(31 - k);
  }

  // ----- the check value

  lemma Turns(c0: bv32, c1: bv32, c2: bv32, c3: bv32, c4: bv32, c5: bv32, c6: bv32, c7: bv32, c8: bv32)
    requires Shift(c0) == c1 && Shift(c1) == c2 && Shift(c2) == c3 && Shift(c3) == c4
    requires Shift(c4) == c5 && Shift(c5) == c6 && Shift(c6) == c7 && Shift(c7) == c8
    ensures Shifts(c0, 8) == c8
  {
    assert Shifts(c0, 1) == c1;
    assert Shifts(c0, 2) == c2;
    assert Shifts(c0, 3) == c3;
    assert Shifts(c0, 4) == c4;
    assert Shifts(c0, 5) == c5;
    assert Shifts(c0, 6) == c6;
    assert Shifts(c0, 7) == c7;
  }

  lemma Digit1()
    ensures ByteStep(0xffff_ffff, 49) == 0x7c23_1048
  {
    Turns(0xffff_ffce, 0x7fff_ffe7, 0xd247_7cd3, 0x849b_3d49, 0xaff5_1d84,
          0x57fa_8ec2, 0x2bfd_4761, 0xf846_2090, 0x7c23_1048);
  }

  lemma Digit2()
    ensures ByteStep(0x7c23_1048, 50) == 0xb0ac_bb32
  {
    Turns(0x7c23_107a, 0x3e11_883d, 0xf2b0_473e, 0x7958_239f, 0xd114_92ef,
          0x8532_ca57, 0xaf21_e60b, 0xba28_7025, 0xb0ac_bb32);
  }

  lemma Digit3()
    ensures ByteStep(0xb0ac_bb32, 51) == 0x77b7_9c2d
  {
    Turns(0xb0ac_bb01, 0xb5ee_dea0, 0x5af7_6f50, 0x2d7b_b7a8, 0x16bd_dbd4,
          0x0b5e_edea, 0x05af_76f5, 0xef6f_385a, 0x77b7_9c2d);
  }

  lemma Digit4()
    ensures ByteStep(0x77b7_9c2d, 52) == 0x641c_1f5c
  {
    Turns(0x77b7_9c19, 0xd663_4d2c, 0x6b31_a696, 0x3598_d34b, 0xf774_ea85,
          0x9602_f662, 0x4b01_7b31, 0xc838_3eb8, 0x641c_1f5c);
  }

  lemma Digit5()
    ensures ByteStep(0x641c_1f5c, 53) == 0x340a_c5e3
  {
    Turns(0x641c_1f69, 0xdfb6_8c94, 0x6fdb_464a, 0x37ed_a325, 0xf64e_52b2,
          0x7b27_2959, 0xd02b_178c, 0x6815_8bc6, 0x340a_c5e3);
  }

  lemma Digit6()
    ensures ByteStep(0x340a_c5e3, 54) == 0xf68d_2c9e
  {
    Turns(0x340a_c5d5, 0xf7bd_e1ca, 0x7bde_f0e5, 0xd057_fb52, 0x682b_fda9,
          0xd9ad_7df4, 0x6cd6_befa, 0x366b_5f7d, 0xf68d_2c9e);
  }

  lemma Digit7()
    ensures ByteStep(0xf68d_2c9e, 55) == 0xaffc_9660
  {
    Turns(0xf68d_2ca9, 0x96fe_1574, 0x4b7f_0aba, 0x25bf_855d, 0xff67_418e,
          0x7fb3_a0c7, 0xd261_5343, 0x8488_2a81, 0xaffc_9660);
  }

  lemma Digit8()
    ensures ByteStep(0xaffc_9660, 56) == 0x651f_2550
  {
    Turns(0xaffc_9658, 0x57fe_4b2c, 0x2bff_2596, 0x15ff_92cb, 0xe747_4a45,
          0x9e1b_2602, 0x4f0d_9301, 0xca3e_4aa0, 0x651f_2550);
  }

  lemma Digit9()
    ensures ByteStep(0x651f_2550, 57) == 0x340b_c6d9
  {
    Turns(0x651f_2569, 0xdf37_1194, 0x6f9b_88ca, 0x37cd_c465, 0xf65e_6112,
          0x7b2f_3089, 0xd02f_1b64, 0x6817_8db2, 0x340b_c6d9);
  }

  /** The register after the first `n` bytes. */
  function After(crc: bv32, text: Text, n: nat): bv32
    requires n <= |text|
  {
    TextStep(crc, text[..n])
  }

  lemma AfterNext(crc: bv32, text: Text, n: nat)
    requires n < |text|
    ensures After(crc, text, n + 1) == ByteStep(After(crc, text, n), text[n])
  {
    assert text[..n + 1] == text[..n] + [text[n]];
    TextStepConcat(crc, text[..n], [text[n]]);
    assert TextStep(After(crc, text, n), [text[n]]) == TextStep(ByteStep(After(crc, text, n), text[n]), []);
  }

  lemma FirstDigits(crc: bv32, text: Text)
    requires crc == 0xffff_ffff && text == [49, 50, 51, 52, 53, 54, 55, 56, 57]
    ensures After(crc, text, 3) == 0x77b7_9c2d
  {
    assert text[..0] == [];
    Digit1();
    AfterNext(crc, text, 0);
    Digit2();
    AfterNext(crc, text, 1);
    Digit3();
    AfterNext(crc, text, 2);
  }

  lemma MiddleDigits(crc: bv32, text: Text)
    requires crc == 0xffff_ffff && text == [49, 50, 51, 52, 53, 54, 55, 56, 57]
    ensures After(crc, text, 6) == 0xf68d_2c9e
  {
    FirstDigits(crc, text);
    Digit4();
    AfterNext(crc, text, 3);
    Digit5();
    AfterNext(crc, text, 4);
    Digit6();
    AfterNext(crc, text, 5);
  }

  lemma LastDigits(crc: bv32, text: Text)
    requires crc == 0xffff_ffff && text == [49, 50, 51, 52, 53, 54, 55, 56, 57]
    ensures After(crc, text, 9) == 0x340b_c6d9
  {
    MiddleDigits(crc, text);
    Digit7();
    AfterNext(crc, text, 6);
    Digit8();
    AfterNext(crc, text, 7);
    Digit9();
    AfterNext(crc, text, 8);
  }

  lemma Ends()
    ensures Not(0) == 0xffff_ffff && Not(0x340b_c6d9) == 0xcbf4_3926
  {
  }

  /** The CRC-32 of the nine digits "123456789", as catalogues of CRCs list it. */
  lemma CheckValue(text: Text)
    requires text == [49, 50, 51, 52, 53, 54, 55, 56, 57]
    ensures Crc32(text) == 0xcbf4_3926
  {
    var crc := Not(0);
    Ends();
    LastDigits(crc, text);
    assert text[..9] == text;
    BitwiseIsCrc32(text);
  }
}
