/**
 When a tweak comes back: moved by n blocks, a tweak other than zero is the same again only if n is
 a multiple of 2^32 - 1. For each prime factor q of that number a power of alpha is computed that
 the power (2^128 - 1) / q changes.
 */
module AlphaOrder {
  import opened Bytes
  import opened Octets
  import opened Xts
  import opened Gf128
  import opened RegisterBits

  /** The number of elements of the field other than zero. */
  const ORDER: nat := 0xffff_ffff_ffff_ffff_ffff_ffff_ffff_ffff

  /** 2^32 - 1, which divides every period of a tweak other than zero. */
  const PERIOD_FACTOR: nat := 0xffff_ffff

  // ------------------------------------------------------------------ computing powers

  predicate IsPower(v: bv128, e: nat) {
    ToRegister(v) == Power(e)
  }

  function Sq2(v: bv128): bv128 { Sq(Sq(v)) }

  function Sq4(v: bv128): bv128 { Sq2(Sq2(v)) }

  function Sq8(v: bv128): bv128 { Sq4(Sq4(v)) }

  lemma SqPower(v: bv128, e: nat)
    requires IsPower(v, e)
    ensures IsPower(Sq(v), 2 * e)
  {
    hide Sq, ToRegister, Product, Power;
    MulValue(v, v);
    SqIs(v);
    PowersMultiply(e, e, 2 * e);
  }

  lemma Sq2Power(v: bv128, e: nat)
    requires IsPower(v, e)
    ensures IsPower(Sq2(v), 4 * e)
  {
    hide IsPower, Sq;
    SqPower(v, e);
    SqPower(Sq(v), 2 * e);
  }

  lemma Sq4Power(v: bv128, e: nat)
    requires IsPower(v, e)
    ensures IsPower(Sq4(v), 0x10 * e)
  {
    hide IsPower, Sq2;
    Sq2Power(v, e);
    Sq2Power(Sq2(v), 4 * e);
  }

  lemma Sq8Power(v: bv128, e: nat)
    requires IsPower(v, e)
    ensures IsPower(Sq8(v), 0x100 * e)
  {
    hide IsPower, Sq4;
    Sq4Power(v, e);
    Sq4Power(Sq4(v), 0x10 * e);
  }

  lemma MulPower(v: bv128, e: nat, w: bv128, f: nat)
    requires IsPower(v, e) && IsPower(w, f)
    ensures IsPower(Mul(v, w), e + f)
  {
    hide Mul, ToRegister, Product, Power;
    MulValue(v, w);
    PowersMultiply(e, f, e + f);
  }

  lemma AlphaIs()
    ensures IsPower(BASE6, 0x1)
  {
    assert Twice(0x1) == 0x2;
    OneValue();
    TwiceValue(0x1);
    hide ToRegister, Twice, Double;
    assert Power(1) == Double(Power(0));
  }

  // ------------------------------------------------------------------ the generators

  // For i from 6 down to 0 the base is the power of alpha that generates the subfield of
  // 2^(2^(i+1)) elements. Its power 2^(2^i) is its conjugate over the next smaller subfield, and
  // their product, the norm, generates that one.

  const BASE6: bv128 := 0x2
  const BASE5: bv128 := 0xc2ca_3fd4_d6b0_6572_89cb_314f_2b45_33ec
  const BASE4: bv128 := 0x92e3_41fc_ad25_1f6b_0530_a488_3c2f_d05e
  const BASE3: bv128 := 0x5c59_7187_7501_d4b8_f187_1e01_b64f_da4c
  const BASE2: bv128 := 0xe611_4072_b8ca_57af_d9db_18ed_4678_7786
  const BASE1: bv128 := 0x8b49_8493_3933_4e30_987a_355c_bf0c_842b
  const BASE0: bv128 := 0x295a_c0b1_f473_1af9_676a_ac9f_a4b2_0b09

  const CONJUGATE6: bv128 := 0x6165_1fea_6b58_32b9_44e5_98a7_95a2_99f6
  const CONJUGATE5: bv128 := 0x519f_0836_f63c_7ffc_a856_3296_613b_72af
  const CONJUGATE4: bv128 := 0x31d8_77a8_64e0_5e25_935f_58b8_fca1_f97b
  const CONJUGATE3: bv128 := 0xde40_c40e_0385_1568_1387_a5c9_e875_a7db
  const CONJUGATE2: bv128 := 0x6d58_c4e1_81f9_199f_41a1_2db1_f974_f3ad
  const CONJUGATE1: bv128 := 0x8b49_8493_3933_4e30_987a_355c_bf0c_842a
  const CONJUGATE0: bv128 := 0x295a_c0b1_f473_1af9_676a_ac9f_a4b2_0b08

  // The powers of the generators, eight squarings at a time.

  lemma Squares6a(e: nat)
    requires IsPower(BASE6, e)
    ensures IsPower(0x4015, 0x100 * e)
  {
    assert Sq8(BASE6) == 0x4015;
    hide *;
    Sq8Power(BASE6, e);
  }

  lemma Squares6b(e: nat)
    requires IsPower(0x4015, e)
    ensures IsPower(0x1001_0011_1111_0961_118f_e619_6978_ef70, 0x100 * e)
  {
    assert Sq8(0x4015) == 0x1001_0011_1111_0961_118f_e619_6978_ef70;
    hide *;
    Sq8Power(0x4015, e);
  }

  lemma Squares6c(e: nat)
    requires IsPower(0x1001_0011_1111_0961_118f_e619_6978_ef70, e)
    ensures IsPower(0xc7f8_a417_56ad_614d_1a97_936b_620f_481d, 0x100 * e)
  {
    assert Sq8(0x1001_0011_1111_0961_118f_e619_6978_ef70) == 0xc7f8_a417_56ad_614d_1a97_936b_620f_481d;
    hide *;
    Sq8Power(0x1001_0011_1111_0961_118f_e619_6978_ef70, e);
  }

  lemma Squares6d(e: nat)
    requires IsPower(0xc7f8_a417_56ad_614d_1a97_936b_620f_481d, e)
    ensures IsPower(0x782d_0a99_5dd3_b018_2177_7af8_0695_052a, 0x100 * e)
  {
    assert Sq8(0xc7f8_a417_56ad_614d_1a97_936b_620f_481d) == 0x782d_0a99_5dd3_b018_2177_7af8_0695_052a;
    hide *;
    Sq8Power(0xc7f8_a417_56ad_614d_1a97_936b_620f_481d, e);
  }

  lemma Squares6e(e: nat)
    requires IsPower(0x782d_0a99_5dd3_b018_2177_7af8_0695_052a, e)
    ensures IsPower(0x1854_548b_b6f4_de8e_1794_c9c6_116b_ca12, 0x100 * e)
  {
    assert Sq8(0x782d_0a99_5dd3_b018_2177_7af8_0695_052a) == 0x1854_548b_b6f4_de8e_1794_c9c6_116b_ca12;
    hide *;
    Sq8Power(0x782d_0a99_5dd3_b018_2177_7af8_0695_052a, e);
  }

  lemma Squares6f(e: nat)
    requires IsPower(0x1854_548b_b6f4_de8e_1794_c9c6_116b_ca12, e)
    ensures IsPower(0xe316_b617_7292_0218_fe1d_7816_d9eb_81fd, 0x100 * e)
  {
    assert Sq8(0x1854_548b_b6f4_de8e_1794_c9c6_116b_ca12) == 0xe316_b617_7292_0218_fe1d_7816_d9eb_81fd;
    hide *;
    Sq8Power(0x1854_548b_b6f4_de8e_1794_c9c6_116b_ca12, e);
  }

  lemma Squares6g(e: nat)
    requires IsPower(0xe316_b617_7292_0218_fe1d_7816_d9eb_81fd, e)
    ensures IsPower(0x7402_5243_5434_bd93_e213_b075_ac78_1973, 0x100 * e)
  {
    assert Sq8(0xe316_b617_7292_0218_fe1d_7816_d9eb_81fd) == 0x7402_5243_5434_bd93_e213_b075_ac78_1973;
    hide *;
    Sq8Power(0xe316_b617_7292_0218_fe1d_7816_d9eb_81fd, e);
  }

  lemma Squares6h(e: nat)
    requires IsPower(0x7402_5243_5434_bd93_e213_b075_ac78_1973, e)
    ensures IsPower(CONJUGATE6, 0x100 * e)
  {
    assert Sq8(0x7402_5243_5434_bd93_e213_b075_ac78_1973) == CONJUGATE6;
    hide *;
    Sq8Power(0x7402_5243_5434_bd93_e213_b075_ac78_1973, e);
  }

  lemma Level6()
    ensures IsPower(BASE6, 0x1)
    ensures IsPower(CONJUGATE6, 0x0001_0000_0000_0000_0000)
  {
    hide *;
    AlphaIs();
    Squares6a(0x1);
    Squares6b(0x100);
    Squares6c(0x0001_0000);
    Squares6d(0x0100_0000);
    Squares6e(0x0001_0000_0000);
    Squares6f(0x0100_0000_0000);
    Squares6g(0x0001_0000_0000_0000);
    Squares6h(0x0100_0000_0000_0000);
  }

  lemma Squares5a(e: nat)
    requires IsPower(BASE5, e)
    ensures IsPower(0x0d1e_b926_772b_5d2c_9fe2_875f_b3eb_10fd, 0x100 * e)
  {
    assert Sq8(BASE5) == 0x0d1e_b926_772b_5d2c_9fe2_875f_b3eb_10fd;
    hide *;
    Sq8Power(BASE5, e);
  }

  lemma Squares5b(e: nat)
    requires IsPower(0x0d1e_b926_772b_5d2c_9fe2_875f_b3eb_10fd, e)
    ensures IsPower(0xa73a_a0c5_00f0_eb80_e485_56d9_1b2d_a742, 0x100 * e)
  {
    assert Sq8(0x0d1e_b926_772b_5d2c_9fe2_875f_b3eb_10fd) == 0xa73a_a0c5_00f0_eb80_e485_56d9_1b2d_a742;
    hide *;
    Sq8Power(0x0d1e_b926_772b_5d2c_9fe2_875f_b3eb_10fd, e);
  }

  lemma Squares5c(e: nat)
    requires IsPower(0xa73a_a0c5_00f0_eb80_e485_56d9_1b2d_a742, e)
    ensures IsPower(0x11e5_d827_bde3_f7a8_d0dd_2ac6_4adb_1ef5, 0x100 * e)
  {
    assert Sq8(0xa73a_a0c5_00f0_eb80_e485_56d9_1b2d_a742) == 0x11e5_d827_bde3_f7a8_d0dd_2ac6_4adb_1ef5;
    hide *;
    Sq8Power(0xa73a_a0c5_00f0_eb80_e485_56d9_1b2d_a742, e);
  }

  lemma Squares5d(e: nat)
    requires IsPower(0x11e5_d827_bde3_f7a8_d0dd_2ac6_4adb_1ef5, e)
    ensures IsPower(CONJUGATE5, 0x100 * e)
  {
    assert Sq8(0x11e5_d827_bde3_f7a8_d0dd_2ac6_4adb_1ef5) == CONJUGATE5;
    hide *;
    Sq8Power(0x11e5_d827_bde3_f7a8_d0dd_2ac6_4adb_1ef5, e);
  }

  lemma Norm6()
    ensures Mul(BASE6, CONJUGATE6) == BASE5
  {
  }

  lemma Level5()
    ensures IsPower(BASE5, 0x0001_0000_0000_0000_0001)
    ensures IsPower(CONJUGATE5, 0x0001_0000_0000_0000_0001_0000_0000)
  {
    hide *;
    Level6();
    Norm6();
    MulPower(BASE6, 0x1, CONJUGATE6, 0x0001_0000_0000_0000_0000);
    Squares5a(0x0001_0000_0000_0000_0001);
    Squares5b(0x0100_0000_0000_0000_0100);
    Squares5c(0x0001_0000_0000_0000_0001_0000);
    Squares5d(0x0100_0000_0000_0000_0100_0000);
  }

  lemma Squares4a(e: nat)
    requires IsPower(BASE4, e)
    ensures IsPower(0x49ba_e2a6_2195_7632_4be0_910a_bfcf_d2dd, 0x100 * e)
  {
    assert Sq8(BASE4) == 0x49ba_e2a6_2195_7632_4be0_910a_bfcf_d2dd;
    hide *;
    Sq8Power(BASE4, e);
  }

  lemma Squares4b(e: nat)
    requires IsPower(0x49ba_e2a6_2195_7632_4be0_910a_bfcf_d2dd, e)
    ensures IsPower(CONJUGATE4, 0x100 * e)
  {
    assert Sq8(0x49ba_e2a6_2195_7632_4be0_910a_bfcf_d2dd) == CONJUGATE4;
    hide *;
    Sq8Power(0x49ba_e2a6_2195_7632_4be0_910a_bfcf_d2dd, e);
  }

  lemma Norm5()
    ensures Mul(BASE5, CONJUGATE5) == BASE4
  {
  }

  lemma Level4()
    ensures IsPower(BASE4, 0x0001_0000_0001_0000_0001_0000_0001)
    ensures IsPower(CONJUGATE4, 0x0001_0000_0001_0000_0001_0000_0001_0000)
  {
    hide *;
    Level5();
    Norm5();
    MulPower(BASE5, 0x0001_0000_0000_0000_0001, CONJUGATE5, 0x0001_0000_0000_0000_0001_0000_0000);
    Squares4a(0x0001_0000_0001_0000_0001_0000_0001);
    Squares4b(0x0100_0000_0100_0000_0100_0000_0100);
  }

  lemma Squares3(e: nat)
    requires IsPower(BASE3, e)
    ensures IsPower(CONJUGATE3, 0x100 * e)
  {
    assert Sq8(BASE3) == CONJUGATE3;
    hide *;
    Sq8Power(BASE3, e);
  }

  lemma Norm4()
    ensures Mul(BASE4, CONJUGATE4) == BASE3
  {
  }

  lemma Level3()
    ensures IsPower(BASE3, 0x0001_0001_0001_0001_0001_0001_0001_0001)
    ensures IsPower(CONJUGATE3, 0x0100_0100_0100_0100_0100_0100_0100_0100)
  {
    hide *;
    Level4();
    Norm4();
    MulPower(BASE4, 0x0001_0000_0001_0000_0001_0000_0001, CONJUGATE4, 0x0001_0000_0001_0000_0001_0000_0001_0000);
    Squares3(0x0001_0001_0001_0001_0001_0001_0001_0001);
  }

  lemma Squares2(e: nat)
    requires IsPower(BASE2, e)
    ensures IsPower(CONJUGATE2, 0x10 * e)
  {
    assert Sq4(BASE2) == CONJUGATE2;
    hide *;
    Sq4Power(BASE2, e);
  }

  lemma Norm3()
    ensures Mul(BASE3, CONJUGATE3) == BASE2
  {
  }

  lemma Level2()
    ensures IsPower(BASE2, 0x0101_0101_0101_0101_0101_0101_0101_0101)
    ensures IsPower(CONJUGATE2, 0x1010_1010_1010_1010_1010_1010_1010_1010)
  {
    hide *;
    Level3();
    Norm3();
    MulPower(BASE3, 0x0001_0001_0001_0001_0001_0001_0001_0001, CONJUGATE3, 0x0100_0100_0100_0100_0100_0100_0100_0100);
    Squares2(0x0101_0101_0101_0101_0101_0101_0101_0101);
  }

  lemma Squares1(e: nat)
    requires IsPower(BASE1, e)
    ensures IsPower(CONJUGATE1, 0x4 * e)
  {
    assert Sq2(BASE1) == CONJUGATE1;
    hide *;
    Sq2Power(BASE1, e);
  }

  lemma Norm2()
    ensures Mul(BASE2, CONJUGATE2) == BASE1
  {
  }

  lemma Level1()
    ensures IsPower(BASE1, 0x1111_1111_1111_1111_1111_1111_1111_1111)
    ensures IsPower(CONJUGATE1, 0x4444_4444_4444_4444_4444_4444_4444_4444)
  {
    hide *;
    Level2();
    Norm2();
    MulPower(BASE2, 0x0101_0101_0101_0101_0101_0101_0101_0101, CONJUGATE2, 0x1010_1010_1010_1010_1010_1010_1010_1010);
    Squares1(0x1111_1111_1111_1111_1111_1111_1111_1111);
  }

  lemma Squares0(e: nat)
    requires IsPower(BASE0, e)
    ensures IsPower(CONJUGATE0, 0x2 * e)
  {
    assert Sq(BASE0) == CONJUGATE0;
    hide *;
    SqPower(BASE0, e);
  }

  lemma Norm1()
    ensures Mul(BASE1, CONJUGATE1) == BASE0
  {
  }

  lemma Level0()
    ensures IsPower(BASE0, 0x5555_5555_5555_5555_5555_5555_5555_5555)
    ensures IsPower(CONJUGATE0, 0xaaaa_aaaa_aaaa_aaaa_aaaa_aaaa_aaaa_aaaa)
  {
    hide *;
    Level1();
    Norm1();
    MulPower(BASE1, 0x1111_1111_1111_1111_1111_1111_1111_1111, CONJUGATE1, 0x4444_4444_4444_4444_4444_4444_4444_4444);
    Squares0(0x5555_5555_5555_5555_5555_5555_5555_5555);
  }

  /** The norm of the last one is one. */
  lemma OrderPower()
    ensures IsPower(0x1, ORDER)
  {
    assert Mul(BASE0, CONJUGATE0) == 0x1;
    hide *;
    Level0();
    MulPower(BASE0, 0x5555_5555_5555_5555_5555_5555_5555_5555, CONJUGATE0, 0xaaaa_aaaa_aaaa_aaaa_aaaa_aaaa_aaaa_aaaa);
    OrderIs();
  }

  lemma OrderIs()
    ensures ORDER == 0x5555_5555_5555_5555_5555_5555_5555_5555 + 0xaaaa_aaaa_aaaa_aaaa_aaaa_aaaa_aaaa_aaaa
  {
  }

  // ------------------------------------------------------------------ what fixes only zero

  /** Moving n positions on brings t back. */
  predicate Fixed(t: Register, n: nat) {
    Doubled(t, n) == t
  }

  /**
   If t is fixed by the power m of alpha, and a, s are the powers e and m + e, the sum of a and s
   takes t to zero; with an inverse c of the sum t is zero.
   */
  lemma Killed(t: Register, a: bv128, s: bv128, c: bv128, e: nat, m: nat)
    requires IsPower(a, e) && IsPower(s, m + e) && Fixed(t, m) && Mul(Add(s, a), c) == 0x1
    ensures t == 0
  {
    hide Mul, Add, ToRegister, Product, Power, Doubled, XorNat;
    ProductPower(t, e);
    ProductPower(t, m + e);
    DoubledSum(t, m, e);
    AddValue(s, a);
    ProductAdd(t, ToRegister(s), ToRegister(a));
    MulValue(Add(s, a), c);
    OneValue();
    Cancel(t, ToRegister(Add(s, a)), ToRegister(c));
  }

  lemma ProductAdd(t: Register, s: Register, a: Register)
    requires Product(t, s) == Product(t, a)
    ensures Product(t, XorNat(s, a)) == 0
  {
    hide Clmul, Reduce, XorNat;
    ClmulAddRight(t, s, a);
    ReduceLinear(Clmul(t, s), Clmul(t, a));
    XorNatInvolution(0, Product(t, a));
    XorNatZero(Product(t, a));
  }

  lemma Inverse4()
    ensures Mul(Add(CONJUGATE4, BASE4), 0x55a1_9898_4233_7e6f_2998_5744_f560_5b21) == 0x1
  {
  }

  lemma Fermat4(t: Register)
    requires Fixed(t, 0xffff_0000_ffff_0000_ffff_0000_ffff)
    ensures t == 0
  {
    hide *;
    Inverse4();
    Level4();
    Killed(t, BASE4, CONJUGATE4, 0x55a1_9898_4233_7e6f_2998_5744_f560_5b21,
           0x0001_0000_0001_0000_0001_0000_0001, 0xffff_0000_ffff_0000_ffff_0000_ffff);
  }

  lemma Inverse3()
    ensures Mul(Add(CONJUGATE3, BASE3), 0xa72e_c177_64d7_ced5_5e2f_716f_4ede_412f) == 0x1
  {
  }

  lemma Fermat3(t: Register)
    requires Fixed(t, 0x00ff_00ff_00ff_00ff_00ff_00ff_00ff_00ff)
    ensures t == 0
  {
    hide *;
    Inverse3();
    Level3();
    Killed(t, BASE3, CONJUGATE3, 0xa72e_c177_64d7_ced5_5e2f_716f_4ede_412f,
           0x0001_0001_0001_0001_0001_0001_0001_0001, 0x00ff_00ff_00ff_00ff_00ff_00ff_00ff_00ff);
  }

  lemma Inverse2()
    ensures Mul(Add(CONJUGATE2, BASE2), 0x7959_d70c_e1ee_6942_53b8_5b64_02b1_e848) == 0x1
  {
  }

  lemma Fermat2(t: Register)
    requires Fixed(t, 0x0f0f_0f0f_0f0f_0f0f_0f0f_0f0f_0f0f_0f0f)
    ensures t == 0
  {
    hide *;
    Inverse2();
    Level2();
    Killed(t, BASE2, CONJUGATE2, 0x7959_d70c_e1ee_6942_53b8_5b64_02b1_e848,
           0x0101_0101_0101_0101_0101_0101_0101_0101, 0x0f0f_0f0f_0f0f_0f0f_0f0f_0f0f_0f0f_0f0f);
  }

  lemma Inverse1()
    ensures Mul(Add(CONJUGATE1, BASE1), 0x1) == 0x1
  {
    assert Add(CONJUGATE1, BASE1) == 0x1 && Mul(0x1, 0x1) == 0x1;
  }

  lemma Fermat1(t: Register)
    requires Fixed(t, 0x3333_3333_3333_3333_3333_3333_3333_3333)
    ensures t == 0
  {
    hide *;
    Inverse1();
    Level1();
    Killed(t, BASE1, CONJUGATE1, 0x1,
           0x1111_1111_1111_1111_1111_1111_1111_1111, 0x3333_3333_3333_3333_3333_3333_3333_3333);
  }

  lemma Inverse0()
    ensures Mul(Add(CONJUGATE0, BASE0), 0x1) == 0x1
  {
    assert Add(CONJUGATE0, BASE0) == 0x1 && Mul(0x1, 0x1) == 0x1;
  }

  lemma Fermat0(t: Register)
    requires Fixed(t, 0x5555_5555_5555_5555_5555_5555_5555_5555)
    ensures t == 0
  {
    hide *;
    Inverse0();
    Level0();
    Killed(t, BASE0, CONJUGATE0, 0x1,
           0x5555_5555_5555_5555_5555_5555_5555_5555, 0x5555_5555_5555_5555_5555_5555_5555_5555);
  }

  // ------------------------------------------------------------------ the order

  /** The prime factors of PERIOD_FACTOR. */
  predicate Factor(q: nat) {
    q == 3 || q == 5 || q == 17 || q == 257 || q == 65537
  }

  lemma FactorFixes(t: Register, q: nat, m: nat)
    requires Factor(q) && m * q == ORDER && Fixed(t, m)
    ensures t == 0
  {
    hide Fixed;
    if q == 3 {
      Fermat0(t);
    } else if q == 5 {
      Fermat1(t);
    } else if q == 17 {
      Fermat2(t);
    } else if q == 257 {
      Fermat3(t);
    } else {
      Fermat4(t);
    }
  }

  lemma Quotient(q: nat) returns (m: nat)
    requires Factor(q)
    ensures m * q == ORDER
  {
    m := ORDER / q;
  }

  lemma NoFactor(q: nat, d: nat)
    requires Factor(q) && 1 < d <= 256 && d < q
    ensures q % d != 0
  {
    if q == 65537 {
      NoFactorOf65537(d);
    }
  }

  lemma NoFactorOf65537(d: nat)
    requires 1 < d <= 256
    ensures 65537 % d != 0
  {
  }

  lemma FactorPrime(q: nat, g: nat, y: nat)
    requires Factor(q) && q == g * y
    ensures g == 1 || g == q
  {
    if g > 1 && y > 1 {
      if g > 256 && y > 256 {
        AtLeast(g, y);
        assert false;
      } else if g <= 256 {
        MultipleMod(g, y);
        Smaller(g, y);
        NoFactor(q, g);
      } else {
        MultipleMod(y, g);
        Smaller(y, g);
        NoFactor(q, y);
      }
    }
  }

  lemma AtLeast(g: nat, y: nat)
    requires g > 256 && y > 256
    ensures g * y > 65537
  {
    assert g * y >= 257 * y;
  }

  lemma Smaller(g: nat, y: nat)
    requires g > 0 && y > 1
    ensures g < g * y
  {
  }

  lemma MultipleMod(g: nat, y: nat)
    requires g > 0
    ensures g * y % g == 0
  {
    var v := g * y;
    OneQuotient(g, y, v / g, v % g);
  }

  lemma OneQuotient(g: nat, y: nat, k: nat, r: nat)
    requires g * y == g * k + r && r < g
    ensures r == 0
  {
    if y > k {
      assert g * y == g * k + g * (y - k);
      Multiple(g, y - k);
    } else {
      assert g * k == g * y + g * (k - y);
    }
  }

  lemma Multiple(g: nat, z: nat)
    requires z > 0
    ensures g * z >= g
  {
  }

  /** Every register comes back after 2^128 - 1 positions. */
  lemma AllFixed(t: Register)
    ensures Fixed(t, ORDER)
  {
    hide Doubled, Power, ToRegister, ORDER, Clmul, Reduce;
    OrderPower();
    OneValue();
    ProductPower(t, ORDER);
    ClmulOne(t);
    ReduceSmall(t);
  }

  lemma {:induction false} FixedTimes(t: Register, n: nat, k: nat)
    requires Fixed(t, n)
    ensures Fixed(t, n * k)
  {
    if k == 0 {
      assert n * k == 0;
    } else {
      FixedTimes(t, n, k - 1);
      DoubledSum(t, n, n * (k - 1));
      assert n * k == n + n * (k - 1);
    }
  }

  lemma FixedRest(t: Register, a: nat, b: nat, c: nat)
    requires Fixed(t, a) && Fixed(t, c) && c == a + b
    ensures Fixed(t, b)
  {
    DoubledSum(t, a, b);
  }

  /** What is fixed by two multiples of m is fixed by the multiple for their greatest common divisor. */
  lemma {:induction false} Common(t: Register, m: nat, a: nat, b: nat) returns (g: nat, x: nat, y: nat)
    requires a > 0 && b > 0 && Fixed(t, m * a) && Fixed(t, m * b)
    ensures a == g * x && b == g * y && Fixed(t, m * g)
    decreases a + b
  {
    hide Fixed;
    if a == b {
      g, x, y := a, 1, 1;
    } else if a < b {
      assert m * b == m * a + m * (b - a);
      FixedRest(t, m * a, m * (b - a), m * b);
      g, x, y := Common(t, m, a, b - a);
      assert g * (x + y) == g * x + g * y;
      y := x + y;
    } else {
      assert m * a == m * b + m * (a - b);
      FixedRest(t, m * b, m * (a - b), m * a);
      g, x, y := Common(t, m, a - b, b);
      assert g * (x + y) == g * x + g * y;
      x := x + y;
    }
  }

  lemma FactorDivides(t: Register, n: nat, q: nat)
    requires t != 0 && n > 0 && Fixed(t, n) && Factor(q)
    ensures n % q == 0
  {
    hide Fixed, ORDER;
    var m := Quotient(q);
    AllFixed(t);
    FixedTimes(t, n, m);
    var g, x, y := Common(t, m, n, q);
    FactorPrime(q, g, y);
    MultipleMod(g, x);
    if g == 1 {
      FactorFixes(t, q, m);
    }
  }

  lemma AllDivide(n: nat)
    requires n % 3 == 0 && n % 5 == 0 && n % 17 == 0 && n % 257 == 0 && n % 65537 == 0
    ensures n % PERIOD_FACTOR == 0
  {
    FirstTwo(n);
    FirstThree(n);
    FirstFour(n);
    AllFive(n);
  }

  lemma FirstTwo(n: nat)
    requires n % 3 == 0 && n % 5 == 0
    ensures n % 15 == 0
  {
    assert n == 15 * (2 * (n / 5) - n / 3);
  }

  lemma FirstThree(n: nat)
    requires n % 15 == 0 && n % 17 == 0
    ensures n % 255 == 0
  {
    assert n == 255 * (8 * (n / 17) - 7 * (n / 15));
  }

  lemma FirstFour(n: nat)
    requires n % 255 == 0 && n % 257 == 0
    ensures n % 65535 == 0
  {
    assert n == 65535 * (128 * (n / 257) - 127 * (n / 255));
  }

  lemma AllFive(n: nat)
    requires n % 65535 == 0 && n % 65537 == 0
    ensures n % PERIOD_FACTOR == 0
  {
    assert n == PERIOD_FACTOR * (32768 * (n / 65537) - 32767 * (n / 65535));
  }

  /** A register other than zero is fixed only by multiples of 2^32 - 1. */
  lemma FixedBy(t: Register, n: nat)
    requires t != 0 && Fixed(t, n)
    ensures n % PERIOD_FACTOR == 0
  {
    if n > 0 {
      hide Fixed;
      FactorDivides(t, n, 3);
      FactorDivides(t, n, 5);
      FactorDivides(t, n, 17);
      FactorDivides(t, n, 257);
      FactorDivides(t, n, 65537);
      AllDivide(n);
    }
  }

  lemma {:induction false} ZeroFixed(n: nat)
    ensures Fixed(0, n)
  {
    if n > 0 {
      ZeroFixed(n - 1);
    }
  }

  /**
   Moved by a number of blocks that is not a multiple of 2^32 - 1, only the zero tweak is the same
   again.
   */
  lemma TweakReturnsIff(t: Block, n: nat)
    requires n % PERIOD_FACTOR != 0
    ensures Tweak(t, n) == t <==> t == Zeros(16)
  {
    hide Tweak, Doubled, FromLe, ToLe;
    TweakDoubled(t, n);
    ToFromLe(t);
    ToFromLe(Zeros(16));
    ToFromLe(Tweak(t, n));
    FromLeZeros(16);
    ZeroFixed(n);
    TweakDoubled(t, 0);
    if Tweak(t, n) == t && FromLe(t) != 0 {
      FixedBy(FromLe(t), n);
    }
  }
}
