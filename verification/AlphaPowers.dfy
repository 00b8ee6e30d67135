/**
 Distant XTS tweaks: the table alpha_powers of aesni_xts.cc, each row proved to be the square of
 the row before it, and TweakBlockCalculate with its two loops.
 */
module AlphaPowers {
  import opened Bytes
  import opened Octets
  import opened Xts
  import opened Gf128
  import opened RegisterBits

  // ------------------------------------------------------------------ the table

  /** alpha_powers: alpha to the power 2^k for k up to 15. */
  function Table(): (t: seq<bv128>)
    ensures |t| == 16
  {
    [0x2, 0x4, 0x10, 0x100, 0x1_0000, 0x1_0000_0000, 0x1_0000_0000_0000_0000, 0x87, 0x4015, 0x1000_0111,
     0x0100_0000_0001_0101, 0x0001_0000_0000_0000_0000_0001_0001_0001, 0x0000_0087_0000_0001_0000_0001_0000_0001,
     0x0021_caea_0000_0000_0000_0086, 0x0002_1cae_93f7_cfc8, 0x0004_0150_4454_4105_5515_5055_5040]
  }

  /** Each row is the square of the row before it. */
  lemma RowsSquare(k: nat)
    requires k < 15
    ensures Sq(Table()[k]) == Table()[k + 1]
  {
    LowerSquares();
    UpperSquares();
    hide Sq;
  }

  lemma LowerSquares()
    ensures Sq(0x2) == 0x4 && Sq(0x4) == 0x10 && Sq(0x10) == 0x100 && Sq(0x100) == 0x1_0000
    ensures Sq(0x1_0000) == 0x1_0000_0000 && Sq(0x1_0000_0000) == 0x1_0000_0000_0000_0000
    ensures Sq(0x1_0000_0000_0000_0000) == 0x87 && Sq(0x87) == 0x4015
  {
  }

  lemma UpperSquares()
    ensures Sq(0x4015) == 0x1000_0111 && Sq(0x1000_0111) == 0x0100_0000_0001_0101
    ensures Sq(0x0100_0000_0001_0101) == 0x0001_0000_0000_0000_0000_0001_0001_0001
    ensures Sq(0x0001_0000_0000_0000_0000_0001_0001_0001) == 0x0000_0087_0000_0001_0000_0001_0000_0001
    ensures Sq(0x0000_0087_0000_0001_0000_0001_0000_0001) == 0x0021_caea_0000_0000_0000_0086
    ensures Sq(0x0021_caea_0000_0000_0000_0086) == 0x0002_1cae_93f7_cfc8
    ensures Sq(0x0002_1cae_93f7_cfc8) == 0x0004_0150_4454_4105_5515_5055_5040
  {
  }

  /** Row k of the table is alpha to the power 2^k. */
  lemma {:induction false} TableRow(k: nat)
    requires k < 16
    ensures ToRegister(Table()[k]) == Power(Pow2(k))
  {
    if k == 0 {
      FirstRow(k);
    } else {
      hide *;
      TableRow(k - 1);
      RowsSquare(k - 1);
      MulValue(Table()[k - 1], Table()[k - 1]);
      SqIs(Table()[k - 1]);
      Pow2Next(k);
      PowersMultiply(Pow2(k - 1), Pow2(k - 1), Pow2(k));
    }
  }

  lemma Pow2Next(k: nat)
    requires k > 0
    ensures Pow2(k) == Pow2(k - 1) + Pow2(k - 1)
  {
  }

  lemma FirstRow(k: nat)
    requires k == 0
    ensures ToRegister(Table()[k]) == Power(Pow2(k))
  {
    assert Twice(0x1) == 0x2;
    OneValue();
    TwiceValue(0x1);
    hide ToRegister, Twice, Double;
    assert Power(1) == Double(Power(0));
  }

  // ------------------------------------------------------------------ TweakBlockCalculate

  /**
   Moves a tweak on by inc blocks: alpha^inc from the table for the low sixteen bits of inc and
   by repeated squaring for the rest, then one multiplication.
   */
  method TweakBlockCalculate(tweakBlock: Block, inc: nat) returns (moved: Block)
    ensures moved == Tweak(tweakBlock, inc)
  {
    if inc == 0 {
      return tweakBlock;
    }
    hide Tweak, Power, GfMul128, Product, FromLe, ToLe, Doubled;
    TweakDoubled(tweakBlock, 0);
    TweakDoubled(tweakBlock, inc);
    var tweak: Register := FromLe(tweakBlock);
    var result := AlphaPower(inc);
    ProductPower(tweak, inc);
    moved := ToLe(GfMul128(tweak, result), 16);
    ToFromLe(Tweak(tweakBlock, inc));
  }

  method AlphaPower(inc: nat) returns (result: Register)
    ensures result == Power(inc)
  {
    hide Power;
    var low, high := inc % 0x1_0000, inc / 0x1_0000;
    result := LowPower(low);
    result := HighPower(result, low, high);
    assert inc == low + 0x1_0000 * high;
  }

  const ONE: Register := 1

  /** The exponent gathered so far, and what is left of it in units of p. */
  ghost predicate Gathers(done: nat, left: nat, p: nat, n: nat) {
    done + left * p == n
  }

  lemma NothingDone(n: nat)
    ensures Gathers(0, n, 1, n) && Power(0) == ONE && Pow2(0) == 1
  {
  }

  lemma NothingLeft(done: nat, p: nat, n: nat)
    requires Gathers(done, 0, p, n)
    ensures done == n
  {
  }

  /** One turn of either loop. */
  lemma NextBit(done: nat, left: nat, p: nat, n: nat)
    requires Gathers(done, left, p, n)
    ensures Gathers(done + if left % 2 == 1 then p else 0, left / 2, 2 * p, n)
  {
    assert left == 2 * (left / 2) + left % 2;
    Distribute(left / 2, left % 2, p);
  }

  lemma Distribute(h: nat, b: nat, p: nat)
    ensures (2 * h + b) * p == h * (2 * p) + b * p
  {
  }

  /** The table loop. */
  method LowPower(n: nat) returns (result: Register)
    requires n < 0x1_0000
    ensures result == Power(n)
  {
    result := ONE;
    hide *;
    var low: nat, i: nat := n, 0;
    ghost var done: nat, p: nat := 0, 1;
    NothingDone(n);
    while low != 0
      invariant Gathers(done, low, p, n) && p == Pow2(i) && result == Power(done)
      decreases low
    {
      TableBound(done, low, i, n);
      TableRow(i);
      NextBit(done, low, p, n);
      if low % 2 == 1 {
        PowersMultiply(done, p, done + p);
        result := GfMul128(result, ToRegister(Table()[i]));
        done := done + p;
      }
      Pow2Next(i + 1);
      i, low, p := i + 1, low / 2, 2 * p;
    }
    NothingLeft(done, p, n);
  }

  lemma TableBound(done: nat, low: nat, i: nat, n: nat)
    requires low > 0 && n < 0x1_0000 && Gathers(done, low, Pow2(i), n)
    ensures i < 16
  {
    if i >= 16 {
      PowMonotonic(16, i);
      assert Pow2(8) == 256 by { assert Pow2(4) == 16; }
      assert Pow2(16) == 0x1_0000 by { assert Pow2(16) == 256 * Pow2(8); }
      AtLeast(low, Pow2(i));
    }
  }

  lemma AtLeast(a: nat, b: nat)
    requires a > 0
    ensures a * b >= b
  {
  }

  /** The squaring loop, from alpha^(2^16). */
  method HighPower(result0: Register, low: nat, high0: nat) returns (result: Register)
    requires result0 == Power(low)
    ensures result == Power(low + 0x1_0000 * high0)
  {
    hide Power, GfMul128, Product, Table, ToRegister;
    result := result0;
    var high: nat := high0;
    if high != 0 {
      var alphaPower := GfMul128(ToRegister(Table()[15]), ToRegister(Table()[15]));
      ghost var p: nat, done: nat, n := 0x1_0000, low, low + 0x1_0000 * high0;
      SixteenthPower();
      assert Gathers(done, high, p, n);
      hide Gathers;
      while high > 0
        invariant Gathers(done, high, p, n) && result == Power(done) && alphaPower == Power(p)
        decreases high
      {
        NextBit(done, high, p, n);
        if high % 2 == 1 {
          PowersMultiply(done, p, done + p);
          result := GfMul128(result, alphaPower);
          done := done + p;
        }
        PowersMultiply(p, p, 2 * p);
        alphaPower := GfMul128(alphaPower, alphaPower);
        p, high := 2 * p, high / 2;
      }
      NothingLeft(done, p, n);
    }
  }

  lemma SixteenthPower()
    ensures Product(ToRegister(Table()[15]), ToRegister(Table()[15])) == Power(0x1_0000)
  {
    hide Power, Product, Table, ToRegister;
    TableRow(15);
    var e := Pow2(15);
    assert Pow2(16) == 2 * e && e == 0x8000 by {
      Shift8(1, 0);
      Shift8(1, 8);
      ShiftOne(16);
    }
    PowersMultiply(e, e, 0x1_0000);
  }
}
