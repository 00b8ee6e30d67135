/**
 Multiplication in GF(2^128) with the polynomial x^128 + x^7 + x^2 + x + 1: the field as
 residues of carry-less products, and GfMul128 of aesni_xts.cc on 64-bit words. Polynomials
 over GF(2) are naturals, bit k being the coefficient of x^k; registers hold those of degree
 below 128.
 */
module Gf128 {
  import opened Bytes
  import opened Octets
  import opened Xts

  const TWO127: nat := 0x8000_0000_0000_0000_0000_0000_0000_0000
  const TWO128: nat := 0x1_0000_0000_0000_0000_0000_0000_0000_0000

  type Register = v: int | 0 <= v < TWO128

  // ------------------------------------------------------------------ exclusive-or

  /** The lowest bits are added apart. */
  lemma XorBit(a: nat, p: nat, b: nat, q: nat)
    requires p < 2 && q < 2
    ensures XorNat(2 * a + p, 2 * b + q) == 2 * XorNat(a, b) + if p == q then 0 else 1
  {
    hide XorNat;
    Halves(p, a);
    Halves(q, b);
    XorNatStep(2 * a + p, 2 * b + q);
  }

  lemma Halves(x: nat, s: nat)
    ensures (x + 2 * s) / 2 == x / 2 + s && (x + 2 * s) % 2 == x % 2
  {
  }

  lemma {:induction false} XorNatAssoc(a: nat, b: nat, c: nat)
    ensures XorNat(XorNat(a, b), c) == XorNat(a, XorNat(b, c))
    decreases a + b + c
  {
    hide XorNat;
    if a + b + c == 0 {
      XorNatZero(0);
    } else {
      XorNatAssoc(a / 2, b / 2, c / 2);
      AssocStep(a / 2, a % 2, b / 2, b % 2, c / 2, c % 2);
    }
  }

  lemma AssocStep(a: nat, p: nat, b: nat, q: nat, c: nat, r: nat)
    requires p < 2 && q < 2 && r < 2
    requires XorNat(XorNat(a, b), c) == XorNat(a, XorNat(b, c))
    ensures XorNat(XorNat(2 * a + p, 2 * b + q), 2 * c + r) == XorNat(2 * a + p, XorNat(2 * b + q, 2 * c + r))
  {
    hide XorNat;
    XorBit(a, p, b, q);
    XorBit(b, q, c, r);
    XorBit(XorNat(a, b), if p == q then 0 else 1, c, r);
    XorBit(a, p, XorNat(b, c), if q == r then 0 else 1);
  }

  /** Sums may be regrouped. */
  lemma XorFour(a: nat, b: nat, c: nat, d: nat)
    ensures XorNat(XorNat(a, b), XorNat(c, d)) == XorNat(XorNat(a, c), XorNat(b, d))
  {
    hide XorNat;
    XorNatAssoc(a, b, XorNat(c, d));
    XorNatAssoc(b, c, d);
    XorNatCommutes(b, c);
    XorNatAssoc(c, b, d);
    XorNatAssoc(a, c, XorNat(b, d));
  }

  lemma XorDoubled(a: nat, b: nat)
    ensures XorNat(2 * a, 2 * b) == 2 * XorNat(a, b)
  {
    hide XorNat;
    XorNatStep(2 * a, 2 * b);
  }

  lemma {:induction false} XorShift(a: nat, b: nat, k: nat)
    ensures XorNat(Shift(a, k), Shift(b, k)) == Shift(XorNat(a, b), k)
  {
    hide XorNat;
    if k > 0 {
      XorShift(a, b, k - 1);
      XorDoubled(Shift(a, k - 1), Shift(b, k - 1));
    }
  }

  /** Parts below and above position k are added apart. */
  lemma {:induction false} XorParts(x: nat, y: nat, h: nat, g: nat, k: nat)
    requires x < Pow2(k) && y < Pow2(k)
    ensures XorNat(x + Shift(h, k), y + Shift(g, k)) == XorNat(x, y) + Shift(XorNat(h, g), k)
    decreases k
  {
    hide XorNat;
    if k == 0 {
      XorNatZero(0);
    } else {
      XorParts(x / 2, y / 2, h, g, k - 1);
      PartsStep(x / 2, x % 2, y / 2, y % 2, Shift(h, k - 1), Shift(g, k - 1), Shift(XorNat(h, g), k - 1));
    }
  }

  lemma PartsStep(x: nat, p: nat, y: nat, q: nat, s: nat, t: nat, st: nat)
    requires p < 2 && q < 2 && XorNat(x + s, y + t) == XorNat(x, y) + st
    ensures XorNat(2 * x + p + 2 * s, 2 * y + q + 2 * t) == XorNat(2 * x + p, 2 * y + q) + 2 * st
  {
    hide XorNat;
    XorBit(x + s, p, y + t, q);
    XorBit(x, p, y, q);
  }

  /** A sum of a low and a high part is their exclusive-or. */
  lemma XorJoins(x: nat, h: nat, k: nat)
    requires x < Pow2(k)
    ensures x + Shift(h, k) == XorNat(x, Shift(h, k))
  {
    hide XorNat;
    XorNatZero(h);
    XorNatCommutes(x, 0);
    XorNatZero(x);
    PowPositive(k);
    XorParts(x, 0, 0, h, k);
    ShiftZero(k);
  }

  lemma {:induction false} PowPositive(k: nat)
    ensures Pow2(k) > 0
  {
    if k > 0 {
      PowPositive(k - 1);
    }
  }

  lemma {:induction false} ShiftZero(k: nat)
    ensures Shift(0, k) == 0
  {
    if k > 0 {
      ShiftZero(k - 1);
    }
  }

  lemma {:induction false} ShiftOne(k: nat)
    ensures Shift(1, k) == Pow2(k)
  {
    if k > 0 {
      ShiftOne(k - 1);
    }
  }

  lemma {:induction false} ShiftSum(v: nat, j: nat, k: nat)
    ensures Shift(v, j + k) == Shift(Shift(v, j), k)
  {
    if k > 0 {
      ShiftSum(v, j, k - 1);
    }
  }

  lemma {:induction false} PowSum(j: nat, k: nat)
    ensures Pow2(j + k) == Shift(Pow2(j), k)
  {
    if k > 0 {
      PowSum(j, k - 1);
    }
  }

  lemma RegisterSizes()
    ensures Pow2(64) == TWO64 && Pow2(127) == TWO127 && Pow2(128) == TWO128
  {
    WordSizes();
    PowSum(64, 64);
    Shift64(TWO64);
  }

  // ------------------------------------------------------------------ polynomials

  /** Carry-less multiplication. */
  function Clmul(a: nat, b: nat): nat
    decreases a
  {
    if a == 0 then 0 else XorNat(if a % 2 == 1 then b else 0, 2 * Clmul(a / 2, b))
  }

  /** The residue modulo the polynomial, by Horner's rule from the highest coefficient. */
  function Reduce(v: nat): (r: Register)
    decreases v
  {
    if v == 0 then 0
    else
      var d := Double(Reduce(v / 2));
      DoubleBound(Reduce(v / 2));
      RegisterSizes();
      XorNatBound(v % 2, d, 128);
      XorNat(v % 2, d)
  }

  /** The product in the field. */
  function Product(a: nat, b: nat): Register {
    Reduce(Clmul(a, b))
  }

  lemma DoubleBound(v: nat)
    requires v < TWO128
    ensures Double(v) < TWO128
  {
    RegisterSizes();
    if v >= TWO127 {
      XorNatBound(2 * v - TWO128, 0x87, 128);
    }
  }

  function Feedback(h: nat): nat {
    if h == 0 then 0 else 0x87
  }

  lemma DoubleParts(v: nat, x: nat, h: nat)
    requires x < TWO127 && h < 2 && v == x + Shift(h, 127)
    ensures v < TWO128 && Double(v) == XorNat(2 * x, Feedback(h))
  {
    hide XorNat;
    RegisterSizes();
    ShiftZero(127);
    ShiftOne(127);
    XorNatCommutes(2 * x, 0);
    XorNatZero(2 * x);
  }

  lemma TopPart(v: nat) returns (x: nat, h: nat)
    requires v < TWO128
    ensures x < TWO127 && h < 2 && v == x + Shift(h, 127)
  {
    RegisterSizes();
    ShiftZero(127);
    ShiftOne(127);
    if v < TWO127 {
      x, h := v, 0;
    } else {
      x, h := v - TWO127, 1;
    }
  }

  lemma DoubleLinear(a: nat, b: nat)
    requires a < TWO128 && b < TWO128
    ensures XorNat(a, b) < TWO128 && Double(XorNat(a, b)) == XorNat(Double(a), Double(b))
  {
    hide XorNat;
    var x, h := TopPart(a);
    var y, g := TopPart(b);
    var z, e, v := SumParts(x, h, y, g);
    DoubleParts(a, x, h);
    DoubleParts(b, y, g);
    DoubleParts(v, z, e);
    XorDoubled(x, y);
    XorFour(2 * x, Feedback(h), 2 * y, Feedback(g));
  }

  lemma SumParts(x: nat, h: nat, y: nat, g: nat) returns (z: nat, e: nat, v: nat)
    requires x < TWO127 && y < TWO127 && h < 2 && g < 2
    ensures z == XorNat(x, y) < TWO127 && e < 2 && Feedback(e) == XorNat(Feedback(h), Feedback(g))
    ensures v == XorNat(x + Shift(h, 127), y + Shift(g, 127)) == z + Shift(e, 127)
  {
    hide XorNat;
    RegisterSizes();
    XorParts(x, y, h, g, 127);
    XorNatBound(x, y, 127);
    Bits(h, g);
    FeedbackSum(h, g);
    z, e, v := XorNat(x, y), (h + g) % 2, XorNat(x + Shift(h, 127), y + Shift(g, 127));
  }

  lemma FeedbackSum(h: nat, g: nat)
    requires h < 2 && g < 2
    ensures Feedback((h + g) % 2) == XorNat(Feedback(h), Feedback(g))
  {
    hide XorNat;
    XorNatZero(0);
    XorNatZero(0x87);
    XorNatCommutes(0, 0x87);
    XorNatInvolution(0, 0x87);
  }

  lemma Bits(h: nat, g: nat)
    requires h < 2 && g < 2
    ensures XorNat(h, g) == (h + g) % 2
  {
    XorNatStep(h, g);
  }

  lemma {:induction false} ReduceLinear(u: nat, v: nat)
    ensures Reduce(XorNat(u, v)) == XorNat(Reduce(u), Reduce(v))
    decreases u + v
  {
    hide XorNat, Double, Reduce;
    if u + v == 0 {
      XorNatZero(0);
      XorNatZero(Reduce(0));
      ReduceSmall(0);
    } else {
      ReduceLinear(u / 2, v / 2);
      LinearStep(u / 2, u % 2, v / 2, v % 2);
    }
  }

  lemma LinearStep(u: nat, p: nat, v: nat, q: nat)
    requires p < 2 && q < 2 && Reduce(XorNat(u, v)) == XorNat(Reduce(u), Reduce(v))
    ensures Reduce(XorNat(2 * u + p, 2 * v + q)) == XorNat(Reduce(2 * u + p), Reduce(2 * v + q))
  {
    hide XorNat, Double, Reduce;
    XorBit(u, p, v, q);
    Bits(p, q);
    ReduceBit(u, p);
    ReduceBit(v, q);
    ReduceBit(XorNat(u, v), if p == q then 0 else 1);
    DoubleLinear(Reduce(u), Reduce(v));
    XorFour(p, Double(Reduce(u)), q, Double(Reduce(v)));
  }

  lemma ReduceBit(v: nat, b: nat)
    requires b < 2
    ensures Reduce(2 * v + b) == XorNat(b, Double(Reduce(v)))
  {
    Halves(b, v);
    var w := 2 * v + b;
    assert w / 2 == v && w % 2 == b;
    if w == 0 {
      XorNatZero(0);
    }
  }

  lemma ReduceDouble(v: nat)
    ensures Reduce(2 * v) == Double(Reduce(v))
  {
    hide Reduce, Double, XorNat;
    ReduceBit(v, 0);
    XorNatZero(Double(Reduce(v)));
  }

  lemma {:induction false} ReduceSmall(v: nat)
    requires v < TWO128
    ensures Reduce(v) == v
    decreases v
  {
    if v != 0 {
      ReduceSmall(v / 2);
      Appended(v % 2, v / 2);
    }
  }

  /** x^128 leaves 0x87. */
  lemma ReduceTop()
    ensures Reduce(TWO128) == 0x87
  {
    ReduceSmall(TWO127);
    ReduceDouble(TWO127);
    XorNatZero(0x87);
  }

  /** The residue of a product depends on the residue of a factor. */
  lemma {:induction false} Congruent(a: nat, b: nat, c: nat)
    requires Reduce(b) == Reduce(c)
    ensures Product(a, b) == Product(a, c)
    decreases a
  {
    if a != 0 {
      Congruent(a / 2, b, c);
      ProductStep(a, b);
      ProductStep(a, c);
    }
  }

  lemma ProductStep(a: nat, b: nat)
    requires a != 0
    ensures Product(a, b) == XorNat(if a % 2 == 1 then Reduce(b) else 0, Double(Product(a / 2, b)))
  {
    ReduceLinear(if a % 2 == 1 then b else 0, 2 * Clmul(a / 2, b));
    ReduceDouble(Clmul(a / 2, b));
  }

  // ------------------------------------------------------------------ carry-less products

  lemma {:induction false} ClmulAddRight(a: nat, b: nat, c: nat)
    ensures Clmul(a, XorNat(b, c)) == XorNat(Clmul(a, b), Clmul(a, c))
    decreases a
  {
    if a != 0 {
      ClmulAddRight(a / 2, b, c);
      XorDoubled(Clmul(a / 2, b), Clmul(a / 2, c));
      if a % 2 == 1 {
        XorFour(b, 2 * Clmul(a / 2, b), c, 2 * Clmul(a / 2, c));
      } else {
        XorFour(0, 2 * Clmul(a / 2, b), 0, 2 * Clmul(a / 2, c));
      }
    }
  }

  lemma {:induction false} ClmulAddLeft(a: nat, b: nat, c: nat)
    ensures Clmul(XorNat(a, b), c) == XorNat(Clmul(a, c), Clmul(b, c))
    decreases a + b
  {
    if a != 0 || b != 0 {
      ClmulAddLeft(a / 2, b / 2, c);
      XorNatStep(a, b);
      ClmulStep(a, c);
      ClmulStep(b, c);
      ClmulStep(XorNat(a, b), c);
      var p, q := 2 * Clmul(a / 2, c), 2 * Clmul(b / 2, c);
      XorDoubled(Clmul(a / 2, c), Clmul(b / 2, c));
      Chosen(a, b, c);
      XorFour(if a % 2 == 1 then c else 0, p, if b % 2 == 1 then c else 0, q);
    }
  }

  lemma Chosen(a: nat, b: nat, c: nat)
    ensures XorNat(if a % 2 == 1 then c else 0, if b % 2 == 1 then c else 0)
         == if (a % 2 + b % 2) % 2 == 1 then c else 0
  {
    XorNatZero(c);
    XorNatCommutes(0, c);
    XorNatInvolution(0, c);
  }

  lemma ClmulStep(a: nat, b: nat)
    ensures Clmul(a, b) == XorNat(if a % 2 == 1 then b else 0, 2 * Clmul(a / 2, b))
  {
  }

  lemma {:induction false} ClmulShiftRight(a: nat, b: nat, k: nat)
    ensures Clmul(a, Shift(b, k)) == Shift(Clmul(a, b), k)
  {
    if k > 0 {
      ClmulShiftRight(a, b, k - 1);
      ClmulDouble(a, Shift(b, k - 1));
    }
  }

  lemma {:induction false} ClmulDouble(a: nat, b: nat)
    ensures Clmul(a, 2 * b) == 2 * Clmul(a, b)
    decreases a
  {
    if a != 0 {
      ClmulDouble(a / 2, b);
      XorDoubled(if a % 2 == 1 then b else 0, 2 * Clmul(a / 2, b));
    }
  }

  lemma {:induction false} ClmulShiftLeft(a: nat, b: nat, k: nat)
    ensures Clmul(Shift(a, k), b) == Shift(Clmul(a, b), k)
  {
    if k > 0 {
      ClmulShiftLeft(a, b, k - 1);
      ClmulStep(2 * Shift(a, k - 1), b);
      XorNatZero(2 * Clmul(Shift(a, k - 1), b));
    }
  }

  lemma {:induction false} ClmulBound(a: nat, b: nat, m: nat, n: nat)
    requires a < Pow2(m) && b < Pow2(n)
    ensures Clmul(a, b) < Pow2(m + n)
    decreases m
  {
    if a != 0 {
      ClmulBound(a / 2, b, m - 1, n);
      PowMonotonic(n, m + n);
      XorNatBound(if a % 2 == 1 then b else 0, 2 * Clmul(a / 2, b), m + n);
    } else {
      PowPositive(m + n);
    }
  }

  lemma {:induction false} PowMonotonic(j: nat, k: nat)
    requires j <= k
    ensures Pow2(j) <= Pow2(k)
    decreases k
  {
    if j < k {
      PowMonotonic(j, k - 1);
    }
  }

  lemma {:induction false} ClmulOne(a: nat)
    ensures Clmul(a, 1) == a
  {
    if a != 0 {
      ClmulOne(a / 2);
      Appended(a % 2, a / 2);
    }
  }

  lemma {:induction false} ClmulCommutes(a: nat, b: nat)
    ensures Clmul(a, b) == Clmul(b, a)
    decreases a
  {
    hide XorNat, Clmul;
    ClmulStep(a, b);
    if a == 0 {
      ClmulZero(b);
    } else {
      var bit, w := a % 2, a / 2;
      ClmulCommutes(w, b);
      Appended(bit, w);
      ClmulAddRight(b, bit, 2 * w);
      ClmulDouble(b, w);
      ClmulOne(b);
      ClmulZero(b);
    }
  }

  lemma {:induction false} ClmulZero(b: nat)
    ensures Clmul(b, 0) == 0 == Clmul(0, b)
    decreases b
  {
    if b != 0 {
      ClmulZero(b / 2);
      XorNatZero(0);
    }
  }

  lemma {:induction false} ClmulAssoc(a: nat, b: nat, c: nat)
    ensures Clmul(a, Clmul(b, c)) == Clmul(Clmul(a, b), c)
    decreases a
  {
    hide XorNat, Clmul;
    ClmulStep(a, Clmul(b, c));
    ClmulStep(a, b);
    if a == 0 {
      ClmulZero(b);
      ClmulZero(c);
      ClmulZero(Clmul(b, c));
    } else {
      var w := a / 2;
      ClmulAssoc(w, b, c);
      ClmulAddLeft(if a % 2 == 1 then b else 0, 2 * Clmul(w, b), c);
      ClmulTwice(Clmul(w, b), c);
      ClmulZero(c);
    }
  }

  lemma ClmulTwice(v: nat, c: nat)
    ensures Clmul(2 * v, c) == 2 * Clmul(v, c)
  {
    hide XorNat, Clmul;
    ClmulStep(2 * v, c);
    XorNatZero(2 * Clmul(v, c));
  }

  lemma Appended(b: nat, w: nat)
    requires b < 2
    ensures XorNat(b, 2 * w) == b + 2 * w
  {
    hide XorNat;
    XorNatStep(b, 2 * w);
    XorNatZero(w);
  }

  /** A factor with an inverse cancels. */
  lemma Cancel(t: Register, b: Register, c: Register)
    requires Product(t, b) == 0 && Product(b, c) == 1
    ensures t == 0
  {
    hide Clmul, Reduce;
    ClmulOne(t);
    ReduceSmall(t);
    ReduceSmall(1);
    Congruent(t, Clmul(b, c), 1);
    ClmulAssoc(t, b, c);
    ClmulCommutes(Clmul(t, b), c);
    ReduceSmall(0);
    Congruent(c, Clmul(t, b), 0);
    ClmulZero(c);
  }

  // ------------------------------------------------------------------ powers of alpha

  /** v doubled n times. */
  function Doubled(v: Register, n: nat): Register {
    if n == 0 then v
    else
      DoubleBound(Doubled(v, n - 1));
      Double(Doubled(v, n - 1))
  }

  /** alpha to the power n. */
  function Power(n: nat): Register {
    Doubled(1, n)
  }

  lemma {:induction false} DoubledSum(v: Register, m: nat, n: nat)
    ensures Doubled(v, m + n) == Doubled(Doubled(v, m), n)
  {
    if n > 0 {
      DoubledSum(v, m, n - 1);
    }
  }

  /** Doubling a factor doubles the product. */
  lemma ProductDouble(a: nat, b: Register)
    ensures Product(a, Double(b)) == Double(Product(a, b))
  {
    DoubleBound(b);
    ReduceSmall(b);
    ReduceSmall(Double(b));
    ReduceDouble(b);
    Congruent(a, Double(b), 2 * b);
    ClmulDouble(a, b);
    ReduceDouble(Clmul(a, b));
  }

  /** Multiplying by alpha^n is doubling n times. */
  lemma {:induction false} ProductPower(a: Register, n: nat)
    ensures Product(a, Power(n)) == Doubled(a, n)
  {
    if n == 0 {
      ClmulOne(a);
      ReduceSmall(a);
    } else {
      ProductPower(a, n - 1);
      ProductDouble(a, Power(n - 1));
    }
  }

  lemma PowersMultiply(m: nat, n: nat, e: nat)
    requires e == m + n
    ensures Product(Power(m), Power(n)) == Power(e)
  {
    ProductPower(Power(m), n);
    DoubledSum(1, m, n);
  }

  lemma {:induction false} TweakDoubled(t: Block, n: nat)
    ensures FromLe(t) < TWO128 && FromLe(Tweak(t, n)) == Doubled(FromLe(t), n)
  {
    WordSizes();
    if n > 0 {
      TweakDoubled(t, n - 1);
      TweakTo(t, n - 1, 1, n);
      assert Tweak(Tweak(t, n - 1), 1) == Alpha(Tweak(t, n - 1));
      AlphaDoubles(Tweak(t, n - 1));
    }
  }

  // ------------------------------------------------------------------ GfMul128

  function Low(v: nat): nat {
    v % TWO64
  }

  function High(v: nat): nat {
    v / TWO64
  }

  /** PCLMULQDQ: the immediate selects a word of either operand. */
  function Clmulepi64(a: Register, b: Register, imm: nat): Register {
    var x, y := if imm % 16 == 0 then Low(a) else High(a), if imm / 16 == 0 then Low(b) else High(b);
    WordProduct(x, y);
    Clmul(x, y)
  }

  lemma WordProduct(x: nat, y: nat)
    requires x < TWO64 && y < TWO64
    ensures Clmul(x, y) < TWO128
  {
    RegisterSizes();
    ClmulBound(x, y, 64, 64);
  }

  function XorRegisters(a: Register, b: Register): Register {
    RegisterSizes();
    XorNatBound(a, b, 128);
    XorNat(a, b)
  }

  /** The register moved up by eight bytes, the upper word dropped. */
  function ShiftUp(v: Register): Register {
    Low(v) * TWO64
  }

  /** The register moved down by eight bytes. */
  function ShiftDown(v: Register): Register {
    High(v)
  }

  /** The three reduction steps for the 256-bit value of two registers. */
  function ReduceRegisters(lo: Register, hi: Register): (r: Register)
    ensures r == Reduce(XorNat(lo, Shift(hi, 128)))
  {
    var reducedLo, reducedHi := Clmulepi64(hi, 0x87, 0x00), Clmulepi64(hi, 0x87, 0x01);
    var carry := ShiftDown(reducedHi);
    var last := Clmulepi64(carry, 0x87, 0x00);
    LowWords(carry);
    Folded(lo, hi, reducedLo, reducedHi, last);
    XorRegisters(XorRegisters(XorRegisters(lo, reducedLo), ShiftUp(reducedHi)), last)
  }

  lemma LowWords(v: Register)
    requires v < TWO64
    ensures Low(v) == v
  {
  }

  /** Four word products, combined to 256 bits and reduced. */
  function GfMul128(a: Register, b: Register): (r: Register)
    ensures r == Product(a, b)
  {
    var mid := XorRegisters(Clmulepi64(a, b, 0x01), Clmulepi64(a, b, 0x10));
    var lo := XorRegisters(Clmulepi64(a, b, 0x00), ShiftUp(mid));
    var hi := XorRegisters(Clmulepi64(a, b, 0x11), ShiftDown(mid));
    WordsMultiply(a, b, mid);
    ReduceRegisters(lo, hi)
  }

  /** A register is its two words. */
  lemma Words(v: Register)
    ensures Low(v) < TWO64 && High(v) < TWO64
    ensures v == XorNat(Low(v), Shift(High(v), 64)) && ShiftUp(v) == Shift(Low(v), 64)
  {
    RegisterSizes();
    Shift64(High(v));
    Shift64(Low(v));
    XorJoins(Low(v), High(v), 64);
  }

  /** Multiplication by words: the product of a word w with a register. */
  lemma TimesWord(w: nat, b: Register)
    ensures Clmul(w, b) == XorNat(Clmul(w, Low(b)), Shift(Clmul(w, High(b)), 64))
  {
    hide XorNat, Clmul;
    Words(b);
    ClmulAddRight(w, Low(b), Shift(High(b), 64));
    ClmulShiftRight(w, High(b), 64);
  }

  lemma WordTimes(a: Register, w: nat)
    ensures Clmul(a, w) == XorNat(Clmul(Low(a), w), Shift(Clmul(High(a), w), 64))
  {
    hide XorNat, Clmul;
    Words(a);
    ClmulAddLeft(Low(a), Shift(High(a), 64), w);
    ClmulShiftLeft(High(a), w, 64);
  }

  /** The schoolbook product of two registers by their words. */
  lemma FourProducts(a: Register, b: Register)
    ensures Clmul(a, b) == XorNat(XorNat(Clmul(Low(a), Low(b)), Shift(Clmul(Low(a), High(b)), 64)),
                                  XorNat(Shift(Clmul(High(a), Low(b)), 64), Shift(Clmul(High(a), High(b)), 128)))
  {
    hide XorNat, Clmul;
    WordTimes(a, b);
    TimesWord(Low(a), b);
    TimesWord(High(a), b);
    XorShift(Clmul(High(a), Low(b)), Shift(Clmul(High(a), High(b)), 64), 64);
    ShiftSum(Clmul(High(a), High(b)), 64, 64);
  }

  /** A register moved up by 64 bits keeps its lower word in place of the upper one. */
  lemma MovedUp(v: Register)
    ensures Shift(v, 64) == XorNat(ShiftUp(v), Shift(ShiftDown(v), 128))
  {
    hide XorNat;
    Words(v);
    XorShift(Low(v), Shift(High(v), 64), 64);
    ShiftSum(High(v), 64, 64);
  }

  lemma Regrouped(p: nat, w: nat, u: nat, q: nat, m: nat, n: nat)
    requires XorNat(u, w) == XorNat(m, n)
    ensures XorNat(XorNat(p, w), XorNat(u, q)) == XorNat(XorNat(p, m), XorNat(q, n))
  {
    hide XorNat;
    XorNatCommutes(u, q);
    XorNatCommutes(u, w);
    XorFour(p, w, q, u);
    XorFour(p, q, m, n);
  }

  /** The four word products make up the product. */
  lemma WordsMultiply(a: Register, b: Register, mid: Register)
    requires mid == XorNat(Clmul(High(a), Low(b)), Clmul(Low(a), High(b)))
    ensures Clmul(a, b) == XorNat(XorNat(Clmul(Low(a), Low(b)), ShiftUp(mid)),
                                  Shift(XorNat(Clmul(High(a), High(b)), ShiftDown(mid)), 128))
  {
    hide XorNat, Clmul;
    FourProducts(a, b);
    XorShift(Clmul(High(a), Low(b)), Clmul(Low(a), High(b)), 64);
    MovedUp(mid);
    Regrouped(Clmul(Low(a), Low(b)), Shift(Clmul(Low(a), High(b)), 64), Shift(Clmul(High(a), Low(b)), 64),
              Shift(Clmul(High(a), High(b)), 128), ShiftUp(mid), Shift(ShiftDown(mid), 128));
    XorShift(Clmul(High(a), High(b)), ShiftDown(mid), 128);
  }

  /** What stands above 128 bits counts 0x87 times. */
  lemma FoldOnce(h: nat)
    ensures Reduce(Shift(h, 128)) == Product(h, 0x87)
  {
    RegisterSizes();
    ShiftOne(128);
    ClmulShiftRight(h, 1, 128);
    ClmulOne(h);
    ReduceTop();
    ReduceSmall(0x87);
    Congruent(h, TWO128, 0x87);
  }

  /** What is above 128 bits is folded in by 0x87, and what that carries once more. */
  lemma Folded(lo: Register, hi: Register, reducedLo: Register, reducedHi: Register, last: Register)
    requires reducedLo == Clmul(Low(hi), 0x87) && reducedHi == Clmul(High(hi), 0x87)
    requires last == Clmul(ShiftDown(reducedHi), 0x87)
    ensures Reduce(XorNat(lo, Shift(hi, 128))) == XorNat(XorNat(XorNat(lo, reducedLo), ShiftUp(reducedHi)), last)
  {
    hide XorNat, Clmul;
    ReduceLinear(lo, Shift(hi, 128));
    ReduceSmall(lo);
    FoldOnce(hi);
    WordTimes(hi, 0x87);
    ReduceLinear(reducedLo, Shift(reducedHi, 64));
    ReduceSmall(reducedLo);
    MovedUp(reducedHi);
    ReduceLinear(ShiftUp(reducedHi), Shift(ShiftDown(reducedHi), 128));
    ReduceSmall(ShiftUp(reducedHi));
    FoldOnce(ShiftDown(reducedHi));
    ReduceSmall(last);
    XorNatAssoc(lo, reducedLo, XorNat(ShiftUp(reducedHi), last));
    XorNatAssoc(XorNat(lo, reducedLo), ShiftUp(reducedHi), last);
  }
}
