/**
 Registers as bit-vectors. Multiplication in the field is defined on naturals, one coefficient at
 a time; here it is shown to be a fixed pattern of shifts and exclusive-ors, with which constants
 can be computed.
 */
module RegisterBits {
  import opened Bytes
  import opened Xts
  import opened Gf128

  /** Doubling in the field. */
  function Twice(v: bv128): bv128 {
    (v << 1) ^ (0x87 & (0 - (v >> 127)))
  }

  /** One step of Horner's rule in the first factor: its next coefficient is the lowest one of e. */
  function Step(acc: bv128, e: bv128, b: bv128): bv128 {
    (acc << 1) ^ (0x87 & (0 - (acc >> 127))) ^ (b & (0 - (e & 1)))
  }

  function Steps4(acc: bv128, e: bv128, b: bv128): bv128 {
    Step(Step(Step(Step(acc, e >> 3, b), e >> 2, b), e >> 1, b), e, b)
  }

  /** Sixteen steps. */
  function Steps16(acc: bv128, e: bv128, b: bv128): bv128 {
    Steps4(Steps4(Steps4(Steps4(acc, e >> 12, b), e >> 8, b), e >> 4, b), e, b)
  }

  function Steps64(acc: bv128, e: bv128, b: bv128): bv128 {
    Steps16(Steps16(Steps16(Steps16(acc, e >> 48, b), e >> 32, b), e >> 16, b), e, b)
  }

  /** Multiplication in the field. */
  function Mul(a: bv128, b: bv128): bv128 {
    Steps64(Steps64(0, a >> 64, b), a, b)
  }

  /** Squaring. */
  function Sq(v: bv128): bv128 {
    Mul(v, v)
  }

  // ------------------------------------------------------------------ bits and naturals

  /** The bit-vector without its lowest coefficient. */
  function Pop(v: bv128): bv128 {
    v >> 1
  }

  function Lowest(v: bv128): (b: nat)
    ensures b < 2
  {
    if v & 1 == 1 then 1 else 0
  }

  function Add(x: bv128, y: bv128): bv128 {
    x ^ y
  }

  /** One more coefficient at the low end; the highest one is lost. */
  function Push(v: bv128, b: nat): bv128 {
    (v << 1) ^ Bit(b)
  }

  function Bit(b: nat): bv128 {
    if b == 1 then 1 else 0
  }

  /** The highest coefficient is zero. */
  predicate Small(v: bv128) {
    v >> 127 == 0
  }

  lemma PopPush(v: bv128, b: nat)
    requires Small(v) && b < 2
    ensures Pop(Push(v, b)) == v && Lowest(Push(v, b)) == b
  {
    PopRaw(v, Bit(b));
  }

  lemma PopRaw(v: bv128, b: bv128)
    requires v >> 127 == 0 && b < 2
    ensures ((v << 1) ^ b) >> 1 == v && ((v << 1) ^ b) & 1 == b
  {
  }

  lemma PopAdd(x: bv128, y: bv128)
    ensures Pop(Add(x, y)) == Add(Pop(x), Pop(y))
  {
  }

  lemma LowestAdd(x: bv128, y: bv128)
    ensures Lowest(Add(x, y)) == if Lowest(x) == Lowest(y) then 0 else 1
  {
  }

  /** The natural whose binary digits are the lowest k coefficients. */
  function FromBits(v: bv128, k: nat): nat
    decreases k
  {
    if k == 0 then 0 else 2 * FromBits(Pop(v), k - 1) + Lowest(v)
  }

  function ToRegister(v: bv128): Register {
    RegisterSizes();
    FromBitsBound(v, 128);
    FromBits(v, 128)
  }

  lemma {:induction false} FromBitsBound(v: bv128, k: nat)
    ensures FromBits(v, k) < Pow2(k)
    decreases k
  {
    hide Pop, Lowest;
    if k > 0 {
      FromBitsBound(Pop(v), k - 1);
    }
  }

  lemma {:induction false} FromBitsAdd(x: bv128, y: bv128, k: nat)
    ensures FromBits(Add(x, y), k) == XorNat(FromBits(x, k), FromBits(y, k))
    decreases k
  {
    if k == 0 {
      XorNatZero(0);
    } else {
      hide Pop, Lowest, Add, XorNat;
      FromBitsAdd(Pop(x), Pop(y), k - 1);
      PopAdd(x, y);
      LowestAdd(x, y);
      XorBit(FromBits(Pop(x), k - 1), Lowest(x), FromBits(Pop(y), k - 1), Lowest(y));
    }
  }

  // ------------------------------------------------------------------ how many coefficients

  /** All coefficients from position k on are zero. */
  predicate Fits(v: bv128, k: nat)
    decreases k
  {
    if k == 0 then v == 0 else Fits(Pop(v), k - 1)
  }

  function PopSeven(v: bv128): bv128 {
    Pop(Pop(Pop(Pop(Pop(Pop(Pop(v)))))))
  }

  lemma FitsSeven(v: bv128, k: nat)
    ensures Fits(v, k + 7) == Fits(PopSeven(v), k)
  {
    hide Pop;
    var v2 := Pop(Pop(v));
    assert Fits(v, k + 7) == Fits(Pop(v), k + 6) == Fits(v2, k + 5);
    var v4 := Pop(Pop(v2));
    assert Fits(v2, k + 5) == Fits(Pop(v2), k + 4) == Fits(v4, k + 3);
    var v6 := Pop(Pop(v4));
    assert Fits(v4, k + 3) == Fits(Pop(v4), k + 2) == Fits(v6, k + 1);
  }

  function PopMany(v: bv128): bv128 {
    PopSeven(PopSeven(PopSeven(PopSeven(PopSeven(PopSeven(v))))))
  }

  lemma FitsMany(v: bv128, k: nat)
    ensures Fits(v, k + 42) == Fits(PopMany(v), k)
  {
    hide PopSeven, Fits;
    FitsSeven(v, k + 35);
    FitsSeven(PopSeven(v), k + 28);
    FitsSeven(PopSeven(PopSeven(v)), k + 21);
    FitsSeven(PopSeven(PopSeven(PopSeven(v))), k + 14);
    FitsSeven(PopSeven(PopSeven(PopSeven(PopSeven(v)))), k + 7);
    FitsSeven(PopSeven(PopSeven(PopSeven(PopSeven(PopSeven(v))))), k);
  }

  lemma Popped(v: bv128)
    ensures PopMany(v) == v >> 42
  {
  }

  lemma ShiftedDown(v: bv128)
    ensures ((v >> 42) >> 42) >> 42 == v >> 126 && (v >> 126) >> 1 == v >> 127 && (v >> 127) >> 1 == 0
  {
  }

  /** The two highest coefficients are what is left in the end. */
  lemma TopBits(v: bv128)
    ensures var w := PopMany(PopMany(PopMany(v))); Pop(w) == v >> 127 && Pop(Pop(w)) == 0
  {
    ShiftedDown(v);
    Popped(v);
    Popped(v >> 42);
    Popped((v >> 42) >> 42);
    hide PopMany;
  }

  /** Every register fits, and a small one into 127 positions. */
  lemma AllFit(v: bv128)
    ensures Fits(v, 128) && (Fits(v, 127) <==> Small(v))
  {
    TopBits(v);
    hide PopMany, Pop;
    FitsMany(v, 86);
    FitsMany(PopMany(v), 44);
    FitsMany(PopMany(PopMany(v)), 2);
    FitsMany(v, 85);
    FitsMany(PopMany(v), 43);
    FitsMany(PopMany(PopMany(v)), 1);
    var w := PopMany(PopMany(PopMany(v)));
    assert Fits(w, 2) == Fits(Pop(w), 1) == Fits(Pop(Pop(w)), 0);
    assert Fits(w, 1) == Fits(Pop(w), 0);
  }

  lemma {:induction false} FitsMore(v: bv128, k: nat)
    requires Fits(v, k)
    ensures FromBits(v, k + 1) == FromBits(v, k)
    decreases k
  {
    if k > 0 {
      hide Pop, Lowest;
      FitsMore(Pop(v), k - 1);
    } else {
      assert Pop(v) == 0 && Lowest(v) == 0;
    }
  }

  // ------------------------------------------------------------------ pushing and doubling

  lemma PushValue(v: bv128, b: nat)
    requires Small(v) && b < 2
    ensures ToRegister(Push(v, b)) == 2 * ToRegister(v) + b
  {
    AllFit(v);
    PopPush(v, b);
    FitsMore(v, 127);
    hide Push, Pop, Lowest;
  }

  lemma AddValue(x: bv128, y: bv128)
    ensures ToRegister(Add(x, y)) == XorNat(ToRegister(x), ToRegister(y))
  {
    hide Add, FromBits, XorNat;
    FromBitsAdd(x, y, 128);
  }

  lemma ZeroValue()
    ensures ToRegister(0) == 0
  {
    AllFit(0);
    assert Small(0) && Push(0, 0) == 0;
    hide Push, FromBits;
    PushValue(0, 0);
  }

  lemma OneValue()
    ensures ToRegister(1) == 1
  {
    ZeroValue();
    assert Small(0) && Push(0, 1) == 1;
    hide Push, FromBits;
    PushValue(0, 1);
  }

  lemma TwiceSmall(v: bv128)
    requires Small(v)
    ensures Twice(v) == Push(v, 0)
  {
  }

  /** k zeros at the low end. */
  function PushN(v: bv128, k: nat): bv128 {
    if k == 0 then v else Push(PushN(v, k - 1), 0)
  }

  lemma {:induction false} PushNFits(v: bv128, j: nat, k: nat)
    requires Fits(v, j) && j + k <= 128
    ensures Fits(PushN(v, k), j + k)
    decreases k
  {
    hide Push, Small, Fits;
    if k > 0 {
      PushNFits(v, j, k - 1);
      FitsPush(PushN(v, k - 1), j + k - 1, 0);
    }
  }

  lemma {:induction false} PushNValue(v: bv128, j: nat, k: nat)
    requires Fits(v, j) && j + k <= 128
    ensures ToRegister(PushN(v, k)) == Shift(ToRegister(v), k)
    decreases k
  {
    hide Push, Small, Fits, FromBits, ToRegister;
    if k > 0 {
      PushNValue(v, j, k - 1);
      PushNFits(v, j, k - 1);
      FitsPush(PushN(v, k - 1), j + k - 1, 0);
      PushValue(PushN(v, k - 1), 0);
    }
  }

  lemma FitsPush(v: bv128, k: nat, b: nat)
    requires Fits(v, k) && k <= 127 && b < 2
    ensures Small(v) && Fits(Push(v, b), k + 1)
  {
    hide Pop, Push, Lowest, Small;
    FitsUpTo(v, k, 127);
    AllFit(v);
    PopPush(v, b);
  }

  lemma {:induction false} FitsUpTo(v: bv128, j: nat, k: nat)
    requires Fits(v, j) && j <= k
    ensures Fits(v, k)
    decreases k
  {
    if k == 0 {
    } else if j == 0 {
      assert Pop(v) == 0;
      FitsUpTo(Pop(v), 0, k - 1);
    } else {
      hide Pop;
      FitsUpTo(Pop(v), j - 1, k - 1);
    }
  }

  function PushSeven(v: bv128): bv128 {
    Push(Push(Push(Push(Push(Push(Push(v, 0), 0), 0), 0), 0), 0), 0)
  }

  lemma PushNSeven(v: bv128, k: nat)
    ensures PushN(v, k + 7) == PushSeven(PushN(v, k))
  {
    hide Push;
    assert PushN(v, k + 2) == Push(PushN(v, k + 1), 0) && PushN(v, k + 4) == Push(PushN(v, k + 3), 0);
    assert PushN(v, k + 6) == Push(PushN(v, k + 5), 0) && PushN(v, k + 7) == Push(PushN(v, k + 6), 0);
  }

  function PushMany(v: bv128): bv128 {
    PushSeven(PushSeven(PushSeven(PushSeven(PushSeven(PushSeven(v))))))
  }

  lemma PushedMany(v: bv128)
    ensures PushMany(v) == v << 42
  {
  }

  lemma PushNMany(v: bv128, k: nat)
    ensures PushN(v, k + 42) == PushMany(PushN(v, k))
  {
    hide PushN, PushSeven;
    PushNSeven(v, k);
    PushNSeven(v, k + 7);
    PushNSeven(v, k + 14);
    PushNSeven(v, k + 21);
    PushNSeven(v, k + 28);
    PushNSeven(v, k + 35);
  }

  const TOP: bv128 := 0x8000_0000_0000_0000_0000_0000_0000_0000

  lemma TopMonomial(k: nat)
    requires k == 0
    ensures PushN(1, k + 127) == TOP
  {
    assert PushN(1, k) == 1;
    TopRaw();
    hide PushMany, Push, TOP;
    PushNMany(1, k);
    PushNMany(1, k + 42);
    PushNMany(1, k + 84);
    assert PushN(1, k + 127) == Push(PushN(1, k + 126), 0);
  }

  lemma TopRaw()
    ensures Push(PushMany(PushMany(PushMany(1))), 0) == TOP
  {
    PushedMany(1);
    PushedMany(0x400_0000_0000);
    PushedMany(0x10_0000_0000_0000_0000_0000);
    hide PushMany;
  }

  lemma TopValue()
    ensures ToRegister(TOP) == TWO127
  {
    OneFits();
    TopShift(0);
    ShiftOne(127);
    RegisterSizes();
  }

  lemma OneFits()
    ensures Fits(1, 1)
  {
    assert Pop(1) == 0;
  }

  lemma TopShift(k: nat)
    requires k == 0
    ensures ToRegister(TOP) == Shift(1, k + 127)
  {
    OneFits();
    hide Fits, FromBits, ToRegister, PushN, TOP, Shift;
    TopMonomial(k);
    PushNValue(1, 1, k + 127);
    OneValue();
  }

  lemma FeedbackValue()
    ensures ToRegister(0x87) == 0x87
  {
    OneValue();
    hide FromBits, ToRegister;
    EightSmall();
    PushValue(0x1, 0);
    PushValue(0x2, 0);
    PushValue(0x4, 0);
    PushValue(0x8, 0);
    PushValue(0x10, 1);
    PushValue(0x21, 1);
    PushValue(0x43, 1);
  }

  lemma EightSmall()
    ensures Small(0x1) && Push(0x1, 0) == 0x2 && Small(0x2) && Push(0x2, 0) == 0x4
    ensures Small(0x4) && Push(0x4, 0) == 0x8 && Small(0x8) && Push(0x8, 0) == 0x10
    ensures Small(0x10) && Push(0x10, 1) == 0x21 && Small(0x21) && Push(0x21, 1) == 0x43
    ensures Small(0x43) && Push(0x43, 1) == 0x87
  {
  }

  /** A register is small, or a small one and the top coefficient. */
  lemma Topped(v: bv128) returns (w: bv128)
    requires !Small(v)
    ensures Small(w) && v == Add(w, TOP) && Twice(v) == Add(Twice(w), 0x87)
  {
    w := v & 0x7fff_ffff_ffff_ffff_ffff_ffff_ffff_ffff;
    ToppedRaw(v);
    TwiceTopRaw(v);
    TwiceSmallRaw(w);
    hide Twice;
  }

  lemma TwiceTopRaw(v: bv128)
    requires v >> 127 == 1
    ensures Twice(v) == (v << 1) ^ 0x87
  {
  }

  lemma TwiceSmallRaw(v: bv128)
    requires v >> 127 == 0
    ensures Twice(v) == v << 1
  {
  }

  lemma ToppedRaw(v: bv128)
    requires v >> 127 != 0
    ensures v >> 127 == 1
    ensures var w := v & 0x7fff_ffff_ffff_ffff_ffff_ffff_ffff_ffff;
      w >> 127 == 0 && v == w ^ 0x8000_0000_0000_0000_0000_0000_0000_0000 && w << 1 == v << 1
  {
  }

  /** The pattern of shifts is doubling in the field. */
  lemma TwiceValue(v: bv128)
    ensures ToRegister(Twice(v)) == Double(ToRegister(v))
  {
    hide FromBits, ToRegister, Twice, Push, Add;
    if Small(v) {
      TwiceSmallValue(v);
    } else {
      var w := Topped(v);
      TwiceSmallValue(w);
      AddValue(w, TOP);
      AddValue(Twice(w), 0x87);
      TopValue();
      FeedbackValue();
      DoubleLinear(ToRegister(w), TWO127);
      XorNatZero(0x87);
    }
  }

  lemma TwiceSmallValue(v: bv128)
    requires Small(v)
    ensures ToRegister(Twice(v)) == Double(ToRegister(v))
  {
    TwiceSmall(v);
    SmallValue(v);
    PushValue(v, 0);
    hide FromBits, ToRegister, Push, Twice;
  }

  lemma SmallValue(w: bv128)
    requires Small(w)
    ensures ToRegister(w) < TWO127
  {
    AllFit(w);
    FitsMore(w, 127);
    FromBitsBound(w, 127);
    RegisterSizes();
  }

  // ------------------------------------------------------------------ multiplication

  /** acc is the product of a and b. */
  predicate IsProduct(a: bv128, b: bv128, acc: bv128) {
    ToRegister(acc) == Product(ToRegister(a), ToRegister(b))
  }

  lemma ProductIs(a: bv128, b: bv128, acc: bv128)
    ensures IsProduct(a, b, acc) <==> ToRegister(acc) == Product(ToRegister(a), ToRegister(b))
  {
  }

  lemma StepValue(a: bv128, acc: bv128, e: bv128, b: bv128)
    requires Small(a) && IsProduct(a, b, acc)
    ensures IsProduct(Push(a, Lowest(e)), b, Step(acc, e, b))
  {
    hide *;
    var p := Lowest(e);
    StepIs(acc, e, b);
    PushValue(a, p);
    ProductIs(a, b, acc);
    TwiceValue(acc);
    AddValue(Twice(acc), if p == 1 then b else 0);
    ZeroValue();
    NextProduct(ToRegister(a), p, ToRegister(b));
    XorNatCommutes(ToRegister(Twice(acc)), if p == 1 then ToRegister(b) else 0);
    ProductIs(Push(a, p), b, Step(acc, e, b));
  }

  lemma StepIs(acc: bv128, e: bv128, b: bv128)
    ensures Step(acc, e, b) == Add(Twice(acc), if Lowest(e) == 1 then b else 0)
  {
    hide *;
    StepMasked(acc, e, b);
    Masked(e, b);
  }

  lemma StepMasked(acc: bv128, e: bv128, b: bv128)
    ensures Step(acc, e, b) == Add(Twice(acc), b & (0 - (e & 1)))
  {
    Stepped(acc, b & (0 - (e & 1)));
    hide Twice, Add;
  }

  lemma Masked(e: bv128, b: bv128)
    ensures b & (0 - (e & 1)) == if Lowest(e) == 1 then b else 0
  {
    LowestRaw(e);
    MaskOne(b);
    MaskZero(b);
  }

  lemma LowestRaw(e: bv128)
    ensures e & 1 == 0 || e & 1 == 1
  {
  }

  lemma MaskOne(b: bv128)
    ensures b & (0 - 1) == b
  {
  }

  lemma MaskZero(b: bv128)
    ensures b & (0 - 0) == 0
  {
  }

  lemma Stepped(acc: bv128, m: bv128)
    ensures (acc << 1) ^ (0x87 & (0 - (acc >> 127))) ^ m == Add(Twice(acc), m)
  {
  }

  lemma NextProduct(n: nat, p: nat, m: nat)
    requires p < 2 && m < TWO128
    ensures Product(2 * n + p, m) == XorNat(if p == 1 then m else 0, Double(Product(n, m)))
  {
    Halves(p, n);
    ReduceSmall(m);
    var k := 2 * n + p;
    assert k / 2 == n && k % 2 == p;
    if k == 0 {
      XorNatZero(0);
    } else {
      hide XorNat, Double, Product;
      ProductStep(k, m);
    }
  }

  function Push4(a: bv128, e: bv128): bv128 {
    Push(Push(Push(Push(a, Lowest(e >> 3)), Lowest(e >> 2)), Lowest(e >> 1)), Lowest(e))
  }

  function Push16(a: bv128, e: bv128): bv128 {
    Push4(Push4(Push4(Push4(a, e >> 12), e >> 8), e >> 4), e)
  }

  lemma Pushed4(a: bv128, e: bv128)
    requires a >> 124 == 0
    ensures Small(a) && Small(Push(a, Lowest(e >> 3))) && Small(Push(Push(a, Lowest(e >> 3)), Lowest(e >> 2)))
    ensures Small(Push(Push(Push(a, Lowest(e >> 3)), Lowest(e >> 2)), Lowest(e >> 1)))
  {
  }

  lemma Steps4Value(a: bv128, acc: bv128, e: bv128, b: bv128)
    requires a >> 124 == 0 && IsProduct(a, b, acc)
    ensures IsProduct(Push4(a, e), b, Steps4(acc, e, b))
  {
    Pushed4(a, e);
    hide IsProduct, Push, Lowest, Step, Small;
    var a1, s1 := Push(a, Lowest(e >> 3)), Step(acc, e >> 3, b);
    StepValue(a, acc, e >> 3, b);
    var a2, s2 := Push(a1, Lowest(e >> 2)), Step(s1, e >> 2, b);
    StepValue(a1, s1, e >> 2, b);
    var a3, s3 := Push(a2, Lowest(e >> 1)), Step(s2, e >> 1, b);
    StepValue(a2, s2, e >> 1, b);
    StepValue(a3, s3, e, b);
  }

  lemma Pushed16(a: bv128, e: bv128)
    requires a >> 112 == 0
    ensures Push16(a, e) == (a << 16) ^ (e & 0xffff)
    ensures a >> 124 == 0 && Push4(a, e >> 12) >> 124 == 0 && Push4(Push4(a, e >> 12), e >> 8) >> 124 == 0
    ensures Push4(Push4(Push4(a, e >> 12), e >> 8), e >> 4) >> 124 == 0
  {
    PushedRaw(a, e >> 12);
    PushedRaw(Push4(a, e >> 12), e >> 8);
    PushedRaw(Push4(Push4(a, e >> 12), e >> 8), e >> 4);
    PushedRaw(Push4(Push4(Push4(a, e >> 12), e >> 8), e >> 4), e);
    SixteenRaw(a, e);
    hide Push4;
  }

  lemma PushedRaw(a: bv128, e: bv128)
    ensures Push4(a, e) == (a << 4) ^ (e & 0xf)
  {
  }

  lemma SixteenRaw(a: bv128, e: bv128)
    requires a >> 112 == 0
    ensures a >> 124 == 0
    ensures var b := (a << 4) ^ ((e >> 12) & 0xf); b >> 124 == 0
    ensures var b := (((a << 4) ^ ((e >> 12) & 0xf)) << 4) ^ ((e >> 8) & 0xf); b >> 124 == 0
    ensures var b := (((((a << 4) ^ ((e >> 12) & 0xf)) << 4) ^ ((e >> 8) & 0xf)) << 4) ^ ((e >> 4) & 0xf);
      b >> 124 == 0 && (b << 4) ^ (e & 0xf) == (a << 16) ^ (e & 0xffff)
  {
  }

  predicate Room16(a: bv128) {
    a >> 112 == 0
  }

  function Join16(a: bv128, e: bv128): bv128 {
    (a << 16) ^ (e & 0xffff)
  }

  /** Sixteen more coefficients of the first factor. */
  lemma NextSixteen(a: bv128, acc: bv128, e: bv128, b: bv128)
    requires Room16(a) && IsProduct(a, b, acc)
    ensures IsProduct(Join16(a, e), b, Steps16(acc, e, b))
  {
    Pushed16(a, e);
    hide IsProduct, Push4, Steps4;
    Steps4Value(a, acc, e >> 12, b);
    Steps4Value(Push4(a, e >> 12), Steps4(acc, e >> 12, b), e >> 8, b);
    Steps4Value(Push4(Push4(a, e >> 12), e >> 8), Steps4(Steps4(acc, e >> 12, b), e >> 8, b), e >> 4, b);
    Steps4Value(Push4(Push4(Push4(a, e >> 12), e >> 8), e >> 4),
                Steps4(Steps4(Steps4(acc, e >> 12, b), e >> 8, b), e >> 4, b), e, b);
  }

  predicate Room64(a: bv128) {
    a >> 64 == 0
  }

  function Join64(a: bv128, e: bv128): bv128 {
    (a << 64) ^ (e & 0xffff_ffff_ffff_ffff)
  }

  lemma Joined64(a: bv128, e: bv128)
    requires Room64(a)
    ensures Room16(a) && Room16(Join16(a, e >> 48)) && Room16(Join16(Join16(a, e >> 48), e >> 32))
    ensures Room16(Join16(Join16(Join16(a, e >> 48), e >> 32), e >> 16))
    ensures Join16(Join16(Join16(Join16(a, e >> 48), e >> 32), e >> 16), e) == Join64(a, e)
  {
  }

  lemma Next64(a: bv128, acc: bv128, e: bv128, b: bv128)
    requires Room64(a) && IsProduct(a, b, acc)
    ensures IsProduct(Join64(a, e), b, Steps64(acc, e, b))
  {
    Joined64(a, e);
    hide IsProduct, Steps16, Room16, Join16, Room64, Join64;
    NextSixteen(a, acc, e >> 48, b);
    var a1, s1 := Join16(a, e >> 48), Steps16(acc, e >> 48, b);
    NextSixteen(a1, s1, e >> 32, b);
    var a2, s2 := Join16(a1, e >> 32), Steps16(s1, e >> 32, b);
    NextSixteen(a2, s2, e >> 16, b);
    NextSixteen(Join16(a2, e >> 16), Steps16(s2, e >> 16, b), e, b);
  }

  /** Multiplying step by step is multiplication in the field. */
  lemma MulValue(a: bv128, b: bv128)
    ensures ToRegister(Mul(a, b)) == Product(ToRegister(a), ToRegister(b))
  {
    ZeroTimes(b);
    Whole(a);
    hide IsProduct, Steps64, ToRegister, Product, Room64, Join64;
    Next64(0, 0, a >> 64, b);
    Next64(Join64(0, a >> 64), Steps64(0, a >> 64, b), a, b);
    ProductIs(a, b, Mul(a, b));
  }

  lemma Whole(a: bv128)
    ensures Room64(0) && Room64(Join64(0, a >> 64)) && Join64(Join64(0, a >> 64), a) == a
  {
  }

  lemma ZeroTimes(b: bv128)
    ensures IsProduct(0, b, 0)
  {
    ZeroValue();
    ReduceSmall(0);
    hide ToRegister, FromBits;
    assert Clmul(0, ToRegister(b)) == 0;
  }

  lemma SqIs(v: bv128)
    ensures Sq(v) == Mul(v, v)
  {
  }
}
