/**
 XTS (IEEE Std 1619): multiplication by alpha as aes_xts_avx2.hh computes it on two 64-bit
 words, the mode with ciphertext stealing, and the kernels of aesni_xts.cc.
 */
module Xts {
  import opened Bytes
  import opened BlockModes
  import opened Octets

  const TWO63: nat := 0x8000_0000_0000_0000
  const MAX_UNIT: nat := 0x20_0000   // the longest data unit, in bytes

  /** MultiplyAlphaByTwo: the low and high words shifted left, with feedback and carry. */
  function MultiplyAlphaByTwo(lo: nat, hi: nat): (nat, nat) {
    var res := if hi >= TWO63 then 0x87 else 0;
    var carry := if lo >= TWO63 then 1 else 0;
    (XorNat(2 * lo % TWO64, res), 2 * hi % TWO64 + carry)
  }

  function Alpha(t: Block): Block {
    var (lo, hi) := MultiplyAlphaByTwo(FromLe(t[..8]), FromLe(t[8..]));
    ToLe(lo, 8) + ToLe(hi, 8)
  }

  /** Doubling in GF(2^128) with the polynomial x^128 + x^7 + x^2 + x + 1. */
  function Double(v: nat): nat {
    if v < 0x8000_0000_0000_0000_0000_0000_0000_0000 then 2 * v
    else XorNat(2 * v - 0x1_0000_0000_0000_0000_0000_0000_0000_0000, 0x87)
  }

  function Shift(y: nat, k: nat): nat {
    if k == 0 then y else 2 * Shift(y, k - 1)
  }

  /** Bits above position k are not touched by a mask below it. */
  lemma {:induction false} XorLowPart(x: nat, y: nat, b: nat, k: nat)
    requires x < Pow2(k) && b < Pow2(k)
    ensures XorNat(x + Shift(y, k), b) == XorNat(x, b) + Shift(y, k)
    decreases k
  {
    hide XorNat;
    if k == 0 {
      XorNatZero(0);
      XorNatCommutes(y, 0);
      XorNatZero(y);
    } else {
      var z := Shift(y, k - 1);
      assert Shift(y, k) == 2 * z && (x + 2 * z) / 2 == x / 2 + z && (x + 2 * z) % 2 == x % 2;
      XorNatStep(x + 2 * z, b);
      XorNatStep(x, b);
      XorLowPart(x / 2, y, b / 2, k - 1);
    }
  }

  lemma Shift8(y: nat, k: nat)
    ensures Shift(y, k + 8) == 256 * Shift(y, k)
  {
    assert Shift(y, k + 2) == 2 * Shift(y, k + 1);
    assert Shift(y, k + 4) == 2 * Shift(y, k + 3);
    assert Shift(y, k + 6) == 2 * Shift(y, k + 5);
    assert Shift(y, k + 8) == 2 * Shift(y, k + 7);
  }

  lemma Shift64(y: nat)
    ensures Shift(y, 64) == 0x1_0000_0000_0000_0000 * y
  {
    Shift8(y, 0);
    Shift8(y, 8);
    Shift8(y, 16);
    Shift8(y, 24);
    Shift8(y, 32);
    Shift8(y, 40);
    Shift8(y, 48);
    Shift8(y, 56);
  }

  lemma WordSizes()
    ensures Pow2(64) == TWO64 && Pow256(8) == TWO64 && Pow256(16) == TWO64 * TWO64
  {
    assert Pow2(8) == 256 by { assert Pow2(4) == 16; }
    assert Pow2(16) == 0x1_0000 by { assert Pow2(16) == 256 * Pow2(8); }
    assert Pow2(32) == 0x1_0000_0000 by { assert Pow2(24) == 256 * Pow2(16); assert Pow2(32) == 256 * Pow2(24); }
    assert Pow2(40) == 256 * Pow2(32);
    assert Pow2(48) == 256 * Pow2(40);
    assert Pow2(56) == 256 * Pow2(48);
    assert Pow2(64) == 256 * Pow2(56);
    assert Pow256(4) == 0x1_0000_0000;
    assert Pow256(8) == 0x1_0000_0000 * Pow256(4);
    assert Pow256(12) == 0x1_0000_0000 * Pow256(8);
    assert Pow256(16) == 0x1_0000_0000 * Pow256(12);
  }

  lemma XorLowWord(x: nat, y: nat, b: nat)
    requires x < TWO64 && b < TWO64
    ensures XorNat(x + 0x1_0000_0000_0000_0000 * y, b) == XorNat(x, b) + 0x1_0000_0000_0000_0000 * y
    ensures XorNat(x, b) < TWO64 && XorNat(x, 0) == x
  {
    WordSizes();
    XorLowPart(x, y, b, 64);
    XorNatBound(x, b, 64);
    XorNatCommutes(x, 0);
    XorNatZero(x);
    Shift64(y);
  }

  /** The words x and h before feedback make up the doubled value without its top bit. */
  lemma ShiftedWords(lo: nat, hi: nat) returns (x: nat, h: nat)
    requires lo < TWO64 && hi < TWO64
    ensures x == 2 * lo % TWO64 && h == MultiplyAlphaByTwo(lo, hi).1 && x < TWO64 && h < TWO64
    ensures var v := lo + 0x1_0000_0000_0000_0000 * hi;
      x + 0x1_0000_0000_0000_0000 * h
        == if hi >= TWO63 then 2 * v - 0x1_0000_0000_0000_0000_0000_0000_0000_0000 else 2 * v
  {
    x := if lo >= TWO63 then 2 * lo - TWO64 else 2 * lo;
    h := (if hi >= TWO63 then 2 * hi - TWO64 else 2 * hi) + if lo >= TWO63 then 1 else 0;
  }

  /** The word arithmetic is doubling in the field. */
  lemma WordsDouble(lo: nat, hi: nat)
    requires lo < TWO64 && hi < TWO64
    ensures var (l, h) := MultiplyAlphaByTwo(lo, hi);
      l < TWO64 && h < TWO64 && l + 0x1_0000_0000_0000_0000 * h == Double(lo + 0x1_0000_0000_0000_0000 * hi)
  {
    var x, h := ShiftedWords(lo, hi);
    var feedback: nat := 0x87;
    XorLowWord(x, h, feedback);
    assert hi >= TWO63 <==> lo + 0x1_0000_0000_0000_0000 * hi >= 0x8000_0000_0000_0000_0000_0000_0000_0000;
  }

  /** Alpha doubles the block read as a little-endian integer. */
  lemma AlphaDoubles(t: Block)
    ensures FromLe(Alpha(t)) == Double(FromLe(t))
  {
    WordSizes();
    var lo, hi := FromLe(t[..8]), FromLe(t[8..]);
    WordsDouble(lo, hi);
    var (l, h) := MultiplyAlphaByTwo(lo, hi);
    assert t == t[..8] + t[8..];
    FromLeAppend(t[..8], t[8..]);
    FromLeAppend(ToLe(l, 8), ToLe(h, 8));
    FromToLe(l, 8);
    FromToLe(h, 8);
  }

  // ------------------------------------------------------------------ the mode

  /** The tweak of block n. */
  function Tweak(t: Block, n: nat): Block
    decreases n
  {
    if n == 0 then t else Tweak(Alpha(t), n - 1)
  }

  lemma {:induction false} TweakSum(t: Block, a: nat, b: nat)
    ensures Tweak(t, a + b) == Tweak(Tweak(t, a), b)
    decreases a
  {
    hide Alpha;
    if a > 0 {
      TweakSum(Alpha(t), a - 1, b);
      assert Tweak(t, a + b) == Tweak(Alpha(t), a + b - 1) && Tweak(t, a) == Tweak(Alpha(t), a - 1);
    }
  }

  lemma TweakTo(t: Block, a: nat, b: nat, c: nat)
    requires c == a + b
    ensures Tweak(Tweak(t, a), b) == Tweak(t, c)
  {
    TweakSum(t, a, b);
  }

  function XtsBlock(f: Block -> Block, t: Block, p: Block): Block {
    XorBytes(f(XorBytes(p, t)), t)
  }

  /** A partial last block borrows from the block before it; decrypting, the two tweaks swap. */
  function Xts(f: Block -> Block, t: Block, p: seq<Byte>, swap: bool): (c: seq<Byte>)
    requires |p| >= 16
    ensures |c| == |p|
    decreases |p|
  {
    if |p| == 16 then XtsBlock(f, t, p)
    else if |p| < 32 then
      var cc := XtsBlock(f, if swap then Alpha(t) else t, p[..16]);
      XtsBlock(f, if swap then t else Alpha(t), p[16..] + cc[|p| - 16..]) + cc[..|p| - 16]
    else XtsBlock(f, t, p[..16]) + Xts(f, Alpha(t), p[16..], swap)
  }

  function XtsEncrypt(C: BlockCipher, t: Block, p: seq<Byte>): (c: seq<Byte>)
    requires |p| >= 16
    ensures |c| == |p|
  {
    Xts(C.enc, t, p, false)
  }

  function XtsDecrypt(C: BlockCipher, t: Block, c: seq<Byte>): (p: seq<Byte>)
    requires |c| >= 16
    ensures |p| == |c|
  {
    Xts(C.dec, t, c, true)
  }

  // ------------------------------------------------------------------ the mode block by block

  lemma ToLeAt(v: nat, len: nat, j: nat)
    requires j < len
    ensures ToLe(v, len)[j] == if j == 0 then v % 256 else ToLe(v / 256, len - 1)[j - 1]
  {
  }

  lemma FromLeStep(b: seq<Byte>)
    requires b != []
    ensures FromLe(b) == b[0] + 256 * FromLe(b[1..])
  {
  }

  lemma ShiftedByte(x: Byte, c: nat, h: nat)
    requires c < 2
    ensures var v: nat := 2 * (x + 256 * h) + c; v % 256 == 2 * x as int % 256 + c && v / 256 == 2 * h + x / 128
  {
    var y: nat := x;
    assert 2 * (y + 256 * h) + c == (2 * y % 256 + c) + 256 * (2 * h + y / 128);
  }

  /** A number shifted left by one, byte by byte from the least significant. */
  lemma {:induction false} ShiftedBytes(b: seq<Byte>, c: nat, j: nat)
    requires j < |b| && c < 2
    ensures ToLe(2 * FromLe(b) + c, |b|)[j] == 2 * b[j] as int % 256 + if j == 0 then c else b[j - 1] / 128
    decreases j
  {
    hide ToLe, FromLe;
    FromLeStep(b);
    ShiftedByte(b[0], c, FromLe(b[1..]));
    ToLeAt(2 * FromLe(b) + c, |b|, j);
    if j > 0 {
      ShiftedBytes(b[1..], b[0] / 128, j - 1);
    }
  }

  /** Higher digits do not show. */
  lemma {:induction false} LowBytes(v: nat, h: nat, len: nat)
    ensures ToLe(v + Pow256(len) * h, len) == ToLe(v, len)
    decreases len
  {
    if len > 0 {
      var q := Pow256(len - 1) * h;
      assert Pow256(len) * h == 256 * q;
      assert (v + 256 * q) % 256 == v % 256 && (v + 256 * q) / 256 == v / 256 + q;
      LowBytes(v / 256, h, len - 1);
    }
  }

  lemma TopBit(b: seq<Byte>)
    requires |b| == 8
    ensures FromLe(b) < TWO64 && FromLe(b) / TWO63 == b[7] / 128
  {
    WordSizes();
    assert Pow256(8) == 256 * Pow256(7);
    FromLeAppend(b[..7], b[7..]);
    FromLeStep(b[7..]);
    assert b == b[..7] + b[7..] && FromLe(b[7..][1..]) == 0;
    hide FromLe, Pow256;
    TopOf(FromLe(b[..7]), b[7]);
  }

  lemma TopOf(low: nat, top: Byte)
    requires low < 0x100_0000_0000_0000
    ensures var v: nat := low + 0x100_0000_0000_0000 * top as int; v < TWO64 && v / TWO63 == top / 128
  {
  }

  /** A 64-bit word shifted left, with the carry from the word below. */
  lemma WordBytes(b: seq<Byte>, c: nat, j: nat)
    requires |b| == 8 && j < 8 && c < 2
    ensures ToLe(2 * FromLe(b) % TWO64 + c, 8)[j] == 2 * b[j] as int % 256 + if j == 0 then c else b[j - 1] / 128
  {
    WordSizes();
    hide ToLe, FromLe, Pow256;
    TopBit(b);
    var v, h := 2 * FromLe(b), FromLe(b) / TWO63;
    assert v + c == (v % TWO64 + c) + TWO64 * h;
    LowBytes(v % TWO64 + c, h, 8);
    ShiftedBytes(b, c, j);
  }

  lemma OneByte(h: nat)
    ensures Pow2(8) == 256 && Shift(h, 8) == 256 * h
  {
    assert Pow2(4) == 16;
    Shift8(h, 0);
  }

  lemma FeedbackParts(v: nat, r: Byte)
    ensures XorNat(v, r) % 256 == Xor(v % 256, r) && XorNat(v, r) / 256 == v / 256
  {
    hide *;
    var x: Byte, h := v % 256, v / 256;
    OneByte(h);
    XorLowPart(x, h, r, 8);
    XorIs(x, r);
    Digits(v, x, h);
    Digits(XorNat(v, r), Xor(x, r), h);
  }

  lemma XorIs(x: Byte, r: Byte)
    ensures Xor(x, r) == XorNat(x, r)
  {
  }

  lemma Digits(v: nat, x: Byte, h: nat)
    ensures v == 256 * h + x <==> x == v % 256 && h == v / 256
  {
  }

  /** Feedback below 256 stays in the first byte. */
  lemma FeedbackByte(v: nat, r: Byte, j: nat)
    requires j < 8
    ensures ToLe(XorNat(v, r), 8)[j] == if j == 0 then Xor(v % 256, r) else ToLe(v, 8)[j]
  {
    hide ToLe, Xor, XorNat;
    FeedbackParts(v, r);
    ToLeAt(v, 8, j);
    ToLeAt(XorNat(v, r), 8, j);
  }

  lemma AlphaWords(t: Block)
    ensures Alpha(t)[..8] == ToLe(XorNat(2 * FromLe(t[..8]) % TWO64, if t[15] >= 128 then 0x87 else 0), 8)
    ensures Alpha(t)[8..] == ToLe(2 * FromLe(t[8..]) % TWO64 + t[7] / 128, 8)
  {
    TopBit(t[..8]);
    TopBit(t[8..]);
    hide ToLe, FromLe, XorNat;
    var lo, hi := FromLe(t[..8]), FromLe(t[8..]);
    assert t[..8][7] == t[7] && t[8..][7] == t[15];
    assert hi >= TWO63 <==> t[15] >= 128;
    assert (if lo >= TWO63 then 1 else 0) == t[7] / 128;
  }

  lemma AlphaLow(t: Block, j: nat)
    requires j < 8
    ensures j > 0 ==> Alpha(t)[..8][j] == 2 * t[..8][j] as int % 256 + t[..8][j - 1] / 128
    ensures j == 0 ==> Alpha(t)[..8][j] == Xor(2 * t[..8][0] as int % 256, if t[15] >= 128 then 0x87 else 0)
  {
    var x: nat := ShiftedWord(t[..8]);
    hide *;
    AlphaWords(t);
    WordBytes(t[..8], 0, j);
    ShiftedIs(t[..8]);
    FeedbackByte(x, if t[15] >= 128 then 0x87 else 0, j);
    ToLeAt(x, 8, 0);
    if j == 0 {
      assert x % 256 == ToLe(x, 8)[0];
    }
  }

  function ShiftedWord(b: seq<Byte>): nat {
    2 * FromLe(b) % TWO64
  }

  lemma ShiftedIs(b: seq<Byte>)
    ensures ShiftedWord(b) == 2 * FromLe(b) % TWO64 == 2 * FromLe(b) % TWO64 + 0
  {
  }

  lemma AlphaHigh(t: Block, j: nat)
    requires j < 8
    ensures Alpha(t)[8..][j] == 2 * t[8..][j] as int % 256 + if j == 0 then t[7] / 128 else t[8..][j - 1] / 128
  {
    hide *;
    AlphaWords(t);
    WordBytes(t[8..], t[7] / 128, j);
  }

  /** Multiplication by alpha as IEEE Std 1619 (section 5.2) defines it on the bytes of the tweak:
      each is doubled and takes over what the byte below it loses; what the last one loses is 0x87. */
  lemma AlphaBytes(t: Block, j: nat)
    requires j < 16
    ensures j > 0 ==> Alpha(t)[j] == 2 * t[j] as int % 256 + if t[j - 1] >= 128 then 1 else 0
    ensures j == 0 ==> Alpha(t)[j] == Xor(2 * t[0] as int % 256, if t[15] >= 128 then 0x87 else 0)
  {
    hide *;
    if j < 8 {
      AlphaLow(t, j);
    } else {
      AlphaHigh(t, j - 8);
    }
  }

  lemma {:induction false} XtsAt(f: Block -> Block, t: Block, p: seq<Byte>, swap: bool, i: nat)
    requires 16 * (i + 1) <= |p| && (|p| % 16 != 0 ==> 16 * (i + 2) <= |p|)
    ensures Xts(f, t, p, swap)[16 * i..16 * i + 16] == XtsBlock(f, Tweak(t, i), p[16 * i..16 * i + 16])
    decreases i
  {
    hide XtsBlock, Alpha;
    if |p| == 16 {
      assert p[0..16] == p;
    } else {
      var c, rest := Xts(f, t, p, swap), Xts(f, Alpha(t), p[16..], swap);
      assert c[..16] == XtsBlock(f, t, p[..16]) && c[16..] == rest;
      if i > 0 {
        XtsAt(f, Alpha(t), p[16..], swap, i - 1);
        Later(c, i);
        Later(p, i);
      }
    }
  }

  /** The last whole block and the partial one behind it. */
  ghost predicate Stolen(f: Block -> Block, tn: Block, tm: Block, p: seq<Byte>, c: seq<Byte>, n: nat)
    requires n > 0 && 16 * n < |p| < 16 * n + 16 && |c| == |p|
  {
    var cc := XtsBlock(f, tn, p[16 * n - 16..16 * n]);
    && c[16 * n - 16..16 * n] == XtsBlock(f, tm, p[16 * n..] + cc[|p| - 16 * n..])
    && c[16 * n..] == cc[..|p| - 16 * n]
  }

  lemma StolenOne(f: Block -> Block, t: Block, p: seq<Byte>, swap: bool)
    requires 16 < |p| < 32
    ensures Stolen(f, if swap then Alpha(t) else t, if swap then t else Alpha(t), p, Xts(f, t, p, swap), 1)
  {
    hide XtsBlock, Alpha;
  }

  lemma StolenLater(f: Block -> Block, tn: Block, tm: Block, p: seq<Byte>, c: seq<Byte>, n: nat)
    requires n > 1 && 16 * n < |p| < 16 * n + 16 && |c| == |p|
    requires Stolen(f, tn, tm, p[16..], c[16..], n - 1)
    ensures Stolen(f, tn, tm, p, c, n)
  {
    hide XtsBlock;
    Later(c, n);
    Later(p, n);
    Later(c, n - 1);
    Later(p, n - 1);
  }

  lemma {:induction false} XtsEnd(f: Block -> Block, t: Block, p: seq<Byte>, swap: bool, n: nat)
    requires n > 0 && 16 * n < |p| < 16 * n + 16
    ensures Stolen(f, Tweak(t, if swap then n else n - 1), Tweak(t, if swap then n - 1 else n), p, Xts(f, t, p, swap), n)
    decreases n
  {
    hide Stolen, XtsBlock, Alpha;
    if n == 1 {
      assert Tweak(t, 1) == Tweak(Alpha(t), 0);
      StolenOne(f, t, p, swap);
    } else {
      assert Xts(f, t, p, swap)[16..] == Xts(f, Alpha(t), p[16..], swap);
      XtsEnd(f, Alpha(t), p[16..], swap, n - 1);
      StolenLater(f, Tweak(t, if swap then n else n - 1), Tweak(t, if swap then n - 1 else n), p, Xts(f, t, p, swap), n);
    }
  }

  /** XTS (section 5.3): every block but the last two of a unit with a partial block, under the
      tweak of its position. */
  lemma XtsBlocks(C: BlockCipher, t: Block, p: seq<Byte>, i: nat)
    requires 16 * (i + 1) <= |p| && (|p| % 16 != 0 ==> 16 * (i + 2) <= |p|)
    ensures XtsEncrypt(C, t, p)[16 * i..16 * i + 16]
         == XorBytes(C.enc(XorBytes(p[16 * i..16 * i + 16], Tweak(t, i))), Tweak(t, i))
    ensures XtsDecrypt(C, t, p)[16 * i..16 * i + 16]
         == XorBytes(C.dec(XorBytes(p[16 * i..16 * i + 16], Tweak(t, i))), Tweak(t, i))
  {
    XtsAt(C.enc, t, p, false, i);
    XtsAt(C.dec, t, p, true, i);
  }

  /** The last two blocks: the partial one is completed with the end of the block before it, whose
      beginning becomes the partial ciphertext. */
  lemma XtsTail(C: BlockCipher, t: Block, p: seq<Byte>, n: nat)
    requires n > 0 && 16 * n < |p| < 16 * n + 16
    ensures var c, r := XtsEncrypt(C, t, p), |p| - 16 * n;
      var cc := XorBytes(C.enc(XorBytes(p[16 * n - 16..16 * n], Tweak(t, n - 1))), Tweak(t, n - 1));
      && c[16 * n - 16..16 * n] == XorBytes(C.enc(XorBytes(p[16 * n..] + cc[r..], Tweak(t, n))), Tweak(t, n))
      && c[16 * n..] == cc[..r]
  {
    XtsEnd(C.enc, t, p, false, n);
  }

  /** Decryption takes the two tweaks in the other order. */
  lemma XtsPlainTail(C: BlockCipher, t: Block, c: seq<Byte>, n: nat)
    requires n > 0 && 16 * n < |c| < 16 * n + 16
    ensures var p, r := XtsDecrypt(C, t, c), |c| - 16 * n;
      var pp := XorBytes(C.dec(XorBytes(c[16 * n - 16..16 * n], Tweak(t, n))), Tweak(t, n));
      && p[16 * n - 16..16 * n] == XorBytes(C.dec(XorBytes(c[16 * n..] + pp[r..], Tweak(t, n - 1))), Tweak(t, n - 1))
      && p[16 * n..] == pp[..r]
  {
    XtsEnd(C.dec, t, c, true, n);
  }

  // ------------------------------------------------------------------ decryption inverts, units are cut

  lemma XtsBlockInverse(C: BlockCipher, t: Block, p: Block)
    requires Permutation(C)
    ensures XtsBlock(C.dec, t, XtsBlock(C.enc, t, p)) == p
  {
    XorBytesInvolution(C.enc(XorBytes(p, t)), t);
    assert C.dec(C.enc(XorBytes(p, t))) == XorBytes(p, t);
    XorBytesInvolution(p, t);
  }

  /** Decryption inverts encryption for every length from one block up, stealing included. */
  lemma {:induction false} XtsRoundTrip(C: BlockCipher, t: Block, p: seq<Byte>)
    requires Permutation(C) && |p| >= 16
    ensures XtsDecrypt(C, t, XtsEncrypt(C, t, p)) == p
    decreases |p|
  {
    if |p| < 32 {
      if |p| == 16 {
        XtsBlockInverse(C, t, p);
      } else {
        var r := |p| - 16;
        var cc := XtsBlock(C.enc, t, p[..16]);
        var last: Block := p[16..] + cc[r..];
        var c := XtsEncrypt(C, t, p);
        assert c[..16] == XtsBlock(C.enc, Alpha(t), last) && c[16..] == cc[..r];
        XtsBlockInverse(C, Alpha(t), last);
        assert c[16..] + last[r..] == cc && last[..r] == p[16..];
        XtsBlockInverse(C, t, p[..16]);
      }
    } else {
      var first, rest: seq<Byte> := XtsBlock(C.enc, t, p[..16]), XtsEncrypt(C, Alpha(t), p[16..]);
      assert (first + rest)[..16] == first && (first + rest)[16..] == rest;
      XtsBlockInverse(C, t, p[..16]);
      XtsRoundTrip(C, Alpha(t), p[16..]);
    }
  }

  /** A data unit may be cut after whole blocks, the second part starting at its own tweak. */
  lemma {:induction false} XtsSplit(f: Block -> Block, t: Block, a: seq<Byte>, b: seq<Byte>, swap: bool, n: nat)
    requires |a| == 16 * n && n > 0 && |b| >= 16
    ensures Xts(f, t, a + b, swap) == Xts(f, t, a, swap) + Xts(f, Tweak(t, n), b, swap)
    decreases n
  {
    if n == 1 {
      FirstBlock(f, t, a, b, swap);
      assert Tweak(t, 1) == Tweak(Alpha(t), 0);
    } else {
      SplitLonger(f, t, a[..16], a[16..], b, swap, n);
      Regroup(a, b);
    }
  }

  lemma SplitLonger(f: Block -> Block, t: Block, first: Block, rest: seq<Byte>, b: seq<Byte>, swap: bool, n: nat)
    requires |rest| == 16 * (n - 1) && n > 1 && |b| >= 16
    ensures Xts(f, t, first + (rest + b), swap) == Xts(f, t, first + rest, swap) + Xts(f, Tweak(t, n), b, swap)
    decreases n, 0
  {
    XtsSplit(f, Alpha(t), rest, b, swap, n - 1);
    SplitStep(f, t, first, rest, b, swap, Tweak(t, n));
  }

  lemma Regroup(a: seq<Byte>, b: seq<Byte>)
    requires |a| >= 16
    ensures a == a[..16] + a[16..] && a + b == a[..16] + (a[16..] + b)
  {
  }

  lemma SplitStep(f: Block -> Block, t: Block, first: Block, rest: seq<Byte>, b: seq<Byte>, swap: bool, next: Block)
    requires |rest| >= 16 && |b| >= 16
    requires Xts(f, Alpha(t), rest + b, swap) == Xts(f, Alpha(t), rest, swap) + Xts(f, next, b, swap)
    ensures Xts(f, t, first + (rest + b), swap) == Xts(f, t, first + rest, swap) + Xts(f, next, b, swap)
  {
    FirstBlock(f, t, first, rest, swap);
    FirstBlock(f, t, first, rest + b, swap);
    Joined(XtsBlock(f, t, first), Xts(f, Alpha(t), rest, swap), Xts(f, next, b, swap), Xts(f, Alpha(t), rest + b, swap));
  }

  lemma FirstBlock(f: Block -> Block, t: Block, first: Block, rest: seq<Byte>, swap: bool)
    requires |rest| >= 16
    ensures Xts(f, t, first + rest, swap) == XtsBlock(f, t, first) + Xts(f, Alpha(t), rest, swap)
  {
    assert (first + rest)[..16] == first && (first + rest)[16..] == rest;
  }

  // ------------------------------------------------------------------ the kernels

  /** The whole blocks of p, each under its tweak; when swapped, the last one takes the next tweak. */
  function Whole(f: Block -> Block, t: Block, p: seq<Byte>, swap: bool): (c: seq<Byte>)
    decreases |p|
  {
    if |p| < 16 then []
    else XtsBlock(f, if swap && |p| < 32 then Alpha(t) else t, p[..16]) + Whole(f, Alpha(t), p[16..], swap)
  }

  /** The last whole block, already stored, lends its end to the partial block and is replaced. */
  function Steal(f: Block -> Block, dst: seq<Byte>, tail: seq<Byte>, tweak: Block): seq<Byte>
    requires |dst| >= 16 && |tail| < 16
  {
    var cc := dst[|dst| - 16..];
    dst[..|dst| - 16] + XtsBlock(f, tweak, tail + cc[|tail|..]) + cc[..|tail|]
  }

  lemma StealBehind(f: Block -> Block, first: seq<Byte>, dst: seq<Byte>, tail: seq<Byte>, tweak: Block)
    requires |dst| >= 16 && |tail| < 16
    ensures Steal(f, first + dst, tail, tweak) == first + Steal(f, dst, tail, tweak)
  {
    assert (first + dst)[|first + dst| - 16..] == dst[|dst| - 16..];
    assert (first + dst)[..|first + dst| - 16] == first + dst[..|dst| - 16];
  }

  lemma StealOne(f: Block -> Block, t: Block, p: seq<Byte>, swap: bool)
    requires 16 < |p| < 32
    ensures |Whole(f, t, p, swap)| == 16
    ensures Xts(f, t, p, swap) == Steal(f, Whole(f, t, p, swap), p[16..], Tweak(t, if swap then 0 else 1))
  {
    assert Tweak(t, 1) == Tweak(Alpha(t), 0);
    assert Whole(f, Alpha(t), p[16..], swap) == [];
    assert Whole(f, t, p, swap) == XtsBlock(f, if swap then Alpha(t) else t, p[..16]);
  }

  /** With a partial block the mode is whole blocks followed by the stealing. */
  lemma {:induction false} IsSteal(f: Block -> Block, t: Block, p: seq<Byte>, swap: bool, n: nat, k: nat)
    requires n > 0 && 16 * n < |p| < 16 * n + 16 && k == if swap then n - 1 else n
    ensures |Whole(f, t, p, swap)| >= 16
    ensures Xts(f, t, p, swap) == Steal(f, Whole(f, t, p, swap), p[16 * n..], Tweak(t, k))
    decreases n
  {
    if n == 1 {
      StealOne(f, t, p, swap);
    } else {
      IsSteal(f, Alpha(t), p[16..], swap, n - 1, k - 1);
      assert p[16..][16 * (n - 1)..] == p[16 * n..];
      StealStep(f, t, p, swap, p[16 * n..], k);
    }
  }

  lemma StealStep(f: Block -> Block, t: Block, p: seq<Byte>, swap: bool, tail: seq<Byte>, k: nat)
    requires |p| >= 32 && |tail| < 16 && |Whole(f, Alpha(t), p[16..], swap)| >= 16 && k > 0
    requires Xts(f, Alpha(t), p[16..], swap) == Steal(f, Whole(f, Alpha(t), p[16..], swap), tail, Tweak(Alpha(t), k - 1))
    ensures |Whole(f, t, p, swap)| >= 16
    ensures Xts(f, t, p, swap) == Steal(f, Whole(f, t, p, swap), tail, Tweak(t, k))
  {
    StealBehind(f, XtsBlock(f, t, p[..16]), Whole(f, Alpha(t), p[16..], swap), tail, Tweak(t, k));
  }

  lemma {:induction false} IsWhole(f: Block -> Block, t: Block, p: seq<Byte>, swap: bool, n: nat)
    requires |p| == 16 * n && n > 0
    ensures Xts(f, t, p, swap) == Whole(f, t, p, false)
    decreases n
  {
    if n == 1 {
      assert p[..16] == p && Whole(f, Alpha(t), p[16..], false) == [];
    } else {
      IsWhole(f, Alpha(t), p[16..], swap, n - 1);
    }
  }

  /** n blocks are done, alpha is the next tweak; at the end the kept tweak is the last one. */
  ghost predicate Progress(f: Block -> Block, src: seq<Byte>, t0: Block, swap: bool,
                           dst: seq<Byte>, alpha: Block, n: nat, kept: Block)
  {
    && 16 * n <= |src| && alpha == Tweak(t0, n)
    && dst + Whole(f, alpha, src[16 * n..], swap) == Whole(f, t0, src, swap)
    && (swap && |src| < 16 * n + 16 && n > 0 ==> kept == Tweak(t0, n - 1))
  }

  /**
   Groups of g blocks: the tweaks of a group are computed first. When a partial block follows,
   the last group gives its last block the tweak after its own, which is kept back.
   */
  method Groups(f: Block -> Block, src: seq<Byte>, ghost t0: Block, swap: bool,
                dst0: seq<Byte>, alpha0: Block, n0: nat, kept0: Block, g: nat)
    returns (dst: seq<Byte>, alpha: Block, n: nat, kept: Block)
    requires g > 0 && Progress(f, src, t0, swap, dst0, alpha0, n0, kept0)
    ensures Progress(f, src, t0, swap, dst, alpha, n, kept) && |src| < 16 * (n + g)
  {
    hide Whole, Tweak;
    dst, alpha, n, kept := dst0, alpha0, n0, kept0;
    while 16 * (n + g) <= |src|
      invariant Progress(f, src, t0, swap, dst, alpha, n, kept)
      decreases |src| - 16 * n
    {
      dst, alpha, kept := Group(f, src, t0, swap, dst, alpha, n, kept, g, n + g);
      n := n + g;
    }
  }

  method NextTweaks(start: Block, g: nat) returns (tweaks: seq<Block>, alpha: Block)
    ensures |tweaks| == g && alpha == Tweak(start, g)
    ensures forall k :: 0 <= k < g ==> tweaks[k] == Tweak(start, k)
  {
    alpha, tweaks := start, [];
    for j := 0 to g
      invariant |tweaks| == j && alpha == Tweak(start, j)
      invariant forall k :: 0 <= k < j ==> tweaks[k] == Tweak(start, k)
    {
      tweaks := tweaks + [alpha];
      TweakSum(start, j, 1);
      alpha := Alpha(alpha);
    }
  }

  /** Blocks n to e. */
  method Group(f: Block -> Block, src: seq<Byte>, ghost t0: Block, swap: bool,
               dst0: seq<Byte>, alpha0: Block, n: nat, kept0: Block, g: nat, ghost e: nat)
    returns (dst: seq<Byte>, alpha: Block, kept: Block)
    requires g > 0 && e == n + g && 16 * e <= |src| && Progress(f, src, t0, swap, dst0, alpha0, n, kept0)
    ensures Progress(f, src, t0, swap, dst, alpha, e, kept)
  {
    hide Whole, Alpha;
    kept := kept0;
    var rest, tweaks := src[16 * n..], [];
    tweaks, alpha := NextTweaks(alpha0, g);
    TweakAt(t0, n, g, e);
    if |rest| < 16 * g + 16 && swap {
      kept := tweaks[g - 1];
      tweaks := tweaks[g - 1 := alpha];
    }
    var c := Cipher(f, rest, alpha0, swap, tweaks);
    assert rest[16 * g..] == src[16 * e..];
    dst := dst0 + c;
    Joined(dst0, c, Whole(f, alpha, src[16 * e..], swap), Whole(f, alpha0, src[16 * n..], swap));
  }

  lemma TweakAt(t: Block, n: nat, g: nat, e: nat)
    requires g > 0 && e == n + g
    ensures Tweak(t, e) == Tweak(Tweak(t, n), g) && Tweak(t, e - 1) == Tweak(Tweak(t, n), g - 1)
  {
    TweakSum(t, n, g);
    TweakSum(t, n, g - 1);
  }

  ghost predicate TweakOfBlock(start: Block, swap: bool, len: nat, k: nat, tweak: Block) {
    tweak == Tweak(start, if swap && len < 16 * k + 32 then k + 1 else k)
  }

  /** The block-cipher calls of one group under the given tweaks. */
  method Cipher(f: Block -> Block, rest: seq<Byte>, ghost start: Block, swap: bool, tweaks: seq<Block>)
    returns (dst: seq<Byte>)
    requires 16 * |tweaks| <= |rest|
    requires forall k :: 0 <= k < |tweaks| ==> TweakOfBlock(start, swap, |rest|, k, tweaks[k])
    ensures dst + Whole(f, Tweak(start, |tweaks|), rest[16 * |tweaks|..], swap) == Whole(f, start, rest, swap)
  {
    dst := [];
    assert Tweak(start, 0) == start && rest[0..] == rest;
    hide Whole, Tweak, XtsBlock;
    for j := 0 to |tweaks|
      invariant dst + Whole(f, Tweak(start, j), rest[16 * j..], swap) == Whole(f, start, rest, swap)
    {
      var c := XtsBlock(f, tweaks[j], rest[16 * j..16 * j + 16]);
      NextBlock(f, rest, start, swap, j, tweaks[j]);
      Joined(dst, c, Whole(f, Tweak(start, j + 1), rest[16 * (j + 1)..], swap),
        Whole(f, Tweak(start, j), rest[16 * j..], swap));
      dst := dst + c;
    }
  }

  lemma NextBlock(f: Block -> Block, rest: seq<Byte>, start: Block, swap: bool, j: nat, tweak: Block)
    requires 16 * (j + 1) <= |rest|
    requires TweakOfBlock(start, swap, |rest|, j, tweak)
    ensures Whole(f, Tweak(start, j), rest[16 * j..], swap)
         == XtsBlock(f, tweak, rest[16 * j..16 * j + 16]) + Whole(f, Tweak(start, j + 1), rest[16 * (j + 1)..], swap)
  {
    var r := rest[16 * j..];
    TweakSum(start, j, 1);
    assert Tweak(start, j + 1) == Tweak(Alpha(Tweak(start, j)), 0);
    assert r[..16] == rest[16 * j..16 * j + 16] && r[16..] == rest[16 * (j + 1)..];
  }

  /** All whole blocks: groups of four, then two, then one. */
  method WholeBlocks(f: Block -> Block, src: seq<Byte>, iv: Block, swap: bool, ghost m: nat)
    returns (dst: seq<Byte>, alpha: Block, kept: Block)
    requires m > 0 && 16 * m <= |src| < 16 * m + 16
    ensures dst == Whole(f, iv, src, swap) && alpha == Tweak(iv, m) && (swap ==> kept == Tweak(iv, m - 1))
  {
    hide Progress, Tweak, Whole;
    var n := 0;
    dst, alpha, kept := [], iv, Zeros(16);
    NoBlocks(f, src, iv, swap, kept);
    dst, alpha, n, kept := Groups(f, src, iv, swap, dst, alpha, n, kept, 4);
    dst, alpha, n, kept := Groups(f, src, iv, swap, dst, alpha, n, kept, 2);
    dst, alpha, n, kept := Groups(f, src, iv, swap, dst, alpha, n, kept, 1);
    AllBlocks(f, src, iv, swap, dst, alpha, n, kept, m);
  }

  lemma NoBlocks(f: Block -> Block, src: seq<Byte>, t0: Block, swap: bool, kept: Block)
    ensures Progress(f, src, t0, swap, [], t0, 0, kept)
  {
    assert src[0..] == src && Tweak(t0, 0) == t0;
    hide Whole;
    assert [] + Whole(f, t0, src, swap) == Whole(f, t0, src, swap);
  }

  lemma AllBlocks(f: Block -> Block, src: seq<Byte>, t0: Block, swap: bool, dst: seq<Byte>, alpha: Block, n: nat,
                  kept: Block, m: nat)
    requires Progress(f, src, t0, swap, dst, alpha, n, kept)
    requires m > 0 && 16 * m <= |src| < 16 * m + 16 && |src| < 16 * (n + 1)
    ensures dst == Whole(f, t0, src, swap) && alpha == Tweak(t0, m) && (swap ==> kept == Tweak(t0, m - 1))
  {
    assert n == m && Whole(f, alpha, src[16 * n..], swap) == [];
    hide Whole, Tweak;
    assert dst + [] == dst;
  }

  /** The tweak is stored back only when the library is built with AES_MULTI_UPDATE. */
  method EncryptXtsKernel(C: BlockCipher, src: seq<Byte>, iv: Block, multiUpdate: bool)
    returns (dst: seq<Byte>, pIv: Block)
    requires |src| >= 16
    ensures dst == XtsEncrypt(C, iv, src)
    ensures pIv == if multiUpdate then Tweak(iv, |src| / 16) else iv
  {
    var m := |src| / 16;
    var alpha, kept;
    dst, alpha, kept := WholeBlocks(C.enc, src, iv, false, m);
    if 16 * m < |src| {
      IsSteal(C.enc, iv, src, false, m, m);
      dst := StealInto(C.enc, dst, src[16 * m..], alpha);
    } else {
      IsWhole(C.enc, iv, src, false, m);
    }
    pIv := if multiUpdate then alpha else iv;
  }

  method DecryptXtsKernel(C: BlockCipher, src: seq<Byte>, iv: Block, multiUpdate: bool)
    returns (dst: seq<Byte>, pIv: Block)
    requires |src| >= 16
    ensures dst == XtsDecrypt(C, iv, src)
    ensures pIv == if multiUpdate then Tweak(iv, |src| / 16) else iv
  {
    var m := |src| / 16;
    var alpha, kept;
    dst, alpha, kept := WholeBlocks(C.dec, src, iv, 16 * m < |src|, m);
    if 16 * m < |src| {
      IsSteal(C.dec, iv, src, true, m, m - 1);
      dst := StealInto(C.dec, dst, src[16 * m..], kept);
    } else {
      IsWhole(C.dec, iv, src, true, m);
    }
    pIv := if multiUpdate then alpha else iv;
  }

  /** The copies of the stealing step, in the order in which they are made. */
  method StealInto(f: Block -> Block, dst0: seq<Byte>, tail: seq<Byte>, tweak: Block) returns (dst: seq<Byte>)
    requires |dst0| >= 16 && |tail| < 16
    ensures dst == Steal(f, dst0, tail, tweak)
  {
    var r, at := |tail|, |dst0| - 16;
    var last := tail + dst0[at + r..];
    dst := dst0 + dst0[at..at + r];
    last := XorBytes(tweak, last);
    last := f(last);
    last := XorBytes(tweak, last);
    dst := dst[..at] + last + dst[at + 16..];
    XorBytesCommutes(tweak, tail + dst0[at + r..]);
    XorBytesCommutes(tweak, f(XorBytes(tail + dst0[at + r..], tweak)));
  }
}
