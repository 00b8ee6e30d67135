/** Bytes, 16-byte blocks and exclusive-or, shared by every other module. */
module Bytes {

  type Byte = b: int | 0 <= b < 256

  type Block = b: seq<Byte> | |b| == 16 witness seq(16, _ => 0)

  /** Exclusive-or of two naturals, bit by bit from the least significant end. */
  function XorNat(a: nat, b: nat): nat
    decreases a + b
  {
    if a == 0 && b == 0 then 0
    else 2 * XorNat(a / 2, b / 2) + (a % 2 + b % 2) % 2
  }

  function Pow2(k: nat): nat {
    if k == 0 then 1 else 2 * Pow2(k - 1)
  }

  lemma {:induction false} XorNatBound(a: nat, b: nat, k: nat)
    requires a < Pow2(k) && b < Pow2(k)
    ensures XorNat(a, b) < Pow2(k)
    decreases k
  {
    if a != 0 || b != 0 {
      XorNatBound(a / 2, b / 2, k - 1);
    }
  }

  /** One unfolding of XorNat, valid for all arguments. */
  lemma XorNatStep(a: nat, b: nat)
    ensures XorNat(a, b) == 2 * XorNat(a / 2, b / 2) + (a % 2 + b % 2) % 2
    ensures XorNat(a, b) / 2 == XorNat(a / 2, b / 2) && XorNat(a, b) % 2 == (a % 2 + b % 2) % 2
  {
  }

  lemma {:induction false} XorNatInvolution(a: nat, b: nat)
    ensures XorNat(XorNat(a, b), b) == a
    decreases a + b
  {
    if a != 0 || b != 0 {
      XorNatStep(a, b);
      XorNatInvolution(a / 2, b / 2);
      XorNatStep(XorNat(a, b), b);
      ParityInvolution(a, b);
    }
  }

  lemma ParityInvolution(a: nat, b: nat)
    ensures ((a % 2 + b % 2) % 2 + b % 2) % 2 == a % 2
  {
  }

  lemma {:induction false} XorNatCommutes(a: nat, b: nat)
    ensures XorNat(a, b) == XorNat(b, a)
    decreases a + b
  {
    if a != 0 || b != 0 {
      XorNatCommutes(a / 2, b / 2);
    }
  }

  function Xor(a: Byte, b: Byte): (r: Byte) {
    assert Pow2(8) == 256 by { assert Pow2(4) == 16; }
    XorNatBound(a, b, 8);
    XorNat(a, b)
  }

  lemma XorInvolution(a: Byte, b: Byte)
    ensures Xor(Xor(a, b), b) == a
  {
    XorNatInvolution(a, b);
  }

  /** Element-wise exclusive-or of two byte strings of one length. */
  function XorBytes(a: seq<Byte>, b: seq<Byte>): (r: seq<Byte>)
    requires |a| == |b|
    ensures |r| == |a|
  {
    seq(|a|, i requires 0 <= i < |a| => Xor(a[i], b[i]))
  }

  lemma XorBytesInvolution(a: seq<Byte>, b: seq<Byte>)
    requires |a| == |b|
    ensures XorBytes(XorBytes(a, b), b) == a
  {
    forall i | 0 <= i < |a| ensures Xor(Xor(a[i], b[i]), b[i]) == a[i] {
      XorInvolution(a[i], b[i]);
    }
  }

  lemma XorBytesCommutes(a: seq<Byte>, b: seq<Byte>)
    requires |a| == |b|
    ensures XorBytes(a, b) == XorBytes(b, a)
  {
    forall i | 0 <= i < |a| ensures Xor(a[i], b[i]) == Xor(b[i], a[i]) {
      XorNatCommutes(a[i], b[i]);
    }
  }

  function Zeros(n: nat): (z: seq<Byte>)
    ensures |z| == n
  {
    seq(n, _ => 0)
  }

  lemma {:induction false} XorNatZero(a: nat)
    ensures XorNat(0, a) == a
  {
    if a != 0 {
      XorNatZero(a / 2);
    }
  }

  lemma XorBytesZero(a: seq<Byte>)
    ensures XorBytes(Zeros(|a|), a) == a
  {
    forall i | 0 <= i < |a| ensures Xor(0, a[i]) == a[i] {
      XorNatZero(a[i]);
    }
  }

  function Min(a: nat, b: nat): nat {
    if a < b then a else b
  }

  lemma SameTail(a: seq<Byte>, b: seq<Byte>, c: seq<Byte>)
    ensures a + b == a + c <==> b == c
  {
    if a + b == a + c {
      assert b == (a + b)[|a|..] && c == (a + c)[|a|..];
    }
  }

  lemma Joined(a: seq<Byte>, b: seq<Byte>, c: seq<Byte>, bc: seq<Byte>)
    requires b + c == bc
    ensures (a + b) + c == a + bc
  {
  }

  /** A partial block completed with zero bytes. */
  function ZeroExtend(p: seq<Byte>): (b: Block)
    requires |p| <= 16
    ensures b[..|p|] == p
  {
    p + Zeros(16 - |p|)
  }

  /** The largest multiple of the block size that is at most n. */
  function Aligned(n: nat): (a: nat)
    ensures a <= n < a + 16 && a % 16 == 0
  {
    n / 16 * 16
  }

  lemma MultipleApart(d: int, g: nat)
    ensures d >= 1 ==> d * g >= g
    ensures d <= -1 ==> d * g + g <= 0
  {
  }

  /** Quotient and remainder are the only numbers that fit. */
  lemma DivModUnique(n: nat, q: nat, r: nat, B: nat)
    requires 0 <= r < B && n == q * B + r
    ensures n / B == q && n % B == r
  {
    var x, y := n / B, n % B;
    assert n == x * B + y;
    MultipleApart(x - q, B);
    assert (x - q) * B == x * B - q * B;
  }

  /** g added k times. */
  function Times(k: nat, g: nat): nat {
    if k == 0 then 0 else Times(k - 1, g) + g
  }

  lemma {:induction false} TimesIsProduct(k: nat, g: nat)
    ensures Times(k, g) == k * g
  {
    if k > 0 {
      TimesIsProduct(k - 1, g);
    }
  }
}
