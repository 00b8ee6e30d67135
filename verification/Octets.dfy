/** Byte strings as big-endian integers: OS2IP and I2OSP of RFC 8017, sections 4.1 and 4.2. */
module Octets {
  import opened Bytes

  const TWO32: nat := 0x1_0000_0000
  const TWO64: nat := 0x1_0000_0000_0000_0000

  function Pow256(n: nat): (r: nat)
    ensures r > 0
  {
    if n == 0 then 1 else 256 * Pow256(n - 1)
  }

  function FromBe(b: seq<Byte>): (v: nat)
    ensures v < Pow256(|b|)
  {
    if b == [] then 0 else FromBe(b[..|b| - 1]) * 256 + b[|b| - 1]
  }

  function ToBe(v: nat, len: nat): (b: seq<Byte>)
    ensures |b| == len
  {
    if len == 0 then [] else ToBe(v / 256, len - 1) + [v % 256]
  }

  lemma {:induction false} FromToBe(v: nat, len: nat)
    requires v < Pow256(len)
    ensures FromBe(ToBe(v, len)) == v
    decreases len
  {
    if len > 0 {
      FromToBe(v / 256, len - 1);
      assert ToBe(v, len)[..len - 1] == ToBe(v / 256, len - 1);
    }
  }

  lemma {:induction false} ToFromBe(b: seq<Byte>)
    ensures ToBe(FromBe(b), |b|) == b
  {
    if b != [] {
      ToFromBe(b[..|b| - 1]);
      assert b == b[..|b| - 1] + [b[|b| - 1]];
    }
  }

  lemma {:induction false} FromBeInjective(a: seq<Byte>, b: seq<Byte>)
    requires |a| == |b| && FromBe(a) == FromBe(b)
    ensures a == b
  {
    ToFromBe(a);
    ToFromBe(b);
  }

  /** The most significant byte comes first. */
  lemma BeWord(b: seq<Byte>)
    requires |b| == 8
    ensures FromBe(b) ==
      ((((((b[0] as int * 256 + b[1]) * 256 + b[2]) * 256 + b[3]) * 256 + b[4]) * 256 + b[5]) * 256 + b[6]) * 256 + b[7]
  {
    var b4, b6 := b[..4], b[..6];
    assert b4[..2][..1][..0] == [] && FromBe(b4[..2]) == b[0] as int * 256 + b[1];
    assert b4[..3][..2] == b4[..2];
    assert FromBe(b4) == ((b[0] as int * 256 + b[1]) * 256 + b[2]) * 256 + b[3];
    assert b6[..5][..4] == b4;
    assert FromBe(b6) == (FromBe(b4) * 256 + b[4]) * 256 + b[5];
    assert b[..7][..6] == b6;
  }

  // ------------------------------------------------------------------ little-endian

  /** The least significant byte comes first. */
  lemma LeWord(b: seq<Byte>)
    requires |b| == 4
    ensures FromLe(b) == b[0] as int + 256 * (b[1] as int + 256 * (b[2] as int + 256 * b[3] as int))
  {
    assert b[3..][1..] == [] && FromLe(b[3..]) == b[3] as int;
    assert b[2..][1..] == b[3..] && FromLe(b[2..]) == b[2] as int + 256 * FromLe(b[3..]);
    assert b[1..][1..] == b[2..] && FromLe(b[1..]) == b[1] as int + 256 * FromLe(b[2..]);
    assert FromLe(b) == b[0] as int + 256 * FromLe(b[1..]);
  }

  function FromLe(b: seq<Byte>): (v: nat)
    ensures v < Pow256(|b|)
  {
    if b == [] then 0 else b[0] + 256 * FromLe(b[1..])
  }

  function ToLe(v: nat, len: nat): (b: seq<Byte>)
    ensures |b| == len
  {
    if len == 0 then [] else [v % 256] + ToLe(v / 256, len - 1)
  }

  lemma {:induction false} FromToLe(v: nat, len: nat)
    requires v < Pow256(len)
    ensures FromLe(ToLe(v, len)) == v
    decreases len
  {
    if len > 0 {
      FromToLe(v / 256, len - 1);
      assert ToLe(v, len)[1..] == ToLe(v / 256, len - 1);
    }
  }

  lemma {:induction false} ToFromLe(b: seq<Byte>)
    ensures ToLe(FromLe(b), |b|) == b
  {
    if b != [] {
      var low, high := b[0], FromLe(b[1..]);
      ToFromLe(b[1..]);
      assert b == [low] + b[1..];
      assert (low + 256 * high) % 256 == low && (low + 256 * high) / 256 == high;
    }
  }

  lemma {:induction false} FromLeAppend(a: seq<Byte>, b: seq<Byte>)
    ensures FromLe(a + b) == FromLe(a) + Pow256(|a|) * FromLe(b)
  {
    if a == [] {
      assert a + b == b;
    } else {
      FromLeAppend(a[1..], b);
      assert (a + b)[1..] == a[1..] + b;
      Nested(FromLe(a[1..]), Pow256(|a| - 1), FromLe(b));
    }
  }

  lemma Nested(x: nat, y: nat, z: nat)
    ensures 256 * (x + y * z) == 256 * x + 256 * y * z
  {
  }

  lemma {:induction false} FromLeZeros(n: nat)
    ensures FromLe(Zeros(n)) == 0
  {
    if n > 0 {
      FromLeZeros(n - 1);
      assert Zeros(n)[1..] == Zeros(n - 1);
    }
  }
}
