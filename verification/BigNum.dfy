/**
 Byte strings as arrays of 64-bit limbs: convert_to_bignum of rsa_padding_big_num_keys.c, which
 fills the limbs through a byte view of their memory (little-endian).
 */
module BigNum {
  import opened Bytes
  import opened Octets

  type Limb = v: int | 0 <= v < 0x1_0000_0000_0000_0000

  /** Byte k of a limb in memory. */
  function ByteOf(v: Limb, k: nat): Byte
    requires k < 8
  {
    ToLe(v, 8)[k]
  }

  lemma LimbBytes(b: seq<Byte>)
    requires |b| == 8
    ensures FromLe(b) < 0x1_0000_0000_0000_0000 && ToLe(FromLe(b), 8) == b
  {
    assert Pow256(4) == 0x1_0000_0000;
    assert Pow256(8) == 0x1_0000_0000 * Pow256(4);
    ToFromLe(b);
  }

  /** The limb after one of its bytes is stored. */
  function PutByte(v: Limb, k: nat, b: Byte): Limb
    requires k < 8
  {
    LimbBytes(ToLe(v, 8)[k := b]);
    FromLe(ToLe(v, 8)[k := b])
  }

  /** The bytes of the limbs in memory. */
  function View(limbs: seq<Limb>): (v: seq<Byte>)
    ensures |v| == 8 * |limbs|
  {
    if limbs == [] then [] else ToLe(limbs[0], 8) + View(limbs[1..])
  }

  lemma {:induction false} ViewAt(limbs: seq<Limb>, j: nat)
    requires j < 8 * |limbs|
    ensures View(limbs)[j] == ByteOf(limbs[j / 8], j % 8)
  {
    if j >= 8 {
      ViewAt(limbs[1..], j - 8);
      assert (j - 8) / 8 == j / 8 - 1 && (j - 8) % 8 == j % 8;
    }
  }

  /** Storing byte j through the view changes that byte of the view only. */
  lemma ViewPut(limbs: seq<Limb>, j: nat, b: Byte)
    requires j < 8 * |limbs|
    ensures View(limbs[j / 8 := PutByte(limbs[j / 8], j % 8, b)]) == View(limbs)[j := b]
  {
    var l, k := j / 8, j % 8;
    var after := limbs[l := PutByte(limbs[l], k, b)];
    LimbBytes(ToLe(limbs[l], 8)[k := b]);
    forall i | 0 <= i < 8 * |limbs| ensures View(after)[i] == View(limbs)[j := b][i] {
      ViewAt(after, i);
      ViewAt(limbs, i);
      assert i == 8 * (i / 8) + i % 8;
    }
  }

  function Reversed(b: seq<Byte>): (r: seq<Byte>)
    ensures |r| == |b|
  {
    if b == [] then [] else Reversed(b[1..]) + [b[0]]
  }

  lemma {:induction false} ReversedSnoc(b: seq<Byte>, x: Byte)
    ensures Reversed(b + [x]) == [x] + Reversed(b)
  {
    if b == [] {
      assert [x][1..] == [] && b + [x] == [x];
    } else {
      assert (b + [x])[1..] == b[1..] + [x];
      ReversedSnoc(b[1..], x);
    }
  }

  /** A store through the byte view. */
  method StoreByte(bigNum: array<Limb>, j: nat, b: Byte)
    requires j < 8 * bigNum.Length
    modifies bigNum
    ensures View(bigNum[..]) == old(View(bigNum[..]))[j := b]
  {
    ViewPut(bigNum[..], j, b);
    ghost var limbs := bigNum[..];
    bigNum[j / 8] := PutByte(bigNum[j / 8], j % 8, b);
    assert bigNum[..] == limbs[j / 8 := PutByte(limbs[j / 8], j % 8, b)];
  }

  /** The two-index loop; the limbs hold anything before. */
  method ConvertToBignum(bytes: seq<Byte>, bigNum: array<Limb>, size: nat)
    requires |bytes| == size <= 8 * bigNum.Length
    modifies bigNum
    ensures View(bigNum[..]) == Reversed(bytes) + old(View(bigNum[..]))[size..]
  {
    hide View, Reversed;
    var i, j := size - 1, 0;
    ghost var before := View(bigNum[..]);
    FilledStart(bytes, before);
    while i >= 0
      invariant -1 <= i < size && j == size - 1 - i
      invariant View(bigNum[..]) == Filled(bytes, before, j)
    {
      FilledNext(bytes, before, j);
      StoreByte(bigNum, j, bytes[i]);
      i, j := i - 1, j + 1;
    }
    assert bytes[0..] == bytes;
  }

  /** The view after the last j bytes were stored. */
  function Filled(bytes: seq<Byte>, before: seq<Byte>, j: nat): seq<Byte>
    requires j <= |bytes| <= |before|
  {
    Reversed(bytes[|bytes| - j..]) + before[j..]
  }

  lemma FilledStart(bytes: seq<Byte>, before: seq<Byte>)
    requires |bytes| <= |before|
    ensures Filled(bytes, before, 0) == before
  {
    assert bytes[|bytes|..] == [];
  }

  /** One more byte stored. */
  lemma FilledNext(bytes: seq<Byte>, before: seq<Byte>, j: nat)
    requires j < |bytes| <= |before|
    ensures Filled(bytes, before, j)[j := bytes[|bytes| - 1 - j]] == Filled(bytes, before, j + 1)
  {
    var rest, x := bytes[|bytes| - j..], bytes[|bytes| - 1 - j];
    var longer := bytes[|bytes| - (j + 1)..];
    assert longer == [x] + rest && longer[1..] == rest;
    Appended(Reversed(rest), before[j..], x);
    assert before[j..][1..] == before[j + 1..];
  }

  lemma Appended(a: seq<Byte>, b: seq<Byte>, x: Byte)
    requires b != []
    ensures (a + b)[|a| := x] == (a + [x]) + b[1..]
  {
  }

  /** The integer the limbs stand for: the sum of limb[i] * 2^(64 i). */
  function LimbValue(limbs: seq<Limb>): nat {
    if limbs == [] then 0 else limbs[0] + 0x1_0000_0000_0000_0000 * LimbValue(limbs[1..])
  }

  lemma {:induction false} LimbValueIsView(limbs: seq<Limb>)
    ensures LimbValue(limbs) == FromLe(View(limbs))
  {
    if limbs != [] {
      LimbValueIsView(limbs[1..]);
      FromLeAppend(ToLe(limbs[0], 8), View(limbs[1..]));
      assert Pow256(4) == 0x1_0000_0000;
      assert Pow256(8) == 0x1_0000_0000 * Pow256(4);
      FromToLe(limbs[0], 8);
    }
  }

  lemma {:induction false} ReversedValue(b: seq<Byte>)
    ensures FromLe(Reversed(b)) == FromBe(b)
  {
    if b != [] {
      var init, last := b[..|b| - 1], b[|b| - 1];
      assert b == init + [last];
      ReversedSnoc(init, last);
      assert ([last] + Reversed(init))[1..] == Reversed(init);
      ReversedValue(init);
    }
  }

  /** The limbs filled from 8k bytes have the value OS2IP gives those bytes, and only they do. */
  lemma BignumKeepsInteger(bytes: seq<Byte>, limbs: seq<Limb>)
    requires |bytes| == 8 * |limbs|
    ensures View(limbs) == Reversed(bytes) <==> LimbValue(limbs) == FromBe(bytes)
  {
    LimbValueIsView(limbs);
    ReversedValue(bytes);
    if LimbValue(limbs) == FromBe(bytes) {
      ToFromLe(View(limbs));
      ToFromLe(Reversed(bytes));
    }
  }

  /** Different byte strings give different limbs. */
  lemma BignumInjective(a: seq<Byte>, b: seq<Byte>, limbs: seq<Limb>)
    requires |a| == |b| == 8 * |limbs| && View(limbs) == Reversed(a) && View(limbs) == Reversed(b)
    ensures a == b
  {
    ReversedValue(a);
    ReversedValue(b);
    FromBeInjective(a, b);
  }
}
