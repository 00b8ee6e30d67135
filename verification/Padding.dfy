/** The marker padding of filecrypt.cc: a byte 0x0f, then zero bytes up to a whole block. */
module Padding {
  import opened Bytes

  const MARK: Byte := 0x0f

  function Pad(x: seq<Byte>): (y: seq<Byte>) {
    x + [MARK] + Zeros(15 - |x| % 16)
  }

  method PadZeros(input: seq<Byte>) returns (out: seq<Byte>)
    ensures out == Pad(input)
  {
    var rem := 16 - |input| % 16;
    out := input + [MARK];
    rem := rem - 1;
    for i := 0 to rem
      invariant out == input + [MARK] + Zeros(i)
    {
      out := out + [0];
    }
  }

  /** The position of the last mark, or the length when there is none. */
  function LastMark(y: seq<Byte>): (k: nat)
    ensures k <= |y|
    ensures k < |y| ==> y[k] == MARK
    ensures forall i :: k < i < |y| ==> y[i] != MARK
    ensures k == |y| ==> forall i :: 0 <= i < |y| ==> y[i] != MARK
  {
    if y == [] then 0
    else if y[|y| - 1] == MARK then |y| - 1
    else
      var init := y[..|y| - 1];
      var k := LastMark(init);
      assert forall i :: 0 <= i < |init| ==> y[i] == init[i];
      if k == |init| then |y| else k
  }

  /** Everything before the last mark; the whole input when there is none. */
  function Unpad(y: seq<Byte>): seq<Byte> {
    y[..LastMark(y)]
  }

  /** The last byte 0x0f is the only one that counts. */
  lemma UnpadAt(y: seq<Byte>, k: nat)
    requires k <= |y| && (k < |y| ==> y[k] == 0x0f) && (forall i :: k < i < |y| ==> y[i] != 0x0f)
    requires k == |y| ==> 0x0f !in y
    ensures Unpad(y) == y[..k]
  {
    var l := LastMark(y);
    assert l < |y| ==> y[l] == 0x0f;
  }

  /** The padded length is the least multiple of the block size greater than the length. */
  lemma PadLength(x: seq<Byte>)
    ensures |Pad(x)| % 16 == 0 && |x| < |Pad(x)|
    ensures forall m: nat :: m % 16 == 0 && m > |x| ==> |Pad(x)| <= m
  {
  }

  /** Marks inside the data do no harm. */
  lemma UnpadPad(x: seq<Byte>)
    ensures Unpad(Pad(x)) == x
  {
    var y := Pad(x);
    assert y[|x|] == MARK && forall i :: |x| < i < |y| ==> y[i] == 0;
    assert LastMark(y) == |x|;
  }

  /** What can be padded back: whole blocks whose last mark lies in the last block, followed by zeros only. */
  ghost predicate WellPadded(y: seq<Byte>) {
    var k := LastMark(y);
    |y| % 16 == 0 && k < |y| && |y| - k <= 16 && y[k + 1..] == Zeros(|y| - k - 1)
  }

  lemma PadUnpad(y: seq<Byte>)
    ensures Pad(Unpad(y)) == y <==> WellPadded(y)
  {
    if WellPadded(y) {
      WellPaddedBack(y);
    }
    if Pad(Unpad(y)) == y {
      PaddedIsWell(y);
    }
  }

  lemma WellPaddedBack(y: seq<Byte>)
    requires WellPadded(y)
    ensures Pad(Unpad(y)) == y
  {
    var k := LastMark(y);
    hide LastMark;
    assert 15 - k % 16 == |y| - k - 1;
    assert y == y[..k] + [y[k]] + y[k + 1..];
  }

  lemma PaddedIsWell(y: seq<Byte>)
    requires Pad(Unpad(y)) == y
    ensures WellPadded(y)
  {
    hide LastMark;
    var k := LastMark(y);
    PadLength(y[..k]);
    assert y[k + 1..] == Pad(y[..k])[k + 1..] == Zeros(15 - k % 16);
  }
}
