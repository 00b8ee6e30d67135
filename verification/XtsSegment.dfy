/**
 The segment cipher XtsBlockT: data units encrypted in pieces, each piece naming the block it
 starts at. The object keeps the current tweak and the block number it believes it stands at.
 */
module XtsSegment {
  import opened Bytes
  import opened BlockModes
  import opened Octets
  import opened Xts
  import opened XtsPieces
  import opened Errors
  import AlphaOrder
  import AlphaPowers

  type Uint64 = n: int | 0 <= n < TWO64
  type Int64 = n: int | 0 <= n + TWO63 < TWO64

  /** A number stored in a signed 64-bit integer. */
  function Signed(n: int): Int64 {
    (n + TWO63) % TWO64 - TWO63
  }

  lemma SignedSum(a: int, b: int)
    ensures Signed(Signed(a) + b) == Signed(a + b)
  {
  }

  lemma SignedIs(n: Uint64)
    ensures Signed(n) == if n < TWO63 then n else n - TWO64
  {
  }

  class XtsBlockCipher {
    const multiUpdate: bool          // built with AES_MULTI_UPDATE
    const data: BlockCipher          // under the data key
    const tweakCipher: BlockCipher   // under the tweak key
    var iv: Block
    var tweakBlock: Block
    var aesBlockId: Int64
    ghost var steps: nat             // doublings that lead from the first tweak to the held one

    /** The tweak is so many doublings on; where it is written back they go with the block number. */
    ghost predicate Valid()
      reads this
    {
      tweakBlock == Tweak(FirstTweak(), steps) && (multiUpdate ==> Signed(steps) == aesBlockId)
    }

    ghost function FirstTweak(): Block
      reads this
    {
      tweakCipher.enc(iv)
    }

    /** The object as it is once an IV is set. */
    constructor (data: BlockCipher, tweakCipher: BlockCipher, iv: Block, multiUpdate: bool)
      ensures Valid() && steps == 0 && aesBlockId == 0 && this.iv == iv && tweakBlock == tweakCipher.enc(iv)
      ensures this.data == data && this.tweakCipher == tweakCipher && this.multiUpdate == multiUpdate
    {
      this.data, this.tweakCipher, this.iv, this.multiUpdate := data, tweakCipher, iv, multiUpdate;
      tweakBlock, aesBlockId, steps := tweakCipher.enc(iv), 0, 0;
    }

    method SetIv(iv: Block)
      modifies this
      ensures Valid() && steps == 0 && aesBlockId == 0 && this.iv == iv && tweakBlock == tweakCipher.enc(iv)
    {
      this.iv := iv;
      tweakBlock, aesBlockId, steps := tweakCipher.enc(iv), 0, 0;
    }

    /** The doublings to the tweak that a segment from block `start` is encrypted under. */
    ghost function StepsFor(start: Uint64): nat
      reads this
    {
      if Signed(start) > aesBlockId then steps + (Signed(start) - aesBlockId)
      else if Signed(start) < aesBlockId then start
      else steps
    }

    ghost function TweakFor(start: Uint64): Block
      reads this
    {
      Tweak(FirstTweak(), StepsFor(start))
    }

    /** How many blocks that tweak lies before the one of block `start`. */
    ghost function DriftAt(start: Uint64): int
      reads this
    {
      start - StepsFor(start)
    }

    /**
     Forward the held tweak is multiplied on; backward it is computed again from the IV. Which
     way to go is decided on signed numbers.
     */
    method TweakBlockSet(start: Uint64)
      requires Valid()
      modifies `tweakBlock, `aesBlockId, `steps
      ensures Valid() && aesBlockId == Signed(start)
      ensures tweakBlock == old(TweakFor(start)) && steps == old(StepsFor(start))
    {
      if Signed(start) > aesBlockId {
        Forward(start);
      } else if Signed(start) < aesBlockId {
        var first := tweakCipher.enc(iv);
        tweakBlock := AlphaPowers.TweakBlockCalculate(first, start);
        steps := start;
      }
      aesBlockId := Signed(start);
    }

    method Forward(start: Uint64)
      requires Valid() && Signed(start) > aesBlockId
      modifies `tweakBlock, `steps
      ensures tweakBlock == Tweak(FirstTweak(), steps) && steps == old(StepsFor(start))
      ensures multiUpdate ==> Signed(steps) == Signed(start)
    {
      hide Tweak;
      var inc := (start - aesBlockId) % TWO64;
      Distance(start, aesBlockId);
      TweakTo(tweakCipher.enc(iv), steps, inc, steps + inc);
      SignedSum(steps, inc);
      tweakBlock := AlphaPowers.TweakBlockCalculate(tweakBlock, inc);
      steps := steps + inc;
    }

    /** The unsigned difference is the distance of the signed numbers. */
    static lemma Distance(start: Uint64, id: Int64)
      requires Signed(start) > id
      ensures (start - id) % TWO64 == Signed(start) - id && Signed(id + (Signed(start) - id)) == Signed(start)
    {
      SignedIs(start);
      SignedSum(start, 0);
    }

    /**
     A segment is XTS from block `start` on, for all ciphers and contents of a length, exactly when
     the drift it is encrypted with is zero or brings the first tweak back. No drift but a multiple
     of 2^32 - 1 blocks does that unless the first tweak is zero.
     */
    lemma SegmentExactIff(start: Uint64, n: nat)
      requires n >= 16
      ensures (forall C, p | Permutation(C) && |p| == n ::
                 XtsEncrypt(C, TweakFor(start), p) == XtsEncrypt(C, Tweak(FirstTweak(), start), p))
        <==> DriftAt(start) == 0 || Tweak(FirstTweak(), Distant(DriftAt(start))) == FirstTweak()
      ensures Distant(DriftAt(start)) % AlphaOrder.PERIOD_FACTOR != 0 ==>
        ((forall C, p | Permutation(C) && |p| == n ::
            XtsEncrypt(C, TweakFor(start), p) == XtsEncrypt(C, Tweak(FirstTweak(), start), p))
         <==> FirstTweak() == Zeros(16))
    {
      hide Tweak, XtsEncrypt;
      var t, s := FirstTweak(), StepsFor(start);
      if s <= start {
        TweaksApart(t, start, start - s);
      } else {
        TweaksApart(t, s, s - start);
      }
      SameTweakIff(TweakFor(start), Tweak(t, start), n);
      if Distant(start - s) % AlphaOrder.PERIOD_FACTOR != 0 {
        AlphaOrder.TweakReturnsIff(t, Distant(start - s));
      }
    }

    /**
     With AES_MULTI_UPDATE the drift is zero as long as the tweak was moved no further than the block
     number says; only from a block number of 2^63 or more, which is stored as a negative one, to
     a smaller one the tweak goes forward where it should go back, and 2^64 blocks too far.
     */
    lemma DriftWithUpdate(start: Uint64)
      requires Valid() && multiUpdate && steps == if aesBlockId < 0 then aesBlockId + TWO64 else aesBlockId
      ensures DriftAt(start) == 0 <==> aesBlockId >= 0 || start >= TWO63
      ensures DriftAt(start) == 0 || DriftAt(start) + TWO64 == 0
    {
      SignedIs(start);
    }

    /** After an IV is set the first segment goes under the encrypted IV, doubled once for each block
        before the one it starts at. */
    lemma FirstSegment(start: Uint64)
      requires steps == 0 && aesBlockId == 0
      ensures TweakFor(start) == Tweak(tweakCipher.enc(iv), start)
    {
      SignedIs(start);
    }

    /** A segment from the block the object stands at goes under the held tweak; one further on, in
        signed numbers, under that tweak doubled for the blocks between, and one further back starts
        from the encrypted IV again. */
    lemma NextSegment(start: Uint64)
      requires Valid()
      ensures var s := if start < 0x8000_0000_0000_0000 then start else start - 0x1_0000_0000_0000_0000;
        && (s == aesBlockId ==> TweakFor(start) == tweakBlock)
        && (s > aesBlockId ==> TweakFor(start) == Tweak(tweakBlock, s - aesBlockId))
        && (s < aesBlockId ==> TweakFor(start) == Tweak(tweakCipher.enc(iv), start))
    {
      SignedIs(start);
      hide Tweak;
      if Signed(start) > aesBlockId {
        TweakTo(FirstTweak(), steps, Signed(start) - aesBlockId, steps + (Signed(start) - aesBlockId));
      }
    }

    lemma AtCurrent(start: Uint64)
      requires Valid() && Signed(start) == aesBlockId
      ensures TweakFor(start) == tweakBlock
    {
    }

    method EncryptSegment(input: seq<Byte>, start: Uint64) returns (err: Error, out: seq<Byte>)
      requires Valid()
      modifies `tweakBlock, `aesBlockId, `steps
      ensures Valid()
      ensures err == if |input| < 16 || |input| > MAX_UNIT then INVALID_DATA else NONE
      ensures err == NONE ==> |input| >= 16
      ensures err == NONE ==>
                out == XtsEncrypt(data, old(TweakFor(start)), input)
      ensures aesBlockId == Signed(start + if err == NONE then |input| / 16 else 0)
      ensures steps == old(StepsFor(start)) + if err == NONE && multiUpdate then |input| / 16 else 0
      ensures tweakBlock == Tweak(FirstTweak(), steps)
    {
      hide Tweak, Signed, XtsEncrypt, XtsDecrypt;
      TweakBlockSet(start);
      out := [];
      if |input| < 16 || |input| > MAX_UNIT {
        return INVALID_DATA, [];
      }
      ghost var tweak0 := tweakBlock;
      out, tweakBlock := EncryptXtsKernel(data, input, tweakBlock, multiUpdate);
      Advance(tweak0, start, |input| / 16);
      err := NONE;
    }

    method DecryptSegment(input: seq<Byte>, start: Uint64) returns (err: Error, out: seq<Byte>)
      requires Valid()
      modifies `tweakBlock, `aesBlockId, `steps
      ensures Valid()
      ensures err == if |input| < 16 || |input| > MAX_UNIT then INVALID_DATA else NONE
      ensures err == NONE ==> |input| >= 16
      ensures err == NONE ==>
                out == XtsDecrypt(data, old(TweakFor(start)), input)
      ensures aesBlockId == Signed(start + if err == NONE then |input| / 16 else 0)
      ensures steps == old(StepsFor(start)) + if err == NONE && multiUpdate then |input| / 16 else 0
      ensures tweakBlock == Tweak(FirstTweak(), steps)
    {
      hide Tweak, Signed, XtsEncrypt, XtsDecrypt;
      TweakBlockSet(start);
      out := [];
      if |input| < 16 || |input| > MAX_UNIT {
        return INVALID_DATA, [];
      }
      ghost var tweak0 := tweakBlock;
      out, tweakBlock := DecryptXtsKernel(data, input, tweakBlock, multiUpdate);
      Advance(tweak0, start, |input| / 16);
      err := NONE;
    }

    /** The block number always moves on; the tweak has moved with it only if it was stored back. */
    method Advance(ghost tweak0: Block, start: Uint64, blocks: nat)
      requires tweak0 == Tweak(FirstTweak(), steps) && aesBlockId == Signed(start)
      requires tweakBlock == (if multiUpdate then Tweak(tweak0, blocks) else tweak0)
      requires multiUpdate ==> Signed(steps) == aesBlockId
      modifies `aesBlockId, `steps
      ensures Valid() && aesBlockId == Signed(start + blocks)
      ensures steps == old(steps) + if multiUpdate then blocks else 0
    {
      hide Tweak;
      SignedSum(start, blocks);
      SignedSum(steps, blocks);
      if multiUpdate {
        TweakTo(tweakCipher.enc(iv), steps, blocks, steps + blocks);
        steps := steps + blocks;
      }
      aesBlockId := Signed(aesBlockId + blocks);
    }
  }

  function Distant(drift: int): nat {
    if drift < 0 then -drift else drift
  }

  /**
   Encrypting the pieces in order, each from the block after the previous one. With
   AES_MULTI_UPDATE the result is that of the whole unit; without it every piece is encrypted
   under the tweak of the first.
   */
  method EncryptPieces(x: XtsBlockCipher, pieces: seq<seq<Byte>>, start: Uint64) returns (out: seq<Byte>)
    requires x.Valid() && Pieces(pieces)
    modifies x`tweakBlock, x`aesBlockId, x`steps
    ensures x.Valid() && out == PiecesResult(x.data, old(x.TweakFor(start)), pieces, x.multiUpdate)
    decreases |pieces|
  {
    hide Tweak, XtsEncrypt, PiecesResult, Signed;
    PiecesTail(pieces);
    ghost var t := x.TweakFor(start);
    ghost var first0, steps0 := x.FirstTweak(), x.StepsFor(start);
    var err, first := x.EncryptSegment(pieces[0], start);
    out := first;
    if |pieces| == 1 {
      OneResult(x.data, t, pieces, x.multiUpdate);
    } else {
      var n := |pieces[0]| / 16;
      var next: Uint64 := (start + n) % TWO64;
      SameBlock(start + n);
      x.AtCurrent(next);
      TweakTo(first0, steps0, n, steps0 + n);
      var rest := EncryptPieces(x, pieces[1..], next);
      PiecesJoin(x.data, t, pieces, n, x.multiUpdate, first, rest);
      out := first + rest;
    }
  }

  lemma SameBlock(n: nat)
    ensures Signed(n % TWO64) == Signed(n)
  {
  }
}
