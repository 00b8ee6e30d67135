/**
 XTS data units in pieces: what encrypting the pieces one after the other gives when the tweak
 moves along with them, and exactly when it would do to use one tweak for all of them.
 */
module XtsPieces {
  import opened Bytes
  import opened BlockModes
  import opened Octets
  import opened Xts
  import opened Gf128
  import AlphaOrder

  /** Pieces of one data unit: whole blocks except the last, each of at least one block. */
  ghost predicate Pieces(pieces: seq<seq<Byte>>) {
    && pieces != []
    && (forall i :: 0 <= i < |pieces| ==> 16 <= |pieces[i]| <= MAX_UNIT)
    && (forall i :: 0 <= i < |pieces| - 1 ==> |pieces[i]| % 16 == 0)
  }

  function Concat(pieces: seq<seq<Byte>>): seq<Byte> {
    if pieces == [] then [] else pieces[0] + Concat(pieces[1..])
  }

  lemma PiecesTail(pieces: seq<seq<Byte>>)
    requires Pieces(pieces)
    ensures |Concat(pieces)| >= 16 && (|pieces| > 1 ==> Pieces(pieces[1..]))
  {
  }

  /** Every piece under the tweak of one and the same block. */
  function UnderOneTweak(data: BlockCipher, t: Block, pieces: seq<seq<Byte>>): seq<Byte>
    requires forall i :: 0 <= i < |pieces| ==> |pieces[i]| >= 16
  {
    if pieces == [] then [] else XtsEncrypt(data, t, pieces[0]) + UnderOneTweak(data, t, pieces[1..])
  }

  /** The result of encrypting pieces under tweak t. */
  function PiecesResult(data: BlockCipher, t: Block, pieces: seq<seq<Byte>>, multiUpdate: bool): seq<Byte>
    requires Pieces(pieces)
  {
    PiecesTail(pieces);
    if multiUpdate then XtsEncrypt(data, t, Concat(pieces)) else UnderOneTweak(data, t, pieces)
  }

  lemma PiecesJoin(data: BlockCipher, t: Block, pieces: seq<seq<Byte>>, n: nat, multiUpdate: bool,
                   first: seq<Byte>, rest: seq<Byte>)
    requires Pieces(pieces) && |pieces| > 1 && |pieces[0]| == 16 * n && Pieces(pieces[1..])
    requires first == XtsEncrypt(data, t, pieces[0])
    requires rest == PiecesResult(data, if multiUpdate then Tweak(t, n) else t, pieces[1..], multiUpdate)
    ensures first + rest == PiecesResult(data, t, pieces, multiUpdate)
  {
    PiecesTail(pieces[1..]);
    if multiUpdate {
      XtsSplit(data.enc, t, pieces[0], Concat(pieces[1..]), false, n);
    }
  }

  lemma OnePiece(data: BlockCipher, t: Block, pieces: seq<seq<Byte>>)
    requires |pieces| == 1 && |pieces[0]| >= 16
    ensures Concat(pieces) == pieces[0] && UnderOneTweak(data, t, pieces) == XtsEncrypt(data, t, pieces[0])
  {
    assert Concat(pieces[1..]) == [] && UnderOneTweak(data, t, pieces[1..]) == [];
  }

  lemma OneResult(data: BlockCipher, t: Block, pieces: seq<seq<Byte>>, multiUpdate: bool)
    requires Pieces(pieces) && |pieces| == 1
    ensures PiecesResult(data, t, pieces, multiUpdate) == XtsEncrypt(data, t, pieces[0])
  {
    OnePiece(data, t, pieces);
  }


  // ------------------------------------------------------------------ one tweak for all pieces

  function LengthsOf(pieces: seq<seq<Byte>>): (lens: seq<nat>)
    ensures |lens| == |pieces|
  {
    seq(|pieces|, i requires 0 <= i < |pieces| => |pieces[i]|)
  }

  /** The lengths pieces of one unit may have. */
  predicate Lengths(lens: seq<nat>) {
    && lens != []
    && (forall i :: 0 <= i < |lens| ==> 16 <= lens[i] <= MAX_UNIT)
    && (forall i :: 0 <= i < |lens| - 1 ==> lens[i] % 16 == 0)
  }

  ghost predicate OneTweakEnough(C: BlockCipher, t: Block, pieces: seq<seq<Byte>>)
    requires Pieces(pieces)
  {
    PiecesTail(pieces);
    UnderOneTweak(C, t, pieces) == XtsEncrypt(C, t, Concat(pieces))
  }

  /** Every piece but the last is of so many blocks that the tweak behind it is the first again. */
  predicate TweakReturns(t: Block, lens: seq<nat>) {
    forall i :: 0 <= i < |lens| - 1 ==> Tweak(t, lens[i] / 16) == t
  }

  lemma {:induction false} OneTweakHolds(C: BlockCipher, t: Block, pieces: seq<seq<Byte>>)
    requires Pieces(pieces) && TweakReturns(t, LengthsOf(pieces))
    ensures OneTweakEnough(C, t, pieces)
    decreases |pieces|
  {
    if |pieces| == 1 {
      OnePiece(C, t, pieces);
    } else {
      PiecesTail(pieces);
      PiecesTail(pieces[1..]);
      var n := |pieces[0]| / 16;
      assert LengthsOf(pieces)[0] == |pieces[0]| && Tweak(t, n) == t;
      assert LengthsOf(pieces[1..]) == LengthsOf(pieces)[1..];
      OneTweakHolds(C, t, pieces[1..]);
      XtsSplit(C.enc, t, pieces[0], Concat(pieces[1..]), false, n);
    }
  }

  // ------------------------------------------------------------------ telling two tweaks apart

  lemma XorNonzero(a: Byte, b: Byte)
    ensures Xor(a, b) == 0 <==> a == b
  {
    XorInvolution(a, b);
    XorInvolution(0, b);
    XorNatZero(b);
  }

  /** Another first byte: the next one, or the one after it. */
  function FirstByte(t: Block, step: nat): Block {
    var b: nat := t[0];
    t[0 := (b + step) % 256]
  }

  /** A block that differs from t in its first byte, and is not u. */
  function Other(t: Block, u: Block): (w: Block)
    ensures w[0] != t[0] && w != u
  {
    assert FirstByte(t, 1)[0] != FirstByte(t, 2)[0];
    if FirstByte(t, 1) != u then FirstByte(t, 1) else FirstByte(t, 2)
  }

  /** A cipher under which the zero block comes out different in the first byte. */
  function Telling(t: Block, u: Block): BlockCipher {
    Exchange(t, Other(t, u))
  }

  lemma TellingTells(t: Block, u: Block)
    requires t != u
    ensures Permutation(Telling(t, u))
    ensures XtsBlock(Telling(t, u).enc, t, Zeros(16))[0] != XtsBlock(Telling(t, u).enc, u, Zeros(16))[0]
  {
    var w := Other(t, u);
    ExchangePermutes(t, w);
    XorBytesZero(t);
    XorBytesZero(u);
    XorNonzero(w[0], t[0]);
    XorNonzero(u[0], u[0]);
  }

  /** Where the first block of a unit shows: behind the last block when that one is stolen from. */
  function FirstShownAt(n: nat): nat {
    if 16 < n < 32 then 16 else 0
  }

  lemma FirstShown(C: BlockCipher, t: Block, p: seq<Byte>)
    requires |p| >= 16
    ensures XtsEncrypt(C, t, p)[FirstShownAt(|p|)] == XtsBlock(C.enc, t, p[..16])[0]
  {
    if |p| == 16 {
      assert p[..16] == p;
    }
  }

  /** Two tweaks give one result for all ciphers and contents of a length only if they are equal. */
  lemma SameTweakIff(t: Block, u: Block, n: nat)
    requires n >= 16
    ensures (forall C, p | Permutation(C) && |p| == n :: XtsEncrypt(C, t, p) == XtsEncrypt(C, u, p)) <==> t == u
  {
    if t != u {
      var C, p := Telling(t, u), Zeros(n);
      TellingTells(t, u);
      FirstShown(C, t, p);
      FirstShown(C, u, p);
      assert p[..16] == Zeros(16);
      assert Permutation(C) && |p| == n && XtsEncrypt(C, t, p) != XtsEncrypt(C, u, p);
    }
  }

  function ZeroPieces(lens: seq<nat>): (pieces: seq<seq<Byte>>)
    ensures |pieces| == |lens| && forall i :: 0 <= i < |lens| ==> pieces[i] == Zeros(lens[i])
  {
    seq(|lens|, i requires 0 <= i < |lens| => Zeros(lens[i]))
  }

  lemma ZeroPiecesFit(lens: seq<nat>)
    requires Lengths(lens)
    ensures Pieces(ZeroPieces(lens)) && LengthsOf(ZeroPieces(lens)) == lens
  {
  }

  /** The first block of pieces under one tweak. */
  lemma UnderShown(C: BlockCipher, t: Block, pieces: seq<seq<Byte>>)
    requires Pieces(pieces)
    ensures |Concat(pieces)| >= 16 && Concat(pieces)[..16] == pieces[0][..16]
    ensures |UnderOneTweak(C, t, pieces)| == |Concat(pieces)|
    ensures UnderOneTweak(C, t, pieces)[FirstShownAt(|Concat(pieces)|)] == XtsBlock(C.enc, t, pieces[0][..16])[0]
  {
    hide XtsBlock, XtsEncrypt;
    PiecesTail(pieces);
    FirstShown(C, t, pieces[0]);
    UnderLength(C, t, pieces);
    if |pieces| == 1 {
      OnePiece(C, t, pieces);
    } else {
      PiecesTail(pieces[1..]);
      assert FirstShownAt(|pieces[0]|) == 0;
    }
  }

  lemma {:induction false} UnderLength(C: BlockCipher, t: Block, pieces: seq<seq<Byte>>)
    requires Pieces(pieces)
    ensures |UnderOneTweak(C, t, pieces)| == |Concat(pieces)|
    decreases |pieces|
  {
    if |pieces| == 1 {
      OnePiece(C, t, pieces);
    } else {
      PiecesTail(pieces);
      UnderLength(C, t, pieces[1..]);
    }
  }

  /** Pieces under one tweak and the same pieces joined under another one. */
  lemma TweaksShow(t: Block, u: Block, lens: seq<nat>)
    requires Lengths(lens) && t != u
    ensures Pieces(ZeroPieces(lens)) && |Concat(ZeroPieces(lens))| >= 16
    ensures UnderOneTweak(Telling(t, u), t, ZeroPieces(lens)) != XtsEncrypt(Telling(t, u), u, Concat(ZeroPieces(lens)))
  {
    ZeroPiecesFit(lens);
    var C, pieces := Telling(t, u), ZeroPieces(lens);
    TellingTells(t, u);
    UnderShown(C, t, pieces);
    FirstShown(C, u, Concat(pieces));
    assert pieces[0][..16] == Zeros(16);
  }

  /** The first piece after which the tweak is another one decides: the unit of zeros shows it. */
  lemma {:induction false} OneTweakDiffers(t: Block, lens: seq<nat>) returns (C: BlockCipher)
    requires Lengths(lens) && !TweakReturns(t, lens)
    ensures Permutation(C) && Pieces(ZeroPieces(lens)) && !OneTweakEnough(C, t, ZeroPieces(lens))
    decreases |lens|
  {
    ZeroPiecesFit(lens);
    ZeroPiecesFit(lens[1..]);
    var pieces := ZeroPieces(lens);
    var rest, n := pieces[1..], lens[0] / 16;
    var u := Tweak(t, n);
    assert rest == ZeroPieces(lens[1..]);
    PiecesTail(pieces);
    PiecesTail(rest);
    if u == t {
      C := OneTweakDiffers(t, lens[1..]);
    } else {
      C := Telling(t, u);
      TellingTells(t, u);
      TweaksShow(t, u, lens[1..]);
    }
    XtsSplit(C.enc, t, pieces[0], Concat(rest), false, n);
    SameTail(XtsEncrypt(C, t, pieces[0]), UnderOneTweak(C, t, rest), XtsEncrypt(C, u, Concat(rest)));
  }

  /** Pieces are too short for a tweak other than zero to come back. */
  lemma ReturnsIffZero(t: Block, lens: seq<nat>)
    requires Lengths(lens)
    ensures TweakReturns(t, lens) <==> |lens| == 1 || t == Zeros(16)
  {
    hide Tweak;
    forall i | 0 <= i < |lens| - 1
      ensures Tweak(t, lens[i] / 16) == t <==> t == Zeros(16)
    {
      AlphaOrder.TweakReturnsIff(t, lens[i] / 16);
    }
    if |lens| > 1 {
      AlphaOrder.TweakReturnsIff(t, lens[0] / 16);
    }
  }

  /**
   One tweak for all pieces gives the unit, for all ciphers and contents, exactly when there is
   one piece only or the tweak is zero.
   */
  lemma OneTweakIff(t: Block, lens: seq<nat>)
    requires Lengths(lens)
    ensures (forall C, pieces | Permutation(C) && Pieces(pieces) && LengthsOf(pieces) == lens ::
               OneTweakEnough(C, t, pieces)) <==> |lens| == 1 || t == Zeros(16)
  {
    ReturnsIffZero(t, lens);
    if TweakReturns(t, lens) {
      forall C, pieces | Permutation(C) && Pieces(pieces) && LengthsOf(pieces) == lens
        ensures OneTweakEnough(C, t, pieces)
      {
        OneTweakHolds(C, t, pieces);
      }
    } else {
      var C := OneTweakDiffers(t, lens);
      ZeroPiecesFit(lens);
    }
  }

  /** Encrypting in pieces gives the unit, for all ciphers, tweaks and pieces, exactly in a build
      with AES_MULTI_UPDATE. */
  lemma PiecesPromiseIff(multiUpdate: bool)
    ensures (forall C, t, pieces | Permutation(C) && Pieces(pieces) ::
               PiecesResult(C, t, pieces, multiUpdate) == PiecesResult(C, t, pieces, true)) <==> multiUpdate
  {
    if !multiUpdate {
      var t: Block, lens := ToLe(1, 16), [16, 16];
      DoublingMoves(t);
      assert Tweak(t, 1) == Alpha(t);
      assert !TweakReturns(t, lens) by { assert lens[0] / 16 == 1; }
      var C := OneTweakDiffers(t, lens);
      var pieces := ZeroPieces(lens);
      assert PiecesResult(C, t, pieces, false) != PiecesResult(C, t, pieces, true);
    }
  }

  lemma DoublingMoves(t: Block)
    requires t == ToLe(1, 16)
    ensures Alpha(t) != t
  {
    WordSizes();
    FromToLe(1, 16);
    AlphaDoubles(t);
  }

  // ------------------------------------------------------------------ alpha cancels

  lemma DoubleInjective(a: Register, b: Register)
    requires Double(a) == Double(b)
    ensures a == b
  {
    hide XorNat, Double;
    var x, h := TopPart(a);
    var y, g := TopPart(b);
    DoubleParts(a, x, h);
    DoubleParts(b, y, g);
    XorBit(x, 0, Feedback(h) / 2, h);
    XorBit(y, 0, Feedback(g) / 2, g);
    XorNatInvolution(2 * x, Feedback(h));
    XorNatInvolution(2 * y, Feedback(g));
  }

  lemma AlphaInjective(t: Block, u: Block)
    requires Alpha(t) == Alpha(u)
    ensures t == u
  {
    hide Double, Alpha;
    WordSizes();
    AlphaDoubles(t);
    AlphaDoubles(u);
    DoubleInjective(FromLe(t), FromLe(u));
    ToFromLe(t);
    ToFromLe(u);
  }

  lemma {:induction false} TweakInjective(t: Block, u: Block, n: nat)
    requires Tweak(t, n) == Tweak(u, n)
    ensures t == u
    decreases n
  {
    if n > 0 {
      TweakInjective(Alpha(t), Alpha(u), n - 1);
      AlphaInjective(t, u);
    }
  }

  /** Two tweaks of one sequence d apart are equal exactly when the first comes back after d. */
  lemma TweaksApart(t: Block, n: nat, d: nat)
    requires d <= n
    ensures Tweak(t, n - d) == Tweak(t, n) <==> Tweak(t, d) == t
  {
    TweakTo(t, d, n - d, n);
    if Tweak(t, n - d) == Tweak(t, n) {
      TweakInjective(t, Tweak(t, d), n - d);
    }
  }
}
