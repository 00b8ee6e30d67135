/**
 CBC over several calls in a build with AES_MULTI_UPDATE: bytes that do not fill a block wait in
 a partial buffer, and the chaining value is carried from call to call. Encryption and decryption
 are two objects of one class, told apart by `decrypting`.
 */
module CbcStream {
  import opened Bytes
  import opened BlockModes
  import opened AesKernels

  /** The whole blocks of data, and what comes after them. */
  function Whole(data: seq<Byte>): (w: seq<Byte>)
    ensures |w| % 16 == 0 && |data| - |w| < 16
  {
    data[..Aligned(|data|)]
  }

  function Rest(data: seq<Byte>): (r: seq<Byte>)
    ensures |r| < 16 && Whole(data) + r == data
  {
    data[Aligned(|data|)..]
  }

  /** Data is cut into whole blocks and a rest in one way only. */
  lemma CutUnique(w: seq<Byte>, r: seq<Byte>)
    requires |w| % 16 == 0 && |r| < 16
    ensures Whole(w + r) == w && Rest(w + r) == r
  {
    assert Aligned(|w + r|) == |w|;
  }

  /** More data joins the rest of what came before. */
  lemma CutMore(a: seq<Byte>, b: seq<Byte>)
    ensures Whole(a + b) == Whole(a) + Whole(Rest(a) + b) && Rest(a + b) == Rest(Rest(a) + b)
  {
    var w, r := Whole(Rest(a) + b), Rest(Rest(a) + b);
    Joined(Whole(a), Rest(a), b, Rest(a) + b);
    Joined(Whole(a), w, r, Rest(a) + b);
    assert (|Whole(a)| + |w|) % 16 == 0 by { SumOfMultiples(|Whole(a)|, |w|); }
    CutUnique(Whole(a) + w, r);
  }

  /** The kernel's output and chaining value in either direction. */
  function Output(dec: bool, C: BlockCipher, iv: Block, data: seq<Byte>): seq<Byte> {
    if dec then Decrypt(CBC, C, iv, data) else Encrypt(CBC, C, iv, data)
  }

  function NextIv(dec: bool, C: BlockCipher, iv: Block, data: seq<Byte>): Block {
    if dec then LastBlock(iv, data) else Chain(CBC, C, iv, data)
  }

  lemma OutputSplit(dec: bool, C: BlockCipher, iv: Block, a: seq<Byte>, b: seq<Byte>)
    requires |a| % 16 == 0
    ensures Output(dec, C, iv, a + b) == Output(dec, C, iv, a) + Output(dec, C, NextIv(dec, C, iv, a), b)
    ensures NextIv(dec, C, iv, a + b) == NextIv(dec, C, NextIv(dec, C, iv, a), b)
  {
    if dec {
      DecryptSplit(CBC, C, iv, a, b);
    } else {
      EncryptSplit(CBC, C, iv, a, b);
    }
  }

  class CbcCipher {
    const C: BlockCipher
    const decrypting: bool
    var iv: Block
    const partial: array<Byte>
    var len: nat
    ghost var iv0: Block             // the IV set by init
    ghost var fed: seq<Byte>         // everything passed in since
    ghost var produced: seq<Byte>    // everything written since

    ghost predicate Valid()
      reads this, partial
    {
      && partial.Length == 16 && len == |Rest(fed)| && partial[..len] == Rest(fed)
      && iv == NextIv(decrypting, C, iv0, Whole(fed))
      && produced == Output(decrypting, C, iv0, Whole(fed))
    }

    constructor (C: BlockCipher, iv: Block, decrypting: bool)
      ensures Valid() && fresh(partial) && fed == [] && produced == []
      ensures this.C == C && this.iv0 == iv && this.decrypting == decrypting
    {
      this.C, this.iv, this.decrypting := C, iv, decrypting;
      partial := new Byte[16](_ => 0);
      len, iv0, fed, produced := 0, iv, [], [];
      new;
      assert Whole([]) == [];
    }

    method Kernel(src: seq<Byte>) returns (dst: seq<Byte>)
      modifies `iv
      ensures dst == Output(decrypting, C, old(iv), src) && iv == NextIv(decrypting, C, old(iv), src)
    {
      if decrypting {
        dst, iv := DecryptCbcKernel(C, src, iv, true);
      } else {
        dst, iv := EncryptCbcKernel(C, src, iv, true);
      }
    }

    /** PartialBuffer::append for as much as there is room. */
    method Append(src: seq<Byte>) returns (taken: nat)
      requires partial.Length == 16 && len <= 16
      modifies `len, partial
      ensures taken == Min(|src|, 16 - old(len)) && len == old(len) + taken
      ensures partial[..len] == old(partial[..len]) + src[..taken]
    {
      taken := Min(|src|, 16 - len);
      for i := 0 to taken
        invariant len == old(len)
        invariant partial[..len + i] == old(partial[..len]) + src[..i]
      {
        partial[len + i] := src[i];
        assert partial[..len + i + 1] == partial[..len + i] + [src[i]];
      }
      len := len + taken;
    }

    /** Completes the waiting block from the front of the input. */
    method CompletePartial(src: seq<Byte>) returns (taken: nat, out: seq<Byte>)
      requires partial.Length == 16 && len < 16
      modifies `iv, `len, partial
      ensures taken <= |src| && len < 16 && (len > 0 ==> taken == |src|)
      ensures var done := Whole(old(partial[..len]) + src[..taken]);
        && out == Output(decrypting, C, old(iv), done) && iv == NextIv(decrypting, C, old(iv), done)
        && partial[..len] == Rest(old(partial[..len]) + src[..taken])
    {
      ghost var held := partial[..len];
      taken, out := 0, [];
      assert src[..0] == [] && held + [] == held;
      if len > 0 && |src| > 0 {
        taken := Append(src);
        if len == 16 {
          CutUnique(partial[..16], []);
          assert partial[..16] + [] == partial[..16];
          out := Kernel(partial[..16]);
          len := 0;
        } else {
          CutUnique([], partial[..len]);
          assert [] + partial[..len] == partial[..len];
        }
      } else {
        CutUnique([], held);
        assert [] + held == held;
      }
    }

    /** One call of encrypt or decrypt: complete the waiting block, process whole blocks, keep
        the rest. Over any calls, what was written is the result for all whole blocks passed in. */
    method Update(input: seq<Byte>) returns (out: seq<Byte>)
      requires Valid()
      modifies this, partial
      ensures Valid() && iv0 == old(iv0)
      ensures fed == old(fed) + input && produced == old(produced) + out
      ensures var w := fed[..|fed| - |fed| % 16];
        && produced == (if decrypting then Decrypt(CBC, C, iv0, w) else Encrypt(CBC, C, iv0, w))
        && partial[..len] == fed[|fed| - |fed| % 16..]
    {
      ghost var iv1, held, before := iv, partial[..len], fed;
      var taken, first := CompletePartial(input);
      ghost var mid := held + input[..taken];
      var left := input[taken..];
      var full := Whole(left);
      ghost var iv2 := iv;
      var second := Kernel(full);
      out := first + second;
      ghost var kept := partial[..len];
      var added := Append(left[|full|..]);
      Pieces(before, input, taken, mid, left, kept);
      fed := fed + input;
      OutputSplit(decrypting, C, iv1, Whole(mid), full);
      OutputSplit(decrypting, C, iv0, Whole(before), Whole(mid) + full);
      Joined(produced, first, second, out);
      produced := produced + out;
    }
  }

  /** How one call cuts its input. */
  lemma Pieces(before: seq<Byte>, input: seq<Byte>, taken: nat, mid: seq<Byte>, left: seq<Byte>, kept: seq<Byte>)
    requires taken <= |input| && mid == Rest(before) + input[..taken] && left == input[taken..] && kept == Rest(mid)
    requires kept != [] ==> left == []
    ensures Whole(before + input) == Whole(before) + (Whole(mid) + Whole(left))
    ensures Rest(before + input) == kept + Rest(left) && left[|Whole(left)|..] == Rest(left)
  {
    CutMore(before, input);
    assert Rest(before) + input == mid + left;
    CutMore(mid, left);
    if kept == [] {
      assert kept + left == left;
    } else {
      assert kept + left == kept;
      CutUnique([], kept);
      assert [] + kept == kept;
      CutUnique([], []);
    }
  }

  /** Everything passed to an encrypting object, in any calls, comes back from a decrypting one
      that is given what was written, in any calls: all whole blocks of it. */
  lemma StreamsInvert(e: CbcCipher, d: CbcCipher)
    requires e.Valid() && d.Valid() && !e.decrypting && d.decrypting && e.C == d.C && Permutation(e.C)
    requires d.iv0 == e.iv0 && d.fed == e.produced
    ensures d.produced == Whole(e.fed)
  {
    var w := Whole(e.fed);
    var c := Encrypt(CBC, e.C, e.iv0, w);
    CutUnique(c, []);
    assert c + [] == c;
    DecryptInvertsEncrypt(CBC, e.C, e.iv0, w);
  }
}
