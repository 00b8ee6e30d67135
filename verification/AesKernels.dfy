/**
 The single-buffer and multi-lane AES kernels: the loops of lib/arch, with their unrolled
 groups and their write-back of the chaining value, refined against BlockModes.

 `multiUpdate` is the build option AES_MULTI_UPDATE: only when it is set does a kernel store
 the chaining value it ended with back into the caller's IV buffer.
 */
module AesKernels {
  import opened Bytes
  import opened BlockModes

  /** The IV buffer after a kernel that ended with chaining value `last`. */
  function WriteBack(multiUpdate: bool, iv: Block, last: Block): Block {
    if multiUpdate then last else iv
  }

  /** The first p bytes, whole blocks, are encrypted and b1 is the chaining value there. */
  ghost predicate Encrypted(m: ChainMode, C: BlockCipher, iv: Block, src: seq<Byte>,
                            p: nat, dst: seq<Byte>, b1: Block) {
    p <= |src| && p % 16 == 0 && dst == Encrypt(m, C, iv, src[..p]) && b1 == Chain(m, C, iv, src[..p])
  }

  lemma EncryptedExtend(m: ChainMode, C: BlockCipher, iv: Block, src: seq<Byte>,
                        p: nat, n: nat, dst: seq<Byte>, b1: Block)
    requires Encrypted(m, C, iv, src, p, dst, b1) && p + n <= |src| && n % 16 == 0
    ensures Encrypted(m, C, iv, src, p + n, dst + Encrypt(m, C, b1, src[p..p + n]), Chain(m, C, b1, src[p..p + n]))
  {
    ExtendEncrypt(m, C, iv, src, p, n);
    assert (p + n) % 16 == 0 by { SumOfMultiples(p, n); }
  }

  lemma EncryptedBlock(m: ChainMode, C: BlockCipher, iv: Block, src: seq<Byte>, p: nat, dst: seq<Byte>, b1: Block)
    requires Encrypted(m, C, iv, src, p, dst, b1) && p + 16 <= |src|
    ensures var c := CipherBlock(m, C, b1, src[p..p + 16]);
            Encrypted(m, C, iv, src, p + 16, dst + c, c)
  {
    EncryptedExtend(m, C, iv, src, p, 16, dst, b1);
    OneBlock(m, C, b1, src[p..p + 16]);
  }

  /** What is left after the whole blocks: nothing, or one partial block. */
  lemma EncryptedTail(m: ChainMode, C: BlockCipher, iv: Block, src: seq<Byte>, p: nat, dst: seq<Byte>, b1: Block)
    requires Encrypted(m, C, iv, src, p, dst, b1) && |src| - p < 16
    ensures p == |src| ==> dst == Encrypt(m, C, iv, src) && b1 == Chain(m, C, iv, src)
    ensures p < |src| ==>
      var c := CipherBlock(m, C, b1, ZeroExtend(src[p..]));
      dst + c[..|src| - p] == Encrypt(m, C, iv, src) && c == Chain(m, C, iv, src)
  {
    ExtendEncrypt(m, C, iv, src, p, |src| - p);
    assert src[..|src|] == src && src[p..|src|] == src[p..];
  }

  lemma OneBlock(m: ChainMode, C: BlockCipher, iv: Block, b: Block)
    ensures Encrypt(m, C, iv, b) == CipherBlock(m, C, iv, b) == Chain(m, C, iv, b)
  {
    assert b[..16] == b && b[16..] == [];
  }

  lemma SumOfMultiples(a: nat, b: nat)
    requires a % 16 == 0 && b % 16 == 0
    ensures (a + b) % 16 == 0
  {
  }

  method EncryptCbcKernel(C: BlockCipher, src: seq<Byte>, iv: Block, multiUpdate: bool)
    returns (dst: seq<Byte>, pIv: Block)
    ensures dst == Encrypt(CBC, C, iv, src)
    ensures pIv == (if multiUpdate then Chain(CBC, C, iv, src) else iv)
  {
    var blocks: nat, res: nat := |src| / 16, |src| % 16;
    var b1: Block, p: nat := iv, 0;
    dst := [];
    while blocks >= 1
      invariant |src| == p + 16 * blocks + res
      invariant Encrypted(CBC, C, iv, src, p, dst, b1)
      decreases blocks
    {
      EncryptedBlock(CBC, C, iv, src, p, dst, b1);
      b1 := C.enc(XorBytes(src[p..p + 16], b1));
      dst, p, blocks := dst + b1, p + 16, blocks - 1;
    }
    EncryptedTail(CBC, C, iv, src, p, dst, b1);
    if res != 0 {
      b1 := C.enc(XorBytes(ZeroExtend(src[p..]), b1));
      dst := dst + b1[..res];
    }
    pIv := if multiUpdate then b1 else iv;
  }

  /** The inner loop of the CFB encryption kernel: n blocks, each feeding the next. */
  method EncryptCfbGroup(C: BlockCipher, src: seq<Byte>, iv: Block, n: nat) returns (dst: seq<Byte>, blk: Block)
    requires |src| == 16 * n
    ensures dst == Encrypt(CFB, C, iv, src) && blk == Chain(CFB, C, iv, src)
  {
    blk, dst := iv, [];
    for i := 0 to n
      invariant Encrypted(CFB, C, iv, src, 16 * i, dst, blk)
    {
      EncryptedBlock(CFB, C, iv, src, 16 * i, dst, blk);
      blk := XorBytes(src[16 * i..16 * i + 16], C.enc(blk));
      dst := dst + blk;
    }
    assert src[..16 * n] == src;
  }

  /** Groups of four, then at most one of two, then at most one block, then the tail. */
  method EncryptCfbKernel(C: BlockCipher, src: seq<Byte>, iv: Block, multiUpdate: bool)
    returns (dst: seq<Byte>, pIv: Block)
    ensures dst == Encrypt(CFB, C, iv, src)
    ensures pIv == (if multiUpdate then Chain(CFB, C, iv, src) else iv)
  {
    var blocks: nat, res: nat := |src| / 16, |src| % 16;
    var iv128: Block, p: nat := iv, 0;
    dst := [];
    while blocks >= 4
      invariant |src| == p + 16 * blocks + res
      invariant Encrypted(CFB, C, iv, src, p, dst, iv128)
    {
      dst, iv128 := EncryptCfbStep(C, src, iv, p, dst, iv128, 4);
      p, blocks := p + 64, blocks - 4;
    }
    if blocks >= 2 {
      dst, iv128 := EncryptCfbStep(C, src, iv, p, dst, iv128, 2);
      p, blocks := p + 32, blocks - 2;
    }
    if blocks != 0 {
      dst, iv128 := EncryptCfbStep(C, src, iv, p, dst, iv128, 1);
      p, blocks := p + 16, blocks - 1;
    }
    EncryptedTail(CFB, C, iv, src, p, dst, iv128);
    if res != 0 {
      iv128 := XorBytes(ZeroExtend(src[p..]), C.enc(iv128));
      dst := dst + iv128[..res];
    }
    pIv := if multiUpdate then iv128 else iv;
  }

  /** Appends the ciphertext of one group of n blocks. */
  method EncryptCfbStep(C: BlockCipher, src: seq<Byte>, ghost iv: Block, p: nat,
                        dst0: seq<Byte>, b0: Block, n: nat)
    returns (dst: seq<Byte>, b1: Block)
    requires Encrypted(CFB, C, iv, src, p, dst0, b0) && p + 16 * n <= |src|
    ensures Encrypted(CFB, C, iv, src, p + 16 * n, dst, b1)
  {
    EncryptedExtend(CFB, C, iv, src, p, 16 * n, dst0, b0);
    var g;
    g, b1 := EncryptCfbGroup(C, src[p..p + 16 * n], b0, n);
    dst := dst0 + g;
  }

  /** Encryption of a prefix, extended by n further bytes. */
  lemma ExtendEncrypt(m: ChainMode, C: BlockCipher, iv: Block, s: seq<Byte>, p: nat, n: nat)
    requires p % 16 == 0 && p + n <= |s|
    ensures Encrypt(m, C, iv, s[..p + n])
         == Encrypt(m, C, iv, s[..p]) + Encrypt(m, C, Chain(m, C, iv, s[..p]), s[p..p + n])
    ensures Chain(m, C, iv, s[..p + n]) == Chain(m, C, Chain(m, C, iv, s[..p]), s[p..p + n])
  {
    assert s[..p + n] == s[..p] + s[p..p + n];
    EncryptSplit(m, C, iv, s[..p], s[p..p + n]);
  }

  lemma ExtendDecrypt(m: ChainMode, C: BlockCipher, iv: Block, s: seq<Byte>, p: nat, n: nat)
    requires p % 16 == 0 && p + n <= |s|
    ensures Decrypt(m, C, iv, s[..p + n])
         == Decrypt(m, C, iv, s[..p]) + Decrypt(m, C, LastBlock(iv, s[..p]), s[p..p + n])
    ensures LastBlock(iv, s[..p + n]) == LastBlock(LastBlock(iv, s[..p]), s[p..p + n])
  {
    assert s[..p + n] == s[..p] + s[p..p + n];
    DecryptSplit(m, C, iv, s[..p], s[p..p + n]);
  }

  /** The block-cipher call of one decrypted block: CBC inverts the block, CFB its predecessor. */
  function CipherCall(m: ChainMode, C: BlockCipher, c: Block, prev: Block): Block {
    if m == CBC then C.dec(c) else C.enc(prev)
  }

  function Previous(input: seq<Block>, iv: Block, k: nat): Block
    requires k <= |input|
  {
    if k == 0 then iv else input[k - 1]
  }

  function BlockAt(src: seq<Byte>, k: nat): Block
    requires 16 * (k + 1) <= |src|
  {
    src[16 * k..16 * (k + 1)]
  }

  /**
   One unrolled decryption group: all n blocks are loaded and run through the cipher side by
   side, and only then combined, each with its predecessor as it was loaded.
   */
  method DecryptGroup(m: ChainMode, C: BlockCipher, src: seq<Byte>, iv: Block, n: nat)
    returns (dst: seq<Byte>, last: Block)
    requires n > 0 && |src| == 16 * n
    ensures dst == Decrypt(m, C, iv, src) && last == LastBlock(iv, src)
  {
    var input: seq<Block> := [];
    for i := 0 to n
      invariant |input| == i && forall k :: 0 <= k < i ==> input[k] == BlockAt(src, k)
    {
      input := input + [BlockAt(src, i)];
    }
    var a: seq<Block> := [];
    for i := 0 to n
      invariant |a| == i
      invariant forall k :: 0 <= k < i ==> a[k] == CipherCall(m, C, input[k], Previous(input, iv, k))
    {
      a := a + [CipherCall(m, C, input[i], Previous(input, iv, i))];
    }
    dst := CombineGroup(m, C, src, iv, n, input, a);
    last := input[n - 1];
    NextPlainBlock(m, C, iv, src, n - 1);
    assert src[..16 * n] == src;
  }

  /** The second half of the group: every cipher result is combined with its block or predecessor. */
  method CombineGroup(m: ChainMode, C: BlockCipher, ghost src: seq<Byte>, iv: Block, n: nat,
                      input: seq<Block>, a: seq<Block>)
    returns (dst: seq<Byte>)
    requires |src| == 16 * n && |input| == |a| == n
    requires forall k :: 0 <= k < n ==> input[k] == BlockAt(src, k)
    requires forall k :: 0 <= k < n ==> a[k] == CipherCall(m, C, input[k], Previous(input, iv, k))
    ensures dst == Decrypt(m, C, iv, src)
  {
    dst := [];
    for i := 0 to n
      invariant dst == Decrypt(m, C, iv, src[..16 * i])
      invariant LastBlock(iv, src[..16 * i]) == Previous(input, iv, i)
    {
      var prev := Previous(input, iv, i);
      NextPlainBlock(m, C, iv, src, i);
      assert a[i] == CipherCall(m, C, input[i], prev);
      var out := if m == CBC then XorBytes(a[i], prev) else XorBytes(input[i], a[i]);
      assert out == PlainBlock(m, C, prev, input[i]) && input[i] == BlockAt(src, i);
      dst := dst + out;
    }
    assert src[..16 * n] == src;
  }

  lemma NextPlainBlock(m: ChainMode, C: BlockCipher, iv: Block, src: seq<Byte>, i: nat)
    requires 16 * (i + 1) <= |src|
    ensures Decrypt(m, C, iv, src[..16 * (i + 1)])
         == Decrypt(m, C, iv, src[..16 * i])
            + PlainBlock(m, C, LastBlock(iv, src[..16 * i]), BlockAt(src, i))
    ensures LastBlock(iv, src[..16 * (i + 1)]) == BlockAt(src, i)
  {
    ExtendDecrypt(m, C, iv, src, 16 * i, 16);
    var b := BlockAt(src, i);
    assert b[..16] == b && b[16..] == [];
  }

  /** The first p bytes, whole blocks, are decrypted and b1 is the chaining value there. */
  ghost predicate Decrypted(m: ChainMode, C: BlockCipher, iv: Block, src: seq<Byte>,
                            p: nat, dst: seq<Byte>, b1: Block) {
    p <= |src| && p % 16 == 0 && dst == Decrypt(m, C, iv, src[..p]) && b1 == LastBlock(iv, src[..p])
  }

  lemma DecryptedExtend(m: ChainMode, C: BlockCipher, iv: Block, src: seq<Byte>,
                        p: nat, n: nat, dst: seq<Byte>, b1: Block)
    requires Decrypted(m, C, iv, src, p, dst, b1) && p + n <= |src| && n % 16 == 0
    ensures Decrypted(m, C, iv, src, p + n, dst + Decrypt(m, C, b1, src[p..p + n]), LastBlock(b1, src[p..p + n]))
  {
    ExtendDecrypt(m, C, iv, src, p, n);
    assert (p + n) % 16 == 0 by { SumOfMultiples(p, n); }
  }

  lemma DecryptedAll(m: ChainMode, C: BlockCipher, iv: Block, src: seq<Byte>, p: nat, dst: seq<Byte>, b1: Block)
    requires Decrypted(m, C, iv, src, p, dst, b1) && |src| - p < 16
    ensures Decrypt(m, C, iv, src) == dst + Decrypt(m, C, b1, src[p..]) && LastBlock(iv, src) == b1
  {
    assert src == src[..p] + src[p..];
    DecryptSplit(m, C, iv, src[..p], src[p..]);
  }

  /** Groups of eight, four, two and one. A partial last block is not written. */
  method DecryptCbcKernel(C: BlockCipher, src: seq<Byte>, iv: Block, multiUpdate: bool)
    returns (dst: seq<Byte>, pIv: Block)
    ensures dst == Decrypt(CBC, C, iv, src)
    ensures pIv == (if multiUpdate then LastBlock(iv, src) else iv)
  {
    var b1: Block, p: nat := iv, 0;
    dst := [];
    dst, b1, p := DecryptGroups(CBC, C, src, iv, dst, b1, p, 8);
    dst, b1, p := DecryptGroups(CBC, C, src, iv, dst, b1, p, 4);
    dst, b1, p := DecryptGroups(CBC, C, src, iv, dst, b1, p, 2);
    dst, b1, p := DecryptGroups(CBC, C, src, iv, dst, b1, p, 1);
    DecryptedAll(CBC, C, iv, src, p, dst, b1);
    pIv := if multiUpdate then b1 else iv;
  }

  /** Decrypts groups of n blocks for as long as n whole blocks are left. */
  method DecryptGroups(m: ChainMode, C: BlockCipher, src: seq<Byte>, ghost iv: Block,
                       dst0: seq<Byte>, b0: Block, p0: nat, n: nat)
    returns (dst: seq<Byte>, b1: Block, p: nat)
    requires n > 0 && Decrypted(m, C, iv, src, p0, dst0, b0)
    ensures Decrypted(m, C, iv, src, p, dst, b1) && |src| - p < 16 * n
  {
    dst, b1, p := dst0, b0, p0;
    while |src| - p >= 16 * n
      invariant Decrypted(m, C, iv, src, p, dst, b1)
      decreases |src| - p
    {
      DecryptedExtend(m, C, iv, src, p, 16 * n, dst, b1);
      var g, last := DecryptGroup(m, C, src[p..p + 16 * n], b1, n);
      dst, b1, p := dst + g, last, p + 16 * n;
    }
  }

  /** Groups of four, at most one of two, at most one block, then the partial tail. */
  method DecryptCfbKernel(C: BlockCipher, src: seq<Byte>, iv: Block, multiUpdate: bool)
    returns (dst: seq<Byte>, pIv: Block)
    ensures dst == Decrypt(CFB, C, iv, src)
    ensures pIv == (if multiUpdate then LastBlock(iv, src) else iv)
  {
    var iv128: Block, p: nat := iv, 0;
    var g: seq<Byte>;
    dst := [];
    dst, iv128, p := DecryptGroups(CFB, C, src, iv, dst, iv128, p, 4);
    if |src| - p >= 32 {
      DecryptedExtend(CFB, C, iv, src, p, 32, dst, iv128);
      g, iv128 := DecryptGroup(CFB, C, src[p..p + 32], iv128, 2);
      dst, p := dst + g, p + 32;
    }
    if |src| - p >= 16 {
      DecryptedExtend(CFB, C, iv, src, p, 16, dst, iv128);
      g, iv128 := DecryptGroup(CFB, C, src[p..p + 16], iv128, 1);
      dst, p := dst + g, p + 16;
    }
    DecryptedAll(CFB, C, iv, src, p, dst, iv128);
    if p < |src| {
      var blk := XorBytes(C.enc(iv128), ZeroExtend(src[p..]));
      XorBytesCommutes(C.enc(iv128), ZeroExtend(src[p..]));
      dst := dst + blk[..|src| - p];
    }
    pIv := if multiUpdate && |src| >= 16 then iv128 else iv;
  }

  /** Output and final chaining values of k independent lanes of whole blocks. */
  ghost predicate LanesDone(m: ChainMode, C: BlockCipher, inputs: seq<seq<Byte>>, ivs: seq<Block>,
                            outs: seq<seq<Byte>>, last: seq<Block>, len: nat)
    requires |inputs| == |ivs| && forall j :: 0 <= j < |inputs| ==> len <= |inputs[j]|
  {
    && |outs| == |last| == |inputs|
    && forall j :: 0 <= j < |inputs| ==>
         && outs[j] == Encrypt(m, C, ivs[j], inputs[j][..len])
         && last[j] == Chain(m, C, ivs[j], inputs[j][..len])
  }

  /** How many lanes a kernel processes when called for n: with 256-bit registers the first two,
      with 512-bit registers all of 4, 8, 16, 32 or 64, and none of any other number. */
  function LanesProcessed(wide: bool, n: nat): (k: nat)
    requires !wide ==> n != 1
    ensures k <= n
  {
    if n == 0 then 0
    else if !wide then 2
    else if n in {4, 8, 16, 32, 64} then n
    else 0
  }

  /**
   The VAES kernels: all lanes advance together, one block of every lane per iteration, as many
   as there are whole blocks in len. `outs` is what is written for each lane; nothing is written
   for lanes that are not processed, and that is no error. The pointer arrays of the 512-bit
   kernel have room for 128 lanes; the 256-bit kernel reads two lanes whatever it is given.
   */
  method EncryptLanes(m: ChainMode, C: BlockCipher, inputs: seq<seq<Byte>>, ivs: seq<Block>, len: nat,
                      wide: bool, multiUpdate: bool)
    returns (outs: seq<seq<Byte>>, pIvs: seq<Block>)
    requires |inputs| == |ivs| && (if wide then |inputs| <= 128 else |inputs| != 1)
    requires forall j :: 0 <= j < |inputs| ==> len <= |inputs[j]|
    ensures |outs| == |pIvs| == |inputs|
    ensures forall j :: 0 <= j < LanesProcessed(wide, |inputs|) ==>
      && outs[j] == Encrypt(m, C, ivs[j], inputs[j][..Aligned(len)])
      && pIvs[j] == WriteBack(multiUpdate, ivs[j], Chain(m, C, ivs[j], inputs[j][..Aligned(len)]))
    ensures forall j :: LanesProcessed(wide, |inputs|) <= j < |inputs| ==> outs[j] == [] && pIvs[j] == ivs[j]
  {
    var k := LanesProcessed(wide, |inputs|);
    var lanes, ivs0 := inputs[..k], ivs[..k];
    var written: seq<seq<Byte>>, current := seq(k, _ => []), ivs0;
    assert LanesDone(m, C, lanes, ivs0, written, current, 0);
    hide Encrypt, Chain;
    for i := 0 to len / 16
      invariant LanesDone(m, C, lanes, ivs0, written, current, 16 * i)
    {
      written, current := LanesStep(m, C, lanes, ivs0, written, current, i);
    }
    outs := written + seq(|inputs| - k, _ => []);
    pIvs := (if multiUpdate then current else ivs0) + ivs[k..];
    assert forall j :: 0 <= j < k ==> lanes[j] == inputs[j] && ivs0[j] == ivs[j];
  }

  /** One iteration of the lane loop: block i of every lane. */
  method LanesStep(m: ChainMode, C: BlockCipher, inputs: seq<seq<Byte>>, ghost ivs: seq<Block>,
                   outs0: seq<seq<Byte>>, current0: seq<Block>, i: nat)
    returns (outs: seq<seq<Byte>>, current: seq<Block>)
    requires |inputs| == |ivs| && forall j :: 0 <= j < |inputs| ==> 16 * (i + 1) <= |inputs[j]|
    requires LanesDone(m, C, inputs, ivs, outs0, current0, 16 * i)
    ensures LanesDone(m, C, inputs, ivs, outs, current, 16 * (i + 1))
  {
    hide Encrypt, Chain;
    outs, current := outs0, current0;
    for j := 0 to |inputs|
      invariant |outs| == |current| == |inputs|
      invariant forall k :: 0 <= k < j ==>
        && outs[k] == Encrypt(m, C, ivs[k], inputs[k][..16 * (i + 1)])
        && current[k] == Chain(m, C, ivs[k], inputs[k][..16 * (i + 1)])
      invariant forall k :: j <= k < |inputs| ==> outs[k] == outs0[k] && current[k] == current0[k]
    {
      var blk := inputs[j][16 * i..16 * i + 16];
      var c := if m == CBC then C.enc(XorBytes(blk, current[j])) else XorBytes(blk, C.enc(current[j]));
      ExtendEncrypt(m, C, ivs[j], inputs[j], 16 * i, 16);
      OneBlock(m, C, current[j], blk);
      outs, current := outs[j := outs[j] + c], current[j := c];
    }
  }
}
