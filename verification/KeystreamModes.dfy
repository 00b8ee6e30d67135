/**
 OFB and CTR: the reference modes of NIST SP 800-38A (sections 6.4 and 6.5), the kernels of
 aesni_ofb.cc and aes_ctr.hh, and where the two agree.
 */
module KeystreamModes {
  import opened Bytes
  import opened BlockModes
  import opened Octets

  datatype StreamMode = OFB | CTR

  /** The counter is the last 64 bits of the block, big-endian, and wraps within them. */
  function AddCounter(s: Block, k: nat): Block {
    s[..8] + ToBe((FromBe(s[8..]) + k) % TWO64, 8)
  }

  function Next(m: StreamMode, C: BlockCipher, s: Block): Block {
    if m == OFB then C.enc(s) else AddCounter(s, 1)
  }

  /** Encryption and decryption: each block with the encrypted state, the last one cut short. */
  function Stream(m: StreamMode, C: BlockCipher, s: Block, p: seq<Byte>): (c: seq<Byte>)
    ensures |c| == |p|
    decreases |p|
  {
    if |p| < 16 then XorBytes(p, C.enc(s)[..|p|])
    else XorBytes(p[..16], C.enc(s)) + Stream(m, C, Next(m, C, s), p[16..])
  }

  /** The state after n blocks. */
  function StateAfter(m: StreamMode, C: BlockCipher, s: Block, n: nat): Block
    decreases n
  {
    if n == 0 then s else StateAfter(m, C, Next(m, C, s), n - 1)
  }

  lemma {:induction false} StreamInvolution(m: StreamMode, C: BlockCipher, s: Block, p: seq<Byte>)
    ensures Stream(m, C, s, Stream(m, C, s, p)) == p
    decreases |p|
  {
    if |p| < 16 {
      XorBytesInvolution(p, C.enc(s)[..|p|]);
    } else {
      var c, rest := XorBytes(p[..16], C.enc(s)), Stream(m, C, Next(m, C, s), p[16..]);
      assert (c + rest)[..16] == c && (c + rest)[16..] == rest;
      XorBytesInvolution(p[..16], C.enc(s));
      StreamInvolution(m, C, Next(m, C, s), p[16..]);
      assert p[..16] + p[16..] == p;
    }
  }

  /** A message may be cut after any whole number of blocks. */
  lemma {:induction false} StreamSplit(m: StreamMode, C: BlockCipher, s: Block, a: seq<Byte>, b: seq<Byte>, n: nat)
    requires |a| == 16 * n
    ensures Stream(m, C, s, a + b) == Stream(m, C, s, a) + Stream(m, C, StateAfter(m, C, s, n), b)
    decreases n
  {
    hide XorBytes, Next;
    if n == 0 {
      assert a + b == b;
    } else {
      assert (a + b)[..16] == a[..16] && (a + b)[16..] == a[16..] + b;
      StreamSplit(m, C, Next(m, C, s), a[16..], b, n - 1);
      Joined(XorBytes(a[..16], C.enc(s)), Stream(m, C, Next(m, C, s), a[16..]), Stream(m, C, StateAfter(m, C, s, n), b),
             Stream(m, C, Next(m, C, s), a[16..] + b));
    }
  }

  lemma {:induction false} StateAfterSum(m: StreamMode, C: BlockCipher, s: Block, a: nat, b: nat)
    ensures StateAfter(m, C, s, a + b) == StateAfter(m, C, StateAfter(m, C, s, a), b)
    decreases a
  {
    hide Next;
    if a > 0 {
      StateAfterSum(m, C, Next(m, C, s), a - 1, b);
    }
  }

  // ------------------------------------------------------------------ the modes block by block

  /** Block i is added to the encrypted state after i blocks; the last one is cut short. */
  lemma {:induction false} StreamAt(m: StreamMode, C: BlockCipher, s: Block, p: seq<Byte>, i: nat)
    requires 16 * i <= |p|
    ensures 16 * (i + 1) <= |p| ==>
      Stream(m, C, s, p)[16 * i..16 * i + 16] == XorBytes(p[16 * i..16 * i + 16], C.enc(StateAfter(m, C, s, i)))
    ensures |p| < 16 * (i + 1) ==>
      Stream(m, C, s, p)[16 * i..] == XorBytes(p[16 * i..], C.enc(StateAfter(m, C, s, i))[..|p| - 16 * i])
    decreases i
  {
    hide XorBytes, Next;
    var c := Stream(m, C, s, p);
    if i == 0 {
      assert p[0..] == p && c[0..] == c;
    } else {
      var rest := Stream(m, C, Next(m, C, s), p[16..]);
      assert c[16..] == rest;
      StreamAt(m, C, Next(m, C, s), p[16..], i - 1);
      Later(c, i);
      Later(p, i);
    }
  }

  lemma OfbNext(C: BlockCipher, s: Block, i: nat)
    ensures StateAfter(OFB, C, s, i + 1) == C.enc(StateAfter(OFB, C, s, i))
  {
    StateAfterSum(OFB, C, s, i, 1);
    assert StateAfter(OFB, C, StateAfter(OFB, C, s, i), 1) == StateAfter(OFB, C, C.enc(StateAfter(OFB, C, s, i)), 0);
  }

  /** What was added to a block: the sum of plaintext and ciphertext. */
  lemma AddedTo(p: seq<Byte>, k: seq<Byte>)
    requires |p| == |k|
    ensures XorBytes(p, XorBytes(p, k)) == k
  {
    XorBytesCommutes(p, k);
    XorBytesCommutes(p, XorBytes(k, p));
    XorBytesInvolution(k, p);
  }

  /** The state behind block i - 1 is what was added to it. */
  lemma OfbStateIs(C: BlockCipher, iv: Block, p: seq<Byte>, i: nat)
    requires 0 < i && 16 * i <= |p|
    ensures StateAfter(OFB, C, iv, i) == XorBytes(p[16 * i - 16..16 * i], Stream(OFB, C, iv, p)[16 * i - 16..16 * i])
  {
    var j := i - 1;
    StreamAt(OFB, C, iv, p, j);
    OfbNext(C, iv, j);
    assert 16 * j == 16 * i - 16;
    AddedTo(p[16 * i - 16..16 * i], StateAfter(OFB, C, iv, i));
  }

  /** OFB (section 6.4): what is added to a block is the encryption of what was added to the block
      before it, for the first block of the IV. */
  lemma OfbBlocks(C: BlockCipher, iv: Block, p: seq<Byte>, i: nat)
    requires 16 * (i + 1) <= |p|
    ensures var c := Stream(OFB, C, iv, p);
      c[16 * i..16 * i + 16] == XorBytes(p[16 * i..16 * i + 16],
        C.enc(if i == 0 then iv else XorBytes(p[16 * i - 16..16 * i], c[16 * i - 16..16 * i])))
  {
    StreamAt(OFB, C, iv, p, i);
    if i > 0 {
      OfbStateIs(C, iv, p, i);
    }
  }

  lemma OfbTail(C: BlockCipher, iv: Block, p: seq<Byte>, n: nat)
    requires 16 * n < |p| < 16 * n + 16
    ensures var c := Stream(OFB, C, iv, p);
      c[16 * n..] == XorBytes(p[16 * n..],
        C.enc(if n == 0 then iv else XorBytes(p[16 * n - 16..16 * n], c[16 * n - 16..16 * n]))[..|p| - 16 * n])
  {
    StreamAt(OFB, C, iv, p, n);
    if n > 0 {
      OfbStateIs(C, iv, p, n);
    }
  }

  /** CTR (section 6.5): what is added to block i is the encryption of the IV with i added to its
      last eight bytes, a big-endian number that wraps. */
  lemma CtrBlocks(C: BlockCipher, iv: Block, p: seq<Byte>, i: nat)
    requires 16 * (i + 1) <= |p|
    ensures Stream(CTR, C, iv, p)[16 * i..16 * i + 16] == XorBytes(p[16 * i..16 * i + 16],
      C.enc(iv[..8] + ToBe((FromBe(iv[8..]) + i) % 0x1_0000_0000_0000_0000, 8)))
  {
    CtrState(C, iv, i);
    hide Stream, XorBytes, StateAfter, FromBe, ToBe;
    StreamAt(CTR, C, iv, p, i);
  }

  lemma CtrTailBytes(C: BlockCipher, iv: Block, p: seq<Byte>, n: nat)
    requires 16 * n < |p| < 16 * n + 16
    ensures Stream(CTR, C, iv, p)[16 * n..] == XorBytes(p[16 * n..],
      C.enc(iv[..8] + ToBe((FromBe(iv[8..]) + n) % 0x1_0000_0000_0000_0000, 8))[..|p| - 16 * n])
  {
    CtrState(C, iv, n);
    hide Stream, XorBytes, StateAfter, FromBe, ToBe;
    StreamAt(CTR, C, iv, p, n);
  }

  // ------------------------------------------------------------------ the OFB kernel

  /** The first p bytes, whole blocks, are done and b1 is the state there. */
  ghost predicate Done(m: StreamMode, C: BlockCipher, iv: Block, src: seq<Byte>, n: nat, dst: seq<Byte>, b1: Block) {
    16 * n <= |src| && dst == Stream(m, C, iv, src[..16 * n]) && b1 == StateAfter(m, C, iv, n)
  }

  lemma OneBlock(m: StreamMode, C: BlockCipher, s: Block, b: Block)
    ensures Stream(m, C, s, b) == XorBytes(b, C.enc(s)) && StateAfter(m, C, s, 1) == Next(m, C, s)
  {
    assert b[..16] == b && b[16..] == [];
    assert StateAfter(m, C, s, 1) == StateAfter(m, C, Next(m, C, s), 0);
  }

  lemma DoneBlock(m: StreamMode, C: BlockCipher, iv: Block, src: seq<Byte>, n: nat, dst: seq<Byte>, b1: Block)
    requires Done(m, C, iv, src, n, dst, b1) && 16 * (n + 1) <= |src|
    ensures Done(m, C, iv, src, n + 1, dst + XorBytes(src[16 * n..16 * n + 16], C.enc(b1)), Next(m, C, b1))
  {
    var a, b := src[..16 * n], src[16 * n..16 * n + 16];
    assert src[..16 * (n + 1)] == a + b;
    OneBlock(m, C, b1, b);
    StreamSplit(m, C, iv, a, b, n);
    StateAfterSum(m, C, iv, n, 1);
  }

  /** What the OFB kernel writes: a partial last block leaves as it came. */
  function OfbKernelOutput(C: BlockCipher, iv: Block, p: seq<Byte>): (c: seq<Byte>)
    ensures |c| == |p|
  {
    Stream(OFB, C, iv, p[..Aligned(|p|)]) + p[Aligned(|p|)..]
  }

  /** The IV buffer receives the last state when the library is built with OFB_MULTI_UPDATE. */
  method CryptOfb(C: BlockCipher, src: seq<Byte>, iv: Block, multiUpdate: bool) returns (dst: seq<Byte>, pIv: Block)
    ensures dst == OfbKernelOutput(C, iv, src)
    ensures var n := |src| - |src| % 16; dst == Stream(OFB, C, iv, src[..n]) + src[n..]
    ensures pIv == if multiUpdate then StateAfter(OFB, C, iv, (|src| + 15) / 16) else iv
  {
    var blocks, res := |src| / 16, |src| % 16;
    var b1 := iv;
    dst := [];
    for i := 0 to blocks
      invariant Done(OFB, C, iv, src, i, dst, b1)
    {
      DoneBlock(OFB, C, iv, src, i, dst, b1);
      b1 := C.enc(b1);
      dst := dst + XorBytes(src[16 * i..16 * i + 16], b1);
    }
    if res != 0 {
      var a1 := ZeroExtend(src[16 * blocks..]);
      StateAfterSum(OFB, C, iv, blocks, 1);
      b1 := C.enc(b1);
      dst := dst + a1[..res];
    }
    assert 16 * blocks == Aligned(|src|) && (|src| + 15) / 16 == if res != 0 then blocks + 1 else blocks;
    pIv := if multiUpdate then b1 else iv;
  }

  /** With the IV written back, calls on whole blocks followed by any last call are one OFB kernel
      call on all of it. */
  lemma OfbCallsJoin(C: BlockCipher, iv: Block, a: seq<Byte>, b: seq<Byte>, n: nat)
    requires |a| == 16 * n
    ensures OfbKernelOutput(C, iv, a + b) == OfbKernelOutput(C, iv, a) + OfbKernelOutput(C, StateAfter(OFB, C, iv, n), b)
  {
    hide Stream;
    var k := Aligned(|b|);
    assert Aligned(|a + b|) == |a| + k;
    assert (a + b)[..|a| + k] == a + b[..k] && (a + b)[|a| + k..] == b[k..];
    assert a[..|a|] == a && a[|a|..] == [];
    StreamSplit(OFB, C, iv, a, b[..k], n);
  }

  /** Decryption undoes encryption for every length, also where the kernel is not OFB. */
  lemma OfbKernelInvolution(C: BlockCipher, iv: Block, p: seq<Byte>)
    ensures OfbKernelOutput(C, iv, OfbKernelOutput(C, iv, p)) == p
  {
    var n := Aligned(|p|);
    var c := OfbKernelOutput(C, iv, p);
    assert c[..n] == Stream(OFB, C, iv, p[..n]) && c[n..] == p[n..];
    StreamInvolution(OFB, C, iv, p[..n]);
  }

  /** For one IV the kernel is OFB on a message exactly when the last, partial part of the
      keystream is zero; whole blocks have no such part. */
  lemma OfbAgreesAt(C: BlockCipher, iv: Block, p: seq<Byte>)
    ensures OfbKernelOutput(C, iv, p) == Stream(OFB, C, iv, p)
            <==> C.enc(StateAfter(OFB, C, iv, |p| / 16))[..|p| % 16] == Zeros(|p| % 16)
  {
    var n := |p| / 16;
    var a, b := p[..16 * n], p[16 * n..];
    var ks := C.enc(StateAfter(OFB, C, iv, n))[..|b|];
    assert p == a + b && 16 * n == Aligned(|p|);
    StreamSplit(OFB, C, iv, a, b, n);
    assert OfbKernelOutput(C, iv, p) == Stream(OFB, C, iv, a) + b;
    assert Stream(OFB, C, iv, p) == Stream(OFB, C, iv, a) + XorBytes(b, ks);
    SameTail(Stream(OFB, C, iv, a), b, XorBytes(b, ks));
    FixedByXor(b, ks);
  }

  /** Exclusive-or with k changes nothing exactly when k is zero. */
  lemma FixedByXor(b: seq<Byte>, k: seq<Byte>)
    requires |b| == |k|
    ensures XorBytes(b, k) == b <==> k == Zeros(|k|)
  {
    XorBytesCommutes(b, k);
    if XorBytes(b, k) == b {
      XorBytesInvolution(k, b);
      assert k == XorBytes(b, b);
      XorBytesZero(b);
      XorBytesInvolution(Zeros(|b|), b);
    } else {
      XorBytesZero(b);
    }
  }

  /** The kernel is OFB for all IVs and messages of a length exactly when it is whole blocks. */
  lemma OfbAgreesIffWholeBlocks(C: BlockCipher, n: nat)
    requires Permutation(C)
    ensures (forall iv: Block, p: seq<Byte> :: |p| == n ==> OfbKernelOutput(C, iv, p) == Stream(OFB, C, iv, p))
            <==> n % 16 == 0
  {
    forall iv: Block, p: seq<Byte> | |p| == n && n % 16 == 0
      ensures OfbKernelOutput(C, iv, p) == Stream(OFB, C, iv, p)
    {
      OfbAgreesAt(C, iv, p);
    }
    if n % 16 != 0 {
      var ones: Block := seq(16, _ => 1);
      var iv := OfbReaches(C, ones, n / 16 + 1);
      OfbAgreesAt(C, iv, Zeros(n));
      StateAfterSum(OFB, C, iv, n / 16, 1);
      assert C.enc(StateAfter(OFB, C, iv, n / 16)) == ones;
      assert ones[..n % 16][0] == 1 && Zeros(n % 16)[0] == 0;
    }
  }

  /** Every block is the OFB state of some IV after n blocks. */
  lemma {:induction false} OfbReaches(C: BlockCipher, target: Block, n: nat) returns (iv: Block)
    requires Permutation(C)
    ensures StateAfter(OFB, C, iv, n) == target
    decreases n
  {
    if n == 0 {
      iv := target;
    } else {
      var mid := OfbReaches(C, target, n - 1);
      iv := C.dec(mid);
      assert C.enc(iv) == mid;
    }
  }

  // ------------------------------------------------------------------ the CTR kernel

  lemma CounterBound(s: Block)
    ensures FromBe(s[8..]) < TWO64 == Pow256(8)
  {
    assert Pow256(4) == 0x1_0000_0000;
    assert Pow256(8) == 256 * 256 * 256 * 256 * Pow256(4);
  }

  lemma CounterValue(s: Block, k: nat)
    ensures FromBe(AddCounter(s, k)[8..]) == (FromBe(s[8..]) + k) % TWO64
    ensures AddCounter(s, k)[..8] == s[..8]
  {
    CounterBound(s);
    FromToBe((FromBe(s[8..]) + k) % TWO64, 8);
    assert AddCounter(s, k)[8..] == ToBe((FromBe(s[8..]) + k) % TWO64, 8);
  }

  lemma AddCounterSum(s: Block, a: nat, b: nat)
    ensures AddCounter(AddCounter(s, a), b) == AddCounter(s, a + b)
  {
    hide FromBe, ToBe;
    CounterValue(s, a);
    ModAdd(FromBe(s[8..]) + a, b);
  }

  lemma ModAdd(v: nat, b: nat)
    ensures (v % TWO64 + b) % TWO64 == (v + b) % TWO64
  {
  }

  lemma AddCounterZero(s: Block)
    ensures AddCounter(s, 0) == s
  {
    CounterBound(s);
    var v := FromBe(s[8..]);
    assert (v + 0) % TWO64 == v;
    ToFromBe(s[8..]);
    assert s[..8] + s[8..] == s;
  }

  lemma {:induction false} CtrState(C: BlockCipher, s: Block, n: nat)
    ensures StateAfter(CTR, C, s, n) == AddCounter(s, n)
    decreases n
  {
    if n == 0 {
      AddCounterZero(s);
    } else {
      CtrState(C, AddCounter(s, 1), n - 1);
      AddCounterSum(s, 1, n - 1);
    }
  }

  /** No counter block repeats within 2^64 blocks (NIST SP 800-38A, appendix B.2). */
  lemma CounterBlocksDistinct(C: BlockCipher, s: Block, i: nat, j: nat)
    requires i < j < i + TWO64
    ensures StateAfter(CTR, C, s, i) != StateAfter(CTR, C, s, j)
  {
    CtrState(C, s, i);
    CtrState(C, s, j);
    CounterValue(s, i);
    CounterValue(s, j);
    ModDiffers(FromBe(s[8..]) + i, FromBe(s[8..]) + j);
  }

  lemma ModDiffers(a: nat, b: nat)
    requires a < b < a + TWO64
    ensures a % TWO64 != b % TWO64
  {
    assert a == a / TWO64 * TWO64 + a % TWO64 && b == b / TWO64 * TWO64 + b % TWO64;
  }

  /** Groups of g blocks: all g counters are derived from c1, which then moves on by g. */
  method CtrGroups(C: BlockCipher, src: seq<Byte>, ghost iv: Block, dst0: seq<Byte>, c0: Block, n0: nat, g: nat)
    returns (dst: seq<Byte>, c1: Block, n: nat)
    requires g > 0 && Done(CTR, C, iv, src, n0, dst0, c0)
    ensures Done(CTR, C, iv, src, n, dst, c1) && |src| / 16 - n < g
  {
    hide StateAfter, Stream, XorBytes;
    dst, c1, n := dst0, c0, n0;
    while |src| / 16 - n >= g
      invariant Done(CTR, C, iv, src, n, dst, c1)
      decreases |src| / 16 - n
    {
      ghost var d1, n1 := dst, n;
      AddCounterZero(c1);
      for j := 0 to g
        invariant Done(CTR, C, iv, src, n1 + j, dst, AddCounter(c1, j))
      {
        DoneBlock(CTR, C, iv, src, n1 + j, dst, AddCounter(c1, j));
        AddCounterSum(c1, j, 1);
        dst := dst + XorBytes(src[16 * (n + j)..16 * (n + j) + 16], C.enc(AddCounter(c1, j)));
      }
      c1, n := AddCounter(c1, g), n + g;
    }
  }

  /** The CTR kernel; a register holds `factor` blocks: one, two or four. */
  method CtrBlk(C: BlockCipher, src: seq<Byte>, iv: Block, factor: nat, multiUpdate: bool)
    returns (dst: seq<Byte>, pIv: Block)
    requires factor in {1, 2, 4}
    ensures dst == Stream(CTR, C, iv, src)
    ensures pIv == if multiUpdate then AddCounter(iv, (|src| + 15) / 16) else iv
  {
    var c1: Block, n: nat := iv, 0;
    dst := [];
    dst, c1, n := CtrGroups(C, src, iv, dst, c1, n, 4 * factor);
    dst, c1, n := CtrGroups(C, src, iv, dst, c1, n, 2 * factor);
    dst, c1, n := CtrGroups(C, src, iv, dst, c1, n, factor);
    dst, c1, n := CtrGroups(C, src, iv, dst, c1, n, 1);
    dst, c1 := CtrTail(C, src, iv, dst, c1, n);
    assert (if 16 * n < |src| then n + 1 else n) == (|src| + 15) / 16;
    pIv := if multiUpdate then c1 else iv;
  }

  /** The partial last block, if there is one. */
  method CtrTail(C: BlockCipher, src: seq<Byte>, ghost iv: Block, dst0: seq<Byte>, c0: Block, n: nat)
    returns (dst: seq<Byte>, c1: Block)
    requires Done(CTR, C, iv, src, n, dst0, c0) && |src| - 16 * n < 16
    ensures dst == Stream(CTR, C, iv, src) && c1 == AddCounter(iv, if 16 * n < |src| then n + 1 else n)
  {
    dst, c1 := dst0, c0;
    TailOf(C, iv, src, n, dst, c1);
    CounterAt(C, iv, src, n, dst, c1);
    var tail := src[16 * n..];
    if tail != [] {
      var a1 := XorBytes(C.enc(c1), ZeroExtend(tail));
      XorTail(C.enc(c1), tail);
      c1 := AddCounter(c1, 1);
      dst := dst + a1[..|tail|];
    }
  }

  lemma TailOf(C: BlockCipher, iv: Block, src: seq<Byte>, n: nat, dst: seq<Byte>, c: Block)
    requires Done(CTR, C, iv, src, n, dst, c) && |src| - 16 * n < 16
    ensures Stream(CTR, C, iv, src) == dst + XorBytes(src[16 * n..], C.enc(c)[..|src| - 16 * n])
    ensures |src| == 16 * n ==> Stream(CTR, C, iv, src) == dst
  {
    assert src == src[..16 * n] + src[16 * n..];
    StreamSplit(CTR, C, iv, src[..16 * n], src[16 * n..], n);
  }

  lemma CounterAt(C: BlockCipher, iv: Block, src: seq<Byte>, n: nat, dst: seq<Byte>, c: Block)
    requires Done(CTR, C, iv, src, n, dst, c)
    ensures c == AddCounter(iv, n) && AddCounter(c, 1) == AddCounter(iv, n + 1)
  {
    CtrState(C, iv, n);
    AddCounterSum(iv, n, 1);
  }

  lemma XorTail(k: Block, t: seq<Byte>)
    requires |t| < 16
    ensures XorBytes(k, ZeroExtend(t))[..|t|] == XorBytes(t, k[..|t|])
  {
    XorBytesCommutes(k, ZeroExtend(t));
  }
}
