/**
 The block-cipher modes as NIST SP 800-38A defines them, over any permutation of 16-byte
 blocks. They are the reference that the kernels, the multi-buffer scheduler, the streaming
 cipher and the file tool are proved against.
 */
module BlockModes {
  import opened Bytes

  /** A keyed block cipher: its forward and inverse directions. */
  datatype BlockCipher = BlockCipher(enc: Block -> Block, dec: Block -> Block)

  ghost predicate Permutation(C: BlockCipher) {
    && (forall b: Block :: C.dec(C.enc(b)) == b)
    && (forall b: Block :: C.enc(C.dec(b)) == b)
  }

  /** The two chaining modes that support multi-buffer encryption. */
  datatype ChainMode = CBC | CFB

  /** One ciphertext block; it is also the next chaining value in both modes. */
  function CipherBlock(m: ChainMode, C: BlockCipher, chain: Block, p: Block): Block {
    match m
    case CBC => C.enc(XorBytes(p, chain))
    case CFB => XorBytes(p, C.enc(chain))
  }

  function PlainBlock(m: ChainMode, C: BlockCipher, chain: Block, c: Block): Block {
    match m
    case CBC => XorBytes(C.dec(c), chain)
    case CFB => XorBytes(c, C.enc(chain))
  }

  /** Encryption of a message of any length; a partial last block is zero-extended,
      encrypted, and cut back to its own length. */
  function Encrypt(m: ChainMode, C: BlockCipher, iv: Block, p: seq<Byte>): (c: seq<Byte>)
    ensures |c| == |p|
    decreases |p|
  {
    if p == [] then []
    else if |p| < 16 then CipherBlock(m, C, iv, ZeroExtend(p))[..|p|]
    else
      var c := CipherBlock(m, C, iv, p[..16]);
      c + Encrypt(m, C, c, p[16..])
  }

  /** The chaining value that encrypting p leaves behind. */
  function Chain(m: ChainMode, C: BlockCipher, iv: Block, p: seq<Byte>): Block
    decreases |p|
  {
    if p == [] then iv
    else if |p| < 16 then CipherBlock(m, C, iv, ZeroExtend(p))
    else Chain(m, C, CipherBlock(m, C, iv, p[..16]), p[16..])
  }

  /** Decryption. CBC has no partial blocks: only whole blocks are written. */
  function Decrypt(m: ChainMode, C: BlockCipher, iv: Block, c: seq<Byte>): (p: seq<Byte>)
    ensures |p| == if m == CBC then Aligned(|c|) else |c|
    decreases |c|
  {
    if c == [] then []
    else if |c| < 16 then
      if m == CBC then [] else PlainBlock(m, C, iv, ZeroExtend(c))[..|c|]
    else
      PlainBlock(m, C, iv, c[..16]) + Decrypt(m, C, c[..16], c[16..])
  }

  /** The last whole ciphertext block, or the IV when there is none. */
  function LastBlock(iv: Block, c: seq<Byte>): Block
    decreases |c|
  {
    if |c| < 16 then iv else LastBlock(c[..16], c[16..])
  }

  // ------------------------------------------------------------------ cutting a message

  /** A message may be cut after any whole number of blocks, the chaining value carried over. */
  lemma {:induction false} EncryptSplit(m: ChainMode, C: BlockCipher, iv: Block, a: seq<Byte>, b: seq<Byte>)
    requires |a| % 16 == 0
    ensures Encrypt(m, C, iv, a + b) == Encrypt(m, C, iv, a) + Encrypt(m, C, Chain(m, C, iv, a), b)
    ensures Chain(m, C, iv, a + b) == Chain(m, C, Chain(m, C, iv, a), b)
    decreases |a|
  {
    hide CipherBlock;
    if a == [] {
      assert a + b == b;
    } else {
      var c := CipherBlock(m, C, iv, a[..16]);
      assert (a + b)[..16] == a[..16] && (a + b)[16..] == a[16..] + b;
      EncryptSplit(m, C, c, a[16..], b);
    }
  }

  lemma {:induction false} DecryptSplit(m: ChainMode, C: BlockCipher, iv: Block, a: seq<Byte>, b: seq<Byte>)
    requires |a| % 16 == 0
    ensures Decrypt(m, C, iv, a + b) == Decrypt(m, C, iv, a) + Decrypt(m, C, LastBlock(iv, a), b)
    ensures LastBlock(iv, a + b) == LastBlock(LastBlock(iv, a), b)
    decreases |a|
  {
    if a == [] {
      assert a + b == b;
    } else {
      assert (a + b)[..16] == a[..16] && (a + b)[16..] == a[16..] + b;
      DecryptSplit(m, C, a[..16], a[16..], b);
    }
  }

  /** After whole blocks the chaining value is the last ciphertext block. */
  lemma {:induction false} ChainIsLastBlock(m: ChainMode, C: BlockCipher, iv: Block, p: seq<Byte>)
    requires |p| % 16 == 0
    ensures Chain(m, C, iv, p) == LastBlock(iv, Encrypt(m, C, iv, p))
    decreases |p|
  {
    if p != [] {
      var c := CipherBlock(m, C, iv, p[..16]);
      var e := Encrypt(m, C, iv, p);
      assert e[..16] == c && e[16..] == Encrypt(m, C, c, p[16..]);
      ChainIsLastBlock(m, C, c, p[16..]);
    }
  }

  // ------------------------------------------------------------------ the modes block by block

  lemma {:induction false} EncryptAt(m: ChainMode, C: BlockCipher, iv: Block, p: seq<Byte>, i: nat)
    requires 16 * (i + 1) <= |p|
    ensures var c := Encrypt(m, C, iv, p);
      c[16 * i..16 * i + 16] == CipherBlock(m, C, if i == 0 then iv else c[16 * i - 16..16 * i], p[16 * i..16 * i + 16])
    decreases i
  {
    hide CipherBlock;
    var c0, rest := CipherBlock(m, C, iv, p[..16]), p[16..];
    var c, d := Encrypt(m, C, iv, p), Encrypt(m, C, c0, rest);
    assert c[..16] == c0 && c[16..] == d;
    if i > 0 {
      EncryptAt(m, C, c0, rest, i - 1);
      Later(c, i);
      Later(p, i);
      if i > 1 {
        Later(c, i - 1);
      }
    }
  }

  /** Block i of a message is block i - 1 of what follows its first block. */
  lemma Later(s: seq<Byte>, i: nat)
    requires 0 < i && 16 * i <= |s|
    ensures 16 * (i + 1) <= |s| ==> s[16 * i..16 * i + 16] == s[16..][16 * (i - 1)..16 * (i - 1) + 16]
    ensures s[16 * i..] == s[16..][16 * (i - 1)..]
  {
    var rest, j := s[16..], 16 * (i - 1);
    if 16 * (i + 1) <= |s| {
      assert rest[j..j + 16] == s[16 + j..32 + j];
    }
  }

  lemma {:induction false} EncryptEnd(m: ChainMode, C: BlockCipher, iv: Block, p: seq<Byte>, n: nat)
    requires 16 * n < |p| < 16 * n + 16
    ensures var c := Encrypt(m, C, iv, p);
      var last := CipherBlock(m, C, if n == 0 then iv else c[16 * n - 16..16 * n], ZeroExtend(p[16 * n..]));
      c[16 * n..] == last[..|p| - 16 * n] && Chain(m, C, iv, p) == last
    decreases n
  {
    hide CipherBlock;
    if n > 0 {
      var c0, rest := CipherBlock(m, C, iv, p[..16]), p[16..];
      var c := Encrypt(m, C, iv, p);
      assert c[..16] == c0 && c[16..] == Encrypt(m, C, c0, rest);
      EncryptEnd(m, C, c0, rest, n - 1);
      Later(c, n);
      Later(p, n);
      if n > 1 {
        Later(c, n - 1);
      }
    }
  }

  lemma {:induction false} DecryptAt(m: ChainMode, C: BlockCipher, iv: Block, c: seq<Byte>, i: nat)
    requires 16 * (i + 1) <= |c|
    ensures |Decrypt(m, C, iv, c)| >= 16 * (i + 1)
    ensures Decrypt(m, C, iv, c)[16 * i..16 * i + 16]
         == PlainBlock(m, C, if i == 0 then iv else c[16 * i - 16..16 * i], c[16 * i..16 * i + 16])
    decreases i
  {
    hide PlainBlock;
    var p, rest := Decrypt(m, C, iv, c), Decrypt(m, C, c[..16], c[16..]);
    assert p[..16] == PlainBlock(m, C, iv, c[..16]) && p[16..] == rest;
    if i > 0 {
      DecryptAt(m, C, c[..16], c[16..], i - 1);
      Later(p, i);
      Later(c, i);
      if i > 1 {
        Later(c, i - 1);
      }
    }
  }

  /** The chaining value that decryption leaves: the last whole ciphertext block. */
  lemma {:induction false} LastBlockIs(iv: Block, c: seq<Byte>, n: nat)
    requires 16 * n <= |c| < 16 * n + 16
    ensures LastBlock(iv, c) == if n == 0 then iv else c[16 * n - 16..16 * n]
    decreases n
  {
    if n > 0 {
      LastBlockIs(c[..16], c[16..], n - 1);
      if n > 1 {
        Later(c, n - 1);
      }
    }
  }

  /** CBC (NIST SP 800-38A, section 6.2): each plaintext block is added to the ciphertext block
      before it, the first one to the IV, and the sum is encrypted. */
  lemma CbcBlocks(C: BlockCipher, iv: Block, p: seq<Byte>, i: nat)
    requires 16 * (i + 1) <= |p|
    ensures var c := Encrypt(CBC, C, iv, p);
      c[16 * i..16 * i + 16] == C.enc(XorBytes(p[16 * i..16 * i + 16], if i == 0 then iv else c[16 * i - 16..16 * i]))
  {
    EncryptAt(CBC, C, iv, p, i);
  }

  /** A partial last block is completed with zero bytes and its ciphertext cut short. */
  lemma CbcTail(C: BlockCipher, iv: Block, p: seq<Byte>, n: nat)
    requires 16 * n < |p| < 16 * n + 16
    ensures var c := Encrypt(CBC, C, iv, p);
      var last := C.enc(XorBytes(p[16 * n..] + Zeros(16 * n + 16 - |p|), if n == 0 then iv else c[16 * n - 16..16 * n]));
      c[16 * n..] == last[..|p| - 16 * n] && Chain(CBC, C, iv, p) == last
  {
    EncryptEnd(CBC, C, iv, p, n);
  }

  lemma CbcPlainBlocks(C: BlockCipher, iv: Block, c: seq<Byte>, i: nat)
    requires 16 * (i + 1) <= |c|
    ensures |Decrypt(CBC, C, iv, c)| == |c| / 16 * 16
    ensures Decrypt(CBC, C, iv, c)[16 * i..16 * i + 16]
         == XorBytes(C.dec(c[16 * i..16 * i + 16]), if i == 0 then iv else c[16 * i - 16..16 * i])
  {
    DecryptAt(CBC, C, iv, c, i);
  }

  /** CFB (section 6.3): the ciphertext block before, or the IV, is encrypted and added. */
  lemma CfbBlocks(C: BlockCipher, iv: Block, p: seq<Byte>, i: nat)
    requires 16 * (i + 1) <= |p|
    ensures var c := Encrypt(CFB, C, iv, p);
      c[16 * i..16 * i + 16] == XorBytes(p[16 * i..16 * i + 16], C.enc(if i == 0 then iv else c[16 * i - 16..16 * i]))
  {
    EncryptAt(CFB, C, iv, p, i);
  }

  lemma CfbTail(C: BlockCipher, iv: Block, p: seq<Byte>, n: nat)
    requires 16 * n < |p| < 16 * n + 16
    ensures var c := Encrypt(CFB, C, iv, p);
      c[16 * n..] == XorBytes(p[16 * n..], C.enc(if n == 0 then iv else c[16 * n - 16..16 * n])[..|p| - 16 * n])
  {
    EncryptEnd(CFB, C, iv, p, n);
  }

  lemma CfbPlainBlocks(C: BlockCipher, iv: Block, c: seq<Byte>, i: nat)
    requires 16 * (i + 1) <= |c|
    ensures |Decrypt(CFB, C, iv, c)| == |c|
    ensures Decrypt(CFB, C, iv, c)[16 * i..16 * i + 16]
         == XorBytes(c[16 * i..16 * i + 16], C.enc(if i == 0 then iv else c[16 * i - 16..16 * i]))
  {
    DecryptAt(CFB, C, iv, c, i);
  }

  lemma CfbPlainShort(C: BlockCipher, iv: Block, c: seq<Byte>)
    requires 0 < |c| < 16
    ensures Decrypt(CFB, C, iv, c) == XorBytes(c, C.enc(iv)[..|c|])
  {
  }

  lemma DecryptRest(m: ChainMode, C: BlockCipher, iv: Block, c: seq<Byte>)
    requires |c| >= 16
    ensures |Decrypt(m, C, iv, c)| >= 16 && Decrypt(m, C, iv, c)[16..] == Decrypt(m, C, c[..16], c[16..])
  {
    hide XorBytes;
  }

  lemma {:induction false} CfbPlainTail(C: BlockCipher, iv: Block, c: seq<Byte>, n: nat)
    requires 16 * n < |c| < 16 * n + 16
    ensures Decrypt(CFB, C, iv, c)[16 * n..]
         == XorBytes(c[16 * n..], C.enc(if n == 0 then iv else c[16 * n - 16..16 * n])[..|c| - 16 * n])
    decreases n
  {
    hide XorBytes, Decrypt;
    if n == 0 {
      CfbPlainShort(C, iv, c);
      assert c[0..] == c && Decrypt(CFB, C, iv, c)[0..] == Decrypt(CFB, C, iv, c);
    } else {
      DecryptRest(CFB, C, iv, c);
      CfbPlainTail(C, c[..16], c[16..], n - 1);
      Later(Decrypt(CFB, C, iv, c), n);
      Later(c, n);
      if n > 1 {
        Later(c, n - 1);
      }
    }
  }

  // ------------------------------------------------------------------ decryption inverts

  lemma BlockRoundTrip(m: ChainMode, C: BlockCipher, chain: Block, p: Block)
    requires Permutation(C)
    ensures PlainBlock(m, C, chain, CipherBlock(m, C, chain, p)) == p
  {
    match m
    case CBC =>
      assert C.dec(C.enc(XorBytes(p, chain))) == XorBytes(p, chain);
      XorBytesInvolution(p, chain);
    case CFB => XorBytesInvolution(p, C.enc(chain));
  }

  lemma {:induction false} DecryptInvertsEncrypt(m: ChainMode, C: BlockCipher, iv: Block, p: seq<Byte>)
    requires Permutation(C)
    requires m == CFB || |p| % 16 == 0
    ensures Decrypt(m, C, iv, Encrypt(m, C, iv, p)) == p
    decreases |p|
  {
    if p == [] {
    } else if |p| < 16 {
      PartialRoundTrip(C, iv, p);
    } else {
      var c := CipherBlock(m, C, iv, p[..16]);
      var e := Encrypt(m, C, iv, p);
      assert e[..16] == c && e[16..] == Encrypt(m, C, c, p[16..]);
      BlockRoundTrip(m, C, iv, p[..16]);
      DecryptInvertsEncrypt(m, C, c, p[16..]);
      assert p[..16] + p[16..] == p;
    }
  }

  lemma PartialRoundTrip(C: BlockCipher, iv: Block, p: seq<Byte>)
    requires 0 < |p| < 16
    ensures Decrypt(CFB, C, iv, Encrypt(CFB, C, iv, p)) == p
  {
    var k := C.enc(iv);
    var e := Encrypt(CFB, C, iv, p);
    assert e == XorBytes(p, k[..|p|]);
    assert Decrypt(CFB, C, iv, e) == XorBytes(e, k[..|p|]);
    XorBytesInvolution(p, k[..|p|]);
  }

  // ------------------------------------------------------------------ dependence on the chain

  /** Every block is the chaining value of some message of any given whole number of blocks. */
  lemma {:induction false} ChainReachesEveryBlock(m: ChainMode, C: BlockCipher, iv: Block, target: Block, n: nat)
    returns (p: seq<Byte>)
    requires Permutation(C)
    requires n >= 16 && n % 16 == 0
    ensures |p| == n && Chain(m, C, iv, p) == target
    decreases n
  {
    if n == 16 {
      p := PlainBlock(m, C, iv, target);
      assert p[..16] == p;
      assert Chain(m, C, iv, p) == Chain(m, C, CipherBlock(m, C, iv, p), []);
      CipherOfPlain(m, C, iv, target);
    } else {
      var first: Block := Zeros(16);
      var c := CipherBlock(m, C, iv, first);
      var rest := ChainReachesEveryBlock(m, C, c, target, n - 16);
      p := first + rest;
      assert p[..16] == first && p[16..] == rest;
    }
  }

  lemma CipherOfPlain(m: ChainMode, C: BlockCipher, chain: Block, c: Block)
    requires Permutation(C)
    ensures CipherBlock(m, C, chain, PlainBlock(m, C, chain, c)) == c
  {
    match m
    case CBC =>
      XorBytesInvolution(C.dec(c), chain);
      assert C.enc(C.dec(c)) == c;
    case CFB => XorBytesInvolution(c, C.enc(chain));
  }

  /** The first ciphertext byte of a message starting with a zero block. */
  lemma FirstByte(m: ChainMode, C: BlockCipher, iv: Block, n: nat)
    requires n > 0
    ensures Encrypt(m, C, iv, Zeros(n))[0] == CipherBlock(m, C, iv, Zeros(16))[0]
  {
    if n < 16 {
      assert ZeroExtend(Zeros(n)) == Zeros(16);
    } else {
      assert Zeros(n)[..16] == Zeros(16);
    }
  }

  lemma ZeroBlock(m: ChainMode, C: BlockCipher, chain: Block)
    ensures CipherBlock(m, C, chain, Zeros(16)) == C.enc(chain)
  {
    XorBytesZero(chain);
    XorBytesZero(C.enc(chain));
  }

  /** For every chaining value another one exists whose ciphertext differs in its first byte. */
  lemma ChainMatters(m: ChainMode, C: BlockCipher, iv: Block) returns (other: Block)
    requires Permutation(C)
    ensures CipherBlock(m, C, other, Zeros(16))[0] != CipherBlock(m, C, iv, Zeros(16))[0]
  {
    var z := C.enc(iv);
    var first: Byte := if z[0] == 0 then 1 else 0;
    var w: Block := z[0 := first];
    other := C.dec(w);
    assert C.enc(other) == w;
    ZeroBlock(m, C, iv);
    ZeroBlock(m, C, other);
  }

  /** The cipher that exchanges two blocks. */
  function Exchange(u: Block, v: Block): BlockCipher {
    BlockCipher(b => if b == u then v else if b == v then u else b,
                b => if b == u then v else if b == v then u else b)
  }

  lemma ExchangePermutes(u: Block, v: Block)
    ensures Permutation(Exchange(u, v))
  {
  }
}
