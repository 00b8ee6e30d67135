/**
 ChaCha20 (section 2.4 of RFC 8439) as lib/cipher/chacha20.cc and its three kernels run it: key
 and IV over runs of calls, the split into blocks, and the counter that the vector kernels write
 back into the IV. The block function is any function of key, counter and nonce.
 */
module ChaCha20 {
  import opened Bytes
  import opened Octets
  import opened Errors

  type Stream64 = b: seq<Byte> | |b| == 64 witness seq(64, _ => 0)

  /** Key, block counter below 2^32, nonce. */
  type BlockFunction = (seq<Byte>, nat, seq<Byte>) -> Stream64

  /** The keystream of block counter c; the counter is a 32-bit word. */
  function KeyBlock(F: BlockFunction, key: seq<Byte>, nonce: seq<Byte>, c: nat): Stream64 {
    F(key, c % TWO32, nonce)
  }

  /** Encryption and decryption of a message whose first block has counter c. */
  function Crypt(F: BlockFunction, key: seq<Byte>, nonce: seq<Byte>, c: nat, p: seq<Byte>): (out: seq<Byte>)
    ensures |out| == |p|
    decreases |p|
  {
    if |p| < 64 then XorBytes(p, KeyBlock(F, key, nonce, c)[..|p|])
    else XorBytes(p[..64], KeyBlock(F, key, nonce, c)) + Crypt(F, key, nonce, c + 1, p[64..])
  }

  lemma {:induction false} CryptInvolution(F: BlockFunction, key: seq<Byte>, nonce: seq<Byte>, c: nat, p: seq<Byte>)
    ensures Crypt(F, key, nonce, c, Crypt(F, key, nonce, c, p)) == p
    decreases |p|
  {
    var k := KeyBlock(F, key, nonce, c);
    if |p| < 64 {
      XorBytesInvolution(p, k[..|p|]);
    } else {
      var first, rest := XorBytes(p[..64], k), Crypt(F, key, nonce, c + 1, p[64..]);
      assert (first + rest)[..64] == first && (first + rest)[64..] == rest;
      XorBytesInvolution(p[..64], k);
      CryptInvolution(F, key, nonce, c + 1, p[64..]);
      assert p[..64] + p[64..] == p;
    }
  }

  /** Encrypting a prefix gives the prefix of the ciphertext, wherever it ends. */
  lemma {:induction false} CryptPrefix(F: BlockFunction, key: seq<Byte>, nonce: seq<Byte>, c: nat, p: seq<Byte>, n: nat)
    requires n <= |p|
    ensures Crypt(F, key, nonce, c, p[..n]) == Crypt(F, key, nonce, c, p)[..n]
    decreases |p|
  {
    var k := KeyBlock(F, key, nonce, c);
    if |p| >= 64 {
      var first, rest := XorBytes(p[..64], k), Crypt(F, key, nonce, c + 1, p[64..]);
      if n < 64 {
        assert p[..n] == p[..64][..n] && (first + rest)[..n] == first[..n];
      } else {
        CryptPrefix(F, key, nonce, c + 1, p[64..], n - 64);
        assert p[..n][..64] == p[..64] && p[..n][64..] == p[64..][..n - 64];
        assert (first + rest)[..n] == first + rest[..n - 64];
      }
    }
  }

  lemma {:induction false} CryptSplit(F: BlockFunction, key: seq<Byte>, nonce: seq<Byte>, c: nat,
                                      a: seq<Byte>, b: seq<Byte>, n: nat)
    requires |a| == 64 * n
    ensures Crypt(F, key, nonce, c, a + b) == Crypt(F, key, nonce, c, a) + Crypt(F, key, nonce, c + n, b)
    decreases n
  {
    if n == 0 {
      assert a + b == b;
    } else {
      assert (a + b)[..64] == a[..64] && (a + b)[64..] == a[64..] + b;
      CryptSplit(F, key, nonce, c + 1, a[64..], b, n - 1);
      Joined(XorBytes(a[..64], KeyBlock(F, key, nonce, c)), Crypt(F, key, nonce, c + 1, a[64..]),
             Crypt(F, key, nonce, c + n, b), Crypt(F, key, nonce, c + 1, a[64..] + b));
    }
  }

  lemma {:induction false} CryptAt(F: BlockFunction, key: seq<Byte>, nonce: seq<Byte>, c: nat, p: seq<Byte>, i: nat)
    requires 64 * i <= |p|
    ensures 64 * (i + 1) <= |p| ==>
      Crypt(F, key, nonce, c, p)[64 * i..64 * i + 64] == XorBytes(p[64 * i..64 * i + 64], KeyBlock(F, key, nonce, c + i))
    ensures |p| < 64 * (i + 1) ==>
      Crypt(F, key, nonce, c, p)[64 * i..] == XorBytes(p[64 * i..], KeyBlock(F, key, nonce, c + i)[..|p| - 64 * i])
    decreases i
  {
    hide XorBytes, KeyBlock;
    var out := Crypt(F, key, nonce, c, p);
    if i == 0 {
      assert p[0..] == p && out[0..] == out;
    } else {
      assert out[64..] == Crypt(F, key, nonce, c + 1, p[64..]);
      CryptAt(F, key, nonce, c + 1, p[64..], i - 1);
      Later64(out, i);
      Later64(p, i);
    }
  }

  lemma Later64(s: seq<Byte>, i: nat)
    requires 0 < i && 64 * i <= |s|
    ensures 64 * (i + 1) <= |s| ==> s[64 * i..64 * i + 64] == s[64..][64 * (i - 1)..64 * (i - 1) + 64]
    ensures s[64 * i..] == s[64..][64 * (i - 1)..]
  {
    var rest, j := s[64..], 64 * (i - 1);
    if 64 * (i + 1) <= |s| {
      assert rest[j..j + 64] == s[64 + j..128 + j];
    }
  }

  /** Only the counter modulo 2^32 matters. */
  lemma {:induction false} CryptWraps(F: BlockFunction, key: seq<Byte>, nonce: seq<Byte>, c: nat, d: nat, p: seq<Byte>)
    requires c % TWO32 == d % TWO32
    ensures Crypt(F, key, nonce, c, p) == Crypt(F, key, nonce, d, p)
    decreases |p|
  {
    if |p| >= 64 {
      SameWord(c, d);
      CryptWraps(F, key, nonce, c + 1, d + 1, p[64..]);
    }
  }

  lemma SameWord(c: nat, d: nat)
    requires c % TWO32 == d % TWO32
    ensures (c + 1) % TWO32 == (d + 1) % TWO32
  {
  }

  // ------------------------------------------------------------------ the IV buffer

  type Iv = b: seq<Byte> | |b| == 16 witness seq(16, _ => 0)

  /** The counter is the first word of the buffer, little-endian; the nonce is the rest. */
  function Counter(iv: Iv): nat {
    FromLe(iv[..4])
  }

  function Nonce(iv: Iv): seq<Byte> {
    iv[4..]
  }

  function Advance(iv: Iv, n: nat): Iv {
    ToLe((Counter(iv) + n) % TWO32, 4) + iv[4..]
  }

  lemma AdvanceIs(iv: Iv, n: nat)
    ensures Counter(Advance(iv, n)) == (Counter(iv) + n) % TWO32 && Nonce(Advance(iv, n)) == Nonce(iv)
  {
    var w := (Counter(iv) + n) % TWO32;
    assert Pow256(4) == TWO32;
    FromToLe(w, 4);
    assert Advance(iv, n)[..4] == ToLe(w, 4) && Advance(iv, n)[4..] == iv[4..];
  }

  lemma AdvanceByNone(iv: Iv)
    ensures Advance(iv, 0) == iv
  {
    hide ToLe, FromLe;
    assert Pow256(4) == TWO32;
    ToFromLe(iv[..4]);
    assert iv[..4] + iv[4..] == iv;
  }

  /**
   ChaCha20 under an IV buffer (section 2.4 of RFC 8439): block i of the message is added to the
   block function of the key, the first four bytes of the buffer read little-endian with i added,
   modulo 2^32, and the other twelve bytes. The last block is cut short.
   */
  lemma CryptBlocks(F: BlockFunction, key: seq<Byte>, iv: Iv, p: seq<Byte>, i: nat)
    requires 64 * i <= |p|
    ensures var k := F(key, (iv[0] as int + 256 * (iv[1] as int + 256 * (iv[2] as int + 256 * iv[3] as int)) + i)
                            % 0x1_0000_0000, iv[4..]);
      var out := Crypt(F, key, Nonce(iv), Counter(iv), p);
      && (64 * (i + 1) <= |p| ==> out[64 * i..64 * i + 64] == XorBytes(p[64 * i..64 * i + 64], k))
      && (|p| < 64 * (i + 1) ==> out[64 * i..] == XorBytes(p[64 * i..], k[..|p| - 64 * i]))
  {
    hide Crypt, XorBytes, FromLe;
    LeWord(iv[..4]);
    CryptAt(F, key, Nonce(iv), Counter(iv), p, i);
  }

  /** The three kernels: one block at a time, groups of 8 then 2, groups of 16 then 4. */
  datatype Arch = Reference | Avx2 | Zen4

  function Wide(a: Arch): nat {
    match a
    case Reference => 0
    case Avx2 => 8
    case Zen4 => 16
  }

  /** How far a call on len bytes moves the counter in the IV buffer: by the blocks that went
      through the wide groups. */
  function Moved(a: Arch, len: nat): nat {
    if a == Reference then 0 else len / 64 / Wide(a) * Wide(a)
  }

  /** The wide groups are 512 bytes with AVX2 and 1024 bytes on Zen 4. */
  lemma MovedIs(a: Arch, len: nat)
    ensures Moved(a, len) == if a == Reference then 0 else if a == Avx2 then 8 * (len / 512) else 16 * (len / 1024)
  {
    match a
    case Reference =>
    case Avx2 => Eighths(len / 64, len);
    case Zen4 => Sixteenths(len / 64, len);
  }

  lemma Eighths(blocks: nat, len: nat)
    requires blocks == len / 64
    ensures blocks / 8 * 8 == 8 * (len / 512)
  {
  }

  lemma Sixteenths(blocks: nat, len: nat)
    requires blocks == len / 64
    ensures blocks / 16 * 16 == 16 * (len / 1024)
  {
  }

  lemma MovedBy(a: Arch, iv: Iv, len: nat)
    ensures Moved(a, 0) == 0
    ensures var moved: nat := if a == Reference then 0 else if a == Avx2 then 8 * (len / 512) else 16 * (len / 1024);
      var next := Advance(iv, Moved(a, len));
      next[4..] == iv[4..] && FromLe(next[..4]) == (FromLe(iv[..4]) + moved) % 0x1_0000_0000
  {
    MovedIs(a, len);
    MovedIs(a, 0);
    hide Moved, FromLe, ToLe, Advance;
    AdvanceIs(iv, Moved(a, len));
  }

  /** The first n blocks of src are done. */
  ghost predicate Done(F: BlockFunction, key: seq<Byte>, nonce: seq<Byte>, c: nat, src: seq<Byte>, n: nat, dst: seq<Byte>) {
    64 * n <= |src| && dst == Crypt(F, key, nonce, c, src[..64 * n])
  }

  lemma DoneBlock(F: BlockFunction, key: seq<Byte>, nonce: seq<Byte>, c: nat, src: seq<Byte>, n: nat, dst: seq<Byte>)
    requires Done(F, key, nonce, c, src, n, dst) && 64 * (n + 1) <= |src|
    ensures Done(F, key, nonce, c, src, n + 1, dst + XorBytes(src[64 * n..64 * n + 64], KeyBlock(F, key, nonce, c + n)))
  {
    var a, b := src[..64 * n], src[64 * n..64 * n + 64];
    assert src[..64 * (n + 1)] == a + b && b[..64] == b && b[64..] == [];
    CryptSplit(F, key, nonce, c, a, b, n);
    assert Crypt(F, key, nonce, c + n, b) == XorBytes(b, KeyBlock(F, key, nonce, c + n)) + [];
  }

  lemma DoneTail(F: BlockFunction, key: seq<Byte>, nonce: seq<Byte>, c: nat, src: seq<Byte>, n: nat, dst: seq<Byte>)
    requires Done(F, key, nonce, c, src, n, dst)
    ensures Crypt(F, key, nonce, c, src) == dst + Crypt(F, key, nonce, c + n, src[64 * n..])
  {
    assert src == src[..64 * n] + src[64 * n..];
    CryptSplit(F, key, nonce, c, src[..64 * n], src[64 * n..], n);
  }

  /** The g blocks from block n on, each with its own counter. */
  method OneGroup(F: BlockFunction, key: seq<Byte>, nonce: seq<Byte>, c: nat, src: seq<Byte>, n: nat, g: nat, dst0: seq<Byte>)
    returns (dst: seq<Byte>)
    requires 64 * (n + g) <= |src| && Done(F, key, nonce, c, src, n, dst0)
    ensures Done(F, key, nonce, c, src, n + g, dst)
  {
    dst := dst0;
    for j := 0 to g
      invariant Done(F, key, nonce, c, src, n + j, dst)
    {
      DoneBlock(F, key, nonce, c, src, n + j, dst);
      dst := dst + XorBytes(src[64 * (n + j)..64 * (n + j) + 64], KeyBlock(F, key, nonce, c + (n + j)));
    }
  }

  /** Groups of g blocks for as long as g whole blocks are left. */
  method Groups(F: BlockFunction, key: seq<Byte>, nonce: seq<Byte>, c: nat, src: seq<Byte>, blocks: nat, g: nat)
    returns (dst: seq<Byte>, n: nat)
    requires g > 0 && 64 * blocks <= |src|
    ensures n == blocks / g * g && Done(F, key, nonce, c, src, n, dst)
  {
    dst, n := [], 0;
    ghost var k := 0;
    assert src[..0] == [];
    while n + g <= blocks
      invariant n <= blocks && n == Times(k, g) && Done(F, key, nonce, c, src, n, dst)
    {
      dst := OneGroup(F, key, nonce, c, src, n, g, dst);
      n, k := n + g, k + 1;
    }
    WholeGroups(blocks, g, k);
  }

  lemma WholeGroups(blocks: nat, g: nat, k: nat)
    requires g > 0 && Times(k, g) <= blocks < Times(k, g) + g
    ensures blocks / g * g == Times(k, g)
  {
    TimesIsProduct(k, g);
    DivModUnique(blocks, k, blocks - Times(k, g), g);
  }

  /** The last bytes, from keystream of as many blocks as they need. */
  method Rest(F: BlockFunction, key: seq<Byte>, nonce: seq<Byte>, c: nat, src: seq<Byte>) returns (dst: seq<Byte>)
    ensures dst == Crypt(F, key, nonce, c, src)
  {
    var n := |src| / 64;
    var done;
    dst, done := Groups(F, key, nonce, c, src, n, 1);
    DoneTail(F, key, nonce, c, src, n, dst);
    dst := dst + XorBytes(src[64 * n..], KeyBlock(F, key, nonce, c + n)[..|src| - 64 * n]);
  }

  /** The narrow groups and the rest. */
  method Narrow(F: BlockFunction, key: seq<Byte>, nonce: seq<Byte>, c: nat, src: seq<Byte>, narrow: nat)
    returns (dst: seq<Byte>)
    requires narrow > 0
    ensures dst == Crypt(F, key, nonce, c, src)
  {
    var m;
    dst, m := Groups(F, key, nonce, c, src, |src| / 64, narrow);
    DoneTail(F, key, nonce, c, src, m, dst);
    var tail := Rest(F, key, nonce, c + m, src[64 * m..]);
    dst := dst + tail;
  }

  /** The vector kernels: wide groups, the counter stored back, narrow groups, the rest. */
  method ProcessInputWide(F: BlockFunction, key: seq<Byte>, iv: Iv, src: seq<Byte>, wide: nat, narrow: nat)
    returns (dst: seq<Byte>, pIv: Iv)
    requires wide > 0 && narrow > 0
    ensures dst == Crypt(F, key, Nonce(iv), Counter(iv), src)
    ensures pIv == Advance(iv, |src| / 64 / wide * wide)
  {
    hide Crypt;
    var n;
    dst, n := Groups(F, key, Nonce(iv), Counter(iv), src, |src| / 64, wide);
    DoneTail(F, key, Nonce(iv), Counter(iv), src, n, dst);
    pIv := Advance(iv, n);
    MovedOn(F, key, iv, n, src[64 * n..]);
    var rest := Narrow(F, key, Nonce(pIv), Counter(pIv), src[64 * n..], narrow);
    dst := dst + rest;
  }

  /** The stored-back counter goes on where the blocks before it stopped. */
  lemma MovedOn(F: BlockFunction, key: seq<Byte>, iv: Iv, n: nat, p: seq<Byte>)
    ensures Crypt(F, key, Nonce(Advance(iv, n)), Counter(Advance(iv, n)), p) == Crypt(F, key, Nonce(iv), Counter(iv) + n, p)
  {
    AdvanceIs(iv, n);
    CryptWraps(F, key, Nonce(iv), Counter(iv) + n, Counter(Advance(iv, n)), p);
  }

  // ------------------------------------------------------------------ the cipher object

  class ChaCha256 {
    const arch: Arch
    const F: BlockFunction
    var key: seq<Byte>
    var iv: Iv
    var isKeySet: bool
    var isIvSet: bool

    constructor (arch: Arch, F: BlockFunction)
      ensures this.arch == arch && this.F == F && Held() == START
    {
      this.arch, this.F := arch, F;
      key, iv, isKeySet, isIvSet := Zeros(32), Zeros(16), false, false;
    }

    ghost function Held(): State
      reads this
    {
      State(key, iv, isKeySet, isIvSet)
    }

    method SetKey(newKey: Option<seq<Byte>>, keyLen: nat) returns (err: Error)
      requires newKey.Some? && keyLen == 256 ==> |newKey.value| >= 32
      modifies `key, `isKeySet
      ensures Held() == Step(arch, old(Held()), Call.SetKey(newKey, keyLen)).0
      ensures err == Step(arch, old(Held()), Call.SetKey(newKey, keyLen)).1
      ensures var valid := newKey.Some? && keyLen == 256;
        err == (if valid then NONE else INVALID_ARG) && key == if valid then newKey.value[..32] else old(key)
    {
      if newKey.None? || keyLen != 256 {
        return INVALID_ARG;
      }
      key, isKeySet := newKey.value[..keyLen / 8], true;
      err := NONE;
    }

    method SetIv(newIv: Option<seq<Byte>>, ivLen: nat) returns (err: Error)
      requires newIv.Some? && ivLen == 16 ==> |newIv.value| >= 16
      modifies `iv, `isIvSet
      ensures Held() == Step(arch, old(Held()), Call.SetIv(newIv, ivLen)).0
      ensures err == Step(arch, old(Held()), Call.SetIv(newIv, ivLen)).1
      ensures var valid := newIv.Some? && ivLen == 16;
        err == (if valid then NONE else INVALID_ARG) && iv == if valid then newIv.value[..16] else old(iv)
    {
      if newIv.None? || ivLen != 16 {
        return INVALID_ARG;
      }
      iv, isIvSet := newIv.value[..ivLen], true;
      err := NONE;
    }

    method Init(newKey: Option<seq<Byte>>, keyLen: nat, newIv: Option<seq<Byte>>, ivLen: nat) returns (err: Error)
      requires newKey.Some? && keyLen == 256 ==> |newKey.value| >= 32
      requires newIv.Some? && ivLen == 16 ==> |newIv.value| >= 16
      modifies this
      ensures Held() == Step(arch, old(Held()), Call.Init(newKey, keyLen, newIv, ivLen)).0
      ensures err == Step(arch, old(Held()), Call.Init(newKey, keyLen, newIv, ivLen)).1
      ensures var keyed, failed := newKey.Some? && keyLen == 256, (newKey.Some? || keyLen != 0) && !(newKey.Some? && keyLen == 256);
        && err == (if failed || (newIv.Some? && ivLen != 16) then INVALID_ARG else NONE)
        && key == (if keyed then newKey.value[..32] else old(key))
        && iv == if !failed && newIv.Some? && ivLen == 16 then newIv.value[..16] else old(iv)
    {
      err := NONE;
      if keyLen != 0 || newKey.Some? {
        err := SetKey(newKey, keyLen);
        if err != NONE {
          return;
        }
      }
      if newIv.Some? {
        err := SetIv(newIv, ivLen);
      }
    }

    /** Encryption; whether a key or an IV was ever set is not asked. */
    method Encrypt(input: Option<seq<Byte>>) returns (err: Error, out: seq<Byte>, outlen: nat)
      modifies `iv
      ensures err == if input.None? then INVALID_ARG else NONE
      ensures Held() == Step(arch, old(Held()), Process(if input.Some? then |input.value| else 0)).0
      ensures var moved: nat := if input.None? || arch == Reference then 0
                                else if arch == Avx2 then 8 * (|input.value| / 512) else 16 * (|input.value| / 1024);
        && iv[4..] == old(iv)[4..] && FromLe(iv[..4]) == (FromLe(old(iv)[..4]) + moved) % 0x1_0000_0000
      ensures input.Some? ==> outlen == |input.value| && out == Crypt(F, key, Nonce(old(iv)), Counter(old(iv)), input.value)
    {
      AdvanceByNone(iv);
      MovedBy(arch, iv, if input.Some? then |input.value| else 0);
      if input.None? {
        return INVALID_ARG, [], 0;
      }
      match arch {
        case Reference => out := Rest(F, key, Nonce(iv), Counter(iv), input.value);
        case Avx2 => out, iv := ProcessInputWide(F, key, iv, input.value, 8, 2);
        case Zen4 => out, iv := ProcessInputWide(F, key, iv, input.value, 16, 4);
      }
      err, outlen := NONE, |input.value|;
    }

    /** Decryption is encryption. */
    method Decrypt(input: Option<seq<Byte>>) returns (err: Error, out: seq<Byte>, outlen: nat)
      modifies `iv
      ensures err == if input.None? then INVALID_ARG else NONE
      ensures Held() == Step(arch, old(Held()), Process(if input.Some? then |input.value| else 0)).0
      ensures var moved: nat := if input.None? || arch == Reference then 0
                                else if arch == Avx2 then 8 * (|input.value| / 512) else 16 * (|input.value| / 1024);
        && iv[4..] == old(iv)[4..] && FromLe(iv[..4]) == (FromLe(old(iv)[..4]) + moved) % 0x1_0000_0000
      ensures input.Some? ==> outlen == |input.value| && out == Crypt(F, key, Nonce(old(iv)), Counter(old(iv)), input.value)
    {
      err, out, outlen := Encrypt(input);
    }
  }

  // ------------------------------------------------------------------ key and IV over runs

  datatype State = State(key: seq<Byte>, iv: Iv, isKeySet: bool, isIvSet: bool)

  const START := State(Zeros(32), Zeros(16), false, false)

  datatype Call =
    | SetKey(key: Option<seq<Byte>>, keyLen: nat)
    | SetIv(iv: Option<seq<Byte>>, ivLen: nat)
    | Init(key: Option<seq<Byte>>, keyLen: nat, iv: Option<seq<Byte>>, ivLen: nat)
    | Process(len: nat)

  predicate KeyValid(key: Option<seq<Byte>>, keyLen: nat) {
    key.Some? && keyLen == 256 && |key.value| >= 32
  }

  predicate IvValid(iv: Option<seq<Byte>>, ivLen: nat) {
    iv.Some? && ivLen == 16 && |iv.value| >= 16
  }

  function WithKey(s: State, key: Option<seq<Byte>>, keyLen: nat): (State, Error) {
    if KeyValid(key, keyLen) then (s.(key := key.value[..32], isKeySet := true), NONE) else (s, INVALID_ARG)
  }

  function WithIv(s: State, iv: Option<seq<Byte>>, ivLen: nat): (State, Error) {
    if IvValid(iv, ivLen) then (s.(iv := iv.value[..16], isIvSet := true), NONE) else (s, INVALID_ARG)
  }

  function Step(a: Arch, s: State, c: Call): (State, Error) {
    match c
    case SetKey(key, keyLen) => WithKey(s, key, keyLen)
    case SetIv(iv, ivLen) => WithIv(s, iv, ivLen)
    case Init(key, keyLen, iv, ivLen) =>
      var (s1, e1) := if keyLen != 0 || key.Some? then WithKey(s, key, keyLen) else (s, NONE);
      if e1 != NONE then (s1, e1) else if iv.Some? then WithIv(s1, iv, ivLen) else (s1, NONE)
    case Process(len) => (s.(iv := Advance(s.iv, Moved(a, len))), NONE)
  }

  function Run(a: Arch, s: State, calls: seq<Call>): State
    decreases |calls|
  {
    if calls == [] then s else Run(a, Step(a, s, calls[0]).0, calls[1..])
  }

  /** The key a call offers and that validates. */
  function KeyOf(c: Call): Option<seq<Byte>> {
    if (c.SetKey? || c.Init?) && KeyValid(c.key, c.keyLen) then Some(c.key.value[..32]) else None
  }

  /** The IV a call stores: in init only when no key was offered that fails. */
  function IvOf(c: Call): Option<seq<Byte>> {
    if c.SetIv? && IvValid(c.iv, c.ivLen) then Some(c.iv.value[..16])
    else if c.Init? && IvValid(c.iv, c.ivLen) && ((c.keyLen == 0 && c.key.None?) || KeyValid(c.key, c.keyLen))
    then Some(c.iv.value[..16])
    else None
  }

  /** The last key that validated, looking back from the end. */
  function LastKey(calls: seq<Call>): Option<seq<Byte>> {
    if calls == [] then None
    else if KeyOf(calls[|calls| - 1]).Some? then KeyOf(calls[|calls| - 1])
    else LastKey(calls[..|calls| - 1])
  }

  /** The last IV stored, and the blocks counted into its counter since. */
  function LastIv(a: Arch, calls: seq<Call>): (Option<seq<Byte>>, nat)
    ensures LastIv(a, calls).0.Some? ==> |LastIv(a, calls).0.value| == 16
  {
    if calls == [] then (None, 0)
    else
      var c := calls[|calls| - 1];
      if IvOf(c).Some? then (IvOf(c), 0)
      else
        var (iv, n) := LastIv(a, calls[..|calls| - 1]);
        (iv, n + if c.Process? then Moved(a, c.len) else 0)
  }

  lemma {:induction false} RunSnoc(a: Arch, s: State, calls: seq<Call>, c: Call)
    ensures Run(a, s, calls + [c]) == Step(a, Run(a, s, calls), c).0
    decreases |calls|
  {
    if calls == [] {
      assert [c][1..] == [] && calls + [c] == [c];
    } else {
      assert (calls + [c])[1..] == calls[1..] + [c];
      RunSnoc(a, Step(a, s, calls[0]).0, calls[1..], c);
    }
  }

  /** After any run the key is the last one that validated, the IV the last one stored with the
      counted blocks added to its counter, and the flags say whether there was any. */
  lemma {:induction false} HeldKeyAndIv(a: Arch, calls: seq<Call>)
    ensures var s := Run(a, START, calls);
      && (s.isKeySet <==> LastKey(calls).Some?)
      && s.key == (if LastKey(calls).Some? then LastKey(calls).value else Zeros(32))
      && (s.isIvSet <==> LastIv(a, calls).0.Some?)
      && s.iv == Advance(if s.isIvSet then LastIv(a, calls).0.value else Zeros(16), LastIv(a, calls).1)
    decreases |calls|
  {
    if calls == [] {
      AdvanceByNone(Zeros(16));
    } else {
      var init, c := calls[..|calls| - 1], calls[|calls| - 1];
      assert calls == init + [c];
      HeldKeyAndIv(a, init);
      RunSnoc(a, START, init, c);
      HeldStep(a, Run(a, START, init), init, c);
    }
  }

  lemma HeldStep(a: Arch, s: State, init: seq<Call>, c: Call)
    requires s.isIvSet <==> LastIv(a, init).0.Some?
    requires s.iv == Advance(if s.isIvSet then LastIv(a, init).0.value else Zeros(16), LastIv(a, init).1)
    ensures var s1, calls := Step(a, s, c).0, init + [c];
      && (s1.isKeySet <==> KeyOf(c).Some? || s.isKeySet) && s1.key == (if KeyOf(c).Some? then KeyOf(c).value else s.key)
      && LastKey(calls) == (if KeyOf(c).Some? then KeyOf(c) else LastKey(init))
      && (s1.isIvSet <==> LastIv(a, calls).0.Some?)
      && s1.iv == Advance(if s1.isIvSet then LastIv(a, calls).0.value else Zeros(16), LastIv(a, calls).1)
  {
    StepKey(a, s, c);
    StepIv(a, s, c);
    LastOfSnoc(a, init, c);
    hide Step, KeyOf, IvOf, LastKey, LastIv, Advance;
    if IvOf(c).Some? {
      AdvanceByNone(IvOf(c).value);
    } else if c.Process? {
      AdvanceTwice(if s.isIvSet then LastIv(a, init).0.value else Zeros(16), LastIv(a, init).1, Moved(a, c.len));
    }
  }

  lemma StepKey(a: Arch, s: State, c: Call)
    ensures var s1 := Step(a, s, c).0;
      (s1.isKeySet <==> KeyOf(c).Some? || s.isKeySet) && s1.key == if KeyOf(c).Some? then KeyOf(c).value else s.key
  {
    hide Advance, Moved;
  }

  lemma StepIv(a: Arch, s: State, c: Call)
    ensures IvOf(c).Some? ==> |IvOf(c).value| == 16
    ensures var s1 := Step(a, s, c).0;
      && (s1.isIvSet <==> IvOf(c).Some? || s.isIvSet)
      && s1.iv == if IvOf(c).Some? then IvOf(c).value else if c.Process? then Advance(s.iv, Moved(a, c.len)) else s.iv
  {
    hide Advance, Moved;
  }

  /** The last key and IV of a run with one more call. */
  lemma LastOfSnoc(a: Arch, init: seq<Call>, c: Call)
    ensures LastKey(init + [c]) == if KeyOf(c).Some? then KeyOf(c) else LastKey(init)
    ensures LastIv(a, init + [c]) ==
      if IvOf(c).Some? then (IvOf(c), 0)
      else (LastIv(a, init).0, LastIv(a, init).1 + if c.Process? then Moved(a, c.len) else 0)
  {
    hide KeyOf, IvOf, Moved;
    var calls := init + [c];
    assert calls[..|calls| - 1] == init && calls[|calls| - 1] == c;
  }

  lemma AdvanceTwice(iv: Iv, n: nat, m: nat)
    ensures Advance(Advance(iv, n), m) == Advance(iv, n + m)
  {
    AdvanceIs(iv, n);
    assert ((Counter(iv) + n) % TWO32 + m) % TWO32 == (Counter(iv) + n + m) % TWO32;
  }

  // ------------------------------------------------------------------ decrypting on the same object

  /** What decrypting the ciphertext right after encrypting returns, on one object. */
  function ThereAndBack(a: Arch, F: BlockFunction, key: seq<Byte>, iv: Iv, p: seq<Byte>): seq<Byte> {
    var iv1 := Advance(iv, Moved(a, |p|));
    Crypt(F, key, Nonce(iv1), Counter(iv1), Crypt(F, key, Nonce(iv), Counter(iv), p))
  }

  /** Encrypt and then Decrypt called on one object. */
  method EncryptThenDecrypt(chacha: ChaCha256, p: seq<Byte>) returns (back: seq<Byte>)
    modifies chacha`iv
    ensures back == ThereAndBack(chacha.arch, chacha.F, chacha.key, old(chacha.iv), p)
    ensures Moved(chacha.arch, |p|) % TWO32 == 0 ==> back == p
  {
    if Moved(chacha.arch, |p|) % TWO32 == 0 {
      UnmovedInverse(chacha.arch, chacha.F, chacha.key, chacha.iv, p);
    }
    var err, c, n := chacha.Encrypt(Some(p));
    err, back, n := chacha.Decrypt(Some(c));
  }

  /** The block function that tells counter zero from all others. */
  function Probe(key: seq<Byte>, c: nat, nonce: seq<Byte>): Stream64 {
    if c == 0 then seq(64, _ => 1) else seq(64, _ => 0)
  }

  /**
   Decrypting right after encrypting on the same object returns the input, for every block
   function, key, IV and message of a length, exactly when that length does not move the counter.
   */
  lemma SameObjectInverseIff(a: Arch, len: nat)
    ensures (forall F: BlockFunction, key: seq<Byte>, iv: Iv, p: seq<Byte> ::
               |p| == len ==> ThereAndBack(a, F, key, iv, p) == p)
            <==> Moved(a, len) % TWO32 == 0
  {
    if Moved(a, len) % TWO32 == 0 {
      forall F: BlockFunction, key: seq<Byte>, iv: Iv, p: seq<Byte> | |p| == len
        ensures ThereAndBack(a, F, key, iv, p) == p
      {
        UnmovedInverse(a, F, key, iv, p);
      }
    } else {
      ProbeDiffers(a, [], Zeros(16), Zeros(len));
    }
  }

  lemma UnmovedInverse(a: Arch, F: BlockFunction, key: seq<Byte>, iv: Iv, p: seq<Byte>)
    requires Moved(a, |p|) % TWO32 == 0
    ensures ThereAndBack(a, F, key, iv, p) == p
  {
    var n, c := Moved(a, |p|), Crypt(F, key, Nonce(iv), Counter(iv), p);
    MovedOn(F, key, iv, n, c);
    SumOfWords(Counter(iv), n);
    CryptWraps(F, key, Nonce(iv), Counter(iv) + n, Counter(iv), c);
    CryptInvolution(F, key, Nonce(iv), Counter(iv), p);
  }

  lemma SumOfWords(c: nat, n: nat)
    requires n % TWO32 == 0
    ensures (c + n) % TWO32 == c % TWO32
  {
  }

  lemma ProbeDiffers(a: Arch, key: seq<Byte>, iv: Iv, p: seq<Byte>)
    requires iv == Zeros(16) && p == Zeros(|p|) && Moved(a, |p|) % TWO32 != 0
    ensures |p| >= 64 && ThereAndBack(a, Probe, key, iv, p) != p
  {
    hide Crypt, Advance;
    FromLeZeros(4);
    assert iv[..4] == Zeros(4);
    var iv1 := Advance(iv, Moved(a, |p|));
    AdvanceIs(iv, Moved(a, |p|));
    var c := Crypt(Probe, key, Nonce(iv), Counter(iv), p);
    ProbeByte(key, Nonce(iv), Counter(iv), p);
    ProbeByte(key, Nonce(iv1), Counter(iv1), c);
    assert Xor(0, 1) == 1 && Xor(1, 0) == 1;
  }

  /** The first byte under the probe: flipped where the counter is zero. */
  lemma ProbeByte(key: seq<Byte>, nonce: seq<Byte>, c: nat, p: seq<Byte>)
    requires |p| >= 64
    ensures Crypt(Probe, key, nonce, c, p)[0] == Xor(p[0], if c % TWO32 == 0 then 1 else 0)
  {
  }

  /** Up to 2^38 bytes that means: always with the reference kernel, below 512 bytes with AVX2,
      below 1024 bytes on Zen 4. */
  lemma MovesFrom(a: Arch, len: nat)
    requires len < 0x40_0000_0000
    ensures Moved(a, len) % TWO32 == 0 <==> a == Reference || len < 64 * Wide(a)
  {
  }
}
