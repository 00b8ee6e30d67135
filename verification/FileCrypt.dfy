/**
 The file-encryption tool examples/misc/filecrypt.cc: mode selection, and the Crypt, Encryptor and
 Decryptor classes around the cipher kernels.
 */
module FileCrypt {
  import opened Bytes
  import opened BlockModes
  import opened KeystreamModes
  import opened Xts
  import opened Errors
  import AesKernels
  import Padding

  datatype Alg = AesCbc | AesCfb | AesCtr | AesOfb | AesXts

  /**
   What the process runs on: whether the CPU is supported, how many blocks a register holds, the
   key schedule, and the bytes that follow the key in memory. XTS takes its tweak key from those
   bytes: it reads past the end of the key it is given.
   */
  datatype Machine = Machine(zen: bool, factor: nat, expand: seq<Byte> -> BlockCipher, beyond: seq<Byte>) {
    ghost predicate Valid() {
      factor in {1, 2, 4} && |beyond| >= 32 && KeySchedule(expand)
    }
  }

  ghost predicate KeySchedule(expand: seq<Byte> -> BlockCipher) {
    forall k: seq<Byte> :: Permutation(expand(k))
  }

  // ------------------------------------------------------------------ choosing the cipher

  predicate Contains(s: string, part: string)
    decreases |s|
  {
    |part| <= |s| && (s[..|part|] == part || Contains(s[1..], part))
  }

  /** Containing is having somewhere as a part. */
  lemma {:induction false} ContainsIff(s: string, part: string)
    ensures Contains(s, part) <==> exists i :: 0 <= i <= |s| - |part| && s[i..][..|part|] == part
    decreases |s|
  {
    if |part| <= |s| {
      if s[..|part|] == part {
        assert s[0..] == s;
      } else {
        ContainsLater(s, part);
      }
    }
  }

  lemma ContainsLater(s: string, part: string)
    requires |part| <= |s| && s[..|part|] != part
    ensures Contains(s, part) <==> exists i :: 0 <= i <= |s| - |part| && s[i..][..|part|] == part
    decreases |s|, 0
  {
    if s != [] {
      ContainsIff(s[1..], part);
      assert forall i :: 0 <= i < |s| ==> s[i + 1..] == s[1..][i..];
      if i :| 0 <= i <= |s| - |part| && s[i..][..|part|] == part {
        assert s[0..] == s;
        assert s[1..][i - 1..][..|part|] == part;
      }
      if i :| 0 <= i <= |s[1..]| - |part| && s[1..][i..][..|part|] == part {
        assert s[i + 1..][..|part|] == part;
      }
    }
  }

  function SelectMode(mode: string): Option<Alg> {
    if Contains(mode, "cbc") then Some(AesCbc)
    else if Contains(mode, "cfb") then Some(AesCfb)
    else if Contains(mode, "ctr") then Some(AesCtr)
    else if Contains(mode, "ofb") then Some(AesOfb)
    else if Contains(mode, "xts") then Some(AesXts)
    else None
  }

  function SelectKeyBits(mode: string): (bits: nat)
    ensures bits in {128, 192, 256}
  {
    if Contains(mode, "128") then 128
    else if Contains(mode, "192") then 192
    else if Contains(mode, "256") then 256
    else 128
  }

  /** The keyed cipher and its first chaining value, counter or tweak. */
  datatype Keyed = Keyed(C: BlockCipher, start: Block)

  /** Creation and initialisation; None where the tool reports that it cannot initialise, or
      where the cipher is left without a key or an IV and then refuses to work. */
  function Initialise(m: Machine, mode: string, key: seq<Byte>, iv: seq<Byte>): Option<Keyed>
    requires |m.beyond| >= 32
  {
    var alg, bits := SelectMode(mode), SelectKeyBits(mode);
    if alg.None? || !m.zen || |key| * 8 != bits then None
    else if alg.value == AesXts then
      if bits == 192 || |iv| != 16 then None
      else Some(Keyed(m.expand(key), m.expand(m.beyond[..|key|]).enc(iv)))
    else if |iv| == 0 then Some(Keyed(m.expand(key), Zeros(16)))
    else if |iv| != 16 then None
    else Some(Keyed(m.expand(key), iv))
  }

  // ------------------------------------------------------------------ one call

  function EncryptBytes(alg: Alg, s: Keyed, p: seq<Byte>): (c: seq<Byte>)
    requires alg == AesXts ==> |p| >= 16
    ensures |c| == |p|
  {
    match alg
    case AesCbc => Encrypt(CBC, s.C, s.start, p)
    case AesCfb => Encrypt(CFB, s.C, s.start, p)
    case AesCtr => Stream(CTR, s.C, s.start, p)
    case AesOfb => OfbKernelOutput(s.C, s.start, p)
    case AesXts => XtsEncrypt(s.C, s.start, p)
  }

  /** CBC leaves the bytes of a partial block as the output buffer had them: zero. */
  function DecryptBytes(alg: Alg, s: Keyed, c: seq<Byte>): (p: seq<Byte>)
    requires alg == AesXts ==> |c| >= 16
    ensures |p| == |c|
  {
    match alg
    case AesCbc => Decrypt(CBC, s.C, s.start, c) + Zeros(|c| - Aligned(|c|))
    case AesCfb => Decrypt(CFB, s.C, s.start, c)
    case AesCtr => Stream(CTR, s.C, s.start, c)
    case AesOfb => OfbKernelOutput(s.C, s.start, c)
    case AesXts => XtsDecrypt(s.C, s.start, c)
  }

  /** The length the chosen mode accepts; an empty vector has a null data pointer. */
  predicate Accepts(alg: Alg, n: nat) {
    if alg == AesXts then 16 <= n <= MAX_UNIT else n > 0
  }

  /** What Crypt returns; the empty vector is failure. */
  function Output(m: Machine, encrypt: bool, mode: string, input: seq<Byte>, key: seq<Byte>, iv: seq<Byte>): seq<Byte>
    requires |m.beyond| >= 32
  {
    var s := Initialise(m, mode, key, iv);
    if s.None? || !Accepts(SelectMode(mode).value, |input|) then []
    else if encrypt then EncryptBytes(SelectMode(mode).value, s.value, input)
    else DecryptBytes(SelectMode(mode).value, s.value, input)
  }

  /** Encryption: the cipher and the mode that the string names, and where it fails. */
  lemma EncryptionIs(m: Machine, mode: string, input: seq<Byte>, key: seq<Byte>, iv: seq<Byte>)
    requires |m.beyond| >= 32
    ensures var out := Output(m, true, mode, input, key, iv);
      var fits := m.zen && input != [] && |key| == (if Contains(mode, "128") then 16 else if Contains(mode, "192") then 24
                           else if Contains(mode, "256") then 32 else 16);
      if !fits || |iv| !in {0, 16} then out == []
      else
        var C, start := m.expand(key), if iv == [] then Zeros(16) else iv;
        if Contains(mode, "cbc") then out == BlockModes.Encrypt(CBC, C, start, input)
        else if Contains(mode, "cfb") then out == BlockModes.Encrypt(CFB, C, start, input)
        else if Contains(mode, "ctr") then out == Stream(CTR, C, start, input)
        else if Contains(mode, "ofb") then
          out == Stream(OFB, C, start, input[..|input| - |input| % 16]) + input[|input| - |input| % 16..]
        else if Contains(mode, "xts") then
          out == if iv != [] && |key| != 24 && 16 <= |input| <= 0x20_0000
                 then XtsEncrypt(C, m.expand(m.beyond[..|key|]).enc(iv), input) else []
        else out == []
  {
    hide BlockModes.Encrypt, Stream, Xts.XtsEncrypt, Contains;
  }

  /** Decryption; CBC leaves the bytes of a partial block zero. */
  lemma DecryptionIs(m: Machine, mode: string, input: seq<Byte>, key: seq<Byte>, iv: seq<Byte>)
    requires |m.beyond| >= 32
    ensures var out := Output(m, false, mode, input, key, iv);
      var fits := m.zen && input != [] && |key| == (if Contains(mode, "128") then 16 else if Contains(mode, "192") then 24
                           else if Contains(mode, "256") then 32 else 16);
      if !fits || |iv| !in {0, 16} then out == []
      else
        var C, start := m.expand(key), if iv == [] then Zeros(16) else iv;
        if Contains(mode, "cbc") then out == BlockModes.Decrypt(CBC, C, start, input) + Zeros(|input| % 16)
        else if Contains(mode, "cfb") then out == BlockModes.Decrypt(CFB, C, start, input)
        else if Contains(mode, "ctr") then out == Stream(CTR, C, start, input)
        else if Contains(mode, "ofb") then
          out == Stream(OFB, C, start, input[..|input| - |input| % 16]) + input[|input| - |input| % 16..]
        else if Contains(mode, "xts") then
          out == if iv != [] && |key| != 24 && 16 <= |input| <= 0x20_0000
                 then XtsDecrypt(C, m.expand(m.beyond[..|key|]).enc(iv), input) else []
        else out == []
  {
    hide BlockModes.Decrypt, Stream, Xts.XtsDecrypt, Contains;
  }

  class Crypt {
    const m: Machine
    var isEncrypt: bool

    constructor (m: Machine)
      ensures this.m == m && !isEncrypt
    {
      this.m, isEncrypt := m, false;
    }

    method SetEncrypt()
      modifies this
      ensures isEncrypt
    {
      isEncrypt := true;
    }

    method Encrypt(mode: string, input: seq<Byte>, key: seq<Byte>, iv: seq<Byte>) returns (out: seq<Byte>)
      requires m.Valid()
      ensures out == if isEncrypt then Output(m, true, mode, input, key, iv) else []
      ensures isEncrypt ==>
      var fits := m.zen && input != [] && |key| == (if Contains(mode, "128") then 16 else if Contains(mode, "192") then 24
                           else if Contains(mode, "256") then 32 else 16);
      if !fits || |iv| !in {0, 16} then out == []
      else
        var C, start := m.expand(key), if iv == [] then Zeros(16) else iv;
        if Contains(mode, "cbc") then out == BlockModes.Encrypt(CBC, C, start, input)
        else if Contains(mode, "cfb") then out == BlockModes.Encrypt(CFB, C, start, input)
        else if Contains(mode, "ctr") then out == Stream(CTR, C, start, input)
        else if Contains(mode, "ofb") then
          out == Stream(OFB, C, start, input[..|input| - |input| % 16]) + input[|input| - |input| % 16..]
        else if Contains(mode, "xts") then
          out == if iv != [] && |key| != 24 && 16 <= |input| <= 0x20_0000
                 then XtsEncrypt(C, m.expand(m.beyond[..|key|]).enc(iv), input) else []
        else out == []
    {
      EncryptionIs(m, mode, input, key, iv);
      if !isEncrypt { return []; }
      var alg, s := SelectMode(mode), Initialise(m, mode, key, iv);
      if s.None? || |input| == 0 { return []; }
      var C, start, pIv := s.value.C, s.value.start, s.value.start;
      match alg.value
      case AesCbc => out, pIv := AesKernels.EncryptCbcKernel(C, input, start, false);
      case AesCfb => out, pIv := AesKernels.EncryptCfbKernel(C, input, start, false);
      case AesCtr => out, pIv := CtrBlk(C, input, start, m.factor, false);
      case AesOfb => out, pIv := CryptOfb(C, input, start, false);
      case AesXts =>
        if |input| < 16 || |input| > MAX_UNIT { return []; }
        out, pIv := EncryptXtsKernel(C, input, start, false);
    }

    method Decrypt(mode: string, input: seq<Byte>, key: seq<Byte>, iv: seq<Byte>) returns (out: seq<Byte>)
      requires m.Valid()
      ensures out == if isEncrypt then [] else Output(m, false, mode, input, key, iv)
      ensures !isEncrypt ==>
      var fits := m.zen && input != [] && |key| == (if Contains(mode, "128") then 16 else if Contains(mode, "192") then 24
                           else if Contains(mode, "256") then 32 else 16);
      if !fits || |iv| !in {0, 16} then out == []
      else
        var C, start := m.expand(key), if iv == [] then Zeros(16) else iv;
        if Contains(mode, "cbc") then out == BlockModes.Decrypt(CBC, C, start, input) + Zeros(|input| % 16)
        else if Contains(mode, "cfb") then out == BlockModes.Decrypt(CFB, C, start, input)
        else if Contains(mode, "ctr") then out == Stream(CTR, C, start, input)
        else if Contains(mode, "ofb") then
          out == Stream(OFB, C, start, input[..|input| - |input| % 16]) + input[|input| - |input| % 16..]
        else if Contains(mode, "xts") then
          out == if iv != [] && |key| != 24 && 16 <= |input| <= 0x20_0000
                 then XtsDecrypt(C, m.expand(m.beyond[..|key|]).enc(iv), input) else []
        else out == []
    {
      DecryptionIs(m, mode, input, key, iv);
      if isEncrypt { return []; }
      var alg, s := SelectMode(mode), Initialise(m, mode, key, iv);
      if s.None? || |input| == 0 { return []; }
      var C, start, pIv := s.value.C, s.value.start, s.value.start;
      match alg.value
      case AesCbc =>
        out, pIv := AesKernels.DecryptCbcKernel(C, input, start, false);
        out := out + Zeros(|input| - |out|);
      case AesCfb => out, pIv := AesKernels.DecryptCfbKernel(C, input, start, false);
      case AesCtr => out, pIv := CtrBlk(C, input, start, m.factor, false);
      case AesOfb => out, pIv := CryptOfb(C, input, start, false);
      case AesXts =>
        if |input| < 16 || |input| > MAX_UNIT { return []; }
        out, pIv := DecryptXtsKernel(C, input, start, false);
    }
  }

  class Encryptor {
    const crypt: Crypt
    var cipherText: seq<Byte>

    constructor (crypt: Crypt)
      modifies crypt
      ensures this.crypt == crypt && crypt.isEncrypt
    {
      this.crypt, cipherText := crypt, [];
      new;
      crypt.SetEncrypt();
    }

    method Encrypt(mode: string, input: seq<Byte>, key: seq<Byte>, iv: seq<Byte>) returns (out: seq<Byte>)
      requires crypt.m.Valid() && crypt.isEncrypt
      modifies this
      ensures out == cipherText == EncryptorOutput(crypt.m, mode, input, key, iv)
    {
      var padded := Padding.PadZeros(input);
      cipherText := crypt.Encrypt(mode, padded, key, iv);
      out := cipherText;
    }
  }

  class Decryptor {
    const crypt: Crypt
    var plainText: seq<Byte>

    constructor (crypt: Crypt)
      ensures this.crypt == crypt
    {
      this.crypt, plainText := crypt, [];
    }

    method Decrypt(mode: string, input: seq<Byte>, key: seq<Byte>, iv: seq<Byte>) returns (out: seq<Byte>)
      requires crypt.m.Valid() && !crypt.isEncrypt
      modifies this
      ensures out == plainText == DecryptorOutput(crypt.m, mode, input, key, iv)
    {
      var padded := crypt.Decrypt(mode, input, key, iv);
      plainText := Padding.Unpad(padded);
      out := plainText;
    }
  }

  function EncryptorOutput(m: Machine, mode: string, x: seq<Byte>, key: seq<Byte>, iv: seq<Byte>): seq<Byte>
    requires |m.beyond| >= 32
  {
    Output(m, true, mode, Padding.Pad(x), key, iv)
  }

  function DecryptorOutput(m: Machine, mode: string, c: seq<Byte>, key: seq<Byte>, iv: seq<Byte>): seq<Byte>
    requires |m.beyond| >= 32
  {
    Padding.Unpad(Output(m, false, mode, c, key, iv))
  }

  /** What the encryptor makes of a file: the mark 0x0f and zero bytes up to a whole block, encrypted. */
  lemma EncryptorIs(m: Machine, mode: string, x: seq<Byte>, key: seq<Byte>, iv: seq<Byte>)
    requires |m.beyond| >= 32
    ensures EncryptorOutput(m, mode, x, key, iv) == Output(m, true, mode, x + [0x0f] + Zeros(15 - |x| % 16), key, iv)
  {
  }

  /** The decryptor keeps what comes before the last mark, or everything when there is none. */
  lemma DecryptorIs(m: Machine, mode: string, c: seq<Byte>, key: seq<Byte>, iv: seq<Byte>, k: nat)
    requires |m.beyond| >= 32
    requires var y := Output(m, false, mode, c, key, iv);
      k <= |y| && (k < |y| ==> y[k] == 0x0f) && (forall i :: k < i < |y| ==> y[i] != 0x0f)
      && (k == |y| ==> 0x0f !in y)
    ensures DecryptorOutput(m, mode, c, key, iv) == Output(m, false, mode, c, key, iv)[..k]
  {
    hide Output;
    Padding.UnpadAt(Output(m, false, mode, c, key, iv), k);
  }

  // ------------------------------------------------------------------ the file comes back

  /** Whole blocks come back in every mode. */
  lemma BytesRoundTrip(alg: Alg, s: Keyed, p: seq<Byte>)
    requires Permutation(s.C) && |p| % 16 == 0 && |p| > 0
    ensures DecryptBytes(alg, s, EncryptBytes(alg, s, p)) == p
  {
    match alg
    case AesCbc => DecryptInvertsEncrypt(CBC, s.C, s.start, p);
    case AesCfb => DecryptInvertsEncrypt(CFB, s.C, s.start, p);
    case AesCtr => StreamInvolution(CTR, s.C, s.start, p);
    case AesOfb => OfbKernelInvolution(s.C, s.start, p);
    case AesXts => XtsRoundTrip(s.C, s.start, p);
  }

  /** An empty result of the encryptor means failure, and failure means one of these reasons. */
  lemma EncryptorFailsIff(m: Machine, mode: string, x: seq<Byte>, key: seq<Byte>, iv: seq<Byte>)
    requires m.Valid()
    ensures EncryptorOutput(m, mode, x, key, iv) == [] <==>
      || Initialise(m, mode, key, iv).None?
      || (SelectMode(mode) == Some(AesXts) && |Padding.Pad(x)| > MAX_UNIT)
    ensures EncryptorOutput(m, mode, x, key, iv) != [] ==>
      |EncryptorOutput(m, mode, x, key, iv)| == |Padding.Pad(x)|
  {
    Padding.PadLength(x);
  }

  /** The key, mode and machine with which XTS encryption gets under way. */
  predicate XtsKey(m: Machine, mode: string, key: seq<Byte>)
    ensures XtsKey(m, mode, key) ==> |key| in {16, 32}
  {
    m.zen && SelectMode(mode) == Some(AesXts) && |key| * 8 == SelectKeyBits(mode) && SelectKeyBits(mode) != 192
  }

  /** What the file comes to under the key schedule `expand`, encrypted on m and decrypted on m2. */
  ghost predicate ComesBack(m: Machine, m2: Machine, expand: seq<Byte> -> BlockCipher, mode: string,
                            key: seq<Byte>, iv: seq<Byte>, x: seq<Byte>)
    requires |m.beyond| >= 32 && |m2.beyond| >= 32
  {
    var c := EncryptorOutput(m.(expand := expand), mode, x, key, iv);
    c != [] ==> DecryptorOutput(m2.(expand := expand), mode, c, key, iv) == x
  }

  /**
   For every file, mode string, key and IV: if encryption yields a result, decrypting it with the
   same arguments yields the file, also on another supported machine. For XTS the bytes behind
   the key must be the same both times.
   */
  lemma FileRoundTrip(m: Machine, m2: Machine, mode: string, x: seq<Byte>, key: seq<Byte>, iv: seq<Byte>)
    requires m.Valid() && m2.Valid() && m2.zen && m2.expand == m.expand
    requires XtsKey(m, mode, key) ==> m2.beyond[..|key|] == m.beyond[..|key|]
    ensures ComesBack(m, m2, m.expand, mode, key, iv, x)
  {
    assert m.(expand := m.expand) == m && m2.(expand := m.expand) == m2;
    var c := EncryptorOutput(m, mode, x, key, iv);
    if c != [] {
      Padding.PadLength(x);
      Padding.UnpadPad(x);
      var s := Initialise(m, mode, key, iv);
      assert Initialise(m2, mode, key, iv) == s;
      BytesRoundTrip(SelectMode(mode).value, s.value, Padding.Pad(x));
    }
  }

  // ------------------------------------------------------------------ other bytes behind the key

  /** A block that is zero but for its first byte. */
  function First(n: Byte): Block {
    [n] + Zeros(15)
  }

  lemma FirstXor(a: Byte, b: Byte)
    ensures XorBytes(First(a), First(b)) == First(Xor(a, b))
  {
    assert Xor(0, 0) == 0;
  }

  /** The cipher that adds a block. */
  function Translate(w: Block): BlockCipher {
    BlockCipher(b => XorBytes(b, w), b => XorBytes(b, w))
  }

  lemma TranslatePermutes(w: Block)
    ensures Permutation(Translate(w))
  {
    forall b: Block ensures XorBytes(XorBytes(b, w), w) == b {
      XorBytesInvolution(b, w);
    }
  }

  /** A key schedule for three keys: the data key exchanges two blocks, the other one translates. */
  function Schedule(key: seq<Byte>, other: seq<Byte>): seq<Byte> -> BlockCipher {
    k => if k == key then Exchange(First(1), First(2))
         else if k == other then Translate(First(1))
         else Translate(First(0))
  }

  lemma SchedulePermutes(key: seq<Byte>, other: seq<Byte>)
    ensures KeySchedule(Schedule(key, other))
  {
    ExchangePermutes(First(1), First(2));
    TranslatePermutes(First(1));
    TranslatePermutes(First(0));
  }

  lemma Sums()
    ensures XorBytes(First(0), First(0)) == First(0) && XorBytes(First(0), First(1)) == First(1)
    ensures XorBytes(First(1), First(0)) == First(1) && XorBytes(First(1), First(1)) == First(0)
    ensures XorBytes(First(2), First(0)) == First(2) && XorBytes(First(2), First(1)) == First(3)
    ensures XorBytes(First(3), First(1)) == First(2)
  {
    FirstXor(0, 0);
    FirstXor(0, 1);
    FirstXor(1, 0);
    FirstXor(1, 1);
    FirstXor(2, 0);
    FirstXor(2, 1);
    FirstXor(3, 1);
  }

  /** One block under two tweaks: the exchange meets it one way and not the other. */
  lemma OneBlockLost(t: Block, t2: Block)
    requires (t == First(0) && t2 == First(1)) || (t == First(1) && t2 == First(0))
    ensures var D, b := Exchange(First(1), First(2)), XorBytes(First(2), t);
      XtsBlock(D.dec, t2, XtsBlock(D.enc, t, b))[0] != b[0]
  {
    Sums();
    var D := Exchange(First(1), First(2));
    assert D.enc(First(2)) == First(1) && D.dec(First(0)) == First(0);
  }

  /** The start of the second block of an XTS unit of two blocks does not matter to the first. */
  lemma FirstOfTwo(C: BlockCipher, t: Block, t2: Block, p: seq<Byte>)
    requires |p| == 32
    ensures XtsDecrypt(C, t2, XtsEncrypt(C, t, p))[..16] == XtsBlock(C.dec, t2, XtsBlock(C.enc, t, p[..16]))
  {
    var c := XtsEncrypt(C, t, p);
    assert p == p[..16] + p[16..] && c == c[..16] + c[16..];
    FirstBlock(C.enc, t, p[..16], p[16..], false);
    FirstBlock(C.dec, t2, c[..16], c[16..], true);
  }

  /** The file that is lost: one block, which the marker padding follows. */
  lemma FileLost(t: Block, t2: Block, x: seq<Byte>)
    requires (t == First(0) && t2 == First(1)) || (t == First(1) && t2 == First(0))
    requires x == XorBytes(First(2), t)
    ensures var D := Exchange(First(1), First(2));
      |Padding.Pad(x)| == 32 && Padding.Unpad(XtsDecrypt(D, t2, XtsEncrypt(D, t, Padding.Pad(x)))) != x
  {
    hide Xts.XtsEncrypt, Xts.XtsDecrypt, Exchange, First;
    var D, padded := Exchange(First(1), First(2)), Padding.Pad(x);
    OneBlockLost(t, t2);
    FirstOfTwo(D, t, t2, padded);
    var back := XtsDecrypt(D, t2, XtsEncrypt(D, t, padded));
    assert padded[..16] == x && back[0] == back[..16][0];
  }

  /** The tweaks that the two machines start from. */
  lemma TweaksSwapped(key: seq<Byte>, k1: seq<Byte>, k2: seq<Byte>, iv: Block)
    requires k1 != k2 && iv == First(0)
    ensures var expand := Schedule(key, if k2 == key then k1 else k2);
      var t, t2 := expand(k1).enc(iv), expand(k2).enc(iv);
      (t == First(0) && t2 == First(1)) || (t == First(1) && t2 == First(0))
  {
    Sums();
  }

  lemma XtsOutput(m: Machine, mode: string, key: seq<Byte>, iv: Block, p: seq<Byte>)
    requires |m.beyond| >= 32 && XtsKey(m, mode, key) && |p| == 32
    ensures Output(m, true, mode, p, key, iv) == XtsEncrypt(m.expand(key), m.expand(m.beyond[..|key|]).enc(iv), p)
    ensures Output(m, false, mode, p, key, iv) == XtsDecrypt(m.expand(key), m.expand(m.beyond[..|key|]).enc(iv), p)
  {
  }

  /** With other bytes behind the key there are a key schedule, an IV and a file that is lost. */
  lemma TweakKeyMatters(m: Machine, m2: Machine, mode: string, key: seq<Byte>)
    returns (expand: seq<Byte> -> BlockCipher, iv: Block, x: seq<Byte>)
    requires m.Valid() && m2.Valid() && m2.zen
    requires XtsKey(m, mode, key) && m2.beyond[..|key|] != m.beyond[..|key|]
    ensures KeySchedule(expand) && !ComesBack(m, m2, expand, mode, key, iv, x)
  {
    hide Output, Xts.XtsEncrypt, Xts.XtsDecrypt, Padding.Pad, Padding.Unpad, Initialise;
    var k1, k2 := m.beyond[..|key|], m2.beyond[..|key|];
    var other := if k2 == key then k1 else k2;
    expand, iv := Schedule(key, other), First(0);
    SchedulePermutes(key, other);
    TweaksSwapped(key, k1, k2, iv);
    var t, t2 := expand(k1).enc(iv), expand(k2).enc(iv);
    x := XorBytes(First(2), t);
    FileLost(t, t2, x);
    XtsOutput(m.(expand := expand), mode, key, iv, Padding.Pad(x));
    XtsOutput(m2.(expand := expand), mode, key, iv, XtsEncrypt(expand(key), t, Padding.Pad(x)));
  }

  /**
   Files come back for all key schedules, IVs and contents exactly when the mode is not XTS with a
   usable key, or the bytes that follow the key are the same both times.
   */
  lemma FileRoundTripIff(m: Machine, m2: Machine, mode: string, key: seq<Byte>)
    requires m.Valid() && m2.Valid() && m2.zen
    ensures (forall expand: seq<Byte> -> BlockCipher, iv, x | KeySchedule(expand) ::
               ComesBack(m, m2, expand, mode, key, iv, x))
      <==> (XtsKey(m, mode, key) ==> m2.beyond[..|key|] == m.beyond[..|key|])
  {
    if XtsKey(m, mode, key) && m2.beyond[..|key|] != m.beyond[..|key|] {
      var expand, iv, x := TweakKeyMatters(m, m2, mode, key);
    } else {
      forall expand: seq<Byte> -> BlockCipher, iv, x | KeySchedule(expand)
        ensures ComesBack(m, m2, expand, mode, key, iv, x)
      {
        FileRoundTrip(m.(expand := expand), m2.(expand := expand), mode, x, key, iv);
      }
    }
  }
}
