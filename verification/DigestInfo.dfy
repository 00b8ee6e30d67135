/**
 The DigestInfo prefixes of include/alcp/rsa.h and their use: the encoding of a hash for
 PKCS #1 v1.5 signatures (section 9.2 of RFC 8017).
 */
module DigestInfo {
  import opened Bytes
  import opened Errors

  datatype Mode =
    | MD5 | SHA1 | MD5_SHA1 | SHA2_224 | SHA2_256 | SHA2_384 | SHA2_512 | SHA2_512_224 | SHA2_512_256
    | SHA3_224 | SHA3_256 | SHA3_384 | SHA3_512 | SHAKE_128 | SHAKE_256 | MB_SHA2_224 | MB_SHA2_256

  /** The enumeration that orders the table. */
  datatype DigestIndex =
    | IndexMd5Sha1 | IndexMd5 | IndexSha1 | IndexSha224 | IndexSha256 | IndexSha384 | IndexSha512 | IndexSha512_224 | IndexSha512_256
    | IndexUnknown

  /** The table rows without the zero bytes that complete them. */
  function Row(i: DigestIndex): seq<Byte> {
    match i
    case IndexMd5Sha1 => []
    case IndexMd5 => [0x30, 0x20, 0x30, 0x0c, 0x06, 0x08, 0x2a, 0x86, 0x48, 0x86, 0xf7, 0x0d, 0x02, 0x05, 0x05, 0x00, 0x04, 0x10]
    case IndexSha1 => [0x30, 0x21, 0x30, 0x09, 0x06, 0x05, 0x2b, 0x0e, 0x03, 0x02, 0x1a, 0x05, 0x00, 0x04, 0x14]
    case IndexSha224 => Sha2Row(0x2d, 0x04, 0x1c)
    case IndexSha256 => Sha2Row(0x31, 0x01, 0x20)
    case IndexSha384 => Sha2Row(0x41, 0x02, 0x30)
    case IndexSha512 => Sha2Row(0x51, 0x03, 0x40)
    case IndexSha512_224 => Sha2Row(0x2d, 0x05, 0x1c)
    case IndexSha512_256 => Sha2Row(0x31, 0x06, 0x20)
    case IndexUnknown => []
  }

  /** The SHA-2 rows differ in the total length, the last arc of the identifier, and the hash length. */
  function Sha2Row(total: Byte, arc: Byte, hashLen: Byte): (r: seq<Byte>)
    ensures |r| == 19
  {
    [0x30, total, 0x30, 0x0d, 0x06, 0x09, 0x60, 0x86, 0x48, 0x01, 0x65, 0x03, 0x04, 0x02, arc, 0x05, 0x00, 0x04, hashLen]
  }

  /** alcp_rsa_get_digest_info_index; None is the -1 of an unsupported mode. */
  function InfoIndex(m: Mode): Option<DigestIndex> {
    match m
    case MD5 => Some(IndexMd5)
    case SHA1 => Some(IndexSha1)
    case MD5_SHA1 => Some(IndexMd5Sha1)
    case SHA2_224 => Some(IndexSha224)
    case SHA2_256 => Some(IndexSha256)
    case SHA2_384 => Some(IndexSha384)
    case SHA2_512 => Some(IndexSha512)
    case SHA2_512_224 => Some(IndexSha512_224)
    case SHA2_512_256 => Some(IndexSha512_256)
    case _ => None
  }

  /** alcp_rsa_get_digest_info_size. */
  function InfoSize(m: Mode): nat {
    match m
    case MD5 => 18
    case SHA1 => 15
    case SHA2_224 | SHA2_256 | SHA2_384 | SHA2_512 | SHA2_512_224 | SHA2_512_256 => 19
    case _ => 0
  }

  /** fetch_digest makes an object for these modes. */
  predicate Fetched(m: Mode) {
    m in {MD5, SHA1, MD5_SHA1, SHA2_224, SHA2_256, SHA2_384, SHA2_512, SHA2_512_224, SHA2_512_256}
  }

  /** The digest sizes of the objects, in bytes. */
  function HashLen(m: Mode): nat
    requires Fetched(m)
  {
    match m
    case MD5 => 16
    case SHA1 => 20
    case MD5_SHA1 => 36
    case SHA2_224 | SHA2_512_224 => 28
    case SHA2_256 | SHA2_512_256 => 32
    case SHA2_384 => 48
    case SHA2_512 => 64
  }

  /** The three lookups support the same modes, and each size is that of its row. */
  lemma SameModes(m: Mode)
    ensures InfoIndex(m).Some? <==> Fetched(m)
    ensures Fetched(m) ==> InfoIndex(m).value != IndexUnknown && InfoSize(m) == |Row(InfoIndex(m).value)|
    ensures !Fetched(m) ==> InfoSize(m) == 0
  {
  }

  /** The prefix of a mode and its hash. */
  function Encode(m: Mode, hash: seq<Byte>): seq<Byte>
    requires Fetched(m)
  {
    Row(InfoIndex(m).value) + hash
  }

  /** The example's two copies into one buffer. */
  method BuildHashWithInfo(m: Mode, hash: seq<Byte>) returns (r: array<Byte>)
    requires Fetched(m)
    ensures fresh(r) && r[..] == Encode(m, hash)
  {
    SameModes(m);
    hide Row, InfoSize, InfoIndex;
    r := new Byte[InfoSize(m) + |hash|];
    CopyTo(r, 0, Row(InfoIndex(m).value));
    CopyTo(r, InfoSize(m), hash);
    assert r[..] == r[..InfoSize(m)] + r[InfoSize(m)..];
  }

  /** memcpy to offset `at` of the buffer. */
  method CopyTo(r: array<Byte>, at: nat, src: seq<Byte>)
    requires at + |src| <= r.Length
    modifies r
    ensures r[..at] == old(r[..at]) && r[at..at + |src|] == src && r[at + |src|..] == old(r[at + |src|..])
  {
    for i := 0 to |src|
      invariant r[at..at + i] == src[..i]
      invariant r[..at] == old(r[..at]) && r[at + |src|..] == old(r[at + |src|..])
    {
      r[at + i] := src[i];
    }
  }

  // ------------------------------------------------------------------ decoding

  const SUPPORTED: seq<Mode> :=
    [MD5, SHA1, MD5_SHA1, SHA2_224, SHA2_256, SHA2_384, SHA2_512, SHA2_512_224, SHA2_512_256]

  /** The encoding is of this mode. */
  predicate Is(m: Mode, e: seq<Byte>)
    requires Fetched(m)
  {
    |e| == InfoSize(m) + HashLen(m) && Row(InfoIndex(m).value) <= e
  }

  function DecodeFrom(modes: seq<Mode>, e: seq<Byte>): Option<(Mode, seq<Byte>)>
    requires forall m :: m in modes ==> Fetched(m)
  {
    if modes == [] then None
    else if Is(modes[0], e) then SameModes(modes[0]); Some((modes[0], e[InfoSize(modes[0])..]))
    else DecodeFrom(modes[1..], e)
  }

  function Decode(e: seq<Byte>): Option<(Mode, seq<Byte>)> {
    DecodeFrom(SUPPORTED, e)
  }

  /** At most one mode fits: lengths differ, or the byte that names the algorithm does. */
  lemma OneModeFits(m: Mode, n: Mode, e: seq<Byte>)
    requires Fetched(m) && Fetched(n) && Is(m, e) && Is(n, e)
    ensures m == n
  {
    if InfoSize(m) == 19 && InfoSize(n) == 19 {
      assert e[14] == Row(InfoIndex(m).value)[14] == Row(InfoIndex(n).value)[14];
    }
  }

  lemma {:induction false} DecodeFromFinds(modes: seq<Mode>, m: Mode, e: seq<Byte>)
    requires forall n :: n in modes ==> Fetched(n)
    requires m in modes && Is(m, e)
    ensures DecodeFrom(modes, e) == Some((m, e[InfoSize(m)..]))
  {
    if Is(modes[0], e) {
      OneModeFits(m, modes[0], e);
    } else {
      DecodeFromFinds(modes[1..], m, e);
    }
  }

  /** Decoding gives back mode and hash, for hashes of the right length. */
  lemma DecodeEncode(m: Mode, hash: seq<Byte>)
    requires Fetched(m) && |hash| == HashLen(m)
    ensures Decode(Encode(m, hash)) == Some((m, hash))
  {
    SameModes(m);
    DecodeFromFinds(SUPPORTED, m, Encode(m, hash));
  }

  lemma EncodeInjective(m: Mode, hash: seq<Byte>, n: Mode, other: seq<Byte>)
    requires Fetched(m) && |hash| == HashLen(m) && Fetched(n) && |other| == HashLen(n)
    requires Encode(m, hash) == Encode(n, other)
    ensures m == n && hash == other
  {
    DecodeEncode(m, hash);
    DecodeEncode(n, other);
  }

  // ------------------------------------------------------------------ the DER structure

  /** One element of the given tag with a short-form length, and what follows it. */
  function Element(tag: Byte, e: seq<Byte>): Option<(seq<Byte>, seq<Byte>)> {
    if |e| < 2 || e[0] != tag || e[1] >= 128 || |e| < 2 + e[1] then None
    else Some((e[2..2 + e[1]], e[2 + e[1]..]))
  }

  /** DigestInfo ::= SEQUENCE { SEQUENCE { OBJECT IDENTIFIER, NULL }, OCTET STRING }, nothing left over. */
  function ParseDer(e: seq<Byte>): Option<(seq<Byte>, seq<Byte>)> {
    var info := Element(0x30, e);
    if info.None? || info.value.1 != [] then None
    else
      var alg := Element(0x30, info.value.0);
      if alg.None? then None
      else
        var oid, octets := Element(0x06, alg.value.0), Element(0x04, alg.value.1);
        if oid.None? || octets.None? || oid.value.1 != [0x05, 0x00] || octets.value.1 != [] then None
        else Some((oid.value.0, octets.value.0))
  }

  /** The last arc of the SHA-2 identifiers, 2.16.840.1.101.3.4.2. */
  function Arc(m: Mode): Byte
    requires InfoSize(m) == 19
  {
    match m
    case SHA2_256 => 1
    case SHA2_384 => 2
    case SHA2_512 => 3
    case SHA2_224 => 4
    case SHA2_512_224 => 5
    case SHA2_512_256 => 6
  }

  /** The object identifier of a mode. */
  function Oid(m: Mode): seq<Byte>
    requires Fetched(m) && m != MD5_SHA1
  {
    match m
    case MD5 => [0x2a, 0x86, 0x48, 0x86, 0xf7, 0x0d, 0x02, 0x05]
    case SHA1 => [0x2b, 0x0e, 0x03, 0x02, 0x1a]
    case SHA2_224 | SHA2_256 | SHA2_384 | SHA2_512 | SHA2_512_224 | SHA2_512_256 =>
      [0x60, 0x86, 0x48, 0x01, 0x65, 0x03, 0x04, 0x02, Arc(m)]
  }

  /** Element by element: tag, length, contents, rest. */
  lemma ElementOf(tag: Byte, len: Byte, body: seq<Byte>, rest: seq<Byte>)
    requires |body| == len < 128
    ensures Element(tag, [tag, len] + body + rest) == Some((body, rest))
  {
    var e := [tag, len] + body + rest;
    assert e[2..2 + len] == body && e[2 + len..] == rest;
  }

  /** The two nested sequences around an identifier and a hash. */
  function Wrap(oid: seq<Byte>, hash: seq<Byte>): seq<Byte>
    requires |oid| + |hash| < 100
  {
    var alg := [0x06, |oid|] + oid + [0x05, 0x00];
    var info := [0x30, |alg|] + alg + ([0x04, |hash|] + hash);
    [0x30, |info|] + info
  }

  lemma WrapIsDer(oid: seq<Byte>, hash: seq<Byte>)
    requires |oid| + |hash| < 100
    ensures ParseDer(Wrap(oid, hash)) == Some((oid, hash))
  {
    var alg := [0x06, |oid|] + oid + [0x05, 0x00];
    var octets := [0x04, |hash|] + hash;
    var info := [0x30, |alg|] + alg + octets;
    ElementOf(0x06, |oid|, oid, [0x05, 0x00]);
    ElementOf(0x04, |hash|, hash, []);
    assert octets == octets + [];
    ElementOf(0x30, |alg|, alg, octets);
    ElementOf(0x30, |info|, info, []);
    assert Wrap(oid, hash) == [0x30, |info|] + info + [];
  }

  /** Everything of the encoding that comes before the hash. */
  function Frame(oid: seq<Byte>, hashLen: nat): seq<Byte>
    requires |oid| + hashLen < 100
  {
    [0x30, |oid| + 8 + hashLen, 0x30, |oid| + 4, 0x06, |oid|] + oid + [0x05, 0x00, 0x04, hashLen]
  }

  lemma FrameWraps(oid: seq<Byte>, hash: seq<Byte>)
    requires |oid| + |hash| < 100
    ensures Frame(oid, |hash|) + hash == Wrap(oid, hash)
  {
  }

  lemma Sha2Frame(arc: Byte, hashLen: Byte)
    requires hashLen <= 64
    ensures Sha2Row(17 + hashLen, arc, hashLen) == Frame([0x60, 0x86, 0x48, 0x01, 0x65, 0x03, 0x04, 0x02, arc], hashLen)
  {
  }

  lemma RowIsFrame(m: Mode)
    requires Fetched(m) && m != MD5_SHA1
    ensures |Oid(m)| + HashLen(m) < 100 && Row(InfoIndex(m).value) == Frame(Oid(m), HashLen(m))
  {
    if m == MD5 {
      Md5Frame();
    } else if m == SHA1 {
      Sha1Frame();
    } else {
      Sha2Parts(m);
      Sha2Frame(Arc(m), HashLen(m));
    }
  }

  lemma Sha2Parts(m: Mode)
    requires InfoSize(m) == 19
    ensures Fetched(m) && HashLen(m) <= 64 && |Oid(m)| == 9
    ensures Row(InfoIndex(m).value) == Sha2Row(17 + HashLen(m), Arc(m), HashLen(m))
    ensures Oid(m) == [0x60, 0x86, 0x48, 0x01, 0x65, 0x03, 0x04, 0x02, Arc(m)]
  {
  }

  lemma Md5Frame()
    ensures Row(IndexMd5) == Frame(Oid(MD5), 16)
  {
  }

  lemma Sha1Frame()
    ensures Row(IndexSha1) == Frame(Oid(SHA1), 20)
  {
  }

  /** The prefixes as RFC 8017 lists them in the notes to section 9.2. */
  lemma Prefixes()
    ensures Row(IndexMd5) ==
      [0x30, 0x20, 0x30, 0x0c, 0x06, 0x08, 0x2a, 0x86, 0x48, 0x86, 0xf7, 0x0d, 0x02, 0x05, 0x05, 0x00, 0x04, 0x10]
    ensures Row(IndexSha1) == [0x30, 0x21, 0x30, 0x09, 0x06, 0x05, 0x2b, 0x0e, 0x03, 0x02, 0x1a, 0x05, 0x00, 0x04, 0x14]
    ensures Row(IndexSha224) ==
      [0x30, 0x2d, 0x30, 0x0d, 0x06, 0x09, 0x60, 0x86, 0x48, 0x01, 0x65, 0x03, 0x04, 0x02, 0x04, 0x05, 0x00, 0x04, 0x1c]
    ensures Row(IndexSha256) ==
      [0x30, 0x31, 0x30, 0x0d, 0x06, 0x09, 0x60, 0x86, 0x48, 0x01, 0x65, 0x03, 0x04, 0x02, 0x01, 0x05, 0x00, 0x04, 0x20]
    ensures Row(IndexSha384) ==
      [0x30, 0x41, 0x30, 0x0d, 0x06, 0x09, 0x60, 0x86, 0x48, 0x01, 0x65, 0x03, 0x04, 0x02, 0x02, 0x05, 0x00, 0x04, 0x30]
    ensures Row(IndexSha512) ==
      [0x30, 0x51, 0x30, 0x0d, 0x06, 0x09, 0x60, 0x86, 0x48, 0x01, 0x65, 0x03, 0x04, 0x02, 0x03, 0x05, 0x00, 0x04, 0x40]
    ensures Row(IndexSha512_224) ==
      [0x30, 0x2d, 0x30, 0x0d, 0x06, 0x09, 0x60, 0x86, 0x48, 0x01, 0x65, 0x03, 0x04, 0x02, 0x05, 0x05, 0x00, 0x04, 0x1c]
    ensures Row(IndexSha512_256) ==
      [0x30, 0x31, 0x30, 0x0d, 0x06, 0x09, 0x60, 0x86, 0x48, 0x01, 0x65, 0x03, 0x04, 0x02, 0x06, 0x05, 0x00, 0x04, 0x20]
    ensures Row(IndexMd5Sha1) == []
  {
  }

  /** The encoding of a hash is the prefix of its mode and the hash. */
  lemma EncodedWith(m: Mode, hash: seq<Byte>)
    requires Fetched(m)
    ensures Encode(m, hash) == (match m
      case MD5 => Row(IndexMd5)
      case SHA1 => Row(IndexSha1)
      case MD5_SHA1 => Row(IndexMd5Sha1)
      case SHA2_224 => Row(IndexSha224)
      case SHA2_256 => Row(IndexSha256)
      case SHA2_384 => Row(IndexSha384)
      case SHA2_512 => Row(IndexSha512)
      case SHA2_512_224 => Row(IndexSha512_224)
      case SHA2_512_256 => Row(IndexSha512_256)) + hash
  {
  }

  /** A row followed by a hash of the right length is well-formed DER naming its algorithm. */
  lemma RowIsDer(m: Mode, hash: seq<Byte>)
    requires Fetched(m) && m != MD5_SHA1 && |hash| == HashLen(m)
    ensures ParseDer(Encode(m, hash)) == Some((Oid(m), hash))
  {
    RowIsFrame(m);
    FrameWraps(Oid(m), hash);
    WrapIsDer(Oid(m), hash);
  }
}
