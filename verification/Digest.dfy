/**
 Block-buffered message digests: the update that SHA-2 and SHA-3 share, their padding and
 finalisation, the sponge's squeezing, and the demonstration programs that feed a message in
 chunks and squeeze byte by byte. Compression function and permutation are any functions.
 */
module Digest {
  import opened Bytes
  import opened Octets
  import opened Errors

  // ------------------------------------------------------------------ absorbing whole blocks

  /** The state after the whole blocks of data; what does not fill a block has no effect. */
  function Absorb<S>(f: (S, seq<Byte>) -> S, B: nat, st: S, data: seq<Byte>): S
    requires B > 0
    decreases |data|
  {
    if |data| < B then st else Absorb(f, B, f(st, data[..B]), data[B..])
  }

  /** The bytes after the whole blocks. */
  function Tail(B: nat, data: seq<Byte>): (t: seq<Byte>)
    requires B > 0
    ensures |t| < B && |t| <= |data|
    decreases |data|
  {
    if |data| < B then data else Tail(B, data[B..])
  }

  /** Feeding b after a: only the tail of a still matters. */
  lemma {:induction false} AbsorbMore<S>(f: (S, seq<Byte>) -> S, B: nat, st: S, a: seq<Byte>, b: seq<Byte>)
    requires B > 0
    ensures Absorb(f, B, st, a + b) == Absorb(f, B, Absorb(f, B, st, a), Tail(B, a) + b)
    ensures Tail(B, a + b) == Tail(B, Tail(B, a) + b)
    decreases |a|
  {
    if |a| >= B {
      assert (a + b)[..B] == a[..B] && (a + b)[B..] == a[B..] + b;
      AbsorbMore(f, B, f(st, a[..B]), a[B..], b);
    }
  }

  /** The whole blocks are the length divided and multiplied again. */
  lemma {:induction false} TailLength(B: nat, data: seq<Byte>)
    requires B > 0
    ensures |data| / B * B == |data| - |Tail(B, data)|
    decreases |data|
  {
    if |data| < B {
      DivModUnique(|data|, 0, |data|, B);
    } else {
      TailLength(B, data[B..]);
      var q, t := |data[B..]| / B, |Tail(B, data)|;
      assert (q + 1) * B == q * B + B;
      DivModUnique(|data|, q + 1, t, B);
    }
  }

  lemma {:induction false} TailSlices(B: nat, data: seq<Byte>, size: nat)
    requires B > 0 && size == |data| - |Tail(B, data)|
    ensures data[size..] == Tail(B, data) && Tail(B, data[..size]) == []
    decreases |data|
  {
    if |data| >= B {
      var rest := data[B..];
      TailSlices(B, rest, size - B);
      assert rest[size - B..] == data[size..];
      assert data[..size][B..] == rest[..size - B];
    }
  }

  /** Absorbing is the compression of one block after the other. */
  lemma AbsorbBlocks<S>(f: (S, seq<Byte>) -> S, B: nat, st: S, a: seq<Byte>, b: seq<Byte>, n: nat)
    requires B > 0 && |a| == n * B && |b| == B
    ensures Absorb(f, B, st, []) == st && Absorb(f, B, st, a + b) == f(Absorb(f, B, st, a), b)
  {
    hide Absorb, Tail;
    DivModUnique(|a|, n, 0, B);
    TailLength(B, a);
    AbsorbMore(f, B, st, a, b);
    AbsorbOne(f, B, Absorb(f, B, st, a), b);
    AbsorbNone(f, B, st);
    assert Tail(B, a) == [] && [] + b == b;
  }

  lemma AbsorbOne<S>(f: (S, seq<Byte>) -> S, B: nat, st: S, b: seq<Byte>)
    requires |b| == B > 0
    ensures Absorb(f, B, st, b) == f(st, b)
  {
    assert b[..B] == b && b[B..] == [];
  }

  lemma AbsorbNone<S>(f: (S, seq<Byte>) -> S, B: nat, st: S)
    requires B > 0
    ensures Absorb(f, B, st, []) == st
  {
  }

  // ------------------------------------------------------------------ the buffered digest

  /** State, buffer and counters that Sha2 and Sha3 have in common. */
  class BlockBuffer<S> {
    const f: (S, seq<Byte>) -> S
    const B: nat
    const init: S
    var state: S
    const buffer: array<Byte>
    var idx: nat
    var msgLen: nat
    var finished: bool
    ghost var fed: seq<Byte>         // everything updated so far

    ghost predicate Valid()
      reads this, buffer
    {
      && 0 < B && buffer.Length == 2 * B
      && state == Absorb(f, B, init, fed)
      && idx == |Tail(B, fed)| && buffer[..idx] == Tail(B, fed)
      && msgLen == |fed| % TWO64
    }

    constructor (f: (S, seq<Byte>) -> S, B: nat, init: S)
      requires B > 0
      ensures Valid() && fresh(buffer) && fed == [] && !finished
      ensures this.f == f && this.B == B && this.init == init
    {
      this.f, this.B, this.init, state := f, B, init, init;
      buffer := new Byte[2 * B](_ => 0);
      idx, msgLen, finished, fed := 0, 0, false, [];
    }

    /** A copy with a buffer of its own. */
    constructor Copy(src: BlockBuffer<S>)
      requires src.Valid()
      ensures Valid() && fresh(buffer) && fed == src.fed && finished == src.finished
      ensures this.f == src.f && this.B == src.B && this.init == src.init
    {
      f, B, init, state := src.f, src.B, src.init, src.state;
      buffer := new Byte[2 * src.B](i requires 0 <= i < src.buffer.Length reads src.buffer => src.buffer[i]);
      idx, msgLen, finished, fed := src.idx, src.msgLen, src.finished, src.fed;
      new;
      assert buffer[..idx] == src.buffer[..idx];
    }

    /** Appends to the buffer at offset `at`. */
    method CopyBytes(at: nat, src: seq<Byte>)
      requires at + |src| <= buffer.Length
      modifies buffer
      ensures buffer[..at] == old(buffer[..at]) && buffer[at..at + |src|] == src
      ensures buffer[..at + |src|] == old(buffer[..at]) + src
    {
      for i := 0 to |src|
        invariant buffer[at..at + i] == src[..i] && buffer[..at] == old(buffer[..at])
      {
        buffer[at + i] := src[i];
      }
      assert buffer[..at + |src|] == buffer[..at] + buffer[at..at + |src|];
    }

    /** Runs the compression over whole blocks. */
    method ProcessChunk(src: seq<Byte>)
      requires B > 0 && Tail(B, src) == []
      modifies `state
      ensures state == Absorb(f, B, old(state), src)
    {
      var p := 0;
      assert src[0..] == src;
      while p < |src|
        invariant p <= |src| && Tail(B, src[p..]) == []
        invariant Absorb(f, B, state, src[p..]) == Absorb(f, B, old(state), src)
      {
        var rest := src[p..];
        state := f(state, src[p..p + B]);
        assert rest[..B] == src[p..p + B] && rest[B..] == src[p + B..];
        p := p + B;
      }
    }

    method Update(src: seq<Byte>) returns (err: Error)
      requires Valid()
      modifies this, buffer
      ensures Valid() && finished == old(finished)
      ensures err == if old(finished) then INVALID_ARG else NONE
      ensures fed == if old(finished) then old(fed) else old(fed) + src
    {
      if finished { return INVALID_ARG; }
      err := NONE;
      AbsorbMore(f, B, init, fed, src);
      LengthAdds(|fed|, |src|);
      if |src| == 0 {
        assert fed + src == fed;
        return;
      }
      msgLen := (msgLen + |src|) % TWO64;
      ghost var data := Tail(B, fed) + src;
      fed := fed + src;
      if |src| + idx < B {
        CopyBytes(idx, src);
        idx := idx + |src|;
        return;
      }
      var p := FillBuffer(src, data);
      Drain(src[p..]);
    }

    /** A partial block left by earlier calls is completed from the front of src and processed. */
    method FillBuffer(src: seq<Byte>, ghost data: seq<Byte>) returns (p: nat)
      requires 0 < B && buffer.Length == 2 * B && idx < B && |src| + idx >= B
      requires data == buffer[..idx] + src
      modifies `state, buffer
      ensures p <= |src| && Tail(B, src[p..]) == Tail(B, data)
      ensures Absorb(f, B, state, src[p..]) == Absorb(f, B, old(state), data)
    {
      if idx == 0 {
        assert data == src == src[0..];
        return 0;
      }
      p := Min(|src|, B - idx);
      CopyBytes(idx, src[..p]);
      assert buffer[..B] == data[..B] && data[B..] == src[p..];
      OneBlock(f, B, state, buffer[..B]);
      ProcessChunk(buffer[..B]);
    }

    /** The whole blocks are processed from the caller's memory, the tail is buffered. */
    method Drain(rest: seq<Byte>)
      requires 0 < B && buffer.Length == 2 * B
      modifies `state, `idx, buffer
      ensures state == Absorb(f, B, old(state), rest)
      ensures idx == |Tail(B, rest)| && buffer[..idx] == Tail(B, rest)
    {
      TailLength(B, rest);
      var size := |rest| / B * B;
      WholePart(f, B, state, rest, size);
      ProcessChunk(rest[..size]);
      CopyBytes(0, rest[size..]);
      idx := |rest[size..]|;
    }
  }

  lemma LengthAdds(a: nat, b: nat)
    ensures (a % TWO64 + b) % TWO64 == (a + b) % TWO64
  {
  }

  lemma OneBlock<S>(f: (S, seq<Byte>) -> S, B: nat, st: S, block: seq<Byte>)
    requires |block| == B > 0
    ensures Absorb(f, B, st, block) == f(st, block) && Tail(B, block) == []
  {
    assert block[..B] == block && block[B..] == [];
  }

  lemma WholePart<S>(f: (S, seq<Byte>) -> S, B: nat, st: S, rest: seq<Byte>, size: nat)
    requires B > 0 && size == |rest| - |Tail(B, rest)|
    ensures Absorb(f, B, st, rest[..size]) == Absorb(f, B, st, rest) && rest[size..] == Tail(B, rest)
    ensures Tail(B, rest[..size]) == []
  {
    TailSlices(B, rest, size);
    assert rest == rest[..size] + rest[size..];
    AbsorbMore(f, B, st, rest[..size], rest[size..]);
  }

  // ------------------------------------------------------------------ SHA-2

  /** Section 5.1.1 of FIPS 180-4, in bytes: a one bit, zeros, and the length in 64 bits. */
  function PadSha2(n: nat): seq<Byte> {
    [0x80] + Zeros((119 - n % 64) % 64) + ToBe(8 * n % TWO64, 8)
  }

  /** The padding spelled out: whole blocks with the message, 0x80, zeros, and the number of bits in
      eight bytes, the most significant first. */
  lemma PaddedSha2(n: nat)
    ensures var q := PadSha2(n);
      && (n + |q|) % 64 == 0 && 9 <= |q| <= 72 && q[0] == 0x80
      && (forall i :: 1 <= i < |q| - 8 ==> q[i] == 0)
      && FromBe(q[|q| - 8..]) == 8 * n % 0x1_0000_0000_0000_0000
  {
    var q := PadSha2(n);
    var bits := 8 * n % 0x1_0000_0000_0000_0000;
    assert q[|q| - 8..] == ToBe(bits, 8);
    PaddedBlocks(n);
    assert Pow256(4) == 0x1_0000_0000;
    assert Pow256(8) == 0x1_0000_0000 * Pow256(4);
    FromToBe(bits, 8);
  }

  lemma PaddedBlocks(n: nat)
    ensures (n + 9 + (119 - n % 64) % 64) % 64 == 0
  {
  }

  class Sha256 {
    const core: BlockBuffer<seq<Byte>>
    const digestLen: nat
    const output: seq<Byte> -> seq<Byte>

    ghost predicate Valid()
      reads this, core, core.buffer
    {
      core.B == 64 && (!core.finished ==> core.Valid())
    }

    constructor (f: (seq<Byte>, seq<Byte>) -> seq<Byte>, init: seq<Byte>, digestLen: nat, output: seq<Byte> -> seq<Byte>)
      ensures Valid() && fresh(core) && fresh(core.buffer) && core.fed == [] && !core.finished
      ensures core.f == f && core.init == init && this.digestLen == digestLen && this.output == output
    {
      core := new BlockBuffer(f, 64, init);
      this.digestLen, this.output := digestLen, output;
    }

    /** Pads in the double-size buffer; the digest is that of the padded message. */
    method Finalize(buf: bool, size: nat) returns (err: Error, digest: seq<Byte>)
      requires Valid()
      modifies core, core.buffer
      ensures Valid() && core.fed == old(core.fed)
      ensures err == if !buf || size != digestLen then INVALID_ARG else NONE
      ensures core.finished == (old(core.finished) || err == NONE)
      ensures err == NONE && !old(core.finished) ==>
        digest == output(Absorb(core.f, 64, core.init, core.fed + PadSha2(|core.fed|)))
    {
      digest := [];
      if !buf || size != digestLen { return INVALID_ARG, []; }
      if core.finished { return NONE, []; }
      ghost var fed := core.fed;
      var idx := core.idx;
      PaddedLength(fed, idx);
      AbsorbMore(core.f, 64, core.init, fed, PadSha2(|fed|));
      core.CopyBytes(idx, [0x80]);
      idx := idx + 1;
      var blockSize := if idx <= 56 then 64 else 128;
      core.CopyBytes(idx, Zeros(blockSize - idx - 8));
      core.CopyBytes(blockSize - 8, ToBe(core.msgLen * 8 % TWO64, 8));
      LengthField(|fed|);
      assert core.buffer[..blockSize] == Tail(64, fed) + PadSha2(|fed|);
      core.ProcessChunk(core.buffer[..blockSize]);
      digest := output(core.state);
      core.idx, core.finished := 0, true;
      err := NONE;
    }
  }

  lemma LengthField(n: nat)
    ensures n % TWO64 * 8 % TWO64 == 8 * n % TWO64
  {
    var q, r := n / 0x1_0000_0000_0000_0000, n % 0x1_0000_0000_0000_0000;
    var a, b := 8 * r / 0x1_0000_0000_0000_0000, 8 * r % 0x1_0000_0000_0000_0000;
    assert 8 * n == (8 * q + a) * 0x1_0000_0000_0000_0000 + b;
  }

  /** The tail and its padding fill one block, or two when the tail leaves no room for the length. */
  lemma PaddedLength(fed: seq<Byte>, idx: nat)
    requires idx == |Tail(64, fed)|
    ensures |fed| % 64 == idx
    ensures |Tail(64, fed) + PadSha2(|fed|)| == if idx < 56 then 64 else 128
    ensures Tail(64, Tail(64, fed) + PadSha2(|fed|)) == []
  {
    hide Absorb, ToBe;
    TailLength(64, fed);
    var padded := Tail(64, fed) + PadSha2(|fed|);
    if idx < 56 {
      assert padded[64..] == [];
    } else {
      assert padded[64..][64..] == [];
    }
  }

  // ------------------------------------------------------------------ the sponge

  type Lanes = s: seq<Byte> | |s| == 200 witness seq(200, _ => 0)

  /** Byte i of the unbounded output: the first B bytes of the state, then those after a permutation. */
  function StreamByte(perm: Lanes -> Lanes, B: nat, st: Lanes, i: nat): Byte
    requires 0 < B <= 200
    decreases i
  {
    if i < B then st[i] else StreamByte(perm, B, perm(st), i - B)
  }

  /** Bytes pos to pos + n of the output. */
  function Squeezed(perm: Lanes -> Lanes, B: nat, st: Lanes, pos: nat, n: nat): (out: seq<Byte>)
    requires 0 < B <= 200
    ensures |out| == n
  {
    seq<Byte>(n, j requires 0 <= j < n => StreamByte(perm, B, st, pos + j))
  }

  /** The output of st is the output of base from byte `start` on. */
  ghost predicate Continues(perm: Lanes -> Lanes, B: nat, base: Lanes, start: nat, st: Lanes)
    requires 0 < B <= 200
  {
    forall i: nat :: StreamByte(perm, B, st, i) == StreamByte(perm, B, base, start + i)
  }

  lemma ContinuesNext(perm: Lanes -> Lanes, B: nat, base: Lanes, start: nat, st: Lanes)
    requires 0 < B <= 200 && Continues(perm, B, base, start, st)
    ensures Continues(perm, B, base, start + B, perm(st))
  {
    forall i: nat ensures StreamByte(perm, B, perm(st), i) == StreamByte(perm, B, base, start + B + i) {
      assert StreamByte(perm, B, st, B + i) == StreamByte(perm, B, perm(st), i);
    }
  }

  /** What one copy out of a state contributes. */
  lemma FromState(perm: Lanes -> Lanes, B: nat, base: Lanes, start: nat, st: Lanes, from: nat, n: nat)
    requires 0 < B <= 200 && Continues(perm, B, base, start, st) && from + n <= B
    ensures Squeezed(perm, B, base, start + from, n) == st[from..from + n]
  {
    var out := Squeezed(perm, B, base, start + from, n);
    forall j | 0 <= j < n ensures out[j] == st[from + j] {
      assert StreamByte(perm, B, st, from + j) == StreamByte(perm, B, base, start + (from + j));
    }
  }

  lemma SqueezedTwice(perm: Lanes -> Lanes, B: nat, st: Lanes, pos: nat, a: nat, b: nat)
    requires 0 < B <= 200
    ensures Squeezed(perm, B, st, pos, a) + Squeezed(perm, B, st, pos + a, b) == Squeezed(perm, B, st, pos, a + b)
  {
  }

  /** The state after k permutations. */
  function Permuted(perm: Lanes -> Lanes, st: Lanes, k: nat): Lanes
    decreases k
  {
    if k == 0 then st else Permuted(perm, perm(st), k - 1)
  }

  /** Output byte i is byte i modulo B of the state after i / B permutations. */
  lemma {:induction false} StreamByteAt(perm: Lanes -> Lanes, B: nat, st: Lanes, k: nat, r: nat)
    requires 0 < B <= 200 && r < B
    ensures StreamByte(perm, B, st, k * B + r) == Permuted(perm, st, k)[r]
    decreases k
  {
    if k > 0 {
      assert k * B + r == (k - 1) * B + r + B;
      MoreThan(k, B);
      StreamByteAt(perm, B, perm(st), k - 1, r);
    }
  }

  lemma MoreThan(k: nat, B: nat)
    requires k > 0
    ensures k * B >= B
  {
  }

  /** Padding of FIPS 202 for a tail of n bytes: suffix bits, the first and the last bit of pad10*1. */
  function PadSha3(B: nat, n: nat, suffix: Byte): seq<Byte>
    requires n < B && suffix < 128
  {
    if n == B - 1 then [suffix + 128] else [suffix] + Zeros(B - n - 2) + [128]
  }

  /** The state from which output is squeezed. */
  ghost function SpongeState(core: BlockBuffer<Lanes>, suffix: Byte): Lanes
    requires core.B > 0 && suffix < 128
    reads core
  {
    Absorb(core.f, core.B, core.init, core.fed + PadSha3(core.B, |Tail(core.B, core.fed)|, suffix))
  }

  /** The last block: what is buffered and its padding. */
  ghost function LastBlock(core: BlockBuffer<Lanes>, suffix: Byte): (block: seq<Byte>)
    requires core.B > 0 && suffix < 128
    reads core
    ensures |block| == core.B
  {
    Tail(core.B, core.fed) + PadSha3(core.B, |Tail(core.B, core.fed)|, suffix)
  }

  lemma LastBlockSponge(core: BlockBuffer<Lanes>, suffix: Byte)
    requires core.Valid() && suffix < 128
    ensures core.f(core.state, LastBlock(core, suffix)) == SpongeState(core, suffix)
  {
    AbsorbMore(core.f, core.B, core.init, core.fed, PadSha3(core.B, core.idx, suffix));
    OneBlock(core.f, core.B, core.state, LastBlock(core, suffix));
  }

  /**
   What a hash absorbs: the message and bytes q up to whole blocks. They start with 0x06 for SHA-3
   and 0x1f for SHAKE and end with 0x80; in between are zeros, and a single byte is the sum.
   */
  lemma SpongeInput(d: Sha3) returns (q: seq<Byte>)
    requires d.core.B > 0
    ensures SpongeState(d.core, d.suffix) == Absorb(d.core.f, d.core.B, d.core.init, d.core.fed + q)
    ensures LastBlock(d.core, d.suffix) == Tail(d.core.B, d.core.fed) + q
    ensures |d.core.fed + q| % d.core.B == 0 && 0 < |q| <= d.core.B
    ensures |q| == 1 ==> q == [if d.shake then 0x9f else 0x86]
    ensures |q| > 1 ==> q[0] == (if d.shake then 0x1f else 0x06) && q[|q| - 1] == 0x80
    ensures forall i :: 0 < i < |q| - 1 ==> q[i] == 0
  {
    var B, fed := d.core.B, d.core.fed;
    q := PadSha3(B, |Tail(B, fed)|, d.suffix);
    TailLength(B, fed);
    var k := |fed| / B;
    assert |fed + q| == (k + 1) * B + 0 by { assert (k + 1) * B == k * B + B; }
    DivModUnique(|fed + q|, k + 1, 0, B);
  }

  class Sha3 {
    const core: BlockBuffer<Lanes>
    const perm: Lanes -> Lanes
    const shake: bool
    const digestLen: nat
    var shakeIndex: nat
    var squeezing: bool
    ghost var base: Lanes            // the state at the start of the output
    ghost var pos: nat               // bytes squeezed since

    const suffix: Byte := if shake then 0x1f else 0x06

    ghost predicate Valid()
      reads this, core, core.buffer
    {
      && 0 < core.B <= 200 && core.buffer.Length == 2 * core.B && (shake || digestLen <= core.B)
      && (!squeezing && !core.finished ==> core.Valid() && shakeIndex == 0)
      && (squeezing ==> shake && shakeIndex <= core.B && shakeIndex <= pos
                        && Continues(perm, core.B, base, pos - shakeIndex, core.state))
      && (squeezing && !core.finished ==> Buffered())
    }

    /** The rest of the message is still in the buffer. */
    ghost predicate Buffered()
      requires core.B > 0
      reads core, core.buffer
    {
      core.buffer.Length == 2 * core.B && core.idx == |Tail(core.B, core.fed)|
      && core.buffer[..core.idx] == Tail(core.B, core.fed)
    }

    constructor (f: (Lanes, seq<Byte>) -> Lanes, perm: Lanes -> Lanes, B: nat, shake: bool, digestLen: nat)
      requires 0 < B <= 200 && (shake || digestLen <= B)
      ensures Valid() && fresh(core) && fresh(core.buffer) && core.fed == [] && !core.finished && !squeezing
      ensures core.f == f && this.perm == perm && core.B == B && core.init == Zeros(200) && this.shake == shake
      ensures this.digestLen == digestLen
    {
      core := new BlockBuffer(f, B, Zeros(200));
      this.perm, this.shake, this.digestLen := perm, shake, digestLen;
      shakeIndex, squeezing, base, pos := 0, false, Zeros(200), 0;
    }

    /** The copy constructor, before any output was taken. */
    constructor Copy(src: Sha3)
      requires src.Valid() && !src.squeezing && !src.core.finished
      ensures Valid() && fresh(core) && fresh(core.buffer) && core.fed == src.core.fed && !core.finished && !squeezing
      ensures core.f == src.core.f && perm == src.perm && core.B == src.core.B && core.init == src.core.init
      ensures shake == src.shake && digestLen == src.digestLen
    {
      core := new BlockBuffer.Copy(src.core);
      perm, shake, digestLen := src.perm, src.shake, src.digestLen;
      shakeIndex, squeezing, base, pos := 0, false, Zeros(200), 0;
    }

    /** Copies n bytes out of the state. */
    method CopyOut(n: nat) returns (out: seq<Byte>)
      requires Valid() && squeezing && shakeIndex + n <= core.B
      modifies `shakeIndex, `pos
      ensures Valid() && shakeIndex == old(shakeIndex) + n && pos == old(pos) + n
      ensures out == Squeezed(perm, core.B, base, old(pos), n)
    {
      FromState(perm, core.B, base, pos - shakeIndex, core.state, shakeIndex, n);
      out := core.state[shakeIndex..shakeIndex + n];
      shakeIndex, pos := shakeIndex + n, pos + n;
    }

    /** Permutes once a block of output is used up. */
    method Permute()
      requires Valid() && squeezing && shakeIndex == core.B
      modifies core`state, `shakeIndex
      ensures Valid() && shakeIndex == 0
    {
      ContinuesNext(perm, core.B, base, pos - shakeIndex, core.state);
      core.state := perm(core.state);
      shakeIndex := 0;
    }

    /** Takes size bytes of output. */
    method SqueezeChunk(size: nat) returns (out: seq<Byte>)
      requires Valid() && squeezing
      modifies core`state, `shakeIndex, `pos
      ensures Valid() && out == Squeezed(perm, core.B, base, old(pos), size) && pos == old(pos) + size
    {
      ghost var p0 := pos;
      out := CopyOut(Min(size, core.B - shakeIndex));
      while |out| < size
        invariant Valid() && |out| <= size && pos == p0 + |out|
        invariant |out| < size ==> shakeIndex == core.B
        invariant out == Squeezed(perm, core.B, base, p0, |out|)
      {
        Permute();
        var n := Min(size - |out|, core.B);
        var part := CopyOut(n);
        SqueezedTwice(perm, core.B, base, p0, |out|, n);
        out := out + part;
      }
    }

    /** Pads and absorbs the last block, on whatever the state is. */
    method PadAndProcess()
      requires 0 < core.B <= 200 && Buffered()
      modifies core`state, core.buffer
      ensures core.state == core.f(old(core.state), LastBlock(core, suffix)) && Buffered()
    {
      var B, idx := core.B, core.idx;
      ghost var tail := Tail(B, core.fed);
      core.CopyBytes(idx, Zeros(B - idx));
      core.buffer[idx] := suffix;
      // the bit at the top of the last byte; the suffix leaves it clear
      core.buffer[B - 1] := core.buffer[B - 1] + 128;
      assert core.buffer[..B] == LastBlock(core, suffix);
      OneBlock(core.f, B, core.state, core.buffer[..B]);
      core.ProcessChunk(core.buffer[..B]);
      assert core.buffer[..idx] == core.buffer[..B][..idx] == tail;
    }

    /** The state changes, the output goes on at the position in the block where it stood. */
    method ProcessAndSqueeze(size: nat) returns (out: seq<Byte>)
      requires Valid() && !core.finished && (!shake ==> size == digestLen)
      modifies this, core`state, core.buffer
      ensures base == core.f(old(core.state), LastBlock(core, suffix))
      ensures out == Squeezed(perm, core.B, base, old(shakeIndex), size)
      ensures !old(squeezing) ==> base == SpongeState(core, suffix)
      ensures shake ==> Valid() && squeezing && pos == old(shakeIndex) + size
      ensures !shake ==> !squeezing
    {
      if !squeezing {
        LastBlockSponge(core, suffix);
      }
      PadAndProcess();
      base, pos := core.state, shakeIndex;
      if shake {
        squeezing := true;
        out := SqueezeChunk(size);
      } else {
        FromState(perm, core.B, base, 0, core.state, 0, size);
        out := core.state[..size];
      }
    }

    /**
     One output of the given length; a second call writes nothing. After output was squeezed the
     last block is absorbed once more, and the output goes on inside the state that results.
     */
    method Finalize(buf: bool, size: nat) returns (err: Error, out: seq<Byte>)
      requires Valid()
      modifies this, core, core.buffer
      ensures Valid() && core.fed == old(core.fed)
      ensures err == if old(core.finished) then NONE
                     else if !buf || (if shake then size == 0 else size != digestLen) then INVALID_ARG else NONE
      ensures err == NONE && !old(core.finished) && !old(squeezing) ==>
        out == Squeezed(perm, core.B, SpongeState(core, suffix), 0, size)
      ensures err == NONE && !old(core.finished) && old(squeezing) ==>
        out == Squeezed(perm, core.B, core.f(old(core.state), LastBlock(core, suffix)), old(shakeIndex), size)
      ensures err != NONE || old(core.finished) ==> out == []
      ensures core.finished == (old(core.finished) || (if shake then size != 0 else size == digestLen))
    {
      out := [];
      if core.finished { return NONE, []; }
      if if shake then size == 0 else size != digestLen { return INVALID_ARG, []; }
      err := INVALID_ARG;
      if buf {
        out := ProcessAndSqueeze(size);
        err := NONE;
      }
      core.idx, core.finished := 0, true;
    }

    /** Further output of a SHAKE; the first call pads. */
    method ShakeSqueeze(buf: bool, size: nat) returns (err: Error, out: seq<Byte>)
      requires Valid()
      modifies this, core`state, core.buffer
      ensures Valid() && core.fed == old(core.fed) && core.finished == old(core.finished)
      ensures err == if !shake || core.finished then NOT_PERMITTED else if !buf then INVALID_ARG else NONE
      ensures err == NONE ==> squeezing && base == if old(squeezing) then old(base) else SpongeState(core, suffix)
      ensures err == NONE ==> out == Squeezed(perm, core.B, base, if old(squeezing) then old(pos) else 0, size)
      ensures err == NONE ==> pos == size + if old(squeezing) then old(pos) else 0
    {
      out := [];
      if !shake || core.finished { return NOT_PERMITTED, []; }
      if !buf { return INVALID_ARG, []; }
      if !squeezing {
        out := ProcessAndSqueeze(size);
      } else {
        out := SqueezeChunk(size);
      }
      err := NONE;
    }
  }

  // ------------------------------------------------------------------ the demonstrations

  /** Feeds a message cut into numChunks equal chunks and what is left; with more chunks than
      bytes the chunks are empty. */
  method FeedChunks<S>(core: BlockBuffer<S>, src: seq<Byte>, numChunks: nat) returns (err: Error)
    requires core.Valid() && !core.finished && numChunks > 0
    modifies core, core.buffer
    ensures core.Valid() && !core.finished && core.fed == old(core.fed) + src && err == NONE
  {
    var bufSize, lastBufSize := |src| / numChunks, |src| % numChunks;
    TimesIsProduct(numChunks, bufSize);
    err := FeedCut(core, src, numChunks, bufSize, lastBufSize);
  }

  /** The update loop of both programs. */
  method FeedCut<S>(core: BlockBuffer<S>, src: seq<Byte>, numChunks: nat, bufSize: nat, lastBufSize: nat) returns (err: Error)
    requires core.Valid() && !core.finished && Times(numChunks, bufSize) + lastBufSize == |src|
    modifies core, core.buffer
    ensures core.Valid() && !core.finished && core.fed == old(core.fed) + src && err == NONE
  {
    var p: nat, left: nat := 0, numChunks;
    assert old(core.fed) + src[..0] == old(core.fed);
    while left > 0
      invariant core.Valid() && !core.finished
      invariant p + Times(left, bufSize) + lastBufSize == |src|
      invariant core.fed == old(core.fed) + src[..p]
    {
      left := left - 1;
      err := FeedSlice(core, src, p, p + bufSize, old(core.fed));
      p := p + bufSize;
    }
    err := NONE;
    if lastBufSize != 0 {
      err := FeedSlice(core, src, p, p + lastBufSize, old(core.fed));
    }
    assert src[..p + lastBufSize] == src;
  }

  /** One update with the bytes p to q. */
  method FeedSlice<S>(core: BlockBuffer<S>, src: seq<Byte>, p: nat, q: nat, ghost before: seq<Byte>) returns (err: Error)
    requires core.Valid() && !core.finished && p <= q <= |src| && core.fed == before + src[..p]
    modifies core, core.buffer
    ensures core.Valid() && !core.finished && core.fed == before + src[..q] && err == NONE
  {
    assert src[..q] == src[..p] + src[p..q];
    Joined(before, src[..p], src[p..q], src[..q]);
    err := core.Update(src[p..q]);
  }

  /** The SHA-256 demonstration: the digest of the message, however it is cut. */
  method Sha256Demo(d: Sha256, src: seq<Byte>, numChunks: nat) returns (err: Error, digest: seq<Byte>)
    requires d.Valid() && !d.core.finished && d.core.fed == [] && numChunks > 0
    modifies d.core, d.core.buffer
    ensures err == NONE
    ensures digest == d.output(Absorb(d.core.f, 64, d.core.init, src + PadSha2(|src|)))
  {
    err := FeedChunks(d.core, src, numChunks);
    assert d.core.fed == src;
    err, digest := d.Finalize(true, d.digestLen);
  }

  const TWO16: nat := 0x1_0000

  /** The squeeze loop as it stands after k turns. */
  ghost predicate AfterTurns(d: Sha3, base: Lanes, k: nat, output: seq<Byte>)
    reads d, d.core, d.core.buffer
  {
    && d.Valid() && d.shake && !d.core.finished && |output| == k
    && output == Squeezed(d.perm, d.core.B, base, 0, k)
    && (k == 0 ==> !d.squeezing && SpongeState(d.core, d.suffix) == base)
    && (k > 0 ==> d.squeezing && d.base == base && d.pos == k)
  }

  /** One turn of the loop body. */
  method SqueezeOne(d: Sha3, ghost base: Lanes, ghost k: nat, output: seq<Byte>) returns (err: Error, longer: seq<Byte>)
    requires AfterTurns(d, base, k, output)
    modifies d, d.core`state, d.core.buffer
    ensures err == NONE && AfterTurns(d, base, k + 1, longer) && output <= longer
  {
    var byte;
    err, byte := d.ShakeSqueeze(true, 1);
    SqueezedTwice(d.perm, d.core.B, base, 0, k, 1);
    longer := output + byte;
  }

  /**
   The squeeze loop, one byte at a time, counted by a 16-bit index: it stops when the index has
   reached the bound, or when it has made `turns` turns. If the bound fits in 16 bits it ends with
   one output of that length. Otherwise it makes every turn it is allowed, so that no number of
   turns is enough: the loop does not end.
   */
  method SqueezeLoop(d: Sha3, outSize: nat, turns: nat) returns (err: Error, output: seq<Byte>, ended: bool)
    requires d.Valid() && d.shake && !d.squeezing && !d.core.finished
    modifies d, d.core`state, d.core.buffer
    ensures err == NONE && output == Squeezed(d.perm, d.core.B, old(SpongeState(d.core, d.suffix)), 0, |output|)
    ensures ended <==> outSize < TWO16 && outSize <= turns
    ensures |output| == if ended then outSize else turns
  {
    ghost var base := SpongeState(d.core, d.suffix);
    output, err := [], NONE;
    var i, k := 0, 0;
    while i < outSize && k < turns
      invariant AfterTurns(d, base, k, output) && err == NONE && k <= turns
      invariant i == Counter16(k) && (outSize < TWO16 ==> k <= outSize)
      decreases turns - k
    {
      err, output := SqueezeOne(d, base, k, output);
      i, k := (i + 1) % TWO16, k + 1;
    }
    ended := i >= outSize;
  }

  /** The loop of the program where the bound fits in the index: it ends by itself. */
  method SqueezeBytes(d: Sha3, outSize: nat) returns (err: Error, output: seq<Byte>)
    requires d.Valid() && d.shake && !d.squeezing && !d.core.finished && outSize < TWO16
    modifies d, d.core`state, d.core.buffer
    ensures err == NONE && output == Squeezed(d.perm, d.core.B, old(SpongeState(d.core, d.suffix)), 0, outSize)
  {
    ghost var base := SpongeState(d.core, d.suffix);
    output, err := [], NONE;
    var i := 0;
    while i < outSize
      invariant AfterTurns(d, base, i, output) && err == NONE && i <= outSize
    {
      err, output := SqueezeOne(d, base, i, output);
      i := (i + 1) % TWO16;
    }
  }

  /** The SHAKE demonstration: on a copy, byte by byte, and on the original, at once. The two
      outputs are the same, across block boundaries too; an empty one is refused at the end. */
  method ShakeDemo(d: Sha3, src: seq<Byte>, outSize: nat, numChunks: nat)
    returns (err: Error, output: seq<Byte>, outputDup: seq<Byte>)
    requires d.Valid() && d.shake && !d.squeezing && !d.core.finished && d.core.fed == []
    requires numChunks > 0 && outSize < TWO16
    modifies d, d.core, d.core.buffer
    ensures err == (if outSize == 0 then INVALID_ARG else NONE) && output == outputDup && |output| == outSize
  {
    err := FeedChunks(d.core, src, numChunks);
    var dup := new Sha3.Copy(d);
    assert SpongeState(dup.core, dup.suffix) == SpongeState(d.core, d.suffix);
    err, outputDup := SqueezeBytes(dup, outSize);
    err, output := d.Finalize(true, outSize);
  }

  /** The value of a 16-bit counter after k increments. */
  function Counter16(k: nat): (c: nat)
    ensures c < TWO16 && (k < TWO16 ==> c == k)
  {
    k % TWO16
  }
}
