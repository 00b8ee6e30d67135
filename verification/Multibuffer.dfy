/**
 The multi-buffer half of AesGenericCiphersT: multibufferInit, flush and dequeue, with the
 scheduler's own bookkeeping. Each method is proved against the schedule of MinLen.
 */
module Multibuffer {
  import opened Bytes
  import opened BlockModes
  import opened AesKernels
  import opened MinLen
  import opened Errors

  const MAX_BUFFERS: nat := 127

  /** What a call comes to: it returns, or it reads an IV behind the end of the store. */
  datatype Outcome = Returned(err: Error) | Overrun

  /** The buffer `out` after `bytes` were stored from offset off. */
  function Put(out: seq<Byte>, off: nat, bytes: seq<Byte>): (r: seq<Byte>)
    requires off + |bytes| <= |out|
    ensures |r| == |out|
  {
    out[..off] + bytes + out[off + |bytes|..]
  }

  /** Buffer contents and IV of one lane when all its runs are done. */
  ghost function Target(k: Kernel, out0: seq<Byte>, iv0: Block, data: seq<Byte>, segs: seq<nat>): (seq<Byte>, Block)
    requires Sum(segs) == |data| <= |out0|
  {
    (Emit(k, iv0, data, segs) + out0[|data|..], IvAfter(k, iv0, data, segs))
  }

  /** Carrying out the runs `cuts` from offset off onward reaches the target. */
  ghost predicate OnTrack(k: Kernel, out: seq<Byte>, iv: Block, data: seq<Byte>, off: nat, cuts: seq<nat>,
                          target: (seq<Byte>, Block)) {
    && off <= |data| <= |out| && Sum(cuts) == |data| - off
    && out[..off] + Emit(k, iv, data[off..], cuts) + out[|data|..] == target.0
    && IvAfter(k, iv, data[off..], cuts) == target.1
  }

  lemma TrackStart(k: Kernel, out: seq<Byte>, iv: Block, data: seq<Byte>, segs: seq<nat>)
    requires Sum(segs) == |data| <= |out|
    ensures OnTrack(k, out, iv, data, 0, segs, Target(k, out, iv, data, segs))
  {
    assert data[0..] == data;
    assert out[..0] + Emit(k, iv, data, segs) == Emit(k, iv, data, segs);
  }

  /** One kernel call on the first remaining run. */
  lemma TrackRun(k: Kernel, out: seq<Byte>, iv: Block, data: seq<Byte>, off: nat, cuts: seq<nat>,
                 target: (seq<Byte>, Block))
    requires OnTrack(k, out, iv, data, off, cuts, target) && cuts != []
    ensures off + cuts[0] <= |data|
    ensures var run := data[off..off + cuts[0]];
            OnTrack(k, Put(out, off, Encrypt(k.m, k.C, iv, run)),
                    WriteBack(k.multiUpdate, iv, Chain(k.m, k.C, iv, run)), data, off + cuts[0], cuts[1..], target)
  {
    var n := cuts[0];
    var run := data[off..off + n];
    var bytes := Encrypt(k.m, k.C, iv, run);
    var out' := Put(out, off, bytes);
    assert data[off..][..n] == run && data[off..][n..] == data[off + n..];
    assert out'[..off + n] == out[..off] + bytes && out'[|data|..] == out[|data|..];
    var rest := Emit(k, WriteBack(k.multiUpdate, iv, Chain(k.m, k.C, iv, run)), data[off + n..], cuts[1..]);
    assert out[..off] + (bytes + rest) + out[|data|..] == (out[..off] + bytes) + rest + out[|data|..];
  }

  lemma TrackEnd(k: Kernel, out: seq<Byte>, iv: Block, data: seq<Byte>, off: nat, target: (seq<Byte>, Block))
    requires OnTrack(k, out, iv, data, off, [], target)
    ensures off == |data| && (out, iv) == target
  {
    assert out[..off] + [] + out[off..] == out;
  }

  // ------------------------------------------------------------------ one buffer at one level

  function OffAt(len: nat, d: nat): nat {
    if Active(len, d) then d else len
  }

  /** The runs a buffer has left when the active ones stand at level d. */
  function CutsAt(lens: seq<nat>, d: nat, i: nat): seq<nat>
    requires i < |lens|
  {
    LevelsLadder(lens, d);
    if Active(lens[i], d) then Cuts(Levels(lens, d), d, lens[i]) else []
  }

  function Tail(off: nat, len: nat): seq<nat> {
    if off < len then [len - off] else []
  }

  lemma CutsAtStart(lens: seq<nat>, i: nat)
    requires i < |lens|
    ensures CutsAt(lens, 0, i) == Schedule(lens, i) && OffAt(lens[i], 0) == 0
  {
  }

  /** A common run on more than two buffers leads to the next level. */
  lemma CutsAtNext(lens: seq<nat>, d: nat, i: nat)
    requires i < |lens| && Count(lens, d) > 2 && RunLength(lens, d) > 0
    ensures var n := RunLength(lens, d);
            && (Active(lens[i], d) ==>
                  && CutsAt(lens, d, i) == [n] + CutsAt(lens, d + n, i)
                  && OffAt(lens[i], d + n) == d + n)
            && (!Active(lens[i], d) ==> CutsAt(lens, d + n, i) == [] && OffAt(lens[i], d + n) == lens[i])
  {
    var e := d + RunLength(lens, d);
    LevelsLadder(lens, d);
    LevelsLadder(lens, e);
    if Active(lens[i], d) {
      NextCuts(Levels(lens, e), d, e, lens[i]);
      assert e <= lens[i] && Levels(lens, d) == [e] + Levels(lens, e);
      assert !Active(lens[i], e) ==> lens[i] == e;
    }
  }

  lemma NextCuts(levels: seq<nat>, d: nat, e: nat, len: nat)
    requires d < e <= len && Ladder(levels, e) && Ladder([e] + levels, d)
    ensures Cuts([e] + levels, d, len) == [e - d] + Cuts(levels, e, len)
    ensures len == e ==> Cuts(levels, e, len) == []
  {
    assert ([e] + levels)[1..] == levels;
  }

  /** A common run on the last two buffers or the last one leaves only tails. */
  lemma CutsAtLast(lens: seq<nat>, d: nat, i: nat)
    requires i < |lens| && 1 <= Count(lens, d) <= 2 && RunLength(lens, d) > 0 && Active(lens[i], d)
    ensures var n := RunLength(lens, d); CutsAt(lens, d, i) == [n] + Tail(d + n, lens[i])
  {
    LevelsLadder(lens, d);
    var e := d + RunLength(lens, d);
    assert Levels(lens, d) == [e] && [e][1..] == [];
    assert Cuts([], e, lens[i]) == Tail(e, lens[i]);
  }

  /** Where no common run is possible only tails are left. */
  lemma CutsAtEnd(lens: seq<nat>, d: nat, i: nat)
    requires i < |lens| && (Count(lens, d) == 0 || RunLength(lens, d) == 0 || !Active(lens[i], d))
    ensures CutsAt(lens, d, i) == Tail(OffAt(lens[i], d), lens[i])
  {
    hide RunLength, Count;
    LevelsLadder(lens, d);
    CountZero(lens, d);
  }

  // ------------------------------------------------------------------ the cipher object

  /** The largest power of two that is at most n. */
  function HighBit(n: nat): (b: nat)
    requires n > 0
    ensures b <= n < 2 * b
  {
    if n == 1 then 1 else 2 * HighBit(n / 2)
  }

  /** Batches are powers of two: 1, 2, or one of the counts the 512-bit kernel knows. */
  lemma {:induction false} BatchSizes(n: nat)
    requires 0 < n <= MAX_BUFFERS
    ensures HighBit(n) in {1, 2, 4, 8, 16, 32, 64}
  {
    if n >= 2 {
      BatchSizes(n / 2);
    }
  }

  class AesGenericCipher {
    const mode: ChainMode
    const keyBytes: nat              // the key length fixed by the template argument
    const vaes: bool                 // arch >= eZen4: the multi-lane kernels are used
    const multiUpdate: bool          // built with AES_MULTI_UPDATE
    const expand: seq<Byte> -> BlockCipher

    var cipher: BlockCipher          // the expanded key
    var isKeySet: bool
    const ivs: array<Block>
    const bufferLengths: array<nat>
    var pData: seq<seq<Byte>>
    var numBuffers: nat
    var iv: Block                    // the IV of the single-buffer calls
    var isIvSet: bool

    ghost predicate Valid()
      reads this
    {
      ivs.Length == bufferLengths.Length == MAX_BUFFERS
    }

    ghost function K(): Kernel
      reads this
    {
      Kernel(mode, cipher, multiUpdate)
    }

    constructor (mode: ChainMode, keyBytes: nat, vaes: bool, multiUpdate: bool, expand: seq<Byte> -> BlockCipher)
      ensures Valid() && !isKeySet && fresh(ivs) && fresh(bufferLengths)
      ensures this.mode == mode && this.keyBytes == keyBytes && this.vaes == vaes
      ensures this.multiUpdate == multiUpdate && this.expand == expand
      ensures forall i :: 0 <= i < MAX_BUFFERS ==> ivs[i] == Zeros(16)
    {
      this.mode, this.keyBytes, this.vaes, this.multiUpdate, this.expand := mode, keyBytes, vaes, multiUpdate, expand;
      cipher := expand([]);
      isKeySet := false;
      ivs := new Block[MAX_BUFFERS](_ => Zeros(16));
      bufferLengths := new nat[MAX_BUFFERS](_ => 0);
      pData, numBuffers := [], 0;
      iv, isIvSet := Zeros(16), false;
    }

    /** One dispatch: a single buffer goes to the AES-NI kernel, more go to the lane kernels. */
    method Dispatch(inputs: seq<seq<Byte>>, batchIvs: seq<Block>, n: nat) returns (produced: seq<seq<Byte>>, last: seq<Block>)
      requires |inputs| == |batchIvs| && |inputs| in {1, 2, 4, 8, 16, 32, 64} && n % 16 == 0
      requires forall j :: 0 <= j < |inputs| ==> |inputs[j]| == n
      ensures |produced| == |last| == |inputs|
      ensures forall j :: 0 <= j < |inputs| ==>
        && produced[j] == Encrypt(mode, cipher, batchIvs[j], inputs[j])
        && last[j] == WriteBack(multiUpdate, batchIvs[j], Chain(mode, cipher, batchIvs[j], inputs[j]))
    {
      if |inputs| == 1 {
        var c, v := SingleKernel(inputs[0], batchIvs[0]);
        produced, last := [c], [v];
      } else {
        produced, last := EncryptLanes(mode, cipher, inputs, batchIvs, n, |inputs| > 2, multiUpdate);
        assert forall j :: 0 <= j < |inputs| ==> inputs[j][..Aligned(n)] == inputs[j];
      }
    }

    method SingleKernel(src: seq<Byte>, iv: Block) returns (dst: seq<Byte>, pIv: Block)
      ensures dst == Encrypt(mode, cipher, iv, src)
      ensures pIv == WriteBack(multiUpdate, iv, Chain(mode, cipher, iv, src))
    {
      if mode == CBC {
        dst, pIv := EncryptCbcKernel(cipher, src, iv, multiUpdate);
      } else {
        dst, pIv := EncryptCfbKernel(cipher, src, iv, multiUpdate);
      }
    }

    /** Collects the inputs and IVs of a batch, calls the kernel, and stores what it produced. */
    method RunBatch(outs: array<seq<Byte>>, offs: array<nat>, batch: seq<nat>, n: nat)
      requires Valid() && outs as object != ivs && offs != bufferLengths
      requires |batch| in {1, 2, 4, 8, 16, 32, 64} && n % 16 == 0
      requires forall j :: 0 <= j < |batch| ==> InRange(outs[..], offs[..], batch[j], n)
      requires Distinct(batch)
      modifies outs, offs, ivs
      ensures forall i :: i in batch ==> Advanced(old(outs[..]), old(offs[..]), old(ivs[..]), outs[..], offs[..], ivs[..], i, n)
      ensures forall i :: 0 <= i < outs.Length && i !in batch ==> outs[i] == old(outs[i])
      ensures forall i :: 0 <= i < ivs.Length && i !in batch ==> ivs[i] == old(ivs[i])
      ensures forall i :: 0 <= i < offs.Length && i !in batch ==> offs[i] == old(offs[i])
    {
      hide Encrypt, Chain, Put, WriteBack;
      ghost var outs0, offs0, ivs0 := outs[..], offs[..], ivs[..];
      var inputs, batchIvs := Gather(outs, offs, batch, n);
      var produced, last := Dispatch(inputs, batchIvs, n);
      Scatter(outs, offs, batch, n, produced, last);
      forall j | 0 <= j < |batch| ensures Advanced(outs0, offs0, ivs0, outs[..], offs[..], ivs[..], batch[j], n) {
        assert InRange(outs0, offs0, batch[j], n);
      }
    }

    /** The inputs and IVs of a batch. */
    method Gather(outs: array<seq<Byte>>, offs: array<nat>, batch: seq<nat>, n: nat)
      returns (inputs: seq<seq<Byte>>, batchIvs: seq<Block>)
      requires Valid() && forall j :: 0 <= j < |batch| ==> InRange(outs[..], offs[..], batch[j], n)
      ensures |inputs| == |batchIvs| == |batch|
      ensures forall j :: 0 <= j < |batch| ==>
        && InRange(outs[..], offs[..], batch[j], n) && batchIvs[j] == ivs[batch[j]]
        && inputs[j] == pData[batch[j]][offs[batch[j]]..offs[batch[j]] + n]
    {
      inputs, batchIvs := [], [];
      for j := 0 to |batch|
        invariant |inputs| == |batchIvs| == j
        invariant forall l :: 0 <= l < j ==>
          && inputs[l] == pData[batch[l]][offs[batch[l]]..offs[batch[l]] + n] && batchIvs[l] == ivs[batch[l]]
      {
        var b := batch[j];
        assert InRange(outs[..], offs[..], b, n);
        inputs, batchIvs := inputs + [pData[b][offs[b]..offs[b] + n]], batchIvs + [ivs[b]];
      }
    }

    /** Stores the outputs, the written-back IVs and the new offsets of a batch. */
    method Scatter(outs: array<seq<Byte>>, offs: array<nat>, batch: seq<nat>, n: nat,
                   produced: seq<seq<Byte>>, last: seq<Block>)
      requires Valid() && outs as object != ivs && offs != bufferLengths
      requires |produced| == |last| == |batch| && Distinct(batch)
      requires forall j :: 0 <= j < |batch| ==> InRange(outs[..], offs[..], batch[j], n) && |produced[j]| == n
      modifies outs, offs, ivs
      ensures forall j :: 0 <= j < |batch| ==>
        && old(InRange(outs[..], offs[..], batch[j], n))
        && outs[batch[j]] == Put(old(outs[batch[j]]), old(offs[batch[j]]), produced[j])
        && ivs[batch[j]] == last[j] && offs[batch[j]] == old(offs[batch[j]]) + n
      ensures forall i :: 0 <= i < outs.Length && i !in batch ==> outs[i] == old(outs[i])
      ensures forall i :: 0 <= i < ivs.Length && i !in batch ==> ivs[i] == old(ivs[i])
      ensures forall i :: 0 <= i < offs.Length && i !in batch ==> offs[i] == old(offs[i])
    {
      for j := 0 to |batch|
        invariant forall l :: 0 <= l < j ==>
          && outs[batch[l]] == Put(old(outs[batch[l]]), old(offs[batch[l]]), produced[l])
          && ivs[batch[l]] == last[l] && offs[batch[l]] == old(offs[batch[l]]) + n
        invariant forall l :: j <= l < |batch| ==>
          && outs[batch[l]] == old(outs[batch[l]]) && offs[batch[l]] == old(offs[batch[l]])
        invariant forall i :: 0 <= i < outs.Length && i !in batch ==> outs[i] == old(outs[i])
        invariant forall i :: 0 <= i < ivs.Length && i !in batch ==> ivs[i] == old(ivs[i])
        invariant forall i :: 0 <= i < offs.Length && i !in batch ==> offs[i] == old(offs[i])
      {
        var b := batch[j];
        outs[b] := Put(outs[b], offs[b], produced[j]);
        ivs[b] := last[j];
        offs[b] := offs[b] + n;
      }
    }

    /** Output buffers and IVs from index n on are untouched. */
    static ghost predicate Beyond(n: nat, outs0: seq<seq<Byte>>, vs0: seq<Block>, outs: seq<seq<Byte>>, vs: seq<Block>) {
      && |outs| == |outs0| && |vs| == |vs0|
      && (forall i :: n <= i < |outs| ==> outs[i] == outs0[i])
      && (forall i :: n <= i < |vs| ==> vs[i] == vs0[i])
    }

    /** Lane i stands at offset off with the runs `cuts` still to do. */
    ghost predicate LaneAt(lens: seq<nat>, outs: seq<seq<Byte>>, offs: seq<nat>, vs: seq<Block>,
                           targets: seq<(seq<Byte>, Block)>, i: nat, off: nat, cuts: seq<nat>)
      reads this
    {
      && i < |lens| <= |pData| && |lens| <= |outs| && |lens| <= |offs| && |lens| <= |vs| && |targets| == |lens|
      && lens[i] <= |pData[i]| && offs[i] == off
      && OnTrack(K(), outs[i], vs[i], pData[i][..lens[i]], off, cuts, targets[i])
    }

    lemma LaneAdvances(lens: seq<nat>, outs0: seq<seq<Byte>>, offs0: seq<nat>, vs0: seq<Block>,
                       outs: seq<seq<Byte>>, offs: seq<nat>, vs: seq<Block>,
                       targets: seq<(seq<Byte>, Block)>, i: nat, off: nat, cuts: seq<nat>)
      requires LaneAt(lens, outs0, offs0, vs0, targets, i, off, cuts) && cuts != []
      requires Advanced(outs0, offs0, vs0, outs, offs, vs, i, cuts[0])
      ensures LaneAt(lens, outs, offs, vs, targets, i, off + cuts[0], cuts[1..])
    {
      hide Encrypt, Chain, Put, WriteBack, OnTrack;
      var data := pData[i][..lens[i]];
      TrackRun(K(), outs0[i], vs0[i], data, off, cuts, targets[i]);
      assert data[off..off + cuts[0]] == pData[i][off..off + cuts[0]];
    }

    /** Buffer i has n more bytes of input staged and of output room. */
    ghost predicate InRange(outs: seq<seq<Byte>>, offs: seq<nat>, i: nat, n: nat)
      reads this
    {
      && i < |outs| && i < |offs| && i < |pData| && i < MAX_BUFFERS
      && offs[i] + n <= |pData[i]| && offs[i] + n <= |outs[i]|
    }

    /** Buffer i went through one kernel call on its next n bytes. */
    ghost predicate Advanced(outs0: seq<seq<Byte>>, offs0: seq<nat>, ivs0: seq<Block>,
                             outs: seq<seq<Byte>>, offs: seq<nat>, ivs1: seq<Block>, i: nat, n: nat)
      reads this
    {
      && i < |outs| && i < |offs| && i < |ivs0| && |outs0| == |outs| && |offs0| == |offs| && |ivs1| == |ivs0|
      && InRange(outs0, offs0, i, n)
      && var run := pData[i][offs0[i]..offs0[i] + n];
      && outs[i] == Put(outs0[i], offs0[i], Encrypt(mode, cipher, ivs0[i], run))
      && ivs1[i] == WriteBack(multiUpdate, ivs0[i], Chain(mode, cipher, ivs0[i], run))
      && offs[i] == offs0[i] + n
    }

    /** A lane whose buffer, offset and IV are untouched stays where it is. */
    lemma LaneKept(lens: seq<nat>, outs0: seq<seq<Byte>>, offs0: seq<nat>, vs0: seq<Block>,
                   outs: seq<seq<Byte>>, offs: seq<nat>, vs: seq<Block>,
                   targets: seq<(seq<Byte>, Block)>, i: nat, off: nat, cuts: seq<nat>)
      requires LaneAt(lens, outs0, offs0, vs0, targets, i, off, cuts)
      requires |outs| == |outs0| && |offs| == |offs0| && |vs| == |vs0|
      requires outs[i] == outs0[i] && offs[i] == offs0[i] && vs[i] == vs0[i]
      ensures LaneAt(lens, outs, offs, vs, targets, i, off, cuts)
    {
    }

    /** Lane i is where it stands at level d. */
    ghost predicate Waiting(lens: seq<nat>, outs: seq<seq<Byte>>, offs: seq<nat>, vs: seq<Block>,
                            targets: seq<(seq<Byte>, Block)>, d: nat, i: nat)
      reads this
    {
      i < |lens| && LaneAt(lens, outs, offs, vs, targets, i, OffAt(lens[i], d), CutsAt(lens, d, i))
    }

    /** All active lanes stand at level d, the others are complete. */
    ghost predicate AtLevel(lens: seq<nat>, outs: seq<seq<Byte>>, offs: seq<nat>, vs: seq<Block>,
                            targets: seq<(seq<Byte>, Block)>, d: nat)
      reads this
    {
      forall i :: 0 <= i < |lens| ==> Waiting(lens, outs, offs, vs, targets, d, i)
    }

    /** Lane i has done its first run from level d. */
    ghost predicate Ran(lens: seq<nat>, outs: seq<seq<Byte>>, offs: seq<nat>, vs: seq<Block>,
                        targets: seq<(seq<Byte>, Block)>, d: nat, i: nat, n: nat)
      reads this
    {
      i < |lens| && CutsAt(lens, d, i) != []
      && LaneAt(lens, outs, offs, vs, targets, i, d + n, CutsAt(lens, d, i)[1..])
    }

    /** The common run of all active buffers, as batches of decreasing powers of two. */
    method RunActive(outs: array<seq<Byte>>, offs: array<nat>, active: seq<nat>, n: nat,
                     ghost lens: seq<nat>, ghost d: nat, ghost targets: seq<(seq<Byte>, Block)>)
      requires Valid() && outs as object != ivs && offs != bufferLengths
      requires 0 < |active| <= MAX_BUFFERS && n % 16 == 0 && |lens| <= MAX_BUFFERS && Lists(active, lens, d)
      requires AtLevel(lens, outs[..], offs[..], ivs[..], targets, d)
      requires forall k :: 0 <= k < |active| ==> FirstCut(lens, d, active[k], n)
      modifies outs, offs, ivs
      ensures forall k :: 0 <= k < |active| ==> Ran(lens, outs[..], offs[..], ivs[..], targets, d, active[k], n)
      ensures forall i :: 0 <= i < |lens| && !Active(lens[i], d) ==>
                Waiting(lens, outs[..], offs[..], ivs[..], targets, d, i)
      ensures Beyond(|lens|, old(outs[..]), old(ivs[..]), outs[..], ivs[..])
    {
      var processed: nat, toProcess: nat := 0, |active|;
      StartProgress(lens, outs[..], offs[..], ivs[..], targets, d, active, n);
      while toProcess > 0
        invariant processed + toProcess == |active|
        invariant Progress(lens, outs[..], offs[..], ivs[..], targets, d, active, processed, n)
        invariant Beyond(|lens|, old(outs[..]), old(ivs[..]), outs[..], ivs[..])
        decreases toProcess
      {
        BatchSizes(toProcess);
        var batchCount := HighBit(toProcess);
        NextBatch(outs, offs, active, processed, processed + batchCount, n, lens, d, targets);
        processed, toProcess := processed + batchCount, toProcess - batchCount;
      }
    }

    /** The first p listed lanes have done their run, all other lanes wait at level d. */
    ghost predicate Progress(lens: seq<nat>, outs: seq<seq<Byte>>, offs: seq<nat>, vs: seq<Block>,
                             targets: seq<(seq<Byte>, Block)>, d: nat, active: seq<nat>, p: nat, n: nat)
      reads this
    {
      && p <= |active|
      && (forall k :: 0 <= k < p ==> Ran(lens, outs, offs, vs, targets, d, active[k], n))
      && (forall k :: p <= k < |active| ==> Waiting(lens, outs, offs, vs, targets, d, active[k]))
      && (forall i :: 0 <= i < |lens| && !Active(lens[i], d) ==> Waiting(lens, outs, offs, vs, targets, d, i))
    }

    lemma StartProgress(lens: seq<nat>, outs: seq<seq<Byte>>, offs: seq<nat>, vs: seq<Block>,
                        targets: seq<(seq<Byte>, Block)>, d: nat, active: seq<nat>, n: nat)
      requires AtLevel(lens, outs, offs, vs, targets, d) && Lists(active, lens, d)
      ensures Progress(lens, outs, offs, vs, targets, d, active, 0, n)
    {
    }

    method NextBatch(outs: array<seq<Byte>>, offs: array<nat>, active: seq<nat>, p: nat, q: nat, n: nat,
                     ghost lens: seq<nat>, ghost d: nat, ghost targets: seq<(seq<Byte>, Block)>)
      requires Valid() && outs as object != ivs && offs != bufferLengths
      requires n % 16 == 0 && |lens| <= MAX_BUFFERS && Lists(active, lens, d)
      requires p <= q <= |active| && q - p in {1, 2, 4, 8, 16, 32, 64}
      requires forall k :: 0 <= k < |active| ==> FirstCut(lens, d, active[k], n)
      requires Progress(lens, outs[..], offs[..], ivs[..], targets, d, active, p, n)
      modifies outs, offs, ivs
      ensures Progress(lens, outs[..], offs[..], ivs[..], targets, d, active, q, n)
      ensures Beyond(|lens|, old(outs[..]), old(ivs[..]), outs[..], ivs[..])
    {
      var batch := active[p..q];
      ghost var outs0, offs0, ivs0 := outs[..], offs[..], ivs[..];
      assert forall j :: 0 <= j < |batch| ==> batch[j] == active[p + j];
      RunAndTrack(outs, offs, batch, n, lens, d, targets);
      BatchProgress(lens, outs0, offs0, ivs0, outs[..], offs[..], ivs[..], targets, d, active, p, q, n);
    }

    lemma BatchProgress(lens: seq<nat>, outs0: seq<seq<Byte>>, offs0: seq<nat>, vs0: seq<Block>,
                        outs: seq<seq<Byte>>, offs: seq<nat>, vs: seq<Block>,
                        targets: seq<(seq<Byte>, Block)>, d: nat, active: seq<nat>, p: nat, q: nat, n: nat)
      requires p <= q <= |active| && Lists(active, lens, d)
      requires Progress(lens, outs0, offs0, vs0, targets, d, active, p, n)
      requires forall j :: 0 <= j < q - p ==> Ran(lens, outs, offs, vs, targets, d, active[p..q][j], n)
      requires forall i :: i !in active[p..q] && Waiting(lens, outs0, offs0, vs0, targets, d, i) ==>
        Waiting(lens, outs, offs, vs, targets, d, i)
      requires forall i :: i !in active[p..q] && Ran(lens, outs0, offs0, vs0, targets, d, i, n) ==>
        Ran(lens, outs, offs, vs, targets, d, i, n)
      ensures Progress(lens, outs, offs, vs, targets, d, active, q, n)
    {
      forall k | 0 <= k < q ensures Ran(lens, outs, offs, vs, targets, d, active[k], n) {
        if p <= k {
          assert active[k] == active[p..q][k - p];
        } else {
          assert active[k] !in active[p..q];
        }
      }
      forall k | q <= k < |active| ensures Waiting(lens, outs, offs, vs, targets, d, active[k]) {
        assert active[k] !in active[p..q];
      }
    }

    /** One batch, with the lanes' progress. */
    method RunAndTrack(outs: array<seq<Byte>>, offs: array<nat>, batch: seq<nat>, n: nat,
                       ghost lens: seq<nat>, ghost d: nat, ghost targets: seq<(seq<Byte>, Block)>)
      requires Valid() && outs as object != ivs && offs != bufferLengths && |lens| <= MAX_BUFFERS
      requires |batch| in {1, 2, 4, 8, 16, 32, 64} && n % 16 == 0 && Distinct(batch)
      requires forall j :: 0 <= j < |batch| ==>
        && Waiting(lens, outs[..], offs[..], ivs[..], targets, d, batch[j]) && Active(lens[batch[j]], d)
        && FirstCut(lens, d, batch[j], n)
      modifies outs, offs, ivs
      ensures forall j :: 0 <= j < |batch| ==> Ran(lens, outs[..], offs[..], ivs[..], targets, d, batch[j], n)
      ensures forall i :: i !in batch && old(Waiting(lens, outs[..], offs[..], ivs[..], targets, d, i)) ==>
        Waiting(lens, outs[..], offs[..], ivs[..], targets, d, i)
      ensures forall i :: i !in batch && old(Ran(lens, outs[..], offs[..], ivs[..], targets, d, i, n)) ==>
        Ran(lens, outs[..], offs[..], ivs[..], targets, d, i, n)
      ensures Beyond(|lens|, old(outs[..]), old(ivs[..]), outs[..], ivs[..])
    {
      forall j | 0 <= j < |batch| ensures InRange(outs[..], offs[..], batch[j], n) {
        var i := batch[j];
        TrackRun(K(), outs[i], ivs[i], pData[i][..lens[i]], d, CutsAt(lens, d, i), targets[i]);
      }
      ghost var outs0, offs0, ivs0 := outs[..], offs[..], ivs[..];
      RunBatch(outs, offs, batch, n);
      BatchTracked(lens, outs0, offs0, ivs0, outs[..], offs[..], ivs[..], targets, batch, d, n);
    }

    lemma LaneUntouched(lens: seq<nat>, outs0: seq<seq<Byte>>, offs0: seq<nat>, vs0: seq<Block>,
                        outs: seq<seq<Byte>>, offs: seq<nat>, vs: seq<Block>,
                        targets: seq<(seq<Byte>, Block)>, batch: seq<nat>, i: nat, off: nat, cuts: seq<nat>)
      requires |outs| == |outs0| && |offs| == |offs0| && |vs| == |vs0| && i !in batch
      requires forall i :: 0 <= i < |outs| && i !in batch ==> outs[i] == outs0[i]
      requires forall i :: 0 <= i < |vs| && i !in batch ==> vs[i] == vs0[i]
      requires forall i :: 0 <= i < |offs| && i !in batch ==> offs[i] == offs0[i]
      requires LaneAt(lens, outs0, offs0, vs0, targets, i, off, cuts)
      ensures LaneAt(lens, outs, offs, vs, targets, i, off, cuts)
    {
      hide OnTrack;
    }

    lemma BatchTracked(lens: seq<nat>, outs0: seq<seq<Byte>>, offs0: seq<nat>, vs0: seq<Block>,
                       outs: seq<seq<Byte>>, offs: seq<nat>, vs: seq<Block>,
                       targets: seq<(seq<Byte>, Block)>, batch: seq<nat>, d: nat, n: nat)
      requires |outs| == |outs0| && |offs| == |offs0| && |vs| == |vs0|
      requires forall j :: 0 <= j < |batch| ==>
        && Waiting(lens, outs0, offs0, vs0, targets, d, batch[j]) && Active(lens[batch[j]], d)
        && FirstCut(lens, d, batch[j], n)
      requires forall i :: i in batch ==> Advanced(outs0, offs0, vs0, outs, offs, vs, i, n)
      requires forall i :: 0 <= i < |outs| && i !in batch ==> outs[i] == outs0[i]
      requires forall i :: 0 <= i < |vs| && i !in batch ==> vs[i] == vs0[i]
      requires forall i :: 0 <= i < |offs| && i !in batch ==> offs[i] == offs0[i]
      ensures forall j :: 0 <= j < |batch| ==> Ran(lens, outs, offs, vs, targets, d, batch[j], n)
      ensures forall i :: i !in batch && Waiting(lens, outs0, offs0, vs0, targets, d, i) ==>
        Waiting(lens, outs, offs, vs, targets, d, i)
      ensures forall i :: i !in batch && Ran(lens, outs0, offs0, vs0, targets, d, i, n) ==>
        Ran(lens, outs, offs, vs, targets, d, i, n)
    {
      hide LaneAt, Advanced, InRange, CutsAt, OnTrack;
      forall j | 0 <= j < |batch| ensures Ran(lens, outs, offs, vs, targets, d, batch[j], n) {
        LaneAdvances(lens, outs0, offs0, vs0, outs, offs, vs, targets, batch[j], d, CutsAt(lens, d, batch[j]));
      }
      forall i: nat | i !in batch && Waiting(lens, outs0, offs0, vs0, targets, d, i)
        ensures Waiting(lens, outs, offs, vs, targets, d, i)
      {
        LaneUntouched(lens, outs0, offs0, vs0, outs, offs, vs, targets, batch, i, OffAt(lens[i], d), CutsAt(lens, d, i));
      }
      forall i: nat | i !in batch && Ran(lens, outs0, offs0, vs0, targets, d, i, n)
        ensures Ran(lens, outs, offs, vs, targets, d, i, n)
      {
        LaneUntouched(lens, outs0, offs0, vs0, outs, offs, vs, targets, batch, i, d + n, CutsAt(lens, d, i)[1..]);
      }
    }

    /** The least number of bytes left over the active buffers, rounded down to blocks. */
    method MinRemaining(offs: array<nat>, active: seq<nat>, lens: seq<nat>, ghost d: nat) returns (minLen: nat)
      requires |lens| <= offs.Length && Lists(active, lens, d) && active != []
      requires forall i :: 0 <= i < |lens| && Active(lens[i], d) ==> offs[i] == d && lens[i] < 0x1_0000_0000_0000_0000
      ensures Count(lens, d) > 0 && minLen == RunLength(lens, d)
    {
      CountZero(lens, d);
      assert Active(lens[active[0]], d);
      minLen := 0xFFFF_FFFF_FFFF_FFFF;
      ghost var at := 0;
      for i := 0 to |active|
        invariant forall k :: 0 <= k < i ==> minLen <= lens[active[k]] - d
        invariant 0 <= at <= i && (i > 0 ==> at < i && minLen == lens[active[at]] - d)
        invariant i == 0 ==> minLen == 0xFFFF_FFFF_FFFF_FFFF
      {
        assert Active(lens[active[i]], d) && offs[active[i]] == d;
        var remaining := lens[active[i]] - offs[active[i]];
        if remaining < minLen {
          minLen := remaining;
          at := i;
        }
      }
      ghost var s := Shortest(lens, d);
      assert s <= lens[active[at]];
      ghost var i :| 0 <= i < |lens| && Active(lens[i], d) && s == lens[i];
      assert i in active;
      minLen := minLen / 16 * 16;
    }

    /** Drops the completed buffers from the front part of the list, in place. */
    method Compact(active: array<nat>, activeCount: nat, offs: array<nat>, lens: seq<nat>, ghost e: nat)
      returns (newActiveCount: nat)
      requires activeCount <= active.Length && active != offs && |lens| <= offs.Length
      requires forall k :: 0 <= k < activeCount ==> active[k] < |lens| && offs[active[k]] == e
      modifies active
      ensures newActiveCount <= activeCount
      ensures active[..newActiveCount] == Keep(old(active[..activeCount]), lens, e)
    {
      newActiveCount := 0;
      for i := 0 to activeCount
        invariant newActiveCount <= i
        invariant active[i..] == old(active[i..])
        invariant active[..newActiveCount] == Keep(old(active[..i]), lens, e)
      {
        var bufIdx := active[i];
        assert bufIdx == old(active[i]) by { assert active[i..][0] == old(active[i..])[0]; }
        assert old(active[..i + 1])[..i] == old(active[..i]);
        if offs[bufIdx] < lens[bufIdx] {
          active[newActiveCount] := bufIdx;
          newActiveCount := newActiveCount + 1;
        }
        assert active[i + 1..] == old(active[i..])[1..];
      }
    }

    /** The loop over more than two active buffers, from the start to its last level d. */
    method RunLevels(outs: array<seq<Byte>>, offs: array<nat>, active: array<nat>, lens: seq<nat>,
                     ghost targets: seq<(seq<Byte>, Block)>)
      returns (activeCount: nat, ghost d: nat)
      requires Valid() && outs as object != ivs && offs != bufferLengths && active != offs && active != bufferLengths
      requires |lens| <= MAX_BUFFERS && |lens| <= active.Length && |lens| <= offs.Length
      requires forall i :: 0 <= i < |lens| ==> lens[i] < 0x1_0000_0000_0000_0000
      requires active[..|lens|] == ActiveList(lens, 0)
      requires AtLevel(lens, outs[..], offs[..], ivs[..], targets, 0)
      modifies outs, offs, ivs, active
      ensures activeCount == Count(lens, d) <= active.Length && active[..activeCount] == ActiveList(lens, d)
      ensures activeCount <= 2 || RunLength(lens, d) == 0
      ensures AtLevel(lens, outs[..], offs[..], ivs[..], targets, d)
      ensures Beyond(|lens|, old(outs[..]), old(ivs[..]), outs[..], ivs[..])
    {
      activeCount, d := |lens|, 0;
      while activeCount > 2
        invariant activeCount == Count(lens, d) <= |lens| && active[..activeCount] == ActiveList(lens, d)
        invariant AtLevel(lens, outs[..], offs[..], ivs[..], targets, d)
        invariant Beyond(|lens|, old(outs[..]), old(ivs[..]), outs[..], ivs[..])
        decreases Longest(lens) - d
      {
        ListsActive(lens, d);
        var list := active[..activeCount];
        StandsAt(lens, outs[..], offs[..], ivs[..], targets, d);
        var minLen := MinRemaining(offs, list, lens, d);
        if minLen == 0 {
          break;
        }
        ghost var e := d + minLen;
        LevelStep(outs, offs, list, minLen, lens, d, e, targets);
        LongestBound(lens, d);
        activeCount := NextActive(active, activeCount, offs, lens, d, e);
        d := e;
      }
    }

    /** The list for the next level, compacted in place. */
    method NextActive(active: array<nat>, activeCount: nat, offs: array<nat>, lens: seq<nat>, ghost d: nat, ghost e: nat)
      returns (newActiveCount: nat)
      requires activeCount <= active.Length && active != offs && |lens| <= offs.Length && d < e
      requires active[..activeCount] == ActiveList(lens, d)
      requires forall k :: 0 <= k < |ActiveList(lens, d)| ==>
                 ActiveList(lens, d)[k] < |lens| && offs[ActiveList(lens, d)[k]] == e
      modifies active
      ensures newActiveCount == Count(lens, e) <= activeCount && active[..newActiveCount] == ActiveList(lens, e)
    {
      ghost var list := ActiveList(lens, d);
      assert forall k :: 0 <= k < activeCount ==> active[k] == list[k];
      KeepActive(lens, d, e, lens);
      newActiveCount := Compact(active, activeCount, offs, lens, e);
    }

    /** The common run of more than two buffers, from level d to the next. */
    method LevelStep(outs: array<seq<Byte>>, offs: array<nat>, list: seq<nat>, minLen: nat, ghost lens: seq<nat>,
                     ghost d: nat, ghost e: nat, ghost targets: seq<(seq<Byte>, Block)>)
      requires Valid() && outs as object != ivs && offs != bufferLengths && |lens| <= MAX_BUFFERS
      requires Lists(list, lens, d) && |list| == Count(lens, d) > 2 && |list| <= MAX_BUFFERS
      requires minLen == RunLength(lens, d) > 0 && e == d + minLen
      requires AtLevel(lens, outs[..], offs[..], ivs[..], targets, d)
      modifies outs, offs, ivs
      ensures AtLevel(lens, outs[..], offs[..], ivs[..], targets, e)
      ensures forall k :: 0 <= k < |list| ==> list[k] < offs.Length && offs[list[k]] == e
      ensures Beyond(|lens|, old(outs[..]), old(ivs[..]), outs[..], ivs[..])
    {
      FirstCuts(lens, d, list);
      RunActive(outs, offs, list, minLen, lens, d, targets);
      NextLevels(lens, outs[..], offs[..], ivs[..], targets, d, e, list);
    }

    lemma StandsAt(lens: seq<nat>, outs: seq<seq<Byte>>, offs: seq<nat>, vs: seq<Block>,
                   targets: seq<(seq<Byte>, Block)>, d: nat)
      requires AtLevel(lens, outs, offs, vs, targets, d)
      ensures forall i :: 0 <= i < |lens| && Active(lens[i], d) ==> i < |offs| && offs[i] == d
    {
      forall i | 0 <= i < |lens| && Active(lens[i], d) ensures i < |offs| && offs[i] == d {
        assert Waiting(lens, outs, offs, vs, targets, d, i);
      }
    }

    lemma NextLevels(lens: seq<nat>, outs: seq<seq<Byte>>, offs: seq<nat>, vs: seq<Block>,
                     targets: seq<(seq<Byte>, Block)>, d: nat, e: nat, list: seq<nat>)
      requires Lists(list, lens, d) && Count(lens, d) > 2 && RunLength(lens, d) > 0 && e == d + RunLength(lens, d)
      requires forall k :: 0 <= k < |list| ==> Ran(lens, outs, offs, vs, targets, d, list[k], e - d)
      requires forall i :: 0 <= i < |lens| && !Active(lens[i], d) ==> Waiting(lens, outs, offs, vs, targets, d, i)
      ensures AtLevel(lens, outs, offs, vs, targets, e)
      ensures forall k :: 0 <= k < |list| ==> list[k] < |offs| && offs[list[k]] == e
    {
      forall i | 0 <= i < |lens| ensures Waiting(lens, outs, offs, vs, targets, e, i) {
        if Active(lens[i], d) {
          assert i in list;
          ActiveNext(lens, outs, offs, vs, targets, d, e, i);
        } else {
          CutsAtNext(lens, d, i);
        }
      }
    }

    lemma ActiveNext(lens: seq<nat>, outs: seq<seq<Byte>>, offs: seq<nat>, vs: seq<Block>,
                     targets: seq<(seq<Byte>, Block)>, d: nat, e: nat, i: nat)
      requires i < |lens| && Active(lens[i], d) && Count(lens, d) > 2
      requires RunLength(lens, d) > 0 && e == d + RunLength(lens, d)
      requires Ran(lens, outs, offs, vs, targets, d, i, e - d)
      ensures Waiting(lens, outs, offs, vs, targets, e, i)
    {
      hide CutsAt, LaneAt, Count, RunLength, OffAt;
      CutsAtNext(lens, d, i);
      var next := CutsAt(lens, e, i);
      assert ([e - d] + next)[1..] == next;
    }

    /** Every lane has at most one run of its own left. */
    ghost predicate TailsLeft(lens: seq<nat>, outs: seq<seq<Byte>>, offs: seq<nat>, vs: seq<Block>,
                              targets: seq<(seq<Byte>, Block)>)
      reads this
    {
      forall i :: 0 <= i < |lens| ==> TailLeft(lens, outs, offs, vs, targets, i)
    }

    ghost predicate TailLeft(lens: seq<nat>, outs: seq<seq<Byte>>, offs: seq<nat>, vs: seq<Block>,
                             targets: seq<(seq<Byte>, Block)>, i: nat)
      reads this
    {
      i < |lens| && i < |offs| && LaneAt(lens, outs, offs, vs, targets, i, offs[i], Tail(offs[i], lens[i]))
    }

    /** One or two active buffers take one last common run of whole blocks. */
    method LastRun(outs: array<seq<Byte>>, offs: array<nat>, active: array<nat>, activeCount: nat, lens: seq<nat>,
                   ghost d: nat, ghost targets: seq<(seq<Byte>, Block)>)
      requires Valid() && outs as object != ivs && offs != bufferLengths && active != offs
      requires |lens| <= MAX_BUFFERS && |lens| <= offs.Length
      requires activeCount == Count(lens, d) <= active.Length && active[..activeCount] == ActiveList(lens, d)
      requires activeCount <= 2 || RunLength(lens, d) == 0
      requires AtLevel(lens, outs[..], offs[..], ivs[..], targets, d)
      modifies outs, offs, ivs
      ensures TailsLeft(lens, outs[..], offs[..], ivs[..], targets)
      ensures Beyond(|lens|, old(outs[..]), old(ivs[..]), outs[..], ivs[..])
    {
      ListsActive(lens, d);
      StandsAt(lens, outs[..], offs[..], ivs[..], targets, d);
      var list := active[..activeCount];
      var alignedLen := LastLength(offs, list, lens, d);
      if alignedLen > 0 {
        LastBatch(outs, offs, list, alignedLen, lens, d, targets);
      } else {
        TailsAtEnd(lens, outs[..], offs[..], ivs[..], targets, d);
      }
    }

    method LastBatch(outs: array<seq<Byte>>, offs: array<nat>, list: seq<nat>, n: nat, ghost lens: seq<nat>,
                     ghost d: nat, ghost targets: seq<(seq<Byte>, Block)>)
      requires Valid() && outs as object != ivs && offs != bufferLengths && |lens| <= MAX_BUFFERS
      requires Lists(list, lens, d) && |list| == Count(lens, d) && 1 <= |list| <= 2
      requires n == RunLength(lens, d) > 0
      requires AtLevel(lens, outs[..], offs[..], ivs[..], targets, d)
      modifies outs, offs, ivs
      ensures TailsLeft(lens, outs[..], offs[..], ivs[..], targets)
      ensures Beyond(|lens|, old(outs[..]), old(ivs[..]), outs[..], ivs[..])
    {
      LastCuts(lens, d, list);
      AllWaiting(lens, outs[..], offs[..], ivs[..], targets, d, list);
      RunAndTrack(outs, offs, list, n, lens, d, targets);
      TailsAfterRun(lens, outs[..], offs[..], ivs[..], targets, d, d + n, list);
    }

    /** The aligned length of the last common run; zero when none is due. */
    method LastLength(offs: array<nat>, list: seq<nat>, lens: seq<nat>, ghost d: nat) returns (alignedLen: nat)
      requires Lists(list, lens, d) && |list| == Count(lens, d) && |lens| <= offs.Length
      requires |list| <= 2 || RunLength(lens, d) == 0
      requires forall i :: 0 <= i < |lens| && Active(lens[i], d) ==> offs[i] == d
      ensures alignedLen > 0 ==> 1 <= |list| <= 2 && alignedLen == RunLength(lens, d)
      ensures alignedLen == 0 ==> |list| == 0 || RunLength(lens, d) == 0
    {
      alignedLen := 0;
      if |list| == 2 {
        var remaining0 := lens[list[0]] - offs[list[0]];
        var remaining1 := lens[list[1]] - offs[list[1]];
        alignedLen := (if remaining0 < remaining1 then remaining0 else remaining1) / 16 * 16;
        PairLeast(lens, d, list, alignedLen);
      }
      if |list| == 1 {
        alignedLen := (lens[list[0]] - offs[list[0]]) / 16 * 16;
        PairLeast(lens, d, list, alignedLen);
      }
    }

    lemma AllWaiting(lens: seq<nat>, outs: seq<seq<Byte>>, offs: seq<nat>, vs: seq<Block>,
                     targets: seq<(seq<Byte>, Block)>, d: nat, list: seq<nat>)
      requires AtLevel(lens, outs, offs, vs, targets, d) && Lists(list, lens, d)
      ensures forall j :: 0 <= j < |list| ==> Waiting(lens, outs, offs, vs, targets, d, list[j])
      ensures forall i :: 0 <= i < |lens| ==> Waiting(lens, outs, offs, vs, targets, d, i)
    {
    }

    lemma TailsAtEnd(lens: seq<nat>, outs: seq<seq<Byte>>, offs: seq<nat>, vs: seq<Block>,
                     targets: seq<(seq<Byte>, Block)>, d: nat)
      requires AtLevel(lens, outs, offs, vs, targets, d) && (Count(lens, d) == 0 || RunLength(lens, d) == 0)
      ensures TailsLeft(lens, outs, offs, vs, targets)
    {
      forall i | 0 <= i < |lens| ensures TailLeft(lens, outs, offs, vs, targets, i) {
        assert Waiting(lens, outs, offs, vs, targets, d, i);
        IdleTail(lens, outs, offs, vs, targets, d, i);
      }
    }

    lemma TailsAfterRun(lens: seq<nat>, outs: seq<seq<Byte>>, offs: seq<nat>, vs: seq<Block>,
                        targets: seq<(seq<Byte>, Block)>, d: nat, e: nat, list: seq<nat>)
      requires Lists(list, lens, d) && 1 <= Count(lens, d) <= 2
      requires RunLength(lens, d) > 0 && e == d + RunLength(lens, d)
      requires forall j :: 0 <= j < |list| ==> Ran(lens, outs, offs, vs, targets, d, list[j], e - d)
      requires forall i :: 0 <= i < |lens| && i !in list ==> Waiting(lens, outs, offs, vs, targets, d, i)
      ensures TailsLeft(lens, outs, offs, vs, targets)
    {
      forall i | 0 <= i < |lens| ensures TailLeft(lens, outs, offs, vs, targets, i) {
        if Active(lens[i], d) {
          assert i in list;
          ActiveTail(lens, outs, offs, vs, targets, d, e, i);
        } else {
          assert i !in list;
          IdleTail(lens, outs, offs, vs, targets, d, i);
        }
      }
    }

    lemma ActiveTail(lens: seq<nat>, outs: seq<seq<Byte>>, offs: seq<nat>, vs: seq<Block>,
                     targets: seq<(seq<Byte>, Block)>, d: nat, e: nat, i: nat)
      requires i < |lens| && Active(lens[i], d) && 1 <= Count(lens, d) <= 2
      requires RunLength(lens, d) > 0 && e == d + RunLength(lens, d)
      requires Ran(lens, outs, offs, vs, targets, d, i, e - d)
      ensures TailLeft(lens, outs, offs, vs, targets, i)
    {
      CutsAtLast(lens, d, i);
      assert ([e - d] + Tail(e, lens[i]))[1..] == Tail(e, lens[i]);
    }

    lemma IdleTail(lens: seq<nat>, outs: seq<seq<Byte>>, offs: seq<nat>, vs: seq<Block>,
                   targets: seq<(seq<Byte>, Block)>, d: nat, i: nat)
      requires i < |lens| && Waiting(lens, outs, offs, vs, targets, d, i)
      requires Count(lens, d) == 0 || RunLength(lens, d) == 0 || !Active(lens[i], d)
      ensures TailLeft(lens, outs, offs, vs, targets, i)
    {
      CutsAtEnd(lens, d, i);
    }

    /** Whatever is left of each buffer, one kernel call per buffer. */
    method RunTails(outs: array<seq<Byte>>, offs: array<nat>, lens: seq<nat>, ghost targets: seq<(seq<Byte>, Block)>)
      requires Valid() && outs as object != ivs && |lens| <= MAX_BUFFERS && |lens| <= offs.Length && |lens| <= outs.Length
      requires TailsLeft(lens, outs[..], offs[..], ivs[..], targets) && |targets| == |lens|
      modifies outs, ivs
      ensures forall i :: 0 <= i < |lens| ==> (outs[i], ivs[i]) == targets[i]
      ensures Beyond(|lens|, old(outs[..]), old(ivs[..]), outs[..], ivs[..])
    {
      for i := 0 to |lens|
        invariant forall k :: 0 <= k < i ==> (outs[k], ivs[k]) == targets[k]
        invariant forall k :: i <= k < |lens| ==> TailLeft(lens, outs[..], offs[..], ivs[..], targets, k)
        invariant Beyond(|lens|, old(outs[..]), old(ivs[..]), outs[..], ivs[..])
      {
        ghost var outs0, offs0, ivs0 := outs[..], offs[..], ivs[..];
        RunTail(outs, offs, lens, i, targets);
        assert offs[..] == offs0;
        forall k | i + 1 <= k < |lens| ensures TailLeft(lens, outs[..], offs[..], ivs[..], targets, k) {
          assert TailLeft(lens, outs0, offs0, ivs0, targets, k);
          LaneKept(lens, outs0, offs0, ivs0, outs[..], offs[..], ivs[..], targets, k, offs[k], Tail(offs[k], lens[k]));
        }
      }
    }

    method RunTail(outs: array<seq<Byte>>, offs: array<nat>, lens: seq<nat>, i: nat, ghost targets: seq<(seq<Byte>, Block)>)
      requires Valid() && outs as object != ivs && |lens| <= MAX_BUFFERS && |lens| <= offs.Length
      requires TailLeft(lens, outs[..], offs[..], ivs[..], targets, i)
      modifies outs, ivs
      ensures (outs[i], ivs[i]) == targets[i]
      ensures forall k :: 0 <= k < outs.Length && k != i ==> outs[k] == old(outs[k])
      ensures forall k :: 0 <= k < ivs.Length && k != i ==> ivs[k] == old(ivs[k])
    {
      ghost var data := pData[i][..lens[i]];
      var remaining := lens[i] - offs[i];
      if remaining > 0 {
        var c, v := SingleKernel(pData[i][offs[i]..lens[i]], ivs[i]);
        TrackRun(K(), outs[i], ivs[i], data, offs[i], [remaining], targets[i]);
        assert data[offs[i]..offs[i] + remaining] == pData[i][offs[i]..lens[i]];
        TrackEnd(K(), Put(outs[i], offs[i], c), v, data, lens[i], targets[i]);
        outs[i] := Put(outs[i], offs[i], c);
        ivs[i] := v;
      } else {
        TrackEnd(K(), outs[i], ivs[i], data, offs[i], targets[i]);
      }
    }

    // ---------------------------------------------------------------- the interface

    /** The staged data and the output buffers have room for the given lengths. */
    ghost predicate Staged(outs: seq<seq<Byte>>, lens: seq<nat>)
      reads this
    {
      && |lens| <= MAX_BUFFERS && |lens| <= |pData| && |lens| <= |outs|
      && forall i :: 0 <= i < |lens| ==> lens[i] <= |pData[i]| && lens[i] <= |outs[i]| && lens[i] < 0x1_0000_0000_0000_0000
    }

    /** Lane i of `outs` and of the IV store is what its runs leave. */
    ghost predicate Produced(lens: seq<nat>, outs0: seq<seq<Byte>>, vs0: seq<Block>,
                             outs: seq<seq<Byte>>, vs: seq<Block>, i: nat, segs: seq<nat>)
      reads this
    {
      && i < |lens| && i < |outs0| && i < |vs0| && i < |outs| && i < |vs| && i < |pData|
      && lens[i] <= |pData[i]| && lens[i] <= |outs0[i]| && Sum(segs) == lens[i]
      && (outs[i], vs[i]) == Target(K(), outs0[i], vs0[i], pData[i][..lens[i]], segs)
    }

    /**
     Encrypts the staged buffers. The lengths are the caller's, or else those of the last flush.
     Without the lane kernels the number of buffers is not checked: with a key set, the call stays
     inside the IV store exactly when the lane kernels are used or there are at most 127 buffers.
     */
    method Dequeue(outs: array<seq<Byte>>, numBuffers: nat, pLengths: Option<seq<nat>>) returns (outcome: Outcome)
      requires Valid() && outs as object != ivs && numBuffers < 0x1_0000_0000_0000_0000
      requires pLengths.Some? ==> numBuffers <= |pLengths.value|
      requires isKeySet && (vaes ==> numBuffers <= MAX_BUFFERS) ==>
                 Staged(outs[..], Lengths(Min(numBuffers, MAX_BUFFERS), pLengths))
      modifies outs, ivs
      ensures isKeySet ==> (outcome.Returned? <==> vaes || numBuffers <= MAX_BUFFERS)
      ensures outcome.Returned? ==>
        outcome.err == if !isKeySet then BAD_STATE else if numBuffers > MAX_BUFFERS then INVALID_ARG else NONE
      ensures outcome.Returned? && outcome.err != NONE ==> outs[..] == old(outs[..]) && ivs[..] == old(ivs[..])
      ensures outcome in {Returned(NONE), Overrun} ==> forall i :: 0 <= i < Min(numBuffers, MAX_BUFFERS) ==>
        var lens := Lengths(Min(numBuffers, MAX_BUFFERS), pLengths);
        Produced(lens, old(outs[..]), old(ivs[..]), outs[..], ivs[..], i, Runs(lens, i))
      ensures Beyond(numBuffers, old(outs[..]), old(ivs[..]), outs[..], ivs[..])
    {
      if !isKeySet {
        return Returned(BAD_STATE);
      }
      if !vaes {
        outcome := OneByOne(outs, numBuffers, pLengths);
        return;
      }
      if numBuffers > MAX_BUFFERS {
        return Returned(INVALID_ARG);
      }
      var lens := if pLengths.Some? then pLengths.value[..numBuffers] else bufferLengths[..numBuffers];
      Scheduled(outs, lens);
      outcome := Returned(NONE);
    }

    /** What a dequeue leaves for buffer i, spelled out: its runs, by the schedule of all lengths with
        the lane kernels and in one piece without, in front of what the output buffer held. */
    lemma ProducedIs(n: nat, pLengths: Option<seq<nat>>, outs0: seq<seq<Byte>>, vs0: seq<Block>,
                     outs: seq<seq<Byte>>, vs: seq<Block>, i: nat)
      requires Valid() && n <= 127 && (pLengths.Some? ==> n <= |pLengths.value|) && i < n
      requires Produced(Lengths(n, pLengths), outs0, vs0, outs, vs, i, Runs(Lengths(n, pLengths), i))
      ensures var lens := if pLengths.Some? then pLengths.value[..n] else bufferLengths[..n];
        var segs := if vaes then Schedule(lens, i) else if lens[i] > 0 then [lens[i]] else [];
        && i < |outs| && i < |vs| && i < |outs0| && i < |vs0| && i < |pData|
        && Sum(segs) == lens[i] <= |pData[i]| && lens[i] <= |outs0[i]|
        && var k, data := Kernel(mode, cipher, multiUpdate), pData[i][..lens[i]];
           outs[i] == Emit(k, vs0[i], data, segs) + outs0[i][lens[i]..] && vs[i] == IvAfter(k, vs0[i], data, segs)
    {
    }

    /** The input that shows it: 128 buffers on a processor without the lane kernels. */
    method OneTooMany(outs: array<seq<Byte>>, pLengths: Option<seq<nat>>) returns (outcome: Outcome)
      requires Valid() && isKeySet && !vaes && outs as object != ivs
      requires (pLengths.Some? ==> 128 <= |pLengths.value|) && Staged(outs[..], Lengths(127, pLengths))
      modifies outs, ivs
      ensures outcome == Overrun
    {
      outcome := Dequeue(outs, 128, pLengths);
    }

    /** The Iterative MinLen algorithm: levels, last common run, tails. */
    method Scheduled(outs: array<seq<Byte>>, lens: seq<nat>)
      requires Valid() && outs as object != ivs && Staged(outs[..], lens)
      modifies outs, ivs
      ensures forall i :: 0 <= i < |lens| ==>
        Produced(lens, old(outs[..]), old(ivs[..]), outs[..], ivs[..], i, Schedule(lens, i))
      ensures Beyond(|lens|, old(outs[..]), old(ivs[..]), outs[..], ivs[..])
    {
      ghost var outs0, ivs0 := outs[..], ivs[..];
      ghost var targets := Targets(lens, outs0, ivs0);
      StartLevel(lens, outs0, seq(MAX_BUFFERS, _ => 0), ivs0);
      var currentOffsets := CommonRuns(outs, lens, targets);
      RunTails(outs, currentOffsets, lens, targets);
      TargetsReached(lens, outs0, ivs0, outs[..], ivs[..]);
    }

    /** All the runs that buffers take together. */
    method CommonRuns(outs: array<seq<Byte>>, lens: seq<nat>, ghost targets: seq<(seq<Byte>, Block)>)
      returns (currentOffsets: array<nat>)
      requires Valid() && outs as object != ivs && |lens| <= MAX_BUFFERS
      requires forall i :: 0 <= i < |lens| ==> lens[i] < 0x1_0000_0000_0000_0000
      requires AtLevel(lens, outs[..], seq(MAX_BUFFERS, _ => 0), ivs[..], targets, 0)
      modifies outs, ivs
      ensures fresh(currentOffsets) && currentOffsets.Length == MAX_BUFFERS
      ensures TailsLeft(lens, outs[..], currentOffsets[..], ivs[..], targets)
      ensures Beyond(|lens|, old(outs[..]), old(ivs[..]), outs[..], ivs[..])
    {
      var activeIndices := new nat[MAX_BUFFERS](i => i);
      currentOffsets := new nat[MAX_BUFFERS](_ => 0);
      AllActive(lens);
      assert activeIndices[..|lens|] == ActiveList(lens, 0);
      assert currentOffsets[..] == seq(MAX_BUFFERS, _ => 0);
      var activeCount, d := RunLevels(outs, currentOffsets, activeIndices, lens, targets);
      LastRun(outs, currentOffsets, activeIndices, activeCount, lens, d, targets);
    }

    lemma TargetsReached(lens: seq<nat>, outs0: seq<seq<Byte>>, ivs0: seq<Block>, outs: seq<seq<Byte>>, vs: seq<Block>)
      requires Staged(outs0, lens) && |lens| <= |ivs0| && |lens| <= |outs| && |lens| <= |vs|
      requires forall i :: 0 <= i < |lens| ==> (outs[i], vs[i]) == Targets(lens, outs0, ivs0)[i]
      ensures forall i :: 0 <= i < |lens| ==> Produced(lens, outs0, ivs0, outs, vs, i, Schedule(lens, i))
    {
      var t := Targets(lens, outs0, ivs0);
      forall i | 0 <= i < |lens| ensures Produced(lens, outs0, ivs0, outs, vs, i, Schedule(lens, i)) {
        assert (outs[i], vs[i]) == t[i];
      }
    }

    /** Where no lane kernels are used, or chaining values are written back, or the lengths are
        uniform, every buffer holds what encrypting it alone gives. */
    lemma SingleBufferResult(lens: seq<nat>, outs0: seq<seq<Byte>>, vs0: seq<Block>,
                             outs: seq<seq<Byte>>, vs: seq<Block>, i: nat)
      requires i < |lens| && Produced(lens, outs0, vs0, outs, vs, i, Runs(lens, i))
      requires !vaes || multiUpdate || Uniform(lens)
      ensures outs[i] == Encrypt(mode, cipher, vs0[i], pData[i][..lens[i]]) + outs0[i][lens[i]..]
      ensures multiUpdate ==> vs[i] == Chain(mode, cipher, vs0[i], pData[i][..lens[i]])
    {
      var data := pData[i][..lens[i]];
      ScheduleCovers(lens, i);
      if !vaes {
        OneRunTarget(K(), outs0[i], vs0[i], data);
      } else if multiUpdate {
        RunsCompose(K(), vs0[i], data, Schedule(lens, i));
      } else {
        UncutIffUniform(lens);
        OneRun(K(), vs0[i], data, Schedule(lens, i));
      }
    }

    ghost function Lengths(numBuffers: nat, pLengths: Option<seq<nat>>): seq<nat>
      requires Valid() && numBuffers <= MAX_BUFFERS && (pLengths.Some? ==> numBuffers <= |pLengths.value|)
      reads this, bufferLengths
    {
      if pLengths.Some? then pLengths.value[..numBuffers] else bufferLengths[..numBuffers]
    }

    /** The runs of buffer i: the MinLen schedule, or one run where lanes are not available. */
    ghost function Runs(lens: seq<nat>, i: nat): seq<nat>
      requires i < |lens|
    {
      if vaes then Schedule(lens, i) else Tail(0, lens[i])
    }

    ghost function Targets(lens: seq<nat>, outs: seq<seq<Byte>>, vs: seq<Block>): (t: seq<(seq<Byte>, Block)>)
      requires Staged(outs, lens) && |lens| <= |vs|
      reads this
      ensures |t| == |lens|
      ensures forall i :: 0 <= i < |lens| ==>
        && Sum(Schedule(lens, i)) == lens[i]
        && t[i] == Target(K(), outs[i], vs[i], pData[i][..lens[i]], Schedule(lens, i))
    {
      AllCover(lens);
      seq(|lens|, i requires 0 <= i < |lens| reads this
        requires |lens| <= |outs| && |lens| <= |pData| && lens[i] <= |pData[i]| && lens[i] <= |outs[i]|
        requires Sum(Schedule(lens, i)) == lens[i] =>
        Target(K(), outs[i], vs[i], pData[i][..lens[i]], Schedule(lens, i)))
    }

    lemma StartLevel(lens: seq<nat>, outs: seq<seq<Byte>>, offs: seq<nat>, vs: seq<Block>)
      requires Staged(outs, lens) && |lens| <= |vs| && |lens| <= |offs|
      requires forall i :: 0 <= i < |lens| ==> offs[i] == 0
      ensures AtLevel(lens, outs, offs, vs, Targets(lens, outs, vs), 0)
    {
      forall i | 0 <= i < |lens| ensures Waiting(lens, outs, offs, vs, Targets(lens, outs, vs), 0, i) {
        CutsAtStart(lens, i);
        AllCover(lens);
        TrackStart(K(), outs[i], vs[i], pData[i][..lens[i]], Schedule(lens, i));
      }
    }

    /** Without the lane kernels each buffer is encrypted in one call, until there is no IV for it. */
    method OneByOne(outs: array<seq<Byte>>, numBuffers: nat, pLengths: Option<seq<nat>>) returns (outcome: Outcome)
      requires Valid() && outs as object != ivs && !vaes
      requires pLengths.Some? ==> numBuffers <= |pLengths.value|
      requires Staged(outs[..], Lengths(Min(numBuffers, MAX_BUFFERS), pLengths))
      modifies outs, ivs
      ensures outcome == if numBuffers <= MAX_BUFFERS then Returned(NONE) else Overrun
      ensures forall i :: 0 <= i < Min(numBuffers, MAX_BUFFERS) ==>
        var lens := Lengths(Min(numBuffers, MAX_BUFFERS), pLengths);
        Produced(lens, old(outs[..]), old(ivs[..]), outs[..], ivs[..], i, Runs(lens, i))
      ensures Beyond(numBuffers, old(outs[..]), old(ivs[..]), outs[..], ivs[..])
    {
      ghost var lens := Lengths(Min(numBuffers, MAX_BUFFERS), pLengths);
      ghost var outs0, ivs0 := outs[..], ivs[..];
      for i := 0 to numBuffers
        invariant i <= MAX_BUFFERS
        invariant forall k :: 0 <= k < i ==> Produced(lens, outs0, ivs0, outs[..], ivs[..], k, Tail(0, lens[k]))
        invariant forall k :: i <= k < outs.Length ==> outs[k] == outs0[k]
        invariant forall k :: i <= k < ivs.Length ==> ivs[k] == ivs0[k]
      {
        if i >= ivs.Length {
          return Overrun;
        }
        var len := if pLengths.Some? then pLengths.value[i] else bufferLengths[i];
        ghost var data := pData[i][..len];
        var c, v := SingleKernel(pData[i][..len], ivs[i]);
        OneRunTarget(K(), outs0[i], ivs0[i], data);
        outs[i] := c + outs[i][len..];
        ivs[i] := v;
      }
      outcome := Returned(NONE);
    }

    /** Stages the buffers and their lengths; nothing is encrypted yet. */
    method Flush(plain: Option<seq<seq<Byte>>>, lengths: Option<seq<nat>>, n: nat) returns (err: Error)
      requires Valid() && (lengths.Some? ==> n <= |lengths.value|)
      modifies this`pData, this`numBuffers, bufferLengths
      ensures err == if plain.None? || lengths.None? || n > MAX_BUFFERS then INVALID_ARG else NONE
      ensures err == NONE ==> pData == plain.value && numBuffers == n && bufferLengths[..n] == lengths.value[..n]
      ensures err != NONE ==> pData == old(pData) && numBuffers == old(numBuffers)
      ensures forall k :: (if err == NONE then n else 0) <= k < MAX_BUFFERS ==>
                bufferLengths[k] == old(bufferLengths[k])
    {
      if plain.None? || lengths.None? {
        return INVALID_ARG;
      }
      if n > MAX_BUFFERS {
        return INVALID_ARG;
      }
      pData, numBuffers := plain.value, n;
      for i := 0 to n
        invariant pData == plain.value && numBuffers == n
        invariant forall k :: 0 <= k < i ==> bufferLengths[k] == lengths.value[k]
        invariant forall k :: i <= k < MAX_BUFFERS ==> bufferLengths[k] == old(bufferLengths[k])
      {
        bufferLengths[i] := lengths.value[i];
      }
      err := NONE;
    }

    /**
     Sets the key, if one is given, and one IV per buffer. An IV shorter than a block replaces
     only its first bytes. A null IV stops the copying; the IVs before it are replaced already.
     The first IV becomes that of the single-buffer calls as well, if it is a whole block: the IV
     manager refuses any other length, and nobody asks for its answer.
     */
    method MultibufferInit(pKey: Option<seq<Byte>>, keyLen: nat, pIv: seq<Option<seq<Byte>>>, ivLen: nat, n: nat)
      returns (err: Error)
      requires Valid() && (pKey.Some? ==> keyLen / 8 <= |pKey.value|) && n <= |pIv|
      requires forall i :: 0 <= i < |pIv| && pIv[i].Some? ==> ivLen <= |pIv[i].value|
      modifies this`cipher, this`isKeySet, this`numBuffers, this`iv, this`isIvSet, ivs
      ensures err == InitError(pKey, keyLen, pIv, ivLen, n)
      ensures var keyed := 0 < n <= MAX_BUFFERS && 0 < ivLen <= 16 && pKey.Some? && keyLen != 0
                           && KeyError(keyLen) == NONE;
              cipher == (if keyed then expand(pKey.value[..keyBytes]) else old(cipher))
              && isKeySet == (keyed || old(isKeySet))
      ensures forall i :: 0 <= i < MAX_BUFFERS ==>
        ivs[i] == if i < Copied(pKey, keyLen, pIv, ivLen, n) then Spliced(pIv[i].value, ivLen, old(ivs[i])) else old(ivs[i])
      ensures numBuffers == if err == NONE then n else old(numBuffers)
      ensures iv == (if err == NONE && ivLen == 16 then pIv[0].value[..16] else old(iv))
      ensures isIvSet == (err == NONE || old(isIvSet))
    {
      if n == 0 || ivLen == 0 {
        return INVALID_ARG;
      }
      if ivLen > 16 || n > MAX_BUFFERS {
        return INVALID_ARG;
      }
      if pKey.Some? && keyLen != 0 {
        if KeyError(keyLen) != NONE {
          return KeyError(keyLen);
        }
        cipher, isKeySet := expand(pKey.value[..keyLen / 8]), true;
      }
      var copied := CopyIvs(pIv[..n], ivLen);
      if !copied {
        return INVALID_ARG;
      }
      numBuffers := n;
      var ignored := SetIv(pIv[0].value, ivLen);
      isIvSet := true;
      err := NONE;
    }

    /** The errors and the IV store after the call, spelled out. */
    lemma InitMeans(pKey: Option<seq<Byte>>, keyLen: nat, pIv: seq<Option<seq<Byte>>>, ivLen: nat, n: nat, i: nat, iv0: Block)
      requires n <= |pIv| && keyBytes in {16, 24, 32}
      requires forall i :: 0 <= i < |pIv| && pIv[i].Some? ==> ivLen <= |pIv[i].value|
      ensures InitError(pKey, keyLen, pIv, ivLen, n) ==
        if n == 0 || n > 127 || ivLen == 0 || ivLen > 16 then INVALID_ARG
        else if pKey.Some? && keyLen != 0 && keyLen / 8 != keyBytes then INVALID_SIZE
        else if exists i :: 0 <= i < n && pIv[i].None? then INVALID_ARG
        else NONE
      ensures i < Copied(pKey, keyLen, pIv, ivLen, n) <==>
        && i < n <= 127 && 0 < ivLen <= 16 && (pKey.Some? && keyLen != 0 ==> keyLen / 8 == keyBytes)
        && forall j :: 0 <= j <= i ==> pIv[j].Some?
      ensures i < Copied(pKey, keyLen, pIv, ivLen, n) ==>
        Spliced(pIv[i].value, ivLen, iv0) == pIv[i].value[..ivLen] + iv0[ivLen..]
    {
      if i < n && forall j :: 0 <= j <= i ==> pIv[j].Some? {
        assert FirstNull(pIv[..n]) > i;
      }
    }

    /** The IV manager of the generic ciphers takes whole blocks only. */
    method SetIv(newIv: seq<Byte>, ivLen: nat) returns (err: Error)
      requires ivLen <= |newIv|
      modifies `iv
      ensures err == if ivLen == 16 then NONE else INVALID_SIZE
      ensures iv == if ivLen == 16 then newIv[..16] else old(iv)
    {
      if ivLen != 16 {
        return INVALID_SIZE;
      }
      iv := newIv[..16];
      err := NONE;
    }

    /** Copies IVs to the store up to the first null one. */
    method CopyIvs(pIv: seq<Option<seq<Byte>>>, ivLen: nat) returns (all: bool)
      requires Valid() && |pIv| <= MAX_BUFFERS && forall i :: 0 <= i < |pIv| && pIv[i].Some? ==> ivLen <= |pIv[i].value|
      modifies ivs
      ensures all <==> forall i :: 0 <= i < |pIv| ==> pIv[i].Some?
      ensures forall i :: 0 <= i < MAX_BUFFERS ==>
        ivs[i] == if i < FirstNull(pIv) then Spliced(pIv[i].value, ivLen, old(ivs[i])) else old(ivs[i])
    {
      for i := 0 to |pIv|
        invariant i <= FirstNull(pIv)
        invariant forall k :: 0 <= k < MAX_BUFFERS ==>
          ivs[k] == if k < i then Spliced(pIv[k].value, ivLen, old(ivs[k])) else old(ivs[k])
      {
        if pIv[i].None? {
          return false;
        }
        ivs[i] := Spliced(pIv[i].value, ivLen, ivs[i]);
      }
      all := true;
    }

    /** An IV of ivLen bytes copied over the start of a block. */
    function Spliced(given: seq<Byte>, ivLen: nat, block: Block): Block
      requires ivLen <= |given|
    {
      if ivLen <= 16 then given[..ivLen] + block[ivLen..] else block
    }

    /** The position of the first null pointer, or the length. */
    function FirstNull(pIv: seq<Option<seq<Byte>>>): (k: nat)
      ensures k <= |pIv| && (forall i :: 0 <= i < k ==> pIv[i].Some?) && (k < |pIv| ==> pIv[k].None?)
    {
      if pIv == [] || pIv[0].None? then 0
      else
        var k := FirstNull(pIv[1..]);
        assert forall i :: 0 < i <= k ==> pIv[i] == pIv[1..][i - 1];
        k + 1
    }

    /** How many IVs are replaced: those before the first null one, if it comes to copying. */
    function Copied(pKey: Option<seq<Byte>>, keyLen: nat, pIv: seq<Option<seq<Byte>>>, ivLen: nat, n: nat): (k: nat)
      requires n <= |pIv|
      ensures k <= n && forall i :: 0 <= i < k ==> pIv[i].Some?
    {
      if n == 0 || ivLen == 0 || ivLen > 16 || n > MAX_BUFFERS then 0
      else if pKey.Some? && keyLen != 0 && KeyError(keyLen) != NONE then 0
      else FirstNull(pIv[..n])
    }

    /** The key manager's length check; the length in bits is rounded down to bytes. */
    function KeyError(keyLen: nat): Error {
      if keyLen == 0 || keyLen / 8 > 32 || keyLen / 8 != keyBytes then INVALID_SIZE else NONE
    }

    ghost function InitError(pKey: Option<seq<Byte>>, keyLen: nat, pIv: seq<Option<seq<Byte>>>, ivLen: nat, n: nat): Error
      requires n <= |pIv|
    {
      if n == 0 || ivLen == 0 || ivLen > 16 || n > MAX_BUFFERS then INVALID_ARG
      else if pKey.Some? && keyLen != 0 && KeyError(keyLen) != NONE then KeyError(keyLen)
      else if exists i :: 0 <= i < n && pIv[i].None? then INVALID_ARG
      else NONE
    }
  }

  lemma OneRunTarget(k: Kernel, out: seq<Byte>, iv: Block, data: seq<Byte>)
    requires |data| <= |out|
    ensures Sum(Tail(0, |data|)) == |data|
    ensures Target(k, out, iv, data, Tail(0, |data|))
         == (Encrypt(k.m, k.C, iv, data) + out[|data|..], WriteBack(k.multiUpdate, iv, Chain(k.m, k.C, iv, data)))
  {
    if data == [] {
      assert out[0..] == out;
    } else {
      var n := |data|;
      assert [n][1..] == [] && data[..n] == data && Tail(0, n) == [n];
      var v := WriteBack(k.multiUpdate, iv, Chain(k.m, k.C, iv, data));
      assert Emit(k, v, data[n..], []) == [] && IvAfter(k, v, data[n..], []) == v;
      assert Emit(k, iv, data, [n]) == Encrypt(k.m, k.C, iv, data);
    }
  }

  lemma {:induction false} AllActive(lens: seq<nat>)
    ensures ActiveList(lens, 0) == seq(|lens|, i => i)
  {
    if lens != [] {
      AllActive(lens[..|lens| - 1]);
    }
  }

  lemma AllCover(lens: seq<nat>)
    ensures forall i :: 0 <= i < |lens| ==> Sum(Schedule(lens, i)) == lens[i]
  {
    forall i | 0 <= i < |lens| ensures Sum(Schedule(lens, i)) == lens[i] {
      ScheduleCovers(lens, i);
    }
  }

  /** With one or two active buffers the run is their least remainder in whole blocks. */
  lemma PairLeast(lens: seq<nat>, d: nat, list: seq<nat>, run: nat)
    requires Lists(list, lens, d) && |list| == Count(lens, d) && 1 <= |list| <= 2
    requires run % 16 == 0 && run <= Least(list, lens) - d < run + 16
    ensures run == RunLength(lens, d)
  {
    ShortestOfPair(lens, d, list);
    RunLengthBounds(lens, d);
    OneMultiple(run, RunLength(lens, d), Shortest(lens, d) - d);
  }

  lemma RunLengthBounds(lens: seq<nat>, d: nat)
    requires Count(lens, d) > 0
    ensures RunLength(lens, d) <= Shortest(lens, d) - d < RunLength(lens, d) + 16
  {
  }

  lemma OneMultiple(a: nat, b: nat, x: int)
    requires a % 16 == 0 && b % 16 == 0 && a <= x < a + 16 && b <= x < b + 16
    ensures a == b
  {
  }

  lemma ShortestOfPair(lens: seq<nat>, d: nat, list: seq<nat>)
    requires Lists(list, lens, d) && |list| == Count(lens, d) && 1 <= |list| <= 2
    ensures Shortest(lens, d) == Least(list, lens)
  {
    var s := Shortest(lens, d);
    var i :| 0 <= i < |lens| && Active(lens[i], d) && s == lens[i];
    var k :| 0 <= k < |list| && list[k] == i;
    var a, b := list[0], list[|list| - 1];
    assert i == a || i == b;
    assert Active(lens[a], d) && Active(lens[b], d);
    assert s == Least(list, lens);
  }

  function Least(list: seq<nat>, lens: seq<nat>): nat
    requires 1 <= |list| <= 2 && forall k :: 0 <= k < |list| ==> list[k] < |lens|
  {
    var a, b := lens[list[0]], lens[list[|list| - 1]];
    if a < b then a else b
  }

  lemma LastCuts(lens: seq<nat>, d: nat, list: seq<nat>)
    requires Lists(list, lens, d) && 1 <= Count(lens, d) <= 2 && RunLength(lens, d) > 0
    ensures forall k :: 0 <= k < |list| ==> FirstCut(lens, d, list[k], RunLength(lens, d))
  {
    forall k | 0 <= k < |list| ensures FirstCut(lens, d, list[k], RunLength(lens, d)) {
      CutsAtLast(lens, d, list[k]);
    }
  }

  lemma FirstCuts(lens: seq<nat>, d: nat, list: seq<nat>)
    requires Lists(list, lens, d) && Count(lens, d) > 2 && RunLength(lens, d) > 0
    ensures forall k :: 0 <= k < |list| ==> FirstCut(lens, d, list[k], RunLength(lens, d))
  {
    forall k | 0 <= k < |list| ensures FirstCut(lens, d, list[k], RunLength(lens, d)) {
      CutsAtNext(lens, d, list[k]);
    }
  }

  lemma ListsActive(lens: seq<nat>, d: nat)
    ensures Lists(ActiveList(lens, d), lens, d)
  {
    ActiveListMembers(lens, d);
  }

  lemma LongestBound(lens: seq<nat>, d: nat)
    requires Count(lens, d) > 0
    ensures d + RunLength(lens, d) <= Longest(lens)
  {
    var s := Shortest(lens, d);
  }

  /** The first run of buffer i from level d is n bytes. */
  ghost predicate FirstCut(lens: seq<nat>, d: nat, i: nat, n: nat) {
    i < |lens| && CutsAt(lens, d, i) != [] && CutsAt(lens, d, i)[0] == n
  }

  /** The list holds exactly the buffers active at level d, each once. */
  ghost predicate Lists(active: seq<nat>, lens: seq<nat>, d: nat) {
    && Distinct(active)
    && (forall k :: 0 <= k < |active| ==> active[k] < |lens| && Active(lens[active[k]], d))
    && (forall i :: 0 <= i < |lens| && Active(lens[i], d) ==> i in active)
  }

  ghost predicate Distinct(s: seq<nat>) {
    forall j, l :: 0 <= j < l < |s| ==> s[j] != s[l]
  }
}
