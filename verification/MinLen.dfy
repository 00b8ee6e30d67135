/**
 The Iterative MinLen schedule of AesGenericCiphersT::dequeue: which run of bytes of which
 buffer is handed to a kernel, in which order. The schedule depends on the buffer lengths only.
 The theorems say what the kernels, called on that schedule, write for each buffer.
 */
module MinLen {
  import opened Bytes
  import opened BlockModes
  import opened AesKernels

  // ------------------------------------------------------------------ the schedule

  /** At offset d the buffers still active are the longer ones; at the start, all of them. */
  predicate Active(len: nat, d: nat) {
    d == 0 || len > d
  }

  function Count(lens: seq<nat>, d: nat): nat {
    if lens == [] then 0 else Count(lens[..|lens| - 1], d) + if Active(lens[|lens| - 1], d) then 1 else 0
  }

  /** The shortest active length. */
  function Shortest(lens: seq<nat>, d: nat): (r: nat)
    requires Count(lens, d) > 0
    ensures r >= d && exists i :: 0 <= i < |lens| && Active(lens[i], d) && r == lens[i]
    ensures forall i :: 0 <= i < |lens| && Active(lens[i], d) ==> r <= lens[i]
  {
    var init, last := lens[..|lens| - 1], lens[|lens| - 1];
    if Count(init, d) == 0 then
      assert forall i :: 0 <= i < |init| ==> !Active(init[i], d) by { CountZero(init, d); }
      assert lens == init + [last];
      last
    else
      var r := Shortest(init, d);
      assert forall i :: 0 <= i < |init| ==> lens[i] == init[i];
      if Active(last, d) && last < r then last else r
  }

  lemma {:induction false} CountZero(lens: seq<nat>, d: nat)
    ensures Count(lens, d) == 0 <==> forall i :: 0 <= i < |lens| ==> !Active(lens[i], d)
  {
    if lens != [] {
      var init := lens[..|lens| - 1];
      CountZero(init, d);
      assert forall i :: 0 <= i < |init| ==> lens[i] == init[i];
    }
  }

  /** The bytes that all active buffers take together: the greatest number of whole blocks that
      every one of them still has. */
  function RunLength(lens: seq<nat>, d: nat): (n: nat)
    requires Count(lens, d) > 0
    ensures n % 16 == 0
    ensures forall i :: 0 <= i < |lens| && Active(lens[i], d) ==> d + n <= lens[i]
    ensures exists i :: 0 <= i < |lens| && Active(lens[i], d) && lens[i] < d + n + 16
  {
    Aligned(Shortest(lens, d) - d)
  }

  function Longest(lens: seq<nat>): (m: nat)
    ensures forall i :: 0 <= i < |lens| ==> lens[i] <= m
  {
    if lens == [] then 0
    else
      var m := Longest(lens[..|lens| - 1]);
      if lens[|lens| - 1] > m then lens[|lens| - 1] else m
  }

  /** The offsets at which the common runs end; two buffers or one take a single last run. */
  function Levels(lens: seq<nat>, d: nat): (l: seq<nat>)
    decreases Longest(lens) - d
  {
    if Count(lens, d) == 0 || RunLength(lens, d) == 0 then []
    else
      var e := d + RunLength(lens, d);
      if Count(lens, d) <= 2 then [e] else [e] + Levels(lens, e)
  }

  /** The runs of one buffer: up to each level it reaches, then whatever is left. */
  function Cuts(levels: seq<nat>, d: nat, len: nat): seq<nat>
    requires Ladder(levels, d)
    decreases |levels|
  {
    if levels == [] || levels[0] > len then if d < len then [len - d] else []
    else [levels[0] - d] + Cuts(levels[1..], levels[0], len)
  }

  ghost predicate Ladder(levels: seq<nat>, d: nat)
    decreases |levels|
  {
    levels == [] || (levels[0] > d && (levels[0] - d) % 16 == 0 && Ladder(levels[1..], levels[0]))
  }

  lemma {:induction false} LevelsLadder(lens: seq<nat>, d: nat)
    ensures Ladder(Levels(lens, d), d)
    decreases Longest(lens) - d
  {
    if Count(lens, d) != 0 && RunLength(lens, d) != 0 {
      LevelsLadder(lens, d + RunLength(lens, d));
    }
  }

  /** The runs of buffer i. */
  function Schedule(lens: seq<nat>, i: nat): seq<nat>
    requires i < |lens|
  {
    LevelsLadder(lens, 0);
    Cuts(Levels(lens, 0), 0, lens[i])
  }

  function Sum(s: seq<nat>): nat {
    if s == [] then 0 else s[0] + Sum(s[1..])
  }

  /** Positive runs of len bytes in all; every run but the last is whole blocks. */
  ghost predicate Covers(segs: seq<nat>, len: nat) {
    if segs == [] then len == 0
    else 0 < segs[0] <= len && (|segs| > 1 ==> segs[0] % 16 == 0) && Covers(segs[1..], len - segs[0])
  }

  lemma {:induction false} CutsCover(levels: seq<nat>, d: nat, len: nat)
    requires Ladder(levels, d) && d <= len
    ensures Covers(Cuts(levels, d, len), len - d)
    decreases |levels|
  {
    if levels != [] && levels[0] <= len {
      CutsCover(levels[1..], levels[0], len);
      var rest := Cuts(levels[1..], levels[0], len);
      assert ([levels[0] - d] + rest)[1..] == rest;
    }
  }

  lemma {:induction false} CoversSum(segs: seq<nat>, len: nat)
    requires Covers(segs, len)
    ensures Sum(segs) == len
  {
    if segs != [] {
      CoversSum(segs[1..], len - segs[0]);
    }
  }

  // ------------------------------------------------------------------ the list of active buffers

  /** The active buffers in ascending order, as the scheduler keeps them. */
  function ActiveList(lens: seq<nat>, d: nat): (a: seq<nat>)
    ensures |a| == Count(lens, d)
  {
    if lens == [] then []
    else ActiveList(lens[..|lens| - 1], d) + if Active(lens[|lens| - 1], d) then [|lens| - 1] else []
  }

  lemma {:induction false} ActiveListMembers(lens: seq<nat>, d: nat)
    ensures forall k :: 0 <= k < |ActiveList(lens, d)| ==>
              ActiveList(lens, d)[k] < |lens| && Active(lens[ActiveList(lens, d)[k]], d)
    ensures forall j, k :: 0 <= j < k < |ActiveList(lens, d)| ==> ActiveList(lens, d)[j] < ActiveList(lens, d)[k]
    ensures forall i :: 0 <= i < |lens| && Active(lens[i], d) ==> i in ActiveList(lens, d)
  {
    if lens != [] {
      var init := lens[..|lens| - 1];
      ActiveListMembers(init, d);
      assert forall i :: 0 <= i < |init| ==> lens[i] == init[i];
    }
  }

  /** The buffers of the list that are longer than e. */
  function Keep(list: seq<nat>, lens: seq<nat>, e: nat): (r: seq<nat>)
    requires forall k :: 0 <= k < |list| ==> list[k] < |lens|
    ensures |r| <= |list|
  {
    if list == [] then []
    else
      var last := list[|list| - 1];
      Keep(list[..|list| - 1], lens, e) + if lens[last] > e then [last] else []
  }

  /** Dropping the completed buffers leaves exactly those active at the next level. */
  lemma {:induction false} KeepActive(lens: seq<nat>, d: nat, e: nat, all: seq<nat>)
    requires d < e && lens <= all
    requires forall k :: 0 <= k < |ActiveList(lens, d)| ==> ActiveList(lens, d)[k] < |all|
    ensures Keep(ActiveList(lens, d), all, e) == ActiveList(lens, e)
  {
    if lens != [] {
      var init := lens[..|lens| - 1];
      var l := ActiveList(lens, d);
      ActiveListMembers(init, d);
      KeepActive(init, d, e, all);
      if Active(lens[|lens| - 1], d) {
        assert l[..|l| - 1] == ActiveList(init, d);
      } else {
        assert l == ActiveList(init, d);
      }
    }
  }

  // ------------------------------------------------------------------ what the kernels write

  /** A chaining kernel in one build of the library. */
  datatype Kernel = Kernel(m: ChainMode, C: BlockCipher, multiUpdate: bool)

  /** The bytes written for one buffer by the given runs, each one kernel call. */
  function Emit(k: Kernel, iv: Block, data: seq<Byte>, segs: seq<nat>): (out: seq<Byte>)
    requires Sum(segs) <= |data|
    ensures |out| == Sum(segs)
    decreases |segs|
  {
    if segs == [] then []
    else
      var run := data[..segs[0]];
      Encrypt(k.m, k.C, iv, run)
        + Emit(k, WriteBack(k.multiUpdate, iv, Chain(k.m, k.C, iv, run)), data[segs[0]..], segs[1..])
  }

  /** The IV buffer of a buffer after the given runs. */
  function IvAfter(k: Kernel, iv: Block, data: seq<Byte>, segs: seq<nat>): Block
    requires Sum(segs) <= |data|
    decreases |segs|
  {
    if segs == [] then iv
    else
      var run := data[..segs[0]];
      IvAfter(k, WriteBack(k.multiUpdate, iv, Chain(k.m, k.C, iv, run)), data[segs[0]..], segs[1..])
  }

  /** With write-back any cutting into runs gives the single-buffer result. */
  lemma {:induction false} RunsCompose(k: Kernel, iv: Block, data: seq<Byte>, segs: seq<nat>)
    requires k.multiUpdate && Covers(segs, |data|)
    ensures Sum(segs) == |data| && Emit(k, iv, data, segs) == Encrypt(k.m, k.C, iv, data)
    ensures IvAfter(k, iv, data, segs) == Chain(k.m, k.C, iv, data)
    decreases |segs|
  {
    CoversSum(segs, |data|);
    if segs != [] {
      var run, rest := data[..segs[0]], data[segs[0]..];
      RunsCompose(k, Chain(k.m, k.C, iv, run), rest, segs[1..]);
      assert data == run + rest;
      if |segs| > 1 {
        EncryptSplit(k.m, k.C, iv, run, rest);
      } else {
        assert data == run;
      }
    }
  }

  lemma OneRun(k: Kernel, iv: Block, data: seq<Byte>, segs: seq<nat>)
    requires Covers(segs, |data|) && |segs| <= 1
    ensures Sum(segs) == |data| && Emit(k, iv, data, segs) == Encrypt(k.m, k.C, iv, data)
  {
    if segs != [] {
      assert data[..segs[0]] == data;
    }
  }

  // ------------------------------------------------------------------ the schedule spelled out

  lemma {:induction false} CountThree(lens: seq<nat>, d: nat)
    ensures Count(lens, d) > 1 <==> Two(lens, d)
    ensures Count(lens, d) > 2 <==> Three(lens, d)
  {
    hide Active, Two, Three;
    if lens == [] {
      NoneOfNone(d);
    } else {
      var init, last := lens[..|lens| - 1], lens[|lens| - 1];
      assert lens == init + [last];
      CountThree(init, d);
      CountZero(init, d);
      TwoSnoc(init, last, d);
      ThreeSnoc(init, last, d);
    }
  }

  lemma NoneOfNone(d: nat)
    ensures !Two([], d) && !Three([], d)
  {
  }

  lemma TwoSnoc(init: seq<nat>, last: nat, d: nat)
    ensures Two(init + [last], d) <==>
      Two(init, d) || (Active(last, d) && exists i :: 0 <= i < |init| && Active(init[i], d))
  {
    hide Active;
    var lens := init + [last];
    assert forall i :: 0 <= i < |init| ==> lens[i] == init[i];
    assert lens[|init|] == last;
  }

  lemma ThreeSnoc(init: seq<nat>, last: nat, d: nat)
    ensures Three(init + [last], d) <==> Three(init, d) || (Active(last, d) && Two(init, d))
  {
    hide Active;
    var lens := init + [last];
    assert forall i :: 0 <= i < |init| ==> lens[i] == init[i];
    assert lens[|init|] == last;
  }

  /** Two buffers are longer than d, or any two at the start; and three. */
  ghost predicate Two(lens: seq<nat>, d: nat) {
    exists i, j :: 0 <= i < j < |lens| && Active(lens[i], d) && Active(lens[j], d)
  }

  ghost predicate Three(lens: seq<nat>, d: nat) {
    exists i, j, k :: 0 <= i < j < k < |lens| && Active(lens[i], d) && Active(lens[j], d) && Active(lens[k], d)
  }

  /** No common run is left at d: no buffer is active, or one has less than a block to go. */
  ghost predicate NoRunAt(lens: seq<nat>, d: nat) {
    (forall i :: 0 <= i < |lens| ==> !Active(lens[i], d))
    || (exists i :: 0 <= i < |lens| && Active(lens[i], d) && lens[i] < d + 16)
  }

  lemma NoRunIff(lens: seq<nat>, d: nat)
    ensures (Count(lens, d) == 0 || RunLength(lens, d) == 0) <==> NoRunAt(lens, d)
  {
    CountZero(lens, d);
    if Count(lens, d) > 0 {
      ShortRun(lens, d);
    }
  }

  lemma ShortRun(lens: seq<nat>, d: nat)
    requires Count(lens, d) > 0
    ensures RunLength(lens, d) == 0 <==> exists i :: 0 <= i < |lens| && Active(lens[i], d) && lens[i] < d + 16
  {
    hide Active, Count;
    var s := Shortest(lens, d);
  }

  /**
   The level after `from` is the last multiple of 16 bytes further on that every buffer active at
   `from` reaches. Another one follows it exactly when three buffers were active and there is a
   common run left.
   */
  lemma {:induction false} LevelAt(lens: seq<nat>, d: nat, k: nat)
    requires k < |Levels(lens, d)|
    ensures var l := Levels(lens, d);
      var from := if k == 0 then d else l[k - 1];
      && l[k] > from && (l[k] - from) % 16 == 0
      && (forall i :: 0 <= i < |lens| && Active(lens[i], from) ==> l[k] <= lens[i])
      && (exists i :: 0 <= i < |lens| && Active(lens[i], from) && lens[i] < l[k] + 16)
      && (k + 1 < |l| <==> Three(lens, from) && !NoRunAt(lens, l[k]))
    decreases k
  {
    hide Three, NoRunAt, RunLength, Count;
    var l, e := Levels(lens, d), d + RunLength(lens, d);
    CountThree(lens, d);
    NoRunIff(lens, e);
    if k > 0 {
      LevelAt(lens, e, k - 1);
      assert l[1..] == Levels(lens, e);
      assert l[k] == Levels(lens, e)[k - 1] && (k > 1 ==> l[k - 1] == Levels(lens, e)[k - 2]);
    }
  }

  /** There is a first level exactly when every buffer has at least a block. */
  lemma LevelsStart(lens: seq<nat>)
    ensures Levels(lens, 0) == [] <==> lens == [] || exists i :: 0 <= i < |lens| && lens[i] < 16
  {
    NoRunIff(lens, 0);
    if NoRunAt(lens, 0) && lens != [] {
      assert Active(lens[0], 0);
    }
    if i :| 0 <= i < |lens| && lens[i] < 16 {
      assert Active(lens[i], 0);
    }
  }

  lemma {:induction false} CutEnds(levels: seq<nat>, d: nat, len: nat, j: nat)
    requires Ladder(levels, d) && d <= len && j < |Cuts(levels, d, len)|
    ensures Sum(Cuts(levels, d, len)[..j + 1]) == (if j < |levels| && levels[j] <= len then levels[j] else len) - d
    decreases |levels|
  {
    var c := Cuts(levels, d, len);
    if levels == [] || levels[0] > len {
      assert c[..1] == [len - d] && Sum([len - d]) == len - d;
      LadderAbove(levels, d, len, j);
    } else {
      var rest := Cuts(levels[1..], levels[0], len);
      assert c == [levels[0] - d] + rest && c[..j + 1] == [levels[0] - d] + rest[..j];
      assert ([levels[0] - d] + rest[..j])[1..] == rest[..j];
      if j > 0 {
        CutEnds(levels[1..], levels[0], len, j - 1);
      }
    }
  }

  lemma LadderAbove(levels: seq<nat>, d: nat, len: nat, j: nat)
    requires Ladder(levels, d) && (levels == [] || levels[0] > len) && j == 0
    ensures !(j < |levels| && levels[j] <= len)
  {
  }

  /** The runs of a buffer end at the levels up to its length, the last one at its length. */
  lemma ScheduleEnds(lens: seq<nat>, i: nat, j: nat)
    requires i < |lens| && j < |Schedule(lens, i)|
    ensures var l := Levels(lens, 0);
      Sum(Schedule(lens, i)[..j + 1]) == if j < |l| && l[j] <= lens[i] then l[j] else lens[i]
  {
    LevelsLadder(lens, 0);
    CutEnds(Levels(lens, 0), 0, lens[i], j);
  }

  /** Without write-back every run starts from the caller's IV, which stays as it is. */
  lemma {:induction false} EachFromIv(m: ChainMode, C: BlockCipher, iv: Block, data: seq<Byte>, segs: seq<nat>, j: nat)
    requires Sum(segs) <= |data| && j < |segs|
    ensures IvAfter(Kernel(m, C, false), iv, data, segs) == iv
    ensures var a := Sum(segs[..j]); var b := a + segs[j];
      b <= Sum(segs) && Emit(Kernel(m, C, false), iv, data, segs)[a..b] == Encrypt(m, C, iv, data[a..b])
    decreases |segs|
  {
    hide Encrypt, Chain;
    var k, n := Kernel(m, C, false), segs[0];
    var out, rest := Emit(k, iv, data, segs), Emit(k, iv, data[n..], segs[1..]);
    assert out[..n] == Encrypt(m, C, iv, data[..n]) && out[n..] == rest;
    if j == 0 {
      assert segs[..0] == [];
      IvKept(m, C, iv, data, segs);
    } else {
      EachFromIv(m, C, iv, data[n..], segs[1..], j - 1);
      var a := Sum(segs[1..][..j - 1]);
      var b := a + segs[j];
      assert segs[..j] == [n] + segs[1..][..j - 1] && segs[..j][1..] == segs[1..][..j - 1];
      Further(data, n, a, b);
      Further(out, n, a, b);
    }
  }

  lemma Further(s: seq<Byte>, n: nat, a: nat, b: nat)
    requires a <= b && n + b <= |s|
    ensures s[n..][a..b] == s[n + a..n + b]
  {
  }

  lemma {:induction false} IvKept(m: ChainMode, C: BlockCipher, iv: Block, data: seq<Byte>, segs: seq<nat>)
    requires Sum(segs) <= |data|
    ensures IvAfter(Kernel(m, C, false), iv, data, segs) == iv
    decreases |segs|
  {
    if segs != [] {
      IvKept(m, C, iv, data[segs[0]..], segs[1..]);
    }
  }

  // ------------------------------------------------------------------ when the result is right

  /** The lengths for which no buffer is cut: some buffer is shorter than a block, or all
      buffers have one length of whole blocks. */
  ghost predicate Uniform(lens: seq<nat>) {
    || lens == []
    || (exists i :: 0 <= i < |lens| && lens[i] < 16)
    || (lens[0] % 16 == 0 && forall i :: 0 <= i < |lens| ==> lens[i] == lens[0])
  }

  /** The first run ends at the shortest length rounded down to blocks, for every buffer. */
  lemma FirstLevel(lens: seq<nat>, i: nat) returns (n: nat)
    requires i < |lens|
    ensures Count(lens, 0) > 0 && n == RunLength(lens, 0)
    ensures n == 0 <==> exists j :: 0 <= j < |lens| && lens[j] < 16
    ensures n > 0 ==> (Uniform(lens) <==> forall j :: 0 <= j < |lens| ==> lens[j] == n)
    ensures n == 0 ==> |Schedule(lens, i)| <= 1
    ensures n > 0 ==> (|Schedule(lens, i)| <= 1 <==> lens[i] == n)
  {
    CountZero(lens, 0);
    assert Active(lens[i], 0);
    n := RunLength(lens, 0);
    var s := Shortest(lens, 0);
    assert forall j :: 0 <= j < |lens| ==> Active(lens[j], 0);
    assert forall j :: 0 <= j < |lens| ==> s <= lens[j];
    LevelsLadder(lens, 0);
    if n > 0 {
      var levels := Levels(lens, 0);
      assert levels[0] == n;
      CutsCover(levels[1..], n, lens[i]);
    }
  }

  lemma UncutIffUniform(lens: seq<nat>)
    ensures (forall i :: 0 <= i < |lens| ==> |Schedule(lens, i)| <= 1) <==> Uniform(lens)
  {
    if lens != [] {
      var n := FirstLevel(lens, 0);
      forall i | 0 <= i < |lens|
        ensures n == 0 ==> |Schedule(lens, i)| <= 1
        ensures n > 0 ==> (|Schedule(lens, i)| <= 1 <==> lens[i] == n)
      {
        var n' := FirstLevel(lens, i);
      }
    }
  }

  ghost predicate Fits(data: seq<seq<Byte>>, lens: seq<nat>) {
    |data| == |lens| && forall i :: 0 <= i < |lens| ==> |data[i]| == lens[i]
  }

  /** The buffer's output is what encrypting it alone would give. */
  ghost predicate BufferMatches(k: Kernel, iv: Block, data: seq<Byte>, segs: seq<nat>) {
    Sum(segs) == |data| && Emit(k, iv, data, segs) == Encrypt(k.m, k.C, iv, data)
  }

  ghost predicate MatchesSingle(k: Kernel, ivs: seq<Block>, data: seq<seq<Byte>>, lens: seq<nat>)
    requires |ivs| == |lens| && Fits(data, lens)
  {
    forall i :: 0 <= i < |lens| ==> BufferMatches(k, ivs[i], data[i], Schedule(lens, i))
  }

  lemma ScheduleCovers(lens: seq<nat>, i: nat)
    requires i < |lens|
    ensures Covers(Schedule(lens, i), lens[i]) && Sum(Schedule(lens, i)) == lens[i]
  {
    LevelsLadder(lens, 0);
    CutsCover(Levels(lens, 0), 0, lens[i]);
    CoversSum(Schedule(lens, i), lens[i]);
  }

  /** With AES_MULTI_UPDATE the schedule is correct for all lengths, contents, ciphers and IVs. */
  lemma WriteBackMatches(m: ChainMode, C: BlockCipher, ivs: seq<Block>, data: seq<seq<Byte>>, lens: seq<nat>)
    requires |ivs| == |lens| && Fits(data, lens)
    ensures MatchesSingle(Kernel(m, C, true), ivs, data, lens)
  {
    forall i | 0 <= i < |lens|
      ensures BufferMatches(Kernel(m, C, true), ivs[i], data[i], Schedule(lens, i))
    {
      ScheduleCovers(lens, i);
      RunsCompose(Kernel(m, C, true), ivs[i], data[i], Schedule(lens, i));
    }
  }

  /**
   Without AES_MULTI_UPDATE, for every permutation and all IVs: the schedule is correct for all
   contents of the given lengths exactly when those lengths are uniform.
   */
  lemma NoWriteBackMatchesIffUniform(m: ChainMode, C: BlockCipher, ivs: seq<Block>, lens: seq<nat>)
    requires Permutation(C) && |ivs| == |lens|
    ensures (forall data: seq<seq<Byte>> | Fits(data, lens) :: MatchesSingle(Kernel(m, C, false), ivs, data, lens))
            <==> Uniform(lens)
  {
    hide Schedule, Emit, Encrypt, Uniform, Covers;
    UncutIffUniform(lens);
    if Uniform(lens) {
      forall data: seq<seq<Byte>> | Fits(data, lens) ensures MatchesSingle(Kernel(m, C, false), ivs, data, lens) {
        forall i | 0 <= i < |lens|
          ensures BufferMatches(Kernel(m, C, false), ivs[i], data[i], Schedule(lens, i))
        {
          ScheduleCovers(lens, i);
          OneRun(Kernel(m, C, false), ivs[i], data[i], Schedule(lens, i));
        }
      }
    } else {
      var i :| 0 <= i < |lens| && |Schedule(lens, i)| > 1;
      ScheduleCovers(lens, i);
      var bad := CutDiffers(m, C, ivs[i], Schedule(lens, i), lens[i]);
      var data := seq(|lens|, j requires 0 <= j < |lens| => if j == i then bad else Zeros(lens[j]));
      assert Fits(data, lens) && !BufferMatches(Kernel(m, C, false), ivs[i], data[i], Schedule(lens, i));
    }
  }

  /** A buffer cut into two or more runs has contents for which the second run comes out wrong. */
  lemma CutDiffers(m: ChainMode, C: BlockCipher, iv: Block, segs: seq<nat>, len: nat) returns (data: seq<Byte>)
    requires Permutation(C) && |segs| > 1 && Covers(segs, len)
    ensures |data| == len && !BufferMatches(Kernel(m, C, false), iv, data, segs)
  {
    CoversSum(segs, len);
    var other := ChainMatters(m, C, iv);
    var head := ChainReachesEveryBlock(m, C, iv, other, segs[0]);
    var n := len - segs[0];
    data := head + Zeros(n);
    assert data[..segs[0]] == head && data[segs[0]..] == Zeros(n);
    EmitFirstByte(Kernel(m, C, false), iv, n, segs[1..]);
    EncryptSplit(m, C, iv, head, Zeros(n));
    FirstByte(m, C, other, n);
    assert Encrypt(m, C, iv, data)[segs[0]] == Encrypt(m, C, other, Zeros(n))[0];
    assert Emit(Kernel(m, C, false), iv, data, segs)[segs[0]]
        == Emit(Kernel(m, C, false), iv, Zeros(n), segs[1..])[0];
  }

  lemma EmitFirstByte(k: Kernel, iv: Block, n: nat, segs: seq<nat>)
    requires segs != [] && Covers(segs, n) && Sum(segs) == n
    ensures Emit(k, iv, Zeros(n), segs)[0] == CipherBlock(k.m, k.C, iv, Zeros(16))[0]
  {
    assert Zeros(n)[..segs[0]] == Zeros(segs[0]);
    FirstByte(k.m, k.C, iv, segs[0]);
  }
}
