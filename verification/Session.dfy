/**
 The C API sessions of lib/capi: three families of calls over one kind of context. A context
 holds raw pointers, modelled as identities in an explicit heap of cipher objects, and a tag.
 A call that would dereference or delete a dead object, or cast an object to an interface its
 class does not have, is a Fault. The theorems are about every run of calls on any number of
 contexts, families interleaved in any way.
 */
module Session {
  import opened Bytes
  import opened Errors
  import opened Counting

  datatype Mode = NoMode | CBC | OFB | CTR | CFB | XTS | CHACHA20 | GCM | CCM | SIV | CHACHA20_POLY1305
  datatype KeyLen = K128 | K192 | K256
  datatype Tag = NoTag | CipherTag | AeadTag | SegmentTag
  datatype Class = AesGeneric(mode: Mode) | ChaCha256 | Xts | XtsBlock | Gcm | Ccm | Siv | ChaChaPoly

  /** The interfaces the API casts to. */
  datatype Interface = ICipher | IMultibuffer | IAead | ICcm | ISegment

  predicate Implements(c: Class, i: Interface) {
    match i
    case ICipher => true
    case IMultibuffer => c == AesGeneric(CBC) || c == AesGeneric(CFB)
    case IAead => c in {Gcm, Ccm, Siv, ChaChaPoly}
    case ICcm => c == Ccm
    case ISegment => c == XtsBlock
  }

  /** What an object holds: key, IV, and everything else it keeps between calls. */
  datatype Inner = Inner(key: Option<seq<Byte>>, iv: Option<seq<Byte>>, rest: seq<Byte>)
  datatype Object = Object(cls: Class, bits: KeyLen, inner: Inner)

  const BLANK := Inner(None, None, [])

  /** The fields of a context. */
  datatype Ctx = Ctx(cipher: Option<nat>, multibuffer: Option<nat>, tag: Tag, mode: Mode, keyLen: KeyLen)

  const FRESH := Ctx(None, None, NoTag, NoMode, K128)

  /**
   All contexts and the heap. `freed` records the deleted objects, `overwritten` those whose
   context was constructed anew while it still owned them.
   */
  datatype World = World(ctxs: seq<Ctx>, live: map<nat, Object>, next: nat, freed: set<nat>, overwritten: set<nat>)

  datatype Op =
    | Init | Encrypt | Decrypt | MultibufferInit | Flush | Dequeue
    | AeadInit | AeadEncrypt | AeadDecrypt | SetAad | GetTag | SetTagLength | SetCcmPlaintextLength
    | SegmentInit | EncryptXts | DecryptXts

  /** ptrs: no required pointer is null; keyOrIv: a key or an IV of positive length is given. */
  datatype Args = Args(ptrs: bool, len: nat, keyOrIv: bool, data: seq<Byte>)

  datatype Call =
    | Request(family: Tag, h: nat, ptrs: bool, mode: Mode, keyLen: nat)
    | Use(op: Op, h: nat, args: Args)
    | Finish(family: Tag, h: nat, ptrs: bool)
    | Copy(src: nat, h: nat, ptrs: bool)

  /** What the machine and the cipher classes contribute: the architecture, and what each
      operation of each class does to the object's contents. */
  datatype Env = Env(zen: bool, act: (Class, KeyLen, Op, Args, Inner) -> (Inner, Error))

  datatype Outcome = Done(w: World, err: Error) | Fault

  // ------------------------------------------------------------------ lookups and creation

  function GetKeyLen(family: Tag, keyLen: nat): KeyLen {
    if keyLen == 192 && family != SegmentTag then K192 else if keyLen == 256 then K256 else K128
  }

  function GetMode(family: Tag, mode: Mode): Mode {
    match family
    case CipherTag => if mode in {CBC, OFB, CTR, CFB, XTS, CHACHA20} then mode else NoMode
    case AeadTag => if mode in {GCM, CCM, SIV, CHACHA20_POLY1305} then mode else NoMode
    case SegmentTag => if mode == XTS then XTS else NoMode
    case NoTag => NoMode
  }

  function CreateCipher(zen: bool, mode: Mode, bits: KeyLen): Option<Class> {
    if !zen then None
    else if mode in {CBC, CTR, OFB, CFB} then Some(AesGeneric(mode))
    else if mode == XTS && bits != K192 then Some(Xts)
    else if mode == CHACHA20 && bits == K256 then Some(ChaCha256)
    else None
  }

  function CreateAead(zen: bool, mode: Mode, bits: KeyLen): Option<Class> {
    if !zen then None
    else match mode
      case GCM => Some(Gcm)
      case CCM => Some(Ccm)
      case SIV => Some(Siv)
      case CHACHA20_POLY1305 => if bits == K256 then Some(ChaChaPoly) else None
      case _ => None
  }

  function CreateSegment(zen: bool, mode: Mode, bits: KeyLen): Option<Class> {
    if zen && mode == XTS && bits != K192 then Some(XtsBlock) else None
  }

  function Create(family: Tag, zen: bool, mode: Mode, bits: KeyLen): Option<Class> {
    match family
    case CipherTag => CreateCipher(zen, mode, bits)
    case AeadTag => CreateAead(zen, mode, bits)
    case SegmentTag => CreateSegment(zen, mode, bits)
    case NoTag => None
  }

  // ------------------------------------------------------------------ the heap

  /** Placement-construction: whatever the context owned is forgotten. */
  function Reset(w: World, h: nat): World
    requires h < |w.ctxs|
  {
    var o := w.ctxs[h].cipher;
    w.(ctxs := w.ctxs[h := FRESH],
       overwritten := w.overwritten + if o.Some? then {o.value} else {})
  }

  function New(w: World, cls: Class, bits: KeyLen): World {
    w.(live := w.live[w.next := Object(cls, bits, BLANK)], next := w.next + 1)
  }

  function Delete(w: World, p: nat): World {
    w.(live := w.live - {p}, freed := w.freed + {p})
  }

  predicate CastOk(w: World, p: nat, i: Interface) {
    p in w.live && Implements(w.live[p].cls, i)
  }

  // ------------------------------------------------------------------ the calls

  function FamilyOf(op: Op): Tag {
    if op in {Init, Encrypt, Decrypt, MultibufferInit, Flush, Dequeue} then CipherTag
    else if op in {SegmentInit, EncryptXts, DecryptXts} then SegmentTag
    else AeadTag
  }

  function InterfaceOf(op: Op): Interface {
    if op in {MultibufferInit, Flush, Dequeue} then IMultibuffer
    else if op == SetCcmPlaintextLength then ICcm
    else match FamilyOf(op)
      case AeadTag => IAead
      case SegmentTag => ISegment
      case _ => ICipher
  }

  /** Checks made before the context is looked at; None means go on. */
  function EarlyReturn(op: Op, a: Args): Option<Error> {
    if op == SetAad && a.len == 0 then Some(NONE)
    else if !a.ptrs then Some(INVALID_DATA)
    else if op in {Encrypt, Decrypt, GetTag, SetTagLength, EncryptXts, DecryptXts} && a.len == 0 then Some(INVALID_SIZE)
    else None
  }

  /** Checks against the context; None means the object is called. */
  function Refused(op: Op, a: Args, c: Ctx): Option<Error> {
    if c.cipher.None? then Some(INVALID_DATA)
    else if c.tag != FamilyOf(op) then Some(INVALID_ARG)
    else if InterfaceOf(op) == IMultibuffer && c.multibuffer.None? then Some(NOT_SUPPORTED)
    else if op in {Init, MultibufferInit, SegmentInit} && !a.keyOrIv then Some(INVALID_ARG)
    else if op == AeadInit && !a.keyOrIv then Some(NONE)
    else if op == SetCcmPlaintextLength && c.mode != CCM then Some(NOT_SUPPORTED)
    else None
  }

  /** The pointer the call goes through. */
  function Through(op: Op, c: Ctx): Option<nat> {
    if InterfaceOf(op) == IMultibuffer then c.multibuffer else c.cipher
  }

  function StepUse(e: Env, w: World, op: Op, h: nat, a: Args): Outcome
    requires h < |w.ctxs|
  {
    var early, refused := EarlyReturn(op, a), Refused(op, a, w.ctxs[h]);
    if early.Some? then Done(w, early.value)
    else if refused.Some? then Done(w, refused.value)
    else
      var p := Through(op, w.ctxs[h]);
      if p.None? || !CastOk(w, p.value, InterfaceOf(op)) then Fault
      else
        var o := w.live[p.value];
        var (inner, err) := e.act(o.cls, o.bits, op, a, o.inner);
        Done(w.(live := w.live[p.value := o.(inner := inner)]), err)
  }

  function StepRequest(e: Env, w: World, family: Tag, h: nat, ptrs: bool, mode: Mode, keyLen: nat): Outcome
    requires h < |w.ctxs| && family != NoTag
  {
    if !ptrs then Done(w, INVALID_DATA)
    else
      var w1 := Reset(w, h);
      if keyLen == 0 then Done(w1, INVALID_SIZE)
      else
        var m, bits := GetMode(family, mode), GetKeyLen(family, keyLen);
        var cls := Create(family, e.zen, m, bits);
        // the AEAD family stores the mode only on success, and never the key length
        var kept := if family == AeadTag then FRESH else FRESH.(mode := m, keyLen := bits);
        if cls.None? then Done(w1.(ctxs := w1.ctxs[h := kept]), GENERIC)
        else
          var c := kept.(cipher := Some(w.next), tag := family, mode := m,
                         multibuffer := if family == CipherTag && Implements(cls.value, IMultibuffer)
                                        then Some(w.next) else None);
          Done(New(w1.(ctxs := w1.ctxs[h := c]), cls.value, bits), NONE)
  }

  function StepFinish(w: World, family: Tag, h: nat, ptrs: bool): Outcome
    requires h < |w.ctxs| && family != NoTag
  {
    var c := w.ctxs[h];
    if !ptrs || c.tag != family || c.cipher.None? then Done(w, NONE)
    else if !CastOk(w, c.cipher.value, if family == AeadTag then IAead
                                       else if family == SegmentTag then ISegment else ICipher) then Fault
    else Done(Delete(w.(ctxs := w.ctxs[h := c.(cipher := None, tag := NoTag)]), c.cipher.value), NONE)
  }

  /** CopyCtx of each class: what the new object holds afterwards, and the result. */
  function CopyCtx(src: Object, dst: Object): (Inner, Error) {
    if src.cls.AesGeneric? then
      if dst.cls != src.cls || dst.bits != src.bits then (dst.inner, INVALID_ARG)
      else (dst.inner.(key := src.inner.key, iv := if src.inner.iv.Some? then src.inner.iv else dst.inner.iv), NONE)
    else if src.cls == ChaCha256 then (dst.inner, NONE)
    else (dst.inner, NOT_SUPPORTED)
  }

  function StepCopy(e: Env, w: World, src: nat, dst: nat, ptrs: bool): Outcome
    requires src < |w.ctxs| && dst < |w.ctxs|
  {
    if !ptrs then Done(w, INVALID_DATA)
    else if w.ctxs[src].cipher.None? then Done(w, INVALID_DATA)
    else if w.ctxs[src].tag != CipherTag then Done(w, INVALID_ARG)
    else CopyInto(e, Reset(w, dst), src, dst)
  }

  /** The rest of a copy, once the destination is constructed anew; so is the source if it is the same. */
  function CopyInto(e: Env, w: World, src: nat, dst: nat): Outcome
    requires src < |w.ctxs| && dst < |w.ctxs|
  {
    var s := w.ctxs[src];
    var cls := CreateCipher(e.zen, s.mode, s.keyLen);
    if cls.None? then
      Done(w.(ctxs := w.ctxs[dst := FRESH.(mode := s.mode, keyLen := s.keyLen)]), BAD_STATE)
    else
      var c := s.(cipher := Some(w.next),
                  multibuffer := if Implements(cls.value, IMultibuffer) then Some(w.next) else None);
      var w2 := New(w.(ctxs := w.ctxs[dst := c]), cls.value, s.keyLen);
      if s.cipher.None? || !CastOk(w2, s.cipher.value, ICipher) then Fault
      else
        var (inner, err) := CopyCtx(w2.live[s.cipher.value], w2.live[w.next]);
        Done(w2.(live := w2.live[w.next := w2.live[w.next].(inner := inner)]), err)
  }

  /** Handles are of existing contexts; requests and finishes belong to one of the families. */
  predicate WellFormed(c: Call, n: nat) {
    c.h < n && (c.Request? || c.Finish? ==> c.family != NoTag) && (c.Copy? ==> c.src < n)
  }

  function Step(e: Env, w: World, c: Call): Outcome
    requires WellFormed(c, |w.ctxs|)
  {
    match c
    case Request(f, h, ptrs, mode, keyLen) => StepRequest(e, w, f, h, ptrs, mode, keyLen)
    case Use(op, h, args) => StepUse(e, w, op, h, args)
    case Finish(f, h, ptrs) => StepFinish(w, f, h, ptrs)
    case Copy(src, h, ptrs) => StepCopy(e, w, src, h, ptrs)
  }

  // ------------------------------------------------------------------ safety of every run

  /** What the tag of a context says about its pointers and the object. */
  predicate CtxOk(zen: bool, live: map<nat, Object>, c: Ctx) {
    && (c.tag == NoTag <==> c.cipher.None?)
    && (c.cipher.Some? ==>
          && c.cipher.value in live
          && var o := live[c.cipher.value];
             && Create(c.tag, zen, c.mode, o.bits) == Some(o.cls)
             && (c.tag == CipherTag ==> o.bits == c.keyLen)
             && c.multibuffer == if c.tag == CipherTag && Implements(o.cls, IMultibuffer) then c.cipher else None)
  }

  /** The objects owned by a context. */
  function Owned(ctxs: seq<Ctx>): (s: set<nat>)
  {
    set i | 0 <= i < |ctxs| && ctxs[i].cipher.Some? :: ctxs[i].cipher.value
  }

  ghost predicate Exclusive(ctxs: seq<Ctx>) {
    forall i, j :: 0 <= i < j < |ctxs| && ctxs[i].cipher.Some? ==> ctxs[i].cipher != ctxs[j].cipher
  }

  ghost predicate Safe(e: Env, w: World) {
    && (forall i :: 0 <= i < |w.ctxs| ==> CtxOk(e.zen, w.live, w.ctxs[i]))
    && Exclusive(w.ctxs)
    && (forall p :: p in w.live ==> p < w.next)
  }

  lemma SafeStep(e: Env, w: World, c: Call)
    requires Safe(e, w) && WellFormed(c, |w.ctxs|)
    ensures Step(e, w, c).Done? && Safe(e, Step(e, w, c).w) && |Step(e, w, c).w.ctxs| == |w.ctxs|
  {
    match c
    case Copy(src, h, ptrs) => SafeCopy(e, w, src, h, ptrs);
    case Request(f, h, ptrs, mode, keyLen) => SafeRequest(e, w, f, h, ptrs, mode, keyLen);
    case _ => assert CtxOk(e.zen, w.live, w.ctxs[c.h]);
  }

  lemma SafeReset(e: Env, w: World, h: nat)
    requires Safe(e, w) && h < |w.ctxs|
    ensures Safe(e, Reset(w, h))
  {
  }

  /** A context that owns nothing takes a new object that fits what it says. */
  lemma SafeTake(e: Env, w: World, h: nat, c: Ctx, cls: Class, bits: KeyLen, inner: Inner)
    requires Safe(e, w) && h < |w.ctxs| && w.ctxs[h].cipher.None? && c.cipher == Some(w.next)
    requires Create(c.tag, e.zen, c.mode, bits) == Some(cls) && (c.tag == CipherTag ==> bits == c.keyLen)
    requires c.multibuffer == (if c.tag == CipherTag && Implements(cls, IMultibuffer) then c.cipher else None)
    ensures var w1 := New(w.(ctxs := w.ctxs[h := c]), cls, bits);
      Safe(e, w1.(live := w1.live[w.next := w1.live[w.next].(inner := inner)])) && Safe(e, w1)
  {
    var w1 := New(w.(ctxs := w.ctxs[h := c]), cls, bits);
    var w2 := w1.(live := w1.live[w.next := w1.live[w.next].(inner := inner)]);
    forall i | 0 <= i < |w.ctxs| ensures CtxOk(e.zen, w1.live, w1.ctxs[i]) && CtxOk(e.zen, w2.live, w2.ctxs[i]) {
      assert CtxOk(e.zen, w.live, w.ctxs[i]);
    }
  }

  lemma SafeRequest(e: Env, w: World, family: Tag, h: nat, ptrs: bool, mode: Mode, keyLen: nat)
    requires Safe(e, w) && h < |w.ctxs| && family != NoTag
    ensures var o := StepRequest(e, w, family, h, ptrs, mode, keyLen);
      o.Done? && Safe(e, o.w) && |o.w.ctxs| == |w.ctxs|
  {
    var o := StepRequest(e, w, family, h, ptrs, mode, keyLen);
    SafeReset(e, w, h);
    if o.err == NONE {
      var cls := Create(family, e.zen, GetMode(family, mode), GetKeyLen(family, keyLen)).value;
      SafeTake(e, Reset(w, h), h, o.w.ctxs[h], cls, GetKeyLen(family, keyLen), BLANK);
    }
  }

  lemma SafeCopy(e: Env, w: World, src: nat, dst: nat, ptrs: bool)
    requires Safe(e, w) && src < |w.ctxs| && dst < |w.ctxs|
    ensures var o := StepCopy(e, w, src, dst, ptrs);
      o.Done? && Safe(e, o.w) && |o.w.ctxs| == |w.ctxs|
  {
    assert CtxOk(e.zen, w.live, w.ctxs[src]);
    SafeReset(e, w, dst);
    var o, r := StepCopy(e, w, src, dst, ptrs), Reset(w, dst);
    if ptrs && w.ctxs[src].cipher.Some? && w.ctxs[src].tag == CipherTag && src != dst {
      var s := w.ctxs[src];
      var cls := CreateCipher(e.zen, s.mode, s.keyLen).value;
      SafeTake(e, r, dst, o.w.ctxs[dst], cls, s.keyLen, o.w.live[w.next].inner);
    }
  }

  /** A run of calls; it stops at a fault. */
  function Run(e: Env, w: World, calls: seq<Call>): Outcome
    requires forall c :: c in calls ==> WellFormed(c, |w.ctxs|)
    decreases |calls|
  {
    if calls == [] then Done(w, NONE)
    else
      var o := Step(e, w, calls[0]);
      StepKeepsContexts(e, w, calls[0]);
      if o.Fault? then Fault else Run(e, o.w, calls[1..])
  }

  lemma StepKeepsContexts(e: Env, w: World, c: Call)
    requires WellFormed(c, |w.ctxs|)
    ensures Step(e, w, c).Done? ==> |Step(e, w, c).w.ctxs| == |w.ctxs|
  {
  }

  function Start(n: nat): World {
    World(seq(n, _ => FRESH), map[], 0, {}, {})
  }

  /** No call in any run, from any safe state, touches a dead object or casts it wrongly. */
  lemma {:induction false} RunsAreSafe(e: Env, w: World, calls: seq<Call>)
    requires Safe(e, w) && forall c :: c in calls ==> WellFormed(c, |w.ctxs|)
    ensures Run(e, w, calls).Done? && Safe(e, Run(e, w, calls).w) && |Run(e, w, calls).w.ctxs| == |w.ctxs|
    decreases |calls|
  {
    if calls != [] {
      SafeStep(e, w, calls[0]);
      RunsAreSafe(e, Step(e, w, calls[0]).w, calls[1..]);
    }
  }

  /** What safety means for one context in any state a run of fresh contexts can reach. */
  lemma ReachableContexts(e: Env, n: nat, calls: seq<Call>, i: nat, j: nat)
    requires i < n && j < n && forall c :: c in calls ==> WellFormed(c, n)
    ensures Run(e, Start(n), calls).Done?
    ensures var w := Run(e, Start(n), calls).w;
      |w.ctxs| == n && var c := w.ctxs[i];
      && (c.tag == NoTag <==> c.cipher.None?)
      && (c.cipher.Some? ==>
            && c.cipher.value in w.live
            && var cls := w.live[c.cipher.value].cls;
            && (c.tag == AeadTag <==> Implements(cls, IAead))
            && (c.tag == SegmentTag <==> Implements(cls, ISegment))
            && (c.tag == AeadTag ==> (c.mode == CCM <==> Implements(cls, ICcm)))
            && (i != j ==> w.ctxs[j].cipher != c.cipher))
      && (c.tag == CipherTag && c.multibuffer.Some? ==> c.multibuffer == c.cipher)
  {
    RunsAreSafe(e, Start(n), calls);
    var w := Run(e, Start(n), calls).w;
    assert CtxOk(e.zen, w.live, w.ctxs[i]) && CtxOk(e.zen, w.live, w.ctxs[j]);
  }

  // ------------------------------------------------------------------ conservation

  /** Identity p was never handed out, or was freed, or is live: owned by a context or overwritten. */
  ghost predicate Placed(w: World, p: nat) {
    && (p < w.next <==> p in w.freed || p in w.live)
    && !(p in w.freed && p in w.live)
    && (p in w.live <==> p in Owned(w.ctxs) || p in w.overwritten)
    && !(p in Owned(w.ctxs) && p in w.overwritten)
  }

  ghost predicate Accounted(w: World) {
    forall p: nat :: Placed(w, p)
  }

  function IdSet(c: Ctx): set<nat> {
    if c.cipher.Some? then {c.cipher.value} else {}
  }

  lemma OwnedUpdate(ctxs: seq<Ctx>, h: nat, c: Ctx)
    requires h < |ctxs| && Exclusive(ctxs)
    ensures Owned(ctxs[h := c]) == Owned(ctxs) - IdSet(ctxs[h]) + IdSet(c)
    ensures IdSet(ctxs[h]) <= Owned(ctxs)
  {
    var after := ctxs[h := c];
    forall p | p in Owned(after) ensures p in Owned(ctxs) - IdSet(ctxs[h]) + IdSet(c) {
      var i :| 0 <= i < |after| && after[i].cipher == Some(p);
      if i != h { assert ctxs[i].cipher == Some(p); }
    }
    forall p | p in Owned(ctxs) - IdSet(ctxs[h]) + IdSet(c) ensures p in Owned(after) {
      if p in IdSet(c) {
        assert after[h].cipher == Some(p);
      } else {
        var i :| 0 <= i < |ctxs| && ctxs[i].cipher == Some(p);
        assert after[i].cipher == Some(p);
      }
    }
  }

  /** A context that owns nothing takes a new object, or keeps owning nothing. */
  lemma AccountedTake(w: World, h: nat, c: Ctx, cls: Class, bits: KeyLen)
    requires Accounted(w) && Exclusive(w.ctxs) && h < |w.ctxs| && w.ctxs[h].cipher.None?
    ensures c.cipher.None? ==> Accounted(w.(ctxs := w.ctxs[h := c]))
    ensures c.cipher == Some(w.next) ==> Accounted(New(w.(ctxs := w.ctxs[h := c]), cls, bits))
  {
    OwnedUpdate(w.ctxs, h, c);
    var kept := w.(ctxs := w.ctxs[h := c]);
    var taken := New(kept, cls, bits);
    forall p: nat ensures c.cipher.None? ==> Placed(kept, p) {
      assert Placed(w, p);
    }
    forall p: nat ensures c.cipher == Some(w.next) ==> Placed(taken, p) {
      assert Placed(w, p);
    }
  }

  lemma AccountedReset(w: World, h: nat)
    requires Accounted(w) && Exclusive(w.ctxs) && h < |w.ctxs|
    ensures Accounted(Reset(w, h)) && Exclusive(Reset(w, h).ctxs)
  {
    OwnedUpdate(w.ctxs, h, FRESH);
    forall p: nat ensures Placed(Reset(w, h), p) {
      assert Placed(w, p);
    }
  }

  lemma AccountedRelease(w: World, h: nat, c: Ctx)
    requires Accounted(w) && Exclusive(w.ctxs) && h < |w.ctxs| && w.ctxs[h].cipher.Some? && c.cipher.None?
    ensures Accounted(Delete(w.(ctxs := w.ctxs[h := c]), w.ctxs[h].cipher.value))
  {
    OwnedUpdate(w.ctxs, h, c);
    var w' := Delete(w.(ctxs := w.ctxs[h := c]), w.ctxs[h].cipher.value);
    forall p: nat ensures Placed(w', p) {
      assert Placed(w, p);
    }
  }

  /** Only the contents of live objects differ. */
  lemma AccountedContents(w: World, w': World)
    requires Accounted(w) && w'.live.Keys == w.live.Keys
    requires w' == w.(live := w'.live)
    ensures Accounted(w')
  {
    forall p: nat ensures Placed(w', p) {
      assert Placed(w, p) && (p in w.live <==> p in w.live.Keys) && (p in w'.live <==> p in w'.live.Keys);
    }
  }

  lemma AccountedStep(e: Env, w: World, c: Call)
    requires Safe(e, w) && Accounted(w) && WellFormed(c, |w.ctxs|)
    ensures Step(e, w, c).Done? && Accounted(Step(e, w, c).w)
  {
    SafeStep(e, w, c);
    var w', h := Step(e, w, c).w, c.h;
    if c.Use? {
      AccountedContents(w, w');
    } else if w' != w {
      if c.Finish? {
        AccountedRelease(w, h, w'.ctxs[h]);
      } else {
        var r := Reset(w, h);
        AccountedReset(w, h);
        assert r.ctxs[h := w'.ctxs[h]] == w'.ctxs;
        if w'.next == w.next {
          AccountedTake(r, h, w'.ctxs[h], Siv, K128);
        } else {
          AccountedTake(r, h, w'.ctxs[h], w'.live[w.next].cls, w'.live[w.next].bits);
          AccountedContents(New(r.(ctxs := w'.ctxs), w'.live[w.next].cls, w'.live[w.next].bits), w');
        }
      }
    }
  }

  /** A request or a copy constructs its context anew; this call loses the object held there. */
  predicate Loses(w: World, c: Call)
    requires WellFormed(c, |w.ctxs|)
  {
    && w.ctxs[c.h].cipher.Some? && !c.Use? && !c.Finish? && c.ptrs
    && (c.Copy? ==> w.ctxs[c.src].tag == CipherTag && w.ctxs[c.src].cipher.Some?)
  }

  /** How many calls of a run lose an object. */
  function Losses(e: Env, w: World, calls: seq<Call>): nat
    requires forall c :: c in calls ==> WellFormed(c, |w.ctxs|)
    decreases |calls|
  {
    if calls == [] then 0
    else
      var o := Step(e, w, calls[0]);
      StepKeepsContexts(e, w, calls[0]);
      (if Loses(w, calls[0]) then 1 else 0) + if o.Fault? then 0 else Losses(e, o.w, calls[1..])
  }

  /** Created = freed + owned + overwritten. */
  lemma CountedApart(w: World)
    requires Accounted(w)
    ensures w.next == |w.freed| + |Owned(w.ctxs)| + |w.overwritten|
  {
    var o := Owned(w.ctxs);
    forall p: nat ensures p in w.freed + o + w.overwritten <==> p < w.next { assert Placed(w, p); }
    forall p | p in w.freed + o + w.overwritten
      ensures !(p in w.freed && (p in o || p in w.overwritten)) && !(p in o && p in w.overwritten)
    {
      assert Placed(w, p);
    }
    IdsCount(w.next, w.freed + o + w.overwritten);
    assert w.freed !! o && (w.freed + o) !! w.overwritten;
    assert |w.freed + o| == |w.freed| + |o| && |w.freed + o + w.overwritten| == |w.freed + o| + |w.overwritten|;
  }

  lemma LossStep(e: Env, w: World, c: Call)
    requires Safe(e, w) && Accounted(w) && WellFormed(c, |w.ctxs|)
    ensures Step(e, w, c).Done?
    ensures |Step(e, w, c).w.overwritten| == |w.overwritten| + (if Loses(w, c) then 1 else 0)
  {
    SafeStep(e, w, c);
    Overwrites(e, w, c);
    hide Safe, Step;
    if Loses(w, c) {
      OwnedOnce(w, c.h, w.ctxs[c.h].cipher.value);
    }
  }

  lemma Overwrites(e: Env, w: World, c: Call)
    requires WellFormed(c, |w.ctxs|) && Step(e, w, c).Done?
    ensures Step(e, w, c).w.overwritten == w.overwritten + (if Loses(w, c) then {w.ctxs[c.h].cipher.value} else {})
  {
  }

  lemma OwnedOnce(w: World, h: nat, p: nat)
    requires Accounted(w) && h < |w.ctxs| && w.ctxs[h].cipher == Some(p)
    ensures p !in w.overwritten
  {
    assert Placed(w, p) && p in Owned(w.ctxs);
  }

  /**
   Conservation in every run: the objects created are those freed, owned and overwritten, and
   exactly one object is overwritten by each call that constructs an occupied context anew.
   */
  lemma {:induction false} Conservation(e: Env, w: World, calls: seq<Call>)
    requires Safe(e, w) && Accounted(w) && forall c :: c in calls ==> WellFormed(c, |w.ctxs|)
    ensures Run(e, w, calls).Done?
    ensures var w' := Run(e, w, calls).w;
      && Accounted(w')
      && w'.next == |w'.freed| + |Owned(w'.ctxs)| + |w'.overwritten|
      && |w'.overwritten| == |w.overwritten| + Losses(e, w, calls)
    decreases |calls|
  {
    if calls == [] {
      CountedApart(w);
    } else {
      SafeStep(e, w, calls[0]);
      AccountedStep(e, w, calls[0]);
      LossStep(e, w, calls[0]);
      Conservation(e, Step(e, w, calls[0]).w, calls[1..]);
    }
  }

  /** Finishing the first n contexts, each through the family of its own tag. */
  function FinishAll(ctxs: seq<Ctx>): seq<Call> {
    if ctxs == [] then []
    else
      var h := |ctxs| - 1;
      (if ctxs[h].tag == NoTag then [] else [Finish(ctxs[h].tag, h, true)]) + FinishAll(ctxs[..h])
  }

  lemma {:induction false} FinishesWellFormed(ctxs: seq<Ctx>)
    ensures forall c :: c in FinishAll(ctxs) ==> WellFormed(c, |ctxs|)
  {
    if ctxs != [] {
      FinishesWellFormed(ctxs[..|ctxs| - 1]);
    }
  }

  /** After finishing the first n contexts of a safe state only the later ones own anything. */
  lemma {:induction false} FinishAllReleases(e: Env, w: World, n: nat)
    requires Safe(e, w) && Accounted(w) && n <= |w.ctxs|
    requires forall i :: n <= i < |w.ctxs| ==> w.ctxs[i].cipher.None?
    ensures forall c :: c in FinishAll(w.ctxs[..n]) ==> WellFormed(c, |w.ctxs|)
    ensures Run(e, w, FinishAll(w.ctxs[..n])).Done?
    ensures var w' := Run(e, w, FinishAll(w.ctxs[..n])).w;
      Owned(w'.ctxs) == {} && Accounted(w') && w'.overwritten == w.overwritten && w'.next == w.next
    decreases n
  {
    FinishesWellFormed(w.ctxs[..n]);
    if n == 0 {
    } else {
      var h := n - 1;
      var calls := FinishAll(w.ctxs[..n]);
      assert w.ctxs[..n][..h] == w.ctxs[..h] && CtxOk(e.zen, w.live, w.ctxs[h]);
      if w.ctxs[h].tag == NoTag {
        assert calls == FinishAll(w.ctxs[..h]);
        FinishAllReleases(e, w, h);
      } else {
        var c := Finish(w.ctxs[h].tag, h, true);
        SafeStep(e, w, c);
        AccountedStep(e, w, c);
        var w1 := Step(e, w, c).w;
        assert w1.ctxs[..h] == w.ctxs[..h];
        FinishAllReleases(e, w1, h);
        assert calls[1..] == FinishAll(w.ctxs[..h]);
      }
    }
  }

  /** A run in which no call loses an object, with every context finished at the end, frees
      exactly what it created. */
  lemma NothingLeaks(e: Env, n: nat, calls: seq<Call>)
    requires forall c :: c in calls ==> WellFormed(c, n)
    requires Losses(e, Start(n), calls) == 0
    ensures Run(e, Start(n), calls).Done?
    ensures var w := Run(e, Start(n), calls).w;
      && (forall c :: c in FinishAll(w.ctxs) ==> WellFormed(c, |w.ctxs|))
      && Run(e, w, FinishAll(w.ctxs)).Done?
      && var end := Run(e, w, FinishAll(w.ctxs)).w;
         end.live == map[] && end.next == w.next == |end.freed|
  {
    StartAccounted(n);
    RunsAreSafe(e, Start(n), calls);
    Conservation(e, Start(n), calls);
    var w := Run(e, Start(n), calls).w;
    assert w.ctxs[..|w.ctxs|] == w.ctxs;
    FinishAllReleases(e, w, |w.ctxs|);
    var end := Run(e, w, FinishAll(w.ctxs)).w;
    CountedApart(end);
    forall p: nat ensures p !in end.live { assert Placed(end, p); }
  }

  lemma StartAccounted(n: nat)
    ensures Accounted(Start(n))
  {
  }

  // ------------------------------------------------------------------ independence

  /** A context and the object it owns. */
  datatype View = View(ctx: Ctx, held: Option<Object>)

  function ViewOf(w: World, h: nat): View
    requires h < |w.ctxs|
  {
    var c := w.ctxs[h];
    View(c, if c.cipher.Some? && c.cipher.value in w.live then Some(w.live[c.cipher.value]) else None)
  }

  /** A call made through other handles leaves a context and its object as they are. */
  lemma StepFrame(e: Env, w: World, c: Call, h: nat)
    requires Safe(e, w) && WellFormed(c, |w.ctxs|) && h < |w.ctxs| && c.h != h
    ensures Step(e, w, c).Done? && |Step(e, w, c).w.ctxs| == |w.ctxs|
    ensures ViewOf(Step(e, w, c).w, h) == ViewOf(w, h)
  {
    SafeStep(e, w, c);
    assert CtxOk(e.zen, w.live, w.ctxs[h]) && CtxOk(e.zen, w.live, w.ctxs[c.h]);
  }

  /** Two views that differ only in the identity of the object. */
  ghost predicate SameView(a: View, b: View) {
    && a.held == b.held
    && a.ctx.tag == b.ctx.tag && a.ctx.mode == b.ctx.mode && a.ctx.keyLen == b.ctx.keyLen
    && (a.ctx.cipher.Some? <==> b.ctx.cipher.Some?)
    && (a.ctx.cipher.Some? ==> (a.ctx.multibuffer.Some? <==> b.ctx.multibuffer.Some?))
  }

  /** What a call does to its own context depends on that context only, copies from others apart. */
  lemma StepLocal(e: Env, v: World, w: World, c: Call, h: nat)
    requires Safe(e, v) && Safe(e, w) && |v.ctxs| == |w.ctxs| && WellFormed(c, |w.ctxs|) && c.h == h
    requires c.Copy? ==> c.src == h
    requires SameView(ViewOf(v, h), ViewOf(w, h))
    ensures Step(e, v, c).Done? && Step(e, w, c).Done? && Step(e, v, c).err == Step(e, w, c).err
    ensures |Step(e, v, c).w.ctxs| == |Step(e, w, c).w.ctxs| == |w.ctxs|
    ensures SameView(ViewOf(Step(e, v, c).w, h), ViewOf(Step(e, w, c).w, h))
  {
    SafeStep(e, v, c);
    SafeStep(e, w, c);
    assert CtxOk(e.zen, v.live, v.ctxs[h]) && CtxOk(e.zen, w.live, w.ctxs[h]);
    if c.Use? {
      UseLocal(e, v, w, c.op, h, c.args);
    }
  }

  lemma UseLocal(e: Env, v: World, w: World, op: Op, h: nat, a: Args)
    requires h < |v.ctxs| == |w.ctxs| && CtxOk(e.zen, v.live, v.ctxs[h]) && CtxOk(e.zen, w.live, w.ctxs[h])
    requires SameView(ViewOf(v, h), ViewOf(w, h))
    requires StepUse(e, v, op, h, a).Done? && StepUse(e, w, op, h, a).Done?
    ensures StepUse(e, v, op, h, a).err == StepUse(e, w, op, h, a).err
    ensures SameView(ViewOf(StepUse(e, v, op, h, a).w, h), ViewOf(StepUse(e, w, op, h, a).w, h))
  {
    assert Refused(op, a, v.ctxs[h]) == Refused(op, a, w.ctxs[h]);
  }

  /** The calls of a run that are made through handle h. */
  function CallsOf(calls: seq<Call>, h: nat): (r: seq<Call>)
    ensures forall c :: c in r ==> c in calls && c.h == h
  {
    if calls == [] then [] else (if calls[0].h == h then [calls[0]] else []) + CallsOf(calls[1..], h)
  }

  /**
   Noninterference: in any run, a context that is not the target of a copy from another ends up
   as if only the calls through its own handle had been made.
   */
  lemma {:induction false} Independence(e: Env, v: World, w: World, calls: seq<Call>, h: nat)
    requires Safe(e, v) && Safe(e, w) && |v.ctxs| == |w.ctxs| && h < |w.ctxs|
    requires forall c :: c in calls ==> WellFormed(c, |w.ctxs|) && (c.Copy? && c.h == h ==> c.src == h)
    requires SameView(ViewOf(v, h), ViewOf(w, h))
    ensures Run(e, v, calls).Done? && Run(e, w, CallsOf(calls, h)).Done?
    ensures |Run(e, v, calls).w.ctxs| == |Run(e, w, CallsOf(calls, h)).w.ctxs| == |w.ctxs|
    ensures SameView(ViewOf(Run(e, v, calls).w, h), ViewOf(Run(e, w, CallsOf(calls, h)).w, h))
    decreases |calls|
  {
    if calls == [] {
    } else {
      var c, rest := calls[0], CallsOf(calls[1..], h);
      SafeStep(e, v, c);
      if c.h == h {
        StepLocal(e, v, w, c, h);
        SafeStep(e, w, c);
        Independence(e, Step(e, v, c).w, Step(e, w, c).w, calls[1..], h);
        assert ([c] + rest)[1..] == rest;
      } else {
        StepFrame(e, v, c, h);
        Independence(e, Step(e, v, c).w, w, calls[1..], h);
        assert [] + rest == rest;
      }
    }
  }

  /**
   A copy between distinct contexts gives the destination an object of its own, of the source's
   class, mode, key length and tag, and leaves the source alone. The result says NONE for every
   class but XTS; key and IV are really carried over for the generic AES modes only.
   */
  lemma CopyResult(e: Env, w: World, src: nat, dst: nat)
    requires Safe(e, w) && src < |w.ctxs| && dst < |w.ctxs| && src != dst
    requires w.ctxs[src].tag == CipherTag
    ensures Step(e, w, Copy(src, dst, true)).Done?
    ensures var w' := Step(e, w, Copy(src, dst, true)).w;
      var a, b := ViewOf(w', src), ViewOf(w', dst);
      && a == ViewOf(w, src) && a.held.Some? && b.held.Some?
      && b.ctx.cipher == Some(w.next) && w.next !in w.live && b.ctx.cipher != a.ctx.cipher
      && b.ctx.tag == a.ctx.tag && b.ctx.mode == a.ctx.mode && b.ctx.keyLen == a.ctx.keyLen
      && b.held.value.cls == a.held.value.cls && b.held.value.bits == a.held.value.bits
      && (Step(e, w, Copy(src, dst, true)).err == if a.held.value.cls == Xts then NOT_SUPPORTED else NONE)
      && var x, y := a.held.value.inner, b.held.value.inner;
         y.rest == [] && (y.key == x.key && y.iv == x.iv
                          <==> a.held.value.cls.AesGeneric? || (x.key.None? && x.iv.None?))
  {
    SafeStep(e, w, Copy(src, dst, true));
    assert CtxOk(e.zen, w.live, w.ctxs[src]);
  }

  /** Copying a context onto itself loses its object. */
  lemma SelfCopyLoses(e: Env, w: World, h: nat)
    requires Safe(e, w) && h < |w.ctxs| && w.ctxs[h].tag == CipherTag
    ensures var o := Step(e, w, Copy(h, h, true));
      o.Done? && o.err == BAD_STATE && o.w.ctxs[h].cipher.None? && w.ctxs[h].cipher.value in o.w.overwritten
  {
    assert CtxOk(e.zen, w.live, w.ctxs[h]);
  }

  /** The stale pointer that finish leaves behind is never used: whenever a multi-buffer call
      gets as far as the object, its cached pointer is the context's own live object. */
  lemma MultibufferIsOwnObject(e: Env, w: World, op: Op, h: nat, a: Args)
    requires Safe(e, w) && h < |w.ctxs| && InterfaceOf(op) == IMultibuffer
    ensures Refused(op, a, w.ctxs[h]).None? ==>
      && w.ctxs[h].multibuffer.Some? && w.ctxs[h].multibuffer == w.ctxs[h].cipher
      && CastOk(w, w.ctxs[h].multibuffer.value, IMultibuffer)
  {
    assert CtxOk(e.zen, w.live, w.ctxs[h]);
  }

  /** It does become stale: finishing a CBC or CFB context leaves a pointer to a dead object. */
  lemma FinishLeavesStale(e: Env, w: World, h: nat)
    requires Safe(e, w) && h < |w.ctxs| && w.ctxs[h].tag == CipherTag && w.ctxs[h].mode in {CBC, CFB}
    ensures var o := Step(e, w, Finish(CipherTag, h, true));
      o.Done? && o.w.ctxs[h].multibuffer.Some? && o.w.ctxs[h].multibuffer.value !in o.w.live
  {
    assert CtxOk(e.zen, w.live, w.ctxs[h]);
  }
}
