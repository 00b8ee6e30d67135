/**
 The digest and mask-generation objects of the RSA API (lib/capi/c_rsa.cc): who owns them, when
 they are deleted, and which of them the RSA object still points to. Contexts are owned by the
 caller; objects live in an explicit heap. A call that reads or deletes a dead object, or goes
 through a null pointer, is a Fault.
 */
module RsaContext {
  import opened Errors
  import opened Counting
  import opened DigestInfo

  /** The part of an Rsa object that concerns digests. */
  datatype Rsa = Rsa(digest: Option<nat>, mgf: Option<nat>, hashLen: nat, mgfHashLen: nat, index: DigestIndex)

  /** The two objects a context may own. */
  datatype Slot = Digest | Mgf

  datatype Ctx = Ctx(rsa: Option<Rsa>, digest: Option<nat>, mgf: Option<nat>)

  const FRESH := Ctx(None, None, None)
  const NEW_RSA := Rsa(None, None, 0, 0, IndexUnknown)

  /** `lost`: objects whose context was constructed anew while it owned them. */
  datatype World = World(ctxs: seq<Ctx>, live: map<nat, Mode>, next: nat, freed: set<nat>, lost: set<nat>)

  datatype Outcome = Done(w: World, err: Error) | Fault

  /** The kernels that use the objects. */
  datatype Kernel = OaepEncrypt | OaepDecrypt | Pss | Pkcs1v15

  /** What comes of the arguments: the function refuses them before it looks at its context, as it
      does a null label with a length, or the kernel refuses them before it uses the objects. */
  datatype ArgCheck = Passes | CallRefuses | KernelRefuses

  datatype Call =
    | Request(h: nat)
    | Add(h: nat, slot: Slot, mode: Mode)
    | Run(kernel: Kernel, h: nat, args: ArgCheck)
    | Finish(h: nat)
    | Copy(src: nat, h: nat)

  // ------------------------------------------------------------------ the objects

  /** Rsa::setDigest and Rsa::setMgf. */
  function SetSlot(r: Rsa, slot: Slot, p: nat, m: Mode): Rsa
    requires Fetched(m)
  {
    match slot
    case Digest =>
      // the index goes by the hash size; 36 bytes, MD5 with SHA-1, is none of the cases
      r.(digest := Some(p), hashLen := HashLen(m), index := if m == MD5_SHA1 then r.index else InfoIndex(m).value)
    case Mgf => r.(mgf := Some(p), mgfHashLen := HashLen(m))
  }

  function Get(c: Ctx, slot: Slot): Option<nat> {
    if slot == Digest then c.digest else c.mgf
  }

  function Set(c: Ctx, slot: Slot, p: Option<nat>): Ctx {
    if slot == Digest then c.(digest := p) else c.(mgf := p)
  }

  function New(w: World, m: Mode): World {
    w.(live := w.live[w.next := m], next := w.next + 1)
  }

  function Delete(w: World, p: nat): World {
    w.(live := w.live - {p}, freed := w.freed + {p})
  }

  function Put(w: World, h: nat, c: Ctx): World
    requires h < |w.ctxs|
  {
    w.(ctxs := w.ctxs[h := c])
  }

  function Held(c: Ctx): set<nat> {
    (if c.digest.Some? then {c.digest.value} else {}) + (if c.mgf.Some? then {c.mgf.value} else {})
  }

  // ------------------------------------------------------------------ the calls

  function StepRequest(w: World, h: nat): Outcome
    requires h < |w.ctxs|
  {
    Done(Put(w, h, FRESH.(rsa := Some(NEW_RSA))).(lost := w.lost + Held(w.ctxs[h])), NONE)
  }

  /** Deletes the object in a slot, if there is one. */
  function Release(w: World, h: nat, slot: Slot): World
    requires h < |w.ctxs|
  {
    var c := w.ctxs[h];
    if Get(c, slot).None? then w else Put(Delete(w, Get(c, slot).value), h, Set(c, slot, None))
  }

  /** Fills a slot with a new object and hands it to the Rsa object. */
  function Take(w: World, h: nat, slot: Slot, m: Mode): World
    requires h < |w.ctxs| && w.ctxs[h].rsa.Some? && Fetched(m)
  {
    var c := w.ctxs[h];
    Put(New(w, m), h, Set(c, slot, Some(w.next)).(rsa := Some(SetSlot(c.rsa.value, slot, w.next, m))))
  }

  predicate Deletable(w: World, h: nat, slot: Slot)
    requires h < |w.ctxs|
  {
    Get(w.ctxs[h], slot).Some? ==> Get(w.ctxs[h], slot).value in w.live
  }

  /** alcp_rsa_add_digest and alcp_rsa_add_mgf: the old object goes first, whatever the mode is. */
  function StepAdd(w: World, h: nat, slot: Slot, mode: Mode): Outcome
    requires h < |w.ctxs|
  {
    if w.ctxs[h].rsa.None? then Done(w, INVALID_DATA)
    else if !Deletable(w, h, slot) then Fault
    else if !Fetched(mode) then Done(Release(w, h, slot), NOT_SUPPORTED)
    else Done(Take(Release(w, h, slot), h, slot, mode), NONE)
  }

  /** The default SHA-256 objects of OAEP encryption. */
  function Defaults(w: World, h: nat): World
    requires h < |w.ctxs| && w.ctxs[h].rsa.Some?
  {
    var w1 := if w.ctxs[h].digest.Some? then w else Take(w, h, Digest, SHA2_256);
    if w1.ctxs[h].mgf.Some? then w1 else Take(w1, h, Mgf, SHA2_256)
  }

  predicate Live(w: World, p: Option<nat>) {
    p.Some? && p.value in w.live
  }

  /** A kernel on the pointers of the RSA object. */
  function StepKernel(w: World, k: Kernel, h: nat, args: ArgCheck): Outcome
    requires h < |w.ctxs| && w.ctxs[h].rsa.Some?
  {
    var r := w.ctxs[h].rsa.value;
    if args != Passes then Done(w, NOT_PERMITTED)
    else if k == OaepDecrypt then
      if Live(w, r.mgf) && Live(w, r.digest) then Done(w, NONE) else Fault
    else if k == OaepEncrypt then
      if r.mgf.None? || r.digest.None? then Done(w, NOT_PERMITTED)
      else if Live(w, r.mgf) && Live(w, r.digest) then Done(w, NONE) else Fault
    else if r.digest.None? || (k == Pkcs1v15 && r.index == IndexUnknown) then Done(w, NOT_PERMITTED)
    else
      // without a mask-generation object of its own the RSA object uses the digest for it, and keeps doing so
      var r1 := if r.mgf.Some? then r else r.(mgf := r.digest, mgfHashLen := r.hashLen);
      if Live(w, r1.digest) && (k == Pss ==> Live(w, r1.mgf))
      then Done(Put(w, h, w.ctxs[h].(rsa := Some(r1))), NONE)
      else Fault
  }

  function StepRun(w: World, k: Kernel, h: nat, args: ArgCheck): Outcome
    requires h < |w.ctxs|
  {
    if args == CallRefuses then Done(w, NOT_PERMITTED)
    else if w.ctxs[h].rsa.None? then Done(w, INVALID_DATA)
    else StepKernel(if k == OaepEncrypt then Defaults(w, h) else w, k, h, args)
  }

  function StepFinish(w: World, h: nat): Outcome
    requires h < |w.ctxs|
  {
    if !Deletable(w, h, Digest) then Fault
    else
      var w1 := Release(w, h, Digest);
      if !Deletable(w1, h, Mgf) then Fault else Done(Put(Release(w1, h, Mgf), h, FRESH), NONE)
  }

  /** A copy of an object the source context owns, for the same slot of the destination. */
  function CopySlot(w: World, src: nat, dst: nat, slot: Slot): World
    requires src < |w.ctxs| && dst < |w.ctxs| && w.ctxs[dst].rsa.Some?
  {
    var p := Get(w.ctxs[src], slot);
    if p.None? || p.value !in w.live || !Fetched(w.live[p.value]) then w else Take(w, dst, slot, w.live[p.value])
  }

  /** Duplication: a new Rsa object with the lengths and the index of the source's. */
  function StepCopy(w: World, src: nat, dst: nat): Outcome
    requires src < |w.ctxs| && dst < |w.ctxs| && src != dst
  {
    var s := w.ctxs[src];
    if s.rsa.None? then Done(w, INVALID_DATA)
    else if !Deletable(w, src, Digest) || !Deletable(w, src, Mgf) then Fault
    else
      var w0 := Put(w, dst, FRESH.(rsa := Some(s.rsa.value.(digest := None, mgf := None))))
                .(lost := w.lost + Held(w.ctxs[dst]));
      Done(CopySlot(CopySlot(w0, src, dst, Digest), src, dst, Mgf), NONE)
  }

  predicate WellFormed(c: Call, n: nat) {
    c.h < n && (c.Copy? ==> c.src < n && c.src != c.h)
  }

  function Step(w: World, c: Call): Outcome
    requires WellFormed(c, |w.ctxs|)
  {
    match c
    case Request(h) => StepRequest(w, h)
    case Add(h, slot, m) => StepAdd(w, h, slot, m)
    case Run(k, h, args) => StepRun(w, k, h, args)
    case Finish(h) => StepFinish(w, h)
    case Copy(src, h) => StepCopy(w, src, h)
  }

  // ------------------------------------------------------------------ what every call keeps

  /** A slot of a context. */
  datatype Place = Place(h: nat, slot: Slot)

  function At(w: World, s: Place): Option<nat>
    requires s.h < |w.ctxs|
  {
    Get(w.ctxs[s.h], s.slot)
  }

  /** What the Rsa object of a context points to: its context's objects, or nothing alive. */
  predicate Pointing(live: map<nat, Mode>, next: nat, c: Ctx) {
    && (c.rsa.None? ==> c.digest.None? && c.mgf.None?)
    && (c.rsa.Some? ==>
          var r := c.rsa.value;
          && (c.digest.Some? ==> r.digest == c.digest)
          && (c.mgf.Some? ==> r.mgf == c.mgf)
          && (r.digest.Some? && c.digest.None? ==> r.digest.value !in live && r.digest.value < next)
          && (r.mgf.Some? && c.mgf.None? && r.mgf != c.digest ==> r.mgf.value !in live && r.mgf.value < next)
          && (r.mgf.Some? && c.mgf.None? && r.mgf == c.digest ==> r.digest == c.digest)
          && r.index != IndexMd5Sha1)
  }

  ghost predicate Owns(w: World) {
    && (forall s: Place :: s.h < |w.ctxs| && At(w, s).Some? ==> At(w, s).value in w.live && Fetched(w.live[At(w, s).value]))
    && (forall s: Place, t: Place :: s.h < |w.ctxs| && t.h < |w.ctxs| && s != t && At(w, s).Some? ==> At(w, s) != At(w, t))
    && (forall p :: p in w.live ==> p < w.next)
  }

  ghost predicate Safe(w: World) {
    && Owns(w)
    && (forall h :: 0 <= h < |w.ctxs| ==> Pointing(w.live, w.next, w.ctxs[h]))
  }

  /** A context's two objects are alive, supported and distinct. */
  lemma SlotsOf(w: World, h: nat)
    requires Owns(w) && h < |w.ctxs|
    ensures var c := w.ctxs[h];
      && (c.digest.Some? ==> c.digest.value in w.live && Fetched(w.live[c.digest.value]) && c.digest.value < w.next)
      && (c.mgf.Some? ==> c.mgf.value in w.live && Fetched(w.live[c.mgf.value]) && c.mgf.value < w.next)
      && (c.digest.Some? ==> c.digest != c.mgf)
  {
    assert At(w, Place(h, Digest)) == w.ctxs[h].digest && At(w, Place(h, Mgf)) == w.ctxs[h].mgf;
  }

  lemma SafeRelease(w: World, h: nat, slot: Slot)
    requires Safe(w) && h < |w.ctxs|
    ensures Deletable(w, h, slot) && Safe(Release(w, h, slot)) && |Release(w, h, slot).ctxs| == |w.ctxs|
  {
    SlotsOf(w, h);
    var w1 := Release(w, h, slot);
    forall s: Place | s.h < |w.ctxs| && At(w1, s).Some?
      ensures At(w1, s) == At(w, s) && At(w1, s).value in w1.live
    {
      if s != Place(h, slot) {
        assert At(w1, s) == At(w, s) && At(w, s) != At(w, Place(h, slot));
      }
    }
  }

  lemma SafeTake(w: World, h: nat, slot: Slot, m: Mode)
    requires Safe(w) && h < |w.ctxs| && w.ctxs[h].rsa.Some? && Fetched(m) && Get(w.ctxs[h], slot).None?
    ensures Safe(Take(w, h, slot, m)) && |Take(w, h, slot, m).ctxs| == |w.ctxs|
  {
    SlotsOf(w, h);
    var w1 := Take(w, h, slot, m);
    forall s: Place | s.h < |w.ctxs| && s != Place(h, slot) ensures At(w1, s) == At(w, s) {
    }
    assert At(w1, Place(h, slot)) == Some(w.next);
  }

  lemma DefaultsSafe(w: World, h: nat)
    requires Safe(w) && h < |w.ctxs| && w.ctxs[h].rsa.Some?
    ensures Safe(Defaults(w, h)) && |Defaults(w, h).ctxs| == |w.ctxs|
    ensures var c := Defaults(w, h).ctxs[h];
      && c.rsa.Some? && c.digest.Some? && c.mgf.Some? && c.digest != c.mgf
      && c.rsa.value.digest == c.digest && c.rsa.value.mgf == c.mgf
      && c.digest.value in Defaults(w, h).live && c.mgf.value in Defaults(w, h).live
  {
    var w1 := w;
    if w.ctxs[h].digest.None? {
      SafeTake(w, h, Digest, SHA2_256);
      w1 := Take(w, h, Digest, SHA2_256);
    }
    if w1.ctxs[h].mgf.None? {
      SafeTake(w1, h, Mgf, SHA2_256);
    }
    SlotsOf(Defaults(w, h), h);
  }

  lemma SafeRun(w: World, k: Kernel, h: nat, args: ArgCheck)
    requires Safe(w) && h < |w.ctxs|
    ensures var o := StepRun(w, k, h, args);
      && (o.Fault? ==> k != OaepEncrypt && args == Passes)
      && (o.Done? ==> Safe(o.w) && |o.w.ctxs| == |w.ctxs|)
  {
    SlotsOf(w, h);
    if w.ctxs[h].rsa.Some? && k == OaepEncrypt {
      DefaultsSafe(w, h);
    }
  }

  lemma SafeCopySlot(w: World, src: nat, dst: nat, slot: Slot)
    requires Safe(w) && src < |w.ctxs| && dst < |w.ctxs| && w.ctxs[dst].rsa.Some? && Get(w.ctxs[dst], slot).None?
    ensures var w1 := CopySlot(w, src, dst, slot);
      && Safe(w1) && |w1.ctxs| == |w.ctxs| && w1.ctxs[dst].rsa.Some?
      && (slot == Digest ==> w1.ctxs[dst].mgf == w.ctxs[dst].mgf)
  {
    SlotsOf(w, src);
    var p := Get(w.ctxs[src], slot);
    if p.Some? {
      SafeTake(w, dst, slot, w.live[p.value]);
    }
  }

  /** Constructing a context anew: nothing it held is owned any more. */
  lemma SafeFresh(w: World, h: nat, r: Option<Rsa>, lost: set<nat>)
    requires Safe(w) && h < |w.ctxs|
    requires r.Some? ==> r.value.digest.None? && r.value.mgf.None? && r.value.index != IndexMd5Sha1
    ensures Safe(Put(w, h, FRESH.(rsa := r)).(lost := lost))
  {
  }

  /** The calls that manage the objects never fault, and every call keeps every state safe. */
  lemma SafeStep(w: World, c: Call)
    requires Safe(w) && WellFormed(c, |w.ctxs|)
    ensures Step(w, c).Fault? ==> c.Run? && c.kernel != OaepEncrypt && c.args == Passes
    ensures Step(w, c).Done? ==> Safe(Step(w, c).w) && |Step(w, c).w.ctxs| == |w.ctxs|
  {
    match c
    case Request(h) => SafeFresh(w, h, Some(NEW_RSA), w.lost + Held(w.ctxs[h]));
    case Add(h, slot, m) =>
      SafeRelease(w, h, slot);
      if w.ctxs[h].rsa.Some? && Fetched(m) {
        SafeTake(Release(w, h, slot), h, slot, m);
      }
    case Run(k, h, args) => SafeRun(w, k, h, args);
    case Finish(h) =>
      SafeRelease(w, h, Digest);
      SafeRelease(Release(w, h, Digest), h, Mgf);
      var w2 := Release(Release(w, h, Digest), h, Mgf);
      SafeFresh(w2, h, None, w2.lost);
    case Copy(src, h) => SafeCopy(w, src, h);
  }

  lemma SafeCopy(w: World, src: nat, dst: nat)
    requires Safe(w) && src < |w.ctxs| && dst < |w.ctxs| && src != dst
    ensures var o := StepCopy(w, src, dst); o.Done? && Safe(o.w) && |o.w.ctxs| == |w.ctxs|
  {
    SlotsOf(w, src);
    if w.ctxs[src].rsa.Some? {
      var r := w.ctxs[src].rsa.value.(digest := None, mgf := None);
      var lost := w.lost + Held(w.ctxs[dst]);
      SafeFresh(w, dst, Some(r), lost);
      var w0 := Put(w, dst, FRESH.(rsa := Some(r))).(lost := lost);
      SafeCopySlot(w0, src, dst, Digest);
      SafeCopySlot(CopySlot(w0, src, dst, Digest), src, dst, Mgf);
    }
  }

  // ------------------------------------------------------------------ the kernels

  /** The last add_digest failed: the old object is gone, and the Rsa object still points to it. */
  predicate DigestGone(c: Ctx)
    requires c.rsa.Some?
  {
    c.rsa.value.digest.Some? && c.digest.None?
  }

  /** The mask-generation object is gone: a failed add_mgf, or the digest stood in for it and was replaced. */
  predicate MgfGone(c: Ctx)
    requires c.rsa.Some?
  {
    c.rsa.value.mgf.Some? && c.mgf.None? && c.rsa.value.mgf != c.digest
  }

  predicate ReadsDead(k: Kernel, c: Ctx)
    requires c.rsa.Some?
  {
    var r := c.rsa.value;
    match k
    case OaepEncrypt => false
    case OaepDecrypt => r.digest.None? || r.mgf.None? || DigestGone(c) || MgfGone(c)
    case Pss => r.digest.Some? && (DigestGone(c) || MgfGone(c))
    case Pkcs1v15 => r.index != IndexUnknown && DigestGone(c)
  }

  /**
   Exactly when a kernel reads a dead object or goes through a null pointer, in any safe state.
   OAEP encryption never does: it creates what its context lacks first.
   */
  lemma KernelFaultsIff(w: World, k: Kernel, h: nat, args: ArgCheck)
    requires Safe(w) && h < |w.ctxs| && w.ctxs[h].rsa.Some?
    ensures StepRun(w, k, h, args).Fault? <==> args == Passes && ReadsDead(k, w.ctxs[h])
  {
    SlotsOf(w, h);
    DefaultsSafe(w, h);
  }

  /** At the kernel call of OAEP encryption the Rsa object's two pointers are the context's own
      live and distinct objects, also after adds that failed. */
  lemma OaepEncryptUsesOwnObjects(w: World, h: nat)
    requires Safe(w) && h < |w.ctxs| && w.ctxs[h].rsa.Some?
    ensures var w1 := Defaults(w, h); var c := w1.ctxs[h];
      && c.rsa.Some? && c.digest.Some? && c.mgf.Some? && c.digest != c.mgf
      && c.rsa.value.digest == c.digest && c.rsa.value.mgf == c.mgf
      && c.digest.value in w1.live && c.mgf.value in w1.live
    ensures StepRun(w, OaepEncrypt, h, Passes).Done? && StepRun(w, OaepEncrypt, h, Passes).err == NONE
  {
    DefaultsSafe(w, h);
  }

  /** A run; it stops at a fault. */
  function RunCalls(w: World, calls: seq<Call>): Outcome
    requires forall c :: c in calls ==> WellFormed(c, |w.ctxs|)
    decreases |calls|
  {
    if calls == [] then Done(w, NONE)
    else
      var o := Step(w, calls[0]);
      StepKeepsContexts(w, calls[0]);
      if o.Fault? then Fault else RunCalls(o.w, calls[1..])
  }

  lemma StepKeepsContexts(w: World, c: Call)
    requires WellFormed(c, |w.ctxs|)
    ensures Step(w, c).Done? ==> |Step(w, c).w.ctxs| == |w.ctxs|
  {
  }

  /** Every object is deleted at most once and no two slots share one, in every run that gets through. */
  lemma {:induction false} RunsAreSafe(w: World, calls: seq<Call>)
    requires Safe(w) && forall c :: c in calls ==> WellFormed(c, |w.ctxs|)
    ensures RunCalls(w, calls).Done? ==> Safe(RunCalls(w, calls).w) && |RunCalls(w, calls).w.ctxs| == |w.ctxs|
    decreases |calls|
  {
    if calls != [] {
      SafeStep(w, calls[0]);
      if Step(w, calls[0]).Done? {
        RunsAreSafe(Step(w, calls[0]).w, calls[1..]);
      }
    }
  }

  function Start(n: nat): World {
    World(seq(n, _ => FRESH), map[], 0, {}, {})
  }

  /** In every state that calls on n fresh contexts can reach, OAEP encryption succeeds on the
      context's own two objects. */
  lemma ReachableOaepEncrypt(n: nat, calls: seq<Call>, h: nat)
    requires (forall c :: c in calls ==> WellFormed(c, n)) && h < n
    requires RunCalls(Start(n), calls).Done?
    ensures |RunCalls(Start(n), calls).w.ctxs| == n
    ensures var w := RunCalls(Start(n), calls).w;
      w.ctxs[h].rsa.Some? ==>
        && StepRun(w, OaepEncrypt, h, Passes).Done? && StepRun(w, OaepEncrypt, h, Passes).err == NONE
        && var c := StepRun(w, OaepEncrypt, h, Passes).w.ctxs[h];
           && c.rsa.Some? && c.digest.Some? && c.mgf.Some? && c.digest != c.mgf
           && c.rsa.value.digest == c.digest && c.rsa.value.mgf == c.mgf
  {
    RunsAreSafe(Start(n), calls);
    var w := RunCalls(Start(n), calls).w;
    if w.ctxs[h].rsa.Some? {
      OaepEncryptUsesOwnObjects(w, h);
    }
  }

  // ------------------------------------------------------------------ careful runs

  /** The Rsa objects point to what their contexts own, and to nothing else. */
  ghost predicate Tidy(w: World) {
    forall h :: 0 <= h < |w.ctxs| ==> TidyCtx(w.ctxs[h])
  }

  predicate TidyCtx(c: Ctx) {
    c.rsa.Some? ==> c.rsa.value.digest == c.digest && c.rsa.value.mgf == c.mgf
  }

  /** Modes are supported ones, and a signature or a decryption has its own mask-generation object. */
  predicate Careful(w: World, c: Call)
    requires WellFormed(c, |w.ctxs|)
  {
    && (c.Add? ==> Fetched(c.mode))
    && (c.Run? && c.kernel != OaepEncrypt ==> w.ctxs[c.h].digest.Some? && w.ctxs[c.h].mgf.Some?)
  }

  lemma CarefulStep(w: World, c: Call)
    requires Safe(w) && Tidy(w) && WellFormed(c, |w.ctxs|) && Careful(w, c)
    ensures Step(w, c).Done? && Tidy(Step(w, c).w)
  {
    SafeStep(w, c);
    assert TidyCtx(w.ctxs[c.h]);
    match c
    case Run(k, h, args) => CarefulKernel(w, k, h, args);
    case Copy(src, h) => CarefulCopy(w, src, h);
    case _ =>
  }

  lemma CarefulKernel(w: World, k: Kernel, h: nat, args: ArgCheck)
    requires Safe(w) && Tidy(w) && h < |w.ctxs| && Careful(w, Run(k, h, args))
    ensures StepRun(w, k, h, args).Done? && Tidy(StepRun(w, k, h, args).w)
  {
    SlotsOf(w, h);
    assert TidyCtx(w.ctxs[h]);
    if w.ctxs[h].rsa.Some? {
      DefaultsSafe(w, h);
      KernelFaultsIff(w, k, h, args);
    }
  }

  lemma CarefulCopy(w: World, src: nat, dst: nat)
    requires Safe(w) && Tidy(w) && src < |w.ctxs| && dst < |w.ctxs| && src != dst
    ensures StepCopy(w, src, dst).Done? && Tidy(StepCopy(w, src, dst).w)
  {
    SafeCopy(w, src, dst);
    SlotsOf(w, src);
    var w1 := StepCopy(w, src, dst).w;
    forall h | 0 <= h < |w1.ctxs| ensures TidyCtx(w1.ctxs[h]) {
      assert h != dst ==> w1.ctxs[h] == w.ctxs[h];
      assert TidyCtx(w.ctxs[h]);
    }
  }

  ghost predicate CarefulRun(w: World, calls: seq<Call>)
    requires forall c :: c in calls ==> WellFormed(c, |w.ctxs|)
    decreases |calls|
  {
    calls != [] ==>
      && Careful(w, calls[0])
      && (StepKeepsContexts(w, calls[0]);
          Step(w, calls[0]).Done? ==> CarefulRun(Step(w, calls[0]).w, calls[1..]))
  }

  /** A careful run never reads a dead object. */
  lemma {:induction false} CarefulRunsDone(w: World, calls: seq<Call>)
    requires Safe(w) && Tidy(w) && (forall c :: c in calls ==> WellFormed(c, |w.ctxs|)) && CarefulRun(w, calls)
    ensures RunCalls(w, calls).Done? && Safe(RunCalls(w, calls).w) && Tidy(RunCalls(w, calls).w)
    decreases |calls|
  {
    if calls != [] {
      CarefulStep(w, calls[0]);
      SafeStep(w, calls[0]);
      CarefulRunsDone(Step(w, calls[0]).w, calls[1..]);
    }
  }

  // ------------------------------------------------------------------ conservation

  predicate Owned(w: World, p: nat) {
    exists h :: 0 <= h < |w.ctxs| && p in Held(w.ctxs[h])
  }

  /** Every identity handed out was freed, or is live and owned, or was lost; never two of these. */
  ghost predicate Placed(w: World, p: nat) {
    && (p < w.next <==> p in w.freed || p in w.live)
    && !(p in w.freed && p in w.live)
    && (p in w.live <==> Owned(w, p) || p in w.lost)
    && !(Owned(w, p) && p in w.lost)
  }

  ghost predicate Accounted(w: World) {
    forall p: nat :: Placed(w, p)
  }

  /** Replacing one context changes who owns what by that context only. */
  lemma OwnedUpdate(w: World, h: nat, c: Ctx, p: nat)
    requires Owns(w) && h < |w.ctxs|
    ensures Owned(Put(w, h, c), p) <==> p in Held(c) || (Owned(w, p) && p !in Held(w.ctxs[h]))
  {
    var w1 := Put(w, h, c);
    if Owned(w1, p) && p !in Held(c) {
      var i :| 0 <= i < |w1.ctxs| && p in Held(w1.ctxs[i]);
      assert i != h && p in Held(w.ctxs[i]);
      OwnersApart(w, i, h, p);
    }
    if p in Held(c) {
      assert p in Held(w1.ctxs[h]);
    } else if Owned(w, p) && p !in Held(w.ctxs[h]) {
      var i :| 0 <= i < |w.ctxs| && p in Held(w.ctxs[i]);
      assert p in Held(w1.ctxs[i]);
    }
  }

  lemma OwnersApart(w: World, i: nat, j: nat, p: nat)
    requires Owns(w) && i < |w.ctxs| && j < |w.ctxs| && i != j && p in Held(w.ctxs[i])
    ensures p !in Held(w.ctxs[j])
  {
    assert At(w, Place(i, Digest)) != Some(p) ==> At(w, Place(i, Mgf)) == Some(p);
    assert At(w, Place(j, Digest)) == w.ctxs[j].digest && At(w, Place(j, Mgf)) == w.ctxs[j].mgf;
  }

  lemma AccountedRelease(w: World, h: nat, slot: Slot)
    requires Safe(w) && Accounted(w) && h < |w.ctxs|
    ensures Accounted(Release(w, h, slot))
  {
    SlotsOf(w, h);
    var c := w.ctxs[h];
    if Get(c, slot).Some? {
      var q := Get(c, slot).value;
      var w1 := Release(w, h, slot);
      forall p: nat ensures Placed(w1, p) {
        assert Placed(w, p);
        OwnedUpdate(w, h, Set(c, slot, None), p);
        SameOwners(w1, Put(w, h, Set(c, slot, None)), p);
      }
    }
  }

  lemma AccountedTake(w: World, h: nat, slot: Slot, m: Mode)
    requires Safe(w) && Accounted(w) && h < |w.ctxs| && w.ctxs[h].rsa.Some? && Fetched(m) && Get(w.ctxs[h], slot).None?
    ensures Accounted(Take(w, h, slot, m))
  {
    SlotsOf(w, h);
    var w1 := Take(w, h, slot, m);
    forall p: nat ensures Placed(w1, p) {
      assert Placed(w, p);
      OwnedUpdate(w, h, w1.ctxs[h], p);
      SameOwners(w1, Put(w, h, w1.ctxs[h]), p);
    }
  }

  lemma SameOwners(v: World, w: World, p: nat)
    requires v.ctxs == w.ctxs
    ensures Owned(v, p) == Owned(w, p)
  {
  }

  lemma AccountedFresh(w: World, h: nat, r: Option<Rsa>)
    requires Safe(w) && Accounted(w) && h < |w.ctxs|
    ensures Accounted(Put(w, h, FRESH.(rsa := r)).(lost := w.lost + Held(w.ctxs[h])))
  {
    SlotsOf(w, h);
    var w1 := Put(w, h, FRESH.(rsa := r)).(lost := w.lost + Held(w.ctxs[h]));
    forall p: nat ensures Placed(w1, p) {
      assert Placed(w, p);
      OwnedUpdate(w, h, FRESH.(rsa := r), p);
      SameOwners(w1, Put(w, h, FRESH.(rsa := r)), p);
      assert p in Held(w.ctxs[h]) ==> Owned(w, p);
    }
  }

  /** A request or a copy loses what its context held. */
  function Loses(w: World, c: Call): set<nat>
    requires WellFormed(c, |w.ctxs|)
  {
    if c.Request? || (c.Copy? && w.ctxs[c.src].rsa.Some?) then Held(w.ctxs[c.h]) else {}
  }

  lemma AccountedRun(w: World, k: Kernel, h: nat, args: ArgCheck)
    requires Safe(w) && Accounted(w) && h < |w.ctxs| && StepRun(w, k, h, args).Done?
    ensures Accounted(StepRun(w, k, h, args).w) && StepRun(w, k, h, args).w.lost == w.lost
  {
    if w.ctxs[h].rsa.Some? {
      if k == OaepEncrypt {
        DefaultsSafe(w, h);
        var w1 := w;
        if w.ctxs[h].digest.None? {
          SafeTake(w, h, Digest, SHA2_256);
          AccountedTake(w, h, Digest, SHA2_256);
          w1 := Take(w, h, Digest, SHA2_256);
        }
        if w1.ctxs[h].mgf.None? {
          AccountedTake(w1, h, Mgf, SHA2_256);
        }
      } else {
        AccountedSame(w, h, StepRun(w, k, h, args).w);
      }
    }
  }

  /** A context that keeps its objects. */
  lemma AccountedSame(w: World, h: nat, w1: World)
    requires Safe(w) && Accounted(w) && h < |w.ctxs| && |w1.ctxs| == |w.ctxs|
    requires w1 == Put(w, h, w1.ctxs[h]) && Held(w1.ctxs[h]) == Held(w.ctxs[h])
    ensures Accounted(w1)
  {
    forall p: nat ensures Placed(w1, p) {
      assert Placed(w, p);
      OwnedUpdate(w, h, w1.ctxs[h], p);
      assert p in Held(w.ctxs[h]) ==> Owned(w, p);
    }
  }

  lemma AccountedCopy(w: World, src: nat, dst: nat)
    requires Safe(w) && Accounted(w) && src < |w.ctxs| && dst < |w.ctxs| && src != dst
    ensures StepCopy(w, src, dst).Done? && Accounted(StepCopy(w, src, dst).w)
    ensures StepCopy(w, src, dst).w.lost == w.lost + (if w.ctxs[src].rsa.Some? then Held(w.ctxs[dst]) else {})
  {
    SafeCopy(w, src, dst);
    SlotsOf(w, src);
    if w.ctxs[src].rsa.Some? {
      var r := w.ctxs[src].rsa.value.(digest := None, mgf := None);
      SafeFresh(w, dst, Some(r), w.lost + Held(w.ctxs[dst]));
      AccountedFresh(w, dst, Some(r));
      var w0 := Put(w, dst, FRESH.(rsa := Some(r))).(lost := w.lost + Held(w.ctxs[dst]));
      AccountedCopySlot(w0, src, dst, Digest);
      SafeCopySlot(w0, src, dst, Digest);
      AccountedCopySlot(CopySlot(w0, src, dst, Digest), src, dst, Mgf);
    }
  }

  lemma AccountedCopySlot(w: World, src: nat, dst: nat, slot: Slot)
    requires Safe(w) && Accounted(w) && src < |w.ctxs| && dst < |w.ctxs| && w.ctxs[dst].rsa.Some?
    requires Get(w.ctxs[dst], slot).None?
    ensures Accounted(CopySlot(w, src, dst, slot)) && CopySlot(w, src, dst, slot).lost == w.lost
  {
    SlotsOf(w, src);
    var p := Get(w.ctxs[src], slot);
    if p.Some? {
      AccountedTake(w, dst, slot, w.live[p.value]);
    }
  }

  /** In every step what was created is freed, owned or lost, and only constructing anew loses. */
  lemma AccountedStep(w: World, c: Call)
    requires Safe(w) && Accounted(w) && WellFormed(c, |w.ctxs|) && Step(w, c).Done?
    ensures Accounted(Step(w, c).w) && Step(w, c).w.lost == w.lost + Loses(w, c)
  {
    match c
    case Request(h) => AccountedFresh(w, h, Some(NEW_RSA));
    case Add(h, slot, m) =>
      SafeRelease(w, h, slot);
      AccountedRelease(w, h, slot);
      if w.ctxs[h].rsa.Some? && Fetched(m) {
        AccountedTake(Release(w, h, slot), h, slot, m);
      }
    case Run(k, h, args) => AccountedRun(w, k, h, args);
    case Finish(h) =>
      SafeRelease(w, h, Digest);
      AccountedRelease(w, h, Digest);
      SafeRelease(Release(w, h, Digest), h, Mgf);
      AccountedRelease(Release(w, h, Digest), h, Mgf);
      var w2 := Release(Release(w, h, Digest), h, Mgf);
      AccountedFresh(w2, h, None);
      assert w2.lost + Held(w2.ctxs[h]) == w2.lost;
    case Copy(src, h) => AccountedCopy(w, src, h);
  }

  /** The objects that contexts own. */
  function Holding(ctxs: seq<Ctx>): set<nat> {
    if ctxs == [] then {} else Holding(ctxs[..|ctxs| - 1]) + Held(ctxs[|ctxs| - 1])
  }

  lemma {:induction false} HoldingMembers(ctxs: seq<Ctx>, p: nat)
    ensures p in Holding(ctxs) <==> exists h :: 0 <= h < |ctxs| && p in Held(ctxs[h])
  {
    if ctxs != [] {
      var init := ctxs[..|ctxs| - 1];
      HoldingMembers(init, p);
      assert forall h :: 0 <= h < |init| ==> init[h] == ctxs[h];
    }
  }

  /** Created = freed + owned + lost. */
  lemma CountedApart(w: World)
    requires Accounted(w)
    ensures w.next == |w.freed| + |Holding(w.ctxs)| + |w.lost|
  {
    var o := Holding(w.ctxs);
    forall p: nat
      ensures p in w.freed + o + w.lost <==> p < w.next
      ensures !(p in w.freed && (p in o || p in w.lost)) && !(p in o && p in w.lost)
    {
      assert Placed(w, p);
      HoldingMembers(w.ctxs, p);
    }
    IdsCount(w.next, w.freed + o + w.lost);
    assert w.freed !! o && (w.freed + o) !! w.lost;
    assert |w.freed + o| == |w.freed| + |o| && |w.freed + o + w.lost| == |w.freed + o| + |w.lost|;
  }

  /** How many objects the calls of a run lose, up to a fault if there is one. */
  function Losses(w: World, calls: seq<Call>): nat
    requires forall c :: c in calls ==> WellFormed(c, |w.ctxs|)
    decreases |calls|
  {
    if calls == [] then 0
    else
      var o := Step(w, calls[0]);
      StepKeepsContexts(w, calls[0]);
      if o.Fault? then 0 else |Loses(w, calls[0])| + Losses(o.w, calls[1..])
  }

  lemma LossStep(w: World, c: Call)
    requires Safe(w) && Accounted(w) && WellFormed(c, |w.ctxs|) && Step(w, c).Done?
    ensures |Step(w, c).w.lost| == |w.lost| + |Loses(w, c)|
  {
    AccountedStep(w, c);
    forall p: nat | p in Loses(w, c) ensures p !in w.lost {
      assert Placed(w, p) && p in Held(w.ctxs[c.h]);
    }
    assert w.lost !! Loses(w, c);
  }

  /**
   In every run that gets through, the objects created are those freed, owned and lost, none of
   them twice, and exactly the objects that contexts held when they were constructed anew are lost.
   */
  lemma {:induction false} Conservation(w: World, calls: seq<Call>)
    requires Safe(w) && Accounted(w) && (forall c :: c in calls ==> WellFormed(c, |w.ctxs|))
    requires RunCalls(w, calls).Done?
    ensures var w' := RunCalls(w, calls).w;
      && Accounted(w')
      && w'.next == |w'.freed| + |Holding(w'.ctxs)| + |w'.lost|
      && |w'.lost| == |w.lost| + Losses(w, calls)
    decreases |calls|
  {
    if calls == [] {
      CountedApart(w);
    } else {
      SafeStep(w, calls[0]);
      AccountedStep(w, calls[0]);
      LossStep(w, calls[0]);
      Conservation(Step(w, calls[0]).w, calls[1..]);
    }
  }

  /** Finishing the first n contexts. */
  function FinishAll(n: nat): (calls: seq<Call>)
    ensures forall c :: c in calls ==> WellFormed(c, n)
  {
    if n == 0 then [] else [Finish(n - 1)] + FinishAll(n - 1)
  }

  /** After finishing the first n contexts of a safe state only the later ones own anything. */
  lemma {:induction false} FinishAllReleases(w: World, n: nat)
    requires Safe(w) && Accounted(w) && n <= |w.ctxs|
    requires forall i :: n <= i < |w.ctxs| ==> Held(w.ctxs[i]) == {}
    ensures RunCalls(w, FinishAll(n)).Done?
    ensures var w' := RunCalls(w, FinishAll(n)).w;
      && Safe(w') && Accounted(w') && w'.lost == w.lost && w'.next == w.next
      && |w'.ctxs| == |w.ctxs| && forall i :: 0 <= i < |w'.ctxs| ==> Held(w'.ctxs[i]) == {}
    decreases n
  {
    if n > 0 {
      var c := Finish(n - 1);
      SafeStep(w, c);
      AccountedStep(w, c);
      FinishAllReleases(Step(w, c).w, n - 1);
      assert ([c] + FinishAll(n - 1))[1..] == FinishAll(n - 1);
    }
  }

  /** When no context owns anything, nothing is alive but what was lost. */
  lemma AllFinished(w: World)
    requires Accounted(w) && forall h :: 0 <= h < |w.ctxs| ==> Held(w.ctxs[h]) == {}
    ensures w.live.Keys == w.lost
  {
    forall p: nat ensures p in w.live <==> p in w.lost {
      assert Placed(w, p) && !Owned(w, p);
    }
  }

  /**
   Finishing every context after any run that gets through never faults and leaves alive exactly
   what the run lost; a run that loses nothing frees everything it created.
   */
  lemma NothingLeaks(n: nat, calls: seq<Call>)
    requires (forall c :: c in calls ==> WellFormed(c, n)) && RunCalls(Start(n), calls).Done?
    ensures |RunCalls(Start(n), calls).w.ctxs| == n
    ensures var w := RunCalls(Start(n), calls).w;
      && RunCalls(w, FinishAll(n)).Done?
      && var end := RunCalls(w, FinishAll(n)).w;
         && end.live.Keys == w.lost && |end.live.Keys| == Losses(Start(n), calls)
         && end.next == w.next == |end.freed| + Losses(Start(n), calls)
  {
    StartAccounted(n);
    RunsAreSafe(Start(n), calls);
    Conservation(Start(n), calls);
    var w := RunCalls(Start(n), calls).w;
    FinishAllReleases(w, n);
    var end := RunCalls(w, FinishAll(n)).w;
    AllFinished(end);
    CountedApart(end);
    forall p: nat ensures p !in Holding(end.ctxs) {
      HoldingMembers(end.ctxs, p);
    }
    assert Holding(end.ctxs) == {};
  }

  lemma StartAccounted(n: nat)
    ensures Safe(Start(n)) && Accounted(Start(n))
  {
  }

  // ------------------------------------------------------------------ the DigestInfo index

  /** After adding a digest the index is that of the mode, MD5 with SHA-1 excepted: for it the
      index of the digest before stays. */
  lemma IndexAfterAdd(w: World, h: nat, m: Mode)
    requires Safe(w) && h < |w.ctxs| && w.ctxs[h].rsa.Some? && Fetched(m)
    ensures StepAdd(w, h, Digest, m).Done?
    ensures var c := StepAdd(w, h, Digest, m).w.ctxs[h];
      c.rsa.Some? && (c.rsa.value.index == InfoIndex(m).value <==> m != MD5_SHA1)
  {
    SafeRelease(w, h, Digest);
    SlotsOf(w, h);
    assert Pointing(w.live, w.next, w.ctxs[h]);
  }

  /** A run on one fresh context in which a signature reads a deleted object: the digest stood in
      for the missing mask-generation object, was replaced, and is used again. */
  lemma StandInOutlived()
    ensures RunCalls(Start(1),
                     [Request(0), Add(0, Digest, SHA2_256), Run(Pss, 0, Passes), Add(0, Digest, SHA1), Run(Pss, 0, Passes)])
            == Fault
  {
    var calls := [Request(0), Add(0, Digest, SHA2_256), Run(Pss, 0, Passes), Add(0, Digest, SHA1), Run(Pss, 0, Passes)];
    var w0 := Start(1);
    var w1 := Step(w0, calls[0]).w;
    var w2 := Step(w1, calls[1]).w;
    var w3 := Step(w2, calls[2]).w;
    var w4 := Step(w3, calls[3]).w;
    assert calls[1..][1..] == calls[2..] && calls[2..][1..] == calls[3..] && calls[3..][1..] == calls[4..];
    assert RunCalls(w0, calls) == RunCalls(w1, calls[1..]) == RunCalls(w2, calls[2..]);
    assert RunCalls(w2, calls[2..]) == RunCalls(w3, calls[3..]) == RunCalls(w4, calls[4..]);
    assert Step(w4, calls[4]) == Fault;
  }
}
