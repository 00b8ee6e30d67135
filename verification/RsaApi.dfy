/**
 The functions of c_rsa.cc as they run, each proved to be one call of RsaContext. Reading or
 deleting an object requires it to be live.
 */
module RsaApi {
  import opened Errors
  import opened DigestInfo
  import opened RsaContext

  /** getInputBlockSize of the digest classes. */
  function InputBlockSize(m: Mode): nat
    requires Fetched(m)
  {
    if m in {SHA2_384, SHA2_512, SHA2_512_224, SHA2_512_256} then 128 else 64
  }

  class RsaLibrary {
    var ctxs: seq<Ctx>
    var live: map<nat, Mode>
    var next: nat
    ghost var freed: set<nat>
    ghost var lost: set<nat>

    constructor (n: nat)
      ensures State() == Start(n) && Valid()
    {
      ctxs, live, next, freed, lost := seq(n, _ => FRESH), map[], 0, {}, {};
    }

    ghost function State(): World
      reads this
    {
      World(ctxs, live, next, freed, lost)
    }

    ghost predicate Valid()
      reads this
    {
      Safe(State())
    }

    method Delete(p: nat)
      requires p in live
      modifies `live, `freed
      ensures live == old(live) - {p} && freed == old(freed) + {p}
    {
      live, freed := live - {p}, freed + {p};
    }

    method New(m: Mode) returns (p: nat)
      modifies `live, `next
      ensures p == old(next) && next == p + 1 && live == old(live)[p := m]
    {
      p := next;
      live, next := live[p := m], p + 1;
    }

    /** Rsa::setDigest: the index follows from the hash length and the block size. */
    method SetDigest(h: nat, p: nat)
      requires h < |ctxs| && ctxs[h].rsa.Some? && p in live && Fetched(live[p])
      modifies `ctxs
      ensures ctxs == old(ctxs)[h := old(ctxs)[h].(rsa := Some(SetSlot(old(ctxs)[h].rsa.value, Digest, p, live[p])))]
    {
      var r, m := ctxs[h].rsa.value, live[p];
      r := r.(digest := Some(p), hashLen := HashLen(m));
      var bits := r.hashLen * 8;
      if bits == 128 {
        r := r.(index := IndexMd5);
      } else if bits == 160 {
        r := r.(index := IndexSha1);
      } else if bits == 224 {
        r := r.(index := if InputBlockSize(m) == 64 then IndexSha224 else IndexSha512_224);
      } else if bits == 256 {
        r := r.(index := if InputBlockSize(m) == 64 then IndexSha256 else IndexSha512_256);
      } else if bits == 384 {
        r := r.(index := IndexSha384);
      } else if bits == 512 {
        r := r.(index := IndexSha512);
      }
      ctxs := ctxs[h := ctxs[h].(rsa := Some(r))];
    }

    method SetMgf(h: nat, p: nat)
      requires h < |ctxs| && ctxs[h].rsa.Some? && p in live && Fetched(live[p])
      modifies `ctxs
      ensures ctxs == old(ctxs)[h := old(ctxs)[h].(rsa := Some(SetSlot(old(ctxs)[h].rsa.value, Mgf, p, live[p])))]
    {
      var r := ctxs[h].rsa.value.(mgf := Some(p), mgfHashLen := HashLen(live[p]));
      ctxs := ctxs[h := ctxs[h].(rsa := Some(r))];
    }

    /** Deletes the object in a slot, if there is one, and clears the slot. */
    method ReleaseSlot(h: nat, slot: Slot)
      requires h < |ctxs| && Deletable(State(), h, slot)
      modifies this
      ensures State() == Release(old(State()), h, slot)
    {
      var p := Get(ctxs[h], slot);
      if p.Some? {
        Delete(p.value);
        ctxs := ctxs[h := Set(ctxs[h], slot, None)];
      }
    }

    /** A new object of a supported mode for a slot, handed on to the Rsa object. */
    method TakeSlot(h: nat, slot: Slot, mode: Mode)
      requires h < |ctxs| && ctxs[h].rsa.Some? && Fetched(mode)
      modifies this
      ensures State() == Take(old(State()), h, slot, mode)
    {
      var p := New(mode);
      ctxs := ctxs[h := Set(ctxs[h], slot, Some(p))];
      if slot == Digest {
        SetDigest(h, p);
      } else {
        SetMgf(h, p);
      }
    }

    /** A state reached by a call from a safe state is safe. */
    lemma StaysValid(w: World, c: Call, err: Error)
      requires Safe(w) && WellFormed(c, |w.ctxs|) && Step(w, c) == Done(State(), err)
      ensures Valid()
    {
      SafeStep(w, c);
    }

    /** alcp_rsa_request on a context that is constructed anew. */
    method Request(h: nat) returns (err: Error)
      requires Valid() && h < |ctxs|
      modifies this
      ensures Valid() && Step(old(State()), Call.Request(h)) == Done(State(), err)
    {
      ghost var w := State();
      lost := lost + Held(ctxs[h]);
      ctxs := ctxs[h := FRESH];
      ctxs := ctxs[h := ctxs[h].(rsa := Some(NEW_RSA))];
      err := NONE;
      StaysValid(w, Call.Request(h), err);
    }

    /** alcp_rsa_add_digest. */
    method AddDigest(h: nat, mode: Mode) returns (err: Error)
      requires Valid() && h < |ctxs|
      modifies this
      ensures Valid() && Step(old(State()), Add(h, Digest, mode)) == Done(State(), err)
    {
      ghost var w := State();
      SafeRelease(w, h, Digest);
      if ctxs[h].rsa.None? { return INVALID_DATA; }
      ReleaseSlot(h, Digest);
      err := NOT_SUPPORTED;
      if Fetched(mode) {
        TakeSlot(h, Digest, mode);
        err := NONE;
      }
      StaysValid(w, Add(h, Digest, mode), err);
    }

    /** alcp_rsa_add_mgf. */
    method AddMgf(h: nat, mode: Mode) returns (err: Error)
      requires Valid() && h < |ctxs|
      modifies this
      ensures Valid() && Step(old(State()), Add(h, Mgf, mode)) == Done(State(), err)
    {
      ghost var w := State();
      SafeRelease(w, h, Mgf);
      if ctxs[h].rsa.None? { return INVALID_DATA; }
      ReleaseSlot(h, Mgf);
      err := NOT_SUPPORTED;
      if Fetched(mode) {
        TakeSlot(h, Mgf, mode);
        err := NONE;
      }
      StaysValid(w, Add(h, Mgf, mode), err);
    }

    /** alcp_rsa_publickey_encrypt_oaep: fills the empty slots with SHA-256 objects first. */
    method EncryptOaep(h: nat, args: ArgCheck) returns (err: Error)
      requires Valid() && h < |ctxs|
      modifies this
      ensures Valid() && Step(old(State()), Run(OaepEncrypt, h, args)) == Done(State(), err)
    {
      ghost var w := State();
      if args == CallRefuses { return NOT_PERMITTED; }
      if ctxs[h].rsa.None? { return INVALID_DATA; }
      OaepEncryptUsesOwnObjects(w, h);
      if ctxs[h].digest.None? {
        TakeSlot(h, Digest, SHA2_256);
      }
      if ctxs[h].mgf.None? {
        TakeSlot(h, Mgf, SHA2_256);
      }
      assert State() == Defaults(w, h);
      err := OaepKernel(h, args);
      StaysValid(w, Run(OaepEncrypt, h, args), err);
    }

    /** The kernel reads both objects through the Rsa object's own pointers. */
    method OaepKernel(h: nat, args: ArgCheck) returns (err: Error)
      requires h < |ctxs| && ctxs[h].rsa.Some?
      requires ctxs[h].rsa.value.digest.Some? ==> ctxs[h].rsa.value.digest.value in live
      requires ctxs[h].rsa.value.mgf.Some? ==> ctxs[h].rsa.value.mgf.value in live
      ensures StepKernel(State(), OaepEncrypt, h, args) == Done(State(), err)
    {
      var r := ctxs[h].rsa.value;
      if args != Passes || r.mgf.None? || r.digest.None? { return NOT_PERMITTED; }
      var modes := (live[r.digest.value], live[r.mgf.value]);
      err := NONE;
    }

    /** Decryption and signatures: no defaults; they need the caller to have added what they read. */
    method OtherKernel(k: Kernel, h: nat, args: ArgCheck) returns (err: Error)
      requires Valid() && h < |ctxs| && k != OaepEncrypt
      requires ctxs[h].rsa.Some? ==> args != Passes || !ReadsDead(k, ctxs[h])
      modifies `ctxs
      ensures Valid() && Step(old(State()), Run(k, h, args)) == Done(State(), err)
    {
      ghost var w := State();
      if args == CallRefuses { return NOT_PERMITTED; }
      if ctxs[h].rsa.None? { return INVALID_DATA; }
      KernelFaultsIff(w, k, h, args);
      if args == KernelRefuses { return NOT_PERMITTED; }
      var r := ctxs[h].rsa.value;
      if k == OaepDecrypt {
        var modes := (live[r.mgf.value], live[r.digest.value]);
        return NONE;
      }
      if r.digest.None? || (k == Pkcs1v15 && r.index == IndexUnknown) { return NOT_PERMITTED; }
      if r.mgf.None? {
        r := r.(mgf := r.digest, mgfHashLen := r.hashLen);
      }
      ctxs := ctxs[h := ctxs[h].(rsa := Some(r))];
      var digest := live[r.digest.value];
      if k == Pss {
        var mgf := live[r.mgf.value];
      }
      err := NONE;
      StaysValid(w, Run(k, h, args), err);
    }

    /** alcp_rsa_finish: the Rsa object goes first, then the two objects. */
    method Finish(h: nat)
      requires Valid() && h < |ctxs|
      modifies this
      ensures Valid() && Step(old(State()), Call.Finish(h)) == Done(State(), NONE)
    {
      ghost var w := State();
      SafeRelease(w, h, Digest);
      SafeRelease(Release(w, h, Digest), h, Mgf);
      ctxs := ctxs[h := ctxs[h].(rsa := None)];
      ReleaseSlot(h, Digest);
      ReleaseSlot(h, Mgf);
      assert ctxs[h] == FRESH && ctxs == w.ctxs[h := FRESH];
      StaysValid(w, Call.Finish(h), NONE);
    }

    /** Duplication into another context, constructed anew. */
    method ContextCopy(src: nat, dst: nat) returns (err: Error)
      requires Valid() && src < |ctxs| && dst < |ctxs| && src != dst
      modifies this
      ensures Valid() && Step(old(State()), Copy(src, dst)) == Done(State(), err)
    {
      ghost var w := State();
      SlotsOf(w, src);
      if ctxs[src].rsa.None? { return INVALID_DATA; }
      var rsa := ctxs[src].rsa.value.(digest := None, mgf := None);
      lost := lost + Held(ctxs[dst]);
      ctxs := ctxs[dst := FRESH.(rsa := Some(rsa))];
      CopyOne(src, dst, Digest);
      CopyOne(src, dst, Mgf);
      err := NONE;
      StaysValid(w, Copy(src, dst), err);
    }

    /** copy_digest for one slot. */
    method CopyOne(src: nat, dst: nat, slot: Slot)
      requires src < |ctxs| && dst < |ctxs| && ctxs[dst].rsa.Some? && Deletable(State(), src, slot)
      requires Get(ctxs[src], slot).Some? ==> Fetched(live[Get(ctxs[src], slot).value])
      modifies this
      ensures State() == CopySlot(old(State()), src, dst, slot)
    {
      var p := Get(ctxs[src], slot);
      if p.Some? {
        TakeSlot(dst, slot, live[p.value]);
      }
    }
  }
}
