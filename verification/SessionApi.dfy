/**
 The functions of c_cipher.cc, c_cipher_aead.cc and c_cipher_segment.cc as they run: contexts
 are objects whose fields are assigned, cipher objects are created and deleted. Every method
 is one call of Session, in the order of checks and assignments of the source; reading or
 deleting an object requires it to be live, which the verifier establishes at each access.
 */
module SessionApi {
  import opened Errors
  import opened Session

  /** A caller-allocated context. */
  class Context {
    var cipher: Option<nat>
    var multibuffer: Option<nat>
    var tag: Tag
    var mode: Mode
    var keyLen: KeyLen

    constructor ()
      ensures View() == FRESH
    {
      cipher, multibuffer, tag, mode, keyLen := None, None, NoTag, NoMode, K128;
    }

    ghost function View(): Ctx
      reads this
    {
      Ctx(cipher, multibuffer, tag, mode, keyLen)
    }

    /** Construction in place. */
    method Construct()
      modifies this
      ensures View() == FRESH
    {
      cipher, multibuffer, tag, mode, keyLen := None, None, NoTag, NoMode, K128;
    }
  }

  class Library {
    const env: Env
    const contexts: seq<Context>
    var live: map<nat, Object>
    var next: nat
    ghost var freed: set<nat>
    ghost var overwritten: set<nat>

    constructor (env: Env, contexts: seq<Context>)
      requires forall i, j :: 0 <= i < j < |contexts| ==> contexts[i] != contexts[j]
      requires forall i :: 0 <= i < |contexts| ==> contexts[i].View() == FRESH
      ensures this.env == env && this.contexts == contexts
      ensures Valid() && State() == Start(|contexts|)
    {
      this.env, this.contexts := env, contexts;
      live, next, freed, overwritten := map[], 0, {}, {};
    }

    ghost function State(): World
      reads this, contexts
    {
      World(seq(|contexts|, i requires 0 <= i < |contexts| reads contexts => contexts[i].View()),
                    live, next, freed, overwritten)
    }

    ghost predicate Valid()
      reads this, contexts
    {
      && (forall i, j :: 0 <= i < j < |contexts| ==> contexts[i] != contexts[j])
      && Safe(env, State())
    }

    method New(cls: Class, bits: KeyLen) returns (p: nat)
      modifies this
      ensures State() == Session.New(old(State()), cls, bits) && p == old(next)
    {
      p := next;
      live, next := live[p := Object(cls, bits, BLANK)], p + 1;
    }

    method Delete(p: nat)
      requires p in live
      modifies this
      ensures State() == Session.Delete(old(State()), p)
    {
      live, freed := live - {p}, freed + {p};
    }

    /** Constructs a context in place; the object it owned, if any, is out of reach from here on. */
    method Construct(h: nat)
      requires h < |contexts| && forall i, j :: 0 <= i < j < |contexts| ==> contexts[i] != contexts[j]
      modifies contexts[h], `overwritten
      ensures State() == Reset(old(State()), h)
    {
      if contexts[h].cipher.Some? {
        overwritten := overwritten + {contexts[h].cipher.value};
      }
      contexts[h].Construct();
      assert State().ctxs == old(State()).ctxs[h := FRESH];
    }

    /** Calls an operation of a live object through an interface of its class. */
    method Invoke(p: nat, op: Op, a: Args) returns (err: Error)
      requires p in live && Implements(live[p].cls, InterfaceOf(op))
      modifies `live
      ensures var o := old(live)[p]; var (inner, e) := env.act(o.cls, o.bits, op, a, o.inner);
              err == e && State() == old(State()).(live := old(live)[p := o.(inner := inner)])
    {
      var o := live[p];
      var (inner, e) := env.act(o.cls, o.bits, op, a, o.inner);
      live := live[p := o.(inner := inner)];
      err := e;
    }

    /** What is known of the contexts after context h alone was assigned to. */
    lemma Assigned(w: World, h: nat)
      requires h < |contexts| == |w.ctxs|
      requires forall i :: 0 <= i < |contexts| && i != h ==> contexts[i].View() == w.ctxs[i]
      ensures State().ctxs == w.ctxs[h := contexts[h].View()]
    {
    }

    method CipherRequest(mode: Mode, keyLen: nat, ptrs: bool, h: nat) returns (err: Error)
      requires Valid() && h < |contexts|
      modifies this, contexts[h]
      ensures Valid() && Step(env, old(State()), Request(CipherTag, h, ptrs, mode, keyLen)) == Done(State(), err)
    {
      SafeStep(env, State(), Request(CipherTag, h, ptrs, mode, keyLen));
      if !ptrs { return INVALID_DATA; }
      Construct(h);
      if keyLen == 0 { return INVALID_SIZE; }
      ghost var w := State();
      var ctx := contexts[h];
      assert ctx.View() == w.ctxs[h] == FRESH;
      ctx.mode, ctx.keyLen := GetMode(CipherTag, mode), GetKeyLen(CipherTag, keyLen);
      Assigned(w, h);
      var cls := CreateCipher(env.zen, ctx.mode, ctx.keyLen);
      if cls.None? { return GENERIC; }
      var cipher := New(cls.value, ctx.keyLen);
      ctx.cipher, ctx.tag := Some(cipher), CipherTag;
      ctx.multibuffer := if Implements(cls.value, IMultibuffer) then Some(cipher) else None;
      Assigned(w, h);
      err := NONE;
    }

    /** Also the request with caller-provided state, which differs only inside the object. */
    method AeadRequest(mode: Mode, keyLen: nat, ptrs: bool, h: nat) returns (err: Error)
      requires Valid() && h < |contexts|
      modifies this, contexts[h]
      ensures Valid() && Step(env, old(State()), Request(AeadTag, h, ptrs, mode, keyLen)) == Done(State(), err)
    {
      SafeStep(env, State(), Request(AeadTag, h, ptrs, mode, keyLen));
      if !ptrs { return INVALID_DATA; }
      Construct(h);
      if keyLen == 0 { return INVALID_SIZE; }
      ghost var w := State();
      var ctx := contexts[h];
      assert ctx.View() == w.ctxs[h] == FRESH;
      var cipherMode := GetMode(AeadTag, mode);
      var cls := CreateAead(env.zen, cipherMode, GetKeyLen(AeadTag, keyLen));
      if cls.None? {
        assert w.ctxs[h := FRESH] == w.ctxs;
        return GENERIC;
      }
      var aead := New(cls.value, GetKeyLen(AeadTag, keyLen));
      ctx.cipher, ctx.tag, ctx.mode := Some(aead), AeadTag, cipherMode;
      Assigned(w, h);
      err := NONE;
    }

    method SegmentRequest(mode: Mode, keyLen: nat, ptrs: bool, h: nat) returns (err: Error)
      requires Valid() && h < |contexts|
      modifies this, contexts[h]
      ensures Valid() && Step(env, old(State()), Request(SegmentTag, h, ptrs, mode, keyLen)) == Done(State(), err)
    {
      SafeStep(env, State(), Request(SegmentTag, h, ptrs, mode, keyLen));
      if !ptrs { return INVALID_DATA; }
      Construct(h);
      if keyLen == 0 { return INVALID_SIZE; }
      ghost var w := State();
      var ctx := contexts[h];
      assert ctx.View() == w.ctxs[h] == FRESH;
      ctx.mode, ctx.keyLen := GetMode(SegmentTag, mode), GetKeyLen(SegmentTag, keyLen);
      Assigned(w, h);
      var cls := CreateSegment(env.zen, ctx.mode, ctx.keyLen);
      if cls.None? { return GENERIC; }
      var cipher := New(cls.value, ctx.keyLen);
      ctx.cipher, ctx.tag := Some(cipher), SegmentTag;
      Assigned(w, h);
      err := NONE;
    }

    /** alcp_cipher_init, alcp_cipher_encrypt and alcp_cipher_decrypt. */
    method CipherCall(op: Op, h: nat, a: Args) returns (err: Error)
      requires Valid() && h < |contexts| && op in {Op.Init, Op.Encrypt, Op.Decrypt}
      modifies `live
      ensures Valid() && Step(env, old(State()), Use(op, h, a)) == Done(State(), err)
    {
      SafeStep(env, State(), Use(op, h, a));
      if !a.ptrs { return INVALID_DATA; }
      if op != Op.Init && a.len == 0 { return INVALID_SIZE; }
      var ctx := contexts[h];
      assert CtxOk(env.zen, live, State().ctxs[h]);
      if ctx.cipher.None? { return INVALID_DATA; }
      if ctx.tag != CipherTag { return INVALID_ARG; }
      if op == Op.Init && !a.keyOrIv { return INVALID_ARG; }
      err := Invoke(ctx.cipher.value, op, a);
    }

    /** alcp_multibuffer_init, alcp_flush and alcp_dequeue: through the cached interface pointer. */
    method MultibufferCall(op: Op, h: nat, a: Args) returns (err: Error)
      requires Valid() && h < |contexts| && op in {Op.MultibufferInit, Op.Flush, Op.Dequeue}
      modifies `live
      ensures Valid() && Step(env, old(State()), Use(op, h, a)) == Done(State(), err)
    {
      SafeStep(env, State(), Use(op, h, a));
      if !a.ptrs { return INVALID_DATA; }
      var ctx := contexts[h];
      assert CtxOk(env.zen, live, State().ctxs[h]);
      if ctx.cipher.None? { return INVALID_DATA; }
      if ctx.tag != CipherTag { return INVALID_ARG; }
      if ctx.multibuffer.None? { return NOT_SUPPORTED; }
      if op == Op.MultibufferInit && !a.keyOrIv { return INVALID_ARG; }
      err := Invoke(ctx.multibuffer.value, op, a);
    }

    /** The calls of the AEAD family. */
    method AeadCall(op: Op, h: nat, a: Args) returns (err: Error)
      requires Valid() && h < |contexts| && FamilyOf(op) == AeadTag
      modifies `live
      ensures Valid() && Step(env, old(State()), Use(op, h, a)) == Done(State(), err)
    {
      SafeStep(env, State(), Use(op, h, a));
      if op == SetAad && a.len == 0 { return NONE; }
      if !a.ptrs { return INVALID_DATA; }
      if (op == GetTag || op == SetTagLength) && a.len == 0 { return INVALID_SIZE; }
      var ctx := contexts[h];
      assert CtxOk(env.zen, live, State().ctxs[h]);
      if ctx.cipher.None? { return INVALID_DATA; }
      if ctx.tag != AeadTag { return INVALID_ARG; }
      if op == AeadInit && !a.keyOrIv { return NONE; }
      if op == SetCcmPlaintextLength && ctx.mode != CCM { return NOT_SUPPORTED; }
      err := Invoke(ctx.cipher.value, op, a);
    }

    /** alcp_cipher_segment_init, _encrypt_xts and _decrypt_xts. */
    method SegmentCall(op: Op, h: nat, a: Args) returns (err: Error)
      requires Valid() && h < |contexts| && FamilyOf(op) == SegmentTag
      modifies `live
      ensures Valid() && Step(env, old(State()), Use(op, h, a)) == Done(State(), err)
    {
      SafeStep(env, State(), Use(op, h, a));
      if !a.ptrs { return INVALID_DATA; }
      if op != SegmentInit && a.len == 0 { return INVALID_SIZE; }
      var ctx := contexts[h];
      assert CtxOk(env.zen, live, State().ctxs[h]);
      if ctx.cipher.None? { return INVALID_DATA; }
      if ctx.tag != SegmentTag { return INVALID_ARG; }
      if op == SegmentInit && !a.keyOrIv { return INVALID_ARG; }
      err := Invoke(ctx.cipher.value, op, a);
    }

    /** The three finish functions. The cached multi-buffer pointer is left as it is. */
    method Finish(family: Tag, h: nat, ptrs: bool)
      requires Valid() && h < |contexts| && family != NoTag
      modifies this, contexts[h]
      ensures Valid() && Step(env, old(State()), Call.Finish(family, h, ptrs)) == Done(State(), NONE)
      ensures contexts[h].multibuffer == old(contexts[h].multibuffer)
    {
      SafeStep(env, State(), Call.Finish(family, h, ptrs));
      if !ptrs { return; }
      var ctx := contexts[h];
      if ctx.tag != family { return; }
      ghost var w := State();
      assert CtxOk(env.zen, live, w.ctxs[h]);
      if ctx.cipher.Some? {
        Delete(ctx.cipher.value);
        ctx.cipher, ctx.tag := None, NoTag;
        Assigned(w, h);
      }
    }

    method ContextCopy(src: nat, dst: nat, ptrs: bool) returns (err: Error)
      requires Valid() && src < |contexts| && dst < |contexts|
      modifies this, contexts[dst]
      ensures Valid() && Step(env, old(State()), Copy(src, dst, ptrs)) == Done(State(), err)
    {
      if !ptrs { return INVALID_DATA; }
      var srcCtx := contexts[src];
      assert CtxOk(env.zen, live, State().ctxs[src]) && CtxOk(env.zen, live, State().ctxs[dst]);
      if srcCtx.cipher.None? { return INVALID_DATA; }
      if srcCtx.tag != CipherTag { return INVALID_ARG; }
      ghost var w := State();
      Construct(dst);
      assert State().ctxs[dst] == FRESH && (src != dst ==> State().ctxs[src] == w.ctxs[src]);
      err := CreateCopy(src, dst);
      StaysValid(w, Copy(src, dst, ptrs), err);
    }

    method CreateCopy(src: nat, dst: nat) returns (err: Error)
      requires src < |contexts| && dst < |contexts| && contexts[dst].View() == FRESH
      requires forall i, j :: 0 <= i < j < |contexts| ==> contexts[i] != contexts[j]
      requires var s := contexts[src];
        if s.cipher.Some? then s.cipher.value in live && s.tag == CipherTag
        else CreateCipher(env.zen, s.mode, s.keyLen).None?
      modifies this, contexts[dst]
      ensures CopyInto(env, old(State()), src, dst) == Done(State(), err)
    {
      ghost var w := State();
      var srcCtx, dstCtx := contexts[src], contexts[dst];
      assert w.ctxs[src] == srcCtx.View() && w.ctxs[dst] == FRESH;
      dstCtx.mode, dstCtx.keyLen, dstCtx.tag := srcCtx.mode, srcCtx.keyLen, srcCtx.tag;
      var cls := CreateCipher(env.zen, dstCtx.mode, dstCtx.keyLen);
      if cls.None? {
        dstCtx.tag := NoTag;
        Assigned(w, dst);
        return BAD_STATE;
      }
      var cipher := New(cls.value, dstCtx.keyLen);
      dstCtx.cipher := Some(cipher);
      dstCtx.multibuffer := if Implements(cls.value, IMultibuffer) then Some(cipher) else None;
      Assigned(w, dst);
      var (inner, e) := CopyCtx(live[srcCtx.cipher.value], live[cipher]);
      live := live[cipher := live[cipher].(inner := inner)];
      Assigned(w, dst);
      err := e;
    }

    /** A state reached by a call from a safe state is safe. */
    lemma StaysValid(w: World, c: Call, err: Error)
      requires Safe(env, w) && WellFormed(c, |w.ctxs|) && Step(env, w, c) == Done(State(), err)
      requires forall i, j :: 0 <= i < j < |contexts| ==> contexts[i] != contexts[j]
      ensures Valid()
    {
      SafeStep(env, w, c);
    }
  }
}
