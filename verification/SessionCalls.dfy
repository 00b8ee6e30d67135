/**
 The session calls spelled out: which object a request creates, which error a call returns and
 which object it reaches, without the lookups that the machine of Session is made of.
 */
module SessionCalls {
  import opened Errors
  import opened Session

  // ------------------------------------------------------------------ requests

  /** A cipher request: CBC, CTR, OFB and CFB with any key length, XTS except with 192 bits, and
      ChaCha20 with 256 bits. Lengths other than 192 and 256 count as 128. */
  lemma CipherRequested(e: Env, w: World, h: nat, mode: Mode, keyLen: nat)
    requires h < |w.ctxs|
    ensures var o := Step(e, w, Request(CipherTag, h, true, mode, keyLen));
      var bits := if keyLen == 192 then K192 else if keyLen == 256 then K256 else K128;
      var works := e.zen && keyLen > 0 &&
        (mode in {CBC, CTR, OFB, CFB} || (mode == XTS && keyLen != 192) || (mode == CHACHA20 && keyLen == 256));
      && o.Done? && o.err == (if keyLen == 0 then INVALID_SIZE else if works then NONE else GENERIC)
      && o.w.ctxs == w.ctxs[h :=
           if works then Ctx(Some(w.next), if mode in {CBC, CFB} then Some(w.next) else None, CipherTag, mode, bits)
           else if keyLen == 0 then Ctx(None, None, NoTag, NoMode, K128)
           else Ctx(None, None, NoTag, if mode in {CBC, CTR, OFB, CFB, XTS, CHACHA20} then mode else NoMode, bits)]
      && o.w.next == (if works then w.next + 1 else w.next)
      && o.w.live == if works then w.live[w.next := Object(
           if mode == XTS then Class.Xts else if mode == CHACHA20 then ChaCha256 else AesGeneric(mode),
           bits, Inner(None, None, []))] else w.live
  {
  }

  /** An AEAD request: GCM, CCM and SIV with any key length, ChaCha20-Poly1305 with 256 bits. */
  lemma AeadRequested(e: Env, w: World, h: nat, mode: Mode, keyLen: nat)
    requires h < |w.ctxs|
    ensures var o := Step(e, w, Request(AeadTag, h, true, mode, keyLen));
      var bits := if keyLen == 192 then K192 else if keyLen == 256 then K256 else K128;
      var works := e.zen && keyLen > 0 && (mode in {GCM, CCM, SIV} || (mode == CHACHA20_POLY1305 && keyLen == 256));
      && o.Done? && o.err == (if keyLen == 0 then INVALID_SIZE else if works then NONE else GENERIC)
      && o.w.ctxs == w.ctxs[h := if works then Ctx(Some(w.next), None, AeadTag, mode, K128)
                                 else Ctx(None, None, NoTag, NoMode, K128)]
      && o.w.next == (if works then w.next + 1 else w.next)
      && o.w.live == if works then w.live[w.next := Object(
           if mode == GCM then Gcm else if mode == CCM then Ccm else if mode == SIV then Siv else ChaChaPoly,
           bits, Inner(None, None, []))] else w.live
  {
  }

  /** A segment request: XTS only; 192 counts as 128 here. */
  lemma SegmentRequested(e: Env, w: World, h: nat, mode: Mode, keyLen: nat)
    requires h < |w.ctxs|
    ensures var o := Step(e, w, Request(SegmentTag, h, true, mode, keyLen));
      var bits, works := if keyLen == 256 then K256 else K128, e.zen && keyLen > 0 && mode == XTS;
      && o.Done? && o.err == (if keyLen == 0 then INVALID_SIZE else if works then NONE else GENERIC)
      && o.w.ctxs == w.ctxs[h :=
           if works then Ctx(Some(w.next), None, SegmentTag, XTS, bits)
           else if keyLen == 0 then Ctx(None, None, NoTag, NoMode, K128)
           else Ctx(None, None, NoTag, if mode == XTS then XTS else NoMode, bits)]
      && o.w.next == (if works then w.next + 1 else w.next)
      && o.w.live == if works then w.live[w.next := Object(XtsBlock, bits, Inner(None, None, []))] else w.live
  {
  }

  // ------------------------------------------------------------------ calls on an object

  /** The object of a context is the one its tag and mode ask for. */
  lemma HeldObject(e: Env, w: World, h: nat)
    requires Safe(e, w) && h < |w.ctxs| && w.ctxs[h].cipher.Some?
    ensures var c := w.ctxs[h];
      && e.zen && c.tag != NoTag && c.cipher.value in w.live
      && var o := w.live[c.cipher.value];
         && (c.tag == CipherTag ==> c.mode in {CBC, CTR, OFB, CFB, XTS, CHACHA20} && c.keyLen == o.bits)
         && (c.tag == AeadTag ==> c.mode in {GCM, CCM, SIV, CHACHA20_POLY1305})
         && (c.tag == SegmentTag ==> c.mode == XTS)
         && o.cls == match c.mode
                     case XTS => if c.tag == SegmentTag then XtsBlock else Class.Xts
                     case CHACHA20 => ChaCha256
                     case GCM => Gcm
                     case CCM => Ccm
                     case SIV => Siv
                     case CHACHA20_POLY1305 => ChaChaPoly
                     case _ => AesGeneric(c.mode)
  {
    assert CtxOk(e.zen, w.live, w.ctxs[h]);
  }

  /** Every call that uses an object: the errors in the order of the checks, and otherwise what the
      context's own object makes of it; nothing else changes, and nothing faults. */
  lemma UseOutcome(e: Env, w: World, op: Op, h: nat, a: Args)
    requires Safe(e, w) && h < |w.ctxs|
    ensures w.ctxs[h].cipher.Some? ==> w.ctxs[h].cipher.value in w.live
    ensures var c := w.ctxs[h];
      var family := if op in {Init, Encrypt, Decrypt, MultibufferInit, Flush, Dequeue} then CipherTag
                    else if op in {SegmentInit, EncryptXts, DecryptXts} then SegmentTag else AeadTag;
      Step(e, w, Use(op, h, a)) ==
        if op == SetAad && a.len == 0 then Done(w, NONE)
        else if !a.ptrs then Done(w, INVALID_DATA)
        else if op in {Encrypt, Decrypt, GetTag, SetTagLength, EncryptXts, DecryptXts} && a.len == 0
          then Done(w, INVALID_SIZE)
        else if c.cipher.None? then Done(w, INVALID_DATA)
        else if c.tag != family then Done(w, INVALID_ARG)
        else if op in {MultibufferInit, Flush, Dequeue} && c.mode !in {CBC, CFB} then Done(w, NOT_SUPPORTED)
        else if op in {Init, MultibufferInit, SegmentInit} && !a.keyOrIv then Done(w, INVALID_ARG)
        else if op == AeadInit && !a.keyOrIv then Done(w, NONE)
        else if op == SetCcmPlaintextLength && c.mode != CCM then Done(w, NOT_SUPPORTED)
        else
          var o := w.live[c.cipher.value];
          var (inner, err) := e.act(o.cls, o.bits, op, a, o.inner);
          Done(w.(live := w.live[c.cipher.value := Object(o.cls, o.bits, inner)]), err)
  {
    assert CtxOk(e.zen, w.live, w.ctxs[h]);
    SafeStep(e, w, Use(op, h, a));
  }

  /** Finishing deletes the context's object if the context is of the family, and nothing else. */
  lemma FinishOutcome(e: Env, w: World, family: Tag, h: nat, ptrs: bool)
    requires Safe(e, w) && h < |w.ctxs| && family != NoTag
    ensures var c := w.ctxs[h];
      Step(e, w, Finish(family, h, ptrs)) ==
        if !ptrs || c.tag != family || c.cipher.None? then Done(w, NONE)
        else Done(World(w.ctxs[h := Ctx(None, c.multibuffer, NoTag, c.mode, c.keyLen)], w.live - {c.cipher.value}, w.next,
                        w.freed + {c.cipher.value}, w.overwritten), NONE)
  {
    SafeStep(e, w, Finish(family, h, ptrs));
  }

  /** A copy is refused without a handle, without an object to copy, and outside the cipher family. */
  lemma CopyRefused(e: Env, w: World, src: nat, dst: nat, ptrs: bool)
    requires Safe(e, w) && src < |w.ctxs| && dst < |w.ctxs|
    requires !ptrs || w.ctxs[src].tag != CipherTag
    ensures Step(e, w, Copy(src, dst, ptrs)) ==
      Done(w, if !ptrs || w.ctxs[src].tag == NoTag then INVALID_DATA else INVALID_ARG)
  {
    assert CtxOk(e.zen, w.live, w.ctxs[src]);
  }
}
