/**
 The RSA calls spelled out: which digest objects they create, what the RSA object records of them,
 and which pointers the kernels read, without the steps that RsaContext is made of.
 */
module RsaCalls {
  import opened DigestInfo
  import opened Errors
  import opened RsaContext

  /** The digest sizes, in bytes. */
  lemma DigestSizes(m: Mode)
    requires Fetched(m)
    ensures m in {MD5, SHA1, MD5_SHA1, SHA2_224, SHA2_256, SHA2_384, SHA2_512, SHA2_512_224, SHA2_512_256}
    ensures m == MD5 ==> HashLen(m) == 16
    ensures m == SHA1 ==> HashLen(m) == 20
    ensures m == MD5_SHA1 ==> HashLen(m) == 36
    ensures m == SHA2_224 || m == SHA2_512_224 ==> HashLen(m) == 28
    ensures m == SHA2_256 || m == SHA2_512_256 ==> HashLen(m) == 32
    ensures m == SHA2_384 ==> HashLen(m) == 48
    ensures m == SHA2_512 ==> HashLen(m) == 64
  {
  }

  /**
   Adding a digest: an object of exactly this mode takes the place of the old one, which is deleted
   in any case, and the RSA object records it with its size. The index follows the mode.
   */
  lemma DigestAdded(w: World, h: nat, m: Mode)
    requires Safe(w) && h < |w.ctxs| && w.ctxs[h].rsa.Some?
    ensures var o, c := Step(w, Add(h, Digest, m)), w.ctxs[h];
      var rest := if c.digest.Some? then w.live - {c.digest.value} else w.live;
      var supported := m in {MD5, SHA1, MD5_SHA1, SHA2_224, SHA2_256, SHA2_384, SHA2_512, SHA2_512_224, SHA2_512_256};
      && o.Done? && o.err == (if supported then NONE else NOT_SUPPORTED)
      && o.w.live == (if supported then rest[w.next := m] else rest)
      && o.w.ctxs == w.ctxs[h := o.w.ctxs[h]] && o.w.ctxs[h].mgf == c.mgf && o.w.ctxs[h].rsa.Some?
      && o.w.ctxs[h].digest == (if supported then Some(w.next) else None)
      && var r, r0 := o.w.ctxs[h].rsa.value, c.rsa.value;
         && r.mgf == r0.mgf && r.mgfHashLen == r0.mgfHashLen
         && (!supported ==> r == r0)
         && (supported ==> r.digest == Some(w.next) && r.hashLen == match m
               case MD5 => 16
               case SHA1 => 20
               case MD5_SHA1 => 36
               case SHA2_224 | SHA2_512_224 => 28
               case SHA2_256 | SHA2_512_256 => 32
               case SHA2_384 => 48
               case _ => 64)
         && (supported ==> r.index == match m
               case MD5 => IndexMd5
               case SHA1 => IndexSha1
               case SHA2_224 => IndexSha224
               case SHA2_256 => IndexSha256
               case SHA2_384 => IndexSha384
               case SHA2_512 => IndexSha512
               case SHA2_512_224 => IndexSha512_224
               case SHA2_512_256 => IndexSha512_256
               case _ => r0.index)
  {
    SlotsOf(w, h);
  }

  /** The same for the mask-generation object. */
  lemma MgfAdded(w: World, h: nat, m: Mode)
    requires Safe(w) && h < |w.ctxs| && w.ctxs[h].rsa.Some?
    ensures var o, c := Step(w, Add(h, Mgf, m)), w.ctxs[h];
      var rest := if c.mgf.Some? then w.live - {c.mgf.value} else w.live;
      var supported := m in {MD5, SHA1, MD5_SHA1, SHA2_224, SHA2_256, SHA2_384, SHA2_512, SHA2_512_224, SHA2_512_256};
      && o.Done? && o.err == (if supported then NONE else NOT_SUPPORTED)
      && o.w.live == (if supported then rest[w.next := m] else rest)
      && o.w.ctxs == w.ctxs[h := o.w.ctxs[h]] && o.w.ctxs[h].digest == c.digest && o.w.ctxs[h].rsa.Some?
      && o.w.ctxs[h].mgf == (if supported then Some(w.next) else None)
      && var r, r0 := o.w.ctxs[h].rsa.value, c.rsa.value;
         && r.digest == r0.digest && r.hashLen == r0.hashLen && r.index == r0.index
         && (!supported ==> r == r0)
         && (supported ==> r.mgf == Some(w.next) && r.mgfHashLen == match m
               case MD5 => 16
               case SHA1 => 20
               case MD5_SHA1 => 36
               case SHA2_224 | SHA2_512_224 => 28
               case SHA2_256 | SHA2_512_256 => 32
               case SHA2_384 => 48
               case _ => 64)
  {
    SlotsOf(w, h);
  }

  /**
   OAEP encryption: a slot that was empty holds a new SHA-256 object afterwards, recorded with 32
   bytes, a filled one the object it held; nothing that was alive has changed.
   */
  lemma OaepObjects(w: World, h: nat)
    requires Safe(w) && h < |w.ctxs| && w.ctxs[h].rsa.Some?
    ensures var o, c := Step(w, Run(OaepEncrypt, h, Passes)), w.ctxs[h];
      && o.Done? && o.err == NONE && o.w.ctxs == w.ctxs[h := o.w.ctxs[h]] && o.w.ctxs[h].rsa.Some?
      && (forall p :: p in w.live ==> p in o.w.live && o.w.live[p] == w.live[p])
      && var c1, r0, r := o.w.ctxs[h], c.rsa.value, o.w.ctxs[h].rsa.value;
         && c1.digest.Some? && c1.mgf.Some? && r.digest == c1.digest && r.mgf == c1.mgf
         && c1.digest.value in o.w.live && c1.mgf.value in o.w.live && c1.digest != c1.mgf
         && (c.digest.Some? ==> c1.digest == c.digest && r.hashLen == r0.hashLen && r.index == r0.index)
         && (c.digest.None? ==> c1.digest.value !in w.live && o.w.live[c1.digest.value] == SHA2_256
                                && r.hashLen == 32 && r.index == IndexSha256)
         && (c.mgf.Some? ==> c1.mgf == c.mgf && r.mgfHashLen == r0.mgfHashLen)
         && (c.mgf.None? ==> c1.mgf.value !in w.live && o.w.live[c1.mgf.value] == SHA2_256 && r.mgfHashLen == 32)
  {
    SlotsOf(w, h);
    DefaultsSafe(w, h);
  }

  /** Duplication: for each object of the source a new one of the same mode, recorded with its size;
      source and everything alive stay as they are. */
  lemma CopiedObjects(w: World, src: nat, dst: nat)
    requires Safe(w) && src < |w.ctxs| && dst < |w.ctxs| && src != dst && w.ctxs[src].rsa.Some?
    ensures var o, s := Step(w, Copy(src, dst)), w.ctxs[src];
      && o.Done? && o.err == NONE && o.w.ctxs == w.ctxs[dst := o.w.ctxs[dst]] && o.w.ctxs[dst].rsa.Some?
      && (forall p :: p in w.live ==> p in o.w.live && o.w.live[p] == w.live[p])
      && var d, r := o.w.ctxs[dst], o.w.ctxs[dst].rsa.value;
         && (s.digest.Some? <==> d.digest.Some?) && (s.mgf.Some? <==> d.mgf.Some?)
         && r.digest == d.digest && r.mgf == d.mgf && (d.digest.Some? ==> d.digest != d.mgf)
         && (s.digest.Some? ==> CopyOf(w, o.w, s.digest.value, d.digest.value, r.hashLen))
         && (s.mgf.Some? ==> CopyOf(w, o.w, s.mgf.value, d.mgf.value, r.mgfHashLen))
         && (s.digest.None? ==> r.hashLen == s.rsa.value.hashLen && r.index == s.rsa.value.index)
         && (s.mgf.None? ==> r.mgfHashLen == s.rsa.value.mgfHashLen)
  {
    SlotsOf(w, src);
  }

  /** q is a new object with the mode of p, and len is its size. */
  ghost predicate CopyOf(w: World, w1: World, p: nat, q: nat, len: nat) {
    p in w.live && q !in w.live && q in w1.live && w1.live[q] == w.live[p] && Fetched(w.live[p]) && len == HashLen(w.live[p])
  }

  /**
   When a kernel gets through and when it does not, in terms of what it reads: decryption reads
   both pointers and a PSS signature too, a PKCS #1 signature the digest; a missing mask-generation
   object is the digest's for signatures and a null pointer for decryption.
   */
  lemma KernelReads(w: World, k: Kernel, h: nat)
    requires Safe(w) && h < |w.ctxs| && w.ctxs[h].rsa.Some? && k != OaepEncrypt
    ensures var r, o := w.ctxs[h].rsa.value, Step(w, Run(k, h, Passes));
      var digestAlive, mgfAlive := r.digest.Some? && r.digest.value in w.live, r.mgf.Some? && r.mgf.value in w.live;
      && (k == OaepDecrypt ==> o == if digestAlive && mgfAlive then Done(w, NONE) else Fault)
      && (k == Pss && r.digest.None? ==> o == Done(w, NOT_PERMITTED))
      && (k == Pss && r.digest.Some? ==> (o.Done? <==> digestAlive && (mgfAlive || r.mgf.None?)))
      && (k == Pkcs1v15 && (r.digest.None? || r.index == IndexUnknown) ==> o == Done(w, NOT_PERMITTED))
      && (k == Pkcs1v15 && r.digest.Some? && r.index != IndexUnknown ==> (o.Done? <==> digestAlive))
      && (k != OaepDecrypt && r.digest.Some? && o.Done? && o.err == NONE ==>
            && o.w.live == w.live && o.w.ctxs[h].rsa.Some?
            && var r1 := o.w.ctxs[h].rsa.value;
               r1 == if r.mgf.Some? then r else Rsa(r.digest, r.digest, r.hashLen, r.hashLen, r.index))
  {
  }

  /** A request leaves a context with an empty RSA object, finishing one with none; finishing deletes
      exactly the objects the context owned. */
  lemma RequestAndFinish(w: World, h: nat)
    requires Safe(w) && h < |w.ctxs|
    ensures var o := Step(w, Call.Request(h));
      o.Done? && o.err == NONE && o.w.live == w.live
      && o.w.ctxs == w.ctxs[h := Ctx(Some(Rsa(None, None, 0, 0, IndexUnknown)), None, None)]
    ensures var o, c := Step(w, Call.Finish(h)), w.ctxs[h];
      o.Done? && o.err == NONE && o.w.ctxs == w.ctxs[h := Ctx(None, None, None)]
      && o.w.live == w.live - (if c.digest.Some? then {c.digest.value} else {}) - (if c.mgf.Some? then {c.mgf.value} else {})
  {
    SlotsOf(w, h);
  }

  /** Calls that are refused change nothing: arguments the function refuses come first, then a
      context without an RSA object, then arguments the kernel refuses. */
  lemma Refused(w: World, h: nat, k: Kernel, args: ArgCheck, slot: Slot, m: Mode, dst: nat)
    requires h < |w.ctxs| && dst < |w.ctxs| && dst != h
    ensures args == CallRefuses ==> Step(w, Run(k, h, args)) == Done(w, NOT_PERMITTED)
    ensures args != CallRefuses && w.ctxs[h].rsa.None? ==> Step(w, Run(k, h, args)) == Done(w, INVALID_DATA)
    ensures args == KernelRefuses && w.ctxs[h].rsa.Some? && k != OaepEncrypt ==>
      Step(w, Run(k, h, args)) == Done(w, NOT_PERMITTED)
    ensures w.ctxs[h].rsa.None? ==> Step(w, Add(h, slot, m)) == Done(w, INVALID_DATA) == Step(w, Copy(h, dst))
  {
  }
}
