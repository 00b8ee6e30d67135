# Verified model of AOCL-Cryptography sessions, modes and file tool

This project models parts of AOCL-Cryptography in Dafny and proves properties of the model. Block
ciphers, compression functions, permutations and the ChaCha20 block function are parameters: every
statement is about all of them. The code around them is modelled as it is written, with its
branches, its order of checks and its constants.

`dafny verify dfyconfig.toml` checks everything.

## What is modelled

**Reference modes.** `BlockModes`, `KeystreamModes` and `Xts` define CBC, CFB, OFB, CTR (NIST SP
800-38A, sections 6.2 to 6.5) and XTS with ciphertext stealing (IEEE Std 1619) over any permutation
of 16-byte blocks, and each mode is pinned down block by block by laws in terms of the cipher alone
(`BlockModes.CbcBlocks` and its like). `AesKernels`, `KeystreamModes` and `Xts` contain the kernels
with their unrolled groups, lanes, write-back and tail handling, proved against these definitions.
The doubling of the XTS tweak on two 64-bit words is proved to be doubling in GF(2^128).

**Distant tweaks.** `Gf128` is multiplication in GF(2^128): products without carries and their
residues, and the code that computes them from four word products with a reduction in three steps.
`RegisterBits` shows that multiplication is a fixed pattern of shifts on 128-bit vectors, with which
constants can be computed. `AlphaPowers` proves every row of the table of powers of alpha and both
loops of the computation that moves a tweak on by any number of blocks. `AlphaOrder` says when a
moved tweak is the same again: for any number of blocks that is not a multiple of 2^32 - 1, the zero
tweak only.

**Multi-buffer encryption.** `MinLen` is the Iterative MinLen schedule as a function of the buffer
lengths; `Multibuffer` is the cipher object that carries it out on arrays, with batches, in-place
compaction of the active list and tails. `Dequeue` is proved to write exactly what the schedule
says, and `MinLen` says when that is what encrypting each buffer alone would give.

**CBC over several calls.** `CbcStream` is the CBC object of a build with AES_MULTI_UPDATE: a
partial buffer, a chaining value carried along, and the result of any calls on any cuts of a
message.

**Segments.** `XtsSegment` is the XTS segment object: a tweak, the signed block number it believes it
stands at, and how many doublings the tweak really is from the first one. `XtsPieces` says when
pieces of a unit encrypted under one tweak make up the unit.

**Sessions.** `Session` is a machine of contexts and a heap of cipher objects under the calls of
the cipher, AEAD and segment families. A dereference or a deletion of a dead object and a cast to
an interface the object does not have are faults. `SessionApi` has the functions themselves, on
mutable contexts; each is proved to be one step of the machine. `SessionCalls` says in full what
each call does: errors, objects created and objects reached.

**RSA contexts.** `RsaContext` and `RsaApi` do the same for the digest and mask-generation objects
of the RSA API, and `RsaCalls` says which objects they create and read. `DigestInfo` is the table of
prefixes with a decoder, `BigNum` the conversion of byte strings to 64-bit limbs.

**File tool.** `Hex`, `Padding`, `ArgParse` and `FileCrypt` are the utilities and classes of
filecrypt.cc. `FileTool` is its main function: the questions to the parser in their order, the two
files by their paths, and what is left on the disk.

**Streams.** `ChaCha20` has the cipher object and its kernels, `Digest` the buffered update of
SHA-2 and SHA-3, their padding, the sponge and the two demonstration programs.

## Where the code does not do what its documentation says

Each of these is stated as a theorem that says exactly when the promise holds.

- Multi-buffer encryption is documented for any mix of lengths. A build without AES_MULTI_UPDATE,
  which is the default, loses the chaining value between two runs of one buffer; all outputs are
  right for all contents exactly when no buffer is cut, that is when some buffer is shorter than
  a block or all have one length of whole blocks (`MinLen.NoWriteBackMatchesIffUniform`).
- The OFB kernel copies a partial last block without encrypting it. It is OFB for all IVs and
  messages of a length exactly when that length is whole blocks
  (`KeystreamModes.OfbAgreesIffWholeBlocks`). It still undoes itself for every length.
- The AVX2 and Zen 4 ChaCha20 kernels write the advanced counter into the stored IV. Decrypting
  right after encrypting on one object gives the input exactly when the counter did not move:
  always with the reference kernel, below 512 bytes with AVX2 and below 1024 bytes on Zen 4 for
  messages of up to 2^38 bytes (`ChaCha20.SameObjectInverseIff`, `ChaCha20.MovesFrom`).
- Dequeuing more than 127 buffers without the lane kernels reads behind the IV store. With a key set
  the call stays inside it exactly when the lane kernels are used or there are at most 127 buffers
  (`Multibuffer.AesGenericCipher.Dequeue`, with 128 in `Multibuffer.AesGenericCipher.OneTooMany`).
- Without AES_MULTI_UPDATE the XTS segment object advances its block number but not its tweak, so
  consecutive segments are all encrypted under the first tweak (`XtsSegment.EncryptPieces`). For
  given lengths and a given tweak that is the unit, for all ciphers and contents, exactly when there
  is one piece or the tweak is zero (`XtsPieces.OneTweakIff`); for all tweaks and pieces exactly in a
  build with AES_MULTI_UPDATE (`XtsPieces.PiecesPromiseIff`); and a single segment is right exactly
  when its drift is zero or brings the first tweak back, which a drift that is not a multiple of
  2^32 - 1 blocks does for the zero tweak only (`XtsSegment.XtsBlockCipher.SegmentExactIff`).
- Segments may start at any 64-bit block number, but the decision to go forward or backward is taken
  on signed numbers. With AES_MULTI_UPDATE, from a number of 2^63 or more to a smaller one the tweak
  is 2^64 blocks too far on (`XtsSegment.XtsBlockCipher.DriftWithUpdate`).
- Copying a ChaCha20 context succeeds without copying key or IV (`Session.CopyResult`).
- RSA signatures let the digest stand in for a missing mask-generation object; after the digest is
  replaced the stand-in is gone. OAEP encryption is never affected. `RsaContext.KernelFaultsIff`
  gives the condition for each kernel, `RsaContext.CarefulRunsDone` a rule that avoids it.
- The DigestInfo index follows the mode of the last digest added, MD5 with SHA-1 excepted
  (`RsaContext.IndexAfterAdd`).
- The file tool opens, and thereby empties, its output before it looks at its input. Usable arguments
  and a missing input, or an operation that fails, leave an empty output whatever it held
  (`FileTool.OnlyOutputChanges`). A file comes back exactly when neither run reads and writes one
  path, or it was empty; the decryption of an empty file gives it back and is reported as a failure
  (`FileTool.ToolRoundTrip`). XTS reads its tweak key from behind the key it is given; files come
  back for all key schedules, IVs and contents exactly when the same bytes are there both times
  (`FileCrypt.FileRoundTripIff`, with a file that is lost in `FileCrypt.TweakKeyMatters`).
- The squeeze demonstration counts with a 16-bit index: its loop ends exactly for fewer than 65536
  bytes, and otherwise takes more turns than any number (`Digest.SqueezeLoop`).
- Finalising a SHAKE after output was squeezed is documented as not to be done. It absorbs the last
  block once more and goes on inside the new state (`Digest.Sha3.Finalize`).

## Model

| member | source | states |
|---|---|---|
| `BlockModes.DecryptInvertsEncrypt` | lib/cipher/aes_generic.cc:702-836 | CBC on whole blocks and CFB on any length: decryption gives back the plaintext, for every permutation and IV |
| `BlockModes.EncryptSplit` | lib/arch/avx2/aesni_cbc.cc:40-90 | a message may be cut after any whole number of blocks if the chaining value is carried over |
| `BlockModes.DecryptSplit` | lib/arch/avx2/aesni_cbc.cc:92-227 | the same for decryption, carrying over the last ciphertext block |
| `BlockModes.ChainIsLastBlock` | lib/arch/avx2/aesni_cbc.cc:40-90 | the chaining value after whole blocks is the last ciphertext block |
| `BlockModes.ChainReachesEveryBlock` | lib/cipher/aes_generic.cc:303-435 | every block is the chaining value of some message of a given length |
| `BlockModes.ChainMatters` | lib/cipher/aes_generic.cc:303-435 | a wrong chaining value shows in the first byte of some ciphertext |
| `BlockModes.CbcBlocks` | lib/arch/avx2/aesni_cbc.cc:40-90 | CBC block by block: each ciphertext block is the encryption of the plaintext block added to the ciphertext block before it, or the IV |
| `BlockModes.CbcTail` | lib/arch/avx2/aesni_cbc.cc:72-82 | a partial last block is completed with zero bytes, encrypted and cut short; the chaining value is the whole of it |
| `BlockModes.CbcPlainBlocks` | lib/arch/avx2/aesni_cbc.cc:92-227 | each plaintext block is the decrypted ciphertext block added to the ciphertext block before it; only whole blocks come out |
| `BlockModes.CfbBlocks` | lib/arch/avx2/aesni_cfb.cc:147-247 | CFB block by block: the plaintext block added to the encryption of the ciphertext block before it, or of the IV |
| `BlockModes.CfbTail` | lib/arch/avx2/aesni_cfb.cc:147-247 | the same for a partial last block, cut short |
| `BlockModes.CfbPlainBlocks` | lib/arch/avx2/aesni_cfb.cc:38-145 | CFB decryption block by block, through the cipher in its forward direction |
| `BlockModes.CfbPlainTail` | lib/arch/avx2/aesni_cfb.cc:38-145 | the same for a partial last block |
| `BlockModes.LastBlockIs` | lib/arch/avx2/aesni_cbc.cc:92-227 | the chaining value of decryption is the last whole ciphertext block, or the IV |
| `AesKernels.EncryptCbcKernel` | lib/arch/avx2/aesni_cbc.cc:40-90 | the kernel is CBC for every length, and the IV buffer ends with the chaining value or unchanged, by build |
| `AesKernels.EncryptCfbKernel` | lib/arch/avx2/aesni_cfb.cc:147-247 | groups of 4, 2 and 1 and the tail together are CFB |
| `AesKernels.DecryptCbcKernel` | lib/arch/avx2/aesni_cbc.cc:92-227 | groups of 8, 4, 2 and 1 together are CBC decryption; a partial block is not written |
| `AesKernels.DecryptCfbKernel` | lib/arch/avx2/aesni_cfb.cc:38-145 | groups and tail together are CFB decryption |
| `AesKernels.DecryptGroup` | lib/arch/avx2/aesni_cbc.cc:133-167 | blocks run through the cipher side by side and combined afterwards give what one after the other gives |
| `AesKernels.EncryptLanes` | lib/arch/zen4/vaes_cbc_encrypt.cc:144-240 | lanes advanced together, one block each per turn, give for each lane what encrypting its whole blocks alone gives; with any other number of lanes nothing is written, without an error |
| `MinLen.RunLength` | lib/cipher/aes_generic.cc:305-322 | the common run is the greatest number of whole blocks that every active buffer still has |
| `MinLen.LevelAt` | lib/cipher/aes_generic.cc:300-435 | each common run ends at the last whole block that every buffer active before it reaches; another follows exactly when three buffers were active and each active one has a block left |
| `MinLen.LevelsStart` | lib/cipher/aes_generic.cc:300-322 | there is a common run exactly when every buffer has at least a block |
| `MinLen.ScheduleEnds` | lib/cipher/aes_generic.cc:300-556 | the runs of a buffer end at the levels up to its length, the last one at its length |
| `MinLen.EachFromIv` | lib/cipher/aes_generic.cc:303-435 | without AES_MULTI_UPDATE every run starts from the caller's IV, which is left as it was |
| `MinLen.KeepActive` | lib/cipher/aes_generic.cc:426-434 | dropping completed buffers leaves exactly those active at the next level |
| `MinLen.ScheduleCovers` | lib/cipher/aes_generic.cc:174-221 | the runs of a buffer cover it, all but the last being whole blocks |
| `MinLen.RunsCompose` | lib/cipher/aes_generic.cc:303-435 | with write-back, any cutting into runs gives the single-buffer result and chaining value |
| `MinLen.UncutIffUniform` | lib/cipher/aes_generic.cc:303-435 | no buffer is cut exactly when some buffer is shorter than a block or all have one length of whole blocks |
| `MinLen.WriteBackMatches` | include/alcp/cipher.h:286-355 | with AES_MULTI_UPDATE every buffer is encrypted as it would be alone, for all lengths, contents, ciphers and IVs |
| `MinLen.NoWriteBackMatchesIffUniform` | include/alcp/cipher.h:286-355 | without AES_MULTI_UPDATE that holds for all contents exactly when the lengths are uniform |
| `MinLen.CutDiffers` | lib/cipher/aes_generic.cc:303-435 | a buffer cut into two or more runs has contents that come out wrong without write-back |
| `Multibuffer.AesGenericCipher.MultibufferInit` | lib/cipher/aes_generic.cc:46-92 | key, IV store, number of buffers and single-buffer IV after the call on every path: before a null IV in the middle the IVs are replaced, from it on kept; the single-buffer IV changes for IVs of a whole block only |
| `Multibuffer.AesGenericCipher.InitMeans` | lib/cipher/aes_generic.cc:46-92 | the error in the order of the checks, which IVs are replaced, and what a replaced one holds |
| `Multibuffer.AesGenericCipher.SetIv` | lib/include/alcp/cipher/cipher_common.hh:386-400 | with the limits of the generic ciphers only 16 bytes are stored; another length is an error and changes nothing |
| `Multibuffer.AesGenericCipher.Flush` | lib/cipher/aes_generic.cc:144-172 | stages buffers and lengths; lengths beyond the batch keep their values |
| `Multibuffer.AesGenericCipher.Dequeue` | lib/cipher/aes_generic.cc:223-560 | on every path: each output buffer and each IV is what the runs of the schedule leave, the rest of memory is untouched, the error is the right one, and the IV store is left exactly for more than 127 buffers without the lane kernels |
| `Multibuffer.AesGenericCipher.ProducedIs` | lib/cipher/aes_generic.cc:223-560 | what is left for a buffer: its runs, by the schedule of the caller's or the staged lengths, or in one piece without the lane kernels, in front of what the output held |
| `Multibuffer.AesGenericCipher.OneTooMany` | lib/cipher/aes_generic.cc:246-275 | 128 buffers without the lane kernels run past the IV store |
| `Multibuffer.AesGenericCipher.CopyIvs` | lib/cipher/aes_generic.cc:77-84 | IVs are replaced up to the first null one, and all of them exactly when none is null |
| `Multibuffer.AesGenericCipher.SingleBufferResult` | include/alcp/cipher.h:320-355 | where no lanes are used, chaining values are written back, or lengths are uniform, each output is the single-buffer encryption |
| `Multibuffer.AesGenericCipher.Scheduled` | lib/cipher/aes_generic.cc:277-560 | the algorithm carries out exactly the runs of the schedule |
| `Multibuffer.AesGenericCipher.RunLevels` | lib/cipher/aes_generic.cc:300-435 | the loop over more than two active buffers terminates and leaves every lane where its schedule says |
| `Multibuffer.AesGenericCipher.MinRemaining` | lib/cipher/aes_generic.cc:305-322 | the loop finds the least remaining length, rounded down to blocks |
| `Multibuffer.AesGenericCipher.RunActive` | lib/cipher/aes_generic.cc:324-424 | batches of decreasing powers of two together give every active lane its run |
| `Multibuffer.AesGenericCipher.Compact` | lib/cipher/aes_generic.cc:426-434 | in-place compaction keeps the unfinished buffers in order |
| `Multibuffer.AesGenericCipher.LastRun` | lib/cipher/aes_generic.cc:437-522 | one or two remaining buffers take a last common run |
| `Multibuffer.AesGenericCipher.RunTails` | lib/cipher/aes_generic.cc:525-556 | the tails complete every buffer |
| `Multibuffer.AesGenericCipher.OneByOne` | lib/cipher/aes_generic.cc:246-275 | without the lane kernels each buffer is encrypted in one call, until there is no IV left for it |
| `Multibuffer.BatchSizes` | lib/cipher/aes_generic.cc:328-340 | every batch is one of the counts the kernels know |
| `CbcStream.CbcCipher.Update` | lib/cipher/aes_generic.cc:594-642 | over any calls, what was written is CBC of all whole blocks passed in, the rest waits, and the chaining value is the right one, in both directions |
| `CbcStream.CbcCipher.CompletePartial` | lib/cipher/aes_generic.cc:596-619 | a waiting block is completed from the front of the input and processed when full |
| `CbcStream.CutMore` | lib/cipher/aes_generic.cc:621-642 | more data joins the rest of what came before, wherever the calls cut |
| `CbcStream.StreamsInvert` | lib/cipher/aes_generic.cc:728-790 | what encrypting calls wrote, decrypted in any other calls, is all whole blocks of the plaintext |
| `KeystreamModes.StreamInvolution` | lib/include/alcp/cipher/aes_ctr.hh:44-182 | OFB and CTR undo themselves for every length |
| `KeystreamModes.StreamSplit` | lib/include/alcp/cipher/aes_ctr.hh:44-182 | a message may be cut after whole blocks if the state is carried over |
| `KeystreamModes.OfbBlocks` | lib/arch/avx2/aesni_ofb.cc:43-226 | OFB block by block: what is added to a block is the encryption of what was added to the block before it, or of the IV |
| `KeystreamModes.OfbTail` | lib/arch/avx2/aesni_ofb.cc:43-226 | the same for the partial last block of the reference mode |
| `KeystreamModes.CtrBlocks` | lib/include/alcp/cipher/aes_ctr.hh:44-182 | CTR block by block: the encryption of the IV with the block number added to its last eight bytes, big-endian and wrapping, is added |
| `KeystreamModes.CtrTailBytes` | lib/include/alcp/cipher/aes_ctr.hh:44-182 | the same for a partial last block |
| `KeystreamModes.CryptOfb` | lib/arch/avx2/aesni_ofb.cc:43-226 | the kernel encrypts the whole blocks and copies the partial one; the IV buffer ends with the last state or unchanged, by build |
| `KeystreamModes.OfbCallsJoin` | lib/arch/avx2/aesni_ofb.cc:221-223 | with the state carried over, calls on whole blocks and any last call are one kernel call on all of it |
| `KeystreamModes.OfbKernelInvolution` | lib/arch/avx2/aesni_ofb.cc:43-226 | the kernel undoes itself for every length |
| `KeystreamModes.OfbAgreesAt` | lib/arch/avx2/aesni_ofb.cc:103-126 | for one IV and message the kernel is OFB exactly when the partial keystream is zero |
| `KeystreamModes.OfbAgreesIffWholeBlocks` | lib/arch/avx2/aesni_ofb.cc:43-226 | the kernel is OFB for all IVs and messages of a length exactly when it is whole blocks |
| `KeystreamModes.CtrBlk` | lib/include/alcp/cipher/aes_ctr.hh:44-182 | groups of every width and the tail together are CTR; the stored counter moves by the blocks started |
| `KeystreamModes.CtrGroups` | lib/include/alcp/cipher/aes_ctr.hh:69-109 | counters derived from one register agree with counting one by one |
| `KeystreamModes.CounterBlocksDistinct` | lib/arch/avx2/aesni_ctr.cc:43-73 | no counter block repeats within 2^64 blocks |
| `KeystreamModes.CtrState` | lib/arch/avx2/aesni_ctr.cc:43-73 | the state after n blocks is the 64-bit big-endian counter plus n, wrapping |
| `Xts.AlphaDoubles` | lib/arch/include/cipher/avx2/aes_xts_avx2.hh:38-52 | the word arithmetic is doubling in GF(2^128) on the block read little-endian |
| `Xts.WordsDouble` | lib/arch/include/cipher/avx2/aes_xts_avx2.hh:38-52 | shift, carry and feedback on two words make up the doubled value |
| `Xts.AlphaBytes` | lib/arch/include/cipher/avx2/aes_xts_avx2.hh:38-52 | on bytes, as IEEE Std 1619 defines it: each is doubled and takes over what the one below loses, and what the last one loses comes back as 0x87 |
| `Xts.XtsBlocks` | lib/arch/avx2/aesni_xts.cc:45-209 | XTS block by block: both directions are the cipher between two additions of the tweak of the position |
| `Xts.XtsTail` | lib/arch/avx2/aesni_xts.cc:182-203 | the last two blocks of a unit with a partial block: stealing, byte for byte |
| `Xts.XtsPlainTail` | lib/arch/avx2/aesni_xts.cc:211-399 | the same for decryption, with the two tweaks in the other order |
| `Xts.XtsRoundTrip` | lib/arch/avx2/aesni_xts.cc:211-399 | decryption inverts encryption for every length from one block up, stealing included |
| `Xts.XtsSplit` | include/alcp/cipher_segment.h:85-113 | a data unit may be cut after whole blocks, the second part starting at its own tweak |
| `Xts.IsSteal` | lib/arch/avx2/aesni_xts.cc:182-203 | overwriting the last stored block is ciphertext stealing |
| `Xts.EncryptXtsKernel` | lib/arch/avx2/aesni_xts.cc:45-209 | groups of 4, 2 and 1 and the stealing together are XTS; the stored tweak moves by the whole blocks, or not at all, by build |
| `Xts.DecryptXtsKernel` | lib/arch/avx2/aesni_xts.cc:220-399 | the same for decryption, with the last two tweaks swapped before a partial block |
| `XtsSegment.XtsBlockCipher.TweakBlockSet` | lib/cipher/aes_xts.cc:95-113 | for every 64-bit block number, forward and backward moves, told apart by signed comparison and computed by powers of alpha, keep tweak and block number consistent; a backward move clears the drift |
| `XtsSegment.XtsBlockCipher.FirstSegment` | lib/cipher/aes_xts.cc:95-113 | after an IV is set, the first segment goes under the encrypted IV doubled once for each block before it |
| `XtsSegment.XtsBlockCipher.NextSegment` | lib/cipher/aes_xts.cc:95-113 | the tweak of any later segment: the held one, the held one doubled, or the encrypted IV doubled anew |
| `XtsSegment.XtsBlockCipher.DriftWithUpdate` | lib/cipher/aes_xts.cc:101-112 | with AES_MULTI_UPDATE the drift is zero except from a number of 2^63 or more to a smaller one, where it is 2^64 blocks |
| `XtsSegment.XtsBlockCipher.EncryptSegment` | lib/cipher/aes_xts.cc:437-450 | the segment is XTS under the tweak that lies the drift before the one of the block named; new state on every path |
| `XtsSegment.XtsBlockCipher.DecryptSegment` | lib/cipher/aes_xts.cc:452-465 | the same for decryption |
| `XtsSegment.EncryptPieces` | include/alcp/cipher_segment.h:85-113 | consecutive segments give the whole unit with AES_MULTI_UPDATE, and repeat one tweak without |
| `XtsSegment.XtsBlockCipher.SegmentExactIff` | lib/cipher/aes_xts.cc:437-450 | a segment is XTS from its block on, for all ciphers and contents of a length, exactly when its drift is zero or brings the first tweak back; for a drift that is no multiple of 2^32 - 1, exactly when the first tweak is zero |
| `XtsPieces.OneTweakIff` | lib/arch/avx2/aesni_xts.cc:205-207 | repeating one tweak gives the unit, for all ciphers and contents of given lengths, exactly when there is one piece or the tweak is zero |
| `XtsPieces.OneTweakDiffers` | lib/arch/avx2/aesni_xts.cc:205-207 | where the tweak behind some piece but the last is another one, a cipher for which pieces of zeros come out wrong |
| `XtsPieces.OneTweakHolds` | lib/arch/avx2/aesni_xts.cc:205-207 | where it is the first again behind each of them, every unit comes out right |
| `XtsPieces.PiecesPromiseIff` | include/alcp/cipher_segment.h:85-113 | encrypting in pieces gives the unit, for all ciphers, tweaks and pieces, exactly with AES_MULTI_UPDATE |
| `XtsPieces.SameTweakIff` | lib/arch/avx2/aesni_xts.cc:45-209 | two tweaks give one result for all ciphers and contents of a length exactly when they are equal |
| `Gf128.GfMul128` | lib/arch/avx2/aesni_xts.cc:401-437 | four word products and the three-step reduction give the product of the field |
| `Gf128.WordsMultiply` | lib/arch/avx2/aesni_xts.cc:406-417 | the four word products make up the 256-bit product |
| `Gf128.Folded` | lib/arch/avx2/aesni_xts.cc:419-434 | folding what is above 128 bits, and what that carries, gives the residue |
| `Gf128.ProductPower` | lib/arch/avx2/aesni_xts.cc:494-495 | multiplying by alpha^n is doubling n times |
| `AlphaPowers.TableRow` | lib/arch/avx2/aesni_xts.cc:441-458 | row k of the table is alpha to the power 2^k, for all sixteen rows |
| `AlphaPowers.RowsSquare` | lib/arch/avx2/aesni_xts.cc:441-458 | each row is the square of the row before it, computed on the constants themselves |
| `RegisterBits.MulValue` | lib/arch/avx2/aesni_xts.cc:401-437 | multiplying 128-bit vectors step by step, with shifts, masks and exclusive-ors, is the product of the field |
| `AlphaOrder.TweakReturnsIff` | lib/arch/avx2/aesni_xts.cc:460-498 | a tweak moved on by a number of blocks that is not a multiple of 2^32 - 1 is the same again exactly when it is zero |
| `AlphaOrder.FixedBy` | lib/arch/avx2/aesni_xts.cc:460-498 | any number of doublings that brings an element other than zero back is a multiple of 2^32 - 1 |
| `AlphaPowers.LowPower` | lib/arch/avx2/aesni_xts.cc:472-479 | the table loop stays inside the table and gives alpha^n for every n of sixteen bits |
| `AlphaPowers.HighPower` | lib/arch/avx2/aesni_xts.cc:480-492 | the squaring loop multiplies in the remaining bits, however many |
| `AlphaPowers.TweakBlockCalculate` | lib/arch/avx2/aesni_xts.cc:460-498 | the tweak moved on by inc blocks is the tweak doubled inc times, for every inc |
| `Session.SafeStep` | lib/capi/c_cipher.cc:96-377 | every call of every family from a safe state runs without a fault and leaves a safe state |
| `Session.RunsAreSafe` | lib/capi/c_cipher_aead.cc:80-340 | no run on any number of contexts faults |
| `Session.ReachableContexts` | lib/capi/c_cipher_segment.cc:63-207 | in every reachable state: tag none iff no object, the object alive and of the class the tag names, CCM mode iff a CCM object, no object owned twice |
| `Session.MultibufferIsOwnObject` | lib/capi/c_cipher.cc:158-268 | whenever a multi-buffer call reaches the object, the cached pointer is the context's own live object |
| `Session.FinishLeavesStale` | lib/capi/c_cipher.cc:298-324 | finishing a CBC or CFB context leaves a pointer to a dead object behind |
| `Session.Conservation` | lib/capi/c_cipher.cc:109-127 | in every run created = freed + owned + overwritten, and each call that constructs an occupied context anew overwrites exactly one |
| `Session.NothingLeaks` | lib/capi/c_cipher_aead.cc:315-340 | without such calls, finishing every context frees everything created |
| `Session.CountedApart` | lib/capi/c_cipher_segment.cc:184-207 | the three sets are disjoint and count up to the objects created |
| `Session.StepFrame` | lib/capi/c_cipher.cc:326-377 | a call through another handle leaves a context and its object as they are |
| `Session.Independence` | lib/capi/c_cipher.cc:326-377 | a context ends up as if only the calls through its own handle had been made |
| `Session.CopyResult` | lib/capi/c_cipher.cc:326-377 | a copy gives a fresh object of the same class, mode, key length and tag, leaves the source alone, and carries key and IV exactly for the generic AES modes |
| `Session.SelfCopyLoses` | lib/capi/c_cipher.cc:347-369 | copying a context onto itself fails and loses its object |
| `SessionApi.Library.CipherRequest` | lib/capi/c_cipher.cc:96-130 | the function is one step of the machine |
| `SessionCalls.CipherRequested` | lib/capi/c_cipher.cc:63-130 | for every mode and key length: the error, and class, mode and key length of the new object and of the context |
| `SessionApi.Library.AeadRequest` | lib/capi/c_cipher_aead.cc:80-143 | the function is one step of the machine |
| `SessionCalls.AeadRequested` | lib/capi/c_cipher_aead.cc:50-143 | the same for the AEAD family |
| `SessionApi.Library.SegmentRequest` | lib/capi/c_cipher_segment.cc:63-96 | the function is one step of the machine |
| `SessionCalls.SegmentRequested` | lib/capi/c_cipher_segment.cc:41-96 | the same for the segment family |
| `SessionCalls.HeldObject` | lib/capi/c_cipher.cc:96-130 | the object of a context is always of the class its family and mode ask for |
| `SessionApi.Library.CipherCall` | lib/capi/c_cipher.cc:132-156 | init, encrypt and decrypt are one step each, on a live object |
| `SessionApi.Library.MultibufferCall` | lib/capi/c_cipher.cc:158-268 | multi-buffer init, flush and dequeue are one step each, on a live object that has the interface |
| `SessionApi.Library.AeadCall` | lib/capi/c_cipher_aead.cc:145-313 | the AEAD calls are one step each, the CCM call on a CCM object only |
| `SessionApi.Library.SegmentCall` | lib/capi/c_cipher_segment.cc:98-182 | the segment calls are one step each, on a segment object |
| `SessionCalls.UseOutcome` | lib/capi/c_cipher.cc:132-268 | every call on an object: the errors in the order of the checks, otherwise what the context's own object makes of it and nothing else |
| `SessionApi.Library.Finish` | lib/capi/c_cipher.cc:298-324 | deletes a live object of its own family only, and leaves the cached pointer |
| `SessionCalls.FinishOutcome` | lib/capi/c_cipher.cc:298-324 | finishing deletes the context's object if the context is of the family, and changes nothing else |
| `SessionApi.Library.ContextCopy` | lib/capi/c_cipher.cc:326-377 | the function is one step of the machine, self-copy included |
| `SessionCalls.CopyRefused` | lib/capi/c_cipher.cc:326-345 | a copy is refused without a handle or an object and outside the cipher family, and nothing changes |
| `RsaContext.SafeStep` | lib/capi/c_rsa.cc:191-336 | managing calls never fault; every call keeps objects distinct, alive and owned once |
| `RsaContext.RunsAreSafe` | lib/capi/c_rsa.cc:131-146 | the same over runs |
| `RsaContext.OaepEncryptUsesOwnObjects` | lib/capi/c_rsa.cc:296-336 | at every OAEP encryption the RSA object's digest and MGF are the context's live and distinct objects, also after failed adds |
| `RsaContext.ReachableOaepEncrypt` | lib/capi/c_rsa.cc:296-336 | the same in every state that calls on fresh contexts can reach |
| `RsaContext.KernelFaultsIff` | lib/rsa/rsa.cc:386-490 | exactly when each kernel reads a deleted object or a null pointer |
| `RsaCalls.KernelReads` | lib/rsa/rsa.cc:386-490 | which pointers each kernel reads, when it refuses, and what a signature without a mask-generation object leaves behind |
| `RsaContext.CarefulRunsDone` | lib/capi/c_rsa.cc:241-294 | with supported modes and both objects added before a signature or decryption, no run faults |
| `RsaContext.StandInOutlived` | lib/rsa/rsa.cc:478-490 | a run in which a signature reads the deleted digest that stood in for the MGF |
| `RsaContext.Conservation` | lib/capi/c_rsa.cc:722-749 | in every run that gets through created = freed + owned + lost, counted, and exactly what contexts held when constructed anew is lost |
| `RsaContext.NothingLeaks` | lib/capi/c_rsa.cc:722-749 | finishing every context after any such run never faults and leaves alive exactly what was lost, nothing if nothing was |
| `RsaContext.AccountedStep` | lib/capi/c_rsa.cc:751-771 | each step accounts for every object, and loses exactly what a context constructed anew held |
| `RsaContext.AllFinished` | lib/capi/c_rsa.cc:722-749 | when no context owns anything, nothing but lost objects is alive |
| `RsaContext.IndexAfterAdd` | lib/rsa/rsa.cc:100-139 | after adding a digest the DigestInfo index is the mode's exactly when the mode is not MD5 with SHA-1 |
| `RsaApi.RsaLibrary.AddDigest` | lib/capi/c_rsa.cc:241-266 | the function is one step of the machine; the object deleted is alive |
| `RsaApi.RsaLibrary.AddMgf` | lib/capi/c_rsa.cc:268-294 | the function is one step of the machine; the object deleted is alive |
| `RsaCalls.DigestAdded` | lib/capi/c_rsa.cc:241-266 | an object of exactly the mode takes the old one's place, recorded with its size and index; an unsupported mode leaves none |
| `RsaCalls.MgfAdded` | lib/capi/c_rsa.cc:268-294 | the same for the mask-generation object |
| `RsaCalls.DigestSizes` | lib/capi/c_rsa.cc:191-239 | the digest sizes of the nine modes |
| `RsaApi.RsaLibrary.EncryptOaep` | lib/capi/c_rsa.cc:296-336 | creates the missing objects and reads live ones; a null label with a length returns before that |
| `RsaCalls.OaepObjects` | lib/capi/c_rsa.cc:322-331 | empty slots are filled with SHA-256 objects, recorded with 32 bytes; filled ones keep their objects |
| `RsaApi.RsaLibrary.OtherKernel` | lib/rsa/rsa.cc:464-490 | decryption and signatures read live objects under the exact condition, and leave the stand-in |
| `RsaApi.RsaLibrary.Finish` | lib/capi/c_rsa.cc:722-749 | deletes both objects once and clears the context |
| `RsaCalls.RequestAndFinish` | lib/capi/c_rsa.cc:722-749 | a request leaves an empty RSA object, finishing none, and finishing deletes exactly what the context owned |
| `RsaCalls.Refused` | lib/capi/c_rsa.cc:296-320 | the order of the refusals, none of which changes anything |
| `RsaApi.RsaLibrary.ContextCopy` | lib/rsa/builder.cc:368-393 | the copy owns objects of its own and its RSA object points to them |
| `RsaCalls.CopiedObjects` | lib/rsa/builder.cc:368-393 | for each object of the source a new one of the same mode, recorded with its size; the source stays as it is |
| `RsaApi.RsaLibrary.SetDigest` | lib/rsa/rsa.cc:100-139 | the switch on hash length and block size gives the index of the mode |
| `DigestInfo.SameModes` | lib/capi/c_rsa.cc:47-119 | index, size and object creation support the same modes, and sizes are those of the rows |
| `DigestInfo.DecodeEncode` | include/alcp/rsa.h:69-103 | prefix and hash decode to mode and hash, for all nine modes |
| `DigestInfo.EncodeInjective` | include/alcp/rsa.h:69-103 | no two modes and hashes have one encoding |
| `DigestInfo.RowIsDer` | include/alcp/rsa.h:82-103 | every non-empty prefix followed by a hash of its length is well-formed DER naming the algorithm |
| `DigestInfo.Prefixes` | include/alcp/rsa.h:82-103 | the nine prefixes are those of RFC 8017, section 9.2 |
| `DigestInfo.EncodedWith` | lib/capi/c_rsa.cc:47-119 | each mode is encoded with its own prefix |
| `DigestInfo.BuildHashWithInfo` | examples/rsa/rsa_padding_big_num_keys.c:247-255 | the two copies build prefix and hash |
| `BigNum.ConvertToBignum` | examples/rsa/rsa_padding_big_num_keys.c:143-150 | the byte view of the limbs is the reversed input, whatever the limbs held |
| `BigNum.BignumKeepsInteger` | examples/rsa/rsa_padding_big_num_keys.c:356-384 | limbs are filled from bytes exactly when their value is the big-endian integer |
| `BigNum.BignumInjective` | examples/rsa/rsa_padding_big_num_keys.c:143-150 | different byte strings give different limbs |
| `BigNum.ViewPut` | examples/rsa/rsa_padding_big_num_keys.c:146-148 | a store through the byte view changes one byte of one limb |
| `Hex.ParseHexStrToBin` | examples/misc/filecrypt.cc:54-67 | the loop parses pairs; an odd length throws |
| `Hex.PrintHexString` | examples/cipher/aes-cfb.c:266-286 | the arithmetic printer fills the array with the digits and a terminator |
| `Hex.BytesToHexString` | examples/cipher/chacha20-poly1305.c:290-356 | the switch printer fills the array identically |
| `Hex.ParsePrint` | examples/misc/filecrypt.cc:43-67 | parsing undoes printing |
| `Hex.PrintParse` | examples/misc/filecrypt.cc:43-67 | printing what was parsed gives the lower-case text exactly when all characters are digits |
| `Hex.PrintAt` | examples/cipher/aes-cfb.c:266-286 | the digits of byte i, the upper four bits first |
| `Hex.ParseAt` | examples/misc/filecrypt.cc:43-67 | byte i from its two characters, the first one counting sixteenfold |
| `Hex.DigitValues` | examples/misc/filecrypt.cc:43-53 | the value of every character |
| `Padding.PadZeros` | examples/misc/filecrypt.cc:73-83 | the loop builds mark and zeros |
| `Padding.PadLength` | examples/misc/filecrypt.cc:73-83 | the padded length is the least multiple of 16 greater than the length |
| `Padding.UnpadPad` | examples/misc/filecrypt.cc:84-92 | unpadding undoes padding, marks inside the data included |
| `Padding.PadUnpad` | examples/misc/filecrypt.cc:73-92 | padding undoes unpadding exactly for whole blocks whose last mark is in the last block and followed by zeros |
| `Padding.LastMark` | examples/misc/filecrypt.cc:84-92 | the last mark, or the end when there is none |
| `Padding.UnpadAt` | examples/misc/filecrypt.cc:84-92 | everything before the last byte 0x0f is kept |
| `ArgParse.ArgParser.ParseArguments` | examples/misc/filecrypt.cc:201-228 | the loop with its inner increment terminates and computes the parse |
| `ArgParse.ParseFlatten` | examples/misc/filecrypt.cc:201-228 | parsing a printed list of options gives the map they enter in order |
| `ArgParse.ParseAll` | examples/misc/filecrypt.cc:201-228 | any arguments that are not empty are names with values, each taking the next argument unless it starts with a dash, and are entered in order |
| `ArgParse.EnteredLast` | examples/misc/filecrypt.cc:201-228 | the last value of a name wins |
| `ArgParse.NoEmptyName` | examples/misc/filecrypt.cc:201-228 | with non-empty arguments the parser never throws and the empty name is never entered |
| `ArgParse.ParamOfOptions` | examples/misc/filecrypt.cc:201-241 | asking for a name after parsing printed options gives the value of the last option of that name, or the empty string |
| `ArgParse.ArgParser.GetParamStr` | examples/misc/filecrypt.cc:235-241 | whatever options the map was parsed from, the value of the last one of the name, or the empty string |
| `FileCrypt.Crypt.Encrypt` | examples/misc/filecrypt.cc:335-376 | returns the mode's output through the kernels, or nothing on each failure |
| `FileCrypt.Crypt.Decrypt` | examples/misc/filecrypt.cc:377-417 | the same for decryption |
| `FileCrypt.EncryptionIs` | examples/misc/filecrypt.cc:280-376 | which cipher and mode the string names, in the order of the tests, under which key length and IV, and when nothing comes out |
| `FileCrypt.DecryptionIs` | examples/misc/filecrypt.cc:280-417 | the same for decryption |
| `FileCrypt.ContainsIff` | examples/misc/filecrypt.cc:287-300 | a string contains another one exactly when that is somewhere a part of it |
| `FileCrypt.Encryptor.Encrypt` | examples/misc/filecrypt.cc:421-448 | pads, encrypts and keeps the result |
| `FileCrypt.Decryptor.Decrypt` | examples/misc/filecrypt.cc:450-473 | decrypts, unpads and keeps the result |
| `FileCrypt.EncryptorIs` | examples/misc/filecrypt.cc:73-83 | the file is followed by 0x0f and zero bytes up to a whole block, and encrypted |
| `FileCrypt.DecryptorIs` | examples/misc/filecrypt.cc:84-92 | what comes before the last 0x0f of the decryption is kept, everything if there is none |
| `FileCrypt.BytesRoundTrip` | examples/misc/filecrypt.cc:335-417 | whole blocks come back in all five modes |
| `FileCrypt.EncryptorFailsIff` | examples/misc/filecrypt.cc:335-376 | an empty result means failure, exactly for the listed reasons; the padded length suits every mode |
| `FileCrypt.FileRoundTrip` | examples/misc/filecrypt.cc:421-473 | a non-empty ciphertext decrypts to the file, for every file, mode string, key and IV, on any machine with the same bytes behind an XTS key |
| `FileCrypt.FileRoundTripIff` | examples/misc/filecrypt.cc:335-473 | files come back for all key schedules, IVs and contents exactly when the mode is not XTS with a usable key or the bytes behind the key are the same |
| `FileCrypt.TweakKeyMatters` | examples/misc/filecrypt.cc:335-473 | with other bytes behind the key, a key schedule, an IV and a file that is lost |
| `FileTool.RunTool` | examples/misc/filecrypt.cc:499-579 | the main function, with its parser and its two file objects, is the tool as a function of disk and arguments: outcome and disk afterwards on every path |
| `FileTool.File.constructor` | examples/misc/filecrypt.cc:113-123 | opening for writing empties the file or creates it, opening for reading changes nothing |
| `FileTool.File.WriteBytes` | examples/misc/filecrypt.cc:166-173 | the file opened for writing holds the bytes afterwards; nothing is written without bytes or a good stream |
| `FileTool.CommandParsed` | examples/misc/filecrypt.cc:499-579 | on any list of valid options, in any order and with repetitions, the tool does what the last value of each name says |
| `FileTool.NamesMean` | examples/misc/filecrypt.cc:499-579 | what each option name stands for: outcome and disk afterwards in terms of the values given, in the order of the checks |
| `FileTool.OnlyOutputChanges` | examples/misc/filecrypt.cc:544-574 | whatever the arguments, only the output file changes; with usable ones it holds something afterwards exactly when the tool succeeded |
| `FileTool.EncryptsIff` | examples/misc/filecrypt.cc:499-579 | encryption succeeds exactly when both files open, a cipher can be set up, and an XTS unit is not too long |
| `FileTool.RunRoundTrip` | examples/misc/filecrypt.cc:544-574 | encrypting and then decrypting into a third path gives the file back exactly when neither run reads and writes one path, or it was empty |
| `FileTool.ToolRoundTrip` | examples/misc/filecrypt.cc:499-579 | the same from command line to command line, over all lists of valid options |
| `ArgParse.EnteredNames` | examples/misc/filecrypt.cc:201-256 | a name exists after parsing exactly when it is the name of an option |
| `ChaCha20.CryptInvolution` | lib/cipher/chacha20_inplace.cc.inc:163-199 | ChaCha20 undoes itself for every length |
| `ChaCha20.CryptPrefix` | lib/cipher/chacha20_inplace.cc.inc:163-199 | encrypting a prefix gives the prefix of the ciphertext |
| `ChaCha20.CryptSplit` | lib/arch/avx2/chacha20_avx2.cc:327-347 | a message may be cut after whole blocks if the counter is carried over |
| `ChaCha20.CryptBlocks` | lib/cipher/chacha20_inplace.cc.inc:163-199 | block i is added to the block function of the key, the little-endian counter in front of the IV buffer with i added, and the nonce behind it |
| `ChaCha20.ProcessInputWide` | lib/arch/zen4/chacha20.cc:639-661 | wide groups, stored-back counter, narrow groups and rest together are ChaCha20; the IV moves by the wide blocks |
| `ChaCha20.Rest` | lib/cipher/chacha20_inplace.cc.inc:163-199 | block by block with a 32-bit counter, the reference kernel is ChaCha20 |
| `ChaCha20.ChaCha256.Init` | lib/cipher/chacha20.cc:36-58 | a failing key leaves the IV alone; one step of the key and IV machine |
| `ChaCha20.ChaCha256.SetKey` | lib/cipher/chacha20.cc:72-86 | only a 256-bit key is stored |
| `ChaCha20.ChaCha256.SetIv` | lib/cipher/chacha20.cc:88-102 | only a 16-byte IV is stored |
| `ChaCha20.ChaCha256.Encrypt` | lib/cipher/chacha20.cc:106-244 | all three specialisations give ChaCha20 of the input and move the stored counter by the wide blocks |
| `ChaCha20.ChaCha256.Decrypt` | lib/cipher/chacha20.cc:142-152 | decryption is encryption |
| `ChaCha20.HeldKeyAndIv` | lib/cipher/chacha20.cc:36-102 | after any run the key is the last that validated, the IV the last stored with the wide blocks counted in, and the flags say whether there was one |
| `ChaCha20.SameObjectInverseIff` | lib/arch/avx2/chacha20_avx2.cc:334-346 | decrypting right after encrypting on one object gives the input, for all functions, keys, IVs and messages of a length, exactly when that length does not move the counter |
| `ChaCha20.EncryptThenDecrypt` | lib/cipher/chacha20.cc:106-152 | the two calls on one object return what the theorem above speaks of, and the input where the counter does not move |
| `ChaCha20.MovesFrom` | lib/arch/zen4/chacha20.cc:647-660 | the lengths for which the counter moves, per kernel |
| `Digest.BlockBuffer.Update` | lib/digest/sha3.cc:316-383 | after any update the state is that of everything fed so far, the buffer its tail |
| `Digest.AbsorbMore` | lib/digest/sha256.cc:169-247 | feeding more depends on the state and the tail only |
| `Digest.AbsorbBlocks` | lib/digest/sha256.cc:169-247 | absorbing is compressing one block after the other |
| `Digest.PaddedSha2` | lib/digest/sha256.cc:249-313 | the padding: 0x80, zeros, the number of bits in eight bytes big-endian, up to the least number of whole blocks |
| `Digest.Sha256.Finalize` | lib/digest/sha256.cc:249-313 | the digest is that of the message padded as FIPS 180-4 says, in one block or two |
| `Digest.Sha3.SqueezeChunk` | lib/digest/sha3.cc:172-195 | each call gives the next bytes of one output stream, across blocks |
| `Digest.Sha3.Finalize` | lib/digest/sha3.cc:412-441 | one output from the start of the stream; a second call gives nothing; after squeezing, the last block is absorbed again and the output goes on at the same position |
| `Digest.Sha3.ShakeSqueeze` | lib/digest/sha3.cc:443-468 | the first call pads, later calls go on where the stream stopped |
| `Digest.Sha3.PadAndProcess` | lib/digest/sha3.cc:385-401 | the buffer is padded as FIPS 202 says, one-byte padding included |
| `Digest.SpongeInput` | lib/digest/sha3.cc:385-401 | what is absorbed: the message and bytes that start with 0x06 for SHA-3 and 0x1f for SHAKE, end with 0x80 and are zero between, a single one being the sum |
| `Digest.StreamByteAt` | lib/digest/sha3.cc:172-195 | output byte i is byte i modulo the rate of the state after i divided by the rate permutations |
| `Digest.FeedChunks` | examples/digest/sha2_256_example.c:66-94 | the chunks together are the message, also with more chunks than bytes |
| `Digest.Sha256Demo` | examples/digest/sha2_256_example.c:66-108 | the digest does not depend on the chunking |
| `Digest.SqueezeBytes` | examples/digest/shake_256_example.c:111-117 | for fewer than 65536 bytes the loop ends and the bytes are one output of that length |
| `Digest.ShakeDemo` | examples/digest/shake_256_example.c:59-137 | squeezing a copy byte by byte and finalising the original give the same bytes; an empty output is refused |
| `Digest.SqueezeLoop` | examples/digest/shake_256_example.c:111-117 | the loop itself ends, with one output of that length, exactly for fewer than 65536 bytes; otherwise no number of turns is enough |

## Left out

- Overlapping and in-place buffers: kernels take their input as a value, so source and destination never alias.
- The 256-bit two-lane kernels and the register allocation inside the lane kernels: lanes are a sequence of blocks.
- What a dequeue reads and writes once it is behind the IV store: the model stops there.
- Setting the key of an XTS segment object: the object is modelled from the first IV on.
- The numbers written through outlen by the AES classes; XTS decryption leaves zero there, which nothing in the tool reads.
- The state shared through caller-provided GCM state: both AEAD requests create the same kind of object.
- What the operations of cipher objects compute inside a session: it is a parameter of the session machine; the modes themselves are modelled apart.
- Reuse of the addresses of deleted objects: identities are never handed out twice.
- RsaApi.RsaLibrary.ContextCopy: does not model a context copied onto itself, because the call then goes through function pointers that the constructor it has just run leaves indeterminate.
- The Rsa object's own allocation: it is part of its context from request to finish.
- Updating a digest after output was squeezed: excluded by a precondition.
- AesKernels.EncryptLanes: does not model more than 128 lanes of the 512-bit kernel nor one lane of the 256-bit kernel, because they leave the arrays.
- Two paths that name one file, directories, and errors while a file is read or written: a path is one file, and what opens can be read or written in full.
- Terminal output, allocation failure, logging and timing.
- AES rounds and key schedules, Keccak, SHA-2 compression, big-number and elliptic-curve arithmetic, and CPU dispatch beyond the choice of kernel: parameters of the model.
- AEAD modes, MACs, DRBG, elliptic curves and SHA-512: they would repeat the patterns above or need the arithmetic left out.
