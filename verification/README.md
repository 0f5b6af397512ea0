# QEMU live migration and block layer, verified

A Dafny model of the parts of qemu-kvm 1.2.0 where correctness is hardest to see by reading: the
copy-on-read protocol and image chains of the block layer, live block and RAM migration, AES, the
software TLB, word-level bitmaps, the rate-limited migration stream and bottom halves. Each part is
modelled in the form the C code has. Protocols whose steps interleave with the guest are state
machines with a step function, and the C functions are class methods proved to perform runs of the
machine. Loops over arrays and words are methods over arrays and words. What the code promises is
then proved for every input, every run or every reachable state.

`dafny verify dfyconfig.toml` checks the whole project.

## Files

| file | models |
|---|---|
| `Basics.dfy` | what several modules share: bytes, intervals, sizes, error numbers |
| `Gf256.dfy`, `AesSpec.dfy`, `AesTables.dfy`, `AesKeys.dfy`, `Aes.dfy`, `AesBytes.dfy`, `AesCbc.dfy`, `AesCbcBlocks.dfy`, `AesCbcLimits.dfy` | `aes.c`: the field GF(2^8), the cipher of FIPS 197 (section 5) as equations, the lookup tables, the key schedules, the block routines, rounds and schedule byte by byte, CBC mode, the same block by block, and a key for which its two directions part |
| `CopyOnRead.dfy`, `CopyOnReadResults.dfy` | tracked requests and copy-on-read in `block.c`: the protocol, and what each request has done when it ends |
| `BlockMigration.dfy`, `BlockMigrationHistory.dfy`, `BlockMigrationCode.dfy`, `BlockMigrationLimits.dfy` | live block migration: the protocol, its marks and dirty bits in terms of what has happened, the code, and runs that show its assumptions are needed |
| `Xbzrle.dfy`, `XbzrleFormat.dfy`, `RamMigration.dfy`, `RamMigrationCode.dfy`, `RamMigrationStream.dfy`, `RamMigrationLimits.dfy` | the page delta codec with its documented format, and live RAM migration: the protocol, the code, and the order in which pages are sent |
| `Tlb.dfy` | `cputlb.c`, and the choice `softmmu_template.h` makes for an access |
| `Words.dfy`, `BitOps.dfy`, `Bitmap.dfy`, `DirtyBitmap.dfy` | `bitops.h`, `bitops.c`, `bitmap.c` and the dirty bitmap of `block.c` |
| `Multiwrite.dfy`, `MultiwriteCode.dfy`, `ImageChain.dfy`, `ByteIo.dfy` | merged writes, commit and allocation queries over image chains, byte access over sectors, all in `block.c` |
| `BottomHalves.dfy`, `BufferedFile.dfy` | `async.c`, `buffered_file.c` |

## Where the code falls short of a property

For each: the input on which the property fails, and the lemma that says exactly when it holds.

- Merging writes: folding a request into an earlier one drops what the earlier one wrote past its
  end (`Multiwrite.ShorterWriteLosesTail`). `Multiwrite.MergeSafeExactly` shows merging is safe for
  all data of given sectors and sizes if and only if every dropped byte is written again by a later
  request.
- Block migration, reads of one chunk that complete out of order: a stale copy is left on the
  destination (`BlockMigrationLimits.OutOfOrderLosesData`). `BlockMigration.StepExactly` and
  `BlockMigration.RunExactly` show that the invariant holds throughout a run if and only if each
  completion and each synchronous send in it is safe, a test on the reads in flight at that moment.
- Block migration, a final flush cut short by the rate limit: blocks are lost
  (`BlockMigrationLimits.CutFlushLosesData`). `BlockMigrationCode.CompletedExactly`, which
  `BlockSaveComplete` also promises, shows the destination equals the source if and only if no block
  left behind holds, of a clean sector, anything other than what the stream already shows.
- Block migration, a synchronous read that fails in the last phase: the chunk is tried again at once,
  and nothing is sent or cleaned meanwhile (`BlockMigrationCode.BlkMigState.SaveDirtyBlockSync`). The
  loop ends whenever the reads fail finitely often (`BlockMigrationCode.BlkMigState.SendAllDirty`).
- RAM migration with XBZRLE: a duplicate page is sent without updating the page cache, and a later
  delta against the stale cached copy, or none at all, leaves the destination wrong
  (`RamMigrationLimits.DupLosesPage`). `RamMigration.DupExactly` gives the condition for one send,
  `RamMigration.RunExactly` for whole runs.
- `ram_save_block` before any block was sent compares its position with no position at all and scans
  for ever if nothing is dirty (`RamMigrationCode.NothingDirtyRunsForEver`).
  `RamMigrationCode.ScanEndsExactly` shows it returns if and only if a block was sent before or some
  dirty page will produce a record; `RamMigrationCode.ReachableEnds` shows that one of the two holds
  in every reachable state.
- `ram_save_block` begins its scan at the page it sent last, so a page the guest rewrites before every call
  is sent every time and all others wait (`RamMigrationStream.SamePageStarves`).
  `RamMigrationStream.SentWithinCycle` shows that only those calls do not count: a page ready to be sent
  waits for fewer moves of the scan than there are pages between, hence less than one cycle.
- CBC decryption of a short tail leaves the deciphered block, not the ciphertext, in the vector it
  carries out. `AesCbc.CarriedVectors` shows the two directions then carry out the same vector if and
  only if the tail, with the vector that reaches it, is a fixed point of the cipher. With the zero key
  of 128 bits and the identity for an S-box it never is (`AesCbcLimits.TailLeavesOtherVector`).
- `bdrv_set_dirty_tracking` enabled twice forgets the count but keeps the bits
  (`DirtyBitmap.EnabledTwice`; exactly when the count stays right:
  `DirtyBitmap.Device.SetDirtyTracking`).
- A backend that answers 0: the buffered file sends new bytes ahead of buffered ones
  (`BufferedFile.ZeroAnswerReorders`), refuses a write part of which has gone out without recording an
  error (`BufferedFile.ZeroAnswerLosesWrite`), or erases an error it had recorded
  (`BufferedFile.ZeroAnswerErasesError`). `BufferedFile.PutKeptExactly` shows that a write is safe for
  all contents if and only if no answer of 0 does harm, a condition on the answers, the two lengths
  and the allowance.
- `bdrv_co_is_allocated_above` may answer with `pnum` 0 although sectors were asked for
  (`ImageChain.ShortBackingStalls`; exactly when: `ImageChain.IsAllocatedAbove`). Its comment says base
  is included; the code leaves base out, and so does the model.
- `bdrv_commit` takes an allocation query that fails for "allocated", of no sector, and stays where it
  is: a turn of its loop gets no further if and only if the query fails (`ImageChain.CommitTurn`).
- `tlb_set_page` accepts every size from a page up. After a large page of three small ones, a flush of
  the second leaves the entry of the first in place (`Tlb.OddSizeEscapes`). `Tlb.FirstLargePage` says
  which flushes leave it, and `Tlb.NoneEscapesExactly` that none does if and only if the size is a power
  of two; then no run of calls leaves one (`Tlb.CpuTlb.SetPage`, `Tlb.CpuTlb.FlushPage`).

## Model

| member | source | states |
|---|---|---|
| `Gf256.Times2Reduces` | qemu-kvm-1.2.0/aes.c:46-58 | doubling is multiplication by x modulo x^8 + x^4 + x^3 + x + 1 |
| `Gf256.MulAdd` | qemu-kvm-1.2.0/aes.c:46-58 | multiplication by 3, 9, 11, 13 and 14 is linear |
| `Gf256.InvMixRowUndoes` | qemu-kvm-1.2.0/aes.c:46-58 | the inverse mixing matrix times the mixing matrix is the identity, for every column |
| `AesSpec.InvMixColumnsUndoes` | qemu-kvm-1.2.0/aes.c:46-58 | InvMixColumns undoes MixColumns on every block |
| `AesSpec.InvMixColumnAdd` | qemu-kvm-1.2.0/aes.c:853-877 | InvMixColumns is linear, which lets the decryption key schedule be mixed in advance |
| `AesSpec.InverseRoundsPeel` | qemu-kvm-1.2.0/aes.c:1076-1261 | r rounds of the equivalent inverse cipher peel off r rounds of the cipher |
| `AesSpec.EqInvCipherUndoes` | qemu-kvm-1.2.0/aes.c:1076-1261 | for every list of round keys and every block the equivalent inverse cipher (section 5.3.5 of FIPS 197) undoes the cipher |
| `AesTables.EncWordIsMixColumn` | qemu-kvm-1.2.0/aes.c:43-58 | four lookups in Te0..Te3 are SubBytes followed by MixColumns on a column |
| `AesTables.DecWordIsInvMixColumn` | qemu-kvm-1.2.0/aes.c:43-58 | four lookups in Td0..Td3 are InvSubBytes followed by InvMixColumns |
| `AesTables.SubWordIsSubColumn` | qemu-kvm-1.2.0/aes.c:1011-1046 | four masked lookups in Te4 or Td4 substitute each byte of a word |
| `AesKeys.RconTable` | qemu-kvm-1.2.0/aes.c:722-726 | the table of round constants holds the powers of x |
| `AesKeys.Expand128` | qemu-kvm-1.2.0/aes.c:752-773 | fills rd_key with the key expansion of section 5.2 of FIPS 197 for 128-bit keys |
| `AesKeys.Expand192` | qemu-kvm-1.2.0/aes.c:774-795 | the same for 192-bit keys |
| `AesKeys.Expand256` | qemu-kvm-1.2.0/aes.c:796-826 | the same for 256-bit keys |
| `AesKeys.SetEncryptKey` | qemu-kvm-1.2.0/aes.c:731-827 | -1 without a key or a place for it, -2 for another key size, nothing changed then; otherwise sets the rounds and the whole expanded schedule |
| `AesBytes.GroupWordAt` | qemu-kvm-1.2.0/aes.c:752-826 | for every key and every first word of a group, byte r is byte r of the word a group earlier, plus the S-box at byte r + 1 (modulo 4) of the word before, plus a power of x in row 0 |
| `AesBytes.OtherWordAt` | qemu-kvm-1.2.0/aes.c:752-826 | byte r of any other word is the sum of the bytes r of the word a group earlier and of the word before, substituted without rotation in the middle of a group of eight |
| `AesBytes.AppendixA1` | qemu-kvm-1.2.0/aes.c:752-773 | the first word past the key of appendix A.1 of FIPS 197 is a0fafe17, for every S-box with the four values it uses |
| `AesBytes.RconIsPower` | qemu-kvm-1.2.0/aes.c:722-726 | the round constants are the powers of x in the field, given by its own product |
| `AesBytes.UserKeyAt` | qemu-kvm-1.2.0/aes.c:752-755 | byte 4i + r of the key is byte r of word i |
| `AesBytes.ScheduleAt` | qemu-kvm-1.2.0/aes.c:731-827 | round key n is words 4n to 4n + 3 of the schedule, one in each column |
| `AesBytes.RoundAt` | qemu-kvm-1.2.0/aes.c:885-1010 | a byte after a full round is the key byte plus four products in the field: the bytes of the shifted and substituted column by the coefficients 02, 03, 01, 01 |
| `AesBytes.EndsAt` | qemu-kvm-1.2.0/aes.c:885-1070 | the first key is added before any round; the last round shifts, substitutes and adds without a product |
| `AesBytes.MixColumnAt` | qemu-kvm-1.2.0/aes.c:43-58 | a mixed column is the product with the polynomial of section 5.1.3 of FIPS 197, the products in the field being defined bit by bit |
| `AesBytes.BlockOfAt` | qemu-kvm-1.2.0/aes.c:897-904 | byte 4c + r of a block is row r of column c |
| `Aes.ExpandedIsSchedule` | qemu-kvm-1.2.0/aes.c:731-827 | an expanded rd_key, read in groups of four words, is the list of round keys |
| `Aes.EncryptWords` | qemu-kvm-1.2.0/aes.c:885-1010 | the unrolled loop of table lookups computes all but the last round of the cipher |
| `Aes.DecryptWords` | qemu-kvm-1.2.0/aes.c:1076-1200 | the unrolled loop computes all but the last round of the equivalent inverse cipher |
| `Aes.Encrypt` | qemu-kvm-1.2.0/aes.c:885-1070 | the output block is the cipher of the input block under the round keys; no other byte changes, also in place |
| `Aes.Decrypt` | qemu-kvm-1.2.0/aes.c:1076-1261 | the output block is the equivalent inverse cipher of the input block; no other byte changes |
| `Aes.ReverseRoundKeys` | qemu-kvm-1.2.0/aes.c:846-852 | the swapping loop reverses the order of the round keys in place |
| `Aes.MixRoundKeys` | qemu-kvm-1.2.0/aes.c:853-877 | InvMixColumns is applied to every round key but the first and the last |
| `Aes.SetDecryptKey` | qemu-kvm-1.2.0/aes.c:832-878 | rd_key becomes the reversed, mixed schedule of the encryption key; errors as for encryption |
| `Aes.DecryptUndoesEncrypt` | qemu-kvm-1.2.0/aes.c:832-1261 | for every 128, 192 or 256-bit key and every block, decryption under the decryption schedule undoes encryption under the encryption schedule |
| `Aes.EncryptThenDecrypt` | qemu-kvm-1.2.0/aes.c:731-1261 | the four routines called one after the other give the block back |
| `AesCbc.CbcRoundTrip` | qemu-kvm-1.2.0/aes.c:1265-1314 | decryption undoes encryption for every length, partial last block included |
| `AesCbcBlocks.EncryptedBlock` | qemu-kvm-1.2.0/aes.c:1274-1291 | for every i, ciphertext block i is the cipher of the bytes of plaintext block i xored with ciphertext block i - 1 or the vector, and of that block alone where the text has ended |
| `AesCbcBlocks.DecryptedByte` | qemu-kvm-1.2.0/aes.c:1292-1313 | every plaintext byte is a byte of the deciphered block xored with that of the ciphertext block before, or of the vector |
| `AesCbcBlocks.EncryptedCarries` | qemu-kvm-1.2.0/aes.c:1274-1291 | encryption carries out its last ciphertext block |
| `AesCbc.CarriedVectors` | qemu-kvm-1.2.0/aes.c:1265-1314 | with a short tail, decryption carries out the block t made of the tail and the vector that reaches it, encryption the cipher of t; the two agree if and only if there is no short tail or t is a fixed point of the cipher |
| `AesCbcLimits.TailLeavesOtherVector` | qemu-kvm-1.2.0/aes.c:1306-1311 | for the schedule of the zero key of 128 bits, with the identity for an S-box, they differ for every text with a short tail and every vector |
| `AesCbcLimits.CipherAddsKeys` | qemu-kvm-1.2.0/aes.c:885-1070 | with that S-box the sum of the sixteen bytes of a block changes by the sum of all round keys, for every list of round keys |
| `AesCbc.CbcEncryptConcat` | qemu-kvm-1.2.0/aes.c:1274-1291 | after whole blocks, two calls with the carried vector equal one call on the concatenation |
| `AesCbc.CbcDecryptConcat` | qemu-kvm-1.2.0/aes.c:1292-1313 | the same for decryption |
| `AesCbc.CbcEncrypt` | qemu-kvm-1.2.0/aes.c:1274-1291 | the branch computes CBC (section 6.2 of NIST SP 800-38A) with a padded tail, in place or not, and the carried vector |
| `AesCbc.CbcDecrypt` | qemu-kvm-1.2.0/aes.c:1292-1313 | the branch computes CBC decryption, in place or not, and the carried vector |
| `AesCbc.CbcCrypt` | qemu-kvm-1.2.0/aes.c:1265-1314 | AES_cbc_encrypt takes the branch asked for |
| `AesCbc.InPlaceRoundTrip` | qemu-kvm-1.2.0/aes.c:1265-1314 | encrypting a buffer in place and decrypting it in place with the same vector gives the plaintext back, for every key and length |
| `CopyOnRead.RoundingIsSymmetric` | qemu-kvm-1.2.0/block.c:1443-1476 | rounding one region to clusters and intersecting with another gives the same answer as rounding the other |
| `CopyOnRead.StepKeepsInv` | qemu-kvm-1.2.0/block.c:1413-1508 | every step keeps: no other tracked request touches a cluster of a tracked copy-on-read request, the counter of copy-on-read requests is exact, what each request has buffered is accurate, and what a copy-on-read request need not or no longer copy is in the image |
| `CopyOnRead.ClustersAreExclusive` | qemu-kvm-1.2.0/block.c:1479-1508 | in every run no other tracked request meets a cluster of a tracked copy-on-read request |
| `CopyOnRead.OnlyGuestWritesShow` | qemu-kvm-1.2.0/block.c:1821-1947 | in every interleaving of reads, copy-on-read reads and writes each sector the guest sees is what guest writes put there |
| `CopyOnRead.CopyOnReadReturnsDisk` | qemu-kvm-1.2.0/block.c:1821-1885 | a copy-on-read request, however interleaved, returns the disk as it stands when it finishes; what it leaves in the image is stated by `CopyOnReadResults.CopyOnReadPopulates` |
| `CopyOnReadResults.CopyOnReadPopulates` | qemu-kvm-1.2.0/block.c:1821-1885 | in every run, when a copy-on-read request finishes all its sectors are in the image, and after a copy its whole rounded region |
| `CopyOnReadResults.PopulatedForGood` | qemu-kvm-1.2.0/block.c:1821-1947 | and in every continuation they are still there and are what the guest sees |
| `CopyOnReadResults.UnallocatedIsCopied` | qemu-kvm-1.2.0/block.c:1924-1936 | a request not found wholly allocated reads and copies its region and cannot finish before |
| `CopyOnReadResults.AllocatedIsNotCopied` | qemu-kvm-1.2.0/block.c:1924-1936 | one found wholly allocated copies nothing, in every continuation |
| `CopyOnReadResults.ReadReturnsSeen` | qemu-kvm-1.2.0/block.c:1890-1947 | in every run a read returns for each sector what the disk showed at some moment since it was submitted |
| `CopyOnReadResults.WriteWritesAll` | qemu-kvm-1.2.0/block.c:2000-2050 | in every run a write that ends has written each of its sectors with its own data since it was submitted |
| `CopyOnReadResults.RegionIsClusters` | qemu-kvm-1.2.0/block.c:1440-1459 | the rounded region is exactly the clusters that hold a sector of the request |
| `CopyOnReadResults.OverlapExactly` | qemu-kvm-1.2.0/block.c:1443-1476 | two requests are kept apart if and only if one has a sector in a cluster of the other |
| `CopyOnReadResults.WaitsExactly` | qemu-kvm-1.2.0/block.c:1890-1947 | with a copy-on-read request about, or for one itself, a request waits if and only if a tracked one overlaps |
| `CopyOnReadResults.NobodyWaitsForNothing` | qemu-kvm-1.2.0/block.c:1917-1919 | without one, no read or write waits |
| `CopyOnRead.NeverStuck` | qemu-kvm-1.2.0/block.c:1413-1508 | although a sleeping request moves only once the end of the request it sleeps on has woken it, some request can move while any remain: no wake-up is lost and waiting never deadlocks |
| `CopyOnRead.SleepersAreWoken` | qemu-kvm-1.2.0/block.c:1413-1420 | in every run the request a sleeper waits on is another one and still tracked, and its end wakes the sleeper, which can then scan again |
| `CopyOnRead.BlockDriverState.FindOverlap` | qemu-kvm-1.2.0/block.c:1479-1508 | the scan of the tracked list finds a request to wait for exactly when one overlaps the rounded region, and names one that does |
| `CopyOnRead.BlockDriverState.Enter` | qemu-kvm-1.2.0/block.c:1890-1947 | -ENOMEDIUM, -EACCES and -EIO exactly for no medium, a write to a read-only device and a request out of range, with nothing changed; otherwise the request is counted, scanned for overlaps and tracked or put to sleep on an overlapping one, as the protocol's submission step |
| `CopyOnRead.BlockDriverState.Wake` | qemu-kvm-1.2.0/block.c:1479-1508 | a woken request scans again and is tracked only if nothing overlaps; otherwise it sleeps on a request that does |
| `CopyOnRead.BlockDriverState.Leave` | qemu-kvm-1.2.0/block.c:1413-1420 | removes exactly this request, wakes all that slept on it and lowers the counter for copy-on-read |
| `BlockMigration.StepKeepsInv` | qemu-kvm-1.2.0/block-migration.c:187-477 | every safe step keeps, for every sector: not yet bulk-sent, dirty, under a guest write, or its newest copy in the pipeline or on the destination is current |
| `BlockMigration.RunKeepsInv` | qemu-kvm-1.2.0/block-migration.c:187-477 | the invariant holds after every run of safe steps, with guest writes interleaved anywhere |
| `BlockMigration.StepExactly` | qemu-kvm-1.2.0/block-migration.c:187-477 | from a state with the invariant, a step keeps it if and only if it is safe |
| `BlockMigration.RunExactly` | qemu-kvm-1.2.0/block-migration.c:187-477 | the invariant holds throughout a run if and only if every step of it is safe |
| `BlockMigration.InOrderIsSafe` | qemu-kvm-1.2.0/block-migration.c:187-204 | a run in which reads of a chunk complete in submission order is safe |
| `BlockMigration.DestinationEqualsSource` | qemu-kvm-1.2.0/block-migration.c:619-658 | with the guest stopped, nothing dirty and nothing left in the pipeline, loading the stream gives the source on every sector of every device |
| `BlockMigration.LoadIsView` | qemu-kvm-1.2.0/block-migration.c:660-735 | loading a stream gives each sector what the last block holding it says |
| `BlockMigration.ReadsAreCounted` | qemu-kvm-1.2.0/block-migration.c:198-203 | in every run the asynchronous reads issued are submitted + read_done + transferred, and read_done is the length of blk_list |
| `BlockMigration.RunKeepsMarks` | qemu-kvm-1.2.0/block-migration.c:153-173 | in every run a chunk marked in flight has a read in flight, so draining clears every mark |
| `BlockMigrationHistory.MarksExactly` | qemu-kvm-1.2.0/block-migration.c:153-204 | in every run a chunk is marked in flight if and only if a background read of it was begun and none of it has completed since |
| `BlockMigrationHistory.OneReadAtATime` | qemu-kvm-1.2.0/block-migration.c:365-430 | so no second background read of a chunk can begin while one is in flight |
| `BlockMigrationHistory.DirtyExactly` | qemu-kvm-1.2.0/block-migration.c:365-430 | in every run a chunk is dirty if and only if a guest write reached into it after it was last taken for sending |
| `BlockMigrationHistory.BulkOnce` | qemu-kvm-1.2.0/block-migration.c:206-260 | in every run the bulk cursor only moves forward, and each bulk read moves it to the end of the chunk it reads |
| `BlockMigration.CompletionExactly` | qemu-kvm-1.2.0/block-migration.c:187-204 | the completion of a read keeps a clean sector current if and only if a later read of it is in flight or the reads before it did not see another value |
| `BlockMigrationCode.BlkMigState.FlushBlks` | qemu-kvm-1.2.0/block-migration.c:447-477 | moves completed blocks to the stream in order until none is left, the rate limit stops it or a block's read had failed, whose error it reports; a run of the machine |
| `BlockMigrationCode.BlkMigState.MigSaveDeviceBulk` | qemu-kvm-1.2.0/block-migration.c:206-260 | reads exactly one chunk: that of the first sector at or after the cursor which is allocated, with a shared base, or of the cursor itself; nothing past the last; the cursor moves past it, its dirty bit is cleared, and the result says whether the bulk phase is over |
| `BlockMigrationCode.BlkMigState.SkipUnallocated` | qemu-kvm-1.2.0/block-migration.c:214-220 | passes over unallocated sectors only, and stops at the first allocated one or the end |
| `BlockMigrationCode.BlkMigState.constructor` | qemu-kvm-1.2.0/block-migration.c:544-569 | set-up leaves every cursor at 0, no chunk dirty or marked and nothing read or sent: the initial state of the machine |
| `BlockMigrationCode.BlkMigState.BlkMigReadCb` | qemu-kvm-1.2.0/block-migration.c:187-204 | a finished read goes to the end of blk_list, clears its mark and moves the counters |
| `BlockMigrationCode.BlkMigState.MigSaveDeviceDirty` | qemu-kvm-1.2.0/block-migration.c:365-430 | from the cursor passes only clean, unmarked chunks; at the first dirty chunk asks for a drain if and only if it is marked, and otherwise takes it, in the background or at once; done if and only if there is none; a synchronous read that fails leaves it dirty and unsent |
| `BlockMigrationCode.BlkMigState.SaveDirtyBlockSync` | qemu-kvm-1.2.0/block-migration.c:432-445 | sends one dirty chunk, strictly fewer remain; after a failed read nothing is sent or cleaned and it asks to be called again; returns false only when every cursor is at its end |
| `BlockMigrationCode.BlkMigState.SendAllDirty` | qemu-kvm-1.2.0/block-migration.c:640-642 | the loop ends with every chunk clean, however often reads fail before they succeed, and leaves the last error in the file, none exactly if no read failed |
| `BlockMigrationCode.BlkMigState.ResetDirtyCursor` | qemu-kvm-1.2.0/block-migration.c:356-363 | every cursor returns to 0 |
| `BlockMigrationCode.BlkMigState.BlockSaveComplete` | qemu-kvm-1.2.0/block-migration.c:619-658 | a failed read among the flushed blocks ends it with that error and nothing more sent; otherwise the synchronous loop ends with every chunk clean, the last error of its reads is returned, and the destination equals the source if and only if the flush left nothing new behind, in particular if it was not cut short |
| `BlockMigrationCode.CompletedExactly` | qemu-kvm-1.2.0/block-migration.c:619-658 | once every dirty chunk was sent, the destination equals the source if and only if, of each clean sector in the blocks left behind, the newest copy there is what the stream showed already |
| `BlockMigrationCode.CompleteRun` | qemu-kvm-1.2.0/block-migration.c:544-658 | set-up, any safe run, completion: every chunk ends clean and the destination equals the source if and only if the last flush left nothing new behind |
| `BlockMigrationCode.ScanIsRun` | qemu-kvm-1.2.0/block-migration.c:372-425 | moving the cursor over clean chunks is a run of the machine |
| `BlockMigrationCode.Receiver.BlockLoad` | qemu-kvm-1.2.0/block-migration.c:660-735 | applies device blocks in stream order, cut to the length of the device here, up to the end mark; an unknown device, one without sectors, a sector past its end, a failed write and an unknown record each end it with their error, the earlier blocks applied and only the sectors of a failed write in doubt |
| `BlockMigrationCode.SameLengthsLoadStream` | qemu-kvm-1.2.0/block-migration.c:691-714 | between devices of equal length the blocks written are exactly those sent |
| `BlockMigrationCode.FittedIs` | qemu-kvm-1.2.0/block-migration.c:701-705 | a block written ends a chunk after its start or with the device, whichever comes first |
| `BlockMigrationLimits.CutFlushLosesData` | qemu-kvm-1.2.0/block-migration.c:447-477 | a run in order whose last flush is cut short: nothing is dirty and the destination differs |
| `BlockMigrationLimits.OutOfOrderLosesData` | qemu-kvm-1.2.0/block-migration.c:252-257 | a run in which two reads of a chunk complete out of order: all is sent and the destination differs |
| `Xbzrle.ReadLengthUndoes` | qemu-kvm-1.2.0/cutils.c:404-431 | decoding a length undoes encoding it, with anything behind |
| `Xbzrle.LengthUndoesRead` | qemu-kvm-1.2.0/cutils.c:404-431 | encoding undoes decoding exactly for the codes without a redundant zero byte |
| `Xbzrle.RoundTrip` | qemu-kvm-1.2.0/savevm.c:2406-2553 | decoding the code of (old, new) over old gives new, for every two pages |
| `Xbzrle.EmptyCode` | qemu-kvm-1.2.0/savevm.c:2406-2504 | the code is empty exactly when the pages are equal |
| `XbzrleFormat.LengthIsUleb` | qemu-kvm-1.2.0/cutils.c:404-415 | a length is ULEB128: seven bits in each byte, low bits first, the top bit set on all but the last |
| `XbzrleFormat.CarriesChanges` | qemu-kvm-1.2.0/savevm.c:2406-2504 | a code carries each changed byte once, and two lengths of one or two bytes for each run of them |
| `XbzrleFormat.DocumentedExample` | qemu-kvm-1.2.0/docs/xbzrle.txt:58-72 | the example of the documentation has the 24-byte code given there |
| `Xbzrle.EncodeBuffer` | qemu-kvm-1.2.0/savevm.c:2406-2504 | the byte loop with its comparisons and bit test on whole words returns the code, 0 for equal pages; -1 exactly if the code does not fit, where a page ending with an unchanged byte needs two bytes of room more |
| `Xbzrle.TrickIsExact` | qemu-kvm-1.2.0/savevm.c:2473-2491 | the bit test on the exclusive or of two words is positive if and only if some byte of them agrees |
| `Xbzrle.SameLongExactly` | qemu-kvm-1.2.0/savevm.c:2431-2437 | two words are equal if and only if all their bytes are |
| `Xbzrle.DecodeBuffer` | qemu-kvm-1.2.0/savevm.c:2506-2553 | rewrites the page in place to the decoded one; on a malformed code, and only then, returns -1 and leaves what the runs before the malformed one did |
| `Xbzrle.EncodeThenDecode` | qemu-kvm-1.2.0/savevm.c:2406-2553 | the two routines together turn the old page into the new one |
| `RamMigration.RecordReachesPage` | qemu-kvm-1.2.0/arch_init.c:265-275 | a record, with the CONTINUE flag or without, reaches the page it was made from |
| `RamMigration.SendArrives` | qemu-kvm-1.2.0/arch_init.c:343-407 | after one page is sent, even while the guest writes it, the receiver's replay has the value sent |
| `RamMigration.StepKeepsInv` | qemu-kvm-1.2.0/arch_init.c:279-407 | every step but a stale duplicate keeps: each page is dirty, in the log or equal on both sides; each cached page equals the receiver's before the last stage; the receiver's current block is last_block |
| `RamMigration.RunKeepsInv` | qemu-kvm-1.2.0/arch_init.c:279-407 | the invariant after every run of guest writes, log syncs and sends without a stale duplicate |
| `RamMigration.PlainRunKeepsInv` | qemu-kvm-1.2.0/arch_init.c:343-407 | with XBZRLE off, the invariant after every run |
| `RamMigration.DupExactly` | qemu-kvm-1.2.0/arch_init.c:366-386 | the cache stays coherent over a duplicate page sent before the last stage if and only if the page is not cached or equals the cached copy |
| `RamMigration.RunExactly` | qemu-kvm-1.2.0/arch_init.c:279-407 | the invariant holds throughout a run if and only if no stale duplicate is sent in it |
| `RamMigration.NothingSentYet` | qemu-kvm-1.2.0/arch_init.c:343-407 | in every run, until the first block is sent all pages are dirty and none is cached |
| `RamMigration.IdenticalRam` | qemu-kvm-1.2.0/arch_init.c:602-624 | once nothing is dirty, replaying the stream gives the sender's RAM |
| `RamMigrationCode.PassedAll` | qemu-kvm-1.2.0/arch_init.c:388-402 | a full cycle of the scan over all blocks passes every page |
| `RamMigrationCode.RamSave.SaveXbzrlePage` | qemu-kvm-1.2.0/arch_init.c:279-330 | sends nothing, a delta, or asks for a raw page, and updates the cache, exactly as the protocol's send step does with the contents seen at the two points where the page is copied |
| `RamMigrationCode.RamSave.SavePage` | qemu-kvm-1.2.0/arch_init.c:355-387 | one dirty page, which the guest may write meanwhile: its bit is cleared, and record, cache, memory and log change as in the protocol's send step with what was seen of the page |
| `RamMigrationCode.RamSave.RamSaveBlock` | qemu-kvm-1.2.0/arch_init.c:343-407 | whenever it returns at all: -1 if and only if no page is dirty; a positive count if and only if some dirty page produces a record, and then exactly one record is added, of the first such page from the last position on, that position is kept, and exactly the dirty bits from the old position to it are cleared; otherwise nothing is sent and every bit is cleared; the whole call is a run of sends |
| `RamMigrationStream.SentWithinCycle` | qemu-kvm-1.2.0/arch_init.c:343-407 | over every series of calls, with any guest writes between, a page ready to be sent waits for fewer moves of the scan than there are pages between, hence less than one cycle |
| `RamMigrationStream.SamePageStarves` | qemu-kvm-1.2.0/arch_init.c:343-407 | a page written again before every call is sent every time while another waits, for any number of calls |
| `RamMigrationStream.KeepSaving` | qemu-kvm-1.2.0/arch_init.c:343-407 | the code itself, called again and again while the guest writes other pages, sends the page or sends one other page per call within that bound |
| `RamMigrationStream.ContinueExactly` | qemu-kvm-1.2.0/arch_init.c:265-275 | in every run the CONTINUE flag is set on exactly the records whose block is that of the record before |
| `RamMigrationStream.RecordKinds` | qemu-kvm-1.2.0/arch_init.c:355-387 | which of the duplicate byte, the delta, nothing and the raw page is sent, for every page the guest leaves alone |
| `RamMigrationCode.ScanEndsExactly` | qemu-kvm-1.2.0/arch_init.c:343-407 | the loop ends if and only if a block was sent before or some dirty page will produce a record |
| `RamMigrationCode.NothingDirtyRunsForEver` | qemu-kvm-1.2.0/arch_init.c:350-402 | before any block was sent and with nothing dirty, the loop goes on after every number of turns |
| `RamMigrationCode.ReachableEnds` | qemu-kvm-1.2.0/arch_init.c:343-407 | in every reachable state the loop ends, in ram_save_block and after the log sync of ram_save_complete |
| `RamMigrationCode.RamSave.RamSaveSetup` | qemu-kvm-1.2.0/arch_init.c:487-533 | every page of every block is marked dirty and the protocol is in its initial state |
| `RamMigrationCode.RamSave.RamSaveComplete` | qemu-kvm-1.2.0/arch_init.c:602-624 | with the guest stopped the loop ends within dirty pages + 1 calls and the replayed stream gives identical RAM; it can start exactly where its scan ends |
| `RamMigrationCode.CompleteRun` | qemu-kvm-1.2.0/arch_init.c:487-624 | set-up, any run without a stale duplicate, completion: replaying the stream gives the sender's RAM |
| `RamMigrationCode.LastStageSends` | qemu-kvm-1.2.0/arch_init.c:343-407 | in the last stage sends keep the invariant with no assumption on duplicates |
| `RamMigrationCode.RamReceiver.RamLoad` | qemu-kvm-1.2.0/arch_init.c:697-805 | takes page records in order as the replay does up to the end mark; -EINVAL exactly at the first block list that does not agree or record that does not fit, delta while XBZRLE is off or delta longer than a page; then the memory is that of the replay but for what the rejected record did |
| `RamMigrationCode.RamReceiver.AgreesExactly` | qemu-kvm-1.2.0/arch_init.c:716-750 | a block list agrees if and only if every block of it exists here with its length |
| `RamMigrationCode.RamReceiver.CheckList` | qemu-kvm-1.2.0/arch_init.c:716-750 | the nested loops over the list and the blocks decide that |
| `RamMigrationCode.RejectedSparesOthers` | qemu-kvm-1.2.0/arch_init.c:626-695 | a rejected record changes no page but its own, and that only as a malformed delta |
| `RamMigrationLimits.DupLosesPage` | qemu-kvm-1.2.0/arch_init.c:366-386 | a run with XBZRLE in which a duplicate page makes the cache stale and the final RAM differ |
| `Tlb.Widen` | qemu-kvm-1.2.0/cputlb.c:215-234 | the shifting loop ends, for all masks, with the two addresses in agreement; for masks of high ones with the largest mask within both under which they agree |
| `Tlb.SizeMaskExactly` | qemu-kvm-1.2.0/cputlb.c:215-253 | the mask made of a size takes every offset into the page to 0 if and only if the size is a power of two |
| `Tlb.NewEntryIs` | qemu-kvm-1.2.0/cputlb.c:239-311 | a new entry sits in the slot of its page and matches that page for exactly the accesses the protection allows; where each access goes is stated by `Tlb.NewEntryServes` |
| `Tlb.NewEntryServes` | qemu-kvm-1.2.0/cputlb.c:239-311 | for every address: through a new entry a load goes to memory if and only if the page is RAM or ROM and not watched, a fetch if RAM or ROM, a store if writable RAM, dirty and not watched, and then to the byte of the host page at its own offset; else to a handler, or it misses off the page or without the right |
| `Tlb.NewEntryHost` | qemu-kvm-1.2.0/cputlb.c:283-311 | the host page computed from a new writable entry is the page it was made for, and stores go straight to it exactly if the section is dirty, writable, unwatched RAM |
| `Tlb.UpdatesAgree` | qemu-kvm-1.2.0/cputlb.c:146-157 | what setting dirty or resetting makes of a new entry is the new entry of the same page dirty or clean |
| `Tlb.ResetStores` | qemu-kvm-1.2.0/cputlb.c:146-157 | after a reset a store that went to memory in the range calls a handler; every other access is as before |
| `Tlb.SetDirtyStores` | qemu-kvm-1.2.0/cputlb.c:192-197 | afterwards the stores that called the handler go to memory again |
| `Tlb.RangeIs` | qemu-kvm-1.2.0/cputlb.c:146-157 | the range is the addresses from start on below its length, modulo 2^64 |
| `Tlb.SlotExactly` | qemu-kvm-1.2.0/cputlb.c:114-114 | two addresses share a slot if and only if bits 12 to 19 agree |
| `Tlb.OtherSlot` | qemu-kvm-1.2.0/cputlb.c:81-122 | an entry in another slot translates no address of the page |
| `Tlb.ResetEntryIs` | qemu-kvm-1.2.0/cputlb.c:146-157 | resetting an entry stops unlogged stores into the range and nothing else |
| `Tlb.CpuTlb.Flush` | qemu-kvm-1.2.0/cputlb.c:55-79 | every entry of every mode is empty, the large page region is cleared |
| `Tlb.CpuTlb.AddLargePage` | qemu-kvm-1.2.0/cputlb.c:215-234 | a first large page makes its own region, a later one widens it until the addresses agree; if the size is a power of two the region contains the new page and all those it held |
| `Tlb.CpuTlb.SetPage` | qemu-kvm-1.2.0/cputlb.c:239-311 | replaces exactly one entry, through which every load, store and fetch then goes where `Tlb.NewEntryServes` says, and records a large page with its region, for every size; a region that held every large page since the last full flush still does if the size is a power of two |
| `Tlb.CpuTlb.FlushPage` | qemu-kvm-1.2.0/cputlb.c:94-122 | an address of the region empties the whole table, any other exactly the entries of its page; if the region holds every large page, no entry of any mode is left that translates a page of the small or large guest page containing the address |
| `Tlb.FirstLargePage` | qemu-kvm-1.2.0/cputlb.c:94-122 | a first large page at 0, then a flush: the entry of page 0 stays if and only if the address is neither in page 0 nor under the mask of the size |
| `Tlb.OddSizeEscapes` | qemu-kvm-1.2.0/cputlb.c:239-254 | a large page of three small ones, a flush of the second: the first is still translated |
| `Tlb.NoneEscapesExactly` | qemu-kvm-1.2.0/cputlb.c:215-254 | for a size of whole pages, no address of the page escapes if and only if the size is a power of two |
| `Tlb.ResetDirtyAll` | qemu-kvm-1.2.0/cputlb.c:174-190 | every entry of every mode of every CPU is reset: none allows an unlogged store into the host range, other entries and all translations are unchanged |
| `Tlb.CpuTlb.SetDirty` | qemu-kvm-1.2.0/cputlb.c:192-211 | exactly the not-dirty entries of the page store directly again |
| `Words.NonZero` | qemu-kvm-1.2.0/bitops.h:31-61 | a word is not zero exactly when one of its 64 bits is set |
| `Words.BitLastWordMask` | qemu-kvm-1.2.0/bitmap.h:58-62 | the mask has exactly the bits below the number of bits in the last word |
| `Words.FirstSet` | qemu-kvm-1.2.0/bitops.h:31-61 | the binary search of bitops_ffsl finds the least set bit of every word but 0 |
| `Words.LastSet` | qemu-kvm-1.2.0/bitops.h:69-99 | the binary search of bitops_flsl finds the greatest set bit of every word but 0 |
| `Words.FirstZero` | qemu-kvm-1.2.0/bitops.h:107-110 | ffz finds the least clear bit of every word but all ones |
| `BitOps.FindNextBit` | qemu-kvm-1.2.0/bitops.c:21-64 | the least set bit from offset on below size, or size, for every size and offset |
| `BitOps.FindNextZeroBit` | qemu-kvm-1.2.0/bitops.c:70-113 | the least clear bit from offset on below size, or size |
| `BitOps.FindLastBit` | qemu-kvm-1.2.0/bitops.c:115-142 | the greatest set bit below size, or size exactly when there is none |
| `Bitmap.Set` | qemu-kvm-1.2.0/bitmap.c:160-178 | exactly bits [start, start + nr) become one |
| `Bitmap.Clear` | qemu-kvm-1.2.0/bitmap.c:180-198 | exactly bits [start, start + nr) become zero |
| `Bitmap.FindNextZeroArea` | qemu-kvm-1.2.0/bitmap.c:214-237 | for a mask one less than a power of two: the least aligned index from start on whose nr bits are clear and within size; otherwise, and only then, a value beyond size, which is an aligned index plus nr; for nr 0 the next clear bit, rounded up; the loop ends |
| `Bitmap.AlignUpLeast` | qemu-kvm-1.2.0/bitmap.c:200-200 | rounding up gives the least multiple not below the index |
| `Bitmap.AlignMaskIs` | qemu-kvm-1.2.0/bitmap.c:200-200 | on 64-bit words, adding a mask one less than a power of two and clearing its bits rounds up to the next multiple, where nothing wraps around |
| `Bitmap.Empty` | qemu-kvm-1.2.0/bitmap.c:39-55 | true exactly when none of the first n bits is set, whatever the rest of the last word |
| `Bitmap.Full` | qemu-kvm-1.2.0/bitmap.c:57-74 | true exactly when all of the first n bits are set |
| `Bitmap.Equal` | qemu-kvm-1.2.0/bitmap.c:76-94 | true exactly when the first n bits agree |
| `Bitmap.Intersects` | qemu-kvm-1.2.0/bitmap.c:239-256 | true exactly when a bit among the first n is set in both |
| `DirtyBitmap.CountOneBit` | qemu-kvm-1.2.0/block.c:1663-1689 | changing one bit changes the number of set bits by one in its direction |
| `DirtyBitmap.Device.SetDirtyBitmap` | qemu-kvm-1.2.0/block.c:1663-1689 | exactly the chunks from the first to the last sector become dirty or clean, dirty_count stays the number of set bits, every word index is in bounds |
| `DirtyBitmap.Device.SetDirtyTracking` | qemu-kvm-1.2.0/block.c:3793-3812 | a fresh bitmap has no bit set; enabling while enabled keeps the count right if and only if it was 0 |
| `DirtyBitmap.WordsForLeast` | qemu-kvm-1.2.0/block.c:3800-3804 | the bitmap has the fewest words whose bits stand for all chunks |
| `DirtyBitmap.EnabledTwice` | qemu-kvm-1.2.0/block.c:3793-3812 | tracking enabled, a write, tracking enabled again: a chunk is dirty and the count is 0 |
| `DirtyBitmap.Device.GetDirty` | qemu-kvm-1.2.0/block.c:3814-3825 | the bit of the sector's chunk, false without tracking or past the end; the word index is in bounds |
| `DirtyBitmap.Device.GetDirtyCount` | qemu-kvm-1.2.0/block.c:3833-3836 | 0 exactly when no chunk is dirty |
| `Multiwrite.IovecConcat` | qemu-kvm-1.2.0/cutils.c:191-210 | appends exactly the bytes asked for, without empty pieces, in at most as many pieces as the source has |
| `Multiwrite.FoldAt` | qemu-kvm-1.2.0/block.c:2968-2986 | a folded request holds the later request where that is, the earlier one before it, and nothing after it |
| `Multiwrite.MergePreservesMeaning` | qemu-kvm-1.2.0/block.c:2944-2998 | where every dropped byte is written again later, the remaining requests leave every disk as the sorted ones do |
| `Multiwrite.MergeSafeExactly` | qemu-kvm-1.2.0/block.c:2944-2998 | merging is safe for every disk and all data of the given sectors and piece sizes if and only if every dropped byte is written again later |
| `Multiwrite.ShorterWriteLosesTail` | qemu-kvm-1.2.0/block.c:2968-2986 | two writes at sector 0, the second shorter, break that condition |
| `Multiwrite.PiecesBounded` | qemu-kvm-1.2.0/block.c:2964-2966 | no remaining request has more than IOV_MAX pieces |
| `Multiwrite.ApartForAReason` | qemu-kvm-1.2.0/block.c:2955-2966 | between any two neighbours that remain there is a gap, or folding the next request into the first would have exceeded IOV_MAX pieces |
| `Multiwrite.TouchingIsFolded` | qemu-kvm-1.2.0/block.c:2955-2966 | a request is folded in if and only if it begins no later than the gathered one ends and the pieces fit |
| `Multiwrite.FewPiecesLeaveGaps` | qemu-kvm-1.2.0/block.c:2944-2998 | requests whose pieces all fit in one are left with a gap between any two neighbours |
| `MultiwriteCode.Merge` | qemu-kvm-1.2.0/block.c:2944-2998 | the array is rewritten in place to the merged requests; callbacks and error fields stay where they are |
| `MultiwriteCode.FirstErrorIsFirst` | qemu-kvm-1.2.0/block.c:2906-2921 | the error kept is that of the first completion that failed |
| `MultiwriteCode.MultiwriteCB.Complete` | qemu-kvm-1.2.0/block.c:2906-2921 | no callback runs before the last completion; with it all run |
| `MultiwriteCode.MultiwriteCB.UserCb` | qemu-kvm-1.2.0/block.c:2893-2904 | every callback is called once, in order, with the recorded error |
| `MultiwriteCode.AioMultiwrite` | qemu-kvm-1.2.0/block.c:3014-3054 | without a medium every request gets the error and nothing is submitted; otherwise the merged requests are, and all original callbacks are registered |
| `MultiwriteCode.CompleteAll` | qemu-kvm-1.2.0/block.c:2893-2921 | after all completions every original callback has run exactly once with the first error, before that none |
| `ImageChain.Image.IsAllocated` | qemu-kvm-1.2.0/block.c:2320-2341 | the state of the sector, holding for pnum sectors clamped to the image, or the error of the driver with pnum 0; else pnum is 0 exactly past the end or when nothing is asked |
| `ImageChain.IsAllocatedAbove` | qemu-kvm-1.2.0/block.c:2391-2426 | the error of the first image whose driver fails before the answer is known; otherwise, for chains of any length, an answer that holds for all pnum sectors; pnum 0 exactly when nothing was asked or an image met ends before the sector; on a no, top shows what base shows |
| `ImageChain.AboveExactly` | qemu-kvm-1.2.0/block.c:2391-2426 | a sector is held above base if and only if some image of the chain holds it with base neither that image nor above it |
| `ImageChain.ShortBackingStalls` | qemu-kvm-1.2.0/block.c:2391-2426 | a two-image chain with a shorter backing file on which pnum is 0 |
| `ImageChain.Commit` | qemu-kvm-1.2.0/block.c:1276-1360 | what the guest sees never changes; exactly the allocated sectors below a point are written to the backing file, which shows what the guest sees up to there; the point is the end of the image if and only if no allocated sector lies past the backing file, and otherwise the result is -EIO; the overlay is emptied exactly if the driver could; which error comes when, and the result of make_empty last |
| `ImageChain.CopyDown` | qemu-kvm-1.2.0/block.c:1332-1353 | where no query fails the loop ends and has written exactly the allocated sectors up to a point, the end of the image or, with -EIO, an earlier one |
| `ImageChain.CommitTurn` | qemu-kvm-1.2.0/block.c:1332-1353 | one turn moves on if and only if the query does not fail; what the guest sees never changes, and of the sectors passed exactly the allocated ones are written to the backing file |
| `ByteIo.Device.Pread` | qemu-kvm-1.2.0/block.c:1703-1744 | the slice of the flat byte array for every offset and count, an error exactly when it leaves the device |
| `ByteIo.Device.Pwrite` | qemu-kvm-1.2.0/block.c:1746-1795 | overwrites exactly the slice; on an error, exactly when it leaves the device, at most a proper prefix was written |
| `ByteIo.Device.WriteThenRead` | qemu-kvm-1.2.0/block.c:1703-1795 | reading back after a write gives what was written |
| `BottomHalves.RunsNeedSchedules` | qemu-kvm-1.2.0/async.c:54-76 | between two runs of a callback it was scheduled again |
| `BottomHalves.Context.BhNew` | qemu-kvm-1.2.0/async.c:44-54 | a new node, not scheduled, is put in front of the list |
| `BottomHalves.Context.BhSchedule` | qemu-kvm-1.2.0/async.c:92-109 | has an effect only if the node was not scheduled |
| `BottomHalves.Context.BhCancel` | qemu-kvm-1.2.0/async.c:111-114 | gives up a pending callback |
| `BottomHalves.Context.BhDelete` | qemu-kvm-1.2.0/async.c:116-120 | marks the node and keeps it linked |
| `BottomHalves.Context.BhPoll` | qemu-kvm-1.2.0/async.c:56-90 | with arbitrary callbacks, nested polls included: every node scheduled and not deleted at the start has its callback called or given up before the end, every node the walk follows is still linked, the walk ends, a nested poll unlinks nothing, the outermost leaves exactly the nodes never deleted, in order; the result is true if and only if this poll itself, not one nested in it, called a callback that was not idle; if callbacks do nothing further, exactly the scheduled, undeleted nodes run, in order |
| `BottomHalves.Context.RemoveDeleted` | qemu-kvm-1.2.0/async.c:76-87 | unlinks and frees exactly the deleted nodes, keeping the order of the others |
| `BottomHalves.Session` | qemu-kvm-1.2.0/async.c:44-121 | over every sequence of calls each schedule leads to at most one callback, of the kind it asked for, nothing runs after it was deleted or outside a poll, and what is pending when a poll begins has been run or given up when it ends |
| `BufferedFile.FlushEmpties` | qemu-kvm-1.2.0/buffered_file.c:74-112 | a flush leaves bytes behind only if the backend is not ready or failed |
| `BufferedFile.DrainExactly` | qemu-kvm-1.2.0/buffered_file.c:128-155 | a loop of puts is exactly the first k answers of the backend, each put made with bytes left, within the limit and answered with some, and one reason to stop: all sent, limit passed, or the next answer none, -EAGAIN or not positive |
| `BufferedFile.PutCounts` | qemu-kvm-1.2.0/buffered_file.c:114-171 | a write counts against the allowance exactly what it sends past the buffer |
| `BufferedFile.PutConserves` | qemu-kvm-1.2.0/buffered_file.c:114-171 | after a safe write, while no error is recorded, delivered and buffered bytes are the accepted ones in order; a write not taken whole records an error |
| `BufferedFile.PutKeptExactly` | qemu-kvm-1.2.0/buffered_file.c:74-171 | a write of n bytes is taken whole and in order, or leaves an error on record, whatever the bytes, if and only if no answer of 0 ends its direct loop, and after one that ends the flush no new byte is sent past what is left |
| `BufferedFile.ZeroAnswerReorders` | qemu-kvm-1.2.0/buffered_file.c:97-101 | a backend answer of 0 records no error and lets a new byte overtake a buffered one |
| `BufferedFile.ZeroAnswerLosesWrite` | qemu-kvm-1.2.0/buffered_file.c:144-149 | a write is refused with part of it delivered and no error recorded |
| `BufferedFile.ZeroAnswerErasesError` | qemu-kvm-1.2.0/buffered_file.c:144-149 | an error the flush recorded is erased |
| `BufferedFile.NoZeroIsSafe` | qemu-kvm-1.2.0/buffered_file.c:74-171 | with a backend that never answers 0 every run is safe |
| `BufferedFile.File.Append` | qemu-kvm-1.2.0/buffered_file.c:49-72 | the buffer grows as needed and never exceeds its capacity |
| `BufferedFile.File.Flush` | qemu-kvm-1.2.0/buffered_file.c:74-112 | the loop over partial puts performs the flush of the specification |
| `BufferedFile.File.PutBuffer` | qemu-kvm-1.2.0/buffered_file.c:114-171 | performs the write of the specification and keeps conservation if the write is safe; notifies exactly on an empty write at 0 within the limit |
| `BufferedFile.File.Close` | qemu-kvm-1.2.0/buffered_file.c:173-194 | a close that ends without an error has delivered everything accepted |
| `BufferedFile.File.RateTick` | qemu-kvm-1.2.0/buffered_file.c:243-263 | resets the allowance and flushes unless frozen or failed; conservation is kept |
| `BufferedFile.File.RateLimit` | qemu-kvm-1.2.0/buffered_file.c:202-218 | 0 exactly if there is no error, no freeze and allowance left |
| `BufferedFile.Run` | qemu-kvm-1.2.0/buffered_file.c:49-263 | over every mix of safe writes, ticks and rate changes, then a close: nothing is lost, repeated or reordered |

## Left out

- I/O errors of the image files during copy-on-read and commit, other than ranges past the end: those protocols are modelled with requests that succeed or are dropped as a whole.
- Write atomicity: a sector is the unit that is read and written at once; requests of several sectors interleave sector by sector.
- The literal 256-entry tables of `aes.c`: the S-box is any byte permutation with its inverse and the other tables are given by the equations at their head.
- Widths: sizes, sector numbers and bit indices are unbounded integers, so overflow of `sector << 9` and the like is not modelled; TLB addresses, bitmap words, the words of XBZRLE and the mask arithmetic of `bitmap.c` are 64 bits wide.
- `Bitmap.FindNextZeroArea`: requires a mask one less than a power of two, as its documentation does, and that size, mask and nr together do not wrap around.
- `BlockMigrationCode.BlkMigState.MigSaveDeviceDirty`: returns where the code calls bdrv_drain_all, and is called again after the drain.
- `BlockMigrationCode.Receiver.BlockLoad`: on a device longer than the source, the bytes past the end of a sender's last block are not modelled; nor are errors of the incoming file itself.
- `RamMigrationCode.RamSave.RamSaveBlock`: the guest leaves the pages alone during the call; writes that race with a send are covered by `SavePage` and by the steps of the machine in `RamMigration`.
- `RamMigrationCode.RamReceiver.RamLoad`: a record whose offset lies outside its block is rejected, where the code writes past the block; errors of the incoming file itself are not modelled.
- `BufferedFile.File.Close`: the wait for an unready backend lasts only as long as the backend has answers left; a close still waiting then is reported as not done.
- `MultiwriteCode.AioMultiwrite`: the order qsort chooses among requests of equal sector is a parameter, and freeing the temporary vectors is not modelled.
- `ImageChain.Commit`: does not reopen a read-only backing file; it requires, once it starts, that the overlay's driver answers allocation queries, without which the loop does not end.
- `ImageChain.CopyDown`: requires the same, as `ImageChain.CommitTurn` shows it must.
- The XBZRLE page cache is a map; its hashing, eviction and resizing are not modelled beyond an entry being absent or present.
- Rate limits, bandwidth estimates and timers: where a limit decides, the choice is a parameter or any choice.
- Image opening, probing, format drivers, I/O throttling, the aio select loop, coroutine back-ends, monitor and user interface code.
- The memory layout behind `bmds_set_aio_inflight`: the in-flight marks of a device are a set of chunks.
- `slow_bitmap_and`, `_or`, `_xor`, `_andnot` and `_complement`: each applies one operation to every word; what is said about `Bitmap.Equal` and `Bitmap.Intersects` covers the masking of the last word.
- `Tlb.NewEntryServes`: states where the byte at an address goes; the code splits an access that spans two pages, and which handler an access reaches is not modelled.
- TLB state that only speeds up lookup (`tb_jmp_cache`, `current_tb`, the iotlb) and the choice of memory region behind a page, which is a parameter.
