# Verified models of QEMU's block layer, event loop, AES and migration output

This project models the parts of qemu-kvm 0.12.1.2 that move guest data, and proves what they are for:
that a live block migration delivers the disk, that copy-on-read and commit never change what the guest
sees, that list walks survive whatever their callbacks do, that AES decryption undoes encryption, and
that the word-at-a-time and buffered code does what its bit-by-bit and byte-by-byte meaning says.

| file | what it models |
|---|---|
| BlockMigration.dfy | state of a live block migration, one lemma per kind of step, the convergence theorem |
| MigrationRun.dfy | what a run does, as functions of its start and of the outside world; stage 3 seen from its start |
| LiveMigration.dfy | the imperative source side (`block_mig_state`), whole runs, loading |
| MigrationWire.dfy, MigrationBytes.dfy | the bytes of the block migration stream, and the records they carry |
| CopyOnRead.dfy | tracked requests and copy-on-read as a transition system of concurrent coroutines |
| EventLoop.dfy | bottom halves, descriptor handlers and the re-entrant `aio_poll` |
| AesTables.dfy, AesRounds.dfy, AesCipher.dfy | S-boxes, field arithmetic and rounds, FIPS 197 as a specification |
| Aes.dfy, AesCbc.dfy | key schedules, T-table rounds and CBC as `aes.c` does them, in place on arrays |
| ImageChain.dfy, ImageAllocation.dfy, ImageCommit.dfy | backing chains, allocation queries, commit |
| ByteIo.dfy | byte ranges over sector I/O |
| WriteMerging.dfy, Multiwrite.dfy, MultiwriteCompletion.dfy | merging a batch of writes, submitting it, counting completions |
| Words.dfy, Bitmaps.dfy | bits of 64-bit words, searches and range updates of bitmaps |
| BufferedFile.dfy | the buffered output of a migration |
| Options.dfy | a value that may be absent |

`dafny verify dfyconfig.toml` checks everything.

## How outside behaviour enters

- A callback of the event loop is a tree of commands, so that every behaviour of callbacks is an input,
  nested polls included. Memory is a map from pointers; following a freed pointer would be a lookup
  outside the map, so the proof that lookups are defined is the proof that nothing freed is touched.
- Asynchronous reads of a migration pick up their sectors one at a time, in any order, interleaved with
  guest writes. Rate limits and read failures are parameters.
- Drivers of images answer and, if marked as faulty, fail as they like (`:= *` and `:|`); a failing
  sector write may leave anything in the sectors it was for.
- A device under byte I/O serves or fails its requests by a list; a failing write reaches any of its
  sectors. The backend of a buffered file answers from a list of return values. Submissions and
  completions of a multiwrite are lists of answers and results.

## Where the code does less than its description

- Stage 3 of a block migration discards blocks that its flushes did not reach (block-migration.c:347,
  :402): `Migrate` has the exact condition, `MigrateOneChunk` a run for every disk of one chunk. The rate
  limit is SIZE_MAX by then (migration.c:465), so flushes that reach nothing stand for an output that is
  still frozen (buffered_file.c:225).
- A chunk that runs past the end of its disk cannot be loaded (block-migration.c:519); a dirty one cannot
  even be read again (block-migration.c:315), but one already sent or still to be sent lets stage 3
  report success. `EntryFits` has the exact condition, `MigrateOneChunk` a run for every disk of less
  than a chunk; by `UnalignedNeverConverges` a disk of uneven size that is migrated in full never
  converges.
- With throttling on, the wait at block.c:2241 comes between the overlap check and the tracking of the
  request: `ThrottlingBreaks` shows that any overlapping pair can then meet, `ThrottlingLosesWrite` that
  a guest write is then lost.
- multiwrite_merge drops the tail of a request that ends after the one merged into it
  (block.c:3706): `SameDecision` is the exact condition per byte, `MergeDropsTail` what the merge does to
  every such pair, `TailCanBeLost` a batch.
- After a partial last block AES_cbc_encrypt leaves a chaining value in decryption that is not the
  ciphertext (aes.c:1311): `ChainingValuesAgree`.
- A backend that answers zero to a flush makes buffered_put_buffer deliver new bytes before buffered
  ones (buffered_file.c:96): `ZeroOvertakes`. After a failing answer to the put the offset is -EINVAL
  and the append reads before the caller's bytes (buffered_file.c:154); the model takes what memory
  holds there as a parameter. If the answer was an error, what was delivered stays a prefix of what was
  accepted; if it was zero, no error is recorded (savevm.c:433) and those bytes join the stream:
  `ZeroInPut`. `PutBuffer` has the exact condition over both.
- The comment on bdrv_is_allocated_above says that base is included; the code stops before it
  (block.c:2948, :2966), and so does the model.

bdrv_commit does not test the length it asks for (block.c:1549): if that failed, it would empty the overlay
without copying it (block.c:1552). No driver is hurt, because those that ask for their length
(block/raw.c:138, block/raw-posix.c:1182, :1282, :1405, block/raw-win32.c:418) cannot be emptied, and those
that can be emptied (block/qcow.c:1010, block/qcow2.c:1603, block/vdi.c:986) know their length: `Commit` is
safe with every driver of the tree. `CommitCanLose` shows what the interface leaves open,
`EmptyingKeepsView` when it would do no harm.

## Model

| member | source | states |
|---|---|---|
| LiveMigration.Migrate | qemu-kvm-0.12.1.2/block-migration.c:128-484 | over every interleaving of guest writes, asynchronous read completions, rate-limited flushes and stage 2 calls, all of them inputs: stage 3 succeeds exactly when no stage failed, the blocks it flushes were read and none of its own reads fails; if the guest has stopped, replaying the stream then makes every destination disk equal its source, from any starting contents, if and only if the state in which stage 3 began was safe and fitting, both decided before stage 3; disks of whole chunks always fit, and a fully migrated disk that is not one never converges |
| MigrationRun.EntryDecides | qemu-kvm-0.12.1.2/block-migration.c:411-484 | whether stage 3 loses anything is decided by the state it begins in, its rate limit and its budgets: exactly if a block its flushes do not reach is of a chunk neither dirty nor in the shared base, or a block it starts itself is of a chunk not in the shared base |
| MigrationRun.DrainedIsSafe | qemu-kvm-0.12.1.2/block-migration.c:338-368 | nothing in flight, the bulk phase over and a rate limit that lets the list be flushed: nothing is lost |
| MigrationRun.StageThreeSucceeds | qemu-kvm-0.12.1.2/block-migration.c:411-484 | whole disks, blocks that were read and no failing read: stage 3 succeeds |
| MigrationRun.IssuingForward | qemu-kvm-0.12.1.2/block-migration.c:443-452 | the reads submitted up to the rate limit are of chunks that are not dirty any more; chunks behind the cursor keep their dirty bits |
| MigrationRun.FinishingForward | qemu-kvm-0.12.1.2/block-migration.c:462-465 | the synchronous loop of stage 3 leaves pending blocks and dirty bits behind the cursor alone and ends with every device finished |
| BlockMigration.ConvergenceExact | qemu-kvm-0.12.1.2/block-migration.c:304-484 | the exact condition on the states themselves, both directions: nothing pending at the resend was lost and every block sent lies on its disk |
| BlockMigration.EnoughToConverge | qemu-kvm-0.12.1.2/block-migration.c:304-336 | invariant, resent dirty chunks, nothing lost and blocks that fit give a destination equal to the source |
| BlockMigration.NeededToConverge | qemu-kvm-0.12.1.2/block-migration.c:387-409 | a discarded pending block that was not harmless leaves some destination different from the source |
| LiveMigration.MigrateOneChunk | qemu-kvm-0.12.1.2/block-migration.c:304-409 | for every disk of one chunk or less, every rate limit and every pair of flush budgets of stage 3: a run in which the chunk is read in stage 2, stage 2 reports that it is done and stage 3 reports success; the destination converges exactly if a flush reached the block and the disk fills the chunk |
| MigrationRun.EntryFits | qemu-kvm-0.12.1.2/block-migration.c:304-465 | whether something runs past its disk when the dirty chunks are resent is decided by the state stage 3 begins in: exactly if a block already sent does, a block its flushes reach does, or past the last whole chunk of some disk the synchronous loop still has a sector that a shared base may not have |
| MigrationRun.WholeFits | qemu-kvm-0.12.1.2/block-migration.c:304-465 | disks of whole chunks always fit |
| BlockMigration.ResentOnDisk | qemu-kvm-0.12.1.2/block-migration.c:304-336 | the resend adds only blocks that lie on their disks |
| MigrationRun.OneChunkRun | qemu-kvm-0.12.1.2/block-migration.c:338-409 | the states of that run: stage 2 is completed, stage 3 succeeds, it is safe exactly if a flush reaches the block and fitting exactly if none does or the disk fills the chunk |
| BlockMigration.UnalignedNeverConverges | qemu-kvm-0.12.1.2/block-migration.c:304-336 | a fully migrated disk that is not a whole number of chunks never converges, because its last chunk does not fit |
| BlockMigration.GuestBeginKeeps | qemu-kvm-0.12.1.2/block.c:2352-2389 | a guest write being submitted keeps the migration invariant |
| BlockMigration.GuestTouchKeeps | qemu-kvm-0.12.1.2/block.c:2352-2389 | each sector a guest write changes on disk, before the dirty bit is set, keeps the invariant |
| BlockMigration.GuestEndKeeps | qemu-kvm-0.12.1.2/block.c:2387-2389 | marking the written chunks dirty at the end of a guest write keeps the invariant |
| BlockMigration.SampledKeeps | qemu-kvm-0.12.1.2/block-migration.c:141-211 | an asynchronous read picking up one sector, at any moment between submission and completion, keeps the invariant |
| BlockMigration.CompletedKeeps | qemu-kvm-0.12.1.2/block-migration.c:128-139 | moving a completed block to the list keeps the invariant |
| BlockMigration.FlushedKeeps | qemu-kvm-0.12.1.2/block-migration.c:338-368 | putting the head of the list on the stream keeps the invariant |
| BlockMigration.BulkIssuedKeeps | qemu-kvm-0.12.1.2/block-migration.c:141-211 | submitting an asynchronous bulk read, after skipping unallocated sectors of a shared base, keeps the invariant; no chunk is issued twice |
| BlockMigration.BulkSentKeeps | qemu-kvm-0.12.1.2/block-migration.c:141-211 | the synchronous form, read and sent at once, keeps the invariant |
| BlockMigration.BulkFinishedKeeps | qemu-kvm-0.12.1.2/block-migration.c:141-211 | reaching the end of a device keeps the invariant |
| BlockMigration.ResendingChunk | qemu-kvm-0.12.1.2/block-migration.c:304-336 | one dirty chunk resent: the chunks passed are on the stream as they are on disk and clean, nothing else changed |
| BlockMigration.LoadMeaning | qemu-kvm-0.12.1.2/block-migration.c:486-544 | loading succeeds exactly when every block fits, and then each sector holds what the stream said last about it or what it held before |
| LiveMigration.BlkMigState.ReadCb | qemu-kvm-0.12.1.2/block-migration.c:128-139 | the read callback moves the block; submitted, read_done and transferred keep adding up to the blocks issued and read_done stays the length of the list |
| LiveMigration.BlkMigState.FlushBlks | qemu-kvm-0.12.1.2/block-migration.c:338-368 | exactly the blocks taken from the front of the list go to the stream, in order, and the rate limit or a failed read is what stops it |
| LiveMigration.BlkMigState.SkipUnallocated | qemu-kvm-0.12.1.2/block-migration.c:150-156 | the cursor stops at the first allocated sector of a device with a shared base, everything skipped being unallocated |
| LiveMigration.BlkMigState.MigSaveDeviceBulk | qemu-kvm-0.12.1.2/block-migration.c:141-211 | one chunk at the cursor is issued or sent and the cursor moves past it, or the device is finished; on a failed read only the completed count moves |
| LiveMigration.BlkMigState.SaveBulkedBlock | qemu-kvm-0.12.1.2/block-migration.c:269-300 | there is more to do exactly while a device is not finished; a call whose read does not fail does to data, stream and percentage what the specification says and leaves strictly less to do |
| LiveMigration.BlkMigState.Pump | qemu-kvm-0.12.1.2/block-migration.c:436-460 | flush, submit reads up to the rate limit, flush: the exact new state, and exactly when it is free of errors |
| LiveMigration.BlkMigState.ReportProgress | qemu-kvm-0.12.1.2/block-migration.c:290-297 | a progress record is sent exactly when the percentage changed |
| LiveMigration.BlkMigState.SaveDirtyBlocks | qemu-kvm-0.12.1.2/block-migration.c:304-336 | it succeeds exactly when every dirty chunk lies on its disk as a whole and none of that many reads fails; then every dirty chunk of every device is on the stream as it is on disk |
| LiveMigration.BlkMigState.IsStage2Completed | qemu-kvm-0.12.1.2/block-migration.c:370-385 | true exactly when nothing is submitted and every device is finished |
| LiveMigration.BlkMigState.FinishBulk | qemu-kvm-0.12.1.2/block-migration.c:462-465 | the synchronous loop of stage 3 ends, however often reads fail; every device is then finished, and there is an error exactly when one of the reads it needs failed |
| LiveMigration.BlkMigState.SaveIterate | qemu-kvm-0.12.1.2/block-migration.c:411-460 | stages 1 and 2: exactly when they succeed and the exact state they leave, or an error and everything cleaned up; stage 2 reports that it is done exactly if nothing is in flight and every device is finished |
| LiveMigration.BlkMigState.SaveComplete | qemu-kvm-0.12.1.2/block-migration.c:462-484 | stage 3: exactly when it succeeds, and then, the guest having stopped, the destination converges exactly when the state it began in was safe and fitting |
| LiveMigration.BlkMigState.Run | qemu-kvm-0.12.1.2/block-migration.c:128-484 | any sequence of events: the state is the one the specification gives, with the invariant and the accounting kept, or the stream failed where it says so |
| LiveMigration.BlockLoad | qemu-kvm-0.12.1.2/block-migration.c:486-544 | one section of the stream is applied record by record up to its end marker |
| LiveMigration.LoadSections | qemu-kvm-0.12.1.2/block-migration.c:486-544 | loading section by section is loading the whole stream |
| MigrationWire.SectionRoundTrip | qemu-kvm-0.12.1.2/block-migration.c:80-94 | parsing the bytes of a section gives back its entries and leaves what follows untouched |
| MigrationWire.HeaderRoundTrip | qemu-kvm-0.12.1.2/block-migration.c:496-500 | sector or percentage and flags are both recovered from the packed header |
| MigrationWire.BeRoundTrip | qemu-kvm-0.12.1.2/block-migration.c:496-500 | big-endian numbers are read back as they were written |
| MigrationBytes.WireRoundTrip | qemu-kvm-0.12.1.2/block-migration.c:486-544 | a stream of records that ends with an end marker is loaded from its bytes record for record, for every naming of devices and coding of sectors |
| MigrationBytes.ConvergesOnTheWire | qemu-kvm-0.12.1.2/block-migration.c:80-94 | convergence of the records is convergence of the bytes |
| CopyOnRead.RunIsSafe | qemu-kvm-0.12.1.2/block.c:1623-1718 | in every state of every run with throttling off, tracked requests of which one is copy-on-read share no cluster, and every sector shows what the guest wrote to it last |
| CopyOnRead.RunFromInit | qemu-kvm-0.12.1.2/block.c:2214-2299 | the same for every run from an initial state, stated for each pair of requests |
| CopyOnRead.StepKeepsInv | qemu-kvm-0.12.1.2/block.c:1623-1718 | each step of each request, failures included, keeps the invariant |
| CopyOnRead.ViewStep | qemu-kvm-0.12.1.2/block.c:2148-2209 | the visible contents change only by guest writes: a write-back never shows |
| CopyOnRead.WaitSeesSharedClusters | qemu-kvm-0.12.1.2/block.c:1653-1682 | rounding only one of two requests to clusters is enough to see every shared cluster |
| CopyOnRead.CopyOnReadResult | qemu-kvm-0.12.1.2/block.c:2148-2209 | a copy-on-read that ends well returns what the device shows and has allocated every cluster it touched |
| CopyOnRead.ThrottlingBreaks | qemu-kvm-0.12.1.2/block.c:2235-2246 | with throttling on, every pair of requests with a common cluster, one of them copy-on-read, can be brought into it at once |
| CopyOnRead.ThrottlingLosesWrite | qemu-kvm-0.12.1.2/block.c:2235-2246 | and then, for every such pair of which one writes something new, a run loses the guest's write to the write-back |
| CopyOnRead.SomeStepEnabled | qemu-kvm-0.12.1.2/block.c:1684-1718 | while a request is not done some step can be taken: no deadlock |
| CopyOnRead.RunIsBounded | qemu-kvm-0.12.1.2/block.c:1684-1718 | every run is finite, whatever the schedule |
| CopyOnRead.StuckMeansDone | qemu-kvm-0.12.1.2/block.c:1684-1718 | a run that cannot go on has served every request |
| EventLoop.AioContext.BhNew | qemu-kvm-0.12.1.2/async.c:41-50 | a new bottom half heads the list, with a pointer never used before |
| EventLoop.AioContext.BhSchedule | qemu-kvm-0.12.1.2/async.c:90-106 | a bottom half already scheduled is left alone, otherwise it is scheduled, idle or not, and that is on record |
| EventLoop.AioContext.BhCancel | qemu-kvm-0.12.1.2/async.c:108-111 | only the scheduled flag of that bottom half changes |
| EventLoop.AioContext.BhDelete | qemu-kvm-0.12.1.2/async.c:113-117 | the bottom half is marked deleted and unscheduled, and stays linked |
| EventLoop.AioContext.WalkBhs | qemu-kvm-0.12.1.2/async.c:57-71 | under callbacks that create, schedule, cancel, delete or poll again: every bottom half there at the start has its turn in this walk, and in it is called exactly if by its history it is scheduled and not deleted at that moment; those pending at the start are run, cancelled or deleted by the end; no freed one is touched nor a deleted one called |
| EventLoop.AioContext.SweepBhs | qemu-kvm-0.12.1.2/async.c:73-85 | exactly the deleted bottom halves are freed |
| EventLoop.AioContext.AioBhPoll | qemu-kvm-0.12.1.2/async.c:52-88 | the whole poll: all of the above, turns included; only the outermost walk frees and it frees every deleted one; the result says whether it ran a non-idle one itself |
| EventLoop.VisitRan | qemu-kvm-0.12.1.2/async.c:60-69 | a visit to a pending bottom half, with whatever its callback did, is its turn: it was called |
| EventLoop.BhWalkStep | qemu-kvm-0.12.1.2/async.c:60-69 | one visit of the walk, with whatever its callback did, keeps what the walk knows |
| EventLoop.BhFreeKeeps | qemu-kvm-0.12.1.2/async.c:73-85 | unlinking and freeing a deleted bottom half while nobody walks keeps every list invariant |
| EventLoop.LegalSnoc | qemu-kvm-0.12.1.2/async.c:52-117 | what has to hold for a recorded event to be legal: calls only of live objects, frees once, of deleted objects, while nobody walks |
| EventLoop.AioContext.RunCmds | qemu-kvm-0.12.1.2/async.c:52-117 | any list of commands a callback may give, nested polls included, keeps the invariants and what enclosing walks rely on |
| EventLoop.AioContext.FindAioHandler | qemu-kvm-0.12.1.2/aio-posix.c:31-42 | the node found is the unique live node serving the descriptor |
| EventLoop.AioContext.SetFdHandler | qemu-kvm-0.12.1.2/aio-posix.c:44-92 | removal marks the node while somebody walks and frees it otherwise; installation reuses the live node or links a new one; at most one live node serves a descriptor |
| EventLoop.HandlersSetKeeps | qemu-kvm-0.12.1.2/aio-posix.c:44-92 | the same on the states: list invariants kept, enclosing walks undisturbed |
| EventLoop.AioContext.CallIfReady | qemu-kvm-0.12.1.2/aio-posix.c:137-152 | a callback runs exactly when its node is live, ready and has that callback |
| EventLoop.AioContext.VisitNode | qemu-kvm-0.12.1.2/aio-posix.c:131-163 | one step of the dispatch walk: the successor is taken after the callbacks and before the node may be freed, so it is a linked node; a deleted node is freed by the outermost walk |
| EventLoop.AioContext.AioDispatch | qemu-kvm-0.12.1.2/aio-posix.c:121-165 | under any callbacks, nested polls and removals included, no freed node is followed and no deleted handler called; the outermost walk frees what was deleted; the result says whether it called anything itself |
| EventLoop.NodeWalkStep | qemu-kvm-0.12.1.2/aio-posix.c:121-165 | one visit keeps what the dispatch walk knows about its list |
| EventLoop.AioContext.FillPollfds | qemu-kvm-0.12.1.2/aio-posix.c:193-222 | every pollfds_idx other than -1 points at the entry for that node's descriptor, even when an io_flush callback rebuilds the array; it is busy exactly when an io_flush callback it called itself answered nonzero |
| EventLoop.ClaimsRely | qemu-kvm-0.12.1.2/aio-posix.c:193-222 | callbacks keep the claims of the nodes already visited |
| EventLoop.AioContext.StoreRevents | qemu-kvm-0.12.1.2/aio-posix.c:235-242 | each node is told what g_poll answered for its own entry |
| EventLoop.AioContext.AioPoll | qemu-kvm-0.12.1.2/aio-posix.c:167-250 | the whole poll keeps all invariants; its result is true exactly when this poll itself, not one nested in a callback, ran a bottom half that is not idle, called a handler, or was told by an io_flush callback that there is something to wait for |
| Aes.SetEncryptKey | qemu-kvm-0.12.1.2/aes.c:731-827 | for 128, 192 and 256 bits the array holds the key expansion of section 5.2 of FIPS 197, and the two error returns |
| Aes.SetDecryptKey | qemu-kvm-0.12.1.2/aes.c:832-878 | after reversing and unmixing in place the array is a decryption schedule for the encryption schedule of the same key |
| Aes.ReverseRoundKeys | qemu-kvm-0.12.1.2/aes.c:846-852 | the in-place swapping loop puts every round key at its mirrored place |
| Aes.UnmixRoundKeys | qemu-kvm-0.12.1.2/aes.c:853-876 | exactly the inner round keys are unmixed |
| Aes.RconIsTable | qemu-kvm-0.12.1.2/aes.c:722-726 | the round constants are the powers of x in the field |
| Aes.TeRoundIsRound | qemu-kvm-0.12.1.2/aes.c:980-1036 | a round by table lookups is SubBytes, ShiftRows, MixColumns and AddRoundKey |
| Aes.TdRoundIsRound | qemu-kvm-0.12.1.2/aes.c:1171-1227 | a decryption round by table lookups is a round of the equivalent inverse cipher |
| Aes.EncryptRounds | qemu-kvm-0.12.1.2/aes.c:980-1069 | the loop of two rounds per iteration computes Cipher |
| Aes.DecryptRounds | qemu-kvm-0.12.1.2/aes.c:1171-1260 | the loop of two rounds per iteration computes EqInvCipher |
| Aes.Encrypt | qemu-kvm-0.12.1.2/aes.c:885-1070 | exactly sixteen bytes of the output become the encrypted block; input and output may be one buffer |
| Aes.Decrypt | qemu-kvm-0.12.1.2/aes.c:1076-1261 | exactly sixteen bytes of the output become the decrypted block |
| AesCipher.DecryptUndoesEncrypt | qemu-kvm-0.12.1.2/aes.c:832-878 | the equivalent inverse cipher under a decryption schedule undoes the cipher, for every block and number of rounds (section 5.3.5 of FIPS 197) |
| AesCipher.StatesRunBack | qemu-kvm-0.12.1.2/aes.c:1171-1260 | the intermediate states of decryption are those of encryption backwards |
| AesTables.TablesInverse | qemu-kvm-0.12.1.2/aes.c:46-58 | the two byte tables are inverse to each other |
| Aes.EncryptThenDecrypt | qemu-kvm-0.12.1.2/aes.c:731-1261 | for every key of every size and every block, decrypting with AES_set_decrypt_key's schedule undoes encrypting with AES_set_encrypt_key's |
| AesCbc.CbcRoundTrip | qemu-kvm-0.12.1.2/aes.c:1265-1314 | decrypting an encryption restores the plaintext for every length, partial last block included |
| AesCbc.CbcInTwoCalls | qemu-kvm-0.12.1.2/aes.c:1276-1285 | encrypting in two calls that meet at a block boundary, carrying the chaining value, is encrypting in one |
| AesCbc.ChainingValuesAgree | qemu-kvm-0.12.1.2/aes.c:1303-1311 | the chaining values left by the two directions agree exactly when the length is a whole number of blocks or the last ciphertext block decrypts to itself |
| AesCbc.CbcEncrypt | qemu-kvm-0.12.1.2/aes.c:1276-1296 | the encrypting loop and tail, also in place: output, untouched bytes and chaining value |
| AesCbc.CbcDecrypt | qemu-kvm-0.12.1.2/aes.c:1297-1313 | the decrypting loop and tail, also in place: only the plaintext bytes are written |
| AesCbc.CbcThereAndBack | qemu-kvm-0.12.1.2/aes.c:1265-1314 | encrypting and decrypting a buffer in place restores it for every key size, length and chaining value; beyond the padding nothing changes |
| ImageChain.ViewOfStack | qemu-kvm-0.12.1.2/block.c:2214-2299 | upper layers decide a sector unless it falls through all of them |
| ImageChain.DroppingMiddle | qemu-kvm-0.12.1.2/block.c:1793-1818 | dropping the middle of a stack keeps a sector exactly when it is hidden from above or the middle shows what the bottom shows |
| ImageChain.EmptyOnTop | qemu-kvm-0.12.1.2/block.c:1205-1211 | an empty image on top keeps the view exactly when everything past its end is zero |
| ImageChain.FindOverlay | qemu-kvm-0.12.1.2/block.c:1760-1785 | the image directly above, or null exactly when there is none in the chain |
| ImageChain.DropIntermediate | qemu-kvm-0.12.1.2/block.c:1819-1892 | success exactly under the stated conditions; then exactly the layers from top to just above base leave the chain, each deleted once, the view kept when both show the same; on every error nothing is touched |
| ImageChain.Append | qemu-kvm-0.12.1.2/block.c:1212-1299 | contents swap and the device side stays: the chain gains the new layer on top, the view of an empty long enough image is unchanged |
| ImageAllocation.IsAllocated | qemu-kvm-0.12.1.2/block.c:2838-2943 | the run reported is all held or all not held, empty exactly past the end |
| ImageAllocation.IsAllocatedAbove | qemu-kvm-0.12.1.2/block.c:2957-2994 | agrees with a scan sector by sector: 1 exactly when some layer above base holds the first sector, the run then held by one layer; 0 means that no layer holds any of the run, also when layers are shorter than the range |
| ImageAllocation.NotHeldShowsBase | qemu-kvm-0.12.1.2/block.c:2945-2956 | where nothing above base holds a sector the top shows what base shows, or zeros if a layer in between ends before it |
| ImageCommit.ReadSector | qemu-kvm-0.12.1.2/block.c:2214-2299 | reading through the chain yields the view |
| ImageCommit.CommitRun | qemu-kvm-0.12.1.2/block.c:1552-1568 | one iteration, failures of every kind included, changes the backing file only in sectors the overlay hides, and on success copies the run |
| ImageCommit.CommittingKeepsView | qemu-kvm-0.12.1.2/block.c:1552-1568 | hence after every iteration the guest sees what it saw before |
| ImageCommit.Commit | qemu-kvm-0.12.1.2/block.c:1519-1591 | for every driver of the tree, none of which both asks for its length and can be emptied: whatever fails on the way, the failed length included, the guest sees no difference, and after a successful emptying the images beneath show alone what the overlay showed; refusals change nothing; it succeeds whenever neither driver fails and the overlay fits on the backing file; and what it would do with any other driver the interface allows |
| ImageCommit.CommitEnd | qemu-kvm-0.12.1.2/block.c:1570-1580 | once everything is copied, dropping any part of the overlay keeps the view |
| ImageCommit.EmptyingKeepsView | qemu-kvm-0.12.1.2/block.c:1570-1573 | emptying without copying keeps the view exactly when what the overlay holds is what is beneath |
| ImageCommit.CommitCanLose | qemu-kvm-0.12.1.2/block.c:1549-1573 | with a driver of a kind that no file under block/ defines, a failed length query would skip the copying loop but not the emptying, and the commit would report success |
| ByteIo.Pwrite | qemu-kvm-0.12.1.2/block.c:2075-2122 | the requests (head read and written, whole sectors, tail read and written) are made in order up to the first that is off the device or that the driver fails, and it succeeds exactly if there is none; success replaces exactly the byte range; after an error all bytes before that request are there, of its own any if it was a write on the device and none otherwise, and none after it |
| ByteIo.Pread | qemu-kvm-0.12.1.2/block.c:2030-2073 | success fills the buffer with exactly the byte range, and without faults it succeeds exactly in range |
| ByteIo.WholePrefix | qemu-kvm-0.12.1.2/block.c:2075-2122 | when the failing request left none of its bytes behind exactly a prefix of the range has changed |
| ByteIo.ModifiedSector | qemu-kvm-0.12.1.2/block.c:2089-2100 | reading, changing and writing back a sector changes just that part |
| ByteIo.WriteThenRead | qemu-kvm-0.12.1.2/block.c:2030-2122 | what was written is read back |
| WriteMerging.SameDecision | qemu-kvm-0.12.1.2/block.c:3673-3731 | the exact condition, byte by byte: after merging a byte comes from the request it would come from without merging if and only if it is neither in a filled gap nor in a tail cut off and not written again |
| WriteMerging.AscendingLosesNothing | qemu-kvm-0.12.1.2/block.c:3673-3731 | with request ends that do not decrease nothing is lost |
| WriteMerging.TwoRequests | qemu-kvm-0.12.1.2/block.c:3704-3722 | for two touching requests that condition is also necessary |
| WriteMerging.TailCanBeLost | qemu-kvm-0.12.1.2/block.c:3704-3707 | a concrete batch of whole sectors that loses bytes |
| WriteMerging.TwoDecide | qemu-kvm-0.12.1.2/block.c:3698-3724 | two requests combined without a gap: exactly the tail that the second cuts off the first shows the disk |
| Multiwrite.MergeDropsTail | qemu-kvm-0.12.1.2/block.c:3665-3734 | for every two requests of which the second starts later and ends before the end of the first: after the in-place merge the bytes from the end of the second to the end of the first, which the batch writes, are not written, and every other byte is |
| WriteMerging.GapShowsZeros | qemu-kvm-0.12.1.2/block.c:3709-3716 | bytes in a filled gap become zeros |
| WriteMerging.Combined | qemu-kvm-0.12.1.2/block.c:3698-3724 | combining one more request keeps the account of every byte |
| WriteMerging.NotCombined | qemu-kvm-0.12.1.2/block.c:3725-3730 | keeping a request apart does too |
| WriteMerging.ApplyIsWritten | qemu-kvm-0.12.1.2/block.c:3661-3664 | the account is right: doing the writes in order on any disk leaves exactly that |
| Multiwrite.IovecConcat | qemu-kvm-0.12.1.2/cutils.c:171-214 | the first bytes of a scatter list, split inside a buffer where necessary |
| Multiwrite.CombineIovecs | qemu-kvm-0.12.1.2/block.c:3699-3722 | head of the first request, zeros for a gap, then the second, in bytes |
| Multiwrite.Qsort | qemu-kvm-0.12.1.2/block.c:3644-3671 | any permutation in sector order |
| Multiwrite.Merge | qemu-kvm-0.12.1.2/block.c:3665-3734 | the in-place merge: the requests left write, byte for byte, what was decided about a sorted permutation of the batch; with ends that do not decrease that is what the batch writes one by one except zeros in gaps the driver agreed to; callbacks do not move |
| MultiwriteCompletion.MultiwriteCb.Report | qemu-kvm-0.12.1.2/block.c:3627-3642 | the counter is what is still to come; callbacks run when it reaches zero and not before |
| MultiwriteCompletion.MultiwriteCb.UserCb | qemu-kvm-0.12.1.2/block.c:3613-3625 | each callback once, all with the recorded error |
| MultiwriteCompletion.AioMultiwrite | qemu-kvm-0.12.1.2/block.c:3750-3836 | submission with early completions and a late refusal, both inputs: which requests are submitted, what is outstanding and what was reported; a refused first submission fails every request and calls nothing |
| MultiwriteCompletion.RunMultiwrite | qemu-kvm-0.12.1.2/block.c:3613-3836 | over every run: exactly the requests before the first refusal are submitted, and every callback runs exactly once, with the first error among the results of those requests and -EIO for a late refusal; none runs if the first submission was refused; the requests left after merging write what the sorted batch decides |
| MultiwriteCompletion.EachReportsOnce | qemu-kvm-0.12.1.2/block.c:3627-3642 | every request the driver takes is reported once, during the loop or after it |
| MultiwriteCompletion.FirstErrorSnoc | qemu-kvm-0.12.1.2/block.c:3633-3635 | an error once recorded is kept |
| Words.Ffsl | qemu-kvm-0.12.1.2/bitops.h:31-61 | the first set bit of any nonzero word |
| Words.Flsl | qemu-kvm-0.12.1.2/bitops.h:69-99 | the last set bit of any nonzero word |
| Words.Ffz | qemu-kvm-0.12.1.2/bitops.h:107-110 | the first clear bit of any word that has one |
| Words.LowBits | qemu-kvm-0.12.1.2/bitops.h:31-61 | a test under a mask of low ones is a statement about each of those bits |
| Words.NotBit | qemu-kvm-0.12.1.2/bitops.h:107-110 | complement, bit by bit |
| Words.BelowMask | qemu-kvm-0.12.1.2/bitmap.h:58-62 | one less than a power of two has exactly the bits below it |
| Bitmaps.FindNextBit | qemu-kvm-0.12.1.2/bitops.c:21-64 | the least set bit from the offset on, or the size |
| Bitmaps.FindNextZeroBit | qemu-kvm-0.12.1.2/bitops.c:70-113 | the least clear bit from the offset on, or the size |
| Bitmaps.FindLastBit | qemu-kvm-0.12.1.2/bitops.c:115-142 | the greatest set bit below the size, or the size |
| Bitmaps.OnlyUsedBitsMatter | qemu-kvm-0.12.1.2/bitops.c:21-113 | bits past the size never change an answer |
| Bitmaps.BitmapSet | qemu-kvm-0.12.1.2/bitmap.c:160-178 | exactly the bits of the range are set, all others unchanged |
| Bitmaps.BitmapClear | qemu-kvm-0.12.1.2/bitmap.c:180-198 | exactly the bits of the range are cleared, all others unchanged |
| Bitmaps.FindNextZeroArea | qemu-kvm-0.12.1.2/bitmap.c:200-237 | the least aligned place from start on that holds nr clear bits; a value above the size exactly when there is none; it terminates |
| Bitmaps.AlignMaskRounds | qemu-kvm-0.12.1.2/bitmap.c:200-200 | (x + mask) & ~mask, on a word, rounds up to the next multiple of mask + 1 for a mask one less than a power of two |
| Bitmaps.TakeAndGiveBack | qemu-kvm-0.12.1.2/bitmap.c:160-237 | an area that was found can be set and cleared again without a trace |
| BufferedFile.QEMUFileBuffered.Append | qemu-kvm-0.12.1.2/buffered_file.c:48-70 | bytes are added at the end; the buffer grows when they do not fit |
| BufferedFile.QEMUFileBuffered.Flush | qemu-kvm-0.12.1.2/buffered_file.c:72-113 | as many bytes leave the front, in order, as the answers of the backend say; freezing, errors and answers used up are exact |
| BufferedFile.QEMUFileBuffered.PutBuffer | qemu-kvm-0.12.1.2/buffered_file.c:115-178 | what is delivered, buffered, accepted and recorded as an error, exactly, for every sequence of answers; and the stream stays in order if and only if the answers pass KeepsOrder: no answer of zero in the direct loop, and after one in the flush nothing that overtakes visibly |
| BufferedFile.QEMUFileBuffered.RateTick | qemu-kvm-0.12.1.2/buffered_file.c:255-271 | the flush of a tick keeps the order, whatever the answers |
| BufferedFile.Run | qemu-kvm-0.12.1.2/buffered_file.c:48-178 | over every sequence of puts and ticks: what was accepted is what the first puts brought, all of them if there is no error, and an error is one of the backend's answers; with answers that take bytes or ask to come back later there is no error and delivered, then buffered, is all that was put, in order; with errors but no zero what was delivered is a prefix of what was accepted; size within capacity |
| BufferedFile.DriveAnswers | qemu-kvm-0.12.1.2/buffered_file.c:85-105 | good answers make neither loop fail; without a zero neither stops for one |
| BufferedFile.PutAnswers | qemu-kvm-0.12.1.2/buffered_file.c:115-178 | without an answer of zero a put keeps the order; with good answers nothing fails |
| BufferedFile.ZeroOvertakes | qemu-kvm-0.12.1.2/buffered_file.c:96-113 | if something is buffered and the backend answers zero to the flush and then takes the next put, the order survives exactly when the bytes cannot tell |
| BufferedFile.ZeroInPut | qemu-kvm-0.12.1.2/buffered_file.c:151-167 | an answer of zero to the put itself always breaks the stream: bytes from before the caller's buffer join it and no error is recorded |

## Left out

- hbitmap, QEMUFile, coroutines, CoQueue and the format drivers: a set of dirty chunks, a stream of records or bytes, steps between yields, and a sector map with truthful allocation runs stand for them.
- Throttling itself, accounting, dirty-bitmap updates of backing files and `growable` images: a backing file in `ImageCommit` has a fixed length, so that a commit past its end fails.
- bdrv_getlength of a variable-length device: it may fail at any time, but the length it reports does not change during a call.
- LiveMigration.BlkMigState.SaveComplete: reads of stage 3 are synchronous; completions of earlier reads during them are not interleaved; blocks in flight and blocks in the list are discarded alike by the cleanup that follows.
- CopyOnRead: the disk has no end, as if its length were a whole number of clusters; a write-back of zeros is an ordinary write; cancelled requests are not modelled.
- Migration padding: a block shorter than a chunk is padded with one fixed value; what the allocation leaves there is unspecified in the source and never reaches a disk.
- Reading of the destination's device list, the block_set_params options and the progress percentage arithmetic beyond when a record is sent.
- The kernel side of g_poll, glib sources, aio_flush, aio-win32.c, and the timer of the event loop.
- AES assembler and FULL_UNROLL variants; buffers of AES_cbc_encrypt that overlap without being the same.
- Bitmaps.FindNextZeroArea: nr > 0, a mask one less than a power of two and no wrap-around are required.
- set_bit, clear_bit, change_bit and the test_and_ variants, hweight_long and the word-parallel set operations of bitmap.c: single expressions, only easy members.
- Opening, probing and naming of images, geometry, snapshots, monitor commands, drive mirror, discard and flush: plumbing around code that is not modelled.
- Multiwrite: the freeing of merged scatter lists and gap buffers; sector numbers do not overflow.
- BufferedFile.Run: put_ready is not called back from inside a put; a client that puts from it is a later event of the run. Closing and the rate limit setters are not modelled.
- MigrationBytes.WireRoundTrip: the sections of other devices between those of the block migration are not part of the bytes.
- Integer widths: sector counts, offsets and counters are unbounded; words of bitmaps (64 bits) and of AES (32 bits) are bit-vectors.
