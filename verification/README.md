# Verified models of A20OS

A20OS is a small operating system with its own ext4 journal, a NAT rewriter, and a body of host tools that build, boot,
inspect and patch its images. This project models the parts of it whose correctness spans many steps, and proves what
those parts are for: over every run, every interleaving, every power cut, every way of cutting a stream into chunks.

All modules are flat files in one directory; `dafny verify dfyconfig.toml` checks them together.

## The journal

`kernel/fs/diskfs/ext4_journal.c` keeps metadata updates atomic: blocks of a transaction are held in the block cache,
copied into a circular log behind a descriptor, sealed by a commit block, then written home; recovery replays whatever
is committed and not revoked. The model is a state machine over the steps of a commit, with an unheld page free to be
written at any time and a power cut possible after any step, at which each 512-byte sector of every outstanding write
independently reaches the medium or does not.

* `JournalFormat` and `JournalWriter` lay out descriptor and commit blocks and parse them back.
* `JournalPasses` is recovery itself (scan, revoke and replay passes over the log, in place); `JournalRecovery` is what
  replay means, independent of passes.
* `JournalSuper`, `JournalLog`, `JournalCommit`, `JournalSteps`, `JournalCrash` build the commit protocol up to the
  statement of what a power cut leaves at each point.
* `JournalRuns` and `JournalResume` lift that to whole runs and to whole histories of commits, cuts and recoveries;
  `JournalFresh` starts them from a newly made journal, so that nothing is assumed but a valid geometry.
* `JournalDurable` adds what a returned commit is worth: what waits in the log after a cut, that recovery of it
  succeeds, and that the images stay until their blocks are written again.
* `JournalLeak` is a commit during which the page cache writes out held pages; `JournalEvict` is the one write-back run
  that does so.
* `Bytes` and `Basics` hold what several modules share.

## The host tools and smaller kernel parts

* `Crc32c`, `Extents`, `JournalImage`: the tool that turns journal checksums on in an image (`tools/img.py`).
* `Matcher`: the streaming marker matcher of `tools/run_with_timeout.py`.
* `Stamps`: concurrent builds sharing an output tree (`tools/stamps.py`), as interleaved steps over a file system.
* `BodyScanner`: the scanner of `tools/check_lwip_concurrency_wiring.py` against a grammar of C function bodies.
* `InternetChecksum`, `NatRewrite`, `FrameOracle`: the NAT rewriter (`kernel/net/netfilter_rewrite.c`) and the checksum
  oracle it is compared with (`tools/test-nat-rewrite-host.c`).
* `Kallsyms`: the generated kernel symbol table. `Coverage`: the coverage-table rewriter. `Fnv`: the init hash.
  `Cubic`: the CUBIC reference curve. `Console`: the board console session. `PackageTar`: package segments.

## Where the code does not meet the property

Each of these is kept as the code has it, shown to fail, and given the exact condition under which it holds.

* A commit drops its holds before the checkpoint, so the checkpoint finds nothing to write and the log is marked empty
  while the metadata is still on its way home (`CheckpointWritesNothing`, `EveryCommitIsExposed`). Every power cut
  during a commit is all or nothing if and only if the transaction, as it stands when the commit is called, changes at
  most one 512-byte sector (`CommitAtomicIff`). State by state inside the window the condition is that no changed sector
  can be new while another one is old (`WindowAtomicIff`). Every newly made journal can be torn (`NewJournalTears`).
* A descriptor block holds 127 tags with full UUIDs; the transaction limit is 240 blocks (`DescriptorCapacity`).
* Writing out a page takes its dirty neighbours with it, held or not. At every point before the holds are dropped, a cut
  after such a write is all or nothing if and only if the run spares the transaction, or the transaction changes one
  sector in all, or its commit block is certain already (`EvictionAtomicIff`); the old state stays recoverable before
  the log is pointed at if and only if the run spares the transaction (`EvictionSafeIff`). With any number of such
  writes, a cut is all or nothing if and only if the transaction is committed for certain or no changed sector can be
  new while another one is old (`LeakAtomicIff`), and the whole rest of the commit is if and only if the transaction
  changes one sector, or all its changed sectors are home, or it is sure to be replayed and they are home or on their
  way (`RestAtomicIff`).
* The address and port rewriter leaves a transport checksum of zero alone for TCP as well as for UDP
  (`SetAddrKeeps`, `SetPortKeeps`, `ZeroTcpChecksumGoesStale`). Translating back restores a frame exactly unless the
  checksum is updated and the new addresses add up, modulo 65535, to the old ones and the old checksum (`UndoIff`); a
  frame of that kind is given (`UndoFails`).
* Without the 64BIT feature the image tool assumes 128-byte inodes (`ReadsJournalInodeIff`). Its walk down an extent
  tree never ends if and only if it comes back to a node it has been to, through index nodes only (`NeverEndsIff`).
* A run that ends between its sub-makes and its stamp leaves an older stamp of its kind in place, which the next run for
  that configuration believes (`FailedCleanMisleads`, `FailedBuildMisleads`). Over every interleaving, every answer
  "up to date" is right if and only if that never happens: not by a failing clean, not by a failing build, and not by
  being killed before the stamp (`FaultlessIsRight`, `AnswersRightIff`).
* The coverage rewriter settles in one run if and only if no table row shares a line with the end marker
  (`IdempotentIff`). If one does, the next run ends in a mismatch when the table goes on behind that row, and otherwise
  the document is rewritten for ever (`NextRun`, `NeverSettles`); documents of both kinds are given (`SharedOutcome`).

## Model

| member | source | states |
|---|---|---|
| `Crc32c.BurstDetected` | tools/img.py:209-221 | two messages of equal length that differ only within 32 consecutive bits, at any bit offset and from any seed, never share a checksum |
| `Crc32c.FourBytesDetected` | tools/img.py:209-221 | the stored number changes whenever up to four consecutive bytes change |
| `Crc32c.CrcConcat` | tools/img.py:209-221 | checksumming a and then b from the resulting state is checksumming a + b |
| `Crc32c.TableStep` | tools/img.py:209-221 | one table step equals eight steps of division by the reflected polynomial 0x82F63B78 |
| `Crc32c.LookupStep` | tools/img.py:218-221 | a lookup in any correct table equals the bit-at-a-time checksum of the byte |
| `Crc32c.Checksummer.BuildTable` | tools/img.py:209-217 | the two loops that fill the 256 entries produce the remainders of all bytes |
| `Crc32c.Checksummer.Compute` | tools/img.py:209-221 | the table-driven loop equals bit-by-bit division on every message and seed |
| `Crc32c.StoredInjective` | kernel/fs/diskfs/ext4_journal.c:161-182 | different registers are stored as different 32-bit numbers |
| `Extents.WalkFindsLeftmost` | tools/img.py:241-252 | for every well-formed extent tree of any depth laid out in the image, the walk returns the 48-bit start of the leftmost extent after exactly as many nested calls as the root's depth |
| `Extents.NeverEndsIff` | tools/img.py:241-252 | the walk never ends if and only if, through index nodes only and within as many steps as the image has bytes, it comes back to a node it has been to; and if and only if it is still going after that many calls |
| `Extents.SelfIndexNeverEnds` | tools/img.py:241-252 | the smallest such circle: an index node whose first child is itself |
| `Extents.JournalIsFound` | tools/img.py:254-277 | from an image that holds a journal inode with such a tree the tool computes the byte offset of the journal's first block |
| `Extents.ReadsJournalInodeIff` | tools/img.py:259-276 | the tool looks at the right inode if and only if the image has the 64BIT feature, 128-byte inodes, or its journal in inode 1 |
| `JournalImage.WithFeaturesTwice` | tools/img.py:286-288 | the feature word gains the 64-bit and checksum-v3 bits, and gains them once |
| `JournalImage.PatchedMetaMeans` | tools/img.py:280-294 | the stored checksum is that of the first 1024 bytes with its own field read as zero, the features and checksum type are set, and no other byte changes |
| `JournalImage.PatchedMetaTwice` | tools/img.py:280-294 | patching a patched superblock changes nothing |
| `JournalImage.LocationSame` | tools/img.py:254-296 | a change outside the metadata that locates the journal does not move the journal |
| `JournalImage.EnableTwice` | tools/img.py:280-296 | running the tool again finds the same superblock and leaves the image byte for byte as it is |
| `JournalImage.ImageFile.EnableJournalChecksums` | tools/img.py:280-296 | the in-place patch of the image file, with every error outcome, is that transformation |
| `JournalImage.KernelLoadsPatched` | kernel/fs/diskfs/ext4_journal.c:477-524 | the kernel's loader accepts a patched superblock if and only if the block meets the checks that the tool has no part in: the checksum the tool stores is always the one the kernel computes |
| `JournalFormat.SealedIsOk` | kernel/fs/diskfs/ext4_journal.c:884-890 | sealing a block makes its self-checksum test pass |
| `JournalFormat.CommitBlockIsCommit` | kernel/fs/diskfs/ext4_journal.c:1013-1027 | the commit block the writer lays out is one the reader takes for a commit of that sequence |
| `JournalFormat.DescriptorRoundTrip` | kernel/fs/diskfs/ext4_journal.c:333-393 | what the writer logs, recovery reads back: same targets, same images, same order, and the position after them |
| `JournalFormat.DescriptorCapacity` | kernel/fs/diskfs/ext4_journal.c:951-995 | some descriptor block with full tags carries a transaction back to the reader if and only if it has at most 127 blocks |
| `JournalFormat.FullTagsAreFew` | kernel/fs/diskfs/ext4_journal.c:333-393 | the reader takes no tag that does not fit before the block's checksum |
| `JournalWriter.WriteDescriptor` | kernel/fs/diskfs/ext4_journal.c:951-995 | the two passes over the reused buffer, tags first and checksums afterwards in place, fail exactly when a block lies outside the filesystem and otherwise leave the descriptor that `DescriptorRoundTrip` is about |
| `JournalWriter.WriteCommit` | kernel/fs/diskfs/ext4_journal.c:1013-1027 | the buffer ends as the commit block that `CommitBlockIsCommit` is about |
| `JournalWriter.BlankFilled` | kernel/fs/diskfs/ext4_journal.c:984-992 | rewriting the checksum field of a tag in place gives the tag as it would have been written at once |
| `JournalRecovery.ReplayUntouched` | kernel/fs/diskfs/ext4_journal.c:395-475 | a block that no committed, unrevoked write names keeps its contents |
| `JournalRecovery.ReplayLast` | kernel/fs/diskfs/ext4_journal.c:395-475 | any other block ends with the image of its last committed, unrevoked write |
| `JournalRecovery.ReplayForgets` | kernel/fs/diskfs/ext4_journal.c:395-475 | the result does not depend on what is overwritten |
| `JournalRecovery.ReplayAgain` | kernel/fs/diskfs/ext4_journal.c:671-676 | replay can be repeated, and started over from any half-replayed state, with the same result |
| `JournalPasses.TidOrder` | kernel/fs/diskfs/ext4_journal.c:265-297 | the wrapping 32-bit comparison orders the transactions of one log correctly |
| `JournalPasses.TableMeaning` | kernel/fs/diskfs/ext4_journal.c:265-297 | the revoke table says a block is revoked for a transaction exactly when that or a later committed transaction revokes it |
| `JournalPasses.CommittedNumbered` | kernel/fs/diskfs/ext4_journal.c:406-475 | the committed transactions are consecutively numbered, no more than the log has blocks, and name blocks of the filesystem only |
| `JournalPasses.Recovery.ProcessDescriptor` | kernel/fs/diskfs/ext4_journal.c:333-393 | in each pass, one descriptor does what its parsed events say: nothing, or the unrevoked writes in order |
| `JournalPasses.Recovery.ProcessRevoke` | kernel/fs/diskfs/ext4_journal.c:299-331 | one revoke block is counted, entered or skipped, with its shape, range and capacity errors |
| `JournalPasses.Recovery.RunPass` | kernel/fs/diskfs/ext4_journal.c:406-475 | the scan pass finds the committed end, the revoke pass collects exactly the committed revokes, the replay pass computes the abstract replay |
| `JournalPasses.Recovery.Recover` | kernel/fs/diskfs/ext4_journal.c:648-669 | the three passes together replay exactly the committed log, or fail before writing anything when a revoke is out of range |
| `JournalSuper.UpdateReads` | kernel/fs/diskfs/ext4_journal.c:1031-1047 | a superblock update reads back, keeps its checksum right and touches only its own fields, all in the first sector |
| `JournalSuper.UpdateLoads` | kernel/fs/diskfs/ext4_journal.c:487-524 | an updated superblock still passes every check of the loader |
| `JournalSuper.SealedSuperOk` | kernel/fs/diskfs/ext4_journal.c:1031-1047 | sealing makes the superblock checksum test pass and changes nothing else |
| `JournalLog.ScanPrepared` | kernel/fs/diskfs/ext4_journal.c:406-475 | over a prepared log the scan finds the one transaction if its commit block is there and nothing otherwise, and never runs on into older blocks |
| `JournalLog.ReplayOne` | kernel/fs/diskfs/ext4_journal.c:395-475 | replaying that transaction puts every image in its place and leaves the rest alone |
| `JournalLog.TornFirstSector` | kernel/fs/diskfs/ext4_journal.c:1031-1047 | a torn write that differs in the first sector only is all or nothing |
| `JournalLog.StaleTorn` | kernel/fs/diskfs/ext4_journal.c:1242-1379 | a torn log block between two that recovery would not take for the next transaction is not taken for it either |
| `JournalSteps.StepKeeps` | kernel/fs/diskfs/ext4_journal.c:1242-1379 | every step of a commit, and every write of an unheld page between steps, keeps the invariant that ties log, superblock, cache, holds and medium together |
| `JournalSteps.CheckpointWritesNothing` | kernel/fs/block_cache.c:637-690 | at the checkpoint no page is held any more, so the sync of held pages writes nothing |
| `JournalCrash.CutBeforePointing` | kernel/fs/diskfs/ext4_journal.c:1270-1314 | before the superblock points at the log, a power cut leaves exactly the state before the transaction |
| `JournalCrash.CutBeforeCommit` | kernel/fs/diskfs/ext4_journal.c:1316-1331 | until the commit block is durable, recovery sees all of the transaction or none of it, however sectors tear |
| `JournalCrash.CutAfterCommit` | kernel/fs/diskfs/ext4_journal.c:1329-1349 | once it is durable, recovery shows all of the transaction, however little has been written home |
| `JournalCrash.CutInWindow` | kernel/fs/diskfs/ext4_journal.c:1351-1368 | while the log is being marked empty, the mount either replays or takes the home blocks as they are |
| `JournalCrash.WindowAtomicIff` | kernel/fs/diskfs/ext4_journal.c:1341-1368 | at every state of that window a power cut is all or nothing if and only if no changed sector can be new while another one is old |
| `JournalCrash.OneSectorIsAtomic` | kernel/fs/diskfs/ext4_journal.c:1341-1368 | a transaction that changes at most one sector is all or nothing throughout the window, whatever of it is home already |
| `JournalCrash.MixtureTears` | kernel/fs/diskfs/ext4_journal.c:1341-1368 | wherever one can be new and another old, a cut that shows neither the old nor the new state exists |
| `JournalCrash.DrainingAtomicIff` | kernel/fs/diskfs/ext4_journal.c:1341-1368 | while all of it is still on its way home, all or nothing holds if and only if at most one 512-byte sector changes |
| `JournalCrash.AtomicOutsideWindow` | kernel/fs/diskfs/ext4_journal.c:1270-1349 | at every other point of the commit it holds outright |
| `JournalRuns.RunKeeps` | kernel/fs/diskfs/ext4_journal.c:1242-1379 | the invariant holds after any run of commits, joins and page writes |
| `JournalRuns.RunIsAtomic` | kernel/fs/diskfs/ext4_journal.c:1242-1379 | after any such run, outside the window, a power cut is all or nothing |
| `JournalRuns.EveryCommitIsExposed` | kernel/fs/diskfs/ext4_journal.c:1341-1348 | every commit of a non-empty transaction reaches, by its own steps, the state in which the log is empty and all its metadata is still on its way home |
| `JournalRuns.CommitKeepsTransaction` | kernel/fs/diskfs/ext4_journal.c:1242-1379 | from its first step until it returns, a commit goes on committing the images that the cache held when it was called, whatever is written meanwhile |
| `JournalRuns.CommitAtomicIff` | kernel/fs/diskfs/ext4_journal.c:1242-1379 | every power cut during a commit, whatever else the cache writes meanwhile, is all or nothing if and only if the transaction at the call differs from the medium in at most one 512-byte sector |
| `JournalResume.RecoveryRestarts` | kernel/fs/diskfs/ext4_journal.c:603-713 | a recovery interrupted anywhere, however torn, and started over shows the same filesystem |
| `JournalResume.MarkEmptyIsSafe` | kernel/fs/diskfs/ext4_journal.c:526-543 | marking the log empty after replay is durable loses nothing |
| `JournalResume.CutResumes` | kernel/fs/diskfs/ext4_journal.c:603-713 | after any cut at any point what the medium holds is a state that recovery can resume from |
| `JournalResume.ResumeInv` | kernel/fs/diskfs/ext4_journal.c:671-713 | and the resumed journal satisfies the invariant and shows exactly the recovered filesystem |
| `JournalResume.HistoryKeeps` | kernel/fs/diskfs/ext4_journal.c:1242-1379 | the invariant holds over any history of steps, power cuts and recoveries |
| `JournalResume.HistoryIsAtomic` | kernel/fs/diskfs/ext4_journal.c:1242-1379 | over any such history, outside the window, a power cut is all or nothing |
| `JournalResume.FreshJournal` | kernel/fs/diskfs/ext4_journal.c:603-713 | a new journal without leftovers is a good start |
| `JournalResume.CommitReturns` | kernel/fs/diskfs/ext4_journal.c:1351-1368 | when a commit returns, whatever other pages are dirty, every image of its transaction is on the medium and nothing of it is left in the cache or on its way |
| `JournalResume.OrderedDataFirst` | kernel/fs/diskfs/ext4_journal.c:1270-1276 | data dirty before the commit began is on the medium before the log is touched |
| `JournalFresh.NewSuperLoads` | kernel/fs/diskfs/ext4_journal.c:477-524 | the loader accepts the superblock of a newly made journal of any valid geometry and finds nothing to replay |
| `JournalFresh.NewJournal` | kernel/fs/diskfs/ext4_journal.c:603-713 | such a journal satisfies the invariant |
| `JournalFresh.NewJournalIsAtomic` | kernel/fs/diskfs/ext4_journal.c:1242-1379 | from it, over every history of commits, page writes, power cuts and recoveries, a power cut outside the window is all or nothing |
| `JournalFresh.NewJournalTears` | kernel/fs/diskfs/ext4_journal.c:1341-1368 | every new journal with room for a one-block transaction has a commit and a power cut that shows neither the old nor the new state |
| `JournalDurable.WaitingIs` | kernel/fs/diskfs/ext4_journal.c:406-475 | after any cut the log holds nothing to replay or exactly the transaction that was being committed |
| `JournalDurable.CutRecovers` | kernel/fs/diskfs/ext4_journal.c:648-669 | so no cut can leave what recovery fails on |
| `JournalDurable.MountAfterCut` | kernel/fs/diskfs/ext4_journal.c:603-713 | run on what a cut leaves, the three passes succeed and leave the filesystem that the crash theorems speak of |
| `JournalDurable.HistoryRests` | kernel/fs/diskfs/ext4_journal.c:603-713 | a block at rest on the medium stays as it is over every history of commits, page writes, power cuts and recoveries that does not write it |
| `JournalDurable.ReturnedSurvives` | kernel/fs/diskfs/ext4_journal.c:1351-1368 | an image of a returned commit survives every such history and every later cut until its block is written again |
| `JournalEvict.EvictionSafeIff` | kernel/fs/block_cache.c:863-912 | until the superblock points at the log, writing out a page early leaves the old state recoverable if and only if its run of neighbours spares every block of the transaction |
| `JournalEvict.EvictionAtomicIff` | kernel/fs/block_cache.c:863-912 | at every point up to the dropping of the holds, a cut after it is all or nothing if and only if the run spares the transaction, or the transaction changes at most one sector, or the commit block is valid whatever a cut does to it |
| `JournalLeak.MoveKeeps` | kernel/fs/diskfs/ext4_journal.c:1242-1379 | every step of a commit, and every write-back run with held pages in it, keeps the invariant of a commit from which held pages may have escaped, and the transaction |
| `JournalLeak.LeakyRunKeeps` | kernel/fs/diskfs/ext4_journal.c:1242-1379 | so does every run of them up to the return |
| `JournalLeak.LeakIsInv` | kernel/fs/diskfs/ext4_journal.c:1341-1348 | once the holds are dropped that is the invariant of every commit again |
| `JournalLeak.LeakAtomicIff` | kernel/fs/block_cache.c:863-912 | at every point of such a commit a power cut is all or nothing if and only if the transaction is committed for certain or no changed sector can be new while another one is old |
| `JournalLeak.RestAtomicIff` | kernel/fs/block_cache.c:863-912 | from every point of such a commit, every power cut until its return is all or nothing if and only if at most one sector changes, or every changed sector is home, or the transaction is sure to be replayed until the next flush and every changed sector is home or on its way |
| `JournalLeak.LeakyCommitAtomicIff` | kernel/fs/diskfs/ext4_journal.c:1242-1379 | a whole commit with any such runs is all or nothing if and only if the transaction at the call changes at most one sector |
| `Matcher.GreedyExtends` | tools/run_with_timeout.py:127-136 | more output never changes what has been found: search can go on from the last match |
| `Matcher.GreedyStaysAhead` | tools/run_with_timeout.py:128-133 | taking the first occurrence stays ahead of every other choice of occurrences |
| `Matcher.GreedyIsOptimal` | tools/run_with_timeout.py:128-133 | k markers are passed if and only if the stream has k ordered, non-overlapping occurrences of them |
| `Matcher.FindInTail` | tools/run_with_timeout.py:127-136 | searching the kept tail finds what searching the whole stream from the last match would find |
| `Matcher.Session.OnChunk` | tools/run_with_timeout.py:127-136 | one chunk keeps the tie between tail, marker index and the whole stream |
| `Matcher.Session.Advance` | tools/run_with_timeout.py:128-133 | the marker loop advances as far as first-occurrence search on the whole stream does |
| `Matcher.Session.Trim` | tools/run_with_timeout.py:134-136 | dropping old bytes never drops the beginning of a later match |
| `Matcher.Session.SendBatch` | tools/run_with_timeout.py:138-151 | batch lines are written once, when the last marker has been passed |
| `Matcher.Session.SendSteps` | tools/run_with_timeout.py:138-151 | step lines are written up to the marker index |
| `Matcher.Session.Pump` | tools/run_with_timeout.py:138-151 | what has been written is exactly what the markers passed have earned, in order, each once |
| `Matcher.Session.Turn` | tools/run_with_timeout.py:103-151 | one turn of the loop keeps all of that |
| `Matcher.Session.Run` | tools/run_with_timeout.py:103-151 | for every chunking of the output the marker index is that of the unsplit stream, and the lines written are exactly those earned |
| `Stamps.LockOutsideTree` | tools/stamps.py:97-116 | the lock file is outside the output tree, whatever the directory is called |
| `Stamps.StepKeeps` | tools/stamps.py:97-182 | every step of any number of user and native runs, including failing sub-makes, cleans and killed runs, keeps the invariant |
| `Stamps.RunKeeps` | tools/stamps.py:97-182 | so does every interleaving |
| `Stamps.ExclusiveIffApart` | tools/stamps.py:97-116 | over all interleavings at most one run decides, cleans, builds or stamps at a time, if and only if the lock file is outside the tree that cleaning removes |
| `Stamps.SharedOutputIsExclusive` | tools/stamps.py:97-116 | which is so for every output directory |
| `Stamps.LockInsideTreeFails` | tools/stamps.py:97-116 | with the lock inside the tree, an interleaving has two runs building at once |
| `Stamps.NativeStampIsFresh` | tools/stamps.py:141-145 | over all interleavings, a native stamp that exists was written by a run that took the lock after the last change any user rebuild made to the tree |
| `Stamps.NativeAnswer` | tools/stamps.py:160-177 | a native run that answers "up to date" relies on a stamp with its own build id that no user rebuild has gone behind |
| `Stamps.StampIsIntact` | tools/stamps.py:154-182 | right after a stamp every file of the build is as stamped |
| `Stamps.IntactIff` | tools/stamps.py:97-182 | over every interleaving in which no run of that kind reaches its stamp, a stamped build stays intact if and only if no sub-make, of either kind and failing or not, removes or rewrites one of its files |
| `Stamps.AnswerIff` | tools/stamps.py:119-182 | an answer "up to date" is right if and only if no sub-make since the last stamp of its kind has touched a file of the stamped build |
| `Stamps.StepGood` | tools/stamps.py:97-182 | every step that does not end a run early with an older stamp of its kind in place keeps the stamps honest: what is stamped is intact, or about to be stamped anew |
| `Stamps.FaultlessIsRight` | tools/stamps.py:97-182 | over every interleaving of user and native runs without such a step, every answer "up to date" is right |
| `Stamps.FailedCleanMisleads` | tools/stamps.py:149-152 | after a clean that fails half way and has removed one artefact, the next run for the old configuration answers "up to date" with that artefact missing |
| `Stamps.FailedBuildMisleads` | tools/stamps.py:160-182 | after a native build that fails half way, or a native run that is killed before its stamp, the next native run for the old configuration answers "up to date" over a binary of the new one |
| `Stamps.AnswersRightIff` | tools/stamps.py:97-182 | of failing cleans, failing builds and kills before the stamp, each one misleads some run: every answer is right if and only if none of them leaves an older stamp in place |
| `Stamps.NeverStuck` | tools/stamps.py:97-182 | as long as some run is not finished, some run can go on without being killed |
| `BodyScanner.ScanBody` | tools/check_lwip_concurrency_wiring.py:31-65 | every well-formed body is passed over exactly, whatever text follows it and however deep the braces |
| `BodyScanner.ParseBody` | tools/check_lwip_concurrency_wiring.py:31-65 | whatever the scan passes over is a well-formed body |
| `BodyScanner.ScanIffBody` | tools/check_lwip_concurrency_wiring.py:31-65 | the scan stops after n characters if and only if those are a well-formed body and a closing brace follows |
| `BodyScanner.BodyUnique` | tools/check_lwip_concurrency_wiring.py:25-66 | a text begins with at most one body |
| `BodyScanner.PendingStep` | tools/check_lwip_concurrency_wiring.py:33-65 | one turn of the five-state loop reaches the closing brace or keeps what remains to be scanned |
| `BodyScanner.CutBody` | tools/check_lwip_concurrency_wiring.py:25-66 | the loop returns exactly the body, and ends in the unclosed-body error exactly when the text has none |
| `InternetChecksum.FoldOnceKeeps` | tools/test-nat-rewrite-host.c:91-92 | a fold keeps the sum modulo 65535 and whether it is zero, and makes it smaller |
| `InternetChecksum.Fold` | tools/test-nat-rewrite-host.c:91-92 | the fold loop ends with the one number of that class below 65536 that is zero only for zero |
| `InternetChecksum.FullSum` | tools/test-nat-rewrite-host.c:84-94 | the loop over words, with an odd last byte, gives the complement of that, without 32-bit overflow on anything as long as an IPv4 packet |
| `InternetChecksum.StoredIff` | tools/test-nat-rewrite-host.c:177-192 | a stored checksum is the recomputed one if and only if it is not all ones and the whole sums to a multiple of 65535 |
| `InternetChecksum.SumPut` | tools/test-nat-rewrite-host.c:84-94 | writing an aligned word moves the sum by the difference |
| `InternetChecksum.DeltaBalances` | kernel/net/netfilter_rewrite.c:28-36 | the incremental update of equation 3 of RFC 1624 balances the change modulo 65535 and is again not all ones |
| `InternetChecksum.CsumDelta` | kernel/net/netfilter_rewrite.c:28-36 | the function with its fold loop computes that update |
| `NatRewrite.IpValidIff` | tools/test-nat-rewrite-host.c:96-99 | the header check passes if and only if the header words balance |
| `NatRewrite.L4ValidIff` | tools/test-nat-rewrite-host.c:107-123 | the transport check passes if and only if segment and pseudo-header balance |
| `NatRewrite.CkOffIs` | kernel/net/netfilter_rewrite.c:57-72 | where the rewriter finds a transport checksum is where it is; it finds it for UDP, and for TCP exactly when the header length is sane and within the frame |
| `NatRewrite.MoveAddrIp` | kernel/net/netfilter_rewrite.c:98-130 | rewriting one address keeps a valid header valid |
| `NatRewrite.SetAddrIp` | kernel/net/netfilter_rewrite.c:111-133 | rewriting both keeps the header valid, shows the new addresses and changes nothing but addresses and checksums, whatever the transport checksum was |
| `NatRewrite.SetAddrKeeps` | kernel/net/netfilter_rewrite.c:78-133 | the transport checksum stays valid if and only if the old one was found and not zero, or the change is congruent to nothing modulo 65535 |
| `NatRewrite.SetPortKeeps` | kernel/net/netfilter_rewrite.c:135-163 | the same for a port, with port 0 and the ports out of reach left alone |
| `NatRewrite.ZeroTcpChecksumGoesStale` | kernel/net/netfilter_rewrite.c:85-92 | a valid TCP segment whose checksum is zero is no longer valid after a rewrite |
| `NatRewrite.ZeroIffCancels` | kernel/net/netfilter_rewrite.c:28-36 | the updated checksum comes out as zero if and only if the new addresses add up, modulo 65535, to the old ones and the old checksum |
| `NatRewrite.UndoIff` | kernel/net/netfilter_rewrite.c:111-133 | translating back gives the original frame byte for byte if and only if the checksum is not updated or they do not add up so |
| `NatRewrite.UndoFails` | kernel/net/netfilter_rewrite.c:111-133 | a valid TCP segment that translating there and back does not give back |
| `FrameOracle.ChecksummedIsValid` | tools/test-nat-rewrite-host.c:96-123 | whatever a frame holds, filling in both checksums makes both checks pass |
| `FrameOracle.StaleIff` | tools/test-nat-rewrite-host.c:101-123 | changing the addresses and not the checksums passes either check if and only if the totals are congruent modulo 65535 |
| `FrameOracle.IpChecksum` | tools/test-nat-rewrite-host.c:96-99 | zeroing the field and storing the sum, in the buffer |
| `FrameOracle.L4Checksum` | tools/test-nat-rewrite-host.c:107-123 | the same with the folded pseudo-header as seed, the addresses read behind a 14-byte link header whatever the packet view says |
| `FrameOracle.AgreesIffValid` | tools/test-nat-rewrite-host.c:107-123 | for a frame whose header is there, the stored checksum is the one so computed if and only if the segment and pseudo-header balance |
| `FrameOracle.BuildFrame` | tools/test-nat-rewrite-host.c:126-174 | every built frame carries its addresses and ports and passes both checks |
| `FrameOracle.ChecksumsValid` | tools/test-nat-rewrite-host.c:177-192 | the oracle's copy, recompute and compare decides exactly the two checks, and for a frame behind a 14-byte link header exactly validity |
| `FrameOracle.RewriteAddr` | kernel/net/netfilter_rewrite.c:111-133 | the in-place address rewrite is the one `SetAddrKeeps` is about |
| `FrameOracle.RewritePort` | kernel/net/netfilter_rewrite.c:135-163 | the in-place port rewrite is the one `SetPortKeeps` is about |
| `Kallsyms.KeptIs` | tools/gen_kallsyms.py:124-129 | the filter keeps exactly the symbols between the lowest and highest text address, or of function kind when there are no ranges, as often as they are listed |
| `Kallsyms.SortPermutes` | tools/gen_kallsyms.py:131 | every symbol is in the sorted table as often as it was listed |
| `Kallsyms.NearestIs` | tools/gen_kallsyms.py:165-186 | the linear scan answers the nearest symbol at or below an address, the last listed of several, or none when all are above |
| `Kallsyms.NearestSort` | tools/gen_kallsyms.py:131 | sorting by address, keeping the order of equal ones, never changes that answer |
| `Kallsyms.NameAt` | tools/gen_kallsyms.py:132-159 | the C string at a symbol's offset in the name blob is its name |
| `Kallsyms.Emit` | tools/gen_kallsyms.py:132-164 | the loop over symbols produces the three arrays that belong together |
| `Kallsyms.Lookup` | tools/gen_kallsyms.py:165-186 | the emitted binary search ends, and returns the linear scan's name and the distance from it, or no name and the address |
| `Kallsyms.GenerateAndLookup` | tools/gen_kallsyms.py:123-186 | from the symbols of the image, through filter, sort and tables, to the same answer; with no symbol to keep nothing is generated and the weak definition of kernel/core/kallsyms.c answers no name and the address |
| `Fnv.StepInjective` | kernel/main.c:412-415 | a step tells apart states that meet the same byte and bytes that meet the same state, modulo 2^64 |
| `Fnv.TimesInverse` | kernel/main.c:414 | multiplying by the FNV prime can be undone modulo 2^64 |
| `Fnv.OneByteDiffers` | tools/lwip_lane_host_probe.py:30-34 | two inputs that differ in exactly one byte never hash alike |
| `Fnv.HashConcat` | tools/lwip_lane_host_probe.py:30-34 | hashing composes over concatenation |
| `Fnv.Fnv1a` | tools/lwip_lane_host_probe.py:30-34 | the loop is the fold |
| `Fnv.DeliveredAll` | kernel/main.c:405-418 | the reported size is hashed in full if and only if every chunk is delivered in full |
| `Fnv.HashInit` | kernel/main.c:399-418 | the chunked loop hashes exactly the prefix that was delivered, for every size and every pattern of short reads and errors |
| `Coverage.TextOfLines` | tools/gen_linux_syscall_coverage.py:53-61 | the lines of a text make up the text again |
| `Coverage.RowsOfGenerated` | tools/gen_linux_syscall_coverage.py:57-75 | reading a generated block gives back the rows it was generated from |
| `Coverage.WrittenIs` | tools/gen_linux_syscall_coverage.py:54-76 | the written document, read again: the text outside the markers and the text of every row are as they were, and the block is its header, one row per name in the order of the names, and the end marker on a line of its own |
| `Coverage.BlockRows` | tools/gen_linux_syscall_coverage.py:57-60 | each row is one of the lines of the old block, whole, with its own name; the end marker can be in the last line only |
| `Coverage.NextRun` | tools/gen_linux_syscall_coverage.py:53-92 | when the end marker shares a line with a row, the run after one that wrote ends in a mismatch if the table has a name first listed behind that row, and otherwise finds a change again, in a document of the same kind |
| `Coverage.NeverSettles` | tools/gen_linux_syscall_coverage.py:53-92 | in the second case the document is written again by any number of runs |
| `Coverage.SharedOutcome` | tools/gen_linux_syscall_coverage.py:53-92 | both cases occur: a document with such a line for every set of plain names |
| `Coverage.IdempotentIff` | tools/gen_linux_syscall_coverage.py:53-92 | after a run that writes, a check passes and another run writes nothing, if and only if no row shares a line with the end marker |
| `Cubic.RefCbrt` | tools/test-tcp-cubic-host.c:81-96 | within fifty halvings the cube root is caught between two points a tolerance apart, for every positive number up to 10^18, with the other inputs' outcomes |
| `Cubic.FiftyHalvings` | tools/test-tcp-cubic-host.c:86-87 | fifty halvings reach the tolerance and forty-nine do not |
| `Cubic.StartOfEpoch` | tools/test-tcp-cubic-host.c:271-277 | with the computed K the curve starts at beta times the old maximum, up to 3 C (K + 1e-9)^2 1e-9 |
| `Cubic.WCubicIncreases` | tools/test-tcp-cubic-host.c:99-103 | the curve strictly increases |
| `Cubic.PlateauAtK` | tools/test-tcp-cubic-host.c:99-109 | it is at, below and above the old maximum at, before and after K |
| `Cubic.TargetNeverFalls` | tools/test-tcp-cubic-host.c:124-141 | through an epoch the target never falls, and never below what the loss left |
| `Console.SerialWrite` | tools/a20_console.py:136-158 | over any behaviour of the port, all the data is handed over if and only if the write returns, and a prefix otherwise |
| `Console.StillNoneMissing` | tools/a20_console.py:189-190 | what has been seen stays seen as the transcript grows |
| `Console.Session.Await` | tools/a20_console.py:219-225 | a wait ends with nothing missing, or with the non-empty list of what is |
| `Console.Session.Boot` | tools/a20_console.py:213-232 | commands are not reached before all boot patterns have been seen |
| `Console.Session.Run` | tools/a20_console.py:193-248 | a session that succeeds has all boot patterns, and all expected answers when it has commands, in its transcript; the commands are sent at most once, after the boot patterns were seen; the transport is closed on every way out |
| `PackageTar.StripTrailer` | tools/mka20pkg.py:256-266 | exactly the trailing zero blocks are removed |
| `PackageTar.StripControl` | tools/mka20pkg.py:269-278 | header and content survive if and only if their last block is not zero, for which a content that ends in a newline is enough |
| `PackageTar.JoinIsAncestor` | tools/mka20pkg.py:287-290 | the joined first parts of a name are what stands before one of its slashes |
| `PackageTar.AncestorIsJoin` | tools/mka20pkg.py:287-290 | and every such ancestor is one of them |
| `PackageTar.Archive.EnsureDirs` | tools/mka20pkg.py:287-296 | the missing ancestors of a name, and nothing else, are added before it |
| `PackageTar.Archive.Add` | tools/mka20pkg.py:298-325 | an entry goes behind its directories |
| `PackageTar.Archive.Build` | tools/mka20pkg.py:281-326 | every directory is emitted once, before anything beneath it, only if some entry needs it, and the entries keep their order |

## Left out

- The journal model assumes that the device reports no I/O errors, that targets lie outside the log, and that journal blocks are mapped one to one.
- The commit model leaves out a log without room for the transaction and a sequence number that wraps while writing.
- StepKeeps: a block whose earlier write-back is not flushed yet does not join a transaction, and write-back runs that take held pages with them are the subject of `MoveKeeps` instead.
- MoveKeeps: the transaction does not grow or change any more once one of its pages has been written out early, and a page so written is kept as if it were still dirty, which writes the same image again.
- StepKeeps: a transaction has at most 127 blocks, what its descriptor can hold by `DescriptorCapacity`; the 128th to 240th slot of the source, with which it writes past its buffer, are not modelled.
- ScanPrepared: is stated for sequence numbers below 2^32 - 1, where the next one does not wrap.
- CommitAtomicIff: is stated for sequence numbers below 2^32 - 1, for the same reason.
- The RECOVER feature flag of the filesystem superblock, in block 0, is not modelled; whether to replay is decided by the start field of the journal.
- CommitKeepsTransaction: does not hold for block 0 when the transaction has it, because the commit raises the flag in it after the call and before the copy into the log, so that the logged image has the flag.
- CommitAtomicIff: takes block 0 without the flag, for the same reason.
- LeakyCommitAtomicIff: takes block 0 without the flag, and sequence numbers below 2^32 - 1.
- RestAtomicIff: takes block 0 without the flag, and at the call sequence numbers below 2^32 - 1.
- CommitReturns: does not hold for block 0 when the transaction has it, because the final sync writes it with the flag lowered again.
- ReturnedSurvives: does not hold for block 0, which every later commit writes again for the flag.
- Metadata images that begin with the journal magic number are excluded when a block joins a transaction: the writer has no escape for them.
- Locks inside the block cache and the journal are not modelled; the steps of a commit interleave with page writes only.
- WriteDescriptor: is stated for transactions whose tags fit the block, because beyond 127 blocks the source writes past its buffer, which `DescriptorCapacity` makes exact.
- EnableTwice: needs the journal superblock to be disjoint from the metadata that locates it, as a valid image has it.
- Stamps: the sub-makes of a killed run are taken to end with it, and nothing else deletes files of the output tree.
- Stamps: modification times are one free choice at the moment of the decision; of a file's contents only its version is modelled, every write counting as a new one, and a native sub-make writes native files only.
- CutBody: the regular expression that finds a function's opening brace is not modelled.
- `_ordered` and the list of ordering contracts in the wiring check would only add easy members.
- SetAddrKeeps: needs the parsed view to agree with the frame, as the parser leaves it, an IPv4 header whose first byte is not zero, and a frame of at most 65535 bytes; it is stated for TCP and UDP, other protocols having no transport checksum to update.
- ChecksumsValid: is stated for frames that hold an IPv4 header and a TCP or UDP header, the latter behind byte 34 as the frame builder puts it.
- FullSum: is stated for up to 65535 bytes, where the 32-bit sum cannot wrap.
- Connection tracking, the reply tuple and the choice of the masquerading address are not part of this model.
- Lookup: uses unbounded integers for the table index, so it covers tables below 2^30 entries.
- Reading symbols and section ranges out of the ELF file, and printing the tables as C text, are not modelled.
- The names of the coverage table are taken as given; the expression that reads them from the table file is not modelled, and a row name is taken not to span lines.
- Cubic: exact reals instead of floating point.
- Console: bytes are taken as text, clocks and reads as one free choice per turn; the reset command is one that fails or not.
- PackageTar: modes, hashes, links and the bytes of tar headers are not modelled; a header is any whole number of blocks.
- Manifest parsing and validation, boot order, the scheduler, memory management and the gates are not modelled.
