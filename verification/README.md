# Verified models of Xen Orchestra's disk, file system and audit cores

This project models in Dafny the parts of the Xen Orchestra repository that rest on an
argument rather than on a formula: a disk merge that survives crashes, the writers and
readers of streamed VHD files, the FAT file system, the parser and printer of the query
language, a trie updated in place, and the hash chain of the audit log.  The main results hold
for all inputs, all runs and all reachable states of the models.

`dafny verify dfyconfig.toml` checks the whole project.

## The components

`Basics` holds the types that several models share: bytes, UTF-16 units and options.

**Scheduler and merge.**  `AsyncEach` is the scheduler as a state machine whose steps are
turns of the event loop.  `MergeBlocks` is the merge of a child disk into its parent: the
disk (block files, allocation tables, checkpoint), the memory of a session (blocks being
merged, `currentBlock`, the table in memory, checkpoints on their way to the disk) and the
crash.  The rename of a block, the start of a write of the table, which takes the table as it
is then, and its end are three steps, one call at a time writing it
(packages/vhd-lib/Vhd/VhdDirectory.js:165), and any value that `currentBlock` has had may be the
one that reached the disk.  `MergeLosses` holds the two runs
that lose a block.  `Cleanup` is the rename of the parent over the last child and the deletion
of what is not used any more, with and without aliases, again with crashes anywhere.  `Aliases`
is how the text of an alias is written and followed, relative to the directory it is in.

**VHD streams.**  `VhdStructs` packs and unpacks the footer and the header (Virtual Hard Disk
Image Format Specification, sections "Hard Disk Footer Format" and "Dynamic Disk Header
Format").  `VhdStream` is the stream of a disk, `VhdParser` the one-pass reader, and
`VhdRoundTrip` connects the two.  `StreamTrim` cuts a stream behind its last block so that its
length is known.  `SparseWriter` writes a VHD from fragments whose blocks are interleaved.

**FAT.**  `FatTable` is the table as bytes, with the 12-bit entries that share three bytes.
`Volumes` is what a boot sector says of its volume.
`FatChains` reads a table of statuses off it, with the chains, their caches and their growth.
`SectorGroups`, `ChainSectors`, `ChainBytes` and `ChainFiles` go from clusters to runs of
sectors, to whole sectors, to bytes: a file is a flat array of bytes.  `DirEntries` and
`ShortNames` are the long-name entries and the choice of an 8.3 name (FAT32 File System
Specification, sections "FAT Data Structure" and "FAT Long Directory Entries").
`FatDirectories` puts them together: a file is created in a directory that is itself the
contents of a cluster chain.

**Query language.**  `ComplexMatcher` is the grammar with its ordered alternatives and the
printer; `ComplexMatcherRoundTrip` proves that they fit, and `ComplexMatcherTexts` says where white
space may stand and follows one query through both.  Texts are sequences of UTF-16 units:
the parser goes from unit to unit, the printer from code point to code point.  What the host
language decides (which characters may go unquoted, what is white space, the text of a number)
is the parameter `Language`; `Sample` is an instance.

**Trie.**  `MultiKeyMap` is a tree of mutable nodes that share nothing, proved against values of
type `Trie`, and these against finite maps.

**Audit log.**  `AuditChain` is the lock and the concurrent calls of `add`, including failures
of the storage.  `AuditCheck` is the integrity check and `AuditRewrite` the deletion of a range.
The hash is ideal: an identifier is the term it was made from.

## What turned out not to hold

Each of these comes with a lemma at a concrete run or input, and with the exact condition under
which the code is right.

* A merge by rename can lose a block after two crashes: the resumed merge that finds a block
  already moved sets its bit in memory only (packages/vhd-lib/Vhd/VhdDirectory.js:333-348), and
  the checkpoint passes the block before the table is written.  `MergeLosses.TwoCrashesCanLoseABlock`;
  the condition is in `MergeBlocks.MergeIsRightIff`.
* A merge by copy can lose a block after one crash, because the table is written at the end
  only.  `MergeLosses.OneCrashCanLoseACopiedBlock`.  A chain with several children always
  copies: the synthetic disk has `_getFullBlockPath`, while `mergeBlock` asks for `getFullBlockPath`
  (packages/vhd-lib/Vhd/VhdSynthetic.js:111, packages/vhd-lib/Vhd/VhdDirectory.js:310).
* After the merge of a chain that mixes an alias with a VHD under its own name, or whose two
  aliases are in different directories with their data beside them, the target does not open: the
  alias of the parent is moved as it is, and its text is relative (packages/vhd-lib/merge.js:279,
  packages/vhd-lib/aliases.js:28-29).  `Cleanup.MixedChainIsLost`, `Cleanup.FarChainIsLost`;
  `Cleanup.TargetOpensIff`, and for aliases as they are created `Cleanup.CreatedAliasMovesWellIff`.
* A checkpoint is written without waiting for it.  One that reaches the disk after the parent has
  been renamed sends the next session to a parent that is gone, and every session after it.
  `Cleanup.LateCheckpointBlocksResume`; `Cleanup.ResumesIff`.
* The merge of a VHD file and a child that is a directory without alias cannot end: every
  session fails at the rename of the file over the directory.
  `Cleanup.DirectoryChainIsStuck`; `Cleanup.RenameIsSafe`.
* The marks for the end of a chain start at prefix + 0xF8 (FAT32 File System Specification,
  section "FAT Data Structure"), but this first one is read as reserved, and a chain that ends
  with it cannot be read (@vates/fatfs/vol.js:101-107).  `FatTable.EndMarkIff`.
* The search for a free cluster stops at the number of clusters, while clusters are counted from 2:
  the last two of every volume are never given to a file (@vates/fatfs/vol.js:140-145).
  `Volumes.LastClustersAreLost`; `Volumes.UnservedIff`.
* On volumes of 4082 to 4084 and of 65522 to 65524 clusters the search for a free cluster
  (@vates/fatfs/vol.js:135-151) can find one whose number reads back as reserved, and the file
  that gets it cannot be read any more.  `FatChains.TopClusterIsLost`; `FatChains.GrowthIsSafeIff`.
* A 32-bit entry does not keep its reserved bits, and 'free' reads back as a link.
  `FatTable.ReservedBitsAreLost`; `FatTable.ReservedBitsKeptIff`, `FatTable.ReadsBackIff`.
* Shrinking a chain does not shorten it: 'free' is stored as a link and the last cluster kept is
  not marked as the end (@vates/fatfs/chains.js:149-163).  `FatTable.ShrinkingLeadsAway`, for
  every chain.
* Growing a chain leaves a second handle on the same file with a wrong cache.
  `FatChains.SecondHandleIsStale`; `FatChains.OtherCacheSurvivesIff`.
* A compared number that is not written with raw characters only (such as 1e+21) makes the
  parser throw on the printed text.  So does a letter outside the basic plane: the printer tests
  it as one character and leaves the quotes out, the parser tests its halves
  (packages/complex-matcher/index.js:20-25, 491-500).
  `ComplexMatcherRoundTrip.BigNumberDoesNotComeBack`, `ComplexMatcherRoundTrip.PairDoesNotComeBack`;
  `ComplexMatcherRoundTrip.RoundTripIff`.
* The fragments of a sparse disk may repeat an address, but not that of the last fragment of a
  block.  `SparseWriter.RepeatedFragmentIsMisplaced`; `SparseWriter.BlocksInPlaceIff`.
* A VHD stream with a part of a gigabyte, or a parent locator that has space and no data, is
  written but not read back.  `VhdRoundTrip.EmptyLocatorIsRefused`; `VhdRoundTrip.StreamRoundTripIff`.
* Trimming the stream of a disk without blocks changes it when a locator takes space or the table is
  empty.  `StreamTrim.EmptyDiskIsCutShort`; `StreamTrim.TrimKeepsImageIff`.
* An array as an element of a key does not come out of `entries` as it went in.
  `MultiKeyMap.ArrayKeyIsSpread`; `MultiKeyMap.EntryKeyIsRightIff`.
* When a record has been put and `setLastId` fails, the next record has the same predecessor,
  which is a fork unless it has the same payload.  `AuditChain.FailedLinkCanFork`,
  `AuditChain.RetryIsNoFork`; `AuditChain.ForkIff`.
* With repeated payloads `deleteRangeAndRewrite` can delete a record that it has just chained, which
  leaves the chain broken.  `AuditRewrite.RepetitionCanLoseARecord`; the condition is in
  `AuditRewrite.RewriteIsChainIff`.
* `checkIntegrity` of the empty stretch before the first record reports it missing in every log
  that has not been emptied.  `AuditCheck.BeforeTheFirstIsValidIff`.

## Model

| member | source | states |
|---|---|---|
| AsyncEach.StepInv | @vates/async-each/index.js:54-105 | every turn keeps the invariant: running tasks are counted exactly and within the limit, the first items are started and no other, the promise is settled properly, and no wake-up is lost |
| AsyncEach.RunInv | @vates/async-each/index.js:22-107 | the invariant holds in every state of every run, and each turn uses up a finite budget |
| AsyncEach.RunsAreBounded | @vates/async-each/index.js:70-105 | every run ends after at most two turns for each item and one for the end |
| AsyncEach.UnsettledCanMove | @vates/async-each/index.js:70-105 | no lost wake-up: a run whose promise is unsettled always has a turn to take |
| AsyncEach.StartsInOrder | @vates/async-each/index.js:75-97 | a turn starts the next item or none, so that items are started once each, in order, and never more tasks are pending than the limit |
| AsyncEach.SettlesOnce | @vates/async-each/index.js:36-67 | once settled, the promise is settled exactly once for the rest of the run, and with the same outcome |
| AsyncEach.SettlesAfterLastTask | @vates/async-each/index.js:60-88 | without `stopOnError` a run that can go no further has settled after the last task of the last item; what counts as a failure is in `AsyncEach.RejectsWithFailures` |
| AsyncEach.NeverSettlesEarly | @vates/async-each/index.js:78-88 | without `stopOnError` the promise is unsettled while an item is unstarted or a task is pending |
| AsyncEach.StopsOnFirstError | @vates/async-each/index.js:60-88 | with `stopOnError` a complete run has rejected, or resolved after the last task; what counts as a failure is in `AsyncEach.RejectsWithFirstFailure` |
| AsyncEach.RejectsWithFailures | @vates/async-each/index.js:54-105 | from the turns alone: without `stopOnError` a run that can go no further has ended every item once, and rejects with exactly the tasks whose promise was rejected or whose call threw, in that order, or resolves when there are none |
| AsyncEach.RejectsWithFirstFailure | @vates/async-each/index.js:60-67 | from the turns alone: with `stopOnError` the promise is rejected with the first such task as soon as it fails, and resolved after the last task when none does |
| AsyncEach.HistoryAt | @vates/async-each/index.js:54-105 | what a state remembers (pending, ended and failed tasks, settlement) is what its turns amount to |
| AsyncEach.LimitIsReached | @vates/async-each/index.js:70-97 | as long as items may be left and the iterator is not awaited, as many tasks are pending as the limit allows |
| MergeBlocks.MergeIsRightIff | packages/vhd-lib/merge.js:161-254 | after any crashes a finished merge holds the child's block where the child had one and the parent's otherwise exactly when the last session found every block it skipped in the table it opened |
| MergeBlocks.OneTornCrashIsSurvived | packages/vhd-lib/Vhd/VhdDirectory.js:320-348 | by rename, at any concurrency and from whichever checkpoint was persisted, the merge is right if at most one crash fell between a rename and the write of the table |
| MergeBlocks.TornCrashesAreCounted | packages/vhd-lib/Vhd/VhdDirectory.js:320-331 | a crash is torn exactly when it leaves a block file of the parent that the table on the disk does not list |
| MergeBlocks.OneCrashIsSurvived | packages/vhd-lib/merge.js:161-254 | by rename, at any concurrency, one crash at any point followed by a resume from whichever checkpoint was persisted leaves the right merged disk |
| MergeBlocks.UntornCrashesAreSurvived | packages/vhd-lib/Vhd/VhdDirectory.js:326-331 | in both modes any number of crashes is survived if none of them falls between the transfer of a block and the write of a table that lists it, as when the two are one step |
| MergeBlocks.CleanCrashesAreSurvived | packages/vhd-lib/Vhd/VhdDirectory.js:320-331 | by rename any number of crashes is survived if none comes while a block is between its rename and the write of its bit, which is what making the two one step would ensure |
| MergeBlocks.BlocksAreConserved | packages/vhd-lib/Vhd/VhdDirectory.js:320-347 | by rename, in every reachable state each block of the child is in exactly one place, and the old block of the parent is intact until it is replaced |
| MergeBlocks.TransfersNeverFail | packages/vhd-lib/Vhd/VhdDirectory.js:332-347 | a block that is missing from the child is always found readable in the parent, and only by a session that resumes |
| MergeBlocks.CheckpointsAreSafe | packages/vhd-lib/merge.js:206-219 | below every value of `currentBlock` in memory, on disk or on its way there, every block of the child is merged |
| MergeBlocks.CurrentBlockIsMonotone | packages/vhd-lib/merge.js:207-211 | `currentBlock` never decreases within a session and never passes a block still being merged; which value it takes is in `MergeBlocks.CheckpointIsLeast` |
| MergeBlocks.CheckpointIsLeast | packages/vhd-lib/merge.js:209-211 | when a block leaves the set of those being merged, `currentBlock` becomes the least of that set as it was, and may be written from then on |
| MergeBlocks.CheckpointWaits | packages/vhd-lib/merge.js:209-219 | as long as none does, `currentBlock` and the values that may be written stay as they are |
| MergeBlocks.CheckpointCatchesUp | packages/vhd-lib/merge.js:204-219 | once a block has been merged while all those being merged were at least v, `currentBlock` is at least v for the rest of the session |
| MergeBlocks.LimitIsRespected | packages/vhd-lib/merge.js:204-223 | at most as many blocks as the concurrency allows are being merged at once, through any crashes |
| MergeBlocks.AnotherCanStart | packages/vhd-lib/merge.js:204-223 | below that limit the next block can be started, whatever else is being merged |
| MergeBlocks.SessionStartsAtCheckpoint | packages/vhd-lib/merge.js:161-184 | a session starts from the checkpoint on the disk, or without one from the first block of the child, which it writes, and with the table on the disk |
| MergeBlocks.AnyValueMayLand | packages/vhd-lib/merge.js:64-66 | any value that `currentBlock` has had in a session may be the next one to reach the state file |
| MergeBlocks.TableLandsAsTaken | packages/vhd-lib/Vhd/VhdDirectory.js:165-173 | the table goes to the disk as it was in memory when its writing started, one writing at a time |
| MergeBlocks.TableChangesOnly | packages/vhd-lib/Vhd/VhdDirectory.js:320-331 | and changes in no other way until the last table is written |
| MergeBlocks.SessionCanProceed | packages/vhd-lib/merge.js:190-223 | without a crash a session always has something to do until the merge is complete |
| MergeBlocks.SessionIsBounded | packages/vhd-lib/merge.js:190-223 | an uncrashed session takes at most seven steps for each block of the child and one more, late writes of the checkpoint apart, and is sealed when it has taken all that were left to it |
| MergeBlocks.SessionCanFinish | packages/vhd-lib/merge.js:190-254 | from every reachable state of a session steps without a crash lead to the completed merge |
| MergeBlocks.StepInv | packages/vhd-lib/merge.js:161-254 | every step, crashes, late checkpoints and tables written as they were when their writing started included, keeps the invariant of disk and memory |
| MergeBlocks.FirstAllocated | packages/vhd-lib/merge.js:179-182 | the loop finds the first block of the child, or the size of its table when it has none |
| MergeBlocks.ToMerge | packages/vhd-lib/merge.js:191-197 | the list holds exactly the blocks of the child from the checkpoint on, in ascending order |
| MergeBlocks.NextItemIsStarted | packages/vhd-lib/merge.js:204-207 | taking the items of that list in order starts the blocks that the step relation starts |
| MergeLosses.TwoCrashesCanLoseABlock | packages/vhd-lib/Vhd/VhdDirectory.js:332-348 | a run with two crashes that completes without a block of the child |
| MergeLosses.OneCrashCanLoseACopiedBlock | packages/vhd-lib/Vhd/VhdDirectory.js:352-360 | a run by copy with one crash that completes without a block of the child |
| Aliases.CreatedAliasResolves | packages/vhd-lib/Vhd/VhdAbstract.js:236-255 | an alias is created exactly if its name is one and its target is none, then resolves to its target, and no other file changes |
| Aliases.ChainedAliasIsRefused | packages/vhd-lib/aliases.js:23-27 | an alias whose text names another alias is refused |
| Aliases.MovedAliasResolvesIff | packages/vhd-lib/aliases.js:23-29 | moved to another place, such an alias resolves to the same exactly if as many levels above its new directory is the directory that it shared with its target, the deepest one (`Aliases.CommonIsLongest`) |
| Aliases.CommonIsLongest | packages/vhd-lib/Vhd/VhdAbstract.js:246-247 | the directory from which the text goes down is the deepest that alias and target have in common |
| Aliases.InsideNeedsNoUps | packages/vhd-lib/Vhd/VhdAbstract.js:246-247 | for a target inside the directory of its alias the text is the names below that directory, without ".." |
| Aliases.AliasMovesWithDirectory | packages/vhd-lib/_resolveRelativeFromFile.js:5-10 | an alias and a target inside its directory, moved together to any other directory and under any other name, still belong to each other |
| Aliases.HasSuffixIff | packages/vhd-lib/aliases.js:7-9 | an alias is a name that ends in ".alias.vhd" |
| Cleanup.StepInv | packages/vhd-lib/merge.js:258-303 | every step of the cleanup, in every session, keeps the invariant of the files and of the stage reached |
| Cleanup.MergedDataIsKept | packages/vhd-lib/merge.js:258-303 | for every chain and through any crashes the merged data is never deleted |
| Cleanup.MergedDataStaysReachable | packages/vhd-lib/merge.js:258-303 | when the rename keeps the meaning of the name (no alias, or two whose directories take the text of the first to the same place), the merged disk opens under the name of the parent until the rename and under that of the target from then on, through any crashes |
| Cleanup.TargetOpensIff | packages/vhd-lib/merge.js:270-294 | a finished cleanup leaves the merged disk under the name of the target exactly when parent and target are no aliases, or two aliases and the text of the first leads to the same place from both directories |
| Cleanup.SameDirectoryMovesWell | packages/vhd-lib/_resolveRelativeFromFile.js:5-10 | two names in one directory, both aliases or both not, meet that condition |
| Cleanup.CreatedAliasMovesWellIff | packages/vhd-lib/Vhd/VhdAbstract.js:236-255 | for two aliases, the first as `createAlias` writes it, the condition is that as many levels above the target is the directory that the parent shares with its data |
| Cleanup.MixedChainIsLost | packages/vhd-lib/merge.js:270-294 | a run of the cleanup, without a crash, on a parent that is no alias and a target that is one: at the end the target does not open |
| Cleanup.FarChainIsLost | packages/vhd-lib/merge.js:270-294 | a run of the cleanup, without a crash, on two aliases in two directories with their data beside them: at the end the target does not open |
| Cleanup.FarChainIsCreated | packages/vhd-lib/Vhd/VhdAbstract.js:236-255 | the aliases of that run are those that `createAlias` writes |
| Cleanup.ResumesIff | packages/vhd-lib/merge.js:85-121 | a session that died can be taken up again exactly if the state file records the cleanup or the parent is still there |
| Cleanup.CrashAfterRenameIsSurvived | packages/vhd-lib/merge.js:278-294 | dying right after the rename does no harm: the next session finds the parent gone, comes to the end, and the target opens |
| Cleanup.LateCheckpointBlocksResume | packages/vhd-lib/merge.js:204-219 | unless a checkpoint written without waiting lands after the rename: a run from any chain of two without directories after which no step is possible |
| Cleanup.RenameIsSafe | packages/vhd-lib/merge.js:278-294 | the rename succeeds, or finds the parent gone in a session that resumes, exactly when the target is not a directory without alias; the old data that is unlinked is never the merged data |
| Cleanup.DirectoryIsNeverReplaced | packages/vhd-lib/merge.js:278-294 | when the target is a directory without alias no session gets past the rename, and no file is touched |
| Cleanup.DirectoryChainIsStuck | packages/vhd-lib/merge.js:278-294 | the first session on a file and a directory gets to the rename and no further |
| Cleanup.WhatIsLeft | packages/vhd-lib/Vhd/VhdAbstract.js:209-234 | at the end every file is left but the parent's name, the unused children and the target's old data, which only a crash or a failed deletion among the events of the run can leak |
| Cleanup.MemoryIs | packages/vhd-lib/merge.js:258-303 | a state remembers a crash or a failed deletion exactly when the run had one |
| ComplexMatcherRoundTrip.RoundTripIff | packages/complex-matcher/index.js:20-25 | parsing the text of a tree gives the tree back exactly when its compared numbers are raw and the names and strings it prints without quotes are raw unit by unit; otherwise the parser throws |
| ComplexMatcherRoundTrip.PairDoesNotComeBack | packages/complex-matcher/index.js:20-25 | a quoted letter that takes two units is parsed, printed without quotes, and its text throws |
| ComplexMatcherRoundTrip.BigNumberDoesNotComeBack | packages/complex-matcher/index.js:86-88 | a comparison with a large number is parsed, printed with an exponent, and its text throws |
| ComplexMatcherRoundTrip.TermReads | packages/complex-matcher/index.js:528-539 | a printed term whose numbers and bare texts are raw, followed by what can follow one, is read back: every earlier alternative fails on it |
| ComplexMatcherRoundTrip.TermsRead | packages/complex-matcher/index.js:419-440 | printed terms joined by spaces are read back by the repetition, which stops behind the last one |
| ComplexMatcherRoundTrip.QuotedBodyReads | packages/complex-matcher/index.js:474-490 | escaping and reading a quoted string undo each other, wherever it stands |
| ComplexMatcherRoundTrip.NameReads | packages/complex-matcher/index.js:491-500 | a formatted name, quoted or bare and raw unit by unit, is read back as that name |
| ComplexMatcherRoundTrip.TermIsTree | packages/complex-matcher/index.js:528-548 | whatever a term is parsed from, it is one of the trees for which the round trip is stated |
| ComplexMatcherRoundTrip.ParseIsTree | packages/complex-matcher/index.js:463-464 | so is whatever a whole text is parsed to |
| ComplexMatcherRoundTrip.PrintIsStable | packages/complex-matcher/index.js:46-65 | printing is a normal form: the text of a parsed tree parses to that tree under the condition of the round trip, and throws otherwise |
| ComplexMatcherRoundTrip.PrintIsInjective | packages/complex-matcher/index.js:46-65 | a tree that comes back from its text is the only one with that text |
| ComplexMatcherRoundTrip.SampleIsValid | packages/complex-matcher/index.js:491-500 | what is asked of the host language can be met, with cased letters outside the basic plane and numbers written with an exponent |
| ComplexMatcherTexts.SpacesInProperty | packages/complex-matcher/index.js:528-539 | white space before and behind the colon of a property counts for nothing |
| ComplexMatcherTexts.SpacesInOr | packages/complex-matcher/index.js:528-548 | nor does it between the bar and its parenthesis and behind that |
| ComplexMatcherTexts.SpacesBehindTerm | packages/complex-matcher/index.js:528-539 | nor behind a term |
| ComplexMatcherTexts.QueryIsPrinted | packages/complex-matcher/index.fixtures.js:5-15 | the query of the tests, without its regular expression, is printed as they have it |
| ComplexMatcherTexts.QueryIsParsed | packages/complex-matcher/index.fixtures.js:5-15 | and parsed as they have it |
| ComplexMatcherTexts.ComparisonsReturn | packages/complex-matcher/index.js:91-96 | each of the four comparisons is parsed and printed as it is written |
| ComplexMatcherTexts.NumbersAndStringsReturn | packages/complex-matcher/index.test.js:37-53 | so are 32, which is a number or a string, "32", which is a string, and the empty query |
| ComplexMatcherTexts.NestedReturns | packages/complex-matcher/index.js:60-68 | a nested conjunction keeps its parentheses |
| ComplexMatcher.Repeat | packages/complex-matcher/index.js:419-440 | the repetition of terms ends, because each consumes something |
| ComplexMatcher.ReadWhile | packages/complex-matcher/index.js:465-473 | the loop returns the longest run of such characters, and fails when it is empty |
| ComplexMatcher.IsRawString | packages/complex-matcher/index.js:20-25 | the loop over code points tells whether a text may be printed without quotes |
| ComplexMatcher.ReadQuoted | packages/complex-matcher/index.js:474-490 | the loop reads the body of a quoted string as the grammar does, a backslash at the end included |
| ComplexMatcher.ReadTerms | packages/complex-matcher/index.js:419-440 | the loop of `repeat` returns what the recursive repetition does, with its minimum |
| FatChains.ChainIsAcyclic | @vates/fatfs/chains.js:107-128 | no cluster occurs twice in a chain |
| FatChains.ChainsAreDisjoint | @vates/fatfs/chains.js:107-128 | in a well-formed table chains with different first clusters have no cluster in common |
| FatChains.ChainIsUnique | @vates/fatfs/chains.js:117-128 | a chain is determined by its first cluster |
| FatChains.WalkFollowsChain | @vates/fatfs/chains.js:117-128 | following the links from the first cluster meets the clusters of the chain in order, then the end |
| FatChains.MarkedIsWellFormed | @vates/fatfs/vol.js:147-150 | marking a free cluster as the end of a chain keeps the table well formed: links lead to allocated clusters, no two to the same one, and every chain ends |
| FatChains.LinkedIsWellFormed | @vates/fatfs/chains.js:136-142 | a link behind the end of a chain that reads back as it was stored keeps the table well formed |
| FatChains.LinkedChain | @vates/fatfs/chains.js:136-142 | such a link lengthens the chain that ended there by that cluster and leaves every other chain as it was |
| FatChains.AppendedChainIff | @vates/fatfs/vol.js:101-107 | with the number as the table stores it, the chain goes on to the new cluster exactly when that number is neither below 2 nor above the prefix plus 0xF0 |
| FatChains.GrowthIsSafeIff | @vates/fatfs/vol.js:26-33 | growing keeps every well-formed table of a volume well formed exactly when its number of clusters is not 4082 to 4084, 65522 to 65524 or above 0x0FFFFFF1 |
| FatChains.Volume.LinksReadBackIff | @vates/fatfs/vol.js:101-107 | these are the volumes for which the results on writing are stated |
| FatChains.TopClusterIsLost | @vates/fatfs/vol.js:101-107 | on any other volume, a table whose only free cluster is the first that no link can hold: the search finds it, and the file that gets it cannot be read any more |
| FatChains.Volume.AllocateInFAT | @vates/fatfs/vol.js:135-151 | the first free cluster from the hint on is taken and marked; without one nothing changes |
| FatChains.Volume.AppendTo | @vates/fatfs/chains.js:136-142 | the first free cluster is marked and its number stored at the old end, whatever the table makes of it; when a link can hold the number, a well-formed table stays well formed |
| FatChains.ClusterChain.ExtendCacheToInclude | @vates/fatfs/chains.js:117-128 | the cache grows, stays a prefix of the chain on disk, and is the whole of it once it ends in eof |
| FatChains.ClusterChain.ExpandChainToLength | @vates/fatfs/chains.js:130-147 | on every volume: if links can hold the numbers of the new clusters, each of them was free, other chains are kept, the table is well formed and the cache right whether or not there was room; if not, the cache is wrong |
| FatChains.GrowsOnce | @vates/fatfs/chains.js:134-145 | one more cluster, with a link that reads back, keeps the state between two additions |
| FatChains.GrowthKeepsChain | @vates/fatfs/chains.js:130-147 | growing a chain, once or many times, leaves every other chain as it was, apart from the new clusters |
| FatChains.OtherCacheSurvivesIff | @vates/fatfs/chains.js:107-115 | growing a chain keeps every cache right but a complete one of that chain |
| FatChains.SecondHandleIsStale | @vates/fatfs/chains.js:107-115 | two handles on a file of one cluster: when one of them adds a cluster, the cache of the other is wrong |
| SectorGroups.CoverAt | @vates/fatfs/chains.js:166-203 | the clusters of a range stand for each of its sectors once, in order: the j-th is one sector of its cluster, in the data area as `SectorGroups.DataSectorIff` describes it |
| SectorGroups.DataSectorIff | @vates/fatfs/vol.js:43-45 | a sector is in the data area exactly if it is a sector of a cluster from 2 on |
| SectorGroups.SectorOfOneCluster | @vates/fatfs/vol.js:43-45 | and then of one cluster only, at one place |
| ChainSectors.ViewIsOnVolume | @vates/fatfs/vol.js:43-45 | sector s of a file is sector s mod n, n to a cluster, of its cluster s div n, clusters being counted from 2 at the start of the data area, and lies on the device |
| Volumes.AreasFollowOneAnother | @vates/fatfs/vol.js:17-29 | a volume is accepted exactly if it is signed, has the sectors of the device and fits on it; then the root directory follows the tables with as many sectors as its entries take and no more, and cluster 2 follows it |
| Volumes.ClusterFitsIff | @vates/fatfs/vol.js:17-22 | a cluster lies in the volume exactly if its number is at most one more than the number of clusters |
| Volumes.SearchStaysOnDevice | @vates/fatfs/vol.js:17-45 | the clusters that can be allocated on an accepted volume lie on the device, which the results on files ask for |
| Volumes.UnservedIff | @vates/fatfs/vol.js:135-151 | of the clusters in the volume exactly the last two are never found by the search |
| Volumes.LastClustersAreLost | @vates/fatfs/vol.js:135-151 | on every volume of two clusters or more, a well-formed table with two free clusters in the volume that has no room |
| SectorGroups.BuildGroups | @vates/fatfs/chains.js:179-202 | the groups stand for exactly those sectors, no two neighbours could be one, and `complete` tells whether the chain was long enough |
| ChainSectors.PlaceIs | @vates/fatfs/chains.js:166-203 | the j-th sector of the groups is the j-th requested sector of the chain |
| ChainSectors.PickIsView | @vates/fatfs/chains.js:205-220 | reading along the groups gives that part of the chain |
| ChainSectors.PutIsOverwrite | @vates/fatfs/chains.js:223-237 | writing along the groups overwrites that part of the chain and no other sector of the volume |
| ChainSectors.ReadGroups | @vates/fatfs/chains.js:205-220 | the loop over the groups fills the buffer, the last group only as far as it goes |
| ChainSectors.WriteGroups | @vates/fatfs/chains.js:223-237 | the loop over the groups writes the data, the last group only as far as it goes |
| ChainBytes.PositionSplits | @vates/fatfs/chains.js:9-14 | a position and a sector with an offset stand for each other exactly as `posFromOffset` computes |
| ChainBytes.OverwriteWrites | @vates/fatfs/chains.js:66-100 | overwriting sectors of which only the range differs changes exactly the range of bytes |
| ChainFiles.ChainFile.ReadSectors | @vates/fatfs/chains.js:205-220 | the sectors are returned if the chain has them all, and nothing otherwise |
| ChainFiles.ChainFile.WriteSectors | @vates/fatfs/chains.js:223-237 | the chain gets exactly the clusters that it lacks and exactly those sectors change; it fails only when no cluster is free behind the last one, and then no sector is written |
| ChainFiles.ChainFile.ReadFromPosition | @vates/fatfs/chains.js:26-63 | for any offset and length exactly the bytes asked for are returned if the chain has them, and otherwise those up to the last end of a part (partial first sector, whole sectors, partial last one) that it has; the sectors are those of `ChainSectors.ViewIsOnVolume` |
| ChainFiles.ChainFile.WriteToPosition | @vates/fatfs/chains.js:66-100 | for any offset and length the range becomes the data, and every other byte of the file, every sector outside its clusters and every entry of the table but those of the new clusters and of the old end is kept; a first sector that the file did not have is zero around the data; the chain gets exactly the clusters up to the last byte written; it fails only when no cluster is free behind the last one, and then no byte outside the range has changed |
| ChainFiles.LengthensTwice | @vates/fatfs/chains.js:66-100 | a chain lengthened in the parts of a write has the clusters that the last part needs and no more |
| ChainFiles.ReadsBack | @vates/fatfs/chains.js:26-100 | reading what has been written returns it |
| ChainFiles.OtherFileKept | @vates/fatfs/chains.js:66-100 | a write leaves what any other file contains |
| FatTable.EntryIndependence | @vates/fatfs/vol.js:111-133 | after storing a value in entry n, entry m has its low 28 bits if m is n and its old value otherwise, for all three types |
| FatTable.ReadsBackIff | @vates/fatfs/vol.js:101-107 | a status reads back as it was stored exactly when it is not 'free', which reads back as a link to the prefix, and not a number that means something else |
| FatTable.ReservedBitsKeptIff | @vates/fatfs/vol.js:117-132 | a 32-bit entry keeps its four reserved bits exactly when they are those of the stored value |
| FatTable.EntriesAreDigits | @vates/fatfs/vol.js:70-107 | the table is one little-endian number and its entries are the digits of that number in base 4096, 65536 or 2^32, of which 28 bits count |
| FatTable.EndMarkIff | @vates/fatfs/vol.js:101-107 | of the eight marks for the end of a chain the first is read as reserved and the others as ends; which numbers are bad, reserved and links; what is stored as an end is the last mark |
| FatTable.EntryInSectors | @vates/fatfs/vol.js:70-76 | the sector and offset computed for a cluster are where the bytes of its entry are, in one sector or across two |
| FatTable.ReadIsEntry | @vates/fatfs/vol.js:85-97 | whatever meets the contract of `readFromPosition` returns for that sector and offset the bytes of the entry |
| FatTable.WrittenIsPut | @vates/fatfs/vol.js:111-133 | whatever meets the contract of `writeToPosition` turns the table into the one with that entry replaced |
| FatTable.StoreIsUpdate | @vates/fatfs/vol.js:111-133 | storing a status replaces one element of the table of statuses |
| FatTable.ShrinkingLeadsAway | @vates/fatfs/chains.js:149-163 | a chain shrunk to k clusters still has its cluster k, and goes on from there to the cluster whose number is the prefix |
| FatTable.FatRegion.FetchFromFAT | @vates/fatfs/vol.js:85-109 | read through its sector and offset, the entry gives its status, the shared bytes included |
| FatTable.FatRegion.StoreToFAT | @vates/fatfs/vol.js:111-133 | written through its sector and offset, the entry has the status that its value reads back as, and no other status changes |
| FatTable.FatRegion.AllocateInFAT | @vates/fatfs/vol.js:135-151 | on the bytes the search does to the statuses what it does in a volume of chains |
| FatTable.FatRegion.AppendTo | @vates/fatfs/chains.js:136-142 | on the bytes, marking and linking do to the statuses what they do in a volume of chains; the link is one exactly when the number of the new cluster can be held |
| VhdStructs.UIntOfBigEndian | packages/vhd-lib/_structs.js:10-20 | an unsigned integer that fits its field is read back as it was written |
| VhdStructs.FooterRoundTrip | packages/vhd-lib/Vhd/_utils.js:96-102 | a packed footer with its checksum unpacks to itself exactly when it passes the checks, whose bytes `VhdStructs.UnpackFooterIff` gives |
| VhdStructs.HeaderRoundTrip | packages/vhd-lib/Vhd/_utils.js:60-66 | so does a packed header, with `VhdStructs.UnpackHeaderIff` |
| VhdStructs.UnpackFooterIff | packages/vhd-lib/Vhd/_utils.js:96-102 | 512 bytes are accepted exactly when the big-endian number in 64-67 and all the other bytes add up to 0xFFFFFFFF, and the cookie, version, offset, sizes and type, at their places, are right |
| VhdStructs.UnpackHeaderIff | packages/vhd-lib/Vhd/_utils.js:60-66 | so are the 1024 bytes of a header, with the number in 36-39 |
| VhdStructs.SealedFooterSumsUp | packages/vhd-lib/_structs.js:92-110 | the bytes of a footer packed with its checksum add up |
| VhdStructs.SealedHeaderSumsUp | packages/vhd-lib/_structs.js:92-110 | and so do those of a header |
| VhdStructs.LocatorBytesAre | packages/vhd-lib/_structs.js:60-70 | where the five fields of each of the eight locators are |
| VhdStructs.ChangedFooterIsRefused | packages/vhd-lib/Vhd/_utils.js:28-32 | an accepted footer is refused after any change of one byte, in the checksum or outside |
| VhdStructs.ChangedHeaderIsRefused | packages/vhd-lib/Vhd/_utils.js:28-32 | and so is a header |
| VhdStream.BatEntryIs | packages/vhd-lib/Vhd/VhdAbstract.js:303-318 | each entry computed in advance is the sector where the block will be sent, and no used entry reads as unused |
| VhdStream.BitmapHasBitForEachSector | packages/vhd-lib/Vhd/_utils.js:12-20 | a bitmap has a bit for each sector of its block and no sector more than it needs |
| VhdStream.TableCoversDisk | packages/vhd-lib/_checkHeader.js:7-16 | the table of an accepted header has an entry for every byte of the disk |
| VhdStream.ImageLength | packages/vhd-lib/Vhd/VhdAbstract.js:257-275 | the stream is as long as its parts and takes whole sectors |
| VhdStream.StreamSize | packages/vhd-lib/Vhd/VhdAbstract.js:257-275 | `streamSize()` is the number of bytes sent |
| VhdStream.ComputeBat | packages/vhd-lib/Vhd/VhdAbstract.js:303-318 | the table and the announced length computed before anything is sent |
| VhdStream.SendBlocks | packages/vhd-lib/Vhd/VhdAbstract.js:346-356 | the blocks found in the computed table are all the blocks, in order |
| VhdStream.Stream | packages/vhd-lib/Vhd/VhdAbstract.js:278-365 | what is sent is the image of the disk, of exactly the announced length |
| VhdParser.SortSorts | packages/vhd-lib/parseVhdStream.js:100-101 | the index is put in the order of positions and keeps its entries |
| VhdParser.ReadLastSector | packages/vhd-lib/parseVhdStream.js:8-28 | the capped buffer ends up with the last sector of the stream, whatever its chunks |
| VhdParser.StreamParser.Read | packages/vhd-lib/parseVhdStream.js:40-57 | the chunk at that position is read exactly when it is not behind what was read, not empty, below the limit and there |
| VhdParser.StreamParser.AddBlocks | packages/vhd-lib/parseVhdStream.js:112-130 | the entries of the table join the index, unless one of them lies before the end of the table |
| VhdParser.StreamParser.UntilBat | packages/vhd-lib/parseVhdStream.js:74-136 | the parts before and up to the table, wherever it is among the locators |
| VhdParser.StreamParser.Blocks | packages/vhd-lib/parseVhdStream.js:138-156 | the rest of the index in order, each part also cut as a block would be, and whether the stream ends with the first footer |
| VhdParser.StreamParser.Parse | packages/vhd-lib/parseVhdStream.js:158-161 | the parser yields what parsing the whole input as a value yields, and fails exactly when that does |
| VhdRoundTrip.StreamRoundTripIff | packages/vhd-lib/parseVhdStream.js:40-156 | a streamed disk with any blocks and any locators parses back to its footer, header, table, locators and blocks in order, with the end footer accepted, exactly when no part is empty or a gigabyte long |
| VhdRoundTrip.EmptyLocatorIsRefused | packages/vhd-lib/parseVhdStream.js:40-57 | an empty disk with a locator that has space and no data: its stream is refused |
| VhdRoundTrip.BlockIsThere | packages/vhd-lib/Vhd/VhdAbstract.js:346-356 | the block is in the stream at the position that its entry gives |
| VhdRoundTrip.LocatorIsThere | packages/vhd-lib/Vhd/VhdAbstract.js:335-344 | so is the data of a locator at the offset in the streamed header |
| VhdRoundTrip.TableLeadsToBlocks | packages/vhd-lib/parseVhdStream.js:112-130 | the reader finds the blocks of the disk through the streamed table, in order |
| VhdRoundTrip.ImageReadsInPlace | packages/vhd-lib/Vhd/VhdAbstract.js:278-365 | a reader that goes by the bytes alone finds everything: the footer at both ends, the header at 512, the table at 1536, each block at 512 times its big-endian entry, 0xFFFFFFFF for none, each locator at the offset in its entry, and both checksums add up |
| VhdRoundTrip.WalkIsItems | packages/vhd-lib/parseVhdStream.js:138-156 | reading the index succeeds exactly when the parts can be read one after the other and the footer follows |
| StreamTrim.GetFirstAndLastBlocks | packages/vhd-lib/_getFirstAndLastBlocks.js:9-49 | the used entries with the smallest and the largest sector, or none when no entry is used |
| StreamTrim.EndCutterStream.Transform | packages/vhd-lib/createVhdStreamWithLength.js:22-36 | after any chunks, what was sent on is the input so far cut at the offset with the footer behind it |
| StreamTrim.CreateVhdStreamWithLength | packages/vhd-lib/createVhdStreamWithLength.js:39-87 | the output is the input up to the end of the block with the largest sector, then the first footer; the announced length is right exactly when the input reaches the cut; it fails exactly when the head of the stream is refused |
| StreamTrim.BitmapsAgree | packages/vhd-lib/createVhdStreamWithLength.js:73-75 | the size of a block computed here is the one the writer uses, for every size that the check of the header accepts |
| StreamTrim.TrimKeepsImageIff | packages/vhd-lib/createVhdStreamWithLength.js:70-86 | trimming is the identity on the stream of a disk that has a block; without blocks, exactly if the table has entries and no locator takes space |
| StreamTrim.EmptyDiskIsCutShort | packages/vhd-lib/createVhdStreamWithLength.js:70-86 | an empty disk with a locator whose stream is changed |
| SparseWriter.BlocksInPlaceIff | packages/vhd-lib/createReadableSparseStream.js:97-105 | the position assertion never fails exactly when no earlier fragment has the address of the last one of its block |
| SparseWriter.DistinctIsEnough | packages/vhd-lib/createReadableSparseStream.js:22-46 | which distinct addresses ensure, interleaved or not |
| SparseWriter.LastFragments | packages/vhd-lib/createReadableSparseStream.js:29-36 | the backward pass finds the last fragment of each block and the blocks from last to first |
| SparseWriter.InOrderStep | packages/vhd-lib/createReadableSparseStream.js:119-135 | one more fragment keeps the waiting blocks and those sent right |
| SparseWriter.GenerateBlocks | packages/vhd-lib/createReadableSparseStream.js:115-136 | every block is sent with all its fragments, none is left waiting, and it fails exactly when a last address is repeated |
| SparseWriter.CreateBat | packages/vhd-lib/createReadableSparseStream.js:27-46 | the blocks get consecutive places in the order of their last fragments, and other entries stay unused |
| SparseWriter.InsertFragmentInBlock | packages/vhd-lib/createReadableSparseStream.js:107-113 | exactly the bits of the fragment's sectors are set and exactly its bytes replaced |
| SparseWriter.CoversByteIff | packages/vhd-lib/createReadableSparseStream.js:107-113 | a fragment covers a byte of a block exactly when the address of that byte in the disk is in the fragment |
| SparseWriter.FirstBitIsHighest | packages/vhd-lib/_bitmap.js:3-9 | the bit of the first sector is the most significant one |
| SparseWriter.CreateReadableSparseStream | packages/vhd-lib/createReadableSparseStream.js:60-149 | the stream has the announced length, and its bytes are an image: the footer at both ends, the header, and a big-endian table of which each entry leads to its block, where a bit is set exactly when its sector was covered and each byte is that of the last fragment on it, or says that no fragment was in it; it throws exactly for a fragment size that does not divide a block into at most 53 parts or for a repeated last address |
| MultiKeyMap.FindPut | @vates/multi-key-map/index.js:66-87 | after a set, a key has the new value if it was the one set and its old value otherwise |
| MultiKeyMap.FindDelete | @vates/multi-key-map/index.js:10-37 | after a delete, a key has no value if it was the one deleted and its old value otherwise |
| MultiKeyMap.PutStandsFor | @vates/multi-key-map/index.js:66-87 | setting is updating the finite map |
| MultiKeyMap.DeleteStandsFor | @vates/multi-key-map/index.js:10-37 | deleting is removing from the finite map |
| MultiKeyMap.PutKeepsShape | @vates/multi-key-map/index.js:66-87 | setting leaves no node without children |
| MultiKeyMap.DeleteKeepsShape | @vates/multi-key-map/index.js:28-36 | nor does deleting, which collapses nodes |
| MultiKeyMap.TidyHasBinding | @vates/multi-key-map/index.js:28-36 | under every node there is a binding |
| MultiKeyMap.EmptyIffNothing | @vates/multi-key-map/index.js:105-125 | the tree is gone exactly when the map is empty |
| MultiKeyMap.EntryKeyIsRightIff | @vates/multi-key-map/index.js:47-49 | an entry comes out under its key exactly when no element of the key is an array |
| MultiKeyMap.GetTree | @vates/multi-key-map/index.js:56-64 | the lookup in the mutable tree is the lookup in the trie it stands for |
| MultiKeyMap.SetTree | @vates/multi-key-map/index.js:66-87 | updating the nodes in place does to the tree what setting does to the trie, and touches nothing else |
| MultiKeyMap.DeleteTree | @vates/multi-key-map/index.js:10-37 | so does deleting |
| MultiKeyMap.EntriesTree | @vates/multi-key-map/index.js:39-54 | each binding is listed exactly once |
| MultiKeyMap.MultiKeyMap.Get | @vates/multi-key-map/index.js:119-121 | `get` is the lookup in the finite map |
| MultiKeyMap.MultiKeyMap.Set | @vates/multi-key-map/index.js:123-125 | `set` updates the finite map; setting undefined removes the key |
| MultiKeyMap.MultiKeyMap.Delete | @vates/multi-key-map/index.js:111-113 | `delete` removes the key from the finite map |
| MultiKeyMap.MultiKeyMap.Entries | @vates/multi-key-map/index.js:115-117 | `entries` lists each binding of the finite map exactly once |
| AuditChain.AddsExtendTheChain | @xen-orchestra/audit-core/index.js:71-98 | whatever the interleaving and the failures, the chain is the old one and then the payloads of the calls that succeeded, in the order of the lock |
| AuditChain.CallsTakeTheirSteps | @xen-orchestra/audit-core/index.js:71-98 | from the events alone: there is one call for each `add`, with its payload, each has gone through the steps of its phase in their order, and the chain is the old one and the payloads of the links, in order |
| AuditChain.EventsAreBounded | @xen-orchestra/audit-core/index.js:71-98 | a run has at most six events for each `add` |
| AuditChain.OneCallAtATime | @xen-orchestra/audit-core/index.js:16-24 | at most one call is between its entry and the release of its lock, and the lock is handed on in order |
| AuditChain.AddsNeverFork | @xen-orchestra/audit-core/index.js:71-98 | as long as no call has failed after its put, no two records have the same predecessor, which is the common case of the next row |
| AuditChain.ForksOnlyAfterFailedLink | @xen-orchestra/audit-core/index.js:82-98 | from the events alone: unless a call fails at `setLastId` after its put, no two records have the same predecessor |
| AuditChain.ForkIff | @xen-orchestra/audit-core/index.js:71-98 | after any run from a chain, two records have the same predecessor exactly when two different payloads were put while the chain had the same length |
| AuditChain.SomeCallCanMove | @xen-orchestra/audit-core/index.js:16-24 | as long as a call has not ended, some call can move |
| AuditChain.FailedLinkCanFork | @xen-orchestra/audit-core/index.js:94-98 | a run with one failed `setLastId` that ends with two records after the same one |
| AuditChain.RetryIsNoFork | @xen-orchestra/audit-core/index.js:94-98 | a run in which the link fails and the same payload is put again, without a fork |
| AuditChain.AddUnsafeExtends | @xen-orchestra/audit-core/index.js:82-98 | one add makes the chain of one more payload |
| AuditChain.IdOfInjective | @xen-orchestra/audit-core/index.js:59-64 | equal identifiers are identifiers of equal chains |
| AuditCheck.ChainIsValid | @xen-orchestra/audit-core/index.js:110-142 | between any two identifiers of a chain the check returns the distance |
| AuditCheck.AddsThenCheck | @xen-orchestra/audit-core/index.js:71-142 | so it does after any concurrent calls of `add`, failed ones included |
| AuditCheck.DamageIsFound | @xen-orchestra/audit-core/index.js:127-142 | a record of the stretch that is missing, or that the hash no longer fits, is reported with the number of valid records above it, provided the records above it are as they were put |
| AuditCheck.DamagedIsNeverValid | @xen-orchestra/audit-core/index.js:127-142 | no stretch with a removed or replaced record passes, whatever else has happened to the storage |
| AuditCheck.AnyDamageIsFound | @xen-orchestra/audit-core/index.js:110-142 | when the records above the stretch are genuine, the newest damage of the stretch is reported, with the number of genuine records above it |
| AuditCheck.ValidIff | @xen-orchestra/audit-core/index.js:127-142 | the check accepts exactly the intact stretches that end at the oldest identifier, and returns their length |
| AuditCheck.IntactIsValid | @xen-orchestra/audit-core/index.js:127-142 | an intact stretch is valid, with its length |
| AuditCheck.DamageIsReported | @xen-orchestra/audit-core/index.js:127-142 | the newest damage is the one reported |
| AuditCheck.SeekDown | @xen-orchestra/audit-core/index.js:148-161 | down an intact chain the walk reaches the record looked for |
| AuditCheck.BeforeTheFirstIsValidIff | @xen-orchestra/audit-core/index.js:110-142 | the empty stretch before the first record is valid only when the log has been emptied |
| AuditCheck.SeekLoop | @xen-orchestra/audit-core/index.js:114-121 | the loop ends as the walk does; on a cycle the source never returns |
| AuditCheck.CheckIntegrity | @xen-orchestra/audit-core/index.js:110-142 | the two loops compute the verdict |
| AuditRewrite.RewriteIsChainIff | @xen-orchestra/audit-core/index.js:170-208 | the storage is left as the chain of what was kept and of the newer payloads in reversed order, and nothing else, exactly when no identifier collides |
| AuditRewrite.DistinctPayloadsNeverCollide | @xen-orchestra/audit-core/index.js:170-208 | distinct payloads do not collide; it is enough that the last one is not the first one of the range |
| AuditRewrite.OnlyRangeIsLost | @xen-orchestra/audit-core/index.js:170-208 | the payloads are the old ones without the range, each as often as before |
| AuditRewrite.RepetitionCanLoseARecord | @xen-orchestra/audit-core/index.js:198-207 | a chain with a repeated payload that is broken by the rewriting |
| AuditRewrite.RecentOnChain | @xen-orchestra/audit-core/index.js:181-189 | the records walked before the range are the newer ones, from the last one down |
| AuditRewrite.DeletedOnChain | @xen-orchestra/audit-core/index.js:191-196 | the walk deletes exactly the range |
| AuditRewrite.ReaddStep | @xen-orchestra/audit-core/index.js:200-207 | one turn of the last loop, with the records it may delete again |
| AuditRewrite.AuditCore.DeleteRangeAndRewrite | @xen-orchestra/audit-core/index.js:170-208 | the method leaves the storage that the function of values gives, and tells when it throws |
| AuditRewrite.AuditCore.RecentRecords | @xen-orchestra/audit-core/index.js:181-189 | the loop collects the records before the range, and tells when it would never end |
| DirEntries.JoinedIsNameIff | @vates/fatfs/dir.js:270-287 | padding and splitting into pieces of 13 units give the name back exactly when it has no null unit |
| DirEntries.PaddedAt | @vates/fatfs/dir.js:270-276 | a null unit ends the name, unless it fills its last piece, and units 0xFFFF fill up the rest |
| DirEntries.LongEntryBytes | @vates/fatfs/structs.js:163-172 | which of the 32 bytes of a long entry holds what: number, attribute, checksum and each of the 13 units, low byte first |
| DirEntries.WrittenEntryIs | @vates/fatfs/dir.js:277-320 | what is written is the pieces from the last to the first, numbered from 1 and 0x40 added for the last, then the 8.3 entry and a null entry |
| DirEntries.PieceOfEncoded | @vates/fatfs/dir.js:64-71 | a long entry is read as the piece it was written from |
| DirEntries.RotatedIsRotation | @vates/fatfs/helpers.js:122-124 | a step of the checksum turns it by one bit to the right and adds a byte |
| DirEntries.ChecksumSeesByte | @vates/fatfs/helpers.js:122-139 | 8.3 names that differ in one byte have different checksums |
| DirEntries.ChecksumOfReadme | @vates/fatfs/helpers.js:135-139 | that of README.TXT is 0x73 |
| DirEntries.EntryIsListedIff | @vates/fatfs/dir.js:39-109 | an entry is listed exactly if its first byte is not 0xE5 and its volume bit is clear, which in long entries it is not |
| DirEntries.AddedFileIsRead | @vates/fatfs/dir.js:254-328 | in any directory, whatever follows in its last cluster, the iterator then returns the old entries and the new file under its name, and stops where the next one will be written |
| DirEntries.ScanPrefix | @vates/fatfs/dir.js:26-113 | up to the old end the new directory is read like the old one |
| DirEntries.ScanLongs | @vates/fatfs/dir.js:51-78 | long entries in reversed order, with one checksum, leave the name complete |
| DirEntries.ScanFile | @vates/fatfs/dir.js:79-109 | the entry behind them is returned under that name when the checksum matches |
| DirEntries.NameBackIff | @vates/fatfs/dir.js:79-95 | the name of a new file comes back exactly when it has no null unit |
| DirEntries.DirIterator.Next | @vates/fatfs/dir.js:26-113 | the iterator, sector by sector, returns the next file of the directory as a flat array of entries, and the position of the end |
| DirEntries.DirIterator.ReadEntry | @vates/fatfs/dir.js:26-35 | an entry never straddles two sectors |
| DirEntries.Pad | @vates/fatfs/dir.js:273-276 | the padding loop |
| DirEntries.BuildLongs | @vates/fatfs/dir.js:277-312 | the entries are laid out from the last piece to the first |
| DirEntries.BuildEntries | @vates/fatfs/dir.js:304-320 | the bytes written for a new file |
| ShortNames.ShortIsFields | @vates/fatfs/helpers.js:75-104 | any name is turned into a filename of eight units and an extension of three, each padded with spaces |
| ShortNames.ShortOfStemAndExtension | @vates/fatfs/helpers.js:75-104 | the filename is the first eight units of the stem, its dots left out, the extension the first three behind the last dot |
| ShortNames.SpacesAreDropped | @vates/fatfs/helpers.js:75-104 | spaces count for nothing |
| ShortNames.LeadingDotsAreDropped | @vates/fatfs/helpers.js:75-104 | nor do dots at the start |
| ShortNames.OthersBecomeUnderscores | @vates/fatfs/helpers.js:75-104 | a unit that cannot be kept counts as an underscore |
| ShortNames.ConformingNameIsShown | @vates/fatfs/dir.js:86-94 | a name that is of the 8.3 kind is shown as it is when there is no long name |
| ShortNames.FiveStandsForE5 | @vates/fatfs/dir.js:86-88 | a first byte of 5 is read as 0xE5 when there is no long name |
| ShortNames.TailIsReserved | @vates/fatfs/dir.js:344-350 | a filename with a tail reserves that tail, whatever its stem |
| ShortNames.NoTailReservesOne | @vates/fatfs/dir.js:343-350 | one without a tail reserves number 1, with all of it as the stem |
| ShortNames.WithTailReserves | @vates/fatfs/dir.js:291-299 | the filename chosen keeps a beginning of the base, which a file of that name reserves |
| ShortNames.TailCovers | @vates/fatfs/dir.js:331-361 | the search passes every entry, and the tail ends up above all those reserved |
| ShortNames.TailIsReached | @vates/fatfs/dir.js:331-361 | the tail is one more than one that an entry with the same stem and extension reserves |
| ShortNames.FirstNamedDecides | @vates/fatfs/dir.js:331-361 | the first entry decides that has the name, whatever its case, or cannot be compared; without one the name is free |
| ShortNames.ShortNameIsFresh | @vates/fatfs/dir.js:291-361 | for every directory and every name that can be created, no existing file has the 8.3 name chosen |
| ShortNames.RefusedIff | @vates/fatfs/dir.js:291-296 | creation is refused for want of room exactly from the ten millionth tail on |
| ShortNames.CreatedFileIsListed | @vates/fatfs/dir.js:254-361 | in any directory a file that is created is listed after the others, which are untouched, with an 8.3 name of its own, and is found again |
| ShortNames.NamesAreListedInOrder | @vates/fatfs/dir.js:254-361 | after any run of creations exactly their names are listed after the old ones, in order, and no two 8.3 names are the same |
| ShortNames.FindInDirectory | @vates/fatfs/dir.js:331-361 | the loop over the iterator finds the file, or the tail and the position for a new one |
| FatDirectories.WriteIsCreation | @vates/fatfs/dir.js:322-327 | a write to the chain of the directory that goes through is what the results on directories ask for |
| FatDirectories.PartialWriteKeepsFiles | @vates/fatfs/dir.js:322-327 | a write that stops for want of room leaves the old files listed first, as they were |
| FatDirectories.CreateFile | @vates/fatfs/dir.js:254-361 | in a directory stored in a cluster chain, sector by sector: the file is listed after the others with an 8.3 name of its own and found again, its entry names a cluster that was free and is now a chain of its own apart from the directory, every other chain and every sector outside the directory is kept; or the outcome is the one the search gives and nothing changes; or there was no room and the old files are still listed; it takes that cluster, the first free one from the directory on, and the clusters that the entries need and no more; it fails for want of room only when no cluster is free from the first or behind the last of the directory, and changes nothing when the name is taken or refused |

## Left out

- `shrinkChainToLength` and `truncate` (@vates/fatfs/chains.js:149-163, 239-249): the cache, and what is left of the file; `FatTable.ShrinkingLeadsAway` says what becomes of the chain.
- `sectorChain` (@vates/fatfs/chains.js:259-284): a chain of sectors in a row; reading and writing positions is one piece of code for both kinds of chain, proved in `ChainFiles` for cluster chains, and `FatTable.FatRegion` rests on the same contracts.
- ChainFiles.ChainFile.WriteSectors: writing that can lengthen a file is stated for the volumes on which growing is safe, which `FatChains.GrowthIsSafeIff` shows to be necessary; reading, and growing in the table itself, are stated for all.
- Volumes.AreasFollowOneAnother: a boot sector with no sectors in a cluster, for which the source divides by zero; that the tables are large enough for the clusters, which the source does not check and the results on chains ask for.
- The sector cache (@vates/fatfs/cache.js), time stamps, modes, streams and the lock that serialises the operations of @vates/fatfs: sectors are read as they were last written, and one operation runs at a time.
- ChainSectors.WriteGroups: the groups are written one after the other, while the source starts them together; they do not overlap.
- struct-fu, which lays out the directory entries and the VHD structures, is not part of this model: a text of 16-bit units ends at its first null unit, and the bytes above 127 of an 8.3 name are taken one for one.
- DirEntries.BuildEntries: attributes, times and the size of an entry are bytes that are carried along, and so is the first cluster, which `FatDirectories.CreateFile` sets.
- FatDirectories.CreateFile: when there is no room for the entry, the cluster that was marked for the file stays marked.
- ShortNames.ShortNameIsFresh: `toUpperCase` is a parameter of which nothing is assumed.
- DirEntries.AddedFileIsRead: empty names; the longest name that `longname` lets through has 255 units, which is within what is proved.
- AsyncEach.StepInv: the abort signal, and an iterator that throws.
- MergeBlocks.OneCrashIsSurvived: stated for the rename path; by copy one crash can lose a block (`MergeLosses.OneCrashCanLoseACopiedBlock`).
- MergeBlocks.MergeIsRightIff: writes of one file and renames are atomic and land as they were started, and the first checkpoint is written; the sizes in the state file are left out, among them `mergedDataSize`, which is wrong with more than one block at a time.
- The bodies of VhdFile and VhdSynthetic, compression and encryption: a child is a map from blocks to data, and both disks have one block size.
- Cleanup.MergedDataStaysReachable: stated for chains that `Cleanup.MovesWell` describes, which `Cleanup.TargetOpensIff` shows to be necessary; `Cleanup.MergedDataIsKept` is stated for all.
- Cleanup.StepInv: whether a resumed cleanup ends; resolving an alias that was deleted by an earlier session throws.  Handlers without directories, such as object stores, where a rename over a directory does not fail.
- Cleanup.WhatIsLeft: a failed deletion of a middle child ends the session, which is modelled as a crash; a directory is deleted as a whole.
- Aliases.CreatedAliasResolves: the white space that is trimmed off a text, the limit on its length, and absolute paths of the local file system; paths are sequences of names.
- VhdStream.Stream: `stream` also writes the new offsets into the array that the copied header shares with the disk's own header; the model leaves the disk as it is.
- VhdStructs.UIntOfBigEndian: integers above 2^53, which the source holds as floating-point numbers.
- VhdStream.Stream: disks whose blocks are a fraction of a sector, which the check of the header lets through and the reader refuses.
- `rawContent`, which slices a block again when the table has more entries than the disk has blocks.
- SparseWriter.CreateReadableSparseStream: the footer and the header are parameters, already packed, fragments have one size, arrive as they were announced and lie within the disk, and the positions fit the 32-bit entries of the table.
- ComplexMatcher.Repeat: regular expressions, the matching of values, `setPropertyClause`, and the nodes that only code can build (`Number`, an `And` without children).
- MultiKeyMap.MultiKeyMap.Entries: like `MultiKeyMap.EntriesTree`, without the order of the entries.
- MultiKeyMap.MultiKeyMap.Get: an array is its reference and the items it had; changing the items of an array that is in a key is not modelled.
- MultiKeyMap.EntriesTree: the order of the entries, which is that of insertion in each node, and `values`, which goes the same way.
- AuditCheck.DamageIsFound: keys named `id` inside the data or the subject of a record are not covered by the hash (@xen-orchestra/audit-core/index.js:59-63); a payload is taken without them, so that a record that differs in nothing else counts as genuine.
- AuditRewrite.RewriteIsChainIff: failures of the storage, which the last loop logs and passes over, `deleteFrom` and `_importRecord`; records are keyed by their identifiers, as `put` does.
- AuditChain.IdOfInjective: the hash is taken to be injective, so that identifiers are the terms they are made from.
- Remote handlers, the plugins of the user interface, the command line and everything else that is input and output.
