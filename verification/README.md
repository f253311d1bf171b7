# Verified models of oh-my-codex

Dafny models of the parts of oh-my-codex that run protocols, recover from crashes or rewrite what users own, and proofs of what those parts promise. `dafny verify dfyconfig.toml` checks everything.

Each file is one module for one component, `…Proofs` files hold the longer proofs, and `Wrappers` holds what several modules share.

- **Claim journal** (`ClaimJournal`, `ClaimJournalProofs`): a volume is names to file numbers and file numbers to contents, with links counted; every call is one step, and a crash may come after any of them. The record of a claim, the restore, the recovery and the owner's own steps are methods of `Disk` that append each volume they pass through to a history; the lemmas speak about every prefix of that history and about any number of interrupted recoveries.
- **Native cache** (`NativeCache`, `NativeCacheProofs`, `NativeCacheProgress`): a step relation over any number of publishers and lock-free readers with program counters, where any process may crash or give up at any step. Readers hash a file chunk by chunk between the steps of publishers. What is safe in every run is proved beside what an undisturbed process achieves.
- **Process cleanup** (`Cleanup`): grouping, worklist closure, ancestor walks and waiting, as loops proved against declarative descriptions of what they should select.
- **Hybrid sort** (`HybridSort`): three sorts in place or with growing lists, with operation counters that are proved exact.
- **Canonical JSON** (`CanonicalJson`): key sorting against a meaning in which objects are maps.
- **Autoresearch** (`Autoresearch`): the supervisor's manifest, ledger, results table and HEAD, over runs with exits, crashes inside a call, and restarts.
- **TOML editing** (`TomlText`, `TomlReread`, `TomlEdit`, `PluginRegistration`, `PluginIdempotence`, `PluginReader`, `PluginMcp`, `PluginMcpWriter`, `PluginMcpProofs`, `PluginMcpUndo`, `PluginMcpTwice`, `PluginMcpLocal`): texts as characters, split, joined and cleaned up as the code does it; the line editor, the registrations and the doctor that reads them back. A line is known by the header that owns it.
- **Cache overlay** (`CacheOverlay`): the recursive mirror as methods over a volume that records every state a reader could see.
- **Auth slots** (`SlotRotation`, `AuthStore`, `AuthHotswap`, `ResumeArgs`): order of rotation, metadata, the attempt loop and the rewritten command line.
- **Mission runner** (`Mission`): commands as the summaries they write and the tasks they execute, cut off anywhere.
- **Autopilot gate** (`Autopilot`): phases, evidence and accepted transitions.

What the outside world answers (git, evaluators, child processes, the clock, link support, which processes are alive) is a parameter that may be anything. Digests are injective, uuids and temporary names are fresh, `localeCompare` is a strict total order, and every file-system call is atomic and durable when it returns.

Some promises do not hold as one would first state them. The exact condition under which they do is then proved, and the lemmas named here show states or inputs that fail:

- A copy fallback cut before the claim is removed is stuck unless both recorded digests are equal (`CutCopyOutcome`, `CutCopyIsForever`); a crash while the record is still empty blocks recovery for good (`EmptyRecordBlocksRecovery`).
- Root resolution in the cleanup does not end on cyclic parent tables (`WalkEndsUnlessTrapped`, `CyclicTableNeverEnds`), so the methods that use it ask for a chain that ends.
- The TOML upserts are idempotent unless a line keeps a return that the next reading takes (`StrayReturnsBreakIdempotence`), or, for the plugin, turns into a legacy scalar, which can happen without any carriage return (`LineSeparatorBreaksIdempotence`). Removing the servers after enabling them then differs from removing them once by line endings (`UndoingIsNotExact`), and so does enabling them twice from enabling them once (`EnablingTwiceShows`).
- A passed mission task is executed again by a fresh run, by a rerun that names it, and by a resume after planning again (`PassedIsExecutedAgainBy`, `PlanForgets`).
- A crash of the autoresearch supervisor between the ledger and the manifest makes the next iteration repeat a number (`CrashAndNumbering`, `CrashRepeatsIteration`), and when the entry was kept it forgets the score, so that a worse one may be kept next (`StepAgrees`, `LostKeepAndNext`, `CrashKeepsAWorseScore`).
- Rebuilding a resumed command line drops an id that starts with a dash only when it is a selector (`RebuildingIsStable`, `FlagIdStays`).
- A rerun can leave tasks that no count covers (`CompletedRerunIsAccounted`, `RerunLeavesTasksUncounted`).
- An autopilot state that is not active may be completed from anywhere (`CompletionIsGated`, `InactiveCompletesWithoutEvidence`).

## Model

| member | source | states |
|---|---|---|
| `ClaimJournal.Read` | src/cli/native-hook-claim-journal.ts:169-180 | a name is read as absent exactly when it does not exist, and otherwise as what its file holds; anything but a plain file with one link is refused before |
| `ClaimJournal.Disk.LinkFile` | src/cli/native-hook-claim-journal.ts:130-131 | a hard link adds exactly one name, which reaches the same file; that file has one link more and no other file gains or loses one |
| `ClaimJournal.Disk.Restore` | src/cli/native-hook-claim-journal.ts:118-167 | restoring takes exactly the steps of `RestoreRun`: link, or exclusive copy where links are unsupported, then removal of the claim |
| `ClaimJournal.Disk.Recover` | src/cli/native-hook-claim-journal.ts:247-335 | recovery has exactly the outcome and takes exactly the disk steps of `RecoverRun`, about which the lemmas below speak |
| `ClaimJournal.Disk.Persist` | src/cli/native-hook-claim-journal.ts:186-232 | the record is written into an exclusively created file; a failed write leaves every name as it was |
| `ClaimJournal.Disk.ClaimAndReplace` | src/cli/setup.ts:1323-1411 | the owner's steps: record, claim by rename, exclusive install or none, removal of the claim, removal of the record; when the claim or the successor is rejected, the rollback |
| `ClaimJournal.Disk.RollBack` | src/cli/setup.ts:1391-1399 | the rollback restores the claim and, when that works, removes the record |
| `ClaimJournalProofs.RollbackKeepsTrack` | src/cli/setup.ts:1391-1399 | every step of a rollback is recoverable to the original, but for the cut inside its copy fallback; it ends with the original back and nothing else left, or took no step |
| `ClaimJournalProofs.RecoveryShape` | src/cli/native-hook-claim-journal.ts:279-334 | the recovery branches are complete: every step list that can occur, and the digests that allowed it; a refusal takes no step |
| `ClaimJournalProofs.RecoveryIsSafe` | src/cli/native-hook-claim-journal.ts:279-334 | after every step of a recovery the original is still linked unless the canonical file holds the recorded successor, an existing canonical file is never replaced, and success ends with canonical equal to before or after (absent only for a recorded deletion) |
| `ClaimJournalProofs.RecoverCallIsSafe` | src/cli/native-hook-claim-journal.ts:247-335 | the same for the whole call, with the journal read from disk; every refusal leaves the volume as it was |
| `ClaimJournalProofs.LiveOwnerIsUndisturbed` | src/cli/native-hook-claim-journal.ts:275-277 | while the owner is alive recovery refuses and changes nothing |
| `ClaimJournalProofs.RecoveryKeepsTrack` | src/cli/native-hook-claim-journal.ts:279-334 | from every recoverable state, with hard links, every prefix of a recovery is recoverable to the same canonical content, and a full one ends with journal and claim gone |
| `ClaimJournalProofs.AttemptsKeepTrack` | src/cli/native-hook-claim-journal.ts:118-167 | any number of recoveries, each cut off after any step, stay on the way to that content |
| `ClaimJournalProofs.CutCopyOutcome` | src/cli/native-hook-claim-journal.ts:139-164 | a copy fallback cut between copy and claim removal is taken up again exactly when the record's before and after digests are equal, and refused without a step otherwise |
| `ClaimJournalProofs.CutCopyIsForever` | src/cli/native-hook-claim-journal.ts:334 | after such a cut with different digests no number of further recoveries changes anything |
| `ClaimJournalProofs.AnyAttempts` | src/cli/native-hook-claim-journal.ts:129-164 | whatever link support each attempt meets, the volume stays recoverable or is such a cut copy |
| `ClaimJournalProofs.OwnerCrashIsOnTrack` | src/cli/setup.ts:1323-1411 | a crash of the owner after any step but the empty record, rollbacks included, leaves a recoverable state: to the original until the successor is installed or while rolling back, to the successor after; only a rollback by copying can be cut in its copy |
| `ClaimJournalProofs.EveryCrashRecovers` | src/cli/setup.ts:1636-1706 | owner crash, in a rollback too, then any number of interrupted recoveries, then one full recovery: canonical is the original or the successor (or absent, for a removal) and nothing else is left |
| `ClaimJournalProofs.EmptyRecordBlocksRecovery` | src/cli/native-hook-claim-journal.ts:219-228 | a crash between creating the record and writing it leaves a malformed record that every recovery refuses, with the original untouched |
| `ClaimJournalProofs.TornInstallIsRefused` | src/cli/setup.ts:1350 | a half-written successor is refused and left alone, with the original safe in the claim |
| `ClaimJournalProofs.OwnerFinishes` | src/cli/setup.ts:1323-1411 | what an owner that lives to its end leaves: the successor (or nothing) without claim and record; the original put back when it rejects it, or still parked and recorded when restoring fails; both files and the record when it rejects the successor |
| `ClaimJournalProofs.RecordIsRefused` | src/cli/native-hook-claim-journal.ts:253-272 | a call ends without a record exactly when there is none, finds it unsafe exactly when it is no plain file or another name reaches it, and malformed exactly when it is no text of a version 1 record |
| `ClaimJournalProofs.RecoversExactlyWhen` | src/cli/native-hook-claim-journal.ts:273-334 | a readable record is refused exactly for a path outside the root, then for a live owner; otherwise recovery succeeds if and only if the claim is gone and canonical is as before or after, or the original is parked and can be restored, or is linked back already, or the successor is in place |
| `NativeCacheProofs.RunInv` | src/cli/native-assets.ts:560-681 | the protocol invariant holds in every reachable state: any number of publishers and readers, any interleaving, crashes anywhere |
| `NativeCacheProofs.UnlinkRemovesOwnLock` | src/cli/native-assets.ts:599-608 | the only unlink of the lock removes the remover's own lock file, while no other process holds one |
| `NativeCacheProofs.OnlyTheHolderActs` | src/cli/native-assets.ts:635-659 | while a process is between acquire and release no other publisher changes the cache or acquires |
| `NativeCacheProofs.HeldLockStays` | src/cli/native-assets.ts:570-608 | a held lock keeps its name and its file until its holder unlinks it |
| `NativeCacheProofs.StepConsistent` | src/cli/native-assets.ts:648-654 | the order quarantine binary, quarantine sidecar, place binary, place sidecar never shows a sidecar of another binary |
| `NativeCacheProofs.CacheStaysConsistent` | src/cli/native-assets.ts:617-681 | from a cache whose binary and sidecar are absent or match: in every run at most one holder, and never both present and different |
| `NativeCacheProofs.ReturningIsUnlinking` | src/cli/native-assets.ts:659-680 | a publisher returns normally only by unlinking its lock after a verified inspection |
| `NativeCacheProofs.ReturnLeavesVerifiedPair` | src/cli/native-assets.ts:656-681 | from any starting cache, a publisher that returns normally leaves a verified pair and no lock |
| `NativeCacheProofs.PlacesOnlyWhereAbsent` | src/cli/native-assets.ts:652-654 | binary and sidecar are renamed only onto absent names |
| `NativeCacheProofs.DisplacedFilesSurvive` | src/cli/native-assets.ts:610-615 | every binary or sidecar that was ever in place still exists with its content, in place or under a quarantine name |
| `NativeCacheProofs.VerdictComesFromSum` | src/cli/native-assets.ts:549-557 | a `verified` verdict comes only from a sidecar with the digest of the bytes that were read |
| `NativeCacheProofs.ReadersHashOneFile` | src/cli/native-assets.ts:429-458 | in every run, whatever publishers do in between, what a reader has hashed so far is a prefix of one file, and all of it once it is done |
| `NativeCacheProofs.LockFreeReadingIsSound` | src/cli/native-assets.ts:514-558 | when publishers wrote every sidecar, a reader without the lock that returns `verified` hashed exactly some publisher's source bytes |
| `NativeCacheProgress.ReaderVerifies` | src/cli/native-assets.ts:514-558 | a reader that nobody disturbs and none of whose calls fails ends with `verified` and the bytes of the binary if binary and sidecar are a non-empty verified pair, and with no verdict otherwise, in a bounded number of calls |
| `NativeCacheProgress.UndisturbedPublisherPublishes` | src/cli/native-assets.ts:617-681 | after any history, a publisher that finds no lock, is not disturbed and has no failing call never throws, makes boundedly many calls, always has a next one, and returns leaving no lock and a verified pair: its own source, unless a verified pair was there |
| `NativeCacheProgress.PublisherCanPublish` | src/cli/native-assets.ts:617-681 | and such a run to its return exists |
| `NativeCacheProgress.CleanUpReleasesLock` | src/cli/native-assets.ts:663-681 | after success and failure alike, a clean-up without failing calls removes the temporary files and the publisher's own lock, nothing else, and passes the result on |
| `NativeCacheProgress.CleanUpFailures` | src/cli/native-assets.ts:599-681 | a temporary file that cannot be removed makes the publisher throw, and a lock that cannot be checked or is another's stays where it is |
| `Cleanup.HasAncestorMatching` | src/cli/cleanup.ts:214-231 | true exactly when some ancestor on the parent chain matches; it terminates on every table, cyclic ones included |
| `Cleanup.AncestorMatchesAbove` | src/cli/cleanup.ts:219-228 | an ancestor matches exactly when the recorded positive parent is recorded and matches, or one of its ancestors does |
| `Cleanup.ResolveProtectedRoot` | src/cli/cleanup.ts:233-255 | the nearest Codex process on the chain, or the current process, for chains that end |
| `Cleanup.RootIsUnique` | src/cli/cleanup.ts:245-254 | there is one such root |
| `Cleanup.RootIs` | src/cli/cleanup.ts:245-254 | the root from process to process: a Codex process with a pid above 1 and a process where the chain ends are their own; elsewhere it is the Codex process found from the parent, or the current process |
| `Cleanup.WalkEndsWithinTable` | src/cli/cleanup.ts:245-252 | root resolution ends if and only if it ends within as many rounds as the table has entries |
| `Cleanup.WalkEndsUnlessTrapped` | src/cli/cleanup.ts:245-252 | root resolution ends if and only if no set of processes of the table traps it, that is, if and only if it meets no pid twice before something ends it |
| `Cleanup.CyclicTableNeverEnds` | src/cli/cleanup.ts:245-252 | on a two-process cycle without a Codex command it never ends |
| `Cleanup.Descendants` | src/cli/cleanup.ts:269-282 | the worklist computes exactly the descendants of its root |
| `Cleanup.BuildProtectedPidSet` | src/cli/cleanup.ts:257-283 | the protected set is exactly the descendant closure of the protected root |
| `Cleanup.SubtreeIsClosed` | src/cli/cleanup.ts:273-280 | the closure holds the root and every child of a member |
| `Cleanup.SubtreeIsLeast` | src/cli/cleanup.ts:273-280 | and it is the least such set |
| `Cleanup.GroupSiblings` | src/cli/cleanup.ts:288-297 | the grouping pass collects exactly the members of each (parent, entrypoint) group, in table order |
| `Cleanup.AllButLargestIsExact` | src/cli/cleanup.ts:300-308 | of a group exactly the members with a larger sibling are kept, once each |
| `Cleanup.FindDuplicateSiblings` | src/cli/cleanup.ts:285-312 | exactly the processes with a larger pid in their group, once each, in ascending pid order |
| `Cleanup.FindCleanupCandidates` | src/cli/cleanup.ts:314-335 | exactly the other processes that are outlived in their group or outside the closure, each with its reason, in ascending pid order |
| `Cleanup.SelectedExactlyWhen` | src/cli/cleanup.ts:285-335 | for each process and reason, whether it is selected: a duplicate exactly when a sibling with the same entrypoint has a larger pid, an orphan exactly when it is outside the protected subtree, parentless or not by its parent pid |
| `Cleanup.FindLaunchSafeCandidates` | src/cli/cleanup.ts:337-358 | of these exactly the ones with parent at most 1 or without a Codex or launcher ancestor |
| `Cleanup.WaitForPidsToExit` | src/cli/cleanup.ts:371-396 | what remains is exactly what was alive at every poll |
| `Cleanup.TerminateCandidates` | src/cli/cleanup.ts:464-513 | failed are exactly the candidates alive at every poll of both waits, force-killed are as many as outlived the first wait less those, and terminated are all the others |
| `HybridSort.Ops.Compare` | playground/adaptive_sort_demo/sort_benchmark.py:24-26 | the sign of the comparison, counted once |
| `HybridSort.Insert` | playground/adaptive_sort_demo/sort_benchmark.py:39-47 | one insertion: two moves and one per element shifted, with at most one comparison more than shifts |
| `HybridSort.InsertionSort` | playground/adaptive_sort_demo/sort_benchmark.py:36-48 | sorted permutation; exactly 2(n-1) moves plus the inversions, comparisons between the inversions and n-1 more |
| `HybridSort.Merge` | playground/adaptive_sort_demo/sort_benchmark.py:57-74 | the merge is a sorted permutation of both halves with one move per element |
| `HybridSort.MergeSort` | playground/adaptive_sort_demo/sort_benchmark.py:51-74 | sorted permutation, with exactly the moves of the recursion and no more comparisons than moves |
| `HybridSort.MergeMovesClosed` | playground/adaptive_sort_demo/sort_benchmark.py:51-74 | for n elements the moves are n times the base-two logarithm h rounded up, less 2^h - n |
| `HybridSort.CountingSort` | playground/adaptive_sort_demo/sort_benchmark.py:77-90 | sorted permutation; exactly span + 1 + 2n moves and no comparison |
| `HybridSort.LongestNonDecreasingRun` | playground/adaptive_sort_demo/sort_benchmark.py:93-103 | some run has this length and none is longer |
| `HybridSort.HybridSort` | playground/adaptive_sort_demo/sort_benchmark.py:106-121 | every configuration sorts, at the cost of the sort that it selects: insertion up to the threshold, counting for a span within the limit, insertion for a long enough run, merging otherwise |
| `HybridSort.HybridAgreesWithMerge` | playground/adaptive_sort_demo/sort_benchmark.py:106-125 | for every input and configuration the hybrid and the baseline return the same list |
| `HybridSort.SortIsUnique` | playground/adaptive_sort_demo/sort_benchmark.py:106-125 | a sorted permutation is determined by its elements |
| `CanonicalJson.FromSortedEntries` | src/capabilities/lockfile.ts:144-148 | sorting entries and enumerating the object made from them lists keys in one fixed total order, array-index keys first |
| `CanonicalJson.ObjectForm` | src/capabilities/lockfile.ts:141-149 | an object's canonical form has exactly its entries, each in canonical form, in canonical order |
| `CanonicalJson.EnumeratedKeys` | src/capabilities/lockfile.ts:144-148 | in a canonical object the array-index keys come first and ascend, and the others follow by the locale |
| `CanonicalJson.SortKeepsMeaning` | src/capabilities/lockfile.ts:141-149 | sorting changes nothing but the order of object entries, at any depth |
| `CanonicalJson.CanonicalFormIsComplete` | src/capabilities/lockfile.ts:141-149 | two values have the same canonical form if and only if they differ at most in object key order at any depth |
| `CanonicalJson.SortIsIdempotent` | src/capabilities/lockfile.ts:141-149 | sorting a sorted value changes nothing |
| `CanonicalJson.DigestIgnoresKeyOrder` | src/capabilities/lockfile.ts:328-330 | whatever the digest, it does not depend on key order; one that tells the two canonical values apart agrees on them exactly when they are equal up to key order |
| `CanonicalJson.SurfaceDigestsAgree` | src/capabilities/lockfile.ts:137-139 | digests without collisions agree exactly on values that are equal up to key order |
| `Autoresearch.Supervisor.ProcessCandidate` | src/autoresearch/runtime.ts:1232-1293 | one call has the effect and the outcome of `Process` on manifest, saved manifest, rows, ledger and HEAD |
| `Autoresearch.AcceptedExactlyWhen` | src/autoresearch/runtime.ts:1090-1140 | a candidate is accepted exactly when its base is the last kept commit and, unless it reports none, its own commit is HEAD |
| `Autoresearch.StatusAfterCall` | src/autoresearch/runtime.ts:1142-1293 | a call saves `failed` exactly for a missing or refused candidate or a dirty interruption, and `stopped` exactly for an accepted abort; after any other decision the run goes on, and a call that throws has saved nothing |
| `Autoresearch.DecidedExactlyWhen` | src/autoresearch/runtime.ts:1142-1293 | every decision from the input: error, abort, noop, interruption, keep, ambiguous, discard, and when the call throws instead |
| `Autoresearch.RecordedExactly` | src/autoresearch/runtime.ts:1142-1293 | what a deciding call appends, field by field, and that only a keep moves the kept commit and the kept score |
| `Autoresearch.Supervisor.RecordNonEvaluatedStatus` | src/autoresearch/runtime.ts:1181-1230 | abort, interruption and noop are recorded and saved as `AfterNonEvaluated` says |
| `Autoresearch.Supervisor.FailIteration` | src/autoresearch/runtime.ts:1142-1179 | a refused candidate is recorded as an error and the run ends failed |
| `Autoresearch.Supervisor.ResetToLastKeptCommit` | src/autoresearch/runtime.ts:1085-1088 | HEAD moves to the last kept commit, or nothing changes when the worktree is not safe or git refuses |
| `Autoresearch.CountTrailingNoops` | src/autoresearch/runtime.ts:426-435 | the length of the longest run of noops that ends the ledger |
| `Autoresearch.KeptExactlyWhen` | src/autoresearch/runtime.ts:1232-1293 | a call keeps exactly a valid candidate that passed and, unless passing is enough, beat a known score with a known score |
| `Autoresearch.CallRecordsOnce` | src/autoresearch/runtime.ts:1181-1293 | a call records one ledger entry and one row, except when it throws or meets a dirty interruption, which ends the run; a kept entry is the candidate under evaluation, judged by the policy |
| `Autoresearch.StepReplays` | src/autoresearch/runtime.ts:1232-1293 | one event, a crash inside a call included, keeps ledger, results table and saved manifest in agreement if and only if it is not a crash that had appended something |
| `Autoresearch.EveryRunReplays` | src/autoresearch/runtime.ts:358-397 | in every run whose crashes had appended nothing, restarts included: iterations 0, 1, 2, … with one matching row each, each non-error entry based on its predecessor's kept commit, kept commit changing only at a keep, the last entry's being the manifest's, and an error or abort only at the end |
| `Autoresearch.CutShortReplays` | src/autoresearch/runtime.ts:373-396 | a crash between appending to results or ledger and saving the manifest breaks that agreement, and no other crash does |
| `Autoresearch.CrashAndNumbering` | src/autoresearch/runtime.ts:1232-1237 | after a crash inside a call and a restart, the next recorded iteration is numbered right if and only if the crash had appended nothing |
| `Autoresearch.CrashRepeatsIteration` | src/autoresearch/runtime.ts:1222-1229 | a run in which such a crash makes the ledger hold iteration 1 twice |
| `Autoresearch.EndedRunIsFrozen` | src/autoresearch/runtime.ts:970-972 | nothing is recorded once a run is no longer running, wherever it crashed |
| `Autoresearch.HeadIsLastKept` | src/autoresearch/runtime.ts:1260-1293 | however the run went, an evaluated candidate whose call returns leaves HEAD at the last kept commit; otherwise nothing was recorded |
| `Autoresearch.QuietRunKeepsCandidates` | src/autoresearch/runtime.ts:1263-1265 | when evaluators leave HEAD alone, every kept commit is the candidate that was evaluated |
| `Autoresearch.KeptScoresStrictlyIncrease` | src/autoresearch/runtime.ts:599-632 | under score improvement the kept scores strictly increase, and without a scored baseline nothing is ever kept, in every run in which no crash comes between appending a kept entry and saving the manifest |
| `Autoresearch.StepAgrees` | src/autoresearch/runtime.ts:1260-1281 | one event keeps the ledger's improving scores and the manifest's score in agreement if and only if it is not such a crash |
| `Autoresearch.LostKeepAndNext` | src/autoresearch/runtime.ts:1270-1281 | after such a crash and a restart, the next keep improves on the ledger if and only if it beats the score that was lost |
| `Autoresearch.CrashKeepsAWorseScore` | src/autoresearch/runtime.ts:1270-1281 | a run that keeps 3.0, dies before saving the manifest, and then keeps 2.0 |
| `Autoresearch.ScoreIsNeverLost` | src/autoresearch/runtime.ts:1265 | under either policy, in every run and wherever it crashes, a manifest with a numeric kept score never has none again |
| `TomlText.TidyKeepsContent` | src/cli/plugin-marketplace.ts:444 | joining, collapsing newlines and trimming the end lose no line but blank ones |
| `TomlText.TidyTwice` | src/cli/plugin-marketplace.ts:444 | a cleaned-up text without CR LF is its own clean-up, with or without a final newline |
| `TomlText.CrLfIsLost` | src/cli/plugin-marketplace.ts:428 | a text with a CR LF is changed by being read and written back |
| `TomlEdit.KeepLines` | src/cli/plugin-marketplace.ts:427-442 | the nested loop keeps exactly the lines of `Kept` |
| `TomlEdit.StripTables` | src/cli/plugin-marketplace.ts:427-445 | the stripped text is `Strip` |
| `TomlEdit.IsTableExactlyWhen` | src/cli/plugin-marketplace.ts:423-425 | a line is a table header exactly when its first character that is no white space is a bracket |
| `TomlEdit.MatchesExactlyWhen` | src/cli/plugin-marketplace.ts:417-421 | a line matches a header exactly when it is the header between white space |
| `TomlEdit.AssignsExactlyWhen` | src/cli/plugin-marketplace.ts:481-485 | a line assigns a key exactly when it is white space, the key, white space and an equals sign, and anything after that |
| `TomlEdit.KeptIsWithout` | src/cli/plugin-marketplace.ts:431-442 | stripping takes away exactly the lines that stand in the named tables; every other line keeps its order and its owning header |
| `TomlEdit.StripContent` | src/cli/plugin-marketplace.ts:427-445 | the same for the text, up to blank lines and trailing white space |
| `TomlEdit.RemoveLegacyScalar` | src/cli/plugin-marketplace.ts:525-543 | the loop computes `RemoveLegacy` |
| `TomlEdit.CurrentIsWithoutLegacy` | src/cli/plugin-marketplace.ts:531-540 | exactly the legacy scalars under `[plugins]` go, and no line changes its owner |
| `PluginRegistration.MarketplaceIsLocal` | src/cli/plugin-marketplace.ts:461-468 | after the marketplace upsert there is exactly one such table, with the given lines, and every line outside the removed tables survives in order under its header |
| `PluginRegistration.EnablementIsLocal` | src/cli/plugin-marketplace.ts:610-617 | the same for plugin enablement, where the legacy scalars go too |
| `PluginMcpLocal.MarketplaceText` | src/cli/plugin-marketplace.ts:451-468 | letter by letter, the table that the marketplace upsert writes at the end, after a blank line unless nothing is before it |
| `PluginMcpLocal.EnablementText` | src/cli/plugin-marketplace.ts:610-617 | the same for the plugin's table |
| `TomlReread.TidyCrLf` | src/cli/plugin-marketplace.ts:444 | joining and cleaning up lines keeps a CR LF if and only if a line that ends in a return comes before a visible one |
| `TomlReread.SplitTidy` | src/cli/plugin-marketplace.ts:428 | which lines a cleaned-up text is read as: each but the last visible one loses a final return, and that one its trailing white space |
| `PluginIdempotence.MarketplaceIdempotent` | src/cli/plugin-marketplace.ts:461-468 | for every text: registering the marketplace twice is registering it once if and only if, among the lines outside its tables, none that ends in a return comes before a visible one |
| `PluginIdempotence.EnablementIdempotent` | src/cli/plugin-marketplace.ts:610-617 | for every text: enabling twice is enabling once if and only if no line outside the plugin's tables and legacy scalars, without its return or, at the end, its trailing white space, still ends in a return or becomes a legacy scalar |
| `PluginIdempotence.IdempotentOnOrdinaryTexts` | src/cli/plugin-marketplace.ts:461-617 | when every carriage return belongs to a CR LF (or there is none), registering the marketplace is idempotent, and enabling is if and only if the last visible line does not become a legacy scalar when trimmed |
| `PluginIdempotence.TameTextsAreSafe` | src/cli/plugin-marketplace.ts:461-617 | and without Unicode line separators enabling is idempotent too |
| `PluginIdempotence.LineSeparatorBreaksIdempotence` | src/cli/plugin-marketplace.ts:481-485 | a text without carriage returns on which enabling is not idempotent: a legacy scalar followed by U+2028 at the end |
| `PluginIdempotence.StrayReturnsBreakIdempotence` | src/cli/plugin-marketplace.ts:427-445 | texts with a stray return before a CR LF, or two, on which registering and enabling are not idempotent |
| `PluginReader.HasEnablement` | src/cli/plugin-marketplace.ts:497-523 | the loop reads whether some line enables the plugin, in its own table or as the legacy scalar |
| `PluginReader.EnablesExactlyWhen` | src/cli/plugin-marketplace.ts:504-522 | a line enables the plugin exactly when it is no header and assigns true to `enabled` in the plugin's table, or to the plugin's key in the table of all plugins |
| `PluginReader.IsTrueExactlyWhen` | src/cli/plugin-marketplace.ts:493-495 | a value is true exactly when it is the word between white space, followed by a comment at most |
| `PluginReader.EnablementIsRead` | src/cli/plugin-marketplace.ts:497-617 | after enabling, the plugin reads as enabled, whatever the text was |
| `PluginMcpWriter.UpsertBooleanKey` | src/cli/plugin-marketplace.ts:564-608 | the index and splice loops compute `UpsertKey` |
| `PluginMcpWriter.RewriteTable` | src/cli/plugin-marketplace.ts:589-601 | the first assignment of the key is replaced and the later ones are spliced out, up to the next table |
| `PluginMcp.ServerEnabled` | src/cli/doctor.ts:3852-3866 | the doctor reads the first setting in the first table with the header |
| `PluginMcp.EnabledExactlyWhen` | src/cli/doctor.ts:3862-3863 | a line sets a server to true or to false exactly when it is the key, an equals sign and that word, and white space besides |
| `PluginMcp.SettingsSurviveRegistration` | src/cli/plugin-marketplace.ts:461-617 | what the doctor reads survives later marketplace and plugin upserts |
| `PluginMcpProofs.UpsertKeyReadsBack` | src/cli/plugin-marketplace.ts:564-608 | a key that was set is read back, whatever its table held, and no other table's setting changes |
| `PluginMcpLocal.KeyIsLocal` | src/cli/plugin-marketplace.ts:573-607 | setting a key of a table that is there changes only the assignments of that key in the first such table: the first is replaced and the others go, or the new one becomes the table's first line |
| `PluginMcpLocal.KeyOfNoTable` | src/cli/plugin-marketplace.ts:572-579 | without such a table the text stays to the character, or gets the table with its one entry at its end |
| `PluginMcpLocal.OneNewlineAtEnd` | src/cli/plugin-marketplace.ts:577-607 | a text in which a key was set ends in exactly one newline |
| `PluginMcpProofs.UpsertServerEnablement` | src/cli/plugin-marketplace.ts:619-640 | the upsert computes `UpsertServers` |
| `PluginMcpLocal.ServersAreLocal` | src/cli/plugin-marketplace.ts:619-640 | with neither flag the text is returned to the character; otherwise every line outside the server tables survives in order under its header, and enabling adds one table for each server after them |
| `PluginMcpProofs.StripEveryServer` | src/cli/plugin-marketplace.ts:553-562 | the strip loop computes `StripServers` |
| `PluginMcpProofs.EnableEachReads` | src/cli/plugin-marketplace.ts:632-639 | enabling changes the settings of exactly the listed servers |
| `PluginMcpProofs.EnabledReadsEnabled` | src/cli/doctor.ts:267-274 | after enabling the doctor reads every server as enabled, infers `compat` and passes its check |
| `PluginMcpProofs.RemovedReadsNone` | src/cli/doctor.ts:3868-3898 | after removal it finds no server table, infers `none` and passes its check |
| `PluginMcpProofs.DoctorPassesExactlyWhen` | src/cli/doctor.ts:267-274 | the doctor passes in mode `compat` exactly when all servers are enabled and in the others exactly when none is; a mixed configuration is inferred to be `none` and draws a warning in every mode |
| `PluginMcpUndo.RemovingUndoesEnabling` | src/cli/plugin-marketplace.ts:553-640 | for every text, removing the servers after enabling them gives to the character what removing them twice gives, keeps every significant line, and is what removing them once gives if and only if that holds no CR LF |
| `PluginMcpUndo.UndoneOnOrdinaryTexts` | src/cli/plugin-marketplace.ts:553-640 | when every carriage return belongs to a CR LF, removing undoes enabling to the character |
| `PluginMcpTwice.UndoneExactlyWhen` | src/cli/plugin-marketplace.ts:553-640 | for every text: removing the servers after enabling them is removing them once if and only if, outside their tables, no line ends in as many returns as there are servers before a visible line |
| `PluginMcpTwice.EnablingTwice` | src/cli/plugin-marketplace.ts:619-640 | for every text: enabling the servers twice is enabling them once under exactly the same condition |
| `PluginMcpTwice.EnablingTwiceOnOrdinaryTexts` | src/cli/plugin-marketplace.ts:619-640 | when every carriage return belongs to a CR LF, enabling the servers is idempotent |
| `PluginMcpTwice.EnablingTwiceShows` | src/cli/plugin-marketplace.ts:619-640 | a text with stray returns on which it is not |
| `PluginMcpUndo.UndoingIsNotExact` | src/cli/plugin-marketplace.ts:427-445 | a text with stray returns on which it does not |
| `PluginMcpProofs.SixServersAreTables` | src/config/omx-first-party-mcp.ts:60-62 | the six first-party servers have six different table headers |
| `CacheOverlay.Volume.Overlay` | src/cli/plugin-marketplace.ts:338-368 | the destination ends equal to the source whatever it held, and in every state on the way the root is a directory that shows its readers what they may count on |
| `CacheOverlay.Volume.CopyFileAtomically` | src/cli/plugin-marketplace.ts:320-332 | a file is replaced in one step, through a temporary name |
| `CacheOverlay.Volume.RemoveExtras` | src/cli/plugin-marketplace.ts:357-367 | entries that the source does not have are removed, and nothing else |
| `CacheOverlay.ReaderFinds` | src/cli/plugin-marketplace.ts:338-368 | at every step a path that was and will be a file is a file with its old or its new content, and likewise a directory |
| `CacheOverlay.NestedShows` | src/cli/plugin-marketplace.ts:351 | what holds for a subdirectory being overlaid holds seen from above |
| `SlotRotation.RoundRobinRotates` | src/auth/rotation.ts:21-23 | in round-robin the order is the sorted slots rotated to start at the first that is the current one, or the sorted slots when it is not among them |
| `SlotRotation.PriorityCoversAll` | src/auth/rotation.ts:16-20 | in priority order the first entries are the configured ones at all the places whose slot is available, in their order; the others follow by name, each as often as it is listed |
| `SlotRotation.ManualStays` | src/auth/rotation.ts:16 | in manual order there is the current slot alone, or the first by name when none is current |
| `SlotRotation.NextSlotAfter` | src/auth/rotation.ts:26-34 | the modular search finds the first slot after the current one that is not exhausted |
| `SlotRotation.NextIsInOrder` | src/auth/rotation.ts:26-34 | when the first k different slots are exhausted, the next slot is the k-th different one, if there is one |
| `AuthStore.Store.UpsertSlotRecord` | src/auth/storage.ts:84-95 | the slot's record is found or made, and the list is `Upserted` |
| `AuthStore.Store.UseSlot` | src/auth/storage.ts:120-140 | the metadata effect of using a slot, or none when it throws |
| `AuthStore.Store.MarkSlotQuota` | src/auth/storage.ts:142-154 | the metadata effect of a quota |
| `AuthStore.ChangeKeeps` | src/auth/storage.ts:84-154 | using a slot makes it current and unmarked, a quota marks it, no other record changes, whatever the order of the records, and sorted records without repeats stay so |
| `AuthStore.RecordAfter` | src/auth/storage.ts:84-154 | the slot's record after a use or a quota, field by field: made now or when it was, changed now, its last use, last quota and mark |
| `AuthStore.SortKeepsFirst` | src/auth/storage.ts:92-93 | sorting records by name is stable: whatever order and repeats the metadata has, the first record of each slot stays the first |
| `AuthHotswap.Decide` | src/auth/hotswap.ts:285-325 | a run that goes on after an attempt goes on with the next slot of the order without repeats, and one that ends has the reason the attempt gives |
| `AuthHotswap.RunAttempts` | src/auth/hotswap.ts:276-327 | the loop launches the slots of the order without repeats in order, stops for the reason its last attempt gives, and never falls through |
| `AuthHotswap.Run` | src/auth/hotswap.ts:221-331 | the launched slots are a prefix of the order with repeats removed, each of which could be installed and let the run go on to the next; the last one launched stays current, exactly the slots that hit a quota are marked, each attempt's arguments are rebuilt for the session of the last quota, and the end has exactly the reason of the last attempt; metadata that was sorted and unique stays so, and no order is assumed |
| `AuthHotswap.ArgsResume` | src/auth/hotswap.ts:317-324 | the arguments of an attempt resume the session of the last earlier quota that left one |
| `AuthHotswap.ExhaustedMeansAllTried` | src/auth/hotswap.ts:302-306 | exhaustion is reported exactly when rotation was asked for and every slot of the order was launched; no slot is launched twice |
| `ResumeArgs.BuildResumeArgs` | src/auth/hotswap.ts:182-211 | the index loop computes `Resumed` |
| `ResumeArgs.SingleStays` | src/auth/hotswap.ts:201-204 | an option with one value stays with the next word, whatever it looks like |
| `ResumeArgs.VariadicStays` | src/auth/hotswap.ts:196-200 | an option with any number of values stays with the words up to the next that starts with a dash |
| `ResumeArgs.AttachedStays` | src/auth/hotswap.ts:153-174 | an option with its value attached, after an equals sign or to two characters, stays alone |
| `ResumeArgs.SelectorGoes` | src/auth/hotswap.ts:176-190 | the session selectors go |
| `ResumeArgs.OtherWord` | src/auth/hotswap.ts:207 | any other word stays exactly when it starts with a dash |
| `ResumeArgs.VariadicOptions` | src/auth/hotswap.ts:130-151 | of the table only `-i` and `--image` take any number of values, and no selector is an option |
| `ResumeArgs.PartsAreTheWords` | src/auth/hotswap.ts:188-208 | taking a command line apart into options with their values, flags, selectors and positionals loses and reorders nothing |
| `ResumeArgs.ResumedKeepsOptions` | src/auth/hotswap.ts:182-211 | of the words before `--` exactly the options with all their values and the other flags are left, in order; everything from `--` on is untouched |
| `ResumeArgs.RebuildingIsStable` | src/auth/hotswap.ts:182-211 | rebuilding from its own output with another session changes the id and nothing else if and only if the first id does not start with a dash or is a selector |
| `ResumeArgs.CodexOptions` | src/auth/hotswap.ts:130-151 | every option of the table starts with a dash, which is all that the rebuilding lemmas ask of it |
| `ResumeArgs.FlagIdStays` | src/auth/hotswap.ts:207 | what rebuilding gives for an id that looks like a flag and takes no value word: the id stays |
| `Mission.Runner.RunSelectedTasks` | src/cli/mission.ts:309-348 | the loop persists and executes exactly the steps of `StepsFrom` and ends with `FinalFrom` |
| `Mission.Runner.Perform` | src/cli/mission.ts:397-481 | run, resume and rerun take exactly the steps of `StepsOf` |
| `Mission.Runner.Note` | src/cli/mission.ts:378-391 | planning and marking write one summary, and refuse without writing |
| `Mission.RefusedExactlyWhen` | src/cli/mission.ts:378-446 | a command takes no step exactly when its file has no task, its summary is missing, it names a task that is not there, or marks with a status that cannot be set |
| `Mission.ExecutesExactly` | src/cli/mission.ts:309-347 | which tasks a command executes: a resume those that are not passed, blocked or waiting for review, up to the first of them that fails unless it continues on errors; a run all in the same way; a rerun the one it names |
| `Mission.EndsExactly` | src/cli/mission.ts:309-347 | and what each task ends with: its outcome, a skip after a failure, or what it was |
| `Mission.ExecutionIsRecorded` | src/cli/mission.ts:318-346 | tasks are executed once each and in order, the summary says running just before and the outcome just after, and the last step writes the final summary |
| `Mission.RunStatus` | src/cli/mission.ts:252-259 | a completed run has passed exactly when every task exits 0, and failed otherwise |
| `Mission.ResumeStatus` | src/cli/mission.ts:252-259 | the status after a completed resume, from the tasks on disk and the exit codes |
| `Mission.CompletedCommandEnds` | src/cli/mission.ts:318-347 | a completed command leaves unselected tasks alone, and the selected ones as passes up to the first failure, that failure, and then skips; with `--continue-on-error` each as its exit code says |
| `Mission.CountsSumToTotal` | src/cli/mission.ts:240-250 | the six counts sum to the total if and only if no task is pending or running |
| `Mission.CompletedRunIsAccounted` | src/cli/mission.ts:397-425 | after a completed run or resume nothing is pending, running or planned, with `--continue-on-error` nothing is skipped, and the six counts sum to the total |
| `Mission.CompletedRerunIsAccounted` | src/cli/mission.ts:418-425 | a completed rerun changes one task, and its counts sum to the total if and only if no other task was waiting |
| `Mission.RerunLeavesTasksUncounted` | src/cli/mission.ts:418-425 | a run cut off after its first summary, then a rerun of one task: the six counts miss the other |
| `Mission.PassedIsNeverExecutedAgain` | src/cli/mission.ts:309-435 | once a pass is on disk, no sequence of resumes, marks and reruns of other tasks, each cut off by a crash after any step, executes the task again |
| `Mission.PassedIsExecutedAgainBy` | src/cli/mission.ts:418-420 | a passed task is executed again exactly by a rerun of it, and by a fresh run that gets that far |
| `Mission.PlanForgets` | src/cli/mission.ts:455-468 | planning again overwrites what passed, so that a later resume starts over |
| `Autopilot.HasCleanEvidence` | src/autopilot/completion-gate.ts:116-126 | clean evidence is a clean review, a clean QA and no locator in common |
| `Autopilot.EvidenceHasDisjointLocators` | src/autopilot/completion-gate.ts:68-126 | clean evidence names at least one place for the review and one for the QA, and none for both |
| `Autopilot.CompletionIsGated` | src/autopilot/completion-gate.ts:128-166 | a completion is accepted if and only if it comes from `ultraqa` with clean evidence, from a state that is not active, or from an unknown phase when that is allowed |
| `Autopilot.InactiveCompletesWithoutEvidence` | src/autopilot/completion-gate.ts:139-152 | a state that never said it was active is completed without evidence |
| `Autopilot.CompletionFromUltraqa` | src/autopilot/completion-gate.ts:128-166 | a supervised run enters a successful terminal state only from `ultraqa` and with clean evidence |
| `Autopilot.RunIsReviewed` | src/autopilot/completion-gate.ts:153-164 | and between its last implementation phase and that `ultraqa` there is a state that is neither |
| `Autopilot.PhaseOfWord` | src/autopilot/fsm.ts:31-48 | which words name which phase, in any case, with underscores for dashes, and with or without the prefix |
| `Autopilot.ReviewTexts` | src/autopilot/fsm.ts:31-48 | `code-review` and `autopilot:code_review` are the same phase |
| `Autopilot.FixText` | src/autopilot/fsm.ts:35 | `review-fix` is rework |
| `Autopilot.SuccessNeedsNoFailure` | src/autopilot/completion-gate.ts:35-46 | a failed phase, outcome or end is never a success whatever else is set; without one, any sign of an end is enough |
| `Autopilot.RefusedFromUltraqa` | src/autopilot/completion-gate.ts:89-165 | from `ultraqa` a completion is refused for a verdict that is not clean, of another stage, not approved or not clear, for a review that looks like QA or names a CI run, for a QA signed by the leader or the review, that looks like a review or is skipped without a reason, and without a place or with a shared one |
| `Autopilot.RefusedBeforeUltraqa` | src/autopilot/completion-gate.ts:139-161 | from any earlier phase a completion is refused with the gate that is missing |
| `Autopilot.WaitingKeepsThePhase` | src/autopilot/fsm.ts:50-68 | while the user is asked, an active state stays in the phase that asked |

## Left out

- The publisher of the native cache is a step relation, not a class: what matters there is the interleaving of many processes, which a sequential method cannot show.
- Symbolic links, permissions, path canonicalisation and the containment checks of journal, cache and auth code: files are names with contents.
- Outcomes of `fsync`: each step is taken to be durable when it returns, and a multi-step write of one file (a copied binary or successor, a summary, a metadata file) to be one step, except that a record may stay empty and an install may be torn (`TornInstallIsRefused`).
- ClaimJournal.Disk.ClaimAndReplace: the temporary file that the successor is copied from, and claims outside the controlled root, which have no record.
- NativeCacheProofs.LockFreeReadingIsSound: the text format of sidecar and lock records is a data type, so malformed text is simply another kind of file.
- Cleanup.WaitForPidsToExit: the deadline is a number of polls, and signals that fail with an unexpected error are not modelled.
- Command-line classifiers, quota and token detection, evidence URL hints and case mapping are predicates about which nothing is assumed.
- CanonicalJson.CanonicalFormIsComplete: the text that `JSON.stringify` makes of a canonical value, and the dropping of undefined fields before it.
- `validateObservations` and `buildFixtureContracts` in the capability lockfile: a checklist of independent field checks.
- Autoresearch.EveryRunReplays: of a crash inside a call only what it leaves in rows, ledger and manifest; files written half are not modelled, and a call that throws leaves nothing recorded; an operator's stop from another process is no event.
- Autoresearch: descriptions, notes, timestamps, mode state and the instructions file; scores are real numbers, without infinities.
- CacheOverlay.Volume.Overlay: entries that are neither files nor directories, failing system calls, and the removal of extras in parallel (they are removed one after another, in any order).
- AuthHotswap.Run: the model-instruction arguments injected into each attempt, a `markSlotQuota` that throws, pre-launch and post-launch hooks, the files of the slots, and other processes that write the metadata at the same time.
- Mission.PassedIsNeverExecutedAgain: a summary is written in one step; one cut off in the middle of `writeFile` can no longer be read, and is no crash point here.
- Mission.Runner.Perform: exit codes, timestamps and the mission ledger in the summary, and the parsing of the checklist.
- Autopilot: `inferRunOutcome` and `inferTerminalLifecycleOutcome` are fields of a state that may have any value, and a phase name is not normalised a second time once it is a phase.
