# xDrive: backup repository, Caddy journal, Share updater

This project models the parts of xDrive that keep state on disk across crashes, or that must
agree with each other byte for byte, and proves what they promise.

**The content-addressed backup repository** (`cmd/backuprepo`). A snapshot is a directory with an
`objects.index` (one hash and size a row) and a `legacy.tar`; file bodies are objects named by
their SHA-256 and shared between snapshots. `Repository.Disk` is such a repository as a value.
Captures, plans, prunes, verification and restores are methods with the program's loops, early
exits and overflow checks, proved against functions and predicates on that value; `Prune.Repo` and
`Capture.CaptureRun` change their state in place and can be stopped after any operation.
A prune is also a sequence of file operations (`Journal.Op`), and a power loss is a cut
through it (`Journal.Durable`): within one directory changes reach the disk in the order they were
issued, a rename counts for both its directories, and a completed sync covers all that came before
in its directory. `Power` is a machine between two restarts: the repository as it was at the last
one, and every act of captures and prunes since then. A program that stops leaves its acts as
volatile as they were when the next program starts; only a power loss decides what is left of them.

The main results, hardest first:

* `History.LiveRun`: after any sequence of captures, keep-last prunes and selected deletions from an
  empty repository, each stopped anywhere, with orderly restarts in between, every snapshot that the
  programs then see restores to exactly the files of the tree it captured. Its only hypotheses are
  collision freeness and object files that carry the names of their contents.
* `History.WholeRun`: the same of everything that a power loss can leave, at the end of such a run or
  inside it, if it spares what was issued up to the end of the last event that was not careful
  (`History.Careful`). An event is careful if a prune removes no file and no object of a snapshot
  whose rename a power loss could still undo, and if a snapshot is published with settled objects
  only: their bucket directories were there at the last restart, and every later change of them was
  synced. `History.EventIsSafeExactly` shows that the condition is exact: an event, stopped anywhere,
  is safe against a power loss at each of its moments if and only if it was careful. The programs do
  not check it themselves. In particular the first publication into a new bucket is never careful
  before a restart or an equally complete writeback (`History.NewBucketIsCareless`).
* `PowerExact.StoppedIsSafeExactly`, `PowerPrune.PruneIsSafeExactly`, `PruneKill.StoppedThenPruned`:
  the first half, for a prune of any policy after any number of stopped programs. The source does
  not re-sync `snapshots/` when it has nothing to rename, so a prune killed right after a rename and
  followed by one that renames nothing can lose the files or objects of a listed snapshot to a power
  loss; in every other case it cannot. `PruneKillExample` is a concrete repository on which it
  happens.
* `PowerCapture.PublishIsSafeExactly`: the second half. A capture syncs the bucket of each object it
  links, but never `objects/sha256`, and reuses an object without syncing it again.
* `PruneCrash.CrashSafe`, `PruneRetry.RetryConverges`: no cut of a prune takes an object from a
  listed snapshot; after any number of attempts cut off by power losses the next one is accepted and
  ends in one and the same repository, whose meaning `PruneRetry.FinalMeaning` spells out.
* `Prune.Repo.Prune` performs exactly `PruneSpec.PruneLog`. What that demands, leaves and reports is
  said of the repository alone in `PruneMeaning`: when a prune is refused (the last recovery point
  above all), which snapshots and objects it leaves, what its counters count, and that every
  directory it changes is synced afterwards. `PlanPredicts.PlanPredictsPrune` and
  `PlanPredicts.PreviewPredictsPrune`: what the read-only plans announce is what it deletes.
* `RoundTrip.EachFileIsOwed` and its neighbours say path by path what "the files of the tree" are,
  and `Restore.Destination.RestoreSnapshot` what is put back.

**The Caddy `.env` journal** (`scripts/caddy-env-config.py`). `CaddyEnv` cuts, reads and rewrites
the text, `EnvEndings` shows that its style of line endings is kept; `CaddyJournal` is save, commit and restore over the env, backup and marker files, stopped
between any two operations, and `CaddyPower` adds power losses, since a restore does not sync its
unlinks; `CaddyCommit` is the durable commit with its terminal receipt, and the reconciliation after
a crash.

**The Share updater** (`scripts/xdrive-share-update.py`). `ShareUpdate` runs discovery, staging and
recording against a Share whose answers may depend on everything it was asked, run after run.
`ShareUpdate.RollbackSafe` is what no Share can make it do; `ShareHonest` is the other direction: a
Share that offers a complete, authentic release above the floor gets exactly that release installed.

**Three algorithms**: a content-anchored chunker with range reads (`Chunker`), an HTTPS plan
rewriter (`HostPlan`, said line by line in `HostMeaning`), a block-averaging downsampler
(`Downsample`).

Three more properties that the code's own comments suggest turn out to need a condition, which is
proved exactly: a restore of the `.env` baseline is exact if and only if no baseline value is still
in quotes after one pair was taken off (`CaddyJournal.RestoreKeeps`), a crashed durable commit can
be tried again under its request identifier if and only if its private record was not left empty
(`CaddyCommit.CommitRetries`), and the space estimate covers a capture without counting the
archive's trailer if and only if the archive has a regular file or two members
(`SpaceEstimate.CoversWithoutTrailer`).

Hash functions, the publisher check, JSON decoding and a few library predicates (host names,
private addresses) are constants of which nothing is known but their types. Where content is
compared by name, collision freeness on the contents involved is an explicit hypothesis
(`Content.CollisionFree`, `CaddyJournal.FingerprintsTell`).

`dafny verify dfyconfig.toml` checks everything.

## Model

| member | source | states |
|---|---|---|
| Listing.OfAscending | cmd/backuprepo/retention_plan.go:284-291 | a directory listing is in ascending byte order, so it is determined by the set of names |
| Listing.LessMeaning | cmd/backuprepo/retention_plan.go:284-291 | the order of a listing: at the first difference the smaller character, or a proper prefix, comes first |
| SnapshotNames.NameOrderIsTimeOrder | cmd/backuprepo/prune.go:42-48 | sorting committed names as text is sorting them by the instant they spell |
| SnapshotNames.CanonicalMeaning | cmd/backuprepo/prune.go:42-48 | a committed name is the fixed prefix with a real date and time in sixteen characters |
| ObjectIndex.ReadIndex | cmd/backuprepo/main.go:671-703 | the row loop delivers exactly the rows before the first bad line or repeated hash, and never the same hash twice |
| ObjectIndex.RowMeaning | cmd/backuprepo/main.go:671-703 | a line is a row exactly if it is a hash, a tab and a size below 2^63, and short enough for the scanner |
| ObjectIndex.LinesMeaning | cmd/backuprepo/main.go:671-703 | the lines of an index: their newlines and nothing else are lost |
| ObjectIndex.ReadMeaning | cmd/backuprepo/main.go:671-703 | an index is read line by line up to the first that is no row or repeats a hash; in full exactly if there is none |
| ObjectIndex.RoundTrip | cmd/backuprepo/main.go:633-635 | rows with valid hashes and 63-bit sizes read back as written exactly when no hash repeats |
| LegacyArchive.EntryOkMeaning | cmd/backuprepo/main.go:724-738 | the lexical checks on one member accept exactly proper paths outside the object root in their one canonical spelling |
| LegacyArchive.ClimbParents | cmd/backuprepo/main.go:745-751 | the climb to the root succeeds exactly when no ancestor was a file, and marks every ancestor |
| LegacyArchive.WalkLegacyArchive | cmd/backuprepo/main.go:704-759 | accepts exactly the intact archives with distinct names, none at or below the object root, and no file above another member, in any order |
| LegacyArchive.CleanIsProper | cmd/backuprepo/main.go:724-727 | a path that cleans to a local name other than the tree itself has neither empty, dot nor dot-dot parts |
| LegacyArchive.ProperMeaning | cmd/backuprepo/main.go:724-738 | the members accepted, in terms of their path components |
| LegacyArchive.AcceptableMeaning | cmd/backuprepo/main.go:704-759 | an archive is accepted exactly if it is intact, every member is, names are distinct, and no file lies above a member |
| Manifest.Decoder.ReadUnique | cmd/backuprepo/retention_plan.go:52-107 | the recursive token reader returns the value of the specification and consumes exactly its tokens |
| Manifest.ReadsDocument | cmd/backuprepo/retention_plan.go:52-107 | a document's tokens are accepted exactly when keys are unique at every depth and the nesting limit holds, and then both lenient readers see the same value |
| Manifest.AcceptedIsDocument | cmd/backuprepo/retention_plan.go:52-107 | whatever is accepted is the token sequence of such a document |
| Manifest.ValidateManifest | cmd/backuprepo/retention_plan.go:113-143 | the manifest checks accept exactly one unique-key object with the three required fields |
| Manifest.ManifestUnambiguous | cmd/backuprepo/retention_plan.go:48-51 | first-key and last-key readers agree on an accepted manifest |
| Manifest.ManifestMeaning | cmd/backuprepo/retention_plan.go:113-143 | a manifest is accepted exactly if its tokens are one object with unique keys at every depth and the three members with their values |
| Repository.MeasureFiles | cmd/backuprepo/retention_plan.go:170-182 | the first pass succeeds exactly on expected regular files whose sizes sum without overflow |
| Repository.ValidateCommittedSnapshot | cmd/backuprepo/retention_plan.go:158-231 | succeeds exactly on a committed snapshot and returns the sum of its file sizes |
| Repository.CommittedMeaning | cmd/backuprepo/retention_plan.go:158-231 | a snapshot is committed exactly if it holds the six files, an accepted manifest and a checksum line for each of the other five, in the fixed order |
| RetentionPlan.EnterRows | cmd/backuprepo/retention_plan.go:306-315 | one index enters the size table, or some hash was recorded before with another size |
| RetentionPlan.AuditMeaning | cmd/backuprepo/retention_plan.go:319-392 | the running counters of the audit loop equal figures defined by set membership alone |
| RetentionPlan.PlanRetention | cmd/backuprepo/retention_plan.go:241-404 | a plan is produced exactly for repositories in order whose sums fit 63 bits, and every field is the corresponding set count or size sum |
| RetentionPlan.PlanDemands | cmd/backuprepo/retention_plan.go:241-404 | what a plan demands of every snapshot, row and object, and of the sums |
| PruneMeaning.PlannedNames | cmd/backuprepo/retention_plan.go:284-291 | a snapshot is kept exactly if fewer than keep-last are newer |
| PruneMeaning.PlannedFigures | cmd/backuprepo/retention_plan.go:284-403 | the plan's figures as sizes of sets of objects: needed by a kept snapshot, by a dropped one only, by none |
| PruneSpec.PendingTransactions | cmd/backuprepo/prune.go:73-144 | the journal check accepts exactly well-named transactions with an intact marker, or empty; a retired snapshot in one is committed or a rest of one |
| PruneSpec.ValidateRetainedArchives | cmd/backuprepo/prune.go:315-329 | accepts exactly canonical names whose archives restore can expand |
| PruneSteps.RetireEffect | cmd/backuprepo/prune.go:418-446 | the rename loop moves exactly the named snapshots under the transaction |
| PruneSteps.MoveEffect | cmd/backuprepo/prune.go:146-188 | creating a transaction and moving snapshots into it leaves the rest of the repository alone |
| Prune.CurrentReferences | cmd/backuprepo/prune.go:190-209 | the protected hashes are those of all indexes left under snapshots/ |
| Prune.Repo.CreateTransaction | cmd/backuprepo/prune.go:146-188 | performs a prefix of its six operations, all of them unless interrupted or the name is taken |
| Prune.Repo.RetireAll | cmd/backuprepo/prune.go:424-446 | each rename is followed by a sync of its destination, then of its source |
| Prune.Repo.SweepBucket | cmd/backuprepo/prune.go:217-255 | one bucket loses exactly its unprotected objects, counted and summed |
| Prune.Repo.Sweep | cmd/backuprepo/prune.go:211-257 | the store loses exactly its unprotected objects, counted and summed |
| Prune.Repo.FinishChild | cmd/backuprepo/prune.go:272-296 | a retired snapshot loses its files, then its directory, unless interrupted or the byte counter overflows |
| Prune.Repo.FinishTransaction | cmd/backuprepo/prune.go:259-313 | a transaction is emptied and removed, its files and bytes counted |
| Prune.Repo.Preflight | cmd/backuprepo/prune.go:361-416 | the checks before the first change pass exactly on a ready repository |
| Prune.Repo.Prune | cmd/backuprepo/prune.go:343-467 | refused exactly if journal or repository is not in order, the snapshot named is not there, no other one is, or a survivor cannot be restored, and then without any change; otherwise a prefix of the specified log; a finished one leaves the survivors with the objects that they need and nothing else, and reports what is gone |
| PruneMeaning.RefusedMeaning | cmd/backuprepo/prune.go:361-416 | when the preflight refuses, clause by clause; where it passes, a snapshot other than the one to delete is there |
| PruneMeaning.SurvivorsAre | cmd/backuprepo/prune.go:386-407 | the snapshots kept are the newest, or all but the one named |
| PruneMeaning.DoneMeaning | cmd/backuprepo/prune.go:417-467 | the whole log leads to the survivors as they were, exactly the objects that their indexes mention, and no transaction; the report counts what is gone |
| PruneMeaning.ReportMeaning | cmd/backuprepo/prune.go:211-313 | snapshots, objects, bytes and files reported are those that the repository has lost |
| PruneMeaning.LogIsSynced | cmd/backuprepo/prune.go:146-313 | each change of a directory is followed by a sync of it, a rename by a sync of both |
| PlanPredicts.PlanPredictsPrune | cmd/backuprepo/retention_plan.go:284-403 | objects, object bytes and file bytes that the prune deletes are the plan's figures, summing to its potential bytes |
| PlanPredicts.PlanSelectedPrune | cmd/backuprepo/selected_prune_plan.go:34-131 | the preview succeeds exactly for a present snapshot with restorable survivors and fitting sums, and its fields are set counts and sums |
| PruneMeaning.PreviewedFigures | cmd/backuprepo/selected_prune_plan.go:83-130 | the preview's figures as sizes of sets of objects: of the selected snapshot, shared, exclusive, unreferenced |
| PlanPredicts.CountSelected | cmd/backuprepo/selected_prune_plan.go:115-124 | shared and exclusive objects partition the selected ones |
| PlanPredicts.PreviewedIsReady | cmd/backuprepo/selected_prune_plan.go:34-131 | a previewed deletion passes the preflight exactly if the deep checks do |
| PlanPredicts.PreviewPredictsPrune | cmd/backuprepo/selected_prune_plan.go:83-130 | a selected deletion that was previewed in depth is accepted, and removes exactly what the preview announced |
| Journal.ImageObjects | cmd/backuprepo/prune.go:236-246 | the objects a restart finds are those whose unlink is not in the cut, unchanged |
| Journal.ImageSnapshots | cmd/backuprepo/prune.go:431-444 | the snapshots a restart finds are those whose rename is not in the cut, unchanged |
| PruneCrash.MovesDurable | cmd/backuprepo/prune.go:434-457 | once any unlink was issued every move is on the disk |
| PruneCrash.CrashSafe | cmd/backuprepo/prune.go:417-457 | after a power loss with any cut every listed snapshot has every object of its index, of the recorded size and digest |
| PruneImages.MarkerLast | cmd/backuprepo/prune.go:269-308 | a transaction's marker is removed only after every retired snapshot in it |
| PruneImages.MarkerFirst | cmd/backuprepo/prune.go:164-187 | the marker is durable before anything is moved under it |
| PruneImages.ImagePending | cmd/backuprepo/prune.go:73-144 | the journal check accepts every state a power loss can leave |
| PruneRetry.KeepUnchanged | cmd/backuprepo/retention_plan.go:284-291 | what a keep-last policy keeps does not depend on how many drops were already moved |
| PruneRetry.RetryReady | cmd/backuprepo/prune.go:361-416 | after a power loss the same keep-last prune passes its preflight again |
| PruneRetry.SameFinal | cmd/backuprepo/prune.go:343-467 | the retry heads for the repository that the interrupted prune was heading for |
| PruneRetry.PruneArrives | cmd/backuprepo/prune.go:343-467 | a prune that runs to its end arrives there |
| PruneRetry.PruneEnds | cmd/backuprepo/prune.go:343-467 | so does one of any policy, with the transactions found pending |
| PruneRetry.StoredShrinks | cmd/backuprepo/prune.go:259-313 | no operation of a prune adds stored bytes |
| PruneRetry.FinishBytesLoad | cmd/backuprepo/prune.go:287-290 | the file bytes that a prune deletes are those of the retired and the droppable snapshots, so retries cannot overflow where the first attempt could not |
| PruneRetry.RetryConverges | cmd/backuprepo/prune.go:343-467 | after any history of crashed attempts: recoverable, accepted again, and ending in the same repository |
| PruneRetry.FinalMeaning | cmd/backuprepo/prune.go:343-467 | that repository has the newest snapshots by time, exactly the objects of their indexes, and no transaction |
| Power.ActIntact | cmd/backuprepo/prune.go:217-313 | an act leaves an undamaged state undamaged exactly if it unlinks no object in use, removes no file of a listed snapshot, and publishes only what is stored |
| Power.SafeExactly | cmd/backuprepo/prune.go:417-457 | a series of acts is safe against a power loss at every moment exactly if each act is harmless in every state that a cut could leave |
| Power.ListedIsLive | cmd/backuprepo/prune.go:431-444 | in a cut that loses no rename every listed snapshot is one that the programs see |
| Power.ObjectIsLive | cmd/backuprepo/main.go:332-339 | in a cut that loses no change of an object, it is as the programs see it |
| PowerPrune.AllCleanUp | cmd/backuprepo/prune.go:259-313 | the clean-up removes a snapshot after all its files, and a transaction after all its snapshots |
| PowerPrune.LogInOrder | cmd/backuprepo/prune.go:343-467 | whatever a machine went through, a prune sees the repository that its log spells, and renames and removes in order |
| PowerPrune.GuardedIsSafe | cmd/backuprepo/prune.go:417-457 | a prune that renames something, or starts with no rename pending, is safe at every moment |
| PowerPrune.UnguardedHarms | cmd/backuprepo/prune.go:417-457 | any other prune removes files of a snapshot that a cut lists again |
| PowerPrune.PruneIsSafeExactly | cmd/backuprepo/prune.go:417-457 | both directions, for every policy and after any number of stopped programs |
| PowerPrune.PendingAfterStop | cmd/backuprepo/prune.go:431-444 | a prune leaves a rename pending exactly if it was stopped right after a rename |
| PowerExact.LostIsUndoable | cmd/backuprepo/prune.go:431-444 | a rename that some cut loses is one that no sync has covered since, nor any later rename |
| PowerExact.DamageExactly | cmd/backuprepo/prune.go:217-313 | an operation of a prune can do damage exactly if it removes a file or an object of a snapshot whose rename some cut loses |
| PowerExact.StoppedIsSafeExactly | cmd/backuprepo/prune.go:343-467 | a prune stopped after any number of operations is safe at each moment exactly if none of them does so |
| PowerExact.GuardedIsUnexposed | cmd/backuprepo/prune.go:417-457 | a prune that renames something, or starts with no rename pending, has no such operation |
| PruneKill.StoppedThenPruned | cmd/backuprepo/prune.go:417-457 | of two prunes of any policies the second is unsafe exactly if the first was stopped right after a rename and the second renames nothing |
| PruneKill.LeftIsImage | cmd/backuprepo/prune.go:343-467 | for one prune right after a restart the machine leaves what the prune's own cuts leave |
| PruneKill.KilledAfterLastRename | cmd/backuprepo/prune.go:417-457 | every keep-last prune that drops something, killed after its last rename and run again, is such a case |
| PruneKillExample.KilledPruneDamages | cmd/backuprepo/prune.go:417-457 | a concrete repository of two snapshots on which it happens |
| SourceTree.CasHashMeaning | cmd/backuprepo/main.go:614-617 | the shape test accepts exactly the one path that each hash has below the object root |
| SourceTree.FilesOfMeaning | cmd/backuprepo/main.go:598-636 | the files a restore must produce, path by path |
| Capture.EncodeTarLegacy | cmd/backuprepo/main.go:344-428 | the archive holds exactly the items outside the object root and the media cache, and fails exactly on a special file among them |
| Capture.ArchiveAcceptable | cmd/backuprepo/main.go:715-757 | what capture archives, the walker accepts |
| Capture.CaptureRun.CreateObject | cmd/backuprepo/main.go:265-343 | a new bucket, a link, the bucket's sync, stopped anywhere; an object of the same size is reused unread, a new one must have the digest its name claims |
| Capture.CaptureRun.CopyObjects | cmd/backuprepo/main.go:598-636 | performs a prefix of the specified acts; on success all of them, with the index of exactly the walk's objects, those missing counted as created and the others as reused |
| Capture.CaptureRun.Capture | cmd/backuprepo/main.go:542-670 | succeeds on a capturable source unless the device fails, and then yields its index, archive and the numbers of created and reused objects |
| Capture.CaptureStores | cmd/backuprepo/main.go:598-636 | all acts of a capture together add the walk's missing objects and change none |
| Capture.RowsDistinctAndValid | cmd/backuprepo/main.go:598-636 | the index has no repeated hash and only sizes the reader takes |
| Capture.IndexReadsBack | cmd/backuprepo/main.go:671-703 | the index a capture writes is read back unchanged |
| PowerCapture.UnsettledIsLost | cmd/backuprepo/main.go:281-339 | an object that is not settled is lost by some cut that keeps every snapshot |
| PowerCapture.PublishIsSafeExactly | cmd/backuprepo/main.go:281-339 | a published snapshot is safe against a power loss exactly if each object of its index is settled |
| PowerCapture.CaptureSettles | cmd/backuprepo/main.go:281-339 | a finished capture settles the objects of the buckets it filled, if those were there at the last restart; any other object only if it was settled before |
| SpaceEstimate.EstimateIncrementalBytes | cmd/backuprepo/main.go:463-536 | the estimate is the sum of the items' costs, or an item is refused or the sum overflows |
| SpaceEstimate.CostMeaning | cmd/backuprepo/main.go:463-536 | the cost of an item by where it lies |
| SpaceEstimate.EstimateCovers | cmd/backuprepo/main.go:433-537 | with the 1024-byte trailer the estimate covers the created objects and the archive, with 512 bytes to spare for each archived item |
| SpaceEstimate.CoversWithoutTrailer | cmd/backuprepo/main.go:433-537 | without the trailer it still covers them exactly if the archive has a regular file or two members |
| SpaceEstimate.TooSmall | cmd/backuprepo/main.go:433-537 | an empty source, and one whose files are all objects, are not covered without it |
| SpaceEstimate.SourceIsEstimable | cmd/backuprepo/main.go:463-536 | what capture takes the estimate takes, exactly unless a symbolic link hides among the uploads or the sum passes 2^63-1 |
| SpaceEstimate.LinkAmongUploads | cmd/backuprepo/main.go:483-485 | such a link, refused by the estimate and passed over by capture |
| VerifyReport.VerifyMetadata | cmd/backuprepo/verify_report.go:44-63 | a published snapshot must be committed under a canonical name; a raw capture need not be, but has none of the other files of a published one |
| VerifyReport.VerifyRows | cmd/backuprepo/verify_report.go:95-140 | stops at the first defective row; each category holds exactly of rows with that defect, and every row before has its object, of the recorded size and digest |
| VerifyReport.VerifyWithReport | cmd/backuprepo/verify_report.go:68-155 | succeeds exactly when every part passes; each category is reported exactly when its defect is the first, and every row counted has its object |
| VerifyReport.DeepPlanVerifies | cmd/backuprepo/retention_plan.go:295-397 | after a deep plan every snapshot passes metadata and objects without overflow, and verifies exactly if its archive is acceptable |
| Restore.NothingInTheWay | cmd/backuprepo/main.go:840-867 | the next member finds no file where it needs a directory, and a file finds its place empty |
| Restore.Extract | cmd/backuprepo/main.go:840-867 | a compatible archive extracts into an empty tree, which then holds exactly its files and directories |
| Restore.AllCompatible | cmd/backuprepo/main.go:868-895 | members and objects get along unless the archive has a file named like the object root's parent |
| Restore.RestoreObjects | cmd/backuprepo/main.go:868-895 | objects are restored exactly if there are none or no such file is in the way |
| Restore.Destination.RestoreSnapshot | cmd/backuprepo/main.go:798-896 | an unverified snapshot leaves the destination untouched; success is exactly restorability, and then a file is there exactly if it is a member of the archive or an object of the index |
| RoundTrip.NoBlobsFile | cmd/backuprepo/main.go:596-601 | a captured archive never has the blocking file |
| RoundTrip.EachFileIsOwed | cmd/backuprepo/main.go:598-636 | of any walk: each file at an object's path is owed under its hash and has its row, each other file outside object root and media cache is owed with its permissions, and an unfinished upload is neither and fails nothing |
| RoundTrip.FilesAreOwed | cmd/backuprepo/main.go:344-428 | the files owed are exactly these, with these contents and permissions |
| RoundTrip.RowsAreOwed | cmd/backuprepo/main.go:598-636 | the index has a row exactly for each file at its hash's path, with its size |
| RoundTrip.ObjectsAreOwed | cmd/backuprepo/main.go:598-636 | the store keeps its objects and gains exactly those of the walk |
| RoundTrip.ArchiveIs | cmd/backuprepo/main.go:344-428 | the archive has exactly the directories and files outside the object root and the media cache |
| RoundTrip.CapturableMeans | cmd/backuprepo/main.go:598-636 | a source is capturable exactly if each of its items is, in terms of its path and kind and the object stored |
| RoundTrip.RestoredIsSource | cmd/backuprepo/main.go:840-895 | the restored files are exactly the source's: same paths and bytes, same permissions outside the object root |
| History.PublishingIsSafeExactly | cmd/backuprepo/main.go:542-670 | publishing a finished capture is safe exactly if the program sees settled objects only |
| History.PruningIsSafeExactly | cmd/backuprepo/prune.go:343-467 | a prune or deletion, stopped anywhere, is safe at each of its moments exactly if it was careful |
| History.EventIsSafeExactly | cmd/backuprepo/prune.go:343-467 | so is every event, stopped anywhere |
| History.NewBucketIsCareless | cmd/backuprepo/main.go:281-284 | publishing a snapshot with an object in a bucket newer than the last restart is never careful |
| History.LiveKeeps | cmd/backuprepo/prune.go:343-467 | after any event, careful or not, what the programs see is undamaged |
| History.SparedIsGood | cmd/backuprepo/prune.go:417-457 | so is what a power loss leaves that spares the acts up to the last careless event |
| History.PerformPrune | cmd/backuprepo/prune.go:343-467 | what the prune program does is one of the run's events, its acts still volatile |
| History.PerformCapture | cmd/backuprepo/main.go:542-670 | what the capture program does is one of the run's events, its acts still volatile |
| History.CompletedPrune | cmd/backuprepo/prune.go:417-447 | an uninterrupted careful prune forgets exactly the snapshots its policy drops |
| History.ListedRestores | cmd/backuprepo/main.go:798-896 | every listed snapshot of an undamaged state is restorable, to the tree captured |
| History.LiveRun | cmd/backuprepo/main.go:542-670 | after every run from an empty repository each snapshot that the programs see restores to the tree captured |
| History.WholeRun | cmd/backuprepo/main.go:542-670 | so does each snapshot that a power loss then leaves listed, if it spares the acts up to the last careless event |
| CaddyEnv.SplitFacts | scripts/caddy-env-config.py:44-46 | cutting a text into lines loses nothing |
| CaddyEnv.LinesMeaning | scripts/caddy-env-config.py:44-46 | the lines of a text are the one way to cut it after each line end |
| CaddyEnv.ParseEnv | scripts/caddy-env-config.py:44-64 | the parse loop fails exactly on a repeated key or an unusable value |
| CaddyEnv.ParseMeaning | scripts/caddy-env-config.py:44-64 | each key has the value of the one line that gives it, without one pair of quotes, or is empty if none does |
| CaddyEnv.RenderEnv | scripts/caddy-env-config.py:100-118 | the render loops produce the specified text, or the text does not parse |
| CaddyEnv.RenderParses | scripts/caddy-env-config.py:100-118 | a rendered text parses to the values written, each without one pair of quotes; exactly them if and only if none is in quotes |
| CaddyEnv.RenderKeepsOthers | scripts/caddy-env-config.py:100-118 | unmanaged lines survive byte for byte and in order; at most the last gains its missing newline |
| EnvEndings.RenderKeepsEndings | scripts/caddy-env-config.py:100-118 | a file whose newlines all, or none, follow a carriage return is rewritten to such a file |
| CaddyEnv.SafeRoundTrip | scripts/caddy-env-config.py:72-75 | values that validation lets through are read back exactly |
| CaddyEnv.ParsedIsWritable | scripts/caddy-env-config.py:44-64 | whatever a text parses to can be written again |
| CaddyJournal.Host.SaveValues | scripts/caddy-env-config.py:168-221 | refused exactly if no acceptable values answer the request, and then without change; otherwise a prefix of backup, marker, env, marker; after a finished one the file parses, key by key, to what was asked for, or as before where nothing was |
| CaddyJournal.Host.CommitValues | scripts/caddy-env-config.py:224-286 | refused exactly on other values than expected, without a backup or under another marker; otherwise removes the marker, then the backup |
| CaddyJournal.Host.RestoreValues | scripts/caddy-env-config.py:224-286 | refused exactly on other values than expected or without a readable backup; otherwise rewrites the env, then removes marker and backup |
| CaddyJournal.SaveMeaning | scripts/caddy-env-config.py:168-210 | a save is accepted exactly if values that answer the request, key by key, may be saved now |
| CaddyJournal.SaveEnds | scripts/caddy-env-config.py:211-221 | all its operations lead to a file that parses to these values, under their marker; the old file is the backup unless one was kept already |
| CaddyJournal.SaveKeeps | scripts/caddy-env-config.py:168-221 | a save stopped anywhere keeps the baseline; a finished one puts the new values in force under a matching marker |
| CaddyJournal.CommitKeeps | scripts/caddy-env-config.py:224-286 | a commit stopped anywhere keeps the values; a finished one makes them the baseline |
| CaddyJournal.RestoreKeeps | scripts/caddy-env-config.py:248-251 | a restore stopped anywhere keeps the baseline; a finished one is clean and returns to it, exactly if and only if no baseline value is still in quotes |
| CaddyJournal.QuotedBaselineChanges | scripts/caddy-env-config.py:248-251 | a file whose domain is in two pairs of quotes: any accepted save, then a restore, leaves it without quotes |
| CaddyJournal.EveryRun | scripts/caddy-env-config.py:168-286 | over all runs: marker implies backup, the backup holds the last clean values, a commit accepts only values once in force, a backup makes restore possible |
| CaddyPower.NextKeeps | scripts/caddy-env-config.py:276-281 | every command and every loss of unsynced unlinks keeps what is seen, and all that could still come back, sound |
| CaddyPower.EveryRunWithLosses | scripts/caddy-env-config.py:168-286 | the guarantees of the journal over all runs with power losses |
| CaddyCommit.Runner.DurableCommit | scripts/caddy-env-config.py:252-285 | refuses without change exactly on an undecidable state, or performs a prefix of the durable commit's operations; a finished one leaves the receipt of exactly this decision under two names and a clean journal |
| CaddyCommit.Runner.Reconcile | scripts/caddy-env-config.py:709-817 | performs a prefix of the reconciliation; finishes exactly on a state with a receipt for this decision, and then only tidies up |
| CaddyCommit.DecidableMeaning | scripts/caddy-env-config.py:387-442 | when a decision may be committed, and which older receipt is retired for it |
| CaddyCommit.CommitEnds | scripts/caddy-env-config.py:252-285 | what a whole commit leaves: values, journal, receipts and links |
| CaddyCommit.ReconcilableMeaning | scripts/caddy-env-config.py:709-817 | when a reconciliation is possible: a receipt that decides for these values, and links as a commit leaves them |
| CaddyCommit.ReconcileEnds | scripts/caddy-env-config.py:709-817 | what a whole reconciliation leaves |
| CaddyCommit.AllOrNothing | scripts/caddy-env-config.py:257-285 | before the link nothing changed and a restore is possible; from the link on the decision stands and will be reconciled |
| CaddyCommit.CommitRetries | scripts/caddy-env-config.py:387-442 | a commit stopped before its link may be tried again exactly unless its private record was created but not written |
| CaddyCommit.EmptyRecordBlocks | scripts/caddy-env-config.py:387-442 | a commit stopped after creating its record: the retry is refused |
| CaddyCommit.ReconcileKeeps | scripts/caddy-env-config.py:709-817 | a reconciliation stopped anywhere, also with two links, keeps values and receipt and can be repeated; finished, the journal is clean |
| CaddyCommit.CommitSettles | scripts/caddy-env-config.py:652-680 | commit crashed after its link, any crashed reconciliations, one finished: the values are in force, the journal clean, the receipt unchanged |
| ShareUpdate.Children | scripts/xdrive-share-update.py:225-249 | asks page by page and assembles strictly increasing cursors, at most a hundred pages, valid entries and distinct names |
| ShareUpdate.PageAdds | scripts/xdrive-share-update.py:236-243 | a page adds all its entries and nothing else |
| ShareUpdate.TryCandidates | scripts/xdrive-share-update.py:422-439 | candidates without a descriptor are passed over, a failed listing or one below the floor ends the search; the greatest other one decides |
| ShareUpdate.Examine | scripts/xdrive-share-update.py:425-437 | what the answers make of a candidate with a descriptor; only an authentic release |
| ShareUpdate.DiscoverRelease | scripts/xdrive-share-update.py:408-439 | finds exactly what the answers lead to, which is authentic, not below the floor, and the greatest complete candidate listed |
| ShareUpdate.Updater.DownloadVerified | scripts/xdrive-share-update.py:365-387 | succeeds exactly if the file was there or the answer delivers it; otherwise it is gone, and no other file changes |
| ShareUpdate.Updater.FetchArtifact | scripts/xdrive-share-update.py:545-549 | an artifact is staged exactly if it is listed with its signed size, and there already or delivered |
| ShareUpdate.Updater.FetchPackage | scripts/xdrive-share-update.py:565-592 | a package is staged exactly if it is listed under its digest with its signed size, and cached or delivered; it then has that size and digest; other files stay |
| ShareUpdate.Updater.PrepareRelease | scripts/xdrive-share-update.py:541-595 | stages exactly what the answers lead to; success means every staged file has its signed size and digest |
| ShareUpdate.Updater.Update | scripts/xdrive-share-update.py:619-639 | records nothing exactly if the floor is unreadable or nothing is discovered, installs exactly if what was discovered is staged, the installer succeeds and more than a prefetch was asked for, and otherwise records the identity only |
| ShareUpdate.RollbackSafe | scripts/xdrive-share-update.py:356-362 | over all runs: never older, equal numbers are equal releases, never below the configured floor, the installed release was recorded and is not newer |
| ShareHonest.ReleaseNameMeaning | scripts/xdrive-share-update.py:413-418 | a release folder is named by its sequence number in plain decimal, a dash and its commit |
| ShareHonest.AuthenticMeaning | scripts/xdrive-share-update.py:342-362 | what makes a release authentic, clause by clause |
| ShareHonest.ExaminedMeaning | scripts/xdrive-share-update.py:425-437 | a candidate is taken exactly if descriptor and bundle are listed and delivered within their limits, accepted, and make it authentic |
| ShareHonest.FloorMeaning | scripts/xdrive-share-update.py:465-483 | the floor of a run: the recorded identity, if well formed and not below the configured one |
| ShareHonest.ListingMeaning | scripts/xdrive-share-update.py:225-249 | a folder is listed exactly if the answers are well-formed pages, and as what they hold |
| ShareHonest.HonestShareInstalls | scripts/xdrive-share-update.py:408-595 | a Share that offers a complete, authentic release above the floor: that release is the one discovered, and all of it is staged |
| ShareHonest.InstallOffer | scripts/xdrive-share-update.py:619-639 | run against such a Share, the updater installs and records that release |
| Chunker.MakeChunks | scripts/bench-cas-a03-d4-shifted-insert.py:79-95 | the buffering loop computes the specified chunks |
| Chunker.FirstChunk | scripts/bench-cas-a03-d4-shifted-insert.py:79-95 | where the first chunk ends: at the first atom that fills 8 MiB, or 16 MiB, or 2 MiB and whose hash ends in seven zero bits |
| Chunker.ChunksLossless | scripts/bench-cas-a03-d4-shifted-insert.py:79-95 | the chunks joined are the stream |
| Chunker.Composition | scripts/bench-cas-a03-d4-shifted-insert.py:79-95 | after a cut, what follows is chunked as if it stood alone |
| Chunker.Resynchronises | scripts/bench-cas-a03-d4-shifted-insert.py:86-92 | streams that both hold 2 MiB at the same anchor have the same chunks from there on |
| Chunker.ChunkSizes | scripts/bench-cas-a03-d4-shifted-insert.py:79-95 | chunks lie between 2 and 16 MiB, or are exactly 8 MiB in fixed mode, except the last |
| Chunker.AddVersion | scripts/bench-cas-a03-d4-shifted-insert.py:98-117 | references, objects and counters match the chunks, one by one; it fails exactly on two contents of one digest and different lengths |
| Chunker.TailAddsNothing | scripts/bench-cas-a03-d4-shifted-insert.py:98-117 | after resynchronisation the second version adds no object for the common tail |
| Chunker.VersionRange | scripts/bench-cas-a03-d4-shifted-insert.py:146-162 | a range read is the slice of the stored stream, or the range is not there |
| Chunker.InputRange | scripts/bench-cas-a03-d4-shifted-insert.py:165-186 | succeeds exactly if there is a byte at every position of the range, and delivers those bytes |
| Chunker.RangeIsSlice | scripts/bench-cas-a03-d4-shifted-insert.py:165-186 | for a source that reaches the insertion point they are the slice of the source with its insertion |
| Chunker.InputAtoms | scripts/bench-cas-a03-d4-shifted-insert.py:59-76 | the atoms joined are the source with its insertion after the first MiB, each of 64 KiB except the last |
| Chunker.RangesAgree | scripts/bench-cas-a03-d4-shifted-insert.py:189-196 | a stored version reads as the changed source |
| Chunker.RemoveUnreferenced | scripts/bench-cas-a03-d4-shifted-insert.py:199-203 | exactly the referenced objects stay |
| Chunker.DropSecond | scripts/bench-cas-a03-d4-shifted-insert.py:199-203 | two versions share a store, and after the second is dropped the first still reads whole from exactly its own objects |
| HostPlan.ValidateEnv | scripts/caddy-https-host-plan.py:143-171 | the reader's loop delivers the view that the assignments in the file give |
| HostPlan.ReadMeaning | scripts/caddy-https-host-plan.py:143-171 | a file is readable exactly if the values that it gives, or their defaults, pass the checks; the view is made of them |
| HostMeaning.ExtractMeaning | scripts/caddy-https-host-plan.py:148-157 | of the six known fields the reader finds those that one line each gives a usable value, without one pair of quotes; nothing if a field is given twice or unusably |
| HostPlan.RenderCandidateEnv | scripts/caddy-https-host-plan.py:192-234 | the rewrite produces the specified candidate or refuses |
| HostMeaning.CandidateMeaning | scripts/caddy-https-host-plan.py:192-234 | a file is rewritten exactly if it is plain, all its lines are comments or assignments, no key repeats and the host reads what the plan wants; then the three managed lines are replaced or added, and every other line stays as and where it was |
| HostPlan.RenderIdempotent | scripts/caddy-https-host-plan.py:192-234 | rewriting a candidate for the same plan gives the same candidate |
| HostPlan.ReaderAgrees | scripts/caddy-https-host-plan.py:229-233 | whatever the host reader makes of a candidate is what the plan wants, so the final comparison never fails |
| HostPlan.CalculateChanges | scripts/caddy-https-host-plan.py:247-265 | changes, blockers and the mode to reach, each under its exact condition |
| HostPlan.NothingToChange | scripts/caddy-https-host-plan.py:247-265 | a candidate in place leaves nothing to change for its plan, and no blocker but the handing over of the secret |
| Downsample.Create | scripts/synology-spk-icons.go:15-39 | refuses exactly a source smaller than the target; otherwise every pixel is the mean of its block |
| Downsample.AveragedMeaning | scripts/synology-spk-icons.go:21-37 | each channel of a pixel is the mean of that channel over its block, shifted to a byte |
| Downsample.OneColour | scripts/synology-spk-icons.go:21-37 | an image of one colour stays so |
| Downsample.BlocksPartition | scripts/synology-spk-icons.go:21-24 | every source position lies in exactly one block |
| Downsample.MeanBounds | scripts/synology-spk-icons.go:25-37 | a mean lies between the least and greatest value of its block |
| Downsample.FitsByte | scripts/synology-spk-icons.go:37-37 | the shifted means of sixteen-bit channels fit a byte |
| Downsample.StaysPremultiplied | scripts/synology-spk-icons.go:25-37 | premultiplied input gives premultiplied output |
| Downsample.Conservation | scripts/synology-spk-icons.go:21-36 | the block sums add up to the sum over the whole source |

## Left out

- Prune.Repo.Prune: device errors and process stops are one budget of operations that still succeed; error texts are not modelled, and retry convergence is proved for keep-last pruning only, since a selected deletion whose rename landed is refused on retry.
- History.WholeRun: the `.partial` directory, its files and its rename are one publishing act under `snapshots/`; the durability of those files themselves is not modelled. The creation of `objects/` and `objects/sha256` is not an act, and the random name of a transaction is never drawn twice.
- Journal.ImageObjects: stray entries among the buckets are not modelled; creating, writing and syncing the marker is one operation, because a torn marker is rejected.
- Capture.CaptureRun.Capture: a source whose `.xdrive-blobs` is a symbolic link fails before anything is stored, where the program may store objects first.
- Capture.CaptureRun.CreateObject: temporary files, ownership changes and the race with another publisher.
- SpaceEstimate.EstimateCovers: every archive member takes one 512-byte header; longer headers for long names are not modelled.
- VerifyReport.VerifyWithReport: the categories for a snapshot outside the repository, an unsafe repository or bucket, and read errors.
- Restore.Destination.RestoreSnapshot: a restore that fails after verification leaves an unspecified tree; overlap checks between repository and destination.
- CaddyJournal.Host.SaveValues: the shape checks on the JSON request; a request is already decoded. Ownership, permission and lock checks on the files.
- CaddyPower.EveryRunWithLosses: a written file and the sync of its directory are one operation; the durable commit and its reconciliation are not cut by power losses.
- CaddyCommit.Runner.DurableCommit: only receipts with the private record's digest are modelled, not the two older forms; seven-day retention and the cap of 64 receipts are left out, the age limit is one flag.
- ShareUpdate.Updater.Update: HTTP transport, retries and tickets are one answer each; disk-space checks; the installer is an oracle that succeeds or fails.
- ShareUpdate.Updater.PrepareRelease: the second publisher check on the installer and the contents of the manifest are oracles.
- Downsample.Create: PNG decoding and encoding.
- HostPlan.RenderCandidateEnv: lengths in UTF-8 are an unknown function of the text; label structure of domains and ranges of addresses and ports are oracles.
- SHA-256, BLAKE2s, tar byte layout beyond header, padding and trailer sizes, the JSON lexer, file permissions, symbolic-link resolution and locks.
- `run`, `main`, flag parsing and report printing.
- `scripts/bench-cas-a04-backup-generations.py` and the other benchmark scripts, the Caddy HTTPS stage and rescue scripts, `cmd/server`, `cmd/xdrive-agent`.
