# Verified models of the sproxy cores

This directory holds Dafny models of the algorithmic cores of sproxy and its client sclient, with
proofs of what they guarantee. `dafny verify dfyconfig.toml` checks all of it.

How the models are built:

- Concurrent code (the save merger, the batch executor, the create-once key) is a step system: a
  state, a total function `Next` for one atomic action of one process, and `Exec` for a run. All
  interleavings are runs, so a lemma about `Exec` is a statement about every interleaving. Beside each
  step system stands a class with the program's own methods. Between any two atomic actions of a
  method, other processes perform an arbitrary sequence of actions (the parameter `env`), and the
  class's `Valid` ties the fields to the run so far.
- Code that changes things in place is a class or a method over an array, proved against a function
  that says what is computed; lemmas about that function say what it means.
- Clocks, randomness, failing system calls, the network, encryption, JSON and case folding are
  parameters. Where two of them have to be inverse, that is a hypothesis of the lemma that needs it.
- The calendar is tied to the real one by two known days and their weekdays (`Calendar.KnownDays`).

| file | models |
|---|---|
| `SaveMerger.dfy` | the debounced save merger: `Mark`, timer callback, `Flush`, `Close` racing over two counters and a timer reference |
| `VolumeRestore.dfy` | restoring user volumes in rounds, sources first, with an escape for cycles and missing sources |
| `RestoreOrder.dfy`, `RestoreRounds.dfy` | when the outcome of restoring depends on the order of the scan, and what a given scan restores |
| `BootOrder.dfy` | the boot order of encrypted volumes: independent secretdata, enclosures, dependent secretdata |
| `Calendar.dfy`, `CronSearch.dfy`, `CronText.dfy`, `CronLoop.dfy` | the cron engine: calendar, search for the next match, parser, the two trigger loops |
| `BatchRun.dfy`, `BatchExecutor.dfy` | the concurrent batch executor, as a step system and as code |
| `BatchScatter.dfy`, `OpResults.dfy` | which batch items go into one request and how its answers are spread over the items |
| `CreateOnceKey.dfy` | the account store's master key, created once by any number of processes |
| `CredentialFile.dfy` | replacing the credential file, with failures, crashes and power cuts |
| `AccessKey.dfy`, `Envelope.dfy`, `MasterKey.dfy` | the access key grammar, the KMS envelope, the master key file formats |
| `StableSort.dfy`, `Tree.dfy`, `TreePicture.dfy` | the tree printer: stable in-place sort, walk, drawing, reading the drawing back |
| `VolumeUri.dfy`, `WorkingDir.dfy` | volume addresses and the working directory of the client |
| `Text.dfy`, `Bytes.dfy`, `Wrappers.dfy` | strings, bytes, options and results shared by the others |

## Where the code and its comments differ

The models follow the code. These differences are proved, each with its exact condition:

- `internal/savemerger/savemerger.go:97` and `:112` say that nothing is persisted once the merger is
  closed. Something can still be written exactly if a flush is under way that has yet to load the
  counter, is about to write, or compares a generation newer than the recorded one or than one about to
  be recorded (`SaveMerger.WritesAfterCloseIff`; `SaveMerger.WriteCanFollowClose` is such a run).
- `cmd/sclient/schedule.go:137-141` calls the day rule that of crontab. It is a plain "or" of the two day
  fields. The two rules agree exactly when neither field is an asterisk, or neither restricts anything
  (`CronText.DayRuleVersusCrontab`).
- `cmd/sclient/schedule.go:113-115` adds the step in 64-bit arithmetic. The sum wraps for exactly one
  step value in the fields that start at 1, and leaves values no clock shows (`CronText.OverflowIsOneCase`,
  `CronText.OverflowHappens`).
- `cmd/sclient/batch_run.go:44` promises that one worker is the same as executing line by line. The
  goroutines still race for the single slot, so the promise holds exactly for operations that are
  insensitive to their order (`BatchRun.SerialEquivalence`).
- `cmd/sproxy/user_volume_restore.go:45-48` orders by dependency, but waits for sources only. A volume
  whose key lives on another user volume is attempted as soon as its source is there, and a failed attempt
  is not repeated; of two volumes that claim overlapping regions the one scanned first wins; and the final
  pass waits for nothing. All scans of the same volumes restore the same set exactly if every restorable
  volume has its key in place at the start or on its own chain of sources, no two restorable volumes
  overlap, and nothing left by the rounds needs what the final pass brings (`RestoreOrder.ScanOrderIff`;
  each of the three can fail alone: `RestoreOrder.KeyScannedLast`, `RestoreOrder.FirstOfOverlapping`,
  `RestoreOrder.RacingPair`). The program scans by owner and name
  (`pkg/server/user_volume_store.go:309-314`); whether a given scan restores everything in its rounds is
  settled by `RestoreRounds.ScanReachesAllIff`.
- `cmd/sproxy/secret_register.go:690-691` names one unsupported configuration of the boot order. There
  is another kind: enclosures are sorted by the depth of their sources and otherwise stay as declared, so
  an encrypted enclosure never boots if its key lives on a deeper enclosure, or on one of its own depth
  that is not declared earlier (`BootOrder.LateKeyFails`, `BootOrder.KeyDeclaredLastFails`). There is no
  third kind (`BootOrder.BootFailsOnlyByOrder`), and which configurations boot is settled for all of them
  (`BootOrder.BootSucceedsIff`).
- `cmd/sproxy/pikpak_secretstore.go:50-52` wants the creation of the key to be atomic. Between processes it
  is, but next to an assembled volume root the key file is truncated and copied in place. Callers get a
  key of full length exactly if no copy was cut short by a failure or a crash; otherwise they get what was
  left behind, or an error if nothing was (`CreateOnceKey.WholeKeyIff`, `CreateOnceKey.ShortKeyIsReturned`).
- `pkg/accesskey/encrypting_storer.go:79-81` and `pkg/accesskey/credentialstore.go:58-60` call the write
  atomic. It is, but the directory is not synced after the rename. A save that reported success survives
  every power cut exactly if the system has written the directory since
  (`CredentialFile.SurvivesIffFlushed`, `CredentialFile.SavedCanBeUndone`).
- `cmd/sclient/cd.go:43-86`: `cd /.` and `cd /..` reset the directory in memory but not in the cache
  file, and a refused `cd` with a leading slash saves the volume without the directory
  (`WorkingDir.Shell.RunCd`).

## Model

| member | source | states |
|---|---|---|
| `SaveMerger.RunsAreSafe` | internal/savemerger/savemerger.go:56-126 | in every interleaving the recorded generation is at most the one on disk, which is at most the marked one, and no wakeup is lost: a mark that is not on disk has a live timer or callback, a Mark or a flush that will cover it, unless the merger is closed or a flush gave up on a write error |
| `SaveMerger.NextKeepsInv` | internal/savemerger/savemerger.go:56-126 | every atomic action of Mark, callback, Flush and Close keeps the inductive invariant |
| `SaveMerger.NilReturnIsDurable` | internal/savemerger/savemerger.go:98-126 | when a Flush on an open merger, or the first Close, returns nil, everything marked before the call is on disk, in every interleaving with overlapping flushes |
| `SaveMerger.MarksReachDisk` | internal/savemerger/savemerger.go:56-95 | from any reachable state of an open merger, once no new calls are made and writes succeed, every schedule that lets all processes finish brings all marks to disk |
| `SaveMerger.DrainIsBounded` | internal/savemerger/savemerger.go:56-126 | without new calls only a bounded number of actions remain: no process runs forever |
| `SaveMerger.GoodWritesGiveNothingUp` | internal/savemerger/savemerger.go:76-81 | a generation is given up only through a write error |
| `SaveMerger.SavedCanRegress` | internal/savemerger/savemerger.go:85-95 | two overlapping flushes can move the recorded generation backwards |
| `SaveMerger.WritesAfterCloseIff` | internal/savemerger/savemerger.go:85-126 | from a closed state of any run, something new can still reach the disk exactly if a flush under way is loading, writing, or comparing a generation newer than the recorded one or one about to be recorded |
| `SaveMerger.WriteCanFollowClose` | internal/savemerger/savemerger.go:67-75 | an instance: a callback that passed its closed check writes after Close has returned |
| `SaveMerger.StepKeepsTimerLive` | internal/savemerger/savemerger.go:63-69 | a timer reference always points to a timer or callback that has not yet taken it, although an old callback clears the reference of a newer timer |
| `SaveMerger.StepKeepsWakeup` | internal/savemerger/savemerger.go:56-95 | no action of a process leaves an uncovered mark behind |
| `SaveMerger.Merger.Mark` | internal/savemerger/savemerger.go:56-65 | counts the mark, and leaves an open merger with a live timer or callback, whatever others do in between; the state is the one in which its process returns |
| `SaveMerger.Merger.EnsureTimer` | internal/savemerger/savemerger.go:58-64 | after the critical section of Mark an open merger has a live timer or callback |
| `SaveMerger.Merger.FlushPending` | internal/savemerger/savemerger.go:67-82 | after the callback, closed, or everything marked before is on disk, or both attempts failed; the state is the one in which its process ends |
| `SaveMerger.Merger.FlushOnce` | internal/savemerger/savemerger.go:85-95 | without an error everything marked before is on disk; an error means that the write failed |
| `SaveMerger.Merger.Flush` | internal/savemerger/savemerger.go:98-110 | the answer is that of the call's own process, taken to its return by the step system under any interference; nil from a merger that was not closed means that everything marked before the call is on disk, and the other nil that the merger is closed |
| `SaveMerger.Merger.FlushCalled` | internal/savemerger/savemerger.go:98-126 | the part that Flush and Close share, with the same answers |
| `SaveMerger.OthersAreAll` | internal/savemerger/savemerger.go:56-126 | the interference that a call meets leaves out nothing but actions of the call itself |
| `SaveMerger.Merger.Close` | internal/savemerger/savemerger.go:113-126 | the same for the first Close; the merger is closed afterwards |
| `SaveMerger.Merger.DropTimer` | internal/savemerger/savemerger.go:99-109 | the critical section of Flush and Close: a closed merger is left alone, otherwise the timer is stopped and forgotten |
| `VolumeRestore.RestoreUserVolumes` | cmd/sproxy/user_volume_restore.go:49-78 | terminates, also on cyclic and missing sources; attempts every volume exactly once, none before its source except what is stuck after the rounds, in the final pass; leaves in the set what the reference function of start and scan says |
| `VolumeRestore.RestoreReadyRound` | cmd/sproxy/user_volume_restore.go:82-94 | one round attempts what is ready and defers the rest in order; it makes progress exactly if fewer remain |
| `VolumeRestore.FinalPass` | cmd/sproxy/user_volume_restore.go:68-74 | the escape attempts each remaining volume once, in scan order |
| `VolumeRestore.RoundsLeaveStuck` | cmd/sproxy/user_volume_restore.go:61-77 | what the rounds leave is exactly what then lacks its source, in scan order |
| `RestoreOrder.ScanOrderIff` | cmd/sproxy/user_volume_restore.go:49-78 | all scans of the same volumes restore the same set exactly if every restorable volume has its key in place at the start or on its own chain of sources, no two restorable volumes overlap, and nothing stuck needs what the final pass brings |
| `RestoreOrder.RoundsReachAllIff` | cmd/sproxy/user_volume_restore.go:45-77 | the rounds restore everything restorable in every scan exactly under the first two of these conditions |
| `RestoreOrder.RoundsWithinReach` | cmd/sproxy/user_volume_restore.go:61-77 | in every scan the rounds restore only what can be restored with its source and key in place and without overlap |
| `RestoreOrder.ReachIsLeastClosed` | cmd/sproxy/user_volume_restore.go:45-77 | where no volumes overlap, what is restorable is the least set closed under adding volumes whose source and key are in it |
| `RestoreOrder.ScanLosing` | cmd/sproxy/secret_register.go:254-279 | for every restorable volume whose key is not in place some scan loses it, or one of its sources, for good |
| `RestoreOrder.RestoredIsExclusive` | pkg/volume/enclosure/enclosure.go:289-310 | no scan restores two overlapping volumes |
| `RestoreOrder.RestoredWithoutRace` | cmd/sproxy/user_volume_restore.go:68-74 | without a race the final pass adds exactly the stuck volumes that do not need what they wait for |
| `RestoreOrder.KeyScannedLast` | cmd/sproxy/secret_register.go:254-279 | an encrypted volume and the volume of its key, both with their sources in place: scanned in one order both come back, in the other only the key volume |
| `RestoreOrder.FirstOfOverlapping` | pkg/volume/enclosure/enclosure.go:289-310 | of two overlapping volumes the one scanned first comes back |
| `RestoreOrder.RacingPair` | cmd/sproxy/user_volume_restore.go:68-74 | two racing volumes: in one order both are restored, in the other only the first |
| `RestoreRounds.ScanReachesAllIff` | cmd/sproxy/user_volume_restore.go:61-94 | a given scan restores everything restorable in its rounds exactly if no two restorable volumes overlap and each key is in place at the start or on a volume with an earlier turn: turns go by the number of sources on the chain that the scan lists behind the volume that needs them, then by the scan |
| `RestoreRounds.RoundInTurn` | cmd/sproxy/user_volume_restore.go:82-94 | a round restores exactly the restorable volumes whose turn it is, or loses one whose key is not in time |
| `VolumeRestore.NestedTargetIff` | pkg/server/enclosure/nested.go:122-137 | exactly the targets that are, without the white space around them, a volume, a slash and something with another character than slashes are nested, and they name that volume |
| `VolumeRestore.VolumeSet.RestoreOne` | cmd/sproxy/user_volume_restore.go:136-188 | one attempt: the volume joins the set exactly when its source and its key are in the set, nothing in the set overlaps with it, its name is free, and the rest of its back end can be built |
| `VolumeRestore.VolumeSet.AddExternalVolume` | pkg/volume/registry/set.go:415-443 | a volume joins the set exactly when its name is not empty and not taken |
| `VolumeRestore.VolumeSet.ByName` | pkg/volume/registry/set.go:187-196 | finds a name exactly when it is in the set |
| `BootOrder.BootSucceedsIff` | cmd/sproxy/root.go:1194-1208 | every configuration boots exactly if its declarations are acceptable and each deferred volume not in place is sound, with its source a local root, in place or ahead of it, and its key in place or ahead of it; ahead means an earlier step, a shallower enclosure, or otherwise an earlier declaration |
| `BootOrder.BootFailsOnlyByOrder` | cmd/sproxy/secret_register.go:673-691 | with nothing else wrong, a configuration fails exactly if an enclosure lies on a secretdata volume whose key lives on an enclosure, or an encrypted enclosure has its key on an enclosure that is not ahead of it |
| `BootOrder.AcceptableIff` | pkg/volume/enclosure/enclosure.go:534-565 | the declarations are acceptable exactly if the claims do not conflict and every enclosure names a configured source other than itself and starts a chain of at most eight enclosures without a cycle |
| `BootOrder.DepthIsNesting` | pkg/volume/enclosure/enclosure.go:568-582 | the depth that sorts the enclosures is the number of enclosures below |
| `BootOrder.RoundsTake` | cmd/sproxy/secret_register.go:722-768 | the late round takes exactly the encrypted volumes whose key lives on an enclosure, the early one exactly the other encrypted volumes, and neither takes an enclosure |
| `BootOrder.PlanOrder` | pkg/volume/enclosure/enclosure.go:278-280 | the boot comes to the volumes by step, then by depth of the enclosure, then by declaration |
| `BootOrder.BootIsSound` | cmd/sproxy/root.go:1194-1208 | every volume is attempted at most once, and each was built after its source and its key volume had a back end |
| `BootOrder.BootCovers` | cmd/sproxy/secret_register.go:722-748 | a successful boot has attempted exactly the secretdata volumes and enclosures that were not attached, each in exactly one of the steps |
| `BootOrder.BootFollowsPlan` | cmd/sproxy/root.go:1194-1208 | the steps are one pass over the first round, the enclosures and the second round |
| `BootOrder.SourceIsAhead` | pkg/volume/enclosure/enclosure.go:278-280 | in the order of the enclosures every enclosure stands behind the enclosure it lies on |
| `BootOrder.LateKeyFails` | pkg/volume/enclosure/enclosure.go:278-280 | an encrypted enclosure whose key lives on an enclosure that is deeper, or of its depth and not declared earlier, makes every boot fail |
| `BootOrder.KeyDeclaredLastFails` | pkg/volume/enclosure/enclosure.go:278-280 | two enclosures of one depth, the encrypted one declared before the one that holds its key: the boot fails although nothing is entangled |
| `BootOrder.KeyDeclaredFirstBoots` | pkg/volume/enclosure/enclosure.go:278-280 | declared the other way round, the same volumes boot |
| `BootOrder.VolumeSet.AttachSecretdataVolumes` | cmd/sproxy/secret_register.go:722-748 | one round attaches, in order, the secretdata volumes of its policy that are neither enclosures nor attached, and stops at the first failure |
| `BootOrder.VolumeSet.AttachAll` | pkg/volume/enclosure/attach.go:75-99 | attaches the enclosures in their order and stops at the first failure; a bad declaration attaches nothing |
| `BootOrder.VolumeSet.BootVolumes` | cmd/sproxy/root.go:1194-1208 | the whole boot, each error ending it |
| `Calendar.DateOfDay` | cmd/sclient/schedule.go:138-144 | every day number has exactly the proleptic Gregorian date that has that day number |
| `Calendar.DayOfDate` | cmd/sclient/schedule.go:138-144 | every valid date is the date of its day number |
| `Calendar.TomorrowIsNextDay` | cmd/sclient/schedule.go:138-144 | the next day's date is the next date of the calendar, over month and year ends |
| `CronSearch.NextAfter` | cmd/sclient/schedule.go:151-159 | the first minute step that matches, nothing only if none of 366 days of them does, and always something for an expression whose fields can occur |
| `CronSearch.MatchWithinYear` | cmd/sclient/schedule.go:150-159 | every such expression matches within 366 days of any instant, so the error is unreachable |
| `CronSearch.DayWithinYear` | cmd/sclient/schedule.go:138-144 | any month and weekday meet within the 365 days after any day |
| `CronText.ParseCronExpr` | cmd/sclient/schedule.go:35-61 | for a text made of any words with white space around them: accepts exactly five acceptable words, reports the first bad one and its first bad part, and represents what the accepted words denote |
| `Text.FieldsIff` | cmd/sclient/schedule.go:35-40 | the fields of a text are the words it is made of, in order, and every text is made of exactly one list of words |
| `Text.TrimOf` | cmd/sclient/schedule.go:66-68 | white space is trimmed at both ends, and nothing else |
| `Text.AtoiOfSigned` | cmd/sclient/schedule.go:107-135 | numerals with a sign and with leading zeros |
| `CronText.ParseCronField` | cmd/sclient/schedule.go:64-83 | accepts a field exactly when all its parts are acceptable, and otherwise reports the first that is not; the values within range are exactly those the parts mean, and there are others exactly if a step overflows |
| `CronText.ParseCronPart` | cmd/sclient/schedule.go:88-104 | the same for one part, and tells which parts are plain numbers |
| `CronText.ParseCronStep` | cmd/sclient/schedule.go:107-117 | a positive step gives the multiples from the minimum, in 64-bit arithmetic |
| `CronText.ParseCronRange` | cmd/sclient/schedule.go:120-135 | a range within bounds gives its values, anything else is an error |
| `CronText.ParsedMeaning` | cmd/sclient/schedule.go:137-144 | the parsed expression matches a minute exactly when the text does, field by field |
| `CronText.NextOfText` | cmd/sclient/schedule.go:151-159 | the next match of the parsed expression is the next match of the text |
| `CronText.ParsedIsSatisfiable` | cmd/sclient/schedule.go:64-83 | every parsed expression has fields that can occur |
| `CronText.FirstTrigger` | cmd/sclient/backup.go:93-104 | for a text made of any words: either rejected or has the first trigger those words stand for, never an error of the search |
| `CronText.DayRuleVersusCrontab` | cmd/sclient/schedule.go:137-144 | exactly when the day rule agrees with that of the crontab utility |
| `CronText.OverflowIsOneCase` | cmd/sclient/schedule.go:113-115 | the step overflows for one value only |
| `CronText.OverflowHappens` | cmd/sclient/schedule.go:113-115 | and for that value it leaves a value outside the field |
| `CronText.PartsOfWrite` | cmd/sclient/schedule.go:63-104 | a written field reads back as its parts |
| `CronText.ClassifyOfWrite` | cmd/sclient/schedule.go:85-135 | and so does every single part |
| `CronLoop.TriggerLoop.Loop` | cmd/sclient/backup.go:129-150 | the loop never fails and is left exactly before the first turn whose context is cancelled; each turn taken starts exactly one run if the instant then due has come, at its start, and no other turn starts one; before every sleep the next instant is ahead |
| `CronLoop.TriggerLoop.RunDue` | cmd/sclient/schedule.go:188-203 | nothing runs before its instant; a due trigger runs once and the next instant is the first match after its start |
| `CronLoop.TriggerLoop.TakeTurn` | cmd/sclient/backup.go:131-140 | the loop's body: one turn more is taken, with its run if one was due |
| `CronLoop.StartsApart` | cmd/sclient/schedule.go:161-203 | over whole runs of either loop, triggers start at least a minute apart |
| `CronLoop.OneCatchUp` | cmd/sclient/backup.go:126-175 | runs never overlap, and all instants missed during a long run cause at most one catch-up |
| `BatchRun.ConcurrencyBound` | cmd/sclient/batch_run.go:54-62 | at every moment of every interleaving at most max(1, min(workers, operations)) operations execute |
| `BatchRun.ReturnIsComplete` | cmd/sclient/batch_run.go:80-102 | at return every slot was written exactly once, with its own operation's result or skip; executed and skipped add up to all; the final report is exact; without cancellation everything was executed |
| `BatchRun.NextKeepsInv` | cmd/sclient/batch_run.go:50-130 | every action of the loop, the workers and cancellation keeps the inductive invariant |
| `BatchRun.DrainIsBounded` | cmd/sclient/batch_run.go:80-130 | from any reachable state only a bounded number of actions that do something remain, in any order |
| `BatchRun.NoDeadlock` | cmd/sclient/batch_run.go:108-130 | until all goroutines have ended somebody can act |
| `BatchRun.DrainedIsComplete` | cmd/sclient/batch_run.go:95-102 | a batch scheduled until nobody can act is over, cancelled or not, and the final report follows |
| `BatchRun.RunFollowsItsOrder` | cmd/sclient/batch_run.go:108-130 | an uncancelled run outputs what executing one by one in the order of its history outputs |
| `BatchRun.EveryOrderHappens` | cmd/sclient/batch_run.go:80-95 | every order of execution happens, with any number of workers |
| `BatchRun.SerialEquivalence` | cmd/sclient/batch_run.go:42-49 | every uncancelled run is equivalent to line by line exactly when the operations are insensitive to their order |
| `BatchExecutor.Executor.RunBatchConcurrent` | cmd/sclient/batch_run.go:50-102 | returns exactly if all goroutines end while it waits; then every slot holds its own result or skip, and the report is exact; the state is that of spawning, waiting and reporting under the given interference |
| `BatchExecutor.OthersAreAll` | cmd/sclient/batch_run.go:75-102 | the interference leaves out nothing but actions of the goroutine, or of the loop, itself |
| `BatchExecutor.Executor.SpawnOrSkip` | cmd/sclient/batch_run.go:80-94 | one turn of the loop: after cancellation the operation is skipped in its own slot, otherwise its goroutine queues |
| `BatchExecutor.Executor.Worker` | cmd/sclient/batch_run.go:108-130 | a worker ends exactly if it gets a slot or sees the cancellation while it waits; then its slot was written once, with its own result, or with its skip if the batch was cancelled; the state is the one in which its goroutine ends under the given interference |
| `BatchExecutor.Executor.SelectSlot` | cmd/sclient/batch_run.go:109-114 | a free slot is taken within the limit, a cancellation skips, and otherwise the worker waits |
| `BatchExecutor.Executor.CheckAgain` | cmd/sclient/batch_run.go:117-122 | with the slot in hand a cancelled operation is skipped and not executed |
| `BatchExecutor.Executor.OperationSafe` | cmd/sclient/batch_run.go:134-141 | a result is passed on, a panic becomes the operation's own failure |
| `BatchExecutor.Executor.Execute` | cmd/sclient/batch_run.go:123-129 | from execution to the stored result, under interference, the slot ends with the outcome of this execution |
| `BatchExecutor.Executor.Release` | cmd/sclient/batch_run.go:115 | the slot given back is one that is taken |
| `BatchScatter.ResolveBatchDeleteItems` | cmd/sclient/batch_delete.go:66-90 | the request holds the resolved paths in order, and each item knows its index in it |
| `BatchScatter.MapBatchDeleteResults` | cmd/sclient/batch_delete.go:93-129 | each item gets its own answer, a missing answer, the failure of the call, or its failure to resolve |
| `BatchScatter.TakeAnswer` | cmd/sclient/batch_delete.go:112-129 | not sent, not answered, or answered with the server's verdict and message or a default one |
| `BatchScatter.BuildRenamePairs` | cmd/sclient/batch_rename.go:80-86 | the pairs, written out again, are the arguments |
| `BatchScatter.BuildRenameOps` | cmd/sclient/batch_rename.go:101-122 | only pairs with a checksum are sent, in order, and each pair knows its index |
| `BatchScatter.MapBatchRenameResults` | cmd/sclient/batch_rename.go:125-173 | each pair gets its own answer or the reason why there is none |
| `BatchScatter.FailureMessage` | cmd/sclient/batch_rename.go:18-26 | why a pair was not sent, or the error of the call |
| `BatchScatter.IndexFindsRequest` | cmd/sclient/batch_delete.go:77-88 | every item that is sent finds its own request at its index |
| `BatchScatter.IndicesIncrease` | cmd/sclient/batch_delete.go:77-88 | indices are strictly increasing |
| `BatchScatter.OwnerOf` | cmd/sclient/batch_rename.go:101-122 | every request belongs to exactly one item |
| `BatchScatter.SuccessesAreConserved` | cmd/sclient/batch_delete.go:105-129 | as many items succeed as the server reported successes for the request |
| `CreateOnceKey.CreatedOnce` | cmd/sproxy/pikpak_secretstore.go:49-66 | for any number of processes, with crashes and failing system calls anywhere, and whether the key file is renamed into place or copied in place, in every run in which each removed lock file was stale: at most one process is inside, an existing key is kept, all drawn keys but one are lost, and whoever succeeds returns the key on disk |
| `CreateOnceKey.WholeKeyIff` | pkg/server/secrets_fs.go:70-91 | a caller that succeeds gets a key of 64 digits exactly if no copy of the key file was cut short |
| `CreateOnceKey.RenameNeverTears` | pkg/sync/local_fs.go:351-382 | without a volume root no copy is ever cut short |
| `CreateOnceKey.ShortKeyIsReturned` | pkg/server/secrets_fs.go:82-90 | a copy in place that fails part of the way leaves that part, and a caller that nobody hurried returns it as the key |
| `CreateOnceKey.EveryoneEndsWithTheKey` | cmd/sproxy/pikpak_secretstore.go:49-122 | as long as no call fails, no process crashes and nobody removes the lock file, every run can go on to an end where all its callers hold the key on disk |
| `CreateOnceKey.EveryoneGetsTheKey` | cmd/sproxy/pikpak_secretstore.go:49-69 | in such a run every caller that has finished holds the key on disk: the one that was there, or else one of 64 digits; only an empty key file can be in the way |
| `CreateOnceKey.NobodyIsStuck` | cmd/sproxy/pikpak_secretstore.go:100-122 | until all have finished, somebody can go on |
| `CreateOnceKey.MovesAreBounded` | cmd/sproxy/pikpak_secretstore.go:100-122 | every action but the waiting leaves less to do |
| `CreateOnceKey.SameBytes` | cmd/sproxy/pikpak_secretstore.go:49-66 | any two successful callers, however far apart, return the same bytes |
| `CreateOnceKey.KeyIsStable` | cmd/sproxy/pikpak_secretstore.go:54-66 | a key on disk that nobody is writing never changes |
| `CreateOnceKey.TakeoverIsSafeIffStale` | cmd/sproxy/pikpak_secretstore.go:116-119 | removing the lock file and entering keeps exclusion exactly when nobody was inside |
| `CreateOnceKey.KeysCanSplit` | cmd/sproxy/pikpak_secretstore.go:100-122 | removing it under a slow holder can make two callers return different keys |
| `CreateOnceKey.NextKeepsInv` | cmd/sproxy/pikpak_secretstore.go:55-122 | every action keeps the inductive invariant |
| `CreateOnceKey.SecretDir.MasterKey` | cmd/sproxy/pikpak_secretstore.go:55-69 | the retry loop: the result is that of the call's process, taken to its return under any interference; a key it returns in a timely run is the key on disk; if none of its system calls fails, the lock file is gone when it returns, and in a timely run it returns a key unless an empty key file is in the way |
| `CreateOnceKey.SecretDir.Inside` | cmd/sproxy/pikpak_secretstore.go:107-112 | from the lock file's creation to its removal, with the same promises |
| `CreateOnceKey.SecretDir.Leave` | cmd/sproxy/pikpak_secretstore.go:110-112 | the deferred removal ends the call; what the call saw is still on disk in a timely run |
| `CreateOnceKey.OthersAreAll` | cmd/sproxy/pikpak_secretstore.go:100-122 | the interference that a call meets leaves out nothing but actions of the call itself |
| `Bytes.HexReadsBack` | pkg/volume/secrets/secrets.go:116-130 | the text of the bytes has two digits for each byte, the high one first, in order |
| `CreateOnceKey.SecretDir.ReadOrCreate` | cmd/sproxy/pikpak_secretstore.go:55-65 | the section's body, whatever others do meanwhile: a key it answers in a timely run is the key on disk |
| `CreateOnceKey.SecretDir.OpenLock` | cmd/sproxy/pikpak_secretstore.go:106-115 | the exclusive creation succeeds, finds the file, or fails |
| `CreateOnceKey.SecretDir.ReadKey` | pkg/volume/secrets/secrets.go:186-209 | a missing key leads to creation, an empty file or a failed read is an error |
| `CreateOnceKey.SecretDir.DrawKey` | pkg/volume/secrets/secrets.go:116-130 | 32 random bytes become 64 hexadecimal digits |
| `CreateOnceKey.SecretDir.WriteKey` | pkg/volume/secrets/secrets.go:134-137 | a write that is done in a timely run has left the whole key on disk, whichever way it went |
| `CreateOnceKey.SecretDir.PutKey` | pkg/server/secrets_fs.go:82-85 | the key is renamed into place, or the key file is opened and truncated, or nothing happens |
| `CreateOnceKey.SecretDir.CopyDigit` | pkg/server/secrets_fs.go:86-90 | the copy in place goes on by one digit, is closed after the last, or ends with what is there |
| `CreateOnceKey.SecretDir.RemoveLock` | cmd/sproxy/pikpak_secretstore.go:110-112 | the lock file is removed, unless removing fails |
| `CredentialFile.LoadAfterRun` | pkg/accesskey/encrypting_storer.go:50-122 | after every run of saves that fail or die at any system call, loading gives exactly the list of the last save that took place, which is the last one reported to have worked or one in flight since when its process died; never an error, never a mixture |
| `CredentialFile.LoadAfterCuts` | pkg/accesskey/encrypting_storer.go:50-122 | with power cuts anywhere too, loading gives what was newest when the directory was last known to be on disk, or a list that a save has written since |
| `CredentialFile.LoadAfterEvent` | pkg/accesskey/encrypting_storer.go:82-122 | a failed save changes nothing, a successful one is loaded next, one that died is loaded entirely or not at all |
| `CredentialFile.SavedCanBeUndone` | pkg/accesskey/encrypting_storer.go:118-121 | a power cut right after a successful save can restore the state before it |
| `CredentialFile.SurvivesIffFlushed` | pkg/accesskey/encrypting_storer.go:118-121 | a save reported to have worked survives every power cut exactly if the directory was flushed since, as long as no other save took place |
| `CredentialFile.DecodeOfDiskForm` | pkg/accesskey/encrypting_storer.go:50-100 | what a save puts on disk loads as the saved list, plain or encrypted |
| `CredentialFile.PlaintextLooks` | pkg/accesskey/encrypting_storer.go:124-133 | a file looks like plain text exactly if it starts with a brace and contains the quoted field name |
| `CredentialFile.Directory.ReplaceFile` | pkg/accesskey/encrypting_storer.go:101-121 | temporary file, write, fsync, close, rename and deferred removal: all or nothing, the content is on disk before it gets its name, and a temporary file is left behind exactly when the process died or the removal failed |
| `CredentialFile.Directory.FillAndRename` | pkg/accesskey/encrypting_storer.go:107-121 | the steps up to the rename |
| `CredentialFile.EncryptingStorer.Save` | pkg/accesskey/encrypting_storer.go:82-122 | replaces the file by the list's disk form, or fails without touching it |
| `CredentialFile.EncryptingStorer.Load` | pkg/accesskey/encrypting_storer.go:50-77 | decrypts and decodes what the name stands for; never writes |
| `CredentialFile.CredentialStore.Save` | pkg/accesskey/credentialstore.go:61-94 | leaves the same file as a plain encrypting store |
| `CredentialFile.CredentialStore.Load` | pkg/accesskey/credentialstore.go:43-56 | reads what such a store left |
| `AccessKey.ParseMeshInverts` | pkg/accesskey/accesskey.go:332-349 | parsing gives back the mesh of every key made of a mesh and a random segment of 16 or 32 digits, and gives a mesh to no other text |
| `AccessKey.SplitIsUnique` | pkg/accesskey/accesskey.go:227-232 | a key decomposes in at most one way |
| `AccessKey.IsValidAk` | pkg/accesskey/accesskey.go:397-443 | a key is valid exactly when it decomposes with a mesh over the charset |
| `AccessKey.ValidAkRest` | pkg/accesskey/accesskey.go:414-443 | the same for the part after the prefix |
| `AccessKey.HexSegmentOk` | pkg/accesskey/accesskey.go:354-375 | accepts exactly 16 or 32 hexadecimal digits and tells how many bytes they are |
| `AccessKey.GeneratePair` | pkg/accesskey/accesskey.go:210-223 | the key is made of the mesh and the first bytes read, the secret of the next 32; a short reader is an error |
| `AccessKey.GeneratedIsValidIff` | pkg/accesskey/accesskey.go:210-232 | generation accepts any mesh; the key is valid exactly when the mesh is over the charset |
| `AccessKey.GeneratedKeysDiffer` | pkg/accesskey/accesskey.go:261-274 | different meshes or different random bytes give different keys |
| `Envelope.ParseInvertsAssembleIff` | pkg/accesskey/kms_storer.go:175-191 | parsing inverts assembly exactly when the wrapped key fits the 16-bit length |
| `Envelope.AcceptedReassembles` | pkg/accesskey/kms_storer.go:175-191 | whatever is accepted reassembles to the same bytes |
| `Envelope.TruncationIsRejectedIff` | pkg/accesskey/kms_storer.go:175-191 | a truncated envelope is rejected exactly when the cut falls before the end of the wrapped key, as too short or with a length out of range |
| `Envelope.AssembleIsInjective` | pkg/accesskey/kms_storer.go:138-146 | equal envelopes have equal parts |
| `Envelope.KmsStorer.Encrypt` | pkg/accesskey/kms_storer.go:108-147 | an envelope that decrypts to the plaintext, or the error of the first cause in the order of the code: unconfigured, out of randomness, sealing, wrapping, or a wrapped key of a length that cannot be stored |
| `Envelope.DecryptOfEncrypted` | pkg/accesskey/kms_storer.go:151-170 | decryption undoes encryption, given inverse primitives |
| `Envelope.DecryptedWasAssembled` | pkg/accesskey/kms_storer.go:151-170 | whatever decrypts is an envelope whose key unwraps and whose body opens |
| `MasterKey.LoadsExactly` | pkg/accesskey/masterkey.go:62-83 | a file loads as a key exactly when it is base64 text of it with white space around, or the raw key, alone or with one line end |
| `MasterKey.EveryFormLoads` | pkg/accesskey/masterkey.go:51-83 | every form of every key loads as that key |
| `MasterKey.TextLoads` | pkg/accesskey/masterkey.go:40-49 | base64 text loads also with line ends folded into it |
| `MasterKey.ShortTextIsNoKey` | pkg/accesskey/masterkey.go:51-83 | fewer than 44 bytes never decode to a key, so the formats never collide |
| `MasterKey.DecodeOfEncode` | pkg/accesskey/masterkey.go:41-41 | base64 of section 4 of RFC 4648 decodes to what was encoded, for all lengths |
| `StableSort.SortedIsStable` | cmd/sclient/tree.go:157-164 | insertion sort gives an ordered result in which equivalent entries keep their order |
| `StableSort.SortedIsPermutation` | cmd/sclient/tree.go:157-164 | and it is a permutation |
| `StableSort.StableOrderIsUnique` | cmd/sclient/tree.go:157-164 | order and stability determine the result |
| `StableSort.InsertionSort` | cmd/sclient/tree.go:157-164 | the in-place loops compute exactly that result |
| `StableSort.SinkLast` | cmd/sclient/tree.go:160-162 | the inner loop moves one entry to its place in the sorted part |
| `Tree.TreeLessIsStrictWeak` | cmd/sclient/tree.go:167-172 | the display order is a strict weak order; equivalent entries are of one kind and fold to one name |
| `Tree.SortTreeEntries` | cmd/sclient/tree.go:157-164 | sorts a listing in place: a permutation with directories before files and names of one kind in alphabetical order of their folded form, in which entries of one kind and one folded name keep their order |
| `Tree.OrderedIsDisplayOrder` | cmd/sclient/tree.go:167-172 | sorted by the comparison means directories first and then alphabetical, character by character |
| `Tree.VisibleInOrder` | cmd/sclient/tree.go:101-114 | whatever the options, every directory is shown in that order |
| `TreePicture.VisibleIsWhole` | cmd/sclient/tree.go:101-154 | without options everything in the listed directories is shown, each entry once and at its path, and nothing else |
| `Tree.FilterTreeEntries` | cmd/sclient/tree.go:117-128 | keeps the directories, in order, if only they are wanted |
| `Tree.Printer.WalkTree` | cmd/sclient/tree.go:101-114 | draws the visible entries of a directory and everything below, and stops at the first failed listing |
| `Tree.Printer.RenderShown` | cmd/sclient/tree.go:108-112 | the loop draws the shown entries one after the other, the last one with the closing branch |
| `Tree.Printer.RenderTreeEntry` | cmd/sclient/tree.go:131-154 | draws and counts one entry and, within the depth, everything below it |
| `TreePicture.PrintedReadsBack` | cmd/sclient/tree.go:99-154 | whatever a walk without an error prints reads back as the visible tree, and the counts are those of its entries |
| `TreePicture.DrawingReadsBack` | cmd/sclient/tree.go:99-154 | the lines of a tree read back as exactly that tree |
| `TreePicture.TextReadsBack` | cmd/sclient/tree.go:141-141 | and so does the printed text, if no name holds a line end |
| `TreePicture.RenderIsDrawn` | cmd/sclient/tree.go:131-154 | branch symbols and bars are those of the preorder: a branch is the last exactly when no entry of its level follows under the same parent, and a column holds a bar exactly when one of that level does |
| `TreePicture.RenderCounts` | cmd/sclient/tree.go:142-146 | the closing counts are those of the lines drawn |
| `TreePicture.OptionsKeep` | cmd/sclient/tree.go:117-154 | with a depth limit or directories only, exactly the entries within the limit that are directories are drawn, in the same order |
| `VolumeUri.AddressesAre` | cmd/sclient/volume_uri.go:32-53 | exactly the texts volume, colon and an absolute path, or volume and colon, are addresses, with one reading each |
| `VolumeUri.Command.SetSourceVolume` | cmd/sclient/volume_uri.go:166-175 | a command has one source volume; a different second one is an error |
| `VolumeUri.Command.ApplyVolumeURIs` | cmd/sclient/volume_uri.go:122-134 | succeeds exactly when all addresses agree on one volume, and then strips them in place; otherwise it stops at the first that disagrees, with those before it stripped |
| `VolumeUri.Command.ApplyMvVolumeURIs` | cmd/sclient/volume_uri.go:138-162 | the first path decides the source volume, a second one on another volume the target volume |
| `WorkingDir.Shell.RunCd` | cmd/sclient/cd.go:43-86 | the directory moves as a stack of components does, succeeds exactly when that move exists, and stays well-formed exactly unless two leading slashes slip through, in which case it is the cleaned text; what the cache files hold afterwards |
| `WorkingDir.Shell.CdPath` | cmd/sclient/cd.go:76-85 | the same from a settled volume and root |
| `WorkingDir.Shell.CdVolume` | cmd/sclient/cd.go:51-69 | an address switches the volume and starts at its root; memory and cache files agree afterwards |
| `WorkingDir.Shell.CdLocalRoot` | cmd/sclient/cd.go:70-85 | a leading slash leaves the volume for the local root |
| `WorkingDir.Shell.ApplySpecialPath` | cmd/sclient/cd.go:94-117 | exactly `/`, `.` and `..` are special; `..` moves up one component and stays at the root |
| `WorkingDir.Shell.ApplyNormalPath` | cmd/sclient/cd.go:121-137 | joins, cleans and tests; refused paths change nothing |
| `WorkingDir.CleanIsWalk` | cmd/sclient/cd.go:122-129 | cleaning the joined text is following its components; a path above the root is refused |
| `WorkingDir.CleanRooted` | cmd/sclient/cd.go:122-129 | cleaning a path with a leading slash is following its components from the root, where two dots stay |
| `WorkingDir.RefusedIff` | cmd/sclient/cd.go:130-133 | the textual test refuses exactly the stacks whose first component starts with two dots or that have an inner one ending in two dots |
| `WorkingDir.DownAndUp` | cmd/sclient/cd.go:104-137 | entering a plain component and going up again is the identity |
| `WorkingDir.Shell.RunCds` | cmd/sclient/cd.go:43-137 | over any sequence of commands none of which slips through with two leading slashes, the directory is the joined text of a stack of components, none empty, a dot or two dots, and it is the stack the reference arrives at; exactly the commands that the reference accepts succeed |
| `WorkingDir.BackToLocation` | cmd/sclient/cd.go:89-91 | changing to what was printed leads back to that place |

## Left out

- Networking, mesh, p2p, relay, WebRTC, TLS, MCP and HTTP code, command wiring, output texts and translations: plumbing over libraries.
- AES-GCM, KMS, HKDF and JSON internals: parameters, with inverse hypotheses where a lemma needs them.
- `DeriveMasterKey`, `GenerateID`, `NewRingFromKeyPairs`, `treeRoot`, `sanitizeScope`: easy members.
- Save merger: the counters are unbounded, so wrap-around after 2^64 marks is not modelled; the holder's write takes its snapshot and persists it in one atomic action; the duration of the window, the remembered operation for log lines, and `SetDebounce` are not modelled.
- Save merger: after a write error whose retry fails too, the marks wait for the next Mark or Flush; this is the code's behaviour, stated as the exception of `RunsAreSafe`.
- Volume restore: which user volumes overlap is a parameter, a mutual relation between enclosures off each other's chain; whether an existing directory may be taken over, whether the secret is on its key volume and everything else about opening a back end is one flag per volume; capacity accounting, seals and the ACL warning are not modelled.
- Boot order: the claim and footprint checks of the enclosures are one flag, a cycle and a too deep chain are one failure, and the default external volume of an empty authority is not modelled.
- Cron: time has a fixed offset; daylight saving is not modelled, nor is how long a loop sleeps between two turns. A loop of the program runs until it is cancelled, the modelled one for as many turns as it is given.
- BatchRun.ConcurrencyBound: counts executions only; intermediate progress reports are not modelled, only the final one is exact in the program too.
- Batch executor: an operation takes effect in one action, at its completion; cancellation by the caller is an action, not a context.
- Create-once key: a crash is that of a process, not of the machine; a torn file that cannot be decrypted is a failed read; and the clock is not modelled, so a waiter may give up at any moment; runs in which that removes the lock file of a live holder are outside the theorems, except for the two that show what happens then. Deriving the encrypted volume from the key is not modelled.
- CreateOnceKey.SecretDir.MasterKey: the program polls for as long as it waits, the modelled method as often as it is told.
- Credential file: access rights of the file and errors of creating the directory are not modelled; the rename is atomic with respect to a power cut.
- AccessKey.GeneratePair: one method for both lengths; the reader is the bytes it will deliver.
- Master key file: decoding is that of Go's standard encoding, which ignores line ends and does not require unused low bits to be zero.
- Tree printer: the lister is the tree it lists, so joining paths and trees without end are not modelled; errors of the output are ignored as in the program.
- Working directory: relative commands from a directory that slipped through with a leading slash are not modelled, only how an absolute one leaves it behind; POSIX paths only, no drive letters; the length limit of a volume name counts characters; the migration of old cache files is not modelled.
- Volume addresses: filling the volume from the working directory is not modelled.
