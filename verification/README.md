# Danube Cloud: Dafny models of replication, backup, task locking and their helpers

This project models, in Dafny, the parts of Danube Cloud that keep customer data safe while everything around them may
fail, and proves what they promise.

* **Replication** (`bin/eslib/esrep.py`). A master VM on one host and a slave VM on another have paired disks. Each disk
  is a ZFS dataset with an ordered list of snapshots, live data, and the properties `esrep:src`, `esrep:dst` and
  `readonly`. `init`, `sync` (one cold round, then any number of hot rounds), `failover` and `reinit` are sequences of
  fallible commands; a failure runs the cleanup of the operation, whose commands may fail again. `class Replication` is
  the source object; `Lifecycle.dfy` runs whole life cycles.
* **Dataset backups** (`bin/eslib/esbackup.py`). `class Backup` creates incremental backups, archives a destination that
  has lost its base, deletes backups with the collapse of whole datasets, and tells its caller what it did. `class
  Restoration` restores into a dataset with rollback.
* **Task locks** (`que/lock.py`, `que/tasks.py`, `que/utils.py`). `class TaskLock` over redis, and the protocol of
  submitters, workers, retries and revocations as a state machine in which every redis command is a step.
* **Helpers**: the sliding-window throttle, the lock file, the task-ID codec, the recursive dictionary update, the item
  lists of the web forms, and content negotiation.

## How the model is built

Commands are methods that either have their whole effect or fail without one; which of the two happens is open
(`faulty` switches failures off, to state when an operation must succeed). What the commands do follows
`bin/eslib/esrep.sh`, `bin/eslib/esbackup.sh` and `bin/eslib/functions.sh`:

* `zfs send -R -I base new | zfs receive -F` needs the very same base snapshot on both sides; the receiving side is rolled
  back to the base, loses snapshots that the sender does not have, and gets everything from the base up to the new
  snapshot. It may or may not bring the sender's `esrep:dst` along.
* `zfs send -i base new | zfs receive -F` rolls back to the base and adds the new snapshot only; a full receive needs an
  absent dataset.
* `zfs rename` takes the datasets below along. `zfs destroy ds@a,b` fails only if none of the named snapshots exists; `zfs destroy -rRf ds` takes the datasets below
  with it. `zfs inherit readonly` leaves a dataset writable.
* Setting two properties is two commands in either order. Renaming with `zoned` sets the attribute afterwards and does
  not notice if that fails. Moving all children of a dataset, and setting a property on all of them, is one command.
* Generated snapshot names are unused; every disk pair is identified by its position.

`Kept(prefix, world)` is the central invariant of replication: every pair of disks has a replication snapshot that is the
same on both sides. `history` records the state after every command, so that invariants are stated for every moment
of a run and not only for its end.

## Where the code does less than it says

* A cold sync leaves exactly one replication snapshot on the slave only if the newest replication snapshot of the master
  had reached the slave before (`ColdOutcome`, an equivalence). A hot sync that fails after its snapshots leaves every pair
  that it did not send in the other state (`LeftBehind`); `send -I` then carries the snapshot along and it survives.
* `init_cleanup` clears `esrep:dst` only on disks that were completely synced. The disk at which `init` stopped keeps it
  exactly if it was already set (`Init` and `UndoneExactly`; `PropertyStays` shows a run).
* A failed `reinit` can be repeated if and only if it had completed no pair and the slave disk of the first pair still has
  its `esrep:dst` (`ReinitAgain`).
* `ds_create` sets `readonly` after the point where, by its comment, nothing may raise. If that fails, the backup is there
  but reported as failed, and the next backup archives it unless its source snapshot could not be destroyed (`DsCreate`,
  `AfterReadonlyFailure`; `ReadonlyFails` shows a run). The books stay exact all the same.
* Archiving a destination moves the datasets below it as well, and the reported table names only the snapshots of the
  destination itself: every backup is found through the table if and only if there is none below (`ArchivePreserves`;
  `LostToTheTable` shows a store). No backup is lost from the server.
* `ds_delete` reports every requested snapshot of a dataset as deleted, also one without the backup prefix that it left
  alone (`ReportedButPresent`, with the exact condition in `ReportedIsAbsent`); and it destroys unrequested backups below a
  dataset that loses all of its own (`LostBelow`, with the exact condition in `NoneLostExactly`).
* A failed `ds_restore` loses no data, but it can change `zoned` attributes unless the dataset is a volume or an unzoned
  filesystem with nothing below it (`FailureExact`; `RollbackZones` shows a dataset); and if only the last destroy fails, it
  reports a failure although the data are restored (`DsRestore`, stage `TempLeft`).
* Revoking a queued task frees its lock if and only if its owner is not internal (`RevokeFrees`, `HoldersAreAlive`); otherwise
  the lock is never free again (`AbandonedRun`, `AbandonedForever`); and a refused attempt to take a lock gives the permanent lock of a running task an expiry again
  (`RefusalRearms`).
* A range such as `*/json` ranks no higher than `*/*`, which covers it (`SubtypeOfAnything`, with the exact condition in
  `WiderRanksLower`).
* Printing and parsing an item list gives the same set of items, but the same list only under the condition of
  `SameListExactly`.

## Model

| member | source | states |
|---|---|---|
| Replicas.PropertyRoundTrip | bin/eslib/esrep.py:229-245 | a host/disk property value survives printing and splitting if and only if the host name has no slash |
| Replicas.EncodeInverse | bin/eslib/esrep.py:753-754 | joining the two parts of a property value again gives the value that failover's cleanup writes back |
| Replicas.FindCommon | bin/eslib/esrep.py:591-597 | finds the newest master snapshot name that the slave has; none if and only if there is no common name |
| Replicas.KeptHasCommon | bin/eslib/esrep.py:586-599 | a pair that satisfies the invariant always has a common name to find |
| Replicas.SlaveListsOne | bin/eslib/esrep.py:623-626 | the slave disk lists exactly the new snapshot after a cold sync if and only if the base was the newest one of the master |
| ReplicationSteps.SyncPair | bin/eslib/esrep.py:601-615 | the receive of a planned pair is always possible, and after each command of the pair the new or the old snapshot is shared |
| ReplicationSteps.ColdOutcome | bin/eslib/esrep.py:617-632 | after a complete cold sync both sides have the master's data under the new snapshot, the master lists only it, and the slave lists only it if and only if the pair was caught up |
| ReplicationSteps.LeftBehind | bin/eslib/esrep.py:634-646 | wherever a hot round stops, every pair whose new snapshot was taken and not received keeps a common snapshot and is not caught up |
| ReplicationSteps.SyncedIsCaughtUp | bin/eslib/esrep.py:617-632 | a pair that was synced is caught up before the next hot round |
| ReplicationSteps.HotOutcome | bin/eslib/esrep.py:634-646 | after a complete hot round both sides list exactly the new snapshot, with the master's data of that time |
| ReplicationCommands.Replication.GetCommonSnapshot | bin/eslib/esrep.py:586-599 | listings of both sides and the newest common name; fails without a failing command only if the pair breaks the invariant |
| ReplicationCommands.Replication.CheckDisks | bin/eslib/esrep.py:670-681 | passes only with matching metadata on every pair, and always passes with it when no command fails |
| ReplicationCommands.Replication.TakeSnapshots | bin/eslib/esrep.py:623-624 | the new snapshot is on exactly the first disks, and the emergency list names exactly these |
| ReplicationCommands.Replication.SyncDisk | bin/eslib/esrep.py:601-615 | a pair leaves the emergency list exactly when it is received; only that pair changes |
| ReplicationCommands.Replication.SyncDisks | bin/eslib/esrep.py:626-630 | at every stop the emergency list is exactly the disks not yet received and the reported list exactly the complete ones; on success every pair is fully synced |
| ReplicationCommands.Replication.ColdSync | bin/eslib/esrep.py:617-632 | every state on the way keeps a common snapshot on every pair, and the emergency list is the disks taken and not received |
| ReplicationCommands.Replication.HotSync | bin/eslib/esrep.py:634-646 | a hot round goes from one synced state to the next; wherever it fails, the first pairs have arrived, the next have the new snapshot on the master only, the others are untouched, and the invariant holds |
| ReplicationCommands.Replication.SyncCleanup | bin/eslib/esrep.py:726-734 | gives every disk not yet received exactly the master snapshots it had before the run, and harms no received one |
| ReplicationCommands.Replication.Sync | bin/eslib/esrep.py:658-734 | keeps a common snapshot on every pair after every command, changes no metadata, refuses unlinked pairs without any change, succeeds on linked pairs when no command fails, and leaves nothing half done when a cold sync fails and its cleanup does not |
| ReplicationCommands.Replication.CheckSlaveDisks | bin/eslib/esrep.py:747-771 | returns the property value of every slave disk; without force it passes exactly on linked pairs when no command fails, with force only if the master UUID occurs in the disk part of every value |
| ReplicationCommands.Replication.PromoteDisks | bin/eslib/esrep.py:791-796 | the list for the cleanup holds the value of every disk that has lost its esrep:src, and of no other |
| ReplicationCommands.Replication.FailoverCleanup | bin/eslib/esrep.py:814-827 | if its commands succeed, the slave is stopped and every slave disk has its esrep:src value and readonly again |
| ReplicationCommands.Replication.Failover | bin/eslib/esrep.py:738-827 | changes nothing at all when the service exists, when the metadata do not fit, or when the master is down and there is no force; changes no snapshot; without force the two machines never run together; on success every slave disk is free and writable; on failure with a working cleanup the slave disks are as before; with force it succeeds although every command on the master's host fails |
| ReplicationCommands.Replication.InitialSync | bin/eslib/esrep.py:297-331 | links the pairs one by one, with one new common snapshot each; where it stops, the master disk of that pair has the new esrep:dst exactly if it was set, and with clearing the slave disk loses its esrep:dst before any other label changes |
| ReplicationCommands.Replication.CheckReversible | bin/eslib/esrep.py:849-861 | passes only if every pair is an old master and a promoted slave, and always then when no command fails |
| ReplicationCommands.Replication.ReinitCleanup | bin/eslib/esrep.py:881-894 | whatever fails, every pair keeps a common snapshot; if its commands succeed, the complete pairs stay linked and every other master disk has exactly its old snapshots |
| ReplicationCommands.Replication.Reinit | bin/eslib/esrep.py:831-894 | keeps a common snapshot on every pair after every command; success links every pair with the roles swapped; failure with a working cleanup keeps exactly the complete pairs, says what is left of the pair where it stopped, and touches no later one |
| InitialSteps.ReversibleAgain | bin/eslib/esrep.py:849-858 | after a failed reinit and its cleanup the checks of reinit pass if and only if no pair was completed and the first slave disk still has its esrep:dst |
| ReplicationCommands.Replication.MakeRoom | bin/eslib/esrep.py:350-359 | the slave VM exists with all its datasets destroyed; before the VM exists nothing has changed |
| ReplicationCommands.Replication.InitCleanup | bin/eslib/esrep.py:389-403 | the slave is gone, the master has its old snapshots, no esrep:dst on the disks that were synced, on the disk where init stopped the new one exactly if it was set, and the old ones on the others |
| ReplicationCommands.Replication.Init | bin/eslib/esrep.py:335-403 | success establishes the invariant and the metadata on every pair; failure with a working cleanup removes the slave and gives the exact snapshots and esrep:dst of every master disk |
| InitSteps.UndoneExactly | bin/eslib/esrep.py:392-393 | a master without replication properties is without them again after a failed init and its cleanup, if and only if esrep:dst of the disk where init stopped was not set |
| InitSteps.PropertyStays | bin/eslib/esrep.py:389-403 | a run of init that stops between the two properties of the master disk, after whose cleanup esrep:dst is still set |
| LifecycleSteps.PromotedReversible | bin/eslib/esrep.py:849-858 | what failover leaves passes every disk check of reinit with the roles swapped |
| LifecycleSteps.SlavesBackLinked | bin/eslib/esrep.py:822-827 | what a failed failover with a working cleanup leaves passes the disk checks of failover again |
| Lifecycle.Begin | bin/eslib/esrep.py:335-387 | a successful init establishes what sync and failover need, and init succeeds when no command fails |
| Lifecycle.Run | bin/eslib/esrep.py:586-646 | in every state of any sequence of sync, failover and reinit runs, in either direction, each failing anywhere, every pair has a common replication snapshot |
| Lifecycle.Rounds | bin/eslib/esrep.py:738-879 | any number of rounds of sync, failover, and reinit with swapped roles succeeds when no command fails |
| Lifecycle.SyncAgain | bin/eslib/esrep.py:658-734 | after a sync that failed anywhere, a sync without failing commands succeeds |
| Lifecycle.FailoverAgain | bin/eslib/esrep.py:738-827 | after a failover that failed anywhere and a working cleanup, a failover without failing commands succeeds |
| Lifecycle.ReinitAgain | bin/eslib/esrep.py:831-894 | after a reinit that failed anywhere and a working cleanup, a reinit without failing commands succeeds if and only if no pair was completed and the first slave disk still has its esrep:dst |
| ZfsNames.SnapshotRoundTrip | bin/eslib/zfs.py:4-20 | building a snapshot name and taking it apart are inverse, and switching the dataset builds with the new one |
| ZfsNames.ListedByMarker | bin/eslib/esbackup.py:145-153 | the substring filter of the listings selects exactly the names that begin with the prefix |
| BackupSteps.SplitParts | bin/eslib/esbackup.py:293-293 | a snapshot argument that splits into two parts is those parts joined again |
| BackupSteps.ParentSplits | bin/eslib/esbackup.py:295-295 | a dataset is its parent, a slash, and a last part without slashes |
| BackupSteps.ArchiveNamesDiffer | bin/eslib/esbackup.py:49-51 | archives of different times have different names |
| BackupSteps.TableRelocates | bin/eslib/esbackup.py:53-57 | the rename table sends every listed snapshot of the archived dataset to the archive and leaves every other name alone |
| BackupSteps.ArchivePreserves | bin/eslib/esbackup.py:315-319 | after archiving, which moves the datasets below as well, every backup of the server is found with its data through the table, if and only if no backup lies below the archived dataset |
| BackupSteps.ArchiveSound | bin/eslib/functions.sh:519-533 | the rename loses no backup and leaves every dataset outside the renamed tree as it was |
| BackupSteps.LostToTheTable | bin/eslib/esbackup.py:315-319 | a store in which archiving hides a backup from the table |
| BackupSteps.SafekeptIncremental | bin/eslib/esbackup.py:312-314 | rolling back to the incremental base and adding the new snapshot loses no backup, and each is found under its name |
| BackupSteps.LandedFound | bin/eslib/esbackup.py:304-328 | however far a backup came, every earlier one is found through its table, unless it archived a destination with a backup below it |
| BackupSteps.NextIsIncremental | bin/eslib/esbackup.py:304-314 | the backup after a successful one has an incremental base if and only if the new name has the prefix or the old base is still on the source |
| BackupSteps.BaseSurvives | bin/eslib/esbackup.py:269-282 | the base of a failed incremental backup is the base of the next attempt |
| BackupSteps.AfterReadonlyFailure | bin/eslib/esbackup.py:345-347 | when only setting readonly failed, the destination is exactly the new snapshot, and the next backup archives it if and only if its source snapshot was destroyed or has not the prefix |
| BackupSteps.ReadonlyFails | bin/eslib/esbackup.py:345-347 | a first backup that is there, reported as failed, and archived by the next one |
| BackupCommands.Backup.Prepare | bin/eslib/esbackup.py:288-323 | chooses the base, archives exactly if there is none for an existing destination, and removes every other backup snapshot of the source; wherever it stops, the books are exact and the destination is untouched or archived |
| BackupCommands.Backup.Create | bin/eslib/esbackup.py:286-347 | gives the exact state of the backup server wherever it stops: untouched, archived, or with the new snapshot; the last with a failure only if all but setting readonly succeeded |
| BackupCommands.Backup.CreateCleanup | bin/eslib/esbackup.py:269-282 | takes the new source snapshot back or reports it |
| BackupCommands.Backup.DsCreate | bin/eslib/esbackup.py:269-356 | on every path the source has what it had, without the reported deleted names and with the reported last one; the backup server is in one of three exact states, has lost no backup, and finds each through the table unless it archived a destination with a backup below it; a failed incremental backup keeps its base; without failing commands it succeeds exactly on the stated requests, removes the old base, and never leaves a snapshot of a failed backup |
| BackupRuns.Run | bin/eslib/esbackup.py:286-356 | over any run of backups with any failures no backup is lost from the server; and if no destination lies below another and no backup below a destination, following the reported tables from any state finds every backup of that state at the end |
| BackupRuns.Twice | bin/eslib/esbackup.py:304-347 | after a successful backup the next one is incremental, archives nothing, and adds its snapshot to the destination |
| BackupCommands.Backup.GroupSnapshots | bin/eslib/esbackup.py:372-373 | maps every requested dataset to exactly its requested snapshots in their order |
| BackupCommands.Backup.DeleteOn | bin/eslib/esbackup.py:378-397 | one dataset loses its requested backups or goes as a whole, and is reported, or nothing happens |
| BackupCommands.Backup.DsDelete | bin/eslib/esbackup.py:364-397 | the state and the report are exact for the datasets dealt with, also when it stops part-way; success means all of them; without failing commands it succeeds if every requested dataset exists and none with a requested backup lies below one that goes as a whole; with a missing dataset nothing is deleted or reported |
| BackupDelete.OneDatasetOrderly | bin/eslib/esbackup.py:378-392 | a request for one dataset meets that condition, wherever the dataset lies |
| BackupDelete.DisorderRefused | bin/eslib/esbackup.py:391-392 | where the condition fails, dealing with the upper dataset first leaves nothing to destroy of the lower one |
| BackupRuns.CreateThenDelete | bin/eslib/esbackup.py:364-397 | a backup that was made can be deleted again, and is then reported and gone |
| BackupDelete.OnlyRequested | bin/eslib/esbackup.py:378-389 | with nothing nested below a collapsing dataset, only requested backups are lost, and a dataset goes only with all its backups requested |
| BackupDelete.NoneLostExactly | bin/eslib/esbackup.py:378-392 | a completed deletion loses an unrequested backup if and only if one lies below a dataset that loses all of its own |
| BackupDelete.LostBelow | bin/eslib/esbackup.py:386-392 | a request that takes an unrequested backup below the dataset it empties |
| BackupDelete.RequestedAreGone | bin/eslib/esbackup.py:383-392 | a completed deletion leaves no requested backup |
| BackupDelete.OthersUntouched | bin/eslib/esbackup.py:391-394 | a dataset with nothing reported on it or above it is as it was |
| BackupDelete.ReportedIsAbsent | bin/eslib/esbackup.py:394-394 | a reported snapshot is absent afterwards if and only if it did not exist, is a backup, or the request covers every backup of its dataset or of one above it that was dealt with |
| BackupDelete.ReportedButPresent | bin/eslib/esbackup.py:394-394 | a request that has a manual snapshot reported as deleted and still there |
| BackupRestore.Restoration.BackupAndCreateEmpty | bin/eslib/esbackup.py:187-218 | the dataset is set aside and an empty one of its kind is in its place, or the pool is as the failed stage says |
| BackupRestore.Restoration.MoveBack | bin/eslib/esbackup.py:435-439 | brings the dataset that was set aside back, with zoned on all its children; however it fails, the data are at one of the two places |
| BackupRestore.Restoration.DsRestore | bin/eslib/esbackup.py:423-451 | success gives the backup's data and the old children and no temporary dataset; a failure with a working rollback gives the old data and no temporary dataset, and the very same pool if the dataset is a volume or an unzoned filesystem with nothing below it; a failing rollback still loses nothing |
| BackupRestore.Restoration.FillOrRollBack | bin/eslib/esbackup.py:429-449 | with the dataset set aside, either it is replaced, or brought back, or its data are still at one of the two places |
| BackupRestore.FailureKeepsData | bin/eslib/esbackup.py:433-441 | every stage before the last keeps data, snapshots and children, and a rollback keeps zoned on the dataset |
| BackupRestore.FailureExact | bin/eslib/esbackup.py:195-216 | wherever a restore fails, a working rollback leaves every zoned attribute as it was, if and only if the dataset is a volume or an unzoned filesystem with nothing below it |
| BackupRestore.RollbackZones | bin/eslib/esbackup.py:438-439 | an unzoned filesystem whose unzoned child comes back from a rollback zoned |
| TaskLocks.Redis.Set | que/lock.py:12-24 | an existing key keeps its value under nx; the expiry is armed with a timeout whether or not the key was set, disarmed by setting without one, and kept by a refused attempt without one; no other key changes |
| TaskLocks.TaskLock.Acquire | que/lock.py:105-121 | takes a free key and stores the reverse key; otherwise changes nothing but the expiry |
| TaskLocks.TaskLock.Delete | que/lock.py:123-157 | releases the lock and its reverse key exactly if the key exists and a given value matches |
| TaskLocks.TaskLock.TaskCheck | que/lock.py:169-181 | succeeds exactly if the key exists, changes no value, and makes the lock and its reverse key permanent |
| TaskLocks.DeleteUndoesAcquire | que/lock.py:105-157 | releasing undoes acquiring if and only if the lock is not named like the reverse key of its value |
| TaskLocks.AcquireRefused | que/lock.py:110-121 | a refused attempt changes no value and nothing else but the expiry of the lock |
| TaskLocks.RefusalRearms | que/lock.py:12-24 | a refused attempt with a timeout gives a permanent lock an expiry again, one without does not |
| TaskLocks.CheckedDelete | que/lock.py:135-140 | with a value check only the lock that holds this value is released |
| TaskProtocol.RunKeeps | que/tasks.py:63-91 | the invariant of locks, reverse keys and task phases holds in every state of every interleaving |
| TaskProtocol.MutualExclusion | que/tasks.py:281-309 | two tasks never hold the same lock |
| TaskProtocol.HeldExactly | que/lock.py:79-121 | a lock key is in redis exactly while one task holds it, with that task as its value, and the task's reverse key names the lock |
| TaskProtocol.OthersKeepTheirLocks | que/utils.py:359-364 | no step of one task, an unchecked release or a revocation included, frees the lock or the reverse key of another |
| TaskProtocol.CheckPasses | que/tasks.py:83-83 | the lock check of a worker never fails |
| TaskProtocol.NeverStartsBlocked | que/tasks.py:85-89 | at no event of any run does a task begin to run while its block key is there |
| TaskProtocol.BlockedRetries | que/tasks.py:85-87 | a started task goes back into the queue if and only if its block key is there, with redis unchanged and its lock and reverse key kept |
| TaskProtocol.WholeLife | que/tasks.py:63-91 | a task whose lock is free and that is not blocked takes the lock, runs with it, and leaves redis exactly as it was |
| TaskProtocol.FailureFrees | que/tasks.py:301-309 | when a task cannot be sent, or its check or its command raises, its lock and its reverse key are freed and nothing else |
| TaskProtocol.TakenLockRefuses | que/tasks.py:290-291 | a task whose lock is taken is refused without a change in redis |
| TaskProtocol.NothingElseMoves | que/tasks.py:63-91 | revoking a task that is not queued, failing one that is not on its way, and any event for one that has ended change nothing |
| TaskProtocol.HoldersAreAlive | que/utils.py:354-364 | after any run every lock has a holder that will release it, if and only if the run revoked no queued task with a lock and an internal owner |
| TaskProtocol.RevokeFrees | que/utils.py:354-364 | when the revocation of a queued task with a lock has come to its end, the lock is free if and only if the owner is not internal |
| TaskProtocol.AbandonedRun | que/utils.py:354-357 | a run that ends with a lock left to a revoked task |
| TaskProtocol.AbandonedForever | que/utils.py:354-357 | the lock of such a task is never free again |
| TaskProtocol.NothingLeft | que/lock.py:148-152 | when all tasks are refused or done, redis holds no lock and no reverse key |
| TaskProtocol.AcquireIsTwoSteps | que/lock.py:110-116 | one acquire call has the effect of the locking and the linking step |
| TaskProtocol.ReleaseIsTwoSteps | que/tasks.py:89-91 | the worker's unchecked release has the effect of the unlocking and the unlinking step |
| TaskProtocol.RevokeIsThreeSteps | que/utils.py:361-364 | the checked release of a revocation has the effect of its three steps |
| Throttle.SimpleRateThrottle.AllowRequest | api/throttling.py:136-173 | a request is refused exactly when numRequests admissions lie in the last duration |
| Throttle.SimpleRateThrottle.Wait | api/throttling.py:182-195 | after a refusal the delay is positive, at most the duration, and the least after which a request is admitted |
| Throttle.NoWindowOverflows | api/throttling.py:158-164 | no window of the duration, wherever it ends, contains more than numRequests admissions |
| Throttle.Serve | api/throttling.py:136-173 | over any run the decisions are those of a throttle that never forgets, however the cache drops expired entries |
| FileLocks.RunKeeps | bin/eslib/filelock.py:28-66 | the invariant of lock files and processes holds in every interleaving |
| FileLocks.NeverOverlap | bin/eslib/filelock.py:79-85 | two decorated operations on the same path never overlap |
| FileLocks.FileExistsExactly | bin/eslib/filelock.py:28-34 | the lock file exists exactly while a process is between its creation and its removal |
| FileLocks.ReleaseSucceeds | bin/eslib/filelock.py:59-66 | a process that has the lock is never refused its release |
| FileLocks.FreeLockIsTaken | bin/eslib/filelock.py:42-52 | from every reachable state, a new process that finds the lock free creates the file and owns it |
| FileLocks.LockIsGivenBack | bin/eslib/filelock.py:28-34 | a process inside is done after its release and the path is free |
| FileLocks.FirstComesFirst | bin/eslib/filelock.py:46-52 | of two processes past the existence check the first to go on gets the lock, and the other polls again |
| FileLocks.TakenLockWaits | bin/eslib/filelock.py:54-57 | while the lock is taken a process polls, and may time out without having touched anything |
| TaskIds.ParseMade | que/utils.py:50-75 | parsing a generated ID, normal or dummy, gives its five fields, and the ID is valid |
| TaskIds.ValidDecomposes | que/utils.py:33-47 | every valid ID is its five legal fields followed by its 24-character suffix |
| TaskIds.TaskIdFromTaskId | que/utils.py:141-166 | rewriting fields of a valid ID changes exactly those fields, keeps it valid, and keeps the suffix if asked for; otherwise the suffix is the beginning of the new UUID |
| TaskIds.DefaultsFill | que/utils.py:70-75 | an ID with nothing but a user ID before its suffix gets the default fields |
| TaskIds.DummyRecognised | que/utils.py:174-185 | dummy IDs are recognised, and a normal ID is taken for one if and only if its UUID begins with the end of the digest |
| DictMerge.Update | vms/utils.py:91-99 | fails if and only if a non-empty mapping meets a value that is not a mapping, and otherwise merges, in any order of the keys; after a failure every path has its old value or what the update puts there |
| DictMerge.MergeLeaves | vms/utils.py:87-104 | at every path: the update's value where it has one, nothing below such a value, the old value everywhere else |
| DictMerge.MergeIdempotent | vms/utils.py:87-104 | updating twice with the same tree is updating once |
| DictMerge.MergeAssociative | vms/utils.py:87-104 | two updates in turn are one update with the merged updates |
| Items.ScanItems | gui/fields.py:29-58 | the character loop separates quoted words from unquoted text, an open quote counting as unquoted |
| Items.ParseItems | gui/fields.py:22-70 | the words of the text, or with sorting the ascending list of them without duplicates |
| Items.EditString | gui/widgets.py:33-49 | prints exactly the entries of the items, in their order or sorted |
| Items.SortTokensOrder | gui/widgets.py:46-47 | sorting keeps every entry as often as it was there and orders them by their printed text |
| Items.ParsePrinted | gui/fields.py:31-64 | parsing a printed list gives first the quoted items and then the others, each in their order |
| Items.SameItems | gui/widgets.py:33-49 | a printed list of clean items is read back as the same set |
| Items.SameListExactly | gui/widgets.py:39-44 | the same list comes back if and only if no item has a space and items with commas come first |
| Items.RoundTrip | gui/fields.py:66-70 | printing and parsing with sorting gives the ascending duplicate-free list of the items |
| Items.StripMeaning | gui/fields.py:48-48 | stripping takes away the white space on both sides and nothing else |
| Items.LessMeaning | gui/fields.py:66-68 | strings are ordered by their first different characters, a proper prefix first |
| Items.QuotedText | gui/fields.py:37-53 | a quoted part is one word, commas included, and comes before the words around it |
| Items.OpenQuote | gui/fields.py:54-58 | a quote that is never closed only separates |
| Items.NoEscapes | gui/widgets.py:39-44 | without escaping every item is printed once and without quotes |
| Negotiation.OrderByPrecedence | api/utils/mediatypes.py:56-69 | every accepted range is in the set of its precedence and in no other |
| Negotiation.SelectRenderer | api/negotiation.py:53-101 | no candidate satisfies a range more specific than the chosen one, and no earlier candidate one of the same precedence (section 14.1 of RFC 2616, q values not ranked); NotAcceptable if and only if nothing matches, NotFound if and only if no renderer has the suffix |
| Negotiation.MatchMeaning | api/utils/mediatypes.py:81-93 | a media type without wildcards satisfies a range if and only if the range admits its type and subtype and has all its parameters apart from q |
| Negotiation.WiderRanksLower | api/utils/mediatypes.py:95-106 | a range that admits strictly more types than another ranks below it, if and only if the other one has a main type |
| Negotiation.SubtypeOfAnything | api/utils/mediatypes.py:100-101 | the wildcard type with a subtype ranks no higher than the range that covers it |
| Negotiation.ParameterRanksHigher | api/utils/mediatypes.py:104-106 | among ranges without wildcards, one with a parameter other than q ranks above one without |
| Negotiation.OfFormatConcat | api/negotiation.py:96-96 | filtering by format keeps the order of the renderers |
| Negotiation.AnythingAccepted | api/negotiation.py:74-82 | a client that accepts anything is told the renderer's own type with the parameters of the request |
| Negotiation.AcceptedIsSpecific | api/negotiation.py:72-86 | what is reported as accepted is at least as specific as the range and as the renderer's type |
| Negotiation.AcceptedIsSatisfied | api/negotiation.py:72-86 | the renderer satisfies the media type that is reported as accepted |
| Negotiation.PrecedenceIsUnique | api/negotiation.py:67-70 | the chosen renderer and precedence do not depend on the order of the accepted ranges |

## Left out

- Zones with delegated datasets: only disks that are all sent (HVM) are modelled; for zones the parent's send would have
  to carry the delegated datasets.
- `destroy`, `destroy_clear`, `clear` and the `svc_*` commands of replication: they end replication or wrap the service
  manager.
- Quotas, mounting, JSON of VMs, the callback after a sync, hostnames beyond their use in properties.
- SIGTERM between two statements: only commands fail. With `failover` in particular, a signal between clearing a property
  and remembering the disk is not covered.
- Backups on the host of the source itself: the backup server and the source are two stores.
- Readonly master disks: init may set readonly to off on them, and its cleanup does not set it on again.
- The optional removal of the last snapshots on the source at the end of `ds_delete`, the size listing of affected datasets,
  metadata files, file backups, checksums, the `written` size and the `readonly` property of backups.
- Lock expiry during the protocol, worker crashes, termination of a started task, redis errors, and lock names that look like
  reverse keys: outside the conditions under which the protocol is stated. Expiry is modelled for single calls only.
- Delivery by Celery, ping, user-task bookkeeping and logging.
- Two requests of one client at the same time in the throttle: its read and its write of the cache are not one step. Requests
  for which throttling is off are always allowed.
- Task IDs that are not valid: the defaults that fill up missing fields are modelled as text, although the default datacenter
  is a number in the source.
- DictMerge.Update: says nothing about sharing of values between the two dictionaries.
- Strings are sequences of characters: white space in item lists is the ASCII white space, and UUIDs, MD5 and the parsing of
  HTTP headers are abstract.
