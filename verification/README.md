# WebSSH: verified models of its state machines and file protocols

WebSSH is a single-process Python server for SSH sessions, file transfers and their administration. This project
models the parts of it in which a mistake is hard to see by reading: protocols that must survive the death of the
process, state that many threads share under locks, and one small text compiler. Everything is written and proved in
Dafny; `dafny verify dfyconfig.toml` checks all of it.

| module | what it models |
|---|---|
| `Lines`, `ShellScan`, `CommandChain`, `CommandMeaning`, `CommandPreparation` | the command-set compiler: the shell scanner, the preparation of steps and their joining with `&&` |
| `RestoreHost`, `StagedRestore`, `RestoreArchive`, `RestoreProtocol` | the web restore: an undo-logged file transaction inside a protocol with a durable status, startup recovery and cleanup |
| `BackupManifest`, `BackupRoundTrip` | the backup manifest, its paths, and backup followed by restore |
| `DirectorySnapshots`, `DirectorySafety`, `DirectoryRuns`, `DirectoryProperties`, `DirectoryPaging`, `DirectoryEnding` | paginated directory listings as a system of threads |
| `LdapFence`, `LdapRuns`, `LdapReceipts` | the LDAP revocation fence, with failing marker writes and restarts, and the receipts it hands out |
| `RateLimiter` | the in-memory sliding-window limiter |
| `KeyDeletion`, `KeyRecovery`, `KeyRemoval` | staged deletion of SSH keys and its reconciliation, what they keep and what they remove |
| `Quota`, `ConnectionPool`, `TransferHolds` | reservations, temporary connections with holds, and the hold sets of transfers |
| `Authentication`, `LoginLifetime` | pending logins, sessions and the authentication generation |
| `SnapshotBarrier`, `SourceLocks` | the backup barrier and the ordered, counted source locks |
| `ProfileOrder`, `LogReader` | moving profiles in their groups, and reading the audit log backwards |
| `Collections`, `Faults`, `TextOrder` | shared vocabulary: options and cardinalities, fates of a step, the order of texts |

## How failure and concurrency are modelled

Every single effect of a file protocol takes a fate from an arbitrary oracle: it works, fails before or after taking
effect, or kills the process before or after taking effect. A death drops all volatile state and keeps the durable
one. A contract over the oracle therefore speaks about every pattern of failures and deaths at once.

Concurrent code is a transition system: a region under a lock is one step, any thread may take any enabled step, and
a run is any sequence of steps. Timers may fire at any time. Results are invariants of every reachable state, and
obligations (who still owes which step) instead of fairness. Code that mutates an object under a single lock is a
class whose methods are those regions, so that every order of calls is an interleaving.

In the directory listings every region under the registry lock is a single step, while a snapshot's own lock is
explicit and may be held across such steps. That the snapshot lock is always taken before the registry lock is an
assumption of this model, not a result: the registry lock itself is not in it.

A database transaction of the login code and of the LDAP invalidation is split into the step that loads an account row
and the step that commits: a commit writes one more than what was loaded, whatever the account holds by then.

Hashes, signatures and random tokens are injective or fresh. The atomic file helpers either take effect or do not, and
may report a failure after taking effect. The requests of the rate limiter may reach it in any order of their times.

## Where the code does not keep what one would expect

Each of these is proved, together with the condition under which the expected property holds.

- A command-set step that ends in a backslash outside quotes changes its meaning when a separator is appended
  (`CommandMeaning.SeparatorKeepsMeaning`, `CommandMeaning.DanglingBackslash`).
- Preparing a command-set step drops its blank lines at the end, also when they are inside quotes or the first of them is
  behind a pending backslash; then, and only then, the step says something else (`CommandPreparation.PreparedMeaning`).
- A manifest may name one file by two spellings, such as `a/b` and `a//b`; the undo of a failed restore then puts the
  new content back instead of the old (`StagedRestore.UndoIsExact`, `RestoreArchive.BreakUndo`,
  `BackupRoundTrip.AcceptedAliasBreaksUndo`).
- A command line that ends in `;` or `&` and then a blank, or in two operators of which only the last is dropped, leaves
  an operator in front of the inserted `&&`, which a shell does not accept
  (`CommandMeaning.AndFollowsOperatorIff`, `CommandMeaning.BlankBehindSemicolon`).
- When the write of the success mark raises after taking effect, or the step behind it raises, a restore that counts as
  succeeded is rolled back. If that rollback dies, or raises and its failure mark does not replace the success mark, the
  tree can be neither state, and startup recovery does not look at it. This can happen to every pair of states that
  differ on two files and fit side by side into one directory, and to none that differ on fewer
  (`RestoreProtocol.PerformRestore`, `RestoreProtocol.LateFailureTears`, `RestoreProtocol.MixedIsSettled`).
- An invalidation commits one more than what its request has loaded, so a request that loaded the account earlier can
  set the generation back. A login consumed before an invalidation is rejected after it for good if and only if no
  request has the account in memory as it was before the generation of the login; otherwise it can be accepted, even
  when that invalidation itself was alone (`Authentication.RejectedForeverIff`, `Authentication.FinalIffNoneOlder`,
  `Authentication.OverlapAcceptsOldLogin`, `Authentication.OldRowAcceptsOldLogin`).
- For the same reason an LDAP fence can be discarded with the generation no higher than at its mark
  (`LdapRuns.DiscardAdvancedIff`, `LdapRuns.StaleCommitDoesNotAdvance`, `LdapRuns.LaterCommitFallsBack`).
- A login whose session commit takes effect and is reported as failed could be stored a second time, if it were handed
  to `finalize_login` again. No caller does that: each consumes the pending login right before and drops it on a
  failure, and then one login makes at most one session (`Authentication.AnotherSessionIffLate`,
  `Authentication.OneFinalizeOneSession`).
- When two LDAP invalidations of one user overlap, the discard of the first opens the fence of the second before its
  generation is committed (`LdapRuns.FencesStayUnlessDropped`, `LdapRuns.OverlapOpensFence`).
- A staged key file left behind by a failed removal can be moved back over newer content of the same key, if and only if
  it sorts before the name under which the newer content is staged; whatever token that name gets, if and only if a
  staged entry with other content is there (`KeyRecovery.KeptIffClear`, `KeyRecovery.KeptIffNoStaleContent`,
  `KeyRecovery.StaleEntryWins`).
- A key deletion that does not die takes the key out of the metadata without reporting success, if and only if its save
  took effect and was reported as failed (`KeyRemoval.LostIffLateSave`).
- A snapshot that gives up waiting with an exception notifies nobody, so a sleeping writer can miss its chance
  (`SnapshotBarrier.OversleptOnlyByGivingUp`, `SnapshotBarrier.SleeperMissesItsChance`).
- A request that reaches the rate limiter with an earlier time than another one before it can find its bucket purged,
  and is then allowed beyond the limit. The limit holds after every history if and only if no earlier request has come
  with a later time (`RateLimiter.BoundedIffNotLate`, `RateLimiter.LateBreaksBound`).
- Moving the only profile without a stored order out of a group re-sorts the profiles that stay
  (`ProfileOrder.OthersKeepTheirOrder`, `ProfileOrder.MissingOrderSwapsOthers`).

## Model

| member | source | states |
|---|---|---|
| `ShellScan.ShellTokenPositions` | app/command_set_manager.py:53-112 | the single-pass scanner reports exactly the positions that a line-by-line definition of unquoted, uncommented `;` and `&` and of comment starts gives |
| `ShellScan.NeverBoth` | app/command_set_manager.py:53-112 | the scanner is never inside single and double quotes, or inside a quote and a comment, at once |
| `ShellScan.CommentAtMeaning` | app/command_set_manager.py:53-112 | a line has a recorded comment column exactly when the scan ends the line inside a comment, and the column is a real comment start |
| `ShellScan.QuotingForms` | app/command_set_manager.py:68-112 | outside quotes, comments and escapes: a single-quoted text, a double-quoted one with its escapes, and an escaped character are parts of a word that leave the scanner outside again; an escaped newline leaves no trace; a comment at a word start runs to the end of its line |
| `ShellScan.WordCharacters` | app/command_set_manager.py:68-112 | blanks and separators end a word and every other character belongs to one, `#` inside a word too |
| `CommandChain.PrepareStepForChaining` | app/command_set_manager.py:124-136 | the trimming loop computes the prepared step, whose text and meaning `CommandPreparation` fixes |
| `CommandChain.PreparedHasTarget` | app/command_set_manager.py:124-136 | every prepared step has a line that a separator can go on |
| `CommandPreparation.HasCommandIffCode` | app/command_set_manager.py:133-135 | a step has a command line if and only if a shell reads any word or operator in it |
| `CommandPreparation.PreparedIsLastText` | app/command_set_manager.py:126-136 | a step with a command line becomes the text up to the end of its last line that is not blank |
| `CommandPreparation.PreparedMeaning` | app/command_set_manager.py:124-136 | a step in which a shell reads nothing becomes one that says `:`; any other says after preparation what it said before, if and only if no dropped blank line is inside quotes or behind a pending backslash |
| `CommandChain.AppendStepSeparator` | app/command_set_manager.py:139-185 | the loop over the lines computes the separated step |
| `CommandChain.SeparatedShape` | app/command_set_manager.py:115-185 | the separated step is its command text, then the operator, then only blanks and comments |
| `CommandChain.SeparatorReturnsToStart` | app/command_set_manager.py:139-185 | after a separated step the scanner is back in its initial state if and only if the step does not end in quotes, and then the inserted `&&` is read as an operator |
| `CommandChain.ChainKeepsStepsApart` | app/command_set_manager.py:567-572 | the scan of the joined command reaches every step in its initial state if and only if no earlier step ends in quotes |
| `CommandChain.ChainOperatorsAreRead` | app/command_set_manager.py:567-572 | every inserted `&&` is unquoted and uncommented in the joined command |
| `CommandChain.PreparedStepsChain` | app/command_set_manager.py:564-572 | any non-empty list of steps, once prepared, can be joined, so the branch for a missing command line is dead |
| `CommandMeaning.SeparatorKeepsMeaning` | app/command_set_manager.py:115-185 | adding the separator keeps the words and operators of the step, but for a dropped `;`, if and only if no backslash dangles at the cut |
| `CommandMeaning.ChainKeepsMeaning` | app/command_set_manager.py:567-572 | the joined command says what its steps say, in order, with `&&` between them |
| `CommandPreparation.RawChainKeepsMeaning` | app/command_set_manager.py:564-572 | the command joined from raw steps says what the raw steps say, in order, with `&&` between them and `:` for an empty one |
| `CommandMeaning.DroppedIsSemicolon` | app/command_set_manager.py:139-185 | what is dropped in front of an inserted operator is one plain `;` |
| `CommandMeaning.DanglingBackslash` | app/command_set_manager.py:139-185 | a step ending in a backslash is outside quotes and yet changes its meaning |
| `CommandMeaning.AndFollowsOperatorIff` | app/command_set_manager.py:115-185 | the inserted `&&` directly follows a `;` or `&` operator if and only if the kept line ends, but for blanks, in one |
| `CommandMeaning.BlankBehindSemicolon` | app/command_set_manager.py:115-151 | a step for which it does |
| `StagedRestore.RestoreStagedFiles` | app/backup_manager.py:691-751 | on success the persistent files are exactly the manifest and everything else is as before; after a failure whose undo succeeds every file is as before; at every death each file has its old or its new content |
| `StagedRestore.InstallEntry` | app/backup_manager.py:712-729 | one manifest entry keeps the undo log complete whichever step fails and whether or not it took effect |
| `StagedRestore.Undo` | app/backup_manager.py:732-751 | undoing gives back every saved file and removes every added one |
| `StagedRestore.UndoIsExact` | app/backup_manager.py:691-751 | undo is exact from every point if and only if no existing file is named twice with different content |
| `RestoreArchive.BreakUndo` | app/backup_manager.py:770-862 | for every archive that can be restored: one failing step can make the restore raise, undo everything and leave other data than before, if and only if the archive names an existing file twice with other content |
| `RestoreArchive.RestoreBackup` | app/backup_manager.py:770-862 | a restore that returns has installed the verified archive; one that does not leaves every file with old or new content; an archive with a file where the data has a directory, or the reverse, is refused before anything changes |
| `RestoreArchive.RestoreIgnoresEarlierState` | app/backup_manager.py:640-675 | the result of a restore does not depend on what was there before, except for unnamed files under `logs` and `tmp` |
| `RestoreArchive.CreateOnlineBackup` | app/online_backup.py:50-72 | a backup is published whole or not at all and holds exactly the backed-up files |
| `RestoreArchive.RewritingKeepsEssence` | app/backup_manager.py:691-751 | restoring a directory from its own backup never shows anything else, not even half-way |
| `RestoreProtocol.TryRestore` | app/restore_service.py:93-132 | at every step of the restore a death of the process leaves a state that startup can bring back |
| `RestoreProtocol.EmergencyRollback` | app/restore_service.py:134-144 | a rollback that returns has brought the original state back |
| `RestoreProtocol.HandleFailure` | app/restore_service.py:133-170 | the failure handler keeps the state recoverable unless the success mark is on disk before and after it; even then every file is the original or the uploaded one |
| `RestoreProtocol.PerformRestore` | app/restore_service.py:85-170 | if nothing fails and the upload is acceptable, the upload is installed, the status is succeeded, every session is invalidated and the operation directory is gone; whatever fails or dies, a restore that returns has installed the upload or has a failed status with the original data or with the rollback archive kept; if one step fails and no other, the upload is installed or the original is back; at every death the durable state is recoverable, unless the success mark or the step behind it raised after the mark was on disk and its handling did not replace the mark; every file is always the original or the uploaded one |
| `RestoreProtocol.RecoverInterruptedRestore` | app/maintenance_mode.py:240-284 | startup recovery keeps the state recoverable at every death, ends with no restore in progress, and if nothing fails brings the original state back |
| `RestoreProtocol.InterruptedThenHealed` | app/maintenance_mode.py:240-284 | a restore that dies at any step, then any process lives that die or fail as well, then one in which nothing goes wrong: if the restore was in progress until then, the original state is back |
| `RestoreProtocol.CleanupOrphans` | app/backup_operations.py:228-260 | orphan cleanup removes no recorded directory, none at all during a restore, and never the protected one; if nothing fails it leaves exactly those |
| `RestoreProtocol.ExpireStatus` | app/maintenance_mode.py:217-237 | an active status is never dropped, and if nothing fails every other is |
| `RestoreProtocol.ProcessLife` | app/maintenance_mode.py:240-284 | a server that comes up serves the original or the uploaded state, or is in maintenance with the rollback archive kept, through any housekeeping |
| `RestoreProtocol.Lifetime` | app/restore_service.py:85-170 | the same for a restore followed by any number of process lives that may die at any step; if nothing fails the server comes up with the upload and the operation directory is gone; in the one exception every file is the original or the uploaded one after all of them |
| `RestoreProtocol.LateFailureTears` | app/restore_service.py:122-144 | for every original and uploaded state that differ on two files there are fates under which the restore ends with the status succeeded and a tree that is neither |
| `RestoreProtocol.MixedIsSettled` | app/restore_service.py:122-144 | and only for such states: with fewer differences every mixture is one of the two |
| `BackupManifest.PartsOfPosix` | app/backup_manager.py:67-77 | the parts of a written path are the path itself |
| `BackupManifest.SafePosix` | app/backup_manager.py:67-77 | a file path is accepted if and only if no component has a colon or a backslash |
| `BackupManifest.AliasedPaths` | app/backup_manager.py:67-77 | two different accepted paths can have the same parts |
| `BackupManifest.ManifestRoundTrip` | app/backup_manager.py:80-186 | parsing undoes writing if and only if the manifest is proper |
| `BackupManifest.ParseIsExact` | app/backup_manager.py:114-186 | an accepted document is exactly what the parsed manifest is written as |
| `BackupManifest.ParseManifest` | app/backup_manager.py:114-186 | the parsing loop accepts and returns exactly what the definition says |
| `BackupRoundTrip.StageSource` | app/backup_manager.py:295-335 | collecting the files succeeds exactly when all included paths are safe, and lists each included file once, in order |
| `BackupRoundTrip.BackupThenRestore` | app/backup_manager.py:770-862 | backup and restore into any destination give exactly the included files of the source and the preserved files of the destination |
| `BackupRoundTrip.ManifestSurvives` | app/backup_manager.py:80-186 | the manifest of such a backup survives being written and read |
| `BackupRoundTrip.AcceptedAliasBreaksUndo` | app/backup_manager.py:168-179 | an accepted manifest can name one file twice, and a restore from it can raise, undo everything and leave the new content |
| `DirectoryRuns.StepKeepsInv` | app/file_service.py:52-627 | every step of every thread keeps the invariant over all snapshots, threads and pairs of them |
| `DirectoryRuns.RunKeepsInv` | app/file_service.py:52-627 | so every state of every interleaving satisfies it |
| `DirectoryProperties.StatusOnlyAdvances` | app/file_service.py:52-627 | over any stretch of a run a status only goes from opening on, and from cancelled or active to closing, and a handle is closed at most once |
| `DirectoryProperties.ClosedMeansHandleClosed` | app/file_service.py:566-594 | when the closed event is set the snapshot is unregistered and its handle, if it had one, has been closed exactly once |
| `DirectoryProperties.ReadsUseOpenHandle` | app/file_service.py:279-343 | a backend read happens only on a registered snapshot with a stored handle that nobody has begun to close |
| `DirectoryProperties.NoReadAfterClose` | app/file_service.py:566-594 | once closing has begun no later step of the run reads from that handle |
| `DirectoryProperties.PastCheckStaysRegistered` | app/file_service.py:272-343 | a continuation past its active check works on a snapshot that stays registered, active or closing, under its own lock |
| `DirectoryProperties.RearmHandsOutCursor` | app/file_service.py:315-343 | so a continuation that has read a page always gets its next cursor |
| `DirectoryProperties.CloserExists` | app/file_service.py:438-443 | every registered snapshot that is cancelled or closing has a thread obliged to close it |
| `DirectoryProperties.NobodyWaitsInVain` | app/file_service.py:445-594 | every thread with work can go on, or needs a lock whose holder can, or waits for a close that another, unblocked thread owes |
| `DirectoryProperties.LimitsHold` | app/file_service.py:188-214 | the global and per-owner limits hold in every state of every run |
| `DirectoryPaging.PagesArePrefix` | app/file_service.py:107-151 | unless a read raised, the pages delivered concatenate to a prefix of the listing |
| `DirectoryPaging.CursorsCountEntries` | app/file_service.py:315-343 | a cursor is handed out at the number of entries delivered, unless a read raised |
| `DirectoryPaging.CursorYieldsOnce` | app/file_service.py:279-343 | once a cursor offset of a snapshot has yielded a page, no later step of the run yields one for it |
| `DirectoryEnding.SelectedAreStopped` | app/file_service.py:375-564 | expiry, eviction, cancellation and discarding change the status of exactly the snapshots they select: an opening one is cancelled, an active one begins to close |
| `DirectoryEnding.SelectedServesNoMore` | app/file_service.py:272-343 | in every run, after that the snapshot is never published, and every continuation that comes to its active check is refused |
| `DirectoryEnding.ContinuesIff` | app/file_service.py:272-343 | in every run a continuation gets to read exactly if its snapshot is active and its cursor was handed out for it, at the number of entries delivered so far; otherwise it ends and gives the lock back |
| `DirectoryEnding.LastPageCompletes` | app/file_service.py:279-343 | after the last page the entries delivered are the whole listing exactly if the backend has been read to its end |
| `LdapFence.RevocationFence.constructor` | app/ldap_session.py:33-41 | a new process knows only the markers on disk |
| `LdapFence.RevocationFence.RecentValidation` | app/ldap_session.py:77-106 | the receipt handed out, which `LdapReceipts` ties to the completions of a run, and the state afterwards: a receipt of another identity is forgotten, and no other answer changes |
| `LdapFence.RevocationFence.BeginValidation` | app/ldap_session.py:108-131 | the new state and the token, rejection or error of beginning a validation |
| `LdapFence.RevocationFence.FailValidation` | app/ldap_session.py:133-140 | denies the user unless a newer validation or mark has replaced the token |
| `LdapFence.RevocationFence.CompleteValidation` | app/ldap_session.py:154-173 | the new state and the receipt, refusal or error of completing one |
| `LdapFence.RevocationFence.MarkUser` | app/ldap_session.py:175-181 | the new state of a mark, also when the marker write fails |
| `LdapFence.RevocationFence.DiscardUser` | app/ldap_session.py:183-189 | the new state of a discard, also when the removal fails |
| `LdapFence.RevocationFence.ContainsUser` | app/ldap_session.py:191-198 | whether access is denied |
| `LdapRuns.StepKeepsInv` | app/ldap_session.py:77-198 | every step, with failures and deaths, keeps: no pending user has a receipt, and every validation and receipt began after the latest mark |
| `LdapRuns.PendingHaveNoReceipt` | app/ldap_session.py:77-106 | in every state of every run no pending user has a receipt |
| `LdapReceipts.HandedOutIsFresh` | app/ldap_session.py:77-106 | in every run a receipt that is handed out was published by an earlier completion, for the same user and key and later than asked for, of a validation since whose beginning the user has not been marked |
| `LdapReceipts.PublishedIsHandedOut` | app/ldap_session.py:77-106 | conversely a published receipt is handed out exactly when it is late enough, until a death, mark, discard, failure, new validation or request with another identity takes it back |
| `LdapReceipts.BeginsIff` | app/ldap_session.py:108-131 | a validation begins exactly if the user is not denied, has no marker, and the new marker can be written |
| `LdapReceipts.UndisturbedPublishes` | app/ldap_session.py:154-173 | in every run a completion whose marker removal works publishes the receipt, unless a death, a mark, a discard, a failure or another validation of the user came since it began |
| `LdapReceipts.DeniedUntilDropped` | app/ldap_session.py:133-181 | in every run, after a mark or a failure of the validation in progress, the user is denied, has no receipt and is refused every validation until a discard works or the process dies |
| `LdapRuns.MarkStopsValidation` | app/ldap_session.py:154-181 | a validation in progress at a mark publishes nothing and removes no marker at any later point of the run |
| `LdapRuns.DeathInValidationFences` | app/ldap_session.py:108-173 | in every run, a death of the process during a validation leaves its user denied and refused validation until a discard |
| `LdapRuns.MarkerStaysOverRun` | app/ldap_session.py:142-189 | a marker stays on disk, across deaths, until a valid completion or a discard removes it |
| `LdapRuns.FencedAfterRestart` | app/ldap_session.py:108-198 | after a death every marked user is denied and refused validation until a discard |
| `LdapRuns.FencesStayUnlessDropped` | app/ldap_session.py:313-354 | a step keeps every uncommitted invalidation fenced if and only if it is not the discard of another invalidation of the same user |
| `LdapRuns.OverlapOpensFence` | app/ldap_session.py:313-354 | a run in which two overlapping invalidations of one user leave the second unfenced before its commit |
| `LdapRuns.DiscardAdvancedIff` | app/ldap_session.py:313-354 | in every run, when an invalidation comes to its discard, the generation is above what it was at its mark if and only if the last commit of the user since that mark had loaded no less than that |
| `LdapRuns.DiscardAfterAdvance` | app/ldap_session.py:313-354 | in every run whose commits find the generation they have loaded, a fence is only discarded once the generation is above what it was at the mark |
| `LdapRuns.StaleCommitDoesNotAdvance` | app/ldap_session.py:313-354 | a run in which an invalidation that loaded the account too early comes to its discard without having raised the generation |
| `LdapRuns.LaterCommitFallsBack` | app/ldap_session.py:313-354 | a run in which it has raised the generation, and another commit sets it back ahead of the discard |
| `RateLimiter.InMemoryLimiter.PurgeExpiredBuckets` | app/rate_limiter.py:97-102 | removes exactly the buckets whose deadline has come, whatever stale heap entries there are |
| `RateLimiter.InMemoryLimiter.CleanupEmptyBuckets` | app/rate_limiter.py:104-119 | the bounded sample removes exactly the sampled empty or ownerless buckets |
| `RateLimiter.InMemoryLimiter.Allow` | app/rate_limiter.py:121-161 | for a request that comes with any time: the decision is that of the queue of its bucket, and the buckets afterwards are exactly the specified ones; every bucket left is non-empty; for a key with one window, allowed only with fewer than the limit in the window before the latest time, denied only with at least the limit in the closed window before its own time, widened by the disorder |
| `RateLimiter.QueueDecides` | app/rate_limiter.py:137-142 | comparing the pruned queue with the limit is sound on both sides of the boundary |
| `RateLimiter.RecordIsAllowed` | app/rate_limiter.py:121-161 | what the limiter has recorded after a history are exactly the times of the requests that it allowed |
| `RateLimiter.BoundedIffNotLate` | app/rate_limiter.py:121-161 | an allowed request has fewer than the limit of allowed requests in the window that ends at its time, after every history with a given latest time, if and only if its time is not earlier than that, or the limit or the window is less than one |
| `RateLimiter.LateBreaksBound` | app/rate_limiter.py:97-142 | for every earlier time, limit and window of at least one a history after which the bound is broken |
| `RateLimiter.InOrderIsExact` | app/rate_limiter.py:121-161 | after every history in order a request in order is allowed only with fewer than the limit in its window, and denied only with at least the limit in the closed window |
| `KeyDeletion.StagedNameParses` | app/key_manager.py:129-142 | a staged name parses back to its filename |
| `KeyDeletion.ParsedIsStaged` | app/key_manager.py:129-142 | every name that parses is a staged name of that filename |
| `KeyDeletion.KeyStore.Reconcile` | app/key_manager.py:173-218 | the loop over the sorted staged entries computes the specified outcome of every pattern of failures and deaths |
| `KeyDeletion.KeyStore.LoadKeys` | app/key_manager.py:272-284 | so does a load: reading, validation, reconciliation |
| `KeyDeletion.KeyStore.StageDeletion` | app/key_manager.py:221-247 | and staging, with its own undo when the rename or the directory sync fails |
| `KeyDeletion.KeyStore.RollBackDeletion` | app/key_manager.py:250-269 | and rolling a staged file back |
| `KeyDeletion.KeyStore.DeleteKey` | app/key_manager.py:618-671 | and a whole deletion: load, stage, save, roll back or remove; `KeyRemoval` says what success means, `KeyRecovery` what is kept |
| `KeyRecovery.EntriesKeep` | app/key_manager.py:173-218 | reconciliation keeps the content of every referenced key within reach at any failure or death, and has it in the key file when it returns |
| `KeyRecovery.LoadKeeps` | app/key_manager.py:272-284 | the same for a load, which returns only on valid metadata |
| `KeyRecovery.WithoutRefs` | app/key_manager.py:639-641 | deleting a key takes exactly its own filename out of the metadata |
| `KeyRecovery.DeleteKeeps` | app/key_manager.py:618-671 | a deletion with a failure or death anywhere keeps within reach the content of every key left in the committed metadata, of the key itself if no stale entry with other content sorts before its staged name |
| `KeyRecovery.StaleEntryWins` | app/key_manager.py:173-218 | with such an entry there are fates, a removal that fails and a death after staging, under which the next load moves the stale content into the key file |
| `KeyRecovery.KeptIffClear` | app/key_manager.py:618-671 | so the key that is being deleted keeps its content under every pattern of failures and deaths if and only if there is no such entry |
| `KeyRecovery.KeptIffNoStaleContent` | app/key_manager.py:618-671 | whatever token the deletion draws: if and only if no staged entry for the key has other content, as long as the last of all tokens is free |
| `KeyRecovery.KeysLive` | app/key_manager.py:618-671 | any sequence of deletions and loads, each with any failures and deaths, keeps the content of every key that stays in the metadata |
| `KeyRemoval.DeletedMeans` | app/key_manager.py:618-671 | a deletion that reports success has found the id, taken exactly that key out of the metadata and removed its file, and the staged name too unless that removal failed |
| `KeyRemoval.SmoothDeletes` | app/key_manager.py:618-671 | if nothing fails and the metadata is valid, a deletion reports success if and only if the id is in the metadata |
| `KeyRemoval.NotDeletedMeans` | app/key_manager.py:639-663 | a deletion that reports no success has left the metadata as it was, or has lost exactly that key by a death or by a step that took effect and was reported as failed |
| `KeyRemoval.LostIffLateSave` | app/key_manager.py:639-663 | a deletion that comes to its save and does not die takes the key out of the metadata without reporting success if and only if the save was written and reported as failed |
| `KeyRemoval.SmoothLoadCleans` | app/key_manager.py:173-218 | after a load in which nothing fails no staged entry is left, but for names that keys of the metadata have |
| `Quota.QuotaManager.Reserve` | app/quota_manager.py:136-160 | grants exactly when both limits leave room, per-user limit reported first, and keeps the counts equal to the unreleased reservations |
| `Quota.QuotaManager.Release` | app/quota_manager.py:162-181 | releases once; a second release changes nothing |
| `Quota.TotalsShrink` | app/quota_manager.py:162-181 | a release takes exactly its amount from its kind and user |
| `ConnectionPool.TemporaryConnectionPool.BeginCreate` | app/connection_pool.py:99-105 | granted exactly if both limits leave room; a connection being made has its own reservation |
| `ConnectionPool.TemporaryConnectionPool.Store` | app/connection_pool.py:181-203 | the reservation goes to the stored connection, or back if the runtime is shutting down |
| `ConnectionPool.TemporaryConnectionPool.AbandonCreate` | app/connection_pool.py:233-249 | a connection that is not made gives its reservation back |
| `ConnectionPool.TemporaryConnectionPool.AcquireHold` | app/connection_pool.py:305-319 | a hold is granted exactly to the owner of a stored connection with no close requested |
| `ConnectionPool.TemporaryConnectionPool.ReleaseHold` | app/connection_pool.py:321-344 | the last release takes out a connection whose close was deferred, and only then |
| `ConnectionPool.TemporaryConnectionPool.RequestClose` | app/connection_pool.py:346-374 | a held connection stays and is marked; any other is taken out |
| `ConnectionPool.TemporaryConnectionPool.Detach` | app/connection_pool.py:376-388 | takes out exactly what matches, marking held connections instead where asked, and leaves every other as it is |
| `ConnectionPool.TemporaryConnectionPool.CleanupExpired` | app/connection_pool.py:415-434 | of the expired connections exactly those without a hold are taken out, and the held ones are marked for closing |
| `ConnectionPool.TemporaryConnectionPool.Touch` | app/connection_pool.py:262-282 | a dead connection is taken out at once, a live one is used |
| `ConnectionPool.TemporaryConnectionPool.FinishClose` | app/connection_pool.py:390-413 | a connection is closed for the first and only time and its reservation released for the first and only time |
| `ConnectionPool.QuotaCountsConnections` | app/connection_pool.py:181-249 | the quota in use is exactly the number of connections stored, being closed and being made |
| `TransferHolds.Transfers.Begin` | app/file_sources.py:469-486 | one or two sources are accepted, each counted once |
| `TransferHolds.Transfers.AcquireNext` | app/file_sources.py:487-507 | one hold more if the next source is free, and the set is handed over with the last one; otherwise the set goes on to give back what it has |
| `TransferHolds.Transfers.ReleaseSet` | app/file_sources.py:237-243 | only the first call of release gives anything back |
| `TransferHolds.Transfers.ReleaseLast` | app/file_sources.py:245-254 | the holds go one by one, last first; a connection is taken out exactly if this was its only holder and its close had been asked for |
| `TransferHolds.Take` | app/connection_pool.py:262-434 | a step takes a connection away from live holders only if its transport is dead, or it is closed at once, or its only holder lets go; a connection to be closed leaves the pool unless somebody holds it, and is marked then |
| `TransferHolds.Serve` | app/connection_pool.py:305-434 | over any interleaving of the pool and of hold sets no connection is closed twice, the quota counts the connections, limits hold, and the hold count of each connection is the number of its live holders |
| `Authentication.StepKeepsInv` | app/auth_assurance.py:125-503 | every step keeps: fresh tokens, at most five pending logins, sessions that carry the generation of their login, and a second session of a login only after a commit that was reported as failed |
| `Authentication.PendingsAreFew` | app/auth_assurance.py:150-162 | in every state of every run at most five logins of a user are pending |
| `LoginLifetime.ConsumedWasBegun` | app/auth_assurance.py:178-234 | in every run a consumed login was begun with the binding of its consumer, less than five minutes before, neither was its user invalidated nor itself cancelled between, and it is consumed only once |
| `LoginLifetime.BegunIsConsumable` | app/auth_assurance.py:150-234 | conversely a login is consumed exactly by a request with its binding that comes less than five minutes after its beginning, unless it was consumed or cancelled, its user invalidated, or a later login swept it as expired or pushed it out behind four that are not older |
| `LoginLifetime.SessionsAreChecked` | app/auth_assurance.py:409-451 | in every run a session of a login is made only after the login was consumed and the latest account check found the account eligible and of its generation |
| `LoginLifetime.PreservedIsReplaced` | app/auth_assurance.py:304-406 | an invalidation leaves its user no pending login and no session but a new one in place of the preserved one, accepted as long as that would have been; nothing of other users changes |
| `Authentication.OneSessionPerToken` | app/auth_assurance.py:409-503 | in every run a pending token makes a second session only after one whose commit was reported as failed |
| `Authentication.OneFinalizeOneSession` | app/auth_assurance.py:409-503 | in every run in which a consumed login is finalized once it makes at most one session, whatever its commit reports |
| `Authentication.AnotherSessionIffLate` | app/auth_assurance.py:409-503 | if it could be finalized again, some continuation would make another session if and only if the commit of the first was reported as failed |
| `Authentication.RejectedForeverIff` | app/auth_assurance.py:373-406 | a consumed login is rejected in every continuation, whatever invalidations it has, if and only if the account is past its generation and no request has the account in memory as it was before that generation |
| `Authentication.FinalIffNoneOlder` | app/auth_assurance.py:373-406 | so an invalidation is final for a login consumed before it if and only if no request, its own included, has loaded the account before the generation of the login |
| `Authentication.UndisturbedIffAlone` | app/auth_assurance.py:373-406 | which is so if and only if no other invalidation of the user committed between the load and the commit |
| `Authentication.NoneOlderEndsLogins` | app/auth_assurance.py:417-451 | in every run, after such an invalidation the login never passes the account check again, and no session it makes is accepted again |
| `Authentication.InvalidationEndsLogins` | app/auth_assurance.py:417-451 | the same in every run whose invalidations of the user all find the generation they have loaded |
| `Authentication.InvalidationEndsSessions` | app/auth_assurance.py:304-406 | in every run a session that exists when its user is invalidated is never accepted again |
| `Authentication.OverlapAcceptsOldLogin` | app/auth_assurance.py:304-451 | a run of two overlapping invalidations after which a login consumed before the second gets an accepted session |
| `Authentication.OldRowAcceptsOldLogin` | app/auth_assurance.py:304-451 | a run in which an invalidation is undisturbed and alone between its load and its commit, and a request that had loaded the account earlier sets the generation back, so that a login consumed before both gets an accepted session |
| `SnapshotBarrier.StepKeepsInv` | app/backup_coordination.py:48-90 | every step keeps the counts equal to the threads inside, and writers and snapshots apart |
| `SnapshotBarrier.BarrierHolds` | app/backup_coordination.py:48-90 | the same in every state of every run, and nobody oversleeps unless a waiting snapshot raised |
| `SnapshotBarrier.OversleptOnlyByGivingUp` | app/backup_coordination.py:59-90 | a step lets a sleeper miss its chance if and only if it is the last waiting snapshot giving up with an exception |
| `SnapshotBarrier.SleeperMissesItsChance` | app/backup_coordination.py:59-90 | a run that ends so: a writer sleeps although it may write |
| `SnapshotBarrier.SnapshotIsAlone` | app/backup_coordination.py:73-90 | a snapshot coexists with no writer and no other snapshot |
| `SnapshotBarrier.WritesYieldToWaitingSnapshot` | app/backup_coordination.py:48-71 | no outermost write enters while a snapshot waits, and a nested write never waits |
| `SnapshotBarrier.EntersIff` | app/backup_coordination.py:48-90 | whoever asks gets in exactly if it may: a write if no snapshot is being taken or waits, a snapshot if none is being taken and no write is in progress; otherwise it sleeps |
| `SnapshotBarrier.SomebodyIsInside` | app/backup_coordination.py:59-90 | while someone sleeps, some thread is inside or awake that will go on |
| `SourceLocks.SourceRegistry.Register` | app/remote_transfer.py:83-91 | the loop enters every source once and returns their lock objects in order |
| `SourceLocks.SourceRegistry.Cleanup` | app/remote_transfer.py:104-109 | the loop takes out every source once and drops an entry exactly at zero |
| `SourceLocks.StepKeepsInv` | app/remote_transfer.py:73-109 | every step keeps entries, counts, locks and owners consistent |
| `SourceLocks.LocksAreShared` | app/remote_transfer.py:83-109 | transfers on one source use one lock object, at most one holds it, and the count is the number of users |
| `SourceLocks.WaitingGoesUp` | app/remote_transfer.py:81-101 | a waiting transfer wants an earlier source than the transfer it waits for |
| `SourceLocks.NoCycle` | app/remote_transfer.py:81-101 | in every reachable state the wait-for graph has no cycle |
| `SourceLocks.SomebodyGoesOn` | app/remote_transfer.py:81-109 | in every reachable state with a transfer inside, some transfer has all its locks, gives them back, or can take its next one |
| `ProfileOrder.MoveProfile` | app/profile_manager.py:644-733 | which moves are refused or need confirmation, and what a move stores |
| `ProfileOrder.TargetListing` | app/profile_manager.py:703-730 | the target group lists its other profiles in their order, with the moved one at the requested index or last if that is beyond the end, numbered from zero |
| `ProfileOrder.SourceListing` | app/profile_manager.py:712-719 | the source group lists its other profiles, numbered from zero |
| `ProfileOrder.OtherListing` | app/profile_manager.py:703-730 | every other group is listed as before |
| `ProfileOrder.OthersKeepTheirOrder` | app/profile_manager.py:53-76 | leaving the profile out keeps the listing of the others if and only if it has an order, or another has none, or the others are stored in order |
| `ProfileOrder.MissingOrderSwapsOthers` | app/profile_manager.py:53-76 | a group in which moving the one profile without an order swaps the other two |
| `LogReader.IterLogLinesNewestFirst` | app/audit_logger.py:533-551 | for every content and chunk size the reader yields what a reader of the whole file would |
| `LogReader.NewestFirstMeaning` | app/audit_logger.py:533-551 | which are the lines at falling places of the file: every one that is not empty, once, and no other |
| `LogReader.SplitAppend` | app/audit_logger.py:543-545 | the lines of a text are those of its front with the last running on into the rest |

## Left out

- Request routing, templates, CSRF, headers and socket admission: request plumbing around the modelled cores.
- SSH, SMB, LDAP, OIDC, Redis and SQLite themselves: they appear as steps that succeed or fail.
- Ciphers, key derivation and digests: abstract values; a backup digest is a parameter of `BackupRoundTrip.StageSource`.
- Configuration parsing: its bounds are parameters or constants.
- Prefixing commands with `sudo` and `normalize_startup_commands`: not part of this model.
- Symbolic links, file modes and directory entries: trees map paths to contents; the checks that refuse links, and the
  creation and removal of directories, are steps without effect on a tree.
- An unreadable restore status file: `_read` is modelled for a file that parses; the blocking status it makes up otherwise is not.
- RestoreProtocol.PerformRestore: requires no active status and a fresh operation id, as `start_restore` and the operation registry provide them.
- RestoreProtocol.Lifetime: in the exceptional case, a failure behind the success mark whose handling leaves that mark in place, it promises only that every file is and stays the original or the uploaded one, because the code keeps no more (see above).
- RestoreProtocol.InterruptedThenHealed: assumes that the files of both states can stand side by side in one directory; otherwise the rollback archive can be refused.
- KeyRecovery.DeleteKeeps: for the deleted key itself it assumes that no staged entry with other content sorts before its staged name, because the code does not keep the property otherwise (see above); every other key needs no such assumption.
- Key entries that are neither files nor links, and entries whose state cannot be read: not part of this model.
- The operation registry's confirmation tokens, expiry and downloads (`app/backup_operations.py`): easier members; only orphan cleanup is modelled.
- Archive limits (member counts, sizes, compression ratio) and data schema migrations: one-branch checks.
- JSON text: manifests are values of a JSON datatype, and reading a time stamp is a parameter.
- Directory listings whose `read_page` raises: the snapshot is marked as disturbed, and nothing is claimed about its later pages.
- Owner, source, path and client checks of a directory cursor: a cursor is presented by its rightful client or refused like an invalid one; signatures cannot be forged.
- Idle times of directory snapshots: any active snapshot may be pruned, and eviction may pick any active snapshot of the owner.
- The per-user LDAP validation lock: the results hold without it.
- RateLimiter.InMemoryLimiter.Allow: at the exact boundary of the window a request may or may not still count, as in the code; when the requests come in order the two bounds differ only there. A denial of a request behind others that came out of order is only bounded with the disorder added.
- RateLimiter.BoundedIffNotLate: is about keys that are used with one window; what other uses of a key keep is in the contract of `RateLimiter.InMemoryLimiter.Allow`.
- KeyRecovery.KeptIffNoStaleContent: assumes that no name with the last of all tokens is taken; `KeyRecovery.KeptUnderAllIff` does not.
- The further sort keys of a profile listing (name, host, id): they can never decide after order and position.
- Case folding of group names: groups are named by their folded keys.
- Assurance levels, methods, lifetimes and step-up grants of logins: the rows' generations, tokens and owners carry the claims.
- Authentication.InvalidationEndsLogins: speaks of runs whose invalidations are undisturbed, and `Authentication.NoneOlderEndsLogins` of invalidations that find no older row in memory, because the code does not keep the property otherwise (see above).
- LdapRuns.DiscardAfterAdvance: speaks of runs whose commits find the generation they have loaded, for the same reason.
- A restore of the database of accounts in the middle of a run of logins: generations then go back, and nothing is claimed.
- CommandMeaning.AndFollowsOperatorIff: says nothing about a step whose kept line is blank.
- Reads and nested writes inside a snapshot by the same thread: a thread is at one place of the barrier at a time.
- Sources that are not temporary connections take no hold and are not part of `TransferHolds`.
- RestoreProtocol.LateFailureTears: assumes that the files of both states can stand side by side in one directory; where they cannot, the rollback refuses before it changes a file.
- Transfer budgets, partial writes and child path checks of `app/remote_transfer.py`: easier members.
- The session epoch that a restore writes is random: it is taken to differ from the earlier one.
