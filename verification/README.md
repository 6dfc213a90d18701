# Verified model of the agent-governance installer and its tools

This project models the parts of the repository that must not lose data: the checkpoint store that
dispatches external effects, the installer's transactions and their recovery, the text and JSON
editors that change a user's files in place, and the tools around them. Every module is a Dafny
model of one source file or of a part of one; `dafny verify dfyconfig.toml` checks them all.

## How the source is modelled

- **Checkpoint store** (`ResumeSchema`, `ResumeHistory`, `ResumeProtocol`, `ResumeSafety`,
  `ResumeExactlyOnce`, `ResumeProgress`, `ResumeAdmission`, `ResumeStore`). Checkpoints and their rules are functions; many processes
  over one directory are a transition system with program counters, an append-only log, in-flight
  and applied effects as multisets, and crashes at any step; the class follows the source's methods
  statement by statement, and what other writers do between them is an arbitrary script, so that a
  contract can say what holds whatever they do and what holds if they do nothing. The contract of the
  readback callback (`src/resume-checkpoint.ts:27`) is an explicit condition on runs: NOT_APPLIED
  is answered only if the effect is absent and no claimant can still execute, and a process that has
  published its claim and is still confirming it counts as active.
- **Installer** (`Installation`, `FileSystem`, `Recovery`, `TransactionPlan`, `InstallationStates`,
  `Transaction`, `Installer`). A disk is a map from paths to bytes, verified releases and staged
  ones. Every primitive may crash the process or report an I/O error, before or after its effect: the
  store carries an arbitrary sequence of what the operating system will do, so that a contract can say
  what holds whatever goes wrong, what holds if nothing does, and what one named run comes to.
  `TransactionPlan.InTransaction` is the invariant of a run: every crash, every failure and every
  interrupted restore stays inside it.
- **Replacement and lock** (`Replacement`, `InstallLock`). Replacement runs the modelled installer on
  the same disk. The lock is a transition system of processes, in which reading an owner file, probing
  its process, capturing and renaming the directory are steps of their own.
- **Texts** (`TextSearch`, `ManagedBlock`, `ManagedMarkers`, `ManagedBlockLaws`, `ChangelogText`,
  `ChangelogGrammar`, `Changelog`, `ChangelogSections`) and **JSON** (`JsonText`, `JsonGrammar`,
  `JsonLayout`, `JsonParser`, `JsonEdit`, `JsonSync`). The JSON parser is modelled twice:
  as a function to trees that keep all white space, and as the source's recursive methods with their
  loops over indices; the methods are proved to answer as the function does. Editing is defined on
  trees and proved to be splicing on texts. Patterns and scanners are functions over indices; what they
  accept is defined apart from them, by putting texts together from their parts, and proved to be the same.
- **Algorithms** (`AtomicReplace`, `DependencyGraph`, `SemVer`, `LabelPlan`).

## Where the code does not do what it is meant for

The model keeps the code as it is. The members named state when the code does what it should, and
show the case in which it does not.

- `src/installer/recovery.ts:31`: if the entry was moved aside and its re-creation fails with an I/O
  error, the moved bytes are put back beside the moved copy. From then on every restore refuses
  (`TransactionPlan.StuckForEver`, `TransactionPlan.PutBackIsStuck`). Crashes alone never lead there
  (`Recovery.Restore`).
- `src/installer/recovery.ts:46`: local rules written into a release that the run brings must be in
  place at the end of a restore, so a run that stopped before writing them cannot be restored
  (`TransactionPlan.RestorableExactly`, `Transaction.NewRulesAreMissed`).
- `src/installer/mutation.ts:16-22` with `src/transaction.ts:84`: a write of an existing entry that
  takes effect and then reports an I/O error counts as a concurrent change (`Transaction.WriteEntry`), so
  the in-process restore leaves the new entry in place and still rolls both receipts back. Nothing undoes
  it any more (`Installer.KeptForEver`), and the state is then the one before exactly if the metadata of
  before describe the new entry, and TAMPERED otherwise (`Installer.KeptIsClassified`). No other error
  has this effect: `TransactionPlan.KeptEntry` is the only gap in `Installer.InstallerTransaction.Mutate`,
  which also names the run that ends in it, and in `Installer.Recover`.
- `src/transaction.ts:81`: local rules named by the caller are created, not replaced, in a release that
  the run brings, so a release that ships a file there makes even an undisturbed run fail
  (`Transaction.RulesFit` in `Transaction.PerformMutation`).
- `src/transaction.ts:54`: `install` in the state CURRENT is already done, also if the caller names local
  rules, which are then not written (`Installer.DecidedByState`, `Installer.InstallerTransaction.Mutate`).
- A crash while `rollback` restores a committed transaction leaves the pair CC with half-restored
  files, which the classifier calls TAMPERED; a further `rollback` still restores it
  (`Installer.RollbackGoesWrong`; `Installer.Recover` starts from every such state).
- `uninstall` reports ABSENT while the classifier says FRESH, since the entry file remains
  (`Installer.InstallerTransaction.Mutate`).
- `src/managed-block.ts:104-108`: user text that ends in a lone CR and has no CRLF gets a line feed,
  which makes one; the block then does not verify (`ManagedBlockLaws.LoneCrExample`).
- `src/installer/version.ts:8`: numeric pre-release identifiers with leading zeros, which the
  installer's pattern accepts, compare as greater in both directions (`SemVer.LeadingZeroTie`).
- `src/installer/locking.ts:11`: the owner file is read well before its process is probed. If the owner
  finishes and exits in between, a single reclaimer renames away the directory of whoever came next, and
  two processes are inside (`InstallLock.LateJudgementBreaksIt`). A judgement is safe if and only if the
  directory there is left behind at that moment (`InstallLock.JudgementDecides`). Two reclaimers at a time
  break the lock even so (`InstallLock.TwoReclaimersBreakIt`).
- `src/installer/locking.ts:11`: a lock directory without its owner file is never reclaimed, except by a
  process that is already past reading an owner file (`InstallLock.FreedExactlyIf`,
  `InstallLock.DeathBeforeTheOwnerFile`).
- `tools/sync_version.py:248-249`: an interrupt between a replace and its record leaves that file new
  while all others are put back and the backups are removed.
- `tools/sync_version.py:262-266`: the rollback catches only `OSError`. An interrupt in it leaves the
  files new that it did not get to, and `finally` removes their backups, since no rollback error was
  recorded: the old bytes are lost (`AtomicReplace.InterruptedRollbackLoses`). These two are the only
  ways (`AtomicReplace.ReplaceAll`).
- `tools/release_check.py:578-587` with `tools/prepare_release.py:88`: a changelog with links to
  releases, which is in order while the current version is tagged, is not valid after the cut, unless the
  target is tagged already (`Changelog.CutIsValid`).

## Model

| member | source | states |
|---|---|---|
| ResumeSchema.AppendKeepsHistoryValid | src/resume-checkpoint.ts:100-105 | a checkpoint that passes the loop's tests against the last one extends a valid history to a valid one |
| ResumeSchema.PrefixIsValid | src/resume-checkpoint.ts:92-108 | every prefix of a valid history is valid |
| ResumeSchema.EventsAreUnique | src/resume-checkpoint.ts:102 | no event id occurs twice in a valid history |
| ResumeSchema.WrittenLinks | src/resume-checkpoint.ts:143-147 | what publish decides to write is a valid successor of the history it was decided on |
| ResumeSchema.RetryIsSafe | src/resume-checkpoint.ts:135-142 | repeating a request whose checkpoint is still current is confirmed without a new generation; after any later publication it is rejected |
| ResumeSchema.FindAfterSet | src/resume-checkpoint.ts:201 | rewriting one operation's effect leaves every other operation's effect as it was |
| ResumeAdmission.ChangesExactly | src/resume-checkpoint-schema.ts:124-126 | which changes of an effect's status a next checkpoint may make, under which trigger: eight, listed one by one |
| ResumeAdmission.StatesExactly | src/resume-checkpoint-schema.ts:63-94 | which states a checkpoint can carry: distinct operations, fields that are safe, and references exactly with the confirmed statuses |
| ResumeAdmission.TransitionsExactly | src/resume-checkpoint-schema.ts:118-131 | the tests of a transition accept exactly the states in which the task identity stays, every operation stays or changes as it may, new ones are being prepared, and only a readback confirms |
| ResumeAdmission.HistoriesExactly | src/resume-checkpoint.ts:92-108 | what is read back are exactly the sequences of numbered, chained and hashed records, each of which may follow the one before, without an event twice |
| ResumeAdmission.DecidedExactly | src/resume-checkpoint.ts:135-147 | publish writes exactly the requests with a new event, the current identity, a changed state that may follow; it confirms exactly those already met, with the last checkpoint |
| ResumeHistory.OperationPersists | src/resume-checkpoint-schema.ts:120-127 | along a valid history an operation never disappears, its binding never changes, and COMMITTED is absorbing |
| ResumeHistory.FirstAppearsPrepared | src/resume-checkpoint-schema.ts:129-131 | every operation first appears as PREPARED, under the trigger effect_prepared |
| ResumeHistory.ConfirmedStep | src/resume-checkpoint-schema.ts:124 | a confirmed status is either inherited or entered by a readback from PREPARED or UNKNOWN |
| ResumeHistory.ConfirmedByReadback | src/resume-checkpoint-schema.ts:86-89 | every confirmed status goes back to one readback step with a reference and has stood unchanged since |
| ResumeSafety.InvIsInductive | src/resume-checkpoint.ts:92-159 | every step of every process keeps the directory one valid history, every claim in it, and every process where its code says it is |
| ResumeSafety.ListingReadsPrefix | src/resume-checkpoint.ts:92-108 | a directory listing taken at any earlier moment still reads back as a prefix of the history |
| ResumeExactlyOnce.ExactIsInductive | src/resume-checkpoint.ts:195-218 | every step keeps, per operation, at most one active claimant and at most one application, and none while the log allows a new claim |
| ResumeExactlyOnce.EveryRunIsSafe | src/resume-checkpoint.ts:92-218 | both invariants hold in every world of every run, with any number of processes and crashes |
| ResumeExactlyOnce.EffectsAreAppliedAtMostOnce | src/resume-checkpoint.ts:195-218 | under the readback contract of line 27 no effect is applied twice; COMMITTED anywhere in the log means applied exactly once; PREPARED or NOT_APPLIED means not applied |
| ResumeExactlyOnce.EveryDispatchOwnsItsClaim | src/resume-checkpoint.ts:200-202 | without any contract, every call of execute follows a published PREPARED-to-UNKNOWN claim of its own process |
| ResumeExactlyOnce.DispatchesHaveDistinctClaims | src/resume-checkpoint.ts:200-202 | without any contract, two calls of execute never follow the same claim |
| ResumeExactlyOnce.DirectoryIsAlwaysOneHistory | src/resume-checkpoint.ts:92-159 | at every moment the directory reads back as one valid history, and earlier ones are prefixes of later ones |
| ResumeExactlyOnce.LogOnlyGrows | src/resume-checkpoint.ts:154 | no step ever takes a published generation back |
| ResumeExactlyOnce.OnlyRecoveryConfirms | src/resume-checkpoint.ts:207-217 | COMMITTED and NOT_APPLIED enter the log only through recoverEffect, with the status its outcome stands for and a non-null reference |
| ResumeProgress.RequestIsPublished | src/resume-checkpoint.ts:129-159 | from every world of the invariant, a new process that runs while the others stand still publishes any admissible request |
| ResumeProgress.EffectIsExecuted | src/resume-checkpoint.ts:196-202 | likewise a prepared effect is claimed, its callback entered once, and the effect applied once more |
| ResumeProgress.OutcomeIsRecorded | src/resume-checkpoint.ts:207-218 | likewise a truthful answer about an unconfirmed effect is recorded, with that change and no other |
| ResumeProgress.PreparedCanBeCommitted | src/resume-checkpoint.ts:195-218 | wherever a run under the readback contract has come to, a prepared effect can be executed by one process and committed by another, and is applied exactly once more |
| ResumeStore.ReadHistory | src/resume-checkpoint.ts:92-108 | succeeds exactly on directories that hold one valid history without foreign entries or gaps, and returns it |
| ResumeStore.ResumeCheckpointStore.RenameNoReplace | src/resume-checkpoint.ts:154 | publishes the staged file exactly if its generation is still free |
| ResumeStore.ResumeCheckpointStore.Publish | src/resume-checkpoint.ts:129-159 | whatever others write, a success is the decision made on a prefix of the log that was the whole log at some moment of the call, and nothing else of this store enters the log; if nobody else writes, a request that may follow appends exactly its checkpoint and succeeds, one that is already met is confirmed, and every other one changes nothing and fails |
| ResumeStore.ResumeCheckpointStore.RecoverEffect | src/resume-checkpoint.ts:207-218 | a success ends with the recorded outcome, or with a status that was already confirmed; if nobody else writes, an answer that says something new about a known, unconfirmed effect appends one checkpoint with exactly that change |
| ResumeStore.ResumeCheckpointStore.ExecuteEffect | src/resume-checkpoint.ts:196-204 | the callback is entered at most once per call, and only after the call's own claim was published as direct successor of the state it read; if nobody else writes, a prepared effect whose claim fits is claimed, dispatched once more, and then recovered |
| ResumeStore.ClaimIsOwn | src/resume-checkpoint.ts:200-201 | a published claim under a fresh event id is this call's own, on top of the prepared checkpoint |
| ResumeStore.AnswersExactly | src/resume-checkpoint.ts:214-216 | APPLIED, NOT_APPLIED and inconclusive stand for COMMITTED, NOT_APPLIED and UNKNOWN, and for nothing else |
| Installation.RunsStayKnown | src/transaction.ts:82 | no run of commits, reverts and restores leaves the six status pairs |
| Installation.ExactlySixPairs | src/transaction.ts:82 | a pair of receipt statuses is reachable by the writes of commit, revert and restore if and only if it is one of six |
| Installation.AcceptedExactlyWhenReachable | src/installer/receipts.ts:38 | receiptWithMatchingBackup accepts the two copies of a receipt, their backups being in place, exactly in the reachable pairs |
| Installation.RecoveryExactlyWhenUnsettled | src/installer/context.ts:27 | the classifier asks for recovery exactly in the pairs PP, CP, PR and CR, and classifies by the files in CC and RR |
| FileSystem.FileStore.AtomicCreate | src/installer/mutation.ts:28 | creates only where nothing is; a failure may come before or after the effect; an existing file is a concurrent change |
| FileSystem.FileStore.AtomicWrite | src/installer/mutation.ts:11-24 | replaces only the expected bytes; a failure may come before or after the effect |
| FileSystem.FileStore.AtomicRemove | src/installer/mutation.ts:26 | removes only the expected bytes |
| Recovery.OtherBindingReferences | src/installer/recovery.ts:13 | an answer says whether another readable binding uses the release; it fails exactly if the listing comes to unreadable metadata before any such binding |
| Recovery.RestoreEntrySnapshot | src/installer/recovery.ts:22-32 | moves the live entry aside at most once, leaves the moved copy, and ends with the desired entry; only an I/O error can leave the old entry beside its moved copy, and one that comes at the re-creation does |
| Recovery.RestoreFile | src/installer/recovery.ts:43-44 | brings one file from its applied image to the one before, and refuses any third content |
| Recovery.RestoreImages | src/installer/recovery.ts:42-44 | entry, metadata and unshared rules are each either untouched or as before the transaction, at every interruption |
| Recovery.WriteRolledBack | src/installer/recovery.ts:46 | the backup copy is rolled back first, the top copy only after it |
| Recovery.RestoreAll | src/installer/recovery.ts:42-47 | from an admitted disk: what a complete and an interrupted restore leave, and the three reasons for which it refuses |
| Recovery.Restore | src/installer/recovery.ts:34-47 | on any disk: if nothing goes wrong, a restore succeeds if and only if the receipts match, the other bindings decide and the disk is restorable; after a success every image is the one before and both receipts are ROLLED_BACK; an interrupted one changes nothing else |
| TransactionPlan.BackupsProveTheReceipt | src/transaction.ts:69-74 | the receipt of a written backup is valid, proved by the evidence check, and names exactly the images of the plan |
| TransactionPlan.ReceiptsAreThoseOfPlans | src/installer/receipts.ts:23-36 | a receipt is valid and proved by the backups if and only if it is the receipt of some plan whose backups these are |
| TransactionPlan.AcceptedExactlyWhenWritten | src/installer/receipts.ts:38 | the reader accepts two copies if and only if they are what some plan writes, in a reachable pair of statuses, its backups being in place |
| TransactionPlan.RestorableExactly | src/installer/recovery.ts:38-46 | from every state of a run, a restore succeeds if and only if the entry is not stuck and the rules of a release the run brought, if unshared, are in place; so always when no rules are written or the release existed |
| TransactionPlan.PartlyStays | src/installer/recovery.ts:34-47 | every interruption of a restore leaves a state from which the above still holds |
| TransactionPlan.RestoredStays | src/installer/recovery.ts:46 | a complete restore settles the pair RR with the images before, whatever was interrupted earlier |
| TransactionPlan.StuckForEver | src/installer/recovery.ts:29-31 | once the re-creation of the entry failed and the moved bytes were put back, every later restore refuses |
| TransactionPlan.PutBackIsStuck | src/installer/recovery.ts:31 | what a failed re-creation leaves is stuck, though it was not before and all checks before the change still admit it |
| TransactionPlan.GapIsKeptEntry | src/transaction.ts:84 | a receipt that is rolled back vouches for the entry, unless the run was settled around an entry it had changed |
| TransactionPlan.ReceiptsStay | src/installer/recovery.ts:46 | writing the rolled back receipts takes the status pair along its steps and keeps the invariant of the run |
| Transaction.NewRulesAreMissed | src/installer/recovery.ts:45-46 | a run that brings a release and rules for it, stopped once its receipts are in place: its backups are read, all earlier checks pass, and the last one refuses |
| InstallationStates.UntouchedKeepsState | src/transaction.ts:69-74 | a run that stops before its top receipt changes no classification |
| InstallationStates.RecoveredKeepsState | src/installer/context.ts:21-38 | with both receipts rolled back and both images restored the classifier says what it said before the run |
| InstallationStates.InstalledIsCurrent | src/installer/context.ts:30-36 | after a committed install or update the classifier says CURRENT |
| InstallationStates.IntactExactly | src/installer/context.ts:31-35 | the metadata hold exactly if they repeat a verified release and the request field by field, its rules can be read and the entry holds its block |
| InstallationStates.InstalledIsRanked | src/installer/context.ts:36 | over settled receipts and an intact installation: OUTDATED exactly if the requested version has higher precedence (or only spells a number with more zeros), DOWNGRADE_BLOCKED exactly if it has lower, CURRENT and TAMPERED by the bundle digest exactly if they are equal |
| InstallationStates.UninstalledIsRanked | src/installer/context.ts:29 | without metadata: ABSENT, FRESH or TAMPERED exactly by the entry and the marker text in it |
| InstallationStates.UnfoundedIsTampered | src/installer/context.ts:26-37 | metadata without a receipt, with one that does not read, or that are not intact, are TAMPERED |
| InstallationStates.UninstalledIsFresh | src/installer/context.ts:29 | after a committed uninstall the classifier says FRESH, unless marker text remains |
| InstallationStates.UnsettledAsksForRecovery | src/installer/context.ts:27 | in every state of a run the classifier asks for recovery exactly when the receipts are not settled |
| Transaction.WriteBackups | src/transaction.ts:69-72 | a finished backup holds every image of the plan, and nothing outside the backup directory has changed |
| Transaction.Announce | src/transaction.ts:74 | the backup receipt is written before the top receipt; until the top one is there nothing visible has happened |
| Transaction.CheckUnchanged | src/transaction.ts:76 | a run that gives up before its first change rolls back both receipts and leaves the images alone |
| Transaction.WriteEntry | src/installer/mutation.ts:16-22 | a failed write of an existing entry counts as a concurrent change, also one that took effect; of a missing entry only if nothing was written |
| Transaction.ApplyInstall | src/transaction.ts:81 | every interruption leaves each image before or applied, no new metadata before the rules and no new entry before both; a concurrent change is only reported while the entry is as before, or after an I/O error on an existing entry |
| Transaction.ApplyUninstall | src/transaction.ts:80 | every interruption leaves each image before or applied, and the metadata is there until the block is out of the entry |
| Transaction.VerifyApplied | src/transaction.ts:82 | the run goes on to commit exactly if, without an I/O error, every image is applied, the block verifies and the release is in order, or the block is gone; it takes the local rules it found along |
| Transaction.CheckJointly | src/transaction.ts:82 | passes only if entry, metadata and, except to uninstall, the local rules are those found at verification, and without an I/O error always then |
| Transaction.Commit | src/transaction.ts:82 | top receipt, backup receipt, joint check, and both taken back if that fails; a success leaves the pair CC, and only an I/O error makes it fail |
| Transaction.WriteStatus | src/transaction.ts:82 | a receipt write takes the pair one step along, or leaves it |
| Transaction.PerformMutation | src/transaction.ts:66-88 | if nothing goes wrong it succeeds if and only if the release fits, the rules do not collide and the result verifies; a success is committed and applied; an in-process restore settles RR; every other outcome leaves nothing visible or a recoverable state; an entry is kept by the plans that can keep one, and by those in the run in which only its write fails |
| Transaction.RunToCommit | src/transaction.ts:78-82 | without I/O errors the changes are committed unless a new release ships rules where the run writes others, or the result does not verify |
| Transaction.CheckedExactly | src/transaction.ts:82 | with every image in place, verification accepts exactly the results foreseen from the disk before |
| Transaction.RestoreInProcess | src/transaction.ts:84 | the restore of a failed run; one that leaves the entry alone completes if nothing goes wrong |
| Transaction.RestoredInProcess | src/transaction.ts:84 | after the restore of a failed run the entry is as before, or was kept after an I/O error on it |
| Installer.SuccessIsClassified | src/transaction.ts:57 | success and classification agree, for install and update under equal-digest-equal-release, and for uninstall |
| Installer.LeftIsClassified | src/installer/context.ts:21-38 | after any outcome the classifier says the old state, or RECOVERY_REQUIRED, or the receipts are settled |
| Installer.RolledBackIsClassified | src/transaction.ts:89 | a settled rollback with the entry as before has restored metadata and unshared rules byte for byte, and the state |
| Installer.KeptIsClassified | src/transaction.ts:84 | settled around a changed entry, the state is the one before exactly if the metadata of before describe the new entry, and TAMPERED otherwise |
| Installer.KeptForEver | src/transaction.ts:89 | no rollback changes anything once a run is settled around a changed entry |
| Installer.HalfRestoredIsTampered | src/installer/context.ts:35 | a rollback of a committed run that stopped with the entry moved aside is classified as TAMPERED |
| Installer.RollbackGoesWrong | src/transaction.ts:89 | a rollback of a committed run that stops after moving the entry aside leaves TAMPERED; one whose re-creation of the entry fails leaves a state that every later rollback refuses |
| Installer.InstalledIsMarked | src/managed-block.ts:97-109 | every installed text contains marker text |
| Installer.DecidedByState | src/transaction.ts:50-54 | which operation is refused, already done or carried out in which of the seven states: a table |
| Installer.PlanIsMadeExactlyIf | src/transaction.ts:55-65 | in an accepted state a plan is made if and only if the local rules that it looks at are canonical |
| Installer.PlanIsAsRequested | src/transaction.ts:66-81 | what a plan applies is the requested entry and metadata |
| Installer.PlannedRulesAreWanted | src/transaction.ts:60-65 | the rules that a plan leaves are the caller's, else those there or shipped, else those of the installed release, if it has any |
| Installer.LeftIsNeverLower | src/installer/context.ts:36 | whatever a run leaves, the metadata name no lower version than before |
| Installer.InstallerTransaction.Mutate | src/transaction.ts:50-59 | refused and finished states touch nothing; if nothing goes wrong a run succeeds if and only if release, rules and result fit; a success leaves the requested entry, metadata and, as rules, those the caller names, else those there or shipped, else those of the release installed before; no run ends with a lower version in the metadata; every run that fails and stays alive is classified as before unless it keeps an entry that the old metadata do not describe, and the run that does is named |
| Installer.InstallerTransaction.Rollback | src/transaction.ts:89 | a success restored the receipt's transaction, or found it rolled back, and ends in a state that is neither TAMPERED nor RECOVERY_REQUIRED |
| Installer.Recover | src/installer/recovery.ts:22-47 | from every state of a run, after any number of interrupted rollbacks, one that completes restores entry, metadata, unshared rules and the classification, unless the run was settled around a changed entry, and then nothing changes; if nothing goes wrong it completes if and only if the run is settled or none of three named reasons applies |
| Installer.Attempted | src/transaction.ts:89 | one rollback of a run: it completes only from a state that is not hopeless, and refuses only, and for ever, from one that is |
| Replacement.RestoreOriginal | src/replacement.ts:107-118 | a success puts the original back; the quarantined copy survives in any case |
| Replacement.QuarantineSurvives | src/replacement.ts:132-146 | no outcome of the inner transaction touches the quarantined copy |
| Replacement.ReplaceInstallation | src/replacement.ts:44-162 | the original is at the entry path or in quarantine whenever the run ends or dies; NOT_REQUIRED and RESTORED end with it at the entry path, RETAINED keeps it in quarantine, SUCCESS installs the user's text and is CURRENT; if nothing goes wrong the replacement takes place if and only if the install into the new root goes through |
| InstallLock.InvIsInductive | src/installer/locking.ts:11-13 | while owners are judged dead only in time, every step keeps the lock directory as its holder left it |
| InstallLock.MutualExclusion | src/installer/locking.ts:13 | over all runs with one reclaimer at a time in which an owner is found dead only while the directory there is left behind, at most one process is inside the locked action |
| InstallLock.JudgementDecides | src/installer/locking.ts:11 | after a run of timely judgements a process finds an owner dead: all timely continuations let at most one process in if and only if the directory there is left behind at that moment |
| InstallLock.PatientIsTimely | src/installer/locking.ts:11 | it is, throughout, if no process removes an owner file between a reclaimer reading it and probing its process |
| InstallLock.LateJudgementBreaksIt | src/installer/locking.ts:11 | with one reclaimer a concrete run puts two processes inside: the owner it read leaves before it is probed |
| InstallLock.LiveLockIsLeftAlone | src/installer/locking.ts:11 | in a run with timely judgements no step of another process changes the lock of a process inside the action |
| InstallLock.OrphanStays | src/installer/locking.ts:11 | a lock directory without an owner file that no process may free stays for ever, and nobody gets in |
| InstallLock.FreedExactlyIf | src/installer/locking.ts:11-13 | a lock directory without an owner file can still go away, with one reclaimer at a time, if and only if some process takes it for its own, or is past reading an owner file |
| InstallLock.DeathBeforeTheOwnerFile | src/installer/locking.ts:13 | a process that dies between making the directory and writing its owner file shuts everybody out for ever |
| InstallLock.LateJudgementFreesIt | src/installer/locking.ts:11 | a concrete run in which a reclaimer that read the owner file before renames such a directory away |
| InstallLock.GetsInExactlyIf | src/installer/locking.ts:11-13 | a process that comes from outside gets in by itself if and only if there is no lock directory, or its owner file names a dead process |
| InstallLock.TwoReclaimersBreakIt | src/installer/locking.ts:11 | with two reclaimers at a time a concrete run puts two processes inside |
| TextSearch.CollectOccurrences | src/managed-block.ts:32-40 | finds exactly the leftmost non-overlapping occurrences |
| ManagedBlock.FlagsAreRead | src/managed-block.ts:90-95 | the two boundary flags of a generated block are read back, whatever the binding says |
| ManagedBlock.SourceWordingIsUnambiguous | src/managed-block.ts:65-88 | with the sentences of the source no line of a block can be taken for a flag line |
| ManagedMarkers.ParsedExactly | src/managed-block.ts:42-63 | a text is accepted if and only if no marker of another version is in it and the own ones are absent or one pair in order; what is found are their places and the line end |
| Installation.BlockNamesTheRelease | src/managed-block.ts:71-88 | line by line what the block of a release says: version, root, the two paths and the three digests, each behind its label |
| ManagedBlockLaws.EolIsReadBack | src/managed-block.ts:42-63 | the line end chosen on installing is found again by parsing, unless the text ends in a lone CR |
| ManagedBlockLaws.FreshInstall | src/managed-block.ts:104-108 | installing into unmanaged text frames the block as the laws describe |
| ManagedBlockLaws.Reinstall | src/managed-block.ts:97-103 | replacing a block by another binding's equals installing that one alone, if and only if the text is no lone-CR text |
| ManagedBlockLaws.LastInstallWins | src/managed-block.ts:97-109 | any further installations leave what the last one alone would leave |
| ManagedBlockLaws.VerifyIsExact | src/managed-block.ts:130-136 | verification accepts exactly the installed binding, and none after a lone-CR text |
| ManagedBlockLaws.RemoveIsExact | src/managed-block.ts:111-120 | removal gives back the text if and only if it is no lone-CR text, and what it gives otherwise |
| ManagedBlockLaws.InstallationsAreReversible | src/managed-block.ts:97-136 | any non-empty sequence of installations equals the last, verifies for exactly that binding, and is undone by one removal |
| ManagedBlockLaws.LoneCrExample | src/managed-block.ts:104-136 | the text "x" and CR: what was just installed does not verify, and removal gives "x" and LF |
| JsonText.ScalarExtend | tools/sync_version.py:110 | a scalar is decoded to its end wherever a delimiter follows |
| JsonText.ScalarPrefix | tools/sync_version.py:95-111 | what the decoder takes is itself a complete scalar |
| JsonGrammar.StringsExactly | tools/sync_version.py:110 | a text is taken for a string if and only if section 7 of RFC 8259 derives it: plain characters and the nine escape forms between quotation marks |
| JsonGrammar.NumbersExactly | tools/sync_version.py:110 | and for a number if and only if section 6 derives it: sign, integer, fraction and exponent |
| JsonGrammar.ScalarsExactly | tools/sync_version.py:110 | a scalar is a derived string or number, true, false, null, NaN, Infinity or -Infinity, and nothing else |
| JsonGrammar.WhiteSpaceExactly | tools/sync_version.py:89-92 | white space is what section 2 of RFC 8259 says |
| JsonLayout.ValueIsSound | tools/sync_version.py:102-152 | whatever is read is the text of a valid tree, with distinct decoded keys in every object |
| JsonLayout.ValueIsComplete | tools/sync_version.py:102-152 | the text of every valid tree is read back as that tree, in any context that delimits it |
| JsonParser.SkipWhitespace | tools/sync_version.py:89-92 | stops at the first character that is not white space |
| JsonParser.ValueAt | tools/sync_version.py:102-111 | the value method answers as the tree parser: success, end and layout |
| JsonParser.ArrayAt | tools/sync_version.py:114-127 | the array loop ends where the tree parser ends, and fails where it fails |
| JsonParser.ObjectAt | tools/sync_version.py:130-152 | the object loop ends where the tree parser ends, with the layout of the tree, and refuses duplicate keys |
| JsonParser.ReadLayout | tools/sync_version.py:155-168 | a file has a layout exactly if it is one object with white space around it |
| JsonEdit.LayoutFinds | tools/sync_version.py:144 | looking a path up in the layout gives the span of the value there |
| JsonEdit.EditSplices | tools/sync_version.py:185-188 | editing the tree is splicing the text at the value's span: no other byte changes |
| JsonEdit.SpansNestOrPart | tools/sync_version.py:130-152 | a value inside another lies within its span; any two others lie apart |
| JsonEdit.EditMovesSpans | tools/sync_version.py:185-188 | after an edit every span outside it is where it was, or moved by the difference in length |
| JsonEdit.EditIsFound | tools/sync_version.py:185-188 | the new value is found where the old one was, and every other value is the same |
| JsonSync.ReadTreeIsExact | tools/sync_version.py:155-168 | a file is read as exactly the tree whose text it is, and not at all if there is none |
| JsonSync.StringSpanIsExact | tools/sync_version.py:171-182 | _string_value_span answers with the value's span exactly if the value is a string |
| JsonSync.QuotedIsString | tools/sync_version.py:298 | a quoted version is a JSON string without escapes |
| JsonSync.ReplaceValues | tools/sync_version.py:185-188 | replaces from the back to the front |
| JsonSync.SpliceTwo | tools/sync_version.py:300-306 | both replacements, in either order of their places, give the text of the tree with both edits |
| JsonSync.PlanPackage | tools/sync_version.py:286-299 | fails or plans exactly the file whose tree has the one version edited |
| JsonSync.PlanLock | tools/sync_version.py:287-306 | fails or plans exactly the file whose tree has both versions edited; fails exactly if one of them is no string |
| JsonSync.PackageContentIsStable | tools/sync_version.py:281-299 | the planned package.json reads as the edited tree, and planning it again changes nothing |
| JsonSync.LockContentIsStable | tools/sync_version.py:281-306 | the same for package-lock.json with its two values |
| AtomicReplace.ReplaceEach | tools/sync_version.py:247-249 | at every failure the recorded files are new, the others old, and all are backed up |
| AtomicReplace.RollBack | tools/sync_version.py:262-266 | an interrupt leaves the first files as they are; every file that stays new has its old bytes in its backup, and every other one is old |
| AtomicReplace.CleanedUpEnds | tools/sync_version.py:273-278 | no failure of the cleaning up can spoil what the run ended with |
| AtomicReplace.LostExactlyIf | tools/sync_version.py:260-278 | without a commit all files are old if and only if every replaced one was put back; and once the backups are gone, nothing is lost if and only if that is so |
| AtomicReplace.InterruptedRollbackLoses | tools/sync_version.py:262-278 | a run of the method in which interrupts come after the last replace and into the rollback: all files are new, and their old bytes are gone |
| AtomicReplace.ReplaceAll | tools/sync_version.py:216-278 | it returns if and only if nothing is left of an earlier run and every operation works, and then all files are new; a rollback error: nothing lost; otherwise all old, and nothing lost after the cleaning up, if and only if no interrupt came between a replace and its record or into the rollback; residual files refuse the run |
| DependencyGraph.SortedHasNoCycle | src/governance-contract.ts:147-149 | modules listed with all their dependencies before them have no cycle |
| DependencyGraph.DependencyCheck.Visit | src/governance-contract.ts:148 | terminates; returns with the module and all it depends on visited, and throws only on a cycle |
| DependencyGraph.Known | src/governance-contract.ts:146 | accepts exactly lists of known modules |
| DependencyGraph.CheckDependencies | src/governance-contract.ts:145-149 | in any order of the modules: accepts exactly if every dependency is known and there is no cycle |
| SemVer.CompareSemver | src/installer/version.ts:3-10 | 1, -1 and 0 exactly by section 11 of Semantic Versioning 2.0.0: the numbers from the left, a release above its pre-releases, identifiers by the first that differ, numbers by value and below texts, texts by character code, a proper prefix below; only numerals with leading zeros tie |
| SemVer.SemverCmp | tools/release_check.py:687-717 | the same by section 11, with ties the other way |
| SemVer.CompareIsAntisymmetric | src/installer/version.ts:3-10 | on everything the installer's pattern accepts: antisymmetric, and equal to the release tools' answer, if and only if no two differently spelled equal numbers decide; zero exactly on equal versions |
| SemVer.PrecedenceIsATotalOrder | src/installer/version.ts:3-10 | on versions of the SemVer grammar precedence is a total order, the same in both tools |
| SemVer.LeadingZeroTie | src/installer/version.ts:8 | 1.0.0-01 and 1.0.0-1 are each greater than the other |
| SemVer.ValueGrows | src/installer/version.ts:8 | of two numerals without leading zeros the longer one is greater, and of equally long ones the later one |
| SemVer.TargetsNeverGoBack | tools/prepare_release.py:32-47 | a target is the current version again or strictly greater; every bump of a stable version is accepted and strictly greater |
| SemVer.TargetsExactly | tools/prepare_release.py:32-47 | an explicit target is taken if and only if it is the current version or has higher precedence; a bump exactly of a version without pre-release, to the next patch, minor or major version |
| LabelPlan.CheckNames | src/work-items.ts:222-248 | passes exactly if all classifications are known and distinct and no name or alias occurs twice |
| LabelPlan.BuildPlan | src/work-items.ts:319-360 | one entry per projection in order, then one per remaining label; each says CREATE, CONFLICT, UPDATE or NOOP, CANDIDATE or UNMANAGED exactly where the label's presence, management, colour, description and the aliases call for it |
| LabelPlan.PlanSays | src/work-items.ts:325-357 | which action each entry of a plan has, as conditions on the labels and projections alone |
| LabelPlan.RestIsOnePerLabel | src/work-items.ts:347-357 | every label that no projection names has exactly one entry behind those of the projections, every other one none |
| LabelPlan.AppliedPlanIsQuiet | src/work-items.ts:329-345 | after CREATE and UPDATE are carried out a new plan has neither, conflicts stay, and no other label changes |
| LabelPlan.WellNamedIsDistinct | src/work-items.ts:233-239 | parsed projections have distinct names |
| Changelog.ParseIsExact | tools/prepare_release.py:57-68 | splitting at headings loses no line |
| Changelog.ParseReadsBack | tools/prepare_release.py:57-68 | the text of proper sections splits into these sections |
| ChangelogText.VersionsAreRead | tools/sync_version.py:16-21 | every version has the shape a heading asks for, one spelling of its numbers, and no bracket |
| ChangelogGrammar.VersionsExactly | tools/sync_version.py:16-21 | a text is read as a version if and only if it spells its parts as sections 2, 9 and 10 of Semantic Versioning 2.0.0 put them together, and as exactly these parts |
| ChangelogGrammar.DatesExactly | tools/release_check.py:660-684 | a date is accepted if and only if it writes out a day of the calendar |
| ChangelogGrammar.HeadingsExactly | tools/release_check.py:39 | a heading is read if and only if it is put together from hash signs, spaces, a bracketed version and, behind a dash, a date |
| ChangelogGrammar.CategoriesExactly | tools/release_check.py:41 | a category line is found with its whole word, and nothing else is |
| ChangelogGrammar.MarkersExactly | tools/release_check.py:37 | a marker is found exactly where the mark, in any case, and its answer stand |
| ChangelogGrammar.AllAreFound | tools/release_check.py:37 | searching on behind each marker misses none, since none begins inside another |
| ChangelogGrammar.EntriesExactly | tools/release_check.py:38 | there is a breaking entry exactly if some line holds one |
| ChangelogGrammar.LinksExactly | tools/release_check.py:43 | a release link is found exactly where a bracketed version, a colon and an address stand |
| ChangelogText.RenderedIsRead | tools/release_check.py:39 | the heading a cut writes reads back as its version and date |
| ChangelogText.OneMarker | tools/release_check.py:37 | a text with one marker line and no other star has one marker, which says none |
| ChangelogText.WordIsCategory | tools/release_check.py:41 | a canonical category line is found by the pattern, with its word |
| Changelog.StrippedHasSameCategories | tools/release_check.py:325-337 | stripping a body changes no category where every indented line is no heading |
| ChangelogText.LinkBeforeHeading | tools/release_check.py:43 | a link that begins before the Unreleased heading does not depend on what follows it |
| Changelog.CheckReleases | tools/release_check.py:633-657 | passes exactly if every release is valid and older than the one before, and no version occurs twice |
| Changelog.CheckSections | tools/release_check.py:567-684 | gives the date of the current release exactly for the changelogs that are valid for the version |
| Changelog.ValidExactlyIfSound | tools/release_check.py:567-684 | valid are exactly the changelogs with one Unreleased section, complete and before all versions, the current version first, dated and complete, every section in order, and every version newer than all after it |
| ChangelogSections.SectionExactly | tools/release_check.py:600-632 | a section is in order exactly if its category lines are known ones and its first marker says none, or present beside a breaking entry in some line |
| ChangelogSections.UnreleasedExactly | tools/release_check.py:600-632 | the Unreleased section exactly if it has, besides, the four categories that must be there |
| ChangelogSections.CutSectionExactly | tools/prepare_release.py:63-77 | a cut takes a section exactly if its category lines are written out, known, none twice, with one marker |
| Changelog.InsertedKeepsLinks | tools/release_check.py:578 | lines put in after the Unreleased heading, none opening with a bracket, bring no release link and take none away |
| Changelog.CutChangelog | tools/prepare_release.py:50-88 | succeeds exactly on cuttable sources; the result is the source, for a repeated cut, or the text of the cut sections |
| Changelog.CutIsValid | tools/release_check.py:567-684 | a changelog that can be cut is, once cut, valid for a greater target with a calendar date, if and only if it has no release links or the target is tagged |
| Changelog.CutIsStable | tools/prepare_release.py:78-88 | the old Unreleased body and the whole history are kept line for line; the result can be cut again for the target under the same condition, and is then unchanged |

## Left out

- Bytes and encodings: texts are decoded strings, UTF-8 validity and its errors are not modelled; JSON and TOML encodings of receipts, metadata and checkpoints are parameters that read back what they wrote; SHA-256 is a parameter, and no proof needs it to be injective except where `InstallationStates.DigestTells` says so for the one release a run brings.
- Names: UUIDs are fresh values, identities of directories and inodes are not modelled, and paths are taken to be canonical, without symbolic links and with sufficient rights.
- The native file system: partial writes, fsync and the order in which directories reach the disk; a primitive happens entirely or not at all.
- Foreign edits of the entry, the metadata or the rules during a run; the source's re-reads are modelled, and without such edits only an I/O error makes them fail.
- The staged copy of a release is one step, and verification of a release is a value kept with its directory; the release's own local rules file, if it ships one, is put in place with it.
- Formats of receipt fields (UUID, hexadecimal digests, path prefixes) and the place of the local rules inside a release, taken to be the same in every release.
- Signals, dry runs, reports, capabilities and the plan's resource list of the installer.
- Checkpoint contents beyond effects: projections, identities, evidence references and their limits are one `rest` value; TOON projections, `flush` and `evidenceReference`.
- Nothing stops a process of the store's protocol from waiting for ever; what is claimed of progress (`ResumeProgress`) is of a process that runs while the others stand still.
- JsonParser.ReadLayout: `json.loads` runs before it in the source; it accepts no object that the layout parser refuses other than one with duplicate keys, and other values are refused here by their first character. Decoding of string literals is a parameter, so equal keys are equal decoded strings.
- JSON numbers are not given a value, and recursion depth is unbounded.
- AtomicReplace.ReplaceAll: file identities are not modelled; that a file is no longer the planned one is a possible failure at each check.
- InstallLock.MutualExclusion: only runs with at most one reclaiming process and timely judgements, beyond which it is false; process ids are not reused, and creating and reading back the owner file are one step.
- The lock is modelled as steps of processes, not as a class: what matters about it is their interleaving.
- Versions are parsed values with unbounded integers and no build metadata; only `ChangelogText` reads them from texts.
- LabelPlan.BuildPlan: the sorted listings of projections and label names are inputs; with distinct aliases the order in which aliases are collected does not matter. Title markers, colours' format and the reading of TOML are left out.
- Changelog.CutChangelog: a changelog is its lines, divided at LF only, where Python's `splitlines` knows more line ends; digits and word characters are the ASCII ones, and with others the source refuses at a later check. Whether a version is tagged is an input. Citation checks are left out.
- Replacement.ReplaceInstallation: that the user's own text is the original without its managed envelope is left to the caller; checks of the source installation before the run are left out.
- The wizard, prompts, themes, tool preparation, network and registry code, signature checks, catalogs and routing.
