/** Installing, updating and uninstalling as one write-ahead transaction: src/transaction.ts. */
module Transaction {
  import opened Wrappers
  import opened Installation
  import opened FileSystem
  import opened Recovery
  import opened TransactionPlan
  import opened InstallationStates
  import TextSearch
  import ManagedBlock

  /** `Failed`: an error was thrown, without a restore. `Undone`: the run failed and was restored
      in process. `Stopped`: the process died. */
  datatype Outcome = Succeeded | Failed | Undone | RollbackFailed | Stopped

  // ---- Before the receipt: the backup directory and the staged release ----

  ghost predicate OnlyBackups(id: string, d: Disk, d': Disk) {
    && d'.releases == d.releases && d'.staged == d.staged
    && forall p: Path :: !(p.Backup? && p.id == id && p.name != ReceiptJson) ==> Get(d', p) == Get(d, p)
  }

  method KeepImage(fs: FileStore, id: string, name: BackupName, absent: BackupName, image: Option<Bytes>) returns (e: Effect)
    requires name != ReceiptJson && absent != ReceiptJson
    requires Get(fs.disk, Backup(id, name)).None? && Get(fs.disk, Backup(id, absent)).None?
    modifies fs
    ensures OnlyBackups(id, old(fs.disk), fs.disk)
    ensures forall n :: n != name && n != absent ==> Get(fs.disk, Backup(id, n)) == Get(old(fs.disk), Backup(id, n))
    ensures e.Done? ==> Kept(fs.disk, id, name, absent, image)
    ensures fs.Told(e, old(fs.clock)) && fs.Took(e, old(fs.clock), 2)
    ensures e.Thrown? ==> e == Thrown(Io)
  {
    match image {
      case Some(b) => e := fs.AtomicCreate(Backup(id, name), b);
      case None => e := fs.AtomicCreate(Backup(id, absent), ABSENT);
    }
  }

  method KeepRules(fs: FileStore, id: string, name: BackupName, image: Option<Bytes>) returns (e: Effect)
    requires name != ReceiptJson && Get(fs.disk, Backup(id, name)).None?
    modifies fs
    ensures OnlyBackups(id, old(fs.disk), fs.disk)
    ensures forall n :: n != name ==> Get(fs.disk, Backup(id, n)) == Get(old(fs.disk), Backup(id, n))
    ensures e.Done? && image.Some? ==> Get(fs.disk, Backup(id, name)) == image
    ensures fs.Told(e, old(fs.clock)) && fs.Took(e, old(fs.clock), if image.Some? then 2 else 0)
    ensures e.Thrown? ==> e == Thrown(Io)
  {
    e := Done;
    if image.Some? {
      e := fs.AtomicCreate(Backup(id, name), image.value);
    }
  }

  /** How many operations it takes to write and read the backups. */
  function BackupSteps(plan: Plan): nat {
    12 + (if plan.rules.Some? then 2 else 0) + if RulesPrevious(plan).Some? then 2 else 0
  }

  method WriteBackups(fs: FileStore, plan: Plan) returns (e: Effect)
    requires forall name :: Get(fs.disk, Backup(plan.id, name)).None?
    modifies fs
    ensures OnlyBackups(plan.id, old(fs.disk), fs.disk)
    ensures e.Done? ==> BackupWritten(plan, fs.disk)
    ensures fs.Told(e, old(fs.clock)) && fs.Took(e, old(fs.clock), BackupSteps(plan))
    ensures e.Thrown? ==> e == Thrown(Io)
  {
    hide Get, Count;
    e := KeepFirst(fs, plan);
    if !e.Done? {
      return;
    }
    :- KeepRest(fs, plan);
    e := ReadBackups(fs, plan);
  }

  const REST := {CurrentApplied, CurrentAppliedAbsent, LocalRulesApplied, LocalRulesBin}

  method KeepFirst(fs: FileStore, plan: Plan) returns (e: Effect)
    requires forall name :: Get(fs.disk, Backup(plan.id, name)).None?
    modifies fs
    ensures OnlyBackups(plan.id, old(fs.disk), fs.disk)
    ensures forall name :: name in REST ==> Get(fs.disk, Backup(plan.id, name)).None?
    ensures e.Done? ==> Kept(fs.disk, plan.id, EntryBin, EntryAbsent, plan.entryBefore)
    ensures e.Done? ==> Kept(fs.disk, plan.id, CurrentJson, CurrentAbsent, plan.currentBefore)
    ensures e.Done? ==> Get(fs.disk, Backup(plan.id, EntryApplied)) == Some(plan.entryApplied)
    ensures fs.Told(e, old(fs.clock)) && fs.Took(e, old(fs.clock), 6)
    ensures e.Thrown? ==> e == Thrown(Io)
  {
    hide Get, Count;
    var id := plan.id;
    :- KeepImage(fs, id, EntryBin, EntryAbsent, plan.entryBefore);
    :- KeepImage(fs, id, CurrentJson, CurrentAbsent, plan.currentBefore);
    e := KeepRules(fs, id, EntryApplied, Some(plan.entryApplied));
  }

  method KeepRest(fs: FileStore, plan: Plan) returns (e: Effect)
    requires forall name :: name in REST ==> Get(fs.disk, Backup(plan.id, name)).None?
    modifies fs
    ensures OnlyBackups(plan.id, old(fs.disk), fs.disk)
    ensures forall name :: name !in REST ==> Get(fs.disk, Backup(plan.id, name)) == Get(old(fs.disk), Backup(plan.id, name))
    ensures e.Done? ==> Kept(fs.disk, plan.id, CurrentApplied, CurrentAppliedAbsent, plan.currentApplied)
    ensures e.Done? && plan.rules.Some? ==> Get(fs.disk, Backup(plan.id, LocalRulesApplied)) == RulesSource(plan)
    ensures e.Done? && RulesPrevious(plan).Some? ==> Get(fs.disk, Backup(plan.id, LocalRulesBin)) == RulesPrevious(plan)
    ensures fs.Told(e, old(fs.clock)) && fs.Took(e, old(fs.clock), BackupSteps(plan) - 10)
    ensures e.Thrown? ==> e == Thrown(Io)
  {
    hide Get, Count;
    var id := plan.id;
    :- KeepImage(fs, id, CurrentApplied, CurrentAppliedAbsent, plan.currentApplied);
    :- KeepRules(fs, id, LocalRulesApplied, RulesSource(plan));
    e := KeepRules(fs, id, LocalRulesBin, RulesPrevious(plan));
  }

  /** The backups are read again before anything depends on them. */
  method ReadBackups(fs: FileStore, plan: Plan) returns (e: Effect)
    requires BackupWritten(plan, fs.disk)
    modifies fs`clock
    ensures fs.Told(e, old(fs.clock)) && fs.Took(e, old(fs.clock), 4)
    ensures e.Thrown? ==> e == Thrown(Io)
  {
    var id := plan.id;
    :- fs.Expect(Backup(id, EntryApplied), Some(plan.entryApplied), Refused);
    if plan.entryBefore.Some? {
      :- fs.Expect(Backup(id, EntryBin), plan.entryBefore, Refused);
    } else {
      :- fs.Expect(Backup(id, EntryAbsent), Some(ABSENT), Refused);
    }
    if plan.currentBefore.Some? {
      :- fs.Expect(Backup(id, CurrentJson), plan.currentBefore, Refused);
    } else {
      :- fs.Expect(Backup(id, CurrentAbsent), Some(ABSENT), Refused);
    }
    e := fs.Attempt();
  }

  /** A release that is there is the one to be installed. */
  predicate ReleaseFits(s: Setting, plan: Plan, d: Disk) {
    plan.releaseExisted ==> ReleaseInPlace(s, plan, d)
  }

  function PrepareSteps(plan: Plan): nat {
    if plan.releaseExisted || plan.operation == Uninstall then 1 else 3
  }

  /** An installed release must be the one to install; a new one is staged, except to uninstall. */
  method PrepareRelease(fs: FileStore, s: Setting, plan: Plan) returns (e: Effect)
    requires plan.release == s.release.version && (plan.releaseExisted <==> plan.release in fs.disk.releases)
    modifies fs
    ensures fs.disk.files == old(fs.disk).files && fs.disk.releases == old(fs.disk).releases
    ensures e.Done? && plan.releaseExisted ==>
      Verified(fs.disk, plan.release).Some? && Verified(fs.disk, plan.release).value.bundleDigest == s.release.bundleDigest
    ensures e.Done? && !plan.releaseExisted && plan.operation != Uninstall ==>
      plan.id in fs.disk.staged && fs.disk.staged[plan.id] == s.release
    ensures fs.Told(e, old(fs.clock)) && fs.Took(e, old(fs.clock), PrepareSteps(plan))
    ensures e.Thrown? && e != Thrown(Io) ==> !ReleaseFits(s, plan, old(fs.disk))
    ensures e.Done? ==> ReleaseFits(s, plan, old(fs.disk))
  {
    e := fs.Attempt();
    if !e.Done? {
      return;
    }
    if plan.releaseExisted {
      var installed := Verified(fs.disk, plan.release);
      if installed.None? || installed.value.bundleDigest != s.release.bundleDigest {
        return Thrown(Refused);
      }
    } else if plan.operation != Uninstall {
      :- fs.StageRelease(plan.id, s.release);
    }
    e := Done;
  }

  // ---- The receipt ----

  /** The disk on which a plan was made. */
  ghost predicate PlannedOn(s: Setting, plan: Plan, d0: Disk) {
    && PlanFits(s, plan) && plan.release == s.release.version
    && (plan.releaseExisted <==> plan.release in d0.releases)
    && plan.entryBefore == Get(d0, Entry) && plan.currentBefore == Get(d0, Current)
    && (plan.rules.Some? ==> RulesPrevious(plan) == Get(d0, LocalRules(plan.release)))
    && Unused(plan.id, d0)
  }

  /** In flight, neither committed nor restored: nothing was moved aside. */
  ghost predicate Running(s: Setting, plan: Plan, d0: Disk, d: Disk) {
    InTransaction(s, plan, d0, d, Pair(Prepared, Prepared), NO_GAP) && Get(d, Detached(plan.id)).None?
  }

  ghost predicate Left(s: Setting, plan: Plan, d0: Disk, d: Disk, gap: Gap) {
    Untouched(plan.id, d0, d) || Reached(s, plan, d0, d, gap)
  }

  /** The images are still those of the disk the plan was made on. */
  ghost predicate AtStart(plan: Plan, d0: Disk, d: Disk) {
    && Get(d, Entry) == plan.entryBefore && Get(d, Current) == plan.currentBefore
    && Get(d, LocalRules(plan.release)) == Get(d0, LocalRules(plan.release))
    && d.releases == d0.releases
  }

  /** Both receipts, the backup's first. Until the top one is there, nothing has happened. */
  method Announce(fs: FileStore, s: Setting, plan: Plan, ghost d0: Disk) returns (e: Effect)
    requires PlannedOn(s, plan, d0) && Untouched(plan.id, d0, fs.disk) && BackupWritten(plan, fs.disk)
    requires Get(fs.disk, Backup(plan.id, ReceiptJson)).None?
    modifies fs
    ensures fs.disk.staged == old(fs.disk).staged
    ensures Untouched(plan.id, d0, fs.disk) || (Running(s, plan, d0, fs.disk) && AtStart(plan, d0, fs.disk))
    ensures e.Done? ==> Running(s, plan, d0, fs.disk) && AtStart(plan, d0, fs.disk)
    ensures fs.Told(e, old(fs.clock)) && fs.Took(e, old(fs.clock), 4)
    ensures e.Thrown? ==> e == Thrown(Io)
  {
    hide Get, Put, BackupWritten, PlanFits;
    var prepared := s.renderReceipt(ReceiptOf(s, plan, Prepared));
    ghost var before := fs.disk;
    PutChangesOne(before, Backup(plan.id, ReceiptJson), prepared);
    :- fs.AtomicCreate(Backup(plan.id, ReceiptJson), prepared);
    BackupsStay(plan, before, fs.disk);
    before := fs.disk;
    var previous := Get(fs.disk, Top);
    if previous.None? {
      e := fs.AtomicCreate(Top, prepared);
    } else {
      e := fs.AtomicWrite(Top, prepared, previous.value);
    }
    PutChangesOne(before, Top, prepared);
    if fs.disk == Put(before, Top, prepared) {
      NowRunning(s, plan, d0, before, fs.disk);
    }
  }

  lemma NowRunning(s: Setting, plan: Plan, d0: Disk, d: Disk, d': Disk)
    requires PlannedOn(s, plan, d0) && Untouched(plan.id, d0, d) && BackupWritten(plan, d)
    requires Get(d, Backup(plan.id, ReceiptJson)) == Some(s.renderReceipt(ReceiptOf(s, plan, Prepared)))
    requires d' == Put(d, Top, s.renderReceipt(ReceiptOf(s, plan, Prepared)))
    ensures Running(s, plan, d0, d') && AtStart(plan, d0, d')
  {
    hide Get, Put, DigestOf, BackupWritten, PlanFits;
    var prepared := ReceiptOf(s, plan, Prepared);
    PutChangesOne(d, Top, s.renderReceipt(prepared));
    BackupsStay(plan, d, d');
    assert prepared.(status := Prepared) == prepared;
  }

  /** A run that brings a release and writes local rules into it, stopped as soon as its receipts are
      in place: the backups are there, every check before the restore passes, and the last one refuses. */
  lemma NewRulesAreMissed(s: Setting, plan: Plan, d0: Disk, d: Disk)
    requires PlannedOn(s, plan, d0) && Running(s, plan, d0, d) && AtStart(plan, d0, d)
    requires plan.rules.Some? && !plan.releaseExisted && RulesPrevious(plan) != RulesSource(plan)
    ensures var r := ReceiptOf(s, plan, Prepared);
      && CopiesPresent(d, r) && ReadSnapshot(s, d, r) == Success(SnapshotOf(plan))
      && Admitted(SnapshotOf(plan), d, r, false, false)
      && RulesMissing(plan, d, false) && !Restorable(s, d, r, false, false)
  {
    hide Get, DigestOf, Unused;
    BackupsProveTheReceipt(s, plan, d, Prepared);
    RestorableExactly(s, plan, d0, d, Pair(Prepared, Prepared), Prepared, NO_GAP, false);
  }

  // ---- The steps of the mutation ----

  ghost predicate OnlyPath(p: Path, d: Disk, d': Disk) {
    && d'.releases == d.releases && d'.staged == d.staged
    && forall q :: q != p ==> Get(d', q) == Get(d, q)
  }

  /** A step that gives one path one of its two images keeps the run going. */
  lemma StepKeepsRunning(s: Setting, plan: Plan, d0: Disk, d: Disk, d': Disk, p: Path)
    requires Running(s, plan, d0, d) && OnlyPath(p, d, d')
    requires p == Entry || p == Current || p == LocalRules(plan.release)
    requires p == Entry ==> OneOf(Get(d', Entry), plan.entryBefore, Some(plan.entryApplied))
    requires p == Current ==> OneOf(Get(d', Current), plan.currentBefore, plan.currentApplied)
    requires p == LocalRules(plan.release) && plan.releaseExisted ==>
      plan.rules.Some? && OneOf(Get(d', p), RulesPrevious(plan), RulesSource(plan))
    ensures Running(s, plan, d0, d')
  {
    hide Get, DigestOf, BackupWritten;
    BackupsStay(plan, d, d');
  }

  /** The write takes effect, and then reports an error. */
  predicate WrittenThenFails(events: nat -> Event, at: nat) {
    events(at) == Fine && events(at + 1) == Fails
  }

  /** Creates or replaces one file, by its image before. */
  method WriteImage(fs: FileStore, p: Path, before: Option<Bytes>, applied: Bytes) returns (e: Effect)
    modifies fs
    ensures OnlyPath(p, old(fs.disk), fs.disk)
    ensures Get(fs.disk, p) == Get(old(fs.disk), p) || Get(fs.disk, p) == Some(applied)
    ensures e.Done? ==> Get(fs.disk, p) == Some(applied)
    ensures e == Thrown(Concurrent) ==> before.None? && fs.disk == old(fs.disk)
    ensures fs.Told(e, old(fs.clock)) && fs.Took(e, old(fs.clock), 2)
    ensures e.Thrown? && e != Thrown(Io) ==> Get(old(fs.disk), p) != before
    ensures e.Done? ==> Get(old(fs.disk), p) == before
    ensures e.Thrown? && e != Thrown(Io) ==> fs.disk == old(fs.disk)
    ensures before.Some? && Get(old(fs.disk), p) == before && WrittenThenFails(fs.events, old(fs.clock)) ==>
      e == Thrown(Io) && Get(fs.disk, p) == Some(applied) && fs.clock == old(fs.clock) + 2
  {
    match before {
      case None => e := fs.AtomicCreate(p, applied);
      case Some(b) => e := fs.AtomicWrite(p, applied, b);
    }
  }

  /** The entry is written under the ownership of its inspected file: any failure of that write
      counts as a concurrent change. */
  method WriteEntry(fs: FileStore, s: Setting, plan: Plan, ghost d0: Disk) returns (e: Effect)
    requires Running(s, plan, d0, fs.disk) && Get(fs.disk, Entry) == plan.entryBefore
    modifies fs
    ensures Running(s, plan, d0, fs.disk) && OnlyPath(Entry, old(fs.disk), fs.disk)
    ensures e.Done? ==> Get(fs.disk, Entry) == Some(plan.entryApplied)
    ensures e == Thrown(Concurrent) ==> Get(fs.disk, Entry) == plan.entryBefore || (fs.Faults() > old(fs.Faults()) && plan.entryBefore.Some?)
    ensures plan.entryBefore.Some? && WrittenThenFails(fs.events, old(fs.clock)) ==>
      e == Thrown(Concurrent) && Get(fs.disk, Entry) == Some(plan.entryApplied) && fs.clock == old(fs.clock) + 2
    ensures fs.Told(e, old(fs.clock)) && fs.Took(e, old(fs.clock), 2)
    ensures e.Thrown? ==> fs.Faults() > old(fs.Faults())
    ensures plan.entryBefore.Some? && e.Thrown? ==> e == Thrown(Concurrent)
  {
    hide Running;
    e := WriteImage(fs, Entry, plan.entryBefore, plan.entryApplied);
    if e.Thrown? && plan.entryBefore.Some? {
      e := Thrown(Concurrent);
    }
    StepKeepsRunning(s, plan, d0, old(fs.disk), fs.disk, Entry);
  }

  method WriteCurrent(fs: FileStore, s: Setting, plan: Plan, ghost d0: Disk) returns (e: Effect)
    requires Running(s, plan, d0, fs.disk) && Get(fs.disk, Current) == plan.currentBefore && plan.currentApplied.Some?
    modifies fs
    ensures Running(s, plan, d0, fs.disk) && OnlyPath(Current, old(fs.disk), fs.disk)
    ensures e.Done? ==> Get(fs.disk, Current) == plan.currentApplied
    ensures fs.Told(e, old(fs.clock)) && fs.Took(e, old(fs.clock), 2)
    ensures e.Thrown? ==> e == Thrown(Io)
  {
    hide Running;
    e := WriteImage(fs, Current, plan.currentBefore, plan.currentApplied.value);
    StepKeepsRunning(s, plan, d0, old(fs.disk), fs.disk, Current);
  }

  method RemoveCurrent(fs: FileStore, s: Setting, plan: Plan, ghost d0: Disk) returns (e: Effect)
    requires Running(s, plan, d0, fs.disk) && Get(fs.disk, Current) == plan.currentBefore && plan.currentBefore.Some? && plan.currentApplied.None?
    modifies fs
    ensures Running(s, plan, d0, fs.disk) && OnlyPath(Current, old(fs.disk), fs.disk)
    ensures e.Done? ==> Get(fs.disk, Current).None?
    ensures e.Thrown? ==> e == Thrown(Io)
    ensures fs.Told(e, old(fs.clock))
  {
    hide Running;
    e := fs.AtomicRemove(Current, plan.currentBefore.value);
    assert OnlyPath(Current, old(fs.disk), fs.disk) && (Get(fs.disk, Current).None? || fs.disk == old(fs.disk));
    StillInFlight(s, plan, d0, old(fs.disk));
    StepKeepsRunning(s, plan, d0, old(fs.disk), fs.disk, Current);
  }

  lemma StillInFlight(s: Setting, plan: Plan, d0: Disk, d: Disk)
    requires Running(s, plan, d0, d)
    ensures OneOf(Get(d, Current), plan.currentBefore, plan.currentApplied)
    ensures OneOf(Get(d, Entry), plan.entryBefore, Some(plan.entryApplied))
  {
    hide Get, BackupWritten;
  }

  /** The staged release goes into place, with the local rules it ships. */
  method ActivateRelease(fs: FileStore, s: Setting, plan: Plan, ghost d0: Disk) returns (e: Effect)
    requires Running(s, plan, d0, fs.disk) && PlannedOn(s, plan, d0) && fs.disk.releases == d0.releases
    requires !plan.releaseExisted ==> plan.id in fs.disk.staged && fs.disk.staged[plan.id] == s.release
    modifies fs
    ensures Running(s, plan, d0, fs.disk)
    ensures forall p :: p != LocalRules(plan.release) ==> Get(fs.disk, p) == Get(old(fs.disk), p)
    ensures plan.releaseExisted || s.shipped.None? ==> Get(fs.disk, LocalRules(plan.release)) == Get(old(fs.disk), LocalRules(plan.release))
    ensures e.Done? && !plan.releaseExisted ==> Verified(fs.disk, plan.release) == Some(s.release)
    ensures plan.releaseExisted ==> fs.disk.releases == old(fs.disk).releases
    ensures e.Thrown? ==> e == Thrown(Io)
    ensures e.Done? && !plan.releaseExisted && s.shipped.Some? ==> Get(fs.disk, LocalRules(plan.release)) == s.shipped
    ensures fs.Told(e, old(fs.clock)) && fs.Took(e, old(fs.clock), if plan.releaseExisted then 1 else 2)
  {
    if plan.releaseExisted {
      e := fs.Attempt();
    } else {
      ghost var before := fs.disk;
      e := fs.ActivateRelease(plan.id, plan.release, s.shipped);
      if fs.disk != before {
        ActivationKeepsRunning(s, plan, d0, before, fs.disk);
      }
    }
  }

  lemma ActivationKeepsRunning(s: Setting, plan: Plan, d0: Disk, d: Disk, d': Disk)
    requires Running(s, plan, d0, d) && PlannedOn(s, plan, d0) && d.releases == d0.releases && !plan.releaseExisted
    requires plan.id in d.staged && d.staged[plan.id] == s.release && d' == Activated(d, plan.id, plan.release, s.shipped)
    ensures Running(s, plan, d0, d')
    ensures forall p :: p != LocalRules(plan.release) ==> Get(d', p) == Get(d, p)
    ensures s.shipped.None? ==> Get(d', LocalRules(plan.release)) == Get(d, LocalRules(plan.release))
    ensures Verified(d', plan.release) == Some(s.release)
  {
    hide Get, Activated, DigestOf, BackupWritten, PlanFits;
    ActivationChanges(d, plan.id, plan.release, s.shipped);
    BackupsStay(plan, d, d');
  }

  /** Every image of the plan is in place and the result verifies. */
  predicate Checked(s: Setting, plan: Plan, d: Disk) {
    && Get(d, Entry) == Some(plan.entryApplied) && Get(d, Current) == plan.currentApplied
    && (plan.rules.Some? ==> Get(d, LocalRules(plan.release)) == RulesSource(plan))
    && if plan.operation == Uninstall then ManagedBlock.Remove(s.wording, plan.entryApplied) == Success(plan.entryApplied)
       else
         && ManagedBlock.Verify(s.wording, plan.entryApplied, BuildBinding(s.release, s.installationRoot))
         && Verified(d, plan.release).Some?
         && RulesReadable(s, d, plan.release)
  }

  /** Besides, the release is the one that was to be installed. */
  predicate Applied(s: Setting, plan: Plan, d: Disk) {
    && Checked(s, plan, d)
    && (plan.operation != Uninstall ==> ReleaseInPlace(s, plan, d))
  }

  /** What the run relies on when it starts to change things. */
  ghost predicate Ready(s: Setting, plan: Plan, d0: Disk, d: Disk) {
    && PlannedOn(s, plan, d0) && Running(s, plan, d0, d) && AtStart(plan, d0, d)
    && (plan.operation == Uninstall ==> plan.entryBefore.Some? && plan.currentBefore.Some? && plan.rules.None?)
    && (plan.releaseExisted && plan.operation != Uninstall ==>
          Verified(d0, plan.release).Some? && Verified(d0, plan.release).value.bundleDigest == s.release.bundleDigest)
    && (!plan.releaseExisted && plan.operation != Uninstall ==> plan.id in d.staged && d.staged[plan.id] == s.release)
  }

  predicate ReleaseInPlace(s: Setting, plan: Plan, d: Disk) {
    Verified(d, plan.release).Some? && Verified(d, plan.release).value.bundleDigest == s.release.bundleDigest
  }

  ghost predicate RulesInPlace(plan: Plan, d: Disk) {
    plan.rules.Some? ==> Get(d, LocalRules(plan.release)) == RulesSource(plan)
  }

  /** The order of an install: no new metadata before the rules, no new entry before both. */
  ghost predicate InstallOrder(plan: Plan, d: Disk) {
    && (Get(d, Current) == plan.currentBefore || RulesInPlace(plan, d))
    && (Get(d, Entry) == plan.entryBefore || (Get(d, Current) == plan.currentApplied && RulesInPlace(plan, d)))
  }

  /** The order of an uninstall: the metadata stays until the block is out of the entry. */
  ghost predicate UninstallOrder(plan: Plan, d: Disk) {
    Get(d, Current) == plan.currentBefore || Get(d, Entry) == Some(plan.entryApplied)
  }

  method WriteRules(fs: FileStore, s: Setting, plan: Plan, ghost d0: Disk) returns (e: Effect)
    requires Running(s, plan, d0, fs.disk) && plan.rules.Some?
    requires plan.releaseExisted ==> Get(fs.disk, LocalRules(plan.release)) == RulesPrevious(plan)
    modifies fs
    ensures Running(s, plan, d0, fs.disk) && OnlyPath(LocalRules(plan.release), old(fs.disk), fs.disk)
    ensures e.Done? ==> Get(fs.disk, LocalRules(plan.release)) == RulesSource(plan)
    ensures fs.Told(e, old(fs.clock)) && fs.Took(e, old(fs.clock), 2)
    ensures e.Thrown? && e != Thrown(Io) ==> Get(old(fs.disk), LocalRules(plan.release)) != RulesPrevious(plan)
    ensures e.Done? ==> Get(old(fs.disk), LocalRules(plan.release)) == RulesPrevious(plan)
  {
    hide Running;
    e := WriteImage(fs, LocalRules(plan.release), RulesPrevious(plan), plan.rules.value.source);
    StepKeepsRunning(s, plan, d0, old(fs.disk), fs.disk, LocalRules(plan.release));
  }

  // ---- When a run gets through ----

  /** The local rules once the release is in place, before the run writes its own. */
  function RulesActivated(s: Setting, plan: Plan, d: Disk): Option<Bytes> {
    if plan.releaseExisted || s.shipped.None? then Get(d, LocalRules(plan.release)) else s.shipped
  }

  /** A new release does not bring rules where the run is to write others. */
  predicate RulesFit(s: Setting, plan: Plan, d: Disk) {
    plan.operation != Uninstall && plan.rules.Some? ==> RulesActivated(s, plan, d) == RulesPrevious(plan)
  }

  function RulesAtEnd(s: Setting, plan: Plan, d: Disk): Option<Bytes> {
    if plan.rules.Some? then RulesSource(plan) else RulesActivated(s, plan, d)
  }

  /** The new entry verifies, and the local rules beside it can be read; or the block is out. */
  predicate ResultVerifies(s: Setting, plan: Plan, d: Disk) {
    if plan.operation == Uninstall then ManagedBlock.Remove(s.wording, plan.entryApplied) == Success(plan.entryApplied)
    else
      && ManagedBlock.Verify(s.wording, plan.entryApplied, BuildBinding(s.release, s.installationRoot))
      && (RulesAtEnd(s, plan, d).Some? ==> s.canonical(RulesAtEnd(s, plan, d).value))
  }

  /** What a run needs of the disk it is planned on, to change the entry. */
  predicate ReachesEntry(s: Setting, plan: Plan, d: Disk) {
    ReleaseFits(s, plan, d) && RulesFit(s, plan, d)
  }

  /** And to be committed. */
  predicate WillSucceed(s: Setting, plan: Plan, d: Disk) {
    ReachesEntry(s, plan, d) && ResultVerifies(s, plan, d)
  }

  /** How many operations come before the entry is written. */
  function ApplySteps(plan: Plan): nat {
    if plan.operation == Uninstall then 0
    else (if plan.releaseExisted then 1 else 2) + 4 + if plan.rules.Some? then 3 else 0
  }

  /** Everything works up to and into the write of the entry, which is then reported to have failed. */
  ghost predicate FailsAt(events: nat -> Event, from: nat, at: nat) {
    Quiet(events, from, at + 1) && WrittenThenFails(events, at)
  }

  /** Release, local rules, metadata and, last, the entry. */
  method ApplyInstall(fs: FileStore, s: Setting, plan: Plan, ghost d0: Disk) returns (e: Effect)
    requires Ready(s, plan, d0, fs.disk) && plan.operation != Uninstall
    modifies fs
    ensures Running(s, plan, d0, fs.disk) && InstallOrder(plan, fs.disk)
    ensures e == Thrown(Concurrent) ==> Get(fs.disk, Entry) == plan.entryBefore || (fs.Faults() > old(fs.Faults()) && plan.entryBefore.Some?)
    ensures e.Done? ==> ReleaseInPlace(s, plan, fs.disk) && Get(fs.disk, Entry) == Some(plan.entryApplied) && Get(fs.disk, Current) == plan.currentApplied
    ensures e.Done? ==> Get(fs.disk, LocalRules(plan.release)) == RulesAtEnd(s, plan, d0)
    ensures e.Done? || Get(fs.disk, Entry) != plan.entryBefore ==> RulesFit(s, plan, d0)
    ensures e.Thrown? && fs.Faults() == old(fs.Faults()) ==> !RulesFit(s, plan, d0)
    ensures fs.Told(e, old(fs.clock))
    ensures RulesFit(s, plan, d0) && plan.entryBefore.Some? && FailsAt(fs.events, old(fs.clock), old(fs.clock) + ApplySteps(plan)) ==>
      e == Thrown(Concurrent) && Get(fs.disk, Entry) == Some(plan.entryApplied) && fs.clock == old(fs.clock) + ApplySteps(plan) + 2
  {
    hide Get, Running, Unused, RulesReadable, Count;
    ghost var start := fs.clock;
    e := PrepareEntry(fs, s, plan, d0);
    if !e.Done? {
      return;
    }
    e := WriteEntry(fs, s, plan, d0);
  }

  /** Everything but the entry. */
  method PrepareEntry(fs: FileStore, s: Setting, plan: Plan, ghost d0: Disk) returns (e: Effect)
    requires Ready(s, plan, d0, fs.disk) && plan.operation != Uninstall
    modifies fs
    ensures Running(s, plan, d0, fs.disk) && InstallOrder(plan, fs.disk) && Get(fs.disk, Entry) == plan.entryBefore
    ensures e.Done? ==> ReleaseInPlace(s, plan, fs.disk) && Get(fs.disk, Current) == plan.currentApplied
    ensures e.Done? ==> RulesFit(s, plan, d0) && Get(fs.disk, LocalRules(plan.release)) == RulesAtEnd(s, plan, d0)
    ensures e.Thrown? && e != Thrown(Io) ==> !RulesFit(s, plan, d0)
    ensures fs.Told(e, old(fs.clock)) && fs.Took(e, old(fs.clock), ApplySteps(plan))
  {
    hide Get, Running, Ready, Count;
    ReadyIsRunning(s, plan, d0, fs.disk);
    e := PlaceRelease(fs, s, plan, d0);
    if !e.Done? {
      return;
    }
    :- WriteCurrent(fs, s, plan, d0);
    :- fs.Expect(Current, plan.currentApplied, Refused);
    if plan.rules.Some? {
      :- fs.Expect(LocalRules(plan.release), RulesSource(plan), Refused);
    }
    e := fs.Expect(Entry, plan.entryBefore, Concurrent);
  }

  /** The release with its local rules. */
  method PlaceRelease(fs: FileStore, s: Setting, plan: Plan, ghost d0: Disk) returns (e: Effect)
    requires Ready(s, plan, d0, fs.disk) && plan.operation != Uninstall
    modifies fs
    ensures Running(s, plan, d0, fs.disk)
    ensures Get(fs.disk, Entry) == Get(old(fs.disk), Entry) && Get(fs.disk, Current) == Get(old(fs.disk), Current)
    ensures e.Done? ==> ReleaseInPlace(s, plan, fs.disk) && RulesFit(s, plan, d0)
    ensures e.Done? ==> Get(fs.disk, LocalRules(plan.release)) == RulesAtEnd(s, plan, d0)
    ensures e.Thrown? && e != Thrown(Io) ==> !RulesFit(s, plan, d0)
    ensures fs.Told(e, old(fs.clock))
    ensures fs.Took(e, old(fs.clock), (if plan.releaseExisted then 1 else 2) + if plan.rules.Some? then 2 else 0)
  {
    hide Get, Running, Unused, RulesReadable, Count;
    e := ActivateRelease(fs, s, plan, d0);
    if !e.Done? {
      return;
    }
    assert Get(fs.disk, LocalRules(plan.release)) == RulesActivated(s, plan, d0);
    if plan.rules.Some? {
      e := WriteRules(fs, s, plan, d0);
    }
  }

  /** The entry first, then the metadata. */
  method ApplyUninstall(fs: FileStore, s: Setting, plan: Plan, ghost d0: Disk) returns (e: Effect)
    requires Ready(s, plan, d0, fs.disk) && plan.operation == Uninstall
    modifies fs
    ensures Running(s, plan, d0, fs.disk) && UninstallOrder(plan, fs.disk)
    ensures e == Thrown(Concurrent) ==> Get(fs.disk, Entry) == plan.entryBefore || (fs.Faults() > old(fs.Faults()) && plan.entryBefore.Some?)
    ensures e.Done? ==> Get(fs.disk, Entry) == Some(plan.entryApplied) && Get(fs.disk, Current) == plan.currentApplied
    ensures e.Thrown? ==> fs.Faults() > old(fs.Faults())
    ensures fs.Told(e, old(fs.clock))
    ensures FailsAt(fs.events, old(fs.clock), old(fs.clock)) ==>
      e == Thrown(Concurrent) && Get(fs.disk, Entry) == Some(plan.entryApplied) && fs.clock == old(fs.clock) + 2
  {
    hide Get, Running, Unused, Count;
    :- WriteEntry(fs, s, plan, d0);
    e := RemoveCurrent(fs, s, plan, d0);
  }

  /** Everything is read again and verified before the commit. `rules` are the local rules found. */
  method VerifyApplied(fs: FileStore, s: Setting, plan: Plan) returns (e: Effect, rules: Option<Bytes>)
    modifies fs`clock
    ensures e.Done? ==> Checked(s, plan, fs.disk) && rules == Get(fs.disk, LocalRules(plan.release))
    ensures e.Thrown? && e != Thrown(Io) ==> e == Thrown(Refused) && !Checked(s, plan, fs.disk)
    ensures fs.Told(e, old(fs.clock))
  {
    hide Get, ManagedBlock.Verify, ManagedBlock.Remove, RulesReadable;
    rules := Get(fs.disk, LocalRules(plan.release));
    e := fs.Expect(Entry, Some(plan.entryApplied), Refused);
    if !e.Done? {
      return;
    }
    e := fs.Expect(Current, plan.currentApplied, Refused);
    if !e.Done? {
      return;
    }
    if plan.rules.Some? {
      e := fs.Expect(LocalRules(plan.release), RulesSource(plan), Refused);
      if !e.Done? {
        return;
      }
    }
    if plan.operation == Uninstall {
      if ManagedBlock.Remove(s.wording, plan.entryApplied) != Success(plan.entryApplied) {
        return Thrown(Refused), rules;
      }
    } else {
      if !ManagedBlock.Verify(s.wording, plan.entryApplied, BuildBinding(s.release, s.installationRoot)) {
        return Thrown(Refused), rules;
      }
      if Verified(fs.disk, plan.release).None? || !RulesReadable(s, fs.disk, plan.release) {
        return Thrown(Refused), rules;
      }
    }
    e := fs.Attempt();
  }

  // ---- The commit ----

  /** Running, or some way into the commit or out of it again. */
  ghost predicate Committing(s: Setting, plan: Plan, d0: Disk, d: Disk, pair: Pair) {
    && InTransaction(s, plan, d0, d, pair, NO_GAP) && Get(d, Detached(plan.id)).None?
    && pair.top != RolledBack && pair.backup != RolledBack
  }

  ghost predicate SameImages(plan: Plan, d: Disk, d': Disk) {
    && d'.releases == d.releases
    && forall p :: p != Top && p != Backup(plan.id, ReceiptJson) ==> Get(d', p) == Get(d, p)
  }

  lemma StatusStep(s: Setting, plan: Plan, d0: Disk, d: Disk, d': Disk, pair: Pair, pair': Pair)
    requires Committing(s, plan, d0, d, pair) && SameImages(plan, d, d') && IsKnownPair(pair')
    requires pair'.top != RolledBack && pair'.backup != RolledBack
    requires Copies(s, d', ReceiptOf(s, plan, Prepared), pair')
    ensures Committing(s, plan, d0, d', pair')
  {
    hide Get, DigestOf, BackupWritten, Copies;
    BackupsStay(plan, d, d');
  }

  /** Writes one copy of the receipt, whose status is known, with another status. */
  method WriteStatus(fs: FileStore, s: Setting, plan: Plan, top: bool, was: Status, status: Status, ghost d0: Disk, ghost pair: Pair) returns (e: Effect, ghost pair': Pair)
    requires Committing(s, plan, d0, fs.disk, pair) && status != RolledBack && was == if top then pair.top else pair.backup
    requires PairStep(pair, if top then Pair(status, pair.backup) else Pair(pair.top, status))
    modifies fs
    ensures Committing(s, plan, d0, fs.disk, pair') && SameImages(plan, old(fs.disk), fs.disk)
    ensures pair' == pair || (pair' == (if top then Pair(status, pair.backup) else Pair(pair.top, status)) && PairStep(pair, pair'))
    ensures e.Done? ==> pair' == if top then Pair(status, pair.backup) else Pair(pair.top, status)
    ensures e.Done? || e.Crashed? || e == Thrown(Io)
    ensures fs.Told(e, old(fs.clock))
  {
    hide Put, BackupWritten, EntryInFlight, RulesInFlight, ReleasesInFlight;
    var r := ReceiptOf(s, plan, Prepared);
    var path := if top then Top else Backup(plan.id, ReceiptJson);
    ghost var target := if top then Pair(status, pair.backup) else Pair(pair.top, status);
    ghost var before := fs.disk;
    PutChangesOne(before, path, s.renderReceipt(r.(status := status)));
    e := fs.AtomicWrite(path, s.renderReceipt(r.(status := status)), s.renderReceipt(r.(status := was)));
    pair' := if fs.disk == before && !e.Done? then pair else target;
    if pair' == target {
      StatusStep(s, plan, d0, before, fs.disk, pair, target);
    }
  }

  /** The top copy, the backup copy, one last joint check; if it fails, both commits are taken back.
      As nobody else changes the images, only an I/O error makes it fail. */
  method Commit(fs: FileStore, s: Setting, plan: Plan, rules: Option<Bytes>, ghost d0: Disk) returns (e: Effect, ghost pair: Pair)
    requires Running(s, plan, d0, fs.disk) && JointlyInPlace(plan, rules, fs.disk)
    modifies fs
    ensures Committing(s, plan, d0, fs.disk, pair) && SameImages(plan, old(fs.disk), fs.disk)
    ensures e.Done? ==> pair == Pair(Committed, Committed)
    ensures e.Thrown? ==> e == Thrown(Io)
    ensures fs.Told(e, old(fs.clock))
  {
    hide Get, Committing, InTransaction;
    pair := Pair(Prepared, Prepared);
    assert Committing(s, plan, d0, fs.disk, pair) by {
      RunningIsCommitting(s, plan, d0, fs.disk);
    }
    e, pair := WriteStatus(fs, s, plan, true, Prepared, Committed, d0, pair);
    if !e.Done? {
      return e, pair;
    }
    e, pair := WriteStatus(fs, s, plan, false, Prepared, Committed, d0, pair);
    if !e.Done? {
      return e, pair;
    }
    assert JointlyInPlace(plan, rules, fs.disk);
    e := CheckJointly(fs, plan, rules);
    if e.Thrown? {
      var undo: Effect;
      undo, pair := WriteStatus(fs, s, plan, false, Committed, Prepared, d0, pair);
      if !undo.Done? {
        return undo, pair;
      }
      undo, pair := WriteStatus(fs, s, plan, true, Committed, Prepared, d0, pair);
      if !undo.Done? {
        return undo, pair;
      }
    }
  }

  lemma RunningIsCommitting(s: Setting, plan: Plan, d0: Disk, d: Disk)
    requires Running(s, plan, d0, d)
    ensures Committing(s, plan, d0, d, Pair(Prepared, Prepared))
  {
  }

  /** What the last joint check asks for: the images, and the local rules found at verification. */
  predicate JointlyInPlace(plan: Plan, rules: Option<Bytes>, d: Disk) {
    && Get(d, Entry) == Some(plan.entryApplied) && Get(d, Current) == plan.currentApplied
    && (plan.operation != Uninstall ==> Get(d, LocalRules(plan.release)) == rules)
  }

  method CheckJointly(fs: FileStore, plan: Plan, rules: Option<Bytes>) returns (e: Effect)
    modifies fs`clock
    ensures e.Done? ==> JointlyInPlace(plan, rules, fs.disk)
    ensures e.Thrown? && e != Thrown(Io) ==> e == Thrown(Refused) && !JointlyInPlace(plan, rules, fs.disk)
    ensures fs.Told(e, old(fs.clock))
  {
    hide Get;
    e := fs.Expect(Entry, Some(plan.entryApplied), Refused);
    if !e.Done? {
      return;
    }
    :- fs.Expect(Current, plan.currentApplied, Refused);
    if plan.operation != Uninstall {
      :- fs.Expect(LocalRules(plan.release), rules, Refused);
    }
    e := Done;
  }

  /** Every image of the plan is in place. */
  predicate ImagesApplied(s: Setting, plan: Plan, d0: Disk, d: Disk) {
    && Get(d, Entry) == Some(plan.entryApplied) && Get(d, Current) == plan.currentApplied
    && (if plan.operation == Uninstall then plan.rules.None?
        else ReleaseInPlace(s, plan, d) && Get(d, LocalRules(plan.release)) == RulesAtEnd(s, plan, d0))
  }

  lemma RulesAreAtEnd(s: Setting, plan: Plan, d0: Disk, d: Disk)
    requires ImagesApplied(s, plan, d0, d)
    ensures plan.operation != Uninstall ==> Get(d, LocalRules(plan.release)) == RulesAtEnd(s, plan, d0)
  {
  }

  lemma CheckedExactly(s: Setting, plan: Plan, d0: Disk, d: Disk)
    requires ImagesApplied(s, plan, d0, d)
    ensures Checked(s, plan, d) <==> ResultVerifies(s, plan, d0)
    ensures Checked(s, plan, d) ==> Applied(s, plan, d)
    ensures JointlyInPlace(plan, Get(d, LocalRules(plan.release)), d)
  {
    hide Get, ManagedBlock.Verify, ManagedBlock.Remove;
  }

  method VerifyAndCommit(fs: FileStore, s: Setting, plan: Plan, ghost d0: Disk) returns (e: Effect, ghost pair: Pair)
    requires Running(s, plan, d0, fs.disk) && ImagesApplied(s, plan, d0, fs.disk)
    modifies fs
    ensures Committing(s, plan, d0, fs.disk, pair) && SameImages(plan, old(fs.disk), fs.disk)
    ensures e.Done? ==> pair == Pair(Committed, Committed) && Applied(s, plan, fs.disk) && ResultVerifies(s, plan, d0)
    ensures plan.operation != Uninstall ==> Get(fs.disk, LocalRules(plan.release)) == RulesAtEnd(s, plan, d0)
    ensures e.Thrown? && e != Thrown(Io) ==> e == Thrown(Refused) && !ResultVerifies(s, plan, d0)
    ensures fs.Told(e, old(fs.clock))
  {
    hide Get, Running, Committing, Checked, Applied, ResultVerifies, ImagesApplied, JointlyInPlace, Count;
    pair := Pair(Prepared, Prepared);
    RunningIsCommitting(s, plan, d0, fs.disk);
    CheckedExactly(s, plan, d0, fs.disk);
    assert plan.operation != Uninstall ==> Get(fs.disk, LocalRules(plan.release)) == RulesAtEnd(s, plan, d0) by {
      RulesAreAtEnd(s, plan, d0, fs.disk);
    }
    var rules;
    e, rules := VerifyApplied(fs, s, plan);
    if e.Done? {
      ghost var applied := fs.disk;
      e, pair := Commit(fs, s, plan, rules, d0);
      AppliedStays(s, plan, applied, fs.disk);
    }
  }

  lemma RulesAlwaysFit(s: Setting, plan: Plan, d: Disk)
    ensures plan.operation == Uninstall ==> RulesFit(s, plan, d)
  {
  }

  /** Apply, verify, commit. */
  method RunToCommit(fs: FileStore, s: Setting, plan: Plan, ghost d0: Disk) returns (e: Effect, ghost pair: Pair)
    requires Ready(s, plan, d0, fs.disk)
    modifies fs
    ensures Committing(s, plan, d0, fs.disk, pair)
    ensures e.Done? ==> pair == Pair(Committed, Committed) && Applied(s, plan, fs.disk)
    ensures e == Thrown(Concurrent) ==> Get(fs.disk, Entry) == plan.entryBefore || (fs.Faults() > old(fs.Faults()) && plan.entryBefore.Some?)
    ensures e.Done? ==> RulesFit(s, plan, d0) && ResultVerifies(s, plan, d0)
    ensures e.Done? && plan.operation != Uninstall ==> Get(fs.disk, LocalRules(plan.release)) == RulesAtEnd(s, plan, d0)
    ensures Get(fs.disk, Entry) != plan.entryBefore ==> RulesFit(s, plan, d0) && RulesInPlace(plan, fs.disk)
    ensures e.Thrown? && fs.Faults() == old(fs.Faults()) ==> !RulesFit(s, plan, d0) || !ResultVerifies(s, plan, d0)
    ensures fs.Told(e, old(fs.clock))
    ensures RulesFit(s, plan, d0) && plan.entryBefore.Some? && FailsAt(fs.events, old(fs.clock), old(fs.clock) + 1 + ApplySteps(plan)) ==>
      e == Thrown(Concurrent) && Get(fs.disk, Entry) == Some(plan.entryApplied) && fs.clock == old(fs.clock) + ApplySteps(plan) + 3
  {
    hide Get, Running, Committing, Ready, PlannedOn, ReleaseInPlace, ResultVerifies, RulesFit, RulesAtEnd, RulesReadable, Applied, Count;
    pair := Pair(Prepared, Prepared);
    e := ApplyPlan(fs, s, plan, d0);
    RunningIsCommitting(s, plan, d0, fs.disk);
    if e.Done? {
      e, pair := VerifyAndCommit(fs, s, plan, d0);
    }
  }

  /** The changes of the operation. */
  method ApplyPlan(fs: FileStore, s: Setting, plan: Plan, ghost d0: Disk) returns (e: Effect)
    requires Ready(s, plan, d0, fs.disk)
    modifies fs
    ensures Running(s, plan, d0, fs.disk)
    ensures e == Thrown(Concurrent) ==> Get(fs.disk, Entry) == plan.entryBefore || (fs.Faults() > old(fs.Faults()) && plan.entryBefore.Some?)
    ensures e.Done? ==> ImagesApplied(s, plan, d0, fs.disk) && RulesFit(s, plan, d0)
    ensures Get(fs.disk, Entry) != plan.entryBefore ==> RulesFit(s, plan, d0) && RulesInPlace(plan, fs.disk)
    ensures e.Thrown? && fs.Faults() == old(fs.Faults()) ==> !RulesFit(s, plan, d0)
    ensures fs.Told(e, old(fs.clock))
    ensures RulesFit(s, plan, d0) && plan.entryBefore.Some? && FailsAt(fs.events, old(fs.clock), old(fs.clock) + 1 + ApplySteps(plan)) ==>
      e == Thrown(Concurrent) && Get(fs.disk, Entry) == Some(plan.entryApplied) && fs.clock == old(fs.clock) + ApplySteps(plan) + 3
  {
    hide Get, Running, Ready, PlannedOn, ReleaseInPlace, RulesFit, RulesAtEnd, Count;
    RulesAlwaysFit(s, plan, d0);
    ReadyIsRunning(s, plan, d0, fs.disk);
    e := fs.Attempt();
    if !e.Done? {
      return;
    }
    if plan.operation == Uninstall {
      e := ApplyUninstall(fs, s, plan, d0);
    } else {
      e := ApplyInstall(fs, s, plan, d0);
    }
  }

  lemma ReadyIsRunning(s: Setting, plan: Plan, d0: Disk, d: Disk)
    requires Ready(s, plan, d0, d)
    ensures Running(s, plan, d0, d) && Get(d, Entry) == plan.entryBefore && Get(d, Current) == plan.currentBefore && PlannedOn(s, plan, d0)
    ensures plan.operation == Uninstall ==> plan.rules.None?
  {
  }

  lemma AppliedStays(s: Setting, plan: Plan, d: Disk, d': Disk)
    requires Applied(s, plan, d) && SameImages(plan, d, d')
    ensures Applied(s, plan, d')
  {
    hide Get, ManagedBlock.Verify, ManagedBlock.Remove;
  }

  // ---- The mutation as a whole ----

  /** If the entry, the metadata or the rules changed since they were backed up, the run gives up:
      both receipts are rolled back, the backup's first, and nothing else is touched. */
  method CheckUnchanged(fs: FileStore, s: Setting, plan: Plan, ghost d0: Disk) returns (e: Effect)
    requires PlannedOn(s, plan, d0) && Running(s, plan, d0, fs.disk) && AtStart(plan, d0, fs.disk)
    modifies fs
    ensures e.Done? ==> fs.disk == old(fs.disk)
    ensures Reached(s, plan, d0, fs.disk, NO_GAP)
    ensures fs.Told(e, old(fs.clock)) && fs.Took(e, old(fs.clock), if plan.rules.Some? then 3 else 2)
    ensures e.Thrown? ==> e == Thrown(Io)
  {
    hide Get, InTransaction, Unused, PlanFits;
    assert InTransaction(s, plan, d0, fs.disk, Pair(Prepared, Prepared), NO_GAP);
    e := fs.Expect(Entry, plan.entryBefore, Concurrent);
    if e.Done? {
      e := fs.Expect(Current, plan.currentBefore, Refused);
    }
    if e.Done? && plan.rules.Some? {
      e := fs.Expect(LocalRules(plan.release), RulesPrevious(plan), Refused);
    }
    if e.Thrown? {
      var r := ReceiptOf(s, plan, Prepared);
      ghost var before := fs.disk;
      CopiesArePresent(s, plan, d0, before);
      var rolling := WriteRolledBack(fs, s, r);
      if fs.disk != before {
        ReceiptsStay(s, plan, d0, before, fs.disk, Pair(Prepared, Prepared), Prepared, NO_GAP);
      }
      if !rolling.Done? {
        return rolling;
      }
    }
  }

  lemma CopiesArePresent(s: Setting, plan: Plan, d0: Disk, d: Disk)
    requires Running(s, plan, d0, d)
    ensures CopiesPresent(d, ReceiptOf(s, plan, Prepared))
  {
    hide BackupWritten, EntryInFlight, RulesInFlight, ReleasesInFlight;
  }

  function PrologueSteps(plan: Plan): nat {
    BackupSteps(plan) + PrepareSteps(plan) + 5 + if plan.rules.Some? then 3 else 2
  }

  /** All that comes before the first change the classifier could notice, and the receipts. */
  method Prologue(fs: FileStore, s: Setting, plan: Plan, ghost d0: Disk) returns (e: Effect)
    requires PlannedOn(s, plan, d0) && fs.disk == d0
    requires plan.operation == Uninstall ==> plan.entryBefore.Some? && plan.currentBefore.Some? && plan.rules.None?
    modifies fs
    ensures fs.Told(e, old(fs.clock)) && fs.Took(e, old(fs.clock), PrologueSteps(plan))
    ensures e.Thrown? && e != Thrown(Io) ==> !ReleaseFits(s, plan, d0)
    ensures e.Done? ==> ReleaseFits(s, plan, d0)
    ensures Left(s, plan, d0, fs.disk, NO_GAP)
    ensures e.Done? ==> Ready(s, plan, d0, fs.disk)
  {
    hide Get, BackupWritten, Running, PlanFits, Reached, InTransaction, Count;
    :- WriteBackups(fs, plan);
    assert Untouched(plan.id, d0, fs.disk);
    ghost var written := fs.disk;
    assert Get(written, Backup(plan.id, ReceiptJson)).None?;
    e := PrepareRelease(fs, s, plan);
    SameFilesSameBackups(plan, d0, written, fs.disk);
    if !e.Done? {
      return;
    }
    e := Announce(fs, s, plan, d0);
    RunningIsReached(s, plan, d0, fs.disk);
    if !e.Done? {
      return;
    }
    :- fs.Attempt();
    e := CheckUnchanged(fs, s, plan, d0);
  }

  lemma SameFilesSameBackups(plan: Plan, d0: Disk, d: Disk, d': Disk)
    requires d'.files == d.files && d'.releases == d.releases
    ensures Untouched(plan.id, d0, d) ==> Untouched(plan.id, d0, d')
    ensures BackupWritten(plan, d) ==> BackupWritten(plan, d')
    ensures Get(d', Backup(plan.id, ReceiptJson)) == Get(d, Backup(plan.id, ReceiptJson))
  {
    assert forall p :: Get(d', p) == Get(d, p);
    hide Get;
  }

  lemma RunningIsReached(s: Setting, plan: Plan, d0: Disk, d: Disk)
    ensures Running(s, plan, d0, d) ==> Reached(s, plan, d0, d, NO_GAP)
  {
    if Running(s, plan, d0, d) {
      assert InTransaction(s, plan, d0, d, Pair(Prepared, Prepared), NO_GAP);
    }
  }

  lemma ReachedWidens(s: Setting, plan: Plan, d0: Disk, d: Disk, gap: Gap, gap': Gap)
    requires Reached(s, plan, d0, d, gap) && Covers(gap, gap')
    ensures Reached(s, plan, d0, d, gap')
  {
    hide InTransaction;
    var pair :| InTransaction(s, plan, d0, d, pair, gap);
    GapWidens(s, plan, d0, d, pair, gap, gap');
  }

  /** What `Restore` promises, from a state of the run. */
  ghost predicate RestoreRan(s: Setting, r: Receipt, x: Snapshot, shared: bool, preserve: bool, d: Disk, d': Disk, done: bool) {
    && (d' == d || Partly(s, r, x, shared, preserve, d, d'))
    && (done ==> Restored(s, r, x, shared, preserve, d, d'))
  }

  lemma AfterRestore(s: Setting, plan: Plan, d0: Disk, d: Disk, d': Disk, pair: Pair, status: Status, shared: bool, preserve: bool, done: bool, gap: Gap, gap': Gap)
    requires InTransaction(s, plan, d0, d, pair, gap) && pair.top != RolledBack
    requires RestoreRan(s, ReceiptOf(s, plan, status), SnapshotOf(plan), shared, preserve, d, d', done)
    requires Covers(Widened(plan, d, gap, shared, preserve), gap')
    ensures Reached(s, plan, d0, d', gap')
    ensures done ==> InTransaction(s, plan, d0, d', Pair(RolledBack, RolledBack), gap')
  {
    hide Get, InTransaction, Partly, Restored;
    if d' != d {
      PartlyStays(s, plan, d0, d, d', pair, status, shared, preserve, gap);
      ReachedWidens(s, plan, d0, d', Widened(plan, d, gap, shared, preserve), gap');
    } else {
      assert Reached(s, plan, d0, d, gap);
      ReachedWidens(s, plan, d0, d', gap, gap');
    }
    if done {
      RestoredStays(s, plan, d0, d, d', pair, status, shared, preserve, gap, gap');
    }
  }

  /** Kept means: an existing entry was written, an I/O error was reported for it, and the restore
      left it alone. */
  ghost predicate KeptAfterFault(s: Setting, plan: Plan, d: Disk, faults: nat, faults': nat) {
    KeptEntry(s, plan, d) ==> faults' > faults && plan.entryBefore.Some? && Get(d, Entry) == Some(plan.entryApplied)
  }

  /** What a run leaves: nothing but its backup directory, or a state of the run whose images are
      all restored if its receipts say so, unless the entry was kept. */
  ghost predicate Ended(s: Setting, plan: Plan, d0: Disk, d: Disk, names: seq<string>, faults: nat, faults': nat) {
    && Left(s, plan, d0, d, Gap(KeptEntry(s, plan, d), Shared(s, d0, names, plan.release)))
    && KeptAfterFault(s, plan, d, faults, faults')
  }

  function StepsToEntry(plan: Plan): nat {
    PrologueSteps(plan) + 1 + ApplySteps(plan)
  }

  /** The events of the one run that keeps its entry: nothing goes wrong but the write of the entry,
      which takes effect. */
  ghost predicate OnlyEntryFails(events: nat -> Event, from: nat, plan: Plan) {
    FailsAt(events, from, from + StepsToEntry(plan)) && forall i :: i >= from + StepsToEntry(plan) + 2 ==> events(i) == Fine
  }

  /** A plan under which an entry can be kept. */
  predicate CanKeep(s: Setting, plan: Plan, d: Disk, names: seq<string>) {
    && plan.entryBefore.Some? && plan.entryBefore != Some(plan.entryApplied)
    && ReachesEntry(s, plan, d) && !Undecided(s, d, names, plan.release)
  }

  /** `performMutation`, on a disk whose state admits it. If nothing goes wrong it succeeds exactly
      if the plan will. */
  method PerformMutation(fs: FileStore, s: Setting, plan: Plan, names: seq<string>) returns (o: Outcome)
    requires Faithful(s) && PlannedOn(s, plan, fs.disk)
    requires plan.operation == Uninstall ==> plan.entryBefore.Some? && plan.currentBefore.Some? && plan.rules.None?
    modifies fs
    ensures fs.Told(if o.Stopped? then Crashed else Done, old(fs.clock))
    ensures Ended(s, plan, old(fs.disk), fs.disk, names, old(fs.Faults()), fs.Faults())
    ensures o.Succeeded? ==>
      && InTransaction(s, plan, old(fs.disk), fs.disk, Pair(Committed, Committed), NO_GAP) && Applied(s, plan, fs.disk)
      && Get(fs.disk, Detached(plan.id)).None? && WillSucceed(s, plan, old(fs.disk))
      && (plan.operation != Uninstall ==> Get(fs.disk, LocalRules(plan.release)) == RulesAtEnd(s, plan, old(fs.disk)))
    ensures o.Undone? ==>
      && InTransaction(s, plan, old(fs.disk), fs.disk, Pair(RolledBack, RolledBack),
           Gap(KeptEntry(s, plan, fs.disk), Shared(s, old(fs.disk), names, plan.release)))
      && (KeptEntry(s, plan, fs.disk) ==> CanKeep(s, plan, old(fs.disk), names))
    ensures Quiet(fs.events, old(fs.clock), fs.clock) ==> (o.Succeeded? <==> WillSucceed(s, plan, old(fs.disk)))
    ensures CanKeep(s, plan, old(fs.disk), names) && OnlyEntryFails(fs.events, old(fs.clock), plan) ==>
      o.Undone? && KeptEntry(s, plan, fs.disk)
  {
    hide Get, Partly, Restored, Restorable, Running, Ready, Unused, Applied, BackupWritten, ReadSnapshot, DigestOf, Shared, KeptEntry, InTransaction, PlannedOn, Undecided, RulesFit, ReleaseFits, ResultVerifies, Count;
    ghost var d0, sharing, start := fs.disk, Shared(s, fs.disk, names, plan.release), fs.clock;
    var e := Prologue(fs, s, plan, d0);
    if !e.Done? {
      LeftWithoutGap(s, plan, d0, fs.disk, names, old(fs.Faults()), fs.Faults());
      return if e.Crashed? then Stopped else Failed;
    }
    ghost var pair;
    e, pair := RunToCommit(fs, s, plan, d0);
    ghost var d := fs.disk;
    CommittingIsReached(s, plan, d0, d, pair);
    if e.Thrown? {
      var preserve := e == Thrown(Concurrent);
      o := RestoreInProcess(fs, s, plan, names, preserve, d0, pair, old(fs.Faults()));
      if o.Undone? {
        KeptNow(s, plan, d0, fs.disk, Gap(KeptEntry(s, plan, fs.disk), sharing));
      }
      return;
    }
    LeftWithoutGap(s, plan, d0, d, names, old(fs.Faults()), fs.Faults());
    return if e.Done? then Succeeded else Stopped;
  }

  /** The restore of a failed run. */
  method RestoreInProcess(fs: FileStore, s: Setting, plan: Plan, names: seq<string>, preserve: bool, ghost d0: Disk, ghost pair: Pair, ghost faults: nat) returns (o: Outcome)
    requires Faithful(s) && PlannedOn(s, plan, d0) && Committing(s, plan, d0, fs.disk, pair)
    requires preserve ==> Get(fs.disk, Entry) == plan.entryBefore || (fs.Faults() > faults && plan.entryBefore.Some?)
    modifies fs
    ensures o.Undone? || o.RollbackFailed? || o.Stopped?
    ensures fs.Told(if o.Stopped? then Crashed else Done, old(fs.clock))
    ensures Ended(s, plan, d0, fs.disk, names, faults, fs.Faults())
    ensures o.Undone? ==>
      && InTransaction(s, plan, d0, fs.disk, Pair(RolledBack, RolledBack), Gap(KeptEntry(s, plan, fs.disk), Shared(s, d0, names, plan.release)))
      && !Undecided(s, d0, names, plan.release)
      && (KeptEntry(s, plan, fs.disk) ==> preserve && Get(fs.disk, Entry) == Get(old(fs.disk), Entry) == Some(plan.entryApplied))
    ensures preserve && !Undecided(s, d0, names, plan.release) && RulesInPlace(plan, old(fs.disk)) && Quiet(fs.events, old(fs.clock), fs.clock) ==>
      o.Undone? && Get(fs.disk, Entry) == Get(old(fs.disk), Entry)
  {
    hide Get, Partly, Restored, Restorable, Unused, BackupWritten, ReadSnapshot, DigestOf, Shared, KeptEntry, InTransaction, Undecided, Count, Committing;
    ghost var d, r, shared := fs.disk, ReceiptOf(s, plan, Prepared), Shared(s, fs.disk, names, plan.release);
    CommittingIsReached(s, plan, d0, d, pair);
    CommittingReads(s, plan, d0, d, pair);
    SharingStays(s, plan, d0, d, names, pair, NO_GAP);
    PreservingIsRestorable(s, plan, d0, d, pair, shared);
    var e := Restore(fs, s, ReceiptOf(s, plan, Prepared), names, false, preserve);
    assert RestoreRan(s, r, SnapshotOf(plan), shared, preserve, d, fs.disk, e.Done?);
    RestoredInProcess(s, plan, d0, d, fs.disk, pair, names, preserve, e.Done?, faults, fs.Faults());
    if e.Done? {
      EntryAfterRestore(s, plan, d, fs.disk, shared, preserve);
    }
    return if e.Done? then Undone else if e.Crashed? then Stopped else RollbackFailed;
  }

  lemma CommittingIsReached(s: Setting, plan: Plan, d0: Disk, d: Disk, pair: Pair)
    requires Committing(s, plan, d0, d, pair)
    ensures InTransaction(s, plan, d0, d, pair, NO_GAP) && Reached(s, plan, d0, d, NO_GAP)
    ensures Get(d, Detached(plan.id)).None? && pair.top != RolledBack
  {
    hide InTransaction;
  }

  lemma CommittingReads(s: Setting, plan: Plan, d0: Disk, d: Disk, pair: Pair)
    requires PlannedOn(s, plan, d0) && Committing(s, plan, d0, d, pair)
    ensures ReadSnapshot(s, d, ReceiptOf(s, plan, Prepared)) == Success(SnapshotOf(plan))
  {
    hide Get, BackupWritten, Unused;
    BackupsProveTheReceipt(s, plan, d, Prepared);
  }

  lemma LeftWithoutGap(s: Setting, plan: Plan, d0: Disk, d: Disk, names: seq<string>, faults: nat, faults': nat)
    requires Faithful(s) && PlannedOn(s, plan, d0) && Left(s, plan, d0, d, NO_GAP)
    ensures Ended(s, plan, d0, d, names, faults, faults')
  {
    hide Get, InTransaction, Shared, Unused, PlanFits;
    if Untouched(plan.id, d0, d) {
      assert Get(d, Entry) == plan.entryBefore;
    } else {
      var pair :| InTransaction(s, plan, d0, d, pair, NO_GAP);
      NoGapNoKeptEntry(s, plan, d0, d, pair, NO_GAP);
      ReachedWidens(s, plan, d0, d, NO_GAP, Gap(KeptEntry(s, plan, d), Shared(s, d0, names, plan.release)));
    }
  }

  /** After the restore of a failed run, which leaves the entry alone if it was `preserve`d. */
  lemma RestoredInProcess(s: Setting, plan: Plan, d0: Disk, d: Disk, d': Disk, pair: Pair, names: seq<string>, preserve: bool, done: bool, faults: nat, faults': nat)
    requires Faithful(s) && InTransaction(s, plan, d0, d, pair, NO_GAP) && pair.top != RolledBack && Get(d, Detached(plan.id)).None?
    requires RestoreRan(s, ReceiptOf(s, plan, Prepared), SnapshotOf(plan), Shared(s, d0, names, plan.release), preserve, d, d', done)
    requires preserve ==> Get(d, Entry) == plan.entryBefore || (faults' > faults && plan.entryBefore.Some?)
    ensures Ended(s, plan, d0, d', names, faults, faults')
    ensures done ==>
      InTransaction(s, plan, d0, d', Pair(RolledBack, RolledBack), Gap(KeptEntry(s, plan, d'), Shared(s, d0, names, plan.release)))
    ensures KeptEntry(s, plan, d') ==> preserve && Get(d', Entry) == Get(d, Entry) == Some(plan.entryApplied)
  {
    hide Get, InTransaction, Shared, Partly, Restored, KeptEntry;
    var shared := Shared(s, d0, names, plan.release);
    var gap := Widened(plan, d, NO_GAP, shared, preserve);
    AfterRestore(s, plan, d0, d, d', pair, Prepared, shared, preserve, done, NO_GAP, gap);
    var pair' :| InTransaction(s, plan, d0, d', pair', gap);
    GapIsKeptEntry(s, plan, d0, d', pair', gap);
    if done {
      GapIsKeptEntry(s, plan, d0, d', Pair(RolledBack, RolledBack), gap);
    }
    if !gap.entry {
      NoGapNoKeptEntry(s, plan, d0, d', pair', gap);
    } else {
      EntryIsPreserved(s, plan, d0, d, d', pair, shared, done);
    }
  }

  lemma EntryAfterRestore(s: Setting, plan: Plan, d: Disk, d': Disk, shared: bool, preserve: bool)
    requires Restored(s, ReceiptOf(s, plan, Prepared), SnapshotOf(plan), shared, preserve, d, d')
    ensures preserve ==> Get(d', Entry) == Get(d, Entry)
  {
    hide Get;
  }

  lemma EntryIsPreserved(s: Setting, plan: Plan, d0: Disk, d: Disk, d': Disk, pair: Pair, shared: bool, done: bool)
    requires InTransaction(s, plan, d0, d, pair, NO_GAP) && Get(d, Detached(plan.id)).None?
    requires RestoreRan(s, ReceiptOf(s, plan, Prepared), SnapshotOf(plan), shared, true, d, d', done)
    ensures Get(d', Entry) == Get(d, Entry) && OneOf(Get(d, Entry), plan.entryBefore, Some(plan.entryApplied))
  {
    hide Get, BackupWritten, Copies, DigestOf;
  }

  /** Nothing of a restore that leaves the entry alone refuses once the rules are in place. */
  lemma PreservingIsRestorable(s: Setting, plan: Plan, d0: Disk, d: Disk, pair: Pair, shared: bool)
    requires PlannedOn(s, plan, d0) && InTransaction(s, plan, d0, d, pair, NO_GAP) && Get(d, Detached(plan.id)).None?
    ensures RulesInPlace(plan, d) ==> Restorable(s, d, ReceiptOf(s, plan, Prepared), shared, true)
  {
    hide Get, InTransaction, ReadSnapshot, Unused, DigestOf;
    RestorableExactly(s, plan, d0, d, pair, Prepared, NO_GAP, shared);
  }

  lemma KeptNow(s: Setting, plan: Plan, d0: Disk, d: Disk, gap: Gap)
    requires InTransaction(s, plan, d0, d, Pair(RolledBack, RolledBack), gap)
    ensures KeptEntry(s, plan, d) <==> Get(d, Entry) != plan.entryBefore
  {
    hide Get, DigestOf, BackupWritten, EntryInFlight, RulesInFlight, ReleasesInFlight;
    assert ReceiptOf(s, plan, Prepared).(status := RolledBack) == ReceiptOf(s, plan, RolledBack);
  }

  /** Without a gap a receipt that is rolled back keeps its promise. */
  lemma NoGapNoKeptEntry(s: Setting, plan: Plan, d0: Disk, d: Disk, pair: Pair, gap: Gap)
    requires Faithful(s) && InTransaction(s, plan, d0, d, pair, gap) && !gap.entry
    ensures !KeptEntry(s, plan, d)
  {
    hide Get, DigestOf, BackupWritten, EntryInFlight, RulesInFlight, ReleasesInFlight;
    var r, r' := ReceiptOf(s, plan, pair.top), ReceiptOf(s, plan, RolledBack);
    assert ReceiptOf(s, plan, Prepared).(status := pair.top) == r;
    assert s.parseReceipt(s.renderReceipt(r)) == Some(r) && s.parseReceipt(s.renderReceipt(r')) == Some(r');
  }

  /** The other bindings are none of the run's business. */
  lemma SharingStays(s: Setting, plan: Plan, d0: Disk, d: Disk, names: seq<string>, pair: Pair, gap: Gap)
    requires InTransaction(s, plan, d0, d, pair, gap)
    ensures Shared(s, d, names, plan.release) == Shared(s, d0, names, plan.release)
    ensures Undecided(s, d, names, plan.release) == Undecided(s, d0, names, plan.release)
  {
    hide Get, BackupWritten, Copies;
    assert forall name :: Get(d, Neighbour(name)) == Get(d0, Neighbour(name));
    assert forall name :: Refers(s, d, name, plan.release) == Refers(s, d0, name, plan.release);
    assert forall name :: Unreadable(s, d, name) == Unreadable(s, d0, name);
    assert forall i :: 0 <= i <= |names| ==> Shared(s, d, names[..i], plan.release) == Shared(s, d0, names[..i], plan.release);
  }
}
