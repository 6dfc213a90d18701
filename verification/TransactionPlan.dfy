/** What one transaction is about to do (src/transaction.ts), and every state its run, its crashes
    and its restores can leave on disk. */
module TransactionPlan {
  import opened Wrappers
  import opened Installation
  import opened FileSystem
  import opened Recovery
  import TextSearch
  import ManagedBlock

  // ---- Deciding and planning ----

  datatype Decision = Refuse | AlreadyDone | Proceed

  /** The states `mutate` refuses, finds already reached, or acts on. */
  function Decide(s: Setting, d: Disk, op: Operation): Decision {
    var state := Classify(s, d);
    if state == Tampered || state == RecoveryRequired || state == DowngradeBlocked then Refuse
    else if op == Install && state == Outdated then Refuse
    else if op == Update && state != Outdated && state != IsCurrent then Refuse
    else if op == Install && state == IsCurrent then AlreadyDone
    else if op == Update && state == IsCurrent && s.rules.None? then AlreadyDone
    else if op == Uninstall && (state == Absent || state == Fresh) then AlreadyDone
    else Proceed
  }

  datatype RulesWrite = RulesWrite(source: Bytes, previous: Option<Bytes>)

  datatype Plan = Plan(
    id: string, operation: Operation, release: string, releaseExisted: bool,
    entryBefore: Option<Bytes>, entryApplied: Bytes,
    currentBefore: Option<Bytes>, currentApplied: Option<Bytes>,
    rules: Option<RulesWrite>)

  function InstalledVersion(s: Setting, d: Disk): Option<string> {
    match Get(d, Current)
    case None => None
    case Some(bytes) =>
      match s.parseCurrent(bytes)
      case None => None
      case Some(m) => Some(m.binding.version)
  }

  function AllCanonical(s: Setting, source: Option<Bytes>, previous: Option<Bytes>): Result<Option<RulesWrite>> {
    match source
    case None => Success(None)
    case Some(rules) => if s.canonical(rules) then Success(Some(RulesWrite(rules, previous))) else Failure
  }

  /** `localRulesMutation`: the caller's rules, or on a change of release those of the installed
      one, unless the new release has some. */
  function RulesMutation(s: Setting, d: Disk): Result<Option<RulesWrite>> {
    var target, previous := s.release.version, Get(d, LocalRules(s.release.version));
    if !RulesReadable(s, d, target) then Failure
    else if s.rules.Some? then AllCanonical(s, s.rules, previous)
    else
      match InstalledVersion(s, d)
      case None => Success(None)
      case Some(installed) =>
        if installed == target || previous.Some? then Success(None)
        else AllCanonical(s, Get(d, LocalRules(installed)), previous)
  }

  function MakePlan(s: Setting, d: Disk, op: Operation, id: string): Result<Plan> {
    var rules :- if op == Uninstall then Success(None) else RulesMutation(s, d);
    var applied :-
      if op == Uninstall then ManagedBlock.Remove(s.wording, EntryText(d))
      else ManagedBlock.Install(s.wording, EntryText(d), BuildBinding(s.release, s.installationRoot));
    Success(Plan(
      id, op, s.release.version, s.release.version in d.releases,
      Get(d, Entry), applied,
      Get(d, Current), if op == Uninstall then None else Some(s.renderCurrent(ExpectedMetadata(s, s.release))),
      rules))
  }

  function DigestOf(s: Setting, image: Option<Bytes>): Option<string> {
    match image
    case None => None
    case Some(b) => Some(s.digest(b))
  }

  function RulesPrevious(plan: Plan): Option<Bytes> {
    match plan.rules
    case None => None
    case Some(m) => m.previous
  }

  function RulesSource(plan: Plan): Option<Bytes> {
    match plan.rules
    case None => None
    case Some(m) => Some(m.source)
  }

  function ReceiptOf(s: Setting, plan: Plan, status: Status): Receipt {
    Receipt(
      1, plan.id, s.binding, status, plan.operation,
      plan.release, plan.releaseExisted, plan.releaseExisted || plan.operation != Uninstall,
      plan.entryBefore.Some?, plan.currentBefore.Some?, plan.rules.Some?, RulesPrevious(plan).Some?,
      DigestOf(s, plan.entryBefore), DigestOf(s, plan.currentBefore), DigestOf(s, RulesPrevious(plan)),
      s.digest(plan.entryApplied), DigestOf(s, plan.currentApplied), DigestOf(s, RulesSource(plan)))
  }

  function SnapshotOf(plan: Plan): Snapshot {
    Snapshot(plan.entryBefore, plan.entryApplied, plan.currentBefore, plan.currentApplied, RulesPrevious(plan), RulesSource(plan))
  }

  predicate PlanFits(s: Setting, plan: Plan) {
    && s.version(plan.release).Some?
    && (plan.operation == Uninstall <==> plan.currentApplied.None?)
  }

  // ---- The backup directory ----

  predicate Kept(d: Disk, id: string, name: BackupName, absent: BackupName, image: Option<Bytes>) {
    match image
    case None => Get(d, Backup(id, absent)) == Some(ABSENT)
    case Some(b) => Get(d, Backup(id, name)) == Some(b)
  }

  predicate BackupWritten(plan: Plan, d: Disk) {
    && Kept(d, plan.id, EntryBin, EntryAbsent, plan.entryBefore)
    && Kept(d, plan.id, CurrentJson, CurrentAbsent, plan.currentBefore)
    && Get(d, Backup(plan.id, EntryApplied)) == Some(plan.entryApplied)
    && Kept(d, plan.id, CurrentApplied, CurrentAppliedAbsent, plan.currentApplied)
    && (plan.rules.Some? ==> Get(d, Backup(plan.id, LocalRulesApplied)) == RulesSource(plan))
    && (RulesPrevious(plan).Some? ==> Get(d, Backup(plan.id, LocalRulesBin)) == RulesPrevious(plan))
  }

  /** The receipt of a plan whose backups are written is valid, proved by them, and names the
      plan's own images. */
  lemma BackupsProveTheReceipt(s: Setting, plan: Plan, d: Disk, status: Status)
    requires PlanFits(s, plan) && BackupWritten(plan, d)
    ensures var r := ReceiptOf(s, plan, status);
      ValidReceipt(s, r) && Evidence(s, d, r) && ReadSnapshot(s, d, r) == Success(SnapshotOf(plan))
  {
    hide Get;
  }

  /** Only the marker itself has the marker's digest. */
  ghost predicate AbsentTells(s: Setting, d: Disk) {
    forall p :: Get(d, p).Some? && s.digest(Get(d, p).value) == s.digest(ABSENT) ==> Get(d, p) == Some(ABSENT)
  }

  function BackedUp(d: Disk, id: string, name: BackupName, digest: Option<string>): Option<Bytes> {
    if digest.None? then None else Get(d, Backup(id, name))
  }

  function BytesOf(image: Option<Bytes>): Bytes {
    if image.None? then "" else image.value
  }

  /** The plan whose receipt `r` would be, by the backups that are there. */
  function PlanBehind(d: Disk, r: Receipt): Plan {
    Plan(
      r.id, r.operation, r.release, r.releaseExisted,
      BackedUp(d, r.id, EntryBin, r.entryBackup), BytesOf(Get(d, Backup(r.id, EntryApplied))),
      BackedUp(d, r.id, CurrentJson, r.currentBackup), BackedUp(d, r.id, CurrentApplied, r.currentApplied),
      if r.rules then
        Some(RulesWrite(BytesOf(Get(d, Backup(r.id, LocalRulesApplied))), BackedUp(d, r.id, LocalRulesBin, r.rulesBackup)))
      else None)
  }

  /** A receipt is valid and proved by the backups exactly if it is the receipt of a plan whose
      backups these are. */
  lemma ReceiptsAreThoseOfPlans(s: Setting, d: Disk, r: Receipt)
    requires AbsentTells(s, d)
    ensures ValidReceipt(s, r) && Evidence(s, d, r) <==>
      exists plan :: PlanFits(s, plan) && BackupWritten(plan, d) && r == ReceiptOf(s, plan, r.status)
  {
    hide Get;
    if ValidReceipt(s, r) && Evidence(s, d, r) {
      var plan := PlanBehind(d, r);
      assert PlanFits(s, plan);
      assert BackupWritten(plan, d);
      assert r == ReceiptOf(s, plan, r.status);
    }
    if plan :| PlanFits(s, plan) && BackupWritten(plan, d) && r == ReceiptOf(s, plan, r.status) {
      BackupsProveTheReceipt(s, plan, d, r.status);
    }
  }

  /** The two copies read as the receipts of one plan whose backups are there, in statuses that a run
      can leave them in, and with the same text where the statuses are the same. */
  ghost predicate WrittenFor(s: Setting, d: Disk, top: Bytes, plan: Plan, pair: Pair) {
    && PlanFits(s, plan) && BackupWritten(plan, d) && ReachablePair(pair)
    && s.parseReceipt(top) == Some(ReceiptOf(s, plan, pair.top))
    && Get(d, Backup(plan.id, ReceiptJson)).Some?
    && s.parseReceipt(Get(d, Backup(plan.id, ReceiptJson)).value) == Some(ReceiptOf(s, plan, pair.backup))
    && (pair.top == pair.backup ==> Get(d, Backup(plan.id, ReceiptJson)) == Some(top))
  }

  /** A top copy is accepted exactly if the two copies are so written. */
  lemma AcceptedExactlyWhenWritten(s: Setting, d: Disk, top: Bytes)
    requires AbsentTells(s, d)
    ensures ReceiptWithMatchingBackup(s, d, top).Success? <==> exists plan, pair :: WrittenFor(s, d, top, plan, pair)
  {
    hide Get, ReachablePair, Evidence, BackupWritten;
    var read := ReceiptWithMatchingBackup(s, d, top);
    if read.Success? {
      var r := read.value;
      ReceiptsAreThoseOfPlans(s, d, r);
      var plan :| PlanFits(s, plan) && BackupWritten(plan, d) && r == ReceiptOf(s, plan, r.status);
      var b := ReadReceipt(s, Get(d, Backup(r.id, ReceiptJson)).value).value;
      var pair := Pair(r.status, b.status);
      ExactlySixPairs(pair);
      assert b == r.(status := b.status) == ReceiptOf(s, plan, pair.backup);
      assert WrittenFor(s, d, top, plan, pair);
    }
    if plan, pair :| WrittenFor(s, d, top, plan, pair) {
      ExactlySixPairs(pair);
      BackupsProveTheReceipt(s, plan, d, pair.top);
      BackupsProveTheReceipt(s, plan, d, pair.backup);
    }
  }

  // ---- The states of a run ----

  predicate OwnPath(plan: Plan, p: Path) {
    || p == Entry || p == Detached(plan.id) || p == Current || p == Top || p == LocalRules(plan.release)
    || (p.Backup? && p.id == plan.id)
  }

  /** Only the new backup directory differs: nothing the classifier reads. */
  ghost predicate Untouched(id: string, d0: Disk, d: Disk) {
    && d.releases == d0.releases
    && forall p: Path :: !(p.Backup? && p.id == id) ==> Get(d, p) == Get(d0, p)
  }

  predicate ReleasesInFlight(s: Setting, plan: Plan, d0: Disk, d: Disk) {
    || d.releases == d0.releases
    || (!plan.releaseExisted && d.releases == d0.releases[plan.release := Some(s.release)])
  }

  predicate EntryInFlight(plan: Plan, live: Option<Bytes>, moved: Option<Bytes>) {
    if moved.None? then OneOf(live, plan.entryBefore, Some(plan.entryApplied))
    else
      && moved == Some(plan.entryApplied) && moved != plan.entryBefore
      && (live.None? || OneOf(live, plan.entryBefore, Some(plan.entryApplied)))
  }

  predicate RulesInFlight(plan: Plan, d0: Disk, d: Disk) {
    plan.releaseExisted ==>
      if plan.rules.Some? then OneOf(Get(d, LocalRules(plan.release)), RulesPrevious(plan), RulesSource(plan))
      else Get(d, LocalRules(plan.release)) == Get(d0, LocalRules(plan.release))
  }

  /** What a settled restore may have left out: the entry, if its write reported an error after it
      took effect; the local rules, if another binding shares the release. */
  datatype Gap = Gap(entry: bool, rules: bool)

  const NO_GAP := Gap(false, false)

  predicate Covers(gap: Gap, gap': Gap) {
    (gap.entry ==> gap'.entry) && (gap.rules ==> gap'.rules)
  }

  predicate RulesSettled(plan: Plan, d: Disk) {
    plan.rules.Some? && plan.releaseExisted ==> Get(d, LocalRules(plan.release)) == RulesPrevious(plan)
  }

  /** A rolled back receipt is a promise: the backup's copy speaks for the metadata and the rules,
      the top copy for the entry too, which a restore that starts over may move once more. */
  predicate ReceiptsHonest(plan: Plan, d: Disk, pair: Pair, gap: Gap) {
    && (pair.backup == RolledBack ==> Get(d, Current) == plan.currentBefore && (RulesSettled(plan, d) || gap.rules))
    && (pair.top == RolledBack ==> Get(d, Entry) == plan.entryBefore || gap.entry)
  }

  /** The run was settled as rolled back around an entry it had already changed. */
  predicate KeptEntry(s: Setting, plan: Plan, d: Disk) {
    Get(d, Top) == Some(s.renderReceipt(ReceiptOf(s, plan, RolledBack))) && Get(d, Entry) != plan.entryBefore
  }

  /** Everything a run from `d0` can leave behind once its receipt is in place, whatever crashed. */
  ghost predicate InTransaction(s: Setting, plan: Plan, d0: Disk, d: Disk, pair: Pair, gap: Gap) {
    && (forall p: Path :: !OwnPath(plan, p) ==> Get(d, p) == Get(d0, p))
    && ReleasesInFlight(s, plan, d0, d)
    && BackupWritten(plan, d)
    && Copies(s, d, ReceiptOf(s, plan, Prepared), pair) && IsKnownPair(pair)
    && EntryInFlight(plan, Get(d, Entry), Get(d, Detached(plan.id)))
    && OneOf(Get(d, Current), plan.currentBefore, plan.currentApplied)
    && RulesInFlight(plan, d0, d)
    && ReceiptsHonest(plan, d, pair, gap)
  }

  ghost predicate Reached(s: Setting, plan: Plan, d0: Disk, d: Disk, gap: Gap) {
    exists pair :: InTransaction(s, plan, d0, d, pair, gap)
  }

  /** A disk is left with a gap in the entry only if it was settled around it. */
  lemma GapIsKeptEntry(s: Setting, plan: Plan, d0: Disk, d: Disk, pair: Pair, gap: Gap)
    requires InTransaction(s, plan, d0, d, pair, gap)
    ensures InTransaction(s, plan, d0, d, pair, Gap(KeptEntry(s, plan, d), gap.rules))
  {
    hide Get, DigestOf, BackupWritten, EntryInFlight, RulesInFlight, ReleasesInFlight;
    assert ReceiptOf(s, plan, Prepared).(status := RolledBack) == ReceiptOf(s, plan, RolledBack);
  }

  /** The one place where the rules of a new release make a restore refuse. */
  predicate RulesMissing(plan: Plan, d: Disk, shared: bool) {
    !shared && plan.rules.Some? && !plan.releaseExisted && Get(d, LocalRules(plan.release)) != RulesSource(plan)
  }

  /** From every state of a run, crash or interrupted restore, a complete restore succeeds unless
      the entry is stuck or the rules of a release brought by the run are not yet there; in
      particular always when no rules are written or the release existed before. */
  lemma RestorableExactly(s: Setting, plan: Plan, d0: Disk, d: Disk, pair: Pair, status: Status, gap: Gap, shared: bool)
    requires PlanFits(s, plan) && InTransaction(s, plan, d0, d, pair, gap)
    requires plan.release == s.release.version && (plan.releaseExisted <==> plan.release in d0.releases)
    ensures Restorable(s, d, ReceiptOf(s, plan, status), shared, false) <==>
      !Stuck(SnapshotOf(plan), d, plan.id) && !RulesMissing(plan, d, shared)
  {
    hide Get, BackupWritten;
    BackupsProveTheReceipt(s, plan, d, status);
  }

  /** What a restore from `d` may leave out. */
  function Widened(plan: Plan, d: Disk, gap: Gap, shared: bool, preserveEntry: bool): Gap {
    Gap(gap.entry || (preserveEntry && Get(d, Entry) != plan.entryBefore), gap.rules || shared)
  }

  /** An interrupted restore, with any earlier status of the receipt in hand, stays in the family. */
  lemma PartlyStays(s: Setting, plan: Plan, d0: Disk, d: Disk, d': Disk, pair: Pair, status: Status, shared: bool, preserveEntry: bool, gap: Gap)
    requires InTransaction(s, plan, d0, d, pair, gap) && pair.top != RolledBack
    requires Partly(s, ReceiptOf(s, plan, status), SnapshotOf(plan), shared, preserveEntry, d, d')
    ensures Reached(s, plan, d0, d', Widened(plan, d, gap, shared, preserveEntry))
  {
    hide Get, Copies, InTransaction, ImagesMove;
    var r, x := ReceiptOf(s, plan, status), SnapshotOf(plan);
    var gap' := Widened(plan, d, gap, shared, preserveEntry);
    if ImagesMove(r, x, shared, preserveEntry, d, d') {
      ImagesStay(s, plan, d0, d, d', pair, status, shared, preserveEntry, gap);
      GapWidens(s, plan, d0, d', pair, gap, gap');
    } else {
      var mid :| ImagesRestored(r, x, shared, preserveEntry, d, mid) && ReceiptsMove(s, r, mid, d');
      ImagesStay(s, plan, d0, d, mid, pair, status, shared, preserveEntry, gap);
      GapWidens(s, plan, d0, mid, pair, gap, gap');
      ReceiptsStay(s, plan, d0, mid, d', pair, status, gap');
    }
  }

  /** A complete restore settles both receipts. */
  lemma RestoredStays(s: Setting, plan: Plan, d0: Disk, d: Disk, d': Disk, pair: Pair, status: Status, shared: bool, preserveEntry: bool, gap: Gap, gap': Gap)
    requires InTransaction(s, plan, d0, d, pair, gap)
    requires Restored(s, ReceiptOf(s, plan, status), SnapshotOf(plan), shared, preserveEntry, d, d')
    requires Covers(Widened(plan, d, gap, shared, preserveEntry), gap')
    ensures InTransaction(s, plan, d0, d', Pair(RolledBack, RolledBack), gap')
  {
    hide Get, DigestOf, BackupWritten;
    BackupsStay(plan, d, d');
  }

  lemma GapWidens(s: Setting, plan: Plan, d0: Disk, d: Disk, pair: Pair, gap: Gap, gap': Gap)
    requires InTransaction(s, plan, d0, d, pair, gap) && Covers(gap, gap')
    ensures InTransaction(s, plan, d0, d, pair, gap')
  {
  }

  lemma BackupsStay(plan: Plan, d: Disk, d': Disk)
    requires BackupWritten(plan, d) && forall name :: name != ReceiptJson ==> Get(d', Backup(plan.id, name)) == Get(d, Backup(plan.id, name))
    ensures BackupWritten(plan, d')
  {
    hide Get;
  }

  lemma ImagesStay(s: Setting, plan: Plan, d0: Disk, d: Disk, d': Disk, pair: Pair, status: Status, shared: bool, preserveEntry: bool, gap: Gap)
    requires InTransaction(s, plan, d0, d, pair, gap) && pair.top != RolledBack
    requires ImagesMove(ReceiptOf(s, plan, status), SnapshotOf(plan), shared, preserveEntry, d, d')
    ensures InTransaction(s, plan, d0, d', pair, gap)
  {
    hide Get, DigestOf, BackupWritten;
    BackupsStay(plan, d, d');
  }

  lemma ReceiptsStay(s: Setting, plan: Plan, d0: Disk, d: Disk, d': Disk, pair: Pair, status: Status, gap: Gap)
    requires InTransaction(s, plan, d0, d, pair, gap) && pair.top != RolledBack && ReceiptsMove(s, ReceiptOf(s, plan, status), d, d')
    requires Get(d, Current) == plan.currentBefore && (Get(d, Entry) == plan.entryBefore || gap.entry) && (RulesSettled(plan, d) || gap.rules)
    ensures InTransaction(s, plan, d0, d', Pair(if Get(d', Top) == Get(d, Top) then pair.top else RolledBack, RolledBack), gap)
    ensures PairStep(pair, Pair(pair.top, RolledBack)) && PairStep(Pair(pair.top, RolledBack), Pair(RolledBack, RolledBack))
  {
    hide Get, DigestOf, BackupWritten, EntryInFlight, RulesInFlight;
    BackupsStay(plan, d, d');
    assert RulesInFlight(plan, d0, d') by {
      RulesStay(plan, d0, d, d');
    }
  }

  lemma RulesStay(plan: Plan, d0: Disk, d: Disk, d': Disk)
    requires RulesInFlight(plan, d0, d) && Get(d', LocalRules(plan.release)) == Get(d, LocalRules(plan.release))
    ensures RulesInFlight(plan, d0, d')
  {
  }

  /** Once stuck, no restore can help: it refuses, and leaves the entry stuck. */
  lemma StuckForEver(s: Setting, r: Receipt, x: Snapshot, shared: bool, d: Disk, d': Disk)
    requires Stuck(x, d, r.id) && ReadSnapshot(s, d, r) == Success(x)
    requires d' == d || Partly(s, r, x, shared, false, d, d')
    ensures Stuck(x, d', r.id) && !Restorable(s, d, r, shared, false)
  {
    hide Get;
  }

  /** How it comes about: the live entry is moved aside, its re-creation fails, and the moved bytes
      are put back. Every check still admits the entry, yet the disk `d'` is stuck. */
  lemma PutBackIsStuck(plan: Plan, d: Disk, d': Disk, e: Effect, events: nat -> Event, at: nat)
    requires ToUndo(SnapshotOf(plan), d, plan.id) && Get(d, Entry) == Some(plan.entryApplied) && plan.entryBefore.Some?
    requires FailsMidway(events, at) && CutShort(plan.id, events, at, d', plan.entryApplied, plan.entryBefore, e)
    ensures !Stuck(SnapshotOf(plan), d, plan.id) && Stuck(SnapshotOf(plan), d', plan.id)
    ensures EntryAdmitted(SnapshotOf(plan), Get(d', Entry), Get(d', Detached(plan.id)))
    ensures EntryInFlight(plan, Get(d', Entry), Get(d', Detached(plan.id)))
  {
    hide Get;
  }
}
