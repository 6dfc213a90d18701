/** What an installation keeps on disk, its receipts, and the classifier of its state:
    src/installer/receipts.ts, src/installer/context.ts. */
module Installation {
  import opened Wrappers
  import TextSearch
  import ManagedBlock
  import SemVer

  type Bytes = string

  // ---- The file system ----

  /** The files of one transaction's backup directory. */
  datatype BackupName =
    | EntryBin | EntryAbsent | CurrentJson | CurrentAbsent
    | EntryApplied | CurrentApplied | CurrentAppliedAbsent
    | LocalRulesBin | LocalRulesApplied | ReceiptJson

  datatype Path =
    | Entry
    | Detached(id: string)
    | Current
    | Top
    | Backup(id: string, name: BackupName)
    | LocalRules(version: string)
    | Neighbour(binding: string)

  datatype VerifiedRelease = VerifiedRelease(version: string, governanceDigest: string, manifestDigest: string, bundleDigest: string)

  /** `releases` maps each release directory to what verifying it yields, `None` if it fails. */
  datatype Disk = Disk(
    files: map<Path, Bytes>, releases: map<string, Option<VerifiedRelease>>, staged: map<string, VerifiedRelease>)

  function Get(d: Disk, p: Path): Option<Bytes> {
    if p in d.files then Some(d.files[p]) else None
  }

  function Put(d: Disk, p: Path, b: Bytes): Disk {
    d.(files := d.files[p := b])
  }

  function Drop(d: Disk, p: Path): Disk {
    d.(files := d.files - {p})
  }

  function Verified(d: Disk, version: string): Option<VerifiedRelease> {
    if version in d.releases then d.releases[version] else None
  }

  // ---- Receipts ----

  datatype Status = Prepared | Committed | RolledBack
  datatype Operation = Install | Update | Uninstall

  /** `rules` tells whether the transaction writes local rules, that is, names their path. */
  datatype Receipt = Receipt(
    schemaVersion: nat, id: string, binding: string, status: Status, operation: Operation,
    release: string, releaseExisted: bool, releaseIdentity: bool,
    entryExisted: bool, currentExisted: bool, rules: bool, rulesExisted: bool,
    entryBackup: Option<string>, currentBackup: Option<string>, rulesBackup: Option<string>,
    entryApplied: string, currentApplied: Option<string>, rulesApplied: Option<string>)

  datatype Metadata = Metadata(schemaVersion: nat, binding: ManagedBlock.Binding, targetRoot: string, entryFile: string)

  /** A request and the codecs the installer works with. `release` is the verified release it
      brings, `shipped` the local rules inside it and `rules` those the caller names. */
  datatype Setting = Setting(
    installationRoot: string, targetRoot: string, entryFile: string, binding: string,
    release: VerifiedRelease, shipped: Option<Bytes>, rules: Option<Bytes>,
    wording: ManagedBlock.Wording,
    digest: Bytes -> string,
    renderReceipt: Receipt -> Bytes, parseReceipt: Bytes -> Option<Receipt>,
    renderCurrent: Metadata -> Bytes, parseCurrent: Bytes -> Option<Metadata>,
    version: string -> Option<SemVer.Version>, canonical: Bytes -> bool)

  /** JSON text reads back as the value it was written from; a verified release has a version. */
  ghost predicate Faithful(s: Setting) {
    && (forall r :: s.parseReceipt(s.renderReceipt(r)) == Some(r))
    && (forall m :: s.parseCurrent(s.renderCurrent(m)) == Some(m))
    && s.version(s.release.version).Some?
  }

  const ABSENT: Bytes := "absent\n"

  predicate ValidReceipt(s: Setting, r: Receipt) {
    && r.schemaVersion == 1 && r.binding == s.binding
    && s.version(r.release).Some?
    && (r.rulesExisted ==> r.rules)
    && r.entryExisted == r.entryBackup.Some?
    && r.currentExisted == r.currentBackup.Some?
    && r.rulesExisted == r.rulesBackup.Some?
    && r.rules == r.rulesApplied.Some?
    && (r.releaseExisted || r.operation != Uninstall) == r.releaseIdentity
    && (r.operation == Uninstall) == r.currentApplied.None?
  }

  function ReadReceipt(s: Setting, bytes: Bytes): Result<Receipt> {
    match s.parseReceipt(bytes)
    case None => Failure
    case Some(r) => if ValidReceipt(s, r) then Success(r) else Failure
  }

  predicate IsVerified(s: Setting, d: Disk, id: string, name: BackupName, digest: string) {
    var b := Get(d, Backup(id, name));
    b.Some? && s.digest(b.value) == digest
  }

  predicate OptionallyVerified(s: Setting, d: Disk, id: string, name: BackupName, absent: BackupName, digest: Option<string>) {
    if digest.None? then IsVerified(s, d, id, absent, s.digest(ABSENT)) else IsVerified(s, d, id, name, digest.value)
  }

  /** `validateBackupEvidence`. */
  predicate Evidence(s: Setting, d: Disk, r: Receipt) {
    && OptionallyVerified(s, d, r.id, EntryBin, EntryAbsent, r.entryBackup)
    && OptionallyVerified(s, d, r.id, CurrentJson, CurrentAbsent, r.currentBackup)
    && IsVerified(s, d, r.id, EntryApplied, r.entryApplied)
    && OptionallyVerified(s, d, r.id, CurrentApplied, CurrentAppliedAbsent, r.currentApplied)
    && (r.rulesBackup.Some? ==> IsVerified(s, d, r.id, LocalRulesBin, r.rulesBackup.value))
    && (r.rulesApplied.Some? ==> IsVerified(s, d, r.id, LocalRulesApplied, r.rulesApplied.value))
  }

  predicate RecoverableSplit(top: Status, backup: Status) {
    || (top == Committed && (backup == Prepared || backup == RolledBack))
    || (top == Prepared && backup == RolledBack)
  }

  /** Both copies are valid, differ in nothing but an admitted split of their status, and the
      backups they name are in place. */
  predicate CopiesMatch(s: Setting, d: Disk, bytes: Bytes, r: Receipt, backup: Bytes, b: Receipt) {
    && r == b.(status := r.status)
    && (if r.status == b.status then bytes == backup else RecoverableSplit(r.status, b.status))
    && Evidence(s, d, r)
  }

  function ReceiptWithMatchingBackup(s: Setting, d: Disk, bytes: Bytes): Result<Receipt> {
    var r :- ReadReceipt(s, bytes);
    match Get(d, Backup(r.id, ReceiptJson))
    case None => Failure
    case Some(backup) =>
      var b :- ReadReceipt(s, backup);
      if CopiesMatch(s, d, bytes, r, backup, b) then Success(r) else Failure
  }

  // ---- The classifier ----

  function BuildBinding(v: VerifiedRelease, root: string): ManagedBlock.Binding {
    var base := root + "/releases/" + v.version + "/bundle";
    ManagedBlock.Binding(
      v.version, root, base + "/GOVERNANCE.md", base + "/agent-governance/manifest.toml",
      v.governanceDigest, v.manifestDigest, v.bundleDigest)
  }

  /** What the block of a release tells its reader, line by line. */
  lemma BlockNamesTheRelease(v: VerifiedRelease, root: string)
    ensures var bundle := root + "/releases/" + v.version + "/bundle";
      ManagedBlock.FieldLines(ManagedBlock.SOURCE_WORDING, BuildBinding(v, root)) == [
        "Governance version: " + v.version,
        "Canonical " + "installation root: " + root,
        "Normative " + "governance entry: " + (bundle + "/GOVERNANCE.md"),
        "Normative manifest: " + (bundle + "/agent-governance/manifest.toml"),
        "Expected " + "governance SHA-256: " + v.governanceDigest,
        "Expected " + "manifest SHA-256: " + v.manifestDigest,
        "Expected " + "bundle SHA-256: " + v.bundleDigest ]
  {
  }

  function ExpectedMetadata(s: Setting, v: VerifiedRelease): Metadata {
    Metadata(1, BuildBinding(v, s.installationRoot), s.targetRoot, s.entryFile)
  }

  datatype State = Fresh | Absent | IsCurrent | Outdated | DowngradeBlocked | Tampered | RecoveryRequired

  function EntryText(d: Disk): Bytes {
    match Get(d, Entry)
    case None => ""
    case Some(text) => text
  }

  /** Optional local rules that are there must be canonical. */
  predicate RulesReadable(s: Setting, d: Disk, version: string) {
    Get(d, LocalRules(version)).Some? ==> s.canonical(Get(d, LocalRules(version)).value)
  }

  /** The metadata in `current.json` describes the verified release it names and this target. */
  predicate MetadataHolds(s: Setting, d: Disk, m: Metadata) {
    var v := m.binding.version;
    && s.version(v).Some?
    && Verified(d, v).Some?
    && s.version(Verified(d, v).value.version).Some?
    && m == ExpectedMetadata(s, Verified(d, v).value)
    && RulesReadable(s, d, v)
    && ManagedBlock.Verify(s.wording, EntryText(d), m.binding)
  }

  function Compared(s: Setting, installed: VerifiedRelease): State
    requires s.version(s.release.version).Some? && s.version(installed.version).Some?
  {
    var comparison := SemVer.Compare(s.version(s.release.version).value, s.version(installed.version).value);
    if comparison == 0 then if s.release.bundleDigest == installed.bundleDigest then IsCurrent else Tampered
    else if comparison > 0 then Outdated
    else DowngradeBlocked
  }

  function ClassifyFiles(s: Setting, d: Disk): State {
    match Get(d, Current)
    case None =>
      if TextSearch.Contains(EntryText(d), ManagedBlock.STEM) then Tampered
      else if Get(d, Entry).Some? then Fresh
      else Absent
    case Some(bytes) =>
      match s.parseCurrent(bytes)
      case None => Tampered
      case Some(m) =>
        if s.version(s.release.version).Some? && MetadataHolds(s, d, m)
        then Compared(s, Verified(d, m.binding.version).value)
        else Tampered
  }

  /** `resolveContext`, as the state it reports. */
  function Classify(s: Setting, d: Disk): State {
    match Get(d, Top)
    case None => if Get(d, Current).Some? then Tampered else ClassifyFiles(s, d)
    case Some(top) =>
      match ReceiptWithMatchingBackup(s, d, top)
      case Failure => Tampered
      case Success(r) =>
        if r.status == Prepared || Get(d, Backup(r.id, ReceiptJson)) != Some(top) then RecoveryRequired
        else ClassifyFiles(s, d)
  }

  // ---- The statuses of the two copies of one receipt ----

  datatype Pair = Pair(top: Status, backup: Status)

  /** The writes of `performMutation`, its final revert, and `restore`. */
  predicate PairStep(x: Pair, y: Pair) {
    || (x == Pair(Prepared, Prepared) && y == Pair(Committed, Prepared))     // commit the top copy
    || (x == Pair(Committed, Prepared) && y == Pair(Committed, Committed))   // commit the backup copy
    || (x == Pair(Committed, Committed) && y == Pair(Committed, Prepared))   // take the backup's commit back
    || (x == Pair(Committed, Prepared) && y == Pair(Prepared, Prepared))     // take the top's commit back
    || (x.top != RolledBack && y == Pair(x.top, RolledBack))                 // restore: the backup copy first
    || (x.backup == RolledBack && y == Pair(RolledBack, RolledBack))         // then the top copy
  }

  ghost predicate PairRun(run: seq<Pair>) {
    && run != [] && run[0] == Pair(Prepared, Prepared)
    && forall i :: 0 < i < |run| ==> PairStep(run[i - 1], run[i])
  }

  ghost predicate ReachablePair(p: Pair) {
    exists run :: PairRun(run) && run[|run| - 1] == p
  }

  predicate IsKnownPair(p: Pair) {
    p.top == p.backup || RecoverableSplit(p.top, p.backup)
  }

  lemma {:induction false} RunsStayKnown(run: seq<Pair>)
    requires PairRun(run)
    ensures IsKnownPair(run[|run| - 1])
  {
    if |run| > 1 {
      var before := run[..|run| - 1];
      assert PairRun(before);
      RunsStayKnown(before);
      assert PairStep(before[|before| - 1], run[|run| - 1]);
    }
  }

  lemma ExtendRun(run: seq<Pair>, p: Pair)
    requires PairRun(run) && PairStep(run[|run| - 1], p)
    ensures PairRun(run + [p])
  {
    var longer := run + [p];
    assert forall i :: 0 <= i < |longer| ==> longer[i] == if i < |run| then run[i] else p;
  }

  /** Exactly six pairs occur: the three equal ones and the three admitted splits. */
  lemma ExactlySixPairs(p: Pair)
    ensures ReachablePair(p) <==> IsKnownPair(p)
  {
    if ReachablePair(p) {
      var run :| PairRun(run) && run[|run| - 1] == p;
      RunsStayKnown(run);
    }
    if IsKnownPair(p) {
      var pp, cp, cc := Pair(Prepared, Prepared), Pair(Committed, Prepared), Pair(Committed, Committed);
      var pr, cr, rr := Pair(Prepared, RolledBack), Pair(Committed, RolledBack), Pair(RolledBack, RolledBack);
      var committing := [pp, cp];
      assert PairRun([pp]);
      ExtendRun([pp], cp);
      assert [pp] + [cp] == committing;
      ExtendRun(committing, cc);
      ExtendRun(committing, cr);
      ExtendRun([pp], pr);
      ExtendRun([pp] + [pr], rr);
      assert p == pp || p == cp || p == cc || p == pr || p == cr || p == rr;
      assert ([pp])[0] == pp && (committing)[1] == cp && (committing + [cc])[2] == cc && (committing + [cr])[2] == cr;
      assert ([pp] + [pr])[1] == pr && ([pp] + [pr] + [rr])[2] == rr;
    }
  }

  /** Both copies of `r`, with the given statuses, are on disk with their backups. */
  predicate Copies(s: Setting, d: Disk, r: Receipt, p: Pair) {
    && Get(d, Top) == Some(s.renderReceipt(r.(status := p.top)))
    && Get(d, Backup(r.id, ReceiptJson)) == Some(s.renderReceipt(r.(status := p.backup)))
  }

  lemma ReadBack(s: Setting, r: Receipt, status: Status)
    requires Faithful(s) && ValidReceipt(s, r)
    ensures ReadReceipt(s, s.renderReceipt(r.(status := status))) == Success(r.(status := status))
  {
    assert s.parseReceipt(s.renderReceipt(r.(status := status))) == Some(r.(status := status));
  }

  /** The reader accepts two copies exactly in the statuses a run can leave them in. */
  lemma AcceptedExactlyWhenReachable(s: Setting, d: Disk, r: Receipt, p: Pair)
    requires Faithful(s) && ValidReceipt(s, r) && Evidence(s, d, r) && Copies(s, d, r, p)
    ensures var top := Get(d, Top).value;
      && (ReceiptWithMatchingBackup(s, d, top).Success? <==> ReachablePair(p))
      && (ReachablePair(p) ==> ReceiptWithMatchingBackup(s, d, top) == Success(r.(status := p.top)))
  {
    hide ReachablePair;
    ExactlySixPairs(p);
    ReadBack(s, r, p.top);
    ReadBack(s, r, p.backup);
  }

  /** And it asks for recovery exactly in the four pairs that are not settled. */
  lemma RecoveryExactlyWhenUnsettled(s: Setting, d: Disk, r: Receipt, p: Pair)
    requires Faithful(s) && ValidReceipt(s, r) && Evidence(s, d, r) && Copies(s, d, r, p) && ReachablePair(p)
    ensures p.top == Prepared || p.top != p.backup ==> Classify(s, d) == RecoveryRequired
    ensures p == Pair(Committed, Committed) || p == Pair(RolledBack, RolledBack) ==> Classify(s, d) == ClassifyFiles(s, d)
    ensures Classify(s, d) == RecoveryRequired <==>
      p in {Pair(Prepared, Prepared), Pair(Committed, Prepared), Pair(Prepared, RolledBack), Pair(Committed, RolledBack)}
  {
    hide ReachablePair, ClassifyFiles;
    ExactlySixPairs(p);
    AcceptedExactlyWhenReachable(s, d, r, p);
    ReadBack(s, r, p.top);
    ReadBack(s, r, p.backup);
    FilesNeverAskForRecovery(s, d);
  }

  lemma FilesNeverAskForRecovery(s: Setting, d: Disk)
    ensures ClassifyFiles(s, d) != RecoveryRequired
  {
    hide MetadataHolds, Compared;
    match Get(d, Current) {
      case None =>
      case Some(bytes) =>
        match s.parseCurrent(bytes) {
          case None =>
          case Some(m) =>
            if s.version(s.release.version).Some? && MetadataHolds(s, d, m) {
              NeverRecovery(s, d, m);
            }
        }
    }
  }

  lemma NeverRecovery(s: Setting, d: Disk, m: Metadata)
    requires s.version(s.release.version).Some? && MetadataHolds(s, d, m)
    ensures Compared(s, Verified(d, m.binding.version).value) != RecoveryRequired
  {
  }
}
