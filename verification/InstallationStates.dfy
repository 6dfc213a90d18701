/** What the classifier says after a run, after a crash and after a recovery. */
module InstallationStates {
  import opened Wrappers
  import opened Installation
  import opened Recovery
  import opened TransactionPlan
  import TextSearch
  import ManagedBlock
  import SemVer

  /** No transaction of this id has been here. */
  ghost predicate Unused(id: string, d: Disk) {
    && Get(d, Detached(id)).None?
    && forall name :: Get(d, Backup(id, name)).None?
  }

  predicate IsAccepted(state: State) {
    state == Fresh || state == Absent || state == IsCurrent || state == Outdated
  }

  // ---- The classifier reads only a few places ----

  /** The places the files' part of the classifier reads. */
  predicate SameFiles(s: Setting, d: Disk, d': Disk) {
    && Get(d', Entry) == Get(d, Entry) && Get(d', Current) == Get(d, Current)
    && (InstalledVersion(s, d).Some? ==>
          var v := InstalledVersion(s, d).value;
          && Verified(d', v) == Verified(d, v)
          && RulesReadable(s, d', v) == RulesReadable(s, d, v))
  }

  lemma SameFilesSameState(s: Setting, d: Disk, d': Disk)
    requires SameFiles(s, d, d')
    ensures ClassifyFiles(s, d') == ClassifyFiles(s, d)
  {
    hide Get, Verified, RulesReadable, Compared, ManagedBlock.Verify;
    match Get(d, Current) {
      case None =>
      case Some(bytes) =>
        match s.parseCurrent(bytes) {
          case None =>
          case Some(m) =>
            assert InstalledVersion(s, d) == Some(m.binding.version);
            assert MetadataHolds(s, d', m) == MetadataHolds(s, d, m);
        }
    }
  }

  lemma SameReceipts(s: Setting, d: Disk, d': Disk, top: Bytes, r: Receipt)
    requires ReceiptWithMatchingBackup(s, d, top) == Success(r)
    requires forall name :: Get(d', Backup(r.id, name)) == Get(d, Backup(r.id, name))
    ensures ReceiptWithMatchingBackup(s, d', top) == Success(r)
  {
    hide Get, ValidReceipt;
  }

  /** A run that stops before its receipt is in place changes no state. */
  lemma UntouchedKeepsState(s: Setting, id: string, d0: Disk, d: Disk)
    requires Unused(id, d0) && Untouched(id, d0, d) && IsAccepted(Classify(s, d0))
    ensures Classify(s, d) == Classify(s, d0)
  {
    hide Get, ClassifyFiles, ReceiptWithMatchingBackup;
    SameFilesSameState(s, d0, d) by {
      hide *;
      UntouchedFiles(s, id, d0, d);
    }
    match Get(d0, Top) {
      case None =>
      case Some(top) =>
        match ReceiptWithMatchingBackup(s, d0, top) {
          case Failure =>
          case Success(r) =>
            MatchingIsThere(s, d0, top, r);
            SameReceipts(s, d0, d, top, r);
        }
    }
  }

  lemma MatchingIsThere(s: Setting, d: Disk, top: Bytes, r: Receipt)
    requires ReceiptWithMatchingBackup(s, d, top) == Success(r)
    ensures Get(d, Backup(r.id, ReceiptJson)).Some?
  {
    hide Get, CopiesMatch, ValidReceipt;
  }

  lemma UntouchedFiles(s: Setting, id: string, d0: Disk, d: Disk)
    requires Untouched(id, d0, d)
    ensures SameFiles(s, d0, d)
  {
    hide Get;
  }

  // ---- What the states mean ----

  /** The two copies of the last receipt agree, and it is committed or rolled back. */
  predicate ReceiptsSettled(s: Setting, d: Disk) {
    && Get(d, Top).Some? && ReceiptWithMatchingBackup(s, d, Get(d, Top).value).Success?
    && var r := ReceiptWithMatchingBackup(s, d, Get(d, Top).value).value;
       r.status != Prepared && Get(d, Backup(r.id, ReceiptJson)) == Get(d, Top)
  }

  /** The metadata name a release that is there and verifies, and repeat it and the request field by
      field; its local rules can be read, and the entry holds its block as it was written. */
  predicate Intact(s: Setting, d: Disk, m: Metadata) {
    var v, bundle := m.binding.version, s.installationRoot + "/releases/" + m.binding.version + "/bundle";
    && m.schemaVersion == 1 && m.targetRoot == s.targetRoot && m.entryFile == s.entryFile
    && m.binding.installationRoot == s.installationRoot && s.version(v).Some?
    && v in d.releases && d.releases[v].Some? && d.releases[v].value.version == v
    && m.binding.governancePath == bundle + "/GOVERNANCE.md" && m.binding.manifestPath == bundle + "/agent-governance/manifest.toml"
    && m.binding.governanceDigest == d.releases[v].value.governanceDigest
    && m.binding.manifestDigest == d.releases[v].value.manifestDigest
    && m.binding.bundleDigest == d.releases[v].value.bundleDigest
    && (LocalRules(v) in d.files ==> s.canonical(d.files[LocalRules(v)]))
    && ManagedBlock.Verify(s.wording, if Entry in d.files then d.files[Entry] else "", m.binding)
  }

  lemma IntactExactly(s: Setting, d: Disk, m: Metadata)
    ensures MetadataHolds(s, d, m) <==> Intact(s, d, m)
  {
    hide ManagedBlock.Verify;
  }

  /** Over an intact installation the precedence of the requested version against the installed one
      decides. */
  lemma InstalledIsRanked(s: Setting, d: Disk, m: Metadata)
    requires ReceiptsSettled(s, d) && s.version(s.release.version).Some?
    requires Get(d, Current).Some? && s.parseCurrent(Get(d, Current).value) == Some(m) && Intact(s, d, m)
    ensures var requested, installed := s.version(s.release.version).value, s.version(m.binding.version).value;
      var same := s.release.bundleDigest == m.binding.bundleDigest;
      && (Classify(s, d) == Outdated <==> SemVer.Higher(requested, installed) || SemVer.Tied(requested, installed))
      && (Classify(s, d) == DowngradeBlocked <==> SemVer.Higher(installed, requested))
      && (Classify(s, d) == IsCurrent <==> requested == installed && same)
      && (Classify(s, d) == Tampered <==> requested == installed && !same)
  {
    hide Get, ReceiptWithMatchingBackup, ManagedBlock.Verify, RulesReadable, SemVer.Higher, SemVer.Tied, SemVer.Compare;
    IntactExactly(s, d, m);
    hide Intact;
    var requested, installed := s.version(s.release.version).value, s.version(m.binding.version).value;
    assert Verified(d, m.binding.version).value.version == m.binding.version;
    SemVer.CompareIsPrecedence(requested, installed);
    SemVer.CompareRange(requested, installed);
    SemVer.NotBoth(requested, installed);
  }

  /** Without metadata, the entry alone decides. */
  lemma UninstalledIsRanked(s: Setting, d: Disk)
    requires ReceiptsSettled(s, d) || Get(d, Top).None?
    requires Get(d, Current).None?
    ensures Classify(s, d) == Absent <==> Get(d, Entry).None?
    ensures Classify(s, d) == Fresh <==> Get(d, Entry).Some? && !TextSearch.Contains(Get(d, Entry).value, ManagedBlock.STEM)
    ensures Classify(s, d) == Tampered <==> Get(d, Entry).Some? && TextSearch.Contains(Get(d, Entry).value, ManagedBlock.STEM)
  {
    hide Get, ReceiptWithMatchingBackup, TextSearch.Contains;
    if Get(d, Entry).None? {
      NothingInEmptyText();
    }
  }

  lemma NothingInEmptyText()
    ensures !TextSearch.Contains("", ManagedBlock.STEM)
  {
  }

  /** The metadata describe something else than what is there. */
  predicate Unfounded(s: Setting, d: Disk) {
    && Get(d, Current).Some? && s.parseCurrent(Get(d, Current).value).Some?
    && !Intact(s, d, s.parseCurrent(Get(d, Current).value).value)
  }

  /** Metadata that nothing vouches for are tampered with: no receipt, a receipt that does not read,
      or metadata that do not hold. */
  lemma UnfoundedIsTampered(s: Setting, d: Disk)
    ensures Get(d, Top).None? && Get(d, Current).Some? ==> Classify(s, d) == Tampered
    ensures Get(d, Top).Some? && ReceiptWithMatchingBackup(s, d, Get(d, Top).value).Failure? ==> Classify(s, d) == Tampered
    ensures ReceiptsSettled(s, d) && Get(d, Current).Some? && s.parseCurrent(Get(d, Current).value).None? ==> Classify(s, d) == Tampered
    ensures ReceiptsSettled(s, d) && Unfounded(s, d) ==> Classify(s, d) == Tampered
  {
    hide Get, ReceiptWithMatchingBackup, MetadataHolds, Intact, Compared;
    if Unfounded(s, d) {
      IntactExactly(s, d, s.parseCurrent(Get(d, Current).value).value);
    }
  }

  // ---- After a recovery ----

  /** Rules written by a transaction are readable, and so are those it replaced. */
  predicate RulesAreCanonical(s: Setting, plan: Plan) {
    && (RulesSource(plan).Some? ==> s.canonical(RulesSource(plan).value))
    && (RulesPrevious(plan).Some? ==> s.canonical(RulesPrevious(plan).value))
  }

  lemma PlannedRulesAreCanonical(s: Setting, d: Disk, op: Operation, id: string)
    requires MakePlan(s, d, op, id).Success?
    ensures var plan := MakePlan(s, d, op, id).value;
      RulesAreCanonical(s, plan) && PlanFits(s, plan) == s.version(s.release.version).Some?
  {
    hide Get, ManagedBlock.Install, ManagedBlock.Remove;
  }

  /** The installed release was there before, so its files are as they were, or were rewritten
      with readable rules. */
  lemma InstalledReleaseStays(s: Setting, plan: Plan, d0: Disk, d: Disk, pair: Pair, gap: Gap, v: string)
    requires InTransaction(s, plan, d0, d, pair, gap) && RulesAreCanonical(s, plan)
    requires plan.releaseExisted <==> plan.release in d0.releases
    requires Verified(d0, v).Some? && RulesReadable(s, d0, v)
    ensures Verified(d, v) == Verified(d0, v) && RulesReadable(s, d, v)
  {
    hide BackupWritten, Copies, EntryInFlight;
    assert v != plan.release ==> !OwnPath(plan, LocalRules(v)) && Get(d, LocalRules(v)) == Get(d0, LocalRules(v));
  }

  /** With both receipts rolled back and both images restored, the state is the one before the run. */
  lemma RecoveredKeepsState(s: Setting, plan: Plan, d0: Disk, d: Disk, gap: Gap)
    requires Faithful(s) && PlanFits(s, plan) && RulesAreCanonical(s, plan)
    requires plan.releaseExisted <==> plan.release in d0.releases
    requires plan.entryBefore == Get(d0, Entry) && plan.currentBefore == Get(d0, Current)
    requires IsAccepted(Classify(s, d0))
    requires InTransaction(s, plan, d0, d, Pair(RolledBack, RolledBack), gap)
    requires Get(d, Entry) == plan.entryBefore && Get(d, Current) == plan.currentBefore
    ensures Classify(s, d) == Classify(s, d0)
  {
    hide Get, ClassifyFiles, ReceiptWithMatchingBackup, InTransaction, Copies, Evidence, ReachablePair;
    AcceptedFiles(s, d0);
    assert SameFiles(s, d0, d) by {
      if InstalledVersion(s, d0).Some? {
        InstalledReleaseStays(s, plan, d0, d, Pair(RolledBack, RolledBack), gap, InstalledVersion(s, d0).value);
      }
    }
    SameFilesSameState(s, d0, d);
    SettledIsClassified(s, plan, d0, d, RolledBack, gap);
  }

  lemma AcceptedFiles(s: Setting, d: Disk)
    requires IsAccepted(Classify(s, d))
    ensures Classify(s, d) == ClassifyFiles(s, d)
    ensures InstalledVersion(s, d).Some? ==>
      Verified(d, InstalledVersion(s, d).value).Some? && RulesReadable(s, d, InstalledVersion(s, d).value)
    ensures Get(d, Current).Some? ==> InstalledVersion(s, d).Some?
  {
    hide ReceiptWithMatchingBackup, ManagedBlock.Verify, Compared;
  }

  lemma SettledIsClassified(s: Setting, plan: Plan, d0: Disk, d: Disk, status: Status, gap: Gap)
    requires Faithful(s) && PlanFits(s, plan) && status != Prepared
    requires InTransaction(s, plan, d0, d, Pair(status, status), gap)
    ensures Classify(s, d) == ClassifyFiles(s, d)
  {
    hide Get, ClassifyFiles, ReachablePair;
    BackupsProveTheReceipt(s, plan, d, Prepared);
    ExactlySixPairs(Pair(status, status));
    RecoveryExactlyWhenUnsettled(s, d, ReceiptOf(s, plan, Prepared), Pair(status, status));
  }

  /** In every other state of the pair the classifier asks for recovery. */
  lemma UnsettledAsksForRecovery(s: Setting, plan: Plan, d0: Disk, d: Disk, pair: Pair, gap: Gap)
    requires Faithful(s) && PlanFits(s, plan) && InTransaction(s, plan, d0, d, pair, gap)
    ensures Classify(s, d) == RecoveryRequired <==>
      pair in {Pair(Prepared, Prepared), Pair(Committed, Prepared), Pair(Prepared, RolledBack), Pair(Committed, RolledBack)}
  {
    hide Get, ClassifyFiles, ReachablePair;
    BackupsProveTheReceipt(s, plan, d, Prepared);
    ExactlySixPairs(pair);
    RecoveryExactlyWhenUnsettled(s, d, ReceiptOf(s, plan, Prepared), pair);
  }

  // ---- After a success ----

  /** Releases with equal bundle digests are equal, for the release a run brings. */
  predicate DigestTells(s: Setting, d: Disk) {
    Verified(d, s.release.version).Some? && Verified(d, s.release.version).value.bundleDigest == s.release.bundleDigest ==>
      Verified(d, s.release.version).value == s.release
  }

  lemma VersionEqualsItself(v: SemVer.Version)
    ensures SemVer.Compare(v, v) == 0
  {
    if v.pre.Some? {
      IdsEqualThemselves(v.pre.value);
    }
  }

  lemma {:induction false} IdsEqualThemselves(x: seq<string>)
    ensures SemVer.CompareIds(x, x) == 0
  {
    if x != [] {
      IdsEqualThemselves(x[1..]);
    }
  }

  /** An installed or updated binding, committed in both receipts, is current. */
  lemma InstalledIsCurrent(s: Setting, plan: Plan, d0: Disk, d: Disk, gap: Gap)
    requires Faithful(s) && PlanFits(s, plan) && plan.operation != Uninstall
    requires InTransaction(s, plan, d0, d, Pair(Committed, Committed), gap)
    requires Get(d, Entry) == Some(plan.entryApplied)
    requires plan.currentApplied == Some(s.renderCurrent(ExpectedMetadata(s, s.release))) && Get(d, Current) == plan.currentApplied
    requires ManagedBlock.Verify(s.wording, plan.entryApplied, BuildBinding(s.release, s.installationRoot))
    requires Verified(d, s.release.version) == Some(s.release) && RulesReadable(s, d, s.release.version)
    ensures Classify(s, d) == IsCurrent
  {
    hide InTransaction, ManagedBlock.Verify;
    SettledIsClassified(s, plan, d0, d, Committed, gap);
    var m := ExpectedMetadata(s, s.release);
    assert s.parseCurrent(s.renderCurrent(m)) == Some(m);
    assert MetadataHolds(s, d, m);
    VersionEqualsItself(s.version(s.release.version).value);
  }

  /** An uninstalled binding is fresh unless marker text remains in the entry. */
  lemma UninstalledIsFresh(s: Setting, plan: Plan, d0: Disk, d: Disk, gap: Gap)
    requires Faithful(s) && PlanFits(s, plan) && plan.operation == Uninstall
    requires InTransaction(s, plan, d0, d, Pair(Committed, Committed), gap)
    requires Get(d, Entry) == Some(plan.entryApplied) && Get(d, Current).None?
    ensures Classify(s, d) == if TextSearch.Contains(plan.entryApplied, ManagedBlock.STEM) then Tampered else Fresh
  {
    hide InTransaction;
    SettledIsClassified(s, plan, d0, d, Committed, gap);
  }
}
