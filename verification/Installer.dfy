/** The installer's commands and what they leave for the next one: `mutate` and `rollback` of
    src/transaction.ts, with the classifier of src/installer/context.ts. */
module Installer {
  import opened Wrappers
  import opened Installation
  import opened FileSystem
  import opened Recovery
  import opened TransactionPlan
  import opened InstallationStates
  import opened Transaction
  import TextSearch
  import ManagedBlock
  import SemVer

  // ---- A state that admits the operation makes a plan that can run ----

  /** No block verifies in an empty text. */
  lemma NothingVerifiesInEmptyText(w: ManagedBlock.Wording, b: ManagedBlock.Binding)
    ensures !ManagedBlock.Verify(w, "", b)
  {
    var p := ManagedBlock.Parse("");
    if p.Success? && p.value.span.Some? {
      assert ManagedBlock.SpanOf("", p.value);
      ManagedBlock.MarkerFacts();
    }
  }

  lemma InstalledHasFiles(s: Setting, d: Disk)
    requires Classify(s, d) == IsCurrent || Classify(s, d) == Outdated
    ensures Get(d, Entry).Some? && Get(d, Current).Some?
  {
    hide ReceiptWithMatchingBackup, ManagedBlock.Verify;
    AcceptedFiles(s, d);
    forall b
      ensures !ManagedBlock.Verify(s.wording, "", b)
    {
      NothingVerifiesInEmptyText(s.wording, b);
    }
  }

  lemma PlanRuns(s: Setting, d: Disk, op: Operation, id: string)
    requires Faithful(s) && Unused(id, d) && Decide(s, d, op) == Proceed && MakePlan(s, d, op, id).Success?
    ensures var plan := MakePlan(s, d, op, id).value;
      && PlannedOn(s, plan, d) && RulesAreCanonical(s, plan) && plan.operation == op
      && (op == Uninstall ==> plan.entryBefore.Some? && plan.currentBefore.Some? && plan.rules.None? && plan.currentApplied.None?)
      && (op != Uninstall ==> plan.currentApplied == Some(s.renderCurrent(ExpectedMetadata(s, s.release))))
      && (op != Uninstall ==> TextSearch.Contains(plan.entryApplied, ManagedBlock.STEM))
  {
    if op != Uninstall {
      InstalledIsMarked(s.wording, EntryText(d), BuildBinding(s.release, s.installationRoot));
    }
    hide Get, Classify, RulesReadable, ManagedBlock.Install, ManagedBlock.Remove;
    PlannedRulesAreCanonical(s, d, op, id);
    if op == Uninstall {
      InstalledHasFiles(s, d);
    }
    PlannedRulesArePrevious(s, d);
  }

  lemma MarkerInside(x: string, block: string, y: string)
    requires TextSearch.At(block, 0, ManagedBlock.BEGIN)
    ensures TextSearch.Contains(x + block + y, ManagedBlock.STEM)
  {
    var open := "<!-- BEGIN ";
    var at, t := |x| + |open|, x + block + y;
    assert ManagedBlock.BEGIN == open + ManagedBlock.STEM + ManagedBlock.CURRENT_VERSION;
    assert t[at..at + |ManagedBlock.STEM|] == block[|open|..|open| + |ManagedBlock.STEM|] == block[..|ManagedBlock.BEGIN|][|open|..|open| + |ManagedBlock.STEM|];
    assert TextSearch.At(t, at, ManagedBlock.STEM);
  }

  /** An installed text contains marker text. */
  lemma InstalledIsMarked(w: ManagedBlock.Wording, text: string, b: ManagedBlock.Binding)
    requires ManagedBlock.Install(w, text, b).Success?
    ensures TextSearch.Contains(ManagedBlock.Install(w, text, b).value, ManagedBlock.STEM)
  {
    hide ManagedBlock.Parse, ManagedBlock.BoundaryFlags, ManagedBlock.Projection, TextSearch.Contains, TextSearch.EndsWith;
    var p := ManagedBlock.Parse(text).value;
    if p.span.Some? {
      var (start, end) := p.span.value;
      var flags := ManagedBlock.BoundaryFlags(w, text[start..end]).value;
      ManagedBlock.ProjectionShape(w, b, p.eol, flags.0, flags.1);
      MarkerInside(text[..start], ManagedBlock.Projection(w, b, p.eol, flags.0, flags.1), text[end..]);
    } else {
      var added := text != "" && !TextSearch.EndsWith(text, "\n");
      ManagedBlock.ProjectionShape(w, b, p.eol, added, true);
      MarkerInside(text + (if added then p.eol else ""), ManagedBlock.Projection(w, b, p.eol, added, true), p.eol);
    }
  }

  lemma PlannedRulesArePrevious(s: Setting, d: Disk)
    ensures RulesMutation(s, d).Success? && RulesMutation(s, d).value.Some? ==>
      RulesMutation(s, d).value.value.previous == Get(d, LocalRules(s.release.version))
  {
  }

  // ---- What a run leaves ----

  /** The classifier after a successful run. */
  lemma SuccessIsClassified(s: Setting, plan: Plan, d0: Disk, d: Disk)
    requires Faithful(s) && PlannedOn(s, plan, d0) && Applied(s, plan, d)
    requires InTransaction(s, plan, d0, d, Pair(Committed, Committed), NO_GAP)
    requires plan.operation == Uninstall ==> plan.currentApplied.None?
    requires plan.operation != Uninstall ==> plan.currentApplied == Some(s.renderCurrent(ExpectedMetadata(s, s.release)))
    ensures plan.operation != Uninstall && DigestTells(s, d0) ==> Classify(s, d) == IsCurrent
    ensures plan.operation == Uninstall ==>
      Classify(s, d) == if TextSearch.Contains(plan.entryApplied, ManagedBlock.STEM) then Tampered else Fresh
  {
    hide Get, Classify, BackupWritten, Copies, ReceiptsHonest, ManagedBlock.Verify, ManagedBlock.Remove, RulesReadable, Unused;
    if plan.operation == Uninstall {
      UninstalledIsFresh(s, plan, d0, d, NO_GAP);
    } else if DigestTells(s, d0) {
      assert Verified(d, plan.release) == Some(s.release);
      InstalledIsCurrent(s, plan, d0, d, NO_GAP);
    }
  }

  /** Whatever happened, the classifier either sees the state before the run, or asks for recovery,
      or both receipts have reached the same final status. */
  lemma LeftIsClassified(s: Setting, plan: Plan, d0: Disk, d: Disk, gap: Gap)
    requires Faithful(s) && PlannedOn(s, plan, d0) && IsAccepted(Classify(s, d0)) && Left(s, plan, d0, d, gap)
    ensures
      || Classify(s, d) == Classify(s, d0)
      || Classify(s, d) == RecoveryRequired
      || InTransaction(s, plan, d0, d, Pair(Committed, Committed), gap)
      || InTransaction(s, plan, d0, d, Pair(RolledBack, RolledBack), gap)
  {
    hide Get, Classify, InTransaction;
    if Untouched(plan.id, d0, d) {
      UntouchedKeepsState(s, plan.id, d0, d);
    } else {
      var pair :| InTransaction(s, plan, d0, d, pair, gap);
      UnsettledAsksForRecovery(s, plan, d0, d, pair, gap);
      PairIsKnown(s, plan, d0, d, pair, gap);
    }
  }

  lemma PairIsKnown(s: Setting, plan: Plan, d0: Disk, d: Disk, pair: Pair, gap: Gap)
    requires InTransaction(s, plan, d0, d, pair, gap)
    ensures IsKnownPair(pair)
  {
  }

  /** The metadata of before describes the entry as the run has written it. */
  predicate StillVerifies(s: Setting, plan: Plan) {
    && plan.currentBefore.Some? && s.parseCurrent(plan.currentBefore.value).Some?
    && ManagedBlock.Verify(s.wording, plan.entryApplied, s.parseCurrent(plan.currentBefore.value).value.binding)
  }

  /** Settled around an entry it has changed, a run leaves the state before it exactly when the
      metadata of before happens to describe the new entry; otherwise the binding is tampered with. */
  lemma KeptIsClassified(s: Setting, plan: Plan, d0: Disk, d: Disk, gap: Gap)
    requires Faithful(s) && PlannedOn(s, plan, d0) && RulesAreCanonical(s, plan) && IsAccepted(Classify(s, d0))
    requires InTransaction(s, plan, d0, d, Pair(RolledBack, RolledBack), gap)
    requires plan.entryBefore.Some? && Get(d, Entry) == Some(plan.entryApplied)
    requires plan.currentBefore.None? ==> TextSearch.Contains(plan.entryApplied, ManagedBlock.STEM)
    ensures Classify(s, d) == if StillVerifies(s, plan) then Classify(s, d0) else Tampered
  {
    hide Get, Classify, BackupWritten, Copies, EntryInFlight, Unused, PlanFits, InTransaction, Verified, RulesReadable, Compared, ManagedBlock.Verify;
    SettledIsClassified(s, plan, d0, d, RolledBack, gap) by {
      assert PlanFits(s, plan) by {
        PlannedFits(s, plan, d0);
      }
    }
    AcceptedFiles(s, d0);
    MetadataRestored(s, plan, d0, d, gap);
    if plan.currentBefore.Some? {
      InstalledReleaseStays(s, plan, d0, d, Pair(RolledBack, RolledBack), gap, InstalledVersion(s, d0).value);
    }
  }

  lemma MetadataRestored(s: Setting, plan: Plan, d0: Disk, d: Disk, gap: Gap)
    requires PlannedOn(s, plan, d0) && InTransaction(s, plan, d0, d, Pair(RolledBack, RolledBack), gap)
    ensures Get(d, Current) == Get(d0, Current) == plan.currentBefore
  {
  }

  /** Settled and with the entry of before, a rolled back run leaves the state before it. */
  lemma RolledBackIsClassified(s: Setting, plan: Plan, d0: Disk, d: Disk, gap: Gap)
    requires Faithful(s) && PlannedOn(s, plan, d0) && RulesAreCanonical(s, plan) && IsAccepted(Classify(s, d0))
    requires InTransaction(s, plan, d0, d, Pair(RolledBack, RolledBack), gap) && Get(d, Entry) == plan.entryBefore
    ensures Get(d, Entry) == Get(d0, Entry) && Get(d, Current) == Get(d0, Current)
    ensures plan.rules.Some? && plan.releaseExisted && !gap.rules ==> Get(d, LocalRules(plan.release)) == Get(d0, LocalRules(plan.release))
    ensures Classify(s, d) == Classify(s, d0)
  {
    hide Get, Classify, BackupWritten, Copies, EntryInFlight;
    RecoveredKeepsState(s, plan, d0, d, gap);
  }

  /** Undone in process: the state is the one before, unless an entry was kept that the metadata of
      before does not describe. */
  lemma UndoneIsClassified(s: Setting, plan: Plan, d0: Disk, d: Disk, sharing: bool, faults: nat, faults': nat)
    requires Faithful(s) && PlannedOn(s, plan, d0) && RulesAreCanonical(s, plan) && IsAccepted(Classify(s, d0))
    requires InTransaction(s, plan, d0, d, Pair(RolledBack, RolledBack), Gap(KeptEntry(s, plan, d), sharing))
    requires KeptAfterFault(s, plan, d, faults, faults')
    requires plan.currentBefore.None? ==> TextSearch.Contains(plan.entryApplied, ManagedBlock.STEM)
    ensures Classify(s, d) == Classify(s, d0) <==> !KeptEntry(s, plan, d) || StillVerifies(s, plan)
    ensures KeptEntry(s, plan, d) && !StillVerifies(s, plan) ==> Classify(s, d) == Tampered
    ensures plan.entryBefore == Get(d0, Entry)
  {
    hide Get, Classify, InTransaction, Unused, PlanFits, RulesAreCanonical, StillVerifies, TextSearch.Contains;
    var gap := Gap(KeptEntry(s, plan, d), sharing);
    if gap.entry {
      KeptIsClassified(s, plan, d0, d, gap);
    } else {
      EntryRestored(s, plan, d0, d, gap);
      RolledBackIsClassified(s, plan, d0, d, gap);
    }
  }

  lemma EntryRestored(s: Setting, plan: Plan, d0: Disk, d: Disk, gap: Gap)
    requires InTransaction(s, plan, d0, d, Pair(RolledBack, RolledBack), gap) && !gap.entry
    ensures Get(d, Entry) == plan.entryBefore
  {
  }

  // ---- A state the classifier calls tampered although the installer left it ----

  /** A rollback of a committed install that stopped with the entry moved aside. */
  lemma HalfRestoredIsTampered(s: Setting, plan: Plan, d0: Disk, d: Disk, gap: Gap)
    requires Faithful(s) && PlannedOn(s, plan, d0) && InTransaction(s, plan, d0, d, Pair(Committed, Committed), gap)
    requires Get(d, Entry).None? && Get(d, Current).Some?
    ensures Classify(s, d) == Tampered
  {
    hide Get, Classify, InTransaction, Unused, ManagedBlock.Verify, Compared;
    SettledIsClassified(s, plan, d0, d, Committed, gap);
    forall b
      ensures !ManagedBlock.Verify(s.wording, "", b)
    {
      NothingVerifiesInEmptyText(s.wording, b);
    }
  }

  // ---- What a run may not lose ----

  /** The disk has metadata that name this version. */
  predicate NamesVersion(s: Setting, d: Disk, v: SemVer.Version) {
    && Get(d, Current).Some? && s.parseCurrent(Get(d, Current).value).Some?
    && s.version(s.parseCurrent(Get(d, Current).value).value.binding.version) == Some(v)
  }

  /** No downgrade from one disk to the other. */
  ghost predicate NeverLower(s: Setting, d: Disk, d': Disk) {
    forall v, v' :: NamesVersion(s, d, v) && NamesVersion(s, d', v') ==> !SemVer.Higher(v, v')
  }

  lemma SameIsNeverLower(s: Setting, d: Disk, d': Disk)
    requires Get(d', Current) == Get(d, Current)
    ensures NeverLower(s, d, d')
  {
    forall v, v' | NamesVersion(s, d, v) && NamesVersion(s, d', v')
      ensures !SemVer.Higher(v, v')
    {
      SemVer.NotBoth(v, v);
    }
  }

  /** An accepted request does not go back behind the installed version. */
  lemma AcceptedIsNeverLower(s: Setting, d: Disk, v: SemVer.Version)
    requires s.version(s.release.version).Some? && IsAccepted(Classify(s, d)) && NamesVersion(s, d, v)
    ensures !SemVer.Higher(v, s.version(s.release.version).value)
  {
    hide Get, ReceiptWithMatchingBackup, SemVer.Higher, SemVer.Tied;
    UnfoundedIsTampered(s, d);
    AcceptedIsSettled(s, d);
    InstalledIsRanked(s, d, s.parseCurrent(Get(d, Current).value).value);
  }

  lemma AcceptedIsSettled(s: Setting, d: Disk)
    requires IsAccepted(Classify(s, d)) && Get(d, Current).Some?
    ensures ReceiptsSettled(s, d)
  {
    hide Get, ReceiptWithMatchingBackup, ClassifyFiles;
  }

  /** Whatever a run leaves, its metadata name no lower version than before. */
  lemma LeftIsNeverLower(s: Setting, plan: Plan, d0: Disk, d: Disk, gap: Gap)
    requires Faithful(s) && PlannedOn(s, plan, d0) && IsAccepted(Classify(s, d0)) && Left(s, plan, d0, d, gap)
    requires plan.operation != Uninstall ==> plan.currentApplied == Some(s.renderCurrent(ExpectedMetadata(s, s.release)))
    ensures NeverLower(s, d0, d)
  {
    hide Classify, Unused, BackupWritten, Copies, EntryInFlight, RulesInFlight, ReceiptsHonest, SemVer.Higher;
    if Get(d, Current) == Get(d0, Current) {
      SameIsNeverLower(s, d0, d);
    } else {
      forall v, v' | NamesVersion(s, d0, v) && NamesVersion(s, d, v')
        ensures !SemVer.Higher(v, v')
      {
        var m := ExpectedMetadata(s, s.release);
        assert s.parseCurrent(s.renderCurrent(m)) == Some(m);
        AcceptedIsNeverLower(s, d0, v);
      }
    }
  }

  /** The local rules beside the requested release, once it is in place. */
  function RulesThere(s: Setting, d: Disk): Option<Bytes> {
    if s.release.version in d.releases || s.shipped.None? then Get(d, LocalRules(s.release.version)) else s.shipped
  }

  /** The local rules beside the release that the metadata name. */
  function RulesInstalled(s: Setting, d: Disk): Option<Bytes> {
    if Get(d, Current).None? then None
    else
      match s.parseCurrent(Get(d, Current).value)
      case None => None
      case Some(m) => Get(d, LocalRules(m.binding.version))
  }

  /** The local rules the user is to find beside the requested release: those named in the request,
      or those already there or shipped, or those of the release installed before. */
  function WantedRules(s: Setting, d: Disk): Option<Bytes> {
    if s.rules.Some? then s.rules
    else if RulesThere(s, d).Some? then RulesThere(s, d)
    else RulesInstalled(s, d)
  }

  lemma PlannedRulesAreWanted(s: Setting, d: Disk, op: Operation, id: string)
    requires op != Uninstall && MakePlan(s, d, op, id).Success? && RulesFit(s, MakePlan(s, d, op, id).value, d)
    ensures RulesAtEnd(s, MakePlan(s, d, op, id).value, d) == WantedRules(s, d)
  {
    hide Get, ManagedBlock.Install, RulesReadable;
  }

  /** What a run is to make of the entry and the metadata: the block in the user's text, or the text
      without it. */
  predicate AsRequested(s: Setting, d: Disk, d': Disk, op: Operation) {
    && Get(d', Entry).Some?
    && if op == Uninstall then
         ManagedBlock.Remove(s.wording, EntryText(d)) == Success(EntryText(d')) && Get(d', Current).None?
       else
         && ManagedBlock.Install(s.wording, EntryText(d), BuildBinding(s.release, s.installationRoot)) == Success(EntryText(d'))
         && Get(d', Current) == Some(s.renderCurrent(ExpectedMetadata(s, s.release)))
  }

  lemma PlanIsAsRequested(s: Setting, d: Disk, op: Operation, id: string, d': Disk)
    requires MakePlan(s, d, op, id).Success? && Applied(s, MakePlan(s, d, op, id).value, d')
    ensures AsRequested(s, d, d', op)
  {
    hide RulesMutation, ManagedBlock.Install, ManagedBlock.Remove, ManagedBlock.Verify, RulesReadable;
  }

  /** The states in which an operation is refused, and those in which nothing is left to do. */
  lemma DecidedByState(s: Setting, d: Disk, op: Operation)
    ensures Decide(s, d, op) == Refuse <==>
      || Classify(s, d) in {Tampered, RecoveryRequired, DowngradeBlocked}
      || (op == Install && Classify(s, d) == Outdated)
      || (op == Update && Classify(s, d) in {Absent, Fresh})
    ensures Decide(s, d, op) == AlreadyDone <==>
      || (op == Install && Classify(s, d) == IsCurrent)
      || (op == Update && Classify(s, d) == IsCurrent && s.rules.None?)
      || (op == Uninstall && Classify(s, d) in {Absent, Fresh})
  {
    hide Classify;
  }

  /** The local rules beside the requested release can be read, and those named in the request too. */
  predicate RulesRequestable(s: Setting, d: Disk) {
    RulesReadable(s, d, s.release.version) && (s.rules.Some? ==> s.canonical(s.rules.value))
  }

  /** An operation that is neither refused nor done is planned exactly if the local rules permit it. */
  lemma PlanIsMadeExactlyIf(s: Setting, d: Disk, op: Operation, id: string)
    requires Faithful(s) && Decide(s, d, op) == Proceed
    ensures MakePlan(s, d, op, id).Success? <==> op == Uninstall || RulesRequestable(s, d)
  {
    DecidedByState(s, d, op);
    AcceptedTextIsParsed(s, d);
    AcceptedFiles(s, d);
    hide Get, Classify, ManagedBlock.Install, ManagedBlock.Remove;
  }

  /** Where the classifier accepts, the block can be installed, replaced and removed. */
  lemma AcceptedTextIsParsed(s: Setting, d: Disk)
    requires IsAccepted(Classify(s, d))
    ensures forall b :: ManagedBlock.Install(s.wording, EntryText(d), b).Success?
    ensures ManagedBlock.Remove(s.wording, EntryText(d)).Success?
  {
    AcceptedFiles(s, d);
    if Get(d, Current).None? {
      UnmarkedIsParsed(EntryText(d));
    } else {
      hide Get, Classify, ManagedBlock.Parse, ManagedBlock.BoundaryFlags, ManagedBlock.Projection;
    }
  }

  lemma SliceOfSlice(t: string, i: nat, n: nat, a: nat, b: nat)
    requires i + n <= |t| && a <= b <= n
    ensures t[i..i + n][a..b] == t[i + a..i + b]
  {
    var inner := t[i..i + n];
    forall k | 0 <= k < b - a
      ensures inner[a..b][k] == t[i + a..i + b][k]
    {
      assert inner[a + k] == t[i + (a + k)];
    }
  }

  lemma StemInMarker(text: string, i: nat, opening: string, rest: string)
    ensures TextSearch.At(text, i, opening + ManagedBlock.STEM + rest) ==> TextSearch.Contains(text, ManagedBlock.STEM)
  {
    var stem, marker := ManagedBlock.STEM, opening + ManagedBlock.STEM + rest;
    if TextSearch.At(text, i, marker) {
      var at := i + |opening|;
      SliceOfSlice(text, i, |marker|, |opening|, |opening| + |stem|);
      assert marker[|opening|..|opening| + |stem|] == stem;
      assert TextSearch.At(text, at, stem);
    }
  }

  /** A text without marker text has no markers, not even foreign ones. */
  lemma UnmarkedIsParsed(text: string)
    requires !TextSearch.Contains(text, ManagedBlock.STEM)
    ensures ManagedBlock.Parse(text).Success? && ManagedBlock.Parse(text).value.span.None?
  {
    hide TextSearch.Contains, ManagedBlock.Parse;
    forall i: nat
      ensures !TextSearch.At(text, i, ManagedBlock.FOREIGN_BEGIN) && !TextSearch.At(text, i, ManagedBlock.FOREIGN_END)
      ensures !TextSearch.At(text, i, ManagedBlock.BEGIN) && !TextSearch.At(text, i, ManagedBlock.END)
    {
      StemInMarker(text, i, "<!-- BEGIN ", "");
      StemInMarker(text, i, "<!-- END ", "");
      StemInMarker(text, i, "<!-- BEGIN ", ManagedBlock.CURRENT_VERSION);
      StemInMarker(text, i, "<!-- END ", ManagedBlock.CURRENT_VERSION);
      assert ManagedBlock.FOREIGN_BEGIN == "<!-- BEGIN " + ManagedBlock.STEM + "";
      assert ManagedBlock.FOREIGN_END == "<!-- END " + ManagedBlock.STEM + "";
      assert ManagedBlock.BEGIN == "<!-- BEGIN " + ManagedBlock.STEM + ManagedBlock.CURRENT_VERSION;
      assert ManagedBlock.END == "<!-- END " + ManagedBlock.STEM + ManagedBlock.CURRENT_VERSION;
    }
    ManagedBlock.UnmanagedIsClean(text);
  }

  // ---- The commands ----

  class InstallerTransaction {
    const s: Setting
    const fs: FileStore

    constructor (s: Setting, fs: FileStore)
      ensures this.s == s && this.fs == fs
    {
      this.s := s;
      this.fs := fs;
    }

    /** `mutate`: refuses unsafe states without touching anything; if nothing goes wrong succeeds exactly
        if the plan will, into CURRENT, or into FRESH for an uninstall; and after a failure undone in
        process the state is as before, whatever went wrong, if and only if the plan cannot keep an
        entry that the metadata of before do not describe. */
    method Mutate(op: Operation, id: string, names: seq<string>) returns (o: Outcome)
      requires Faithful(s) && Unused(id, fs.disk)
      modifies fs
      ensures fs.Told(if o.Stopped? then Crashed else Done, old(fs.clock))
      ensures Decide(s, old(fs.disk), op) != Proceed ==>
        fs.disk == old(fs.disk) && o == if Decide(s, old(fs.disk), op) == Refuse then Failed else Succeeded
      ensures Decide(s, old(fs.disk), op) == Proceed && MakePlan(s, old(fs.disk), op, id).Failure? ==> o == Failed && fs.disk == old(fs.disk)
      ensures Decide(s, old(fs.disk), op) == Proceed && MakePlan(s, old(fs.disk), op, id).Success? ==>
        var plan := MakePlan(s, old(fs.disk), op, id).value;
        && Ended(s, plan, old(fs.disk), fs.disk, names, old(fs.Faults()), fs.Faults())
        && (o.Undone? ==> (Classify(s, fs.disk) == Classify(s, old(fs.disk)) <==> !KeptEntry(s, plan, fs.disk) || StillVerifies(s, plan)))
        && (o.Undone? && !(CanKeep(s, plan, old(fs.disk), names) && !StillVerifies(s, plan)) ==> Classify(s, fs.disk) == Classify(s, old(fs.disk)))
        && (CanKeep(s, plan, old(fs.disk), names) && !StillVerifies(s, plan) && OnlyEntryFails(fs.events, old(fs.clock), plan) ==>
              o.Undone? && Classify(s, fs.disk) == Tampered)
        && (o.Succeeded? ==> Applied(s, plan, fs.disk))
        && (Quiet(fs.events, old(fs.clock), fs.clock) ==> (o.Succeeded? <==> WillSucceed(s, plan, old(fs.disk))))
        && (o.Succeeded? && op == Uninstall ==>
              Classify(s, fs.disk) == if TextSearch.Contains(plan.entryApplied, ManagedBlock.STEM) then Tampered else Fresh)
      ensures o.Succeeded? && op != Uninstall && DigestTells(s, old(fs.disk)) ==> Classify(s, fs.disk) == IsCurrent
      ensures NeverLower(s, old(fs.disk), fs.disk)
      ensures o.Succeeded? ==> fs.disk == old(fs.disk) || AsRequested(s, old(fs.disk), fs.disk, op)
      ensures o.Succeeded? && op != Uninstall ==>
        if Classify(s, old(fs.disk)) == IsCurrent && (op == Install || s.rules.None?) then fs.disk == old(fs.disk)
        else Get(fs.disk, LocalRules(s.release.version)) == WantedRules(s, old(fs.disk))
      ensures o.Undone? && (fs.Faults() == old(fs.Faults()) || Get(old(fs.disk), Entry).None?) ==> Classify(s, fs.disk) == Classify(s, old(fs.disk))
    {
      hide Get, Classify, MakePlan, InTransaction, Applied, PlannedOn, Unused, DigestTells, Shared, RulesAreCanonical, KeptEntry, StillVerifies, Left, TextSearch.Contains, CanKeep, OnlyEntryFails, Count, NeverLower, WantedRules, RulesAtEnd, RulesFit, ReleaseFits, ResultVerifies, AsRequested;
      ghost var d0 := fs.disk;
      SameIsNeverLower(s, d0, d0);
      var decision := Decide(s, fs.disk, op);
      if decision != Proceed {
        return if decision == Refuse then Failed else Succeeded;
      }
      var planned := MakePlan(s, fs.disk, op, id);
      if planned.Failure? {
        return Failed;
      }
      PlanRuns(s, d0, op, id);
      o := PerformMutation(fs, s, planned.value, names);
      LeftIsNeverLower(s, planned.value, d0, fs.disk, Gap(KeptEntry(s, planned.value, fs.disk), Shared(s, d0, names, planned.value.release)));
      if o.Succeeded? {
        PlanIsAsRequested(s, d0, op, id, fs.disk);
      }
      if o.Succeeded? && op != Uninstall {
        PlannedFits(s, planned.value, d0);
        PlannedRulesAreWanted(s, d0, op, id);
      }
      if o.Succeeded? {
        SuccessIsClassified(s, planned.value, d0, fs.disk);
      }
      if o.Undone? {
        UndoneIsClassified(s, planned.value, d0, fs.disk, Shared(s, d0, names, planned.value.release), old(fs.Faults()), fs.Faults());
      }
    }

    /** `rollback`: restores the transaction of the top receipt, unless it is rolled back already,
        and then insists on a state that is neither tampered with nor half done. */
    method Rollback(names: seq<string>) returns (e: Effect)
      modifies fs
      ensures fs.Told(e, old(fs.clock))
      ensures Get(old(fs.disk), Top).None? || ReceiptWithMatchingBackup(s, old(fs.disk), Get(old(fs.disk), Top).value).Failure? ==>
        e == Thrown(Refused) && fs.disk == old(fs.disk)
      ensures Get(old(fs.disk), Top).Some? && ReceiptWithMatchingBackup(s, old(fs.disk), Get(old(fs.disk), Top).value).Success? ==>
        RollbackRan(s, old(fs.disk), fs.disk, ReceiptWithMatchingBackup(s, old(fs.disk), Get(old(fs.disk), Top).value).value, names, e, old(fs.Faults()), fs.Faults())
        && RollbackCutShort(s, old(fs.disk), fs.disk, ReceiptWithMatchingBackup(s, old(fs.disk), Get(old(fs.disk), Top).value).value, names, fs.events, old(fs.clock), e)
    {
      hide CutShort, OnlyEntry, CutShortIn, Count;
      hide Get, Classify, ReceiptWithMatchingBackup, ReadSnapshot, Restorable, Restored, Partly, Shared, Undecided, Stuck;
      var top := Get(fs.disk, Top);
      if top.None? {
        return Thrown(Refused);
      }
      var matched := ReceiptWithMatchingBackup(s, fs.disk, top.value);
      if matched.Failure? {
        return Thrown(Refused);
      }
      var r := matched.value;
      :- fs.Attempt();
      if r.status != RolledBack {
        :- Restore(fs, s, r, names, true, false);
      }
      :- fs.Attempt();
      var state := Classify(s, fs.disk);
      e := if state == Tampered || state == RecoveryRequired then Thrown(Refused) else Done;
    }
  }

  /** What one `rollback` of receipt `r` does to the disk. */
  ghost predicate RollbackRan(s: Setting, d: Disk, d': Disk, r: Receipt, names: seq<string>, e: Effect, faults: nat, faults': nat) {
    var shared, settled := Shared(s, d, names, r.release), r.status == RolledBack;
    && (d' == d || (!settled && ReadSnapshot(s, d, r).Success? && Partly(s, r, ReadSnapshot(s, d, r).value, shared, false, d, d')))
    && (e.Done? && settled ==> d' == d)
    && (e.Done? && !settled ==>
          && !Undecided(s, d, names, r.release) && Restorable(s, d, r, shared, false)
          && Restored(s, r, ReadSnapshot(s, d, r).value, shared, false, d, d'))
    && (e.Done? ==> Classify(s, d') != Tampered && Classify(s, d') != RecoveryRequired)
    && (e.Thrown? && e != Thrown(Io) ==>
          || (!settled && (Undecided(s, d, names, r.release) || !Restorable(s, d, r, shared, false)) && Get(d', Top) == Get(d, Top))
          || ((if settled then d' == d else Restored(s, r, ReadSnapshot(s, d, r).value, shared, false, d, d'))
              && (Classify(s, d') == Tampered || Classify(s, d') == RecoveryRequired)))
    && (faults' == faults && ReadSnapshot(s, d, r).Success? ==>
          Stuck(ReadSnapshot(s, d, r).value, d', r.id) ==> Stuck(ReadSnapshot(s, d, r).value, d, r.id))
  }

  /** And what is left of the entry when the second of two operations on it goes wrong. */
  ghost predicate RollbackCutShort(s: Setting, d: Disk, d': Disk, r: Receipt, names: seq<string>, events: nat -> Event, at: nat, e: Effect) {
    CutsShort(s, d, r, names, events, at) ==>
      OnlyEntry(r.id, d, d') && CutShort(r.id, events, at + 2, d', Get(d, Entry).value, ReadSnapshot(s, d, r).value.entryBefore, e)
  }

  predicate CutsShort(s: Setting, d: Disk, r: Receipt, names: seq<string>, events: nat -> Event, at: nat) {
    events(at) == Fine && r.status != RolledBack && CutShortIn(s, d, r, names, true, events, at + 1)
  }

  // ---- Two states in which a rollback can leave a committed run ----

  /** A rollback that stops between moving the entry aside and re-creating it leaves a binding that
      is tampered with; one whose re-creation fails leaves an entry that no rollback brings back. */
  method RollbackGoesWrong(t: InstallerTransaction, names: seq<string>, ghost plan: Plan, ghost d0: Disk) returns (e: Effect)
    requires Faithful(t.s) && PlannedOn(t.s, plan, d0) && InTransaction(t.s, plan, d0, t.fs.disk, Pair(Committed, Committed), NO_GAP)
    requires Applied(t.s, plan, t.fs.disk) && Get(t.fs.disk, Detached(plan.id)).None? && plan.entryBefore != Some(plan.entryApplied)
    requires !Undecided(t.s, t.fs.disk, names, plan.release) && t.fs.events(t.fs.clock) == t.fs.events(t.fs.clock + 1) == Fine
    requires Interrupts(t.fs.events, t.fs.clock + 2, SnapshotOf(plan))
    modifies t.fs
    ensures InTransaction(t.s, plan, d0, t.fs.disk, Pair(Committed, Committed), NO_GAP)
    ensures StopsMidway(t.fs.events, old(t.fs.clock) + 2) ==>
      e.Crashed? && (plan.operation != Uninstall ==> Classify(t.s, t.fs.disk) == Tampered)
    ensures FailsMidway(t.fs.events, old(t.fs.clock) + 2) ==>
      e == Thrown(Io) && Stuck(SnapshotOf(plan), t.fs.disk, plan.id)
      && forall names :: !Restorable(t.s, t.fs.disk, ReceiptOf(t.s, plan, Committed), Shared(t.s, t.fs.disk, names, plan.release), false)
  {
    hide Get, Classify, InTransaction, Applied, PlannedOn, ReceiptWithMatchingBackup, RollbackRan, Shared, Undecided, Restorable, Stuck, Admitted, Count, Quiet, OnlyEntry, CutShortIn, ReadSnapshot, SnapshotOf;
    ghost var d, at := t.fs.disk, t.fs.clock;
    CommittedCutsShort(t.s, plan, d0, d, names, t.fs.events, at);
    e := t.Rollback(names);
    EntryAloneMoves(t.s, plan, d0, d, t.fs.disk, t.fs.events, at + 2, e);
    if StopsMidway(t.fs.events, at + 2) && plan.operation != Uninstall {
      HalfRestoredIsTampered(t.s, plan, d0, t.fs.disk, NO_GAP);
    }
  }

  /** A committed run that is to be rolled back. */
  lemma CommittedCutsShort(s: Setting, plan: Plan, d0: Disk, d: Disk, names: seq<string>, events: nat -> Event, at: nat)
    requires Faithful(s) && PlannedOn(s, plan, d0) && InTransaction(s, plan, d0, d, Pair(Committed, Committed), NO_GAP)
    requires Applied(s, plan, d) && Get(d, Detached(plan.id)).None? && plan.entryBefore != Some(plan.entryApplied)
    requires !Undecided(s, d, names, plan.release) && events(at) == events(at + 1) == Fine && Interrupts(events, at + 2, SnapshotOf(plan))
    ensures Get(d, Top).Some? && ReceiptWithMatchingBackup(s, d, Get(d, Top).value) == Success(ReceiptOf(s, plan, Committed))
    ensures CutsShort(s, d, ReceiptOf(s, plan, Committed), names, events, at)
    ensures ReadSnapshot(s, d, ReceiptOf(s, plan, Committed)) == Success(SnapshotOf(plan)) && Get(d, Entry) == Some(plan.entryApplied)
  {
    hide Get, InTransaction, ReceiptWithMatchingBackup, Shared, Undecided, ReadSnapshot, Unused, ManagedBlock.Verify, ManagedBlock.Remove, DigestOf;
    var r, shared := ReceiptOf(s, plan, Committed), Shared(s, d, names, plan.release);
    TopIsRead(s, plan, d0, d, Pair(Committed, Committed), NO_GAP);
    InTransactionHasBackups(s, plan, d0, d, Pair(Committed, Committed), NO_GAP);
    BackupsProveTheReceipt(s, plan, d, Committed);
    RestorableExactly(s, plan, d0, d, Pair(Committed, Committed), Committed, NO_GAP, shared);
  }

  lemma EntryAloneMoves(s: Setting, plan: Plan, d0: Disk, d: Disk, d': Disk, events: nat -> Event, at: nat, e: Effect)
    requires PlannedOn(s, plan, d0) && InTransaction(s, plan, d0, d, Pair(Committed, Committed), NO_GAP) && OnlyEntry(plan.id, d, d')
    requires Applied(s, plan, d) && plan.entryBefore != Some(plan.entryApplied) && Interrupts(events, at, SnapshotOf(plan))
    requires CutShort(plan.id, events, at, d', plan.entryApplied, plan.entryBefore, e)
    ensures InTransaction(s, plan, d0, d', Pair(Committed, Committed), NO_GAP)
    ensures StopsMidway(events, at) ==> Get(d', Entry).None? && (plan.operation != Uninstall ==> Get(d', Current).Some?)
    ensures FailsMidway(events, at) ==> Stuck(SnapshotOf(plan), d', plan.id)
    ensures FailsMidway(events, at) ==>
      forall names :: !Restorable(s, d', ReceiptOf(s, plan, Committed), Shared(s, d', names, plan.release), false)
  {
    hide Get, Shared, ReadSnapshot, Unused, ManagedBlock.Verify, ManagedBlock.Remove, DigestOf, BackupWritten, Evidence;
    BackupsStay(plan, d, d');
    BackupsProveTheReceipt(s, plan, d', Committed);
  }

  // ---- Recovery from every crash point ----

  /** The receipt a rollback works on. */
  lemma TopIsRead(s: Setting, plan: Plan, d0: Disk, d: Disk, pair: Pair, gap: Gap)
    requires Faithful(s) && PlanFits(s, plan) && InTransaction(s, plan, d0, d, pair, gap)
    ensures Get(d, Top).Some? && ReceiptWithMatchingBackup(s, d, Get(d, Top).value) == Success(ReceiptOf(s, plan, pair.top))
  {
    hide Get, BackupWritten, ReceiptWithMatchingBackup, ReachablePair, Evidence, ValidReceipt;
    BackupsProveTheReceipt(s, plan, d, Prepared);
    ExactlySixPairs(pair);
    AcceptedExactlyWhenReachable(s, d, ReceiptOf(s, plan, Prepared), pair);
  }

  /** One rollback, interrupted or not, from a state of the run. */
  lemma RollbackStays(s: Setting, plan: Plan, d0: Disk, d: Disk, d': Disk, pair: Pair, gap: Gap, gap': Gap, names: seq<string>, e: Effect, faults: nat, faults': nat)
    requires Faithful(s) && PlannedOn(s, plan, d0) && InTransaction(s, plan, d0, d, pair, gap) && !gap'.entry
    requires Covers(Gap(gap.entry, gap.rules || Shared(s, d, names, plan.release)), gap')
    requires RollbackRan(s, d, d', ReceiptOf(s, plan, pair.top), names, e, faults, faults')
    ensures Reached(s, plan, d0, d', gap')
    ensures e.Done? ==> InTransaction(s, plan, d0, d', Pair(RolledBack, RolledBack), gap')
    ensures e.Done? && pair.top != RolledBack ==>
      !Undecided(s, d, names, plan.release) && Restorable(s, d, ReceiptOf(s, plan, pair.top), Shared(s, d, names, plan.release), false)
    ensures e.Thrown? && e != Thrown(Io) ==>
      || (&& pair.top != RolledBack && Get(d', Top) == Get(d, Top)
          && (Undecided(s, d, names, plan.release) || !Restorable(s, d, ReceiptOf(s, plan, pair.top), Shared(s, d, names, plan.release), false)))
      || (InTransaction(s, plan, d0, d', Pair(RolledBack, RolledBack), gap')
          && (Classify(s, d') == Tampered || Classify(s, d') == RecoveryRequired))
    ensures Stuck(SnapshotOf(plan), d, plan.id) && pair.top != RolledBack ==> Stuck(SnapshotOf(plan), d', plan.id)
    ensures !plan.releaseExisted ==> Get(d', LocalRules(plan.release)) == Get(d, LocalRules(plan.release))
    ensures faults' == faults && Stuck(SnapshotOf(plan), d', plan.id) ==> Stuck(SnapshotOf(plan), d, plan.id)
  {
    hide Get, InTransaction, Classify, Restorable, Restored, ReadSnapshot, Undecided, Shared, Stuck, Unused, Evidence, DigestOf;
    var r, shared := ReceiptOf(s, plan, pair.top), Shared(s, d, names, plan.release);
    InTransactionHasBackups(s, plan, d0, d, pair, gap);
    BackupsProveTheReceipt(s, plan, d, pair.top);
    RulesOfNewReleaseStay(s, plan, d, d', pair.top, shared);
    if pair.top == RolledBack {
      assert Reached(s, plan, d0, d, gap);
      ReachedWidens(s, plan, d0, d, gap, gap');
      GapWidens(s, plan, d0, d, pair, gap, gap');
    } else {
      assert RestoreRan(s, r, SnapshotOf(plan), shared, false, d, d', e.Done?) by {
        hide Partly;
      }
      AfterRestore(s, plan, d0, d, d', pair, pair.top, shared, false, e.Done?, gap, gap');
      if Stuck(SnapshotOf(plan), d, plan.id) {
        StuckForEver(s, r, SnapshotOf(plan), shared, d, d');
      }
      if Restored(s, r, SnapshotOf(plan), shared, false, d, d') {
        RestoredStays(s, plan, d0, d, d', pair, pair.top, shared, false, gap, gap');
      }
    }
  }

  lemma InTransactionHasBackups(s: Setting, plan: Plan, d0: Disk, d: Disk, pair: Pair, gap: Gap)
    requires InTransaction(s, plan, d0, d, pair, gap)
    ensures BackupWritten(plan, d) && IsKnownPair(pair)
  {
  }

  lemma RulesOfNewReleaseStay(s: Setting, plan: Plan, d: Disk, d': Disk, status: Status, shared: bool)
    ensures !plan.releaseExisted && Partly(s, ReceiptOf(s, plan, status), SnapshotOf(plan), shared, false, d, d') ==>
      Get(d', LocalRules(plan.release)) == Get(d, LocalRules(plan.release))
  {
    hide Get, DigestOf, EntryMoves, MovedCopy;
  }

  /** A run settled around an entry it has changed stays so: a rollback finds nothing to do. */
  lemma KeptForEver(s: Setting, plan: Plan, d0: Disk, d: Disk, d': Disk, gap: Gap, names: seq<string>, e: Effect, faults: nat, faults': nat)
    requires Faithful(s) && PlanFits(s, plan) && Reached(s, plan, d0, d, gap) && KeptEntry(s, plan, d)
    requires Get(d, Top).Some? && ReceiptWithMatchingBackup(s, d, Get(d, Top).value).Success? ==> RolledBackFrom(s, d, d', names, e, faults, faults')
    ensures d' == d
  {
    hide Get, InTransaction, ReceiptWithMatchingBackup, ReadSnapshot, Restorable, Restored, Partly, Shared, Undecided, Stuck, Classify, PlanFits;
    var pair :| InTransaction(s, plan, d0, d, pair, gap);
    TopIsRead(s, plan, d0, d, pair, gap);
    KeptIsSettled(s, plan, d0, d, pair, gap);
  }

  lemma KeptIsSettled(s: Setting, plan: Plan, d0: Disk, d: Disk, pair: Pair, gap: Gap)
    requires Faithful(s) && InTransaction(s, plan, d0, d, pair, gap) && KeptEntry(s, plan, d)
    ensures pair == Pair(RolledBack, RolledBack)
  {
    hide Get, DigestOf, BackupWritten, EntryInFlight, RulesInFlight, ReleasesInFlight;
    var r, r' := ReceiptOf(s, plan, pair.top), ReceiptOf(s, plan, RolledBack);
    assert ReceiptOf(s, plan, Prepared).(status := pair.top) == r;
    assert s.parseReceipt(s.renderReceipt(r)) == Some(r) && s.parseReceipt(s.renderReceipt(r')) == Some(r');
  }

  lemma ReachedWithoutKeptEntry(s: Setting, plan: Plan, d0: Disk, d: Disk, gap: Gap)
    requires Reached(s, plan, d0, d, gap) && !KeptEntry(s, plan, d)
    ensures Reached(s, plan, d0, d, Gap(false, gap.rules))
  {
    hide InTransaction, KeptEntry;
    var pair :| InTransaction(s, plan, d0, d, pair, gap);
    GapIsKeptEntry(s, plan, d0, d, pair, gap);
  }

  /** From any state a run can be left in, any number of rollbacks, each interrupted anywhere, and
      one more that completes: everything is as before the run, unless the run was settled around
      an entry it had changed, and then no rollback changes anything. If no I/O error occurs in
      them, the last one can only fail on unreadable metadata of another binding, on an entry that
      was stuck from the start, or on missing rules of a release the run brought. If nothing goes
      wrong at all, it completes exactly if none of these is the case, or the run was settled. */
  method Recover(t: InstallerTransaction, attempts: nat, names: seq<string>, ghost plan: Plan, ghost d0: Disk, ghost gap: Gap) returns (e: Effect)
    requires Faithful(t.s) && PlannedOn(t.s, plan, d0) && RulesAreCanonical(t.s, plan) && IsAccepted(Classify(t.s, d0))
    requires Reached(t.s, plan, d0, t.fs.disk, gap)
    modifies t.fs
    ensures KeptEntry(t.s, plan, old(t.fs.disk)) ==> t.fs.disk == old(t.fs.disk)
    ensures !KeptEntry(t.s, plan, old(t.fs.disk)) ==>
      && Reached(t.s, plan, d0, t.fs.disk, Gap(false, gap.rules || Shared(t.s, d0, names, plan.release)))
      && (e.Done? ==> Recovered(t.s, plan, d0, t.fs.disk, gap.rules || Shared(t.s, d0, names, plan.release)))
      && (e.Thrown? && t.fs.Faults() == old(t.fs.Faults()) ==>
            || Undecided(t.s, d0, names, plan.release) || Stuck(SnapshotOf(plan), old(t.fs.disk), plan.id)
            || RulesMissing(plan, old(t.fs.disk), Shared(t.s, d0, names, plan.release)))
      && (Quiet(t.fs.events, old(t.fs.clock), t.fs.clock) ==> (e.Done? <==> !Hopeless(t.s, plan, d0, old(t.fs.disk), names)))
    ensures t.fs.Told(e, old(t.fs.clock))
  {
    hide Get, InTransaction, Classify, Undecided, Shared, PlannedOn, RulesAreCanonical, IsAccepted, RollbackRan, RulesMissing, KeptEntry, Reached, Recovered, Hopeless, Count;
    ghost var wide := Gap(false, gap.rules || Shared(t.s, d0, names, plan.release));
    ghost var first, kept := t.fs.disk, KeptEntry(t.s, plan, t.fs.disk);
    PlannedFits(t.s, plan, d0);
    if !kept {
      ReachedWithoutKeptEntry(t.s, plan, d0, first, gap);
      ReachedWidens(t.s, plan, d0, first, Gap(false, gap.rules), wide);
    }
    for i := 0 to attempts
      invariant t.fs.Told(Done, old(t.fs.clock))
      invariant kept ==> t.fs.disk == first
      invariant !kept ==> Reached(t.s, plan, d0, t.fs.disk, wide) && Resumable(plan, first, t.fs.disk, t.fs.Faults() > old(t.fs.Faults()))
      invariant !kept && Quiet(t.fs.events, old(t.fs.clock), t.fs.clock) ==>
        (Hopeless(t.s, plan, d0, t.fs.disk, names) <==> Hopeless(t.s, plan, d0, first, names))
    {
      var interrupted := TryRollback(t, names, plan, d0, gap, wide, kept);
    }
    ghost var d, faults := t.fs.disk, t.fs.Faults();
    e := TryRollback(t, names, plan, d0, gap, wide, kept);
    if !kept {
      WhyHopeless(t.s, plan, d0, d, names);
      SameRefusals(plan, first, d, faults > old(t.fs.Faults()), Shared(t.s, d0, names, plan.release));
    }
  }

  /** The receipts are settled, and the images are those from before the run. */
  ghost predicate Recovered(s: Setting, plan: Plan, d0: Disk, d: Disk, rulesGap: bool) {
    && Get(d, Entry) == Get(d0, Entry) && Get(d, Current) == Get(d0, Current)
    && InTransaction(s, plan, d0, d, Pair(RolledBack, RolledBack), Gap(false, rulesGap))
    && (plan.rules.Some? && plan.releaseExisted && !rulesGap ==> Get(d, LocalRules(plan.release)) == Get(d0, LocalRules(plan.release)))
    && Classify(s, d) == Classify(s, d0)
  }

  /** One rollback, with what it means for the run. */
  method TryRollback(t: InstallerTransaction, names: seq<string>, ghost plan: Plan, ghost d0: Disk, ghost gap: Gap, ghost wide: Gap, ghost kept: bool) returns (e: Effect)
    requires Faithful(t.s) && PlannedOn(t.s, plan, d0) && RulesAreCanonical(t.s, plan) && IsAccepted(Classify(t.s, d0))
    requires kept ==> Reached(t.s, plan, d0, t.fs.disk, gap) && KeptEntry(t.s, plan, t.fs.disk)
    requires !kept ==> Reached(t.s, plan, d0, t.fs.disk, wide) && !wide.entry && (Shared(t.s, d0, names, plan.release) ==> wide.rules)
    modifies t.fs
    ensures t.fs.Told(e, old(t.fs.clock))
    ensures kept ==> t.fs.disk == old(t.fs.disk)
    ensures !kept ==> After(t.s, plan, d0, old(t.fs.disk), t.fs.disk, wide, names, e, old(t.fs.Faults()), t.fs.Faults())
  {
    hide Get, InTransaction, Classify, Undecided, Shared, PlannedOn, RulesAreCanonical, IsAccepted, RollbackRan, RulesMissing, KeptEntry, Reached, After, Count;
    ghost var d, faults := t.fs.disk, t.fs.Faults();
    PlannedFits(t.s, plan, d0);
    e := t.Rollback(names);
    if kept {
      KeptForEver(t.s, plan, d0, d, t.fs.disk, gap, names, e, faults, t.fs.Faults());
    } else {
      Attempted(t.s, plan, d0, d, t.fs.disk, wide, names, e, faults, t.fs.Faults());
    }
  }

  /** Both receipts say that everything is as before. */
  predicate Settled(s: Setting, plan: Plan, d: Disk) {
    Get(d, Top) == Some(s.renderReceipt(ReceiptOf(s, plan, RolledBack)))
  }

  /** The three reasons for which a rollback of a run can refuse. */
  predicate Hopeless(s: Setting, plan: Plan, d0: Disk, d: Disk, names: seq<string>) {
    && !Settled(s, plan, d)
    && (|| Undecided(s, d0, names, plan.release) || Stuck(SnapshotOf(plan), d, plan.id)
        || RulesMissing(plan, d, Shared(s, d0, names, plan.release)))
  }

  /** What one rollback, begun on `d`, has come to on `d'`. */
  ghost predicate After(s: Setting, plan: Plan, d0: Disk, d: Disk, d': Disk, wide: Gap, names: seq<string>, e: Effect, faults: nat, faults': nat) {
    && Reached(s, plan, d0, d', wide)
    && (!plan.releaseExisted ==> Get(d', LocalRules(plan.release)) == Get(d, LocalRules(plan.release)))
    && (faults' == faults && Stuck(SnapshotOf(plan), d', plan.id) ==> Stuck(SnapshotOf(plan), d, plan.id))
    && (e.Done? ==> Recovered(s, plan, d0, d', wide.rules) && !Hopeless(s, plan, d0, d, names) && !Hopeless(s, plan, d0, d', names))
    && (e.Thrown? && e != Thrown(Io) ==> Hopeless(s, plan, d0, d, names) && Hopeless(s, plan, d0, d', names))
  }

  /** What later attempts can rely on: the rules of a new release, and an entry that is not stuck. */
  ghost predicate Resumable(plan: Plan, first: Disk, d: Disk, faulty: bool) {
    && (!plan.releaseExisted ==> Get(d, LocalRules(plan.release)) == Get(first, LocalRules(plan.release)))
    && (!faulty && Stuck(SnapshotOf(plan), d, plan.id) ==> Stuck(SnapshotOf(plan), first, plan.id))
  }

  lemma SameRefusals(plan: Plan, first: Disk, d: Disk, faulty: bool, shared: bool)
    requires Resumable(plan, first, d, faulty)
    ensures Get(d, LocalRules(plan.release)) == Get(first, LocalRules(plan.release)) || plan.releaseExisted
    ensures !faulty && Stuck(SnapshotOf(plan), d, plan.id) ==> Stuck(SnapshotOf(plan), first, plan.id)
    ensures RulesMissing(plan, d, shared) ==> RulesMissing(plan, first, shared)
  {
    hide Stuck;
  }

  lemma WhyHopeless(s: Setting, plan: Plan, d0: Disk, d: Disk, names: seq<string>)
    ensures Hopeless(s, plan, d0, d, names) ==>
      || Undecided(s, d0, names, plan.release) || Stuck(SnapshotOf(plan), d, plan.id)
      || RulesMissing(plan, d, Shared(s, d0, names, plan.release))
  {
  }

  /** What a rollback from a state of the run guarantees. */
  ghost predicate RolledBackFrom(s: Setting, d: Disk, d': Disk, names: seq<string>, e: Effect, faults: nat, faults': nat) {
    && Get(d, Top).Some? && ReceiptWithMatchingBackup(s, d, Get(d, Top).value).Success?
    && RollbackRan(s, d, d', ReceiptWithMatchingBackup(s, d, Get(d, Top).value).value, names, e, faults, faults')
  }

  lemma Attempted(s: Setting, plan: Plan, d0: Disk, d: Disk, d': Disk, wide: Gap, names: seq<string>, e: Effect, faults: nat, faults': nat)
    requires Faithful(s) && PlannedOn(s, plan, d0) && RulesAreCanonical(s, plan) && IsAccepted(Classify(s, d0))
    requires Reached(s, plan, d0, d, wide) && !wide.entry && (Shared(s, d0, names, plan.release) ==> wide.rules)
    requires faults' >= faults && (e == Thrown(Io) ==> faults' > faults)
    requires Get(d, Top).Some? && ReceiptWithMatchingBackup(s, d, Get(d, Top).value).Success? ==> RolledBackFrom(s, d, d', names, e, faults, faults')
    ensures After(s, plan, d0, d, d', wide, names, e, faults, faults')
  {
    hide Get, InTransaction, Classify, Undecided, Shared, PlannedOn, RulesAreCanonical, RollbackRan, Stuck, Restorable, ReceiptOf;
    var pair :| InTransaction(s, plan, d0, d, pair, wide);
    PlannedFits(s, plan, d0);
    TopIsRead(s, plan, d0, d, pair, wide);
    SharingStays(s, plan, d0, d, names, pair, wide);
    RollbackStays(s, plan, d0, d, d', pair, wide, wide, names, e, faults, faults');
    RestorableExactly(s, plan, d0, d, pair, pair.top, wide, Shared(s, d0, names, plan.release));
    SettledExactly(s, plan, d0, d, pair, wide);
    if InTransaction(s, plan, d0, d', Pair(RolledBack, RolledBack), wide) {
      EntryRestored(s, plan, d0, d', wide);
      RolledBackIsClassified(s, plan, d0, d', wide);
      SettledExactly(s, plan, d0, d', Pair(RolledBack, RolledBack), wide);
    }
    assert e.Done? ==> Recovered(s, plan, d0, d', wide.rules);
    assert e.Done? ==> !Hopeless(s, plan, d0, d, names);
    assert e.Done? ==> !Hopeless(s, plan, d0, d', names);
    assert e.Thrown? && e != Thrown(Io) ==> Hopeless(s, plan, d0, d, names);
    assert e.Thrown? && e != Thrown(Io) ==> Hopeless(s, plan, d0, d', names);
  }

  lemma SettledExactly(s: Setting, plan: Plan, d0: Disk, d: Disk, pair: Pair, gap: Gap)
    requires Faithful(s) && InTransaction(s, plan, d0, d, pair, gap)
    ensures Settled(s, plan, d) <==> pair.top == RolledBack
  {
    hide Get, DigestOf, BackupWritten, EntryInFlight, RulesInFlight, ReleasesInFlight;
    var r, r' := ReceiptOf(s, plan, pair.top), ReceiptOf(s, plan, RolledBack);
    assert ReceiptOf(s, plan, Prepared).(status := pair.top) == r;
    assert s.parseReceipt(s.renderReceipt(r)) == Some(r) && s.parseReceipt(s.renderReceipt(r')) == Some(r');
  }

  lemma PlannedFits(s: Setting, plan: Plan, d0: Disk)
    requires PlannedOn(s, plan, d0)
    ensures PlanFits(s, plan) && plan.release == s.release.version && (plan.releaseExisted <==> plan.release in d0.releases)
  {
  }
}
