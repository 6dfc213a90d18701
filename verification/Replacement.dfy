/** Replacing one installation by another: `replaceInstallation` of src/replacement.ts. The entry
    stays where it is, or is kept in a quarantine directory, at every moment; and if nothing goes
    wrong, the replacement takes place exactly if the install into the new root goes through. */
module Replacement {
  import opened Wrappers
  import opened Installation
  import opened FileSystem
  import R = Recovery
  import opened TransactionPlan
  import ManagedBlock
  import opened InstallationStates
  import opened Transaction
  import opened Installer

  datatype Rescue = NotRequired | Restored | Retained

  /** `Killed`: the process died before it could answer. */
  datatype Answer = Replaced | NotReplaced(rescue: Rescue) | Killed

  /** The copy and the moved entry in the quarantine directory `q`. */
  function Copy(q: string): Path {
    Backup(q, EntryBin)
  }

  function Moved(q: string): Path {
    Detached(q)
  }

  ghost predicate Kept(d: Disk, q: string, original: Bytes) {
    Get(d, Copy(q)) == Some(original)
  }

  ghost predicate Live(d: Disk, original: Bytes) {
    Get(d, Entry) == Some(original)
  }

  /** Until the entry is moved, it is live; from then on its copy is in quarantine. */
  ghost predicate Safe(d: Disk, q: string, original: Bytes) {
    Live(d, original) || Kept(d, q, original)
  }

  /** The new installation root is empty. */
  ghost predicate EmptyRoot(d: Disk) {
    Get(d, Top).None? && Get(d, Current).None?
  }

  /** Reserve the new root, the quarantine directory and, in it, the copy of the entry. */
  method Quarantine(fs: FileStore, q: string, original: Bytes) returns (e: Effect)
    requires Live(fs.disk, original)
    modifies fs
    ensures OnlyPath(Copy(q), old(fs.disk), fs.disk) && Live(fs.disk, original)
    ensures e.Done? ==> Kept(fs.disk, q, original) && fs.disk == Put(old(fs.disk), Copy(q), original)
    ensures e.Thrown? && e != Thrown(Io) ==> Get(old(fs.disk), Copy(q)).Some?
    ensures fs.Told(e, old(fs.clock))
  {
    e := fs.Attempt();
    if !e.Done? {
      return;
    }
    :- fs.AtomicCreate(Copy(q), original);
    :- fs.Expect(Entry, Some(original), Refused);
    e := fs.Expect(Copy(q), Some(original), Refused);
  }

  ghost predicate OnlyEntryAndMoved(q: string, d: Disk, d': Disk) {
    d'.releases == d.releases && forall p :: p != Entry && p != Moved(q) ==> Get(d', p) == Get(d, p)
  }

  /** `restore`: only an entry known to be ours is removed, and nothing is ever overwritten. */
  method RestoreOriginal(fs: FileStore, q: string, original: Bytes, owned: Option<Bytes>) returns (e: Effect)
    requires Kept(fs.disk, q, original)
    modifies fs
    ensures Kept(fs.disk, q, original)
    ensures e.Done? ==> Live(fs.disk, original)
    ensures e.Thrown? && e != Thrown(Io) ==> Get(old(fs.disk), Entry) != owned
    ensures fs.Told(e, old(fs.clock))
  {
    e := fs.Expect(Copy(q), Some(original), Refused);
    if !e.Done? {
      return;
    }
    if owned.Some? {
      :- fs.Expect(Entry, owned, Refused);
      :- fs.AtomicRemove(Entry, owned.value);
    }
    :- fs.AtomicCreate(Entry, original);
    :- fs.Expect(Entry, Some(original), Refused);
    e := fs.Expect(Copy(q), Some(original), Refused);
  }

  /** Moves the entry aside and puts the user's own text in its place. `restorable`: a restore may
      be tried; `owned`: what was put at the entry's place. */
  method Detach(fs: FileStore, q: string, original: Bytes, user: Bytes) returns (e: Effect, restorable: bool, owned: Option<Bytes>)
    requires Live(fs.disk, original) && Kept(fs.disk, q, original)
    modifies fs
    ensures OnlyEntryAndMoved(q, old(fs.disk), fs.disk) && Kept(fs.disk, q, original)
    ensures e.Done? ==> restorable && owned == Some(user) && Get(fs.disk, Entry) == Some(user)
    ensures e.Done? ==> fs.disk == Put(Drop(Put(old(fs.disk), Moved(q), original), Entry), Entry, user)
    ensures e.Thrown? && e != Thrown(Io) ==> Get(old(fs.disk), Moved(q)).Some?
    ensures fs.Told(e, old(fs.clock))
  {
    restorable, owned := false, None;
    e := fs.RenameNoReplace(Entry, Moved(q));
    if !e.Done? {
      return;
    }
    e := fs.Expect(Moved(q), Some(original), Refused);
    if !e.Done? {
      return;
    }
    restorable := true;
    e := fs.AtomicCreate(Entry, user);
    if e.Done? {
      owned := Some(user);
    }
  }

  lemma QuarantineSurvives(s: Setting, plan: Plan, d0: Disk, d: Disk, gap: Gap, q: string, original: Bytes)
    requires Left(s, plan, d0, d, gap) && q != plan.id && Kept(d0, q, original)
    ensures Kept(d, q, original)
  {
    hide Get;
    if !Untouched(plan.id, d0, d) {
      var pair :| InTransaction(s, plan, d0, d, pair, gap);
      assert !OwnPath(plan, Copy(q));
    }
  }

  /** Installs into the new root and verifies that the result is current. */
  method InstallAnew(t: InstallerTransaction, id: string, q: string, names: seq<string>, original: Bytes, user: Bytes) returns (e: Effect)
    requires Faithful(t.s) && Unused(id, t.fs.disk) && q != id && Kept(t.fs.disk, q, original)
    requires EmptyRoot(t.fs.disk) && Get(t.fs.disk, Entry) == Some(user)
    modifies t.fs
    ensures Kept(t.fs.disk, q, original)
    ensures e.Done? ==> Classify(t.s, t.fs.disk) == IsCurrent && IsInstalled(t.s, t.fs.disk, user)
    ensures t.fs.Told(e, old(t.fs.clock))
    ensures DigestTells(t.s, old(t.fs.disk)) && Quiet(t.fs.events, old(t.fs.clock), t.fs.clock) ==>
      (e.Done? <==> WillInstall(t.s, old(t.fs.disk), id))
  {
    hide Get, Classify, MakePlan, Left, WillSucceed, CanKeep, DigestTells, Count, Unused, Decide, Applied, EmptyRoot, IsInstalled, KeptEntry;
    ghost var d0 := t.fs.disk;
    NothingToPreserve(t.s, d0);
    var o := t.Mutate(Install, id, names);
    if Decide(t.s, d0, Install) == Proceed && MakePlan(t.s, d0, Install, id).Success? {
      ghost var plan := MakePlan(t.s, d0, Install, id).value;
      PlannedInstall(t.s, d0, id, user);
      if o.Succeeded? {
        AppliedIsInstalled(t.s, d0, t.fs.disk, id, user);
      }
      QuarantineSurvives(t.s, plan, d0, t.fs.disk, Gap(KeptEntry(t.s, plan, t.fs.disk), R.Shared(t.s, d0, names, plan.release)), q, original);
    }
    if o.Stopped? {
      return Crashed;
    }
    if !o.Succeeded? || Classify(t.s, t.fs.disk) != IsCurrent {
      return Thrown(Refused);
    }
    e := t.fs.Attempt();
  }

  /** An install into this disk goes through. */
  predicate WillInstall(s: Setting, d: Disk, id: string) {
    && Decide(s, d, Install) == Proceed && MakePlan(s, d, Install, id).Success?
    && WillSucceed(s, MakePlan(s, d, Install, id).value, d)
  }

  /** The disk on which the installer runs: the copy and the moved entry in quarantine, and the
      user's own text in place. */
  function Detachment(d: Disk, q: string, original: Bytes, user: Bytes): Disk {
    Put(Drop(Put(Put(d, Copy(q), original), Moved(q), original), Entry), Entry, user)
  }

  /** The entry is the user's text with the new binding installed. */
  predicate IsInstalled(s: Setting, d: Disk, user: Bytes) {
    var installed := ManagedBlock.Install(s.wording, user, BuildBinding(s.release, s.installationRoot));
    installed.Success? && Get(d, Entry) == Some(installed.value)
  }

  /** In an empty root an install runs or is refused; there is nothing it could find done. */
  lemma NothingToPreserve(s: Setting, d: Disk)
    requires EmptyRoot(d)
    ensures Decide(s, d, Install) != AlreadyDone
  {
  }

  lemma PlannedInstall(s: Setting, d: Disk, id: string, user: Bytes)
    requires MakePlan(s, d, Install, id).Success? && Get(d, Entry) == Some(user)
    ensures var plan := MakePlan(s, d, Install, id).value;
      && plan.id == id
      && ManagedBlock.Install(s.wording, user, BuildBinding(s.release, s.installationRoot)) == Success(plan.entryApplied)
  {
    hide Get, ManagedBlock.Install, RulesMutation;
  }

  lemma AppliedIsInstalled(s: Setting, d0: Disk, d: Disk, id: string, user: Bytes)
    requires MakePlan(s, d0, Install, id).Success? && Get(d0, Entry) == Some(user) && Applied(s, MakePlan(s, d0, Install, id).value, d)
    ensures IsInstalled(s, d, user)
  {
    hide Get, MakePlan, ManagedBlock.Install, ManagedBlock.Verify, ManagedBlock.Remove;
    PlannedInstall(s, d0, id, user);
  }

  /** `replaceInstallation`, of an entry with the bytes `original` whose own text is `user`. */
  method ReplaceInstallation(t: InstallerTransaction, id: string, q: string, names: seq<string>, original: Bytes, user: Bytes) returns (r: Answer)
    requires Faithful(t.s) && Unused(id, t.fs.disk) && q != id && Live(t.fs.disk, original) && EmptyRoot(t.fs.disk)
    modifies t.fs
    ensures Safe(t.fs.disk, q, original)
    ensures r.Replaced? ==> Kept(t.fs.disk, q, original) && Classify(t.s, t.fs.disk) == IsCurrent && IsInstalled(t.s, t.fs.disk, user)
    ensures r == NotReplaced(NotRequired) ==> Live(t.fs.disk, original)
    ensures r == NotReplaced(Rescue.Restored) ==> Live(t.fs.disk, original) && Kept(t.fs.disk, q, original)
    ensures r == NotReplaced(Retained) ==> Kept(t.fs.disk, q, original)
    ensures Quiet(t.fs.events, old(t.fs.clock), t.fs.clock) && Get(old(t.fs.disk), Copy(q)).None? && Get(old(t.fs.disk), Moved(q)).None? ==>
      && r != Killed && r != NotReplaced(NotRequired)
      && (DigestTells(t.s, Detachment(old(t.fs.disk), q, original, user)) ==>
            (r.Replaced? <==> WillInstall(t.s, Detachment(old(t.fs.disk), q, original, user), id)))
  {
    hide Get, Put, Drop, Classify, IsInstalled, WillInstall, DigestTells, Count;
    PutChangesOne(t.fs.disk, Copy(q), original);
    var e := Quarantine(t.fs, q, original);
    if !e.Done? {
      return if e.Crashed? then Killed else NotReplaced(NotRequired);
    }
    assert Unused(id, t.fs.disk);
    var restorable, owned;
    e, restorable, owned := Detach(t.fs, q, original, user);
    if e.Done? {
      assert Unused(id, t.fs.disk);
      e := InstallAnew(t, id, q, names, original, user);
      if * {
        owned := Get(t.fs.disk, Entry);  // the run got as far as writing the entry
      }
    }
    if e.Done? {
      return Replaced;
    }
    if e.Crashed? {
      return Killed;
    }
    if !restorable {
      return NotReplaced(Retained);
    }
    e := RestoreOriginal(t.fs, q, original, owned);
    return if e.Done? then NotReplaced(Rescue.Restored) else if e.Crashed? then Killed else NotReplaced(Retained);
  }
}
