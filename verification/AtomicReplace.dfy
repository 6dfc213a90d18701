/** `_replace_all_atomically` of tools/sync_version.py: several files replaced together, or put
    back, whatever fails. */
module AtomicReplace {
  import opened Wrappers

  type Bytes = string

  /** A file, its staged sibling and its backup. */
  datatype Name = File(path: string) | Staged(path: string) | Backup(path: string)

  datatype Planned = Planned(path: string, content: Bytes)

  /** What happens at one operation: it works, it fails, or an interrupt comes before or after its
      effect. */
  datatype Event = Fine | Fails | Breaks | BreaksAfter

  /** Everything works from one moment to another. */
  ghost predicate Quiet(events: nat -> Event, from: nat, to: nat) {
    forall i :: from <= i < to ==> events(i) == Fine
  }

  /** How a replace can end: done, failed, interrupted, or done and interrupted before it was recorded. */
  datatype Moved = Done | Failed | Broken | Unrecorded

  function MovedBy(event: Event): Moved {
    match event
    case Fine => Done
    case Fails => Failed
    case Breaks => Broken
    case BreaksAfter => Unrecorded
  }

  predicate SameAt(x: map<Name, Bytes>, y: map<Name, Bytes>, name: Name) {
    (name in x <==> name in y) && (name in x ==> x[name] == y[name])
  }

  ghost predicate Distinct(planned: seq<Planned>) {
    forall i, j :: 0 <= i < j < |planned| ==> planned[i].path != planned[j].path
  }

  /** `events` are arbitrary, so that everything said of a method holds whatever fails. */
  class Workspace {
    var files: map<Name, Bytes>
    var clock: nat  // operations so far
    const events: nat -> Event

    constructor (files: map<Name, Bytes>, events: nat -> Event)
      ensures this.files == files && this.events == events && clock == 0
    {
      this.files := files;
      this.events := events;
      clock := 0;
    }

    /** A point at which the source checks or may be interrupted, without an effect on the files. */
    method Pass() returns (ok: bool)
      modifies this`clock
      ensures clock == old(clock) + 1 && ok == (events(old(clock)) == Fine)
    {
      ok := events(clock) == Fine;
      clock := clock + 1;
    }

    /** `_stage_sibling`: on an error the temporary file is removed again, if that works. */
    method StageSibling(name: Name, content: Bytes) returns (ok: bool)
      requires !name.File?
      modifies this
      ensures clock == old(clock) + 1 && ok == (events(old(clock)) == Fine)
      ensures ok ==> name in files && files[name] == content
      ensures OnlyAt(old(files), files, name)
    {
      var event := events(clock);
      clock := clock + 1;
      ok := event == Fine;
      if ok {
        files := files[name := content];
      } else if event == BreaksAfter {
        var part :| part <= content;
        files := files[name := part];
      }
    }

    /** `os.replace`, atomic. */
    method Replace(source: Name, target: Name) returns (moved: Moved)
      requires source in files && source != target
      modifies this
      ensures clock == old(clock) + 1 && moved == MovedBy(events(old(clock)))
      ensures files == if moved.Done? || moved.Unrecorded? then old(files)[target := old(files)[source]] - {source} else old(files)
    {
      moved := MovedBy(events(clock));
      clock := clock + 1;
      if moved.Done? || moved.Unrecorded? {
        files := files[target := files[source]] - {source};
      }
    }

    method Unlink(name: Name) returns (ok: bool)
      modifies this
      ensures clock == old(clock) + 1 && ok == (events(old(clock)) == Fine)
      ensures files == if ok || events(old(clock)) == BreaksAfter then old(files) - {name} else old(files)
    {
      var event := events(clock);
      clock := clock + 1;
      ok := event == Fine;
      if ok || event == BreaksAfter {
        files := files - {name};
      }
    }
  }

  /** Only temporary files differ. */
  ghost predicate FilesUntouched(before: map<Name, Bytes>, files: map<Name, Bytes>) {
    forall path :: SameAt(before, files, File(path))
  }

  /** `name` is the only place where two steps differ. */
  ghost predicate OnlyAt(x: map<Name, Bytes>, y: map<Name, Bytes>, name: Name) {
    forall other :: other != name ==> SameAt(x, y, other)
  }

  lemma StillUntouched(before: map<Name, Bytes>, was: map<Name, Bytes>, files: map<Name, Bytes>, name: Name)
    requires FilesUntouched(before, was) && OnlyAt(was, files, name) && !name.File?
    ensures FilesUntouched(before, files)
  {
    forall path
      ensures SameAt(before, files, File(path))
    {
      assert SameAt(before, was, File(path)) && SameAt(was, files, File(path));
    }
  }

  ghost predicate StagedUntouched(before: map<Name, Bytes>, files: map<Name, Bytes>) {
    forall path :: SameAt(before, files, Staged(path))
  }

  lemma StagedStays(before: map<Name, Bytes>, was: map<Name, Bytes>, files: map<Name, Bytes>, name: Name)
    requires StagedUntouched(before, was) && OnlyAt(was, files, name) && name.Backup?
    ensures StagedUntouched(before, files)
  {
    forall path
      ensures SameAt(before, files, Staged(path))
    {
      assert SameAt(before, was, Staged(path)) && SameAt(was, files, Staged(path));
    }
  }

  /** A planned file holds its new content or its old one. */
  ghost predicate HasNew(planned: seq<Planned>, files: map<Name, Bytes>, i: nat)
    requires i < |planned|
  {
    File(planned[i].path) in files && files[File(planned[i].path)] == planned[i].content
  }

  ghost predicate HasOld(before: map<Name, Bytes>, planned: seq<Planned>, files: map<Name, Bytes>, i: nat)
    requires i < |planned|
  {
    var f := File(planned[i].path);
    f in before && f in files && files[f] == before[f]
  }

  ghost predicate BackedUp(before: map<Name, Bytes>, planned: seq<Planned>, files: map<Name, Bytes>, i: nat)
    requires i < |planned|
  {
    var f, b := File(planned[i].path), Backup(planned[i].path);
    f in before && b in files && files[b] == before[f]
  }

  ghost predicate StagedFor(planned: seq<Planned>, files: map<Name, Bytes>, i: nat)
    requires i < |planned|
  {
    Staged(planned[i].path) in files && files[Staged(planned[i].path)] == planned[i].content
  }

  /** No other file is ever touched. */
  ghost predicate OthersUntouched(before: map<Name, Bytes>, planned: seq<Planned>, files: map<Name, Bytes>) {
    forall path :: (forall i :: 0 <= i < |planned| ==> planned[i].path != path) ==> SameAt(before, files, File(path))
  }

  ghost predicate AllNew(planned: seq<Planned>, files: map<Name, Bytes>) {
    forall i :: 0 <= i < |planned| ==> HasNew(planned, files, i)
  }

  ghost predicate AllOld(before: map<Name, Bytes>, planned: seq<Planned>, files: map<Name, Bytes>) {
    forall i :: 0 <= i < |planned| ==> HasOld(before, planned, files, i)
  }

  /** Every planned file is as it was, or its old bytes are in its backup. */
  ghost predicate NothingLost(before: map<Name, Bytes>, planned: seq<Planned>, files: map<Name, Bytes>) {
    forall i :: 0 <= i < |planned| ==> HasOld(before, planned, files, i) || BackedUp(before, planned, files, i)
  }

  // ---- The phases ----

  /** It went well exactly if so many operations since a moment work, and then there were no more. */
  ghost predicate Steps(w: Workspace, ok: bool, since: nat, steps: nat)
    reads w
  {
    (ok ==> w.clock == since + steps) && (ok <==> Quiet(w.events, since, since + steps))
  }

  /** Every planned content in a staged sibling, in order. */
  method StageAll(w: Workspace, planned: seq<Planned>) returns (ok: bool, staged: nat)
    requires Distinct(planned)
    modifies w
    ensures FilesUntouched(old(w.files), w.files)
    ensures staged <= |planned| && (ok ==> staged == |planned|)
    ensures ok ==> forall i :: 0 <= i < |planned| ==> StagedFor(planned, w.files, i)
    ensures Steps(w, ok, old(w.clock), |planned|)
  {
    staged := 0;
    while staged < |planned|
      invariant staged <= |planned| && w.clock == old(w.clock) + staged && Quiet(w.events, old(w.clock), w.clock)
      invariant FilesUntouched(old(w.files), w.files)
      invariant forall i :: 0 <= i < staged ==> StagedFor(planned, w.files, i)
    {
      ghost var was := w.files;
      ok := w.StageSibling(Staged(planned[staged].path), planned[staged].content);
      StillUntouched(old(w.files), was, w.files, Staged(planned[staged].path));
      if !ok {
        return false, staged;
      }
      forall i | 0 <= i < staged
        ensures StagedFor(planned, w.files, i)
      {
        assert StagedFor(planned, was, i) && planned[i].path != planned[staged].path;
        assert SameAt(was, w.files, Staged(planned[i].path));
      }
      staged := staged + 1;
    }
    return true, staged;
  }

  /** The present bytes of every planned file in a backup. */
  method BackUpAll(w: Workspace, planned: seq<Planned>) returns (ok: bool, backups: nat)
    requires Distinct(planned) && forall i :: 0 <= i < |planned| ==> File(planned[i].path) in w.files
    modifies w
    ensures FilesUntouched(old(w.files), w.files)
    ensures StagedUntouched(old(w.files), w.files)
    ensures backups <= |planned| && (ok ==> backups == |planned|)
    ensures forall i :: 0 <= i < backups ==> BackedUp(old(w.files), planned, w.files, i)
    ensures Steps(w, ok, old(w.clock), 2 * |planned|)
  {
    backups := 0;
    while backups < |planned|
      invariant backups <= |planned| && w.clock == old(w.clock) + 2 * backups && Quiet(w.events, old(w.clock), w.clock)
      invariant FilesUntouched(old(w.files), w.files)
      invariant StagedUntouched(old(w.files), w.files)
      invariant forall i :: 0 <= i < backups ==> BackedUp(old(w.files), planned, w.files, i)
    {
      ok := w.Pass();
      if !ok {
        return false, backups;  // unreadable, or no longer the file that was planned for
      }
      var content := w.files[File(planned[backups].path)];
      ghost var was := w.files;
      ok := w.StageSibling(Backup(planned[backups].path), content);
      StillUntouched(old(w.files), was, w.files, Backup(planned[backups].path));
      StagedStays(old(w.files), was, w.files, Backup(planned[backups].path));
      forall i | 0 <= i < backups
        ensures BackedUp(old(w.files), planned, w.files, i)
      {
        assert BackedUp(old(w.files), planned, was, i) && planned[i].path != planned[backups].path;
        assert SameAt(was, w.files, Backup(planned[i].path));
      }
      if !ok {
        return false, backups;
      }
      assert SameAt(old(w.files), was, File(planned[backups].path));
      backups := backups + 1;
    }
    return true, backups;
  }

  /** Where the replacing stands: the first `n` files are new and the others old, all backed up. */
  ghost predicate Half(before: map<Name, Bytes>, planned: seq<Planned>, files: map<Name, Bytes>, n: nat) {
    && (forall i :: 0 <= i < |planned| ==> BackedUp(before, planned, files, i))
    && (forall i :: 0 <= i < n && i < |planned| ==> HasNew(planned, files, i))
    && (forall i :: n <= i < |planned| ==> HasOld(before, planned, files, i))
    && OthersUntouched(before, planned, files)
  }

  /** An interrupt comes after the last of `n` replaces was recorded. */
  ghost predicate BreaksAtTheEnd(events: nat -> Event, from: nat, n: nat) {
    Quiet(events, from, from + n) && events(from + n) == Breaks
  }

  /** Staged siblings into place, in order; `replaced` counts those recorded. */
  method ReplaceEach(w: Workspace, planned: seq<Planned>, ghost before: map<Name, Bytes>) returns (ok: bool, replaced: nat, ghost unrecorded: bool)
    requires Distinct(planned) && Half(before, planned, w.files, 0)
    requires forall i :: 0 <= i < |planned| ==> StagedFor(planned, w.files, i)
    modifies w
    ensures replaced <= |planned| && (unrecorded ==> replaced < |planned|) && (ok ==> replaced == |planned| && !unrecorded)
    ensures Half(before, planned, w.files, if unrecorded then replaced + 1 else replaced)
    ensures Steps(w, ok, old(w.clock), |planned| + 1)
    ensures BreaksAtTheEnd(w.events, old(w.clock), |planned|) ==>
      !ok && replaced == |planned| && !unrecorded && w.clock == old(w.clock) + |planned| + 1
  {
    replaced := 0;
    unrecorded := false;
    while replaced < |planned|
      invariant replaced <= |planned| && !unrecorded && w.clock == old(w.clock) + replaced && Quiet(w.events, old(w.clock), w.clock)
      invariant Half(before, planned, w.files, replaced)
      invariant forall i :: replaced <= i < |planned| ==> StagedFor(planned, w.files, i)
    {
      ghost var was := w.files;
      assert StagedFor(planned, was, replaced);
      var moved := w.Replace(Staged(planned[replaced].path), File(planned[replaced].path));
      if moved.Done? || moved.Unrecorded? {
        OneMore(before, planned, was, w.files, replaced);
      }
      if !moved.Done? {
        unrecorded := moved.Unrecorded?;
        return false, replaced, unrecorded;
      }
      replaced := replaced + 1;
    }
    ok := w.Pass();  // the commit is noted
    return ok, replaced, false;
  }

  lemma OneMore(before: map<Name, Bytes>, planned: seq<Planned>, was: map<Name, Bytes>, files: map<Name, Bytes>, n: nat)
    requires Distinct(planned) && n < |planned| && Half(before, planned, was, n) && StagedFor(planned, was, n)
    requires files == was[File(planned[n].path) := was[Staged(planned[n].path)]] - {Staged(planned[n].path)}
    ensures Half(before, planned, files, n + 1)
    ensures forall i :: n < i < |planned| && StagedFor(planned, was, i) ==> StagedFor(planned, files, i)
  {
    forall i | 0 <= i < |planned|
      ensures BackedUp(before, planned, files, i)
      ensures i <= n ==> HasNew(planned, files, i)
      ensures i > n ==> HasOld(before, planned, files, i)
    {
      assert BackedUp(before, planned, was, i);
      assert i < n ==> HasNew(planned, was, i);
      assert i >= n ==> HasOld(before, planned, was, i);
    }
  }

  /** How a run that was not committed went: the replaces it recorded, whether one more took effect,
      and how many files, counted from the first, the rollback did not get to. */
  datatype Fate = Fate(replaced: nat, unrecorded: bool, left: nat)

  /** A file that was replaced and not put back. */
  predicate StaysNew(planned: seq<Planned>, errors: set<string>, fate: Fate, i: nat)
    requires i < |planned|
  {
    i < fate.left || (fate.unrecorded && i == fate.replaced) || planned[i].path in errors
  }

  /** Backups back over the replaced files, last first; `errors` are those that failed. Only an
      `OSError` is caught: an interrupt leaves the loop, and the first `fate.left` files as they are. */
  method RollBack(w: Workspace, planned: seq<Planned>, replaced: nat, ghost before: map<Name, Bytes>, ghost unrecorded: bool)
      returns (errors: set<string>, interrupted: bool, ghost fate: Fate)
    requires Distinct(planned) && replaced <= |planned| && (unrecorded ==> replaced < |planned|)
    requires Half(before, planned, w.files, if unrecorded then replaced + 1 else replaced)
    modifies w
    ensures RolledTo(before, planned, w.files, errors, fate)
    ensures fate.replaced == replaced && fate.unrecorded == unrecorded && fate.left <= replaced
    ensures !interrupted ==> fate.left == 0
    ensures errors != {} ==> replaced > 0
    ensures replaced > 0 && w.events(old(w.clock)) == Breaks ==>
      errors == {} && interrupted && fate.left == replaced && w.clock == old(w.clock) + 1
  {
    errors, interrupted, fate := {}, false, Fate(replaced, unrecorded, replaced);
    var i: nat := replaced;
    forall k | 0 <= k < |planned|
      ensures RollingAt(before, planned, w.files, k, errors, fate)
    {
      assert BackedUp(before, planned, w.files, k);
    }
    while i > 0
      invariant i <= replaced && fate == Fate(replaced, unrecorded, i) && (errors != {} ==> replaced > 0)
      invariant RolledTo(before, planned, w.files, errors, fate)
      invariant i < replaced ==> w.events(old(w.clock)) != Breaks
      invariant i == replaced ==> w.clock == old(w.clock) && errors == {}
    {
      i := i - 1;
      ghost var was := w.files;
      assert RollingAt(before, planned, was, i, errors, fate);
      var moved := w.Replace(Backup(planned[i].path), File(planned[i].path));
      if moved.Broken? {
        return errors, true, fate;
      }
      if moved.Failed? {
        StillBackedUp(before, planned, w.files, i, errors, fate);
        errors := errors + {planned[i].path};
      } else {
        PutBack(before, planned, was, w.files, i, errors, fate);
      }
      fate := fate.(left := i);
      if moved.Unrecorded? {
        return errors, true, fate;
      }
    }
  }

  /** A file that stays new has its old bytes in its backup; every other one is old. */
  ghost predicate RollingAt(before: map<Name, Bytes>, planned: seq<Planned>, files: map<Name, Bytes>, k: nat, errors: set<string>, fate: Fate)
    requires k < |planned|
  {
    && (if StaysNew(planned, errors, fate, k) then HasNew(planned, files, k) && BackedUp(before, planned, files, k)
        else HasOld(before, planned, files, k))
    && (planned[k].path in errors ==> fate.left <= k < fate.replaced)
  }

  ghost predicate RolledTo(before: map<Name, Bytes>, planned: seq<Planned>, files: map<Name, Bytes>, errors: set<string>, fate: Fate) {
    && (forall k :: 0 <= k < |planned| ==> RollingAt(before, planned, files, k, errors, fate))
    && (forall path :: path in errors ==> exists k :: 0 <= k < |planned| && planned[k].path == path)
    && OthersUntouched(before, planned, files)
  }

  lemma StillBackedUp(before: map<Name, Bytes>, planned: seq<Planned>, files: map<Name, Bytes>, i: nat, errors: set<string>, fate: Fate)
    requires Distinct(planned) && i < fate.replaced <= |planned| && fate.left == i + 1 && RolledTo(before, planned, files, errors, fate)
    ensures RolledTo(before, planned, files, errors + {planned[i].path}, fate.(left := i))
  {
    forall k | 0 <= k < |planned|
      ensures RollingAt(before, planned, files, k, errors + {planned[i].path}, fate.(left := i))
    {
      assert RollingAt(before, planned, files, k, errors, fate);
    }
  }

  lemma PutBack(before: map<Name, Bytes>, planned: seq<Planned>, was: map<Name, Bytes>, files: map<Name, Bytes>, i: nat, errors: set<string>, fate: Fate)
    requires Distinct(planned) && i < fate.replaced <= |planned| && fate.left == i + 1 && RolledTo(before, planned, was, errors, fate)
    requires Backup(planned[i].path) in was
    requires files == was[File(planned[i].path) := was[Backup(planned[i].path)]] - {Backup(planned[i].path)}
    ensures RolledTo(before, planned, files, errors, fate.(left := i))
  {
    assert RollingAt(before, planned, was, i, errors, fate);
    forall k | 0 <= k < |planned|
      ensures RollingAt(before, planned, files, k, errors, fate.(left := i))
    {
      assert RollingAt(before, planned, was, k, errors, fate);
    }
  }

  // ---- Cleaning up ----

  function Temporary(path: string, backup: bool): Name {
    if backup then Name.Backup(path) else Staged(path)
  }

  /** Only temporary files of one kind are gone. */
  ghost predicate OnlyRemoved(was: map<Name, Bytes>, files: map<Name, Bytes>, backup: bool) {
    forall name: Name :: name.File? || name.Backup? != backup ==> SameAt(was, files, name)
  }

  method UnlinkAll(w: Workspace, planned: seq<Planned>, count: nat, backup: bool) returns (ok: bool)
    requires count <= |planned|
    modifies w
    ensures OnlyRemoved(old(w.files), w.files, backup)
    ensures ok ==> forall i :: 0 <= i < count ==> Temporary(planned[i].path, backup) !in w.files
    ensures Steps(w, ok, old(w.clock), count)
  {
    for i := 0 to count
      invariant w.clock == old(w.clock) + i && Quiet(w.events, old(w.clock), w.clock)
      invariant OnlyRemoved(old(w.files), w.files, backup)
      invariant forall k :: 0 <= k < i ==> Temporary(planned[k].path, backup) !in w.files
    {
      ghost var was := w.files;
      ok := w.Unlink(Temporary(planned[i].path, backup));
      forall name: Name | name.File? || name.Backup? != backup
        ensures SameAt(old(w.files), w.files, name)
      {
        assert SameAt(old(w.files), was, name);
      }
      if !ok {
        return false;
      }
    }
    return true;
  }

  lemma RemovedKeepsFiles(before: map<Name, Bytes>, planned: seq<Planned>, was: map<Name, Bytes>, files: map<Name, Bytes>, backup: bool)
    requires OnlyRemoved(was, files, backup)
    ensures forall i :: 0 <= i < |planned| ==> HasNew(planned, files, i) == HasNew(planned, was, i)
    ensures forall i :: 0 <= i < |planned| ==> HasOld(before, planned, files, i) == HasOld(before, planned, was, i)
    ensures !backup ==> forall i :: 0 <= i < |planned| ==> BackedUp(before, planned, files, i) == BackedUp(before, planned, was, i)
    ensures OthersUntouched(before, planned, was) ==> OthersUntouched(before, planned, files)
  {
    forall i | 0 <= i < |planned|
      ensures HasNew(planned, files, i) == HasNew(planned, was, i)
      ensures HasOld(before, planned, files, i) == HasOld(before, planned, was, i)
      ensures !backup ==> BackedUp(before, planned, files, i) == BackedUp(before, planned, was, i)
    {
      assert SameAt(was, files, File(planned[i].path));
      assert !backup ==> SameAt(was, files, Name.Backup(planned[i].path));
    }
    if OthersUntouched(before, planned, was) {
      forall path | forall i :: 0 <= i < |planned| ==> planned[i].path != path
        ensures SameAt(before, files, File(path))
      {
        assert SameAt(before, was, File(path)) && SameAt(was, files, File(path));
      }
    }
  }

  lemma UntouchedIsOld(before: map<Name, Bytes>, planned: seq<Planned>, files: map<Name, Bytes>)
    requires FilesUntouched(before, files) && forall i :: 0 <= i < |planned| ==> File(planned[i].path) in before
    ensures AllOld(before, planned, files) && OthersUntouched(before, planned, files)
  {
    forall i | 0 <= i < |planned|
      ensures HasOld(before, planned, files, i)
    {
      assert SameAt(before, files, File(planned[i].path));
    }
  }

  /** What is left when everything that can fail may have failed. */
  ghost predicate Ended(before: map<Name, Bytes>, planned: seq<Planned>, files: map<Name, Bytes>, committed: bool, errors: set<string>, fate: Fate) {
    && OthersUntouched(before, planned, files)
    && (if committed then AllNew(planned, files)
        else forall i :: 0 <= i < |planned| ==> EndedAt(before, planned, files, errors, fate, i))
  }

  /** A rollback error keeps the backups. */
  ghost predicate EndedAt(before: map<Name, Bytes>, planned: seq<Planned>, files: map<Name, Bytes>, errors: set<string>, fate: Fate, i: nat)
    requires i < |planned|
  {
    if StaysNew(planned, errors, fate, i) then HasNew(planned, files, i) && (errors != {} ==> BackedUp(before, planned, files, i))
    else HasOld(before, planned, files, i)
  }

  lemma CleanedUpEnds(before: map<Name, Bytes>, planned: seq<Planned>, was: map<Name, Bytes>, files: map<Name, Bytes>, backup: bool, committed: bool, errors: set<string>, fate: Fate)
    requires Ended(before, planned, was, committed, errors, fate) && OnlyRemoved(was, files, backup) && (backup ==> errors == {})
    ensures Ended(before, planned, files, committed, errors, fate)
  {
    RemovedKeepsFiles(before, planned, was, files, backup);
    forall i | 0 <= i < |planned| && !committed
      ensures EndedAt(before, planned, files, errors, fate, i)
    {
      assert EndedAt(before, planned, was, errors, fate, i);
    }
  }

  /** Every plan changes its file. */
  ghost predicate Changes(before: map<Name, Bytes>, planned: seq<Planned>) {
    forall i :: 0 <= i < |planned| ==> File(planned[i].path) in before && before[File(planned[i].path)] != planned[i].content
  }

  predicate AllPutBack(fate: Fate) {
    fate.left == 0 && !fate.unrecorded
  }

  ghost predicate WithinPlan(planned: seq<Planned>, errors: set<string>, fate: Fate) {
    && fate.left <= fate.replaced <= |planned| && (fate.unrecorded ==> fate.replaced < |planned|)
    && forall path :: path in errors ==> exists k :: 0 <= k < |planned| && planned[k].path == path
  }

  ghost predicate NoBackups(planned: seq<Planned>, files: map<Name, Bytes>) {
    forall i :: 0 <= i < |planned| ==> Name.Backup(planned[i].path) !in files
  }

  /** Without a commit, everything is old exactly when the rollback put every replaced file back;
      and once the backups are gone, nothing is lost exactly then. */
  lemma LostExactlyIf(before: map<Name, Bytes>, planned: seq<Planned>, files: map<Name, Bytes>, errors: set<string>, fate: Fate)
    requires Ended(before, planned, files, false, errors, fate) && WithinPlan(planned, errors, fate) && Changes(before, planned)
    ensures AllOld(before, planned, files) <==> errors == {} && AllPutBack(fate)
    ensures errors == {} && NoBackups(planned, files) ==> (NothingLost(before, planned, files) <==> AllPutBack(fate))
  {
    forall i | 0 <= i < |planned|
      ensures HasOld(before, planned, files, i) <==> !StaysNew(planned, errors, fate, i)
    {
      assert EndedAt(before, planned, files, errors, fate, i);
    }
    if errors != {} {
      var path :| path in errors;
      var k :| 0 <= k < |planned| && planned[k].path == path;
      assert StaysNew(planned, errors, fate, k);
    } else if fate.left > 0 {
      assert StaysNew(planned, errors, fate, 0);
    } else if fate.unrecorded {
      assert StaysNew(planned, errors, fate, fate.replaced);
    }
  }

  /** After a rollback error the backups stay. */
  lemma ErrorsLoseNothing(before: map<Name, Bytes>, planned: seq<Planned>, files: map<Name, Bytes>, errors: set<string>, fate: Fate)
    requires Ended(before, planned, files, false, errors, fate) && errors != {}
    ensures NothingLost(before, planned, files)
  {
    forall i | 0 <= i < |planned|
      ensures HasOld(before, planned, files, i) || BackedUp(before, planned, files, i)
    {
      assert EndedAt(before, planned, files, errors, fate, i);
    }
  }

  /** The `try` block: staging, backups, replacing, and after the last replace the removal of the
      backups. `committed` says that it got that far. */
  method Try(w: Workspace, planned: seq<Planned>) returns (ok: bool, staged: nat, backups: nat, replaced: nat, committed: bool, ghost unrecorded: bool)
    requires Distinct(planned) && forall i :: 0 <= i < |planned| ==> File(planned[i].path) in w.files
    modifies w
    ensures staged <= |planned| && backups <= |planned| && replaced <= |planned| && (unrecorded ==> replaced < |planned|)
    ensures committed ==> AllNew(planned, w.files) && OthersUntouched(old(w.files), planned, w.files) && !unrecorded
    ensures ok ==> committed && staged == |planned| && forall i :: 0 <= i < |planned| ==> Name.Backup(planned[i].path) !in w.files
    ensures !committed && (replaced > 0 || unrecorded) ==>
      backups == |planned| && Half(old(w.files), planned, w.files, if unrecorded then replaced + 1 else replaced)
    ensures Steps(w, ok, old(w.clock), 5 * |planned| + 2)
    ensures BreaksAtTheEnd(w.events, old(w.clock), 4 * |planned| + 1) ==>
      !ok && !committed && staged == backups == replaced == |planned| && !unrecorded && w.clock == old(w.clock) + 4 * |planned| + 2
    ensures !committed && replaced == 0 && !unrecorded ==> AllOld(old(w.files), planned, w.files) && OthersUntouched(old(w.files), planned, w.files)
  {
    hide Half, AllOld, AllNew, OthersUntouched;
    replaced, committed, unrecorded := 0, false, false;
    ghost var before := w.files;
    ok, staged, backups := Prepare(w, planned);
    if !ok {
      return;
    }
    ok := w.Pass();
    if !ok {
      return false, staged, backups, replaced, committed, unrecorded;  // a file is no longer the planned one
    }
    ok, replaced, unrecorded := ReplaceEach(w, planned, before);
    HalfMeans(before, planned, w.files);
    if !ok {
      return;
    }
    committed := true;
    ghost var replacedFiles := w.files;
    ok := UnlinkAll(w, planned, |planned|, true);
    CommittedStays(before, planned, replacedFiles, w.files);
    if ok {
      assert forall i :: 0 <= i < |planned| ==> Temporary(planned[i].path, true) == Name.Backup(planned[i].path);
    }
  }

  /** Staging and backups: no file is touched yet. */
  method Prepare(w: Workspace, planned: seq<Planned>) returns (ok: bool, staged: nat, backups: nat)
    requires Distinct(planned) && forall i :: 0 <= i < |planned| ==> File(planned[i].path) in w.files
    modifies w
    ensures staged <= |planned| && backups <= |planned| && (ok ==> staged == backups == |planned|)
    ensures AllOld(old(w.files), planned, w.files) && OthersUntouched(old(w.files), planned, w.files)
    ensures ok ==> Half(old(w.files), planned, w.files, 0) && forall i :: 0 <= i < |planned| ==> StagedFor(planned, w.files, i)
    ensures Steps(w, ok, old(w.clock), 3 * |planned|)
  {
    hide HasOld, BackedUp, StagedFor, AllOld, OthersUntouched, Half;
    backups := 0;
    ghost var before := w.files;
    ok, staged := StageAll(w, planned);
    UntouchedIsOld(before, planned, w.files);
    if !ok {
      return;
    }
    ghost var after := w.files;
    StillThere(before, planned, after);
    ok, backups := BackUpAll(w, planned);
    BackedUpToo(before, planned, after, w.files, backups);
  }

  lemma StillThere(before: map<Name, Bytes>, planned: seq<Planned>, files: map<Name, Bytes>)
    requires AllOld(before, planned, files)
    ensures forall i :: 0 <= i < |planned| ==> File(planned[i].path) in files
  {
    forall i | 0 <= i < |planned|
      ensures File(planned[i].path) in files
    {
      assert HasOld(before, planned, files, i);
    }
  }

  lemma CommittedStays(before: map<Name, Bytes>, planned: seq<Planned>, was: map<Name, Bytes>, files: map<Name, Bytes>)
    requires AllNew(planned, was) && OthersUntouched(before, planned, was) && OnlyRemoved(was, files, true)
    ensures AllNew(planned, files) && OthersUntouched(before, planned, files)
  {
    RemovedKeepsFiles(before, planned, was, files, true);
  }

  /** None replaced, or all. */
  lemma HalfMeans(before: map<Name, Bytes>, planned: seq<Planned>, files: map<Name, Bytes>)
    ensures Half(before, planned, files, 0) ==> AllOld(before, planned, files) && OthersUntouched(before, planned, files)
    ensures Half(before, planned, files, |planned|) ==> AllNew(planned, files) && OthersUntouched(before, planned, files)
  {
  }

  lemma BackedUpToo(before: map<Name, Bytes>, planned: seq<Planned>, was: map<Name, Bytes>, files: map<Name, Bytes>, backups: nat)
    requires backups <= |planned| && FilesUntouched(before, was) && FilesUntouched(was, files) && StagedUntouched(was, files)
    requires forall i :: 0 <= i < |planned| ==> File(planned[i].path) in before
    requires forall i :: 0 <= i < backups ==> BackedUp(was, planned, files, i)
    requires forall i :: 0 <= i < |planned| ==> StagedFor(planned, was, i)
    ensures AllOld(before, planned, files) && OthersUntouched(before, planned, files)
    ensures backups == |planned| ==> Half(before, planned, files, 0)
    ensures forall i :: 0 <= i < |planned| ==> StagedFor(planned, files, i)
  {
    forall path
      ensures SameAt(before, files, File(path))
    {
      assert SameAt(before, was, File(path)) && SameAt(was, files, File(path));
    }
    UntouchedIsOld(before, planned, files);
    forall i | 0 <= i < |planned|
      ensures StagedFor(planned, files, i)
      ensures i < backups ==> BackedUp(before, planned, files, i)
      ensures HasOld(before, planned, files, i)
    {
      assert StagedFor(planned, was, i) && SameAt(was, files, Staged(planned[i].path)) && SameAt(before, was, File(planned[i].path));
      assert i < backups ==> BackedUp(was, planned, files, i);
    }
  }

  /** `_replace_all_atomically`. Committed, all files are new. Otherwise exactly those stay new that
      `StaysNew` names: all are old again exactly if none failed to be put back and no interrupt
      came between a replace and its record or into the rollback. After a rollback error nothing is
      lost; after such an interrupt the old bytes are, as soon as the cleaning up is done. */
  method ReplaceAll(w: Workspace, planned: seq<Planned>)
      returns (raised: bool, committed: bool, errors: set<string>, interrupted: bool, cleaned: bool, ghost fate: Fate)
    requires Distinct(planned) && forall i :: 0 <= i < |planned| ==> File(planned[i].path) in w.files
    modifies w
    ensures Ended(old(w.files), planned, w.files, committed, errors, fate) && WithinPlan(planned, errors, fate)
    ensures committed ==> errors == {}
    ensures !raised ==> committed
    ensures !interrupted ==> fate.left == 0
    ensures !raised ==> forall i :: 0 <= i < |planned| ==> Staged(planned[i].path) !in w.files && Name.Backup(planned[i].path) !in w.files
    ensures (exists name :: name in old(w.files) && !name.File?) ==> raised && w.files == old(w.files)
    ensures !committed && Changes(old(w.files), planned) ==> (AllOld(old(w.files), planned, w.files) <==> errors == {} && AllPutBack(fate))
    ensures !committed && errors != {} ==> NothingLost(old(w.files), planned, w.files)
    ensures !committed && errors == {} && cleaned && Changes(old(w.files), planned) ==>
      (NothingLost(old(w.files), planned, w.files) <==> AllPutBack(fate))
    ensures !raised <==> OnlyFiles(old(w.files)) && Quiet(w.events, old(w.clock), old(w.clock) + 6 * |planned| + 3)
    ensures planned != [] && OnlyFiles(old(w.files)) && RollbackIsBroken(w.events, old(w.clock), |planned|) ==>
      !committed && errors == {} && interrupted && cleaned && fate == Fate(|planned|, false, |planned|)
  {
    ghost var before := w.files;
    raised, committed, errors, interrupted, cleaned, fate := true, false, {}, false, false, Fate(0, false, 0);
    UntouchedIsOld(before, planned, w.files);
    var expected := w.Pass();
    var residuals := set name | name in w.files && !name.File?;
    assert forall name :: name in before && !name.File? ==> name in residuals;
    if !expected || residuals != {} {
      OldIsEnded(before, planned, w.files, {});
      return;  // a file is no longer the planned one, or an earlier run has left something
    }
    raised, committed, errors, interrupted, cleaned, fate := TryAndCleanUp(w, planned);
    if !committed && errors != {} {
      ErrorsLoseNothing(before, planned, w.files, errors, fate);
    }
    if !committed && Changes(before, planned) {
      LostExactlyIf(before, planned, w.files, errors, fate) by {
        assert WithinPlan(planned, errors, fate);
      }
    }
  }

  /** The `try` statement as a whole. */
  method TryAndCleanUp(w: Workspace, planned: seq<Planned>)
      returns (raised: bool, committed: bool, errors: set<string>, interrupted: bool, cleaned: bool, ghost fate: Fate)
    requires Distinct(planned) && forall i :: 0 <= i < |planned| ==> File(planned[i].path) in w.files
    modifies w
    ensures Ended(old(w.files), planned, w.files, committed, errors, fate) && WithinPlan(planned, errors, fate)
    ensures committed ==> errors == {}
    ensures !raised ==> committed
    ensures !interrupted ==> fate.left == 0
    ensures !raised ==> forall i :: 0 <= i < |planned| ==> Staged(planned[i].path) !in w.files && Name.Backup(planned[i].path) !in w.files
    ensures !committed && errors == {} && cleaned && (fate.replaced > 0 || fate.unrecorded) ==> NoBackups(planned, w.files)
    ensures !raised <==> Quiet(w.events, old(w.clock), old(w.clock) + 6 * |planned| + 2)
    ensures planned != [] && TryIsBroken(w.events, old(w.clock), |planned|) ==>
      !committed && errors == {} && interrupted && cleaned && fate == Fate(|planned|, false, |planned|)
  {
    hide Ended, Half, WithinPlan, AllNew, AllOld, OthersUntouched;
    ghost var before := w.files;
    errors, interrupted := {}, false;
    var ok, staged, backups, replaced;
    ghost var unrecorded;
    ok, staged, backups, replaced, committed, unrecorded := Try(w, planned);
    fate := Fate(replaced, unrecorded, 0);
    if committed {
      CommittedIsEnded(before, planned, w.files, fate);
    } else {
      errors, interrupted, fate := Undo(w, planned, replaced, before, unrecorded);
    }
    cleaned := CleanUp(w, planned, staged, backups, before, committed, errors, fate);
    raised := !ok || !cleaned;
  }

  lemma CommittedIsEnded(before: map<Name, Bytes>, planned: seq<Planned>, files: map<Name, Bytes>, fate: Fate)
    requires AllNew(planned, files) && OthersUntouched(before, planned, files)
    requires fate.left == 0 && fate.replaced <= |planned| && !fate.unrecorded
    ensures Ended(before, planned, files, true, {}, fate) && WithinPlan(planned, {}, fate)
  {
  }

  /** No earlier run has left anything. */
  ghost predicate OnlyFiles(files: map<Name, Bytes>) {
    forall name :: name in files ==> name.File?
  }

  /** The events of a run that loses every file: all is well until the last of `n` replaces, then an
      interrupt comes, and another one as soon as the rollback begins. */
  ghost predicate RollbackIsBroken(events: nat -> Event, from: nat, n: nat) {
    events(from) == Fine && TryIsBroken(events, from + 1, n)
  }

  ghost predicate TryIsBroken(events: nat -> Event, from: nat, n: nat) {
    && BreaksAtTheEnd(events, from, 4 * n + 1) && events(from + 4 * n + 2) == Breaks
    && Quiet(events, from + 4 * n + 3, from + 6 * n + 3)
  }

  /** An interrupted rollback loses files: the new contents are in place, and no backup is left. */
  method InterruptedRollbackLoses(w: Workspace, planned: seq<Planned>)
    requires Distinct(planned) && planned != [] && Changes(w.files, planned) && OnlyFiles(w.files)
    requires RollbackIsBroken(w.events, w.clock, |planned|)
    modifies w
    ensures AllNew(planned, w.files) && !NothingLost(old(w.files), planned, w.files)
  {
    ghost var before := w.files;
    var raised, committed, errors, interrupted, cleaned;
    ghost var fate;
    raised, committed, errors, interrupted, cleaned, fate := ReplaceAll(w, planned);
    forall i | 0 <= i < |planned|
      ensures HasNew(planned, w.files, i)
    {
      assert EndedAt(before, planned, w.files, errors, fate, i);
    }
  }

  /** The `finally` block: the staged siblings go, and unless committed or needed, the backups. */
  method CleanUp(w: Workspace, planned: seq<Planned>, staged: nat, backups: nat, ghost before: map<Name, Bytes>, committed: bool, errors: set<string>, ghost fate: Fate)
      returns (cleaned: bool)
    requires staged <= |planned| && backups <= |planned|
    requires Ended(before, planned, w.files, committed, errors, fate)
    modifies w
    ensures Ended(before, planned, w.files, committed, errors, fate)
    ensures cleaned ==> forall i :: 0 <= i < staged ==> Staged(planned[i].path) !in w.files
    ensures cleaned && !committed && errors == {} ==> forall i :: 0 <= i < backups ==> Name.Backup(planned[i].path) !in w.files
    ensures committed && NoBackups(planned, old(w.files)) ==> NoBackups(planned, w.files)
    ensures Steps(w, cleaned, old(w.clock), if committed || errors != {} then staged else staged + backups)
  {
    ghost var was := w.files;
    cleaned := UnlinkAll(w, planned, staged, false);
    CleanedUpEnds(before, planned, was, w.files, false, committed, errors, fate);
    assert cleaned ==> forall i :: 0 <= i < staged ==> Temporary(planned[i].path, false) !in w.files;
    assert forall i :: 0 <= i < |planned| ==> SameAt(was, w.files, Name.Backup(planned[i].path));
    if cleaned && !committed && errors == {} {
      ghost var mid := w.files;
      cleaned := UnlinkAll(w, planned, backups, true);
      CleanedUpEnds(before, planned, mid, w.files, true, committed, errors, fate);
      assert forall i :: 0 <= i < |planned| ==> SameAt(mid, w.files, Staged(planned[i].path));
      assert cleaned ==> forall i :: 0 <= i < backups ==> Temporary(planned[i].path, true) !in w.files;
    }
  }

  lemma OldIsEnded(before: map<Name, Bytes>, planned: seq<Planned>, files: map<Name, Bytes>, errors: set<string>)
    requires AllOld(before, planned, files) && OthersUntouched(before, planned, files) && errors == {}
    ensures Ended(before, planned, files, false, errors, Fate(0, false, 0))
  {
  }

  /** The `except` block before the commit. */
  method Undo(w: Workspace, planned: seq<Planned>, replaced: nat, ghost before: map<Name, Bytes>, ghost unrecorded: bool)
      returns (errors: set<string>, interrupted: bool, ghost fate: Fate)
    requires Distinct(planned) && replaced <= |planned| && (unrecorded ==> replaced < |planned|)
    requires replaced > 0 || unrecorded ==> Half(before, planned, w.files, if unrecorded then replaced + 1 else replaced)
    requires replaced == 0 && !unrecorded ==> AllOld(before, planned, w.files) && OthersUntouched(before, planned, w.files)
    modifies w
    ensures Ended(before, planned, w.files, false, errors, fate) && WithinPlan(planned, errors, fate)
    ensures fate.replaced == replaced && fate.unrecorded == unrecorded && (!interrupted ==> fate.left == 0)
    ensures errors != {} ==> replaced > 0
    ensures replaced > 0 && w.events(old(w.clock)) == Breaks ==>
      errors == {} && interrupted && fate.left == replaced && w.clock == old(w.clock) + 1
  {
    errors, interrupted, fate := {}, false, Fate(replaced, unrecorded, 0);
    if replaced > 0 {
      errors, interrupted, fate := RollBack(w, planned, replaced, before, unrecorded);
      forall i | 0 <= i < |planned|
        ensures EndedAt(before, planned, w.files, errors, fate, i)
      {
        assert RollingAt(before, planned, w.files, i, errors, fate);
      }
    }
  }
}
