/** Undoing a transaction from its backups: src/installer/recovery.ts. */
module Recovery {
  import opened Wrappers
  import opened Installation
  import opened FileSystem

  // ---- What a restore reads ----

  /** The images of the entry, the metadata and the local rules before and after the transaction. */
  datatype Snapshot = Snapshot(
    entryBefore: Option<Bytes>, entryApplied: Bytes,
    currentBefore: Option<Bytes>, currentApplied: Option<Bytes>,
    rulesBefore: Option<Bytes>, rulesApplied: Option<Bytes>)

  function VerifiedBackup(s: Setting, d: Disk, id: string, name: BackupName, digest: string): Result<Bytes> {
    if IsVerified(s, d, id, name, digest) then Success(Get(d, Backup(id, name)).value) else Failure
  }

  function OptionalBackup(s: Setting, d: Disk, id: string, name: BackupName, digest: Option<string>): Result<Option<Bytes>> {
    if digest.None? then Success(None)
    else
      var b :- VerifiedBackup(s, d, id, name, digest.value);
      Success(Some(b))
  }

  function ReadSnapshot(s: Setting, d: Disk, r: Receipt): Result<Snapshot> {
    var entryBefore :- OptionalBackup(s, d, r.id, EntryBin, r.entryBackup);
    var entryApplied :- VerifiedBackup(s, d, r.id, EntryApplied, r.entryApplied);
    var currentBefore :- OptionalBackup(s, d, r.id, CurrentJson, r.currentBackup);
    var currentApplied :- OptionalBackup(s, d, r.id, CurrentApplied, r.currentApplied);
    var rulesBefore :- OptionalBackup(s, d, r.id, LocalRulesBin, r.rulesBackup);
    var rulesApplied :- OptionalBackup(s, d, r.id, LocalRulesApplied, r.rulesApplied);
    Success(Snapshot(entryBefore, entryApplied, currentBefore, currentApplied, rulesBefore, rulesApplied))
  }

  /** Another binding's metadata is missing or can be read. */
  predicate Readable(s: Setting, d: Disk, name: string) {
    Get(d, Neighbour(name)).Some? ==> s.parseCurrent(Get(d, Neighbour(name)).value).Some?
  }

  predicate Refers(s: Setting, d: Disk, name: string, release: string) {
    && name != s.binding
    && Get(d, Neighbour(name)).Some? && Readable(s, d, name)
    && s.parseCurrent(Get(d, Neighbour(name)).value).value.binding.version == release
  }

  /** Some other binding among the listed ones uses the release. */
  predicate Shared(s: Setting, d: Disk, names: seq<string>, release: string) {
    exists i :: 0 <= i < |names| && Refers(s, d, names[i], release)
  }

  /** The listing comes to unreadable metadata before any binding that uses the release. */
  predicate Undecided(s: Setting, d: Disk, names: seq<string>, release: string) {
    exists i :: 0 <= i < |names| && Unreadable(s, d, names[i]) && !Shared(s, d, names[..i], release)
  }

  predicate Unreadable(s: Setting, d: Disk, name: string) {
    name != s.binding && !Readable(s, d, name)
  }

  /** `otherBindingReferences`. */
  method OtherBindingReferences(s: Setting, d: Disk, names: seq<string>, release: string) returns (r: Result<bool>)
    ensures r.Success? ==> r.value == Shared(s, d, names, release)
    ensures r.Failure? <==> Undecided(s, d, names, release)
  {
    hide Readable, Refers, Get;
    for i := 0 to |names|
      invariant !Shared(s, d, names[..i], release)
      invariant forall k :: 0 <= k < i ==> !Unreadable(s, d, names[k])
    {
      assert names[..i + 1] == names[..i] + [names[i]];
      if names[i] == s.binding {
        NotItself(s, d, names[i], release);
        continue;
      }
      match Get(d, Neighbour(names[i])) {
        case None =>
          NothingThere(s, d, names[i], release);
        case Some(bytes) =>
          var current := s.parseCurrent(bytes);
          SomethingThere(s, d, names[i], release);
          if current.None? {
            return Failure;
          }
          if current.value.binding.version == release {
            FoundOne(s, d, names, i, release);
            return Success(true);
          }
      }
    }
    assert names[..|names|] == names;
    return Success(false);
  }

  lemma NotItself(s: Setting, d: Disk, name: string, release: string)
    ensures name == s.binding ==> !Refers(s, d, name, release) && !Unreadable(s, d, name)
  {
  }

  lemma NothingThere(s: Setting, d: Disk, name: string, release: string)
    ensures Get(d, Neighbour(name)).None? ==> !Refers(s, d, name, release) && !Unreadable(s, d, name)
  {
  }

  lemma SomethingThere(s: Setting, d: Disk, name: string, release: string)
    requires Get(d, Neighbour(name)).Some? && name != s.binding
    ensures var current := s.parseCurrent(Get(d, Neighbour(name)).value);
      && (Unreadable(s, d, name) <==> current.None?)
      && (Refers(s, d, name, release) <==> current.Some? && current.value.binding.version == release)
  {
  }

  /** The first binding that uses the release decides, whatever comes after it. */
  lemma FoundOne(s: Setting, d: Disk, names: seq<string>, i: nat, release: string)
    requires i < |names| && Refers(s, d, names[i], release) && forall k :: 0 <= k <= i ==> !Unreadable(s, d, names[k])
    ensures Shared(s, d, names, release) && !Undecided(s, d, names, release)
  {
    hide Refers, Unreadable;
    forall k | i < k < |names|
      ensures Shared(s, d, names[..k], release)
    {
      assert names[..k][i] == names[i];
    }
  }

  // ---- When a complete restore succeeds ----

  /** The entry is one of the two images, or the restore itself has moved it aside. */
  predicate EntryAdmitted(x: Snapshot, live: Option<Bytes>, detached: Option<Bytes>) {
    && (live == Some(x.entryApplied) || live == x.entryBefore || (live.None? && detached.Some?))
    && (detached.Some? ==> detached == Some(x.entryApplied) || detached == x.entryBefore)
    && (detached.Some? && live.Some? ==> live == x.entryBefore || live == detached)
  }

  predicate OneOf(live: Option<Bytes>, x: Option<Bytes>, y: Option<Bytes>) {
    live == x || live == y
  }

  /** The state no restore can leave: the entry was moved aside, its re-creation failed, and the
      moved bytes were put back beside the moved copy. */
  predicate StuckAt(before: Option<Bytes>, d: Disk, id: string) {
    Get(d, Detached(id)).Some? && Get(d, Entry).Some? && Get(d, Entry) != before
  }

  predicate Stuck(x: Snapshot, d: Disk, id: string) {
    StuckAt(x.entryBefore, d, id)
  }

  predicate ReleaseAdmitted(d: Disk, r: Receipt, shared: bool) {
    !shared && !r.releaseExisted && r.release in d.releases ==>
      d.releases[r.release].Some? && d.releases[r.release].value.version == r.release
  }

  /** Local rules that only this binding uses are one of the two images; in a release that the
      transaction brought they must be the new ones. */
  predicate RulesAdmitted(x: Snapshot, d: Disk, r: Receipt, shared: bool) {
    !shared && r.rules ==>
      && OneOf(Get(d, LocalRules(r.release)), x.rulesApplied, x.rulesBefore)
      && (!r.releaseExisted ==> Get(d, LocalRules(r.release)) == x.rulesApplied)
  }

  predicate CopiesPresent(d: Disk, r: Receipt) {
    Get(d, Top).Some? && Get(d, Backup(r.id, ReceiptJson)).Some?
  }

  predicate Restorable(s: Setting, d: Disk, r: Receipt, shared: bool, preserveEntry: bool) {
    var read := ReadSnapshot(s, d, r);
    && CopiesPresent(d, r)
    && read.Success?
    && (preserveEntry || (EntryAdmitted(read.value, Get(d, Entry), Get(d, Detached(r.id))) && !Stuck(read.value, d, r.id)))
    && OneOf(Get(d, Current), read.value.currentApplied, read.value.currentBefore)
    && RulesAdmitted(read.value, d, r, shared)
    && ReleaseAdmitted(d, r, shared)
  }

  // ---- What a restore does ----

  predicate Touched(r: Receipt, p: Path) {
    p == Entry || p == Detached(r.id) || p == Current || p == Top || p == LocalRules(r.release) || p == Backup(r.id, ReceiptJson)
  }

  ghost predicate Elsewhere(r: Receipt, d: Disk, d': Disk) {
    && d'.releases == d.releases && d'.staged == d.staged
    && forall p :: !Touched(r, p) ==> Get(d', p) == Get(d, p)
  }

  function RolledBackReceipt(s: Setting, r: Receipt): Bytes {
    s.renderReceipt(r.(status := RolledBack))
  }

  /** The moved copy after a complete restore: made once, from an entry that had to be undone. */
  function MovedCopy(x: Snapshot, d: Disk, id: string): Option<Bytes> {
    if Get(d, Detached(id)).Some? || Get(d, Entry) == x.entryBefore then Get(d, Detached(id)) else Get(d, Entry)
  }

  /** A complete restore: every image as before the transaction, both receipts rolled back, the
      entry it moved aside left where it was moved, and nothing else touched. */
  ghost predicate Restored(s: Setting, r: Receipt, x: Snapshot, shared: bool, preserveEntry: bool, d: Disk, d': Disk) {
    && Elsewhere(r, d, d')
    && Get(d', Entry) == (if preserveEntry then Get(d, Entry) else x.entryBefore)
    && Get(d', Detached(r.id)) == (if preserveEntry then Get(d, Detached(r.id)) else MovedCopy(x, d, r.id))
    && Get(d', Current) == x.currentBefore
    && Get(d', LocalRules(r.release)) ==
       (if !shared && r.rules && r.releaseExisted then x.rulesBefore else Get(d, LocalRules(r.release)))
    && Get(d', Backup(r.id, ReceiptJson)) == Some(RolledBackReceipt(s, r))
    && Get(d', Top) == Some(RolledBackReceipt(s, r))
  }

  /** Where an interrupted restore can leave the entry and its moved copy. */
  predicate EntryMoves(before: Option<Bytes>, live: Option<Bytes>, detached: Option<Bytes>, live': Option<Bytes>, detached': Option<Bytes>) {
    || (live' == live && detached' == detached)
    || (detached.None? && live.Some? && live != before && detached' == live && (live' == None || live' == before || live' == live))
    || (detached.Some? && live.None? && detached' == detached && (live' == None || live' == before || live' == detached))
  }

  /** What a restore can have done to the images at any moment, the receipts being untouched. */
  ghost predicate ImagesMove(r: Receipt, x: Snapshot, shared: bool, preserveEntry: bool, d: Disk, d': Disk) {
    && d'.releases == d.releases && d'.staged == d.staged
    && (forall p :: p != Entry && p != Detached(r.id) && p != Current && p != LocalRules(r.release) ==> Get(d', p) == Get(d, p))
    && EntryMoves(x.entryBefore, Get(d, Entry), Get(d, Detached(r.id)), Get(d', Entry), Get(d', Detached(r.id)))
    && (preserveEntry ==> Get(d', Entry) == Get(d, Entry))
    && OneOf(Get(d', Current), Get(d, Current), x.currentBefore)
    && (|| Get(d', LocalRules(r.release)) == Get(d, LocalRules(r.release))
        || (!shared && r.rules && r.releaseExisted && Get(d', LocalRules(r.release)) == x.rulesBefore))
  }

  ghost predicate ReceiptsOnly(r: Receipt, d: Disk, d': Disk) {
    && d'.releases == d.releases && d'.staged == d.staged
    && forall p :: p != Top && p != Backup(r.id, ReceiptJson) ==> Get(d', p) == Get(d, p)
  }

  /** The backup copy is written first, the top copy only after it. */
  ghost predicate ReceiptsMove(s: Setting, r: Receipt, d: Disk, d': Disk) {
    && ReceiptsOnly(r, d, d')
    && Get(d', Backup(r.id, ReceiptJson)) == Some(RolledBackReceipt(s, r))
    && (Get(d', Top) == Get(d, Top) || Get(d', Top) == Some(RolledBackReceipt(s, r)))
  }

  ghost predicate ImagesRestored(r: Receipt, x: Snapshot, shared: bool, preserveEntry: bool, d: Disk, d': Disk) {
    && ImagesMove(r, x, shared, preserveEntry, d, d')
    && Get(d', Entry) == (if preserveEntry then Get(d, Entry) else x.entryBefore)
    && Get(d', Detached(r.id)) == (if preserveEntry then Get(d, Detached(r.id)) else MovedCopy(x, d, r.id))
    && Get(d', Current) == x.currentBefore
    && Get(d', LocalRules(r.release)) ==
       (if !shared && r.rules && r.releaseExisted then x.rulesBefore else Get(d, LocalRules(r.release)))
  }

  /** What a restore can leave behind: some images brought back, or all of them and a receipt. */
  ghost predicate Partly(s: Setting, r: Receipt, x: Snapshot, shared: bool, preserveEntry: bool, d: Disk, d': Disk) {
    || ImagesMove(r, x, shared, preserveEntry, d, d')
    || exists mid :: ImagesRestored(r, x, shared, preserveEntry, d, mid) && ReceiptsMove(s, r, mid, d')
  }

  // ---- The steps ----

  ghost predicate OnlyEntry(id: string, d: Disk, d': Disk) {
    && d'.releases == d.releases && d'.staged == d.staged
    && forall p :: p != Entry && p != Detached(id) ==> Get(d', p) == Get(d, p)
  }

  /** The part of `restoreEntrySnapshot` that may be caught. */
  method RecreateEntry(fs: FileStore, id: string, moved: Bytes, expectedLive: Bytes, desired: Option<Bytes>) returns (e: Effect)
    modifies fs
    ensures OnlyEntry(id, old(fs.disk), fs.disk) && Get(fs.disk, Detached(id)) == Get(old(fs.disk), Detached(id))
    ensures Get(fs.disk, Entry) == Get(old(fs.disk), Entry) || (Get(old(fs.disk), Entry).None? && Get(fs.disk, Entry) == desired)
    ensures e.Done? ==> Get(fs.disk, Entry) == desired
    ensures e.Thrown? && e != Thrown(Io) ==> moved != expectedLive || (Get(fs.disk, Entry).Some? && Get(fs.disk, Entry) != desired)
    ensures moved == expectedLive && desired.Some? && Get(old(fs.disk), Entry).None? && fs.events(old(fs.clock)) == Fails ==>
      fs.disk == old(fs.disk) && e == Thrown(Io) && fs.clock == old(fs.clock) + 1
    ensures fs.Told(e, old(fs.clock)) && fs.Faults() == old(fs.Faults()) + if e == Thrown(Io) then 1 else 0
  {
    if moved != expectedLive {
      return Thrown(Concurrent);
    }
    if desired.Some? && Get(fs.disk, Entry).None? {
      :- fs.AtomicCreate(Entry, desired.value);
    }
    e := fs.Expect(Entry, desired, Concurrent);
  }

  /** The entry is moved aside, and then the process stops. */
  predicate StopsMidway(events: nat -> Event, at: nat) {
    events(at) == Fine && events(at + 1) == Stops
  }

  /** The entry is moved aside, and its re-creation fails. */
  predicate FailsMidway(events: nat -> Event, at: nat) {
    events(at) == events(at + 1) == Fine && events(at + 2) == Fails && events(at + 3) == events(at + 4) == Fine
  }

  /** What the two leave of an entry that is to be undone, and is not yet moved aside. */
  predicate CutShort(id: string, events: nat -> Event, at: nat, d: Disk, live: Bytes, desired: Option<Bytes>, e: Effect) {
    && (StopsMidway(events, at) ==> e.Crashed? && Get(d, Entry).None? && Get(d, Detached(id)) == Some(live))
    && (FailsMidway(events, at) && desired.Some? ==> e == Thrown(Io) && Get(d, Entry) == Some(live) && Get(d, Detached(id)) == Some(live))
  }

  /** `restoreEntrySnapshot`: moves the live entry aside once, then re-creates the desired one; if
      that fails, puts the moved bytes back. The moved copy stays. */
  method RestoreEntrySnapshot(fs: FileStore, id: string, expectedLive: Bytes, desired: Option<Bytes>) returns (e: Effect)
    requires Get(fs.disk, Detached(id)) == Some(expectedLive)
      || (Get(fs.disk, Detached(id)).None? && Get(fs.disk, Entry) == Some(expectedLive) && desired != Some(expectedLive))
    modifies fs
    ensures OnlyEntry(id, old(fs.disk), fs.disk)
    ensures EntryMoves(desired, Get(old(fs.disk), Entry), Get(old(fs.disk), Detached(id)), Get(fs.disk, Entry), Get(fs.disk, Detached(id)))
    ensures e.Done? ==> Get(fs.disk, Entry) == desired && Get(fs.disk, Detached(id)) == Some(expectedLive)
    ensures e.Thrown? && e != Thrown(Io) ==> StuckAt(desired, old(fs.disk), id)
    ensures fs.Told(e, old(fs.clock))
    ensures fs.Faults() == old(fs.Faults()) && StuckAt(desired, fs.disk, id) ==> StuckAt(desired, old(fs.disk), id)
    ensures Get(old(fs.disk), Detached(id)).None? ==> CutShort(id, fs.events, old(fs.clock), fs.disk, expectedLive, desired, e)
  {
    hide Get, Put, Drop, Count;
    var moved := Get(fs.disk, Detached(id));
    if moved.None? {
      :- MoveAside(fs, id);
      moved := Get(fs.disk, Detached(id));
    }
    e := RecreateEntry(fs, id, moved.value, expectedLive, desired);
    if e.Thrown? && Get(fs.disk, Entry).None? {
      var put := PutBack(fs, id, moved.value);
      if put.Crashed? {
        return Crashed;
      }
    }
  }

  method MoveAside(fs: FileStore, id: string) returns (e: Effect)
    requires Get(fs.disk, Entry).Some? && Get(fs.disk, Detached(id)).None?
    modifies fs
    ensures OnlyEntry(id, old(fs.disk), fs.disk)
    ensures fs.disk == old(fs.disk) || (Get(fs.disk, Entry).None? && Get(fs.disk, Detached(id)) == Get(old(fs.disk), Entry))
    ensures e.Done? ==> Get(fs.disk, Entry).None? && fs.clock == old(fs.clock) + 2
    ensures e.Thrown? ==> e == Thrown(Io)
    ensures fs.Told(e, old(fs.clock))
    ensures fs.events(old(fs.clock)) == Fine ==> Get(fs.disk, Entry).None? && e == EffectOf(fs.events(old(fs.clock) + 1))
  {
    e := fs.RenameNoReplace(Entry, Detached(id));
  }

  /** The moved bytes at the entry's place, if that works. */
  method PutBack(fs: FileStore, id: string, moved: Bytes) returns (e: Effect)
    requires Get(fs.disk, Entry).None?
    modifies fs
    ensures OnlyEntry(id, old(fs.disk), fs.disk) && Get(fs.disk, Detached(id)) == Get(old(fs.disk), Detached(id))
    ensures Get(fs.disk, Entry).None? || Get(fs.disk, Entry) == Some(moved)
    ensures fs.Told(e, old(fs.clock))
    ensures fs.events(old(fs.clock)) == fs.events(old(fs.clock) + 1) == Fine ==> e.Done? && Get(fs.disk, Entry) == Some(moved)
  {
    e := fs.AtomicCreate(Entry, moved);
  }

  /** At most `p` changed, and if so to `image`. */
  ghost predicate OnlyFile(p: Path, image: Option<Bytes>, d: Disk, d': Disk) {
    && d'.releases == d.releases && d'.staged == d.staged
    && (forall q :: q != p ==> Get(d', q) == Get(d, q))
    && OneOf(Get(d', p), Get(d, p), image)
  }

  /** Brings one file back from its applied image to the one before: create, write or remove. */
  method RestoreFile(fs: FileStore, p: Path, before: Option<Bytes>, applied: Option<Bytes>) returns (e: Effect)
    modifies fs
    ensures OnlyFile(p, before, old(fs.disk), fs.disk)
    ensures e.Done? ==> Get(fs.disk, p) == before && OneOf(Get(old(fs.disk), p), applied, before)
    ensures e.Thrown? && e != Thrown(Io) ==> !OneOf(Get(old(fs.disk), p), applied, before)
    ensures fs.Told(e, old(fs.clock))
  {
    hide Get, Count;
    e := fs.Attempt();
    if !e.Done? {
      return;
    }
    var now := Get(fs.disk, p);
    if now != applied && now != before {
      return Thrown(Refused);
    }
    if now != before {
      :- ChangeFile(fs, p, now, before);
    }
    e := fs.Expect(p, before, Refused);
  }

  method ChangeFile(fs: FileStore, p: Path, now: Option<Bytes>, before: Option<Bytes>) returns (e: Effect)
    requires Get(fs.disk, p) == now != before
    modifies fs
    ensures OnlyFile(p, before, old(fs.disk), fs.disk)
    ensures e.Done? ==> Get(fs.disk, p) == before
    ensures e.Thrown? ==> e == Thrown(Io)
    ensures fs.Told(e, old(fs.clock))
  {
    hide Get, Put, Drop, Count, Quiet;
    if before.Some? {
      PutChangesOne(fs.disk, p, before.value);
      if now.None? {
        e := fs.AtomicCreate(p, before.value);
      } else {
        e := fs.AtomicWrite(p, before.value, now.value);
      }
    } else {
      DropChangesOne(fs.disk, p);
      e := fs.AtomicRemove(p, now.value);
    }
  }

  predicate TopMatches(s: Setting, d: Disk, r: Receipt) {
    Get(d, Top).Some? && ReceiptWithMatchingBackup(s, d, Get(d, Top).value) == Success(r)
  }

  /** The checks made before anything is changed. */
  predicate Admitted(x: Snapshot, d: Disk, r: Receipt, shared: bool, preserveEntry: bool) {
    && (preserveEntry || EntryAdmitted(x, Get(d, Entry), Get(d, Detached(r.id))))
    && OneOf(Get(d, Current), x.currentApplied, x.currentBefore)
    && (!shared && r.rules ==> OneOf(Get(d, LocalRules(r.release)), x.rulesApplied, x.rulesBefore))
    && ReleaseAdmitted(d, r, shared)
  }

  /** The entry has to be undone, and is where it was. */
  predicate ToUndo(x: Snapshot, d: Disk, id: string) {
    Get(d, Detached(id)).None? && Get(d, Entry).Some? && Get(d, Entry) != x.entryBefore
  }

  /** Brings the entry back, unless it already is. */
  method RestoreEntry(fs: FileStore, x: Snapshot, id: string) returns (e: Effect)
    requires EntryAdmitted(x, Get(fs.disk, Entry), Get(fs.disk, Detached(id)))
    modifies fs
    ensures OnlyEntry(id, old(fs.disk), fs.disk)
    ensures EntryMoves(x.entryBefore, Get(old(fs.disk), Entry), Get(old(fs.disk), Detached(id)), Get(fs.disk, Entry), Get(fs.disk, Detached(id)))
    ensures e.Done? ==> Get(fs.disk, Entry) == x.entryBefore && !Stuck(x, old(fs.disk), id)
    ensures e.Done? ==> Get(fs.disk, Detached(id)) == MovedCopy(x, old(fs.disk), id)
    ensures e.Thrown? && e != Thrown(Io) ==> Stuck(x, old(fs.disk), id)
    ensures fs.Told(e, old(fs.clock))
    ensures fs.Faults() == old(fs.Faults()) && Stuck(x, fs.disk, id) ==> Stuck(x, old(fs.disk), id)
    ensures ToUndo(x, old(fs.disk), id) ==>
      CutShort(id, fs.events, old(fs.clock), fs.disk, Get(old(fs.disk), Entry).value, x.entryBefore, e)
  {
    var live, detached := Get(fs.disk, Entry), Get(fs.disk, Detached(id));
    if detached.Some? || live != x.entryBefore {
      var expectedLive := if detached.Some? then detached.value else live.value;
      :- RestoreEntrySnapshot(fs, id, expectedLive, x.entryBefore);
    }
    e := fs.Expect(Entry, x.entryBefore, Refused);
  }

  /** The last joint check, then the backup copy of the receipt, then the top copy. */
  method WriteRolledBack(fs: FileStore, s: Setting, r: Receipt) returns (e: Effect)
    modifies fs
    ensures fs.disk == old(fs.disk) || ReceiptsMove(s, r, old(fs.disk), fs.disk)
    ensures e.Done? ==>
      && ReceiptsMove(s, r, old(fs.disk), fs.disk)
      && Get(fs.disk, Top) == Some(RolledBackReceipt(s, r))
      && CopiesPresent(old(fs.disk), r)
    ensures e.Thrown? && e != Thrown(Io) ==> !CopiesPresent(old(fs.disk), r) && Get(fs.disk, Top) == Get(old(fs.disk), Top)
    ensures fs.Told(e, old(fs.clock))
  {
    var rolled := RolledBackReceipt(s, r);
    :- fs.Attempt();
    var backup := Get(fs.disk, Backup(r.id, ReceiptJson));
    if backup.None? {
      return Thrown(Refused);
    }
    :- fs.AtomicWrite(Backup(r.id, ReceiptJson), rolled, backup.value);
    var top := Get(fs.disk, Top);
    if top.None? {
      return Thrown(Refused);
    }
    e := fs.AtomicWrite(Top, rolled, top.value);
  }

  /** Local rules are brought back only in a release that was there before. */
  method RestoreRules(fs: FileStore, x: Snapshot, r: Receipt, shared: bool) returns (e: Effect)
    modifies fs
    ensures OnlyFile(LocalRules(r.release), x.rulesBefore, old(fs.disk), fs.disk)
    ensures shared || !r.rules || !r.releaseExisted ==> fs.disk == old(fs.disk)
    ensures e.Done? ==> RulesAdmitted(x, old(fs.disk), r, shared)
    ensures e.Done? && !shared && r.rules && r.releaseExisted ==> Get(fs.disk, LocalRules(r.release)) == x.rulesBefore
    ensures e.Thrown? && e != Thrown(Io) ==> !RulesAdmitted(x, old(fs.disk), r, shared)
    ensures fs.Told(e, old(fs.clock))
  {
    if !shared && r.rules {
      if r.releaseExisted {
        :- RestoreFile(fs, LocalRules(r.release), x.rulesBefore, x.rulesApplied);
      }
      :- fs.Expect(LocalRules(r.release), if r.releaseExisted then x.rulesBefore else x.rulesApplied, Refused);
    }
    e := Done;
  }

  predicate Interrupts(events: nat -> Event, at: nat, x: Snapshot) {
    StopsMidway(events, at) || (FailsMidway(events, at) && x.entryBefore.Some?)
  }

  /** The entry, the metadata and the local rules, in this order. */
  method RestoreImages(fs: FileStore, x: Snapshot, r: Receipt, shared: bool, preserveEntry: bool) returns (e: Effect)
    requires Admitted(x, fs.disk, r, shared, preserveEntry)
    modifies fs
    ensures ImagesMove(r, x, shared, preserveEntry, old(fs.disk), fs.disk)
    ensures e.Done? ==>
      && ImagesRestored(r, x, shared, preserveEntry, old(fs.disk), fs.disk)
      && RulesAdmitted(x, old(fs.disk), r, shared)
      && (preserveEntry || !Stuck(x, old(fs.disk), r.id))
    ensures e.Thrown? && e != Thrown(Io) ==>
      (!preserveEntry && Stuck(x, old(fs.disk), r.id)) || !RulesAdmitted(x, old(fs.disk), r, shared)
    ensures fs.Told(e, old(fs.clock))
    ensures fs.Faults() == old(fs.Faults()) && Stuck(x, fs.disk, r.id) ==> Stuck(x, old(fs.disk), r.id)
    ensures !preserveEntry && ToUndo(x, old(fs.disk), r.id) && Interrupts(fs.events, old(fs.clock), x) ==>
      && !e.Done? && OnlyEntry(r.id, old(fs.disk), fs.disk)
      && CutShort(r.id, fs.events, old(fs.clock), fs.disk, Get(old(fs.disk), Entry).value, x.entryBefore, e)
  {
    hide Get;
    if !preserveEntry {
      :- RestoreEntry(fs, x, r.id);
    }
    :- RestoreFile(fs, Current, x.currentBefore, x.currentApplied);
    e := RestoreRules(fs, x, r, shared);
  }

  /** Everything a restore changes: the images, then the receipts. */
  method RestoreAll(fs: FileStore, s: Setting, x: Snapshot, r: Receipt, shared: bool, preserveEntry: bool) returns (e: Effect)
    requires Admitted(x, fs.disk, r, shared, preserveEntry)
    modifies fs
    ensures fs.disk == old(fs.disk) || Partly(s, r, x, shared, preserveEntry, old(fs.disk), fs.disk)
    ensures e.Done? ==>
      && Restored(s, r, x, shared, preserveEntry, old(fs.disk), fs.disk)
      && RulesAdmitted(x, old(fs.disk), r, shared) && CopiesPresent(old(fs.disk), r)
      && (preserveEntry || !Stuck(x, old(fs.disk), r.id))
    ensures e.Thrown? && e != Thrown(Io) ==>
      || (!preserveEntry && Stuck(x, old(fs.disk), r.id)) || !RulesAdmitted(x, old(fs.disk), r, shared)
      || !CopiesPresent(old(fs.disk), r)
    ensures e.Thrown? && e != Thrown(Io) ==> Get(fs.disk, Top) == Get(old(fs.disk), Top)
    ensures fs.Told(e, old(fs.clock))
    ensures fs.Faults() == old(fs.Faults()) && Stuck(x, fs.disk, r.id) ==> Stuck(x, old(fs.disk), r.id)
    ensures !preserveEntry && ToUndo(x, old(fs.disk), r.id) && Interrupts(fs.events, old(fs.clock), x) ==>
      && !e.Done? && OnlyEntry(r.id, old(fs.disk), fs.disk)
      && CutShort(r.id, fs.events, old(fs.clock), fs.disk, Get(old(fs.disk), Entry).value, x.entryBefore, e)
  {
    hide Get, EntryMoves, MovedCopy, EntryAdmitted, ReleaseAdmitted, ToUndo;
    :- RestoreImages(fs, x, r, shared, preserveEntry);
    e := WriteRolledBack(fs, s, r);
  }

  /** A restore that gets as far as the entry, and no further. */
  predicate CutShortIn(s: Setting, d: Disk, r: Receipt, names: seq<string>, validateCopies: bool, events: nat -> Event, at: nat) {
    var read := ReadSnapshot(s, d, r);
    && read.Success? && (validateCopies ==> TopMatches(s, d, r)) && !Undecided(s, d, names, r.release)
    && Admitted(read.value, d, r, Shared(s, d, names, r.release), false) && ToUndo(read.value, d, r.id)
    && events(at) == Fine && Interrupts(events, at + 1, read.value)
  }

  /** `restore`. A complete run succeeds exactly on the restorable disks, and then everything is
      as before the transaction; an interrupted one leaves the disk partly restored, and gets it
      stuck only through an I/O error. */
  method Restore(fs: FileStore, s: Setting, r: Receipt, names: seq<string>, validateCopies: bool, preserveEntry: bool) returns (e: Effect)
    modifies fs
    ensures fs.disk == old(fs.disk)
      || (&& ReadSnapshot(s, old(fs.disk), r).Success?
          && Partly(s, r, ReadSnapshot(s, old(fs.disk), r).value, Shared(s, old(fs.disk), names, r.release), preserveEntry, old(fs.disk), fs.disk))
    ensures e.Done? ==>
      && (validateCopies ==> TopMatches(s, old(fs.disk), r)) && !Undecided(s, old(fs.disk), names, r.release)
      && Restorable(s, old(fs.disk), r, Shared(s, old(fs.disk), names, r.release), preserveEntry)
      && Restored(s, r, ReadSnapshot(s, old(fs.disk), r).value, Shared(s, old(fs.disk), names, r.release), preserveEntry, old(fs.disk), fs.disk)
    ensures e.Thrown? && e != Thrown(Io) ==>
      || (validateCopies && !TopMatches(s, old(fs.disk), r))
      || Undecided(s, old(fs.disk), names, r.release)
      || !Restorable(s, old(fs.disk), r, Shared(s, old(fs.disk), names, r.release), preserveEntry)
    ensures fs.Told(e, old(fs.clock))
    ensures Quiet(fs.events, old(fs.clock), fs.clock) ==> (e.Done? <==>
      && (validateCopies ==> TopMatches(s, old(fs.disk), r)) && !Undecided(s, old(fs.disk), names, r.release)
      && Restorable(s, old(fs.disk), r, Shared(s, old(fs.disk), names, r.release), preserveEntry))
    ensures e.Thrown? && e != Thrown(Io) ==> Get(fs.disk, Top) == Get(old(fs.disk), Top)
    ensures fs.Faults() == old(fs.Faults()) && ReadSnapshot(s, old(fs.disk), r).Success? ==>
      var x := ReadSnapshot(s, old(fs.disk), r).value;
      Stuck(x, fs.disk, r.id) ==> Stuck(x, old(fs.disk), r.id)
    ensures !preserveEntry && CutShortIn(s, old(fs.disk), r, names, validateCopies, fs.events, old(fs.clock)) ==>
      !e.Done? && OnlyEntry(r.id, old(fs.disk), fs.disk)
      && CutShort(r.id, fs.events, old(fs.clock) + 1, fs.disk, Get(old(fs.disk), Entry).value, ReadSnapshot(s, old(fs.disk), r).value.entryBefore, e)
  {
    hide Get, ReceiptWithMatchingBackup, ReadSnapshot, Undecided, Shared, CutShort, OnlyEntry, Partly, Restored;
    if validateCopies && !TopMatches(s, fs.disk, r) {
      return Thrown(Refused);
    }
    :- fs.Attempt();
    var read := ReadSnapshot(s, fs.disk, r);
    if read.Failure? {
      return Thrown(Refused);
    }
    var x := read.value;
    var sharing := OtherBindingReferences(s, fs.disk, names, r.release);
    if sharing.Failure? {
      return Thrown(Refused);
    }
    var shared := sharing.value;
    if !Admitted(x, fs.disk, r, shared, preserveEntry) {
      return Thrown(Refused);
    }
    e := RestoreAll(fs, s, x, r, shared, preserveEntry);
  }
}
