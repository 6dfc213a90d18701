/** The file primitives of src/installer/mutation.ts over the native file system, each of which
    may be cut short by a crash or fail with an I/O error, with or without having taken effect. */
module FileSystem {
  import opened Wrappers
  import opened Installation

  /** Why a step threw: a check of the source refused what it read, the entry turned out to be
      changed or no longer absent (`ConcurrentEntryChange`), or the operating system failed. */
  datatype Fault = Refused | Concurrent | Io

  datatype Effect = Done | Thrown(fault: Fault) | Crashed {
    predicate IsFailure() {
      !Done?
    }

    function PropagateFailure(): Effect
      requires IsFailure()
    {
      this
    }
  }

  /** What the operating system does at one operation. */
  datatype Event = Fine | Fails | Stops

  /** How often `event` is among the first `n`. */
  ghost function Count(events: nat -> Event, event: Event, n: nat): nat {
    if n == 0 then 0 else Count(events, event, n - 1) + if events(n - 1) == event then 1 else 0
  }

  /** Everything works from one moment to another. */
  ghost predicate Quiet(events: nat -> Event, from: nat, to: nat) {
    forall i :: from <= i < to ==> events(i) == Fine
  }

  function EffectOf(event: Event): Effect {
    match event
    case Fine => Done
    case Fails => Thrown(Io)
    case Stops => Crashed
  }

  /** `events` are arbitrary, so that everything said of a method holds whatever fails or stops. */
  class FileStore {
    var disk: Disk
    var clock: nat  // operations so far
    const events: nat -> Event

    constructor (d: Disk, events: nat -> Event)
      ensures disk == d && this.events == events && clock == 0
    {
      disk := d;
      clock := 0;
      this.events := events;
    }

    /** I/O errors so far. */
    ghost function Faults(): nat
      reads this
    {
      Count(events, Fails, clock)
    }

    /** `e` has a reason among the operations since a moment: nothing is reported to have failed or
        stopped unless something did. */
    ghost predicate Told(e: Effect, since: nat)
      reads this
    {
      && since <= clock && Count(events, Fails, since) <= Count(events, Fails, clock)
      && (e == Thrown(Io) ==> Count(events, Fails, since) < Count(events, Fails, clock))
      && (Quiet(events, since, clock) ==> e != Thrown(Io) && !e.Crashed? && Count(events, Fails, since) == Count(events, Fails, clock))
    }

    /** `steps` operations since a moment if nothing went wrong, and no more if none of these did. */
    ghost predicate Took(e: Effect, since: nat, steps: nat)
      reads this
    {
      (e.Done? ==> clock == since + steps) && (Quiet(events, since, since + steps) ==> clock <= since + steps)
    }

    /** Any point at which the operating system can fail or the process can stop. */
    method Attempt() returns (e: Effect)
      modifies this`clock
      ensures e == EffectOf(events(old(clock))) && clock == old(clock) + 1
      ensures Told(e, old(clock)) && Faults() == old(Faults()) + if e.Thrown? then 1 else 0
    {
      e := EffectOf(events(clock));
      clock := clock + 1;
    }

    /** Reads and compares; throws `fault` when `p` does not hold `expected`. */
    method Expect(p: Path, expected: Option<Bytes>, fault: Fault) returns (e: Effect)
      requires fault != Io
      modifies this`clock
      ensures e.Done? ==> Get(disk, p) == expected
      ensures e.Thrown? && e != Thrown(Io) ==> e == Thrown(fault) && Get(disk, p) != expected
      ensures Told(e, old(clock)) && Faults() == old(Faults()) + if e == Thrown(Io) then 1 else 0
      ensures Took(e, old(clock), 1) && clock == old(clock) + 1
    {
      e := Attempt();
      if !e.Done? {
        return;
      }
      return if Get(disk, p) == expected then Done else Thrown(fault);
    }

    /** `atomicCreate`: never replaces; an existing file is reported as a concurrent change. */
    method AtomicCreate(p: Path, value: Bytes) returns (e: Effect)
      modifies this
      ensures disk == old(disk) || (Get(old(disk), p).None? && disk == Put(old(disk), p, value))
      ensures e.Done? ==> Get(old(disk), p).None? && disk == Put(old(disk), p, value)
      ensures e.Thrown? && e != Thrown(Io) ==> e == Thrown(Concurrent) && Get(old(disk), p).Some?
      ensures Told(e, old(clock)) && Faults() == old(Faults()) + if e == Thrown(Io) then 1 else 0
      ensures events(old(clock)) != Fine ==> disk == old(disk) && e == EffectOf(events(old(clock))) && clock == old(clock) + 1
      ensures events(old(clock)) == Fine && Get(old(disk), p).None? ==>
        disk == Put(old(disk), p, value) && e == EffectOf(events(old(clock) + 1)) && clock == old(clock) + 2
      ensures Took(e, old(clock), 2)
    {
      e := Attempt();
      if !e.Done? {
        return;
      }
      if Get(disk, p).Some? {
        return Thrown(Concurrent);
      }
      disk := Put(disk, p, value);
      e := Attempt();
    }

    /** `atomicWrite`: replaces exactly the expected bytes. */
    method AtomicWrite(p: Path, value: Bytes, previous: Bytes) returns (e: Effect)
      modifies this
      ensures disk == old(disk) || (Get(old(disk), p) == Some(previous) && disk == Put(old(disk), p, value))
      ensures e.Done? ==> Get(old(disk), p) == Some(previous) && disk == Put(old(disk), p, value)
      ensures e.Thrown? && e != Thrown(Io) ==> e == Thrown(Refused) && Get(old(disk), p) != Some(previous)
      ensures Told(e, old(clock)) && Faults() == old(Faults()) + if e == Thrown(Io) then 1 else 0
      ensures events(old(clock)) != Fine ==> disk == old(disk) && e == EffectOf(events(old(clock))) && clock == old(clock) + 1
      ensures events(old(clock)) == Fine && Get(old(disk), p) == Some(previous) ==>
        disk == Put(old(disk), p, value) && e == EffectOf(events(old(clock) + 1)) && clock == old(clock) + 2
      ensures Took(e, old(clock), 2)
    {
      e := Attempt();
      if !e.Done? {
        return;
      }
      if Get(disk, p) != Some(previous) {
        return Thrown(Refused);
      }
      disk := Put(disk, p, value);
      e := Attempt();
    }

    /** `atomicRemove`: removes exactly the expected bytes. */
    method AtomicRemove(p: Path, previous: Bytes) returns (e: Effect)
      modifies this
      ensures disk == old(disk) || (Get(old(disk), p) == Some(previous) && disk == Drop(old(disk), p))
      ensures e.Done? ==> Get(old(disk), p) == Some(previous) && disk == Drop(old(disk), p)
      ensures e.Thrown? && e != Thrown(Io) ==> e == Thrown(Refused) && Get(old(disk), p) != Some(previous)
      ensures Told(e, old(clock)) && Faults() == old(Faults()) + if e == Thrown(Io) then 1 else 0
      ensures Took(e, old(clock), 2)
    {
      e := Attempt();
      if !e.Done? {
        return;
      }
      if Get(disk, p) != Some(previous) {
        return Thrown(Refused);
      }
      disk := Drop(disk, p);
      e := Attempt();
    }

    /** `secureRenameNoReplace` of one file in its directory. */
    method RenameNoReplace(source: Path, target: Path) returns (e: Effect)
      requires source != target
      modifies this
      ensures disk == old(disk) || Renamed(old(disk), source, target, disk)
      ensures e.Done? ==> Renamed(old(disk), source, target, disk)
      ensures e.Thrown? && e != Thrown(Io) ==>
        e == Thrown(Refused) && (Get(old(disk), source).None? || Get(old(disk), target).Some?)
      ensures Told(e, old(clock)) && Faults() == old(Faults()) + if e == Thrown(Io) then 1 else 0
      ensures events(old(clock)) != Fine ==> disk == old(disk) && e == EffectOf(events(old(clock))) && clock == old(clock) + 1
      ensures events(old(clock)) == Fine && Get(old(disk), source).Some? && Get(old(disk), target).None? ==>
        Renamed(old(disk), source, target, disk) && e == EffectOf(events(old(clock) + 1)) && clock == old(clock) + 2
      ensures Took(e, old(clock), 2)
    {
      e := Attempt();
      if !e.Done? {
        return;
      }
      if Get(disk, source).None? || Get(disk, target).Some? {
        return Thrown(Refused);
      }
      disk := Drop(Put(disk, target, disk.files[source]), source);
      e := Attempt();
    }

    /** `prepareRelease`: copies the release into the backup directory. */
    method StageRelease(id: string, release: VerifiedRelease) returns (e: Effect)
      modifies this
      ensures disk == old(disk) || disk == old(disk).(staged := old(disk).staged[id := release])
      ensures e.Done? ==> disk == old(disk).(staged := old(disk).staged[id := release])
      ensures e.Thrown? ==> e == Thrown(Io)
      ensures Told(e, old(clock)) && Faults() == old(Faults()) + if e == Thrown(Io) then 1 else 0
      ensures Took(e, old(clock), 2)
    {
      e := Attempt();
      if !e.Done? {
        return;
      }
      disk := disk.(staged := disk.staged[id := release]);
      e := Attempt();
    }

    /** `activateRelease`: renames the staged directory, with the rules it ships, into place. */
    method ActivateRelease(id: string, version: string, shipped: Option<Bytes>) returns (e: Effect)
      requires id in disk.staged
      modifies this
      ensures disk == old(disk) || (version !in old(disk).releases && disk == Activated(old(disk), id, version, shipped))
      ensures e.Done? ==> version !in old(disk).releases && disk == Activated(old(disk), id, version, shipped)
      ensures e.Thrown? && e != Thrown(Io) ==> e == Thrown(Refused) && version in old(disk).releases
      ensures Told(e, old(clock)) && Faults() == old(Faults()) + if e == Thrown(Io) then 1 else 0
      ensures Took(e, old(clock), 2)
    {
      e := Attempt();
      if !e.Done? {
        return;
      }
      if version in disk.releases {
        return Thrown(Refused);
      }
      disk := Activated(disk, id, version, shipped);
      e := Attempt();
    }
  }

  lemma PutChangesOne(d: Disk, p: Path, b: Bytes)
    ensures Get(Put(d, p, b), p) == Some(b)
    ensures forall q :: q != p ==> Get(Put(d, p, b), q) == Get(d, q)
    ensures Put(d, p, b).releases == d.releases && Put(d, p, b).staged == d.staged
  {
  }

  lemma DropChangesOne(d: Disk, p: Path)
    ensures Get(Drop(d, p), p) == None
    ensures forall q :: q != p ==> Get(Drop(d, p), q) == Get(d, q)
    ensures Drop(d, p).releases == d.releases && Drop(d, p).staged == d.staged
  {
  }

  ghost predicate Renamed(d: Disk, source: Path, target: Path, d': Disk) {
    && Get(d, source).Some? && Get(d, target).None?
    && d' == Drop(Put(d, target, Get(d, source).value), source)
  }

  function Activated(d: Disk, id: string, version: string, shipped: Option<Bytes>): Disk
    requires id in d.staged
  {
    var moved := d.(staged := d.staged - {id}, releases := d.releases[version := Some(d.staged[id])]);
    if shipped.Some? then Put(moved, LocalRules(version), shipped.value) else moved
  }

  lemma ActivationChanges(d: Disk, id: string, version: string, shipped: Option<Bytes>)
    requires id in d.staged
    ensures var d' := Activated(d, id, version, shipped);
      && d'.releases == d.releases[version := Some(d.staged[id])]
      && (forall p :: p != LocalRules(version) ==> Get(d', p) == Get(d, p))
      && Get(d', LocalRules(version)) == if shipped.Some? then shipped else Get(d, LocalRules(version))
  {
  }
}
