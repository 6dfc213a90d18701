/** The transaction lock of src/installer/locking.ts as a transition system: any number of
    processes, each step one operation on the lock directory, and crashes anywhere. */
module InstallLock {
  import opened Wrappers

  type Pid = nat

  /** The lock directory: which one it is, the process its owner file names, and who made it. The
      random token in the owner file is as unique as the directory. */
  datatype Lock = Lock(dir: nat, owner: Option<Pid>, maker: Pid)

  /** Where a process is in `withInstallationLock` and `reclaimStaleLock`. */
  datatype Pc =
    | Idle
    | Making(dir: nat)                             // has made the directory, not yet captured its identity
    | Made(dir: nat)                               // has captured an identity, not yet written its owner file
    | Acting(dir: nat)                             // inside the locked action
    | Leaving(dir: nat)                            // has removed its owner file
    | Reclaiming                                   // found the directory in its way
    | Reading(owner: Pid, token: nat)              // has read the owner file
    | Judged(owner: Pid, token: nat)               // has found that owner not alive
    | Captured(owner: Pid, token: nat, dir: nat)   // has captured the identity of the directory
    | Retired(owner: Pid, token: nat, found: Option<nat>)  // has renamed it away, with this owner file in it
    | Again                                        // may make the directory now
    | Dead

  datatype World = World(lock: Option<Lock>, next: nat, pcs: map<Pid, Pc>)

  function PcOf(w: World, p: Pid): Pc {
    if p in w.pcs then w.pcs[p] else Idle
  }

  predicate Alive(w: World, p: Pid) {
    PcOf(w, p) != Dead
  }

  function Go(w: World, p: Pid, pc: Pc): World {
    w.(pcs := w.pcs[p := pc])
  }

  predicate InReclaim(pc: Pc) {
    pc.Reclaiming? || pc.Reading? || pc.Judged? || pc.Captured? || pc.Retired?
  }

  datatype Action =
    | Make | Bind | WriteOwner | RemoveOwner | RemoveDirectory
    | EnterReclaim | Read | Judge | Capture | Rename | Clear
    | Throw | Crash

  /** What a step of process `p` makes of the world; nothing if `p` cannot take it. A process can
      throw anywhere, and leaves then behind what it made. */
  function Next(w: World, p: Pid, a: Action): Option<World> {
    var pc := PcOf(w, p);
    if pc.Dead? then None
    else
      match a
      case Make =>
        if !(pc.Idle? || pc.Again?) || w.lock.Some? then None
        else Some(Go(w, p, Making(w.next)).(lock := Some(Lock(w.next, None, p)), next := w.next + 1))
      case Bind => if !pc.Making? || w.lock.None? then None else Some(Go(w, p, Made(w.lock.value.dir)))
      case WriteOwner =>
        if !pc.Made? || w.lock.None? || w.lock.value.dir != pc.dir || w.lock.value.owner.Some? then None
        else Some(Go(w, p, Acting(pc.dir)).(lock := Some(w.lock.value.(owner := Some(p)))))
      case RemoveOwner =>
        if !pc.Acting? || w.lock.None? || w.lock.value.dir != pc.dir || w.lock.value.owner != Some(p) then None
        else Some(Go(w, p, Leaving(pc.dir)).(lock := Some(w.lock.value.(owner := None))))
      case RemoveDirectory =>
        if !pc.Leaving? || w.lock.None? || w.lock.value.dir != pc.dir || w.lock.value.owner.Some? then None
        else Some(Go(w, p, Idle).(lock := None))
      case EnterReclaim => if !pc.Idle? || w.lock.None? then None else Some(Go(w, p, Reclaiming))
      case Read =>
        if !pc.Reclaiming? || w.lock.None? || w.lock.value.owner.None? then None
        else Some(Go(w, p, Reading(w.lock.value.owner.value, w.lock.value.dir)))
      case Judge => if !pc.Reading? || Alive(w, pc.owner) then None else Some(Go(w, p, Judged(pc.owner, pc.token)))
      case Capture =>
        if !pc.Judged? || w.lock.None? then None else Some(Go(w, p, Captured(pc.owner, pc.token, w.lock.value.dir)))
      case Rename =>
        if !pc.Captured? || w.lock.None? || w.lock.value.dir != pc.dir then None
        else
          var found := if w.lock.value.owner.Some? then Some(w.lock.value.dir) else None;
          Some(Go(w, p, Retired(pc.owner, pc.token, found)).(lock := None))
      case Clear => if !pc.Retired? || pc.found != Some(pc.token) then None else Some(Go(w, p, Again))
      case Throw => Some(Go(w, p, Idle))
      case Crash => Some(Go(w, p, Dead))
  }

  /** At most one process is reclaiming at a time. */
  ghost predicate OneReclaimer(w: World) {
    forall p, q :: InReclaim(PcOf(w, p)) && InReclaim(PcOf(w, q)) ==> p == q
  }

  ghost predicate NoReclaimer(w: World) {
    forall p :: !InReclaim(PcOf(w, p))
  }

  /** The process is between making the directory and removing it again. */
  predicate Holds(w: World, p: Pid, dir: nat) {
    PcOf(w, p) in {Making(dir), Made(dir), Acting(dir), Leaving(dir)}
  }

  /** The lock directory is there, and the process that made it is dead or has given it up. */
  predicate LeftBehind(w: World) {
    w.lock.Some? && !Holds(w, w.lock.value.maker, w.lock.value.dir)
  }

  /** Somebody has read the owner file of process `o` and not yet probed the process. */
  ghost predicate OwnerIsRead(w: World, o: Pid) {
    exists q :: PcOf(w, q).Reading? && PcOf(w, q).owner == o
  }

  /** `OneAtATime`: one reclaimer at any moment. `Timely`: besides, an owner is found dead only while
      the directory there is left behind. `Patient`: besides, no process removes an owner file that
      a reclaimer has read and not yet probed. */
  datatype Mode = Free | OneAtATime | Timely | Patient

  ghost predicate Admits(mode: Mode, w: World, p: Pid, a: Action, w': World) {
    match mode
    case Free => true
    case OneAtATime => OneReclaimer(w')
    case Timely => OneReclaimer(w') && (a.Judge? ==> LeftBehind(w))
    case Patient => OneReclaimer(w') && (a.RemoveOwner? ==> !OwnerIsRead(w, p))
  }

  const START := World(None, 0, map[])

  /** Where a run from `w` ends; nothing if a step is impossible or not admitted. */
  ghost function Run(w: World, steps: seq<(Pid, Action)>, mode: Mode): Option<World> {
    if steps == [] then Some(w)
    else
      var last := steps[|steps| - 1];
      match Run(w, steps[..|steps| - 1], mode)
      case None => None
      case Some(mid) =>
        match Next(mid, last.0, last.1)
        case None => None
        case Some(w') => if Admits(mode, mid, last.0, last.1, w') then Some(w') else None
  }

  ghost predicate Reaches(w: World, mode: Mode, w': World) {
    exists steps :: Run(w, steps, mode) == Some(w')
  }

  lemma Here(w: World, mode: Mode)
    ensures Reaches(w, mode, w)
  {
    assert Run(w, [], mode) == Some(w);
  }

  /** One more step. */
  lemma Onward(w0: World, mode: Mode, w: World, p: Pid, a: Action) returns (w': World)
    requires Reaches(w0, mode, w) && Next(w, p, a).Some? && Admits(mode, w, p, a, Next(w, p, a).value)
    ensures w' == Next(w, p, a).value && Reaches(w0, mode, w')
  {
    w' := Next(w, p, a).value;
    var steps :| Run(w0, steps, mode) == Some(w);
    var longer := steps + [(p, a)];
    assert longer[..|longer| - 1] == steps;
    assert Run(w0, longer, mode) == Some(w');
  }

  ghost predicate Exclusive(w: World) {
    forall p, q :: PcOf(w, p).Acting? && PcOf(w, q).Acting? ==> p == q
  }

  // ---- What every timely run keeps ----

  /** A process that made the directory finds it as it left it; one that is about to rename a
      directory away has one before it that nobody uses. */
  predicate Held(w: World, p: Pid) {
    match PcOf(w, p)
    case Making(d) => w.lock == Some(Lock(d, None, p))
    case Made(d) => w.lock == Some(Lock(d, None, p))
    case Acting(d) => w.lock == Some(Lock(d, Some(p), p))
    case Leaving(d) => w.lock == Some(Lock(d, None, p))
    case Judged(_, _) => LeftBehind(w)
    case Captured(_, _, d) => LeftBehind(w) && w.lock.value.dir == d
    case _ => true
  }

  ghost predicate Inv(w: World) {
    && (forall p :: Held(w, p))
    && (w.lock.Some? ==> w.lock.value.dir < w.next && (w.lock.value.owner.Some? ==> w.lock.value.owner == Some(w.lock.value.maker)))
  }

  lemma StepKeepsOthers(w: World, w': World, p: Pid, a: Action, q: Pid)
    requires Inv(w) && Next(w, p, a) == Some(w') && Admits(Timely, w, p, a, w') && q != p
    ensures Held(w', q)
  {
    assert Held(w, p) && Held(w, q) && PcOf(w', q) == PcOf(w, q);
    assert a.Rename? ==> InReclaim(PcOf(w', p));
    if w.lock.Some? {
      assert Held(w, w.lock.value.maker);
    }
  }

  lemma InvIsInductive(w: World, w': World, p: Pid, a: Action)
    requires Inv(w) && Next(w, p, a) == Some(w') && Admits(Timely, w, p, a, w')
    ensures Inv(w')
  {
    assert Held(w, p);
    if w.lock.Some? {
      assert Held(w, w.lock.value.maker);
    }
    forall q
      ensures Held(w', q)
    {
      if q != p {
        StepKeepsOthers(w, w', p, a, q);
      }
    }
  }

  lemma {:induction false} RunsKeepInv(w: World, steps: seq<(Pid, Action)>)
    requires Inv(w) && Run(w, steps, Timely).Some?
    ensures Inv(Run(w, steps, Timely).value)
  {
    if steps != [] {
      var last, before := steps[|steps| - 1], steps[..|steps| - 1];
      RunsKeepInv(w, before);
      InvIsInductive(Run(w, before, Timely).value, Run(w, steps, Timely).value, last.0, last.1);
    }
  }

  lemma ReachedKeepsInv(w: World, v: World)
    requires Inv(w) && Reaches(w, Timely, v)
    ensures Inv(v)
  {
    var steps :| Run(w, steps, Timely) == Some(v);
    RunsKeepInv(w, steps);
  }

  lemma InvIsExclusive(w: World)
    requires Inv(w)
    ensures Exclusive(w)
  {
    forall p, q | PcOf(w, p).Acting? && PcOf(w, q).Acting?
      ensures p == q
    {
      assert Held(w, p) && Held(w, q);
    }
  }

  /** Over every timely run, at most one process is inside the locked action. */
  lemma MutualExclusion(w: World)
    requires Reaches(START, Timely, w)
    ensures Exclusive(w)
  {
    ReachedKeepsInv(START, w);
    InvIsExclusive(w);
  }

  /** A lock whose owner is alive and inside is changed by no other process. */
  lemma LiveLockIsLeftAlone(w: World, w': World, p: Pid, a: Action, q: Pid)
    requires Reaches(START, Timely, w) && Next(w, p, a) == Some(w') && Admits(Timely, w, p, a, w')
    requires PcOf(w, q).Acting? && p != q
    ensures w'.lock == w.lock
  {
    ReachedKeepsInv(START, w);
    assert Held(w, p) && Held(w, q);
    StepKeepsOthers(w, w', p, a, q);
    assert Held(w', q) && PcOf(w', q) == PcOf(w, q);
  }

  // ---- A condition the processes can keep ----

  /** While an owner file has been read, it stays. */
  predicate Pending(w: World, p: Pid) {
    match PcOf(w, p)
    case Reading(o, t) => w.lock == Some(Lock(t, Some(o), o))
    case _ => true
  }

  lemma PatientStep(w: World, w': World, p: Pid, a: Action)
    requires Inv(w) && (forall q :: Pending(w, q)) && Next(w, p, a) == Some(w') && Admits(Patient, w, p, a, w')
    ensures Admits(Timely, w, p, a, w') && Inv(w') && forall q :: Pending(w', q)
  {
    assert Pending(w, p) && Held(w, p);
    if a.Judge? {
      assert LeftBehind(w);
    }
    InvIsInductive(w, w', p, a);
    forall q
      ensures Pending(w', q)
    {
      assert Pending(w, q) && Held(w, q);
      if q != p && PcOf(w, q).Reading? {
        assert PcOf(w', q) == PcOf(w, q);
        assert a.Rename? ==> InReclaim(PcOf(w', p));
        assert a.RemoveOwner? && PcOf(w, q).owner == p ==> OwnerIsRead(w, p);
      }
    }
  }

  /** If no process removes an owner file between a reclaimer's reading it and probing its process,
      every judgement is timely. */
  lemma {:induction false} PatientIsTimely(steps: seq<(Pid, Action)>)
    requires Run(START, steps, Patient).Some?
    ensures Run(START, steps, Timely) == Run(START, steps, Patient)
    ensures Inv(Run(START, steps, Patient).value) && forall q :: Pending(Run(START, steps, Patient).value, q)
  {
    if steps != [] {
      var last, before := steps[|steps| - 1], steps[..|steps| - 1];
      PatientIsTimely(before);
      PatientStep(Run(START, before, Patient).value, Run(START, steps, Patient).value, last.0, last.1);
    }
  }

  // ---- The condition is exact ----

  lemma FreshPid(w: World) returns (q: Pid)
    ensures q !in w.pcs
  {
    var bound := Above(w.pcs.Keys);
    q := bound;
  }

  lemma {:induction false} Above(s: set<nat>) returns (bound: nat)
    ensures forall x :: x in s ==> x < bound
  {
    if s == {} {
      bound := 0;
    } else {
      var x :| x in s;
      var rest := Above(s - {x});
      bound := if x < rest then rest else x + 1;
      assert forall y :: y in s ==> y == x || y in s - {x};
    }
  }

  /** A step that starts no reclaiming can be taken with one reclaimer at a time. */
  lemma Proceed(w0: World, mode: Mode, w: World, p: Pid, a: Action) returns (w': World)
    requires Reaches(w0, mode, w) && Next(w, p, a).Some? && !mode.Patient? && (mode.Timely? ==> !a.Judge?)
    requires mode.Free? || (OneReclaimer(w) && (a.EnterReclaim? ==> NoReclaimer(w)))
    ensures w' == Next(w, p, a).value && Reaches(w0, mode, w')
    ensures mode.Free? || OneReclaimer(w')
    ensures forall o :: o != p ==> PcOf(w', o) == PcOf(w, o)
  {
    w' := Next(w, p, a).value;
    assert InReclaim(PcOf(w', p)) ==> InReclaim(PcOf(w, p)) || a.EnterReclaim?;
    assert forall o :: o != p && InReclaim(PcOf(w', o)) ==> InReclaim(PcOf(w, o));
    w' := Onward(w0, mode, w, p, a);
  }

  /** A new process takes the lock that nobody has. */
  lemma Acquire(w0: World, w: World) returns (w': World, q: Pid)
    requires Reaches(w0, Timely, w) && OneReclaimer(w) && w.lock.None?
    ensures Reaches(w0, Timely, w') && OneReclaimer(w') && q !in w.pcs && PcOf(w', q) == Acting(w.next)
    ensures w'.lock == Some(Lock(w.next, Some(q), q)) && forall o :: o != q ==> PcOf(w', o) == PcOf(w, o)
  {
    q := FreshPid(w);
    var w1 := Proceed(w0, Timely, w, q, Make);
    var w2 := Proceed(w0, Timely, w1, q, Bind);
    w' := Proceed(w0, Timely, w2, q, WriteOwner);
  }

  /** A process that may rename whatever directory is there breaks in on the one inside. */
  lemma Intrude(w0: World, w: World, p: Pid, q: Pid) returns (w': World)
    requires Reaches(w0, Timely, w) && OneReclaimer(w) && w.lock.Some? && p != q
    requires PcOf(w, p).Judged? && PcOf(w, q).Acting?
    ensures Reaches(w0, Timely, w') && !Exclusive(w')
  {
    var w1 := Proceed(w0, Timely, w, p, Capture);
    var w2 := Proceed(w0, Timely, w1, p, Rename);
    var r;
    w', r := Acquire(w0, w2);
    assert PcOf(w', q).Acting? && PcOf(w', r).Acting? && q in w2.pcs;
  }

  /** The directory is gone, or its maker `q` still has it, when `p` has just found an owner dead. */
  lemma UntimelyBreaks(w0: World, w: World, p: Pid, q: Pid) returns (w': World)
    requires Reaches(w0, Timely, w) && OneReclaimer(w) && PcOf(w, p).Judged? && p != q
    requires w.lock.Some? ==> w.lock.value.maker == q && Holds(w, q, w.lock.value.dir) && Held(w, q)
    ensures Reaches(w0, Timely, w') && !Exclusive(w')
  {
    if w.lock.None? {
      var w1, r := Acquire(w0, w);
      w' := Intrude(w0, w1, p, r);
    } else if PcOf(w, q).Leaving? {
      var w1 := Proceed(w0, Timely, w, q, RemoveDirectory);
      var w2, r := Acquire(w0, w1);
      w' := Intrude(w0, w2, p, r);
    } else {
      var w1 := w;
      if PcOf(w, q).Making? {
        w1 := Proceed(w0, Timely, w, q, Bind);
      }
      var w2 := w1;
      if PcOf(w1, q).Made? {
        w2 := Proceed(w0, Timely, w1, q, WriteOwner);
      }
      w' := Intrude(w0, w2, p, q);
    }
  }

  /** In a world that a timely run can lead to, process `p` finds the owner it has read dead. No
      later timely run lets two processes in exactly when the directory there is left behind. */
  lemma JudgementDecides(w: World, w': World, p: Pid)
    requires Reaches(START, Timely, w) && Next(w, p, Judge) == Some(w') && OneReclaimer(w')
    ensures LeftBehind(w) <==> forall v :: Reaches(w', Timely, v) ==> Exclusive(v)
  {
    ReachedKeepsInv(START, w);
    assert Held(w, p);
    if LeftBehind(w) {
      InvIsInductive(w, w', p, Judge);
      forall v | Reaches(w', Timely, v)
        ensures Exclusive(v)
      {
        ReachedKeepsInv(w', v);
        InvIsExclusive(v);
      }
    } else {
      Here(w', Timely);
      var q := if w.lock.Some? then w.lock.value.maker else p + 1;
      assert Held(w, q) && PcOf(w, p).Reading?;
      var v := UntimelyBreaks(w', w', p, q);
    }
  }

  // ---- Runs that let two processes in ----

  /** Process `p` goes from outside into the action, when nobody has the lock. */
  lemma Enter(mode: Mode, w: World, p: Pid) returns (w': World)
    requires Reaches(START, mode, w) && !mode.Patient? && (mode.Free? || OneReclaimer(w))
    requires w.lock.None? && (PcOf(w, p).Idle? || PcOf(w, p).Again?)
    ensures Reaches(START, mode, w') && (mode.Free? || OneReclaimer(w'))
    ensures w'.lock == Some(Lock(w.next, Some(p), p)) && w'.next == w.next + 1 && w'.pcs == w.pcs[p := Acting(w.next)]
  {
    hide OneReclaimer, NoReclaimer, Reaches;
    var w1 := Proceed(START, mode, w, p, Make);
    var w2 := Proceed(START, mode, w1, p, Bind);
    w' := Proceed(START, mode, w2, p, WriteOwner);
    assert w'.pcs == w.pcs[p := Acting(w.next)];
  }

  lemma Quiet(w: World)
    requires forall p :: p in w.pcs ==> !InReclaim(w.pcs[p])
    ensures NoReclaimer(w) && OneReclaimer(w)
  {
  }

  /** Process 0 has finished and exited after process 1 has read its owner file. */
  lemma ReadTooEarly() returns (w: World)
    ensures Reaches(START, OneAtATime, w) && OneReclaimer(w) && w.lock == None && w.next == 1
    ensures w.pcs == map[0 := Dead, 1 := Reading(0, 0)]
  {
    hide OneReclaimer, NoReclaimer, Reaches;
    Here(START, OneAtATime);
    Quiet(START);
    w := Enter(OneAtATime, START, 0);
    Quiet(w);
    w := Proceed(START, OneAtATime, w, 1, EnterReclaim);
    w := Proceed(START, OneAtATime, w, 1, Read);
    w := Proceed(START, OneAtATime, w, 0, RemoveOwner);
    w := Proceed(START, OneAtATime, w, 0, RemoveDirectory);
    w := Proceed(START, OneAtATime, w, 0, Crash);
    assert w.pcs == map[0 := Dead, 1 := Reading(0, 0)];
  }

  /** One reclaimer is not enough: process 1 reads the owner file of process 0, which then finishes
      and exits; process 2 is inside when process 1 finds process 0 dead and renames the directory of
      process 2 away, whereupon process 3 enters too. */
  lemma LateJudgementBreaksIt() returns (w: World)
    ensures Reaches(START, OneAtATime, w) && PcOf(w, 2).Acting? && PcOf(w, 3).Acting? && !Exclusive(w)
  {
    hide OneReclaimer, NoReclaimer, Reaches;
    w := ReadTooEarly();
    w := Enter(OneAtATime, w, 2);
    w := Proceed(START, OneAtATime, w, 1, Judge);
    w := Proceed(START, OneAtATime, w, 1, Capture);
    w := Proceed(START, OneAtATime, w, 1, Rename);
    w := Proceed(START, OneAtATime, w, 1, Throw);
    w := Enter(OneAtATime, w, 3);
    assert PcOf(w, 2).Acting? && PcOf(w, 3).Acting?;
  }

  /** Process `p` comes from outside and finds the owner dead. */
  lemma Condemn(w: World, p: Pid) returns (w': World)
    requires Reaches(START, Free, w) && PcOf(w, p).Idle? && w.lock.Some? && w.lock.value.owner.Some?
    requires w.lock.value.owner.value != p && !Alive(w, w.lock.value.owner.value)
    ensures Reaches(START, Free, w') && w' == Go(w, p, Judged(w.lock.value.owner.value, w.lock.value.dir))
  {
    hide OneReclaimer, NoReclaimer, Reaches;
    var w1 := Proceed(START, Free, w, p, EnterReclaim);
    var w2 := Proceed(START, Free, w1, p, Read);
    w' := Proceed(START, Free, w2, p, Judge);
    assert w'.pcs == Go(w, p, Judged(w.lock.value.owner.value, w.lock.value.dir)).pcs;
  }

  /** Processes 1 and 2 have found the owner dead, and process 1 has taken its lock over. */
  lemma TwoHaveJudged() returns (w: World)
    ensures Reaches(START, Free, w) && w.lock == Some(Lock(1, Some(1), 1)) && w.next == 2
    ensures PcOf(w, 1) == Acting(1) && PcOf(w, 2) == Judged(0, 0) && PcOf(w, 3) == Idle
  {
    hide OneReclaimer, NoReclaimer, Reaches;
    Here(START, Free);
    w := Enter(Free, START, 0);
    w := Proceed(START, Free, w, 0, Crash);
    w := Condemn(w, 1);
    w := Condemn(w, 2);
    w := Proceed(START, Free, w, 1, Capture);
    w := Proceed(START, Free, w, 1, Rename);
    w := Proceed(START, Free, w, 1, Clear);
    w := Enter(Free, w, 1);
  }

  /** Two reclaimers let two processes in, although both find the owner dead: the second one renames
      away the directory that the first one has made. */
  lemma TwoReclaimersBreakIt() returns (w: World)
    ensures Reaches(START, Free, w) && PcOf(w, 1).Acting? && PcOf(w, 3).Acting? && !Exclusive(w)
  {
    hide OneReclaimer, NoReclaimer, Reaches;
    w := TwoHaveJudged();
    w := Proceed(START, Free, w, 2, Capture);
    w := Proceed(START, Free, w, 2, Rename);
    w := Enter(Free, w, 3);
    assert PcOf(w, 1).Acting? && PcOf(w, 3).Acting?;
  }

  // ---- A directory without its owner file ----

  /** A process that can still bring about the removal of a directory without an owner file: one
      that takes it for its own, or one that is past reading an owner file, of a process that can be
      dead when it is probed. */
  predicate MayFree(pc: Pc, p: Pid, dir: nat) {
    match pc
    case Making(_) => true
    case Made(d) => d == dir
    case Leaving(d) => d == dir
    case Reading(o, _) => o != p
    case Judged(_, _) => true
    case Captured(_, _, d) => d == dir
    case _ => false
  }

  /** The directory is there without an owner file, and nobody can free it. */
  ghost predicate Orphaned(w: World, lock: Lock) {
    w.lock == Some(lock) && lock.owner.None? && forall p :: !MayFree(PcOf(w, p), p, lock.dir)
  }

  lemma OrphanStaysAStep(w: World, w': World, lock: Lock, p: Pid, a: Action)
    requires Orphaned(w, lock) && Next(w, p, a) == Some(w')
    ensures Orphaned(w', lock) && (PcOf(w', p).Acting? ==> PcOf(w, p).Acting?)
  {
    assert !MayFree(PcOf(w, p), p, lock.dir);
    forall q
      ensures !MayFree(PcOf(w', q), q, lock.dir)
    {
      assert !MayFree(PcOf(w, q), q, lock.dir);
    }
  }

  /** It stays for ever, whoever runs, and nobody enters any more. */
  lemma {:induction false} OrphanStays(w: World, lock: Lock, steps: seq<(Pid, Action)>, mode: Mode)
    requires Orphaned(w, lock) && Run(w, steps, mode).Some?
    ensures Orphaned(Run(w, steps, mode).value, lock)
    ensures forall q :: PcOf(Run(w, steps, mode).value, q).Acting? ==> PcOf(w, q).Acting?
  {
    if steps != [] {
      var last, before := steps[|steps| - 1], steps[..|steps| - 1];
      OrphanStays(w, lock, before, mode);
      OrphanStaysAStep(Run(w, before, mode).value, Run(w, steps, mode).value, lock, last.0, last.1);
    }
  }

  /** The lock is taken, and nobody is inside. */
  ghost predicate Closed(w: World) {
    w.lock.Some? && forall p :: !PcOf(w, p).Acting?
  }

  lemma OrphanIsClosed(w: World)
    requires w.lock.Some? && Orphaned(w, w.lock.value) && Closed(w)
    ensures forall mode, v :: Reaches(w, mode, v) ==> Closed(v)
  {
    forall mode, v | Reaches(w, mode, v)
      ensures Closed(v)
    {
      var steps :| Run(w, steps, mode) == Some(v);
      OrphanStays(w, w.lock.value, steps, mode);
    }
  }

  /** A process makes the directory and dies before its owner file is there: nobody ever gets in. */
  lemma DeathBeforeTheOwnerFile() returns (w: World)
    ensures Reaches(START, Timely, w)
    ensures forall mode, v :: Reaches(w, mode, v) ==> Closed(v)
  {
    hide OneReclaimer, NoReclaimer, Reaches;
    Here(START, Timely);
    Quiet(START);
    w := Proceed(START, Timely, START, 0, Make);
    w := Proceed(START, Timely, w, 0, Crash);
    OrphanIsClosed(w);
  }

  lemma Freed(w: World, lock: Lock, p: Pid) returns (v: World)
    requires OneReclaimer(w) && w.lock == Some(lock) && lock.owner.None? && MayFree(PcOf(w, p), p, lock.dir)
    ensures Reaches(w, OneAtATime, v) && v.lock.None?
  {
    Here(w, OneAtATime);
    hide OneReclaimer, NoReclaimer, Reaches;
    v := w;
    if PcOf(v, p).Making? {
      v := Proceed(w, OneAtATime, v, p, Bind);
    }
    if PcOf(v, p).Made? {
      v := Proceed(w, OneAtATime, v, p, WriteOwner);
      v := Proceed(w, OneAtATime, v, p, RemoveOwner);
    }
    if PcOf(v, p).Leaving? {
      v := Proceed(w, OneAtATime, v, p, RemoveDirectory);
    } else {
      if PcOf(v, p).Reading? {
        var o := PcOf(v, p).owner;
        if Alive(v, o) {
          v := Proceed(w, OneAtATime, v, o, Crash);
        }
        v := Proceed(w, OneAtATime, v, p, Judge);
      }
      if PcOf(v, p).Judged? {
        v := Proceed(w, OneAtATime, v, p, Capture);
      }
      v := Proceed(w, OneAtATime, v, p, Rename);
    }
  }

  /** A directory without an owner file can still go away, with one reclaimer at a time, exactly
      when some process may free it. */
  lemma FreedExactlyIf(w: World, lock: Lock)
    requires OneReclaimer(w) && w.lock == Some(lock) && lock.owner.None?
    ensures (exists v :: Reaches(w, OneAtATime, v) && v.lock.None?) <==> exists p :: MayFree(PcOf(w, p), p, lock.dir)
  {
    if p :| MayFree(PcOf(w, p), p, lock.dir) {
      var v := Freed(w, lock, p);
    } else {
      forall v | Reaches(w, OneAtATime, v)
        ensures v.lock.Some?
      {
        var steps :| Run(w, steps, OneAtATime) == Some(v);
        OrphanStays(w, lock, steps, OneAtATime);
      }
    }
  }

  /** A live directory without an owner file is renamed away by a reclaimer that has read the owner
      file before: process 0 dies between removing its owner file and its directory. */
  lemma LateJudgementFreesIt() returns (w: World, v: World)
    ensures Reaches(START, OneAtATime, w) && w.lock == Some(Lock(0, None, 0)) && PcOf(w, 0).Dead?
    ensures Reaches(w, OneAtATime, v) && v.lock.None?
  {
    hide OneReclaimer, NoReclaimer, Reaches;
    Here(START, OneAtATime);
    Quiet(START);
    w := Enter(OneAtATime, START, 0);
    Quiet(w);
    w := Proceed(START, OneAtATime, w, 1, EnterReclaim);
    w := Proceed(START, OneAtATime, w, 1, Read);
    w := Proceed(START, OneAtATime, w, 0, RemoveOwner);
    w := Proceed(START, OneAtATime, w, 0, Crash);
    v := Freed(w, w.lock.value, 1);
  }

  // ---- Who gets in ----

  predicate AllBy(steps: seq<(Pid, Action)>, p: Pid) {
    forall i :: 0 <= i < |steps| ==> steps[i].0 == p
  }

  /** One more step of `p`. */
  lemma ByItself(w0: World, steps: seq<(Pid, Action)>, w: World, p: Pid, a: Action) returns (longer: seq<(Pid, Action)>, w': World)
    requires Run(w0, steps, Free) == Some(w) && AllBy(steps, p) && Next(w, p, a).Some?
    ensures w' == Next(w, p, a).value && Run(w0, longer, Free) == Some(w') && AllBy(longer, p)
  {
    w' := Next(w, p, a).value;
    longer := steps + [(p, a)];
    assert longer[..|longer| - 1] == steps;
  }

  lemma EntersFree(w0: World, steps: seq<(Pid, Action)>, w: World, p: Pid) returns (longer: seq<(Pid, Action)>, w': World)
    requires Run(w0, steps, Free) == Some(w) && AllBy(steps, p) && w.lock.None? && (PcOf(w, p).Idle? || PcOf(w, p).Again?)
    ensures Run(w0, longer, Free) == Some(w') && AllBy(longer, p)
    ensures PcOf(w', p) == Acting(w.next) && w'.lock == Some(Lock(w.next, Some(p), p))
  {
    hide Run, AllBy;
    longer, w' := ByItself(w0, steps, w, p, Make);
    longer, w' := ByItself(w0, longer, w', p, Bind);
    longer, w' := ByItself(w0, longer, w', p, WriteOwner);
  }

  lemma CapturesDead(w: World, p: Pid) returns (steps: seq<(Pid, Action)>, w': World)
    requires PcOf(w, p).Idle? && w.lock.Some? && w.lock.value.owner.Some? && !Alive(w, w.lock.value.owner.value)
    ensures Run(w, steps, Free) == Some(w') && AllBy(steps, p) && w'.lock == w.lock && w'.next == w.next
    ensures PcOf(w', p) == Captured(w.lock.value.owner.value, w.lock.value.dir, w.lock.value.dir)
  {
    assert Run(w, [], Free) == Some(w) && AllBy([], p);
    hide Run, AllBy;
    steps, w' := ByItself(w, [], w, p, EnterReclaim);
    steps, w' := ByItself(w, steps, w', p, Read);
    steps, w' := ByItself(w, steps, w', p, Judge);
    steps, w' := ByItself(w, steps, w', p, Capture);
  }

  lemma ReplacesDead(w: World, p: Pid) returns (steps: seq<(Pid, Action)>, w': World)
    requires PcOf(w, p).Idle? && w.lock.Some? && w.lock.value.owner.Some? && !Alive(w, w.lock.value.owner.value)
    ensures Run(w, steps, Free) == Some(w') && AllBy(steps, p)
    ensures PcOf(w', p) == Acting(w.next) && w'.lock == Some(Lock(w.next, Some(p), p))
  {
    hide Run, AllBy;
    steps, w' := CapturesDead(w, p);
    steps, w' := ByItself(w, steps, w', p, Rename);
    steps, w' := ByItself(w, steps, w', p, Clear);
    steps, w' := EntersFree(w, steps, w', p);
  }

  /** The lock of another process stands, and `p` has got no further than reading its owner file. */
  predicate Waits(w: World, lock: Lock, p: Pid) {
    && w.lock == Some(lock) && (lock.owner.Some? && PcOf(w, p) != Dead ==> Alive(w, lock.owner.value))
    && match PcOf(w, p)
       case Idle => true
       case Reclaiming => true
       case Reading(o, _) => lock.owner == Some(o)
       case Dead => true
       case _ => false
  }

  lemma {:induction false} KeepsWaiting(w: World, lock: Lock, p: Pid, steps: seq<(Pid, Action)>)
    requires Waits(w, lock, p) && AllBy(steps, p) && Run(w, steps, Free).Some?
    ensures Waits(Run(w, steps, Free).value, lock, p)
  {
    if steps != [] {
      var before, last := steps[..|steps| - 1], steps[|steps| - 1];
      assert steps[|steps| - 1].0 == p;
      KeepsWaiting(w, lock, p, before);
      var mid := Run(w, before, Free).value;
      assert Next(mid, p, last.1).Some?;
    }
  }

  /** A process that comes from outside gets in by itself exactly if there is no lock directory, or
      its owner file names a dead process. */
  lemma GetsInExactlyIf(w: World, p: Pid)
    requires PcOf(w, p).Idle?
    ensures (exists steps :: AllBy(steps, p) && Run(w, steps, Free).Some? && PcOf(Run(w, steps, Free).value, p).Acting?) <==>
      w.lock.None? || (w.lock.value.owner.Some? && !Alive(w, w.lock.value.owner.value))
  {
    if w.lock.None? {
      assert Run(w, [], Free) == Some(w);
      var steps, w' := EntersFree(w, [], w, p);
    } else if w.lock.value.owner.Some? && !Alive(w, w.lock.value.owner.value) {
      var steps, w' := ReplacesDead(w, p);
    } else {
      forall steps | AllBy(steps, p) && Run(w, steps, Free).Some?
        ensures !PcOf(Run(w, steps, Free).value, p).Acting?
      {
        KeepsWaiting(w, w.lock.value, p, steps);
      }
    }
  }
}
