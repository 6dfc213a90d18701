/** Safety of the checkpoint protocol over every run. */
module ResumeSafety {
  import opened Wrappers
  import opened ResumeSchema
  import opened ResumeHistory
  import opened ResumeProtocol

  // ---- The inductive invariant that needs no readback contract ----

  ghost predicate InLog(log: History, cp: Checkpoint) {
    1 <= cp.generation <= |log| && log[cp.generation - 1] == cp
  }

  function StatusIn(cp: Checkpoint, op: string): Option<EffectStatus> {
    var e := FindEffect(cp.state.effects, op);
    if e.Some? then Some(e.value.status) else None
  }

  ghost predicate FreshMint(log: History, p: Pid, clock: nat, id: EventId) {
    id.Minted? && id.owner == p && id.serial < clock && !HasEvent(log, id)
  }

  ghost predicate TaskReady(log: History, p: Pid, clock: nat, task: Task) {
    match task
    case Materialize => true
    case Claim(op, base) => InLog(log, base) && StatusIn(base, op) == Some(Prepared)
    case Resolve(op, base, outcome, reference) =>
      InLog(log, base) && StatusIn(base, op) in {Some(Prepared), Some(Unknown)}
  }

  ghost predicate RequestOk(log: History, p: Pid, clock: nat, task: Task, req: Request) {
    && TaskReady(log, p, clock, task)
    && match task
       case Materialize => req.eventId.Named? || HasEvent(log, req.eventId)
       case Claim(op, base) => FreshMint(log, p, clock, req.eventId) && req == ClaimRequest(base, op, req.eventId)
       case Resolve(op, base, outcome, reference) =>
         FreshMint(log, p, clock, req.eventId) && req == ResolveRequest(base, op, outcome, reference, req.eventId)
  }

  /** Only a `Resolve` task may enter or change a confirmed status, and only as answered. */
  ghost predicate OriginOk(previous: Option<Checkpoint>, cp: Checkpoint, origin: Task) {
    forall e :: e in cp.state.effects && ConfirmsEffect(previous, e) ==>
      origin.Resolve? && origin.op == e.operationId && StatusFor(origin.outcome) == e.status
  }

  /** A candidate extends the prefix of the log it was decided on. */
  ghost predicate CandidateOk(log: History, p: Pid, clock: nat, task: Task, cp: Checkpoint) {
    && 1 <= cp.generation <= |log| + 1
    && TaskReady(log, p, clock, task)
    && var h := log[..cp.generation - 1];
       && Links(h, cp)
       && OriginOk(Last(h), cp, task)
       && match task
          case Materialize => cp.eventId.Named? || HasEvent(log, cp.eventId)
          case Claim(op, base) =>
            && FreshMint(log, p, clock, cp.eventId) && Last(h) == Some(base)
            && cp.trigger == EffectExecuted && StatusIn(cp, op) == Some(Unknown)
          case Resolve(op, base, outcome, reference) =>
            && FreshMint(log, p, clock, cp.eventId) && Last(h) == Some(base)
            && cp.trigger == EffectReadback && StatusIn(cp, op) == Some(StatusFor(outcome))
  }

  /** `cp` is the published PREPARED-to-UNKNOWN claim of process `p` on `op`. */
  ghost predicate IsClaim(log: History, p: Pid, op: string, cp: Checkpoint) {
    && InLog(log, cp) && 2 <= cp.generation
    && cp.eventId.Minted? && cp.eventId.owner == p && cp.trigger == EffectExecuted
    && StatusIn(log[cp.generation - 2], op) == Some(Prepared)
    && StatusIn(cp, op) == Some(Unknown)
  }

  ghost predicate ListingOk(log: History, names: set<nat>) {
    exists n :: 0 <= n <= |log| && names == Range(n)
  }

  ghost predicate Published(w: World, p: Pid, task: Task, cp: Checkpoint) {
    && InLog(w.log, cp)
    && (task.Claim? ==>
          && IsClaim(w.log, p, task.op, cp)
          && forall d :: d in w.dispatches ==> d.generation != cp.generation)
  }

  ghost predicate ProcOk(r: Rules, w: World, p: Pid, proc: Proc) {
    match proc
    case Looking(intent, op, expected, names) => ListingOk(w.log, names)
    case Querying(op, base) => InLog(w.log, base) && StatusIn(base, op) in {Some(Prepared), Some(Unknown)}
    case Entering(req, task) => RequestOk(w.log, p, w.clock, task, req)
    case Listed(req, task, names) => RequestOk(w.log, p, w.clock, task, req) && ListingOk(w.log, names)
    case Staging(task, cp) => CandidateOk(w.log, p, w.clock, task, cp)
    case Publishing(task, cp, serial) =>
      && CandidateOk(w.log, p, w.clock, task, cp) && ValidCheckpoint(r, cp) && serial < w.clock
      && Stage(p, serial) in w.files && w.files[Stage(p, serial)] == cp
    case Confirming(task, cp) => Published(w, p, task, cp)
    case Checking(task, cp, names) => Published(w, p, task, cp) && ListingOk(w.log, names)
    case Executing(op, cp, fired) => IsClaim(w.log, p, op, cp)
  }

  /** The published names are exactly the generations of one valid history. */
  ghost predicate Mirrors(r: Rules, files: map<Name, Checkpoint>, log: History) {
    && (forall n: nat :: Generation(n) in files <==> 1 <= n <= |log|)
    && (forall i :: 0 <= i < |log| ==> files[Generation(i + 1)] == log[i])
    && ValidHistory(r, log)
  }

  ghost predicate DispatchesOk(log: History, ds: seq<Dispatch>) {
    && (forall i :: 0 <= i < |ds| ==>
          1 <= ds[i].generation <= |log| && IsClaim(log, ds[i].owner, ds[i].op, log[ds[i].generation - 1]))
    && (forall i, j :: 0 <= i < j < |ds| ==> ds[i].generation != ds[j].generation)
  }

  ghost predicate OriginAt(log: History, origins: seq<Task>, i: nat)
    requires i < |log| == |origins|
  {
    OriginOk(Last(log[..i]), log[i], origins[i])
  }

  ghost predicate OriginsOk(log: History, origins: seq<Task>) {
    && |log| == |origins|
    && forall i :: 0 <= i < |log| ==> OriginAt(log, origins, i)
  }

  ghost predicate ClockOk(log: History, clock: nat) {
    forall i :: 0 <= i < |log| && log[i].eventId.Minted? ==> log[i].eventId.serial < clock
  }

  ghost predicate Inv(r: Rules, w: World) {
    && ClockOk(w.log, w.clock)
    && Mirrors(r, w.files, w.log)
    && (forall p :: p in w.procs ==> ProcOk(r, w, p, w.procs[p]))
    && DispatchesOk(w.log, w.dispatches)
    && OriginsOk(w.log, w.origins)
  }

  // ---- Reading ----

  /** A listing taken earlier reads back as that prefix of the log, whatever was published since. */
  lemma ListingReadsPrefix(r: Rules, w: World, names: set<nat>)
    requires Mirrors(r, w.files, w.log) && ListingOk(w.log, names)
    ensures |names| <= |w.log| && Loaded(r, w.files, names) == Some(w.log[..|names|])
  {
    var n :| 0 <= n <= |w.log| && names == Range(n);
    PrefixIsValid(r, w.log, n);
    assert seq(n, i requires 0 <= i < n => w.files[Generation(i + 1)]) == w.log[..n];
  }

  lemma ListingIsCurrent(r: Rules, w: World)
    requires Mirrors(r, w.files, w.log)
    ensures GenerationsIn(w.files) == Range(|w.log|) && ListingOk(w.log, GenerationsIn(w.files))
  {
    forall n: nat
      ensures n in GenerationsIn(w.files) <==> n in Range(|w.log|)
    {
      assert n in GenerationsIn(w.files) <==> Generation(n) in w.files;
    }
    assert GenerationsIn(w.files) == Range(|w.log|);
  }

  /** Generation and fingerprint identify a checkpoint of the log without any assumption on `hash`. */
  lemma MatchingIsBase(log: History, n: nat, base: Checkpoint, r: Rules)
    requires ValidHistory(r, log) && n <= |log| && InLog(log, base)
    requires Matches(Last(log[..n]), Some(IdentityOf(base)))
    ensures n == base.generation && Last(log[..n]) == Some(base)
  {
    assert n > 0;
    assert ValidAt(r, log, n - 1);
  }

  // ---- One step keeps the invariant ----

  /** What a step of another process may do from the point of view of `q`. */
  ghost predicate Respects(w: World, w': World, q: Pid) {
    && w.log <= w'.log && w.clock <= w'.clock
    && (forall k: nat :: Stage(q, k) in w.files ==> Stage(q, k) in w'.files && w'.files[Stage(q, k)] == w.files[Stage(q, k)])
    && (forall i :: |w.log| <= i < |w'.log| ==>
          !(w'.log[i].eventId.Minted? && w'.log[i].eventId.owner == q) || HasEvent(w.log, w'.log[i].eventId))
    && (forall d :: d in w'.dispatches && d !in w.dispatches ==>
          d.owner != q && 1 <= d.generation <= |w'.log| && IsClaim(w'.log, d.owner, d.op, w'.log[d.generation - 1]))
  }

  lemma FreshMintStays(w: World, w': World, q: Pid, id: EventId)
    requires Respects(w, w', q) && FreshMint(w.log, q, w.clock, id)
    ensures FreshMint(w'.log, q, w'.clock, id)
  {
    forall i | 0 <= i < |w'.log|
      ensures w'.log[i].eventId != id
    {
      assert i < |w.log| ==> w'.log[i] == w.log[i];
    }
  }

  lemma EventStays(w: World, w': World, id: EventId)
    requires w.log <= w'.log && HasEvent(w.log, id)
    ensures HasEvent(w'.log, id)
  {
    var i :| 0 <= i < |w.log| && w.log[i].eventId == id;
    assert w'.log[i] == w.log[i];
  }

  lemma CandidateStaysOk(w: World, w': World, q: Pid, task: Task, cp: Checkpoint)
    requires Respects(w, w', q) && CandidateOk(w.log, q, w.clock, task, cp)
    ensures CandidateOk(w'.log, q, w'.clock, task, cp)
  {
    assert w'.log[..cp.generation - 1] == w.log[..cp.generation - 1];
    if !task.Materialize? {
      FreshMintStays(w, w', q, cp.eventId);
    } else if cp.eventId.Minted? {
      EventStays(w, w', cp.eventId);
    }
  }

  lemma RequestStaysOk(w: World, w': World, q: Pid, task: Task, req: Request)
    requires Respects(w, w', q) && RequestOk(w.log, q, w.clock, task, req)
    ensures RequestOk(w'.log, q, w'.clock, task, req)
  {
    if !task.Materialize? {
      FreshMintStays(w, w', q, req.eventId);
    } else if req.eventId.Minted? {
      EventStays(w, w', req.eventId);
    }
  }

  lemma ProcStaysOk(r: Rules, w: World, w': World, q: Pid, proc: Proc)
    requires Respects(w, w', q) && ProcOk(r, w, q, proc)
    ensures ProcOk(r, w', q, proc)
  {
    match proc
    case Looking(_, _, _, names) =>
    case Querying(_, _) =>
    case Entering(req, task) => RequestStaysOk(w, w', q, task, req);
    case Listed(req, task, names) => RequestStaysOk(w, w', q, task, req);
    case Staging(task, cp) => CandidateStaysOk(w, w', q, task, cp);
    case Publishing(task, cp, _) => CandidateStaysOk(w, w', q, task, cp);
    case Confirming(task, cp) =>
    case Checking(task, cp, _) =>
    case Executing(_, _, _) =>
  }

  lemma StepKeepsInv(r: Rules, w: World, w': World, p: Pid, next: Option<Proc>)
    requires Inv(r, w)
    requires w'.procs == if next.Some? then w.procs[p := next.value] else w.procs - {p}
    requires forall q :: q in w.procs && q != p ==> Respects(w, w', q)
    requires next.Some? ==> ProcOk(r, w', p, next.value)
    requires Mirrors(r, w'.files, w'.log) && ClockOk(w'.log, w'.clock)
    requires DispatchesOk(w'.log, w'.dispatches) && OriginsOk(w'.log, w'.origins)
    ensures Inv(r, w')
  {
    forall q | q in w'.procs
      ensures ProcOk(r, w', q, w'.procs[q])
    {
      if q != p {
        ProcStaysOk(r, w, w', q, w.procs[q]);
      }
    }
  }

  /** A step that publishes nothing and dispatches nothing. */
  lemma LocalStep(r: Rules, w: World, w': World, p: Pid, next: Option<Proc>)
    requires Inv(r, w) && w'.files == w.files && w'.log == w.log && w'.origins == w.origins && w'.dispatches == w.dispatches
    requires w.clock <= w'.clock
    requires w'.procs == if next.Some? then w.procs[p := next.value] else w.procs - {p}
    requires next.Some? ==> ProcOk(r, w', p, next.value)
    ensures Inv(r, w')
  {
    StepKeepsInv(r, w, w', p, next);
  }

  lemma LookupInCurrent(r: Rules, w: World, names: set<nat>, expected: Identity)
    requires Inv(r, w) && ListingOk(w.log, names)
    ensures var h := Loaded(r, w.files, names);
      h.Some? && (Last(h.value).Some? ==> InLog(w.log, Last(h.value).value))
  {
    ListingReadsPrefix(r, w, names);
    if names != {} {
      assert ValidAt(r, w.log, |names| - 1);
    }
  }

  lemma LoadKeepsInv(r: Rules, w: World, p: Pid)
    requires Inv(r, w) && p in w.procs && w.procs[p].Looking?
    ensures Inv(r, AfterLoad(r, w, p, w.procs[p]))
  {
    var me := w.procs[p];
    assert ProcOk(r, w, p, me);
    var w' := AfterLoad(r, w, p, me);
    LookupInCurrent(r, w, me.names, me.expected);
    var h := Loaded(r, w.files, me.names).value;
    if w' == Goto(w, p, None) {
      LocalStep(r, w, w', p, None);
    } else {
      var cp := Last(h).value;
      if me.intent == Execute {
        var id := Minted(p, w.clock);
        var next := Entering(ClaimRequest(cp, me.op, id), Claim(me.op, cp));
        assert !HasEvent(w.log, id);
        assert ProcOk(r, w', p, next);
        LocalStep(r, w, w', p, Some(next));
      } else {
        LocalStep(r, w, w', p, Some(Querying(me.op, cp)));
      }
    }
  }

  lemma AnswerKeepsInv(r: Rules, w: World, p: Pid, outcome: Outcome, reference: Option<string>)
    requires Inv(r, w) && p in w.procs && w.procs[p].Querying?
    ensures Inv(r, AfterAnswer(r, w, p, w.procs[p], outcome, reference))
  {
    var me := w.procs[p];
    assert ProcOk(r, w, p, me);
    var w' := AfterAnswer(r, w, p, me, outcome, reference);
    if w' == Goto(w, p, None) {
      LocalStep(r, w, w', p, None);
    } else {
      var id := Minted(p, w.clock);
      var next := Entering(ResolveRequest(me.base, me.op, outcome, reference, id), Resolve(me.op, me.base, outcome, reference));
      assert !HasEvent(w.log, id);
      assert ProcOk(r, w', p, next);
      LocalStep(r, w, w', p, Some(next));
    }
  }

  lemma {:induction false} FindUnique(effects: seq<Effect>, e: Effect)
    requires e in effects
    requires forall i, j :: 0 <= i < j < |effects| ==> effects[i].operationId != effects[j].operationId
    ensures FindEffect(effects, e.operationId) == Some(e)
  {
    if effects[0] != e {
      var k :| 0 <= k < |effects| && effects[k] == e;
      assert k > 0 && effects[0].operationId != e.operationId;
      assert e == effects[1..][k - 1];
      FindUnique(effects[1..], e);
    }
  }

  /** Publishing an answer changes the confirmed status of its own operation only. */
  lemma ResolveOrigin(r: Rules, h: History, base: Checkpoint, op: string, outcome: Outcome, reference: Option<string>, id: EventId)
    requires Last(h) == Some(base)
    requires ValidState(r, ResolveRequest(base, op, outcome, reference, id).state)
    ensures forall e :: e in ResolveRequest(base, op, outcome, reference, id).state.effects && ConfirmsEffect(Last(h), e) ==>
      e.operationId == op && e.status == StatusFor(outcome)
  {
    var effects := ResolveRequest(base, op, outcome, reference, id).state.effects;
    forall e | e in effects && ConfirmsEffect(Last(h), e)
      ensures e.operationId == op && e.status == StatusFor(outcome)
    {
      FindUnique(effects, e);
      FindAfterSet(base.state.effects, op, StatusFor(outcome), reference, e.operationId);
    }
  }

  /** The heart of `executeEffect`: a claim request is either refused or written, never confirmed
      from an older record, so no dispatch can share a claim. */
  lemma ClaimIsNeverConfirmed(r: Rules, log: History, n: nat, p: Pid, clock: nat, op: string, base: Checkpoint, req: Request)
    requires ValidHistory(r, log) && n <= |log| && RequestOk(log, p, clock, Claim(op, base), req)
    ensures !Decide(r, log[..n], req, false).Confirm?
  {
    var h := log[..n];
    assert !HasEvent(h, req.eventId) by {
      assert forall i :: 0 <= i < n ==> h[i] == log[i] && log[i].eventId != req.eventId;
    }
    if Matches(Last(h), req.expected) {
      MatchingIsBase(log, n, base, r);
      var e := FindEffect(base.state.effects, op);
      FindAfterSet(base.state.effects, op, Unknown, e.value.reference, op);
    }
  }

  lemma UnreadWriteConfirmsNothing(r: Rules, h: History, req: Request)
    requires Decide(r, h, req, false).Write?
    ensures forall e :: e in Decide(r, h, req, false).candidate.state.effects ==> !ConfirmsEffect(Last(h), e)
  {
  }

  lemma ClaimedStatus(base: Checkpoint, op: string, id: EventId)
    requires StatusIn(base, op) == Some(Prepared)
    ensures var found := FindEffect(ClaimRequest(base, op, id).state.effects, op);
      found.Some? && found.value.status == Unknown
  {
    FindAfterSet(base.state.effects, op, Unknown, FindEffect(base.state.effects, op).value.reference, op);
  }

  lemma ResolvedStatus(base: Checkpoint, op: string, outcome: Outcome, reference: Option<string>, id: EventId)
    requires StatusIn(base, op).Some?
    ensures var found := FindEffect(ResolveRequest(base, op, outcome, reference, id).state.effects, op);
      found.Some? && found.value.status == StatusFor(outcome)
  {
    FindAfterSet(base.state.effects, op, StatusFor(outcome), reference, op);
  }

  lemma WrittenFrom(r: Rules, log: History, n: nat, base: Checkpoint, req: Request, readback: bool)
    requires ValidHistory(r, log) && n <= |log| && InLog(log, base) && req.expected == Some(IdentityOf(base))
    requires Decide(r, log[..n], req, readback).Write?
    ensures var cp := Decide(r, log[..n], req, readback).candidate;
      && cp.generation == n + 1 && Links(log[..n], cp) && Last(log[..n]) == Some(base)
      && cp.state == req.state && cp.trigger == req.trigger && cp.eventId == req.eventId
  {
    PrefixIsValid(r, log, n);
    WrittenLinks(r, log[..n], req, readback);
    MatchingIsBase(log, n, base, r);
  }

  lemma WrittenClaim(r: Rules, log: History, p: Pid, clock: nat, n: nat, op: string, base: Checkpoint, req: Request)
    requires ValidHistory(r, log) && n <= |log| && RequestOk(log, p, clock, Claim(op, base), req)
    requires Decide(r, log[..n], req, false).Write?
    ensures CandidateOk(log, p, clock, Claim(op, base), Decide(r, log[..n], req, false).candidate)
  {
    WrittenFrom(r, log, n, base, req, false);
    UnreadWriteConfirmsNothing(r, log[..n], req);
    ClaimedStatus(base, op, req.eventId);
  }

  lemma WrittenResolve(r: Rules, log: History, p: Pid, clock: nat, n: nat, task: Task, req: Request)
    requires ValidHistory(r, log) && n <= |log| && task.Resolve? && RequestOk(log, p, clock, task, req)
    requires Decide(r, log[..n], req, true).Write?
    ensures CandidateOk(log, p, clock, task, Decide(r, log[..n], req, true).candidate)
  {
    var Resolve(op, base, outcome, reference) := task;
    WrittenFrom(r, log, n, base, req, true);
    ResolveOrigin(r, log[..n], base, op, outcome, reference, req.eventId);
    ResolvedStatus(base, op, outcome, reference, req.eventId);
  }

  lemma WrittenIsCandidate(r: Rules, w: World, p: Pid, n: nat, task: Task, req: Request)
    requires Inv(r, w) && n <= |w.log| && RequestOk(w.log, p, w.clock, task, req)
    requires Decide(r, w.log[..n], req, task.Resolve?).Write?
    ensures CandidateOk(w.log, p, w.clock, task, Decide(r, w.log[..n], req, task.Resolve?).candidate)
  {
    match task
    case Materialize =>
      PrefixIsValid(r, w.log, n);
      WrittenLinks(r, w.log[..n], req, false);
      UnreadWriteConfirmsNothing(r, w.log[..n], req);
    case Claim(op, base) => WrittenClaim(r, w.log, p, w.clock, n, op, base, req);
    case Resolve(_, _, _, _) => WrittenResolve(r, w.log, p, w.clock, n, task, req);
  }

  lemma ConfirmedIsInLog(r: Rules, log: History, n: nat, req: Request, readback: bool)
    requires ValidHistory(r, log) && n <= |log| && Decide(r, log[..n], req, readback).Confirm?
    ensures InLog(log, Decide(r, log[..n], req, readback).current)
  {
    assert n > 0 && Decide(r, log[..n], req, readback).current == log[n - 1];
    assert ValidAt(r, log, n - 1);
  }

  lemma ChooseKeepsInv(r: Rules, w: World, p: Pid)
    requires Inv(r, w) && p in w.procs && w.procs[p].Listed?
    ensures Inv(r, AfterChoose(r, w, p, w.procs[p]))
  {
    var me := w.procs[p];
    assert ProcOk(r, w, p, me);
    var w' := AfterChoose(r, w, p, me);
    ListingReadsPrefix(r, w, me.names);
    var n := |me.names|;
    match Decide(r, w.log[..n], me.req, me.task.Resolve?)
    case Reject =>
      LocalStep(r, w, w', p, None);
    case Confirm(current) =>
      ConfirmedIsInLog(r, w.log, n, me.req, me.task.Resolve?);
      if me.task.Claim? {
        ClaimIsNeverConfirmed(r, w.log, n, p, w.clock, me.task.op, me.task.base, me.req);
      }
      LocalStep(r, w, w', p, Some(Confirming(me.task, current)));
    case Write(cp) =>
      WrittenIsCandidate(r, w, p, n, me.task, me.req);
      LocalStep(r, w, w', p, Some(Staging(me.task, cp)));
  }

  lemma StageKeepsInv(r: Rules, w: World, p: Pid)
    requires Inv(r, w) && p in w.procs && w.procs[p].Staging?
    ensures Inv(r, AfterStage(r, w, p, w.procs[p]))
  {
    var me := w.procs[p];
    assert ProcOk(r, w, p, me);
    var w' := AfterStage(r, w, p, me);
    if Stage(p, w.clock) in w.files {
      LocalStep(r, w, w', p, None);
    } else {
      var next := if ValidCheckpoint(r, me.cp) then Some(Publishing(me.task, me.cp, w.clock)) else None;
      if next.Some? && !me.task.Materialize? {
        assert FreshMint(w'.log, p, w'.clock, me.cp.eventId);
      }
      StepKeepsInv(r, w, w', p, next);
    }
  }

  /** The exclusive rename succeeds only for the direct successor of the whole log. */
  lemma RenameExtendsLog(r: Rules, w: World, p: Pid)
    requires Inv(r, w) && p in w.procs && w.procs[p].Publishing?
    requires Generation(w.procs[p].cp.generation) !in w.files
    ensures w.procs[p].cp.generation == |w.log| + 1 && Links(w.log, w.procs[p].cp)
    ensures OriginOk(Last(w.log), w.procs[p].cp, w.procs[p].task)
  {
    var me := w.procs[p];
    assert ProcOk(r, w, p, me);
    assert me.cp.generation == |w.log| + 1;
    assert w.log[..me.cp.generation - 1] == w.log;
  }

  lemma MirrorsGrow(r: Rules, files: map<Name, Checkpoint>, log: History, from: Name, cp: Checkpoint)
    requires Mirrors(r, files, log) && from.Stage? && from in files && files[from] == cp
    requires ValidCheckpoint(r, cp) && Links(log, cp)
    ensures Mirrors(r, (files - {from})[Generation(cp.generation) := cp], log + [cp])
  {
    AppendKeepsHistoryValid(r, log, cp);
  }

  lemma ClaimStays(log: History, cp: Checkpoint, q: Pid, op: string, claim: Checkpoint)
    requires IsClaim(log, q, op, claim)
    ensures IsClaim(log + [cp], q, op, claim)
  {
  }

  lemma RecordsGrow(log: History, origins: seq<Task>, ds: seq<Dispatch>, cp: Checkpoint, task: Task)
    requires OriginsOk(log, origins) && DispatchesOk(log, ds) && OriginOk(Last(log), cp, task)
    ensures OriginsOk(log + [cp], origins + [task]) && DispatchesOk(log + [cp], ds)
  {
    var log', origins' := log + [cp], origins + [task];
    forall i | 0 <= i < |log'|
      ensures OriginAt(log', origins', i)
    {
      assert i < |log| ==> OriginAt(log, origins, i);
      assert log'[..i] == if i < |log| then log[..i] else log;
    }
    forall i | 0 <= i < |ds|
      ensures IsClaim(log', ds[i].owner, ds[i].op, log'[ds[i].generation - 1])
    {
      ClaimStays(log, cp, ds[i].owner, ds[i].op, log[ds[i].generation - 1]);
    }
  }

  lemma RenamedIsPublished(w: World, w': World, p: Pid, task: Task, cp: Checkpoint)
    requires CandidateOk(w.log, p, w.clock, task, cp) && cp.generation == |w.log| + 1
    requires w'.log == w.log + [cp] && w'.dispatches == w.dispatches && DispatchesOk(w.log, w.dispatches)
    ensures Published(w', p, task, cp)
  {
    assert w.log[..cp.generation - 1] == w.log;
  }

  lemma RenameRespects(w: World, w': World, p: Pid, q: Pid, task: Task, cp: Checkpoint, from: Name)
    requires q != p && CandidateOk(w.log, p, w.clock, task, cp) && from.Stage? && from.owner == p
    requires w'.log == w.log + [cp] && w'.dispatches == w.dispatches && w'.clock == w.clock
    requires w'.files == (w.files - {from})[Generation(cp.generation) := cp]
    ensures Respects(w, w', q)
  {
  }

  lemma RenameKeepsInv(r: Rules, w: World, p: Pid)
    requires Inv(r, w) && p in w.procs && w.procs[p].Publishing?
    ensures Inv(r, AfterRename(w, p, w.procs[p]))
  {
    var me := w.procs[p];
    assert ProcOk(r, w, p, me);
    var w' := AfterRename(w, p, me);
    if Generation(me.cp.generation) in w.files {
      LocalStep(r, w, w', p, None);
    } else {
      var from := Stage(p, me.serial);
      RenameExtendsLog(r, w, p);
      MirrorsGrow(r, w.files, w.log, from, me.cp);
      RecordsGrow(w.log, w.origins, w.dispatches, me.cp, me.task);
      RenamedIsPublished(w, w', p, me.task, me.cp);
      forall q | q in w.procs && q != p
        ensures Respects(w, w', q)
      {
        RenameRespects(w, w', p, q, me.task, me.cp, from);
      }
      assert ClockOk(w'.log, w'.clock);
      StepKeepsInv(r, w, w', p, Some(Confirming(me.task, me.cp)));
    }
  }

  lemma DispatchRecorded(log: History, ds: seq<Dispatch>, p: Pid, op: string, cp: Checkpoint)
    requires DispatchesOk(log, ds) && IsClaim(log, p, op, cp)
    requires forall d :: d in ds ==> d.generation != cp.generation
    ensures DispatchesOk(log, ds + [Dispatch(p, op, cp.generation)])
  {
  }

  lemma DispatchRespects(w: World, w': World, p: Pid, op: string, cp: Checkpoint, q: Pid)
    requires q != p && IsClaim(w.log, p, op, cp)
    requires w'.files == w.files && w'.log == w.log && w'.clock == w.clock && w'.dispatches == w.dispatches + [Dispatch(p, op, cp.generation)]
    ensures Respects(w, w', q)
  {
    hide IsClaim;
    forall d | d in w'.dispatches && d !in w.dispatches
      ensures d == Dispatch(p, op, cp.generation)
    {
    }
    assert 1 <= cp.generation <= |w.log| && w.log[cp.generation - 1] == cp by {
      ClaimIsThere(w.log, p, op, cp);
    }
  }

  lemma ClaimIsThere(log: History, p: Pid, op: string, cp: Checkpoint)
    requires IsClaim(log, p, op, cp)
    ensures 1 <= cp.generation <= |log| && log[cp.generation - 1] == cp
  {
  }

  /** The claim that was read back is dispatched. */
  lemma DispatchKeepsInv(r: Rules, w: World, w': World, p: Pid)
    requires Inv(r, w) && p in w.procs && w.procs[p].Checking? && w.procs[p].task.Claim?
    requires var me := w.procs[p];
      w' == Goto(w, p, Some(Executing(me.task.op, me.cp, false))).(dispatches := w.dispatches + [Dispatch(p, me.task.op, me.cp.generation)])
    ensures Inv(r, w')
  {
    hide Mirrors, OriginsOk, ClockOk;
    var me := w.procs[p];
    assert ProcOk(r, w, p, me);
    DispatchRecorded(w.log, w.dispatches, p, me.task.op, me.cp);
    hide DispatchesOk, IsClaim, Respects;
    forall q | q in w.procs && q != p
      ensures Respects(w, w', q)
    {
      DispatchRespects(w, w', p, me.task.op, me.cp, q);
    }
    StepKeepsInv(r, w, w', p, Some(Executing(me.task.op, me.cp, false)));
  }

  lemma AcceptKeepsInv(r: Rules, w: World, p: Pid)
    requires Inv(r, w) && p in w.procs && w.procs[p].Checking?
    ensures Inv(r, AfterAccept(r, w, p, w.procs[p]))
  {
    hide Loaded, Matches, Mirrors, OriginsOk, ClockOk, ProcOk;
    var w' := AfterAccept(r, w, p, w.procs[p]);
    if w' == Goto(w, p, None) {
      LocalStep(r, w, w', p, None);
    } else {
      DispatchKeepsInv(r, w, w', p);
    }
  }

  lemma BeginningKeepsInv(r: Rules, w: World, s: Step)
    requires Inv(r, w) && Enabled(w, s, false) && (s.Look? || s.Ask?)
    ensures Inv(r, Do(r, w, s))
  {
    hide Mirrors, DispatchesOk, OriginsOk, ClockOk, GenerationsIn;
    ListingIsCurrent(r, w);
    match s
    case Look(p, intent, op, expected) =>
      LocalStep(r, w, Do(r, w, s), p, Some(Looking(intent, op, expected, GenerationsIn(w.files))));
    case Ask(p, req) => LocalStep(r, w, Do(r, w, s), p, Some(Entering(req, Materialize)));
  }

  lemma ListingKeepsInv(r: Rules, w: World, s: Step)
    requires Inv(r, w) && Enabled(w, s, false) && (s.List? || s.Relist? || s.Fire?)
    ensures Inv(r, Do(r, w, s))
  {
    hide Mirrors, DispatchesOk, OriginsOk, ClockOk, GenerationsIn;
    ListingIsCurrent(r, w);
    assert ProcOk(r, w, s.p, w.procs[s.p]);
    match s
    case List(p) => LocalStep(r, w, Do(r, w, s), p, Some(Listed(w.procs[p].req, w.procs[p].task, GenerationsIn(w.files))));
    case Relist(p) => LocalStep(r, w, Do(r, w, s), p, Some(Checking(w.procs[p].task, w.procs[p].cp, GenerationsIn(w.files))));
    case Fire(p) => LocalStep(r, w, Do(r, w, s), p, Some(w.procs[p].(fired := true)));
  }

  lemma EndingKeepsInv(r: Rules, w: World, s: Step)
    requires Inv(r, w) && Enabled(w, s, false) && (s.Detach? || s.Return? || s.Stop?)
    ensures Inv(r, Do(r, w, s))
  {
    hide Mirrors, DispatchesOk, OriginsOk, ClockOk, ProcOk;
    LocalStep(r, w, Do(r, w, s), s.p, None);
  }

  lemma InvIsInductive(r: Rules, w: World, s: Step)
    requires Inv(r, w) && Enabled(w, s, false)
    ensures Inv(r, Do(r, w, s))
  {
    hide Inv, AfterLoad, AfterAnswer, AfterChoose, AfterStage, AfterRename, AfterAccept;
    match s
    case Load(p) => LoadKeepsInv(r, w, p);
    case Answer(p, outcome, reference) => AnswerKeepsInv(r, w, p, outcome, reference);
    case Choose(p) => ChooseKeepsInv(r, w, p);
    case StageFile(p) => StageKeepsInv(r, w, p);
    case Rename(p) => RenameKeepsInv(r, w, p);
    case Accept(p) => AcceptKeepsInv(r, w, p);
    case Land(op) => SameProcs(r, w, Do(r, w, s));
    case Lose(op) => SameProcs(r, w, Do(r, w, s));
    case Look(_, _, _, _) => BeginningKeepsInv(r, w, s);
    case Ask(_, _) => BeginningKeepsInv(r, w, s);
    case List(_) => ListingKeepsInv(r, w, s);
    case Relist(_) => ListingKeepsInv(r, w, s);
    case Fire(_) => ListingKeepsInv(r, w, s);
    case _ => EndingKeepsInv(r, w, s);
  }

  lemma SameProcs(r: Rules, w: World, w': World)
    requires Inv(r, w) && w'.files == w.files && w'.log == w.log && w'.origins == w.origins
    requires w'.dispatches == w.dispatches && w'.clock == w.clock && w'.procs == w.procs
    ensures Inv(r, w')
  {
    forall q | q in w'.procs
      ensures ProcOk(r, w', q, w'.procs[q])
    {
      ProcStaysOk(r, w, w', q, w.procs[q]);
    }
  }
}
