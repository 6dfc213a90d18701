/** What a process gets done when the others stand still: from every world that the invariant
    describes, an admissible request is published, a prepared effect is executed once, and its
    outcome is recorded. */
module ResumeProgress {
  import opened Wrappers
  import opened ResumeSchema
  import opened ResumeHistory
  import opened ResumeProtocol
  import opened ResumeSafety
  import opened ResumeAdmission
  import ResumeStore
  import ResumeExactlyOnce

  /** Where the steps lead; nothing if one of them cannot be taken. */
  function After(r: Rules, contract: bool, w: World, steps: seq<Step>): Option<World>
    decreases |steps|
  {
    if steps == [] then Some(w)
    else if !Enabled(w, steps[0], contract) || !Enabled(w, steps[0], false) then None
    else After(r, contract, Do(r, w, steps[0]), steps[1..])
  }

  lemma {:induction false} OneThenRest(r: Rules, contract: bool, w: World, steps: seq<Step>, rest: seq<Step>)
    requires After(r, contract, w, steps).Some?
    ensures After(r, contract, w, steps + rest) == After(r, contract, After(r, contract, w, steps).value, rest)
    decreases |steps|
  {
    if steps == [] {
      assert steps + rest == rest;
    } else {
      assert (steps + rest)[1..] == steps[1..] + rest;
      OneThenRest(r, contract, Do(r, w, steps[0]), steps[1..], rest);
    }
  }

  ghost predicate Takes(r: Rules, contract: bool, w: World, s: Step, w': World) {
    Enabled(w, s, contract) && Enabled(w, s, false) && w' == Do(r, w, s)
  }

  lemma NoStepYet(r: Rules, contract: bool, w: World)
    ensures After(r, contract, w, []) == Some(w)
  {
  }

  lemma OneMore(r: Rules, contract: bool, w: World, steps: seq<Step>, mid: World, s: Step, w': World)
    requires After(r, contract, w, steps) == Some(mid) && Takes(r, contract, mid, s, w')
    ensures After(r, contract, w, steps + [s]) == Some(w')
  {
    hide Do, Enabled;
    OneThenRest(r, contract, w, steps, [s]);
    assert [s][1..] == [];
    assert After(r, contract, w', []) == Some(w');
  }

  lemma Keeps(r: Rules, contract: bool, w: World, s: Step, w': World)
    requires Ready(r, w) && Takes(r, contract, w, s, w')
    ensures Ready(r, w')
  {
    hide Inv, Do, Enabled, NoneStagedAhead;
    InvIsInductive(r, w, s);
    NothingIsStagedAhead(r, w, s);
  }

  /** Staging files are named by serials that are used up. */
  ghost predicate NoneStagedAhead(w: World) {
    forall q: Pid, n: nat :: Stage(q, n) in w.files ==> n < w.clock
  }

  lemma NothingIsStagedAhead(r: Rules, w: World, s: Step)
    requires NoneStagedAhead(w) && Enabled(w, s, false)
    ensures NoneStagedAhead(Do(r, w, s))
  {
    hide Loaded, FindEffect, Decide, ValidCheckpoint, ClaimRequest, ResolveRequest, GenerationsIn;
  }

  ghost predicate Ready(r: Rules, w: World) {
    Inv(r, w) && NoneStagedAhead(w)
  }

  predicate By(s: Step, p: Pid) {
    match s
    case Land(_) => false
    case Lose(_) => false
    case _ => s.p == p
  }

  predicate AllBy(steps: seq<Step>, p: Pid) {
    forall i :: 0 <= i < |steps| ==> By(steps[i], p)
  }

  lemma LoadedIsLog(r: Rules, w: World)
    requires Inv(r, w)
    ensures Loaded(r, w.files, GenerationsIn(w.files)) == Some(w.log) && ValidHistory(r, w.log)
  {
    ListingIsCurrent(r, w);
    ListingReadsPrefix(r, w, GenerationsIn(w.files));
    assert w.log[..|w.log|] == w.log;
  }

  lemma CandidateIsValid(r: Rules, h: History, req: Request, readback: bool)
    requires ValidHistory(r, h) && Admissible(r, h, req, readback) && |h| < MAX_SAFE_INTEGER
    ensures Decide(r, h, req, readback) == Write(Candidate(r, h, req)) && ValidCheckpoint(r, Candidate(r, h, req))
    ensures !AlreadyMet(r, h, req)
  {
    hide Admissible, AlreadyMet, ValidState, ValidHistory;
    DecidedExactly(r, h, req, readback);
    WrittenLinks(r, h, req, readback);
  }

  // ---- One step each ----

  lemma Lists(r: Rules, contract: bool, w: World, p: Pid, req: Request, task: Task)
    requires p in w.procs && w.procs[p] == Entering(req, task)
    ensures Takes(r, contract, w, List(p), Goto(w, p, Some(Listed(req, task, GenerationsIn(w.files)))))
  {
  }

  lemma Chooses(r: Rules, contract: bool, w: World, p: Pid, req: Request, task: Task)
    requires Ready(r, w) && p in w.procs && w.procs[p] == Listed(req, task, GenerationsIn(w.files))
    requires Admissible(r, w.log, req, task.Resolve?) && |w.log| < MAX_SAFE_INTEGER
    ensures Takes(r, contract, w, Choose(p), Goto(w, p, Some(Staging(task, Candidate(r, w.log, req)))))
    ensures ValidCheckpoint(r, Candidate(r, w.log, req))
  {
    hide Inv, NoneStagedAhead, Admissible, AlreadyMet, Decide, Loaded, GenerationsIn, Candidate, ValidCheckpoint, ValidHistory;
    LoadedIsLog(r, w);
    CandidateIsValid(r, w.log, req, task.Resolve?);
  }

  lemma Stages(r: Rules, contract: bool, w: World, p: Pid, task: Task, cp: Checkpoint)
    requires Ready(r, w) && p in w.procs && w.procs[p] == Staging(task, cp) && ValidCheckpoint(r, cp)
    ensures Takes(r, contract, w, StageFile(p),
              Goto(w.(files := w.files[Stage(p, w.clock) := cp], clock := w.clock + 1), p, Some(Publishing(task, cp, w.clock))))
  {
    hide ValidCheckpoint, Inv;
  }

  function Renamed(w: World, p: Pid, task: Task, cp: Checkpoint, serial: nat): World {
    Goto(w, p, Some(Confirming(task, cp))).(
      files := (w.files - {Stage(p, serial)})[Generation(cp.generation) := cp], log := w.log + [cp], origins := w.origins + [task])
  }

  lemma Renames(r: Rules, contract: bool, w: World, p: Pid, task: Task, cp: Checkpoint, serial: nat)
    requires Ready(r, w) && p in w.procs && w.procs[p] == Publishing(task, cp, serial) && cp.generation == |w.log| + 1
    requires Stage(p, serial) in w.files && w.files[Stage(p, serial)] == cp
    ensures Takes(r, contract, w, Rename(p), Renamed(w, p, task, cp, serial))
  {
    hide Inv, NoneStagedAhead;
    NotYetThere(r, w, cp.generation);
  }

  /** A process that is about to publish an admissible request publishes it. */
  lemma PublishingSteps(r: Rules, contract: bool, w: World, p: Pid, req: Request, task: Task) returns (w1: World, w2: World, w3: World, w4: World)
    requires Ready(r, w) && p in w.procs && w.procs[p] == Entering(req, task)
    requires Admissible(r, w.log, req, task.Resolve?) && |w.log| < MAX_SAFE_INTEGER
    ensures Takes(r, contract, w, List(p), w1) && Takes(r, contract, w1, Choose(p), w2)
    ensures Takes(r, contract, w2, StageFile(p), w3) && Takes(r, contract, w3, Rename(p), w4) && Ready(r, w4)
    ensures w4.log == w.log + [Candidate(r, w.log, req)] && w4.procs == w.procs[p := Confirming(task, Candidate(r, w.log, req))]
    ensures w4.applied == w.applied && w4.dispatches == w.dispatches && w4.inflight == w.inflight
  {
    hide Ready, Admissible, ValidCheckpoint, Candidate, GenerationsIn, Takes;
    var cp, serial := Candidate(r, w.log, req), w.clock;
    CandidateFields(r, w.log, req);
    w1 := Goto(w, p, Some(Listed(req, task, GenerationsIn(w.files))));
    Lists(r, contract, w, p, req, task);
    Keeps(r, contract, w, List(p), w1);
    w2 := Goto(w1, p, Some(Staging(task, cp)));
    Chooses(r, contract, w1, p, req, task);
    Keeps(r, contract, w1, Choose(p), w2);
    w3 := Goto(w2.(files := w2.files[Stage(p, serial) := cp], clock := serial + 1), p, Some(Publishing(task, cp, serial)));
    Stages(r, contract, w2, p, task, cp);
    Keeps(r, contract, w2, StageFile(p), w3);
    w4 := Renamed(w3, p, task, cp, serial);
    Renames(r, contract, w3, p, task, cp, serial);
    Keeps(r, contract, w3, Rename(p), w4);
  }

  lemma Publishes(r: Rules, contract: bool, w: World, steps: seq<Step>, mid: World, p: Pid, req: Request, task: Task)
    returns (more: seq<Step>, w': World)
    requires After(r, contract, w, steps) == Some(mid) && AllBy(steps, p) && Ready(r, mid)
    requires p in mid.procs && mid.procs[p] == Entering(req, task)
    requires Admissible(r, mid.log, req, task.Resolve?) && |mid.log| < MAX_SAFE_INTEGER
    ensures After(r, contract, w, more) == Some(w') && AllBy(more, p) && Ready(r, w')
    ensures w'.log == mid.log + [Candidate(r, mid.log, req)] && w'.procs == mid.procs[p := Confirming(task, Candidate(r, mid.log, req))]
    ensures w'.applied == mid.applied && w'.dispatches == mid.dispatches && w'.inflight == mid.inflight
  {
    hide After, Ready, Admissible, Candidate, Takes;
    var w1, w2, w3;
    w1, w2, w3, w' := PublishingSteps(r, contract, mid, p, req, task);
    more := steps + [List(p)];
    OneMore(r, contract, w, steps, mid, List(p), w1);
    OneMore(r, contract, w, more, w1, Choose(p), w2);
    more := more + [Choose(p)];
    OneMore(r, contract, w, more, w2, StageFile(p), w3);
    more := more + [StageFile(p)];
    OneMore(r, contract, w, more, w3, Rename(p), w');
    more := more + [Rename(p)];
  }

  lemma NotYetThere(r: Rules, w: World, n: nat)
    requires Inv(r, w) && n == |w.log| + 1
    ensures Generation(n) !in w.files
  {
  }

  /** An admissible request of a new process is published. */
  lemma RequestIsPublished(r: Rules, contract: bool, w: World, p: Pid, req: Request) returns (steps: seq<Step>, w': World)
    requires Ready(r, w) && p !in w.procs && req.eventId.Named?
    requires Admissible(r, w.log, req, false) && |w.log| < MAX_SAFE_INTEGER
    ensures After(r, contract, w, steps) == Some(w') && AllBy(steps, p) && Ready(r, w')
    ensures w'.log == w.log + [Candidate(r, w.log, req)] && w'.procs.Keys == w.procs.Keys + {p}
    ensures w'.applied == w.applied && w'.dispatches == w.dispatches
  {
    var w1 := Goto(w, p, Some(Entering(req, Materialize)));
    assert After(r, contract, w, []) == Some(w) && Takes(r, contract, w, Ask(p, req), w1);
    hide After, Ready, Admissible, Candidate, Takes;
    OneMore(r, contract, w, [], w, Ask(p, req), w1);
    Keeps(r, contract, w, Ask(p, req), w1);
    steps, w' := Publishes(r, contract, w, [] + [Ask(p, req)], w1, p, req, Materialize);
  }

  // ---- Executing ----

  lemma Looks(r: Rules, contract: bool, w: World, p: Pid, intent: Intent, op: string, expected: Identity)
    requires p !in w.procs
    ensures Takes(r, contract, w, Look(p, intent, op, expected), Goto(w, p, Some(Looking(intent, op, expected, GenerationsIn(w.files)))))
  {
  }

  /** The base that a process finds the operation in. */
  ghost predicate IsBase(log: History, base: Checkpoint, op: string, status: EffectStatus) {
    && log != [] && base == log[|log| - 1]
    && FindEffect(base.state.effects, op).Some? && FindEffect(base.state.effects, op).value.status == status
  }

  lemma LoadsToClaim(r: Rules, contract: bool, w: World, p: Pid, op: string, base: Checkpoint)
    requires Inv(r, w) && IsBase(w.log, base, op, Prepared)
    requires p in w.procs && w.procs[p] == Looking(Execute, op, IdentityOf(base), GenerationsIn(w.files))
    ensures Takes(r, contract, w, Load(p),
              Goto(w, p, Some(Entering(ClaimRequest(base, op, Minted(p, w.clock)), Claim(op, base)))).(clock := w.clock + 1))
  {
    hide Inv, Loaded, GenerationsIn, FindEffect, ValidHistory;
    LoadedIsLog(r, w);
  }

  lemma LoadsToQuery(r: Rules, contract: bool, w: World, p: Pid, op: string, base: Checkpoint, status: EffectStatus)
    requires Inv(r, w) && IsBase(w.log, base, op, status) && !Confirmed(status)
    requires p in w.procs && w.procs[p] == Looking(Recover, op, IdentityOf(base), GenerationsIn(w.files))
    ensures Takes(r, contract, w, Load(p), Goto(w, p, Some(Querying(op, base))))
  {
    hide Inv, Loaded, GenerationsIn, FindEffect, ValidHistory;
    LoadedIsLog(r, w);
  }

  lemma EnteringSteps(r: Rules, contract: bool, w: World, p: Pid, op: string, base: Checkpoint, cp: Checkpoint)
    requires Inv(r, w) && p in w.procs && w.procs[p] == Confirming(Claim(op, base), cp) && w.log != [] && cp == w.log[|w.log| - 1]
    ensures var w1 := Goto(w, p, Some(Checking(Claim(op, base), cp, GenerationsIn(w.files))));
      var w2 := Goto(w1, p, Some(Executing(op, cp, false))).(dispatches := w1.dispatches + [Dispatch(p, op, cp.generation)]);
      var w3 := Goto(w2, p, Some(Executing(op, cp, true))).(applied := w2.applied + multiset{op});
      Takes(r, contract, w, Relist(p), w1) && Takes(r, contract, w1, Accept(p), w2) && Takes(r, contract, w2, Fire(p), w3)
  {
    hide Inv, Loaded, GenerationsIn, ValidHistory;
    LoadedIsLog(r, w);
  }

  /** A process whose claim is published enters the callback, which applies the effect. */
  lemma Enters(r: Rules, contract: bool, w: World, steps: seq<Step>, mid: World, p: Pid, op: string, base: Checkpoint, cp: Checkpoint)
    returns (more: seq<Step>, w': World)
    requires After(r, contract, w, steps) == Some(mid) && AllBy(steps, p) && Ready(r, mid)
    requires p in mid.procs && mid.procs[p] == Confirming(Claim(op, base), cp) && mid.log != [] && cp == mid.log[|mid.log| - 1]
    ensures After(r, contract, w, more) == Some(w') && AllBy(more, p) && Ready(r, w')
    ensures w'.log == mid.log && w'.procs.Keys == mid.procs.Keys && w'.inflight == mid.inflight
    ensures w'.dispatches == mid.dispatches + [Dispatch(p, op, cp.generation)] && w'.applied == mid.applied + multiset{op}
  {
    hide After, Inv, NoneStagedAhead, Takes, GenerationsIn;
    var w1 := Goto(mid, p, Some(Checking(Claim(op, base), cp, GenerationsIn(mid.files))));
    var w2 := Goto(w1, p, Some(Executing(op, cp, false))).(dispatches := w1.dispatches + [Dispatch(p, op, cp.generation)]);
    var w3 := Goto(w2, p, Some(Executing(op, cp, true))).(applied := w2.applied + multiset{op});
    EnteringSteps(r, contract, mid, p, op, base, cp);
    OneMore(r, contract, w, steps, mid, Relist(p), w1);
    Keeps(r, contract, mid, Relist(p), w1);
    more := steps + [Relist(p)];
    OneMore(r, contract, w, more, w1, Accept(p), w2);
    Keeps(r, contract, w1, Accept(p), w2);
    more := more + [Accept(p)];
    OneMore(r, contract, w, more, w2, Fire(p), w3);
    Keeps(r, contract, w2, Fire(p), w3);
    more, w' := more + [Fire(p)], w3;
  }

  lemma ClaimIsNew(r: Rules, w: World, id: EventId)
    requires Inv(r, w) && id.Minted? && w.clock <= id.serial
    ensures !HasEvent(w.log, id)
  {
  }

  /** The last state holds the effect, and its operation may get another status and reference. */
  ghost predicate CanBecome(r: Rules, w: World, e: Effect, status: EffectStatus, reference: Option<string>) {
    && w.log != [] && |w.log| < MAX_SAFE_INTEGER && e in w.log[|w.log| - 1].state.effects
    && r.fits(WithEffect(w.log[|w.log| - 1].state, e.operationId, status, reference))
  }

  /** One checkpoint more, with the operation's status changed. */
  ghost predicate Became(w: World, w': World, op: string, trigger: Trigger, status: EffectStatus, reference: Option<string>) {
    && w.log != [] && |w'.log| == |w.log| + 1 && w'.log[..|w.log|] == w.log && w'.log[|w.log|].trigger == trigger
    && w'.log[|w.log|].state == WithEffect(w.log[|w.log| - 1].state, op, status, reference)
  }

  lemma BaseHas(r: Rules, w: World, e: Effect, status: EffectStatus, reference: Option<string>)
    requires Inv(r, w) && CanBecome(r, w, e, status, reference)
    ensures w.log != [] && |w.log| < MAX_SAFE_INTEGER && IsBase(w.log, w.log[|w.log| - 1], e.operationId, e.status)
  {
    ResumeStore.OneOfIts(r, w.log, e.operationId, e);
  }

  lemma ClaimIsAdmissible(r: Rules, w: World, e: Effect, id: EventId)
    requires Inv(r, w) && CanBecome(r, w, e, Unknown, None) && e.status == Prepared && id.Minted? && w.clock <= id.serial
    ensures var req := ClaimRequest(w.log[|w.log| - 1], e.operationId, id);
      && Admissible(r, w.log, req, false) && req.trigger == EffectExecuted
      && req.state == WithEffect(w.log[|w.log| - 1].state, e.operationId, Unknown, None)
  {
    ClaimIsNew(r, w, id);
    assert ValidHistory(r, w.log);
    hide Inv, Admissible, AlreadyMet, ValidHistory;
    ResumeStore.ClaimIsTaken(r, w.log, e.operationId, e, id);
  }

  /** Up to the claim that is about to be published. */
  lemma ClaimingSteps(r: Rules, contract: bool, w: World, p: Pid, e: Effect) returns (w1: World, w2: World)
    requires Ready(r, w) && p !in w.procs && e.status == Prepared && CanBecome(r, w, e, Unknown, None)
    ensures var base := w.log[|w.log| - 1];
      var req := ClaimRequest(base, e.operationId, Minted(p, w.clock));
      && Takes(r, contract, w, Look(p, Execute, e.operationId, IdentityOf(base)), w1)
      && Takes(r, contract, w1, Load(p), w2) && Ready(r, w2)
      && w2.procs == w.procs[p := Entering(req, Claim(e.operationId, base))]
      && w2.log == w.log && w2.dispatches == w.dispatches && w2.applied == w.applied
      && Admissible(r, w.log, req, false) && req.trigger == EffectExecuted
      && req.state == WithEffect(base.state, e.operationId, Unknown, None)
  {
    hide Admissible, GenerationsIn, WithEffect, ClaimRequest, IdentityOf, Takes, Inv, NoneStagedAhead, IsBase, CanBecome;
    BaseHas(r, w, e, Unknown, None);
    var op, base, id := e.operationId, w.log[|w.log| - 1], Minted(p, w.clock);
    ClaimIsAdmissible(r, w, e, id);
    w1 := Goto(w, p, Some(Looking(Execute, op, IdentityOf(base), GenerationsIn(w.files))));
    Looks(r, contract, w, p, Execute, op, IdentityOf(base));
    Keeps(r, contract, w, Look(p, Execute, op, IdentityOf(base)), w1);
    w2 := Goto(w1, p, Some(Entering(ClaimRequest(base, op, id), Claim(op, base)))).(clock := w.clock + 1);
    LoadsToClaim(r, contract, w1, p, op, base);
    Keeps(r, contract, w1, Load(p), w2);
  }

  lemma CandidateFields(r: Rules, h: History, req: Request)
    ensures var cp := Candidate(r, h, req); cp.state == req.state && cp.trigger == req.trigger && cp.generation == |h| + 1
  {
  }

  /** A prepared effect, its process running alone, is claimed and executed: its claim is published,
      the callback entered once, and the effect applied. */
  lemma EffectIsExecuted(r: Rules, contract: bool, w: World, p: Pid, e: Effect) returns (steps: seq<Step>, w': World)
    requires Ready(r, w) && p !in w.procs && e.status == Prepared && CanBecome(r, w, e, Unknown, None)
    ensures After(r, contract, w, steps) == Some(w') && AllBy(steps, p) && Ready(r, w')
    ensures Became(w, w', e.operationId, EffectExecuted, Unknown, None) && w'.procs.Keys == w.procs.Keys + {p}
    ensures w'.dispatches == w.dispatches + [Dispatch(p, e.operationId, |w.log| + 1)] && w'.applied == w.applied + multiset{e.operationId}
  {
    hide After, Admissible, WithEffect, ClaimRequest, Candidate, IdentityOf, Takes, Inv, NoneStagedAhead, CanBecome, IsBase;
    BaseHas(r, w, e, Unknown, None);
    var op, base := e.operationId, w.log[|w.log| - 1];
    var req := ClaimRequest(base, op, Minted(p, w.clock));
    NoStepYet(r, contract, w);
    CandidateFields(r, w.log, req);
    var w1, w2 := ClaimingSteps(r, contract, w, p, e);
    var w3;
    OneMore(r, contract, w, [], w, Look(p, Execute, op, IdentityOf(base)), w1);
    steps := [] + [Look(p, Execute, op, IdentityOf(base))];
    OneMore(r, contract, w, steps, w1, Load(p), w2);
    steps, w3 := Publishes(r, contract, w, steps + [Load(p)], w2, p, req, Claim(op, base));
    steps, w' := Enters(r, contract, w, steps, w3, p, op, base, Candidate(r, w.log, req));
  }

  lemma OutcomeIsAdmissible(r: Rules, w: World, e: Effect, outcome: Outcome, reference: Option<string>, id: EventId)
    requires Inv(r, w) && CanBecome(r, w, e, StatusFor(outcome), reference) && e.status !in REFERENCED
    requires ResumeStore.Answerable(r, outcome, reference) && (outcome.Inconclusive? ==> e.status == Prepared)
    requires id.Minted? && w.clock <= id.serial
    ensures var req := ResolveRequest(w.log[|w.log| - 1], e.operationId, outcome, reference, id);
      && Admissible(r, w.log, req, true) && req.trigger == EffectReadback
      && req.state == WithEffect(w.log[|w.log| - 1].state, e.operationId, StatusFor(outcome), reference)
  {
    ClaimIsNew(r, w, id);
    assert ValidHistory(r, w.log);
    hide Inv, Admissible, AlreadyMet, ValidHistory, WithEffect;
    ResumeStore.ResolveIsTaken(r, w.log, e.operationId, e, outcome, reference, id);
    WithDiffers(w.log[|w.log| - 1].state, e, e.operationId, StatusFor(outcome), reference);
  }

  lemma Answers(r: Rules, contract: bool, w: World, p: Pid, op: string, base: Checkpoint, outcome: Outcome, reference: Option<string>)
    requires p in w.procs && w.procs[p] == Querying(op, base) && ResumeStore.Answerable(r, outcome, reference)
    requires contract ==> Truthful(w, op, outcome)
    ensures Takes(r, contract, w, Answer(p, outcome, reference),
              Goto(w, p, Some(Entering(ResolveRequest(base, op, outcome, reference, Minted(p, w.clock)), Resolve(op, base, outcome, reference)))).(clock := w.clock + 1))
  {
    hide Truthful, ResolveRequest;
  }

  lemma StaysTruthful(w: World, w': World, p: Pid, base: Checkpoint, op: string, outcome: Outcome)
    requires p !in w.procs && w'.procs == w.procs[p := Querying(op, base)] && w'.applied == w.applied && w'.inflight == w.inflight
    requires Truthful(w, op, outcome)
    ensures Truthful(w', op, outcome)
  {
  }

  /** Up to the outcome that is about to be published. */
  lemma ResolvingSteps(r: Rules, contract: bool, w: World, p: Pid, e: Effect, outcome: Outcome, reference: Option<string>)
    returns (w1: World, w2: World, w3: World)
    requires Ready(r, w) && p !in w.procs && e.status !in REFERENCED && CanBecome(r, w, e, StatusFor(outcome), reference)
    requires ResumeStore.Answerable(r, outcome, reference) && (outcome.Inconclusive? ==> e.status == Prepared)
    requires contract ==> Truthful(w, e.operationId, outcome)
    ensures var base := w.log[|w.log| - 1];
      var req := ResolveRequest(base, e.operationId, outcome, reference, Minted(p, w.clock));
      && Takes(r, contract, w, Look(p, Recover, e.operationId, IdentityOf(base)), w1) && Takes(r, contract, w1, Load(p), w2)
      && Takes(r, contract, w2, Answer(p, outcome, reference), w3) && Ready(r, w3)
      && w3.procs == w.procs[p := Entering(req, Resolve(e.operationId, base, outcome, reference))]
      && w3.log == w.log && w3.dispatches == w.dispatches && w3.applied == w.applied
      && Admissible(r, w.log, req, true) && req.trigger == EffectReadback
      && req.state == WithEffect(base.state, e.operationId, StatusFor(outcome), reference)
  {
    hide Admissible, GenerationsIn, WithEffect, ResolveRequest, IdentityOf, Takes, Inv, NoneStagedAhead, Truthful, IsBase, CanBecome;
    BaseHas(r, w, e, StatusFor(outcome), reference);
    var op, base, id := e.operationId, w.log[|w.log| - 1], Minted(p, w.clock);
    OutcomeIsAdmissible(r, w, e, outcome, reference, id);
    w1 := Goto(w, p, Some(Looking(Recover, op, IdentityOf(base), GenerationsIn(w.files))));
    Looks(r, contract, w, p, Recover, op, IdentityOf(base));
    Keeps(r, contract, w, Look(p, Recover, op, IdentityOf(base)), w1);
    w2 := Goto(w1, p, Some(Querying(op, base)));
    LoadsToQuery(r, contract, w1, p, op, base, e.status);
    Keeps(r, contract, w1, Load(p), w2);
    if contract {
      StaysTruthful(w, w2, p, base, op, outcome);
    }
    w3 := Goto(w2, p, Some(Entering(ResolveRequest(base, op, outcome, reference, id), Resolve(op, base, outcome, reference)))).(clock := w.clock + 1);
    Answers(r, contract, w2, p, op, base, outcome, reference);
    Keeps(r, contract, w2, Answer(p, outcome, reference), w3);
  }

  /** What the authority answers about an effect that is not confirmed is recorded. */
  lemma OutcomeIsRecorded(r: Rules, contract: bool, w: World, p: Pid, e: Effect, outcome: Outcome, reference: Option<string>)
    returns (steps: seq<Step>, w': World)
    requires Ready(r, w) && p !in w.procs && e.status !in REFERENCED && CanBecome(r, w, e, StatusFor(outcome), reference)
    requires ResumeStore.Answerable(r, outcome, reference) && (outcome.Inconclusive? ==> e.status == Prepared)
    requires contract ==> Truthful(w, e.operationId, outcome)
    ensures After(r, contract, w, steps) == Some(w') && AllBy(steps, p) && Ready(r, w')
    ensures Became(w, w', e.operationId, EffectReadback, StatusFor(outcome), reference) && w'.procs.Keys == w.procs.Keys + {p}
    ensures w'.dispatches == w.dispatches && w'.applied == w.applied
  {
    hide After, Admissible, WithEffect, ResolveRequest, Candidate, IdentityOf, Takes, Inv, NoneStagedAhead, CanBecome, IsBase, Truthful;
    BaseHas(r, w, e, StatusFor(outcome), reference);
    var op, base := e.operationId, w.log[|w.log| - 1];
    var req := ResolveRequest(base, op, outcome, reference, Minted(p, w.clock));
    NoStepYet(r, contract, w);
    CandidateFields(r, w.log, req);
    var w1, w2, w3 := ResolvingSteps(r, contract, w, p, e, outcome, reference);
    OneMore(r, contract, w, [], w, Look(p, Recover, op, IdentityOf(base)), w1);
    steps := [] + [Look(p, Recover, op, IdentityOf(base))];
    OneMore(r, contract, w, steps, w1, Load(p), w2);
    steps := steps + [Load(p)];
    OneMore(r, contract, w, steps, w2, Answer(p, outcome, reference), w3);
    steps, w' := Publishes(r, contract, w, steps + [Answer(p, outcome, reference)], w3, p, req, Resolve(op, base, outcome, reference));
  }

  // ---- From claim to commitment ----

  lemma {:induction false} RunIsReady(r: Rules, contract: bool, ws: seq<World>, i: nat)
    requires Run(r, contract, ws) && i < |ws|
    ensures Ready(r, ws[i])
  {
    hide Inv, Do, Enabled;
    if i == 0 {
      StartIsReady(r);
    } else {
      RunIsReady(r, contract, ws, i - 1);
      assert Next(r, contract, ws[i - 1], ws[i - 1 + 1]);
      var s :| Enabled(ws[i - 1], s, contract) && Enabled(ws[i - 1], s, false) && ws[i] == Do(r, ws[i - 1], s);
      InvIsInductive(r, ws[i - 1], s);
      NothingIsStagedAhead(r, ws[i - 1], s);
    }
  }

  lemma StartIsReady(r: Rules)
    ensures Ready(r, Init)
  {
  }

  lemma TwiceIsOnce(s: State, op: string, status: EffectStatus, reference: Option<string>, status': EffectStatus, reference': Option<string>)
    ensures WithEffect(WithEffect(s, op, status, reference), op, status', reference') == WithEffect(s, op, status', reference')
  {
  }

  lemma StillThere(s: State, e: Effect, status: EffectStatus, reference: Option<string>)
    requires e in s.effects
    ensures e.(status := status, reference := reference) in WithEffect(s, e.operationId, status, reference).effects
  {
    var i :| 0 <= i < |s.effects| && s.effects[i] == e;
    assert WithEffect(s, e.operationId, status, reference).effects[i] == e.(status := status, reference := reference);
  }

  /** Wherever a run has come to: an effect that the last checkpoint holds prepared can be executed
      by one new process and confirmed by another, and is applied once more when it is committed. */
  lemma PreparedCanBeCommitted(r: Rules, ws: seq<World>, p: Pid, q: Pid, e: Effect, reference: string) returns (steps: seq<Step>, w': World)
    requires Run(r, true, ws) && p !in ws[|ws| - 1].procs && q !in ws[|ws| - 1].procs && p != q
    requires e.status == Prepared && CanBecome(r, ws[|ws| - 1], e, Unknown, None)
    requires CanBecome(r, ws[|ws| - 1], e, Committed, Some(reference)) && r.safe(reference) && |ws[|ws| - 1].log| + 1 < MAX_SAFE_INTEGER
    ensures var w := ws[|ws| - 1];
      && After(r, true, w, steps) == Some(w') && |w'.log| == |w.log| + 2 && w'.log[..|w.log|] == w.log
      && w'.log[|w.log| + 1].state == WithEffect(w.log[|w.log| - 1].state, e.operationId, Committed, Some(reference))
      && w'.applied == w.applied + multiset{e.operationId}
      && w'.dispatches == w.dispatches + [Dispatch(p, e.operationId, |w.log| + 1)]
  {
    hide After, Inv, NoneStagedAhead, WithEffect, Next;
    var w := ws[|ws| - 1];
    RunIsReady(r, true, ws, |ws| - 1);
    var mid, claim;
    claim, mid := EffectIsExecuted(r, true, w, p, e);
    var state, f := w.log[|w.log| - 1].state, e.(status := Unknown, reference := None);
    StillThere(state, e, Unknown, None);
    TwiceIsOnce(state, e.operationId, Unknown, None, Committed, Some(reference));
    steps, w' := OutcomeIsRecorded(r, true, mid, q, f, Applied, Some(reference));
    OneThenRest(r, true, w, claim, steps);
    steps := claim + steps;
    assert w'.log[..|w.log|] == w'.log[..|mid.log|][..|w.log|];
  }
}
