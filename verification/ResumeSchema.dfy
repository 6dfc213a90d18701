/** The checkpoint schema of src/resume-checkpoint-schema.ts and the decision that
    `publish` takes on a history it has read.

    Texts are strings, but the fingerprint function, the credential screen and the
    payload limits are parameters collected in `Rules`: nothing below depends on how
    a fingerprint is computed, not even on its injectivity. */
module ResumeSchema {
  import opened Wrappers

  const MAX_LIST := 1024
  const MAX_SAFE_INTEGER := 0x1F_FFFF_FFFF_FFFF

  type Fingerprint = string

  datatype EffectStatus = Prepared | Unknown | Committed | NotApplied

  datatype Effect = Effect(
    operationId: string, target: string, action: string, inputBindings: seq<string>,
    status: EffectStatus, reference: Option<string>)

  datatype Trigger =
    | TaskIdentified | ScopeChanged | ActiveTaskChanged | TaskStarted | TaskCompleted
    | TaskFailed | TaskIncomplete | DecisionConfirmed | EvidenceStarted | EvidenceCompleted
    | EvidenceInvalidated | FindingOpened | FindingClosed | ExactStateChanged
    | NextActionChanged | Handoff | EffectPrepared | EffectExecuted | EffectReadback
    | CompactionAnnounced | SessionEnded

  /** Callers choose names; `dispatch-<uuid>` and `readback-<uuid>` identifiers are minted,
      and a minted identifier is different from every other one. */
  datatype EventId = Named(name: string) | Minted(owner: nat, serial: nat)

  /** `rest` stands for the fields that no transition rule looks at. */
  datatype State = State(taskId: string, rest: string, effects: seq<Effect>)

  datatype Body = Body(generation: nat, previous: Option<Fingerprint>, eventId: EventId, trigger: Trigger, state: State)

  datatype Checkpoint = Checkpoint(
    generation: nat, previous: Option<Fingerprint>, eventId: EventId, trigger: Trigger, state: State,
    fingerprint: Fingerprint)

  datatype Identity = Identity(generation: nat, fingerprint: Fingerprint)

  datatype Rules = Rules(
    safe: string -> bool,
    admits: (string, string) -> bool,
    fits: State -> bool,
    hash: Body -> Fingerprint)

  type History = seq<Checkpoint>

  // ---- Validation of one checkpoint ----

  predicate Confirmed(s: EffectStatus) {
    s == Committed || s == NotApplied
  }

  predicate ValidEffect(r: Rules, e: Effect) {
    && r.safe(e.operationId) && r.safe(e.target) && r.safe(e.action)
    && 0 < |e.inputBindings| <= MAX_LIST
    && (forall i :: 0 <= i < |e.inputBindings| ==> r.safe(e.inputBindings[i]))
    && (Confirmed(e.status) <==> e.reference.Some?)
    && (e.reference.Some? ==> r.safe(e.reference.value))
  }

  predicate ValidState(r: Rules, s: State) {
    && r.admits(s.taskId, s.rest)
    && |s.effects| <= MAX_LIST
    && (forall i :: 0 <= i < |s.effects| ==> ValidEffect(r, s.effects[i]))
    && (forall i, j :: 0 <= i < j < |s.effects| ==> s.effects[i].operationId != s.effects[j].operationId)
    && r.fits(s)
  }

  predicate SafeEvent(r: Rules, id: EventId) {
    id.Named? ==> r.safe(id.name)
  }

  function BodyOf(cp: Checkpoint): Body {
    Body(cp.generation, cp.previous, cp.eventId, cp.trigger, cp.state)
  }

  predicate ValidCheckpoint(r: Rules, cp: Checkpoint) {
    && 1 <= cp.generation <= MAX_SAFE_INTEGER
    && SafeEvent(r, cp.eventId)
    && ValidState(r, cp.state)
    && cp.fingerprint == r.hash(BodyOf(cp))
  }

  // ---- Transitions ----

  /** The first effect of an operation, as `Array.prototype.find` returns it. */
  function FindEffect(effects: seq<Effect>, op: string): (e: Option<Effect>)
    ensures e.Some? ==> e.value in effects && e.value.operationId == op
    ensures e.None? ==> forall x :: x in effects ==> x.operationId != op
  {
    if effects == [] then None
    else if effects[0].operationId == op then Some(effects[0])
    else FindEffect(effects[1..], op)
  }

  predicate SameBinding(a: Effect, b: Effect) {
    a.operationId == b.operationId && a.target == b.target && a.action == b.action && a.inputBindings == b.inputBindings
  }

  predicate AllowedChange(before: EffectStatus, trigger: Trigger, after: EffectStatus) {
    || ((before == Prepared || before == Unknown) && trigger == EffectReadback && after != Prepared)
    || (before == Prepared && trigger == EffectExecuted && after == Unknown)
    || (before == NotApplied && trigger == EffectPrepared && after == Prepared)
  }

  function EffectsOf(cp: Option<Checkpoint>): seq<Effect> {
    if cp.Some? then cp.value.state.effects else []
  }

  predicate KeepsEffect(kept: Effect, next: Checkpoint) {
    var found := FindEffect(next.state.effects, kept.operationId);
    && found.Some?
    && SameBinding(kept, found.value)
    && (kept == found.value || AllowedChange(kept.status, next.trigger, found.value.status))
  }

  predicate ValidTransition(previous: Option<Checkpoint>, next: Checkpoint) {
    && (previous.Some? ==> previous.value.state.taskId == next.state.taskId)
    && (forall e :: e in EffectsOf(previous) ==> KeepsEffect(e, next))
    && (forall e :: e in next.state.effects && FindEffect(EffectsOf(previous), e.operationId).None? ==>
          e.status == Prepared && next.trigger == EffectPrepared)
  }

  // ---- Histories ----

  function Last(h: History): Option<Checkpoint> {
    if h == [] then None else Some(h[|h| - 1])
  }

  function IdentityOf(cp: Checkpoint): Identity {
    Identity(cp.generation, cp.fingerprint)
  }

  predicate Matches(actual: Option<Checkpoint>, expected: Option<Identity>) {
    if actual.None? then expected.None? else expected == Some(IdentityOf(actual.value))
  }

  predicate HasEvent(h: History, id: EventId) {
    exists i :: 0 <= i < |h| && h[i].eventId == id
  }

  /** `cp` may be appended to `h`; the upper bound on generations is left to `ValidCheckpoint`. */
  predicate Links(h: History, cp: Checkpoint) {
    && cp.generation == |h| + 1
    && cp.previous == (if h == [] then None else Some(h[|h| - 1].fingerprint))
    && !HasEvent(h, cp.eventId)
    && ValidTransition(Last(h), cp)
  }

  predicate ValidAt(r: Rules, h: History, i: nat)
    requires i < |h|
  {
    ValidCheckpoint(r, h[i]) && Links(h[..i], h[i])
  }

  /** Contiguous generations, matching previous fingerprints, unique events and valid transitions. */
  predicate ValidHistory(r: Rules, h: History) {
    forall i :: 0 <= i < |h| ==> ValidAt(r, h, i)
  }

  lemma AppendKeepsHistoryValid(r: Rules, h: History, cp: Checkpoint)
    requires ValidHistory(r, h) && ValidCheckpoint(r, cp) && Links(h, cp)
    ensures ValidHistory(r, h + [cp])
  {
    var g := h + [cp];
    forall i | 0 <= i < |g|
      ensures ValidAt(r, g, i)
    {
      assert i < |h| ==> ValidAt(r, h, i);
      assert g[..i] == if i < |h| then h[..i] else h;
    }
  }

  lemma PrefixIsValid(r: Rules, h: History, n: nat)
    requires ValidHistory(r, h) && n <= |h|
    ensures ValidHistory(r, h[..n])
  {
    forall i | 0 <= i < n
      ensures ValidAt(r, h[..n], i)
    {
      assert ValidAt(r, h, i);
      assert h[..n][..i] == h[..i];
    }
  }

  /** Event identifiers are recorded at most once. */
  lemma EventsAreUnique(r: Rules, h: History, i: nat, j: nat)
    requires ValidHistory(r, h) && i < j < |h|
    ensures h[i].eventId != h[j].eventId
  {
    assert ValidAt(r, h, j);
    assert h[..j][i] == h[i];
    assert !HasEvent(h[..j], h[j].eventId);
  }

  // ---- The decision of `publish` ----

  datatype Request = Request(eventId: EventId, trigger: Trigger, expected: Option<Identity>, state: State)

  datatype Decision = Reject | Confirm(current: Checkpoint) | Write(candidate: Checkpoint)

  function FindEvent(h: History, id: EventId): (k: Option<nat>)
    ensures k.Some? ==> k.value < |h| && h[k.value].eventId == id
    ensures k.None? <==> !HasEvent(h, id)
  {
    if h == [] then None
    else if h[0].eventId == id then Some(0)
    else
      var k := FindEvent(h[1..], id);
      assert k.None? ==> forall i :: 0 < i < |h| ==> h[i].eventId != id by {
        if k.None? {
          forall i | 0 < i < |h|
            ensures h[i].eventId != id
          {
            assert h[1..][i - 1] == h[i];
          }
        }
      }
      if k.None? then None else Some(k.value + 1)
  }

  function Candidate(r: Rules, h: History, req: Request): Checkpoint {
    var body := Body(|h| + 1, if h == [] then None else Some(h[|h| - 1].fingerprint), req.eventId, req.trigger, req.state);
    Checkpoint(body.generation, body.previous, body.eventId, body.trigger, body.state, r.hash(body))
  }

  /** An effect that enters a confirmed status or changes within one. */
  predicate ConfirmsEffect(previous: Option<Checkpoint>, e: Effect) {
    Confirmed(e.status) && FindEffect(EffectsOf(previous), e.operationId) != Some(e)
  }

  function Decide(r: Rules, h: History, req: Request, readback: bool): Decision {
    if !SafeEvent(r, req.eventId) || !ValidState(r, req.state) then Reject
    else
      var repeated := FindEvent(h, req.eventId);
      if repeated.Some? then
        var k := repeated.value;
        if k == |h| - 1 && Matches(Last(h[..k]), req.expected) && h[k].trigger == req.trigger && h[k].state == req.state
        then Confirm(h[k]) else Reject
      else if !Matches(Last(h), req.expected) then Reject
      else if h != [] && h[|h| - 1].state == req.state then Confirm(h[|h| - 1])
      else
        var cp := Candidate(r, h, req);
        if !ValidTransition(Last(h), cp) then Reject
        else if !readback && exists e :: e in cp.state.effects && ConfirmsEffect(Last(h), e) then Reject
        else Write(cp)
  }

  /** What a written checkpoint is: the exact successor of the state the caller expected. */
  lemma WrittenLinks(r: Rules, h: History, req: Request, readback: bool)
    requires ValidHistory(r, h) && Decide(r, h, req, readback).Write?
    ensures var cp := Decide(r, h, req, readback).candidate;
      && Links(h, cp)
      && cp.state == req.state && cp.trigger == req.trigger && cp.eventId == req.eventId
      && Matches(Last(h), req.expected)
      && (cp.generation <= MAX_SAFE_INTEGER ==> ValidCheckpoint(r, cp) && ValidHistory(r, h + [cp]))
  {
    var cp := Decide(r, h, req, readback).candidate;
    if cp.generation <= MAX_SAFE_INTEGER {
      AppendKeepsHistoryValid(r, h, cp);
    }
  }

  /** A lost reply may be retried: as long as the checkpoint is current the same request
      confirms it, and once anything was published after it the request is refused. */
  lemma RetryIsSafe(r: Rules, h: History, req: Request, readback: bool, later: History)
    requires ValidHistory(r, h) && Decide(r, h, req, readback).Write?
    requires ValidHistory(r, h + [Decide(r, h, req, readback).candidate] + later)
    ensures var cp := Decide(r, h, req, readback).candidate;
      Decide(r, h + [cp] + later, req, readback) == if later == [] then Confirm(cp) else Reject
  {
    var cp := Decide(r, h, req, readback).candidate;
    var g := h + [cp] + later;
    assert g[|h|] == cp;
    assert HasEvent(g, req.eventId);
    var k := FindEvent(g, req.eventId).value;
    assert forall i :: 0 <= i < |h| ==> g[i] == h[i] && h[i].eventId != req.eventId;
    if k > |h| {
      EventsAreUnique(r, g, |h|, k);
    }
    assert g[..k] == h;
  }

  // ---- The requests of `executeEffect` and `recoverEffect` ----

  function SetEffect(effects: seq<Effect>, op: string, status: EffectStatus, reference: Option<string>): (s: seq<Effect>)
    ensures |s| == |effects|
  {
    if effects == [] then []
    else
      var e := effects[0];
      [if e.operationId == op then e.(status := status, reference := reference) else e]
      + SetEffect(effects[1..], op, status, reference)
  }

  lemma {:induction false} FindAfterSet(effects: seq<Effect>, op: string, status: EffectStatus, reference: Option<string>, other: string)
    ensures FindEffect(SetEffect(effects, op, status, reference), other) ==
      var e := FindEffect(effects, other);
      if other == op && e.Some? then Some(e.value.(status := status, reference := reference)) else e
  {
    if effects != [] {
      FindAfterSet(effects[1..], op, status, reference, other);
    }
  }

  /** `executeEffect` claims a prepared operation by publishing it as UNKNOWN. */
  function ClaimRequest(base: Checkpoint, op: string, id: EventId): Request {
    var e := FindEffect(base.state.effects, op);
    Request(id, EffectExecuted, Some(IdentityOf(base)),
            base.state.(effects := SetEffect(base.state.effects, op, Unknown, if e.Some? then e.value.reference else None)))
  }

  datatype Outcome = Applied | Absent | Inconclusive

  function StatusFor(outcome: Outcome): EffectStatus {
    match outcome
    case Applied => Committed
    case Absent => NotApplied
    case Inconclusive => Unknown
  }

  /** `recoverEffect` records what the authority answered. */
  function ResolveRequest(base: Checkpoint, op: string, outcome: Outcome, reference: Option<string>, id: EventId): Request {
    Request(id, EffectReadback, Some(IdentityOf(base)),
            base.state.(effects := SetEffect(base.state.effects, op, StatusFor(outcome), reference)))
  }
}
