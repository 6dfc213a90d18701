/** What a next checkpoint may be, stated on states and statuses alone: which requests the store has to
    take, which ones it confirms, and which it refuses. */
module ResumeAdmission {
  import opened Wrappers
  import opened ResumeSchema

  // ---- One effect ----

  /** The changes of an effect's status, with the trigger of the checkpoint that makes them. */
  const CHANGES: set<(EffectStatus, Trigger, EffectStatus)> := {
    (Prepared, EffectExecuted, Unknown),
    (Prepared, EffectReadback, Unknown), (Prepared, EffectReadback, Committed), (Prepared, EffectReadback, NotApplied),
    (Unknown, EffectReadback, Unknown), (Unknown, EffectReadback, Committed), (Unknown, EffectReadback, NotApplied),
    (NotApplied, EffectPrepared, Prepared)
  }

  lemma ChangesExactly(before: EffectStatus, trigger: Trigger, after: EffectStatus)
    ensures AllowedChange(before, trigger, after) <==> (before, trigger, after) in CHANGES
  {
  }

  /** The statuses that come with a reference. */
  const REFERENCED: set<EffectStatus> := {Committed, NotApplied}

  predicate EffectFits(r: Rules, e: Effect) {
    && r.safe(e.operationId) && r.safe(e.target) && r.safe(e.action)
    && 1 <= |e.inputBindings| <= 1024 && (forall b :: b in e.inputBindings ==> r.safe(b))
    && match e.reference
       case None => e.status !in REFERENCED
       case Some(reference) => e.status in REFERENCED && r.safe(reference)
  }

  predicate Unique(effects: seq<Effect>) {
    forall i, j :: 0 <= i < |effects| && 0 <= j < |effects| && effects[i].operationId == effects[j].operationId ==> i == j
  }

  /** The states a checkpoint can carry. */
  predicate StateFits(r: Rules, s: State) {
    && r.admits(s.taskId, s.rest) && r.fits(s) && |s.effects| <= 1024
    && Unique(s.effects) && forall e :: e in s.effects ==> EffectFits(r, e)
  }

  lemma StatesExactly(r: Rules, s: State)
    ensures ValidState(r, s) <==> StateFits(r, s)
  {
    forall e: Effect
      ensures ValidEffect(r, e) <==> EffectFits(r, e)
    {
      assert (forall b :: b in e.inputBindings ==> r.safe(b)) <==> forall i :: 0 <= i < |e.inputBindings| ==> r.safe(e.inputBindings[i]);
    }
    hide ValidEffect, EffectFits;
    if ValidState(r, s) {
      assert forall e :: e in s.effects ==> ValidEffect(r, e);
    }
  }

  // ---- One state after another ----

  predicate Continues(e: Effect, trigger: Trigger, f: Effect) {
    && f.operationId == e.operationId && f.target == e.target && f.action == e.action && f.inputBindings == e.inputBindings
    && (f == e || (e.status, trigger, f.status) in CHANGES)
  }

  function EffectsIn(s: Option<State>): seq<Effect> {
    if s.None? then [] else s.value.effects
  }

  /** No operation is lost, and each stays as it is or changes as it may. */
  ghost predicate AllContinue(before: seq<Effect>, trigger: Trigger, after: seq<Effect>) {
    forall e :: e in before ==> exists f :: f in after && Continues(e, trigger, f)
  }

  /** New operations are being prepared. */
  ghost predicate NewArePrepared(before: seq<Effect>, trigger: Trigger, after: seq<Effect>) {
    forall f :: f in after ==> (f.status == Prepared && trigger == EffectPrepared) || exists e :: e in before && e.operationId == f.operationId
  }

  ghost predicate NoneIsConfirmed(before: seq<Effect>, after: seq<Effect>) {
    forall f :: f in after && f.status in REFERENCED ==> f in before
  }

  /** The task identity stays as well, and only a readback confirms. */
  ghost predicate MayFollow(before: Option<State>, trigger: Trigger, after: State, readback: bool) {
    && (before.Some? ==> after.taskId == before.value.taskId)
    && AllContinue(EffectsIn(before), trigger, after.effects)
    && NewArePrepared(EffectsIn(before), trigger, after.effects)
    && (readback || NoneIsConfirmed(EffectsIn(before), after.effects))
  }

  lemma {:induction false} UniqueIsFound(effects: seq<Effect>, e: Effect)
    requires Unique(effects) && e in effects
    ensures FindEffect(effects, e.operationId) == Some(e)
  {
    var i :| 0 <= i < |effects| && effects[i] == e;
    if i > 0 {
      var rest := effects[1..];
      assert rest[i - 1] == e;
      assert Unique(rest) by {
        assert forall k :: 0 <= k < |rest| ==> rest[k] == effects[k + 1];
      }
      UniqueIsFound(rest, e);
    }
  }

  function StateOf(cp: Option<Checkpoint>): Option<State> {
    if cp.None? then None else Some(cp.value.state)
  }

  lemma KeptExactly(e: Effect, next: Checkpoint)
    requires Unique(next.state.effects)
    ensures KeepsEffect(e, next) <==> exists f :: f in next.state.effects && Continues(e, next.trigger, f)
  {
    hide AllowedChange;
    forall f | f in next.state.effects
      ensures FindEffect(next.state.effects, f.operationId) == Some(f)
      ensures AllowedChange(e.status, next.trigger, f.status) <==> (e.status, next.trigger, f.status) in CHANGES
    {
      UniqueIsFound(next.state.effects, f);
      ChangesExactly(e.status, next.trigger, f.status);
    }
  }

  /** The tests of a transition accept exactly what may follow. */
  lemma TransitionsExactly(previous: Option<Checkpoint>, next: Checkpoint, readback: bool)
    requires Unique(EffectsOf(previous)) && Unique(next.state.effects)
    ensures MayFollow(StateOf(previous), next.trigger, next.state, readback) <==>
      && ValidTransition(previous, next)
      && (readback || !exists e :: e in next.state.effects && ConfirmsEffect(previous, e))
  {
    hide KeepsEffect, AllContinue, NewArePrepared, NoneIsConfirmed, ConfirmsEffect, FindEffect, Unique;
    ContinuedExactly(EffectsOf(previous), next);
    PreparedExactly(EffectsOf(previous), next);
    ConfirmedExactly(previous, next);
  }

  lemma ContinuedExactly(known: seq<Effect>, next: Checkpoint)
    requires Unique(next.state.effects)
    ensures AllContinue(known, next.trigger, next.state.effects) <==> forall e :: e in known ==> KeepsEffect(e, next)
  {
    hide KeepsEffect, Continues;
    forall e: Effect
      ensures KeepsEffect(e, next) <==> exists f :: f in next.state.effects && Continues(e, next.trigger, f)
    {
      KeptExactly(e, next);
    }
  }

  lemma PreparedExactly(known: seq<Effect>, next: Checkpoint)
    requires Unique(known)
    ensures NewArePrepared(known, next.trigger, next.state.effects) <==>
      forall e :: e in next.state.effects && FindEffect(known, e.operationId).None? ==> e.status == Prepared && next.trigger == EffectPrepared
  {
    hide FindEffect;
    forall f: Effect
      ensures FindEffect(known, f.operationId).None? <==> !exists e :: e in known && e.operationId == f.operationId
    {
      KnownExactly(known, f);
    }
  }

  lemma KnownExactly(known: seq<Effect>, f: Effect)
    requires Unique(known)
    ensures FindEffect(known, f.operationId).None? <==> !exists e :: e in known && e.operationId == f.operationId
    ensures FindEffect(known, f.operationId) == Some(f) <==> f in known
  {
    if f in known {
      UniqueIsFound(known, f);
    }
  }

  lemma ConfirmedExactly(previous: Option<Checkpoint>, next: Checkpoint)
    requires Unique(EffectsOf(previous))
    ensures NoneIsConfirmed(EffectsOf(previous), next.state.effects) <==>
      !exists e :: e in next.state.effects && ConfirmsEffect(previous, e)
  {
    hide FindEffect;
    forall f: Effect
      ensures ConfirmsEffect(previous, f) <==> f.status in REFERENCED && f !in EffectsOf(previous)
    {
      KnownExactly(EffectsOf(previous), f);
    }
  }

  // ---- One record after another ----

  /** The record is numbered, chained to the one before and hashed, its state fits, and may follow. */
  ghost predicate RecordFits(r: Rules, h: History, i: nat)
    requires i < |h|
  {
    var cp, previous := h[i], if i == 0 then None else Some(h[i - 1].fingerprint);
    && cp.generation == i + 1 <= MAX_SAFE_INTEGER && cp.previous == previous
    && cp.fingerprint == r.hash(Body(i + 1, previous, cp.eventId, cp.trigger, cp.state))
    && (cp.eventId.Named? ==> r.safe(cp.eventId.name)) && StateFits(r, cp.state)
    && MayFollow(if i == 0 then None else Some(h[i - 1].state), cp.trigger, cp.state, true)
  }

  lemma RecordExactly(r: Rules, h: History, i: nat)
    requires i < |h| && (i > 0 ==> Unique(h[i - 1].state.effects))
    ensures ValidAt(r, h, i) <==> RecordFits(r, h, i) && !HasEvent(h[..i], h[i].eventId)
  {
    hide MayFollow, ValidTransition, ValidState, StateFits, Unique;
    StatesExactly(r, h[i].state);
    if Unique(h[i].state.effects) {
      FirstHasNone(Last(h[..i]));
      TransitionsExactly(Last(h[..i]), h[i], true);
    } else {
      FitsAreUnique(r, h[i].state);
    }
  }

  lemma FitsAreUnique(r: Rules, s: State)
    ensures StateFits(r, s) ==> Unique(s.effects)
  {
  }

  lemma FirstHasNone(previous: Option<Checkpoint>)
    ensures previous.None? ==> Unique(EffectsOf(previous))
  {
  }

  /** The histories that are read back are exactly those of such records, no event twice. */
  lemma HistoriesExactly(r: Rules, h: History)
    ensures ValidHistory(r, h) <==>
      && (forall i :: 0 <= i < |h| ==> RecordFits(r, h, i))
      && forall i, j :: 0 <= i < j < |h| ==> h[i].eventId != h[j].eventId
  {
    hide RecordFits, ValidAt, HasEvent;
    if ValidHistory(r, h) {
      forall i | 0 <= i < |h|
        ensures RecordFits(r, h, i)
      {
        ValidIsUnique(r, h);
        RecordExactly(r, h, i);
      }
      forall i, j | 0 <= i < j < |h|
        ensures h[i].eventId != h[j].eventId
      {
        EventsAreUnique(r, h, i, j);
      }
    }
    if (forall i :: 0 <= i < |h| ==> RecordFits(r, h, i)) && forall i, j :: 0 <= i < j < |h| ==> h[i].eventId != h[j].eventId {
      forall i | 0 <= i < |h|
        ensures ValidAt(r, h, i)
      {
        NotBefore(h, i);
        if i > 0 {
          FittingIsUnique(r, h, i - 1);
        }
        RecordExactly(r, h, i);
      }
    }
  }

  lemma ValidIsUnique(r: Rules, h: History)
    requires ValidHistory(r, h)
    ensures forall i :: 0 <= i < |h| ==> Unique(h[i].state.effects)
  {
    hide Unique;
    forall i | 0 <= i < |h|
      ensures Unique(h[i].state.effects)
    {
      assert ValidAt(r, h, i);
      StatesExactly(r, h[i].state);
    }
  }

  lemma FittingIsUnique(r: Rules, h: History, i: nat)
    requires i < |h| && RecordFits(r, h, i)
    ensures Unique(h[i].state.effects)
  {
    hide Unique;
    FitsAreUnique(r, h[i].state);
  }

  lemma NotBefore(h: History, i: nat)
    requires i < |h| && forall k :: 0 <= k < i ==> h[k].eventId != h[i].eventId
    ensures !HasEvent(h[..i], h[i].eventId)
  {
  }

  // ---- One request on a history ----

  /** A request that the store has to take. */
  ghost predicate Admissible(r: Rules, h: History, req: Request, readback: bool) {
    && SafeEvent(r, req.eventId) && ValidState(r, req.state)
    && (forall i :: 0 <= i < |h| ==> h[i].eventId != req.eventId)
    && (match req.expected
        case None => h == []
        case Some(id) => h != [] && id.generation == |h| && id.fingerprint == h[|h| - 1].fingerprint)
    && (h != [] ==> h[|h| - 1].state != req.state)
    && MayFollow(StateOf(Last(h)), req.trigger, req.state, readback)
  }

  /** A request that has already been met: its checkpoint is the last one, or its state is. */
  ghost predicate AlreadyMet(r: Rules, h: History, req: Request) {
    && SafeEvent(r, req.eventId) && ValidState(r, req.state)
    && h != [] && h[|h| - 1].state == req.state
    && (|| (h[|h| - 1].eventId == req.eventId && h[|h| - 1].trigger == req.trigger && Matches(Last(h[..|h| - 1]), req.expected))
        || ((forall i :: 0 <= i < |h| ==> h[i].eventId != req.eventId) && Matches(Last(h), req.expected)))
  }

  lemma LastIsValid(r: Rules, h: History)
    requires ValidHistory(r, h) && h != []
    ensures ValidState(r, h[|h| - 1].state) && h[|h| - 1].generation == |h|
  {
    assert ValidAt(r, h, |h| - 1);
  }

  lemma EventAtEnd(r: Rules, h: History, id: EventId)
    requires ValidHistory(r, h)
    ensures FindEvent(h, id).None? <==> forall i :: 0 <= i < |h| ==> h[i].eventId != id
    ensures h != [] ==> (FindEvent(h, id) == Some(|h| - 1) <==> h[|h| - 1].eventId == id)
  {
    var k := FindEvent(h, id);
    if h != [] && h[|h| - 1].eventId == id {
      assert HasEvent(h, id);
      if k.value < |h| - 1 {
        EventsAreUnique(r, h, k.value, |h| - 1);
      }
    }
  }

  /** The decision takes, confirms and refuses accordingly. */
  lemma DecidedExactly(r: Rules, h: History, req: Request, readback: bool)
    requires ValidHistory(r, h)
    ensures Decide(r, h, req, readback).Write? <==> Admissible(r, h, req, readback)
    ensures Decide(r, h, req, readback).Confirm? <==> AlreadyMet(r, h, req)
    ensures AlreadyMet(r, h, req) ==> Decide(r, h, req, readback) == Confirm(h[|h| - 1])
  {
    hide ValidTransition, MayFollow, FindEvent;
    EventAtEnd(r, h, req.eventId);
    if h != [] {
      LastIsValid(r, h);
      StatesExactly(r, h[|h| - 1].state);
    }
    StatesExactly(r, req.state);
    if ValidState(r, req.state) {
      TransitionsExactly(Last(h), Candidate(r, h, req), readback);
    }
  }

  // ---- The requests about one effect ----

  /** The state with another status of one operation, and nothing else. */
  function WithEffect(s: State, op: string, status: EffectStatus, reference: Option<string>): State {
    s.(effects := seq(|s.effects|, i requires 0 <= i < |s.effects| =>
      if s.effects[i].operationId == op then s.effects[i].(status := status, reference := reference) else s.effects[i]))
  }

  lemma {:induction false} SetIsWith(s: State, op: string, status: EffectStatus, reference: Option<string>)
    ensures s.(effects := SetEffect(s.effects, op, status, reference)) == WithEffect(s, op, status, reference)
  {
    SetAt(s.effects, op, status, reference);
  }

  lemma {:induction false} SetAt(effects: seq<Effect>, op: string, status: EffectStatus, reference: Option<string>)
    ensures forall i :: 0 <= i < |effects| ==>
      SetEffect(effects, op, status, reference)[i] ==
        if effects[i].operationId == op then effects[i].(status := status, reference := reference) else effects[i]
  {
    if effects != [] {
      SetAt(effects[1..], op, status, reference);
    }
  }

  /** It is again a state a checkpoint can carry, if the size limit permits. */
  lemma WithIsValid(r: Rules, s: State, op: string, status: EffectStatus, reference: Option<string>)
    requires ValidState(r, s) && (status in REFERENCED <==> reference.Some?) && (reference.Some? ==> r.safe(reference.value))
    ensures ValidState(r, WithEffect(s, op, status, reference)) <==> r.fits(WithEffect(s, op, status, reference))
  {
    var t := WithEffect(s, op, status, reference);
    forall i | 0 <= i < |t.effects|
      ensures ValidEffect(r, t.effects[i]) && t.effects[i].operationId == s.effects[i].operationId
    {
      assert ValidEffect(r, s.effects[i]);
    }
  }

  /** And it may follow if the operation's status may change so. */
  lemma WithMayFollow(r: Rules, s: State, op: string, trigger: Trigger, status: EffectStatus, reference: Option<string>, readback: bool)
    requires ValidState(r, s) && (readback || status !in REFERENCED)
    requires forall e :: e in s.effects && e.operationId == op ==> (e.status, trigger, status) in CHANGES
    ensures MayFollow(Some(s), trigger, WithEffect(s, op, status, reference), readback)
  {
    hide ValidEffect, CHANGES, REFERENCED;
    var t := WithEffect(s, op, status, reference);
    forall e | e in s.effects
      ensures exists f :: f in t.effects && Continues(e, trigger, f)
    {
      var i :| 0 <= i < |s.effects| && s.effects[i] == e;
      assert t.effects[i] in t.effects && Continues(e, trigger, t.effects[i]);
    }
    WithIsKnown(s, op, status, reference);
    if !readback {
      WithIsUnconfirmed(s, op, status, reference);
    }
  }

  lemma WithIsKnown(s: State, op: string, status: EffectStatus, reference: Option<string>)
    ensures forall f :: f in WithEffect(s, op, status, reference).effects ==> exists e :: e in s.effects && e.operationId == f.operationId
  {
    var t := WithEffect(s, op, status, reference);
    forall f | f in t.effects
      ensures exists e :: e in s.effects && e.operationId == f.operationId
    {
      var i :| 0 <= i < |t.effects| && t.effects[i] == f;
      assert s.effects[i] in s.effects;
    }
  }

  lemma WithIsUnconfirmed(s: State, op: string, status: EffectStatus, reference: Option<string>)
    requires status !in REFERENCED
    ensures NoneIsConfirmed(s.effects, WithEffect(s, op, status, reference).effects)
  {
    var t := WithEffect(s, op, status, reference);
    forall f | f in t.effects && f.status in REFERENCED
      ensures f in s.effects
    {
      var i :| 0 <= i < |t.effects| && t.effects[i] == f;
    }
  }

  /** The status differs, so the state does. */
  lemma WithDiffers(s: State, e: Effect, op: string, status: EffectStatus, reference: Option<string>)
    requires e in s.effects && e.operationId == op
    ensures e.status != status ==> WithEffect(s, op, status, reference) != s
    ensures Unique(s.effects) && e.status == status && e.reference == reference ==> WithEffect(s, op, status, reference) == s
  {
    var i :| 0 <= i < |s.effects| && s.effects[i] == e;
    var t := WithEffect(s, op, status, reference);
    assert t.effects[i].status == status;
    if Unique(s.effects) && e.status == status && e.reference == reference {
      assert forall k :: 0 <= k < |s.effects| ==> t.effects[k] == s.effects[k];
      assert t.effects == s.effects;
    }
  }
}
