/** `ResumeCheckpointStore` as one caller sees it while other processes write the same
    directory. What they do between two primitives is an arbitrary script, so that a contract can
    say what holds whatever they do, and what holds if they do nothing. */
module ResumeStore {
  import opened Wrappers
  import opened ResumeSchema
  import opened ResumeHistory
  import opened ResumeProtocol
  import opened ResumeSafety
  import opened ResumeAdmission

  datatype Entry = Numbered(n: nat) | Staged(owner: nat, serial: nat) | Foreign(name: string)

  /** The directory holds exactly the files of `h`, staging files, and nothing else. */
  ghost predicate Holds(r: Rules, files: map<Entry, Checkpoint>, h: History) {
    && (forall e :: e in files ==> !e.Foreign?)
    && (forall n: nat :: Numbered(n) in files <==> 1 <= n <= |h|)
    && (forall i :: 0 <= i < |h| ==> files[Numbered(i + 1)] == h[i])
    && ValidHistory(r, h)
  }

  lemma HeldNames(r: Rules, files: map<Entry, Checkpoint>, names: set<nat>, h: History)
    requires forall n: nat :: n in names <==> Numbered(n) in files
    requires Holds(r, files, h)
    ensures names == Range(|h|) && |names| == |h|
  {
    assert names == Range(|h|);
  }

  lemma AllHeldNames(r: Rules, files: map<Entry, Checkpoint>, names: set<nat>)
    requires forall n: nat :: n in names <==> Numbered(n) in files
    ensures forall h :: Holds(r, files, h) ==> names == Range(|h|) && |h| == |names|
  {
    forall h | Holds(r, files, h)
      ensures names == Range(|h|) && |h| == |names|
    {
      HeldNames(r, files, names, h);
    }
  }

  /** The loop's test on file `index` is what a held history demands of it. */
  predicate Accepts(r: Rules, history: History, cp: Checkpoint) {
    && ValidCheckpoint(r, cp)
    && cp.generation == |history| + 1
    && cp.previous == (if history == [] then None else Some(history[|history| - 1].fingerprint))
    && !HasEvent(history, cp.eventId)
    && ValidTransition(Last(history), cp)
  }

  lemma HeldFileIsAccepted(r: Rules, files: map<Entry, Checkpoint>, h: History, history: History)
    requires Holds(r, files, h) && |history| < |h|
    requires IsPrefixOf(files, history)
    ensures Numbered(|history| + 1) in files && Accepts(r, history, files[Numbered(|history| + 1)])
  {
    assert ValidAt(r, h, |history|);
    assert h[..|history|] == history;
  }

  lemma RefutedByFile(r: Rules, files: map<Entry, Checkpoint>, history: History, count: nat)
    requires forall h :: Holds(r, files, h) ==> |h| == count
    requires |history| < count && Numbered(|history| + 1) in files && !Accepts(r, history, files[Numbered(|history| + 1)])
    requires IsPrefixOf(files, history)
    ensures forall h :: !Holds(r, files, h)
  {
    forall h
      ensures !Holds(r, files, h)
    {
      if Holds(r, files, h) {
        HeldFileIsAccepted(r, files, h, history);
      }
    }
  }

  /** `history()`: succeeds exactly on directories that hold one valid history, and returns it. */
  method ReadHistory(r: Rules, files: map<Entry, Checkpoint>) returns (res: Result<History>)
    ensures res.Success? ==> Holds(r, files, res.value)
    ensures res.Failure? ==> forall h :: !Holds(r, files, h)
  {
    if exists e :: e in files && e.Foreign? {
      return Failure;
    }
    var names := set e | e in files && e.Numbered? :: e.n;
    assert forall n: nat :: n in names <==> Numbered(n) in files;
    AllHeldNames(r, files, names);
    var count := |names|;
    if names != Range(count) {
      return Failure;
    }
    res := ReadInOrder(r, files, count);
  }

  /** The loop over the files in order. */
  method ReadInOrder(r: Rules, files: map<Entry, Checkpoint>, count: nat) returns (res: Result<History>)
    requires forall n: nat :: 1 <= n <= count ==> Numbered(n) in files
    requires forall h :: Holds(r, files, h) ==> |h| == count
    ensures res.Success? ==> |res.value| == count && ValidHistory(r, res.value) && IsPrefixOf(files, res.value)
    ensures res.Failure? ==> forall h :: !Holds(r, files, h)
  {
    var history: History := [];
    var events: set<EventId> := {};
    for index := 0 to count
      invariant |history| == index && ValidHistory(r, history) && IsPrefixOf(files, history)
      invariant forall id :: id in events <==> HasEvent(history, id)
    {
      hide Holds, ValidCheckpoint, ValidTransition, ValidHistory, HasEvent;
      var cp := files[Numbered(index + 1)];
      var previous := if index == 0 then None else Some(history[index - 1].fingerprint);
      if !ValidCheckpoint(r, cp) || cp.generation != index + 1 || cp.previous != previous || cp.eventId in events
         || !ValidTransition(Last(history), cp)
      {
        RefutedByFile(r, files, history, count);
        return Failure;
      }
      ExtendsPrefix(r, files, history, cp);
      EventsAfterAppend(history, cp);
      history := history + [cp];
      events := events + {cp.eventId};
    }
    return Success(history);
  }

  ghost predicate IsPrefixOf(files: map<Entry, Checkpoint>, history: History) {
    forall i :: 0 <= i < |history| ==> FileAt(files, i, history[i])
  }

  ghost predicate FileAt(files: map<Entry, Checkpoint>, i: nat, cp: Checkpoint) {
    Numbered(i + 1) in files && files[Numbered(i + 1)] == cp
  }

  lemma ExtendsPrefix(r: Rules, files: map<Entry, Checkpoint>, history: History, cp: Checkpoint)
    requires ValidHistory(r, history) && IsPrefixOf(files, history) && Accepts(r, history, cp)
    requires Numbered(|history| + 1) in files && files[Numbered(|history| + 1)] == cp
    ensures ValidHistory(r, history + [cp]) && IsPrefixOf(files, history + [cp])
  {
    AppendKeepsHistoryValid(r, history, cp);
    OneMoreFile(files, history, cp);
  }

  lemma OneMoreFile(files: map<Entry, Checkpoint>, history: History, cp: Checkpoint)
    requires IsPrefixOf(files, history) && Numbered(|history| + 1) in files && files[Numbered(|history| + 1)] == cp
    ensures IsPrefixOf(files, history + [cp])
  {
    var g := history + [cp];
    forall i | 0 <= i < |g|
      ensures FileAt(files, i, g[i])
    {
      if i < |history| {
        assert g[i] == history[i] && FileAt(files, i, history[i]);
      } else {
        assert i == |history| && g[i] == cp;
      }
    }
  }

  lemma EventsAfterAppend(h: History, cp: Checkpoint)
    ensures forall id :: HasEvent(h + [cp], id) <==> HasEvent(h, id) || id == cp.eventId
  {
    var g := h + [cp];
    forall id
      ensures HasEvent(g, id) <==> HasEvent(h, id) || id == cp.eventId
    {
      assert g[|h|] == cp;
      assert forall i :: 0 <= i < |h| ==> g[i] == h[i];
    }
  }

  /** `publish` of store `me` decided on a prefix of the log that was the whole log at some
      moment of the call; everything before it was published earlier or by others. */
  ghost predicate DecidedAt(r: Rules, before: History, log: History, me: nat, req: Request, readback: bool, cp: Checkpoint, k: nat) {
    && |before| <= k <= |log|
    && (forall i :: |before| <= i < k && log[i].eventId.Minted? ==> log[i].eventId.owner != me)
    && (|| Decide(r, log[..k], req, readback) == Confirm(cp)
        || (k < |log| && log[k] == cp && Decide(r, log[..k], req, readback) == Write(cp)))
  }

  ghost predicate Linearized(r: Rules, before: History, log: History, me: nat, req: Request, readback: bool, cp: Checkpoint) {
    exists k: nat :: DecidedAt(r, before, log, me, req, readback, cp, k)
  }

  lemma WrittenIsNew(r: Rules, h: History, req: Request, readback: bool)
    requires Decide(r, h, req, readback).Write?
    ensures !HasEvent(h, req.eventId)
  {
  }

  /** What was decided later than `h` was decided later than what came before `h`, which others wrote. */
  lemma LinearizedEarlier(r: Rules, before: History, h: History, log: History, me: nat, req: Request, readback: bool, res: Result<Checkpoint>)
    requires before <= h <= log && (res.Success? ==> Linearized(r, h, log, me, req, readback, res.value))
    requires forall i :: |before| <= i < |h| && h[i].eventId.Minted? ==> h[i].eventId.owner != me
    ensures res.Success? ==> Linearized(r, before, log, me, req, readback, res.value)
  {
    hide Decide;
    if res.Success? {
      var k: nat :| DecidedAt(r, h, log, me, req, readback, res.value, k);
      assert DecidedAt(r, before, log, me, req, readback, res.value, k);
    }
  }

  lemma WrittenIsValid(r: Rules, h: History, req: Request, readback: bool)
    requires ValidHistory(r, h) && Decide(r, h, req, readback).Write?
    ensures ValidCheckpoint(r, Decide(r, h, req, readback).candidate) <==> |h| < MAX_SAFE_INTEGER
    ensures Decide(r, h, req, readback).candidate.generation == |h| + 1
  {
  }

  /** Writing and confirming both end with the requested state. */
  lemma LinearizedState(r: Rules, before: History, log: History, me: nat, req: Request, readback: bool, cp: Checkpoint)
    requires Linearized(r, before, log, me, req, readback, cp)
    ensures cp.state == req.state
  {
  }

  /** `g` is the claim of one call that started from `before`: published by it, directly on the
      checkpoint the caller expected. */
  ghost predicate OwnsClaim(before: History, log: History, me: nat, op: string, expected: Identity, g: nat) {
    && |before| < g <= |log| && 2 <= g
    && IsClaim(log, me, op, log[g - 1])
    && g == expected.generation + 1
  }

  lemma ClaimWasWritten(r: Rules, before: History, log: History, me: nat, serial: nat, op: string, base: Checkpoint, req: Request, cp: Checkpoint, k: nat)
    requires ValidHistory(r, log) && before <= log && InLog(before, base) && StatusIn(base, op) == Some(Prepared)
    requires req == ClaimRequest(base, op, req.eventId) && FreshMint(before, me, serial, req.eventId)
    requires DecidedAt(r, before, log, me, req, false, cp, k)
    ensures k < |log| && log[k] == cp && Decide(r, log[..k], req, false) == Write(cp)
    ensures InLog(log[..k], base)
  {
    var h := log[..k];
    PrefixIsValid(r, log, k);
    assert !HasEvent(h, req.eventId) by {
      assert forall i :: 0 <= i < |before| ==> h[i] == before[i] && before[i].eventId != req.eventId;
    }
    assert h[..k] == h;
    ClaimIsNeverConfirmed(r, h, k, me, serial, op, base, req);
  }

  lemma ClaimShape(log: History, me: nat, op: string, base: Checkpoint, id: EventId, cp: Checkpoint, k: nat)
    requires 0 < k < |log| && log[k] == cp && log[k - 1] == base && cp.generation == k + 1
    requires id.Minted? && id.owner == me && cp.eventId == id && cp.trigger == EffectExecuted
    requires StatusIn(base, op) == Some(Prepared) && cp.state == ClaimRequest(base, op, id).state
    ensures IsClaim(log, me, op, cp)
  {
    ClaimedStatus(base, op, id);
  }

  /** A successful claim is this call's own record: never an older one confirmed again. */
  lemma ClaimIsOwn(r: Rules, before: History, log: History, me: nat, serial: nat, op: string, base: Checkpoint, req: Request, cp: Checkpoint)
    requires ValidHistory(r, log) && before <= log && InLog(before, base) && StatusIn(base, op) == Some(Prepared)
    requires req == ClaimRequest(base, op, req.eventId) && FreshMint(before, me, serial, req.eventId)
    requires Linearized(r, before, log, me, req, false, cp)
    ensures OwnsClaim(before, log, me, op, IdentityOf(base), cp.generation) && log[cp.generation - 1] == cp
  {
    var k: nat :| DecidedAt(r, before, log, me, req, false, cp, k);
    ClaimWasWritten(r, before, log, me, serial, op, base, req, cp, k);
    hide ValidHistory, ClaimRequest, Decide, StatusIn, DecidedAt;
    assert InLog(log, base);
    WrittenFrom(r, log, k, base, req, false);
    MatchedLength(r, log, k, base);
    ClaimShape(log, me, op, base, req.eventId, cp, k);
  }

  lemma MatchedLength(r: Rules, log: History, k: nat, base: Checkpoint)
    requires ValidHistory(r, log) && k <= |log| && Last(log[..k]) == Some(base)
    ensures 0 < k && log[k - 1] == base && base.generation == k
  {
    assert log[..k][k - 1] == log[k - 1];
    assert ValidAt(r, log, k - 1);
  }

  /** What another process can do to the directory: publish a checkpoint, if it is the next one by
      then, and write or remove staging files of its own. */
  datatype Move = Publishes(cp: Checkpoint) | Stages(who: nat, serial: nat, cp: Checkpoint) | Drops(who: nat, serial: nat)

  lemma OneMoreHeld(r: Rules, files: map<Entry, Checkpoint>, h: History, cp: Checkpoint)
    requires Holds(r, files, h) && ValidCheckpoint(r, cp) && Links(h, cp)
    ensures Holds(r, files[Numbered(cp.generation) := cp], h + [cp])
  {
    hide ValidCheckpoint, Links;
    AppendKeepsHistoryValid(r, h, cp);
    assert cp.generation == |h| + 1 by {
      GenerationIsNext(h, cp);
    }
  }

  lemma GenerationIsNext(h: History, cp: Checkpoint)
    requires Links(h, cp)
    ensures cp.generation == |h| + 1
  {
  }

  /** The requests that are met by a new checkpoint, and those that are not met at all. */
  ghost predicate Takes(r: Rules, h: History, req: Request, readback: bool) {
    Admissible(r, h, req, readback) && |h| < MAX_SAFE_INTEGER
  }

  /** `publish` from `h` to `h'`: one more checkpoint for a request that is to be taken, the last one for
      a request that is met, and an error for every other one. */
  ghost predicate Meets(r: Rules, h: History, h': History, req: Request, readback: bool, res: Result<Checkpoint>) {
    if Takes(r, h, req, readback) then
      && res.Success? && h' == h + [res.value]
      && res.value.state == req.state && res.value.trigger == req.trigger && res.value.eventId == req.eventId
    else if AlreadyMet(r, h, req) then h != [] && res == Success(h[|h| - 1]) && h' == h
    else res.Failure? && h' == h
  }

  /** The decision, carried out. */
  lemma DecisionMeets(r: Rules, h: History, h': History, req: Request, readback: bool, res: Result<Checkpoint>)
    requires ValidHistory(r, h)
    requires match Decide(r, h, req, readback)
      case Reject => res.Failure? && h' == h
      case Confirm(current) => res == Success(current) && h' == h
      case Write(cp) => if |h| < MAX_SAFE_INTEGER then res == Success(cp) && h' == h + [cp] else res.Failure? && h' == h
    ensures Meets(r, h, h', req, readback, res)
  {
    hide Admissible, AlreadyMet, ValidHistory;
    DecidedExactly(r, h, req, readback);
    if AlreadyMet(r, h, req) {
      MetHasLast(r, h, req);
    }
  }

  lemma CurrentIsConfirmed(r: Rules, h: History, req: Request, readback: bool)
    requires ValidHistory(r, h) && Decide(r, h, req, readback).Confirm?
    ensures Last(h) == Some(Decide(r, h, req, readback).current)
  {
    hide ValidHistory, AlreadyMet;
    DecidedExactly(r, h, req, readback);
    MetHasLast(r, h, req);
  }

  lemma MetHasLast(r: Rules, h: History, req: Request)
    requires AlreadyMet(r, h, req)
    ensures h != []
  {
  }

  // ---- What the calls about effects come to, if nobody interferes ----

  predicate Answerable(r: Rules, outcome: Outcome, reference: Option<string>) {
    (outcome == Inconclusive <==> reference.None?) && (reference.Some? ==> r.safe(reference.value))
  }

  lemma AnswersExactly(outcome: Outcome, status: EffectStatus)
    ensures StatusFor(outcome) == status <==> (outcome, status) in {(Applied, Committed), (Absent, NotApplied), (Inconclusive, Unknown)}
  {
  }

  predicate IsKnown(h: History, expected: Identity, op: string) {
    IsCurrent(h, expected) && exists e :: e in h[|h| - 1].state.effects && e.operationId == op
  }

  /** `recoverEffect` from `h` to `h'`: a settled effect is confirmed; an answer that says something new
      is recorded in one more checkpoint, and in nothing else. */
  ghost predicate Recovers(r: Rules, h: History, h': History, expected: Identity, op: string, outcome: Outcome, reference: Option<string>, res: Result<Checkpoint>) {
    if !IsKnown(h, expected, op) then res.Failure? && h' == h
    else
      var last := h[|h| - 1];
      if exists e :: e in last.state.effects && e.operationId == op && e.status in REFERENCED then res == Success(last) && h' == h
      else Records(r, h, h', last, op, outcome, reference, res)
  }

  ghost predicate Records(r: Rules, h: History, h': History, last: Checkpoint, op: string, outcome: Outcome, reference: Option<string>, res: Result<Checkpoint>) {
    var next := WithEffect(last.state, op, StatusFor(outcome), reference);
    if !Answerable(r, outcome, reference) then res.Failure? && h' == h
    else if next == last.state then res == Success(last) && h' == h
    else if !r.fits(next) || |h| >= MAX_SAFE_INTEGER then res.Failure? && h' == h
    else res.Success? && h' == h + [res.value] && res.value.state == next && res.value.trigger == EffectReadback
  }

  lemma ResolvedIsRecorded(r: Rules, h: History, h': History, op: string, e: Effect, outcome: Outcome, reference: Option<string>, id: EventId, res: Result<Checkpoint>)
    requires ValidHistory(r, h) && h != [] && e in h[|h| - 1].state.effects && e.operationId == op && e.status !in REFERENCED
    requires Answerable(r, outcome, reference) && id.Minted? && !HasEvent(h, id)
    requires Meets(r, h, h', ResolveRequest(h[|h| - 1], op, outcome, reference, id), true, res)
    ensures Records(r, h, h', h[|h| - 1], op, outcome, reference, res)
  {
    hide ValidHistory, AlreadyMet, Admissible, WithEffect, ResolveRequest, HasEvent;
    ResolveIsTaken(r, h, op, e, outcome, reference, id);
  }

  lemma NotRecorded(r: Rules, h: History, last: Checkpoint, op: string, outcome: Outcome, reference: Option<string>)
    requires !Answerable(r, outcome, reference)
    ensures Records(r, h, h, last, op, outcome, reference, Failure)
  {
  }

  lemma ResolveNames(cp: Checkpoint, op: string, outcome: Outcome, reference: Option<string>, id: EventId)
    ensures ResolveRequest(cp, op, outcome, reference, id).eventId == id
  {
  }

  lemma ClaimIsMet(r: Rules, h: History, h': History, op: string, e: Effect, id: EventId, res: Result<Checkpoint>)
    requires ValidHistory(r, h) && h != [] && e in h[|h| - 1].state.effects && e.operationId == op && e.status == Prepared
    requires id.Minted? && !HasEvent(h, id) && Meets(r, h, h', ClaimRequest(h[|h| - 1], op, id), false, res)
    ensures Claims(r, h, h', h[|h| - 1], op, res)
  {
    hide ValidHistory, AlreadyMet, Admissible, WithEffect, ClaimRequest, HasEvent;
    ClaimIsTaken(r, h, op, e, id);
  }

  /** The operation is claimed, unless the record of it would not fit. */
  ghost predicate Claims(r: Rules, h: History, h': History, last: Checkpoint, op: string, res: Result<Checkpoint>) {
    var next := WithEffect(last.state, op, Unknown, None);
    if !r.fits(next) || |h| >= MAX_SAFE_INTEGER then res.Failure? && h' == h
    else res.Success? && h' == h + [res.value] && res.value.state == next && res.value.trigger == EffectExecuted
  }

  /** `executeEffect`: a prepared operation is claimed, dispatched once and then recovered. */
  ghost predicate Executes(r: Rules, h: History, h': History, calls: seq<nat>, calls': seq<nat>, expected: Identity, op: string, outcome: Outcome, reference: Option<string>, res: Result<Checkpoint>) {
    if !IsKnown(h, expected, op) then res.Failure? && h' == h && calls' == calls
    else
      var last := h[|h| - 1];
      var e :| e in last.state.effects && e.operationId == op;
      var claimed := WithEffect(last.state, op, Unknown, None);
      if e.status == Committed then res == Success(last) && h' == h && calls' == calls
      else if e.status != Prepared || !r.fits(claimed) || |h| >= MAX_SAFE_INTEGER then res.Failure? && h' == h && calls' == calls
      else
        && calls' == calls + [|h| + 1] && |h'| > |h| && h'[..|h|] == h
        && h'[|h|].state == claimed && h'[|h|].trigger == EffectExecuted
        && Recovers(r, h'[..|h| + 1], h', IdentityOf(h'[|h|]), op, outcome, reference, res)
  }

  lemma OneOfIts(r: Rules, h: History, op: string, e: Effect)
    requires ValidHistory(r, h) && h != [] && e in h[|h| - 1].state.effects && e.operationId == op
    ensures FindEffect(h[|h| - 1].state.effects, op) == Some(e)
    ensures forall f :: f in h[|h| - 1].state.effects && f.operationId == op ==> f == e
    ensures e.reference.Some? <==> e.status in REFERENCED
  {
    LastIsValid(r, h);
    StatesExactly(r, h[|h| - 1].state);
    forall f | f in h[|h| - 1].state.effects && f.operationId == op
      ensures f == e
    {
      UniqueIsFound(h[|h| - 1].state.effects, f);
      UniqueIsFound(h[|h| - 1].state.effects, e);
    }
    UniqueIsFound(h[|h| - 1].state.effects, e);
  }

  lemma KnownIsFound(h: History, expected: Identity, op: string)
    ensures IsKnown(h, expected, op) <==> IsCurrent(h, expected) && FindEffect(h[|h| - 1].state.effects, op).Some?
  {
  }

  /** A request for one effect's next status, on the history it was made for. */
  lemma ChangeIsTaken(r: Rules, h: History, op: string, e: Effect, status: EffectStatus, reference: Option<string>, req: Request, readback: bool)
    requires ValidHistory(r, h) && h != [] && e in h[|h| - 1].state.effects && e.operationId == op
    requires !HasEvent(h, req.eventId) && req.eventId.Minted? && req.expected == Some(IdentityOf(h[|h| - 1]))
    requires req.state == WithEffect(h[|h| - 1].state, op, status, reference)
    requires (status in REFERENCED <==> reference.Some?) && (reference.Some? ==> r.safe(reference.value))
    requires (e.status, req.trigger, status) in CHANGES && (readback || status !in REFERENCED)
    ensures req.state == h[|h| - 1].state ==> AlreadyMet(r, h, req) && !Admissible(r, h, req, readback)
    ensures req.state != h[|h| - 1].state ==> !AlreadyMet(r, h, req) && (Admissible(r, h, req, readback) <==> r.fits(req.state))
  {
    hide CHANGES, MayFollow, ValidState, ValidHistory;
    LastIsValid(r, h);
    OneOfIts(r, h, op, e);
    WithIsValid(r, h[|h| - 1].state, op, status, reference);
    WithMayFollow(r, h[|h| - 1].state, op, req.trigger, status, reference, readback);
  }

  lemma ResolveIsTaken(r: Rules, h: History, op: string, e: Effect, outcome: Outcome, reference: Option<string>, id: EventId)
    requires ValidHistory(r, h) && h != [] && e in h[|h| - 1].state.effects && e.operationId == op && e.status !in REFERENCED
    requires Answerable(r, outcome, reference) && id.Minted? && !HasEvent(h, id)
    ensures var req := ResolveRequest(h[|h| - 1], op, outcome, reference, id);
      && req.trigger == EffectReadback && req.state == WithEffect(h[|h| - 1].state, op, StatusFor(outcome), reference)
      && (req.state == h[|h| - 1].state ==> AlreadyMet(r, h, req) && !Admissible(r, h, req, true))
      && (req.state != h[|h| - 1].state ==> !AlreadyMet(r, h, req) && (Admissible(r, h, req, true) <==> r.fits(req.state)))
  {
    hide AlreadyMet, Admissible, ValidHistory, HasEvent, WithEffect;
    SetIsWith(h[|h| - 1].state, op, StatusFor(outcome), reference);
    ChangesExactly(e.status, EffectReadback, StatusFor(outcome));
    ChangeIsTaken(r, h, op, e, StatusFor(outcome), reference, ResolveRequest(h[|h| - 1], op, outcome, reference, id), true);
  }

  lemma ClaimIsTaken(r: Rules, h: History, op: string, e: Effect, id: EventId)
    requires ValidHistory(r, h) && h != [] && e in h[|h| - 1].state.effects && e.operationId == op && e.status == Prepared
    requires id.Minted? && !HasEvent(h, id)
    ensures var req := ClaimRequest(h[|h| - 1], op, id);
      && req.trigger == EffectExecuted && req.state == WithEffect(h[|h| - 1].state, op, Unknown, None)
      && !AlreadyMet(r, h, req) && (Admissible(r, h, req, false) <==> r.fits(req.state))
  {
    hide AlreadyMet, Admissible, ValidHistory, HasEvent, WithEffect;
    OneOfIts(r, h, op, e);
    SetIsWith(h[|h| - 1].state, op, Unknown, None);
    WithDiffers(h[|h| - 1].state, e, op, Unknown, None);
    ChangeIsTaken(r, h, op, e, Unknown, None, ClaimRequest(h[|h| - 1], op, id), false);
  }

  lemma ExecutionIsWhole(r: Rules, h: History, mid: History, h': History, calls: seq<nat>, calls': seq<nat>, expected: Identity, op: string, e: Effect, outcome: Outcome, reference: Option<string>, res: Result<Checkpoint>)
    requires IsKnown(h, expected, op) && e in h[|h| - 1].state.effects && e.operationId == op && e.status == Prepared
    requires forall f :: f in h[|h| - 1].state.effects && f.operationId == op ==> f == e
    requires r.fits(WithEffect(h[|h| - 1].state, op, Unknown, None)) && |h| < MAX_SAFE_INTEGER
    requires |mid| == |h| + 1 && mid[..|h|] == h && mid <= h' && calls' == calls + [|h| + 1]
    requires mid[|h|].state == WithEffect(h[|h| - 1].state, op, Unknown, None) && mid[|h|].trigger == EffectExecuted
    requires Recovers(r, mid, h', IdentityOf(mid[|h|]), op, outcome, reference, res)
    ensures Executes(r, h, h', calls, calls', expected, op, outcome, reference, res)
  {
    hide Recovers, WithEffect, IdentityOf;
    assert h'[..|h| + 1] == mid && h'[..|h|] == mid[..|h|] && h'[|h|] == mid[|h|];
  }

  /** The identity is that of the last checkpoint. */
  predicate IsCurrent(h: History, id: Identity) {
    h != [] && h[|h| - 1].generation == id.generation && h[|h| - 1].fingerprint == id.fingerprint
  }

  class ResumeCheckpointStore {
    const rules: Rules
    const owner: nat
    const others: nat -> seq<Move>
    var turn: nat  // how often the others have had their turn
    var files: map<Entry, Checkpoint>
    var serial: nat
    /** Generations whose claim this store dispatched to the `execute` callback. */
    var dispatched: seq<nat>
    ghost var log: History

    ghost predicate Valid()
      reads this
    {
      && Holds(rules, files, log)
      && (forall i :: 0 <= i < |log| && log[i].eventId.Minted? && log[i].eventId.owner == owner ==> log[i].eventId.serial < serial)
      && (forall k: nat :: serial <= k ==> Staged(owner, k) !in files)
    }

    /** The log grew, if at all, by events of others, and this store's staging files are untouched. */
    twostate predicate OthersOnly()
      reads this
    {
      && old(log) <= log
      && (forall k: nat :: Staged(owner, k) in files <==> old(Staged(owner, k) in files))
      && (forall k: nat :: old(Staged(owner, k) in files) ==> files[Staged(owner, k)] == old(files[Staged(owner, k)]))
      && (forall i :: |old(log)| <= i < |log| && log[i].eventId.Minted? ==> log[i].eventId.owner != owner)
    }

    /** The others did nothing from one turn to another. */
    ghost predicate Alone(from: nat, to: nat)
      reads this
    {
      forall i :: from <= i < to ==> others(i) == []
    }

    /** A store on a directory that `history()` accepts. */
    constructor (r: Rules, me: nat, others: nat -> seq<Move>, directory: map<Entry, Checkpoint>, ghost h: History)
      requires Holds(r, directory, h)
      requires forall i :: 0 <= i < |h| && h[i].eventId.Minted? ==> h[i].eventId.owner != me
      requires forall k: nat :: Staged(me, k) !in directory
      ensures Valid() && log == h && rules == r && owner == me && this.others == others && dispatched == [] && turn == 0
    {
      rules, owner, files, serial, dispatched, log := r, me, directory, 0, [], h;
      this.others := others;
      turn := 0;
    }

    /** The others' turn: they publish valid successors and never touch this store's names. */
    method Interfere()
      requires Valid()
      modifies this`files, this`log, this`turn
      ensures Valid() && OthersOnly()
      ensures turn == old(turn) + 1 && (Alone(old(turn), turn) ==> files == old(files) && log == old(log))
    {
      hide Holds;
      var moves := others(turn);
      turn := turn + 1;
      for i := 0 to |moves|
        invariant Valid() && OthersOnly() && turn == old(turn) + 1
        invariant i == 0 ==> files == old(files) && log == old(log)
      {
        Obey(moves[i]);
      }
    }

    /** One move of another process. */
    method Obey(move: Move)
      requires Valid()
      modifies this`files, this`log
      ensures Valid() && OthersOnly()
    {
      match move
      case Publishes(cp) =>
        if !ValidCheckpoint(rules, cp) || (cp.eventId.Minted? && cp.eventId.owner == owner) {
          return;
        }
        var res := ReadHistory(rules, files);
        HeldNames(rules, files, Range(|log|), res.value);
        assert res.value == log;
        if Links(res.value, cp) {
          OneMoreHeld(rules, files, log, cp);
          files := files[Numbered(cp.generation) := cp];
          log := log + [cp];
        }
      case Stages(who, k, cp) =>
        if who != owner {
          files := files[Staged(who, k) := cp];
        }
      case Drops(who, k) =>
        if who != owner {
          files := files - {Staged(who, k)};
        }
    }

    method Mint() returns (id: EventId)
      requires Valid()
      modifies this`serial
      ensures Valid() && id == Minted(owner, old(serial)) && serial == old(serial) + 1 && !HasEvent(log, id)
    {
      id := Minted(owner, serial);
      serial := serial + 1;
    }

    method History() returns (h: History)
      requires Valid()
      modifies this`files, this`log, this`turn
      ensures Valid() && h == log && OthersOnly()
      ensures old(turn) <= turn && (Alone(old(turn), turn) ==> files == old(files) && log == old(log))
    {
      Interfere();
      var res := ReadHistory(rules, files);
      h := res.value;
      HeldNames(rules, files, Range(|log|), h);
      assert h == log;
    }

    method Read(expected: Option<Identity>) returns (res: Result<Option<Checkpoint>>)
      requires Valid()
      modifies this`files, this`log, this`turn
      ensures Valid() && OthersOnly()
      ensures old(turn) <= turn && (Alone(old(turn), turn) ==> files == old(files) && log == old(log))
      ensures res == if expected.Some? && !Matches(Last(log), expected) then Failure else Success(Last(log))
    {
      var h := History();
      var current := Last(h);
      if expected.Some? && !Matches(current, expected) {
        return Failure;
      }
      return Success(current);
    }

    method Confirmation(cp: Checkpoint) returns (res: Result<Checkpoint>)
      requires Valid() && InLog(log, cp)
      modifies this`files, this`log, this`turn
      ensures Valid() && OthersOnly()
      ensures res.Success? ==> res.value == cp && Last(log) == Some(cp)
      ensures old(turn) <= turn
      ensures Alone(old(turn), turn) ==> log == old(log) && (res.Success? <==> Last(log) == Some(cp))
    {
      var read := Read(Some(IdentityOf(cp)));
      if read.Failure? {
        return Failure;
      }
      CurrentIs(rules, log, cp);
      return Success(read.value.value);
    }

    /** Exclusive creation under a fresh name, then the readback of the staged bytes. */
    method StageCandidate(cp: Checkpoint) returns (res: Result<nat>)
      requires Valid()
      modifies this`files, this`log, this`serial, this`turn
      ensures Valid() && old(log) <= log && old(serial) <= serial
      ensures old(turn) <= turn
      ensures Alone(old(turn), turn) ==> log == old(log) && (res.Success? <==> ValidCheckpoint(rules, cp))
      ensures forall i :: |old(log)| <= i < |log| && log[i].eventId.Minted? ==> log[i].eventId.owner != owner
      ensures res.Success? ==>
        ValidCheckpoint(rules, cp) && res.value < serial && Staged(owner, res.value) in files && files[Staged(owner, res.value)] == cp
    {
      Interfere();
      var token := serial;
      files := files[Staged(owner, token) := cp];
      serial := serial + 1;
      Interfere();
      var staged := files[Staged(owner, token)];
      if !ValidCheckpoint(rules, staged) || staged.fingerprint != cp.fingerprint {
        return Failure;
      }
      return Success(token);
    }

    /** Rename without replacement. It takes effect only on the log the candidate was built for. */
    method RenameNoReplace(token: nat, cp: Checkpoint) returns (renamed: bool)
      requires Valid() && token < serial && Staged(owner, token) in files && files[Staged(owner, token)] == cp
      requires ValidCheckpoint(rules, cp) && 1 <= cp.generation <= |log| + 1 && Links(log[..cp.generation - 1], cp)
      requires cp.eventId.Minted? && cp.eventId.owner == owner ==> cp.eventId.serial < serial
      modifies this`files, this`log
      ensures Valid()
      ensures renamed == (cp.generation == |old(log)| + 1)
      ensures log == if renamed then old(log) + [cp] else old(log)
    {
      renamed := Numbered(cp.generation) !in files;
      if renamed {
        assert log[..cp.generation - 1] == log;
        AppendKeepsHistoryValid(rules, log, cp);
        files := (files - {Staged(owner, token)})[Numbered(cp.generation) := cp];
        log := log + [cp];
      }
    }

    method PublishCandidate(cp: Checkpoint) returns (res: Result<Checkpoint>)
      requires Valid() && 1 <= cp.generation <= |log| + 1 && Links(log[..cp.generation - 1], cp)
      requires cp.eventId.Minted? && cp.eventId.owner == owner ==> cp.eventId.serial < serial
      modifies this`files, this`log, this`serial, this`turn
      ensures Valid() && old(log) <= log
      ensures old(turn) <= turn
      ensures Alone(old(turn), turn) && ValidCheckpoint(rules, cp) && cp.generation == |old(log)| + 1 ==>
        res == Success(cp) && log == old(log) + [cp]
      ensures Alone(old(turn), turn) && !ValidCheckpoint(rules, cp) ==> res.Failure? && log == old(log)
      ensures forall i :: |old(log)| <= i < |log| && log[i].eventId.Minted? && log[i].eventId.owner == owner ==>
        log[i].eventId == cp.eventId
      ensures res.Success? ==> res.value == cp && InLog(log, cp) && Last(log) == Some(cp) && |old(log)| < cp.generation
    {
      ghost var h := log[..cp.generation - 1];
      var staged := StageCandidate(cp);
      if staged.Failure? {
        return Failure;
      }
      Interfere();
      assert log[..cp.generation - 1] == h;
      var renamed := RenameNoReplace(staged.value, cp);
      if !renamed {
        return Failure;
      }
      res := Confirmation(cp);
    }

    /** `publish`: whatever others did meanwhile, a success was decided on the history it extends. */
    method Publish(req: Request, readback: bool) returns (res: Result<Checkpoint>)
      requires Valid()
      requires req.eventId.Minted? ==> HasEvent(log, req.eventId) || (req.eventId.owner == owner && req.eventId.serial < serial)
      modifies this`files, this`log, this`serial, this`turn
      ensures Valid() && old(log) <= log
      ensures old(turn) <= turn
      ensures Alone(old(turn), turn) ==> Meets(rules, old(log), log, req, readback, res)
      ensures forall i :: |old(log)| <= i < |log| && log[i].eventId.Minted? && log[i].eventId.owner == owner ==>
        log[i].eventId == req.eventId
      ensures res.Success? ==> InLog(log, res.value) && Last(log) == Some(res.value)
      ensures res.Success? ==> Linearized(rules, old(log), log, owner, req, readback, res.value)
    {
      hide ValidHistory, ValidCheckpoint, Decide, Meets, Linearized, InLog;
      var h := History();
      match Decide(rules, h, req, readback)
      case Reject =>
        DecisionMeets(rules, h, log, req, readback, Failure);
        return Failure;
      case Confirm(current) =>
        res := PublishConfirmed(req, readback, current);
        LinearizedEarlier(rules, old(log), h, log, owner, req, readback, res);
      case Write(cp) =>
        res := PublishWritten(req, readback, cp);
        LinearizedEarlier(rules, old(log), h, log, owner, req, readback, res);
    }

    method PublishConfirmed(req: Request, readback: bool, current: Checkpoint) returns (res: Result<Checkpoint>)
      requires Valid() && Decide(rules, log, req, readback) == Confirm(current)
      modifies this`files, this`log, this`turn
      ensures Valid() && OthersOnly()
      ensures res.Success? ==> InLog(log, res.value) && Last(log) == Some(res.value)
      ensures res.Success? ==> Linearized(rules, old(log), log, owner, req, readback, res.value)
      ensures old(turn) <= turn && (Alone(old(turn), turn) ==> Meets(rules, old(log), log, req, readback, res))
    {
      hide ValidHistory, ValidCheckpoint, Decide, Meets;
      ghost var h := log;
      assert h[..|h|] == h;
      ConfirmedIsInLog(rules, log, |h|, req, readback);
      res := Confirmation(current);
      assert log[..|h|] == h;
      assert res.Success? ==> DecidedAt(rules, h, log, owner, req, readback, current, |h|);
      if Alone(old(turn), turn) {
        CurrentIsConfirmed(rules, h, req, readback);
        DecisionMeets(rules, h, log, req, readback, res);
      }
    }

    method PublishWritten(req: Request, readback: bool, cp: Checkpoint) returns (res: Result<Checkpoint>)
      requires Valid() && Decide(rules, log, req, readback) == Write(cp)
      requires req.eventId.Minted? ==> HasEvent(log, req.eventId) || (req.eventId.owner == owner && req.eventId.serial < serial)
      modifies this`files, this`log, this`serial, this`turn
      ensures Valid() && old(log) <= log
      ensures forall i :: |old(log)| <= i < |log| && log[i].eventId.Minted? && log[i].eventId.owner == owner ==>
        log[i].eventId == req.eventId
      ensures res.Success? ==> InLog(log, res.value) && Last(log) == Some(res.value)
      ensures res.Success? ==> Linearized(rules, old(log), log, owner, req, readback, res.value)
      ensures old(turn) <= turn && (Alone(old(turn), turn) ==> Meets(rules, old(log), log, req, readback, res))
    {
      hide ValidHistory, ValidCheckpoint, Decide, Meets;
      ghost var h := log;
      assert h[..|h|] == h;
      WrittenLinks(rules, h, req, readback);
      WrittenIsValid(rules, h, req, readback);
      WrittenIsNew(rules, h, req, readback);
      res := PublishCandidate(cp);
      assert log[..|h|] == h;
      assert res.Success? ==> DecidedAt(rules, h, log, owner, req, readback, cp, |h|);
      if Alone(old(turn), turn) {
        DecisionMeets(rules, h, log, req, readback, res);
      }
    }

    method Operation(expected: Identity, op: string) returns (res: Result<(Checkpoint, Effect)>)
      requires Valid()
      modifies this`files, this`log, this`turn
      ensures Valid() && OthersOnly()
      ensures old(turn) <= turn && (Alone(old(turn), turn) ==> files == old(files) && log == old(log))
      ensures res.Success? <==> IsCurrent(log, expected) && FindEffect(log[|log| - 1].state.effects, op).Some?
      ensures res.Success? ==>
        && Last(log) == Some(res.value.0) && InLog(log, res.value.0) && IdentityOf(res.value.0) == expected
        && FindEffect(res.value.0.state.effects, op) == Some(res.value.1)
    {
      var read := Read(Some(expected));
      if read.Failure? {
        return Failure;
      }
      var cp := read.value.value;
      var effect := FindEffect(cp.state.effects, op);
      if effect.None? {
        return Failure;
      }
      assert ValidAt(rules, log, |log| - 1);
      return Success((cp, effect.value));
    }

    /** `recoverEffect`: records the authority's answer, or confirms what is already settled. */
    method RecoverEffect(expected: Identity, op: string, outcome: Outcome, reference: Option<string>)
      returns (res: Result<Checkpoint>)
      requires Valid()
      modifies this`files, this`log, this`serial, this`turn
      ensures Valid() && old(log) <= log
      ensures res.Success? ==> InLog(log, res.value) && Last(log) == Some(res.value)
      ensures res.Success? ==> StatusIn(res.value, op).Some?
      ensures res.Success? && StatusIn(res.value, op) != Some(StatusFor(outcome)) ==>
        StatusIn(res.value, op) == Some(Committed) || StatusIn(res.value, op) == Some(NotApplied)
      ensures old(turn) <= turn
      ensures Alone(old(turn), turn) ==> Recovers(rules, old(log), log, expected, op, outcome, reference, res)
    {
      hide Records, ValidHistory;
      KnownIsFound(log, expected, op);
      var found := Operation(expected, op);
      if found.Failure? {
        return Failure;
      }
      var (cp, effect) := found.value;
      OneOfIts(rules, log, op, effect);
      if Confirmed(effect.status) {
        res := Confirmation(cp);
        return;
      }
      res := RecordAnswer(cp, op, effect, outcome, reference);
    }

    /** The answer of the authority, in one more checkpoint. */
    method RecordAnswer(cp: Checkpoint, op: string, effect: Effect, outcome: Outcome, reference: Option<string>)
      returns (res: Result<Checkpoint>)
      requires Valid() && Last(log) == Some(cp) && InLog(log, cp) && effect in cp.state.effects && effect.operationId == op && !Confirmed(effect.status)
      requires StatusIn(cp, op).Some?
      modifies this`files, this`log, this`serial, this`turn
      ensures Valid() && old(log) <= log
      ensures res.Success? ==> InLog(log, res.value) && Last(log) == Some(res.value)
      ensures res.Success? ==> StatusIn(res.value, op) == Some(StatusFor(outcome))
      ensures old(turn) <= turn
      ensures Alone(old(turn), turn) ==> Records(rules, old(log), log, cp, op, outcome, reference, res)
    {
      hide ValidHistory, Meets, Records, ResolveRequest;
      Interfere();
      if (outcome == Inconclusive) != reference.None? || (reference.Some? && !rules.safe(reference.value)) {
        NotRecorded(rules, old(log), cp, op, outcome, reference);
        return Failure;
      }
      var id := Mint();
      var req := ResolveRequest(cp, op, outcome, reference, id);
      ghost var before := log;
      ResolveNames(cp, op, outcome, reference, id);
      res := Publish(req, true);
      if res.Success? {
        ResolvedStatus(cp, op, outcome, reference, id);
        LinearizedState(rules, before, log, owner, req, true, res.value);
      }
      if Alone(old(turn), turn) {
        ResolvedIsRecorded(rules, before, log, op, effect, outcome, reference, id, res);
      }
    }

    method ClaimEffect(cp: Checkpoint, op: string) returns (res: Result<Checkpoint>)
      requires Valid() && InLog(log, cp) && StatusIn(cp, op) == Some(Prepared)
      modifies this`files, this`log, this`serial, this`turn
      ensures Valid() && old(log) <= log
      ensures res.Success? ==> InLog(log, res.value) && OwnsClaim(old(log), log, owner, op, IdentityOf(cp), res.value.generation)
      ensures old(turn) <= turn
      ensures Alone(old(turn), turn) && Last(old(log)) == Some(cp) ==> Claims(rules, old(log), log, cp, op, res)
    {
      hide Meets, Claims, ValidHistory;
      var id := Mint();
      var req := ClaimRequest(cp, op, id);
      ghost var first := serial;
      res := Publish(req, false);
      if res.Success? {
        ClaimIsOwn(rules, old(log), log, owner, first, op, cp, req, res.value);
      }
      if Alone(old(turn), turn) && Last(old(log)) == Some(cp) {
        ClaimIsMet(rules, old(log), log, op, FindEffect(cp.state.effects, op).value, id, res);
      }
    }

    /** `executeEffect`: the callback runs at most once per call, and only after this call's own
        claim was published as the direct successor of the prepared state it read. */
    method ExecuteEffect(expected: Identity, op: string, outcome: Outcome, reference: Option<string>)
      returns (res: Result<Checkpoint>)
      requires Valid()
      modifies this
      ensures Valid() && old(log) <= log
      ensures dispatched == old(dispatched) || exists g ::
        dispatched == old(dispatched) + [g] && OwnsClaim(old(log), log, owner, op, expected, g)
      ensures res.Success? && dispatched == old(dispatched) ==> StatusIn(res.value, op) == Some(Committed)
      ensures old(turn) <= turn
      ensures Alone(old(turn), turn) ==>
        Executes(rules, old(log), log, old(dispatched), dispatched, expected, op, outcome, reference, res)
    {
      hide OwnsClaim, ValidHistory, WithEffect, Recovers;
      KnownIsFound(log, expected, op);
      var found := Operation(expected, op);
      if found.Failure? {
        return Failure;
      }
      var (cp, effect) := found.value;
      OneOfIts(rules, log, op, effect);
      if effect.status == Committed {
        res := Confirmation(cp);
        return;
      }
      if effect.status != Prepared {
        return Failure;
      }
      ghost var before := log;
      res := Dispatch(cp, op, expected, effect, outcome, reference);
      if dispatched != old(dispatched) {
        ghost var g :| dispatched == old(dispatched) + [g] && OwnsClaim(before, log, owner, op, expected, g);
        ClaimSurvives(old(log), before, log, log, owner, op, expected, g);
      }
    }

    /** The claim, the callback and the readback. */
    method Dispatch(cp: Checkpoint, op: string, expected: Identity, effect: Effect, outcome: Outcome, reference: Option<string>)
      returns (res: Result<Checkpoint>)
      requires Valid() && Last(log) == Some(cp) && InLog(log, cp) && StatusIn(cp, op) == Some(Prepared) && expected == IdentityOf(cp)
      requires effect in cp.state.effects && effect.operationId == op && effect.status == Prepared
      requires forall f :: f in cp.state.effects && f.operationId == op ==> f == effect
      modifies this
      ensures Valid() && old(log) <= log
      ensures dispatched == old(dispatched) || exists g ::
        dispatched == old(dispatched) + [g] && OwnsClaim(old(log), log, owner, op, expected, g)
      ensures res.Success? ==> dispatched != old(dispatched)
      ensures old(turn) <= turn
      ensures Alone(old(turn), turn) ==>
        Executes(rules, old(log), log, old(dispatched), dispatched, expected, op, outcome, reference, res)
    {
      hide OwnsClaim, ValidHistory, Claims, Executes, Recovers;
      var claimed := ClaimEffect(cp, op);
      if claimed.Failure? {
        if Alone(old(turn), turn) {
          NothingExecuted(rules, old(log), dispatched, expected, op, effect, outcome, reference, log);
        }
        return Failure;
      }
      dispatched := dispatched + [claimed.value.generation];
      ghost var claimLog := log;
      assert ValidHistory(rules, claimLog);
      Interfere();
      res := RecoverEffect(IdentityOf(claimed.value), op, outcome, reference);
      ClaimSurvives(old(log), old(log), claimLog, log, owner, op, expected, claimed.value.generation);
      if Alone(old(turn), turn) {
        ClaimIsLast(rules, old(log), claimLog, cp, op, claimed);
        ExecutionIsWhole(rules, old(log), claimLog, log, old(dispatched), dispatched, expected, op, effect, outcome, reference, res);
      }
    }
  }

  lemma NothingExecuted(r: Rules, h: History, calls: seq<nat>, expected: Identity, op: string, e: Effect, outcome: Outcome, reference: Option<string>, h': History)
    requires IsKnown(h, expected, op) && e in h[|h| - 1].state.effects && e.operationId == op && e.status == Prepared
    requires forall f :: f in h[|h| - 1].state.effects && f.operationId == op ==> f == e
    requires Claims(r, h, h', h[|h| - 1], op, Failure)
    ensures Executes(r, h, h', calls, calls, expected, op, outcome, reference, Failure)
  {
    hide Recovers, WithEffect;
  }

  lemma ClaimIsLast(r: Rules, h: History, mid: History, cp: Checkpoint, op: string, res: Result<Checkpoint>)
    requires res.Success? && Claims(r, h, mid, cp, op, res) && ValidHistory(r, mid)
    ensures r.fits(WithEffect(cp.state, op, Unknown, None)) && |h| < MAX_SAFE_INTEGER
    ensures |mid| == |h| + 1 && mid[..|h|] == h && mid[|h|] == res.value && res.value.generation == |h| + 1
    ensures res.value.state == WithEffect(cp.state, op, Unknown, None) && res.value.trigger == EffectExecuted
  {
    hide ValidHistory, WithEffect;
    LastIsValid(r, mid);
  }

  lemma ClaimSurvives(start: History, before: History, log: History, log': History, me: nat, op: string, expected: Identity, g: nat)
    requires start <= before && log <= log' && OwnsClaim(before, log, me, op, expected, g)
    ensures OwnsClaim(start, log', me, op, expected, g)
  {
  }

  lemma CurrentIs(r: Rules, log: History, cp: Checkpoint)
    requires ValidHistory(r, log) && InLog(log, cp) && Matches(Last(log), Some(IdentityOf(cp)))
    ensures Last(log) == Some(cp)
  {
    assert log[..|log|] == log;
    MatchingIsBase(log, |log|, cp, r);
  }
}
