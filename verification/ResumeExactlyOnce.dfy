/** Exactly-once dispatch of external effects over every interleaving (src/resume-checkpoint.ts:195-218). */
module ResumeExactlyOnce {
  import opened Wrappers
  import opened ResumeSchema
  import opened ResumeHistory
  import opened ResumeProtocol
  import opened ResumeSafety

  /** An answer that was read back but not yet published. */
  predicate Answered(proc: Proc, op: string, outcome: Outcome) {
    && (proc.Entering? || proc.Listed? || proc.Staging? || proc.Publishing?)
    && proc.task.Resolve? && proc.task.op == op && proc.task.outcome == outcome
  }

  ghost predicate OneActive(w: World, op: string) {
    forall p, q :: p in w.procs && q in w.procs && ActiveOn(w.procs[p], op) && ActiveOn(w.procs[q], op) ==> p == q
  }

  ghost predicate Untouched(w: World, op: string) {
    w.applied[op] == 0 && NoneActive(w, op)
  }

  predicate Unclaimed(s: Option<EffectStatus>) {
    s == None || s == Some(Prepared) || s == Some(NotApplied)
  }

  predicate IsConfirmed(s: Option<EffectStatus>) {
    s == Some(Committed) || s == Some(NotApplied)
  }

  /** What is true of one operation in every world reachable under the readback contract. */
  ghost predicate Exact(w: World, op: string) {
    && OneActive(w, op)
    && (forall p :: p in w.procs && ActiveOn(w.procs[p], op) ==> w.inflight[op] == 0 && w.applied[op] == 0)
    && w.inflight[op] + w.applied[op] <= 1
    && (Unclaimed(CurrentStatus(w.log, op)) ==> Untouched(w, op))
    && (CurrentStatus(w.log, op) == Some(Committed) ==> w.applied[op] == 1)
    && (forall p :: p in w.procs && Answered(w.procs[p], op, Absent) && w.procs[p].task.base.generation == |w.log| ==> Untouched(w, op))
    && (forall p :: p in w.procs && Answered(w.procs[p], op, Applied) ==> w.applied[op] == 1)
  }

  /** Process `p` moves without touching the log or the outside world. */
  lemma QuietStepIsExact(w: World, w': World, p: Pid, next: Option<Proc>, op: string)
    requires Exact(w, op)
    requires w'.log == w.log && w'.inflight == w.inflight && w'.applied == w.applied
    requires w'.procs == if next.Some? then w.procs[p := next.value] else w.procs - {p}
    requires next.Some? && ActiveOn(next.value, op) ==> p in w.procs && ActiveOn(w.procs[p], op)
    requires next.Some? && Answered(next.value, op, Absent) ==>
      next.value.task.base.generation != |w.log| || Untouched(w, op)
    requires next.Some? && Answered(next.value, op, Applied) ==> w.applied[op] == 1
    ensures Exact(w', op)
  {
  }

  /** How the status of an operation may change from one checkpoint of the log to the next. */
  predicate StatusChange(s: Option<EffectStatus>, s': Option<EffectStatus>, origin: Task, op: string) {
    && (s' == None ==> s == None)
    && (s' == Some(Prepared) ==> Unclaimed(s))
    && (IsConfirmed(s') && s' != s ==> origin.Resolve? && origin.op == op && s' == Some(StatusFor(origin.outcome)))
  }

  lemma StatusStep(log: History, cp: Checkpoint, origin: Task, op: string)
    requires Links(log, cp) && OriginOk(Last(log), cp, origin)
    ensures StatusChange(CurrentStatus(log, op), StatusIn(cp, op), origin, op)
  {
    var e := FindEffect(EffectsOf(Last(log)), op);
    var f := FindEffect(cp.state.effects, op);
    if e.Some? {
      assert KeepsEffect(e.value, cp);
    }
    if f.Some? && Confirmed(f.value.status) && e != f {
      assert ConfirmsEffect(Last(log), f.value);
    }
  }

  lemma AnswerStepIsExact(r: Rules, w: World, p: Pid, outcome: Outcome, reference: Option<string>, op: string)
    requires Inv(r, w) && Exact(w, op) && p in w.procs && w.procs[p].Querying?
    requires Truthful(w, w.procs[p].op, outcome)
    ensures Exact(AfterAnswer(r, w, p, w.procs[p], outcome, reference), op)
  {
    var me := w.procs[p];
    var w' := AfterAnswer(r, w, p, me, outcome, reference);
    var next := if p in w'.procs then Some(w'.procs[p]) else None;
    assert w'.procs == if next.Some? then w.procs[p := next.value] else w.procs - {p};
    QuietStepIsExact(w, w', p, next, op);
  }

  lemma ChosenProc(r: Rules, w: World, p: Pid)
    requires Inv(r, w) && p in w.procs && w.procs[p].Listed?
    ensures var (me, w') := (w.procs[p], AfterChoose(r, w, p, w.procs[p]));
      || w' == Goto(w, p, None)
      || (exists cp :: w' == Goto(w, p, Some(Staging(me.task, cp))))
      || (!me.task.Claim? && exists cp :: w' == Goto(w, p, Some(Confirming(me.task, cp))))
  {
    var me := w.procs[p];
    assert ProcOk(r, w, p, me);
    ListingReadsPrefix(r, w, me.names);
    if me.task.Claim? {
      ClaimIsNeverConfirmed(r, w.log, |me.names|, p, w.clock, me.task.op, me.task.base, me.req);
    }
  }

  lemma ChooseStepIsExact(r: Rules, w: World, p: Pid, op: string)
    requires Inv(r, w) && Exact(w, op) && p in w.procs && w.procs[p].Listed?
    ensures Exact(AfterChoose(r, w, p, w.procs[p]), op)
  {
    var me := w.procs[p];
    var w' := AfterChoose(r, w, p, me);
    ChosenProc(r, w, p);
    if w' == Goto(w, p, None) {
      QuietStepIsExact(w, w', p, None, op);
    } else if cp :| w' == Goto(w, p, Some(Staging(me.task, cp))) {
      QuietStepIsExact(w, w', p, Some(Staging(me.task, cp)), op);
    } else {
      var cp :| w' == Goto(w, p, Some(Confirming(me.task, cp)));
      QuietStepIsExact(w, w', p, Some(Confirming(me.task, cp)), op);
    }
  }

  /** Publishing: a claim starts from an untouched PREPARED operation, and a confirmed status
      records an answer that is still true because its base is still current. */
  lemma PublicationIsExact(w: World, w': World, p: Pid, task: Task, cp: Checkpoint, op: string)
    requires Exact(w, op) && w'.log == w.log + [cp] && w'.inflight == w.inflight && w'.applied == w.applied
    requires w'.procs == w.procs[p := Confirming(task, cp)]
    requires StatusChange(CurrentStatus(w.log, op), CurrentStatus(w'.log, op), task, op)
    requires task.Claim? && task.op == op ==>
      CurrentStatus(w.log, op) == Some(Prepared) && CurrentStatus(w'.log, op) == Some(Unknown)
    requires task.Resolve? && task.op == op && task.outcome == Absent ==> Untouched(w, op)
    requires task.Resolve? && task.op == op && task.outcome == Applied ==> w.applied[op] == 1
    requires forall q :: q in w.procs && Answered(w.procs[q], op, Absent) ==> w.procs[q].task.base.generation <= |w.log|
    ensures Exact(w', op)
  {
    hide CurrentStatus;
    assert forall q :: q in w'.procs && q != p ==> w'.procs[q] == w.procs[q];
    if task.Claim? && task.op == op {
      assert Untouched(w, op);
    } else {
      assert NoneActive(w, op) ==> NoneActive(w', op);
    }
  }

  lemma RenameStatus(r: Rules, log: History, p: Pid, clock: nat, task: Task, cp: Checkpoint, op: string)
    requires ValidHistory(r, log) && CandidateOk(log, p, clock, task, cp) && cp.generation == |log| + 1
    ensures CurrentStatus(log + [cp], op) == StatusIn(cp, op)
    ensures StatusChange(CurrentStatus(log, op), StatusIn(cp, op), task, op)
    ensures task.Claim? && task.op == op ==> CurrentStatus(log, op) == Some(Prepared) && StatusIn(cp, op) == Some(Unknown)
    ensures !task.Materialize? ==> task.base.generation == |log|
  {
    assert log[..cp.generation - 1] == log;
    StatusStep(log, cp, task, op);
    if !task.Materialize? {
      assert ValidAt(r, log, |log| - 1);
    }
  }

  lemma RenameStepIsExact(r: Rules, w: World, p: Pid, op: string)
    requires Inv(r, w) && Exact(w, op) && p in w.procs && w.procs[p].Publishing?
    ensures Exact(AfterRename(w, p, w.procs[p]), op)
  {
    var me := w.procs[p];
    assert ProcOk(r, w, p, me);
    var w' := AfterRename(w, p, me);
    if w' == Goto(w, p, None) {
      QuietStepIsExact(w, w', p, None, op);
    } else {
      RenameExtendsLog(r, w, p);
      RenameStatus(r, w.log, p, w.clock, me.task, me.cp, op);
      AnsweredBases(r, w, op);
      PublicationIsExact(w, w', p, me.task, me.cp, op);
    }
  }

  lemma AnsweredBases(r: Rules, w: World, op: string)
    requires Inv(r, w)
    ensures forall q :: q in w.procs && Answered(w.procs[q], op, Absent) ==> w.procs[q].task.base.generation <= |w.log|
  {
    forall q | q in w.procs && Answered(w.procs[q], op, Absent)
      ensures w.procs[q].task.base.generation <= |w.log|
    {
      assert ProcOk(r, w, q, w.procs[q]);
    }
  }

  lemma FireStepIsExact(r: Rules, w: World, p: Pid, op: string)
    requires Exact(w, op) && p in w.procs && w.procs[p].Executing? && !w.procs[p].fired
    ensures Exact(Do(r, w, Fire(p)), op)
  {
    assert ActiveOn(w.procs[p], w.procs[p].op);
  }

  lemma DetachStepIsExact(r: Rules, w: World, p: Pid, op: string)
    requires Exact(w, op) && p in w.procs && w.procs[p].Executing? && !w.procs[p].fired
    ensures Exact(Do(r, w, Detach(p)), op)
  {
    assert ActiveOn(w.procs[p], w.procs[p].op);
  }

  lemma LandStepIsExact(w: World, landed: string, op: string)
    requires Exact(w, op) && w.inflight[landed] > 0
    ensures Exact(w.(inflight := w.inflight - multiset{landed}, applied := w.applied + multiset{landed}), op)
    ensures Exact(w.(inflight := w.inflight - multiset{landed}), op)
  {
  }

  lemma LoadStepIsExact(r: Rules, w: World, p: Pid, op: string)
    requires Exact(w, op) && p in w.procs && w.procs[p].Looking?
    ensures Exact(AfterLoad(r, w, p, w.procs[p]), op)
  {
    hide Loaded, Matches, ClaimRequest, FindEffect, ValidHistory, Exact;
    var w' := AfterLoad(r, w, p, w.procs[p]);
    QuietStepIsExact(w, w', p, if p in w'.procs then Some(w'.procs[p]) else None, op);
  }

  lemma StageStepIsExact(r: Rules, w: World, p: Pid, op: string)
    requires Exact(w, op) && p in w.procs && w.procs[p].Staging?
    ensures Exact(AfterStage(r, w, p, w.procs[p]), op)
  {
    var w' := AfterStage(r, w, p, w.procs[p]);
    QuietStepIsExact(w, w', p, if p in w'.procs then Some(w'.procs[p]) else None, op);
  }

  lemma AcceptStepIsExact(r: Rules, w: World, p: Pid, op: string)
    requires Exact(w, op) && p in w.procs && w.procs[p].Checking?
    ensures Exact(AfterAccept(r, w, p, w.procs[p]), op)
  {
    var w' := AfterAccept(r, w, p, w.procs[p]);
    QuietStepIsExact(w, w', p, if p in w'.procs then Some(w'.procs[p]) else None, op);
  }

  lemma ExactIsInductive(r: Rules, w: World, s: Step, op: string)
    requires Inv(r, w) && Exact(w, op) && Enabled(w, s, true) && Enabled(w, s, false)
    ensures Exact(Do(r, w, s), op)
  {
    hide Inv, Exact, AfterLoad, AfterAnswer, AfterChoose, AfterStage, AfterRename, AfterAccept;
    match s
    case Answer(p, outcome, reference) => AnswerStepIsExact(r, w, p, outcome, reference, op);
    case Choose(p) => ChooseStepIsExact(r, w, p, op);
    case Rename(p) => RenameStepIsExact(r, w, p, op);
    case Fire(p) => FireStepIsExact(r, w, p, op);
    case Detach(p) => DetachStepIsExact(r, w, p, op);
    case Land(landed) => LandStepIsExact(w, landed, op);
    case Lose(landed) => LandStepIsExact(w, landed, op);
    case Load(p) => LoadStepIsExact(r, w, p, op);
    case StageFile(p) => StageStepIsExact(r, w, p, op);
    case Accept(p) => AcceptStepIsExact(r, w, p, op);
    case Look(p, intent, operation, expected) =>
      QuietStepIsExact(w, Do(r, w, s), p, Some(Looking(intent, operation, expected, GenerationsIn(w.files))), op);
    case Ask(p, req) => QuietStepIsExact(w, Do(r, w, s), p, Some(Entering(req, Materialize)), op);
    case List(p) => ListingIsExact(r, w, s, op);
    case Relist(p) => ListingIsExact(r, w, s, op);
    case Return(p) => QuietStepIsExact(w, Do(r, w, s), p, None, op);
    case Stop(p) => QuietStepIsExact(w, Do(r, w, s), p, None, op);
  }

  lemma ListingIsExact(r: Rules, w: World, s: Step, op: string)
    requires Exact(w, op) && Enabled(w, s, false) && (s.List? || s.Relist?)
    ensures Exact(Do(r, w, s), op)
  {
    hide OneActive, Untouched, CurrentStatus;
    match s
    case List(p) =>
      QuietStepIsExact(w, Do(r, w, s), p, Some(Listed(w.procs[p].req, w.procs[p].task, GenerationsIn(w.files))), op);
    case Relist(p) =>
      QuietStepIsExact(w, Do(r, w, s), p, Some(Checking(w.procs[p].task, w.procs[p].cp, GenerationsIn(w.files))), op);
  }

  // ---- Theorems over runs ----

  lemma {:induction false} EveryRunIsSafe(r: Rules, contract: bool, ws: seq<World>, i: nat)
    requires Run(r, contract, ws) && i < |ws|
    ensures Inv(r, ws[i])
    ensures contract ==> forall op :: Exact(ws[i], op)
  {
    if i > 0 {
      EveryRunIsSafe(r, contract, ws, i - 1);
      assert Next(r, contract, ws[i - 1], ws[i]);
      var s :| Enabled(ws[i - 1], s, contract) && Enabled(ws[i - 1], s, false) && ws[i] == Do(r, ws[i - 1], s);
      InvIsInductive(r, ws[i - 1], s);
      if contract {
        forall op
          ensures Exact(ws[i], op)
        {
          ExactIsInductive(r, ws[i - 1], s, op);
        }
      }
    }
  }

  /** Under the readback contract no operation is ever applied twice, and any COMMITTED record
      in the log means that its effect was applied exactly once. PREPARED means not at all. */
  lemma EffectsAreAppliedAtMostOnce(r: Rules, ws: seq<World>, i: nat, op: string)
    requires Run(r, true, ws) && i < |ws|
    ensures ws[i].applied[op] + ws[i].inflight[op] <= 1
    ensures Unclaimed(CurrentStatus(ws[i].log, op)) ==> ws[i].applied[op] == 0
    ensures forall k :: 0 <= k < |ws[i].log| && StatusIn(ws[i].log[k], op) == Some(Committed) ==> ws[i].applied[op] == 1
  {
    EveryRunIsSafe(r, true, ws, i);
    assert Exact(ws[i], op);
    forall k | 0 <= k < |ws[i].log| && StatusIn(ws[i].log[k], op) == Some(Committed)
      ensures ws[i].applied[op] == 1
    {
      OperationPersists(r, ws[i].log, k, |ws[i].log| - 1, op);
    }
  }

  /** Without any contract: every entry into a callback follows a published claim of its process. */
  lemma EveryDispatchOwnsItsClaim(r: Rules, contract: bool, ws: seq<World>, i: nat, a: nat)
    requires Run(r, contract, ws) && i < |ws| && a < |ws[i].dispatches|
    ensures var d := ws[i].dispatches[a];
      1 <= d.generation <= |ws[i].log| && IsClaim(ws[i].log, d.owner, d.op, ws[i].log[d.generation - 1])
  {
    EveryRunIsSafe(r, contract, ws, i);
  }

  /** And no two of them follow the same claim. */
  lemma DispatchesHaveDistinctClaims(r: Rules, contract: bool, ws: seq<World>, i: nat, a: nat, b: nat)
    requires Run(r, contract, ws) && i < |ws| && a < |ws[i].dispatches| && b < |ws[i].dispatches|
    requires ws[i].dispatches[a].generation == ws[i].dispatches[b].generation
    ensures a == b
  {
    EveryRunIsSafe(r, contract, ws, i);
  }

  lemma StepKeepsLog(r: Rules, w: World, s: Step)
    requires Enabled(w, s, false)
    ensures w.log <= Do(r, w, s).log
  {
    hide AfterLoad, AfterAnswer, AfterChoose, AfterStage, AfterAccept;
    match s
    case Load(p) => ReadingKeepsLog(r, w, p, w.procs[p]);
    case Answer(p, outcome, reference) => AnswerKeepsLog(r, w, p, w.procs[p], outcome, reference);
    case Choose(p) => ReadingKeepsLog(r, w, p, w.procs[p]);
    case StageFile(p) => ReadingKeepsLog(r, w, p, w.procs[p]);
    case Accept(p) => ReadingKeepsLog(r, w, p, w.procs[p]);
    case _ =>
  }

  lemma ReadingKeepsLog(r: Rules, w: World, p: Pid, me: Proc)
    ensures me.Looking? ==> AfterLoad(r, w, p, me).log == w.log
    ensures me.Listed? ==> AfterChoose(r, w, p, me).log == w.log
    ensures me.Staging? ==> AfterStage(r, w, p, me).log == w.log
    ensures me.Checking? ==> AfterAccept(r, w, p, me).log == w.log
  {
    hide Loaded, Matches, FindEffect, ClaimRequest, Decide, ValidCheckpoint;
  }

  lemma AnswerKeepsLog(r: Rules, w: World, p: Pid, me: Proc, outcome: Outcome, reference: Option<string>)
    requires me.Querying?
    ensures AfterAnswer(r, w, p, me, outcome, reference).log == w.log
  {
    hide ResolveRequest;
  }

  lemma {:induction false} LogOnlyGrows(r: Rules, contract: bool, ws: seq<World>, i: nat, j: nat)
    requires Run(r, contract, ws) && i <= j < |ws|
    ensures ws[i].log <= ws[j].log
    decreases j - i
  {
    if i < j {
      assert Next(r, contract, ws[i], ws[i + 1]);
      var s :| Enabled(ws[i], s, contract) && Enabled(ws[i], s, false) && ws[i + 1] == Do(r, ws[i], s);
      StepKeepsLog(r, ws[i], s);
      LogOnlyGrows(r, contract, ws, i + 1, j);
    }
  }

  /** At every moment of every run the directory reads back as one valid history, and every
      history read earlier is a prefix of every later one. */
  lemma DirectoryIsAlwaysOneHistory(r: Rules, contract: bool, ws: seq<World>, i: nat, j: nat)
    requires Run(r, contract, ws) && i <= j < |ws|
    ensures
      var early := Loaded(r, ws[i].files, GenerationsIn(ws[i].files));
      var late := Loaded(r, ws[j].files, GenerationsIn(ws[j].files));
      early.Some? && late.Some? && ValidHistory(r, late.value) && early.value <= late.value
  {
    EveryRunIsSafe(r, contract, ws, i);
    EveryRunIsSafe(r, contract, ws, j);
    LogOnlyGrows(r, contract, ws, i, j);
    ListingIsCurrent(r, ws[i]);
    ListingIsCurrent(r, ws[j]);
    ListingReadsPrefix(r, ws[i], GenerationsIn(ws[i].files));
    ListingReadsPrefix(r, ws[j], GenerationsIn(ws[j].files));
  }

  /** COMMITTED and NOT_APPLIED enter the log only through `recoverEffect` on that operation. */
  lemma OnlyRecoveryConfirms(r: Rules, contract: bool, ws: seq<World>, i: nat, k: nat, op: string)
    requires Run(r, contract, ws) && i < |ws| && k < |ws[i].log|
    requires StatusIn(ws[i].log[k], op) in {Some(Committed), Some(NotApplied)}
    requires k > 0 ==> StatusIn(ws[i].log[k - 1], op) != StatusIn(ws[i].log[k], op)
    ensures |ws[i].origins| == |ws[i].log| && ws[i].origins[k].Resolve? && ws[i].origins[k].op == op
    ensures Some(StatusFor(ws[i].origins[k].outcome)) == StatusIn(ws[i].log[k], op)
    ensures FindEffect(ws[i].log[k].state.effects, op).value.reference.Some?
  {
    EveryRunIsSafe(r, contract, ws, i);
    var log := ws[i].log;
    assert OriginAt(log, ws[i].origins, k);
    assert ValidAt(r, log, k);
    var e := FindEffect(log[k].state.effects, op).value;
    assert ConfirmsEffect(Last(log[..k]), e);
  }
}
