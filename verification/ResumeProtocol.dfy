/** Any number of processes sharing one checkpoint directory (src/resume-checkpoint.ts).

    A world is the directory plus one program counter per running process. Every step is
    one file-system primitive, one callback event or one local decision; a process may
    stop for ever after any of them. `log`, `origins` and `dispatches` only record what
    happened; no step reads them. */
module ResumeProtocol {
  import opened Wrappers
  import opened ResumeSchema
  import opened ResumeHistory

  type Pid = nat

  datatype Name = Generation(n: nat) | Stage(owner: Pid, serial: nat)

  datatype Intent = Execute | Recover

  datatype Task =
    | Materialize
    | Claim(op: string, base: Checkpoint)
    | Resolve(op: string, base: Checkpoint, outcome: Outcome, reference: Option<string>)

  datatype Proc =
    | Looking(intent: Intent, op: string, expected: Identity, names: set<nat>)
    | Querying(op: string, base: Checkpoint)
    | Entering(req: Request, task: Task)
    | Listed(req: Request, task: Task, names: set<nat>)
    | Staging(task: Task, cp: Checkpoint)
    | Publishing(task: Task, cp: Checkpoint, serial: nat)
    | Confirming(task: Task, cp: Checkpoint)
    | Checking(task: Task, cp: Checkpoint, names: set<nat>)
    | Executing(op: string, cp: Checkpoint, fired: bool)

  datatype Dispatch = Dispatch(owner: Pid, op: string, generation: nat)

  datatype World = World(
    files: map<Name, Checkpoint>,
    procs: map<Pid, Proc>,
    clock: nat,
    inflight: multiset<string>,
    applied: multiset<string>,
    log: History,
    origins: seq<Task>,
    dispatches: seq<Dispatch>)

  const Init := World(map[], map[], 0, multiset{}, multiset{}, [], [], [])

  // ---- Reading the directory ----

  function Range(n: nat): (s: set<nat>)
    ensures forall i :: i in s <==> 1 <= i <= n
    ensures |s| == n
  {
    if n == 0 then {} else Range(n - 1) + {n}
  }

  function GenerationsIn(files: map<Name, Checkpoint>): set<nat> {
    set name | name in files && name.Generation? :: name.n
  }

  /** `history()` over a listing taken earlier: a gap, a missing file or an invalid chain rejects. */
  function Loaded(r: Rules, files: map<Name, Checkpoint>, names: set<nat>): Option<History> {
    var n := |names|;
    if names != Range(n) || exists i :: 1 <= i <= n && Generation(i) !in files then None
    else
      var h := seq(n, i requires 0 <= i < n => files[Generation(i + 1)]);
      if ValidHistory(r, h) then Some(h) else None
  }

  // ---- Steps ----

  datatype Step =
    | Look(p: Pid, intent: Intent, op: string, expected: Identity)
    | Load(p: Pid)
    | Answer(p: Pid, outcome: Outcome, reference: Option<string>)
    | Ask(p: Pid, req: Request)
    | List(p: Pid)
    | Choose(p: Pid)
    | StageFile(p: Pid)
    | Rename(p: Pid)
    | Relist(p: Pid)
    | Accept(p: Pid)
    | Fire(p: Pid)
    | Detach(p: Pid)
    | Return(p: Pid)
    | Stop(p: Pid)
    | Land(op: string)
    | Lose(op: string)

  /** A process that may still apply the effect of `op`: its claim is published and its
      callback has neither applied the effect nor returned. The confirming read counts. */
  predicate ActiveOn(proc: Proc, op: string) {
    || ((proc.Confirming? || proc.Checking?) && proc.task.Claim? && proc.task.op == op)
    || (proc.Executing? && proc.op == op && !proc.fired)
  }

  predicate NoneActive(w: World, op: string) {
    w.inflight[op] == 0 && forall p :: p in w.procs ==> !ActiveOn(w.procs[p], op)
  }

  /** The readback contract: APPLIED proves the effect, NOT_APPLIED proves its absence and
      the absence of an active execution. */
  predicate Truthful(w: World, op: string, outcome: Outcome) {
    && (outcome == Applied ==> w.applied[op] > 0)
    && (outcome == Absent ==> w.applied[op] == 0 && NoneActive(w, op))
  }

  predicate Enabled(w: World, s: Step, contract: bool) {
    match s
    case Look(p, _, _, _) => p !in w.procs
    case Ask(p, req) => p !in w.procs && (req.eventId.Named? || HasEvent(w.log, req.eventId))
    case Land(op) => w.inflight[op] > 0
    case Lose(op) => w.inflight[op] > 0
    case Load(p) => p in w.procs && w.procs[p].Looking?
    case Answer(p, outcome, _) =>
      p in w.procs && w.procs[p].Querying? && (contract ==> Truthful(w, w.procs[p].op, outcome))
    case List(p) => p in w.procs && w.procs[p].Entering?
    case Choose(p) => p in w.procs && w.procs[p].Listed?
    case StageFile(p) => p in w.procs && w.procs[p].Staging?
    case Rename(p) => p in w.procs && w.procs[p].Publishing?
    case Relist(p) => p in w.procs && w.procs[p].Confirming?
    case Accept(p) => p in w.procs && w.procs[p].Checking?
    case Fire(p) => p in w.procs && w.procs[p].Executing? && !w.procs[p].fired
    case Detach(p) => p in w.procs && w.procs[p].Executing? && !w.procs[p].fired
    case Return(p) => p in w.procs && w.procs[p].Executing?
    case Stop(p) => p in w.procs
  }

  /** Process `p` moves to `proc`, or ends when there is none. */
  function Goto(w: World, p: Pid, proc: Option<Proc>): World {
    w.(procs := if proc.Some? then w.procs[p := proc.value] else w.procs - {p})
  }

  function AfterLoad(r: Rules, w: World, p: Pid, me: Proc): World
    requires me.Looking?
  {
    var h := Loaded(r, w.files, me.names);
    if h.None? || h.value == [] || !Matches(Last(h.value), Some(me.expected)) then Goto(w, p, None)
    else
      var cp := Last(h.value).value;
      var e := FindEffect(cp.state.effects, me.op);
      if e.None? then Goto(w, p, None)
      else if me.intent == Execute then
        if e.value.status != Prepared then Goto(w, p, None)
        else
          var req := ClaimRequest(cp, me.op, Minted(p, w.clock));
          Goto(w, p, Some(Entering(req, Claim(me.op, cp)))).(clock := w.clock + 1)
      else if Confirmed(e.value.status) then Goto(w, p, None)
      else Goto(w, p, Some(Querying(me.op, cp)))
  }

  function AfterAnswer(r: Rules, w: World, p: Pid, me: Proc, outcome: Outcome, reference: Option<string>): World
    requires me.Querying?
  {
    if (outcome == Inconclusive) != reference.None? || (reference.Some? && !r.safe(reference.value)) then Goto(w, p, None)
    else
      var req := ResolveRequest(me.base, me.op, outcome, reference, Minted(p, w.clock));
      Goto(w, p, Some(Entering(req, Resolve(me.op, me.base, outcome, reference)))).(clock := w.clock + 1)
  }

  function AfterChoose(r: Rules, w: World, p: Pid, me: Proc): World
    requires me.Listed?
  {
    var h := Loaded(r, w.files, me.names);
    if h.None? then Goto(w, p, None)
    else
      match Decide(r, h.value, me.req, me.task.Resolve?)
      case Reject => Goto(w, p, None)
      case Confirm(current) => Goto(w, p, Some(Confirming(me.task, current)))
      case Write(cp) => Goto(w, p, Some(Staging(me.task, cp)))
  }

  /** Exclusive creation of a fresh staging file followed by its validated readback. */
  function AfterStage(r: Rules, w: World, p: Pid, me: Proc): World
    requires me.Staging?
  {
    var name := Stage(p, w.clock);
    if name in w.files then Goto(w, p, None)
    else
      var w' := w.(files := w.files[name := me.cp], clock := w.clock + 1);
      Goto(w', p, if ValidCheckpoint(r, me.cp) then Some(Publishing(me.task, me.cp, w.clock)) else None)
  }

  /** The rename never replaces a published generation. */
  function AfterRename(w: World, p: Pid, me: Proc): World
    requires me.Publishing?
  {
    var from, to := Stage(p, me.serial), Generation(me.cp.generation);
    if from !in w.files || to in w.files then Goto(w, p, None)
    else
      Goto(w, p, Some(Confirming(me.task, me.cp))).(
        files := (w.files - {from})[to := w.files[from]],
        log := w.log + [w.files[from]],
        origins := w.origins + [me.task])
  }

  function AfterAccept(r: Rules, w: World, p: Pid, me: Proc): World
    requires me.Checking?
  {
    var h := Loaded(r, w.files, me.names);
    if h.None? || !Matches(Last(h.value), Some(IdentityOf(me.cp))) || !me.task.Claim? then Goto(w, p, None)
    else
      Goto(w, p, Some(Executing(me.task.op, me.cp, false))).(
        dispatches := w.dispatches + [Dispatch(p, me.task.op, me.cp.generation)])
  }

  function Do(r: Rules, w: World, s: Step): World
    requires Enabled(w, s, false)
  {
    match s
    case Look(p, intent, op, expected) => Goto(w, p, Some(Looking(intent, op, expected, GenerationsIn(w.files))))
    case Load(p) => AfterLoad(r, w, p, w.procs[p])
    case Answer(p, outcome, reference) => AfterAnswer(r, w, p, w.procs[p], outcome, reference)
    case Ask(p, req) => Goto(w, p, Some(Entering(req, Materialize)))
    case List(p) => Goto(w, p, Some(Listed(w.procs[p].req, w.procs[p].task, GenerationsIn(w.files))))
    case Choose(p) => AfterChoose(r, w, p, w.procs[p])
    case StageFile(p) => AfterStage(r, w, p, w.procs[p])
    case Rename(p) => AfterRename(w, p, w.procs[p])
    case Relist(p) => Goto(w, p, Some(Checking(w.procs[p].task, w.procs[p].cp, GenerationsIn(w.files))))
    case Accept(p) => AfterAccept(r, w, p, w.procs[p])
    case Fire(p) =>
      var me := w.procs[p];
      Goto(w, p, Some(me.(fired := true))).(applied := w.applied + multiset{me.op})
    case Detach(p) => Goto(w, p, None).(inflight := w.inflight + multiset{w.procs[p].op})
    case Return(p) => Goto(w, p, None)
    case Stop(p) => Goto(w, p, None)
    case Land(op) => w.(inflight := w.inflight - multiset{op}, applied := w.applied + multiset{op})
    case Lose(op) => w.(inflight := w.inflight - multiset{op})
  }

  ghost predicate Next(r: Rules, contract: bool, w: World, w': World) {
    exists s :: Enabled(w, s, contract) && Enabled(w, s, false) && w' == Do(r, w, s)
  }

  /** A finite run from the empty directory. */
  ghost predicate Run(r: Rules, contract: bool, ws: seq<World>) {
    && 0 < |ws| && ws[0] == Init
    && forall i :: 0 <= i < |ws| - 1 ==> Next(r, contract, ws[i], ws[i + 1])
  }
}
