/** Any number of `apply_plan` calls over one database, in every interleaving: transactions on snapshots,
    unique keys held until commit, crashes before and after commit, aborts, lost acknowledgements, retries,
    foreign writers and arbitrary clocks. */
module Protocol {
  import opened Prelude
  import opened Sql
  import opened Contracts
  import opened Actions
  import opened Planning
  import opened Lineage
  import opened Admissions
  import opened Transactions
  import opened Recoveries

  // ---------- states ----------

  /** Why a call looks for a committed result. */
  datatype Why = ExpiredAtEntry | ExpiredInside | AlreadyConsumed | SerializationAbort

  datatype Phase =
    | Starting
    | InTransaction(snapshot: World)
    | Ready(snapshot: World, work: Work)
    /** The result is recorded but not committed; its unique keys are held. */
    | Recorded(snapshot: World, work: Work)
    | Recovering(why: Why)
    | Returned(result: ApplyResult)
    | Raised
    | Crashed

  /** One call in one process: its catalogs, its arguments, its clock and where it is. */
  datatype Worker = Worker(cat: Catalogs, call: Call, clock: Clock, phase: Phase)

  /** One commit, with everything it was made from. */
  datatype Commit = Commit(cat: Catalogs, call: Call, clock: Clock, snapshot: World, work: Work)

  datatype Global = Global(db: World, workers: map<nat, Worker>, commits: seq<Commit>)

  /** What happens next to one worker. */
  datatype Move = Advance | AbortSerialization | Fault | Crash | CommitThenCrash | LoseAcknowledgement

  datatype Action =
    | Own(i: nat, move: Move)
    | Spawn(i: nat, worker: Worker)
    | WriteSources(sources: Store)
    | Audit(event: AuditEvent)

  // ---------- steps ----------

  /** Another transaction has recorded, and not yet finished, the same admission id or event id. */
  ghost predicate KeyHeld(g: Global, i: nat, call: Call) {
    exists j | j in g.workers && j != i && g.workers[j].phase.Recorded? ::
      SharesKey(g.workers[j].call, call)
  }

  /** Two calls collide on a unique index; the empty admission id is outside the index. */
  predicate SharesKey(a: Call, b: Call) {
    (a.admission.admissionId != "" && a.admission.admissionId == b.admission.admissionId)
    || a.eventId == b.eventId
  }

  datatype Effect = Blocked | Moves(phase: Phase) | Commits(phase: Phase)

  ghost function EntryEffect(db: World, w: Worker): Effect {
    if !EntryAccepts(w.cat, w.call) then Moves(Raised)
    else if w.clock(0) > w.call.admission.expiresAt then Moves(Recovering(ExpiredAtEntry))
    else Moves(InTransaction(db))
  }

  ghost function BodyEffect(w: Worker, snapshot: World): Effect
    requires AllExecutable(w.call.plan.items)
  {
    match Body(w.cat, snapshot, w.call, w.clock)
    case BodyExpired => Moves(Recovering(ExpiredInside))
    case BodyConsumed => Moves(Recovering(AlreadyConsumed))
    case BodyFailed => Moves(Raised)
    case BodyReady(work) => Moves(Ready(snapshot, work))
  }

  /** Recording waits for a held key, fails on a taken one, and otherwise holds its own. */
  ghost function RecordEffect(g: Global, i: nat, w: Worker, snapshot: World, work: Work): Effect {
    if KeyHeld(g, i, w.call) then Blocked
    else if Violates(g.db, w.call.admission.admissionId, w.call.eventId) then Moves(Recovering(AlreadyConsumed))
    else Moves(Recorded(snapshot, work))
  }

  ghost function CommitEffect(db: World, w: Worker, snapshot: World, work: Work, move: Move): Effect {
    if WriteConflict(work, db) then
      (if move == Advance then Moves(Recovering(SerializationAbort)) else Blocked)
    else
      match move
      case Advance => Commits(Returned(ResultOf(w.call, work)))
      case CommitThenCrash => Commits(Crashed)
      case LoseAcknowledgement => Commits(Raised)
      case _ => Blocked
  }

  ghost function RecoverEffect(db: World, w: Worker): Effect
    requires AllExecutable(w.call.plan.items)
  {
    match Recover(w.cat, db, w.call)
    case Recovered(result) => Moves(Returned(result))
    case _ => Moves(Raised)
  }

  predicate Running(phase: Phase) {
    phase.InTransaction? || phase.Ready? || phase.Recorded?
  }

  predicate Finished(phase: Phase) {
    phase.Returned? || phase.Raised? || phase.Crashed?
  }

  /** One move of worker i. */
  ghost function EffectOf(g: Global, i: nat, move: Move): Effect
    requires i in g.workers
  {
    var w := g.workers[i];
    if Finished(w.phase) then Blocked
    else if move == Crash then Moves(Crashed)
    else if move == AbortSerialization then
      (if Running(w.phase) then Moves(Recovering(SerializationAbort)) else Blocked)
    else if move == Fault then
      (if w.phase.Starting? then Blocked else Moves(Raised))
    else if w.phase.Starting? then
      (if move == Advance then EntryEffect(g.db, w) else Blocked)
    else if !AllExecutable(w.call.plan.items) then Blocked
    else
      match w.phase
      case InTransaction(s) => if move == Advance then BodyEffect(w, s) else Blocked
      case Ready(s, work) => if move == Advance then RecordEffect(g, i, w, s, work) else Blocked
      case Recorded(s, work) => CommitEffect(g.db, w, s, work, move)
      case Recovering(_) => if move == Advance then RecoverEffect(g.db, w) else Blocked
      case _ => Blocked
  }

  function SetPhase(g: Global, i: nat, phase: Phase): map<nat, Worker>
    requires i in g.workers
  {
    g.workers[i := g.workers[i].(phase := phase)]
  }

  /** The state after a commit by worker i. */
  function AfterCommit(g: Global, i: nat, phase: Phase): Global
    requires i in g.workers && g.workers[i].phase.Recorded?
  {
    var w := g.workers[i];
    Global(Committed(g.db, w.call, w.phase.work), SetPhase(g, i, phase),
           g.commits + [Commit(w.cat, w.call, w.clock, w.phase.snapshot, w.phase.work)])
  }

  ghost predicate Transition(g: Global, a: Action, h: Global) {
    match a
    case Own(i, move) =>
      i in g.workers &&
      (match EffectOf(g, i, move)
       case Blocked => false
       case Moves(phase) => h == g.(workers := SetPhase(g, i, phase))
       case Commits(phase) => g.workers[i].phase.Recorded? && h == AfterCommit(g, i, phase))
    case Spawn(i, worker) =>
      i !in g.workers && worker.phase == Starting && h == g.(workers := g.workers[i := worker])
    case WriteSources(sources) => h == g.(db := g.db.(sources := sources))
    case Audit(event) =>
      && event.eventId !in g.db.traces
      && (forall j | j in g.workers && g.workers[j].phase.Recorded? :: g.workers[j].call.eventId != event.eventId)
      && h == g.(db := g.db.(traces := g.db.traces[event.eventId := event]))
  }

  ghost predicate Initial(g: Global) {
    g.db.log == [] && g.db.quarantine == [] && g.commits == [] && g.workers == map[]
  }

  /** A finite execution of any number of workers. */
  ghost predicate Execution(states: seq<Global>, actions: seq<Action>) {
    && |states| == |actions| + 1
    && Initial(states[0])
    && forall k | 0 <= k < |actions| :: Transition(states[k], actions[k], states[k + 1])
  }

  // ---------- the moves, phase by phase ----------

  lemma EntryMoves(g: Global, i: nat)
    requires i in g.workers && g.workers[i].phase.Starting?
    ensures
      var w := g.workers[i];
      EffectOf(g, i, Advance) == Moves(if !EntryAccepts(w.cat, w.call) then Raised
                                       else if w.clock(0) > w.call.admission.expiresAt then Recovering(ExpiredAtEntry)
                                       else InTransaction(g.db))
  {
    hide EntryAccepts;
  }

  /** Where a call goes when its body ends. */
  function AfterBody(snapshot: World, outcome: BodyOutcome): Phase {
    match outcome
    case BodyExpired => Recovering(ExpiredInside)
    case BodyConsumed => Recovering(AlreadyConsumed)
    case BodyFailed => Raised
    case BodyReady(work) => Ready(snapshot, work)
  }

  lemma BodyMoves(g: Global, i: nat, snapshot: World)
    requires i in g.workers && g.workers[i].phase == InTransaction(snapshot)
    requires AllExecutable(g.workers[i].call.plan.items)
    ensures
      var w := g.workers[i];
      EffectOf(g, i, Advance) == Moves(AfterBody(snapshot, Body(w.cat, snapshot, w.call, w.clock)))
  {
    hide EntryEffect;
    hide RecordEffect;
    hide CommitEffect;
    hide RecoverEffect;
    hide Body;
  }

  lemma RecordMoves(g: Global, i: nat, snapshot: World, work: Work)
    requires i in g.workers && g.workers[i].phase == Ready(snapshot, work)
    requires AllExecutable(g.workers[i].call.plan.items) && !KeyHeld(g, i, g.workers[i].call)
    ensures EffectOf(g, i, Advance)
         == Moves(if Violates(g.db, g.workers[i].call.admission.admissionId, g.workers[i].call.eventId)
                  then Recovering(AlreadyConsumed) else Recorded(snapshot, work))
  {
    hide EntryEffect;
    hide BodyEffect;
    hide CommitEffect;
    hide RecoverEffect;
    hide KeyHeld;
    hide Violates;
  }

  lemma CommitMoves(g: Global, i: nat, snapshot: World, work: Work)
    requires i in g.workers && g.workers[i].phase == Recorded(snapshot, work)
    requires AllExecutable(g.workers[i].call.plan.items)
    ensures WriteConflict(work, g.db) ==>
              EffectOf(g, i, Advance) == Moves(Recovering(SerializationAbort))
    ensures !WriteConflict(work, g.db) ==>
              EffectOf(g, i, Advance) == Commits(Returned(ResultOf(g.workers[i].call, work)))
    ensures !WriteConflict(work, g.db) ==> EffectOf(g, i, LoseAcknowledgement) == Commits(Raised)
  {
    hide EntryEffect;
    hide BodyEffect;
    hide RecordEffect;
    hide RecoverEffect;
    hide WriteConflict;
    hide ResultOf;
  }

  // ---------- the invariant ----------

  /** The rows all commits together put into quarantine. */
  function CommittedCopies(commits: seq<Commit>): seq<Copy> {
    if commits == [] then []
    else CommittedCopies(commits[..|commits| - 1]) + commits[|commits| - 1].work.copies
  }

  /** A commit was made by an accepted call whose body ran to its end on the snapshot. */
  ghost predicate Sound(c: Commit) {
    EntryAccepts(c.cat, c.call) && Body(c.cat, c.snapshot, c.call, c.clock) == BodyReady(c.work)
  }

  /** The result carries the identity, counts and fingerprint of the commit. */
  ghost predicate Reports(r: ApplyResult, c: Commit) {
    var original := ResultOf(c.call, c.work);
    && r.resultId == original.resultId && r.fingerprint == original.fingerprint
    && r.auditEventId == original.auditEventId && r.runId == original.runId
    && r.planId == original.planId && r.admissionId == original.admissionId
    && EvidenceOfAll(r.steps) == EvidenceOfAll(original.steps)
  }

  ghost predicate WorkerSound(g: Global, w: Worker) {
    match w.phase
    case Starting => true
    case InTransaction(_) => EntryAccepts(w.cat, w.call)
    case Ready(s, work) => EntryAccepts(w.cat, w.call) && Body(w.cat, s, w.call, w.clock) == BodyReady(work)
    case Recorded(s, work) =>
      && EntryAccepts(w.cat, w.call) && Body(w.cat, s, w.call, w.clock) == BodyReady(work)
      && !Violates(g.db, w.call.admission.admissionId, w.call.eventId)
    case Recovering(_) => EntryAccepts(w.cat, w.call)
    case Returned(r) =>
      exists k | 0 <= k < |g.commits| ::
        g.commits[k].call.admission.admissionId == w.call.admission.admissionId && Reports(r, g.commits[k])
    case _ => true
  }

  /** The log and the traces are those of the commits, in order. */
  ghost predicate LogMatches(g: Global) {
    && |g.db.log| == |g.commits|
    && forall k | 0 <= k < |g.commits| ::
         && g.db.log[k] == RowOf(g.commits[k].call, g.commits[k].work)
         && g.commits[k].call.eventId in g.db.traces
         && g.db.traces[g.commits[k].call.eventId] == EventOf(g.commits[k].call, g.commits[k].work)
  }

  /** No two commits share a unique key. */
  ghost predicate KeysUnique(commits: seq<Commit>) {
    forall j, k | 0 <= j < k < |commits| :: !SharesKey(commits[j].call, commits[k].call)
  }

  ghost predicate HeldApart(g: Global) {
    forall i, j | i in g.workers && j in g.workers && i != j
                  && g.workers[i].phase.Recorded? && g.workers[j].phase.Recorded? ::
      !SharesKey(g.workers[i].call, g.workers[j].call)
  }

  ghost predicate Invariant(g: Global) {
    && LogMatches(g)
    && g.db.quarantine == CommittedCopies(g.commits)
    && KeysUnique(g.commits)
    && (forall k | 0 <= k < |g.commits| :: Sound(g.commits[k]))
    && (forall i | i in g.workers :: WorkerSound(g, g.workers[i]))
    && HeldApart(g)
  }

  // ---------- preservation ----------

  /** What recovery reads is a commit, and what it returns reports that commit. */
  lemma RecoveredReportsCommit(g: Global, w: Worker)
    requires LogMatches(g) && EntryAccepts(w.cat, w.call)
    requires Recover(w.cat, g.db, w.call).Recovered?
    ensures exists k | 0 <= k < |g.commits| ::
      g.commits[k].call.admission.admissionId == w.call.admission.admissionId
      && Reports(Recover(w.cat, g.db, w.call).result, g.commits[k])
  {
    hide Recover;
    hide RowOf;
    hide EventOf;
    RecoveredFinds(g.db, w);
    var row := FindRow(g.db.log, g.db.traces, w.call.admission.admissionId).value;
    FoundInLog(g.db.log, g.db.traces, w.call.admission.admissionId);
    var k :| 0 <= k < |g.db.log| && g.db.log[k] == row;
    SameAdmission(g.commits[k]);
    RecoveredReports(w, g.db, g.commits[k]);
  }

  lemma SameAdmission(c: Commit)
    ensures RowOf(c.call, c.work).admissionId == c.call.admission.admissionId
    ensures RowOf(c.call, c.work).eventId == c.call.eventId
  {
  }

  lemma RecoveredFinds(db: World, w: Worker)
    requires AllExecutable(w.call.plan.items) && Recover(w.cat, db, w.call).Recovered?
    ensures FindRow(db.log, db.traces, w.call.admission.admissionId).Some?
  {
    hide RecoverSteps;
  }

  lemma RecoveredReports(w: Worker, db: World, c: Commit)
    requires AllExecutable(w.call.plan.items) && Recover(w.cat, db, w.call).Recovered?
    requires FindRow(db.log, db.traces, w.call.admission.admissionId) == Some(RowOf(c.call, c.work))
    requires c.call.eventId in db.traces && db.traces[c.call.eventId] == EventOf(c.call, c.work)
    requires c.call.admission.admissionId == w.call.admission.admissionId
    ensures Reports(Recover(w.cat, db, w.call).result, c)
  {
    hide RecoverSteps;
    hide EvidenceOfAll;
    hide FindRow;
    hide TargetTotal;
    hide TargetDigests;
    hide RowTotal;
  }

  lemma {:induction false} FoundInLog(log: seq<LogRow>, traces: Events, admissionId: string)
    requires FindRow(log, traces, admissionId).Some?
    ensures FindRow(log, traces, admissionId).value in log
    ensures FindRow(log, traces, admissionId).value.admissionId == admissionId
  {
    if !(log[0].admissionId == admissionId && log[0].eventId in traces) {
      FoundInLog(log[1..], traces, admissionId);
    }
  }

  /** Moving one worker to a sound phase that holds no new key keeps the invariant. */
  lemma MoveKeeps(g: Global, i: nat, phase: Phase)
    requires Invariant(g) && i in g.workers
    requires WorkerSound(g, g.workers[i].(phase := phase))
    requires phase.Recorded? ==> !KeyHeld(g, i, g.workers[i].call)
    ensures Invariant(g.(workers := SetPhase(g, i, phase)))
  {
    hide EntryAccepts;
    hide Body;
    hide Violates;
    hide Sound;
    hide Reports;
    hide HeldApart;
    var h := g.(workers := SetPhase(g, i, phase));
    forall j | j in h.workers ensures WorkerSound(h, h.workers[j]) {
      if j != i {
        assert WorkerSound(g, g.workers[j]);
      }
    }
    MoveKeepsApart(g, i, phase);
  }

  lemma MoveKeepsApart(g: Global, i: nat, phase: Phase)
    requires HeldApart(g) && i in g.workers
    requires phase.Recorded? ==> !KeyHeld(g, i, g.workers[i].call)
    ensures HeldApart(g.(workers := SetPhase(g, i, phase)))
  {
    var h := g.(workers := SetPhase(g, i, phase));
    forall a, b | a in h.workers && b in h.workers && a != b
                  && h.workers[a].phase.Recorded? && h.workers[b].phase.Recorded?
      ensures !SharesKey(h.workers[a].call, h.workers[b].call)
    {
      if a == i {
        assert b != i && g.workers[b].phase.Recorded?;
        assert !SharesKey(g.workers[b].call, g.workers[i].call);
      } else if b == i {
        assert !SharesKey(g.workers[a].call, g.workers[i].call);
      }
    }
  }

  lemma OwnMoveSound(g: Global, i: nat, move: Move)
    requires i in g.workers && EffectOf(g, i, move).Moves?
    requires WorkerSound(g, g.workers[i]) && LogMatches(g)
    ensures WorkerSound(g, g.workers[i].(phase := EffectOf(g, i, move).phase))
    ensures EffectOf(g, i, move).phase.Recorded? ==> !KeyHeld(g, i, g.workers[i].call)
  {
    hide EntryAccepts;
    hide Body;
    hide Violates;
    hide Recover;
    hide Reports;
    hide LogMatches;
    hide WriteConflict;
    hide ResultOf;
    var w := g.workers[i];
    if w.phase.Recovering? && move == Advance && AllExecutable(w.call.plan.items)
       && Recover(w.cat, g.db, w.call).Recovered? {
      RecoveredReportsCommit(g, w);
    }
  }

  lemma CommitKeeps(g: Global, i: nat, phase: Phase)
    requires Invariant(g) && i in g.workers && g.workers[i].phase.Recorded?
    requires phase in {Returned(ResultOf(g.workers[i].call, g.workers[i].phase.work)), Raised, Crashed}
    ensures Invariant(AfterCommit(g, i, phase))
  {
    hide WorkerSound;
    hide LogMatches;
    hide KeysUnique;
    hide Sound;
    hide HeldApart;
    var h := AfterCommit(g, i, phase);
    assert h.commits[..|g.commits|] == g.commits;
    CommitLog(g, i, phase);
    CommitKeys(g, i, phase);
    CommitWorkers(g, i, phase);
    CommitSound(g, i, phase);
    CommitApart(g, i, phase);
  }

  lemma CommitSound(g: Global, i: nat, phase: Phase)
    requires Invariant(g) && i in g.workers && g.workers[i].phase.Recorded?
    ensures forall k | 0 <= k < |AfterCommit(g, i, phase).commits| :: Sound(AfterCommit(g, i, phase).commits[k])
  {
    hide EntryAccepts;
    hide Body;
    hide LogMatches;
    hide KeysUnique;
    hide HeldApart;
    hide Committed;
    var h := AfterCommit(g, i, phase);
    assert WorkerSound(g, g.workers[i]);
    forall k | 0 <= k < |h.commits| ensures Sound(h.commits[k]) {
      if k < |g.commits| {
        assert h.commits[k] == g.commits[k];
      }
    }
  }

  lemma CommitApart(g: Global, i: nat, phase: Phase)
    requires HeldApart(g) && i in g.workers && g.workers[i].phase.Recorded? && !phase.Recorded?
    ensures HeldApart(AfterCommit(g, i, phase))
  {
    hide Committed;
    var h := AfterCommit(g, i, phase);
    forall a, b | a in h.workers && b in h.workers && a != b
                  && h.workers[a].phase.Recorded? && h.workers[b].phase.Recorded?
      ensures !SharesKey(h.workers[a].call, h.workers[b].call)
    {
      assert a != i && b != i;
    }
  }

  lemma CommitLog(g: Global, i: nat, phase: Phase)
    requires Invariant(g) && i in g.workers && g.workers[i].phase.Recorded?
    ensures LogMatches(AfterCommit(g, i, phase))
  {
    hide EntryAccepts;
    hide Body;
    hide RowOf;
    hide EventOf;
    var w := g.workers[i];
    assert WorkerSound(g, w);
  }

  lemma CommitKeys(g: Global, i: nat, phase: Phase)
    requires Invariant(g) && i in g.workers && g.workers[i].phase.Recorded?
    ensures KeysUnique(AfterCommit(g, i, phase).commits)
  {
    hide EntryAccepts;
    hide Body;
    hide EventOf;
    var w := g.workers[i];
    var h := AfterCommit(g, i, phase);
    assert WorkerSound(g, w);
    forall j, k | 0 <= j < k < |h.commits| ensures !SharesKey(h.commits[j].call, h.commits[k].call) {
      if k == |g.commits| {
        assert h.commits[j] == g.commits[j] && h.commits[k].call == w.call;
        assert g.db.log[j] == RowOf(g.commits[j].call, g.commits[j].work);
        assert g.db.log[j] in g.db.log;
      }
    }
  }

  lemma CommitWorkers(g: Global, i: nat, phase: Phase)
    requires Invariant(g) && i in g.workers && g.workers[i].phase.Recorded?
    requires phase in {Returned(ResultOf(g.workers[i].call, g.workers[i].phase.work)), Raised, Crashed}
    ensures forall j | j in AfterCommit(g, i, phase).workers ::
              WorkerSound(AfterCommit(g, i, phase), AfterCommit(g, i, phase).workers[j])
  {
    hide EntryAccepts;
    hide Body;
    hide Sound;
    hide LogMatches;
    hide KeysUnique;
    var w := g.workers[i];
    var h := AfterCommit(g, i, phase);
    forall j | j in h.workers ensures WorkerSound(h, h.workers[j]) {
      if j == i {
        assert h.commits[|g.commits|].call == w.call;
      } else {
        assert WorkerSound(g, g.workers[j]);
        if g.workers[j].phase.Recorded? {
          assert !SharesKey(g.workers[i].call, g.workers[j].call);
        } else if g.workers[j].phase.Returned? {
          ReturnedStays(g, h, g.workers[j]);
        }
      }
    }
  }

  lemma ReturnedStays(g: Global, h: Global, w: Worker)
    requires w.phase.Returned? && WorkerSound(g, w) && g.commits <= h.commits
    ensures WorkerSound(h, w)
  {
    var k :| 0 <= k < |g.commits|
      && g.commits[k].call.admission.admissionId == w.call.admission.admissionId
      && Reports(w.phase.result, g.commits[k]);
    assert h.commits[k] == g.commits[k];
  }

  /** Foreign writes touch neither the log, nor a trace that is there, nor a held key. */
  lemma ForeignKeeps(g: Global, h: Global)
    requires Invariant(g) && h.workers == g.workers && h.commits == g.commits
    requires h.db.log == g.db.log && h.db.quarantine == g.db.quarantine
    requires forall id | id in g.db.traces :: id in h.db.traces && h.db.traces[id] == g.db.traces[id]
    requires forall j | j in g.workers && g.workers[j].phase.Recorded? ::
      g.workers[j].call.eventId in h.db.traces ==> g.workers[j].call.eventId in g.db.traces
    ensures Invariant(h)
  {
    hide EntryAccepts;
    hide Body;
    hide Sound;
    hide Reports;
    forall j | j in h.workers ensures WorkerSound(h, h.workers[j]) {
      assert WorkerSound(g, g.workers[j]);
    }
  }

  lemma SpawnKeeps(g: Global, i: nat, worker: Worker)
    requires Invariant(g) && i !in g.workers && worker.phase == Starting
    ensures Invariant(g.(workers := g.workers[i := worker]))
  {
    hide EntryAccepts;
    hide Body;
    hide Sound;
    hide Reports;
    hide Violates;
    var h := g.(workers := g.workers[i := worker]);
    forall j | j in h.workers ensures WorkerSound(h, h.workers[j]) {
      if j != i {
        assert WorkerSound(g, g.workers[j]);
      }
    }
  }

  lemma InvariantParts(g: Global, i: nat)
    requires Invariant(g) && i in g.workers
    ensures WorkerSound(g, g.workers[i]) && LogMatches(g)
  {
  }

  lemma TransitionKeeps(g: Global, a: Action, h: Global)
    requires Invariant(g) && Transition(g, a, h)
    ensures Invariant(h)
  {
    hide Invariant;
    hide KeyHeld;
    hide WorkerSound;
    hide EntryAccepts;
    hide Body;
    hide Recover;
    match a
    case Own(i, move) =>
      if EffectOf(g, i, move).Moves? {
        InvariantParts(g, i);
        OwnMoveSound(g, i, move);
        MoveKeeps(g, i, EffectOf(g, i, move).phase);
      } else {
        CommitKeeps(g, i, EffectOf(g, i, move).phase);
      }
    case Spawn(i, worker) => SpawnKeeps(g, i, worker);
    case WriteSources(_) => ForeignKeeps(g, h);
    case Audit(_) => ForeignKeeps(g, h);
  }

  /** Every state of every execution satisfies the invariant. */
  lemma {:induction false} InvariantHolds(states: seq<Global>, actions: seq<Action>, k: nat)
    requires Execution(states, actions) && k < |states|
    ensures Invariant(states[k])
  {
    hide Transition;
    hide Invariant;
    if k == 0 {
      InitialInvariant(states[0]);
    } else {
      InvariantHolds(states, actions, k - 1);
      TransitionKeeps(states[k - 1], actions[k - 1], states[k]);
    }
  }

  lemma InitialInvariant(g: Global)
    requires Initial(g)
    ensures Invariant(g)
  {
  }
}
