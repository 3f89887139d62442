/** The promises of the apply protocol, over every execution: one mutation per admission, quarantine that is
    exactly the admitted rows, one result for every retry, and when each of them fails. */
module Guarantees {
  import opened Prelude
  import opened Sql
  import opened Contracts
  import opened Actions
  import opened Planning
  import opened Agreement
  import opened Evaluations
  import opened Lineage
  import opened Admissions
  import opened Journeys
  import opened Transactions
  import opened Recoveries
  import opened Effects
  import opened Merges
  import opened AdmittedRuns
  import opened Protocol

  // ---------- exactly once ----------

  ghost predicate Reachable(g: Global) {
    exists states: seq<Global>, actions: seq<Action> ::
      Execution(states, actions) && states[|actions|] == g
  }

  lemma ReachableInvariant(g: Global)
    requires Reachable(g)
    ensures Invariant(g)
  {
    var states: seq<Global>, actions: seq<Action> :| Execution(states, actions) && states[|actions|] == g;
    InvariantHolds(states, actions, |actions|);
  }

  lemma ReachableStep(g: Global, a: Action, h: Global)
    requires Reachable(g) && Transition(g, a, h)
    ensures Reachable(h)
  {
    hide Transition;
    var states: seq<Global>, actions: seq<Action> :| Execution(states, actions) && states[|actions|] == g;
    var longer, more := states + [h], actions + [a];
    forall k | 0 <= k < |more| ensures Transition(longer[k], more[k], longer[k + 1]) {
      if k < |actions| {
        assert longer[k] == states[k] && longer[k + 1] == states[k + 1];
      }
    }
    assert Execution(longer, more) && longer[|more|] == h;
  }

  /** How many rows of the apply log carry an admission id. */
  function LogCount(log: seq<LogRow>, admissionId: string): nat {
    if log == [] then 0
    else LogCount(log[..|log| - 1], admissionId) + (if log[|log| - 1].admissionId == admissionId then 1 else 0)
  }

  lemma {:induction false} NoRowNoCount(log: seq<LogRow>, admissionId: string)
    requires forall r | r in log :: r.admissionId != admissionId
    ensures LogCount(log, admissionId) == 0
  {
    if log != [] {
      var n := |log| - 1;
      assert log == log[..n] + [log[n]];
      NoRowNoCount(log[..n], admissionId);
    }
  }

  lemma {:induction false} UniqueRowCount(log: seq<LogRow>, admissionId: string)
    requires forall i, j | 0 <= i < j < |log| :: log[i].admissionId == admissionId ==> log[j].admissionId != admissionId
    ensures LogCount(log, admissionId) <= 1
  {
    if log != [] {
      var n := |log| - 1;
      if log[n].admissionId == admissionId {
        NoRowNoCount(log[..n], admissionId);
      } else {
        UniqueRowCount(log[..n], admissionId);
      }
    }
  }

  /** Exactly once: whatever the interleaving, the crashes, the aborts and the clocks, an admission with a
      non-empty id has at most one row in the apply log, every row of the quarantine belongs to a commit that
      the log records, and every commit is of an accepted call. */
  lemma ExactlyOnce(g: Global, admissionId: string)
    requires Reachable(g) && admissionId != ""
    ensures LogCount(g.db.log, admissionId) <= 1
    ensures |g.db.log| == |g.commits| && g.db.quarantine == CommittedCopies(g.commits)
    ensures forall k | 0 <= k < |g.commits| ::
              && g.db.log[k] == RowOf(g.commits[k].call, g.commits[k].work)
              && EntryAccepts(g.commits[k].cat, g.commits[k].call)
  {
    hide RowOf;
    hide EntryAccepts;
    hide Body;
    ReachableInvariant(g);
    forall i, j | 0 <= i < j < |g.db.log|
      ensures g.db.log[i].admissionId == admissionId ==> g.db.log[j].admissionId != admissionId
    {
      SameAdmission(g.commits[i]);
      SameAdmission(g.commits[j]);
    }
    UniqueRowCount(g.db.log, admissionId);
    forall k | 0 <= k < |g.commits| ensures EntryAccepts(g.commits[k].cat, g.commits[k].call) {
      assert Sound(g.commits[k]);
    }
  }

  /** Only a commit changes what is in quarantine, in the log, or, by this protocol, in a source table. */
  lemma OnlyCommitsMutate(g: Global, a: Action, h: Global)
    requires Transition(g, a, h)
    ensures g.commits <= h.commits
    ensures h.commits == g.commits ==>
      h.db.quarantine == g.db.quarantine && h.db.log == g.db.log && (!a.WriteSources? ==> h.db.sources == g.db.sources)
    ensures h.commits != g.commits ==>
      a.Own? && h.commits == g.commits + [h.commits[|g.commits|]]
      && h.db == Committed(g.db, h.commits[|g.commits|].call, h.commits[|g.commits|].work)
  {
    hide EntryAccepts;
    hide Body;
    hide Recover;
    hide Committed;
    hide KeyHeld;
  }

  // ---------- the empty id ----------

  /** A call that nothing stands in the way of, at its start. */
  ghost predicate Unhindered(g: Global, i: nat) {
    && i in g.workers && g.workers[i].phase == Starting
    && EntryAccepts(g.workers[i].cat, g.workers[i].call)
    && g.workers[i].clock(0) <= g.workers[i].call.admission.expiresAt
    && Body(g.workers[i].cat, g.db, g.workers[i].call, g.workers[i].clock).BodyReady?
    && !KeyHeld(g, i, g.workers[i].call)
    && !Violates(g.db, g.workers[i].call.admission.admissionId, g.workers[i].call.eventId)
  }

  /** Three moves take it to its recorded result. */
  lemma UndisturbedRecord(g: Global, i: nat) returns (h: Global)
    requires Reachable(g) && Unhindered(g, i)
    ensures Reachable(h) && h.db == g.db && h.commits == g.commits
    ensures
      var w := g.workers[i];
      h.workers == g.workers[i := w.(phase := Recorded(g.db, Body(w.cat, g.db, w.call, w.clock).work))]
  {
    hide Reachable;
    hide Body;
    hide Violates;
    hide EffectOf;
    hide KeyHeld;
    hide EntryAccepts;
    var w := g.workers[i];
    AcceptedIsExecutable(w.cat, w.call);
    var work := Body(w.cat, g.db, w.call, w.clock).work;
    EntryMoves(g, i);
    var g1 := g.(workers := SetPhase(g, i, InTransaction(g.db)));
    ReachableStep(g, Own(i, Advance), g1);
    BodyMoves(g1, i, g.db);
    var g2 := g1.(workers := SetPhase(g1, i, Ready(g.db, work)));
    ReachableStep(g1, Own(i, Advance), g2);
    NotHeldLater(g, g2, i);
    RecordMoves(g2, i, g.db, work);
    h := g2.(workers := SetPhase(g2, i, Recorded(g.db, work)));
    ReachableStep(g2, Own(i, Advance), h);
  }

  /** The fourth commits it. */
  lemma UndisturbedCommit(g: Global, i: nat) returns (h: Global)
    requires Reachable(g) && Unhindered(g, i)
    ensures Reachable(h) && h.workers.Keys == g.workers.Keys
    ensures |h.commits| == |g.commits| + 1 && h.commits[..|g.commits|] == g.commits
    ensures h.commits[|g.commits|].call == g.workers[i].call
    ensures
      var w := g.workers[i];
      h.db == Committed(g.db, w.call, Body(w.cat, g.db, w.call, w.clock).work)
    ensures h.workers[i].phase.Returned?
    ensures forall j | j in g.workers && j != i :: h.workers[j] == g.workers[j]
  {
    hide Reachable;
    hide Body;
    hide Committed;
    hide KeyHeld;
    hide WriteConflict;
    hide EffectOf;
    hide Violates;
    hide EntryAccepts;
    var w := g.workers[i];
    AcceptedIsExecutable(w.cat, w.call);
    var work := Body(w.cat, g.db, w.call, w.clock).work;
    var recorded := UndisturbedRecord(g, i);
    FilledTablesExist(w.cat, g.db, w.call, w.clock);
    CommitMoves(recorded, i, g.db, work);
    h := AfterCommit(recorded, i, Returned(ResultOf(w.call, work)));
    ReachableStep(recorded, Own(i, Advance), h);
  }

  lemma AcceptedIsExecutable(cat: Catalogs, call: Call)
    requires EntryAccepts(cat, call)
    ensures AllExecutable(call.plan.items)
  {
  }

  lemma NotHeldLater(g: Global, h: Global, i: nat)
    requires i in g.workers && !KeyHeld(g, i, g.workers[i].call)
    requires h.workers.Keys == g.workers.Keys && forall j | j in g.workers && j != i :: h.workers[j] == g.workers[j]
    ensures !KeyHeld(h, i, g.workers[i].call)
  {
  }

  /** A finished body only filled tables its snapshot has, and nothing stands in the way of its commit on the
      snapshot itself. */
  lemma FilledTablesExist(cat: Catalogs, snapshot: World, call: Call, clock: Clock)
    requires AllExecutable(call.plan.items) && Body(cat, snapshot, call, clock).BodyReady?
    ensures Body(cat, snapshot, call, clock).work.base == snapshot.sources
    ensures forall t | t in Body(cat, snapshot, call, clock).work.filled :: t in snapshot.sources
    ensures !WriteConflict(Body(cat, snapshot, call, clock).work, snapshot)
  {
    hide TargetsHold;
    hide RunItem;
    var arm := ArmDeadline(call.admission, clock(1)).value;
    FilledInLoop(cat, call, clock, StartWork(snapshot.sources, arm), |call.plan.items|);
    var work := Body(cat, snapshot, call, clock).work;
    hide Body;
    hide Updates;
    hide Befores;
    forall t | t in work.filled ensures multiset(Befores(UpdatesOf(work, t))) <= multiset(snapshot.sources[t]) {
      BeforesWithin(work.base[t], work.sources[t]);
    }
  }

  lemma {:induction false} FilledInLoop(cat: Catalogs, call: Call, clock: Clock, w: Work, k: nat)
    requires AllExecutable(call.plan.items) && k <= |call.plan.items| && w.filled == {}
    requires RunItems(cat, call, clock, w, k).Ok?
    ensures RunItems(cat, call, clock, w, k).value.base == w.base
    ensures RunItems(cat, call, clock, w, k).value.sources.Keys == w.sources.Keys
    ensures RunItems(cat, call, clock, w, k).value.filled <= w.sources.Keys
  {
    hide Render;
    hide Execute;
    if k > 0 {
      FilledInLoop(cat, call, clock, w, k - 1);
      assert call.plan.items[k - 1] in call.plan.items;
      var item := call.plan.items[k - 1];
      var before := RunItems(cat, call, clock, w, k - 1).value;
      var step := Render(cat, item.actionId, item.table, item.params, call.runId).value;
      if Mutates(item.actionId) {
        FilledByStatement(before, step.statement);
      }
    }
  }

  lemma FilledByStatement(w: Work, st: Statement)
    requires Execute(w, st).Some? && w.filled <= w.sources.Keys
    ensures Execute(w, st).value.0.base == w.base
    ensures Execute(w, st).value.0.sources.Keys == w.sources.Keys
    ensures Execute(w, st).value.0.filled <= w.sources.Keys
  {
    hide Select;
  }

  /** A plan with nothing to do, approved under an admission whose id is empty. */
  function EmptyPlan(): Plan {
    var draft := Plan("plan", "run", Raw("candidate"), ListDigest([]), [], false, [], "env", Raw(""));
    draft.(fingerprint := PlanFingerprint(draft))
  }

  function EmptyEvaluation(): Evaluation {
    var draft := Evaluation("evaluation", None, Some("plan"), Some(EmptyPlan().fingerprint), None, true, [], []);
    draft.(fingerprint := Some(EvaluationFingerprint(draft)))
  }

  function EmptyReport(): Report {
    var draft := Report("run", None, None, []);
    draft.(fingerprint := Some(ReportFingerprint(draft)))
  }

  function EmptyAdmission(): Admission {
    var draft := Admission("", "run", "plan", EmptyPlan().fingerprint, "evaluation",
                           EmptyEvaluation().fingerprint.value,
                           "decision", "decision-event", ListDigest([]), "env", 0, 10000, Raw(""));
    draft.(fingerprint := AdmissionFingerprint(draft))
  }

  function EmptyCall(eventId: string): Call {
    Call(EmptyPlan(), EmptyEvaluation(), EmptyAdmission(), EmptyReport(), "apply", "result", eventId, "env")
  }

  const NO_CATALOGS := Catalogs(map[], map[])

  lemma EmptyCallAccepted(eventId: string)
    ensures EntryAccepts(NO_CATALOGS, EmptyCall(eventId))
  {
    var call := EmptyCall(eventId);
    assert FailedChecks(call.report) == [];
    assert Cited(call.plan.items) == {};
  }

  lemma EmptyBodyReady(db: World, eventId: string, clock: Clock)
    requires clock(1) == 0 && clock(2) == 0
    ensures Body(NO_CATALOGS, db, EmptyCall(eventId), clock).BodyReady?
  {
    assert Blank("");
  }

  /** A call under the empty admission id, started where nobody holds a key, commits. */
  lemma EmptyIdCommits(g: Global, i: nat, eventId: string) returns (h: Global)
    requires Reachable(g) && i !in g.workers && eventId !in g.db.traces
    requires forall j | j in g.workers :: !g.workers[j].phase.Recorded?
    ensures Reachable(h) && h.workers.Keys == g.workers.Keys + {i} && h.db.traces.Keys == g.db.traces.Keys + {eventId}
    ensures forall j | j in h.workers :: !h.workers[j].phase.Recorded?
    ensures |h.db.log| == |g.db.log| + 1 && h.db.log[..|g.db.log|] == g.db.log && h.db.log[|g.db.log|].admissionId == ""
  {
    hide Reachable;
    hide EntryAccepts;
    hide Body;
    hide EmptyCall;
    hide MergeSources;
    hide EventOf;
    var clock: Clock := (k: nat) => 0;
    var w := Worker(NO_CATALOGS, EmptyCall(eventId), clock, Starting);
    var started := g.(workers := g.workers[i := w]);
    ReachableStep(g, Spawn(i, w), started);
    EmptyCallFacts(eventId);
    EmptyCallUnhindered(started, i, eventId, clock);
    hide Unhindered;
    h := UndisturbedCommit(started, i);
  }

  lemma EmptyCallUnhindered(g: Global, i: nat, eventId: string, clock: Clock)
    requires i in g.workers && g.workers[i] == Worker(NO_CATALOGS, EmptyCall(eventId), clock, Starting)
    requires clock(0) == 0 && clock(1) == 0 && clock(2) == 0 && eventId !in g.db.traces
    requires forall j | j in g.workers :: !g.workers[j].phase.Recorded?
    ensures Unhindered(g, i)
  {
    hide EntryAccepts;
    hide Body;
    hide EmptyCall;
    EmptyCallAccepted(eventId);
    EmptyBodyReady(g.db, eventId, clock);
    EmptyCallFacts(eventId);
  }

  /** The apply log's unique index leaves the empty admission id out: two calls under it both commit. */
  lemma EmptyIdCommitsTwice() returns (g: Global)
    ensures Reachable(g) && LogCount(g.db.log, "") == 2
  {
    hide Reachable;
    var g0 := Global(World(map[], [], [], map[]), map[], []);
    InitialReachable(g0);
    var g1 := EmptyIdCommits(g0, 0, "one");
    assert "one"[0] != "two"[0];
    g := EmptyIdCommits(g1, 1, "two");
    assert g.db.log[..1][..0] == [];
    assert LogCount(g1.db.log, "") == 1;
    assert g.db.log[..1] == g1.db.log;
  }

  lemma EmptyCallFacts(eventId: string)
    ensures EmptyCall(eventId).admission.admissionId == "" && EmptyCall(eventId).eventId == eventId
    ensures EmptyCall(eventId).admission.expiresAt == 10000
  {
  }

  lemma InitialReachable(g: Global)
    requires Initial(g)
    ensures Reachable(g)
  {
    var states, actions: seq<Action> := [g], [];
    assert Execution(states, actions) && states[|actions|] == g;
  }

  /** At most one commit per admission holds of exactly the ids that are not empty. */
  lemma AtMostOnceExactly(admissionId: string)
    ensures (forall g: Global | Reachable(g) :: LogCount(g.db.log, admissionId) <= 1) <==> admissionId != ""
  {
    hide Reachable;
    if admissionId != "" {
      forall g: Global | Reachable(g) ensures LogCount(g.db.log, admissionId) <= 1 {
        ExactlyOnce(g, admissionId);
      }
    } else {
      var g := EmptyIdCommitsTwice();
    }
  }

  // ---------- snapshots ----------

  /** The state was the database's own at some point of the execution up to k. */
  ghost predicate WasState(states: seq<Global>, k: nat, snapshot: World)
    requires k < |states|
  {
    exists j | 0 <= j <= k :: states[j].db == snapshot
  }

  function SnapshotIn(phase: Phase): Option<World> {
    match phase
    case InTransaction(s) => Some(s)
    case Ready(s, _) => Some(s)
    case Recorded(s, _) => Some(s)
    case _ => None
  }

  /** A worker's snapshot was the state when it began, or is the one it already held. */
  lemma SnapshotComesFrom(g: Global, a: Action, h: Global, i: nat)
    requires Transition(g, a, h) && i in h.workers && SnapshotIn(h.workers[i].phase).Some?
    ensures SnapshotIn(h.workers[i].phase) == Some(g.db)
            || (i in g.workers && SnapshotIn(h.workers[i].phase) == SnapshotIn(g.workers[i].phase))
  {
    hide EntryAccepts;
    hide Body;
    hide Recover;
    hide Committed;
    hide KeyHeld;
    hide Violates;
    hide WriteConflict;
  }

  lemma CommitComesFrom(g: Global, a: Action, h: Global)
    requires Transition(g, a, h) && h.commits != g.commits
    ensures |h.commits| == |g.commits| + 1 && h.commits[..|g.commits|] == g.commits
    ensures exists i | i in g.workers :: SnapshotIn(g.workers[i].phase) == Some(h.commits[|g.commits|].snapshot)
  {
    hide EntryAccepts;
    hide Body;
    hide Recover;
    hide Committed;
    hide KeyHeld;
    hide Violates;
    hide WriteConflict;
    assert a.Own?;
    assert SnapshotIn(g.workers[a.i].phase) == Some(h.commits[|g.commits|].snapshot);
  }

  /** Every commit was made from a snapshot that was a state of this very database earlier in the execution, and so
      is every running transaction. */
  lemma {:induction false} SnapshotsArePast(states: seq<Global>, actions: seq<Action>, k: nat)
    requires Execution(states, actions) && k < |states|
    ensures forall i | i in states[k].workers && SnapshotIn(states[k].workers[i].phase).Some? ::
              WasState(states, k, SnapshotIn(states[k].workers[i].phase).value)
    ensures forall c | 0 <= c < |states[k].commits| :: WasState(states, k, states[k].commits[c].snapshot)
  {
    hide Transition;
    if k > 0 {
      SnapshotsArePast(states, actions, k - 1);
      var g, a, h := states[k - 1], actions[k - 1], states[k];
      forall i | i in h.workers && SnapshotIn(h.workers[i].phase).Some?
        ensures WasState(states, k, SnapshotIn(h.workers[i].phase).value)
      {
        SnapshotComesFrom(g, a, h, i);
      }
      OnlyCommitsMutate(g, a, h);
      forall c | 0 <= c < |h.commits| ensures WasState(states, k, h.commits[c].snapshot) {
        if c < |g.commits| {
          assert h.commits[c] == g.commits[c];
        } else {
          CommitComesFrom(g, a, h);
        }
      }
    }
  }
}
