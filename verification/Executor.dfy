/** `apply_plan` as it runs: guards, one transaction with its two loops, the record and the commit, and the three
    ways back to a committed result, over a database that others use at every point. Each run is shown to be
    the moves of one worker of the protocol, so the protocol's promises hold of it. */
module Executor {
  import opened Prelude
  import opened Sql
  import opened Contracts
  import opened Actions
  import opened CheckPolicies
  import opened Planning
  import opened Evaluations
  import opened Lineage
  import opened Admissions
  import opened Transactions
  import opened Recoveries
  import opened Protocol
  import opened Guarantees
  import Retries

  // ---------- the guards ----------

  /** `_require_plan_admission` followed by `_require_apply_warehouse_environment`. */
  method RequirePlanAdmission(cat: Catalogs, call: Call) returns (ok: bool)
    ensures ok <==> EntryAccepts(cat, call)
  {
    hide PlanJustified;
    hide CurrentPolicy;
    var plan, admission := call.plan, call.admission;
    if plan.blocked || !AllExecutable(plan.items) || !call.evaluation.passed {
      return false;
    }
    if !ReportIntact(call.report) || !PlanIntact(plan) || !EvaluationIntact(plan, call.evaluation)
       || !AdmissionIntact(plan, call.evaluation, admission) {
      return false;
    }
    var policy := CurrentPolicyFingerprint(cat, plan);
    if policy != Some(plan.policyFingerprint) || policy != Some(admission.policyFingerprint) {
      return false;
    }
    var justified := VerifyExecutableParams(cat, plan, call.report);
    ok := justified && call.environment == plan.environmentId && call.environment == admission.environmentId;
  }

  // ---------- recovery ----------

  lemma {:induction false} StepsStop(cat: Catalogs, items: seq<PlanItem>, recorded: seq<StepEvidence>, runId: string,
                                     k: nat)
    requires k <= |items| == |recorded| && AllExecutable(items) && AllExecutable(items[..k])
    requires RecoverSteps(cat, items[..k], recorded[..k], runId).None?
    ensures RecoverSteps(cat, items, recorded, runId).None?
    decreases |items| - k
  {
    hide Render;
    if k == |items| {
      assert items[..k] == items && recorded[..k] == recorded;
    } else {
      assert items[..k + 1][..k] == items[..k] && recorded[..k + 1][..k] == recorded[..k];
      assert forall i | i in items[..k + 1] :: i in items;
      StepsStop(cat, items, recorded, runId, k + 1);
    }
  }

  /** `_recover_committed_result`: the lookup, the bindings, the loop over the recorded steps. */
  method RecoverCommittedResult(cat: Catalogs, world: World, call: Call) returns (r: Recovery)
    requires AllExecutable(call.plan.items)
    ensures r == Recover(cat, world, call)
  {
    hide Render;
    var found := FindRow(world.log, world.traces, call.admission.admissionId);
    if found.None? || found.value.eventId !in world.traces {
      return NotRecorded;
    }
    var row := found.value;
    var event := world.traces[row.eventId];
    var items := call.plan.items;
    if !Binds(event, row, call.plan, call.admission) || |event.applySteps| != |items| {
      return Refused;
    }
    var steps: seq<AppliedStep> := [];
    var k := 0;
    while k < |items|
      invariant 0 <= k <= |items|
      invariant AllExecutable(items[..k])
      invariant RecoverSteps(cat, items[..k], event.applySteps[..k], row.runId) == Some(steps)
    {
      var item, entry := items[k], event.applySteps[k];
      assert item in items;
      assert items[..k + 1][..k] == items[..k] && event.applySteps[..k + 1][..k] == event.applySteps[..k];
      assert forall i | i in items[..k + 1] :: i in items;
      var rendered := Render(cat, item.actionId, item.table, item.params, row.runId);
      if entry.actionId != item.actionId || entry.table != item.table || rendered.None? {
        StepsStop(cat, items, event.applySteps, row.runId, k + 1);
        return Refused;
      }
      steps := steps + [AppliedStep(rendered.value, entry.estimatedRows, entry.rowcount)];
      k := k + 1;
    }
    assert items[..k] == items && event.applySteps[..k] == event.applySteps;
    var fingerprint := ResultFingerprint(call.plan, call.admission, row.runId, steps);
    if Some(fingerprint) != event.applyResultFingerprint || NoText(event.applyResultId) || event.eventId == "" {
      return Refused;
    }
    r := Recovered(ApplyResult(event.applyResultId.value, fingerprint, event.eventId, row.runId, call.plan.planId,
                               call.admission.admissionId, steps));
  }

  // ---------- others ----------

  /** The unique keys a transaction has inserted and not yet given up or committed. */
  datatype Keys = Keys(admissionId: string, eventId: string)

  function KeysOf(call: Call): Keys {
    Keys(call.admission.admissionId, call.eventId)
  }

  function HeldBy(g: Global): map<nat, Keys> {
    map j | j in g.workers && g.workers[j].phase.Recorded? :: KeysOf(g.workers[j].call)
  }

  /** A key of another transaction in progress collides with these. */
  predicate Waits(held: map<nat, Keys>, i: nat, keys: Keys) {
    exists j | j in held :: j != i
      && ((held[j].admissionId != "" && held[j].admissionId == keys.admissionId) || held[j].eventId == keys.eventId)
  }

  lemma WaitsIsKeyHeld(g: Global, i: nat, call: Call)
    ensures Waits(HeldBy(g), i, KeysOf(call)) <==> KeyHeld(g, i, call)
  {
    if KeyHeld(g, i, call) {
      var j :| j in g.workers && j != i && g.workers[j].phase.Recorded? && SharesKey(g.workers[j].call, call);
      assert j in HeldBy(g);
    }
  }

  /** A path of the protocol from one state to another. */
  ghost predicate Path(states: seq<Global>, actions: seq<Action>) {
    |states| == |actions| + 1 && forall k | 0 <= k < |actions| :: Transition(states[k], actions[k], states[k + 1])
  }

  ghost predicate Leads(g: Global, h: Global) {
    exists states: seq<Global>, actions: seq<Action> ::
      Path(states, actions) && states[0] == g && states[|actions|] == h
  }

  lemma LeadsNowhere(g: Global)
    ensures Leads(g, g)
  {
    var states, actions: seq<Action> := [g], [];
    assert Path(states, actions) && states[0] == g && states[|actions|] == g;
  }

  lemma LeadsOn(g: Global, h: Global, a: Action, next: Global)
    requires Leads(g, h) && Transition(h, a, next)
    ensures Leads(g, next)
  {
    hide Transition;
    var states: seq<Global>, actions: seq<Action> :| Path(states, actions) && states[0] == g && states[|actions|] == h;
    var longer, more := states + [next], actions + [a];
    forall k | 0 <= k < |more| ensures Transition(longer[k], more[k], longer[k + 1]) {
      if k < |actions| {
        assert longer[k] == states[k] && longer[k + 1] == states[k + 1];
      }
    }
    assert Path(longer, more) && longer[0] == g && longer[|more|] == next;
  }

  lemma {:induction false} LeadsAlong(g: Global, states: seq<Global>, actions: seq<Action>, k: nat)
    requires Path(states, actions) && k <= |actions| && Leads(g, states[0])
    ensures Leads(g, states[k])
  {
    hide Transition;
    hide Leads;
    if k > 0 {
      LeadsAlong(g, states, actions, k - 1);
      LeadsOn(g, states[k - 1], actions[k - 1], states[k]);
    }
  }

  lemma LeadsFurther(g: Global, h: Global, next: Global)
    requires Leads(g, h) && Leads(h, next)
    ensures Leads(g, next)
  {
    hide Transition;
    var states: seq<Global>, actions: seq<Action> :|
      Path(states, actions) && states[0] == h && states[|actions|] == next;
    LeadsAlong(g, states, actions, |actions|);
  }

  lemma {:induction false} ReachableAlong(states: seq<Global>, actions: seq<Action>, k: nat)
    requires Path(states, actions) && k <= |actions| && Reachable(states[0])
    ensures Reachable(states[k])
  {
    hide Transition;
    hide Reachable;
    if k > 0 {
      ReachableAlong(states, actions, k - 1);
      ReachableStep(states[k - 1], actions[k - 1], states[k]);
    }
  }

  lemma ReachableLeads(g: Global, h: Global)
    requires Reachable(g) && Leads(g, h)
    ensures Reachable(h)
  {
    hide Reachable;
    hide Transition;
    var states: seq<Global>, actions: seq<Action> :| Path(states, actions) && states[0] == g && states[|actions|] == h;
    ReachableAlong(states, actions, |actions|);
  }

  /** What others do before this call's n-th contact with the database, given everything so far: any moves of
      the protocol that leave this worker alone. */
  type Others = (nat, Global) -> Global

  ghost predicate Environment(i: nat, others: Others) {
    forall n: nat, g: Global | i in g.workers ::
      Leads(g, others(n, g)) && i in others(n, g).workers && others(n, g).workers[i] == g.workers[i]
  }

  /** How the database answers a statement, apart from what its contents decide. At commit,
      `AcknowledgementLost` is a commit that took effect and is reported as a broken connection. */
  datatype Answer = Fine | SerializationFailure | Failure | AcknowledgementLost

  datatype RecordAnswer = Inserted | Taken | StillHeld

  // ---------- the database ----------

  class Database {
    var world: World
    var held: map<nat, Keys>
    /** Where every call is: the protocol state this database is in. The calls see only the fields above; this one
        is what those who share the database go by. */
    var run: Global

    ghost predicate Valid()
      reads this
    {
      run.db == world && held == HeldBy(run)
    }

    /** The n-th contact: others have moved. */
    method Interleave(i: nat, n: nat, others: Others)
      requires Valid() && i in run.workers && Environment(i, others)
      modifies this
      ensures Valid() && Leads(old(run), run)
      ensures i in run.workers && run.workers[i] == old(run).workers[i]
      ensures run == others(n, old(run))
    {
      hide Leads;
      run := others(n, run);
      world, held := run.db, HeldBy(run);
    }

    /** A move of worker i to a phase that neither takes nor releases a key. */
    method Step(i: nat, ghost move: Move, phase: Phase)
      requires Valid() && i in run.workers && EffectOf(run, i, move) == Moves(phase)
      requires !run.workers[i].phase.Recorded? && !phase.Recorded?
      modifies this`run
      ensures Valid() && Leads(old(run), run)
      ensures run == old(run).(workers := SetPhase(old(run), i, phase))
    {
      hide Leads;
      hide EffectOf;
      LeadsNowhere(run);
      var next := run.(workers := SetPhase(run, i, phase));
      LeadsOn(run, run, Own(i, move), next);
      assert HeldBy(next) == HeldBy(run);
      run := next;
    }

    /** `dq.record_apply_result`: wait for a colliding key, fail on a committed one, or hold both keys. */
    method Record(i: nat, call: Call, snapshot: World, work: Work) returns (answer: RecordAnswer)
      requires Valid() && i in run.workers && run.workers[i].call == call
      requires run.workers[i].phase == Ready(snapshot, work) && AllExecutable(call.plan.items)
      modifies this
      ensures Valid() && Leads(old(run), run) && world == old(world)
      ensures answer.StillHeld? <==> Waits(old(held), i, KeysOf(call))
      ensures answer.Inserted? <==>
        !Waits(old(held), i, KeysOf(call)) && !Violates(world, call.admission.admissionId, call.eventId)
      ensures answer.StillHeld? ==> run == old(run) && held == old(held)
      ensures answer.Taken? ==>
                run == old(run).(workers := SetPhase(old(run), i, Recovering(AlreadyConsumed))) && held == old(held)
      ensures answer.Inserted? ==>
                run == old(run).(workers := SetPhase(old(run), i, Recorded(snapshot, work)))
                && held == old(held)[i := KeysOf(call)]
    {
      hide Leads;
      hide Violates;
      hide KeyHeld;
      WaitsIsKeyHeld(run, i, call);
      hide EffectOf;
      LeadsNowhere(run);
      if Waits(held, i, KeysOf(call)) {
        return StillHeld;
      }
      RecordMoves(run, i, snapshot, work);
      if Violates(world, call.admission.admissionId, call.eventId) {
        Step(i, Advance, Recovering(AlreadyConsumed));
        return Taken;
      }
      var next := run.(workers := SetPhase(run, i, Recorded(snapshot, work)));
      LeadsOn(run, run, Own(i, Advance), next);
      held := held[i := KeysOf(call)];
      run := next;
      answer := Inserted;
    }

    /** COMMIT of a recorded transaction: it takes effect whole, or fails because a row it updated changed. */
    method Commit(i: nat, call: Call, snapshot: World, work: Work, acknowledged: bool) returns (ok: bool)
      requires Valid() && i in run.workers && run.workers[i].call == call
      requires run.workers[i].phase == Recorded(snapshot, work) && AllExecutable(call.plan.items)
      modifies this
      ensures Valid() && Leads(old(run), run) && held == old(held) - {i}
      ensures ok <==> !WriteConflict(work, old(world))
      ensures !ok ==> run == old(run).(workers := SetPhase(old(run), i, Recovering(SerializationAbort)))
      ensures ok ==> world == Committed(old(world), call, work)
                     && run == AfterCommit(old(run), i, if acknowledged then Returned(ResultOf(call, work)) else Raised)
    {
      hide Leads;
      hide WriteConflict;
      hide Committed;
      hide ResultOf;
      hide EffectOf;
      LeadsNowhere(run);
      CommitMoves(run, i, snapshot, work);
      ok := !WriteConflict(work, world);
      var next :=
        if !ok then run.(workers := SetPhase(run, i, Recovering(SerializationAbort)))
        else AfterCommit(run, i, if acknowledged then Returned(ResultOf(call, work)) else Raised);
      LeadsOn(run, run, Own(i, if ok && !acknowledged then LoseAcknowledgement else Advance), next);
      if ok {
        world := Committed(world, call, work);
      }
      held := held - {i};
      run := next;
    }

    /** ROLLBACK after an error: the keys are released and nothing else changes. */
    method Abort(i: nat, answer: Answer)
      requires Valid() && i in run.workers && Running(run.workers[i].phase)
      modifies this
      ensures Valid() && Leads(old(run), run) && world == old(world) && held == old(held) - {i}
      ensures
        var phase := if answer.SerializationFailure? then Recovering(SerializationAbort) else Raised;
        run == old(run).(workers := SetPhase(old(run), i, phase))
    {
      hide Leads;
      hide EntryEffect;
      hide BodyEffect;
      hide RecordEffect;
      hide CommitEffect;
      hide RecoverEffect;
      LeadsNowhere(run);
      var phase := if answer.SerializationFailure? then Recovering(SerializationAbort) else Raised;
      var next := run.(workers := SetPhase(run, i, phase));
      LeadsOn(run, run, Own(i, if answer.SerializationFailure? then AbortSerialization else Fault), next);
      held := held - {i};
      run := next;
    }
  }

  // ---------- the transaction ----------

  /** The executor's own connection: what its statements see and have done. */
  class Connection {
    const base: Store
    var sources: Store
    var copies: seq<Copy>
    var filled: set<string>
    var arms: seq<Arm>

    constructor (snapshot: World)
      ensures base == snapshot.sources && sources == snapshot.sources && copies == [] && filled == {} && arms == []
    {
      base := snapshot.sources;
      sources, copies, filled, arms := snapshot.sources, [], {}, [];
    }

    ghost function View(steps: seq<AppliedStep>): Work
      reads this
    {
      Work(base, sources, copies, filled, steps, arms)
    }

    /** `_arm_admission_deadline`: SET LOCAL of both timeouts, or the refusal of an expired admission. */
    method Arm(admission: Admission, reading: int, ghost steps: seq<AppliedStep>) returns (ok: bool)
      modifies this
      ensures ok <==> ArmDeadline(admission, reading).Some?
      ensures View(steps) == if ok then old(View(steps)).(arms := old(arms) + [ArmDeadline(admission, reading).value])
                             else old(View(steps))
    {
      var arm := ArmDeadline(admission, reading);
      if arm.None? {
        return false;
      }
      arms := arms + [arm.value];
      ok := true;
    }

    /** One controlled statement; None where the database raises. */
    method Execute(statement: Statement, ghost steps: seq<AppliedStep>) returns (rowcount: Option<nat>)
      modifies this
      ensures rowcount.None? <==> Transactions.Execute(old(View(steps)), statement).None?
      ensures rowcount.None? ==> View(steps) == old(View(steps))
      ensures rowcount.Some? ==>
        Transactions.Execute(old(View(steps)), statement) == Some((View(steps), rowcount.value))
    {
      hide Select;
      match statement
      case Comment => return Some(0);
      case CopyRows(q, runId, tableName, pkKey, reason) =>
        var rows := Select(sources, q);
        if rows.None? {
          return None;
        }
        copies := copies + CopiesOf(rows.value, runId, tableName, pkKey, reason);
        return Some(|rows.value|);
      case FillNulls(table, column, value) =>
        if table !in sources {
          return None;
        }
        var nulls := Filter(sources[table], (row: Row) => Get(row, column) == Null);
        sources := sources[table := FillRows(sources[table], column, value)];
        filled := filled + {table};
        return Some(|nulls|);
    }
  }

  // ---------- the two loops ----------

  datatype Checked = AllHold | Mismatch | CutOff(answer: Answer)

  /** The recheck: every item's targets are resolved again before anything is written. */
  method RecheckTargets(cat: Catalogs, sources: Store, items: seq<PlanItem>, answers: nat -> Answer, first: nat)
    returns (r: Checked)
    requires AllExecutable(items)
    ensures r.AllHold? ==> TargetsHold(cat, sources, items)
    ensures r.Mismatch? ==> !TargetsHold(cat, sources, items)
    ensures r.CutOff? ==> !r.answer.Fine? && exists n: nat :: answers(n) == r.answer
  {
    hide ResolveItem;
    var j := 0;
    while j < |items|
      invariant 0 <= j <= |items|
      invariant forall k | 0 <= k < j ::
        items[k].Executable? ==> ResolveItem(cat, sources, items[k]) == Some(items[k].targetSet)
    {
      assert items[j] in items;
      if !answers(first + j).Fine? {
        return CutOff(answers(first + j));
      }
      var actual := ResolveItem(cat, sources, items[j]);
      if actual != Some(items[j].targetSet) {
        return Mismatch;
      }
      j := j + 1;
    }
    r := AllHold;
  }

  lemma {:induction false} RunStops(cat: Catalogs, call: Call, clock: Clock, w: Work, k: nat, n: nat)
    requires AllExecutable(call.plan.items) && k <= n <= |call.plan.items|
    requires RunItems(cat, call, clock, w, k).Err?
    ensures RunItems(cat, call, clock, w, n) == RunItems(cat, call, clock, w, k)
    decreases n
  {
    hide RunItem;
    if k < n {
      RunStops(cat, call, clock, w, k, n - 1);
    }
  }

  /** Statements do not look at the deadlines. */
  lemma ExecuteIgnoresArms(w: Work, arm: Transactions.Arm, st: Statement)
    ensures Transactions.Execute(w, st).None? <==> Transactions.Execute(w.(arms := w.arms + [arm]), st).None?
    ensures Transactions.Execute(w, st).Some? ==>
      Transactions.Execute(w.(arms := w.arms + [arm]), st)
      == Some((Transactions.Execute(w, st).value.0.(arms := w.arms + [arm]), Transactions.Execute(w, st).value.1))
  {
    hide Select;
  }

  lemma ExecuteKeepsSteps(w: Work, st: Statement)
    requires Transactions.Execute(w, st).Some?
    ensures Transactions.Execute(w, st).value.0.steps == w.steps && Transactions.Execute(w, st).value.0.arms == w.arms
  {
    hide Select;
  }

  datatype ItemRun = Appended(step: AppliedStep) | Halted(why: Stop) | Dropped

  /** One round of the mutation loop: render, arm the deadline, execute. */
  method MutateItem(connection: Connection, cat: Catalogs, call: Call, item: PlanItem, reading: int, answer: Answer,
                    ghost steps: seq<AppliedStep>)
    returns (r: ItemRun)
    requires item.Executable?
    modifies connection
    ensures r.Appended? ==> RunItem(cat, call, item, reading, old(connection.View(steps)))
                            == Ok(connection.View(steps + [r.step]))
    ensures r.Halted? ==> RunItem(cat, call, item, reading, old(connection.View(steps))) == Err(r.why)
    ensures r.Dropped? ==> !answer.Fine?
  {
    hide Render;
    hide Transactions.Execute;
    hide ArmDeadline;
    ghost var before := connection.View(steps);
    var rendered := Render(cat, item.actionId, item.table, item.params, call.runId);
    if rendered.None? {
      return Halted(StopFailed);
    }
    var armed := connection.Arm(call.admission, reading, steps);
    if !armed {
      return Halted(StopExpired);
    }
    if !answer.Fine? {
      return Dropped;
    }
    var rowcount: Option<nat> := Some(0);
    if Mutates(item.actionId) {
      ExecuteIgnoresArms(before, ArmDeadline(call.admission, reading).value, rendered.value.statement);
      rowcount := connection.Execute(rendered.value.statement, steps);
      if rowcount.None? {
        return Halted(StopFailed);
      }
      ExecuteKeepsSteps(before, rendered.value.statement);
    }
    r := Appended(AppliedStep(rendered.value, Some(item.targetSet.count), rowcount));
  }

  datatype Mutated = AllDone(steps: seq<AppliedStep>) | Stopped(why: Stop) | Broken(answer: Answer)

  /** The mutation loop, appending one step per item. */
  method MutateItems(connection: Connection, cat: Catalogs, call: Call, clock: Clock, answers: nat -> Answer,
                     first: nat)
    returns (r: Mutated)
    requires AllExecutable(call.plan.items)
    modifies connection
    ensures r.AllDone? ==> RunItems(cat, call, clock, old(connection.View([])), |call.plan.items|)
                           == Ok(connection.View(r.steps))
    ensures r.Stopped? ==> RunItems(cat, call, clock, old(connection.View([])), |call.plan.items|) == Err(r.why)
    ensures r.Broken? ==> !r.answer.Fine? && exists n: nat :: answers(n) == r.answer
  {
    hide RunItem;
    ghost var start := connection.View([]);
    var items := call.plan.items;
    var steps: seq<AppliedStep> := [];
    var j := 0;
    while j < |items|
      invariant 0 <= j <= |items|
      invariant RunItems(cat, call, clock, start, j) == Ok(connection.View(steps))
    {
      assert items[j] in items;
      var ran := MutateItem(connection, cat, call, items[j], clock(j + 2), answers(first + j), steps);
      match ran {
        case Halted(why) =>
          RunStops(cat, call, clock, start, j + 1, |items|);
          return Stopped(why);
        case Dropped => return Broken(answers(first + j));
        case Appended(step) => steps := steps + [step];
      }
      j := j + 1;
    }
    r := AllDone(steps);
  }

  // ---------- the transaction body ----------

  datatype Ran = Ended(outcome: BodyOutcome) | Interrupted(answer: Answer)

  /** Everything between BEGIN and the record: whatever the database does not interrupt is `Body`. */
  method RunTransaction(cat: Catalogs, snapshot: World, call: Call, clock: Clock, answers: nat -> Answer)
    returns (r: Ran)
    requires AllExecutable(call.plan.items)
    ensures r.Ended? ==> r.outcome == Body(cat, snapshot, call, clock)
    ensures r.Interrupted? ==> !r.answer.Fine? && exists n: nat :: answers(n) == r.answer
  {
    hide TargetsHold;
    hide RunItems;
    hide ArmDeadline;
    hide Consumed;
    var n := |call.plan.items|;
    if !answers(0).Fine? {
      return Interrupted(answers(0));
    }
    var connection := new Connection(snapshot);
    var armed := connection.Arm(call.admission, clock(1), []);
    if !armed {
      return Ended(BodyExpired);
    }
    assert connection.View([]) == StartWork(snapshot.sources, ArmDeadline(call.admission, clock(1)).value);
    if !answers(1).Fine? {
      return Interrupted(answers(1));
    }
    if Consumed(snapshot.log, call.admission.admissionId) {
      return Ended(BodyConsumed);
    }
    var checked := RecheckTargets(cat, connection.sources, call.plan.items, answers, 2);
    if checked.CutOff? {
      return Interrupted(checked.answer);
    }
    if checked.Mismatch? {
      return Ended(BodyFailed);
    }
    var mutated := MutateItems(connection, cat, call, clock, answers, 2 + n);
    match mutated {
      case Broken(answer) => return Interrupted(answer);
      case Stopped(why) => return Ended(if why.StopExpired? then BodyExpired else BodyFailed);
      case AllDone(steps) =>
        armed := connection.Arm(call.admission, clock(n + 2), steps);
        if !armed {
          return Ended(BodyExpired);
        }
        r := Ended(BodyReady(Work(connection.base, connection.sources, connection.copies, connection.filled, steps,
                                  connection.arms)));
    }
  }

  // ---------- the call ----------

  /** What the caller gets: a result, or an exception. */
  datatype Outcome = Done(result: ApplyResult) | Refusal

  /** The protocol phase in which a call ends. */
  function PhaseOf(r: Outcome): Phase {
    match r
    case Done(result) => Returned(result)
    case Refusal => Raised
  }

  function FromRecovery(r: Recovery): Outcome {
    match r
    case Recovered(result) => Done(result)
    case _ => Refusal
  }

  /** The handlers of an expired, consumed or aborted admission: report what was committed, or refuse. */
  method ReportCommitted(db: Database, i: nat, cat: Catalogs, call: Call, n: nat, others: Others,
                         answer: Answer) returns (r: Outcome)
    requires db.Valid() && Environment(i, others) && AllExecutable(call.plan.items)
    requires i in db.run.workers && db.run.workers[i].phase.Recovering?
    requires db.run.workers[i].cat == cat && db.run.workers[i].call == call
    modifies db
    ensures db.Valid() && Leads(old(db.run), db.run)
    ensures i in db.run.workers && db.run.workers[i].phase == PhaseOf(r)
    ensures db.world == others(n, old(db.run)).db
    ensures r == if answer.Fine? then FromRecovery(Recover(cat, db.world, call)) else Refusal
  {
    hide Leads;
    hide Environment;
    hide Recover;
    db.Interleave(i, n, others);
    ghost var seen := db.run;
    LookupMoves(seen, i);
    hide EffectOf;
    if !answer.Fine? {
      db.Step(i, Fault, Raised);
      LeadsFurther(old(db.run), seen, db.run);
      return Refusal;
    }
    var found := RecoverCommittedResult(cat, db.world, call);
    r := FromRecovery(found);
    db.Step(i, Advance, PhaseOf(r));
    LeadsFurther(old(db.run), seen, db.run);
  }

  lemma LookupMoves(g: Global, i: nat)
    requires i in g.workers && g.workers[i].phase.Recovering? && AllExecutable(g.workers[i].call.plan.items)
    ensures EffectOf(g, i, Fault) == Moves(Raised)
    ensures EffectOf(g, i, Advance) == Moves(PhaseOf(FromRecovery(Recover(g.workers[i].cat, g.db, g.workers[i].call))))
  {
    hide EntryEffect;
    hide BodyEffect;
    hide RecordEffect;
    hide CommitEffect;
    hide Recover;
  }

  /** After the body is ready: record, let others move, commit. */
  method RecordAndCommit(db: Database, i: nat, cat: Catalogs, call: Call, snapshot: World, work: Work, others: Others,
                         answers: nat -> Answer, n: nat) returns (r: Outcome)
    requires db.Valid() && Environment(i, others) && AllExecutable(call.plan.items)
    requires i in db.run.workers && db.run.workers[i].phase == Ready(snapshot, work)
    requires db.run.workers[i].cat == cat && db.run.workers[i].call == call
    modifies db
    ensures db.Valid() && Leads(old(db.run), db.run)
    ensures i in db.run.workers && db.run.workers[i].phase == PhaseOf(r)
    ensures Quiet(others, answers) && !Waits(old(db.held), i, KeysOf(call)) ==>
      (r, db.world) ==
        if Violates(old(db.world), call.admission.admissionId, call.eventId)
           || WriteConflict(work, old(db.world))
        then (FromRecovery(Recover(cat, old(db.world), call)), old(db.world))
        else (Done(ResultOf(call, work)), Committed(old(db.world), call, work))
  {
    hide Leads;
    hide Environment;
    hide EffectOf;
    hide Violates;
    hide WriteConflict;
    hide Recover;
    hide Waits;
    hide Committed;
    ghost var start := db.run;
    if !answers(n).Fine? {
      db.Abort(i, answers(n));
      if answers(n).SerializationFailure? {
        ghost var aborted := db.run;
        r := ReportCommitted(db, i, cat, call, n, others, answers(n + 2));
        LeadsFurther(start, aborted, db.run);
        return;
      }
      return Refusal;
    }
    var answer := db.Record(i, call, snapshot, work);
    ghost var asked := db.run;
    if answer.StillHeld? {
      db.Abort(i, Failure);
      LeadsFurther(start, asked, db.run);
      return Refusal;
    }
    if answer.Taken? {
      r := ReportCommitted(db, i, cat, call, n, others, answers(n + 2));
      LeadsFurther(start, asked, db.run);
      return;
    }
    db.Interleave(i, n, others);
    LeadsFurther(start, asked, db.run);
    ghost var later := db.run;
    if answers(n + 1).SerializationFailure? || answers(n + 1).Failure? {
      db.Abort(i, answers(n + 1));
      LeadsFurther(start, later, db.run);
      if answers(n + 1).SerializationFailure? {
        ghost var aborted := db.run;
        r := ReportCommitted(db, i, cat, call, n + 1, others, answers(n + 2));
        LeadsFurther(start, aborted, db.run);
        return;
      }
      return Refusal;
    }
    var ok := db.Commit(i, call, snapshot, work, answers(n + 1).Fine?);
    LeadsFurther(start, later, db.run);
    if !ok {
      ghost var aborted := db.run;
      r := ReportCommitted(db, i, cat, call, n + 1, others, answers(n + 2));
      LeadsFurther(start, aborted, db.run);
      return;
    }
    r := if answers(n + 1).Fine? then Done(ResultOf(call, work)) else Refusal;
  }

  /** Nobody else moves and the database answers every statement. */
  ghost predicate Quiet(others: Others, answers: nat -> Answer) {
    (forall n: nat, g: Global :: others(n, g) == g) && forall n: nat :: answers(n) == Fine
  }

  /** What one undisturbed transaction on the present state returns and leaves behind. */
  ghost function TransactAlone(cat: Catalogs, world: World, call: Call, clock: Clock): (Outcome, World)
    requires AllExecutable(call.plan.items)
  {
    var committed := (FromRecovery(Recover(cat, world, call)), world);
    match Body(cat, world, call, clock)
    case BodyExpired => committed
    case BodyConsumed => committed
    case BodyFailed => (Refusal, world)
    case BodyReady(work) =>
      if Violates(world, call.admission.admissionId, call.eventId) then committed
      else (Done(ResultOf(call, work)), Committed(world, call, work))
  }

  /** What one undisturbed call returns and leaves behind. */
  ghost function ApplyAlone(cat: Catalogs, world: World, call: Call, clock: Clock): (Outcome, World) {
    if !EntryAccepts(cat, call) then (Refusal, world)
    else if clock(0) > call.admission.expiresAt then (FromRecovery(Recover(cat, world, call)), world)
    else TransactAlone(cat, world, call, clock)
  }

  /** From BEGIN on: the body on the snapshot, then the record and the commit, or one of the handlers. */
  method Transact(db: Database, i: nat, cat: Catalogs, call: Call, clock: Clock, snapshot: World, others: Others,
                  answers: nat -> Answer) returns (r: Outcome)
    requires db.Valid() && Environment(i, others) && AllExecutable(call.plan.items)
    requires i in db.run.workers && db.run.workers[i] == Worker(cat, call, clock, InTransaction(snapshot))
    modifies db
    ensures db.Valid() && Leads(old(db.run), db.run)
    ensures i in db.run.workers && db.run.workers[i].phase == PhaseOf(r)
    ensures Quiet(others, answers) && !Waits(old(db.held), i, KeysOf(call)) && old(db.world) == snapshot ==>
      (r, db.world) == TransactAlone(cat, snapshot, call, clock)
  {
    hide Leads;
    hide Environment;
    hide EffectOf;
    hide Violates;
    hide WriteConflict;
    hide Recover;
    hide Waits;
    hide Committed;
    hide Body;
    ghost var begun := db.run;
    var n := |call.plan.items|;
    var ran := RunTransaction(cat, snapshot, call, clock, answers);
    db.Interleave(i, 1, others);
    ghost var later := db.run;
    if ran.Interrupted? {
      db.Abort(i, ran.answer);
      LeadsFurther(begun, later, db.run);
      if ran.answer.SerializationFailure? {
        ghost var aborted := db.run;
        r := ReportCommitted(db, i, cat, call, 2, others, answers(2 * n + 4));
        LeadsFurther(begun, aborted, db.run);
        return;
      }
      return Refusal;
    }
    BodyMoves(db.run, i, snapshot);
    var next := AfterBody(snapshot, ran.outcome);
    db.Step(i, Advance, next);
    LeadsFurther(begun, later, db.run);
    ghost var done := db.run;
    match ran.outcome {
      case BodyFailed => return Refusal;
      case BodyReady(work) =>
        FilledTablesExist(cat, snapshot, call, clock);
        r := RecordAndCommit(db, i, cat, call, snapshot, work, others, answers, 2 * n + 2);
      case _ =>
        r := ReportCommitted(db, i, cat, call, 2, others, answers(2 * n + 4));
    }
    LeadsFurther(begun, done, db.run);
  }

  /** `apply_plan` of a mutating call. Whatever others and the database do, the run is the moves of one worker
      of the protocol, interleaved with theirs, and what the caller gets is how that worker ends; undisturbed,
      it returns and commits exactly what the specification says. */
  method ApplyPlan(db: Database, i: nat, cat: Catalogs, call: Call, clock: Clock, others: Others,
                   answers: nat -> Answer) returns (r: Outcome)
    requires db.Valid() && Environment(i, others)
    requires i in db.run.workers && db.run.workers[i] == Worker(cat, call, clock, Starting)
    modifies db
    ensures db.Valid() && Leads(old(db.run), db.run)
    ensures i in db.run.workers && db.run.workers[i].phase == PhaseOf(r)
    ensures !EntryAccepts(cat, call) ==> r.Refusal? && db.world == old(db.world) && db.held == old(db.held)
    ensures Quiet(others, answers) && !Waits(old(db.held), i, KeysOf(call)) ==>
      (r, db.world) == ApplyAlone(cat, old(db.world), call, clock)
  {
    hide Leads;
    hide Environment;
    hide EffectOf;
    hide Recover;
    hide Waits;
    hide EntryAccepts;
    hide TransactAlone;
    ghost var start := db.run;
    var appliedAt := clock(0);
    var ok := RequirePlanAdmission(cat, call);
    EntryMoves(db.run, i);
    if !ok {
      db.Step(i, Advance, Raised);
      return Refusal;
    }
    AcceptedIsExecutable(cat, call);
    if appliedAt > call.admission.expiresAt {
      db.Step(i, Advance, Recovering(ExpiredAtEntry));
      ghost var expired := db.run;
      r := ReportCommitted(db, i, cat, call, 0, others, answers(0));
      LeadsFurther(start, expired, db.run);
      return;
    }
    db.Interleave(i, 0, others);
    ghost var entered := db.run;
    EntryMoves(db.run, i);
    db.Step(i, Advance, InTransaction(db.world));
    LeadsFurther(start, entered, db.run);
    ghost var begun := db.run;
    r := Transact(db, i, cat, call, clock, db.world, others, answers);
    LeadsFurther(start, begun, db.run);
  }

  lemma {:induction false} FindsAppended(log: seq<LogRow>, traces: Events, row: LogRow)
    requires forall r | r in log :: r.admissionId != row.admissionId
    requires !Blank(row.admissionId) && row.eventId in traces
    ensures FindRow(log + [row], traces, row.admissionId) == Some(row)
  {
    if log == [] {
      assert log + [row] == [row];
    } else {
      assert (log + [row])[0] == log[0] && (log + [row])[1..] == log[1..] + [row];
      FindsAppended(log[1..], traces, row);
    }
  }

  lemma CommittedShows(world: World, call: Call, work: Work)
    requires !Violates(world, call.admission.admissionId, call.eventId) && !Blank(call.admission.admissionId)
    ensures Shows(Committed(world, call, work), call, work)
    ensures Consumed(Committed(world, call, work).log, call.admission.admissionId)
  {
    hide EventOf;
    hide TargetTotal;
    hide TargetDigests;
    hide RowTotal;
    var after := Committed(world, call, work);
    FindsAppended(world.log, after.traces, RowOf(call, work));
    assert RowOf(call, work) in after.log;
  }

  /** Applying again changes nothing and returns the same result: a second call with the same plan and
      admission, whatever its clock says, gives back what the first one committed. */
  lemma ApplyingAgain(cat: Catalogs, world: World, call: Call, clock: Clock, retry: Call, later: Clock)
    requires EntryAccepts(cat, call) && clock(0) <= call.admission.expiresAt
    requires Body(cat, world, call, clock).BodyReady?
    requires !Violates(world, call.admission.admissionId, call.eventId) && !Blank(call.admission.admissionId)
    requires EntryAccepts(cat, retry) && retry.plan == call.plan && retry.admission == call.admission
    requires PlainTables(cat, call.plan.items) && call.resultId != "" && call.eventId != ""
    ensures
      var (first, after) := ApplyAlone(cat, world, call, clock);
      && first == Done(ResultOf(call, Body(cat, world, call, clock).work))
      && ApplyAlone(cat, after, retry, later) == (first, after)
  {
    hide Body;
    hide EntryAccepts;
    hide Recover;
    hide PlainTables;
    hide Violates;
    hide Committed;
    hide Consumed;
    hide Shows;
    hide ResultOf;
    AcceptedIsExecutable(cat, call);
    Retries.AcceptedIsIntact(cat, call);
    var work := Body(cat, world, call, clock).work;
    var after := Committed(world, call, work);
    CommittedShows(world, call, work);
    RecoveryInvertsCommit(cat, world, call, clock, after, retry);
    Retries.ConsumedBody(cat, after, retry, later);
  }

  /** What the protocol promises therefore holds of a database that such calls have used: at most one log row
      per admission, and a caller that got a result got that of the one committed run of its admission. */
  lemma RunsKeepPromises(g: Global, h: Global, i: nat)
    requires Reachable(g) && Leads(g, h) && i in h.workers
    requires h.workers[i].call.admission.admissionId != ""
    ensures LogCount(h.db.log, h.workers[i].call.admission.admissionId) <= 1
    ensures h.workers[i].phase.Returned? ==>
      exists k | 0 <= k < |h.commits| ::
        h.commits[k].call.admission.admissionId == h.workers[i].call.admission.admissionId
        && Reports(h.workers[i].phase.result, h.commits[k])
  {
    hide Reachable;
    hide Leads;
    hide Reports;
    hide LogCount;
    hide RowOf;
    hide EntryAccepts;
    hide CommittedCopies;
    hide Invariant;
    hide WorkerSound;
    hide LogMatches;
    ReachableLeads(g, h);
    ExactlyOnce(h, h.workers[i].call.admission.admissionId);
    ReachableInvariant(h);
    InvariantParts(h, i);
    if h.workers[i].phase.Returned? {
      var k := Retries.ReportedCommit(h, h.workers[i]);
    }
  }
}
