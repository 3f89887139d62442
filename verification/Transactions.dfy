/** One apply transaction as a function of its snapshot: the rechecks, the controlled mutations, the result
    that is recorded, and the read-only recovery of a recorded result (apply/executor.py, planning/targets.py,
    and the three dq functions of demo/ddl.sql). */
module Transactions {
  import opened Prelude
  import opened Sql
  import opened BoundText
  import opened Contracts
  import opened Actions
  import opened CheckPolicies
  import opened Planning
  import opened Evaluations
  import opened Lineage
  import opened Admissions

  // ---------- the database ----------

  /** One row of dq.quarantine_rows. */
  datatype Copy = Copy(runId: string, tableName: string, pkKey: string, pk: Cell, reason: ActionId, payload: Row)

  /** One row of dq.apply_log. */
  datatype LogRow = LogRow(runId: string, planId: string, admissionId: string, eventId: string,
                           targetCount: nat, targetFingerprint: Digest, rowcount: Option<nat>)

  /** A committed state: the warehouse tables, the quarantine, the apply log and the trace table. */
  datatype World = World(sources: Store, quarantine: seq<Copy>, log: seq<LogRow>, traces: Events)

  // ---------- the call ----------

  /** The arguments of one `apply_plan` call that mutates, with the ids it mints and the identity of the
      warehouse its connection reaches. */
  datatype Call = Call(plan: Plan, evaluation: Evaluation, admission: Admission, report: Report,
                       runId: string, resultId: string, eventId: string, environment: string)

  /** `verify_admission_integrity`. */
  predicate AdmissionIntact(plan: Plan, evaluation: Evaluation, a: Admission) {
    && a.fingerprint == AdmissionFingerprint(a)
    && a.planId == plan.planId && a.planFingerprint == plan.fingerprint
    && a.qualityRunId == plan.qualityRunId
    && a.evaluationId == evaluation.evaluationId
    && Some(a.evaluationFingerprint) == evaluation.fingerprint
    && a.environmentId == plan.environmentId
  }

  /** `_require_plan_admission` and `_require_apply_warehouse_environment` accept, before any connection. */
  ghost predicate EntryAccepts(cat: Catalogs, call: Call) {
    && !call.plan.blocked && AllExecutable(call.plan.items)
    && call.evaluation.passed
    && ReportIntact(call.report)
    && PlanIntact(call.plan)
    && EvaluationIntact(call.plan, call.evaluation)
    && AdmissionIntact(call.plan, call.evaluation, call.admission)
    && CurrentPolicy(cat, call.plan) == Some(call.plan.policyFingerprint)
    && call.plan.policyFingerprint == call.admission.policyFingerprint
    && PlanJustified(cat, call.plan, call.report)
    && call.environment == call.plan.environmentId
    && call.environment == call.admission.environmentId
  }

  // ---------- deadlines ----------

  /** A clock is asked again and again; the k-th answer. */
  type Clock = nat -> int

  /** `SET LOCAL statement_timeout / lock_timeout` at one reading. */
  datatype Arm = Arm(reading: int, timeoutMs: int)

  /** `int(x / 1000)`: towards zero. */
  function WholeMs(us: int): int {
    if us >= 0 then us / 1000 else -((-us) / 1000)
  }

  /** `_arm_admission_deadline`, None where it raises. */
  function ArmDeadline(a: Admission, reading: int): (r: Option<Arm>)
    ensures r.Some? <==> reading + 1000 <= a.expiresAt
    ensures r.Some? ==> r.value.reading == reading && 1 <= r.value.timeoutMs
                        && reading + 1000 * r.value.timeoutMs <= a.expiresAt < reading + 1000 * (r.value.timeoutMs + 1)
  {
    var remaining := WholeMs(a.expiresAt - reading);
    if reading > a.expiresAt || remaining <= 0 then None else Some(Arm(reading, remaining))
  }

  // ---------- targets ----------

  /** `lock_and_resolve`: the current target summary of an item, None where it raises. */
  function ResolveItem(cat: Catalogs, sources: Store, item: PlanItem): Option<TargetSet>
    requires item.Executable?
  {
    match Render(cat, item.actionId, item.table, item.params, "apply")
    case None => None
    case Some(step) =>
      match step.target
      case None => Some(TargetSet(0, TargetDigest(item.table, [])))
      case Some(q) =>
        match SelectKeysText(sources, q)
        case None => None
        case Some(keys) => Some(TargetSet(|keys|, TargetDigest(item.table, keys)))
  }

  predicate TargetsHold(cat: Catalogs, sources: Store, items: seq<PlanItem>) {
    forall i | i in items :: i.Executable? ==> ResolveItem(cat, sources, i) == Some(i.targetSet)
  }

  // ---------- mutation ----------

  function CellOf(v: Value): Cell {
    match v
    case Text(s) => Str(s)
    case Number(n) => Int(n)
    case Flag(b) => Int(if b then 1 else 0)
    case Date(iso) => Str(iso)
    case _ => Null
  }

  function CopyOf(row: Row, runId: string, tableName: string, pkKey: string, reason: ActionId): Copy {
    Copy(runId, tableName, pkKey, Get(row, pkKey), reason, row)
  }

  function CopiesOf(rows: seq<Row>, runId: string, tableName: string, pkKey: string, reason: ActionId): seq<Copy> {
    Map(rows, (row: Row) => CopyOf(row, runId, tableName, pkKey, reason))
  }

  function FillRow(row: Row, column: string, value: Value): Row {
    if Get(row, column) == Null then row[column := CellOf(value)] else row
  }

  function FillRows(rows: seq<Row>, column: string, value: Value): seq<Row> {
    Map(rows, (row: Row) => FillRow(row, column, value))
  }

  datatype AppliedStep = AppliedStep(rendered: RenderedStep, estimated: Option<nat>, rowcount: Option<nat>)

  /** The transaction's own view: the sources its snapshot has, the sources it sees, what it has copied and filled,
      its steps and the deadlines it armed. */
  datatype Work = Work(base: Store, sources: Store, copies: seq<Copy>, filled: set<string>, steps: seq<AppliedStep>,
                       arms: seq<Arm>)

  /** One statement in the transaction's view; None where the database raises. */
  function Execute(w: Work, statement: Statement): Option<(Work, nat)> {
    match statement
    case Comment => Some((w, 0))
    case CopyRows(q, runId, tableName, pkKey, reason) =>
      (match Select(w.sources, q)
       case None => None
       case Some(rows) => Some((w.(copies := w.copies + CopiesOf(rows, runId, tableName, pkKey, reason)), |rows|)))
    case FillNulls(table, column, value) =>
      if table !in w.sources then None
      else
        var nulls := Filter(w.sources[table], (row: Row) => Get(row, column) == Null);
        Some((w.(sources := w.sources[table := FillRows(w.sources[table], column, value)],
                 filled := w.filled + {table}),
              |nulls|))
  }

  datatype Stop = StopExpired | StopFailed

  /** The body of the mutation loop: render, arm the deadline, execute, append the step. */
  function RunItem(cat: Catalogs, call: Call, item: PlanItem, reading: int, w: Work): Result<Work, Stop>
    requires item.Executable?
  {
    match Render(cat, item.actionId, item.table, item.params, call.runId)
    case None => Err(StopFailed)
    case Some(step) =>
      match ArmDeadline(call.admission, reading)
      case None => Err(StopExpired)
      case Some(arm) =>
        match if Mutates(item.actionId) then Execute(w, step.statement) else Some((w, 0))
        case None => Err(StopFailed)
        case Some((after, rowcount)) =>
          Ok(after.(steps := w.steps + [AppliedStep(step, Some(item.targetSet.count), Some(rowcount))],
                    arms := w.arms + [arm]))
  }

  /** The first k items run in order; item j reads the clock at index j + 2. */
  function RunItems(cat: Catalogs, call: Call, clock: Clock, w: Work, k: nat): Result<Work, Stop>
    requires AllExecutable(call.plan.items) && k <= |call.plan.items|
  {
    if k == 0 then Ok(w)
    else
      match RunItems(cat, call, clock, w, k - 1)
      case Err(stop) => Err(stop)
      case Ok(before) => RunItem(cat, call, call.plan.items[k - 1], clock(k + 1), before)
  }

  // ---------- the whole transaction body ----------

  /** `dq.admission_consumed`: a blank id is never consumed. */
  predicate Consumed(log: seq<LogRow>, admissionId: string) {
    !Blank(admissionId) && exists row | row in log :: row.admissionId == admissionId
  }

  datatype BodyOutcome = BodyExpired | BodyConsumed | BodyFailed | BodyReady(work: Work)

  function StartWork(sources: Store, arm: Arm): Work {
    Work(sources, sources, [], {}, [], [arm])
  }

  /** Everything between opening the transaction and recording its result, on the transaction's snapshot:
      arm, refuse a consumed admission, recheck every target, then mutate item by item and arm once more. */
  function Body(cat: Catalogs, snapshot: World, call: Call, clock: Clock): BodyOutcome
    requires AllExecutable(call.plan.items)
  {
    match ArmDeadline(call.admission, clock(1))
    case None => BodyExpired
    case Some(arm) =>
      if Consumed(snapshot.log, call.admission.admissionId) then BodyConsumed
      else if !TargetsHold(cat, snapshot.sources, call.plan.items) then BodyFailed
      else
        var n := |call.plan.items|;
        match RunItems(cat, call, clock, StartWork(snapshot.sources, arm), n)
        case Err(StopExpired) => BodyExpired
        case Err(StopFailed) => BodyFailed
        case Ok(work) =>
          match ArmDeadline(call.admission, clock(n + 2))
          case None => BodyExpired
          case Some(last) => BodyReady(work.(arms := work.arms + [last]))
  }

  // ---------- the result and its record ----------

  datatype ApplyResult = ApplyResult(resultId: string, fingerprint: Digest, auditEventId: string, runId: string,
                                     planId: string, admissionId: string, steps: seq<AppliedStep>)

  function EvidenceOf(step: AppliedStep): StepEvidence {
    StepEvidence(step.rendered.actionId, step.rendered.table, step.estimated, step.rowcount)
  }

  function EvidenceOfAll(steps: seq<AppliedStep>): seq<StepEvidence> {
    Map(steps, (s: AppliedStep) => EvidenceOf(s))
  }

  /** `_result_fingerprint` of a mutating run. */
  function ResultFingerprint(plan: Plan, a: Admission, runId: string, steps: seq<AppliedStep>): Digest {
    ResultDigest(plan.qualityRunId, plan.fingerprint, Some(a.fingerprint), runId, false, EvidenceOfAll(steps))
  }

  function ResultOf(call: Call, work: Work): ApplyResult {
    ApplyResult(call.resultId, ResultFingerprint(call.plan, call.admission, call.runId, work.steps), call.eventId,
                call.runId, call.plan.planId, call.admission.admissionId, work.steps)
  }

  function EventOf(call: Call, work: Work): AuditEvent {
    ApplyEvent(call.plan, call.evaluation, call.admission, call.resultId,
               ResultFingerprint(call.plan, call.admission, call.runId, work.steps),
               EvidenceOfAll(work.steps), false, call.eventId)
  }

  function TargetTotal(items: seq<PlanItem>): nat {
    if items == [] then 0
    else TargetTotal(items[..|items| - 1])
         + (if items[|items| - 1].Executable? then items[|items| - 1].targetSet.count else 0)
  }

  function RowTotal(steps: seq<AppliedStep>): nat {
    if steps == [] then 0
    else RowTotal(steps[..|steps| - 1])
         + (if steps[|steps| - 1].rowcount.Some? then steps[|steps| - 1].rowcount.value else 0)
  }

  function TargetDigests(items: seq<PlanItem>): seq<Digest> {
    if items == [] then []
    else TargetDigests(items[..|items| - 1])
         + (if items[|items| - 1].Executable? then [items[|items| - 1].targetSet.fingerprint] else [])
  }

  /** What `dq.record_apply_result` inserts into the apply log. */
  function RowOf(call: Call, work: Work): LogRow {
    LogRow(call.runId, call.plan.planId, call.admission.admissionId, call.eventId, TargetTotal(call.plan.items),
           ListDigest(TargetDigests(call.plan.items)),
           if work.steps == [] then None else Some(RowTotal(work.steps)))
  }

  /** The unique indexes: one log row per admission id that is not empty, one trace per event id. */
  predicate Violates(world: World, admissionId: string, eventId: string) {
    (admissionId != "" && exists row | row in world.log :: row.admissionId == admissionId)
    || eventId in world.traces
  }

  /** A row as the snapshot has it and as the transaction leaves it. */
  datatype Update<T> = Update(was: T, now: T)

  /** The rows of a table that the transaction has updated: its updates keep every row in its place. */
  function Updates<T(==)>(was: seq<T>, own: seq<T>): seq<Update<T>> {
    if was == [] || own == [] then []
    else (if was[0] != own[0] then [Update(was[0], own[0])] else []) + Updates(was[1..], own[1..])
  }

  function Befores<T>(updates: seq<Update<T>>): seq<T> {
    Map(updates, (u: Update<T>) => u.was)
  }

  function Afters<T>(updates: seq<Update<T>>): seq<T> {
    Map(updates, (u: Update<T>) => u.now)
  }

  function FindUpdate<T(==)>(updates: seq<Update<T>>, row: T): (i: nat)
    ensures i <= |updates| && (i < |updates| ==> updates[i].was == row)
    ensures i == |updates| ==> row !in Befores(updates)
  {
    if updates == [] then 0
    else if updates[0].was == row then 0
    else
      assert Befores(updates) == [updates[0].was] + Befores(updates[1..]);
      1 + FindUpdate(updates[1..], row)
  }

  /** The table as others have left it, with the updates: each replaces the row it was made from. */
  function ApplyUpdates<T(==)>(updates: seq<Update<T>>, now: seq<T>): seq<T> {
    if now == [] then []
    else
      var i := FindUpdate(updates, now[0]);
      if i == |updates| then [now[0]] + ApplyUpdates(updates, now[1..])
      else [updates[i].now] + ApplyUpdates(updates[..i] + updates[i + 1..], now[1..])
  }

  function UpdatesOf(work: Work, t: string): seq<Update<Row>>
    requires t in work.base && t in work.sources
  {
    Updates(work.base[t], work.sources[t])
  }

  /** A row this transaction updated is no longer there as it was. Rows that others insert are no conflict. */
  predicate WriteConflict(work: Work, now: World) {
    exists t | t in work.filled ::
      t !in now.sources || t !in work.base || t !in work.sources
      || !(multiset(Befores(UpdatesOf(work, t))) <= multiset(now.sources[t]))
  }

  function MergeSources(work: Work, now: Store): Store {
    map t | t in now ::
      if t in work.filled && t in work.base && t in work.sources
      then ApplyUpdates(UpdatesOf(work, t), now[t])
      else now[t]
  }

  /** The state after this transaction's commit. */
  function Committed(world: World, call: Call, work: Work): World {
    World(MergeSources(work, world.sources), world.quarantine + work.copies, world.log + [RowOf(call, work)],
          world.traces[call.eventId := EventOf(call, work)])
  }

  // ---------- recovery ----------

  datatype Recovery = NotRecorded | Refused | Recovered(result: ApplyResult)

  /** `dq.committed_apply_result`: the log row joined with its trace; a blank id has none. */
  function FindRow(log: seq<LogRow>, traces: Events, admissionId: string): Option<LogRow> {
    if Blank(admissionId) || log == [] then None
    else if log[0].admissionId == admissionId && log[0].eventId in traces then Some(log[0])
    else FindRow(log[1..], traces, admissionId)
  }

  /** The fields of the recorded event that must bind the supplied payloads. */
  predicate Binds(event: AuditEvent, row: LogRow, plan: Plan, a: Admission) {
    && row.planId == plan.planId
    && event.kind == ApplySucceeded
    && event.qualityRunId == plan.qualityRunId
    && event.planId == Some(plan.planId)
    && event.planFingerprint == Some(plan.fingerprint)
    && event.policyFingerprint == Some(a.policyFingerprint)
    && event.evaluationId == Some(a.evaluationId)
    && event.evaluationFingerprint == Some(a.evaluationFingerprint)
    && event.decisionId == Some(a.decisionId)
  }

  /** The recorded steps rendered again, None where one does not match its plan item or does not render. */
  function RecoverSteps(cat: Catalogs, items: seq<PlanItem>, recorded: seq<StepEvidence>, runId: string)
    : Option<seq<AppliedStep>>
    requires |items| == |recorded| && AllExecutable(items)
  {
    if items == [] then Some([])
    else
      var n := |items| - 1;
      assert items[n] in items;
      match RecoverSteps(cat, items[..n], recorded[..n], runId)
      case None => None
      case Some(steps) =>
        if recorded[n].actionId != items[n].actionId || recorded[n].table != items[n].table then None
        else
          match Render(cat, items[n].actionId, items[n].table, items[n].params, runId)
          case None => None
          case Some(step) => Some(steps + [AppliedStep(step, recorded[n].estimatedRows, recorded[n].rowcount)])
  }

  /** `_recover_committed_result`: nothing recorded, a refusal (or any error), or the committed result. */
  function Recover(cat: Catalogs, world: World, call: Call): Recovery
    requires AllExecutable(call.plan.items)
  {
    match FindRow(world.log, world.traces, call.admission.admissionId)
    case None => NotRecorded
    case Some(row) =>
      if row.eventId !in world.traces then NotRecorded
      else
        var event := world.traces[row.eventId];
        if !Binds(event, row, call.plan, call.admission) || |event.applySteps| != |call.plan.items| then Refused
        else
          match RecoverSteps(cat, call.plan.items, event.applySteps, row.runId)
          case None => Refused
          case Some(steps) =>
            var fingerprint := ResultFingerprint(call.plan, call.admission, row.runId, steps);
            if Some(fingerprint) != event.applyResultFingerprint || NoText(event.applyResultId) || event.eventId == ""
            then Refused
            else
              Recovered(ApplyResult(event.applyResultId.value, fingerprint, event.eventId, row.runId,
                                    call.plan.planId, call.admission.admissionId, steps))
  }
}
