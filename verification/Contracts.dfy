/** The governed artifacts: table contracts, check policies, reports, proposals, plans, evaluations,
    decisions, admissions and audit events (contracts/models.py, contracts/tables.py,
    contracts/remediations.py, quality/registry.py). */
module Contracts {
  import opened Prelude
  import opened Sql

  // ---------- parameters ----------

  /** A parameter value. `Date` is a Python date, which a JSON dump turns into text. */
  datatype Value =
    | Text(s: string)
    | Number(n: int)
    | Flag(b: bool)
    | Nothing
    | Date(iso: string)
    | List(items: seq<Value>)
    | Tuple(items: seq<Value>)

  /** The parameter names the governed actions know; any other name is `Other`. */
  datatype ParamKey =
    | Column | PkColumn | FkColumn | RefTable | RefColumn | BusinessKey | FillValue | CheckIdKey
    | Other(name: string)

  type Params = map<ParamKey, Value>

  /** `ExecutablePlanItem.freeze_params`: only the outermost lists become tuples. */
  function FreezeValue(v: Value): Value {
    if v.List? then Tuple(v.items) else v
  }

  function Freeze(params: Params): Params {
    map k | k in params :: FreezeValue(params[k])
  }

  /** One JSON dump: tuples become lists at every depth and dates become text. */
  function DumpValue(v: Value): Value {
    match v
    case Date(iso) => Text(iso)
    case List(items) => List(DumpValues(items))
    case Tuple(items) => List(DumpValues(items))
    case _ => v
  }

  function DumpValues(items: seq<Value>): (r: seq<Value>)
    ensures |r| == |items|
  {
    if items == [] then [] else [DumpValue(items[0])] + DumpValues(items[1..])
  }

  function Dump(params: Params): Params {
    map k | k in params :: DumpValue(params[k])
  }

  // ---------- actions ----------

  /** The governed actions; any other requested identifier is `Ungoverned`. */
  datatype ActionId =
    | NoOpAlert | QuarantineNulls | QuarantineInvalids | NullFill
    | QuarantineOrphans | DedupeKeepMinPk | SchemaDriftTicket
    | Ungoverned(name: string)

  // ---------- contracts and checks ----------

  datatype DType = Int64 | Float64 | Utf8 | DateType | DatetimeType | BoolType

  datatype ColumnContract = ColumnContract(name: string, dtype: DType, allowedValues: Option<seq<string>>)

  datatype ForeignKey = ForeignKey(column: string, refTable: string, refColumn: string)

  datatype TableContract = TableContract(
    table: string, schemaName: string, columns: seq<ColumnContract>,
    primaryKey: seq<string>, foreignKeys: seq<ForeignKey>)
  {
    function Qualified(): string { schemaName + "." + table }

    predicate HasColumn(name: string) { exists c | c in columns :: c.name == name }
  }

  function FindColumn(columns: seq<ColumnContract>, name: string): Option<ColumnContract> {
    if columns == [] then None
    else if columns[0].name == name then Some(columns[0])
    else FindColumn(columns[1..], name)
  }

  function FindForeignKey(keys: seq<ForeignKey>, column: string): Option<ForeignKey> {
    if keys == [] then None
    else if keys[0].column == column then Some(keys[0])
    else FindForeignKey(keys[1..], column)
  }

  datatype Dimension = Completeness | Validity | Uniqueness | SchemaDrift | ReferentialIntegrity

  datatype CheckPolicy = CheckPolicy(actionId: ActionId, parameters: Params)

  /** The bounded sample query of a check: SQL text whose names are not quoted. */
  datatype Sample =
    | ColumnNames(schemaName: string, table: string)
    | FailingRows(query: Query)
    | DuplicateGroups(table: string, keys: seq<string>)

  datatype CheckSpec = CheckSpec(
    checkId: string, table: string, column: Option<string>, dimension: Dimension, contractId: string,
    policies: seq<CheckPolicy>, contains: Option<string>, windowStart: Option<string>,
    windowEnd: Option<string>, businessKey: Option<seq<string>>,
    sample: Sample, quarantinePredicate: Option<Pred>)

  /** The JSON dump of a check: only the parameters of its policies can change. */
  function DumpSpec(spec: CheckSpec): CheckSpec {
    spec.(policies := Map(spec.policies, (p: CheckPolicy) => p.(parameters := Dump(p.parameters))))
  }

  /** `CheckSpec.rule_for`: the first policy that names the action. */
  function RuleFor(policies: seq<CheckPolicy>, action: ActionId): Option<CheckPolicy> {
    if policies == [] then None
    else if policies[0].actionId == action then Some(policies[0])
    else RuleFor(policies[1..], action)
  }

  // ---------- reports and proposals ----------

  datatype CheckStatus = Pass | Fail | Error

  datatype CheckResult = CheckResult(
    checkId: string, table: string, status: CheckStatus, nFailed: nat, nTotal: nat, contractId: string)

  datatype Report = Report(
    runId: string, fingerprint: Option<Digest>, auditEventId: Option<string>, checks: seq<CheckResult>)

  /** `QualitySuiteReport.incomplete`. */
  predicate Incomplete(report: Report) {
    report.checks == [] || exists c | c in report.checks :: c.status == Error
  }

  function FailedChecks(report: Report): seq<CheckResult> {
    Filter(report.checks, (c: CheckResult) => c.status == Fail)
  }

  datatype Evidence = Evidence(checkId: string, contractId: string)

  datatype CandidateAction = CandidateAction(actionId: ActionId, evidence: seq<Evidence>, rationale: string)

  /** `narrative` stands for every free-text field of the proposal. */
  datatype Proposal = Proposal(proposalId: string, narrative: string, actions: seq<CandidateAction>)

  /** What the models enforce on parsing: no candidate action is without evidence. */
  predicate Parsed(proposal: Proposal) {
    forall a | a in proposal.actions :: a.evidence != []
  }

  // ---------- plans ----------

  datatype TargetSet = TargetSet(count: nat, fingerprint: Digest)

  datatype ItemId = Candidate(index: nat) | OmittedFailures

  datatype Reason =
    | SuiteIncomplete | DuplicateCandidate | UnknownCheck | InvalidEvidence | UnsupportedAction
    | Unavailable | TargetsUnresolved | OmittedCoverage

  datatype PlanItem =
    | Executable(itemId: ItemId, actionId: ActionId, table: string, params: Params,
                 evidence: seq<Evidence>, targetSet: TargetSet, policyFingerprint: Digest)
    | NonExecutable(itemId: ItemId, evidence: seq<Evidence>, reason: Reason)

  function DumpItem(item: PlanItem): PlanItem {
    if item.Executable? then item.(params := Dump(item.params)) else item
  }

  /** Parsing a dumped item freezes its parameters again. */
  function ReviveItem(item: PlanItem): PlanItem {
    if item.Executable? then item.(params := Freeze(item.params)) else item
  }

  datatype Plan = Plan(
    planId: string, qualityRunId: string, candidateFingerprint: Digest, policyFingerprint: Digest,
    items: seq<PlanItem>, blocked: bool, blockedReasons: seq<Reason>, environmentId: string,
    fingerprint: Digest)

  predicate AllExecutable(items: seq<PlanItem>) {
    forall i | i in items :: i.Executable?
  }

  // ---------- evaluation, decision, admission ----------

  datatype ScoreName =
    | SchemaValidity | CitationQuality | Groundedness | DestructiveRisk | AllowlistCompliance
    | CheckPolicyScore | SuiteCompleteness | PlanCompilation | PolicySnapshot | TargetSetIntegrity

  datatype Score = Score(name: ScoreName, passed: bool)

  datatype Evaluation = Evaluation(
    evaluationId: string, auditEventId: Option<string>, planId: Option<string>,
    planFingerprint: Option<Digest>, fingerprint: Option<Digest>, passed: bool,
    scores: seq<Score>, blockedReasons: seq<ScoreName>)

  datatype DecisionKind = Approve | Reject | Timeout | ShadowSkip

  /** Times are microseconds on one clock. */
  datatype Decision = Decision(
    decisionId: string, fingerprint: Option<Digest>, reviewFingerprint: Option<Digest>,
    auditEventId: Option<string>, decidedAt: int, kind: DecisionKind, actor: string, note: Option<string>)

  datatype Binding = Binding(
    planId: Option<string>, planFingerprint: Option<Digest>, reviewFingerprint: Option<Digest>,
    evaluationId: Option<string>, evaluationFingerprint: Option<Digest>)

  datatype Admission = Admission(
    admissionId: string, qualityRunId: string, planId: string, planFingerprint: Digest,
    evaluationId: string, evaluationFingerprint: Digest, decisionId: string, decisionEventId: string,
    policyFingerprint: Digest, environmentId: string, issuedAt: int, expiresAt: int, fingerprint: Digest)

  datatype ReviewItem = ReviewItem(
    actionId: ActionId, table: string, checkIds: seq<string>, targetCount: nat,
    targetFingerprint: Digest, mutates: bool, reversible: bool)

  datatype Review = Review(
    planId: string, planFingerprint: Digest, policyFingerprint: Digest, qualityRunId: string,
    items: seq<ReviewItem>, evaluationId: string, evaluationFingerprint: Digest, passed: bool,
    scores: seq<Score>, ttl: int, fingerprint: Digest)

  // ---------- audit events ----------

  datatype EventKind =
    | QualityReport | CandidateProposal | PlanCompiled | PlanBlocked | EvaluationEvent | ApprovalReview
    | HumanApproved | HumanRejected | HumanTimedOut | DryRun | ApplySucceeded | ApplyFailed

  datatype StepEvidence = StepEvidence(
    actionId: ActionId, table: string, estimatedRows: Option<nat>, rowcount: Option<nat>)

  datatype AuditEvent = AuditEvent(
    eventId: string, kind: EventKind, qualityRunId: string, predecessorIds: seq<string>,
    planId: Option<string>, planFingerprint: Option<Digest>, policyFingerprint: Option<Digest>,
    evaluationId: Option<string>, evaluationFingerprint: Option<Digest>,
    reviewFingerprint: Option<Digest>, decisionId: Option<string>, decisionFingerprint: Option<Digest>,
    decisionOutcome: Option<DecisionKind>, decisionActor: Option<string>,
    applyResultId: Option<string>, applyResultFingerprint: Option<Digest>, applySteps: seq<StepEvidence>)

  // ---------- fingerprints ----------

  datatype CheckSummary = CheckSummary(
    checkId: string, contractId: string, status: CheckStatus, nFailed: nat, nTotal: nat)

  /** A canonical fingerprint as a term over the payload it covers: equal exactly when the payloads, dumped
      where the program dumps them, are, which is the collision-freedom the program assumes of SHA-256 over
      canonical JSON.
      `Raw` is any other text a received artifact may carry in a fingerprint field. */
  datatype Digest =
    | Raw(text: string)
    | ReportDigest(runId: string, checks: seq<CheckSummary>)
    | CandidateDigest(proposal: Proposal)
    | ItemPolicyDigest(contracts: seq<TableContract>, specs: seq<CheckSpec>, action: ActionId)
    | ListDigest(parts: seq<Digest>)
    | TargetDigest(table: string, keys: seq<Cell>)
    | PlanDigest(planId: string, qualityRunId: string, candidate: Digest, policy: Digest,
                 environmentId: string, items: seq<PlanItem>)
    | EvaluationDigest(evaluationId: string, forPlan: Option<string>, forPlanDigest: Option<Digest>,
                       passed: bool, scores: seq<Score>, blockedReasons: seq<ScoreName>)
    | DecisionDigest(decisionId: string, kind: DecisionKind, actor: string, note: Option<string>, decidedAt: int)
    | AdmissionDigest(payload: Admission)
    | ReviewDigest(review: Review)
    | ResultDigest(resultRunId: string, plan: Digest, admission: Option<Digest>, run: string,
                   dryRun: bool, steps: seq<StepEvidence>)

  /** `not fingerprint`: absent or empty. */
  predicate NoDigest(d: Option<Digest>) {
    d == None || d == Some(Raw(""))
  }

  /** `not text` for an optional string. */
  predicate NoText(s: Option<string>) {
    s == None || s == Some("")
  }

  /** Nothing but blanks: `btrim` leaves nothing. SQL `btrim` knows no other white space. */
  predicate Blank(s: string) {
    forall c | c in s :: c == ' '
  }

  /** What `str.strip` takes for white space. */
  predicate Space(c: char) {
    || c == ' ' || '\t' <= c <= '\r' || '\U{1c}' <= c <= '\U{1f}' || c == '\U{85}' || c == '\U{a0}'
    || c == '\U{1680}' || '\U{2000}' <= c <= '\U{200a}' || c == '\U{2028}' || c == '\U{2029}'
    || c == '\U{202f}' || c == '\U{205f}' || c == '\U{3000}'
  }

  /** Nothing but white space: `str.strip` leaves nothing. */
  predicate Whitespace(s: string) {
    forall c | c in s :: Space(c)
  }
}
