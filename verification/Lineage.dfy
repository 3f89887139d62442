/** The immutable audit events of one quality run (traces/lineage.py), the store that keeps them
    (traces/repository.py), and the chain of predecessors they form. */
module Lineage {
  import opened Prelude
  import opened Contracts
  import opened Planning

  // ---------- event factories ----------

  function BareEvent(eventId: string, kind: EventKind, runId: string, predecessors: seq<string>): AuditEvent {
    AuditEvent(eventId, kind, runId, predecessors, None, None, None, None, None, None, None, None, None, None,
               None, None, [])
  }

  function ReportEvent(report: Report, eventId: string): AuditEvent {
    BareEvent(eventId, QualityReport, report.runId, [])
  }

  function CandidateEvent(report: Report, predecessor: string, eventId: string): AuditEvent {
    BareEvent(eventId, CandidateProposal, report.runId, [predecessor])
  }

  function PlanEvent(plan: Plan, predecessor: string, eventId: string): AuditEvent {
    BareEvent(eventId, if plan.blocked then PlanBlocked else PlanCompiled, plan.qualityRunId, [predecessor])
      .(planId := Some(plan.planId), planFingerprint := Some(plan.fingerprint),
        policyFingerprint := Some(plan.policyFingerprint))
  }

  function EvaluatedEvent(plan: Plan, evaluation: Evaluation, predecessor: string, eventId: string): AuditEvent {
    BareEvent(eventId, EvaluationEvent, plan.qualityRunId, [predecessor])
      .(planId := Some(plan.planId), planFingerprint := Some(plan.fingerprint),
        policyFingerprint := Some(plan.policyFingerprint),
        evaluationId := Some(evaluation.evaluationId), evaluationFingerprint := evaluation.fingerprint)
  }

  function ReviewEvent(review: Review, evaluation: Evaluation, predecessor: string, eventId: string): AuditEvent {
    BareEvent(eventId, ApprovalReview, review.qualityRunId, [predecessor])
      .(planId := Some(review.planId), planFingerprint := Some(review.planFingerprint),
        policyFingerprint := Some(review.policyFingerprint),
        evaluationId := Some(evaluation.evaluationId), evaluationFingerprint := evaluation.fingerprint,
        reviewFingerprint := Some(review.fingerprint))
  }

  function DecisionEventKind(kind: DecisionKind): EventKind {
    match kind
    case Approve => HumanApproved
    case Timeout => HumanTimedOut
    case _ => HumanRejected
  }

  /** `human_decision_fingerprint`. */
  function DecisionFingerprint(d: Decision): Digest {
    DecisionDigest(d.decisionId, d.kind, d.actor, d.note, d.decidedAt)
  }

  function DecisionEvent(runId: string, d: Decision, predecessor: string, binding: Binding,
                         eventId: string): AuditEvent {
    BareEvent(eventId, DecisionEventKind(d.kind), runId, [predecessor])
      .(planId := binding.planId, planFingerprint := binding.planFingerprint,
        evaluationId := binding.evaluationId, evaluationFingerprint := binding.evaluationFingerprint,
        reviewFingerprint := d.reviewFingerprint, decisionId := Some(d.decisionId),
        decisionFingerprint := Some(DecisionFingerprint(d)), decisionOutcome := Some(d.kind),
        decisionActor := Some(d.actor))
  }

  /** `apply_result_event` under an admission. */
  function ApplyEvent(plan: Plan, evaluation: Evaluation, admission: Admission, resultId: string,
                      resultFingerprint: Digest, steps: seq<StepEvidence>, failed: bool, eventId: string): AuditEvent {
    BareEvent(eventId, if failed then ApplyFailed else ApplySucceeded, plan.qualityRunId, [admission.decisionEventId])
      .(planId := Some(plan.planId), planFingerprint := Some(plan.fingerprint),
        policyFingerprint := Some(admission.policyFingerprint),
        evaluationId := Some(evaluation.evaluationId), evaluationFingerprint := evaluation.fingerprint,
        decisionId := Some(admission.decisionId), applyResultId := Some(resultId),
        applyResultFingerprint := Some(resultFingerprint), applySteps := steps)
  }

  // ---------- the chain ----------

  type Events = map<string, AuditEvent>

  function Stage(kind: EventKind): nat {
    match kind
    case QualityReport => 0
    case CandidateProposal => 1
    case PlanCompiled => 2
    case PlanBlocked => 2
    case EvaluationEvent => 3
    case ApprovalReview => 4
    case HumanApproved => 5
    case HumanRejected => 5
    case HumanTimedOut => 5
    case DryRun => 6
    case ApplySucceeded => 6
    case ApplyFailed => 6
  }

  /** The event may be persisted: its one predecessor is already there, of the same run, one stage earlier. */
  predicate Follows(events: Events, e: AuditEvent) {
    if Stage(e.kind) == 0 then e.predecessorIds == []
    else
      && |e.predecessorIds| == 1
      && e.predecessorIds[0] in events
      && events[e.predecessorIds[0]].qualityRunId == e.qualityRunId
      && Stage(events[e.predecessorIds[0]].kind) + 1 == Stage(e.kind)
  }

  ghost predicate Closed(events: Events) {
    forall id | id in events :: events[id].eventId == id && Follows(events, events[id])
  }

  /** Appending an event with a fresh id whose predecessor is already there keeps the lineage closed. */
  lemma AppendKeepsClosed(events: Events, e: AuditEvent)
    requires Closed(events) && e.eventId !in events && Follows(events, e)
    ensures Closed(events[e.eventId := e])
  {
  }

  /** Follow the single predecessor n times. */
  function Ancestor(events: Events, id: string, n: nat): string
    decreases n
  {
    if n == 0 || id !in events || |events[id].predecessorIds| != 1 then id
    else Ancestor(events, events[id].predecessorIds[0], n - 1)
  }

  /** Every event leads back, stage by stage, to the quality report of its own run. */
  lemma {:induction false} LineageReachesRoot(events: Events, id: string)
    requires Closed(events) && id in events
    ensures
      var root := Ancestor(events, id, Stage(events[id].kind));
      && root in events
      && events[root].kind == QualityReport
      && events[root].qualityRunId == events[id].qualityRunId
      && events[root].predecessorIds == []
    decreases Stage(events[id].kind)
  {
    if Stage(events[id].kind) > 0 {
      LineageReachesRoot(events, events[id].predecessorIds[0]);
    }
  }

  // ---------- the store ----------

  /** How one durable write ends for its caller. */
  datatype Write = Stored | Lost | StoredThenRaised

  /** What a write leaves behind. */
  function Persisted(events: Events, e: AuditEvent, write: Write): Events {
    if write == Lost then events else events[e.eventId := e]
  }

  class AuditRepository {
    var events: map<string, AuditEvent>

    constructor ()
      ensures events == map[]
    {
      events := map[];
    }

    method Add(e: AuditEvent)
      modifies this
      ensures events == old(events)[e.eventId := e]
    {
      events := events[e.eventId := e];
    }

    function Lookup(eventId: string): Option<AuditEvent>
      reads this
    {
      if eventId in events then Some(events[eventId]) else None
    }

    /** The `persist` callback: it stores and returns, loses the write, or stores and still raises. */
    method Persist(e: AuditEvent, write: Write) returns (ok: bool)
      modifies this
      ensures events == Persisted(old(events), e, write)
      ensures ok <==> write == Stored
    {
      if write != Lost {
        Add(e);
      }
      ok := write == Stored;
    }
  }
}
