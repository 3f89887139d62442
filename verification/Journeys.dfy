/** One quality run from the audited candidate to an admission (planning/preparation.py, hitl.py): every
    artifact is persisted before it is used, and an approved plan can be admitted exactly inside its window. */
module Journeys {
  import opened Prelude
  import opened Contracts
  import opened Actions
  import opened CheckPolicies
  import opened Planning
  import opened Agreement
  import opened Evaluations
  import opened Lineage
  import opened Admissions
  import P = Predicates

  // ---------- preparation ----------

  /** The identifiers minted on the way. */
  datatype PrepareIds = PrepareIds(planId: string, environment: string, compiledId: string,
                                   evaluationId: string, evaluatedId: string, reviewedId: string)

  datatype Prepared = Prepared(plan: Plan, compiled: AuditEvent, evaluation: Evaluation, evaluated: AuditEvent,
                               review: Review, reviewed: AuditEvent)

  /** `prepare_plan_review` when every write succeeds, None where it refuses or raises. */
  function Prepare(cat: Catalogs, report: Report, proposal: Proposal, candidatePassed: bool, candidateEventId: string,
                   resolve: Resolver, ids: PrepareIds, ttl: int): Option<Prepared>
  {
    if !ReportIntact(report) || report.auditEventId.None? || !candidatePassed then None
    else
      var plan := Compile(cat, report, proposal, resolve, ids.planId, ids.environment);
      var compiled := PlanEvent(plan, candidateEventId, ids.compiledId);
      match EvaluatePlan(cat, plan, ids.evaluationId)
      case None => None
      case Some(scored) =>
        var evaluated := EvaluatedEvent(plan, scored, ids.compiledId, ids.evaluatedId);
        var evaluation := scored.(auditEventId := Some(ids.evaluatedId));
        match BuildReview(plan, evaluation, ttl)
        case None => None
        case Some(review) =>
          Some(Prepared(plan, compiled, evaluation, evaluated, review,
                        ReviewEvent(review, evaluation, ids.evaluatedId, ids.reviewedId)))
  }

  /** Three event ids that no event has yet. */
  predicate FreshIds(ids: PrepareIds, events: Events) {
    && ids.compiledId !in events && ids.evaluatedId !in events && ids.reviewedId !in events
    && ids.compiledId != ids.evaluatedId && ids.compiledId != ids.reviewedId && ids.evaluatedId != ids.reviewedId
  }

  /** The candidate the caller names is audited under this report's run. */
  predicate CandidateAudited(report: Report, candidateEventId: string, events: Events) {
    && candidateEventId in events
    && events[candidateEventId].kind == CandidateProposal
    && events[candidateEventId].qualityRunId == report.runId
  }

  /** How a run begins: the audited report and the audited candidate make a closed lineage from which
      preparation can start. */
  lemma RunBegins(report: Report, reportEventId: string, candidateEventId: string)
    requires reportEventId != candidateEventId
    ensures
      var events: Events := map[reportEventId := ReportEvent(report, reportEventId),
                                candidateEventId := CandidateEvent(report, reportEventId, candidateEventId)];
      Closed(events) && CandidateAudited(report, candidateEventId, events)
  {
    AppendKeepsClosed(map[], ReportEvent(report, reportEventId));
  }

  /** What the store holds after the first n of the three writes. */
  function Written(events: Events, p: Prepared, n: nat): Events {
    var one := events[p.compiled.eventId := p.compiled];
    var two := one[p.evaluated.eventId := p.evaluated];
    if n == 0 then events else if n == 1 then one else if n == 2 then two
    else two[p.reviewed.eventId := p.reviewed]
  }

  /** `prepare_plan_review`: each event is persisted before the next artifact is built. Whatever write is
      lost, or raises after storing, the lineage stays closed; on success all three events are there. */
  method PreparePlanReview(cat: Catalogs, report: Report, proposal: Proposal, candidatePassed: bool,
                           candidateEventId: string, resolve: Resolver, ids: PrepareIds, ttl: int,
                           repository: AuditRepository, writes: seq<Write>) returns (r: Option<Prepared>)
    requires |writes| == 3
    requires Closed(repository.events) && FreshIds(ids, repository.events)
    requires CandidateAudited(report, candidateEventId, repository.events)
    modifies repository
    ensures Closed(repository.events)
    ensures forall id | id in old(repository.events) ::
              id in repository.events && repository.events[id] == old(repository.events)[id]
    ensures r.Some? <==>
      Prepare(cat, report, proposal, candidatePassed, candidateEventId, resolve, ids, ttl).Some?
      && writes == [Stored, Stored, Stored]
    ensures r.Some? ==> r == Prepare(cat, report, proposal, candidatePassed, candidateEventId, resolve, ids, ttl)
    ensures r.Some? ==> repository.events == Written(old(repository.events), r.value, 3)
    ensures !candidatePassed || report.auditEventId.None? || report.fingerprint != Some(ReportFingerprint(report)) ==>
              r.None? && repository.events == old(repository.events)
  {
    hide Compile;
    hide EvaluatePlan;
    hide BuildReview;
    hide ReportIntact;
    hide ReportFingerprint;
    hide Closed;
    if ReportIntact(report) {
      IntactReport(report);
    }
    if !ReportIntact(report) || report.auditEventId.None? || !candidatePassed {
      return None;
    }
    CompiledRun(cat, report, proposal, resolve, ids.planId, ids.environment);
    var plan := CompileRemediationPlan(cat, report, proposal, resolve, ids.planId, ids.environment);
    var compiled := PlanEvent(plan, candidateEventId, ids.compiledId);
    AppendKeepsClosed(repository.events, compiled);
    var ok := repository.Persist(compiled, writes[0]);
    if !ok {
      return None;
    }
    var scored := EvaluatePlan(cat, plan, ids.evaluationId);
    if scored.None? {
      return None;
    }
    var evaluated := EvaluatedEvent(plan, scored.value, ids.compiledId, ids.evaluatedId);
    AppendKeepsClosed(repository.events, evaluated);
    ok := repository.Persist(evaluated, writes[1]);
    if !ok {
      return None;
    }
    var evaluation := scored.value.(auditEventId := Some(ids.evaluatedId));
    var review := BuildReview(plan, evaluation, ttl);
    if review.None? {
      return None;
    }
    ReviewRun(plan, evaluation, ttl);
    var reviewed := ReviewEvent(review.value, evaluation, ids.evaluatedId, ids.reviewedId);
    AppendKeepsClosed(repository.events, reviewed);
    ok := repository.Persist(reviewed, writes[2]);
    if !ok {
      return None;
    }
    r := Some(Prepared(plan, compiled, evaluation, evaluated, review.value, reviewed));
  }

  lemma IntactReport(report: Report)
    requires ReportIntact(report)
    ensures report.fingerprint == Some(ReportFingerprint(report))
  {
  }

  lemma CompiledRun(cat: Catalogs, report: Report, proposal: Proposal, resolve: Resolver, planId: string, env: string)
    ensures Compile(cat, report, proposal, resolve, planId, env).qualityRunId == report.runId
  {
    hide CompiledItems;
  }

  lemma ReviewRun(plan: Plan, evaluation: Evaluation, ttl: int)
    requires BuildReview(plan, evaluation, ttl).Some?
    ensures BuildReview(plan, evaluation, ttl).value.qualityRunId == plan.qualityRunId
  {
  }

  // ---------- decision ----------

  /** `record_human_decision`: validate, fingerprint, persist, and only then return the bound decision. */
  method RecordHumanDecision(decision: Decision, approvers: set<string>, runId: string, predecessor: string,
                             binding: Binding, eventId: string, repository: AuditRepository, write: Write)
    returns (r: Option<Decision>)
    requires Closed(repository.events) && eventId !in repository.events
    requires predecessor in repository.events
      && repository.events[predecessor].kind == ApprovalReview
      && repository.events[predecessor].qualityRunId == runId
    modifies repository
    ensures Closed(repository.events)
    ensures r.Some? <==>
      RecordDecision(decision, approvers, runId, predecessor, binding, eventId).Some? && write == Stored
    ensures r.Some? ==>
      var recorded := RecordDecision(decision, approvers, runId, predecessor, binding, eventId).value;
      r == Some(recorded.0) && repository.events == old(repository.events)[eventId := recorded.1]
    ensures !DecisionValid(decision, approvers) ==> repository.events == old(repository.events)
  {
    if !DecisionValid(decision, approvers) {
      return None;
    }
    var stamped := decision.(fingerprint := Some(DecisionFingerprint(decision)));
    if !NoDigest(binding.reviewFingerprint) {
      stamped := stamped.(reviewFingerprint := binding.reviewFingerprint);
    }
    var event := DecisionEvent(runId, stamped, predecessor, binding, eventId);
    AppendKeepsClosed(repository.events, event);
    var ok := repository.Persist(event, write);
    if !ok {
      return None;
    }
    r := Some(stamped.(auditEventId := Some(eventId), fingerprint := event.decisionFingerprint));
  }

  /** `audit_then_complete_approval`: the provider completes only after the outcome is durable. */
  method AuditThenComplete(output: ApprovalOutput, approvers: set<string>, runId: string, predecessor: string,
                           binding: Binding, freshId: string, eventId: string, repository: AuditRepository,
                             write: Write)
    returns (r: Option<Decision>, completed: bool)
    requires Closed(repository.events) && eventId !in repository.events
    requires predecessor in repository.events
      && repository.events[predecessor].kind == ApprovalReview
      && repository.events[predecessor].qualityRunId == runId
    modifies repository
    ensures Closed(repository.events)
    ensures completed <==> r.Some?
    ensures completed ==> eventId in repository.events && r.value.auditEventId == Some(eventId)
    ensures completed ==> repository.events[eventId].decisionFingerprint == Some(DecisionFingerprint(r.value))
    ensures completed && repository.events[eventId].kind == HumanApproved ==>
      r.value.actor in approvers && !output.timedOut
  {
    completed := false;
    var parsed := ParseOutput(output, approvers, freshId);
    if parsed.None? {
      return None, false;
    }
    ParsedDecisionsAreValid(output, approvers, freshId);
    r := RecordHumanDecision(parsed.value, approvers, runId, predecessor, binding, eventId, repository, write);
    completed := r.Some?;
  }

  // ---------- end to end ----------

  function FullBinding(p: Prepared): Binding {
    Binding(Some(p.plan.planId), Some(p.plan.fingerprint), Some(p.review.fingerprint),
            Some(p.evaluation.evaluationId), p.evaluation.fingerprint)
  }

  /** The two events the admission resolves are durable under their ids. */
  predicate Recorded(p: Prepared, event: AuditEvent, events: Events) {
    && p.reviewed.eventId in events && events[p.reviewed.eventId] == p.reviewed
    && event.eventId in events && events[event.eventId] == event
  }

  lemma PreparedFacts(cat: Catalogs, report: Report, proposal: Proposal, candidatePassed: bool,
                      candidateEventId: string,
                      resolve: Resolver, ids: PrepareIds, ttl: int)
    requires Prepare(cat, report, proposal, candidatePassed, candidateEventId, resolve, ids, ttl).Some?
    ensures
      var p := Prepare(cat, report, proposal, candidatePassed, candidateEventId, resolve, ids, ttl).value;
      && ReportIntact(report)
      && p.plan == Compile(cat, report, proposal, resolve, ids.planId, ids.environment)
      && PlanIntact(p.plan)
      && EvaluationIntact(p.plan, p.evaluation)
      && p.evaluation.auditEventId == Some(ids.evaluatedId)
      && BuildReview(p.plan, p.evaluation, ttl) == Some(p.review)
      && p.reviewed == ReviewEvent(p.review, p.evaluation, ids.evaluatedId, ids.reviewedId)
      && p.review.fingerprint.ReviewDigest?
      && p.plan.qualityRunId == report.runId
  {
    hide Compile;
    CompiledRun(cat, report, proposal, resolve, ids.planId, ids.environment);
    CompiledIntact(cat, report, proposal, resolve, ids.planId, ids.environment);
    hide CurrentPolicy;
    hide PlanScores;
  }

  /** An approval recorded with its full binding resolves as a durable approval of the prepared plan. */
  lemma RecordedApprovalIsDurable(plan: Plan, evaluation: Evaluation, review: Review, ids: PrepareIds, ttl: int,
                                  decision: Decision, approvers: set<string>, eventId: string, events: Events)
    requires EvaluationIntact(plan, evaluation) && evaluation.auditEventId == Some(ids.evaluatedId)
    requires BuildReview(plan, evaluation, ttl) == Some(review) && review.fingerprint.ReviewDigest?
    requires decision.kind == Approve && !Whitespace(eventId)
    requires
      var binding := Binding(Some(plan.planId), Some(plan.fingerprint), Some(review.fingerprint),
                             Some(evaluation.evaluationId), evaluation.fingerprint);
      var recorded := RecordDecision(decision, approvers, plan.qualityRunId, ids.reviewedId, binding, eventId);
      && recorded.Some?
      && eventId in events && events[eventId] == recorded.value.1
      && ids.reviewedId in events
      && events[ids.reviewedId] == ReviewEvent(review, evaluation, ids.evaluatedId, ids.reviewedId)
    ensures
      var binding := Binding(Some(plan.planId), Some(plan.fingerprint), Some(review.fingerprint),
                             Some(evaluation.evaluationId), evaluation.fingerprint);
      var bound := RecordDecision(decision, approvers, plan.qualityRunId, ids.reviewedId, binding, eventId).value.0;
      && ApprovalDurable(plan, evaluation, bound, ttl, events)
      && bound.kind == Approve && bound.decidedAt == decision.decidedAt
  {
  }

  /** End to end: for an unblocked plan prepared here and approved with its full binding under the same ttl,
      admission succeeds exactly when the decision is not in the future, the window is still open and no
      items conflict, given a report that agrees with the declared checks. */
  lemma EndToEndAdmission(cat: Catalogs, report: Report, proposal: Proposal, candidatePassed: bool,
                          candidateEventId: string,
                          resolve: Resolver, ids: PrepareIds, ttl: int, decision: Decision, approvers: set<string>,
                          eventId: string, events: Events, now: int)
    requires SuiteReport(cat, report) && ResolverValid(resolve)
    requires Prepare(cat, report, proposal, candidatePassed, candidateEventId, resolve, ids, ttl).Some?
    requires
      var p := Prepare(cat, report, proposal, candidatePassed, candidateEventId, resolve, ids, ttl).value;
      var recorded := RecordDecision(decision, approvers, report.runId, ids.reviewedId, FullBinding(p), eventId);
      && !p.plan.blocked && decision.kind == Approve && !Whitespace(eventId)
      && recorded.Some? && Recorded(p, recorded.value.1, events)
    ensures
      var p := Prepare(cat, report, proposal, candidatePassed, candidateEventId, resolve, ids, ttl).value;
      var d := RecordDecision(decision, approvers, report.runId, ids.reviewedId, FullBinding(p), eventId).value.0;
      && Authorized(cat, p.plan, p.evaluation, d, report, ttl, events)
      && (Admits(cat, p.plan, p.evaluation, d, report, ttl, events, now)
          <==> decision.decidedAt <= now < decision.decidedAt + ttl && NoConflicts(p.plan.items))
  {
    hide Compile;
    hide ApprovalDurable;
    hide BuildReview;
    hide PlanJustified;
    hide EvaluatePlan;
    PreparedFacts(cat, report, proposal, candidatePassed, candidateEventId, resolve, ids, ttl);
    var p := Prepare(cat, report, proposal, candidatePassed, candidateEventId, resolve, ids, ttl).value;
    CompilerAndVerifierAgree(cat, report, proposal, resolve, ids.planId, ids.environment);
    EvaluationAcceptsUnblocked(cat, report, proposal, resolve, ids.planId, ids.environment, ids.evaluationId);
    RecordedApprovalIsDurable(p.plan, p.evaluation, p.review, ids, ttl, decision, approvers, eventId, events);
  }

  /** `create_apply_admission` succeeds; its method is proved to return a value exactly here. */
  ghost predicate Admits(cat: Catalogs, plan: Plan, evaluation: Evaluation, d: Decision, report: Report, ttl: int,
                         events: Events, now: int) {
    Authorized(cat, plan, evaluation, d, report, ttl, events) && InWindow(d, now, ttl) && NoConflicts(plan.items)
  }

  // ---------- what an admitted plan guarantees ----------

  lemma {:induction false} CitedSomewhere(items: seq<PlanItem>, id: string)
    ensures id in Cited(items) <==> id in CheckIdsOf(items)
  {
    if items != [] {
      var n := |items| - 1;
      assert items == items[..n] + [items[n]];
      CitedSomewhere(items[..n], id);
      if items[n].Executable? {
        var ids := Map(items[n].evidence, (e: Evidence) => e.checkId);
        if id in ids {
          var k :| 0 <= k < |ids| && ids[k] == id;
          assert items[n].evidence[k] in items[n].evidence;
        }
        if e :| e in items[n].evidence && e.checkId == id {
          var k :| 0 <= k < |items[n].evidence| && items[n].evidence[k] == e;
          assert ids[k] == id;
        }
      }
    }
  }

  /** In every admitted plan the evidence lists together name each failed check of the report exactly once
      and nothing else, and no table name has two mutating items. */
  lemma EvidencePartition(cat: Catalogs, plan: Plan, evaluation: Evaluation, d: Decision, report: Report, ttl: int,
                          events: Events, now: int)
    requires Admits(cat, plan, evaluation, d, report, ttl, events, now)
    ensures multiset(CheckIdsOf(plan.items)) == multiset(FailuresOf(report).Keys)
    ensures Distinct(MutatingTables(plan.items))
  {
    hide ApprovalDurable;
    hide ItemJustified;
    var ids := CheckIdsOf(plan.items);
    forall id ensures id in ids <==> id in FailuresOf(report) {
      CitedSomewhere(plan.items, id);
    }
    DistinctMultiset(ids);
    assert Elements(ids) == FailuresOf(report).Keys;
  }

  lemma {:induction false} DistinctMultiset(s: seq<string>)
    requires Distinct(s)
    ensures multiset(s) == multiset(Elements(s))
  {
    if s != [] {
      var n := |s| - 1;
      assert s == s[..n] + [s[n]];
      DistinctGrows(s[..n], s[n]);
      DistinctMultiset(s[..n]);
      assert Elements(s) == Elements(s[..n]) + {s[n]};
    }
  }

  /** Among plain spellings the conflict check misses nothing: no contracted table is mutated twice. */
  lemma PlainSpellingsNeverConflict(items: seq<PlanItem>)
    requires NoConflicts(items)
    requires forall t | t in MutatingTables(items) :: '.' !in t
    ensures OneStepPerTable(items)
  {
    var tables := MutatingTables(items);
    var ends := Map(tables, (t: string) => LastSegment(t));
    forall i, j | 0 <= i < j < |ends| ensures ends[i] != ends[j] {
      assert tables[i] in tables && tables[j] in tables;
      P.UndottedSegment(tables[i]);
      P.UndottedSegment(tables[j]);
    }
  }
}
