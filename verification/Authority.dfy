/** From a human decision to the database: what an admission lets apply do, and until when. */
module Authority {
  import opened Prelude
  import opened Contracts
  import opened Actions
  import opened CheckPolicies
  import opened Planning
  import opened Agreement
  import opened Evaluations
  import opened Lineage
  import opened Admissions
  import opened Journeys
  import opened Transactions
  import opened AdmittedRuns

  /** The call carries an admission minted from this decision, and its other payloads. */
  ghost predicate Carries(call: Call, plan: Plan, evaluation: Evaluation, d: Decision, report: Report, now: int,
                          ttl: int,
                          admissionId: string)
    requires evaluation.fingerprint.Some? && d.auditEventId.Some?
  {
    && call.plan == plan && call.evaluation == evaluation && call.report == report
    && call.admission == AdmissionOf(plan, evaluation, d, now, ttl, admissionId)
  }

  /** Whatever admission accepts, apply accepts at its entry under the same catalogs, exactly when the plan has
      no blocked item, its policy snapshot is current and the connection reaches the plan's warehouse: the
      remaining guards of the two seams coincide. */
  lemma AdmittedPassesEntry(cat: Catalogs, plan: Plan, evaluation: Evaluation, d: Decision, report: Report, ttl: int,
                            events: Events, now: int, admissionId: string, call: Call)
    requires Admits(cat, plan, evaluation, d, report, ttl, events, now)
    requires evaluation.fingerprint.Some? && d.auditEventId.Some?
    requires Carries(call, plan, evaluation, d, report, now, ttl, admissionId)
    ensures EntryAccepts(cat, call) <==>
      AllExecutable(plan.items) && CurrentPolicy(cat, plan) == Some(plan.policyFingerprint)
      && call.environment == plan.environmentId
  {
    hide ApprovalDurable;
    hide PlanJustified;
    hide CurrentPolicy;
    hide NoConflicts;
  }

  lemma PreparedItems(cat: Catalogs, report: Report, proposal: Proposal, candidatePassed: bool,
                      candidateEventId: string,
                      resolve: Resolver, ids: PrepareIds, ttl: int)
    requires Prepare(cat, report, proposal, candidatePassed, candidateEventId, resolve, ids, ttl).Some?
    requires !Prepare(cat, report, proposal, candidatePassed, candidateEventId, resolve, ids, ttl).value.plan.blocked
    ensures
      var plan := Prepare(cat, report, proposal, candidatePassed, candidateEventId, resolve, ids, ttl).value.plan;
      && AllExecutable(plan.items) && CurrentPolicy(cat, plan) == Some(plan.policyFingerprint)
      && plan.environmentId == ids.environment
  {
    hide CurrentPolicy;
    hide CompiledItems;
    PreparedFacts(cat, report, proposal, candidatePassed, candidateEventId, resolve, ids, ttl);
    UnblockedShape(cat, report, proposal, resolve, ids.planId, ids.environment);
    CompiledSnapshotCurrent(cat, report, proposal, resolve, ids.planId, ids.environment);
  }

  /** The whole governed path: an unblocked plan prepared from a report that agrees with the declared checks,
      approved through the recorder with its full binding and admitted inside its window, is accepted at the
      entry of apply exactly when the connection reaches the warehouse it was compiled for. */
  lemma PreparedPlanReachesApply(cat: Catalogs, report: Report, proposal: Proposal, candidatePassed: bool,
                                 candidateEventId: string, resolve: Resolver, ids: PrepareIds, ttl: int,
                                 decision: Decision, approvers: set<string>, eventId: string, events: Events, now: int,
                                 admissionId: string, call: Call)
    requires SuiteReport(cat, report) && ResolverValid(resolve)
    requires Prepare(cat, report, proposal, candidatePassed, candidateEventId, resolve, ids, ttl).Some?
    requires
      var p := Prepare(cat, report, proposal, candidatePassed, candidateEventId, resolve, ids, ttl).value;
      var recorded := RecordDecision(decision, approvers, report.runId, ids.reviewedId, FullBinding(p), eventId);
      && !p.plan.blocked && decision.kind == Approve && !Whitespace(eventId)
      && recorded.Some? && Journeys.Recorded(p, recorded.value.1, events)
      && decision.decidedAt <= now < decision.decidedAt + ttl && NoConflicts(p.plan.items)
      && p.evaluation.fingerprint.Some? && recorded.value.0.auditEventId.Some?
      && Carries(call, p.plan, p.evaluation, recorded.value.0, report, now, ttl, admissionId)
    ensures EntryAccepts(cat, call) <==> call.environment == ids.environment
    ensures call.admission.expiresAt == decision.decidedAt + ttl
  {
    hide Prepare;
    hide Authorized;
    hide EntryAccepts;
    hide CurrentPolicy;
    hide NoConflicts;
    EndToEndAdmission(cat, report, proposal, candidatePassed, candidateEventId, resolve, ids, ttl, decision, approvers,
                      eventId, events, now);
    PreparedItems(cat, report, proposal, candidatePassed, candidateEventId, resolve, ids, ttl);
    var p := Prepare(cat, report, proposal, candidatePassed, candidateEventId, resolve, ids, ttl).value;
    var d := RecordDecision(decision, approvers, report.runId, ids.reviewedId, FullBinding(p), eventId).value.0;
    AdmittedPassesEntry(cat, p.plan, p.evaluation, d, report, ttl, events, now, admissionId, call);
  }

  /** The mutation window: every statement a run arms a deadline for starts, and is cut off, no later than the
      ttl after the human decision, however late the admission was minted. */
  lemma MutationsStayInDecisionWindow(cat: Catalogs, snapshot: World, call: Call, clock: Clock, plan: Plan,
                                      evaluation: Evaluation, d: Decision, report: Report, now: int, ttl: int,
                                      admissionId: string)
    requires evaluation.fingerprint.Some? && d.auditEventId.Some?
    requires Carries(call, plan, evaluation, d, report, now, ttl, admissionId)
    requires AllExecutable(call.plan.items) && Body(cat, snapshot, call, clock).BodyReady?
    ensures
      var arms := Body(cat, snapshot, call, clock).work.arms;
      && |arms| == |plan.items| + 2
      && forall k | 0 <= k < |arms| ::
           arms[k].reading < arms[k].reading + 1000 * arms[k].timeoutMs <= d.decidedAt + ttl
  {
    hide Body;
    DeadlinesBoundTheRun(cat, snapshot, call, clock);
  }

  // ---------- lineage ----------

  /** Every event of one store is still there in another. */
  ghost predicate Kept(events: Events, later: Events) {
    forall id | id in events :: id in later && later[id] == events[id]
  }

  /** The record of an admitted plan closes its lineage: its predecessor is the durable approval the admission
      was minted from, and six steps back from it stands the quality report of the same run. */
  lemma ApplyClosesLineage(cat: Catalogs, plan: Plan, evaluation: Evaluation, d: Decision, report: Report, ttl: int,
                           events: Events, now: int, admissionId: string, call: Call, world: World, work: Work)
    requires Admits(cat, plan, evaluation, d, report, ttl, events, now)
    requires evaluation.fingerprint.Some? && d.auditEventId.Some?
    requires Carries(call, plan, evaluation, d, report, now, ttl, admissionId)
    requires Closed(world.traces) && Kept(events, world.traces) && call.eventId !in world.traces
    ensures Closed(Committed(world, call, work).traces)
    ensures
      var traces := Committed(world, call, work).traces;
      var root := Ancestor(traces, call.eventId, 6);
      && root in traces && traces[root].kind == QualityReport && traces[root].qualityRunId == report.runId
  {
    hide ApprovalDurable;
    hide PlanJustified;
    hide Closed;
    hide Ancestor;
    hide EvidenceOfAll;
    hide ResultFingerprint;
    hide MergeSources;
    hide RowOf;
    DurableNamesEvent(plan, evaluation, d, ttl, events);
    JustifiedRun(cat, plan, report);
    var event := EventOf(call, work);
    assert Follows(world.traces, event);
    AppendKeepsClosed(world.traces, event);
    LineageReachesRoot(Committed(world, call, work).traces, call.eventId);
  }

  lemma JustifiedRun(cat: Catalogs, plan: Plan, report: Report)
    requires PlanJustified(cat, plan, report)
    ensures plan.qualityRunId == report.runId
  {
  }
}
