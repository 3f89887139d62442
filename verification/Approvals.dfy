/** What an admission proves about the past: the decision is the recorded one, unchanged, and what a human saw before
    deciding is this plan, item by item, under this ttl (hitl.py, planning/review.py, planning/admission.py). */
module Approvals {
  import opened Prelude
  import opened Contracts
  import opened Actions
  import opened CheckPolicies
  import opened Planning
  import opened Evaluations
  import opened Lineage
  import opened Admissions
  import opened Journeys
  import opened Transactions
  import opened AdmittedRuns
  import opened Authority

  // ---------- the decision ----------

  /** The same decision, whatever identifiers were attached to it. */
  predicate SameDecision(a: Decision, b: Decision) {
    a.decisionId == b.decisionId && a.kind == b.kind && a.actor == b.actor && a.note == b.note
    && a.decidedAt == b.decidedAt
  }

  /** The stored event was written by recording d0 under these approvers with this binding. */
  ghost predicate RecordedAs(events: Events, eventId: string, d0: Decision, approvers: set<string>, runId: string,
                             predecessor: string, binding: Binding) {
    && RecordDecision(d0, approvers, runId, predecessor, binding, eventId).Some?
    && eventId in events
    && events[eventId] == RecordDecision(d0, approvers, runId, predecessor, binding, eventId).value.1
  }

  /** A decision is admitted only as it was recorded: no field of it can have been rewritten since, its actor is one of
      the approvers it was recorded under and left a note, and the window that opens is that of the recorded time. */
  lemma AdmittedAsRecorded(cat: Catalogs, plan: Plan, evaluation: Evaluation, d: Decision, report: Report, ttl: int,
                           events: Events, now: int, admissionId: string, d0: Decision, approvers: set<string>,
                           runId: string, predecessor: string, binding: Binding)
    requires Admits(cat, plan, evaluation, d, report, ttl, events, now)
    requires evaluation.fingerprint.Some? && d.auditEventId.Some?
    requires RecordedAs(events, d.auditEventId.value, d0, approvers, runId, predecessor, binding)
    ensures SameDecision(d, d0) && d0.kind == Approve
    ensures d0.actor in approvers && d0.note.Some? && Trim(d0.note.value) != ""
    ensures d0.decidedAt <= now < d0.decidedAt + ttl
    ensures AdmissionOf(plan, evaluation, d, now, ttl, admissionId).expiresAt == d0.decidedAt + ttl
    ensures AdmissionOf(plan, evaluation, d, now, ttl, admissionId).decisionId == d0.decisionId
    ensures runId == plan.qualityRunId
    ensures binding.planId == Some(plan.planId) && binding.planFingerprint == Some(plan.fingerprint)
    ensures binding.evaluationId == Some(evaluation.evaluationId)
    ensures binding.evaluationFingerprint == evaluation.fingerprint
  {
    hide PlanJustified;
    hide NoConflicts;
    hide BuildReview;
    hide Trim;
    hide PlanIntact;
    hide ReportIntact;
    hide EvaluationIntact;
  }

  /** Every deadline of a run under the admission ends within one ttl of the recorded decision. */
  lemma MutationsStayInRecordedWindow(cat: Catalogs, plan: Plan, evaluation: Evaluation, d: Decision, report: Report,
                                      ttl: int, events: Events, now: int, admissionId: string, d0: Decision,
                                      approvers: set<string>, runId: string, predecessor: string, binding: Binding,
                                      snapshot: World, call: Call, clock: Clock)
    requires Admits(cat, plan, evaluation, d, report, ttl, events, now)
    requires evaluation.fingerprint.Some? && d.auditEventId.Some?
    requires RecordedAs(events, d.auditEventId.value, d0, approvers, runId, predecessor, binding)
    requires Carries(call, plan, evaluation, d, report, now, ttl, admissionId)
    requires AllExecutable(call.plan.items) && Body(cat, snapshot, call, clock).BodyReady?
    ensures
      var arms := Body(cat, snapshot, call, clock).work.arms;
      forall k | 0 <= k < |arms| ::
        arms[k].reading < arms[k].reading + 1000 * arms[k].timeoutMs <= d0.decidedAt + ttl
  {
    hide Admits;
    hide RecordedAs;
    hide Body;
    AdmittedAsRecorded(cat, plan, evaluation, d, report, ttl, events, now, admissionId, d0, approvers, runId,
                       predecessor, binding);
    MutationsStayInDecisionWindow(cat, snapshot, call, clock, plan, evaluation, d, report, now, ttl, admissionId);
  }

  /** A parsed decision carries the operator's time, the identity that answered and its note, stripped. */
  lemma ParsedFields(output: ApprovalOutput, approvers: set<string>, freshId: string)
    requires ParseOutput(output, approvers, freshId).Some?
    ensures
      var d := ParseOutput(output, approvers, freshId).value;
      && d.decisionId == freshId && d.decidedAt == output.respondedAt && d.auditEventId.None?
      && (output.timedOut ==> d.kind == Timeout && d.actor == "airflow-timeout" && d.note.None?)
      && (!output.timedOut ==>
            && output.chosen.Some?
            && d.kind == (if "Approve" in output.chosen.value then Approve else Reject)
            && d.actor in approvers && (output.responderId == Some(d.actor) || output.responderName == Some(d.actor))
            && (output.responderId.Some? && output.responderId.value in approvers ==>
                  output.responderId == Some(d.actor))
            && (d.note.Some? <==> output.note.Some?)
            && (d.note.Some? ==> d.note.value == Trim(output.note.value)))
  {
  }

  /** An answer is refused exactly when it names no option, comes from nobody allowed, or approves without a note. */
  lemma RefusedExactly(output: ApprovalOutput, approvers: set<string>, freshId: string)
    ensures ParseOutput(output, approvers, freshId).None? <==>
      !output.timedOut
      && (output.chosen.None?
          || ((output.responderId.Some? ==> output.responderId.value !in approvers)
              && (output.responderName.Some? ==> output.responderName.value !in approvers))
          || ("Approve" in output.chosen.value && (output.note.Some? ==> Trim(output.note.value) == "")))
  {
  }

  predicate AllSpace(s: string) {
    forall c | c in s :: Space(c)
  }

  lemma {:induction false} LeftMeans(s: string)
    ensures |TrimLeft(s)| <= |s| && s == s[..|s| - |TrimLeft(s)|] + TrimLeft(s) && AllSpace(s[..|s| - |TrimLeft(s)|])
  {
    if s != [] && Space(s[0]) {
      LeftMeans(s[1..]);
      assert s[..|s| - |TrimLeft(s)|] == [s[0]] + s[1..][..|s[1..]| - |TrimLeft(s[1..])|];
    }
  }

  lemma {:induction false} RightMeans(s: string)
    ensures TrimRight(s) <= s && AllSpace(s[|TrimRight(s)|..])
  {
    if s != [] && Space(s[|s| - 1]) {
      RightMeans(s[..|s| - 1]);
      assert s[|TrimRight(s)|..] == s[..|s| - 1][|TrimRight(s)|..] + [s[|s| - 1]];
    }
  }

  /** Stripping takes white space off both ends, all of it and nothing else. */
  lemma TrimMeans(s: string)
    ensures Trim(s) == [] || (!Space(Trim(s)[0]) && !Space(Trim(s)[|Trim(s)| - 1]))
    ensures exists before, after :: s == before + Trim(s) + after && AllSpace(before) && AllSpace(after)
  {
    var t := TrimLeft(s);
    LeftMeans(s);
    RightMeans(t);
    TrimLeftStops(s);
    TrimRightStops(t);
    hide Space;
    hide TrimLeft;
    hide TrimRight;
    hide AllSpace;
    var before, after := s[..|s| - |t|], t[|Trim(s)|..];
    assert t == Trim(s) + after;
    assert s == before + Trim(s) + after;
  }

  /** A decision can be recorded exactly when nobody skipped it, only a timeout speaks for the operator, anyone else is
      an approver, and an approval says why. What is stored is that decision, under a kind of its own, with the binding
      it was made on; what comes back is the decision with its event. */
  lemma RecordedMeans(d: Decision, approvers: set<string>, runId: string, predecessor: string, binding: Binding,
                      eventId: string)
    ensures RecordDecision(d, approvers, runId, predecessor, binding, eventId).Some? <==>
      && d.kind != ShadowSkip
      && (if d.kind == Timeout then d.actor == "airflow-timeout" else d.actor in approvers)
      && (d.kind == Approve ==> d.note.Some? && Trim(d.note.value) != "")
    ensures RecordDecision(d, approvers, runId, predecessor, binding, eventId).Some? ==>
      var (bound, event) := RecordDecision(d, approvers, runId, predecessor, binding, eventId).value;
      && SameDecision(bound, d) && bound.auditEventId == Some(eventId)
      && bound.fingerprint == Some(DecisionFingerprint(d))
      && bound.reviewFingerprint
         == (if binding.reviewFingerprint.Some? && binding.reviewFingerprint != Some(Raw(""))
             then binding.reviewFingerprint else d.reviewFingerprint)
      && event.eventId == eventId && event.qualityRunId == runId && event.predecessorIds == [predecessor]
      && (event.kind == HumanApproved <==> d.kind == Approve) && (event.kind == HumanTimedOut <==> d.kind == Timeout)
      && (event.kind == HumanRejected <==> d.kind == Reject)
      && event.planId == binding.planId && event.planFingerprint == binding.planFingerprint
      && event.evaluationId == binding.evaluationId && event.evaluationFingerprint == binding.evaluationFingerprint
      && event.reviewFingerprint == bound.reviewFingerprint
      && event.decisionId == Some(d.decisionId) && event.decisionActor == Some(d.actor)
      && event.decisionOutcome == Some(d.kind) && event.decisionFingerprint == bound.fingerprint
  {
  }

  // ---------- the review ----------

  /** The executable items of a plan. */
  function Executables(items: seq<PlanItem>): seq<PlanItem> {
    Filter(items, (i: PlanItem) => i.Executable?)
  }

  /** One item as it was shown: what would be done, where, on whose evidence and to how many rows. */
  predicate Shown(r: ReviewItem, i: PlanItem) {
    && i.Executable?
    && r.actionId == i.actionId && r.table == i.table
    && r.targetCount == i.targetSet.count && r.targetFingerprint == i.targetSet.fingerprint
    && |r.checkIds| == |i.evidence| && (forall k | 0 <= k < |i.evidence| :: r.checkIds[k] == i.evidence[k].checkId)
    && (r.mutates <==> r.actionId != NoOpAlert && r.actionId != SchemaDriftTicket)
    && (!r.reversible <==> r.actionId == NullFill)
  }

  lemma {:induction false} ReviewShows(items: seq<PlanItem>)
    requires forall i | i in items && i.Executable? :: Governed(i.actionId)
    ensures |ReviewItems(items)| == |Executables(items)|
    ensures forall k | 0 <= k < |Executables(items)| :: Shown(ReviewItems(items)[k], Executables(items)[k])
  {
    if items != [] {
      var n := |items| - 1;
      assert items == items[..n] + [items[n]];
      ReviewShows(items[..n]);
      FilterAppend(items[..n], [items[n]], (i: PlanItem) => i.Executable?);
    }
  }

  /** The review is of this plan and this evaluation, under this ttl. */
  predicate IsReviewOf(r: Review, plan: Plan, evaluation: Evaluation, ttl: int) {
    && r.planId == plan.planId && r.planFingerprint == plan.fingerprint
    && r.policyFingerprint == plan.policyFingerprint && r.qualityRunId == plan.qualityRunId
    && r.evaluationId == evaluation.evaluationId && Some(r.evaluationFingerprint) == evaluation.fingerprint
    && r.passed == evaluation.passed && r.scores == evaluation.scores && r.ttl == ttl
    && |r.items| == |Executables(plan.items)|
    && forall k | 0 <= k < |r.items| :: Shown(r.items[k], Executables(plan.items)[k])
  }

  /** A review is built exactly under a positive ttl, of an evaluation with a fingerprint and governed items. */
  lemma ReviewBuilt(plan: Plan, evaluation: Evaluation, ttl: int)
    ensures BuildReview(plan, evaluation, ttl).Some? <==>
      && ttl > 0 && evaluation.fingerprint.Some? && evaluation.fingerprint != Some(Raw(""))
      && forall i | i in plan.items && i.Executable? :: !i.actionId.Ungoverned?
  {
  }

  lemma BuiltReviewShows(plan: Plan, evaluation: Evaluation, ttl: int)
    requires BuildReview(plan, evaluation, ttl).Some?
    ensures ttl > 0
    ensures
      var fingerprint := BuildReview(plan, evaluation, ttl).value.fingerprint;
      fingerprint.ReviewDigest? && IsReviewOf(fingerprint.review, plan, evaluation, ttl)
  {
    ReviewShows(plan.items);
  }

  /** The approval that an admission names, and the review it follows, carry one review fingerprint, and what that
      fingerprint covers is exactly this plan's items, this evaluation and this ttl. */
  lemma AdmittedAsReviewed(cat: Catalogs, plan: Plan, evaluation: Evaluation, d: Decision, report: Report, ttl: int,
                           events: Events, now: int)
    requires Admits(cat, plan, evaluation, d, report, ttl, events, now)
    ensures ttl > 0 && d.auditEventId.Some? && d.auditEventId.value in events
    ensures exists c | c in d.auditEventId.value :: !Space(c)
    ensures
      var approval := events[d.auditEventId.value];
      && approval.kind == HumanApproved && approval.decisionOutcome == Some(Approve)
      && approval.qualityRunId == plan.qualityRunId
      && approval.decisionId == Some(d.decisionId) && approval.decisionActor == Some(d.actor)
      && approval.planId == Some(plan.planId) && approval.planFingerprint == Some(plan.fingerprint)
      && approval.reviewFingerprint.Some? && approval.reviewFingerprint.value.ReviewDigest?
      && IsReviewOf(approval.reviewFingerprint.value.review, plan, evaluation, ttl)
      && d.reviewFingerprint == approval.reviewFingerprint
      && approval.decisionFingerprint == Some(DecisionFingerprint(d))
      && (d.fingerprint.Some? && d.fingerprint != Some(Raw("")) ==> d.fingerprint == Some(DecisionFingerprint(d)))
      && approval.predecessorIds != [] && approval.predecessorIds[0] in events
      && var reviewed := events[approval.predecessorIds[0]];
         && reviewed.kind == ApprovalReview && reviewed.reviewFingerprint == approval.reviewFingerprint
         && reviewed.evaluationId == Some(evaluation.evaluationId)
         && reviewed.evaluationFingerprint == evaluation.fingerprint
         && (evaluation.auditEventId.Some? && evaluation.auditEventId.value != "" ==>
               reviewed.predecessorIds == [evaluation.auditEventId.value])
  {
    hide PlanJustified;
    hide NoConflicts;
    hide PlanIntact;
    hide ReportIntact;
    hide EvaluationIntact;
    BuiltReviewShows(plan, evaluation, ttl);
    hide BuildReview;
    hide IsReviewOf;
  }

  /** What was prepared and approved is what is admitted: if the approval was recorded with the full binding of a
      prepared plan, an admitted plan has that plan's identity and, up to the JSON dump, its items; the evaluation is
      the one prepared, and the ttl the one that was shown. */
  lemma AdmittedAsPrepared(cat: Catalogs, plan: Plan, evaluation: Evaluation, d: Decision, report: Report, ttl: int,
                           events: Events, now: int, p: Prepared, prepared: int, d0: Decision, approvers: set<string>,
                           runId: string, predecessor: string)
    requires Admits(cat, plan, evaluation, d, report, ttl, events, now)
    requires PlanIntact(p.plan) && EvaluationIntact(p.plan, p.evaluation)
    requires BuildReview(p.plan, p.evaluation, prepared) == Some(p.review)
    requires d.auditEventId.Some?
    requires RecordedAs(events, d.auditEventId.value, d0, approvers, runId, predecessor, FullBinding(p))
    ensures SameDecision(d, d0) && ttl == prepared
    ensures plan.planId == p.plan.planId && plan.qualityRunId == p.plan.qualityRunId
    ensures plan.fingerprint == p.plan.fingerprint && DumpItems(plan.items) == DumpItems(p.plan.items)
    ensures plan.environmentId == p.plan.environmentId && plan.policyFingerprint == p.plan.policyFingerprint
    ensures evaluation.evaluationId == p.evaluation.evaluationId && evaluation.fingerprint == p.evaluation.fingerprint
    ensures evaluation.passed == p.evaluation.passed && evaluation.scores == p.evaluation.scores
  {
    hide PlanJustified;
    hide NoConflicts;
    hide ReportIntact;
    IntactAlike(plan, evaluation, p);
    AdmittedAsRecorded(cat, plan, evaluation, d, report, ttl, events, now, "", d0, approvers, runId, predecessor,
                       FullBinding(p));
    AdmittedAsReviewed(cat, plan, evaluation, d, report, ttl, events, now);
    BuiltReviewShows(p.plan, p.evaluation, prepared);
    BoundReview(events[d.auditEventId.value], d0, approvers, runId, predecessor, p, prepared, d.auditEventId.value);
    hide Admits;
    hide BuildReview;
    hide RecordedAs;
    hide PlanIntact;
    hide EvaluationIntact;
  }

  lemma BoundReview(event: AuditEvent, d0: Decision, approvers: set<string>, runId: string, predecessor: string,
                    p: Prepared, prepared: int, eventId: string)
    requires BuildReview(p.plan, p.evaluation, prepared) == Some(p.review)
    requires RecordDecision(d0, approvers, runId, predecessor, FullBinding(p), eventId).Some?
    requires event == RecordDecision(d0, approvers, runId, predecessor, FullBinding(p), eventId).value.1
    ensures event.reviewFingerprint == Some(p.review.fingerprint)
  {
  }

  lemma IntactAlike(plan: Plan, evaluation: Evaluation, p: Prepared)
    requires PlanIntact(p.plan) && EvaluationIntact(p.plan, p.evaluation)
    ensures PlanIntact(plan) && plan.fingerprint == p.plan.fingerprint ==>
      && plan.planId == p.plan.planId && plan.qualityRunId == p.plan.qualityRunId
      && DumpItems(plan.items) == DumpItems(p.plan.items)
      && plan.environmentId == p.plan.environmentId && plan.policyFingerprint == p.plan.policyFingerprint
    ensures EvaluationIntact(plan, evaluation) && evaluation.fingerprint == p.evaluation.fingerprint ==>
      evaluation.passed == p.evaluation.passed && evaluation.scores == p.evaluation.scores
  {
  }
}
