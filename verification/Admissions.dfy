/** Review, human decision and whole-plan admission (planning/review.py, hitl.py, planning/admission.py). */
module Admissions {
  import opened Prelude
  import opened Contracts
  import opened Actions
  import opened CheckPolicies
  import opened Planning
  import opened Evaluations
  import opened Lineage

  // ---------- review ----------

  function ReviewItemOf(i: PlanItem): ReviewItem
    requires i.Executable?
  {
    ReviewItem(i.actionId, i.table, Map(i.evidence, (e: Evidence) => e.checkId), i.targetSet.count,
               i.targetSet.fingerprint, Mutates(i.actionId), Reversible(i.actionId))
  }

  function ReviewItems(items: seq<PlanItem>): seq<ReviewItem> {
    if items == [] then []
    else
      var last := items[|items| - 1];
      ReviewItems(items[..|items| - 1]) + (if last.Executable? then [ReviewItemOf(last)] else [])
  }

  /** `build_approval_review`, None where it raises. */
  function BuildReview(plan: Plan, evaluation: Evaluation, ttl: int): Option<Review> {
    if ttl <= 0 || NoDigest(evaluation.fingerprint)
       || exists i | i in plan.items :: i.Executable? && !Governed(i.actionId) then None
    else
      var draft := Review(plan.planId, plan.fingerprint, plan.policyFingerprint, plan.qualityRunId,
                          ReviewItems(plan.items), evaluation.evaluationId, evaluation.fingerprint.value,
                          evaluation.passed, evaluation.scores, ttl, Raw(""));
      Some(draft.(fingerprint := ReviewDigest(draft)))
  }

  // ---------- decision ----------

  /** The structured output of the approval operator; a field that is missing or malformed is None. */
  datatype ApprovalOutput = ApprovalOutput(
    timedOut: bool, chosen: Option<seq<string>>, responderId: Option<string>, responderName: Option<string>,
    note: Option<string>, respondedAt: int)

  function TrimLeft(s: string): string {
    if s != [] && Space(s[0]) then TrimLeft(s[1..]) else s
  }

  function TrimRight(s: string): string {
    if s != [] && Space(s[|s| - 1]) then TrimRight(s[..|s| - 1]) else s
  }

  function Trim(s: string): string {
    TrimRight(TrimLeft(s))
  }

  const TIMEOUT_ACTOR := "airflow-timeout"

  /** The allow-listed identity of the responder: the id before the name. */
  function Responder(output: ApprovalOutput, approvers: set<string>): Option<string> {
    if output.responderId.Some? && output.responderId.value in approvers then output.responderId
    else if output.responderName.Some? && output.responderName.value in approvers then output.responderName
    else None
  }

  function TrimmedNote(output: ApprovalOutput): Option<string> {
    if output.note.Some? then Some(Trim(output.note.value)) else None
  }

  /** `parse_approval_output`, None where it refuses. */
  function ParseOutput(output: ApprovalOutput, approvers: set<string>, freshId: string): Option<Decision> {
    if output.timedOut then
      Some(Decision(freshId, None, None, None, output.respondedAt, Timeout, TIMEOUT_ACTOR, None))
    else if output.chosen.None? || Responder(output, approvers).None? then None
    else if "Approve" in output.chosen.value && NoText(TrimmedNote(output)) then None
    else
      Some(Decision(freshId, None, None, None, output.respondedAt,
                    if "Approve" in output.chosen.value then Approve else Reject,
                    Responder(output, approvers).value, TrimmedNote(output)))
  }

  /** `validate_human_decision` accepts. */
  predicate DecisionValid(d: Decision, approvers: set<string>) {
    match d.kind
    case ShadowSkip => false
    case Timeout => d.actor == TIMEOUT_ACTOR
    case Reject => d.actor in approvers
    case Approve => d.actor in approvers && d.note.Some? && Trim(d.note.value) != ""
  }

  lemma {:induction false} TrimRightStops(s: string)
    ensures TrimRight(s) == [] || !Space(TrimRight(s)[|TrimRight(s)| - 1])
    ensures TrimRight(s) <= s
  {
    if s != [] && Space(s[|s| - 1]) {
      TrimRightStops(s[..|s| - 1]);
    }
  }

  lemma {:induction false} TrimLeftStops(s: string)
    ensures TrimLeft(s) == [] || !Space(TrimLeft(s)[0])
  {
    if s != [] && Space(s[0]) {
      TrimLeftStops(s[1..]);
    }
  }

  lemma TrimTwice(s: string)
    ensures Trim(Trim(s)) == Trim(s)
  {
    TrimLeftStops(s);
    TrimRightStops(TrimLeft(s));
    var t := Trim(s);
    assert t != [] ==> t[0] == TrimLeft(s)[0];
  }

  /** Parsing fails closed: whatever it accepts also passes validation, an approval always carries an
      allow-listed identity and a note, and a timeout is never an approval. */
  lemma ParsedDecisionsAreValid(output: ApprovalOutput, approvers: set<string>, freshId: string)
    requires ParseOutput(output, approvers, freshId).Some?
    ensures DecisionValid(ParseOutput(output, approvers, freshId).value, approvers)
    ensures ParseOutput(output, approvers, freshId).value.kind == Approve
       <==> !output.timedOut && output.chosen.Some? && "Approve" in output.chosen.value
  {
    if output.note.Some? {
      TrimTwice(output.note.value);
    }
  }

  /** `record_human_decision` without its write: the bound decision and the event to persist. */
  function RecordDecision(decision: Decision, approvers: set<string>, runId: string, predecessor: string,
                          binding: Binding, eventId: string): Option<(Decision, AuditEvent)>
  {
    if !DecisionValid(decision, approvers) then None
    else
      var stamped := decision.(fingerprint := Some(DecisionFingerprint(decision)));
      var bound := if NoDigest(binding.reviewFingerprint) then stamped
                   else stamped.(reviewFingerprint := binding.reviewFingerprint);
      var event := DecisionEvent(runId, bound, predecessor, binding, eventId);
      Some((bound.(auditEventId := Some(eventId), fingerprint := event.decisionFingerprint), event))
  }

  // ---------- conflicts ----------

  function CheckIdsOf(items: seq<PlanItem>): seq<string> {
    if items == [] then []
    else
      var last := items[|items| - 1];
      CheckIdsOf(items[..|items| - 1])
        + (if last.Executable? then Map(last.evidence, (e: Evidence) => e.checkId) else [])
  }

  function MutatingTables(items: seq<PlanItem>): seq<string> {
    if items == [] then []
    else
      var last := items[|items| - 1];
      MutatingTables(items[..|items| - 1])
        + (if last.Executable? && Mutates(last.actionId) then [last.table] else [])
  }

  /** No failed check is cited twice and no table spelling is mutated twice. */
  predicate NoConflicts(items: seq<PlanItem>) {
    Distinct(CheckIdsOf(items)) && Distinct(MutatingTables(items))
  }

  /** No contracted table is mutated twice, however the items spell it: tables are looked up by their last
      segment. `NoConflicts` compares the spellings. */
  predicate OneStepPerTable(items: seq<PlanItem>) {
    Distinct(Map(MutatingTables(items), (t: string) => LastSegment(t)))
  }

  datatype ConflictKey = ConflictKey(actionId: ActionId, table: string, checkIds: multiset<string>)

  function ConflictKeyOf(i: PlanItem): ConflictKey
    requires i.Executable?
  {
    ConflictKey(i.actionId, i.table, multiset(Map(i.evidence, (e: Evidence) => e.checkId)))
  }

  /** Every executable item cites something, as the plan model enforces. */
  predicate PlanParsed(items: seq<PlanItem>) {
    forall i | i in items :: i.evidence != []
  }

  lemma DistinctGrows<T>(s: seq<T>, x: T)
    ensures Distinct(s + [x]) <==> Distinct(s) && x !in s
  {
    var t := s + [x];
    if Distinct(t) {
      forall i, j | 0 <= i < j < |s| ensures s[i] != s[j] {
        assert t[i] != t[j];
      }
      forall i | 0 <= i < |s| ensures s[i] != x {
        assert t[i] != t[|s|];
      }
    }
  }

  lemma {:induction false} DistinctPrefix<T>(a: seq<T>, b: seq<T>)
    requires Distinct(a + b)
    ensures Distinct(a)
  {
    forall i, j | 0 <= i < j < |a| ensures a[i] != a[j] {
      assert (a + b)[i] != (a + b)[j];
    }
  }

  lemma {:induction false} CheckIdsPrefix(items: seq<PlanItem>, n: nat)
    requires n <= |items|
    ensures CheckIdsOf(items[..n]) <= CheckIdsOf(items)
    ensures MutatingTables(items[..n]) <= MutatingTables(items)
    decreases |items|
  {
    if n < |items| {
      CheckIdsPrefix(items[..|items| - 1], n);
      assert items[..|items| - 1][..n] == items[..n];
    } else {
      assert items[..n] == items;
    }
  }

  lemma ConflictInPrefix(items: seq<PlanItem>, n: nat)
    requires n <= |items| && !NoConflicts(items[..n])
    ensures !NoConflicts(items)
  {
    CheckIdsPrefix(items, n);
  }

  /** The inner loop over one item's evidence: refuse a check that was cited before. */
  method CiteAll(ids: seq<string>, cited: set<string>, ghost before: seq<string>) returns (ok: bool, after: set<string>)
    requires cited == Elements(before) && Distinct(before)
    ensures ok <==> Distinct(before + ids)
    ensures ok ==> after == Elements(before + ids)
  {
    after := cited;
    var k := 0;
    assert before + ids[..0] == before;
    while k < |ids|
      invariant 0 <= k <= |ids|
      invariant Distinct(before + ids[..k])
      invariant after == Elements(before + ids[..k])
    {
      DistinctGrows(before + ids[..k], ids[k]);
      assert before + ids[..k + 1] == before + ids[..k] + [ids[k]];
      if ids[k] in after {
        if Distinct(before + ids) {
          assert before + ids == (before + ids[..k + 1]) + ids[k + 1..];
          DistinctPrefix(before + ids[..k + 1], ids[k + 1..]);
        }
        return false, after;
      }
      after := after + {ids[k]};
      k := k + 1;
    }
    assert ids[..k] == ids;
    ok := true;
  }

  /** What one more executable item adds to the citations and the mutated tables. */
  lemma OneMoreItem(items: seq<PlanItem>, i: nat)
    requires i < |items|
    ensures items[i].Executable? ==>
      CheckIdsOf(items[..i + 1]) == CheckIdsOf(items[..i]) + Map(items[i].evidence, (e: Evidence) => e.checkId)
    ensures !items[i].Executable? ==> CheckIdsOf(items[..i + 1]) == CheckIdsOf(items[..i])
    ensures items[i].Executable? && Mutates(items[i].actionId) ==>
      MutatingTables(items[..i + 1]) == MutatingTables(items[..i]) + [items[i].table]
    ensures !(items[i].Executable? && Mutates(items[i].actionId)) ==>
      MutatingTables(items[..i + 1]) == MutatingTables(items[..i])
  {
    assert items[..i + 1][..i] == items[..i];
  }

  /** `_refuse_conflicting_plan_items`: three growing sets, refusing at the first repetition. */
  method RefuseConflicting(items: seq<PlanItem>) returns (ok: bool)
    requires PlanParsed(items)
    ensures ok <==> NoConflicts(items)
  {
    hide CheckIdsOf;
    hide MutatingTables;
    hide Distinct;
    var seen: set<ConflictKey> := {};
    var cited: set<string> := {};
    var mutating: set<string> := {};
    var i := 0;
    NothingCited();
    assert items[..0] == [];
    while i < |items|
      invariant 0 <= i <= |items|
      invariant NoConflicts(items[..i])
      invariant cited == Elements(CheckIdsOf(items[..i]))
      invariant mutating == Elements(MutatingTables(items[..i]))
      invariant forall k | k in seen :: k.checkIds != multiset{} && forall id | id in k.checkIds :: id in cited
    {
      var item := items[i];
      OneMoreItem(items, i);
      if item.Executable? {
        var ids := Map(item.evidence, (e: Evidence) => e.checkId);
        assert ids[0] in multiset(ids);
        if ConflictKeyOf(item) in seen {
          Repeats(CheckIdsOf(items[..i]), ids);
          ConflictInPrefix(items, i + 1);
          return false;
        }
        seen := seen + {ConflictKeyOf(item)};
        var unseen, after := CiteAll(ids, cited, CheckIdsOf(items[..i]));
        if !unseen {
          ConflictInPrefix(items, i + 1);
          return false;
        }
        cited := after;
        if Mutates(item.actionId) {
          DistinctGrows(MutatingTables(items[..i]), item.table);
          if item.table in mutating {
            ConflictInPrefix(items, i + 1);
            return false;
          }
          mutating := mutating + {item.table};
        }
      }
      i := i + 1;
    }
    assert items[..i] == items;
    ok := true;
  }

  lemma NothingCited()
    ensures CheckIdsOf([]) == [] && MutatingTables([]) == [] && NoConflicts([])
  {
  }

  lemma Repeats(before: seq<string>, ids: seq<string>)
    requires ids != [] && ids[0] in before
    ensures !Distinct(before + ids)
  {
    var i :| 0 <= i < |before| && before[i] == ids[0];
    assert (before + ids)[i] == (before + ids)[|before|];
  }

  // ---------- admission ----------

  predicate EvaluationIntact(plan: Plan, e: Evaluation) {
    && !NoDigest(e.fingerprint)
    && e.fingerprint == Some(EvaluationFingerprint(e))
    && e.planId == Some(plan.planId) && e.planFingerprint == Some(plan.fingerprint)
  }

  /** `verify_decision_integrity`. */
  predicate DecisionIntact(d: Decision, eventFingerprint: Option<Digest>) {
    && eventFingerprint == Some(DecisionFingerprint(d))
    && (NoDigest(d.fingerprint) || d.fingerprint == Some(DecisionFingerprint(d)))
  }

  /** `_verify_durable_approval`: the decision resolves to an approval event that binds this plan, this
      evaluation and the review recomputed under this ttl, whose predecessor is that review's event. */
  predicate ApprovalDurable(plan: Plan, evaluation: Evaluation, d: Decision, ttl: int, events: Events) {
    && d.auditEventId.Some? && !Whitespace(d.auditEventId.value)
    && d.auditEventId.value in events
    && var event := events[d.auditEventId.value];
       && event.eventId == d.auditEventId.value
       && event.kind == HumanApproved && event.decisionOutcome == Some(Approve)
       && event.decisionId == Some(d.decisionId)
       && event.qualityRunId == plan.qualityRunId
       && event.planId == Some(plan.planId) && event.planFingerprint == Some(plan.fingerprint)
       && event.decisionActor == Some(d.actor)
       && DecisionIntact(d, event.decisionFingerprint)
       && event.evaluationId == Some(evaluation.evaluationId)
       && event.evaluationFingerprint == evaluation.fingerprint
       && BuildReview(plan, evaluation, ttl).Some?
       && var reviewed := Some(BuildReview(plan, evaluation, ttl).value.fingerprint);
          && d.reviewFingerprint == reviewed && event.reviewFingerprint == reviewed
          && event.predecessorIds != [] && event.predecessorIds[0] in events
          && var predecessor := events[event.predecessorIds[0]];
             && predecessor.kind == ApprovalReview
             && predecessor.reviewFingerprint == reviewed
             && predecessor.evaluationId == Some(evaluation.evaluationId)
             && predecessor.evaluationFingerprint == evaluation.fingerprint
             && (NoText(evaluation.auditEventId)
                 || predecessor.predecessorIds == [evaluation.auditEventId.value])
  }

  lemma DurableNamesEvent(plan: Plan, evaluation: Evaluation, d: Decision, ttl: int, events: Events)
    requires ApprovalDurable(plan, evaluation, d, ttl, events)
    ensures d.auditEventId.Some? && d.auditEventId.value in events
    ensures events[d.auditEventId.value].eventId == d.auditEventId.value
    ensures events[d.auditEventId.value].qualityRunId == plan.qualityRunId
    ensures events[d.auditEventId.value].kind == HumanApproved
  {
  }

  /** The guards that do not depend on the clock. */
  ghost predicate Authorized(cat: Catalogs, plan: Plan, evaluation: Evaluation, d: Decision, report: Report,
                             ttl: int, events: Events) {
    && ReportIntact(report)
    && PlanIntact(plan)
    && !plan.blocked
    && PlanJustified(cat, plan, report)
    && evaluation.passed
    && EvaluationIntact(plan, evaluation)
    && d.kind == Approve
    && ApprovalDurable(plan, evaluation, d, ttl, events)
  }

  /** The mutation window that opens at the decision. */
  predicate InWindow(d: Decision, now: int, ttl: int) {
    d.decidedAt <= now < d.decidedAt + ttl
  }

  /** `admission_payload_fingerprint`: every field but the fingerprint itself. */
  function AdmissionFingerprint(a: Admission): Digest {
    AdmissionDigest(a.(fingerprint := Raw("")))
  }

  function AdmissionOf(plan: Plan, evaluation: Evaluation, d: Decision, now: int, ttl: int,
                       admissionId: string): Admission
    requires evaluation.fingerprint.Some? && d.auditEventId.Some?
  {
    var draft := Admission(admissionId, plan.qualityRunId, plan.planId, plan.fingerprint, evaluation.evaluationId,
                           evaluation.fingerprint.value, d.decisionId, d.auditEventId.value,
                           plan.policyFingerprint, plan.environmentId, now, d.decidedAt + ttl, Raw(""));
    draft.(fingerprint := AdmissionFingerprint(draft))
  }

  /** `create_apply_admission`, None where it refuses. */
  method CreateApplyAdmission(cat: Catalogs, plan: Plan, evaluation: Evaluation, d: Decision, report: Report,
                              now: int, ttl: int, repository: AuditRepository, admissionId: string)
    returns (r: Option<Admission>)
    requires PlanParsed(plan.items)
    ensures r.Some? <==>
      Authorized(cat, plan, evaluation, d, report, ttl, repository.events)
      && InWindow(d, now, ttl) && NoConflicts(plan.items)
    ensures r.Some? ==> d.auditEventId.Some? && evaluation.fingerprint.Some?
    ensures r.Some? ==> r.value == AdmissionOf(plan, evaluation, d, now, ttl, admissionId)
    ensures r.Some? ==>
      var a := r.value;
      && a.admissionId == admissionId && a.issuedAt == now && a.expiresAt == d.decidedAt + ttl
      && a.qualityRunId == plan.qualityRunId && a.planId == plan.planId && a.planFingerprint == plan.fingerprint
      && a.policyFingerprint == plan.policyFingerprint && a.environmentId == plan.environmentId
      && a.evaluationId == evaluation.evaluationId && Some(a.evaluationFingerprint) == evaluation.fingerprint
      && a.decisionId == d.decisionId && Some(a.decisionEventId) == d.auditEventId
  {
    hide ApprovalDurable;
    hide PlanJustified;
    if !ReportIntact(report) || !PlanIntact(plan) || plan.blocked {
      return None;
    }
    var justified := VerifyExecutableParams(cat, plan, report);
    if !justified || !evaluation.passed || !EvaluationIntact(plan, evaluation) || d.kind != Approve {
      return None;
    }
    if !ApprovalDurable(plan, evaluation, d, ttl, repository.events) {
      return None;
    }
    if d.decidedAt > now || d.decidedAt + ttl <= now {
      return None;
    }
    var compatible := RefuseConflicting(plan.items);
    if !compatible {
      return None;
    }
    DurableNamesEvent(plan, evaluation, d, ttl, repository.events);
    r := Some(AdmissionOf(plan, evaluation, d, now, ttl, admissionId));
  }
}
