/** What the artifacts of a run bind, and what its later seams refuse, said of the artifacts themselves
    (contracts/fingerprints.py, evals/harness.py, planning/admission.py, apply/executor.py). */
module Refusals {
  import opened Prelude
  import opened Contracts
  import opened Actions
  import opened CheckPolicies
  import opened Planning
  import opened Evaluations
  import opened Lineage
  import opened Admissions
  import opened Journeys
  import opened Transactions
  import opened Approvals

  // ---------- what a fingerprint covers ----------

  /** The same run with the same outcome of every check. */
  predicate SameOutcomes(a: Report, b: Report) {
    && a.runId == b.runId && |a.checks| == |b.checks|
    && forall i | 0 <= i < |a.checks| ::
         var x, y := a.checks[i], b.checks[i];
         && x.checkId == y.checkId && x.contractId == y.contractId && x.status == y.status
         && x.nFailed == y.nFailed && x.nTotal == y.nTotal
  }

  /** A report's fingerprint covers its run and every outcome, and no table name. */
  lemma ReportFingerprintCovers(a: Report, b: Report)
    ensures ReportFingerprint(a) == ReportFingerprint(b) <==> SameOutcomes(a, b)
  {
    var x, y := Map(a.checks, (c: CheckResult) => Summary(c)), Map(b.checks, (c: CheckResult) => Summary(c));
    if x == y {
      forall i | 0 <= i < |a.checks| ensures Summary(a.checks[i]) == Summary(b.checks[i]) {
        assert x[i] == y[i];
      }
    }
  }

  /** The same plan, its items up to the JSON dump. */
  predicate SamePlan(a: Plan, b: Plan) {
    && a.planId == b.planId && a.qualityRunId == b.qualityRunId && a.environmentId == b.environmentId
    && a.candidateFingerprint == b.candidateFingerprint && a.policyFingerprint == b.policyFingerprint
    && |a.items| == |b.items| && forall i | 0 <= i < |a.items| :: DumpItem(a.items[i]) == DumpItem(b.items[i])
  }

  lemma PlanFingerprintCovers(a: Plan, b: Plan)
    ensures PlanFingerprint(a) == PlanFingerprint(b) <==> SamePlan(a, b)
  {
    var x, y := DumpItems(a.items), DumpItems(b.items);
    if x == y {
      forall i | 0 <= i < |a.items| ensures DumpItem(a.items[i]) == DumpItem(b.items[i]) {
        assert x[i] == y[i];
      }
    }
  }

  /** The same verdict on the same plan, whatever event or fingerprint it was given. */
  predicate SameVerdict(a: Evaluation, b: Evaluation) {
    && a.evaluationId == b.evaluationId && a.planId == b.planId && a.planFingerprint == b.planFingerprint
    && a.passed == b.passed && a.scores == b.scores && a.blockedReasons == b.blockedReasons
  }

  lemma SmallFingerprintsCover(a: Evaluation, b: Evaluation, c: Decision, d: Decision, e: Admission, f: Admission)
    ensures EvaluationFingerprint(a) == EvaluationFingerprint(b) <==> SameVerdict(a, b)
    ensures DecisionFingerprint(c) == DecisionFingerprint(d) <==> SameDecision(c, d)
    ensures AdmissionFingerprint(e) == AdmissionFingerprint(f) <==> e == f.(fingerprint := e.fingerprint)
  {
  }

  /** Step by step the same action on the same table with the same counts. */
  predicate SameSteps(a: seq<AppliedStep>, b: seq<AppliedStep>) {
    && |a| == |b|
    && forall k | 0 <= k < |a| ::
         && a[k].rendered.actionId == b[k].rendered.actionId && a[k].rendered.table == b[k].rendered.table
         && a[k].estimated == b[k].estimated && a[k].rowcount == b[k].rowcount
  }

  /** A result's fingerprint covers its run, plan, admission and every step's evidence. */
  lemma ResultFingerprintCovers(p: Plan, a: Admission, run: string, s: seq<AppliedStep>,
                                q: Plan, b: Admission, other: string, t: seq<AppliedStep>)
    ensures ResultFingerprint(p, a, run, s) == ResultFingerprint(q, b, other, t) <==>
      && p.qualityRunId == q.qualityRunId && p.fingerprint == q.fingerprint && a.fingerprint == b.fingerprint
      && run == other && SameSteps(s, t)
  {
    var x, y := EvidenceOfAll(s), EvidenceOfAll(t);
    if x == y {
      forall k | 0 <= k < |s| ensures EvidenceOf(s[k]) == EvidenceOf(t[k]) {
        assert x[k] == y[k];
      }
    }
  }

  // ---------- the policy snapshot ----------

  /** The cited checks and their contracts are known. */
  predicate Known(cat: Catalogs, item: PlanItem)
    requires item.Executable?
  {
    Governed(item.actionId)
    && forall e | e in item.evidence :: e.checkId in cat.checks && GetTable(cat, cat.checks[e.checkId].table).Some?
  }

  /** Every cited check, up to the dump of its policies, and its contract are the same. */
  predicate SamePolicies(a: Catalogs, b: Catalogs, item: PlanItem)
    requires item.Executable? && Known(a, item) && Known(b, item)
  {
    forall e | e in item.evidence ::
      && DumpSpec(a.checks[e.checkId]) == DumpSpec(b.checks[e.checkId])
      && GetTable(a, a.checks[e.checkId].table) == GetTable(b, b.checks[e.checkId].table)
  }

  /** An item's snapshot covers every check it cites with its contract, not the first alone. */
  lemma SnapshotCovers(a: Catalogs, b: Catalogs, item: PlanItem)
    requires item.Executable?
    ensures CurrentItemPolicy(a, item).Some? <==> Known(a, item)
    ensures Known(a, item) && Known(b, item) ==>
      (CurrentItemPolicy(a, item) == CurrentItemPolicy(b, item) <==> SamePolicies(a, b, item))
  {
    SnapshotKnown(a, item);
    SnapshotKnown(b, item);
    if Known(a, item) && Known(b, item) {
      if CurrentItemPolicy(a, item) == CurrentItemPolicy(b, item) {
        EqualSnapshots(a, b, item);
      }
      if SamePolicies(a, b, item) {
        EqualPolicies(a, b, item);
      }
    }
    hide CurrentItemPolicy;
    hide SamePolicies;
    hide Known;
  }

  lemma EqualSnapshots(a: Catalogs, b: Catalogs, item: PlanItem)
    requires item.Executable? && Known(a, item) && Known(b, item)
    requires CurrentItemPolicy(a, item) == CurrentItemPolicy(b, item)
    ensures SamePolicies(a, b, item)
  {
    SnapshotKnown(a, item);
    SnapshotKnown(b, item);
    hide CurrentItemPolicy;
    hide DumpSpec;
    hide GetTable;
    var p := CurrentItemPolicy(a, item).value;
    forall e | e in item.evidence
      ensures DumpSpec(a.checks[e.checkId]) == DumpSpec(b.checks[e.checkId])
      ensures GetTable(a, a.checks[e.checkId].table) == GetTable(b, b.checks[e.checkId].table)
    {
      var i: nat :| i < |item.evidence| && item.evidence[i] == e;
      assert p.specs[i] == DumpSpec(a.checks[e.checkId]);
    }
  }

  lemma EqualPolicies(a: Catalogs, b: Catalogs, item: PlanItem)
    requires item.Executable? && Known(a, item) && Known(b, item) && SamePolicies(a, b, item)
    ensures CurrentItemPolicy(a, item) == CurrentItemPolicy(b, item)
  {
    SnapshotKnown(a, item);
    SnapshotKnown(b, item);
    hide CurrentItemPolicy;
    hide DumpSpec;
    hide GetTable;
    var p, q := CurrentItemPolicy(a, item).value, CurrentItemPolicy(b, item).value;
    forall i | 0 <= i < |item.evidence| ensures p.specs[i] == q.specs[i] && p.contracts[i] == q.contracts[i] {
      assert item.evidence[i] in item.evidence;
    }
    assert p.specs == q.specs && p.contracts == q.contracts;
  }

  lemma SnapshotKnown(cat: Catalogs, item: PlanItem)
    requires item.Executable?
    ensures CurrentItemPolicy(cat, item).Some? <==> Known(cat, item)
    ensures Known(cat, item) ==>
      var p := CurrentItemPolicy(cat, item).value;
      && p.ItemPolicyDigest? && p.action == item.actionId
      && |p.specs| == |item.evidence| == |p.contracts|
      && forall i | 0 <= i < |item.evidence| ::
           && item.evidence[i] in item.evidence
           && p.specs[i] == DumpSpec(cat.checks[item.evidence[i].checkId])
           && Some(p.contracts[i]) == GetTable(cat, cat.checks[item.evidence[i].checkId].table)
  {
    hide DumpSpec;
    var evidence := item.evidence;
    if SpecsOf(cat, evidence).Some? {
      var specs := SpecsOf(cat, evidence).value;
      forall i | 0 <= i < |evidence|
        ensures evidence[i] in evidence && specs[i] in specs && specs[i] == cat.checks[evidence[i].checkId]
      {
      }
      if s :| s in specs && GetTable(cat, s.table).None? {
        var i :| 0 <= i < |specs| && specs[i] == s;
        assert evidence[i] in evidence;
      }
      if e :| e in evidence && GetTable(cat, cat.checks[e.checkId].table).None? {
        var i :| 0 <= i < |evidence| && evidence[i] == e;
        assert specs[i] in specs;
      }
    }
  }

  // ---------- plan evaluation ----------

  /** The three scores of a plan fail for these reasons. */
  predicate FailsScore(cat: Catalogs, plan: Plan, name: ScoreName)
    requires CurrentPolicy(cat, plan).Some?
  {
    || (name == PlanCompilation && (plan.blocked || exists i | i in plan.items :: i.NonExecutable?))
    || (name == PolicySnapshot && CurrentPolicy(cat, plan).value != plan.policyFingerprint)
    || (name == TargetSetIntegrity
        && exists i | i in plan.items :: i.Executable? && i.targetSet.fingerprint == Raw(""))
  }

  /** Evaluation refuses a plan its fingerprint does not cover, and passes exactly the plans without a failing score;
      what it returns names the plan and the scores that failed. */
  lemma EvaluationMeans(cat: Catalogs, plan: Plan, evaluationId: string)
    ensures EvaluatePlan(cat, plan, evaluationId).Some? <==>
      plan.fingerprint == PlanFingerprint(plan) && CurrentPolicy(cat, plan).Some?
    ensures EvaluatePlan(cat, plan, evaluationId).Some? ==>
      var e := EvaluatePlan(cat, plan, evaluationId).value;
      && e.evaluationId == evaluationId && e.planId == Some(plan.planId) && e.planFingerprint == Some(plan.fingerprint)
      && (e.passed <==> forall name :: !FailsScore(cat, plan, name))
      && (forall name :: name in e.blockedReasons <==> FailsScore(cat, plan, name))
      && (forall s | s in e.scores :: s.passed <==> !FailsScore(cat, plan, s.name))
      && Map(e.scores, (s: Score) => s.name) == [PlanCompilation, PolicySnapshot, TargetSetIntegrity]
  {
    hide CurrentPolicy;
    if EvaluatePlan(cat, plan, evaluationId).Some? {
      var e := EvaluatePlan(cat, plan, evaluationId).value;
      ScoresFail(cat, plan);
      FailedAre(e.scores);
      hide PlanScores;
      hide FailsScore;
      hide FailedScores;
      hide PlanIntact;
      assert e.blockedReasons != [] ==> e.blockedReasons[0] in e.blockedReasons;
    }
  }

  lemma ScoresFail(cat: Catalogs, plan: Plan)
    requires CurrentPolicy(cat, plan).Some?
    ensures forall name :: Score(name, false) in PlanScores(cat, plan) <==> FailsScore(cat, plan, name)
    ensures forall s | s in PlanScores(cat, plan) :: s.passed <==> !FailsScore(cat, plan, s.name)
    ensures Map(PlanScores(cat, plan), (s: Score) => s.name) == [PlanCompilation, PolicySnapshot, TargetSetIntegrity]
  {
    hide CurrentPolicy;
    var scores := PlanScores(cat, plan);
    assert scores[0] in scores && scores[1] in scores && scores[2] in scores;
    assert forall k | 0 <= k < 3 :: scores[k].passed <==> !FailsScore(cat, plan, scores[k].name);
    assert Score(PlanCompilation, false) in scores <==> FailsScore(cat, plan, PlanCompilation);
    assert Score(PolicySnapshot, false) in scores <==> FailsScore(cat, plan, PolicySnapshot);
    assert Score(TargetSetIntegrity, false) in scores <==> FailsScore(cat, plan, TargetSetIntegrity);
  }

  lemma {:induction false} FailedAre(scores: seq<Score>)
    ensures forall name :: name in FailedScores(scores) <==> Score(name, false) in scores
  {
    if scores != [] {
      var n := |scores| - 1;
      FailedAre(scores[..n]);
      assert scores == scores[..n] + [scores[n]];
    }
  }

  // ---------- admission ----------

  /** The item does what a failed check of this report asks for: each piece of its evidence is a failure on the
      item's own table, under a declared check of the same table and contract that declares the action. */
  predicate AnswersFailures(cat: Catalogs, report: Report, item: PlanItem)
    requires item.Executable?
  {
    && item.evidence != []
    && forall e | e in item.evidence ::
         && e.checkId in cat.checks
         && var spec := cat.checks[e.checkId];
            && spec.table == item.table && spec.contractId == e.contractId
            && (exists p :: p in spec.policies && p.actionId == item.actionId)
            && exists r | r in report.checks ::
                 r.status == Fail && r.checkId == e.checkId && r.contractId == e.contractId && r.table == item.table
  }

  /** What admission and entry both demand of plan, evaluation and report. */
  predicate Consistent(cat: Catalogs, plan: Plan, evaluation: Evaluation, report: Report) {
    && report.fingerprint == Some(ReportFingerprint(report)) && report.runId == plan.qualityRunId
    && plan.fingerprint == PlanFingerprint(plan) && !plan.blocked
    && evaluation.fingerprint == Some(EvaluationFingerprint(evaluation)) && evaluation.passed
    && evaluation.planId == Some(plan.planId) && evaluation.planFingerprint == Some(plan.fingerprint)
    && (forall i | i in plan.items && i.Executable? :: AnswersFailures(cat, report, i))
    && (forall i, j | 0 <= i < j < |plan.items| && plan.items[i].Executable? && plan.items[j].Executable? ::
          !(plan.items[i].actionId == plan.items[j].actionId
            && multiset(plan.items[i].evidence) == multiset(plan.items[j].evidence)))
    && (forall r | r in report.checks && r.status == Fail ::
          exists i, e | i in plan.items && i.Executable? && e in i.evidence :: e.checkId == r.checkId)
  }

  lemma {:induction false} FailuresAre(failed: seq<CheckResult>)
    ensures forall r | r in failed :: r.checkId in ById(failed)
  {
    if failed != [] {
      var n := |failed| - 1;
      FailuresAre(failed[..n]);
      assert failed == failed[..n] + [failed[n]];
    }
  }

  /** Of the failed results of one check the last one counts. */
  lemma {:induction false} LastFailureCounts(failed: seq<CheckResult>, id: string)
    ensures id in ById(failed) <==> exists r :: r in failed && r.checkId == id
    ensures id in ById(failed) ==>
      exists k: nat :: k < |failed| && failed[k] == ById(failed)[id] && failed[k].checkId == id
        && forall j | k < j < |failed| :: failed[j].checkId != id
  {
    if failed != [] {
      var n := |failed| - 1;
      LastFailureCounts(failed[..n], id);
      assert failed == failed[..n] + [failed[n]];
      if failed[n].checkId == id {
        assert failed[n] == ById(failed)[id];
      } else if id in ById(failed) {
        var k: nat :| k < n && failed[..n][k] == ById(failed[..n])[id] && failed[..n][k].checkId == id
          && forall j | k < j < n :: failed[..n][j].checkId != id;
        assert failed[k] == ById(failed)[id];
      }
    }
  }

  lemma JustifiedMeans(cat: Catalogs, plan: Plan, report: Report, i: PlanItem)
    requires PlanJustified(cat, plan, report) && i in plan.items && i.Executable?
    ensures AnswersFailures(cat, report, i)
  {
    var failures := FailuresOf(report);
    IdsAreKeys(FailedChecks(report));
    assert ItemJustified(cat, i, failures);
    forall e | e in i.evidence
      ensures exists p :: p in cat.checks[e.checkId].policies && p.actionId == i.actionId
      ensures exists r | r in report.checks ::
        r.status == Fail && r.checkId == e.checkId && r.contractId == e.contractId && r.table == i.table
    {
      RuleDeclared(cat.checks[e.checkId].policies, i.actionId);
      assert failures[e.checkId] in report.checks;
    }
    hide DeriveParams;
  }

  lemma JustifiedCovers(cat: Catalogs, plan: Plan, report: Report)
    requires PlanJustified(cat, plan, report) && !plan.blocked
    ensures forall r | r in report.checks && r.status == Fail ::
      exists i, e | i in plan.items && i.Executable? && e in i.evidence :: e.checkId == r.checkId
  {
    hide ItemJustified;
    FailuresAre(FailedChecks(report));
    forall r | r in report.checks && r.status == Fail
      ensures exists i, e | i in plan.items && i.Executable? && e in i.evidence :: e.checkId == r.checkId
    {
      assert r in FailedChecks(report);
      assert r.checkId in Cited(plan.items);
    }
  }

  lemma JustifiedApart(cat: Catalogs, plan: Plan, report: Report)
    requires PlanJustified(cat, plan, report)
    ensures report.runId == plan.qualityRunId
    ensures forall i, j | 0 <= i < j < |plan.items| && plan.items[i].Executable? && plan.items[j].Executable? ::
      !(plan.items[i].actionId == plan.items[j].actionId
        && multiset(plan.items[i].evidence) == multiset(plan.items[j].evidence))
  {
    hide ItemJustified;
    forall i, j | 0 <= i < j < |plan.items| && plan.items[i].Executable? && plan.items[j].Executable?
      ensures !(plan.items[i].actionId == plan.items[j].actionId
                && multiset(plan.items[i].evidence) == multiset(plan.items[j].evidence))
    {
      assert ItemIdentity(plan.items[i]) != ItemIdentity(plan.items[j]);
    }
  }

  lemma ConsistentWhen(cat: Catalogs, plan: Plan, evaluation: Evaluation, report: Report)
    requires ReportIntact(report) && PlanIntact(plan) && EvaluationIntact(plan, evaluation)
    requires !plan.blocked && evaluation.passed && PlanJustified(cat, plan, report)
    ensures Consistent(cat, plan, evaluation, report)
  {
    hide AnswersFailures;
    forall i | i in plan.items && i.Executable? ensures AnswersFailures(cat, report, i) {
      JustifiedMeans(cat, plan, report, i);
    }
    JustifiedCovers(cat, plan, report);
    JustifiedApart(cat, plan, report);
    hide PlanJustified;
  }

  /** Whatever is admitted is consistent, approved and in time. */
  lemma AdmissionRefuses(cat: Catalogs, plan: Plan, evaluation: Evaluation, d: Decision, report: Report, ttl: int,
                         events: Events, now: int)
    requires Admits(cat, plan, evaluation, d, report, ttl, events, now)
    ensures Consistent(cat, plan, evaluation, report)
    ensures d.kind == Approve && d.decidedAt <= now < d.decidedAt + ttl
  {
    hide ApprovalDurable;
    hide Consistent;
    hide PlanJustified;
    ConsistentWhen(cat, plan, evaluation, report);
  }

  // ---------- the entry of apply ----------

  /** Whatever apply accepts is consistent, wholly executable, under a current snapshot, for the warehouse it is
      connected to, and of the admission it carries. */
  lemma EntryRefuses(cat: Catalogs, call: Call)
    requires EntryAccepts(cat, call)
    ensures Consistent(cat, call.plan, call.evaluation, call.report)
    ensures forall i | i in call.plan.items :: i.Executable?
    ensures CurrentPolicy(cat, call.plan) == Some(call.plan.policyFingerprint)
    ensures call.environment == call.plan.environmentId
    ensures
      var a := call.admission;
      && a.fingerprint == AdmissionFingerprint(a)
      && a.planId == call.plan.planId && a.planFingerprint == call.plan.fingerprint
      && a.qualityRunId == call.plan.qualityRunId && a.policyFingerprint == call.plan.policyFingerprint
      && a.environmentId == call.plan.environmentId
      && a.evaluationId == call.evaluation.evaluationId
      && Some(a.evaluationFingerprint) == call.evaluation.fingerprint
  {
    hide PlanJustified;
    hide Consistent;
    hide CurrentPolicy;
    ConsistentWhen(cat, call.plan, call.evaluation, call.report);
  }

  /** An admission lets in nothing but what it was minted for: a call that carries its fingerprint carries the
      admission itself, its plan up to the JSON dump and its verdict, and runs in its warehouse and window. */
  lemma AcceptedAsAdmitted(cat: Catalogs, call: Call, plan: Plan, evaluation: Evaluation, d: Decision, now: int,
                           ttl: int, admissionId: string)
    requires EntryAccepts(cat, call)
    requires PlanIntact(plan) && EvaluationIntact(plan, evaluation)
    requires evaluation.fingerprint.Some? && d.auditEventId.Some?
    requires call.admission.fingerprint == AdmissionOf(plan, evaluation, d, now, ttl, admissionId).fingerprint
    ensures call.admission == AdmissionOf(plan, evaluation, d, now, ttl, admissionId)
    ensures SamePlan(call.plan, plan) && SameVerdict(call.evaluation, evaluation)
    ensures call.environment == plan.environmentId && call.admission.expiresAt == d.decidedAt + ttl
  {
    hide PlanJustified;
    hide CurrentPolicy;
    PlanFingerprintCovers(call.plan, plan);
    hide DumpItems;
    hide SamePlan;
  }

  // ---------- the transaction ----------

  /** A consumed admission stops the transaction before any recheck or statement, exactly when its id is not blank
      and the log has it. */
  lemma ConsumedStops(cat: Catalogs, snapshot: World, call: Call, clock: Clock)
    requires AllExecutable(call.plan.items)
    ensures Body(cat, snapshot, call, clock).BodyConsumed? <==>
      && clock(1) + 1000 <= call.admission.expiresAt
      && (exists c | c in call.admission.admissionId :: c != ' ')
      && exists k: nat | k < |snapshot.log| :: snapshot.log[k].admissionId == call.admission.admissionId
  {
    hide TargetsHold;
    hide RunItems;
    hide ArmDeadline;
    var id := call.admission.admissionId;
    if row :| row in snapshot.log && row.admissionId == id {
      var k: nat :| k < |snapshot.log| && snapshot.log[k] == row;
    }
    if k: nat :| k < |snapshot.log| && snapshot.log[k].admissionId == id {
      assert snapshot.log[k] in snapshot.log;
    }
  }

  lemma {:induction false} DigestsInOrder(items: seq<PlanItem>)
    requires AllExecutable(items)
    ensures |TargetDigests(items)| == |items|
    ensures forall k | 0 <= k < |items| ::
              items[k].Executable? && TargetDigests(items)[k] == items[k].targetSet.fingerprint
  {
    if items != [] {
      var n := |items| - 1;
      assert forall i | i in items[..n] :: i in items;
      DigestsInOrder(items[..n]);
      assert items[n] in items;
    }
  }

  /** The log row of this call: its ids, and the fingerprint of its items' target sets, in order. */
  predicate LoggedAs(row: LogRow, call: Call, work: Work) {
    && row.runId == call.runId && row.planId == call.plan.planId && row.eventId == call.eventId
    && row.admissionId == call.admission.admissionId
    && row.targetFingerprint.ListDigest? && |row.targetFingerprint.parts| == |call.plan.items|
    && (forall k | 0 <= k < |call.plan.items| ::
          && call.plan.items[k].Executable?
          && row.targetFingerprint.parts[k] == call.plan.items[k].targetSet.fingerprint)
    && (row.rowcount.None? <==> work.steps == [])
  }

  /** The event of this call: after the decision it was admitted on, with what was applied and to how many rows. */
  predicate TracedAs(event: AuditEvent, call: Call, work: Work) {
    && event.eventId == call.eventId && event.kind == ApplySucceeded
    && event.qualityRunId == call.plan.qualityRunId
    && event.predecessorIds == [call.admission.decisionEventId]
    && event.planId == Some(call.plan.planId) && event.planFingerprint == Some(call.plan.fingerprint)
    && event.policyFingerprint == Some(call.admission.policyFingerprint)
    && event.evaluationId == Some(call.evaluation.evaluationId)
    && event.evaluationFingerprint == call.evaluation.fingerprint
    && event.decisionId == Some(call.admission.decisionId)
    && event.applyResultId == Some(call.resultId)
    && |event.applySteps| == |work.steps|
    && forall k | 0 <= k < |work.steps| ::
         && event.applySteps[k].actionId == work.steps[k].rendered.actionId
         && event.applySteps[k].table == work.steps[k].rendered.table
         && event.applySteps[k].estimatedRows == work.steps[k].estimated
         && event.applySteps[k].rowcount == work.steps[k].rowcount
  }

  /** What a commit adds to the log, the trace and the quarantine, all of which it otherwise leaves alone. */
  lemma RecordTells(world: World, call: Call, work: Work)
    requires AllExecutable(call.plan.items)
    ensures
      var after := Committed(world, call, work);
      && |after.log| == |world.log| + 1 && after.log[..|world.log|] == world.log
      && LoggedAs(after.log[|world.log|], call, work)
      && after.traces.Keys == world.traces.Keys + {call.eventId}
      && (forall id | id in world.traces && id != call.eventId :: after.traces[id] == world.traces[id])
      && TracedAs(after.traces[call.eventId], call, work)
      && after.quarantine == world.quarantine + work.copies
  {
    hide MergeSources;
    RowTells(call, work);
    EventTells(call, work);
    hide RowOf;
    hide EventOf;
    hide LoggedAs;
    hide TracedAs;
  }

  lemma RowTells(call: Call, work: Work)
    requires AllExecutable(call.plan.items)
    ensures LoggedAs(RowOf(call, work), call, work)
  {
    DigestsInOrder(call.plan.items);
  }

  lemma EventTells(call: Call, work: Work)
    ensures TracedAs(EventOf(call, work), call, work)
  {
  }

  // ---------- recovery ----------

  /** The row and its event were recorded for this plan and admission. */
  predicate RecordedFor(row: LogRow, event: AuditEvent, call: Call) {
    && row.admissionId == call.admission.admissionId && row.planId == call.plan.planId
    && event.kind == ApplySucceeded && event.qualityRunId == call.plan.qualityRunId
    && event.planId == Some(call.plan.planId) && event.planFingerprint == Some(call.plan.fingerprint)
    && event.policyFingerprint == Some(call.admission.policyFingerprint)
    && event.evaluationId == Some(call.admission.evaluationId)
    && event.evaluationFingerprint == Some(call.admission.evaluationFingerprint)
    && event.decisionId == Some(call.admission.decisionId)
    && |event.applySteps| == |call.plan.items|
    && forall k | 0 <= k < |call.plan.items| ::
         && call.plan.items[k].Executable?
         && event.applySteps[k].actionId == call.plan.items[k].actionId
         && event.applySteps[k].table == call.plan.items[k].table
  }

  /** The result is read off that row and event. */
  predicate ReadOff(row: LogRow, event: AuditEvent, call: Call, r: ApplyResult) {
    && event.applyResultId == Some(r.resultId) && r.resultId != ""
    && event.applyResultFingerprint == Some(r.fingerprint)
    && r.auditEventId == event.eventId && r.auditEventId != ""
    && r.runId == row.runId && r.planId == call.plan.planId && r.admissionId == call.admission.admissionId
    && r.fingerprint == ResultFingerprint(call.plan, call.admission, r.runId, r.steps)
    && |r.steps| == |event.applySteps|
    && forall k | 0 <= k < |r.steps| ::
         && r.steps[k].estimated == event.applySteps[k].estimatedRows
         && r.steps[k].rowcount == event.applySteps[k].rowcount
  }

  lemma {:induction false} RowFound(log: seq<LogRow>, traces: Events, admissionId: string)
    ensures FindRow(log, traces, admissionId).Some? ==>
      && (exists c | c in admissionId :: c != ' ')
      && exists k: nat :: k < |log| && log[k] == FindRow(log, traces, admissionId).value
           && log[k].admissionId == admissionId && log[k].eventId in traces
           && forall j | 0 <= j < k :: log[j].admissionId != admissionId || log[j].eventId !in traces
  {
    if !Blank(admissionId) && log != [] {
      if log[0].admissionId == admissionId && log[0].eventId in traces {
        assert log[0] == FindRow(log, traces, admissionId).value;
      } else if FindRow(log, traces, admissionId).Some? {
        RowFound(log[1..], traces, admissionId);
        var k: nat :| k < |log[1..]| && log[1..][k] == FindRow(log[1..], traces, admissionId).value
          && log[1..][k].admissionId == admissionId && log[1..][k].eventId in traces
          && forall j | 0 <= j < k :: log[1..][j].admissionId != admissionId || log[1..][j].eventId !in traces;
        forall j | 0 <= j < k + 1 ensures log[j].admissionId != admissionId || log[j].eventId !in traces {
          assert j > 0 ==> log[j] == log[1..][j - 1];
        }
        assert log[k + 1] == FindRow(log, traces, admissionId).value;
      }
    }
  }

  lemma {:induction false} StepsReadOff(cat: Catalogs, items: seq<PlanItem>, recorded: seq<StepEvidence>,
                                        runId: string)
    requires |items| == |recorded| && AllExecutable(items) && RecoverSteps(cat, items, recorded, runId).Some?
    ensures
      var steps := RecoverSteps(cat, items, recorded, runId).value;
      && |steps| == |items|
      && forall k | 0 <= k < |items| ::
           && items[k].Executable? && recorded[k].actionId == items[k].actionId && recorded[k].table == items[k].table
           && steps[k].estimated == recorded[k].estimatedRows && steps[k].rowcount == recorded[k].rowcount
  {
    hide Render;
    if items != [] {
      var n := |items| - 1;
      assert forall i | i in items[..n] :: i in items;
      assert items[n] in items;
      StepsReadOff(cat, items[..n], recorded[..n], runId);
    }
  }

  /** Recovery returns nothing but what a row of the log and its event record for this very plan and admission: the
      first such row of an admission id that is not blank. */
  lemma RecoveredTells(cat: Catalogs, world: World, call: Call)
    requires AllExecutable(call.plan.items) && Recover(cat, world, call).Recovered?
    ensures exists c | c in call.admission.admissionId :: c != ' '
    ensures exists k: nat ::
      && k < |world.log| && world.log[k].eventId in world.traces
      && (forall j | 0 <= j < k ::
            world.log[j].admissionId != call.admission.admissionId || world.log[j].eventId !in world.traces)
      && RecordedFor(world.log[k], world.traces[world.log[k].eventId], call)
      && ReadOff(world.log[k], world.traces[world.log[k].eventId], call, Recover(cat, world, call).result)
  {
    hide RecoverSteps;
    hide FindRow;
    hide ResultFingerprint;
    RowFound(world.log, world.traces, call.admission.admissionId);
    var row := FindRow(world.log, world.traces, call.admission.admissionId).value;
    var event := world.traces[row.eventId];
    StepsReadOff(cat, call.plan.items, event.applySteps, row.runId);
    assert RecordedFor(row, event, call);
    assert ReadOff(row, event, call, Recover(cat, world, call).result);
    hide Recover;
  }

  // ---------- preparation ----------

  /** An event of this run, after the one named. */
  predicate StepOfRun(e: AuditEvent, eventId: string, predecessor: string, plan: Plan) {
    && e.eventId == eventId && e.predecessorIds == [predecessor] && e.qualityRunId == plan.qualityRunId
    && e.planId == Some(plan.planId) && e.planFingerprint == Some(plan.fingerprint)
    && e.policyFingerprint == Some(plan.policyFingerprint)
  }

  /** The three events preparation writes name the run and the plan, each after the one before, and bind the
      evaluation and the review that follow; a candidate whose evaluation failed is not prepared at all. */
  lemma PreparedEvents(cat: Catalogs, report: Report, proposal: Proposal, candidatePassed: bool,
                       candidateEventId: string, resolve: Resolver, ids: PrepareIds, ttl: int)
    requires Prepare(cat, report, proposal, candidatePassed, candidateEventId, resolve, ids, ttl).Some?
    ensures candidatePassed && report.auditEventId.Some? && report.fingerprint == Some(ReportFingerprint(report))
    ensures
      var p := Prepare(cat, report, proposal, candidatePassed, candidateEventId, resolve, ids, ttl).value;
      && p.plan.qualityRunId == report.runId && p.plan.planId == ids.planId
      && p.plan.environmentId == ids.environment
      && StepOfRun(p.compiled, ids.compiledId, candidateEventId, p.plan)
      && StepOfRun(p.evaluated, ids.evaluatedId, ids.compiledId, p.plan)
      && StepOfRun(p.reviewed, ids.reviewedId, ids.evaluatedId, p.plan)
      && p.compiled.kind == (if p.plan.blocked then PlanBlocked else PlanCompiled)
      && p.evaluated.kind == EvaluationEvent && p.reviewed.kind == ApprovalReview
      && p.evaluation.evaluationId == ids.evaluationId && p.evaluation.auditEventId == Some(ids.evaluatedId)
      && p.evaluated.evaluationId == p.reviewed.evaluationId == Some(p.evaluation.evaluationId)
      && p.evaluated.evaluationFingerprint == p.reviewed.evaluationFingerprint == p.evaluation.fingerprint
      && p.reviewed.reviewFingerprint == Some(p.review.fingerprint)
      && IsReviewOf(p.review, p.plan, p.evaluation, ttl)
  {
    hide CompiledItems;
    hide CurrentPolicy;
    hide PlanScores;
    hide PlanIntact;
    PreparedFacts(cat, report, proposal, candidatePassed, candidateEventId, resolve, ids, ttl);
    var p := Prepare(cat, report, proposal, candidatePassed, candidateEventId, resolve, ids, ttl).value;
    BuiltReviewShows(p.plan, p.evaluation, ttl);
    hide IsReviewOf;
  }
}
