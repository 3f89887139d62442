/** `apply_plan` without mutation: it accepts a plan before anyone has decided on it, rechecks the targets in a
    read-only transaction, and renders every item. What it says about a later call that mutates. */
module DryRuns {
  import opened Prelude
  import opened Sql
  import opened BoundText
  import opened Contracts
  import opened Actions
  import opened Planning
  import opened Lineage
  import opened Admissions
  import opened Transactions
  import opened Recoveries
  import opened Effects
  import opened AdmittedRuns
  import opened Guarantees
  import opened Decisions
  import Refusals

  /** `_require_dry_run`: no admission is looked at, and no warehouse. */
  ghost predicate DryRunAccepts(cat: Catalogs, plan: Plan, evaluation: Evaluation, report: Report) {
    && !plan.blocked && AllExecutable(plan.items)
    && evaluation.passed
    && ReportIntact(report)
    && PlanIntact(plan)
    && EvaluationIntact(plan, evaluation)
    && CurrentPolicy(cat, plan) == Some(plan.policyFingerprint)
    && PlanJustified(cat, plan, report)
  }

  method RequireDryRun(cat: Catalogs, plan: Plan, evaluation: Evaluation, report: Report) returns (ok: bool)
    ensures ok <==> DryRunAccepts(cat, plan, evaluation, report)
  {
    hide PlanJustified;
    hide CurrentPolicy;
    if plan.blocked || !AllExecutable(plan.items) || !evaluation.passed || !ReportIntact(report)
       || !PlanIntact(plan) || !EvaluationIntact(plan, evaluation) {
      return false;
    }
    var policy := CurrentPolicyFingerprint(cat, plan);
    if policy != Some(plan.policyFingerprint) {
      return false;
    }
    ok := VerifyExecutableParams(cat, plan, report);
  }

  /** The step of a dry run: an estimate, and no row count. */
  function DryStep(cat: Catalogs, item: PlanItem, runId: string): Option<AppliedStep>
    requires item.Executable?
  {
    match Render(cat, item.actionId, item.table, item.params, runId)
    case None => None
    case Some(step) => Some(AppliedStep(step, Some(item.targetSet.count), None))
  }

  /** Every item rendered in order, None where one does not render. */
  function DrySteps(cat: Catalogs, items: seq<PlanItem>, runId: string): Option<seq<AppliedStep>>
    requires AllExecutable(items)
  {
    if items == [] then Some([])
    else
      var n := |items| - 1;
      assert items[n] in items;
      match DrySteps(cat, items[..n], runId)
      case None => None
      case Some(steps) =>
        match DryStep(cat, items[n], runId)
        case None => None
        case Some(step) => Some(steps + [step])
  }

  /** What a dry run that nothing interrupts returns on these sources. */
  ghost function DryRun(cat: Catalogs, sources: Store, plan: Plan, evaluation: Evaluation, report: Report,
                        runId: string): Option<seq<AppliedStep>> {
    if !DryRunAccepts(cat, plan, evaluation, report) || !TargetsHold(cat, sources, plan.items) then None
    else DrySteps(cat, plan.items, runId)
  }

  /** The recheck: every item's targets are resolved again. */
  method TargetsUnchanged(cat: Catalogs, sources: Store, items: seq<PlanItem>) returns (ok: bool)
    requires AllExecutable(items)
    ensures ok <==> TargetsHold(cat, sources, items)
  {
    hide ResolveItem;
    var j := 0;
    while j < |items|
      invariant 0 <= j <= |items|
      invariant forall k | 0 <= k < j ::
        items[k].Executable? ==> ResolveItem(cat, sources, items[k]) == Some(items[k].targetSet)
    {
      assert items[j] in items;
      var actual := ResolveItem(cat, sources, items[j]);
      if actual != Some(items[j].targetSet) {
        return false;
      }
      j := j + 1;
    }
    ok := true;
  }

  /** `apply_plan` with `dry_run=True`: the guards, the recheck of all targets, the rendering loop. The database is
      read and not written. */
  method DryRunPlan(cat: Catalogs, sources: Store, plan: Plan, evaluation: Evaluation, report: Report, runId: string)
    returns (r: Option<seq<AppliedStep>>)
    ensures r == DryRun(cat, sources, plan, evaluation, report, runId)
  {
    hide DryRunAccepts;
    hide ResolveItem;
    hide Render;
    var ok := RequireDryRun(cat, plan, evaluation, report);
    if !ok {
      return None;
    }
    AcceptedItems(cat, plan, evaluation, report);
    var items := plan.items;
    ok := TargetsUnchanged(cat, sources, items);
    if !ok {
      return None;
    }
    hide TargetsHold;
    hide DryStep;
    var steps: seq<AppliedStep> := [];
    var j := 0;
    while j < |items|
      invariant 0 <= j <= |items| && AllExecutable(items[..j])
      invariant DrySteps(cat, items[..j], runId) == Some(steps)
    {
      assert items[j] in items && items[..j + 1][..j] == items[..j];
      assert forall i | i in items[..j + 1] :: i in items;
      var step := DryStep(cat, items[j], runId);
      if step.None? {
        StopsThere(cat, items, runId, j + 1);
        return None;
      }
      steps := steps + [step.value];
      j := j + 1;
    }
    assert items[..j] == items;
    r := Some(steps);
  }

  lemma AcceptedItems(cat: Catalogs, plan: Plan, evaluation: Evaluation, report: Report)
    requires DryRunAccepts(cat, plan, evaluation, report)
    ensures AllExecutable(plan.items)
  {
  }

  lemma {:induction false} StopsThere(cat: Catalogs, items: seq<PlanItem>, runId: string, k: nat)
    requires k <= |items| && AllExecutable(items) && AllExecutable(items[..k])
    requires DrySteps(cat, items[..k], runId).None?
    ensures DrySteps(cat, items, runId).None?
    decreases |items| - k
  {
    hide DryStep;
    if k == |items| {
      assert items[..k] == items;
    } else {
      assert items[..k + 1][..k] == items[..k];
      assert forall i | i in items[..k + 1] :: i in items;
      StopsThere(cat, items, runId, k + 1);
    }
  }

  // ---------- what a dry run predicts ----------

  lemma ExecutesByNames(base: Store, w: Work, st: Statement)
    requires Runs(base, st) && w.sources.Keys == base.Keys
    ensures Execute(w, st).Some? && Execute(w, st).value.0.sources.Keys == base.Keys
  {
  }

  lemma ItemReaches(cat: Catalogs, call: Call, item: PlanItem, reading: int, base: Store, w: Work)
    requires item.Executable? && ResolveItem(cat, base, item) == Some(item.targetSet)
    requires w.sources.Keys == base.Keys && ArmDeadline(call.admission, reading).Some?
    ensures RunItem(cat, call, item, reading, w).Ok?
    ensures RunItem(cat, call, item, reading, w).value.sources.Keys == base.Keys
  {
    ItemRenders(cat, base, item, call.runId);
    TargetKnown(cat, base, item, call.runId);
    hide Render;
    hide Execute;
    hide Runs;
    hide ResolveItem;
    ExecutesByNames(base, w, Render(cat, item.actionId, item.table, item.params, call.runId).value.statement);
  }

  lemma ItemRenders(cat: Catalogs, base: Store, item: PlanItem, runId: string)
    requires item.Executable? && ResolveItem(cat, base, item).Some?
    ensures Render(cat, item.actionId, item.table, item.params, runId).Some?
  {
    TargetIgnoresRunId(cat, item.actionId, item.table, item.params, runId, "apply");
    hide Render;
  }

  /** Where all targets hold, a run in time reaches its end: nothing but time and the targets can stop it. */
  lemma {:induction false} RunReaches(cat: Catalogs, call: Call, clock: Clock, base: Store, w: Work, k: nat)
    requires AllExecutable(call.plan.items) && k <= |call.plan.items| && TargetsHold(cat, base, call.plan.items)
    requires w.sources.Keys == base.Keys && InTime(call.admission, clock, |call.plan.items|)
    ensures RunItems(cat, call, clock, w, k).Ok?
    ensures RunItems(cat, call, clock, w, k).value.sources.Keys == base.Keys
  {
    hide RunItem;
    hide ResolveItem;
    if k > 0 {
      RunReaches(cat, call, clock, base, w, k - 1);
      var item := call.plan.items[k - 1];
      assert item in call.plan.items;
      assert ArmDeadline(call.admission, clock(k + 1)).Some?;
      ItemReaches(cat, call, item, clock(k + 1), base, RunItems(cat, call, clock, w, k - 1).value);
    }
  }

  /** In time and under an admission not consumed, the body runs to its end exactly when all targets hold. */
  lemma BodyExactly(cat: Catalogs, world: World, call: Call, clock: Clock)
    requires AllExecutable(call.plan.items) && InTime(call.admission, clock, |call.plan.items|)
    requires !Consumed(world.log, call.admission.admissionId)
    ensures Body(cat, world, call, clock).BodyReady? <==> TargetsHold(cat, world.sources, call.plan.items)
    ensures !Body(cat, world, call, clock).BodyReady? ==> Body(cat, world, call, clock).BodyFailed?
  {
    var n := |call.plan.items|;
    assert ArmDeadline(call.admission, clock(1)).Some? && ArmDeadline(call.admission, clock(n + 2)).Some?;
    if TargetsHold(cat, world.sources, call.plan.items) {
      var start := StartWork(world.sources, ArmDeadline(call.admission, clock(1)).value);
      RunReaches(cat, call, clock, world.sources, start, n);
    }
    hide TargetsHold;
    hide RunItems;
    hide Consumed;
  }

  // ---------- how a transaction ends ----------

  /** The k-th reading leaves less than a millisecond of the admission. */
  predicate Late(a: Admission, clock: Clock, k: nat) {
    clock(k) + 1000 > a.expiresAt
  }

  lemma ItemIsCutOff(cat: Catalogs, call: Call, item: PlanItem, reading: int, base: Store, w: Work)
    requires item.Executable? && ResolveItem(cat, base, item) == Some(item.targetSet)
    requires ArmDeadline(call.admission, reading).None?
    ensures RunItem(cat, call, item, reading, w) == Err(StopExpired)
  {
    ItemRenders(cat, base, item, call.runId);
    hide Render;
    hide ResolveItem;
  }

  /** Where all targets hold, a run stops for nothing but time, at the first late reading. */
  lemma {:induction false} RunEnds(cat: Catalogs, call: Call, clock: Clock, base: Store, w: Work, k: nat)
    requires AllExecutable(call.plan.items) && k <= |call.plan.items| && TargetsHold(cat, base, call.plan.items)
    requires w.sources.Keys == base.Keys
    ensures RunItems(cat, call, clock, w, k).Ok? <==> forall j: nat | 2 <= j <= k + 1 :: !Late(call.admission, clock, j)
    ensures RunItems(cat, call, clock, w, k).Ok? ==> RunItems(cat, call, clock, w, k).value.sources.Keys == base.Keys
    ensures RunItems(cat, call, clock, w, k).Err? ==> RunItems(cat, call, clock, w, k).error == StopExpired
  {
    hide RunItem;
    hide ResolveItem;
    if k > 0 {
      RunEnds(cat, call, clock, base, w, k - 1);
      if RunItems(cat, call, clock, w, k - 1).Ok? {
        var item := call.plan.items[k - 1];
        assert item in call.plan.items;
        var before := RunItems(cat, call, clock, w, k - 1).value;
        if Late(call.admission, clock, k + 1) {
          ItemIsCutOff(cat, call, item, clock(k + 1), base, before);
        } else {
          ItemReaches(cat, call, item, clock(k + 1), base, before);
        }
      }
    }
  }

  /** A transaction the database does not interrupt ends in exactly one of four ways: late at its first reading, or at
      a later one when nothing else is wrong; consumed; failed, for targets that do not hold; and otherwise ready. */
  lemma BodyEndsExactly(cat: Catalogs, world: World, call: Call, clock: Clock)
    requires AllExecutable(call.plan.items)
    ensures
      var body, n, a := Body(cat, world, call, clock), |call.plan.items|, call.admission;
      var consumed, hold := Consumed(world.log, a.admissionId), TargetsHold(cat, world.sources, call.plan.items);
      && (body.BodyExpired? <==>
            Late(a, clock, 1) || (!consumed && hold && exists k: nat | 2 <= k <= n + 2 :: Late(a, clock, k)))
      && (body.BodyConsumed? <==> !Late(a, clock, 1) && consumed)
      && (body.BodyFailed? <==> !Late(a, clock, 1) && !consumed && !hold)
      && (body.BodyReady? <==> (forall k: nat | 1 <= k <= n + 2 :: !Late(a, clock, k)) && !consumed && hold)
  {
    if Late(call.admission, clock, 1) || Consumed(world.log, call.admission.admissionId)
       || !TargetsHold(cat, world.sources, call.plan.items) {
      StoppedEarly(cat, world, call, clock);
    } else {
      StoppedByTime(cat, world, call, clock);
    }
    hide TargetsHold;
    hide Body;
    hide Consumed;
    hide Late;
  }

  lemma StoppedEarly(cat: Catalogs, world: World, call: Call, clock: Clock)
    requires AllExecutable(call.plan.items)
    requires Late(call.admission, clock, 1) || Consumed(world.log, call.admission.admissionId)
             || !TargetsHold(cat, world.sources, call.plan.items)
    ensures Body(cat, world, call, clock)
         == if Late(call.admission, clock, 1) then BodyExpired
            else if Consumed(world.log, call.admission.admissionId) then BodyConsumed else BodyFailed
  {
    hide TargetsHold;
    hide RunItems;
    hide Consumed;
  }

  lemma StoppedByTime(cat: Catalogs, world: World, call: Call, clock: Clock)
    requires AllExecutable(call.plan.items) && !Late(call.admission, clock, 1)
    requires !Consumed(world.log, call.admission.admissionId) && TargetsHold(cat, world.sources, call.plan.items)
    ensures Body(cat, world, call, clock).BodyReady?
       <==> forall k: nat | 2 <= k <= |call.plan.items| + 2 :: !Late(call.admission, clock, k)
    ensures !Body(cat, world, call, clock).BodyReady? ==> Body(cat, world, call, clock).BodyExpired?
  {
    hide Body;
    hide TargetsHold;
    hide RunItems;
    hide Consumed;
    var n := |call.plan.items|;
    var start := StartWork(world.sources, ArmDeadline(call.admission, clock(1)).value);
    RunEnds(cat, call, clock, world.sources, start, n);
    EndsWithRun(cat, world, call, clock, start);
    hide Late;
    hide StartWork;
    hide ArmDeadline;
    assert RunItems(cat, call, clock, start, n).Ok? && !Late(call.admission, clock, n + 2) <==>
        forall k: nat | 2 <= k <= n + 2 :: !Late(call.admission, clock, k);
  }

  /** Past its guards the transaction ends as its run does, with one more reading. */
  lemma EndsWithRun(cat: Catalogs, world: World, call: Call, clock: Clock, start: Work)
    requires AllExecutable(call.plan.items) && ArmDeadline(call.admission, clock(1)).Some?
    requires !Consumed(world.log, call.admission.admissionId) && TargetsHold(cat, world.sources, call.plan.items)
    requires start == StartWork(world.sources, ArmDeadline(call.admission, clock(1)).value)
    ensures
      var body, n := Body(cat, world, call, clock), |call.plan.items|;
      var run, late := RunItems(cat, call, clock, start, n), Late(call.admission, clock, n + 2);
      && (run.Ok? ==> if late then body.BodyExpired? else body.BodyReady?)
      && (run.Err? && run.error == StopExpired ==> body.BodyExpired?)
  {
    hide TargetsHold;
    hide RunItems;
    hide Consumed;
  }

  lemma {:induction false} StepsRendered(cat: Catalogs, sources: Store, items: seq<PlanItem>, runId: string)
    requires AllExecutable(items) && TargetsHold(cat, sources, items)
    ensures DrySteps(cat, items, runId).Some? && |DrySteps(cat, items, runId).value| == |items|
    ensures forall j | 0 <= j < |items| ::
              items[j].Executable? && DryStep(cat, items[j], runId) == Some(DrySteps(cat, items, runId).value[j])
  {
    hide Render;
    hide ResolveItem;
    if items != [] {
      var n := |items| - 1;
      assert items[n] in items;
      assert forall i | i in items[..n] :: i in items;
      StepsRendered(cat, sources, items[..n], runId);
      ItemRenders(cat, sources, items[n], runId);
      assert DrySteps(cat, items, runId)
          == Some(DrySteps(cat, items[..n], runId).value + [DryStep(cat, items[n], runId).value]);
      hide TargetsHold;
      hide DryStep;
      hide DrySteps;
      forall j | 0 <= j < n
        ensures items[j].Executable? && DryStep(cat, items[j], runId) == Some(DrySteps(cat, items, runId).value[j])
      {
        assert items[..n][j] == items[j];
      }
    }
  }

  /** On the same state, a dry run succeeds exactly when a call that apply would let in, in time and under an admission
      not consumed, runs to its end; otherwise that call fails at its recheck. Where the statements do not disturb one
      another, the estimates of the dry run are the row counts of that call, step by step. */
  lemma DryRunPredicts(cat: Catalogs, world: World, call: Call, clock: Clock, runId: string)
    requires EntryAccepts(cat, call) && AllExecutable(call.plan.items)
    requires InTime(call.admission, clock, |call.plan.items|) && !Consumed(world.log, call.admission.admissionId)
    ensures
      var dry := DryRun(cat, world.sources, call.plan, call.evaluation, call.report, runId);
      var body := Body(cat, world, call, clock);
      && (dry.Some? <==> body.BodyReady?) && (dry.None? <==> body.BodyFailed?)
      && (body.BodyReady? && NoClash(multiset(StatementsOf(body.work.steps))) ==>
            |dry.value| == |body.work.steps|
            && forall j | 0 <= j < |dry.value| ::
                 dry.value[j].estimated == body.work.steps[j].rowcount && dry.value[j].rowcount.None?
                 && dry.value[j].rendered.target == body.work.steps[j].rendered.target)
  {
    hide NoClash;
    hide Consumed;
    var dry := DryRun(cat, world.sources, call.plan, call.evaluation, call.report, runId);
    BodyExactly(cat, world, call, clock);
    AcceptedForDryRun(cat, call);
    var body := Body(cat, world, call, clock);
    hide Body;
    hide DryRunAccepts;
    hide EntryAccepts;
    if TargetsHold(cat, world.sources, call.plan.items) {
      StepsRendered(cat, world.sources, call.plan.items, runId);
      hide TargetsHold;
      if NoClash(multiset(StatementsOf(body.work.steps))) {
        SameSteps(cat, world, call, clock, runId, dry.value);
      }
    }
  }

  /** A dry run refuses what apply would refuse, but for the admission and the warehouse. */
  lemma DryRunRefuses(cat: Catalogs, plan: Plan, evaluation: Evaluation, report: Report)
    requires DryRunAccepts(cat, plan, evaluation, report)
    ensures Refusals.Consistent(cat, plan, evaluation, report)
    ensures forall i | i in plan.items :: i.Executable?
    ensures CurrentPolicy(cat, plan) == Some(plan.policyFingerprint)
  {
    hide PlanJustified;
    hide CurrentPolicy;
    hide Refusals.Consistent;
    Refusals.ConsistentWhen(cat, plan, evaluation, report);
  }

  lemma AcceptedForDryRun(cat: Catalogs, call: Call)
    requires EntryAccepts(cat, call)
    ensures DryRunAccepts(cat, call.plan, call.evaluation, call.report)
  {
  }

  lemma SameSteps(cat: Catalogs, world: World, call: Call, clock: Clock, runId: string, dry: seq<AppliedStep>)
    requires AllExecutable(call.plan.items) && Body(cat, world, call, clock).BodyReady?
    requires NoClash(multiset(StatementsOf(Body(cat, world, call, clock).work.steps)))
    requires |dry| == |call.plan.items|
    requires forall j | 0 <= j < |dry| ::
      call.plan.items[j].Executable? && DryStep(cat, call.plan.items[j], runId) == Some(dry[j])
    ensures
      var steps := Body(cat, world, call, clock).work.steps;
      |steps| == |dry| && forall j | 0 <= j < |dry| ::
        dry[j].estimated == steps[j].rowcount && dry[j].rowcount.None?
        && dry[j].rendered.target == steps[j].rendered.target
  {
    hide NoClash;
    hide FilledStore;
    AdmittedRun(cat, world, call, clock);
    hide Body;
    hide Render;
    var steps := Body(cat, world, call, clock).work.steps;
    forall j | 0 <= j < |dry| ensures dry[j].rendered.target == steps[j].rendered.target {
      var item := call.plan.items[j];
      TargetIgnoresRunId(cat, item.actionId, item.table, item.params, runId, call.runId);
    }
  }
}
