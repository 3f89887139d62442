/** Recovery is the inverse of recording: what a retry reads back is the result that was committed, under
    the same catalogs exactly, and across processes as far as the policy snapshot binds the rendering. */
module Recoveries {
  import opened Prelude
  import opened Contracts
  import opened Actions
  import opened CheckPolicies
  import opened Planning
  import opened Agreement
  import opened Evaluations
  import opened Lineage
  import opened Admissions
  import opened Transactions
  import P = Predicates

  // ---------- the steps of a finished run ----------

  /** Step j of a run is the rendering of item j under the run's id, with its admitted count. */
  ghost predicate StepsRender(cat: Catalogs, items: seq<PlanItem>, runId: string, steps: seq<AppliedStep>) {
    && |steps| == |items|
    && forall j | 0 <= j < |items| ::
         && items[j].Executable?
         && Render(cat, items[j].actionId, items[j].table, items[j].params, runId) == Some(steps[j].rendered)
         && steps[j].estimated == Some(items[j].targetSet.count)
         && steps[j].rowcount.Some?
  }

  lemma {:induction false} RunItemsSteps(cat: Catalogs, call: Call, clock: Clock, w: Work, k: nat)
    requires AllExecutable(call.plan.items) && k <= |call.plan.items| && w.steps == []
    requires RunItems(cat, call, clock, w, k).Ok?
    ensures StepsRender(cat, call.plan.items[..k], call.runId, RunItems(cat, call, clock, w, k).value.steps)
  {
    hide Render;
    hide Execute;
    if k > 0 {
      RunItemsSteps(cat, call, clock, w, k - 1);
      assert call.plan.items[k - 1] in call.plan.items;
      assert call.plan.items[..k] == call.plan.items[..k - 1] + [call.plan.items[k - 1]];
      RunItemStep(cat, call, call.plan.items[k - 1], clock(k + 1), RunItems(cat, call, clock, w, k - 1).value);
    }
  }

  lemma RunItemStep(cat: Catalogs, call: Call, item: PlanItem, reading: int, w: Work)
    requires item.Executable? && RunItem(cat, call, item, reading, w).Ok?
    ensures
      var after := RunItem(cat, call, item, reading, w).value;
      && |after.steps| == |w.steps| + 1 && after.steps[..|w.steps|] == w.steps
      && var last := after.steps[|w.steps|];
         && Render(cat, item.actionId, item.table, item.params, call.runId) == Some(last.rendered)
         && last.estimated == Some(item.targetSet.count) && last.rowcount.Some?
  {
    hide Render;
    hide Execute;
  }

  lemma BodySteps(cat: Catalogs, snapshot: World, call: Call, clock: Clock)
    requires AllExecutable(call.plan.items) && Body(cat, snapshot, call, clock).BodyReady?
    ensures StepsRender(cat, call.plan.items, call.runId, Body(cat, snapshot, call, clock).work.steps)
  {
    hide Render;
    hide TargetsHold;
    var arm := ArmDeadline(call.admission, clock(1)).value;
    RunItemsSteps(cat, call, clock, StartWork(snapshot.sources, arm), |call.plan.items|);
    assert call.plan.items[..|call.plan.items|] == call.plan.items;
  }

  // ---------- recovery inverts recording ----------

  /** Every item spells its table by the contract's own name. */
  predicate PlainTables(cat: Catalogs, items: seq<PlanItem>) {
    forall i | i in items && i.Executable? ::
      GetTable(cat, i.table).Some? && GetTable(cat, i.table).value.table == i.table
  }

  lemma RenderedTable(cat: Catalogs, a: ActionId, table: string, params: Params, runId: string)
    requires Render(cat, a, table, params, runId).Some?
    ensures GetTable(cat, table).Some?
    ensures Render(cat, a, table, params, runId).value.table == GetTable(cat, table).value.table
  {
  }

  /** One step of recovery, given what the steps before it gave. */
  lemma RecoverLast(b: Catalogs, items: seq<PlanItem>, recorded: seq<StepEvidence>, runId: string)
    requires items != [] && |items| == |recorded| && AllExecutable(items) && AllExecutable(items[..|items| - 1])
    ensures
      var n := |items| - 1;
      var before := RecoverSteps(b, items[..n], recorded[..n], runId);
      && items[n].Executable?
      && RecoverSteps(b, items, recorded, runId)
         == if before.None? || recorded[n].actionId != items[n].actionId || recorded[n].table != items[n].table
            then None
            else
              match Render(b, items[n].actionId, items[n].table, items[n].params, runId)
              case None => None
              case Some(step) =>
                Some(before.value + [AppliedStep(step, recorded[n].estimatedRows, recorded[n].rowcount)])
  {
    hide Render;
    assert items[|items| - 1] in items;
  }

  /** The steps of a finished run, the last one apart. */
  lemma StepsRenderSplit(cat: Catalogs, items: seq<PlanItem>, runId: string, steps: seq<AppliedStep>)
    requires items != [] && StepsRender(cat, items, runId, steps)
    ensures
      var n := |items| - 1;
      && StepsRender(cat, items[..n], runId, steps[..n]) && items[n].Executable?
      && Render(cat, items[n].actionId, items[n].table, items[n].params, runId) == Some(steps[n].rendered)
      && steps[n].estimated == Some(items[n].targetSet.count)
      && steps == steps[..n] + [steps[n]]
      && EvidenceOfAll(steps)[..n] == EvidenceOfAll(steps[..n]) && EvidenceOfAll(steps)[n] == EvidenceOf(steps[n])
  {
    hide Render;
    var n := |items| - 1;
    assert EvidenceOfAll(steps)[..n] == EvidenceOfAll(steps[..n]);
  }

  lemma PlainSplit(cat: Catalogs, items: seq<PlanItem>)
    requires items != [] && items[|items| - 1].Executable?
    ensures
      var n := |items| - 1;
      PlainTables(cat, items) <==>
        PlainTables(cat, items[..n])
        && GetTable(cat, items[n].table).Some? && GetTable(cat, items[n].table).value.table == items[n].table
  {
    var n := |items| - 1;
    assert items == items[..n] + [items[n]];
  }

  /** Rendering the recorded evidence again gives the original steps, exactly when the recorded table names,
      which are the contracts', are the ones the items spell. */
  lemma {:induction false} RecoverStepsInverts(cat: Catalogs, items: seq<PlanItem>, steps: seq<AppliedStep>,
                                               runId: string)
    requires AllExecutable(items) && StepsRender(cat, items, runId, steps)
    ensures PlainTables(cat, items) ==> RecoverSteps(cat, items, EvidenceOfAll(steps), runId) == Some(steps)
    ensures !PlainTables(cat, items) ==> RecoverSteps(cat, items, EvidenceOfAll(steps), runId) == None
  {
    if items == [] {
      assert steps == [];
    } else {
      hide Render;
      hide RecoverSteps;
      hide StepsRender;
      hide PlainTables;
      hide EvidenceOfAll;
      var n := |items| - 1;
      StepsRenderSplit(cat, items, runId, steps);
      PlainSplit(cat, items);
      assert forall i | i in items[..n] :: i in items;
      RecoverStepsInverts(cat, items[..n], steps[..n], runId);
      RecoverLast(cat, items, EvidenceOfAll(steps), runId);
      RenderedTable(cat, items[n].actionId, items[n].table, items[n].params, runId);
      RenderedAction(cat, items[n].actionId, items[n].table, items[n].params, runId);
    }
  }

  lemma RenderedAction(cat: Catalogs, a: ActionId, table: string, params: Params, runId: string)
    requires Render(cat, a, table, params, runId).Some?
    ensures Render(cat, a, table, params, runId).value.actionId == a
  {
  }

  /** The committed state still shows this call's record under its admission. */
  ghost predicate Shows(world: World, call: Call, work: Work) {
    && FindRow(world.log, world.traces, call.admission.admissionId) == Some(RowOf(call, work))
    && call.eventId in world.traces && world.traces[call.eventId] == EventOf(call, work)
  }

  /** Recovery inverts commit: a later call with the same payloads reads back the original result field by
      field, every re-rendered step included, exactly when the plan spells its tables plainly; otherwise it
      refuses. */
  lemma RecoveryInvertsCommit(cat: Catalogs, snapshot: World, call: Call, clock: Clock, world: World, retry: Call)
    requires AllExecutable(call.plan.items)
    requires EvaluationIntact(call.plan, call.evaluation) && AdmissionIntact(call.plan, call.evaluation, call.admission)
    requires Body(cat, snapshot, call, clock).BodyReady?
    requires Shows(world, call, Body(cat, snapshot, call, clock).work)
    requires retry.plan == call.plan && retry.admission == call.admission
    requires call.resultId != "" && call.eventId != ""
    ensures PlainTables(cat, call.plan.items) ==>
      Recover(cat, world, retry) == Recovered(ResultOf(call, Body(cat, snapshot, call, clock).work))
    ensures !PlainTables(cat, call.plan.items) ==> Recover(cat, world, retry) == Refused
  {
    hide Body;
    hide Render;
    hide RecoverSteps;
    hide PlainTables;
    BodySteps(cat, snapshot, call, clock);
    var work := Body(cat, snapshot, call, clock).work;
    RecoverStepsInverts(cat, call.plan.items, work.steps, call.runId);
  }

  // ---------- what an accepted payload must be ----------

  /** Recovery never lets another plan or admission pass for the committed one: whatever it accepts carries
      the committed identities, and an intact payload is the committed payload, field by field up to the JSON
      dump of the plan items. */
  lemma AcceptedPayloadIsCommitted(cat: Catalogs, call: Call, work: Work, world: World, other: Call)
    requires AllExecutable(call.plan.items) && AllExecutable(other.plan.items)
    requires PlanIntact(call.plan) && PlanIntact(other.plan)
    requires EvaluationIntact(call.plan, call.evaluation) && EvaluationIntact(other.plan, other.evaluation)
    requires AdmissionIntact(call.plan, call.evaluation, call.admission)
    requires AdmissionIntact(other.plan, other.evaluation, other.admission)
    requires Shows(world, call, work) && other.admission.admissionId == call.admission.admissionId
    requires Recover(cat, world, other).Recovered?
    ensures other.admission == call.admission
    ensures DumpItems(other.plan.items) == DumpItems(call.plan.items)
    ensures other.plan.planId == call.plan.planId && other.plan.qualityRunId == call.plan.qualityRunId
    ensures other.plan.policyFingerprint == call.plan.policyFingerprint
    ensures other.plan.candidateFingerprint == call.plan.candidateFingerprint
    ensures other.evaluation.evaluationId == call.evaluation.evaluationId
    ensures other.evaluation.fingerprint == call.evaluation.fingerprint
    ensures other.evaluation.scores == call.evaluation.scores && other.evaluation.passed == call.evaluation.passed
  {
    hide RecoverSteps;
    hide EvidenceOfAll;
    assert other.admission.fingerprint == call.admission.fingerprint;
    assert AdmissionFingerprint(other.admission) == AdmissionFingerprint(call.admission);
    assert other.plan.fingerprint == call.plan.fingerprint;
    assert PlanFingerprint(other.plan) == PlanFingerprint(call.plan);
  }

  // ---------- what the policy snapshot binds ----------

  /** Catalogs as the registry keeps them: keyed by the entries' own undotted names. */
  ghost predicate Keyed(cat: Catalogs) {
    TablesKeyed(cat) && CheckKeys(cat)
  }

  lemma FrozenOk(cat: Catalogs, a: ActionId, table: string, params: Params)
    requires ParamsOk(cat, a, table, params)
    ensures ParamsOk(cat, a, table, Freeze(params))
  {
    var contract := GetTable(cat, table).value;
    forall k | k in Freeze(params) && k in IDENTIFIER_PARAMS
      ensures IdentifierOk(cat, contract, Freeze(params), k)
    {
      assert IdentifierOk(cat, contract, params, k);
    }
  }

  /** The cited check and the contract of a justified item. */
  lemma JustifiedItemOk(cat: Catalogs, item: PlanItem, failures: Failures)
    requires Keyed(cat) && ItemJustified(cat, item, failures)
    ensures
      var spec := cat.checks[item.evidence[0].checkId];
      && spec.checkId == item.evidence[0].checkId && spec.table == item.table
      && DeriveParams(cat, item.actionId, spec).Some?
      && item.params == Freeze(DeriveParams(cat, item.actionId, spec).value)
      && ParamsOk(cat, item.actionId, item.table, item.params)
  {
    assert item.evidence[0] in item.evidence;
    var spec := cat.checks[item.evidence[0].checkId];
    var contract := GetTable(cat, spec.table).value;
    P.UndottedSegment(contract.table);
    var params := DeriveParams(cat, item.actionId, spec).value;
    SameSegment(cat, item.actionId, contract.table, item.table, params, "");
    FrozenOk(cat, item.actionId, item.table, params);
  }

  /** Equal snapshots of one item: the same first check, up to the dump of its policies, and the same contract. */
  lemma SnapshotBinds(a: Catalogs, b: Catalogs, item: PlanItem)
    requires item.Executable? && item.evidence != []
    requires CurrentItemPolicy(a, item).Some? && CurrentItemPolicy(a, item) == CurrentItemPolicy(b, item)
    ensures
      var id := item.evidence[0].checkId;
      && id in a.checks && id in b.checks && DumpSpec(a.checks[id]) == DumpSpec(b.checks[id])
      && GetTable(a, a.checks[id].table).Some?
      && GetTable(a, a.checks[id].table) == GetTable(b, b.checks[id].table)
  {
    assert item.evidence[0] in item.evidence;
    var specsA, specsB := SpecsOf(a, item.evidence).value, SpecsOf(b, item.evidence).value;
    assert specsA[0] in specsA && specsB[0] in specsB;
    var contractsA := Map(specsA, (s: CheckSpec) => ContractOf(a, s));
    var contractsB := Map(specsB, (s: CheckSpec) => ContractOf(b, s));
    var dumpsA, dumpsB := Map(specsA, (s: CheckSpec) => DumpSpec(s)), Map(specsB, (s: CheckSpec) => DumpSpec(s));
    assert contractsA[0] == ContractOf(a, specsA[0]) && contractsB[0] == ContractOf(b, specsB[0]);
    assert dumpsA[0] == DumpSpec(specsA[0]) && dumpsB[0] == DumpSpec(specsB[0]);
  }

  /** The contract an orphans item joins. */
  function RefContract(cat: Catalogs, item: PlanItem): Option<TableContract>
    requires item.Executable?
  {
    if RefTable in item.params then GetTable(cat, TextOr(item.params[RefTable])) else None
  }

  /** What a policy snapshot fixes across processes: under equal snapshots an item renders alike, except
      that an orphans item renders alike exactly when the joined table's qualified name is the same, since
      the referenced contract is not part of the snapshot. */
  lemma SnapshotFixesRendering(a: Catalogs, b: Catalogs, item: PlanItem, fa: Failures, fb: Failures, runId: string)
    requires Keyed(a) && Keyed(b)
    requires ItemJustified(a, item, fa) && ItemJustified(b, item, fb)
    requires CurrentItemPolicy(a, item).Some? && CurrentItemPolicy(a, item) == CurrentItemPolicy(b, item)
    ensures
      var here := Render(a, item.actionId, item.table, item.params, runId);
      var there := Render(b, item.actionId, item.table, item.params, runId);
      && (item.actionId != QuarantineOrphans ==> here == there)
      && (item.actionId == QuarantineOrphans ==>
            && RefContract(a, item).Some? && RefContract(b, item).Some?
            && (here.Some? ==>
                  (here == there <==>
                     RefContract(a, item).value.Qualified() == RefContract(b, item).value.Qualified())))
  {
    hide DeriveParams;
    hide CurrentItemPolicy;
    hide ParamsOk;
    JustifiedItemOk(a, item, fa);
    JustifiedItemOk(b, item, fb);
    SnapshotBinds(a, b, item);
    if item.actionId == QuarantineInvalids {
      NamesItsCheck(a, item, fa);
    }
    if item.actionId == QuarantineOrphans {
      P.OrphansRefTable(a, item.table, item.params);
      P.OrphansRefTable(b, item.table, item.params);
    }
  }

  lemma NamesItsCheck(cat: Catalogs, item: PlanItem, failures: Failures)
    requires Keyed(cat) && ItemJustified(cat, item, failures) && item.actionId == QuarantineInvalids
    ensures CheckIdKey in item.params && item.params[CheckIdKey] == Text(item.evidence[0].checkId)
  {
    JustifiedItemOk(cat, item, failures);
    hide ParamsOk;
  }
}
