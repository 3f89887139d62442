/** How checks spell their tables, and what depends on it. Contracts are looked up by the last segment of a name,
    frames and the conflict check by the name as it stands, and a recorded step carries the contract's own name.
    For plans that come from the suite all of it comes down to one condition on the registered checks. */
module Spellings {
  import opened Prelude
  import opened Contracts
  import opened Frames
  import opened Actions
  import opened CheckPolicies
  import opened Planning
  import opened Lineage
  import opened Admissions
  import opened Journeys
  import opened Transactions
  import opened Recoveries
  import opened Effects
  import opened AdmittedRuns
  import opened Protocol
  import opened Guarantees
  import opened Retries
  import opened Suites
  import Registries
  import P = Predicates

  // ---------- plans of the suite ----------

  /** The report is one the suite produced over frames that the catalogs name. */
  ghost predicate SuiteRun(cat: Catalogs, specs: seq<CheckSpec>, loaded: Loaded, report: Report) {
    && TablesKeyed(cat) && loaded.Keys <= cat.tables.Keys
    && Registered(cat, specs) && Reported(cat, specs, loaded, report)
  }

  /** No schema-drift check spells its table with a dot. */
  predicate DriftIsPlain(specs: seq<CheckSpec>) {
    forall s | s in specs && s.dimension == SchemaDrift :: '.' !in s.table
  }

  /** A failed check of a suite report is one of the specs, and failed on these frames. */
  lemma FailureIsSpec(cat: Catalogs, specs: seq<CheckSpec>, loaded: Loaded, report: Report, id: string)
    requires SuiteRun(cat, specs, loaded, report) && id in FailuresOf(report)
    ensures id in cat.checks && cat.checks[id] in specs && cat.checks[id].checkId == id
    ensures CheckOne(cat, cat.checks[id], loaded) == Some(FailuresOf(report)[id])
    ensures FailuresOf(report)[id].status == Fail
  {
    hide CheckOne;
    IdsAreKeys(FailedChecks(report));
    var i: nat :| i < |report.checks| && report.checks[i] == FailuresOf(report)[id];
    ResultNamesSpec(cat, specs[i], loaded);
    assert specs[i] in specs;
  }

  lemma {:induction false} FailureById(failed: seq<CheckResult>, c: CheckResult)
    requires c in failed
    ensures c.checkId in ById(failed)
  {
    var n := |failed| - 1;
    if failed[n] != c {
      assert c in failed[..n];
      FailureById(failed[..n], c);
    }
  }

  /** A plain spelling is the contract's own name. */
  lemma PlainSpelling(cat: Catalogs, table: string)
    requires TablesKeyed(cat) && GetTable(cat, table).Some?
    ensures GetTable(cat, table).value.table == table <==> '.' !in table
  {
    if '.' !in table {
      P.UndottedSegment(table);
    }
  }

  lemma ItemSpelling(cat: Catalogs, item: PlanItem, failures: Failures)
    requires ItemJustified(cat, item, failures)
    ensures item.Executable? && item.evidence != [] && GetTable(cat, item.table).Some?
    ensures forall e | e in item.evidence ::
              e.checkId in cat.checks && e.checkId in failures && cat.checks[e.checkId].table == item.table
  {
    hide LastSegment;
    assert item.evidence[0] in item.evidence;
  }

  /** For an unblocked plan over a complete suite run, every table is spelled by the contract's own name exactly
      when no schema-drift check of the suite is spelled with a dot: such a check always fails, and every other
      check can only fail under a plain spelling. */
  lemma SuitePlansPlainExactly(cat: Catalogs, specs: seq<CheckSpec>, loaded: Loaded, report: Report, plan: Plan)
    requires SuiteRun(cat, specs, loaded, report) && !Incomplete(report)
    requires PlanJustified(cat, plan, report) && !plan.blocked
    ensures PlainTables(cat, plan.items) <==> DriftIsPlain(specs)
  {
    hide ItemJustified;
    hide CheckOne;
    hide GetTable;
    if DriftIsPlain(specs) {
      forall i | i in plan.items && i.Executable?
        ensures GetTable(cat, i.table).Some? && GetTable(cat, i.table).value.table == i.table
      {
        PlainItem(cat, specs, loaded, report, i);
      }
    }
    if PlainTables(cat, plan.items) {
      forall s | s in specs && s.dimension == SchemaDrift ensures '.' !in s.table {
        if '.' in s.table {
          DottedDriftIsCited(cat, specs, loaded, report, plan, s);
          var item, e :| item in plan.items && item.Executable? && e in item.evidence && e.checkId == s.checkId;
          ItemSpelling(cat, item, FailuresOf(report));
          PlainSpelling(cat, item.table);
        }
      }
    }
  }

  lemma PlainItem(cat: Catalogs, specs: seq<CheckSpec>, loaded: Loaded, report: Report, item: PlanItem)
    requires SuiteRun(cat, specs, loaded, report) && DriftIsPlain(specs)
    requires ItemJustified(cat, item, FailuresOf(report))
    ensures item.Executable? && GetTable(cat, item.table).Some? && GetTable(cat, item.table).value.table == item.table
  {
    hide ItemJustified;
    hide CheckOne;
    hide GetTable;
    ItemSpelling(cat, item, FailuresOf(report));
    var id := item.evidence[0].checkId;
    assert item.evidence[0] in item.evidence;
    FailureIsSpec(cat, specs, loaded, report, id);
    if cat.checks[id].dimension != SchemaDrift {
      MeasuredIsPlain(cat, cat.checks[id], loaded);
    }
    PlainSpelling(cat, item.table);
  }

  lemma DottedDriftIsCited(cat: Catalogs, specs: seq<CheckSpec>, loaded: Loaded, report: Report, plan: Plan,
                           s: CheckSpec)
    requires SuiteRun(cat, specs, loaded, report) && !Incomplete(report)
    requires PlanJustified(cat, plan, report) && !plan.blocked
    requires s in specs && s.dimension == SchemaDrift && '.' in s.table
    ensures s.checkId in Cited(plan.items) && cat.checks[s.checkId] == s
  {
    hide ItemJustified;
    hide GetTable;
    var i: nat :| i < |specs| && specs[i] == s;
    assert report.checks[i] in report.checks;
    DriftResultOf(cat, s, loaded);
    assert report.checks[i] in FailedChecks(report);
    FailureById(FailedChecks(report), report.checks[i]);
  }

  /** A dotted drift check is an error where its table is not contracted, and a failure otherwise. */
  lemma DriftResultOf(cat: Catalogs, s: CheckSpec, loaded: Loaded)
    requires TablesKeyed(cat) && loaded.Keys <= cat.tables.Keys
    requires s.dimension == SchemaDrift && '.' in s.table
    ensures CheckOne(cat, s, loaded).Some? && CheckOne(cat, s, loaded).value.checkId == s.checkId
    ensures CheckOne(cat, s, loaded).value.status == (if GetTable(cat, s.table).None? then Error else Fail)
  {
    hide LastSegment;
    if GetTable(cat, s.table).Some? {
      DottedDriftFails(cat, s, loaded);
    }
  }

  // ---------- what follows for them ----------

  /** Recovery of a committed plan of the suite gives the original result back, every step included, exactly when
      no schema-drift check was spelled with a dot; otherwise it refuses a result that did commit. */
  lemma SuiteRecoveryInvertsCommit(cat: Catalogs, specs: seq<CheckSpec>, loaded: Loaded, snapshot: World, call: Call,
                                   clock: Clock, world: World, retry: Call)
    requires SuiteRun(cat, specs, loaded, call.report) && !Incomplete(call.report)
    requires EntryAccepts(cat, call) && AllExecutable(call.plan.items) && Body(cat, snapshot, call, clock).BodyReady?
    requires Shows(world, call, Body(cat, snapshot, call, clock).work)
    requires retry.plan == call.plan && retry.admission == call.admission
    requires call.resultId != "" && call.eventId != ""
    ensures Recover(cat, world, retry)
         == if DriftIsPlain(specs) then Recovered(ResultOf(call, Body(cat, snapshot, call, clock).work)) else Refused
  {
    hide Body;
    hide Recover;
    hide SuiteRun;
    hide PlainTables;
    hide Shows;
    AcceptedIsIntact(cat, call);
    AcceptedIsJustified(cat, call);
    hide EntryAccepts;
    SuitePlansPlainExactly(cat, specs, loaded, call.report, call.plan);
    RecoveryInvertsCommit(cat, snapshot, call, clock, world, retry);
  }

  lemma AcceptedIsJustified(cat: Catalogs, call: Call)
    requires EntryAccepts(cat, call)
    ensures PlanJustified(cat, call.plan, call.report) && !call.plan.blocked
  {
    hide ItemJustified;
  }

  /** An admitted plan of the suite mutates no contracted table twice when no drift check is spelled with a dot. */
  lemma SuitePlansStepOnce(cat: Catalogs, specs: seq<CheckSpec>, loaded: Loaded, report: Report, plan: Plan)
    requires SuiteRun(cat, specs, loaded, report) && DriftIsPlain(specs)
    requires PlanJustified(cat, plan, report) && NoConflicts(plan.items)
    ensures OneStepPerTable(plan.items)
  {
    hide ItemJustified;
    hide GetTable;
    var tables := MutatingTables(plan.items);
    forall t | t in tables ensures '.' !in t {
      var p: nat :| p < |tables| && tables[p] == t;
      var i := MutatingItem(plan.items, p);
      assert plan.items[i] in plan.items;
      PlainItem(cat, specs, loaded, report, plan.items[i]);
      PlainSpelling(cat, t);
    }
    PlainSpellingsNeverConflict(plan.items);
  }

  /** So its run changes exactly the admitted rows in any order, given that no fill sits under a join. */
  lemma SuiteRunsAreOrderly(c: Commit, specs: seq<CheckSpec>, loaded: Loaded)
    requires Sound(c) && SuiteRun(c.cat, specs, loaded, c.call.report) && DriftIsPlain(specs)
    requires NoConflicts(c.call.plan.items) && NoFillUnderJoin(StatementsOf(c.work.steps))
    ensures NoClash(multiset(StatementsOf(c.work.steps)))
  {
    hide Body;
    hide NoClash;
    hide NoConflicts;
    hide OneStepPerTable;
    AcceptedIsJustified(c.cat, c.call);
    AcceptedIsExecutable(c.cat, c.call);
    hide EntryAccepts;
    BodySteps(c.cat, c.snapshot, c.call, c.clock);
    SuitePlansStepOnce(c.cat, specs, loaded, c.call.report, c.call.plan);
    AdmittedPlansDoNotClash(c.cat, c.call.plan.items, c.call.runId, c.work.steps);
  }

  // ---------- orphans across processes ----------

  /** The compiled sample of a referential check names the table it joins, and the policy snapshot contains it. */
  lemma SamplesFixJoins(a: Catalogs, b: Catalogs, s: CheckSpec, t: CheckSpec)
    requires P.BuiltIn(a, s) && P.BuiltIn(b, t) && DumpSpec(s) == DumpSpec(t)
    requires s.dimension == ReferentialIntegrity
    ensures P.ForeignKeyOf(a, s).Some? && P.ForeignKeyOf(b, t).Some?
    ensures
      var x, y := GetTable(a, P.ForeignKeyOf(a, s).value.refTable), GetTable(b, P.ForeignKeyOf(b, t).value.refTable);
      x.Some? && y.Some? && x.value.Qualified() == y.value.Qualified()
  {
    assert s.sample == t.sample;
  }

  /** What an orphans item joins is the contract its cited check's own foreign key names. */
  lemma OrphansJoinForeignKey(cat: Catalogs, item: PlanItem, failures: Failures)
    requires Keyed(cat) && ItemJustified(cat, item, failures) && item.actionId == QuarantineOrphans
    requires P.BuiltIn(cat, cat.checks[item.evidence[0].checkId])
    requires P.ForeignKeyOf(cat, cat.checks[item.evidence[0].checkId]).Some?
    ensures RefContract(cat, item)
         == GetTable(cat, P.ForeignKeyOf(cat, cat.checks[item.evidence[0].checkId]).value.refTable)
  {
    var spec := cat.checks[item.evidence[0].checkId];
    JustifiedItemOk(cat, item, failures);
    P.DerivedValid(cat, spec, QuarantineOrphans);
    hide ParamsOk;
    hide LastSegment;
  }

  /** Every orphans item of the plan cites a referential check first. */
  ghost predicate OrphansCiteReferential(cat: Catalogs, items: seq<PlanItem>) {
    forall i | i in items && i.Executable? && i.actionId == QuarantineOrphans && i.evidence != [] ::
      i.evidence[0].checkId in cat.checks && cat.checks[i.evidence[0].checkId].dimension == ReferentialIntegrity
  }

  lemma OneJoinAlike(a: Catalogs, b: Catalogs, item: PlanItem, fa: Failures, fb: Failures)
    requires Keyed(a) && Keyed(b) && Registries.AllBuilt(a) && Registries.AllBuilt(b)
    requires ItemJustified(a, item, fa) && ItemJustified(b, item, fb) && item.actionId == QuarantineOrphans
    requires CurrentItemPolicy(a, item).Some? && CurrentItemPolicy(a, item) == CurrentItemPolicy(b, item)
    requires item.evidence != [] && item.evidence[0].checkId in a.checks
    requires a.checks[item.evidence[0].checkId].dimension == ReferentialIntegrity
    ensures item.Executable? && RefContract(a, item).Some? && RefContract(b, item).Some?
    ensures RefContract(a, item).value.Qualified() == RefContract(b, item).value.Qualified()
  {
    hide P.BuiltIn;
    hide CurrentItemPolicy;
    hide RefContract;
    JustifiedIsExecutable(a, item, fa);
    SnapshotBinds(a, b, item);
    hide ItemJustified;
    var id := item.evidence[0].checkId;
    assert P.BuiltIn(a, a.checks[id]) && P.BuiltIn(b, b.checks[id]);
    SamplesFixJoins(a, b, a.checks[id], b.checks[id]);
    OrphansJoinForeignKey(a, item, fa);
    OrphansJoinForeignKey(b, item, fb);
  }

  /** Between processes whose registries hold compiled checks, equal policy snapshots settle the joins of every
      orphans item that cites a referential check: the compiled sample in the snapshot names the joined table. */
  lemma RegisteredJoinsAlike(a: Catalogs, b: Catalogs, x: Call, y: Call)
    requires Keyed(a) && Keyed(b) && Registries.AllBuilt(a) && Registries.AllBuilt(b)
    requires EntryAccepts(a, x) && EntryAccepts(b, y) && x.plan == y.plan
    requires OrphansCiteReferential(a, x.plan.items)
    ensures JoinsAlike(a, b, x.plan.items)
  {
    hide Keyed;
    hide Registries.AllBuilt;
    hide RefContract;
    AcceptedFacts(a, x);
    AcceptedFacts(b, y);
    hide EntryAccepts;
    var items := x.plan.items;
    forall i | i in items && i.Executable? && i.actionId == QuarantineOrphans
      ensures RefContract(a, i).Some? && RefContract(b, i).Some?
              && RefContract(a, i).value.Qualified() == RefContract(b, i).value.Qualified()
    {
      var k: nat :| k < |items| && items[k] == i;
      PoliciesAlike(a, b, items, k);
      ItemSpelling(a, i, FailuresOf(x.report));
      OneJoinAlike(a, b, i, FailuresOf(x.report), FailuresOf(y.report));
    }
  }

  /** A retry in any process with an equal policy snapshot recovers the committed result of such a plan exactly
      when the plan spells its tables plainly. */
  lemma RegisteredRecoverable(c: Commit, w: Worker)
    requires Sound(c) && RetryOf(w, c) && Keyed(c.cat) && Keyed(w.cat)
    requires Registries.AllBuilt(c.cat) && Registries.AllBuilt(w.cat)
    requires OrphansCiteReferential(c.cat, c.call.plan.items)
    ensures Recoverable(w, c) <==> PlainTables(c.cat, c.call.plan.items)
  {
    hide Body;
    hide EntryAccepts;
    hide Recoverable;
    hide Registries.AllBuilt;
    hide Keyed;
    hide JoinsAlike;
    RecoverableAcrossProcesses(c, w);
    RegisteredJoinsAlike(c.cat, w.cat, c.call, w.call);
  }

  /** Retry agreement for plans of the suite, without a condition on the plan: an uninterrupted later call in any
      process with the same payloads and an equal policy snapshot has returned the original result after three
      moves of its own exactly when no schema-drift check of the suite was spelled with a dot. */
  lemma SuiteRetryAgreement(states: seq<Global>, actions: seq<Action>, start: nat, end: nat, i: nat, k: nat,
                            specs: seq<CheckSpec>, loaded: Loaded)
    requires Execution(states, actions) && start <= end < |states|
    requires i in states[start].workers && k < |states[start].commits|
    requires states[start].workers[i].phase == Starting && RetryOf(states[start].workers[i], states[start].commits[k])
    requires !Blank(states[start].commits[k].call.admission.admissionId)
    requires states[start].commits[k].call.resultId != "" && states[start].commits[k].call.eventId != ""
    requires forall n | start <= n < end :: !Interrupts(actions[n], i)
    requires OwnMoves(actions[start..end], i) >= 3
    requires
      var c, w := states[start].commits[k], states[start].workers[i];
      && SuiteRun(c.cat, specs, loaded, c.call.report) && !Incomplete(c.call.report)
      && Keyed(c.cat) && Keyed(w.cat) && Registries.AllBuilt(c.cat) && Registries.AllBuilt(w.cat)
      && OrphansCiteReferential(c.cat, c.call.plan.items)
    ensures i in states[end].workers && Finished(states[end].workers[i].phase)
    ensures states[end].workers[i].phase
         == Returned(ResultOf(states[start].commits[k].call, states[start].commits[k].work))
       <==> DriftIsPlain(specs)
  {
    hide Execution;
    hide Recoverable;
    hide PlainTables;
    hide SuiteRun;
    hide Keyed;
    hide Registries.AllBuilt;
    hide OrphansCiteReferential;
    hide Invariant;
    hide EntryAccepts;
    var c, w := states[start].commits[k], states[start].workers[i];
    InvariantHolds(states, actions, start);
    CommitOf(states[start], k);
    RegisteredRecoverable(c, w);
    AcceptedIsJustified(c.cat, c.call);
    SuitePlansPlainExactly(c.cat, specs, loaded, c.call.report, c.call.plan);
    RetryAgreement(states, actions, start, end, i, k);
  }

  // ---------- the conflict check ----------

  /** Two checks mutate one contracted table under two spellings. */
  predicate SpelledTwice(cat: Catalogs, a: string, x: ActionId, b: string, y: ActionId)
    requires a in cat.checks && b in cat.checks
  {
    && Mutates(x) && Mutates(y)
    && DeriveParams(cat, x, cat.checks[a]).Some? && DeriveParams(cat, y, cat.checks[b]).Some?
    && LastSegment(cat.checks[a].table) == LastSegment(cat.checks[b].table)
    && cat.checks[a].table != cat.checks[b].table
  }

  /** Checks from which mutating items can be derived spell one contracted table one way. */
  ghost predicate OneSpelling(cat: Catalogs) {
    forall a, b, x, y | a in cat.checks && b in cat.checks :: !SpelledTwice(cat, a, x, b, y)
  }

  lemma MutatingDerives(cat: Catalogs, items: seq<PlanItem>, failures: Failures, p: nat) returns (id: string,
                        action: ActionId)
    requires forall i | i in items && i.Executable? :: ItemJustified(cat, i, failures)
    requires p < |MutatingTables(items)|
    ensures id in cat.checks && Mutates(action) && DeriveParams(cat, action, cat.checks[id]).Some?
    ensures cat.checks[id].table == MutatingTables(items)[p]
  {
    hide DeriveParams;
    var i := MutatingItem(items, p);
    assert items[i] in items;
    assert items[i].evidence[0] in items[i].evidence;
    id, action := items[i].evidence[0].checkId, items[i].actionId;
  }

  /** The conflict check catches every table that a justified plan mutates twice exactly when mutating checks
      spell one contracted table one way. */
  lemma ConflictCheckExactly(cat: Catalogs)
    requires Keyed(cat)
    ensures (forall plan: Plan, report: Report | PlanJustified(cat, plan, report) && NoConflicts(plan.items) ::
               OneStepPerTable(plan.items))
       <==> OneSpelling(cat)
  {
    hide DeriveParams;
    hide PlanJustified;
    hide LastSegment;
    if OneSpelling(cat) {
      forall plan: Plan, report: Report | PlanJustified(cat, plan, report) && NoConflicts(plan.items)
        ensures OneStepPerTable(plan.items)
      {
        SpelledOnce(cat, plan, report);
      }
    } else {
      var plan, report := SomePlanEscapes(cat);
    }
  }

  lemma SomePlanEscapes(cat: Catalogs) returns (plan: Plan, report: Report)
    requires Keyed(cat) && !OneSpelling(cat)
    ensures PlanJustified(cat, plan, report) && NoConflicts(plan.items) && !OneStepPerTable(plan.items)
  {
    hide SpelledTwice;
    hide PlanJustified;
    var a, b, x, y :| a in cat.checks && b in cat.checks && SpelledTwice(cat, a, x, b, y);
    plan, report := EscapingPlan(cat, a, x, b, y);
  }

  lemma SpelledOnce(cat: Catalogs, plan: Plan, report: Report)
    requires OneSpelling(cat) && PlanJustified(cat, plan, report) && NoConflicts(plan.items)
    ensures OneStepPerTable(plan.items)
  {
    hide DeriveParams;
    hide ItemJustified;
    hide LastSegment;
    var tables := MutatingTables(plan.items);
    var ends := Map(tables, (t: string) => LastSegment(t));
    forall p, q | 0 <= p < q < |ends| ensures ends[p] != ends[q] {
      var a, x := MutatingDerives(cat, plan.items, FailuresOf(report), p);
      var b, y := MutatingDerives(cat, plan.items, FailuresOf(report), q);
      assert tables[p] != tables[q] && !SpelledTwice(cat, a, x, b, y);
    }
  }

  /** The item that re-derivation accepts for one failed check. */
  function ItemOf(cat: Catalogs, id: string, action: ActionId): PlanItem
    requires id in cat.checks && DeriveParams(cat, action, cat.checks[id]).Some?
  {
    var s := cat.checks[id];
    Executable(Candidate(0), action, s.table, Freeze(DeriveParams(cat, action, s).value), [Evidence(id, s.contractId)],
               TargetSet(0, ListDigest([])), ListDigest([]))
  }

  function FailedResult(s: CheckSpec): CheckResult {
    CheckResult(s.checkId, s.table, Fail, 1, 1, s.contractId)
  }

  /** Two failed checks, one item each. */
  lemma EscapingPlan(cat: Catalogs, a: string, x: ActionId, b: string, y: ActionId) returns (plan: Plan, report: Report)
    requires Keyed(cat) && a in cat.checks && b in cat.checks && SpelledTwice(cat, a, x, b, y)
    ensures PlanJustified(cat, plan, report) && NoConflicts(plan.items) && !OneStepPerTable(plan.items)
  {
    hide LastSegment;
    hide DeriveParams;
    hide ItemJustified;
    hide NoConflicts;
    hide OneStepPerTable;
    var s, t := cat.checks[a], cat.checks[b];
    var i, j := ItemOf(cat, a, x), ItemOf(cat, b, y);
    report := Report("run", None, None, [FailedResult(s), FailedResult(t)]);
    plan := Plan("plan", "run", ListDigest([]), ListDigest([]), [i, j], false, [], "env", ListDigest([]));
    TwoFailures(report, FailedResult(s), FailedResult(t));
    ItemOfJustified(cat, a, x, FailuresOf(report));
    ItemOfJustified(cat, b, y, FailuresOf(report));
    TwoApart(i, j);
    TwoItems(i, j);
  }

  lemma ItemOfJustified(cat: Catalogs, id: string, action: ActionId, failures: Failures)
    requires id in cat.checks && DeriveParams(cat, action, cat.checks[id]).Some? && Governed(action)
    requires id in failures && failures[id].contractId == cat.checks[id].contractId
    requires failures[id].table == cat.checks[id].table
    ensures ItemJustified(cat, ItemOf(cat, id, action), failures)
  {
    hide DeriveParams;
  }

  lemma TwoApart(i: PlanItem, j: PlanItem)
    requires i.Executable? && j.Executable? && |i.evidence| == 1 && |j.evidence| == 1
    requires i.evidence[0].checkId != j.evidence[0].checkId
    ensures Cited([i, j]) == {i.evidence[0].checkId, j.evidence[0].checkId} && IdentitiesDistinct([i, j])
  {
    assert i in [i, j] && j in [i, j];
    assert i.evidence == [i.evidence[0]] && j.evidence == [j.evidence[0]];
    assert i.evidence[0] in i.evidence && j.evidence[0] in j.evidence;
    assert i.evidence[0] in multiset(i.evidence) && i.evidence[0] !in multiset(j.evidence);
  }

  lemma TwoFailures(report: Report, f: CheckResult, g: CheckResult)
    requires report.checks == [f, g] && f.status == Fail && g.status == Fail && f.checkId != g.checkId
    ensures FailuresOf(report) == map[f.checkId := f, g.checkId := g]
  {
    FilterAll([f, g], (c: CheckResult) => c.status == Fail);
    assert [f, g][..1] == [f] && [f][..0] == [];
    assert ById([]) == map[] && ById([f]) == map[f.checkId := f];
    assert ById([f, g]) == map[f.checkId := f][g.checkId := g];
  }

  lemma TwoItems(i: PlanItem, j: PlanItem)
    requires i.Executable? && j.Executable? && Mutates(i.actionId) && Mutates(j.actionId)
    requires |i.evidence| == 1 && |j.evidence| == 1 && i.evidence[0].checkId != j.evidence[0].checkId
    requires i.table != j.table && LastSegment(i.table) == LastSegment(j.table)
    ensures NoConflicts([i, j]) && !OneStepPerTable([i, j])
  {
    hide LastSegment;
    var items := [i, j];
    assert items[..1] == [i] && items[..1][..0] == [];
    assert Map(i.evidence, (e: Evidence) => e.checkId) == [i.evidence[0].checkId];
    assert Map(j.evidence, (e: Evidence) => e.checkId) == [j.evidence[0].checkId];
    assert CheckIdsOf(items[..1]) == [] + [i.evidence[0].checkId];
    assert CheckIdsOf(items) == [i.evidence[0].checkId] + [j.evidence[0].checkId];
    assert MutatingTables(items[..1]) == [] + [i.table];
    assert MutatingTables(items) == [i.table] + [j.table];
    var ends := Map(MutatingTables(items), (t: string) => LastSegment(t));
    assert ends[0] == ends[1];
  }
}
