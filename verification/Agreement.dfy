/** The compiler and the re-derivation were written separately; here they are shown to agree, also across
    the JSON dump and revival of a plan between Airflow tasks. */
module Agreement {
  import opened Prelude
  import opened Contracts
  import opened Actions
  import opened CheckPolicies
  import opened Planning

  // ---------- the shape of an unblocked plan ----------

  lemma {:induction false} NoReasons(items: seq<PlanItem>)
    ensures Reasons(items) == [] <==> AllExecutable(items)
  {
    if items != [] {
      var n := |items| - 1;
      NoReasons(items[..n]);
      assert items[n] in items;
      assert forall i | i in items :: i in items[..n] || i == items[n];
      assert |Reasons(items)| == |Reasons(items[..n])| + (if items[n].NonExecutable? then 1 else 0);
    }
  }

  lemma {:induction false} CoverageIsCited(items: seq<PlanItem>, failures: Failures)
    requires AllExecutable(items)
    ensures CoveredBy(items, failures) == Cited(items)
  {
    if items != [] {
      var n := |items| - 1;
      assert items == items[..n] + [items[n]];
      CoverageIsCited(items[..n], failures);
    }
  }

  /** What an executable item tells about the candidate it came from. */
  lemma CompiledFrom(cat: Catalogs, index: nat, requested: CandidateAction, repeated: bool,
                     failures: Failures, resolve: Resolver)
    requires CompileAction(cat, index, requested, repeated, failures, resolve).Executable?
    ensures
      var item := CompileAction(cat, index, requested, repeated, failures, resolve);
      var justified := Justify(cat, requested.actionId, requested.evidence, failures);
      && !repeated && justified.Ok? && justified.value.specs != []
      && item.actionId == requested.actionId && item.evidence == requested.evidence
      && (forall s | s in justified.value.specs :: s.table == item.table)
      && item.params == Freeze(justified.value.params)
      && ItemPolicy(cat, justified.value.specs, requested.actionId) == Some(item.policyFingerprint)
      && resolve(index, item.actionId, item.table, justified.value.params) == Some(item.targetSet)
  {
    hide Justify;
    hide ItemPolicy;
    JustifiedSpecs(cat, requested.actionId, requested.evidence, failures);
  }

  /** An unblocked plan is one executable item per candidate, citing exactly the failed checks. */
  lemma UnblockedShape(cat: Catalogs, report: Report, proposal: Proposal, resolve: Resolver, planId: string,
                       env: string)
    requires !Compile(cat, report, proposal, resolve, planId, env).blocked
    ensures !Incomplete(report)
    ensures Compile(cat, report, proposal, resolve, planId, env).items
         == CandidateItems(cat, proposal.actions, FailuresOf(report), resolve)
    ensures AllExecutable(Compile(cat, report, proposal, resolve, planId, env).items)
    ensures FailuresOf(report).Keys <= Cited(Compile(cat, report, proposal, resolve, planId, env).items)
  {
    hide CompileAction;
    var failures := FailuresOf(report);
    var plan := Compile(cat, report, proposal, resolve, planId, env);
    NoReasons(plan.items);
    var items := CandidateItems(cat, proposal.actions, failures, resolve);
    var ids := Ids(FailedChecks(report));
    IdsAreKeys(FailedChecks(report));
    var omitted := Omitted(ids, failures, CoveredBy(items, failures));
    OmittedMeaning(ids, failures, CoveredBy(items, failures));
    LastBlocks(items, NonExecutable(OmittedFailures, omitted, OmittedCoverage));
    CoverageIsCited(items, failures);
  }

  lemma LastBlocks(items: seq<PlanItem>, blocked: PlanItem)
    requires blocked.NonExecutable?
    ensures !AllExecutable(items + [blocked])
  {
    assert (items + [blocked])[|items|] in items + [blocked];
  }

  lemma CompiledAt(cat: Catalogs, actions: seq<CandidateAction>, failures: Failures, resolve: Resolver, item: PlanItem)
    returns (i: nat)
    requires item in CandidateItems(cat, actions, failures, resolve)
    ensures i < |actions|
    ensures item == CompileAction(cat, i, actions[i], Repeated(actions, i), failures, resolve)
  {
    var items := CandidateItems(cat, actions, failures, resolve);
    i :| 0 <= i < |items| && items[i] == item;
  }

  /** The failed checks agree with their declarations, as they do in a report the suite produced. */
  ghost predicate SuiteReport(cat: Catalogs, report: Report) {
    forall id | id in FailuresOf(report) ::
      && id in cat.checks
      && FailuresOf(report)[id].table == cat.checks[id].table
      && FailuresOf(report)[id].contractId == cat.checks[id].contractId
  }

  /** A compiled item passes re-derivation exactly when the failed checks it cites agree with their
      declarations. */
  lemma CompiledItemJustified(cat: Catalogs, index: nat, requested: CandidateAction, repeated: bool,
                              failures: Failures, resolve: Resolver)
    requires CompileAction(cat, index, requested, repeated, failures, resolve).Executable?
    ensures
      ItemJustified(cat, CompileAction(cat, index, requested, repeated, failures, resolve), failures)
      <==> forall e | e in requested.evidence ::
             && e.checkId in cat.checks && e.checkId in failures
             && failures[e.checkId].table == cat.checks[e.checkId].table
             && failures[e.checkId].contractId == cat.checks[e.checkId].contractId
  {
    hide DeriveParams;
    hide CompileAction;
    var item := CompileAction(cat, index, requested, repeated, failures, resolve);
    CompiledFrom(cat, index, requested, repeated, failures, resolve);
    var j := Justify(cat, requested.actionId, requested.evidence, failures).value;
    JustifyMeaning(cat, requested.actionId, requested.evidence, failures, j.params);
    JustifiedSpecs(cat, requested.actionId, requested.evidence, failures);
    assert requested.evidence[0] in requested.evidence;
    forall e | e in requested.evidence ensures cat.checks[e.checkId].table == item.table {
      var k :| 0 <= k < |requested.evidence| && requested.evidence[k] == e;
      assert j.specs[k] in j.specs;
    }
  }

  lemma DistinctCandidates(cat: Catalogs, actions: seq<CandidateAction>, failures: Failures, resolve: Resolver)
    requires AllExecutable(CandidateItems(cat, actions, failures, resolve))
    ensures IdentitiesDistinct(CandidateItems(cat, actions, failures, resolve))
  {
    hide CompileAction;
    var items := CandidateItems(cat, actions, failures, resolve);
    forall i, j | 0 <= i < j < |items| ensures ItemIdentity(items[i]) != ItemIdentity(items[j]) {
      assert items[i] in items && items[j] in items;
      CompiledFrom(cat, i, actions[i], Repeated(actions, i), failures, resolve);
      CompiledFrom(cat, j, actions[j], Repeated(actions, j), failures, resolve);
    }
  }

  /** The failed check agrees with its declaration. */
  ghost predicate AsDeclared(cat: Catalogs, failures: Failures, id: string) {
    && id in cat.checks && id in failures
    && failures[id].table == cat.checks[id].table && failures[id].contractId == cat.checks[id].contractId
  }

  /** A compiled item cites failed checks, and passes re-derivation exactly when they agree with their
      declarations. */
  lemma ItemAgrees(cat: Catalogs, actions: seq<CandidateAction>, failures: Failures, resolve: Resolver, item: PlanItem)
    requires item in CandidateItems(cat, actions, failures, resolve) && item.Executable?
    ensures forall e | e in item.evidence :: e.checkId in failures
    ensures ItemJustified(cat, item, failures) <==>
      forall e | e in item.evidence :: AsDeclared(cat, failures, e.checkId)
  {
    hide CompileAction;
    hide ItemJustified;
    var i := CompiledAt(cat, actions, failures, resolve, item);
    CompiledFrom(cat, i, actions[i], Repeated(actions, i), failures, resolve);
    JustifiedSpecs(cat, actions[i].actionId, actions[i].evidence, failures);
    forall e | e in actions[i].evidence ensures e.checkId in failures {
      var k :| 0 <= k < |actions[i].evidence| && actions[i].evidence[k] == e;
    }
    CompiledItemJustified(cat, i, actions[i], Repeated(actions, i), failures, resolve);
  }

  /** Every unblocked plan passes the independent re-derivation exactly when the report's failed checks
      agree with the declared checks on table and contract, which the report's fingerprint does not bind. */
  lemma CompilerAndVerifierAgree(cat: Catalogs, report: Report, proposal: Proposal, resolve: Resolver,
                                 planId: string, env: string)
    requires !Compile(cat, report, proposal, resolve, planId, env).blocked
    ensures PlanJustified(cat, Compile(cat, report, proposal, resolve, planId, env), report)
       <==> SuiteReport(cat, report)
  {
    hide CompileAction;
    hide ItemJustified;
    var plan := Compile(cat, report, proposal, resolve, planId, env);
    var actions, failures := proposal.actions, FailuresOf(report);
    UnblockedShape(cat, report, proposal, resolve, planId, env);
    DistinctCandidates(cat, actions, failures, resolve);
    CitedAreFailures(cat, actions, failures, resolve);
    hide Compile;
    hide CandidateItems;
    forall item | item in plan.items
      ensures ItemJustified(cat, item, failures) <==>
        forall e | e in item.evidence :: AsDeclared(cat, failures, e.checkId)
      ensures forall e | e in item.evidence :: e.checkId in failures
    {
      ItemAgrees(cat, actions, failures, resolve, item);
    }
    if PlanJustified(cat, plan, report) {
      forall id | id in failures ensures AsDeclared(cat, failures, id) {
        assert id in Cited(plan.items);
      }
    }
    if SuiteReport(cat, report) {
      forall item | item in plan.items ensures ItemJustified(cat, item, failures) {
      }
    }
  }

  lemma CitedAreFailures(cat: Catalogs, actions: seq<CandidateAction>, failures: Failures, resolve: Resolver)
    requires AllExecutable(CandidateItems(cat, actions, failures, resolve))
    ensures Cited(CandidateItems(cat, actions, failures, resolve)) <= failures.Keys
  {
    hide CompileAction;
    var items := CandidateItems(cat, actions, failures, resolve);
    forall id | id in Cited(items) ensures id in failures {
      var item, e :| item in items && item.Executable? && e in item.evidence && e.checkId == id;
      var i := CompiledAt(cat, actions, failures, resolve, item);
      CompiledFrom(cat, i, actions[i], Repeated(actions, i), failures, resolve);
      JustifiedSpecs(cat, actions[i].actionId, actions[i].evidence, failures);
      var k :| 0 <= k < |actions[i].evidence| && actions[i].evidence[k] == e;
    }
  }

  // ---------- the policy snapshot ----------

  /** The snapshot taken at compilation is the one recomputed at every later seam. */
  lemma CompiledPolicyCurrent(cat: Catalogs, index: nat, requested: CandidateAction, repeated: bool,
                              failures: Failures, resolve: Resolver)
    requires CompileAction(cat, index, requested, repeated, failures, resolve).Executable?
    ensures
      var item := CompileAction(cat, index, requested, repeated, failures, resolve);
      CurrentItemPolicy(cat, item) == Some(item.policyFingerprint)
  {
    hide CompileAction;
    hide ItemPolicy;
    CompiledFrom(cat, index, requested, repeated, failures, resolve);
    JustifiedSpecs(cat, requested.actionId, requested.evidence, failures);
    var specs := Justify(cat, requested.actionId, requested.evidence, failures).value.specs;
    forall e | e in requested.evidence ensures e.checkId in cat.checks {
      var k :| 0 <= k < |requested.evidence| && requested.evidence[k] == e;
    }
    assert SpecsOf(cat, requested.evidence).value == specs;
  }

  lemma {:induction false} PoliciesCurrent(cat: Catalogs, items: seq<PlanItem>)
    requires forall i | i in items && i.Executable? :: CurrentItemPolicy(cat, i) == Some(i.policyFingerprint)
    ensures CurrentItemPolicies(cat, items) == Some(ItemPolicies(items))
  {
    if items != [] {
      var n := |items| - 1;
      assert items[n] in items;
      assert forall i | i in items[..n] :: i in items;
      PoliciesCurrent(cat, items[..n]);
      assert ItemPolicies(items[..n]) + [] == ItemPolicies(items[..n]);
    }
  }

  lemma CompiledSnapshotCurrent(cat: Catalogs, report: Report, proposal: Proposal, resolve: Resolver,
                                planId: string, env: string)
    requires !Compile(cat, report, proposal, resolve, planId, env).blocked
    ensures
      var plan := Compile(cat, report, proposal, resolve, planId, env);
      CurrentPolicy(cat, plan) == Some(plan.policyFingerprint)
  {
    hide CompileAction;
    hide CurrentItemPolicy;
    var plan := Compile(cat, report, proposal, resolve, planId, env);
    var failures := FailuresOf(report);
    UnblockedShape(cat, report, proposal, resolve, planId, env);
    forall item | item in plan.items ensures CurrentItemPolicy(cat, item) == Some(item.policyFingerprint) {
      var i := CompiledAt(cat, proposal.actions, failures, resolve, item);
      CompiledPolicyCurrent(cat, i, proposal.actions[i], Repeated(proposal.actions, i), failures, resolve);
    }
    PoliciesCurrent(cat, plan.items);
  }

  // ---------- dump and revival ----------

  /** A value JSON keeps as it is: no date and no tuple inside. */
  predicate Plain(v: Value) {
    match v
    case Date(_) => false
    case Tuple(_) => false
    case List(items) => forall i | i in items :: Plain(i)
    case _ => true
  }

  /** A frozen parameter that a dump and a revival give back. */
  predicate JsonStable(v: Value) {
    match v
    case Date(_) => false
    case List(_) => false
    case Tuple(items) => forall i | i in items :: Plain(i)
    case _ => true
  }

  lemma {:induction false} DumpKeepsPlain(v: Value)
    ensures DumpValue(v) == v <==> Plain(v)
    decreases v, 1
  {
    match v
    case List(items) => DumpKeepsAll(items);
    case Tuple(items) =>
    case _ =>
  }

  lemma {:induction false} DumpKeepsAll(items: seq<Value>)
    ensures DumpValues(items) == items <==> forall i | i in items :: Plain(i)
    decreases items, 0
  {
    if items != [] {
      DumpKeepsPlain(items[0]);
      DumpKeepsAll(items[1..]);
      assert items == [items[0]] + items[1..];
    }
  }

  lemma ReviveValue(v: Value)
    ensures FreezeValue(DumpValue(v)) == v <==> JsonStable(v)
  {
    if v.Tuple? {
      DumpKeepsAll(v.items);
    }
  }

  /** One trip through XCom. */
  function Revived(plan: Plan): Plan {
    plan.(items := Map(plan.items, (i: PlanItem) => ReviveItem(DumpItem(i))))
  }

  predicate ItemStable(item: PlanItem) {
    item.Executable? ==> forall k | k in item.params :: JsonStable(item.params[k])
  }

  lemma ReviveParams(params: Params)
    ensures Freeze(Dump(params)) == params <==> forall k | k in params :: JsonStable(params[k])
  {
    var back := Freeze(Dump(params));
    assert back.Keys == params.Keys;
    forall k | k in params ensures back[k] == params[k] <==> JsonStable(params[k]) {
      ReviveValue(params[k]);
    }
  }

  lemma ReviveStable(item: PlanItem)
    ensures ReviveItem(DumpItem(item)) == item <==> ItemStable(item)
  {
    if item.Executable? {
      ReviveParams(item.params);
    }
  }

  /** A plan comes back from XCom unchanged exactly when no parameter holds a date or a nested tuple. */
  lemma RevivedIsSame(plan: Plan)
    ensures Revived(plan) == plan <==> forall i | i in plan.items :: ItemStable(i)
  {
    var back := Revived(plan).items;
    forall k | 0 <= k < |plan.items| ensures back[k] == plan.items[k] <==> ItemStable(plan.items[k]) {
      ReviveStable(plan.items[k]);
    }
    if Revived(plan) == plan {
      forall i | i in plan.items ensures ItemStable(i) {
        var k :| 0 <= k < |plan.items| && plan.items[k] == i;
        assert back[k] == plan.items[k];
      }
    } else {
      assert back != plan.items;
      var k :| 0 <= k < |plan.items| && back[k] != plan.items[k];
      assert plan.items[k] in plan.items;
    }
  }

  lemma {:induction false} DumpTwice(v: Value)
    ensures DumpValue(DumpValue(v)) == DumpValue(v)
    ensures DumpValue(FreezeValue(DumpValue(v))) == DumpValue(v)
    decreases v, 1
  {
    match v
    case List(items) => DumpAllTwice(items);
    case Tuple(items) => DumpAllTwice(items);
    case _ =>
  }

  lemma {:induction false} DumpAllTwice(items: seq<Value>)
    ensures DumpValues(DumpValues(items)) == DumpValues(items)
    decreases items, 0
  {
    if items != [] {
      DumpTwice(items[0]);
      DumpAllTwice(items[1..]);
      assert DumpValues(items)[1..] == DumpValues(items[1..]);
    }
  }

  lemma DumpRevived(item: PlanItem)
    ensures DumpItem(ReviveItem(DumpItem(item))) == DumpItem(item)
  {
    if item.Executable? {
      forall k | k in item.params ensures Dump(Freeze(Dump(item.params)))[k] == Dump(item.params)[k] {
        DumpTwice(item.params[k]);
      }
      assert Dump(Freeze(Dump(item.params))) == Dump(item.params);
    }
  }

  /** The plan's own fingerprint never notices the trip: it covers the dumped parameters. */
  lemma RevivedStaysIntact(plan: Plan)
    ensures PlanFingerprint(Revived(plan)) == PlanFingerprint(plan)
    ensures PlanIntact(Revived(plan)) <==> PlanIntact(plan)
  {
    forall k | 0 <= k < |plan.items|
      ensures DumpItem(Revived(plan).items[k]) == DumpItem(plan.items[k])
    {
      DumpRevived(plan.items[k]);
    }
    assert DumpItems(Revived(plan).items) == DumpItems(plan.items);
  }

  lemma SameDerivation(cat: Catalogs, a: PlanItem, b: PlanItem, failures: Failures)
    requires ItemJustified(cat, a, failures) && ItemJustified(cat, b, failures)
    requires a.evidence == b.evidence && a.actionId == b.actionId
    ensures a.params == b.params
  {
    hide DeriveParams;
    assert a.evidence[0] in a.evidence;
  }

  /** Re-derivation does notice: a plan that passes before the trip passes after it exactly when every
      parameter is JSON-stable. */
  lemma RevivedVerifiesExactly(cat: Catalogs, plan: Plan, report: Report)
    requires PlanJustified(cat, plan, report)
    ensures PlanJustified(cat, Revived(plan), report) <==> forall i | i in plan.items :: ItemStable(i)
  {
    hide PlanJustified;
    hide ItemStable;
    hide Revived;
    RevivedIsSame(plan);
    if PlanJustified(cat, Revived(plan), report) {
      forall i | i in plan.items ensures ItemStable(i) {
        var k: nat :| k < |plan.items| && plan.items[k] == i;
        RevivedItemStable(cat, plan, report, k);
      }
    }
  }

  lemma RevivedItemStable(cat: Catalogs, plan: Plan, report: Report, k: nat)
    requires k < |plan.items|
    requires PlanJustified(cat, plan, report) && PlanJustified(cat, Revived(plan), report)
    ensures ItemStable(plan.items[k])
  {
    hide ItemJustified;
    hide IdentitiesDistinct;
    var item := plan.items[k];
    var back := Revived(plan).items[k];
    assert item in plan.items && back in Revived(plan).items;
    if item.Executable? {
      SameDerivation(cat, item, back, FailuresOf(report));
      ReviveStable(item);
    }
  }

  /** Only `null_fill` takes a value that JSON may change: what every other action derives survives. */
  lemma OtherActionsAreStable(cat: Catalogs, action: ActionId, table: string, params: Params)
    requires ParamsOk(cat, action, table, params) && action != NullFill && Governed(action)
    requires CheckIdKey in params ==> params[CheckIdKey].Text?
    ensures forall k | k in params :: JsonStable(Freeze(params)[k])
  {
    var contract := GetTable(cat, table).value;
    forall k | k in params ensures JsonStable(Freeze(params)[k]) {
      assert k in Required(action);
      if k != CheckIdKey {
        assert IdentifierOk(cat, contract, params, k);
      }
    }
  }
}
