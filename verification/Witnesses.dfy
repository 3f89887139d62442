/** Inputs on which the promises that carry a condition fail: a registry with a schema-drift check spelled with its
    schema, taken through suite, review, approval, admission and apply; a fill with a date; and an orphans policy
    on a check that is not referential. */
module Witnesses {
  import opened Prelude
  import opened Sql
  import opened BoundText
  import opened Contracts
  import opened Frames
  import opened Actions
  import opened CheckPolicies
  import opened Planning
  import opened Agreement
  import opened Evaluations
  import opened Lineage
  import opened Admissions
  import opened Journeys
  import opened Transactions
  import opened Recoveries
  import opened Effects
  import opened AdmittedRuns
  import opened Suites
  import opened Spellings
  import A = Authority
  import E = Executor
  import P = Predicates
  import R = Retries

  // ---------- the registry ----------

  /** One table, its key, one column of it, and a value to fill it with. */
  datatype Setting = Setting(schemaName: string, table: string, pk: string, column: string, fill: Value)

  ghost predicate Usable(s: Setting) {
    && P.Ident(s.schemaName) && P.Ident(s.table) && P.Ident(s.pk) && P.Ident(s.column) && s.pk != s.column
    && s.table in AllowedTables(NullFill).value
    && Fillable(s.fill)
  }

  function Stored(s: Setting): string {
    s.schemaName + "." + s.table
  }

  function TableOf(s: Setting): TableContract {
    TableContract(s.table, s.schemaName, [ColumnContract(s.pk, Int64, None), ColumnContract(s.column, DateType, None)],
                  [s.pk], [])
  }

  /** NULLs in the column are quarantined. */
  function NullsCheck(s: Setting): CheckSpec {
    CheckSpec("a", s.table, Some(s.column), Completeness, Stored(s), [CheckPolicy(QuarantineNulls, map[])],
              None, None, None, None,
              FailingRows(Query(Stored(s), None, IsNull(T(s.column)), s.pk)), Some(IsNull(T(s.column))))
  }

  /** Drift of the same table, spelled with its schema, is answered by filling the column. */
  function DriftCheck(s: Setting): CheckSpec {
    CheckSpec("b", Stored(s), Some(s.column), SchemaDrift, Stored(s), [CheckPolicy(NullFill, map[FillValue := s.fill])],
              None, None, None, None, ColumnNames(s.schemaName, s.table), None)
  }

  function CatalogsOf(s: Setting): Catalogs {
    Catalogs(map[s.table := TableOf(s)], map["a" := NullsCheck(s), "b" := DriftCheck(s)])
  }

  lemma LooksUp(s: Setting)
    requires Usable(s)
    ensures '.' !in s.table && LastSegment(s.table) == s.table && LastSegment(Stored(s)) == s.table
    ensures Stored(s) != s.table && '.' in Stored(s)
    ensures GetTable(CatalogsOf(s), s.table) == Some(TableOf(s))
    ensures GetTable(CatalogsOf(s), Stored(s)) == Some(TableOf(s))
    ensures TableOf(s).Qualified() == Stored(s)
    ensures TablesKeyed(CatalogsOf(s)) && Keyed(CatalogsOf(s))
    ensures AllowedTables(NullFill).Some? && s.table in AllowedTables(NullFill).value
    ensures "a" != "b"
  {
    P.IdentSegment(s.table);
    P.QualifiedSegment(s.schemaName, s.table);
    hide LastSegment;
    hide P.Ident;
    assert Stored(s)[|s.schemaName|] == '.';
    assert "a"[0] != "b"[0];
  }

  function NullsParams(s: Setting): Params {
    map[Column := Text(s.column), PkColumn := Text(s.pk)]
  }

  function FillParams(s: Setting): Params {
    map[FillValue := s.fill, Column := Text(s.column)]
  }

  lemma HasBoth(s: Setting)
    ensures TableOf(s).HasColumn(s.pk) && TableOf(s).HasColumn(s.column)
  {
    assert TableOf(s).columns[0].name == s.pk && TableOf(s).columns[1].name == s.column;
  }

  lemma NullsOk(s: Setting)
    requires Usable(s)
    ensures ParamsOk(CatalogsOf(s), QuarantineNulls, s.table, NullsParams(s))
  {
    hide AllowedTables;
    hide GetTable;
    hide Usable;
    hide CatalogsOf;
    hide LastSegment;
    hide TablesKeyed;
    NoAllowList();
    LooksUp(s);
    HasBoth(s);
    assert NullsParams(s).Keys == Required(QuarantineNulls);
  }

  lemma NoAllowList()
    ensures AllowedTables(QuarantineNulls).None?
  {
  }

  lemma FillOk(s: Setting)
    requires Usable(s)
    ensures ParamsOk(CatalogsOf(s), NullFill, s.table, FillParams(s))
  {
    hide AllowedTables;
    hide GetTable;
    hide CatalogsOf;
    hide Usable;
    hide LastSegment;
    hide TablesKeyed;
    LooksUp(s);
    HasBoth(s);
    assert FillParams(s).Keys == Required(NullFill);
  }

  lemma DerivesNulls(s: Setting)
    requires Usable(s)
    ensures DeriveParams(CatalogsOf(s), QuarantineNulls, NullsCheck(s)) == Some(NullsParams(s))
    ensures Freeze(NullsParams(s)) == NullsParams(s)
  {
    hide GetTable;
    hide ParamsOk;
    hide Usable;
    hide CatalogsOf;
    hide AllowedTables;
    hide LastSegment;
    hide TablesKeyed;
    hide Keyed;
    LooksUp(s);
    NullsOk(s);
    assert SinglePk(TableOf(s)) == Some(s.pk);
    assert RuleFor(NullsCheck(s).policies, QuarantineNulls) == Some(CheckPolicy(QuarantineNulls, map[]));
  }

  lemma DerivesFill(s: Setting)
    requires Usable(s)
    ensures DeriveParams(CatalogsOf(s), NullFill, DriftCheck(s)) == Some(FillParams(s))
    ensures Freeze(FillParams(s)) == FillParams(s)
  {
    assert Fillable(s.fill);
    hide GetTable;
    hide ParamsOk;
    hide Usable;
    hide CatalogsOf;
    hide AllowedTables;
    hide LastSegment;
    hide TablesKeyed;
    hide Keyed;
    LooksUp(s);
    FillOk(s);
    assert RuleFor(DriftCheck(s).policies, NullFill) == Some(CheckPolicy(NullFill, map[FillValue := s.fill]));
  }

  // ---------- the suite run ----------

  /** One row, whose column is empty. */
  function RowOfSetting(s: Setting): Row {
    map[s.pk := Int(1), s.column := Null]
  }

  function LoadedOf(s: Setting): Loaded {
    map[s.table := Frame(map[s.pk := Of(Int64), s.column := Untyped], [RowOfSetting(s)])]
  }

  function SpecsOfSetting(s: Setting): seq<CheckSpec> {
    [NullsCheck(s), DriftCheck(s)]
  }

  function ReportOf(s: Setting): Report {
    var draft := Report("run", None, Some("report"),
                        [CheckResult("a", s.table, Fail, 1, 1, Stored(s)),
                         CheckResult("b", Stored(s), Fail, 1, 2, Stored(s))]);
    draft.(fingerprint := Some(ReportFingerprint(draft)))
  }

  lemma NullsFail(s: Setting)
    requires Usable(s)
    ensures CheckOne(CatalogsOf(s), NullsCheck(s), LoadedOf(s))
         == Some(CheckResult("a", s.table, Fail, 1, 1, Stored(s)))
  {
    LooksUp(s);
    hide LastSegment;
    hide P.Ident;
    var spec, row := NullsCheck(s), RowOfSetting(s);
    assert P.NamedColumn(spec) == Some(s.column);
    hide GetTable;
    hide TablesKeyed;
    hide Keyed;
    var loaded := LoadedOf(s);
    TwoColumns(s);
    hide LoadedOf;
    assert FirstMissing([s.column], loaded[s.table].columns.Keys) == None;
    assert Needed(TableOf(s), spec) == [s.column];
    assert [row][1..] == [];
    assert Filter([row], (r: Row) => Get(r, s.column) == Null) == [row];
    assert P.FailedRows(CatalogsOf(s), spec, loaded) == Found([row]);
  }

  lemma DriftFails(s: Setting)
    requires Usable(s)
    ensures CheckOne(CatalogsOf(s), DriftCheck(s), LoadedOf(s))
         == Some(CheckResult("b", Stored(s), Fail, 1, 2, Stored(s)))
  {
    assert s.pk != s.column;
    hide GetTable;
    hide CatalogsOf;
    hide Usable;
    hide AllowedTables;
    hide LastSegment;
    hide TablesKeyed;
    hide Keyed;
    LooksUp(s);
    TwoColumns(s);
    hide ColumnNamesOf;
    hide LoadedOf;
  }

  lemma TwoColumns(s: Setting)
    requires s.pk != s.column
    ensures ColumnNamesOf(TableOf(s)) == {s.pk, s.column} && |ColumnNamesOf(TableOf(s))| == 2
    ensures LoadedOf(s).Keys == {s.table} && LoadedOf(s)[s.table].columns.Keys == {s.pk, s.column}
    ensures LoadedOf(s)[s.table].rows == [RowOfSetting(s)]
  {
    assert TableOf(s).columns[0].name == s.pk && TableOf(s).columns[1].name == s.column;
    assert |{s.pk, s.column}| == 2;
  }

  lemma ReportedBoth(s: Setting)
    requires Usable(s)
    ensures Reported(CatalogsOf(s), SpecsOfSetting(s), LoadedOf(s), ReportOf(s))
  {
    hide CheckOne;
    hide Usable;
    hide ReportIntact;
    hide CatalogsOf;
    hide LoadedOf;
    NullsFail(s);
    DriftFails(s);
    SameSummary(s);
    assert CheckOne(CatalogsOf(s), SpecsOfSetting(s)[0], LoadedOf(s)) == Some(ReportOf(s).checks[0]);
    assert CheckOne(CatalogsOf(s), SpecsOfSetting(s)[1], LoadedOf(s)) == Some(ReportOf(s).checks[1]);
  }

  /** The suite itself produces this report, complete and with both checks failed. */
  lemma SuiteReportsBoth(s: Setting)
    requires Usable(s)
    ensures SuiteRun(CatalogsOf(s), SpecsOfSetting(s), LoadedOf(s), ReportOf(s))
    ensures !DriftIsPlain(SpecsOfSetting(s))
  {
    hide Reported;
    hide GetTable;
    hide Usable;
    hide TablesKeyed;
    LooksUp(s);
    ReportedBoth(s);
    assert DriftCheck(s) in SpecsOfSetting(s);
  }

  lemma SameSummary(s: Setting)
    ensures ReportIntact(ReportOf(s)) && ReportOf(s).auditEventId.Some? && !Incomplete(ReportOf(s))
  {
  }

  lemma BothFailures(s: Setting)
    requires Usable(s)
    ensures FailuresOf(ReportOf(s)) == map["a" := ReportOf(s).checks[0], "b" := ReportOf(s).checks[1]]
    ensures FailedChecks(ReportOf(s)) == ReportOf(s).checks
  {
    LooksUp(s);
    hide Usable;
    TwoFailures(ReportOf(s), ReportOf(s).checks[0], ReportOf(s).checks[1]);
    FilterAll(ReportOf(s).checks, (c: CheckResult) => c.status == Fail);
  }

  // ---------- the plan ----------

  function StoreOf(s: Setting): Store {
    map[Stored(s) := [RowOfSetting(s)]]
  }

  /** The one query both items target. */
  function EmptyColumn(s: Setting): Query {
    Query(Stored(s), None, IsNull(T(s.column)), s.pk)
  }

  lemma SelectsTheRow(s: Setting)
    requires s.pk != s.column
    ensures Select(StoreOf(s), EmptyColumn(s)) == Some([RowOfSetting(s)])
    ensures SelectKeys(StoreOf(s), EmptyColumn(s)) == Some([Int(1)])
  {
    var row := RowOfSetting(s);
    SelectWithoutJoin(StoreOf(s), EmptyColumn(s));
    assert [row][1..] == [];
    assert Keeps(IsNull(T(s.column)), [row])(Joined(row, map[]));
    FilterAll([row], (t: Row) => Keeps(IsNull(T(s.column)), [row])(Joined(t, map[])));
    assert OrderBy([row], s.pk) == [row];
    assert ColumnOf([row], s.pk) == [Int(1)];
  }

  lemma Renders(s: Setting, runId: string)
    requires Usable(s)
    ensures Render(CatalogsOf(s), QuarantineNulls, s.table, NullsParams(s), runId)
         == Some(RenderedStep(QuarantineNulls, s.table,
                              CopyRows(EmptyColumn(s), runId, Stored(s), s.pk, QuarantineNulls), Some(EmptyColumn(s))))
    ensures Render(CatalogsOf(s), NullFill, Stored(s), FillParams(s), runId)
         == Some(RenderedStep(NullFill, s.table, FillNulls(Stored(s), s.column, s.fill), Some(EmptyColumn(s))))
  {
    LooksUp(s);
    NullsOk(s);
    FillOk(s);
    SameSegment(CatalogsOf(s), NullFill, s.table, Stored(s), FillParams(s), runId);
    assert Fillable(s.fill);
    hide ParamsOk;
    hide GetTable;
    hide Usable;
    hide CatalogsOf;
  }

  /** Targets as the database answers. */
  function TargetsIn(s: Setting): Resolver {
    (index: nat, action: ActionId, table: string, params: Params) =>
      ResolveItem(CatalogsOf(s), StoreOf(s),
                  Executable(Candidate(index), action, table, params, [], TargetSet(0, ListDigest([])), ListDigest([])))
  }

  lemma Resolves(s: Setting, item: PlanItem)
    requires Usable(s) && item.Executable?
    requires (item.actionId == QuarantineNulls && item.table == s.table && item.params == NullsParams(s))
          || (item.actionId == NullFill && item.table == Stored(s) && item.params == FillParams(s))
    ensures ResolveItem(CatalogsOf(s), StoreOf(s), item) == Some(TargetSet(1, TargetDigest(item.table, [Int(1)])))
  {
    Renders(s, "apply");
    SelectsTheRow(s);
    NoParameters(s);
    hide Render;
    hide Usable;
    hide CatalogsOf;
    hide StoreOf;
    hide HoldsParameter;
    hide QueryText;
    hide SelectKeys;
  }

  lemma NoParameters(s: Setting)
    requires Usable(s)
    ensures !HoldsParameter(QueryText(EmptyColumn(s)))
  {
    P.NamesHoldNoColon(TableOf(s));
    P.IdentHoldsNoColon(s.pk);
    P.IdentHoldsNoColon(s.column);
    hide P.Ident;
    QueryParameters(EmptyColumn(s));
  }

  lemma ResolverIsValid(s: Setting)
    ensures ResolverValid(TargetsIn(s))
  {
    hide Render;
    hide SelectKeys;
  }

  function ProposalOf(s: Setting): Proposal {
    Proposal("proposal", "", [CandidateAction(QuarantineNulls, [Evidence("a", Stored(s))], ""),
                              CandidateAction(NullFill, [Evidence("b", Stored(s))], "")])
  }

  lemma JustifiesOne(cat: Catalogs, action: ActionId, e: Evidence, failures: Failures, params: Params)
    requires Governed(action) && e.checkId in cat.checks && e.checkId in failures
    requires failures[e.checkId].contractId == e.contractId
    requires DeriveParams(cat, action, cat.checks[e.checkId]) == Some(params)
    ensures Justify(cat, action, [e], failures).Ok?
    ensures Justify(cat, action, [e], failures).value.params == params
    ensures Justify(cat, action, [e], failures).value.specs == [cat.checks[e.checkId]]
  {
    hide DeriveParams;
    hide Justify;
    JustifyMeaning(cat, action, [e], failures, params);
    JustifiedSpecs(cat, action, [e], failures);
  }

  lemma JustifiesBoth(s: Setting)
    requires Usable(s)
    ensures
      var failures := FailuresOf(ReportOf(s));
      var x := Justify(CatalogsOf(s), QuarantineNulls, [Evidence("a", Stored(s))], failures);
      var y := Justify(CatalogsOf(s), NullFill, [Evidence("b", Stored(s))], failures);
      && x.Ok? && x.value.params == NullsParams(s) && x.value.specs == [NullsCheck(s)]
      && y.Ok? && y.value.params == FillParams(s) && y.value.specs == [DriftCheck(s)]
  {
    hide DeriveParams;
    hide Justify;
    hide FailuresOf;
    hide Usable;
    hide GetTable;
    LooksUp(s);
    BothFailures(s);
    DerivesNulls(s);
    DerivesFill(s);
    JustifiesOne(CatalogsOf(s), QuarantineNulls, Evidence("a", Stored(s)), FailuresOf(ReportOf(s)), NullsParams(s));
    JustifiesOne(CatalogsOf(s), NullFill, Evidence("b", Stored(s)), FailuresOf(ReportOf(s)), FillParams(s));
  }

  lemma ProposalPassesPolicy(s: Setting)
    requires Usable(s)
    ensures PolicyPasses(CatalogsOf(s), ReportOf(s), ProposalOf(s)) && Parsed(ProposalOf(s))
  {
    hide Justify;
    hide FailuresOf;
    hide Usable;
    hide CatalogsOf;
    JustifiesBoth(s);
    BothFailures(s);
    var actions := ProposalOf(s).actions;
    assert actions[0] in actions && actions[1] in actions;
    assert actions[0].evidence[0] in actions[0].evidence && actions[1].evidence[0] in actions[1].evidence;
    var covered := JustifiedCoverage(CatalogsOf(s), actions, FailuresOf(ReportOf(s)));
    assert "a" in covered && "b" in covered;
  }

  lemma NothingBlocks(s: Setting, i: nat)
    requires Usable(s) && i < 2
    ensures
      var actions, failures := ProposalOf(s).actions, FailuresOf(ReportOf(s));
      && Justify(CatalogsOf(s), actions[i].actionId, actions[i].evidence, failures).Ok?
      && !Blocked(CatalogsOf(s), actions, i, failures, TargetsIn(s))
  {
    hide Justify;
    hide FailuresOf;
    hide ResolveItem;
    JustifiesBoth(s);
    var actions, failures := ProposalOf(s).actions, FailuresOf(ReportOf(s));
    var item := Executable(Candidate(i), actions[i].actionId, if i == 0 then s.table else Stored(s),
                           if i == 0 then NullsParams(s) else FillParams(s), [], TargetSet(0, ListDigest([])),
                             ListDigest([]));
    Resolves(s, item);
    hide CatalogsOf;
    hide Usable;
    assert !SpansTables(CatalogsOf(s), actions[i]);
    assert IdentityOf(actions[0].actionId, actions[0].evidence) != IdentityOf(actions[1].actionId, actions[1].evidence);
  }

  function PlanOfSetting(s: Setting): Plan {
    Compile(CatalogsOf(s), ReportOf(s), ProposalOf(s), TargetsIn(s), "plan", "env")
  }

  lemma PlanPasses(s: Setting)
    requires Usable(s)
    ensures !PlanOfSetting(s).blocked
    ensures PlanOfSetting(s).items
         == CandidateItems(CatalogsOf(s), ProposalOf(s).actions, FailuresOf(ReportOf(s)), TargetsIn(s))
  {
    hide Justify;
    hide FailuresOf;
    hide CatalogsOf;
    hide Usable;
    hide CompileAction;
    hide CandidateItems;
    hide ProposalPasses;
    hide Blocked;
    hide ResolveItem;
    var t := Thresholds(1.0, 1.0);
    ProposalPassesPolicy(s);
    SameSummary(s);
    ProposalGateIsPolicy(CatalogsOf(s), ReportOf(s), ProposalOf(s), t);
    EvaluationPredictsCompilation(CatalogsOf(s), ReportOf(s), ProposalOf(s), t, TargetsIn(s), "plan", "env");
    NothingBlocks(s, 0);
    NothingBlocks(s, 1);
  }

  /** The compiled plan: one quarantine under the plain name, one fill under the qualified one. */
  lemma PlanIsUnblocked(s: Setting)
    requires Usable(s)
    ensures !PlanOfSetting(s).blocked && PlanOfSetting(s).items == TwoItemsOf(s)
    ensures PlanOfSetting(s).planId == "plan" && PlanOfSetting(s).environmentId == "env"
  {
    hide Justify;
    hide FailuresOf;
    hide CatalogsOf;
    hide Usable;
    hide CompileAction;
    hide ResolveItem;
    PlanPasses(s);
    ItemCompiled(s, 0);
    ItemCompiled(s, 1);
    assert PlanOfSetting(s).items == TwoItemsOf(s);
  }

  function FirstPolicy(s: Setting): Digest {
    ItemPolicyDigest([TableOf(s)], [DumpSpec(NullsCheck(s))], QuarantineNulls)
  }

  function SecondPolicy(s: Setting): Digest {
    ItemPolicyDigest([TableOf(s)], [DumpSpec(DriftCheck(s))], NullFill)
  }

  function TwoItemsOf(s: Setting): seq<PlanItem> {
    [Executable(Candidate(0), QuarantineNulls, s.table, NullsParams(s), [Evidence("a", Stored(s))],
                TargetSet(1, TargetDigest(s.table, [Int(1)])), FirstPolicy(s)),
     Executable(Candidate(1), NullFill, Stored(s), FillParams(s), [Evidence("b", Stored(s))],
                TargetSet(1, TargetDigest(Stored(s), [Int(1)])), SecondPolicy(s))]
  }

  lemma PolicyOne(cat: Catalogs, spec: CheckSpec, contract: TableContract, action: ActionId)
    requires GetTable(cat, spec.table) == Some(contract) && Governed(action)
    ensures ItemPolicy(cat, [spec], action) == Some(ItemPolicyDigest([contract], [DumpSpec(spec)], action))
  {
    hide GetTable;
    hide DumpSpec;
    assert Map([spec], (x: CheckSpec) => ContractOf(cat, x)) == [contract];
    assert Map([spec], (x: CheckSpec) => DumpSpec(x)) == [DumpSpec(spec)];
  }

  lemma ItemCompiled(s: Setting, i: nat)
    requires Usable(s) && i < 2
    ensures
      CompileAction(CatalogsOf(s), i, ProposalOf(s).actions[i], Repeated(ProposalOf(s).actions, i),
                    FailuresOf(ReportOf(s)), TargetsIn(s)) == TwoItemsOf(s)[i]
  {
    hide Justify;
    hide FailuresOf;
    hide ItemPolicy;
    hide ResolveItem;
    hide GetTable;
    hide CatalogsOf;
    hide Usable;
    hide DumpSpec;
    hide DeriveParams;
    hide TablesKeyed;
    LooksUp(s);
    JustifiesBoth(s);
    NothingBlocks(s, i);
    PolicyOne(CatalogsOf(s), NullsCheck(s), TableOf(s), QuarantineNulls);
    PolicyOne(CatalogsOf(s), DriftCheck(s), TableOf(s), NullFill);
    DerivesNulls(s);
    DerivesFill(s);
    var actions := ProposalOf(s).actions;
    var item := Executable(Candidate(i), actions[i].actionId, if i == 0 then s.table else Stored(s),
                           if i == 0 then NullsParams(s) else FillParams(s), [], TargetSet(0, ListDigest([])),
                             ListDigest([]));
    Resolves(s, item);
  }

  // ---------- review, approval, admission ----------

  const WITNESS_TTL: int := 3600000000

  function MintedIds(): PrepareIds {
    PrepareIds("plan", "env", "c", "evaluation", "e", "r")
  }

  function Approval(): Decision {
    Decision("decision", None, None, None, 0, Approve, "ann", Some("y"))
  }

  function PreparedOf(s: Setting): Option<Prepared> {
    Prepare(CatalogsOf(s), ReportOf(s), ProposalOf(s), true, "p", TargetsIn(s), MintedIds(), WITNESS_TTL)
  }

  lemma PreparesReview(s: Setting)
    requires Usable(s)
    ensures PreparedOf(s).Some? && PreparedOf(s).value.plan == PlanOfSetting(s)
    ensures PreparedOf(s).value.evaluation.fingerprint.Some?
  {
    hide Compile;
    hide CurrentPolicy;
    hide Usable;
    hide CatalogsOf;
    hide ReportOf;
    hide PlanScores;
    PlanIsUnblocked(s);
    SameSummary(s);
    ResolverIsValid(s);
    EvaluationAcceptsUnblocked(CatalogsOf(s), ReportOf(s), ProposalOf(s), TargetsIn(s), "plan", "env", "evaluation");
    assert forall i | i in PlanOfSetting(s).items :: i.Executable? ==> Governed(i.actionId);
  }

  lemma ApprovalIsValid(s: Setting, binding: Binding)
    ensures DecisionValid(Approval(), {"ann"})
    ensures RecordDecision(Approval(), {"ann"}, ReportOf(s).runId, "r", binding, "d").Some?
  {
    assert TrimLeft("y") == "y";
    assert TrimRight("y") == "y";
  }

  function RecordedOf(s: Setting): Option<(Decision, AuditEvent)>
    requires PreparedOf(s).Some?
  {
    RecordDecision(Approval(), {"ann"}, ReportOf(s).runId, "r", FullBinding(PreparedOf(s).value), "d")
  }

  /** The two events of the approval, durable. */
  function EventsOf(s: Setting): Events
    requires PreparedOf(s).Some? && RecordedOf(s).Some?
  {
    map["r" := PreparedOf(s).value.reviewed, "d" := RecordedOf(s).value.1]
  }

  /** The approved decision on the prepared plan. */
  lemma Approves(s: Setting)
    requires Usable(s)
    ensures PreparedOf(s).Some? && RecordedOf(s).Some?
    ensures Journeys.Recorded(PreparedOf(s).value, RecordedOf(s).value.1, EventsOf(s))
    ensures RecordedOf(s).value.0.auditEventId == Some("d")
  {
    hide Compile;
    hide Usable;
    hide CatalogsOf;
    hide EvaluatePlan;
    PreparesReview(s);
    ApprovalIsValid(s, FullBinding(PreparedOf(s).value));
    assert "r"[0] != "d"[0];
  }

  /** A plan the suite's own report leads to, with a quarantine and a fill on one contracted table under two
      spellings, passes every guard of admission: the conflict check compares the spellings. */
  lemma AdmittedUnderTwoSpellings(s: Setting)
    requires Usable(s)
    ensures PreparedOf(s).Some? && RecordedOf(s).Some?
    ensures
      var p := PreparedOf(s).value;
      && SuiteRun(CatalogsOf(s), SpecsOfSetting(s), LoadedOf(s), ReportOf(s))
      && p.plan.items == TwoItemsOf(s)
      && Admits(CatalogsOf(s), p.plan, p.evaluation, RecordedOf(s).value.0, ReportOf(s), WITNESS_TTL, EventsOf(s), 0)
      && !OneStepPerTable(p.plan.items) && !PlainTables(CatalogsOf(s), p.plan.items)
  {
    hide Prepare;
    hide Usable;
    hide CatalogsOf;
    hide SuiteRun;
    hide Compile;
    hide NoConflicts;
    hide OneStepPerTable;
    hide Authorized;
    hide LastSegment;
    PreparesReview(s);
    Approves(s);
    PlanIsUnblocked(s);
    SuiteReportsBoth(s);
    SuiteAgreesHere(s);
    ResolverIsValid(s);
    TwoSpellings(s);
    assert !Whitespace("d") by { assert "d"[0] == 'd' && 'd' in "d"; }
    EndToEndAdmission(CatalogsOf(s), ReportOf(s), ProposalOf(s), true, "p", TargetsIn(s),
                      MintedIds(), WITNESS_TTL, Approval(), {"ann"}, "d",
                      EventsOf(s), 0);
  }

  lemma SuiteAgreesHere(s: Setting)
    requires Usable(s)
    ensures SuiteReport(CatalogsOf(s), ReportOf(s))
  {
    hide Reported;
    hide SuiteReport;
    SuiteReportsBoth(s);
    SuiteAgrees(CatalogsOf(s), SpecsOfSetting(s), LoadedOf(s), ReportOf(s));
  }

  lemma TwoSpellings(s: Setting)
    requires Usable(s)
    ensures NoConflicts(TwoItemsOf(s)) && !OneStepPerTable(TwoItemsOf(s)) && !PlainTables(CatalogsOf(s), TwoItemsOf(s))
  {
    hide NoConflicts;
    hide OneStepPerTable;
    hide LastSegment;
    hide CatalogsOf;
    hide Usable;
    LooksUp(s);
    TwoItems(TwoItemsOf(s)[0], TwoItemsOf(s)[1]);
    assert TwoItemsOf(s) == [TwoItemsOf(s)[0], TwoItemsOf(s)[1]];
    assert TwoItemsOf(s)[1] in TwoItemsOf(s);
  }

  // ---------- apply ----------

  /** The call under the admission minted from that approval. */
  function CallOf(s: Setting): Call
    requires PreparedOf(s).Some? && RecordedOf(s).Some?
    requires PreparedOf(s).value.evaluation.fingerprint.Some? && RecordedOf(s).value.0.auditEventId.Some?
  {
    var p := PreparedOf(s).value;
    Call(p.plan, p.evaluation, AdmissionOf(p.plan, p.evaluation, RecordedOf(s).value.0, 0, WITNESS_TTL, "adm"),
         ReportOf(s),
         "apply-run", "result", "event", "env")
  }

  lemma AcceptedAtEntry(s: Setting)
    requires Usable(s)
    ensures PreparedOf(s).Some? && RecordedOf(s).Some?
    ensures PreparedOf(s).value.evaluation.fingerprint.Some? && RecordedOf(s).value.0.auditEventId.Some?
    ensures EntryAccepts(CatalogsOf(s), CallOf(s)) && CallOf(s).admission.expiresAt == WITNESS_TTL
    ensures CallOf(s).plan.items == TwoItemsOf(s)
  {
    hide Prepare;
    hide Usable;
    hide CatalogsOf;
    hide Compile;
    hide NoConflicts;
    hide EntryAccepts;
    hide SuiteRun;
    PreparesReview(s);
    Approves(s);
    PlanIsUnblocked(s);
    SuiteAgreesHere(s);
    ResolverIsValid(s);
    TwoSpellings(s);
    assert !Whitespace("d") by { assert "d"[0] == 'd' && 'd' in "d"; }
    A.PreparedPlanReachesApply(CatalogsOf(s), ReportOf(s), ProposalOf(s), true, "p", TargetsIn(s), MintedIds(),
                               WITNESS_TTL, Approval(), {"ann"}, "d", EventsOf(s), 0, "adm", CallOf(s));
  }

  function Snapshot(s: Setting): World {
    World(StoreOf(s), [], [], map[])
  }

  function Copying(s: Setting, runId: string): Statement {
    CopyRows(EmptyColumn(s), runId, Stored(s), s.pk, QuarantineNulls)
  }

  function Filling(s: Setting): Statement {
    FillNulls(Stored(s), s.column, s.fill)
  }

  const STILL: Clock := (k: nat) => 0

  lemma TargetsStillHold(s: Setting)
    requires Usable(s)
    ensures TargetsHold(CatalogsOf(s), StoreOf(s), TwoItemsOf(s))
  {
    hide Usable;
    hide ResolveItem;
    hide CatalogsOf;
    Resolves(s, TwoItemsOf(s)[0]);
    Resolves(s, TwoItemsOf(s)[1]);
  }

  lemma FirstItemRuns(s: Setting, call: Call, w: Work)
    requires Usable(s) && call.admission.expiresAt == WITNESS_TTL && w.sources == StoreOf(s) && w.copies == []
    ensures
      var one := RunItem(CatalogsOf(s), call, TwoItemsOf(s)[0], 0, w);
      && one.Ok? && one.value.sources == StoreOf(s)
      && StatementsOf(one.value.steps) == StatementsOf(w.steps) + [Copying(s, call.runId)]
  {
    hide Usable;
    hide Render;
    hide CatalogsOf;
    Renders(s, call.runId);
    CopyOne(s, w, call.runId);
    hide Execute;
    hide StoreOf;
  }

  lemma SecondItemRuns(s: Setting, call: Call, w: Work)
    requires Usable(s) && call.admission.expiresAt == WITNESS_TTL && w.sources == StoreOf(s)
    ensures
      var two := RunItem(CatalogsOf(s), call, TwoItemsOf(s)[1], 0, w);
      && two.Ok? && StatementsOf(two.value.steps) == StatementsOf(w.steps) + [Filling(s)]
  {
    hide Usable;
    hide Render;
    hide CatalogsOf;
    Renders(s, call.runId);
    FillOne(s, w);
    hide Execute;
    hide StoreOf;
  }

  /** Both statements run. */
  lemma RunsToItsEnd(s: Setting, call: Call)
    requires Usable(s) && call.plan.items == TwoItemsOf(s) && call.admission.expiresAt == WITNESS_TTL
    ensures AllExecutable(call.plan.items)
    ensures Body(CatalogsOf(s), Snapshot(s), call, STILL).BodyReady?
    ensures StatementsOf(Body(CatalogsOf(s), Snapshot(s), call, STILL).work.steps) == [Copying(s, call.runId),
        Filling(s)]
  {
    hide Usable;
    hide RunItem;
    hide CatalogsOf;
    hide TargetsHold;
    hide StoreOf;
    hide StatementsOf;
    TargetsStillHold(s);
    var arm := Arm(0, 3600000);
    assert ArmDeadline(call.admission, 0) == Some(arm);
    var start := StartWork(StoreOf(s), arm);
    var cat := CatalogsOf(s);
    FirstItemRuns(s, call, start);
    var one := RunItem(cat, call, TwoItemsOf(s)[0], 0, start);
    SecondItemRuns(s, call, one.value);
    assert RunItems(cat, call, STILL, start, 0) == Ok(start);
    assert RunItems(cat, call, STILL, start, 1) == one;
    NoSteps();
  }

  lemma NoSteps()
    ensures StatementsOf([]) == []
  {
  }

  lemma SelectsUsable(s: Setting)
    requires Usable(s)
    ensures Select(StoreOf(s), EmptyColumn(s)) == Some([RowOfSetting(s)])
  {
    SelectsTheRow(s);
  }

  /** Under the qualified spelling recovery refuses a result that did commit: the first call returns and commits,
      and the same call again is refused, although nothing else happened. */
  lemma CommittedAndRefused(s: Setting)
    requires Usable(s)
    ensures PreparedOf(s).Some? && RecordedOf(s).Some?
    ensures PreparedOf(s).value.evaluation.fingerprint.Some? && RecordedOf(s).value.0.auditEventId.Some?
    ensures
      var (first, after) := E.ApplyAlone(CatalogsOf(s), Snapshot(s), CallOf(s), STILL);
      && first.Done? && |after.log| == 1 && |after.quarantine| == 1
      && E.ApplyAlone(CatalogsOf(s), after, CallOf(s), STILL) == (E.Refusal, after)
  {
    hide Usable;
    hide CatalogsOf;
    hide EntryAccepts;
    hide Body;
    hide Recover;
    hide PlainTables;
    hide Prepare;
    hide RecordedOf;
    AcceptedAtEntry(s);
    RunsToItsEnd(s, CallOf(s));
    TwoSpellings(s);
    OneCopy(s, CallOf(s));
    var call, work := CallOf(s), Body(CatalogsOf(s), Snapshot(s), CallOf(s), STILL).work;
    R.AcceptedIsIntact(CatalogsOf(s), call);
    assert !Blank("adm") by { assert "adm"[0] == 'a' && 'a' in "adm"; }
    var after := Committed(Snapshot(s), call, work);
    E.CommittedShows(Snapshot(s), call, work);
    RecoveryInvertsCommit(CatalogsOf(s), Snapshot(s), call, STILL, after, call);
    R.ConsumedBody(CatalogsOf(s), after, call, STILL);
  }

  lemma OneCopy(s: Setting, call: Call)
    requires Usable(s) && call.plan.items == TwoItemsOf(s) && call.admission.expiresAt == WITNESS_TTL
    requires AllExecutable(call.plan.items) && Body(CatalogsOf(s), Snapshot(s), call, STILL).BodyReady?
    ensures |Body(CatalogsOf(s), Snapshot(s), call, STILL).work.copies| == 1
  {
    hide Render;
    hide Usable;
    hide CatalogsOf;
    hide TargetsHold;
    var arm := ArmDeadline(call.admission, 0).value;
    var start := StartWork(StoreOf(s), arm);
    RunsToItsEnd(s, call);
    LoopIsRunAll(CatalogsOf(s), call, STILL, start, 2);
    CopiesThenFills(s, start, call.runId);
  }

  // ---------- order ----------

  lemma RunTwo(w: Work, a: Statement, b: Statement)
    requires Execute(w, a).Some? && Execute(Execute(w, a).value.0, b).Some?
    ensures
      var (one, x) := Execute(w, a).value;
      var (two, y) := Execute(one, b).value;
      RunAll(w, [a, b]) == Some((two, [x, y]))
  {
    hide Execute;
    var s := [a, b];
    assert s[..1] == [a] && [a][..0] == [];
    assert RunAll(w, []) == Some((w, []));
    var (one, x) := Execute(w, a).value;
    var (two, y) := Execute(one, b).value;
    assert [] + [x] == [x] && [x] + [y] == [x, y];
    assert RunAll(w, [a]) == Some((one, [x]));
  }

  lemma CopyOne(s: Setting, w: Work, runId: string)
    requires Usable(s) && w.sources == StoreOf(s) && w.copies == []
    ensures Execute(w, Copying(s, runId)).Some?
    ensures
      var (after, count) := Execute(w, Copying(s, runId)).value;
      count == 1 && |after.copies| == 1 && after.sources == w.sources
  {
    SelectsUsable(s);
    hide Usable;
    hide Select;
  }

  lemma FillOne(s: Setting, w: Work)
    requires Usable(s) && w.sources == StoreOf(s)
    ensures Execute(w, Filling(s)).Some?
    ensures
      var (after, count) := Execute(w, Filling(s)).value;
      count == 1 && after.copies == w.copies
      && after.sources == w.sources[Stored(s) := [RowOfSetting(s)[s.column := CellOf(s.fill)]]]
  {
    assert s.pk != s.column;
    hide Usable;
    var row := RowOfSetting(s);
    assert [row][1..] == [];
    assert Filter([row], (r: Row) => Get(r, s.column) == Null) == [row];
    assert FillRows([row], s.column, s.fill) == [row[s.column := CellOf(s.fill)]];
  }

  lemma FilledSelectsNothing(s: Setting, store: Store)
    requires Usable(s) && store == StoreOf(s)[Stored(s) := [RowOfSetting(s)[s.column := CellOf(s.fill)]]]
    ensures Select(store, EmptyColumn(s)) == Some([])
  {
    var row := RowOfSetting(s)[s.column := CellOf(s.fill)];
    assert Get(row, s.column) != Null;
    hide Usable;
    SelectWithoutJoin(store, EmptyColumn(s));
    FilterNone([row], (r: Row) => Keeps(IsNull(T(s.column)), [row])(Joined(r, map[])));
  }

  /** In the plan's order the row is copied and then filled. */
  lemma CopiesThenFills(s: Setting, w: Work, runId: string)
    requires Usable(s) && w.sources == StoreOf(s) && w.copies == []
    ensures
      var run := RunAll(w, [Copying(s, runId), Filling(s)]);
      run.Some? && |run.value.0.copies| == 1 && run.value.1 == [1, 1]
  {
    hide Execute;
    hide Usable;
    hide RunAll;
    CopyOne(s, w, runId);
    FillOne(s, Execute(w, Copying(s, runId)).value.0);
    RunTwo(w, Copying(s, runId), Filling(s));
  }

  /** In the other order the fill empties the selection, and nothing is copied, though one row was admitted. */
  lemma FillsThenCopies(s: Setting, w: Work, runId: string)
    requires Usable(s) && w.sources == StoreOf(s) && w.copies == []
    ensures
      var run := RunAll(w, [Filling(s), Copying(s, runId)]);
      run.Some? && run.value.0.copies == [] && run.value.1 == [1, 0]
  {
    hide Usable;
    hide RunAll;
    hide Select;
    FillOne(s, w);
    var after := Execute(w, Filling(s)).value.0;
    FilledSelectsNothing(s, after.sources);
    assert Execute(after, Copying(s, runId)) == Some((after, 0)) by {
      assert CopiesOf([], runId, Stored(s), s.pk, QuarantineNulls) == [];
      assert after.copies + [] == after.copies;
    }
    hide Execute;
    RunTwo(w, Filling(s), Copying(s, runId));
  }

  /** Two spellings of one table: the order of the items decides what is quarantined. */
  lemma OrderMatters(s: Setting, w: Work, runId: string)
    requires Usable(s) && w.sources == StoreOf(s) && w.copies == []
    ensures
      var one, other := RunAll(w, [Copying(s, runId), Filling(s)]), RunAll(w, [Filling(s), Copying(s, runId)]);
      && one.Some? && other.Some?
      && multiset(one.value.0.copies) != multiset(other.value.0.copies)
  {
    hide RunAll;
    CopiesThenFills(s, w, runId);
    FillsThenCopies(s, w, runId);
    var one, other := RunAll(w, [Copying(s, runId), Filling(s)]).value, RunAll(w, [Filling(s), Copying(s,
        runId)]).value;
    assert |multiset(one.0.copies)| == 1 && |multiset(other.0.copies)| == 0;
  }

  // ---------- JSON ----------

  /** A fill with a date: the compiled plan passes re-derivation, comes back from its JSON trip under the same
      fingerprint, and is refused. */
  lemma DatePlanDoesNotSurvive(s: Setting)
    requires Usable(s) && s.fill.Date?
    ensures
      var plan := PlanOfSetting(s);
      && PlanJustified(CatalogsOf(s), plan, ReportOf(s)) && PlanIntact(plan) && !plan.blocked
      && PlanIntact(Revived(plan)) && Revived(plan).fingerprint == plan.fingerprint
      && !PlanJustified(CatalogsOf(s), Revived(plan), ReportOf(s))
  {
    hide Usable;
    hide CatalogsOf;
    hide ReportOf;
    hide PlanJustified;
    hide PlanIntact;
    hide Compile;
    hide SuiteReport;
    hide ItemStable;
    PlanIsUnblocked(s);
    SuiteAgreesHere(s);
    CompilerAndVerifierAgree(CatalogsOf(s), ReportOf(s), ProposalOf(s), TargetsIn(s), "plan", "env");
    CompiledIntact(CatalogsOf(s), ReportOf(s), ProposalOf(s), TargetsIn(s), "plan", "env");
    RevivedStaysIntact(PlanOfSetting(s));
    RevivedVerifiesExactly(CatalogsOf(s), PlanOfSetting(s), ReportOf(s));
    DateIsUnstable(s);
    assert TwoItemsOf(s)[1] in PlanOfSetting(s).items;
  }

  lemma DateIsUnstable(s: Setting)
    requires s.fill.Date?
    ensures !ItemStable(TwoItemsOf(s)[1])
  {
    assert FillValue in TwoItemsOf(s)[1].params;
  }

  /** Such settings exist, by name. */
  lemma ASetting(fill: Value)
    requires Fillable(fill)
    ensures Usable(Setting("warehouse", "fact_orders", "id", "amount", fill))
  {
    NamesAreIdents();
    hide P.Ident;
    assert "id" != "amount";
    assert "fact_orders" in AllowedTables(NullFill).value;
  }

  lemma NamesAreIdents()
    ensures P.Ident("warehouse") && P.Ident("fact_orders") && P.Ident("id") && P.Ident("amount")
  {
  }
}
