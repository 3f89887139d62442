/** The quality suite over loaded frames (quality/suite.py): one result per registered check, from which every
    later step starts. */
module Suites {
  import opened Prelude
  import opened Sql
  import opened BoundText
  import opened Contracts
  import opened Actions
  import opened CheckPolicies
  import opened Planning
  import opened Agreement
  import opened Identifiers
  import opened Frames
  import opened Predicates
  import opened Transactions
  import D = Dedupe
  import Recoveries
  import Registries

  // ---------- what can go wrong ----------

  function Named(name: Option<string>): seq<string> {
    if NoText(name) then [] else [name.value]
  }

  /** `_needed_columns`; a repeated name changes nothing for its reader. */
  function Needed(contract: TableContract, spec: CheckSpec): seq<string> {
    Named(spec.column) + (if spec.businessKey.Some? then spec.businessKey.value else [])
      + Named(spec.windowStart) + Named(spec.windowEnd)
      + (if spec.dimension == ReferentialIntegrity then contract.primaryKey else [])
  }

  /** The first needed column the frame does not show. */
  function FirstMissing(needed: seq<string>, columns: set<string>): Option<string> {
    if needed == [] then None
    else if needed[0] !in columns then Some(needed[0])
    else FirstMissing(needed[1..], columns)
  }

  predicate ReferenceMissing(keys: seq<ForeignKey>, column: string, loaded: Loaded) {
    exists fk | fk in keys :: fk.column == column
      && (fk.refTable !in loaded || fk.refColumn !in loaded[fk.refTable].columns)
  }

  /** `_structural_error_message` gives a reason, for a loaded table. */
  predicate StructuralError(contract: TableContract, spec: CheckSpec, loaded: Loaded)
    requires spec.table in loaded
  {
    || !NoText(FirstMissing(Needed(contract, spec), loaded[spec.table].columns.Keys))
    || (spec.dimension == ReferentialIntegrity && !NoText(spec.column)
        && ReferenceMissing(contract.foreignKeys, spec.column.value, loaded))
  }

  // ---------- one check ----------

  /** `_result`. */
  function ResultFor(spec: CheckSpec, nFailed: nat, nTotal: nat, status: Option<CheckStatus>): CheckResult {
    CheckResult(spec.checkId, spec.table,
                if status.Some? then status.value else if nFailed > 0 then Fail else Pass,
                nFailed, nTotal, spec.contractId)
  }

  function ErrorFor(spec: CheckSpec): CheckResult {
    ResultFor(spec, 0, 0, Some(Error))
  }

  function ColumnNamesOf(contract: TableContract): set<string> {
    set c | c in contract.columns :: c.name
  }

  function DriftResult(contract: TableContract, spec: CheckSpec, loaded: Loaded): CheckResult {
    var expected := ColumnNamesOf(contract);
    if spec.table !in loaded then ResultFor(spec, 1, |expected|, None)
    else
      var observed := loaded[spec.table].columns.Keys;
      ResultFor(spec, |observed - expected| + |expected - observed|, |expected + observed|, None)
  }

  /** The result of one check, None where the suite raises. */
  function CheckOne(cat: Catalogs, spec: CheckSpec, loaded: Loaded): Option<CheckResult> {
    var contract := GetTable(cat, spec.table);
    if spec.dimension == SchemaDrift then
      Some(if contract.None? then ErrorFor(spec) else DriftResult(contract.value, spec, loaded))
    else if spec.table !in loaded then Some(ErrorFor(spec))
    else if spec.dimension == ReferentialIntegrity && contract.None? then None
    else if StructuralError(ContractOf(cat, spec), spec, loaded) then Some(ErrorFor(spec))
    else
      match FailedRows(cat, spec, loaded)
      case Found(rows) => Some(ResultFor(spec, |rows|, |loaded[spec.table].rows|, None))
      case NotFound => Some(ErrorFor(spec))
      case Raises => None
  }

  // ---------- the suite ----------

  /** The report of a suite run over the registered checks in their order. */
  ghost predicate Reported(cat: Catalogs, specs: seq<CheckSpec>, loaded: Loaded, report: Report) {
    && |report.checks| == |specs|
    && (forall i | 0 <= i < |specs| :: CheckOne(cat, specs[i], loaded) == Some(report.checks[i]))
    && ReportIntact(report)
  }

  /** `run_suite_on_frames`, None where a check raises. */
  method RunSuiteOnFrames(cat: Catalogs, specs: seq<CheckSpec>, loaded: Loaded,
                          runId: string) returns (r: Option<Report>)
    ensures r.Some? <==> forall i | 0 <= i < |specs| :: CheckOne(cat, specs[i], loaded).Some?
    ensures r.Some? ==> Reported(cat, specs, loaded, r.value) && r.value.runId == runId
  {
    hide CheckOne;
    var checks: seq<CheckResult> := [];
    var i := 0;
    while i < |specs|
      invariant 0 <= i <= |specs| && |checks| == i
      invariant forall k | 0 <= k < i :: CheckOne(cat, specs[k], loaded) == Some(checks[k])
    {
      var result := CheckOne(cat, specs[i], loaded);
      if result.None? {
        return None;
      }
      checks := checks + [result.value];
      i := i + 1;
    }
    var draft := Report(runId, None, None, checks);
    r := Some(draft.(fingerprint := Some(ReportFingerprint(draft))));
  }

  /** The specs the suite iterates over are the registered ones. */
  ghost predicate Registered(cat: Catalogs, specs: seq<CheckSpec>) {
    forall s | s in specs :: s.checkId in cat.checks && cat.checks[s.checkId] == s
  }

  /** A report of the suite agrees with the declared checks: the hypothesis under which compiler and verifier
      agree and an approved plan can be admitted. */
  lemma SuiteAgrees(cat: Catalogs, specs: seq<CheckSpec>, loaded: Loaded, report: Report)
    requires Registered(cat, specs) && Reported(cat, specs, loaded, report)
    ensures SuiteReport(cat, report)
  {
    hide CheckOne;
    var failed := FailedChecks(report);
    IdsAreKeys(failed);
    forall id | id in FailuresOf(report)
      ensures id in cat.checks
      ensures FailuresOf(report)[id].table == cat.checks[id].table
      ensures FailuresOf(report)[id].contractId == cat.checks[id].contractId
    {
      var i: nat :| i < |report.checks| && report.checks[i] == FailuresOf(report)[id];
      ResultNamesSpec(cat, specs[i], loaded);
      assert specs[i] in specs;
    }
  }

  lemma ResultNamesSpec(cat: Catalogs, spec: CheckSpec, loaded: Loaded)
    requires CheckOne(cat, spec, loaded).Some?
    ensures
      var r := CheckOne(cat, spec, loaded).value;
      r.checkId == spec.checkId && r.table == spec.table && r.contractId == spec.contractId
  {
    hide FailedRows;
    hide StructuralError;
  }

  /** Every unblocked plan compiled from a suite report passes the independent re-derivation. */
  lemma SuitePlansVerify(cat: Catalogs, specs: seq<CheckSpec>, loaded: Loaded, report: Report, proposal: Proposal,
                         resolve: Resolver, planId: string, env: string)
    requires Registered(cat, specs) && Reported(cat, specs, loaded, report)
    requires !Compile(cat, report, proposal, resolve, planId, env).blocked
    ensures PlanJustified(cat, Compile(cat, report, proposal, resolve, planId, env), report)
  {
    hide Compile;
    hide PlanJustified;
    hide SuiteReport;
    SuiteAgrees(cat, specs, loaded, report);
    CompilerAndVerifierAgree(cat, report, proposal, resolve, planId, env);
  }

  // ---------- when the suite ends in a report ----------

  /** Two columns of a frame, where it shows both, have types that go together. */
  predicate Together(a: map<string, ColumnType>, x: string, b: map<string, ColumnType>, y: string,
                     fit: (ColumnType, ColumnType) -> bool) {
    x in a && y in b ==> fit(a[x], b[y])
  }

  /** The validity rule of the check can be evaluated on columns of these types. */
  predicate RuleFits(spec: CheckSpec, types: map<string, ColumnType>)
    requires spec.column.Some?
  {
    var name := spec.column.value;
    if spec.contains.Some? then name in types ==> Searchable(types[name])
    else if HasWindow(spec) then
      var start, end := spec.windowStart.value, spec.windowEnd.value;
      name in types && start in types && end in types ==>
        Comparable(types[name], types[start]) && Comparable(types[name], types[end])
    else name in types ==> Listable(types[name])
  }

  /** The columns the check names are of types its Polars operators accept, and no operator would yield two columns
      of one name. This asks for names and types only: no row is looked at. */
  predicate OperatorsFit(cat: Catalogs, spec: CheckSpec, loaded: Loaded)
    requires spec.table in loaded
  {
    var types := loaded[spec.table].columns;
    match spec.dimension
    case Completeness => true
    case SchemaDrift => true
    case Validity => spec.column.Some? ==> RuleFits(spec, types)
    case Uniqueness =>
      spec.businessKey.Some? && (forall k | k in spec.businessKey.value :: k in types) ==>
        Groupable(spec.businessKey.value)
    case ReferentialIntegrity =>
      ForeignKeyOf(cat, spec).Some? ==>
        var fk := ForeignKeyOf(cat, spec).value;
        && (fk.refTable in loaded ==> Together(types, fk.column, loaded[fk.refTable].columns, fk.refColumn, Joinable))
        && NamedKey(cat, spec.table) != Some(fk.column)
  }

  /** Nothing stands in the way of a report on this check: what it needs is missing, which is reported, or its
      operators fit. */
  predicate Fits(cat: Catalogs, spec: CheckSpec, loaded: Loaded) {
    spec.table in loaded && GetTable(cat, spec.table).Some? ==>
      StructuralError(GetTable(cat, spec.table).value, spec, loaded) || OperatorsFit(cat, spec, loaded)
  }

  lemma RuleReportsExactly(cat: Catalogs, spec: CheckSpec, loaded: Loaded)
    requires BuiltIn(cat, spec) && spec.dimension == Validity && spec.table in loaded
    ensures !FailedRows(cat, spec, loaded).Raises? <==> OperatorsFit(cat, spec, loaded)
  {
    hide ContractParsed;
    hide LastSegment;
  }

  lemma ReferenceReportsExactly(cat: Catalogs, spec: CheckSpec, loaded: Loaded)
    requires BuiltIn(cat, spec) && spec.dimension == ReferentialIntegrity && spec.table in loaded
    requires !StructuralError(GetTable(cat, spec.table).value, spec, loaded)
    ensures !FailedRows(cat, spec, loaded).Raises? <==> OperatorsFit(cat, spec, loaded)
  {
    hide LastSegment;
    var contract := GetTable(cat, spec.table).value;
    ForeignKeyFound(contract.foreignKeys, spec.column.value);
  }

  /** Exactly the checks that fit the frames end in a result. */
  lemma CheckReportsExactly(cat: Catalogs, spec: CheckSpec, loaded: Loaded)
    requires BuiltIn(cat, spec)
    ensures CheckOne(cat, spec, loaded).Some? <==> Fits(cat, spec, loaded)
  {
    if spec.table in loaded && !StructuralError(GetTable(cat, spec.table).value, spec, loaded) {
      hide StructuralError;
      hide LastSegment;
      if spec.dimension == Validity {
        RuleReportsExactly(cat, spec, loaded);
        hide FailedRows;
        hide OperatorsFit;
        hide BuiltIn;
      } else if spec.dimension == ReferentialIntegrity {
        ReferenceReportsExactly(cat, spec, loaded);
        hide FailedRows;
        hide OperatorsFit;
        hide BuiltIn;
      }
    }
  }

  /** Over catalogs whose checks are all compiled as they compile them, a suite run ends in a report exactly when
      every check fits the frames. Whatever tables and columns are missing is reported. */
  lemma SuiteReportsExactly(cat: Catalogs, specs: seq<CheckSpec>, loaded: Loaded)
    requires Registries.AllBuilt(cat) && Registered(cat, specs)
    ensures (forall i | 0 <= i < |specs| :: CheckOne(cat, specs[i], loaded).Some?)
       <==> forall s | s in specs :: Fits(cat, s, loaded)
  {
    hide CheckOne;
    hide BuiltIn;
    hide Fits;
    forall s | s in specs ensures CheckOne(cat, s, loaded).Some? <==> Fits(cat, s, loaded) {
      CheckReportsExactly(cat, s, loaded);
    }
  }

  /** The frames of a database that matches its contracts: every table, with the declared columns and types. */
  predicate Conforms(cat: Catalogs, loaded: Loaded) {
    && loaded.Keys == cat.tables.Keys
    && forall t | t in loaded :: loaded[t].columns == DeclaredTypes(cat.tables[t].columns)
  }

  function DeclaredTypes(columns: seq<ColumnContract>): map<string, ColumnType> {
    if columns == [] then map[]
    else DeclaredTypes(columns[1..])[columns[0].name := Of(columns[0].dtype)]
  }

  /** Empty tables of the declared columns. */
  function Declarations(cat: Catalogs): Loaded {
    map t | t in cat.tables :: Frame(DeclaredTypes(cat.tables[t].columns), [])
  }

  /** On every database that matches its contracts, the suite ends in a report exactly when each check fits the
      declared types: nothing else about the data decides, so the registry can be judged before any is read. */
  lemma DeclaredTypesDecide(cat: Catalogs, specs: seq<CheckSpec>, loaded: Loaded)
    requires Registries.AllBuilt(cat) && Registered(cat, specs) && Conforms(cat, loaded)
    ensures (forall i | 0 <= i < |specs| :: CheckOne(cat, specs[i], loaded).Some?)
       <==> forall s | s in specs :: Fits(cat, s, Declarations(cat))
  {
    hide CheckOne;
    hide BuiltIn;
    hide Fits;
    SuiteReportsExactly(cat, specs, loaded);
    forall s | s in specs ensures Fits(cat, s, loaded) <==> Fits(cat, s, Declarations(cat)) {
      TypesDecide(cat, s, loaded, Declarations(cat));
    }
  }

  /** Whether a check fits depends on the tables and column types only. */
  lemma TypesDecide(cat: Catalogs, spec: CheckSpec, a: Loaded, b: Loaded)
    requires a.Keys == b.Keys && forall t | t in a :: a[t].columns == b[t].columns
    ensures Fits(cat, spec, a) <==> Fits(cat, spec, b)
  {
    if GetTable(cat, spec.table).Some? && spec.column.Some? {
      var keys, column := GetTable(cat, spec.table).value.foreignKeys, spec.column.value;
      assert ReferenceMissing(keys, column, a) <==> ReferenceMissing(keys, column, b);
    }
  }

  // ---------- loading ----------

  /** The columns a stored table shows when it is loaded, by its qualified name. */
  type Shape = string -> map<string, ColumnType>

  /** What `load_frames` reads: the tables are named without quotes, so by the fold of their qualified names, and
      one that does not exist is left out. */
  ghost predicate LoadedFrom(cat: Catalogs, store: Store, shape: Shape, loaded: Loaded) {
    && (forall t | t in cat.tables :: !Reserved(cat.tables[t].schemaName))
    && loaded.Keys == (set t | t in cat.tables && Fold(cat.tables[t].Qualified()) in store)
    && forall t | t in loaded ::
         loaded[t] == Frame(shape(Fold(cat.tables[t].Qualified())), store[Fold(cat.tables[t].Qualified())])
  }

  /** `load_frames`, None where it raises: a schema name is no name without quotes, or reading a table fails with
      another error than that it does not exist. */
  method LoadFrames(cat: Catalogs, store: Store, shape: Shape, failing: set<string>) returns (r: Option<Loaded>)
    ensures r.Some? <==> forall t | t in cat.tables ::
      !Reserved(cat.tables[t].schemaName) && Fold(cat.tables[t].Qualified()) !in failing
    ensures r.Some? ==> LoadedFrom(cat, store, shape, r.value)
  {
    hide KeyWord;
    var loaded: Loaded := map[];
    var pending := cat.tables.Keys;
    while pending != {}
      invariant pending <= cat.tables.Keys
      invariant forall t | t in cat.tables && t !in pending ::
        !Reserved(cat.tables[t].schemaName) && Fold(cat.tables[t].Qualified()) !in failing
      invariant loaded.Keys == (set t | t in cat.tables && t !in pending && Fold(cat.tables[t].Qualified()) in store)
      invariant forall t | t in loaded ::
        loaded[t] == Frame(shape(Fold(cat.tables[t].Qualified())), store[Fold(cat.tables[t].Qualified())])
    {
      var table :| table in pending;
      var contract := cat.tables[table];
      if Reserved(contract.schemaName) {
        return None;
      }
      var name := Fold(contract.Qualified());
      if name in failing {
        return None;
      }
      if name in store {
        loaded := loaded[table := Frame(shape(name), store[name])];
      }
      pending := pending - {table};
    }
    r := Some(loaded);
  }

  lemma TableOfKey(cat: Catalogs, t: string)
    requires TablesKeyed(cat) && t in cat.tables
    ensures GetTable(cat, t) == Some(cat.tables[t])
  {
    UndottedSegment(t);
  }

  /** Tables whose names are their own folds are loaded as the apply path sees them. */
  lemma LoadedContents(cat: Catalogs, tables: set<string>, store: Store, shape: Shape, loaded: Loaded)
    requires TablesKeyed(cat) && LoadedFrom(cat, store, shape, loaded)
    requires forall t | t in tables && t in cat.tables :: OwnFold(cat.tables[t].Qualified())
    ensures SameContents(cat, tables, loaded, store)
  {
    hide Fold;
    forall t | t in tables && t in loaded ensures GetTable(cat, t) == Some(cat.tables[t]) {
      TableOfKey(cat, t);
    }
  }

  /** Suite and apply read the same rows on every database exactly when every contracted table's qualified name
      is its own lower-case fold. */
  lemma LoadedContentsExactly(cat: Catalogs, shape: Shape)
    requires TablesKeyed(cat) && forall t | t in cat.tables :: !Reserved(cat.tables[t].schemaName)
    ensures (forall store: Store, loaded: Loaded | LoadedFrom(cat, store, shape, loaded) ::
               SameContents(cat, cat.tables.Keys, loaded, store))
       <==> forall t | t in cat.tables :: OwnFold(cat.tables[t].Qualified())
  {
    hide KeyWord;
    if forall t | t in cat.tables :: OwnFold(cat.tables[t].Qualified()) {
      forall store: Store, loaded: Loaded | LoadedFrom(cat, store, shape, loaded)
        ensures SameContents(cat, cat.tables.Keys, loaded, store)
      {
        LoadedContents(cat, cat.tables.Keys, store, shape, loaded);
      }
    } else {
      hide Fold;
      var t :| t in cat.tables && !OwnFold(cat.tables[t].Qualified());
      TableOfKey(cat, t);
      var store: Store := map[Fold(cat.tables[t].Qualified()) := []];
      var loaded: Loaded := map u | u in cat.tables && Fold(cat.tables[u].Qualified()) in store ::
        Frame(shape(Fold(cat.tables[u].Qualified())), store[Fold(cat.tables[u].Qualified())]);
      assert LoadedFrom(cat, store, shape, loaded);
      assert t in loaded;
      assert !SameContents(cat, cat.tables.Keys, loaded, store);
    }
  }

  // ---------- spelling ----------

  /** A check that got as far as reading data spells its table by the name under which the catalog holds it: the
      frames have no other name. Only a schema-drift check can fail under another spelling. */
  lemma MeasuredIsPlain(cat: Catalogs, spec: CheckSpec, loaded: Loaded)
    requires TablesKeyed(cat) && loaded.Keys <= cat.tables.Keys
    requires CheckOne(cat, spec, loaded).Some? && CheckOne(cat, spec, loaded).value.status != Error
    requires spec.dimension != SchemaDrift
    ensures spec.table in cat.tables && GetTable(cat, spec.table) == Some(cat.tables[spec.table])
    ensures '.' !in spec.table
  {
    hide FailedRows;
    hide StructuralError;
    TableOfKey(cat, spec.table);
  }

  /** A schema-drift check under a spelling with a dot always fails: its table is never among the frames. */
  lemma DottedDriftFails(cat: Catalogs, spec: CheckSpec, loaded: Loaded)
    requires TablesKeyed(cat) && loaded.Keys <= cat.tables.Keys
    requires spec.dimension == SchemaDrift && '.' in spec.table && GetTable(cat, spec.table).Some?
    ensures CheckOne(cat, spec, loaded).Some? && CheckOne(cat, spec, loaded).value.status == Fail
  {
  }

  // ---------- counts ----------

  /** Reported by the suite without an error, from data loaded from this database under names apply reads too. */
  ghost predicate Measured(cat: Catalogs, spec: CheckSpec, store: Store, shape: Shape, loaded: Loaded) {
    && BuiltIn(cat, spec) && TablesKeyed(cat) && LoadedFrom(cat, store, shape, loaded)
    && (forall t | t in TablesRead(cat, spec) && t in cat.tables :: OwnFold(cat.tables[t].Qualified()))
    && CheckOne(cat, spec, loaded).Some? && CheckOne(cat, spec, loaded).value.status != Error
  }

  /** The item asks for what the check derives for this action. */
  ghost predicate AsksFor(cat: Catalogs, spec: CheckSpec, action: ActionId, item: PlanItem) {
    && item.Executable? && item.actionId == action && item.table == spec.table
    && DeriveParams(cat, action, spec).Some? && item.params == Freeze(DeriveParams(cat, action, spec).value)
  }

  lemma MeasuredRows(cat: Catalogs, spec: CheckSpec, store: Store, shape: Shape, loaded: Loaded)
    requires Measured(cat, spec, store, shape, loaded) && spec.dimension != SchemaDrift
    ensures SameContents(cat, TablesRead(cat, spec), loaded, store) && spec.table in loaded
    ensures FailedRows(cat, spec, loaded).Found?
    ensures CheckOne(cat, spec, loaded).value.nFailed == |FailedRows(cat, spec, loaded).rows|
  {
    hide FailedRows;
    hide StructuralError;
    hide BuiltIn;
    LoadedContents(cat, TablesRead(cat, spec), store, shape, loaded);
  }

  /** The target count apply resolves for what a failed check derives is the count the suite reported, exactly where
      no value the check is declared with reads as a parameter; where one does, resolving raises. */
  lemma SuiteCountIsTargetCount(cat: Catalogs, spec: CheckSpec, store: Store, shape: Shape, loaded: Loaded,
                                item: PlanItem)
    requires Measured(cat, spec, store, shape, loaded) && QuarantineFor(spec.dimension).Some?
    requires AsksFor(cat, spec, QuarantineFor(spec.dimension).value, item)
    requires spec.table in loaded ==> Typed(loaded[spec.table])
    ensures ResolveItem(cat, store, item).Some? <==> LiteralsPlain(cat, spec)
    ensures LiteralsPlain(cat, spec) ==>
      ResolveItem(cat, store, item).value.count == CheckOne(cat, spec, loaded).value.nFailed
  {
    hide DeriveParams;
    hide FailedRows;
    hide CheckOne;
    hide Render;
    hide BuiltIn;
    hide LiteralsPlain;
    hide HoldsParameter;
    hide QueryText;
    hide Select;
    MeasuredRows(cat, spec, store, shape, loaded);
    var params := DeriveParams(cat, item.actionId, spec).value;
    ThreeWayParity(cat, spec, loaded, store, "apply");
    NothingToFreeze(cat, spec);
    var step := Render(cat, item.actionId, item.table, params, "apply").value;
    OrderBySorts(FailedRows(cat, spec, loaded).rows, step.target.value.pk);
  }

  /** The same for a fill declared on a completeness check, where its value can be filled in at all. */
  lemma FillCountIsTargetCount(cat: Catalogs, spec: CheckSpec, store: Store, shape: Shape, loaded: Loaded,
                               item: PlanItem)
    requires Measured(cat, spec, store, shape, loaded) && spec.dimension == Completeness
    requires AsksFor(cat, spec, NullFill, item)
    requires Render(cat, NullFill, item.table, item.params, "apply").Some?
    ensures ResolveItem(cat, store, item).Some?
    ensures ResolveItem(cat, store, item).value.count == CheckOne(cat, spec, loaded).value.nFailed
  {
    hide CheckOne;
    MeasuredRows(cat, spec, store, shape, loaded);
    FillTargets(cat, spec, item);
    hide Render;
    hide BuiltIn;
    hide HoldsParameter;
    hide QueryText;
    var q := Render(cat, NullFill, item.table, item.params, "apply").value.target.value;
    QueryParameters(q);
    NullsSelected(cat, spec, store, loaded, q);
    hide FailedRows;
    hide Select;
    OrderBySorts(FailedRows(cat, spec, loaded).rows, q.pk);
  }

  lemma NullsSelected(cat: Catalogs, spec: CheckSpec, store: Store, loaded: Loaded, q: Query)
    requires spec.dimension == Completeness && FailedRows(cat, spec, loaded).Found?
    requires q.join.None? && q.table in store && store[q.table] == loaded[spec.table].rows
    requires q.where == IsNull(T(spec.column.value))
    ensures Select(store, q) == Some(FailedRows(cat, spec, loaded).rows)
  {
    var rows := loaded[spec.table].rows;
    SelectWithoutJoin(store, q);
    FilterAgrees(rows, (t: Row) => Keeps(q.where, rows)(Joined(t, map[])),
                 (r: Row) => Get(r, spec.column.value) == Null);
  }

  lemma FillTargets(cat: Catalogs, spec: CheckSpec, item: PlanItem)
    requires BuiltIn(cat, spec) && spec.dimension == Completeness && AsksFor(cat, spec, NullFill, item)
    requires Render(cat, NullFill, item.table, item.params, "apply").Some?
    ensures spec.column.Some? && NamedColumn(spec).Some?
    ensures
      var target := Render(cat, NullFill, item.table, item.params, "apply").value.target;
      && target.Some? && target.value.join.None?
      && target.value.table == GetTable(cat, spec.table).value.Qualified()
      && target.value.where == IsNull(T(spec.column.value))
      && PlainQuery(target.value)
  {
    DerivedValid(cat, spec, NullFill);
    hide ParamsOk;
    var contract := GetTable(cat, spec.table).value;
    NamesHoldNoColon(contract);
    assert SinglePk(contract).value in contract.primaryKey;
    IdentHoldsNoColon(SinglePk(contract).value);
    IdentHoldsNoColon(spec.column.value);
    hide Ident;
  }

  /** For a uniqueness check and its dedupe policy the reported count exceeds the target count by the number of
      duplicated keys. */
  lemma DedupeCountIsTargetCount(cat: Catalogs, spec: CheckSpec, store: Store, shape: Shape, loaded: Loaded,
                                 item: PlanItem)
    requires Measured(cat, spec, store, shape, loaded) && spec.dimension == Uniqueness
    requires AsksFor(cat, spec, DedupeKeepMinPk, item)
    requires spec.table in loaded && spec.businessKey.Some?
    requires
      var rows, contract := loaded[spec.table].rows, GetTable(cat, spec.table).value;
      && |contract.primaryKey| > 0 && D.KeyedBy(rows, contract.primaryKey[0])
      && D.NullKeysAlone(rows, spec.businessKey.value)
      && D.GroupAlike(contract.primaryKey[0], D.PolicyKeys(item.params), spec.businessKey.value)
    ensures ResolveItem(cat, store, item).Some?
    ensures CheckOne(cat, spec, loaded).value.nFailed
         == ResolveItem(cat, store, item).value.count
            + |D.DuplicatedKeys(loaded[spec.table].rows, spec.businessKey.value)|
  {
    hide DeriveParams;
    hide FailedRows;
    hide CheckOne;
    hide Render;
    hide BuiltIn;
    MeasuredRows(cat, spec, store, shape, loaded);
    FrozenDedupe(cat, spec, item);
    D.DedupeParity(cat, spec, loaded, store, "apply");
    var rows, pk := loaded[spec.table].rows, GetTable(cat, spec.table).value.primaryKey[0];
    D.DedupeRenders(cat, spec, "apply");
    hide HoldsParameter;
    hide QueryText;
    var step := Render(cat, DedupeKeepMinPk, item.table, item.params, "apply").value;
    OrderBySorts(D.TargetsOf(rows, pk, spec.businessKey.value), step.target.value.pk);
  }

  /** A list of key columns and its frozen tuple name the same columns, and render alike. */
  lemma FrozenDedupe(cat: Catalogs, spec: CheckSpec, item: PlanItem)
    requires BuiltIn(cat, spec) && AsksFor(cat, spec, DedupeKeepMinPk, item)
    ensures
      var params := DeriveParams(cat, DedupeKeepMinPk, spec).value;
      && D.PolicyKeys(item.params) == D.PolicyKeys(params)
      && Render(cat, DedupeKeepMinPk, spec.table, params, "apply").Some?
      && Render(cat, DedupeKeepMinPk, item.table, item.params, "apply")
         == Render(cat, DedupeKeepMinPk, spec.table, params, "apply")
  {
    var params := DeriveParams(cat, DedupeKeepMinPk, spec).value;
    DerivedValid(cat, spec, DedupeKeepMinPk);
    Recoveries.FrozenOk(cat, DedupeKeepMinPk, spec.table, params);
    hide ParamsOk;
  }

  /** Actions that mutate nothing target nothing. */
  lemma NotesTargetNothing(cat: Catalogs, store: Store, item: PlanItem)
    requires item.Executable? && !Mutates(item.actionId)
    requires Render(cat, item.actionId, item.table, item.params, "apply").Some?
    ensures ResolveItem(cat, store, item).Some? && ResolveItem(cat, store, item).value.count == 0
  {
    hide ParamsOk;
  }

  /** The quarantine actions derive plain text only, which freezing keeps. */
  lemma NothingToFreeze(cat: Catalogs, spec: CheckSpec)
    requires BuiltIn(cat, spec) && QuarantineFor(spec.dimension).Some?
    requires DeriveParams(cat, QuarantineFor(spec.dimension).value, spec).Some?
    ensures
      var params := DeriveParams(cat, QuarantineFor(spec.dimension).value, spec).value;
      Freeze(params) == params
  {
    hide DeriveParams;
    hide DeriveRaw;
    var action := QuarantineFor(spec.dimension).value;
    var params := DeriveParams(cat, action, spec).value;
    DerivedValid(cat, spec, action);
    var contract := GetTable(cat, spec.table).value;
    forall k | k in params ensures !params[k].List? {
      assert k in Required(action);
      if k != CheckIdKey {
        assert IdentifierOk(cat, contract, params, k);
      }
    }
  }
}
