/** The two catalogs as values, and the governed actions that read them: parameter derivation,
    validation and rendering (action_definitions.py, contracts/remediations.py). */
module Actions {
  import opened Prelude
  import opened Sql
  import opened Contracts

  /** TABLE_CONTRACTS and CHECK_SPECS at one moment. */
  datatype Catalogs = Catalogs(tables: map<string, TableContract>, checks: map<string, CheckSpec>)

  /** `name.split(".")[-1]`. */
  function LastSegment(name: string): string {
    if name == [] || name[|name| - 1] == '.' then []
    else LastSegment(name[..|name| - 1]) + [name[|name| - 1]]
  }

  function GetTable(cat: Catalogs, table: string): Option<TableContract> {
    if LastSegment(table) in cat.tables then Some(cat.tables[LastSegment(table)]) else None
  }

  /** The tables are held under their own undotted names. */
  ghost predicate TablesKeyed(cat: Catalogs) {
    forall k | k in cat.tables :: cat.tables[k].table == k && '.' !in k
  }

  function GetCheck(cat: Catalogs, checkId: string): Option<CheckSpec> {
    if checkId in cat.checks then Some(cat.checks[checkId]) else None
  }

  // ---------- metadata ----------

  predicate Governed(a: ActionId) {
    !a.Ungoverned?
  }

  predicate Mutates(a: ActionId) {
    a in {QuarantineNulls, QuarantineInvalids, NullFill, QuarantineOrphans, DedupeKeepMinPk}
  }

  predicate Reversible(a: ActionId) {
    a != NullFill
  }

  /** required_params; no action declares optional ones, so these are also the only ones allowed. */
  function Required(a: ActionId): set<ParamKey> {
    match a
    case NoOpAlert => {CheckIdKey}
    case SchemaDriftTicket => {CheckIdKey}
    case QuarantineNulls => {Column, PkColumn}
    case QuarantineInvalids => {CheckIdKey, Column, PkColumn}
    case NullFill => {Column, FillValue}
    case QuarantineOrphans => {FkColumn, RefTable, RefColumn, PkColumn}
    case DedupeKeepMinPk => {BusinessKey, PkColumn}
    case Ungoverned(_) => {}
  }

  function AllowedTables(a: ActionId): Option<set<string>> {
    match a
    case NullFill => Some({"fact_orders", "fact_visits", "dim_patient"})
    case QuarantineOrphans =>
      Some({"fact_order_items", "fact_orders", "fact_visits", "fact_adverse_events", "dim_patient"})
    case DedupeKeepMinPk => Some({"fact_orders", "dim_patient", "dim_customer"})
    case _ => None
  }

  // ---------- validation ----------

  /** The parameters whose values must name something in the catalogs. */
  const IDENTIFIER_PARAMS := {Column, PkColumn, FkColumn, RefColumn, BusinessKey, RefTable}

  predicate ListedKeysOk(contract: TableContract, items: seq<Value>) {
    items != [] && forall v | v in items :: v.Text? && contract.HasColumn(v.s)
  }

  /** What one identifier parameter must satisfy, given all of them. */
  predicate IdentifierOk(cat: Catalogs, contract: TableContract, params: Params, key: ParamKey)
    requires key in params
  {
    var v := params[key];
    if key == BusinessKey && (v.List? || v.Tuple?) then ListedKeysOk(contract, v.items)
    else if !v.Text? then false
    else if key == RefTable then LastSegment(v.s) in cat.tables
    else if key == RefColumn then RefColumnOk(cat, params, v.s)
    else contract.HasColumn(v.s)
  }

  /** A referenced column is only looked up when the referenced table is named and contracted. */
  predicate RefColumnOk(cat: Catalogs, params: Params, column: string) {
    (RefTable in params && params[RefTable].Text? && params[RefTable].s != ""
     && GetTable(cat, params[RefTable].s).Some?)
    ==> GetTable(cat, params[RefTable].s).value.HasColumn(column)
  }

  predicate CommonParamsOk(cat: Catalogs, a: ActionId, table: string, params: Params) {
    && (AllowedTables(a).Some? ==> LastSegment(table) in AllowedTables(a).value)
    && GetTable(cat, table).Some?
    && params.Keys == Required(a)
    && forall k | k in params && k in IDENTIFIER_PARAMS ::
         IdentifierOk(cat, GetTable(cat, table).value, params, k)
  }

  predicate PrimaryKeyOk(contract: TableContract, params: Params) {
    PkColumn in params && params[PkColumn].Text? && params[PkColumn].s in contract.primaryKey
  }

  predicate InvalidsOk(cat: Catalogs, contract: TableContract, params: Params) {
    && PrimaryKeyOk(contract, params)
    && CheckIdKey in params && params[CheckIdKey].Text?
    && GetCheck(cat, params[CheckIdKey].s).Some?
    && var spec := GetCheck(cat, params[CheckIdKey].s).value;
       && spec.table == contract.table
       && spec.dimension == Validity
       && Column in params
       && params[Column] == (if spec.column.Some? then Text(spec.column.value) else Nothing)
  }

  predicate OrphansOk(contract: TableContract, params: Params) {
    && PrimaryKeyOk(contract, params)
    && exists fk | fk in contract.foreignKeys ::
         FkColumn in params && params[FkColumn] == Text(fk.column)
         && RefTable in params && params[RefTable] == Text(fk.refTable)
         && RefColumn in params && params[RefColumn] == Text(fk.refColumn)
  }

  predicate OwnRulesOk(cat: Catalogs, a: ActionId, contract: TableContract, params: Params) {
    match a
    case QuarantineNulls => PrimaryKeyOk(contract, params)
    case DedupeKeepMinPk => PrimaryKeyOk(contract, params)
    case QuarantineInvalids => InvalidsOk(cat, contract, params)
    case QuarantineOrphans => OrphansOk(contract, params)
    case _ => true
  }

  /** `GovernedAction.validate_params` returns no error. */
  predicate ParamsOk(cat: Catalogs, a: ActionId, table: string, params: Params) {
    && CommonParamsOk(cat, a, table, params)
    && OwnRulesOk(cat, a, GetTable(cat, table).value, params)
  }

  /** `validate_common_params`: the loop over the parameters, accumulating errors. */
  method ValidateCommonParams(cat: Catalogs, a: ActionId, table: string, params: Params)
    returns (errors: seq<ParamKey>, refused: bool)
    ensures !refused && errors == [] <==> CommonParamsOk(cat, a, table, params)
    ensures refused ==> (AllowedTables(a).Some? && LastSegment(table) !in AllowedTables(a).value)
                        || GetTable(cat, table).None?
  {
    errors := [];
    refused := false;
    if AllowedTables(a).Some? && LastSegment(table) !in AllowedTables(a).value {
      refused := true;
      return;
    }
    if GetTable(cat, table).None? {
      refused := true;
      return;
    }
    var contract := GetTable(cat, table).value;
    var missing := Required(a) - params.Keys;
    while missing != {}
      invariant missing <= Required(a) - params.Keys
      invariant errors == [] <==> missing == Required(a) - params.Keys
    {
      var key :| key in missing;
      errors := errors + [key];
      missing := missing - {key};
    }
    var unexpected := params.Keys - Required(a);
    ghost var keysAgree := Required(a) <= params.Keys;
    if Required(a) - params.Keys == {} {
      forall k | k in Required(a) ensures k in params.Keys {
        assert k !in Required(a) - params.Keys;
      }
    }
    assert errors == [] <==> keysAgree;
    while unexpected != {}
      invariant unexpected <= params.Keys - Required(a)
      invariant errors == [] <==> keysAgree && unexpected == params.Keys - Required(a)
    {
      var key :| key in unexpected;
      errors := errors + [key];
      unexpected := unexpected - {key};
    }
    ghost var exact := params.Keys == Required(a);
    assert errors == [] <==> exact;
    var pending := params.Keys;
    while pending != {}
      invariant pending <= params.Keys
      invariant errors == [] <==>
        exact && forall k | k in params && k !in pending && k in IDENTIFIER_PARAMS ::
          IdentifierOk(cat, contract, params, k)
    {
      var key :| key in pending;
      if key in IDENTIFIER_PARAMS && !IdentifierOk(cat, contract, params, key) {
        errors := errors + [key];
      }
      pending := pending - {key};
    }
  }

  // ---------- derivation ----------

  function SinglePk(contract: TableContract): Option<string> {
    if |contract.primaryKey| == 1 then Some(contract.primaryKey[0]) else None
  }

  /** The per-action part of `derive_params`, before validation. */
  function DeriveRaw(a: ActionId, spec: CheckSpec, contract: TableContract, rule: Params): Option<Params> {
    match a
    case NoOpAlert => Some(rule[CheckIdKey := Text(spec.checkId)])
    case SchemaDriftTicket => Some(rule[CheckIdKey := Text(spec.checkId)])
    case QuarantineNulls =>
      if spec.column.None? || SinglePk(contract).None? then None
      else Some(rule[Column := Text(spec.column.value)][PkColumn := Text(SinglePk(contract).value)])
    case QuarantineInvalids =>
      if spec.column.None? || SinglePk(contract).None? then None
      else Some(rule[CheckIdKey := Text(spec.checkId)][Column := Text(spec.column.value)]
                    [PkColumn := Text(SinglePk(contract).value)])
    case NullFill =>
      if spec.column.None? then None else Some(rule[Column := Text(spec.column.value)])
    case QuarantineOrphans =>
      if spec.column.None? || FindForeignKey(contract.foreignKeys, spec.column.value).None?
         || SinglePk(contract).None? then None
      else
        var fk := FindForeignKey(contract.foreignKeys, spec.column.value).value;
        Some(rule[FkColumn := Text(fk.column)][RefTable := Text(fk.refTable)]
                 [RefColumn := Text(fk.refColumn)][PkColumn := Text(SinglePk(contract).value)])
    case DedupeKeepMinPk =>
      if SinglePk(contract).None? then None else Some(rule[PkColumn := Text(SinglePk(contract).value)])
    case Ungoverned(_) => None
  }

  /** `GovernedAction.derive_params`, None where it raises KeyError or ValueError. */
  function DeriveParams(cat: Catalogs, a: ActionId, spec: CheckSpec): (r: Option<Params>)
    ensures r.Some? ==> Governed(a) && RuleFor(spec.policies, a).Some? && GetTable(cat, spec.table).Some?
    ensures r.Some? ==> r.value.Keys == Required(a)
  {
    var rule := RuleFor(spec.policies, a);
    if rule.None? || GetTable(cat, spec.table).None? then None
    else
      var contract := GetTable(cat, spec.table).value;
      var params := DeriveRaw(a, spec, contract, rule.value.parameters);
      if params.Some? && ParamsOk(cat, a, contract.table, params.value) then params else None
  }

  // ---------- rendering ----------

  datatype Statement =
    | Comment
    /** `INSERT INTO dq.quarantine_rows SELECT ... ` */
    | CopyRows(query: Query, runId: string, tableName: string, pkKey: string, reason: ActionId)
    /** `UPDATE table SET column = value WHERE column IS NULL` */
    | FillNulls(table: string, column: string, value: Value)

  datatype RenderedStep = RenderedStep(
    actionId: ActionId, table: string, statement: Statement, target: Option<Query>)

  function QuarantineStep(a: ActionId, contract: TableContract, where: Pred, join: Option<Join>, runId: string)
    : Option<RenderedStep>
  {
    if SinglePk(contract).None? then None
    else
      var pk := SinglePk(contract).value;
      var query := Query(contract.Qualified(), join, where, pk);
      Some(RenderedStep(a, contract.table, CopyRows(query, runId, contract.Qualified(), pk, a), Some(query)))
  }

  function TextOr(v: Value): string {
    if v.Text? then v.s else ""
  }

  function KeyNames(v: Value): seq<string> {
    if v.List? || v.Tuple? then Map(v.items, (x: Value) => TextOr(x)) else [TextOr(v)]
  }

  /** Every column type refuses None and collections as a fill value. */
  predicate Fillable(v: Value) {
    !v.Nothing? && !v.List? && !v.Tuple?
  }

  function RenderValid(cat: Catalogs, a: ActionId, table: string, params: Params, runId: string): Option<RenderedStep>
    requires ParamsOk(cat, a, table, params)
  {
    var contract := GetTable(cat, table).value;
    match a
    case QuarantineNulls => QuarantineStep(a, contract, IsNull(T(TextOr(params[Column]))), None, runId)
    case QuarantineInvalids =>
      (match GetCheck(cat, TextOr(params[CheckIdKey])).value.quarantinePredicate
       case None => None
       case Some(where) => QuarantineStep(a, contract, where, None, runId))
    case QuarantineOrphans =>
      var column := TextOr(params[RefColumn]);
      (match GetTable(cat, TextOr(params[RefTable]))
       case None => None
       case Some(ref) =>
         QuarantineStep(a, contract, IsNull(R(column)),
                        Some(Join(ref.Qualified(), column, TextOr(params[FkColumn]))), runId))
    case DedupeKeepMinPk =>
      QuarantineStep(a, contract, NotGroupMinimum(TextOr(params[PkColumn]), KeyNames(params[BusinessKey])), None, runId)
    case NullFill =>
      if SinglePk(contract).None? || !Fillable(params[FillValue]) then None
      else
        var column := TextOr(params[Column]);
        Some(RenderedStep(a, contract.table, FillNulls(contract.Qualified(), column, params[FillValue]),
                          Some(Query(contract.Qualified(), None, IsNull(T(column)), SinglePk(contract).value))))
    case _ => Some(RenderedStep(a, contract.table, Comment, None))
  }

  /** `GovernedAction.render`, None where it raises. */
  function Render(cat: Catalogs, a: ActionId, table: string, params: Params, runId: string): (r: Option<RenderedStep>)
    ensures r.Some? ==> r.value.actionId == a && ParamsOk(cat, a, table, params)
  {
    if Governed(a) && ParamsOk(cat, a, table, params) then RenderValid(cat, a, table, params, runId) else None
  }

  /** The run id is only a bound value: it never changes which rows a step targets. */
  lemma TargetIgnoresRunId(cat: Catalogs, a: ActionId, table: string, params: Params, run1: string, run2: string)
    ensures Render(cat, a, table, params, run1).Some? <==> Render(cat, a, table, params, run2).Some?
    ensures Render(cat, a, table, params, run1).Some? ==>
      Render(cat, a, table, params, run1).value.target == Render(cat, a, table, params, run2).value.target
  {
  }

  /** Tables are looked up by their last segment, so a qualified spelling is the same table. */
  lemma SameSegment(cat: Catalogs, a: ActionId, t1: string, t2: string, params: Params, runId: string)
    requires LastSegment(t1) == LastSegment(t2)
    ensures ParamsOk(cat, a, t1, params) <==> ParamsOk(cat, a, t2, params)
    ensures Render(cat, a, t1, params, runId) == Render(cat, a, t2, params, runId)
  {
    assert GetTable(cat, t1) == GetTable(cat, t2);
  }

  // ---------- growth of the catalogs ----------

  /** Every entry of `a` is still there in `b`. */
  ghost predicate Extends(a: Catalogs, b: Catalogs) {
    && (forall k | k in a.tables :: k in b.tables && b.tables[k] == a.tables[k])
    && (forall k | k in a.checks :: k in b.checks && b.checks[k] == a.checks[k])
  }

  lemma ParamsOkMonotone(a: Catalogs, b: Catalogs, action: ActionId, table: string, params: Params)
    requires Extends(a, b) && ParamsOk(a, action, table, params)
    ensures ParamsOk(b, action, table, params)
  {
    var contract := GetTable(a, table).value;
    forall k | k in params && k in IDENTIFIER_PARAMS
      ensures IdentifierOk(b, contract, params, k)
    {
      assert IdentifierOk(a, contract, params, k);
      if k == RefColumn && RefTable in params {
        assert IdentifierOk(a, contract, params, RefTable);
      }
    }
  }

  /** Registering more tables and checks never changes what an earlier check derives. */
  lemma DerivationMonotone(a: Catalogs, b: Catalogs, action: ActionId, spec: CheckSpec)
    requires Extends(a, b) && DeriveParams(a, action, spec).Some?
    ensures DeriveParams(b, action, spec) == DeriveParams(a, action, spec)
  {
    var contract := GetTable(a, spec.table).value;
    ParamsOkMonotone(a, b, action, contract.table, DeriveParams(a, action, spec).value);
  }
}
