/** What each governed action accepts and what it renders to, action by action: every name in a statement is a declared
    one (action_definitions.py). */
module Renderings {
  import opened Prelude
  import opened Sql
  import opened Contracts
  import opened Actions

  // ---------- declared names ----------

  /** The text names a column the contract declares. */
  predicate ColumnIn(contract: TableContract, v: Value) {
    v.Text? && exists c :: c in contract.columns && c.name == v.s
  }

  /** The text names a declared column that is the whole primary key. */
  predicate KeyIn(contract: TableContract, v: Value) {
    ColumnIn(contract, v) && contract.primaryKey == [v.s]
  }

  predicate ColumnsIn(contract: TableContract, items: seq<Value>) {
    items != [] && forall k | 0 <= k < |items| :: ColumnIn(contract, items[k])
  }

  /** A declared column, or several in a list or tuple. */
  predicate KeysIn(contract: TableContract, v: Value) {
    ColumnIn(contract, v) || ((v.List? || v.Tuple?) && ColumnsIn(contract, v.items))
  }

  /** The texts of the business key, in order. */
  predicate NamesOf(v: Value, names: seq<string>) {
    if v.Text? then names == [v.s]
    else (v.List? || v.Tuple?) && |names| == |v.items| && forall k | 0 <= k < |names| :: v.items[k] == Text(names[k])
  }

  predicate Contracted(cat: Catalogs, table: string) {
    LastSegment(table) in cat.tables
  }

  function ContractFor(cat: Catalogs, table: string): TableContract
    requires Contracted(cat, table)
  {
    cat.tables[LastSegment(table)]
  }

  function Stored(contract: TableContract): string {
    contract.schemaName + "." + contract.table
  }

  // ---------- what each action accepts ----------

  predicate AcceptsNulls(cat: Catalogs, table: string, params: Params) {
    && Contracted(cat, table) && params.Keys == {Column, PkColumn}
    && ColumnIn(ContractFor(cat, table), params[Column]) && KeyIn(ContractFor(cat, table), params[PkColumn])
  }

  /** The named check is a declared validity check of this table and column, compiled to this predicate. */
  predicate CheckOf(cat: Catalogs, contract: TableContract, id: Value, column: Value, where: Pred) {
    && id.Text? && id.s in cat.checks && column.Text?
    && var spec := cat.checks[id.s];
       && spec.table == contract.table && spec.dimension == Validity && spec.column == Some(column.s)
       && spec.quarantinePredicate == Some(where)
  }

  predicate AcceptsInvalids(cat: Catalogs, table: string, params: Params, where: Pred) {
    && Contracted(cat, table) && params.Keys == {CheckIdKey, Column, PkColumn}
    && ColumnIn(ContractFor(cat, table), params[Column]) && KeyIn(ContractFor(cat, table), params[PkColumn])
    && CheckOf(cat, ContractFor(cat, table), params[CheckIdKey], params[Column], where)
  }

  /** The three names are those of one declared foreign key, into a contracted table that declares the column. */
  predicate ForeignKeyIn(cat: Catalogs, contract: TableContract, column: Value, table: Value, referenced: Value) {
    && column.Text? && table.Text? && referenced.Text?
    && ForeignKey(column.s, table.s, referenced.s) in contract.foreignKeys
    && ColumnIn(contract, column)
    && Contracted(cat, table.s) && (table.s != "" ==> ColumnIn(ContractFor(cat, table.s), referenced))
  }

  predicate AcceptsOrphans(cat: Catalogs, table: string, params: Params) {
    && LastSegment(table) in {"fact_order_items", "fact_orders", "fact_visits", "fact_adverse_events", "dim_patient"}
    && Contracted(cat, table) && params.Keys == {FkColumn, RefTable, RefColumn, PkColumn}
    && KeyIn(ContractFor(cat, table), params[PkColumn])
    && ForeignKeyIn(cat, ContractFor(cat, table), params[FkColumn], params[RefTable], params[RefColumn])
  }

  predicate AcceptsDedupe(cat: Catalogs, table: string, params: Params) {
    && LastSegment(table) in {"fact_orders", "dim_patient", "dim_customer"}
    && Contracted(cat, table) && params.Keys == {BusinessKey, PkColumn}
    && KeyIn(ContractFor(cat, table), params[PkColumn]) && KeysIn(ContractFor(cat, table), params[BusinessKey])
  }

  predicate AcceptsFill(cat: Catalogs, table: string, params: Params) {
    && LastSegment(table) in {"fact_orders", "fact_visits", "dim_patient"}
    && Contracted(cat, table) && params.Keys == {Column, FillValue}
    && ColumnIn(ContractFor(cat, table), params[Column])
    && !params[FillValue].Nothing? && !params[FillValue].List? && !params[FillValue].Tuple?
    && |ContractFor(cat, table).primaryKey| == 1
  }

  // ---------- what each action renders to ----------

  /** Copying what a query over the contract's stored table selects. */
  predicate CopyStep(step: RenderedStep, a: ActionId, contract: TableContract, join: Option<Join>, where: Pred,
                     pk: string, runId: string) {
    var query := Query(Stored(contract), join, where, pk);
    step == RenderedStep(a, contract.table, CopyRows(query, runId, Stored(contract), pk, a), Some(query))
  }

  lemma NullsRender(cat: Catalogs, table: string, params: Params, runId: string)
    ensures Render(cat, QuarantineNulls, table, params, runId).Some? <==> AcceptsNulls(cat, table, params)
    ensures AcceptsNulls(cat, table, params) ==>
      CopyStep(Render(cat, QuarantineNulls, table, params, runId).value, QuarantineNulls, ContractFor(cat, table), None,
               IsNull(T(params[Column].s)), params[PkColumn].s, runId)
  {
    hide LastSegment;
  }

  lemma InvalidsRender(cat: Catalogs, table: string, params: Params, runId: string)
    ensures Render(cat, QuarantineInvalids, table, params, runId).Some?
       <==> exists where :: AcceptsInvalids(cat, table, params, where)
    ensures forall where | AcceptsInvalids(cat, table, params, where) ::
      CopyStep(Render(cat, QuarantineInvalids, table, params, runId).value, QuarantineInvalids, ContractFor(cat, table),
               None, where, params[PkColumn].s, runId)
  {
    hide LastSegment;
    if Render(cat, QuarantineInvalids, table, params, runId).Some? {
      var where := GetCheck(cat, params[CheckIdKey].s).value.quarantinePredicate.value;
      assert AcceptsInvalids(cat, table, params, where);
    }
  }

  lemma OrphansRender(cat: Catalogs, table: string, params: Params, runId: string)
    ensures Render(cat, QuarantineOrphans, table, params, runId).Some? <==> AcceptsOrphans(cat, table, params)
    ensures AcceptsOrphans(cat, table, params) ==>
      CopyStep(Render(cat, QuarantineOrphans, table, params, runId).value, QuarantineOrphans, ContractFor(cat, table),
               Some(Join(Stored(ContractFor(cat, params[RefTable].s)), params[RefColumn].s, params[FkColumn].s)),
               IsNull(R(params[RefColumn].s)), params[PkColumn].s, runId)
  {
    hide LastSegment;
  }

  lemma DedupeRenders(cat: Catalogs, table: string, params: Params, runId: string, names: seq<string>)
    requires BusinessKey in params && NamesOf(params[BusinessKey], names)
    ensures Render(cat, DedupeKeepMinPk, table, params, runId).Some? <==> AcceptsDedupe(cat, table, params)
    ensures AcceptsDedupe(cat, table, params) ==>
      CopyStep(Render(cat, DedupeKeepMinPk, table, params, runId).value, DedupeKeepMinPk, ContractFor(cat, table), None,
               NotGroupMinimum(params[PkColumn].s, names), params[PkColumn].s, runId)
  {
    hide LastSegment;
    assert KeyNames(params[BusinessKey]) == names;
  }

  lemma FillRenders(cat: Catalogs, table: string, params: Params, runId: string)
    ensures Render(cat, NullFill, table, params, runId).Some? <==> AcceptsFill(cat, table, params)
    ensures AcceptsFill(cat, table, params) ==>
      var contract, column := ContractFor(cat, table), params[Column].s;
      Render(cat, NullFill, table, params, runId)
      == Some(RenderedStep(NullFill, contract.table, FillNulls(Stored(contract), column, params[FillValue]),
                           Some(Query(Stored(contract), None, IsNull(T(column)), contract.primaryKey[0]))))
  {
    hide LastSegment;
  }

  /** The other two governed actions write nothing, and an ungoverned one renders to nothing. */
  lemma NotesRender(cat: Catalogs, a: ActionId, table: string, params: Params, runId: string)
    requires a == NoOpAlert || a == SchemaDriftTicket || a.Ungoverned?
    ensures Render(cat, a, table, params, runId).Some? <==>
      !a.Ungoverned? && Contracted(cat, table) && params.Keys == {CheckIdKey}
    ensures Render(cat, a, table, params, runId).Some? ==>
      Render(cat, a, table, params, runId) == Some(RenderedStep(a, ContractFor(cat, table).table, Comment, None))
  {
    hide LastSegment;
  }

  // ---------- what each action derives ----------

  /** What a check's rule gives the action: the check's own column, key and foreign key, whatever the rule says of
      them, and from the rule only the fill value or the business key. */
  predicate Derived(a: ActionId, spec: CheckSpec, contract: TableContract, rule: Params, params: Params) {
    match a
    case NoOpAlert => params == map[CheckIdKey := Text(spec.checkId)]
    case SchemaDriftTicket => params == map[CheckIdKey := Text(spec.checkId)]
    case QuarantineNulls =>
      && spec.column.Some? && |contract.primaryKey| == 1
      && params == map[Column := Text(spec.column.value), PkColumn := Text(contract.primaryKey[0])]
    case QuarantineInvalids =>
      && spec.column.Some? && |contract.primaryKey| == 1
      && params == map[CheckIdKey := Text(spec.checkId), Column := Text(spec.column.value),
                       PkColumn := Text(contract.primaryKey[0])]
    case NullFill =>
      && spec.column.Some? && FillValue in rule
      && params == map[Column := Text(spec.column.value), FillValue := rule[FillValue]]
    case QuarantineOrphans =>
      && spec.column.Some? && |contract.primaryKey| == 1
      && exists k: nat :: k < |contract.foreignKeys| && contract.foreignKeys[k].column == spec.column.value
           && (forall j | 0 <= j < k :: contract.foreignKeys[j].column != spec.column.value)
           && params == map[FkColumn := Text(spec.column.value), RefTable := Text(contract.foreignKeys[k].refTable),
                            RefColumn := Text(contract.foreignKeys[k].refColumn),
                            PkColumn := Text(contract.primaryKey[0])]
    case DedupeKeepMinPk =>
      && |contract.primaryKey| == 1 && BusinessKey in rule
      && params == map[BusinessKey := rule[BusinessKey], PkColumn := Text(contract.primaryKey[0])]
    case Ungoverned(_) => false
  }

  lemma {:induction false} ForeignKeyAt(keys: seq<ForeignKey>, column: string)
    requires FindForeignKey(keys, column).Some?
    ensures exists k: nat ::
              && k < |keys| && keys[k] == FindForeignKey(keys, column).value && keys[k].column == column
              && forall j | 0 <= j < k :: keys[j].column != column
  {
    if keys[0].column == column {
      assert keys[0] == FindForeignKey(keys, column).value;
    } else {
      ForeignKeyAt(keys[1..], column);
      var k: nat :| k < |keys[1..]| && keys[1..][k] == FindForeignKey(keys[1..], column).value
        && keys[1..][k].column == column && forall j | 0 <= j < k :: keys[1..][j].column != column;
      forall j | 0 <= j < k + 1 ensures keys[j].column != column {
        assert j > 0 ==> keys[j] == keys[1..][j - 1];
      }
      assert keys[k + 1] == FindForeignKey(keys, column).value;
    }
  }

  /** Derivation takes nothing but that, from the check's first rule for the action. */
  lemma DerivedExactly(cat: Catalogs, a: ActionId, spec: CheckSpec)
    requires DeriveParams(cat, a, spec).Some?
    ensures RuleFor(spec.policies, a).Some? && Contracted(cat, spec.table)
    ensures Derived(a, spec, ContractFor(cat, spec.table), RuleFor(spec.policies, a).value.parameters,
                    DeriveParams(cat, a, spec).value)
  {
    hide LastSegment;
    hide ParamsOk;
    if a == QuarantineOrphans {
      ForeignKeyAt(ContractFor(cat, spec.table).foreignKeys, spec.column.value);
    }
  }
}
