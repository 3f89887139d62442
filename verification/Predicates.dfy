/** One check compiled three ways (quality/predicates.py): the rows Polars reports as failing, the bounded
    sample query, and the predicate the apply path quarantines by. */
module Predicates {
  import opened Prelude
  import opened SqlText
  import opened Sql
  import opened BoundText
  import opened Contracts
  import opened Actions
  import opened Identifiers
  import opened Frames

  // ---------- identifiers ----------

  predicate IdentStart(c: char) {
    'A' <= c <= 'Z' || 'a' <= c <= 'z' || c == '_'
  }

  predicate Ident(name: string) {
    && name != []
    && IdentStart(name[0])
    && forall c | c in name[1..] :: IdentStart(c) || '0' <= c <= '9'
  }

  /** What the TableContract validators enforce. */
  predicate ContractParsed(c: TableContract) {
    && Ident(c.table) && Ident(c.schemaName)
    && (forall col | col in c.columns :: Ident(col.name))
    && (forall k | k in c.primaryKey :: Ident(k))
    && (forall fk | fk in c.foreignKeys :: Ident(fk.column) && Ident(fk.refTable) && Ident(fk.refColumn))
  }

  lemma {:induction false} UndottedSegment(name: string)
    requires '.' !in name
    ensures LastSegment(name) == name
  {
    if name != [] {
      UndottedSegment(name[..|name| - 1]);
      assert name == name[..|name| - 1] + [name[|name| - 1]];
    }
  }

  lemma IdentSegment(name: string)
    requires Ident(name)
    ensures '.' !in name && LastSegment(name) == name
  {
    assert name == [name[0]] + name[1..];
    UndottedSegment(name);
  }

  lemma {:induction false} QualifiedSegment(schemaName: string, table: string)
    requires '.' !in table
    ensures LastSegment(schemaName + "." + table) == table
  {
    var name := schemaName + "." + table;
    if table != [] {
      QualifiedSegment(schemaName, table[..|table| - 1]);
      assert name[..|name| - 1] == schemaName + "." + table[..|table| - 1];
      assert table == table[..|table| - 1] + [table[|table| - 1]];
    }
  }

  // ---------- the pieces of a check; None where the program raises ----------

  function NamedColumn(spec: CheckSpec): Option<string> {
    if spec.column.Some? && Ident(spec.column.value) then spec.column else None
  }

  function NamedKey(cat: Catalogs, table: string): Option<string> {
    if GetTable(cat, table).Some? && SinglePk(GetTable(cat, table).value).Some?
       && Ident(SinglePk(GetTable(cat, table).value).value)
    then SinglePk(GetTable(cat, table).value) else None
  }

  function AllowedValues(cat: Catalogs, spec: CheckSpec): (r: Option<seq<string>>)
    ensures r.Some? ==> r.value != []
  {
    if NamedColumn(spec).None? || GetTable(cat, spec.table).None? then None
    else
      match FindColumn(GetTable(cat, spec.table).value.columns, spec.column.value)
      case None => None
      case Some(column) =>
        if column.allowedValues.None? || column.allowedValues.value == [] then None else column.allowedValues
  }

  function ForeignKeyOf(cat: Catalogs, spec: CheckSpec): Option<ForeignKey> {
    if NamedColumn(spec).None? || GetTable(cat, spec.table).None? then None
    else FindForeignKey(GetTable(cat, spec.table).value.foreignKeys, spec.column.value)
  }

  /** `_qualified`: schema and table are identifiers. */
  predicate Nameable(contract: TableContract) {
    Ident(contract.schemaName) && Ident(contract.table)
  }

  /** `spec.window_start_column and spec.window_end_column`: both named and not empty. */
  predicate HasWindow(spec: CheckSpec) {
    !NoText(spec.windowStart) && !NoText(spec.windowEnd)
  }

  // ---------- the apply predicate ----------

  function ValidityQuarantine(cat: Catalogs, spec: CheckSpec): Option<Pred> {
    match NamedColumn(spec)
    case None => None
    case Some(name) =>
      if spec.contains.Some? then
        match LikePattern(spec.contains.value)
        case None => None
        case Some(pattern) => Some(Or(IsNull(T(name)), NotLike(T(name), pattern)))
      else if HasWindow(spec) then
        var start, end := spec.windowStart.value, spec.windowEnd.value;
        if Ident(start) && Ident(end)
        then Some(And(NotNull(T(name)), Or(Less(T(name), T(start)), Greater(T(name), T(end)))))
        else None
      else
        match AllowedValues(cat, spec)
        case None => None
        case Some(values) => Some(NotIn(T(name), InList(values)))
  }

  /** `quarantine_predicate_for`: Ok(None) for the dimensions without one, Err where it raises. */
  function QuarantinePredicate(cat: Catalogs, spec: CheckSpec): Result<Option<Pred>, ()> {
    match spec.dimension
    case Completeness =>
      if NamedColumn(spec).None? then Err(()) else Ok(Some(IsNull(T(spec.column.value))))
    case Validity =>
      if ValidityQuarantine(cat, spec).None? then Err(()) else Ok(ValidityQuarantine(cat, spec))
    case _ => Ok(None)
  }

  // ---------- the sample query ----------

  function ValiditySample(cat: Catalogs, spec: CheckSpec, table: string, pk: string): Option<Sample> {
    match NamedColumn(spec)
    case None => None
    case Some(name) =>
      if spec.contains.Some? then
        match LikePattern(spec.contains.value)
        case None => None
        case Some(pattern) =>
          Some(FailingRows(Query(table, None, Or(IsNull(T(name)), NotLike(T(name), pattern)), pk)))
      else if HasWindow(spec) then
        var start, end := spec.windowStart.value, spec.windowEnd.value;
        if Ident(start) && Ident(end) then
          var outside := Or(Less(T(name), T(start)), Greater(T(name), T(end)));
          Some(FailingRows(Query(table, None, And(NotNull(T(name)), outside), pk)))
        else None
      else
        match AllowedValues(cat, spec)
        case None => None
        case Some(values) => Some(FailingRows(Query(table, None, NotIn(T(name), InList(values)), pk)))
  }

  /** `sample_sql_for`, None where it raises. */
  function SampleFor(cat: Catalogs, spec: CheckSpec): Option<Sample> {
    match GetTable(cat, spec.table)
    case None => None
    case Some(contract) =>
      if spec.dimension == SchemaDrift then Some(ColumnNames(contract.schemaName, contract.table))
      else
        match NamedKey(cat, spec.table)
        case None => None
        case Some(pk) =>
          match spec.dimension
          case Completeness =>
            if NamedColumn(spec).None? then None
            else Some(FailingRows(Query(contract.Qualified(), None, IsNull(T(spec.column.value)), pk)))
          case Validity => ValiditySample(cat, spec, contract.Qualified(), pk)
          case Uniqueness =>
            if spec.businessKey.None? || spec.businessKey.value == []
               || !(forall k | k in spec.businessKey.value :: Ident(k)) then None
            else Some(DuplicateGroups(contract.Qualified(), spec.businessKey.value))
          case ReferentialIntegrity =>
            if ForeignKeyOf(cat, spec).None? then None
            else
              var fk := ForeignKeyOf(cat, spec).value;
              if GetTable(cat, fk.refTable).None? || !Nameable(GetTable(cat, fk.refTable).value) || !Ident(fk.refColumn)
              then None
              else
                var join := Join(GetTable(cat, fk.refTable).value.Qualified(), fk.refColumn, fk.column);
                Some(FailingRows(Query(contract.Qualified(), Some(join), IsNull(R(fk.refColumn)), pk)))
  }

  /** `CheckSpec.model_post_init`: the parsed check with its compiled fields, None where it raises. */
  function BuildCheck(cat: Catalogs, raw: CheckSpec): Option<CheckSpec> {
    if GetTable(cat, raw.table).None? || SampleFor(cat, raw).None? || QuarantinePredicate(cat, raw).Err? then None
    else
      Some(raw.(contractId := if raw.contractId == "" then GetTable(cat, raw.table).value.Qualified()
                              else raw.contractId,
                sample := SampleFor(cat, raw).value,
                quarantinePredicate := QuarantinePredicate(cat, raw).value))
  }

  // ---------- the Polars rows ----------

  function ValidityFailing(cat: Catalogs, spec: CheckSpec, frame: Frame): Failing {
    match NamedColumn(spec)
    case None => Raises
    case Some(name) =>
      var types := frame.columns;
      if spec.contains.Some? then
        // ~contains(needle, literal).fill_null(False)
        if name !in types then NotFound
        else if !Searchable(types[name]) then Raises
        else Found(Filter(frame.rows, (r: Row) =>
               !(Get(r, name).Str? && Contains(Get(r, name).s, spec.contains.value))))
      else if HasWindow(spec) then
        var start, end := spec.windowStart.value, spec.windowEnd.value;
        if name !in types || start !in types || end !in types then NotFound
        else if !Comparable(types[name], types[start]) || !Comparable(types[name], types[end]) then Raises
        else Found(Filter(frame.rows, (r: Row) => OutsideWindow(r, name, start, end)))
      else if ColumnEntry(cat, spec).None? then NotFound
      else
        match AllowedValues(cat, spec)
        case None => Raises
        case Some(values) =>
          // ~is_in(allowed), null for a null value, which a filter drops
          if name !in types then NotFound
          else if !Listable(types[name]) then Raises
          else Found(Filter(frame.rows, (r: Row) =>
                 Get(r, name) != Null && !(Get(r, name).Str? && Get(r, name).s in values)))
  }

  /** The contract's own entry for the checked column; the lookups raise KeyError where there is none. */
  function ColumnEntry(cat: Catalogs, spec: CheckSpec): Option<ColumnContract>
    requires spec.column.Some?
  {
    match GetTable(cat, spec.table)
    case None => None
    case Some(contract) => FindColumn(contract.columns, spec.column.value)
  }

  predicate OutsideWindow(r: Row, name: string, start: string, end: string) {
    AndT(TruthOf(Get(r, name) != Null),
         OrT(LessT(Get(r, name), Get(r, start)), LessT(Get(r, end), Get(r, name)))) == True
  }

  /** `df.join(duplicates, on=keys, how="inner")`: rows of a group of two or more; a NULL key never joins. */
  predicate SharesKey(row: Row, rows: seq<Row>, keys: seq<string>) {
    Null !in GroupKey(row, keys) && |SameGroup(rows, row, keys)| > 1
  }

  function DuplicateRows(keys: seq<string>, frame: Frame): Failing {
    if !(forall k | k in keys :: k in frame.columns) then NotFound
    else if !Groupable(keys) then Raises
    else Found(Filter(frame.rows, (r: Row) => SharesKey(r, frame.rows, keys)))
  }

  function OrphanRows(cat: Catalogs, spec: CheckSpec, fk: ForeignKey, frames: Loaded): Failing
    requires spec.table in frames
  {
    var types := frames[spec.table].columns;
    if fk.refTable !in frames || fk.refColumn !in frames[fk.refTable].columns then NotFound
    else
      match NamedKey(cat, spec.table)
      case None => Raises
      case Some(pk) =>
        if fk.column !in types then NotFound
        else if !Joinable(types[fk.column], frames[fk.refTable].columns[fk.refColumn]) then Raises
        else if pk !in types then NotFound
        else if pk == fk.column then Raises // select([pk, fk]) names one column twice
        else Found(Filter(frames[spec.table].rows, (r: Row) =>
               Unmatched(r, frames[fk.refTable].rows, Join(fk.refTable, fk.refColumn, fk.column))))
  }

  /** `failed_rows` for the row-level dimensions. */
  function FailedRows(cat: Catalogs, spec: CheckSpec, frames: Loaded): Failing
  {
    if spec.table !in frames then NotFound
    else
      var frame := frames[spec.table];
      match spec.dimension
      case Completeness =>
        if NamedColumn(spec).None? then Raises
        else if spec.column.value !in frame.columns then NotFound
        else Found(Filter(frame.rows, (r: Row) => Get(r, spec.column.value) == Null))
      case Validity => ValidityFailing(cat, spec, frame)
      case Uniqueness =>
        if spec.businessKey.None? || spec.businessKey.value == [] then Raises
        else DuplicateRows(spec.businessKey.value, frame)
      case ReferentialIntegrity =>
        if NamedColumn(spec).None? then Raises
        else if GetTable(cat, spec.table).None? then NotFound
        else if ForeignKeyOf(cat, spec).None? then Raises
        else OrphanRows(cat, spec, ForeignKeyOf(cat, spec).value, frames)
      case SchemaDrift => Raises
  }

  // ---------- parity ----------

  /** The tables a check reads. */
  function TablesRead(cat: Catalogs, spec: CheckSpec): set<string> {
    {spec.table} + (if spec.dimension == ReferentialIntegrity && ForeignKeyOf(cat, spec).Some?
                    then {ForeignKeyOf(cat, spec).value.refTable} else {})
  }

  /** The frames and the database show the same rows of these tables, where they are contracted and loaded. */
  ghost predicate SameContents(cat: Catalogs, tables: set<string>, frames: Loaded, store: Store) {
    forall name | name in tables && name in frames && GetTable(cat, name).Some? ::
      GetTable(cat, name).value.Qualified() in store
      && store[GetTable(cat, name).value.Qualified()] == frames[name].rows
  }

  /** `NOT LIKE '%needle%'`, or NULL, is exactly the negated literal Polars `contains`. */
  lemma ContainsParity(needle: string, name: string, row: Row, table: seq<Row>)
    requires PlainNeedle(needle)
    requires Get(row, name).Str? || Get(row, name) == Null
    ensures Keeps(Or(IsNull(T(name)), NotLike(T(name), LikePattern(needle).value)), table)(Joined(row, map[]))
       <==> !(Get(row, name).Str? && Contains(Get(row, name).s, needle))
  {
    var joined := Joined(row, map[]);
    assert Eval(IsNull(T(name)), joined, table) == TruthOf(Get(row, name) == Null);
    if Get(row, name).Str? {
      LikeMeansContains(needle, Get(row, name).s);
      assert Eval(NotLike(T(name), LikePattern(needle).value), joined, table)
          == Negate(TruthOf(Contains(Get(row, name).s, needle)));
    }
  }

  lemma WindowParity(name: string, start: string, end: string, row: Row, table: seq<Row>)
    ensures
      var where := And(NotNull(T(name)), Or(Less(T(name), T(start)), Greater(T(name), T(end))));
      Keeps(where, table)(Joined(row, map[])) <==> OutsideWindow(row, name, start, end)
  {
    var joined := Joined(row, map[]);
    var before, after := Less(T(name), T(start)), Greater(T(name), T(end));
    assert Eval(Or(before, after), joined, table)
        == OrT(LessT(Get(row, name), Get(row, start)), LessT(Get(row, end), Get(row, name)));
    assert Eval(NotNull(T(name)), joined, table) == TruthOf(Get(row, name) != Null);
  }

  /** `NOT IN (list)`, read back from its text, is exactly the negated Polars `is_in`, NULLs dropped by both. */
  lemma AllowedParity(values: seq<string>, name: string, row: Row, table: seq<Row>)
    requires values != []
    ensures Keeps(NotIn(T(name), InList(values)), table)(Joined(row, map[]))
       <==> Get(row, name) != Null && !(Get(row, name).Str? && Get(row, name).s in values)
  {
    InListRoundTrip(values);
    var cells := Map(values, (v: string) => Str(v));
    if Get(row, name).Str? && Get(row, name).s in values {
      var i :| 0 <= i < |values| && values[i] == Get(row, name).s;
      assert cells[i] == Get(row, name);
    }
  }

  lemma ValidityParity(cat: Catalogs, spec: CheckSpec, frame: Frame)
    requires spec.dimension == Validity && ValidityQuarantine(cat, spec).Some?
    requires Typed(frame) && ValidityFailing(cat, spec, frame).Found?
    ensures Filter(frame.rows, (t: Row) => Keeps(ValidityQuarantine(cat, spec).value, frame.rows)(Joined(t, map[])))
         == ValidityFailing(cat, spec, frame).rows
  {
    var rows := frame.rows;
    var name := spec.column.value;
    var where := ValidityQuarantine(cat, spec).value;
    var sql := (t: Row) => Keeps(where, rows)(Joined(t, map[]));
    if spec.contains.Some? {
      var polars := (r: Row) => !(Get(r, name).Str? && Contains(Get(r, name).s, spec.contains.value));
      forall r | r in rows ensures sql(r) == polars(r) {
        assert Holds(frame.columns[name], Get(r, name));
        ContainsParity(spec.contains.value, name, r, rows);
      }
      FilterAgrees(rows, sql, polars);
    } else if HasWindow(spec) {
      var start, end := spec.windowStart.value, spec.windowEnd.value;
      forall r | r in rows ensures sql(r) == OutsideWindow(r, name, start, end) {
        WindowParity(name, start, end, r, rows);
      }
      FilterAgrees(rows, sql, (r: Row) => OutsideWindow(r, name, start, end));
    } else {
      var values := AllowedValues(cat, spec).value;
      var polars := (r: Row) => Get(r, name) != Null && !(Get(r, name).Str? && Get(r, name).s in values);
      forall r | r in rows ensures sql(r) == polars(r) {
        AllowedParity(values, name, r, rows);
      }
      FilterAgrees(rows, sql, polars);
    }
  }

  /** The action that quarantines what a check of this dimension reports. */
  function QuarantineFor(d: Dimension): Option<ActionId> {
    match d
    case Completeness => Some(QuarantineNulls)
    case Validity => Some(QuarantineInvalids)
    case ReferentialIntegrity => Some(QuarantineOrphans)
    case _ => None
  }

  /** The rows a rendered step targets; None where executing its query raises. */
  function TargetRows(store: Store, step: RenderedStep): Option<seq<Row>> {
    if step.target.None? then Some([]) else SelectText(store, step.target.value)
  }

  /** The check as it sits in the catalog that built it. */
  ghost predicate BuiltIn(cat: Catalogs, spec: CheckSpec) {
    && spec.checkId in cat.checks && cat.checks[spec.checkId] == spec
    && SampleFor(cat, spec) == Some(spec.sample)
    && QuarantinePredicate(cat, spec) == Ok(spec.quarantinePredicate)
    && GetTable(cat, spec.table).Some?
    && ContractParsed(GetTable(cat, spec.table).value)
    && LastSegment(spec.table) == GetTable(cat, spec.table).value.table
  }

  /** Parameters a check derives are valid under the check's own spelling of its table. */
  lemma DerivedValid(cat: Catalogs, spec: CheckSpec, action: ActionId)
    requires BuiltIn(cat, spec)
    requires DeriveParams(cat, action, spec).Some?
    ensures ParamsOk(cat, action, spec.table, DeriveParams(cat, action, spec).value)
    ensures DeriveRaw(action, spec, GetTable(cat, spec.table).value, RuleFor(spec.policies, action).value.parameters)
         == DeriveParams(cat, action, spec)
  {
    var contract := GetTable(cat, spec.table).value;
    IdentSegment(contract.table);
    SameSegment(cat, action, contract.table, spec.table, DeriveParams(cat, action, spec).value, "");
  }

  lemma OrphansRefTable(cat: Catalogs, table: string, params: Params)
    requires ParamsOk(cat, QuarantineOrphans, table, params)
    ensures RefTable in params && params[RefTable].Text? && GetTable(cat, params[RefTable].s).Some?
  {
    assert RefTable in params.Keys;
    assert IdentifierOk(cat, GetTable(cat, table).value, params, RefTable);
  }

  /** Rendering by the check's spelling of its table, with what the check itself derives, succeeds. */
  lemma DerivedRenders(cat: Catalogs, spec: CheckSpec, runId: string)
    requires BuiltIn(cat, spec) && QuarantineFor(spec.dimension).Some?
    requires DeriveParams(cat, QuarantineFor(spec.dimension).value, spec).Some?
    ensures
      var action := QuarantineFor(spec.dimension).value;
      var step := Render(cat, action, spec.table, DeriveParams(cat, action, spec).value, runId);
      step.Some? && step.value.target == Some(TargetQuery(cat, spec))
  {
    var action := QuarantineFor(spec.dimension).value;
    DerivedValid(cat, spec, action);
    if action == QuarantineOrphans {
      OrphansRefTable(cat, spec.table, DeriveParams(cat, action, spec).value);
      OrphansRender(cat, spec, runId);
    } else if action == QuarantineNulls {
      NullsRender(cat, spec, runId);
    } else {
      InvalidsRender(cat, spec, runId);
    }
  }

  lemma NullsRender(cat: Catalogs, spec: CheckSpec, runId: string)
    requires BuiltIn(cat, spec) && spec.dimension == Completeness
    requires DeriveParams(cat, QuarantineNulls, spec).Some?
    requires ParamsOk(cat, QuarantineNulls, spec.table, DeriveParams(cat, QuarantineNulls, spec).value)
    ensures
      var step := Render(cat, QuarantineNulls, spec.table, DeriveParams(cat, QuarantineNulls, spec).value, runId);
      step.Some? && step.value.target == Some(TargetQuery(cat, spec))
  {
    var params := DeriveParams(cat, QuarantineNulls, spec).value;
    assert params[Column] == Text(spec.column.value);
  }

  lemma InvalidsRender(cat: Catalogs, spec: CheckSpec, runId: string)
    requires BuiltIn(cat, spec) && spec.dimension == Validity
    requires DeriveParams(cat, QuarantineInvalids, spec).Some?
    requires ParamsOk(cat, QuarantineInvalids, spec.table, DeriveParams(cat, QuarantineInvalids, spec).value)
    ensures
      var step := Render(cat, QuarantineInvalids, spec.table, DeriveParams(cat, QuarantineInvalids, spec).value, runId);
      step.Some? && step.value.target == Some(TargetQuery(cat, spec))
  {
    var params := DeriveParams(cat, QuarantineInvalids, spec).value;
    assert params[CheckIdKey] == Text(spec.checkId);
  }

  lemma OrphansRender(cat: Catalogs, spec: CheckSpec, runId: string)
    requires BuiltIn(cat, spec) && spec.dimension == ReferentialIntegrity
    requires DeriveParams(cat, QuarantineOrphans, spec).Some?
    requires ParamsOk(cat, QuarantineOrphans, spec.table, DeriveParams(cat, QuarantineOrphans, spec).value)
    ensures
      var step := Render(cat, QuarantineOrphans, spec.table, DeriveParams(cat, QuarantineOrphans, spec).value, runId);
      step.Some? && step.value.target == Some(TargetQuery(cat, spec))
  {
    hide ParamsOk;
    hide QuarantineFor;
    var params := DeriveParams(cat, QuarantineOrphans, spec).value;
    var fk := ForeignKeyOf(cat, spec).value;
    assert params[RefTable] == Text(fk.refTable) && params[RefColumn] == Text(fk.refColumn);
    assert params[FkColumn] == Text(fk.column);
  }

  /** The query the check's quarantine step targets. */
  function TargetQuery(cat: Catalogs, spec: CheckSpec): Query
    requires SampleFor(cat, spec).Some? && QuarantineFor(spec.dimension).Some?
    requires spec.dimension == Validity ==> ValidityQuarantine(cat, spec).Some?
  {
    var contract := GetTable(cat, spec.table).value;
    Query(contract.Qualified(), TargetJoin(cat, spec), TargetWhere(cat, spec), contract.primaryKey[0])
  }

  function TargetJoin(cat: Catalogs, spec: CheckSpec): Option<Join>
    requires SampleFor(cat, spec).Some?
  {
    if spec.dimension != ReferentialIntegrity then None
    else
      var fk := ForeignKeyOf(cat, spec).value;
      Some(Join(GetTable(cat, fk.refTable).value.Qualified(), fk.refColumn, fk.column))
  }

  function TargetWhere(cat: Catalogs, spec: CheckSpec): Pred
    requires SampleFor(cat, spec).Some? && QuarantineFor(spec.dimension).Some?
    requires spec.dimension == Validity ==> ValidityQuarantine(cat, spec).Some?
  {
    match spec.dimension
    case Completeness => IsNull(T(spec.column.value))
    case Validity => ValidityQuarantine(cat, spec).value
    case ReferentialIntegrity => IsNull(R(ForeignKeyOf(cat, spec).value.refColumn))
  }

  /** The sample text and the target text, built separately, name the same tables and columns in the same
      places. What they denote differs: only the target text quotes its names. */
  lemma SampleNamesTarget(cat: Catalogs, spec: CheckSpec)
    requires BuiltIn(cat, spec) && QuarantineFor(spec.dimension).Some?
    ensures spec.sample == FailingRows(TargetQuery(cat, spec))
  {
  }

  /** The rows the target query selects are the rows Polars reports. */
  lemma TargetParity(cat: Catalogs, spec: CheckSpec, frames: Loaded, store: Store)
    requires BuiltIn(cat, spec) && QuarantineFor(spec.dimension).Some?
    requires SameContents(cat, TablesRead(cat, spec), frames, store)
    requires FailedRows(cat, spec, frames).Found? && Typed(frames[spec.table])
    ensures Select(store, TargetQuery(cat, spec)) == Some(FailedRows(cat, spec, frames).rows)
  {
    var contract := GetTable(cat, spec.table).value;
    var rows := frames[spec.table].rows;
    var where := TargetWhere(cat, spec);
    var query := TargetQuery(cat, spec);
    match spec.dimension
    case Completeness =>
      SelectWithoutJoin(store, query);
      FilterAgrees(rows, (t: Row) => Keeps(where, rows)(Joined(t, map[])),
                   (r: Row) => Get(r, spec.column.value) == Null);
    case Validity =>
      SelectWithoutJoin(store, query);
      ValidityParity(cat, spec, frames[spec.table]);
    case ReferentialIntegrity =>
      var fk := ForeignKeyOf(cat, spec).value;
      SelectUnmatched(store, query);
      FilterAgrees(rows, (t: Row) => Unmatched(t, frames[fk.refTable].rows, query.join.value),
                   (r: Row) => Unmatched(r, frames[fk.refTable].rows, Join(fk.refTable, fk.refColumn, fk.column)));
  }

  // ---------- literals that read as parameters ----------

  lemma NamesHoldNoColon(contract: TableContract)
    requires Nameable(contract)
    ensures ':' !in contract.Qualified()
  {
    IdentHoldsNoColon(contract.schemaName);
    IdentHoldsNoColon(contract.table);
  }

  lemma IdentHoldsNoColon(name: string)
    requires Ident(name)
    ensures ':' !in name
  {
    assert name == [name[0]] + name[1..];
  }

  lemma {:induction false} ForeignKeyFound(keys: seq<ForeignKey>, column: string)
    ensures FindForeignKey(keys, column).Some? ==>
      FindForeignKey(keys, column).value in keys && FindForeignKey(keys, column).value.column == column
  {
    if keys != [] && keys[0].column != column {
      ForeignKeyFound(keys[1..], column);
    }
  }

  /** No value the check is declared with, which the renderers put into a literal, reads as a parameter: a colon that
      follows no word character, colon or backslash, and a word right after it that no colon follows. */
  predicate LiteralsPlain(cat: Catalogs, spec: CheckSpec) {
    spec.dimension == Validity ==>
      if spec.contains.Some? then !HoldsParameter(spec.contains.value)
      else HasWindow(spec) || AllowedValues(cat, spec).None?
           || forall v | v in AllowedValues(cat, spec).value :: !HoldsParameter(v)
  }

  lemma RuleIsPlain(cat: Catalogs, spec: CheckSpec)
    requires spec.dimension == Validity && ValidityQuarantine(cat, spec).Some?
    ensures PlainColumns(ValidityQuarantine(cat, spec).value)
  {
    IdentHoldsNoColon(spec.column.value);
    if spec.contains.None? && HasWindow(spec) {
      IdentHoldsNoColon(spec.windowStart.value);
      IdentHoldsNoColon(spec.windowEnd.value);
      hide Ident;
      var where := ValidityQuarantine(cat, spec).value;
      assert PlainColumns(where.b.a) && PlainColumns(where.b.b);
      assert PlainColumns(where.b);
    }
  }

  lemma TargetIsPlain(cat: Catalogs, spec: CheckSpec)
    requires BuiltIn(cat, spec) && QuarantineFor(spec.dimension).Some?
    ensures PlainQuery(TargetQuery(cat, spec))
  {
    var contract := GetTable(cat, spec.table).value;
    NamesHoldNoColon(contract);
    assert contract.primaryKey[0] in contract.primaryKey;
    IdentHoldsNoColon(contract.primaryKey[0]);
    IdentHoldsNoColon(spec.column.value);
    if spec.dimension == ReferentialIntegrity {
      var fk := ForeignKeyOf(cat, spec).value;
      ForeignKeyFound(contract.foreignKeys, spec.column.value);
      NamesHoldNoColon(GetTable(cat, fk.refTable).value);
      IdentHoldsNoColon(fk.refColumn);
      IdentHoldsNoColon(fk.column);
    } else if spec.dimension == Validity {
      RuleIsPlain(cat, spec);
      hide ValidityQuarantine;
    }
    hide Ident;
    hide LastSegment;
  }

  lemma RuleParameters(cat: Catalogs, spec: CheckSpec)
    requires spec.dimension == Validity && ValidityQuarantine(cat, spec).Some?
    ensures LiteralHoldsParameter(ValidityQuarantine(cat, spec).value) <==> !LiteralsPlain(cat, spec)
  {
    hide HoldsParameter;
    var name, where := T(spec.column.value), ValidityQuarantine(cat, spec).value;
    if spec.contains.Some? {
      PatternParameters(spec.contains.value);
      assert LiteralHoldsParameter(where.b) <==> HoldsParameter(spec.contains.value);
    } else if HasWindow(spec) {
      assert !LiteralHoldsParameter(where.b.a) && !LiteralHoldsParameter(where.b.b);
      assert !LiteralHoldsParameter(where.b);
    } else {
      ListParameters(AllowedValues(cat, spec).value);
    }
  }

  /** The text of the check's target query holds a parameter exactly when a value it is declared with reads as one. */
  lemma TargetParameters(cat: Catalogs, spec: CheckSpec)
    requires BuiltIn(cat, spec) && QuarantineFor(spec.dimension).Some?
    ensures HoldsParameter(QueryText(TargetQuery(cat, spec))) <==> !LiteralsPlain(cat, spec)
  {
    TargetIsPlain(cat, spec);
    QueryParameters(TargetQuery(cat, spec));
    if spec.dimension == Validity {
      RuleParameters(cat, spec);
      hide LiteralsPlain;
    }
    hide HoldsParameter;
    hide PlainQuery;
    hide ContractParsed;
    hide Ident;
    hide QueryText;
    hide ValidityQuarantine;
  }

  /** The first rows of a sequence: Python's slice, SQL's LIMIT. */
  function Head(rows: seq<Row>, limit: nat): (r: seq<Row>)
    ensures r <= rows && (|r| == limit || (|r| < limit && r == rows))
  {
    if |rows| <= limit then rows else rows[..limit]
  }

  /** What a bounded sample query returns: what its unquoted text selects, in key order, up to the limit. */
  function SampleRows(store: Store, text: Query, limit: nat): Option<seq<Row>> {
    match ReadUnquoted(text)
    case None => None
    case Some(q) =>
      match Select(store, q)
      case None => None
      case Some(rows) => Some(Head(OrderBy(rows, q.pk), limit))
  }

  /** Three-way parity, NULLs included: for completeness, every validity form and referential checks the apply path
      targets exactly the rows the suite reports, so their counts agree, where no declared value reads as a parameter,
      and raises where one does; and where the names are plain as well, the sample query shows the same rows,
      ordered by key, up to its limit. */
  lemma ThreeWayParity(cat: Catalogs, spec: CheckSpec, frames: Loaded, store: Store, runId: string)
    requires BuiltIn(cat, spec) && QuarantineFor(spec.dimension).Some?
    requires DeriveParams(cat, QuarantineFor(spec.dimension).value, spec).Some?
    requires SameContents(cat, TablesRead(cat, spec), frames, store)
    requires FailedRows(cat, spec, frames).Found? && Typed(frames[spec.table])
    ensures
      var action := QuarantineFor(spec.dimension).value;
      var step := Render(cat, action, spec.table, DeriveParams(cat, action, spec).value, runId);
      var failed := FailedRows(cat, spec, frames).rows;
      && step.Some? && step.value.target == Some(TargetQuery(cat, spec))
      && TargetRows(store, step.value) == (if LiteralsPlain(cat, spec) then Some(failed) else None)
      && spec.sample == FailingRows(step.value.target.value)
      && (LiteralsPlain(cat, spec) && PlainNames(spec.sample.query) ==>
            forall limit: nat ::
              SampleRows(store, spec.sample.query, limit) == Some(Head(OrderBy(failed, spec.sample.query.pk), limit)))
  {
    DerivedRenders(cat, spec, runId);
    TargetParity(cat, spec, frames, store);
    TargetParameters(cat, spec);
    SampleNamesTarget(cat, spec);
    ReadsAsWritten(spec.sample.query);
  }
}
