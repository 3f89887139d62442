/** What the results of a suite run say of the frames they were taken from (quality/suite.py,
    quality/predicates.py): which rows a check counts as failing, out of how many, and when it is not measured. */
module Measures {
  import opened Prelude
  import opened SqlText
  import opened Sql
  import opened Contracts
  import opened Actions
  import opened Frames
  import opened Predicates
  import opened Planning
  import opened Suites

  // ---------- schema drift ----------

  /** A schema-drift check passes exactly when the frame shows the declared names; it fails by the names only one
      side has, out of all. */
  lemma DriftMeaning(cat: Catalogs, spec: CheckSpec, loaded: Loaded)
    requires spec.dimension == SchemaDrift && GetTable(cat, spec.table).Some? && spec.table in loaded
    ensures CheckOne(cat, spec, loaded).Some?
    ensures
      var r := CheckOne(cat, spec, loaded).value;
      var declared := set c | c in GetTable(cat, spec.table).value.columns :: c.name;
      var shown := loaded[spec.table].columns.Keys;
      && r.status == (if declared == shown then Pass else Fail)
      && r.nFailed == |set n | n in declared + shown && (n in declared <==> n !in shown)|
      && r.nTotal == |set n | n in declared + shown|
  {
    var declared := set c | c in GetTable(cat, spec.table).value.columns :: c.name;
    var shown := loaded[spec.table].columns.Keys;
    var onlyShown, onlyDeclared := shown - declared, declared - shown;
    assert (set n | n in declared + shown && (n in declared <==> n !in shown)) == onlyShown + onlyDeclared;
    assert (set n | n in declared + shown) == declared + shown;
    if declared != shown {
      assert (exists n :: n in onlyShown) || exists n :: n in onlyDeclared;
    }
  }

  /** A contracted table that was not loaded is one failure. */
  lemma DriftOfMissingTable(cat: Catalogs, spec: CheckSpec, loaded: Loaded)
    requires spec.dimension == SchemaDrift && GetTable(cat, spec.table).Some? && spec.table !in loaded
    ensures CheckOne(cat, spec, loaded).Some?
    ensures
      var r := CheckOne(cat, spec, loaded).value;
      && r.status == Fail && r.nFailed == 1
      && r.nTotal == |set c | c in GetTable(cat, spec.table).value.columns :: c.name|
  {
  }

  // ---------- the rows that fail ----------

  /** The contract's first entry for the column lists the value. */
  ghost predicate AllowedBy(contract: TableContract, column: string, value: Cell) {
    exists k: nat | k < |contract.columns| ::
      && contract.columns[k].name == column && (forall j | 0 <= j < k :: contract.columns[j].name != column)
      && contract.columns[k].allowedValues.Some?
      && value.Str? && value.s in contract.columns[k].allowedValues.value
  }

  /** The table and column the contract's first foreign key on this column points at hold the value. */
  ghost predicate ParentHolds(contract: TableContract, column: string, loaded: Loaded, value: Cell) {
    exists k: nat | k < |contract.foreignKeys| ::
      && contract.foreignKeys[k].column == column
      && (forall j | 0 <= j < k :: contract.foreignKeys[j].column != column)
      && contract.foreignKeys[k].refTable in loaded
      && exists p | p in loaded[contract.foreignKeys[k].refTable].rows ::
           Get(p, contract.foreignKeys[k].refColumn) == value
  }

  ghost predicate SameOn(a: Row, b: Row, keys: seq<string>) {
    forall k | k in keys :: Get(a, k) == Get(b, k)
  }

  /** Row i breaks what the check declares. */
  ghost predicate Faulty(contract: TableContract, spec: CheckSpec, loaded: Loaded, i: nat)
    requires spec.table in loaded && i < |loaded[spec.table].rows|
    requires spec.dimension == Uniqueness || spec.column.Some?
    requires spec.dimension == Uniqueness ==> spec.businessKey.Some?
  {
    var rows := loaded[spec.table].rows;
    if spec.dimension == Uniqueness then
      && (forall k | k in spec.businessKey.value :: Get(rows[i], k) != Null)
      && exists j | 0 <= j < |rows| && j != i :: SameOn(rows[j], rows[i], spec.businessKey.value)
    else
      var value := Get(rows[i], spec.column.value);
      match spec.dimension
      case Completeness => value == Null
      case Validity =>
        if spec.contains.Some? then
          !exists before: string, after: string :: value == Str(before + spec.contains.value + after)
        else if spec.windowStart.Some? && spec.windowStart.value != ""
                && spec.windowEnd.Some? && spec.windowEnd.value != "" then
          var start, end := Get(rows[i], spec.windowStart.value), Get(rows[i], spec.windowEnd.value);
          value != Null && (Before(value, start) || Before(end, value))
        else value != Null && !AllowedBy(contract, spec.column.value, value)
      case _ => value == Null || !ParentHolds(contract, spec.column.value, loaded, value)
  }

  /** A column the check looks at. */
  predicate LooksAt(contract: TableContract, spec: CheckSpec, name: string) {
    && name != ""
    && (|| spec.column == Some(name) || spec.windowStart == Some(name) || spec.windowEnd == Some(name)
        || (spec.businessKey.Some? && name in spec.businessKey.value)
        || (spec.dimension == ReferentialIntegrity && name in contract.primaryKey))
  }

  /** What the check needs is missing: its table, a column it looks at, or what its foreign key points at. */
  ghost predicate Unreadable(contract: TableContract, spec: CheckSpec, loaded: Loaded) {
    || spec.table !in loaded
    || (exists name :: LooksAt(contract, spec, name) && name !in loaded[spec.table].columns)
    || (spec.dimension == ReferentialIntegrity && exists fk | fk in contract.foreignKeys ::
          spec.column == Some(fk.column)
          && (fk.refTable !in loaded || fk.refColumn !in loaded[fk.refTable].columns))
  }

  ghost function Positions<T(!new)>(s: seq<T>, p: T -> bool): set<nat> {
    set i: nat | i < |s| && p(s[i])
  }

  lemma {:induction false} FilterSize<T(!new)>(s: seq<T>, p: T -> bool)
    ensures |Filter(s, p)| == |Positions(s, p)|
  {
    if s != [] {
      var n := |s| - 1;
      var rest := s[..n];
      FilterSize(rest, p);
      assert s == rest + [s[n]];
      FilterAppend(rest, [s[n]], p);
      var last := Filter([s[n]], p);
      assert last == if p(s[n]) then [s[n]] else [];
      PositionsOf(s, p);
      assert |Filter(s, p)| == |Filter(rest, p)| + |last|;
    }
  }

  lemma PositionsOf<T(!new)>(s: seq<T>, p: T -> bool)
    requires s != []
    ensures |Positions(s, p)| == |Positions(s[..|s| - 1], p)| + if p(s[|s| - 1]) then 1 else 0
  {
    var n: nat := |s| - 1;
    var rest := Positions(s[..n], p);
    if p(s[n]) {
      assert Positions(s, p) == rest + {n};
    } else {
      assert Positions(s, p) == rest;
    }
  }

  lemma ContainsMeans(s: string, needle: string)
    ensures Contains(s, needle) <==> exists before: string, after: string :: s == before + needle + after
  {
    if i: nat :| i <= |s| && OccursAt(s, needle, i) {
      assert s == s[..i] + needle + s[i + |needle|..];
    }
    if before: string, after: string :| s == before + needle + after {
      assert OccursAt(s, needle, |before|);
    }
  }

  lemma {:induction false} ColumnMeaning(contract: TableContract, columns: seq<ColumnContract>, from: nat, name: string,
                                         value: Cell)
    requires from <= |contract.columns| && columns == contract.columns[from..]
    requires forall j | 0 <= j < from :: contract.columns[j].name != name
    ensures AllowedBy(contract, name, value) <==>
      (FindColumn(columns, name).Some? && FindColumn(columns, name).value.allowedValues.Some?
       && value.Str? && value.s in FindColumn(columns, name).value.allowedValues.value)
  {
    if columns != [] {
      assert columns[0] == contract.columns[from];
      if columns[0].name != name {
        ColumnMeaning(contract, columns[1..], from + 1, name, value);
      }
    }
  }

  lemma {:induction false} KeyMeaning(contract: TableContract, keys: seq<ForeignKey>, from: nat, column: string,
                                      loaded: Loaded, value: Cell)
    requires from <= |contract.foreignKeys| && keys == contract.foreignKeys[from..]
    requires forall j | 0 <= j < from :: contract.foreignKeys[j].column != column
    ensures ParentHolds(contract, column, loaded, value) <==>
      (FindForeignKey(keys, column).Some?
       && var fk := FindForeignKey(keys, column).value;
          fk.refTable in loaded && exists p | p in loaded[fk.refTable].rows :: Get(p, fk.refColumn) == value)
  {
    if keys != [] {
      assert keys[0] == contract.foreignKeys[from];
      if keys[0].column != column {
        KeyMeaning(contract, keys[1..], from + 1, column, loaded, value);
      }
    }
  }

  /** The rows that break what the check declares, by position. */
  ghost function FaultyRows(contract: TableContract, spec: CheckSpec, loaded: Loaded): set<nat>
    requires spec.table in loaded
    requires spec.dimension == Uniqueness || spec.column.Some?
    requires spec.dimension == Uniqueness ==> spec.businessKey.Some?
  {
    set i: nat | i < |loaded[spec.table].rows| && Faulty(contract, spec, loaded, i)
  }

  lemma SizeAgrees(contract: TableContract, spec: CheckSpec, loaded: Loaded, p: Row -> bool)
    requires spec.table in loaded
    requires spec.dimension == Uniqueness || spec.column.Some?
    requires spec.dimension == Uniqueness ==> spec.businessKey.Some?
    requires forall i: nat | i < |loaded[spec.table].rows| ::
      p(loaded[spec.table].rows[i]) <==> Faulty(contract, spec, loaded, i)
    ensures |Filter(loaded[spec.table].rows, p)| == |FaultyRows(contract, spec, loaded)|
  {
    hide Faulty;
    FilterSize(loaded[spec.table].rows, p);
    assert Positions(loaded[spec.table].rows, p) == FaultyRows(contract, spec, loaded);
  }

  lemma CompletenessCounts(cat: Catalogs, spec: CheckSpec, loaded: Loaded)
    requires BuiltIn(cat, spec) && spec.dimension == Completeness && FailedRows(cat, spec, loaded).Found?
    ensures |FailedRows(cat, spec, loaded).rows| == |FaultyRows(GetTable(cat, spec.table).value, spec, loaded)|
  {
    SizeAgrees(GetTable(cat, spec.table).value, spec, loaded, (r: Row) => Get(r, spec.column.value) == Null);
  }

  lemma ValidityCounts(cat: Catalogs, spec: CheckSpec, loaded: Loaded)
    requires BuiltIn(cat, spec) && spec.dimension == Validity && FailedRows(cat, spec, loaded).Found?
    ensures |FailedRows(cat, spec, loaded).rows| == |FaultyRows(GetTable(cat, spec.table).value, spec, loaded)|
  {
    var contract, rows, name := GetTable(cat, spec.table).value, loaded[spec.table].rows, spec.column.value;
    if spec.contains.Some? {
      var p := (r: Row) => !(Get(r, name).Str? && Contains(Get(r, name).s, spec.contains.value));
      forall i: nat | i < |rows| ensures p(rows[i]) <==> Faulty(contract, spec, loaded, i) {
        if Get(rows[i], name).Str? {
          ContainsMeans(Get(rows[i], name).s, spec.contains.value);
        }
      }
      SizeAgrees(contract, spec, loaded, p);
    } else if HasWindow(spec) {
      var start, end := spec.windowStart.value, spec.windowEnd.value;
      forall i: nat | i < |rows|
        ensures OutsideWindow(rows[i], name, start, end) <==> Faulty(contract, spec, loaded, i)
      {
        LessMeansBefore(Get(rows[i], name), Get(rows[i], start));
        LessMeansBefore(Get(rows[i], end), Get(rows[i], name));
      }
      SizeAgrees(contract, spec, loaded, (r: Row) => OutsideWindow(r, name, start, end));
    } else {
      var values := AllowedValues(cat, spec).value;
      var p := (r: Row) => Get(r, name) != Null && !(Get(r, name).Str? && Get(r, name).s in values);
      forall i: nat | i < |rows| ensures p(rows[i]) <==> Faulty(contract, spec, loaded, i) {
        ColumnMeaning(contract, contract.columns, 0, name, Get(rows[i], name));
      }
      SizeAgrees(contract, spec, loaded, p);
    }
  }

  lemma SharingMeans(rows: seq<Row>, i: nat, keys: seq<string>)
    requires i < |rows|
    ensures SharesKey(rows[i], rows, keys) <==>
      && (forall k | k in keys :: Get(rows[i], k) != Null)
      && exists j | 0 <= j < |rows| && j != i :: SameOn(rows[j], rows[i], keys)
  {
    var same := (s: Row) => GroupKey(s, keys) == GroupKey(rows[i], keys);
    FilterSize(rows, same);
    var group := Positions(rows, same);
    assert i in group;
    forall j: nat | j < |rows| ensures j in group <==> SameOn(rows[j], rows[i], keys) {
      SameKey(rows[j], rows[i], keys);
    }
    NullKey(rows[i], keys);
    hide GroupKey;
    hide SameOn;
    if |group| > 1 {
      assert |group - {i}| > 0;
      var j :| j in group - {i};
      assert SameOn(rows[j], rows[i], keys);
    } else if j: nat :| j < |rows| && j != i && SameOn(rows[j], rows[i], keys) {
      SmallerSet({i, j}, group);
    }
  }

  lemma SmallerSet(a: set<nat>, b: set<nat>)
    requires a <= b
    ensures |a| <= |b|
  {
    assert b == a + (b - a);
  }

  lemma SameKey(a: Row, b: Row, keys: seq<string>)
    ensures GroupKey(a, keys) == GroupKey(b, keys) <==> SameOn(a, b, keys)
  {
    if GroupKey(a, keys) == GroupKey(b, keys) {
      forall k | k in keys ensures Get(a, k) == Get(b, k) {
        var i: nat :| i < |keys| && keys[i] == k;
        assert GroupKey(a, keys)[i] == GroupKey(b, keys)[i];
      }
    }
  }

  lemma NullKey(row: Row, keys: seq<string>)
    ensures Null !in GroupKey(row, keys) <==> forall k | k in keys :: Get(row, k) != Null
  {
    forall i: nat | i < |keys| ensures GroupKey(row, keys)[i] == Get(row, keys[i]) && keys[i] in keys {
    }
  }

  lemma UniquenessCounts(cat: Catalogs, spec: CheckSpec, loaded: Loaded)
    requires BuiltIn(cat, spec) && spec.dimension == Uniqueness && FailedRows(cat, spec, loaded).Found?
    ensures |FailedRows(cat, spec, loaded).rows| == |FaultyRows(GetTable(cat, spec.table).value, spec, loaded)|
  {
    hide SharesKey;
    var contract, rows, keys := GetTable(cat, spec.table).value, loaded[spec.table].rows, spec.businessKey.value;
    forall i: nat | i < |rows| ensures SharesKey(rows[i], rows, keys) <==> Faulty(contract, spec, loaded, i) {
      SharingMeans(rows, i, keys);
    }
    SizeAgrees(contract, spec, loaded, (r: Row) => SharesKey(r, rows, keys));
  }

  lemma OrphansCount(cat: Catalogs, spec: CheckSpec, loaded: Loaded)
    requires BuiltIn(cat, spec) && spec.dimension == ReferentialIntegrity && FailedRows(cat, spec, loaded).Found?
    ensures |FailedRows(cat, spec, loaded).rows| == |FaultyRows(GetTable(cat, spec.table).value, spec, loaded)|
  {
    var contract, rows := GetTable(cat, spec.table).value, loaded[spec.table].rows;
    var fk := ForeignKeyOf(cat, spec).value;
    ForeignKeyFound(contract.foreignKeys, spec.column.value);
    var j := Join(fk.refTable, fk.refColumn, fk.column);
    var parents := loaded[fk.refTable].rows;
    forall i: nat | i < |rows| ensures Unmatched(rows[i], parents, j) <==> Faulty(contract, spec, loaded, i) {
      KeyMeaning(contract, contract.foreignKeys, 0, spec.column.value, loaded, Get(rows[i], fk.column));
    }
    SizeAgrees(contract, spec, loaded, (r: Row) => Unmatched(r, parents, j));
  }

  // ---------- a measured check ----------

  /** A check that was measured counts the rows that break its declaration, out of the rows of its table, and passes
      when there are none; one that was not counts nothing. */
  lemma ResultMeaning(cat: Catalogs, spec: CheckSpec, loaded: Loaded)
    requires BuiltIn(cat, spec) && spec.dimension != SchemaDrift && CheckOne(cat, spec, loaded).Some?
    ensures
      var r := CheckOne(cat, spec, loaded).value;
      && (r.status != Error ==>
            && spec.table in loaded && r.nTotal == |loaded[spec.table].rows|
            && (spec.dimension == Uniqueness || spec.column.Some?)
            && (spec.dimension == Uniqueness ==> spec.businessKey.Some?)
            && r.nFailed == |FaultyRows(GetTable(cat, spec.table).value, spec, loaded)|
            && r.status == (if r.nFailed == 0 then Pass else Fail))
      && (r.status == Error ==> r.nFailed == 0 && r.nTotal == 0)
  {
    hide FaultyRows;
    hide StructuralError;
    if CheckOne(cat, spec, loaded).value.status != Error {
      assert FailedRows(cat, spec, loaded).Found?;
      match spec.dimension
      case Completeness => CompletenessCounts(cat, spec, loaded);
      case Validity => ValidityCounts(cat, spec, loaded);
      case Uniqueness => UniquenessCounts(cat, spec, loaded);
      case ReferentialIntegrity => OrphansCount(cat, spec, loaded);
      hide FailedRows;
      hide BuiltIn;
    }
  }

  lemma {:induction false} MissingMeans(needed: seq<string>, columns: set<string>)
    requires "" !in needed
    ensures !NoText(FirstMissing(needed, columns)) <==> exists name | name in needed :: name !in columns
  {
    if needed != [] {
      assert needed == [needed[0]] + needed[1..];
      if needed[0] in columns {
        MissingMeans(needed[1..], columns);
      }
    }
  }

  lemma NeededMeans(contract: TableContract, spec: CheckSpec, name: string)
    requires name != ""
    ensures name in Needed(contract, spec) <==> LooksAt(contract, spec, name)
  {
    assert spec.column.Some? ==> (name in Named(spec.column) <==> name == spec.column.value);
    assert spec.windowStart.Some? ==> (name in Named(spec.windowStart) <==> name == spec.windowStart.value);
    assert spec.windowEnd.Some? ==> (name in Named(spec.windowEnd) <==> name == spec.windowEnd.value);
  }

  /** A check is reported as an error exactly when what it needs is missing. */
  lemma ErrorExactly(cat: Catalogs, spec: CheckSpec, loaded: Loaded)
    requires BuiltIn(cat, spec) && spec.dimension != SchemaDrift && CheckOne(cat, spec, loaded).Some?
    requires spec.businessKey.Some? ==> "" !in spec.businessKey.value
    ensures CheckOne(cat, spec, loaded).value.status == Error
       <==> Unreadable(GetTable(cat, spec.table).value, spec, loaded)
  {
    var contract := GetTable(cat, spec.table).value;
    if spec.table in loaded {
      StructuralMeans(cat, spec, loaded);
      if !StructuralError(contract, spec, loaded) {
        NothingElseMissing(cat, spec, loaded);
      }
      hide StructuralError;
      hide Unreadable;
      hide FailedRows;
      hide BuiltIn;
      assert ContractOf(cat, spec) == contract;
    }
  }

  lemma StructuralMeans(cat: Catalogs, spec: CheckSpec, loaded: Loaded)
    requires BuiltIn(cat, spec) && spec.table in loaded
    requires spec.businessKey.Some? ==> "" !in spec.businessKey.value
    requires spec.dimension != SchemaDrift
    ensures StructuralError(GetTable(cat, spec.table).value, spec, loaded)
       <==> Unreadable(GetTable(cat, spec.table).value, spec, loaded)
  {
    var contract := GetTable(cat, spec.table).value;
    var columns := loaded[spec.table].columns.Keys;
    MissingMeans(Needed(contract, spec), columns);
    forall name: string | name != "" ensures name in Needed(contract, spec) <==> LooksAt(contract, spec, name) {
      NeededMeans(contract, spec, name);
    }
    hide LooksAt;
    if name :| name in Needed(contract, spec) && name !in columns {
      assert LooksAt(contract, spec, name);
    }
  }

  /** A check whose needs are met ends in rows, or ends the suite. */
  lemma NothingElseMissing(cat: Catalogs, spec: CheckSpec, loaded: Loaded)
    requires BuiltIn(cat, spec) && spec.table in loaded && spec.dimension != SchemaDrift
    requires !Unreadable(GetTable(cat, spec.table).value, spec, loaded)
    ensures !FailedRows(cat, spec, loaded).NotFound?
  {
    var contract := GetTable(cat, spec.table).value;
    assert spec.column.Some? && spec.column.value != "" ==> LooksAt(contract, spec, spec.column.value);
    match spec.dimension
    case Completeness =>
    case SchemaDrift =>
    case Validity =>
      assert HasWindow(spec) ==>
        LooksAt(contract, spec, spec.windowStart.value) && LooksAt(contract, spec, spec.windowEnd.value);
    case Uniqueness =>
      forall k | k in spec.businessKey.value ensures k in loaded[spec.table].columns {
        assert LooksAt(contract, spec, k);
      }
    case ReferentialIntegrity =>
      ForeignKeyFound(contract.foreignKeys, spec.column.value);
      assert contract.primaryKey[0] in contract.primaryKey;
      assert LooksAt(contract, spec, contract.primaryKey[0]);
  }
}
