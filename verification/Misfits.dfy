/** Checks that load without complaint and on which the suite raises instead of reporting: nothing compares a check
    with the types of its columns, or looks for a column named twice (quality/registry.py:44-66). */
module Misfits {
  import opened Prelude
  import opened SqlText
  import opened Sql
  import opened Contracts
  import opened Actions
  import opened Frames
  import opened Predicates
  import opened Registries
  import opened Suites

  /** A schema, a table and its key column. */
  datatype Names = Names(schemaName: string, table: string, pk: string)

  ghost predicate Usable(n: Names) {
    Ident(n.schemaName) && Ident(n.table) && Ident(n.pk)
  }

  /** A table of numbered rows, which may refer to itself. */
  function TableFor(n: Names, keys: seq<ForeignKey>): TableContract {
    TableContract(n.table, n.schemaName, [ColumnContract(n.pk, Int64, None)], [n.pk], keys)
  }

  /** A check as a registry file declares it, without policies. */
  function Raw(n: Names, column: Option<string>, dimension: Dimension, contains: Option<string>,
               key: Option<seq<string>>): CheckSpec {
    CheckSpec("check", n.table, column, dimension, "", [], contains, None, None, key, ColumnNames("", ""), None)
  }

  /** The registry file that holds this table and this check. */
  function File(contract: TableContract, raw: CheckSpec): Document {
    Entries([contract], [Declared(raw)])
  }

  /** The catalogs after loading it into empty ones. */
  function Loads(contract: TableContract, raw: CheckSpec): Catalogs
    requires BuildCheck(Alone(contract), raw).Some?
  {
    Alone(contract).(checks := map[raw.checkId := BuildCheck(Alone(contract), raw).value])
  }

  function Alone(contract: TableContract): Catalogs {
    Catalogs(map[contract.table := contract], map[])
  }

  /** The file loads, and on no database that matches its contract does the suite end in a report. */
  ghost predicate LoadsAndRaises(contract: TableContract, raw: CheckSpec) {
    && BuildCheck(Alone(contract), raw).Some?
    && LoadAll(EMPTY, File(contract, raw)) == Some(Loads(contract, raw))
    && forall loaded: Loaded | Conforms(Alone(contract), loaded) ::
         CheckOne(Loads(contract, raw), BuildCheck(Alone(contract), raw).value, loaded).None?
  }

  lemma LoadsOne(contract: TableContract, raw: CheckSpec)
    requires LastSegment(contract.table) == contract.table && raw.policies == []
    requires BuildCheck(Alone(contract), raw).Some?
    ensures LoadAll(EMPTY, File(contract, raw)) == Some(Loads(contract, raw))
  {
    hide SampleFor;
    hide QuarantinePredicate;
    hide LastSegment;
    var alone := Alone(contract);
    assert [contract][1..] == [] && [Declared(raw)][1..] == [];
    assert AddTable(EMPTY, contract) == Some(alone);
    assert AddTables(EMPTY, [contract]) == Some(alone);
    assert AddRaw(alone, Declared(raw)) == Some(Loads(contract, raw));
    assert AddChecks(alone, [Declared(raw)]) == Some(Loads(contract, raw));
  }

  /** Whether a check fits does not depend on what was compiled from it. */
  lemma FitsRaw(contract: TableContract, raw: CheckSpec, loaded: Loaded)
    requires BuildCheck(Alone(contract), raw).Some?
    ensures Fits(Loads(contract, raw), BuildCheck(Alone(contract), raw).value, loaded)
       <==> Fits(Alone(contract), raw, loaded)
  {
    hide SampleFor;
    hide QuarantinePredicate;
    hide LastSegment;
    var spec, cat := BuildCheck(Alone(contract), raw).value, Loads(contract, raw);
    assert GetTable(cat, spec.table) == GetTable(Alone(contract), raw.table);
    assert ForeignKeyOf(cat, spec) == ForeignKeyOf(Alone(contract), raw);
    assert NamedKey(cat, spec.table) == NamedKey(Alone(contract), raw.table);
    assert Needed(contract, spec) == Needed(contract, raw);
  }

  /** A built check that fits no database of its contract loads, and makes every suite run over one raise. */
  lemma Unfit(contract: TableContract, raw: CheckSpec)
    requires ContractParsed(contract) && LastSegment(contract.table) == contract.table && raw.policies == []
    requires BuildCheck(Alone(contract), raw).Some?
    requires forall loaded: Loaded | Conforms(Alone(contract), loaded) :: !Fits(Alone(contract), raw, loaded)
    ensures LoadsAndRaises(contract, raw)
  {
    LoadsOne(contract, raw);
    LoadedChecksAreBuilt(EMPTY, File(contract, raw));
    var cat, spec := Loads(contract, raw), BuildCheck(Alone(contract), raw).value;
    hide BuildCheck;
    hide LoadAll;
    hide CheckOne;
    hide Fits;
    hide BuiltIn;
    assert spec == cat.checks[raw.checkId] && BuiltIn(cat, spec);
    forall loaded: Loaded | Conforms(Alone(contract), loaded) ensures CheckOne(cat, spec, loaded).None? {
      FitsRaw(contract, raw, loaded);
      CheckReportsExactly(cat, spec, loaded);
    }
  }

  /** The one contract is found, and its key column is its only column. */
  lemma FindsTable(n: Names, keys: seq<ForeignKey>)
    requires Usable(n)
    ensures LastSegment(n.table) == n.table
    ensures GetTable(Alone(TableFor(n, keys)), n.table) == Some(TableFor(n, keys))
    ensures DeclaredTypes(TableFor(n, keys).columns) == map[n.pk := Of(Int64)]
    ensures NamedKey(Alone(TableFor(n, keys)), n.table) == Some(n.pk)
  {
    IdentSegment(n.table);
    assert TableFor(n, keys).columns[1..] == [];
  }

  /** On a database of the contract, nothing the check needs is missing. */
  lemma NothingMissing(n: Names, keys: seq<ForeignKey>, raw: CheckSpec, loaded: Loaded)
    requires Usable(n) && Conforms(Alone(TableFor(n, keys)), loaded) && raw.table == n.table
    requires Needed(TableFor(n, keys), raw) == [n.pk] || Needed(TableFor(n, keys), raw) == [n.pk, n.pk]
    requires raw.dimension == ReferentialIntegrity ==> keys == [ForeignKey(n.pk, n.table, n.pk)]
    ensures n.table in loaded && loaded[n.table].columns == map[n.pk := Of(Int64)]
    ensures !StructuralError(TableFor(n, keys), raw, loaded)
  {
    hide Needed;
    FindsTable(n, keys);
    var shown := loaded[n.table].columns.Keys;
    assert [n.pk, n.pk][1..] == [n.pk] && [n.pk][1..] == [];
    assert FirstMissing([n.pk], shown) == None;
    assert FirstMissing([n.pk, n.pk], shown) == None;
  }

  /** A text search on a column of numbers. */
  lemma TextSearchOnNumbers(n: Names, needle: string)
    requires Usable(n) && PlainNeedle(needle)
    ensures LoadsAndRaises(TableFor(n, []), Raw(n, Some(n.pk), Validity, Some(needle), None))
  {
    var contract, raw := TableFor(n, []), Raw(n, Some(n.pk), Validity, Some(needle), None);
    FindsTable(n, []);
    hide LastSegment;
    forall loaded: Loaded | Conforms(Alone(contract), loaded) ensures !Fits(Alone(contract), raw, loaded) {
      NothingMissing(n, [], raw, loaded);
      hide StructuralError;
    }
    hide Fits;
    Unfit(contract, raw);
  }

  /** A business key that names one column twice. */
  lemma RepeatedKey(n: Names)
    requires Usable(n)
    ensures LoadsAndRaises(TableFor(n, []), Raw(n, None, Uniqueness, None, Some([n.pk, n.pk])))
  {
    var contract, raw := TableFor(n, []), Raw(n, None, Uniqueness, None, Some([n.pk, n.pk]));
    FindsTable(n, []);
    hide LastSegment;
    forall loaded: Loaded | Conforms(Alone(contract), loaded) ensures !Fits(Alone(contract), raw, loaded) {
      NothingMissing(n, [], raw, loaded);
      hide StructuralError;
      assert [n.pk, n.pk][0] == [n.pk, n.pk][1];
    }
    hide Fits;
    Unfit(contract, raw);
  }

  /** A foreign key that is the primary key as well. */
  lemma KeyIsForeignKey(n: Names)
    requires Usable(n)
    ensures LoadsAndRaises(TableFor(n, [ForeignKey(n.pk, n.table, n.pk)]),
                           Raw(n, Some(n.pk), ReferentialIntegrity, None, None))
  {
    var keys := [ForeignKey(n.pk, n.table, n.pk)];
    var contract, raw := TableFor(n, keys), Raw(n, Some(n.pk), ReferentialIntegrity, None, None);
    FindsTable(n, keys);
    hide LastSegment;
    assert ForeignKeyOf(Alone(contract), raw) == Some(keys[0]);
    forall loaded: Loaded | Conforms(Alone(contract), loaded) ensures !Fits(Alone(contract), raw, loaded) {
      NothingMissing(n, keys, raw, loaded);
      hide StructuralError;
    }
    hide Fits;
    Unfit(contract, raw);
  }
}
