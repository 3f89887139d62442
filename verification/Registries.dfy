/** The process-wide catalogs of table contracts and checks: insert, validate and roll back
    (quality/registry.py, contracts/tables.py), and all-or-nothing loading (load.py). */
module Registries {
  import opened Prelude
  import opened Contracts
  import opened Actions
  import opened Predicates

  // ---------- the operations on catalog values ----------

  /** `register_contract`, None where the table is already registered. */
  function AddTable(cat: Catalogs, contract: TableContract): Option<Catalogs> {
    var key := LastSegment(contract.table);
    if key in cat.tables then None else Some(cat.(tables := cat.tables[key := contract]))
  }

  /** Every declared policy of the check derives valid parameters. */
  predicate Bindable(cat: Catalogs, spec: CheckSpec) {
    forall p | p in spec.policies :: DeriveParams(cat, p.actionId, spec).Some?
  }

  /** `register_check`: the check is validated while it is already visible in the catalog. */
  function AddCheck(cat: Catalogs, spec: CheckSpec): Option<Catalogs> {
    if spec.checkId in cat.checks then None
    else
      var added := cat.(checks := cat.checks[spec.checkId := spec]);
      if Bindable(added, spec) then Some(added) else None
  }

  function AddTables(cat: Catalogs, contracts: seq<TableContract>): Option<Catalogs>
    decreases |contracts|
  {
    if contracts == [] then Some(cat)
    else if AddTable(cat, contracts[0]).None? then None
    else AddTables(AddTable(cat, contracts[0]).value, contracts[1..])
  }

  /** A check entry of the document: the fields it declares, or an entry that does not parse. */
  datatype RawCheck = Malformed | Declared(spec: CheckSpec)

  function AddRaw(cat: Catalogs, raw: RawCheck): Option<Catalogs> {
    if raw.Malformed? || BuildCheck(cat, raw.spec).None? then None
    else AddCheck(cat, BuildCheck(cat, raw.spec).value)
  }

  function AddChecks(cat: Catalogs, checks: seq<RawCheck>): Option<Catalogs>
    decreases |checks|
  {
    if checks == [] then Some(cat)
    else if AddRaw(cat, checks[0]).None? then None
    else AddChecks(AddRaw(cat, checks[0]).value, checks[1..])
  }

  /** A registry file: unreadable, or its tables and checks in order. */
  datatype Document = Unreadable | Entries(tables: seq<TableContract>, checks: seq<RawCheck>)

  function LoadAll(cat: Catalogs, document: Document): Option<Catalogs> {
    if document.Unreadable? || AddTables(cat, document.tables).None? then None
    else AddChecks(AddTables(cat, document.tables).value, document.checks)
  }

  const EMPTY := Catalogs(map[], map[])

  // ---------- the invariant ----------

  /** Every key is its entry's own id, every table is well formed, every declared policy is bindable. */
  ghost predicate CatalogInvariant(cat: Catalogs) {
    && (forall k | k in cat.tables :: cat.tables[k].table == k && ContractParsed(cat.tables[k]))
    && (forall k | k in cat.checks :: cat.checks[k].checkId == k && Bindable(cat, cat.checks[k]))
  }

  lemma BindableMonotone(a: Catalogs, b: Catalogs, spec: CheckSpec)
    requires Extends(a, b) && Bindable(a, spec)
    ensures Bindable(b, spec)
  {
    forall p | p in spec.policies ensures DeriveParams(b, p.actionId, spec).Some? {
      DerivationMonotone(a, b, p.actionId, spec);
    }
  }

  lemma AddTableKeeps(cat: Catalogs, contract: TableContract)
    requires CatalogInvariant(cat) && ContractParsed(contract) && AddTable(cat, contract).Some?
    ensures CatalogInvariant(AddTable(cat, contract).value)
    ensures Extends(cat, AddTable(cat, contract).value)
  {
    var added := AddTable(cat, contract).value;
    IdentSegment(contract.table);
    forall k | k in cat.checks ensures Bindable(added, cat.checks[k]) {
      BindableMonotone(cat, added, cat.checks[k]);
    }
  }

  lemma AddCheckKeeps(cat: Catalogs, spec: CheckSpec)
    requires CatalogInvariant(cat) && AddCheck(cat, spec).Some?
    ensures CatalogInvariant(AddCheck(cat, spec).value)
    ensures Extends(cat, AddCheck(cat, spec).value)
  {
    var added := AddCheck(cat, spec).value;
    forall k | k in cat.checks ensures Bindable(added, cat.checks[k]) {
      BindableMonotone(cat, added, cat.checks[k]);
    }
  }

  lemma ExtendsTransitive(a: Catalogs, b: Catalogs, c: Catalogs)
    requires Extends(a, b) && Extends(b, c)
    ensures Extends(a, c)
  {
    forall k | k in a.tables ensures k in c.tables && c.tables[k] == a.tables[k] {
      assert k in b.tables;
    }
    forall k | k in a.checks ensures k in c.checks && c.checks[k] == a.checks[k] {
      assert k in b.checks;
    }
  }

  predicate DocumentParsed(document: Document) {
    document.Entries? ==> forall c | c in document.tables :: ContractParsed(c)
  }

  lemma {:induction false} AddTablesKeeps(cat: Catalogs, contracts: seq<TableContract>)
    requires CatalogInvariant(cat) && AddTables(cat, contracts).Some?
    requires forall c | c in contracts :: ContractParsed(c)
    ensures CatalogInvariant(AddTables(cat, contracts).value)
    ensures Extends(cat, AddTables(cat, contracts).value)
    decreases |contracts|
  {
    if contracts != [] {
      AddTableKeeps(cat, contracts[0]);
      AddTablesKeeps(AddTable(cat, contracts[0]).value, contracts[1..]);
      ExtendsTransitive(cat, AddTable(cat, contracts[0]).value, AddTables(cat, contracts).value);
    }
  }

  lemma {:induction false} AddChecksKeeps(cat: Catalogs, checks: seq<RawCheck>)
    requires CatalogInvariant(cat) && AddChecks(cat, checks).Some?
    ensures CatalogInvariant(AddChecks(cat, checks).value)
    ensures Extends(cat, AddChecks(cat, checks).value)
    decreases |checks|
  {
    if checks != [] {
      var next := AddRaw(cat, checks[0]).value;
      AddCheckKeeps(cat, BuildCheck(cat, checks[0].spec).value);
      AddChecksKeeps(next, checks[1..]);
      ExtendsTransitive(cat, next, AddChecks(cat, checks).value);
    }
  }

  lemma LoadAllKeeps(cat: Catalogs, document: Document)
    requires CatalogInvariant(cat) && DocumentParsed(document) && LoadAll(cat, document).Some?
    ensures CatalogInvariant(LoadAll(cat, document).value)
    ensures Extends(cat, LoadAll(cat, document).value)
  {
    var tables := AddTables(cat, document.tables).value;
    AddTablesKeeps(cat, document.tables);
    AddChecksKeeps(tables, document.checks);
    ExtendsTransitive(cat, tables, LoadAll(cat, document).value);
  }

  // ---------- whole histories ----------

  datatype Operation =
    | RegisterTable(contract: TableContract)
    | RegisterCheck(spec: CheckSpec)
    | Load(document: Document)
    | Use(document: Document)

  /** One operation, a failing one included. */
  function After(cat: Catalogs, op: Operation): Catalogs {
    match op
    case RegisterTable(c) => if AddTable(cat, c).Some? then AddTable(cat, c).value else cat
    case RegisterCheck(s) => if AddCheck(cat, s).Some? then AddCheck(cat, s).value else cat
    case Load(d) => if LoadAll(cat, d).Some? then LoadAll(cat, d).value else cat
    case Use(d) => if LoadAll(EMPTY, d).Some? then LoadAll(EMPTY, d).value else EMPTY
  }

  function History(cat: Catalogs, ops: seq<Operation>): Catalogs
    decreases |ops|
  {
    if ops == [] then cat else History(After(cat, ops[0]), ops[1..])
  }

  predicate OperationParsed(op: Operation) {
    match op
    case RegisterTable(c) => ContractParsed(c)
    case RegisterCheck(_) => true
    case Load(d) => DocumentParsed(d)
    case Use(d) => DocumentParsed(d)
  }

  lemma AfterKeeps(cat: Catalogs, op: Operation)
    requires CatalogInvariant(cat) && OperationParsed(op)
    ensures CatalogInvariant(After(cat, op))
    ensures !op.Use? ==> Extends(cat, After(cat, op))
  {
    match op
    case RegisterTable(c) => if AddTable(cat, c).Some? { AddTableKeeps(cat, c); }
    case RegisterCheck(s) => if AddCheck(cat, s).Some? { AddCheckKeeps(cat, s); }
    case Load(d) => if LoadAll(cat, d).Some? { LoadAllKeeps(cat, d); }
    case Use(d) => if LoadAll(EMPTY, d).Some? { LoadAllKeeps(EMPTY, d); }
  }

  /** After any sequence of registrations, loads and replacements, succeeding or failing, the catalogs are
      keyed by their entries' own ids and every declared policy still derives valid parameters. */
  lemma {:induction false} EveryHistoryKeepsInvariant(ops: seq<Operation>, cat: Catalogs)
    requires CatalogInvariant(cat)
    requires forall op | op in ops :: OperationParsed(op)
    ensures CatalogInvariant(History(cat, ops))
    decreases |ops|
  {
    if ops != [] {
      AfterKeeps(cat, ops[0]);
      EveryHistoryKeepsInvariant(ops[1..], After(cat, ops[0]));
    }
  }

  lemma {:induction false} HistoryExtends(cat: Catalogs, ops: seq<Operation>)
    requires CatalogInvariant(cat)
    requires forall op | op in ops :: OperationParsed(op) && !op.Use?
    ensures Extends(cat, History(cat, ops))
    decreases |ops|
  {
    if ops != [] {
      AfterKeeps(cat, ops[0]);
      HistoryExtends(After(cat, ops[0]), ops[1..]);
      ExtendsTransitive(cat, After(cat, ops[0]), History(cat, ops));
    }
  }

  /** Until the registry is replaced, a registered check stays and what it derives never changes. */
  lemma DerivationsAreStable(cat: Catalogs, ops: seq<Operation>, checkId: string, action: ActionId)
    requires CatalogInvariant(cat)
    requires forall op | op in ops :: OperationParsed(op) && !op.Use?
    requires checkId in cat.checks && DeriveParams(cat, action, cat.checks[checkId]).Some?
    ensures GetCheck(History(cat, ops), checkId) == Some(cat.checks[checkId])
    ensures DeriveParams(History(cat, ops), action, cat.checks[checkId])
         == DeriveParams(cat, action, cat.checks[checkId])
  {
    HistoryExtends(cat, ops);
    DerivationMonotone(cat, History(cat, ops), action, cat.checks[checkId]);
  }

  /** What loading builds stays consistent with the catalog it lands in: the compiled sample and
      quarantine predicate are what the current catalog compiles. */
  lemma BuiltChecksAreBuilt(cat: Catalogs, raw: RawCheck)
    requires CatalogInvariant(cat) && AddRaw(cat, raw).Some?
    requires LastSegment(raw.spec.table) in cat.tables
    ensures BuiltIn(AddRaw(cat, raw).value, BuildCheck(cat, raw.spec).value)
  {
    var spec := BuildCheck(cat, raw.spec).value;
    var added := AddRaw(cat, raw).value;
    assert added.tables == cat.tables;
    SampleFields(cat, added, raw.spec, spec);
  }

  lemma SampleFields(cat: Catalogs, added: Catalogs, raw: CheckSpec, spec: CheckSpec)
    requires added.tables == cat.tables
    requires spec == raw.(contractId := spec.contractId, sample := spec.sample,
                          quarantinePredicate := spec.quarantinePredicate)
    ensures SampleFor(added, spec) == SampleFor(cat, raw)
    ensures QuarantinePredicate(added, spec) == QuarantinePredicate(cat, raw)
  {
    assert forall t :: GetTable(added, t) == GetTable(cat, t);
    assert NamedColumn(spec) == NamedColumn(raw);
    assert AllowedValues(added, spec) == AllowedValues(cat, raw);
    assert ForeignKeyOf(added, spec) == ForeignKeyOf(cat, raw);
    assert NamedKey(added, spec.table) == NamedKey(cat, raw.table);
  }

  /** Every check carries what the catalogs it sits in compile it to. */
  ghost predicate AllBuilt(cat: Catalogs) {
    forall id | id in cat.checks :: BuiltIn(cat, cat.checks[id])
  }

  /** Growing catalogs never make a compiled sample or quarantine predicate stale. */
  lemma BuiltStays(a: Catalogs, b: Catalogs, spec: CheckSpec)
    requires Extends(a, b) && BuiltIn(a, spec)
    ensures BuiltIn(b, spec)
  {
    hide LastSegment;
    assert GetTable(b, spec.table) == GetTable(a, spec.table);
    assert AllowedValues(b, spec) == AllowedValues(a, spec);
    assert ForeignKeyOf(b, spec) == ForeignKeyOf(a, spec);
    assert NamedKey(b, spec.table) == NamedKey(a, spec.table);
  }

  lemma {:induction false} AddedTablesKeepBuilt(cat: Catalogs, contracts: seq<TableContract>)
    requires CatalogInvariant(cat) && AllBuilt(cat) && AddTables(cat, contracts).Some?
    requires forall c | c in contracts :: ContractParsed(c)
    ensures AllBuilt(AddTables(cat, contracts).value)
  {
    hide BuiltIn;
    hide CatalogInvariant;
    hide Extends;
    var tables := AddTables(cat, contracts).value;
    AddTablesKeeps(cat, contracts);
    SameChecks(cat, contracts);
    forall id | id in tables.checks ensures BuiltIn(tables, tables.checks[id]) {
      BuiltStays(cat, tables, cat.checks[id]);
    }
  }

  lemma {:induction false} SameChecks(cat: Catalogs, contracts: seq<TableContract>)
    requires AddTables(cat, contracts).Some?
    ensures AddTables(cat, contracts).value.checks == cat.checks
    decreases |contracts|
  {
    if contracts != [] {
      SameChecks(AddTable(cat, contracts[0]).value, contracts[1..]);
    }
  }

  lemma {:induction false} AddedChecksAreBuilt(cat: Catalogs, checks: seq<RawCheck>)
    requires CatalogInvariant(cat) && AllBuilt(cat) && AddChecks(cat, checks).Some?
    ensures AllBuilt(AddChecks(cat, checks).value)
    decreases |checks|
  {
    if checks != [] {
      AddedCheckIsBuilt(cat, checks[0]);
      AddCheckKeeps(cat, BuildCheck(cat, checks[0].spec).value);
      AddedChecksAreBuilt(AddRaw(cat, checks[0]).value, checks[1..]);
    }
  }

  lemma AddedCheckIsBuilt(cat: Catalogs, raw: RawCheck)
    requires CatalogInvariant(cat) && AllBuilt(cat) && AddRaw(cat, raw).Some?
    ensures AllBuilt(AddRaw(cat, raw).value)
  {
    hide BuiltIn;
    hide SampleFor;
    hide QuarantinePredicate;
    var added := AddRaw(cat, raw).value;
    var spec := BuildCheck(cat, raw.spec).value;
    AddCheckKeeps(cat, spec);
    BuiltChecksAreBuilt(cat, raw);
    forall id | id in added.checks ensures BuiltIn(added, added.checks[id]) {
      if id != spec.checkId {
        BuiltStays(cat, added, cat.checks[id]);
      }
    }
  }

  /** Whatever a registry file loads, every check of the catalogs is compiled as they compile it now. */
  lemma LoadedChecksAreBuilt(cat: Catalogs, document: Document)
    requires CatalogInvariant(cat) && AllBuilt(cat) && DocumentParsed(document) && LoadAll(cat, document).Some?
    ensures AllBuilt(LoadAll(cat, document).value)
  {
    AddTablesKeeps(cat, document.tables);
    AddedTablesKeepBuilt(cat, document.tables);
    AddedChecksAreBuilt(AddTables(cat, document.tables).value, document.checks);
  }

  // ---------- what loading adds ----------

  /** The second map is the first with exactly these new keys. */
  ghost predicate Adds<T>(before: map<string, T>, after: map<string, T>, keys: set<string>) {
    && before.Keys !! keys && after.Keys == before.Keys + keys
    && forall k | k in before :: after[k] == before[k]
  }

  function TableKeys(contracts: seq<TableContract>): set<string> {
    set c | c in contracts :: LastSegment(c.table)
  }

  lemma {:induction false} TablesAdded(cat: Catalogs, contracts: seq<TableContract>)
    requires AddTables(cat, contracts).Some?
    ensures
      var after := AddTables(cat, contracts).value;
      && after.checks == cat.checks && Adds(cat.tables, after.tables, TableKeys(contracts))
      && forall c | c in contracts :: after.tables[LastSegment(c.table)] == c
    decreases |contracts|
  {
    hide LastSegment;
    if contracts != [] {
      var next := AddTable(cat, contracts[0]).value;
      TablesAdded(next, contracts[1..]);
      assert contracts == [contracts[0]] + contracts[1..];
      assert TableKeys(contracts) == {LastSegment(contracts[0].table)} + TableKeys(contracts[1..]);
    }
  }

  /** The check is the declared one, with its contract id and what was compiled from it filled in. */
  ghost predicate BuiltFrom(cat: Catalogs, raw: RawCheck, spec: CheckSpec) {
    && raw.Declared?
    && spec.checkId == raw.spec.checkId && spec.table == raw.spec.table && spec.column == raw.spec.column
    && spec.dimension == raw.spec.dimension && spec.policies == raw.spec.policies
    && spec.contains == raw.spec.contains && spec.windowStart == raw.spec.windowStart
    && spec.windowEnd == raw.spec.windowEnd && spec.businessKey == raw.spec.businessKey
    && GetTable(cat, spec.table).Some?
    && (raw.spec.contractId != "" ==> spec.contractId == raw.spec.contractId)
    && (raw.spec.contractId == "" ==> spec.contractId == GetTable(cat, spec.table).value.Qualified())
    && SampleFor(cat, spec) == Some(spec.sample) && QuarantinePredicate(cat, spec) == Ok(spec.quarantinePredicate)
  }

  function CheckIdsIn(checks: seq<RawCheck>): set<string> {
    set c | c in checks && c.Declared? :: c.spec.checkId
  }

  lemma OneCheckAdded(cat: Catalogs, raw: RawCheck)
    requires AddRaw(cat, raw).Some?
    ensures
      var after := AddRaw(cat, raw).value;
      && raw.Declared? && after.tables == cat.tables && Adds(cat.checks, after.checks, {raw.spec.checkId})
      && BuiltFrom(after, raw, after.checks[raw.spec.checkId])
  {
    var spec := BuildCheck(cat, raw.spec).value;
    var after := AddRaw(cat, raw).value;
    SampleFields(cat, after, raw.spec, spec);
    hide SampleFor;
    hide QuarantinePredicate;
    hide Bindable;
  }

  lemma BuiltFromTables(a: Catalogs, b: Catalogs, raw: RawCheck, spec: CheckSpec)
    requires a.tables == b.tables && BuiltFrom(a, raw, spec)
    ensures BuiltFrom(b, raw, spec)
  {
    SampleFields(a, b, spec, spec);
    hide SampleFor;
    hide QuarantinePredicate;
  }

  lemma {:induction false} ChecksAdded(cat: Catalogs, checks: seq<RawCheck>)
    requires AddChecks(cat, checks).Some?
    ensures
      var after := AddChecks(cat, checks).value;
      && after.tables == cat.tables && Adds(cat.checks, after.checks, CheckIdsIn(checks))
      && forall c | c in checks :: c.Declared? && BuiltFrom(after, c, after.checks[c.spec.checkId])
    decreases |checks|
  {
    hide AddRaw;
    hide BuiltFrom;
    if checks != [] {
      var next, after := AddRaw(cat, checks[0]).value, AddChecks(cat, checks).value;
      OneCheckAdded(cat, checks[0]);
      ChecksAdded(next, checks[1..]);
      assert checks == [checks[0]] + checks[1..];
      assert CheckIdsIn(checks) == {checks[0].spec.checkId} + CheckIdsIn(checks[1..]);
      BuiltFromTables(next, after, checks[0], next.checks[checks[0].spec.checkId]);
    }
  }

  /** What a document that loads adds: every table under its own key and every check as declared, to nothing that was
      there before, and nothing else. */
  ghost predicate Loaded(before: Catalogs, after: Catalogs, document: Document) {
    && document.Entries?
    && Adds(before.tables, after.tables, TableKeys(document.tables))
    && (forall c | c in document.tables :: after.tables[LastSegment(c.table)] == c)
    && Adds(before.checks, after.checks, CheckIdsIn(document.checks))
    && forall c | c in document.checks :: c.Declared? && BuiltFrom(after, c, after.checks[c.spec.checkId])
  }

  lemma LoadAdds(cat: Catalogs, document: Document)
    requires LoadAll(cat, document).Some?
    ensures Loaded(cat, LoadAll(cat, document).value, document)
  {
    hide BuiltFrom;
    hide LastSegment;
    TablesAdded(cat, document.tables);
    ChecksAdded(AddTables(cat, document.tables).value, document.checks);
  }

  // ---------- the mutable catalogs ----------

  /** TABLE_CONTRACTS and CHECK_SPECS, updated in place. */
  class Registry {
    var tables: map<string, TableContract>
    var checks: map<string, CheckSpec>

    function Contents(): Catalogs
      reads this
    {
      Catalogs(tables, checks)
    }

    constructor ()
      ensures Contents() == EMPTY
    {
      tables, checks := map[], map[];
    }

    method RegisterContract(contract: TableContract) returns (ok: bool)
      modifies this
      ensures ok <==> AddTable(old(Contents()), contract).Some?
      ensures Contents() == After(old(Contents()), RegisterTable(contract))
      ensures !ok ==> tables == old(tables) && checks == old(checks)
      ensures ok ==> Adds(old(tables), tables, {LastSegment(contract.table)}) && checks == old(checks)
                     && tables[LastSegment(contract.table)] == contract
    {
      var key := LastSegment(contract.table);
      ok := key !in tables;
      if ok {
        tables := tables[key := contract];
      }
    }

    /** Insert, derive every policy, and take the entry out again when one does not derive. */
    method RegisterCheck(spec: CheckSpec) returns (ok: bool)
      modifies this
      ensures ok <==> AddCheck(old(Contents()), spec).Some?
      ensures Contents() == After(old(Contents()), Operation.RegisterCheck(spec))
      ensures !ok ==> tables == old(tables) && checks == old(checks)
      ensures ok ==> Adds(old(checks), checks, {spec.checkId}) && tables == old(tables)
                     && checks[spec.checkId] == spec
                     && forall p | p in spec.policies :: DeriveParams(Contents(), p.actionId, spec).Some?
    {
      hide DeriveParams;
      if spec.checkId in checks {
        return false;
      }
      checks := checks[spec.checkId := spec];
      ok := true;
      var i := 0;
      while i < |spec.policies| && ok
        invariant 0 <= i <= |spec.policies|
        invariant tables == old(tables) && checks == old(checks)[spec.checkId := spec]
        invariant ok ==> forall k | 0 <= k < i :: DeriveParams(Contents(), spec.policies[k].actionId, spec).Some?
        invariant !ok ==> exists p :: p in spec.policies && DeriveParams(Contents(), p.actionId, spec).None?
      {
        ok := DeriveParams(Contents(), spec.policies[i].actionId, spec).Some?;
        i := i + 1;
      }
      if !ok {
        checks := checks - {spec.checkId};
        assert checks == old(checks);
      }
    }

    /** One check entry: parse it, compile it and register it, or refuse it. */
    method RegisterEntry(raw: RawCheck) returns (ok: bool)
      modifies this
      ensures ok <==> AddRaw(old(Contents()), raw).Some?
      ensures Contents() == if ok then AddRaw(old(Contents()), raw).value else old(Contents())
    {
      hide SampleFor;
      hide QuarantinePredicate;
      hide DeriveParams;
      if raw.Malformed? || GetTable(Contents(), raw.spec.table).None? {
        return false;
      }
      var built := BuildCheck(Contents(), raw.spec);
      if built.None? {
        return false;
      }
      if built.value.checkId in checks || exists p | p in built.value.policies :: !Governed(p.actionId) {
        assert AddCheck(Contents(), built.value).None?;
        return false;
      }
      ok := RegisterCheck(built.value);
    }

    /** `load_registry`: register every entry in order and restore both catalogs on any failure. */
    method LoadRegistry(document: Document) returns (ok: bool)
      modifies this
      ensures ok <==> LoadAll(old(Contents()), document).Some?
      ensures Contents() == After(old(Contents()), Load(document))
      ensures !ok ==> tables == old(tables) && checks == old(checks)
      ensures ok ==> Loaded(old(Contents()), Contents(), document)
    {
      hide Loaded;
      hide Adds;
      hide AddRaw;
      if document.Unreadable? {
        return false;
      }
      var savedTables, savedChecks := tables, checks;
      ok := true;
      var i := 0;
      while i < |document.tables| && ok
        invariant 0 <= i <= |document.tables|
        invariant ok ==> AddTables(Contents(), document.tables[i..]) == AddTables(old(Contents()), document.tables)
        invariant !ok ==> AddTables(old(Contents()), document.tables).None?
      {
        ok := RegisterContract(document.tables[i]);
        assert document.tables[i..][1..] == document.tables[i + 1..];
        i := i + 1;
      }
      i := 0;
      ghost var loaded := Contents();
      while i < |document.checks| && ok
        invariant 0 <= i <= |document.checks|
        invariant ok ==> AddTables(old(Contents()), document.tables) == Some(loaded)
        invariant ok ==> AddChecks(Contents(), document.checks[i..]) == AddChecks(loaded, document.checks)
        invariant !ok ==> LoadAll(old(Contents()), document).None?
      {
        assert document.checks[i..][1..] == document.checks[i + 1..];
        ok := RegisterEntry(document.checks[i]);
        i := i + 1;
      }
      if ok {
        LoadAdds(old(Contents()), document);
      } else {
        tables, checks := savedTables, savedChecks;
      }
    }

    /** `use_registry`: clear, then load. A document that fails leaves both catalogs empty, not as they
        were, because the snapshot that loading restores is taken after the clear. */
    method UseRegistry(document: Document) returns (ok: bool)
      modifies this
      ensures ok <==> LoadAll(EMPTY, document).Some?
      ensures Contents() == After(old(Contents()), Use(document))
      ensures !ok ==> tables == map[] && checks == map[]
      ensures ok ==> Loaded(EMPTY, Contents(), document)
    {
      tables, checks := map[], map[];
      ok := LoadRegistry(document);
    }
  }
}
