/** What the policy snapshot leaves open: an orphans policy declared on a check that is not referential. Its sample
    does not mention the joined table, so two registries that keep that table in different schemas have equal
    snapshots, accept the same admitted plan and render it differently. */
module ReferencedSchemas {
  import opened Prelude
  import opened Sql
  import opened BoundText
  import opened Contracts
  import opened Actions
  import opened CheckPolicies
  import opened Planning
  import opened Evaluations
  import opened Lineage
  import opened Admissions
  import opened Transactions
  import opened Recoveries
  import opened Protocol
  import opened Retries
  import Registries
  import P = Predicates
  import S = Spellings
  import W = Witnesses

  /** A child table that refers to a parent table. */
  datatype Family = Family(schemaName: string, child: string, pk: string, fk: string, parent: string, key: string)

  ghost predicate Usable(f: Family) {
    && P.Ident(f.schemaName) && P.Ident(f.child) && P.Ident(f.pk) && P.Ident(f.fk)
    && P.Ident(f.parent) && P.Ident(f.key)
    && f.pk != f.fk && f.child != f.parent && f.child in AllowedTables(QuarantineOrphans).value
  }

  function Stored(f: Family): string {
    f.schemaName + "." + f.child
  }

  function Child(f: Family): TableContract {
    TableContract(f.child, f.schemaName, [ColumnContract(f.pk, Int64, None), ColumnContract(f.fk, Int64, None)],
                  [f.pk], [ForeignKey(f.fk, f.parent, f.key)])
  }

  function Parent(f: Family, schemaName: string): TableContract {
    TableContract(f.parent, schemaName, [ColumnContract(f.key, Int64, None)], [f.key], [])
  }

  /** NULLs in the foreign key column are answered by quarantining orphans. */
  function Check(f: Family): CheckSpec {
    CheckSpec("a", f.child, Some(f.fk), Completeness, Stored(f), [CheckPolicy(QuarantineOrphans, map[])],
              None, None, None, None,
              FailingRows(Query(Stored(f), None, IsNull(T(f.fk)), f.pk)), Some(IsNull(T(f.fk))))
  }

  /** The registry that keeps the parent in the given schema. */
  function CatalogsIn(f: Family, schemaName: string): Catalogs {
    Catalogs(map[f.child := Child(f), f.parent := Parent(f, schemaName)], map["a" := Check(f)])
  }

  function ParamsOf(f: Family): Params {
    map[FkColumn := Text(f.fk), RefTable := Text(f.parent), RefColumn := Text(f.key), PkColumn := Text(f.pk)]
  }

  lemma LooksUp(f: Family, p: string)
    requires Usable(f)
    ensures LastSegment(f.child) == f.child && LastSegment(f.parent) == f.parent
    ensures GetTable(CatalogsIn(f, p), f.child) == Some(Child(f))
    ensures GetTable(CatalogsIn(f, p), f.parent) == Some(Parent(f, p))
    ensures Keyed(CatalogsIn(f, p)) && Child(f).Qualified() == Stored(f)
    ensures AllowedTables(QuarantineOrphans).Some? && f.child in AllowedTables(QuarantineOrphans).value
    ensures FindForeignKey(Child(f).foreignKeys, f.fk) == Some(ForeignKey(f.fk, f.parent, f.key))
  {
    hide LastSegment;
    hide P.Ident;
    hide AllowedTables;
    IdentsOf(f);
    P.IdentSegment(f.child);
    P.IdentSegment(f.parent);
    assert Child(f).foreignKeys == [ForeignKey(f.fk, f.parent, f.key)];
  }

  lemma IdentsOf(f: Family)
    requires Usable(f)
    ensures P.Ident(f.child) && P.Ident(f.parent) && f.child != f.parent
    ensures AllowedTables(QuarantineOrphans).Some? && f.child in AllowedTables(QuarantineOrphans).value
  {
    hide P.Ident;
  }

  lemma Columns(f: Family, p: string)
    ensures Child(f).HasColumn(f.pk) && Child(f).HasColumn(f.fk) && Parent(f, p).HasColumn(f.key)
  {
    assert Child(f).columns[0].name == f.pk && Child(f).columns[1].name == f.fk;
    assert Parent(f, p).columns[0].name == f.key;
  }

  lemma OrphansParamsOk(f: Family, p: string)
    requires Usable(f)
    ensures ParamsOk(CatalogsIn(f, p), QuarantineOrphans, f.child, ParamsOf(f))
  {
    hide AllowedTables;
    hide GetTable;
    hide Usable;
    hide LastSegment;
    hide Keyed;
    LooksUp(f, p);
    Columns(f, p);
    assert ParamsOf(f).Keys == Required(QuarantineOrphans);
    assert Child(f).foreignKeys[0] in Child(f).foreignKeys;
  }

  lemma Derives(f: Family, p: string)
    requires Usable(f)
    ensures DeriveParams(CatalogsIn(f, p), QuarantineOrphans, Check(f)) == Some(ParamsOf(f))
    ensures Freeze(ParamsOf(f)) == ParamsOf(f)
  {
    hide GetTable;
    hide Usable;
    hide ParamsOk;
    hide Keyed;
    hide LastSegment;
    LooksUp(f, p);
    OrphansParamsOk(f, p);
    hide CatalogsIn;
    assert RuleFor(Check(f).policies, QuarantineOrphans) == Some(CheckPolicy(QuarantineOrphans, map[]));
  }

  lemma ChecksAreBuilt(f: Family, p: string)
    requires Usable(f) && P.Ident(p)
    ensures Registries.AllBuilt(CatalogsIn(f, p))
  {
    LooksUp(f, p);
    hide LastSegment;
    hide P.Ident;
    hide AllowedTables;
    var cat := CatalogsIn(f, p);
    assert P.SampleFor(cat, Check(f)) == Some(Check(f).sample);
    assert P.BuiltIn(cat, Check(f));
  }

  // ---------- one admitted plan ----------

  function Joining(f: Family, p: string): Query {
    Query(Stored(f), Some(Join(Parent(f, p).Qualified(), f.key, f.fk)), IsNull(R(f.key)), f.pk)
  }

  function Item(f: Family): PlanItem {
    Executable(Candidate(0), QuarantineOrphans, f.child, ParamsOf(f), [Evidence("a", Stored(f))],
               TargetSet(1, TargetDigest(f.child, [Int(1)])),
               ItemPolicyDigest([Child(f)], [DumpSpec(Check(f))], QuarantineOrphans))
  }

  function ReportOf(f: Family): Report {
    var draft := Report("run", None, Some("report"), [CheckResult("a", f.child, Fail, 1, 1, Stored(f))]);
    draft.(fingerprint := Some(ReportFingerprint(draft)))
  }

  function PlanOfFamily(f: Family): Plan {
    var draft := Plan("plan", "run", Raw("candidate"), ListDigest([Item(f).policyFingerprint]), [Item(f)], false, [],
                      "env",
                      Raw(""));
    draft.(fingerprint := PlanFingerprint(draft))
  }

  function EvaluationOf(f: Family): Evaluation {
    var draft := Evaluation("evaluation", None, Some("plan"), Some(PlanOfFamily(f).fingerprint), None, true, [], []);
    draft.(fingerprint := Some(EvaluationFingerprint(draft)))
  }

  /** An admission of the plan; every id gives one of the same decision. */
  function AdmissionIn(f: Family, admissionId: string): Admission {
    var draft := Admission(admissionId, "run", "plan", PlanOfFamily(f).fingerprint, "evaluation",
                           EvaluationDigest("evaluation", Some("plan"), Some(PlanOfFamily(f).fingerprint), true, [],
                                            []),
                           "decision", "decision-event", PlanOfFamily(f).policyFingerprint, "env", 0, 10000, Raw(""));
    draft.(fingerprint := AdmissionFingerprint(draft))
  }

  function CallOf(f: Family, admissionId: string := "adm", eventId: string := "event"): Call {
    Call(PlanOfFamily(f), EvaluationOf(f), AdmissionIn(f, admissionId), ReportOf(f), "apply-run", "result", eventId,
         "env")
  }

  lemma OneFailure(f: Family)
    ensures FailuresOf(ReportOf(f)) == map["a" := ReportOf(f).checks[0]]
  {
    var c := ReportOf(f).checks[0];
    FilterAll([c], (x: CheckResult) => x.status == Fail);
    assert [c][..0] == [];
    assert ById([c]) == map["a" := c];
  }

  lemma SpecsOfOne(cat: Catalogs, e: Evidence)
    requires e.checkId in cat.checks
    ensures SpecsOf(cat, [e]) == Some([cat.checks[e.checkId]])
  {
    assert [e][0] in [e];
    assert SpecsOf(cat, [e]).value == [cat.checks[e.checkId]];
  }

  lemma PoliciesOfOne(cat: Catalogs, item: PlanItem, policy: Digest)
    requires item.Executable? && CurrentItemPolicy(cat, item) == Some(policy)
    ensures CurrentItemPolicies(cat, [item]) == Some([policy])
  {
    hide CurrentItemPolicy;
    assert [item][..0] == [];
    assert CurrentItemPolicies(cat, []) == Some([]);
    assert [] + [policy] == [policy];
  }

  lemma PolicyIn(f: Family, p: string)
    requires Usable(f)
    ensures CurrentPolicy(CatalogsIn(f, p), PlanOfFamily(f)) == Some(PlanOfFamily(f).policyFingerprint)
  {
    hide GetTable;
    hide Usable;
    hide DumpSpec;
    hide Keyed;
    hide ItemPolicy;
    hide SpecsOf;
    hide CurrentItemPolicies;
    LooksUp(f, p);
    var cat, item := CatalogsIn(f, p), Item(f);
    W.PolicyOne(cat, Check(f), Child(f), QuarantineOrphans);
    SpecsOfOne(cat, item.evidence[0]);
    PoliciesOfOne(cat, item, item.policyFingerprint);
  }

  lemma Justifies(f: Family, p: string)
    requires Usable(f)
    ensures PlanJustified(CatalogsIn(f, p), PlanOfFamily(f), ReportOf(f))
  {
    hide DeriveParams;
    hide FailuresOf;
    hide Usable;
    Derives(f, p);
    OneFailure(f);
    var item := Item(f);
    assert item.evidence[0] in item.evidence && item in [item];
    assert ItemJustified(CatalogsIn(f, p), item, FailuresOf(ReportOf(f)));
    assert Cited([item]) == {"a"};
  }

  /** The same call is accepted by both registries. */
  lemma AcceptedIn(f: Family, p: string, admissionId: string := "adm", eventId: string := "event")
    requires Usable(f)
    ensures EntryAccepts(CatalogsIn(f, p), CallOf(f, admissionId, eventId))
  {
    hide PlanJustified;
    hide CurrentPolicy;
    hide Usable;
    hide CatalogsIn;
    Justifies(f, p);
    PolicyIn(f, p);
  }

  // ---------- its run in one registry ----------

  /** One child row without a parent. */
  function Orphan(f: Family): Row {
    map[f.pk := Int(1), f.fk := Int(9)]
  }

  function Snapshot(f: Family, p: string): World {
    World(map[Parent(f, p).Qualified() := []][Stored(f) := [Orphan(f)]], [], [], map[])
  }

  lemma RendersIn(f: Family, p: string, runId: string)
    requires Usable(f)
    ensures Render(CatalogsIn(f, p), QuarantineOrphans, f.child, ParamsOf(f), runId)
         == Some(RenderedStep(QuarantineOrphans, f.child,
                              CopyRows(Joining(f, p), runId, Stored(f), f.pk, QuarantineOrphans), Some(Joining(f, p))))
  {
    LooksUp(f, p);
    OrphansParamsOk(f, p);
    hide ParamsOk;
    hide GetTable;
    hide Usable;
    hide CatalogsIn;
  }

  lemma SelectsOrphan(f: Family, p: string)
    requires Usable(f) && P.Ident(p)
    ensures Select(Snapshot(f, p).sources, Joining(f, p)) == Some([Orphan(f)])
    ensures SelectKeys(Snapshot(f, p).sources, Joining(f, p)) == Some([Int(1)])
  {
    var store, q := Snapshot(f, p).sources, Joining(f, p);
    QualifiedApart(f, p);
    SelectUnmatched(store, q);
    var row := Orphan(f);
    FilterAll([row], (t: Row) => Unmatched(t, store[q.join.value.table], q.join.value));
    assert [row][1..] == [];
    assert OrderBy([row], f.pk) == [row];
    assert ColumnOf([row], f.pk) == [Int(1)];
  }

  lemma QualifiedApart(f: Family, p: string)
    requires Usable(f)
    ensures Stored(f) != Parent(f, p).Qualified()
  {
    P.IdentSegment(f.child);
    P.IdentSegment(f.parent);
    P.QualifiedSegment(f.schemaName, f.child);
    P.QualifiedSegment(p, f.parent);
  }

  lemma NoParameters(f: Family, p: string)
    requires Usable(f) && P.Ident(p)
    ensures !HoldsParameter(QueryText(Joining(f, p)))
  {
    P.NamesHoldNoColon(Child(f));
    P.NamesHoldNoColon(Parent(f, p));
    P.IdentHoldsNoColon(f.pk);
    P.IdentHoldsNoColon(f.fk);
    P.IdentHoldsNoColon(f.key);
    hide P.Ident;
    QueryParameters(Joining(f, p));
  }

  lemma RunsIn(f: Family, p: string, admissionId: string := "adm", eventId: string := "event")
    requires Usable(f) && P.Ident(p)
    ensures AllExecutable(CallOf(f, admissionId, eventId).plan.items)
    ensures Body(CatalogsIn(f, p), Snapshot(f, p), CallOf(f, admissionId, eventId), W.STILL).BodyReady?
  {
    hide Usable;
    hide Render;
    hide CatalogsIn;
    hide Select;
    RendersIn(f, p, "apply");
    RendersIn(f, p, "apply-run");
    SelectsOrphan(f, p);
    NoParameters(f, p);
    hide HoldsParameter;
    hide QueryText;
    hide SelectKeys;
    var cat, call, world := CatalogsIn(f, p), CallOf(f, admissionId, eventId), Snapshot(f, p);
    assert call.plan.items[0] in call.plan.items;
    assert ResolveItem(cat, world.sources, Item(f)) == Some(Item(f).targetSet);
    assert TargetsHold(cat, world.sources, call.plan.items);
    hide ResolveItem;
    hide Snapshot;
    var arm := Arm(0, 10);
    assert ArmDeadline(call.admission, 0) == Some(arm);
    var start := StartWork(world.sources, arm);
    assert RunItems(cat, call, W.STILL, start, 0) == Ok(start);
    assert RunItem(cat, call, Item(f), 0, start).Ok?;
    assert RunItems(cat, call, W.STILL, start, 1) == RunItem(cat, call, Item(f), 0, start);
  }

  // ---------- and a retry in the other ----------

  lemma SuffixApart(a: string, b: string, suffix: string)
    requires a != b
    ensures a + suffix != b + suffix
  {
    if |a| == |b| {
      var i: nat :| i < |a| && a[i] != b[i];
      assert (a + suffix)[i] != (b + suffix)[i];
    }
  }

  lemma SchemasApart(f: Family, x: string, y: string)
    requires x != y
    ensures Parent(f, x).Qualified() != Parent(f, y).Qualified()
  {
    SuffixApart(x, y, "." + f.parent);
    assert x + "." + f.parent == x + ("." + f.parent) && y + "." + f.parent == y + ("." + f.parent);
  }

  /** Two registries of compiled checks that differ only in the parent's schema: the plan commits under the one, a
      retry with the same payloads is accepted under the other, with an equal policy snapshot and plain spellings,
      and the committed result is not recoverable there. */
  lemma SnapshotMissesParent(f: Family, x: string, y: string) returns (c: Commit, w: Worker)
    requires Usable(f) && P.Ident(x) && P.Ident(y) && x != y
    ensures c.cat == CatalogsIn(f, x) && w.cat == CatalogsIn(f, y)
    ensures Registries.AllBuilt(c.cat) && Registries.AllBuilt(w.cat) && Keyed(c.cat) && Keyed(w.cat)
    ensures Sound(c) && RetryOf(w, c) && PlainTables(c.cat, c.call.plan.items) && !Recoverable(w, c)
    ensures CurrentPolicy(c.cat, c.call.plan) == CurrentPolicy(w.cat, c.call.plan)
    ensures !S.OrphansCiteReferential(c.cat, c.call.plan.items)
  {
    hide Usable;
    hide EntryAccepts;
    hide Body;
    hide Registries.AllBuilt;
    hide CurrentPolicy;
    hide Recoverable;
    hide GetTable;
    hide Keyed;
    AcceptedIn(f, x);
    AcceptedIn(f, y);
    RunsIn(f, x);
    ChecksAreBuilt(f, x);
    ChecksAreBuilt(f, y);
    LooksUp(f, x);
    LooksUp(f, y);
    PolicyIn(f, x);
    PolicyIn(f, y);
    SchemasApart(f, x, y);
    c := Commit(CatalogsIn(f, x), CallOf(f), W.STILL, Snapshot(f, x),
                Body(CatalogsIn(f, x), Snapshot(f, x), CallOf(f), W.STILL).work);
    w := Worker(CatalogsIn(f, y), CallOf(f), W.STILL, Starting);
    RecoverableAcrossProcesses(c, w);
    assert Item(f) in c.call.plan.items;
    JoinsApart(f, x, y);
  }

  lemma JoinsApart(f: Family, x: string, y: string)
    requires Usable(f) && x != y
    ensures !JoinsAlike(CatalogsIn(f, x), CatalogsIn(f, y), [Item(f)])
    ensures PlainTables(CatalogsIn(f, x), [Item(f)])
    ensures !S.OrphansCiteReferential(CatalogsIn(f, x), [Item(f)])
  {
    hide Usable;
    hide GetTable;
    LooksUp(f, x);
    LooksUp(f, y);
    SchemasApart(f, x, y);
    assert Item(f) in [Item(f)];
    assert RefContract(CatalogsIn(f, x), Item(f)) == Some(Parent(f, x));
    assert RefContract(CatalogsIn(f, y), Item(f)) == Some(Parent(f, y));
  }

  /** Such a family exists, by name. */
  lemma AFamily()
    ensures Usable(Family("warehouse", "fact_orders", "id", "customer", "customers", "key"))
    ensures P.Ident("warehouse") && P.Ident("crm") && "warehouse" != "crm"
  {
    NamesAreIdents();
    hide P.Ident;
    assert "id" != "customer" && "fact_orders" != "customers" && |"warehouse"| != |"crm"|;
    assert "fact_orders" in AllowedTables(QuarantineOrphans).value;
  }

  lemma NamesAreIdents()
    ensures P.Ident("warehouse") && P.Ident("crm") && P.Ident("fact_orders") && P.Ident("id")
    ensures P.Ident("customer") && P.Ident("customers") && P.Ident("key")
  {
  }
}
