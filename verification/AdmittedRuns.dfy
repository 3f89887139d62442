/** What the mutation loop does for a plan that passed admission: every step changes exactly the rows whose
    keys were admitted, and quarantine copies are those rows. */
module AdmittedRuns {
  import opened Prelude
  import opened Sql
  import opened Contracts
  import opened Actions
  import opened Planning
  import opened Lineage
  import opened Admissions
  import opened Transactions
  import opened Recoveries
  import opened Effects
  import P = Predicates

  // ---------- rendered statements ----------

  function StatementsOf(steps: seq<AppliedStep>): seq<Statement> {
    Map(steps, (s: AppliedStep) => s.rendered.statement)
  }

  function CountsOf(steps: seq<AppliedStep>): seq<nat>
    requires forall s | s in steps :: s.rowcount.Some?
  {
    assert forall i | 0 <= i < |steps| :: steps[i] in steps;
    seq(|steps|, i requires 0 <= i < |steps| && steps[i].rowcount.Some? => steps[i].rowcount.value)
  }

  /** What each action renders to. */
  lemma RenderedStatement(cat: Catalogs, a: ActionId, table: string, params: Params, runId: string)
    requires Render(cat, a, table, params, runId).Some?
    ensures
      var step := Render(cat, a, table, params, runId).value;
      var contract := GetTable(cat, table);
      && contract.Some?
      && Shape(step.statement)
      && (step.statement.Comment? <==> !Mutates(a))
      && (step.statement.Comment? ==> step.target.None?)
      && (step.statement.FillNulls? <==> a == NullFill)
      && (step.statement.CopyRows? ==>
            && step.statement.query.table == contract.value.Qualified()
            && step.statement.tableName == contract.value.Qualified()
            && step.target == Some(step.statement.query)
            && step.statement.runId == runId && step.statement.reason == a
            && step.statement.pkKey == step.statement.query.pk)
      && (step.statement.FillNulls? ==>
            && step.statement.table == contract.value.Qualified()
            && step.target.Some? && step.target.value.table == contract.value.Qualified()
            && step.target.value.join.None?
            && step.target.value.where == IsNull(T(step.statement.column)))
  {
    RenderedTable(cat, a, table, params, runId);
    hide ParamsOk;
  }

  // ---------- the loop runs the rendered statements ----------

  lemma RunItemIsExecute(cat: Catalogs, call: Call, item: PlanItem, reading: int, w: Work)
    requires item.Executable? && RunItem(cat, call, item, reading, w).Ok?
    ensures
      var after := RunItem(cat, call, item, reading, w).value;
      && |after.steps| == |w.steps| + 1
      && var step := after.steps[|w.steps|];
         && Execute(w, step.rendered.statement).Some?
         && Execute(w, step.rendered.statement).value.0.sources == after.sources
         && Execute(w, step.rendered.statement).value.0.copies == after.copies
         && Execute(w, step.rendered.statement).value.0.filled == after.filled
         && step.rowcount == Some(Execute(w, step.rendered.statement).value.1)
  {
    hide Render;
    var step := Render(cat, item.actionId, item.table, item.params, call.runId).value;
    RenderedStatement(cat, item.actionId, item.table, item.params, call.runId);
    hide Select;
  }

  /** The data part of a work: what statements read and write. */
  ghost predicate SameData(a: Work, b: Work) {
    a.sources == b.sources && a.copies == b.copies && a.filled == b.filled
  }

  lemma ExecuteReadsData(a: Work, b: Work, st: Statement)
    requires SameData(a, b)
    ensures Execute(a, st).Some? <==> Execute(b, st).Some?
    ensures Execute(a, st).Some? ==>
      SameData(Execute(a, st).value.0, Execute(b, st).value.0) && Execute(a, st).value.1 == Execute(b, st).value.1
  {
    hide Select;
  }

  lemma {:induction false} LoopIsRunAll(cat: Catalogs, call: Call, clock: Clock, w: Work, k: nat)
    requires AllExecutable(call.plan.items) && k <= |call.plan.items| && w.steps == []
    requires RunItems(cat, call, clock, w, k).Ok?
    ensures
      var after := RunItems(cat, call, clock, w, k).value;
      var run := RunAll(w, StatementsOf(after.steps));
      && |after.steps| == k && (forall s | s in after.steps :: s.rowcount.Some?)
      && run.Some? && SameData(run.value.0, after)
      && run.value.1 == CountsOf(after.steps)
  {
    hide Execute;
    hide RunItem;
    if k > 0 {
      LoopIsRunAll(cat, call, clock, w, k - 1);
      var before := RunItems(cat, call, clock, w, k - 1).value;
      var item := call.plan.items[k - 1];
      assert item in call.plan.items;
      RunItemIsExecute(cat, call, item, clock(k + 1), before);
      RunItemStep(cat, call, item, clock(k + 1), before);
      var after := RunItems(cat, call, clock, w, k).value;
      assert after.steps == before.steps + [after.steps[k - 1]];
      hide RunItems;
      RunAllFollows(w, before, after, after.steps[k - 1]);
    }
  }

  /** Running one more statement follows the loop by one more step. */
  lemma RunAllFollows(w: Work, before: Work, after: Work, step: AppliedStep)
    requires after.steps == before.steps + [step] && (forall s | s in before.steps :: s.rowcount.Some?)
    requires RunAll(w, StatementsOf(before.steps)).Some?
    requires SameData(RunAll(w, StatementsOf(before.steps)).value.0, before)
    requires RunAll(w, StatementsOf(before.steps)).value.1 == CountsOf(before.steps)
    requires Execute(before, step.rendered.statement).Some?
    requires SameData(Execute(before, step.rendered.statement).value.0, after)
    requires step.rowcount == Some(Execute(before, step.rendered.statement).value.1)
    ensures forall s | s in after.steps :: s.rowcount.Some?
    ensures RunAll(w, StatementsOf(after.steps)).Some?
    ensures SameData(RunAll(w, StatementsOf(after.steps)).value.0, after)
    ensures RunAll(w, StatementsOf(after.steps)).value.1 == CountsOf(after.steps)
  {
    hide Execute;
    var s, n := StatementsOf(after.steps), |before.steps|;
    assert s[..n] == StatementsOf(before.steps);
    ExecuteReadsData(before, RunAll(w, s[..n]).value.0, s[n]);
    assert CountsOf(after.steps) == CountsOf(before.steps) + [step.rowcount.value];
  }

  // ---------- an admitted plan does not clash ----------

  /** No null_fill writes the column that an orphans item joins on. */
  ghost predicate NoFillUnderJoin(s: seq<Statement>) {
    forall x, y | x in s && y in s && x.FillNulls? && y.CopyRows? && y.query.join.Some? ::
      !(y.query.join.value.table == x.table && y.query.join.value.column == x.column)
  }

  /** Contracts with undotted names have distinct qualified names. */
  lemma QualifiedDistinct(cat: Catalogs, a: string, b: string)
    requires TablesKeyed(cat) && GetTable(cat, a).Some? && GetTable(cat, b).Some?
    requires GetTable(cat, a).value.Qualified() == GetTable(cat, b).value.Qualified()
    ensures GetTable(cat, a) == GetTable(cat, b)
  {
    var x, y := GetTable(cat, a).value, GetTable(cat, b).value;
    P.QualifiedSegment(x.schemaName, x.table);
    P.QualifiedSegment(y.schemaName, y.table);
  }

  /** Item i's place among the items that change data. */
  lemma {:induction false} MutatingIn(items: seq<PlanItem>, i: nat) returns (p: nat)
    requires i < |items| && items[i].Executable? && Mutates(items[i].actionId)
    ensures p < |MutatingTables(items)| && MutatingTables(items)[p] == items[i].table
    ensures p == |MutatingTables(items[..i])|
    decreases |items|
  {
    var n := |items| - 1;
    if i < n {
      p := MutatingIn(items[..n], i);
      assert items[..n][..i] == items[..i];
    } else {
      p := |MutatingTables(items[..n])|;
    }
  }

  lemma {:induction false} MutatingGrows(items: seq<PlanItem>, i: nat, j: nat)
    requires i < j <= |items| && items[i].Executable? && Mutates(items[i].actionId)
    ensures |MutatingTables(items[..i])| < |MutatingTables(items[..j])|
    decreases j
  {
    assert items[..j][..j - 1] == items[..j - 1];
    if i < j - 1 {
      MutatingGrows(items, i, j - 1);
    }
  }

  /** The item behind a place among those that change data. */
  lemma {:induction false} MutatingItem(items: seq<PlanItem>, p: nat) returns (i: nat)
    requires p < |MutatingTables(items)|
    ensures i < |items| && items[i].Executable? && Mutates(items[i].actionId)
    ensures MutatingTables(items)[p] == items[i].table && |MutatingTables(items[..i])| == p
    decreases |items|
  {
    var n := |items| - 1;
    if p < |MutatingTables(items[..n])| {
      i := MutatingItem(items[..n], p);
      assert items[..n][..i] == items[..i];
    } else {
      i := n;
    }
  }

  /** The table a mutating statement names. */
  function StatementTable(st: Statement): string {
    match st
    case Comment => ""
    case CopyRows(q, _, _, _, _) => q.table
    case FillNulls(t, _, _) => t
  }

  /** Two steps that change data name the same stored table exactly when their items' spellings end alike. */
  lemma StepsNameTables(cat: Catalogs, items: seq<PlanItem>, runId: string, steps: seq<AppliedStep>, i: nat, j: nat)
    requires TablesKeyed(cat) && StepsRender(cat, items, runId, steps)
    requires i < j < |items|
    requires !steps[i].rendered.statement.Comment? && !steps[j].rendered.statement.Comment?
    ensures StatementTable(steps[i].rendered.statement) == StatementTable(steps[j].rendered.statement)
       <==> LastSegment(items[i].table) == LastSegment(items[j].table)
  {
    hide Render;
    hide LastSegment;
    RenderedStatement(cat, items[i].actionId, items[i].table, items[i].params, runId);
    RenderedStatement(cat, items[j].actionId, items[j].table, items[j].params, runId);
    if GetTable(cat, items[i].table).value.Qualified() == GetTable(cat, items[j].table).value.Qualified() {
      QualifiedDistinct(cat, items[i].table, items[j].table);
    }
  }

  lemma {:induction false} CountOnce<A>(s: seq<A>, x: A)
    requires x in s && forall i, j | 0 <= i < j < |s| :: s[i] == x ==> s[j] != x
    ensures multiset(s)[x] == 1
  {
    var n := |s| - 1;
    assert s == s[..n] + [s[n]];
    if s[n] == x {
      assert x !in s[..n];
      assert x !in multiset(s[..n]);
    } else {
      CountOnce(s[..n], x);
    }
  }

  /** Two statements of an admitted plan that change data and are not the same one name different tables. */
  ghost predicate TablesApart(s: seq<Statement>) {
    forall i, j | 0 <= i < j < |s| && !s[i].Comment? && !s[j].Comment? :: StatementTable(s[i]) != StatementTable(s[j])
  }

  lemma RenderedShapes(cat: Catalogs, items: seq<PlanItem>, runId: string, steps: seq<AppliedStep>)
    requires StepsRender(cat, items, runId, steps)
    ensures forall x | x in StatementsOf(steps) :: Shape(x)
    ensures forall j | 0 <= j < |items| :: steps[j].rendered.statement.Comment? <==> !Mutates(items[j].actionId)
  {
    hide Render;
    var s := StatementsOf(steps);
    forall j | 0 <= j < |items|
      ensures Shape(s[j]) && (s[j].Comment? <==> !Mutates(items[j].actionId))
    {
      RenderedStatement(cat, items[j].actionId, items[j].table, items[j].params, runId);
    }
    forall x | x in s ensures Shape(x) {
      var j: nat :| j < |s| && s[j] == x;
    }
  }

  /** The rendered statements name a table at most once exactly when the plan mutates no contracted table twice. */
  lemma TablesApartExactly(cat: Catalogs, items: seq<PlanItem>, runId: string, steps: seq<AppliedStep>)
    requires TablesKeyed(cat) && StepsRender(cat, items, runId, steps)
    ensures TablesApart(StatementsOf(steps)) <==> OneStepPerTable(items)
  {
    hide Render;
    hide LastSegment;
    RenderedShapes(cat, items, runId, steps);
    var s, tables := StatementsOf(steps), MutatingTables(items);
    var ends := Map(tables, (t: string) => LastSegment(t));
    if OneStepPerTable(items) {
      forall i, j | 0 <= i < j < |s| && !s[i].Comment? && !s[j].Comment?
        ensures StatementTable(s[i]) != StatementTable(s[j])
      {
        var p := MutatingIn(items, i);
        var q := MutatingIn(items, j);
        MutatingGrows(items, i, j);
        assert ends[p] != ends[q];
        StepsNameTables(cat, items, runId, steps, i, j);
      }
    }
    if TablesApart(s) {
      forall p, q | 0 <= p < q < |ends| ensures ends[p] != ends[q] {
        TwoPlaces(cat, items, runId, steps, p, q);
      }
    }
  }

  lemma TwoPlaces(cat: Catalogs, items: seq<PlanItem>, runId: string, steps: seq<AppliedStep>, p: nat, q: nat)
    requires TablesKeyed(cat) && StepsRender(cat, items, runId, steps) && TablesApart(StatementsOf(steps))
    requires p < q < |MutatingTables(items)|
    ensures LastSegment(MutatingTables(items)[p]) != LastSegment(MutatingTables(items)[q])
  {
    hide Render;
    hide LastSegment;
    RenderedShapes(cat, items, runId, steps);
    var i := MutatingItem(items, p);
    var j := MutatingItem(items, q);
    if j <= i {
      if j < i {
        MutatingGrows(items, j, i);
      }
    } else {
      assert StatementsOf(steps)[i] == steps[i].rendered.statement;
      assert StatementsOf(steps)[j] == steps[j].rendered.statement;
      StepsNameTables(cat, items, runId, steps, i, j);
    }
  }

  lemma ApartMeansUndisturbed(s: seq<Statement>)
    requires TablesApart(s) && NoFillUnderJoin(s)
    ensures forall x, y | x in s && y in s && x.FillNulls? && x != y :: !Disturbs(x, y)
    ensures forall x | x in s && x.FillNulls? :: multiset(s)[x] == 1
  {
    forall x, y | x in s && y in s && x.FillNulls? && x != y ensures !Disturbs(x, y) {
      var i :| 0 <= i < |s| && s[i] == x;
      var j :| 0 <= j < |s| && s[j] == y;
      assert i < j || j < i;
    }
    forall x | x in s && x.FillNulls? ensures multiset(s)[x] == 1 {
      CountOnce(s, x);
    }
  }

  /** The statements of a plan that mutates no contracted table twice do not clash, given that no fill sits under
      an orphans join. */
  lemma AdmittedPlansDoNotClash(cat: Catalogs, items: seq<PlanItem>, runId: string, steps: seq<AppliedStep>)
    requires TablesKeyed(cat) && OneStepPerTable(items) && StepsRender(cat, items, runId, steps)
    requires NoFillUnderJoin(StatementsOf(steps))
    ensures NoClash(multiset(StatementsOf(steps)))
  {
    hide StepsRender;
    hide NoFillUnderJoin;
    hide Disturbs;
    hide Shape;
    hide TablesApart;
    RenderedShapes(cat, items, runId, steps);
    TablesApartExactly(cat, items, runId, steps);
    var s := StatementsOf(steps);
    ApartMeansUndisturbed(s);
    assert forall x :: x in multiset(s) <==> x in s;
  }

  // ---------- counts and keys ----------

  lemma TargetKnown(cat: Catalogs, sources: Store, item: PlanItem, runId: string)
    requires item.Executable? && ResolveItem(cat, sources, item) == Some(item.targetSet)
    requires Render(cat, item.actionId, item.table, item.params, runId).Some?
    ensures
      var step := Render(cat, item.actionId, item.table, item.params, runId).value;
      && Runs(sources, step.statement)
      && CountAlone(sources, step.statement) == item.targetSet.count
      && (step.statement.CopyRows? ==>
            && Select(sources, step.statement.query).Some?
            && var rows := Select(sources, step.statement.query).value;
               item.targetSet.fingerprint
                 == TargetDigest(item.table, ColumnOf(OrderBy(rows, step.statement.pkKey), step.statement.pkKey)))
  {
    hide Render;
    hide Select;
    TargetIgnoresRunId(cat, item.actionId, item.table, item.params, runId, "apply");
    RenderedStatement(cat, item.actionId, item.table, item.params, runId);
    var step := Render(cat, item.actionId, item.table, item.params, runId).value;
    if step.target.Some? {
      var q := step.target.value;
      assert Select(sources, q).Some?;
      OrderBySorts(Select(sources, q).value, q.pk);
      if step.statement.FillNulls? {
        NullRows(sources, q, step.statement.column);
      }
    }
  }

  lemma NullRows(store: Store, q: Query, column: string)
    requires q.join.None? && q.where == IsNull(T(column)) && Select(store, q).Some?
    ensures q.table in store
    ensures Select(store, q).value == Filter(store[q.table], (row: Row) => Get(row, column) == Null)
  {
    SelectWithoutJoin(store, q);
    FilterAgrees(store[q.table], (t: Row) => Keeps(q.where, store[q.table])(Joined(t, map[])),
                 (row: Row) => Get(row, column) == Null);
  }

  /** The copies of one statement carry exactly the admitted primary keys. */
  lemma CopiedKeysAreAdmitted(cat: Catalogs, sources: Store, item: PlanItem, runId: string)
    requires item.Executable? && ResolveItem(cat, sources, item) == Some(item.targetSet)
    requires Render(cat, item.actionId, item.table, item.params, runId).Some?
    requires Render(cat, item.actionId, item.table, item.params, runId).value.statement.CopyRows?
    ensures
      var copies := CopiesAlone(sources, Render(cat, item.actionId, item.table, item.params, runId).value.statement);
      && item.targetSet.fingerprint.TargetDigest?
      && multiset(Map(copies, (c: Copy) => c.pk)) == multiset(item.targetSet.fingerprint.keys)
      && |copies| == item.targetSet.count
      && forall c | c in copies :: c.runId == runId && c.reason == item.actionId
  {
    hide Render;
    TargetKnown(cat, sources, item, runId);
    RenderedStatement(cat, item.actionId, item.table, item.params, runId);
    hide Select;
    var st := Render(cat, item.actionId, item.table, item.params, runId).value.statement;
    var rows := Select(sources, st.query).value;
    var copies := CopiesAlone(sources, st);
    OrderBySorts(rows, st.pkKey);
    assert Map(copies, (c: Copy) => c.pk) == ColumnOf(rows, st.pkKey);
    ColumnMultiset(rows, OrderBy(rows, st.pkKey), st.pkKey);
  }

  lemma {:induction false} ColumnMultiset(a: seq<Row>, b: seq<Row>, column: string)
    requires multiset(a) == multiset(b)
    ensures multiset(ColumnOf(a, column)) == multiset(ColumnOf(b, column))
    decreases |a|
  {
    if a == [] {
      assert |multiset(b)| == 0;
    } else {
      var n := |a| - 1;
      assert a[n] in multiset(b);
      var i :| 0 <= i < |b| && b[i] == a[n];
      RemoveOne(a, b, i);
      ColumnMultiset(a[..n], b[..i] + b[i + 1..], column);
      assert ColumnOf(a, column) == ColumnOf(a[..n], column) + [Get(a[n], column)];
      var before, after := ColumnOf(b[..i], column), ColumnOf(b[i + 1..], column);
      assert ColumnOf(b, column) == before + [Get(b[i], column)] + after;
      assert ColumnOf(b[..i] + b[i + 1..], column) == before + after;
    }
  }

  // ---------- the whole run ----------

  /** The run of a plan whose statements do not clash: each statement sees the snapshot, changes exactly as many
      rows as were admitted and rechecked, and the copies are those of the snapshot, in plan order. */
  lemma AdmittedRun(cat: Catalogs, snapshot: World, call: Call, clock: Clock)
    requires AllExecutable(call.plan.items) && Body(cat, snapshot, call, clock).BodyReady?
    requires NoClash(multiset(StatementsOf(Body(cat, snapshot, call, clock).work.steps)))
    ensures
      var work := Body(cat, snapshot, call, clock).work;
      var statements := StatementsOf(work.steps);
      && StepsRender(cat, call.plan.items, call.runId, work.steps)
      && (forall j | 0 <= j < |call.plan.items| ::
            work.steps[j].rowcount == Some(call.plan.items[j].targetSet.count))
      && work.copies == AllCopies(snapshot.sources, statements)
      && FilledStore(snapshot.sources, multiset(statements), work.sources)
  {
    hide Render;
    hide ResolveItem;
    hide NoClash;
    hide FilledStore;
    var work := Body(cat, snapshot, call, clock).work;
    var n := |call.plan.items|;
    var arm := ArmDeadline(call.admission, clock(1)).value;
    var start := StartWork(snapshot.sources, arm);
    var run := RunItems(cat, call, clock, start, n).value;
    BodySteps(cat, snapshot, call, clock);
    LoopIsRunAll(cat, call, clock, start, n);
    var statements := StatementsOf(work.steps);
    forall j | 0 <= j < n
      ensures Runs(snapshot.sources, statements[j])
      ensures CountAlone(snapshot.sources, statements[j]) == call.plan.items[j].targetSet.count
    {
      assert call.plan.items[j] in call.plan.items;
      TargetKnown(cat, snapshot.sources, call.plan.items[j], call.runId);
    }
    LoopRefinesReference(start, statements, snapshot.sources);
  }

  /** Non-interference for a plan whose statements do not clash: run in any other order on the same snapshot,
      they leave the same sources and quarantine the same rows as in the plan's own order. */
  lemma AdmittedOrderIsImmaterial(cat: Catalogs, snapshot: World, call: Call, clock: Clock, other: seq<Statement>)
    requires AllExecutable(call.plan.items) && Body(cat, snapshot, call, clock).BodyReady?
    requires NoClash(multiset(StatementsOf(Body(cat, snapshot, call, clock).work.steps)))
    requires multiset(other) == multiset(StatementsOf(Body(cat, snapshot, call, clock).work.steps))
    ensures
      var work := Body(cat, snapshot, call, clock).work;
      var run := RunAll(Work(snapshot.sources, snapshot.sources, [], {}, [], []), other);
      && run.Some? && run.value.0.sources == work.sources
      && multiset(run.value.0.copies) == multiset(work.copies)
  {
    hide Body;
    hide NoClash;
    hide FilledStore;
    AdmittedRun(cat, snapshot, call, clock);
    var work := Body(cat, snapshot, call, clock).work;
    var statements := StatementsOf(work.steps);
    var start := Work(snapshot.sources, snapshot.sources, [], {}, [], []);
    forall st | st in statements ensures Runs(snapshot.sources, st) {
      StatementRuns(cat, snapshot, call, clock, st);
    }
    OrderIsImmaterial(start, statements, other, snapshot.sources);
    LoopRefinesReference(start, statements, snapshot.sources);
    FilledStoreUnique(snapshot.sources, multiset(statements), work.sources, RunAll(start, statements).value.0.sources);
  }

  lemma StatementRuns(cat: Catalogs, snapshot: World, call: Call, clock: Clock, st: Statement)
    requires AllExecutable(call.plan.items) && Body(cat, snapshot, call, clock).BodyReady?
    requires st in StatementsOf(Body(cat, snapshot, call, clock).work.steps)
    ensures Runs(snapshot.sources, st)
  {
    hide Render;
    hide ResolveItem;
    BodySteps(cat, snapshot, call, clock);
    var steps := Body(cat, snapshot, call, clock).work.steps;
    var j: nat :| j < |steps| && StatementsOf(steps)[j] == st;
    assert call.plan.items[j] in call.plan.items;
    TargetKnown(cat, snapshot.sources, call.plan.items[j], call.runId);
  }

  /** A plan without null_fill has nothing under a join, and leaves every table as it was. */
  lemma QuarantineOnlyLeavesSources(cat: Catalogs, snapshot: World, call: Call, clock: Clock)
    requires AllExecutable(call.plan.items) && Body(cat, snapshot, call, clock).BodyReady?
    requires forall i | i in call.plan.items :: i.actionId != NullFill
    ensures
      var work := Body(cat, snapshot, call, clock).work;
      work.filled == {} && work.sources == snapshot.sources && NoFillUnderJoin(StatementsOf(work.steps))
  {
    hide Render;
    hide TargetsHold;
    var n := |call.plan.items|;
    var arm := ArmDeadline(call.admission, clock(1)).value;
    var start := StartWork(snapshot.sources, arm);
    NothingFilled(cat, call, clock, start, n);
    BodySteps(cat, snapshot, call, clock);
    var work := Body(cat, snapshot, call, clock).work;
    forall x | x in StatementsOf(work.steps) ensures !x.FillNulls? {
      var j :| 0 <= j < |work.steps| && StatementsOf(work.steps)[j] == x;
      assert call.plan.items[j] in call.plan.items;
      RenderedStatement(cat, call.plan.items[j].actionId, call.plan.items[j].table, call.plan.items[j].params,
                        call.runId);
    }
  }

  lemma {:induction false} NothingFilled(cat: Catalogs, call: Call, clock: Clock, w: Work, k: nat)
    requires AllExecutable(call.plan.items) && k <= |call.plan.items| && w.filled == {}
    requires forall i | i in call.plan.items :: i.actionId != NullFill
    requires RunItems(cat, call, clock, w, k).Ok?
    ensures RunItems(cat, call, clock, w, k).value.filled == {}
    ensures RunItems(cat, call, clock, w, k).value.sources == w.sources
  {
    hide Render;
    hide Select;
    if k > 0 {
      NothingFilled(cat, call, clock, w, k - 1);
      var item := call.plan.items[k - 1];
      assert item in call.plan.items;
      if Render(cat, item.actionId, item.table, item.params, call.runId).Some? {
        RenderedStatement(cat, item.actionId, item.table, item.params, call.runId);
      }
    }
  }

  // ---------- deadlines ----------

  /** Every deadline armed during the run: the first, one before each mutation and one before the record. */
  lemma {:induction false} ArmsInLoop(cat: Catalogs, call: Call, clock: Clock, w: Work, k: nat)
    requires AllExecutable(call.plan.items) && k <= |call.plan.items|
    requires RunItems(cat, call, clock, w, k).Ok?
    ensures |RunItems(cat, call, clock, w, k).value.arms| == |w.arms| + k
    ensures RunItems(cat, call, clock, w, k).value.arms[..|w.arms|] == w.arms
    ensures forall j | |w.arms| <= j < |w.arms| + k ::
      Some(RunItems(cat, call, clock, w, k).value.arms[j]) == ArmDeadline(call.admission, clock(j - |w.arms| + 2))
  {
    hide RunItem;
    hide ArmDeadline;
    if k > 0 {
      ArmsInLoop(cat, call, clock, w, k - 1);
      var item := call.plan.items[k - 1];
      assert item in call.plan.items;
      var before := RunItems(cat, call, clock, w, k - 1).value;
      RunItemArm(cat, call, item, clock(k + 1), before);
    }
  }

  lemma RunItemArm(cat: Catalogs, call: Call, item: PlanItem, reading: int, w: Work)
    requires item.Executable? && RunItem(cat, call, item, reading, w).Ok?
    ensures ArmDeadline(call.admission, reading).Some?
    ensures RunItem(cat, call, item, reading, w).value.arms == w.arms + [ArmDeadline(call.admission, reading).value]
  {
    hide Render;
    hide Select;
    hide ArmDeadline;
  }

  /** Every mutating statement and the result record start at a reading at least one millisecond before
      expiry, under a timeout that ends no later than expiry and stops less than a millisecond short of it;
      for an admission minted from a decision, that is inside the decision's own window. */
  lemma DeadlinesBoundTheRun(cat: Catalogs, snapshot: World, call: Call, clock: Clock)
    requires AllExecutable(call.plan.items) && Body(cat, snapshot, call, clock).BodyReady?
    ensures
      var arms := Body(cat, snapshot, call, clock).work.arms;
      && |arms| == |call.plan.items| + 2
      && forall k | 0 <= k < |arms| ::
           && arms[k].reading == clock(k + 1)
           && 1 <= arms[k].timeoutMs
           && arms[k].reading + 1000 * arms[k].timeoutMs <= call.admission.expiresAt
           && call.admission.expiresAt < arms[k].reading + 1000 * (arms[k].timeoutMs + 1)
  {
    hide Render;
    hide TargetsHold;
    hide RunItem;
    var arm := ArmDeadline(call.admission, clock(1)).value;
    var n := |call.plan.items|;
    ArmsInLoop(cat, call, clock, StartWork(snapshot.sources, arm), n);
    var arms := Body(cat, snapshot, call, clock).work.arms;
    var loop := RunItems(cat, call, clock, StartWork(snapshot.sources, arm), n).value.arms;
    assert arms == loop + [ArmDeadline(call.admission, clock(n + 2)).value];
    assert loop[0] == loop[..1][0];
    forall k | 0 <= k < |arms| ensures Some(arms[k]) == ArmDeadline(call.admission, clock(k + 1)) {
      if 0 < k < n + 1 {
        assert Some(loop[k]) == ArmDeadline(call.admission, clock(k - 1 + 2));
      }
    }
  }
}
