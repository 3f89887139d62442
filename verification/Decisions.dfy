/** One human decision and several admissions. An admission is consumed once, but nothing counts the admissions minted
    from a decision (planning/admission.py:157-167): what a second one does, and when it is stopped. */
module Decisions {
  import opened Prelude
  import opened Sql
  import opened BoundText
  import opened Contracts
  import opened Actions
  import opened Planning
  import opened Lineage
  import opened Evaluations
  import opened Admissions
  import opened Journeys
  import opened Authority
  import opened Transactions
  import opened Effects
  import opened AdmittedRuns
  import opened Protocol
  import opened Guarantees
  import opened Merges

  // ---------- the same items, run again ----------

  /** No fill of the plan was admitted for any row. */
  predicate FillsNothing(items: seq<PlanItem>) {
    forall i | i in items && i.Executable? && i.actionId == NullFill :: i.targetSet.count == 0
  }

  /** Every deadline of a run of n items can be armed. */
  predicate InTime(a: Admission, clock: Clock, n: nat) {
    forall k | 1 <= k <= n + 2 :: clock(k) + 1000 <= a.expiresAt
  }

  /** The same statement, whatever run it is filed under. */
  predicate Alike(x: Statement, y: Statement) {
    match x
    case Comment => y.Comment?
    case CopyRows(q, _, _, _, _) => y.CopyRows? && y.query == q
    case FillNulls(_, _, _) => y == x
  }

  lemma RenderedTwice(cat: Catalogs, a: ActionId, table: string, params: Params, run1: string, run2: string)
    requires Render(cat, a, table, params, run1).Some?
    ensures Render(cat, a, table, params, run2).Some?
    ensures
      var one, two := Render(cat, a, table, params, run1).value, Render(cat, a, table, params, run2).value;
      Alike(one.statement, two.statement)
  {
    hide ParamsOk;
  }

  lemma ExecutesAgain(w: Work, v: Work, x: Statement, y: Statement)
    requires Alike(x, y) && w.sources == v.sources && Execute(w, x).Some?
    ensures Execute(v, y).Some? && Execute(v, y).value.0.sources == Execute(w, x).value.0.sources
  {
    hide Select;
  }

  /** A run over the same sources, under other deadlines that can be armed, goes as far and leaves the same sources. */
  lemma {:induction false} LoopAgain(cat: Catalogs, call: Call, clock: Clock, w: Work, again: Call, later: Clock,
                                     v: Work, k: nat)
    requires AllExecutable(call.plan.items) && again.plan == call.plan && k <= |call.plan.items|
    requires w.sources == v.sources && RunItems(cat, call, clock, w, k).Ok?
    requires InTime(again.admission, later, |call.plan.items|)
    ensures RunItems(cat, again, later, v, k).Ok?
    ensures RunItems(cat, again, later, v, k).value.sources == RunItems(cat, call, clock, w, k).value.sources
  {
    hide Render;
    hide Execute;
    if k > 0 {
      LoopAgain(cat, call, clock, w, again, later, v, k - 1);
      var item := call.plan.items[k - 1];
      assert item in call.plan.items;
      RenderedTwice(cat, item.actionId, item.table, item.params, call.runId, again.runId);
      var before, second := RunItems(cat, call, clock, w, k - 1).value, RunItems(cat, again, later, v, k - 1).value;
      var x := Render(cat, item.actionId, item.table, item.params, call.runId).value.statement;
      var y := Render(cat, item.actionId, item.table, item.params, again.runId).value.statement;
      if Mutates(item.actionId) {
        ExecutesAgain(before, second, x, y);
      }
      assert ArmDeadline(again.admission, later(k + 1)).Some?;
    }
  }

  // ---------- a plan that fills nothing leaves its targets ----------

  lemma {:induction false} NothingToFill(rows: seq<Row>, column: string, value: Value)
    requires NullsOf(rows, column) == []
    ensures FillRows(rows, column, value) == rows
  {
    forall i | 0 <= i < |rows| ensures Get(rows[i], column) != Null {
      assert rows[i] in rows;
    }
  }

  lemma ItemChangesNothing(cat: Catalogs, call: Call, item: PlanItem, reading: int, w: Work)
    requires item.Executable? && RunItem(cat, call, item, reading, w).Ok?
    requires ResolveItem(cat, w.sources, item) == Some(item.targetSet)
    requires item.actionId == NullFill ==> item.targetSet.count == 0
    ensures RunItem(cat, call, item, reading, w).value.sources == w.sources
  {
    hide Render;
    hide ResolveItem;
    hide Select;
    TargetKnown(cat, w.sources, item, call.runId);
    RenderedStatement(cat, item.actionId, item.table, item.params, call.runId);
    var st := Render(cat, item.actionId, item.table, item.params, call.runId).value.statement;
    if st.FillNulls? {
      assert NullsOf(w.sources[st.table], st.column) == [];
      NothingToFill(w.sources[st.table], st.column, st.value);
    }
  }

  lemma {:induction false} RunChangesNothing(cat: Catalogs, call: Call, clock: Clock, w: Work, k: nat)
    requires AllExecutable(call.plan.items) && k <= |call.plan.items| && RunItems(cat, call, clock, w, k).Ok?
    requires TargetsHold(cat, w.sources, call.plan.items) && FillsNothing(call.plan.items)
    ensures RunItems(cat, call, clock, w, k).value.sources == w.sources
  {
    hide RunItem;
    hide ResolveItem;
    if k > 0 {
      RunChangesNothing(cat, call, clock, w, k - 1);
      var item := call.plan.items[k - 1];
      assert item in call.plan.items;
      ItemChangesNothing(cat, call, item, clock(k + 1), RunItems(cat, call, clock, w, k - 1).value);
    }
  }

  // ---------- a plan that fills something does not ----------

  /** The column of this table holds no NULL. */
  predicate WithoutNulls(sources: Store, table: string, column: string) {
    table in sources && forall r | r in sources[table] :: Get(r, column) != Null
  }

  lemma ExecuteKeepsFilled(w: Work, st: Statement, table: string, column: string)
    requires Execute(w, st).Some? && WithoutNulls(w.sources, table, column)
    requires st.FillNulls? ==> CellOf(st.value) != Null
    ensures WithoutNulls(Execute(w, st).value.0.sources, table, column)
  {
    hide Select;
    var after := Execute(w, st).value.0.sources;
    forall r | r in after[table] ensures Get(r, column) != Null {
      var i :| 0 <= i < |after[table]| && after[table][i] == r;
      assert w.sources[table][i] in w.sources[table];
    }
  }

  lemma ExecuteFills(w: Work, st: Statement)
    requires st.FillNulls? && Execute(w, st).Some? && CellOf(st.value) != Null
    ensures WithoutNulls(Execute(w, st).value.0.sources, st.table, st.column)
    ensures st.table in Execute(w, st).value.0.filled
  {
    var after := Execute(w, st).value.0.sources;
    forall r | r in after[st.table] ensures Get(r, st.column) != Null {
      var i :| 0 <= i < |after[st.table]| && after[st.table][i] == r;
    }
  }

  lemma RenderedFill(cat: Catalogs, item: PlanItem, runId: string)
    requires item.Executable? && Render(cat, item.actionId, item.table, item.params, runId).Some?
    ensures
      var st := Render(cat, item.actionId, item.table, item.params, runId).value.statement;
      && (st.FillNulls? ==> CellOf(st.value) != Null)
      && (item.actionId == NullFill ==> st.FillNulls?)
  {
    hide ParamsOk;
  }

  function StatementOf(cat: Catalogs, item: PlanItem, runId: string): Statement
    requires item.Executable? && Render(cat, item.actionId, item.table, item.params, runId).Some?
  {
    Render(cat, item.actionId, item.table, item.params, runId).value.statement
  }

  lemma ExecuteKeepsSizes(w: Work, st: Statement)
    requires Execute(w, st).Some?
    ensures
      var after := Execute(w, st).value.0.sources;
      after.Keys == w.sources.Keys && forall t | t in after :: |after[t]| == |w.sources[t]|
  {
    hide Select;
  }

  /** A run keeps the number of rows of every table. */
  lemma {:induction false} RunKeepsSizes(cat: Catalogs, call: Call, clock: Clock, w: Work, k: nat)
    requires AllExecutable(call.plan.items) && k <= |call.plan.items| && RunItems(cat, call, clock, w, k).Ok?
    ensures
      var after := RunItems(cat, call, clock, w, k).value.sources;
      after.Keys == w.sources.Keys && forall t | t in after :: |after[t]| == |w.sources[t]|
  {
    hide Render;
    hide Execute;
    if k > 0 {
      RunKeepsSizes(cat, call, clock, w, k - 1);
      var item := call.plan.items[k - 1];
      assert item in call.plan.items;
      if Mutates(item.actionId) {
        ExecuteKeepsSizes(RunItems(cat, call, clock, w, k - 1).value, StatementOf(cat, item, call.runId));
      }
    }
  }

  /** After a run, no column that one of its items fills holds a NULL. */
  lemma {:induction false} RunFills(cat: Catalogs, call: Call, clock: Clock, w: Work, k: nat, j: nat)
    requires AllExecutable(call.plan.items) && j < k <= |call.plan.items| && RunItems(cat, call, clock, w, k).Ok?
    requires call.plan.items[j].Executable? && call.plan.items[j].actionId == NullFill
    ensures
      var item := call.plan.items[j];
      && Render(cat, item.actionId, item.table, item.params, call.runId).Some?
      && StatementOf(cat, item, call.runId).FillNulls?
      && var fill, after := StatementOf(cat, item, call.runId), RunItems(cat, call, clock, w, k).value;
         WithoutNulls(after.sources, fill.table, fill.column) && fill.table in after.filled
  {
    hide Render;
    hide Execute;
    hide WithoutNulls;
    var last, before := call.plan.items[k - 1], RunItems(cat, call, clock, w, k - 1).value;
    assert last in call.plan.items;
    RenderedFill(cat, last, call.runId);
    var st := StatementOf(cat, last, call.runId);
    if j == k - 1 {
      ExecuteFills(before, st);
    } else {
      RunFills(cat, call, clock, w, k - 1, j);
      if Mutates(last.actionId) {
        var fill := StatementOf(cat, call.plan.items[j], call.runId);
        ExecuteKeepsFilled(before, st, fill.table, fill.column);
        FilledGrows(before, st);
      }
    }
  }

  lemma FilledGrows(w: Work, st: Statement)
    requires Execute(w, st).Some?
    ensures w.filled <= Execute(w, st).value.0.filled
  {
    hide Select;
  }

  /** The sources that an undisturbed run leaves behind. */
  function LeftBehind(cat: Catalogs, world: World, call: Call, clock: Clock): Store
    requires AllExecutable(call.plan.items) && Body(cat, world, call, clock).BodyReady?
  {
    MergeSources(Body(cat, world, call, clock).work, world.sources)
  }

  /** What is known of a run that reached its end. */
  lemma RunOfBody(cat: Catalogs, world: World, call: Call, clock: Clock)
    requires AllExecutable(call.plan.items) && Body(cat, world, call, clock).BodyReady?
    ensures ArmDeadline(call.admission, clock(1)).Some? && TargetsHold(cat, world.sources, call.plan.items)
    ensures
      var start := StartWork(world.sources, ArmDeadline(call.admission, clock(1)).value);
      var run, work := RunItems(cat, call, clock, start, |call.plan.items|), Body(cat, world, call, clock).work;
      && run.Ok? && work.sources == run.value.sources && work.filled == run.value.filled
      && work.base == world.sources
  {
    hide RunItem;
    hide ResolveItem;
    FilledTablesExist(cat, world, call, clock);
  }

  lemma LeftWithoutNulls(cat: Catalogs, world: World, call: Call, clock: Clock, j: nat)
    requires AllExecutable(call.plan.items) && Body(cat, world, call, clock).BodyReady?
    requires j < |call.plan.items| && call.plan.items[j].Executable? && call.plan.items[j].actionId == NullFill
    ensures
      var item := call.plan.items[j];
      && Render(cat, item.actionId, item.table, item.params, call.runId).Some?
      && StatementOf(cat, item, call.runId).FillNulls?
      && var fill := StatementOf(cat, item, call.runId);
         WithoutNulls(LeftBehind(cat, world, call, clock), fill.table, fill.column)
  {
    RunOfBody(cat, world, call, clock);
    var start := StartWork(world.sources, ArmDeadline(call.admission, clock(1)).value);
    var n := |call.plan.items|;
    RunFills(cat, call, clock, start, n, j);
    RunKeepsSizes(cat, call, clock, start, n);
    hide Body;
    hide Render;
    hide RunItems;
    hide Updates;
    hide ApplyUpdates;
    var work, fill := Body(cat, world, call, clock).work, StatementOf(cat, call.plan.items[j], call.runId);
    MergedAlone(world.sources[fill.table], work.sources[fill.table]);
    var after := LeftBehind(cat, world, call, clock);
    forall r | r in after[fill.table] ensures Get(r, fill.column) != Null {
      assert r in multiset(after[fill.table]);
      assert r in multiset(work.sources[fill.table]);
    }
  }

  lemma UnchangedIsLeft(cat: Catalogs, world: World, call: Call, clock: Clock)
    requires AllExecutable(call.plan.items) && Body(cat, world, call, clock).BodyReady?
    requires FillsNothing(call.plan.items)
    ensures LeftBehind(cat, world, call, clock) == world.sources
  {
    RunOfBody(cat, world, call, clock);
    var start := StartWork(world.sources, ArmDeadline(call.admission, clock(1)).value);
    RunChangesNothing(cat, call, clock, start, |call.plan.items|);
    hide Body;
    hide RunItems;
    hide TargetsHold;
    hide Updates;
    hide ApplyUpdates;
    var work := Body(cat, world, call, clock).work;
    forall t | t in world.sources ensures ApplyUpdates(Updates(world.sources[t], world.sources[t]), world.sources[t])
                                       == world.sources[t] {
      NoUpdatesAlone(world.sources[t]);
      NothingApplied(world.sources[t]);
    }
  }

  /** A fill finds its targets again only where it had none. */
  lemma NothingFound(cat: Catalogs, sources: Store, item: PlanItem, runId: string)
    requires item.Executable? && Render(cat, item.actionId, item.table, item.params, runId).Some?
    requires StatementOf(cat, item, runId).FillNulls?
    requires WithoutNulls(sources, StatementOf(cat, item, runId).table, StatementOf(cat, item, runId).column)
    requires ResolveItem(cat, sources, item) == Some(item.targetSet)
    ensures item.targetSet.count == 0
  {
    hide Render;
    hide ResolveItem;
    TargetKnown(cat, sources, item, runId);
    var fill := StatementOf(cat, item, runId);
    FilterNone(sources[fill.table], (row: Row) => Get(row, fill.column) == Null);
  }

  lemma SecondRunReady(cat: Catalogs, world: World, call: Call, clock: Clock, again: Call, later: Clock)
    requires AllExecutable(call.plan.items) && Body(cat, world, call, clock).BodyReady? && again.plan == call.plan
    requires InTime(again.admission, later, |call.plan.items|) && FillsNothing(call.plan.items)
    requires !Consumed(Committed(world, call, Body(cat, world, call, clock).work).log, again.admission.admissionId)
    ensures Body(cat, Committed(world, call, Body(cat, world, call, clock).work), again, later).BodyReady?
  {
    var n, after := |call.plan.items|, Committed(world, call, Body(cat, world, call, clock).work);
    assert after.sources == LeftBehind(cat, world, call, clock);
    RunOfBody(cat, world, call, clock);
    UnchangedIsLeft(cat, world, call, clock);
    var start := StartWork(world.sources, ArmDeadline(call.admission, clock(1)).value);
    var restart := StartWork(world.sources, ArmDeadline(again.admission, later(1)).value);
    LoopAgain(cat, call, clock, start, again, later, restart, n);
    hide Committed;
    hide LeftBehind;
    hide RunItems;
    hide TargetsHold;
    hide Consumed;
    assert ArmDeadline(again.admission, later(n + 2)).Some?;
  }

  lemma SecondRunStops(cat: Catalogs, world: World, call: Call, clock: Clock, again: Call, later: Clock)
    requires AllExecutable(call.plan.items) && Body(cat, world, call, clock).BodyReady? && again.plan == call.plan
    requires InTime(again.admission, later, |call.plan.items|) && !FillsNothing(call.plan.items)
    requires !Consumed(Committed(world, call, Body(cat, world, call, clock).work).log, again.admission.admissionId)
    ensures Body(cat, Committed(world, call, Body(cat, world, call, clock).work), again, later).BodyFailed?
  {
    var items, after := call.plan.items, Committed(world, call, Body(cat, world, call, clock).work);
    assert after.sources == LeftBehind(cat, world, call, clock);
    var i :| i in items && i.Executable? && i.actionId == NullFill && i.targetSet.count > 0;
    var j: nat :| j < |items| && items[j] == i;
    LeftWithoutNulls(cat, world, call, clock, j);
    hide Committed;
    hide LeftBehind;
    hide RunItems;
    hide ResolveItem;
    hide Render;
    hide Consumed;
    hide WithoutNulls;
    if TargetsHold(cat, after.sources, items) {
      NothingFound(cat, after.sources, i, call.runId);
    }
    assert ArmDeadline(again.admission, later(1)).Some?;
  }

  /** A second call with the same plan, under an admission that is not consumed and in time, on the state its
      predecessor left: its body runs to the end exactly when no fill of the plan was admitted for any row, and
      otherwise stops at the recheck of the targets. */
  lemma SecondRunExactly(cat: Catalogs, world: World, call: Call, clock: Clock, again: Call, later: Clock)
    requires AllExecutable(call.plan.items) && Body(cat, world, call, clock).BodyReady? && again.plan == call.plan
    requires InTime(again.admission, later, |call.plan.items|)
    requires !Consumed(Committed(world, call, Body(cat, world, call, clock).work).log, again.admission.admissionId)
    ensures
      var after := Committed(world, call, Body(cat, world, call, clock).work);
      && (Body(cat, after, again, later).BodyReady? <==> FillsNothing(call.plan.items))
      && (!FillsNothing(call.plan.items) ==> Body(cat, after, again, later).BodyFailed?)
  {
    var items := call.plan.items;
    if FillsNothing(items) {
      SecondRunReady(cat, world, call, clock, again, later);
    } else {
      SecondRunStops(cat, world, call, clock, again, later);
    }
  }

  // ---------- two admissions of one decision ----------

  /** A call at its start, with the other's plan, under keys of its own and in time. */
  ghost predicate Follows(g: Global, i: nat, j: nat) {
    && j in g.workers && j != i && i in g.workers && g.workers[j].phase == Starting
    && var w, v := g.workers[i], g.workers[j];
       && v.cat == w.cat && v.call.plan == w.call.plan && !SharesKey(w.call, v.call)
       && EntryAccepts(v.cat, v.call) && v.clock(0) <= v.call.admission.expiresAt
       && InTime(v.call.admission, v.clock, |v.call.plan.items|)
       && !KeyHeld(g, j, v.call) && !Violates(g.db, v.call.admission.admissionId, v.call.eventId)
  }

  lemma NotConsumedYet(db: World, call: Call, work: Work, again: Call)
    requires !SharesKey(call, again) && !Violates(db, again.admission.admissionId, again.eventId)
    ensures !Consumed(Committed(db, call, work).log, again.admission.admissionId)
    ensures !Violates(Committed(db, call, work), again.admission.admissionId, again.eventId)
  {
    hide MergeSources;
    hide EventOf;
    var after := Committed(db, call, work);
    if again.admission.admissionId != "" {
      forall row | row in after.log ensures row.admissionId != again.admission.admissionId {
      }
    }
  }

  /** Two calls with one plan, one after the other, undisturbed: the first commits; the second commits as well when no
      fill of the plan was admitted for any row, and otherwise is refused at its recheck. */
  lemma SecondCallExactly(g: Global, i: nat, j: nat) returns (h: Global)
    requires Reachable(g) && Unhindered(g, i) && Follows(g, i, j)
    ensures Reachable(h) && i in h.workers && j in h.workers && h.workers[i].phase.Returned?
    ensures |h.commits| > |g.commits| && h.commits[..|g.commits|] == g.commits
    ensures h.commits[|g.commits|].call == g.workers[i].call
    ensures h.workers[j].phase.Returned? <==> FillsNothing(g.workers[i].call.plan.items)
    ensures h.workers[j].phase.Returned? ==>
      |h.commits| == |g.commits| + 2 && h.commits[|g.commits| + 1].call == g.workers[j].call
    ensures !h.workers[j].phase.Returned? ==> h.workers[j].phase == Raised && |h.commits| == |g.commits| + 1
  {
    hide Reachable;
    hide Body;
    hide Committed;
    hide EntryAccepts;
    hide Violates;
    hide Consumed;
    hide SharesKey;
    hide FillsNothing;
    hide InTime;
    hide EffectOf;
    var w, v := g.workers[i], g.workers[j];
    AcceptedIsExecutable(w.cat, w.call);
    var work := Body(w.cat, g.db, w.call, w.clock).work;
    var first := UndisturbedCommit(g, i);
    NotConsumedYet(g.db, w.call, work, v.call);
    SecondRunExactly(w.cat, g.db, w.call, w.clock, v.call, v.clock);
    StillFree(g, first, i, j);
    if FillsNothing(w.call.plan.items) {
      h := UndisturbedCommit(first, j);
      assert h.commits[..|g.commits|] == first.commits[..|g.commits|];
    } else {
      EntryMoves(first, j);
      var entered := first.(workers := SetPhase(first, j, InTransaction(first.db)));
      ReachableStep(first, Own(j, Advance), entered);
      BodyMoves(entered, j, first.db);
      h := entered.(workers := SetPhase(entered, j, Raised));
      ReachableStep(entered, Own(j, Advance), h);
    }
  }

  /** The key nobody held is not held by a call that has returned. */
  lemma StillFree(g: Global, h: Global, i: nat, j: nat)
    requires i in g.workers && j in g.workers && j != i && !KeyHeld(g, j, g.workers[j].call)
    requires h.workers.Keys == g.workers.Keys && h.workers[i].phase.Returned?
    requires forall k | k in g.workers && k != i :: h.workers[k] == g.workers[k]
    ensures !KeyHeld(h, j, g.workers[j].call)
  {
    hide SharesKey;
  }

  /** Whatever admission a decision has given once it gives again, under another id: the guards look at the plan, the
      decision and the time, and nothing counts admissions. Both calls pass the entry of apply alike. */
  lemma DecisionAdmitsAgain(cat: Catalogs, plan: Plan, evaluation: Evaluation, d: Decision, report: Report, ttl: int,
                            events: Events, now: int, later: int, admissionId: string, again: string, call: Call,
                            second: Call)
    requires Admits(cat, plan, evaluation, d, report, ttl, events, now) && InWindow(d, later, ttl)
    requires evaluation.fingerprint.Some? && d.auditEventId.Some?
    requires Carries(call, plan, evaluation, d, report, now, ttl, admissionId)
    requires Carries(second, plan, evaluation, d, report, later, ttl, again)
    requires second.environment == call.environment
    ensures Admits(cat, plan, evaluation, d, report, ttl, events, later)
    ensures EntryAccepts(cat, second) <==> EntryAccepts(cat, call)
    ensures second.admission.decisionId == call.admission.decisionId == d.decisionId
    ensures second.admission.expiresAt == call.admission.expiresAt
  {
    hide EntryAccepts;
    hide Authorized;
    hide NoConflicts;
    hide CurrentPolicy;
    AdmittedPassesEntry(cat, plan, evaluation, d, report, ttl, events, now, admissionId, call);
    AdmittedPassesEntry(cat, plan, evaluation, d, report, ttl, events, later, again, second);
  }
}
