/** What quarantine holds of a row: all of it (action_definitions.py:196-208), in the state of the snapshot; and what a
    fill writes. */
module Payloads {
  import opened Prelude
  import opened Sql
  import opened Contracts
  import opened Actions
  import opened Planning
  import opened Lineage
  import opened Admissions
  import opened Transactions
  import opened Recoveries
  import opened Effects
  import opened Merges
  import opened AdmittedRuns
  import opened Protocol
  import opened Guarantees
  import opened Conservations

  function Payload(copies: seq<Copy>): seq<Row> {
    Map(copies, (c: Copy) => c.payload)
  }

  /** The copy is of this row, under its own key. */
  predicate IsOf(c: Copy, row: Row, pkKey: string) {
    c.payload == row && c.pkKey == pkKey && c.pk == Get(row, pkKey)
  }

  // ---------- one statement ----------

  /** An executed copy statement files the rows its query selects at that point, one copy each and in order: the row as
      it is, under its key, with the statement's own labels. What was filed before stays. */
  lemma CopiedRowsAreWhole(w: Work, st: Statement)
    requires st.CopyRows? && Execute(w, st).Some?
    ensures
      var rows, after, n := Select(w.sources, st.query), Execute(w, st).value.0.copies, |w.copies|;
      && rows.Some? && |after| == n + |rows.value| && after[..n] == w.copies
      && forall k | 0 <= k < |rows.value| ::
           && IsOf(after[n + k], rows.value[k], st.pkKey)
           && after[n + k].runId == st.runId && after[n + k].tableName == st.tableName
           && after[n + k].reason == st.reason
  {
    CopiesAre(Select(w.sources, st.query).value, st);
    hide Select;
    hide CopiesOf;
    hide IsOf;
  }

  lemma CopiesAre(rows: seq<Row>, st: Statement)
    requires st.CopyRows?
    ensures
      var copies := CopiesOf(rows, st.runId, st.tableName, st.pkKey, st.reason);
      && |copies| == |rows|
      && forall k | 0 <= k < |rows| ::
           && IsOf(copies[k], rows[k], st.pkKey)
           && copies[k].runId == st.runId && copies[k].tableName == st.tableName && copies[k].reason == st.reason
  {
  }

  /** An executed fill leaves every other table, and every row of its own in its place, filled. */
  lemma FilledRowsHoldTheValue(w: Work, st: Statement)
    requires st.FillNulls? && Fillable(st.value) && Execute(w, st).Some?
    ensures
      var before, after := w.sources, Execute(w, st).value.0.sources;
      && st.table in before && after.Keys == before.Keys
      && (forall t | t in before && t != st.table :: after[t] == before[t])
      && |after[st.table]| == |before[st.table]|
      && forall k | 0 <= k < |before[st.table]| ::
           Filled(before[st.table][k], after[st.table][k], st.column, st.value)
  {
  }

  // ---------- runs ----------

  /** Every copy is filed under the key its payload carries. */
  predicate KeysMatch(copies: seq<Copy>) {
    forall c | c in copies :: c.pk == Get(c.payload, c.pkKey)
  }

  lemma ExecuteKeepsKeys(w: Work, st: Statement)
    requires KeysMatch(w.copies) && Execute(w, st).Some?
    ensures KeysMatch(Execute(w, st).value.0.copies)
  {
    hide Select;
    if st.CopyRows? {
      CopiedRowsAreWhole(w, st);
      var after := Execute(w, st).value.0.copies;
      forall c | c in after ensures c.pk == Get(c.payload, c.pkKey) {
        var k: nat :| k < |after| && after[k] == c;
        if k < |w.copies| {
          assert after[..|w.copies|][k] == c;
        } else {
          assert after[|w.copies| + (k - |w.copies|)] == c;
        }
      }
    }
  }

  lemma {:induction false} RunKeepsKeys(cat: Catalogs, call: Call, clock: Clock, w: Work, k: nat)
    requires AllExecutable(call.plan.items) && k <= |call.plan.items| && RunItems(cat, call, clock, w, k).Ok?
    requires KeysMatch(w.copies)
    ensures KeysMatch(RunItems(cat, call, clock, w, k).value.copies)
  {
    hide Render;
    hide Execute;
    hide ArmDeadline;
    hide KeysMatch;
    if k > 0 {
      RunKeepsKeys(cat, call, clock, w, k - 1);
      var item := call.plan.items[k - 1];
      assert item in call.plan.items;
      var step := Render(cat, item.actionId, item.table, item.params, call.runId).value;
      if Mutates(item.actionId) {
        ExecuteKeepsKeys(RunItems(cat, call, clock, w, k - 1).value, step.statement);
      }
    }
  }

  lemma BodyKeys(cat: Catalogs, world: World, call: Call, clock: Clock)
    requires AllExecutable(call.plan.items) && Body(cat, world, call, clock).BodyReady?
    ensures KeysMatch(Body(cat, world, call, clock).work.copies)
  {
    hide RunItems;
    hide TargetsHold;
    hide Consumed;
    var start := StartWork(world.sources, ArmDeadline(call.admission, clock(1)).value);
    RunKeepsKeys(cat, call, clock, start, |call.plan.items|);
  }

  lemma CommitKeys(c: Commit)
    requires Sound(c)
    ensures KeysMatch(c.work.copies)
  {
    hide Body;
    hide KeysMatch;
    AcceptedIsExecutable(c.cat, c.call);
    hide EntryAccepts;
    BodyKeys(c.cat, c.snapshot, c.call, c.clock);
  }

  lemma {:induction false} CommitsKeys(commits: seq<Commit>)
    requires forall k | 0 <= k < |commits| :: Sound(commits[k])
    ensures KeysMatch(CommittedCopies(commits))
  {
    hide Sound;
    if commits != [] {
      var n := |commits| - 1;
      CommitsKeys(commits[..n]);
      CommitKeys(commits[n]);
    }
  }

  /** In every reachable state every quarantined row is filed under the key that its payload carries. */
  lemma QuarantineKeysMatch(g: Global)
    requires Reachable(g)
    ensures forall c | c in g.db.quarantine :: c.pk == Get(c.payload, c.pkKey)
  {
    hide Sound;
    hide Reachable;
    ReachableInvariant(g);
    assert forall k | 0 <= k < |g.commits| :: Sound(g.commits[k]);
    CommitsKeys(g.commits);
  }

  // ---------- orderly commits ----------

  /** The rows an item's target query selects, of a quarantining item. */
  function ItemRows(cat: Catalogs, sources: Store, item: PlanItem): seq<Row>
    requires item.Executable?
  {
    if !Copies(item.actionId) then []
    else
      match Render(cat, item.actionId, item.table, item.params, "apply")
      case None => []
      case Some(step) =>
        if step.target.None? || Select(sources, step.target.value).None? then []
        else Select(sources, step.target.value).value
  }

  function PlanRows(cat: Catalogs, sources: Store, items: seq<PlanItem>): seq<Row>
    requires AllExecutable(items)
  {
    if items == [] then []
    else
      var n := |items| - 1;
      assert items[n] in items;
      PlanRows(cat, sources, items[..n]) + ItemRows(cat, sources, items[n])
  }

  lemma ItemPayload(cat: Catalogs, sources: Store, item: PlanItem, runId: string)
    requires item.Executable?
    ensures Payload(ItemCopies(cat, sources, item, runId)) == ItemRows(cat, sources, item)
  {
    hide Render;
    hide Select;
  }

  lemma PayloadAppend(a: seq<Copy>, b: seq<Copy>)
    ensures Payload(a + b) == Payload(a) + Payload(b)
  {
  }

  lemma {:induction false} PlanPayload(cat: Catalogs, sources: Store, items: seq<PlanItem>, runId: string)
    requires AllExecutable(items)
    ensures Payload(PlanCopies(cat, sources, items, runId)) == PlanRows(cat, sources, items)
  {
    hide ItemCopies;
    hide ItemRows;
    if items != [] {
      var n := |items| - 1;
      assert items[n] in items;
      PlanPayload(cat, sources, items[..n], runId);
      ItemPayload(cat, sources, items[n], runId);
      PayloadAppend(PlanCopies(cat, sources, items[..n], runId), ItemCopies(cat, sources, items[n], runId));
    }
  }

  /** The payloads of an orderly commit are the rows that its items' target queries select on its snapshot, whole, in
      order and with multiplicity. */
  lemma CommitFilesWholeRows(c: Commit)
    requires Sound(c) && Orderly(c)
    ensures AllExecutable(c.call.plan.items)
    ensures Payload(c.work.copies) == PlanRows(c.cat, c.snapshot.sources, c.call.plan.items)
  {
    hide Sound;
    hide Orderly;
    CommitConserves(c);
    PlanPayload(c.cat, c.snapshot.sources, c.call.plan.items, c.call.runId);
  }

  /** The rows that all commits together selected. */
  ghost function CommittedRows(commits: seq<Commit>): seq<Row> {
    if commits == [] then []
    else
      var c := commits[|commits| - 1];
      CommittedRows(commits[..|commits| - 1])
        + (if AllExecutable(c.call.plan.items) then PlanRows(c.cat, c.snapshot.sources, c.call.plan.items) else [])
  }

  lemma {:induction false} CommitsFileWholeRows(commits: seq<Commit>)
    requires forall k | 0 <= k < |commits| :: Sound(commits[k]) && Orderly(commits[k])
    ensures Payload(CommittedCopies(commits)) == CommittedRows(commits)
  {
    hide Sound;
    hide Orderly;
    hide PlanRows;
    if commits != [] {
      var n := |commits| - 1;
      CommitsFileWholeRows(commits[..n]);
      CommitFilesWholeRows(commits[n]);
      PayloadAppend(CommittedCopies(commits[..n]), commits[n].work.copies);
    }
  }

  /** In every reachable state whose commits were orderly, the quarantine holds the selected rows of every commit as
      they were in its snapshot, whole and in order. */
  lemma QuarantineHoldsWholeRows(g: Global)
    requires Reachable(g) && forall k | 0 <= k < |g.commits| :: Orderly(g.commits[k])
    ensures Payload(g.db.quarantine) == CommittedRows(g.commits)
  {
    hide Sound;
    hide Orderly;
    hide Reachable;
    ReachableInvariant(g);
    assert forall k | 0 <= k < |g.commits| :: Sound(g.commits[k]);
    CommitsFileWholeRows(g.commits);
  }
}
