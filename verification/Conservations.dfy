/** Conservation: what reachable states hold in quarantine is exactly the rows that admitted plans targeted,
    each copied once, and no committed quarantine ever touches a source table. */
module Conservations {
  import opened Prelude
  import opened Sql
  import opened Contracts
  import opened Actions
  import opened Planning
  import opened Lineage
  import opened Admissions
  import opened Transactions
  import opened Recoveries
  import opened Effects
  import opened AdmittedRuns
  import opened Protocol
  import opened Guarantees
  import opened Merges

  // ---------- what an admitted plan targets ----------

  predicate Copies(a: ActionId) {
    Mutates(a) && a != NullFill
  }

  /** No item of the plan fills NULLs in place. */
  predicate QuarantineOnly(items: seq<PlanItem>) {
    forall i | i in items && i.Executable? :: i.actionId != NullFill
  }

  /** The target rows of a quarantining item on given sources, as they are filed. */
  function ItemCopies(cat: Catalogs, sources: Store, item: PlanItem, runId: string): seq<Copy>
    requires item.Executable?
  {
    if !Copies(item.actionId) then []
    else
      match Render(cat, item.actionId, item.table, item.params, "apply")
      case None => []
      case Some(step) =>
        if step.target.None? || Select(sources, step.target.value).None? then []
        else
          var q := step.target.value;
          CopiesOf(Select(sources, q).value, runId, q.table, q.pk, item.actionId)
  }

  function PlanCopies(cat: Catalogs, sources: Store, items: seq<PlanItem>, runId: string): seq<Copy>
    requires AllExecutable(items)
  {
    if items == [] then []
    else
      var n := |items| - 1;
      assert items[n] in items;
      PlanCopies(cat, sources, items[..n], runId) + ItemCopies(cat, sources, items[n], runId)
  }

  lemma CopiesOfStep(cat: Catalogs, sources: Store, item: PlanItem, runId: string)
    requires item.Executable? && Render(cat, item.actionId, item.table, item.params, runId).Some?
    ensures CopiesAlone(sources, Render(cat, item.actionId, item.table, item.params, runId).value.statement)
         == ItemCopies(cat, sources, item, runId)
  {
    hide Render;
    hide Select;
    TargetIgnoresRunId(cat, item.actionId, item.table, item.params, runId, "apply");
    RenderedStatement(cat, item.actionId, item.table, item.params, runId);
  }

  lemma {:induction false} CopiesOfSteps(cat: Catalogs, sources: Store, items: seq<PlanItem>, runId: string,
                                         steps: seq<AppliedStep>)
    requires AllExecutable(items) && StepsRender(cat, items, runId, steps)
    ensures AllCopies(sources, StatementsOf(steps)) == PlanCopies(cat, sources, items, runId)
  {
    hide Render;
    hide CopiesAlone;
    hide ItemCopies;
    if items != [] {
      var n := |items| - 1;
      CopiesOfSteps(cat, sources, items[..n], runId, steps[..n]);
      assert StatementsOf(steps)[..n] == StatementsOf(steps[..n]);
      assert items[n] in items;
      CopiesOfStep(cat, sources, items[n], runId);
    }
  }

  // ---------- the admitted keys ----------

  /** Who filed a row, from which table, under which key and for which reason. */
  datatype Tag = Tag(runId: string, tableName: string, pk: Cell, reason: ActionId)

  function TagOf(c: Copy): Tag {
    Tag(c.runId, c.tableName, c.pk, c.reason)
  }

  function Tags(copies: seq<Copy>): seq<Tag> {
    Map(copies, (c: Copy) => TagOf(c))
  }

  function TableName(cat: Catalogs, item: PlanItem): string
    requires item.Executable?
  {
    match GetTable(cat, item.table)
    case Some(contract) => contract.Qualified()
    case None => ""
  }

  /** The keys one plan item was admitted for: they are in the fingerprint of its target set. */
  function ItemTags(cat: Catalogs, item: PlanItem, runId: string): seq<Tag> {
    if item.Executable? && Copies(item.actionId) && item.targetSet.fingerprint.TargetDigest?
    then Map(item.targetSet.fingerprint.keys, (k: Cell) => Tag(runId, TableName(cat, item), k, item.actionId))
    else []
  }

  function PlanTags(cat: Catalogs, items: seq<PlanItem>, runId: string): seq<Tag> {
    if items == [] then []
    else PlanTags(cat, items[..|items| - 1], runId) + ItemTags(cat, items[|items| - 1], runId)
  }

  lemma {:induction false} MapMultiset<A, B>(a: seq<A>, b: seq<A>, f: A -> B)
    requires multiset(a) == multiset(b)
    ensures multiset(Map(a, f)) == multiset(Map(b, f))
    decreases |a|
  {
    if a == [] {
      assert |multiset(b)| == 0;
    } else {
      var n := |a| - 1;
      assert a[n] in multiset(b);
      var i :| 0 <= i < |b| && b[i] == a[n];
      RemoveOne(a, b, i);
      MapMultiset(a[..n], b[..i] + b[i + 1..], f);
      assert Map(a, f) == Map(a[..n], f) + [f(a[n])];
      assert Map(b, f) == Map(b[..i], f) + [f(b[i])] + Map(b[i + 1..], f);
      assert Map(b[..i] + b[i + 1..], f) == Map(b[..i], f) + Map(b[i + 1..], f);
    }
  }

  /** The rows an item files are filed under exactly the keys it was admitted for. */
  lemma ItemFilesAdmitted(cat: Catalogs, sources: Store, item: PlanItem, runId: string)
    requires item.Executable? && ResolveItem(cat, sources, item) == Some(item.targetSet)
    requires Render(cat, item.actionId, item.table, item.params, runId).Some?
    ensures multiset(Tags(ItemCopies(cat, sources, item, runId))) == multiset(ItemTags(cat, item, runId))
  {
    hide ResolveItem;
    hide Render;
    hide Select;
    CopiesOfStep(cat, sources, item, runId);
    RenderedStatement(cat, item.actionId, item.table, item.params, runId);
    var st := Render(cat, item.actionId, item.table, item.params, runId).value.statement;
    if st.CopyRows? {
      CopiedKeysAreAdmitted(cat, sources, item, runId);
      var copies := ItemCopies(cat, sources, item, runId);
      var file := (k: Cell) => Tag(runId, TableName(cat, item), k, item.actionId);
      MapMultiset(Map(copies, (c: Copy) => c.pk), item.targetSet.fingerprint.keys, file);
      assert Tags(copies) == Map(Map(copies, (c: Copy) => c.pk), file);
    } else {
      assert ItemCopies(cat, sources, item, runId) == [];
      assert ItemTags(cat, item, runId) == [];
    }
  }

  lemma {:induction false} PlanFilesAdmitted(cat: Catalogs, sources: Store, items: seq<PlanItem>, runId: string,
                                             steps: seq<AppliedStep>)
    requires AllExecutable(items) && TargetsHold(cat, sources, items) && StepsRender(cat, items, runId, steps)
    ensures multiset(Tags(PlanCopies(cat, sources, items, runId))) == multiset(PlanTags(cat, items, runId))
  {
    hide Render;
    hide ItemCopies;
    hide ItemTags;
    hide ResolveItem;
    if items != [] {
      var n := |items| - 1;
      assert items[n] in items;
      assert forall i | i in items[..n] :: i in items;
      PlanFilesAdmitted(cat, sources, items[..n], runId, steps[..n]);
      ItemFilesAdmitted(cat, sources, items[n], runId);
      assert Tags(PlanCopies(cat, sources, items, runId))
          == Tags(PlanCopies(cat, sources, items[..n], runId)) + Tags(ItemCopies(cat, sources, items[n], runId));
    }
  }

  // ---------- one commit ----------

  /** A commit whose statements did not stand in each other's way. */
  ghost predicate Orderly(c: Commit) {
    NoClash(multiset(StatementsOf(c.work.steps)))
  }

  lemma NoFillsNoClash(cat: Catalogs, items: seq<PlanItem>, runId: string, steps: seq<AppliedStep>)
    requires QuarantineOnly(items) && StepsRender(cat, items, runId, steps)
    ensures NoClash(multiset(StatementsOf(steps)))
  {
    hide Render;
    hide Shape;
    var s := StatementsOf(steps);
    forall x: Statement | x in multiset(s) ensures !x.FillNulls? && Shape(x) {
      var i :| 0 <= i < |s| && s[i] == x;
      assert items[i] in items;
      RenderedStatement(cat, items[i].actionId, items[i].table, items[i].params, runId);
    }
  }

  /** Commits are orderly when their plans only quarantine, or mutate no contracted table twice and fill no
      column that one of their orphans items joins on. */
  lemma OrderlyWhen(c: Commit)
    requires Sound(c)
    requires QuarantineOnly(c.call.plan.items)
          || (TablesKeyed(c.cat) && OneStepPerTable(c.call.plan.items) && NoFillUnderJoin(StatementsOf(c.work.steps)))
    ensures Orderly(c)
  {
    hide Body;
    hide NoClash;
    BodySteps(c.cat, c.snapshot, c.call, c.clock);
    if QuarantineOnly(c.call.plan.items) {
      NoFillsNoClash(c.cat, c.call.plan.items, c.call.runId, c.work.steps);
    } else {
      AdmittedPlansDoNotClash(c.cat, c.call.plan.items, c.call.runId, c.work.steps);
    }
  }

  lemma {:induction false} RowTotalIsTargetTotal(items: seq<PlanItem>, steps: seq<AppliedStep>)
    requires AllExecutable(items) && |items| == |steps|
    requires forall j | 0 <= j < |items| :: items[j].Executable? && steps[j].rowcount == Some(items[j].targetSet.count)
    ensures RowTotal(steps) == TargetTotal(items)
  {
    if items != [] {
      var n := |items| - 1;
      assert items[n] in items;
      RowTotalIsTargetTotal(items[..n], steps[..n]);
    }
  }

  /** One committed run: the copies are the target rows of the snapshot, filed under the admitted keys, and
      the recorded row count is the admitted count, item by item and in the log. */
  lemma CommitConserves(c: Commit)
    requires Sound(c) && Orderly(c)
    ensures AllExecutable(c.call.plan.items)
    ensures c.work.copies == PlanCopies(c.cat, c.snapshot.sources, c.call.plan.items, c.call.runId)
    ensures multiset(Tags(c.work.copies)) == multiset(PlanTags(c.cat, c.call.plan.items, c.call.runId))
    ensures |c.work.steps| == |c.call.plan.items|
    ensures forall j | 0 <= j < |c.call.plan.items| ::
              c.work.steps[j].rowcount == Some(c.call.plan.items[j].targetSet.count)
    ensures RowOf(c.call, c.work).rowcount
         == if c.call.plan.items == [] then None else Some(RowOf(c.call, c.work).targetCount)
  {
    hide NoClash;
    hide Orderly;
    RunOfCommit(c);
    hide Body;
    BodySteps(c.cat, c.snapshot, c.call, c.clock);
    CopiesOfSteps(c.cat, c.snapshot.sources, c.call.plan.items, c.call.runId, c.work.steps);
    PlanFilesAdmitted(c.cat, c.snapshot.sources, c.call.plan.items, c.call.runId, c.work.steps);
    RowTotalIsTargetTotal(c.call.plan.items, c.work.steps);
  }

  lemma RunOfCommit(c: Commit)
    requires Sound(c) && Orderly(c)
    ensures AllExecutable(c.call.plan.items) && TargetsHold(c.cat, c.snapshot.sources, c.call.plan.items)
    ensures c.work.copies == AllCopies(c.snapshot.sources, StatementsOf(c.work.steps))
    ensures |c.work.steps| == |c.call.plan.items|
    ensures forall j | 0 <= j < |c.call.plan.items| ::
              c.work.steps[j].rowcount == Some(c.call.plan.items[j].targetSet.count)
  {
    hide NoClash;
    hide RunItems;
    hide FilledStore;
    AdmittedRun(c.cat, c.snapshot, c.call, c.clock);
  }

  // ---------- every reachable state ----------

  function AdmittedTags(commits: seq<Commit>): seq<Tag> {
    if commits == [] then []
    else
      var c := commits[|commits| - 1];
      AdmittedTags(commits[..|commits| - 1]) + PlanTags(c.cat, c.call.plan.items, c.call.runId)
  }

  function LoggedTargets(log: seq<LogRow>): nat {
    if log == [] then 0 else LoggedTargets(log[..|log| - 1]) + log[|log| - 1].targetCount
  }

  lemma TagsAppend(a: seq<Copy>, b: seq<Copy>)
    ensures Tags(a + b) == Tags(a) + Tags(b)
    ensures Tags([]) == []
  {
  }

  lemma {:induction false} CommitsConserve(commits: seq<Commit>)
    requires forall k | 0 <= k < |commits| :: Sound(commits[k]) && Orderly(commits[k])
    ensures multiset(Tags(CommittedCopies(commits))) == multiset(AdmittedTags(commits))
  {
    hide Sound;
    hide Orderly;
    hide PlanTags;
    hide Tags;
    if commits == [] {
      TagsAppend([], []);
    } else {
      var n := |commits| - 1;
      CommitsConserve(commits[..n]);
      CommitConserves(commits[n]);
      TagsAppend(CommittedCopies(commits[..n]), commits[n].work.copies);
    }
  }

  /** Conservation: in every reachable state whose commits were orderly, the quarantine holds exactly the keys
      that the committed admissions were approved for, with multiplicity, each under the run, table and action
      that filed it. The admissions alone determine it: foreign writes, crashes and retries do not enter. */
  lemma QuarantineIsAdmitted(g: Global)
    requires Reachable(g) && forall k | 0 <= k < |g.commits| :: Orderly(g.commits[k])
    ensures multiset(Tags(g.db.quarantine)) == multiset(AdmittedTags(g.commits))
  {
    hide Sound;
    hide Orderly;
    ReachableInvariant(g);
    assert forall k | 0 <= k < |g.commits| :: Sound(g.commits[k]);
    CommitsConserve(g.commits);
  }

  lemma {:induction false} QuarantineOnlyTotal(items: seq<PlanItem>, copies: seq<nat>)
    requires AllExecutable(items) && |copies| == |items|
    requires forall j | 0 <= j < |items| :: items[j].Executable? && copies[j] == items[j].targetSet.count
    ensures SumOf(copies) == TargetTotal(items)
  {
    if items != [] {
      var n := |items| - 1;
      assert items[n] in items;
      QuarantineOnlyTotal(items[..n], copies[..n]);
    }
  }

  function SumOf(s: seq<nat>): nat {
    if s == [] then 0 else SumOf(s[..|s| - 1]) + s[|s| - 1]
  }

  lemma {:induction false} CopiesAreCounted(snapshot: Store, s: seq<Statement>)
    requires forall x | x in s :: !x.FillNulls?
    ensures |AllCopies(snapshot, s)| == SumOf(AllCounts(snapshot, s))
  {
    hide Select;
    if s != [] {
      var n := |s| - 1;
      assert s[n] in s;
      CopiesAreCounted(snapshot, s[..n]);
      assert AllCounts(snapshot, s)[..n] == AllCounts(snapshot, s[..n]);
    }
  }

  /** Counting: when no committed plan fills, the quarantine has as many rows as the apply log says were
      targeted. */
  lemma QuarantineIsCounted(g: Global)
    requires Reachable(g) && forall k | 0 <= k < |g.commits| :: QuarantineOnly(g.commits[k].call.plan.items)
    ensures |g.db.quarantine| == LoggedTargets(g.db.log)
  {
    hide Sound;
    hide QuarantineOnly;
    ReachableInvariant(g);
    assert forall k | 0 <= k < |g.commits| :: Sound(g.commits[k]);
    CommitsCounted(g.commits, g.db.log);
  }

  lemma {:induction false} CommitsCounted(commits: seq<Commit>, log: seq<LogRow>)
    requires |log| == |commits|
    requires forall k | 0 <= k < |commits| ::
      Sound(commits[k]) && QuarantineOnly(commits[k].call.plan.items)
      && log[k] == RowOf(commits[k].call, commits[k].work)
    ensures |CommittedCopies(commits)| == LoggedTargets(log)
  {
    hide Sound;
    hide QuarantineOnly;
    if commits != [] {
      var n := |commits| - 1;
      CommitsCounted(commits[..n], log[..n]);
      CommitCounted(commits[n]);
    }
  }

  lemma CommitCounted(c: Commit)
    requires Sound(c) && QuarantineOnly(c.call.plan.items)
    ensures |c.work.copies| == RowOf(c.call, c.work).targetCount
  {
    hide NoClash;
    hide Body;
    hide EntryAccepts;
    hide QuarantineOnly;
    hide CountAlone;
    OrderlyWhen(c);
    RunOfCommit(c);
    CountsOfCommit(c);
    NoFillsIn(c);
    hide Sound;
    CopiesAreCounted(c.snapshot.sources, StatementsOf(c.work.steps));
    QuarantineOnlyTotal(c.call.plan.items, AllCounts(c.snapshot.sources, StatementsOf(c.work.steps)));
  }

  lemma CountsOfCommit(c: Commit)
    requires Sound(c) && Orderly(c)
    ensures AllExecutable(c.call.plan.items) && |c.work.steps| == |c.call.plan.items|
    ensures
      var counts := AllCounts(c.snapshot.sources, StatementsOf(c.work.steps));
      |counts| == |c.call.plan.items|
      && forall j | 0 <= j < |counts| ::
           c.call.plan.items[j].Executable? && counts[j] == c.call.plan.items[j].targetSet.count
  {
    hide Body;
    hide Orderly;
    hide Render;
    hide ResolveItem;
    hide CountAlone;
    RunOfCommit(c);
    BodySteps(c.cat, c.snapshot, c.call, c.clock);
    hide EntryAccepts;
    var counts := AllCounts(c.snapshot.sources, StatementsOf(c.work.steps));
    forall j | 0 <= j < |counts|
      ensures c.call.plan.items[j].Executable? && counts[j] == c.call.plan.items[j].targetSet.count
    {
      assert c.call.plan.items[j] in c.call.plan.items;
      TargetKnown(c.cat, c.snapshot.sources, c.call.plan.items[j], c.call.runId);
    }
  }

  lemma NoFillsIn(c: Commit)
    requires Sound(c) && QuarantineOnly(c.call.plan.items)
    ensures forall x | x in StatementsOf(c.work.steps) :: !x.FillNulls?
  {
    hide Body;
    hide Render;
    AcceptedIsExecutable(c.cat, c.call);
    hide EntryAccepts;
    BodySteps(c.cat, c.snapshot, c.call, c.clock);
    var s := StatementsOf(c.work.steps);
    forall x | x in s ensures !x.FillNulls? {
      var j: nat :| j < |s| && s[j] == x;
      var item := c.call.plan.items[j];
      assert item in c.call.plan.items;
      RenderedStatement(c.cat, item.actionId, item.table, item.params, c.call.runId);
    }
  }

  // ---------- sources ----------

  /** What the writers outside the protocol last left in the source tables. */
  function LastWritten(actions: seq<Action>, initial: Store): Store {
    if actions == [] then initial
    else
      var a := actions[|actions| - 1];
      if a.WriteSources? then a.sources else LastWritten(actions[..|actions| - 1], initial)
  }

  lemma NothingFilledNothingMerged(c: Commit, now: Store)
    requires Sound(c) && QuarantineOnly(c.call.plan.items)
    ensures MergeSources(c.work, now) == now
  {
    hide Body;
    forall i | i in c.call.plan.items ensures i.actionId != NullFill {
    }
    QuarantineOnlyLeavesSources(c.cat, c.snapshot, c.call, c.clock);
  }

  /** Quarantining never changes a source table: along any execution whose commits only quarantine, the
      sources are what the writers outside the protocol last left there. */
  lemma {:induction false} SourcesAreForeign(states: seq<Global>, actions: seq<Action>, k: nat)
    requires Execution(states, actions) && k < |states|
    requires forall c | 0 <= c < |states[k].commits| :: QuarantineOnly(states[k].commits[c].call.plan.items)
    ensures states[k].db.sources == LastWritten(actions[..k], states[0].db.sources)
  {
    hide Transition;
    hide Sound;
    hide QuarantineOnly;
    hide Invariant;
    if k > 0 {
      var g, h, a := states[k - 1], states[k], actions[k - 1];
      OnlyCommitsMutate(g, a, h);
      assert forall c | 0 <= c < |g.commits| :: h.commits[c] == g.commits[c];
      SourcesAreForeign(states, actions, k - 1);
      assert actions[..k][..k - 1] == actions[..k - 1];
      if h.commits != g.commits {
        InvariantHolds(states, actions, k);
        CommitsAreSound(h);
        NothingFilledNothingMerged(h.commits[|g.commits|], g.db.sources);
      } else if a.WriteSources? {
        WrittenSources(g, a, h);
      }
    }
  }

  lemma CommitsAreSound(g: Global)
    requires Invariant(g)
    ensures forall k | 0 <= k < |g.commits| :: Sound(g.commits[k])
  {
  }

  lemma WrittenSources(g: Global, a: Action, h: Global)
    requires a.WriteSources? && Transition(g, a, h)
    ensures h.db.sources == a.sources
  {
  }

  // ---------- fills ----------

  /** The tables the fills among the statements name. */
  function FilledTables(s: seq<Statement>): set<string> {
    set x | x in s && x.FillNulls? :: x.table
  }

  lemma {:induction false} FillsAreTracked(w: Work, s: seq<Statement>)
    requires RunAll(w, s).Some?
    ensures RunAll(w, s).value.0.filled == w.filled + FilledTables(s)
  {
    hide Select;
    if s != [] {
      var n := |s| - 1;
      assert s == s[..n] + [s[n]];
      FillsAreTracked(w, s[..n]);
      assert FilledTables(s) == FilledTables(s[..n]) + (if s[n].FillNulls? then {s[n].table} else {});
    }
  }

  lemma FillsOfCommit(c: Commit)
    requires Sound(c) && Orderly(c)
    ensures c.work.filled == FilledTables(StatementsOf(c.work.steps))
    ensures FilledStore(c.snapshot.sources, multiset(StatementsOf(c.work.steps)), c.work.sources)
    ensures forall st | st in StatementsOf(c.work.steps) :: Runs(c.snapshot.sources, st)
  {
    hide Render;
    hide ResolveItem;
    hide NoClash;
    hide FilledStore;
    hide Runs;
    hide FilledTables;
    AcceptedIsExecutable(c.cat, c.call);
    hide EntryAccepts;
    var n := |c.call.plan.items|;
    var arm := ArmDeadline(c.call.admission, c.clock(1)).value;
    var start := StartWork(c.snapshot.sources, arm);
    LoopIsRunAll(c.cat, c.call, c.clock, start, n);
    var statements := StatementsOf(c.work.steps);
    forall st | st in statements ensures Runs(c.snapshot.sources, st) {
      StatementRuns(c.cat, c.snapshot, c.call, c.clock, st);
    }
    LoopRefinesReference(start, statements, c.snapshot.sources);
    FillsAreTracked(start, statements);
  }

  /** The value of a fill is not NULL. */
  lemma FillsAreValues(c: Commit)
    requires Sound(c)
    ensures forall st | st in StatementsOf(c.work.steps) && st.FillNulls? :: Fillable(st.value)
  {
    hide Body;
    hide Render;
    AcceptedIsExecutable(c.cat, c.call);
    hide EntryAccepts;
    BodySteps(c.cat, c.snapshot, c.call, c.clock);
    var s := StatementsOf(c.work.steps);
    forall st | st in s && st.FillNulls? ensures Fillable(st.value) {
      var j: nat :| j < |s| && s[j] == st;
      var item := c.call.plan.items[j];
      assert item in c.call.plan.items;
      FillIsValue(c.cat, item.actionId, item.table, item.params, c.call.runId);
    }
  }

  lemma FillIsValue(cat: Catalogs, a: ActionId, table: string, params: Params, runId: string)
    requires Render(cat, a, table, params, runId).Some?
    ensures
      var st := Render(cat, a, table, params, runId).value.statement;
      st.FillNulls? ==> Fillable(st.value)
  {
    hide ParamsOk;
  }

  /** One fill of an orderly run, committed on a table that others may have changed since its snapshot: of the rows
      as they then are, exactly those that the snapshot had NULL are filled, every other row stays as it is, and
      what is left NULL are the rows that others have put there since. */
  ghost predicate FillsSnapshotNulls(st: Statement, was: seq<Row>, now: seq<Row>, after: seq<Row>)
    requires st.FillNulls?
  {
    var nulls, filled := NullsOf(was, st.column), FillRows(NullsOf(was, st.column), st.column, st.value);
    && multiset(nulls) <= multiset(now)
    && multiset(after) == multiset(now) - multiset(nulls) + multiset(filled)
    && |filled| == |nulls|
    && (forall k | 0 <= k < |nulls| :: Filled(nulls[k], filled[k], st.column, st.value))
    && multiset(NullsOf(after, st.column)) == multiset(NullsOf(now, st.column)) - multiset(nulls)
    && |NullsOf(after, st.column)| == |NullsOf(now, st.column)| - |nulls|
    && (now == was ==> after == FillRows(was, st.column, st.value))
  }

  /** What the commit of an orderly run does to the source tables as they are at that moment: each fill fills the
      rows its snapshot had NULL and no others, and every other table stays. */
  lemma CommitFills(c: Commit, now: World)
    requires Sound(c) && Orderly(c) && !WriteConflict(c.work, now)
    ensures
      var after := Committed(now, c.call, c.work).sources;
      && after.Keys == now.sources.Keys
      && (forall st | st in StatementsOf(c.work.steps) && st.FillNulls? ::
            st.table in now.sources && st.table in c.snapshot.sources
            && FillsSnapshotNulls(st, c.snapshot.sources[st.table], now.sources[st.table], after[st.table]))
      && (forall t | t in now.sources && t !in FilledTables(StatementsOf(c.work.steps)) ::
            after[t] == now.sources[t])
  {
    hide Body;
    hide NoClash;
    hide Orderly;
    hide EntryAccepts;
    hide RowOf;
    hide EventOf;
    hide FillsSnapshotNulls;
    AcceptedIsExecutable(c.cat, c.call);
    FillsOfCommit(c);
    FillsAreValues(c);
    FilledTablesExist(c.cat, c.snapshot, c.call, c.clock);
    var statements := StatementsOf(c.work.steps);
    var after := Committed(now, c.call, c.work).sources;
    forall st | st in statements && st.FillNulls?
      ensures st.table in now.sources && st.table in c.snapshot.sources
      ensures FillsSnapshotNulls(st, c.snapshot.sources[st.table], now.sources[st.table], after[st.table])
    {
      assert st.table in c.work.filled && st in multiset(statements);
      CommittedFill(c, now, st);
    }
  }

  lemma CommittedFill(c: Commit, now: World, st: Statement)
    requires !WriteConflict(c.work, now) && st.FillNulls? && Fillable(st.value)
    requires st.table in c.work.filled && c.work.base == c.snapshot.sources
    requires st.table in c.snapshot.sources && st.table in c.work.sources
    requires c.work.sources[st.table] == FillRows(c.snapshot.sources[st.table], st.column, st.value)
    ensures st.table in now.sources
    ensures
      var after := MergeSources(c.work, now.sources)[st.table];
      FillsSnapshotNulls(st, c.snapshot.sources[st.table], now.sources[st.table], after)
  {
    hide FillRows;
    hide Updates;
    hide ApplyUpdates;
    hide Befores;
    var was := c.snapshot.sources[st.table];
    FilledHold(NullsOf(was, st.column), st.column, st.value);
    hide Filled;
    FillMerges(was, now.sources[st.table], st.column, st.value);
    FillAlone(was, st.column, st.value);
  }

  /** The rows a fill changes are as many as were admitted; its column is without NULLs afterwards exactly when
      nobody else has put one there since the snapshot. */
  lemma FillsAreAdmitted(c: Commit, now: World, j: nat)
    requires Sound(c) && Orderly(c) && !WriteConflict(c.work, now)
    requires j < |c.work.steps| && c.work.steps[j].rendered.statement.FillNulls?
    ensures |c.work.steps| == |c.call.plan.items| && c.call.plan.items[j].Executable?
    ensures
      var st, count := c.work.steps[j].rendered.statement, c.call.plan.items[j].targetSet.count;
      && st.table in now.sources && st.table in c.snapshot.sources
      && |NullsOf(c.snapshot.sources[st.table], st.column)| == count
      && var left := NullsOf(Committed(now, c.call, c.work).sources[st.table], st.column);
         && |left| == |NullsOf(now.sources[st.table], st.column)| - count
         && (left == [] <==> |NullsOf(now.sources[st.table], st.column)| == count)
  {
    hide Body;
    hide Orderly;
    hide EntryAccepts;
    hide Committed;
    hide NullsOf;
    FillCounts(c, j);
    CommitFills(c, now);
    var st := c.work.steps[j].rendered.statement;
    assert StatementsOf(c.work.steps)[j] == st;
    assert st in StatementsOf(c.work.steps);
    hide Sound;
  }

  /** A fill was admitted for as many rows as its snapshot had NULL. */
  lemma FillCounts(c: Commit, j: nat)
    requires Sound(c) && Orderly(c)
    requires j < |c.work.steps| && c.work.steps[j].rendered.statement.FillNulls?
    ensures |c.work.steps| == |c.call.plan.items| && c.call.plan.items[j].Executable?
    ensures
      var st := c.work.steps[j].rendered.statement;
      && st.table in c.snapshot.sources
      && |NullsOf(c.snapshot.sources[st.table], st.column)| == c.call.plan.items[j].targetSet.count
  {
    hide Body;
    hide NoClash;
    hide Orderly;
    hide Render;
    hide EntryAccepts;
    hide ResolveItem;
    RunOfCommit(c);
    BodySteps(c.cat, c.snapshot, c.call, c.clock);
    var item, st := c.call.plan.items[j], c.work.steps[j].rendered.statement;
    assert item in c.call.plan.items;
    TargetKnown(c.cat, c.snapshot.sources, item, c.call.runId);
    hide Sound;
  }
}
