/** Retry agreement: once an admission has committed, every later call with the same payloads returns the
    committed result without writing, under any clock and in any interleaving, and exactly when. */
module Retries {
  import opened Prelude
  import opened Contracts
  import opened Actions
  import opened CheckPolicies
  import opened Planning
  import opened Lineage
  import opened Admissions
  import opened Transactions
  import opened Recoveries
  import opened Protocol
  import opened Guarantees

  // ---------- one admission, one result ----------

  /** Two results tell the caller the same: all identities, the fingerprint and the evidence of every step. */
  ghost predicate SameOutcome(a: ApplyResult, b: ApplyResult) {
    && a.resultId == b.resultId && a.fingerprint == b.fingerprint && a.auditEventId == b.auditEventId
    && a.runId == b.runId && a.planId == b.planId && a.admissionId == b.admissionId
    && EvidenceOfAll(a.steps) == EvidenceOfAll(b.steps)
  }

  /** Whatever calls under one admission return, committed or recovered, tells the same outcome. */
  lemma AllReturnsAgree(g: Global, i: nat, j: nat)
    requires Reachable(g) && i in g.workers && j in g.workers
    requires g.workers[i].phase.Returned? && g.workers[j].phase.Returned?
    requires g.workers[i].call.admission.admissionId == g.workers[j].call.admission.admissionId != ""
    ensures SameOutcome(g.workers[i].phase.result, g.workers[j].phase.result)
  {
    hide Sound;
    hide LogMatches;
    hide HeldApart;
    hide EvidenceOfAll;
    ReachableInvariant(g);
    assert WorkerSound(g, g.workers[i]) && WorkerSound(g, g.workers[j]);
    var a := ReportedCommit(g, g.workers[i]);
    var b := ReportedCommit(g, g.workers[j]);
    OneCommitPerId(g.commits, a, b);
  }

  lemma OneCommitPerId(commits: seq<Commit>, a: nat, b: nat)
    requires KeysUnique(commits) && a < |commits| && b < |commits|
    requires commits[a].call.admission.admissionId == commits[b].call.admission.admissionId != ""
    ensures a == b
  {
  }

  lemma ReportedCommit(g: Global, w: Worker) returns (k: nat)
    requires w.phase.Returned? && WorkerSound(g, w)
    ensures k < |g.commits|
    ensures g.commits[k].call.admission.admissionId == w.call.admission.admissionId
    ensures Reports(w.phase.result, g.commits[k])
  {
    hide Reports;
    k :| 0 <= k < |g.commits|
      && g.commits[k].call.admission.admissionId == w.call.admission.admissionId && Reports(w.phase.result,
          g.commits[k]);
  }

  // ---------- finding the record again ----------

  lemma {:induction false} FindsOnly(log: seq<LogRow>, traces: Events, k: nat)
    requires k < |log| && !Blank(log[k].admissionId) && log[k].eventId in traces
    requires forall j | 0 <= j < |log| && j != k :: log[j].admissionId != log[k].admissionId
    ensures FindRow(log, traces, log[k].admissionId) == Some(log[k])
  {
    if k > 0 {
      FindsOnly(log[1..], traces, k - 1);
    }
  }

  /** In every state the record of a commit is found again by its admission id, unless the id is blank. */
  lemma CommitIsFound(g: Global, k: nat)
    requires Invariant(g) && k < |g.commits|
    ensures
      var c := g.commits[k];
      FindRow(g.db.log, g.db.traces, c.call.admission.admissionId)
        == if Blank(c.call.admission.admissionId) then None else Some(RowOf(c.call, c.work))
    ensures g.commits[k].call.eventId in g.db.traces
    ensures g.db.traces[g.commits[k].call.eventId] == EventOf(g.commits[k].call, g.commits[k].work)
    ensures !Blank(g.commits[k].call.admission.admissionId) ==>
              Consumed(g.db.log, g.commits[k].call.admission.admissionId)
  {
    hide Sound;
    hide WorkerSound;
    hide HeldApart;
    hide RowOf;
    hide EventOf;
    var c := g.commits[k];
    SameAdmission(c);
    assert g.db.log[k] in g.db.log;
    if !Blank(c.call.admission.admissionId) {
      forall j | 0 <= j < |g.db.log| && j != k ensures g.db.log[j].admissionId != g.db.log[k].admissionId {
        SameAdmission(g.commits[j]);
        var x, y := if j < k then j else k, if j < k then k else j;
        assert !SharesKey(g.commits[x].call, g.commits[y].call);
        assert c.call.admission.admissionId != "";
      }
      FindsOnly(g.db.log, g.db.traces, k);
    }
  }

  // ---------- recovery under other catalogs ----------

  /** The catalogs render a committed step again as it was committed, under the name the item spells. */
  predicate StepAgain(cat: Catalogs, item: PlanItem, runId: string, step: AppliedStep)
    requires item.Executable?
  {
    Render(cat, item.actionId, item.table, item.params, runId) == Some(step.rendered)
    && step.rendered.table == item.table
  }

  ghost predicate RendersAgain(cat: Catalogs, items: seq<PlanItem>, runId: string, steps: seq<AppliedStep>) {
    && |steps| == |items|
    && forall j | 0 <= j < |items| && items[j].Executable? :: StepAgain(cat, items[j], runId, steps[j])
  }

  lemma RendersAgainSplit(cat: Catalogs, items: seq<PlanItem>, runId: string, steps: seq<AppliedStep>)
    requires items != [] && |steps| == |items| && AllExecutable(items)
    ensures
      var n := |items| - 1;
      items[n].Executable?
      && (RendersAgain(cat, items, runId, steps)
          <==> RendersAgain(cat, items[..n], runId, steps[..n]) && StepAgain(cat, items[n], runId, steps[n]))
  {
    hide StepAgain;
    var n := |items| - 1;
    assert items[n] in items;
    if RendersAgain(cat, items, runId, steps) {
      forall j | 0 <= j < n && items[j].Executable? ensures StepAgain(cat, items[j], runId, steps[j]) {
      }
    }
  }

  lemma {:induction false} RecoverStepsExactly(a: Catalogs, b: Catalogs, items: seq<PlanItem>, steps: seq<AppliedStep>,
                                               runId: string)
    requires AllExecutable(items) && StepsRender(a, items, runId, steps)
    ensures RecoverSteps(b, items, EvidenceOfAll(steps), runId) == Some(steps) <==> RendersAgain(b, items, runId, steps)
  {
    if items == [] {
      assert steps == [];
    } else {
      hide Render;
      hide RecoverSteps;
      hide StepsRender;
      hide RendersAgain;
      hide EvidenceOfAll;
      var n := |items| - 1;
      StepsRenderSplit(a, items, runId, steps);
      assert forall i | i in items[..n] :: i in items;
      RecoverStepsExactly(a, b, items[..n], steps[..n], runId);
      RenderedAction(a, items[n].actionId, items[n].table, items[n].params, runId);
      StepsLength(a, items, runId, steps);
      RendersAgainSplit(b, items, runId, steps);
      RecoverLast(b, items, EvidenceOfAll(steps), runId);
      var before := RecoverSteps(b, items[..n], EvidenceOfAll(steps)[..n], runId);
      if RecoverSteps(b, items, EvidenceOfAll(steps), runId) == Some(steps) {
        assert steps[..n] == before.value;
      }
    }
  }

  lemma StepsLength(cat: Catalogs, items: seq<PlanItem>, runId: string, steps: seq<AppliedStep>)
    requires StepsRender(cat, items, runId, steps)
    ensures |steps| == |items|
  {
  }

  /** A later call with the committed payloads. */
  ghost predicate RetryOf(w: Worker, c: Commit) {
    EntryAccepts(w.cat, w.call) && w.call.plan == c.call.plan && w.call.admission == c.call.admission
  }

  /** The condition under which a retry reads the committed result back. */
  ghost predicate Recoverable(w: Worker, c: Commit) {
    RendersAgain(w.cat, c.call.plan.items, c.call.runId, c.work.steps)
  }

  /** The record of a commit, read by a retry: the committed result exactly when the retry's catalogs render
      the steps again. */
  lemma RecoversExactly(world: World, c: Commit, w: Worker)
    requires Sound(c) && RetryOf(w, c) && Shows(world, c.call, c.work)
    requires c.call.resultId != "" && c.call.eventId != ""
    ensures AllExecutable(w.call.plan.items)
    ensures Recover(w.cat, world, w.call) == Recovered(ResultOf(c.call, c.work)) <==> Recoverable(w, c)
  {
    hide Body;
    hide Render;
    hide RecoverSteps;
    hide RendersAgain;
    hide EntryAccepts;
    hide Binds;
    hide RowOf;
    hide EventOf;
    hide FindRow;
    AcceptedIsExecutable(w.cat, w.call);
    AcceptedIsIntact(c.cat, c.call);
    BodySteps(c.cat, c.snapshot, c.call, c.clock);
    RecordBinds(c.call, c.work);
    RecoverStepsExactly(c.cat, w.cat, c.call.plan.items, c.work.steps, c.call.runId);
    StepsLength(c.cat, c.call.plan.items, c.call.runId, c.work.steps);
  }

  /** What a commit records binds the payloads it was made from. */
  lemma RecordBinds(call: Call, work: Work)
    requires EvaluationIntact(call.plan, call.evaluation) && AdmissionIntact(call.plan, call.evaluation, call.admission)
    ensures Binds(EventOf(call, work), RowOf(call, work), call.plan, call.admission)
    ensures RowOf(call, work).eventId == call.eventId && RowOf(call, work).runId == call.runId
    ensures
      var e := EventOf(call, work);
      && e.applySteps == EvidenceOfAll(work.steps) && e.eventId == call.eventId
      && e.applyResultId == Some(call.resultId)
      && e.applyResultFingerprint == Some(ResultFingerprint(call.plan, call.admission, call.runId, work.steps))
  {
    hide EvidenceOfAll;
    hide TargetTotal;
    hide TargetDigests;
    hide RowTotal;
  }

  lemma AcceptedIsIntact(cat: Catalogs, call: Call)
    requires EntryAccepts(cat, call)
    ensures EvaluationIntact(call.plan, call.evaluation) && AdmissionIntact(call.plan, call.evaluation, call.admission)
  {
  }

  // ---------- across processes ----------

  /** The referenced contracts of orphans items have the same qualified name. */
  ghost predicate JoinsAlike(a: Catalogs, b: Catalogs, items: seq<PlanItem>) {
    forall i | i in items && i.Executable? && i.actionId == QuarantineOrphans ::
      RefContract(a, i).Some? && RefContract(b, i).Some?
      && RefContract(a, i).value.Qualified() == RefContract(b, i).value.Qualified()
  }

  lemma {:induction false} PoliciesAlike(a: Catalogs, b: Catalogs, items: seq<PlanItem>, k: nat)
    requires k < |items| && items[k].Executable?
    requires CurrentItemPolicies(a, items).Some? && CurrentItemPolicies(a, items) == CurrentItemPolicies(b, items)
    ensures CurrentItemPolicy(a, items[k]).Some? && CurrentItemPolicy(a, items[k]) == CurrentItemPolicy(b, items[k])
    decreases |items|
  {
    hide CurrentItemPolicy;
    var n := |items| - 1;
    if items[n].Executable? {
      var x, y := CurrentItemPolicies(a, items[..n]).value, CurrentItemPolicies(b, items[..n]).value;
      var p, q := CurrentItemPolicy(a, items[n]).value, CurrentItemPolicy(b, items[n]).value;
      assert x + [p] == y + [q];
      assert (x + [p])[..|x|] == x && (y + [q])[..|y|] == y;
      assert (x + [p])[|x|] == p && (y + [q])[|y|] == q;
    }
    if k < n {
      PoliciesAlike(a, b, items[..n], k);
    }
  }

  /** One item that was committed under catalogs a, seen from catalogs b with the same policy snapshot. */
  lemma StepAcrossProcesses(a: Catalogs, b: Catalogs, item: PlanItem, fa: Failures, fb: Failures, runId: string,
                            step: AppliedStep)
    requires Keyed(a) && Keyed(b) && ItemJustified(a, item, fa) && ItemJustified(b, item, fb)
    requires CurrentItemPolicy(a, item).Some? && CurrentItemPolicy(a, item) == CurrentItemPolicy(b, item)
    requires Render(a, item.actionId, item.table, item.params, runId) == Some(step.rendered)
    ensures StepAgain(b, item, runId, step) <==> PlainTables(a, [item]) && JoinsAlike(a, b, [item])
  {
    hide Keyed;
    hide Render;
    hide RefContract;
    hide ItemJustified;
    hide CurrentItemPolicy;
    JustifiedIsExecutable(a, item, fa);
    SnapshotFixesRendering(a, b, item, fa, fb, runId);
    RenderedTable(a, item.actionId, item.table, item.params, runId);
    assert item in [item];
  }

  lemma JustifiedIsExecutable(cat: Catalogs, item: PlanItem, failures: Failures)
    requires ItemJustified(cat, item, failures)
    ensures item.Executable?
  {
  }

  /** Equal policy snapshots make a retry in another process recover the committed result exactly when the
      committed plan spells its tables plainly and the tables its orphans items join are named the same. */
  lemma RecoverableAcrossProcesses(c: Commit, w: Worker)
    requires Sound(c) && RetryOf(w, c) && Keyed(c.cat) && Keyed(w.cat)
    ensures Recoverable(w, c) <==>
      PlainTables(c.cat, c.call.plan.items) && JoinsAlike(c.cat, w.cat, c.call.plan.items)
  {
    hide Body;
    hide Keyed;
    hide Render;
    BodySteps(c.cat, c.snapshot, c.call, c.clock);
    AcceptedFacts(c.cat, c.call);
    AcceptedFacts(w.cat, w.call);
    hide EntryAccepts;
    hide ItemJustified;
    hide StepAgain;
    hide PlainTables;
    hide JoinsAlike;
    var items := c.call.plan.items;
    forall k | 0 <= k < |items|
      ensures items[k].Executable?
      ensures StepAgain(w.cat, items[k], c.call.runId, c.work.steps[k])
         <==> PlainTables(c.cat, [items[k]]) && JoinsAlike(c.cat, w.cat, [items[k]])
    {
      assert items[k] in items;
      PoliciesAlike(c.cat, w.cat, items, k);
      StepAcrossProcesses(c.cat, w.cat, items[k], FailuresOf(c.call.report), FailuresOf(w.call.report), c.call.runId,
                          c.work.steps[k]);
    }
    OneByOne(c.cat, w.cat, items);
  }

  lemma OneByOne(a: Catalogs, b: Catalogs, items: seq<PlanItem>)
    ensures PlainTables(a, items) && JoinsAlike(a, b, items) <==>
      forall k | 0 <= k < |items| :: PlainTables(a, [items[k]]) && JoinsAlike(a, b, [items[k]])
  {
    hide RefContract;
    if forall k | 0 <= k < |items| :: PlainTables(a, [items[k]]) && JoinsAlike(a, b, [items[k]]) {
      forall i | i in items ensures PlainTables(a, [i]) && JoinsAlike(a, b, [i]) && i in [i] {
        var k :| 0 <= k < |items| && items[k] == i;
      }
    }
  }

  lemma AcceptedFacts(cat: Catalogs, call: Call)
    requires EntryAccepts(cat, call)
    ensures AllExecutable(call.plan.items)
    ensures CurrentItemPolicies(cat, call.plan.items).Some?
    ensures CurrentItemPolicies(cat, call.plan.items).Some? ==>
              call.plan.policyFingerprint == ListDigest(CurrentItemPolicies(cat, call.plan.items).value)
    ensures forall i | i in call.plan.items :: ItemJustified(cat, i, FailuresOf(call.report))
  {
    hide ItemJustified;
  }

  // ---------- a retry on its way ----------

  /** Where a retry of a commit can be, and what it holds there. */
  ghost predicate PhaseOn(w: Worker, c: Commit, phase: Phase) {
    match phase
    case Starting => true
    case InTransaction(s) => Consumed(s.log, c.call.admission.admissionId)
    case Recovering(_) => true
    case Returned(r) => r == ResultOf(c.call, c.work) <==> Recoverable(w, c)
    case Raised => !Recoverable(w, c)
    case _ => false
  }

  ghost predicate OnTrack(g: Global, i: nat, k: nat) {
    && i in g.workers && k < |g.commits|
    && RetryOf(g.workers[i], g.commits[k])
    && !Blank(g.commits[k].call.admission.admissionId)
    && PhaseOn(g.workers[i], g.commits[k], g.workers[i].phase)
  }

  /** How many of its own moves a retry still needs at most. */
  function Rank(phase: Phase): nat {
    match phase
    case Starting => 3
    case InTransaction(_) => 2
    case Recovering(_) => 1
    case _ => 0
  }

  /** The retry is not interrupted: no fault hits it and its process does not crash. */
  predicate Interrupts(a: Action, i: nat) {
    a.Own? && a.i == i && (a.move == Fault || a.move == Crash)
  }

  /** A retry's own move never records or commits, and brings it closer to the committed result. */
  lemma RetryMoves(g: Global, i: nat, k: nat, move: Move)
    requires Invariant(g) && OnTrack(g, i, k) && move != Fault && move != Crash
    requires !EffectOf(g, i, move).Blocked?
    requires g.commits[k].call.resultId != "" && g.commits[k].call.eventId != ""
    ensures EffectOf(g, i, move).Moves?
    ensures Rank(EffectOf(g, i, move).phase) < Rank(g.workers[i].phase)
    ensures OnTrack(g.(workers := SetPhase(g, i, EffectOf(g, i, move).phase)), i, k)
  {
    hide EffectOf;
    hide PhaseOn;
    hide RetryOf;
    hide Invariant;
    MoveOnTrack(g, i, k, move);
    var w, c := g.workers[i], g.commits[k];
    SamePhaseOn(w, w.(phase := EffectOf(g, i, move).phase), c, EffectOf(g, i, move).phase);
  }

  lemma SamePhaseOn(v: Worker, w: Worker, c: Commit, phase: Phase)
    requires v.cat == w.cat && v.call == w.call
    ensures RetryOf(v, c) <==> RetryOf(w, c)
    ensures PhaseOn(v, c, phase) <==> PhaseOn(w, c, phase)
  {
    hide EntryAccepts;
    hide Consumed;
    hide RendersAgain;
  }

  /** The moves open to a retry. */
  ghost function RetryEffect(g: Global, w: Worker, move: Move): Effect
    requires AllExecutable(w.call.plan.items)
  {
    if move == AbortSerialization then Moves(Recovering(SerializationAbort))
    else
      match w.phase
      case Starting => EntryEffect(g.db, w)
      case InTransaction(s) => BodyEffect(w, s)
      case _ => RecoverEffect(g.db, w)
  }

  lemma RetryEffects(g: Global, i: nat, move: Move)
    requires i in g.workers && AllExecutable(g.workers[i].call.plan.items)
    requires move != Fault && move != Crash && !EffectOf(g, i, move).Blocked?
    requires Rank(g.workers[i].phase) > 0
    ensures EffectOf(g, i, move) == RetryEffect(g, g.workers[i], move)
    ensures move == AbortSerialization ==> g.workers[i].phase.InTransaction?
  {
    hide EntryEffect;
    hide BodyEffect;
    hide RecoverEffect;
    hide RecordEffect;
    hide CommitEffect;
  }

  lemma MoveOnTrack(g: Global, i: nat, k: nat, move: Move)
    requires Invariant(g) && OnTrack(g, i, k) && move != Fault && move != Crash
    requires !EffectOf(g, i, move).Blocked?
    requires g.commits[k].call.resultId != "" && g.commits[k].call.eventId != ""
    ensures EffectOf(g, i, move).Moves?
    ensures Rank(EffectOf(g, i, move).phase) < Rank(g.workers[i].phase)
    ensures PhaseOn(g.workers[i], g.commits[k], EffectOf(g, i, move).phase)
  {
    hide EffectOf;
    hide Invariant;
    hide BodyEffect;
    hide EntryEffect;
    hide RecoverEffect;
    hide EntryAccepts;
    hide Recoverable;
    hide Consumed;
    hide ResultOf;
    var w, c := g.workers[i], g.commits[k];
    AcceptedIsExecutable(w.cat, w.call);
    StillRunning(g, i, k, move);
    RetryEffects(g, i, move);
    if move != AbortSerialization {
      match w.phase
      case Starting => EntersOnTrack(g, k, w);
      case InTransaction(snapshot) => BodyOnTrack(w, c, snapshot);
      case _ => EndsOnTrack(g, k, w);
    }
  }

  lemma StillRunning(g: Global, i: nat, k: nat, move: Move)
    requires OnTrack(g, i, k) && !EffectOf(g, i, move).Blocked?
    ensures Rank(g.workers[i].phase) > 0
  {
    hide RetryOf;
    hide Recoverable;
    hide EntryEffect;
    hide BodyEffect;
    hide RecoverEffect;
    hide RecordEffect;
    hide CommitEffect;
  }

  lemma EntersOnTrack(g: Global, k: nat, w: Worker)
    requires Invariant(g) && k < |g.commits| && RetryOf(w, g.commits[k])
    requires !Blank(g.commits[k].call.admission.admissionId)
    ensures EntryEffect(g.db, w).Moves? && PhaseOn(w, g.commits[k], EntryEffect(g.db, w).phase)
    ensures Rank(EntryEffect(g.db, w).phase) < 3
  {
    hide Invariant;
    hide EntryAccepts;
    hide Consumed;
    CommitIsFound(g, k);
  }

  lemma BodyOnTrack(w: Worker, c: Commit, snapshot: World)
    requires RetryOf(w, c) && AllExecutable(w.call.plan.items)
    requires Consumed(snapshot.log, c.call.admission.admissionId)
    ensures BodyEffect(w, snapshot).Moves? && PhaseOn(w, c, BodyEffect(w, snapshot).phase)
    ensures Rank(BodyEffect(w, snapshot).phase) < 2
  {
    hide EntryAccepts;
    hide Consumed;
    ConsumedBody(w.cat, snapshot, w.call, w.clock);
    hide Body;
  }

  lemma EndsOnTrack(g: Global, k: nat, w: Worker)
    requires Invariant(g) && k < |g.commits| && RetryOf(w, g.commits[k])
    requires !Blank(g.commits[k].call.admission.admissionId)
    requires g.commits[k].call.resultId != "" && g.commits[k].call.eventId != ""
    ensures AllExecutable(w.call.plan.items)
    ensures RecoverEffect(g.db, w).Moves? && PhaseOn(w, g.commits[k], RecoverEffect(g.db, w).phase)
    ensures Rank(RecoverEffect(g.db, w).phase) == 0
  {
    hide Invariant;
    hide EntryAccepts;
    hide Recover;
    hide Recoverable;
    hide ResultOf;
    CommitOf(g, k);
    hide Sound;
    hide Shows;
    RecoversExactly(g.db, g.commits[k], w);
  }

  lemma CommitOf(g: Global, k: nat)
    requires Invariant(g) && k < |g.commits|
    ensures Sound(g.commits[k])
    ensures !Blank(g.commits[k].call.admission.admissionId) ==> Shows(g.db, g.commits[k].call, g.commits[k].work)
  {
    hide Sound;
    CommitIsFound(g, k);
  }

  /** On a snapshot that shows the admission consumed, the body never gets past its check. */
  lemma ConsumedBody(cat: Catalogs, snapshot: World, call: Call, clock: Clock)
    requires AllExecutable(call.plan.items) && Consumed(snapshot.log, call.admission.admissionId)
    ensures Body(cat, snapshot, call, clock).BodyExpired? || Body(cat, snapshot, call, clock).BodyConsumed?
  {
    hide RunItems;
    hide TargetsHold;
  }

  /** Every transition keeps a retry on its track; its own moves bring it closer to the end and write nothing. */
  lemma StaysOnTrack(g: Global, a: Action, h: Global, i: nat, k: nat)
    requires Invariant(g) && OnTrack(g, i, k) && Transition(g, a, h) && !Interrupts(a, i)
    requires g.commits[k].call.resultId != "" && g.commits[k].call.eventId != ""
    ensures OnTrack(h, i, k) && h.commits[k] == g.commits[k]
    ensures Rank(h.workers[i].phase) <= Rank(g.workers[i].phase)
    ensures a.Own? && a.i == i ==> Rank(h.workers[i].phase) < Rank(g.workers[i].phase) && h.db == g.db
    ensures h.workers[i].cat == g.workers[i].cat
  {
    hide Invariant;
    hide Consumed;
    hide Recoverable;
    hide EntryAccepts;
    OnlyCommitsMutate(g, a, h);
    if a.Own? && a.i == i {
      RetryMoves(g, i, k, a.move);
    }
    hide EffectOf;
    hide Committed;
  }

  /** A retry that has not ended can always move. */
  lemma RetryCanMove(g: Global, i: nat, k: nat)
    requires OnTrack(g, i, k) && Rank(g.workers[i].phase) > 0
    ensures EffectOf(g, i, Advance).Moves?
  {
    hide Body;
    hide Recover;
    hide Recoverable;
    hide Consumed;
    AcceptedIsExecutable(g.workers[i].cat, g.workers[i].call);
    if g.workers[i].phase.InTransaction? {
      ConsumedBody(g.workers[i].cat, g.workers[i].phase.snapshot, g.workers[i].call, g.workers[i].clock);
    }
  }

  /** How many of the actions are moves of worker i. */
  function OwnMoves(actions: seq<Action>, i: nat): nat {
    if actions == [] then 0
    else
      var a := actions[|actions| - 1];
      OwnMoves(actions[..|actions| - 1], i) + (if a.Own? && a.i == i then 1 else 0)
  }

  lemma {:induction false} RetryProgress(states: seq<Global>, actions: seq<Action>, start: nat, end: nat, i: nat,
                                         k: nat)
    requires Execution(states, actions) && start <= end < |states|
    requires OnTrack(states[start], i, k)
    requires states[start].commits[k].call.resultId != "" && states[start].commits[k].call.eventId != ""
    requires forall n | start <= n < end :: !Interrupts(actions[n], i)
    ensures OnTrack(states[end], i, k) && states[end].commits[k] == states[start].commits[k]
    ensures Rank(states[end].workers[i].phase) + OwnMoves(actions[start..end], i)
         <= Rank(states[start].workers[i].phase)
    ensures states[end].workers[i].cat == states[start].workers[i].cat
    decreases end
  {
    hide OnTrack;
    hide Invariant;
    hide Transition;
    if start < end {
      RetryProgress(states, actions, start, end - 1, i, k);
      InvariantHolds(states, actions, end - 1);
      StaysOnTrack(states[end - 1], actions[end - 1], states[end], i, k);
      assert actions[start..end][..end - start - 1] == actions[start..end - 1];
    } else {
      assert actions[start..end] == [];
    }
  }

  /** Retry agreement: after an admission with a non-blank id has committed, a later call with the same plan
      and admission, accepted under its own policy snapshot, ends within three moves of its own, whatever its
      clock says and whatever others do meanwhile. It then has returned the original result, field by field,
      exactly when its catalogs render the committed steps again; otherwise it does not return that result. */
  lemma RetryAgreement(states: seq<Global>, actions: seq<Action>, start: nat, end: nat, i: nat, k: nat)
    requires Execution(states, actions) && start <= end < |states|
    requires i in states[start].workers && k < |states[start].commits|
    requires states[start].workers[i].phase == Starting && RetryOf(states[start].workers[i], states[start].commits[k])
    requires !Blank(states[start].commits[k].call.admission.admissionId)
    requires states[start].commits[k].call.resultId != "" && states[start].commits[k].call.eventId != ""
    requires forall n | start <= n < end :: !Interrupts(actions[n], i)
    requires OwnMoves(actions[start..end], i) >= 3
    ensures i in states[end].workers && Finished(states[end].workers[i].phase)
    ensures states[end].workers[i].phase
         == Returned(ResultOf(states[start].commits[k].call, states[start].commits[k].work))
       <==> Recoverable(states[start].workers[i], states[start].commits[k])
  {
    hide Recoverable;
    hide RetryOf;
    hide Execution;
    RetryProgress(states, actions, start, end, i, k);
    hide OnTrack;
    TrackEnds(states[end], i, k);
    SameRecoverable(states[start].workers[i], states[end].workers[i], states[start].commits[k]);
  }

  lemma TrackEnds(g: Global, i: nat, k: nat)
    requires OnTrack(g, i, k) && Rank(g.workers[i].phase) == 0
    ensures Finished(g.workers[i].phase)
    ensures g.workers[i].phase == Returned(ResultOf(g.commits[k].call, g.commits[k].work))
       <==> Recoverable(g.workers[i], g.commits[k])
  {
    hide RendersAgain;
    hide RetryOf;
    hide ResultOf;
  }

  lemma SameRecoverable(v: Worker, w: Worker, c: Commit)
    requires v.cat == w.cat
    ensures Recoverable(v, c) <==> Recoverable(w, c)
  {
  }

  /** The retry adds nothing: none of its own moves changes the database. */
  lemma RetryWritesNothing(states: seq<Global>, actions: seq<Action>, start: nat, n: nat, i: nat, k: nat)
    requires Execution(states, actions) && start <= n < |actions|
    requires OnTrack(states[start], i, k)
    requires states[start].commits[k].call.resultId != "" && states[start].commits[k].call.eventId != ""
    requires forall m | start <= m <= n :: !Interrupts(actions[m], i)
    requires actions[n].Own? && actions[n].i == i
    ensures states[n + 1].db == states[n].db
  {
    hide OnTrack;
    hide Invariant;
    hide Transition;
    RetryProgress(states, actions, start, n, i, k);
    InvariantHolds(states, actions, n);
    StaysOnTrack(states[n], actions[n], states[n + 1], i, k);
  }

  /** A blank admission id can commit, but no call ever reads its result back: looking for it ends in refusal. */
  lemma BlankIsNeverRecovered(g: Global, i: nat)
    requires i in g.workers && g.workers[i].phase.Recovering? && AllExecutable(g.workers[i].call.plan.items)
    requires Blank(g.workers[i].call.admission.admissionId)
    ensures EffectOf(g, i, Advance) == Moves(Raised)
    ensures !Consumed(g.db.log, g.workers[i].call.admission.admissionId)
  {
    hide RecoverSteps;
  }
}
