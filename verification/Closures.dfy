/** Lineage over whole executions: whatever calls, crashes and retries interleave, every stored event has its
    predecessor stored, up to the quality report of its run (traces/lineage.py, apply/executor.py). */
module Closures {
  import opened Prelude
  import opened Contracts
  import opened Planning
  import opened Lineage
  import opened Admissions
  import opened Transactions
  import opened Protocol
  import opened Guarantees

  /** The human approval behind the call's admission is stored, under the run of its plan. */
  ghost predicate Approved(traces: Events, call: Call) {
    var id := call.admission.decisionEventId;
    id in traces && traces[id].kind == HumanApproved && traces[id].qualityRunId == call.plan.qualityRunId
  }

  /** The event a call emits when it fails before a result could be recorded. */
  function FailureOf(call: Call, steps: seq<AppliedStep>, eventId: string): AuditEvent {
    ApplyEvent(call.plan, call.evaluation, call.admission, call.resultId,
               ResultFingerprint(call.plan, call.admission, call.runId, steps), [], true, eventId)
  }

  /** Success and failure of a call both follow its approval. */
  lemma OutcomesFollow(traces: Events, call: Call, work: Work, steps: seq<AppliedStep>, eventId: string)
    requires Approved(traces, call)
    ensures Follows(traces, EventOf(call, work)) && Follows(traces, FailureOf(call, steps, eventId))
  {
    hide EvidenceOfAll;
  }

  /** Calls come with an approval, and other events follow what is stored. */
  ghost predicate Lawful(g: Global, a: Action) {
    match a
    case Spawn(_, worker) => Approved(g.db.traces, worker.call)
    case Audit(event) => Follows(g.db.traces, event)
    case _ => true
  }

  ghost predicate Rooted(g: Global) {
    Closed(g.db.traces) && forall i | i in g.workers :: Approved(g.db.traces, g.workers[i].call)
  }

  /** Stored events stay. */
  lemma TracesGrow(g: Global, a: Action, h: Global)
    requires Transition(g, a, h) && Invariant(g)
    ensures forall id | id in g.db.traces :: id in h.db.traces && h.db.traces[id] == g.db.traces[id]
    ensures a.Own? || a.WriteSources? ==> h.workers.Keys == g.workers.Keys
    ensures a.Own? || a.WriteSources? || a.Audit? ==>
              h.workers.Keys == g.workers.Keys && forall i | i in g.workers :: h.workers[i].call == g.workers[i].call
  {
    hide EntryAccepts;
    hide Body;
    hide Recover;
    hide KeyHeld;
    hide LogMatches;
    hide KeysUnique;
    hide Sound;
    hide Reports;
    hide EventOf;
    hide RowOf;
    hide MergeSources;
    hide WriteConflict;
    if a.Own? {
      assert WorkerSound(g, g.workers[a.i]);
    }
  }

  lemma TransitionKeepsRooted(g: Global, a: Action, h: Global)
    requires Transition(g, a, h) && Invariant(g) && Rooted(g) && Lawful(g, a)
    ensures Rooted(h)
  {
    hide Closed;
    hide Invariant;
    hide EffectOf;
    hide AfterCommit;
    TracesGrow(g, a, h);
    match a
    case Own(i, move) => OwnKeepsClosed(g, i, move, h);
    case Spawn(i, worker) =>
    case WriteSources(_) =>
    case Audit(event) => AppendKeepsClosed(g.db.traces, event);
  }

  lemma OwnKeepsClosed(g: Global, i: nat, move: Move, h: Global)
    requires Transition(g, Own(i, move), h) && Invariant(g) && Rooted(g)
    ensures Closed(h.db.traces)
  {
    hide Closed;
    hide EntryAccepts;
    hide Body;
    hide Recover;
    hide KeyHeld;
    hide LogMatches;
    hide KeysUnique;
    hide Sound;
    hide Reports;
    hide EventOf;
    hide RowOf;
    hide MergeSources;
    hide WriteConflict;
    var w := g.workers[i];
    if EffectOf(g, i, move).Commits? {
      assert WorkerSound(g, w);
      var work := w.phase.work;
      EventIdOf(w.call, work);
      OutcomesFollow(g.db.traces, w.call, work, [], "");
      AppendKeepsClosed(g.db.traces, EventOf(w.call, work));
    }
  }

  lemma EventIdOf(call: Call, work: Work)
    ensures EventOf(call, work).eventId == call.eventId
  {
  }

  /** In every state of every lawful execution the lineage is closed. */
  lemma {:induction false} LineageStaysClosed(states: seq<Global>, actions: seq<Action>, k: nat)
    requires Execution(states, actions) && k < |states|
    requires Closed(states[0].db.traces) && forall n | 0 <= n < |actions| :: Lawful(states[n], actions[n])
    ensures Rooted(states[k])
  {
    hide Transition;
    hide Lawful;
    hide Closed;
    hide Invariant;
    if k == 0 {
      assert states[0].workers == map[];
    } else {
      hide Rooted;
      LineageStaysClosed(states, actions, k - 1);
      InvariantHolds(states, actions, k - 1);
      TransitionKeepsRooted(states[k - 1], actions[k - 1], states[k]);
    }
  }

  /** So from the record of every commit, following predecessors ends at the report of its run. */
  lemma CommitsReachReport(states: seq<Global>, actions: seq<Action>, k: nat, c: nat)
    requires Execution(states, actions) && k < |states|
    requires Closed(states[0].db.traces) && forall n | 0 <= n < |actions| :: Lawful(states[n], actions[n])
    requires c < |states[k].commits|
    ensures
      var traces, call := states[k].db.traces, states[k].commits[c].call;
      var root := Ancestor(traces, call.eventId, 6);
      && root in traces && traces[root].kind == QualityReport
      && traces[root].qualityRunId == call.plan.qualityRunId
  {
    hide Transition;
    hide Lawful;
    hide Closed;
    hide Ancestor;
    hide Sound;
    hide EvidenceOfAll;
    LineageStaysClosed(states, actions, k);
    InvariantHolds(states, actions, k);
    LineageReachesRoot(states[k].db.traces, states[k].commits[c].call.eventId);
  }
}
