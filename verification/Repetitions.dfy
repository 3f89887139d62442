/** One decision that files one row twice: two admissions of the same approval, each consumed once. */
module Repetitions {
  import opened Prelude
  import opened Sql
  import opened Contracts
  import opened Actions
  import opened Planning
  import opened Lineage
  import opened Admissions
  import opened Transactions
  import opened Protocol
  import opened Guarantees
  import opened Decisions
  import C = Conservations
  import F = ReferencedSchemas
  import P = Predicates
  import W = Witnesses

  /** Two calls over a database with one orphan, under the admissions "one" and "two" of one decision. */
  function Start(f: F.Family, p: string): Global {
    Global(F.Snapshot(f, p), map[0 := CallWorker(f, p, "one"), 1 := CallWorker(f, p, "two")], [])
  }

  function CallWorker(f: F.Family, p: string, id: string): Worker {
    Worker(F.CatalogsIn(f, p), F.CallOf(f, id, id), W.STILL, Starting)
  }

  lemma StartIsReachable(f: F.Family, p: string)
    ensures Reachable(Start(f, p))
  {
    hide Reachable;
    var g0 := Global(F.Snapshot(f, p), map[], []);
    InitialReachable(g0);
    var g1 := g0.(workers := g0.workers[0 := CallWorker(f, p, "one")]);
    ReachableStep(g0, Spawn(0, CallWorker(f, p, "one")), g1);
    var g2 := g1.(workers := g1.workers[1 := CallWorker(f, p, "two")]);
    ReachableStep(g1, Spawn(1, CallWorker(f, p, "two")), g2);
    assert g2 == Start(f, p);
  }

  lemma Apart()
    ensures "one" != "two" && "one" != "" && "two" != ""
  {
    assert "one"[0] != "two"[0];
  }

  /** Both calls are ready to run. */
  lemma BothReady(f: F.Family, p: string)
    requires F.Usable(f) && P.Ident(p)
    ensures Unhindered(Start(f, p), 0) && Decisions.Follows(Start(f, p), 0, 1)
  {
    hide F.Usable;
    hide P.Ident;
    hide EntryAccepts;
    hide Body;
    hide F.CatalogsIn;
    Apart();
    F.AcceptedIn(f, p, "one", "one");
    F.AcceptedIn(f, p, "two", "two");
    F.RunsIn(f, p, "one", "one");
    var g := Start(f, p);
    assert g.workers[0].call.admission.expiresAt == 10000 && g.workers[1].call.admission.expiresAt == 10000;
    assert !SharesKey(g.workers[0].call, g.workers[1].call);
  }

  lemma FillsNoneHere(f: F.Family)
    ensures FillsNothing(F.CallOf(f, "one", "one").plan.items)
    ensures C.QuarantineOnly(F.CallOf(f, "one", "one").plan.items)
    ensures TargetTotal(F.CallOf(f, "one", "one").plan.items) == 1
  {
    assert [F.Item(f)][..0] == [];
  }

  lemma BothCommit(f: F.Family, p: string) returns (g: Global)
    requires F.Usable(f) && P.Ident(p)
    ensures Reachable(g) && |g.commits| == 2
    ensures g.commits[0].call == F.CallOf(f, "one", "one") && g.commits[1].call == F.CallOf(f, "two", "two")
  {
    hide F.Usable;
    hide P.Ident;
    hide Reachable;
    hide Unhindered;
    hide Decisions.Follows;
    hide F.CatalogsIn;
    hide F.CallOf;
    hide FillsNothing;
    StartIsReachable(f, p);
    BothReady(f, p);
    FillsNoneHere(f);
    g := SecondCallExactly(Start(f, p), 0, 1);
  }

  lemma OneDecision(f: F.Family)
    ensures
      var one, two := F.CallOf(f, "one", "one"), F.CallOf(f, "two", "two");
      && one.admission.decisionId == two.admission.decisionId && one.plan == two.plan
      && one.admission.admissionId == "one" && two.admission.admissionId == "two"
  {
  }

  /** An execution in which one decision files the same row twice: two commits, each under its own non-empty admission
      id of that decision, both logged, and two rows in quarantine for the one orphan. */
  lemma OneDecisionFilesTwice(f: F.Family, p: string) returns (g: Global)
    requires F.Usable(f) && P.Ident(p)
    ensures Reachable(g) && |g.commits| == 2 && |g.db.log| == 2 && |g.db.quarantine| == 2
    ensures g.commits[0].call.admission.decisionId == g.commits[1].call.admission.decisionId
    ensures g.commits[0].call.admission.admissionId != g.commits[1].call.admission.admissionId
    ensures g.commits[0].call.plan == g.commits[1].call.plan
    ensures forall k | 0 <= k < 2 :: g.commits[k].call.admission.admissionId != ""
  {
    hide F.Usable;
    hide P.Ident;
    hide Reachable;
    hide F.CallOf;
    hide C.QuarantineOnly;
    hide TargetTotal;
    g := BothCommit(f, p);
    OneDecision(f);
    FillsNoneHere(f);
    Apart();
    RowsOfTwo(g, F.CallOf(f, "one", "one").plan);
  }

  /** Two commits of a plan that only quarantines its one target row. */
  lemma RowsOfTwo(g: Global, plan: Plan)
    requires Reachable(g) && |g.commits| == 2 && forall k | 0 <= k < 2 :: g.commits[k].call.plan == plan
    requires C.QuarantineOnly(plan.items) && TargetTotal(plan.items) == 1
    ensures |g.db.log| == 2 && |g.db.quarantine| == 2
  {
    hide Reachable;
    hide C.QuarantineOnly;
    hide RowOf;
    hide EntryAccepts;
    Apart();
    ExactlyOnce(g, "one");
    C.QuarantineIsCounted(g);
    CountsTwo(g);
  }

  lemma CountsTwo(g: Global)
    requires |g.commits| == 2 && |g.db.log| == 2
    requires forall k | 0 <= k < 2 :: g.db.log[k] == RowOf(g.commits[k].call, g.commits[k].work)
    requires forall k | 0 <= k < 2 :: TargetTotal(g.commits[k].call.plan.items) == 1
    ensures C.LoggedTargets(g.db.log) == 2
  {
    hide TargetTotal;
    hide RowTotal;
    var log := g.db.log;
    assert log[..1][..0] == [];
    assert C.LoggedTargets(log[..1]) == log[0].targetCount;
  }
}
