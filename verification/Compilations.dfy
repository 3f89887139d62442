/** What the compiler makes of a proposal, stated over the proposal itself (planning/compiler.py:89-240). */
module Compilations {
  import opened Prelude
  import opened Contracts
  import opened Actions
  import opened CheckPolicies
  import opened Planning
  import opened Agreement
  import opened Evaluations

  /** Two candidates ask for the same action on the same evidence, in whatever order it is listed. */
  predicate SameRequest(a: CandidateAction, b: CandidateAction) {
    a.actionId == b.actionId && multiset(a.evidence) == multiset(b.evidence)
  }

  /** No other candidate asks for the same. */
  predicate AskedOnce(actions: seq<CandidateAction>, i: nat)
    requires i < |actions|
  {
    forall j | 0 <= j < |actions| && j != i :: !SameRequest(actions[j], actions[i])
  }

  /** The request is one the compiler can make a step of: every piece of its evidence names a declared check that failed
      under the cited contract, all on one table and all deriving the same parameters, and the targets resolve. */
  predicate Compilable(cat: Catalogs, a: CandidateAction, failures: Failures, index: nat, resolve: Resolver) {
    && a.evidence != [] && Governed(a.actionId)
    && (forall e | e in a.evidence :: SoundEvidence(cat, e, failures))
    && a.evidence[0].checkId in cat.checks
    && var first := cat.checks[a.evidence[0].checkId];
       && DeriveParams(cat, a.actionId, first).Some?
       && (forall e | e in a.evidence ::
             cat.checks[e.checkId].table == first.table
             && DeriveParams(cat, a.actionId, cat.checks[e.checkId]) == DeriveParams(cat, a.actionId, first))
       && resolve(index, a.actionId, first.table, DeriveParams(cat, a.actionId, first).value).Some?
  }

  // ---------- one candidate ----------

  lemma OnceIsNotRepeated(actions: seq<CandidateAction>, i: nat)
    requires i < |actions|
    ensures AskedOnce(actions, i) <==> !Repeated(actions, i)
  {
    forall j | 0 <= j < |actions|
      ensures SameRequest(actions[j], actions[i]) <==>
        IdentityOf(actions[j].actionId, actions[j].evidence) == IdentityOf(actions[i].actionId, actions[i].evidence)
    {
    }
  }

  lemma CompilableIsJustified(cat: Catalogs, a: CandidateAction, failures: Failures, index: nat, resolve: Resolver)
    requires a.evidence != []
    ensures Compilable(cat, a, failures, index, resolve) <==>
      Justify(cat, a.actionId, a.evidence, failures).Ok? && !SpansTables(cat, a)
      && Lookup(cat, index, a, failures, resolve).Some?
  {
    hide DeriveParams;
    hide Justify;
    var r := Justify(cat, a.actionId, a.evidence, failures);
    assert a.evidence[0] in a.evidence;
    if r.Ok? {
      AcceptedIsJustified(cat, a.actionId, a.evidence, failures);
      JustifiedSpecs(cat, a.actionId, a.evidence, failures);
    }
    if Compilable(cat, a, failures, index, resolve) {
      var params := DeriveParams(cat, a.actionId, cat.checks[a.evidence[0].checkId]).value;
      assert Justified(cat, a.actionId, a.evidence, failures, params);
      JustifiedIsAccepted(cat, a.actionId, a.evidence, failures, params);
      JustifiedSpecs(cat, a.actionId, a.evidence, failures);
    }
  }

  /** The step an executable item is of its candidate. */
  predicate StepOf(cat: Catalogs, a: CandidateAction, item: PlanItem, index: nat, resolve: Resolver) {
    && item.Executable? && item.itemId == Candidate(index)
    && item.actionId == a.actionId && item.evidence == a.evidence && a.evidence != []
    && a.evidence[0].checkId in cat.checks
    && var first := cat.checks[a.evidence[0].checkId];
       && item.table == first.table && DeriveParams(cat, a.actionId, first).Some?
       && item.params == Freeze(DeriveParams(cat, a.actionId, first).value)
       && resolve(index, a.actionId, first.table, DeriveParams(cat, a.actionId, first).value) == Some(item.targetSet)
  }

  lemma CandidateCompiles(cat: Catalogs, actions: seq<CandidateAction>, i: nat, failures: Failures, resolve: Resolver)
    requires i < |actions|
    ensures
      var item := CompileAction(cat, i, actions[i], Repeated(actions, i), failures, resolve);
      && (item.Executable? <==> AskedOnce(actions, i) && Compilable(cat, actions[i], failures, i, resolve))
      && (item.Executable? ==> StepOf(cat, actions[i], item, i, resolve))
      && (item.NonExecutable? ==> item.itemId == Candidate(i) && item.evidence == actions[i].evidence)
      && (!AskedOnce(actions, i) ==> item == NonExecutable(Candidate(i), actions[i].evidence, DuplicateCandidate))
      && (item.NonExecutable? && AskedOnce(actions, i) ==> item.reason != DuplicateCandidate)
  {
    hide AskedOnce;
    hide Repeated;
    hide Compilable;
    hide StepOf;
    OnceIsNotRepeated(actions, i);
    var a := actions[i];
    if a.evidence != [] {
      CompilableIsJustified(cat, a, failures, i, resolve);
    } else {
      NothingCompilable(cat, a, failures, i, resolve);
    }
    ReasonOf(cat, i, a, Repeated(actions, i), failures, resolve);
    if Justify(cat, a.actionId, a.evidence, failures).Ok? {
      JustifiedCompiles(cat, i, a, Repeated(actions, i), failures, resolve);
    }
    if CompileAction(cat, i, a, Repeated(actions, i), failures, resolve).Executable? {
      StepOfCandidate(cat, i, a, Repeated(actions, i), failures, resolve);
      CompiledFrom(cat, i, a, Repeated(actions, i), failures, resolve);
    }
    hide CompileAction;
    hide SpansTables;
    hide Lookup;
    hide Justify;
  }

  lemma NothingCompilable(cat: Catalogs, a: CandidateAction, failures: Failures, index: nat, resolve: Resolver)
    requires a.evidence == []
    ensures !Compilable(cat, a, failures, index, resolve) && Justify(cat, a.actionId, a.evidence, failures).Err?
  {
  }

  lemma PolicyReasons(cat: Catalogs, action: ActionId, evidence: seq<Evidence>, failures: Failures)
    requires Justify(cat, action, evidence, failures).Err?
    ensures Justify(cat, action, evidence, failures).error
         in {UnknownCheck, InvalidEvidence, UnsupportedAction, Unavailable}
  {
    hide DeriveParams;
    CitedStops(cat, evidence, failures);
    hide CitedSpecs;
    hide SoundEvidence;
  }

  lemma ReasonOf(cat: Catalogs, i: nat, a: CandidateAction, repeated: bool, failures: Failures, resolve: Resolver)
    ensures
      var item := CompileAction(cat, i, a, repeated, failures, resolve);
      && (item.Executable? ==> Justify(cat, a.actionId, a.evidence, failures).Ok? && !repeated)
      && (item.NonExecutable? ==> item.itemId == Candidate(i) && item.evidence == a.evidence)
      && (repeated ==> item == NonExecutable(Candidate(i), a.evidence, DuplicateCandidate))
      && (item.NonExecutable? && !repeated ==> item.reason != DuplicateCandidate)
  {
    hide ItemPolicy;
    if Justify(cat, a.actionId, a.evidence, failures).Err? {
      PolicyReasons(cat, a.actionId, a.evidence, failures);
    }
    hide Justify;
  }

  lemma StepOfCandidate(cat: Catalogs, i: nat, a: CandidateAction, repeated: bool, failures: Failures,
                        resolve: Resolver)
    requires CompileAction(cat, i, a, repeated, failures, resolve).Executable?
    ensures StepOf(cat, a, CompileAction(cat, i, a, repeated, failures, resolve), i, resolve)
  {
    hide DeriveParams;
    hide Justify;
    hide ItemPolicy;
    CompiledFrom(cat, i, a, repeated, failures, resolve);
    AcceptedIsJustified(cat, a.actionId, a.evidence, failures);
    JustifiedSpecs(cat, a.actionId, a.evidence, failures);
    assert a.evidence[0] in a.evidence;
    var specs := Justify(cat, a.actionId, a.evidence, failures).value.specs;
    assert specs[0] in specs;
  }

  // ---------- the whole plan ----------

  /** Under a complete suite item i of the plan answers candidate i: it is a step of it exactly when the candidate asks
      for something compilable that no other candidate asks for, and otherwise blocked with its evidence. Of candidates
      that ask for the same, all are blocked as duplicates, not only the later ones. */
  lemma CandidatesCompile(cat: Catalogs, report: Report, proposal: Proposal, resolve: Resolver, planId: string,
                          env: string, i: nat)
    requires !Incomplete(report) && i < |proposal.actions|
    ensures
      var items := Compile(cat, report, proposal, resolve, planId, env).items;
      var actions, failures := proposal.actions, FailuresOf(report);
      && |items| >= |actions|
      && (items[i].Executable? <==> AskedOnce(actions, i) && Compilable(cat, actions[i], failures, i, resolve))
      && (items[i].Executable? ==> StepOf(cat, actions[i], items[i], i, resolve))
      && (items[i].NonExecutable? ==> items[i].itemId == Candidate(i) && items[i].evidence == actions[i].evidence)
      && (items[i] == NonExecutable(Candidate(i), actions[i].evidence, DuplicateCandidate) <==>
            exists j | 0 <= j < |actions| && j != i :: SameRequest(actions[j], actions[i]))
  {
    hide CompileAction;
    hide Compilable;
    hide StepOf;
    hide SameRequest;
    hide Repeated;
    CandidateCompiles(cat, proposal.actions, i, FailuresOf(report), resolve);
    PlanItems(cat, report, proposal, resolve, planId, env);
    hide Compile;
    hide CandidateItems;
    assert AskedOnce(proposal.actions, i) <==>
        !exists j | 0 <= j < |proposal.actions| && j != i :: SameRequest(proposal.actions[j], proposal.actions[i]);
  }

  /** The items of a plan over a complete suite: one per candidate, in order, and at most one more. */
  lemma PlanItems(cat: Catalogs, report: Report, proposal: Proposal, resolve: Resolver, planId: string, env: string)
    requires !Incomplete(report)
    ensures
      var items := Compile(cat, report, proposal, resolve, planId, env).items;
      var n := |proposal.actions|;
      && |items| >= n
      && forall i | 0 <= i < n ::
           items[i] == CompileAction(cat, i, proposal.actions[i], Repeated(proposal.actions, i), FailuresOf(report),
                                     resolve)
  {
    hide CompileAction;
  }

  /** Some candidate cites the check. */
  predicate CitedBy(actions: seq<CandidateAction>, id: string) {
    exists a, e | a in actions && e in a.evidence :: e.checkId == id
  }

  /** Under a complete suite the plan ends with an item for omitted coverage exactly when some failed check is cited by
      no candidate, and that item lists exactly these checks under their own contracts. */
  lemma OmittedExactly(cat: Catalogs, report: Report, proposal: Proposal, resolve: Resolver, planId: string,
                       env: string)
    requires !Incomplete(report)
    ensures
      var items := Compile(cat, report, proposal, resolve, planId, env).items;
      var n, failures := |proposal.actions|, FailuresOf(report);
      && n <= |items| <= n + 1
      && (|items| == n <==> forall id | id in failures :: CitedBy(proposal.actions, id))
      && (|items| == n + 1 ==>
            && items[n].NonExecutable? && items[n].itemId == OmittedFailures && items[n].reason == OmittedCoverage
            && forall e :: e in items[n].evidence <==>
                 e.checkId in failures && !CitedBy(proposal.actions, e.checkId)
                 && e.contractId == failures[e.checkId].contractId)
  {
    hide CompileAction;
    hide FailuresOf;
    hide CitedBy;
    var failures, actions := FailuresOf(report), proposal.actions;
    var items := CandidateItems(cat, actions, failures, resolve);
    forall i | 0 <= i < |items|
      ensures items[i].evidence == actions[i].evidence
      ensures items[i].Executable? ==> forall e | e in items[i].evidence :: e.checkId in failures
    {
      CandidateEvidence(cat, actions, i, failures, resolve);
    }
    CoverageMeaning(items, actions, failures);
    CoverageOfReport(report);
    var ids, covered := Ids(FailedChecks(report)), CoveredBy(items, failures);
    OmittedMeaning(ids, failures, covered);
    hide CoveredBy;
    hide Ids;
    hide CandidateItems;
    assert Compile(cat, report, proposal, resolve, planId, env).items
        == if Omitted(ids, failures, covered) == [] then items
           else items + [NonExecutable(OmittedFailures, Omitted(ids, failures, covered), OmittedCoverage)];
    hide Compile;
    hide Omitted;
  }

  /** The first failure of one check comes before any of the other's. */
  ghost predicate FailsBefore(failed: seq<CheckResult>, a: string, b: string) {
    exists k: nat :: k < |failed| && failed[k].checkId == a && forall i | 0 <= i <= k :: failed[i].checkId != b
  }

  lemma BeforeGrows(front: seq<CheckResult>, last: CheckResult, a: string, b: string)
    requires FailsBefore(front, a, b)
    ensures FailsBefore(front + [last], a, b)
  {
    var k: nat :| k < |front| && front[k].checkId == a && forall i | 0 <= i <= k :: front[i].checkId != b;
    assert (front + [last])[k].checkId == a;
  }

  lemma BeforeTheRest(failed: seq<CheckResult>, a: string, b: string)
    requires a in Ids(failed) && b !in Ids(failed)
    ensures FailsBefore(failed, a, b)
  {
    IdsOccur(failed);
    var k: nat :| k < |failed| && failed[k].checkId == a;
    forall i | 0 <= i <= k ensures failed[i].checkId != b {
      assert failed[i].checkId in Ids(failed);
    }
  }

  lemma {:induction false} IdsOccur(failed: seq<CheckResult>)
    ensures forall k | 0 <= k < |failed| :: failed[k].checkId in Ids(failed)
    ensures forall id | id in Ids(failed) :: exists k: nat :: k < |failed| && failed[k].checkId == id
  {
    if failed != [] {
      var n := |failed| - 1;
      IdsOccur(failed[..n]);
      forall id | id in Ids(failed) ensures exists k: nat :: k < |failed| && failed[k].checkId == id {
        if id in Ids(failed[..n]) {
          var k: nat :| k < n && failed[..n][k].checkId == id;
          assert failed[k].checkId == id;
        } else {
          assert failed[n].checkId == id;
        }
      }
    }
  }

  lemma {:induction false} IdsInOrder(failed: seq<CheckResult>)
    ensures forall p, q | 0 <= p < q < |Ids(failed)| :: FailsBefore(failed, Ids(failed)[p], Ids(failed)[q])
  {
    hide FailsBefore;
    if failed != [] {
      var n := |failed| - 1;
      var front, ids := failed[..n], Ids(failed);
      IdsInOrder(front);
      assert failed == front + [failed[n]];
      forall p, q | 0 <= p < q < |ids| ensures FailsBefore(failed, ids[p], ids[q]) {
        if q == |Ids(front)| {
          BeforeTheRest(front, ids[p], ids[q]);
        }
        BeforeGrows(front, failed[n], ids[p], ids[q]);
      }
    }
  }

  lemma {:induction false} OmittedKeepsOrder(ids: seq<string>, failures: Failures, covered: set<string>,
                                             failed: seq<CheckResult>)
    requires forall id | id in ids :: id in failures
    requires forall p, q | 0 <= p < q < |ids| :: FailsBefore(failed, ids[p], ids[q])
    ensures
      var omitted := Omitted(ids, failures, covered);
      forall i, j | 0 <= i < j < |omitted| :: FailsBefore(failed, omitted[i].checkId, omitted[j].checkId)
  {
    hide FailsBefore;
    if ids != [] {
      var n := |ids| - 1;
      OmittedKeepsOrder(ids[..n], failures, covered, failed);
      OmittedMeaning(ids[..n], failures, covered);
      var front, omitted := Omitted(ids[..n], failures, covered), Omitted(ids, failures, covered);
      forall i, j | 0 <= i < j < |omitted| ensures FailsBefore(failed, omitted[i].checkId, omitted[j].checkId) {
        if j == |front| {
          assert omitted[i] in front;
          var p: nat :| p < n && ids[p] == omitted[i].checkId;
        }
      }
    }
  }

  /** The omitted failures are listed in the order in which their checks first failed. */
  lemma OmittedInOrder(cat: Catalogs, report: Report, proposal: Proposal, resolve: Resolver, planId: string,
                       env: string)
    requires !Incomplete(report)
    ensures
      var items, n := Compile(cat, report, proposal, resolve, planId, env).items, |proposal.actions|;
      |items| == n + 1 ==>
        forall i, j | 0 <= i < j < |items[n].evidence| ::
          FailsBefore(FailedChecks(report), items[n].evidence[i].checkId, items[n].evidence[j].checkId)
  {
    hide CompileAction;
    hide FailuresOf;
    hide FailsBefore;
    var failures, failed := FailuresOf(report), FailedChecks(report);
    var items := CandidateItems(cat, proposal.actions, failures, resolve);
    var covered := CoveredBy(items, failures);
    CoverageOfReport(report);
    IdsInOrder(failed);
    OmittedKeepsOrder(Ids(failed), failures, covered, failed);
    hide CoveredBy;
    hide Ids;
    hide CandidateItems;
    hide FailedChecks;
    hide Incomplete;
    assert Compile(cat, report, proposal, resolve, planId, env).items
        == if Omitted(Ids(failed), failures, covered) == [] then items
           else items + [NonExecutable(OmittedFailures, Omitted(Ids(failed), failures, covered), OmittedCoverage)];
    hide Compile;
    hide Omitted;
  }

  lemma CoverageOfReport(report: Report)
    ensures forall id :: id in Ids(FailedChecks(report)) <==> id in FailuresOf(report)
  {
    IdsAreKeys(FailedChecks(report));
    assert forall id :: id in Ids(FailedChecks(report)) <==> id in Elements(Ids(FailedChecks(report)));
  }

  lemma CandidateEvidence(cat: Catalogs, actions: seq<CandidateAction>, i: nat, failures: Failures,
                          resolve: Resolver)
    requires i < |actions|
    ensures
      var item := CompileAction(cat, i, actions[i], Repeated(actions, i), failures, resolve);
      item.evidence == actions[i].evidence
      && (item.Executable? ==> forall e | e in item.evidence :: e.checkId in failures)
  {
    hide CompileAction;
    CandidateCompiles(cat, actions, i, failures, resolve);
  }

  /** What the items account for, among the failed checks, is what the candidates cite. */
  lemma {:induction false} CoverageMeaning(items: seq<PlanItem>, actions: seq<CandidateAction>, failures: Failures)
    requires |items| == |actions|
    requires forall i | 0 <= i < |items| :: items[i].evidence == actions[i].evidence
    requires forall i | 0 <= i < |items| ::
      items[i].Executable? ==> forall e | e in items[i].evidence :: e.checkId in failures
    ensures forall id | id in failures :: id in CoveredBy(items, failures) <==> CitedBy(actions, id)
  {
    if items != [] {
      var n := |items| - 1;
      CoverageMeaning(items[..n], actions[..n], failures);
      assert actions == actions[..n] + [actions[n]];
      forall id | id in failures
        ensures id in CoveredBy(items, failures) <==> CitedBy(actions, id)
      {
        assert CitedBy(actions, id) <==>
            CitedBy(actions[..n], id) || exists e :: e in actions[n].evidence && e.checkId == id;
      }
    }
  }

  /** Under an incomplete suite nothing is executable: every candidate that cites something is blocked for that reason,
      and the plan is blocked even when no candidate does. */
  lemma IncompleteBlocks(cat: Catalogs, report: Report, proposal: Proposal, resolve: Resolver, planId: string,
                         env: string)
    requires Incomplete(report)
    ensures
      var plan := Compile(cat, report, proposal, resolve, planId, env);
      && plan.blocked && SuiteIncomplete in plan.blockedReasons
      && (forall x | x in plan.items ::
            x.NonExecutable? && x.reason == SuiteIncomplete && x.itemId.Candidate?
            && x.itemId.index < |proposal.actions| && x.evidence == proposal.actions[x.itemId.index].evidence != [])
      && (forall i | 0 <= i < |proposal.actions| && proposal.actions[i].evidence != [] ::
            NonExecutable(Candidate(i), proposal.actions[i].evidence, SuiteIncomplete) in plan.items)
  {
    IncompleteMeaning(proposal.actions);
    hide IncompleteItems;
  }

  lemma {:induction false} IncompleteMeaning(actions: seq<CandidateAction>)
    ensures forall x | x in IncompleteItems(actions) ::
              x.NonExecutable? && x.reason == SuiteIncomplete && x.itemId.Candidate?
              && x.itemId.index < |actions| && x.evidence == actions[x.itemId.index].evidence != []
    ensures forall i | 0 <= i < |actions| && actions[i].evidence != [] ::
              NonExecutable(Candidate(i), actions[i].evidence, SuiteIncomplete) in IncompleteItems(actions)
  {
    if actions != [] {
      IncompleteMeaning(actions[..|actions| - 1]);
    }
  }

  function BlockedItems(items: seq<PlanItem>): seq<PlanItem> {
    Filter(items, (i: PlanItem) => i.NonExecutable?)
  }

  /** The reasons begin with those of the blocked items, in order. */
  predicate Gives(blocked: seq<PlanItem>, reasons: seq<Reason>) {
    && |blocked| <= |reasons|
    && forall k | 0 <= k < |blocked| :: blocked[k].NonExecutable? && reasons[k] == blocked[k].reason
  }

  /** A plan carries one reason per blocked item, in order, and one more for an incomplete suite; it is blocked exactly
      when there is any. Its identities are those it was compiled with. */
  lemma ReasonsExactly(cat: Catalogs, report: Report, proposal: Proposal, resolve: Resolver, planId: string,
                       env: string)
    ensures
      var plan := Compile(cat, report, proposal, resolve, planId, env);
      var blocked := BlockedItems(plan.items);
      && (plan.blocked <==> blocked != [] || Incomplete(report))
      && Gives(blocked, plan.blockedReasons)
      && plan.blockedReasons[|blocked|..] == (if Incomplete(report) then [SuiteIncomplete] else [])
      && plan.planId == planId && plan.environmentId == env && plan.qualityRunId == report.runId
      && plan.candidateFingerprint == CandidateDigest(proposal) && PlanIntact(plan)
  {
    ReasonsMeaning(CompiledItems(cat, report, proposal, resolve));
    hide CompiledItems;
    hide Reasons;
  }

  lemma {:induction false} ReasonsMeaning(items: seq<PlanItem>)
    ensures |Reasons(items)| == |BlockedItems(items)| && Gives(BlockedItems(items), Reasons(items))
  {
    if items != [] {
      var n := |items| - 1;
      assert items == items[..n] + [items[n]];
      ReasonsMeaning(items[..n]);
      FilterAppend(items[..n], [items[n]], (i: PlanItem) => i.NonExecutable?);
      assert BlockedItems(items) == BlockedItems(items[..n]) + (if items[n].NonExecutable? then [items[n]] else []);
    }
  }
}
