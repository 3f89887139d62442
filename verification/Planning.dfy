/** From an untrusted proposal to a controlled plan, and back: compilation (planning/compiler.py) and the
    independent re-derivation that every later seam performs (planning/integrity.py). */
module Planning {
  import opened Prelude
  import opened Contracts
  import opened Actions
  import opened CheckPolicies

  // ---------- fingerprints ----------

  function Summary(c: CheckResult): CheckSummary {
    CheckSummary(c.checkId, c.contractId, c.status, c.nFailed, c.nTotal)
  }

  /** `report_payload_fingerprint`: table names and samples are not part of it. */
  function ReportFingerprint(report: Report): Digest {
    ReportDigest(report.runId, Map(report.checks, (c: CheckResult) => Summary(c)))
  }

  function DumpItems(items: seq<PlanItem>): seq<PlanItem> {
    Map(items, (i: PlanItem) => DumpItem(i))
  }

  /** `plan_payload_fingerprint`: items enter through their JSON dump; blocked flags do not enter. */
  function PlanFingerprint(plan: Plan): Digest {
    PlanDigest(plan.planId, plan.qualityRunId, plan.candidateFingerprint, plan.policyFingerprint,
               plan.environmentId, DumpItems(plan.items))
  }

  predicate ReportIntact(report: Report) {
    !NoDigest(report.fingerprint) && report.fingerprint == Some(ReportFingerprint(report))
  }

  predicate PlanIntact(plan: Plan) {
    plan.fingerprint == PlanFingerprint(plan)
  }

  // ---------- policy snapshot ----------

  /** `_policy_fingerprint`: the dumped contracts and checks and the rule; None where a contract or the action
      is unknown. */
  function ItemPolicy(cat: Catalogs, specs: seq<CheckSpec>, action: ActionId): Option<Digest> {
    if !Governed(action) || exists s | s in specs :: GetTable(cat, s.table).None? then None
    else
      Some(ItemPolicyDigest(Map(specs, (s: CheckSpec) => ContractOf(cat, s)),
                            Map(specs, (s: CheckSpec) => DumpSpec(s)), action))
  }

  function ContractOf(cat: Catalogs, spec: CheckSpec): TableContract {
    match GetTable(cat, spec.table)
    case Some(contract) => contract
    case None => TableContract("", "", [], [], [])
  }

  function SpecsOf(cat: Catalogs, evidence: seq<Evidence>): Option<seq<CheckSpec>> {
    if exists e | e in evidence :: e.checkId !in cat.checks then None
    else
      assert forall i | 0 <= i < |evidence| :: evidence[i] in evidence;
      Some(seq(|evidence|, i requires 0 <= i < |evidence| && evidence[i].checkId in cat.checks =>
             cat.checks[evidence[i].checkId]))
  }

  /** The snapshot of one item under the given catalogs. */
  function CurrentItemPolicy(cat: Catalogs, item: PlanItem): Option<Digest>
    requires item.Executable?
  {
    match SpecsOf(cat, item.evidence)
    case None => None
    case Some(specs) => ItemPolicy(cat, specs, item.actionId)
  }

  function CurrentItemPolicies(cat: Catalogs, items: seq<PlanItem>): Option<seq<Digest>> {
    if items == [] then Some([])
    else
      var n := |items| - 1;
      match CurrentItemPolicies(cat, items[..n])
      case None => None
      case Some(parts) =>
        if !items[n].Executable? then Some(parts)
        else
          match CurrentItemPolicy(cat, items[n])
          case None => None
          case Some(part) => Some(parts + [part])
  }

  /** `current_policy_fingerprint`, None where it raises. */
  function CurrentPolicy(cat: Catalogs, plan: Plan): Option<Digest> {
    match CurrentItemPolicies(cat, plan.items)
    case None => None
    case Some(parts) => Some(ListDigest(parts))
  }

  method CurrentPolicyFingerprint(cat: Catalogs, plan: Plan) returns (r: Option<Digest>)
    ensures r == CurrentPolicy(cat, plan)
  {
    var parts: seq<Digest> := [];
    var i := 0;
    while i < |plan.items|
      invariant 0 <= i <= |plan.items|
      invariant CurrentItemPolicies(cat, plan.items[..i]) == Some(parts)
    {
      assert plan.items[..i + 1][..i] == plan.items[..i];
      if plan.items[i].Executable? {
        var part := CurrentItemPolicy(cat, plan.items[i]);
        if part.None? {
          UnknownPrefix(cat, plan.items, i);
          return None;
        }
        parts := parts + [part.value];
      }
      i := i + 1;
    }
    assert plan.items[..i] == plan.items;
    return Some(ListDigest(parts));
  }

  lemma {:induction false} UnknownPrefix(cat: Catalogs, items: seq<PlanItem>, n: nat)
    requires n < |items| && items[n].Executable? && CurrentItemPolicy(cat, items[n]).None?
    ensures CurrentItemPolicies(cat, items).None?
    decreases |items|
  {
    if n < |items| - 1 {
      UnknownPrefix(cat, items[..|items| - 1], n);
    }
  }

  // ---------- compilation ----------

  /** `candidate_action_identity`: sorted pairs are equal exactly when they are the same multiset. */
  datatype Identity = Identity(actionId: ActionId, evidence: multiset<Evidence>)

  function IdentityOf(actionId: ActionId, evidence: seq<Evidence>): Identity {
    Identity(actionId, multiset(evidence))
  }

  /** Requested more than once. */
  predicate Repeated(actions: seq<CandidateAction>, i: nat)
    requires i < |actions|
  {
    exists j | 0 <= j < |actions| :: j != i
      && IdentityOf(actions[j].actionId, actions[j].evidence) == IdentityOf(actions[i].actionId, actions[i].evidence)
  }

  /** The target lookup of one compilation: the answer for the candidate at an index, None where it fails. */
  type Resolver = (nat, ActionId, string, Params) -> Option<TargetSet>

  function CompileJustified(cat: Catalogs, index: nat, requested: CandidateAction, j: Justification, resolve: Resolver)
    : PlanItem
    requires j.specs != []
  {
    var id := Candidate(index);
    var table := j.specs[0].table;
    if exists s | s in j.specs :: s.table != table then NonExecutable(id, requested.evidence, Unavailable)
    else
      match resolve(index, requested.actionId, table, j.params)
      case None => NonExecutable(id, requested.evidence, TargetsUnresolved)
      case Some(targets) =>
        match ItemPolicy(cat, j.specs, requested.actionId)
        case None => NonExecutable(id, requested.evidence, Unavailable)
        case Some(policy) =>
          Executable(id, requested.actionId, table, Freeze(j.params), requested.evidence, targets, policy)
  }

  /** The plan item of one candidate action. */
  function CompileAction(cat: Catalogs, index: nat, requested: CandidateAction, repeated: bool,
                         failures: Failures, resolve: Resolver): PlanItem {
    if repeated then NonExecutable(Candidate(index), requested.evidence, DuplicateCandidate)
    else
      match Justify(cat, requested.actionId, requested.evidence, failures)
      case Err(reason) => NonExecutable(Candidate(index), requested.evidence, reason)
      case Ok(j) =>
        JustifiedSpecs(cat, requested.actionId, requested.evidence, failures);
        CompileJustified(cat, index, requested, j, resolve)
  }

  function CheckIds(evidence: seq<Evidence>): set<string> {
    set e | e in evidence :: e.checkId
  }

  /** The failed checks one item accounts for: all it cites, or of a blocked one those that failed. */
  function Covers(item: PlanItem, failures: Failures): set<string> {
    if item.Executable? then CheckIds(item.evidence)
    else set e | e in item.evidence && e.checkId in failures :: e.checkId
  }

  function CoveredBy(items: seq<PlanItem>, failures: Failures): set<string> {
    if items == [] then {}
    else CoveredBy(items[..|items| - 1], failures) + Covers(items[|items| - 1], failures)
  }

  function CandidateItems(cat: Catalogs, actions: seq<CandidateAction>, failures: Failures, resolve: Resolver)
    : seq<PlanItem>
  {
    seq(|actions|, i requires 0 <= i < |actions| =>
      CompileAction(cat, i, actions[i], Repeated(actions, i), failures, resolve))
  }

  /** Under an incomplete suite every candidate that cites something is blocked. */
  function IncompleteItems(actions: seq<CandidateAction>): seq<PlanItem> {
    if actions == [] then []
    else
      var n := |actions| - 1;
      IncompleteItems(actions[..n])
        + (if actions[n].evidence == [] then []
           else [NonExecutable(Candidate(n), actions[n].evidence, SuiteIncomplete)])
  }

  function Omitted(ids: seq<string>, failures: Failures, covered: set<string>): seq<Evidence>
    requires forall id | id in ids :: id in failures
  {
    if ids == [] then []
    else
      var n := |ids| - 1;
      Omitted(ids[..n], failures, covered)
        + (if ids[n] in covered then [] else [Evidence(ids[n], failures[ids[n]].contractId)])
  }

  lemma {:induction false} OmittedMeaning(ids: seq<string>, failures: Failures, covered: set<string>)
    requires forall id | id in ids :: id in failures
    ensures Omitted(ids, failures, covered) == [] <==> forall id | id in ids :: id in covered
    ensures forall e | e in Omitted(ids, failures, covered) ::
              e.checkId in ids && e.checkId !in covered && e.contractId == failures[e.checkId].contractId
    ensures forall id | id in ids && id !in covered ::
              Evidence(id, failures[id].contractId) in Omitted(ids, failures, covered)
  {
    if ids != [] {
      OmittedMeaning(ids[..|ids| - 1], failures, covered);
    }
  }

  /** Every item of the plan, the omitted coverage included. */
  function CompiledItems(cat: Catalogs, report: Report, proposal: Proposal, resolve: Resolver): seq<PlanItem> {
    var failures := FailuresOf(report);
    if Incomplete(report) then IncompleteItems(proposal.actions)
    else
      var items := CandidateItems(cat, proposal.actions, failures, resolve);
      IdsAreKeys(FailedChecks(report));
      var omitted := Omitted(Ids(FailedChecks(report)), failures, CoveredBy(items, failures));
      if omitted == [] then items else items + [NonExecutable(OmittedFailures, omitted, OmittedCoverage)]
  }

  function Reasons(items: seq<PlanItem>): seq<Reason> {
    if items == [] then []
    else
      var last := items[|items| - 1];
      Reasons(items[..|items| - 1]) + (if last.NonExecutable? then [last.reason] else [])
  }

  function ItemPolicies(items: seq<PlanItem>): seq<Digest> {
    if items == [] then []
    else
      var last := items[|items| - 1];
      ItemPolicies(items[..|items| - 1]) + (if last.Executable? then [last.policyFingerprint] else [])
  }

  /** The plan that carries the given items. */
  function PlanOf(items: seq<PlanItem>, incomplete: bool, runId: string, candidate: Digest, planId: string,
                  environment: string): (plan: Plan)
    ensures PlanIntact(plan)
  {
    var reasons := Reasons(items) + (if incomplete then [SuiteIncomplete] else []);
    var draft := Plan(planId, runId, candidate, ListDigest(ItemPolicies(items)), items, reasons != [], reasons,
                      environment, Raw(""));
    draft.(fingerprint := PlanFingerprint(draft))
  }

  /** `compile_remediation_plan`. */
  function Compile(cat: Catalogs, report: Report, proposal: Proposal, resolve: Resolver, planId: string,
                   environment: string): Plan {
    PlanOf(CompiledItems(cat, report, proposal, resolve), Incomplete(report), report.runId,
           CandidateDigest(proposal), planId, environment)
  }

  /** The compiler as it runs: one pass over the candidates, appending items and accumulating coverage. */
  method CompileRemediationPlan(cat: Catalogs, report: Report, proposal: Proposal, resolve: Resolver,
                                planId: string, environment: string) returns (plan: Plan)
    ensures plan == Compile(cat, report, proposal, resolve, planId, environment)
  {
    hide CompileAction;
    var failures := FailuresOf(report);
    var actions := proposal.actions;
    var items: seq<PlanItem> := [];
    var covered: set<string> := {};
    var i := 0;
    if Incomplete(report) {
      while i < |actions|
        invariant 0 <= i <= |actions|
        invariant items == IncompleteItems(actions[..i])
      {
        assert actions[..i + 1][..i] == actions[..i];
        if actions[i].evidence != [] {
          items := items + [NonExecutable(Candidate(i), actions[i].evidence, SuiteIncomplete)];
        }
        i := i + 1;
      }
      assert actions[..i] == actions;
    } else {
      while i < |actions|
        invariant 0 <= i <= |actions|
        invariant items == CandidateItems(cat, actions, failures, resolve)[..i]
        invariant covered == CoveredBy(items, failures)
      {
        var item := CompileAction(cat, i, actions[i], Repeated(actions, i), failures, resolve);
        assert (items + [item])[..i] == items;
        items := items + [item];
        covered := covered + Covers(item, failures);
        i := i + 1;
      }
      assert items == CandidateItems(cat, actions, failures, resolve);
    }
    IdsAreKeys(FailedChecks(report));
    var omitted := Omitted(Ids(FailedChecks(report)), failures, covered);
    if omitted != [] && !Incomplete(report) {
      items := items + [NonExecutable(OmittedFailures, omitted, OmittedCoverage)];
    }
    plan := PlanOf(items, Incomplete(report), report.runId, CandidateDigest(proposal), planId, environment);
  }

  // ---------- re-derivation ----------

  /** What re-derivation demands of one executable item. */
  ghost predicate ItemJustified(cat: Catalogs, item: PlanItem, failures: Failures) {
    && item.Executable?
    && item.evidence != []
    && Governed(item.actionId)
    && item.evidence[0].checkId in cat.checks
    && forall e | e in item.evidence ::
         && e.checkId in cat.checks && e.checkId in failures
         && failures[e.checkId].contractId == e.contractId
         && cat.checks[e.checkId].contractId == e.contractId
         && cat.checks[e.checkId].table == item.table
         && failures[e.checkId].table == item.table
         && DeriveParams(cat, item.actionId, cat.checks[e.checkId]).Some?
         && Freeze(DeriveParams(cat, item.actionId, cat.checks[e.checkId]).value) == item.params
         && DeriveParams(cat, item.actionId, cat.checks[e.checkId])
            == DeriveParams(cat, item.actionId, cat.checks[item.evidence[0].checkId])
  }

  function ItemIdentity(item: PlanItem): Identity
    requires item.Executable?
  {
    IdentityOf(item.actionId, item.evidence)
  }

  /** What `verify_executable_params` accepts. */
  ghost predicate PlanJustified(cat: Catalogs, plan: Plan, report: Report) {
    var failures := FailuresOf(report);
    && report.runId == plan.qualityRunId
    && (forall i | i in plan.items && i.Executable? :: ItemJustified(cat, i, failures))
    && IdentitiesDistinct(plan.items)
    && (!plan.blocked ==> Cited(plan.items) == failures.Keys)
  }

  /** The checks the executable items cite. */
  function Cited(items: seq<PlanItem>): set<string> {
    set i, e | i in items && i.Executable? && e in i.evidence :: e.checkId
  }

  lemma FirstInEvidence(cat: Catalogs, item: PlanItem, failures: Failures)
    requires ItemJustified(cat, item, failures)
    ensures Justify(cat, item.actionId, item.evidence, failures).Ok?
    ensures Freeze(Justify(cat, item.actionId, item.evidence, failures).value.params) == item.params
  {
    hide DeriveParams;
    assert item.evidence[0] in item.evidence;
    var params := DeriveParams(cat, item.actionId, cat.checks[item.evidence[0].checkId]).value;
    assert Justified(cat, item.actionId, item.evidence, failures, params);
    JustifyMeaning(cat, item.actionId, item.evidence, failures, params);
  }

  /** The checks on one item after its justification, as the loop makes them. */
  predicate MatchesPolicy(item: PlanItem, j: Justification, failures: Failures)
    requires item.Executable? && |j.specs| == |item.evidence|
    requires forall e | e in item.evidence :: e.checkId in failures
  {
    && (forall k | 0 <= k < |item.evidence| ::
          && j.specs[k].table == item.table
          && j.specs[k].contractId == item.evidence[k].contractId
          && failures[item.evidence[k].checkId].table == item.table)
    && Freeze(j.params) == item.params
  }

  lemma MatchMeaning(cat: Catalogs, item: PlanItem, failures: Failures)
    requires item.Executable? && Justify(cat, item.actionId, item.evidence, failures).Ok?
    requires |Justify(cat, item.actionId, item.evidence, failures).value.specs| == |item.evidence|
    requires forall e | e in item.evidence :: e.checkId in failures
    ensures MatchesPolicy(item, Justify(cat, item.actionId, item.evidence, failures).value, failures)
       <==> ItemJustified(cat, item, failures)
  {
    hide DeriveParams;
    var j := Justify(cat, item.actionId, item.evidence, failures).value;
    JustifiedSpecs(cat, item.actionId, item.evidence, failures);
    JustifyMeaning(cat, item.actionId, item.evidence, failures, j.params);
    assert item.evidence[0] in item.evidence;
    if ItemJustified(cat, item, failures) {
      forall k | 0 <= k < |item.evidence|
        ensures j.specs[k].table == item.table && j.specs[k].contractId == item.evidence[k].contractId
        ensures failures[item.evidence[k].checkId].table == item.table
      {
        assert item.evidence[k] in item.evidence;
      }
    }
  }

  /** The body of the loop for one executable item: justify it again and compare. */
  method VerifyItem(cat: Catalogs, item: PlanItem, failures: Failures) returns (ok: bool)
    requires item.Executable?
    ensures ok <==> ItemJustified(cat, item, failures)
  {
    var r := JustifyAction(cat, item.actionId, item.evidence, failures);
    if r.Err? {
      if ItemJustified(cat, item, failures) {
        FirstInEvidence(cat, item, failures);
      }
      return false;
    }
    JustifiedSpecs(cat, item.actionId, item.evidence, failures);
    MatchMeaning(cat, item, failures);
    ok := MatchesPolicy(item, r.value, failures);
  }

  ghost predicate IdentitiesDistinct(items: seq<PlanItem>) {
    forall i, j | 0 <= i < j < |items| && items[i].Executable? && items[j].Executable? ::
      ItemIdentity(items[i]) != ItemIdentity(items[j])
  }

  function Identities(items: seq<PlanItem>): set<Identity> {
    set i | i in items && i.Executable? :: ItemIdentity(i)
  }

  /** `verify_executable_params`: the loop over the plan, refusing at the first item that fails. */
  method VerifyExecutableParams(cat: Catalogs, plan: Plan, report: Report) returns (ok: bool)
    ensures ok <==> PlanJustified(cat, plan, report)
  {
    hide ItemJustified;
    if report.runId != plan.qualityRunId {
      return false;
    }
    var failures := FailuresOf(report);
    var covered: set<string> := {};
    var seen: set<Identity> := {};
    var i := 0;
    while i < |plan.items|
      invariant 0 <= i <= |plan.items|
      invariant forall item | item in plan.items[..i] && item.Executable? :: ItemJustified(cat, item, failures)
      invariant IdentitiesDistinct(plan.items[..i])
      invariant seen == Identities(plan.items[..i])
      invariant covered == Cited(plan.items[..i])
    {
      var item := plan.items[i];
      assert plan.items[..i + 1] == plan.items[..i] + [item];
      if item.Executable? {
        if ItemIdentity(item) in seen {
          RepeatedIdentity(plan.items, i);
          return false;
        }
        var justified := VerifyItem(cat, item, failures);
        if !justified {
          return false;
        }
        seen := seen + {ItemIdentity(item)};
        covered := covered + CheckIds(item.evidence);
      }
      i := i + 1;
    }
    assert plan.items[..i] == plan.items;
    ok := plan.blocked || covered == failures.Keys;
  }

  lemma RepeatedIdentity(items: seq<PlanItem>, n: nat)
    requires n < |items| && items[n].Executable? && ItemIdentity(items[n]) in Identities(items[..n])
    ensures !IdentitiesDistinct(items)
  {
    var earlier :| earlier in items[..n] && earlier.Executable? && ItemIdentity(earlier) == ItemIdentity(items[n]);
    var k :| 0 <= k < n && items[k] == earlier;
    assert ItemIdentity(items[k]) == ItemIdentity(items[n]);
  }
}
