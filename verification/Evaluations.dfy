/** The deterministic gates around compilation: candidate and plan evaluation (evals/harness.py) and the
    rebuilt proposal that crosses between Airflow tasks (agent/sanitize.py). */
module Evaluations {
  import opened Prelude
  import opened SqlText
  import opened Contracts
  import opened Actions
  import opened CheckPolicies
  import opened Planning
  import opened Agreement

  // ---------- candidate evaluation ----------

  /** The settings' thresholds, each between 0 and 1. */
  datatype Thresholds = Thresholds(citation: real, groundedness: real)

  predicate ThresholdsValid(t: Thresholds) {
    0.0 <= t.citation <= 1.0 && 0.0 <= t.groundedness <= 1.0
  }

  function AllEvidence(actions: seq<CandidateAction>): seq<Evidence> {
    if actions == [] then [] else actions[0].evidence + AllEvidence(actions[1..])
  }

  lemma {:induction false} AllEvidenceMeaning(actions: seq<CandidateAction>)
    ensures forall e :: e in AllEvidence(actions) <==> exists a | a in actions :: e in a.evidence
  {
    if actions != [] {
      AllEvidenceMeaning(actions[1..]);
      assert actions == [actions[0]] + actions[1..];
    }
  }

  /** `_evidence_score`. */
  function CitationScore(report: Report, proposal: Proposal): real {
    var failures := FailuresOf(report);
    var evidence := AllEvidence(proposal.actions);
    if failures == map[] then (if proposal.actions == [] then 1.0 else 0.0)
    else if exists e | e in evidence :: e.checkId !in failures || failures[e.checkId].contractId != e.contractId
    then 0.0
    else |CheckIds(evidence) * failures.Keys| as real / |failures.Keys| as real
  }

  /** The governed identifiers are slugs; no character of any other text may be white space. */
  predicate Slug(a: ActionId) {
    a.Ungoverned? ==> a.name != "" && forall c | c in a.name :: !Space(c)
  }

  function Upper(s: string): string {
    Map(s, (c: char) => if 'a' <= c <= 'z' then c - 32 as char else c)
  }

  const DESTRUCTIVE_TOKENS := ["DROP", "TRUNCATE", "ALTER", "DELETE"]

  /** No governed identifier contains a destructive token. */
  predicate Destructive(a: ActionId) {
    a.Ungoverned? && exists t | t in DESTRUCTIVE_TOKENS :: Contains(Upper(a.name), t)
  }

  predicate Grounded(report: Report, proposal: Proposal) {
    && (FailedChecks(report) == [] ==> proposal.actions == [])
    && forall a | a in proposal.actions :: a.evidence != [] && Slug(a.actionId)
  }

  /** The failed checks covered by the justified candidates. */
  function JustifiedCoverage(cat: Catalogs, actions: seq<CandidateAction>, failures: Failures): set<string> {
    set a, e | a in actions && e in a.evidence && Justify(cat, a.actionId, a.evidence, failures).Ok? :: e.checkId
  }

  /** `_check_policy_score` passes. */
  predicate PolicyPasses(cat: Catalogs, report: Report, proposal: Proposal) {
    var failures := FailuresOf(report);
    && (forall a | a in proposal.actions :: Justify(cat, a.actionId, a.evidence, failures).Ok?)
    && failures.Keys <= JustifiedCoverage(cat, proposal.actions, failures)
  }

  /** `_check_policy_score`: the loop that collects refused identifiers and covered checks. */
  method CheckPolicyGate(cat: Catalogs, report: Report, proposal: Proposal) returns (passed: bool)
    ensures passed <==> PolicyPasses(cat, report, proposal)
  {
    hide Justify;
    var failures := FailuresOf(report);
    var illegal: seq<ActionId> := [];
    var covered: set<string> := {};
    var actions := proposal.actions;
    var i := 0;
    while i < |actions|
      invariant 0 <= i <= |actions|
      invariant illegal == [] <==> forall a | a in actions[..i] :: Justify(cat, a.actionId, a.evidence, failures).Ok?
      invariant covered == JustifiedCoverage(cat, actions[..i], failures)
    {
      var r := JustifyAction(cat, actions[i].actionId, actions[i].evidence, failures);
      assert actions[..i + 1] == actions[..i] + [actions[i]];
      if r.Err? {
        illegal := illegal + [actions[i].actionId];
      } else {
        covered := covered + CheckIds(actions[i].evidence);
      }
      i := i + 1;
    }
    assert actions[..i] == actions;
    passed := illegal == [] && failures.Keys - covered == {};
    assert failures.Keys - covered == {} ==> forall id | id in failures :: id in covered by {
      if failures.Keys - covered == {} {
        forall id | id in failures ensures id in covered {
          assert id !in failures.Keys - covered;
        }
      }
    }
  }

  /** `evaluate_proposal` of a parsed candidate: the scores in order. */
  function ProposalScores(cat: Catalogs, report: Report, proposal: Proposal, t: Thresholds): seq<Score> {
    [Score(SchemaValidity, true),
     Score(CitationQuality, CitationScore(report, proposal) >= t.citation),
     Score(Groundedness, (if Grounded(report, proposal) then 1.0 else 0.0) >= t.groundedness),
     Score(DestructiveRisk, forall a | a in proposal.actions :: !Destructive(a.actionId)),
     Score(AllowlistCompliance, forall a | a in proposal.actions :: Governed(a.actionId)),
     Score(CheckPolicyScore, PolicyPasses(cat, report, proposal))]
    + (if Incomplete(report) then [Score(SuiteCompleteness, false)] else [])
  }

  predicate ProposalPasses(cat: Catalogs, report: Report, proposal: Proposal, t: Thresholds) {
    forall s | s in ProposalScores(cat, report, proposal, t) :: s.passed
  }

  /** Evidence of justified actions names failed checks under their own contracts. */
  lemma EvidenceIsSound(cat: Catalogs, actions: seq<CandidateAction>, failures: Failures)
    requires forall a | a in actions :: Justify(cat, a.actionId, a.evidence, failures).Ok?
    ensures forall e | e in AllEvidence(actions) ::
              e.checkId in failures && failures[e.checkId].contractId == e.contractId
  {
    hide Justify;
    AllEvidenceMeaning(actions);
    forall e | e in AllEvidence(actions)
      ensures e.checkId in failures && failures[e.checkId].contractId == e.contractId
    {
      var a :| a in actions && e in a.evidence;
      JustifiedSpecs(cat, a.actionId, a.evidence, failures);
      var k :| 0 <= k < |a.evidence| && a.evidence[k] == e;
    }
  }

  lemma CoverageIsCitedBy(cat: Catalogs, actions: seq<CandidateAction>, failures: Failures)
    ensures JustifiedCoverage(cat, actions, failures) <= CheckIds(AllEvidence(actions))
  {
    hide Justify;
    AllEvidenceMeaning(actions);
  }

  lemma FullCitation(cat: Catalogs, report: Report, proposal: Proposal)
    requires PolicyPasses(cat, report, proposal)
    requires proposal.actions != [] ==> FailuresOf(report) != map[]
    ensures CitationScore(report, proposal) == 1.0
  {
    hide Justify;
    hide FailuresOf;
    hide AllEvidence;
    hide CheckIds;
    hide JustifiedCoverage;
    var failures := FailuresOf(report);
    EvidenceIsSound(cat, proposal.actions, failures);
    CoverageIsCitedBy(cat, proposal.actions, failures);
    if failures != map[] {
      WholeRatio(CheckIds(AllEvidence(proposal.actions)), failures.Keys);
    }
  }

  lemma WholeRatio(cited: set<string>, failed: set<string>)
    requires failed <= cited && failed != {}
    ensures |cited * failed| as real / |failed| as real == 1.0
  {
    assert cited * failed == failed;
    assert |failed| > 0;
    var n := |failed| as real;
    assert n / n == 1.0;
  }

  /** The six gates of candidate evaluation come down to one: a parsed proposal passes exactly when the
      suite is complete, every action is justified and every failed check is covered. */
  lemma ProposalGateIsPolicy(cat: Catalogs, report: Report, proposal: Proposal, t: Thresholds)
    requires Parsed(proposal) && ThresholdsValid(t)
    ensures ProposalPasses(cat, report, proposal, t)
       <==> !Incomplete(report) && PolicyPasses(cat, report, proposal)
  {
    hide Justify;
    hide CitationScore;
    var scores := ProposalScores(cat, report, proposal, t);
    var failures := FailuresOf(report);
    assert Incomplete(report) ==> Score(SuiteCompleteness, false) in scores;
    if PolicyPasses(cat, report, proposal) && !Incomplete(report) {
      forall a | a in proposal.actions
        ensures Governed(a.actionId) && Slug(a.actionId) && !Destructive(a.actionId)
        ensures failures != map[] && FailedChecks(report) != []
      {
        AcceptedIsJustified(cat, a.actionId, a.evidence, failures);
        assert a.evidence[0] in a.evidence;
      }
      if proposal.actions != [] {
        assert proposal.actions[0] in proposal.actions;
      }
      FullCitation(cat, report, proposal);
      assert Grounded(report, proposal);
      assert |scores| == 6 && scores[1].passed && scores[2].passed && scores[3].passed && scores[4].passed;
    }
    if ProposalPasses(cat, report, proposal, t) {
      assert scores[5] in scores;
    }
  }

  // ---------- what a passing candidate compiles to ----------

  /** The cited checks are declared on more than one table. */
  predicate SpansTables(cat: Catalogs, action: CandidateAction) {
    exists e, f | e in action.evidence && f in action.evidence ::
      e.checkId in cat.checks && f.checkId in cat.checks
      && cat.checks[e.checkId].table != cat.checks[f.checkId].table
  }

  /** The target lookup of a justified candidate. */
  function Lookup(cat: Catalogs, index: nat, action: CandidateAction, failures: Failures, resolve: Resolver)
    : Option<TargetSet>
    requires Justify(cat, action.actionId, action.evidence, failures).Ok?
  {
    var j := Justify(cat, action.actionId, action.evidence, failures).value;
    JustifiedSpecs(cat, action.actionId, action.evidence, failures);
    resolve(index, action.actionId, j.specs[0].table, j.params)
  }

  /** A justified candidate is blocked only as a duplicate, for spanning tables, or for unresolved targets. */
  lemma JustifiedCompiles(cat: Catalogs, index: nat, requested: CandidateAction, repeated: bool,
                          failures: Failures, resolve: Resolver)
    requires Justify(cat, requested.actionId, requested.evidence, failures).Ok?
    ensures
      var item := CompileAction(cat, index, requested, repeated, failures, resolve);
      item == if repeated then NonExecutable(Candidate(index), requested.evidence, DuplicateCandidate)
              else if SpansTables(cat, requested) then NonExecutable(Candidate(index), requested.evidence, Unavailable)
              else if Lookup(cat, index, requested, failures, resolve).None?
              then NonExecutable(Candidate(index), requested.evidence, TargetsUnresolved)
              else item
    ensures
      !repeated && !SpansTables(cat, requested) && Lookup(cat, index, requested, failures, resolve).Some?
      ==> CompileAction(cat, index, requested, repeated, failures, resolve).Executable?
  {
    var j := Justify(cat, requested.actionId, requested.evidence, failures).value;
    SpanMeaning(cat, requested, failures);
    ContractsKnown(cat, requested, failures);
    hide Justify;
  }

  lemma SpanMeaning(cat: Catalogs, requested: CandidateAction, failures: Failures)
    requires Justify(cat, requested.actionId, requested.evidence, failures).Ok?
    ensures var specs := Justify(cat, requested.actionId, requested.evidence, failures).value.specs;
      specs != [] && (SpansTables(cat, requested) <==> exists s | s in specs :: s.table != specs[0].table)
  {
    hide Justify;
    hide SpansTables;
    JustifiedSpecs(cat, requested.actionId, requested.evidence, failures);
    SpanOf(cat, requested, Justify(cat, requested.actionId, requested.evidence, failures).value.specs);
  }

  lemma SpanOf(cat: Catalogs, requested: CandidateAction, specs: seq<CheckSpec>)
    requires |specs| == |requested.evidence| > 0
    requires forall i | 0 <= i < |specs| ::
      requested.evidence[i].checkId in cat.checks && specs[i] == cat.checks[requested.evidence[i].checkId]
    ensures SpansTables(cat, requested) <==> exists s | s in specs :: s.table != specs[0].table
  {
    var evidence := requested.evidence;
    if SpansTables(cat, requested) {
      var e, f :| e in evidence && f in evidence && e.checkId in cat.checks && f.checkId in cat.checks
        && cat.checks[e.checkId].table != cat.checks[f.checkId].table;
      var i: nat :| i < |evidence| && evidence[i] == e;
      var k: nat :| k < |evidence| && evidence[k] == f;
      assert specs[i] in specs && specs[k] in specs;
    }
    if s :| s in specs && s.table != specs[0].table {
      var k: nat :| k < |specs| && specs[k] == s;
      assert evidence[k] in evidence && evidence[0] in evidence;
    }
  }

  lemma ContractsKnown(cat: Catalogs, requested: CandidateAction, failures: Failures)
    requires Justify(cat, requested.actionId, requested.evidence, failures).Ok?
    ensures
      var specs := Justify(cat, requested.actionId, requested.evidence, failures).value.specs;
      ItemPolicy(cat, specs, requested.actionId).Some?
  {
    hide Justify;
    hide DeriveParams;
    AcceptedIsJustified(cat, requested.actionId, requested.evidence, failures);
    JustifiedSpecs(cat, requested.actionId, requested.evidence, failures);
    var specs := Justify(cat, requested.actionId, requested.evidence, failures).value.specs;
    forall s | s in specs ensures GetTable(cat, s.table).Some? {
      var k :| 0 <= k < |specs| && specs[k] == s;
      assert requested.evidence[k] in requested.evidence;
    }
  }

  /** The three reasons a justified candidate can still be blocked for. */
  predicate Blocked(cat: Catalogs, actions: seq<CandidateAction>, i: nat, failures: Failures, resolve: Resolver)
    requires i < |actions| && Justify(cat, actions[i].actionId, actions[i].evidence, failures).Ok?
  {
    Repeated(actions, i) || SpansTables(cat, actions[i]) || Lookup(cat, i, actions[i], failures, resolve).None?
  }

  /** Evaluation predicts compilation: a candidate that passes compiles without an omitted-coverage item or
      a policy refusal, one item per action, and the plan is blocked exactly when some action is a
      duplicate, spans tables or has unresolved targets. */
  lemma EvaluationPredictsCompilation(cat: Catalogs, report: Report, proposal: Proposal, t: Thresholds,
                                      resolve: Resolver, planId: string, env: string)
    requires Parsed(proposal) && ThresholdsValid(t) && ProposalPasses(cat, report, proposal, t)
    ensures
      var plan := Compile(cat, report, proposal, resolve, planId, env);
      var failures := FailuresOf(report);
      && plan.items == CandidateItems(cat, proposal.actions, failures, resolve)
      && (forall i | i in plan.items && i.NonExecutable? :: i.reason in {DuplicateCandidate, Unavailable,
                                                                         TargetsUnresolved})
      && (forall i | 0 <= i < |proposal.actions| ::
            Justify(cat, proposal.actions[i].actionId, proposal.actions[i].evidence, failures).Ok?)
      && (plan.blocked <==>
            exists i | 0 <= i < |proposal.actions| :: Blocked(cat, proposal.actions, i, failures, resolve))
  {
    hide Justify;
    hide CompileAction;
    hide ProposalPasses;
    ProposalGateIsPolicy(cat, report, proposal, t);
    var failures := FailuresOf(report);
    var actions := proposal.actions;
    var items := CandidateItems(cat, actions, failures, resolve);
    forall i | 0 <= i < |actions|
      ensures Justify(cat, actions[i].actionId, actions[i].evidence, failures).Ok?
      ensures items[i].Executable? <==> !Blocked(cat, actions, i, failures, resolve)
      ensures items[i].evidence == actions[i].evidence
      ensures items[i].NonExecutable? ==> items[i].reason in {DuplicateCandidate, Unavailable, TargetsUnresolved}
    {
      assert actions[i] in actions;
      JustifiedCompiles(cat, i, actions[i], Repeated(actions, i), failures, resolve);
      if items[i].Executable? {
        CompiledFrom(cat, i, actions[i], Repeated(actions, i), failures, resolve);
      }
    }
    CoveredEvidence(items, actions, failures);
    IdsAreKeys(FailedChecks(report));
    OmittedMeaning(Ids(FailedChecks(report)), failures, CoveredBy(items, failures));
    NoReasons(items);
    assert Compile(cat, report, proposal, resolve, planId, env).items == items;
    if AllExecutable(items) {
      forall i | 0 <= i < |actions| ensures !Blocked(cat, actions, i, failures, resolve) {
        assert items[i] in items;
      }
    }
  }

  /** When every item cites its candidate's evidence, the items cover every failed check that is cited. */
  lemma {:induction false} CoveredEvidence(items: seq<PlanItem>, actions: seq<CandidateAction>, failures: Failures)
    requires |items| == |actions|
    requires forall i | 0 <= i < |items| :: items[i].evidence == actions[i].evidence
    ensures forall a, e | a in actions && e in a.evidence && e.checkId in failures ::
              e.checkId in CoveredBy(items, failures)
  {
    if items != [] {
      var n := |items| - 1;
      CoveredEvidence(items[..n], actions[..n], failures);
      assert actions == actions[..n] + [actions[n]];
    }
  }

  // ---------- the proposal that crosses between Airflow tasks ----------

  /** Controlled text; only the number of requests appears in it. */
  const SAFE_RATIONALE := "Requested for the cited Quality Evidence."

  function Digits(n: nat): string {
    (if n < 10 then "" else Digits(n / 10)) + ["0123456789"[n % 10]]
  }

  /** Reads a decimal number. */
  function ReadDigits(s: string): int {
    if s == [] then 0 else 10 * ReadDigits(s[..|s| - 1]) + (s[|s| - 1] as int - '0' as int)
  }

  lemma {:induction false} DigitsRead(n: nat)
    ensures ReadDigits(Digits(n)) == n && forall c | c in Digits(n) :: '0' <= c <= '9'
  {
    var front := if n < 10 then "" else Digits(n / 10);
    var last := "0123456789"[n % 10];
    if n >= 10 {
      DigitsRead(n / 10);
    }
    assert Digits(n) == front + [last];
    LastDigit(n % 10);
    ReadAfter(front, last);
  }

  lemma LastDigit(k: nat)
    requires k < 10
    ensures "0123456789"[k] as int == '0' as int + k
  {
    assert k in {0, 1, 2, 3, 4, 5, 6, 7, 8, 9};
  }

  lemma ReadAfter(s: string, c: char)
    ensures ReadDigits(s + [c]) == 10 * ReadDigits(s) + (c as int - '0' as int)
  {
    assert (s + [c])[..|s + [c]| - 1] == s;
  }

  function SafeNarrative(n: nat): string {
    "Candidate Proposal contains " + Digits(n) + " governed action request(s)."
  }

  function SafeAction(cat: Catalogs, a: CandidateAction, failures: Failures): Option<CandidateAction> {
    match Justify(cat, a.actionId, a.evidence, failures)
    case Err(_) => None
    case Ok(j) =>
      if exists s | s in j.specs :: s.checkId !in failures then None
      else
        assert forall i | 0 <= i < |j.specs| :: j.specs[i] in j.specs;
        Some(CandidateAction(a.actionId,
          seq(|j.specs|, i requires 0 <= i < |j.specs| && j.specs[i].checkId in failures =>
            Evidence(j.specs[i].checkId, failures[j.specs[i].checkId].contractId)),
          SAFE_RATIONALE))
  }

  function SafeActions(cat: Catalogs, actions: seq<CandidateAction>, failures: Failures): Option<seq<CandidateAction>> {
    if actions == [] then Some([])
    else
      var n := |actions| - 1;
      match SafeActions(cat, actions[..n], failures)
      case None => None
      case Some(safe) =>
        match SafeAction(cat, actions[n], failures)
        case None => None
        case Some(action) => Some(safe + [action])
  }

  /** `safe_proposal_for_xcom`: the rebuilt proposal under a fresh id, None where it refuses. */
  function SafeProposal(cat: Catalogs, report: Report, proposal: Proposal, freshId: string): Option<Proposal> {
    match SafeActions(cat, proposal.actions, FailuresOf(report))
    case None => None
    case Some(actions) => Some(Proposal(freshId, SafeNarrative(|actions|), actions))
  }

  method SafeProposalForXcom(cat: Catalogs, report: Report, proposal: Proposal, freshId: string)
    returns (r: Option<Proposal>)
    ensures r == SafeProposal(cat, report, proposal, freshId)
  {
    hide SafeAction;
    var failures := FailuresOf(report);
    var safe: seq<CandidateAction> := [];
    var i := 0;
    while i < |proposal.actions|
      invariant 0 <= i <= |proposal.actions|
      invariant SafeActions(cat, proposal.actions[..i], failures) == Some(safe)
    {
      var action := SafeAction(cat, proposal.actions[i], failures);
      assert proposal.actions[..i + 1][..i] == proposal.actions[..i];
      if action.None? {
        UnsafePrefix(cat, proposal.actions, i, failures);
        return None;
      }
      safe := safe + [action.value];
      i := i + 1;
    }
    assert proposal.actions[..i] == proposal.actions;
    return Some(Proposal(freshId, SafeNarrative(|safe|), safe));
  }

  lemma {:induction false} UnsafePrefix(cat: Catalogs, actions: seq<CandidateAction>, n: nat, failures: Failures)
    requires n < |actions| && SafeAction(cat, actions[n], failures).None?
    ensures SafeActions(cat, actions, failures).None?
    decreases |actions|
  {
    if n < |actions| - 1 {
      UnsafePrefix(cat, actions[..|actions| - 1], n, failures);
    }
  }

  /** The check catalog is keyed by the checks' own ids, as the registry keeps it. */
  ghost predicate CheckKeys(cat: Catalogs) {
    forall k | k in cat.checks :: cat.checks[k].checkId == k
  }

  lemma SafeActionSame(cat: Catalogs, a: CandidateAction, failures: Failures)
    requires CheckKeys(cat)
    ensures SafeAction(cat, a, failures).Some? <==> Justify(cat, a.actionId, a.evidence, failures).Ok?
    ensures SafeAction(cat, a, failures).Some? ==>
      SafeAction(cat, a, failures).value == CandidateAction(a.actionId, a.evidence, SAFE_RATIONALE)
  {
    hide Justify;
    if Justify(cat, a.actionId, a.evidence, failures).Ok? {
      JustifiedSpecs(cat, a.actionId, a.evidence, failures);
      var j := Justify(cat, a.actionId, a.evidence, failures).value;
      forall s | s in j.specs ensures s.checkId in failures {
        var k :| 0 <= k < |j.specs| && j.specs[k] == s;
      }
      assert SafeAction(cat, a, failures).value.evidence == a.evidence;
    }
  }

  lemma {:induction false} SafeActionsSame(cat: Catalogs, actions: seq<CandidateAction>, failures: Failures)
    requires CheckKeys(cat)
    ensures SafeActions(cat, actions, failures).Some?
       <==> forall a | a in actions :: Justify(cat, a.actionId, a.evidence, failures).Ok?
    ensures SafeActions(cat, actions, failures).Some? ==>
      var safe := SafeActions(cat, actions, failures).value;
      |safe| == |actions| && forall i | 0 <= i < |actions| ::
        safe[i] == CandidateAction(actions[i].actionId, actions[i].evidence, SAFE_RATIONALE)
  {
    hide SafeAction;
    hide Justify;
    if actions != [] {
      var n := |actions| - 1;
      SafeActionsSame(cat, actions[..n], failures);
      SafeActionSame(cat, actions[n], failures);
      assert actions == actions[..n] + [actions[n]];
      assert actions[n] in actions;
    }
  }

  /** Two lists that request the same actions on the same evidence. */
  ghost predicate SameRequests(a: seq<CandidateAction>, b: seq<CandidateAction>) {
    && |a| == |b|
    && forall i | 0 <= i < |a| :: a[i].actionId == b[i].actionId && a[i].evidence == b[i].evidence
  }

  lemma SameRequestsRepeat(a: seq<CandidateAction>, b: seq<CandidateAction>, i: nat)
    requires SameRequests(a, b) && i < |a|
    ensures Repeated(a, i) == Repeated(b, i)
  {
  }

  lemma SameRequestsCompile(cat: Catalogs, a: seq<CandidateAction>, b: seq<CandidateAction>,
                            failures: Failures, resolve: Resolver)
    requires SameRequests(a, b)
    ensures CandidateItems(cat, a, failures, resolve) == CandidateItems(cat, b, failures, resolve)
    ensures IncompleteItems(a) == IncompleteItems(b)
  {
    hide CompileAction;
    hide Repeated;
    var items, others := CandidateItems(cat, a, failures, resolve), CandidateItems(cat, b, failures, resolve);
    forall i | 0 <= i < |a| ensures items[i] == others[i] {
      SameRequestsRepeat(a, b, i);
      SameAuthority(cat, i, a[i], b[i], Repeated(a, i), failures, resolve);
    }
    SameIncomplete(a, b);
  }

  /** The rebuilt proposal asks for the same actions on the same evidence, so compiling it gives the same
      items; only the candidate's own fingerprint differs. */
  lemma SanitizingKeepsItems(cat: Catalogs, report: Report, proposal: Proposal, freshId: string, resolve: Resolver)
    requires CheckKeys(cat) && SafeProposal(cat, report, proposal, freshId).Some?
    ensures CompiledItems(cat, report, SafeProposal(cat, report, proposal, freshId).value, resolve)
         == CompiledItems(cat, report, proposal, resolve)
  {
    hide CandidateItems;
    hide SafeActions;
    var safe := SafeProposal(cat, report, proposal, freshId).value;
    SafeActionsSame(cat, proposal.actions, FailuresOf(report));
    SameRequestsCompile(cat, safe.actions, proposal.actions, FailuresOf(report), resolve);
  }

  lemma SameAuthority(cat: Catalogs, i: nat, a: CandidateAction, b: CandidateAction, repeated: bool,
                      failures: Failures, resolve: Resolver)
    requires a.actionId == b.actionId && a.evidence == b.evidence
    ensures CompileAction(cat, i, a, repeated, failures, resolve)
         == CompileAction(cat, i, b, repeated, failures, resolve)
  {
    hide Justify;
    hide ItemPolicy;
  }

  lemma {:induction false} SameIncomplete(a: seq<CandidateAction>, b: seq<CandidateAction>)
    requires |a| == |b|
    requires forall i | 0 <= i < |a| :: a[i].evidence == b[i].evidence
    ensures IncompleteItems(a) == IncompleteItems(b)
  {
    if a != [] {
      SameIncomplete(a[..|a| - 1], b[..|b| - 1]);
    }
  }

  lemma SameRequestsSafe(cat: Catalogs, a: seq<CandidateAction>, b: seq<CandidateAction>, failures: Failures)
    requires CheckKeys(cat) && SameRequests(a, b) && SafeActions(cat, a, failures).Some?
    ensures SafeActions(cat, b, failures) == SafeActions(cat, a, failures)
  {
    hide Justify;
    hide SafeActions;
    SafeActionsSame(cat, a, failures);
    forall x | x in b ensures Justify(cat, x.actionId, x.evidence, failures).Ok? {
      var k :| 0 <= k < |b| && b[k] == x;
      assert a[k] in a;
    }
    SafeActionsSame(cat, b, failures);
    var x, y := SafeActions(cat, a, failures).value, SafeActions(cat, b, failures).value;
    assert |x| == |y| && forall i | 0 <= i < |x| :: x[i] == y[i];
    assert x == y;
  }

  /** No model-authored text crosses: two proposals that request the same actions on the same evidence are
      rebuilt alike, whatever their narratives, rationales and ids say. */
  lemma NarrativeDoesNotCross(cat: Catalogs, report: Report, p: Proposal, q: Proposal, freshId: string)
    requires CheckKeys(cat) && SameRequests(p.actions, q.actions)
    ensures SafeProposal(cat, report, p, freshId) == SafeProposal(cat, report, q, freshId)
  {
    hide SafeActions;
    var failures := FailuresOf(report);
    if SafeActions(cat, p.actions, failures).Some? {
      SameRequestsSafe(cat, p.actions, q.actions, failures);
    } else if SafeActions(cat, q.actions, failures).Some? {
      SameRequestsSafe(cat, q.actions, p.actions, failures);
    }
  }

  // ---------- plan evaluation ----------

  function FailedScores(scores: seq<Score>): seq<ScoreName> {
    if scores == [] then []
    else
      var last := scores[|scores| - 1];
      FailedScores(scores[..|scores| - 1]) + (if last.passed then [] else [last.name])
  }

  function PlanScores(cat: Catalogs, plan: Plan): seq<Score>
    requires CurrentPolicy(cat, plan).Some?
  {
    [Score(PlanCompilation, !plan.blocked && AllExecutable(plan.items)),
     Score(PolicySnapshot, CurrentPolicy(cat, plan) == Some(plan.policyFingerprint)),
     Score(TargetSetIntegrity, forall i | i in plan.items && i.Executable? :: i.targetSet.fingerprint != Raw(""))]
  }

  /** `evaluation_payload_fingerprint`. */
  function EvaluationFingerprint(e: Evaluation): Digest {
    EvaluationDigest(e.evaluationId, e.planId, e.planFingerprint, e.passed, e.scores, e.blockedReasons)
  }

  /** `evaluate_plan`, None where it raises. */
  function EvaluatePlan(cat: Catalogs, plan: Plan, evaluationId: string): Option<Evaluation> {
    if !PlanIntact(plan) || CurrentPolicy(cat, plan).None? then None
    else
      var scores := PlanScores(cat, plan);
      var blocked := FailedScores(scores);
      var draft := Evaluation(evaluationId, None, Some(plan.planId), Some(plan.fingerprint), None,
                              blocked == [], scores, blocked);
      Some(draft.(fingerprint := Some(EvaluationFingerprint(draft))))
  }

  /** The resolver only returns summaries that carry a fingerprint. */
  ghost predicate ResolverValid(resolve: Resolver) {
    forall i, a, t, p :: resolve(i, a, t, p).Some? ==> resolve(i, a, t, p).value.fingerprint != Raw("")
  }

  /** Plan evaluation passes every unblocked compiled plan and no blocked one. */
  lemma EvaluationAcceptsUnblocked(cat: Catalogs, report: Report, proposal: Proposal, resolve: Resolver,
                                   planId: string, env: string, evaluationId: string)
    requires ResolverValid(resolve)
    ensures
      var plan := Compile(cat, report, proposal, resolve, planId, env);
      var evaluation := EvaluatePlan(cat, plan, evaluationId);
      && (!plan.blocked ==> evaluation.Some? && evaluation.value.passed)
      && (plan.blocked && evaluation.Some? ==> !evaluation.value.passed)
  {
    hide CompileAction;
    hide Compile;
    hide CurrentPolicy;
    var plan := Compile(cat, report, proposal, resolve, planId, env);
    if !plan.blocked {
      CompiledSnapshotCurrent(cat, report, proposal, resolve, planId, env);
      UnblockedShape(cat, report, proposal, resolve, planId, env);
      CompiledTargets(cat, report, proposal, resolve, planId, env);
      CompiledIntact(cat, report, proposal, resolve, planId, env);
    }
    if CurrentPolicy(cat, plan).Some? {
      ThreeScores(PlanScores(cat, plan));
    }
  }

  lemma CompiledIntact(cat: Catalogs, report: Report, proposal: Proposal, resolve: Resolver, planId: string,
                       env: string)
    ensures PlanIntact(Compile(cat, report, proposal, resolve, planId, env))
  {
    hide CompiledItems;
  }

  lemma CompiledTargets(cat: Catalogs, report: Report, proposal: Proposal, resolve: Resolver, planId: string,
                        env: string)
    requires ResolverValid(resolve)
    requires !Compile(cat, report, proposal, resolve, planId, env).blocked
    ensures forall i | i in Compile(cat, report, proposal, resolve, planId, env).items && i.Executable? ::
              i.targetSet.fingerprint != Raw("")
  {
    hide CompileAction;
    hide Compile;
    var plan := Compile(cat, report, proposal, resolve, planId, env);
    UnblockedShape(cat, report, proposal, resolve, planId, env);
    forall item | item in plan.items && item.Executable? ensures item.targetSet.fingerprint != Raw("") {
      var i := CompiledAt(cat, proposal.actions, FailuresOf(report), resolve, item);
      CompiledFrom(cat, i, proposal.actions[i], Repeated(proposal.actions, i), FailuresOf(report), resolve);
    }
  }

  lemma ThreeScores(scores: seq<Score>)
    requires |scores| == 3
    ensures FailedScores(scores) == [] <==> scores[0].passed && scores[1].passed && scores[2].passed
  {
    assert scores[..2][..1][..0] == [];
    assert FailedScores(scores[..2][..1]) == if scores[0].passed then [] else [scores[0].name];
    assert |FailedScores(scores[..2])| == |FailedScores(scores[..2][..1])| + (if scores[1].passed then 0 else 1);
  }
}
