/** The one rule that justifies a requested action against a report's failed checks (check_policy.py). */
module CheckPolicies {
  import opened Prelude
  import opened Contracts
  import opened Actions

  type Failures = map<string, CheckResult>

  /** `{check.check_id: check for check in failed}`: the last failed check of an id wins. */
  function ById(failed: seq<CheckResult>): Failures {
    if failed == [] then map[]
    else
      var last := failed[|failed| - 1];
      ById(failed[..|failed| - 1])[last.checkId := last]
  }

  /** The keys of that dictionary in insertion order. */
  function Ids(failed: seq<CheckResult>): seq<string> {
    if failed == [] then []
    else
      var before := Ids(failed[..|failed| - 1]);
      var last := failed[|failed| - 1].checkId;
      if last in before then before else before + [last]
  }

  lemma {:induction false} IdsAreKeys(failed: seq<CheckResult>)
    ensures Elements(Ids(failed)) == ById(failed).Keys
    ensures Distinct(Ids(failed))
    ensures forall id | id in ById(failed) :: ById(failed)[id] in failed && ById(failed)[id].checkId == id
  {
    if failed != [] {
      IdsAreKeys(failed[..|failed| - 1]);
    }
  }

  function FailuresOf(report: Report): Failures {
    ById(FailedChecks(report))
  }

  datatype Justification = Justification(specs: seq<CheckSpec>, params: Params)

  /** One piece of evidence names a declared check that failed in this report under this contract. */
  function CitedSpec(cat: Catalogs, e: Evidence, failures: Failures): Result<CheckSpec, Reason> {
    if GetCheck(cat, e.checkId).None? then Err(UnknownCheck)
    else if e.checkId !in failures || failures[e.checkId].contractId != e.contractId then Err(InvalidEvidence)
    else Ok(cat.checks[e.checkId])
  }

  function CitedSpecs(cat: Catalogs, evidence: seq<Evidence>, failures: Failures): (r: Result<seq<CheckSpec>, Reason>)
    ensures r.Ok? ==> |r.value| == |evidence|
    ensures r.Ok? ==> forall i | 0 <= i < |evidence| :: CitedSpec(cat, evidence[i], failures) == Ok(r.value[i])
    ensures r.Err? ==> exists e :: e in evidence && CitedSpec(cat, e, failures).Err?
  {
    if evidence == [] then Ok([])
    else
      var n := |evidence| - 1;
      match CitedSpecs(cat, evidence[..n], failures)
      case Err(reason) => Err(reason)
      case Ok(specs) =>
        match CitedSpec(cat, evidence[n], failures)
        case Err(reason) => Err(reason)
        case Ok(spec) => Ok(specs + [spec])
  }

  /** The guards after the evidence is collected: governed, declared by every cited check, and derived
      alike from every cited check. */
  function Decide(cat: Catalogs, action: ActionId, specs: seq<CheckSpec>): Result<Justification, Reason>
    requires specs != []
  {
    if !Governed(action) || exists s | s in specs :: RuleFor(s.policies, action).None? then Err(UnsupportedAction)
    else
      match DeriveParams(cat, action, specs[0])
      case None => Err(Unavailable)
      case Some(params) =>
        if forall s | s in specs[1..] :: DeriveParams(cat, action, s) == Some(params)
        then Ok(Justification(specs, params))
        else Err(Unavailable)
  }

  /** `justify_action`: what it returns, or the reason a plan item is blocked with. */
  function Justify(cat: Catalogs, action: ActionId, evidence: seq<Evidence>, failures: Failures)
    : Result<Justification, Reason>
  {
    if evidence == [] then Err(InvalidEvidence)
    else
      match CitedSpecs(cat, evidence, failures)
      case Err(reason) => Err(reason)
      case Ok(specs) => Decide(cat, action, specs)
  }

  /** What a justified request must satisfy, stated without the order of the checks. */
  ghost predicate Justified(cat: Catalogs, action: ActionId, evidence: seq<Evidence>, failures: Failures,
                            params: Params) {
    && evidence != []
    && Governed(action)
    && forall e | e in evidence ::
         && e.checkId in cat.checks
         && e.checkId in failures
         && failures[e.checkId].contractId == e.contractId
         && DeriveParams(cat, action, cat.checks[e.checkId]) == Some(params)
  }

  lemma JustifiedIsAccepted(cat: Catalogs, action: ActionId, evidence: seq<Evidence>, failures: Failures,
                            params: Params)
    requires Justified(cat, action, evidence, failures, params)
    ensures Justify(cat, action, evidence, failures).Ok?
    ensures Justify(cat, action, evidence, failures).value.params == params
  {
    hide DeriveParams;
    assert forall e | e in evidence :: CitedSpec(cat, e, failures).Ok?;
    var specs := CitedSpecs(cat, evidence, failures).value;
    forall i | 0 <= i < |specs| ensures DeriveParams(cat, action, specs[i]) == Some(params) {
      assert evidence[i] in evidence && CitedSpec(cat, evidence[i], failures) == Ok(specs[i]);
    }
    assert specs == [specs[0]] + specs[1..];
  }

  lemma AcceptedIsJustified(cat: Catalogs, action: ActionId, evidence: seq<Evidence>, failures: Failures)
    requires Justify(cat, action, evidence, failures).Ok?
    ensures Justified(cat, action, evidence, failures, Justify(cat, action, evidence, failures).value.params)
  {
    var specs := CitedSpecs(cat, evidence, failures).value;
    assert specs == [specs[0]] + specs[1..];
    forall e | e in evidence
      ensures e.checkId in cat.checks && e.checkId in failures
      ensures failures[e.checkId].contractId == e.contractId
      ensures DeriveParams(cat, action, cat.checks[e.checkId])
           == Some(Justify(cat, action, evidence, failures).value.params)
    {
      var i :| 0 <= i < |evidence| && evidence[i] == e;
      assert CitedSpec(cat, evidence[i], failures) == Ok(specs[i]);
      assert specs[i] in specs;
    }
  }

  /** The sequence of guards accepts exactly the requests that meet the policy, with the parameters that
      every cited check derives. */
  lemma JustifyMeaning(cat: Catalogs, action: ActionId, evidence: seq<Evidence>, failures: Failures, params: Params)
    ensures Justified(cat, action, evidence, failures, params)
       <==> Justify(cat, action, evidence, failures).Ok?
            && Justify(cat, action, evidence, failures).value.params == params
  {
    if Justified(cat, action, evidence, failures, params) {
      JustifiedIsAccepted(cat, action, evidence, failures, params);
    }
    if Justify(cat, action, evidence, failures).Ok? {
      AcceptedIsJustified(cat, action, evidence, failures);
    }
  }

  /** A justification cites, in order, the spec of each piece of evidence. */
  lemma JustifiedSpecs(cat: Catalogs, action: ActionId, evidence: seq<Evidence>, failures: Failures)
    requires Justify(cat, action, evidence, failures).Ok?
    ensures var specs := Justify(cat, action, evidence, failures).value.specs;
      |specs| == |evidence| > 0
      && forall i | 0 <= i < |evidence| ::
           && evidence[i].checkId in cat.checks && specs[i] == cat.checks[evidence[i].checkId]
           && evidence[i].checkId in failures && failures[evidence[i].checkId].contractId == evidence[i].contractId
  {
    var specs := Justify(cat, action, evidence, failures).value.specs;
    assert CitedSpecs(cat, evidence, failures) == Ok(specs);
    forall i | 0 <= i < |evidence|
      ensures evidence[i].checkId in cat.checks && specs[i] == cat.checks[evidence[i].checkId]
      ensures evidence[i].checkId in failures && failures[evidence[i].checkId].contractId == evidence[i].contractId
    {
      assert CitedSpec(cat, evidence[i], failures) == Ok(specs[i]);
    }
  }

  /** `justify_action` as it runs: append each cited spec, stop at the first bad one. */
  method JustifyAction(cat: Catalogs, action: ActionId, evidence: seq<Evidence>, failures: Failures)
    returns (r: Result<Justification, Reason>)
    ensures r == Justify(cat, action, evidence, failures)
  {
    if evidence == [] {
      return Err(InvalidEvidence);
    }
    var specs: seq<CheckSpec> := [];
    var i := 0;
    while i < |evidence|
      invariant 0 <= i <= |evidence|
      invariant CitedSpecs(cat, evidence[..i], failures) == Ok(specs)
    {
      var cited := CitedSpec(cat, evidence[i], failures);
      assert evidence[..i + 1][..i] == evidence[..i];
      if cited.Err? {
        RefusedPrefix(cat, evidence, i, failures);
        return Err(cited.error);
      }
      specs := specs + [cited.value];
      i := i + 1;
    }
    assert evidence[..i] == evidence;
    r := Decide(cat, action, specs);
  }

  lemma {:induction false} RefusedPrefix(cat: Catalogs, evidence: seq<Evidence>, n: nat, failures: Failures)
    requires n < |evidence|
    requires CitedSpecs(cat, evidence[..n], failures).Ok? && CitedSpec(cat, evidence[n], failures).Err?
    ensures CitedSpecs(cat, evidence, failures) == Err(CitedSpec(cat, evidence[n], failures).error)
    decreases |evidence|
  {
    var last := |evidence| - 1;
    if n < last {
      assert evidence[..last][..n] == evidence[..n];
      RefusedPrefix(cat, evidence[..last], n, failures);
    }
  }

  // ---------- refusals ----------

  /** The evidence names a declared check that failed in this report under the cited contract. */
  predicate SoundEvidence(cat: Catalogs, e: Evidence, failures: Failures) {
    e.checkId in cat.checks && e.checkId in failures && failures[e.checkId].contractId == e.contractId
  }

  /** Evidence k is the first that is not sound. */
  predicate FirstUnsound(cat: Catalogs, evidence: seq<Evidence>, failures: Failures, k: nat) {
    k < |evidence| && !SoundEvidence(cat, evidence[k], failures)
    && forall i | 0 <= i < k :: SoundEvidence(cat, evidence[i], failures)
  }

  lemma {:induction false} CitedStops(cat: Catalogs, evidence: seq<Evidence>, failures: Failures)
    ensures CitedSpecs(cat, evidence, failures).Ok? <==> forall e | e in evidence :: SoundEvidence(cat, e, failures)
    ensures CitedSpecs(cat, evidence, failures).Err? ==>
      exists k: nat :: FirstUnsound(cat, evidence, failures, k)
        && CitedSpecs(cat, evidence, failures).error
           == (if evidence[k].checkId in cat.checks then InvalidEvidence else UnknownCheck)
  {
    hide SoundEvidence;
    hide CitedSpec;
    if evidence != [] {
      var n := |evidence| - 1;
      CitedStops(cat, evidence[..n], failures);
      OneCited(cat, evidence[n], failures);
      assert evidence == evidence[..n] + [evidence[n]];
      if CitedSpecs(cat, evidence[..n], failures).Err? {
        var k: nat :| FirstUnsound(cat, evidence[..n], failures, k)
          && CitedSpecs(cat, evidence[..n], failures).error
             == (if evidence[..n][k].checkId in cat.checks then InvalidEvidence else UnknownCheck);
        assert FirstUnsound(cat, evidence, failures, k);
      } else if CitedSpecs(cat, evidence, failures).Err? {
        forall i | 0 <= i < n ensures SoundEvidence(cat, evidence[i], failures) {
          assert evidence[i] in evidence[..n];
        }
        assert FirstUnsound(cat, evidence, failures, n);
      }
    }
  }

  lemma OneCited(cat: Catalogs, e: Evidence, failures: Failures)
    ensures CitedSpec(cat, e, failures).Ok? <==> SoundEvidence(cat, e, failures)
    ensures CitedSpec(cat, e, failures).Err? ==>
      CitedSpec(cat, e, failures).error == if e.checkId in cat.checks then InvalidEvidence else UnknownCheck
  {
  }

  /** Every cited check declares the action. */
  predicate AllDeclare(cat: Catalogs, action: ActionId, evidence: seq<Evidence>)
    requires forall e | e in evidence :: e.checkId in cat.checks
  {
    forall e | e in evidence :: exists p :: p in cat.checks[e.checkId].policies && p.actionId == action
  }

  lemma {:induction false} RuleDeclared(policies: seq<CheckPolicy>, action: ActionId)
    ensures RuleFor(policies, action).Some? <==> exists p :: p in policies && p.actionId == action
    ensures RuleFor(policies, action).Some? ==>
      exists k: nat :: k < |policies| && policies[k] == RuleFor(policies, action).value
        && policies[k].actionId == action && forall i | 0 <= i < k :: policies[i].actionId != action
  {
    if policies != [] {
      RuleDeclared(policies[1..], action);
      assert policies == [policies[0]] + policies[1..];
      if policies[0].actionId == action {
        assert policies[0] == RuleFor(policies, action).value;
      } else if RuleFor(policies, action).Some? {
        var k: nat :| k < |policies[1..]| && policies[1..][k] == RuleFor(policies[1..], action).value
          && policies[1..][k].actionId == action && forall i | 0 <= i < k :: policies[1..][i].actionId != action;
        forall i | 0 <= i < k + 1 ensures policies[i].actionId != action {
          assert i > 0 ==> policies[1..][i - 1].actionId != action;
        }
        assert policies[k + 1] == RuleFor(policies, action).value;
      }
    }
  }

  lemma {:induction false} CitedAre(cat: Catalogs, evidence: seq<Evidence>, failures: Failures)
    requires CitedSpecs(cat, evidence, failures).Ok?
    ensures forall e | e in evidence :: e.checkId in cat.checks
    ensures forall s :: s in CitedSpecs(cat, evidence, failures).value
                   <==> exists e :: e in evidence && e.checkId in cat.checks && cat.checks[e.checkId] == s
  {
    var specs := CitedSpecs(cat, evidence, failures).value;
    forall s | s in specs ensures exists e :: e in evidence && e.checkId in cat.checks && cat.checks[e.checkId] == s {
      var i :| 0 <= i < |specs| && specs[i] == s;
      assert CitedSpec(cat, evidence[i], failures) == Ok(specs[i]) && evidence[i] in evidence;
    }
    forall e | e in evidence ensures e.checkId in cat.checks && cat.checks[e.checkId] in specs {
      var i :| 0 <= i < |evidence| && evidence[i] == e;
      assert CitedSpec(cat, evidence[i], failures) == Ok(specs[i]) && specs[i] in specs;
    }
  }

  /** Why a request is refused: the first unsound piece of evidence names no declared check, or none that failed so;
      then a check that does not declare the action; then parameters that do not derive, or not alike. */
  lemma RefusalReasons(cat: Catalogs, action: ActionId, evidence: seq<Evidence>, failures: Failures)
    ensures
      var r := Justify(cat, action, evidence, failures);
      var sound := forall e | e in evidence :: SoundEvidence(cat, e, failures);
      && (r == Err(UnknownCheck) <==>
            exists k: nat :: FirstUnsound(cat, evidence, failures, k) && evidence[k].checkId !in cat.checks)
      && (r == Err(InvalidEvidence) <==>
            evidence == []
            || exists k: nat :: FirstUnsound(cat, evidence, failures, k) && evidence[k].checkId in cat.checks)
      && (r == Err(UnsupportedAction) <==>
            evidence != [] && sound && (!Governed(action) || !AllDeclare(cat, action, evidence)))
      && (r == Err(Unavailable) <==>
            evidence != [] && sound && Governed(action) && AllDeclare(cat, action, evidence) && !r.Ok?)
  {
    hide DeriveParams;
    CitedStops(cat, evidence, failures);
    OneFirst(cat, evidence, failures);
    if evidence != [] && CitedSpecs(cat, evidence, failures).Ok? {
      CitedAre(cat, evidence, failures);
      SpecsDeclare(cat, action, evidence, CitedSpecs(cat, evidence, failures).value);
    }
    hide CitedSpecs;
    hide AllDeclare;
    hide SoundEvidence;
  }

  /** Only one piece of evidence is the first unsound one, and there is one exactly where not all is sound. */
  lemma OneFirst(cat: Catalogs, evidence: seq<Evidence>, failures: Failures)
    ensures forall j: nat, k: nat | FirstUnsound(cat, evidence, failures, j) && FirstUnsound(cat, evidence, failures, k)
              :: j == k
    ensures (exists k: nat :: FirstUnsound(cat, evidence, failures, k)) ==>
      exists e :: e in evidence && !SoundEvidence(cat, e, failures)
  {
    hide SoundEvidence;
    if k: nat :| FirstUnsound(cat, evidence, failures, k) {
      assert evidence[k] in evidence;
    }
  }

  lemma SpecsDeclare(cat: Catalogs, action: ActionId, evidence: seq<Evidence>, specs: seq<CheckSpec>)
    requires forall e | e in evidence :: e.checkId in cat.checks
    requires forall s :: s in specs
                    <==> exists e :: e in evidence && e.checkId in cat.checks && cat.checks[e.checkId] == s
    ensures AllDeclare(cat, action, evidence) <==> forall s | s in specs :: RuleFor(s.policies, action).Some?
  {
    forall s: CheckSpec
      ensures RuleFor(s.policies, action).Some? <==> exists p :: p in s.policies && p.actionId == action
    {
      RuleDeclared(s.policies, action);
    }
    hide RuleFor;
    if forall s | s in specs :: RuleFor(s.policies, action).Some? {
      forall e | e in evidence ensures exists p :: p in cat.checks[e.checkId].policies && p.actionId == action {
        assert cat.checks[e.checkId] in specs;
      }
    }
  }
}
