/** What the scores of a candidate evaluation say of the candidate, passing or not (evals/harness.py). */
module Scores {
  import opened Prelude
  import opened SqlText
  import opened Contracts
  import opened Actions
  import opened CheckPolicies
  import opened Planning
  import opened Evaluations

  // ---------- citation quality ----------

  /** The checks the proposal cites anywhere. */
  ghost function CitedChecks(proposal: Proposal): set<string> {
    set a, e | a in proposal.actions && e in a.evidence :: e.checkId
  }

  /** Every piece of evidence names a failed check under its own contract. */
  ghost predicate Invented(report: Report, proposal: Proposal) {
    exists a, e | a in proposal.actions && e in a.evidence ::
      e.checkId !in FailuresOf(report) || FailuresOf(report)[e.checkId].contractId != e.contractId
  }

  /** The citation score is the share of the failed checks that the proposal cites; nothing if one piece of evidence
      names no failed check under its own contract, and with no failed check the whole if nothing is asked for. */
  lemma CitationMeaning(report: Report, proposal: Proposal)
    ensures
      var failed, score := FailuresOf(report).Keys, CitationScore(report, proposal);
      && 0.0 <= score <= 1.0
      && (failed == {} ==> score == if proposal.actions == [] then 1.0 else 0.0)
      && (failed != {} && Invented(report, proposal) ==> score == 0.0)
      && (failed != {} && !Invented(report, proposal) ==>
            CitedChecks(proposal) <= failed
            && score * |failed| as real == |CitedChecks(proposal)| as real)
  {
    hide FailuresOf;
    var failed, evidence := FailuresOf(report).Keys, AllEvidence(proposal.actions);
    AllEvidenceMeaning(proposal.actions);
    assert CheckIds(evidence) == CitedChecks(proposal);
    hide AllEvidence;
    if failed != {} && !Invented(report, proposal) {
      assert CheckIds(evidence) * failed == CitedChecks(proposal);
      Share(CitedChecks(proposal), failed);
    }
    hide CheckIds;
    hide CitedChecks;
  }

  lemma Share(cited: set<string>, failed: set<string>)
    requires cited <= failed && failed != {}
    ensures
      var share := |cited| as real / |failed| as real;
      0.0 <= share <= 1.0 && share * |failed| as real == |cited| as real
  {
    assert failed == cited + (failed - cited);
    var n, m := |cited| as real, |failed| as real;
    assert 0.0 <= n <= m && m > 0.0;
    assert n / m * m == n;
    assert n / m <= m / m == 1.0;
  }

  // ---------- destructive risk ----------

  /** The same letters, whatever their case. */
  predicate SameLetters(text: string, token: string) {
    |text| == |token|
    && forall k | 0 <= k < |token| :: text[k] == token[k] || text[k] as int == token[k] as int + 32
  }

  lemma UpperIs(text: string, token: string)
    requires forall c | c in token :: 'A' <= c <= 'Z'
    ensures Upper(text) == token <==> SameLetters(text, token)
  {
    if Upper(text) == token {
      forall k | 0 <= k < |token| ensures text[k] == token[k] || text[k] as int == token[k] as int + 32 {
        assert Upper(text)[k] == token[k];
      }
    }
    if SameLetters(text, token) {
      forall k | 0 <= k < |token| ensures Upper(text)[k] == token[k] {
        assert token[k] in token;
      }
    }
  }

  lemma UpperPart(name: string, i: nat, n: nat)
    requires i + n <= |name|
    ensures Upper(name)[i..i + n] == Upper(name[i..i + n])
  {
  }

  lemma TokenInside(name: string, token: string)
    requires (forall c | c in token :: 'A' <= c <= 'Z') && Contains(Upper(name), token)
    ensures exists before, text, after :: name == before + text + after && SameLetters(text, token)
  {
    hide SameLetters;
    var i: nat :| i <= |Upper(name)| && OccursAt(Upper(name), token, i);
    var n := |token|;
    UpperPart(name, i, n);
    UpperIs(name[i..i + n], token);
    hide Upper;
    assert name == name[..i] + name[i..i + n] + name[i + n..];
  }

  lemma InsideIsToken(before: string, text: string, after: string, token: string)
    requires (forall c | c in token :: 'A' <= c <= 'Z') && SameLetters(text, token)
    ensures Contains(Upper(before + text + after), token)
  {
    var name, i := before + text + after, |before|;
    UpperIs(text, token);
    UpperPart(name, i, |text|);
    assert name[i..i + |text|] == text;
    assert OccursAt(Upper(name), token, i);
  }

  /** An identifier outside the catalog is destructive exactly when one of the four words is part of it, in whatever
      case. */
  lemma DestructiveMeaning(name: string)
    ensures Destructive(Ungoverned(name)) <==>
      exists token, before, text, after ::
        token in ["DROP", "TRUNCATE", "ALTER", "DELETE"]
        && name == before + text + after && SameLetters(text, token)
  {
    hide Upper;
    hide Contains;
    hide SameLetters;
    assert forall token, c | token in DESTRUCTIVE_TOKENS && c in token :: 'A' <= c <= 'Z';
    if token :| token in DESTRUCTIVE_TOKENS && Contains(Upper(name), token) {
      TokenInside(name, token);
    }
    if token, before, text, after :|
      token in DESTRUCTIVE_TOKENS && name == before + text + after && SameLetters(text, token)
    {
      InsideIsToken(before, text, after, token);
    }
  }

  // ---------- all scores ----------

  /** The candidate meets what the score of this name asks for. */
  ghost predicate Meets(cat: Catalogs, report: Report, proposal: Proposal, t: Thresholds, name: ScoreName) {
    match name
    case CitationQuality => CitationScore(report, proposal) >= t.citation
    case Groundedness =>
      || t.groundedness <= 0.0
      || (t.groundedness <= 1.0
          && ((exists r | r in report.checks :: r.status == Fail) || proposal.actions == [])
          && forall a | a in proposal.actions ::
               a.evidence != []
               && (a.actionId.Ungoverned? ==> a.actionId.name != "" && forall c | c in a.actionId.name :: !Space(c)))
    case DestructiveRisk => forall a | a in proposal.actions :: !Destructive(a.actionId)
    case AllowlistCompliance => forall a | a in proposal.actions :: !a.actionId.Ungoverned?
    case CheckPolicyScore =>
      && (forall a | a in proposal.actions :: Justify(cat, a.actionId, a.evidence, FailuresOf(report)).Ok?)
      && forall id | id in FailuresOf(report) ::
           exists a, e | a in proposal.actions && e in a.evidence :: e.checkId == id
    case SuiteCompleteness => false
    case _ => true
  }

  /** The scores come in one order, the last of them only under an incomplete suite, and each passes exactly when the
      candidate meets it. */
  lemma ScoresMean(cat: Catalogs, report: Report, proposal: Proposal, t: Thresholds)
    ensures
      var scores := ProposalScores(cat, report, proposal, t);
      && Map(scores, (s: Score) => s.name)
         == [SchemaValidity, CitationQuality, Groundedness, DestructiveRisk, AllowlistCompliance, CheckPolicyScore]
            + (if report.checks == [] || exists r | r in report.checks :: r.status == Error
               then [SuiteCompleteness] else [])
      && forall s | s in scores :: s.passed <==> Meets(cat, report, proposal, t, s.name)
  {
    hide Justify;
    hide CitationScore;
    hide Destructive;
    PolicyMeets(cat, report, proposal, t);
    GroundedMeets(cat, report, proposal, t);
    hide PolicyPasses;
    hide Grounded;
    hide FailuresOf;
  }

  lemma PolicyMeets(cat: Catalogs, report: Report, proposal: Proposal, t: Thresholds)
    ensures PolicyPasses(cat, report, proposal) <==> Meets(cat, report, proposal, t, CheckPolicyScore)
  {
    hide Justify;
    hide FailuresOf;
    var failures := FailuresOf(report);
    if forall a | a in proposal.actions :: Justify(cat, a.actionId, a.evidence, failures).Ok? {
      forall id ensures id in JustifiedCoverage(cat, proposal.actions, failures)
        <==> exists a, e | a in proposal.actions && e in a.evidence :: e.checkId == id
      {
      }
    }
  }

  lemma GroundedMeets(cat: Catalogs, report: Report, proposal: Proposal, t: Thresholds)
    ensures (if Grounded(report, proposal) then 1.0 else 0.0) >= t.groundedness
       <==> Meets(cat, report, proposal, t, Groundedness)
  {
    var failed := FailedChecks(report);
    if r :| r in report.checks && r.status == Fail {
      assert r in failed;
    }
    if failed != [] {
      assert failed[0] in failed;
    }
  }
}
