/**
 * The policy twin: evidence, risk and decision axes, and their recalculation after the dry run
 * (namespace_twin/policy_twin.py), joined with the runtime effect (namespace_twin/service.py).
 */
module PolicyTwin {
  import opened Options
  import Text

  datatype Colour = Green | Amber | Red

  function Rank(c: Colour): nat {
    match c
    case Green => 0
    case Amber => 1
    case Red => 2
  }

  function Worse(a: Colour, b: Colour): (c: Colour)
    ensures Rank(c) == if Rank(a) >= Rank(b) then Rank(a) else Rank(b)
  {
    if Rank(a) >= Rank(b) then a else b
  }

  // ----- The policy axis -----

  datatype Effect = Deny | ApprovalRequired | OtherEffect

  datatype Verdict = Denied | NeedsApproval | Allowed

  function PolicyVerdict(effects: seq<Effect>): Verdict {
    if Deny in effects then Denied else if ApprovalRequired in effects then NeedsApproval else Allowed
  }

  // ----- The evidence axis -----

  datatype CheckCode =
    | BundleIntegrity | LiveNamespaceSnapshot | DependencyIntegrity | RollbackEvidence
    | AuthoritativeDryRun | OtherCheck(name: string)

  datatype Check = Check(code: CheckCode, satisfied: bool)

  datatype Classification = Complete | Partial | Stale | Unavailable

  datatype Freshness = IsFresh | IsStale | NoFreshness

  function Missing(checks: seq<Check>): (r: seq<CheckCode>)
    ensures forall c :: c in r <==> Check(c, false) in checks
  {
    if checks == [] then []
    else
      var last := checks[|checks| - 1];
      assert checks == checks[..|checks| - 1] + [last];
      Missing(checks[..|checks| - 1]) + if last.satisfied then [] else [last.code]
  }

  function Classify(checks: seq<Check>, freshness: Freshness): Classification {
    if freshness == IsStale then Stale
    else if BundleIntegrity in Missing(checks) then Unavailable
    else if Missing(checks) == [] then Complete
    else Partial
  }

  // ----- The risk axis -----

  datatype Rule =
    | PvcCreateOrExplicitDelete | StatefulsetChange | HelmReleaseUpgrade | ImageChange | ConfigmapChange
    | IngressChange | ServiceSelectorChange | LargeReplicaChange | MissingRollbackStep
    | InferredChartOrValue | PartialOrStaleLiveEvidence | PreviousSimilarFailure | DriftDetected

  const RiskRules: seq<(Rule, nat)> :=
    [(PvcCreateOrExplicitDelete, 30), (StatefulsetChange, 25), (HelmReleaseUpgrade, 20), (ImageChange, 15),
     (ConfigmapChange, 15), (IngressChange, 15), (ServiceSelectorChange, 20), (LargeReplicaChange, 10),
     (MissingRollbackStep, 30), (InferredChartOrValue, 20), (PartialOrStaleLiveEvidence, 20),
     (PreviousSimilarFailure, 20), (DriftDetected, 25)]

  const GreenMax := 30
  const RedMin := 71

  // A stored contribution may lack its weight; the evidence rule then counts 20.
  datatype Contribution = Contribution(rule: Rule, matched: bool, weight: Option<nat>, contribution: int)

  function Total(contributions: seq<Contribution>): int {
    if contributions == [] then 0
    else Total(contributions[..|contributions| - 1]) + contributions[|contributions| - 1].contribution
  }

  function Score(raw: int): int {
    if raw < 100 then raw else 100
  }

  function Contributed(rule: Rule, weight: nat, matched: bool): Contribution {
    Contribution(rule, matched, Some(weight), if matched then weight else 0)
  }

  function Contributions(rules: seq<(Rule, nat)>, facts: set<Rule>): (r: seq<Contribution>)
    ensures |r| == |rules|
    ensures forall i :: 0 <= i < |r| ==> r[i] == Contributed(rules[i].0, rules[i].1, rules[i].0 in facts)
  {
    if rules == [] then []
    else
      var (rule, weight) := rules[|rules| - 1];
      Contributions(rules[..|rules| - 1], facts) + [Contributed(rule, weight, rule in facts)]
  }

  /** The sum of the weights of the rules that hold. */
  function MatchedWeight(rules: seq<(Rule, nat)>, facts: set<Rule>): nat {
    if rules == [] then 0
    else MatchedWeight(rules[..|rules| - 1], facts)
         + if rules[|rules| - 1].0 in facts then rules[|rules| - 1].1 else 0
  }

  datatype RiskAxis = RiskAxis(score: int, rawScore: int, contributions: seq<Contribution>)

  /** The scoring loop. */
  method ScoreRisk(facts: set<Rule>) returns (axis: RiskAxis)
    ensures axis.contributions == Contributions(RiskRules, facts)
    ensures axis.rawScore == MatchedWeight(RiskRules, facts)
    ensures axis.score == Score(axis.rawScore)
  {
    hide Contributions;
    var rules := RiskRules;
    var contributions, raw := [], 0;
    for i := 0 to |rules|
      invariant contributions == Contributions(rules[..i], facts)
      invariant raw == MatchedWeight(rules[..i], facts)
    {
      assert rules[..i + 1][..i] == rules[..i];
      var (rule, weight) := rules[i];
      var matched := rule in facts;
      var value := if matched then weight else 0;
      raw := raw + value;
      contributions := contributions + [Contribution(rule, matched, Some(weight), value)];
    }
    assert rules[..|rules|] == rules;
    axis := RiskAxis(if raw < 100 then raw else 100, raw, contributions);
  }

  // ----- The decision projection -----

  datatype Precedence =
    | PolicyDenyOrHardBlock | AuthoritativeDryRunFailed | CriticalUnmitigatedRisk | ApprovalIsRequired
    | EvidencePartialStaleOrUnavailable | RiskAboveGreenBand | OtherwiseGreen

  datatype Projection = Projection(level: Colour, rule: Precedence, isFinal: bool)

  predicate IsWeak(c: Classification) {
    c == Partial || c == Stale || c == Unavailable
  }

  /** The first rule of the list that matches decides. */
  function Project(verdict: Verdict, evidence: Classification, score: int, dryRunFailed: bool,
      isFinal: bool): Projection {
    if verdict == Denied then Projection(Red, PolicyDenyOrHardBlock, isFinal)
    else if dryRunFailed then Projection(Red, AuthoritativeDryRunFailed, isFinal)
    else if score >= RedMin then Projection(Red, CriticalUnmitigatedRisk, isFinal)
    else if verdict == NeedsApproval then Projection(Amber, ApprovalIsRequired, isFinal)
    else if IsWeak(evidence) then Projection(Amber, EvidencePartialStaleOrUnavailable, isFinal)
    else if score > GreenMax then Projection(Amber, RiskAboveGreenBand, isFinal)
    else Projection(Green, OtherwiseGreen, isFinal)
  }

  /** Each concern alone would allow at best a colour; the projection is the worst of them. */
  lemma ProjectIsTheJoin(verdict: Verdict, evidence: Classification, score: int, dryRunFailed: bool, isFinal: bool)
    ensures Project(verdict, evidence, score, dryRunFailed, isFinal).level
         == Worse(Worse(match verdict case Denied => Red case NeedsApproval => Amber case Allowed => Green,
                        if dryRunFailed then Red else Green),
                  Worse(if score >= RedMin then Red else if score > GreenMax then Amber else Green,
                        if IsWeak(evidence) then Amber else Green))
  {}

  // ----- Evaluation -----

  // What one evaluation looks at, apart from the dry run: the effects of the policy findings, the
  // four other checks, whether a live snapshot was available, and the rules that hold.
  datatype Inputs = Inputs(
    effects: seq<Effect>, bundleIntegrity: bool, dependencyIntegrity: bool,
    rollbackEvidence: bool, snapshotAvailable: bool, facts: set<Rule>)

  // The stored twin. A twin from before policy evaluation has no verdict.
  datatype Twin = Twin(verdict: Option<Verdict>, freshness: Freshness, checks: seq<Check>,
                       classification: Classification, risk: RiskAxis, projection: Projection)

  function ChecksOf(inputs: Inputs, dryRunPassed: bool): seq<Check> {
    [Check(BundleIntegrity, inputs.bundleIntegrity), Check(LiveNamespaceSnapshot, inputs.snapshotAvailable),
     Check(DependencyIntegrity, inputs.dependencyIntegrity), Check(RollbackEvidence, inputs.rollbackEvidence)]
    + [Check(AuthoritativeDryRun, dryRunPassed)]
  }

  function FreshnessOf(inputs: Inputs): Freshness {
    if inputs.snapshotAvailable then IsFresh else NoFreshness
  }

  /** The rules that hold; the evidence rule follows from the classification. */
  function FactsWith(facts: set<Rule>, evidence: Classification): set<Rule> {
    if IsWeak(evidence) then facts + {PartialOrStaleLiveEvidence} else facts - {PartialOrStaleLiveEvidence}
  }

  /** Everything calculated from scratch, with the dry-run check as given. */
  function EvaluateWith(inputs: Inputs, dryRunPassed: bool, dryRunFailed: bool, isFinal: bool): Twin {
    var checks := ChecksOf(inputs, dryRunPassed);
    var classification := Classify(checks, FreshnessOf(inputs));
    var facts := FactsWith(inputs.facts, classification);
    var raw := MatchedWeight(RiskRules, facts);
    var risk := RiskAxis(Score(raw), raw, Contributions(RiskRules, facts));
    var verdict := PolicyVerdict(inputs.effects);
    Twin(Some(verdict), FreshnessOf(inputs), checks, classification, risk,
         Project(verdict, classification, risk.score, dryRunFailed, isFinal))
  }

  /** The preliminary evaluation, before any dry run. */
  function Evaluate(inputs: Inputs): Twin {
    EvaluateWith(inputs, false, false, false)
  }

  // ----- Finalisation after the dry run -----

  /** Replaces the first dry-run check, or adds one. */
  function WithDryRun(checks: seq<Check>, passed: bool): seq<Check> {
    if checks == [] then [Check(AuthoritativeDryRun, passed)]
    else if checks[0].code == AuthoritativeDryRun then [Check(AuthoritativeDryRun, passed)] + checks[1..]
    else [checks[0]] + WithDryRun(checks[1..], passed)
  }

  function EvidenceWeight(weight: Option<nat>): nat {
    if weight.None? || weight.value == 0 then 20 else weight.value
  }

  /** Recalculates the first contribution of the evidence rule. */
  function WithEvidence(contributions: seq<Contribution>, weak: bool): seq<Contribution> {
    if contributions == [] then []
    else if contributions[0].rule == PartialOrStaleLiveEvidence then
      [contributions[0].(matched := weak,
                         contribution := if weak then EvidenceWeight(contributions[0].weight) else 0)]
                             + contributions[1..]
    else [contributions[0]] + WithEvidence(contributions[1..], weak)
  }

  datatype Result = Finalized(twin: Twin) | MissingVerdict

  /** The axes brought up to date in place, one after the other. */
  method FinalizePolicyTwin(stored: Twin, status: string) returns (r: Result)
    ensures r.MissingVerdict? <==> stored.verdict.None?
    ensures r.Finalized? ==> r.twin == FinalTwin(stored, Passed(status))
  {
    hide WithDryRun, WithEvidence, Classify, Project, Total, Text.Lower;
    var passed := Text.Lower(status) == "passed";
    var checks := ReplaceDryRun(stored.checks, passed);
    var classification := Classify(checks, stored.freshness);
    var contributions := RefreshEvidence(stored.risk.contributions, IsWeak(classification));
    var raw := Total(contributions);
    var risk := RiskAxis(Score(raw), raw, contributions);
    if stored.verdict.None? {
      return MissingVerdict;
    }
    var projection := Project(stored.verdict.value, classification, risk.score, !passed, true);
    r := Finalized(stored.(checks := checks, classification := classification, risk := risk, projection := projection));
  }

  predicate Passed(status: string) {
    Text.Lower(status) == "passed"
  }

  method ReplaceDryRun(stored: seq<Check>, passed: bool) returns (checks: seq<Check>)
    ensures checks == WithDryRun(stored, passed)
  {
    hide WithDryRun;
    checks := stored;
    var index := 0;
    while index < |checks|
      invariant index <= |stored| && checks == stored
      invariant WithDryRun(stored, passed) == stored[..index] + WithDryRun(stored[index..], passed)
    {
      DryRunFrom(stored, index, passed);
      if checks[index].code == AuthoritativeDryRun {
        checks := checks[index := Check(AuthoritativeDryRun, passed)];
        assert checks == stored[..index] + ([checks[index]] + stored[index + 1..]);
        return;
      }
      index := index + 1;
    }
    DryRunFrom(stored, index, passed);
    checks := checks + [Check(AuthoritativeDryRun, passed)];
  }

  lemma DryRunFrom(checks: seq<Check>, k: nat, passed: bool)
    requires k <= |checks|
    ensures k == |checks| ==>
              checks[..k] + WithDryRun(checks[k..], passed) == checks + [Check(AuthoritativeDryRun, passed)]
    ensures k < |checks| && checks[k].code == AuthoritativeDryRun ==>
              WithDryRun(checks[k..], passed) == [Check(AuthoritativeDryRun, passed)] + checks[k + 1..]
    ensures k < |checks| && checks[k].code != AuthoritativeDryRun ==>
              checks[..k] + WithDryRun(checks[k..], passed) == checks[..k + 1] + WithDryRun(checks[k + 1..], passed)
  {
    if k < |checks| {
      assert checks[k..][1..] == checks[k + 1..] && checks[k..][0] == checks[k];
    }
  }

  method RefreshEvidence(stored: seq<Contribution>, weak: bool) returns (contributions: seq<Contribution>)
    ensures contributions == WithEvidence(stored, weak)
  {
    hide WithEvidence, EvidenceWeight;
    contributions := stored;
    var i := 0;
    while i < |contributions|
      invariant i <= |stored| && contributions == stored
      invariant WithEvidence(stored, weak) == stored[..i] + WithEvidence(stored[i..], weak)
    {
      EvidenceFrom(stored, i, weak);
      if contributions[i].rule == PartialOrStaleLiveEvidence {
        contributions := contributions[i := contributions[i].(matched := weak,
          contribution := if weak then EvidenceWeight(contributions[i].weight) else 0)];
        assert contributions == stored[..i] + ([contributions[i]] + stored[i + 1..]);
        return;
      }
      i := i + 1;
    }
    EvidenceFrom(stored, i, weak);
  }

  lemma EvidenceFrom(stored: seq<Contribution>, k: nat, weak: bool)
    requires k <= |stored|
    ensures k == |stored| ==> stored[..k] + WithEvidence(stored[k..], weak) == stored
    ensures k < |stored| && stored[k].rule == PartialOrStaleLiveEvidence ==>
              WithEvidence(stored[k..], weak)
              == [stored[k].(matched := weak,
                             contribution := if weak then EvidenceWeight(stored[k].weight) else 0)] + stored[k + 1..]
    ensures k < |stored| && stored[k].rule != PartialOrStaleLiveEvidence ==>
              stored[..k] + WithEvidence(stored[k..], weak) == stored[..k + 1] + WithEvidence(stored[k + 1..], weak)
  {
    hide EvidenceWeight;
    if k < |stored| {
      assert stored[k..][1..] == stored[k + 1..] && stored[k..][0] == stored[k];
    }
  }

  function FinalTwin(stored: Twin, passed: bool): Twin
  {
    var checks := WithDryRun(stored.checks, passed);
    var classification := Classify(checks, stored.freshness);
    var contributions := WithEvidence(stored.risk.contributions, IsWeak(classification));
    var raw := Total(contributions);
    var verdict := if stored.verdict.Some? then stored.verdict.value else Denied;
    stored.(checks := checks, classification := classification,
            risk := RiskAxis(Score(raw), raw, contributions),
            projection := Project(verdict, classification, Score(raw), !passed, true))
  }

  // ----- Incremental equals from scratch -----

  lemma {:induction false} TotalIsMatchedWeight(rules: seq<(Rule, nat)>, facts: set<Rule>)
    ensures Total(Contributions(rules, facts)) == MatchedWeight(rules, facts)
  {
    if rules != [] {
      TotalIsMatchedWeight(rules[..|rules| - 1], facts);
      var all, init := Contributions(rules, facts), Contributions(rules[..|rules| - 1], facts);
      assert all[..|all| - 1] == init;
    }
  }

  /** Only the first contribution of the evidence rule is touched. */
  lemma {:induction false} WithEvidenceAt(contributions: seq<Contribution>, weak: bool, k: nat)
    requires k < |contributions| && contributions[k].rule == PartialOrStaleLiveEvidence
    requires forall i :: 0 <= i < k ==> contributions[i].rule != PartialOrStaleLiveEvidence
    ensures WithEvidence(contributions, weak)
         == contributions[k := contributions[k].(matched := weak,
              contribution := if weak then EvidenceWeight(contributions[k].weight) else 0)]
  {
    if k > 0 {
      WithEvidenceAt(contributions[1..], weak, k - 1);
    }
  }

  /** The evidence rule stands once among the rules, with a weight of its own. */
  predicate EvidenceRuleAt(rules: seq<(Rule, nat)>, k: nat) {
    && k < |rules| && rules[k] == (PartialOrStaleLiveEvidence, 20)
    && forall i :: 0 <= i < |rules| && i != k ==> rules[i].0 != PartialOrStaleLiveEvidence
  }

  lemma RefreshedContributions(rules: seq<(Rule, nat)>, k: nat, facts: set<Rule>, evidence: Classification,
      earlier: Classification)
    requires EvidenceRuleAt(rules, k)
    ensures WithEvidence(Contributions(rules, FactsWith(facts, earlier)), IsWeak(evidence))
         == Contributions(rules, FactsWith(facts, evidence))
  {
    var before := Contributions(rules, FactsWith(facts, earlier));
    WithEvidenceAt(before, IsWeak(evidence), k);
  }

  lemma ChecksAfterDryRun(inputs: Inputs, passed: bool)
    ensures WithDryRun(ChecksOf(inputs, false), passed) == ChecksOf(inputs, passed)
  {
    var four := [Check(BundleIntegrity, inputs.bundleIntegrity), Check(LiveNamespaceSnapshot, inputs.snapshotAvailable),
                 Check(DependencyIntegrity, inputs.dependencyIntegrity),
                     Check(RollbackEvidence, inputs.rollbackEvidence)];
    SkipOthers(four, [Check(AuthoritativeDryRun, false)], passed);
  }

  lemma {:induction false} SkipOthers(others: seq<Check>, rest: seq<Check>, passed: bool)
    requires forall c :: c in others ==> c.code != AuthoritativeDryRun
    ensures WithDryRun(others + rest, passed) == others + WithDryRun(rest, passed)
  {
    if others == [] {
      assert others + rest == rest;
    } else {
      assert (others + rest)[1..] == others[1..] + rest;
      SkipOthers(others[1..], rest, passed);
    }
  }

  /** Finalising a preliminary twin is the same as evaluating everything again with the dry run. */
  lemma FinalizeEqualsRescore(inputs: Inputs, passed: bool)
    ensures FinalTwin(Evaluate(inputs), passed) == EvaluateWith(inputs, passed, !passed, true)
  {
    hide Classify, Project, Contributions, MatchedWeight, WithEvidence, Total, ChecksOf;
    var rules := RiskRules;
    assert EvidenceRuleAt(rules, 10);
    var stored := Evaluate(inputs);
    ChecksAfterDryRun(inputs, passed);
    var evidence := Classify(ChecksOf(inputs, passed), FreshnessOf(inputs));
    RefreshedContributions(rules, 10, inputs.facts, evidence, stored.classification);
    TotalIsMatchedWeight(rules, FactsWith(inputs.facts, evidence));
  }

  /** The score of a finalised twin is the sum of the weights that hold, at most 100. */
  lemma FinalScore(inputs: Inputs, passed: bool)
    ensures var twin := FinalTwin(Evaluate(inputs), passed);
            var sum := MatchedWeight(RiskRules, FactsWith(inputs.facts, twin.classification));
            twin.risk.score == if sum < 100 then sum else 100
  {
    hide Contributions, MatchedWeight;
    FinalizeEqualsRescore(inputs, passed);
  }

  lemma {:induction false} MatchedWeightMonotone(rules: seq<(Rule, nat)>, a: set<Rule>, b: set<Rule>)
    requires a <= b
    ensures MatchedWeight(rules, a) <= MatchedWeight(rules, b)
  {
    if rules != [] {
      MatchedWeightMonotone(rules[..|rules| - 1], a, b);
    }
  }

  /** Without a dry run the evidence is never complete. */
  lemma PreliminaryIsWeak(inputs: Inputs)
    ensures IsWeak(Evaluate(inputs).classification)
  {
    hide MatchedWeight, Contributions, Project;
    assert Check(AuthoritativeDryRun, false) in ChecksOf(inputs, false);
    assert AuthoritativeDryRun in Missing(ChecksOf(inputs, false));
  }

  /** A passed dry run never raises the score and never worsens the colour. */
  lemma PassedDryRunNeverHurts(inputs: Inputs)
    ensures FinalTwin(Evaluate(inputs), true).risk.score <= Evaluate(inputs).risk.score
    ensures Rank(FinalTwin(Evaluate(inputs), true).projection.level) <= Rank(Evaluate(inputs).projection.level)
  {
    hide MatchedWeight, Contributions, ChecksOf, Classify;
    FinalizeEqualsRescore(inputs, true);
    PreliminaryIsWeak(inputs);
    var before := Evaluate(inputs);
    var after := Classify(ChecksOf(inputs, true), FreshnessOf(inputs));
    assert FactsWith(inputs.facts, after) <= FactsWith(inputs.facts, before.classification);
    MatchedWeightMonotone(RiskRules, FactsWith(inputs.facts, after), FactsWith(inputs.facts, before.classification));
  }

  // ----- The final decision -----

  /** The join in the service, as it is written there. */
  function FinalDecision(status: string, projected: Colour, runtimeEffect: string): Colour {
    var decision := if status != "passed" then Red else projected;
    if runtimeEffect == "force_red" then Red
    else if (runtimeEffect == "force_amber" || runtimeEffect == "require_review") && decision == Green then Amber
    else decision
  }

  function EffectColour(runtimeEffect: string): Colour {
    if runtimeEffect == "force_red" then Red
    else if runtimeEffect == "force_amber" || runtimeEffect == "require_review" then Amber
    else Green
  }

  /** The final colour is the worst of the dry run, the projection and the runtime effect. */
  lemma FinalDecisionIsTheJoin(status: string, projected: Colour, runtimeEffect: string)
    ensures FinalDecision(status, projected, runtimeEffect)
         == Worse(Worse(if status == "passed" then Green else Red, projected), EffectColour(runtimeEffect))
  {}

  /** Whatever was stored: green needs everything to agree, and red has exactly these causes. */
  lemma GreenNeedsEverything(stored: Twin, verdict: Verdict, status: string, runtimeEffect: string)
    requires stored.verdict == Some(verdict)
    ensures var twin := FinalTwin(stored, Passed(status));
            && (FinalDecision(status, twin.projection.level, runtimeEffect) == Green <==>
                  && status == "passed" && verdict == Allowed && twin.classification == Complete
                  && twin.risk.score <= GreenMax && EffectColour(runtimeEffect) == Green)
            && (FinalDecision(status, twin.projection.level, runtimeEffect) == Red <==>
                  || status != "passed" || verdict == Denied || twin.risk.score >= RedMin
                  || EffectColour(runtimeEffect) == Red)
  {
    hide WithDryRun, WithEvidence, Total, Classify;
    assert Passed("passed") by { PassedIsPassed(); }
  }

  lemma PassedIsPassed()
    ensures Passed("passed")
  {
    assert "passed" == ['p', 'a', 's', 's', 'e', 'd'];
  }

  /** Evidence is complete exactly when every check is satisfied and nothing is stale. */
  lemma CompleteIffAllSatisfied(checks: seq<Check>, freshness: Freshness)
    ensures Classify(checks, freshness) == Complete <==>
              freshness != IsStale && forall c :: c in checks ==> c.satisfied
  {
    hide Missing;
    forall c | c in checks && !c.satisfied ensures Missing(checks) != [] {
      assert c == Check(c.code, false);
      assert c.code in Missing(checks);
    }
    if Missing(checks) != [] {
      assert Missing(checks)[0] in Missing(checks);
      assert Check(Missing(checks)[0], false) in checks;
    }
  }

  /** The other classes: stale before all, unavailable without the bundle, partial for the rest. */
  lemma ClassesAre(checks: seq<Check>, freshness: Freshness)
    ensures Classify(checks, freshness) == Stale <==> freshness == IsStale
    ensures Classify(checks, freshness) == Unavailable <==>
              freshness != IsStale && Check(BundleIntegrity, false) in checks
    ensures Classify(checks, freshness) == Partial <==>
              && freshness != IsStale && Check(BundleIntegrity, false) !in checks
              && exists c :: c in checks && !c.satisfied
  {
    hide Missing, Classify;
    CompleteIffAllSatisfied(checks, freshness);
    StaleOrUnavailable(checks, freshness);
  }

  lemma StaleOrUnavailable(checks: seq<Check>, freshness: Freshness)
    ensures Classify(checks, freshness) == Stale <==> freshness == IsStale
    ensures Classify(checks, freshness) == Unavailable <==>
              freshness != IsStale && Check(BundleIntegrity, false) in checks
  {}

  // ----- The decision from the findings alone -----

  /** All evidence is there: the four checks hold, and the dry run has passed. */
  predicate HasAllEvidence(inputs: Inputs, passed: bool) {
    && inputs.bundleIntegrity && inputs.snapshotAvailable && inputs.dependencyIntegrity && inputs.rollbackEvidence
    && passed
  }

  lemma EvidenceIff(inputs: Inputs, passed: bool)
    ensures IsWeak(Classify(ChecksOf(inputs, passed), FreshnessOf(inputs))) <==> !HasAllEvidence(inputs, passed)
  {
    hide Missing, Classify;
    var checks := ChecksOf(inputs, passed);
    CompleteIffAllSatisfied(checks, FreshnessOf(inputs));
    assert checks[0] in checks && checks[1] in checks && checks[2] in checks && checks[3] in checks
        && checks[4] in checks;
    assert Classify(checks, FreshnessOf(inputs)) != Complete
      <==> IsWeak(Classify(checks, FreshnessOf(inputs)));
  }

  function Counted(facts: set<Rule>, rule: Rule, weight: nat): nat {
    if rule in facts then weight else 0
  }

  /** The risk that is counted, rule by rule; the evidence counts when some of it is missing. */
  function RiskOf(facts: set<Rule>, hasAllEvidence: bool): nat {
    Counted(facts, PvcCreateOrExplicitDelete, 30) + Counted(facts, StatefulsetChange, 25)
    + Counted(facts, HelmReleaseUpgrade, 20) + Counted(facts, ImageChange, 15)
    + Counted(facts, ConfigmapChange, 15) + Counted(facts, IngressChange, 15)
    + Counted(facts, ServiceSelectorChange, 20) + Counted(facts, LargeReplicaChange, 10)
    + Counted(facts, MissingRollbackStep, 30) + Counted(facts, InferredChartOrValue, 20)
    + (if hasAllEvidence then 0 else 20) + Counted(facts, PreviousSimilarFailure, 20)
        + Counted(facts, DriftDetected, 25)
  }

  lemma WeightNext(rules: seq<(Rule, nat)>, last: (Rule, nat), facts: set<Rule>)
    ensures MatchedWeight(rules + [last], facts) == MatchedWeight(rules, facts) + Counted(facts, last.0, last.1)
  {
    assert (rules + [last])[..|rules|] == rules;
  }

  lemma NextRule(k: nat, facts: set<Rule>)
    requires k < |RiskRules|
    ensures var r := RiskRules;
            MatchedWeight(r[..k + 1], facts) == MatchedWeight(r[..k], facts) + Counted(facts, r[k].0, r[k].1)
  {
    assert RiskRules[..k + 1] == RiskRules[..k] + [RiskRules[k]];
    WeightNext(RiskRules[..k], RiskRules[k], facts);
  }

  lemma RiskIs(facts: set<Rule>, hasAllEvidence: bool)
    requires hasAllEvidence <==> PartialOrStaleLiveEvidence !in facts
    ensures MatchedWeight(RiskRules, facts) == RiskOf(facts, hasAllEvidence)
  {
    var r := RiskRules;
    assert MatchedWeight(r[..0], facts) == 0;
    hide MatchedWeight;
    NextRule(0, facts);
    NextRule(1, facts);
    NextRule(2, facts);
    NextRule(3, facts);
    NextRule(4, facts);
    NextRule(5, facts);
    NextRule(6, facts);
    NextRule(7, facts);
    NextRule(8, facts);
    NextRule(9, facts);
    NextRule(10, facts);
    NextRule(11, facts);
    NextRule(12, facts);
    assert r[..13] == r;
  }

  /** An evaluation in terms of its findings: the colour and the first rule that decides it. */
  lemma EvaluationIs(inputs: Inputs, passed: bool, failed: bool, isFinal: bool)
    ensures var twin := EvaluateWith(inputs, passed, failed, isFinal);
            var complete := HasAllEvidence(inputs, passed);
            var risk, deny, approval := RiskOf(inputs.facts, complete), Deny in inputs.effects,
                ApprovalRequired in inputs.effects;
            && (twin.projection.level == Red <==> deny || failed || risk >= 71)
            && (twin.projection.level == Green <==> !deny && !failed && !approval && complete && risk <= 30)
            && twin.projection.rule ==
                 (if deny then PolicyDenyOrHardBlock
                  else if failed then AuthoritativeDryRunFailed
                  else if risk >= 71 then CriticalUnmitigatedRisk
                  else if approval then ApprovalIsRequired
                  else if !complete then EvidencePartialStaleOrUnavailable
                  else if risk >= 31 then RiskAboveGreenBand else OtherwiseGreen)
            && twin.projection.isFinal == isFinal && twin.risk.score == if risk < 100 then risk else 100
  {
    hide Classify, MatchedWeight, Contributions, ChecksOf, RiskOf, HasAllEvidence, FreshnessOf;
    EvidenceIff(inputs, passed);
    var facts := FactsWith(inputs.facts, Classify(ChecksOf(inputs, passed), FreshnessOf(inputs)));
    RiskIs(facts, HasAllEvidence(inputs, passed));
    SameRisk(facts, inputs.facts, HasAllEvidence(inputs, passed));
  }

  lemma SameRisk(a: set<Rule>, b: set<Rule>, hasAllEvidence: bool)
    requires forall rule :: rule != PartialOrStaleLiveEvidence ==> (rule in a <==> rule in b)
    ensures RiskOf(a, hasAllEvidence) == RiskOf(b, hasAllEvidence)
  {
    assert forall rule, weight ::
        rule != PartialOrStaleLiveEvidence ==> Counted(a, rule, weight) == Counted(b, rule, weight);
    hide Counted;
  }

  /** Before the dry run the colour is amber at best, and red exactly for a denial or a critical risk. */
  lemma PreliminaryColour(inputs: Inputs)
    ensures Evaluate(inputs).projection.level
         == if Deny in inputs.effects || RiskOf(inputs.facts, false) >= 71 then Red else Amber
  {
    hide EvaluateWith, RiskOf;
    EvaluationIs(inputs, false, false, false);
  }

  /**
   * The decision from the findings alone, whatever else was found: a denial makes it red, and so do
   * a dry run that did not pass, a critical risk and runtime evidence that says so. It is green
   * only without a denial and without a required approval, on complete evidence and at low risk.
   */
  lemma DecisionFromFindings(inputs: Inputs, status: string, runtimeEffect: string)
    ensures var twin := FinalTwin(Evaluate(inputs), Passed(status));
            var decision := FinalDecision(status, twin.projection.level, runtimeEffect);
            var complete := HasAllEvidence(inputs, true);
            && (decision == Red <==>
                  || Deny in inputs.effects || status != "passed" || RiskOf(inputs.facts, complete) >= 71
                  || runtimeEffect == "force_red")
            && (decision == Green <==>
                  && Deny !in inputs.effects && ApprovalRequired !in inputs.effects && status == "passed"
                  && complete && RiskOf(inputs.facts, complete) <= 30
                  && runtimeEffect !in {"force_red", "force_amber", "require_review"})
  {
    hide RiskOf, HasAllEvidence, EvaluateWith, Evaluate, FinalTwin, Text.Lower;
    assert Passed("passed") by { PassedIsPassed(); }
    FinalizeEqualsRescore(inputs, Passed(status));
    EvaluationIs(inputs, Passed(status), !Passed(status), true);
  }
}
