/**
 The KPI gate of job mcc-03: which checks a trained candidate must pass, and what a passing result
 says about its metrics. The feature hash of the running code is a parameter.
 */
module KpiGate {
  import opened Options

  datatype Metrics = Metrics(auroc: real, brier: real, prAuc: real, baseRate: real)

  /** model_meta.json; `registryVersion` is added only to a champion that was registered. */
  datatype Meta = Meta(gitSha: string, modelVersion: string, featureHash: string, test: Metrics,
                       registryVersion: Option<nat>)

  datatype GateRules = GateRules(minAuroc: real, maxBrier: real, minPrAucLift: Option<real>,
                                 requireFeatureHashMatch: bool, maxAurocRegression: real)

  datatype Comparison = AtLeast | AtMost | Equal

  datatype Check = Check(name: string, value: real, op: Comparison, limit: real, ok: bool) {
    predicate Holds() {
      match op
      case AtLeast => value >= limit
      case AtMost => value <= limit
      case Equal => value == limit
    }
  }

  /** The lift check is on when the rule is present and not zero. */
  predicate LiftRequired(rules: GateRules) {
    rules.minPrAucLift.Some? && rules.minPrAucLift.value != 0.0
  }

  function BaseChecks(t: Metrics, rules: GateRules): seq<Check> {
    [Check("auroc", t.auroc, AtLeast, rules.minAuroc, t.auroc >= rules.minAuroc),
     Check("brier", t.brier, AtMost, rules.maxBrier, t.brier <= rules.maxBrier)]
  }

  function LiftChecks(t: Metrics, rules: GateRules): seq<Check> {
    if !LiftRequired(rules) then [] else
    var floor := rules.minPrAucLift.value * t.baseRate;
    [Check("pr_auc_vs_base_rate", t.prAuc, AtLeast, floor, t.prAuc >= floor)]
  }

  function HashChecks(meta: Meta, rules: GateRules, codeHash: string): seq<Check> {
    if !rules.requireFeatureHashMatch then [] else
    var same := meta.featureHash == codeHash;
    [Check("feature_hash_match", if same then 1.0 else 0.0, Equal, 1.0, same)]
  }

  function RegressionChecks(meta: Meta, rules: GateRules, champion: Option<Meta>): seq<Check> {
    if champion.None? || champion.value.featureHash != meta.featureHash then [] else
    var floor := champion.value.test.auroc - rules.maxAurocRegression;
    [Check("auroc_vs_champion", meta.test.auroc, AtLeast, floor, meta.test.auroc >= floor)]
  }

  function Evaluate(meta: Meta, rules: GateRules, codeHash: string, champion: Option<Meta>): seq<Check> {
    BaseChecks(meta.test, rules) + LiftChecks(meta.test, rules) + HashChecks(meta, rules, codeHash)
      + RegressionChecks(meta, rules, champion)
  }

  predicate AllOk(checks: seq<Check>) {
    checks == [] || (checks[0].ok && AllOk(checks[1..]))
  }

  /** What a head's rules ask of the candidate alone. */
  predicate MeetsThresholds(test: Metrics, rules: GateRules) {
    && test.auroc >= rules.minAuroc
    && test.brier <= rules.maxBrier
    && (rules.minPrAucLift.Some? && rules.minPrAucLift.value != 0.0 ==>
          test.prAuc >= rules.minPrAucLift.value * test.baseRate)
  }

  /** What the rules ask against the champion that is serving. */
  predicate NoRegression(meta: Meta, rules: GateRules, champion: Option<Meta>) {
    champion.Some? && champion.value.featureHash == meta.featureHash ==>
      meta.test.auroc >= champion.value.test.auroc - rules.maxAurocRegression
  }

  predicate MeetsGate(meta: Meta, rules: GateRules, codeHash: string, champion: Option<Meta>) {
    && MeetsThresholds(meta.test, rules)
    && (rules.requireFeatureHashMatch ==> meta.featureHash == codeHash)
    && NoRegression(meta, rules, champion)
  }

  /** The list of checks passes exactly when the candidate meets the thresholds and does not regress. */
  lemma GateIsExact(meta: Meta, rules: GateRules, codeHash: string, champion: Option<Meta>)
    ensures AllOk(Evaluate(meta, rules, codeHash, champion)) <==> MeetsGate(meta, rules, codeHash, champion)
  {
    var base, lift := BaseChecks(meta.test, rules), LiftChecks(meta.test, rules);
    var hash, regression := HashChecks(meta, rules, codeHash), RegressionChecks(meta, rules, champion);
    AllOkOfConcat(base, lift);
    AllOkOfConcat(base + lift, hash);
    AllOkOfConcat(base + lift + hash, regression);
    assert AllOk(base[1..]) <==> base[1].ok;
  }

  lemma {:induction false} AllOkOfConcat(a: seq<Check>, b: seq<Check>)
    ensures AllOk(a + b) <==> AllOk(a) && AllOk(b)
  {
    if a == [] {
      assert a + b == b;
    } else {
      AllOkOfConcat(a[1..], b);
      assert (a + b)[1..] == a[1..] + b;
    }
  }

  /** The verdict written next to each check is the comparison it names. */
  lemma ChecksAreHonest(meta: Meta, rules: GateRules, codeHash: string, champion: Option<Meta>)
    ensures forall c <- Evaluate(meta, rules, codeHash, champion) :: c.ok == c.Holds()
  {
    var base, lift := BaseChecks(meta.test, rules), LiftChecks(meta.test, rules);
    var hash, regression := HashChecks(meta, rules, codeHash), RegressionChecks(meta, rules, champion);
    forall c: Check | c in base + lift + hash + regression
      ensures c.ok == c.Holds()
    {
      assert c in base || c in lift || c in hash || c in regression;
    }
  }
}
