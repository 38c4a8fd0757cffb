/**
 Whole histories of one project: chain runs (mcc-02, 03, 04 through job dependencies, one chain at
 a time) with any failure or kill, and mode changes (mcc-07) in between.
 */
module ChainRuns {
  import opened Options
  import opened KpiGate
  import opened ModelDirs
  import opened ChainJobs
  import opened ServingMode

  /** The project's fixed rules, per head and for mode changes; head 0 is the approval head. */
  datatype Config = Config(gates: seq<GateRules>, modes: ServingMode.Rules)

  datatype Event =
    | Chain(codeHash: string, trained: seq<Training>, stamps: seq<int>, versions: seq<Option<nat>>, end: End)
    | Mode(request: Request)

  /** Training refuses a feature table of other feature logic and stamps its own hash on the candidate. */
  predicate Fits(e: Event, heads: seq<Head>) {
    match e
    case Chain(codeHash, trained, stamps, versions, end) =>
      && |trained| == |stamps| == |versions| == |heads|
      && (forall t <- trained | t.Fit? :: t.meta.featureHash == codeHash)
      && EndFits(end, |heads|)
      && (forall i | 0 <= i < |heads| :: stamps[i] !in heads[i].archive)
    case Mode(r) => |heads| > 0
  }

  datatype Result = Result(heads: seq<Head>, reached: Reached)

  /** How far a chain run came. */
  datatype Reached = TrainingFailed | GateFailed | DeployJob(outcome: Outcome) | ModeJob

  function Step(heads: seq<Head>, e: Event, cfg: Config): (r: Result)
    requires |heads| == |cfg.gates| && Fits(e, heads)
    ensures |r.heads| == |heads|
  {
    match e
    case Chain(codeHash, trained, stamps, versions, end) =>
      var afterTrain := TrainEffect(heads, trained);
      if !AllFit(trained) then Result(afterTrain, TrainingFailed) else
      var afterGate := GateEffect(afterTrain, cfg.gates, codeHash);
      if !GatePasses(afterTrain, cfg.gates, codeHash) then Result(afterGate, GateFailed) else
      Result(DeployEffect(afterGate, stamps, versions, end), DeployJob(DeployOutcome(afterGate, end)))
    case Mode(r) =>
      Result(heads[0 := Moved(heads[0], r, cfg.modes)], ModeJob)
  }

  /** The chain as the jobs run it: each job starts only when the one before it succeeded. */
  method RunChain(p: Project, cfg: Config, e: Event) returns (reached: Reached)
    requires p.Valid() && p.rules == cfg.gates && e.Chain? && Fits(e, p.heads)
    modifies p
    ensures p.Valid() && Result(p.heads, reached) == Step(old(p.heads), e, cfg)
  {
    var trained := p.TrainJob(e.trained);
    if !trained {
      return TrainingFailed;
    }
    var passed := p.GateJob(e.codeHash);
    if !passed {
      return GateFailed;
    }
    var outcome := p.DeployJob(e.stamps, e.versions, e.end);
    return DeployJob(outcome);
  }

  /** `trace` is the history of the project through `events`: trace[k] is the state before event k. */
  ghost predicate IsHistory(trace: seq<seq<Head>>, events: seq<Event>, cfg: Config) {
    && |trace| == |events| + 1
    && (forall k | 0 <= k < |trace| :: |trace[k]| == |cfg.gates|)
    && (forall k | 0 <= k < |events| :: IsStep(trace[k], events[k], trace[k + 1], cfg))
  }

  ghost predicate IsStep(before: seq<Head>, e: Event, after: seq<Head>, cfg: Config)
    requires |before| == |cfg.gates|
  {
    Fits(e, before) && after == Step(before, e, cfg).heads
  }

  /* ---- one chain run ---- */

  /** When job 03 has passed every head, job 04 refuses none of them. */
  lemma GatedChainIsNotRefused(heads: seq<Head>, e: Event, cfg: Config)
    requires |heads| == |cfg.gates| && e.Chain? && Fits(e, heads) && AllFit(e.trained)
    ensures var t := TrainEffect(heads, e.trained);
            GatePasses(t, cfg.gates, e.codeHash) ==> DeployReach(GateEffect(t, cfg.gates, e.codeHash)) == |heads|
  {
  }

  /** The same champions and archives; only candidates may differ. */
  predicate SameServing(a: seq<Head>, b: seq<Head>) {
    |a| == |b| && forall i | 0 <= i < |a| :: a[i].champion == b[i].champion && a[i].archive == b[i].archive
  }

  lemma TrainingKeepsServing(heads: seq<Head>, trained: seq<Training>)
    requires |heads| == |trained|
    ensures SameServing(heads, TrainEffect(heads, trained))
  {
  }

  lemma GatingKeepsServing(heads: seq<Head>, rules: seq<GateRules>, codeHash: string)
    requires |heads| == |rules|
    ensures SameServing(heads, GateEffect(heads, rules, codeHash))
  {
  }

  /** A deployed head: the candidate as it was gated, registered, with the old champion in the archive. */
  predicate Replaced(before: Head, after: Head, stamp: int, version: Option<nat>)
    requires before.candidate.meta.Some?
  {
    var meta := before.candidate.meta.value;
    && after.champion == Some(Champion(before.candidate.artifact,
                                       if version.Some? then meta.(registryVersion := version) else meta,
                                       before.candidate.gate, None))
    && after.archive == if before.champion.Some? then before.archive[stamp := before.champion.value] else before.archive
  }

  lemma DeployedIsReplaced(heads: seq<Head>, stamps: seq<int>, versions: seq<Option<nat>>, end: End, i: nat)
    requires |heads| == |stamps| == |versions| && EndFits(end, |heads|) && i < |heads|
    requires DeployOutcome(heads, end) == Deployed
    ensures heads[i].candidate.meta.Some? && heads[i].candidate.gate.Some?
    ensures Replaced(heads[i], DeployEffect(heads, stamps, versions, end)[i], stamps[i], versions[i])
  {
  }

  /** The candidates as jobs 02 and 03 leave them for job 04. */
  function Candidates(heads: seq<Head>, e: Event, cfg: Config): (gated: seq<Head>)
    requires |heads| == |cfg.gates| && e.Chain? && Fits(e, heads)
    ensures |gated| == |heads|
  {
    GateEffect(TrainEffect(heads, e.trained), cfg.gates, e.codeHash)
  }

  /** After a training that succeeded, job 04 finds the new model with the gate's verdict on it. */
  lemma CandidatesAreNew(heads: seq<Head>, e: Event, cfg: Config, i: nat)
    requires |heads| == |cfg.gates| && e.Chain? && Fits(e, heads) && AllFit(e.trained) && i < |heads|
    ensures var c := Candidates(heads, e, cfg)[i].candidate;
            && c.artifact == e.trained[i].artifact && c.meta == Some(e.trained[i].meta)
            && c.gate == Some(GateOutcome(Trained(heads[i], e.trained[i]), cfg.gates[i], e.codeHash))
  {
  }

  /**
   A run that is not killed replaces every head's champion by the model it trained and gated, or
   changes no champion and no archive at all: the heads are never mixed.
   */
  lemma RunIsAllOrNothing(heads: seq<Head>, e: Event, cfg: Config)
    requires |heads| == |cfg.gates| && e.Chain? && Fits(e, heads) && e.end.Finished?
    ensures var r := Step(heads, e, cfg);
            if r.reached == DeployJob(Deployed) then
              && AllFit(e.trained)
              && var gated := Candidates(heads, e, cfg);
                 && SameServing(heads, gated)
                 && forall i | 0 <= i < |heads| ::
                      gated[i].candidate.meta.Some? && Replaced(gated[i], r.heads[i], e.stamps[i], e.versions[i])
            else
              r.reached != DeployJob(Refused) && SameServing(heads, r.heads)
  {
    TrainingKeepsServing(heads, e.trained);
    if AllFit(e.trained) {
      var t, gated := TrainEffect(heads, e.trained), Candidates(heads, e, cfg);
      GatingKeepsServing(t, cfg.gates, e.codeHash);
      assert SameServing(heads, gated);
      if GatePasses(t, cfg.gates, e.codeHash) {
        GatedChainIsNotRefused(heads, e, cfg);
        if e.end.deployed {
          forall i | 0 <= i < |heads|
            ensures gated[i].candidate.meta.Some?
            ensures Replaced(gated[i], Step(heads, e, cfg).heads[i], e.stamps[i], e.versions[i])
          {
            DeployedIsReplaced(gated, e.stamps, e.versions, e.end, i);
          }
        }
      }
    }
  }

  /** Failing the gate, like a failed deployment, leaves the served modes; a new champion is in shadow. */
  lemma RunAndServedMode(heads: seq<Head>, e: Event, cfg: Config, i: nat)
    requires |heads| == |cfg.gates| && e.Chain? && Fits(e, heads) && e.end.Finished? && i < |heads|
    ensures var r := Step(heads, e, cfg);
            ServedMode(r.heads[i]) == if r.reached == DeployJob(Deployed) then "shadow" else ServedMode(heads[i])
  {
    RunIsAllOrNothing(heads, e, cfg);
  }

  /* ---- what holds in every reachable state ---- */

  /** The champion carries the passing gate result of its own version, and its metrics meet the head's rules. */
  predicate ChampionSound(c: Champion, rules: GateRules, modes: ServingMode.Rules) {
    && c.gate.Some? && c.gate.value.passed && AllOk(c.gate.value.checks)
    && c.gate.value.modelVersion == c.meta.modelVersion
    && c.gate.value.candidateGitSha == c.meta.gitSha
    && MeetsThresholds(c.meta.test, rules)
    && ModeSound(c, modes)
  }

  predicate HeadSound(h: Head, rules: GateRules, modes: ServingMode.Rules) {
    && (h.champion.Some? ==> ChampionSound(h.champion.value, rules, modes))
    && (forall s <- h.archive :: ChampionSound(h.archive[s], rules, modes))
  }

  predicate Sound(heads: seq<Head>, cfg: Config) {
    |heads| == |cfg.gates| && forall i | 0 <= i < |heads| :: HeadSound(heads[i], cfg.gates[i], cfg.modes)
  }

  lemma PromotedSound(h: Head, stamp: int, version: Option<nat>, rules: GateRules, modes: ServingMode.Rules,
                      codeHash: string)
    requires HeadSound(h, rules, modes) && h.candidate.meta.Some?
    requires GateOutcome(h, rules, codeHash).passed
    ensures HeadSound(Archived(Gated(h, rules, codeHash), stamp), rules, modes)
    ensures HeadSound(Promoted(Gated(h, rules, codeHash), stamp), rules, modes)
    ensures var registered := Registered(Promoted(Gated(h, rules, codeHash), stamp), version);
      HeadSound(registered, rules, modes) && HeadSound(registered.(champion := None), rules, modes)
  {
    GateIsExact(h.candidate.meta.value, rules, codeHash, ChampionMeta(h));
  }

  lemma DeploySound(heads: seq<Head>, stamps: seq<int>, versions: seq<Option<nat>>, end: End, codeHash: string,
                    cfg: Config)
    requires Sound(heads, cfg) && |stamps| == |versions| == |heads| && EndFits(end, |heads|)
    requires GatePasses(heads, cfg.gates, codeHash)
    ensures Sound(DeployEffect(GateEffect(heads, cfg.gates, codeHash), stamps, versions, end), cfg)
  {
    var gated := GateEffect(heads, cfg.gates, codeHash);
    forall i | 0 <= i < |heads|
      ensures HeadSound(DeployEffect(gated, stamps, versions, end)[i], cfg.gates[i], cfg.modes)
    {
      PromotedSound(heads[i], stamps[i], versions[i], cfg.gates[i], cfg.modes, codeHash);
      assert gated[i] == Gated(heads[i], cfg.gates[i], codeHash);
      DeployedForms(gated, stamps, versions, end, i);
    }
  }

  lemma StepSound(heads: seq<Head>, e: Event, cfg: Config)
    requires Sound(heads, cfg) && Fits(e, heads)
    ensures Sound(Step(heads, e, cfg).heads, cfg)
  {
    match e
    case Chain(codeHash, trained, stamps, versions, end) =>
      var t := TrainEffect(heads, trained);
      assert Sound(t, cfg);
      if AllFit(trained) && GatePasses(t, cfg.gates, codeHash) {
        DeploySound(t, stamps, versions, end, codeHash, cfg);
      }
    case Mode(r) =>
      if heads[0].champion.Some? {
        var c := heads[0].champion.value;
        DecideIsExact(r.target, r.approver, c.gate, Found(r, c.meta.modelVersion, cfg.modes), cfg.modes);
      }
  }

  /**
   In every history, whatever fails or is killed: each champion (serving or archived) passed the
   gate with its own metrics, and every mode file names its champion's version and was allowed for it.
   */
  lemma {:induction false} EveryServingChampionPassedTheGate(trace: seq<seq<Head>>, events: seq<Event>, cfg: Config,
                                                             k: nat)
    requires IsHistory(trace, events, cfg) && k < |trace| && Sound(trace[0], cfg)
    ensures Sound(trace[k], cfg)
  {
    if k > 0 {
      EveryServingChampionPassedTheGate(trace, events, cfg, k - 1);
      assert IsStep(trace[k - 1], events[k - 1], trace[k - 1 + 1], cfg);
      StepSound(trace[k - 1], events[k - 1], cfg);
    }
  }

  /** The head has this champion, serving or archived. */
  predicate Holds(h: Head, c: Champion) {
    h.champion == Some(c) || exists s <- h.archive :: h.archive[s] == c
  }

  /** The mode file of the champion is what the job writes for this request and this champion's own version. */
  ghost predicate FiledBy(c: Champion, r: Request, modes: ServingMode.Rules) {
    c.mode.Some? && IsFileOf(c.mode.value, c, r, modes)
  }

  /** A champion with a mode file was there before the event, or the event is the mode change that filed it. */
  lemma StepOrigin(heads: seq<Head>, e: Event, cfg: Config, i: nat, c: Champion)
    requires |heads| == |cfg.gates| && Fits(e, heads) && i < |heads|
    requires Holds(Step(heads, e, cfg).heads[i], c) && c.mode.Some?
    ensures Holds(heads[i], c) || (e.Mode? && FiledBy(c, e.request, cfg.modes))
  {
    if e.Chain? {
      var gated := Candidates(heads, e, cfg);
      TrainingKeepsServing(heads, e.trained);
      GatingKeepsServing(TrainEffect(heads, e.trained), cfg.gates, e.codeHash);
      if ReachesDeployJob(heads, e, cfg) {
        DeployOrigin(gated, e.stamps, e.versions, e.end, i, c);
      }
    } else if i == 0 && heads[0].champion.Some? {
      MovedIff(heads[0], e.request, cfg.modes);
    }
  }

  /** Where job 04 can leave a head. */
  lemma DeployedForms(heads: seq<Head>, stamps: seq<int>, versions: seq<Option<nat>>, end: End, i: nat)
    requires |heads| == |stamps| == |versions| && EndFits(end, |heads|) && i < |heads|
    ensures DeployEffect(heads, stamps, versions, end)[i] in {heads[i], Archived(heads[i], stamps[i])}
         || (heads[i].candidate.meta.Some?
             && var promoted := Promoted(heads[i], stamps[i]);
                var registered := Registered(promoted, versions[i]);
                DeployEffect(heads, stamps, versions, end)[i] in {promoted, registered, registered.(champion := None)})
  {
  }

  lemma ArchivedOrigin(h: Head, stamp: int, c: Champion)
    requires Holds(Archived(h, stamp), c)
    ensures Holds(h, c)
  {
  }

  lemma DeployOrigin(heads: seq<Head>, stamps: seq<int>, versions: seq<Option<nat>>, end: End, i: nat, c: Champion)
    requires |heads| == |stamps| == |versions| && EndFits(end, |heads|) && i < |heads|
    requires Holds(DeployEffect(heads, stamps, versions, end)[i], c) && c.mode.Some?
    ensures Holds(heads[i], c)
  {
    DeployedForms(heads, stamps, versions, end, i);
    var h, after := heads[i], DeployEffect(heads, stamps, versions, end)[i];
    if after != h {
      assert after.archive == Archived(h, stamps[i]).archive;
      assert after.champion != Some(c);
      ArchivedOrigin(h, stamps[i], c);
    }
  }

  lemma {:induction false} ModeOrigin(trace: seq<seq<Head>>, events: seq<Event>, cfg: Config, k: nat, i: nat,
                                      c: Champion)
    requires IsHistory(trace, events, cfg) && k < |trace| && i < |cfg.gates| && Holds(trace[k][i], c) && c.mode.Some?
    ensures || Holds(trace[0][i], c)
            || exists j | 0 <= j < k :: events[j].Mode? && FiledBy(c, events[j].request, cfg.modes)
  {
    if k > 0 {
      assert IsStep(trace[k - 1], events[k - 1], trace[k - 1 + 1], cfg);
      StepOrigin(trace[k - 1], events[k - 1], cfg, i, c);
      if Holds(trace[k - 1][i], c) {
        ModeOrigin(trace, events, cfg, k - 1, i, c);
      }
    }
  }

  /**
   In every reachable state "assist" has a named approver, a passing gate, and the evidence that the job looked
   up for this very version: rows of the score table with the champion's own version, enough of them and in
   agreement. The one exception is a champion that had its mode file when the history began.
   */
  lemma AssistIsEarned(trace: seq<seq<Head>>, events: seq<Event>, cfg: Config, k: nat, i: nat)
    requires IsHistory(trace, events, cfg) && k < |trace| && i < |trace[k]| && Sound(trace[0], cfg)
    requires ServedMode(trace[k][i]) == "assist"
    ensures trace[k][i].champion.Some? && trace[k][i].champion.value.mode.Some?
    ensures var c := trace[k][i].champion.value;
      && c.mode.value.approvedBy != "" && c.mode.value.modelVersion == c.meta.modelVersion
      && c.gate.Some? && c.gate.value.passed && EnoughEvidence(c.mode.value.evidence, cfg.modes)
      && (Holds(trace[0][i], c) || exists j | 0 <= j < k :: events[j].Mode? && Earned(c, events[j].request, cfg.modes))
  {
    EveryServingChampionPassedTheGate(trace, events, cfg, k);
    var c := trace[k][i].champion.value;
    ModeOrigin(trace, events, cfg, k, i, c);
    if j :| 0 <= j < k && events[j].Mode? && FiledBy(c, events[j].request, cfg.modes) {
      FiledIsEarned(c, events[j].request, cfg.modes);
    }
  }

  lemma FiledIsEarned(c: Champion, r: Request, modes: ServingMode.Rules)
    requires FiledBy(c, r, modes) && ModeSound(c, modes) && c.mode.value.mode == "assist"
    ensures Earned(c, r, modes)
  {
  }

  /** The request named the approver, and its score table held enough rows of the champion's version. */
  ghost predicate Earned(c: Champion, r: Request, modes: ServingMode.Rules) {
    && FiledBy(c, r, modes) && r.target == "assist" && r.approver != ""
    && EnoughRows(r.table, c.meta.modelVersion, modes)
  }

  /* ---- how far the AUROC can fall ---- */

  /** The run passed the gate with every head, so that job 04 began. */
  predicate ReachesDeployJob(heads: seq<Head>, e: Event, cfg: Config)
    requires |heads| == |cfg.gates| && Fits(e, heads)
  {
    e.Chain? && AllFit(e.trained) && GatePasses(TrainEffect(heads, e.trained), cfg.gates, e.codeHash)
  }

  /** Job 04, ending so, leaves a new champion in place for head `i`. */
  predicate PutsNew(end: End, i: nat) {
    match end
    case Finished(deployed) => deployed
    case KilledPromoting(promoted, _) => i < promoted
    case KilledDeploying(_) => true
    case KilledRollingBack(restored, dropped) => i > restored || (i == restored && !dropped)
  }

  /**
   Job 04, ending so, leaves head `i` between two steps: its champion archived and the candidate not copied,
   or the new champion deleted and the archived one not moved back.
   */
  predicate BetweenSteps(end: End, i: nat) {
    || (end.KilledPromoting? && end.moved && end.promoted == i)
    || (end.KilledRollingBack? && end.dropped && end.restored == i)
  }

  /** The run put a new champion in place for head `i` (also when it was killed afterwards). */
  predicate Promotes(heads: seq<Head>, e: Event, cfg: Config, i: nat)
    requires |heads| == |cfg.gates| && Fits(e, heads) && i < |heads|
  {
    ReachesDeployJob(heads, e, cfg) && PutsNew(e.end, i)
  }

  /** The run was killed between the two steps of promoting or of rolling back head `i`. */
  predicate LosesChampion(heads: seq<Head>, e: Event, cfg: Config, i: nat)
    requires |heads| == |cfg.gates| && Fits(e, heads)
  {
    ReachesDeployJob(heads, e, cfg) && BetweenSteps(e.end, i)
  }

  /** An event under the same feature logic that does not lose head `i`'s champion. */
  predicate KeepsLogicAndChampion(heads: seq<Head>, e: Event, cfg: Config, i: nat, hash: string) {
    && |heads| == |cfg.gates| && Fits(e, heads)
    && (e.Chain? ==> e.codeHash == hash)
    && !LosesChampion(heads, e, cfg, i)
  }

  function Times(n: nat, x: real): real {
    n as real * x
  }

  /** Of two champions of feature logic `hash`, the later is worse by at most `n` allowed regressions. */
  predicate Within(before: Option<Champion>, after: Option<Champion>, n: nat, loss: real, hash: string) {
    before.Some? && before.value.meta.featureHash == hash ==>
      && after.Some? && after.value.meta.featureHash == hash
      && after.value.meta.test.auroc >= before.value.meta.test.auroc - Times(n, loss)
  }

  lemma WithinAdds(a: Option<Champion>, b: Option<Champion>, c: Option<Champion>, m: nat, n: nat, loss: real,
                   hash: string)
    requires Within(a, b, m, loss, hash) && Within(b, c, n, loss, hash)
    ensures Within(a, c, m + n, loss, hash)
  {
    assert Times(m + n, loss) == Times(m, loss) + Times(n, loss);
  }

  lemma StepAuroc(heads: seq<Head>, e: Event, cfg: Config, i: nat, hash: string)
    requires |heads| == |cfg.gates| && Fits(e, heads) && i < |heads|
    requires (e.Chain? ==> e.codeHash == hash) && !LosesChampion(heads, e, cfg, i)
    ensures Within(heads[i].champion, Step(heads, e, cfg).heads[i].champion,
                   if Promotes(heads, e, cfg, i) then 1 else 0, cfg.gates[i].maxAurocRegression, hash)
  {
    if e.Chain? {
      var t := TrainEffect(heads, e.trained);
      TrainingKeepsServing(heads, e.trained);
      if AllFit(e.trained) {
        GatingKeepsServing(t, cfg.gates, e.codeHash);
        if GatePasses(t, cfg.gates, e.codeHash) {
          GatedChainIsNotRefused(heads, e, cfg);
          CandidatesAreNew(heads, e, cfg, i);
          NewMeta(Candidates(heads, e, cfg), e.stamps, e.versions, e.end, i);
          PassingMeetsGate(t, cfg.gates, e.codeHash, i);
          WithinOne(heads[i].champion, Step(heads, e, cfg).heads[i].champion, cfg.gates[i].maxAurocRegression, hash);
        }
      }
    }
  }

  lemma PassingMeetsGate(heads: seq<Head>, rules: seq<GateRules>, codeHash: string, i: nat)
    requires |heads| == |rules| && GatePasses(heads, rules, codeHash) && i < |heads|
    ensures heads[i].candidate.meta.Some?
    ensures MeetsGate(heads[i].candidate.meta.value, rules[i], codeHash, ChampionMeta(heads[i]))
  {
    GateIsExact(heads[i].candidate.meta.value, rules[i], codeHash, ChampionMeta(heads[i]));
  }

  lemma WithinOne(before: Option<Champion>, after: Option<Champion>, loss: real, hash: string)
    ensures before == after ==> Within(before, after, 0, loss, hash)
    ensures (before.Some? && after.Some? && after.value.meta.featureHash == hash
             && after.value.meta.test.auroc >= before.value.meta.test.auroc - loss)
            ==> Within(before, after, 1, loss, hash)
    ensures before.None? ==> Within(before, after, 1, loss, hash)
  {
    assert Times(0, loss) == 0.0 && Times(1, loss) == loss;
  }

  /** Job 04 leaves the champion, or puts the candidate's metrics in its place, unless it is killed in between. */
  lemma NewMeta(gated: seq<Head>, stamps: seq<int>, versions: seq<Option<nat>>, end: End, i: nat)
    requires |gated| == |stamps| == |versions| && EndFits(end, |gated|) && i < |gated|
    requires DeployReach(gated) == |gated|
    requires !BetweenSteps(end, i)
    ensures var after := DeployEffect(gated, stamps, versions, end)[i].champion;
            var meta := gated[i].candidate.meta;
            && meta.Some?
            && if PutsNew(end, i)
               then after.Some? && after.value.meta.test == meta.value.test
                    && after.value.meta.featureHash == meta.value.featureHash
               else after == gated[i].champion
  {
  }

  function Trues(flags: seq<bool>): nat {
    if flags == [] then 0 else Trues(flags[..|flags| - 1]) + if flags[|flags| - 1] then 1 else 0
  }

  lemma {:induction false} LossesAdd(champions: seq<Option<Champion>>, promoted: seq<bool>, loss: real, hash: string)
    requires |champions| == |promoted| + 1
    requires forall k | 0 <= k < |promoted| ::
               Within(champions[k], champions[k + 1], if promoted[k] then 1 else 0, loss, hash)
    ensures Within(champions[0], champions[|promoted|], Trues(promoted), loss, hash)
  {
    var n := |promoted|;
    if n > 0 {
      LossesAdd(champions[..n], promoted[..n - 1], loss, hash);
      assert Within(champions[n - 1], champions[n - 1 + 1], if promoted[n - 1] then 1 else 0, loss, hash);
      WithinAdds(champions[0], champions[n - 1], champions[n], Trues(promoted[..n - 1]),
                 if promoted[n - 1] then 1 else 0, loss, hash);
    }
  }

  /** For each event of a history, whether it put a new champion in place for head `i`. */
  ghost function PromotionFlags(trace: seq<seq<Head>>, events: seq<Event>, cfg: Config, i: nat): (flags: seq<bool>)
    requires IsHistory(trace, events, cfg) && i < |cfg.gates|
    ensures |flags| == |events|
  {
    seq(|events|, k requires 0 <= k < |events| && IsStep(trace[k], events[k], trace[k + 1], cfg) =>
      Promotes(trace[k], events[k], cfg, i))
  }

  lemma EventLoss(trace: seq<seq<Head>>, events: seq<Event>, cfg: Config, i: nat, hash: string, k: nat)
    requires IsHistory(trace, events, cfg) && i < |cfg.gates| && k < |events|
    requires KeepsLogicAndChampion(trace[k], events[k], cfg, i, hash)
    ensures Within(trace[k][i].champion, trace[k + 1][i].champion,
                   if PromotionFlags(trace, events, cfg, i)[k] then 1 else 0, cfg.gates[i].maxAurocRegression, hash)
  {
    assert IsStep(trace[k], events[k], trace[k + 1], cfg);
    StepAuroc(trace[k], events[k], cfg, i, hash);
  }

  function Column(trace: seq<seq<Head>>, i: nat): (champions: seq<Option<Champion>>)
    requires forall k | 0 <= k < |trace| :: i < |trace[k]|
    ensures |champions| == |trace|
    ensures forall k | 0 <= k < |trace| :: champions[k] == trace[k][i].champion
  {
    seq(|trace|, k requires 0 <= k < |trace| && i < |trace[k]| => trace[k][i].champion)
  }

  lemma LossesOf(trace: seq<seq<Head>>, events: seq<Event>, cfg: Config, i: nat, hash: string)
    requires IsHistory(trace, events, cfg) && i < |cfg.gates|
    requires forall k | 0 <= k < |events| :: KeepsLogicAndChampion(trace[k], events[k], cfg, i, hash)
    ensures Within(trace[0][i].champion, trace[|events|][i].champion,
                   Trues(PromotionFlags(trace, events, cfg, i)), cfg.gates[i].maxAurocRegression, hash)
  {
    var promoted, champions := PromotionFlags(trace, events, cfg, i), Column(trace, i);
    forall k | 0 <= k < |promoted|
      ensures Within(champions[k], champions[k + 1], if promoted[k] then 1 else 0,
                     cfg.gates[i].maxAurocRegression, hash)
    {
      EventLoss(trace, events, cfg, i, hash, k);
    }
    LossesAdd(champions, promoted, cfg.gates[i].maxAurocRegression, hash);
  }

  lemma MinimumHolds(trace: seq<seq<Head>>, events: seq<Event>, cfg: Config, k: nat, i: nat)
    requires IsHistory(trace, events, cfg) && k < |trace| && Sound(trace[0], cfg) && i < |cfg.gates|
    ensures trace[k][i].champion.Some? ==> MeetsThresholds(trace[k][i].champion.value.meta.test, cfg.gates[i])
  {
    EveryServingChampionPassedTheGate(trace, events, cfg, k);
  }

  /**
   While the feature logic stays the same and no run is killed between the two steps of promoting or of
   rolling back head `i`, N promotions leave its AUROC at no less than
   max(min_auroc, first champion's AUROC - N * max_auroc_regression).
   */
  lemma AurocFloor(trace: seq<seq<Head>>, events: seq<Event>, cfg: Config, i: nat, hash: string)
    requires IsHistory(trace, events, cfg) && Sound(trace[0], cfg) && i < |cfg.gates|
    requires trace[0][i].champion.Some? && trace[0][i].champion.value.meta.featureHash == hash
    requires forall k | 0 <= k < |events| :: KeepsLogicAndChampion(trace[k], events[k], cfg, i, hash)
    ensures var after := trace[|events|][i].champion;
            && after.Some?
            && after.value.meta.test.auroc >= cfg.gates[i].minAuroc
            && after.value.meta.test.auroc >= trace[0][i].champion.value.meta.test.auroc
                 - Times(Trues(PromotionFlags(trace, events, cfg, i)), cfg.gates[i].maxAurocRegression)
  {
    LossesOf(trace, events, cfg, i, hash);
    MinimumHolds(trace, events, cfg, |events|, i);
  }

  /* ---- what rests on the order of the jobs ---- */

  /**
   Training keeps an old gate_result.json, so job 04's own check accepts a retrained model exactly
   when the result of some earlier model passed at the same git sha: the new metrics play no part.
   */
  lemma RetrainedIsDeployableUngated(h: Head, t: Training)
    requires t.Fit?
    ensures Deployable(Trained(h, t).candidate) <==>
              h.candidate.gate.Some? && h.candidate.gate.value.passed
              && h.candidate.gate.value.candidateGitSha == t.meta.gitSha
  {
  }

  /** After job 03 the check is exact: a head is deployable if and only if it meets its gate now. */
  lemma GatedIsDeployableIfSound(h: Head, rules: GateRules, codeHash: string)
    requires h.candidate.meta.Some?
    ensures Deployable(Gated(h, rules, codeHash).candidate) <==>
              MeetsGate(h.candidate.meta.value, rules, codeHash, ChampionMeta(h))
  {
    GateIsExact(h.candidate.meta.value, rules, codeHash, ChampionMeta(h));
  }

  /** Job 04 run by itself leaves mixed heads when it refuses one: the heads before it stay promoted. */
  lemma RefusalKeepsEarlierHeads(heads: seq<Head>, stamps: seq<int>, versions: seq<Option<nat>>, end: End, i: nat)
    requires |stamps| == |versions| == |heads| && EndFits(end, |heads|) && i < |heads|
    requires DeployOutcome(heads, end) == Refused
    ensures var after := DeployEffect(heads, stamps, versions, end);
            if i < DeployReach(heads)
            then after[i].champion == Some(Champion(heads[i].candidate.artifact, heads[i].candidate.meta.value,
                                                    heads[i].candidate.gate, None))
            else after[i] == heads[i]
  {
  }

  lemma DeployLosesIff(gated: seq<Head>, stamps: seq<int>, versions: seq<Option<nat>>, end: End, i: nat)
    requires |gated| == |stamps| == |versions| && EndFits(end, |gated|) && i < |gated|
    requires DeployReach(gated) == |gated| && gated[i].champion.Some?
    ensures DeployEffect(gated, stamps, versions, end)[i].champion.None? <==> BetweenSteps(end, i)
  {
  }

  /** A head that has a champion is left without one by exactly the runs killed between its two steps. */
  lemma ChampionIsLostIff(heads: seq<Head>, e: Event, cfg: Config, i: nat)
    requires |heads| == |cfg.gates| && Fits(e, heads) && i < |heads| && heads[i].champion.Some?
    ensures Step(heads, e, cfg).heads[i].champion.None? <==> LosesChampion(heads, e, cfg, i)
  {
    if e.Chain? {
      TrainingKeepsServing(heads, e.trained);
      GatingKeepsServing(TrainEffect(heads, e.trained), cfg.gates, e.codeHash);
      if ReachesDeployJob(heads, e, cfg) {
        GatedChainIsNotRefused(heads, e, cfg);
        DeployLosesIff(Candidates(heads, e, cfg), e.stamps, e.versions, e.end, i);
      }
    }
  }

  /**
   Such a run leaves the head without a champion; the next gate then compares with nothing, so any
   candidate above the absolute thresholds passes, however far it fell.
   */
  lemma LostChampionLiftsTheBound(heads: seq<Head>, e: Event, cfg: Config, i: nat, meta: Meta)
    requires |heads| == |cfg.gates| && Fits(e, heads) && i < |heads| && LosesChampion(heads, e, cfg, i)
    requires meta.featureHash == e.codeHash
    ensures var after := Step(heads, e, cfg).heads[i];
            && after.champion == None
            && (GateOutcome(Trained(after, Fit(0, meta)), cfg.gates[i], e.codeHash).passed
                <==> MeetsThresholds(meta.test, cfg.gates[i]))
  {
    GatedChainIsNotRefused(heads, e, cfg);
    GateIsExact(meta, cfg.gates[i], e.codeHash, None);
  }

  /* ---- mixed heads ---- */

  /** The new champion is in place, registered or not yet, and the old one archived. */
  predicate IsNew(before: Head, after: Head, stamp: int, version: Option<nat>)
    requires before.candidate.meta.Some?
  {
    after == Promoted(before, stamp) || after == Registered(Promoted(before, stamp), version)
  }

  /** Neither are all heads as before the job nor do all have their new champion. */
  predicate Mixed(before: seq<Head>, after: seq<Head>, stamps: seq<int>, versions: seq<Option<nat>>)
    requires |before| == |after| == |stamps| == |versions|
    requires forall i | 0 <= i < |before| :: before[i].candidate.meta.Some?
  {
    && (exists i | 0 <= i < |before| :: after[i] != before[i])
    && (exists i | 0 <= i < |before| :: !IsNew(before[i], after[i], stamps[i], versions[i]))
  }

  /**
   The ends that leave the heads mixed: stopped with some heads promoted and others not, or restored and
   others not, or between the two steps of a head that had a champion.
   */
  predicate Mixes(before: seq<Head>, end: End)
    requires EndFits(end, |before|)
  {
    match end
    case KilledPromoting(promoted, moved) => promoted > 0 || (moved && before[promoted].champion.Some?)
    case KilledRollingBack(restored, dropped) =>
      // a head that had no champion is restored by deleting the new one
      var done := if dropped && before[restored].champion.None? then restored + 1 else restored;
      0 < done < |before| || (dropped && before[restored].champion.Some?)
    case _ => false
  }

  lemma NewIsNotOld(h: Head, stamp: int, version: Option<nat>)
    requires h.candidate.meta.Some? && stamp !in h.archive
    ensures Promoted(h, stamp) != h && Registered(Promoted(h, stamp), version) != h
    ensures Promoted(h, stamp).(champion := None) == h <==> h.champion.None?
    ensures !IsNew(h, h, stamp, version)
  {
    assert h.champion.Some? ==> stamp in Promoted(h, stamp).archive;
  }

  /** The heads that job 04 leaves, once all were gated, are mixed by exactly these ends. */
  lemma MixedIff(gated: seq<Head>, stamps: seq<int>, versions: seq<Option<nat>>, end: End)
    requires |gated| == |stamps| == |versions| && EndFits(end, |gated|) && DeployReach(gated) == |gated|
    requires forall i | 0 <= i < |gated| :: stamps[i] !in gated[i].archive
    ensures Mixed(gated, DeployEffect(gated, stamps, versions, end), stamps, versions) <==> Mixes(gated, end)
  {
    var n, after := |gated|, DeployEffect(gated, stamps, versions, end);
    forall i | 0 <= i < n
      ensures Promoted(gated[i], stamps[i]) != gated[i]
      ensures Registered(Promoted(gated[i], stamps[i]), versions[i]) != gated[i]
      ensures !IsNew(gated[i], gated[i], stamps[i], versions[i])
      ensures Promoted(gated[i], stamps[i]).(champion := None) == gated[i] <==> gated[i].champion.None?
    {
      NewIsNotOld(gated[i], stamps[i], versions[i]);
    }
    match end
    case Finished(deployed) =>
    case KilledDeploying(_) =>
    case KilledPromoting(promoted, moved) =>
      if Mixes(gated, end) {
        assert promoted > 0 ==> after[0] != gated[0];
        assert !IsNew(gated[promoted], after[promoted], stamps[promoted], versions[promoted]);
        assert promoted == 0 ==> after[0] != gated[0];
      }
    case KilledRollingBack(restored, dropped) =>
      if Mixes(gated, end) {
        if dropped && gated[restored].champion.Some? {
          assert after[restored] != gated[restored];
          assert !IsNew(gated[restored], after[restored], stamps[restored], versions[restored]);
        } else {
          assert after[n - 1] != gated[n - 1];
          assert !IsNew(gated[0], after[0], stamps[0], versions[0]);
        }
      }
  }

  /**
   Over whole runs: the heads end mixed exactly when the gate passed all of them and job 04 was stopped by one
   of these ends. In every other run all champions and archives stay, or all are replaced.
   */
  lemma HeadsAreMixedIff(heads: seq<Head>, e: Event, cfg: Config)
    requires |heads| == |cfg.gates| && e.Chain? && Fits(e, heads)
    ensures if ReachesDeployJob(heads, e, cfg) then
              var gated := Candidates(heads, e, cfg);
              && SameServing(heads, gated)
              && (forall i | 0 <= i < |gated| :: gated[i].candidate.meta.Some?)
              && (Mixed(gated, Step(heads, e, cfg).heads, e.stamps, e.versions) <==> Mixes(gated, e.end))
            else SameServing(heads, Step(heads, e, cfg).heads)
  {
    TrainingKeepsServing(heads, e.trained);
    GatingKeepsServing(TrainEffect(heads, e.trained), cfg.gates, e.codeHash);
    if ReachesDeployJob(heads, e, cfg) {
      GatedChainIsNotRefused(heads, e, cfg);
      MixedIff(Candidates(heads, e, cfg), e.stamps, e.versions, e.end);
    }
  }
}
