/**
 What the jobs mcc-02, mcc-03 and mcc-04 leave in the directories of one head, told head by head: the training
 and gate jobs after their last step, and the deploy job after every one of its ends.
 */
module JobEffects {
  import opened Options
  import opened KpiGate
  import opened ModelDirs

  /** Training reaches a head when all before it were fitted, and writes its model file before its meta file. */
  lemma TrainingIs(heads: seq<Head>, trained: seq<Training>, i: nat)
    requires |heads| == |trained| && i < |heads|
    ensures var h, after := heads[i], TrainEffect(heads, trained)[i];
      && after.champion == h.champion && after.archive == h.archive && after.candidate.gate == h.candidate.gate
      && if (exists j | 0 <= j < i :: !trained[j].Fit?) || trained[i].NoFit? then after == h
         else && after.candidate.artifact == trained[i].artifact
              && after.candidate.meta == if trained[i].Fit? then Some(trained[i].meta) else h.candidate.meta
  {
    var reached := FitReach(trained);
    if i > reached {
      assert !trained[reached].Fit?;
    }
  }

  /** The result file of a head: the verdict of its own rules on its candidate, and which candidate that is. */
  ghost predicate IsResult(gate: GateResult, h: Head, rules: GateRules, codeHash: string)
    requires h.candidate.meta.Some?
  {
    var meta, serving := h.candidate.meta.value, if h.champion.Some? then Some(h.champion.value.meta) else None;
    && (gate.passed <==> MeetsGate(meta, rules, codeHash, serving))
    && gate.candidateGitSha == meta.gitSha && gate.modelVersion == meta.modelVersion
    && gate.checks == Evaluate(meta, rules, codeHash, serving)
  }

  /** The gate reaches a head when it and all before it have a meta file, and writes its result and nothing else. */
  lemma GatingIs(heads: seq<Head>, rules: seq<GateRules>, codeHash: string, i: nat)
    requires |heads| == |rules| && i < |heads|
    ensures var h, after := heads[i], GateEffect(heads, rules, codeHash)[i];
      if exists j | 0 <= j <= i :: heads[j].candidate.meta.None? then after == h
      else && after.candidate.gate.Some? && IsResult(after.candidate.gate.value, h, rules[i], codeHash)
           && after == h.(candidate := h.candidate.(gate := after.candidate.gate))
  {
    var reached := MetaReach(heads);
    if i >= reached {
      assert heads[reached].candidate.meta.None?;
    } else {
      GateIsExact(heads[i].candidate.meta.value, rules[i], codeHash, ChampionMeta(heads[i]));
    }
  }

  /* ---- the deploy job ---- */

  /** A candidate that `promote` takes: its result passed and carries its git sha. */
  predicate IsAccepted(c: Candidate) {
    && c.meta.Some? && c.gate.Some?
    && c.gate.value.passed && c.gate.value.candidateGitSha == c.meta.value.gitSha
  }

  /** The old champion, if there was one, is in the archive under this stamp; nothing else moved. */
  predicate IsArchived(h: Head, after: Head, stamp: int) {
    && after.candidate == h.candidate
    && (h.champion.None? ==> after.archive == h.archive)
    && (h.champion.Some? ==> after.archive == h.archive[stamp := h.champion.value])
  }

  /** And the candidate, with its result and no mode file, is the champion, under this version if it got one. */
  predicate IsPromoted(h: Head, after: Head, stamp: int, version: Option<nat>) {
    && IsArchived(h, after, stamp) && h.candidate.meta.Some? && after.champion.Some?
    && var c := after.champion.value;
       && c.artifact == h.candidate.artifact && c.gate == h.candidate.gate && c.mode.None?
       && c.meta.(registryVersion := h.candidate.meta.value.registryVersion) == h.candidate.meta.value
       && c.meta.registryVersion == if version.Some? then version else h.candidate.meta.value.registryVersion
  }

  /** The first candidate that is refused, or the number of heads. */
  ghost predicate RefusedAt(heads: seq<Head>, k: nat) {
    && k <= |heads| && (forall j | 0 <= j < k :: IsAccepted(heads[j].candidate))
    && (k < |heads| ==> !IsAccepted(heads[k].candidate))
  }

  lemma ReachIs(heads: seq<Head>)
    ensures RefusedAt(heads, DeployReach(heads))
  {
    assert forall j | 0 <= j < |heads| :: IsAccepted(heads[j].candidate) == Deployable(heads[j].candidate);
  }

  /** The job was killed while promoting: the heads before are promoted, this one may have lost its champion. */
  ghost predicate StoppedPromoting(h: Head, after: Head, stamp: int, end: End, i: nat)
    requires end.KilledPromoting?
  {
    if i < end.promoted then IsPromoted(h, after, stamp, None)
    else if i == end.promoted && end.moved && IsAccepted(h.candidate)
    then IsArchived(h, after, stamp) && after.champion.None?
    else after == h
  }

  /** All were promoted: registered and served, all put back, or stopped on the way to either. */
  ghost predicate AfterPromotion(h: Head, after: Head, stamp: int, version: Option<nat>, end: End, i: nat)
    requires !end.KilledPromoting?
  {
    match end
    case Finished(deployed) => if deployed then IsPromoted(h, after, stamp, version) else after == h
    case KilledDeploying(registered) => IsPromoted(h, after, stamp, if i < registered then version else None)
    case KilledRollingBack(restored, dropped) =>
      if i < restored then after == h
      else if i == restored && dropped then IsArchived(h, after, stamp) && after.champion.None?
      else IsPromoted(h, after, stamp, version)
  }

  lemma DeployStopped(heads: seq<Head>, stamps: seq<int>, versions: seq<Option<nat>>, end: End, i: nat)
    requires |heads| == |stamps| == |versions| && EndFits(end, |heads|) && i < |heads|
    requires end.KilledPromoting? && end.promoted <= DeployReach(heads)
    ensures StoppedPromoting(heads[i], DeployEffect(heads, stamps, versions, end)[i], stamps[i], end, i)
  {
  }

  lemma DeployRefused(heads: seq<Head>, stamps: seq<int>, versions: seq<Option<nat>>, end: End, i: nat)
    requires |heads| == |stamps| == |versions| && EndFits(end, |heads|) && i < |heads|
    requires !(end.KilledPromoting? && end.promoted <= DeployReach(heads)) && DeployReach(heads) < |heads|
    ensures var h, after := heads[i], DeployEffect(heads, stamps, versions, end)[i];
      if i < DeployReach(heads) then IsPromoted(h, after, stamps[i], None) else after == h
  {
  }

  lemma DeployedAll(heads: seq<Head>, stamps: seq<int>, versions: seq<Option<nat>>, end: End, i: nat)
    requires |heads| == |stamps| == |versions| && EndFits(end, |heads|) && i < |heads|
    requires !end.KilledPromoting? && DeployReach(heads) == |heads|
    ensures AfterPromotion(heads[i], DeployEffect(heads, stamps, versions, end)[i], stamps[i], versions[i], end, i)
  {
  }

  /** What the deploy job leaves of a head, for every one of its ends. */
  lemma DeployIs(heads: seq<Head>, stamps: seq<int>, versions: seq<Option<nat>>, end: End, k: nat, i: nat)
    requires |heads| == |stamps| == |versions| && EndFits(end, |heads|) && i < |heads| && RefusedAt(heads, k)
    ensures var h, after := heads[i], DeployEffect(heads, stamps, versions, end)[i];
      if end.KilledPromoting? && end.promoted <= k then StoppedPromoting(h, after, stamps[i], end, i)
      else if k < |heads| then (if i < k then IsPromoted(h, after, stamps[i], None) else after == h)
      else AfterPromotion(h, after, stamps[i], versions[i], end, i)
  {
    ReachIs(heads);
    RefusedOnce(heads, k, DeployReach(heads));
    if end.KilledPromoting? && end.promoted <= k {
      DeployStopped(heads, stamps, versions, end, i);
    } else if k < |heads| {
      DeployRefused(heads, stamps, versions, end, i);
    } else {
      DeployedAll(heads, stamps, versions, end, i);
    }
  }

  lemma RefusedOnce(heads: seq<Head>, k: nat, n: nat)
    requires RefusedAt(heads, k) && RefusedAt(heads, n)
    ensures k == n
  {
  }
}
