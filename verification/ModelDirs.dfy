/**
 The model directories of one project. Every head has a candidate directory that training fills,
 a champion directory that the endpoint is built from, and an archive of earlier champions keyed by
 the time stamp in their directory name. What the chain's jobs do to them is stated here on values.
 */
module ModelDirs {
  import opened Options
  import opened KpiGate
  import Leading

  /** gate_result.json */
  datatype GateResult = GateResult(passed: bool, candidateGitSha: string, modelVersion: string, checks: seq<Check>)

  /** What promote_champion found about a model version; only a move to `assist` asks for scores. */
  datatype Evidence = NotNeeded | Scores(scored: nat, compared: nat, agreement: Option<real>)

  /** serving_mode.json */
  datatype ModeFile = ModeFile(mode: string, approvedBy: string, modelVersion: string, evidence: Evidence)

  /** `artifact` stands for the contents of model.joblib; `meta` is missing before the first training. */
  datatype Candidate = Candidate(artifact: int, meta: Option<Meta>, gate: Option<GateResult>)

  datatype Champion = Champion(artifact: int, meta: Meta, gate: Option<GateResult>, mode: Option<ModeFile>)

  datatype Head = Head(candidate: Candidate, champion: Option<Champion>, archive: map<int, Champion>)

  /* ---- training: model.joblib first, then the meta file; an old gate_result.json stays ---- */

  datatype Training =
    | Fit(artifact: int, meta: Meta)
    | Torn(artifact: int)   // stopped after model.joblib, before model_meta.json
    | NoFit

  predicate AllFit(trained: seq<Training>) {
    forall t <- trained :: t.Fit?
  }

  function Trained(h: Head, t: Training): Head {
    match t
    case Fit(artifact, meta) => h.(candidate := Candidate(artifact, Some(meta), h.candidate.gate))
    case Torn(artifact) => h.(candidate := h.candidate.(artifact := artifact))
    case NoFit => h
  }

  function FitReach(trained: seq<Training>): (k: nat)
    ensures k <= |trained|
    ensures forall j :: 0 <= j < k ==> trained[j].Fit?
    ensures k < |trained| ==> !trained[k].Fit?
  {
    Leading.Count(trained, (t: Training) => t.Fit?)
  }

  /** Heads are trained in order; the first failure ends the job with its own partial effect. */
  function TrainEffect(heads: seq<Head>, trained: seq<Training>): (after: seq<Head>)
    requires |heads| == |trained|
    ensures |after| == |heads|
  {
    var reached := FitReach(trained);
    seq(|heads|, i requires 0 <= i < |heads| => if i <= reached then Trained(heads[i], trained[i]) else heads[i])
  }

  /* ---- the gate job ---- */

  function ChampionMeta(h: Head): Option<Meta> {
    if h.champion.Some? then Some(h.champion.value.meta) else None
  }

  function GateOutcome(h: Head, rules: GateRules, codeHash: string): GateResult
    requires h.candidate.meta.Some?
  {
    var meta := h.candidate.meta.value;
    var checks := Evaluate(meta, rules, codeHash, ChampionMeta(h));
    GateResult(AllOk(checks), meta.gitSha, meta.modelVersion, checks)
  }

  function Gated(h: Head, rules: GateRules, codeHash: string): Head
    requires h.candidate.meta.Some?
  {
    h.(candidate := h.candidate.(gate := Some(GateOutcome(h, rules, codeHash))))
  }

  function MetaReach(heads: seq<Head>): (k: nat)
    ensures k <= |heads|
    ensures forall j :: 0 <= j < k ==> heads[j].candidate.meta.Some?
    ensures k < |heads| ==> !heads[k].candidate.meta.Some?
  {
    Leading.Count(heads, (h: Head) => h.candidate.meta.Some?)
  }

  /** Every head is gated, also after one has failed; only an unreadable meta file stops the job. */
  function GateEffect(heads: seq<Head>, rules: seq<GateRules>, codeHash: string): (after: seq<Head>)
    requires |heads| == |rules|
    ensures |after| == |heads|
  {
    var reached := MetaReach(heads);
    seq(|heads|, i requires 0 <= i < |heads| => if i < reached then Gated(heads[i], rules[i], codeHash) else heads[i])
  }

  predicate GatePasses(heads: seq<Head>, rules: seq<GateRules>, codeHash: string)
    requires |heads| == |rules|
  {
    forall i | 0 <= i < |heads| ::
      heads[i].candidate.meta.Some? && GateOutcome(heads[i], rules[i], codeHash).passed
  }

  /* ---- promotion, registration, rollback ---- */

  /** The test of `promote`: a passing gate result that carries the candidate's git sha. */
  predicate Deployable(c: Candidate) {
    c.meta.Some? && c.gate.Some? && c.gate.value.passed && c.gate.value.candidateGitSha == c.meta.value.gitSha
  }

  function Archived(h: Head, stamp: int): Head {
    if h.champion.Some?
    then h.(champion := None, archive := h.archive[stamp := h.champion.value])
    else h
  }

  /** The candidate directory holds no mode file, so a new champion has none. */
  function Promoted(h: Head, stamp: int): Head
    requires h.candidate.meta.Some?
  {
    var c := h.candidate;
    Archived(h, stamp).(champion := Some(Champion(c.artifact, c.meta.value, c.gate, None)))
  }

  function Registered(h: Head, version: Option<nat>): Head
    requires h.champion.Some?
  {
    if version.None? then h else
    var champion := h.champion.value;
    h.(champion := Some(champion.(meta := champion.meta.(registryVersion := version))))
  }

  function Restored(h: Head, archived: Option<int>): Head {
    if archived.Some? && archived.value in h.archive
    then h.(champion := Some(h.archive[archived.value]), archive := h.archive - {archived.value})
    else h.(champion := None)
  }

  function DeployReach(heads: seq<Head>): (k: nat)
    ensures k <= |heads|
    ensures forall j :: 0 <= j < k ==> Deployable(heads[j].candidate)
    ensures k < |heads| ==> !Deployable(heads[k].candidate)
  {
    Leading.Count(heads, (h: Head) => Deployable(h.candidate))
  }

  function PromotedUpTo(heads: seq<Head>, stamps: seq<int>, k: nat): (after: seq<Head>)
    requires |heads| == |stamps| && k <= |heads|
    requires forall i | 0 <= i < k :: heads[i].candidate.meta.Some?
    ensures |after| == |heads|
  {
    seq(|heads|, i requires 0 <= i < |heads| => if i < k then Promoted(heads[i], stamps[i]) else heads[i])
  }

  function RegisteredUpTo(heads: seq<Head>, versions: seq<Option<nat>>, k: nat): (after: seq<Head>)
    requires |heads| == |versions| && k <= |heads|
    requires forall i | 0 <= i < k :: heads[i].champion.Some?
    ensures |after| == |heads|
  {
    seq(|heads|, i requires 0 <= i < |heads| => if i < k then Registered(heads[i], versions[i]) else heads[i])
  }

  /** The first `k` heads are as before the job; the next one may have lost its new champion already. */
  function RestoredUpTo(before: seq<Head>, registered: seq<Head>, k: nat, dropped: bool): (after: seq<Head>)
    requires |before| == |registered|
    ensures |after| == |before|
  {
    seq(|before|, i requires 0 <= i < |before| =>
      if i < k then before[i] else if i == k && dropped then registered[i].(champion := None) else registered[i])
  }

  /** How the platform ends the deploy job: by itself, or killed at one of its steps. */
  datatype End =
    | Finished(deployed: bool)
    | KilledPromoting(promoted: nat, moved: bool)   // `moved`: the next head's champion is already archived
    | KilledDeploying(registered: nat)
    | KilledRollingBack(restored: nat, dropped: bool)   // `dropped`: the next head's new champion is already deleted

  predicate EndFits(end: End, n: nat) {
    match end
    case Finished(_) => true
    case KilledPromoting(promoted, _) => promoted < n
    case KilledDeploying(registered) => registered <= n
    case KilledRollingBack(restored, dropped) => restored <= n && (dropped ==> restored < n)
  }

  datatype Outcome = Refused | RolledBack | Deployed | Killed

  function DeployOutcome(heads: seq<Head>, end: End): Outcome {
    var reached := DeployReach(heads);
    if end.KilledPromoting? && end.promoted <= reached then Killed
    else if reached < |heads| then Refused
    else match end
      case Finished(deployed) => if deployed then Deployed else RolledBack
      case _ => Killed
  }

  function DeployEffect(heads: seq<Head>, stamps: seq<int>, versions: seq<Option<nat>>, end: End): (after: seq<Head>)
    requires |heads| == |stamps| == |versions|
    requires EndFits(end, |heads|)
    ensures |after| == |heads|
  {
    var reached := DeployReach(heads);
    match DeployOutcome(heads, end)
    case Refused => PromotedUpTo(heads, stamps, reached)
    case RolledBack => heads
    case Deployed => RegisteredUpTo(PromotedUpTo(heads, stamps, |heads|), versions, |heads|)
    case Killed =>
      if end.KilledPromoting? then
        var k := end.promoted;
        // a head whose candidate is refused is not moved: the check comes first
        var moved := end.moved && k < reached;
        var done := PromotedUpTo(heads, stamps, k);
        if moved then done[k := Archived(done[k], stamps[k])] else done
      else if end.KilledDeploying? then
        RegisteredUpTo(PromotedUpTo(heads, stamps, |heads|), versions, end.registered)
      else
        RestoredUpTo(heads, RegisteredUpTo(PromotedUpTo(heads, stamps, |heads|), versions, |heads|),
                     end.restored, end.dropped)
  }
}
