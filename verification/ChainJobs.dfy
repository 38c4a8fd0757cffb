/**
 The jobs mcc-02, mcc-03 and mcc-04 over the model directories, step by step as the scripts run
 them. What the platform does (training results, registry versions, builds, kills) is a parameter.
 */
module ChainJobs {
  import opened Options
  import opened KpiGate
  import opened ModelDirs

  /** One model build: it ends well, `wait` gives up on it, or the API call itself fails. */
  datatype Build = Built | GaveUp | ApiError

  /**
   The build-attempt loop of `deploy`: a build that `wait` gives up on is replaced by a new one, any
   other error ends the job. `builds(a)` is what attempt `a` would do; the deployment follows a built model.
   */
  method Deploy(attempts: nat, builds: nat -> Build, deploymentOk: bool) returns (ok: bool, made: nat)
    ensures made <= attempts
    ensures forall a :: 1 <= a < made ==> builds(a) == GaveUp
    ensures made < attempts && made > 0 ==> builds(made) != GaveUp
    ensures ok <==> made > 0 && builds(made) == Built && deploymentOk
    ensures ok <==> deploymentOk && exists a :: 1 <= a <= attempts && builds(a) == Built
                                       && forall b :: 1 <= b < a ==> builds(b) == GaveUp
  {
    ok, made := false, 0;
    var built := false;
    while made < attempts && !built
      invariant made <= attempts
      invariant forall a :: 1 <= a < made ==> builds(a) == GaveUp
      invariant made > 0 ==> builds(made) == if built then Built else GaveUp
      invariant built ==> made > 0
      decreases attempts - made
    {
      made := made + 1;
      match builds(made)
      case Built => built := true;
      case GaveUp =>
      case ApiError => return;
    }
    ok := built && deploymentOk;
  }

  class Project {
    var heads: seq<Head>
    const rules: seq<GateRules>

    ghost predicate Valid()
      reads this
    {
      |heads| == |rules|
    }

    constructor (heads: seq<Head>, rules: seq<GateRules>)
      requires |heads| == |rules|
      ensures Valid() && this.heads == heads && this.rules == rules
    {
      this.heads, this.rules := heads, rules;
    }

    method TrainJob(trained: seq<Training>) returns (ok: bool)
      requires Valid() && |trained| == |heads|
      modifies this
      ensures Valid() && heads == TrainEffect(old(heads), trained)
      ensures ok == AllFit(trained)
    {
      var reached := FitReach(trained);
      for i := 0 to |heads|
        invariant Valid() && i <= reached
        invariant forall j :: 0 <= j < |heads| ==>
          heads[j] == if j < i then Trained(old(heads)[j], trained[j]) else old(heads)[j]
      {
        heads := heads[i := Trained(heads[i], trained[i])];
        if !trained[i].Fit? {
          return false;
        }
      }
      return true;
    }

    /** `gate_one` for every head: the result file is written next to the candidate. */
    method GateJob(codeHash: string) returns (ok: bool)
      requires Valid()
      modifies this
      ensures Valid() && heads == GateEffect(old(heads), rules, codeHash)
      ensures ok == GatePasses(old(heads), rules, codeHash)
    {
      ok := true;
      for i := 0 to |heads|
        invariant Valid() && i <= MetaReach(old(heads))
        invariant forall j :: 0 <= j < |heads| ==>
          heads[j] == if j < i then Gated(old(heads)[j], rules[j], codeHash) else old(heads)[j]
        invariant ok <==> forall j :: 0 <= j < i ==> GateOutcome(old(heads)[j], rules[j], codeHash).passed
      {
        if heads[i].candidate.meta.None? {
          return false;
        }
        var result := GateOutcome(heads[i], rules[i], codeHash);
        heads := heads[i := heads[i].(candidate := heads[i].candidate.(gate := Some(result)))];
        ok := ok && result.passed;
      }
    }

    /** `promote` of head `i`: refuse, or archive the champion and copy the candidate over. */
    method Promote(i: nat, stamp: int, killAfterMove: bool) returns (ok: bool, archived: Option<int>)
      requires Valid() && i < |heads| && stamp !in heads[i].archive
      modifies this
      ensures Valid() && ok == Deployable(old(heads)[i].candidate)
      ensures !ok ==> heads == old(heads)
      ensures ok && killAfterMove ==> heads == old(heads)[i := Archived(old(heads)[i], stamp)]
      ensures ok && !killAfterMove ==> heads == old(heads)[i := Promoted(old(heads)[i], stamp)]
      ensures ok ==> archived == if old(heads)[i].champion.Some? then Some(stamp) else None
    {
      var c := heads[i].candidate;
      var passed := c.gate.Some? && c.gate.value.passed;
      archived := None;
      if c.meta.None? || !passed || c.gate.value.candidateGitSha != c.meta.value.gitSha {
        return false, None;
      }
      ok := true;
      var h := heads[i];
      if h.champion.Some? {
        archived := Some(stamp);
        h := h.(archive := h.archive[stamp := h.champion.value], champion := None);
        heads := heads[i := h];
      }
      if killAfterMove {
        return;
      }
      heads := heads[i := h.(champion := Some(Champion(c.artifact, c.meta.value, c.gate, None)))];
    }

    /** `rollback` of head `i`: drop the new champion, move the archived one back. */
    method Rollback(i: nat, archived: Option<int>, killAfterDrop: bool)
      requires Valid() && i < |heads|
      modifies this
      ensures Valid()
      ensures var head := old(heads)[i];
              heads == old(heads)[i := if killAfterDrop then head.(champion := None) else Restored(head, archived)]
    {
      heads := heads[i := heads[i].(champion := None)];
      if killAfterDrop {
        return;
      }
      var h := heads[i];
      if archived.Some? && archived.value in h.archive {
        heads := heads[i := h.(champion := Some(h.archive[archived.value]), archive := h.archive - {archived.value})];
      }
    }

    /**
     Job mcc-04. Archive directories are named by the time of the promotion, so the names are new.
     A failed deployment leaves every champion and archive exactly as they were.
     */
    method DeployJob(stamps: seq<int>, versions: seq<Option<nat>>, end: End) returns (outcome: Outcome)
      requires Valid() && |stamps| == |versions| == |heads| && EndFits(end, |heads|)
      requires forall i :: 0 <= i < |heads| ==> stamps[i] !in heads[i].archive
      modifies this
      ensures Valid() && outcome == DeployOutcome(old(heads), end)
      ensures heads == DeployEffect(old(heads), stamps, versions, end)
    {
      ghost var before := heads;
      ghost var reach := DeployReach(before);
      var archives: seq<Option<int>> := [];
      for i := 0 to |heads|
        invariant Valid() && |heads| == |before| && i <= reach && |archives| == i
        invariant heads == PromotedUpTo(before, stamps, i)
        invariant forall j :: 0 <= j < i ==>
          archives[j] == if before[j].champion.Some? then Some(stamps[j]) else None
        invariant end.KilledPromoting? ==> i <= end.promoted
      {
        var killHere := end.KilledPromoting? && end.promoted == i;
        if killHere && !end.moved {
          return Killed;
        }
        var ok, archived := Promote(i, stamps[i], killHere);
        if killHere {
          return Killed;
        }
        if !ok {
          return Refused;
        }
        archives := archives + [archived];
      }
      outcome := RegisterAndServe(before, stamps, archives, versions, end);
    }

    /** The second half of job mcc-04: register every head, deploy, and put all champions back on failure. */
    method RegisterAndServe(ghost before: seq<Head>, stamps: seq<int>, archives: seq<Option<int>>,
                            versions: seq<Option<nat>>, end: End)
      returns (outcome: Outcome)
      requires Valid() && |stamps| == |versions| == |archives| == |heads| == |before| && EndFits(end, |heads|)
      requires !end.KilledPromoting?
      requires DeployReach(before) == |before| && heads == PromotedUpTo(before, stamps, |before|)
      requires forall i :: 0 <= i < |before| ==> stamps[i] !in before[i].archive
      requires forall i :: 0 <= i < |before| ==>
        archives[i] == if before[i].champion.Some? then Some(stamps[i]) else None
      modifies this
      ensures Valid() && outcome == DeployOutcome(before, end)
      ensures heads == DeployEffect(before, stamps, versions, end)
    {
      ghost var promoted := heads;
      for i := 0 to |heads|
        invariant Valid() && |heads| == |before|
        invariant end.KilledDeploying? ==> i <= end.registered
        invariant heads == RegisteredUpTo(promoted, versions, i)
      {
        if end.KilledDeploying? && end.registered == i {
          return Killed;
        }
        if versions[i].Some? {
          var champion := heads[i].champion.value;
          var meta := champion.meta.(registryVersion := versions[i]);
          heads := heads[i := heads[i].(champion := Some(champion.(meta := meta)))];
        }
      }
      if end.KilledDeploying? {
        return Killed;
      }
      if end.Finished? && end.deployed {
        return Deployed;
      }
      ghost var registered := heads;
      for i := 0 to |heads|
        invariant Valid() && |heads| == |before|
        invariant end.KilledRollingBack? ==> i <= end.restored
        invariant heads == RestoredUpTo(before, registered, i, false)
      {
        var killHere := end.KilledRollingBack? && end.restored == i;
        if killHere && !end.dropped {
          return Killed;
        }
        RestoreUndoesPromote(before[i], stamps[i], versions[i]);
        Rollback(i, archives[i], killHere);
        if killHere {
          return Killed;
        }
      }
      assert heads == before;
      return if end.KilledRollingBack? then Killed else RolledBack;
    }
  }

  /** Rolling back a promoted and registered head gives the head as it was, archive included. */
  lemma RestoreUndoesPromote(h: Head, stamp: int, version: Option<nat>)
    requires h.candidate.meta.Some? && stamp !in h.archive
    ensures Restored(Registered(Promoted(h, stamp), version), if h.champion.Some? then Some(stamp) else None) == h
  {
    if h.champion.Some? {
      assert h.archive[stamp := h.champion.value] - {stamp} == h.archive;
    }
  }
}
