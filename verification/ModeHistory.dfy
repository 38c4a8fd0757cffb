/**
 What mode the approval head is served in: what one run of mcc-07 changes, and what is served after any
 history of chain runs and mode changes. The approval head is head 0.
 */
module ModeHistory {
  import opened Options
  import opened KpiGate
  import opened ModelDirs
  import opened ChainJobs
  import opened ServingMode
  import opened ChainRuns

  /** Whether the mode job goes through on this head. */
  ghost predicate GoesThrough(h: Head, r: Request, modes: ServingMode.Rules) {
    h.champion.Some? && MayMove(h.champion.value, r, modes)
  }

  /** What a mode change that goes through leaves: a new mode file in the approval head's champion, and no more. */
  ghost predicate IsMoved(before: Head, after: Head, r: Request, modes: ServingMode.Rules)
    requires before.champion.Some?
  {
    && after.champion.Some? && after.champion.value.mode.Some?
    && IsFileOf(after.champion.value.mode.value, before.champion.value, r, modes)
    && after.champion.value.(mode := before.champion.value.mode) == before.champion.value
    && after.candidate == before.candidate && after.archive == before.archive
  }

  /** The mode job as it runs: it refuses, or writes the file. */
  method RunMode(p: Project, cfg: Config, r: Request) returns (ok: bool)
    requires p.Valid() && p.rules == cfg.gates && |p.heads| > 0
    modifies p
    ensures p.Valid() && ok == GoesThrough(old(p.heads)[0], r, cfg.modes)
    ensures !ok ==> p.heads == old(p.heads)
    ensures ok ==> IsMoved(old(p.heads)[0], p.heads[0], r, cfg.modes) && p.heads[1..] == old(p.heads)[1..]
    ensures p.heads == Step(old(p.heads), Mode(r), cfg).heads
  {
    var h := p.heads[0];
    if h.champion.None? {
      return false;
    }
    var c := h.champion.value;
    MovedIff(h, r, cfg.modes);
    FileIs(c, r, cfg.modes);
    var ev := Found(r, c.meta.modelVersion, cfg.modes);
    var why := Decide(r.target, r.approver, c.gate, ev, cfg.modes);
    DecideIsExact(r.target, r.approver, c.gate, ev, cfg.modes);
    if why != [] {
      return false;
    }
    c := c.(mode := Some(ModeFile(r.target, r.approver, c.meta.modelVersion, ev)));
    p.heads := p.heads[0 := h.(champion := Some(c))];
    return true;
  }

  /** A mode change serves the mode asked for exactly when it may, and changes nothing at all when it may not. */
  lemma ModeChangeIs(heads: seq<Head>, r: Request, cfg: Config)
    requires |heads| == |cfg.gates| && |heads| > 0
    ensures var after := Step(heads, Mode(r), cfg).heads;
      if GoesThrough(heads[0], r, cfg.modes)
      then && ServedMode(after[0]) == r.target && IsMoved(heads[0], after[0], r, cfg.modes)
           && forall i | 0 < i < |heads| :: after[i] == heads[i]
      else after == heads
  {
    if heads[0].champion.Some? {
      MovedIff(heads[0], r, cfg.modes);
    }
  }

  /* ---- over histories ---- */

  /** The run puts a new champion in place for the approval head, or loses it. */
  predicate Touches(heads: seq<Head>, e: Event, cfg: Config)
    requires |heads| == |cfg.gates| && Fits(e, heads)
  {
    ReachesDeployJob(heads, e, cfg) && (PutsNew(e.end, 0) || BetweenSteps(e.end, 0))
  }

  lemma UntouchedStays(heads: seq<Head>, e: Event, cfg: Config)
    requires |heads| == |cfg.gates| && |heads| > 0 && e.Chain? && Fits(e, heads) && !Touches(heads, e, cfg)
    ensures Step(heads, e, cfg).heads[0].champion == heads[0].champion
  {
    TrainingKeepsServing(heads, e.trained);
    GatingKeepsServing(TrainEffect(heads, e.trained), cfg.gates, e.codeHash);
    if ReachesDeployJob(heads, e, cfg) {
      GatedChainIsNotRefused(heads, e, cfg);
      NewMeta(Candidates(heads, e, cfg), e.stamps, e.versions, e.end, 0);
    }
  }

  /** A champion that a run puts in place has no mode file, and so is served in shadow. */
  lemma NewIsShadow(heads: seq<Head>, e: Event, cfg: Config)
    requires |heads| == |cfg.gates| && |heads| > 0 && e.Chain? && Fits(e, heads) && Promotes(heads, e, cfg, 0)
    ensures var after := Step(heads, e, cfg).heads[0];
      after.champion.Some? && after.champion.value.mode.None? && ServedMode(after) == "shadow"
  {
    GatedChainIsNotRefused(heads, e, cfg);
    NewHasNoMode(Candidates(heads, e, cfg), e.stamps, e.versions, e.end);
  }

  lemma NewHasNoMode(gated: seq<Head>, stamps: seq<int>, versions: seq<Option<nat>>, end: End)
    requires |gated| == |stamps| == |versions| && EndFits(end, |gated|) && |gated| > 0
    requires DeployReach(gated) == |gated| && PutsNew(end, 0)
    ensures var after := DeployEffect(gated, stamps, versions, end)[0].champion; after.Some? && after.value.mode.None?
  {
  }

  /** The same champion but for its mode file. */
  predicate SameChampion(a: Head, b: Head) {
    a.champion.Some? && b.champion.Some? && b.champion.value.(mode := a.champion.value.mode) == a.champion.value
  }

  /** `last` is the last mode change from `j` up to `k` that this champion may have; none has gone through after it. */
  ghost predicate IsLastMove(events: seq<Event>, cfg: Config, c: Champion, j: nat, k: nat, last: Option<nat>)
    requires k <= |events|
  {
    && (last.Some? ==> j <= last.value < k && events[last.value].Mode?
                       && MayMove(c, events[last.value].request, cfg.modes))
    && forall i | (if last.Some? then last.value + 1 else j) <= i < k && events[i].Mode? ::
         !MayMove(c, events[i].request, cfg.modes)
  }

  /** The event is a mode change, or a run that leaves the approval head's champion. */
  predicate LeavesChampion(heads: seq<Head>, e: Event, cfg: Config) {
    |heads| == |cfg.gates| && Fits(e, heads) && (e.Chain? ==> !Touches(heads, e, cfg))
  }

  /** The event is a mode change that this champion may have. */
  ghost predicate Takes(c: Champion, e: Event, cfg: Config) {
    e.Mode? && MayMove(c, e.request, cfg.modes)
  }

  lemma StepServes(heads: seq<Head>, e: Event, cfg: Config)
    requires LeavesChampion(heads, e, cfg) && |heads| > 0 && heads[0].champion.Some?
    ensures var after := Step(heads, e, cfg).heads[0];
      && SameChampion(heads[0], after)
      && ServedMode(after)
         == if Takes(heads[0].champion.value, e, cfg) then e.request.target else ServedMode(heads[0])
  {
    if e.Chain? {
      UntouchedStays(heads, e, cfg);
    } else {
      ModeChangeIs(heads, e.request, cfg);
    }
  }

  lemma OneMoreMove(events: seq<Event>, cfg: Config, c: Champion, j: nat, k: nat, last: Option<nat>)
    requires j < k <= |events| && IsLastMove(events, cfg, c, j, k - 1, last)
    ensures IsLastMove(events, cfg, c, j, k, if Takes(c, events[k - 1], cfg) then Some(k - 1) else last)
  {
  }

  lemma SameMoves(a: Head, b: Head, e: Event, cfg: Config)
    requires SameChampion(a, b)
    ensures Takes(a.champion.value, e, cfg) <==> Takes(b.champion.value, e, cfg)
  {
  }

  /** The mode asked for by the last change, or the one before. */
  ghost function Asked(events: seq<Event>, last: Option<nat>, before: string): string
    requires last.Some? ==> last.value < |events| && events[last.value].Mode?
  {
    if last.Some? then events[last.value].request.target else before
  }

  /** Head `h` has the champion of `start`, and serves it in the mode of its last move. */
  ghost predicate IsServed(start: Head, h: Head, events: seq<Event>, cfg: Config, j: nat, k: nat, last: Option<nat>)
    requires start.champion.Some? && k <= |events|
  {
    && SameChampion(start, h) && IsLastMove(events, cfg, start.champion.value, j, k, last)
    && ServedMode(h) == Asked(events, last, ServedMode(start))
  }

  lemma OneMoreServed(start: Head, before: Head, after: Head, events: seq<Event>, cfg: Config, j: nat, k: nat,
                      last: Option<nat>) returns (next: Option<nat>)
    requires start.champion.Some? && j < k <= |events| && IsServed(start, before, events, cfg, j, k - 1, last)
    requires SameChampion(before, after)
    requires ServedMode(after)
          == if Takes(before.champion.value, events[k - 1], cfg) then events[k - 1].request.target
             else ServedMode(before)
    ensures IsServed(start, after, events, cfg, j, k, next)
  {
    var c := start.champion.value;
    SameMoves(start, before, events[k - 1], cfg);
    OneMoreMove(events, cfg, c, j, k, last);
    next := if Takes(c, events[k - 1], cfg) then Some(k - 1) else last;
  }

  /**
   As long as no run touches the approval head's champion, it is served in the mode of the last change that it
   may have, by its own gate result, version and evidence; and without one in the mode that it had.
   */
  lemma {:induction false} ServedModeIs(trace: seq<seq<Head>>, events: seq<Event>, cfg: Config, j: nat, k: nat)
    returns (last: Option<nat>)
    requires IsHistory(trace, events, cfg) && |cfg.gates| > 0 && j <= k <= |events| && trace[j][0].champion.Some?
    requires forall i | j <= i < k :: LeavesChampion(trace[i], events[i], cfg)
    ensures IsServed(trace[j][0], trace[k][0], events, cfg, j, k, last)
    decreases k
  {
    last := None;
    if j < k {
      var before := ServedModeIs(trace, events, cfg, j, k - 1);
      StepOf(trace, events, cfg, k - 1);
      last := OneMoreServed(trace[j][0], trace[k - 1][0], trace[k][0], events, cfg, j, k, before);
    }
  }

  lemma StepOf(trace: seq<seq<Head>>, events: seq<Event>, cfg: Config, k: nat)
    requires IsHistory(trace, events, cfg) && |cfg.gates| > 0 && k < |events|
    requires LeavesChampion(trace[k], events[k], cfg) && trace[k][0].champion.Some?
    ensures SameChampion(trace[k][0], trace[k + 1][0])
    ensures ServedMode(trace[k + 1][0])
         == if Takes(trace[k][0].champion.value, events[k], cfg) then events[k].request.target
            else ServedMode(trace[k][0])
  {
    assert IsStep(trace[k], events[k], trace[k + 1], cfg);
    StepServes(trace[k], events[k], cfg);
  }
}
