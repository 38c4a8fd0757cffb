/**
 Crash events: up to the frozen date from one stream, then from one stream for each later date. A claim with
 a crash has one near its incident, which may lie weeks before the claim was filed; every day has noise.
 */
module Telematics {
  import opened Options
  import opened ClaimWorld

  const SECOND: int := 1_000_000
  const JITTER: int := 600 * SECOND
  /** How long before its FNOL an incident can lie. */
  const REACH: int := 25 * DAY + 6 * HOUR

  datatype CrashEvent = CrashEvent(number: nat, t: int, claim: Option<int>, details: int)

  /** What a stream yields for one crash or one noise event, and where the streams begin. */
  datatype CrashGen = CrashGen(crash: Rng -> (int, int, Rng), noise: Rng -> (int, int, Rng), noisePerDay: nat,
                               first: Rng, dated: int -> Rng)

  /** The fields of a claim that matter here. */
  datatype Facts = Facts(crashed: Claim -> bool, incident: Claim -> int)

  ghost predicate CrashGenOk(gen: CrashGen) {
    && (forall r :: -JITTER <= gen.crash(r).0 <= JITTER)
    && (forall r :: 0 <= gen.noise(r).0 < DAY)
  }

  datatype Log = Log(rng: Rng, n: nat, events: seq<CrashEvent>)

  function Crash(gen: CrashGen, facts: Facts, cl: Claim, log: Log): Log {
    var (jitter, details, rng) := gen.crash(log.rng);
    Log(rng, log.n + 1, log.events + [CrashEvent(log.n + 1, facts.incident(cl) + jitter, Some(cl.id), details)])
  }

  function FiledDay(cl: Claim): int { cl.fnol / DAY }

  function Crashes(gen: CrashGen, facts: Facts, claims: seq<Claim>, pick: Claim -> bool, log: Log): Log {
    if claims == [] then log else
    var last, before := claims[|claims| - 1], Crashes(gen, facts, claims[..|claims| - 1], pick, log);
    if facts.crashed(last) && pick(last) then Crash(gen, facts, last, before) else before
  }

  function Noise(gen: CrashGen, day: int, count: nat, log: Log): Log {
    if count == 0 then log else
    var before := Noise(gen, day, count - 1, log);
    var (offset, details, rng) := gen.noise(before.rng);
    Log(rng, before.n + 1, before.events + [CrashEvent(before.n + 1, Midnight(day) + offset, None, details)])
  }

  function NoiseDays(gen: CrashGen, from: int, days: nat, log: Log): Log {
    if days == 0 then log else Noise(gen, from + days - 1, gen.noisePerDay, NoiseDays(gen, from, days - 1, log))
  }

  function LaterDate(gen: CrashGen, facts: Facts, claims: seq<Claim>, d: int, log: Log): Log {
    Noise(gen, d, gen.noisePerDay, Crashes(gen, facts, claims, cl => FiledDay(cl) == d, log.(rng := gen.dated(d))))
  }

  function LaterDates(gen: CrashGen, facts: Facts, claims: seq<Claim>, dates: seq<int>, frozen: int, log: Log): Log {
    if dates == [] then log else
    var d, before := dates[|dates| - 1], LaterDates(gen, facts, claims, dates[..|dates| - 1], frozen, log);
    if d > frozen then LaterDate(gen, facts, claims, d, before) else before
  }

  /** Noise begins 60 days before the first date and ends with the last one or the frozen one. */
  function NoisyDays(dates: seq<int>, frozen: int): nat
    requires dates != []
  {
    var last := if dates[|dates| - 1] < frozen then dates[|dates| - 1] else frozen;
    if last < dates[0] - 60 then 0 else last - (dates[0] - 60) + 1
  }

  function Frozen(gen: CrashGen, facts: Facts, claims: seq<Claim>, dates: seq<int>, frozen: int): Log
    requires dates != []
  {
    NoiseDays(gen, dates[0] - 60, NoisyDays(dates, frozen),
              Crashes(gen, facts, claims, cl => FiledDay(cl) <= frozen, Log(gen.first, 0, [])))
  }

  function Built(gen: CrashGen, facts: Facts, claims: seq<Claim>, dates: seq<int>, frozen: int): Log
    requires dates != []
  {
    LaterDates(gen, facts, claims, dates, frozen, Frozen(gen, facts, claims, dates, frozen))
  }

  /* ---- the noise of a day ---- */

  /** The noise events of a day: those of no claim. */
  ghost function NoiseOn(events: seq<CrashEvent>, d: int): set<nat> {
    set k: nat | k < |events| && events[k].claim.None? && d * DAY <= events[k].t < (d + 1) * DAY
  }

  lemma OneMoreEvent(events: seq<CrashEvent>, e: CrashEvent, d: int)
    ensures |NoiseOn(events + [e], d)|
         == |NoiseOn(events, d)| + if e.claim.None? && d * DAY <= e.t < (d + 1) * DAY then 1 else 0
  {
    var all := events + [e];
    if e.claim.None? && d * DAY <= e.t < (d + 1) * DAY {
      assert NoiseOn(all, d) == NoiseOn(events, d) + {|events|};
    } else {
      assert NoiseOn(all, d) == NoiseOn(events, d);
    }
  }

  lemma OneDayOnly(day: int, offset: int, d: int)
    requires 0 <= offset < DAY
    ensures d * DAY <= day * DAY + offset < (d + 1) * DAY <==> d == day
  {
    if d < day {
      assert (d + 1) * DAY <= day * DAY;
    } else if d > day {
      assert (day + 1) * DAY <= d * DAY;
    }
  }

  lemma {:induction false} NoiseAddsOn(gen: CrashGen, day: int, count: nat, log: Log, d: int)
    requires CrashGenOk(gen)
    ensures |NoiseOn(Noise(gen, day, count, log).events, d)| == |NoiseOn(log.events, d)| + if d == day then count else 0
  {
    if count > 0 {
      var before := Noise(gen, day, count - 1, log);
      NoiseAddsOn(gen, day, count - 1, log, d);
      var (offset, details, rng) := gen.noise(before.rng);
      OneDayOnly(day, offset, d);
      OneMoreEvent(before.events, CrashEvent(before.n + 1, Midnight(day) + offset, None, details), d);
    }
  }

  lemma {:induction false} CrashesAddNone(gen: CrashGen, facts: Facts, claims: seq<Claim>, pick: Claim -> bool,
                                          log: Log, d: int)
    ensures |NoiseOn(Crashes(gen, facts, claims, pick, log).events, d)| == |NoiseOn(log.events, d)|
  {
    if claims != [] {
      var last, before := claims[|claims| - 1], Crashes(gen, facts, claims[..|claims| - 1], pick, log);
      CrashesAddNone(gen, facts, claims[..|claims| - 1], pick, log, d);
      var (jitter, details, rng) := gen.crash(before.rng);
      OneMoreEvent(before.events, CrashEvent(before.n + 1, facts.incident(last) + jitter, Some(last.id), details), d);
    }
  }

  lemma {:induction false} NoiseDaysAddOn(gen: CrashGen, from: int, days: nat, log: Log, d: int)
    requires CrashGenOk(gen)
    ensures |NoiseOn(NoiseDays(gen, from, days, log).events, d)|
         == |NoiseOn(log.events, d)| + if from <= d < from + days then gen.noisePerDay else 0
  {
    if days > 0 {
      NoiseDaysAddOn(gen, from, days - 1, log, d);
      NoiseAddsOn(gen, from + days - 1, gen.noisePerDay, NoiseDays(gen, from, days - 1, log), d);
    }
  }

  lemma {:induction false} LaterDatesAddOn(gen: CrashGen, facts: Facts, claims: seq<Claim>, dates: seq<int>,
                                           frozen: int, log: Log, d: int)
    requires CrashGenOk(gen) && forall i, j | 0 <= i < j < |dates| :: dates[i] < dates[j]
    ensures |NoiseOn(LaterDates(gen, facts, claims, dates, frozen, log).events, d)|
         == |NoiseOn(log.events, d)| + if d in dates && d > frozen then gen.noisePerDay else 0
  {
    if dates != [] {
      var init, last := dates[..|dates| - 1], dates[|dates| - 1];
      var before := LaterDates(gen, facts, claims, init, frozen, log);
      LaterDatesAddOn(gen, facts, claims, init, frozen, log, d);
      assert dates == init + [last];
      if last > frozen {
        var started := before.(rng := gen.dated(last));
        CrashesAddNone(gen, facts, claims, cl => FiledDay(cl) == last, started, d);
        NoiseAddsOn(gen, last, gen.noisePerDay,
                    Crashes(gen, facts, claims, cl => FiledDay(cl) == last, started), d);
      }
    }
  }

  /**
   Every day from 60 days before the first date to the last date, or to the frozen one if that is earlier, has its
   number of noise events, and so has every later date; no other day has any.
   */
  lemma NoiseIsOn(gen: CrashGen, facts: Facts, claims: seq<Claim>, dates: seq<int>, frozen: int, d: int)
    requires CrashGenOk(gen) && dates != [] && forall i, j | 0 <= i < j < |dates| :: dates[i] < dates[j]
    ensures |NoiseOn(Built(gen, facts, claims, dates, frozen).events, d)|
         == if dates[0] - 60 <= d <= dates[|dates| - 1] && (d <= frozen || d in dates) then gen.noisePerDay else 0
  {
    var log := Crashes(gen, facts, claims, cl => FiledDay(cl) <= frozen, Log(gen.first, 0, []));
    CrashesAddNone(gen, facts, claims, cl => FiledDay(cl) <= frozen, Log(gen.first, 0, []), d);
    assert NoiseOn([], d) == {};
    NoiseDaysAddOn(gen, dates[0] - 60, NoisyDays(dates, frozen), log, d);
    LaterDatesAddOn(gen, facts, claims, dates, frozen, Frozen(gen, facts, claims, dates, frozen), d);
    if i :| 0 <= i < |dates| && dates[i] == d {
      assert i > 0 ==> dates[0] < dates[i];
      assert i < |dates| - 1 ==> dates[i] < dates[|dates| - 1];
    }
  }

  /* ---- the list, sorted, and the records of a period ---- */

  /** Time stamps are cut to seconds before they are compared. */
  function Stamp(e: CrashEvent): int { e.t / SECOND }

  function Put(sorted: seq<CrashEvent>, e: CrashEvent): seq<CrashEvent> {
    if sorted == [] || Stamp(sorted[|sorted| - 1]) <= Stamp(e) then sorted + [e]
    else Put(sorted[..|sorted| - 1], e) + [sorted[|sorted| - 1]]
  }

  /** The stable sort by time stamp. */
  function InOrder(events: seq<CrashEvent>): seq<CrashEvent> {
    if events == [] then [] else Put(InOrder(events[..|events| - 1]), events[|events| - 1])
  }

  predicate Within(e: CrashEvent, from: int, to: int) {
    from <= Stamp(e) < to
  }

  function Picked(events: seq<CrashEvent>, from: int, to: int): seq<CrashEvent> {
    if events == [] then [] else
    Picked(events[..|events| - 1], from, to)
      + if Within(events[|events| - 1], from, to) then [events[|events| - 1]] else []
  }

  /** What is sent for a period: the vendor file of the first date ends with its midnight. */
  function Sent(log: Log, from: int, to: int): seq<CrashEvent> {
    Picked(InOrder(log.events), from, to)
  }

  class Recorder {
    const gen: CrashGen
    const facts: Facts
    var n: nat
    var events: seq<CrashEvent>

    function LogWith(rng: Rng): Log
      reads this
    {
      Log(rng, n, events)
    }

    constructor (gen: CrashGen, facts: Facts)
      ensures this.gen == gen && this.facts == facts && n == 0 && events == []
    {
      this.gen, this.facts, n, events := gen, facts, 0, [];
    }

    method RecordCrash(rng: Rng, cl: Claim) returns (next: Rng)
      modifies this
      ensures LogWith(next) == Crash(gen, facts, cl, old(LogWith(rng)))
    {
      n := n + 1;
      var (jitter, details, rng') := gen.crash(rng);
      events := events + [CrashEvent(n, facts.incident(cl) + jitter, Some(cl.id), details)];
      return rng';
    }

    method RecordCrashes(rng: Rng, claims: seq<Claim>, pick: Claim -> bool) returns (next: Rng)
      modifies this
      ensures LogWith(next) == Crashes(gen, facts, claims, pick, old(LogWith(rng)))
    {
      next := rng;
      for i := 0 to |claims|
        invariant LogWith(next) == Crashes(gen, facts, claims[..i], pick, old(LogWith(rng)))
      {
        assert claims[..i + 1][..i] == claims[..i];
        if facts.crashed(claims[i]) && pick(claims[i]) {
          next := RecordCrash(next, claims[i]);
        }
      }
      assert claims[..|claims|] == claims;
    }

    method RecordNoise(rng: Rng, day: int) returns (next: Rng)
      modifies this
      ensures LogWith(next) == Noise(gen, day, gen.noisePerDay, old(LogWith(rng)))
    {
      next := rng;
      for i := 0 to gen.noisePerDay
        invariant LogWith(next) == Noise(gen, day, i, old(LogWith(rng)))
      {
        var (offset, details, rng') := gen.noise(next);
        n := n + 1;
        events := events + [CrashEvent(n, Midnight(day) + offset, None, details)];
        next := rng';
      }
    }

    method RecordFrozen(claims: seq<Claim>, dates: seq<int>, frozen: int) returns (next: Rng)
      requires dates != [] && n == 0 && events == []
      modifies this
      ensures LogWith(next) == Frozen(gen, facts, claims, dates, frozen)
    {
      next := RecordCrashes(gen.first, claims, cl => FiledDay(cl) <= frozen);
      ghost var crashes := LogWith(next);
      var days := NoisyDays(dates, frozen);
      for i := 0 to days
        invariant LogWith(next) == NoiseDays(gen, dates[0] - 60, i, crashes)
      {
        next := RecordNoise(next, dates[0] - 60 + i);
      }
    }

    method Build(claims: seq<Claim>, dates: seq<int>, frozen: int)
      requires dates != [] && n == 0 && events == []
      modifies this
      ensures events == InOrder(Built(gen, facts, claims, dates, frozen).events)
    {
      var rng := RecordFrozen(claims, dates, frozen);
      ghost var first := LogWith(rng);
      for i := 0 to |dates|
        invariant LogWith(rng) == LaterDates(gen, facts, claims, dates[..i], frozen, first)
      {
        assert dates[..i + 1][..i] == dates[..i];
        var d := dates[i];
        if d > frozen {
          rng := RecordCrashes(gen.dated(d), claims, cl => FiledDay(cl) == d);
          rng := RecordNoise(rng, d);
        }
      }
      assert dates[..|dates|] == dates;
      events := InOrder(events);
    }
  }
}
