/**
 Appending business dates and the crash events: the recorded list only grows, but a crash of an appended
 claim lies near its incident, so it can fall into a period whose records were already sent.
 */
module CrashDates {
  import opened Options
  import opened ClaimWorld
  import opened Landing
  import opened LandingReplay
  import opened AppendDates
  import opened Telematics

  /** The crash of one of these claims, within the jitter of its incident. */
  ghost predicate Near(e: CrashEvent, claims: seq<Claim>, facts: Facts) {
    exists cl <- claims :: facts.crashed(cl) && e.claim == Some(cl.id)
                           && facts.incident(cl) - JITTER <= e.t <= facts.incident(cl) + JITTER
  }

  /** What appending may add: events from a day on, and crashes of the appended claims. */
  ghost predicate AreNew(added: seq<CrashEvent>, extra: seq<Claim>, facts: Facts, from: int) {
    forall e <- added :: e.t >= Midnight(from) || Near(e, extra, facts)
  }

  lemma {:induction false} NoiseAdds(gen: CrashGen, day: int, count: nat, log: Log) returns (added: seq<CrashEvent>)
    requires CrashGenOk(gen)
    ensures Noise(gen, day, count, log).events == log.events + added
    ensures forall e <- added :: e.t >= Midnight(day)
  {
    added := [];
    if count > 0 {
      var sofar := NoiseAdds(gen, day, count - 1, log);
      var before := Noise(gen, day, count - 1, log);
      var (offset, details, rng) := gen.noise(before.rng);
      added := sofar + [CrashEvent(before.n + 1, Midnight(day) + offset, None, details)];
    }
  }

  /** Noise days in two parts; the second part is on the later days. */
  lemma {:induction false} NoiseDaysAdd(gen: CrashGen, from: int, a: nat, b: nat, log: Log)
    returns (added: seq<CrashEvent>)
    requires CrashGenOk(gen)
    ensures NoiseDays(gen, from, a + b, log).events == NoiseDays(gen, from, a, log).events + added
    ensures b == 0 ==> NoiseDays(gen, from, a + b, log) == NoiseDays(gen, from, a, log)
    ensures forall e <- added :: e.t >= Midnight(from + a)
  {
    added := [];
    if b > 0 {
      var sofar := NoiseDaysAdd(gen, from, a, b - 1, log);
      var last := NoiseAdds(gen, from + a + b - 1, gen.noisePerDay, NoiseDays(gen, from, a + b - 1, log));
      assert a + b - 1 == a + (b - 1);
      added := sofar + last;
    }
  }

  /** Claims that are not picked do not touch the stream. */
  lemma {:induction false} CrashesSkip(gen: CrashGen, facts: Facts, claims: seq<Claim>, extra: seq<Claim>,
                                       pick: Claim -> bool, log: Log)
    requires forall cl <- extra :: !pick(cl)
    ensures Crashes(gen, facts, claims + extra, pick, log) == Crashes(gen, facts, claims, pick, log)
  {
    if extra == [] {
      assert claims + extra == claims;
    } else {
      CrashesSkip(gen, facts, claims, extra[..|extra| - 1], pick, log);
      assert (claims + extra)[..|claims + extra| - 1] == claims + extra[..|extra| - 1];
    }
  }

  lemma {:induction false} CrashesAdd(gen: CrashGen, facts: Facts, claims: seq<Claim>, pick: Claim -> bool, log: Log,
                                      of: seq<Claim>) returns (added: seq<CrashEvent>)
    requires CrashGenOk(gen) && forall cl <- claims :: pick(cl) ==> cl in of
    ensures Crashes(gen, facts, claims, pick, log).events == log.events + added
    ensures forall e <- added :: Near(e, of, facts)
  {
    added := [];
    if claims != [] {
      var init, last := claims[..|claims| - 1], claims[|claims| - 1];
      added := CrashesAdd(gen, facts, init, pick, log, of);
      if facts.crashed(last) && pick(last) {
        var before := Crashes(gen, facts, init, pick, log);
        var (jitter, details, rng) := gen.crash(before.rng);
        added := added + [CrashEvent(before.n + 1, facts.incident(last) + jitter, Some(last.id), details)];
      }
    }
  }

  lemma LaterDateAdds(gen: CrashGen, facts: Facts, claims: seq<Claim>, d: int, log: Log, of: seq<Claim>)
    returns (added: seq<CrashEvent>)
    requires CrashGenOk(gen) && forall cl <- claims :: FiledDay(cl) == d ==> cl in of
    ensures LaterDate(gen, facts, claims, d, log).events == log.events + added && AreNew(added, of, facts, d)
  {
    var start := log.(rng := gen.dated(d));
    var pick := cl => FiledDay(cl) == d;
    var crashes := CrashesAdd(gen, facts, claims, pick, start, of);
    var noise := NoiseAdds(gen, d, gen.noisePerDay, Crashes(gen, facts, claims, pick, start));
    added := crashes + noise;
  }

  lemma {:induction false} LaterDatesAdd(gen: CrashGen, facts: Facts, claims: seq<Claim>, dates: seq<int>, frozen: int,
                                         log: Log, of: seq<Claim>, from: int) returns (added: seq<CrashEvent>)
    requires CrashGenOk(gen) && (forall i | 0 <= i < |dates| :: dates[i] >= from)
    requires forall cl <- claims :: FiledDay(cl) >= from ==> cl in of
    ensures LaterDates(gen, facts, claims, dates, frozen, log).events == log.events + added
    ensures AreNew(added, of, facts, from)
  {
    added := [];
    if dates != [] {
      var init, d := dates[..|dates| - 1], dates[|dates| - 1];
      added := LaterDatesAdd(gen, facts, claims, init, frozen, log, of, from);
      if d > frozen {
        var more := LaterDateAdds(gen, facts, claims, d, LaterDates(gen, facts, claims, init, frozen, log), of);
        added := added + more;
      }
    }
  }

  lemma {:induction false} LaterDatesSplit(gen: CrashGen, facts: Facts, claims: seq<Claim>, dates: seq<int>,
                                           more: seq<int>, frozen: int, log: Log)
    ensures LaterDates(gen, facts, claims, dates + more, frozen, log)
         == LaterDates(gen, facts, claims, more, frozen, LaterDates(gen, facts, claims, dates, frozen, log))
  {
    if more == [] {
      assert dates + more == dates;
    } else {
      LaterDatesSplit(gen, facts, claims, dates, more[..|more| - 1], frozen, log);
      assert (dates + more)[..|dates + more| - 1] == dates + more[..|more| - 1];
    }
  }

  /** The earlier dates' streams do not see the appended claims. */
  lemma {:induction false} LaterDatesSkip(gen: CrashGen, facts: Facts, claims: seq<Claim>, extra: seq<Claim>,
                                          dates: seq<int>, frozen: int, log: Log, first: int)
    requires (forall i | 0 <= i < |dates| :: dates[i] < first) && forall cl <- extra :: FiledDay(cl) >= first
    ensures LaterDates(gen, facts, claims + extra, dates, frozen, log)
         == LaterDates(gen, facts, claims, dates, frozen, log)
  {
    if dates != [] {
      var init, d := dates[..|dates| - 1], dates[|dates| - 1];
      LaterDatesSkip(gen, facts, claims, extra, init, frozen, log, first);
      var before := LaterDates(gen, facts, claims, init, frozen, log);
      CrashesSkip(gen, facts, claims, extra, cl => FiledDay(cl) == d, before.(rng := gen.dated(d)));
    }
  }

  lemma {:induction false} NoneLater(gen: CrashGen, facts: Facts, claims: seq<Claim>, dates: seq<int>, frozen: int,
                                     log: Log)
    requires forall i | 0 <= i < |dates| :: dates[i] <= frozen
    ensures LaterDates(gen, facts, claims, dates, frozen, log) == log
  {
    if dates != [] {
      NoneLater(gen, facts, claims, dates[..|dates| - 1], frozen, log);
    }
  }

  /** Claims of the earlier world, and claims of the appended dates. */
  ghost predicate FiledApart(claims: seq<Claim>, extra: seq<Claim>, first: int) {
    (forall cl <- claims :: FiledDay(cl) < first) && forall cl <- extra :: FiledDay(cl) >= first
  }

  /** The two sets of dates side by side. */
  lemma DatesApart(dates: seq<int>, more: seq<int>, frozen: int)
    requires Appends(dates, more, frozen)
    ensures forall i | 0 <= i < |dates| :: dates[0] <= dates[i] <= dates[|dates| - 1] < more[0]
    ensures forall i | 0 <= i < |more| :: frozen < more[0] <= more[i] <= more[|more| - 1]
    ensures (dates + more)[0] == dates[0] && (dates + more)[|dates + more| - 1] == more[|more| - 1]
  {
    var all := dates + more;
    assert more[0] in more;
    assert all[|dates|] == more[0] && all[|all| - 1] == more[|more| - 1];
    forall i | 0 <= i < |more| ensures more[0] <= more[i] <= more[|more| - 1] {
      assert all[|dates| + i] == more[i];
    }
    forall i | 0 <= i < |dates| ensures dates[0] <= dates[i] <= dates[|dates| - 1] < more[0] {
      assert all[i] == dates[i] && all[0] == dates[0] && all[|dates| - 1] == dates[|dates| - 1];
    }
  }

  /** The part up to the frozen date gets at most more days of noise. */
  lemma FrozenPart(gen: CrashGen, facts: Facts, claims: seq<Claim>, extra: seq<Claim>, dates: seq<int>,
                   more: seq<int>, frozen: int)
    returns (added: seq<CrashEvent>)
    requires CrashGenOk(gen) && Appends(dates, more, frozen) && forall cl <- extra :: FiledDay(cl) >= more[0]
    ensures Frozen(gen, facts, claims + extra, dates + more, frozen).events
         == Frozen(gen, facts, claims, dates, frozen).events + added
    ensures dates[|dates| - 1] >= frozen ==>
              Frozen(gen, facts, claims + extra, dates + more, frozen) == Frozen(gen, facts, claims, dates, frozen)
    ensures forall e <- added :: e.t >= Midnight(dates[|dates| - 1] + 1)
  {
    DatesApart(dates, more, frozen);
    var pick: Claim -> bool := cl => FiledDay(cl) <= frozen;
    CrashesSkip(gen, facts, claims, extra, pick, Log(gen.first, 0, []));
    var a, b := NoisyDays(dates, frozen), NoisyDays(dates + more, frozen);
    assert dates[0] <= dates[|dates| - 1];
    added := NoiseDaysAdd(gen, dates[0] - 60, a, b - a, Crashes(gen, facts, claims, pick, Log(gen.first, 0, [])));
    if dates[|dates| - 1] >= frozen {
      assert a == b;
      added := [];
    }
  }

  /** The log of the appended world before its appended dates. */
  function SofarBuilt(gen: CrashGen, facts: Facts, claims: seq<Claim>, dates: seq<int>, more: seq<int>,
                      frozen: int): Log
    requires dates != []
  {
    LaterDates(gen, facts, claims, dates, frozen, Frozen(gen, facts, claims, dates + more, frozen))
  }

  lemma BuiltInParts(gen: CrashGen, facts: Facts, claims: seq<Claim>, dates: seq<int>, more: seq<int>, frozen: int)
    requires dates != []
    ensures Built(gen, facts, claims, dates + more, frozen)
         == LaterDates(gen, facts, claims, more, frozen, SofarBuilt(gen, facts, claims, dates, more, frozen))
  {
    LaterDatesSplit(gen, facts, claims, dates, more, frozen, Frozen(gen, facts, claims, dates + more, frozen));
  }

  /** What the earlier dates contribute to the appended world: all they had, and at most noise on later days. */
  lemma EarlierPart(gen: CrashGen, facts: Facts, claims: seq<Claim>, extra: seq<Claim>, dates: seq<int>,
                    more: seq<int>, frozen: int)
    returns (added: seq<CrashEvent>)
    requires CrashGenOk(gen) && Appends(dates, more, frozen) && FiledApart(claims, extra, more[0])
    ensures SofarBuilt(gen, facts, claims + extra, dates, more, frozen).events
         == Built(gen, facts, claims, dates, frozen).events + added
    ensures forall e <- added :: e.t >= Midnight(dates[|dates| - 1] + 1)
  {
    DatesApart(dates, more, frozen);
    var first := Frozen(gen, facts, claims + extra, dates + more, frozen);
    added := FrozenPart(gen, facts, claims, extra, dates, more, frozen);
    LaterDatesSkip(gen, facts, claims, extra, dates, frozen, first, more[0]);
    if dates[|dates| - 1] >= frozen {
      added := [];
    } else {
      NoneLater(gen, facts, claims, dates, frozen, first);
      NoneLater(gen, facts, claims, dates, frozen, Frozen(gen, facts, claims, dates, frozen));
    }
  }

  /**
   The events recorded for the earlier dates, numbers included, are a prefix of those of the appended world.
   What is added lies after the earlier dates, or is a crash of an appended claim.
   */
  lemma CrashesArePrefix(gen: CrashGen, facts: Facts, claims: seq<Claim>, extra: seq<Claim>, dates: seq<int>,
                         more: seq<int>, frozen: int)
    returns (added: seq<CrashEvent>)
    requires CrashGenOk(gen) && Appends(dates, more, frozen) && FiledApart(claims, extra, more[0])
    ensures Built(gen, facts, claims + extra, dates + more, frozen).events
         == Built(gen, facts, claims, dates, frozen).events + added
    ensures AreNew(added, extra, facts, dates[|dates| - 1] + 1)
  {
    var earlier := EarlierPart(gen, facts, claims, extra, dates, more, frozen);
    BuiltInParts(gen, facts, claims + extra, dates, more, frozen);
    DatesApart(dates, more, frozen);
    var later := LaterDatesAdd(gen, facts, claims + extra, more, frozen,
                               SofarBuilt(gen, facts, claims + extra, dates, more, frozen), extra, more[0]);
    added := earlier + later;
  }

  /* ---- the records of a period ---- */

  ghost predicate IsSorted(events: seq<CrashEvent>) {
    forall i, j | 0 <= i < j < |events| :: Stamp(events[i]) <= Stamp(events[j])
  }

  lemma {:induction false} PutSorts(sorted: seq<CrashEvent>, e: CrashEvent)
    requires IsSorted(sorted)
    ensures IsSorted(Put(sorted, e)) && forall x :: x in Put(sorted, e) <==> x in sorted || x == e
  {
    if sorted != [] && Stamp(sorted[|sorted| - 1]) > Stamp(e) {
      var init, last := sorted[..|sorted| - 1], sorted[|sorted| - 1];
      PutSorts(init, e);
      var r := Put(init, e);
      forall i | 0 <= i < |r| ensures Stamp(r[i]) <= Stamp(last) {
        assert r[i] in r;
      }
      assert forall x :: x in sorted <==> x in init || x == last;
    }
  }

  lemma {:induction false} InOrderSorts(events: seq<CrashEvent>)
    ensures IsSorted(InOrder(events))
  {
    if events != [] {
      InOrderSorts(events[..|events| - 1]);
      PutSorts(InOrder(events[..|events| - 1]), events[|events| - 1]);
    }
  }

  lemma {:induction false} PickedOfConcat(a: seq<CrashEvent>, b: seq<CrashEvent>, from: int, to: int)
    ensures Picked(a + b, from, to) == Picked(a, from, to) + Picked(b, from, to)
  {
    if b == [] {
      assert a + b == a;
    } else {
      PickedOfConcat(a, b[..|b| - 1], from, to);
      assert (a + b)[..|a + b| - 1] == a + b[..|b| - 1];
    }
  }

  lemma {:induction false} PickedIs(events: seq<CrashEvent>, from: int, to: int, e: CrashEvent)
    ensures e in Picked(events, from, to) <==> e in events && Within(e, from, to)
  {
    if events != [] {
      PickedIs(events[..|events| - 1], from, to, e);
      assert e in events <==> e in events[..|events| - 1] || e == events[|events| - 1];
    }
  }

  lemma {:induction false} PickedNone(events: seq<CrashEvent>, from: int, to: int)
    ensures Picked(events, from, to) == [] <==> forall e <- events :: !Within(e, from, to)
  {
    if events != [] {
      PickedNone(events[..|events| - 1], from, to);
      assert forall e :: e in events <==> e in events[..|events| - 1] || e == events[|events| - 1];
    }
  }

  lemma PickedOfLast(init: seq<CrashEvent>, last: CrashEvent, from: int, to: int)
    ensures Picked(init + [last], from, to) == Picked(init, from, to) + if Within(last, from, to) then [last] else []
  {
    assert (init + [last])[..|init|] == init;
  }

  /** Sorting an event in puts it into the records of its own period only. */
  lemma {:induction false} PutInPeriod(sorted: seq<CrashEvent>, e: CrashEvent, from: int, to: int)
    requires IsSorted(sorted)
    ensures Picked(Put(sorted, e), from, to)
         == if Within(e, from, to) then Put(Picked(sorted, from, to), e) else Picked(sorted, from, to)
  {
    if sorted == [] || Stamp(sorted[|sorted| - 1]) <= Stamp(e) {
      PickedOfLast(sorted, e, from, to);
      if Within(e, from, to) {
        PutAtEnd(sorted, e, from, to);
      }
    } else {
      var init, last := sorted[..|sorted| - 1], sorted[|sorted| - 1];
      PutInPeriod(init, e, from, to);
      PickedOfLast(Put(init, e), last, from, to);
      if Within(e, from, to) && !Within(last, from, to) {
        assert Picked(sorted, from, to) == Picked(init, from, to);
      } else if Within(e, from, to) {
        assert Picked(sorted, from, to) == Picked(init, from, to) + [last];
      }
    }
  }

  lemma PutAtEnd(sorted: seq<CrashEvent>, e: CrashEvent, from: int, to: int)
    requires IsSorted(sorted) && (sorted == [] || Stamp(sorted[|sorted| - 1]) <= Stamp(e))
    ensures Put(Picked(sorted, from, to), e) == Picked(sorted, from, to) + [e]
  {
    var p := Picked(sorted, from, to);
    if p != [] {
      PickedIs(sorted, from, to, p[|p| - 1]);
      var i :| 0 <= i < |sorted| && sorted[i] == p[|p| - 1];
      assert i < |sorted| - 1 ==> Stamp(sorted[i]) <= Stamp(sorted[|sorted| - 1]);
    }
  }

  lemma OneMoreInOrder(init: seq<CrashEvent>, last: CrashEvent)
    ensures InOrder(init + [last]) == Put(InOrder(init), last)
  {
    assert (init + [last])[..|init|] == init;
  }

  lemma {:induction false} SentAre(events: seq<CrashEvent>, from: int, to: int)
    ensures Picked(InOrder(events), from, to) == InOrder(Picked(events, from, to))
  {
    if events != [] {
      var init, last := events[..|events| - 1], events[|events| - 1];
      assert events == init + [last];
      SentAre(init, from, to);
      InOrderSorts(init);
      OneMoreInOrder(init, last);
      PutInPeriod(InOrder(init), last, from, to);
      PickedOfLast(init, last, from, to);
      if Within(last, from, to) {
        OneMoreInOrder(Picked(init, from, to), last);
      } else {
        assert Picked(init, from, to) + [] == Picked(init, from, to);
      }
    }
  }

  lemma {:induction false} InOrderKeepsCount(events: seq<CrashEvent>)
    ensures |InOrder(events)| == |events|
  {
    if events != [] {
      InOrderKeepsCount(events[..|events| - 1]);
      PutCounts(InOrder(events[..|events| - 1]), events[|events| - 1]);
    }
  }

  lemma {:induction false} PutCounts(sorted: seq<CrashEvent>, e: CrashEvent)
    ensures |Put(sorted, e)| == |sorted| + 1
  {
    if sorted != [] && Stamp(sorted[|sorted| - 1]) > Stamp(e) {
      PutCounts(sorted[..|sorted| - 1], e);
    }
  }

  lemma SentStayIff(was: Log, now: Log, added: seq<CrashEvent>, from: int, to: int)
    requires now.events == was.events + added
    ensures Sent(now, from, to) == Sent(was, from, to) <==> forall e <- added :: !Within(e, from, to)
  {
    SentAre(was.events, from, to);
    SentAre(now.events, from, to);
    PickedOfConcat(was.events, added, from, to);
    PickedNone(added, from, to);
    InOrderKeepsCount(Picked(was.events, from, to));
    InOrderKeepsCount(Picked(now.events, from, to));
    if Picked(added, from, to) == [] {
      assert Picked(now.events, from, to) == Picked(was.events, from, to);
    }
  }

  /** The claims with a crash that were filed on a date, in claim order. */
  function CrashedOn(facts: Facts, claims: seq<Claim>, d: int): seq<Claim> {
    if claims == [] then [] else
    var last := claims[|claims| - 1];
    CrashedOn(facts, claims[..|claims| - 1], d) + if facts.crashed(last) && FiledDay(last) == d then [last] else []
  }

  /** The crash times that a stream gives these claims one after the other, and where it stands then. */
  function Drawn(gen: CrashGen, facts: Facts, crashed: seq<Claim>, rng: Rng): (r: (seq<int>, Rng))
    ensures |r.0| == |crashed|
  {
    if crashed == [] then ([], rng) else
    var last, before := crashed[|crashed| - 1], Drawn(gen, facts, crashed[..|crashed| - 1], rng);
    var (jitter, details, next) := gen.crash(before.1);
    (before.0 + [facts.incident(last) + jitter], next)
  }

  /** The crash times drawn for the claims of one date, from that date's own stream. */
  function DrawnOn(gen: CrashGen, facts: Facts, claims: seq<Claim>, d: int): seq<int> {
    Drawn(gen, facts, CrashedOn(facts, claims, d), gen.dated(d)).0
  }

  predicate FallsIn(times: seq<int>, from: int, to: int) {
    exists k | 0 <= k < |times| :: from <= times[k] / SECOND < to
  }

  lemma DrawnOneMore(gen: CrashGen, facts: Facts, init: seq<Claim>, last: Claim, rng: Rng)
    ensures var before := Drawn(gen, facts, init, rng);
      var (jitter, details, next) := gen.crash(before.1);
      Drawn(gen, facts, init + [last], rng) == (before.0 + [facts.incident(last) + jitter], next)
  {
    assert (init + [last])[..|init|] == init;
  }

  /** The crashes of a later date are at the times drawn. */
  lemma {:induction false} CrashesAreDrawn(gen: CrashGen, facts: Facts, claims: seq<Claim>, d: int,
                                           pick: Claim -> bool, log: Log)
    returns (added: seq<CrashEvent>)
    requires forall cl <- claims :: pick(cl) == (FiledDay(cl) == d)
    ensures var r := Crashes(gen, facts, claims, pick, log);
      r.events == log.events + added && AreAt(added, r.rng, Drawn(gen, facts, CrashedOn(facts, claims, d), log.rng))
  {
    added := [];
    if claims != [] {
      var init, last := claims[..|claims| - 1], claims[|claims| - 1];
      added := CrashesAreDrawn(gen, facts, init, d, pick, log);
      if facts.crashed(last) && FiledDay(last) == d {
        var before := Crashes(gen, facts, init, pick, log);
        var (jitter, details, rng) := gen.crash(before.rng);
        added := added + [CrashEvent(before.n + 1, facts.incident(last) + jitter, Some(last.id), details)];
        DrawnOneMore(gen, facts, CrashedOn(facts, init, d), last, log.rng);
      } else {
        assert CrashedOn(facts, init, d) + [] == CrashedOn(facts, init, d);
      }
    }
  }

  predicate AreAt(events: seq<CrashEvent>, rng: Rng, drawn: (seq<int>, Rng)) {
    rng == drawn.1 && |events| == |drawn.0| && forall k | 0 <= k < |events| :: events[k].t == drawn.0[k]
  }

  ghost predicate AnyWithin(events: seq<CrashEvent>, from: int, to: int) {
    exists e <- events :: Within(e, from, to)
  }

  lemma AnyOfConcat(a: seq<CrashEvent>, b: seq<CrashEvent>, from: int, to: int)
    ensures AnyWithin(a + b, from, to) <==> AnyWithin(a, from, to) || AnyWithin(b, from, to)
  {
  }

  lemma LaterAreNotWithin(events: seq<CrashEvent>, day: int, from: int, to: int)
    requires (forall e <- events :: e.t >= Midnight(day)) && to * SECOND <= Midnight(day)
    ensures !AnyWithin(events, from, to)
  {
    forall e | e in events ensures !Within(e, from, to) {
      assert e.t >= to * SECOND;
    }
  }

  lemma TimesAreWithin(events: seq<CrashEvent>, times: seq<int>, from: int, to: int)
    requires |events| == |times| && forall k | 0 <= k < |times| :: events[k].t == times[k]
    ensures AnyWithin(events, from, to) <==> FallsIn(times, from, to)
  {
    if k :| 0 <= k < |times| && from <= times[k] / SECOND < to {
      assert events[k] in events;
    }
  }

  /** Of a later date only its drawn crash times can fall into an earlier period. */
  lemma LaterDateWithin(gen: CrashGen, facts: Facts, claims: seq<Claim>, d: int, log: Log, from: int, to: int)
    returns (added: seq<CrashEvent>)
    requires CrashGenOk(gen) && to * SECOND <= Midnight(d)
    ensures LaterDate(gen, facts, claims, d, log).events == log.events + added
    ensures AnyWithin(added, from, to) <==> FallsIn(DrawnOn(gen, facts, claims, d), from, to)
  {
    var start := log.(rng := gen.dated(d));
    var pick: Claim -> bool := cl => FiledDay(cl) == d;
    var crashes := CrashesAreDrawn(gen, facts, claims, d, pick, start);
    var noise := NoiseAdds(gen, d, gen.noisePerDay, Crashes(gen, facts, claims, pick, start));
    added := crashes + noise;
    AnyOfConcat(crashes, noise, from, to);
    LaterAreNotWithin(noise, d, from, to);
    TimesAreWithin(crashes, DrawnOn(gen, facts, claims, d), from, to);
  }

  /** A crash time drawn for the claims of one of the dates lies in the period. */
  ghost predicate CrashFallsIn(gen: CrashGen, facts: Facts, claims: seq<Claim>, dates: seq<int>, from: int, to: int) {
    exists i | 0 <= i < |dates| :: FallsIn(DrawnOn(gen, facts, claims, dates[i]), from, to)
  }

  lemma {:induction false} LaterDatesWithin(gen: CrashGen, facts: Facts, claims: seq<Claim>, dates: seq<int>,
                                            frozen: int, log: Log, from: int,
                                            to: int) returns (added: seq<CrashEvent>)
    requires CrashGenOk(gen) && forall i | 0 <= i < |dates| :: dates[i] > frozen && to * SECOND <= Midnight(dates[i])
    ensures LaterDates(gen, facts, claims, dates, frozen, log).events == log.events + added
    ensures AnyWithin(added, from, to) <==> CrashFallsIn(gen, facts, claims, dates, from, to)
  {
    added := [];
    if dates != [] {
      var init, d := dates[..|dates| - 1], dates[|dates| - 1];
      var sofar := LaterDatesWithin(gen, facts, claims, init, frozen, log, from, to);
      var last := LaterDateWithin(gen, facts, claims, d, LaterDates(gen, facts, claims, init, frozen, log), from, to);
      added := sofar + last;
      AnyOfConcat(sofar, last, from, to);
      OneMoreDate(gen, facts, claims, dates, from, to);
    }
  }

  lemma OneMoreDate(gen: CrashGen, facts: Facts, claims: seq<Claim>, dates: seq<int>, from: int, to: int)
    requires dates != []
    ensures CrashFallsIn(gen, facts, claims, dates, from, to)
       <==> CrashFallsIn(gen, facts, claims, dates[..|dates| - 1], from, to)
            || FallsIn(DrawnOn(gen, facts, claims, dates[|dates| - 1]), from, to)
  {
    var init := dates[..|dates| - 1];
    if i :| 0 <= i < |dates| && FallsIn(DrawnOn(gen, facts, claims, dates[i]), from, to) {
      assert i < |init| ==> init[i] == dates[i];
    }
    if i :| 0 <= i < |init| && FallsIn(DrawnOn(gen, facts, claims, init[i]), from, to) {
      assert dates[i] == init[i];
    }
  }

  lemma {:induction false} NoneOnDate(facts: Facts, claims: seq<Claim>, d: int)
    requires forall cl <- claims :: FiledDay(cl) != d
    ensures CrashedOn(facts, claims, d) == []
  {
    if claims != [] {
      NoneOnDate(facts, claims[..|claims| - 1], d);
    }
  }

  lemma {:induction false} OnlyExtra(facts: Facts, claims: seq<Claim>, extra: seq<Claim>, d: int)
    requires forall cl <- claims :: FiledDay(cl) != d
    ensures CrashedOn(facts, claims + extra, d) == CrashedOn(facts, extra, d)
  {
    if extra == [] {
      assert claims + extra == claims;
      NoneOnDate(facts, claims, d);
    } else {
      OnlyExtra(facts, claims, extra[..|extra| - 1], d);
      assert (claims + extra)[..|claims + extra| - 1] == claims + extra[..|extra| - 1];
    }
  }

  /** Appended dates draw crashes for the appended claims alone. */
  lemma OnlyExtraFallsIn(gen: CrashGen, facts: Facts, claims: seq<Claim>, extra: seq<Claim>, dates: seq<int>,
                         from: int, to: int)
    requires forall cl, i | cl in claims && 0 <= i < |dates| :: FiledDay(cl) < dates[i]
    ensures CrashFallsIn(gen, facts, claims + extra, dates, from, to)
       <==> CrashFallsIn(gen, facts, extra, dates, from, to)
  {
    forall i | 0 <= i < |dates|
      ensures DrawnOn(gen, facts, claims + extra, dates[i]) == DrawnOn(gen, facts, extra, dates[i])
    {
      OnlyExtra(facts, claims, extra, dates[i]);
    }
  }

  lemma {:induction false} DrawnAreNear(gen: CrashGen, facts: Facts, crashed: seq<Claim>, rng: Rng, k: nat)
    requires CrashGenOk(gen) && k < |crashed|
    ensures var incident := facts.incident(crashed[k]);
      incident - JITTER <= Drawn(gen, facts, crashed, rng).0[k] <= incident + JITTER
  {
    if k < |crashed| - 1 {
      DrawnAreNear(gen, facts, crashed[..|crashed| - 1], rng, k);
    }
  }

  lemma {:induction false} CrashedAreFiled(facts: Facts, claims: seq<Claim>, d: int)
    ensures forall cl <- CrashedOn(facts, claims, d) :: cl in claims && facts.crashed(cl) && FiledDay(cl) == d
  {
    if claims != [] {
      CrashedAreFiled(facts, claims[..|claims| - 1], d);
    }
  }

  /** A period that ends long enough before the first date is out of reach. */
  lemma OutOfReach(gen: CrashGen, facts: Facts, extra: seq<Claim>, dates: seq<int>, from: int, to: int, first: int)
    requires CrashGenOk(gen) && (forall cl <- extra :: FiledDay(cl) >= first && facts.incident(cl) >= cl.fnol - REACH)
    requires to * SECOND <= Midnight(first) - REACH - JITTER
    ensures !CrashFallsIn(gen, facts, extra, dates, from, to)
  {
    forall i, k | 0 <= i < |dates| && 0 <= k < |DrawnOn(gen, facts, extra, dates[i])|
      ensures DrawnOn(gen, facts, extra, dates[i])[k] / SECOND >= to
    {
      var crashed := CrashedOn(facts, extra, dates[i]);
      CrashedAreFiled(facts, extra, dates[i]);
      DrawnAreNear(gen, facts, crashed, gen.dated(dates[i]), k);
      assert crashed[k] in crashed;
    }
  }

  /**
   Appending dates leaves the crash records of a period of the earlier dates, the vendor file of the first
   date among them, if and only if none of the crash times drawn for the appended claims, each date's from its
   own stream, falls into the period. That is so for sure when the period ends more than the longest
   reporting time, 25 days and 6 hours, and the jitter before the first appended date.
   */
  lemma CrashRecordsStayIff(gen: CrashGen, facts: Facts, claims: seq<Claim>, extra: seq<Claim>,
                            dates: seq<int>, more: seq<int>, frozen: int, from: int, to: int)
    requires CrashGenOk(gen) && Appends(dates, more, frozen) && FiledApart(claims, extra, more[0])
    requires to * SECOND <= Midnight(dates[|dates| - 1] + 1)
    requires forall cl <- extra :: facts.incident(cl) >= cl.fnol - REACH
    ensures Sent(Built(gen, facts, claims + extra, dates + more, frozen), from, to)
            == Sent(Built(gen, facts, claims, dates, frozen), from, to)
       <==> !CrashFallsIn(gen, facts, extra, more, from, to)
    ensures to * SECOND <= Midnight(more[0]) - REACH - JITTER ==> !CrashFallsIn(gen, facts, extra, more, from, to)
  {
    var added := AddedWithin(gen, facts, claims, extra, dates, more, frozen, from, to);
    SentStayIff(Built(gen, facts, claims, dates, frozen),
                Built(gen, facts, claims + extra, dates + more, frozen), added, from, to);
    DatesApart(dates, more, frozen);
    OnlyExtraFallsIn(gen, facts, claims, extra, more, from, to);
    if to * SECOND <= Midnight(more[0]) - REACH - JITTER {
      OutOfReach(gen, facts, extra, more, from, to, more[0]);
    }
  }

  lemma AddedWithin(gen: CrashGen, facts: Facts, claims: seq<Claim>, extra: seq<Claim>, dates: seq<int>, more: seq<int>,
                    frozen: int, from: int, to: int) returns (added: seq<CrashEvent>)
    requires CrashGenOk(gen) && Appends(dates, more, frozen) && FiledApart(claims, extra, more[0])
    requires to * SECOND <= Midnight(dates[|dates| - 1] + 1)
    ensures Built(gen, facts, claims + extra, dates + more, frozen).events
         == Built(gen, facts, claims, dates, frozen).events + added
    ensures AnyWithin(added, from, to) <==> CrashFallsIn(gen, facts, claims + extra, more, from, to)
  {
    PeriodIsEarlier(dates, more, frozen, to);
    BuiltInParts(gen, facts, claims + extra, dates, more, frozen);
    var earlier := EarlierPart(gen, facts, claims, extra, dates, more, frozen);
    LaterAreNotWithin(earlier, dates[|dates| - 1] + 1, from, to);
    var sofar := SofarBuilt(gen, facts, claims + extra, dates, more, frozen);
    var later := LaterDatesWithin(gen, facts, claims + extra, more, frozen, sofar, from, to);
    added := JoinWithin(Built(gen, facts, claims, dates, frozen).events, earlier, later, from, to);
  }

  lemma JoinWithin(events: seq<CrashEvent>, earlier: seq<CrashEvent>, later: seq<CrashEvent>, from: int, to: int)
    returns (added: seq<CrashEvent>)
    requires !AnyWithin(earlier, from, to)
    ensures events + earlier + later == events + added && (AnyWithin(added, from, to) <==> AnyWithin(later, from, to))
  {
    added := earlier + later;
    AnyOfConcat(earlier, later, from, to);
  }

  lemma PeriodIsEarlier(dates: seq<int>, more: seq<int>, frozen: int, to: int)
    requires Appends(dates, more, frozen) && to * SECOND <= Midnight(dates[|dates| - 1] + 1)
    ensures forall i | 0 <= i < |more| :: more[i] > frozen && to * SECOND <= Midnight(more[i])
  {
    DatesApart(dates, more, frozen);
    forall i | 0 <= i < |more| ensures to * SECOND <= Midnight(more[i]) {
      assert dates[|dates| - 1] + 1 <= more[i];
    }
  }

  /* ---- every crash is recorded, and every event has a number of its own ---- */

  ghost predicate IsNumbered(log: Log) {
    log.n == |log.events| && forall k | 0 <= k < |log.events| :: log.events[k].number == k + 1
  }

  lemma {:induction false} CrashesAreNumbered(gen: CrashGen, facts: Facts, claims: seq<Claim>, pick: Claim -> bool,
                                              log: Log)
    requires IsNumbered(log)
    ensures IsNumbered(Crashes(gen, facts, claims, pick, log))
  {
    if claims != [] {
      CrashesAreNumbered(gen, facts, claims[..|claims| - 1], pick, log);
    }
  }

  lemma {:induction false} NoiseIsNumbered(gen: CrashGen, day: int, count: nat, log: Log)
    requires IsNumbered(log)
    ensures IsNumbered(Noise(gen, day, count, log)) && |Noise(gen, day, count, log).events| == |log.events| + count
  {
    if count > 0 {
      NoiseIsNumbered(gen, day, count - 1, log);
    }
  }

  lemma {:induction false} NoiseDaysAreNumbered(gen: CrashGen, from: int, days: nat, log: Log)
    requires IsNumbered(log)
    ensures IsNumbered(NoiseDays(gen, from, days, log))
  {
    if days > 0 {
      NoiseDaysAreNumbered(gen, from, days - 1, log);
      NoiseIsNumbered(gen, from + days - 1, gen.noisePerDay, NoiseDays(gen, from, days - 1, log));
    }
  }

  lemma {:induction false} LaterDatesAreNumbered(gen: CrashGen, facts: Facts, claims: seq<Claim>, dates: seq<int>,
                                                 frozen: int, log: Log)
    requires IsNumbered(log)
    ensures IsNumbered(LaterDates(gen, facts, claims, dates, frozen, log))
  {
    if dates != [] {
      var init, d := dates[..|dates| - 1], dates[|dates| - 1];
      LaterDatesAreNumbered(gen, facts, claims, init, frozen, log);
      var start := LaterDates(gen, facts, claims, init, frozen, log).(rng := gen.dated(d));
      CrashesAreNumbered(gen, facts, claims, cl => FiledDay(cl) == d, start);
      NoiseIsNumbered(gen, d, gen.noisePerDay, Crashes(gen, facts, claims, cl => FiledDay(cl) == d, start));
    }
  }

  /** One counter runs through all streams: the k-th event recorded has number k, so no id is used twice. */
  lemma EventsAreNumbered(gen: CrashGen, facts: Facts, claims: seq<Claim>, dates: seq<int>, frozen: int)
    requires dates != []
    ensures IsNumbered(Built(gen, facts, claims, dates, frozen))
  {
    var pick: Claim -> bool := cl => FiledDay(cl) <= frozen;
    CrashesAreNumbered(gen, facts, claims, pick, Log(gen.first, 0, []));
    NoiseDaysAreNumbered(gen, dates[0] - 60, NoisyDays(dates, frozen),
                         Crashes(gen, facts, claims, pick, Log(gen.first, 0, [])));
    LaterDatesAreNumbered(gen, facts, claims, dates, frozen, Frozen(gen, facts, claims, dates, frozen));
  }

  lemma {:induction false} CrashesRecord(gen: CrashGen, facts: Facts, claims: seq<Claim>, pick: Claim -> bool,
                                         log: Log, cl: Claim)
    returns (k: nat)
    requires CrashGenOk(gen) && cl in claims && facts.crashed(cl) && pick(cl)
    ensures |log.events| <= k < |Crashes(gen, facts, claims, pick, log).events|
    ensures Near(Crashes(gen, facts, claims, pick, log).events[k], [cl], facts)
  {
    var init, last := claims[..|claims| - 1], claims[|claims| - 1];
    var added := CrashesAdd(gen, facts, init, pick, log, init);
    if cl == last {
      k := |Crashes(gen, facts, init, pick, log).events|;
      assert cl in [cl];
    } else {
      k := CrashesRecord(gen, facts, init, pick, log, cl);
    }
  }

  lemma LaterDateRecords(gen: CrashGen, facts: Facts, claims: seq<Claim>, d: int, log: Log, cl: Claim) returns (k: nat)
    requires CrashGenOk(gen) && cl in claims && facts.crashed(cl) && FiledDay(cl) == d
    ensures |log.events| <= k < |LaterDate(gen, facts, claims, d, log).events|
    ensures Near(LaterDate(gen, facts, claims, d, log).events[k], [cl], facts)
  {
    var start := log.(rng := gen.dated(d));
    var pick: Claim -> bool := cl => FiledDay(cl) == d;
    k := CrashesRecord(gen, facts, claims, pick, start, cl);
    var noise := NoiseAdds(gen, d, gen.noisePerDay, Crashes(gen, facts, claims, pick, start));
  }

  lemma {:induction false} LaterDatesRecord(gen: CrashGen, facts: Facts, claims: seq<Claim>, dates: seq<int>,
                                            frozen: int, log: Log, cl: Claim, i: nat) returns (k: nat)
    requires CrashGenOk(gen) && cl in claims && facts.crashed(cl)
    requires i < |dates| && FiledDay(cl) == dates[i] > frozen
    requires forall j | 0 <= j < |dates| :: dates[j] >= dates[0]
    ensures |log.events| <= k < |LaterDates(gen, facts, claims, dates, frozen, log).events|
    ensures Near(LaterDates(gen, facts, claims, dates, frozen, log).events[k], [cl], facts)
  {
    var init, d := dates[..|dates| - 1], dates[|dates| - 1];
    var before := LaterDates(gen, facts, claims, init, frozen, log);
    if i == |dates| - 1 {
      var sofar := LaterDatesAdd(gen, facts, claims, init, frozen, log, claims, dates[0]);
      k := LaterDateRecords(gen, facts, claims, d, before, cl);
    } else {
      k := LaterDatesRecord(gen, facts, claims, init, frozen, log, cl, i);
      var more := LaterDateAdds(gen, facts, claims, d, before, claims);
    }
  }

  /**
   The promise that appending changes nothing already loaded fails for every appended claim whose incident,
   with the jitter, lies in a period already sent: the records of that period change.
   */
  lemma AppendedCrashShows(gen: CrashGen, facts: Facts, claims: seq<Claim>, extra: seq<Claim>, dates: seq<int>,
                           more: seq<int>, frozen: int, cl: Claim, i: nat, from: int, to: int)
    requires CrashGenOk(gen) && Appends(dates, more, frozen) && FiledApart(claims, extra, more[0])
    requires cl in extra && facts.crashed(cl) && i < |more| && FiledDay(cl) == more[i]
    requires from * SECOND <= facts.incident(cl) - JITTER && facts.incident(cl) + JITTER < to * SECOND
    ensures Sent(Built(gen, facts, claims + extra, dates + more, frozen), from, to)
         != Sent(Built(gen, facts, claims, dates, frozen), from, to)
  {
    DatesApart(dates, more, frozen);
    var was, now := Built(gen, facts, claims, dates, frozen), Built(gen, facts, claims + extra, dates + more, frozen);
    var sofar := SofarBuilt(gen, facts, claims + extra, dates, more, frozen);
    var earlier := EarlierPart(gen, facts, claims, extra, dates, more, frozen);
    BuiltInParts(gen, facts, claims + extra, dates, more, frozen);
    var k := LaterDatesRecord(gen, facts, claims + extra, more, frozen, sofar, cl, i);
    var later := LaterDatesAdd(gen, facts, claims + extra, more, frozen, sofar, extra, more[0]);
    assert now.events == was.events + (earlier + later);
    SentStayIff(was, now, earlier + later, from, to);
    assert (earlier + later)[k - |was.events|] == now.events[k];
    assert (earlier + later)[k - |was.events|] in earlier + later;
  }

  /* ---- the world's own claims ---- */

  lemma {:induction false} DayFiledBefore(gen: Gen, b: Building, d: int, n: nat, policies: nat, first: int)
    requires GenOk(gen, policies) && d < first && forall cl <- b.claims :: FiledDay(cl) < first
    ensures forall cl <- DayClaims(gen, b, d, n).claims :: FiledDay(cl) < first
  {
    if n > 0 {
      DayFiledBefore(gen, b, d, n - 1, policies, first);
      var before := DayClaims(gen, b, d, n - 1);
      var (time, rng) := gen.timeOfDay(before.rng);
      assert (Midnight(d) + time) / DAY == d;
    }
  }

  lemma {:induction false} WorldFiledBefore(gen: Gen, start: Building, dates: seq<int>, policies: nat, first: int)
    requires GenOk(gen, policies) && (forall i | 0 <= i < |dates| :: dates[i] < first)
    requires forall cl <- start.claims :: FiledDay(cl) < first
    ensures forall cl <- ClaimsOver(gen, start, dates).claims :: FiledDay(cl) < first
  {
    if dates != [] {
      var init, d := dates[..|dates| - 1], dates[|dates| - 1];
      WorldFiledBefore(gen, start, init, policies, first);
      var before := ClaimsOver(gen, start, init);
      var (n, rng) := gen.count(before.rng);
      DayFiledBefore(gen, before.(rng := rng), d, n, policies, first);
    }
  }

  /** The claims of a world and of its appended dates are apart, so that the laws above apply to every world. */
  lemma WorldsAreApart(gen: Gen, history: Building, dates: seq<int>, more: seq<int>, frozen: int, policies: nat)
    returns (extra: seq<Claim>)
    requires GenOk(gen, policies) && Appends(dates, more, frozen)
    requires forall cl <- history.claims :: FiledDay(cl) < dates[0]
    ensures ClaimsOver(gen, history, dates + more).claims == ClaimsOver(gen, history, dates).claims + extra
    ensures FiledApart(ClaimsOver(gen, history, dates).claims, extra, more[0])
  {
    DatesApart(dates, more, frozen);
    MoreIsLater(dates, more);
    extra := ClaimsArePrefix(gen, history, dates, more, policies);
    assert dates[0] < more[0];
    WorldFiledBefore(gen, history, dates, policies, more[0]);
    forall cl | cl in extra ensures FiledDay(cl) >= more[0] {
      assert cl.fnol >= Midnight(more[0]);
    }
  }
}
