/**
 How long a live stream that is started by hand may run. Times are microseconds of UTC, durations
 granted are seconds.
 */
module LiveWindow {
  import opened Numbers

  const SECOND := 1_000_000
  const MINUTE := 60 * SECOND
  const DAY := 86_400 * SECOND

  /** A time of day, "HH:MM". */
  datatype Clock = Clock(h: nat, m: nat) {
    predicate Valid() { h < 24 && m < 60 }
    function Offset(): int { (60 * h + m) * MINUTE }
  }

  datatype Config = Config(batch: Clock, batchMinutes: nat, guardMinutes: nat, stop: Clock, minSeconds: int,
                           producerLead: int) {
    predicate Valid() { batch.Valid() && stop.Valid() }
  }

  function NextAt(now: int, clock: Clock): int {
    var at := now - now % DAY + clock.Offset();
    if at > now then at else at + DAY
  }

  /** Whole seconds, towards zero. */
  function Truncated(us: int): int {
    if us >= 0 then us / SECOND else -(-us / SECOND)
  }

  lemma TruncatedIs(us: int)
    ensures us >= 0 ==> Truncated(us) * SECOND <= us < (Truncated(us) + 1) * SECOND
    ensures us < 0 ==> (Truncated(us) - 1) * SECOND < us <= Truncated(us) * SECOND
  {
  }

  function Cutoff(now: int, cfg: Config): int {
    Min(NextAt(now, cfg.stop), NextAt(now, cfg.batch) - cfg.guardMinutes * MINUTE)
  }

  function SecondsLeft(now: int, minutes: int, cfg: Config): (int, int) {
    var batch := NextAt(now, cfg.batch);
    if now < batch - DAY + cfg.batchMinutes * MINUTE then (0, 0) else
    var whole := Truncated(Cutoff(now, cfg) - now);
    var seconds := if minutes != 0 then Min(whole, minutes * 60) else whole;
    if seconds < cfg.minSeconds then (0, 0) else
    (seconds, Max(seconds - cfg.producerLead, 60))
  }

  /* ---- what may be granted, said day by day ---- */

  function On(day: int, clock: Clock): int { day * DAY + clock.Offset() }

  /** Outside every day's batch, from the guard before its start to the end of its time. */
  ghost predicate ClearOfBatches(from: int, to: int, cfg: Config) {
    forall day: int ::
      to <= On(day, cfg.batch) - cfg.guardMinutes * MINUTE || On(day, cfg.batch) + cfg.batchMinutes * MINUTE <= from
  }

  ghost predicate EndsByStop(from: int, to: int, cfg: Config) {
    forall day: int :: to <= On(day, cfg.stop) || On(day, cfg.stop) <= from
  }

  ghost predicate MayRun(now: int, seconds: int, minutes: int, cfg: Config) {
    && ClearOfBatches(now, now + seconds * SECOND, cfg)
    && EndsByStop(now, now + seconds * SECOND, cfg)
    && (minutes != 0 ==> seconds <= minutes * 60)
  }

  /** The day of the next time: the last one before it is not later than now. */
  lemma NextIsNext(now: int, clock: Clock) returns (day: int)
    requires clock.Valid()
    ensures NextAt(now, clock) == On(day, clock)
    ensures now < On(day, clock) && On(day - 1, clock) <= now
    ensures NextAt(now, clock) == day * DAY + (clock.h * 3600 + clock.m * 60) * SECOND
  {
    day := now / DAY + if now - now % DAY + clock.Offset() > now then 0 else 1;
    assert now == now / DAY * DAY + now % DAY;
    assert 0 <= clock.Offset() < DAY by {
      assert 60 * clock.h + clock.m <= 60 * 23 + 59;
    }
  }

  lemma StopBound(now: int, to: int, cfg: Config)
    requires cfg.Valid() && now < to
    ensures EndsByStop(now, to, cfg) <==> to <= NextAt(now, cfg.stop)
  {
    var next := NextIsNext(now, cfg.stop);
    forall day: int ensures On(day, cfg.stop) <= now || On(next, cfg.stop) <= On(day, cfg.stop) {
      if day < next {
        assert On(day, cfg.stop) <= On(next - 1, cfg.stop);
      }
    }
  }

  lemma BatchBound(now: int, to: int, cfg: Config)
    requires cfg.Valid() && now < to
    ensures ClearOfBatches(now, to, cfg)
       <==> && NextAt(now, cfg.batch) - DAY + cfg.batchMinutes * MINUTE <= now
            && to <= NextAt(now, cfg.batch) - cfg.guardMinutes * MINUTE
  {
    var next := NextIsNext(now, cfg.batch);
    forall day: int
      ensures On(day, cfg.batch) <= On(next - 1, cfg.batch) || On(next, cfg.batch) <= On(day, cfg.batch)
    {
    }
    assert On(next - 1, cfg.batch) == On(next, cfg.batch) - DAY;
  }

  /** What may be granted at all: up to the whole seconds left and the cap, and nothing while a batch runs. */
  lemma MayRunIs(now: int, seconds: int, minutes: int, cfg: Config)
    requires cfg.Valid() && seconds >= 1
    ensures MayRun(now, seconds, minutes, cfg)
       <==> && NextAt(now, cfg.batch) - DAY + cfg.batchMinutes * MINUTE <= now
            && seconds <= Truncated(Cutoff(now, cfg) - now)
            && (minutes != 0 ==> seconds <= minutes * 60)
  {
    var to := now + seconds * SECOND;
    StopBound(now, to, cfg);
    BatchBound(now, to, cfg);
  }

  /**
   The seconds granted are the longest run that meets no batch of any day, ends by the stop time and
   keeps to the cap; (0, 0) is answered exactly when not even the minimum would. A cap below the minimum,
   a negative one too, grants nothing.
   */
  lemma GrantIsTheLongest(now: int, minutes: int, cfg: Config, seconds: int)
    requires cfg.Valid() && seconds >= 1 && cfg.minSeconds >= 1
    ensures SecondsLeft(now, minutes, cfg).0 == 0 <==> !MayRun(now, cfg.minSeconds, minutes, cfg)
    ensures SecondsLeft(now, minutes, cfg).0 != 0 ==>
              (MayRun(now, seconds, minutes, cfg) <==> seconds <= SecondsLeft(now, minutes, cfg).0)
    ensures SecondsLeft(now, minutes, cfg).0 == 0 || SecondsLeft(now, minutes, cfg).0 >= cfg.minSeconds
  {
    MayRunIs(now, seconds, minutes, cfg);
    MayRunIs(now, cfg.minSeconds, minutes, cfg);
  }

  /**
   The producer stops its lead before the stream as long as that leaves it a minute, and gets a minute
   otherwise; so it gets no longer than the stream exactly when the lead is not negative and a minute was granted.
   */
  lemma ProducerFits(now: int, minutes: int, cfg: Config)
    requires cfg.Valid() && SecondsLeft(now, minutes, cfg).0 > 0
    ensures var (stream, producer) := SecondsLeft(now, minutes, cfg);
      && producer >= 60
      && (stream - producer == cfg.producerLead <==> stream - cfg.producerLead >= 60)
      && (stream - producer != cfg.producerLead ==> producer == 60)
      && (producer <= stream <==> cfg.producerLead >= 0 && stream >= 60)
  {
  }

  /** With a minimum of a minute or more the producer never outlives the stream. */
  lemma ProducerNeverOutlives(now: int, minutes: int, cfg: Config)
    requires cfg.Valid() && cfg.minSeconds >= 60 && cfg.producerLead >= 0
    ensures SecondsLeft(now, minutes, cfg).1 <= SecondsLeft(now, minutes, cfg).0
  {
    if SecondsLeft(now, minutes, cfg).0 > 0 {
      ProducerFits(now, minutes, cfg);
    }
  }

  /**
   Without a positive minimum the refusal is lost: right at the guard the producer gets a minute and the stream
   none.
   */
  lemma MinimumMustBePositive()
    ensures var cfg := Config(Clock(20, 30), 90, 15, Clock(13, 30), 0, 120);
      cfg.Valid() && SecondsLeft(On(0, Clock(20, 15)), 0, cfg) == (0, 60)
  {
    var day := NextIsNext(On(0, Clock(20, 15)), Clock(20, 30));
  }
}
