/**
 The time split of the feature table: rows are ranked by their time, ties by position, and cut at shares
 of all rows. A row without a time has no rank and falls through both comparisons.
 */
module TimeSplit {
  import opened Options
  import opened Sets

  datatype Part = Train | Valid | Test {
    function Order(): nat {
      match this
      case Train => 0
      case Valid => 1
      case Test => 2
    }
  }

  type Times = seq<Option<int>>

  function Present(times: Times): set<nat> {
    set i: nat | i < |times| && times[i].Some?
  }

  /** Row `j` is no later than row `i`, earlier positions first. */
  predicate NotAfter(times: Times, j: nat, i: nat)
    requires j < |times| && i < |times| && times[j].Some? && times[i].Some?
  {
    times[j].value < times[i].value || (times[j].value == times[i].value && j <= i)
  }

  /** The rank of a row among `rows`. */
  function RankIn(times: Times, rows: set<nat>, i: nat): nat
    requires rows <= Present(times) && i in Present(times)
  {
    |set j | j in rows && NotAfter(times, j, i)|
  }

  function PartOf(times: Times, train: real, valid: real, i: nat): Part
    requires i < |times|
  {
    if times[i].None? then Test else
    var q := RankIn(times, Present(times), i) as real / |times| as real;
    if q <= train then Train else if q <= train + valid then Valid else Test
  }

  function Split(times: Times, train: real, valid: real): (parts: seq<Part>)
    ensures |parts| == |times| && forall i | 0 <= i < |parts| :: parts[i] == PartOf(times, train, valid, i)
  {
    seq(|times|, i requires 0 <= i < |times| => PartOf(times, train, valid, i))
  }

  lemma {:induction false} LastOf(times: Times, rows: set<nat>) returns (last: nat)
    requires rows <= Present(times) && rows != {}
    ensures last in rows && forall i <- rows :: NotAfter(times, i, last)
    decreases |rows|
  {
    var x :| x in rows;
    last := x;
    if rows != {x} {
      var best := LastOf(times, rows - {x});
      last := if NotAfter(times, best, x) then x else best;
    }
    forall i | i in rows ensures NotAfter(times, i, last) {
      assert i == x || i in rows - {x};
    }
  }

  ghost function RankedUpTo(times: Times, rows: set<nat>, k: int): set<nat>
    requires rows <= Present(times)
  {
    set i | i in rows && RankIn(times, rows, i) <= k
  }

  lemma LastRank(times: Times, rows: set<nat>, last: nat)
    requires rows <= Present(times) && last in rows && forall i <- rows :: NotAfter(times, i, last)
    ensures RankIn(times, rows, last) == |rows|
  {
    assert (set j | j in rows && NotAfter(times, j, last)) == rows;
  }

  lemma OtherRank(times: Times, rows: set<nat>, last: nat, i: nat)
    requires rows <= Present(times) && last in rows && forall j <- rows :: NotAfter(times, j, last)
    requires i in rows && i != last
    ensures RankIn(times, rows, i) == RankIn(times, rows - {last}, i) <= |rows - {last}|
  {
    var rest := rows - {last};
    var lower := set j | j in rest && NotAfter(times, j, i);
    assert (set j | j in rows && NotAfter(times, j, i)) == lower;
    SubsetSize(lower, rest);
  }

  /** The ranks of any rows are 1, 2, 3, ...: exactly `k` of them are at most `k`, as long as there are so many. */
  lemma {:induction false} RanksAreDense(times: Times, rows: set<nat>, k: nat)
    requires rows <= Present(times)
    ensures |RankedUpTo(times, rows, k)| == if k < |rows| then k else |rows|
    decreases |rows|
  {
    if rows == {} {
      assert RankedUpTo(times, rows, k) == {};
    } else {
      var last := LastOf(times, rows);
      var rest := rows - {last};
      RanksAreDense(times, rest, k);
      LastRank(times, rows, last);
      forall i | i in rest ensures RankIn(times, rows, i) == RankIn(times, rest, i) <= |rest| {
        OtherRank(times, rows, last, i);
      }
      if k < |rows| {
        assert RankedUpTo(times, rows, k) == RankedUpTo(times, rest, k);
      } else {
        assert RankedUpTo(times, rows, k) == rows;
      }
    }
  }

  lemma RankGrows(times: Times, rows: set<nat>, i: nat, j: nat)
    requires rows <= Present(times) && i in rows && j in rows && i != j && NotAfter(times, i, j)
    ensures RankIn(times, rows, i) < RankIn(times, rows, j)
  {
    var a := set k | k in rows && NotAfter(times, k, i);
    var b := set k | k in rows && NotAfter(times, k, j);
    assert a <= b && j in b && j !in a;
    SubsetSize(a, b - {j});
  }

  lemma ShareBound(rank: nat, n: nat, share: real)
    requires n > 0
    ensures rank as real / n as real <= share <==> rank <= (share * n as real).Floor
  {
    var q := rank as real / n as real;
    assert q * n as real == rank as real;
    if q <= share {
      assert q * n as real <= share * n as real;
    } else {
      assert share * n as real < q * n as real;
    }
  }

  /**
   No look-ahead between the parts: of two rows with a time the one no later, by position when the times
   are equal, is in the same part or an earlier one. Equal times on a cut are divided by position. A row
   without a time is in the test part.
   */
  lemma PartsFollowTime(times: Times, train: real, valid: real, i: nat, j: nat)
    requires i < |times| && j < |times|
    ensures times[i].None? ==> PartOf(times, train, valid, i) == Test
    ensures times[i].Some? && times[j].Some? && NotAfter(times, i, j)
        ==> PartOf(times, train, valid, i).Order() <= PartOf(times, train, valid, j).Order()
    ensures times[i].Some? && times[j].Some?
         && PartOf(times, train, valid, i).Order() < PartOf(times, train, valid, j).Order()
        ==> times[i].value <= times[j].value
  {
    if times[i].Some? && times[j].Some? && i != j {
      var rows := Present(times);
      if NotAfter(times, i, j) {
        RankGrows(times, rows, i, j);
        OrderFollowsRank(times, train, valid, i, j);
      } else {
        RankGrows(times, rows, j, i);
        OrderFollowsRank(times, train, valid, j, i);
      }
    }
  }

  lemma OrderFollowsRank(times: Times, train: real, valid: real, i: nat, j: nat)
    requires i in Present(times) && j in Present(times)
    requires RankIn(times, Present(times), i) < RankIn(times, Present(times), j)
    ensures PartOf(times, train, valid, i).Order() <= PartOf(times, train, valid, j).Order()
  {
    var n, rows := |times|, Present(times);
    ShareBound(RankIn(times, rows, i), n, train);
    ShareBound(RankIn(times, rows, j), n, train);
    ShareBound(RankIn(times, rows, i), n, train + valid);
    ShareBound(RankIn(times, rows, j), n, train + valid);
  }

  ghost function InPart(parts: seq<Part>, part: Part): set<nat> {
    set i: nat | i < |parts| && parts[i] == part
  }

  /** How many ranks a share takes: its whole part of all rows, but no more than there are times. */
  ghost function Quota(times: Times, share: real): nat {
    var q := (share * |times| as real).Floor;
    if q < 0 then 0 else if q < |Present(times)| then q else |Present(times)|
  }

  /** The rows with a time whose rank is within a share of all rows. */
  ghost function Within(times: Times, share: real): set<nat>
    requires |times| > 0
  {
    set i | i in Present(times) && RankIn(times, Present(times), i) as real / |times| as real <= share
  }

  lemma IsWithin(times: Times, share: real, i: nat)
    requires i in Present(times)
    ensures i in Within(times, share) <==> RankIn(times, Present(times), i) <= (share * |times| as real).Floor
  {
    ShareBound(RankIn(times, Present(times), i), |times|, share);
  }

  lemma WithinIs(times: Times, share: real, q: int)
    requires |times| > 0 && q == (share * |times| as real).Floor
    ensures Within(times, share) == RankedUpTo(times, Present(times), q)
  {
    forall i | i in Present(times) ensures i in Within(times, share) <==> i in RankedUpTo(times, Present(times), q) {
      IsWithin(times, share, i);
    }
  }

  lemma SizeUpTo(times: Times, rows: set<nat>, q: int)
    requires rows <= Present(times)
    ensures |RankedUpTo(times, rows, q)| == if q < 0 then 0 else if q < |rows| then q else |rows|
  {
    if q < 0 {
      assert RankedUpTo(times, rows, q) == {};
    } else {
      RanksAreDense(times, rows, q);
    }
  }

  lemma SizeWithin(times: Times, share: real)
    requires |times| > 0
    ensures |Within(times, share)| == Quota(times, share)
  {
    var q := (share * |times| as real).Floor;
    WithinIs(times, share, q);
    SizeUpTo(times, Present(times), q);
  }

  /** The share that train and valid take together; a negative valid share takes nothing. */
  function Both(train: real, valid: real): real { if valid < 0.0 then train else train + valid }

  lemma PartsAre(times: Times, train: real, valid: real)
    requires |times| > 0
    ensures Within(times, train) <= Within(times, Both(train, valid)) <= UpTo(|times|)
    ensures InPart(Split(times, train, valid), Train) == Within(times, train)
    ensures InPart(Split(times, train, valid), Valid) == Within(times, Both(train, valid)) - Within(times, train)
    ensures InPart(Split(times, train, valid), Test) == UpTo(|times|) - Within(times, Both(train, valid))
  {
  }

  lemma PartCounts(times: Times, train: real, valid: real)
    requires |times| > 0
    ensures var parts := Split(times, train, valid);
      var first, both := Within(times, train), Within(times, Both(train, valid));
      && |InPart(parts, Train)| == |first|
      && |InPart(parts, Valid)| == |both| - |first|
      && |InPart(parts, Test)| == |times| - |both|
  {
    PartsAre(times, train, valid);
    Parted(Within(times, train), Within(times, Both(train, valid)));
    Parted(Within(times, Both(train, valid)), UpTo(|times|));
  }

  lemma EmptySplit(train: real, valid: real, part: Part)
    ensures |InPart(Split([], train, valid), part)| == 0 && Quota([], train) == 0
  {
    assert InPart(Split([], train, valid), part) == {};
    assert Present([]) == {};
  }

  /** The sizes: exactly the quota of the train share, then up to that of both shares, and all the rest. */
  lemma PartSizes(times: Times, train: real, valid: real)
    ensures var parts := Split(times, train, valid);
      && |InPart(parts, Train)| == Quota(times, train)
      && |InPart(parts, Valid)| == Quota(times, Both(train, valid)) - Quota(times, train)
      && |InPart(parts, Test)| == |times| - Quota(times, Both(train, valid))
  {
    if times == [] {
      EmptySplit(train, valid, Train);
      EmptySplit(train, valid, Valid);
      EmptySplit(train, valid, Test);
      EmptySplit(Both(train, valid), valid, Test);
    } else {
      PartCounts(times, train, valid);
      SizeWithin(times, train);
      SizeWithin(times, Both(train, valid));
    }
  }

  lemma Parted(a: set<nat>, b: set<nat>)
    requires a <= b
    ensures |b - a| == |b| - |a|
  {
    assert b == (b - a) + a && (b - a) !! a;
  }
}
