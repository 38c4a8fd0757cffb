/**
 The history features of `lakehouse/score_claims.py`: one OR-join with conditional sums, grouped by
 claim. Absent keys and times are SQL NULLs, and a comparison with NULL never holds. Times are in days
 of microseconds; a garage score is a real number rounded to four places.
 */
module PointInTime {
  import opened Options

  const DAY: int := 86_400_000_000

  datatype Status = Approved | Rejected | Open

  datatype Claim = Claim(id: string, customer: Option<string>, garage: Option<string>, fnol: int,
                         decided: Option<int>, status: Status)

  /** SQL equality of two nullable keys. */
  predicate SameKey(a: Option<string>, b: Option<string>) {
    a.Some? && b.Some? && a.value == b.value
  }

  predicate DecidedBefore(h: Claim, t: int) {
    h.decided.Some? && h.decided.value < t
  }

  datatype Features = Features(priorClaims: nat, priorRejected: nat, garageClaims: nat, garageDecided: nat,
                               garageRejected: nat)

  const ZERO := Features(0, 0, 0, 0, 0)

  function B(b: bool): nat { if b then 1 else 0 }

  predicate OfCustomer(s: Claim, h: Claim) {
    SameKey(h.customer, s.customer) && h.fnol >= s.fnol - 365 * DAY
  }

  predicate OfGarage(s: Claim, h: Claim) {
    SameKey(h.garage, s.garage)
  }

  /** The five CASE expressions for one joined row. */
  function CaseRow(s: Claim, h: Claim): Features {
    Features(B(OfCustomer(s, h)),
             B(OfCustomer(s, h) && h.status == Rejected && DecidedBefore(h, s.fnol)),
             B(OfGarage(s, h) && h.fnol >= s.fnol - 30 * DAY),
             B(OfGarage(s, h) && DecidedBefore(h, s.fnol)),
             B(OfGarage(s, h) && DecidedBefore(h, s.fnol) && h.status == Rejected))
  }

  function Plus(a: Features, b: Features): Features {
    Features(a.priorClaims + b.priorClaims, a.priorRejected + b.priorRejected, a.garageClaims + b.garageClaims,
             a.garageDecided + b.garageDecided, a.garageRejected + b.garageRejected)
  }

  /** The ON clause. */
  predicate Joins(s: Claim, h: Claim) {
    (SameKey(h.customer, s.customer) || SameKey(h.garage, s.garage)) && h.fnol < s.fnol
  }

  /** The rows of the join for one scored claim, in table order. */
  function Joined(s: Claim, table: seq<Claim>): seq<Claim> {
    if table == [] then [] else
    var last := table[|table| - 1];
    Joined(s, table[..|table| - 1]) + if Joins(s, last) then [last] else []
  }

  /** The join over all scored claims: pairs, scored claim by scored claim. */
  function Join(scope: seq<Claim>, table: seq<Claim>): seq<(Claim, Claim)> {
    if scope == [] then [] else
    var s := scope[|scope| - 1];
    var rows := Joined(s, table);
    Join(scope[..|scope| - 1], table) + seq(|rows|, i requires 0 <= i < |rows| => (s, rows[i]))
  }

  /** GROUP BY claim id: the sums over the pairs of one id; a claim without a pair has no group. */
  function GroupSum(pairs: seq<(Claim, Claim)>, id: string): Option<Features> {
    if pairs == [] then None else
    var (s, h) := pairs[|pairs| - 1];
    var before := GroupSum(pairs[..|pairs| - 1], id);
    if s.id != id then before else Some(Plus(before.GetOr(ZERO), CaseRow(s, h)))
  }

  /** The features the code uses: the group's sums, or zeros when there is no group. */
  function HistoryOf(scope: seq<Claim>, table: seq<Claim>, id: string): Features {
    GroupSum(Join(scope, table), id).GetOr(ZERO)
  }

  /* ---- the counts it stands for ---- */

  function Count(table: seq<Claim>, p: Claim -> bool): nat {
    if table == [] then 0 else Count(table[..|table| - 1], p) + B(p(table[|table| - 1]))
  }

  /** Five separate filtered counts over the whole table, strictly before the claim's FNOL. */
  function Counts(s: Claim, table: seq<Claim>): Features {
    var t := s.fnol;
    Features(Count(table, (h: Claim) => h.fnol < t && OfCustomer(s, h)),
             Count(table, (h: Claim) => h.fnol < t && OfCustomer(s, h) && h.status == Rejected && DecidedBefore(h, t)),
             Count(table, (h: Claim) => h.fnol < t && OfGarage(s, h) && h.fnol >= t - 30 * DAY),
             Count(table, (h: Claim) => h.fnol < t && OfGarage(s, h) && DecidedBefore(h, t)),
             Count(table, (h: Claim) => h.fnol < t && OfGarage(s, h) && DecidedBefore(h, t) && h.status == Rejected))
  }

  function Contribution(s: Claim, h: Claim): Features {
    if Joins(s, h) then CaseRow(s, h) else ZERO
  }

  /** The sum of one set of features per row. */
  function Sum<T>(rows: seq<T>, f: T -> Features): Features {
    if rows == [] then ZERO else Plus(Sum(rows[..|rows| - 1], f), f(rows[|rows| - 1]))
  }

  lemma SumOneMore<T>(rows: seq<T>, x: T, f: T -> Features)
    ensures Sum(rows + [x], f) == Plus(Sum(rows, f), f(x))
  {
    assert (rows + [x])[..|rows|] == rows;
  }

  lemma PlusLaws(a: Features, b: Features, c: Features)
    ensures Plus(Plus(a, b), c) == Plus(a, Plus(b, c)) && Plus(a, b) == Plus(b, a)
    ensures Plus(a, ZERO) == a && Plus(ZERO, a) == a
  {
  }

  lemma {:induction false} SumOfConcat<T>(a: seq<T>, b: seq<T>, f: T -> Features)
    ensures Sum(a + b, f) == Plus(Sum(a, f), Sum(b, f))
  {
    if b == [] {
      assert a + b == a;
      PlusLaws(Sum(a, f), ZERO, ZERO);
    } else {
      var init, last := b[..|b| - 1], b[|b| - 1];
      SumOfConcat(a, init, f);
      assert (a + b)[..|a + b| - 1] == a + init && (a + b)[|a + b| - 1] == last;
      PlusLaws(Sum(a, f), Sum(init, f), f(last));
    }
  }

  lemma Parts<T>(rows: seq<T>, i: nat)
    requires i < |rows|
    ensures rows == rows[..i] + [rows[i]] + rows[i + 1..]
  {
  }

  lemma Without<T>(rows: seq<T>, i: nat)
    requires i < |rows|
    ensures multiset(rows) == multiset(rows[..i] + rows[i + 1..]) + multiset{rows[i]}
  {
    Parts(rows, i);
    assert multiset(rows) == multiset(rows[..i] + [rows[i]] + rows[i + 1..]);
  }

  lemma Cancel<T>(a: multiset<T>, b: multiset<T>, x: T)
    requires a + multiset{x} == b + multiset{x}
    ensures a == b
  {
    assert a + multiset{x} - multiset{x} == a && b + multiset{x} - multiset{x} == b;
  }

  /** A sum does not depend on the order of its rows. */
  lemma {:induction false} SumIsUnordered<T>(a: seq<T>, b: seq<T>, f: T -> Features)
    requires multiset(a) == multiset(b)
    ensures Sum(a, f) == Sum(b, f)
  {
    if a == [] {
      assert |multiset(b)| == 0;
    } else {
      var init, last := a[..|a| - 1], a[|a| - 1];
      assert last in multiset(b);
      var i :| 0 <= i < |b| && b[i] == last;
      Without(a, |a| - 1);
      Without(b, i);
      Parts(b, i);
      assert init + a[|a| - 1 + 1..] == init;
      Cancel(multiset(init), multiset(b[..i] + b[i + 1..]), last);
      SumIsUnordered(init, b[..i] + b[i + 1..], f);
      MoveToEnd(b[..i], last, b[i + 1..], f);
    }
  }

  lemma MoveToEnd<T>(head: seq<T>, x: T, tail: seq<T>, f: T -> Features)
    ensures Sum(head + [x] + tail, f) == Plus(Sum(head + tail, f), f(x))
  {
    SumOfConcat(head + [x], tail, f);
    SumOfConcat(head, tail, f);
    SumOneMore(head, x, f);
    PlusLaws(Sum(head, f), f(x), Sum(tail, f));
    PlusLaws(Sum(head, f), Sum(tail, f), f(x));
    PlusLaws(f(x), Sum(tail, f), ZERO);
  }

  function Contributions(s: Claim): Claim -> Features {
    (h: Claim) => Contribution(s, h)
  }

  function Total(s: Claim, rows: seq<Claim>): Features {
    Sum(rows, Contributions(s))
  }

  lemma {:induction false} JoinedSum(s: Claim, table: seq<Claim>, f: Claim -> Features)
    requires forall h :: !Joins(s, h) ==> f(h) == ZERO
    ensures Sum(Joined(s, table), f) == Sum(table, f)
  {
    if table != [] {
      var init, last := table[..|table| - 1], table[|table| - 1];
      JoinedSum(s, init, f);
      var rows := Joined(s, init);
      if Joins(s, last) {
        SumOneMore(rows, last, f);
      } else {
        assert rows + [] == rows;
        assert f(last) == ZERO;
        PlusLaws(Sum(init, f), ZERO, ZERO);
      }
    }
  }

  lemma JoinedTotal(s: Claim, table: seq<Claim>)
    ensures Total(s, Joined(s, table)) == Total(s, table)
  {
    JoinedSum(s, table, Contributions(s));
  }

  /** Row by row, the OR-join and the CASE expressions pick what the five filters pick. */
  lemma {:induction false} TotalIsCounts(s: Claim, table: seq<Claim>)
    ensures Total(s, table) == Counts(s, table)
  {
    if table != [] {
      TotalIsCounts(s, table[..|table| - 1]);
    }
  }

  ghost predicate DistinctIds(claims: seq<Claim>) {
    forall i, j | 0 <= i < j < |claims| :: claims[i].id != claims[j].id
  }

  function PairsOf(s: Claim, rows: seq<Claim>): seq<(Claim, Claim)> {
    seq(|rows|, i requires 0 <= i < |rows| => (s, rows[i]))
  }

  /** Appending one claim's pairs changes the group of its own id only. */
  lemma {:induction false} GroupOfPairs(pairs: seq<(Claim, Claim)>, s: Claim, rows: seq<Claim>, id: string)
    requires forall h <- rows :: Joins(s, h)
    ensures GroupSum(pairs + PairsOf(s, rows), id) ==
            if s.id != id || rows == [] then GroupSum(pairs, id)
            else Some(Plus(GroupSum(pairs, id).GetOr(ZERO), Total(s, rows)))
  {
    if rows == [] {
      assert pairs + PairsOf(s, rows) == pairs;
    } else {
      var init, last := rows[..|rows| - 1], rows[|rows| - 1];
      assert forall h <- init :: h in rows;
      GroupOfPairs(pairs, s, init, id);
      assert last in rows && rows == init + [last];
      GroupOneMore(pairs + PairsOf(s, init), s, last, id);
      assert pairs + PairsOf(s, rows) == pairs + PairsOf(s, init) + [(s, last)];
      SumOneMore(init, last, Contributions(s));
      if init == [] { assert Total(s, init) == ZERO; }
      PlusLaws(GroupSum(pairs, id).GetOr(ZERO), Total(s, init), CaseRow(s, last));
    }
  }

  lemma GroupOneMore(pairs: seq<(Claim, Claim)>, s: Claim, h: Claim, id: string)
    ensures GroupSum(pairs + [(s, h)], id)
         == if s.id != id then GroupSum(pairs, id) else Some(Plus(GroupSum(pairs, id).GetOr(ZERO), CaseRow(s, h)))
  {
    assert (pairs + [(s, h)])[..|pairs|] == pairs;
  }

  lemma {:induction false} JoinedJoins(s: Claim, table: seq<Claim>)
    ensures forall h <- Joined(s, table) :: Joins(s, h)
  {
    if table != [] {
      JoinedJoins(s, table[..|table| - 1]);
    }
  }

  lemma {:induction false} GroupOfStranger(scope: seq<Claim>, table: seq<Claim>, id: string)
    requires forall s <- scope :: s.id != id
    ensures GroupSum(Join(scope, table), id) == None
  {
    if scope != [] {
      var init, last := scope[..|scope| - 1], scope[|scope| - 1];
      assert forall s <- init :: s in scope;
      GroupOfStranger(init, table, id);
      JoinedJoins(last, table);
      assert last in scope;
      GroupOfPairs(Join(init, table), last, Joined(last, table), id);
    }
  }

  lemma {:induction false} GroupOf(scope: seq<Claim>, table: seq<Claim>, k: nat)
    requires DistinctIds(scope) && k < |scope|
    ensures GroupSum(Join(scope, table), scope[k].id).GetOr(ZERO) == Total(scope[k], table)
  {
    var n := |scope| - 1;
    var init, last, id := scope[..n], scope[n], scope[k].id;
    JoinedJoins(last, table);
    GroupOfPairs(Join(init, table), last, Joined(last, table), id);
    if k < n {
      GroupOf(init, table, k);
    } else {
      GroupOfStranger(init, table, id);
      JoinedTotal(last, table);
      if Joined(last, table) == [] { assert Total(last, Joined(last, table)) == ZERO; }
    }
  }

  /**
   The OR-join with conditional sums equals five separate counts: a history claim that matches both
   customer and garage is counted once in each, a NULL key or time never counts, and a claim without
   any joined row gets zeros. Claim ids are unique in a snapshot.
   */
  lemma JoinIsCounts(scope: seq<Claim>, table: seq<Claim>, k: nat)
    requires DistinctIds(scope) && k < |scope|
    ensures HistoryOf(scope, table, scope[k].id) == Counts(scope[k], table)
  {
    GroupOf(scope, table, k);
    TotalIsCounts(scope[k], table);
  }

  ghost function Where(table: seq<Claim>, p: Claim -> bool): set<nat> {
    set i: nat | i < |table| && p(table[i])
  }

  lemma {:induction false} CountIs(table: seq<Claim>, p: Claim -> bool)
    ensures Count(table, p) == |Where(table, p)|
  {
    if table == [] {
      assert Where(table, p) == {};
    } else {
      var n := |table| - 1;
      CountIs(table[..n], p);
      assert Where(table, p) == Where(table[..n], p) + if p(table[n]) then {n} else {};
    }
  }

  /** Claims of the same customer, by a key that is there, filed in the year before time `t`. */
  ghost function SameCustomer(s: Claim, table: seq<Claim>): set<nat> {
    set i: nat | i < |table| && table[i].customer.Some? && table[i].customer == s.customer
                 && s.fnol - 365 * DAY <= table[i].fnol < s.fnol
  }

  /** Claims at the same garage, by a key that is there, filed before. */
  ghost function SameGarage(s: Claim, table: seq<Claim>): set<nat> {
    set i: nat | i < |table| && table[i].garage.Some? && table[i].garage == s.garage && table[i].fnol < s.fnol
  }

  /** Of these, the ones that were decided before time `t`. */
  ghost function Decided(table: seq<Claim>, some: set<nat>, t: int): set<nat> {
    set i | i in some && i < |table| && table[i].decided.Some? && table[i].decided.value < t
  }

  ghost function RejectedOf(table: seq<Claim>, some: set<nat>): set<nat> {
    set i | i in some && i < |table| && table[i].status == Rejected
  }

  ghost function RecentOf(table: seq<Claim>, some: set<nat>, from: int): set<nat> {
    set i | i in some && i < |table| && table[i].fnol >= from
  }

  /** What the five features count. */
  lemma CountsAre(s: Claim, table: seq<Claim>)
    ensures var customer, garage, f := SameCustomer(s, table), SameGarage(s, table), Counts(s, table);
      && f.priorClaims == |customer|
      && f.priorRejected == |RejectedOf(table, Decided(table, customer, s.fnol))|
      && f.garageClaims == |RecentOf(table, garage, s.fnol - 30 * DAY)|
      && f.garageDecided == |Decided(table, garage, s.fnol)|
      && f.garageRejected == |RejectedOf(table, Decided(table, garage, s.fnol))|
  {
    var t, customer, garage := s.fnol, SameCustomer(s, table), SameGarage(s, table);
    FeatureIs(table, (h: Claim) => h.fnol < t && OfCustomer(s, h), customer);
    FeatureIs(table, (h: Claim) => h.fnol < t && OfCustomer(s, h) && h.status == Rejected && DecidedBefore(h, t),
              RejectedOf(table, Decided(table, customer, t)));
    FeatureIs(table, (h: Claim) => h.fnol < t && OfGarage(s, h) && h.fnol >= t - 30 * DAY,
              RecentOf(table, garage, t - 30 * DAY));
    FeatureIs(table, (h: Claim) => h.fnol < t && OfGarage(s, h) && DecidedBefore(h, t), Decided(table, garage, t));
    FeatureIs(table, (h: Claim) => h.fnol < t && OfGarage(s, h) && DecidedBefore(h, t) && h.status == Rejected,
              RejectedOf(table, Decided(table, garage, t)));
  }

  lemma FeatureIs(table: seq<Claim>, p: Claim -> bool, some: set<nat>)
    requires forall i: nat :: i in some <==> i < |table| && p(table[i])
    ensures Count(table, p) == |some|
  {
    CountIs(table, p);
    assert Where(table, p) == some;
  }

  /* ---- no look-ahead ---- */

  /** What can be known of a claim just before time `t`; nothing if it was not filed by then. */
  datatype Known = Known(customer: Option<string>, garage: Option<string>, fnol: int, rejected: Option<bool>)

  function KnownAt(h: Claim, t: int): Known {
    Known(h.customer, h.garage, h.fnol, if DecidedBefore(h, t) then Some(h.status == Rejected) else None)
  }

  function ViewAt(table: seq<Claim>, t: int): seq<Known> {
    if table == [] then [] else
    var last := table[|table| - 1];
    ViewAt(table[..|table| - 1], t) + if last.fnol < t then [KnownAt(last, t)] else []
  }

  function FromKnown(s: Claim, k: Known): Features {
    var customer := SameKey(k.customer, s.customer) && k.fnol >= s.fnol - 365 * DAY;
    var garage := SameKey(k.garage, s.garage);
    Features(B(customer), B(customer && k.rejected == Some(true)), B(garage && k.fnol >= s.fnol - 30 * DAY),
             B(garage && k.rejected.Some?), B(garage && k.rejected == Some(true)))
  }

  function KnownFeatures(s: Claim): Known -> Features {
    (k: Known) => FromKnown(s, k)
  }

  lemma {:induction false} ViewSum(table: seq<Claim>, t: int, f: Claim -> Features, g: Known -> Features)
    requires forall h :: f(h) == if h.fnol < t then g(KnownAt(h, t)) else ZERO
    ensures Sum(ViewAt(table, t), g) == Sum(table, f)
  {
    if table != [] {
      var init, last := table[..|table| - 1], table[|table| - 1];
      ViewSum(init, t, f, g);
      var view := ViewAt(init, t);
      if last.fnol < t {
        assert f(last) == g(KnownAt(last, t));
        SumOneMore(view, KnownAt(last, t), g);
      } else {
        assert view + [] == view;
        assert f(last) == ZERO;
        PlusLaws(Sum(init, f), ZERO, ZERO);
      }
    }
  }

  lemma KnownContribution(s: Claim, h: Claim)
    ensures Contribution(s, h) == if h.fnol < s.fnol then FromKnown(s, KnownAt(h, s.fnol)) else ZERO
  {
  }

  lemma TotalOfView(s: Claim, table: seq<Claim>)
    ensures Sum(ViewAt(table, s.fnol), KnownFeatures(s)) == Total(s, table)
  {
    forall h: Claim
      ensures Contributions(s)(h) == if h.fnol < s.fnol then KnownFeatures(s)(KnownAt(h, s.fnol)) else ZERO
    {
      KnownContribution(s, h);
    }
    ViewSum(table, s.fnol, Contributions(s), KnownFeatures(s));
  }

  /**
   No look-ahead: the features of a claim depend only on what was known just before its FNOL. Two
   snapshots that agree on that (in any row order, with any later claims and any later decisions)
   give the same features.
   */
  lemma NoLookAhead(s: Claim, a: seq<Claim>, b: seq<Claim>)
    requires multiset(ViewAt(a, s.fnol)) == multiset(ViewAt(b, s.fnol))
    ensures Counts(s, a) == Counts(s, b)
  {
    SumIsUnordered(ViewAt(a, s.fnol), ViewAt(b, s.fnol), KnownFeatures(s));
    TotalOfView(s, a);
    TotalOfView(s, b);
    TotalIsCounts(s, a);
    TotalIsCounts(s, b);
  }

  /** Claims filed at or after the FNOL, the claim itself among them, change nothing. */
  lemma LaterClaimsDoNotCount(s: Claim, table: seq<Claim>, later: seq<Claim>)
    requires forall h <- later :: h.fnol >= s.fnol
    ensures Counts(s, table + later) == Counts(s, table)
  {
    LaterViewIsEmpty(table, later, s.fnol);
    NoLookAhead(s, table + later, table);
  }

  lemma {:induction false} LaterViewIsEmpty(table: seq<Claim>, later: seq<Claim>, t: int)
    requires forall h <- later :: h.fnol >= t
    ensures ViewAt(table + later, t) == ViewAt(table, t)
  {
    if later == [] {
      assert table + later == table;
    } else {
      var init := later[..|later| - 1];
      assert forall h <- init :: h in later;
      LaterViewIsEmpty(table, init, t);
      assert (table + later)[..|table + later| - 1] == table + init && later[|later| - 1] in later;
    }
  }

  /** A decision made at or after the FNOL may be anything, or not made at all. */
  lemma LaterDecisionsDoNotCount(s: Claim, table: seq<Claim>, i: nat, decided: Option<int>, status: Status)
    requires i < |table| && !DecidedBefore(table[i], s.fnol) && (decided.Some? ==> decided.value >= s.fnol)
    ensures Counts(s, table[i := table[i].(decided := decided, status := status)]) == Counts(s, table)
  {
    ViewOfUpdate(table, i, table[i].(decided := decided, status := status), s.fnol);
    NoLookAhead(s, table[i := table[i].(decided := decided, status := status)], table);
  }

  lemma {:induction false} ViewOfUpdate(table: seq<Claim>, i: nat, h: Claim, t: int)
    requires i < |table| && h.fnol == table[i].fnol && KnownAt(h, t) == KnownAt(table[i], t)
    ensures ViewAt(table[i := h], t) == ViewAt(table, t)
  {
    var n := |table| - 1;
    if i < n {
      ViewOfUpdate(table[..n], i, h, t);
      assert table[i := h][..n] == table[..n][i := h];
    } else {
      assert table[i := h][..n] == table[..n];
    }
  }

  /* ---- the smoothed garage score ---- */

  lemma {:induction false} RejectedAreDecided(s: Claim, table: seq<Claim>)
    ensures Total(s, table).garageRejected <= Total(s, table).garageDecided
    ensures Total(s, table).priorRejected <= Total(s, table).priorClaims
  {
    if table != [] {
      RejectedAreDecided(s, table[..|table| - 1]);
    }
  }

  function GarageScore(f: Features): real {
    (f.garageRejected + 1) as real / (f.garageDecided + 5) as real
  }

  /** `r` is `x` rounded to four places, ties either way. */
  ghost predicate IsRounded(x: real, r: real) {
    (exists k: int :: r == TenThousandths(k)) && -0.00005 <= r - x <= 0.00005
  }

  function TenThousandths(k: int): real {
    k as real / 10000.0
  }

  lemma ScoreIsStrict(s: Claim, table: seq<Claim>)
    ensures 0.0 < GarageScore(Counts(s, table)) < 1.0
  {
    TotalIsCounts(s, table);
    RejectedAreDecided(s, table);
    FractionBounds(Counts(s, table).garageRejected + 1, Counts(s, table).garageDecided + 5);
  }

  lemma FractionBounds(a: nat, b: nat)
    requires 0 < a < b
    ensures 0.0 < a as real / b as real < 1.0
  {
  }

  lemma FractionBelow(a: nat, b: nat, c: nat, d: nat)
    requires b > 0 && d > 0
    ensures a as real / b as real < c as real / d as real <==> a * d < c * b
  {
    var x, y := a as real / b as real, c as real / d as real;
    assert x * b as real == a as real && y * d as real == c as real;
    var bd := b as real * d as real;
    assert bd > 0.0;
    assert x * bd == a as real * d as real && y * bd == c as real * b as real;
    assert x < y <==> x * bd < y * bd;
    assert (a * d) as real == a as real * d as real && (c * b) as real == c as real * b as real;
  }

  /**
   After rounding, the score stays strictly between 0 and 1 exactly while there is less than one
   rejection short of 20000 decisions (and one approval likewise); past that it rounds to 0 or to 1.
   */
  lemma RoundedScore(f: Features, r: real)
    requires f.garageRejected <= f.garageDecided && IsRounded(GarageScore(f), r)
    ensures f.garageDecided + 5 < 20000 * (f.garageRejected + 1) ==> r > 0.0
    ensures f.garageDecided + 5 > 20000 * (f.garageRejected + 1) ==> r == 0.0
    ensures f.garageDecided + 5 < 20000 * (f.garageDecided - f.garageRejected + 4) ==> r < 1.0
    ensures f.garageDecided + 5 > 20000 * (f.garageDecided - f.garageRejected + 4) ==> r == 1.0
  {
    var a, b := f.garageRejected + 1, f.garageDecided + 5;
    FractionBelow(1, 20000, a, b);
    FractionBelow(a, b, 1, 20000);
    FractionBelow(a, b, 19999, 20000);
    FractionBelow(19999, 20000, a, b);
    FractionBounds(a, b);
    var k: int :| r == TenThousandths(k);
    NearFraction(GarageScore(f), k);
  }

  lemma NearFraction(x: real, k: int)
    requires 0.0 < x < 1.0 && -0.00005 <= TenThousandths(k) - x <= 0.00005
    ensures x > 0.00005 ==> TenThousandths(k) > 0.0
    ensures x < 0.00005 ==> TenThousandths(k) == 0.0
    ensures x < 0.99995 ==> TenThousandths(k) < 1.0
    ensures x > 0.99995 ==> TenThousandths(k) == 1.0
  {
    var r := TenThousandths(k);
    assert r * 10000.0 == k as real;
  }

  /* ---- the scored items ---- */

  datatype PolicyContext = PolicyContext(priorClaims: nat, priorRejected: nat, rest: int)
  datatype GarageContext = GarageContext(claims30d: nat, score: real, rest: int)
  datatype Item = Item(claim: Claim, policy: Option<PolicyContext>, garage: Option<GarageContext>)

  /** The claims filed on or after `since`, and those still open. */
  function Scope(table: seq<Claim>, since: int): (r: seq<Claim>)
    ensures forall h <- r :: h in table
  {
    if table == [] then [] else
    var last := table[|table| - 1];
    Scope(table[..|table| - 1], since) + if last.fnol / DAY >= since || last.status == Open then [last] else []
  }

  /** Filed on day `since` or later, by its first moment, or without a decision. */
  predicate IsScored(h: Claim, since: int) {
    h.fnol >= since * DAY || (h.status != Approved && h.status != Rejected)
  }

  /** Which claims are scored: their places in the table, in its order. */
  lemma {:induction false} ScopeIs(table: seq<Claim>, since: int) returns (at: seq<nat>)
    ensures AreAt(Scope(table, since), table, at)
    ensures forall n: nat :: n in at <==> n < |table| && IsScored(table[n], since)
  {
    at := [];
    if table != [] {
      var n := |table| - 1;
      assert table == table[..n] + [table[n]];
      at := ScopeIs(table[..n], since);
      OneMoreAt(Scope(table[..n], since), table[..n], at, table[n]);
      if IsScored(table[n], since) {
        at := at + [n];
      } else {
        assert Scope(table[..n], since) + [] == Scope(table[..n], since);
      }
    }
  }

  /** These claims of the table, in its order. */
  ghost predicate AreAt(picked: seq<Claim>, table: seq<Claim>, at: seq<nat>) {
    && |picked| == |at| && (forall i | 0 <= i < |at| :: at[i] < |table| && picked[i] == table[at[i]])
    && forall i, j | 0 <= i < j < |at| :: at[i] < at[j]
  }

  lemma OneMoreAt(picked: seq<Claim>, table: seq<Claim>, at: seq<nat>, h: Claim)
    requires AreAt(picked, table, at)
    ensures AreAt(picked, table + [h], at) && AreAt(picked + [h], table + [h], at + [|table|])
  {
  }

  /** One item for each claim to be scored, and no other, in the order of the table. */
  ghost predicate AreScored(out: seq<Item>, table: seq<Claim>, since: int) {
    && (forall n | 0 <= n < |table| ::
          IsScored(table[n], since) <==> exists k | 0 <= k < |out| :: out[k].claim == table[n])
    && forall k, l | 0 <= k < l < |out| ::
         exists m, n | 0 <= m < n < |table| :: out[k].claim == table[m] && out[l].claim == table[n]
  }

  /** The items are of these claims of the table. */
  ghost predicate AreItemsAt(out: seq<Item>, table: seq<Claim>, at: seq<nat>) {
    && |out| == |at| && (forall i | 0 <= i < |at| :: at[i] < |table| && out[i].claim == table[at[i]])
    && forall i, j | 0 <= i < j < |at| :: at[i] < at[j]
  }

  lemma HasItemIff(out: seq<Item>, table: seq<Claim>, at: seq<nat>, n: nat)
    requires DistinctIds(table) && AreItemsAt(out, table, at) && n < |table|
    ensures n in at <==> exists k | 0 <= k < |out| :: out[k].claim == table[n]
  {
    if n in at {
      var k :| 0 <= k < |at| && at[k] == n;
      assert out[k].claim == table[n];
    }
    if k :| 0 <= k < |out| && out[k].claim == table[n] {
      assert table[at[k]].id == table[n].id;
      assert at[k] == n;
    }
  }

  lemma ScopeIsScored(out: seq<Item>, table: seq<Claim>, since: int)
    requires DistinctIds(table) && |out| == |Scope(table, since)|
    requires forall k | 0 <= k < |out| :: out[k].claim == Scope(table, since)[k]
    ensures AreScored(out, table, since)
  {
    var at := ScopeIs(table, since);
    assert AreItemsAt(out, table, at);
    forall n | 0 <= n < |table|
      ensures IsScored(table[n], since) <==> exists k | 0 <= k < |out| :: out[k].claim == table[n]
    {
      HasItemIff(out, table, at, n);
    }
    forall k, l | 0 <= k < l < |out|
      ensures exists m, n | 0 <= m < n < |table| :: out[k].claim == table[m] && out[l].claim == table[n]
    {
      ItemsAreInOrder(out, table, at, k, l);
    }
  }

  lemma ItemsAreInOrder(out: seq<Item>, table: seq<Claim>, at: seq<nat>, k: nat, l: nat)
    requires AreItemsAt(out, table, at) && k < l < |out|
    ensures exists m, n | 0 <= m < n < |table| :: out[k].claim == table[m] && out[l].claim == table[n]
  {
    assert out[k].claim == table[at[k]] && out[l].claim == table[at[l]] && at[k] < at[l];
  }

  lemma {:induction false} ScopeIsDistinct(table: seq<Claim>, since: int)
    requires DistinctIds(table)
    ensures DistinctIds(Scope(table, since))
  {
    if table != [] {
      var init, last := table[..|table| - 1], table[|table| - 1];
      ScopeIsDistinct(init, since);
      forall h | h in Scope(init, since)
        ensures h.id != last.id
      {
        var i :| 0 <= i < |init| && init[i] == h;
        assert table[i] == h;
      }
    }
  }

  /** What an item must hold: the stored context with the point-in-time numbers put over it. */
  ghost predicate ItemOk(item: Item, s: Claim, table: seq<Claim>, policies: map<string, PolicyContext>,
                         garages: map<string, GarageContext>, policyOf: Claim -> string)
  {
    var f := Counts(s, table);
    var p, g := policyOf(s), if s.garage.Some? then s.garage.value else "";
    && item.claim == s
    && item.policy == (if p in policies
                       then Some(policies[p].(priorClaims := f.priorClaims, priorRejected := f.priorRejected))
                       else None)
    && (item.garage.Some? <==> s.garage.Some? && g in garages)
    && (item.garage.Some? ==> item.garage.value.rest == garages[g].rest && item.garage.value.claims30d == f.garageClaims
                              && IsRounded((f.garageRejected as real + 1.0) / (f.garageDecided as real + 5.0),
                                           item.garage.value.score))
  }

  /** One patched row: copies of its contexts with the history's numbers. */
  method ScoredItem(s: Claim, table: seq<Claim>, f: Features, policies: map<string, PolicyContext>,
                    garages: map<string, GarageContext>, policyOf: Claim -> string, round: real -> real)
    returns (item: Item)
    requires f == Counts(s, table) && forall x :: IsRounded(x, round(x))
    ensures ItemOk(item, s, table, policies, garages, policyOf)
  {
    var p: Option<PolicyContext>, g: Option<GarageContext> := None, None;
    var number := policyOf(s);
    if number in policies {
      p := Some(policies[number].(priorClaims := f.priorClaims, priorRejected := f.priorRejected));
    }
    if s.garage.Some? && s.garage.value in garages {
      var score := (f.garageRejected + 1) as real / (f.garageDecided + 5) as real;
      g := Some(garages[s.garage.value].(claims30d := f.garageClaims, score := round(score)));
    }
    item := Item(s, p, g);
  }

  /** `claims`: the scope's rows, each with copies of its contexts; `round` is the rounding of the runtime. */
  method Claims(table: seq<Claim>, since: int, policies: map<string, PolicyContext>,
                garages: map<string, GarageContext>, policyOf: Claim -> string, round: real -> real)
    returns (out: seq<Item>)
    requires DistinctIds(table) && forall x :: IsRounded(x, round(x))
    ensures |out| == |Scope(table, since)|
    ensures forall k | 0 <= k < |out| :: ItemOk(out[k], Scope(table, since)[k], table, policies, garages, policyOf)
    ensures AreScored(out, table, since)
    ensures forall k | 0 <= k < |out| :: ItemOk(out[k], out[k].claim, table, policies, garages, policyOf)
  {
    var scope := Scope(table, since);
    ScopeIsDistinct(table, since);
    out := [];
    for k := 0 to |scope|
      invariant |out| == k
      invariant forall j | 0 <= j < k :: ItemOk(out[j], scope[j], table, policies, garages, policyOf)
    {
      JoinIsCounts(scope, table, k);
      var f := HistoryOf(scope, table, scope[k].id);
      var item := ScoredItem(scope[k], table, f, policies, garages, policyOf, round);
      out := out + [item];
    }
    ScopeIsScored(out, table, since);
  }
}
