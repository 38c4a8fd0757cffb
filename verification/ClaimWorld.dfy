/**
 The seeded claim world: claims with their outcomes, and the policy-admin changes of each business
 date. A random stream is an abstract state that every draw advances; what a draw returns is a
 parameter. Times are microseconds, dates are day numbers.
 */
module ClaimWorld {
  import opened Options

  const HOUR: int := 3_600_000_000
  const DAY: int := 86_400_000_000

  function Midnight(d: int): int {
    d * DAY
  }

  datatype Status = Filed | UnderReview | Approved | Rejected
  datatype DecidedBy = FraudSiu | Auto | Adjuster

  datatype Claim = Claim(id: int, customer: nat, details: int, fnol: int, reviewAt: Option<int>, status: Status,
                         decided: Option<int>, amountApproved: Option<real>, decidedBy: Option<DecidedBy>,
                         reason: Option<string>)

  datatype Customer = Customer(mobile: string, laterMobiles: seq<(int, string)>)

  datatype Policy = Policy(customer: nat, effective: int, expiry: int, active: bool, premium: real, ncb: int)

  /* ---- draws ---- */

  type Rng = int

  /** The draws of `_claim` and `_adjudicate` for one claim. */
  datatype Rolls = Rolls(customer: nat, details: int, siu: bool, approve: bool, fast: bool, amount: real,
                         reason: string, siuDecides: int, siuReviews: int, autoDecides: int, reviews: int,
                         decides: int, afterReview: int)

  /** The ranges the code draws from: 4-20 days and 2-30 hours for SIU, 3-240 minutes for auto, and so on. */
  predicate InRange(r: Rolls) {
    && 4 * DAY <= r.siuDecides <= 20 * DAY && 2 * HOUR <= r.siuReviews <= 30 * HOUR
    && 180_000_000 <= r.autoDecides <= 4 * HOUR
    && HOUR <= r.reviews <= 30 * HOUR && DAY / 2 <= r.decides <= 9 * DAY && HOUR <= r.afterReview <= 6 * HOUR
  }

  datatype Change =
    | Renew(policy: nat, offset: int, factor: real)
    | Lapse(policy: nat, offset: int)
    | NewMobile(policy: nat, offset: int, mobile: string)
    | NcbReset(policy: nat, offset: int)

  /** What the streams yield: a day's claim count, a time of day, one claim's rolls, a day's policy changes. */
  datatype Gen = Gen(count: Rng -> (nat, Rng), timeOfDay: Rng -> (int, Rng), claim: Rng -> (Rolls, Rng),
                     changes: Rng -> (seq<Change>, Rng))

  /** Every date has claims (40 give or take 5), and draws stay in their ranges. */
  ghost predicate GenOk(gen: Gen, policies: nat) {
    && (forall r :: gen.count(r).0 > 0)
    && (forall r :: 7 * HOUR <= gen.timeOfDay(r).0 <= 21 * HOUR)
    && (forall r :: InRange(gen.claim(r).0))
    && (forall r :: forall c <- gen.changes(r).0 :: c.policy < policies && 8 * HOUR <= c.offset <= 20 * HOUR)
  }

  /* ---- claims ---- */

  /** A claim as filed, then decided by `_adjudicate`. */
  function Adjudicated(id: int, fnol: int, r: Rolls): Claim {
    var filed := Claim(id, r.customer, r.details, fnol, None, Filed, None, None, None, None);
    if r.siu then
      filed.(status := Rejected, decidedBy := Some(FraudSiu), reason := Some("FRAUD_CONFIRMED"),
             decided := Some(fnol + r.siuDecides), reviewAt := Some(fnol + r.siuReviews))
    else
      var auto := r.approve && r.fast;
      var review := fnol + r.reviews;
      var byHand := if fnol + r.decides >= review + r.afterReview then fnol + r.decides else review + r.afterReview;
      filed.(status := if r.approve then Approved else Rejected,
             decidedBy := Some(if auto then Auto else Adjuster),
             reason := if r.approve then None else Some(r.reason),
             amountApproved := if r.approve then Some(r.amount) else None,
             decided := Some(if auto then fnol + r.autoDecides else byHand),
             reviewAt := if auto then None else Some(review))
  }

  /** Every claim is filed, then reviewed if at all, then decided. */
  predicate InSequence(c: Claim) {
    && c.decided.Some? && c.fnol < c.decided.value
    && (c.reviewAt.Some? ==> c.fnol < c.reviewAt.value < c.decided.value)
    && c.status in {Approved, Rejected}
    && (c.status == Approved <==> c.amountApproved.Some?) && (c.status == Rejected <==> c.reason.Some?)
  }

  lemma AdjudicationIsInSequence(id: int, fnol: int, r: Rolls)
    requires InRange(r)
    ensures InSequence(Adjudicated(id, fnol, r))
  {
  }

  /**
   Who decides, and when: the machine decides exactly the claims without review, only to approve, and within
   hours; SIU confirms fraud; an adjuster decides at least half a day after the FNOL and an hour after the review.
   */
  lemma WhoDecides(id: int, fnol: int, r: Rolls)
    requires InRange(r)
    ensures var c := Adjudicated(id, fnol, r);
      && c.decidedBy.Some?
      && (c.decidedBy == Some(Auto) <==> c.reviewAt.None?)
      && (c.decidedBy == Some(Auto) ==> c.status == Approved && c.decided.value <= fnol + 4 * HOUR)
      && (c.decidedBy == Some(FraudSiu) <==> r.siu)
      && (r.siu ==> c.status == Rejected && c.reason == Some("FRAUD_CONFIRMED") && c.decided.value >= fnol + 4 * DAY)
      && (c.decidedBy == Some(Adjuster) ==>
            c.decided.value >= fnol + DAY / 2 && c.decided.value >= c.reviewAt.value + HOUR)
  {
  }

  /** The stream position, the next claim number and the claims so far. */
  datatype Building = Building(rng: Rng, next: int, claims: seq<Claim>)

  function OneClaim(gen: Gen, b: Building, d: int): Building {
    var (time, rng) := gen.timeOfDay(b.rng);
    var (rolls, rng') := gen.claim(rng);
    Building(rng', b.next + 1, b.claims + [Adjudicated(b.next, Midnight(d) + time, rolls)])
  }

  function DayClaims(gen: Gen, b: Building, d: int, n: nat): Building {
    if n == 0 then b else OneClaim(gen, DayClaims(gen, b, d, n - 1), d)
  }

  function AddDay(gen: Gen, b: Building, d: int): Building {
    var (n, rng) := gen.count(b.rng);
    DayClaims(gen, b.(rng := rng), d, n)
  }

  /** The claims of the dates, after the history in `start`. */
  function ClaimsOver(gen: Gen, start: Building, dates: seq<int>): Building {
    if dates == [] then start else AddDay(gen, ClaimsOver(gen, start, dates[..|dates| - 1]), dates[|dates| - 1])
  }

  /* ---- every claim by its own draws ---- */

  /** The stream after `n` claims have been drawn: a time of day and the rolls for each. */
  function AfterDraws(gen: Gen, rng: Rng, n: nat): Rng {
    if n == 0 then rng else gen.claim(gen.timeOfDay(AfterDraws(gen, rng, n - 1)).1).1
  }

  /** The stream at the start of date number `i`: every date draws its number of claims, then the claims. */
  function AtDate(gen: Gen, rng: Rng, i: nat): Rng {
    if i == 0 then rng else
    var (n, rest) := gen.count(AtDate(gen, rng, i - 1));
    AfterDraws(gen, rest, n)
  }

  /** How many claims the first `i` dates have. */
  function ClaimsBefore(gen: Gen, rng: Rng, i: nat): nat {
    if i == 0 then 0 else ClaimsBefore(gen, rng, i - 1) + gen.count(AtDate(gen, rng, i - 1)).0
  }

  /** A claim with this number, time and rolls: who, what and when it was filed, and how it ended. */
  predicate IsDrawn(c: Claim, id: int, fnol: int, r: Rolls) {
    && c.id == id && c.customer == r.customer && c.details == r.details && c.fnol == fnol
    && if r.siu then IsFraud(c, r) else IsDecided(c, r)
  }

  /** Confirmed fraud: rejected by SIU. */
  predicate IsFraud(c: Claim, r: Rolls) {
    && c.status == Rejected && c.decidedBy == Some(FraudSiu) && c.reason == Some("FRAUD_CONFIRMED")
    && c.amountApproved == None
    && c.decided == Some(c.fnol + r.siuDecides) && c.reviewAt == Some(c.fnol + r.siuReviews)
  }

  /**
   Approved with the amount or rejected with the reason, as drawn. Approved and fast is the machine's, without a
   review; the rest an adjuster's, decided at the later of the time drawn and the time drawn after the review.
   */
  predicate IsDecided(c: Claim, r: Rolls) {
    && (r.approve ==> c.status == Approved && c.amountApproved == Some(r.amount) && c.reason == None)
    && (!r.approve ==> c.status == Rejected && c.amountApproved == None && c.reason == Some(r.reason))
    && (r.approve && r.fast ==>
          c.decidedBy == Some(Auto) && c.reviewAt == None && c.decided == Some(c.fnol + r.autoDecides))
    && (!(r.approve && r.fast) ==>
          && c.decidedBy == Some(Adjuster) && c.reviewAt == Some(c.fnol + r.reviews) && c.decided.Some?
          && c.decided.value >= c.fnol + r.decides && c.decided.value >= c.fnol + r.reviews + r.afterReview
          && (c.decided.value == c.fnol + r.decides || c.decided.value == c.fnol + r.reviews + r.afterReview))
  }

  lemma AdjudicatedIsDrawn(id: int, fnol: int, r: Rolls)
    ensures IsDrawn(Adjudicated(id, fnol, r), id, fnol, r)
  {
  }

  /** Claim `k` of a date, by the draws of its place in the stream; `rng` is the stream after the date's count. */
  ghost predicate IsDayClaim(gen: Gen, claims: seq<Claim>, from: nat, id: int, d: int, rng: Rng, k: nat) {
    var (time, rest) := gen.timeOfDay(AfterDraws(gen, rng, k));
    from + k < |claims| && IsDrawn(claims[from + k], id + k, d * DAY + time, gen.claim(rest).0)
  }

  /** So are the first `n` claims of a date, numbered on from `id`. */
  ghost predicate AreDayClaims(gen: Gen, claims: seq<Claim>, from: nat, id: int, d: int, rng: Rng, n: nat) {
    forall k: nat | k < n :: IsDayClaim(gen, claims, from, id, d, rng, k)
  }

  lemma DayClaimsStay(gen: Gen, claims: seq<Claim>, more: seq<Claim>, from: nat, id: int, d: int, rng: Rng, n: nat)
    requires claims <= more && AreDayClaims(gen, claims, from, id, d, rng, n)
    ensures AreDayClaims(gen, more, from, id, d, rng, n)
  {
    forall k: nat | k < n ensures IsDayClaim(gen, more, from, id, d, rng, k) {
      assert IsDayClaim(gen, claims, from, id, d, rng, k);
    }
  }

  lemma {:induction false} DayIsDrawn(gen: Gen, b: Building, d: int, n: nat)
    ensures var after := DayClaims(gen, b, d, n);
      && after.rng == AfterDraws(gen, b.rng, n) && after.next == b.next + n
      && b.claims <= after.claims && |after.claims| == |b.claims| + n
      && AreDayClaims(gen, after.claims, |b.claims|, b.next, d, b.rng, n)
  {
    if n > 0 {
      var before, after := DayClaims(gen, b, d, n - 1), DayClaims(gen, b, d, n);
      DayIsDrawn(gen, b, d, n - 1);
      var (time, rest) := gen.timeOfDay(before.rng);
      AdjudicatedIsDrawn(before.next, Midnight(d) + time, gen.claim(rest).0);
      DayClaimsStay(gen, before.claims, after.claims, |b.claims|, b.next, d, b.rng, n - 1);
      assert IsDayClaim(gen, after.claims, |b.claims|, b.next, d, b.rng, n - 1);
    }
  }

  /** What the dates add to the claims of before: for each date as many as it draws, each by its own draws. */
  ghost predicate AreDrawn(gen: Gen, start: Building, dates: seq<int>, claims: seq<Claim>) {
    && start.claims <= claims && |claims| == |start.claims| + ClaimsBefore(gen, start.rng, |dates|)
    && forall i: nat | i < |dates| :: DateIsDrawn(gen, start, dates[i], i, claims)
  }

  ghost predicate DateIsDrawn(gen: Gen, start: Building, d: int, i: nat, claims: seq<Claim>) {
    var (n, rest) := gen.count(AtDate(gen, start.rng, i));
    var from := ClaimsBefore(gen, start.rng, i);
    && |start.claims| + from + n <= |claims|
    && AreDayClaims(gen, claims, |start.claims| + from, start.next + from, d, rest, n)
  }

  lemma DateStays(gen: Gen, start: Building, d: int, i: nat, claims: seq<Claim>, more: seq<Claim>)
    requires DateIsDrawn(gen, start, d, i, claims) && claims <= more
    ensures DateIsDrawn(gen, start, d, i, more)
  {
    var (n, rest) := gen.count(AtDate(gen, start.rng, i));
    var from := ClaimsBefore(gen, start.rng, i);
    DayClaimsStay(gen, claims, more, |start.claims| + from, start.next + from, d, rest, n);
  }

  /** After `m` dates: the stream, the next number and the count of claims are where the draws have brought them. */
  ghost predicate IsAtDate(gen: Gen, start: Building, b: Building, m: nat) {
    && b.rng == AtDate(gen, start.rng, m) && b.next == start.next + ClaimsBefore(gen, start.rng, m)
    && start.claims <= b.claims && |b.claims| == |start.claims| + ClaimsBefore(gen, start.rng, m)
  }

  lemma DateIsAdded(gen: Gen, start: Building, before: Building, d: int, m: nat)
    requires IsAtDate(gen, start, before, m)
    ensures var after := AddDay(gen, before, d);
      before.claims <= after.claims && IsAtDate(gen, start, after, m + 1) && DateIsDrawn(gen, start, d, m, after.claims)
  {
    var (n, rest) := gen.count(before.rng);
    DayIsDrawn(gen, before.(rng := rest), d, n);
  }

  /** Every claim that the dates add is the one its own draws make it. */
  lemma {:induction false} ClaimsAreDrawn(gen: Gen, start: Building, dates: seq<int>)
    ensures var b := ClaimsOver(gen, start, dates);
      AreDrawn(gen, start, dates, b.claims) && IsAtDate(gen, start, b, |dates|)
  {
    if dates != [] {
      var m := |dates| - 1;
      var before, b := ClaimsOver(gen, start, dates[..m]), ClaimsOver(gen, start, dates);
      ClaimsAreDrawn(gen, start, dates[..m]);
      DateIsAdded(gen, start, before, dates[m], m);
      forall i: nat | i < m ensures DateIsDrawn(gen, start, dates[i], i, b.claims) {
        assert DateIsDrawn(gen, start, dates[..m][i], i, before.claims);
        DateStays(gen, start, dates[i], i, before.claims, b.claims);
      }
    }
  }

  /* ---- policy changes ---- */

  /** The last change on or before the date among the dated ones, else the mobile itself. */
  function MobileOn(c: Customer, d: int): string
    decreases |c.laterMobiles|
  {
    if c.laterMobiles == [] then c.mobile else
    var (day, mobile) := c.laterMobiles[|c.laterMobiles| - 1];
    if day <= d then mobile else MobileOn(c.(laterMobiles := c.laterMobiles[..|c.laterMobiles| - 1]), d)
  }

  /** One change event: the policy as it is after the change, with the holder's mobile on that date. */
  datatype CdcRow = CdcRow(t: int, policy: nat, after: Policy, mobile: string) | UnknownPolicy(t: int)

  datatype Book = Book(rng: Rng, customers: seq<Customer>, policies: seq<Policy>, cdc: map<int, seq<CdcRow>>)

  ghost predicate BookOk(b: Book) {
    forall p <- b.policies :: p.customer < |b.customers|
  }

  function Changed(p: Policy, c: Change): Policy {
    match c
    case Renew(_, _, factor) =>
      p.(effective := p.expiry, expiry := p.expiry + 365, active := true, premium := p.premium * factor)
    case Lapse(_, _) => p.(active := false)
    case NewMobile(_, _, _) => p
    case NcbReset(_, _) => p.(ncb := 0)
  }

  /** Up to the frozen date a new mobile replaces the old one; after it, it is kept with its date. */
  function WithMobile(c: Customer, d: int, mobile: string, frozen: int): Customer {
    if d <= frozen then c.(mobile := mobile) else c.(laterMobiles := c.laterMobiles + [(d, mobile)])
  }

  function Holders(customers: seq<Customer>, holder: nat, d: int, c: Change, frozen: int): seq<Customer>
    requires holder < |customers|
  {
    if c.NewMobile? then customers[holder := WithMobile(customers[holder], d, c.mobile, frozen)] else customers
  }

  function OneChange(b: Book, d: int, c: Change, frozen: int): (after: Book)
    requires BookOk(b) && c.policy < |b.policies|
    ensures BookOk(after) && |after.policies| == |b.policies| && |after.customers| == |b.customers|
    ensures after.rng == b.rng
  {
    var p := Changed(b.policies[c.policy], c);
    var customers := Holders(b.customers, p.customer, d, c, frozen);
    var row := CdcRow(Midnight(d) + c.offset, c.policy, p, MobileOn(customers[p.customer], d));
    var rows := (if d in b.cdc then b.cdc[d] else []) + [row];
    Book(b.rng, customers, b.policies[c.policy := p], b.cdc[d := rows])
  }

  /** What a change does to a policy. */
  predicate IsChanged(before: Policy, after: Policy, c: Change) {
    && after.customer == before.customer
    && (c.Renew? ==>
          && after.effective == before.expiry && after.expiry == before.expiry + 365 && after.active
          && after.premium == before.premium * c.factor && after.ncb == before.ncb)
    && (c.Lapse? ==> !after.active && after.(active := before.active) == before)
    && (c.NewMobile? ==> after == before)
    && (c.NcbReset? ==> after.ncb == 0 && after.(ncb := before.ncb) == before)
  }

  /**
   One change: its policy changes as its kind says, and no other; a new mobile is the holder's, from the date on
   when that is after the frozen one; and the date's file gets one row more, with the policy as it is then.
   */
  lemma OneChangeIs(b: Book, d: int, c: Change, frozen: int)
    requires BookOk(b) && c.policy < |b.policies|
    ensures var after, holder := OneChange(b, d, c, frozen), b.policies[c.policy].customer;
      && IsChanged(b.policies[c.policy], after.policies[c.policy], c)
      && (forall p | 0 <= p < |b.policies| && p != c.policy :: after.policies[p] == b.policies[p])
      && holder < |b.customers|
      && (forall h | 0 <= h < |b.customers| && (h != holder || !c.NewMobile?) :: after.customers[h] == b.customers[h])
      && (c.NewMobile? && d <= frozen ==> after.customers[holder] == b.customers[holder].(mobile := c.mobile))
      && (c.NewMobile? && d > frozen ==>
            forall day :: MobileOn(after.customers[holder], day)
                       == if day >= d then c.mobile else MobileOn(b.customers[holder], day))
      && d in after.cdc
      && after.cdc[d] == (if d in b.cdc then b.cdc[d] else [])
           + [CdcRow(d * DAY + c.offset, c.policy, after.policies[c.policy], MobileOn(after.customers[holder], d))]
      && forall e | e != d :: (e in after.cdc <==> e in b.cdc) && (e in b.cdc ==> after.cdc[e] == b.cdc[e])
  {
    assert b.policies[c.policy] in b.policies;
    var holder := b.policies[c.policy].customer;
    if c.NewMobile? && d > frozen {
      var later := WithMobile(b.customers[holder], d, c.mobile, frozen);
      assert later.laterMobiles[..|later.laterMobiles| - 1] == b.customers[holder].laterMobiles;
    }
  }

  function DayChanges(b: Book, d: int, cs: seq<Change>, frozen: int): (after: Book)
    requires BookOk(b) && forall c <- cs :: c.policy < |b.policies|
    ensures BookOk(after) && |after.policies| == |b.policies| && |after.customers| == |b.customers|
    ensures after.rng == b.rng
  {
    if cs == [] then b else OneChange(DayChanges(b, d, cs[..|cs| - 1], frozen), d, cs[|cs| - 1], frozen)
  }

  ghost function AddChanges(gen: Gen, b: Book, d: int, frozen: int): (after: Book)
    requires BookOk(b) && GenOk(gen, |b.policies|)
    ensures BookOk(after) && |after.policies| == |b.policies| && |after.customers| == |b.customers|
  {
    var (cs, rng) := gen.changes(b.rng);
    DayChanges(b, d, cs, frozen).(rng := rng)
  }

  /** The first date has no change file; every later one draws its changes from the one stream. */
  ghost function ChangesOver(gen: Gen, start: Book, dates: seq<int>, frozen: int): (after: Book)
    requires BookOk(start) && GenOk(gen, |start.policies|)
    ensures BookOk(after) && |after.policies| == |start.policies| && |after.customers| == |start.customers|
  {
    if |dates| <= 1 then start
    else AddChanges(gen, ChangesOver(gen, start, dates[..|dates| - 1], frozen), dates[|dates| - 1], frozen)
  }

  /* ---- the change files by their own draws ---- */

  /** The stream after `n` dates have drawn their changes. */
  function AfterChanges(gen: Gen, rng: Rng, n: nat): Rng {
    if n == 0 then rng else gen.changes(AfterChanges(gen, rng, n - 1)).1
  }

  /** A row of a change file is of the change drawn for its place: its policy and its time of day. */
  predicate IsRowFor(row: CdcRow, d: int, c: Change) {
    row.CdcRow? && row.policy == c.policy && row.t == d * DAY + c.offset
  }

  ghost predicate AreRowsFor(rows: seq<CdcRow>, before: seq<CdcRow>, d: int, cs: seq<Change>) {
    && |rows| == |before| + |cs| && before <= rows
    && forall k | 0 <= k < |cs| :: IsRowFor(rows[|before| + k], d, cs[k])
  }

  function RowsOn(b: Book, d: int): seq<CdcRow> {
    if d in b.cdc then b.cdc[d] else []
  }

  lemma {:induction false} DayRowsAre(b: Book, d: int, cs: seq<Change>, frozen: int)
    requires BookOk(b) && forall c <- cs :: c.policy < |b.policies|
    ensures AreRowsFor(RowsOn(DayChanges(b, d, cs, frozen), d), RowsOn(b, d), d, cs)
    ensures forall e | e != d :: RowsOn(DayChanges(b, d, cs, frozen), e) == RowsOn(b, e)
  {
    if cs != [] {
      var init, last := cs[..|cs| - 1], cs[|cs| - 1];
      assert forall c <- init :: c in cs;
      DayRowsAre(b, d, init, frozen);
      OneRowIs(DayChanges(b, d, init, frozen), d, last, frozen);
      OneMoreRow(RowsOn(DayChanges(b, d, init, frozen), d), RowsOn(b, d), d, init, last,
                 RowsOn(DayChanges(b, d, cs, frozen), d));
      assert cs == init + [last];
    }
  }

  lemma OneRowIs(b: Book, d: int, c: Change, frozen: int)
    requires BookOk(b) && c.policy < |b.policies|
    ensures var rows := RowsOn(OneChange(b, d, c, frozen), d);
      |rows| == |RowsOn(b, d)| + 1 && RowsOn(b, d) <= rows && IsRowFor(rows[|rows| - 1], d, c)
    ensures forall e | e != d :: RowsOn(OneChange(b, d, c, frozen), e) == RowsOn(b, e)
  {
    OneChangeIs(b, d, c, frozen);
  }

  lemma OneMoreRow(rows: seq<CdcRow>, before: seq<CdcRow>, d: int, cs: seq<Change>, c: Change, more: seq<CdcRow>)
    requires AreRowsFor(rows, before, d, cs) && |more| == |rows| + 1 && rows <= more && IsRowFor(more[|rows|], d, c)
    ensures AreRowsFor(more, before, d, cs + [c])
  {
    forall k | 0 <= k < |cs + [c]| ensures IsRowFor(more[|before| + k], d, (cs + [c])[k]) {
      if k < |cs| {
        assert IsRowFor(rows[|before| + k], d, cs[k]);
      }
    }
  }

  lemma {:induction false} ChangeStreamIs(gen: Gen, start: Book, dates: seq<int>, frozen: int)
    requires BookOk(start) && GenOk(gen, |start.policies|) && dates != []
    ensures ChangesOver(gen, start, dates, frozen).rng == AfterChanges(gen, start.rng, |dates| - 1)
  {
    if |dates| > 1 {
      ChangeStreamIs(gen, start, dates[..|dates| - 1], frozen);
    }
  }

  /** The first date, and a day that is no date, has no row of a change. */
  lemma {:induction false} OtherRowsStay(gen: Gen, start: Book, dates: seq<int>, frozen: int, e: int)
    requires BookOk(start) && GenOk(gen, |start.policies|)
    requires forall k | 0 < k < |dates| :: dates[k] != e
    ensures RowsOn(ChangesOver(gen, start, dates, frozen), e) == RowsOn(start, e)
  {
    if |dates| > 1 {
      var n := |dates| - 1;
      OtherRowsStay(gen, start, dates[..n], frozen, e);
      var before := ChangesOver(gen, start, dates[..n], frozen);
      DayRowsAre(before, dates[n], gen.changes(before.rng).0, frozen);
    }
  }

  lemma LastDateRows(gen: Gen, start: Book, dates: seq<int>, frozen: int)
    requires BookOk(start) && GenOk(gen, |start.policies|) && |dates| > 1
    ensures var n := |dates| - 1;
      var before, after := ChangesOver(gen, start, dates[..n], frozen), ChangesOver(gen, start, dates, frozen);
      && AreRowsFor(RowsOn(after, dates[n]), RowsOn(before, dates[n]), dates[n],
                    gen.changes(AfterChanges(gen, start.rng, n - 1)).0)
      && forall e | e != dates[n] :: RowsOn(after, e) == RowsOn(before, e)
  {
    var n := |dates| - 1;
    var before := ChangesOver(gen, start, dates[..n], frozen);
    ChangeStreamIs(gen, start, dates[..n], frozen);
    DayRowsAre(before, dates[n], gen.changes(before.rng).0, frozen);
  }

  /** Every later date has a row for each of its own drawn changes, in their order. */
  lemma {:induction false} ChangeRowsAre(gen: Gen, start: Book, dates: seq<int>, frozen: int, i: nat)
    requires BookOk(start) && GenOk(gen, |start.policies|) && 0 < i < |dates|
    requires forall j, k | 0 <= j < k < |dates| :: dates[j] < dates[k]
    ensures AreRowsFor(RowsOn(ChangesOver(gen, start, dates, frozen), dates[i]), RowsOn(start, dates[i]), dates[i],
                       gen.changes(AfterChanges(gen, start.rng, i - 1)).0)
  {
    var n := |dates| - 1;
    LastDateRows(gen, start, dates, frozen);
    if i < n {
      ChangeRowsAre(gen, start, dates[..n], frozen, i);
    } else {
      OtherRowsStay(gen, start, dates[..n], frozen, dates[n]);
    }
  }

  lemma ChangesOverOneMore(gen: Gen, start: Book, dates: seq<int>, i: nat, frozen: int)
    requires BookOk(start) && GenOk(gen, |start.policies|) && 1 <= i < |dates|
    ensures ChangesOver(gen, start, dates[..i + 1], frozen)
         == AddChanges(gen, ChangesOver(gen, start, dates[..i], frozen), dates[i], frozen)
  {
    assert dates[..i + 1][..i] == dates[..i];
  }

  class World {
    const gen: Gen
    const dates: seq<int>
    const frozen: int
    var rng: Rng
    var next: int
    var claims: seq<Claim>
    var cdcRng: Rng
    var customers: seq<Customer>
    var policies: seq<Policy>
    var cdc: map<int, seq<CdcRow>>

    function ClaimState(): Building
      reads this
    {
      Building.Building(rng, next, claims)
    }

    function BookState(): Book
      reads this
    {
      Book.Book(cdcRng, customers, policies, cdc)
    }

    /** `history` are the claims before the first date, `book` the customers and policies as first built. */
    constructor (gen: Gen, dates: seq<int>, frozen: int, history: Building, book: Book)
      ensures this.gen == gen && this.dates == dates && this.frozen == frozen
      ensures ClaimState() == history && BookState() == book
    {
      this.gen, this.dates, this.frozen := gen, dates, frozen;
      rng, next, claims := history.rng, history.next, history.claims;
      cdcRng, customers, policies, cdc := book.rng, book.customers, book.policies, book.cdc;
    }

    /** The dated part of `_build_claims`: one stream for all dates, in order. */
    method BuildClaims()
      modifies this
      ensures ClaimState() == ClaimsOver(gen, old(ClaimState()), dates)
      ensures AreDrawn(gen, old(ClaimState()), dates, claims)
      ensures BookState() == old(BookState())
    {
      ghost var start := ClaimState();
      for i := 0 to |dates|
        invariant ClaimState() == ClaimsOver(gen, start, dates[..i]) && BookState() == old(BookState())
      {
        assert dates[..i + 1][..i] == dates[..i];
        BuildDay(dates[i]);
      }
      assert dates[..|dates|] == dates;
      ClaimsAreDrawn(gen, start, dates);
    }

    method BuildDay(d: int)
      modifies this
      ensures ClaimState() == AddDay(gen, old(ClaimState()), d)
      ensures BookState() == old(BookState())
    {
      var (n, r) := gen.count(rng);
      rng := r;
      ghost var start := ClaimState();
      for k := 0 to n
        invariant ClaimState() == DayClaims(gen, start, d, k) && BookState() == old(BookState())
      {
        BuildClaim(d);
      }
    }

    method BuildClaim(d: int)
      modifies this
      ensures ClaimState() == OneClaim(gen, old(ClaimState()), d)
      ensures BookState() == old(BookState())
    {
      var (time, r1) := gen.timeOfDay(rng);
      var (rolls, r2) := gen.claim(r1);
      var claim := Adjudicate(next, Midnight(d) + time, rolls);
      rng, next, claims := r2, next + 1, claims + [claim];
    }

    /** `_adjudicate`: outcome fields are set on the filed claim one by one. */
    method Adjudicate(id: int, fnol: int, r: Rolls) returns (cl: Claim)
      ensures cl == Adjudicated(id, fnol, r)
    {
      cl := Claim(id, r.customer, r.details, fnol, None, Filed, None, None, None, None);
      if r.siu {
        cl := cl.(status := Rejected, decidedBy := Some(FraudSiu), reason := Some("FRAUD_CONFIRMED"));
        cl := cl.(decided := Some(fnol + r.siuDecides), reviewAt := Some(fnol + r.siuReviews));
        return;
      }
      var auto := r.approve && r.fast;
      cl := cl.(status := if r.approve then Approved else Rejected, decidedBy := Some(if auto then Auto else Adjuster));
      if r.approve {
        cl := cl.(amountApproved := Some(r.amount));
      } else {
        cl := cl.(reason := Some(r.reason));
      }
      if auto {
        cl := cl.(decided := Some(fnol + r.autoDecides));
      } else {
        var review := fnol + r.reviews;
        var late := review + r.afterReview;
        cl := cl.(reviewAt := Some(review));
        cl := cl.(decided := Some(if fnol + r.decides >= late then fnol + r.decides else late));
      }
    }

    method BuildCdc()
      requires BookOk(BookState()) && GenOk(gen, |policies|)
      modifies this
      ensures BookState() == ChangesOver(gen, old(BookState()), dates, frozen)
      ensures ClaimState() == old(ClaimState())
    {
      ghost var start := BookState();
      if |dates| == 0 {
        return;
      }
      for i := 1 to |dates|
        invariant ClaimState() == old(ClaimState()) && BookOk(start) && GenOk(gen, |start.policies|)
        invariant BookState() == ChangesOver(gen, start, dates[..i], frozen)
      {
        ChangesOverOneMore(gen, start, dates, i, frozen);
        BuildChanges(dates[i]);
      }
      assert dates[..|dates|] == dates;
    }

    method BuildChanges(d: int)
      requires BookOk(BookState()) && GenOk(gen, |policies|)
      modifies this
      ensures BookState() == AddChanges(gen, old(BookState()), d, frozen) && ClaimState() == old(ClaimState())
    {
      var (cs, r) := gen.changes(cdcRng);
      ApplyChanges(d, cs);
      cdcRng := r;
    }

    method ApplyChanges(d: int, cs: seq<Change>)
      requires BookOk(BookState()) && forall c <- cs :: c.policy < |policies|
      modifies this
      ensures BookState() == DayChanges(old(BookState()), d, cs, frozen) && ClaimState() == old(ClaimState())
    {
      ghost var start := BookState();
      for k := 0 to |cs|
        invariant ClaimState() == old(ClaimState()) && |policies| == |start.policies| && BookOk(start)
        invariant BookState() == DayChanges(start, d, cs[..k], frozen)
      {
        assert cs[..k + 1][..k] == cs[..k];
        ApplyChange(d, cs[k]);
      }
      assert cs[..|cs|] == cs;
    }

    method ApplyChange(d: int, c: Change)
      requires BookOk(BookState()) && c.policy < |policies|
      modifies this
      ensures BookState() == OneChange(old(BookState()), d, c, frozen) && ClaimState() == old(ClaimState())
    {
      var p := policies[c.policy];
      assert p in policies;
      match c {
        case Renew(_, _, factor) =>
          p := p.(effective := p.expiry, expiry := p.expiry + 365, active := true);
          p := p.(premium := p.premium * factor);
        case Lapse(_, _) => p := p.(active := false);
        case NewMobile(_, _, mobile) =>
          var holder := customers[p.customer];
          if d <= frozen {
            holder := holder.(mobile := mobile);
          } else {
            holder := holder.(laterMobiles := holder.laterMobiles + [(d, mobile)]);
          }
          customers := customers[p.customer := holder];
        case NcbReset(_, _) => p := p.(ncb := 0);
      }
      assert p == Changed(old(policies)[c.policy], c);
      assert customers == Holders(old(customers), p.customer, d, c, frozen);
      policies := policies[c.policy := p];
      var row := CdcRow(Midnight(d) + c.offset, c.policy, p, MobileOn(customers[p.customer], d));
      cdc := cdc[d := (if d in cdc then cdc[d] else []) + [row]];
    }
  }
}
