/**
 The status event log against the claim rows: which events the files of the first dates deliver, and
 when a delivered row and the delivered events rebuild what the claims system shows at day end.
 */
module LandingReplay {
  import opened Options
  import opened ClaimWorld
  import opened Landing

  ghost predicate Increasing(dates: seq<int>) {
    forall i, j | 0 <= i < j < |dates| :: dates[i] < dates[j]
  }

  ghost predicate Contiguous(dates: seq<int>) {
    forall i | 0 <= i < |dates| :: dates[i] == dates[0] + i
  }

  ghost predicate DistinctIds(claims: seq<Claim>) {
    forall i, j | 0 <= i < j < |claims| :: claims[i].id != claims[j].id
  }

  ghost predicate ClaimsOk(claims: seq<Claim>) {
    DistinctIds(claims) && forall cl <- claims :: InSequence(cl)
  }

  /** The claims that the world builds are such a list: decided in sequence, numbered upwards. */
  ghost predicate WellBuilt(b: Building) {
    ClaimsOk(b.claims) && forall cl <- b.claims :: cl.id < b.next
  }

  lemma {:induction false} DayIsWellBuilt(gen: Gen, b: Building, d: int, n: nat, policies: nat)
    requires GenOk(gen, policies) && WellBuilt(b)
    ensures WellBuilt(DayClaims(gen, b, d, n))
  {
    if n > 0 {
      var before := DayClaims(gen, b, d, n - 1);
      DayIsWellBuilt(gen, b, d, n - 1, policies);
      var (time, rng) := gen.timeOfDay(before.rng);
      var cl := Adjudicated(before.next, Midnight(d) + time, gen.claim(rng).0);
      AdjudicationIsInSequence(before.next, Midnight(d) + time, gen.claim(rng).0);
      assert DayClaims(gen, b, d, n).claims == before.claims + [cl];
    }
  }

  lemma {:induction false} ClaimsAreWellBuilt(gen: Gen, start: Building, dates: seq<int>, policies: nat)
    requires GenOk(gen, policies) && WellBuilt(start)
    ensures WellBuilt(ClaimsOver(gen, start, dates))
  {
    if dates != [] {
      var before := ClaimsOver(gen, start, dates[..|dates| - 1]);
      ClaimsAreWellBuilt(gen, start, dates[..|dates| - 1], policies);
      var (n, rng) := gen.count(before.rng);
      DayIsWellBuilt(gen, before.(rng := rng), dates[|dates| - 1], n, policies);
    }
  }

  /* ---- counting events ---- */

  lemma {:induction false} InsertCounts(sorted: seq<Event>, e: Event)
    ensures multiset(Insert(sorted, e)) == multiset(sorted) + multiset{e}
  {
    if sorted != [] && sorted[|sorted| - 1].t > e.t {
      InsertCounts(sorted[..|sorted| - 1], e);
      assert sorted == sorted[..|sorted| - 1] + [sorted[|sorted| - 1]];
    }
  }

  lemma {:induction false} SortCounts(events: seq<Event>)
    ensures multiset(Sorted(events)) == multiset(events)
  {
    if events != [] {
      SortCounts(events[..|events| - 1]);
      InsertCounts(Sorted(events[..|events| - 1]), events[|events| - 1]);
      assert events == events[..|events| - 1] + [events[|events| - 1]];
    }
  }

  lemma {:induction false} OnDayCounts(events: seq<Event>, d: int, held: Option<Event>, e: Event)
    ensures multiset(EventsOn(events, d, held))[e]
         == if OnDay(e.t, d) && held != Some(e) then multiset(events)[e] else 0
  {
    if events != [] {
      var init, last := events[..|events| - 1], events[|events| - 1];
      OnDayCounts(init, d, held, e);
      assert events == init + [last];
    }
  }

  lemma OwnEvents(cl: Claim, e: Event)
    requires InSequence(cl)
    ensures multiset(StatusEvents(cl))[e] <= 1
    ensures e in StatusEvents(cl) ==> e.claim == cl.id
  {
    var all := StatusEvents(cl);
    if |all| == 2 {
      assert all == [all[0]] + [all[1]];
    } else {
      assert all == [all[0]];
    }
  }

  ghost predicate HasOwner(claims: seq<Claim>, e: Event) {
    exists cl :: cl in claims && e in StatusEvents(cl)
  }

  lemma {:induction false} EventOwner(claims: seq<Claim>, e: Event)
    ensures e in AllEvents(claims) <==> HasOwner(claims, e)
  {
    if claims != [] {
      var init, last := claims[..|claims| - 1], claims[|claims| - 1];
      EventOwner(init, e);
      assert claims == init + [last];
      assert forall cl :: cl in claims <==> cl in init || cl == last;
    }
  }

  /** An event names its claim and its kind, and every claim has each kind at most once. */
  lemma {:induction false} EventsAreDistinct(claims: seq<Claim>, e: Event)
    requires ClaimsOk(claims)
    ensures multiset(AllEvents(claims))[e] <= 1
  {
    if claims != [] {
      var init, last := claims[..|claims| - 1], claims[|claims| - 1];
      assert ClaimsOk(init) by { assert forall cl <- init :: cl in claims; }
      EventsAreDistinct(init, e);
      OwnEvents(last, e);
      if e in StatusEvents(last) { NotEarlier(claims, e); }
      assert multiset(AllEvents(claims))[e] == multiset(AllEvents(init))[e] + multiset(StatusEvents(last))[e];
    }
  }

  lemma NotEarlier(claims: seq<Claim>, e: Event)
    requires ClaimsOk(claims) && claims != [] && e in StatusEvents(claims[|claims| - 1])
    ensures e !in AllEvents(claims[..|claims| - 1])
  {
    var init, last := claims[..|claims| - 1], claims[|claims| - 1];
    EventOwner(init, e);
    OwnEvents(last, e);
    forall cl | cl in init
      ensures e !in StatusEvents(cl)
    {
      var i :| 0 <= i < |init| && init[i] == cl;
      assert claims[i] == cl && claims[i].id != claims[|claims| - 1].id;
      assert cl in claims;
      OwnEvents(cl, e);
    }
  }

  function StatusFiles(claims: seq<Claim>, dates: seq<int>, k: nat): seq<seq<Event>>
    requires k <= |dates|
  {
    seq(k, i requires 0 <= i < k => StatusFile(claims, dates, i))
  }

  function Joined(files: seq<seq<Event>>): seq<Event> {
    if files == [] then [] else Joined(files[..|files| - 1]) + files[|files| - 1]
  }

  /** The events in the files of the first `k` dates. */
  function Delivered(claims: seq<Claim>, dates: seq<int>, k: nat): seq<Event>
    requires k <= |dates|
  {
    Joined(StatusFiles(claims, dates, k))
  }

  ghost predicate Covered(t: int, dates: seq<int>, k: nat)
    requires k <= |dates|
  {
    exists i | 0 <= i < k :: OnDay(t, dates[i])
  }

  lemma CoveredOneMore(t: int, dates: seq<int>, k: nat)
    requires Increasing(dates) && 0 < k <= |dates|
    ensures Covered(t, dates, k) <==> Covered(t, dates, k - 1) || OnDay(t, dates[k - 1])
    ensures !(Covered(t, dates, k - 1) && OnDay(t, dates[k - 1]))
  {
    if Covered(t, dates, k - 1) {
      var i :| 0 <= i < k - 1 && OnDay(t, dates[i]);
      assert dates[i] < dates[k - 1];
    }
  }

  lemma {:induction false} ApprovalIsOnDay(events: seq<Event>, d: int)
    ensures var first := FirstApproval(events, d);
      first.Some? ==> first.value in events && OnDay(first.value.t, d)
  {
    if events != [] {
      ApprovalIsOnDay(events[1..], d);
    }
  }

  ghost function Count(events: seq<Event>, e: Event): nat {
    multiset(events)[e]
  }

  ghost predicate IsHeld(claims: seq<Claim>, dates: seq<int>, e: Event) {
    HeldBack(claims, dates) == Some(e)
  }

  /** How often an event is sent: as often as it occurs if its own day is and it is not held, else once if it is. */
  function TimesSent(inAll: nat, own: bool, held: bool, third: bool): nat {
    (if own && !held then inAll else 0) + (if third && held then 1 else 0)
  }

  /** A file more: its day was not covered before. */
  lemma SentOneMore(inAll: nat, before: bool, today: bool, held: bool, k: nat)
    requires k > 0 && !(before && today)
    ensures TimesSent(inAll, before || today, held, k >= 3)
         == TimesSent(inAll, before, held, k - 1 >= 3) + TimesSent(inAll, today, held, k - 1 == 2)
  {
  }

  /** Each file has the event as often as its own day and the held one say. */
  ghost predicate FilesCount(files: seq<seq<Event>>, dates: seq<int>, e: Event, inAll: nat, held: bool)
    requires |files| <= |dates|
  {
    forall i | 0 <= i < |files| :: Count(files[i], e) == TimesSent(inAll, OnDay(e.t, dates[i]), held, i == 2)
  }

  lemma {:induction false} JoinedCounts(files: seq<seq<Event>>, dates: seq<int>, e: Event, inAll: nat, held: bool)
    requires Increasing(dates) && |files| <= |dates| && FilesCount(files, dates, e, inAll, held)
    ensures Count(Joined(files), e) == TimesSent(inAll, Covered(e.t, dates, |files|), held, |files| >= 3)
  {
    var k := |files|;
    if k > 0 {
      JoinedCounts(files[..k - 1], dates, e, inAll, held);
      CoveredOneMore(e.t, dates, k);
      SentOneMore(inAll, Covered(e.t, dates, k - 1), OnDay(e.t, dates[k - 1]), held, k);
    }
  }

  /** File by file: an event is in the file of its own day, except the held one, which is in the third. */
  lemma DeliveredCounts(claims: seq<Claim>, dates: seq<int>, k: nat, e: Event)
    requires Increasing(dates) && k <= |dates|
    ensures Count(Delivered(claims, dates, k), e)
         == TimesSent(Count(AllEvents(claims), e), Covered(e.t, dates, k), IsHeld(claims, dates, e), k >= 3)
  {
    var files := StatusFiles(claims, dates, k);
    forall i | 0 <= i < k
      ensures Count(files[i], e)
           == TimesSent(Count(AllEvents(claims), e), OnDay(e.t, dates[i]), IsHeld(claims, dates, e), i == 2)
    {
      FileCounts(claims, dates, i, e);
    }
    JoinedCounts(files, dates, e, Count(AllEvents(claims), e), IsHeld(claims, dates, e));
  }

  lemma FileCounts(claims: seq<Claim>, dates: seq<int>, i: nat, e: Event)
    requires i < |dates|
    ensures Count(StatusFile(claims, dates, i), e)
         == TimesSent(Count(AllEvents(claims), e), OnDay(e.t, dates[i]), IsHeld(claims, dates, e), i == 2)
  {
    var sorted := Sorted(AllEvents(claims));
    SortCounts(AllEvents(claims));
    OnDayCounts(sorted, dates[i], HeldBack(claims, dates), e);
  }

  /**
   Over the files of the first `k` dates (at least three, or all of them when the world has at most
   two) an event is delivered exactly once if its day is among the dates, and never otherwise.
   */
  lemma DeliveredExactlyOnce(claims: seq<Claim>, dates: seq<int>, k: nat, e: Event)
    requires ClaimsOk(claims) && Increasing(dates) && k <= |dates| && (k >= 3 || |dates| <= 2)
    ensures Count(Delivered(claims, dates, k), e)
         == if e in AllEvents(claims) && Covered(e.t, dates, k) then 1 else 0
  {
    DeliveredCounts(claims, dates, k, e);
    EventsAreDistinct(claims, e);
    if HeldBack(claims, dates) == Some(e) {
      var sorted := Sorted(AllEvents(claims));
      ApprovalIsOnDay(sorted, dates[1]);
      SortCounts(AllEvents(claims));
      assert e in multiset(sorted);
      assert Covered(e.t, dates, k);
    }
  }

  /** For dates without gaps the delivered events are exactly those of the period. */
  lemma ContiguousCovers(t: int, dates: seq<int>, k: nat)
    requires Contiguous(dates) && 0 < k <= |dates|
    ensures Covered(t, dates, k) <==> Midnight(dates[0]) <= t < Midnight(dates[k - 1] + 1)
  {
    var i := t / DAY - dates[0];
    if Midnight(dates[0]) <= t < Midnight(dates[k - 1] + 1) {
      assert 0 <= i < k && dates[i] == dates[0] + i;
      assert OnDay(t, dates[i]);
    }
    if Covered(t, dates, k) {
      var j :| 0 <= j < k && OnDay(t, dates[j]);
      assert dates[j] == dates[0] + j && dates[k - 1] == dates[0] + (k - 1);
    }
  }

  /* ---- replay ---- */

  function ForClaim(events: seq<Event>, id: int): (r: seq<Event>)
    ensures forall e :: e in r <==> e in events && e.claim == id
  {
    if events == [] then [] else
    var last := events[|events| - 1];
    ForClaim(events[..|events| - 1], id) + if last.claim == id then [last] else []
  }

  function ShownBy(e: Event): Shown {
    Shown(e.to, e.amount, e.reason, e.decidedBy, if e.to == UnderReview then None else Some(e.t))
  }

  /** Events applied to a row in the order of their time stamps; each replaces what the row shows. */
  function Replay(base: Shown, events: seq<Event>): Shown {
    var sorted := Sorted(events);
    if sorted == [] then base else ShownBy(sorted[|sorted| - 1])
  }

  lemma SortedLast(events: seq<Event>)
    requires events != []
    ensures Sorted(events) != [] && Sorted(events)[|Sorted(events)| - 1] in events
    ensures forall e <- events :: e.t <= Sorted(events)[|Sorted(events)| - 1].t
  {
    SortOrders(events);
    assert events[0] in Sorted(events);
  }

  /** The time of the claim's last event before `t`. */
  function LastBefore(cl: Claim, t: int): Option<int> {
    if cl.decided.Some? && cl.decided.value < t then cl.decided
    else if cl.reviewAt.Some? && cl.reviewAt.value < t then cl.reviewAt
    else None
  }

  ghost predicate AnyDelivered(cl: Claim, dates: seq<int>, k: nat)
    requires k <= |dates|
  {
    exists e <- StatusEvents(cl) :: Covered(e.t, dates, k)
  }

  /** The delivered events of one claim are its own events on covered days. */
  lemma DeliveredOf(claims: seq<Claim>, dates: seq<int>, k: nat, cl: Claim, e: Event)
    requires ClaimsOk(claims) && Increasing(dates) && k <= |dates| && (k >= 3 || |dates| <= 2) && cl in claims
    ensures e in ForClaim(Delivered(claims, dates, k), cl.id) <==> e in StatusEvents(cl) && Covered(e.t, dates, k)
  {
    DeliveredExactlyOnce(claims, dates, k, e);
    EventOwner(claims, e);
    assert e in Delivered(claims, dates, k) <==> Count(Delivered(claims, dates, k), e) > 0;
    assert InSequence(cl);
    OwnEvents(cl, e);
    if e in AllEvents(claims) && e.claim == cl.id {
      var other :| other in claims && e in StatusEvents(other);
      OwnEvents(other, e);
      SameId(claims, other, cl);
    }
  }

  /** The claim's decision event comes last, its review event, if any, first. */
  lemma EventTimes(cl: Claim)
    requires InSequence(cl)
    ensures forall e <- StatusEvents(cl) ::
              && (if e.to == UnderReview then cl.reviewAt else cl.decided) == Some(e.t)
              && ShownBy(e) == Rebuilt(cl, e.to != UnderReview, true, ShownBy(e))
    ensures exists e <- StatusEvents(cl) :: e.to != UnderReview && cl.decided == Some(e.t)
    ensures cl.reviewAt.Some? ==> exists e <- StatusEvents(cl) :: e.to == UnderReview && cl.reviewAt == Some(e.t)
  {
    var all := StatusEvents(cl);
    assert all[|all| - 1] in all && all[0] in all;
  }

  /** The decision if it was delivered, else the review if it was, else the row. */
  function Rebuilt(cl: Claim, decision: bool, review: bool, base: Shown): Shown {
    if decision then Shown(cl.status, cl.amountApproved, cl.reason, cl.decidedBy, cl.decided)
    else if review then Shown(UnderReview, None, None, None, None)
    else base
  }

  ghost predicate ReviewCovered(cl: Claim, dates: seq<int>, k: nat)
    requires k <= |dates|
  {
    cl.reviewAt.Some? && Covered(cl.reviewAt.value, dates, k)
  }

  /** What replay shows, by the claim's own events: the decision, else the review, else the row. */
  lemma ReplayShows(claims: seq<Claim>, dates: seq<int>, k: nat, cl: Claim, base: Shown)
    requires ClaimsOk(claims) && Increasing(dates) && k <= |dates| && (k >= 3 || |dates| <= 2) && cl in claims
    ensures Replay(base, ForClaim(Delivered(claims, dates, k), cl.id))
         == Rebuilt(cl, Covered(cl.decided.value, dates, k), ReviewCovered(cl, dates, k), base)
  {
    var events := ForClaim(Delivered(claims, dates, k), cl.id);
    forall e
      ensures e in events <==> e in StatusEvents(cl) && Covered(e.t, dates, k)
    {
      DeliveredOf(claims, dates, k, cl, e);
    }
    assert InSequence(cl);
    ReplayOfOwn(cl, events, dates, k, base);
  }

  lemma ReplayOfOwn(cl: Claim, events: seq<Event>, dates: seq<int>, k: nat, base: Shown)
    requires InSequence(cl) && k <= |dates|
    requires forall e :: e in events <==> e in StatusEvents(cl) && Covered(e.t, dates, k)
    ensures Replay(base, events)
         == Rebuilt(cl, Covered(cl.decided.value, dates, k), ReviewCovered(cl, dates, k), base)
  {
    EventTimes(cl);
    if events == [] {
      assert Sorted(events) == [];
    } else {
      SortedLast(events);
      var last := Sorted(events)[|Sorted(events)| - 1];
      if Covered(cl.decided.value, dates, k) {
        var d :| d in StatusEvents(cl) && d.to != UnderReview && cl.decided == Some(d.t);
        assert d in events;
      }
    }
  }

  lemma AnyDeliveredIs(cl: Claim, dates: seq<int>, k: nat)
    requires InSequence(cl) && k <= |dates|
    ensures AnyDelivered(cl, dates, k) <==>
              Covered(cl.decided.value, dates, k) || ReviewCovered(cl, dates, k)
  {
    EventTimes(cl);
  }

  lemma RebuiltCases(cl: Claim, row: int, end: int, decision: bool, review: bool)
    requires InSequence(cl) && row <= end && cl.decided != Some(end) && cl.reviewAt != Some(end)
    requires decision ==> cl.decided.value < end
    requires review ==> cl.reviewAt.Some? && cl.reviewAt.value < end
    ensures var last := LastBefore(cl, end);
            Rebuilt(cl, decision, review, ShownAt(cl, row)) == ShownAt(cl, end)
            <==> last.None? || (if cl.decided.value < end then decision else review)
                 || (last.value <= row && !decision && !review)
  {
  }

  /**
   Row and events against the snapshot at the end of date k-1, for any dates: they agree exactly when
   the claim's last event before that midnight was delivered, or the row already shows it and no
   event of the claim was delivered, or there is none. Events at that very midnight are left out.
   */
  lemma RebuiltIff(claims: seq<Claim>, dates: seq<int>, k: nat, cl: Claim, rowDay: int)
    requires ClaimsOk(claims) && Increasing(dates) && 0 < k <= |dates| && (k >= 3 || |dates| <= 2) && cl in claims
    requires rowDay <= dates[k - 1] + 1
    requires cl.decided != Some(Midnight(dates[k - 1] + 1)) && cl.reviewAt != Some(Midnight(dates[k - 1] + 1))
    ensures var end := Midnight(dates[k - 1] + 1);
            var last := LastBefore(cl, end);
            Replay(ShownAt(cl, Midnight(rowDay)), ForClaim(Delivered(claims, dates, k), cl.id)) == ShownAt(cl, end)
            <==> last.None? || Covered(last.value, dates, k)
                 || (last.value <= Midnight(rowDay) && !AnyDelivered(cl, dates, k))
  {
    assert InSequence(cl);
    var base := ShownAt(cl, Midnight(rowDay));
    var decision := Covered(cl.decided.value, dates, k);
    var review := ReviewCovered(cl, dates, k);
    ReplayShows(claims, dates, k, cl, base);
    CoveredIsBefore(cl.decided.value, dates, k);
    if cl.reviewAt.Some? { CoveredIsBefore(cl.reviewAt.value, dates, k); }
    AnyDeliveredIs(cl, dates, k);
    RebuiltCases(cl, Midnight(rowDay), Midnight(dates[k - 1] + 1), decision, review);
  }

  lemma CoveredIsBefore(t: int, dates: seq<int>, k: nat)
    requires Increasing(dates) && 0 < k <= |dates|
    ensures Covered(t, dates, k) ==> t < Midnight(dates[k - 1] + 1)
  {
    if Covered(t, dates, k) {
      var j :| 0 <= j < k && OnDay(t, dates[j]);
      assert dates[j] <= dates[k - 1];
    }
  }

  /** Where a delivered claim row comes from: the claim as shown at some midnight of the period. */
  lemma RowOrigin(claims: seq<Claim>, customers: seq<Customer>, dates: seq<int>, i: nat, r: ClaimRow, cl: Claim)
    returns (day: int)
    requires ClaimsOk(claims) && HaveHolders(claims, customers) && Increasing(dates) && i < |dates|
    requires r in ClaimFile(claims, customers, dates, i) && cl in claims && r.id == cl.id && r.id != ORPHAN
    ensures dates[0] <= day <= dates[i] + 1 && r == RowAt(cl, day, customers)
  {
    day := RowSource(claims, customers, dates, i, r);
    var source :| source in claims && r == RowAt(source, day, customers);
    SameId(claims, source, cl);
  }

  /** The midnight at which a row of the file shows some claim. */
  lemma RowSource(claims: seq<Claim>, customers: seq<Customer>, dates: seq<int>, i: nat, r: ClaimRow)
    returns (day: int)
    requires HaveHolders(claims, customers) && i < |dates| && dates[0] <= dates[i]
    requires r in ClaimFile(claims, customers, dates, i) && r.id != ORPHAN
    ensures dates[0] <= day <= dates[i] + 1 && IsRowOf(r, claims, day, customers)
  {
    ClaimFileIs(claims, customers, dates, i, r);
    RowsShowClaims(claims, customers, dates, i, r);
    day := if IsDayRow(r, claims, customers, dates[i]) then dates[i] + 1 else dates[i];
  }

  lemma RowsShowClaims(claims: seq<Claim>, customers: seq<Customer>, dates: seq<int>, i: nat, r: ClaimRow)
    requires HaveHolders(claims, customers) && i < |dates|
    ensures IsDayRow(r, claims, customers, dates[i]) ==> IsRowOf(r, claims, dates[i] + 1, customers)
    ensures IsHistoryRow(r, claims, customers, dates, i) || IsResentRow(r, claims, customers, dates, i)
        ==> IsRowOf(r, claims, dates[i], customers)
  {
  }

  lemma SameId(claims: seq<Claim>, a: Claim, b: Claim)
    requires DistinctIds(claims) && a in claims && b in claims
    ensures a.id == b.id ==> a == b
  {
    var i :| 0 <= i < |claims| && claims[i] == a;
    var j :| 0 <= j < |claims| && claims[j] == b;
  }

  /**
   With dates without gaps, from the third date on: whichever delivered row of a claim is taken (the
   first, or the one sent again), replaying the delivered events gives what the claims system shows at
   the end of the last date, events at exactly that midnight left out.
   */
  lemma LogRebuildsSnapshot(claims: seq<Claim>, customers: seq<Customer>, dates: seq<int>, k: nat, i: nat,
                            r: ClaimRow, cl: Claim)
    requires ClaimsOk(claims) && HaveHolders(claims, customers) && Contiguous(dates) && 3 <= k <= |dates| && i < k
    requires r in ClaimFile(claims, customers, dates, i) && cl in claims && r.id == cl.id && r.id != ORPHAN
    requires cl.decided != Some(Midnight(dates[k - 1] + 1)) && cl.reviewAt != Some(Midnight(dates[k - 1] + 1))
    ensures Replay(r.shown, ForClaim(Delivered(claims, dates, k), cl.id)) == ShownAt(cl, Midnight(dates[k - 1] + 1))
  {
    assert Increasing(dates);
    var a := RowOrigin(claims, customers, dates, i, r, cl);
    assert dates[i] <= dates[k - 1];
    RebuiltIff(claims, dates, k, cl, a);
    LastIsDeliveredOrOld(cl, dates, k);
  }

  /** Without gaps the last event is delivered, or lies before the first date and then nothing is. */
  lemma LastIsDeliveredOrOld(cl: Claim, dates: seq<int>, k: nat)
    requires Contiguous(dates) && 0 < k <= |dates| && InSequence(cl)
    ensures var last := LastBefore(cl, Midnight(dates[k - 1] + 1));
            last.None? || Covered(last.value, dates, k)
            || (last.value < Midnight(dates[0]) && !AnyDelivered(cl, dates, k))
  {
    AnyDeliveredIs(cl, dates, k);
    ContiguousCovers(cl.decided.value, dates, k);
    if cl.reviewAt.Some? { ContiguousCovers(cl.reviewAt.value, dates, k); }
  }

  /** Every claim filed by the end of date k-1 has a row in one of the files. */
  lemma EveryClaimHasARow(claims: seq<Claim>, customers: seq<Customer>, dates: seq<int>, k: nat, cl: Claim)
    requires HaveHolders(claims, customers) && Contiguous(dates) && 0 < k <= |dates|
    requires cl in claims && cl.fnol < Midnight(dates[k - 1] + 1)
    ensures exists i, r :: 0 <= i < k && r in ClaimFile(claims, customers, dates, i) && r.id == cl.id
  {
    if cl.fnol < Midnight(dates[0]) {
      RowFor(FiledBefore(claims, Midnight(dates[0])), dates[0], customers, cl);
      assert RowAt(cl, dates[0], customers) in HistoryRows(claims, customers, dates, 0);
      assert RowAt(cl, dates[0], customers) in ClaimFile(claims, customers, dates, 0);
    } else {
      ContiguousCovers(cl.fnol, dates, k);
      var i :| 0 <= i < k && OnDay(cl.fnol, dates[i]);
      RowFor(FiledOn(claims, dates[i]), dates[i] + 1, customers, cl);
      assert RowAt(cl, dates[i] + 1, customers) in DayRows(claims, customers, dates[i]);
      assert RowAt(cl, dates[i] + 1, customers) in ClaimFile(claims, customers, dates, i);
    }
  }

  lemma RowFor(some: seq<Claim>, day: int, customers: seq<Customer>, cl: Claim)
    requires HaveHolders(some, customers) && cl in some
    ensures RowAt(cl, day, customers) in Rows(some, day, customers)
  {
    var n :| 0 <= n < |some| && some[n] == cl;
    assert Rows(some, day, customers)[n] == RowAt(cl, day, customers);
  }
}
