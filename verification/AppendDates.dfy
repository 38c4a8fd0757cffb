/**
 Appending business dates to the world: what the files of the earlier dates keep. The streams are
 consumed date by date, so the earlier claims and changes are a prefix of the new world's, and mobile
 changes of the appended dates are kept with their date.
 */
module AppendDates {
  import opened Options
  import opened ClaimWorld
  import opened Landing
  import opened LandingReplay

  /** `more` comes after `dates` and after the frozen date. */
  ghost predicate Appends(dates: seq<int>, more: seq<int>, frozen: int) {
    && Increasing(dates + more) && dates != [] && more != []
    && forall d <- more :: d > frozen
  }

  /* ---- claims ---- */

  lemma {:induction false} DayExtends(gen: Gen, b: Building, d: int, n: nat, policies: nat)
    requires GenOk(gen, policies)
    ensures b.claims <= DayClaims(gen, b, d, n).claims
    ensures |DayClaims(gen, b, d, n).claims| == |b.claims| + n
    ensures forall k | |b.claims| <= k < |b.claims| + n ::
              OnDay(DayClaims(gen, b, d, n).claims[k].fnol, d) && InSequence(DayClaims(gen, b, d, n).claims[k])
  {
    if n > 0 {
      DayExtends(gen, b, d, n - 1, policies);
      var before := DayClaims(gen, b, d, n - 1);
      var (time, rng) := gen.timeOfDay(before.rng);
      AdjudicationIsInSequence(before.next, Midnight(d) + time, gen.claim(rng).0);
    }
  }

  /** Claims of a later period: filed on or after `t`, and so with no event before it. */
  ghost predicate FiledFrom(claims: seq<Claim>, t: int) {
    forall cl <- claims :: cl.fnol >= t && InSequence(cl)
  }

  lemma AddDayExtends(gen: Gen, b: Building, d: int, policies: nat) returns (extra: seq<Claim>)
    requires GenOk(gen, policies)
    ensures AddDay(gen, b, d).claims == b.claims + extra && FiledFrom(extra, Midnight(d)) && extra != []
  {
    var (n, rng) := gen.count(b.rng);
    DayExtends(gen, b.(rng := rng), d, n, policies);
    extra := DayClaims(gen, b.(rng := rng), d, n).claims[|b.claims|..];
  }

  lemma PrefixIncreasing(dates: seq<int>, n: nat)
    requires Increasing(dates) && n <= |dates|
    ensures Increasing(dates[..n])
  {
  }

  /** The stream does not see where one list of dates ends and the next begins. */
  lemma {:induction false} ClaimsInTwoParts(gen: Gen, start: Building, dates: seq<int>, more: seq<int>)
    ensures ClaimsOver(gen, start, dates + more) == ClaimsOver(gen, ClaimsOver(gen, start, dates), more)
  {
    if more == [] {
      assert dates + more == dates;
    } else {
      var init := more[..|more| - 1];
      ClaimsInTwoParts(gen, start, dates, init);
      assert (dates + more)[..|dates + more| - 1] == dates + init;
    }
  }

  lemma {:induction false} ClaimsExtend(gen: Gen, start: Building, more: seq<int>, from: int, policies: nat)
    returns (extra: seq<Claim>)
    requires GenOk(gen, policies) && (forall d <- more :: d >= from)
    ensures ClaimsOver(gen, start, more).claims == start.claims + extra && FiledFrom(extra, Midnight(from))
  {
    if more == [] {
      return [];
    }
    var init, d := more[..|more| - 1], more[|more| - 1];
    assert d in more && forall x <- init :: x in more;
    var sofar := ClaimsExtend(gen, start, init, from, policies);
    var last := AddDayExtends(gen, ClaimsOver(gen, start, init), d, policies);
    extra := sofar + last;
    BothFiledFrom(sofar, last, Midnight(d), Midnight(from));
  }

  /** The earlier claims are a prefix; the others were filed on the appended dates. */
  lemma ClaimsArePrefix(gen: Gen, start: Building, dates: seq<int>, more: seq<int>, policies: nat)
    returns (extra: seq<Claim>)
    requires GenOk(gen, policies) && more != [] && (forall d <- more :: d >= more[0])
    ensures ClaimsOver(gen, start, dates + more).claims == ClaimsOver(gen, start, dates).claims + extra
    ensures FiledFrom(extra, Midnight(more[0]))
  {
    ClaimsInTwoParts(gen, start, dates, more);
    extra := ClaimsExtend(gen, ClaimsOver(gen, start, dates), more, more[0], policies);
  }

  lemma BothFiledFrom(a: seq<Claim>, b: seq<Claim>, t: int, from: int)
    requires FiledFrom(a, from) && FiledFrom(b, t) && from <= t
    ensures FiledFrom(a + b, from)
  {
  }

  /* ---- status files ---- */

  lemma EventsOfOneMore(claims: seq<Claim>, cl: Claim)
    ensures AllEvents(claims + [cl]) == AllEvents(claims) + AllEvents([cl])
  {
    assert (claims + [cl])[..|claims|] == claims;
    assert [cl][..0] == [];
  }

  lemma {:induction false} EventsOfConcat(a: seq<Claim>, b: seq<Claim>)
    ensures AllEvents(a + b) == AllEvents(a) + AllEvents(b)
  {
    if b == [] {
      assert a + b == a;
    } else {
      var init, last := b[..|b| - 1], b[|b| - 1];
      EventsOfConcat(a, init);
      EventsOfOneMore(init, last);
      EventsOfOneMore(a + init, last);
      assert init + [last] == b && (a + init) + [last] == a + b;
    }
  }

  lemma {:induction false} LaterEvents(claims: seq<Claim>, t: int)
    requires FiledFrom(claims, t)
    ensures forall e <- AllEvents(claims) :: e.t > t
  {
    if claims != [] {
      var init, last := claims[..|claims| - 1], claims[|claims| - 1];
      assert forall cl <- init :: cl in claims;
      LaterEvents(init, t);
      assert last in claims;
    }
  }

  lemma {:induction false} InsertElsewhere(sorted: seq<Event>, e: Event, d: int, held: Option<Event>)
    requires !OnDay(e.t, d)
    ensures EventsOn(Insert(sorted, e), d, held) == EventsOn(sorted, d, held)
  {
    if sorted == [] || sorted[|sorted| - 1].t <= e.t {
      assert (sorted + [e])[..|sorted|] == sorted;
    } else {
      var init, last := sorted[..|sorted| - 1], sorted[|sorted| - 1];
      InsertElsewhere(init, e, d, held);
      assert (Insert(init, e) + [last])[..|Insert(init, e)|] == Insert(init, e);
    }
  }

  /** Events of other days do not show in a day's picks, wherever the sort puts them. */
  lemma {:induction false} SortElsewhere(a: seq<Event>, b: seq<Event>, d: int, held: Option<Event>)
    requires forall e <- b :: !OnDay(e.t, d)
    ensures EventsOn(Sorted(a + b), d, held) == EventsOn(Sorted(a), d, held)
  {
    if b == [] {
      assert a + b == a;
    } else {
      var init, last := b[..|b| - 1], b[|b| - 1];
      assert forall e <- init :: e in b;
      SortElsewhere(a, init, d, held);
      assert (a + b)[..|a + b| - 1] == a + init && last in b;
      InsertElsewhere(Sorted(a + init), last, d, held);
    }
  }

  lemma {:induction false} ApprovalOfConcat(a: seq<Event>, b: seq<Event>, d: int)
    ensures FirstApproval(a + b, d) == if FirstApproval(a, d).Some? then FirstApproval(a, d) else FirstApproval(b, d)
  {
    if a == [] {
      assert a + b == b;
    } else {
      assert (a + b)[1..] == a[1..] + b;
      ApprovalOfConcat(a[1..], b, d);
    }
  }

  /** The first approval of a day can be read off the day's events alone. */
  lemma {:induction false} ApprovalOfDay(events: seq<Event>, d: int)
    ensures FirstApproval(events, d) == FirstApproval(EventsOn(events, d, None), d)
  {
    if events != [] {
      var init, last := events[..|events| - 1], events[|events| - 1];
      ApprovalOfDay(init, d);
      ApprovalOfConcat(init, [last], d);
      assert events == init + [last];
      ApprovalOfConcat(EventsOn(init, d, None), if OnDay(last.t, d) then [last] else [], d);
      assert [last][1..] == [];
    }
  }

  /** An event that is held back on another day does not show. */
  lemma {:induction false} HeldElsewhere(events: seq<Event>, d: int, held: Option<Event>)
    requires held.Some? ==> !OnDay(held.value.t, d)
    ensures EventsOn(events, d, held) == EventsOn(events, d, None)
  {
    if events != [] {
      HeldElsewhere(events[..|events| - 1], d, held);
    }
  }

  lemma {:induction false} HeldIsMissing(events: seq<Event>, d: int, e: Event)
    ensures |EventsOn(events, d, Some(e))| <= |EventsOn(events, d, None)|
    ensures e in events && OnDay(e.t, d) ==> |EventsOn(events, d, Some(e))| < |EventsOn(events, d, None)|
  {
    if events != [] {
      var init, last := events[..|events| - 1], events[|events| - 1];
      HeldIsMissing(init, d, e);
      assert e in events <==> e in init || e == last;
    }
  }

  /** Some claim was approved on the date. */
  ghost predicate ApprovedOn(claims: seq<Claim>, d: int) {
    exists e <- AllEvents(claims) :: OnDay(e.t, d) && e.to == Approved
  }

  lemma SortedApproval(claims: seq<Claim>, d: int)
    ensures var first := FirstApproval(Sorted(AllEvents(claims)), d);
      && (first.Some? <==> ApprovedOn(claims, d))
      && (first.Some? ==> first.value in Sorted(AllEvents(claims)) && OnDay(first.value.t, d))
  {
    SortOrders(AllEvents(claims));
    FirstApprovalIs(Sorted(AllEvents(claims)), d);
  }

  /** The event that is held back depends on the second date and on the earlier claims alone. */
  lemma ApprovalStays(claims: seq<Claim>, extra: seq<Claim>, d: int, t: int)
    requires FiledFrom(extra, t) && Midnight(d + 1) <= t
    ensures FirstApproval(Sorted(AllEvents(claims + extra)), d) == FirstApproval(Sorted(AllEvents(claims)), d)
  {
    EventsOfConcat(claims, extra);
    LaterEvents(extra, t);
    SortElsewhere(AllEvents(claims), AllEvents(extra), d, None);
    ApprovalOfDay(Sorted(AllEvents(claims)), d);
    ApprovalOfDay(Sorted(AllEvents(claims) + AllEvents(extra)), d);
  }

  lemma EventsStay(claims: seq<Claim>, extra: seq<Claim>, d: int, t: int, held: Option<Event>)
    requires FiledFrom(extra, t) && Midnight(d + 1) <= t
    ensures EventsOn(Sorted(AllEvents(claims + extra)), d, held) == EventsOn(Sorted(AllEvents(claims)), d, held)
  {
    EventsOfConcat(claims, extra);
    LaterEvents(extra, t);
    SortElsewhere(AllEvents(claims), AllEvents(extra), d, held);
  }

  /** A third date was appended: it takes an event of the second date over. */
  ghost predicate ThirdDateTakesOver(claims: seq<Claim>, dates: seq<int>, i: nat) {
    |dates| == 2 && i == 1 && ApprovedOn(claims, dates[1])
  }

  /**
   The status file of an earlier date stays, with one exception: while there were two dates no event was held
   back, and appending the third takes the first approval of the second date, if there is one, out of its file.
   */
  lemma StatusStaysIff(claims: seq<Claim>, extra: seq<Claim>, dates: seq<int>, more: seq<int>, frozen: int, i: nat)
    requires Appends(dates, more, frozen) && i < |dates| && FiledFrom(extra, Midnight(more[0]))
    ensures StatusFile(claims + extra, dates + more, i) == StatusFile(claims, dates, i)
       <==> !ThirdDateTakesOver(claims, dates, i)
  {
    var t := Midnight(more[0]);
    EarlierDays(dates, more, i);
    var held := HeldBack(claims + extra, dates + more);
    EventsStay(claims, extra, dates[i], t, held);
    if |dates| >= 2 {
      EarlierDays(dates, more, 1);
      ApprovalStays(claims, extra, dates[1], t);
      assert held == FirstApproval(Sorted(AllEvents(claims)), dates[1]);
    }
    if |dates| < 3 {
      assert HeldBack(claims, dates) == None;
      if |dates| == 2 && i == 1 {
        SortedApproval(claims, dates[1]);
        if held.Some? { HeldIsMissing(Sorted(AllEvents(claims)), dates[1], held.value); }
      } else {
        HeldIsOnSecond(claims + extra, dates + more, i);
        HeldElsewhere(Sorted(AllEvents(claims)), dates[i], held);
      }
    }
  }

  lemma HeldIsOnSecond(claims: seq<Claim>, dates: seq<int>, i: nat)
    requires Increasing(dates) && i < |dates| && i != 1
    ensures HeldBack(claims, dates).Some? ==> !OnDay(HeldBack(claims, dates).value.t, dates[i])
  {
    if |dates| > 2 {
      SortedApproval(claims, dates[1]);
      assert if i < 1 then dates[i] < dates[1] else dates[1] < dates[i];
    }
  }

  lemma EarlierDays(dates: seq<int>, more: seq<int>, i: nat)
    requires Increasing(dates + more) && i < |dates| && more != []
    ensures (dates + more)[i] == dates[i] && dates[i] + 1 <= more[0]
    ensures Midnight(dates[i] + 1) <= Midnight(more[0])
    ensures i + 1 < |dates| ==> dates[i] + 1 < more[0]
  {
    assert (dates + more)[|dates|] == more[0];
    if i + 1 < |dates| {
      assert (dates + more)[i + 1] == dates[i + 1];
    }
  }

  /* ---- customers and change files ---- */

  /** The same customer, with dated mobiles added from `from` on. */
  ghost predicate LaterOnly(a: Customer, b: Customer, from: int) {
    && a.mobile == b.mobile && a.laterMobiles <= b.laterMobiles
    && forall k | |a.laterMobiles| <= k < |b.laterMobiles| :: b.laterMobiles[k].0 >= from
  }

  ghost predicate BookLater(a: Book, b: Book, from: int) {
    && |a.customers| == |b.customers| && |a.policies| == |b.policies|
    && (forall c | 0 <= c < |a.customers| :: LaterOnly(a.customers[c], b.customers[c], from))
    && (forall d | d < from :: (d in a.cdc <==> d in b.cdc) && (d in a.cdc ==> a.cdc[d] == b.cdc[d]))
  }

  lemma OneChangeIsLater(a: Book, b: Book, d: int, c: Change, frozen: int, from: int)
    requires BookOk(b) && c.policy < |b.policies| && BookLater(a, b, from) && d >= from && d > frozen
    ensures BookLater(a, OneChange(b, d, c, frozen), from)
  {
    assert b.policies[c.policy] in b.policies;
  }

  lemma {:induction false} DayIsLater(a: Book, b: Book, d: int, cs: seq<Change>, frozen: int, from: int)
    requires BookOk(b) && (forall c <- cs :: c.policy < |b.policies|) && BookLater(a, b, from)
    requires d >= from && d > frozen
    ensures BookLater(a, DayChanges(b, d, cs, frozen), from)
  {
    if cs != [] {
      assert forall c <- cs[..|cs| - 1] :: c in cs;
      DayIsLater(a, b, d, cs[..|cs| - 1], frozen, from);
      OneChangeIsLater(a, DayChanges(b, d, cs[..|cs| - 1], frozen), d, cs[|cs| - 1], frozen, from);
    }
  }

  lemma ChangesOneMore(gen: Gen, start: Book, dates: seq<int>, d: int, frozen: int)
    requires BookOk(start) && GenOk(gen, |start.policies|) && dates != []
    ensures ChangesOver(gen, start, dates + [d], frozen)
         == AddChanges(gen, ChangesOver(gen, start, dates, frozen), d, frozen)
  {
    assert (dates + [d])[..|dates|] == dates;
  }

  /** The appended dates leave the earlier change files alone and only add dated mobiles. */
  lemma {:induction false} BookIsLater(gen: Gen, start: Book, dates: seq<int>, more: seq<int>, frozen: int, from: int)
    requires BookOk(start) && GenOk(gen, |start.policies|) && dates != []
    requires forall d <- more :: d > frozen && d >= from
    ensures BookLater(ChangesOver(gen, start, dates, frozen), ChangesOver(gen, start, dates + more, frozen), from)
  {
    if more == [] {
      assert dates + more == dates;
    } else {
      var init, d := more[..|more| - 1], more[|more| - 1];
      assert d in more && forall x <- init :: x in more;
      BookIsLater(gen, start, dates, init, frozen, from);
      assert dates + more == dates + init + [d];
      ChangesOneMore(gen, start, dates + init, d, frozen);
      var before := ChangesOver(gen, start, dates + init, frozen);
      DayIsLater(ChangesOver(gen, start, dates, frozen), before, d, gen.changes(before.rng).0, frozen, from);
    }
  }

  lemma {:induction false} MobileStays(a: Customer, b: Customer, from: int, day: int)
    requires LaterOnly(a, b, from) && day < from
    ensures MobileOn(b, day) == MobileOn(a, day)
    decreases |b.laterMobiles|
  {
    if |b.laterMobiles| == |a.laterMobiles| {
      assert a == b;
    } else {
      var shorter := b.(laterMobiles := b.laterMobiles[..|b.laterMobiles| - 1]);
      MobileStays(a, shorter, from, day);
    }
  }

  /* ---- claim and bureau files ---- */

  lemma {:induction false} FiledBeforeStays(claims: seq<Claim>, extra: seq<Claim>, t: int)
    requires forall cl <- extra :: cl.fnol >= t
    ensures FiledBefore(claims + extra, t) == FiledBefore(claims, t)
  {
    if extra == [] {
      assert claims + extra == claims;
    } else {
      var init := extra[..|extra| - 1];
      assert forall cl <- init :: cl in extra;
      FiledBeforeStays(claims, init, t);
      assert (claims + extra)[..|claims + extra| - 1] == claims + init && extra[|extra| - 1] in extra;
    }
  }

  lemma {:induction false} FiledOnStays(claims: seq<Claim>, extra: seq<Claim>, d: int)
    requires forall cl <- extra :: cl.fnol >= Midnight(d + 1)
    ensures FiledOn(claims + extra, d) == FiledOn(claims, d)
  {
    if extra == [] {
      assert claims + extra == claims;
    } else {
      var init := extra[..|extra| - 1];
      assert forall cl <- init :: cl in extra;
      FiledOnStays(claims, init, d);
      assert (claims + extra)[..|claims + extra| - 1] == claims + init && extra[|extra| - 1] in extra;
    }
  }

  lemma {:induction false} FirstFiledStays(claims: seq<Claim>, extra: seq<Claim>, d: int)
    requires exists cl :: cl in claims && cl.fnol >= Midnight(d)
    ensures FirstFiled(claims + extra, d) == FirstFiled(claims, d) && FirstFiled(claims, d).Some?
  {
    if claims[0].fnol < Midnight(d) {
      assert (claims + extra)[1..] == claims[1..] + extra;
      assert exists cl :: cl in claims[1..] && cl.fnol >= Midnight(d);
      FirstFiledStays(claims[1..], extra, d);
    }
  }

  /** Rows of the same claims agree as soon as the mobiles of that day do. */
  lemma RowsStay(some: seq<Claim>, day: int, a: seq<Customer>, b: seq<Customer>)
    requires |a| == |b| && HaveHolders(some, a)
    ensures (Rows(some, day, a) == Rows(some, day, b)) <==>
              forall cl <- some :: MobileOn(a[cl.customer], day) == MobileOn(b[cl.customer], day)
  {
    if forall cl <- some :: MobileOn(a[cl.customer], day) == MobileOn(b[cl.customer], day) {
      forall k | 0 <= k < |some|
        ensures Rows(some, day, a)[k] == Rows(some, day, b)[k]
      {
        assert some[k] in some;
      }
    } else {
      var cl :| cl in some && MobileOn(a[cl.customer], day) != MobileOn(b[cl.customer], day);
      var k :| 0 <= k < |some| && some[k] == cl;
      assert Rows(some, day, a)[k].mobile != Rows(some, day, b)[k].mobile;
    }
  }

  /** Two lists of customers that agree on every date before `from`. */
  ghost predicate AgreeBefore(a: seq<Customer>, b: seq<Customer>, from: int) {
    |a| == |b| && forall c, day | 0 <= c < |a| && day < from :: MobileOn(a[c], day) == MobileOn(b[c], day)
  }

  lemma BooksAgree(a: Book, b: Book, from: int)
    requires BookLater(a, b, from)
    ensures AgreeBefore(a.customers, b.customers, from)
  {
    forall c, day | 0 <= c < |a.customers| && day < from
      ensures MobileOn(a.customers[c], day) == MobileOn(b.customers[c], day)
    {
      MobileStays(a.customers[c], b.customers[c], from, day);
    }
  }

  /** Some claim was filed on or after the first date. */
  ghost predicate Started(claims: seq<Claim>, dates: seq<int>)
    requires dates != []
  {
    exists cl :: cl in claims && cl.fnol >= Midnight(dates[0])
  }

  lemma {:induction false} WorldStarts(gen: Gen, start: Building, dates: seq<int>, policies: nat)
    requires GenOk(gen, policies) && dates != [] && Increasing(dates)
    ensures Started(ClaimsOver(gen, start, dates).claims, dates)
  {
    var n := |dates| - 1;
    var extra := AddDayExtends(gen, ClaimsOver(gen, start, dates[..n]), dates[n], policies);
    assert extra[0] in ClaimsOver(gen, start, dates).claims && extra[0] in extra;
    assert Midnight(dates[0]) <= Midnight(dates[n]);
  }

  lemma HistoryStays(claims: seq<Claim>, extra: seq<Claim>, dates: seq<int>, more: seq<int>, frozen: int, i: nat,
                     a: seq<Customer>, b: seq<Customer>)
    requires Appends(dates, more, frozen) && i < |dates| && FiledFrom(extra, Midnight(more[0]))
    requires HaveHolders(claims + extra, a) && HaveHolders(claims, a) && AgreeBefore(a, b, more[0])
    ensures HistoryRows(claims + extra, b, dates + more, i) == HistoryRows(claims, a, dates, i)
  {
    EarlierDays(dates, more, 0);
    if i == 0 {
      FiledBeforeStays(claims, extra, Midnight(dates[0]));
      RowsStay(FiledBefore(claims, Midnight(dates[0])), dates[0], a, b);
    }
  }

  lemma ResentStays(claims: seq<Claim>, extra: seq<Claim>, dates: seq<int>, more: seq<int>, frozen: int, i: nat,
                    a: seq<Customer>, b: seq<Customer>)
    requires Appends(dates, more, frozen) && i < |dates| && Started(claims, dates)
    requires HaveHolders(claims + extra, a) && HaveHolders(claims, a) && AgreeBefore(a, b, more[0])
    ensures ResentRows(claims + extra, b, dates + more, i) == ResentRows(claims, a, dates, i)
  {
    EarlierDays(dates, more, 0);
    EarlierDays(dates, more, i);
    FirstFiledStays(claims, extra, dates[0]);
    FirstFiledIsOne(claims, dates[0]);
    RowsStay([FirstFiled(claims, dates[0]).value], dates[i], a, b);
  }

  /** The claims filed on a date have the same mobiles at the following midnight. */
  ghost predicate NextDayMobilesAgree(claims: seq<Claim>, d: int, a: seq<Customer>, b: seq<Customer>)
    requires |a| == |b| && HaveHolders(claims, a)
  {
    forall cl <- FiledOn(claims, d) :: MobileOn(a[cl.customer], d + 1) == MobileOn(b[cl.customer], d + 1)
  }

  lemma DayRowsStayIff(claims: seq<Claim>, extra: seq<Claim>, d: int, a: seq<Customer>, b: seq<Customer>, from: int)
    requires FiledFrom(extra, Midnight(from)) && d < from
    requires |a| == |b| && HaveHolders(claims + extra, a) && HaveHolders(claims, a)
    ensures DayRows(claims + extra, b, d) == DayRows(claims, a, d) <==> NextDayMobilesAgree(claims, d, a, b)
    ensures |DayRows(claims + extra, b, d)| == |DayRows(claims, a, d)|
  {
    assert Midnight(d + 1) <= Midnight(from);
    FiledOnStays(claims, extra, d);
    RowsStay(FiledOn(claims, d), d + 1, a, b);
  }

  /** A claim file changes only through the mobiles of the claims filed on its day, at the next midnight. */
  lemma ClaimFileStaysIff(claims: seq<Claim>, extra: seq<Claim>, dates: seq<int>, more: seq<int>, frozen: int, i: nat,
                          a: seq<Customer>, b: seq<Customer>)
    requires Appends(dates, more, frozen) && i < |dates|
    requires FiledFrom(extra, Midnight(more[0])) && Started(claims, dates)
    requires HaveHolders(claims + extra, a) && HaveHolders(claims, a) && AgreeBefore(a, b, more[0])
    ensures ClaimFile(claims + extra, b, dates + more, i) == ClaimFile(claims, a, dates, i)
            <==> NextDayMobilesAgree(claims, dates[i], a, b)
  {
    EarlierDays(dates, more, i);
    HistoryStays(claims, extra, dates, more, frozen, i, a, b);
    ResentStays(claims, extra, dates, more, frozen, i, a, b);
    DayRowsStayIff(claims, extra, dates[i], a, b, more[0]);
    var history, resent := HistoryRows(claims, a, dates, i), ResentRows(claims, a, dates, i);
    var before, after := DayRows(claims, a, dates[i]), DayRows(claims + extra, b, dates[i]);
    MiddlePart(history, before, after, resent, OrphanRows(before, i), OrphanRows(after, i));
  }

  lemma MiddlePart<T>(head: seq<T>, a: seq<T>, b: seq<T>, tail: seq<T>, endA: seq<T>, endB: seq<T>)
    requires |a| == |b| && (a == b ==> endA == endB)
    ensures head + a + tail + endA == head + b + tail + endB <==> a == b
  {
    var x, y := head + a + tail + endA, head + b + tail + endB;
    if x == y {
      assert a == x[|head|..|head| + |a|] == y[|head|..|head| + |b|] == b;
    }
  }

  lemma BureauStays(a: seq<Customer>, b: seq<Customer>, dates: seq<int>, more: seq<int>, i: nat, samples: Samples)
    requires Increasing(dates + more) && more != [] && i < |dates| && SampleOk(samples, |a|) && dates[i] in samples
    requires AgreeBefore(a, b, more[0])
    ensures BureauFile(b, dates + more, i, samples) == BureauFile(a, dates, i, samples)
  {
    EarlierDays(dates, more, i);
    var chosen := Reported(|a|, dates[i], i, samples);
    assert Reported(|b|, (dates + more)[i], i, samples) == chosen;
    forall k | 0 <= k < |chosen|
      ensures MobileOn(a[chosen[k]], dates[i]) == MobileOn(b[chosen[k]], dates[i])
    {
    }
  }

  lemma ChangesStay(a: Book, b: Book, dates: seq<int>, more: seq<int>, i: nat)
    requires Increasing(dates + more) && more != [] && i < |dates| && BookLater(a, b, more[0])
    ensures ChangeFile(b.cdc, dates + more, i) == ChangeFile(a.cdc, dates, i)
  {
    EarlierDays(dates, more, i);
  }

  lemma RecordsStay(claims: seq<Claim>, extra: seq<Claim>, a: Book, b: Book, dates: seq<int>, more: seq<int>,
                    frozen: int, samples: Samples, i: nat)
    requires Appends(dates, more, frozen) && i < |dates|
    requires FiledFrom(extra, Midnight(more[0])) && Started(claims, dates)
    requires BookLater(a, b, more[0]) && SampleOk(samples, |a.customers|) && dates[i] in samples
    requires HaveHolders(claims + extra, a.customers) && HaveHolders(claims, a.customers)
    ensures FilesStay(Records(claims, a, dates, i, samples), Records(claims + extra, b, dates + more, i, samples),
                      NextDayMobilesAgree(claims, dates[i], a.customers, b.customers),
                      !ThirdDateTakesOver(claims, dates, i))
  {
    BooksAgree(a, b, more[0]);
    StatusStaysIff(claims, extra, dates, more, frozen, i);
    ChangesStay(a, b, dates, more, i);
    BureauStays(a.customers, b.customers, dates, more, i, samples);
    ClaimFileStaysIff(claims, extra, dates, more, frozen, i, a.customers, b.customers);
  }

  lemma NextDayBefore(claims: seq<Claim>, d: int, a: seq<Customer>, b: seq<Customer>, from: int)
    requires AgreeBefore(a, b, from) && HaveHolders(claims, a)
    ensures d + 1 < from ==> NextDayMobilesAgree(claims, d, a, b)
  {
    forall cl | cl in FiledOn(claims, d) && d + 1 < from
      ensures MobileOn(a[cl.customer], d + 1) == MobileOn(b[cl.customer], d + 1)
    {
    }
  }

  /**
   The change and bureau files stay, the claim file if the mobiles agree, the status file if nothing is taken
   over.
   */
  predicate FilesStay(before: Files, after: Files, mobilesAgree: bool, statusStays: bool) {
    && after.changes == before.changes && after.bureau == before.bureau
    && (after.status == before.status <==> statusStays)
    && (after.claims == before.claims <==> mobilesAgree)
  }

  /* ---- the draws of the first appended date ---- */

  /** The mobile that the last of these changes gives a customer. */
  function LastMobile(cs: seq<Change>, policies: seq<Policy>, customer: nat): Option<string>
    requires forall c <- cs :: c.policy < |policies|
  {
    if cs == [] then None else
    var last := cs[|cs| - 1];
    if last.NewMobile? && policies[last.policy].customer == customer then Some(last.mobile)
    else LastMobile(cs[..|cs| - 1], policies, customer)
  }

  /** The changes drawn for a date after the frozen one leave each customer the last mobile drawn, on that date. */
  lemma {:induction false} DayMobile(b: Book, d: int, cs: seq<Change>, frozen: int, customer: nat)
    requires BookOk(b) && (forall c <- cs :: c.policy < |b.policies|) && d > frozen && customer < |b.customers|
    ensures MobileOn(DayChanges(b, d, cs, frozen).customers[customer], d)
         == LastMobile(cs, b.policies, customer).GetOr(MobileOn(b.customers[customer], d))
    ensures var after := DayChanges(b, d, cs, frozen);
      forall p | 0 <= p < |b.policies| :: after.policies[p].customer == b.policies[p].customer
  {
    if cs != [] {
      var init, last := cs[..|cs| - 1], cs[|cs| - 1];
      assert forall c <- init :: c in cs;
      DayMobile(b, d, init, frozen, customer);
      var before := DayChanges(b, d, init, frozen);
      assert before.policies[last.policy] in before.policies;
      if last.NewMobile? {
        NextDayChangeShows(before.customers[customer], d, last.mobile, frozen, d);
      }
    }
  }

  /** The mobile a date's changes leave a customer with, on a date after the frozen one. */
  ghost function DrawnMobile(gen: Gen, a: Book, d: int, customer: nat): string
    requires GenOk(gen, |a.policies|) && customer < |a.customers|
  {
    LastMobile(gen.changes(a.rng).0, a.policies, customer).GetOr(MobileOn(a.customers[customer], d))
  }

  lemma OneDateMobile(gen: Gen, a: Book, d: int, frozen: int, customer: nat)
    requires BookOk(a) && GenOk(gen, |a.policies|) && d > frozen && customer < |a.customers|
    ensures MobileOn(AddChanges(gen, a, d, frozen).customers[customer], d) == DrawnMobile(gen, a, d, customer)
  {
    DayMobile(a, d, gen.changes(a.rng).0, frozen, customer);
  }

  /** Dates after the first appended one leave the mobile of that date alone. */
  lemma FirstDateMobile(gen: Gen, start: Book, dates: seq<int>, more: seq<int>, frozen: int, customer: nat)
    requires BookOk(start) && GenOk(gen, |start.policies|) && Appends(dates, more, frozen)
    requires customer < |start.customers|
    ensures MobileOn(ChangesOver(gen, start, dates + more, frozen).customers[customer], more[0])
         == MobileOn(ChangesOver(gen, start, dates + [more[0]], frozen).customers[customer], more[0])
  {
    var one, rest := dates + [more[0]], more[1..];
    assert one + rest == dates + more;
    if rest != [] {
      assert (dates + more)[|dates|] < (dates + more)[|dates| + 1];
      MoreIsLater(one, rest);
      assert forall d <- rest :: d in more;
      BookIsLater(gen, start, one, rest, frozen, rest[0]);
      MobileStays(ChangesOver(gen, start, one, frozen).customers[customer],
                  ChangesOver(gen, start, dates + more, frozen).customers[customer], rest[0], more[0]);
    }
  }

  /** What the appended world shows of a customer on its first appended date. */
  lemma NextMobile(gen: Gen, start: Book, dates: seq<int>, more: seq<int>, frozen: int, customer: nat)
    requires BookOk(start) && GenOk(gen, |start.policies|) && Appends(dates, more, frozen)
    requires customer < |start.customers|
    ensures MobileOn(ChangesOver(gen, start, dates + more, frozen).customers[customer], more[0])
         == DrawnMobile(gen, ChangesOver(gen, start, dates, frozen), more[0], customer)
  {
    assert more[0] in more;
    FirstDateMobile(gen, start, dates, more, frozen, customer);
    ChangesOneMore(gen, start, dates, more[0], frozen);
    OneDateMobile(gen, ChangesOver(gen, start, dates, frozen), more[0], frozen, customer);
  }

  /** The next draw of changes gives the holder of a claim filed on date `d` another mobile than the one shown. */
  ghost predicate MobileMoves(gen: Gen, claims: seq<Claim>, d: int, a: Book)
    requires GenOk(gen, |a.policies|) && HaveHolders(claims, a.customers)
  {
    exists cl <- FiledOn(claims, d) ::
      var drawn := LastMobile(gen.changes(a.rng).0, a.policies, cl.customer);
      drawn.Some? && drawn.value != MobileOn(a.customers[cl.customer], d + 1)
  }

  /** The mobiles on the first appended date are those of before, with the last ones drawn put in. */
  ghost predicate MobilesAreDrawn(gen: Gen, a: Book, b: seq<Customer>, day: int)
    requires |b| == |a.customers| && GenOk(gen, |a.policies|)
  {
    forall c | 0 <= c < |b| :: MobileOn(b[c], day) == DrawnMobile(gen, a, day, c)
  }

  lemma NextMobiles(gen: Gen, book: Book, dates: seq<int>, more: seq<int>, frozen: int)
    requires BookOk(book) && GenOk(gen, |book.policies|) && Appends(dates, more, frozen)
    ensures var a, b := ChangesOver(gen, book, dates, frozen), ChangesOver(gen, book, dates + more, frozen);
      MobilesAreDrawn(gen, a, b.customers, more[0])
  {
    var a, b := ChangesOver(gen, book, dates, frozen), ChangesOver(gen, book, dates + more, frozen);
    forall c | 0 <= c < |b.customers|
      ensures MobileOn(b.customers[c], more[0]) == DrawnMobile(gen, a, more[0], c)
    {
      NextMobile(gen, book, dates, more, frozen, c);
    }
  }

  lemma MobilesAgreeIff(gen: Gen, claims: seq<Claim>, d: int, a: Book, b: seq<Customer>, first: int)
    requires GenOk(gen, |a.policies|) && HaveHolders(claims, a.customers) && d + 1 <= first
    requires AgreeBefore(a.customers, b, first) && MobilesAreDrawn(gen, a, b, first)
    ensures NextDayMobilesAgree(claims, d, a.customers, b) <==> !(d + 1 == first && MobileMoves(gen, claims, d, a))
  {
    NextDayBefore(claims, d, a.customers, b, first);
  }

  /**
   Appending dates after the frozen one leaves every earlier date's change and bureau files as they were. Its
   claim file changes if and only if the first appended date is the very next day and the changes drawn for it
   give the holder of a claim filed on the earlier date another mobile than the one shown. Its status file
   changes only when a third date is appended to two, by the event that this takes over.
   */
  lemma EarlierFilesStay(gen: Gen, history: Building, book: Book, dates: seq<int>, more: seq<int>, frozen: int,
                         samples: Samples, i: nat)
    requires BookOk(book) && GenOk(gen, |book.policies|) && Appends(dates, more, frozen) && i < |dates|
    requires SampleOk(samples, |book.customers|) && dates[i] in samples
    requires HaveHolders(ClaimsOver(gen, history, dates + more).claims, book.customers)
    ensures var claims, later := ClaimsOver(gen, history, dates).claims, ClaimsOver(gen, history, dates + more).claims;
            var a, b := ChangesOver(gen, book, dates, frozen), ChangesOver(gen, book, dates + more, frozen);
            && HaveHolders(claims, a.customers) && HaveHolders(later, b.customers)
            && FilesStay(Records(claims, a, dates, i, samples), Records(later, b, dates + more, i, samples),
                         !(dates[i] + 1 == more[0] && MobileMoves(gen, claims, dates[i], a)),
                         !ThirdDateTakesOver(claims, dates, i))
  {
    var claims := ClaimsOver(gen, history, dates).claims;
    var a, b := ChangesOver(gen, book, dates, frozen), ChangesOver(gen, book, dates + more, frozen);
    MoreIsLater(dates, more);
    var extra := ClaimsArePrefix(gen, history, dates, more, |book.policies|);
    assert forall cl <- claims :: cl in claims + extra;
    assert (dates + more)[..|dates|] == dates;
    PrefixIncreasing(dates + more, |dates|);
    WorldStarts(gen, history, dates, |book.policies|);
    BookIsLater(gen, book, dates, more, frozen, more[0]);
    RecordsStay(claims, extra, a, b, dates, more, frozen, samples, i);
    BooksAgree(a, b, more[0]);
    NextMobiles(gen, book, dates, more, frozen);
    EarlierDays(dates, more, i);
    MobilesAgreeIff(gen, claims, dates[i], a, b.customers, more[0]);
  }

  lemma MoreIsLater(dates: seq<int>, more: seq<int>)
    requires Increasing(dates + more) && more != []
    ensures forall d <- more :: d >= more[0]
  {
    forall d | d in more
      ensures d >= more[0]
    {
      var k :| 0 <= k < |more| && more[k] == d;
      assert (dates + more)[|dates|] == more[0] && (dates + more)[|dates| + k] == d;
    }
  }

  /**
   What breaks it on the day before an appended date: a mobile change of that date is the mobile the
   earlier date's claim rows then show, while every earlier midnight still shows the old one.
   */
  lemma NextDayChangeShows(c: Customer, d: int, mobile: string, frozen: int, day: int)
    requires d > frozen
    ensures MobileOn(WithMobile(c, d, mobile, frozen), day) == if day >= d then mobile else MobileOn(c, day)
  {
    var after := WithMobile(c, d, mobile, frozen);
    assert after.laterMobiles[..|after.laterMobiles| - 1] == c.laterMobiles;
  }

  /* ---- a world whose file changes ---- */

  /** One customer, one claim and one mobile change a date; the third change is to another number. */
  function ChangingGen(): Gen {
    Gen(r => (1, r), r => (8 * HOUR, r),
        r => (Rolls(0, 0, false, true, true, 1.0, "", 4 * DAY, 2 * HOUR, HOUR, HOUR, DAY, HOUR), r),
        r => ([NewMobile(0, 9 * HOUR, if r < 2 then "6000000000" else "7000000000")], r + 1))
  }

  function OneCustomer(): Book {
    Book(0, [Customer("9000000000", [])], [Policy(0, 0, 365, true, 1.0, 0)], map[])
  }

  lemma ChangingWorldIsFine()
    ensures GenOk(ChangingGen(), 1) && BookOk(OneCustomer())
  {
    assert forall r: Rng :: InRange(ChangingGen().claim(r).0);
    assert forall r: Rng :: forall c <- ChangingGen().changes(r).0 ::
      c == NewMobile(0, 9 * HOUR, if r < 2 then "6000000000" else "7000000000");
  }

  lemma ChangingBook()
    requires GenOk(ChangingGen(), 1) && BookOk(OneCustomer())
    ensures var a := ChangesOver(ChangingGen(), OneCustomer(), [0, 1, 2], 2);
      a.rng == 2 && |a.policies| == 1 && a.policies[0].customer == 0 && a.customers == [Customer("6000000000", [])]
  {
    var gen, book := ChangingGen(), OneCustomer();
    assert ChangesOver(gen, book, [0], 2) == book;
    ChangesOneMore(gen, book, [0], 1, 2);
    assert [0] + [1] == [0, 1];
    OneMobile(book, 1, 2);
    ChangesOneMore(gen, book, [0, 1], 2, 2);
    assert [0, 1] + [2] == [0, 1, 2];
    OneMobile(ChangesOver(gen, book, [0, 1], 2), 2, 2);
  }

  lemma OneMobile(b: Book, d: int, frozen: int)
    requires BookOk(b) && |b.policies| == 1 && b.policies[0].customer == 0 && |b.customers| == 1 && d <= frozen
    requires b.customers[0].laterMobiles == []
    ensures var after := DayChanges(b, d, [NewMobile(0, 9 * HOUR, "6000000000")], frozen);
      after.customers == [Customer("6000000000", [])] && |after.policies| == 1 && after.policies[0].customer == 0
  {
    var cs := [NewMobile(0, 9 * HOUR, "6000000000")];
    assert cs[..0] == [];
    assert DayChanges(b, d, cs[..0], frozen) == b;
  }

  lemma ChangingClaim() returns (cl: Claim)
    ensures cl in ClaimsOver(ChangingGen(), Building(0, 1, []), [0, 1, 2]).claims
    ensures OnDay(cl.fnol, 2) && cl.customer == 0
  {
    var gen := ChangingGen();
    var before := ClaimsOver(gen, Building(0, 1, []), [0, 1]);
    assert [0, 1, 2][..2] == [0, 1];
    var after := AddDay(gen, before, 2);
    assert DayClaims(gen, before, 2, 0) == before;
    cl := after.claims[|before.claims|];
  }

  lemma {:induction false} OneHolder(dates: seq<int>)
    ensures forall cl <- ClaimsOver(ChangingGen(), Building(0, 1, []), dates).claims :: cl.customer == 0
  {
    if dates != [] {
      var before, d := ClaimsOver(ChangingGen(), Building(0, 1, []), dates[..|dates| - 1]), dates[|dates| - 1];
      OneHolder(dates[..|dates| - 1]);
      assert DayClaims(ChangingGen(), before, d, 0) == before;
      assert DayClaims(ChangingGen(), before, d, 1) == OneClaim(ChangingGen(), before, d);
    }
  }

  lemma ChangingWorldMoves(dates: seq<int>)
    requires dates == [0, 1, 2] && GenOk(ChangingGen(), 1) && BookOk(OneCustomer())
    ensures var a := ChangesOver(ChangingGen(), OneCustomer(), dates, 2);
      var claims := ClaimsOver(ChangingGen(), Building(0, 1, []), dates).claims;
      |a.policies| == 1 && HaveHolders(claims, a.customers) && MobileMoves(ChangingGen(), claims, 2, a)
  {
    ChangingBook();
    OneHolder(dates);
    var cl := ChangingClaim();
    var a := ChangesOver(ChangingGen(), OneCustomer(), dates, 2);
    var cs := ChangingGen().changes(a.rng).0;
    assert cs == [NewMobile(0, 9 * HOUR, "7000000000")];
    assert LastMobile(cs, a.policies, 0) == Some("7000000000");
    assert MobileOn(a.customers[0], 3) == "6000000000";
    assert "7000000000"[0] != "6000000000"[0];
    assert cl in FiledOn(ClaimsOver(ChangingGen(), Building(0, 1, []), dates).claims, 2);
  }

  /** A world, the date whose claims will show another mobile, and the next day to append. */
  ghost predicate IsMoving(gen: Gen, history: Building, book: Book, dates: seq<int>, more: seq<int>, frozen: int,
                           i: nat) {
    && BookOk(book) && GenOk(gen, |book.policies|)
    && Appends(dates, more, frozen) && i < |dates| && dates[i] + 1 == more[0]
    && HaveHolders(ClaimsOver(gen, history, dates + more).claims, book.customers)
    && var claims, a := ClaimsOver(gen, history, dates).claims, ChangesOver(gen, book, dates, frozen);
       HaveHolders(claims, a.customers) && MobileMoves(gen, claims, dates[i], a)
  }

  /** The claim file of the date is another once the dates are appended. */
  ghost predicate FileChanges(gen: Gen, history: Building, book: Book, dates: seq<int>, more: seq<int>, frozen: int,
                              i: nat) {
    && BookOk(book) && GenOk(gen, |book.policies|) && dates != [] && i < |dates|
    && var claims, later := ClaimsOver(gen, history, dates).claims, ClaimsOver(gen, history, dates + more).claims;
       var a, b := ChangesOver(gen, book, dates, frozen), ChangesOver(gen, book, dates + more, frozen);
       && HaveHolders(claims, a.customers) && HaveHolders(later, b.customers)
       && ClaimFile(later, b.customers, dates + more, i) != ClaimFile(claims, a.customers, dates, i)
  }

  lemma MovedFileChanges(gen: Gen, history: Building, book: Book, dates: seq<int>, more: seq<int>, frozen: int, i: nat)
    requires IsMoving(gen, history, book, dates, more, frozen, i)
    ensures FileChanges(gen, history, book, dates, more, frozen, i)
  {
    var samples: Samples := map[dates[i] := []];
    EarlierFilesStay(gen, history, book, dates, more, frozen, samples, i);
  }

  lemma ChangingWorldIsMoving(dates: seq<int>, more: seq<int>)
    requires dates == [0, 1, 2] && more == [3]
    ensures IsMoving(ChangingGen(), Building(0, 1, []), OneCustomer(), dates, more, 2, 2)
  {
    ChangingWorldIsFine();
    ChangingWorldMoves(dates);
    OneHolderIsThere(dates + more);
    FourDates(dates, more);
  }

  lemma OneHolderIsThere(dates: seq<int>)
    ensures HaveHolders(ClaimsOver(ChangingGen(), Building(0, 1, []), dates).claims, OneCustomer().customers)
  {
    OneHolder(dates);
  }

  lemma FourDates(dates: seq<int>, more: seq<int>)
    requires dates == [0, 1, 2] && more == [3]
    ensures Appends(dates, more, 2) && dates[2] + 1 == more[0]
  {
    assert dates + more == [0, 1, 2, 3];
  }

  /** There is a world with the dates 0, 1 and 2 where appending date 3 changes the claim file of date 2. */
  lemma AppendedDayChangesAFile() returns (gen: Gen, history: Building, book: Book, dates: seq<int>, more: seq<int>)
    ensures dates == [0, 1, 2] && more == [3] && FileChanges(gen, history, book, dates, more, 2, 2)
  {
    gen, history, book, dates, more := ChangingGen(), Building(0, 1, []), OneCustomer(), [0, 1, 2], [3];
    ChangingWorldIsMoving(dates, more);
    MovedFileChanges(gen, history, book, dates, more, 2, 2);
  }
}
