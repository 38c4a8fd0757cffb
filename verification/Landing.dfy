/**
 The files of one business date: claim rows as the claims system shows them at a midnight, status
 events, policy changes and bureau rows, with the faults planted on days 2 to 4.
 */
module Landing {
  import opened Options
  import opened ClaimWorld

  /* ---- records ---- */

  /** What the claims system shows of a claim's handling. */
  datatype Shown = Shown(status: Status, amount: Option<real>, reason: Option<string>, decidedBy: Option<DecidedBy>,
                         decidedTs: Option<int>)

  datatype ClaimRow = ClaimRow(id: int, details: int, fnol: int, mobile: string, shown: Shown)

  datatype Event = Event(claim: int, t: int, from: Status, to: Status, amount: Option<real>, reason: Option<string>,
                         decidedBy: Option<DecidedBy>)

  function ShownAt(cl: Claim, asOf: int): Shown {
    if cl.decided.Some? && cl.decided.value <= asOf
    then Shown(cl.status, cl.amountApproved, cl.reason, cl.decidedBy, cl.decided)
    else Shown(if cl.reviewAt.Some? && cl.reviewAt.value <= asOf then UnderReview else Filed, None, None, None, None)
  }

  /** The row of a claim at the midnight that begins `day`; the mobile is the one of that day too. */
  function RowAt(cl: Claim, day: int, customers: seq<Customer>): ClaimRow
    requires cl.customer < |customers|
  {
    ClaimRow(cl.id, cl.details, cl.fnol, MobileOn(customers[cl.customer], day), ShownAt(cl, Midnight(day)))
  }

  /**
   What the claims system shows at a time: the outcome from the decision on, before it only that the claim is
   under review, from the review on, or filed.
   */
  lemma ShownIs(cl: Claim, asOf: int)
    ensures var shown := ShownAt(cl, asOf);
      && (cl.decided.Some? && cl.decided.value <= asOf ==>
            shown == Shown(cl.status, cl.amountApproved, cl.reason, cl.decidedBy, cl.decided))
      && (cl.decided.None? || cl.decided.value > asOf ==>
            && shown.amount.None? && shown.reason.None? && shown.decidedBy.None? && shown.decidedTs.None?
            && (shown.status == UnderReview <==> cl.reviewAt.Some? && cl.reviewAt.value <= asOf)
            && (shown.status == Filed <==> cl.reviewAt.None? || cl.reviewAt.value > asOf))
  {
  }

  /** A claim row: the claim as filed, with its holder's mobile of that day and what is shown at its midnight. */
  lemma RowIs(cl: Claim, day: int, customers: seq<Customer>)
    requires cl.customer < |customers|
    ensures var row := RowAt(cl, day, customers);
      && row.id == cl.id && row.details == cl.details && row.fnol == cl.fnol
      && row.mobile == MobileOn(customers[cl.customer], day) && row.shown == ShownAt(cl, day * DAY)
  {
  }

  function StatusEvents(cl: Claim): seq<Event> {
    (if cl.reviewAt.Some? then [Event(cl.id, cl.reviewAt.value, Filed, UnderReview, None, None, None)] else []) +
    if cl.decided.Some?
    then [Event(cl.id, cl.decided.value, if cl.reviewAt.Some? then UnderReview else Filed, cl.status,
                cl.amountApproved, cl.reason, cl.decidedBy)]
    else []
  }

  function AllEvents(claims: seq<Claim>): seq<Event> {
    if claims == [] then [] else AllEvents(claims[..|claims| - 1]) + StatusEvents(claims[|claims| - 1])
  }

  /* ---- sorting by time, and picking ---- */

  function Insert(sorted: seq<Event>, e: Event): seq<Event> {
    if sorted == [] || sorted[|sorted| - 1].t <= e.t then sorted + [e]
    else Insert(sorted[..|sorted| - 1], e) + [sorted[|sorted| - 1]]
  }

  /** The stable sort by event time. */
  function Sorted(events: seq<Event>): seq<Event> {
    if events == [] then [] else Insert(Sorted(events[..|events| - 1]), events[|events| - 1])
  }

  predicate OnDay(t: int, d: int) {
    Midnight(d) <= t < Midnight(d + 1)
  }

  /** The events of one day in their order, without the one that is held back. */
  function EventsOn(events: seq<Event>, d: int, held: Option<Event>): seq<Event> {
    if events == [] then [] else
    var last := events[|events| - 1];
    EventsOn(events[..|events| - 1], d, held) + if OnDay(last.t, d) && held != Some(last) then [last] else []
  }

  function FirstApproval(events: seq<Event>, d: int): Option<Event> {
    if events == [] then None
    else if OnDay(events[0].t, d) && events[0].to == Approved then Some(events[0])
    else FirstApproval(events[1..], d)
  }

  /** The status event of the second date that is held back for a day: its first approval. */
  function LateEvent(sorted: seq<Event>, dates: seq<int>): Option<Event> {
    if |dates| <= 2 then None else FirstApproval(sorted, dates[1])
  }

  function StatusFile(claims: seq<Claim>, dates: seq<int>, i: nat): seq<Event>
    requires i < |dates|
  {
    var sorted := Sorted(AllEvents(claims));
    var late := LateEvent(sorted, dates);
    EventsOn(sorted, dates[i], late)
      + if i == 2 && late.Some? then [late.value] else []
  }

  /* ---- claim, change and bureau files ---- */

  predicate HaveHolders(claims: seq<Claim>, customers: seq<Customer>) {
    forall cl <- claims :: cl.customer < |customers|
  }

  function Rows(claims: seq<Claim>, day: int, customers: seq<Customer>): (rows: seq<ClaimRow>)
    requires HaveHolders(claims, customers)
    ensures |rows| == |claims|
    ensures forall k | 0 <= k < |claims| :: rows[k] == RowAt(claims[k], day, customers)
  {
    seq(|claims|, k requires 0 <= k < |claims| => assert claims[k] in claims; RowAt(claims[k], day, customers))
  }

  function FiledBefore(claims: seq<Claim>, t: int): (r: seq<Claim>)
    ensures forall cl :: cl in r <==> cl in claims && cl.fnol < t
  {
    if claims == [] then [] else
    var last := claims[|claims| - 1];
    FiledBefore(claims[..|claims| - 1], t) + if last.fnol < t then [last] else []
  }

  function FiledOn(claims: seq<Claim>, d: int): (r: seq<Claim>)
    ensures forall cl :: cl in r <==> cl in claims && OnDay(cl.fnol, d)
  {
    if claims == [] then [] else
    var last := claims[|claims| - 1];
    FiledOn(claims[..|claims| - 1], d) + if OnDay(last.fnol, d) then [last] else []
  }

  /** The first claim filed from the first date on; it is sent again on the second date. */
  function FirstFiled(claims: seq<Claim>, d: int): Option<Claim> {
    if claims == [] then None
    else if claims[0].fnol >= Midnight(d) then Some(claims[0])
    else FirstFiled(claims[1..], d)
  }

  lemma {:induction false} FirstFiledIsOne(claims: seq<Claim>, d: int)
    ensures FirstFiled(claims, d).Some? ==> FirstFiled(claims, d).value in claims
  {
    if claims != [] && claims[0].fnol < Midnight(d) {
      FirstFiledIsOne(claims[1..], d);
    }
  }

  const ORPHAN := 999001

  /** On the first date, every claim filed before it, as shown at its midnight. */
  function HistoryRows(claims: seq<Claim>, customers: seq<Customer>, dates: seq<int>, i: nat): seq<ClaimRow>
    requires i < |dates| && HaveHolders(claims, customers)
  {
    if i == 0 then Rows(FiledBefore(claims, Midnight(dates[i])), dates[i], customers) else []
  }

  /** The claims filed on the date, as shown at the next midnight. */
  function DayRows(claims: seq<Claim>, customers: seq<Customer>, d: int): seq<ClaimRow>
    requires HaveHolders(claims, customers)
  {
    Rows(FiledOn(claims, d), d + 1, customers)
  }

  function ResentRows(claims: seq<Claim>, customers: seq<Customer>, dates: seq<int>, i: nat): seq<ClaimRow>
    requires i < |dates| && HaveHolders(claims, customers)
  {
    var first := FirstFiled(claims, dates[0]);
    FirstFiledIsOne(claims, dates[0]);
    if i == 1 && first.Some? then Rows([first.value], dates[i], customers) else []
  }

  /** On the fourth date, the first of the day's rows once more as a claim on an unknown policy. */
  function OrphanRows(today: seq<ClaimRow>, i: nat): (r: seq<ClaimRow>)
    ensures forall o <- r :: o.id == ORPHAN
  {
    if i == 3 && today != [] then [today[0].(id := ORPHAN)] else []
  }

  function ClaimFile(claims: seq<Claim>, customers: seq<Customer>, dates: seq<int>, i: nat): seq<ClaimRow>
    requires i < |dates| && HaveHolders(claims, customers)
  {
    HistoryRows(claims, customers, dates, i) + DayRows(claims, customers, dates[i])
      + ResentRows(claims, customers, dates, i) + OrphanRows(DayRows(claims, customers, dates[i]), i)
  }

  /** The change file of a later date; the second date has one event of an unknown policy, a second after its first. */
  function ChangeFile(cdc: map<int, seq<CdcRow>>, dates: seq<int>, i: nat): seq<CdcRow>
    requires i < |dates|
  {
    var rows := if i > 0 && dates[i] in cdc then cdc[dates[i]] else [];
    rows + if i == 1 && rows != [] then [UnknownPolicy(rows[0].t + 1_000_000)] else []
  }

  datatype BureauRow = BureauRow(customer: nat, date: int, mobile: string)

  /** The customers that each date's own stream draws for the bureau delta. */
  type Samples = map<int, seq<nat>>

  ghost predicate SampleOk(samples: Samples, n: nat) {
    forall d <- samples :: forall k | 0 <= k < |samples[d]| :: samples[d][k] < n
  }

  /** Every customer on the first date, then the date's sample. */
  function Reported(n: nat, d: int, i: nat, samples: Samples): (chosen: seq<nat>)
    requires SampleOk(samples, n) && d in samples
    ensures forall k | 0 <= k < |chosen| :: chosen[k] < n
  {
    if i == 0 then seq(n, c => c) else samples[d]
  }

  function BureauRows(customers: seq<Customer>, chosen: seq<nat>, date: int): (rows: seq<BureauRow>)
    requires forall k | 0 <= k < |chosen| :: chosen[k] < |customers|
    ensures |rows| == |chosen|
    ensures forall k | 0 <= k < |chosen| :: rows[k] == BureauRow(chosen[k], date, MobileOn(customers[chosen[k]], date))
  {
    seq(|chosen|, k requires 0 <= k < |chosen| => BureauRow(chosen[k], date, MobileOn(customers[chosen[k]], date)))
  }

  function BureauFile(customers: seq<Customer>, dates: seq<int>, i: nat, samples: Samples): seq<BureauRow>
    requires i < |dates| && SampleOk(samples, |customers|) && dates[i] in samples
  {
    BureauRows(customers, Reported(|customers|, dates[i], i, samples), dates[i])
  }

  datatype Files = Files(claims: seq<ClaimRow>, status: seq<Event>, changes: seq<CdcRow>, bureau: seq<BureauRow>)

  ghost function Records(claims: seq<Claim>, book: Book, dates: seq<int>, i: nat, samples: Samples): Files
    requires i < |dates| && HaveHolders(claims, book.customers)
    requires SampleOk(samples, |book.customers|) && dates[i] in samples
  {
    Files(ClaimFile(claims, book.customers, dates, i), StatusFile(claims, dates, i), ChangeFile(book.cdc, dates, i),
          BureauFile(book.customers, dates, i, samples))
  }

  /** `records_for`: the lists are filled entity by entity, the planted faults appended to them. */
  method RecordsFor(world: World, i: nat, samples: Samples) returns (out: Files)
    requires i < |world.dates| && HaveHolders(world.claims, world.customers)
    requires SampleOk(samples, |world.customers|) && world.dates[i] in samples
    ensures out == Records(world.claims, world.BookState(), world.dates, i, samples)
  {
    var rows := ClaimRecords(world.claims, world.customers, world.dates, i);
    var status := StatusRecords(world.claims, world.dates, i);
    var changes := ChangeRecords(world.cdc, world.dates, i);
    out := Files(rows, status, changes, BureauFile(world.customers, world.dates, i, samples));
  }

  method ClaimRecords(claims: seq<Claim>, customers: seq<Customer>, dates: seq<int>, i: nat)
    returns (rows: seq<ClaimRow>)
    requires i < |dates| && HaveHolders(claims, customers)
    ensures rows == ClaimFile(claims, customers, dates, i)
  {
    rows := StartRows(claims, customers, dates, i);
    var today := RowsOfDay(claims, customers, dates[i]);
    rows := rows + today;
    rows := AppendResent(rows, claims, customers, dates, i);
    rows := AppendOrphan(rows, today, i);
  }

  method StartRows(claims: seq<Claim>, customers: seq<Customer>, dates: seq<int>, i: nat)
    returns (rows: seq<ClaimRow>)
    requires i < |dates| && HaveHolders(claims, customers)
    ensures rows == HistoryRows(claims, customers, dates, i)
  {
    rows := if i == 0 then Rows(FiledBefore(claims, Midnight(dates[i])), dates[i], customers) else [];
  }

  method RowsOfDay(claims: seq<Claim>, customers: seq<Customer>, d: int) returns (today: seq<ClaimRow>)
    requires HaveHolders(claims, customers)
    ensures today == DayRows(claims, customers, d)
  {
    today := Rows(FiledOn(claims, d), d + 1, customers);
  }

  method AppendResent(rows: seq<ClaimRow>, claims: seq<Claim>, customers: seq<Customer>, dates: seq<int>, i: nat)
    returns (out: seq<ClaimRow>)
    requires i < |dates| && HaveHolders(claims, customers)
    ensures out == rows + ResentRows(claims, customers, dates, i)
  {
    out := rows;
    if i == 1 {
      var first := FirstFiled(claims, dates[0]);
      FirstFiledIsOne(claims, dates[0]);
      if first.Some? {
        out := rows + Rows([first.value], dates[i], customers);
      }
    }
  }

  method AppendOrphan(rows: seq<ClaimRow>, today: seq<ClaimRow>, i: nat) returns (out: seq<ClaimRow>)
    ensures out == rows + OrphanRows(today, i)
  {
    out := rows;
    if i == 3 && today != [] {
      out := rows + [today[0].(id := ORPHAN)];
    }
  }

  method StatusRecords(claims: seq<Claim>, dates: seq<int>, i: nat) returns (status: seq<Event>)
    requires i < |dates|
    ensures status == StatusFile(claims, dates, i)
  {
    var sorted := Sorted(AllEvents(claims));
    var late := LateEvent(sorted, dates);
    status := EventsOn(sorted, dates[i], late);
    if i == 2 && late.Some? {
      status := status + [late.value];
    }
  }

  method ChangeRecords(cdc: map<int, seq<CdcRow>>, dates: seq<int>, i: nat) returns (changes: seq<CdcRow>)
    requires i < |dates|
    ensures changes == ChangeFile(cdc, dates, i)
  {
    changes := [];
    if i > 0 && dates[i] in cdc {
      changes := cdc[dates[i]];
    }
    if i == 1 && changes != [] {
      changes := changes + [UnknownPolicy(changes[0].t + 1_000_000)];
    }
  }

  /* ---- what the files hold ---- */

  ghost predicate InTimeOrder(events: seq<Event>) {
    forall i, j | 0 <= i < j < |events| :: events[i].t <= events[j].t
  }

  lemma {:induction false} InsertOrders(sorted: seq<Event>, e: Event)
    requires InTimeOrder(sorted)
    ensures InTimeOrder(Insert(sorted, e)) && forall x :: x in Insert(sorted, e) <==> x in sorted || x == e
  {
    if sorted != [] && sorted[|sorted| - 1].t > e.t {
      var init, last := sorted[..|sorted| - 1], sorted[|sorted| - 1];
      InsertOrders(init, e);
      var r := Insert(init, e);
      forall i | 0 <= i < |r| ensures r[i].t <= last.t {
        assert r[i] in r;
      }
      assert forall x :: x in sorted <==> x in init || x == last;
    }
  }

  lemma {:induction false} SortOrders(events: seq<Event>)
    ensures InTimeOrder(Sorted(events)) && forall x :: x in Sorted(events) <==> x in events
  {
    if events != [] {
      var init, last := events[..|events| - 1], events[|events| - 1];
      SortOrders(init);
      InsertOrders(Sorted(init), last);
      assert forall x :: x in events <==> x in init || x == last;
    }
  }

  lemma {:induction false} EventsOnIs(events: seq<Event>, d: int, held: Option<Event>)
    ensures forall e :: e in EventsOn(events, d, held) <==> e in events && OnDay(e.t, d) && held != Some(e)
    ensures InTimeOrder(events) ==> InTimeOrder(EventsOn(events, d, held))
  {
    if events != [] {
      var init, last := events[..|events| - 1], events[|events| - 1];
      EventsOnIs(init, d, held);
      assert forall x :: x in events <==> x in init || x == last;
      var before := EventsOn(init, d, held);
      forall i | 0 <= i < |before| && InTimeOrder(events) ensures before[i].t <= last.t {
        assert before[i] in before;
        var j :| 0 <= j < |init| && init[j] == before[i];
        assert events[j].t <= events[|events| - 1].t;
      }
    }
  }

  /** The events of a claim: to review if it was reviewed, and then, or straight from filing, to its outcome. */
  lemma StatusEventsAre(cl: Claim)
    requires cl.decided.Some?
    ensures var decided := Event(cl.id, cl.decided.value, if cl.reviewAt.None? then Filed else UnderReview, cl.status,
                                 cl.amountApproved, cl.reason, cl.decidedBy);
      if cl.reviewAt.None? then StatusEvents(cl) == [decided]
      else StatusEvents(cl)
           == [Event(cl.id, cl.reviewAt.value, Filed, UnderReview, None, None, None), decided]
  {
  }

  /** The change file: nothing on the first date; else the date's rows, on the second date and one row more. */
  lemma ChangeFileIs(cdc: map<int, seq<CdcRow>>, dates: seq<int>, i: nat)
    requires i < |dates|
    ensures i == 0 || dates[i] !in cdc ==> ChangeFile(cdc, dates, i) == []
    ensures i >= 2 && dates[i] in cdc ==> ChangeFile(cdc, dates, i) == cdc[dates[i]]
    ensures i == 1 && dates[1] in cdc ==>
              var rows := cdc[dates[1]];
              if rows == [] then ChangeFile(cdc, dates, i) == []
              else ChangeFile(cdc, dates, i) == rows + [UnknownPolicy(rows[0].t + 1_000_000)]
  {
  }

  /** The bureau file: every customer on the first date, then the date's sample, with their mobiles on the date. */
  lemma BureauFileIs(customers: seq<Customer>, dates: seq<int>, i: nat, samples: Samples)
    requires i < |dates| && SampleOk(samples, |customers|) && dates[i] in samples
    ensures var file := BureauFile(customers, dates, i, samples);
      && |file| == (if i == 0 then |customers| else |samples[dates[i]]|)
      && forall k | 0 <= k < |file| ::
           var c := if i == 0 then k else samples[dates[i]][k];
           file[k] == BureauRow(c, dates[i], MobileOn(customers[c], dates[i]))
  {
  }

  /** The event held back on the second date of three or more. */
  ghost function HeldBack(claims: seq<Claim>, dates: seq<int>): Option<Event> {
    LateEvent(Sorted(AllEvents(claims)), dates)
  }

  /**
   The status file of a date has exactly the events of that day but the one held back, in the order of their
   times; the third file has the held one as well, behind the others.
   */
  lemma StatusFileIs(claims: seq<Claim>, dates: seq<int>, i: nat) returns (own: seq<Event>)
    requires i < |dates|
    ensures InTimeOrder(own)
    ensures var held := HeldBack(claims, dates);
      && StatusFile(claims, dates, i) == own + (if i == 2 && held.Some? then [held.value] else [])
      && forall e :: e in own <==> e in AllEvents(claims) && OnDay(e.t, dates[i]) && held != Some(e)
  {
    SortOrders(AllEvents(claims));
    own := EventsOn(Sorted(AllEvents(claims)), dates[i], HeldBack(claims, dates));
    EventsOnIs(Sorted(AllEvents(claims)), dates[i], HeldBack(claims, dates));
  }

  lemma {:induction false} FirstApprovalIs(events: seq<Event>, d: int)
    requires InTimeOrder(events)
    ensures var first := FirstApproval(events, d);
      && (first.None? ==> forall e <- events :: !(OnDay(e.t, d) && e.to == Approved))
      && (first.Some? ==> first.value in events && OnDay(first.value.t, d) && first.value.to == Approved)
      && (first.Some? ==> forall e <- events | OnDay(e.t, d) && e.to == Approved :: first.value.t <= e.t)
  {
    if events != [] {
      FirstApprovalIs(events[1..], d);
      assert forall e :: e in events <==> e == events[0] || e in events[1..];
      forall e | e in events[1..] ensures events[0].t <= e.t {
        var j :| 0 <= j < |events[1..]| && events[1..][j] == e;
        assert events[j + 1] == e;
      }
    }
  }

  /** With three dates or more the earliest approval of the second date is held back, if there is one. */
  lemma HeldBackIs(claims: seq<Claim>, dates: seq<int>)
    ensures |dates| <= 2 ==> HeldBack(claims, dates) == None
    ensures |dates| > 2 ==>
      var held := HeldBack(claims, dates);
      && (held.None? ==> forall e <- AllEvents(claims) :: !(OnDay(e.t, dates[1]) && e.to == Approved))
      && (held.Some? ==> held.value in AllEvents(claims) && OnDay(held.value.t, dates[1]) && held.value.to == Approved)
      && (held.Some? ==>
            forall e <- AllEvents(claims) | OnDay(e.t, dates[1]) && e.to == Approved :: held.value.t <= e.t)
  {
    SortOrders(AllEvents(claims));
    if |dates| > 2 {
      FirstApprovalIs(Sorted(AllEvents(claims)), dates[1]);
    }
  }

  /** A row of some claim that meets a condition, as the claims system shows it at a midnight. */
  ghost predicate IsRowOf(r: ClaimRow, some: seq<Claim>, day: int, customers: seq<Customer>)
    requires HaveHolders(some, customers)
  {
    exists cl <- some :: r == RowAt(cl, day, customers)
  }

  lemma RowsAre(some: seq<Claim>, day: int, customers: seq<Customer>, r: ClaimRow)
    requires HaveHolders(some, customers)
    ensures r in Rows(some, day, customers) <==> IsRowOf(r, some, day, customers)
  {
    if cl :| cl in some && r == RowAt(cl, day, customers) {
      var k :| 0 <= k < |some| && some[k] == cl;
      assert Rows(some, day, customers)[k] == r;
    }
    if r in Rows(some, day, customers) {
      var k :| 0 <= k < |some| && Rows(some, day, customers)[k] == r;
      assert some[k] in some;
    }
  }

  /** Filed before the first date, and so in its file as the first midnight shows them. */
  ghost predicate IsHistoryRow(r: ClaimRow, claims: seq<Claim>, customers: seq<Customer>, dates: seq<int>, i: nat)
    requires i < |dates| && HaveHolders(claims, customers)
  {
    i == 0 && exists cl <- claims :: cl.fnol < Midnight(dates[0]) && r == RowAt(cl, dates[0], customers)
  }

  /** Filed on the date, as the next midnight shows them. */
  ghost predicate IsDayRow(r: ClaimRow, claims: seq<Claim>, customers: seq<Customer>, d: int)
    requires HaveHolders(claims, customers)
  {
    exists cl <- claims :: OnDay(cl.fnol, d) && r == RowAt(cl, d + 1, customers)
  }

  /** The first claim filed since the first date, once more in the second file, as that date's midnight shows it. */
  ghost predicate IsResentRow(r: ClaimRow, claims: seq<Claim>, customers: seq<Customer>, dates: seq<int>, i: nat)
    requires i < |dates| && HaveHolders(claims, customers)
  {
    && i == 1
    && exists k | 0 <= k < |claims| ::
         && claims[k].fnol >= Midnight(dates[0]) && (forall j | 0 <= j < k :: claims[j].fnol < Midnight(dates[0]))
         && claims[k] in claims && r == RowAt(claims[k], dates[1], customers)
  }

  lemma {:induction false} FirstFiledIs(claims: seq<Claim>, d: int) returns (k: nat)
    ensures k <= |claims| && forall j | 0 <= j < k :: claims[j].fnol < Midnight(d)
    ensures k < |claims| ==> claims[k].fnol >= Midnight(d) && FirstFiled(claims, d) == Some(claims[k])
    ensures k == |claims| ==> FirstFiled(claims, d) == None
  {
    k := 0;
    if claims != [] && claims[0].fnol < Midnight(d) {
      var n := FirstFiledIs(claims[1..], d);
      k := n + 1;
    }
  }

  lemma ResentIs(claims: seq<Claim>, customers: seq<Customer>, dates: seq<int>, i: nat, r: ClaimRow)
    requires i < |dates| && HaveHolders(claims, customers)
    ensures r in ResentRows(claims, customers, dates, i) <==> IsResentRow(r, claims, customers, dates, i)
  {
    if i == 1 {
      var k := FirstFiledIs(claims, dates[0]);
      FirstFiledIsOne(claims, dates[0]);
      if k < |claims| {
        assert claims[k] in claims;
        assert ResentRows(claims, customers, dates, i) == [RowAt(claims[k], dates[1], customers)];
      }
    }
  }

  predicate IsOrphanRow(r: ClaimRow, today: seq<ClaimRow>, i: nat) {
    i == 3 && today != [] && r == today[0].(id := ORPHAN)
  }

  /**
   The claim file of a date has exactly the history, on the first date; the claims filed that day; on the
   second date the re-sent claim; and on the fourth, if there are claims that day, the first row again under an
   id of its own.
   */
  lemma ClaimFileIs(claims: seq<Claim>, customers: seq<Customer>, dates: seq<int>, i: nat, r: ClaimRow)
    requires i < |dates| && HaveHolders(claims, customers)
    ensures r in ClaimFile(claims, customers, dates, i)
       <==> || IsHistoryRow(r, claims, customers, dates, i)
            || IsDayRow(r, claims, customers, dates[i])
            || IsResentRow(r, claims, customers, dates, i)
            || IsOrphanRow(r, DayRows(claims, customers, dates[i]), i)
  {
    HistoryIs(claims, customers, dates, i, r);
    DayIs(claims, customers, dates[i], r);
    ResentIs(claims, customers, dates, i, r);
    ClaimFileParts(claims, customers, dates, i, r);
  }

  lemma HistoryIs(claims: seq<Claim>, customers: seq<Customer>, dates: seq<int>, i: nat, r: ClaimRow)
    requires i < |dates| && HaveHolders(claims, customers)
    ensures r in HistoryRows(claims, customers, dates, i) <==> IsHistoryRow(r, claims, customers, dates, i)
  {
    if i == 0 {
      RowsAre(FiledBefore(claims, Midnight(dates[0])), dates[0], customers, r);
    }
  }

  lemma DayIs(claims: seq<Claim>, customers: seq<Customer>, d: int, r: ClaimRow)
    requires HaveHolders(claims, customers)
    ensures r in DayRows(claims, customers, d) <==> IsDayRow(r, claims, customers, d)
  {
    RowsAre(FiledOn(claims, d), d + 1, customers, r);
  }

  lemma ClaimFileParts(claims: seq<Claim>, customers: seq<Customer>, dates: seq<int>, i: nat, r: ClaimRow)
    requires i < |dates| && HaveHolders(claims, customers)
    ensures r in ClaimFile(claims, customers, dates, i)
       <==> || r in HistoryRows(claims, customers, dates, i)
            || r in DayRows(claims, customers, dates[i])
            || r in ResentRows(claims, customers, dates, i)
            || r in OrphanRows(DayRows(claims, customers, dates[i]), i)
  {
  }
}
