/**
 Histories of one thread: live exchanges, backfilled rows and compactions in any order. The books
 kept over a history say which messages were folded into the summary and which never can be.
 */
module CompactionHistory {
  import opened Options
  import opened ChatThread
  import opened Sets

  datatype Event =
    | Exchange(user: string, reply: string, t1: nat, t2: nat)
    | Backfill(role: Role, content: string, createdAt: nat)
    | Compact(order: seq<Message>, answer: Reply, now: nat)

  function After(s: State, e: Event, cfg: Settings): State {
    match e
    case Exchange(user, reply, t1, t2) => AfterExchange(s, user, reply, t1, t2)
    case Backfill(role, content, createdAt) => AfterInsert(s, role, content, createdAt)
    case Compact(order, answer, now) => AfterCompaction(s, order, cfg, answer, now)
  }

  /** Nothing is asked of the time stamps: the clock may stand still or be set back at any event. */
  ghost predicate IsHistory(trace: seq<State>, events: seq<Event>, cfg: Settings) {
    && |trace| == |events| + 1
    && trace[0] == State([], 0, "", None)
    && forall k | 0 <= k < |events| :: IsStep(trace[k], events[k], trace[k + 1], cfg)
  }

  ghost predicate IsStep(before: State, e: Event, after: State, cfg: Settings) {
    Fits(before, e) && after == After(before, e, cfg)
  }

  ghost predicate Fits(s: State, e: Event) {
    e.Compact? ==> IsOrderOf(e.order, s.rows)
  }

  predicate Advancing(s: State, e: Event, cfg: Settings) {
    e.Compact? && Advances(s, e.order, cfg, e.answer)
  }

  /** No row is stamped after this time. */
  ghost predicate NoneAhead(s: State, now: nat) {
    forall i | 0 <= i < |s.rows| :: s.rows[i].createdAt <= now
  }

  /** None of the first `k` events was an advance at a time that some row was stamped after. */
  ghost predicate ClockHolds(trace: seq<State>, events: seq<Event>, cfg: Settings, k: nat)
    requires |trace| == |events| + 1 && k <= |events|
  {
    forall i | 0 <= i < k && Advancing(trace[i], events[i], cfg) :: NoneAhead(trace[i], events[i].now)
  }

  /* ---- the books ---- */

  /**
   `folded`: handed to the summariser by a compaction that moved `lastCompacted`; `windowed`: in the
   recent window of such a compaction; `late`: written with a time stamp that `lastCompacted` had
   already passed.
   */
  datatype Books = Books(folded: set<nat>, windowed: set<nat>, late: set<nat>, advances: nat)

  /** Rows that are newer than the last advance. */
  function Newer(s: State): set<nat> {
    set k: nat | k < |s.rows| && NewerThan(s.rows[k], s.lastCompacted)
  }

  function LateIds(s: State, after: State): set<nat> {
    set k: nat | |s.rows| <= k < |after.rows| && !NewerThan(after.rows[k], s.lastCompacted)
  }

  /** n times the limit, counted up. */
  function Times(limit: nat, n: nat): (r: nat)
    ensures r == limit * n
  {
    if n == 0 then 0 else Times(limit, n - 1) + limit
  }

  function Moved(b: Books, handed: set<nat>, window: set<nat>): Books {
    Books(b.folded + handed, b.windowed + window, b.late, b.advances + 1)
  }

  function Post(b: Books, s: State, e: Event, cfg: Settings): Books {
    if e.Compact? then
      if Advancing(s, e, cfg)
      then Moved(b, Ids(Handed(s, e.order, cfg)), Ids(Window(e.order, cfg.recentLimit)))
      else b
    else b.(late := b.late + LateIds(s, After(s, e, cfg)))
  }

  ghost function BooksAt(trace: seq<State>, events: seq<Event>, cfg: Settings, k: nat): Books
    requires |trace| == |events| + 1 && k <= |events|
  {
    if k == 0 then Books({}, {}, {}, 0) else Post(BooksAt(trace, events, cfg, k - 1), trace[k - 1], events[k - 1], cfg)
  }

  /** The row numbers below `n` are split over the four sets. */
  ghost predicate Partition(n: nat, a: set<nat>, b: set<nat>, c: set<nat>, d: set<nat>) {
    && a !! b && a !! c && a !! d && b !! c && b !! d && c !! d
    && forall k: nat {:trigger k in a} {:trigger k in b} {:trigger k in c} {:trigger k in d} ::
         k < n <==> k in a || k in b || k in c || k in d
  }

  /**
   The exact law: folded, windowed, late and newer rows are a partition of all rows, each advance
   accounts for `recentLimit` windowed rows, and every settled row is no newer than the last advance.
   */
  ghost predicate Balanced(s: State, b: Books, cfg: Settings) {
    && Consistent(s)
    && Partition(|s.rows|, b.folded, b.windowed, b.late, Newer(s))
    && |b.windowed| == Times(cfg.recentLimit, b.advances)
  }

  lemma InsertMoves(s: State, role: Role, content: string, createdAt: nat)
    ensures var after := AfterInsert(s, role, content, createdAt);
            if NewerThan(after.rows[|s.rows|], s.lastCompacted)
            then Newer(after) == Newer(s) + {|s.rows|} && LateIds(s, after) == {}
            else Newer(after) == Newer(s) && LateIds(s, after) == {|s.rows|}
  {
    var after := AfterInsert(s, role, content, createdAt);
    assert forall k | 0 <= k < |s.rows| :: after.rows[k] == s.rows[k];
  }

  lemma AddNewer(n: nat, a: set<nat>, b: set<nat>, c: set<nat>, d: set<nat>)
    requires Partition(n, a, b, c, d)
    ensures Partition(n + 1, a, b, c, d + {n})
    ensures Partition(n + 1, a, b, c + {n}, d)
  {
  }

  lemma InsertBalances(s: State, b: Books, role: Role, content: string, createdAt: nat, cfg: Settings)
    requires Balanced(s, b, cfg)
    ensures var after := AfterInsert(s, role, content, createdAt);
            Balanced(after, b.(late := b.late + LateIds(s, after)), cfg)
  {
    InsertMoves(s, role, content, createdAt);
    AddNewer(|s.rows|, b.folded, b.windowed, b.late, Newer(s));
    assert b.late + {} == b.late;
  }

  lemma ExchangeLate(s: State, e: Event)
    requires e.Exchange?
    ensures var mid := AfterInsert(s, User, e.user, e.t1);
            var after := AfterInsert(mid, Assistant, e.reply, e.t2);
            LateIds(s, after) == LateIds(s, mid) + LateIds(mid, after)
  {
    var mid := AfterInsert(s, User, e.user, e.t1);
    var after := AfterInsert(mid, Assistant, e.reply, e.t2);
    assert after.rows[|s.rows|] == mid.rows[|s.rows|];
  }

  lemma ExchangeBalances(s: State, b: Books, e: Event, cfg: Settings)
    requires Balanced(s, b, cfg) && e.Exchange?
    ensures Balanced(After(s, e, cfg), Post(b, s, e, cfg), cfg)
  {
    var mid := AfterInsert(s, User, e.user, e.t1);
    var booksMid := b.(late := b.late + LateIds(s, mid));
    InsertBalances(s, b, User, e.user, e.t1, cfg);
    InsertBalances(mid, booksMid, Assistant, e.reply, e.t2, cfg);
    ExchangeLate(s, e);
    var after := AfterInsert(mid, Assistant, e.reply, e.t2);
    assert b.late + LateIds(s, after) == booksMid.late + LateIds(mid, after);
  }

  /** Counting the ids of distinct rows counts the rows. */
  lemma {:induction false} IdsCount(ms: seq<Message>)
    requires forall i, j | 0 <= i < j < |ms| :: ms[i].id != ms[j].id
    ensures |Ids(ms)| == |ms|
  {
    if ms != [] {
      var n := |ms| - 1;
      var init := ms[..n];
      IdsCount(init);
      assert forall m :: m in ms <==> m in init || m == ms[n];
      assert Ids(ms) == Ids(init) + {ms[n].id};
    }
  }

  /** An injective list of |rows| row numbers names them all. */
  lemma EveryRowIsReturned(order: seq<Message>, rows: seq<Message>, k: nat)
    requires IsOrderOf(order, rows) && k < |rows|
    requires forall i | 0 <= i < |rows| :: rows[i].id == i
    ensures rows[k] in order
  {
    var all := UpTo(|rows|);
    IdsCount(order);
    if k !in Ids(order) {
      SubsetSize(Ids(order), all - {k});
      assert false;
    }
  }

  /** If anything is handed over, the whole window is newer than the last advance. */
  lemma WindowIsNewer(s: State, order: seq<Message>, cfg: Settings)
    requires IsOrderOf(order, s.rows) && Handed(s, order, cfg) != []
    ensures |Window(order, cfg.recentLimit)| == cfg.recentLimit
    ensures forall m :: m in Window(order, cfg.recentLimit) ==> NewerThan(m, s.lastCompacted)
  {
    var handed, window, older := Handed(s, order, cfg), Window(order, cfg.recentLimit), Older(order, cfg.recentLimit);
    assert handed[0] in handed;
    assert handed[0] in older;
    var i :| 0 <= i < |older| && older[i] == handed[0];
    forall m | m in window
      ensures NewerThan(m, s.lastCompacted)
    {
      var j :| 0 <= j < |window| && window[j] == m;
      assert order[i] == handed[0] && order[|older| + j] == m;
    }
  }

  lemma NewerIsHandedOrWindow(s: State, order: seq<Message>, cfg: Settings, k: nat)
    requires Consistent(s) && IsOrderOf(order, s.rows) && Handed(s, order, cfg) != [] && k in Newer(s)
    ensures k in Ids(Handed(s, order, cfg)) || k in Ids(Window(order, cfg.recentLimit))
  {
    EveryRowIsReturned(order, s.rows, k);
    assert order == Older(order, cfg.recentLimit) + Window(order, cfg.recentLimit);
    var m := s.rows[k];
    assert m in Older(order, cfg.recentLimit) || m in Window(order, cfg.recentLimit);
  }

  lemma HandedIsNewer(s: State, order: seq<Message>, cfg: Settings, m: Message)
    requires Consistent(s) && IsOrderOf(order, s.rows) && Handed(s, order, cfg) != []
    requires m in Handed(s, order, cfg) || m in Window(order, cfg.recentLimit)
    ensures m.id in Newer(s)
  {
    WindowIsNewer(s, order, cfg);
    assert order == Older(order, cfg.recentLimit) + Window(order, cfg.recentLimit);
    assert m in order;
  }

  lemma HandedIsNotInWindow(s: State, order: seq<Message>, cfg: Settings, m: Message, w: Message)
    requires IsOrderOf(order, s.rows) && m in Handed(s, order, cfg) && w in Window(order, cfg.recentLimit)
    ensures m.id != w.id
  {
    var window, older := Window(order, cfg.recentLimit), Older(order, cfg.recentLimit);
    var i :| 0 <= i < |older| && older[i] == m;
    var j :| 0 <= j < |window| && window[j] == w;
    assert order[i] == m && order[|older| + j] == w;
  }

  lemma WindowIsDistinct(order: seq<Message>, rows: seq<Message>, limit: nat)
    requires IsOrderOf(order, rows)
    ensures var window := Window(order, limit);
      forall i, j | 0 <= i < j < |window| :: window[i].id != window[j].id
  {
    var window, start := Window(order, limit), |Older(order, limit)|;
    forall i, j | 0 <= i < j < |window| ensures window[i].id != window[j].id {
      IdsDiffer(order, rows, start + i, start + j);
    }
  }

  lemma WindowCount(s: State, order: seq<Message>, cfg: Settings)
    requires IsOrderOf(order, s.rows) && Handed(s, order, cfg) != []
    ensures |Ids(Window(order, cfg.recentLimit))| == cfg.recentLimit
  {
    WindowIsNewer(s, order, cfg);
    WindowIsDistinct(order, s.rows, cfg.recentLimit);
    IdsCount(Window(order, cfg.recentLimit));
  }

  /** What a call hands over, with the window it leaves, is everything newer than the last advance. */
  lemma HandedAndWindowAreNewer(s: State, order: seq<Message>, cfg: Settings)
    requires Consistent(s) && IsOrderOf(order, s.rows) && Handed(s, order, cfg) != []
    ensures Ids(Handed(s, order, cfg)) + Ids(Window(order, cfg.recentLimit)) == Newer(s)
    ensures Ids(Handed(s, order, cfg)) !! Ids(Window(order, cfg.recentLimit))
  {
    var handed, window := Handed(s, order, cfg), Window(order, cfg.recentLimit);
    forall k | k in Newer(s)
      ensures k in Ids(handed) + Ids(window)
    {
      NewerIsHandedOrWindow(s, order, cfg, k);
    }
    forall m | m in handed || m in window
      ensures m.id in Newer(s)
    {
      HandedIsNewer(s, order, cfg, m);
    }
    forall m, w | m in handed && w in window
      ensures m.id != w.id
    {
      HandedIsNotInWindow(s, order, cfg, m, w);
    }
  }

  /** The rows handed over and those in the window are all the newer ones, and stay in the books. */
  lemma AdvanceMoves(s: State, b: Books, e: Event, cfg: Settings)
    requires Balanced(s, b, cfg) && Fits(s, e) && Advancing(s, e, cfg)
    ensures var after := Post(b, s, e, cfg);
      && Partition(|s.rows|, after.folded, after.windowed, after.late, {})
      && |after.windowed| == Times(cfg.recentLimit, after.advances)
  {
    HandedAndWindowAreNewer(s, e.order, cfg);
    WindowCount(s, e.order, cfg);
    var handed, window := Ids(Handed(s, e.order, cfg)), Ids(Window(e.order, cfg.recentLimit));
    MoveAll(|s.rows|, b, Newer(s), handed, window, cfg.recentLimit);
  }

  lemma NoneNewerIff(s: State, now: nat)
    requires s.lastCompacted == Some(now)
    ensures Newer(s) == {} <==> NoneAhead(s, now)
  {
    if k :| 0 <= k < |s.rows| && s.rows[k].createdAt > now {
      assert k in Newer(s);
    }
  }

  lemma NoRoomForMore(n: nat, a: set<nat>, b: set<nat>, c: set<nat>, d: set<nat>)
    requires Partition(n, a, b, c, {})
    ensures Partition(n, a, b, c, d) ==> d == {}
  {
  }

  lemma BalancedIffNone(s: State, b: Books, cfg: Settings)
    requires Consistent(s) && Partition(|s.rows|, b.folded, b.windowed, b.late, {})
    requires |b.windowed| == Times(cfg.recentLimit, b.advances)
    ensures Balanced(s, b, cfg) <==> Newer(s) == {}
  {
    NoRoomForMore(|s.rows|, b.folded, b.windowed, b.late, Newer(s));
  }

  lemma AdvanceKeepsRows(s: State, e: Event, cfg: Settings)
    requires Advancing(s, e, cfg) && Consistent(s)
    ensures var after := After(s, e, cfg);
      after.rows == s.rows && after.lastCompacted == Some(e.now) && Consistent(after)
  {
  }

  lemma AdvanceBalancesIff(s: State, b: Books, e: Event, cfg: Settings)
    requires Balanced(s, b, cfg) && Fits(s, e) && Advancing(s, e, cfg)
    ensures Balanced(After(s, e, cfg), Post(b, s, e, cfg), cfg) <==> NoneAhead(s, e.now)
  {
    AdvanceMoves(s, b, e, cfg);
    AdvanceKeepsRows(s, e, cfg);
    NoneNewerIff(After(s, e, cfg), e.now);
    BalancedIffNone(After(s, e, cfg), Post(b, s, e, cfg), cfg);
  }

  lemma MoveAll(n: nat, b: Books, newer: set<nat>, handed: set<nat>, window: set<nat>, limit: nat)
    requires Partition(n, b.folded, b.windowed, b.late, newer) && |b.windowed| == Times(limit, b.advances)
    requires handed + window == newer && handed !! window && |window| == limit
    ensures var after := Moved(b, handed, window);
      && Partition(n, after.folded, after.windowed, after.late, {})
      && |after.windowed| == Times(limit, after.advances)
  {
    assert b.windowed !! window;
    assert |b.windowed + window| == |b.windowed| + |window|;
  }

  /** What one event does to books that balance. */
  lemma EventBalances(s: State, b: Books, e: Event, cfg: Settings)
    requires Balanced(s, b, cfg) && Fits(s, e)
    ensures Balanced(After(s, e, cfg), Post(b, s, e, cfg), cfg)
       <==> (Advancing(s, e, cfg) ==> NoneAhead(s, e.now))
  {
    match e
    case Exchange(_, _, _, _) => ExchangeBalances(s, b, e, cfg);
    case Backfill(role, content, createdAt) => InsertBalances(s, b, role, content, createdAt, cfg);
    case Compact(_, _, _) => if Advancing(s, e, cfg) { AdvanceBalancesIff(s, b, e, cfg); }
  }

  lemma EventOf(trace: seq<State>, events: seq<Event>, cfg: Settings, k: nat)
    requires IsHistory(trace, events, cfg) && k < |events|
    ensures Fits(trace[k], events[k]) && trace[k + 1] == After(trace[k], events[k], cfg)
    ensures BooksAt(trace, events, cfg, k + 1) == Post(BooksAt(trace, events, cfg, k), trace[k], events[k], cfg)
  {
    assert IsStep(trace[k], events[k], trace[k + 1], cfg);
  }

  lemma {:induction false} BooksBalance(trace: seq<State>, events: seq<Event>, cfg: Settings, k: nat)
    requires IsHistory(trace, events, cfg) && k <= |events| && ClockHolds(trace, events, cfg, k)
    ensures Balanced(trace[k], BooksAt(trace, events, cfg, k), cfg)
  {
    if k == 0 {
      assert Newer(trace[0]) == {};
    } else {
      BooksBalance(trace, events, cfg, k - 1);
      EventOf(trace, events, cfg, k - 1);
      EventBalances(trace[k - 1], BooksAt(trace, events, cfg, k - 1), events[k - 1], cfg);
    }
  }

  /** The books balance all along a history if and only if no advance finds a row stamped after its own time. */
  lemma BooksBalanceIff(trace: seq<State>, events: seq<Event>, cfg: Settings, n: nat)
    requires IsHistory(trace, events, cfg) && n <= |events|
    ensures (forall k | 0 <= k <= n :: Balanced(trace[k], BooksAt(trace, events, cfg, k), cfg))
       <==> ClockHolds(trace, events, cfg, n)
  {
    if ClockHolds(trace, events, cfg, n) {
      forall k | 0 <= k <= n ensures Balanced(trace[k], BooksAt(trace, events, cfg, k), cfg) {
        BooksBalance(trace, events, cfg, k);
      }
    } else {
      var i :| 0 <= i < n && Advancing(trace[i], events[i], cfg) && !NoneAhead(trace[i], events[i].now);
      if Balanced(trace[i], BooksAt(trace, events, cfg, i), cfg) {
        EventOf(trace, events, cfg, i);
        EventBalances(trace[i], BooksAt(trace, events, cfg, i), events[i], cfg);
      }
    }
  }

  /** With any clock no row is passed over: it is newer than the last advance, or the books have it. */
  ghost predicate Covered(s: State, b: Books) {
    Consistent(s) && UpTo(|s.rows|) <= Newer(s) + b.folded + b.windowed + b.late
  }

  lemma {:induction false} EveryRowIsCovered(trace: seq<State>, events: seq<Event>, cfg: Settings, k: nat)
    requires IsHistory(trace, events, cfg) && k <= |events|
    ensures Covered(trace[k], BooksAt(trace, events, cfg, k))
  {
    if k == 0 {
      EmptyIsCovered(trace[0], BooksAt(trace, events, cfg, 0));
    } else {
      var j := k - 1;
      EveryRowIsCovered(trace, events, cfg, j);
      EventOf(trace, events, cfg, j);
      EventCovers(trace[j], BooksAt(trace, events, cfg, j), events[j], cfg);
    }
  }

  lemma EmptyIsCovered(s: State, b: Books)
    requires s.rows == [] && s.messageCount == 0
    ensures Covered(s, b)
  {
    assert UpTo(0) == {};
  }

  lemma EventCovers(s: State, b: Books, e: Event, cfg: Settings)
    requires Covered(s, b) && Fits(s, e)
    ensures Covered(After(s, e, cfg), Post(b, s, e, cfg))
  {
    RowsStay(s, e, cfg);
    if Advancing(s, e, cfg) {
      HandedAndWindowAreNewer(s, e.order, cfg);
    } else if !e.Compact? {
      var after, books := After(s, e, cfg), Post(b, s, e, cfg);
      forall k | k in UpTo(|after.rows|)
        ensures k in Newer(after) + books.folded + books.windowed + books.late
      {
        if k < |s.rows| {
          assert after.rows[k] == s.rows[k];
          assert k in UpTo(|s.rows|) && (k in Newer(s) <==> k in Newer(after));
        }
      }
    }
  }

  /** Rows are only added, and only an advance moves the bound. */
  lemma RowsStay(s: State, e: Event, cfg: Settings)
    ensures s.rows <= After(s, e, cfg).rows && (Consistent(s) ==> Consistent(After(s, e, cfg)))
    ensures After(s, e, cfg).lastCompacted == if Advancing(s, e, cfg) then Some(e.now) else s.lastCompacted
  {
  }

  lemma PartitionCount(n: nat, a: set<nat>, b: set<nat>, c: set<nat>, d: set<nat>)
    requires Partition(n, a, b, c, d)
    ensures n == |a| + |b| + |c| + |d|
  {
    var ab := a + b;
    var abc := ab + c;
    assert |ab| == |a| + |b|;
    assert |abc| == |ab| + |c|;
    assert abc !! d;
    assert |abc + d| == |abc| + |d|;
    assert abc + d == UpTo(n);
  }

  /** The law in numbers; `late` is empty when every row is stamped after the last advance. */
  lemma Conservation(trace: seq<State>, events: seq<Event>, cfg: Settings, k: nat)
    requires IsHistory(trace, events, cfg) && k <= |events| && ClockHolds(trace, events, cfg, k)
    ensures var b := BooksAt(trace, events, cfg, k);
            && trace[k].messageCount == |trace[k].rows|
            && |trace[k].rows| == |b.folded| + cfg.recentLimit * b.advances + |Newer(trace[k])| + |b.late|
  {
    BooksBalance(trace, events, cfg, k);
    var b := BooksAt(trace, events, cfg, k);
    PartitionCount(|trace[k].rows|, b.folded, b.windowed, b.late, Newer(trace[k]));
  }

  /* ---- at most once ---- */

  lemma {:induction false} BooksGrow(trace: seq<State>, events: seq<Event>, cfg: Settings, j: nat, k: nat)
    requires |trace| == |events| + 1 && j <= k <= |events|
    ensures BooksAt(trace, events, cfg, j).folded <= BooksAt(trace, events, cfg, k).folded
    ensures BooksAt(trace, events, cfg, j).windowed <= BooksAt(trace, events, cfg, k).windowed
    ensures BooksAt(trace, events, cfg, j).late <= BooksAt(trace, events, cfg, k).late
    decreases k
  {
    if j < k {
      BooksGrow(trace, events, cfg, j, k - 1);
    }
  }

  /**
   While no advance finds a row stamped after its own time: once a message has been folded, has been in the
   window of an advance, or was written late, no later compaction hands it to the summariser, whether that
   compaction advances or not.
   */
  lemma SettledIsNeverHanded(trace: seq<State>, events: seq<Event>, cfg: Settings, j: nat, k: nat)
    requires IsHistory(trace, events, cfg) && j <= k < |events| && events[k].Compact?
    requires ClockHolds(trace, events, cfg, k)
    ensures var b := BooksAt(trace, events, cfg, j);
            Ids(Handed(trace[k], events[k].order, cfg)) !! b.folded + b.windowed + b.late
  {
    BooksBalance(trace, events, cfg, k);
    BooksGrow(trace, events, cfg, j, k);
    if Handed(trace[k], events[k].order, cfg) != [] {
      EventOf(trace, events, cfg, k);
      HandedAndWindowAreNewer(trace[k], events[k].order, cfg);
    }
  }

  /** The last advance between an advance and a later point set the bound that holds there. */
  ghost function Advanced(trace: seq<State>, events: seq<Event>, cfg: Settings): (flags: seq<bool>)
    requires |trace| == |events| + 1
    ensures |flags| == |events| && forall i | 0 <= i < |events| :: flags[i] == Advancing(trace[i], events[i], cfg)
  {
    seq(|events|, i requires 0 <= i < |events| => Advancing(trace[i], events[i], cfg))
  }

  lemma LastAdvance(trace: seq<State>, events: seq<Event>, cfg: Settings, j: nat, k: nat) returns (a: nat)
    requires IsHistory(trace, events, cfg) && j < k <= |events| && Advanced(trace, events, cfg)[j]
    ensures IsLastAdvance(trace, events, cfg, j, k, a)
  {
    var flags := Advanced(trace, events, cfg);
    forall i | 0 <= i < |flags|
      ensures trace[i + 1].lastCompacted == if flags[i] then Some(events[i].now) else trace[i].lastCompacted
    {
      EventOf(trace, events, cfg, i);
      RowsStay(trace[i], events[i], cfg);
    }
    a := LastTrue(flags, j, k);
    BoundStays(trace, flags, a + 1, k);
  }

  lemma {:induction false} LastTrue(flags: seq<bool>, j: nat, k: nat) returns (a: nat)
    requires j < k <= |flags| && flags[j]
    ensures j <= a < k && flags[a] && forall i | a < i < k :: !flags[i]
    decreases k
  {
    a := k - 1;
    if !flags[k - 1] {
      a := LastTrue(flags, j, k - 1);
    }
  }

  lemma {:induction false} BoundStays(trace: seq<State>, flags: seq<bool>, j: nat, k: nat)
    requires |trace| == |flags| + 1 && j <= k <= |flags| && forall i | j <= i < k :: !flags[i]
    requires forall i | 0 <= i < |flags| && !flags[i] :: trace[i + 1].lastCompacted == trace[i].lastCompacted
    ensures trace[k].lastCompacted == trace[j].lastCompacted
    decreases k
  {
    if j < k {
      BoundStays(trace, flags, j, k - 1);
      assert !flags[k - 1] && trace[k - 1 + 1].lastCompacted == trace[k - 1].lastCompacted;
    }
  }

  ghost predicate IsLastAdvance(trace: seq<State>, events: seq<Event>, cfg: Settings, j: nat, k: nat, a: nat)
    requires |trace| == |events| + 1 && k <= |events|
  {
    && j <= a < k && events[a].Compact? && trace[k].lastCompacted == Some(events[a].now)
    && Advanced(trace, events, cfg)[a] && forall i | a < i < k :: !Advanced(trace, events, cfg)[i]
  }

  /** The message is not among the last `limit` rows. */
  ghost predicate IsOutside(m: Message, order: seq<Message>, limit: nat) {
    limit > 0 && exists i | 0 <= i < |order| - limit :: order[i] == m
  }

  lemma OutsideIs(m: Message, order: seq<Message>, limit: nat)
    ensures m in Older(order, limit) <==> IsOutside(m, order, limit)
  {
    var older := Older(order, limit);
    if i :| 0 <= i < |order| - limit && order[i] == m {
      assert limit > 0 ==> older[i] == m;
    }
    if i :| 0 <= i < |older| && older[i] == m {
      assert order[i] == m;
    }
  }

  /**
   Whatever the clock does: a message that an advancing call handed over goes to a later call if and only if
   that call is over a limit, the message is outside its window, and it is stamped after the time of the last
   advance before it.
   */
  lemma HandedAgainIff(trace: seq<State>, events: seq<Event>, cfg: Settings, j: nat, k: nat, m: Message)
    returns (a: nat)
    requires IsHistory(trace, events, cfg) && j < k < |events| && events[k].Compact?
    requires Advancing(trace[j], events[j], cfg) && m in Handed(trace[j], events[j].order, cfg)
    ensures IsLastAdvance(trace, events, cfg, j, k, a)
    ensures m in Handed(trace[k], events[k].order, cfg)
       <==> && OverLimit(trace[k], events[k].order, cfg) && IsOutside(m, events[k].order, cfg.recentLimit)
            && m.createdAt > events[a].now
  {
    CharsAre(events[k].order);
    OutsideIs(m, events[k].order, cfg.recentLimit);
    a := LastAdvance(trace, events, cfg, j, k);
  }

  /** So no message is folded twice as long as no advance from the first call on goes back behind its stamp. */
  lemma FoldedAtMostOnce(trace: seq<State>, events: seq<Event>, cfg: Settings, j: nat, k: nat)
    requires IsHistory(trace, events, cfg) && j < k < |events| && events[k].Compact?
    requires Advancing(trace[j], events[j], cfg)
    requires forall i, m | j <= i < k && Advancing(trace[i], events[i], cfg)
                           && m in Handed(trace[j], events[j].order, cfg) :: m.createdAt <= events[i].now
    ensures Ids(Handed(trace[j], events[j].order, cfg)) !! Ids(Handed(trace[k], events[k].order, cfg))
  {
    forall m, n | m in Handed(trace[j], events[j].order, cfg) && n in Handed(trace[k], events[k].order, cfg)
      ensures m.id != n.id
    {
      HandedIsRow(trace, events, cfg, j, m);
      HandedIsRow(trace, events, cfg, k, n);
      RowsGrow(trace, events, cfg, j, k);
      var a := HandedAgainIff(trace, events, cfg, j, k, m);
    }
  }

  lemma HandedIsRow(trace: seq<State>, events: seq<Event>, cfg: Settings, k: nat, m: Message)
    requires IsHistory(trace, events, cfg) && k < |events| && events[k].Compact?
    requires m in Handed(trace[k], events[k].order, cfg)
    ensures m.id < |trace[k].rows| && m == trace[k].rows[m.id]
  {
    EventOf(trace, events, cfg, k);
    var older := Older(events[k].order, cfg.recentLimit);
    var i :| 0 <= i < |older| && older[i] == m;
    assert events[k].order[i] == m;
  }

  lemma {:induction false} RowsGrow(trace: seq<State>, events: seq<Event>, cfg: Settings, j: nat, k: nat)
    requires IsHistory(trace, events, cfg) && j <= k <= |events|
    ensures trace[j].rows <= trace[k].rows
    decreases k
  {
    if j < k {
      RowsGrow(trace, events, cfg, j, k - 1);
      EventOf(trace, events, cfg, k - 1);
      RowsStay(trace[k - 1], events[k - 1], cfg);
    }
  }

  function TwoRows(): seq<Message> {
    [Message(0, User, "a", 5), Message(1, Assistant, "b", 6)]
  }

  /** A compaction of these rows at time 3. */
  function SetBack(): Event {
    Compact(TwoRows(), Reply("s", "s", []), 3)
  }

  lemma SetBackAdvances(s: State, cfg: Settings)
    requires cfg == Settings(1, 0, 0, 10) && s.rows == TwoRows() && s.messageCount == 2
    requires s.lastCompacted.None? || s.lastCompacted == Some(3)
    ensures Handed(s, TwoRows(), cfg) == [TwoRows()[0]] && Advancing(s, SetBack(), cfg)
    ensures IsStep(s, SetBack(), State(TwoRows(), 2, "s", Some(3)), cfg)
  {
    var older := Older(TwoRows(), cfg.recentLimit);
    assert older == [TwoRows()[0]] && older[..0] == [];
    assert NewOlder([], s.lastCompacted) == [];
  }

  /**
   A clock set back folds a message twice: an exchange stamped 5 and 6, then two compactions at time 3 with a
   window of one message; both advance, and both hand over the first message.
   */
  lemma ClockSetBackFoldsTwice() returns (trace: seq<State>, events: seq<Event>, cfg: Settings)
    ensures IsHistory(trace, events, cfg) && |events| == 3 && events[1] == events[2] == SetBack()
    ensures Advancing(trace[1], SetBack(), cfg) && Advancing(trace[2], SetBack(), cfg)
    ensures Handed(trace[1], TwoRows(), cfg) == Handed(trace[2], TwoRows(), cfg) == [TwoRows()[0]]
  {
    cfg := Settings(1, 0, 0, 10);
    var before, after := State(TwoRows(), 2, "", None), State(TwoRows(), 2, "s", Some(3));
    FirstRows(cfg);
    SetBackAdvances(before, cfg);
    SetBackAdvances(after, cfg);
    trace, events := CompactTwice(before, after, Exchange("a", "b", 5, 6), SetBack(), cfg);
  }

  lemma FirstRows(cfg: Settings)
    ensures IsStep(State([], 0, "", None), Exchange("a", "b", 5, 6), State(TwoRows(), 2, "", None), cfg)
  {
  }

  lemma CompactTwice(before: State, after: State, first: Event, compact: Event, cfg: Settings)
    returns (trace: seq<State>, events: seq<Event>)
    requires IsStep(State([], 0, "", None), first, before, cfg)
    requires IsStep(before, compact, after, cfg) && IsStep(after, compact, after, cfg)
    ensures IsHistory(trace, events, cfg) && events == [first, compact, compact]
    ensures |trace| == 4 && trace[1] == before && trace[2] == after
  {
    trace, events := [State([], 0, "", None), before, after, after], [first, compact, compact];
  }

  lemma {:induction false} SummaryIsStored(trace: seq<State>, events: seq<Event>, cfg: Settings, k: nat)
    requires IsHistory(trace, events, cfg) && k <= |events|
    ensures Capped(trace[k].summary, cfg.summaryCap) == trace[k].summary
  {
    if k > 0 {
      SummaryIsStored(trace, events, cfg, k - 1);
      EventOf(trace, events, cfg, k - 1);
      if events[k - 1].Compact? {
        CapIsStable(Compacted(trace[k - 1].summary, events[k - 1].answer).0, cfg.summaryCap);
      }
    }
  }

  /**
   A failed call still moves the bound exactly when the thread already has a summary: its messages
   are then counted as folded although the summary stays as it was.
   */
  lemma FailedCallFoldsSilently(trace: seq<State>, events: seq<Event>, cfg: Settings, k: nat)
    requires IsHistory(trace, events, cfg) && k < |events| && events[k].Compact? && events[k].answer.NoReply?
    requires Handed(trace[k], events[k].order, cfg) != []
    ensures Advances(trace[k], events[k].order, cfg, NoReply) <==> trace[k].summary != ""
    ensures trace[k + 1].summary == trace[k].summary
    ensures trace[k].summary != "" ==>
              && trace[k + 1].lastCompacted == Some(events[k].now)
              && Ids(Handed(trace[k], events[k].order, cfg)) <= BooksAt(trace, events, cfg, k + 1).folded
  {
    SummaryIsStored(trace, events, cfg, k);
    EventOf(trace, events, cfg, k);
  }

  /** A thread that has a summary keeps one, whatever the summariser answers later. */
  lemma {:induction false} SummaryIsNeverLost(trace: seq<State>, events: seq<Event>, cfg: Settings, j: nat, k: nat)
    requires IsHistory(trace, events, cfg) && j <= k <= |events| && trace[j].summary != ""
    ensures trace[k].summary != ""
  {
    if j < k {
      SummaryIsNeverLost(trace, events, cfg, j, k - 1);
      EventOf(trace, events, cfg, k - 1);
    }
  }
}
