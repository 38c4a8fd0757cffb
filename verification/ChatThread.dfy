/**
 The short-term memory of one assistant thread: message rows, the running summary and the bound
 `lastCompacted` up to which messages have been summarised. The summariser's reply, the clock and
 the order in which the database returns equal time stamps are parameters.
 */
module ChatThread {
  import opened Options
  import opened Text

  datatype Role = User | Assistant

  datatype Message = Message(id: nat, role: Role, content: string, createdAt: nat)

  datatype Settings = Settings(recentLimit: nat, messageThreshold: nat, charThreshold: nat, summaryCap: nat)

  datatype RawFact = RawFact(key: string, fact: string)

  /** One call of the summariser: nothing came back, or the stripped text and what was parsed from it. */
  datatype Reply = NoReply | Reply(text: string, summary: string, facts: seq<RawFact>)

  /** The thread's rows in id order and its own columns; an absent summary is the empty string. */
  datatype State = State(rows: seq<Message>, messageCount: nat, summary: string, lastCompacted: Option<nat>)

  /* ---- summary text ---- */

  function Capped(summary: string, cap: nat): string {
    if |summary| > cap then RStrip(summary[..cap]) + " \U{2026}" else summary
  }

  /** Storing a stored summary again changes nothing, and the cap is exceeded by the ellipsis alone. */
  lemma CapIsStable(summary: string, cap: nat)
    ensures |Capped(summary, cap)| <= cap + 2
    ensures Capped(Capped(summary, cap), cap) == Capped(summary, cap)
  {
    if |summary| > cap {
      var base := RStrip(summary[..cap]);
      var stored := base + " \U{2026}";
      if |stored| > cap {
        var again := RStrip(stored[..cap]);
        if |base| == cap {
          assert stored[..cap] == base;
        } else {
          assert stored[..cap] == base + " ";
          RStripAfter(base);
        }
        assert again == base;
      }
    }
  }

  lemma RStripAfter(base: string)
    requires base == [] || !IsSpace(base[|base| - 1])
    ensures RStrip(base + " ") == base
  {
    assert (base + " ")[..|base + " "| - 1] == base;
  }

  /** The summary and facts taken from a reply: a failed call keeps the old summary. */
  function Compacted(existing: string, reply: Reply): (string, seq<RawFact>) {
    match reply
    case NoReply => (existing, [])
    case Reply(text, summary, facts) =>
      if summary == "" && facts == [] then (text, [])
      else (if summary == "" then existing else summary, facts)
  }

  /* ---- which messages are handed over ---- */

  ghost predicate Chronological(ms: seq<Message>) {
    forall i, j | 0 <= i < j < |ms| :: ms[i].createdAt <= ms[j].createdAt
  }

  /** What a query ordered by creation time may return: every row once, equal times in any order. */
  ghost predicate IsOrderOf(order: seq<Message>, rows: seq<Message>) {
    && |order| == |rows|
    && Chronological(order)
    && (forall i | 0 <= i < |order| :: order[i].id < |rows| && order[i] == rows[order[i].id])
    && (forall i, j | 0 <= i < j < |order| :: order[i].id != order[j].id)
  }

  function Ids(ms: seq<Message>): (ids: set<nat>)
    ensures forall m :: m in ms ==> m.id in ids
    ensures forall id :: id in ids ==> exists m :: m in ms && m.id == id
  {
    set m | m in ms :: m.id
  }

  function Window(order: seq<Message>, limit: nat): seq<Message> {
    if 0 < limit < |order| then order[|order| - limit..] else order
  }

  function Older(order: seq<Message>, limit: nat): seq<Message> {
    if 0 < limit < |order| then order[..|order| - limit] else []
  }

  predicate NewerThan(m: Message, last: Option<nat>) {
    last.None? || m.createdAt > last.value
  }

  function NewOlder(older: seq<Message>, last: Option<nat>): (r: seq<Message>)
    ensures forall m :: m in r <==> m in older && NewerThan(m, last)
  {
    if older == [] then []
    else NewOlder(older[..|older| - 1], last)
         + if NewerThan(older[|older| - 1], last) then [older[|older| - 1]] else []
  }

  function Chars(ms: seq<Message>): nat {
    if ms == [] then 0 else Chars(ms[..|ms| - 1]) + |ms[|ms| - 1].content|
  }

  /** The messages a call of `maybe_compact_thread` gives to the summariser; none when it returns early. */
  function Handed(s: State, order: seq<Message>, cfg: Settings): (handed: seq<Message>)
    ensures forall m :: m in handed
              <==> OverThreshold(s, order, cfg) && m in Older(order, cfg.recentLimit) && NewerThan(m, s.lastCompacted)
  {
    if !OverThreshold(s, order, cfg) then [] else NewOlder(Older(order, cfg.recentLimit), s.lastCompacted)
  }

  predicate OverThreshold(s: State, order: seq<Message>, cfg: Settings) {
    s.messageCount > cfg.messageThreshold || |s.summary| + Chars(order) > cfg.charThreshold
  }

  predicate Advances(s: State, order: seq<Message>, cfg: Settings, reply: Reply) {
    Handed(s, order, cfg) != [] && Compacted(s.summary, reply).0 != ""
  }

  function AfterCompaction(s: State, order: seq<Message>, cfg: Settings, reply: Reply, now: nat): State {
    if Advances(s, order, cfg, reply)
    then s.(summary := Capped(Compacted(s.summary, reply).0, cfg.summaryCap), lastCompacted := Some(now))
    else s
  }

  function AfterInsert(s: State, role: Role, content: string, createdAt: nat): State {
    s.(rows := s.rows + [Message(|s.rows|, role, content, createdAt)], messageCount := s.messageCount + 1)
  }

  function AfterExchange(s: State, user: string, reply: string, t1: nat, t2: nat): State {
    AfterInsert(AfterInsert(s, User, user, t1), Assistant, reply, t2)
  }

  /** Row ids count up from 0 and `message_count` is the number of rows. */
  predicate Consistent(s: State) {
    s.messageCount == |s.rows| && forall k | 0 <= k < |s.rows| :: s.rows[k].id == k
  }

  class Thread {
    var rows: seq<Message>
    var messageCount: nat
    var summary: string
    var lastCompacted: Option<nat>
    const settings: Settings

    function View(): State
      reads this
    {
      State(rows, messageCount, summary, lastCompacted)
    }

    constructor (settings: Settings)
      ensures View() == State([], 0, "", None) && this.settings == settings
    {
      rows, messageCount, summary, lastCompacted := [], 0, "", None;
      this.settings := settings;
    }

    /** Both rows and the counter go in with one commit. */
    method PersistExchange(user: string, reply: string, t1: nat, t2: nat)
      requires Consistent(View())
      modifies this
      ensures View() == AfterExchange(old(View()), user, reply, t1, t2) && Consistent(View())
    {
      rows := rows + [Message(|rows|, User, user, t1)];
      rows := rows + [Message(|rows|, Assistant, reply, t2)];
      messageCount := messageCount + 2;
    }

    /** `order` is the database's answer; `facts` go on to the session's long-term memory. */
    method MaybeCompact(order: seq<Message>, reply: Reply, now: nat) returns (facts: seq<RawFact>)
      requires Consistent(View()) && IsOrderOf(order, rows)
      modifies this
      ensures View() == AfterCompaction(old(View()), order, settings, reply, now)
      ensures facts == if Handed(old(View()), order, settings) == [] then [] else Compacted(old(summary), reply).1
      ensures CompactsAsDue(old(View()), View(), order, settings, reply, now, facts)
    {
      CompactionIs(View(), order, settings, reply, now);
      facts := [];
      var limit := settings.recentLimit;
      if |order| <= limit {
        return;
      }
      var older := OutsideWindow(order, rows, limit);
      if older == [] {
        return;
      }
      var newOlder := NotYetFolded(older, lastCompacted);
      if newOlder == [] {
        return;
      }
      var chars := CountChars(order);
      if messageCount <= settings.messageThreshold && |summary| + chars <= settings.charThreshold {
        return;
      }
      var (newSummary, newFacts) := Compacted(summary, reply);
      if newSummary != "" {
        if |newSummary| > settings.summaryCap {
          newSummary := RStrip(newSummary[..settings.summaryCap]) + " \U{2026}";
        }
        summary := newSummary;
        lastCompacted := Some(now);
      }
      facts := newFacts;
    }
  }

  /** An exchange adds the user's message and then the reply, each with its own time, and counts both. */
  lemma ExchangeIs(s: State, user: string, reply: string, t1: nat, t2: nat)
    ensures var n, after := |s.rows|, AfterExchange(s, user, reply, t1, t2);
      && after.rows == s.rows + [Message(n, User, user, t1), Message(n + 1, Assistant, reply, t2)]
      && after.messageCount == s.messageCount + 2
      && after.summary == s.summary && after.lastCompacted == s.lastCompacted
  {
  }

  /** The contents of messages, one after the other. */
  ghost function Joined(ms: seq<Message>): string {
    if ms == [] then [] else Joined(ms[..|ms| - 1]) + ms[|ms| - 1].content
  }

  lemma {:induction false} CharsAre(ms: seq<Message>)
    ensures Chars(ms) == |Joined(ms)|
  {
    if ms != [] {
      CharsAre(ms[..|ms| - 1]);
    }
  }

  /** Row `i` of the answer is outside the window of recent rows and stamped after the last advance. */
  predicate IsNewOlder(s: State, order: seq<Message>, cfg: Settings, i: nat) {
    && cfg.recentLimit > 0 && i + cfg.recentLimit < |order|
    && (s.lastCompacted.None? || order[i].createdAt > s.lastCompacted.value)
  }

  /** The thread is over a limit, by its message counter or by the characters of its summary and all messages. */
  ghost predicate OverLimit(s: State, order: seq<Message>, cfg: Settings) {
    s.messageCount > cfg.messageThreshold || |s.summary| + |Joined(order)| > cfg.charThreshold
  }

  ghost predicate IsDue(s: State, order: seq<Message>, cfg: Settings) {
    OverLimit(s, order, cfg) && exists i: nat :: IsNewOlder(s, order, cfg, i)
  }

  /** The new summary, cut at the cap: its first characters, without spaces at their end, and an ellipsis. */
  ghost predicate IsStoredAs(summary: string, stored: string, cap: nat) {
    if |summary| <= cap then stored == summary
    else exists n | 0 <= n <= cap ::
           && stored == summary[..n] + " \U{2026}"
           && (n > 0 ==> !IsSpace(summary[n - 1])) && forall i | n <= i < cap :: IsSpace(summary[i])
  }

  /**
   The whole effect of a call: nothing at all unless it is due. When it is, the summary of the reply is stored,
   cut, and the bound is now; the facts of the reply are passed on. A reply without a summary keeps the old one;
   one without facts either is a summary itself; and no reply keeps the old one and has no facts. Only with no
   summary at all the bound stays.
   */
  ghost predicate CompactsAsDue(s: State, after: State, order: seq<Message>, cfg: Settings, reply: Reply, now: nat,
                                facts: seq<RawFact>) {
    && after.rows == s.rows && after.messageCount == s.messageCount
    && (!IsDue(s, order, cfg) ==> after == s && facts == [])
    && (IsDue(s, order, cfg) ==>
          && (reply.Reply? ==> facts == reply.facts) && (reply.NoReply? ==> facts == [])
          && var summary := if reply.Reply? && reply.summary != "" then reply.summary
                            else if reply.Reply? && reply.facts == [] then reply.text
                            else s.summary;
             if summary == "" then after == s
             else after.lastCompacted == Some(now) && IsStoredAs(summary, after.summary, cfg.summaryCap))
  }

  lemma CappedIs(summary: string, cap: nat)
    ensures IsStoredAs(summary, Capped(summary, cap), cap)
  {
    if |summary| > cap {
      var base := RStrip(summary[..cap]);
      assert summary[..|base|] == base;
      assert forall i | |base| <= i < cap :: summary[i] == summary[..cap][i];
    }
  }

  /** A call is due exactly when something is handed over. */
  lemma DueIff(s: State, order: seq<Message>, cfg: Settings)
    ensures Handed(s, order, cfg) != [] <==> IsDue(s, order, cfg)
  {
    CharsAre(order);
    var older := Older(order, cfg.recentLimit);
    if Handed(s, order, cfg) != [] {
      var m := Handed(s, order, cfg)[0];
      assert m in Handed(s, order, cfg);
      var i :| 0 <= i < |older| && older[i] == m;
      assert IsNewOlder(s, order, cfg, i);
    }
    if i: nat :| OverLimit(s, order, cfg) && IsNewOlder(s, order, cfg, i) {
      assert older[i] == order[i] && order[i] in Handed(s, order, cfg);
    }
  }

  /** Which messages are handed over when a call is due: the newer ones outside the window, in their order. */
  lemma HandedAre(s: State, order: seq<Message>, cfg: Settings) returns (at: seq<nat>)
    requires IsDue(s, order, cfg)
    ensures AreAt(Handed(s, order, cfg), order, at)
    ensures forall n: nat :: n in at <==> IsNewOlder(s, order, cfg, n)
  {
    CharsAre(order);
    at := NewOlderAre(Older(order, cfg.recentLimit), s.lastCompacted);
  }

  /** These rows of a list, in their order. */
  ghost predicate AreAt(picked: seq<Message>, ms: seq<Message>, at: seq<nat>) {
    && |picked| == |at| && (forall i | 0 <= i < |at| :: at[i] < |ms| && picked[i] == ms[at[i]])
    && forall i, j | 0 <= i < j < |at| :: at[i] < at[j]
  }

  lemma OneMoreAt(picked: seq<Message>, ms: seq<Message>, at: seq<nat>, m: Message)
    requires AreAt(picked, ms, at)
    ensures AreAt(picked, ms + [m], at) && AreAt(picked + [m], ms + [m], at + [|ms|])
  {
  }

  lemma {:induction false} NewOlderAre(older: seq<Message>, last: Option<nat>) returns (at: seq<nat>)
    ensures AreAt(NewOlder(older, last), older, at)
    ensures forall n: nat :: n in at <==> n < |older| && (last.None? || older[n].createdAt > last.value)
  {
    at := [];
    if older != [] {
      var n := |older| - 1;
      at := NewOlderAre(older[..n], last);
      at := NewOlderStep(older, last, at);
    }
  }

  lemma NewOlderStep(older: seq<Message>, last: Option<nat>, before: seq<nat>) returns (at: seq<nat>)
    requires older != [] && AreAt(NewOlder(older[..|older| - 1], last), older[..|older| - 1], before)
    requires forall n: nat :: n in before <==>
               n < |older| - 1 && (last.None? || older[..|older| - 1][n].createdAt > last.value)
    ensures AreAt(NewOlder(older, last), older, at)
    ensures forall n: nat :: n in at <==> n < |older| && (last.None? || older[n].createdAt > last.value)
  {
    var n := |older| - 1;
    var init, m := older[..n], older[n];
    assert older == init + [m];
    OneMoreAt(NewOlder(init, last), init, before, m);
    if last.None? || m.createdAt > last.value {
      at := before + [n];
    } else {
      at := before;
      assert NewOlder(init, last) + [] == NewOlder(init, last);
    }
  }

  lemma CompactionIs(s: State, order: seq<Message>, cfg: Settings, reply: Reply, now: nat)
    ensures CompactsAsDue(s, AfterCompaction(s, order, cfg, reply, now), order, cfg, reply, now,
                          if Handed(s, order, cfg) == [] then [] else Compacted(s.summary, reply).1)
  {
    DueIff(s, order, cfg);
    CappedIs(Compacted(s.summary, reply).0, cfg.summaryCap);
  }

  /** The rows whose id is not among the ids of the last `limit` rows. */
  method OutsideWindow(order: seq<Message>, ghost rows: seq<Message>, limit: nat) returns (older: seq<Message>)
    requires IsOrderOf(order, rows) && |order| > limit
    ensures older == Older(order, limit)
  {
    var recent := if limit == 0 then order else order[|order| - limit..];
    var recentIds := Ids(recent);
    older := [];
    ghost var cut := |Older(order, limit)|;
    for i := 0 to |order|
      invariant older == FirstOf(order, cut, i)
    {
      WindowIds(order, rows, limit, i);
      FirstOneMore(order, cut, i);
      if order[i].id !in recentIds {
        older := older + [order[i]];
      }
    }
  }

  /** What of the first `i` rows is among the first `cut`. */
  ghost function FirstOf(order: seq<Message>, cut: nat, i: nat): seq<Message>
    requires cut <= |order| && i <= |order|
  {
    order[..if i <= cut then i else cut]
  }

  lemma FirstOneMore(order: seq<Message>, cut: nat, i: nat)
    requires cut <= |order| && i < |order|
    ensures FirstOf(order, cut, i + 1) == FirstOf(order, cut, i) + if i < cut then [order[i]] else []
  {
  }

  method NotYetFolded(older: seq<Message>, last: Option<nat>) returns (newOlder: seq<Message>)
    ensures newOlder == NewOlder(older, last)
  {
    newOlder := [];
    for i := 0 to |older|
      invariant newOlder == NewOlder(older[..i], last)
    {
      assert older[..i + 1][..i] == older[..i];
      if NewerThan(older[i], last) {
        newOlder := newOlder + [older[i]];
      }
    }
    assert older[..|older|] == older;
  }

  method CountChars(ms: seq<Message>) returns (chars: nat)
    ensures chars == Chars(ms)
  {
    chars := 0;
    for i := 0 to |ms|
      invariant chars == Chars(ms[..i])
    {
      assert ms[..i + 1][..i] == ms[..i];
      chars := chars + |ms[i].content|;
    }
    assert ms[..|ms|] == ms;
  }

  /** A message is in the recent window exactly when its position is among the last `limit`. */
  lemma WindowIds(order: seq<Message>, rows: seq<Message>, limit: nat, i: nat)
    requires IsOrderOf(order, rows) && |order| > limit && i < |order|
    ensures order[i].id in Ids(Window(order, limit)) <==> i >= |Older(order, limit)|
  {
    var window := Window(order, limit);
    var start := |Older(order, limit)|;
    assert window == order[start..];
    if i >= start {
      assert window[i - start] == order[i];
    } else {
      forall m | m in window ensures m.id != order[i].id {
        var j :| 0 <= j < |window| && window[j] == m;
        IdsDiffer(order, rows, i, start + j);
      }
    }
  }

  lemma IdsDiffer(order: seq<Message>, rows: seq<Message>, i: nat, j: nat)
    requires IsOrderOf(order, rows) && i < j < |order|
    ensures order[i].id != order[j].id
  {
  }
}
