/**
 The re-runnable migration of the legacy chat tables into assistant threads. A run may be cut between any
 two of its statements: what was not committed is rolled back, and the next run starts over from the rest.
 `clock(n)` is the time at which thread number n would be created, any times at all.
 */
module Backfill {
  import opened Options
  import opened ChatThread
  import opened AssistantStore

  datatype CustomerMsg = CustomerMsg(customer: int, role: Role, createdAt: nat, content: string)
  datatype ClaimMsg = ClaimMsg(claim: int, role: Role, createdAt: nat, content: string)
  datatype AgentMsg = AgentMsg(agent: int, claim: Option<int>, role: Role, createdAt: nat, content: string)

  /** The thread a legacy message belongs to. */
  datatype Target = General(key: SessionKey) | OfClaim(key: SessionKey, claim: int)

  datatype Item = Item(target: Target, role: Role, createdAt: nat, content: string)

  function CustomerKey(customer: int): SessionKey {
    SessionKey(CustomerOwner, customer, CustomerCopilot)
  }

  function AgentKey(agent: int): SessionKey {
    SessionKey(AgentOwner, agent, ExpertCopilot)
  }

  function CustomerItem(m: CustomerMsg): Item {
    Item(General(CustomerKey(m.customer)), m.role, m.createdAt, m.content)
  }

  function ClaimItem(m: ClaimMsg, customer: int): Item {
    Item(OfClaim(CustomerKey(customer), m.claim), m.role, m.createdAt, m.content)
  }

  /** A claim id of 0 counts as none. */
  function AgentItem(m: AgentMsg): Item {
    Item(if m.claim.Some? && m.claim.value != 0 then OfClaim(AgentKey(m.agent), m.claim.value)
         else General(AgentKey(m.agent)), m.role, m.createdAt, m.content)
  }

  ghost predicate IsThreadFor(db: Db, session: nat, target: Target, t: nat) {
    && session < |db.sessions| && db.sessions[session] == target.key
    && (target.General? ==> IsDefault(db, session, t))
    && (target.OfClaim? ==> IsClaimThread(db, session, target.claim, t))
  }

  ghost predicate IsTarget(db: Db, target: Target, t: nat) {
    exists s: nat :: IsThreadFor(db, s, target, t)
  }

  predicate HasKey(rows: seq<Row>, t: nat, role: Role, createdAt: nat) {
    exists i | 0 <= i < |rows| :: rows[i].thread == t && rows[i].role == role && rows[i].createdAt == createdAt
  }

  /** The message's (thread, role, time) key is in the table. */
  ghost predicate Migrated(db: Db, item: Item) {
    exists t :: IsTarget(db, item.target, t) && HasKey(db.rows, t, item.role, item.createdAt)
  }

  ghost predicate HasGeneral(db: Db, key: SessionKey) {
    exists t :: IsTarget(db, General(key), t)
  }

  lemma TargetIsStable(a: Db, b: Db, target: Target, t: nat)
    requires KeepsGenerals(a, b) && IsTarget(a, target, t)
    ensures IsTarget(b, target, t)
  {
    var s: nat :| IsThreadFor(a, s, target, t);
    if target.General? { DefaultIsKept(a, b, s, t); }
    assert IsThreadFor(b, s, target, t);
  }

  lemma KeepsOn(a: Db, b: Db, c: Db)
    requires KeepsGenerals(a, b) && KeepsGenerals(b, c)
    ensures KeepsGenerals(a, c)
  {
    forall s: nat, t: nat, u: nat | IsGeneral(a, s, t) && IsGeneral(c, s, u) ensures u < |a.threads| {
      assert IsGeneral(b, s, t);
      assert IsGeneral(b, s, u);
    }
  }

  /** What is migrated stays migrated, whatever is added short of a second general thread. */
  lemma MigratedIsStable(a: Db, b: Db, item: Item)
    requires KeepsGenerals(a, b)
    ensures Migrated(a, item) ==> Migrated(b, item)
    ensures HasGeneral(a, item.target.key) ==> HasGeneral(b, item.target.key)
  {
    if Migrated(a, item) {
      var t :| IsTarget(a, item.target, t) && HasKey(a.rows, t, item.role, item.createdAt);
      TargetIsStable(a, b, item.target, t);
      KeyStays(a.rows, b.rows, t, item.role, item.createdAt);
    }
    if HasGeneral(a, item.target.key) {
      var t :| IsTarget(a, General(item.target.key), t);
      TargetIsStable(a, b, General(item.target.key), t);
    }
  }

  lemma KeyStays(a: seq<Row>, b: seq<Row>, t: nat, role: Role, createdAt: nat)
    requires a <= b && HasKey(a, t, role, createdAt)
    ensures HasKey(b, t, role, createdAt)
  {
    var i :| 0 <= i < |a| && a[i].thread == t && a[i].role == role && a[i].createdAt == createdAt;
    assert b[i] == a[i];
  }

  /** The key is in every thread that the queries may find for the message; there may be two equally old ones. */
  ghost predicate Settled(db: Db, item: Item) {
    && (exists t :: IsTarget(db, item.target, t))
    && (forall t | IsTarget(db, item.target, t) :: HasKey(db.rows, t, item.role, item.createdAt))
  }

  /** A migrated message is settled when its target is the only one. */
  lemma MigratedIsSettled(db: Db, item: Item)
    requires Migrated(db, item) && forall t, u | IsTarget(db, item.target, t) && IsTarget(db, item.target, u) :: t == u
    ensures Settled(db, item)
  {
  }

  /** `_already_migrated` looks at committed rows only; a row that is not there is added and counted. */
  method MigrateOne(store: Store, t: nat, item: Item)
    requires store.Valid() && t < |store.threads| && IsTarget(store.Full(), item.target, t)
    modifies store
    ensures store.Valid() && KeepsGenerals(old(store.Full()), store.Full())
    ensures store.Committed() == old(store.Committed()) && store.saved == old(store.saved)
    ensures Migrated(store.Full(), item)
    ensures if HasKey(old(store.rows), t, item.role, item.createdAt)
            then store.pending == old(store.pending) && store.counts == old(store.counts)
            else store.pending == old(store.pending) + [Row(t, item.role, item.createdAt, item.content)]
  {
    ghost var before := store.Full();
    if HasKey(store.rows, t, item.role, item.createdAt) {
      KeyStays(store.rows, before.rows, t, item.role, item.createdAt);
      return;
    }
    store.Add(Row(t, item.role, item.createdAt, item.content));
    assert store.Full().rows == before.rows + [Row(t, item.role, item.createdAt, item.content)];
    TargetIsStable(before, store.Full(), item.target, t);
    assert store.Full().rows[|before.rows|].thread == t;
  }

  /** What one phase promises for a message: its key is there, and for customers and agents a general thread. */
  ghost predicate Done(db: Db, item: Option<Item>, withGeneral: bool) {
    item.Some? ==> Migrated(db, item.value) && (withGeneral ==> HasGeneral(db, item.value.target.key))
  }

  ghost predicate AllDone(db: Db, items: seq<Option<Item>>, withGeneral: bool) {
    forall j | 0 <= j < |items| :: Done(db, items[j], withGeneral)
  }

  /** Nothing is left to do for the message, whichever of equally old threads a query returns. */
  ghost predicate Quiet(db: Db, item: Option<Item>, withGeneral: bool) {
    item.Some? ==> Settled(db, item.value) && (withGeneral ==> HasGeneral(db, item.value.target.key))
  }

  ghost predicate AllQuiet(db: Db, items: seq<Option<Item>>, withGeneral: bool) {
    forall j | 0 <= j < |items| :: Quiet(db, items[j], withGeneral)
  }

  /** The dicts of a phase hold what the queries would find. */
  ghost predicate CachesHold(db: Db, sessions: map<SessionKey, nat>, threads: map<Target, nat>, withGeneral: bool) {
    && (forall k <- sessions :: sessions[k] < |db.sessions| && db.sessions[sessions[k]] == k)
    && (forall k <- sessions :: withGeneral ==> General(k) in threads)
    && (forall t <- threads :: IsTarget(db, t, threads[t]))
  }

  lemma CachesStay(a: Db, b: Db, sessions: map<SessionKey, nat>, threads: map<Target, nat>, withGeneral: bool)
    requires KeepsGenerals(a, b) && CachesHold(a, sessions, threads, withGeneral)
    ensures CachesHold(b, sessions, threads, withGeneral)
  {
    forall t | t in threads
      ensures IsTarget(b, t, threads[t])
    {
      TargetIsStable(a, b, t, threads[t]);
    }
  }

  /**
   The new session, if any, is of the key, and so are the new threads: a general one or that of the target's
   claim.
   */
  ghost predicate AddsOnlyFor(a: Db, b: Db, target: Target) {
    && KeepsGenerals(a, b)
    && (b.sessions == a.sessions || (target.key !in a.sessions && b.sessions == a.sessions + [target.key]))
    && (forall u | |a.threads| <= u < |b.threads| ::
          && b.threads[u].session < |b.sessions| && b.sessions[b.threads[u].session] == target.key
          && (b.threads[u].claim.Some? ==> target.OfClaim? && b.threads[u].claim == Some(target.claim)))
  }

  lemma AddsOn(a: Db, b: Db, c: Db, target: Target)
    requires AddsOnlyFor(a, b, target) && AddsOnlyFor(b, c, target)
    ensures AddsOnlyFor(a, c, target)
  {
    KeepsOn(a, b, c);
    forall u | |a.threads| <= u < |c.threads|
      ensures c.threads[u].session < |c.sessions| && c.sessions[c.threads[u].session] == target.key
      ensures c.threads[u].claim.Some? ==> target.OfClaim? && c.threads[u].claim == Some(target.claim)
    {
      if u < |b.threads| {
        assert c.threads[u] == b.threads[u];
      }
    }
  }

  /** The statements of one message: find or add its session, its general thread and its thread, then the row. */
  datatype Step = BeforeSession | AfterSession | AfterGeneral | AfterThread

  /** Where a phase breaks off; from the last message on, before its commit. */
  datatype Stop = Never | At(message: nat, step: Step)

  /** The session of a key and, for customers and agents, its general thread, into the dicts. */
  method EnsureSession(store: Store, target: Target, withGeneral: bool, sessions: map<SessionKey, nat>,
                       threads: map<Target, nat>, sessionOnly: bool, clock: nat -> nat)
    returns (sessions': map<SessionKey, nat>, threads': map<Target, nat>)
    requires store.Valid() && CachesHold(store.Full(), sessions, threads, withGeneral)
    modifies store
    ensures store.Valid() && AddsOnlyFor(old(store.Full()), store.Full(), target)
    ensures store.rows + store.pending == old(store.rows + store.pending) && old(store.rows) <= store.rows
    ensures !sessionOnly ==> CachesHold(store.Full(), sessions', threads', withGeneral) && target.key in sessions'
    ensures !sessionOnly && withGeneral ==> HasGeneral(store.Full(), target.key)
    ensures target.key in old(store.sessions) && (withGeneral ==> HasGeneral(old(store.Full()), target.key)) ==>
              store.Unchanged(old(store.Committed()), old(store.pending), old(store.counts), old(store.saved))
  {
    sessions', threads' := sessions, threads;
    if target.key in sessions {
      CachedGeneral(store.Full(), sessions, threads, withGeneral, target.key);
      return;
    }
    ghost var db := store.Full();
    var id := SessionOf(store, target);
    if sessionOnly {
      return;
    }
    ghost var mid := store.Full();
    if withGeneral {
      var g := GeneralOf(store, target, id, clock(|store.threads|));
      threads' := threads'[General(target.key) := g];
    }
    sessions' := sessions'[target.key := id];
    AddsOn(db, mid, store.Full(), target);
    CacheSession(db, store.Full(), sessions, threads, withGeneral, target.key, id, threads');
  }

  lemma CachedGeneral(db: Db, sessions: map<SessionKey, nat>, threads: map<Target, nat>, withGeneral: bool,
                      key: SessionKey)
    requires CachesHold(db, sessions, threads, withGeneral) && key in sessions
    ensures withGeneral ==> HasGeneral(db, key)
  {
    if withGeneral {
      assert IsTarget(db, General(key), threads[General(key)]);
    }
  }

  lemma CacheSession(a: Db, b: Db, sessions: map<SessionKey, nat>, threads: map<Target, nat>, withGeneral: bool,
                     key: SessionKey, id: nat, threads': map<Target, nat>)
    requires KeepsGenerals(a, b) && CachesHold(a, sessions, threads, withGeneral)
    requires id < |b.sessions| && b.sessions[id] == key
    requires if withGeneral
             then General(key) in threads' && threads' == threads[General(key) := threads'[General(key)]]
                  && IsTarget(b, General(key), threads'[General(key)])
             else threads' == threads
    ensures CachesHold(b, sessions[key := id], threads', withGeneral)
    ensures withGeneral ==> HasGeneral(b, key)
  {
    CachesStay(a, b, sessions, threads, withGeneral);
  }

  method SessionOf(store: Store, target: Target) returns (id: nat)
    requires store.Valid()
    modifies store
    ensures store.Valid() && AddsOnlyFor(old(store.Full()), store.Full(), target)
    ensures store.rows + store.pending == old(store.rows + store.pending) && old(store.rows) <= store.rows
    ensures id < |store.sessions| && store.sessions[id] == target.key
    ensures store.threads == old(store.threads) && old(store.sessions) <= store.sessions
    ensures target.key in old(store.sessions) ==>
              store.Unchanged(old(store.Committed()), old(store.pending), old(store.counts), old(store.saved))
  {
    ghost var db := store.Full();
    id := store.GetOrCreateSession(target.key);
    assert forall s: nat, t: nat :: IsGeneral(db, s, t) == IsGeneral(store.Full(), s, t);
  }

  method GeneralOf(store: Store, target: Target, id: nat, now: nat) returns (g: nat)
    requires store.Valid() && id < |store.sessions| && store.sessions[id] == target.key
    modifies store
    ensures store.Valid() && AddsOnlyFor(old(store.Full()), store.Full(), target)
    ensures store.rows + store.pending == old(store.rows + store.pending) && old(store.rows) <= store.rows
    ensures store.sessions == old(store.sessions) && IsTarget(store.Full(), General(target.key), g)
    ensures HasGeneral(old(store.Full()), target.key) ==>
              store.Unchanged(old(store.Committed()), old(store.pending), old(store.counts), old(store.saved))
  {
    GeneralOfSession(store.Full(), target.key, id);
    g := store.GeneralThread(id, now);
    assert IsThreadFor(store.Full(), id, General(target.key), g);
  }

  lemma GeneralOfSession(db: Db, key: SessionKey, id: nat)
    requires WellFormed(db) && id < |db.sessions| && db.sessions[id] == key
    ensures HasGeneral(db, key) ==> exists u: nat :: IsGeneral(db, id, u)
  {
    if HasGeneral(db, key) {
      var u :| IsTarget(db, General(key), u);
      var s: nat :| IsThreadFor(db, s, General(key), u);
      assert s == id;
      assert IsGeneral(db, id, u);
    }
  }

  lemma ClaimThreadOfSession(db: Db, target: Target, id: nat)
    requires WellFormed(db) && id < |db.sessions| && db.sessions[id] == target.key && target.OfClaim?
    ensures (exists u :: IsTarget(db, target, u)) ==> exists u: nat :: IsClaimThread(db, id, target.claim, u)
  {
    if u :| IsTarget(db, target, u) {
      var s: nat :| IsThreadFor(db, s, target, u);
      assert s == id;
      assert IsClaimThread(db, id, target.claim, u);
    }
  }

  /** The message's thread: from the dicts, or looked up, or created. */
  method Locate(store: Store, target: Target, withGeneral: bool, sessions: map<SessionKey, nat>,
                threads: map<Target, nat>, clock: nat -> nat)
    returns (t: nat, threads': map<Target, nat>)
    requires store.Valid() && CachesHold(store.Full(), sessions, threads, withGeneral)
    requires target.key in sessions && (withGeneral || target.OfClaim?)
    modifies store
    ensures store.Valid() && AddsOnlyFor(old(store.Full()), store.Full(), target)
    ensures store.rows + store.pending == old(store.rows + store.pending) && old(store.rows) <= store.rows
    ensures CachesHold(store.Full(), sessions, threads', withGeneral)
    ensures t < |store.threads| && IsTarget(store.Full(), target, t)
    ensures (exists u :: IsTarget(old(store.Full()), target, u)) ==>
              store.Unchanged(old(store.Committed()), old(store.pending), old(store.counts), old(store.saved))
  {
    if target in threads {
      return threads[target], threads;
    }
    var id := sessions[target.key];
    ghost var db := store.Full();
    ClaimThreadOfSession(db, target, id);
    t := store.ClaimThread(id, target.claim, clock(|store.threads|));
    CacheThread(db, store.Full(), sessions, threads, withGeneral, target, id, t);
    threads' := threads[target := t];
  }

  lemma CacheThread(a: Db, b: Db, sessions: map<SessionKey, nat>, threads: map<Target, nat>, withGeneral: bool,
                    target: Target, id: nat, t: nat)
    requires KeepsGenerals(a, b) && CachesHold(a, sessions, threads, withGeneral)
    requires IsThreadFor(b, id, target, t)
    ensures IsTarget(b, target, t) && CachesHold(b, sessions, threads[target := t], withGeneral)
  {
    CachesStay(a, b, sessions, threads, withGeneral);
  }

  ghost predicate IsCopy(db: Db, row: Row, item: Option<Item>) {
    && item.Some? && IsTarget(db, item.value.target, row.thread)
    && row == Row(row.thread, item.value.role, item.value.createdAt, item.value.content)
  }

  lemma DoneStays(a: Db, b: Db, items: seq<Option<Item>>, withGeneral: bool)
    requires KeepsGenerals(a, b) && AllDone(a, items, withGeneral)
    ensures AllDone(b, items, withGeneral)
  {
    forall j | 0 <= j < |items|
      ensures Done(b, items[j], withGeneral)
    {
      assert Done(a, items[j], withGeneral);
      if items[j].Some? { MigratedIsStable(a, b, items[j].value); }
    }
  }

  /** At most one row more: the copy of the message, whose key was not among the committed rows. */
  ghost predicate AddsAtMost(a: Db, b: Db, committed: seq<Row>, item: Option<Item>) {
    b.rows == a.rows || AddsCopy(a, b, committed, item)
  }

  ghost predicate AddsCopy(a: Db, b: Db, committed: seq<Row>, item: Option<Item>) {
    && |b.rows| == |a.rows| + 1 && a.rows <= b.rows
    && IsCopy(b, b.rows[|a.rows|], item)
    && !HasKey(committed, b.rows[|a.rows|].thread, b.rows[|a.rows|].role, b.rows[|a.rows|].createdAt)
  }

  /** Every query finds something: the session, its general thread where one is looked for, and the thread. */
  ghost predicate Known(db: Db, target: Target, withGeneral: bool) {
    && target.key in db.sessions && (withGeneral ==> HasGeneral(db, target.key))
    && exists u :: IsTarget(db, target, u)
  }

  ghost predicate SameThreads(a: Db, b: Db) {
    a.sessions == b.sessions && a.threads == b.threads
  }

  ghost predicate AllKnown(db: Db, items: seq<Option<Item>>, withGeneral: bool) {
    forall j | 0 <= j < |items| && items[j].Some? :: Known(db, items[j].value.target, withGeneral)
  }

  /** The thread of a message, unless `step` breaks off before it is there. */
  method FindThread(store: Store, target: Target, withGeneral: bool, sessions: map<SessionKey, nat>,
                    threads: map<Target, nat>, step: Option<Step>, clock: nat -> nat)
    returns (found: Option<nat>, sessions': map<SessionKey, nat>, threads': map<Target, nat>)
    requires store.Valid() && CachesHold(store.Full(), sessions, threads, withGeneral)
    requires withGeneral || target.OfClaim?
    modifies store
    ensures store.Valid() && AddsOnlyFor(old(store.Full()), store.Full(), target)
    ensures store.rows + store.pending == old(store.rows + store.pending) && old(store.rows) <= store.rows
    ensures found.Some? <==> step.None? || step.value.AfterThread?
    ensures found.Some? ==>
      && CachesHold(store.Full(), sessions', threads', withGeneral)
      && found.value < |store.threads| && IsTarget(store.Full(), target, found.value)
      && (withGeneral ==> HasGeneral(store.Full(), target.key))
    ensures Known(old(store.Full()), target, withGeneral) ==>
              store.Unchanged(old(store.Committed()), old(store.pending), old(store.counts), old(store.saved))
  {
    found, sessions', threads' := None, sessions, threads;
    if step.Some? && step.value.BeforeSession? {
      return;
    }
    ghost var full := store.Full();
    var sessionOnly := step.Some? && step.value.AfterSession?;
    sessions', threads' := EnsureSession(store, target, withGeneral, sessions, threads, sessionOnly, clock);
    ghost var mid := store.Full();
    if step.Some? && !step.value.AfterThread? {
      return;
    }
    var t;
    t, threads' := Locate(store, target, withGeneral, sessions', threads', clock);
    AddsOn(full, mid, store.Full(), target);
    if HasGeneral(mid, target.key) { GeneralStays(mid, store.Full(), target.key); }
    found := Some(t);
  }

  lemma GeneralStays(a: Db, b: Db, key: SessionKey)
    requires KeepsGenerals(a, b) && HasGeneral(a, key)
    ensures HasGeneral(b, key)
  {
    var t :| IsTarget(a, General(key), t);
    TargetIsStable(a, b, General(key), t);
  }

  /** One legacy message: find its thread, copy it unless its key is already committed; `step` may break it off. */
  method MigrateItem(store: Store, item: Item, withGeneral: bool, sessions: map<SessionKey, nat>,
                     threads: map<Target, nat>, step: Option<Step>, clock: nat -> nat)
    returns (sessions': map<SessionKey, nat>, threads': map<Target, nat>)
    requires store.Valid() && CachesHold(store.Full(), sessions, threads, withGeneral)
    requires withGeneral || item.target.OfClaim?
    modifies store
    ensures store.Valid() && AddsOnlyFor(old(store.Full()), store.Full(), item.target) && old(store.rows) <= store.rows
    ensures AddsAtMost(old(store.Full()), store.Full(), old(store.rows), Some(item))
    ensures step.None? ==> CachesHold(store.Full(), sessions', threads', withGeneral)
    ensures step.None? ==> Done(store.Full(), Some(item), withGeneral)
    ensures Known(old(store.Full()), item.target, withGeneral) ==> SameThreads(old(store.Full()), store.Full())
    ensures Quiet(old(store.Committed()), Some(item), withGeneral) ==>
              store.Unchanged(old(store.Committed()), old(store.pending), old(store.counts), old(store.saved))
  {
    ghost var committed, full := store.Committed(), store.Full();
    ghost var quiet := Quiet(committed, Some(item), withGeneral);
    if quiet { QuietIsKnown(committed, full, item, withGeneral); }
    var found;
    found, sessions', threads' := FindThread(store, item.target, withGeneral, sessions, threads, step, clock);
    if step.Some? || found.None? {
      return;
    }
    var t := found.value;
    ghost var located, rows := store.Full(), store.rows;
    if quiet { QuietHasKey(committed, located, item, t); }
    MigrateOne(store, t, item);
    CopyIsAdded(full, located, store.Full(), committed.rows, rows, item, t, HasKey(rows, t, item.role, item.createdAt));
    AddsOn(full, located, store.Full(), item.target);
    CachesStay(located, store.Full(), sessions', threads', withGeneral);
    if withGeneral { GeneralStays(located, store.Full(), item.target.key); }
  }

  lemma CopyIsAdded(full: Db, located: Db, after: Db, committed: seq<Row>, rows: seq<Row>, item: Item, t: nat,
                    keyed: bool)
    requires located.rows == full.rows && KeepsGenerals(located, after) && IsTarget(located, item.target, t)
    requires committed <= rows && keyed == HasKey(rows, t, item.role, item.createdAt)
    requires after.rows
          == if keyed then located.rows else located.rows + [Row(t, item.role, item.createdAt, item.content)]
    ensures AddsAtMost(full, after, committed, Some(item))
  {
    TargetIsStable(located, after, item.target, t);
    if !keyed && HasKey(committed, t, item.role, item.createdAt) {
      KeyStays(committed, rows, t, item.role, item.createdAt);
    }
  }

  lemma QuietIsKnown(committed: Db, full: Db, item: Item, withGeneral: bool)
    requires KeepsGenerals(committed, full) && committed.threads == full.threads && committed.sessions == full.sessions
    requires Quiet(committed, Some(item), withGeneral)
    ensures Known(full, item.target, withGeneral)
  {
    var u :| IsTarget(committed, item.target, u);
    var s: nat :| IsThreadFor(committed, s, item.target, u);
    assert committed.sessions[s] == item.target.key;
    TargetIsStable(committed, full, item.target, u);
    MigratedIsStable(committed, full, item);
  }

  /** With the same sessions and threads the targets are the same. */
  lemma SameTargets(a: Db, b: Db, target: Target, t: nat)
    requires SameThreads(a, b)
    ensures IsTarget(a, target, t) == IsTarget(b, target, t)
  {
    forall s: nat ensures IsThreadFor(a, s, target, t) == IsThreadFor(b, s, target, t) {
      assert forall u: nat :: IsGeneral(a, s, u) == IsGeneral(b, s, u);
    }
  }

  lemma KnownStays(a: Db, b: Db, items: seq<Option<Item>>, withGeneral: bool)
    requires SameThreads(a, b) && AllKnown(a, items, withGeneral)
    ensures AllKnown(b, items, withGeneral)
  {
    forall j | 0 <= j < |items| && items[j].Some? ensures Known(b, items[j].value.target, withGeneral) {
      var target := items[j].value.target;
      assert Known(a, target, withGeneral);
      forall t: nat ensures IsTarget(a, target, t) == IsTarget(b, target, t)
                         && IsTarget(a, General(target.key), t) == IsTarget(b, General(target.key), t)
      {
        SameTargets(a, b, target, t);
        SameTargets(a, b, General(target.key), t);
      }
    }
  }

  lemma QuietHasKey(committed: Db, located: Db, item: Item, t: nat)
    requires committed.sessions == located.sessions && committed.threads == located.threads
    requires Settled(committed, item) && IsTarget(located, item.target, t)
    ensures HasKey(committed.rows, t, item.role, item.createdAt)
  {
    SameTargets(committed, located, item.target, t);
  }

  /* ---- a phase ---- */

  /**
   `sources` names the legacy message that each row added since `a` was copied from, one after the other: so
   each message adds at most one row, in the query's order, and none whose key was in the table before.
   */
  ghost predicate AddedFrom(a: Db, b: Db, items: seq<Option<Item>>, sources: seq<nat>) {
    && a.rows <= b.rows && |b.rows| == |a.rows| + |sources|
    && (forall i, j | 0 <= i < j < |sources| :: sources[i] < sources[j])
    && (forall i | 0 <= i < |sources| :: sources[i] < |items| && CopyOf(a, b, items[sources[i]], |a.rows| + i))
  }

  ghost predicate CopyOf(a: Db, b: Db, item: Option<Item>, k: nat) {
    && k < |b.rows| && IsCopy(b, b.rows[k], item)
    && !HasKey(a.rows, b.rows[k].thread, b.rows[k].role, b.rows[k].createdAt)
  }

  ghost predicate AddedOnce(a: Db, b: Db, items: seq<Option<Item>>) {
    exists sources: seq<nat> :: AddedFrom(a, b, items, sources)
  }

  lemma CopyStays(a: Db, b: Db, c: Db, item: Option<Item>, k: nat)
    requires CopyOf(a, b, item, k) && KeepsGenerals(b, c)
    ensures CopyOf(a, c, item, k)
  {
    TargetIsStable(b, c, item.value.target, b.rows[k].thread);
  }

  lemma CopyIsNew(a: Db, b: Db, c: Db, item: Option<Item>, k: nat)
    requires a.rows <= b.rows && CopyOf(b, c, item, k)
    ensures CopyOf(a, c, item, k)
  {
    if HasKey(a.rows, c.rows[k].thread, c.rows[k].role, c.rows[k].createdAt) {
      KeyStays(a.rows, b.rows, c.rows[k].thread, c.rows[k].role, c.rows[k].createdAt);
    }
  }

  /** Two stretches of messages after each other. */
  lemma AddedJoins(a: Db, b: Db, c: Db, first: seq<Option<Item>>, second: seq<Option<Item>>)
    requires KeepsGenerals(b, c) && AddedOnce(a, b, first) && AddedOnce(b, c, second)
    ensures AddedOnce(a, c, first + second)
  {
    var p: seq<nat> :| AddedFrom(a, b, first, p);
    var q: seq<nat> :| AddedFrom(b, c, second, q);
    var moved: seq<nat> := seq(|q|, i requires 0 <= i < |q| => q[i] + |first|);
    var sources: seq<nat> := p + moved;
    forall i | 0 <= i < |sources|
      ensures sources[i] < |first + second| && CopyOf(a, c, (first + second)[sources[i]], |a.rows| + i)
    {
      if i < |p| {
        CopyStays(a, b, c, first[p[i]], |a.rows| + i);
      } else {
        CopyIsNew(a, b, c, second[q[i - |p|]], |b.rows| + (i - |p|));
      }
    }
    assert AddedFrom(a, c, first + second, sources);
  }

  lemma NothingAdded(a: Db, b: Db)
    requires a.rows == b.rows
    ensures AddedOnce(a, b, [])
  {
    assert AddedFrom(a, b, [], []);
  }

  lemma OneAdded(a: Db, b: Db, committed: seq<Row>, start: Db, item: Option<Item>)
    requires AddsAtMost(a, b, committed, item) && start.rows <= committed && a.rows <= b.rows && start.rows <= a.rows
    ensures b.rows == a.rows || CopyOf(start, b, item, |a.rows|)
  {
    if b.rows != a.rows {
      var row := b.rows[|a.rows|];
      if HasKey(start.rows, row.thread, row.role, row.createdAt) {
        KeyStays(start.rows, committed, row.thread, row.role, row.createdAt);
      }
    }
  }

  /** One more message, which adds at most one row. */
  lemma AddedGrows(start: Db, a: Db, b: Db, items: seq<Option<Item>>, item: Option<Item>, committed: seq<Row>)
    requires AddedOnce(start, a, items) && KeepsGenerals(a, b)
    requires AddsAtMost(a, b, committed, item) && start.rows <= committed
    ensures AddedOnce(start, b, items + [item])
  {
    var p: seq<nat> :| AddedFrom(start, a, items, p);
    OneAdded(a, b, committed, start, item);
    forall i | 0 <= i < |p| ensures CopyOf(start, b, items[p[i]], |start.rows| + i) {
      CopyStays(start, a, b, items[p[i]], |start.rows| + i);
    }
    if b.rows == a.rows {
      assert AddedFrom(start, b, items + [item], p);
    } else {
      assert AddedFrom(start, b, items + [item], p + [|items|]);
    }
  }

  lemma MoreItems(a: Db, b: Db, items: seq<Option<Item>>, more: seq<Option<Item>>)
    requires AddedOnce(a, b, items)
    ensures AddedOnce(a, b, items + more)
  {
    var p: seq<nat> :| AddedFrom(a, b, items, p);
    assert AddedFrom(a, b, items + more, p);
  }

  /** What a rollback keeps of it: the committed rows are the first ones. */
  lemma PrefixAdded(a: Db, full: Db, committed: Db, items: seq<Option<Item>>)
    requires AddedOnce(a, full, items) && a.rows <= committed.rows <= full.rows
    requires committed.sessions == full.sessions && committed.threads == full.threads
    ensures AddedOnce(a, committed, items)
  {
    var p: seq<nat> :| AddedFrom(a, full, items, p);
    var sources: seq<nat> := p[..|committed.rows| - |a.rows|];
    forall i | 0 <= i < |sources| ensures CopyOf(a, committed, items[sources[i]], |a.rows| + i) {
      var k := |a.rows| + i;
      assert CopyOf(a, full, items[p[i]], k);
      SameTargets(full, committed, items[p[i]].value.target, full.rows[k].thread);
    }
    assert AddedFrom(a, committed, items, sources);
  }

  lemma CommittedAndFull(store: Store)
    requires store.Valid()
    ensures WellFormed(store.Committed()) && KeepsGenerals(store.Committed(), store.Full())
    ensures forall a: Db | KeepsGenerals(a, store.Full()) && a.rows <= store.rows :: KeepsGenerals(a, store.Committed())
  {
    var committed, full := store.Committed(), store.Full();
    assert forall r <- store.rows :: r in store.rows + store.pending;
    assert forall s: nat, u: nat :: IsGeneral(committed, s, u) == IsGeneral(full, s, u);
  }

  /** The invariant of a phase after `n` messages, from the committed state `start`. */
  ghost predicate Progress(start: Db, full: Db, items: seq<Option<Item>>, n: nat, withGeneral: bool) {
    && n <= |items| && KeepsGenerals(start, full)
    && AllDone(full, items[..n], withGeneral)
    && AddedOnce(start, full, items[..n])
    && (AllKnown(start, items, withGeneral) ==> SameThreads(start, full))
  }

  /** One message leaves sessions and threads alone when it knows its own. */
  ghost predicate AddsNoneIfKnown(a: Db, b: Db, item: Option<Item>, withGeneral: bool) {
    item.None? || Known(a, item.value.target, withGeneral) ==> SameThreads(a, b)
  }

  lemma KnownAddsNone(start: Db, a: Db, b: Db, items: seq<Option<Item>>, n: nat, withGeneral: bool)
    requires Progress(start, a, items, n, withGeneral) && n < |items|
    requires AddsNoneIfKnown(a, b, items[n], withGeneral)
    ensures AllKnown(start, items, withGeneral) ==> SameThreads(start, b)
  {
    if AllKnown(start, items, withGeneral) {
      KnownStays(start, a, items, withGeneral);
    }
  }

  lemma ProgressOneMore(start: Db, a: Db, b: Db, items: seq<Option<Item>>, n: nat, withGeneral: bool,
                        committed: seq<Row>)
    requires Progress(start, a, items, n, withGeneral) && n < |items| && KeepsGenerals(a, b)
    requires Done(b, items[n], withGeneral) && AddsNoneIfKnown(a, b, items[n], withGeneral)
    requires AddsAtMost(a, b, committed, items[n]) && start.rows <= committed
    ensures Progress(start, b, items, n + 1, withGeneral)
  {
    KnownAddsNone(start, a, b, items, n, withGeneral);
    DoneStays(a, b, items[..n], withGeneral);
    AddedGrows(start, a, b, items[..n], items[n], committed);
    KeepsOn(start, a, b);
    assert items[..n + 1] == items[..n] + [items[n]];
  }

  /**
   What every phase does, cut or not: the tables grow, each message adds at most one row of a new key, and no
   session or thread is added where every message already has its own.
   */
  ghost predicate PhaseEffect(start: Db, after: Db, items: seq<Option<Item>>, withGeneral: bool) {
    && KeepsGenerals(start, after) && AddedOnce(start, after, items)
    && (AllQuiet(start, items, withGeneral) ==> after == start)
    && (AllKnown(start, items, withGeneral) ==> SameThreads(start, after))
  }

  /** One of the three legacy tables, in its query order. After a cut nothing is read, and the caller rolls back. */
  method Phase(store: Store, items: seq<Option<Item>>, withGeneral: bool, stop: Stop, clock: nat -> nat)
    returns (ok: bool)
    requires store.Valid() && store.Clean()
    requires forall j | 0 <= j < |items| && items[j].Some? :: withGeneral || items[j].value.target.OfClaim?
    modifies store
    ensures store.Valid() && PhaseEffect(old(store.Committed()), store.Committed(), items, withGeneral)
    ensures ok == stop.Never?
    ensures ok ==> store.Clean() && AllDone(store.Committed(), items, withGeneral)
  {
    ghost var start := store.Committed();
    assert store.Full() == start by { assert store.rows + store.pending == store.rows; }
    NothingAdded(start, start);
    var sessions: map<SessionKey, nat>, threads: map<Target, nat> := map[], map[];
    for n := 0 to |items|
      invariant store.Valid() && start.rows <= store.rows
      invariant Progress(start, store.Full(), items, n, withGeneral)
      invariant CachesHold(store.Full(), sessions, threads, withGeneral)
      invariant AllQuiet(start, items, withGeneral) ==> store.Committed() == start && store.Clean()
    {
      var here := if stop.At? && stop.message == n then Some(stop.step) else None;
      ghost var before, committed := store.Full(), store.rows;
      assert AllQuiet(start, items, withGeneral) ==> Quiet(start, items[n], withGeneral);
      if items[n].Some? {
        sessions, threads := MigrateItem(store, items[n].value, withGeneral, sessions, threads, here, clock);
      }
      if here.Some? {
        CutIsFine(start, before, store, items, n, withGeneral, committed);
        return false;
      }
      ProgressOneMore(start, before, store.Full(), items, n, withGeneral, committed);
    }
    assert items[..|items|] == items;
    if stop.At? {
      CommittedAndFull(store);
      PrefixAdded(start, store.Full(), store.Committed(), items);
      return false;
    }
    store.Commit();
    return true;
  }

  lemma CutIsFine(start: Db, before: Db, store: Store, items: seq<Option<Item>>, n: nat, withGeneral: bool,
                  committed: seq<Row>)
    requires store.Valid() && n < |items| && start.rows <= committed && start.rows <= store.rows
    requires Progress(start, before, items, n, withGeneral) && KeepsGenerals(before, store.Full())
    requires AddsAtMost(before, store.Full(), committed, items[n])
    requires AddsNoneIfKnown(before, store.Full(), items[n], withGeneral)
    ensures KeepsGenerals(start, store.Committed()) && AddedOnce(start, store.Committed(), items)
    ensures AllKnown(start, items, withGeneral) ==> SameThreads(start, store.Committed())
  {
    KnownAddsNone(start, before, store.Full(), items, n, withGeneral);
    AddedGrows(start, before, store.Full(), items[..n], items[n], committed);
    KeepsOn(start, before, store.Full());
    MoreItems(start, store.Full(), items[..n] + [items[n]], items[n + 1..]);
    assert items == items[..n] + [items[n]] + items[n + 1..];
    CommittedAndFull(store);
    PrefixAdded(start, store.Full(), store.Committed(), items);
  }

  /* ---- the three tables ---- */

  function CustomerItems(msgs: seq<CustomerMsg>): (items: seq<Option<Item>>)
    ensures |items| == |msgs|
  {
    seq(|msgs|, i requires 0 <= i < |msgs| => Some(CustomerItem(msgs[i])))
  }

  /** A message of a claim that no longer exists is skipped. */
  function ClaimItems(msgs: seq<ClaimMsg>, claims: map<int, int>): (items: seq<Option<Item>>)
    ensures |items| == |msgs|
  {
    seq(|msgs|, i requires 0 <= i < |msgs| =>
      if msgs[i].claim in claims then Some(ClaimItem(msgs[i], claims[msgs[i].claim])) else None)
  }

  function AgentItems(msgs: seq<AgentMsg>): (items: seq<Option<Item>>)
    ensures |items| == |msgs|
  {
    seq(|msgs|, i requires 0 <= i < |msgs| => Some(AgentItem(msgs[i])))
  }

  datatype Legacy = Legacy(customers: seq<CustomerMsg>, claimMsgs: seq<ClaimMsg>, agents: seq<AgentMsg>,
                           claims: map<int, int>)

  /** All legacy messages in the order in which a run reads them. */
  function AllItems(legacy: Legacy): seq<Option<Item>> {
    CustomerItems(legacy.customers) + ClaimItems(legacy.claimMsgs, legacy.claims) + AgentItems(legacy.agents)
  }

  /** Every legacy message has its (thread, role, time) key in the assistant tables. */
  ghost predicate FullyMigrated(db: Db, legacy: Legacy) {
    && AllDone(db, CustomerItems(legacy.customers), true)
    && AllDone(db, ClaimItems(legacy.claimMsgs, legacy.claims), false)
    && AllDone(db, AgentItems(legacy.agents), true)
  }

  ghost predicate FullyQuiet(db: Db, legacy: Legacy) {
    && AllQuiet(db, CustomerItems(legacy.customers), true)
    && AllQuiet(db, ClaimItems(legacy.claimMsgs, legacy.claims), false)
    && AllQuiet(db, AgentItems(legacy.agents), true)
  }

  /** Where a run is cut: the phase and, in it, the message and the statement, or the commit at its end. */
  datatype Cut = Nowhere | InCustomers(stop: Stop) | InClaims(stop: Stop) | InAgents(stop: Stop)

  predicate IsCut(cut: Cut) {
    !cut.Nowhere? && cut.stop.At?
  }

  ghost predicate FullyKnown(db: Db, legacy: Legacy) {
    && AllKnown(db, CustomerItems(legacy.customers), true)
    && AllKnown(db, ClaimItems(legacy.claimMsgs, legacy.claims), false)
    && AllKnown(db, AgentItems(legacy.agents), true)
  }

  /** What every run leaves committed, complete or cut anywhere. */
  ghost predicate RunEffect(start: Db, after: Db, legacy: Legacy) {
    && KeepsGenerals(start, after) && AddedOnce(start, after, AllItems(legacy))
    && (FullyQuiet(start, legacy) ==> after == start)
    && (FullyKnown(start, legacy) ==> SameThreads(start, after))
  }

  /* ---- the same in terms of the legacy tables ---- */

  /** The thread of this session for a claim, or, without one, an oldest general thread. */
  ghost predicate IsPlace(db: Db, s: nat, claim: Option<int>, t: nat) {
    && t < |db.threads| && db.threads[t].session == s && db.threads[t].claim == claim
    && (claim.None? ==> forall u | 0 <= u < |db.threads| && db.threads[u].session == s && db.threads[u].claim.None? ::
                          db.threads[t].createdAt <= db.threads[u].createdAt)
  }

  /** Thread `t` is that place in the session of this owner and persona. */
  ghost predicate IsPlaceOf(db: Db, key: SessionKey, claim: Option<int>, t: nat) {
    exists s | 0 <= s < |db.sessions| :: db.sessions[s] == key && IsPlace(db, s, claim, t)
  }

  /** A row of this role and time is there. */
  ghost predicate IsIn(db: Db, key: SessionKey, claim: Option<int>, role: Role, time: nat) {
    exists i | 0 <= i < |db.rows| ::
      db.rows[i].role == role && db.rows[i].createdAt == time && IsPlaceOf(db, key, claim, db.rows[i].thread)
  }

  /**
   Every legacy message is where it belongs: a customer's in the customer's general thread; a claim's, if there is
   such a claim, in its thread of its customer; an agent's in the agent's thread of the claim it names, or in the
   agent's general thread if it names none.
   */
  ghost predicate AllInPlace(db: Db, legacy: Legacy) {
    && (forall n | 0 <= n < |legacy.customers| :: var m := legacy.customers[n];
          IsIn(db, SessionKey(CustomerOwner, m.customer, CustomerCopilot), None, m.role, m.createdAt))
    && (forall n | 0 <= n < |legacy.claimMsgs| :: var m := legacy.claimMsgs[n];
          m.claim in legacy.claims ==>
            IsIn(db, SessionKey(CustomerOwner, legacy.claims[m.claim], CustomerCopilot), Some(m.claim), m.role,
                 m.createdAt))
    && (forall n | 0 <= n < |legacy.agents| :: var m := legacy.agents[n];
          IsIn(db, SessionKey(AgentOwner, m.agent, ExpertCopilot),
               if m.claim.Some? && m.claim.value != 0 then m.claim else None, m.role, m.createdAt))
  }

  /** Message `n`, the customers' counted first, then the claims' and the agents', belongs there and says this. */
  ghost predicate IsMessage(legacy: Legacy, n: nat, key: SessionKey, claim: Option<int>, role: Role, time: nat,
                            content: string) {
    var c, d := |legacy.customers|, |legacy.claimMsgs|;
    if n < c then
      var m := legacy.customers[n];
      && key == SessionKey(CustomerOwner, m.customer, CustomerCopilot) && claim == None
      && (role, time, content) == (m.role, m.createdAt, m.content)
    else if n < c + d then
      var m := legacy.claimMsgs[n - c];
      && m.claim in legacy.claims && claim == Some(m.claim)
      && key == SessionKey(CustomerOwner, legacy.claims[m.claim], CustomerCopilot)
      && (role, time, content) == (m.role, m.createdAt, m.content)
    else
      n - c - d < |legacy.agents| &&
      var m := legacy.agents[n - c - d];
      && key == SessionKey(AgentOwner, m.agent, ExpertCopilot)
      && claim == (if m.claim.Some? && m.claim.value != 0 then m.claim else None)
      && (role, time, content) == (m.role, m.createdAt, m.content)
  }

  /** Row `k` is the copy of message `n`, in the place where that belongs. */
  ghost predicate IsCopyOf(db: Db, legacy: Legacy, k: nat, n: nat) {
    k < |db.rows| && exists key, claim ::
      && IsMessage(legacy, n, key, claim, db.rows[k].role, db.rows[k].createdAt, db.rows[k].content)
      && IsPlaceOf(db, key, claim, db.rows[k].thread)
  }

  /** What a run adds: copies of messages, each of another one, and in the order of the tables. */
  ghost predicate AddsCopies(a: Db, b: Db, legacy: Legacy) {
    a.rows <= b.rows && exists from: seq<nat> ::
      && |b.rows| == |a.rows| + |from| && (forall i, j | 0 <= i < j < |from| :: from[i] < from[j])
      && forall i | 0 <= i < |from| :: IsCopyOf(b, legacy, |a.rows| + i, from[i])
  }

  function ClaimOf(target: Target): Option<int> {
    if target.General? then None else Some(target.claim)
  }

  lemma TargetIsPlace(db: Db, target: Target, t: nat)
    ensures IsTarget(db, target, t) <==> IsPlaceOf(db, target.key, ClaimOf(target), t)
  {
    if s: nat :| IsThreadFor(db, s, target, t) {
      assert target.General? ==>
          forall u: nat | u < |db.threads| && db.threads[u].session == s && db.threads[u].claim.None? ::
            IsGeneral(db, s, u);
      assert IsPlace(db, s, ClaimOf(target), t);
    }
    if s :| 0 <= s < |db.sessions| && db.sessions[s] == target.key && IsPlace(db, s, ClaimOf(target), t) {
      assert IsThreadFor(db, s, target, t);
    }
  }

  lemma MigratedIsIn(db: Db, item: Item)
    ensures Migrated(db, item) <==> IsIn(db, item.target.key, ClaimOf(item.target), item.role, item.createdAt)
  {
    if t :| IsTarget(db, item.target, t) && HasKey(db.rows, t, item.role, item.createdAt) {
      TargetIsPlace(db, item.target, t);
    }
    if i :| 0 <= i < |db.rows| && db.rows[i].role == item.role && db.rows[i].createdAt == item.createdAt
            && IsPlaceOf(db, item.target.key, ClaimOf(item.target), db.rows[i].thread) {
      TargetIsPlace(db, item.target, db.rows[i].thread);
    }
  }

  lemma MigratedIsInPlace(db: Db, legacy: Legacy)
    requires FullyMigrated(db, legacy)
    ensures AllInPlace(db, legacy)
  {
    forall n | 0 <= n < |legacy.customers|
      ensures var m := legacy.customers[n];
              IsIn(db, SessionKey(CustomerOwner, m.customer, CustomerCopilot), None, m.role, m.createdAt)
    {
      assert Done(db, CustomerItems(legacy.customers)[n], true);
      MigratedIsIn(db, CustomerItem(legacy.customers[n]));
    }
    forall n | 0 <= n < |legacy.claimMsgs| && legacy.claimMsgs[n].claim in legacy.claims
      ensures var m := legacy.claimMsgs[n];
              IsIn(db, SessionKey(CustomerOwner, legacy.claims[m.claim], CustomerCopilot), Some(m.claim), m.role,
                   m.createdAt)
    {
      var m := legacy.claimMsgs[n];
      assert Done(db, ClaimItems(legacy.claimMsgs, legacy.claims)[n], false);
      MigratedIsIn(db, ClaimItem(m, legacy.claims[m.claim]));
    }
    forall n | 0 <= n < |legacy.agents|
      ensures var m := legacy.agents[n];
              IsIn(db, SessionKey(AgentOwner, m.agent, ExpertCopilot),
                   if m.claim.Some? && m.claim.value != 0 then m.claim else None, m.role, m.createdAt)
    {
      assert Done(db, AgentItems(legacy.agents)[n], true);
      MigratedIsIn(db, AgentItem(legacy.agents[n]));
    }
  }

  lemma ItemIsMessage(legacy: Legacy, n: nat)
    requires n < |AllItems(legacy)| && AllItems(legacy)[n].Some?
    ensures var item := AllItems(legacy)[n].value;
      IsMessage(legacy, n, item.target.key, ClaimOf(item.target), item.role, item.createdAt, item.content)
  {
  }

  lemma MessageIsItem(legacy: Legacy, n: nat, key: SessionKey, claim: Option<int>, role: Role, time: nat,
                      content: string)
    requires IsMessage(legacy, n, key, claim, role, time, content)
    ensures n < |AllItems(legacy)| && AllItems(legacy)[n].Some?
    ensures var item := AllItems(legacy)[n].value;
      && item.target.key == key && ClaimOf(item.target) == claim
      && (item.role, item.createdAt, item.content) == (role, time, content)
  {
  }

  lemma RunAddsCopies(a: Db, b: Db, legacy: Legacy)
    requires AddedOnce(a, b, AllItems(legacy))
    ensures AddsCopies(a, b, legacy)
  {
    var from: seq<nat> :| AddedFrom(a, b, AllItems(legacy), from);
    forall i | 0 <= i < |from| ensures IsCopyOf(b, legacy, |a.rows| + i, from[i]) {
      assert CopyOf(a, b, AllItems(legacy)[from[i]], |a.rows| + i);
      ItemIsMessage(legacy, from[i]);
      TargetIsPlace(b, AllItems(legacy)[from[i]].value.target, b.rows[|a.rows| + i].thread);
    }
  }

  /** A message of which no other shares place, role and time is there after a complete run with what it says. */
  lemma OwnContentIsIn(a: Db, b: Db, legacy: Legacy, n: nat, key: SessionKey, claim: Option<int>, role: Role,
                       time: nat, content: string) returns (k: nat)
    requires WellFormed(a) && WellFormed(b) && RunEffect(a, b, legacy) && FullyMigrated(b, legacy)
    requires IsMessage(legacy, n, key, claim, role, time, content) && !IsIn(a, key, claim, role, time)
    requires forall m: nat, other | m != n :: !IsMessage(legacy, m, key, claim, role, time, other)
    ensures k < |b.rows| && IsPlaceOf(b, key, claim, b.rows[k].thread)
    ensures (b.rows[k].role, b.rows[k].createdAt, b.rows[k].content) == (role, time, content)
  {
    MessageIsItem(legacy, n, key, claim, role, time, content);
    var items := AllItems(legacy);
    var item := items[n].value;
    MigratedIsIn(a, item);
    AllAreMigrated(b, legacy, n);
    forall m | 0 <= m < |items| && m != n && items[m].Some?
      ensures (items[m].value.target, items[m].value.role, items[m].value.createdAt)
           != (item.target, item.role, item.createdAt)
    {
      ItemIsMessage(legacy, m);
    }
    CopiesComeFromOneMessage(a, b, items, n);
    var t :| IsTarget(b, item.target, t) && Row(t, item.role, item.createdAt, item.content) in b.rows;
    TargetIsPlace(b, item.target, t);
    k :| 0 <= k < |b.rows| && b.rows[k] == Row(t, item.role, item.createdAt, item.content);
  }

  lemma AllAreMigrated(db: Db, legacy: Legacy, n: nat)
    requires FullyMigrated(db, legacy) && n < |AllItems(legacy)| && AllItems(legacy)[n].Some?
    ensures Migrated(db, AllItems(legacy)[n].value)
  {
    var c, d := |legacy.customers|, |legacy.claimMsgs|;
    if n < c {
      assert Done(db, CustomerItems(legacy.customers)[n], true);
    } else if n < c + d {
      assert Done(db, ClaimItems(legacy.claimMsgs, legacy.claims)[n - c], false);
    } else {
      assert Done(db, AgentItems(legacy.agents)[n - c - d], true);
    }
  }

  /**
   From any state, whatever earlier runs and live chats left: the tables only grow and `message_count` stays the
   row count (Valid); every row a run commits, complete or cut, is the copy of a legacy message of which it is
   the only copy of this run, with a key that was not in the table before; a complete run migrates everything; and
   where nothing is left to do nothing changes.
   */
  method BackfillLegacy(store: Store, legacy: Legacy, cut: Cut, clock: nat -> nat) returns (ok: bool)
    requires store.Valid() && store.Clean()
    modifies store
    ensures store.Valid() && store.Clean() && RunEffect(old(store.Committed()), store.Committed(), legacy)
    ensures ok <==> !IsCut(cut)
    ensures ok ==> FullyMigrated(store.Committed(), legacy) && AllInPlace(store.Committed(), legacy)
    ensures AddsCopies(old(store.Committed()), store.Committed(), legacy)
  {
    ghost var start := store.Committed();
    ok := RunPhases(store, legacy, cut, clock);
    if !ok {
      store.Rollback();
    } else {
      MigratedIsInPlace(store.Committed(), legacy);
    }
    RunAddsCopies(start, store.Committed(), legacy);
  }

  method RunPhases(store: Store, legacy: Legacy, cut: Cut, clock: nat -> nat) returns (ok: bool)
    requires store.Valid() && store.Clean()
    modifies store
    ensures store.Valid() && RunEffect(old(store.Committed()), store.Committed(), legacy)
    ensures ok <==> !IsCut(cut)
    ensures ok ==> store.Clean() && FullyMigrated(store.Committed(), legacy)
  {
    ghost var start := store.Committed();
    ok := Phase(store, CustomerItems(legacy.customers), true, if cut.InCustomers? then cut.stop else Never, clock);
    if !ok {
      AfterCustomers(start, store.Committed(), legacy);
      return;
    }
    var claimStop := if cut.InClaims? then cut.stop else Never;
    var agentStop := if cut.InAgents? then cut.stop else Never;
    ok := LastPhases(store, start, legacy, claimStop, agentStop, clock);
  }

  ghost predicate TwoPhases(start: Db, first: Db, second: Db, legacy: Legacy) {
    && PhaseEffect(start, first, CustomerItems(legacy.customers), true)
    && PhaseEffect(first, second, ClaimItems(legacy.claimMsgs, legacy.claims), false)
    && AllDone(first, CustomerItems(legacy.customers), true)
    && AllDone(second, ClaimItems(legacy.claimMsgs, legacy.claims), false)
  }

  method LastPhases(store: Store, ghost start: Db, legacy: Legacy, claimStop: Stop, agentStop: Stop,
                    clock: nat -> nat) returns (ok: bool)
    requires store.Valid() && store.Clean()
    requires PhaseEffect(start, store.Committed(), CustomerItems(legacy.customers), true)
    requires AllDone(store.Committed(), CustomerItems(legacy.customers), true)
    modifies store
    ensures store.Valid() && RunEffect(start, store.Committed(), legacy)
    ensures ok <==> claimStop.Never? && agentStop.Never?
    ensures ok ==> store.Clean() && FullyMigrated(store.Committed(), legacy)
  {
    ghost var first := store.Committed();
    ok := ClaimPhase(store, legacy, claimStop, clock);
    if !ok {
      AfterClaims(start, first, store.Committed(), legacy);
      return;
    }
    ok := LastPhase(store, start, first, legacy, agentStop, clock);
  }

  method ClaimPhase(store: Store, legacy: Legacy, stop: Stop, clock: nat -> nat) returns (ok: bool)
    requires store.Valid() && store.Clean()
    modifies store
    ensures store.Valid()
    ensures PhaseEffect(old(store.Committed()), store.Committed(), ClaimItems(legacy.claimMsgs, legacy.claims), false)
    ensures ok <==> stop.Never?
    ensures ok ==> store.Clean() && AllDone(store.Committed(), ClaimItems(legacy.claimMsgs, legacy.claims), false)
  {
    ok := Phase(store, ClaimItems(legacy.claimMsgs, legacy.claims), false, stop, clock);
  }

  method LastPhase(store: Store, ghost start: Db, ghost first: Db, legacy: Legacy, stop: Stop, clock: nat -> nat)
    returns (ok: bool)
    requires store.Valid() && store.Clean() && TwoPhases(start, first, store.Committed(), legacy)
    modifies store
    ensures store.Valid() && RunEffect(start, store.Committed(), legacy)
    ensures ok <==> stop.Never?
    ensures ok ==> store.Clean() && FullyMigrated(store.Committed(), legacy)
  {
    ghost var second := store.Committed();
    ok := Phase(store, AgentItems(legacy.agents), true, stop, clock);
    AfterAgents(start, first, second, store.Committed(), legacy);
    if ok {
      AllMigrated(first, second, store.Committed(), legacy);
    }
  }

  /** What each phase has done stays done to the end. */
  lemma AllMigrated(first: Db, second: Db, last: Db, legacy: Legacy)
    requires KeepsGenerals(first, second) && KeepsGenerals(second, last)
    requires AllDone(first, CustomerItems(legacy.customers), true)
    requires AllDone(second, ClaimItems(legacy.claimMsgs, legacy.claims), false)
    requires AllDone(last, AgentItems(legacy.agents), true)
    ensures FullyMigrated(last, legacy)
  {
    KeepsOn(first, second, last);
    DoneStays(first, last, CustomerItems(legacy.customers), true);
    DoneStays(second, last, ClaimItems(legacy.claimMsgs, legacy.claims), false);
  }

  lemma AfterCustomers(start: Db, first: Db, legacy: Legacy)
    requires PhaseEffect(start, first, CustomerItems(legacy.customers), true)
    ensures RunEffect(start, first, legacy)
  {
    var rest := ClaimItems(legacy.claimMsgs, legacy.claims) + AgentItems(legacy.agents);
    MoreItems(start, first, CustomerItems(legacy.customers), rest);
    assert CustomerItems(legacy.customers) + rest == AllItems(legacy);
  }

  lemma AfterClaims(start: Db, first: Db, second: Db, legacy: Legacy)
    requires PhaseEffect(start, first, CustomerItems(legacy.customers), true)
    requires PhaseEffect(first, second, ClaimItems(legacy.claimMsgs, legacy.claims), false)
    ensures RunEffect(start, second, legacy)
    ensures AddedOnce(start, second, CustomerItems(legacy.customers) + ClaimItems(legacy.claimMsgs, legacy.claims))
  {
    KeepsOn(start, first, second);
    if FullyKnown(start, legacy) { KnownStays(start, first, ClaimItems(legacy.claimMsgs, legacy.claims), false); }
    AddedJoins(start, first, second, CustomerItems(legacy.customers), ClaimItems(legacy.claimMsgs, legacy.claims));
    var customerSide := CustomerItems(legacy.customers) + ClaimItems(legacy.claimMsgs, legacy.claims);
    MoreItems(start, second, customerSide, AgentItems(legacy.agents));
  }

  lemma AfterAgents(start: Db, first: Db, second: Db, last: Db, legacy: Legacy)
    requires PhaseEffect(start, first, CustomerItems(legacy.customers), true)
    requires PhaseEffect(first, second, ClaimItems(legacy.claimMsgs, legacy.claims), false)
    requires PhaseEffect(second, last, AgentItems(legacy.agents), true)
    ensures RunEffect(start, last, legacy)
  {
    AfterClaims(start, first, second, legacy);
    KeepsOn(start, second, last);
    if FullyKnown(start, legacy) { KnownStays(start, second, AgentItems(legacy.agents), true); }
    AddedJoins(start, second, last, CustomerItems(legacy.customers) + ClaimItems(legacy.claimMsgs, legacy.claims),
               AgentItems(legacy.agents));
  }

  /**
   A row that an earlier run committed is not copied again: a run that finds (thread, role, time) in the table
   adds no row with it.
   */
  lemma NoSecondCopy(start: Db, after: Db, legacy: Legacy, i: nat, k: nat)
    requires RunEffect(start, after, legacy) && i < |start.rows| <= k < |after.rows|
    ensures (after.rows[i].thread, after.rows[i].role, after.rows[i].createdAt)
         != (after.rows[k].thread, after.rows[k].role, after.rows[k].createdAt)
  {
    var p: seq<nat> :| AddedFrom(start, after, AllItems(legacy), p);
    assert CopyOf(start, after, AllItems(legacy)[p[k - |start.rows|]], |start.rows| + (k - |start.rows|));
    assert after.rows[i] == start.rows[i];
  }

  /** A message whose key no other legacy message shares is copied with its own content. */
  lemma CopiesComeFromOneMessage(start: Db, after: Db, items: seq<Option<Item>>, j: nat)
    requires WellFormed(start) && WellFormed(after) && KeepsGenerals(start, after) && AddedOnce(start, after, items)
    requires j < |items| && items[j].Some? && !Migrated(start, items[j].value) && Migrated(after, items[j].value)
    requires forall k | 0 <= k < |items| && k != j && items[k].Some? ::
               (items[k].value.target, items[k].value.role, items[k].value.createdAt)
               != (items[j].value.target, items[j].value.role, items[j].value.createdAt)
    ensures exists t :: IsTarget(after, items[j].value.target, t)
                     && Row(t, items[j].value.role, items[j].value.createdAt, items[j].value.content) in after.rows
  {
    var item := items[j].value;
    var t :| IsTarget(after, item.target, t) && HasKey(after.rows, t, item.role, item.createdAt);
    var i :| 0 <= i < |after.rows| && after.rows[i].thread == t && after.rows[i].role == item.role
             && after.rows[i].createdAt == item.createdAt;
    if i < |start.rows| {
      assert after.rows[i] == start.rows[i] && start.rows[i] in start.rows;
      OldTarget(start, after, item.target, t);
      assert HasKey(start.rows, t, item.role, item.createdAt);
      assert false;
    }
    var p: seq<nat> :| AddedFrom(start, after, items, p);
    var k := p[i - |start.rows|];
    assert CopyOf(start, after, items[k], |start.rows| + (i - |start.rows|));
    TargetsDiffer(after, items[k].value.target, item.target, t);
    assert k == j;
  }

  /** A thread that existed before and is the target now was the target then. */
  lemma OldTarget(start: Db, after: Db, target: Target, t: nat)
    requires WellFormed(start) && WellFormed(after) && KeepsGenerals(start, after)
    requires IsTarget(after, target, t) && t < |start.threads|
    ensures IsTarget(start, target, t)
  {
    var s: nat :| IsThreadFor(after, s, target, t);
    assert start.threads[t] == after.threads[t] && s == start.threads[t].session;
    assert start.sessions[s] == after.sessions[s];
    if target.General? {
      DefaultIsKept(start, after, s, t);
    }
    assert IsThreadFor(start, s, target, t);
  }

  /** A thread is the target of one kind of message only. */
  lemma TargetsDiffer(db: Db, a: Target, b: Target, t: nat)
    requires WellFormed(db) && IsTarget(db, a, t) && IsTarget(db, b, t)
    ensures a == b
  {
    var r: nat :| IsThreadFor(db, r, a, t);
    var s: nat :| IsThreadFor(db, s, b, t);
  }
}
