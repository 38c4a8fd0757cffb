/**
 Running the backfill again: after a complete run, after ordinary use between two runs, and where two general
 threads of a session are equally old.
 */
module Reruns {
  import opened Options
  import opened AssistantStore
  import opened Backfill

  /* ---- what is migrated, when the tables grow ---- */

  /** No general thread of the session from number `from` on is stamped before thread `t`. */
  ghost predicate LaterAreNotOlder(db: Db, session: nat, t: nat, from: nat)
    requires t < |db.threads|
  {
    forall u: nat | IsGeneral(db, session, u) && u >= from :: db.threads[t].createdAt <= db.threads[u].createdAt
  }

  /** A later thread that the queries may find for the message has its key already. */
  ghost predicate LaterHasKey(db: Db, item: Item, from: nat) {
    exists u: nat :: u >= from && IsTarget(db, item.target, u) && HasKey(db.rows, u, item.role, item.createdAt)
  }

  lemma OneSession(db: Db, target: Target, s: nat, r: nat, t: nat, u: nat)
    requires WellFormed(db) && IsThreadFor(db, s, target, t) && IsThreadFor(db, r, target, u)
    ensures s == r
  {
  }

  /** A general thread that was a default stays one exactly while no later one of its session is stamped before it. */
  lemma StaysDefaultIff(a: Db, b: Db, s: nat, t: nat)
    requires Extends(a, b) && IsDefault(a, s, t)
    ensures IsDefault(b, s, t) <==> LaterAreNotOlder(b, s, t, |a.threads|)
  {
    assert forall u: nat | u < |a.threads| :: IsGeneral(a, s, u) == IsGeneral(b, s, u);
  }

  /**
   A message that was migrated to thread `t` stays so, however the tables grow, if and only if it belongs to a
   claim, or no later general thread of the session is stamped before that thread, or the one that is then found
   has the message's key as well.
   */
  lemma MigratedStaysIff(a: Db, b: Db, item: Item, s: nat, t: nat)
    requires WellFormed(b) && Extends(a, b)
    requires IsThreadFor(a, s, item.target, t) && HasKey(a.rows, t, item.role, item.createdAt)
    ensures Migrated(b, item)
       <==> item.target.OfClaim? || LaterAreNotOlder(b, s, t, |a.threads|) || LaterHasKey(b, item, |a.threads|)
  {
    KeyStays(a.rows, b.rows, t, item.role, item.createdAt);
    if item.target.OfClaim? {
      assert IsThreadFor(b, s, item.target, t);
      assert IsTarget(b, item.target, t);
    } else {
      StaysDefaultIff(a, b, s, t);
      if IsDefault(b, s, t) {
        assert IsThreadFor(b, s, item.target, t);
        assert IsTarget(b, item.target, t);
      } else if Migrated(b, item) {
        MovedIsLater(a, b, item, s, t);
      }
    }
  }

  lemma MovedIsLater(a: Db, b: Db, item: Item, s: nat, t: nat)
    requires WellFormed(b) && Extends(a, b) && item.target.General? && IsThreadFor(a, s, item.target, t)
    requires Migrated(b, item) && !IsDefault(b, s, t)
    ensures LaterHasKey(b, item, |a.threads|)
  {
    var u: nat :| IsTarget(b, item.target, u) && HasKey(b.rows, u, item.role, item.createdAt);
    var r: nat :| IsThreadFor(b, r, item.target, u);
    assert b.sessions[s] == a.sessions[s];
    assert r == s;
    assert IsGeneral(b, s, t);
    if u < |a.threads| {
      assert IsGeneral(a, s, u);
    }
    assert u >= |a.threads|;
  }

  /** A session with a general thread has a default. */
  lemma {:induction false} DefaultExists(db: Db, s: nat, n: nat) returns (t: nat)
    requires n <= |db.threads| && exists u: nat :: u < n && IsGeneral(db, s, u)
    ensures t < n && IsGeneral(db, s, t)
    ensures forall u: nat | u < n && IsGeneral(db, s, u) :: db.threads[t].createdAt <= db.threads[u].createdAt
  {
    t := n - 1;
    if exists u: nat :: u < n - 1 && IsGeneral(db, s, u) {
      var before := DefaultExists(db, s, n - 1);
      if !IsGeneral(db, s, t) || db.threads[before].createdAt <= db.threads[t].createdAt {
        t := before;
      }
    }
  }

  lemma GeneralIsKept(a: Db, b: Db, key: SessionKey)
    requires Extends(a, b) && HasGeneral(a, key)
    ensures HasGeneral(b, key)
  {
    var t :| IsTarget(a, General(key), t);
    var s: nat :| IsThreadFor(a, s, General(key), t);
    assert IsGeneral(b, s, t);
    var u := DefaultExists(b, s, |b.threads|);
    assert IsThreadFor(b, s, General(key), u);
    assert IsTarget(b, General(key), u);
  }

  /* ---- running it again ---- */

  /** A query has one answer only: no two general threads of a session share the earliest time stamp. */
  ghost predicate NoTies(db: Db) {
    forall s: nat, t: nat, u: nat | IsDefault(db, s, t) && IsDefault(db, s, u) :: t == u
  }

  lemma OneTarget(db: Db, target: Target, t: nat, u: nat)
    requires WellFormed(db) && NoTies(db) && IsTarget(db, target, t) && IsTarget(db, target, u)
    ensures t == u
  {
    var s: nat :| IsThreadFor(db, s, target, t);
    var r: nat :| IsThreadFor(db, r, target, u);
    assert s == r;
  }

  lemma DoneIsQuiet(db: Db, items: seq<Option<Item>>, withGeneral: bool)
    requires WellFormed(db) && NoTies(db) && AllDone(db, items, withGeneral)
    ensures AllQuiet(db, items, withGeneral)
  {
    forall j | 0 <= j < |items| ensures Quiet(db, items[j], withGeneral) {
      assert Done(db, items[j], withGeneral);
      if items[j].Some? {
        var item := items[j].value;
        forall t, u | IsTarget(db, item.target, t) && IsTarget(db, item.target, u) ensures t == u {
          OneTarget(db, item.target, t, u);
        }
        MigratedIsSettled(db, item);
      }
    }
  }

  /**
   Safe to re-run: after a complete run a further one, complete or cut, changes nothing, as long as no session's
   earliest general threads share their time stamp.
   */
  lemma RerunChangesNothing(db: Db, after: Db, legacy: Legacy)
    requires WellFormed(db) && FullyMigrated(db, legacy) && RunEffect(db, after, legacy) && NoTies(db)
    ensures after == db
  {
    DoneIsQuiet(db, CustomerItems(legacy.customers), true);
    DoneIsQuiet(db, ClaimItems(legacy.claimMsgs, legacy.claims), false);
    DoneIsQuiet(db, AgentItems(legacy.agents), true);
  }

  /** Every thread created since `a` that a query finds for a general message has the message's key already. */
  ghost predicate NewDefaultsHave(a: Db, b: Db, item: Option<Item>) {
    item.Some? && item.value.target.General? ==>
      forall u: nat | u >= |a.threads| && IsTarget(b, item.value.target, u) ::
        HasKey(b.rows, u, item.value.role, item.value.createdAt)
  }

  /** Under one answer to each query, ordinary use leaves a migrated message done exactly in that case. */
  lemma DoneStaysIff(a: Db, b: Db, item: Option<Item>, withGeneral: bool)
    requires WellFormed(a) && WellFormed(b) && Extends(a, b) && NoTies(b) && Done(a, item, withGeneral)
    ensures Done(b, item, withGeneral) <==> NewDefaultsHave(a, b, item)
  {
    if item.Some? {
      var it := item.value;
      var t :| IsTarget(a, it.target, t) && HasKey(a.rows, t, it.role, it.createdAt);
      var s: nat :| IsThreadFor(a, s, it.target, t);
      MigratedStaysIff(a, b, it, s, t);
      if withGeneral { GeneralIsKept(a, b, it.target.key); }
      if Migrated(b, it) {
        var v :| IsTarget(b, it.target, v) && HasKey(b.rows, v, it.role, it.createdAt);
        forall u: nat | IsTarget(b, it.target, u) ensures u == v { OneTarget(b, it.target, u, v); }
      } else {
        NewDefaultLacksKey(a, b, it, s, t);
      }
    }
  }

  lemma NewDefaultLacksKey(a: Db, b: Db, item: Item, s: nat, t: nat)
    requires WellFormed(b) && Extends(a, b) && IsThreadFor(a, s, item.target, t)
    requires HasKey(a.rows, t, item.role, item.createdAt) && !Migrated(b, item)
    ensures item.target.General? && !NewDefaultsHave(a, b, Some(item))
  {
    MigratedStaysIff(a, b, item, s, t);
    assert IsGeneral(b, s, t);
    var u := DefaultExists(b, s, |b.threads|);
    assert IsDefault(b, s, u);
    assert IsThreadFor(b, s, item.target, u);
    assert IsTarget(b, item.target, u);
    if u < |a.threads| {
      assert IsGeneral(a, s, u);
    }
    assert u >= |a.threads|;
  }

  lemma AllDoneStaysIff(a: Db, b: Db, items: seq<Option<Item>>, withGeneral: bool)
    requires WellFormed(a) && WellFormed(b) && Extends(a, b) && NoTies(b) && AllDone(a, items, withGeneral)
    ensures AllDone(b, items, withGeneral) <==> forall j | 0 <= j < |items| :: NewDefaultsHave(a, b, items[j])
  {
    forall j | 0 <= j < |items| ensures Done(b, items[j], withGeneral) <==> NewDefaultsHave(a, b, items[j]) {
      assert Done(a, items[j], withGeneral);
      DoneStaysIff(a, b, items[j], withGeneral);
    }
  }

  ghost predicate AllNewDefaultsHave(a: Db, b: Db, legacy: Legacy) {
    && (forall j | 0 <= j < |legacy.customers| :: NewDefaultsHave(a, b, CustomerItems(legacy.customers)[j]))
    && (forall j | 0 <= j < |legacy.claimMsgs| ::
          NewDefaultsHave(a, b, ClaimItems(legacy.claimMsgs, legacy.claims)[j]))
    && (forall j | 0 <= j < |legacy.agents| :: NewDefaultsHave(a, b, AgentItems(legacy.agents)[j]))
  }

  /**
   A complete run left `a`; ordinary use, with new general threads and whatever else, made `b` of it; the next
   complete run left `after`. That run changes nothing if and only if every default thread that is new has
   every legacy message of its session already.
   */
  lemma RerunAfterUseIff(a: Db, b: Db, after: Db, legacy: Legacy)
    requires WellFormed(a) && WellFormed(b) && FullyMigrated(a, legacy) && Extends(a, b) && NoTies(b)
    requires RunEffect(b, after, legacy) && FullyMigrated(after, legacy)
    ensures after == b <==> AllNewDefaultsHave(a, b, legacy)
  {
    AllDoneStaysIff(a, b, CustomerItems(legacy.customers), true);
    AllDoneStaysIff(a, b, ClaimItems(legacy.claimMsgs, legacy.claims), false);
    AllDoneStaysIff(a, b, AgentItems(legacy.agents), true);
    if FullyMigrated(b, legacy) {
      RerunChangesNothing(b, after, legacy);
    }
  }

  /** So it is while every general thread that a session got in between is stamped after its default. */
  lemma YoungerThreadsAreFine(a: Db, b: Db, after: Db, legacy: Legacy)
    requires WellFormed(a) && WellFormed(b) && FullyMigrated(a, legacy) && Extends(a, b) && NoTies(b)
    requires RunEffect(b, after, legacy) && FullyMigrated(after, legacy)
    requires forall s: nat, t: nat | IsDefault(a, s, t) :: LaterAreYounger(b, s, t, |a.threads|)
    ensures after == b
  {
    NoNewDefaults(a, b, CustomerItems(legacy.customers), true);
    NoNewDefaults(a, b, ClaimItems(legacy.claimMsgs, legacy.claims), false);
    NoNewDefaults(a, b, AgentItems(legacy.agents), true);
    RerunAfterUseIff(a, b, after, legacy);
  }

  lemma NoNewDefaults(a: Db, b: Db, items: seq<Option<Item>>, withGeneral: bool)
    requires WellFormed(b) && Extends(a, b) && AllDone(a, items, withGeneral)
    requires forall s: nat, t: nat | IsDefault(a, s, t) :: LaterAreYounger(b, s, t, |a.threads|)
    ensures forall j | 0 <= j < |items| :: NewDefaultsHave(a, b, items[j])
  {
    forall j, u: nat | 0 <= j < |items| && items[j].Some? && items[j].value.target.General?
                       && u >= |a.threads| && IsTarget(b, items[j].value.target, u)
      ensures false
    {
      assert Done(a, items[j], withGeneral);
      DefaultIsOld(a, b, items[j].value.target, u);
    }
  }

  lemma DefaultIsOld(a: Db, b: Db, target: Target, u: nat)
    requires WellFormed(b) && Extends(a, b) && target.General? && (exists t :: IsTarget(a, target, t))
    requires forall s: nat, t: nat | IsDefault(a, s, t) :: LaterAreYounger(b, s, t, |a.threads|)
    requires IsTarget(b, target, u)
    ensures u < |a.threads|
  {
    var t :| IsTarget(a, target, t);
    var s: nat :| IsThreadFor(a, s, target, t);
    var r: nat :| IsThreadFor(b, r, target, u);
    assert b.sessions[s] == a.sessions[s];
    assert r == s && IsGeneral(b, s, t);
  }

  /**
   Where a new default lacks the message, the next run copies it a second time: its first copy stays in the
   thread that was the default, the second is in the new one.
   */
  lemma CopiedAgain(a: Db, b: Db, after: Db, legacy: Legacy, item: Item, withGeneral: bool, u: nat)
    returns (i: nat, k: nat)
    requires WellFormed(a) && WellFormed(b) && WellFormed(after) && Extends(a, b) && NoTies(b)
    requires RunEffect(b, after, legacy)
    requires Done(a, Some(item), withGeneral) && Done(after, Some(item), withGeneral)
    requires u >= |a.threads| && IsTarget(b, item.target, u) && !HasKey(b.rows, u, item.role, item.createdAt)
    ensures i < |a.rows| && |b.rows| <= k < |after.rows|
    ensures after.rows[i].thread < |a.threads| && after.rows[k].thread == u
    ensures (after.rows[i].role, after.rows[i].createdAt) == (after.rows[k].role, after.rows[k].createdAt)
         == (item.role, item.createdAt)
  {
    var t := OldCopy(a, item);
    i := RowOfKey(a.rows, t, item);
    assert after.rows[i] == a.rows[i];
    var v :| IsTarget(after, item.target, v) && HasKey(after.rows, v, item.role, item.createdAt);
    TargetIsKept(b, after, item.target, u, v);
    k := NewRowOfKey(b.rows, after.rows, u, item);
  }

  lemma OldCopy(a: Db, item: Item) returns (t: nat)
    requires Migrated(a, item)
    ensures t < |a.threads| && HasKey(a.rows, t, item.role, item.createdAt)
  {
    t :| IsTarget(a, item.target, t) && HasKey(a.rows, t, item.role, item.createdAt);
  }

  lemma RowOfKey(rows: seq<Row>, t: nat, item: Item) returns (i: nat)
    requires HasKey(rows, t, item.role, item.createdAt)
    ensures i < |rows| && rows[i].thread == t && rows[i].role == item.role && rows[i].createdAt == item.createdAt
  {
    i :| 0 <= i < |rows| && rows[i].thread == t && rows[i].role == item.role && rows[i].createdAt == item.createdAt;
  }

  lemma NewRowOfKey(before: seq<Row>, after: seq<Row>, t: nat, item: Item) returns (k: nat)
    requires before <= after && !HasKey(before, t, item.role, item.createdAt)
    requires HasKey(after, t, item.role, item.createdAt)
    ensures |before| <= k < |after|
    ensures after[k].thread == t && after[k].role == item.role && after[k].createdAt == item.createdAt
  {
    assert forall n | 0 <= n < |before| :: after[n] == before[n];
    k := RowOfKey(after, t, item);
  }

  /** A run leaves the one answer to a query. */
  lemma TargetIsKept(b: Db, after: Db, target: Target, u: nat, v: nat)
    requires WellFormed(b) && WellFormed(after) && NoTies(b) && KeepsGenerals(b, after)
    requires IsTarget(b, target, u) && IsTarget(after, target, v)
    ensures v == u
  {
    TargetIsStable(b, after, target, u);
    var s: nat :| IsThreadFor(after, s, target, u);
    var r: nat :| IsThreadFor(after, r, target, v);
    assert s == r;
    if target.General? {
      var q: nat :| IsThreadFor(b, q, target, u);
      assert after.sessions[q] == b.sessions[q];
      assert q == s && IsGeneral(b, s, u) && IsGeneral(after, s, v);
      OldTarget(b, after, target, v);
      OneTarget(b, target, u, v);
    }
  }

  /* ---- equally old general threads ---- */

  /** The row copies a general message into one default of its session, and another default had it. */
  ghost predicate IsTiedCopy(start: Db, item: Option<Item>, row: Row) {
    && item.Some? && item.value.target.General? && IsTarget(start, item.value.target, row.thread)
    && exists t :: t != row.thread && IsTarget(start, item.value.target, t)
                && HasKey(start.rows, t, item.value.role, item.value.createdAt)
  }

  lemma DoneIsKnown(db: Db, items: seq<Option<Item>>, withGeneral: bool)
    requires AllDone(db, items, withGeneral)
    ensures AllKnown(db, items, withGeneral)
  {
    forall j | 0 <= j < |items| && items[j].Some? ensures Known(db, items[j].value.target, withGeneral) {
      assert Done(db, items[j], withGeneral);
      var target := items[j].value.target;
      var t :| IsTarget(db, target, t);
      var s: nat :| IsThreadFor(db, s, target, t);
      assert db.sessions[s] == target.key;
    }
  }

  /**
   Without `NoTies`: all that a run over migrated tables, complete or cut, can change is to copy general messages
   into another thread of the same age as the one that has them; no session and no thread is added.
   */
  lemma TiedRerun(start: Db, after: Db, legacy: Legacy, k: nat)
    requires WellFormed(start) && FullyMigrated(start, legacy) && RunEffect(start, after, legacy)
    ensures SameThreads(start, after) && start.rows <= after.rows
    ensures |start.rows| <= k < |after.rows| ==> exists j: nat ::
              j < |AllItems(legacy)| && IsTiedCopy(start, AllItems(legacy)[j], after.rows[k])
  {
    DoneIsKnown(start, CustomerItems(legacy.customers), true);
    DoneIsKnown(start, ClaimItems(legacy.claimMsgs, legacy.claims), false);
    DoneIsKnown(start, AgentItems(legacy.agents), true);
    if |start.rows| <= k < |after.rows| {
      var j := CopiedFrom(start, after, AllItems(legacy), k);
      AllAreMigrated(start, legacy, j);
      CopyIsTied(start, after, AllItems(legacy)[j], k);
    }
  }

  lemma CopiedFrom(start: Db, after: Db, items: seq<Option<Item>>, k: nat) returns (j: nat)
    requires AddedOnce(start, after, items) && |start.rows| <= k < |after.rows|
    ensures j < |items| && CopyOf(start, after, items[j], k)
  {
    var p: seq<nat> :| AddedFrom(start, after, items, p);
    j := p[k - |start.rows|];
    assert CopyOf(start, after, items[j], |start.rows| + (k - |start.rows|));
  }

  lemma CopyIsTied(start: Db, after: Db, item: Option<Item>, k: nat)
    requires WellFormed(start) && SameThreads(start, after) && item.Some? && Migrated(start, item.value)
    requires CopyOf(start, after, item, k)
    ensures IsTiedCopy(start, item, after.rows[k])
  {
    var it, u := item.value, after.rows[k].thread;
    SameTargets(start, after, it.target, u);
    var t :| IsTarget(start, it.target, t) && HasKey(start.rows, t, it.role, it.createdAt);
    var s: nat :| IsThreadFor(start, s, it.target, t);
    var r: nat :| IsThreadFor(start, r, it.target, u);
    assert s == r && t != u;
  }
}
