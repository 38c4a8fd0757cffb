/**
 The assistant tables behind one database session: assistant sessions, threads and messages. The
 session factory has autoflush off, so rows that were added but not committed are invisible to the
 queries; creating a session or a thread commits everything added so far.
 */
module AssistantStore {
  import opened Options
  import opened ChatThread

  datatype OwnerType = CustomerOwner | AgentOwner
  datatype Persona = CustomerCopilot | ExpertCopilot

  datatype SessionKey = SessionKey(owner: OwnerType, id: int, persona: Persona)

  /** A general thread has no claim. */
  datatype ThreadRow = ThreadRow(session: nat, claim: Option<int>, createdAt: nat)

  datatype Row = Row(thread: nat, role: Role, createdAt: nat, content: string)

  datatype Db = Db(sessions: seq<SessionKey>, threads: seq<ThreadRow>, rows: seq<Row>)

  function CountOf(rows: seq<Row>, t: nat): nat {
    if rows == [] then 0 else CountOf(rows[..|rows| - 1], t) + if rows[|rows| - 1].thread == t then 1 else 0
  }

  /** The counters are the row counts. */
  ghost predicate Counted(counts: seq<nat>, rows: seq<Row>) {
    forall t | 0 <= t < |counts| :: counts[t] == CountOf(rows, t)
  }

  lemma CountOneMore(counts: seq<nat>, rows: seq<Row>, row: Row)
    requires Counted(counts, rows) && row.thread < |counts|
    ensures Counted(counts[row.thread := counts[row.thread] + 1], rows + [row])
  {
    var after := counts[row.thread := counts[row.thread] + 1];
    assert (rows + [row])[..|rows|] == rows;
    forall t | 0 <= t < |after|
      ensures after[t] == CountOf(rows + [row], t)
    {
      assert counts[t] == CountOf(rows, t);
    }
  }

  lemma {:induction false} NoRowsYet(rows: seq<Row>, t: nat)
    requires forall r <- rows :: r.thread < t
    ensures CountOf(rows, t) == 0
  {
    if rows != [] {
      var init := rows[..|rows| - 1];
      assert forall r <- init :: r in rows;
      NoRowsYet(init, t);
      assert rows[|rows| - 1] in rows;
    }
  }

  /** Session keys and claim threads are unique, references resolve. Creation times are as the clock gave them. */
  ghost predicate WellFormed(db: Db) {
    && (forall i, j | 0 <= i < j < |db.sessions| :: db.sessions[i] != db.sessions[j])
    && (forall t | 0 <= t < |db.threads| :: db.threads[t].session < |db.sessions|)
    && (forall s, t | 0 <= s < t < |db.threads| :: db.threads[s].claim.Some? ==>
          db.threads[s].session != db.threads[t].session || db.threads[s].claim != db.threads[t].claim)
    && (forall r <- db.rows :: r.thread < |db.threads|)
  }

  /** Sessions, threads and messages are only ever added. */
  ghost predicate Extends(a: Db, b: Db) {
    a.sessions <= b.sessions && a.threads <= b.threads && a.rows <= b.rows
  }

  predicate IsGeneral(db: Db, session: nat, t: nat) {
    t < |db.threads| && db.threads[t].session == session && db.threads[t].claim.None?
  }

  /** A general thread that the query by creation time may return: none of the session is older. */
  ghost predicate IsDefault(db: Db, session: nat, t: nat) {
    && IsGeneral(db, session, t)
    && forall u: nat | IsGeneral(db, session, u) :: db.threads[t].createdAt <= db.threads[u].createdAt
  }

  /** The one thread that it returns. */
  ghost predicate OnlyDefault(db: Db, session: nat, t: nat) {
    IsDefault(db, session, t) && forall u: nat | IsDefault(db, session, u) :: u == t
  }

  /** Tables grow without a second general thread for any session. */
  ghost predicate KeepsGenerals(a: Db, b: Db) {
    && Extends(a, b)
    && forall s: nat, t: nat, u: nat | IsGeneral(a, s, t) && IsGeneral(b, s, u) :: u < |a.threads|
  }

  ghost predicate IsClaimThread(db: Db, session: nat, claim: int, t: nat) {
    t < |db.threads| && db.threads[t].session == session && db.threads[t].claim == Some(claim)
  }

  /** Every general thread of the session from number `from` on is stamped after thread `t`. */
  ghost predicate LaterAreYounger(db: Db, session: nat, t: nat, from: nat)
    requires t < |db.threads|
  {
    forall u: nat | IsGeneral(db, session, u) && u >= from :: db.threads[t].createdAt < db.threads[u].createdAt
  }

  /**
   The default thread of a session stays the only answer of the query exactly as long as every general thread
   that the session gets later is stamped later than it. A clock that stands still or is set back ends that.
   */
  lemma DefaultStaysIff(a: Db, b: Db, session: nat, t: nat)
    requires Extends(a, b) && OnlyDefault(a, session, t)
    ensures OnlyDefault(b, session, t) <==> LaterAreYounger(b, session, t, |a.threads|)
  {
    assert forall u: nat | u < |a.threads| :: IsGeneral(a, session, u) == IsGeneral(b, session, u);
    if LaterAreYounger(b, session, t, |a.threads|) {
      forall u: nat | IsDefault(b, session, u) ensures u == t {
        assert IsDefault(a, session, u);
      }
    } else if OnlyDefault(b, session, t) {
      var u: nat :| IsGeneral(b, session, u) && u >= |a.threads| && b.threads[u].createdAt <= b.threads[t].createdAt;
      assert IsDefault(b, session, u);
    }
  }

  /** Without a second general thread nothing the clock does can change the default. */
  lemma DefaultIsKept(a: Db, b: Db, session: nat, t: nat)
    requires KeepsGenerals(a, b) && IsGeneral(a, session, t)
    ensures IsDefault(a, session, t) <==> IsDefault(b, session, t)
    ensures OnlyDefault(a, session, t) <==> OnlyDefault(b, session, t)
  {
    assert forall u: nat | u < |a.threads| :: IsGeneral(a, session, u) == IsGeneral(b, session, u);
    assert forall u: nat | IsGeneral(b, session, u) :: IsGeneral(a, session, u);
    assert forall u: nat :: IsDefault(a, session, u) == IsDefault(b, session, u);
  }

  lemma OneMoreRow(db: Db, row: Row)
    requires WellFormed(db) && row.thread < |db.threads|
    ensures WellFormed(db.(rows := db.rows + [row]))
  {
  }

  lemma {:induction false} TraceExtends(trace: seq<Db>, j: nat, k: nat)
    requires forall i | 0 <= i < |trace| - 1 :: Extends(trace[i], trace[i + 1])
    requires j <= k < |trace|
    ensures Extends(trace[j], trace[k])
  {
    if j < k {
      TraceExtends(trace, j, k - 1);
      assert Extends(trace[k - 1], trace[k - 1 + 1]);
    }
  }

  /**
   Over any sequence of states of growing tables, a session's default thread is the same one to the end if and
   only if no general thread that the session got on the way is stamped at or before it.
   */
  lemma DefaultNeverChangesIff(trace: seq<Db>, session: nat, t: nat, j: nat)
    requires forall i | 0 <= i < |trace| - 1 :: Extends(trace[i], trace[i + 1])
    requires j < |trace| && OnlyDefault(trace[j], session, t)
    ensures (forall k | j <= k < |trace| :: OnlyDefault(trace[k], session, t))
       <==> t < |trace[|trace| - 1].threads| && LaterAreYounger(trace[|trace| - 1], session, t, |trace[j].threads|)
  {
    var last := trace[|trace| - 1];
    TraceExtends(trace, j, |trace| - 1);
    DefaultStaysIff(trace[j], last, session, t);
    if OnlyDefault(last, session, t) {
      forall k | j <= k < |trace| ensures OnlyDefault(trace[k], session, t) {
        TraceExtends(trace, j, k);
        TraceExtends(trace, k, |trace| - 1);
        DefaultStaysIff(trace[j], trace[k], session, t);
        assert forall u: nat | IsGeneral(trace[k], session, u) ::
          IsGeneral(last, session, u) && last.threads[u] == trace[k].threads[u];
      }
    }
  }

  class Store {
    var sessions: seq<SessionKey>
    var threads: seq<ThreadRow>
    var rows: seq<Row>          // committed
    var pending: seq<Row>       // added since the last commit
    var counts: seq<nat>        // message_count as this session sees it
    var saved: seq<nat>         // message_count as committed

    ghost function Committed(): Db
      reads this
    {
      Db(sessions, threads, rows)
    }

    ghost function Full(): Db
      reads this
    {
      Db(sessions, threads, rows + pending)
    }

    /** `message_count` is the number of the thread's rows, before and after the next commit. */
    ghost predicate Valid()
      reads this
    {
      && WellFormed(Full())
      && |counts| == |saved| == |threads|
      && Counted(counts, rows + pending)
      && Counted(saved, rows)
    }

    ghost predicate Clean()
      reads this
    {
      pending == []
    }

    constructor ()
      ensures Valid() && Clean() && Committed() == Db([], [], [])
    {
      sessions, threads, rows, pending, counts, saved := [], [], [], [], [], [];
      new;
      assert rows + pending == [];
    }

    method Commit()
      requires Valid()
      modifies this
      ensures Valid() && Clean() && Full() == old(Full()) == Committed()
      ensures counts == old(counts)
    {
      rows, pending, saved := rows + pending, [], counts;
      assert rows + pending == rows;
    }

    /** Everything added since the last commit is gone, counters included. */
    method Rollback()
      requires Valid()
      modifies this
      ensures Valid() && Clean() && Committed() == old(Committed()) && saved == old(saved) && counts == saved
    {
      pending, counts := [], saved;
      assert rows + pending == rows;
      assert forall r <- rows :: r in old(rows + pending);
    }

    method GetOrCreateSession(key: SessionKey) returns (id: nat)
      requires Valid()
      modifies this
      ensures Valid() && Extends(old(Full()), Full())
      ensures id < |sessions| && sessions[id] == key
      ensures sessions == if key in old(sessions) then old(sessions) else old(sessions) + [key]
      ensures key in old(sessions) ==> Unchanged(old(Committed()), old(pending), old(counts), old(saved))
      ensures threads == old(threads) && rows + pending == old(rows + pending) && old(rows) <= rows
    {
      id := 0;
      while id < |sessions|
        invariant id <= |sessions| && forall i | 0 <= i < id :: sessions[i] != key
        invariant Valid() && Unchanged(old(Committed()), old(pending), old(counts), old(saved))
      {
        if sessions[id] == key {
          return;
        }
        id := id + 1;
      }
      sessions := sessions + [key];
      Commit();
    }

    ghost predicate Unchanged(db: Db, pending0: seq<Row>, counts0: seq<nat>, saved0: seq<nat>)
      reads this
    {
      Committed() == db && pending == pending0 && counts == counts0 && saved == saved0
    }

    /** A new thread is committed at once, together with everything added before it. */
    method CreateThread(session: nat, claim: Option<int>, now: nat) returns (t: nat)
      requires Valid() && session < |sessions|
      requires forall u | 0 <= u < |threads| && claim.Some? ::
                 threads[u].session != session || threads[u].claim != claim
      modifies this
      ensures Valid() && Clean() && Extends(old(Full()), Full())
      ensures sessions == old(sessions) && rows + pending == old(rows + pending) && old(rows) <= rows
      ensures t == |old(threads)| && threads == old(threads) + [ThreadRow(session, claim, now)]
    {
      t := |threads|;
      NoRowsYet(rows + pending, t);
      NoRowsYetIn(rows, pending, t);
      threads := threads + [ThreadRow(session, claim, now)];
      counts := counts + [0];
      saved := saved + [0];
      Commit();
    }

    /** The oldest general thread of the session, or a new one; of equally old ones the first. */
    method GeneralThread(session: nat, now: nat) returns (t: nat)
      requires Valid() && session < |sessions|
      modifies this
      ensures Valid() && KeepsGenerals(old(Full()), Full()) && IsDefault(Full(), session, t)
      ensures sessions == old(sessions) && rows + pending == old(rows + pending) && old(rows) <= rows
      ensures if exists u: nat :: IsGeneral(old(Full()), session, u)
              then Unchanged(old(Committed()), old(pending), old(counts), old(saved))
              else threads == old(threads) + [ThreadRow(session, None, now)]
    {
      var found: Option<nat> := None;
      for u := 0 to |threads|
        invariant Valid() && Unchanged(old(Committed()), old(pending), old(counts), old(saved))
        invariant found.None? ==> forall v: nat | v < u :: !IsGeneral(Full(), session, v)
        invariant found.Some? ==>
          && found.value < u && IsGeneral(Full(), session, found.value)
          && forall v: nat | v < u && IsGeneral(Full(), session, v) ::
               threads[found.value].createdAt <= threads[v].createdAt
      {
        if threads[u].session == session && threads[u].claim.None? {
          if found.None? || threads[u].createdAt < threads[found.value].createdAt {
            found := Some(u);
          }
        }
      }
      if found.Some? {
        t := found.value;
        assert forall u: nat | IsGeneral(Full(), session, u) :: threads[t].createdAt <= threads[u].createdAt;
      } else {
        ghost var before := Full();
        assert forall u: nat :: !IsGeneral(before, session, u);
        t := CreateThread(session, None, now);
        assert forall u: nat | IsGeneral(Full(), session, u) && u < t :: IsGeneral(before, session, u);
      }
    }

    method ClaimThread(session: nat, claim: int, now: nat) returns (t: nat)
      requires Valid() && session < |sessions|
      modifies this
      ensures Valid() && KeepsGenerals(old(Full()), Full()) && IsClaimThread(Full(), session, claim, t)
      ensures sessions == old(sessions) && rows + pending == old(rows + pending) && old(rows) <= rows
      ensures if exists u: nat :: IsClaimThread(old(Full()), session, claim, u)
              then Unchanged(old(Committed()), old(pending), old(counts), old(saved))
              else threads == old(threads) + [ThreadRow(session, Some(claim), now)]
    {
      t := 0;
      while t < |threads|
        invariant t <= |threads|
        invariant Valid() && Unchanged(old(Committed()), old(pending), old(counts), old(saved))
        invariant forall v | 0 <= v < t :: threads[v].session != session || threads[v].claim != Some(claim)
      {
        if threads[t].session == session && threads[t].claim == Some(claim) {
          assert IsClaimThread(old(Full()), session, claim, t);
          return;
        }
        t := t + 1;
      }
      assert !exists u: nat :: IsClaimThread(Full(), session, claim, u);
      t := CreateThread(session, Some(claim), now);
    }

    /** `resolve_thread`: a claim id wins over a thread id; an unknown thread id is an error that changes nothing. */
    method ResolveThread(session: nat, threadId: Option<nat>, claimId: Option<int>, now: nat) returns (t: Option<nat>)
      requires Valid() && session < |sessions|
      modifies this
      ensures Valid() && KeepsGenerals(old(Full()), Full())
      ensures t.Some? ==> t.value < |threads| && threads[t.value].session == session
      ensures claimId.Some? ==> t.Some? && IsClaimThread(Full(), session, claimId.value, t.value)
      ensures claimId.None? && threadId.Some? ==>
                t == (if threadId.value < |old(threads)| && old(threads)[threadId.value].session == session
                      then threadId else None)
      ensures claimId.None? && threadId.Some? ==> Unchanged(old(Committed()), old(pending), old(counts), old(saved))
      ensures claimId.None? && threadId.None? ==> t.Some? && IsDefault(Full(), session, t.value)
    {
      if claimId.Some? {
        var c := ClaimThread(session, claimId.value, now);
        return Some(c);
      }
      if threadId.Some? {
        if threadId.value < |threads| && threads[threadId.value].session == session {
          return threadId;
        }
        return None;
      }
      var g := GeneralThread(session, now);
      return Some(g);
    }

    /** Add one message row and count it; nothing is written yet. */
    method Add(row: Row)
      requires Valid() && row.thread < |threads|
      modifies this
      ensures Valid() && Committed() == old(Committed()) && pending == old(pending) + [row]
      ensures counts == old(counts)[row.thread := old(counts)[row.thread] + 1] && saved == old(saved)
    {
      ghost var before := rows + pending;
      pending := pending + [row];
      counts := counts[row.thread := counts[row.thread] + 1];
      assert rows + pending == before + [row];
      CountOneMore(old(counts), before, row);
      OneMoreRow(old(Full()), row);
      assert Full() == old(Full()).(rows := before + [row]);
    }

    /** A live exchange: two rows, `message_count` plus two, one commit. */
    method PersistExchange(t: nat, user: string, reply: string, t1: nat, t2: nat)
      requires Valid() && t < |threads|
      modifies this
      ensures Valid() && Clean() && Extends(old(Full()), Full())
      ensures sessions == old(sessions) && threads == old(threads)
      ensures rows == old(rows) + old(pending) + [Row(t, User, t1, user), Row(t, Assistant, t2, reply)]
      ensures counts[t] == old(counts)[t] + 2
    {
      var question, answer := Row(t, User, t1, user), Row(t, Assistant, t2, reply);
      Add(question);
      Add(answer);
      assert rows + pending == old(rows) + old(pending) + [question, answer];
      Commit();
    }
  }

  lemma NoRowsYetIn(rows: seq<Row>, pending: seq<Row>, t: nat)
    requires forall r <- rows + pending :: r.thread < t
    ensures CountOf(rows, t) == 0
  {
    assert forall r <- rows :: r in rows + pending;
    NoRowsYet(rows, t);
  }
}
