/**
 The export of decided claims to the bronze table: read the unmarked candidates, insert all rows with
 one statement, then mark the claims with one commit. A run may stop before the insert, or between
 the insert and the commit; the app goes on changing claims between runs.
 */
module ClaimExport {
  import opened Options

  datatype Status = Draft | Pending | Processing | AnalysisComplete | Approved | Rejected | Escalate | HumanReview
                  | PendingReview | RequestMoreInfo | SubmissionReady | SubmittedToInsurer

  /** `payable` is the amount of the claim's decision; a claim without one has not finished the pipeline. */
  datatype Claim = Claim(number: string, status: Status, payable: Option<real>, policy: Option<int>,
                         exported: Option<int>)

  datatype BronzeStatus = BronzeApproved | BronzeRejected | BronzeUnderReview | BronzePending

  datatype BronzeRow = BronzeRow(number: string, policyNumber: string, status: BronzeStatus, approved: Option<real>,
                                 at: int)

  /** An absent policy row or an empty number are the same to the export. */
  type Policies = map<int, string>

  function MapStatus(s: Status): BronzeStatus {
    match s
    case Approved => BronzeApproved
    case Rejected => BronzeRejected
    case Escalate | HumanReview | PendingReview => BronzeUnderReview
    case _ => BronzePending
  }

  /** The candidates of the query: decided, linked to a policy, not marked. */
  predicate Candidate(c: Claim) {
    c.payable.Some? && c.policy.Some? && c.exported.None?
  }

  predicate HasNumber(c: Claim, policies: Policies) {
    c.policy.Some? && c.policy.value in policies && policies[c.policy.value] != ""
  }

  predicate Ready(c: Claim, policies: Policies) {
    Candidate(c) && HasNumber(c, policies)
  }

  function BuildRow(c: Claim, policies: Policies, now: int): BronzeRow
    requires Ready(c, policies)
  {
    var status := MapStatus(c.status);
    BronzeRow(c.number, policies[c.policy.value], status, if status == BronzeApproved then c.payable else None, now)
  }

  /** A claim is exported exactly if it is decided, not marked, and linked to a policy that has a number. */
  lemma ReadyIff(c: Claim, policies: Policies)
    ensures Ready(c, policies)
       <==> && c.payable.Some? && c.exported.None? && c.policy.Some?
            && c.policy.value in policies && policies[c.policy.value] != ""
  {
  }

  /** Its row: number, policy number and time, the status in the lakehouse's words, an amount only if approved. */
  lemma RowIs(c: Claim, policies: Policies, now: int)
    requires Ready(c, policies)
    ensures var row := BuildRow(c, policies, now);
      && row.number == c.number && row.policyNumber == policies[c.policy.value] && row.at == now
      && (row.status == BronzeApproved <==> c.status == Approved)
      && (row.status == BronzeRejected <==> c.status == Rejected)
      && (row.status == BronzeUnderReview <==> c.status in {Escalate, HumanReview, PendingReview})
      && row.approved == if c.status == Approved then c.payable else None
  {
  }

  function RowsFor(claims: seq<Claim>, policies: Policies, now: int): seq<BronzeRow> {
    if claims == [] then [] else
    var last := claims[|claims| - 1];
    RowsFor(claims[..|claims| - 1], policies, now)
      + if Ready(last, policies) then [BuildRow(last, policies, now)] else []
  }

  function Marked(claims: seq<Claim>, policies: Policies, now: int): (after: seq<Claim>)
    ensures |after| == |claims|
    ensures forall i | 0 <= i < |claims| ::
              after[i] == if Ready(claims[i], policies) then claims[i].(exported := Some(now)) else claims[i]
  {
    seq(|claims|, i requires 0 <= i < |claims| =>
      if Ready(claims[i], policies) then claims[i].(exported := Some(now)) else claims[i])
  }

  datatype Db = Db(claims: seq<Claim>, policies: Policies, bronze: seq<BronzeRow>)

  /** How a run ends: complete, before the insert took effect, or after it and before the commit. */
  datatype Cut = Complete | BeforeInsert | BeforeCommit

  function AfterRun(db: Db, dryRun: bool, cut: Cut, now: int): Db {
    var rows := RowsFor(db.claims, db.policies, now);
    if rows == [] || dryRun || cut == BeforeInsert then db
    else if cut == BeforeCommit then db.(bronze := db.bronze + rows)
    else db.(bronze := db.bronze + rows, claims := Marked(db.claims, db.policies, now))
  }

  class Exporter {
    var claims: seq<Claim>
    var policies: Policies
    var bronze: seq<BronzeRow>

    function State(): Db
      reads this
    {
      Db(claims, policies, bronze)
    }

    constructor (db: Db)
      ensures State() == db
    {
      claims, policies, bronze := db.claims, db.policies, db.bronze;
    }

    method Run(dryRun: bool, cut: Cut, now: int)
      modifies this
      ensures State() == AfterRun(old(State()), dryRun, cut, now)
    {
      var values, chosen := Collect(claims, policies, now);
      if values == [] || dryRun || cut == BeforeInsert {
        return;
      }
      bronze := bronze + values;
      if cut == BeforeCommit {
        return;
      }
      ghost var before := claims;
      for k := 0 to |chosen|
        invariant policies == old(policies) && bronze == old(bronze) + values && |claims| == |before|
        invariant forall i | 0 <= i < |claims| ::
          claims[i] == if i in chosen[..k] then before[i].(exported := Some(now)) else before[i]
      {
        var i := chosen[k];
        assert i in chosen;
        claims := claims[i := claims[i].(exported := Some(now))];
        assert chosen[..k + 1] == chosen[..k] + [i];
      }
      assert chosen[..|chosen|] == chosen;
      assert claims == Marked(before, policies, now);
    }
  }

  /** The rows to insert and the positions of their claims. */
  method Collect(claims: seq<Claim>, policies: Policies, now: int) returns (values: seq<BronzeRow>, chosen: seq<nat>)
    ensures values == RowsFor(claims, policies, now)
    ensures forall i: nat :: i in chosen <==> i < |claims| && Ready(claims[i], policies)
  {
    values, chosen := [], [];
    for i := 0 to |claims|
      invariant values == RowsFor(claims[..i], policies, now)
      invariant forall j: nat :: j in chosen <==> j < i && Ready(claims[j], policies)
    {
      assert claims[..i + 1][..i] == claims[..i];
      var claim := claims[i];
      if Candidate(claim) {
        if claim.policy.value in policies && policies[claim.policy.value] != "" {
          values := values + [BuildRow(claim, policies, now)];
          chosen := chosen + [i];
        }
      }
    }
    assert claims[..|claims|] == claims;
  }

  /* ---- histories ---- */

  datatype Event = Run(dryRun: bool, cut: Cut, now: int) | AppChange

  /** The app adds claims and changes them, but not their numbers, their order or their marks. */
  ghost predicate AppStep(a: Db, b: Db) {
    && |a.claims| <= |b.claims| && a.bronze == b.bronze
    && (forall i | 0 <= i < |a.claims| ::
          b.claims[i].number == a.claims[i].number && b.claims[i].exported == a.claims[i].exported)
    && (forall i | |a.claims| <= i < |b.claims| :: b.claims[i].exported == None)
  }

  ghost predicate DistinctNumbers(claims: seq<Claim>) {
    forall i, j | 0 <= i < j < |claims| :: claims[i].number != claims[j].number
  }

  ghost predicate IsStep(a: Db, e: Event, b: Db) {
    match e
    case Run(dryRun, cut, now) => b == AfterRun(a, dryRun, cut, now)
    case AppChange => AppStep(a, b)
  }

  ghost predicate IsHistory(trace: seq<Db>, events: seq<Event>) {
    && |trace| == |events| + 1
    && trace[0].bronze == [] && (forall c <- trace[0].claims :: c.exported == None)
    && (forall k | 0 <= k < |trace| :: DistinctNumbers(trace[k].claims))
    && (forall k | 0 <= k < |events| :: IsStep(trace[k], events[k], trace[k + 1]))
  }

  function Count(bronze: seq<BronzeRow>, number: string): nat {
    if bronze == [] then 0 else
    Count(bronze[..|bronze| - 1], number) + if bronze[|bronze| - 1].number == number then 1 else 0
  }

  /** The run inserted a row for the claim and was cut before it could mark it. */
  predicate CutWith(db: Db, e: Event, number: string) {
    e.Run? && !e.dryRun && e.cut == BeforeCommit && exists c <- db.claims :: c.number == number && Ready(c, db.policies)
  }

  ghost function CutsWith(trace: seq<Db>, events: seq<Event>, number: string, k: nat): nat
    requires |trace| == |events| + 1 && k <= |events|
  {
    if k == 0 then 0
    else CutsWith(trace, events, number, k - 1) + if CutWith(trace[k - 1], events[k - 1], number) then 1 else 0
  }

  predicate IsMarked(db: Db, number: string) {
    exists c <- db.claims :: c.number == number && c.exported.Some?
  }

  lemma {:induction false} CountOfConcat(a: seq<BronzeRow>, b: seq<BronzeRow>, number: string)
    ensures Count(a + b, number) == Count(a, number) + Count(b, number)
  {
    if b == [] {
      assert a + b == a;
    } else {
      CountOfConcat(a, b[..|b| - 1], number);
      assert (a + b)[..|a + b| - 1] == a + b[..|b| - 1];
    }
  }

  /** One insert holds one row for each claim that is ready. */
  lemma {:induction false} RowsCount(claims: seq<Claim>, policies: Policies, now: int, number: string)
    requires DistinctNumbers(claims)
    ensures Count(RowsFor(claims, policies, now), number)
         == if exists c <- claims :: c.number == number && Ready(c, policies) then 1 else 0
  {
    if claims != [] {
      var init, last := claims[..|claims| - 1], claims[|claims| - 1];
      RowsCount(init, policies, now, number);
      assert forall c :: c in claims <==> c in init || c == last;
      forall c | c in init ensures c.number != last.number {
        var i :| 0 <= i < |init| && init[i] == c;
        assert claims[i].number != claims[|claims| - 1].number;
      }
      if Ready(last, policies) {
        CountOfConcat(RowsFor(init, policies, now), [BuildRow(last, policies, now)], number);
        assert [BuildRow(last, policies, now)][..0] == [];
      } else {
        assert RowsFor(init, policies, now) + [] == RowsFor(init, policies, now);
      }
    }
  }

  /** Which rows one insert holds: exactly the rows of the claims that are ready. */
  lemma {:induction false} RowsAreReadyClaims(claims: seq<Claim>, policies: Policies, now: int, row: BronzeRow)
    ensures row in RowsFor(claims, policies, now)
       <==> exists c <- claims :: Ready(c, policies) && row == BuildRow(c, policies, now)
  {
    if claims != [] {
      var init, last := claims[..|claims| - 1], claims[|claims| - 1];
      RowsAreReadyClaims(init, policies, now, row);
      assert forall c :: c in claims <==> c in init || c == last;
    }
  }

  lemma ReadyIsNotMarked(db: Db, number: string)
    requires DistinctNumbers(db.claims) && IsMarked(db, number)
    ensures !exists c <- db.claims :: c.number == number && Ready(c, db.policies)
  {
    var m :| m in db.claims && m.number == number && m.exported.Some?;
    var i :| 0 <= i < |db.claims| && db.claims[i] == m;
    forall c | c in db.claims && c.number == number ensures !Ready(c, db.policies) {
      var j :| 0 <= j < |db.claims| && db.claims[j] == c;
      assert i == j;
    }
  }

  lemma MarkedMarks(db: Db, now: int, number: string)
    ensures (exists c <- Marked(db.claims, db.policies, now) :: c.number == number && c.exported.Some?)
       <==> IsMarked(db, number) || exists c <- db.claims :: c.number == number && Ready(c, db.policies)
  {
    var after := Marked(db.claims, db.policies, now);
    if c :| c in db.claims && c.number == number && (c.exported.Some? || Ready(c, db.policies)) {
      var i :| 0 <= i < |db.claims| && db.claims[i] == c;
      assert after[i] in after;
    }
    if c :| c in after && c.number == number && c.exported.Some? {
      var i :| 0 <= i < |after| && after[i] == c;
      assert db.claims[i] in db.claims;
    }
  }

  lemma RunKeepsTheBalance(db: Db, dryRun: bool, cut: Cut, now: int, number: string)
    requires DistinctNumbers(db.claims)
    ensures Count(AfterRun(db, dryRun, cut, now).bronze, number)
         == Count(db.bronze, number)
          + (if IsMarked(AfterRun(db, dryRun, cut, now), number) then 1 else 0)
          - (if IsMarked(db, number) then 1 else 0)
          + (if CutWith(db, Run(dryRun, cut, now), number) then 1 else 0)
  {
    var rows := RowsFor(db.claims, db.policies, now);
    RowsCount(db.claims, db.policies, now, number);
    CountOfConcat(db.bronze, rows, number);
    if IsMarked(db, number) {
      ReadyIsNotMarked(db, number);
    }
    if rows != [] && !dryRun && cut == Complete {
      MarkedMarks(db, now, number);
    }
  }

  lemma AppKeepsMarks(a: Db, b: Db, number: string)
    requires AppStep(a, b)
    ensures IsMarked(a, number) == IsMarked(b, number)
  {
    if c :| c in a.claims && c.number == number && c.exported.Some? {
      var i :| 0 <= i < |a.claims| && a.claims[i] == c;
      assert b.claims[i] in b.claims;
    }
    if c :| c in b.claims && c.number == number && c.exported.Some? {
      var i :| 0 <= i < |b.claims| && b.claims[i] == c;
      assert a.claims[i] in a.claims;
    }
  }

  /**
   The books of one claim, after any run of complete, dry and cut exports mixed with changes by the app:
   its rows are one for its mark plus one for each run cut between its insert and its commit.
   */
  lemma {:induction false} RowsAreMarkPlusCuts(trace: seq<Db>, events: seq<Event>, number: string, k: nat)
    requires IsHistory(trace, events) && k <= |events|
    ensures Count(trace[k].bronze, number)
         == (if IsMarked(trace[k], number) then 1 else 0) + CutsWith(trace, events, number, k)
  {
    if k > 0 {
      RowsAreMarkPlusCuts(trace, events, number, k - 1);
      assert IsStep(trace[k - 1], events[k - 1], trace[k - 1 + 1]);
      match events[k - 1] {
        case Run(dryRun, cut, now) =>
          RunKeepsTheBalance(trace[k - 1], dryRun, cut, now, number);
        case AppChange =>
          AppKeepsMarks(trace[k - 1], trace[k], number);
      }
    }
  }

  /** A marked claim is in the bronze table. */
  lemma MarkedIsInBronze(trace: seq<Db>, events: seq<Event>, number: string, k: nat)
    requires IsHistory(trace, events) && k <= |events| && IsMarked(trace[k], number)
    ensures exists row <- trace[k].bronze :: row.number == number
  {
    RowsAreMarkPlusCuts(trace, events, number, k);
    CountFindsARow(trace[k].bronze, number);
  }

  lemma {:induction false} CountFindsARow(bronze: seq<BronzeRow>, number: string)
    ensures Count(bronze, number) > 0 <==> exists row <- bronze :: row.number == number
  {
    if bronze != [] {
      var init, last := bronze[..|bronze| - 1], bronze[|bronze| - 1];
      CountFindsARow(init, number);
      assert forall r :: r in bronze <==> r in init || r == last;
    }
  }

  lemma MarkedGainsNothing(a: Db, e: Event, b: Db, number: string)
    requires DistinctNumbers(a.claims) && IsStep(a, e, b) && IsMarked(a, number)
    ensures IsMarked(b, number) && a.bronze <= b.bronze && Count(b.bronze, number) == Count(a.bronze, number)
  {
    match e {
      case Run(dryRun, cut, now) =>
        MarkedMarks(a, now, number);
        ReadyIsNotMarked(a, number);
        RunKeepsTheBalance(a, dryRun, cut, now, number);
      case AppChange =>
        AppKeepsMarks(a, b, number);
    }
  }

  /**
   What the table says of a claim is final with its mark: the table only grows, and not by rows of that
   claim, whatever the app later does to its status or its decision.
   */
  lemma {:induction false} MarkedIsFinal(trace: seq<Db>, events: seq<Event>, number: string, i: nat, j: nat)
    requires IsHistory(trace, events) && i <= j <= |events| && IsMarked(trace[i], number)
    ensures IsMarked(trace[j], number) && trace[i].bronze <= trace[j].bronze
    ensures Count(trace[j].bronze, number) == Count(trace[i].bronze, number)
  {
    if i < j {
      MarkedIsFinal(trace, events, number, i, j - 1);
      assert IsStep(trace[j - 1], events[j - 1], trace[j - 1 + 1]);
      MarkedGainsNothing(trace[j - 1], events[j - 1], trace[j], number);
    }
  }

  /**
   The next complete run picks up all that is owed, also after cut runs: each claim that is ready gets its
   row and its mark, the others are left alone (a claim whose policy has no number stays owed), and a
   further run, however it ends, finds nothing to do.
   */
  lemma CompleteRunSettles(db: Db, now: int, dryRun: bool, cut: Cut, later: int)
    ensures var after := AfterRun(db, false, Complete, now);
            && |after.claims| == |db.claims|
            && (forall i | 0 <= i < |db.claims| && Ready(db.claims[i], db.policies) ::
                  after.claims[i].exported == Some(now) && BuildRow(db.claims[i], db.policies, now) in after.bronze)
            && (forall i | 0 <= i < |db.claims| && !Ready(db.claims[i], db.policies) :: after.claims[i] == db.claims[i])
            && AfterRun(after, dryRun, cut, later) == after
  {
    var after := AfterRun(db, false, Complete, now);
    var rows := RowsFor(db.claims, db.policies, now);
    forall i | 0 <= i < |db.claims| && Ready(db.claims[i], db.policies)
      ensures rows != [] && BuildRow(db.claims[i], db.policies, now) in rows
    {
      assert db.claims[i] in db.claims;
      RowsAreReadyClaims(db.claims, db.policies, now, BuildRow(db.claims[i], db.policies, now));
    }
    assert forall i | 0 <= i < |after.claims| :: !Ready(after.claims[i], db.policies);
    NoReadyNoRows(after.claims, db.policies, later);
  }

  lemma NoReadyNoRows(claims: seq<Claim>, policies: Policies, now: int)
    requires forall c <- claims :: !Ready(c, policies)
    ensures RowsFor(claims, policies, now) == []
  {
    var rows := RowsFor(claims, policies, now);
    if rows != [] {
      RowsAreReadyClaims(claims, policies, now, rows[0]);
    }
  }

  /**
   Every row tells what one claim was when a run read it: decided and linked to that policy. An approved
   amount stands in the row exactly when the claim was approved at that time.
   */
  lemma {:induction false} RowOrigin(trace: seq<Db>, events: seq<Event>, k: nat, row: BronzeRow)
    returns (j: nat, c: Claim)
    requires IsHistory(trace, events) && k <= |events| && row in trace[k].bronze
    ensures j < k && events[j].Run? && c in trace[j].claims && Ready(c, trace[j].policies)
    ensures row == BuildRow(c, trace[j].policies, events[j].now)
    ensures row.number == c.number && row.policyNumber != "" && row.at == events[j].now
    ensures row.status.BronzeApproved? <==> c.status == Approved
    ensures row.status.BronzeRejected? <==> c.status == Rejected
    ensures row.status.BronzeUnderReview? <==> c.status in {Escalate, HumanReview, PendingReview}
    ensures row.approved == (if c.status == Approved then c.payable else None)
  {
    assert k > 0;
    if row in trace[k - 1].bronze {
      j, c := RowOrigin(trace, events, k - 1, row);
    } else {
      assert IsStep(trace[k - 1], events[k - 1], trace[k - 1 + 1]);
      j := k - 1;
      RowsAreReadyClaims(trace[j].claims, trace[j].policies, events[j].now, row);
      c :| c in trace[j].claims && Ready(c, trace[j].policies) && row == BuildRow(c, trace[j].policies, events[j].now);
    }
  }
}
