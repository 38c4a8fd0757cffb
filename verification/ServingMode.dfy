/** Job mcc-07: a named person moves the model mode of the approval champion, with evidence. */
module ServingMode {
  import opened Options
  import opened KpiGate
  import opened ModelDirs

  /** `round` is the rounding of the runtime to four places. */
  datatype Rules = Rules(minScored: nat, minAgreement: real, round: real -> real)

  /** One row of gold.fact_model_score; `agrees` is missing for a claim without a decision. */
  datatype ScoreRow = ScoreRow(approvalVersion: string, agrees: Option<bool>)

  function ScoresOf(table: seq<ScoreRow>, version: string): seq<ScoreRow> {
    if table == [] then [] else
    ScoresOf(table[..|table| - 1], version)
    + if table[|table| - 1].approvalVersion == version then [table[|table| - 1]] else []
  }

  function Answers(rows: seq<ScoreRow>, agrees: bool): nat {
    if rows == [] then 0 else
    Answers(rows[..|rows| - 1], agrees) + if rows[|rows| - 1].agrees == Some(agrees) then 1 else 0
  }

  /** `evidence`: the counts of one model version in the score table, which may be out of reach. */
  function EvidenceFor(table: Option<seq<ScoreRow>>, version: string, rules: Rules): (ev: Evidence)
    ensures ev.Scores?
  {
    if table.None? then Scores(0, 0, None) else
    var rows := ScoresOf(table.value, version);
    var agreed, compared := Answers(rows, true), Answers(rows, true) + Answers(rows, false);
    Scores(|rows|, compared, if compared == 0 then None else Some(rules.round(agreed as real / compared as real)))
  }

  /* ---- the same evidence, counted in the table ---- */

  ghost function RowsOf(table: seq<ScoreRow>, version: string): set<nat> {
    set i: nat | i < |table| && table[i].approvalVersion == version
  }

  ghost function RowsAnswering(table: seq<ScoreRow>, version: string, agrees: bool): set<nat> {
    set i: nat | i < |table| && table[i].approvalVersion == version && table[i].agrees == Some(agrees)
  }

  lemma {:induction false} RowsCount(table: seq<ScoreRow>, version: string)
    ensures |ScoresOf(table, version)| == |RowsOf(table, version)|
  {
    if table == [] {
      assert RowsOf(table, version) == {};
    } else {
      var n := |table| - 1;
      RowsCount(table[..n], version);
      assert RowsOf(table, version)
          == RowsOf(table[..n], version) + if table[n].approvalVersion == version then {n} else {};
    }
  }

  lemma {:induction false} AnswersCount(table: seq<ScoreRow>, version: string, agrees: bool)
    ensures Answers(ScoresOf(table, version), agrees) == |RowsAnswering(table, version, agrees)|
  {
    if table == [] {
      assert RowsAnswering(table, version, agrees) == {};
    } else {
      var n := |table| - 1;
      AnswersCount(table[..n], version, agrees);
      OneMoreAnswer(ScoresOf(table[..n], version), table[n], agrees);
      OneMoreAnswering(table, version, agrees);
    }
  }

  lemma OneMoreAnswering(table: seq<ScoreRow>, version: string, agrees: bool)
    requires table != []
    ensures var n := |table| - 1;
      |RowsAnswering(table, version, agrees)| == |RowsAnswering(table[..n], version, agrees)|
        + if table[n].approvalVersion == version && table[n].agrees == Some(agrees) then 1 else 0
  {
    var n := |table| - 1;
    var take := table[n].approvalVersion == version && table[n].agrees == Some(agrees);
    var before, after := RowsAnswering(table[..n], version, agrees), RowsAnswering(table, version, agrees);
    forall i: nat ensures i in after <==> i in before || (i == n && take) {
      if i < n {
        assert table[..n][i] == table[i];
      }
    }
    OneMoreIn(before, after, n, take);
  }

  lemma OneMoreIn(before: set<nat>, after: set<nat>, n: nat, take: bool)
    requires n !in before && forall i: nat :: i in after <==> i in before || (i == n && take)
    ensures |after| == |before| + if take then 1 else 0
  {
    assert after == if take then before + {n} else before;
  }

  lemma OneMoreAnswer(rows: seq<ScoreRow>, row: ScoreRow, agrees: bool)
    ensures Answers(rows + [row], agrees) == Answers(rows, agrees) + if row.agrees == Some(agrees) then 1 else 0
    ensures rows + [] == rows
  {
    assert (rows + [row])[..|rows|] == rows;
  }

  /** The share of the answers that agree, rounded; none without an answer. */
  ghost function Agreement(table: seq<ScoreRow>, version: string, rules: Rules): Option<real> {
    var agreed, refuted := |RowsAnswering(table, version, true)|, |RowsAnswering(table, version, false)|;
    if agreed + refuted == 0 then None else Some(rules.round(agreed as real / (agreed + refuted) as real))
  }

  ghost function CountsOf(table: Option<seq<ScoreRow>>, version: string, rules: Rules): Evidence {
    if table.None? then Scores(0, 0, None)
    else Scores(|RowsOf(table.value, version)|,
                |RowsAnswering(table.value, version, true)| + |RowsAnswering(table.value, version, false)|,
                Agreement(table.value, version, rules))
  }

  /** A table is there and has enough rows of the version, and enough of its answers agree. */
  ghost predicate EnoughRows(table: Option<seq<ScoreRow>>, version: string, rules: Rules) {
    && table.Some? && |RowsOf(table.value, version)| >= rules.minScored
    && Agreement(table.value, version, rules).Some?
    && Agreement(table.value, version, rules).value >= rules.minAgreement
  }

  datatype Reason = NoApprover | UnknownMode | NoPassingGate | TooFewScores | LowAgreement

  const MODES := ["off", "shadow", "assist"]

  function Decide(target: string, approver: string, gate: Option<GateResult>, ev: Evidence,
                  rules: Rules): (why: seq<Reason>)
    requires target == "assist" ==> ev.Scores?
  {
    (if approver == "" then [NoApprover] else []) +
    (if target !in MODES then [UnknownMode] else []) +
    if target != "assist" then [] else
      (if gate.None? || !gate.value.passed then [NoPassingGate] else []) +
      (if ev.scored < rules.minScored then [TooFewScores] else []) +
      (if ev.agreement.None? || ev.agreement.value < rules.minAgreement then [LowAgreement] else [])
  }

  predicate EnoughEvidence(ev: Evidence, rules: Rules) {
    && ev.Scores?
    && ev.scored >= rules.minScored
    && ev.agreement.Some? && ev.agreement.value >= rules.minAgreement
  }

  /** A mode that a person may set on a champion with this gate result. */
  predicate Allowed(target: string, approver: string, gate: Option<GateResult>, ev: Evidence, rules: Rules) {
    && approver != ""
    && target in MODES
    && (target == "assist" ==> gate.Some? && gate.value.passed && EnoughEvidence(ev, rules))
  }

  lemma DecideIsExact(target: string, approver: string, gate: Option<GateResult>, ev: Evidence, rules: Rules)
    requires target == "assist" ==> ev.Scores?
    ensures Decide(target, approver, gate, ev, rules) == [] <==> Allowed(target, approver, gate, ev, rules)
  {
  }

  /** The mode the champion is served in: shadow unless its directory says otherwise. */
  function ServedMode(h: Head): string {
    if h.champion.Some? && h.champion.value.mode.Some? then h.champion.value.mode.value.mode else "shadow"
  }

  /** What the job is asked for, stripped of spaces, and the score table it finds. */
  datatype Request = Request(target: string, approver: string, table: Option<seq<ScoreRow>>)

  /** The evidence the job looks up for the version of the champion; only "assist" asks for it. */
  function Found(r: Request, version: string, rules: Rules): (ev: Evidence)
    ensures r.target == "assist" ==> ev.Scores?
  {
    if r.target == "assist" then EvidenceFor(r.table, version, rules) else NotNeeded
  }

  function FileFor(r: Request, version: string, rules: Rules): ModeFile {
    ModeFile(r.target, r.approver, version, Found(r, version, rules))
  }

  /** The head after the job: unchanged when there is no champion or any reason to refuse. */
  function Moved(h: Head, r: Request, rules: Rules): Head {
    if h.champion.None? then h else
    var c := h.champion.value;
    if Decide(r.target, r.approver, c.gate, Found(r, c.meta.modelVersion, rules), rules) != [] then h else
    h.(champion := Some(c.(mode := Some(FileFor(r, c.meta.modelVersion, rules)))))
  }

  /** Whether the job moves the champion: a named person, a mode it knows, and what "assist" asks for. */
  ghost predicate MayMove(c: Champion, r: Request, rules: Rules) {
    && r.approver != ""
    && (r.target == "off" || r.target == "shadow"
        || (r.target == "assist" && c.gate.Some? && c.gate.value.passed
            && EnoughRows(r.table, c.meta.modelVersion, rules)))
  }

  /** The file says what was asked for, by whom and for which version, and for "assist" what the table holds. */
  ghost predicate IsFileOf(file: ModeFile, c: Champion, r: Request, rules: Rules) {
    && file.mode == r.target && file.approvedBy == r.approver && file.modelVersion == c.meta.modelVersion
    && file.evidence == if r.target == "assist" then CountsOf(r.table, c.meta.modelVersion, rules) else NotNeeded
  }

  lemma FileIs(c: Champion, r: Request, rules: Rules)
    ensures IsFileOf(FileFor(r, c.meta.modelVersion, rules), c, r, rules)
    ensures Found(r, c.meta.modelVersion, rules).Scores? ==>
              (EnoughEvidence(Found(r, c.meta.modelVersion, rules), rules)
               <==> EnoughRows(r.table, c.meta.modelVersion, rules))
  {
    if r.table.Some? {
      RowsCount(r.table.value, c.meta.modelVersion);
      AnswersCount(r.table.value, c.meta.modelVersion, true);
      AnswersCount(r.table.value, c.meta.modelVersion, false);
    }
  }

  /** The job gives the champion a new mode file and nothing else, if and only if it may. */
  lemma MovedIff(h: Head, r: Request, rules: Rules)
    requires h.champion.Some?
    ensures var c, after := h.champion.value, Moved(h, r, rules);
      if MayMove(c, r, rules)
      then && after.champion.Some? && after.champion.value.mode.Some?
           && IsFileOf(after.champion.value.mode.value, c, r, rules)
           && after == h.(champion := Some(c.(mode := after.champion.value.mode)))
      else after == h
  {
    var c := h.champion.value;
    FileIs(c, r, rules);
    DecideIsExact(r.target, r.approver, c.gate, Found(r, c.meta.modelVersion, rules), rules);
  }

  /** Every mode file was allowed for the version it sits with, and names that version. */
  predicate ModeSound(c: Champion, rules: Rules) {
    c.mode.Some? ==>
      && c.mode.value.modelVersion == c.meta.modelVersion
      && Allowed(c.mode.value.mode, c.mode.value.approvedBy, c.gate, c.mode.value.evidence, rules)
  }
}
