/**
 Replacing one business date of the score table: a delete, then inserts of at most 200 rows, each a
 statement of its own. A run may stop after any statement.
 */
module ScoreTable {
  import opened Numbers

  const BATCH := 200

  datatype Row<T> = Row(date: int, score: T)

  function Others<T>(rows: seq<Row<T>>, d: int): seq<Row<T>> {
    if rows == [] then [] else
    var last := rows[|rows| - 1];
    Others(rows[..|rows| - 1], d) + if last.date != d then [last] else []
  }

  function Of<T>(rows: seq<Row<T>>, d: int): seq<T> {
    if rows == [] then [] else
    var last := rows[|rows| - 1];
    Of(rows[..|rows| - 1], d) + if last.date == d then [last.score] else []
  }

  function Dated<T>(scores: seq<T>, d: int): seq<Row<T>> {
    seq(|scores|, i requires 0 <= i < |scores| => Row(d, scores[i]))
  }

  /** The table after `n` statements of a write. */
  function After<T>(rows: seq<Row<T>>, d: int, scores: seq<T>, n: nat): seq<Row<T>> {
    if n == 0 then rows else Others(rows, d) + Dated(scores[..Min((n - 1) * BATCH, |scores|)], d)
  }

  /** The statements of a complete write. */
  function Statements<T>(scores: seq<T>): nat {
    1 + (|scores| + BATCH - 1) / BATCH
  }

  /** The delete, and then as many inserts of 200 rows as it takes and no more. */
  lemma StatementsAre<T>(scores: seq<T>)
    ensures Statements(scores) >= 1
    ensures (Statements(scores) - 1) * 200 >= |scores| > (Statements(scores) - 2) * 200
  {
  }

  class Table<T> {
    var rows: seq<Row<T>>

    constructor ()
      ensures rows == []
    {
      rows := [];
    }

    /** `write`, stopped after `limit` statements if that is before its end. */
    method Write(d: int, scores: seq<T>, limit: nat)
      modifies this
      ensures rows == After(old(rows), d, scores, Min(limit, Statements(scores)))
    {
      if limit == 0 {
        return;
      }
      rows := Others(rows, d);
      var done := 1;
      var i := 0;
      while i < |scores| && done < limit
        invariant done >= 1 && done <= limit && i == (done - 1) * BATCH
        invariant i < |scores| + BATCH
        invariant rows == Others(old(rows), d) + Dated(scores[..Min(i, |scores|)], d)
        decreases |scores| + BATCH - i
      {
        var upto := Min(i + BATCH, |scores|);
        assert scores[..upto] == scores[..i] + scores[i..upto];
        assert Dated(scores[..upto], d) == Dated(scores[..i], d) + Dated(scores[i..upto], d);
        rows := rows + Dated(scores[i..upto], d);
        i := i + BATCH;
        done := done + 1;
      }
    }
  }

  lemma {:induction false} OthersOfConcat<T>(a: seq<Row<T>>, b: seq<Row<T>>, d: int)
    ensures Others(a + b, d) == Others(a, d) + Others(b, d)
    ensures Of(a + b, d) == Of(a, d) + Of(b, d)
  {
    if b == [] {
      assert a + b == a;
    } else {
      var init, last := b[..|b| - 1], b[|b| - 1];
      OthersOfConcat(a, init, d);
      assert (a + b)[..|a + b| - 1] == a + init && (a + b)[|a + b| - 1] == last;
    }
  }

  lemma {:induction false} OthersOfOthers<T>(rows: seq<Row<T>>, d: int)
    ensures Others(Others(rows, d), d) == Others(rows, d)
  {
    if rows != [] {
      var init, last := rows[..|rows| - 1], rows[|rows| - 1];
      OthersOfOthers(init, d);
      if last.date != d {
        assert [last][..0] == [];
        OthersOfConcat(Others(init, d), [last], d);
      } else {
        assert Others(init, d) + [] == Others(init, d);
      }
    }
  }

  lemma {:induction false} OfOthers<T>(rows: seq<Row<T>>, d: int, e: int)
    ensures Of(Others(rows, d), e) == if e == d then [] else Of(rows, e)
  {
    if rows != [] {
      var init, last := rows[..|rows| - 1], rows[|rows| - 1];
      OfOthers(init, d, e);
      if last.date != d {
        assert [last][..0] == [];
        OthersOfConcat(Others(init, d), [last], e);
      } else {
        assert Others(init, d) + [] == Others(init, d);
      }
    }
  }

  lemma {:induction false} DatedRows<T>(scores: seq<T>, d: int)
    ensures Others(Dated(scores, d), d) == [] && Of(Dated(scores, d), d) == scores
    ensures forall e | e != d :: Of(Dated(scores, d), e) == []
  {
    if scores != [] {
      DatedRows(scores[..|scores| - 1], d);
      assert Dated(scores, d)[..|scores| - 1] == Dated(scores[..|scores| - 1], d);
    }
  }

  lemma EnoughStatements<T>(scores: seq<T>)
    ensures Min((Statements(scores) - 1) * BATCH, |scores|) == |scores|
  {
  }

  lemma CompleteWrite<T>(rows: seq<Row<T>>, d: int, scores: seq<T>)
    ensures After(rows, d, scores, Statements(scores)) == Others(rows, d) + Dated(scores, d)
  {
    EnoughStatements(scores);
    assert scores[..|scores|] == scores;
  }

  /** A complete write leaves exactly the new scores, in order, on its date, and every other date as it was. */
  lemma WriteReplacesOneDate<T>(rows: seq<Row<T>>, d: int, scores: seq<T>)
    ensures var after := After(rows, d, scores, Statements(scores));
            Of(after, d) == scores && forall e | e != d :: Of(after, e) == Of(rows, e)
  {
    CompleteWrite(rows, d, scores);
    var after := Others(rows, d) + Dated(scores, d);
    OfOthers(rows, d, d);
    DatedRows(scores, d);
    OthersOfConcat(Others(rows, d), Dated(scores, d), d);
    forall e | e != d
      ensures Of(after, e) == Of(rows, e)
    {
      OfOthers(rows, d, e);
      OthersOfConcat(Others(rows, d), Dated(scores, d), e);
    }
  }

  /** No statement of a write touches another date. */
  lemma OthersOfWrite<T>(rows: seq<Row<T>>, d: int, cut: seq<T>, n: nat)
    ensures Others(After(rows, d, cut, n), d) == Others(rows, d)
  {
    if n > 0 {
      var part := cut[..Min((n - 1) * BATCH, |cut|)];
      OthersOfConcat(Others(rows, d), Dated(part, d), d);
      OthersOfOthers(rows, d);
      DatedRows(part, d);
    }
  }

  /** Whatever was written before it was stopped, a complete write then gives the table of a clean one. */
  lemma RewriteRecovers<T>(rows: seq<Row<T>>, d: int, cut: seq<T>, n: nat, scores: seq<T>)
    ensures After(After(rows, d, cut, n), d, scores, Statements(scores)) == After(rows, d, scores, Statements(scores))
  {
    OthersOfWrite(rows, d, cut, n);
    CompleteWrite(After(rows, d, cut, n), d, scores);
    CompleteWrite(rows, d, scores);
  }
}
