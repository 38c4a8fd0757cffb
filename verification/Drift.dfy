/**
 The population stability index of the drift report: bins on the reference deciles, shares clipped from
 below, and the sum of (c - r) * ln(c / r). A sample value that is not finite is `None`. The quantile
 function of the numeric library is a parameter, any function; so is ln, of which only is used that it
 is strictly increasing and zero at one.
 */
module Drift {
  import opened Options

  const FLOOR := 0.0001

  type Sample = seq<Option<real>>

  datatype Edge = MinusInfinity | At(x: real) | PlusInfinity

  predicate AtMost(e: Edge, v: real) {
    e.MinusInfinity? || (e.At? && e.x <= v)
  }

  predicate Above(e: Edge, v: real) {
    e.PlusInfinity? || (e.At? && v < e.x)
  }

  function Finite(s: Sample): seq<real> {
    if s == [] then [] else
    Finite(s[..|s| - 1]) + if s[|s| - 1].Some? then [s[|s| - 1].value] else []
  }

  /** Put a value in its place unless it is there. */
  function Insert(xs: seq<real>, x: real): seq<real> {
    if xs == [] then [x] else
    var last := xs[|xs| - 1];
    if last < x then xs + [x] else if last == x then xs else Insert(xs[..|xs| - 1], x) + [last]
  }

  function Unique(xs: seq<real>): seq<real> {
    if xs == [] then [] else Insert(Unique(xs[..|xs| - 1]), xs[|xs| - 1])
  }

  function Quantiles(ref: seq<real>, bins: nat, quantile: (seq<real>, real) -> real): seq<real> {
    seq(bins + 1, i requires 0 <= i <= bins => quantile(ref, if bins == 0 then 0.0 else i as real / bins as real))
  }

  /** The cut points with the two outer ones moved to infinity. */
  function Opened(points: seq<real>): (edges: seq<Edge>)
    ensures |edges| == |points|
  {
    seq(|points|, i requires 0 <= i < |points| =>
      if i == 0 then MinusInfinity else if i == |points| - 1 then PlusInfinity else At(points[i]))
  }

  /** A bin holds its lower edge; the last bin holds its upper edge too. */
  predicate InBin(edges: seq<Edge>, i: nat, v: real)
    requires i + 1 < |edges|
  {
    AtMost(edges[i], v) && (Above(edges[i + 1], v) || (i + 2 == |edges| && edges[i + 1] == At(v)))
  }

  function CountIn(vals: seq<real>, edges: seq<Edge>, i: nat): nat
    requires i + 1 < |edges|
  {
    if vals == [] then 0 else
    CountIn(vals[..|vals| - 1], edges, i) + if InBin(edges, i, vals[|vals| - 1]) then 1 else 0
  }

  function Clipped(share: real): real {
    if share < FLOOR then FLOOR else share
  }

  function Share(vals: seq<real>, edges: seq<Edge>, i: nat): real
    requires vals != [] && i + 1 < |edges|
  {
    CountIn(vals, edges, i) as real / |vals| as real
  }

  function Term(ref: seq<real>, cur: seq<real>, edges: seq<Edge>, ln: real -> real, i: nat): real
    requires ref != [] && cur != [] && i + 1 < |edges|
  {
    var r, c := Clipped(Share(ref, edges, i)), Clipped(Share(cur, edges, i));
    (c - r) * ln(c / r)
  }

  function Sum(xs: seq<real>): real {
    if xs == [] then 0.0 else Sum(xs[..|xs| - 1]) + xs[|xs| - 1]
  }

  function Terms(ref: seq<real>, cur: seq<real>, edges: seq<Edge>, ln: real -> real, bins: nat): (terms: seq<real>)
    requires ref != [] && cur != [] && bins < |edges|
    ensures |terms| == bins && forall i | 0 <= i < bins :: terms[i] == Term(ref, cur, edges, ln, i)
  {
    seq(bins, i requires 0 <= i < bins => Term(ref, cur, edges, ln, i))
  }

  /** The edges that the reference sample gives, before the outer ones are moved. */
  function Points(ref: Sample, bins: nat, quantile: (seq<real>, real) -> real): seq<real> {
    Unique(Quantiles(Finite(ref), bins, quantile))
  }

  predicate Comparable(ref: Sample, cur: Sample, bins: nat, quantile: (seq<real>, real) -> real) {
    Finite(ref) != [] && Finite(cur) != [] && |Points(ref, bins, quantile)| >= 3
  }

  function Psi(ref: Sample, cur: Sample, bins: nat, quantile: (seq<real>, real) -> real, ln: real -> real): real {
    if !Comparable(ref, cur, bins, quantile) then 0.0 else
    var points := Points(ref, bins, quantile);
    Sum(Terms(Finite(ref), Finite(cur), Opened(points), ln, |points| - 1))
  }

  method ComputePsi(ref: Sample, cur: Sample, bins: nat, quantile: (seq<real>, real) -> real, ln: real -> real)
    returns (index: real)
    ensures index == Psi(ref, cur, bins, quantile, ln)
  {
    var r, c := Finite(ref), Finite(cur);
    if r == [] || c == [] {
      return 0.0;
    }
    var points := Unique(Quantiles(r, bins, quantile));
    if |points| < 3 {
      return 0.0;
    }
    var edges := new Edge[|points|](i requires 0 <= i < |points| => At(points[i]));
    edges[0], edges[edges.Length - 1] := MinusInfinity, PlusInfinity;
    assert edges[..] == Opened(points);
    index := 0.0;
    for i := 0 to edges.Length - 1
      invariant edges[..] == Opened(points)
      invariant index == Sum(Terms(r, c, edges[..], ln, i))
    {
      assert Terms(r, c, edges[..], ln, i + 1)[..i] == Terms(r, c, edges[..], ln, i);
      index := index + Term(r, c, edges[..], ln, i);
    }
  }

  /* ---- the cut points ---- */

  ghost predicate Increasing(xs: seq<real>) {
    forall i, j | 0 <= i < j < |xs| :: xs[i] < xs[j]
  }

  lemma {:induction false} InsertIs(xs: seq<real>, x: real)
    requires Increasing(xs)
    ensures Increasing(Insert(xs, x)) && forall y :: y in Insert(xs, x) <==> y in xs || y == x
  {
    if xs != [] && xs[|xs| - 1] > x {
      var init, last := xs[..|xs| - 1], xs[|xs| - 1];
      InsertIs(init, x);
      var r := Insert(init, x);
      forall i | 0 <= i < |r| ensures r[i] < last {
        assert r[i] in r;
      }
      assert forall y :: y in xs <==> y in init || y == last;
    }
  }

  lemma {:induction false} UniqueIs(xs: seq<real>)
    ensures Increasing(Unique(xs)) && forall y :: y in Unique(xs) <==> y in xs
  {
    if xs != [] {
      UniqueIs(xs[..|xs| - 1]);
      InsertIs(Unique(xs[..|xs| - 1]), xs[|xs| - 1]);
      assert forall y :: y in xs <==> y in xs[..|xs| - 1] || y == xs[|xs| - 1];
    }
  }

  /* ---- every value is in one bin ---- */

  /** The bin of a value, found from below. */
  lemma {:induction false} BinOf(points: seq<real>, v: real, from: nat) returns (i: nat)
    requires Increasing(points) && from + 1 < |points|
    requires AtMost(Opened(points)[from], v)
    ensures from <= i && i + 1 < |points| && InBin(Opened(points), i, v)
    decreases |points| - from
  {
    if from + 2 == |points| || v < points[from + 1] {
      i := from;
    } else {
      i := BinOf(points, v, from + 1);
    }
  }

  lemma BinsAreDisjoint(points: seq<real>, v: real, i: nat, j: nat)
    requires Increasing(points) && i + 1 < |points| && j + 1 < |points| && i != j
    requires InBin(Opened(points), i, v)
    ensures !InBin(Opened(points), j, v)
  {
    var edges, low, high := Opened(points), if i < j then i else j, if i < j then j else i;
    assert edges[low + 1] == At(points[low + 1]) && edges[high] == At(points[high]);
  }

  function Total(vals: seq<real>, edges: seq<Edge>, bins: nat): nat
    requires bins < |edges|
  {
    if bins == 0 then 0 else Total(vals, edges, bins - 1) + CountIn(vals, edges, bins - 1)
  }

  lemma {:induction false} TotalOfNone(edges: seq<Edge>, bins: nat)
    requires bins < |edges|
    ensures Total([], edges, bins) == 0
  {
    if bins > 0 { TotalOfNone(edges, bins - 1); }
  }

  lemma {:induction false} OneMore(vals: seq<real>, points: seq<real>, bin: nat, bins: nat)
    requires Increasing(points) && bins < |points| && bin + 1 < |points| && vals != []
    requires InBin(Opened(points), bin, vals[|vals| - 1])
    ensures Total(vals, Opened(points), bins)
         == Total(vals[..|vals| - 1], Opened(points), bins) + if bin < bins then 1 else 0
  {
    if bins > 0 {
      OneMore(vals, points, bin, bins - 1);
      if bin != bins - 1 {
        BinsAreDisjoint(points, vals[|vals| - 1], bin, bins - 1);
      }
    }
  }

  /** The histogram counts every finite value exactly once, also values outside the reference sample. */
  lemma {:induction false} EveryValueIsCounted(vals: seq<real>, points: seq<real>)
    requires Increasing(points) && |points| >= 2
    ensures Total(vals, Opened(points), |points| - 1) == |vals|
  {
    if vals == [] {
      TotalOfNone(Opened(points), |points| - 1);
    } else {
      EveryValueIsCounted(vals[..|vals| - 1], points);
      var bin := BinOf(points, vals[|vals| - 1], 0);
      OneMore(vals, points, bin, |points| - 1);
    }
  }

  /* ---- the index ---- */

  ghost predicate IsLog(ln: real -> real) {
    && ln(1.0) == 0.0
    && forall x, y | 0.0 < x < y :: ln(x) < ln(y)
  }

  lemma NotNegative(a: real, b: real)
    requires a >= 0.0 && b >= 0.0
    ensures a * b >= 0.0
  {
  }

  lemma QuotientSide(r: real, c: real)
    requires 0.0 < r && 0.0 < c
    ensures c / r > 0.0
    ensures c > r ==> c / r > 1.0
    ensures c < r ==> c / r < 1.0
    ensures c == r ==> c / r == 1.0
  {
    var q := c / r;
    assert q * r == c;
    assert (q - 1.0) * r == c - r && (1.0 - q) * r == r - c && (-q) * r == -c;
    if q <= 0.0 {
      NotNegative(-q, r);
    }
    if q <= 1.0 {
      NotNegative(1.0 - q, r);
    }
    if q >= 1.0 {
      NotNegative(q - 1.0, r);
    }
  }

  lemma SameSign(a: real, b: real)
    requires (a > 0.0 && b > 0.0) || (a < 0.0 && b < 0.0) || (a == 0.0 && b == 0.0)
    ensures a * b >= 0.0 && (a * b == 0.0 <==> a == 0.0)
  {
  }

  lemma OfShares(r: real, c: real, ln: real -> real)
    requires IsLog(ln) && 0.0 < r && 0.0 < c
    ensures (c - r) * ln(c / r) >= 0.0
    ensures (c - r) * ln(c / r) == 0.0 <==> c == r
  {
    QuotientSide(r, c);
    if c > r {
      assert ln(1.0) < ln(c / r);
    } else if c < r {
      assert ln(c / r) < ln(1.0);
    }
    SameSign(c - r, ln(c / r));
  }

  /** The shares are the same, or so small in both samples that clipping makes them so. */
  predicate SharesAgree(ref: seq<real>, cur: seq<real>, edges: seq<Edge>, i: nat)
    requires ref != [] && cur != [] && i + 1 < |edges|
  {
    || Share(ref, edges, i) == Share(cur, edges, i)
    || (Share(ref, edges, i) <= FLOOR && Share(cur, edges, i) <= FLOOR)
  }

  /** One bin adds nothing exactly when the shares agree, else something positive. */
  lemma TermIs(ref: seq<real>, cur: seq<real>, edges: seq<Edge>, ln: real -> real, i: nat)
    requires IsLog(ln) && ref != [] && cur != [] && i + 1 < |edges|
    ensures Term(ref, cur, edges, ln, i) >= 0.0
    ensures Term(ref, cur, edges, ln, i) == 0.0 <==> SharesAgree(ref, cur, edges, i)
  {
    OfShares(Clipped(Share(ref, edges, i)), Clipped(Share(cur, edges, i)), ln);
  }

  lemma {:induction false} SumIsZeroIff(xs: seq<real>)
    requires forall i | 0 <= i < |xs| :: xs[i] >= 0.0
    ensures Sum(xs) >= 0.0
    ensures Sum(xs) == 0.0 <==> forall i | 0 <= i < |xs| :: xs[i] == 0.0
  {
    if xs != [] {
      SumIsZeroIff(xs[..|xs| - 1]);
    }
  }

  ghost predicate AllAgree(ref: seq<real>, cur: seq<real>, edges: seq<Edge>, bins: nat)
    requires ref != [] && cur != [] && bins < |edges|
  {
    forall i | 0 <= i < bins :: SharesAgree(ref, cur, edges, i)
  }

  lemma IndexIs(ref: seq<real>, cur: seq<real>, edges: seq<Edge>, ln: real -> real, bins: nat)
    requires IsLog(ln) && ref != [] && cur != [] && bins < |edges|
    ensures Sum(Terms(ref, cur, edges, ln, bins)) >= 0.0
    ensures Sum(Terms(ref, cur, edges, ln, bins)) == 0.0 <==> AllAgree(ref, cur, edges, bins)
  {
    var terms := Terms(ref, cur, edges, ln, bins);
    forall i | 0 <= i < bins ensures terms[i] >= 0.0 && (terms[i] == 0.0 <==> SharesAgree(ref, cur, edges, i)) {
      TermIs(ref, cur, edges, ln, i);
    }
    SumIsZeroIff(terms);
  }

  /**
   The index is never negative. It is zero exactly when a sample has no finite value, when the reference
   has fewer than three distinct cut points, or when every bin has the same share of both samples, up to
   the clipping.
   */
  lemma PsiIs(ref: Sample, cur: Sample, bins: nat, quantile: (seq<real>, real) -> real, ln: real -> real)
    requires IsLog(ln)
    ensures Psi(ref, cur, bins, quantile, ln) >= 0.0
    ensures Psi(ref, cur, bins, quantile, ln) == 0.0
       <==> (Comparable(ref, cur, bins, quantile) ==>
               AllAgree(Finite(ref), Finite(cur), Opened(Points(ref, bins, quantile)),
                        |Points(ref, bins, quantile)| - 1))
  {
    if Comparable(ref, cur, bins, quantile) {
      var points := Points(ref, bins, quantile);
      IndexIs(Finite(ref), Finite(cur), Opened(points), ln, |points| - 1);
    }
  }

  /** The bins of the report count every finite value of both samples once. */
  lemma BinsCoverBothSamples(ref: Sample, cur: Sample, bins: nat, quantile: (seq<real>, real) -> real)
    requires Comparable(ref, cur, bins, quantile)
    ensures var points := Points(ref, bins, quantile);
      && Total(Finite(ref), Opened(points), |points| - 1) == |Finite(ref)|
      && Total(Finite(cur), Opened(points), |points| - 1) == |Finite(cur)|
  {
    var points := Points(ref, bins, quantile);
    UniqueIs(Quantiles(Finite(ref), bins, quantile));
    EveryValueIsCounted(Finite(ref), points);
    EveryValueIsCounted(Finite(cur), points);
  }

  /* ---- the index in terms of the samples ---- */

  /** The positions of the finite values. */
  ghost function FiniteAt(s: Sample): set<nat> {
    set i: nat | i < |s| && s[i].Some?
  }

  /** The finite values between cut points `i` and `i + 1`; below the first and above the last nothing is cut off. */
  ghost function BetweenAt(s: Sample, points: seq<real>, i: nat): set<nat>
    requires i + 1 < |points|
  {
    set k: nat | k < |s| && s[k].Some?
                 && (i == 0 || points[i] <= s[k].value) && (i + 2 == |points| || s[k].value < points[i + 1])
  }

  lemma {:induction false} FiniteIs(s: Sample)
    ensures |Finite(s)| == |FiniteAt(s)|
  {
    if s == [] {
      assert FiniteAt(s) == {};
    } else {
      var n := |s| - 1;
      FiniteIs(s[..n]);
      assert FiniteAt(s) == FiniteAt(s[..n]) + if s[n].Some? then {n} else {};
    }
  }

  lemma InBinIs(points: seq<real>, i: nat, v: real)
    requires i + 1 < |points|
    ensures InBin(Opened(points), i, v)
       <==> (i == 0 || points[i] <= v) && (i + 2 == |points| || v < points[i + 1])
  {
  }

  lemma OneMoreCounted(vals: seq<real>, v: real, edges: seq<Edge>, i: nat)
    requires i + 1 < |edges|
    ensures CountIn(vals + [v], edges, i) == CountIn(vals, edges, i) + if InBin(edges, i, v) then 1 else 0
  {
    assert (vals + [v])[..|vals|] == vals;
  }

  lemma BetweenOneMore(s: Sample, points: seq<real>, i: nat)
    requires i + 1 < |points| && s != []
    ensures var n := |s| - 1;
      |BetweenAt(s, points, i)| == |BetweenAt(s[..n], points, i)|
        + if s[n].Some? && InBin(Opened(points), i, s[n].value) then 1 else 0
  {
    var n := |s| - 1;
    var before := BetweenAt(s[..n], points, i);
    if s[n].Some? {
      InBinIs(points, i, s[n].value);
    }
    if s[n].Some? && InBin(Opened(points), i, s[n].value) {
      assert BetweenAt(s, points, i) == before + {n};
    } else {
      assert BetweenAt(s, points, i) == before;
    }
  }

  lemma {:induction false} CountIs(s: Sample, points: seq<real>, i: nat)
    requires i + 1 < |points|
    ensures CountIn(Finite(s), Opened(points), i) == |BetweenAt(s, points, i)|
  {
    if s == [] {
      assert BetweenAt(s, points, i) == {};
    } else {
      var n := |s| - 1;
      CountIs(s[..n], points, i);
      BetweenOneMore(s, points, i);
      if s[n].Some? {
        OneMoreCounted(Finite(s[..n]), s[n].value, Opened(points), i);
      } else {
        assert Finite(s[..n]) + [] == Finite(s[..n]);
      }
    }
  }

  /** The share of a bin, never taken below one in ten thousand. */
  ghost function BinShare(s: Sample, points: seq<real>, i: nat): real
    requires i + 1 < |points| && |FiniteAt(s)| > 0
  {
    var share := |BetweenAt(s, points, i)| as real / |FiniteAt(s)| as real;
    if share >= 0.0001 then share else 0.0001
  }

  /** The quantile at `k` parts of `bins`. */
  function CutAt(ref: Sample, bins: nat, quantile: (seq<real>, real) -> real, k: nat): real
    requires bins > 0
  {
    quantile(Finite(ref), k as real / bins as real)
  }

  /** The cut points are the quantiles at 0, 1/bins, ..., 1 of the finite values, each once, in increasing order. */
  ghost predicate AreCutPoints(points: seq<real>, ref: Sample, bins: nat, quantile: (seq<real>, real) -> real) {
    && Increasing(points)
    && (bins > 0 ==>
          && (forall k: nat | k <= bins :: CutAt(ref, bins, quantile, k) in points)
          && forall x <- points :: exists k: nat :: k <= bins && x == CutAt(ref, bins, quantile, k))
  }

  lemma PointsAre(ref: Sample, bins: nat, quantile: (seq<real>, real) -> real)
    ensures AreCutPoints(Points(ref, bins, quantile), ref, bins, quantile)
  {
    var all := Quantiles(Finite(ref), bins, quantile);
    UniqueIs(all);
    if bins > 0 {
      forall k: nat | k <= bins ensures CutAt(ref, bins, quantile, k) in Unique(all) {
        assert all[k] == CutAt(ref, bins, quantile, k) && all[k] in all;
      }
      forall x | x in Unique(all)
        ensures exists k: nat :: k <= bins && x == CutAt(ref, bins, quantile, k)
      {
        var k: nat :| k < |all| && all[k] == x;
        assert x == CutAt(ref, bins, quantile, k);
      }
    }
  }

  ghost predicate IsTerm(term: real, ref: Sample, cur: Sample, points: seq<real>, ln: real -> real, i: nat)
    requires i + 1 < |points| && |FiniteAt(ref)| > 0 && |FiniteAt(cur)| > 0
  {
    var r, c := BinShare(ref, points, i), BinShare(cur, points, i);
    term == (c - r) * ln(c / r)
  }

  lemma ShareIs(s: Sample, points: seq<real>, i: nat)
    requires i + 1 < |points| && |FiniteAt(s)| > 0
    ensures Finite(s) != [] && Clipped(Share(Finite(s), Opened(points), i)) == BinShare(s, points, i)
  {
    FiniteIs(s);
    CountIs(s, points, i);
  }

  lemma TermIsOfShares(ref: Sample, cur: Sample, points: seq<real>, ln: real -> real, i: nat)
    requires i + 1 < |points| && |FiniteAt(ref)| > 0 && |FiniteAt(cur)| > 0 && Finite(ref) != [] && Finite(cur) != []
    ensures IsTerm(Term(Finite(ref), Finite(cur), Opened(points), ln, i), ref, cur, points, ln, i)
  {
    ShareIs(ref, points, i);
    ShareIs(cur, points, i);
  }

  /**
   The index: zero without finite values on either side or with less than three cut points; else the sum over
   the bins of (c - r) * ln(c / r), of the shares of both samples.
   */
  lemma PsiSums(ref: Sample, cur: Sample, bins: nat, quantile: (seq<real>, real) -> real, ln: real -> real)
    returns (points: seq<real>, terms: seq<real>)
    ensures AreCutPoints(points, ref, bins, quantile)
    ensures |FiniteAt(ref)| == 0 || |FiniteAt(cur)| == 0 || |points| < 3 ==> Psi(ref, cur, bins, quantile, ln) == 0.0
    ensures |FiniteAt(ref)| > 0 && |FiniteAt(cur)| > 0 && |points| >= 3 ==>
              && Psi(ref, cur, bins, quantile, ln) == Sum(terms) && |terms| == |points| - 1
              && forall i | 0 <= i < |terms| :: IsTerm(terms[i], ref, cur, points, ln, i)
  {
    points := Points(ref, bins, quantile);
    terms := [];
    PointsAre(ref, bins, quantile);
    FiniteIs(ref);
    FiniteIs(cur);
    if Comparable(ref, cur, bins, quantile) {
      terms := Terms(Finite(ref), Finite(cur), Opened(points), ln, |points| - 1);
      forall i | 0 <= i < |terms| ensures IsTerm(terms[i], ref, cur, points, ln, i) {
        TermIsOfShares(ref, cur, points, ln, i);
      }
    }
  }
}
