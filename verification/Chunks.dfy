/**
 Overlap chunking of policy text. Sizes are any integers, as the caller may pass them.
 */
module Chunks {
  import opened Options
  import opened Numbers
  import opened Text

  /** A slice from a position in the text; a negative end counts from the back. */
  function Slice(s: string, from: nat, to: int): string {
    var end := if to < 0 then Max(to + |s|, 0) else Min(to, |s|);
    if from < end then s[from..end] else []
  }

  /** A slice stops at the end of the text; a negative end is counted from there; and one without room is empty. */
  lemma SliceIs(s: string, from: nat, to: int)
    ensures from <= to <= |s| ==> Slice(s, from, to) == s[from..to]
    ensures from <= |s| < to ==> Slice(s, from, to) == s[from..]
    ensures to < 0 && from <= |s| + to ==> Slice(s, from, to) == s[from..|s| + to]
    ensures from >= |s| || (0 <= to <= from) || (to < 0 && |s| + to <= from) ==> Slice(s, from, to) == []
  {
  }

  /** Where round `k` starts in a text of length `n`, if it comes to that, and where its chunk ends. */
  function Start(n: nat, size: int, overlap: int, k: nat): nat {
    if k == 0 then 0 else
    var before := Start(n, size, overlap, k - 1);
    Max(Min(before + size, n) - overlap, before + 1)
  }

  function End(n: nat, size: int, overlap: int, k: nat): int {
    Min(Start(n, size, overlap, k) + size, n)
  }

  lemma NextStart(n: nat, size: int, overlap: int, k: nat)
    ensures Start(n, size, overlap, k + 1) == Max(End(n, size, overlap, k) - overlap, Start(n, size, overlap, k) + 1)
  {
  }

  /** What round `k` takes; all but the last round stop short of the end. */
  predicate Round(s: string, chunk: string, size: int, overlap: int, k: nat, last: bool) {
    && Start(|s|, size, overlap, k) < |s|
    && chunk == Slice(s, Start(|s|, size, overlap, k), End(|s|, size, overlap, k))
    && (last || End(|s|, size, overlap, k) < |s|)
  }

  ghost predicate Rounds(s: string, chunks: seq<string>, size: int, overlap: int, lastAt: int) {
    forall k | 0 <= k < |chunks| :: Round(s, chunks[k], size, overlap, k, k == lastAt)
  }

  /** One chunk for each round that starts within the text, up to the first that reaches its end. */
  ghost predicate IsChunking(s: string, chunks: seq<string>, size: int, overlap: int) {
    && chunks != []
    && Rounds(s, chunks, size, overlap, |chunks| - 1)
    && (End(|s|, size, overlap, |chunks| - 1) >= |s| || Start(|s|, size, overlap, |chunks|) >= |s|)
  }

  lemma RoundsGrow(s: string, chunks: seq<string>, size: int, overlap: int, chunk: string, lastAt: int)
    requires Rounds(s, chunks, size, overlap, -1) && Round(s, chunk, size, overlap, |chunks|, |chunks| == lastAt)
    ensures Rounds(s, chunks + [chunk], size, overlap, lastAt)
  {
    var all := chunks + [chunk];
    forall k | 0 <= k < |all| ensures Round(s, all[k], size, overlap, k, k == lastAt) {
      if k < |chunks| {
        assert all[k] == chunks[k] && Round(s, chunks[k], size, overlap, k, false);
      }
    }
  }

  /** Stops for every size and overlap, zero and negative ones too: each round starts later than the last. */
  method ChunkText(text: Option<string>, size: int, overlap: int) returns (chunks: seq<string>)
    ensures var s := Strip(text.GetOr(""));
      if s == [] then chunks == [] else if |s| <= size then chunks == [s] else IsChunking(s, chunks, size, overlap)
  {
    var cleaned := Strip(text.GetOr(""));
    if cleaned == [] {
      return [];
    }
    if |cleaned| <= size {
      return [cleaned];
    }
    chunks := [];
    var start := 0;
    while start < |cleaned|
      invariant start == Start(|cleaned|, size, overlap, |chunks|)
      invariant Rounds(cleaned, chunks, size, overlap, -1)
      invariant chunks == [] ==> start == 0
      decreases |cleaned| - start
    {
      var end := Min(start + size, |cleaned|);
      NextStart(|cleaned|, size, overlap, |chunks|);
      ghost var before := chunks;
      var chunk := Slice(cleaned, start, end);
      chunks := chunks + [chunk];
      if end >= |cleaned| {
        RoundsGrow(cleaned, before, size, overlap, chunk, |before|);
        return;
      }
      RoundsGrow(cleaned, before, size, overlap, chunk, -1);
      start := Max(end - overlap, start + 1);
    }
    assert forall k | 0 <= k < |chunks| :: Round(cleaned, chunks[k], size, overlap, k, false);
  }

  /** The rounds leave no choice. */
  lemma ChunkingIsUnique(s: string, a: seq<string>, b: seq<string>, size: int, overlap: int)
    requires IsChunking(s, a, size, overlap) && IsChunking(s, b, size, overlap)
    ensures a == b
  {
    if |a| < |b| {
      StillRunning(s, b, size, overlap, |a|);
    } else if |b| < |a| {
      StillRunning(s, a, size, overlap, |b|);
    }
  }

  lemma StillRunning(s: string, chunks: seq<string>, size: int, overlap: int, k: nat)
    requires IsChunking(s, chunks, size, overlap) && 0 < k < |chunks|
    ensures Start(|s|, size, overlap, k) < |s| && End(|s|, size, overlap, k - 1) < |s|
  {
    assert Round(s, chunks[k], size, overlap, k, k == |chunks| - 1);
    assert Round(s, chunks[k - 1], size, overlap, k - 1, false);
  }

  /* ---- the chunks ---- */

  function Step(size: int, overlap: int): int { Max(size - overlap, 1) }

  /** What a later chunk repeats of the one before it. */
  function Repeated(size: int, overlap: int): int { Min(overlap, size - 1) }

  /** Every round starts one step after the one before it. */
  lemma OneStepOn(s: string, chunks: seq<string>, size: int, overlap: int, k: nat)
    requires size >= 1 && overlap >= 0 && IsChunking(s, chunks, size, overlap) && 0 < k < |chunks|
    ensures Start(|s|, size, overlap, k) == Start(|s|, size, overlap, k - 1) + Step(size, overlap)
    ensures End(|s|, size, overlap, k - 1) == Start(|s|, size, overlap, k - 1) + size < |s|
  {
    StillRunning(s, chunks, size, overlap, k);
    NextStart(|s|, size, overlap, k - 1);
  }

  lemma TimesNext(k: nat, step: int)
    ensures (k + 1) * step == k * step + step
  {
  }

  lemma {:induction false} StartIs(s: string, chunks: seq<string>, size: int, overlap: int, k: nat)
    requires size >= 1 && overlap >= 0 && IsChunking(s, chunks, size, overlap) && k < |chunks|
    ensures Start(|s|, size, overlap, k) == k * Step(size, overlap)
  {
    if k > 0 {
      StartIs(s, chunks, size, overlap, k - 1);
      OneStepOn(s, chunks, size, overlap, k);
      TimesNext(k - 1, Step(size, overlap));
    }
  }

  /**
   Each chunk is what lies between the start and the end of its round; the last, and only it, reaches the end
   of the text.
   */
  lemma ChunkIs(s: string, chunks: seq<string>, size: int, overlap: int, k: nat)
    requires size >= 1 && overlap >= 0 && IsChunking(s, chunks, size, overlap) && k < |chunks|
    ensures Start(|s|, size, overlap, k) < End(|s|, size, overlap, k) <= |s|
    ensures chunks[k] == s[Start(|s|, size, overlap, k)..End(|s|, size, overlap, k)]
    ensures k == |chunks| - 1 <==> End(|s|, size, overlap, k) == |s|
  {
    assert Round(s, chunks[k], size, overlap, k, k == |chunks| - 1);
    NextStart(|s|, size, overlap, |chunks| - 1);
  }

  lemma MoreTimes(p: nat, q: nat, b: nat)
    requires p < q
    ensures p * b + b <= q * b
  {
    assert q * b == p * b + (q - p) * b;
    assert (q - p - 1) * b >= 0;
  }

  lemma QuotientIs(x: nat, b: nat, q: nat, r: nat)
    requires 0 < b && x == q * b + r && r < b
    ensures x / b == q
  {
    var p := x / b;
    assert x == p * b + x % b;
    if p < q {
      MoreTimes(p, q, b);
    } else if q < p {
      MoreTimes(q, p, b);
    }
  }

  /** A text longer than one chunk gives one chunk more than the steps, rounded up, that bring its end into reach. */
  lemma ChunkCount(s: string, chunks: seq<string>, size: int, overlap: int)
    requires 1 <= size < |s| && overlap >= 0 && IsChunking(s, chunks, size, overlap)
    ensures |chunks| == (|s| - size + Step(size, overlap) - 1) / Step(size, overlap) + 1
  {
    var steps, step := |chunks| - 1, Step(size, overlap);
    ChunkIs(s, chunks, size, overlap, steps);
    StartIs(s, chunks, size, overlap, steps);
    if steps > 0 {
      OneStepOn(s, chunks, size, overlap, steps);
      QuotientIs(|s| - size + step - 1, step, steps, |s| - size + step - 1 - steps * step);
    }
  }

  /** What chunk `k` brings: the first one all of it, a later one what it does not repeat. */
  function New(chunks: seq<string>, repeated: nat, k: nat): string
    requires k < |chunks|
  {
    if k == 0 then chunks[0] else if repeated <= |chunks[k]| then chunks[k][repeated..] else []
  }

  function AllNew(chunks: seq<string>, repeated: nat): seq<string> {
    seq(|chunks|, k requires 0 <= k < |chunks| => New(chunks, repeated, k))
  }

  function Concat(parts: seq<string>): string {
    if parts == [] then [] else Concat(parts[..|parts| - 1]) + parts[|parts| - 1]
  }

  lemma NewIs(s: string, chunks: seq<string>, size: int, overlap: int, k: nat)
    requires size >= 1 && overlap >= 0 && IsChunking(s, chunks, size, overlap) && k < |chunks|
    ensures var before := if k == 0 then 0 else End(|s|, size, overlap, k - 1);
      IsBetween(s, New(chunks, Repeated(size, overlap), k), before, End(|s|, size, overlap, k))
  {
    ChunkIs(s, chunks, size, overlap, k);
    if k > 0 {
      ChunkIs(s, chunks, size, overlap, k - 1);
      OneStepOn(s, chunks, size, overlap, k);
    }
  }

  /** Parts cut at `cuts` join up again. */
  ghost predicate AreCutAt(s: string, parts: seq<string>, cuts: seq<int>) {
    && |cuts| == |parts| + 1 && cuts[0] == 0
    && forall i, j | 0 <= i < j < |cuts| && j == i + 1 :: IsBetween(s, parts[i], cuts[i], cuts[j])
  }

  predicate IsBetween(s: string, part: string, from: int, to: int) {
    0 <= from <= to <= |s| && part == s[from..to]
  }

  lemma PartJoins(s: string, part: string, from: int, to: int)
    requires IsBetween(s, part, from, to)
    ensures s[..from] + part == s[..to]
  {
  }

  lemma {:induction false} PartsJoin(s: string, parts: seq<string>, cuts: seq<int>)
    requires AreCutAt(s, parts, cuts)
    ensures 0 <= cuts[|parts|] <= |s| && Concat(parts) == s[..cuts[|parts|]]
  {
    if parts != [] {
      var n := |parts| - 1;
      assert n + 1 < |cuts| && IsBetween(s, parts[n], cuts[n], cuts[n + 1]);
      PartsJoin(s, parts[..n], cuts[..n + 1]);
      PartJoins(s, parts[n], cuts[n], cuts[n + 1]);
    }
  }

  function Cuts(n: nat, size: int, overlap: int, count: nat): seq<int> {
    seq(count + 1, k requires 0 <= k <= count => if k == 0 then 0 else End(n, size, overlap, k - 1))
  }

  lemma NewPartsAreCut(s: string, chunks: seq<string>, size: int, overlap: int)
    requires size >= 1 && overlap >= 0 && IsChunking(s, chunks, size, overlap)
    ensures AreCutAt(s, AllNew(chunks, Repeated(size, overlap)), Cuts(|s|, size, overlap, |chunks|))
  {
    var parts := AllNew(chunks, Repeated(size, overlap));
    var cuts := Cuts(|s|, size, overlap, |chunks|);
    forall i, j | 0 <= i < j < |cuts| && j == i + 1
      ensures IsBetween(s, parts[i], cuts[i], cuts[j])
    {
      NewIs(s, chunks, size, overlap, i);
    }
  }

  /** Nothing is lost or garbled: dropping the repeated characters of every later chunk gives the text back. */
  lemma RebuildsTheText(s: string, chunks: seq<string>, size: int, overlap: int)
    requires size >= 1 && overlap >= 0 && IsChunking(s, chunks, size, overlap)
    ensures Concat(AllNew(chunks, Repeated(size, overlap))) == s
  {
    NewPartsAreCut(s, chunks, size, overlap);
    PartsJoin(s, AllNew(chunks, Repeated(size, overlap)), Cuts(|s|, size, overlap, |chunks|));
    ChunkIs(s, chunks, size, overlap, |chunks| - 1);
    assert s[..|s|] == s;
  }

  ghost predicate InOneChunk(n: nat, count: nat, size: int, overlap: int, from: int, length: nat) {
    exists k | 0 <= k < count :: Start(n, size, overlap, k) <= from && from + length <= End(n, size, overlap, k)
  }

  /** Found from the back: the last chunk that starts no later than the passage. */
  lemma {:induction false} ShortIsInOneChunk(
    s: string, chunks: seq<string>, size: int, overlap: int, from: nat, length: nat, k: nat)
    requires 1 <= size < |s| && overlap >= 0 && IsChunking(s, chunks, size, overlap)
    requires from + length <= |s| && length <= Min(overlap + 1, size)
    requires k < |chunks| && (k == |chunks| - 1 || from < Start(|s|, size, overlap, k + 1))
    ensures InOneChunk(|s|, |chunks|, size, overlap, from, length)
  {
    ChunkIs(s, chunks, size, overlap, k);
    if Start(|s|, size, overlap, k) > from {
      ShortIsInOneChunk(s, chunks, size, overlap, from, length, k - 1);
    } else if k < |chunks| - 1 {
      OneStepOn(s, chunks, size, overlap, k + 1);
    }
  }

  /**
   In a text longer than one chunk, a length is safe, so that no passage of it is cut apart, exactly up to
   one more than the overlap and never beyond the chunk size.
   */
  lemma SafeLengthIs(s: string, chunks: seq<string>, size: int, overlap: int, length: nat)
    requires 1 <= size < |s| && overlap >= 0 && IsChunking(s, chunks, size, overlap) && length <= |s|
    ensures (forall from: nat | from + length <= |s| :: InOneChunk(|s|, |chunks|, size, overlap, from, length))
       <==> length <= Min(overlap + 1, size)
  {
    if length <= Min(overlap + 1, size) {
      forall from: nat | from + length <= |s| ensures InOneChunk(|s|, |chunks|, size, overlap, from, length) {
        ShortIsInOneChunk(s, chunks, size, overlap, from, length, |chunks| - 1);
      }
    } else {
      LongIsCutApart(s, chunks, size, overlap, length);
      var from := Min(Step(size, overlap) - 1, |s| - length);
      assert !InOneChunk(|s|, |chunks|, size, overlap, from, length);
    }
  }

  /** The passage over the first chunk's end that begins just before the second chunk, or as late as it can. */
  lemma LongIsCutApart(s: string, chunks: seq<string>, size: int, overlap: int, length: nat)
    requires 1 <= size < |s| && overlap >= 0 && IsChunking(s, chunks, size, overlap)
    requires Min(overlap + 1, size) < length <= |s|
    ensures !InOneChunk(|s|, |chunks|, size, overlap, Min(Step(size, overlap) - 1, |s| - length), length)
  {
    var step := Step(size, overlap);
    var from := Min(step - 1, |s| - length);
    forall k | 0 <= k < |chunks|
      ensures !(Start(|s|, size, overlap, k) <= from && from + length <= End(|s|, size, overlap, k))
    {
      StartIs(s, chunks, size, overlap, k);
      if k > 0 {
        MoreTimes(0, k, step);
      }
    }
  }

  /* ---- negative overlaps ---- */

  /** With a negative overlap each round starts behind the end of the one before. */
  lemma GapBefore(s: string, chunks: seq<string>, size: int, overlap: int, k: nat)
    requires size >= 1 && overlap < 0 && IsChunking(s, chunks, size, overlap) && k < |chunks|
    ensures |chunks[k]| == End(|s|, size, overlap, k) - Start(|s|, size, overlap, k)
    ensures End(|s|, size, overlap, k) <= |s|
    ensures k > 0 ==> Start(|s|, size, overlap, k) > End(|s|, size, overlap, k - 1)
  {
    assert Round(s, chunks[k], size, overlap, k, k == |chunks| - 1);
    if k > 0 {
      NextStart(|s|, size, overlap, k - 1);
    }
  }

  /** The first `k` chunks fall short of the end of the last one by a character for every gap. */
  lemma {:induction false} GapsAdd(s: string, chunks: seq<string>, size: int, overlap: int, k: nat)
    requires size >= 1 && overlap < 0 && IsChunking(s, chunks, size, overlap) && 0 < k <= |chunks|
    ensures |Concat(chunks[..k])| + k - 1 <= End(|s|, size, overlap, k - 1)
  {
    var some := chunks[..k];
    assert some[..k - 1] == chunks[..k - 1] && some[k - 1] == chunks[k - 1];
    GapBefore(s, chunks, size, overlap, k - 1);
    if k > 1 {
      GapsAdd(s, chunks, size, overlap, k - 1);
    }
  }

  /** What each later chunk repeats, as a number of characters: none when the overlap is negative. */
  function RepeatedLength(size: int, overlap: int): nat {
    Max(Repeated(size, overlap), 0)
  }

  /** A text longer than one chunk comes back from the new parts if and only if the overlap is not negative. */
  lemma RebuildsIff(s: string, chunks: seq<string>, size: int, overlap: int)
    requires 1 <= size < |s| && IsChunking(s, chunks, size, overlap)
    ensures Concat(AllNew(chunks, RepeatedLength(size, overlap))) == s <==> overlap >= 0
  {
    if overlap >= 0 {
      RebuildsTheText(s, chunks, size, overlap);
    } else {
      assert AllNew(chunks, 0) == chunks && chunks[..|chunks|] == chunks;
      GapsAdd(s, chunks, size, overlap, |chunks|);
      GapBefore(s, chunks, size, overlap, |chunks| - 1);
    }
  }
}
