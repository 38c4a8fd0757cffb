/** A store of long-term facts that has reached its cap: when it takes in a new key, and how long it takes in none. */
module FullStore {
  import opened ChatThread
  import opened LongTermFacts
  import opened FactHistory
  import opened Sets

  function Keys(facts: seq<Fact>): (keys: set<string>)
    ensures forall f :: f in facts ==> f.key in keys
    ensures forall k :: k in keys ==> exists f :: f in facts && f.key == k
  {
    set f | f in facts :: f.key
  }

  lemma {:induction false} KeysCount(facts: seq<Fact>)
    requires DistinctKeys(facts)
    ensures |Keys(facts)| == |facts|
  {
    if facts != [] {
      var init, last := facts[..|facts| - 1], facts[|facts| - 1];
      KeysCount(init);
      assert forall f :: f in facts <==> f in init || f == last;
      assert Keys(facts) == Keys(init) + {last.key};
    }
  }

  lemma HasIsKey(facts: seq<Fact>, k: string)
    ensures HasFact(facts, k) <==> k in Keys(facts)
  {
    if k in Keys(facts) {
      var f :| f in facts && f.key == k;
    }
  }

  /** `a` stands somewhere before `b`. */
  ghost predicate Precedes(facts: seq<Fact>, a: Fact, b: Fact) {
    exists i, j | 0 <= i < j < |facts| :: facts[i] == a && facts[j] == b
  }

  lemma PrecedesInMore(facts: seq<Fact>, last: Fact, a: Fact, b: Fact)
    ensures Precedes(facts, a, b) || (a in facts && b == last) ==> Precedes(facts + [last], a, b)
  {
    var all := facts + [last];
    if i, j :| 0 <= i < j < |facts| && facts[i] == a && facts[j] == b {
      assert all[i] == a && all[j] == b;
    } else if a in facts && b == last {
      var i :| 0 <= i < |facts| && facts[i] == a;
      assert all[i] == a && all[|facts|] == b;
    }
  }

  lemma {:induction false} InsertKeepsPlaces(sorted: seq<Fact>, f: Fact, a: Fact, b: Fact)
    requires Precedes(sorted, a, b)
    ensures Precedes(Insert(sorted, f), a, b)
  {
    if Before(sorted[|sorted| - 1], f) {
      PrecedesInMore(sorted, f, a, b);
    } else {
      var init, last := sorted[..|sorted| - 1], sorted[|sorted| - 1];
      var i, j :| 0 <= i < j < |sorted| && sorted[i] == a && sorted[j] == b;
      assert init[i] == a;
      if j < |init| {
        assert init[j] == b;
        InsertKeepsPlaces(init, f, a, b);
      } else {
        InsertPermutes(init, f);
        assert a in multiset(Insert(init, f));
      }
      PrecedesInMore(Insert(init, f), last, a, b);
    }
  }

  lemma {:induction false} InsertGoesBehind(sorted: seq<Fact>, f: Fact, x: Fact)
    requires x in sorted && Before(x, f)
    ensures Precedes(Insert(sorted, f), x, f)
  {
    if Before(sorted[|sorted| - 1], f) {
      PrecedesInMore(sorted, f, x, f);
    } else {
      var init, last := sorted[..|sorted| - 1], sorted[|sorted| - 1];
      assert sorted == init + [last] && x in init;
      InsertGoesBehind(init, f, x);
      PrecedesInMore(Insert(init, f), last, x, f);
    }
  }

  /** The sort is stable: of two that may stand in either order, the first stays first. */
  lemma {:induction false} TiesKeepPlaces(facts: seq<Fact>, i: nat, j: nat)
    requires i < j < |facts| && Before(facts[i], facts[j])
    ensures Precedes(Sorted(facts), facts[i], facts[j])
  {
    var init, last := facts[..|facts| - 1], facts[|facts| - 1];
    if j < |init| {
      TiesKeepPlaces(init, i, j);
      InsertKeepsPlaces(Sorted(init), last, facts[i], facts[j]);
    } else {
      SortSorts(init);
      SameElements(init, Sorted(init));
      assert init[i] in init;
      InsertGoesBehind(Sorted(init), last, facts[i]);
    }
  }

  /** A new key with `n` mentions ranks before an old entry with `m`: more hits, or as many and seen before. */
  predicate Beats(n: nat, now: int, was: Fact, m: nat) {
    n > was.hits + m || (n == was.hits + m && now < if m > 0 then now else was.lastSeen)
  }

  /** Some key of the batch that is not in the store ranks before some entry of the store. */
  ghost predicate NewcomerWins(facts: seq<Fact>, items: seq<RawFact>, now: int, key: Keyer) {
    exists k, i | 0 <= i < |facts| && Mentions(items, key, k) > 0 && !HasFact(facts, k) ::
      Beats(Mentions(items, key, k), now, facts[i], Mentions(items, key, facts[i].key))
  }

  lemma BeatsIff(was: Fact, bumped: Fact, made: Fact, n: nat, m: nat, now: int)
    requires IsBumped(was, bumped, m, now) && IsBorn(made, n, now)
    ensures Beats(n, now, was, m) <==> !Before(bumped, made)
  {
  }

  /** The facts of a merge before the cut: the loaded ones with their mentions, then the new ones, sorted. */
  ghost predicate IsRanking(facts: seq<Fact>, mentioned: seq<Fact>, ranked: seq<Fact>, items: seq<RawFact>, now: int,
                            key: Keyer) {
    && DistinctKeys(facts) && AreMentioned(facts, mentioned, items, now, key) && ranked == Sorted(mentioned)
    && DistinctKeys(mentioned) && DistinctKeys(ranked) && InOrder(ranked)
    && forall f :: f in mentioned <==> f in ranked
  }

  lemma RankingOf(facts: seq<Fact>, items: seq<RawFact>, now: int, key: Keyer)
    requires DistinctKeys(facts)
    ensures var mentioned := MentionAll(facts, items, now, key);
      IsRanking(facts, mentioned, Sorted(mentioned), items, now, key)
  {
    var mentioned := MentionAll(facts, items, now, key);
    MentionsAre(facts, items, now, key);
    MentionsAreDistinct(facts, items, now, key);
    SortSorts(mentioned);
    DistinctIsUnordered(mentioned, Sorted(mentioned));
    SameElements(mentioned, Sorted(mentioned));
  }

  lemma AtOnePlace(facts: seq<Fact>, i: nat, j: nat)
    requires DistinctKeys(facts) && i < |facts| && j < |facts| && facts[i].key == facts[j].key
    ensures i == j
  {
  }

  /** If a full store takes in a new key, an old one is dropped. */
  lemma OneIsDropped(facts: seq<Fact>, kept: seq<Fact>, n: Fact) returns (i: nat)
    requires DistinctKeys(facts) && DistinctKeys(kept) && |kept| <= |facts| && n in kept && !HasFact(facts, n.key)
    ensures i < |facts| && facts[i].key !in Keys(kept)
  {
    HasIsKey(facts, n.key);
    KeysCount(facts);
    KeysCount(kept);
    if Keys(facts) <= Keys(kept) {
      SubsetSize(Keys(facts) + {n.key}, Keys(kept));
    }
    var k :| k in Keys(facts) && k !in Keys(kept);
    var f :| f in facts && f.key == k;
    i :| 0 <= i < |facts| && facts[i] == f;
  }

  /** Every new key that a full store takes in ranks before some old entry. */
  lemma AdmittedBeatsOne(facts: seq<Fact>, items: seq<RawFact>, now: int, cap: nat, key: Keyer, k: string)
    returns (i: nat)
    requires DistinctKeys(facts) && |facts| == cap && !HasFact(facts, k)
    requires k in Keys(Kept(Sorted(MentionAll(facts, items, now, key)), cap))
    ensures i < |facts| && Mentions(items, key, k) > 0
    ensures Beats(Mentions(items, key, k), now, facts[i], Mentions(items, key, facts[i].key))
  {
    var mentioned := MentionAll(facts, items, now, key);
    var ranked := Sorted(mentioned);
    RankingOf(facts, items, now, key);
    var n :| n in Kept(ranked, cap) && n.key == k;
    KeptIsDistinct(ranked, cap);
    i := OneIsDropped(facts, Kept(ranked, cap), n);
    NewBeatsDropped(facts, mentioned, ranked, items, now, cap, key, n, i);
  }

  lemma KeptIsDistinct(ranked: seq<Fact>, cap: nat)
    requires DistinctKeys(ranked)
    ensures DistinctKeys(Kept(ranked, cap)) && |Kept(ranked, cap)| <= cap
  {
  }

  lemma NewBeatsDropped(facts: seq<Fact>, mentioned: seq<Fact>, ranked: seq<Fact>, items: seq<RawFact>, now: int,
                        cap: nat, key: Keyer, n: Fact, i: nat)
    requires IsRanking(facts, mentioned, ranked, items, now, key)
    requires n in Kept(ranked, cap) && !HasFact(facts, n.key) && i < |facts| && facts[i].key !in Keys(Kept(ranked, cap))
    ensures Mentions(items, key, n.key) > 0
    ensures Beats(Mentions(items, key, n.key), now, facts[i], Mentions(items, key, facts[i].key))
  {
    var o := mentioned[i];
    assert IsBumped(facts[i], o, Mentions(items, key, facts[i].key), now);
    OldKeysIn(facts, mentioned, items, now, key);
    assert n in ranked;
    var j :| 0 <= j < |mentioned| && mentioned[j] == n;
    assert j >= |facts|;
    BeatsIff(facts[i], o, n, Mentions(items, key, n.key), Mentions(items, key, facts[i].key), now);
    if Before(o, n) {
      TiesKeepPlaces(mentioned, i, j);
      FirstIsKept(ranked, cap, o, n);
    }
  }

  lemma FirstIsKept(ranked: seq<Fact>, cap: nat, o: Fact, n: Fact)
    requires DistinctKeys(ranked) && Precedes(ranked, o, n) && n in Kept(ranked, cap)
    ensures o in Kept(ranked, cap)
  {
    var q :| 0 <= q < |Kept(ranked, cap)| && Kept(ranked, cap)[q] == n;
    var a, b :| 0 <= a < b < |ranked| && ranked[a] == o && ranked[b] == n;
    AtOnePlace(ranked, b, q);
    assert Kept(ranked, cap)[a] == o;
  }

  lemma SameFact(facts: seq<Fact>, a: Fact, b: Fact)
    requires DistinctKeys(facts) && a in facts && b in facts && a.key == b.key
    ensures a == b
  {
    var i :| 0 <= i < |facts| && facts[i] == a;
    var j :| 0 <= j < |facts| && facts[j] == b;
    AtOnePlace(facts, i, j);
  }

  lemma RanksBefore(ranked: seq<Fact>, cap: nat, n: Fact, o: Fact)
    requires InOrder(ranked) && n in ranked && o in Kept(ranked, cap) && !Before(o, n)
    ensures n in Kept(ranked, cap)
  {
    var p :| 0 <= p < |Kept(ranked, cap)| && Kept(ranked, cap)[p] == o;
    var q :| 0 <= q < |ranked| && ranked[q] == n;
    assert ranked[p] == o && Before(o, o);
    assert q <= p;
    assert Kept(ranked, cap)[q] == n;
  }

  /** If a new key ranks before an old entry, the cut cannot keep just the old keys. */
  lemma WinnerIsAdmitted(facts: seq<Fact>, mentioned: seq<Fact>, ranked: seq<Fact>, items: seq<RawFact>, now: int,
                         cap: nat, key: Keyer, k: string, i: nat)
    requires IsRanking(facts, mentioned, ranked, items, now, key)
    requires i < |facts| && Mentions(items, key, k) > 0 && !HasFact(facts, k)
    requires Beats(Mentions(items, key, k), now, facts[i], Mentions(items, key, facts[i].key))
    ensures Keys(Kept(ranked, cap)) != Keys(facts)
  {
    var kept, o := Kept(ranked, cap), mentioned[i];
    assert IsBumped(facts[i], o, Mentions(items, key, facts[i].key), now);
    assert HasFact(mentioned, k);
    var j :| 0 <= j < |mentioned| && mentioned[j].key == k;
    OldKeysIn(facts, mentioned, items, now, key);
    assert j >= |facts|;
    var n := mentioned[j];
    BeatsIff(facts[i], o, n, Mentions(items, key, k), Mentions(items, key, facts[i].key), now);
    if o.key in Keys(kept) {
      var x :| x in kept && x.key == o.key;
      SameFact(ranked, x, o);
      RanksBefore(ranked, cap, n, o);
      HasIsKey(facts, k);
    } else {
      assert facts[i] in facts;
    }
  }

  /**
   A full store changes its keys by a merge, so that it takes in a new one, if and only if some new key of the
   batch ranks before some entry: with more mentions than the entry then has hits, or as many and the entry
   not mentioned and stamped later than now.
   */
  lemma FullStoreChangesIff(stored: seq<Item>, items: seq<RawFact>, now: int, cap: nat, key: Keyer)
    requires |Dict(Load(stored, now, key))| == cap
    ensures var facts := Dict(Load(stored, now, key));
      Keys(Kept(Ranked(stored, items, now, key), cap)) == Keys(facts) <==> !NewcomerWins(facts, items, now, key)
  {
    var facts := Dict(Load(stored, now, key));
    DictIsDistinct(Load(stored, now, key));
    var mentioned := MentionAll(facts, items, now, key);
    RankingOf(facts, items, now, key);
    if NewcomerWins(facts, items, now, key) {
      var k, i :| 0 <= i < |facts| && Mentions(items, key, k) > 0 && !HasFact(facts, k)
                  && Beats(Mentions(items, key, k), now, facts[i], Mentions(items, key, facts[i].key));
      WinnerIsAdmitted(facts, mentioned, Sorted(mentioned), items, now, cap, key, k, i);
    } else {
      OldKeysStay(facts, items, now, cap, key);
    }
  }

  lemma OldKeysStay(facts: seq<Fact>, items: seq<RawFact>, now: int, cap: nat, key: Keyer)
    requires DistinctKeys(facts) && |facts| == cap && !NewcomerWins(facts, items, now, key)
    ensures var kept := Kept(Sorted(MentionAll(facts, items, now, key)), cap);
      Keys(kept) == Keys(facts) && DistinctKeys(kept) && |kept| == cap
  {
    var mentioned := MentionAll(facts, items, now, key);
    var kept := Kept(Sorted(mentioned), cap);
    RankingOf(facts, items, now, key);
    KeptIsDistinct(Sorted(mentioned), cap);
    SortSorts(mentioned);
    assert |kept| == cap;
    forall k | k in Keys(kept) ensures k in Keys(facts) {
      HasIsKey(facts, k);
      if !HasFact(facts, k) {
        var i := AdmittedBeatsOne(facts, items, now, cap, key, k);
      }
    }
    KeysCount(facts);
    KeysCount(kept);
    SubsetSize(Keys(kept), Keys(facts));
  }

  /** The facts of a store whose every entry was seen by `now`. */
  predicate SeenBy(facts: seq<Fact>, now: int) {
    forall f <- facts :: f.hits >= 1 && f.lastSeen <= now
  }

  /**
   Unless the clock was set back, a full store takes in no new key that a batch mentions once, whatever else the
   batch mentions.
   */
  lemma OnceIsNotAdmitted(facts: seq<Fact>, items: seq<RawFact>, now: int, cap: nat, key: Keyer, k: string)
    requires DistinctKeys(facts) && |facts| == cap && SeenBy(facts, now)
    requires !HasFact(facts, k) && Mentions(items, key, k) <= 1
    ensures k !in Keys(Kept(Sorted(MentionAll(facts, items, now, key)), cap))
  {
    assert forall i | 0 <= i < |facts| :: facts[i] in facts;
    if k in Keys(Kept(Sorted(MentionAll(facts, items, now, key)), cap)) {
      var i := AdmittedBeatsOne(facts, items, now, cap, key, k);
    }
  }

  /** No key that is not in the store is mentioned twice by one batch. */
  ghost predicate NewOnce(items: seq<RawFact>, key: Keyer, known: set<string>) {
    forall k | k !in known :: Mentions(items, key, k) <= 1
  }

  /** So such a batch changes no key of a full store. */
  lemma FullStoreKeepsItsKeys(facts: seq<Fact>, items: seq<RawFact>, now: int, cap: nat, key: Keyer)
    requires DistinctKeys(facts) && |facts| == cap && SeenBy(facts, now) && NewOnce(items, key, Keys(facts))
    ensures var kept := Kept(Sorted(MentionAll(facts, items, now, key)), cap);
      Keys(kept) == Keys(facts) && DistinctKeys(kept) && |kept| == cap && SeenBy(kept, now)
  {
    forall k, i | 0 <= i < |facts| && Mentions(items, key, k) > 0 && !HasFact(facts, k)
      ensures !Beats(Mentions(items, key, k), now, facts[i], Mentions(items, key, facts[i].key))
    {
      HasIsKey(facts, k);
      assert facts[i] in facts;
    }
    OldKeysStay(facts, items, now, cap, key);
    MentionsSeen(facts, items, now, key);
    SortSorts(MentionAll(facts, items, now, key));
    SameElements(MentionAll(facts, items, now, key), Sorted(MentionAll(facts, items, now, key)));
  }

  lemma {:induction false} MentionsSeen(facts: seq<Fact>, items: seq<RawFact>, now: int, key: Keyer)
    requires SeenBy(facts, now)
    ensures SeenBy(MentionAll(facts, items, now, key), now)
  {
    if items != [] {
      MentionsSeen(facts, items[..|items| - 1], now, key);
    }
  }

  /** Only the keys matter for which stored facts are loaded as they are. */
  lemma KeptIsStable(facts: seq<Fact>, kept: seq<Fact>, key: Keyer)
    requires StableFacts(facts, key) && DistinctKeys(kept) && AreWritten(kept) && Keys(kept) == Keys(facts)
    ensures StableFacts(kept, key)
  {
    forall f | f in kept ensures StableFact(f, key) {
      assert f.key in Keys(facts);
      var g :| g in facts && g.key == f.key;
      assert StableFact(g, key);
    }
  }

  lemma FrozenStep(facts: seq<Fact>, b: Batch, cap: nat, key: Keyer)
    requires StableFacts(facts, key) && |facts| == cap && SeenBy(facts, b.now) && NewOnce(b.items, key, Keys(facts))
    ensures var after := Merged(facts, b.items, b.now, cap, key);
      StableFacts(after, key) && |after| == cap && Keys(after) == Keys(facts) && SeenBy(after, b.now)
  {
    if b.items != [] {
      Reload(facts, b.now, key);
      FullStoreKeepsItsKeys(facts, b.items, b.now, cap, key);
      assert AreWritten(facts) by { assert forall f <- facts :: StableFact(f, key); }
      MergeAccounts(facts, b.items, b.now, cap, key);
      KeptIsStable(facts, Merged(facts, b.items, b.now, cap, key), key);
    }
  }

  /** From the moment a stable store is full, no sequence of such batches brings a new key in or takes one out. */
  lemma {:induction false} FullStoreIsFrozen(facts: seq<Fact>, batches: seq<Batch>, cap: nat, key: Keyer)
    requires StableFacts(facts, key) && |facts| == cap
    requires forall i | 0 <= i < |batches| ::
               SeenBy(facts, batches[i].now) && NewOnce(batches[i].items, key, Keys(facts))
    requires forall i, j | 0 <= i < j < |batches| :: batches[i].now <= batches[j].now
    ensures var after := FactsFrom(facts, batches, cap, key);
      && StableFacts(after, key) && |after| == cap && Keys(after) == Keys(facts)
      && (batches != [] ==> SeenBy(after, batches[|batches| - 1].now))
  {
    if batches != [] {
      var n := |batches| - 1;
      FullStoreIsFrozen(facts, batches[..n], cap, key);
      var before := FactsFrom(facts, batches[..n], cap, key);
      assert SeenBy(facts, batches[n].now);
      assert SeenBy(before, batches[n].now);
      FrozenStep(before, batches[n], cap, key);
    }
  }
}
