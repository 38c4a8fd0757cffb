/**
 Sequences of fact merges into one session: which stored facts are found again, and how the hit counts add up
 whatever the keys are.
 */
module FactHistory {
  import opened Options
  import opened ChatThread
  import opened Slugs
  import opened LongTermFacts
  import opened Sets
  import opened Text

  /* ---- storing and loading ---- */

  /** The facts of a store as the next merge finds them. */
  function Reloaded(facts: seq<Fact>, now: int, key: Keyer): seq<Fact> {
    Dict(Load(Dump(facts), now, key))
  }

  /** The key is its own key whatever the wording, and the wording is stripped. */
  ghost predicate StableFact(f: Fact, key: Keyer) {
    (forall wording :: key(f.key, wording) == f.key) && f.fact != "" && Strip(f.fact) == f.fact && f.hits >= 1
  }

  ghost predicate StableFacts(facts: seq<Fact>, key: Keyer) {
    DistinctKeys(facts) && forall f <- facts :: StableFact(f, key)
  }

  lemma {:induction false} LoadOfDump(facts: seq<Fact>, now: int, key: Keyer)
    requires forall f <- facts :: StableFact(f, key)
    ensures Load(Dump(facts), now, key) == facts
  {
    if facts != [] {
      var init, last := facts[..|facts| - 1], facts[|facts| - 1];
      LoadOfDump(init, now, key);
      assert Dump(facts)[..|facts| - 1] == Dump(init);
      assert StableFact(last, key);
      assert Upgraded(Dump(facts)[|facts| - 1], now, key) == last;
      assert facts == init + [last];
    }
  }

  lemma {:induction false} DictOfDistinct(facts: seq<Fact>)
    requires DistinctKeys(facts)
    ensures Dict(facts) == facts
  {
    if facts != [] {
      var n := |facts| - 1;
      DictOfDistinct(facts[..n]);
      assert facts == facts[..n] + [facts[n]];
    }
  }

  /** Loading what a stable store holds gives back the same facts in the same order. */
  lemma Reload(facts: seq<Fact>, now: int, key: Keyer)
    requires StableFacts(facts, key)
    ensures Reloaded(facts, now, key) == facts
  {
    LoadOfDump(facts, now, key);
    DictOfDistinct(facts);
  }

  /** The keys of the non-blank facts are stable from the start. */
  ghost predicate StableItem(item: RawFact, key: Keyer) {
    var fact := Strip(item.fact);
    fact != "" ==> forall wording :: key(key(item.key, fact), wording) == key(item.key, fact)
  }

  ghost predicate StableKeys(items: seq<RawFact>, key: Keyer) {
    forall item <- items :: StableItem(item, key)
  }

  /**
   Under the code's keyer an item is stable when the 64-character cut leaves no dash at the end of its
   slug; the hash prefix (eight hexadecimal digits) is its own slug.
   */
  lemma SlugStableItem(item: RawFact, hash: string -> string)
    requires forall s :: Slug(hash(s)) == hash(s) && hash(s) != ""
    requires !TrailingDash(Slug(item.key))
    ensures StableItem(item, SlugKeyer(hash))
  {
    var fact := Strip(item.fact);
    SlugOfSlug(item.key);
    assert Slug(hash(fact)) == hash(fact);
  }

  /* ---- which facts are found again ---- */

  /** The entry is loaded, and under this key. */
  predicate LoadsAs(item: Item, key: Keyer, k: string) {
    item.Item? && item.fact != "" && key(item.key, Strip(item.fact)) == k
  }

  ghost predicate AnyLoadsAs(stored: seq<Item>, key: Keyer, k: string) {
    exists i | 0 <= i < |stored| :: LoadsAs(stored[i], key, k)
  }

  ghost predicate HasFact(facts: seq<Fact>, k: string) {
    exists i | 0 <= i < |facts| :: facts[i].key == k
  }

  lemma HasOneMore(facts: seq<Fact>, f: Fact, k: string)
    ensures HasFact(facts + [f], k) <==> HasFact(facts, k) || f.key == k
  {
    if i :| 0 <= i < |facts| && facts[i].key == k {
      assert (facts + [f])[i].key == k;
    }
    assert (facts + [f])[|facts|] == f;
  }

  lemma {:induction false} LoadHas(stored: seq<Item>, now: int, key: Keyer, k: string)
    ensures HasFact(Load(stored, now, key), k) <==> AnyLoadsAs(stored, key, k)
  {
    if stored != [] {
      var init, last := stored[..|stored| - 1], stored[|stored| - 1];
      LoadHas(init, now, key, k);
      AnyOneMore(stored, key, k);
      if last.Item? && last.fact != "" {
        HasOneMore(Load(init, now, key), Upgraded(last, now, key), k);
      } else {
        assert Load(init, now, key) + [] == Load(init, now, key);
      }
    }
  }

  lemma AnyOneMore(stored: seq<Item>, key: Keyer, k: string)
    requires stored != []
    ensures AnyLoadsAs(stored, key, k)
       <==> AnyLoadsAs(stored[..|stored| - 1], key, k) || LoadsAs(stored[|stored| - 1], key, k)
  {
    var init := stored[..|stored| - 1];
    if i :| 0 <= i < |init| && LoadsAs(init[i], key, k) {
      assert stored[i] == init[i];
    }
    if i :| 0 <= i < |stored| && LoadsAs(stored[i], key, k) {
      assert i < |init| ==> init[i] == stored[i];
    }
  }

  /** Whatever is stored: a key is found by a merge if and only if some stored entry loads under it. */
  lemma FoundAgainIff(stored: seq<Item>, now: int, key: Keyer, k: string)
    ensures var loaded := Dict(Load(stored, now, key));
            Find(loaded, k) < |loaded| <==> AnyLoadsAs(stored, key, k)
  {
    var all := Load(stored, now, key);
    LoadHas(stored, now, key, k);
    DictIs(all);
    if Find(Dict(all), k) < |Dict(all)| {
      var f := Dict(all)[Find(Dict(all), k)];
      assert IsLastOfKey(all, f);
    }
    if i :| 0 <= i < |all| && all[i].key == k {
      assert all[i] in all;
    }
  }

  /** The hash prefix is never empty and is its own slug. */
  ghost predicate HashOk(hash: string -> string) {
    forall s :: Slug(hash(s)) == hash(s) && hash(s) != ""
  }

  ghost predicate IsSlug(k: string) {
    exists value :: Slug(value) == k
  }

  ghost predicate KeysAreSlugs(stored: seq<Item>) {
    forall i | 0 <= i < |stored| && stored[i].Item? :: IsSlug(stored[i].key)
  }

  /** No slug is loaded under a key with a dash at its end, so no merge finds such a key. */
  lemma CutKeyIsNeverFound(stored: seq<Item>, now: int, hash: string -> string, k: string)
    requires HashOk(hash) && KeysAreSlugs(stored) && TrailingDash(k)
    ensures var loaded := Dict(Load(stored, now, SlugKeyer(hash))); Find(loaded, k) == |loaded|
  {
    FoundAgainIff(stored, now, SlugKeyer(hash), k);
    forall i | 0 <= i < |stored|
      ensures !LoadsAs(stored[i], SlugKeyer(hash), k)
    {
      if stored[i].Item? {
        var value :| Slug(value) == stored[i].key;
        NoDashAfterTwo(value);
        NoDashAfterTwo(hash(Strip(stored[i].fact)));
      }
    }
  }

  lemma NoDashAfterTwo(value: string)
    ensures !TrailingDash(Slug(Slug(value)))
  {
    SlugShape(value);
    SlugOfSlug(value);
    SlugShape(Slug(value));
  }

  ghost predicate HaveSlugs(facts: seq<Fact>) {
    forall f <- facts :: IsSlug(f.key)
  }

  lemma KeyIsSlug(raw: string, fact: string, hash: string -> string)
    requires HashOk(hash)
    ensures IsSlug(SlugKeyer(hash)(raw, fact))
  {
    assert Slug(hash(fact)) == hash(fact);
  }

  lemma {:induction false} LoadHasSlugs(stored: seq<Item>, now: int, hash: string -> string)
    requires HashOk(hash)
    ensures HaveSlugs(Load(stored, now, SlugKeyer(hash)))
  {
    if stored != [] {
      var last := stored[|stored| - 1];
      LoadHasSlugs(stored[..|stored| - 1], now, hash);
      if last.Item? {
        KeyIsSlug(last.key, Strip(last.fact), hash);
      }
    }
  }

  lemma {:induction false} MentionsHaveSlugs(facts: seq<Fact>, items: seq<RawFact>, now: int, hash: string -> string)
    requires HashOk(hash) && HaveSlugs(facts)
    ensures HaveSlugs(MentionAll(facts, items, now, SlugKeyer(hash)))
  {
    if items != [] {
      var last := items[|items| - 1];
      MentionsHaveSlugs(facts, items[..|items| - 1], now, hash);
      KeyIsSlug(last.key, Strip(last.fact), hash);
    }
  }

  /** Whatever was stored before, every key that a merge stores is a slug. */
  lemma StoredKeysAreSlugs(stored: seq<Item>, items: seq<RawFact>, now: int, cap: nat, hash: string -> string)
    requires HashOk(hash) && items != []
    ensures KeysAreSlugs(AfterMerge(stored, items, now, cap, SlugKeyer(hash)))
  {
    var key := SlugKeyer(hash);
    var loaded := Load(stored, now, key);
    LoadHasSlugs(stored, now, hash);
    DictIs(loaded);
    forall f | f in Dict(loaded) ensures IsSlug(f.key) {
      var i :| 0 <= i < |Dict(loaded)| && Dict(loaded)[i] == f;
      assert IsLastOfKey(loaded, Dict(loaded)[i]);
    }
    var mentioned := MentionAll(Dict(loaded), items, now, key);
    MentionsHaveSlugs(Dict(loaded), items, now, hash);
    SortSorts(mentioned);
    SameElements(mentioned, Sorted(mentioned));
    var kept := Kept(Sorted(mentioned), cap);
    forall i | 0 <= i < |kept| ensures IsSlug(kept[i].key) {
      assert kept[i] == Sorted(mentioned)[i] && kept[i] in Sorted(mentioned);
    }
  }

  /** Under the code's keyer that fails for every slug that the cut left with a dash at its end. */
  lemma CutSlugIsUnstable(value: string, hash: string -> string, fact: string)
    requires TrailingDash(Slug(value))
    ensures SlugKeyer(hash)(Slug(value), fact) != Slug(value) == SlugKeyer(hash)(value, fact)
  {
    SlugShape(value);
    SlugOfSlug(value);
  }

  /** There are such values: 63 letters, a dash and one letter more. */
  function LongKey(): string {
    seq(63, _ => 'a') + "-b"
  }

  lemma CutSlugExists()
    ensures TrailingDash(Slug(LongKey()))
  {
    var s := LongKey();
    assert Dashed(s);
    LowerIsFixed(s, |s|);
    assert s[..|s|] == s;
    CollapseIsFixed(s);
    StripDashed(s);
  }

  lemma SameElements(a: seq<Fact>, b: seq<Fact>)
    requires multiset(a) == multiset(b)
    ensures forall f :: f in a <==> f in b
  {
    forall f
      ensures f in a <==> f in b
    {
      assert f in a <==> f in multiset(a);
      assert f in b <==> f in multiset(b);
    }
  }

  /* ---- what the mentions of a batch do ---- */

  /** How often the non-blank facts of a batch mention a key. */
  function Mentions(items: seq<RawFact>, key: Keyer, k: string): nat {
    if items == [] then 0 else
    var last := items[|items| - 1];
    Mentions(items[..|items| - 1], key, k)
      + if Strip(last.fact) != "" && key(last.key, Strip(last.fact)) == k then 1 else 0
  }

  /** An entry that was there, after `n` mentions. */
  predicate IsBumped(before: Fact, after: Fact, n: nat, now: int) {
    && after.key == before.key && after.firstSeen == before.firstSeen && after.hits == before.hits + n
    && after.lastSeen == if n > 0 then now else before.lastSeen
  }

  /** An entry that `n` mentions made. */
  predicate IsBorn(f: Fact, n: nat, now: int) {
    n > 0 && f.hits == n && f.firstSeen == f.lastSeen == now
  }

  /** Old entries keep their places and count their mentions; new ones follow, with the hits of this batch alone. */
  ghost predicate AreMentioned(facts: seq<Fact>, after: seq<Fact>, items: seq<RawFact>, now: int, key: Keyer) {
    && |facts| <= |after|
    && (forall i | 0 <= i < |facts| :: IsBumped(facts[i], after[i], Mentions(items, key, facts[i].key), now))
    && (forall i | |facts| <= i < |after| ::
          !HasFact(facts, after[i].key) && IsBorn(after[i], Mentions(items, key, after[i].key), now))
    && (forall k | Mentions(items, key, k) > 0 :: HasFact(after, k))
  }

  lemma {:induction false} MentionsAre(facts: seq<Fact>, items: seq<RawFact>, now: int, key: Keyer)
    requires DistinctKeys(facts)
    ensures AreMentioned(facts, MentionAll(facts, items, now, key), items, now, key)
  {
    if items != [] {
      var init, last := items[..|items| - 1], items[|items| - 1];
      MentionsAre(facts, init, now, key);
      MentionsAreDistinct(facts, init, now, key);
      OneMoreMention(facts, MentionAll(facts, init, now, key), items, now, key);
    }
  }

  lemma OneMoreMention(facts: seq<Fact>, before: seq<Fact>, items: seq<RawFact>, now: int, key: Keyer)
    requires items != [] && DistinctKeys(before)
    requires AreMentioned(facts, before, items[..|items| - 1], now, key)
    ensures AreMentioned(facts, Mention(before, items[|items| - 1], now, key), items, now, key)
  {
    var init, last := items[..|items| - 1], items[|items| - 1];
    var fact := Strip(last.fact);
    if fact != "" {
      var slug := key(last.key, fact);
      assert forall k :: Mentions(items, key, k) == Mentions(init, key, k) + if k == slug then 1 else 0;
      HitIs(facts, before, init, items, slug, fact, now, key);
    } else {
      assert forall k :: Mentions(items, key, k) == Mentions(init, key, k);
    }
  }

  lemma HitIs(facts: seq<Fact>, before: seq<Fact>, init: seq<RawFact>, items: seq<RawFact>, slug: string,
              fact: string, now: int, key: Keyer)
    requires DistinctKeys(before) && AreMentioned(facts, before, init, now, key)
    requires forall k :: Mentions(items, key, k) == Mentions(init, key, k) + if k == slug then 1 else 0
    ensures AreMentioned(facts, Hit(before, slug, fact, now), items, now, key)
  {
    var at, after := Find(before, slug), Hit(before, slug, fact, now);
    forall i | 0 <= i < |facts| ensures IsBumped(facts[i], after[i], Mentions(items, key, facts[i].key), now) {
      assert IsBumped(facts[i], before[i], Mentions(init, key, facts[i].key), now);
      assert before[i].key == slug <==> i == at;
    }
    forall i | |facts| <= i < |after|
      ensures !HasFact(facts, after[i].key) && IsBorn(after[i], Mentions(items, key, after[i].key), now)
    {
      if i < |before| {
        assert IsBorn(before[i], Mentions(init, key, before[i].key), now) && !HasFact(facts, before[i].key);
        assert before[i].key == slug <==> i == at;
      } else {
        OldIsThere(facts, before, init, slug, now, key);
      }
    }
    forall k | Mentions(items, key, k) > 0 ensures HasFact(after, k) {
      HitHas(before, slug, fact, now, k);
    }
  }

  lemma OldIsThere(facts: seq<Fact>, before: seq<Fact>, init: seq<RawFact>, slug: string, now: int, key: Keyer)
    requires AreMentioned(facts, before, init, now, key) && Find(before, slug) == |before|
    ensures !HasFact(facts, slug) && Mentions(init, key, slug) == 0
  {
    OldKeysIn(facts, before, init, now, key);
    assert !HasFact(before, slug);
  }

  lemma OldKeysIn(facts: seq<Fact>, after: seq<Fact>, items: seq<RawFact>, now: int, key: Keyer)
    requires AreMentioned(facts, after, items, now, key)
    ensures forall i | 0 <= i < |facts| :: after[i].key == facts[i].key
    ensures forall k | HasFact(facts, k) :: HasFact(after, k)
  {
    forall i | 0 <= i < |facts| ensures after[i].key == facts[i].key {
      assert IsBumped(facts[i], after[i], Mentions(items, key, facts[i].key), now);
    }
  }

  lemma HitHas(before: seq<Fact>, slug: string, fact: string, now: int, k: string)
    ensures HasFact(Hit(before, slug, fact, now), k) <==> HasFact(before, k) || k == slug
  {
    var at, after := Find(before, slug), Hit(before, slug, fact, now);
    if at < |before| {
      assert forall i | 0 <= i < |before| :: after[i].key == before[i].key;
      assert after[at].key == slug;
    } else {
      HasOneMore(before, Fact(slug, fact, now, now, 1), k);
    }
  }

  /**
   A key that is not found collects nothing over the merges: whatever was stored, its entry starts anew and has
   the hits of this batch alone.
   */
  lemma StartsAnew(stored: seq<Item>, items: seq<RawFact>, now: int, key: Keyer, k: string, f: Fact)
    requires !AnyLoadsAs(stored, key, k) && f in Ranked(stored, items, now, key) && f.key == k
    ensures f.hits == Mentions(items, key, k) && f.firstSeen == now
  {
    var loaded := Dict(Load(stored, now, key));
    FoundAgainIff(stored, now, key, k);
    DictIsDistinct(Load(stored, now, key));
    MentionsAre(loaded, items, now, key);
    var mentioned := MentionAll(loaded, items, now, key);
    SortSorts(mentioned);
    SameElements(mentioned, Sorted(mentioned));
    OldKeysIn(loaded, mentioned, items, now, key);
    var i :| 0 <= i < |mentioned| && mentioned[i] == f;
    assert i >= |loaded|;
  }

  /* ---- hits ---- */

  function NonBlank(items: seq<RawFact>): nat {
    if items == [] then 0
    else NonBlank(items[..|items| - 1]) + if Strip(items[|items| - 1].fact) != "" then 1 else 0
  }

  lemma HitsOfUpdate(facts: seq<Fact>, i: nat, f: Fact)
    requires i < |facts|
    ensures TotalHits(facts[i := f]) == TotalHits(facts) - facts[i].hits + f.hits
  {
    var n := |facts| - 1;
    if i < n {
      HitsOfUpdate(facts[..n], i, f);
      assert facts[i := f][..n] == facts[..n][i := f];
    } else {
      assert facts[i := f][..n] == facts[..n];
    }
  }

  lemma NewFactIsStable(item: RawFact, now: int, key: Keyer)
    requires Strip(item.fact) != "" && StableItem(item, key)
    ensures StableFact(Fact(key(item.key, Strip(item.fact)), Strip(item.fact), now, now, 1), key)
  {
    StripIsStable(item.fact);
  }

  lemma PutIsStable(facts: seq<Fact>, i: nat, f: Fact, key: Keyer)
    requires StableFacts(facts, key) && StableFact(f, key) && i <= |facts|
    requires i < |facts| ==> facts[i].key == f.key
    requires i == |facts| ==> forall g <- facts :: g.key != f.key
    ensures StableFacts(if i < |facts| then facts[i := f] else facts + [f], key)
  {
  }

  lemma AppendHits(facts: seq<Fact>, f: Fact)
    ensures TotalHits(facts + [f]) == TotalHits(facts) + f.hits
  {
    assert (facts + [f])[..|facts|] == facts;
  }

  lemma HitCounts(facts: seq<Fact>, key: string, fact: string, now: int)
    ensures TotalHits(Hit(facts, key, fact, now)) == TotalHits(facts) + 1
  {
    var i := Find(facts, key);
    if i < |facts| {
      HitsOfUpdate(facts, i, facts[i].(fact := fact, lastSeen := now, hits := facts[i].hits + 1));
    } else {
      AppendHits(facts, Fact(key, fact, now, now, 1));
    }
  }

  lemma HitIsStable(facts: seq<Fact>, slug: string, fact: string, now: int, key: Keyer)
    requires StableFacts(facts, key) && StableFact(Fact(slug, fact, now, now, 1), key)
    ensures StableFacts(Hit(facts, slug, fact, now), key)
  {
    var i := Find(facts, slug);
    if i < |facts| {
      assert StableFact(facts[i], key);
      PutIsStable(facts, i, facts[i].(fact := fact, lastSeen := now, hits := facts[i].hits + 1), key);
    } else {
      PutIsStable(facts, i, Fact(slug, fact, now, now, 1), key);
    }
  }

  lemma MentionIsStable(facts: seq<Fact>, item: RawFact, now: int, key: Keyer)
    requires StableFacts(facts, key) && StableItem(item, key)
    ensures StableFacts(Mention(facts, item, now, key), key)
    ensures TotalHits(Mention(facts, item, now, key))
         == TotalHits(facts) + if Strip(item.fact) != "" then 1 else 0
  {
    var fact := Strip(item.fact);
    if fact != "" {
      NewFactIsStable(item, now, key);
      HitIsStable(facts, key(item.key, fact), fact, now, key);
      HitCounts(facts, key(item.key, fact), fact, now);
    }
  }

  lemma {:induction false} MentionsAreStable(facts: seq<Fact>, items: seq<RawFact>, now: int, key: Keyer)
    requires StableFacts(facts, key) && StableKeys(items, key)
    ensures StableFacts(MentionAll(facts, items, now, key), key)
    ensures TotalHits(MentionAll(facts, items, now, key)) == TotalHits(facts) + NonBlank(items)
  {
    if items != [] {
      var init, last := items[..|items| - 1], items[|items| - 1];
      MentionsAreStable(facts, init, now, key);
      assert StableItem(last, key);
      MentionIsStable(MentionAll(facts, init, now, key), last, now, key);
    }
  }

  lemma {:induction false} InsertKeepsHits(sorted: seq<Fact>, f: Fact)
    ensures TotalHits(Insert(sorted, f)) == TotalHits(sorted) + f.hits
  {
    if sorted == [] || Before(sorted[|sorted| - 1], f) {
      assert (sorted + [f])[..|sorted|] == sorted;
    } else {
      var init, last := sorted[..|sorted| - 1], sorted[|sorted| - 1];
      InsertKeepsHits(init, f);
      assert (Insert(init, f) + [last])[..|Insert(init, f)|] == Insert(init, f);
    }
  }

  lemma {:induction false} SortKeepsHits(facts: seq<Fact>)
    ensures TotalHits(Sorted(facts)) == TotalHits(facts)
  {
    if facts != [] {
      SortKeepsHits(facts[..|facts| - 1]);
      InsertKeepsHits(Sorted(facts[..|facts| - 1]), facts[|facts| - 1]);
    }
  }

  lemma {:induction false} HitsOfConcat(a: seq<Fact>, b: seq<Fact>)
    ensures TotalHits(a + b) == TotalHits(a) + TotalHits(b)
  {
    if b == [] {
      assert a + b == a;
    } else {
      var n := |b| - 1;
      HitsOfConcat(a, b[..n]);
      assert (a + b)[..|a + b| - 1] == a + b[..n];
    }
  }

  lemma {:induction false} MentionsCount(facts: seq<Fact>, items: seq<RawFact>, now: int, key: Keyer)
    ensures TotalHits(MentionAll(facts, items, now, key)) == TotalHits(facts) + NonBlank(items)
  {
    if items != [] {
      var init, last := items[..|items| - 1], items[|items| - 1];
      MentionsCount(facts, init, now, key);
      if Strip(last.fact) != "" {
        HitCounts(MentionAll(facts, init, now, key), key(last.key, Strip(last.fact)), Strip(last.fact), now);
      }
    }
  }

  /** The facts that later ones of the same key replace when the dict is built. */
  function Overwritten(facts: seq<Fact>): seq<Fact> {
    if facts == [] then [] else
    var dict, last := Dict(facts[..|facts| - 1]), facts[|facts| - 1];
    var i := Find(dict, last.key);
    Overwritten(facts[..|facts| - 1]) + if i < |dict| then [dict[i]] else []
  }

  lemma {:induction false} DictHits(facts: seq<Fact>)
    ensures TotalHits(Dict(facts)) + TotalHits(Overwritten(facts)) == TotalHits(facts)
  {
    if facts != [] {
      var init, last := facts[..|facts| - 1], facts[|facts| - 1];
      DictHits(init);
      var i := Find(Dict(init), last.key);
      if i < |Dict(init)| {
        HitsOfUpdate(Dict(init), i, last);
        AppendHits(Overwritten(init), Dict(init)[i]);
      } else {
        AppendHits(Dict(init), last);
        assert Overwritten(init) + [] == Overwritten(init);
      }
    }
  }

  lemma DistinctOneMore(init: seq<Fact>, last: Fact)
    ensures DistinctKeys(init + [last]) <==> DistinctKeys(init) && Find(init, last.key) == |init|
  {
    var all, at := init + [last], Find(init, last.key);
    assert at < |init| ==> all[at].key == all[|init|].key;
    if DistinctKeys(all) {
      forall i, j | 0 <= i < j < |init| ensures init[i].key != init[j].key {
        assert all[i].key != all[j].key;
      }
    }
  }

  /** Nothing is replaced if and only if no two facts have the same key. */
  lemma {:induction false} OverwrittenIff(facts: seq<Fact>)
    ensures Overwritten(facts) == [] <==> DistinctKeys(facts)
  {
    if facts != [] {
      var init, last := facts[..|facts| - 1], facts[|facts| - 1];
      assert facts == init + [last];
      OverwrittenIff(init);
      DistinctOneMore(init, last);
      if DistinctKeys(init) { DictOfDistinct(init); }
    }
  }

  /** What every store has that only merges wrote: stripped texts that are not empty, and hits. */
  predicate IsWritten(f: Fact) {
    f.fact != "" && Strip(f.fact) == f.fact && f.hits >= 1
  }

  predicate AreWritten(facts: seq<Fact>) {
    forall f <- facts :: IsWritten(f)
  }

  lemma LoadOneMore(init: seq<Fact>, last: Fact, now: int, key: Keyer)
    requires IsWritten(last)
    ensures Load(Dump(init + [last]), now, key)
         == Load(Dump(init), now, key) + [last.(key := key(last.key, last.fact))]
  {
    var d := Dump(init + [last]);
    assert d[..|init|] == Dump(init);
    assert Upgraded(d[|init|], now, key) == last.(key := key(last.key, last.fact));
  }

  lemma {:induction false} LoadOfWritten(facts: seq<Fact>, now: int, key: Keyer)
    requires AreWritten(facts)
    ensures var loaded := Load(Dump(facts), now, key);
      TotalHits(loaded) == TotalHits(facts) && AreWritten(loaded)
  {
    if facts != [] {
      var init, last := facts[..|facts| - 1], facts[|facts| - 1];
      assert facts == init + [last] && forall f <- init :: f in facts;
      LoadOfWritten(init, now, key);
      LoadOneMore(init, last, now, key);
      WrittenOneMore(Load(Dump(init), now, key), last, key(last.key, last.fact));
    }
  }

  lemma WrittenOneMore(facts: seq<Fact>, f: Fact, k: string)
    requires AreWritten(facts) && IsWritten(f)
    ensures AreWritten(facts + [f.(key := k)]) && TotalHits(facts + [f.(key := k)]) == TotalHits(facts) + f.hits
  {
    AppendHits(facts, f.(key := k));
    assert IsWritten(f.(key := k));
  }

  lemma DictIsWritten(facts: seq<Fact>)
    requires AreWritten(facts)
    ensures AreWritten(Dict(facts))
  {
    DictIs(facts);
    forall f | f in Dict(facts) ensures IsWritten(f) {
      var i :| 0 <= i < |Dict(facts)| && Dict(facts)[i] == f;
      assert IsLastOfKey(facts, Dict(facts)[i]);
    }
  }

  lemma {:induction false} MentionsAreWritten(facts: seq<Fact>, items: seq<RawFact>, now: int, key: Keyer)
    requires AreWritten(facts)
    ensures AreWritten(MentionAll(facts, items, now, key))
  {
    if items != [] {
      var last := items[|items| - 1];
      MentionsAreWritten(facts, items[..|items| - 1], now, key);
      StripIsStable(last.fact);
      if Strip(last.fact) != "" {
        HitIsWritten(MentionAll(facts, items[..|items| - 1], now, key), key(last.key, Strip(last.fact)),
                     Strip(last.fact), now);
      }
    }
  }

  lemma HitIsWritten(facts: seq<Fact>, slug: string, fact: string, now: int)
    requires AreWritten(facts) && fact != "" && Strip(fact) == fact
    ensures AreWritten(Hit(facts, slug, fact, now))
  {
    var i := Find(facts, slug);
    if i < |facts| {
      assert facts[i] in facts;
    }
  }

  lemma CutIsWritten(facts: seq<Fact>, cap: nat)
    requires AreWritten(facts)
    ensures AreWritten(Kept(Sorted(facts), cap))
  {
    SortSorts(facts);
    SameElements(facts, Sorted(facts));
  }

  /* ---- one merge, on facts ---- */

  function Merged(facts: seq<Fact>, items: seq<RawFact>, now: int, cap: nat, key: Keyer): seq<Fact> {
    if items == [] then facts else Kept(Sorted(MentionAll(Reloaded(facts, now, key), items, now, key)), cap)
  }

  function Evicted(facts: seq<Fact>, items: seq<RawFact>, now: int, cap: nat, key: Keyer): seq<Fact> {
    if items == [] then [] else Dropped(Sorted(MentionAll(Reloaded(facts, now, key), items, now, key)), cap)
  }

  /** The stored facts that loading replaces by another of the same key. */
  function Replaced(facts: seq<Fact>, items: seq<RawFact>, now: int, key: Keyer): seq<Fact> {
    if items == [] then [] else Overwritten(Load(Dump(facts), now, key))
  }

  /** Where every hit of a merge goes, whatever the keys are. */
  lemma MergeAccounts(facts: seq<Fact>, items: seq<RawFact>, now: int, cap: nat, key: Keyer)
    requires AreWritten(facts)
    ensures var merged := Merged(facts, items, now, cap, key);
      && AfterMerge(Dump(facts), items, now, cap, key) == Dump(merged) && AreWritten(merged)
      && TotalHits(merged) + TotalHits(Evicted(facts, items, now, cap, key))
           + TotalHits(Replaced(facts, items, now, key))
         == TotalHits(facts) + NonBlank(items)
  {
    if items != [] {
      var loaded := Load(Dump(facts), now, key);
      LoadOfWritten(facts, now, key);
      DictHits(loaded);
      DictIsWritten(loaded);
      var mentioned := MentionAll(Dict(loaded), items, now, key);
      MentionsCount(Dict(loaded), items, now, key);
      MentionsAreWritten(Dict(loaded), items, now, key);
      SplitHits(mentioned, cap);
      CutIsWritten(mentioned, cap);
    }
  }

  lemma SortedIsStable(facts: seq<Fact>, cap: nat, key: Keyer)
    requires StableFacts(facts, key)
    ensures StableFacts(Sorted(facts), key) && StableFacts(Kept(Sorted(facts), cap), key)
  {
    SortSorts(facts);
    DistinctIsUnordered(facts, Sorted(facts));
    forall f | f in Sorted(facts)
      ensures StableFact(f, key)
    {
      assert f in multiset(facts);
    }
  }

  /** A merge into a stable store: it stays stable, and loading replaces nothing. */
  lemma MergeCounts(facts: seq<Fact>, items: seq<RawFact>, now: int, cap: nat, key: Keyer)
    requires StableFacts(facts, key) && StableKeys(items, key)
    ensures var merged := Merged(facts, items, now, cap, key);
            && AfterMerge(Dump(facts), items, now, cap, key) == Dump(merged)
            && StableFacts(merged, key) && Replaced(facts, items, now, key) == []
            && TotalHits(merged) + TotalHits(Evicted(facts, items, now, cap, key)) == TotalHits(facts) + NonBlank(items)
  {
    assert AreWritten(facts) by { assert forall f <- facts :: StableFact(f, key); }
    MergeAccounts(facts, items, now, cap, key);
    if items != [] {
      Reload(facts, now, key);
      LoadOfDump(facts, now, key);
      OverwrittenIff(facts);
      MentionsAreStable(facts, items, now, key);
      SortedIsStable(MentionAll(facts, items, now, key), cap, key);
    }
  }

  lemma SplitHits(facts: seq<Fact>, cap: nat)
    ensures TotalHits(Kept(Sorted(facts), cap)) + TotalHits(Dropped(Sorted(facts), cap)) == TotalHits(facts)
  {
    var ranked := Sorted(facts);
    SortKeepsHits(facts);
    assert Kept(ranked, cap) + Dropped(ranked, cap) == ranked;
    HitsOfConcat(Kept(ranked, cap), Dropped(ranked, cap));
  }

  /* ---- sequences of merges ---- */

  datatype Batch = Batch(items: seq<RawFact>, now: int)

  ghost predicate IsHistory(trace: seq<seq<Item>>, batches: seq<Batch>, cap: nat, key: Keyer) {
    && |trace| == |batches| + 1
    && trace[0] == []
    && forall k | 0 <= k < |batches| :: Merges(trace[k], trace[k + 1], batches[k], cap, key)
  }

  predicate Merges(before: seq<Item>, after: seq<Item>, b: Batch, cap: nat, key: Keyer) {
    after == AfterMerge(before, b.items, b.now, cap, key)
  }

  function FactsFrom(start: seq<Fact>, batches: seq<Batch>, cap: nat, key: Keyer): seq<Fact> {
    if batches == [] then start else
    var n := |batches| - 1;
    Merged(FactsFrom(start, batches[..n], cap, key), batches[n].items, batches[n].now, cap, key)
  }

  function MergedCount(batches: seq<Batch>): nat {
    if batches == [] then 0 else MergedCount(batches[..|batches| - 1]) + NonBlank(batches[|batches| - 1].items)
  }

  function EvictedHits(batches: seq<Batch>, cap: nat, key: Keyer): int {
    if batches == [] then 0 else
    var n := |batches| - 1;
    EvictedHits(batches[..n], cap, key)
      + TotalHits(Evicted(FactsFrom([], batches[..n], cap, key), batches[n].items, batches[n].now, cap, key))
  }

  function ReplacedHits(batches: seq<Batch>, cap: nat, key: Keyer): int {
    if batches == [] then 0 else
    var n := |batches| - 1;
    ReplacedHits(batches[..n], cap, key)
      + TotalHits(Replaced(FactsFrom([], batches[..n], cap, key), batches[n].items, batches[n].now, key))
  }

  /** The account after some batches: what is stored, and where the hits went. */
  ghost predicate Accounted(stored: seq<Item>, batches: seq<Batch>, cap: nat, key: Keyer) {
    var facts := FactsFrom([], batches, cap, key);
    && stored == Dump(facts) && AreWritten(facts)
    && TotalHits(facts) + EvictedHits(batches, cap, key) + ReplacedHits(batches, cap, key) == MergedCount(batches)
  }

  lemma AccountOneMore(stored: seq<Item>, after: seq<Item>, batches: seq<Batch>, b: Batch, cap: nat, key: Keyer)
    requires Accounted(stored, batches, cap, key) && Merges(stored, after, b, cap, key)
    ensures Accounted(after, batches + [b], cap, key)
  {
    assert (batches + [b])[..|batches|] == batches;
    MergeAccounts(FactsFrom([], batches, cap, key), b.items, b.now, cap, key);
  }

  lemma NextBatch(trace: seq<seq<Item>>, batches: seq<Batch>, cap: nat, key: Keyer, k: nat)
    requires IsHistory(trace, batches, cap, key) && k < |batches|
    ensures Merges(trace[k], trace[k + 1], batches[k], cap, key)
    ensures batches[k] in batches && batches[..k + 1] == batches[..k] + [batches[k]]
  {
  }

  /**
   Over any sequence of merges, whatever the keys: the stored hits, the hits of evicted facts and the hits of
   facts that loading replaced are together the number of non-blank facts merged.
   */
  lemma {:induction false} HitsAreAccounted(trace: seq<seq<Item>>, batches: seq<Batch>, cap: nat, key: Keyer, k: nat)
    requires IsHistory(trace, batches, cap, key) && k <= |batches|
    ensures Accounted(trace[k], batches[..k], cap, key)
  {
    if k == 0 {
      assert batches[..k] == [] && Accounted([], [], cap, key);
    } else {
      HitsAreAccounted(trace, batches, cap, key, k - 1);
      NextBatch(trace, batches, cap, key, k - 1);
      AccountOneMore(trace[k - 1], trace[k], batches[..k - 1], batches[k - 1], cap, key);
    }
  }

  lemma {:induction false} StaysStable(batches: seq<Batch>, cap: nat, key: Keyer)
    requires forall b <- batches :: StableKeys(b.items, key)
    ensures StableFacts(FactsFrom([], batches, cap, key), key) && ReplacedHits(batches, cap, key) == 0
  {
    if batches != [] {
      var init, last := batches[..|batches| - 1], batches[|batches| - 1];
      assert forall b <- init :: b in batches;
      StaysStable(init, cap, key);
      assert last in batches;
      MergeCounts(FactsFrom([], init, cap, key), last.items, last.now, cap, key);
    }
  }

  /** With stable keys nothing is replaced, so without eviction no mention is lost. */
  lemma HitsAreConserved(trace: seq<seq<Item>>, batches: seq<Batch>, cap: nat, key: Keyer, k: nat)
    requires IsHistory(trace, batches, cap, key) && k <= |batches|
    requires forall b <- batches :: StableKeys(b.items, key)
    ensures var facts := FactsFrom([], batches[..k], cap, key);
      && trace[k] == Dump(facts) && StableFacts(facts, key)
      && TotalHits(facts) + EvictedHits(batches[..k], cap, key) == MergedCount(batches[..k])
  {
    HitsAreAccounted(trace, batches, cap, key, k);
    assert forall b <- batches[..k] :: b in batches;
    StaysStable(batches[..k], cap, key);
  }

  /* ---- a fact whose key is not stable ---- */

  /** The key of the fact changes when it is loaded, and then stays. */
  predicate Shifts(key: Keyer, slug: string, fact: string) {
    key(slug, fact) != slug && key(key(slug, fact), fact) == key(slug, fact)
  }

  predicate HasOneHit(f: Fact, k: string, fact: string) {
    f.key == k && f.fact == fact && f.hits == 1
  }

  /** What merges of one such fact leave: nothing, one entry, and from the second on two of one hit each. */
  ghost predicate AreShifted(facts: seq<Fact>, key: Keyer, slug: string, fact: string, merges: nat) {
    if merges == 0 then facts == []
    else if merges == 1 then |facts| == 1 && HasOneHit(facts[0], slug, fact)
    else && |facts| == 2
         && ((HasOneHit(facts[0], slug, fact) && HasOneHit(facts[1], key(slug, fact), fact))
             || (HasOneHit(facts[1], slug, fact) && HasOneHit(facts[0], key(slug, fact), fact)))
  }

  lemma LoadOfOne(a: Item, now: int, key: Keyer)
    requires a.Item? && a.fact != ""
    ensures Load([a], now, key) == [Upgraded(a, now, key)]
  {
    assert [a][..0] == [] && Load([a][..0], now, key) == [];
  }

  lemma LoadOfTwo(a: Item, b: Item, now: int, key: Keyer)
    requires a.Item? && a.fact != "" && b.Item? && b.fact != ""
    ensures Load([a, b], now, key) == [Upgraded(a, now, key), Upgraded(b, now, key)]
  {
    LoadOfOne(a, now, key);
    assert [a, b][..1] == [a];
  }

  lemma DictOfTwo(a: Fact, b: Fact)
    ensures Dict([a]) == [a] && (a.key == b.key ==> Dict([a, b]) == [b])
  {
    assert [a][..0] == [] && [a, b][..1] == [a];
  }

  /** Loading such a store leaves one entry, under the shifted key. */
  lemma ShiftedReload(facts: seq<Fact>, key: Keyer, slug: string, fact: string, merges: nat, now: int)
    requires fact != "" && Strip(fact) == fact && Shifts(key, slug, fact)
    requires merges > 0 && AreShifted(facts, key, slug, fact, merges)
    ensures var loaded := Reloaded(facts, now, key); |loaded| == 1 && HasOneHit(loaded[0], key(slug, fact), fact)
  {
    var d := Dump(facts);
    var first := Upgraded(d[0], now, key);
    if merges == 1 {
      assert d == [d[0]];
      LoadOfOne(d[0], now, key);
      DictOfTwo(first, first);
    } else {
      assert d == [d[0], d[1]];
      LoadOfTwo(d[0], d[1], now, key);
      DictOfTwo(first, Upgraded(d[1], now, key));
    }
  }

  lemma SortOfOne(a: Fact)
    ensures Sorted([a]) == [a]
  {
    assert [a][..0] == [] && Sorted([a][..0]) == [];
  }

  lemma SortOfTwo(a: Fact, b: Fact)
    ensures Sorted([a, b]) == if Before(a, b) then [a, b] else [b, a]
  {
    SortOfOne(a);
    assert [a, b][..1] == [a] && [a][..0] == [];
    assert Insert([], b) == [b];
  }

  lemma MentionOfOne(facts: seq<Fact>, item: RawFact, now: int, key: Keyer)
    ensures MentionAll(facts, [item], now, key) == Mention(facts, item, now, key)
  {
    assert [item][..0] == [] && MentionAll(facts, [item][..0], now, key) == facts;
  }

  lemma FirstShift(item: RawFact, slug: string, fact: string, now: int, cap: nat, key: Keyer)
    requires fact == Strip(item.fact) != "" && slug == key(item.key, fact) && cap >= 2
    ensures Merged([], [item], now, cap, key) == [Fact(slug, fact, now, now, 1)]
  {
    MentionOfOne([], item, now, key);
    assert Dump([]) == [] && Reloaded([], now, key) == [];
    SortOfOne(Fact(slug, fact, now, now, 1));
  }

  lemma SecondShift(first: Fact, item: RawFact, slug: string, fact: string, now: int, key: Keyer)
    requires fact == Strip(item.fact) != "" && slug == key(item.key, fact) && first.key != slug
    ensures var made := Fact(slug, fact, now, now, 1);
      Sorted(MentionAll([first], [item], now, key)) == if Before(first, made) then [first, made] else [made, first]
  {
    MentionOfOne([first], item, now, key);
    assert Find([first], slug) == 1;
    SortOfTwo(first, Fact(slug, fact, now, now, 1));
  }

  lemma ShiftedMerge(facts: seq<Fact>, item: RawFact, slug: string, fact: string, now: int, cap: nat, key: Keyer,
                     merges: nat)
    requires fact == Strip(item.fact) != "" && slug == key(item.key, fact) && cap >= 2 && Shifts(key, slug, fact)
    requires AreShifted(facts, key, slug, fact, merges)
    ensures AreShifted(Merged(facts, [item], now, cap, key), key, slug, fact, merges + 1)
  {
    StripIsStable(item.fact);
    if merges == 0 {
      FirstShift(item, slug, fact, now, cap, key);
    } else {
      ShiftedReload(facts, key, slug, fact, merges, now);
      var loaded := Reloaded(facts, now, key);
      assert loaded == [loaded[0]];
      SecondShift(loaded[0], item, slug, fact, now, key);
    }
  }

  lemma ShiftedHits(facts: seq<Fact>, key: Keyer, slug: string, fact: string, merges: nat)
    requires AreShifted(facts, key, slug, fact, merges)
    ensures |facts| == TotalHits(facts) == if merges < 2 then merges else 2
  {
    if merges == 1 {
      assert facts[..0] == [];
    } else if merges > 1 {
      assert facts[..1][..0] == [] && TotalHits(facts[..1]) == 1;
    }
  }

  /**
   However often a fact with an unstable key is merged, at whatever times, and although nothing is evicted: two
   entries of one hit each are all that is kept.
   */
  lemma {:induction false} ShiftedKeepsTwo(trace: seq<seq<Item>>, item: RawFact, slug: string, fact: string,
                                           batches: seq<Batch>, cap: nat, key: Keyer, k: nat)
    returns (facts: seq<Fact>)
    requires IsHistory(trace, batches, cap, key) && k <= |batches| && cap >= 2
    requires forall i | 0 <= i < |batches| :: batches[i].items == [item]
    requires fact == Strip(item.fact) != "" && slug == key(item.key, fact) && Shifts(key, slug, fact)
    ensures trace[k] == Dump(facts) && AreShifted(facts, key, slug, fact, k)
    ensures |facts| == TotalHits(facts) == if k < 2 then k else 2
  {
    if k == 0 {
      facts := [];
    } else {
      var before := ShiftedKeepsTwo(trace, item, slug, fact, batches, cap, key, k - 1);
      NextBatch(trace, batches, cap, key, k - 1);
      facts := ShiftedStep(before, trace[k - 1], trace[k], item, slug, fact, batches[k - 1], cap, key, k - 1);
    }
    ShiftedHits(facts, key, slug, fact, k);
  }

  lemma ShiftedStep(before: seq<Fact>, stored: seq<Item>, after: seq<Item>, item: RawFact, slug: string, fact: string,
                    b: Batch, cap: nat, key: Keyer, merges: nat) returns (facts: seq<Fact>)
    requires stored == Dump(before) && Merges(stored, after, b, cap, key) && b.items == [item] && cap >= 2
    requires fact == Strip(item.fact) != "" && slug == key(item.key, fact) && Shifts(key, slug, fact)
    requires AreShifted(before, key, slug, fact, merges)
    ensures after == Dump(facts) && AreShifted(facts, key, slug, fact, merges + 1)
  {
    facts := Merged(before, [item], b.now, cap, key);
    ShiftedMerge(before, item, slug, fact, b.now, cap, key, merges);
  }

  /** Under the code's keyer that is so for every key whose slug the cut left with a dash at its end. */
  lemma CutFactKeepsTwo(trace: seq<seq<Item>>, item: RawFact, batches: seq<Batch>, cap: nat, hash: string -> string,
                        k: nat) returns (facts: seq<Fact>)
    requires IsHistory(trace, batches, cap, SlugKeyer(hash)) && k <= |batches| && cap >= 2
    requires forall i | 0 <= i < |batches| :: batches[i].items == [item]
    requires Strip(item.fact) != "" && TrailingDash(Slug(item.key))
    ensures trace[k] == Dump(facts) && |facts| == TotalHits(facts) == (if k < 2 then k else 2)
  {
    var slug := Slug(item.key);
    SlugShape(item.key);
    SlugOfSlug(item.key);
    SlugSettles(item.key);
    facts := ShiftedKeepsTwo(trace, item, slug, Strip(item.fact), batches, cap, SlugKeyer(hash), k);
  }
}
