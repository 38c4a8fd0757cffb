/**
 The long-term memory of one assistant session: a capped list of facts keyed by slug. Time stamps
 are ISO strings in the code and numbers here; the content hash and the clock are parameters.
 */
module LongTermFacts {
  import opened Options
  import opened ChatThread
  import opened Slugs
  import opened Text

  datatype Fact = Fact(key: string, fact: string, firstSeen: int, lastSeen: int, hits: int)

  /** One entry of the stored JSON list; old entries may lack everything but a key and a fact. */
  datatype Item =
    | NotAFact
    | Item(key: string, fact: string, firstSeen: Option<int>, lastSeen: Option<int>, hits: Option<int>)

  /** How a raw key and the stripped fact give the key of an entry. */
  type Keyer = (string, string) -> string

  /** The code's keyer: the slug of the raw key, else the hash prefix of the fact. */
  function SlugKeyer(hash: string -> string): Keyer {
    (key: string, fact: string) => if Slug(key) != "" then Slug(key) else hash(fact)
  }

  /** An entry brought up to date by `load_long_term_memory`. */
  function Upgraded(item: Item, now: int, key: Keyer): Fact
    requires item.Item?
  {
    var fact := Strip(item.fact);
    Fact(key(item.key, fact), fact, item.firstSeen.GetOr(now), item.lastSeen.GetOr(now),
         if item.hits.Some? && item.hits.value != 0 then item.hits.value else 1)
  }

  function Load(stored: seq<Item>, now: int, key: Keyer): seq<Fact> {
    if stored == [] then [] else
    var last := stored[|stored| - 1];
    Load(stored[..|stored| - 1], now, key)
      + if last.Item? && last.fact != "" then [Upgraded(last, now, key)] else []
  }

  /** The key of an entry: the slug of its raw key, or the hash of the text if that has no letter and no digit. */
  lemma KeyIs(raw: string, fact: string, hash: string -> string)
    ensures SlugKeyer(hash)(raw, fact) == if AnyAlnum(Lower(raw)) then Slug(raw) else hash(fact)
  {
    SlugIsEmptyIff(raw);
  }

  /** A loaded entry: key and text of its own, the times it has or else now, the hits it has or else one. */
  predicate IsLoaded(item: Item, f: Fact, now: int, key: Keyer) {
    && item.Item? && f.fact == Strip(item.fact) && f.key == key(item.key, f.fact)
    && (item.firstSeen.Some? ==> f.firstSeen == item.firstSeen.value) && (item.firstSeen.None? ==> f.firstSeen == now)
    && (item.lastSeen.Some? ==> f.lastSeen == item.lastSeen.value) && (item.lastSeen.None? ==> f.lastSeen == now)
    && (item.hits.Some? && item.hits.value != 0 ==> f.hits == item.hits.value)
    && (item.hits.None? || item.hits.value == 0 ==> f.hits == 1)
  }

  /** What is loaded: the well-formed entries with a text that is not empty, in their order. */
  lemma {:induction false} LoadIs(stored: seq<Item>, now: int, key: Keyer) returns (at: seq<nat>)
    ensures AreLoaded(Load(stored, now, key), stored, at, now, key)
    ensures forall n: nat :: n in at <==> n < |stored| && stored[n].Item? && stored[n].fact != ""
  {
    at := [];
    if stored != [] {
      var n := |stored| - 1;
      assert stored == stored[..n] + [stored[n]];
      at := LoadIs(stored[..n], now, key);
      var before := Load(stored[..n], now, key);
      if stored[n].Item? && stored[n].fact != "" {
        OneMoreLoaded(before, stored[..n], at, stored[n], Upgraded(stored[n], now, key), now, key);
        at := at + [n];
      } else {
        assert before + [] == before;
      }
    }
  }

  /** These facts are loaded from these entries, in their order. */
  ghost predicate AreLoaded(facts: seq<Fact>, stored: seq<Item>, at: seq<nat>, now: int, key: Keyer) {
    && |facts| == |at| && (forall i, j | 0 <= i < j < |at| :: at[i] < at[j])
    && forall i | 0 <= i < |at| :: at[i] < |stored| && IsLoaded(stored[at[i]], facts[i], now, key)
  }

  lemma OneMoreLoaded(facts: seq<Fact>, stored: seq<Item>, at: seq<nat>, item: Item, f: Fact, now: int, key: Keyer)
    requires AreLoaded(facts, stored, at, now, key) && IsLoaded(item, f, now, key)
    ensures AreLoaded(facts + [f], stored + [item], at + [|stored|], now, key)
  {
    forall i | 0 <= i < |at| + 1
      ensures (at + [|stored|])[i] < |stored + [item]|
      ensures IsLoaded((stored + [item])[(at + [|stored|])[i]], (facts + [f])[i], now, key)
    {
      assert i < |at| ==> IsLoaded(stored[at[i]], facts[i], now, key);
    }
  }

  /* ---- the dict keyed by slug, in insertion order ---- */

  function Find(facts: seq<Fact>, key: string): (i: nat)
    ensures i <= |facts|
    ensures i < |facts| ==> facts[i].key == key
    ensures forall j | 0 <= j < i :: facts[j].key != key
  {
    if facts == [] || facts[0].key == key then 0 else 1 + Find(facts[1..], key)
  }

  function Put(facts: seq<Fact>, f: Fact): seq<Fact> {
    var i := Find(facts, f.key);
    if i < |facts| then facts[i := f] else facts + [f]
  }

  function Dict(facts: seq<Fact>): seq<Fact> {
    if facts == [] then [] else Put(Dict(facts[..|facts| - 1]), facts[|facts| - 1])
  }

  /** A mentioned fact: one more hit and the newest phrasing, or a new entry with one hit. */
  function Hit(facts: seq<Fact>, key: string, fact: string, now: int): seq<Fact> {
    var i := Find(facts, key);
    if i < |facts|
    then facts[i := facts[i].(fact := fact, lastSeen := now, hits := facts[i].hits + 1)]
    else facts + [Fact(key, fact, now, now, 1)]
  }

  function Mention(facts: seq<Fact>, item: RawFact, now: int, key: Keyer): seq<Fact> {
    var fact := Strip(item.fact);
    if fact == "" then facts else Hit(facts, key(item.key, fact), fact, now)
  }

  function MentionAll(facts: seq<Fact>, items: seq<RawFact>, now: int, key: Keyer): seq<Fact> {
    if items == [] then facts
    else Mention(MentionAll(facts, items[..|items| - 1], now, key), items[|items| - 1], now, key)
  }

  /* ---- the stable sort by (-hits, last_seen), and the cut ---- */

  /** `a` may stand before `b`: more hits first, and among equals the older `lastSeen` first. */
  predicate Before(a: Fact, b: Fact) {
    a.hits > b.hits || (a.hits == b.hits && a.lastSeen <= b.lastSeen)
  }

  function Insert(sorted: seq<Fact>, f: Fact): seq<Fact> {
    if sorted == [] || Before(sorted[|sorted| - 1], f) then sorted + [f]
    else Insert(sorted[..|sorted| - 1], f) + [sorted[|sorted| - 1]]
  }

  function Sorted(facts: seq<Fact>): seq<Fact> {
    if facts == [] then [] else Insert(Sorted(facts[..|facts| - 1]), facts[|facts| - 1])
  }

  function Ranked(stored: seq<Item>, items: seq<RawFact>, now: int, key: Keyer): seq<Fact> {
    Sorted(MentionAll(Dict(Load(stored, now, key)), items, now, key))
  }

  function Kept(ranked: seq<Fact>, cap: nat): seq<Fact> {
    if |ranked| <= cap then ranked else ranked[..cap]
  }

  function Dropped(ranked: seq<Fact>, cap: nat): seq<Fact> {
    if |ranked| <= cap then [] else ranked[cap..]
  }

  function Dump(facts: seq<Fact>): (items: seq<Item>)
    ensures |items| == |facts|
  {
    seq(|facts|, i requires 0 <= i < |facts| =>
      var f := facts[i]; Item(f.key, f.fact, Some(f.firstSeen), Some(f.lastSeen), Some(f.hits)))
  }

  function AfterMerge(stored: seq<Item>, items: seq<RawFact>, now: int, cap: nat, key: Keyer): seq<Item> {
    if items == [] then stored else Dump(Kept(Ranked(stored, items, now, key), cap))
  }

  class Session {
    var stored: seq<Item>

    constructor ()
      ensures stored == []
    {
      stored := [];
    }

    /** `_merge_long_term_facts`; an empty list of new facts leaves the session alone. */
    method MergeFacts(items: seq<RawFact>, now: int, cap: nat, hash: string -> string)
      modifies this
      ensures stored == AfterMerge(old(stored), items, now, cap, SlugKeyer(hash))
    {
      if items == [] {
        return;
      }
      var key := SlugKeyer(hash);
      var loaded := LoadLongTermMemory(stored, now, key);
      var existing := BuildDict(loaded);
      ghost var start := existing;
      for n := 0 to |items|
        invariant existing == MentionAll(start, items[..n], now, key)
      {
        MentionStep(start, items, n, now, key);
        existing := MentionOne(existing, items[n], now, key);
      }
      assert items[..|items|] == items;
      stored := Dump(Kept(Sorted(existing), cap));
    }
  }

  method MentionOne(facts: seq<Fact>, item: RawFact, now: int, key: Keyer) returns (after: seq<Fact>)
    ensures after == Mention(facts, item, now, key)
  {
    after := facts;
    var fact := Strip(item.fact);
    if fact == "" {
      return;
    }
    var slug := key(item.key, fact);
    var i := Find(facts, slug);
    if i < |facts| {
      after := facts[i := facts[i].(fact := fact, lastSeen := now, hits := facts[i].hits + 1)];
    } else {
      after := facts + [Fact(slug, fact, now, now, 1)];
    }
  }

  method LoadLongTermMemory(stored: seq<Item>, now: int, key: Keyer) returns (facts: seq<Fact>)
    ensures facts == Load(stored, now, key)
  {
    facts := [];
    for n := 0 to |stored|
      invariant facts == Load(stored[..n], now, key)
    {
      LoadStep(stored, n, now, key);
      if stored[n].Item? && stored[n].fact != "" {
        facts := facts + [Upgraded(stored[n], now, key)];
      }
    }
    assert stored[..|stored|] == stored;
  }

  method BuildDict(facts: seq<Fact>) returns (dict: seq<Fact>)
    ensures dict == Dict(facts)
  {
    dict := [];
    for n := 0 to |facts|
      invariant dict == Dict(facts[..n])
    {
      assert facts[..n + 1][..n] == facts[..n];
      dict := Put(dict, facts[n]);
    }
    assert facts[..|facts|] == facts;
  }

  lemma MentionStep(start: seq<Fact>, items: seq<RawFact>, n: nat, now: int, key: Keyer)
    requires n < |items|
    ensures MentionAll(start, items[..n + 1], now, key)
         == Mention(MentionAll(start, items[..n], now, key), items[n], now, key)
  {
    assert items[..n + 1][..n] == items[..n];
  }

  lemma LoadStep(stored: seq<Item>, n: nat, now: int, key: Keyer)
    requires n < |stored|
    ensures Load(stored[..n + 1], now, key) == Load(stored[..n], now, key)
              + if stored[n].Item? && stored[n].fact != "" then [Upgraded(stored[n], now, key)] else []
  {
    assert stored[..n + 1][..n] == stored[..n];
  }

  /* ---- what one merge guarantees ---- */

  ghost predicate DistinctKeys(facts: seq<Fact>) {
    forall i, j | 0 <= i < j < |facts| :: facts[i].key != facts[j].key
  }

  ghost predicate InOrder(facts: seq<Fact>) {
    forall i, j | 0 <= i < j < |facts| :: Before(facts[i], facts[j])
  }

  function TotalHits(facts: seq<Fact>): int {
    if facts == [] then 0 else TotalHits(facts[..|facts| - 1]) + facts[|facts| - 1].hits
  }

  lemma {:induction false} DictIsDistinct(facts: seq<Fact>)
    ensures DistinctKeys(Dict(facts))
  {
    if facts != [] {
      DictIsDistinct(facts[..|facts| - 1]);
    }
  }

  lemma {:induction false} MentionsAreDistinct(facts: seq<Fact>, items: seq<RawFact>, now: int, key: Keyer)
    requires DistinctKeys(facts)
    ensures DistinctKeys(MentionAll(facts, items, now, key))
  {
    if items != [] {
      MentionsAreDistinct(facts, items[..|items| - 1], now, key);
    }
  }

  lemma {:induction false} InsertPermutes(sorted: seq<Fact>, f: Fact)
    ensures multiset(Insert(sorted, f)) == multiset(sorted) + multiset{f}
  {
    if sorted != [] && !Before(sorted[|sorted| - 1], f) {
      var init, last := sorted[..|sorted| - 1], sorted[|sorted| - 1];
      InsertPermutes(init, f);
      assert sorted == init + [last];
    }
  }

  lemma {:induction false} InsertSorts(sorted: seq<Fact>, f: Fact)
    requires InOrder(sorted)
    ensures InOrder(Insert(sorted, f))
  {
    if sorted != [] && !Before(sorted[|sorted| - 1], f) {
      var init, last := sorted[..|sorted| - 1], sorted[|sorted| - 1];
      InsertSorts(init, f);
      InsertPermutes(init, f);
      forall x | x in Insert(init, f)
        ensures Before(x, last)
      {
        assert x in multiset(init) + multiset{f};
      }
    }
  }

  lemma {:induction false} SortSorts(facts: seq<Fact>)
    ensures InOrder(Sorted(facts)) && multiset(Sorted(facts)) == multiset(facts) && |Sorted(facts)| == |facts|
  {
    if facts != [] {
      var init, last := facts[..|facts| - 1], facts[|facts| - 1];
      SortSorts(init);
      InsertSorts(Sorted(init), last);
      InsertPermutes(Sorted(init), last);
      assert facts == init + [last];
      assert multiset(facts) == multiset(init) + multiset{last};
    }
    SameCount(Sorted(facts), facts);
  }

  lemma SameCount(a: seq<Fact>, b: seq<Fact>)
    requires multiset(a) == multiset(b)
    ensures |a| == |b|
  {
    assert |multiset(a)| == |multiset(b)|;
  }

  /** Having distinct keys does not depend on the order. */
  lemma DistinctIsUnordered(a: seq<Fact>, b: seq<Fact>)
    requires multiset(a) == multiset(b) && DistinctKeys(a)
    ensures DistinctKeys(b)
  {
    forall i, j | 0 <= i < j < |b|
      ensures b[i].key != b[j].key
    {
      assert b[i] in multiset(a) && b[j] in multiset(a);
      var k :| 0 <= k < |a| && a[k] == b[i];
      var l :| 0 <= l < |a| && a[l] == b[j];
      if k == l {
        TwiceInSeq(b, i, j);
        OnceInSeq(a, k);
        assert false;
      }
    }
  }

  lemma TwiceInSeq(s: seq<Fact>, i: nat, j: nat)
    requires i < j < |s| && s[i] == s[j]
    ensures multiset(s)[s[i]] >= 2
  {
    assert s == s[..j] + [s[j]] + s[j + 1..];
    assert s[i] in s[..j];
  }

  lemma OnceInSeq(s: seq<Fact>, k: nat)
    requires DistinctKeys(s) && k < |s|
    ensures multiset(s)[s[k]] == 1
  {
    assert s == s[..k] + [s[k]] + s[k + 1..];
    assert s[k] !in s[..k] && s[k] !in s[k + 1..];
  }

  lemma RankedShape(stored: seq<Item>, items: seq<RawFact>, now: int, key: Keyer)
    ensures var ranked := Ranked(stored, items, now, key);
            DistinctKeys(ranked) && InOrder(ranked)
  {
    var loaded := Load(stored, now, key);
    DictIsDistinct(loaded);
    MentionsAreDistinct(Dict(loaded), items, now, key);
    SortSorts(MentionAll(Dict(loaded), items, now, key));
    DistinctIsUnordered(MentionAll(Dict(loaded), items, now, key), Ranked(stored, items, now, key));
  }

  /**
   After any merge, whatever was stored before: at most `cap` facts, distinct keys, non-increasing
   hits, and a dropped fact has at most the hits of every kept one. On equal hits the kept facts are
   the ones seen longest ago, the opposite of what the code's comment says.
   */
  lemma MergeShape(stored: seq<Item>, items: seq<RawFact>, now: int, cap: nat, key: Keyer)
    ensures var ranked := Ranked(stored, items, now, key);
            var kept, dropped := Kept(ranked, cap), Dropped(ranked, cap);
            && |kept| <= cap && kept + dropped == ranked && (dropped != [] ==> |kept| == cap)
            && DistinctKeys(kept)
            && (forall i, j | 0 <= i < j < |kept| :: kept[i].hits >= kept[j].hits)
            && (forall k, d | k in kept && d in dropped ::
                  k.hits >= d.hits && (k.hits == d.hits ==> k.lastSeen <= d.lastSeen))
  {
    RankedShape(stored, items, now, key);
    var ranked := Ranked(stored, items, now, key);
    forall k, d | k in Kept(ranked, cap) && d in Dropped(ranked, cap)
      ensures Before(k, d)
    {
      var i :| 0 <= i < cap && ranked[i] == k;
      var j :| 0 <= j < |ranked| - cap && ranked[cap..][j] == d;
      assert ranked[cap + j] == d;
    }
  }

  /**
   What one mention does: the entry of its key has the newest phrasing and time, one more hit and its old
   first time, or is a new entry with one hit; every other entry is left alone, and a blank fact does nothing.
   */
  lemma MentionIs(facts: seq<Fact>, item: RawFact, now: int, key: Keyer)
    requires DistinctKeys(facts)
    ensures var fact, after := Strip(item.fact), Mention(facts, item, now, key);
      if fact == "" then after == facts else
      var i, j := Find(facts, key(item.key, fact)), Find(after, key(item.key, fact));
      && j < |after|
      && after[j].fact == fact && after[j].lastSeen == now
      && after[j].firstSeen == (if i < |facts| then facts[i].firstSeen else now)
      && after[j].hits == (if i < |facts| then facts[i].hits + 1 else 1)
      && (forall f: Fact :: f.key != after[j].key ==> (f in after <==> f in facts))
  {
    var fact := Strip(item.fact);
    if fact != "" {
      var k := key(item.key, fact);
      var i, after := Find(facts, k), Hit(facts, k, fact, now);
      var j := Find(after, k);
      if i < |facts| {
        assert after[i].key == k;
        assert forall n | 0 <= n < i :: after[n].key == facts[n].key;
        assert j == i;
        forall f: Fact | f.key != k ensures f in after <==> f in facts {
          if f in facts {
            var n :| 0 <= n < |facts| && facts[n] == f;
            assert after[n] == f;
          }
        }
      } else {
        assert after[|facts|].key == k;
      }
    }
  }

  /**
   The dict of a stored list: every key of the list is there; its entry is the last one of that key, whatever
   came before; and the keys stand in the order in which they first came.
   */
  lemma {:induction false} DictIs(facts: seq<Fact>)
    ensures forall i | 0 <= i < |Dict(facts)| :: IsLastOfKey(facts, Dict(facts)[i])
    ensures forall f <- facts :: Find(Dict(facts), f.key) < |Dict(facts)|
    ensures forall i, j | 0 <= i < j < |Dict(facts)| ::
              Find(facts, Dict(facts)[i].key) < Find(facts, Dict(facts)[j].key)
  {
    if facts != [] {
      var init, last := facts[..|facts| - 1], facts[|facts| - 1];
      DictIs(init);
      assert facts == init + [last];
      PutLast(init, Dict(init), last);
      PutOrder(init, Dict(init), last);
      forall f | f in init + [last] ensures Find(Put(Dict(init), last), f.key) < |Put(Dict(init), last)| {
        KeyIsPut(Dict(init), last, f.key);
      }
    }
  }

  ghost predicate IsLastOfKey(facts: seq<Fact>, f: Fact) {
    exists n | 0 <= n < |facts| :: facts[n] == f && NoneAfter(facts, n)
  }

  ghost predicate NoneAfter(facts: seq<Fact>, n: nat)
    requires n < |facts|
  {
    forall m | n < m < |facts| :: facts[m].key != facts[n].key
  }

  lemma {:induction false} FindInMore(init: seq<Fact>, last: Fact, key: string)
    ensures Find(init + [last], key)
         == if Find(init, key) < |init| then Find(init, key) else if last.key == key then |init| else |init| + 1
  {
    if init == [] {
      assert init + [last] == [last];
    } else if init[0].key != key {
      FindInMore(init[1..], last, key);
      assert (init + [last])[1..] == init[1..] + [last];
    }
  }

  lemma PutLast(init: seq<Fact>, dict: seq<Fact>, last: Fact)
    requires forall i | 0 <= i < |dict| :: IsLastOfKey(init, dict[i])
    requires forall i, j | 0 <= i < j < |dict| :: Find(init, dict[i].key) < Find(init, dict[j].key)
    ensures forall i | 0 <= i < |Put(dict, last)| :: IsLastOfKey(init + [last], Put(dict, last)[i])
  {
    forall i | 0 <= i < |Put(dict, last)| ensures IsLastOfKey(init + [last], Put(dict, last)[i]) {
      LastStays(init, dict, last, i);
    }
  }

  lemma PutOrder(init: seq<Fact>, dict: seq<Fact>, last: Fact)
    requires forall i | 0 <= i < |dict| :: IsLastOfKey(init, dict[i])
    requires forall f <- init :: Find(dict, f.key) < |dict|
    requires forall i, j | 0 <= i < j < |dict| :: Find(init, dict[i].key) < Find(init, dict[j].key)
    ensures forall i, j | 0 <= i < j < |Put(dict, last)| ::
              Find(init + [last], Put(dict, last)[i].key) < Find(init + [last], Put(dict, last)[j].key)
  {
    var after := Put(dict, last);
    forall i, j | 0 <= i < j < |after| ensures Find(init + [last], after[i].key) < Find(init + [last], after[j].key) {
      PlaceStays(init, dict, last, i);
      if j < |dict| {
        PlaceStays(init, dict, last, j);
      } else {
        PlaceOfNew(init, dict, last);
      }
    }
  }

  lemma LastStays(init: seq<Fact>, dict: seq<Fact>, last: Fact, i: nat)
    requires i < |Put(dict, last)| && forall j | 0 <= j < |dict| :: IsLastOfKey(init, dict[j])
    requires forall j, k | 0 <= j < k < |dict| :: Find(init, dict[j].key) < Find(init, dict[k].key)
    ensures IsLastOfKey(init + [last], Put(dict, last)[i])
  {
    var all, f := init + [last], Put(dict, last)[i];
    if f == last {
      assert all[|init|] == f && NoneAfter(all, |init|);
    } else {
      OtherKey(init, dict, last.key, i);
      assert IsLastOfKey(init, dict[i]);
      StillLast(init, f, last);
    }
  }

  lemma StillLast(init: seq<Fact>, f: Fact, last: Fact)
    requires IsLastOfKey(init, f) && f.key != last.key
    ensures IsLastOfKey(init + [last], f)
  {
    var n :| 0 <= n < |init| && init[n] == f && NoneAfter(init, n);
    var all := init + [last];
    assert all[n] == f && NoneAfter(all, n);
  }

  lemma OtherKey(init: seq<Fact>, dict: seq<Fact>, key: string, i: nat)
    requires i < |dict| && i != Find(dict, key)
    requires forall j, k | 0 <= j < k < |dict| :: Find(init, dict[j].key) < Find(init, dict[k].key)
    ensures dict[i].key != key
  {
    if Find(dict, key) < i {
      assert Find(init, dict[Find(dict, key)].key) < Find(init, dict[i].key);
    }
  }

  lemma KeyIsPut(dict: seq<Fact>, last: Fact, key: string)
    requires key == last.key || Find(dict, key) < |dict|
    ensures Find(Put(dict, last), key) < |Put(dict, last)|
  {
    var after := Put(dict, last);
    var n := if key == last.key && Find(dict, key) >= |dict| then |dict| else Find(dict, key);
    assert after[n].key == key;
  }

  lemma KeyIsThere(facts: seq<Fact>, f: Fact)
    requires IsLastOfKey(facts, f) || f in facts
    ensures Find(facts, f.key) < |facts|
  {
    var n :| 0 <= n < |facts| && facts[n] == f;
    assert facts[n].key == f.key;
  }

  /** An entry of the dict is at the place of its first mention ... */
  lemma PlaceStays(init: seq<Fact>, dict: seq<Fact>, last: Fact, i: nat)
    requires i < |dict| && IsLastOfKey(init, dict[i])
    ensures Put(dict, last)[i].key == dict[i].key
    ensures Find(init + [last], dict[i].key) == Find(init, dict[i].key) < |init|
  {
    FindInMore(init, last, dict[i].key);
    KeyIsThere(init, dict[i]);
  }

  /** ... and an added one behind all others. */
  lemma PlaceOfNew(init: seq<Fact>, dict: seq<Fact>, last: Fact)
    requires Find(dict, last.key) == |dict| && forall f <- init :: Find(dict, f.key) < |dict|
    ensures Find(init + [last], last.key) == |init|
  {
    FindInMore(init, last, last.key);
    forall f | f in init ensures f.key != last.key {
      assert Find(dict, f.key) < |dict|;
    }
    NotFound(init, last.key);
  }

  lemma NotFound(facts: seq<Fact>, key: string)
    requires forall f <- facts :: f.key != key
    ensures Find(facts, key) == |facts|
  {
  }
}
