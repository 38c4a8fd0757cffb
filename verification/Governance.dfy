/**
 The classification step of the governance run: read every column of the governed databases page by
 page, compare its tags with the name rules, and tag and untag until they agree. Atlas is a map from
 column guid to its classification names. Where the source goes through a sorted set, the model goes
 through it in any order.
 */
module Governance {
  import opened Options
  import opened Slugs

  const PREFIX := "MCC_"
  const PAGE := 100
  const BATCH := 50

  /** What a column name asks for: one tag, or one for date columns and one for the others. */
  datatype Rule = Fixed(tag: string) | ByType(date: string, text: string)

  datatype Gov = Gov(columns: map<string, Rule>, databases: seq<string>, keepProfilerTags: bool)

  datatype Entity = IcebergColumn | HiveColumn | OtherEntity

  datatype Column = Column(guid: nat, db: string, entity: Entity, name: string, kind: string)

  datatype Change = Change(guid: nat, tag: string)

  type Tagging = map<nat, set<string>>

  /* ---- the plan of one column ---- */

  function ColumnTag(gov: Gov, c: Column): Option<string> {
    if Lower(c.name) !in gov.columns then None else
    match gov.columns[Lower(c.name)]
    case Fixed(tag) => Some(tag)
    case ByType(date, text) => Some(if Lower(c.kind) == "date" then date else text)
  }

  /**
   A column asks for the tag of its lowered name: the fixed one, or the one for dates if its lowered type is "date"
   and else the one for texts. A column that no rule names asks for none.
   */
  lemma ColumnTagIs(gov: Gov, c: Column)
    ensures forall tag :: ColumnTag(gov, c) == Some(tag) <==>
              && Lower(c.name) in gov.columns
              && (gov.columns[Lower(c.name)] == Fixed(tag)
                  || exists other ::
                       (Lower(c.kind) == "date" && gov.columns[Lower(c.name)] == ByType(tag, other))
                       || (Lower(c.kind) != "date" && gov.columns[Lower(c.name)] == ByType(other, tag)))
  {
  }

  predicate Ours(tag: string) {
    PREFIX <= tag
  }

  function Have(tags: set<string>): set<string> {
    set t | t in tags && Ours(t)
  }

  /** The tag to end up with; an empty tag in the rules asks for nothing. */
  function Wanted(gov: Gov, c: Column): set<string> {
    var want := ColumnTag(gov, c);
    if want.Some? && want.value != "" then {want.value} else {}
  }

  function Adds(gov: Gov, c: Column, tags: set<string>): set<string> {
    Wanted(gov, c) - Have(tags)
  }

  predicate KeepsAll(gov: Gov, c: Column) {
    gov.keepProfilerTags && c.entity == IcebergColumn
  }

  function Removes(gov: Gov, c: Column, tags: set<string>): set<string> {
    if KeepsAll(gov, c) then {} else Have(tags) - Wanted(gov, c)
  }

  function Target(gov: Gov, c: Column, tags: set<string>): set<string> {
    tags + Adds(gov, c, tags) - Removes(gov, c, tags)
  }

  predicate Settled(gov: Gov, c: Column, tags: set<string>) {
    Adds(gov, c, tags) == {} && Removes(gov, c, tags) == {}
  }

  /**
   What is planned for a column, by the tag that its rule asks for: that tag, if it is not empty and not there; and
   to remove every other of its tags that starts with our prefix, unless it is an Iceberg column and the profiler's
   tags are kept.
   */
  lemma PlannedIs(gov: Gov, c: Column, tags: set<string>, t: string)
    ensures t in Adds(gov, c, tags)
       <==> ColumnTag(gov, c) == Some(t) && t != "" && !(t in tags && |t| >= 4 && t[..4] == "MCC_")
    ensures t in Removes(gov, c, tags)
       <==> && t in tags && |t| >= 4 && t[..4] == "MCC_" && ColumnTag(gov, c) != Some(t)
            && !(gov.keepProfilerTags && c.entity == IcebergColumn)
  {
    assert |t| >= 4 ==> t[..4] == t[0..4];
  }

  /**
   What one apply leaves on a column. Tags of others are never touched; of our tags exactly the wanted
   one is left, except on an Iceberg column whose profiler tags are kept, where it joins them.
   */
  lemma TargetIs(gov: Gov, c: Column, tags: set<string>)
    ensures forall t :: !Ours(t) && t !in Wanted(gov, c) ==> (t in Target(gov, c, tags) <==> t in tags)
    ensures Wanted(gov, c) <= Target(gov, c, tags)
    ensures KeepsAll(gov, c) ==> tags <= Target(gov, c, tags)
    ensures !KeepsAll(gov, c) ==> Have(Target(gov, c, tags)) == Have(Wanted(gov, c))
  {
    if !KeepsAll(gov, c) {
      forall t ensures t in Have(Target(gov, c, tags)) <==> t in Have(Wanted(gov, c)) {}
    }
  }

  /**
   One apply settles a column exactly when the tag its rule asks for, if any, carries our prefix: only
   tags with the prefix are looked up, so another tag is planned anew by every run.
   */
  lemma SettlesIff(gov: Gov, c: Column, tags: set<string>)
    ensures Settled(gov, c, Target(gov, c, tags)) <==> forall t <- Wanted(gov, c) :: Ours(t)
  {
    var target := Target(gov, c, tags);
    TargetIs(gov, c, tags);
    if w :| w in Wanted(gov, c) {
      assert Wanted(gov, c) == {w};
      assert w in Adds(gov, c, target) <==> !Ours(w);
    }
    if KeepsAll(gov, c) {
      assert Removes(gov, c, target) == {};
    } else {
      assert Removes(gov, c, target) <= Have(target) - Have(Wanted(gov, c)) == {};
    }
  }

  /** Some of a column's planned changes made, others not. */
  predicate PartlyApplied(gov: Gov, c: Column, tags: set<string>, now: set<string>) {
    && tags - Removes(gov, c, tags) <= now
    && now <= tags + Adds(gov, c, tags)
  }

  /** From every state that a broken-off apply can leave, the next one ends where the first would have. */
  lemma CutApplyHasTheSameTarget(gov: Gov, c: Column, tags: set<string>, now: set<string>)
    requires PartlyApplied(gov, c, tags, now)
    ensures Target(gov, c, now) == Target(gov, c, tags)
  {
    forall t ensures t in Target(gov, c, now) <==> t in Target(gov, c, tags) {
      if t in Wanted(gov, c) {
        assert t in Target(gov, c, now) && t in Target(gov, c, tags);
      } else {
        assert t !in Adds(gov, c, tags);
      }
    }
  }

  /* ---- the paged reader ---- */

  function Matching(entities: seq<Column>, db: string, entity: Entity): seq<Column> {
    if entities == [] then [] else
    var last := entities[|entities| - 1];
    Matching(entities[..|entities| - 1], db, entity) + if last.db == db && last.entity == entity then [last] else []
  }

  /** One answer of the search: at most `limit` of the matching columns from `offset` on. */
  function Search(entities: seq<Column>, db: string, entity: Entity, offset: nat, limit: nat): seq<Column> {
    var all := Matching(entities, db, entity);
    if |all| <= offset then [] else if |all| <= offset + limit then all[offset..] else all[offset..offset + limit]
  }

  /** All matching columns, once each and in order, also when their number is a multiple of the page. */
  method ReadColumns(entities: seq<Column>, db: string, entity: Entity) returns (out: seq<Column>)
    ensures out == Matching(entities, db, entity)
  {
    out := [];
    var offset := 0;
    ghost var all := Matching(entities, db, entity);
    while true
      invariant offset <= |all| && out == all[..offset]
      decreases |all| - offset
    {
      var page := Search(entities, db, entity, offset, PAGE);
      out := out + page;
      if |page| < PAGE {
        assert out == all;
        return;
      }
      offset := offset + PAGE;
    }
  }

  function DbColumns(entities: seq<Column>, db: string): seq<Column> {
    Matching(entities, db, IcebergColumn) + Matching(entities, db, HiveColumn)
  }

  function Columns(entities: seq<Column>, databases: seq<string>): seq<Column> {
    if databases == [] then [] else
    Columns(entities, databases[..|databases| - 1]) + DbColumns(entities, databases[|databases| - 1])
  }

  method ReadAll(entities: seq<Column>, databases: seq<string>) returns (out: seq<Column>)
    ensures out == Columns(entities, databases)
  {
    out := [];
    for i := 0 to |databases|
      invariant out == Columns(entities, databases[..i])
    {
      assert databases[..i + 1][..i] == databases[..i];
      var iceberg := ReadColumns(entities, databases[i], IcebergColumn);
      var hive := ReadColumns(entities, databases[i], HiveColumn);
      out := out + iceberg + hive;
    }
    assert databases[..|databases|] == databases;
  }

  ghost predicate DistinctGuids(columns: seq<Column>) {
    forall i, j | 0 <= i < j < |columns| :: columns[i].guid != columns[j].guid
  }

  lemma {:induction false} MatchingIs(entities: seq<Column>, db: string, entity: Entity, c: Column)
    ensures c in Matching(entities, db, entity) <==> c in entities && c.db == db && c.entity == entity
  {
    if entities != [] {
      MatchingIs(entities[..|entities| - 1], db, entity, c);
      assert c in entities <==> c in entities[..|entities| - 1] || c == entities[|entities| - 1];
    }
  }

  lemma {:induction false} ColumnsAre(entities: seq<Column>, databases: seq<string>, c: Column)
    ensures c in Columns(entities, databases) <==> c in entities && c.db in databases && !c.entity.OtherEntity?
  {
    if databases != [] {
      var last := databases[|databases| - 1];
      ColumnsAre(entities, databases[..|databases| - 1], c);
      MatchingIs(entities, last, IcebergColumn, c);
      MatchingIs(entities, last, HiveColumn, c);
      assert c.db in databases <==> c.db in databases[..|databases| - 1] || c.db == last;
    }
  }

  lemma {:induction false} MatchingIsDistinct(entities: seq<Column>, db: string, entity: Entity)
    requires DistinctGuids(entities)
    ensures DistinctGuids(Matching(entities, db, entity))
  {
    if entities != [] {
      var init := entities[..|entities| - 1];
      MatchingIsDistinct(init, db, entity);
      forall i | 0 <= i < |Matching(init, db, entity)|
        ensures Matching(init, db, entity)[i].guid != entities[|entities| - 1].guid
      {
        MatchingIs(init, db, entity, Matching(init, db, entity)[i]);
      }
    }
  }

  lemma DistinctSum(a: seq<Column>, b: seq<Column>)
    requires DistinctGuids(a) && DistinctGuids(b)
    requires forall x, y | x in a && y in b :: x.guid != y.guid
    ensures DistinctGuids(a + b)
  {
    forall i, j | 0 <= i < j < |a + b| ensures (a + b)[i].guid != (a + b)[j].guid {
      if i < |a| <= j {
        assert a[i] in a && b[j - |a|] in b;
      }
    }
  }

  lemma SameGuidSameColumn(entities: seq<Column>, x: Column, y: Column)
    requires DistinctGuids(entities) && x in entities && y in entities && x.guid == y.guid
    ensures x == y
  {
    var i :| 0 <= i < |entities| && entities[i] == x;
    var j :| 0 <= j < |entities| && entities[j] == y;
    assert i == j;
  }

  /** No column is read twice. */
  lemma {:induction false} ColumnsAreDistinct(entities: seq<Column>, databases: seq<string>)
    requires DistinctGuids(entities)
    requires forall i, j | 0 <= i < j < |databases| :: databases[i] != databases[j]
    ensures DistinctGuids(Columns(entities, databases))
  {
    if databases != [] {
      var init, last := databases[..|databases| - 1], databases[|databases| - 1];
      var iceberg, hive := Matching(entities, last, IcebergColumn), Matching(entities, last, HiveColumn);
      ColumnsAreDistinct(entities, init);
      MatchingIsDistinct(entities, last, IcebergColumn);
      MatchingIsDistinct(entities, last, HiveColumn);
      forall x, y | x in iceberg && y in hive ensures x.guid != y.guid {
        MatchingIs(entities, last, IcebergColumn, x);
        MatchingIs(entities, last, HiveColumn, y);
        if x.guid == y.guid { SameGuidSameColumn(entities, x, y); }
      }
      DistinctSum(iceberg, hive);
      forall x, y | x in Columns(entities, init) && y in iceberg + hive ensures x.guid != y.guid {
        ColumnsAre(entities, init, x);
        MatchingIs(entities, last, IcebergColumn, y);
        MatchingIs(entities, last, HiveColumn, y);
        if x.guid == y.guid { SameGuidSameColumn(entities, x, y); }
      }
      DistinctSum(Columns(entities, init), iceberg + hive);
    }
  }

  /* ---- the plan of a run ---- */

  function PlanSize(gov: Gov, cols: seq<Column>, tags: Tagging): nat
    requires forall c <- cols :: c.guid in tags
  {
    if cols == [] then 0 else
    var last := cols[|cols| - 1];
    PlanSize(gov, cols[..|cols| - 1], tags) + |Adds(gov, last, tags[last.guid])| + |Removes(gov, last, tags[last.guid])|
  }

  predicate PlannedAdd(gov: Gov, cols: seq<Column>, tags: Tagging, g: nat, t: string)
    requires forall c <- cols :: c.guid in tags
  {
    exists c <- cols :: c.guid == g && t in Adds(gov, c, tags[g])
  }

  predicate PlannedRemove(gov: Gov, cols: seq<Column>, tags: Tagging, g: nat, t: string)
    requires forall c <- cols :: c.guid in tags
  {
    exists c <- cols :: c.guid == g && t in Removes(gov, c, tags[g])
  }

  ghost predicate IsPlan(gov: Gov, cols: seq<Column>, tags: Tagging, adds: seq<Change>, removes: seq<Change>)
    requires forall c <- cols :: c.guid in tags
  {
    && |adds| + |removes| == PlanSize(gov, cols, tags)
    && (forall g, t :: Change(g, t) in adds <==> PlannedAdd(gov, cols, tags, g, t))
    && (forall g, t :: Change(g, t) in removes <==> PlannedRemove(gov, cols, tags, g, t))
  }

  method ChangesFor(guid: nat, tags: set<string>) returns (changes: seq<Change>)
    ensures |changes| == |tags|
    ensures forall g, t :: Change(g, t) in changes <==> g == guid && t in tags
  {
    changes := [];
    var rest := tags;
    while rest != {}
      invariant rest <= tags && |changes| + |rest| == |tags|
      invariant forall g, t :: Change(g, t) in changes <==> g == guid && t in tags - rest
    {
      var t :| t in rest;
      changes := changes + [Change(guid, t)];
      rest := rest - {t};
    }
  }

  ghost predicate IsPlanOfOne(gov: Gov, c: Column, tags: set<string>, adds: seq<Change>, removes: seq<Change>) {
    && |adds| == |Adds(gov, c, tags)| && |removes| == |Removes(gov, c, tags)|
    && (forall g, t :: Change(g, t) in adds <==> g == c.guid && t in Adds(gov, c, tags))
    && (forall g, t :: Change(g, t) in removes <==> g == c.guid && t in Removes(gov, c, tags))
  }

  lemma AddsOfOne(gov: Gov, c: Column, tags: set<string>)
    ensures var want := ColumnTag(gov, c);
      Adds(gov, c, tags) == if want.Some? && want.value != "" && want.value !in Have(tags) then {want.value} else {}
  {
  }

  lemma RemovesOfOne(gov: Gov, c: Column, tags: set<string>)
    requires !KeepsAll(gov, c)
    ensures var want := ColumnTag(gov, c);
      Removes(gov, c, tags) == if want.Some? then Have(tags) - {want.value} else Have(tags)
  {
    assert !Ours("");
  }

  lemma PlanGrows(gov: Gov, cols: seq<Column>, c: Column, tags: Tagging,
                  adds: seq<Change>, removes: seq<Change>, added: seq<Change>, removed: seq<Change>)
    requires (forall x <- cols :: x.guid in tags) && c.guid in tags
    requires IsPlan(gov, cols, tags, adds, removes)
    requires IsPlanOfOne(gov, c, tags[c.guid], added, removed)
    ensures IsPlan(gov, cols + [c], tags, adds + added, removes + removed)
  {
    var all := cols + [c];
    assert all[..|cols|] == cols;
    forall g, t ensures PlannedAdd(gov, all, tags, g, t) <==> Change(g, t) in adds + added {
      assert PlannedAdd(gov, all, tags, g, t) <==>
        PlannedAdd(gov, cols, tags, g, t) || (g == c.guid && t in Adds(gov, c, tags[c.guid]));
    }
    forall g, t ensures PlannedRemove(gov, all, tags, g, t) <==> Change(g, t) in removes + removed {
      assert PlannedRemove(gov, all, tags, g, t) <==>
        PlannedRemove(gov, cols, tags, g, t) || (g == c.guid && t in Removes(gov, c, tags[c.guid]));
    }
  }

  method ColumnChanges(gov: Gov, c: Column, tags: set<string>) returns (added: seq<Change>, removed: seq<Change>)
    ensures IsPlanOfOne(gov, c, tags, added, removed)
  {
    var want := ColumnTag(gov, c);
    var have := set t | t in tags && PREFIX <= t;
    added, removed := [], [];
    if want.Some? && want.value != "" && want.value !in have {
      added := [Change(c.guid, want.value)];
    }
    if !(gov.keepProfilerTags && c.entity == IcebergColumn) {
      removed := ChangesFor(c.guid, if want.Some? then have - {want.value} else have);
    }
    assert have == Have(tags);
    AddsOfOne(gov, c, tags);
    if !KeepsAll(gov, c) {
      RemovesOfOne(gov, c, tags);
    }
  }

  method ClassificationChanges(gov: Gov, cols: seq<Column>, tags: Tagging)
    returns (adds: seq<Change>, removes: seq<Change>)
    requires forall c <- cols :: c.guid in tags
    ensures IsPlan(gov, cols, tags, adds, removes)
  {
    adds, removes := [], [];
    for i := 0 to |cols|
      invariant IsPlan(gov, cols[..i], tags, adds, removes)
    {
      var c := cols[i];
      assert cols[..i + 1] == cols[..i] + [c];
      var added, removed := ColumnChanges(gov, c, tags[c.guid]);
      PlanGrows(gov, cols[..i], c, tags, adds, removes, added, removed);
      adds, removes := adds + added, removes + removed;
    }
    assert cols[..|cols|] == cols;
  }

  /* ---- the run ---- */

  /** One bulk call adds one tag to several columns, at most a batch of them. */
  function WithTag(tags: Tagging, guids: seq<nat>, tag: string): Tagging {
    map g | g in tags :: if g in guids then tags[g] + {tag} else tags[g]
  }

  ghost function Tagged(adds: seq<Change>, g: nat): set<string> {
    set a | a in adds && a.guid == g :: a.tag
  }

  ghost function WithAll(tags: Tagging, adds: seq<Change>): Tagging {
    map g | g in tags :: tags[g] + Tagged(adds, g)
  }

  ghost function WithoutAll(tags: Tagging, removes: seq<Change>): Tagging {
    map g | g in tags :: tags[g] - Tagged(removes, g)
  }

  /** Every column that was read is on its target, every other column is as it was. */
  ghost predicate IsReconciled(gov: Gov, cols: seq<Column>, before: Tagging, after: Tagging)
    requires forall c <- cols :: c.guid in before
  {
    && before.Keys == after.Keys
    && (forall c <- cols :: after[c.guid] == Target(gov, c, before[c.guid]))
    && (forall g | g in before && (forall c <- cols :: c.guid != g) :: after[g] == before[g])
  }

  function GuidsFor(adds: seq<Change>, tag: string): seq<nat> {
    if adds == [] then [] else
    var last := adds[|adds| - 1];
    GuidsFor(adds[..|adds| - 1], tag) + if last.tag == tag then [last.guid] else []
  }

  lemma {:induction false} GuidsForIs(adds: seq<Change>, tag: string, g: nat)
    ensures g in GuidsFor(adds, tag) <==> Change(g, tag) in adds
  {
    if adds != [] {
      var init, last := adds[..|adds| - 1], adds[|adds| - 1];
      GuidsForIs(init, tag, g);
      assert Change(g, tag) in adds <==> Change(g, tag) in init || Change(g, tag) == last;
    }
  }

  /** One more tag of the plan given out. */
  lemma TagStep(adds: seq<Change>, had: set<string>, before: Tagging, rest: set<string>, tag: string, g: nat)
    requires g in before && before[g] == had + (Tagged(adds, g) - rest) && tag in rest
    ensures WithTag(before, GuidsFor(adds, tag), tag)[g] == had + (Tagged(adds, g) - (rest - {tag}))
  {
    GuidsForIs(adds, tag, g);
    TaggedIs(adds, g, tag);
  }

  class Atlas {
    const entities: seq<Column>
    var tags: Tagging

    ghost predicate Valid()
      reads this
    {
      DistinctGuids(entities) && forall c <- entities :: c.guid in tags
    }

    constructor (entities: seq<Column>, tags: Tagging)
      ensures this.entities == entities && this.tags == tags
    {
      this.entities, this.tags := entities, tags;
    }

    method BulkTag(tag: string, guids: seq<nat>)
      requires 0 < |guids| <= BATCH
      modifies this`tags
      ensures tags == WithTag(old(tags), guids, tag)
    {
      tags := WithTag(tags, guids, tag);
    }

    method Untag(guid: nat, tag: string)
      modifies this`tags
      ensures tags == if guid in old(tags) then old(tags)[guid := old(tags)[guid] - {tag}] else old(tags)
    {
      if guid in tags {
        tags := tags[guid := tags[guid] - {tag}];
      }
    }

    /** `calls` is how many calls go through before the run breaks off; `done` tells that they were enough. */
    method TagInBatches(tag: string, guids: seq<nat>, calls: nat) returns (left: nat, done: bool)
      modifies this`tags
      ensures done ==> tags == WithTag(old(tags), guids, tag)
      ensures IsPartOf(old(tags), tags, WithTag(old(tags), guids, tag))
      ensures calls >= |guids| ==> done && left >= calls - |guids|
    {
      left := calls;
      var i := 0;
      while i < |guids|
        invariant i <= |guids| && left >= calls - i
        invariant tags == WithTag(old(tags), guids[..i], tag)
      {
        if left == 0 {
          return left, false;
        }
        var next := if i + BATCH <= |guids| then i + BATCH else |guids|;
        BulkTag(tag, guids[i..next]);
        left := left - 1;
        assert guids[..next] == guids[..i] + guids[i..next];
        i := next;
      }
      assert guids[..|guids|] == guids;
      done := true;
    }

    method TagAll(adds: seq<Change>, calls: nat) returns (left: nat, done: bool)
      modifies this`tags
      ensures done ==> tags == WithAll(old(tags), adds)
      ensures IsPartOf(old(tags), tags, WithAll(old(tags), adds))
      ensures calls >= |adds| ==> done && left >= calls - |adds|
    {
      left := calls;
      var rest := set a | a in adds :: a.tag;
      AllAreLeft(adds, rest);
      while rest != {}
        invariant rest <= set a | a in adds :: a.tag
        invariant calls >= |adds| ==> left >= calls - |adds| + Left(adds, rest)
        invariant tags.Keys == old(tags).Keys
        invariant forall g | g in tags :: tags[g] == old(tags)[g] + (Tagged(adds, g) - rest)
      {
        var tag :| tag in rest;
        var guids := GuidsFor(adds, tag);
        ghost var before := tags;
        OneTagLess(adds, rest, tag);
        left, done := TagInBatches(tag, guids, left);
        forall g | g in before
          ensures WithTag(before, guids, tag)[g] == old(tags)[g] + (Tagged(adds, g) - (rest - {tag}))
        {
          TagStep(adds, old(tags)[g], before, rest, tag, g);
        }
        if !done {
          return;
        }
        rest := rest - {tag};
      }
      assert forall g | g in tags :: tags[g] == old(tags)[g] + Tagged(adds, g);
      done := true;
    }

    method UntagAll(removes: seq<Change>, calls: nat) returns (done: bool)
      modifies this`tags
      ensures done ==> tags == WithoutAll(old(tags), removes)
      ensures IsPartOf(WithoutAll(old(tags), removes), tags, old(tags))
      ensures calls >= |removes| ==> done
    {
      for i := 0 to |removes|
        invariant tags.Keys == old(tags).Keys
        invariant forall g | g in tags :: tags[g] == old(tags)[g] - Tagged(removes[..i], g)
      {
        assert removes[..i + 1] == removes[..i] + [removes[i]];
        if i == calls {
          SomeRemoved(removes, i);
          return false;
        }
        Untag(removes[i].guid, removes[i].tag);
      }
      assert removes[..|removes|] == removes;
      return true;
    }

    /**
     The classification step: its count of changes to do, and with `apply` every change made, unless the run
     breaks off after some of its calls; then every column is part of the way.
     */
    method Classifications(gov: Gov, apply: bool, calls: nat) returns (pending: nat, done: bool)
      requires Valid()
      modifies this`tags
      ensures Valid()
      ensures (forall c <- Columns(entities, gov.databases) :: c.guid in old(tags))
           && pending == PlanSize(gov, Columns(entities, gov.databases), old(tags))
           && (apply ==> ArePartlyApplied(gov, Columns(entities, gov.databases), old(tags), tags))
           && (apply && done ==> IsReconciled(gov, Columns(entities, gov.databases), old(tags), tags))
      ensures !apply ==> tags == old(tags) && done
      ensures calls >= pending ==> done
    {
      var cols := ReadAll(entities, gov.databases);
      forall c | c in cols ensures c in entities && c.guid in tags {
        ColumnsAre(entities, gov.databases, c);
      }
      var adds, removes := ClassificationChanges(gov, cols, tags);
      pending, done := |adds| + |removes|, true;
      if apply {
        forall x, y | x in cols && y in cols && x.guid == y.guid ensures x == y {
          SameGuidSameColumn(entities, x, y);
        }
        done := ApplyPlan(gov, cols, adds, removes, calls);
      }
    }

    method ApplyPlan(gov: Gov, cols: seq<Column>, adds: seq<Change>, removes: seq<Change>, calls: nat)
      returns (done: bool)
      requires (forall c <- cols :: c.guid in tags) && IsPlan(gov, cols, tags, adds, removes)
      requires forall x, y | x in cols && y in cols && x.guid == y.guid :: x == y
      modifies this`tags
      ensures ArePartlyApplied(gov, cols, old(tags), tags)
      ensures done ==> IsReconciled(gov, cols, old(tags), tags)
      ensures calls >= |adds| + |removes| ==> done
    {
      ghost var before := tags;
      var left;
      left, done := TagAll(adds, calls);
      if done {
        done := UntagAll(removes, left);
      }
      PlanIsPartlyApplied(gov, cols, before, adds, removes, tags);
      if done {
        PlanReconciles(gov, cols, before, adds, removes);
      }
    }
  }

  /** How many of the adds are of these tags. */
  ghost function Left(adds: seq<Change>, rest: set<string>): nat {
    if adds == [] then 0 else Left(adds[..|adds| - 1], rest) + if adds[|adds| - 1].tag in rest then 1 else 0
  }

  lemma {:induction false} AllAreLeft(adds: seq<Change>, rest: set<string>)
    requires forall a <- adds :: a.tag in rest
    ensures Left(adds, rest) == |adds|
  {
    if adds != [] {
      AllAreLeft(adds[..|adds| - 1], rest);
    }
  }

  lemma {:induction false} OneTagLess(adds: seq<Change>, rest: set<string>, tag: string)
    requires tag in rest
    ensures Left(adds, rest) == Left(adds, rest - {tag}) + |GuidsFor(adds, tag)|
  {
    if adds != [] {
      OneTagLess(adds[..|adds| - 1], rest, tag);
    }
  }

  /** Between two taggings of the same columns. */
  ghost predicate IsPartOf(low: Tagging, now: Tagging, high: Tagging) {
    low.Keys == now.Keys == high.Keys && forall g | g in now :: low[g] <= now[g] <= high[g]
  }

  lemma SomeRemoved(removes: seq<Change>, i: nat)
    requires i <= |removes|
    ensures forall g :: Tagged(removes[..i], g) <= Tagged(removes, g)
  {
    assert forall r <- removes[..i] :: r in removes;
  }

  /** Every column that was read has some of its planned changes, every other column is as it was. */
  ghost predicate ArePartlyApplied(gov: Gov, cols: seq<Column>, before: Tagging, now: Tagging)
    requires forall c <- cols :: c.guid in before
  {
    && before.Keys == now.Keys
    && (forall c <- cols :: PartlyApplied(gov, c, before[c.guid], now[c.guid]))
    && (forall g | g in before && (forall c <- cols :: c.guid != g) :: now[g] == before[g])
  }

  /** Wherever the adds or the removes stop, each column is part of the way. */
  lemma PlanIsPartlyApplied(gov: Gov, cols: seq<Column>, tags: Tagging, adds: seq<Change>, removes: seq<Change>,
                            now: Tagging)
    requires (forall c <- cols :: c.guid in tags) && IsPlan(gov, cols, tags, adds, removes)
    requires forall x, y | x in cols && y in cols && x.guid == y.guid :: x == y
    requires IsPartOf(WithoutAll(tags, removes), now, WithAll(tags, adds))
    ensures ArePartlyApplied(gov, cols, tags, now)
  {
    forall c | c in cols ensures PartlyApplied(gov, c, tags[c.guid], now[c.guid]) {
      PlanForColumn(gov, cols, tags, adds, removes, c);
    }
    forall g | g in tags && (forall c <- cols :: c.guid != g) ensures now[g] == tags[g] {
      PlanForOthers(gov, cols, tags, adds, removes, g);
    }
  }

  /** What a plan holds for one column. */
  lemma PlanForColumn(gov: Gov, cols: seq<Column>, tags: Tagging, adds: seq<Change>, removes: seq<Change>, c: Column)
    requires (forall x <- cols :: x.guid in tags) && IsPlan(gov, cols, tags, adds, removes)
    requires c in cols && forall x <- cols :: x.guid == c.guid ==> x == c
    ensures Tagged(adds, c.guid) == Adds(gov, c, tags[c.guid])
    ensures Tagged(removes, c.guid) == Removes(gov, c, tags[c.guid])
  {
    forall t ensures t in Tagged(adds, c.guid) <==> t in Adds(gov, c, tags[c.guid]) {
      TaggedIs(adds, c.guid, t);
    }
    forall t ensures t in Tagged(removes, c.guid) <==> t in Removes(gov, c, tags[c.guid]) {
      TaggedIs(removes, c.guid, t);
    }
  }

  lemma PlanForOthers(gov: Gov, cols: seq<Column>, tags: Tagging, adds: seq<Change>, removes: seq<Change>, g: nat)
    requires (forall x <- cols :: x.guid in tags) && IsPlan(gov, cols, tags, adds, removes)
    requires forall c <- cols :: c.guid != g
    ensures Tagged(adds, g) == {} && Tagged(removes, g) == {}
  {
    forall t ensures t !in Tagged(adds, g) && t !in Tagged(removes, g) {
      TaggedIs(adds, g, t);
      TaggedIs(removes, g, t);
    }
  }

  lemma PlanReconciles(gov: Gov, cols: seq<Column>, tags: Tagging, adds: seq<Change>, removes: seq<Change>)
    requires (forall c <- cols :: c.guid in tags) && IsPlan(gov, cols, tags, adds, removes)
    requires forall x, y | x in cols && y in cols && x.guid == y.guid :: x == y
    ensures IsReconciled(gov, cols, tags, WithoutAll(WithAll(tags, adds), removes))
  {
    var after := WithoutAll(WithAll(tags, adds), removes);
    forall c | c in cols ensures after[c.guid] == Target(gov, c, tags[c.guid]) {
      PlanForColumn(gov, cols, tags, adds, removes, c);
    }
    forall g | g in tags && (forall c <- cols :: c.guid != g) ensures after[g] == tags[g] {
      PlanForOthers(gov, cols, tags, adds, removes, g);
    }
  }

  lemma TaggedIs(changes: seq<Change>, g: nat, t: string)
    ensures t in Tagged(changes, g) <==> Change(g, t) in changes
  {
    if Change(g, t) in changes {
      assert Change(g, t).tag == t;
    }
    if t in Tagged(changes, g) {
      var a :| a in changes && a.guid == g && a.tag == t;
      assert a == Change(g, t);
    }
  }

  lemma {:induction false} PlanIsEmptyIff(gov: Gov, cols: seq<Column>, tags: Tagging)
    requires forall c <- cols :: c.guid in tags
    ensures PlanSize(gov, cols, tags) == 0 <==> forall c <- cols :: Settled(gov, c, tags[c.guid])
  {
    if cols != [] {
      var init, last := cols[..|cols| - 1], cols[|cols| - 1];
      PlanIsEmptyIff(gov, init, tags);
      assert forall c :: c in cols <==> c in init || c == last;
    }
  }

  /**
   `verify` passes after one apply exactly when each rule that a column meets asks for a tag with our
   prefix. A rule with another tag leaves a change outstanding after any number of applies.
   */
  lemma ConvergesIff(gov: Gov, cols: seq<Column>, before: Tagging, after: Tagging)
    requires (forall c <- cols :: c.guid in before) && IsReconciled(gov, cols, before, after)
    ensures (forall c <- cols :: c.guid in after)
         && (PlanSize(gov, cols, after) == 0 <==> forall c <- cols :: forall t <- Wanted(gov, c) :: Ours(t))
  {
    PlanIsEmptyIff(gov, cols, after);
    forall c | c in cols
      ensures Settled(gov, c, after[c.guid]) <==> forall t <- Wanted(gov, c) :: Ours(t)
    {
      SettlesIff(gov, c, before[c.guid]);
    }
  }

  /** Wherever a broken-off apply stopped, the next one ends in the same tagging as an unbroken one. */
  lemma ConvergesFromAnyCut(gov: Gov, cols: seq<Column>, before: Tagging, cut: Tagging, after: Tagging)
    requires (forall c <- cols :: c.guid in before) && ArePartlyApplied(gov, cols, before, cut)
    requires IsReconciled(gov, cols, cut, after)
    ensures IsReconciled(gov, cols, before, after)
  {
    forall c | c in cols ensures Target(gov, c, cut[c.guid]) == Target(gov, c, before[c.guid]) {
      CutApplyHasTheSameTarget(gov, c, before[c.guid], cut[c.guid]);
    }
  }
}
