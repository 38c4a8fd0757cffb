/**
 Layered configuration: a deep merge of mappings, the fold of the overlay files over the base file, and
 the overrides of the chosen model on top. A scalar is any value that is not a mapping, null and lists
 included; `truthy` tells whether the language takes it for true, which null and empty ones are not.
 */
module DeepMerge {
  import opened Options

  datatype Value = Scalar(text: string, truthy: bool) | Mapping(entries: map<string, Value>)

  const EMPTY := Mapping(map[])

  /** Two mappings are merged entry by entry; anything else is replaced. */
  function Merge(base: Value, over: Value): Value
    decreases over
  {
    if !base.Mapping? || !over.Mapping? then over else
    Mapping(map k | k in base.entries.Keys + over.entries.Keys ::
      if k !in over.entries then base.entries[k]
      else if k !in base.entries then over.entries[k]
      else Merge(base.entries[k], over.entries[k]))
  }

  /** The merge as the code runs it: a fresh copy of the base, filled from the overlay in any order of its keys. */
  method MergeInto(base: map<string, Value>, over: Value) returns (out: map<string, Value>)
    requires over.Mapping?
    ensures Mapping(out) == Merge(Mapping(base), over)
    decreases over
  {
    out := base;
    var rest := over.entries.Keys;
    while rest != {}
      invariant rest <= over.entries.Keys
      invariant out.Keys == base.Keys + (over.entries.Keys - rest)
      invariant forall k | k in out ::
        out[k] == if k in over.entries && k !in rest then Merged(base, over.entries, k) else base[k]
    {
      var k :| k in rest;
      var v := over.entries[k];
      if v.Mapping? && k in out && out[k].Mapping? {
        var inner := MergeInto(out[k].entries, v);
        out := out[k := Mapping(inner)];
      } else {
        out := out[k := v];
      }
      rest := rest - {k};
    }
    var whole := Merge(Mapping(base), over);
    assert out.Keys == whole.entries.Keys;
    assert forall k | k in out :: out[k] == whole.entries[k];
  }

  ghost function Merged(base: map<string, Value>, over: map<string, Value>, k: string): Value
    requires k in over
  {
    if k in base then Merge(base[k], over[k]) else over[k]
  }

  /* ---- laws ---- */

  lemma {:induction false} MergeOfSame(a: Value)
    ensures Merge(a, a) == a
    decreases a
  {
    if a.Mapping? {
      forall k | k in a.entries ensures Merge(a.entries[k], a.entries[k]) == a.entries[k] {
        MergeOfSame(a.entries[k]);
      }
    }
  }

  lemma MergeWithEmpty(a: Value)
    requires a.Mapping?
    ensures Merge(a, EMPTY) == a && Merge(EMPTY, a) == a
  {
    assert Merge(a, EMPTY).entries == a.entries;
    assert Merge(EMPTY, a).entries == a.entries;
  }

  /** An overlay that is given twice in a row counts once. */
  lemma {:induction false} MergeTwice(a: Value, b: Value)
    ensures Merge(Merge(a, b), b) == Merge(a, b)
    decreases b
  {
    if a.Mapping? && b.Mapping? {
      var once := Merge(a, b);
      var twice := Merge(once, b);
      forall k | k in once.entries ensures twice.entries[k] == once.entries[k] {
        if k in a.entries && k in b.entries {
          MergeTwice(a.entries[k], b.entries[k]);
        } else if k in b.entries {
          MergeOfSame(b.entries[k]);
        }
      }
      assert twice.entries == once.entries;
    } else {
      MergeOfSame(b);
    }
  }

  /* ---- paths ---- */

  function Get(v: Value, path: seq<string>): Option<Value> {
    if path == [] then Some(v) else
    if v.Mapping? && path[0] in v.entries then Get(v.entries[path[0]], path[1..]) else None
  }

  /** On the way to the path there is a value that is not a mapping. */
  predicate Blocks(v: Value, path: seq<string>) {
    path != [] && (!v.Mapping? || (path[0] in v.entries && Blocks(v.entries[path[0]], path[1..])))
  }

  /**
   What a merge holds at any path: the merge of both if both have it, the overlay's value if only it has
   it, nothing if the overlay put a scalar on the way, and else what the base has.
   */
  lemma {:induction false} PathIs(a: Value, b: Value, path: seq<string>)
    ensures Get(Merge(a, b), path)
         == (match (Get(a, path), Get(b, path))
             case (Some(x), Some(y)) => Some(Merge(x, y))
             case (None, Some(y)) => Some(y)
             case (x, None) => if Blocks(b, path) then None else x)
  {
    if path != [] && a.Mapping? && b.Mapping? && path[0] in a.entries && path[0] in b.entries {
      PathIs(a.entries[path[0]], b.entries[path[0]], path[1..]);
    }
  }

  lemma {:induction false} BlockedHasNothing(v: Value, path: seq<string>)
    requires Blocks(v, path)
    ensures Get(v, path).None?
  {
    if v.Mapping? {
      BlockedHasNothing(v.entries[path[0]], path[1..]);
    }
  }

  /* ---- associativity ---- */

  /** All that `a` holds is set anew by `c`, so that merging `c` over `a` leaves just `c`. */
  predicate Covers(c: Value, a: Value)
    decreases c
  {
    a.Mapping? && c.Mapping? ==> forall k <- a.entries.Keys :: k in c.entries && Covers(c.entries[k], a.entries[k])
  }

  lemma {:induction false} CoversIff(c: Value, a: Value)
    ensures Merge(a, c) == c <==> Covers(c, a)
    decreases c
  {
    if a.Mapping? && c.Mapping? {
      forall k | k in a.entries && k in c.entries
        ensures Merge(a.entries[k], c.entries[k]) == c.entries[k] <==> Covers(c.entries[k], a.entries[k])
      {
        CoversIff(c.entries[k], a.entries[k]);
      }
      var m := Merge(a, c);
      if Covers(c, a) {
        assert m.entries == c.entries;
      } else {
        var k :| k in a.entries.Keys && !(k in c.entries && Covers(c.entries[k], a.entries[k]));
        assert k in m.entries;
        assert k in c.entries ==> m.entries[k] == Merge(a.entries[k], c.entries[k]);
      }
    }
  }

  /** Nowhere does the middle one put a scalar between two mappings of which the last does not cover the first. */
  predicate InStep(a: Value, b: Value, c: Value)
    decreases c
  {
    a.Mapping? && c.Mapping? ==>
      if b.Mapping? then
        forall k <- c.entries.Keys ::
          k in a.entries && k in b.entries ==> InStep(a.entries[k], b.entries[k], c.entries[k])
      else Covers(c, a)
  }

  /** The grouping of three layers does not matter exactly then. */
  lemma {:induction false} MergeIsAssociativeIff(a: Value, b: Value, c: Value)
    ensures Merge(Merge(a, b), c) == Merge(a, Merge(b, c)) <==> InStep(a, b, c)
    decreases c
  {
    if a.Mapping? && c.Mapping? {
      if b.Mapping? {
        var left, right := Merge(Merge(a, b), c), Merge(a, Merge(b, c));
        assert left.entries.Keys == right.entries.Keys;
        forall k | k in left.entries
          ensures left.entries[k] == right.entries[k]
             <==> (k in a.entries && k in b.entries && k in c.entries
                   ==> InStep(a.entries[k], b.entries[k], c.entries[k]))
        {
          if k in a.entries && k in b.entries && k in c.entries {
            MergeIsAssociativeIff(a.entries[k], b.entries[k], c.entries[k]);
          }
        }
        if InStep(a, b, c) {
          assert left.entries == right.entries;
        } else {
          var k :| && k in c.entries.Keys && k in a.entries && k in b.entries
                   && !InStep(a.entries[k], b.entries[k], c.entries[k]);
          assert left.entries[k] != right.entries[k];
        }
      } else {
        CoversIff(c, a);
      }
    }
  }

  function OneKey(v: Value, k: string): Value {
    Mapping(map[k := v])
  }

  /** A scalar in the middle wipes a mapping in one grouping and is itself wiped in the other. */
  lemma ScalarBetweenMappings()
    ensures var a, b := OneKey(OneKey(Scalar("1", true), "x"), "k"), OneKey(Scalar("off", true), "k");
      var c := OneKey(EMPTY, "k");
      Merge(Merge(a, b), c) != Merge(a, Merge(b, c))
  {
    var a, b, c := OneKey(OneKey(Scalar("1", true), "x"), "k"), OneKey(Scalar("off", true), "k"), OneKey(EMPTY, "k");
    MergeIsAssociativeIff(a, b, c);
    assert "x" in a.entries["k"].entries && "x" !in c.entries["k"].entries;
    assert !Covers(c.entries["k"], a.entries["k"]);
    assert !InStep(a.entries["k"], b.entries["k"], c.entries["k"]);
  }

  /* ---- overlays ---- */

  /** No key is a mapping in one and something else in the other. */
  predicate Alike(a: Value, b: Value)
    decreases a
  {
    && a.Mapping? == b.Mapping?
    && (a.Mapping? && b.Mapping? ==> forall k <- a.entries.Keys :: k in b.entries ==> Alike(a.entries[k], b.entries[k]))
  }

  lemma {:induction false} AlikeIsInStep(a: Value, b: Value, c: Value)
    requires Alike(a, b)
    ensures InStep(a, b, c)
    decreases c
  {
    if a.Mapping? && c.Mapping? {
      forall k | k in c.entries && k in a.entries && k in b.entries
        ensures InStep(a.entries[k], b.entries[k], c.entries[k])
      {
        AlikeIsInStep(a.entries[k], b.entries[k], c.entries[k]);
      }
    }
  }

  lemma {:induction false} AlikeToMerged(a: Value, b: Value, c: Value)
    requires Alike(a, b) && Alike(a, c)
    ensures Alike(a, Merge(b, c))
    decreases a
  {
    if a.Mapping? {
      var m := Merge(b, c);
      forall k | k in a.entries && k in m.entries ensures Alike(a.entries[k], m.entries[k]) {
        if k in b.entries && k in c.entries {
          AlikeToMerged(a.entries[k], b.entries[k], c.entries[k]);
        }
      }
    }
  }

  /** What is false, an empty file too, counts as an empty mapping. */
  function OrEmpty(v: Value): Value { if v.Scalar? && !v.truthy then EMPTY else v }

  function Fold(base: Value, overlays: seq<Value>): Value {
    if overlays == [] then base else
    Merge(Fold(base, overlays[..|overlays| - 1]), OrEmpty(overlays[|overlays| - 1]))
  }

  /**
   Folding the overlays one by one gives what merging them first would give, unless the base and an
   overlay differ on what is a mapping; the overlays may clash with each other.
   */
  lemma {:induction false} FoldIsOneMerge(base: Value, overlays: seq<Value>)
    requires base.Mapping? && forall o <- overlays :: Alike(base, OrEmpty(o))
    ensures Fold(base, overlays) == Merge(base, Fold(EMPTY, overlays))
    ensures Alike(base, Fold(EMPTY, overlays))
  {
    if overlays == [] {
      MergeWithEmpty(base);
    } else {
      var init, last := overlays[..|overlays| - 1], OrEmpty(overlays[|overlays| - 1]);
      FoldIsOneMerge(base, init);
      AlikeIsInStep(base, Fold(EMPTY, init), last);
      MergeIsAssociativeIff(base, Fold(EMPTY, init), last);
      AlikeToMerged(base, Fold(EMPTY, init), last);
    }
  }

  /** A scalar that an overlay sets stands unless a later overlay has something at its path or a scalar on the way. */
  lemma {:induction false} LastSetterWins(base: Value, overlays: seq<Value>, path: seq<string>, k: nat)
    requires k < |overlays|
    requires var given := Get(OrEmpty(overlays[k]), path); given.Some? && !given.value.Mapping?
    requires forall j | k < j < |overlays| ::
               Get(OrEmpty(overlays[j]), path).None? && !Blocks(OrEmpty(overlays[j]), path)
    ensures Get(Fold(base, overlays), path) == Get(OrEmpty(overlays[k]), path)
  {
    var init, last := overlays[..|overlays| - 1], OrEmpty(overlays[|overlays| - 1]);
    PathIs(Fold(base, init), last, path);
    if k < |overlays| - 1 {
      LastSetterWins(base, init, path, k);
    }
  }

  /* ---- the configuration of one model ---- */

  datatype Loaded = Loaded(cfg: Value) | UnknownModel | Malformed

  function Entry(v: Value, key: string): Value
    requires v.Mapping?
  {
    if key in v.entries then v.entries[key] else Scalar("null", false)
  }

  /** The model's own description: its name, then its specification without the overrides. */
  function ModelEntry(spec: map<string, Value>, name: string): Value {
    Mapping(map["name" := Scalar(name, name != "")] + (spec - {"overrides"}))
  }

  function ForModel(cfg: Value, name: string): Loaded
    requires cfg.Mapping?
  {
    var models := OrEmpty(Entry(cfg, "models"));
    if !models.Mapping? then Malformed else
    if name !in models.entries then UnknownModel else
    var spec := models.entries[name];
    if !spec.Mapping? then Malformed else
    var overrides := OrEmpty(Entry(spec, "overrides"));
    if !overrides.Mapping? then Malformed else
    var out := Merge(cfg, overrides);
    Loaded(Mapping(out.entries["model" := ModelEntry(spec.entries, name)]))
  }

  /** A scalar that is no value to the language: null, false, zero or an empty text or list. */
  predicate IsNothing(v: Value) {
    v.Scalar? && !v.truthy
  }

  /** An empty overlay file leaves the configuration alone; any other is merged on top. */
  lemma OneMoreOverlay(base: Value, overlays: seq<Value>, over: Value)
    requires Fold(base, overlays).Mapping?
    ensures Fold(base, overlays + [over])
         == if IsNothing(over) then Fold(base, overlays) else Merge(Fold(base, overlays), over)
  {
    assert (overlays + [over])[..|overlays|] == overlays;
    MergeWithEmpty(Fold(base, overlays));
  }

  /** The specification of a model, if the configuration has one. */
  ghost predicate HasSpec(cfg: Value, name: string, spec: Value) {
    && cfg.Mapping? && "models" in cfg.entries && cfg.entries["models"].Mapping?
    && name in cfg.entries["models"].entries && spec == cfg.entries["models"].entries[name]
  }

  /**
   Which configurations load: those that have the model, as a mapping whose overrides, if it has any, are a
   mapping too. A model is unknown when there are no models or none of that name.
   */
  lemma LoadsIff(cfg: Value, name: string)
    requires cfg.Mapping?
    ensures ForModel(cfg, name).Loaded?
       <==> exists spec :: HasSpec(cfg, name, spec) && spec.Mapping?
              && ("overrides" in spec.entries ==>
                    spec.entries["overrides"].Mapping? || IsNothing(spec.entries["overrides"]))
    ensures ForModel(cfg, name) == UnknownModel
       <==> || "models" !in cfg.entries || IsNothing(cfg.entries["models"])
            || (cfg.entries["models"].Mapping? && name !in cfg.entries["models"].entries)
  {
    if "models" in cfg.entries && cfg.entries["models"].Mapping? && name in cfg.entries["models"].entries {
      assert HasSpec(cfg, name, cfg.entries["models"].entries[name]);
    }
  }

  /**
   A base that is no mapping counts only once there is an overlay, and then as what `dict` makes of it, if it
   takes it: an empty list, say, is an empty mapping.
   */
  method LoadConfig(base: Value, overlays: seq<Value>, name: string, asDict: Value -> Option<map<string, Value>>)
    returns (loaded: Loaded)
    ensures base.Mapping? ==> IsFolded(base, overlays, name, loaded)
    ensures !base.Mapping? && overlays != [] && asDict(base).Some? ==>
              IsFolded(Mapping(asDict(base).value), overlays, name, loaded)
    ensures !base.Mapping? && (overlays == [] || asDict(base).None?) ==> loaded == Malformed
  {
    var cfg: map<string, Value> := map[];
    if base.Mapping? {
      cfg := base.entries;
    } else if overlays != [] && asDict(base).Some? {
      cfg := asDict(base).value;
    } else {
      return Malformed;
    }
    ghost var start := Mapping(cfg);
    for i := 0 to |overlays|
      invariant Mapping(cfg) == Fold(start, overlays[..i])
      invariant forall j | 0 <= j < i :: overlays[j].Mapping? || IsNothing(overlays[j])
    {
      var over := OrEmpty(overlays[i]);
      if !over.Mapping? {
        return Malformed;
      }
      assert overlays[..i + 1][..i] == overlays[..i];
      cfg := MergeInto(cfg, over);
    }
    assert overlays[..|overlays|] == overlays;
    loaded := ForModel(Mapping(cfg), name);
  }

  /** The overlays folded over this start, then the model's view; one that is neither empty nor a mapping fails. */
  ghost predicate IsFolded(start: Value, overlays: seq<Value>, name: string, loaded: Loaded) {
    if forall i | 0 <= i < |overlays| :: overlays[i].Mapping? || IsNothing(overlays[i])
    then Fold(start, overlays).Mapping? && loaded == ForModel(Fold(start, overlays), name)
    else loaded == Malformed
  }

  /**
   The order of precedence, outside the "model" entry: the model's overrides, then the overlays and the
   base. A scalar in the overrides stands, and where they have nothing the layers below show through.
   */
  lemma OverridesGoOnTop(cfg: Value, name: string, path: seq<string>)
    requires cfg.Mapping? && ForModel(cfg, name).Loaded? && path != [] && path[0] != "model"
    ensures var overrides := OrEmpty(Entry(Entry(Entry(cfg, "models"), name), "overrides"));
      var out := ForModel(cfg, name).cfg;
      && (Get(overrides, path).Some? && !Get(overrides, path).value.Mapping? ==> Get(out, path) == Get(overrides, path))
      && (Get(overrides, path).None? && !Blocks(overrides, path) ==> Get(out, path) == Get(cfg, path))
  {
    var overrides := OrEmpty(Entry(Entry(Entry(cfg, "models"), name), "overrides"));
    PathIs(cfg, overrides, path);
    assert Get(ForModel(cfg, name).cfg, path) == Get(Merge(cfg, overrides), path);
  }

  /** The "model" entry is written afresh; it carries the asked name unless the specification has a name of its own. */
  lemma ModelNameIs(cfg: Value, name: string)
    requires cfg.Mapping? && ForModel(cfg, name).Loaded?
    ensures var spec := Entry(Entry(cfg, "models"), name);
      && spec.Mapping?
      && Get(ForModel(cfg, name).cfg, ["model", "name"])
         == Some(if "name" in spec.entries then spec.entries["name"] else Scalar(name, name != ""))
      && Get(ForModel(cfg, name).cfg, ["model", "overrides"]).None?
  {
    var out := ForModel(cfg, name).cfg;
    var entry := out.entries["model"];
    assert ["model", "name"][1..] == ["name"] && ["model", "overrides"][1..] == ["overrides"];
    assert ["name"][1..] == [];
    assert Get(out, ["model", "name"]) == Get(entry, ["name"]) == Get(entry.entries["name"], []);
    assert Get(out, ["model", "overrides"]) == Get(entry, ["overrides"]);
  }
}
