/** Inheritance (`expand`), `minimize` and `minimize-check` over configuration trees. */
module ConfigCli {
  import opened ConfigTree
  import opened ConfigPrune

  const OVERRIDE := "_override_"
  const DEFAULTS := "defaults"

  /** A configuration file with the files its `defaults` key names, already located.
      `NoDefaults` is a file without the key, which is different from an empty list. */
  datatype Source = Source(own: Tree, parents: Parents)
  datatype Parents = NoDefaults | Defaults(sources: seq<Source>)

  predicate IsTruthy(t: Tree) {
    match t
    case Leaf(Null) => false
    case Leaf(Bool(b)) => b
    case Leaf(Number(n)) => n != 0.0
    case Leaf(Text(s)) => s != ""
    case _ => !Empty(t)
  }

  /** A section that asks to replace the inherited one. */
  predicate Marked(t: Tree) {
    t.Mapping? && OVERRIDE in t.entries && IsTruthy(t.entries[OVERRIDE])
  }

  predicate Unmarked(t: Tree)
    requires t.Mapping?
  {
    forall k | k in t.entries :: !Marked(t.entries[k])
  }

  function MarkedKeys(t: Tree): set<string>
    requires t.Mapping?
  {
    set k | k in t.entries && Marked(t.entries[k])
  }

  function StripMark(t: Tree): (r: Tree) {
    if Marked(t) then Without(t, {OVERRIDE}) else t
  }

  function StripMarks(t: Tree): (r: Tree)
    requires t.Mapping?
    ensures r.Mapping? && r.entries.Keys == t.entries.Keys
  {
    Mapping(t.order, map k | k in t.entries :: StripMark(t.entries[k]))
  }

  /** Marked sections replace what they inherit; everything else merges. */
  function Overridden(base: Tree, over: Tree): (m: Tree)
    requires base.Mapping? && over.Mapping?
    ensures m.Mapping? && m.entries.Keys == base.entries.Keys + over.entries.Keys
  {
    Merge(Without(base, MarkedKeys(over)), StripMarks(over))
  }

  method MergeWithOverride(baseConfig: Tree, overrideConfig: Tree) returns (merged: Tree)
    requires baseConfig.Mapping? && overrideConfig.Mapping?
    requires WellFormed(baseConfig) && WellFormed(overrideConfig)
    ensures merged == Overridden(baseConfig, overrideConfig)
  {
    hide *;
    var base, over := baseConfig, overrideConfig;
    var keys := overrideConfig.order;
    OverrideStart(baseConfig, overrideConfig);
    for i := 0 to |keys|
      invariant base == Without(baseConfig, MarkedBefore(overrideConfig, i))
      invariant over == StripOnly(overrideConfig, MarkedBefore(overrideConfig, i))
    {
      var key := keys[i];
      OverrideStep(baseConfig, overrideConfig, i);
      if Marked(over.entries[key]) {
        over := Mapping(over.order, over.entries[key := Without(over.entries[key], {OVERRIDE})]);
        base := Without(base, {key});
      }
    }
    OverrideEnd(baseConfig, overrideConfig);
    merged := Merge(base, over);
  }

  /** The marked sections among the first `i` keys. */
  ghost function MarkedBefore(t: Tree, i: nat): set<string>
    requires t.Mapping? && i <= |t.order|
  {
    set k | k in t.order[..i] && k in t.entries && Marked(t.entries[k])
  }

  lemma OverrideStart(base: Tree, over: Tree)
    requires base.Mapping? && over.Mapping? && WellFormed(base)
    ensures Without(base, MarkedBefore(over, 0)) == base && StripOnly(over, MarkedBefore(over, 0)) == over
  {
    assert MarkedBefore(over, 0) == {};
    WithoutNothing(base, {});
    StripNone(over);
  }

  lemma OverrideStep(base: Tree, over: Tree, i: nat)
    requires base.Mapping? && over.Mapping? && WellFormed(over) && i < |over.order|
    ensures var key, done, next := over.order[i], MarkedBefore(over, i), MarkedBefore(over, i + 1);
      && key in over.entries && StripOnly(over, done).entries[key] == over.entries[key]
      && (if Marked(over.entries[key]) then
            && over.entries[key].Mapping?
            && Mapping(over.order, StripOnly(over, done).entries[key := Without(over.entries[key], {OVERRIDE})]) == StripOnly(over, next)
            && Without(Without(base, done), {key}) == Without(base, next)
          else next == done)
  {
    var key, done, next := over.order[i], MarkedBefore(over, i), MarkedBefore(over, i + 1);
    WellFormedKeys(over);
    hide WellFormed;
    assert key !in over.order[..i] && over.order[..i + 1] == over.order[..i] + [key];
    if Marked(over.entries[key]) {
      assert next == done + {key};
      StripStep(over, done, key);
      WithoutTwice(base, done, {key});
    } else {
      assert next == done;
    }
  }

  lemma OverrideEnd(base: Tree, over: Tree)
    requires base.Mapping? && over.Mapping? && WellFormed(over)
    ensures var all := MarkedBefore(over, |over.order|);
      Merge(Without(base, all), StripOnly(over, all)) == Overridden(base, over)
  {
    WellFormedKeys(over);
    hide WellFormed, Merge;
    assert over.order[..|over.order|] == over.order;
    assert MarkedBefore(over, |over.order|) == MarkedKeys(over);
    StripAll(over);
  }

  /** `t` with the marks of some sections taken off. */
  ghost function StripOnly(t: Tree, keys: set<string>): (r: Tree)
    requires t.Mapping?
    ensures r.Mapping? && r.entries.Keys == t.entries.Keys && r.order == t.order
    ensures forall k | k in t.entries :: r.entries[k] == if k in keys then StripMark(t.entries[k]) else t.entries[k]
  {
    Mapping(t.order, map k | k in t.entries :: if k in keys then StripMark(t.entries[k]) else t.entries[k])
  }

  lemma StripNone(t: Tree)
    requires t.Mapping?
    ensures StripOnly(t, {}) == t
  {
    assert StripOnly(t, {}).entries == t.entries;
  }

  lemma StripStep(t: Tree, keys: set<string>, key: string)
    requires t.Mapping? && key in t.entries && key !in keys && Marked(t.entries[key])
    ensures Mapping(t.order, StripOnly(t, keys).entries[key := Without(t.entries[key], {OVERRIDE})])
         == StripOnly(t, keys + {key})
  {
    assert StripOnly(t, keys).entries[key := Without(t.entries[key], {OVERRIDE})]
        == StripOnly(t, keys + {key}).entries;
  }

  lemma StripAll(t: Tree)
    requires t.Mapping?
    ensures StripOnly(t, MarkedKeys(t)) == StripMarks(t)
  {
    assert StripOnly(t, MarkedKeys(t)).entries == StripMarks(t).entries;
  }

  lemma WithoutTwice(t: Tree, first: set<string>, second: set<string>)
    requires t.Mapping?
    ensures Without(Without(t, first), second) == Without(t, first + second)
  {
    RestrictTwice(t.order, t.entries.Keys - first, t.entries.Keys - first - second);
    assert (t.entries.Keys - first) * (t.entries.Keys - first - second) == t.entries.Keys - (first + second);
    assert t.entries.Keys - first - second == t.entries.Keys - (first + second);
    assert (t.entries - first) - second == t.entries - (first + second);
  }

  ghost predicate Valid(s: Source)
    decreases s
  {
    && s.own.Mapping? && WellFormed(s.own)
    && (s.parents.Defaults? ==> forall i | 0 <= i < |s.parents.sources| :: Valid(s.parents.sources[i]))
  }

  /** The expanded configuration: parents left to right, then the file itself.
      A file without `defaults` is taken as it stands. */
  function Expand(s: Source): (t: Tree)
    requires Valid(s)
    ensures t.Mapping?
    decreases s, 0
  {
    match s.parents
    case NoDefaults => s.own
    case Defaults(sources) => Overridden(Folded(s, |sources|), s.own)
  }

  function Folded(s: Source, n: nat): (t: Tree)
    requires Valid(s) && s.parents.Defaults? && n <= |s.parents.sources|
    ensures t.Mapping?
    decreases s.parents, n
  {
    if n == 0 then EMPTY
    else Overridden(Folded(s, n - 1), Expand(s.parents.sources[n - 1]))
  }

  lemma {:induction false} ExpandWellFormed(s: Source)
    requires Valid(s)
    ensures WellFormed(Expand(s))
    decreases s, 0
  {
    if s.parents.Defaults? {
      FoldedWellFormed(s, |s.parents.sources|);
      OverriddenWellFormed(Folded(s, |s.parents.sources|), s.own);
    }
  }

  lemma {:induction false} FoldedWellFormed(s: Source, n: nat)
    requires Valid(s) && s.parents.Defaults? && n <= |s.parents.sources|
    ensures WellFormed(Folded(s, n))
    decreases s.parents, n
  {
    hide Overridden;
    hide Expand;
    if n > 0 {
      FoldedWellFormed(s, n - 1);
      ExpandWellFormed(s.parents.sources[n - 1]);
      OverriddenWellFormed(Folded(s, n - 1), Expand(s.parents.sources[n - 1]));
    }
  }

  lemma StripMarksWellFormed(t: Tree)
    requires t.Mapping? && WellFormed(t)
    ensures WellFormed(StripMarks(t))
  {
    forall k | k in t.entries
      ensures WellFormed(StripMark(t.entries[k]))
    {
      if Marked(t.entries[k]) { WithoutWellFormed(t.entries[k], {OVERRIDE}); }
    }
  }

  lemma OverriddenWellFormed(base: Tree, over: Tree)
    requires base.Mapping? && over.Mapping? && WellFormed(base) && WellFormed(over)
    ensures WellFormed(Overridden(base, over))
  {
    WithoutWellFormed(base, MarkedKeys(over));
    StripMarksWellFormed(over);
    MergeWellFormed(Without(base, MarkedKeys(over)), StripMarks(over));
  }

  /** Loading with inheritance, parent by parent. */
  method LoadConfigWithInheritance(s: Source) returns (config: Tree)
    requires Valid(s)
    ensures config == Expand(s)
    decreases s
  {
    config := s.own;
    if s.parents.Defaults? {
      var baseConfig := EMPTY;
      for i := 0 to |s.parents.sources|
        invariant baseConfig == Folded(s, i)
      {
        FoldedWellFormed(s, i);
        ExpandWellFormed(s.parents.sources[i]);
        var parentConfig := LoadConfigWithInheritance(s.parents.sources[i]);
        baseConfig := MergeWithOverride(baseConfig, parentConfig);
      }
      FoldedWellFormed(s, |s.parents.sources|);
      config := MergeWithOverride(baseConfig, config);
    }
  }

  // ------------------------------------------------------------ the markers

  /** Inheritance consumes every marker: a file with `defaults` expands to an unmarked tree. */
  lemma {:induction false} ExpansionIsUnmarked(s: Source)
    requires Valid(s) && s.parents.Defaults?
    ensures Unmarked(Expand(s))
  {
    FoldedUnmarked(s, |s.parents.sources|);
    OverriddenUnmarked(Folded(s, |s.parents.sources|), s.own);
  }

  lemma {:induction false} FoldedUnmarked(s: Source, n: nat)
    requires Valid(s) && s.parents.Defaults? && n <= |s.parents.sources|
    ensures Unmarked(Folded(s, n))
    decreases n
  {
    hide Overridden;
    hide Expand;
    if n > 0 {
      FoldedUnmarked(s, n - 1);
      OverriddenUnmarked(Folded(s, n - 1), Expand(s.parents.sources[n - 1]));
    }
  }

  lemma OverriddenUnmarked(base: Tree, over: Tree)
    requires base.Mapping? && over.Mapping? && Unmarked(base)
    ensures Unmarked(Overridden(base, over))
  {
    var m := Overridden(base, over);
    forall k | k in m.entries
      ensures !Marked(m.entries[k])
    {
      if k in over.entries && k in base.entries && !Marked(over.entries[k]) {
        var b, o := base.entries[k], over.entries[k];
        assert m.entries[k] == Merge(b, o);
        if b.Mapping? && o.Mapping? && OVERRIDE in b.entries && OVERRIDE in o.entries {
          assert m.entries[k].entries[OVERRIDE] == Merge(b.entries[OVERRIDE], o.entries[OVERRIDE]);
        }
      }
    }
  }

  lemma OverUnmarkedIsMerge(base: Tree, over: Tree)
    requires base.Mapping? && over.Mapping? && WellFormed(base) && Unmarked(over)
    ensures Overridden(base, over) == Merge(base, over)
  {
    assert MarkedKeys(over) == {};
    WithoutNothing(base, {});
    assert StripMarks(over).entries == over.entries;
  }

  // ------------------------------------------- minimising keeps the meaning

  function Child(own: Tree, parent: Source): Source {
    Source(own, Defaults([parent]))
  }

  lemma ExpandChild(own: Tree, parent: Source)
    requires Valid(parent) && own.Mapping? && WellFormed(own)
    ensures Valid(Child(own, parent))
    ensures Expand(Child(own, parent)) == Overridden(Overridden(EMPTY, Expand(parent)), own)
  {
    var c := Child(own, parent);
    assert Folded(c, 1) == Overridden(Folded(c, 0), Expand(parent));
  }

  /** Nothing of section `x` equals what it would inherit from `y`, and no shared
      entry is an empty container. */
  predicate NothingInherited(x: Tree, y: Tree)
    requires x.Mapping? && y.Mapping?
    decreases x, 0
  {
    forall k | k in x.entries && k in y.entries :: OwnValue(x.entries[k], y.entries[k])
  }

  predicate OwnValue(u: Tree, v: Tree)
    decreases u, 1
  {
    !Empty(u) && if u.Mapping? && v.Mapping? then NothingInherited(u, v) else !Same(u, v)
  }

  /** When pruning keeps a section's every entry, and only then, it keeps the section. */
  lemma {:induction false} PruneKeepsAllIff(x: Tree, y: Tree)
    requires x.Mapping? && y.Mapping? && WellFormed(x)
    ensures NothingInherited(x, y) ==> PruneMapping(x, y) == x
    ensures NothingInherited(x, y) <==> Same(PruneMapping(x, y), x)
    decreases x, 0
  {
    WellFormedKeys(x);
    forall k | k in x.entries && k in y.entries
      ensures OwnValue(x.entries[k], y.entries[k]) ==> Prune(x.entries[k], y.entries[k]) == Kept(x.entries[k])
      ensures OwnValue(x.entries[k], y.entries[k]) <==>
        k in SurvivingKeys(x, y) && Same(Prune(x.entries[k], y.entries[k]).tree, x.entries[k])
    {
      WellFormedEntry(x, k);
      PruneKeepsValueIff(x.entries[k], y.entries[k]);
    }
    hide WellFormed;
    hide OwnValue;
    var p := PruneMapping(x, y);
    if NothingInherited(x, y) {
      assert SurvivingKeys(x, y) == x.entries.Keys;
      RestrictAll(x.order, SurvivingKeys(x, y));
      assert p.entries == x.entries;
      SameReflexive(x);
    }
    if Same(p, x) {
      forall k | k in x.entries && k in y.entries
        ensures OwnValue(x.entries[k], y.entries[k])
      {
        assert k in p.entries && Same(p.entries[k], x.entries[k]);
      }
    }
  }

  lemma {:induction false} PruneKeepsValueIff(u: Tree, v: Tree)
    requires WellFormed(u)
    ensures OwnValue(u, v) ==> Prune(u, v) == Kept(u)
    ensures OwnValue(u, v) <==> Survives(Prune(u, v)) && Same(Prune(u, v).tree, u)
    decreases u, 1
  {
    SameReflexive(u);
    if u.Mapping? && v.Mapping? {
      PruneKeepsAllIff(u, v);
    }
  }

  /** A section whose inherited counterpart can be rebuilt from what pruning leaves of it: it speaks
      about everything inherited, and hides no different value behind an empty container. */
  predicate Absorbs(x: Tree, y: Tree)
    requires x.Mapping? && y.Mapping?
    decreases x, 0
  {
    forall k | k in y.entries :: k in x.entries && AbsorbsValue(x.entries[k], y.entries[k])
  }

  predicate AbsorbsValue(u: Tree, v: Tree)
    decreases u, 1
  {
    if u.Mapping? && v.Mapping? then Absorbs(u, v) else Preservable(u, v)
  }

  /** Merging the pruned section onto the inherited one gives the section alone. */
  lemma {:induction false} AbsorbsIff(x: Tree, y: Tree)
    requires x.Mapping? && y.Mapping? && WellFormed(x) && WellFormed(y)
    ensures Same(Merge(y, PruneMapping(x, y)), x) <==> Absorbs(x, y)
    decreases x, 0
  {
    hide Same;
    hide WellFormed;
    hide Prune;
    hide SurvivingKeys;
    var left := Merge(y, PruneMapping(x, y));
    PruneDropsOnlyShared(x, y);
    if y.entries.Keys <= x.entries.Keys {
      var same := (k: string) => k in y.entries ==> AbsorbsValue(x.entries[k], y.entries[k]);
      forall k | k in x.entries
        ensures Same(left.entries[k], x.entries[k]) <==> same(k)
      {
        if k in y.entries {
          PrunedEntry(x, y, k);
          AbsorbsValueIff(x, y, k);
        } else {
          PrunedElsewhere(x, y, k);
          SameReflexive(x.entries[k]);
        }
      }
      SameEntrywise(left, x, same);
      assert Absorbs(x, y) <==> forall k | k in x.entries :: same(k);
    } else {
      var k :| k in y.entries && k !in x.entries;
      assert k in left.entries;
      DifferentKeys(left, x, k);
    }
  }

  lemma DifferentKeys(left: Tree, right: Tree, k: string)
    requires left.Mapping? && right.Mapping? && k in left.entries && k !in right.entries
    ensures !Same(left, right)
  {}

  lemma {:induction false} AbsorbsValueIff(x: Tree, y: Tree, k: string)
    requires x.Mapping? && y.Mapping? && k in x.entries && k in y.entries && WellFormed(x) && WellFormed(y)
    ensures Same(Restored(x.entries[k], y.entries[k], y.entries[k]), x.entries[k])
        <==> AbsorbsValue(x.entries[k], y.entries[k])
    decreases x.entries[k], 1
  {
    var u, v := x.entries[k], y.entries[k];
    WellFormedEntry(x, k);
    WellFormedEntry(y, k);
    if u.Mapping? && v.Mapping? {
      AbsorbsIff(u, v);
      PruneWellFormed(u, v);
      if Empty(PruneMapping(u, v)) {
        MergeNothing(v, PruneMapping(u, v));
      }
    } else {
      BackedReflexive(u, v);
      RestoredIff(u, v, v);
    }
  }

  /** A caller's test on the child and its parent's expansion, section by section. Without markers it
      asks that no empty container hide a different inherited value. An overriding section must share
      nothing with the section it replaces, unless its very marker is inherited: then it must speak
      about all of it. A section over a marked one must not empty the marker. */
  predicate SafeToMinimize(own: Tree, inherited: Tree)
    requires own.Mapping? && inherited.Mapping?
  {
    forall k | k in own.entries && k in inherited.entries :: SafeSection(own.entries[k], inherited.entries[k])
  }

  predicate SafeSection(x: Tree, y: Tree) {
    if x.Mapping? && y.Mapping? && (Marked(x) || Marked(y)) then
      var own := Without(x, {OVERRIDE});
      if !Marked(x) then
        Preservable(own, y) && (OVERRIDE in x.entries ==> !Empty(x.entries[OVERRIDE]))
      else if MarkerInherited(x, y) then Absorbs(own, Without(y, {OVERRIDE}))
      else NothingInherited(own, y)
    else Preservable(x, y)
  }

  /** Pruning drops the child's own marker. */
  predicate MarkerInherited(x: Tree, y: Tree)
    requires Marked(x) && y.Mapping?
  {
    OVERRIDE in y.entries && !Survives(Prune(x.entries[OVERRIDE], y.entries[OVERRIDE]))
  }

  /** Main theorem for `minimize`: for every child and every parent, the minimised file expands like
      the file it replaces exactly when `SafeToMinimize` holds. */
  lemma MinimizePreservesExpansionIff(own: Tree, parent: Source)
    requires Valid(parent) && own.Mapping? && WellFormed(own)
    ensures var pruned := PruneMapping(own, Expand(parent));
      && Valid(Child(pruned, parent)) && Valid(Child(own, parent))
      && (Same(Expand(Child(pruned, parent)), Expand(Child(own, parent)))
          <==> SafeToMinimize(own, Expand(parent)))
  {
    var b := Expand(parent);
    var p := PruneMapping(own, b);
    ExpandWellFormed(parent);
    PruneWellFormed(own, b);
    ExpandChild(p, parent);
    ExpandChild(own, parent);
    OverNothing(b);
    StripMarksWellFormed(b);
    forall k | k in own.entries && k in b.entries
      ensures Inherits(own.entries[k], b.entries[k], StripMark(b.entries[k]))
    {
      BackedReflexive(own.entries[k], b.entries[k]);
    }
    OverriddenPruneIff(own, b, StripMarks(b));
  }

  lemma OverNothing(b: Tree)
    requires b.Mapping? && WellFormed(b)
    ensures Overridden(EMPTY, b) == StripMarks(b)
  {
    WithoutNothing(EMPTY, MarkedKeys(b));
    StripMarksWellFormed(b);
    MergeOntoNothing(StripMarks(b));
  }

  /** What the override merge finds at a key whose value `x` was pruned against `y`, with `z` inherited. */
  function AfterPrune(x: Tree, y: Tree, z: Tree): Tree {
    if !Survives(Prune(x, y)) then z else Replaced(Prune(x, y).tree, z)
  }

  /** What it finds for value `x` with `z` inherited. */
  function Replaced(x: Tree, z: Tree): Tree {
    if Marked(x) then StripMark(x) else Merge(z, x)
  }

  /** Value `z` is inherited where a file says `y`, as far as the child's value `x` speaks: a marked section
      is inherited without its marker, anything else at least as `y` says it. */
  predicate Inherits(x: Tree, y: Tree, z: Tree) {
    if Marked(y) then z == StripMark(y) else Backed(x, y, z)
  }

  /** The child, pruned against `b` and merged onto `e`, which inherits from `b`. */
  lemma OverriddenPruneIff(own: Tree, b: Tree, e: Tree)
    requires own.Mapping? && b.Mapping? && e.Mapping? && WellFormed(own) && WellFormed(b) && WellFormed(e)
    requires forall k | k in own.entries && k in b.entries ::
      k in e.entries && Inherits(own.entries[k], b.entries[k], e.entries[k])
    ensures Same(Overridden(e, PruneMapping(own, b)), Overridden(e, own)) <==> SafeToMinimize(own, b)
  {
    hide Same;
    hide WellFormed;
    hide SafeSection;
    hide Prune;
    hide SurvivingKeys;
    hide Overridden;
    hide Replaced;
    hide AfterPrune;
    hide Inherits;
    var p := PruneMapping(own, b);
    var left, right := Overridden(e, p), Overridden(e, own);
    PruneDropsOnlyShared(own, b);
    var safe := (k: string) => k in own.entries && k in b.entries ==> SafeSection(own.entries[k], b.entries[k]);
    forall k | k in right.entries
      ensures Same(left.entries[k], right.entries[k]) <==> safe(k)
    {
      if k in own.entries && k in b.entries {
        SharedEntry(own, b, e, k);
        WellFormedEntry(own, k);
        WellFormedEntry(b, k);
        WellFormedEntry(e, k);
        SectionIff(own.entries[k], b.entries[k], e.entries[k]);
      } else {
        PrunedElsewhere(own, b, k);
        OverriddenEntry(e, p, k);
        OverriddenEntry(e, own, k);
        SameReflexive(left.entries[k]);
      }
    }
    SameEntrywise(left, right, safe);
    assert SafeToMinimize(own, b) <==> forall k | k in right.entries :: safe(k);
  }

  lemma SharedEntry(own: Tree, b: Tree, e: Tree, k: string)
    requires own.Mapping? && b.Mapping? && e.Mapping? && k in own.entries && k in b.entries && k in e.entries
    ensures Overridden(e, PruneMapping(own, b)).entries[k] == AfterPrune(own.entries[k], b.entries[k], e.entries[k])
    ensures Overridden(e, own).entries[k] == Replaced(own.entries[k], e.entries[k])
  {
    PrunedEntry(own, b, k);
    OverriddenEntry(e, PruneMapping(own, b), k);
    OverriddenEntry(e, own, k);
    hide Overridden;
    hide Prune;
  }

  lemma PruneDropsOnlyShared(own: Tree, b: Tree)
    requires own.Mapping? && b.Mapping?
    ensures PruneMapping(own, b).entries.Keys <= own.entries.Keys
    ensures own.entries.Keys - b.entries.Keys <= PruneMapping(own, b).entries.Keys
  {}

  lemma OverriddenEntry(base: Tree, over: Tree, k: string)
    requires base.Mapping? && over.Mapping? && (k in base.entries || k in over.entries)
    ensures Overridden(base, over).entries[k] ==
      if k !in over.entries then base.entries[k]
      else if k in base.entries && !Marked(over.entries[k]) then Merge(base.entries[k], over.entries[k])
      else StripMark(over.entries[k])
  {}

  /** One section, exactly. */
  lemma SectionIff(x: Tree, y: Tree, z: Tree)
    requires WellFormed(x) && WellFormed(y) && WellFormed(z) && Inherits(x, y, z)
    ensures Same(AfterPrune(x, y, z), Replaced(x, z)) <==> SafeSection(x, y)
  {
    if x.Mapping? && y.Mapping? && Marked(x) {
      OverridingSectionIff(x, y, z);
    } else if x.Mapping? && Marked(y) {
      MarkedBaseSectionIff(x, y);
    } else {
      PlainSectionIff(x, y, z);
    }
  }

  lemma PlainSectionIff(x: Tree, y: Tree, z: Tree)
    requires WellFormed(x) && WellFormed(y) && WellFormed(z) && Inherits(x, y, z)
    requires x.Mapping? && y.Mapping? ==> !Marked(x) && !Marked(y)
    ensures Same(AfterPrune(x, y, z), Replaced(x, z)) <==> Preservable(x, y)
  {
    if Marked(x) {
      SameReflexive(StripMark(x));
    } else {
      if x.Mapping? && y.Mapping? {
        UnmarkedStaysUnmarked(x, y);
      }
      RestoredIff(x, y, z);
    }
  }

  lemma UnmarkedStaysUnmarked(x: Tree, y: Tree)
    requires x.Mapping? && y.Mapping? && !Marked(x)
    ensures !Marked(PruneMapping(x, y))
  {
    if OVERRIDE in x.entries && OVERRIDE in y.entries {
      PrunedEntry(x, y, OVERRIDE);
    }
  }

  /** An overriding section. */
  lemma OverridingSectionIff(x: Tree, y: Tree, z: Tree)
    requires WellFormed(x) && WellFormed(y) && Marked(x) && y.Mapping? && Inherits(x, y, z)
    ensures Same(AfterPrune(x, y, z), Replaced(x, z)) <==> SafeSection(x, y)
  {
    var own := Without(x, {OVERRIDE});
    WithoutWellFormed(x, {OVERRIDE});
    if MarkerInherited(x, y) {
      MarkerDropped(x, y);
      WithoutWellFormed(y, {OVERRIDE});
      hide *;
      AbsorbsIff(own, Without(y, {OVERRIDE}));
      MarkerInheritedMeans(x, y, z);
    } else {
      hide *;
      OverridingKept(x, y, z);
      PruneKeepsAllIff(own, y);
    }
  }

  lemma MarkerInheritedMeans(x: Tree, y: Tree, z: Tree)
    requires Marked(x) && Marked(y) && MarkerInherited(x, y) && Inherits(x, y, z)
    ensures z == StripMark(y) == Without(y, {OVERRIDE}) && Replaced(x, z) == Without(x, {OVERRIDE})
    ensures SafeSection(x, y) <==> Absorbs(Without(x, {OVERRIDE}), Without(y, {OVERRIDE}))
    ensures Marked(x) ==> x.Mapping?
  {
    hide Absorbs, Preservable, Backed, NothingInherited;
  }

  lemma OverridingKept(x: Tree, y: Tree, z: Tree)
    requires WellFormed(x) && Marked(x) && y.Mapping? && !MarkerInherited(x, y)
    ensures AfterPrune(x, y, z) == PruneMapping(Without(x, {OVERRIDE}), y) && Replaced(x, z) == Without(x, {OVERRIDE})
    ensures SafeSection(x, y) <==> NothingInherited(Without(x, {OVERRIDE}), y)
  {
    MarkerKept(x, y);
    PruneSkipsMark(x, y);
    hide NothingInherited, Absorbs, Preservable, WellFormed, SurvivingKeys;
  }

  lemma MarkerKept(x: Tree, y: Tree)
    requires WellFormed(x) && Marked(x) && y.Mapping? && !MarkerInherited(x, y)
    ensures Marked(PruneMapping(x, y))
  {
    if OVERRIDE in y.entries {
      PrunedEntry(x, y, OVERRIDE);
    }
  }

  lemma MarkerDropped(x: Tree, y: Tree)
    requires WellFormed(x) && WellFormed(y) && Marked(x) && y.Mapping? && MarkerInherited(x, y)
    ensures Marked(y)
    ensures AfterPrune(x, y, StripMark(y)) == Merge(StripMark(y), PruneMapping(Without(x, {OVERRIDE}), Without(y, {OVERRIDE})))
  {
    var p := PruneMapping(x, y);
    MarkSurvives(x, y);
    PrunedEntry(x, y, OVERRIDE);
    PruneSkipsMark(x, y);
    PruneWellFormed(x, y);
    WithoutNothing(p, {OVERRIDE});
    PruneIgnoresMark(Without(x, {OVERRIDE}), y);
    WithoutWellFormed(y, {OVERRIDE});
    if Empty(p) {
      MergeNothing(StripMark(y), p);
    }
  }

  lemma SameTruth(u: Tree, v: Tree)
    requires Same(u, v)
    ensures IsTruthy(u) == IsTruthy(v)
  {}

  /** A marker is lost only to a marker. */
  lemma MarkSurvives(x: Tree, y: Tree)
    requires Marked(x) && y.Mapping? && WellFormed(x) && MarkerInherited(x, y)
    ensures Marked(y)
  {
    var u, v := x.entries[OVERRIDE], y.entries[OVERRIDE];
    if u.Mapping? && v.Mapping? {
      if v.entries == map[] {
        PruneKeepsAllIff(u, v);
      }
    } else if Same(u, v) {
      SameTruth(u, v);
    }
  }

  lemma PruneSkipsMark(x: Tree, y: Tree)
    requires x.Mapping? && y.Mapping?
    ensures PruneMapping(Without(x, {OVERRIDE}), y) == Without(PruneMapping(x, y), {OVERRIDE})
  {
    var w := Without(x, {OVERRIDE});
    assert SurvivingKeys(w, y) == SurvivingKeys(x, y) - {OVERRIDE};
    RestrictTwice(x.order, x.entries.Keys - {OVERRIDE}, SurvivingKeys(w, y));
    RestrictTwice(x.order, SurvivingKeys(x, y), SurvivingKeys(x, y) - {OVERRIDE});
    assert (x.entries.Keys - {OVERRIDE}) * SurvivingKeys(w, y) == SurvivingKeys(x, y) * (SurvivingKeys(x, y) - {OVERRIDE});
    assert PruneMapping(w, y).entries == PruneMapping(x, y).entries - {OVERRIDE};
  }

  lemma PruneIgnoresMark(x: Tree, y: Tree)
    requires x.Mapping? && y.Mapping? && OVERRIDE !in x.entries
    ensures PruneMapping(x, y) == PruneMapping(x, Without(y, {OVERRIDE}))
  {
    var w := Without(y, {OVERRIDE});
    assert SurvivingKeys(x, y) == SurvivingKeys(x, w);
    assert PruneMapping(x, y).entries == PruneMapping(x, w).entries;
  }

  /** A section that inherits from a marked one without being marked itself. */
  lemma MarkedBaseSectionIff(x: Tree, y: Tree)
    requires WellFormed(x) && WellFormed(y) && x.Mapping? && !Marked(x) && Marked(y)
    ensures Same(AfterPrune(x, y, StripMark(y)), Replaced(x, StripMark(y))) <==>
      Preservable(Without(x, {OVERRIDE}), y) && (OVERRIDE in x.entries ==> !Empty(x.entries[OVERRIDE]))
  {
    var z, p, own := StripMark(y), PruneMapping(x, y), Without(x, {OVERRIDE});
    UnmarkedStaysUnmarked(x, y);
    WithoutWellFormed(x, {OVERRIDE});
    WithoutWellFormed(y, {OVERRIDE});
    PruneWellFormed(x, y);
    if Empty(p) {
      MergeNothing(z, p);
    }
    assert AfterPrune(x, y, z) == Merge(z, p);
    BackedWithoutMark(own, y);
    PrunePreservesMergeIff(own, y, z);
    if OVERRIDE in x.entries {
      FalsyMarker(x, y);
      AddFalsyMarker(x, y);
    } else {
      WithoutNothing(x, {OVERRIDE});
    }
  }

  lemma BackedWithoutMark(x: Tree, y: Tree)
    requires x.Mapping? && y.Mapping? && OVERRIDE !in x.entries
    ensures Backed(x, y, Without(y, {OVERRIDE}))
  {
    forall k | k in x.entries && k in y.entries
      ensures Backed(x.entries[k], y.entries[k], y.entries[k])
    {
      BackedReflexive(x.entries[k], y.entries[k]);
    }
  }

  /** A false marker over a true one is kept as it is, unless it is an empty container. */
  lemma FalsyMarker(x: Tree, y: Tree)
    requires x.Mapping? && !Marked(x) && Marked(y) && OVERRIDE in x.entries
    ensures OVERRIDE in PruneMapping(x, y).entries <==> !Empty(x.entries[OVERRIDE])
    ensures OVERRIDE in PruneMapping(x, y).entries ==> PruneMapping(x, y).entries[OVERRIDE] == x.entries[OVERRIDE]
  {
    var u, v := x.entries[OVERRIDE], y.entries[OVERRIDE];
    PrunedEntry(x, y, OVERRIDE);
    if Same(u, v) {
      SameTruth(u, v);
    }
  }

  lemma AddFalsyMarker(x: Tree, y: Tree)
    requires x.Mapping? && !Marked(x) && Marked(y) && OVERRIDE in x.entries
    ensures var z := Without(y, {OVERRIDE});
      Same(Merge(z, PruneMapping(x, y)), Merge(z, x)) <==>
        && Same(Merge(z, PruneMapping(Without(x, {OVERRIDE}), y)), Merge(z, Without(x, {OVERRIDE})))
        && !Empty(x.entries[OVERRIDE])
  {
    var z, own := Without(y, {OVERRIDE}), Without(x, {OVERRIDE});
    FalsyMarker(x, y);
    PruneSkipsMark(x, y);
    if Empty(x.entries[OVERRIDE]) {
      DifferentKeys(Merge(z, x), Merge(z, PruneMapping(x, y)), OVERRIDE);
      if Same(Merge(z, PruneMapping(x, y)), Merge(z, x)) {
        SameSymmetric(Merge(z, PruneMapping(x, y)), Merge(z, x));
      }
    } else {
      hide Same;
      MergeOneMore(z, PruneMapping(x, y));
      MergeOneMore(z, x);
      SameReflexive(x.entries[OVERRIDE]);
      OneMoreEntry(Merge(z, PruneMapping(x, y)), Merge(z, x), Merge(z, PruneMapping(own, y)), Merge(z, own));
    }
  }

  /** Merging a marked-over section is merging it without its marker, and the marker. */
  lemma MergeOneMore(z: Tree, x: Tree)
    requires z.Mapping? && x.Mapping? && OVERRIDE !in z.entries && OVERRIDE in x.entries
    ensures OneMore(Merge(z, x), Merge(z, Without(x, {OVERRIDE})))
    ensures Merge(z, x).entries[OVERRIDE] == x.entries[OVERRIDE]
  {}

  predicate OneMore(t: Tree, rest: Tree) {
    && t.Mapping? && rest.Mapping? && OVERRIDE !in rest.entries
    && t.entries.Keys == rest.entries.Keys + {OVERRIDE}
    && forall k | k in rest.entries :: t.entries[k] == rest.entries[k]
  }

  lemma OneMoreEntry(left: Tree, right: Tree, left': Tree, right': Tree)
    requires OneMore(left, left') && OneMore(right, right') && Same(left.entries[OVERRIDE], right.entries[OVERRIDE])
    ensures Same(left, right) <==> Same(left', right')
  {
    assert left.entries.Keys == right.entries.Keys ==> left'.entries.Keys == right'.entries.Keys by {
      assert left'.entries.Keys == left.entries.Keys - {OVERRIDE};
      assert right'.entries.Keys == right.entries.Keys - {OVERRIDE};
    }
  }
}
