/** Which entries of a configuration its expansion could do without: minimality of what `minimize` writes,
    measured by what files mean. */
module Minimality {
  import opened ConfigTree
  import opened ConfigPrune
  import opened ConfigCli
  import opened MinimizeCommand

  // ----------------------------------------------------------- plain merging

  /** `e` already has what `c` adds to it at `path`. */
  predicate Given(e: Tree, c: Tree, path: seq<string>)
    requires HasPath(c, path)
    decreases path
  {
    var k := path[0];
    && e.Mapping? && k in e.entries
    && if |path| == 1 then Same(e.entries[k], Merge(e.entries[k], c.entries[k]))
       else Given(e.entries[k], c.entries[k], path[1..])
  }

  /** All entries but one being equal, that one decides. */
  lemma OnlyEntryMatters(left: Tree, right: Tree, k: string)
    requires left.Mapping? && right.Mapping? && k in right.entries
    requires left.entries.Keys + {k} == right.entries.Keys
    requires forall l | l in left.entries && l != k :: left.entries[l] == right.entries[l]
    ensures Same(left, right) <==> k in left.entries && Same(left.entries[k], right.entries[k])
  {
    if k in left.entries {
      forall l | l in left.entries && l != k
        ensures Same(left.entries[l], right.entries[l])
      {
        SameReflexive(left.entries[l]);
      }
    }
  }

  lemma DeletedElsewhere(t: Tree, path: seq<string>)
    requires HasPath(t, path)
    ensures var r := Delete(t, path);
      && r.entries.Keys == (if |path| == 1 then t.entries.Keys - {path[0]} else t.entries.Keys)
      && (forall l | l in r.entries && l != path[0] :: r.entries[l] == t.entries[l])
      && (|path| > 1 ==> r.entries[path[0]] == Delete(t.entries[path[0]], path[1..]))
  {}

  /** Under plain merging an entry is redundant exactly when it is given. */
  lemma {:induction false} GivenIff(e: Tree, c: Tree, path: seq<string>)
    requires HasPath(c, path)
    ensures Same(Merge(e, Delete(c, path)), Merge(e, c)) <==> Given(e, c, path)
    decreases path
  {
    hide Same;
    if !e.Mapping? {
      DeletedDiffers(c, path);
    } else {
      var k, left, right := path[0], Merge(e, Delete(c, path)), Merge(e, c);
      DeletedElsewhere(c, path);
      OnlyEntryMatters(left, right, k);
      if |path| > 1 {
        if k in e.entries {
          GivenIff(e.entries[k], c.entries[k], path[1..]);
        } else {
          DeletedDiffers(c.entries[k], path[1..]);
        }
      }
    }
  }

  // ------------------------------------------------------ merging with markers

  /** An entry of an overriding section the expansion could do without. The section itself, if the same is
      inherited; the marker, if nothing is inherited there or merging gives the section anyway; parts of a
      marker that leave it true; no other entry. */
  predicate RedundantInOverride(e: Tree, own: Tree, path: seq<string>)
    requires e.Mapping? && HasPath(own, path) && Marked(own.entries[path[0]])
  {
    var k, x := path[0], own.entries[path[0]];
    var alone := StripMark(x);
    if |path| == 1 then k in e.entries && Same(e.entries[k], alone)
    else if path[1..] == [OVERRIDE] then k in e.entries ==> Same(Merge(e.entries[k], alone), alone)
    else path[1] == OVERRIDE && Marked(Delete(x, path[1..]))
  }

  /** An entry of a file that its meaning over the inherited `e` does not need. */
  predicate Redundant(e: Tree, own: Tree, path: seq<string>)
    requires e.Mapping? && HasPath(own, path)
  {
    if Marked(own.entries[path[0]]) then RedundantInOverride(e, own, path) else Given(e, own, path)
  }

  /** Exactly the redundant entries can be deleted without changing what the file means. */
  lemma RedundantIff(e: Tree, own: Tree, path: seq<string>)
    requires e.Mapping? && HasPath(own, path)
    ensures Same(Overridden(e, Delete(own, path)), Overridden(e, own)) <==> Redundant(e, own, path)
  {
    hide Same, Overridden, Given, Merge;
    var k, left, right := path[0], Overridden(e, Delete(own, path)), Overridden(e, own);
    var x := own.entries[k];
    DeletedElsewhere(own, path);
    forall l | l in left.entries
      ensures l != k ==> left.entries[l] == right.entries[l]
    {
      OverriddenEntry(e, Delete(own, path), l);
      OverriddenEntry(e, own, l);
    }
    OverriddenEntry(e, own, k);
    OnlyEntryMatters(left, right, k);
    if |path| == 1 {
      assert path == [k];
      WholeSection(e, own, k);
      if k in e.entries {
        OverriddenEntry(e, Delete(own, path), k);
      }
    } else {
      OverriddenEntry(e, Delete(own, path), k);
      if !Marked(x) {
        DeletedStaysUnmarked(x, path[1..]);
        InPlainSection(e, own, path);
      } else {
        InOverridingSection(e, own, path);
      }
    }
  }

  /** What the override merge finds at `k` for value `x`. */
  function AtKey(e: Tree, k: string, x: Tree): Tree
    requires e.Mapping?
  {
    if k in e.entries && !Marked(x) then Merge(e.entries[k], x) else StripMark(x)
  }

  lemma WholeSection(e: Tree, own: Tree, k: string)
    requires e.Mapping? && HasPath(own, [k])
    ensures Redundant(e, own, [k]) <==> k in e.entries && Same(e.entries[k], AtKey(e, k, own.entries[k]))
  {
    hide Same;
  }

  lemma InPlainSection(e: Tree, own: Tree, path: seq<string>)
    requires e.Mapping? && HasPath(own, path) && |path| > 1
    requires !Marked(own.entries[path[0]]) && !Marked(Delete(own.entries[path[0]], path[1..]))
    ensures var k, x := path[0], own.entries[path[0]];
      Same(AtKey(e, k, Delete(x, path[1..])), AtKey(e, k, x)) <==> Redundant(e, own, path)
  {
    hide Same, Merge;
    var k, x := path[0], own.entries[path[0]];
    if k in e.entries {
      GivenIff(e.entries[k], x, path[1..]);
    } else {
      DeletedDiffers(x, path[1..]);
    }
  }

  /** Deleting never makes a marker true. */
  lemma DeletedStaysUnmarked(x: Tree, path: seq<string>)
    requires HasPath(x, path) && !Marked(x)
    ensures !Marked(Delete(x, path))
  {
    DeletedElsewhere(x, path);
  }

  lemma InOverridingSection(e: Tree, own: Tree, path: seq<string>)
    requires e.Mapping? && HasPath(own, path) && |path| > 1 && Marked(own.entries[path[0]])
    ensures var k, x := path[0], own.entries[path[0]];
      Same(AtKey(e, k, Delete(x, path[1..])), AtKey(e, k, x)) <==> Redundant(e, own, path)
  {
    hide Same, Merge;
    var k, x, rest := path[0], own.entries[path[0]], path[1..];
    var x' := Delete(x, rest);
    DeletedElsewhere(x, rest);
    if rest == [OVERRIDE] {
      assert x' == StripMark(x);
      SameReflexive(x');
    } else if rest[0] == OVERRIDE {
      assert |rest| > 1;
      if Marked(x') {
        assert x'.entries - {OVERRIDE} == x.entries - {OVERRIDE};
        assert StripMark(x') == StripMark(x);
        SameReflexive(StripMark(x));
      } else {
        MarkerShows(e, k, x');
        DifferentKeys(AtKey(e, k, x'), StripMark(x), OVERRIDE);
      }
    } else {
      assert Marked(x');
      assert rest[0] in StripMark(x).entries;
      if |rest| > 1 {
        DeletedDiffers(x.entries[rest[0]], rest[1..]);
      }
      NotSameAt(StripMark(x'), StripMark(x), rest[0]);
    }
  }

  lemma MarkerShows(e: Tree, k: string, x: Tree)
    requires e.Mapping? && x.Mapping? && OVERRIDE in x.entries && !Marked(x)
    ensures AtKey(e, k, x).Mapping? && OVERRIDE in AtKey(e, k, x).entries
  {}

  // ------------------------------------------------------------ expanded files

  /** What a file inherits from its only parent. */
  ghost function Inherited(parent: Source): (e: Tree)
    requires Valid(parent)
    ensures e.Mapping?
  {
    StripMarks(Expand(parent))
  }

  lemma {:induction false} DeleteWellFormed(t: Tree, path: seq<string>)
    requires HasPath(t, path) && WellFormed(t)
    ensures WellFormed(Delete(t, path))
    decreases path
  {
    if |path| == 1 {
      WithoutWellFormed(t, {path[0]});
    } else {
      DeleteWellFormed(t.entries[path[0]], path[1..]);
    }
  }

  /** For any file over any parent. */
  lemma ExpansionNeedsIff(own: Tree, parent: Source, path: seq<string>)
    requires Valid(parent) && own.Mapping? && WellFormed(own) && HasPath(own, path)
    ensures Valid(Child(Delete(own, path), parent)) && Valid(Child(own, parent))
    ensures Same(Expand(Child(Delete(own, path), parent)), Expand(Child(own, parent)))
        <==> Redundant(Inherited(parent), own, path)
  {
    DeleteWellFormed(own, path);
    ExpandWellFormed(parent);
    ExpandChild(own, parent);
    ExpandChild(Delete(own, path), parent);
    OverNothing(Expand(parent));
    RedundantIff(Inherited(parent), own, path);
  }

  // ---------------------------------------------------------- minimised files

  /** What is the same leaves nothing behind. */
  lemma {:induction false} SameNothingLeft(x: Tree, y: Tree)
    requires Same(x, y)
    ensures !Survives(Prune(x, y))
    decreases x
  {
    if x.Mapping? {
      forall k | k in x.entries
        ensures k !in SurvivingKeys(x, y)
      {
        SameNothingLeft(x.entries[k], y.entries[k]);
      }
      assert PruneMapping(x, y).entries == map[];
    }
  }

  lemma NormalIsNeeded(c: Tree, b: Tree, path: seq<string>)
    requires Normal(c, b) && HasPath(c, path) && WellFormed(c) && WellFormed(b)
    ensures !Given(b, c, path)
  {
    NothingKeptIsRedundant(c, b, path);
    GivenIff(b, c, path);
  }

  /** A section pruned against a marked one is as minimal over the section without its marker. */
  lemma NormalWithoutMark(x: Tree, y: Tree)
    requires Normal(x, y)
    ensures Normal(Without(x, {OVERRIDE}), Without(y, {OVERRIDE}))
  {
    PruneSkipsMark(x, y);
    PruneIgnoresMark(Without(x, {OVERRIDE}), y);
  }

  lemma NeededOverMarked(x: Tree, y: Tree, path: seq<string>)
    requires Normal(x, y) && HasPath(x, path) && WellFormed(x) && WellFormed(y)
    ensures !Given(Without(y, {OVERRIDE}), x, path)
  {
    var z, own := Without(y, {OVERRIDE}), Without(x, {OVERRIDE});
    if path[0] != OVERRIDE {
      NormalWithoutMark(x, y);
      WithoutWellFormed(x, {OVERRIDE});
      WithoutWellFormed(y, {OVERRIDE});
      NormalIsNeeded(own, z, path);
    }
  }

  lemma ShownOverMarked(x: Tree, y: Tree)
    requires Normal(x, y) && !Empty(x) && WellFormed(x) && WellFormed(y)
    ensures !Same(Without(y, {OVERRIDE}), Merge(Without(y, {OVERRIDE}), x))
  {
    var z := Without(y, {OVERRIDE});
    if OVERRIDE in x.entries {
      assert OVERRIDE in Merge(z, x).entries && OVERRIDE !in z.entries;
    } else {
      PruneIgnoresMark(x, y);
      WithoutWellFormed(y, {OVERRIDE});
      NormalContentShows(x, z);
      if Same(z, Merge(z, x)) {
        SameSymmetric(z, Merge(z, x));
      }
    }
  }

  /** Outside overriding sections, everything pruning keeps is needed over the inherited tree too,
      from which the markers of `b` are gone. */
  lemma PrunedIsNeeded(p: Tree, b: Tree, path: seq<string>)
    requires Normal(p, b) && HasPath(p, path) && WellFormed(p) && WellFormed(b)
    ensures !Given(StripMarks(b), p, path)
  {
    var k := path[0];
    NormalIsNeeded(p, b, path);
    if k in b.entries && Marked(b.entries[k]) {
      var x, y := p.entries[k], b.entries[k];
      NormalEntry(p, b, k);
      WellFormedEntry(p, k);
      WellFormedEntry(b, k);
      hide Same, WellFormed, Normal, Marked;
      if x.Mapping? {
        if |path| == 1 {
          ShownOverMarked(x, y);
        } else {
          NeededOverMarked(x, y, path[1..]);
        }
      } else {
        NotAMappingThere(StripMark(y), x);
      }
    }
  }

  lemma NotAMappingThere(z: Tree, x: Tree)
    requires z.Mapping? && !x.Mapping?
    ensures !Same(z, Merge(z, x))
  {}

  /** An overriding section is redundant as a whole only where nothing stands against nothing. */
  lemma EmptyOverrideIff(p: Tree, b: Tree, k: string)
    requires Normal(p, b) && k in p.entries && Marked(p.entries[k]) && WellFormed(p) && WellFormed(b)
    ensures RedundantInOverride(StripMarks(b), p, [k]) <==>
      && k in b.entries && b.entries[k].Mapping?
      && Empty(StripMark(b.entries[k])) && Empty(StripMark(p.entries[k]))
  {
    if k in b.entries && b.entries[k].Mapping? {
      var x, y := p.entries[k], b.entries[k];
      NormalEntry(p, b, k);
      if Same(StripMark(y), StripMark(x)) && !Empty(StripMark(x)) {
        SharedContent(x, y);
        assert false;
      }
    }
  }

  lemma SharedContent(x: Tree, y: Tree)
    requires Normal(x, y) && Marked(x) && Same(StripMark(y), StripMark(x))
    ensures Empty(StripMark(x))
  {
    if l :| l in StripMark(x).entries {
      assert l in StripMark(y).entries;
      NormalEntry(x, y, l);
      SameSymmetric(y.entries[l], x.entries[l]);
      SameNothingLeft(x.entries[l], y.entries[l]);
      assert false;
    }
  }

  /** What `minimize` writes for the inferred base is minimal in what it means, but for overriding
      sections: deleting an entry of any other section, at any depth, changes the expansion. */
  lemma MinimizedNeedsIff(own: Tree, parent: Source, path: seq<string>)
    requires Valid(parent) && own.Mapping? && WellFormed(own)
    requires HasPath(PruneMapping(own, Expand(parent)), path)
    ensures var p := PruneMapping(own, Expand(parent));
      && Valid(Child(Delete(p, path), parent)) && Valid(Child(p, parent))
      && (Same(Expand(Child(Delete(p, path), parent)), Expand(Child(p, parent))) <==>
            Marked(p.entries[path[0]]) && RedundantInOverride(Inherited(parent), p, path))
  {
    var b := Expand(parent);
    var p := PruneMapping(own, b);
    PruneWellFormed(own, b);
    ExpandWellFormed(parent);
    PruneIdempotent(own, b);
    ExpansionNeedsIff(p, parent, path);
    hide Same, Prune, Expand;
    if !Marked(p.entries[path[0]]) {
      PrunedIsNeeded(p, b, path);
    }
  }

  /** With `--base` an entry may also be redundant because the base inherits it: the raw file it was
      pruned against never gives it. */
  lemma RebasedNeedsIff(own: Tree, file: Tree, s: Source, path: seq<string>)
    requires RawFileOf(file, s) && own.Mapping? && WellFormed(own)
    requires HasPath(PruneMapping(own, file), path)
    ensures var p := PruneMapping(own, file);
      && Valid(Child(Delete(p, path), s)) && Valid(Child(p, s))
      && (Same(Expand(Child(Delete(p, path), s)), Expand(Child(p, s))) <==> Redundant(Inherited(s), p, path))
      && !Given(file, p, path)
  {
    PruneWellFormed(own, file);
    PruneIdempotent(own, file);
    ExpansionNeedsIff(PruneMapping(own, file), s, path);
    NormalIsNeeded(PruneMapping(own, file), file, path);
  }

  // -------------------------------------------------------------- canonicity

  /** Pruning against a marked section and against the same without its marker differ at most in an empty
      marker of the child. */
  lemma PruneOverMarked(x: Tree, y: Tree)
    requires x.Mapping? && !Marked(x) && Marked(y)
    ensures PruneMapping(x, y).entries == PruneMapping(x, Without(y, {OVERRIDE})).entries
      - (if OVERRIDE in x.entries && Empty(x.entries[OVERRIDE]) then {OVERRIDE} else {})
  {
    var z := Without(y, {OVERRIDE});
    if OVERRIDE in x.entries {
      FalsyMarker(x, y);
    }
    assert SurvivingKeys(x, y) == SurvivingKeys(x, z)
      - (if OVERRIDE in x.entries && Empty(x.entries[OVERRIDE]) then {OVERRIDE} else {});
  }

  lemma EmptyOverMarked(x: Tree, y: Tree)
    requires !Marked(x) && Marked(y) && !Survives(Prune(x, Without(y, {OVERRIDE})))
    ensures !Survives(Prune(x, y))
  {
    if x.Mapping? {
      PruneOverMarked(x, y);
    }
  }

  lemma AlikeOverMarked(x: Tree, w: Tree, y: Tree)
    requires !Marked(x) && !Marked(w) && Marked(y) && LeftAlike(x, w, Without(y, {OVERRIDE}))
    ensures LeftAlike(x, w, y)
  {
    var z := Without(y, {OVERRIDE});
    if !Survives(Prune(x, z)) {
      EmptyOverMarked(x, y);
      EmptyOverMarked(w, y);
    } else if x.Mapping? && w.Mapping? {
      PruneOverMarked(x, y);
      PruneOverMarked(w, y);
      SameMarkers(x, w, z);
    }
  }

  lemma SameMarkers(x: Tree, w: Tree, z: Tree)
    requires x.Mapping? && w.Mapping? && z.Mapping? && OVERRIDE !in z.entries
    requires Same(PruneMapping(x, z), PruneMapping(w, z))
    ensures OVERRIDE in x.entries <==> OVERRIDE in w.entries
    ensures OVERRIDE in x.entries ==> (Empty(x.entries[OVERRIDE]) <==> Empty(w.entries[OVERRIDE]))
  {
    var p, q := PruneMapping(x, z), PruneMapping(w, z);
    PrunedElsewhere(x, z, OVERRIDE);
    PrunedElsewhere(w, z, OVERRIDE);
    assert OVERRIDE in p.entries <==> OVERRIDE in q.entries;
    if OVERRIDE in x.entries {
      assert Same(p.entries[OVERRIDE], q.entries[OVERRIDE]);
    }
  }

  lemma AlikeOverMarks(a: Tree, c: Tree, b: Tree, k: string)
    requires a.Mapping? && c.Mapping? && b.Mapping? && Unmarked(a) && Unmarked(c)
    requires PrunedAlike(a, c, StripMarks(b), k)
    ensures PrunedAlike(a, c, b, k)
  {
    if k in b.entries && Marked(b.entries[k]) {
      var y := b.entries[k];
      assert StripMarks(b).entries[k] == Without(y, {OVERRIDE});
      hide LeftAlike, Prune, Survives, Marked;
      if k in a.entries && k in c.entries {
        AlikeOverMarked(a.entries[k], c.entries[k], y);
      } else if k in a.entries {
        EmptyOverMarked(a.entries[k], y);
      } else if k in c.entries {
        EmptyOverMarked(c.entries[k], y);
      }
    }
  }

  /** Children without markers that mean the same are minimised to the same file. */
  lemma MinimizedIsCanonical(a: Tree, c: Tree, parent: Source)
    requires a.Mapping? && c.Mapping? && WellFormed(a) && WellFormed(c) && Unmarked(a) && Unmarked(c)
    requires Valid(parent) && Valid(Child(a, parent)) && Valid(Child(c, parent))
    requires Same(Expand(Child(a, parent)), Expand(Child(c, parent)))
    ensures Same(PruneMapping(a, Expand(parent)), PruneMapping(c, Expand(parent)))
  {
    var b := Expand(parent);
    ExpandWellFormed(parent);
    StripMarksWellFormed(b);
    OverNothing(b);
    ExpandChild(a, parent);
    ExpandChild(c, parent);
    OverUnmarkedIsMerge(StripMarks(b), a);
    OverUnmarkedIsMerge(StripMarks(b), c);
    CanonicalOverMarks(a, c, b);
  }

  lemma CanonicalOverMarks(a: Tree, c: Tree, b: Tree)
    requires a.Mapping? && c.Mapping? && b.Mapping? && Unmarked(a) && Unmarked(c)
    requires WellFormed(a) && WellFormed(c) && WellFormed(StripMarks(b))
    requires Same(Merge(StripMarks(b), a), Merge(StripMarks(b), c))
    ensures Same(PruneMapping(a, b), PruneMapping(c, b))
  {
    hide Same, WellFormed, Unmarked, Prune, Merge, StripMarks, PruneMapping;
    forall k: string
      ensures PrunedAlike(a, c, b, k)
    {
      hide PrunedAlike;
      if k in a.entries || k in c.entries {
        AlikeAt(a, c, StripMarks(b), k);
        AlikeOverMarks(a, c, b, k);
      } else {
        SilentAlike(a, c, b, k);
      }
    }
    PrunedAlikeEverywhere(a, c, b);
  }

  lemma SilentAlike(a: Tree, c: Tree, b: Tree, k: string)
    requires a.Mapping? && c.Mapping? && b.Mapping? && k !in a.entries && k !in c.entries
    ensures PrunedAlike(a, c, b, k)
  {}

  // --------------------------------------------------------------- witnesses

  const TWO := Leaf(Number(2.0))
  const X_TWO := Mapping([OVERRIDE, "x"], map[OVERRIDE := Leaf(Bool(true)), "x" := TWO])
  const REPLACING := Mapping(["s"], map["s" := X_TWO])

  /** A marker that changes nothing, since the section speaks about all it would inherit, is kept:
      pruning leaves the child as it is, safely, and yet its marker is redundant. So overriding children
      have more than one minimised form. */
  lemma MarkerCanBeRedundant()
    ensures var parent, path := Source(REBASED_OWN, NoDefaults), ["s", OVERRIDE];
      && Valid(parent) && WellFormed(REPLACING) && HasPath(REPLACING, path)
      && PruneMapping(REPLACING, Expand(parent)) == REPLACING && SafeToMinimize(REPLACING, Expand(parent))
      && PruneMapping(Delete(REPLACING, path), Expand(parent)) == Delete(REPLACING, path)
      && Valid(Child(Delete(REPLACING, path), parent)) && Valid(Child(REPLACING, parent))
      && Same(Expand(Child(Delete(REPLACING, path), parent)), Expand(Child(REPLACING, parent)))
  {
    WitnessesWellFormed();
    TwoKeysWellFormed(OVERRIDE, Leaf(Bool(true)), "x", TWO);
    OneKeyWellFormed("s", X_TWO);
    OverridingOwnValue();
    MarkerAddsNothing();
    WithoutMarkerNormal();
    assert Valid(Source(REBASED_OWN, NoDefaults));
    hide *;
    ExpansionNeedsIff(REPLACING, Source(REBASED_OWN, NoDefaults), ["s", OVERRIDE]);
  }

  lemma MarkerAddsNothing()
    ensures HasPath(REPLACING, ["s", OVERRIDE]) && Redundant(StripMarks(REBASED_OWN), REPLACING, ["s", OVERRIDE])
  {
    var path := ["s", OVERRIDE];
    assert path[1..] == [OVERRIDE] && Marked(X_TWO);
    var z, alone := REBASED_OWN.entries["s"], StripMark(X_TWO);
    assert StripMarks(REBASED_OWN).entries["s"] == z;
    assert alone.entries.Keys == {"x"};
    assert Merge(z, alone).entries["x"] == TWO;
    assert Same(Merge(z, alone), alone);
    hide Same, Merge;
    assert RedundantInOverride(StripMarks(REBASED_OWN), REPLACING, path);
  }

  lemma WithoutMarkerNormal()
    ensures HasPath(REPLACING, ["s", OVERRIDE])
    ensures Normal(Delete(REPLACING, ["s", OVERRIDE]), REBASED_OWN)
  {
    var path := ["s", OVERRIDE];
    assert path[1..] == [OVERRIDE];
    var d, y := Delete(REPLACING, path), REBASED_OWN.entries["s"];
    var x := Without(X_TWO, {OVERRIDE});
    assert Delete(X_TWO, [OVERRIDE]) == x;
    assert d.entries["s"] == x && "x" in x.entries;
    PruneSkipsMark(X_TWO, y);
    OverridingOwnValue();
    assert PruneMapping(x, y) == x;
    assert SurvivingKeys(d, REBASED_OWN) == d.entries.Keys;
    RestrictAll(d.order, d.entries.Keys);
    assert PruneMapping(d, REBASED_OWN).entries == d.entries;
  }

  lemma OverridingOwnValue()
    ensures PruneMapping(REPLACING, REBASED_OWN) == REPLACING && SafeToMinimize(REPLACING, REBASED_OWN)
    ensures PruneMapping(X_TWO, REBASED_OWN.entries["s"]) == X_TWO
  {
    var y := REBASED_OWN.entries["s"];
    assert Prune(TWO, ONE) == Kept(TWO);
    assert SurvivingKeys(X_TWO, y) == X_TWO.entries.Keys;
    RestrictAll(X_TWO.order, X_TWO.entries.Keys);
    assert PruneMapping(X_TWO, y).entries == X_TWO.entries;
    assert SurvivingKeys(REPLACING, REBASED_OWN) == REPLACING.entries.Keys;
    RestrictAll(REPLACING.order, REPLACING.entries.Keys);
    assert PruneMapping(REPLACING, REBASED_OWN).entries == REPLACING.entries;
    assert Marked(X_TWO) && !MarkerInherited(X_TWO, y);
    assert NothingInherited(Without(X_TWO, {OVERRIDE}), y);
    assert SafeSection(X_TWO, y);
  }

  const RAW := Mapping(["y"], map["y" := ONE])
  const GRAND := Mapping(["x"], map["x" := ONE])
  const RAW_BASE := Source(RAW, Defaults([Source(GRAND, NoDefaults)]))

  /** With `--base`, what the base only inherits is not taken out. */
  lemma RebasedKeepsInherited()
    ensures RawFileOf(RAW, RAW_BASE) && WellFormed(GRAND) && HasPath(GRAND, ["x"])
    ensures PruneMapping(GRAND, RAW) == GRAND && SafeToMinimize(GRAND, RAW)
    ensures Valid(Child(Delete(GRAND, ["x"]), RAW_BASE)) && Valid(Child(GRAND, RAW_BASE))
    ensures Same(Expand(Child(Delete(GRAND, ["x"]), RAW_BASE)), Expand(Child(GRAND, RAW_BASE)))
  {
    OneKeyWellFormed("x", ONE);
    OneKeyWellFormed("y", ONE);
    WithoutNothing(RAW, {DEFAULTS});
    assert SurvivingKeys(GRAND, RAW) == GRAND.entries.Keys;
    RestrictAll(GRAND.order, GRAND.entries.Keys);
    assert PruneMapping(GRAND, RAW).entries == GRAND.entries;
    ExpansionNeedsIff(GRAND, RAW_BASE, ["x"]);
    ExpandChild(RAW, Source(GRAND, NoDefaults));
    var e := Inherited(RAW_BASE);
    assert "x" in e.entries && e.entries["x"] == ONE;
  }
}
