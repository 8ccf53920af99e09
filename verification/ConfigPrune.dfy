/** Pruning a child configuration against what it inherits, and the theorems
    that make the pruned child a meaning-preserving, canonical, minimal form. */
module ConfigPrune {
  import opened ConfigTree

  datatype Pruned = Removed | Kept(tree: Tree)

  /** What is left of `a` once everything equal to `b` is taken out. */
  function Prune(a: Tree, b: Tree): (p: Pruned)
    ensures a.Mapping? && b.Mapping? ==> p.Kept? && p.tree.Mapping?
    decreases a, 1
  {
    if a.Mapping? && b.Mapping? then
      Kept(Mapping(
        Restrict(a.order, SurvivingKeys(a, b)),
        map k | k in SurvivingKeys(a, b) ::
          if k in b.entries then Prune(a.entries[k], b.entries[k]).tree else a.entries[k]))
    else if Same(a, b) then Removed
    else Kept(a)
  }

  /** The keys that stay: those new to `b`, and those whose pruned value still has content. */
  function SurvivingKeys(a: Tree, b: Tree): (keys: set<string>)
    requires a.Mapping? && b.Mapping?
    ensures keys <= a.entries.Keys
    ensures forall k | k in keys && k in b.entries :: Prune(a.entries[k], b.entries[k]).Kept?
    decreases a, 0
  {
    set k | k in a.entries && (k in b.entries ==> Survives(Prune(a.entries[k], b.entries[k])))
  }

  predicate Survives(p: Pruned) {
    p.Kept? && !Empty(p.tree)
  }

  function PruneMapping(a: Tree, b: Tree): (p: Tree)
    requires a.Mapping? && b.Mapping?
    ensures p.Mapping? && p.entries.Keys == SurvivingKeys(a, b)
  {
    Prune(a, b).tree
  }

  /** The recursion as the tool runs it, filling `order` and `entries` key by key. */
  method PruneEqual(a: Tree, b: Tree) returns (p: Pruned)
    requires WellFormed(a)
    ensures p == Prune(a, b)
    decreases a
  {
    hide WellFormed;
    hide Restrict;
    hide Same;
    if a.Mapping? && b.Mapping? {
      WellFormedKeys(a);
      var order, entries := [], map[];
      var i := 0;
      assert a.order[..0] == [];
      RestrictNothing(SurvivingKeys(a, b));
      while i < |a.order|
        invariant 0 <= i <= |a.order|
        invariant order == Restrict(a.order[..i], SurvivingKeys(a, b))
        invariant forall k :: k in entries <==> k in order
        invariant forall k | k in entries ::
          entries[k] == if k in b.entries then Prune(a.entries[k], b.entries[k]).tree else a.entries[k]
      {
        var key := a.order[i];
        RestrictStep(a.order, i, SurvivingKeys(a, b));
        assert key in a.entries;
        if key in b.entries {
          WellFormedEntry(a, key);
          var pruned := PruneEqual(a.entries[key], b.entries[key]);
          if pruned.Kept? && !Empty(pruned.tree) {
            order, entries := order + [key], entries[key := pruned.tree];
          }
        } else {
          order, entries := order + [key], entries[key := a.entries[key]];
        }
        i := i + 1;
      }
      assert a.order[..i] == a.order;
      assert entries == Prune(a, b).tree.entries;
      return Kept(Mapping(order, entries));
    }
    if a.Listing? && b.Listing? && |a.items| == |b.items| {
      if Same(a, b) { return Removed; }
      return Kept(a);
    }
    if Same(a, b) { return Removed; }
    return Kept(a);
  }

  lemma RestrictNothing(keys: set<string>)
    ensures Restrict([], keys) == []
  {}

  lemma {:induction false} RestrictStep(order: seq<string>, i: nat, keys: set<string>)
    requires i < |order|
    ensures Restrict(order[..i + 1], keys)
         == Restrict(order[..i], keys) + (if order[i] in keys then [order[i]] else [])
  {
    if i == 0 {
      assert order[..1][1..] == [];
    } else {
      assert order[..i + 1][1..] == order[1..][..i];
      assert order[..i][1..] == order[1..][..i - 1];
      RestrictStep(order[1..], i - 1, keys);
    }
  }

  lemma {:induction false} PruneWellFormed(a: Tree, b: Tree)
    requires WellFormed(a)
    ensures Prune(a, b).Kept? ==> WellFormed(Prune(a, b).tree)
    decreases a
  {
    if a.Mapping? && b.Mapping? {
      RestrictDistinct(a.order, SurvivingKeys(a, b));
      forall k | k in SurvivingKeys(a, b) && k in b.entries
        ensures WellFormed(Prune(a.entries[k], b.entries[k]).tree)
      {
        PruneWellFormed(a.entries[k], b.entries[k]);
      }
    }
  }

  // ---------------------------------------------------------------- meaning

  /** No empty list or mapping of the child sits over an unequal inherited value
      of another shape. An empty mapping over a mapping is harmless. */
  predicate Preservable(a: Tree, b: Tree)
    decreases a
  {
    if a.Mapping? && b.Mapping? then
      forall k | k in a.entries && k in b.entries :: Preservable(a.entries[k], b.entries[k])
    else !(Empty(a) && !Same(a, b))
  }

  /** Wherever `a` speaks, `e` carries what `b` says: the pruning base `b` may be
      a raw file and `e` its expansion. */
  predicate Backed(a: Tree, b: Tree, e: Tree)
    decreases a
  {
    if b.Mapping? then
      && e.Mapping?
      && (a.Mapping? ==> forall k | k in a.entries && k in b.entries ::
            k in e.entries && Backed(a.entries[k], b.entries[k], e.entries[k]))
    else e == b
  }

  lemma BackedReflexive(a: Tree, b: Tree)
    ensures Backed(a, b, b)
    decreases a
  {}

  /** Meaning, exactly: the pruned child expands like the child if and only if
      no empty container hides a different inherited value. */
  lemma {:induction false} PrunePreservesMergeIff(a: Tree, b: Tree, e: Tree)
    requires a.Mapping? && b.Mapping? && Backed(a, b, e)
    requires WellFormed(a) && WellFormed(b) && WellFormed(e)
    ensures Same(Merge(e, PruneMapping(a, b)), Merge(e, a)) <==> Preservable(a, b)
    decreases a, 1
  {
    hide Same;
    hide WellFormed;
    hide Prune;
    hide SurvivingKeys;
    var left, right := Merge(e, PruneMapping(a, b)), Merge(e, a);
    var same := (k: string) => k in a.entries && k in b.entries ==> Preservable(a.entries[k], b.entries[k]);
    PruneKeepsKeys(a, b, e);
    forall k | k in right.entries
      ensures Same(left.entries[k], right.entries[k]) <==> same(k)
    {
      if k in a.entries && k in b.entries {
        PruneEntryIff(a, b, e, k);
      } else {
        PrunedElsewhere(a, b, k);
        SameReflexive(left.entries[k]);
      }
    }
    SameEntrywise(left, right, same);
    assert Preservable(a, b) <==> forall k | k in right.entries :: same(k);
  }

  lemma PruneKeepsKeys(a: Tree, b: Tree, e: Tree)
    requires a.Mapping? && b.Mapping? && Backed(a, b, e)
    ensures Merge(e, PruneMapping(a, b)).entries.Keys == Merge(e, a).entries.Keys
  {}

  lemma PrunedElsewhere(a: Tree, b: Tree, k: string)
    requires a.Mapping? && b.Mapping? && !(k in a.entries && k in b.entries)
    ensures k in PruneMapping(a, b).entries <==> k in a.entries
    ensures k in a.entries ==> PruneMapping(a, b).entries[k] == a.entries[k]
  {}

  lemma {:induction false} PruneEntryIff(a: Tree, b: Tree, e: Tree, k: string)
    requires a.Mapping? && b.Mapping? && Backed(a, b, e) && k in a.entries && k in b.entries
    requires WellFormed(a) && WellFormed(b) && WellFormed(e)
    ensures k in e.entries
    ensures Same(Merge(e, PruneMapping(a, b)).entries[k], Merge(e, a).entries[k])
        <==> Preservable(a.entries[k], b.entries[k])
    decreases a, 0
  {
    PrunedEntry(a, b, k);
    assert Merge(e, PruneMapping(a, b)).entries[k] == Restored(a.entries[k], b.entries[k], e.entries[k]);
    assert Merge(e, a).entries[k] == Merge(e.entries[k], a.entries[k]);
    RestoredIff(a.entries[k], b.entries[k], e.entries[k]);
  }

  /** What the merge finds at a key once its value `x` was pruned against `y` and `z` is inherited. */
  function Restored(x: Tree, y: Tree, z: Tree): Tree {
    if Survives(Prune(x, y)) then Merge(z, Prune(x, y).tree) else z
  }

  lemma {:induction false} RestoredIff(x: Tree, y: Tree, z: Tree)
    requires Backed(x, y, z) && WellFormed(x) && WellFormed(y) && WellFormed(z)
    ensures Same(Restored(x, y, z), Merge(z, x)) <==> Preservable(x, y)
    decreases x, 2
  {
    if x.Mapping? && y.Mapping? {
      PrunePreservesMergeIff(x, y, z);
      PruneWellFormed(x, y);
      if Empty(PruneMapping(x, y)) {
        MergeNothing(z, PruneMapping(x, y));
      }
    } else {
      assert Merge(z, x) == x;
      SameReflexive(x);
      if Same(x, y) {
        SameSymmetric(x, y);
      } else if Same(z, x) {
        SameSymmetric(z, x);
      }
    }
  }

  lemma PrunedEntry(a: Tree, b: Tree, k: string)
    requires a.Mapping? && b.Mapping? && k in a.entries && k in b.entries
    ensures k in PruneMapping(a, b).entries <==> Survives(Prune(a.entries[k], b.entries[k]))
    ensures k in PruneMapping(a, b).entries ==>
      PruneMapping(a, b).entries[k] == Prune(a.entries[k], b.entries[k]).tree
  {}

  // ------------------------------------------------------------ normal form

  /** Pruning twice is pruning once, key order included. */
  lemma {:induction false} PruneIdempotent(a: Tree, b: Tree)
    requires Prune(a, b).Kept?
    ensures Prune(Prune(a, b).tree, b) == Prune(a, b)
    decreases a
  {
    if a.Mapping? && b.Mapping? {
      var p := PruneMapping(a, b);
      forall k | k in p.entries && k in b.entries
        ensures Prune(p.entries[k], b.entries[k]) == Prune(a.entries[k], b.entries[k])
      {
        PruneIdempotent(a.entries[k], b.entries[k]);
      }
      assert SurvivingKeys(p, b) == SurvivingKeys(a, b);
      RestrictAll(p.order, SurvivingKeys(a, b));
      assert PruneMapping(p, b).entries == p.entries;
    }
  }

  /** A mapping that pruning leaves alone. */
  predicate Normal(c: Tree, b: Tree) {
    c.Mapping? && b.Mapping? && PruneMapping(c, b) == c
  }

  lemma NormalEntry(c: Tree, b: Tree, k: string)
    requires Normal(c, b) && k in c.entries && k in b.entries
    ensures Prune(c.entries[k], b.entries[k]) == Kept(c.entries[k]) && !Empty(c.entries[k])
    ensures c.entries[k].Mapping? && b.entries[k].Mapping? ==> Normal(c.entries[k], b.entries[k])
    ensures !(c.entries[k].Mapping? && b.entries[k].Mapping?) ==> !Same(c.entries[k], b.entries[k])
  {
    var p := PruneMapping(c, b);
    assert k in SurvivingKeys(c, b);
    assert p.entries[k] == Prune(c.entries[k], b.entries[k]).tree;
  }

  /** Adding content that pruning keeps always changes the base. */
  lemma {:induction false} NormalContentShows(c: Tree, b: Tree)
    requires Normal(c, b) && !Empty(c) && WellFormed(c) && WellFormed(b)
    ensures !Same(Merge(b, c), b)
    decreases c
  {
    var k :| k in c.entries;
    var m := Merge(b, c);
    assert k in m.entries;
    if k in b.entries {
      NormalEntry(c, b, k);
      var x, y := c.entries[k], b.entries[k];
      assert m.entries[k] == Merge(y, x);
      if x.Mapping? && y.Mapping? {
        NormalContentShows(x, y);
      }
    }
  }

  /** Two normal forms with the same expansion are the same configuration, so
      the pruned child is the only normal form of its meaning. */
  lemma {:induction false} NormalFormUnique(c: Tree, d: Tree, b: Tree)
    requires Normal(c, b) && Normal(d, b)
    requires WellFormed(c) && WellFormed(d) && WellFormed(b)
    requires Same(Merge(b, c), Merge(b, d))
    ensures Same(c, d)
    decreases c
  {
    NormalKeysAgree(c, d, b);
    SameSymmetric(Merge(b, c), Merge(b, d));
    NormalKeysAgree(d, c, b);
    forall k | k in c.entries
      ensures Same(c.entries[k], d.entries[k])
    {
      var x, y := c.entries[k], d.entries[k];
      assert Same(Merge(b, c).entries[k], Merge(b, d).entries[k]);
      if k in b.entries {
        NormalEntry(c, b, k);
        NormalEntry(d, b, k);
        if b.entries[k].Mapping? && x.Mapping? && y.Mapping? {
          NormalFormUnique(x, y, b.entries[k]);
        }
      }
    }
  }

  lemma NormalKeysAgree(c: Tree, d: Tree, b: Tree)
    requires Normal(c, b) && Normal(d, b)
    requires WellFormed(c) && WellFormed(d) && WellFormed(b)
    requires Same(Merge(b, c), Merge(b, d))
    ensures c.entries.Keys <= d.entries.Keys
  {
    forall k | k in c.entries
      ensures k in d.entries
    {
      var m, n := Merge(b, c), Merge(b, d);
      assert k in m.entries && k in n.entries;
      if k !in d.entries {
        NormalEntry(c, b, k);
        var x, y := c.entries[k], b.entries[k];
        assert Same(Merge(y, x), y);
        if x.Mapping? && y.Mapping? {
          NormalContentShows(x, y);
        }
        assert false;
      }
    }
  }

  /** A list goes whole or stays whole: an index it shares with the base is never taken out alone. */
  lemma ListsArePrunedWhole(a: Tree, b: Tree)
    requires a.Listing?
    ensures Prune(a, b) == if Same(a, b) then Removed else Kept(a)
    ensures var one, two, three := Leaf(Number(1.0)), Leaf(Number(2.0)), Leaf(Number(3.0));
      Prune(Listing([one, two]), Listing([one, three])) == Kept(Listing([one, two]))
  {
    var one, two, three := Leaf(Number(1.0)), Leaf(Number(2.0)), Leaf(Number(3.0));
    assert !Same([one, two][1], [one, three][1]);
  }

  // ------------------------------------------------------------- minimality

  /** `path` leads to an entry of `t`. */
  predicate HasPath(t: Tree, path: seq<string>)
    decreases path
  {
    && path != []
    && t.Mapping?
    && path[0] in t.entries
    && (|path| > 1 ==> HasPath(t.entries[path[0]], path[1..]))
  }

  /** `t` with the entry at `path` deleted. */
  function Delete(t: Tree, path: seq<string>): (r: Tree)
    requires HasPath(t, path)
    ensures r.Mapping?
    decreases path
  {
    if |path| == 1 then Without(t, {path[0]})
    else Mapping(t.order, t.entries[path[0] := Delete(t.entries[path[0]], path[1..])])
  }

  lemma {:induction false} DeletedDiffers(t: Tree, path: seq<string>)
    requires HasPath(t, path)
    ensures !Same(Delete(t, path), t)
    decreases path
  {
    var k := path[0];
    assert k in t.entries;
    if |path| > 1 {
      DeletedDiffers(t.entries[k], path[1..]);
      assert !Same(Delete(t, path).entries[k], t.entries[k]);
    }
  }

  /** Minimality: every entry a normal form keeps, at any depth, is needed. */
  lemma {:induction false} NothingKeptIsRedundant(c: Tree, b: Tree, path: seq<string>)
    requires Normal(c, b) && HasPath(c, path) && WellFormed(c) && WellFormed(b)
    ensures !Same(Merge(b, Delete(c, path)), Merge(b, c))
    decreases path
  {
    hide Same;
    hide WellFormed;
    hide Prune;
    hide SurvivingKeys;
    var k := path[0];
    var left, right := Merge(b, Delete(c, path)), Merge(b, c);
    assert k in right.entries;
    if k !in left.entries {
    } else if k !in b.entries {
      DeletedDiffers(c.entries[k], path[1..]);
      assert left.entries[k] == Delete(c.entries[k], path[1..]);
      assert right.entries[k] == c.entries[k];
    } else {
      NormalEntry(c, b, k);
      WellFormedEntry(c, k);
      WellFormedEntry(b, k);
      assert right.entries[k] == Merge(b.entries[k], c.entries[k]);
      if |path| == 1 {
        assert left.entries[k] == b.entries[k];
        ShadowingShows(c.entries[k], b.entries[k]);
      } else {
        assert left.entries[k] == Merge(b.entries[k], Delete(c.entries[k], path[1..]));
        if b.entries[k].Mapping? {
          NothingKeptIsRedundant(c.entries[k], b.entries[k], path[1..]);
        } else {
          DeletedDiffers(c.entries[k], path[1..]);
        }
      }
    }
    NotSameAt(left, right, k);
  }

  lemma NotSameAt(left: Tree, right: Tree, k: string)
    requires left.Mapping? && right.Mapping? && k in right.entries
    requires k in left.entries ==> !Same(left.entries[k], right.entries[k])
    ensures !Same(left, right)
  {}

  /** A kept value is visible over the one it shadows. */
  lemma ShadowingShows(x: Tree, y: Tree)
    requires WellFormed(x) && WellFormed(y)
    requires !Empty(x) && (if x.Mapping? && y.Mapping? then Normal(x, y) else !Same(x, y))
    ensures !Same(y, Merge(y, x))
  {
    if x.Mapping? && y.Mapping? {
      NormalContentShows(x, y);
    }
    if Same(y, Merge(y, x)) { SameSymmetric(y, Merge(y, x)); }
  }

  /** So what pruning returns is minimal over the tree it was pruned against. */
  lemma PrunedIsMinimal(a: Tree, b: Tree, path: seq<string>)
    requires a.Mapping? && b.Mapping? && WellFormed(a) && WellFormed(b)
    requires HasPath(PruneMapping(a, b), path)
    ensures !Same(Merge(b, Delete(PruneMapping(a, b), path)), Merge(b, PruneMapping(a, b)))
  {
    PruneIdempotent(a, b);
    PruneWellFormed(a, b);
    NothingKeptIsRedundant(PruneMapping(a, b), b, path);
  }

  // -------------------------------------------------------------- canonicity

  /** A value that adds nothing to the base leaves nothing behind. */
  lemma {:induction false} NothingAddedNothingLeft(x: Tree, y: Tree)
    requires Same(Merge(y, x), y) && WellFormed(x)
    ensures !Survives(Prune(x, y))
    decreases x
  {
    if x.Mapping? && y.Mapping? {
      forall k | k in x.entries
        ensures k !in SurvivingKeys(x, y)
      {
        assert k in Merge(y, x).entries;
        assert Same(Merge(y.entries[k], x.entries[k]), y.entries[k]);
        NothingAddedNothingLeft(x.entries[k], y.entries[k]);
      }
      assert PruneMapping(x, y).entries == map[];
    }
  }

  /** Pruning leaves nothing of either value, or the same of both. */
  predicate LeftAlike(x: Tree, w: Tree, y: Tree) {
    && (Survives(Prune(x, y)) <==> Survives(Prune(w, y)))
    && (Survives(Prune(x, y)) ==> Same(Prune(x, y).tree, Prune(w, y).tree))
  }

  /** Pruning treats `a` and `c` alike at a key both or neither keep. */
  predicate PrunedAlike(a: Tree, c: Tree, b: Tree, k: string)
    requires a.Mapping? && c.Mapping? && b.Mapping?
  {
    if k !in b.entries then
      (k in a.entries <==> k in c.entries) && (k in a.entries ==> Same(a.entries[k], c.entries[k]))
    else if k in a.entries && k in c.entries then LeftAlike(a.entries[k], c.entries[k], b.entries[k])
    else if k in a.entries then !Survives(Prune(a.entries[k], b.entries[k]))
    else k in c.entries ==> !Survives(Prune(c.entries[k], b.entries[k]))
  }

  lemma PrunedAlikeEverywhere(a: Tree, c: Tree, b: Tree)
    requires a.Mapping? && c.Mapping? && b.Mapping?
    requires forall k :: PrunedAlike(a, c, b, k)
    ensures Same(PruneMapping(a, b), PruneMapping(c, b))
  {
    hide Same;
    hide Prune;
    hide SurvivingKeys;
    var p, q := PruneMapping(a, b), PruneMapping(c, b);
    forall k: string
      ensures k in p.entries <==> k in q.entries
      ensures k in p.entries && k in q.entries ==> Same(p.entries[k], q.entries[k])
    {
      assert PrunedAlike(a, c, b, k);
      PrunedAt(a, b, k);
      PrunedAt(c, b, k);
    }
    SameEntrywise(p, q, _ => true);
  }

  lemma PrunedAt(a: Tree, b: Tree, k: string)
    requires a.Mapping? && b.Mapping?
    ensures k in PruneMapping(a, b).entries <==>
      k in a.entries && (k in b.entries ==> Survives(Prune(a.entries[k], b.entries[k])))
    ensures k in PruneMapping(a, b).entries ==>
      PruneMapping(a, b).entries[k] == (if k in b.entries then Prune(a.entries[k], b.entries[k]).tree else a.entries[k])
  {}

  /** Two children with one meaning prune to one form, whether or not pruning keeps that meaning. */
  lemma {:induction false} PrunedIsCanonical(a: Tree, c: Tree, b: Tree)
    requires a.Mapping? && c.Mapping? && b.Mapping?
    requires WellFormed(a) && WellFormed(c) && WellFormed(b)
    requires Same(Merge(b, a), Merge(b, c))
    ensures Same(PruneMapping(a, b), PruneMapping(c, b))
    decreases a, 1
  {
    forall k: string
      ensures PrunedAlike(a, c, b, k)
    {
      if k in a.entries || k in c.entries {
        AlikeAt(a, c, b, k);
      }
    }
    PrunedAlikeEverywhere(a, c, b);
  }

  lemma {:induction false} AlikeAt(a: Tree, c: Tree, b: Tree, k: string)
    requires a.Mapping? && c.Mapping? && b.Mapping? && (k in a.entries || k in c.entries)
    requires WellFormed(a) && WellFormed(c) && WellFormed(b)
    requires Same(Merge(b, a), Merge(b, c))
    ensures PrunedAlike(a, c, b, k)
    decreases a, 0
  {
    var m, n := Merge(b, a), Merge(b, c);
    assert k in m.entries && k in n.entries && Same(m.entries[k], n.entries[k]);
    hide Prune;
    if k in b.entries {
      if k !in c.entries {
        NothingAddedNothingLeft(a.entries[k], b.entries[k]);
      } else if k !in a.entries {
        SameSymmetric(m.entries[k], n.entries[k]);
        NothingAddedNothingLeft(c.entries[k], b.entries[k]);
      } else {
        ValuesLeftAlike(a.entries[k], c.entries[k], b.entries[k]);
      }
    }
  }

  lemma {:induction false} ValuesLeftAlike(x: Tree, w: Tree, y: Tree)
    requires Same(Merge(y, x), Merge(y, w)) && WellFormed(x) && WellFormed(w) && WellFormed(y)
    ensures LeftAlike(x, w, y)
    decreases x, 2
  {
    if y.Mapping? && x.Mapping? && w.Mapping? {
      PrunedIsCanonical(x, w, y);
    } else {
      assert Same(x, w);
      SameSymmetric(x, w);
      if Same(x, y) { SameTransitive(w, x, y); }
      if Same(w, y) { SameTransitive(x, w, y); }
    }
  }
}
