/** Pruning as `_prune_equal` is documented, lists taken apart index by index, and when the code does that. */
module DocumentedPruning {
  import opened ConfigTree
  import opened ConfigPrune

  predicate Aligned(a: Tree, b: Tree) {
    a.Listing? && b.Listing? && |a.items| == |b.items|
  }

  function Documented(a: Tree, b: Tree): (p: Pruned)
    ensures a.Mapping? && b.Mapping? ==> p.Kept? && p.tree.Mapping?
    decreases a, 1, 0
  {
    if a.Mapping? && b.Mapping? then
      Kept(Mapping(
        Restrict(a.order, DocumentedKeys(a, b)),
        map k | k in DocumentedKeys(a, b) ::
          if k in b.entries then Documented(a.entries[k], b.entries[k]).tree else a.entries[k]))
    else if Same(a, b) then Removed
    else if Aligned(a, b) then
      var items := ByIndex(a, b, |a.items|);
      if items == [] then Removed else Kept(Listing(items))
    else Kept(a)
  }

  function DocumentedKeys(a: Tree, b: Tree): (keys: set<string>)
    requires a.Mapping? && b.Mapping?
    ensures keys <= a.entries.Keys
    ensures forall k | k in keys && k in b.entries :: Documented(a.entries[k], b.entries[k]).Kept?
    decreases a, 0, 0
  {
    set k | k in a.entries && (k in b.entries ==> Survives(Documented(a.entries[k], b.entries[k])))
  }

  lemma DocumentedEntry(a: Tree, b: Tree, k: string)
    requires a.Mapping? && b.Mapping?
    ensures var d := Documented(a, b).tree;
      && (k in d.entries <==>
            k in a.entries && (k in b.entries ==> Survives(Documented(a.entries[k], b.entries[k]))))
      && (k in d.entries ==>
            d.entries[k] == (if k in b.entries then Documented(a.entries[k], b.entries[k]).tree else a.entries[k]))
  {}

  /** What is left of the first `n` items, each pruned against the item at its index. */
  function ByIndex(a: Tree, b: Tree, n: nat): (items: seq<Tree>)
    requires Aligned(a, b) && n <= |a.items|
    ensures |items| <= n
    decreases a, 0, n
  {
    if n == 0 then []
    else
      var p := Documented(a.items[n - 1], b.items[n - 1]);
      ByIndex(a, b, n - 1) + if Survives(p) then [p.tree] else []
  }

  /** By the documentation nothing would be taken out of `u`. */
  predicate KeptWhole(u: Tree, v: Tree)
    decreases u
  {
    && !Empty(u)
    && if u.Mapping? && v.Mapping? then forall k | k in u.entries && k in v.entries :: KeptWhole(u.entries[k], v.entries[k])
       else !Same(u, v) && (Aligned(u, v) ==> forall i | 0 <= i < |u.items| :: KeptWhole(u.items[i], v.items[i]))
  }

  /** No two lists of the same length, different and in the same place, share anything at an index, nor
      does the first hold anything empty there. */
  predicate AsDocumented(a: Tree, b: Tree)
    decreases a
  {
    if a.Mapping? && b.Mapping? then forall k | k in a.entries && k in b.entries :: AsDocumented(a.entries[k], b.entries[k])
    else Aligned(a, b) ==> Same(a, b) || forall i | 0 <= i < |a.items| :: KeptWhole(a.items[i], b.items[i])
  }

  lemma {:induction false} KeptWholeIff(u: Tree, v: Tree)
    requires WellFormed(u)
    ensures KeptWhole(u, v) <==> Survives(Documented(u, v)) && Documented(u, v).tree == u
    decreases u, 1, 0
  {
    if u.Mapping? && v.Mapping? {
      KeptMappingIff(u, v);
    } else if Aligned(u, v) && !Same(u, v) {
      ByIndexWhole(u, v, |u.items|);
      assert u.items[..|u.items|] == u.items;
    }
  }

  lemma {:induction false} KeptMappingIff(u: Tree, v: Tree)
    requires WellFormed(u) && u.Mapping? && v.Mapping?
    ensures KeptWhole(u, v) <==> Survives(Documented(u, v)) && Documented(u, v).tree == u
    decreases u, 0, 0
  {
    var d := Documented(u, v).tree;
    forall k | k in u.entries && k in v.entries
      ensures KeptWhole(u.entries[k], v.entries[k]) <==>
        Survives(Documented(u.entries[k], v.entries[k])) && Documented(u.entries[k], v.entries[k]).tree == u.entries[k]
    {
      KeptWholeIff(u.entries[k], v.entries[k]);
    }
    WellFormedKeys(u);
    hide WellFormed, Same;
    if KeptWhole(u, v) {
      assert DocumentedKeys(u, v) == u.entries.Keys;
      RestrictAll(u.order, u.entries.Keys);
      assert d.entries == u.entries;
    }
    if d == u {
      forall k | k in u.entries && k in v.entries
        ensures KeptWhole(u.entries[k], v.entries[k])
      {
        DocumentedEntry(u, v, k);
      }
    }
  }

  lemma {:induction false} ByIndexWhole(a: Tree, b: Tree, n: nat)
    requires Aligned(a, b) && n <= |a.items| && WellFormed(a)
    ensures ByIndex(a, b, n) == a.items[..n] <==> forall i | 0 <= i < n :: KeptWhole(a.items[i], b.items[i])
    decreases a, 0, n
  {
    if n > 0 {
      ByIndexWhole(a, b, n - 1);
      KeptWholeIff(a.items[n - 1], b.items[n - 1]);
      hide Documented, KeptWhole;
      var before, all := ByIndex(a, b, n - 1), ByIndex(a, b, n);
      assert a.items[..n] == a.items[..n - 1] + [a.items[n - 1]];
      if all == a.items[..n] {
        assert all[..n - 1] == before && all[n - 1] == a.items[n - 1];
      }
    }
  }

  /** The documented pruning takes out at least as much. */
  lemma {:induction false} NothingLeftEither(x: Tree, y: Tree)
    requires !Survives(Prune(x, y))
    ensures Prune(x, y) == Documented(x, y)
    decreases x
  {
    if x.Mapping? && y.Mapping? {
      forall k | k in x.entries
        ensures k in y.entries && !Survives(Documented(x.entries[k], y.entries[k]))
      {
        assert k !in PruneMapping(x, y).entries;
        NothingLeftEither(x.entries[k], y.entries[k]);
      }
      assert PruneMapping(x, y).entries == map[];
      assert SurvivingKeys(x, y) == {};
      assert DocumentedKeys(x, y) == {};
      assert Documented(x, y).tree.entries == map[];
    }
  }

  /** The code prunes as documented, at every depth, if and only if nothing would be taken out of an item of
      two different lists of one length. */
  lemma {:induction false} PrunesAsDocumentedIff(a: Tree, b: Tree)
    requires WellFormed(a)
    ensures Prune(a, b) == Documented(a, b) <==> AsDocumented(a, b)
    decreases a
  {
    if a.Mapping? && b.Mapping? {
      forall k | k in a.entries && k in b.entries
        ensures Prune(a.entries[k], b.entries[k]) == Documented(a.entries[k], b.entries[k])
            <==> AsDocumented(a.entries[k], b.entries[k])
      {
        PrunesAsDocumentedIff(a.entries[k], b.entries[k]);
      }
      MappingsAsDocumented(a, b);
    } else if Aligned(a, b) && !Same(a, b) {
      ByIndexWhole(a, b, |a.items|);
      assert a.items[..|a.items|] == a.items;
    }
  }

  lemma MappingsAsDocumented(a: Tree, b: Tree)
    requires a.Mapping? && b.Mapping?
    ensures Prune(a, b) == Documented(a, b) <==>
      forall k | k in a.entries && k in b.entries ::
        Prune(a.entries[k], b.entries[k]) == Documented(a.entries[k], b.entries[k])
  {
    hide Prune, SurvivingKeys, Documented, DocumentedKeys;
    var p, d := PruneMapping(a, b), Documented(a, b).tree;
    if p == d {
      forall k | k in a.entries && k in b.entries
        ensures Prune(a.entries[k], b.entries[k]) == Documented(a.entries[k], b.entries[k])
      {
        PrunedAt(a, b, k);
        DocumentedEntry(a, b, k);
        if !Survives(Prune(a.entries[k], b.entries[k])) {
          NothingLeftEither(a.entries[k], b.entries[k]);
        }
      }
    }
    if forall k | k in a.entries && k in b.entries :: Prune(a.entries[k], b.entries[k]) == Documented(a.entries[k], b.entries[k]) {
      AllAsDocumented(a, b);
    }
  }

  lemma AllAsDocumented(a: Tree, b: Tree)
    requires a.Mapping? && b.Mapping?
    requires forall k | k in a.entries && k in b.entries :: Prune(a.entries[k], b.entries[k]) == Documented(a.entries[k], b.entries[k])
    ensures Prune(a, b) == Documented(a, b)
  {
    hide *;
    EntriesAsDocumented(a, b);
    OrdersKept(a, b);
    assert Prune(a, b).Kept? && Documented(a, b).Kept?;
    assert Prune(a, b).tree.Mapping? && Documented(a, b).tree.Mapping?;
    assert PruneMapping(a, b) == Prune(a, b).tree by { PruneTree(a, b); }
  }

  lemma PruneTree(a: Tree, b: Tree)
    requires a.Mapping? && b.Mapping?
    ensures PruneMapping(a, b) == Prune(a, b).tree
  {}

  lemma EntriesAsDocumented(a: Tree, b: Tree)
    requires a.Mapping? && b.Mapping?
    requires forall k | k in a.entries && k in b.entries :: Prune(a.entries[k], b.entries[k]) == Documented(a.entries[k], b.entries[k])
    ensures PruneMapping(a, b).entries == Documented(a, b).tree.entries
  {
    hide *;
    var p, d := PruneMapping(a, b), Documented(a, b).tree;
    forall k: string
      ensures k in p.entries <==> k in d.entries
      ensures k in p.entries ==> p.entries[k] == d.entries[k]
    {
      PrunedAt(a, b, k);
      DocumentedEntry(a, b, k);
    }
  }

  lemma OrdersKept(a: Tree, b: Tree)
    requires a.Mapping? && b.Mapping?
    ensures PruneMapping(a, b).order == Restrict(a.order, PruneMapping(a, b).entries.Keys)
    ensures Documented(a, b).tree.order == Restrict(a.order, Documented(a, b).tree.entries.Keys)
  {
    hide Restrict, Same;
    assert Documented(a, b).tree.entries.Keys == DocumentedKeys(a, b);
  }
}
