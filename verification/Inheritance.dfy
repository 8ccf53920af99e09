/** Which parent a file's values come from, and which sections override: precedence, told by expansions alone. */
module Inheritance {
  import opened ConfigTree
  import opened ConfigPrune
  import opened ConfigCli
  import opened MinimizeCommand

  lemma {:induction false} FoldedByParents(s: Source, t: Source, n: nat)
    requires Valid(s) && s.parents.Defaults? && Valid(t) && t.parents.Defaults?
    requires n <= |s.parents.sources| && n <= |t.parents.sources|
    requires s.parents.sources[..n] == t.parents.sources[..n]
    ensures Folded(s, n) == Folded(t, n)
    decreases n
  {
    hide Overridden, Expand;
    if n > 0 {
      var ps, qs := s.parents.sources, t.parents.sources;
      assert ps[..n][..n - 1] == ps[..n - 1] && qs[..n][..n - 1] == qs[..n - 1];
      assert ps[..n][n - 1] == ps[n - 1] && qs[..n][n - 1] == qs[n - 1];
      FoldedByParents(s, t, n - 1);
    }
  }

  lemma ValidParts(own: Tree, parents: seq<Source>, p: Source)
    requires Valid(Source(own, Defaults(parents + [p])))
    ensures Valid(p) && Valid(Source(EMPTY, Defaults(parents))) && WellFormed(own) && own.Mapping?
  {
    var all := parents + [p];
    assert all[|parents|] == p;
    forall i | 0 <= i < |parents|
      ensures Valid(parents[i])
    {
      assert all[i] == parents[i];
    }
    assert WellFormed(EMPTY);
  }

  lemma OverriddenByNothing(t: Tree)
    requires t.Mapping? && WellFormed(t)
    ensures Overridden(t, EMPTY) == t
  {
    assert MarkedKeys(EMPTY) == {};
    WithoutNothing(t, {});
    assert StripMarks(EMPTY) == EMPTY by {
      assert StripMarks(EMPTY).entries == map[];
    }
    MergeNothing(t, EMPTY);
  }

  /** The last parent is merged over what the others make without the file, and the file over that;
      the first one over nothing. */
  lemma ParentsInOrder(own: Tree, parents: seq<Source>, p: Source)
    requires Valid(Source(own, Defaults(parents + [p])))
    ensures Valid(p) && Valid(Source(EMPTY, Defaults(parents)))
    ensures Expand(Source(own, Defaults(parents + [p])))
         == Overridden(Overridden(Expand(Source(EMPTY, Defaults(parents))), Expand(p)), own)
    ensures Expand(Source(EMPTY, Defaults([]))) == EMPTY
  {
    var s, t, n := Source(own, Defaults(parents + [p])), Source(EMPTY, Defaults(parents)), |parents|;
    ValidParts(own, parents, p);
    ExpandNothing();
    ExpandWithoutOwn(t);
    hide Overridden, Expand, Folded;
    assert (parents + [p])[..n] == parents == parents[..n];
    FoldedByParents(s, t, n);
    FoldOnce(s, n);
    assert s.parents.sources[n] == p;
  }

  lemma FoldOnce(s: Source, n: nat)
    requires Valid(s) && s.parents.Defaults? && n < |s.parents.sources|
    ensures Folded(s, n + 1) == Overridden(Folded(s, n), Expand(s.parents.sources[n]))
    ensures n + 1 == |s.parents.sources| ==> Expand(s) == Overridden(Folded(s, n + 1), s.own)
  {
    hide Overridden;
  }

  lemma ExpandWithoutOwn(t: Source)
    requires Valid(t) && t.own == EMPTY && t.parents.Defaults?
    ensures Expand(t) == Folded(t, |t.parents.sources|)
  {
    FoldedWellFormed(t, |t.parents.sources|);
    OverriddenByNothing(Folded(t, |t.parents.sources|));
  }

  lemma ExpandNothing()
    ensures Valid(Source(EMPTY, Defaults([]))) && Expand(Source(EMPTY, Defaults([]))) == EMPTY
  {
    assert WellFormed(EMPTY);
    ExpandWithoutOwn(Source(EMPTY, Defaults([])));
  }

  /** A file without `defaults` is taken as it stands; one with an empty list loses its markers only. */
  lemma WithoutParents(own: Tree)
    requires own.Mapping? && WellFormed(own)
    ensures Valid(Source(own, NoDefaults)) && Expand(Source(own, NoDefaults)) == own
    ensures Valid(Source(own, Defaults([]))) && Expand(Source(own, Defaults([]))) == StripMarks(own)
  {
    OverNothing(own);
    assert Folded(Source(own, Defaults([])), 0) == EMPTY;
  }

  /** `k` comes from none of the sources. */
  ghost predicate SilentOn(sources: seq<Source>, k: string)
    requires forall i | 0 <= i < |sources| :: Valid(sources[i])
  {
    forall i | 0 <= i < |sources| :: k !in Expand(sources[i]).entries
  }

  /** What the merge finds at a key its upper side says, whatever a reader `a` looks at. */
  lemma UpperSurvives(a: Tree, below: Tree, over: Tree, k: string)
    requires below.Mapping? && over.Mapping? && k in over.entries
    ensures k in Overridden(below, over).entries && Inherits(a, over.entries[k], Overridden(below, over).entries[k])
  {
    OverriddenEntry(below, over, k);
    hide Overridden, Merge;
    var y := over.entries[k];
    BackedReflexive(a, y);
    if !Marked(y) && k in below.entries {
      BackedByMerge(a, y, below.entries[k]);
    }
  }

  lemma LowerSurvives(below: Tree, over: Tree, k: string)
    requires below.Mapping? && over.Mapping? && k !in over.entries
    ensures k in Overridden(below, over).entries <==> k in below.entries
    ensures k in below.entries ==> Overridden(below, over).entries[k] == below.entries[k]
  {
    if k in below.entries {
      OverriddenEntry(below, over, k);
    }
  }

  /** Precedence among parents: where neither the file nor a parent after `p` speaks about `k`, what `p` says
      comes through, a leaf or list as it is, a section at least. */
  lemma {:induction false} LaterParentWins(a: Tree, own: Tree, before: seq<Source>, p: Source, later: seq<Source>, k: string)
    requires Valid(Source(own, Defaults(before + [p] + later))) && Valid(p)
    requires forall i | 0 <= i < |later| :: Valid(later[i])
    requires k !in own.entries && SilentOn(later, k) && k in Expand(p).entries
    ensures k in Expand(Source(own, Defaults(before + [p] + later))).entries
    ensures Inherits(a, Expand(p).entries[k], Expand(Source(own, Defaults(before + [p] + later))).entries[k])
    decreases |later|
  {
    hide Overridden, Expand, Inherits;
    if later == [] {
      assert before + [p] + later == before + [p];
      ParentsInOrder(own, before, p);
      var below := Expand(Source(EMPTY, Defaults(before)));
      UpperSurvives(a, below, Expand(p), k);
      LowerSurvives(Overridden(below, Expand(p)), own, k);
    } else {
      var n := |later| - 1;
      var rest, q := later[..n], later[n];
      var sources := before + [p] + rest;
      assert before + [p] + later == sources + [q];
      ParentsInOrder(own, sources, q);
      LaterParentWins(a, EMPTY, before, p, rest, k);
      var below := Expand(Source(EMPTY, Defaults(sources)));
      LowerSurvives(below, Expand(q), k);
      LowerSurvives(Overridden(below, Expand(q)), own, k);
    }
  }

  /** And what nobody says is not there. */
  lemma {:induction false} NothingFromNowhere(own: Tree, parents: seq<Source>, k: string)
    requires Valid(Source(own, Defaults(parents))) && (forall i | 0 <= i < |parents| :: Valid(parents[i]))
    requires k !in own.entries && SilentOn(parents, k)
    ensures k !in Expand(Source(own, Defaults(parents))).entries
    decreases |parents|
  {
    if parents == [] {
      assert Folded(Source(own, Defaults(parents)), 0) == EMPTY;
    } else {
      var n := |parents| - 1;
      var rest, q := parents[..n], parents[n];
      assert parents == rest + [q];
      ParentsInOrder(own, rest, q);
      hide Overridden, Expand;
      NothingFromNowhere(EMPTY, rest, k);
      var below := Expand(Source(EMPTY, Defaults(rest)));
      LowerSurvives(below, Expand(q), k);
      LowerSurvives(Overridden(below, Expand(q)), own, k);
    }
  }

  // --------------------------------------------------------------- overriding

  /** The values that count as no marker. */
  predicate Falsy(t: Tree) {
    || t == Leaf(Null) || t == Leaf(Bool(false)) || t == Leaf(Number(0.0)) || t == Leaf(Text(""))
    || t == Listing([]) || (t.Mapping? && t.entries == map[])
  }

  /** A section overrides exactly if its marker is there and not null, false, zero or empty: then it stands alone
      without the marker; otherwise it is merged, a false marker included. */
  lemma OverridesIff(base: Tree, over: Tree, k: string)
    requires base.Mapping? && over.Mapping? && k in base.entries && k in over.entries
    requires base.entries[k].Mapping? && over.entries[k].Mapping?
    ensures var b, o, m := base.entries[k], over.entries[k], Overridden(base, over).entries[k];
      && m.Mapping?
      && if OVERRIDE in o.entries && !Falsy(o.entries[OVERRIDE])
         then m.entries == o.entries - {OVERRIDE}
         else m == Merge(b, o) && (OVERRIDE in o.entries ==> OVERRIDE in m.entries)
  {
    OverriddenEntry(base, over, k);
    FalsyIff(over.entries[k]);
    hide Overridden, Merge, Falsy, Marked;
    if !Marked(over.entries[k]) {
      MergeKeys(base.entries[k], over.entries[k]);
    }
  }

  lemma FalsyIff(section: Tree)
    requires section.Mapping?
    ensures Marked(section) <==> OVERRIDE in section.entries && !Falsy(section.entries[OVERRIDE])
    ensures Marked(section) ==> StripMark(section).Mapping? && StripMark(section).entries == section.entries - {OVERRIDE}
  {}

  lemma MergeKeys(b: Tree, o: Tree)
    requires b.Mapping? && o.Mapping?
    ensures Merge(b, o).Mapping? && Merge(b, o).entries.Keys == b.entries.Keys + o.entries.Keys
  {}
}
