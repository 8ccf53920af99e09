/** Configuration trees, the equality Python gives them, and the right-biased
    merge that inheritance is built from. */
module ConfigTree {

  datatype Scalar = Null | Bool(b: bool) | Number(n: real) | Text(s: string)

  /** A mapping keeps its key order beside its contents, as a YAML mapping does. */
  datatype Tree =
    | Leaf(scalar: Scalar)
    | Listing(items: seq<Tree>)
    | Mapping(order: seq<string>, entries: map<string, Tree>)

  const EMPTY: Tree := Mapping([], map[])

  ghost predicate WellFormed(t: Tree) {
    match t
    case Leaf(_) => true
    case Listing(items) => forall i | 0 <= i < |items| :: WellFormed(items[i])
    case Mapping(order, entries) =>
      && Distinct(order)
      && (forall k :: k in order <==> k in entries)
      && (forall k | k in entries :: WellFormed(entries[k]))
  }

  ghost predicate Distinct(s: seq<string>) {
    forall i, j | 0 <= i < j < |s| :: s[i] != s[j]
  }

  lemma WellFormedKeys(t: Tree)
    requires t.Mapping? && WellFormed(t)
    ensures Distinct(t.order) && (forall k :: k in t.order <==> k in t.entries)
  {}

  lemma WellFormedEntry(t: Tree, k: string)
    requires t.Mapping? && WellFormed(t) && k in t.entries
    ensures WellFormed(t.entries[k])
  {}

  /** Equality of plain containers: mappings ignore key order, lists do not. */
  predicate Same(a: Tree, b: Tree)
    decreases a
  {
    match (a, b)
    case (Leaf(x), Leaf(y)) => x == y
    case (Listing(xs), Listing(ys)) =>
      |xs| == |ys| && forall i | 0 <= i < |xs| :: Same(xs[i], ys[i])
    case (Mapping(_, m), Mapping(_, n)) =>
      m.Keys == n.Keys && forall k | k in m :: Same(m[k], n[k])
    case _ => false
  }

  lemma SameReflexive(a: Tree)
    ensures Same(a, a)
  {}

  lemma SameSymmetric(a: Tree, b: Tree)
    requires Same(a, b)
    ensures Same(b, a)
    decreases a
  {}

  lemma SameTransitive(a: Tree, b: Tree, c: Tree)
    requires Same(a, b) && Same(b, c)
    ensures Same(a, c)
    decreases a
  {}

  lemma SameEntrywise(left: Tree, right: Tree, same: string -> bool)
    requires left.Mapping? && right.Mapping? && left.entries.Keys == right.entries.Keys
    requires forall k | k in right.entries :: Same(left.entries[k], right.entries[k]) <==> same(k)
    ensures Same(left, right) <==> forall k | k in right.entries :: same(k)
  {}

  /** `{}` and `[]`. */
  predicate Empty(t: Tree) {
    match t
    case Leaf(_) => false
    case Listing(items) => items == []
    case Mapping(_, entries) => entries == map[]
  }

  /** The keys of `order` that lie in `keys`, in their own order. */
  function Restrict(order: seq<string>, keys: set<string>): (r: seq<string>)
    ensures forall k :: k in r <==> k in order && k in keys
  {
    if order == [] then []
    else (if order[0] in keys then [order[0]] else []) + Restrict(order[1..], keys)
  }

  lemma {:induction false} RestrictDistinct(order: seq<string>, keys: set<string>)
    requires Distinct(order)
    ensures Distinct(Restrict(order, keys))
  {
    if order != [] {
      RestrictDistinct(order[1..], keys);
      var rest := Restrict(order[1..], keys);
      assert forall i | 0 <= i < |rest| :: rest[i] in rest;
      assert forall i | 1 <= i < |order| :: order[i] != order[0];
      assert order[0] !in order[1..];
    }
  }

  lemma {:induction false} RestrictAll(order: seq<string>, keys: set<string>)
    requires forall k | k in order :: k in keys
    ensures Restrict(order, keys) == order
  {
    if order != [] {
      RestrictAll(order[1..], keys);
      assert order == [order[0]] + order[1..];
    }
  }

  lemma {:induction false} RestrictTwice(order: seq<string>, keys: set<string>, more: set<string>)
    ensures Restrict(Restrict(order, keys), more) == Restrict(order, keys * more)
  {
    if order != [] {
      RestrictTwice(order[1..], keys, more);
      var rest := Restrict(order[1..], keys);
      assert ([order[0]] + rest)[1..] == rest;
      assert [] + rest == rest;
    }
  }

  /** Right-biased merge: two mappings merge key by key, existing keys keep
      their position and new ones follow; anything else is replaced. */
  function Merge(base: Tree, over: Tree): (m: Tree)
    ensures base.Mapping? && over.Mapping? ==>
      m.Mapping? && m.entries.Keys == base.entries.Keys + over.entries.Keys
    ensures !(base.Mapping? && over.Mapping?) ==> m == over
    decreases over
  {
    if base.Mapping? && over.Mapping? then
      Mapping(
        base.order + Restrict(over.order, over.entries.Keys - base.entries.Keys),
        map k | k in base.entries.Keys + over.entries.Keys ::
          if k !in over.entries then base.entries[k]
          else if k !in base.entries then over.entries[k]
          else Merge(base.entries[k], over.entries[k]))
    else over
  }

  lemma {:induction false} MergeWellFormed(base: Tree, over: Tree)
    requires WellFormed(base) && WellFormed(over)
    ensures WellFormed(Merge(base, over))
    decreases over
  {
    if base.Mapping? && over.Mapping? {
      var added := Restrict(over.order, over.entries.Keys - base.entries.Keys);
      RestrictDistinct(over.order, over.entries.Keys - base.entries.Keys);
      assert forall i | 0 <= i < |added| :: added[i] in added;
      assert forall i | 0 <= i < |base.order| :: base.order[i] in base.order;
      assert Distinct(base.order + added);
      forall k | k in base.entries && k in over.entries
        ensures WellFormed(Merge(base.entries[k], over.entries[k]))
      {
        MergeWellFormed(base.entries[k], over.entries[k]);
      }
    }
  }

  lemma HasMember(order: seq<string>)
    requires order != []
    ensures exists k :: k in order
  {
    assert order[0] in order;
  }

  /** Merging something without content changes nothing. */
  lemma MergeNothing(base: Tree, over: Tree)
    requires base.Mapping? && WellFormed(base)
    requires over.Mapping? && WellFormed(over) && Empty(over)
    ensures Merge(base, over) == base
  {
    WellFormedKeys(over);
    hide WellFormed;
    if over.order != [] {
      HasMember(over.order);
      assert false;
    }
    assert Merge(base, over).entries == base.entries;
  }

  lemma MergeOntoNothing(over: Tree)
    requires over.Mapping? && WellFormed(over)
    ensures Merge(EMPTY, over) == over
  {
    MergeOntoNothingOrder(over);
    MergeOntoNothingEntries(over);
    hide Merge;
    hide WellFormed;
  }

  lemma MergeOntoNothingOrder(over: Tree)
    requires over.Mapping? && WellFormed(over)
    ensures Merge(EMPTY, over).order == over.order
  {
    WellFormedKeys(over);
    hide WellFormed;
    RestrictAll(over.order, over.entries.Keys);
    hide Restrict;
    assert over.entries.Keys - EMPTY.entries.Keys == over.entries.Keys;
  }

  lemma MergeOntoNothingEntries(over: Tree)
    requires over.Mapping?
    ensures Merge(EMPTY, over).entries == over.entries
  {
    hide Restrict;
  }

  /** A mapping with one key taken out. */
  function Without(t: Tree, keys: set<string>): (r: Tree)
    requires t.Mapping?
    ensures r.Mapping? && r.entries.Keys == t.entries.Keys - keys
    ensures forall k | k in r.entries :: r.entries[k] == t.entries[k]
  {
    Mapping(Restrict(t.order, t.entries.Keys - keys), t.entries - keys)
  }

  lemma WithoutWellFormed(t: Tree, keys: set<string>)
    requires t.Mapping? && WellFormed(t)
    ensures WellFormed(Without(t, keys))
  {
    RestrictDistinct(t.order, t.entries.Keys - keys);
  }

  lemma WithoutNothing(t: Tree, keys: set<string>)
    requires t.Mapping? && WellFormed(t) && t.entries.Keys !! keys
    ensures Without(t, keys) == t
  {
    RestrictAll(t.order, t.entries.Keys - keys);
    assert t.entries - keys == t.entries;
  }
}
