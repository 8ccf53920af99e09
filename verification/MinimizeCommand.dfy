/** The `minimize` and `minimize-check` commands on whole files, the explicit-base
    (`--base`) form, and the inputs on which minimising is not safe. */
module MinimizeCommand {
  import opened ConfigTree
  import opened ConfigPrune
  import opened ConfigCli

  // ------------------------------------------- pruning against a raw base

  /** `file` is the raw text of source `s`: its own content plus perhaps a `defaults` key. */
  ghost predicate RawFileOf(file: Tree, s: Source) {
    file.Mapping? && WellFormed(file) && Valid(s) && s.own == Without(file, {DEFAULTS})
  }

  lemma {:induction false} BackedByMerge(a: Tree, raw: Tree, below: Tree)
    ensures Backed(a, raw, Merge(below, raw))
    decreases a
  {
    if raw.Mapping? && below.Mapping? && a.Mapping? {
      forall k | k in a.entries && k in raw.entries
        ensures Backed(a.entries[k], raw.entries[k], Merge(below, raw).entries[k])
      {
        BackedReflexive(a.entries[k], raw.entries[k]);
        if k in below.entries {
          BackedByMerge(a.entries[k], raw.entries[k], below.entries[k]);
        }
      }
    } else {
      BackedReflexive(a, raw);
    }
  }

  /** A file's own values survive its own inheritance merge, whatever the child looks at. */
  lemma OwnValuesSurvive(a: Tree, s: Source, k: string)
    requires Valid(s) && k in s.own.entries
    ensures k in Expand(s).entries
    ensures Inherits(a, s.own.entries[k], StripMark(Expand(s).entries[k]))
  {
    var raw := s.own.entries[k];
    BackedReflexive(a, raw);
    if s.parents.Defaults? {
      var below := Folded(s, |s.parents.sources|);
      ExpansionIsUnmarked(s);
      assert Expand(s) == Overridden(below, s.own);
      OverriddenEntry(below, s.own, k);
      hide Overridden;
      hide Expand;
      hide Folded;
      hide Merge;
      if !Marked(raw) && k in below.entries {
        BackedByMerge(a, raw, below.entries[k]);
      }
    }
  }

  /** Main theorem for `minimize --base`: for every child and base, pruning against the raw, unexpanded
      base file gives the meaning of the child re-based on it exactly when that is safe by the raw file. */
  lemma RebasePreservesExpansionIff(own: Tree, file: Tree, s: Source)
    requires RawFileOf(file, s)
    requires own.Mapping? && WellFormed(own) && DEFAULTS !in own.entries
    ensures var pruned := PruneMapping(own, file);
      && Valid(Child(pruned, s)) && Valid(Child(own, s))
      && (Same(Expand(Child(pruned, s)), Expand(Child(own, s))) <==> SafeToMinimize(own, file))
  {
    var pruned := PruneMapping(own, file);
    var e := Expand(s);
    PruneWellFormed(own, file);
    ExpandWellFormed(s);
    StripMarksWellFormed(e);
    OverNothing(e);
    ExpandChild(pruned, s);
    ExpandChild(own, s);
    forall k | k in own.entries && k in file.entries
      ensures k in e.entries && Inherits(own.entries[k], file.entries[k], StripMark(e.entries[k]))
    {
      OwnValuesSurvive(own.entries[k], s, k);
    }
    OverriddenPruneIff(own, file, StripMarks(e));
  }

  // -------------------------------------------------------------- the files

  datatype Mode = InferBase | ExplicitBase(relative: string)
  datatype Failure = NotAMapping | NoDefaultsKey | DefaultsNotAString
  datatype Outcome = Written(file: Tree) | Failed(why: Failure)

  /** `t` with `key` moved to, or placed at, the front. */
  function Front(key: string, value: Tree, t: Tree): Tree
    requires t.Mapping?
  {
    Mapping([key] + Restrict(t.order, t.entries.Keys - {key}), t.entries[key := value])
  }

  /** The names a `defaults` value lists. */
  function ListedDefaults(value: Tree): seq<Tree> {
    match value
    case Listing(items) => items
    case Mapping(order, _) => seq(|order|, i requires 0 <= i < |order| => Leaf(Text(order[i])))
    case Leaf(_) => [value]
  }

  /** The names in a configuration's `defaults`, if it has any. */
  function NamesIn(cfg: Tree): seq<Tree>
    requires cfg.Mapping?
  {
    if DEFAULTS !in cfg.entries || cfg.entries[DEFAULTS] == Leaf(Null) then []
    else ListedDefaults(cfg.entries[DEFAULTS])
  }

  /** `r` is `cfg` with the base among its defaults: at the front unless it was named already, every old
      name in its place, a single name stored bare, and nothing else touched. */
  predicate NamesBase(cfg: Tree, relative: string, r: Tree)
    requires cfg.Mapping?
  {
    var name := Leaf(Text(relative));
    && r.Mapping?
    && r.order == (if DEFAULTS in cfg.entries then cfg.order else cfg.order + [DEFAULTS])
    && DEFAULTS in r.entries && r.entries - {DEFAULTS} == cfg.entries - {DEFAULTS}
    && name in NamesIn(r)
    && (NamesIn(r) == NamesIn(cfg) || (NamesIn(r) == [name] + NamesIn(cfg) && name !in NamesIn(cfg)))
    && (r.entries[DEFAULTS] == name || (r.entries[DEFAULTS].Listing? && |NamesIn(r)| > 1))
  }

  method EnsureDefaultsRelative(childCfg: Tree, relative: string) returns (cfg: Tree)
    requires childCfg.Mapping?
    ensures NamesBase(childCfg, relative, cfg)
  {
    var name := Leaf(Text(relative));
    if DEFAULTS !in childCfg.entries || childCfg.entries[DEFAULTS] == Leaf(Null) {
      cfg := Mapping(if DEFAULTS in childCfg.entries then childCfg.order else childCfg.order + [DEFAULTS],
                     childCfg.entries[DEFAULTS := name]);
      return;
    }
    var existing := ListedDefaults(childCfg.entries[DEFAULTS]);
    if name !in existing {
      existing := [name] + existing;
    }
    if |existing| == 1 {
      cfg := childCfg.(entries := childCfg.entries[DEFAULTS := existing[0]]);
    } else {
      cfg := childCfg.(entries := childCfg.entries[DEFAULTS := Listing(existing)]);
    }
  }

  /** That says it all: there is only one such configuration, and naming its base again leaves it alone. */
  lemma DefaultsNamedOnce(cfg: Tree, relative: string, r: Tree, r': Tree)
    requires cfg.Mapping? && NamesBase(cfg, relative, r)
    ensures NamesBase(cfg, relative, r') ==> r' == r
    ensures NamesBase(r, relative, r') ==> r' == r
  {
    if NamesBase(cfg, relative, r') {
      DefaultsDetermined(r, r');
    }
    if NamesBase(r, relative, r') {
      DefaultsDetermined(r, r');
    }
  }

  lemma DefaultsDetermined(r: Tree, r': Tree)
    requires r.Mapping? && r'.Mapping? && r.order == r'.order && DEFAULTS in r.entries && DEFAULTS in r'.entries
    requires r.entries - {DEFAULTS} == r'.entries - {DEFAULTS} && NamesIn(r) == NamesIn(r')
    requires IsText(r.entries[DEFAULTS]) || (r.entries[DEFAULTS].Listing? && |NamesIn(r)| > 1)
    requires IsText(r'.entries[DEFAULTS]) || (r'.entries[DEFAULTS].Listing? && |NamesIn(r')| > 1)
    ensures r == r'
  {
    assert r.entries[DEFAULTS] == r'.entries[DEFAULTS];
    assert r.entries == (r.entries - {DEFAULTS})[DEFAULTS := r.entries[DEFAULTS]];
    assert r'.entries == (r'.entries - {DEFAULTS})[DEFAULTS := r'.entries[DEFAULTS]];
  }

  /** What a file becomes, given the tree it is pruned against. */
  function Minimized(file: Tree, base: Tree, mode: Mode): Outcome {
    if !file.Mapping? then Failed(NotAMapping)
    else if mode.InferBase? && (DEFAULTS !in file.entries || file.entries[DEFAULTS] == Leaf(Null)) then
      Failed(NoDefaultsKey)
    else if mode.InferBase? && !IsText(file.entries[DEFAULTS]) then Failed(DefaultsNotAString)
    else if !base.Mapping? then Failed(NotAMapping)
    else
      var pruned := PruneMapping(Without(file, {DEFAULTS}), base);
      match mode
      case InferBase => Written(Front(DEFAULTS, file.entries[DEFAULTS], pruned))
      case ExplicitBase(relative) => Written(Front(DEFAULTS, Leaf(Text(relative)), pruned))
  }

  /** The file names its base itself, as one text. */
  predicate InfersBase(file: Tree) {
    file.Mapping? && DEFAULTS in file.entries && IsText(file.entries[DEFAULTS])
  }

  lemma NothingTakenOut(t: Tree, key: string)
    requires t.Mapping? && WellFormed(t) && key !in t.entries
    ensures Restrict(t.order, t.entries.Keys - {key}) == t.order
  {
    WellFormedKeys(t);
    RestrictAll(t.order, t.entries.Keys - {key});
  }

  predicate IsText(t: Tree) {
    t.Leaf? && t.scalar.Text?
  }

  method MinimizeOne(file: Tree, base: Tree, mode: Mode) returns (out: Outcome)
    requires WellFormed(file) && WellFormed(base)
    ensures out == Minimized(file, base, mode)
    ensures out.Written? <==> file.Mapping? && base.Mapping? && (mode.InferBase? ==> InfersBase(file))
    ensures out == Failed(NotAMapping) <==> !file.Mapping? || (!base.Mapping? && (mode.InferBase? ==> InfersBase(file)))
    ensures out == Failed(NoDefaultsKey) <==>
      mode.InferBase? && file.Mapping? && (DEFAULTS in file.entries ==> file.entries[DEFAULTS] == Leaf(Null))
    ensures out == Failed(DefaultsNotAString) <==>
      mode.InferBase? && file.Mapping? && DEFAULTS in file.entries
      && file.entries[DEFAULTS] != Leaf(Null) && !IsText(file.entries[DEFAULTS])
    ensures out.Written? ==>
      var body := PruneMapping(Without(file, {DEFAULTS}), base);
      && out.file.Mapping? && out.file.order == [DEFAULTS] + body.order
      && out.file.entries == body.entries[DEFAULTS := match mode
           case InferBase => file.entries[DEFAULTS]
           case ExplicitBase(relative) => Leaf(Text(relative))]
  {
    if file.Mapping? && base.Mapping? {
      WithoutWellFormed(file, {DEFAULTS});
      PruneWellFormed(Without(file, {DEFAULTS}), base);
      NothingTakenOut(PruneMapping(Without(file, {DEFAULTS}), base), DEFAULTS);
    }
    if !file.Mapping? { return Failed(NotAMapping); }
    if mode.InferBase? {
      if DEFAULTS !in file.entries || file.entries[DEFAULTS] == Leaf(Null) { return Failed(NoDefaultsKey); }
      if !IsText(file.entries[DEFAULTS]) { return Failed(DefaultsNotAString); }
    }
    if !base.Mapping? { return Failed(NotAMapping); }
    WithoutWellFormed(file, {DEFAULTS});
    var p := PruneEqual(Without(file, {DEFAULTS}), base);
    var pruned := p.tree;
    match mode
    case InferBase =>
      out := Written(Front(DEFAULTS, file.entries[DEFAULTS], pruned));
    case ExplicitBase(relative) =>
      var named := EnsureDefaultsRelative(pruned, relative);
      NamedFresh(pruned, relative, named);
      FrontAgain(DEFAULTS, Leaf(Text(relative)), pruned);
      out := Written(Front(DEFAULTS, named.entries[DEFAULTS], named));
  }

  lemma NamedFresh(t: Tree, relative: string, named: Tree)
    requires t.Mapping? && DEFAULTS !in t.entries && NamesBase(t, relative, named)
    ensures named == Mapping(t.order + [DEFAULTS], t.entries[DEFAULTS := Leaf(Text(relative))])
  {
    var name := Leaf(Text(relative));
    assert named.entries[DEFAULTS] == name;
    assert named.entries == (named.entries - {DEFAULTS})[DEFAULTS := name];
    assert t.entries - {DEFAULTS} == t.entries;
  }

  lemma FrontAgain(key: string, value: Tree, t: Tree)
    requires t.Mapping? && key !in t.entries
    ensures Front(key, value, Mapping(t.order + [key], t.entries[key := value])) == Front(key, value, t)
  {
    var named := Mapping(t.order + [key], t.entries[key := value]);
    assert named.entries.Keys - {key} == t.entries.Keys - {key};
    RestrictStep(named.order, |t.order|, t.entries.Keys);
    assert named.order[..|t.order|] == t.order && named.order[..|t.order| + 1] == named.order;
    assert t.entries.Keys - {key} == t.entries.Keys;
    assert named.entries[key := value] == t.entries[key := value];
  }

  /** The exit code of `minimize-check`: 0 clean, 1 would change, 2 not checkable. */
  method MinimizeCheckOne(file: Tree, base: Tree, mode: Mode) returns (code: nat)
    requires WellFormed(file) && WellFormed(base)
    ensures code == 0 <==> Minimized(file, base, mode) == Written(file)
    ensures code == 2 <==> Minimized(file, base, mode).Failed?
    ensures code == 2 <==> !(file.Mapping? && base.Mapping? && (mode.InferBase? ==> InfersBase(file)))
    ensures code <= 2
  {
    var out := MinimizeOne(file, base, mode);
    match out
    case Failed(_) => code := 2;
    case Written(minimized) => code := if minimized == file then 0 else 1;
  }

  lemma FrontUndone(key: string, value: Tree, t: Tree)
    requires t.Mapping? && WellFormed(t) && key !in t.entries
    ensures Without(Front(key, value, t), {key}) == t
  {
    var f := Front(key, value, t);
    RestrictAll(t.order, t.entries.Keys - {key});
    assert f.entries.Keys - {key} == t.entries.Keys;
    assert f.order[1..] == t.order;
    RestrictAll(t.order, t.entries.Keys);
    assert f.entries - {key} == t.entries;
  }

  /** `minimize --in-place` followed by `minimize-check` with the same base is clean:
      what was written, key order included, is what minimising it again writes. */
  lemma MinimizedFileChecksClean(file: Tree, base: Tree, mode: Mode)
    requires WellFormed(file) && Minimized(file, base, mode).Written?
    ensures var written := Minimized(file, base, mode).file;
      Minimized(written, base, mode) == Written(written)
  {
    var body := Without(file, {DEFAULTS});
    var pruned := PruneMapping(body, base);
    WithoutWellFormed(file, {DEFAULTS});
    PruneWellFormed(body, base);
    assert DEFAULTS !in pruned.entries;
    FrontUndone(DEFAULTS, Minimized(file, base, mode).file.entries[DEFAULTS], pruned);
    PruneIdempotent(body, base);
  }

  /** After `minimize --base`, `minimize-check` without `--base` infers that base and prunes against its
      expansion: it reports the file clean if and only if nothing left in it equals what the base inherits. */
  lemma InferredCheckCleanIff(file: Tree, base: Tree, relative: string, s: Source)
    requires WellFormed(file) && RawFileOf(base, s) && Minimized(file, base, ExplicitBase(relative)).Written?
    ensures var written := Minimized(file, base, ExplicitBase(relative)).file;
      Minimized(written, Expand(s), InferBase) == Written(written) <==>
        NothingInherited(PruneMapping(Without(file, {DEFAULTS}), base), Expand(s))
  {
    hide Same, NothingInherited, Expand, Front, Prune;
    var p := PruneMapping(Without(file, {DEFAULTS}), base);
    var q := PruneMapping(p, Expand(s));
    WithoutWellFormed(file, {DEFAULTS});
    PruneWellFormed(Without(file, {DEFAULTS}), base);
    PruneWellFormed(p, Expand(s));
    MinimizedAgain(p, Expand(s), relative);
    FrontUndone(DEFAULTS, Leaf(Text(relative)), p);
    FrontUndone(DEFAULTS, Leaf(Text(relative)), q);
    PruneKeepsAllIff(p, Expand(s));
    SameReflexive(p);
  }

  lemma MinimizedAgain(p: Tree, b: Tree, relative: string)
    requires p.Mapping? && b.Mapping? && WellFormed(p) && DEFAULTS !in p.entries
    ensures Minimized(Front(DEFAULTS, Leaf(Text(relative)), p), b, InferBase)
         == Written(Front(DEFAULTS, Leaf(Text(relative)), PruneMapping(p, b)))
  {
    FrontUndone(DEFAULTS, Leaf(Text(relative)), p);
    hide Prune, WellFormed;
  }

  /** A base without `defaults` leaves the check clean. */
  lemma PlainBaseChecksClean(file: Tree, base: Tree, relative: string)
    requires WellFormed(file) && WellFormed(base) && base.Mapping? && DEFAULTS !in base.entries
    requires Minimized(file, base, ExplicitBase(relative)).Written?
    ensures var written := Minimized(file, base, ExplicitBase(relative)).file;
      RawFileOf(base, Source(base, NoDefaults)) && Minimized(written, Expand(Source(base, NoDefaults)), InferBase) == Written(written)
  {
    WithoutNothing(base, {DEFAULTS});
    MinimizedFileChecksClean(file, base, ExplicitBase(relative));
  }

  /** What `minimize` writes, loaded again, expands like its entries did before if and only if that was safe: for
      the inferred base over the same parent, by its expansion; for `--base` over the new base, so that the
      original is the child already re-based on it, by the raw base file. */
  lemma MinimizedFileMeansIff(file: Tree, base: Tree, mode: Mode, parent: Source)
    requires WellFormed(file) && Valid(parent) && Minimized(file, base, mode).Written?
    requires if mode.InferBase? then base == Expand(parent) else RawFileOf(base, parent)
    ensures var written := Minimized(file, base, mode).file;
      var before, after := Without(file, {DEFAULTS}), Without(written, {DEFAULTS});
      && Valid(Child(after, parent)) && Valid(Child(before, parent))
      && (Same(Expand(Child(after, parent)), Expand(Child(before, parent))) <==> SafeToMinimize(before, base))
      && DEFAULTS in written.entries
      && written.entries[DEFAULTS] == if mode.InferBase? then file.entries[DEFAULTS] else Leaf(Text(mode.relative))
  {
    var body := Without(file, {DEFAULTS});
    var pruned := PruneMapping(body, base);
    WithoutWellFormed(file, {DEFAULTS});
    PruneWellFormed(body, base);
    assert DEFAULTS !in pruned.entries;
    FrontUndone(DEFAULTS, Minimized(file, base, mode).file.entries[DEFAULTS], pruned);
    if mode.InferBase? {
      MinimizePreservesExpansionIff(body, parent);
    } else {
      RebasePreservesExpansionIff(body, base, parent);
    }
  }

  // -------------------------------------------------------------- witnesses

  const ONE := Leaf(Number(1.0))
  const INHERITED_SECTION := Mapping(["x", "y"], map["x" := ONE, "y" := ONE])
  const OWN_SECTION := Mapping([OVERRIDE, "x"], map[OVERRIDE := Leaf(Bool(true)), "x" := ONE])
  const BASE_SECTION := Mapping(["s"], map["s" := INHERITED_SECTION])
  const OVERRIDING := Mapping(["s"], map["s" := OWN_SECTION])
  const BASE_SCALAR := Mapping(["k"], map["k" := ONE])
  const EMPTYING := Mapping(["k"], map["k" := Listing([])])

  /** With an overriding section that shares an entry with its base, minimising loses that entry. */
  lemma OverridingSectionIsUnsafe()
    ensures Valid(Child(PruneMapping(OVERRIDING, BASE_SECTION), Source(BASE_SECTION, NoDefaults)))
    ensures Valid(Child(OVERRIDING, Source(BASE_SECTION, NoDefaults)))
    ensures !Same(Expand(Child(PruneMapping(OVERRIDING, BASE_SECTION), Source(BASE_SECTION, NoDefaults))),
                  Expand(Child(OVERRIDING, Source(BASE_SECTION, NoDefaults))))
  {
    WitnessesWellFormed();
    LosesEntry(BASE_SECTION);
    hide SafeToMinimize;
    MinimizePreservesExpansionIff(OVERRIDING, Source(BASE_SECTION, NoDefaults));
  }

  const REBASED_OWN := Mapping(["s"], map["s" := Mapping(["x"], map["x" := ONE])])
  const REBASED := Source(REBASED_OWN, Defaults([Source(BASE_SECTION, NoDefaults)]))

  /** So does `--base`, where the raw base says only part of the section it inherits. */
  lemma OverridingSectionIsUnsafeToRebase()
    ensures RawFileOf(REBASED_OWN, REBASED)
    ensures Valid(Child(PruneMapping(OVERRIDING, REBASED_OWN), REBASED)) && Valid(Child(OVERRIDING, REBASED))
    ensures !Same(Expand(Child(PruneMapping(OVERRIDING, REBASED_OWN), REBASED)), Expand(Child(OVERRIDING, REBASED)))
  {
    WitnessesWellFormed();
    LosesEntry(REBASED_OWN);
    WithoutNothing(REBASED_OWN, {DEFAULTS});
    hide SafeToMinimize;
    RebasePreservesExpansionIff(OVERRIDING, REBASED_OWN, REBASED);
  }

  lemma WitnessesWellFormed()
    ensures WellFormed(OVERRIDING) && WellFormed(BASE_SECTION) && WellFormed(REBASED_OWN)
    ensures Valid(Source(BASE_SECTION, NoDefaults)) && Valid(REBASED)
  {
    TwoKeysWellFormed(OVERRIDE, Leaf(Bool(true)), "x", ONE);
    TwoKeysWellFormed("x", ONE, "y", ONE);
    OneKeyWellFormed("x", ONE);
    OneKeyWellFormed("s", OWN_SECTION);
    OneKeyWellFormed("s", INHERITED_SECTION);
    OneKeyWellFormed("s", REBASED_OWN.entries["s"]);
    hide WellFormed;
  }

  lemma OneKeyWellFormed(k: string, t: Tree)
    requires WellFormed(t)
    ensures WellFormed(Mapping([k], map[k := t]))
  {}

  lemma TwoKeysWellFormed(k: string, t: Tree, l: string, u: Tree)
    requires k != l && WellFormed(t) && WellFormed(u)
    ensures WellFormed(Mapping([k, l], map[k := t, l := u]))
  {}

  lemma LosesEntry(base: Tree)
    requires base == BASE_SECTION || base == REBASED_OWN
    ensures !SafeToMinimize(OVERRIDING, base)
  {
    var x, y := OVERRIDING.entries["s"], base.entries["s"];
    assert Marked(x) && y.Mapping? && OVERRIDE !in y.entries;
    assert "x" in Without(x, {OVERRIDE}).entries && "x" in y.entries && !OwnValue(ONE, ONE);
    assert !SafeSection(x, y);
    assert "s" in OVERRIDING.entries && "s" in base.entries;
  }

  /** An empty list meant to clear an inherited scalar is pruned away. */
  lemma EmptyContainerIsUnsafe()
    ensures Valid(Child(PruneMapping(EMPTYING, BASE_SCALAR), Source(BASE_SCALAR, NoDefaults)))
    ensures Valid(Child(EMPTYING, Source(BASE_SCALAR, NoDefaults)))
    ensures !Same(Expand(Child(PruneMapping(EMPTYING, BASE_SCALAR), Source(BASE_SCALAR, NoDefaults))),
                  Expand(Child(EMPTYING, Source(BASE_SCALAR, NoDefaults))))
  {
    var base := Source(BASE_SCALAR, NoDefaults);
    assert WellFormed(EMPTYING) && WellFormed(BASE_SCALAR);
    assert "k" in EMPTYING.entries && "k" in BASE_SCALAR.entries;
    assert !SafeSection(EMPTYING.entries["k"], BASE_SCALAR.entries["k"]);
    assert !SafeToMinimize(EMPTYING, Expand(base));
    MinimizePreservesExpansionIff(EMPTYING, base);
  }
}
