/** The in-memory form of dynamic sampling, and what both forms train on when spread is a property
    of prompt groups. */
module LegacySampling {
  import opened Arithmetic
  import opened Wrappers
  import opened DynamicSampling

  /** A batch whose `total_reward` column is the unfiltered one and may be longer than the rest. */
  datatype Batch = Batch(rows: seq<Row>, totals: seq<real>)

  function CacheRows(cache: Option<Batch>): seq<Row> {
    match cache case None => [] case Some(b) => b.rows
  }

  function CacheTotals(cache: Option<Batch>): seq<real> {
    match cache case None => [] case Some(b) => b.totals
  }

  /** The cache after a batch: a batch without survivors leaves it alone. */
  function Cached(cache: Option<Batch>, batch: seq<Row>): Option<Batch> {
    if Survivors(batch) == [] then cache
    else Some(Batch(CacheRows(cache) + Survivors(batch), CacheTotals(cache) + Rewards(batch)))
  }

  /** What the decision looks at: the cache, or the empty filtered batch alone. */
  function Considered(cache: Option<Batch>, batch: seq<Row>): Batch {
    if Survivors(batch) == [] then Batch([], Rewards(batch))
    else Batch(CacheRows(cache) + Survivors(batch), CacheTotals(cache) + Rewards(batch))
  }

  function LegacyStep(cfg: Config, cache: Option<Batch>, batch: seq<Row>, count: nat): Event {
    var b := Considered(cache, batch);
    if |b.rows| < cfg.size then
      if cfg.maxBatches <= 0 then Raise
      else if count <= cfg.maxBatches then Continue
      else Raise
    else Train(b.rows[..cfg.size], Take(b.totals, cfg.size))
  }

  method DynamicSamplingStep(batch: seq<Row>, cfg: Config, numGenBatches: nat, cacheIn: Option<Batch>)
    returns (event: Event, cache: Option<Batch>)
    ensures event == LegacyStep(cfg, cacheIn, batch, numGenBatches)
    ensures cache == Cached(cacheIn, batch)
  {
    var keep := KeepIndices(Stds(batch), batch);
    var filtered := Batch(Select(batch, keep), Rewards(batch));
    AppendNothing(filtered.rows);
    AppendNothing(filtered.totals);
    hide Select;
    hide Survivors;
    hide Rewards;
    cache := cacheIn;
    if |filtered.rows| > 0 {
      cache := if cache.None? then Some(filtered)
               else Some(Batch(cache.value.rows + filtered.rows, cache.value.totals + filtered.totals));
      filtered := cache.value;
    }
    if |filtered.rows| < cfg.size {
      if cfg.maxBatches <= 0 {
        event := Raise;
      } else {
        event := if numGenBatches <= cfg.maxBatches then Continue else Raise;
      }
    } else {
      event := Train(filtered.rows[..cfg.size], Take(filtered.totals, cfg.size));
    }
  }

  function LegacyRun(cfg: Config, batches: seq<seq<Row>>, cache: Option<Batch>, count: nat): seq<Event>
    decreases |batches|
  {
    if batches == [] then []
    else
      var event := LegacyStep(cfg, cache, batches[0], count + 1);
      match event
      case Raise => [event]
      case Continue => [event] + LegacyRun(cfg, batches[1..], Cached(cache, batches[0]), count + 1)
      case Train(_, _) => [event] + LegacyRun(cfg, batches[1..], None, 0)
  }

  lemma LegacyRunStep(cfg: Config, batches: seq<seq<Row>>, cache: Option<Batch>, count: nat)
    requires batches != []
    ensures var event := LegacyStep(cfg, cache, batches[0], count + 1);
      LegacyRun(cfg, batches, cache, count) == [event] + (
        match event
        case Raise => []
        case Continue => LegacyRun(cfg, batches[1..], Cached(cache, batches[0]), count + 1)
        case Train(_, _) => LegacyRun(cfg, batches[1..], None, 0))
  {}

  /** The batch loop of one epoch around the in-memory form. */
  method RunEpoch(cfg: Config, batches: seq<seq<Row>>) returns (events: seq<Event>)
    ensures events == LegacyRun(cfg, batches, None, 0)
  {
    events := [];
    var batchCache: Option<Batch> := None;
    var numGenBatches := 0;
    hide LegacyStep;
    hide Cached;
    assert batches[0..] == batches;
    for i := 0 to |batches|
      invariant events + LegacyRun(cfg, batches[i..], batchCache, numGenBatches) == LegacyRun(cfg, batches, None, 0)
      invariant numGenBatches >= 0
    {
      assert batches[i..][0] == batches[i] && batches[i..][1..] == batches[i + 1..];
      LegacyRunStep(cfg, batches[i..], batchCache, numGenBatches);
      ghost var done := events;
      numGenBatches := numGenBatches + 1;
      var event;
      event, batchCache := DynamicSamplingStep(batches[i], cfg, numGenBatches, batchCache);
      events := events + [event];
      AppendNothing([event]);
      if event.Raise? { return; }
      if event.Train? {
        batchCache, numGenBatches := None, 0;
      }
      AppendAssociates(done, [event], LegacyRun(cfg, batches[i + 1..], batchCache, numGenBatches));
    }
    assert LegacyRun(cfg, batches[|batches|..], batchCache, numGenBatches) == [];
  }

  // ----------------------------------------------------------- prompt groups

  /** The G samples of one prompt: spread is theirs in common. */
  predicate Uniform(group: seq<Row>, g: nat) {
    |group| == g > 0 && forall i | 0 <= i < g :: group[i].std == group[0].std
  }

  predicate AllUniform(groups: seq<seq<Row>>, g: nat) {
    forall i | 0 <= i < |groups| :: Uniform(groups[i], g)
  }

  /** The groups with spread, in order. */
  function Kept(groups: seq<seq<Row>>): seq<seq<Row>> {
    if groups == [] then []
    else
      var last := groups[|groups| - 1];
      Kept(groups[..|groups| - 1]) + (if last != [] && last[0].std != 0.0 then [last] else [])
  }

  lemma {:induction false} UniformSurvivors(group: seq<Row>, n: nat)
    requires n <= |group| && forall i | 0 <= i < |group| :: group[i].std == group[0].std
    ensures Survivors(group[..n]) == if n > 0 && group[0].std != 0.0 then group[..n] else []
  {
    if n > 0 {
      assert group[..n][..n - 1] == group[..n - 1];
      assert group[..n] == group[..n - 1] + [group[n - 1]];
      UniformSurvivors(group, n - 1);
    }
  }

  lemma {:induction false} KeptUniform(groups: seq<seq<Row>>, g: nat)
    requires AllUniform(groups, g)
    ensures AllUniform(Kept(groups), g) && forall i | 0 <= i < |Kept(groups)| :: Kept(groups)[i][0].std != 0.0
    decreases |groups|
  {
    if groups != [] {
      KeptUniform(groups[..|groups| - 1], g);
    }
  }

  /** Filtering rows of whole groups is filtering groups. */
  lemma {:induction false} SurvivorsOfGroups(groups: seq<seq<Row>>, g: nat)
    requires AllUniform(groups, g)
    ensures Survivors(Flatten(groups)) == Flatten(Kept(groups))
    decreases |groups|
  {
    if groups != [] {
      var front, last := groups[..|groups| - 1], groups[|groups| - 1];
      assert AllUniform(front, g);
      SurvivorsOfGroups(front, g);
      SurvivorsConcat(Flatten(front), last);
      LastGroupSurvivors(last, g);
      FlattenAppend(Kept(front), last);
      AppendNothing(Kept(front));
      AppendNothing(Flatten(Kept(front)));
      hide Survivors;
      hide Uniform;
      hide AllUniform;
    }
  }

  lemma LastGroupSurvivors(group: seq<Row>, g: nat)
    requires Uniform(group, g)
    ensures group != [] && Survivors(group) == if group[0].std != 0.0 then group else []
  {
    UniformSurvivors(group, |group|);
    assert group[..|group|] == group;
  }

  lemma {:induction false} FlattenUniform(groups: seq<seq<Row>>, g: nat, n: nat)
    requires AllUniform(groups, g) && n <= |groups|
    ensures |Flatten(groups)| == |groups| * g
    ensures |Flatten(groups[..n])| == n * g <= |Flatten(groups)|
    ensures Flatten(groups)[..n * g] == Flatten(groups[..n])
    decreases |groups|
  {
    if groups == [] {
    } else if n == |groups| {
      assert groups[..n] == groups;
      FlattenUniform(groups[..n - 1], g, n - 1);
      Multiply(n, g);
    } else {
      var k := |groups| - 1;
      FlattenUniform(groups[..k], g, n);
      assert groups[..k][..n] == groups[..n];
      Multiply(k + 1, g);
    }
  }

  /** The training rows are exactly `n` whole groups with spread. */
  ghost predicate WholeGroups(rows: seq<Row>, n: nat, g: nat) {
    exists chosen: seq<seq<Row>> ::
      && |chosen| == n && AllUniform(chosen, g) && rows == Flatten(chosen)
      && forall i | 0 <= i < n :: chosen[i][0].std != 0.0
  }

  lemma TrainedStepIsWholeGroups(cfg: Config, groups: seq<seq<Row>>, n: nat, g: nat, count: nat)
    requires AllUniform(groups, g) && cfg.size == n * g && g > 0
    ensures var event := SpecStep(cfg, Flatten(groups), count);
      event.Train? ==> WholeGroups(event.rows, n, g) && |event.rows| == cfg.size
  {
    var kept := Kept(groups);
    SurvivorsOfGroups(groups, g);
    KeptUniform(groups, g);
    hide Survivors;
    hide Uniform;
    hide Kept;
    hide Flatten;
    FlattenUniform(kept, g, 0);
    if |kept| * g >= n * g {
      Cancel(|kept|, n, g);
      FlattenUniform(kept, g, n);
      assert AllUniform(kept[..n], g);
    }
  }

  function FlattenEach(batches: seq<seq<seq<Row>>>): seq<seq<Row>> {
    seq(|batches|, i requires 0 <= i < |batches| => Flatten(batches[i]))
  }

  ghost predicate TrainOnWholeGroups(events: seq<Event>, cfg: Config, n: nat, g: nat) {
    forall i | 0 <= i < |events| :: events[i].Train? ==> WholeGroups(events[i].rows, n, g) && |events[i].rows| == cfg.size
  }

  lemma WholeGroupsCons(event: Event, events: seq<Event>, cfg: Config, n: nat, g: nat)
    requires event.Train? ==> WholeGroups(event.rows, n, g) && |event.rows| == cfg.size
    requires TrainOnWholeGroups(events, cfg, n, g)
    ensures TrainOnWholeGroups([event] + events, cfg, n, g)
  {
    hide WholeGroups;
  }

  /** Every batch either form trains on is exactly `n` whole prompt groups, if batches are generated in
      groups of `g` with common spread and the training size is `n * g`. */
  lemma {:induction false} TrainsOnWholeGroups(cfg: Config, batches: seq<seq<seq<Row>>>, since: seq<seq<Row>>,
                                              count: nat, n: nat, g: nat)
    requires cfg.size == n * g && g > 0 && AllUniform(since, g)
    requires forall i | 0 <= i < |batches| :: AllUniform(batches[i], g)
    ensures TrainOnWholeGroups(SpecRun(cfg, FlattenEach(batches), Flatten(since), count), cfg, n, g)
    decreases |batches|
  {
    if batches != [] {
      var rest := batches[1..];
      var flat := FlattenEach(batches);
      assert flat[0] == Flatten(batches[0]) && flat[1..] == FlattenEach(rest);
      FlattenConcat(since, batches[0]);
      forall i | 0 <= i < |rest| ensures AllUniform(rest[i], g) { assert rest[i] == batches[i + 1]; }
      assert AllUniform(since + batches[0], g);
      TrainedStepIsWholeGroups(cfg, since + batches[0], n, g, count + 1);
      TrainsOnWholeGroups(cfg, rest, since + batches[0], count + 1, n, g);
      TrainsOnWholeGroups(cfg, rest, [], 0, n, g);
      assert Flatten<Row>([]) == [];
      SpecRunStep(cfg, flat, Flatten(since), count);
      hide *;
      var event := SpecStep(cfg, Flatten(since) + flat[0], count + 1);
      var after := match event
        case Raise => []
        case Continue => SpecRun(cfg, flat[1..], Flatten(since) + flat[0], count + 1)
        case Train(_, _) => SpecRun(cfg, flat[1..], [], 0);
      NoEventsTrain(cfg, n, g);
      WholeGroupsCons(event, after, cfg, n, g);
    }
  }

  lemma NoEventsTrain(cfg: Config, n: nat, g: nat)
    ensures TrainOnWholeGroups([], cfg, n, g)
  {}
}
