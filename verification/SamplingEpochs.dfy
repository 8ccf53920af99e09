/** Key-store dynamic sampling over several epochs: what the store holds when a run is over. */
module SamplingEpochs {
  import opened Wrappers
  import opened DynamicSampling

  /** Epochs whose keys are new to the store and to the epochs before them. */
  ghost predicate FreshEpochs(epochs: seq<seq<seq<Row>>>, live: set<Key>)
    decreases |epochs|
  {
    epochs == [] || (FreshBatches(epochs[0], live) && FreshEpochs(epochs[1..], live + AllKeys(epochs[0])))
  }

  lemma {:induction false} FreshEpochsLess(epochs: seq<seq<seq<Row>>>, live: set<Key>, less: set<Key>)
    requires FreshEpochs(epochs, live) && less <= live
    ensures FreshEpochs(epochs, less)
    decreases |epochs|
  {
    hide AllKeys, FreshBatches;
    if epochs != [] {
      FreshLess(epochs[0], live);
      FreshEpochsLess(epochs[1..], live + AllKeys(epochs[0]), less + AllKeys(epochs[0]));
    }
  }

  predicate Fails(events: seq<Event>) {
    events != [] && events[|events| - 1].Raise?
  }

  /** The keys of the survivors every epoch leaves over. */
  function LeftOver(cfg: Config, epochs: seq<seq<seq<Row>>>): set<Key> {
    if epochs == [] then {}
    else LeftOver(cfg, epochs[..|epochs| - 1]) + KeySet(Survivors(SpecTail(cfg, epochs[|epochs| - 1], [], 0)))
  }

  lemma LeftOverNext(cfg: Config, epochs: seq<seq<seq<Row>>>, i: nat)
    requires i < |epochs|
    ensures LeftOver(cfg, epochs[..i + 1]) == LeftOver(cfg, epochs[..i]) + KeySet(Survivors(SpecTail(cfg, epochs[i], [], 0)))
  {
    assert epochs[..i + 1][..i] == epochs[..i];
  }

  /** What a sampler holds between steps. */
  lemma LiveBetweenSteps(sampler: SyncSampler)
    requires sampler.Valid() && sampler.training == None
    ensures sampler.store.live == sampler.abandoned + KeySet(Survivors(sampler.sinceTraining))
  {}

  /** A whole run, epoch by epoch, up to its end or the first failure. After a run that does not fail the
      store holds exactly what the epochs left over. */
  method RunEpochs(sampler: SyncSampler, epochs: seq<seq<seq<Row>>>) returns (events: seq<seq<Event>>, failed: bool)
    requires sampler.Valid() && sampler.training == None && sampler.sinceTraining == [] && sampler.store.live == {}
    requires FreshEpochs(epochs, {})
    modifies sampler, sampler.store
    ensures |events| <= |epochs| && forall i | 0 <= i < |events| :: events[i] == SpecRun(sampler.cfg, epochs[i], [], 0)
    ensures failed <==> exists i :: 0 <= i < |events| && Fails(events[i])
    ensures !failed ==> |events| == |epochs| && sampler.store.live == LeftOver(sampler.cfg, epochs)
    ensures !failed ==> (sampler.store.live == {} <==>
      forall i | 0 <= i < |epochs| :: Survivors(SpecTail(sampler.cfg, epochs[i], [], 0)) == [])
  {
    hide *;
    events, failed := [], false;
    assert epochs[0..] == epochs && epochs[..0] == [];
    NothingLeftOver(sampler.cfg);
    for i := 0 to |epochs|
      invariant sampler.Valid() && sampler.training == None
      invariant FreshEpochs(epochs[i..], sampler.store.live)
      invariant sampler.store.live == LeftOver(sampler.cfg, epochs[..i])
      invariant |events| == i && forall j | 0 <= j < i :: events[j] == SpecRun(sampler.cfg, epochs[j], [], 0)
      invariant forall j | 0 <= j < i :: !Fails(events[j])
    {
      FreshEpochsStep(epochs, i, sampler.store.live);
      LiveBetweenSteps(sampler);
      sampler.StartEpoch();
      LiveBetweenSteps(sampler);
      NoSurvivors();
      ghost var before := sampler.store.live;
      var epochEvents := sampler.RunEpoch(epochs[i]);
      LiveBetweenSteps(sampler);
      events := events + [epochEvents];
      if Fails(epochEvents) {
        return events, true;
      }
      LeftOverNext(sampler.cfg, epochs, i);
      FreshEpochsLess(epochs[i + 1..], before + AllKeys(epochs[i]), sampler.store.live);
    }
    assert epochs[..|epochs|] == epochs;
    StoreEmptyIff(sampler.cfg, epochs);
  }

  lemma FreshEpochsStep(epochs: seq<seq<seq<Row>>>, i: nat, live: set<Key>)
    requires i < |epochs| && FreshEpochs(epochs[i..], live)
    ensures FreshBatches(epochs[i], live) && FreshEpochs(epochs[i + 1..], live + AllKeys(epochs[i]))
  {
    hide AllKeys, FreshBatches;
    assert epochs[i..][0] == epochs[i] && epochs[i..][1..] == epochs[i + 1..];
  }

  lemma NothingLeftOver(cfg: Config)
    ensures LeftOver(cfg, []) == {}
  {}

  lemma NoSurvivors()
    ensures KeySet(Survivors([])) == {}
  {}

  /** The store is empty after such a run if and only if no epoch leaves a survivor over. */
  lemma {:induction false} StoreEmptyIff(cfg: Config, epochs: seq<seq<seq<Row>>>)
    ensures LeftOver(cfg, epochs) == {} <==>
      forall i | 0 <= i < |epochs| :: Survivors(SpecTail(cfg, epochs[i], [], 0)) == []
    decreases |epochs|
  {
    hide SpecTail, Survivors;
    if epochs != [] {
      var front, last := epochs[..|epochs| - 1], epochs[|epochs| - 1];
      StoreEmptyIff(cfg, front);
      NoKeysIff(Survivors(SpecTail(cfg, last, [], 0)));
      hide KeySet;
      assert forall i | 0 <= i < |front| :: front[i] == epochs[i];
    }
  }

  lemma NoKeysIff(rows: seq<Row>)
    ensures KeySet(rows) == {} <==> rows == []
  {
    if rows != [] {
      assert rows[0].key in KeySet(rows);
    }
  }

  /** A run of one epoch with one batch that trains nothing leaves its survivor's key in the store. */
  lemma StoreCanKeepKeys()
    ensures SpecRun(Config(2, 5), [[SPREAD]], [], 0) == [Continue]
    ensures LeftOver(Config(2, 5), [[[SPREAD]]]) == {SPREAD.key}
  {
    hide *;
    OneSurvivor();
    LeftOverNext(Config(2, 5), [[[SPREAD]]], 0);
    NothingLeftOver(Config(2, 5));
    assert [[[SPREAD]]][..1] == [[[SPREAD]]] && [[[SPREAD]]][..0] == [];
    OneKey(SPREAD);
  }

  lemma OneKey(row: Row)
    ensures KeySet([row]) == {row.key}
  {
    assert row in [row];
  }

  lemma OneSurvivor()
    ensures SpecRun(Config(2, 5), [[SPREAD]], [], 0) == [Continue]
    ensures SpecTail(Config(2, 5), [[SPREAD]], [], 0) == [SPREAD] == Survivors([SPREAD])
  {
    var cfg := Config(2, 5);
    assert [SPREAD][..0] == [] && Survivors([SPREAD]) == [SPREAD];
    assert [] + [SPREAD] == [SPREAD];
    assert SpecStep(cfg, [SPREAD], 1) == Continue;
    hide Survivors, SpecStep;
    assert [[SPREAD]][1..] == [];
    SpecRunStep(cfg, [[SPREAD]], [], 0);
    SpecTailStep(cfg, [[SPREAD]], [], 0);
    SpecRunEnd(cfg, [SPREAD], 1);
    SpecTailEnd(cfg, [SPREAD], 1);
  }
}
