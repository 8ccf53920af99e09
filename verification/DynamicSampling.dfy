/** Dynamic sampling: keep the rows whose prompt group has spread, accumulate them over
    generated batches, train once there are enough. The key-store form and the in-memory
    form are both related to one plain specification over the rows generated so far. */
module DynamicSampling {
  import opened Wrappers

  type Key = nat

  /** One generated sample. `key` is its entry in the external store. */
  datatype Row = Row(key: Key, std: real, reward: real, payload: nat)

  /** A row without spread and one with. */
  const FLAT := Row(0, 0.0, 1.0, 0)
  const SPREAD := Row(1, 1.0, 2.0, 0)

  function Survivors(rows: seq<Row>): (kept: seq<Row>)
    ensures |kept| <= |rows|
  {
    if rows == [] then []
    else
      var last := rows[|rows| - 1];
      Survivors(rows[..|rows| - 1]) + (if last.std != 0.0 then [last] else [])
  }

  function Rewards(rows: seq<Row>): seq<real> {
    seq(|rows|, i requires 0 <= i < |rows| => rows[i].reward)
  }

  function Keys(rows: seq<Row>): seq<Key> {
    seq(|rows|, i requires 0 <= i < |rows| => rows[i].key)
  }

  function Stds(rows: seq<Row>): seq<real> {
    seq(|rows|, i requires 0 <= i < |rows| => rows[i].std)
  }

  function Take<T>(s: seq<T>, n: nat): seq<T> {
    if n <= |s| then s[..n] else s
  }

  lemma {:induction false} SurvivorsConcat(a: seq<Row>, b: seq<Row>)
    ensures Survivors(a + b) == Survivors(a) + Survivors(b)
    decreases |b|
  {
    if b == [] {
      assert a + b == a;
    } else {
      SurvivorsConcat(a, b[..|b| - 1]);
      assert (a + b)[..|a + b| - 1] == a + b[..|b| - 1];
    }
  }

  lemma RewardsConcat(a: seq<Row>, b: seq<Row>)
    ensures Rewards(a + b) == Rewards(a) + Rewards(b)
  {}

  // ----------------------------------------------------------- specification

  /** What one generated batch leads to. */
  datatype Event = Continue | Train(rows: seq<Row>, logged: seq<real>) | Raise

  /** Training size, bound on batches per step. */
  datatype Config = Config(size: nat, maxBatches: int)

  function SpecStep(cfg: Config, sinceTraining: seq<Row>, count: nat): Event {
    if |Survivors(sinceTraining)| < cfg.size then
      if count > cfg.maxBatches then Raise else Continue
    else Train(Take(Survivors(sinceTraining), cfg.size), Take(Rewards(sinceTraining), cfg.size))
  }

  /** The plain specification of one epoch: look at all rows generated since the last training. */
  function SpecRun(cfg: Config, batches: seq<seq<Row>>, sinceTraining: seq<Row>, count: nat): seq<Event>
    decreases |batches|
  {
    if batches == [] then []
    else
      var rows := sinceTraining + batches[0];
      var event := SpecStep(cfg, rows, count + 1);
      match event
      case Raise => [event]
      case Continue => [event] + SpecRun(cfg, batches[1..], rows, count + 1)
      case Train(_, _) => [event] + SpecRun(cfg, batches[1..], [], 0)
  }

  lemma SpecRunStep(cfg: Config, batches: seq<seq<Row>>, sinceTraining: seq<Row>, count: nat)
    requires batches != []
    ensures var event := SpecStep(cfg, sinceTraining + batches[0], count + 1);
      SpecRun(cfg, batches, sinceTraining, count) == [event] + (
        match event
        case Raise => []
        case Continue => SpecRun(cfg, batches[1..], sinceTraining + batches[0], count + 1)
        case Train(_, _) => SpecRun(cfg, batches[1..], [], 0))
  {}

  lemma SpecRunEnd(cfg: Config, sinceTraining: seq<Row>, count: nat)
    ensures SpecRun(cfg, [], sinceTraining, count) == []
  {}

  /** The rows of an epoch generated after its last training step; what a failing batch leaves, too. */
  function SpecTail(cfg: Config, batches: seq<seq<Row>>, sinceTraining: seq<Row>, count: nat): seq<Row>
    decreases |batches|
  {
    if batches == [] then sinceTraining
    else
      var rows := sinceTraining + batches[0];
      match SpecStep(cfg, rows, count + 1)
      case Raise => rows
      case Continue => SpecTail(cfg, batches[1..], rows, count + 1)
      case Train(_, _) => SpecTail(cfg, batches[1..], [], 0)
  }

  lemma SpecTailStep(cfg: Config, batches: seq<seq<Row>>, sinceTraining: seq<Row>, count: nat)
    requires batches != []
    ensures SpecTail(cfg, batches, sinceTraining, count) ==
      match SpecStep(cfg, sinceTraining + batches[0], count + 1)
      case Raise => sinceTraining + batches[0]
      case Continue => SpecTail(cfg, batches[1..], sinceTraining + batches[0], count + 1)
      case Train(_, _) => SpecTail(cfg, batches[1..], [], 0)
  {}

  lemma SpecTailEnd(cfg: Config, sinceTraining: seq<Row>, count: nat)
    ensures SpecTail(cfg, [], sinceTraining, count) == sinceTraining
  {}

  lemma AppendNothing<T>(a: seq<T>)
    ensures [] + a == a && a + [] == a
  {}

  lemma AppendAssociates<T>(a: seq<T>, b: seq<T>, c: seq<T>)
    ensures (a + b) + c == a + (b + c)
  {}

  // ------------------------------------------------------- the key-store form

  datatype Meta = Meta(keys: seq<Key>, tags: Option<seq<real>>)

  function MetaOf(rows: seq<Row>): Meta {
    Meta(Keys(rows), Some(Stds(rows)))
  }

  datatype Pending = Pending(meta: Meta, carry: seq<Row>)

  function CarryOf(pending: Option<Pending>): seq<Row> {
    match pending case None => [] case Some(p) => p.carry
  }

  predicate Aligned(pending: Option<Pending>) {
    pending.Some? ==> pending.value.meta == MetaOf(pending.value.carry)
  }

  /** The external store: the set of keys whose payload is alive. */
  class KeyStore {
    var live: set<Key>

    constructor ()
      ensures live == {}
    {
      live := {};
    }

    method Put(keys: seq<Key>)
      modifies this
      ensures live == old(live) + (set k | k in keys)
    {
      live := live + (set k | k in keys);
    }

    /** `discard_samples`, and `finish_step` on a trained batch. */
    method Discard(keys: seq<Key>)
      modifies this
      ensures live == old(live) - (set k | k in keys)
    {
      live := live - (set k | k in keys);
    }
  }

  function KeySet(rows: seq<Row>): set<Key> {
    set r | r in rows :: r.key
  }

  lemma KeySetIsKeys(rows: seq<Row>)
    ensures KeySet(rows) == set k | k in Keys(rows)
  {
    forall r | r in rows
      ensures r.key in Keys(rows)
    {
      var i :| 0 <= i < |rows| && rows[i] == r;
      assert Keys(rows)[i] == r.key;
    }
  }

  function Select<T>(s: seq<T>, indices: seq<nat>): (r: seq<T>)
    requires forall i | 0 <= i < |indices| :: indices[i] < |s|
  {
    seq(|indices|, i requires 0 <= i < |indices| => s[indices[i]])
  }

  /** The keys of the rows without spread. */
  function DroppedKeys(rows: seq<Row>): set<Key> {
    set r | r in rows && r.std == 0.0 :: r.key
  }

  lemma DroppedAppend(rows: seq<Row>, r: Row, keys: seq<Key>)
    requires r.std == 0.0 && (set k | k in keys) == DroppedKeys(rows)
    ensures (set k | k in keys + [r.key]) == DroppedKeys(rows + [r])
  {
    assert (set k | k in keys + [r.key]) == (set k | k in keys) + {r.key};
    assert DroppedKeys(rows + [r]) == DroppedKeys(rows) + {r.key};
  }

  lemma SelectAppend<T>(s: seq<T>, keep: seq<nat>, i: nat)
    requires i < |s| && forall j | 0 <= j < |keep| :: keep[j] < |s|
    ensures Select(s, keep + [i]) == Select(s, keep) + [s[i]]
  {}

  lemma SurvivorsStep(rows: seq<Row>, i: nat)
    requires i < |rows|
    ensures Survivors(rows[..i + 1]) == Survivors(rows[..i]) + (if rows[i].std != 0.0 then [rows[i]] else [])
  {
    assert rows[..i + 1][..i] == rows[..i];
  }

  /** The indices whose tag shows spread. */
  method KeepIndices(stds: seq<real>, ghost rows: seq<Row>) returns (keep: seq<nat>)
    requires stds == Stds(rows)
    ensures forall j | 0 <= j < |keep| :: keep[j] < |rows|
    ensures Select(rows, keep) == Survivors(rows)
    ensures keep != [] <==> Survivors(rows) != []
  {
    keep := [];
    assert rows[..0] == [] && Select(rows, []) == [] == Survivors([]);
    hide Select;
    hide Survivors;
    for i := 0 to |stds|
      invariant forall j | 0 <= j < |keep| :: keep[j] < |rows|
      invariant Select(rows, keep) == Survivors(rows[..i])
      invariant |keep| == |Survivors(rows[..i])|
    {
      SurvivorsStep(rows, i);
      AppendNothing(Survivors(rows[..i]));
      if stds[i] != 0.0 {
        SelectAppend(rows, keep, i);
        keep := keep + [i];
      }
    }
    assert rows[..|stds|] == rows;
  }

  /** The keys whose tag shows none. */
  method DropKeys(meta: Meta, ghost rows: seq<Row>) returns (keys: seq<Key>)
    requires meta == MetaOf(rows)
    ensures (set k | k in keys) == DroppedKeys(rows)
  {
    keys := [];
    var stds := meta.tags.value;
    for i := 0 to |stds|
      invariant (set k | k in keys) == DroppedKeys(rows[..i])
    {
      assert rows[..i + 1] == rows[..i] + [rows[i]];
      if stds[i] == 0.0 {
        DroppedAppend(rows[..i], rows[i], keys);
        keys := keys + [meta.keys[i]];
      }
    }
    assert rows[..|stds|] == rows;
  }

  lemma SelectMeta(carry: seq<Row>, keep: seq<nat>)
    requires forall i | 0 <= i < |keep| :: keep[i] < |carry|
    ensures Select(Keys(carry), keep) == Keys(Select(carry, keep))
    ensures Select(Stds(carry), keep) == Stds(Select(carry, keep))
  {}

  lemma MetaConcat(a: seq<Row>, b: seq<Row>)
    ensures Keys(a + b) == Keys(a) + Keys(b) && Stds(a + b) == Stds(a) + Stds(b)
  {}

  lemma MetaSlice(rows: seq<Row>, n: nat)
    requires n <= |rows|
    ensures Keys(rows)[..n] == Keys(rows[..n]) && Keys(rows)[n..] == Keys(rows[n..])
    ensures Stds(rows)[..n] == Stds(rows[..n])
  {}

  function Flatten<T>(parts: seq<seq<T>>): seq<T> {
    if parts == [] then [] else Flatten(parts[..|parts| - 1]) + parts[|parts| - 1]
  }

  lemma FlattenAppend<T>(parts: seq<seq<T>>, last: seq<T>)
    ensures Flatten(parts + [last]) == Flatten(parts) + last
  {
    assert (parts + [last])[..|parts|] == parts;
  }

  lemma {:induction false} FlattenConcat<T>(a: seq<seq<T>>, b: seq<seq<T>>)
    ensures Flatten(a + b) == Flatten(a) + Flatten(b)
    decreases |b|
  {
    if b == [] {
      assert a + b == a;
    } else {
      FlattenConcat(a, b[..|b| - 1]);
      assert (a + b)[..|a + b| - 1] == a + b[..|b| - 1];
      assert (a + b)[|a + b| - 1] == b[|b| - 1];
      AppendAssociates(Flatten(a), Flatten(b[..|b| - 1]), b[|b| - 1]);
    }
  }

  /** The rows beyond the training size. */
  function Overflow(pending: seq<Row>, size: nat): seq<Row> {
    if size < |pending| then pending[size..] else []
  }

  /** Survivors join the running cache, metadata and carried rows alike. */
  method MergeSurvivors(meta: Meta, carry: seq<Row>, keep: seq<nat>, pendingIn: Option<Pending>)
    returns (pending: Option<Pending>)
    requires meta == MetaOf(carry) && Aligned(pendingIn)
    requires forall i | 0 <= i < |keep| :: keep[i] < |carry|
    ensures Aligned(pending) && CarryOf(pending) == CarryOf(pendingIn) + Select(carry, keep)
  {
    pending := pendingIn;
    if keep != [] {
      SelectMeta(carry, keep);
      var survivorsMeta := Meta(Select(meta.keys, keep), Some(Select(meta.tags.value, keep)));
      var survivors := Select(carry, keep);
      if pending.None? {
        pending := Some(Pending(survivorsMeta, survivors));
      } else {
        var p := pending.value;
        MetaConcat(p.carry, survivors);
        pending := Some(Pending(
          Meta(p.meta.keys + survivorsMeta.keys, Some(p.meta.tags.value + survivorsMeta.tags.value)),
          p.carry + survivors));
      }
    }
  }

  /** A complete cache is cut to the training size and the overflow leaves the store. */
  method SliceToSize(p: Pending, size: nat, store: KeyStore) returns (batch: Pending)
    requires p.meta == MetaOf(p.carry) && |p.carry| >= size
    modifies store
    ensures batch.meta == MetaOf(batch.carry) && batch.carry == Take(p.carry, size)
    ensures store.live == old(store.live) - KeySet(Overflow(p.carry, size))
  {
    batch := p;
    if |p.meta.keys| > size {
      MetaSlice(p.carry, size);
      KeySetIsKeys(p.carry[size..]);
      store.Discard(p.meta.keys[size..]);
      batch := Pending(Meta(p.meta.keys[..size], Some(p.meta.tags.value[..size])), p.carry[..size]);
    }
  }

  /** One dynamic-sampling iteration over metadata, carried rows and the store. */
  method ApplyDynamicSampling(meta: Meta, carry: seq<Row>, pendingIn: Option<Pending>, unfilteredIn: seq<seq<real>>,
                              cfg: Config, numGenBatches: nat, store: KeyStore)
    returns (pending: Option<Pending>, unfiltered: seq<seq<real>>, event: Event)
    requires meta == MetaOf(carry) && Aligned(pendingIn) && cfg.size > 0
    modifies store
    ensures var merged := CarryOf(pendingIn) + Survivors(carry);
      && Aligned(pending)
      && (event.Train? <==> |merged| >= cfg.size)
      && (event.Raise? <==> |merged| < cfg.size && numGenBatches > cfg.maxBatches)
      && CarryOf(pending) == (if event.Train? then Take(merged, cfg.size) else merged)
      && (event.Train? ==>
            event.rows == CarryOf(pending)
            && event.logged == Take(Flatten(unfilteredIn) + Rewards(carry), cfg.size))
      && Flatten(unfiltered) == (if event.Train? then [] else Flatten(unfilteredIn) + Rewards(carry))
      && store.live == old(store.live) - DroppedKeys(carry)
           - (if event.Train? then KeySet(Overflow(merged, cfg.size)) else {})
  {
    unfiltered := unfilteredIn + [Rewards(carry)];
    FlattenAppend(unfilteredIn, Rewards(carry));
    var keep := KeepIndices(meta.tags.value, carry);
    var dropKeys := DropKeys(meta, carry);
    if dropKeys != [] {
      store.Discard(dropKeys);
    }
    assert store.live == old(store.live) - DroppedKeys(carry);
    pending := MergeSurvivors(meta, carry, keep, pendingIn);
    hide Survivors;
    hide Select;
    hide DroppedKeys;
    hide Flatten;
    hide Rewards;
    hide KeySet;
    hide Overflow;
    hide Take;
    var n := match pending case None => 0 case Some(p) => |p.meta.keys|;
    if n < cfg.size {
      event := if numGenBatches > cfg.maxBatches then Raise else Continue;
      return;
    }
    var batch := SliceToSize(pending.value, cfg.size, store);
    pending := Some(batch);
    event := Train(pending.value.carry, Take(Flatten(unfiltered), cfg.size));
    unfiltered := [];
    assert Flatten(unfiltered) == [] by { EmptyKeys(); }
  }

  predicate DistinctKeys(rows: seq<Row>) {
    forall i, j | 0 <= i < j < |rows| :: rows[i].key != rows[j].key
  }

  /** Batches whose keys are new to the store and to each other. */
  ghost predicate FreshBatches(batches: seq<seq<Row>>, live: set<Key>) {
    && (forall i | 0 <= i < |batches| :: DistinctKeys(batches[i]) && KeySet(batches[i]) !! live)
    && (forall i, j | 0 <= i < j < |batches| :: KeySet(batches[i]) !! KeySet(batches[j]))
  }

  lemma FreshHead(batches: seq<seq<Row>>, live: set<Key>)
    requires FreshBatches(batches, live) && batches != []
    ensures DistinctKeys(batches[0]) && KeySet(batches[0]) !! live
  {}

  lemma FreshTail(batches: seq<seq<Row>>, live: set<Key>, after: set<Key>)
    requires FreshBatches(batches, live) && batches != [] && after <= live + KeySet(batches[0])
    ensures FreshBatches(batches[1..], after)
  {
    hide KeySet;
    hide DistinctKeys;
    var rest := batches[1..];
    forall i | 0 <= i < |rest|
      ensures DistinctKeys(rest[i]) && KeySet(rest[i]) !! after
    {
      assert rest[i] == batches[i + 1];
    }
  }

  lemma FreshLess(batches: seq<seq<Row>>, live: set<Key>)
    requires FreshBatches(batches, live)
    ensures forall after: set<Key> | after <= live :: FreshBatches(batches, after)
  {
    hide KeySet;
    hide DistinctKeys;
  }

  /** The keys of all batches. */
  function AllKeys(batches: seq<seq<Row>>): set<Key> {
    if batches == [] then {} else KeySet(batches[0]) + AllKeys(batches[1..])
  }

  lemma AllKeysStep(batches: seq<seq<Row>>, i: nat)
    requires i < |batches|
    ensures AllKeys(batches[i..]) == KeySet(batches[i]) + AllKeys(batches[i + 1..])
  {
    assert batches[i..][0] == batches[i] && batches[i..][1..] == batches[i + 1..];
  }

  lemma {:induction false} SurvivorsAre(rows: seq<Row>)
    ensures forall r :: r in Survivors(rows) <==> r in rows && r.std != 0.0
    ensures DistinctKeys(rows) ==> DistinctKeys(Survivors(rows))
    decreases |rows|
  {
    if rows != [] {
      var front, last := rows[..|rows| - 1], rows[|rows| - 1];
      SurvivorsAre(front);
      assert rows == front + [last];
      if DistinctKeys(rows) {
        var kept := Survivors(front);
        forall i | 0 <= i < |kept|
          ensures kept[i].key != last.key
        {
          assert kept[i] in front;
        }
      }
    }
  }

  lemma KeyOf(rows: seq<Row>, r: Row)
    requires r in rows
    ensures r.key in KeySet(rows)
  {}

  /** Filtering a fresh batch by row and by key is the same thing. */
  lemma FilteredKeys(batch: seq<Row>)
    requires DistinctKeys(batch)
    ensures KeySet(Survivors(batch)) == KeySet(batch) - DroppedKeys(batch)
  {
    SurvivorsAre(batch);
    forall k | k in KeySet(Survivors(batch))
      ensures k in KeySet(batch) && k !in DroppedKeys(batch)
    {
      var r :| r in Survivors(batch) && r.key == k;
      KeyOf(batch, r);
      forall r' | r' in batch && r'.key == k
        ensures r'.std != 0.0
      {
        SameKeySameRow(batch, r, r');
      }
    }
    forall k | k in KeySet(batch) && k !in DroppedKeys(batch)
      ensures k in KeySet(Survivors(batch))
    {
      var r :| r in batch && r.key == k;
      KeyOf(Survivors(batch), r);
    }
  }

  lemma SameKeySameRow(rows: seq<Row>, r: Row, r': Row)
    requires DistinctKeys(rows) && r in rows && r' in rows && r.key == r'.key
    ensures r == r'
  {
    var i :| 0 <= i < |rows| && rows[i] == r;
    var j :| 0 <= j < |rows| && rows[j] == r';
  }

  lemma MergedDistinct(before: seq<Row>, batch: seq<Row>)
    requires DistinctKeys(before) && DistinctKeys(batch) && KeySet(before) !! KeySet(batch)
    ensures DistinctKeys(before + Survivors(batch))
  {
    SurvivorsAre(batch);
    var merged := before + Survivors(batch);
    forall i, j | 0 <= i < j < |merged|
      ensures merged[i].key != merged[j].key
    {
      if i < |before| <= j {
        assert merged[j] in Survivors(batch);
        KeyOf(batch, merged[j]);
        KeyOf(before, merged[i]);
      }
    }
  }

  lemma KeySetConcat(a: seq<Row>, b: seq<Row>)
    ensures KeySet(a + b) == KeySet(a) + KeySet(b)
  {}

  lemma TakeLength<T>(s: seq<T>, n: nat)
    ensures |Take(s, n)| == if n <= |s| then n else |s|
  {}

  lemma EmptyKeys()
    ensures KeySet([]) == {} && Survivors([]) == [] && Rewards([]) == [] && Flatten<real>([]) == [] && DistinctKeys([])
  {}

  /** Slicing splits the keys of distinct rows into the kept and the overflowing. */
  lemma OverflowKeys(merged: seq<Row>, size: nat)
    requires DistinctKeys(merged)
    ensures KeySet(Take(merged, size)) == KeySet(merged) - KeySet(Overflow(merged, size))
    ensures KeySet(Overflow(merged, size)) <= KeySet(merged)
  {
    if size < |merged| {
      var kept, over := merged[..size], merged[size..];
      assert merged == kept + over;
      KeySetConcat(kept, over);
      forall a, b | a in kept && b in over
        ensures a.key != b.key
      {
        var i :| 0 <= i < |kept| && kept[i] == a;
        var j :| 0 <= j < |over| && over[j] == b;
        assert merged[i].key != merged[size + j].key;
      }
    }
  }

  /** The key algebra of one iteration: what stays alive is what stays pending or is trained. */
  lemma KeysAfter(abandoned: set<Key>, before: seq<Row>, batch: seq<Row>, size: nat, live: set<Key>, trains: bool)
    requires DistinctKeys(before) && DistinctKeys(batch)
    requires abandoned !! KeySet(before) && abandoned + KeySet(before) !! KeySet(batch)
    requires live == abandoned + KeySet(before) + KeySet(batch) - DroppedKeys(batch)
      - (if trains then KeySet(Overflow(before + Survivors(batch), size)) else {})
    ensures var left := if trains then Take(before + Survivors(batch), size) else before + Survivors(batch);
      live == abandoned + KeySet(left) && abandoned !! KeySet(left) && DistinctKeys(left)
  {
    var merged := before + Survivors(batch);
    MergedDistinct(before, batch);
    KeySetConcat(before, Survivors(batch));
    OverflowKeys(merged, size);
    FilteredKeys(batch);
    DroppedAreBatch(batch);
    hide KeySet;
    hide DroppedKeys;
  }

  lemma DroppedAreBatch(batch: seq<Row>)
    ensures DroppedKeys(batch) <= KeySet(batch)
  {}

  /** The epoch-local state of the synchronous trainer around its store. */
  class SyncSampler {
    const cfg: Config
    const store: KeyStore
    var pending: Option<Pending>
    var unfiltered: seq<seq<real>>
    var numGenBatches: nat
    var training: Option<seq<Row>>
    ghost var sinceTraining: seq<Row>
    ghost var abandoned: set<Key>

    /** Between iterations exactly the pending keys are alive, plus any an earlier epoch
        abandoned; while a batch trains, exactly its keys are. */
    ghost predicate Valid()
      reads this, store
    {
      && cfg.size > 0
      && Aligned(pending)
      && CarryOf(pending) == Survivors(sinceTraining) && |CarryOf(pending)| < cfg.size
      && Flatten(unfiltered) == Rewards(sinceTraining)
      && (training.Some? ==> sinceTraining == [] && |training.value| == cfg.size)
      && DistinctKeys(CarryOf(pending))
      && store.live == abandoned + LiveRows()
      && abandoned !! LiveRows()
    }

    ghost function LiveRows(): set<Key>
      reads this
    {
      KeySet(CarryOf(pending)) + (if training.Some? then KeySet(training.value) else {})
    }

    constructor (cfg: Config)
      requires cfg.size > 0
      ensures Valid() && this.cfg == cfg && sinceTraining == [] && numGenBatches == 0 && training == None
      ensures abandoned == {} && store.live == {} && fresh(store)
    {
      this.cfg := cfg;
      store := new KeyStore();
      pending, unfiltered, numGenBatches, training := None, [], 0, None;
      sinceTraining, abandoned := [], {};
    }

    /** One generated batch: its keys enter the store, zero-spread rows leave it, and the
        decision is the specification's. */
    method Iterate(batch: seq<Row>) returns (event: Event)
      requires Valid() && training == None
      requires KeySet(batch) !! store.live && DistinctKeys(batch)
      modifies this`pending, this`unfiltered, this`numGenBatches, this`training, this`sinceTraining, store
      ensures event == SpecStep(cfg, old(sinceTraining) + batch, old(numGenBatches) + 1)
      ensures Valid() && numGenBatches == old(numGenBatches) + 1
      ensures training == if event.Train? then Some(event.rows) else None
      ensures sinceTraining == if event.Train? then [] else old(sinceTraining) + batch
      ensures store.live == abandoned + KeySet(if event.Train? then event.rows else Survivors(sinceTraining))
      ensures store.live <= old(store.live) + KeySet(batch)
    {
      store.Put(Keys(batch));
      KeySetIsKeys(batch);
      hide KeySet;
      hide Survivors;
      hide Overflow;
      hide Rewards;
      hide Keys;
      hide Flatten;
      hide DistinctKeys;
      hide MetaOf;
      hide DroppedKeys;
      hide Take;
      ghost var before := CarryOf(pending);
      assert store.live == abandoned + KeySet(before) + KeySet(batch);
      SurvivorsConcat(sinceTraining, batch);
      RewardsConcat(sinceTraining, batch);
      var merged, rewards;
      merged, rewards, event :=
        ApplyDynamicSampling(MetaOf(batch), batch, pending, unfiltered, cfg, numGenBatches + 1, store);
      KeysAfter(abandoned, before, batch, cfg.size, store.live, event.Train?);
      assert store.live == abandoned + KeySet(CarryOf(merged)) && abandoned !! KeySet(CarryOf(merged));
      assert event == SpecStep(cfg, sinceTraining + batch, numGenBatches + 1);
      TakeLength(before + Survivors(batch), cfg.size);
      Adopt(merged, rewards, event, batch);
    }

    /** The loop body's bookkeeping once the decision is known. */
    method Adopt(merged: Option<Pending>, rewards: seq<seq<real>>, event: Event, ghost batch: seq<Row>)
      requires cfg.size > 0 && training == None && Aligned(merged) && DistinctKeys(CarryOf(merged))
      requires store.live == abandoned + KeySet(CarryOf(merged)) && abandoned !! KeySet(CarryOf(merged))
      requires event.Train? ==> event.rows == CarryOf(merged) && |event.rows| == cfg.size && Flatten(rewards) == []
      requires !event.Train? ==>
        && CarryOf(merged) == Survivors(sinceTraining + batch) && |CarryOf(merged)| < cfg.size
        && Flatten(rewards) == Rewards(sinceTraining + batch)
      modifies this`pending, this`unfiltered, this`numGenBatches, this`training, this`sinceTraining
      ensures Valid() && numGenBatches == old(numGenBatches) + 1
      ensures training == if event.Train? then Some(event.rows) else None
      ensures sinceTraining == if event.Train? then [] else old(sinceTraining) + batch
    {
      EmptyKeys();
      hide KeySet;
      hide Survivors;
      hide Rewards;
      hide Flatten;
      hide DistinctKeys;
      hide MetaOf;
      numGenBatches := numGenBatches + 1;
      if event.Train? {
        pending, unfiltered, training := None, rewards, Some(event.rows);
        sinceTraining := [];
      } else {
        pending, unfiltered := merged, rewards;
        sinceTraining := sinceTraining + batch;
      }
    }

    /** `finish_step`: the trained keys leave the store and the next step starts counting. */
    method FinishStep()
      requires Valid() && training.Some?
      modifies this`training, this`numGenBatches, store
      ensures Valid() && training == None && numGenBatches == 0
      ensures store.live == abandoned && store.live <= old(store.live)
    {
      store.Discard(Keys(training.value));
      KeySetIsKeys(training.value);
      training, numGenBatches := None, 0;
    }

    /** The batch loop of one epoch, up to its end or the first failure. What is left pending, and so alive,
        are the survivors since the last training step. */
    method RunEpoch(batches: seq<seq<Row>>) returns (events: seq<Event>)
      requires Valid() && training == None && sinceTraining == [] && numGenBatches == 0
      requires FreshBatches(batches, store.live)
      modifies this`pending, this`unfiltered, this`numGenBatches, this`training, this`sinceTraining, store
      ensures Valid() && training == None
      ensures events == SpecRun(cfg, batches, [], 0)
      ensures sinceTraining == SpecTail(cfg, batches, [], 0)
      ensures store.live <= old(store.live) + AllKeys(batches)
    {
      events := [];
      var i := 0;
      hide *;
      assert batches[0..] == batches;
      AppendNothing(SpecRun(cfg, batches, [], 0));
      ghost var start := store.live;
      while i < |batches|
        invariant 0 <= i <= |batches|
        invariant Valid() && training == None
        invariant FreshBatches(batches[i..], store.live)
        invariant store.live + AllKeys(batches[i..]) <= start + AllKeys(batches)
        invariant events + SpecRun(cfg, batches[i..], sinceTraining, numGenBatches) == SpecRun(cfg, batches, [], 0)
        invariant SpecTail(cfg, batches[i..], sinceTraining, numGenBatches) == SpecTail(cfg, batches, [], 0)
      {
        assert batches[i..][0] == batches[i] && batches[i..][1..] == batches[i + 1..];
        SpecRunStep(cfg, batches[i..], sinceTraining, numGenBatches);
        SpecTailStep(cfg, batches[i..], sinceTraining, numGenBatches);
        AllKeysStep(batches, i);
        ghost var done, before := events, store.live;
        FreshHead(batches[i..], before);
        var event := Iterate(batches[i]);
        FreshTail(batches[i..], before, store.live);
        events := events + [event];
        AppendNothing([event]);
        if event.Raise? { return; }
        if event.Train? {
          FreshLess(batches[i + 1..], store.live);
          FinishStep();
        }
        i := i + 1;
        AppendAssociates(done, [event], SpecRun(cfg, batches[i..], sinceTraining, numGenBatches));
      }
      SpecRunEnd(cfg, sinceTraining, numGenBatches);
      SpecTailEnd(cfg, sinceTraining, numGenBatches);
      assert batches[i..] == [];
      AppendNothing(events);
    }

    /** A new epoch forgets what is pending without discarding it. */
    method StartEpoch()
      requires Valid() && training == None
      modifies this`pending, this`unfiltered, this`numGenBatches, this`sinceTraining, this`abandoned
      ensures Valid() && sinceTraining == [] && numGenBatches == 0 && training == None
      ensures store.live == old(store.live)
      ensures abandoned == old(abandoned) + KeySet(Survivors(old(sinceTraining)))
    {
      abandoned := abandoned + KeySet(CarryOf(pending));
      pending, unfiltered, numGenBatches := None, [], 0;
      sinceTraining := [];
    }
  }
}
