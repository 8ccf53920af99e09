/** What a run of dynamic sampling does, told batch by batch of the rows generated since the last training step. */
module SamplingMeaning {
  import opened DynamicSampling

  /** The right thing to do after batch `i`, the first batch since the last training step being `from`: train on the
      first rows with spread as soon as there are enough, and log the first rewards of all rows; give up after more
      batches than allowed. */
  predicate Meant(cfg: Config, batches: seq<seq<Row>>, from: nat, i: nat, e: Event)
    requires from <= i < |batches|
  {
    var rows := Flatten(batches[from..i + 1]);
    var survivors := Survivors(rows);
    match e
    case Train(trained, logged) =>
      && |survivors| >= cfg.size
      && |trained| == cfg.size && trained <= survivors
      && |logged| == (if |rows| < cfg.size then |rows| else cfg.size) && logged <= Rewards(rows)
    case Raise => |survivors| < cfg.size && i + 1 - from > cfg.maxBatches
    case Continue => |survivors| < cfg.size && i + 1 - from <= cfg.maxBatches
  }

  /** One such event for every batch, up to the first failure. */
  predicate AllMeant(cfg: Config, batches: seq<seq<Row>>, from: nat, i: nat, events: seq<Event>)
    requires from <= i <= |batches|
    decreases |batches| - i
  {
    if i == |batches| then events == []
    else
      && events != [] && Meant(cfg, batches, from, i, events[0])
      && match events[0]
         case Raise => events == [Raise]
         case Continue => AllMeant(cfg, batches, from, i + 1, events[1..])
         case Train(_, _) => AllMeant(cfg, batches, i + 1, i + 1, events[1..])
  }

  lemma OnlyOneMeant(cfg: Config, batches: seq<seq<Row>>, from: nat, i: nat, e: Event)
    requires from <= i < |batches|
    ensures Meant(cfg, batches, from, i, e) <==>
      e == SpecStep(cfg, Flatten(batches[from..i]) + batches[i], i - from + 1)
  {
    assert batches[from..i + 1] == batches[from..i] + [batches[i]];
    FlattenAppend(batches[from..i], batches[i]);
    var rows := Flatten(batches[from..i + 1]);
    hide Flatten, Survivors, Rewards;
    assert |Rewards(rows)| == |rows| by { RewardsLength(rows); }
  }

  lemma RewardsLength(rows: seq<Row>)
    ensures |Rewards(rows)| == |rows|
  {}

  /** The events of the specification from batch `i` on. */
  predicate IsRun(cfg: Config, batches: seq<seq<Row>>, from: nat, i: nat, events: seq<Event>)
    requires from <= i <= |batches|
  {
    events == SpecRun(cfg, batches[i..], Flatten(batches[from..i]), i - from)
  }

  lemma RunStarts(cfg: Config, batches: seq<seq<Row>>, from: nat, i: nat, events: seq<Event>)
    requires from <= i < |batches|
    ensures IsRun(cfg, batches, from, i, events) ==> events != [] && Meant(cfg, batches, from, i, events[0])
  {
    var since, rest := Flatten(batches[from..i]), batches[i..];
    assert rest[0] == batches[i];
    SpecRunStep(cfg, rest, since, i - from);
    if events != [] {
      OnlyOneMeant(cfg, batches, from, i, events[0]);
    }
    hide SpecRun, SpecStep, Flatten, Meant;
  }

  lemma RunGoesOn(cfg: Config, batches: seq<seq<Row>>, from: nat, i: nat, events: seq<Event>)
    requires from <= i < |batches| && events != [] && Meant(cfg, batches, from, i, events[0])
    ensures IsRun(cfg, batches, from, i, events) <==>
      match events[0]
      case Raise => events == [Raise]
      case Continue => IsRun(cfg, batches, from, i + 1, events[1..])
      case Train(_, _) => IsRun(cfg, batches, i + 1, i + 1, events[1..])
  {
    var since, rest := Flatten(batches[from..i]), batches[i..];
    assert rest[0] == batches[i] && rest[1..] == batches[i + 1..];
    SpecRunStep(cfg, rest, since, i - from);
    assert batches[from..i + 1] == batches[from..i] + [batches[i]];
    FlattenAppend(batches[from..i], batches[i]);
    assert batches[i + 1..i + 1] == [];
    NothingFlat();
    OnlyOneMeant(cfg, batches, from, i, events[0]);
    hide SpecRun, SpecStep, Flatten, Meant;
    FirstAndRest(events);
  }

  lemma FirstAndRest(events: seq<Event>)
    requires events != []
    ensures events == [events[0]] + events[1..]
    ensures forall rest: seq<Event> :: events == [events[0]] + rest <==> events[1..] == rest
  {
    forall rest: seq<Event>
      ensures events == [events[0]] + rest <==> events[1..] == rest
    {
      assert ([events[0]] + rest)[1..] == rest;
    }
  }

  /** The specification both forms refine is the only run that does so. */
  lemma {:induction false} RunIsMeant(cfg: Config, batches: seq<seq<Row>>, from: nat, i: nat, events: seq<Event>)
    requires from <= i <= |batches|
    ensures events == SpecRun(cfg, batches[i..], Flatten(batches[from..i]), i - from) <==> AllMeant(cfg, batches, from, i, events)
    decreases |batches| - i
  {
    assert events == SpecRun(cfg, batches[i..], Flatten(batches[from..i]), i - from) <==> IsRun(cfg, batches, from, i, events);
    if i == |batches| {
      SpecRunEnd(cfg, Flatten(batches[from..i]), i - from);
    } else {
      RunStarts(cfg, batches, from, i, events);
      if events != [] && Meant(cfg, batches, from, i, events[0]) {
        RunGoesOn(cfg, batches, from, i, events);
        match events[0]
        case Raise =>
        case Continue => RunIsMeant(cfg, batches, from, i + 1, events[1..]);
        case Train(_, _) => RunIsMeant(cfg, batches, i + 1, i + 1, events[1..]);
      }
      hide SpecRun, Flatten, Meant;
    }
  }

  lemma NothingFlat()
    ensures Flatten<Row>([]) == []
  {}

  /** The rows with spread, in the order they were generated. */
  lemma {:induction false} SurvivorsInOrder(rows: seq<Row>) returns (indices: seq<nat>)
    ensures forall a, b | 0 <= a < b < |indices| :: indices[a] < indices[b]
    ensures forall a | 0 <= a < |indices| :: indices[a] < |rows|
    ensures forall j: nat | j < |rows| :: rows[j].std != 0.0 <==> j in indices
    ensures Survivors(rows) == Select(rows, indices)
    decreases |rows|
  {
    indices := [];
    if rows != [] {
      var k := |rows| - 1;
      indices := SurvivorsInOrder(rows[..k]);
      assert Select(rows, indices) == Select(rows[..k], indices);
      assert forall j: nat | j < k :: rows[..k][j] == rows[j];
      if rows[k].std != 0.0 {
        SelectAppend(rows, indices, k);
        indices := indices + [k];
      }
    }
  }
}
