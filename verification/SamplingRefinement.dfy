/** The two forms of dynamic sampling against each other: the same decisions and training rows over every
    sequence of batches, and exactly when the same rewards are logged. */
module SamplingRefinement {
  import opened Wrappers
  import opened DynamicSampling
  import opened LegacySampling

  /** The same decision, and the same rows if it is to train. */
  predicate SameDecision(a: Event, b: Event) {
    match (a, b)
    case (Train(rows, _), Train(rows', _)) => rows == rows'
    case _ => a == b
  }

  predicate SameDecisions(a: seq<Event>, b: seq<Event>) {
    |a| == |b| && forall i | 0 <= i < |a| :: SameDecision(a[i], b[i])
  }

  /** The run invariant that makes the forms agree: what is carried is the survivors so far, too few to train on. */
  predicate Carried(cfg: Config, cache: Option<Batch>, sinceTraining: seq<Row>) {
    CacheRows(cache) == Survivors(sinceTraining) && |CacheRows(cache)| < cfg.size
  }

  lemma StepAgrees(cfg: Config, cache: Option<Batch>, sinceTraining: seq<Row>, batch: seq<Row>, count: nat)
    requires Carried(cfg, cache, sinceTraining) && count > 0
    ensures SameDecision(LegacyStep(cfg, cache, batch, count), SpecStep(cfg, sinceTraining + batch, count))
    ensures LegacyStep(cfg, cache, batch, count).Continue? ==> Carried(cfg, Cached(cache, batch), sinceTraining + batch)
  {
    SurvivorsConcat(sinceTraining, batch);
  }

  lemma {:induction false} LegacyAgrees(cfg: Config, batches: seq<seq<Row>>, cache: Option<Batch>,
                                        sinceTraining: seq<Row>, count: nat)
    requires Carried(cfg, cache, sinceTraining)
    ensures SameDecisions(LegacyRun(cfg, batches, cache, count), SpecRun(cfg, batches, sinceTraining, count))
    decreases |batches|
  {
    if batches != [] {
      var batch, rest := batches[0], batches[1..];
      StepAgrees(cfg, cache, sinceTraining, batch, count + 1);
      match LegacyStep(cfg, cache, batch, count + 1)
      case Raise =>
      case Continue =>
        LegacyAgrees(cfg, rest, Cached(cache, batch), sinceTraining + batch, count + 1);
      case Train(_, _) =>
        LegacyAgrees(cfg, rest, None, [], 0);
    }
  }

  // --------------------------------------------------------------- the logs

  /** The batches of a step that keep a row; the in-memory form forgets the others. */
  function Heard(step: seq<seq<Row>>): seq<seq<Row>> {
    if step == [] then []
    else
      var last := step[|step| - 1];
      Heard(step[..|step| - 1]) + (if Survivors(last) == [] then [] else [last])
  }

  /** A batch is forgotten only if it is empty or comes after the rows that are logged anyway. */
  predicate HeardInTime(step: seq<seq<Row>>, size: nat) {
    forall i | 0 <= i < |step| :: step[i] == [] || Survivors(step[i]) != [] || |Flatten(step[..i])| >= size
  }

  /** That, for every training step of an epoch; `step` holds the batches since the last one. */
  predicate EachStepHeard(cfg: Config, batches: seq<seq<Row>>, step: seq<seq<Row>>, count: nat)
    decreases |batches|
  {
    if batches == [] then true
    else
      var now := step + [batches[0]];
      match SpecStep(cfg, Flatten(now), count + 1)
      case Raise => true
      case Continue => EachStepHeard(cfg, batches[1..], now, count + 1)
      case Train(_, _) => HeardInTime(now, cfg.size) && EachStepHeard(cfg, batches[1..], [], 0)
  }

  lemma HeardNext(step: seq<seq<Row>>, batch: seq<Row>)
    ensures Heard(step + [batch]) == Heard(step) + (if Survivors(batch) == [] then [] else [batch])
    ensures Flatten(step + [batch]) == Flatten(step) + batch
    ensures Flatten(Heard(step + [batch])) == Flatten(Heard(step)) + (if Survivors(batch) == [] then [] else batch)
  {
    hide Survivors;
    assert (step + [batch])[..|step|] == step;
    FlattenAppend(step, batch);
    FlattenAppend(Heard(step), batch);
    AppendNothing(Heard(step));
    AppendNothing(Flatten(Heard(step)));
  }

  lemma HeardInTimeNext(step: seq<seq<Row>>, batch: seq<Row>, size: nat)
    ensures HeardInTime(step + [batch], size) <==>
      HeardInTime(step, size) && (batch == [] || Survivors(batch) != [] || |Flatten(step)| >= size)
  {
    hide Survivors, Flatten;
    var now := step + [batch];
    assert now[|step|] == batch && now[..|step|] == step;
    assert forall i | 0 <= i < |step| :: now[i] == step[i] && now[..i] == step[..i];
  }

  /** What is heard has the same survivors and is no longer; it is shorter only by non-empty batches. */
  lemma {:induction false} HeardIsShorter(step: seq<seq<Row>>, size: nat)
    ensures |Flatten(Heard(step))| <= |Flatten(step)|
    ensures Survivors(Flatten(Heard(step))) == Survivors(Flatten(step))
    ensures |Flatten(Heard(step))| == |Flatten(step)| ==> HeardInTime(step, size)
    decreases |step|
  {
    if step != [] {
      var front, last := step[..|step| - 1], step[|step| - 1];
      assert step == front + [last];
      HeardIsShorter(front, size);
      HeardNext(front, last);
      HeardInTimeNext(front, last, size);
      SurvivorsConcat(Flatten(front), last);
      SurvivorsConcat(Flatten(Heard(front)), last);
      AppendNothing(Survivors(Flatten(front)));
      AppendNothing(Flatten(Heard(front)));
      hide *;
    }
  }

  lemma TakeOfConcat<T>(a: seq<T>, b: seq<T>, c: seq<T>, n: nat)
    requires Take(a, n) == Take(b, n)
    ensures Take(a + c, n) == Take(b + c, n)
    ensures |a| >= n ==> Take(a + c, n) == Take(a, n)
  {
    if |a| >= n {
      assert (a + c)[..n] == a[..n];
      assert (b + c)[..n] == b[..n];
    } else {
      assert a == b;
    }
  }

  /** Heard in time, the rows to log are the same. */
  lemma {:induction false} TakeHeard(step: seq<seq<Row>>, size: nat)
    requires HeardInTime(step, size)
    ensures Take(Flatten(Heard(step)), size) == Take(Flatten(step), size)
    decreases |step|
  {
    if step != [] {
      var front, last := step[..|step| - 1], step[|step| - 1];
      assert step == front + [last];
      HeardInTimeNext(front, last, size);
      TakeHeard(front, size);
      HeardNext(front, last);
      hide Survivors, Heard, HeardInTime, Flatten;
      AppendNothing(Flatten(front));
      AppendNothing(Flatten(Heard(front)));
      TakeOfConcat(Flatten(Heard(front)), Flatten(front), last, size);
      TakeOfConcat(Flatten(front), Flatten(front), last, size);
      hide Take;
    }
  }

  predicate DistinctRewards(rows: seq<Row>) {
    forall i, j | 0 <= i < j < |rows| :: rows[i].reward != rows[j].reward
  }

  /** Conversely, if no two rows have the same reward, the same log means that every batch was heard in time. */
  lemma {:induction false} SameLogMeansHeard(step: seq<seq<Row>>, size: nat)
    requires DistinctRewards(Flatten(step)) && |Flatten(Heard(step))| >= size
    requires Take(Rewards(Flatten(Heard(step))), size) == Take(Rewards(Flatten(step)), size)
    ensures HeardInTime(step, size)
    decreases |step|
  {
    if step != [] {
      var front, last := step[..|step| - 1], step[|step| - 1];
      assert step == front + [last];
      HeardNext(front, last);
      HeardInTimeNext(front, last, size);
      HeardIsShorter(front, size);
      hide Survivors, Heard, HeardInTime, Flatten;
      var heard, all := Flatten(Heard(front)), Flatten(front);
      if |heard| >= size {
        TakeRewards(heard, last, size);
        TakeRewards(all, last, size);
        AppendNothing(heard);
        DistinctFront(all, last);
        SameLogMeansHeard(front, size);
      } else if |heard| < |all| {
        FirstDifference(heard, all, last, size);
        assert false;
      }
    }
  }

  lemma TakeRewards(a: seq<Row>, b: seq<Row>, n: nat)
    requires |a| >= n
    ensures Take(Rewards(a + b), n) == Take(Rewards(a), n)
  {
    assert Rewards(a + b)[..n] == Rewards(a)[..n];
  }

  lemma DistinctFront(a: seq<Row>, b: seq<Row>)
    requires DistinctRewards(a + b)
    ensures DistinctRewards(a) && DistinctRewards(b)
  {
    assert forall i | 0 <= i < |a| :: (a + b)[i] == a[i];
    assert forall i | 0 <= i < |b| :: (a + b)[|a| + i] == b[i];
  }

  /** Where the heard rows run out, the last batch shows up too early. */
  lemma FirstDifference(heard: seq<Row>, all: seq<Row>, last: seq<Row>, size: nat)
    requires |heard| < size && |heard| < |all| && |heard + last| >= size && DistinctRewards(all + last)
    ensures Take(Rewards(heard + last), size) != Take(Rewards(all + last), size)
  {
    var h := |heard|;
    assert Take(Rewards(heard + last), size)[h] == last[0].reward;
    assert Take(Rewards(all + last), size)[h] == all[h].reward;
    assert (all + last)[h] == all[h] && (all + last)[|all|] == last[0];
  }

  /** What the in-memory form carries of a step: its survivors, and the rewards it heard. */
  predicate Carries(cfg: Config, cache: Option<Batch>, step: seq<seq<Row>>) {
    Carried(cfg, cache, Flatten(step)) && CacheTotals(cache) == Rewards(Flatten(Heard(step)))
  }

  /** One batch, logs included. */
  lemma StepLogs(cfg: Config, cache: Option<Batch>, step: seq<seq<Row>>, batch: seq<Row>, count: nat)
    requires Carries(cfg, cache, step) && count > 0
    ensures var now := step + [batch];
      var legacy, spec := LegacyStep(cfg, cache, batch, count), SpecStep(cfg, Flatten(now), count);
      && SameDecision(legacy, spec)
      && (spec.Continue? ==> legacy == spec && Carries(cfg, Cached(cache, batch), now))
      && (spec.Raise? ==> legacy == spec)
      && (spec.Train? ==> && legacy.logged == Take(Rewards(Flatten(Heard(now))), cfg.size)
                          && spec.logged == Take(Rewards(Flatten(now)), cfg.size)
                          && |Flatten(Heard(now))| >= cfg.size)
  {
    hide Flatten, Heard, Rewards, Take, HeardInTime, Survivors;
    var now := step + [batch];
    StepAgrees(cfg, cache, Flatten(step), batch, count);
    HeardNext(step, batch);
    HeardIsShorter(now, cfg.size);
    CachedTotals(cache, step, batch);
  }

  lemma CachedTotals(cache: Option<Batch>, step: seq<seq<Row>>, batch: seq<Row>)
    requires CacheTotals(cache) == Rewards(Flatten(Heard(step)))
    ensures CacheTotals(Cached(cache, batch)) == Rewards(Flatten(Heard(step + [batch])))
    ensures Survivors(batch) != [] ==> Considered(cache, batch).totals == Rewards(Flatten(Heard(step + [batch])))
    ensures Survivors(batch) == [] ==> Considered(cache, batch).rows == []
  {
    hide Flatten, Heard, Rewards, Survivors;
    HeardNext(step, batch);
    RewardsConcat(Flatten(Heard(step)), batch);
    AppendNothing(Flatten(Heard(step)));
  }

  /** If every batch is heard in time the forms agree in everything. */
  lemma {:induction false} HeardLogsAgree(cfg: Config, batches: seq<seq<Row>>, cache: Option<Batch>, step: seq<seq<Row>>, count: nat)
    requires cfg.size > 0 && Carries(cfg, cache, step) && EachStepHeard(cfg, batches, step, count)
    ensures LegacyRun(cfg, batches, cache, count) == SpecRun(cfg, batches, Flatten(step), count)
    decreases |batches|
  {
    NothingCarried(cfg);
    if batches != [] {
      var batch, rest := batches[0], batches[1..];
      var now := step + [batch];
      StepLogs(cfg, cache, step, batch, count + 1);
      FlattenAppend(step, batch);
      LegacyRunStep(cfg, batches, cache, count);
      SpecRunStep(cfg, batches, Flatten(step), count);
      match SpecStep(cfg, Flatten(now), count + 1)
      case Raise =>
      case Continue =>
        HeardLogsAgree(cfg, rest, Cached(cache, batch), now, count + 1);
      case Train(_, _) =>
        TakeHeard(now, cfg.size);
        TakeCommutes(Flatten(Heard(now)), cfg.size);
        TakeCommutes(Flatten(now), cfg.size);
        HeardLogsAgree(cfg, rest, None, [], 0);
    }
  }

  lemma NothingCarried(cfg: Config)
    requires cfg.size > 0
    ensures Carries(cfg, None, []) && Flatten<Row>([]) == []
  {
    EmptyKeys();
  }

  lemma TakeCommutes(rows: seq<Row>, n: nat)
    ensures Take(Rewards(rows), n) == Rewards(Take(rows, n))
  {}

  /** If no two rows have the same reward, only then. */
  lemma {:induction false} SameLogsAreHeard(cfg: Config, batches: seq<seq<Row>>, cache: Option<Batch>, step: seq<seq<Row>>, count: nat)
    requires cfg.size > 0 && Carries(cfg, cache, step) && DistinctRewards(Flatten(step + batches))
    requires LegacyRun(cfg, batches, cache, count) == SpecRun(cfg, batches, Flatten(step), count)
    ensures EachStepHeard(cfg, batches, step, count)
    decreases |batches|
  {
    NothingCarried(cfg);
    if batches != [] {
      var batch, rest := batches[0], batches[1..];
      var now := step + [batch];
      assert now + rest == step + batches && [] + rest == rest;
      StepLogs(cfg, cache, step, batch, count + 1);
      FlattenAppend(step, batch);
      LegacyRunStep(cfg, batches, cache, count);
      SpecRunStep(cfg, batches, Flatten(step), count);
      FlattenConcat(now, rest);
      DistinctFront(Flatten(now), Flatten(rest));
      hide LegacyRun, SpecRun, Carries, Flatten, DistinctRewards;
      match SpecStep(cfg, Flatten(now), count + 1)
      case Raise =>
      case Continue =>
        SameTails(LegacyStep(cfg, cache, batch, count + 1), SpecStep(cfg, Flatten(now), count + 1),
                  LegacyRun(cfg, rest, Cached(cache, batch), count + 1), SpecRun(cfg, rest, Flatten(now), count + 1));
        SameLogsAreHeard(cfg, rest, Cached(cache, batch), now, count + 1);
      case Train(_, _) =>
        SameTails(LegacyStep(cfg, cache, batch, count + 1), SpecStep(cfg, Flatten(now), count + 1),
                  LegacyRun(cfg, rest, None, 0), SpecRun(cfg, rest, [], 0));
        SameLogMeansHeard(now, cfg.size);
        SameLogsAreHeard(cfg, rest, None, [], 0);
    }
  }

  lemma SameTails(a: Event, b: Event, s: seq<Event>, t: seq<Event>)
    requires [a] + s == [b] + t
    ensures a == b && s == t
  {
    assert ([a] + s)[0] == a && ([b] + t)[0] == b;
    assert ([a] + s)[1..] == s && ([b] + t)[1..] == t;
  }

  // ------------------------------------------------- any assignment of rewards

  function PaidRows(rows: seq<Row>, pay: Key -> real): (paid: seq<Row>)
    ensures |paid| == |rows|
  {
    seq(|rows|, i requires 0 <= i < |rows| => rows[i].(reward := pay(rows[i].key)))
  }

  /** The same batches with other rewards. */
  function Paid(batches: seq<seq<Row>>, pay: Key -> real): (paid: seq<seq<Row>>)
    ensures |paid| == |batches|
  {
    seq(|batches|, i requires 0 <= i < |batches| => PaidRows(batches[i], pay))
  }

  lemma {:induction false} PaidSurvivors(rows: seq<Row>, pay: Key -> real)
    ensures Survivors(PaidRows(rows, pay)) == PaidRows(Survivors(rows), pay)
    decreases |rows|
  {
    if rows != [] {
      var front, last := rows[..|rows| - 1], rows[|rows| - 1];
      PaidSurvivors(front, pay);
      assert PaidRows(rows, pay)[..|rows| - 1] == PaidRows(front, pay);
    }
  }

  lemma {:induction false} PaidFlatten(batches: seq<seq<Row>>, pay: Key -> real)
    ensures Flatten(Paid(batches, pay)) == PaidRows(Flatten(batches), pay)
    decreases |batches|
  {
    if batches != [] {
      var front, last := batches[..|batches| - 1], batches[|batches| - 1];
      PaidFlatten(front, pay);
      assert Paid(batches, pay)[..|batches| - 1] == Paid(front, pay);
      PaidConcat(Flatten(front), last, pay);
    }
  }

  lemma PaidConcat(a: seq<Row>, b: seq<Row>, pay: Key -> real)
    ensures PaidRows(a + b, pay) == PaidRows(a, pay) + PaidRows(b, pay)
  {}

  lemma PaidInTime(step: seq<seq<Row>>, pay: Key -> real, size: nat)
    ensures HeardInTime(Paid(step, pay), size) <==> HeardInTime(step, size)
  {
    var paid := Paid(step, pay);
    forall i | 0 <= i < |step|
      ensures paid[i] == [] <==> step[i] == []
      ensures Survivors(paid[i]) == [] <==> Survivors(step[i]) == []
      ensures |Flatten(paid[..i])| == |Flatten(step[..i])|
    {
      PaidSurvivors(step[i], pay);
      PaidFlatten(step[..i], pay);
      assert paid[..i] == Paid(step[..i], pay);
    }
  }

  /** Whether batches are heard does not depend on rewards. */
  lemma {:induction false} PaidEachStep(cfg: Config, batches: seq<seq<Row>>, step: seq<seq<Row>>, count: nat, pay: Key -> real)
    ensures EachStepHeard(cfg, Paid(batches, pay), Paid(step, pay), count) <==> EachStepHeard(cfg, batches, step, count)
    decreases |batches|
  {
    if batches != [] {
      var batch, rest := batches[0], batches[1..];
      var now := step + [batch];
      assert Paid(batches, pay)[0] == PaidRows(batch, pay) && Paid(batches, pay)[1..] == Paid(rest, pay);
      assert Paid(step, pay) + [PaidRows(batch, pay)] == Paid(now, pay);
      PaidFlatten(now, pay);
      PaidSurvivors(Flatten(now), pay);
      hide Survivors, Flatten, Paid, PaidRows, HeardInTime;
      PaidInTime(now, pay, cfg.size);
      PaidEachStep(cfg, rest, now, count + 1, pay);
      PaidEachStep(cfg, rest, [], 0, pay);
      PaidNothing(pay);
    }
  }

  lemma PaidNothing(pay: Key -> real)
    ensures Paid([], pay) == []
  {}

  const BY_KEY: Key -> real := (k: Key) => k as real

  lemma DistinctByKey(rows: seq<Row>)
    requires DistinctKeys(rows)
    ensures DistinctRewards(PaidRows(rows, BY_KEY))
  {}

  // ---------------------------------------------------------------- theorems

  /** Main theorem: over every epoch both forms continue, train and fail at the same batches and train on the
      same rows; if every batch is heard in time, for which it is enough that each keeps a row, they also log
      the same unfiltered rewards. (`SpecRun` is what `SyncSampler.RunEpoch` computes.) */
  lemma BothFormsAgree(cfg: Config, batches: seq<seq<Row>>)
    requires cfg.size > 0
    ensures SameDecisions(LegacyRun(cfg, batches, None, 0), SpecRun(cfg, batches, [], 0))
    ensures EachStepHeard(cfg, batches, [], 0) ==> LegacyRun(cfg, batches, None, 0) == SpecRun(cfg, batches, [], 0)
    ensures (forall i | 0 <= i < |batches| :: Survivors(batches[i]) != []) ==> EachStepHeard(cfg, batches, [], 0)
  {
    NothingCarried(cfg);
    LegacyAgrees(cfg, batches, None, [], 0);
    if EachStepHeard(cfg, batches, [], 0) {
      HeardLogsAgree(cfg, batches, None, [], 0);
    }
    if forall i | 0 <= i < |batches| :: Survivors(batches[i]) != [] {
      KeepersAreHeard(cfg, batches, [], 0);
    }
  }

  lemma {:induction false} KeepersAreHeard(cfg: Config, batches: seq<seq<Row>>, step: seq<seq<Row>>, count: nat)
    requires forall i | 0 <= i < |batches| :: Survivors(batches[i]) != []
    requires forall i | 0 <= i < |step| :: Survivors(step[i]) != []
    ensures EachStepHeard(cfg, batches, step, count)
    decreases |batches|
  {
    hide Survivors, Flatten;
    if batches != [] {
      var now := step + [batches[0]];
      KeepersAreHeard(cfg, batches[1..], now, count + 1);
      KeepersAreHeard(cfg, batches[1..], [], 0);
    }
  }

  /** The logs, exactly: where keys are keys, the forms log the same whatever the rewards are if and only if
      every batch without survivors is empty or comes only after its step has the rows to log. */
  lemma LogsAgreeIff(cfg: Config, batches: seq<seq<Row>>)
    requires cfg.size > 0 && DistinctKeys(Flatten(batches))
    ensures (forall pay: Key -> real :: LegacyRun(cfg, Paid(batches, pay), None, 0) == SpecRun(cfg, Paid(batches, pay), [], 0))
      <==> EachStepHeard(cfg, batches, [], 0)
  {
    NothingCarried(cfg);
    if EachStepHeard(cfg, batches, [], 0) {
      forall pay: Key -> real
        ensures LegacyRun(cfg, Paid(batches, pay), None, 0) == SpecRun(cfg, Paid(batches, pay), [], 0)
      {
        PaidEachStep(cfg, batches, [], 0, pay);
        PaidNothing(pay);
        HeardLogsAgree(cfg, Paid(batches, pay), None, [], 0);
      }
    }
    if LegacyRun(cfg, Paid(batches, BY_KEY), None, 0) == SpecRun(cfg, Paid(batches, BY_KEY), [], 0) {
      PaidFlatten(batches, BY_KEY);
      DistinctByKey(Flatten(batches));
      assert [] + Paid(batches, BY_KEY) == Paid(batches, BY_KEY);
      SameLogsAreHeard(cfg, Paid(batches, BY_KEY), None, [], 0);
      PaidEachStep(cfg, batches, [], 0, BY_KEY);
      PaidNothing(BY_KEY);
    }
  }

  /** The logs do differ if a batch keeps nothing before its step has enough rows: the in-memory form forgets it. */
  lemma LogsDifferWithoutSurvivors()
    ensures LegacyRun(Config(1, 5), [[FLAT], [SPREAD]], None, 0) == [Continue, Train([SPREAD], [2.0])]
    ensures SpecRun(Config(1, 5), [[FLAT], [SPREAD]], [], 0) == [Continue, Train([SPREAD], [1.0])]
  {
    var cfg, batches := Config(1, 5), [[FLAT], [SPREAD]];
    LogExampleFacts();
    assert batches[0] == [FLAT] && batches[1..] == [[SPREAD]] && [[SPREAD]][1..] == [];
    assert LegacyStep(cfg, None, [SPREAD], 2) == Train([SPREAD], [2.0]);
    assert SpecStep(cfg, [FLAT] + [SPREAD], 2) == Train([SPREAD], [1.0]);
    hide Survivors;
    hide Rewards;
    LegacyRunStep(cfg, batches, None, 0);
    LegacyRunStep(cfg, [[SPREAD]], None, 1);
    SpecRunStep(cfg, batches, [], 0);
    SpecRunStep(cfg, [[SPREAD]], [FLAT], 1);
  }

  lemma LogExampleFacts()
    ensures Survivors([FLAT]) == [] && Survivors([SPREAD]) == [SPREAD] && Survivors([FLAT] + [SPREAD]) == [SPREAD]
    ensures Rewards([SPREAD]) == [2.0] && Rewards([FLAT] + [SPREAD]) == [1.0, 2.0]
    ensures [] + [FLAT] == [FLAT] && Survivors([]) == []
  {
    assert [FLAT][..0] == [] && [SPREAD][..0] == [];
    SurvivorsConcat([FLAT], [SPREAD]);
  }
}
