/** The epoch/step loop shared by the GRPO, distillation and DPO trainers: counters,
    the last-step flag, checkpoints and resuming. */
module TrainingLoop {
  import opened Arithmetic
  import opened Wrappers

  /** `batches` is the length of the dataloader. `wrapStep` is DPO's habit of saving the
      step modulo that length; `doubled` its doubling of the scheduler's iterations. */
  datatype Config = Config(maxSteps: nat, maxEpochs: nat, batches: nat, savePeriod: nat,
                           saving: bool, wrapStep: bool, doubled: bool)

  predicate Sensible(cfg: Config) {
    cfg.savePeriod > 0
  }

  /** A checkpoint: counters, and how many batches of the epoch the dataloader had yielded. */
  datatype SaveState = SaveState(step: nat, total: nat, epoch: nat, position: nat)

  const FRESH := SaveState(0, 0, 0, 0)

  /** One training step as performed. */
  datatype Event = Event(epoch: nat, step: nat, total: nat, position: nat, isLast: bool, saved: Option<SaveState>)

  /** How many steps a full run takes. */
  function Steps(cfg: Config): nat {
    if cfg.maxSteps < cfg.maxEpochs * cfg.batches then cfg.maxSteps else cfg.maxEpochs * cfg.batches
  }

  /** `train_iters`, what the scheduler is told at setup. */
  function TrainIters(cfg: Config): nat {
    if cfg.doubled then Steps(cfg) * 2 else Steps(cfg)
  }

  // ----------------------------------------------------------- specification

  /** Step number `t` of the ideal run: batch `t mod n` of epoch `t div n`, last exactly when it
      is the final one, saved when it is last, periodic, or the time is up. */
  function Ideal(cfg: Config, timeUp: nat -> bool, t: nat): Event
    requires Sensible(cfg) && t < Steps(cfg)
  {
    assert cfg.batches != 0;
    var epoch, position := t / cfg.batches, t % cfg.batches;
    var isLast := t + 1 == Steps(cfg);
    var saves := cfg.saving && (isLast || (t + 1) % cfg.savePeriod == 0 || timeUp(t + 1));
    Event(epoch, position, t, position, isLast,
          if saves then Some(Checkpoint(cfg, epoch, position, t)) else None)
  }

  /** The checkpoint written after batch `position` of `epoch`, the run's step number `t`. */
  function Checkpoint(cfg: Config, epoch: nat, position: nat, t: nat): SaveState {
    SaveState(if cfg.wrapStep && position + 1 == cfg.batches then 0 else position + 1, t + 1, epoch, position + 1)
  }

  function IdealTrace(cfg: Config, timeUp: nat -> bool, from: nat, to: nat): (trace: seq<Event>)
    requires Sensible(cfg) && from <= to <= Steps(cfg)
    ensures |trace| == to - from
  {
    seq(to - from, i requires 0 <= i < to - from => Ideal(cfg, timeUp, from + i))
  }

  /** A state a run can start from. At the end of an epoch the saved step is the dataloader's
      length or, in DPO, zero. */
  predicate Startable(cfg: Config, s: SaveState) {
    && s.position <= cfg.batches
    && s.total == s.epoch * cfg.batches + s.position
    && s.total <= Steps(cfg)
    && (s.step == s.position || (s.position == cfg.batches && s.step == 0))
  }

  lemma FreshStarts(cfg: Config)
    ensures Startable(cfg, FRESH)
  {}

  /** Where step `t` falls, from the loop's own counters. */
  lemma StepIsIdeal(cfg: Config, timeUp: nat -> bool, epoch: nat, position: nat, t: nat)
    requires Sensible(cfg) && position < cfg.batches && epoch < cfg.maxEpochs && t < cfg.maxSteps
    requires t == epoch * cfg.batches + position
    ensures t < Steps(cfg)
    ensures t + 1 == Steps(cfg) <==> t + 1 >= cfg.maxSteps || (epoch + 1 == cfg.maxEpochs && position + 1 == cfg.batches)
    ensures Ideal(cfg, timeUp, t) ==
      var isLast := t + 1 >= cfg.maxSteps || (epoch + 1 == cfg.maxEpochs && position + 1 == cfg.batches);
      Event(epoch, position, t, position, isLast,
            if cfg.saving && (isLast || (t + 1) % cfg.savePeriod == 0 || timeUp(t + 1))
            then Some(Checkpoint(cfg, epoch, position, t)) else None)
  {
    LastPlace(cfg.batches, cfg.maxEpochs, epoch, position);
    DivMod(epoch, position, cfg.batches);
  }

  lemma EpochOver(n: nat, epochs: nat, epoch: nat)
    requires epoch < epochs
    ensures (epoch + 1) * n == epoch * n + n <= epochs * n
  {
    assert epochs * n == (epoch + 1) * n + (epochs - epoch - 1) * n;
  }

  lemma TraceExtends(cfg: Config, timeUp: nat -> bool, from: nat, to: nat)
    requires Sensible(cfg) && from <= to < Steps(cfg)
    ensures IdealTrace(cfg, timeUp, from, to + 1) == IdealTrace(cfg, timeUp, from, to) + [Ideal(cfg, timeUp, to)]
  {}

  /** The time was not up at any of the totals after `from`, up to `to`. */
  predicate InTime(timeUp: nat -> bool, from: nat, to: nat) {
    forall t: nat | from < t <= to :: !timeUp(t)
  }

  // -------------------------------------------------------------------- loop

  /** The body of the loop: the flag, the decision to save, and what is saved. */
  method PerformStep(cfg: Config, s: SaveState, timeUp: nat -> bool) returns (event: Event, saveByTimeout: bool)
    requires Sensible(cfg) && Startable(cfg, s)
    requires s.position < cfg.batches && s.epoch < cfg.maxEpochs && s.total < cfg.maxSteps
    ensures s.total < Steps(cfg) && event == Ideal(cfg, timeUp, s.total)
    ensures saveByTimeout == timeUp(s.total + 1)
    ensures Startable(cfg, SaveState(s.step + 1, s.total + 1, s.epoch, s.position + 1))
  {
    StepIsIdeal(cfg, timeUp, s.epoch, s.position, s.total);
    hide Ideal;
    var isLastStep := s.total + 1 >= cfg.maxSteps
      || (s.epoch + 1 == cfg.maxEpochs && s.step + 1 == cfg.batches);
    var saveByStep := isLastStep || (s.total + 1) % cfg.savePeriod == 0;
    saveByTimeout := timeUp(s.total + 1);
    var saved: Option<SaveState> := None;
    if cfg.saving && (saveByStep || saveByTimeout) {
      SmallMod(s.step + 1, cfg.batches);
      saved := Some(SaveState(if cfg.wrapStep then (s.step + 1) % cfg.batches else s.step + 1,
                              s.total + 1, s.epoch, s.position + 1));
    }
    event := Event(s.epoch, s.step, s.total, s.position, isLastStep, saved);
  }

  lemma NextEpochStarts(cfg: Config, s: SaveState)
    requires Startable(cfg, s) && s.position == cfg.batches && s.epoch < cfg.maxEpochs
    ensures Startable(cfg, SaveState(0, s.total, s.epoch + 1, 0))
  {
    EpochOver(cfg.batches, cfg.maxEpochs, s.epoch);
  }

  lemma StartableBounds(cfg: Config, s: SaveState)
    requires Startable(cfg, s)
    ensures s.position <= cfg.batches && s.total <= Steps(cfg)
  {}

  /** The training loop from any startable state. Unless the time is up, it performs exactly the
      steps that remain, in order; if it is, it stops right after that step. */
  method Train(cfg: Config, start: SaveState, timeUp: nat -> bool) returns (events: seq<Event>)
    requires Sensible(cfg) && Startable(cfg, start)
    ensures start.total + |events| <= Steps(cfg)
    ensures events == IdealTrace(cfg, timeUp, start.total, start.total + |events|)
    ensures InTime(timeUp, start.total, start.total + |events| - (if events == [] then 0 else 1))
    ensures start.total + |events| == Steps(cfg) || (events != [] && timeUp(start.total + |events|))
  {
    var currentStep: nat, totalSteps: nat, currentEpoch: nat := start.step, start.total, start.epoch;
    var position: nat := start.position;
    events := [];
    StartableBounds(cfg, start);
    assert IdealTrace(cfg, timeUp, totalSteps, totalSteps) == [];
    hide IdealTrace;
    hide Ideal;
    hide Startable;
    hide Steps;
    while currentEpoch < cfg.maxEpochs && totalSteps < cfg.maxSteps
      invariant Startable(cfg, SaveState(currentStep, totalSteps, currentEpoch, position))
      invariant start.total <= totalSteps == start.total + |events| <= Steps(cfg)
      invariant events == IdealTrace(cfg, timeUp, start.total, totalSteps)
      invariant InTime(timeUp, start.total, totalSteps)
      decreases if currentEpoch < cfg.maxEpochs then cfg.maxEpochs - currentEpoch else 0
    {
      // The dataloader goes on from its saved position.
      StartableBounds(cfg, SaveState(currentStep, totalSteps, currentEpoch, position));
      while position < cfg.batches
        invariant position <= cfg.batches && currentEpoch < cfg.maxEpochs
        invariant Startable(cfg, SaveState(currentStep, totalSteps, currentEpoch, position))
        invariant position < cfg.batches ==> totalSteps < cfg.maxSteps
        invariant start.total <= totalSteps == start.total + |events| <= Steps(cfg)
        invariant events == IdealTrace(cfg, timeUp, start.total, totalSteps)
        invariant InTime(timeUp, start.total, totalSteps)
        decreases cfg.batches - position
      {
        var event, saveByTimeout :=
          PerformStep(cfg, SaveState(currentStep, totalSteps, currentEpoch, position), timeUp);
        TraceExtends(cfg, timeUp, start.total, totalSteps);
        events := events + [event];
        position := position + 1;
        currentStep := currentStep + 1;
        totalSteps := totalSteps + 1;
        if saveByTimeout { return; }
        if totalSteps >= cfg.maxSteps {
          StoppedAtEnd(cfg, SaveState(currentStep, totalSteps, currentEpoch, position));
          return;
        }
      }
      NextEpochStarts(cfg, SaveState(currentStep, totalSteps, currentEpoch, position));
      currentEpoch, currentStep, position := currentEpoch + 1, 0, 0;
    }
    StoppedAtEnd(cfg, SaveState(currentStep, totalSteps, currentEpoch, position));
  }

  lemma SmallMod(k: nat, n: nat)
    requires 0 < k <= n
    ensures k % n == if k == n then 0 else k
  {}

  lemma StoppedAtEnd(cfg: Config, s: SaveState)
    requires Startable(cfg, s) && (s.epoch >= cfg.maxEpochs || s.total >= cfg.maxSteps)
    ensures s.total == Steps(cfg)
  {
    if s.epoch >= cfg.maxEpochs {
      assert s.epoch * cfg.batches == cfg.maxEpochs * cfg.batches + (s.epoch - cfg.maxEpochs) * cfg.batches;
    }
  }

  // ---------------------------------------------------------------- theorems

  const NEVER: nat -> bool := _ => false

  /** A fresh run without a time limit performs exactly `min(max_num_steps, max_num_epochs * len(dataloader))`
      steps, the number the scheduler is given (twice that in DPO), and `is_last_step` holds on the final
      one and on no other. */
  method FreshRun(cfg: Config) returns (events: seq<Event>)
    requires Sensible(cfg)
    ensures |events| == Steps(cfg) && TrainIters(cfg) == if cfg.doubled then 2 * |events| else |events|
    ensures events == IdealTrace(cfg, NEVER, 0, Steps(cfg))
    ensures forall i | 0 <= i < |events| :: events[i].isLast <==> i + 1 == |events|
    ensures |events| <= cfg.maxSteps && |events| <= cfg.maxEpochs * cfg.batches
    ensures |events| == cfg.maxSteps || |events| == cfg.maxEpochs * cfg.batches
    ensures forall i | 0 <= i < |events| ::
      events[i].total == i && events[i].epoch * cfg.batches + events[i].position == i
      && events[i].step == events[i].position < cfg.batches
    ensures forall i | 0 <= i < |events| ::
      events[i].saved.Some? <==> cfg.saving && (i + 1 == |events| || (i + 1) % cfg.savePeriod == 0)
    ensures forall i | 0 <= i < |events| && events[i].saved.Some? ::
      var saved := events[i].saved.value;
      saved.total == i + 1 && saved.epoch == events[i].epoch && saved.position == events[i].position + 1
  {
    FreshStarts(cfg);
    events := Train(cfg, FRESH, NEVER);
    forall i | 0 <= i < |events|
      ensures events[i] == Ideal(cfg, NEVER, i)
    {}
  }

  /** Every checkpoint any run writes can be started from, also at the end of an epoch. */
  lemma CheckpointsStart(cfg: Config, timeUp: nat -> bool, t: nat)
    requires Sensible(cfg) && t < Steps(cfg) && Ideal(cfg, timeUp, t).saved.Some?
    ensures Startable(cfg, Ideal(cfg, timeUp, t).saved.value)
    ensures Ideal(cfg, timeUp, t).saved.value.total == t + 1
  {
    assert t == (t / cfg.batches) * cfg.batches + t % cfg.batches;
  }

  /** Interrupt and resume: stopping at any checkpoint and training on from it performs, step for
      step, what the uninterrupted run performs, no step lost and none repeated. */
  method InterruptAndResume(cfg: Config, timeUp: nat -> bool) returns (before: seq<Event>, after: seq<Event>)
    requires Sensible(cfg) && cfg.saving
    ensures |before| + |after| == Steps(cfg)
    ensures SameWork(before + after, IdealTrace(cfg, NEVER, 0, Steps(cfg)))
  {
    FreshStarts(cfg);
    before := Train(cfg, FRESH, timeUp);
    after := [];
    if before != [] {
      var last := before[|before| - 1];
      assert last == Ideal(cfg, timeUp, |before| - 1);
      CheckpointsStart(cfg, timeUp, |before| - 1);
      after := Train(cfg, last.saved.value, NEVER);
    }
    forall i | 0 <= i < |before + after|
      ensures (before + after)[i].(saved := None) == Ideal(cfg, NEVER, i).(saved := None)
    {}
  }

  /** The same steps on the same batches, whatever was saved on the way. */
  predicate SameWork(a: seq<Event>, b: seq<Event>) {
    |a| == |b| && forall i | 0 <= i < |a| :: a[i].(saved := None) == b[i].(saved := None)
  }

  /** Resuming from any checkpoint of the uninterrupted run, periodic or last, performs exactly the rest of it. */
  method ResumeFrom(cfg: Config, t: nat) returns (rest: seq<Event>)
    requires Sensible(cfg) && t < Steps(cfg) && Ideal(cfg, NEVER, t).saved.Some?
    ensures IdealTrace(cfg, NEVER, 0, Steps(cfg)) == IdealTrace(cfg, NEVER, 0, t + 1) + rest
  {
    CheckpointsStart(cfg, NEVER, t);
    rest := Train(cfg, Ideal(cfg, NEVER, t).saved.value, NEVER);
  }
}
