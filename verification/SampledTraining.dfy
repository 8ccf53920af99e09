/** The training loop where a batch need not make a step: under dynamic sampling the step counter counts
    trained steps while the dataloader counts batches, and several dataloaders form an endless stream. */
module SampledTraining {
  import Arithmetic
  import opened TrainingLoop
  import opened Wrappers

  /** Whether a batch of an epoch completes a training step. */
  type Completes = (nat, nat) -> bool

  datatype Step = Step(epoch: nat, position: nat, step: nat, total: nat, isLast: bool, saved: bool)

  /** The step the loop makes in state `s`: the flag from its two counters, and whether it is due to be saved. */
  function StepAt(cfg: Config, s: SaveState): Step
    requires Sensible(cfg)
  {
    var isLast := s.total + 1 >= cfg.maxSteps || (s.epoch + 1 == cfg.maxEpochs && s.step + 1 == cfg.batches);
    Step(s.epoch, s.position, s.step, s.total, isLast, cfg.saving && (isLast || (s.total + 1) % cfg.savePeriod == 0))
  }

  /** The state after a batch that completes a step, after one that does not, and after an epoch. */
  function Trains(s: SaveState): SaveState { SaveState(s.step + 1, s.total + 1, s.epoch, s.position + 1) }
  function Skips(s: SaveState): SaveState { s.(position := s.position + 1) }
  function NextEpoch(s: SaveState): SaveState { SaveState(0, s.total, s.epoch + 1, 0) }

  /** What a checkpoint after a step holds. */
  function After(step: Step): SaveState {
    SaveState(step.step + 1, step.total + 1, step.epoch, step.position + 1)
  }

  function EpochsLeft(cfg: Config, s: SaveState): nat {
    if s.epoch < cfg.maxEpochs then cfg.maxEpochs - s.epoch else 0
  }

  function BatchesLeft(cfg: Config, s: SaveState): nat {
    if s.position < cfg.batches then cfg.batches - s.position else 0
  }

  /** The steps of a run from a state on, unless it is out of time. */
  function StepsFrom(cfg: Config, completes: Completes, s: SaveState): seq<Step>
    requires Sensible(cfg)
    decreases EpochsLeft(cfg, s), BatchesLeft(cfg, s)
  {
    if s.epoch >= cfg.maxEpochs || s.total >= cfg.maxSteps then []
    else if s.position >= cfg.batches then StepsFrom(cfg, completes, NextEpoch(s))
    else if !completes(s.epoch, s.position) then StepsFrom(cfg, completes, Skips(s))
    else [StepAt(cfg, s)] + StepsFrom(cfg, completes, Trains(s))
  }

  /** How many steps lie before the newest checkpoint: one was written after each step that was due to be
      saved, and after the one at which the time was up. */
  function Newest(cfg: Config, timeUp: nat -> bool, steps: seq<Step>): (n: nat)
    ensures n <= |steps|
  {
    if steps == [] then 0
    else
      var last := steps[|steps| - 1];
      if last.saved || (cfg.saving && timeUp(last.total + 1)) then |steps| else Newest(cfg, timeUp, steps[..|steps| - 1])
  }

  function WrittenBy(cfg: Config, timeUp: nat -> bool, steps: seq<Step>): Option<SaveState> {
    var n := Newest(cfg, timeUp, steps);
    if n == 0 then None else Some(After(steps[n - 1]))
  }

  /** How far a run has come that is in state `s`: the steps so far and those from `s` on are all, and
      the time was not up before the last of them. */
  predicate Underway(cfg: Config, completes: Completes, start: SaveState, timeUp: nat -> bool, s: SaveState, steps: seq<Step>)
    requires Sensible(cfg)
  {
    && steps + StepsFrom(cfg, completes, s) == StepsFrom(cfg, completes, start)
    && s.total == start.total + |steps|
    && InTime(timeUp, start.total, s.total - (if steps == [] then 0 else 1))
  }

  /** The loop from a fresh or a saved state. Unless the time is up it performs exactly the steps that remain;
      if it is, it stops right after that step. */
  method Run(cfg: Config, completes: Completes, start: SaveState, timeUp: nat -> bool)
    returns (steps: seq<Step>, checkpoint: Option<SaveState>)
    requires Sensible(cfg)
    ensures steps <= StepsFrom(cfg, completes, start)
    ensures InTime(timeUp, start.total, start.total + |steps| - (if steps == [] then 0 else 1))
    ensures steps == StepsFrom(cfg, completes, start) || (steps != [] && timeUp(start.total + |steps|))
    ensures checkpoint == WrittenBy(cfg, timeUp, steps)
  {
    hide StepsFrom, InTime, Newest, WrittenBy, Underway, StepAt, After;
    steps, checkpoint := [], None;
    var currentEpoch: nat, currentStep: nat, totalSteps: nat := start.epoch, start.step, start.total;
    var position: nat := start.position;
    SetOut(cfg, completes, start, timeUp);
    while currentEpoch < cfg.maxEpochs && totalSteps < cfg.maxSteps
      invariant Underway(cfg, completes, start, timeUp, SaveState(currentStep, totalSteps, currentEpoch, position), steps)
      invariant checkpoint == WrittenBy(cfg, timeUp, steps)
      invariant steps != [] ==> !timeUp(totalSteps)
      decreases cfg.maxEpochs - currentEpoch
    {
      // The dataloader goes on from its saved position.
      while position < cfg.batches
        invariant totalSteps < cfg.maxSteps
        invariant Underway(cfg, completes, start, timeUp, SaveState(currentStep, totalSteps, currentEpoch, position), steps)
        invariant checkpoint == WrittenBy(cfg, timeUp, steps)
        invariant steps != [] ==> !timeUp(totalSteps)
      {
        var s := SaveState(currentStep, totalSteps, currentEpoch, position);
        if !completes(currentEpoch, position) {
          GoOn(cfg, completes, start, timeUp, s, steps);
          position := position + 1;
          continue;
        }
        var step := StepAt(cfg, s);
        var saveByTimeout := timeUp(totalSteps + 1);
        if step.saved || (cfg.saving && saveByTimeout) {
          checkpoint := Some(After(step));
        }
        StepDone(cfg, completes, start, timeUp, s, steps);
        steps := steps + [step];
        position, currentStep, totalSteps := position + 1, currentStep + 1, totalSteps + 1;
        if saveByTimeout || totalSteps >= cfg.maxSteps {
          Over(cfg, completes, start, timeUp, SaveState(currentStep, totalSteps, currentEpoch, position), steps);
          return;
        }
      }
      GoOn(cfg, completes, start, timeUp, SaveState(currentStep, totalSteps, currentEpoch, position), steps);
      currentEpoch, currentStep, position := currentEpoch + 1, 0, 0;
    }
    Over(cfg, completes, start, timeUp, SaveState(currentStep, totalSteps, currentEpoch, position), steps);
  }

  lemma SetOut(cfg: Config, completes: Completes, start: SaveState, timeUp: nat -> bool)
    requires Sensible(cfg)
    ensures Underway(cfg, completes, start, timeUp, start, []) && WrittenBy(cfg, timeUp, []) == None
  {}

  lemma GoOn(cfg: Config, completes: Completes, start: SaveState, timeUp: nat -> bool, s: SaveState, steps: seq<Step>)
    requires Sensible(cfg) && Underway(cfg, completes, start, timeUp, s, steps)
    requires s.epoch < cfg.maxEpochs && s.total < cfg.maxSteps
    requires s.position < cfg.batches ==> !completes(s.epoch, s.position)
    ensures Underway(cfg, completes, start, timeUp, if s.position < cfg.batches then Skips(s) else NextEpoch(s), steps)
  {}

  lemma StepDone(cfg: Config, completes: Completes, start: SaveState, timeUp: nat -> bool, s: SaveState, steps: seq<Step>)
    requires Sensible(cfg) && Underway(cfg, completes, start, timeUp, s, steps) && (steps != [] ==> !timeUp(s.total))
    requires s.epoch < cfg.maxEpochs && s.total < cfg.maxSteps && s.position < cfg.batches && completes(s.epoch, s.position)
    ensures Underway(cfg, completes, start, timeUp, Trains(s), steps + [StepAt(cfg, s)])
    ensures WrittenBy(cfg, timeUp, steps + [StepAt(cfg, s)]) ==
      if StepAt(cfg, s).saved || (cfg.saving && timeUp(s.total + 1)) then Some(After(StepAt(cfg, s)))
      else WrittenBy(cfg, timeUp, steps)
  {
    assert (steps + [StepAt(cfg, s)])[..|steps|] == steps;
    Associate(steps, [StepAt(cfg, s)], StepsFrom(cfg, completes, Trains(s)));
  }

  lemma Over(cfg: Config, completes: Completes, start: SaveState, timeUp: nat -> bool, s: SaveState, steps: seq<Step>)
    requires Sensible(cfg) && Underway(cfg, completes, start, timeUp, s, steps)
    ensures steps <= StepsFrom(cfg, completes, start) && s.total == start.total + |steps|
    ensures InTime(timeUp, start.total, start.total + |steps| - (if steps == [] then 0 else 1))
    ensures s.epoch >= cfg.maxEpochs || s.total >= cfg.maxSteps ==> steps == StepsFrom(cfg, completes, start)
  {}

  lemma Associate(a: seq<Step>, b: seq<Step>, c: seq<Step>)
    ensures (a + b) + c == a + (b + c)
  {}

  // ---------------------------------------------------------------- resuming

  /** From the checkpoint after any of its steps a run goes on with exactly the steps after it. */
  lemma {:induction false} ResumeIsRest(cfg: Config, completes: Completes, s: SaveState, i: nat)
    requires Sensible(cfg) && i < |StepsFrom(cfg, completes, s)|
    ensures var steps := StepsFrom(cfg, completes, s);
      steps[i + 1..] == StepsFrom(cfg, completes, After(steps[i])) && steps[i].total == s.total + i
    decreases EpochsLeft(cfg, s), BatchesLeft(cfg, s)
  {
    if s.position >= cfg.batches {
      ResumeIsRest(cfg, completes, NextEpoch(s), i);
    } else if !completes(s.epoch, s.position) {
      ResumeIsRest(cfg, completes, Skips(s), i);
    } else {
      var rest := StepsFrom(cfg, completes, Trains(s));
      var steps := [StepAt(cfg, s)] + rest;
      assert steps[1..] == rest;
      if i > 0 {
        ResumeIsRest(cfg, completes, Trains(s), i - 1);
        assert steps[i + 1..] == rest[i..];
      }
    }
  }

  /** Interrupt and resume: what was done up to the newest checkpoint and what is done from it make up the
      uninterrupted run; a time-out leaves nothing to be done twice. */
  method InterruptAndResume(cfg: Config, completes: Completes, timeUp: nat -> bool)
    returns (before: seq<Step>, after: seq<Step>, kept: nat)
    requires Sensible(cfg)
    ensures kept <= |before| && before[..kept] + after == StepsFrom(cfg, completes, FRESH)
    ensures before == StepsFrom(cfg, completes, FRESH) || (cfg.saving ==> kept == |before|)
  {
    hide StepsFrom, Newest, InTime;
    var checkpoint, ignored;
    before, checkpoint := Run(cfg, completes, FRESH, timeUp);
    kept := Newest(cfg, timeUp, before);
    ghost var all := StepsFrom(cfg, completes, FRESH);
    if kept > 0 {
      ResumeIsRest(cfg, completes, FRESH, kept - 1);
      assert before[kept - 1] == all[kept - 1];
    }
    if before != [] && timeUp(|before|) {
      LastTotal(cfg, completes, timeUp, before);
    }
    after, ignored := Run(cfg, completes, if checkpoint.Some? then checkpoint.value else FRESH, NEVER);
    assert before[..kept] == all[..kept];
  }

  lemma LastTotal(cfg: Config, completes: Completes, timeUp: nat -> bool, steps: seq<Step>)
    requires Sensible(cfg) && steps != [] && steps <= StepsFrom(cfg, completes, FRESH) && timeUp(|steps|)
    ensures cfg.saving ==> Newest(cfg, timeUp, steps) == |steps|
  {
    ResumeIsRest(cfg, completes, FRESH, |steps| - 1);
    hide StepsFrom;
  }

  // --------------------------------------------------------------- step count

  /** Steps trained in an epoch before a batch. */
  function Trained(completes: Completes, epoch: nat, position: nat): (n: nat)
    ensures n <= position
  {
    if position == 0 then 0 else Trained(completes, epoch, position - 1) + (if completes(epoch, position - 1) then 1 else 0)
  }

  /** Batches that complete a step in the first epochs. */
  function Completing(cfg: Config, completes: Completes, epochs: nat): nat {
    if epochs == 0 then 0 else Completing(cfg, completes, epochs - 1) + Trained(completes, epochs - 1, cfg.batches)
  }

  /** Batches that complete a step from a state on. */
  function Remaining(cfg: Config, completes: Completes, s: SaveState): int {
    if s.epoch >= cfg.maxEpochs then 0
    else Completing(cfg, completes, cfg.maxEpochs) - Completing(cfg, completes, s.epoch) - Trained(completes, s.epoch, s.position)
  }

  function Min(a: int, b: int): int {
    if a < b then a else b
  }

  /** A run performs a step for each batch that completes one, until `max_num_steps`. */
  lemma {:induction false} StepCount(cfg: Config, completes: Completes, s: SaveState)
    requires Sensible(cfg) && s.total <= cfg.maxSteps && s.position <= cfg.batches
    ensures |StepsFrom(cfg, completes, s)| == Min(cfg.maxSteps - s.total, Remaining(cfg, completes, s))
    ensures Remaining(cfg, completes, s) >= 0
    decreases EpochsLeft(cfg, s), BatchesLeft(cfg, s)
  {
    if s.epoch < cfg.maxEpochs {
      if s.position == cfg.batches {
        StepCount(cfg, completes, NextEpoch(s));
      } else if !completes(s.epoch, s.position) {
        StepCount(cfg, completes, Skips(s));
      } else if s.total < cfg.maxSteps {
        StepCount(cfg, completes, Trains(s));
      } else {
        RemainingNatural(cfg, completes, s);
      }
    }
  }

  lemma {:induction false} RemainingNatural(cfg: Config, completes: Completes, s: SaveState)
    requires s.position <= cfg.batches
    ensures Remaining(cfg, completes, s) >= 0
    decreases EpochsLeft(cfg, s), BatchesLeft(cfg, s)
  {
    if s.epoch < cfg.maxEpochs {
      RemainingNatural(cfg, completes, if s.position == cfg.batches then NextEpoch(s) else Skips(s));
    }
  }

  // ------------------------------------------------------------ the last flag

  /** All batches of an epoch complete a step. */
  predicate AllComplete(cfg: Config, completes: Completes, epoch: nat) {
    forall p: nat | p < cfg.batches :: completes(epoch, p)
  }

  lemma {:induction false} TrainedAllIff(completes: Completes, epoch: nat, position: nat)
    ensures Trained(completes, epoch, position) == position <==> forall p: nat | p < position :: completes(epoch, p)
    decreases position
  {
    if position > 0 {
      TrainedAllIff(completes, epoch, position - 1);
    }
  }

  /** No batch from here on completes a step. */
  predicate NoneLeft(cfg: Config, completes: Completes, s: SaveState) {
    forall e: nat, p: nat | e < cfg.maxEpochs && p < cfg.batches && (e > s.epoch || (e == s.epoch && p >= s.position)) ::
      !completes(e, p)
  }

  lemma {:induction false} NoStepsLeft(cfg: Config, completes: Completes, s: SaveState)
    requires Sensible(cfg) && s.total < cfg.maxSteps && StepsFrom(cfg, completes, s) == []
    ensures NoneLeft(cfg, completes, s)
    decreases EpochsLeft(cfg, s), BatchesLeft(cfg, s)
  {
    if s.epoch < cfg.maxEpochs {
      NoStepsLeft(cfg, completes, if s.position >= cfg.batches then NextEpoch(s) else Skips(s));
    }
  }

  /** A run is flagged at its end, in the sense of the code, if it used up its steps or trained on every batch
      of the last epoch. */
  predicate EndsFlagged(cfg: Config, completes: Completes, total: nat) {
    total == cfg.maxSteps || (cfg.maxEpochs > 0 && AllComplete(cfg, completes, cfg.maxEpochs - 1))
  }

  /** The step counter counts the epoch's trained steps, as it does from the start and after every step. */
  predicate Counting(cfg: Config, completes: Completes, s: SaveState) {
    s.total <= cfg.maxSteps && s.position <= cfg.batches && s.step == Trained(completes, s.epoch, s.position)
  }

  lemma {:induction false} FlagsFrom(cfg: Config, completes: Completes, s: SaveState)
    requires Sensible(cfg) && Counting(cfg, completes, s)
    ensures var steps := StepsFrom(cfg, completes, s);
      && s.total + |steps| <= cfg.maxSteps
      && forall i | 0 <= i < |steps| ::
           (steps[i].isLast <==> i + 1 == |steps| && EndsFlagged(cfg, completes, s.total + |steps|))
           && Counting(cfg, completes, After(steps[i]))
    decreases EpochsLeft(cfg, s), BatchesLeft(cfg, s)
  {
    if s.epoch >= cfg.maxEpochs || s.total >= cfg.maxSteps {
    } else if s.position == cfg.batches {
      FlagsFrom(cfg, completes, NextEpoch(s));
    } else if !completes(s.epoch, s.position) {
      FlagsFrom(cfg, completes, Skips(s));
    } else {
      FlagsFrom(cfg, completes, Trains(s));
      HeadFlag(cfg, completes, s);
    }
  }

  lemma HeadFlag(cfg: Config, completes: Completes, s: SaveState)
    requires Sensible(cfg) && Counting(cfg, completes, s) && s.total < cfg.maxSteps
    requires s.position < cfg.batches && s.epoch < cfg.maxEpochs && completes(s.epoch, s.position)
    ensures StepAt(cfg, s).isLast <==> StepsFrom(cfg, completes, Trains(s)) == [] && EndsFlagged(cfg, completes, s.total + 1)
  {
    TrainedAllIff(completes, s.epoch, s.position);
    if StepsFrom(cfg, completes, Trains(s)) == [] && s.total + 1 < cfg.maxSteps {
      NoStepsLeft(cfg, completes, Trains(s));
      hide StepsFrom, Trained;
      if AllComplete(cfg, completes, cfg.maxEpochs - 1) {
        assert completes(cfg.maxEpochs - 1, cfg.batches - 1);
      }
    }
  }

  /** Under dynamic sampling: a run performs the smaller of `max_num_steps` and the number of batches that
      complete a step, no step but the final one is flagged, and that one exactly if enough batches complete a
      step to use up `max_num_steps`, or every batch of the last epoch does. */
  lemma FinalStepFlaggedIff(cfg: Config, completes: Completes)
    requires Sensible(cfg)
    ensures var steps, completing := StepsFrom(cfg, completes, FRESH), Completing(cfg, completes, cfg.maxEpochs);
      && |steps| == Min(cfg.maxSteps, completing)
      && forall i | 0 <= i < |steps| ::
           steps[i].isLast <==>
             i + 1 == |steps| && (completing >= cfg.maxSteps || AllComplete(cfg, completes, cfg.maxEpochs - 1))
  {
    FlagsFrom(cfg, completes, FRESH);
    StepCount(cfg, completes, FRESH);
    NoEpochs(cfg, completes);
    hide StepsFrom;
  }

  lemma NoEpochs(cfg: Config, completes: Completes)
    requires Sensible(cfg)
    ensures cfg.maxEpochs == 0 ==> StepsFrom(cfg, completes, FRESH) == []
  {}

  /** One skipped batch in the only epoch: the final step is neither flagged nor saved. */
  lemma SkippedBatchMissesTheFlag()
    ensures var cfg := Config(10, 1, 2, 10, true, false, false);
      StepsFrom(cfg, (e: nat, p: nat) => p == 1, FRESH) == [Step(0, 1, 0, 0, false, false)]
  {
    var cfg := Config(10, 1, 2, 10, true, false, false);
    var second: Completes := (e: nat, p: nat) => p == 1;
    assert StepsFrom(cfg, second, SaveState(0, 1, 1, 0)) == [];
    assert StepsFrom(cfg, second, SaveState(1, 1, 0, 2)) == [];
    assert StepsFrom(cfg, second, SaveState(0, 0, 0, 1)) == [Step(0, 1, 0, 0, false, false)];
  }

  // ------------------------------------------------------- steps and saves

  /** Batches that complete a step before a state's. */
  function Before(cfg: Config, completes: Completes, epoch: nat, position: nat): nat {
    Completing(cfg, completes, epoch) + Trained(completes, epoch, position)
  }

  /** Step `x` is made by a batch that completes one, after `n` others, as the step of that number. */
  predicate InPlace(cfg: Config, completes: Completes, x: Step, n: nat, total: nat)
    requires Sensible(cfg)
  {
    && x.epoch < cfg.maxEpochs && x.position < cfg.batches && completes(x.epoch, x.position)
    && Before(cfg, completes, x.epoch, x.position) == n
    && x.step == Trained(completes, x.epoch, x.position) && x.total == total
    && (x.saved <==> cfg.saving && (x.isLast || (x.total + 1) % cfg.savePeriod == 0))
  }

  lemma BeforeMoves(cfg: Config, completes: Completes, s: SaveState)
    requires Counting(cfg, completes, s)
    ensures s.position == cfg.batches ==>
      Before(cfg, completes, s.epoch + 1, 0) == Before(cfg, completes, s.epoch, s.position) && Counting(cfg, completes, NextEpoch(s))
    ensures s.position < cfg.batches && !completes(s.epoch, s.position) ==>
      Before(cfg, completes, s.epoch, s.position + 1) == Before(cfg, completes, s.epoch, s.position) && Counting(cfg, completes, Skips(s))
    ensures s.position < cfg.batches && s.total < cfg.maxSteps && completes(s.epoch, s.position) ==>
      Before(cfg, completes, s.epoch, s.position + 1) == Before(cfg, completes, s.epoch, s.position) + 1 && Counting(cfg, completes, Trains(s))
  {}

  lemma HeadInPlace(cfg: Config, completes: Completes, s: SaveState)
    requires Sensible(cfg) && Counting(cfg, completes, s)
    requires s.epoch < cfg.maxEpochs && s.position < cfg.batches && completes(s.epoch, s.position)
    ensures InPlace(cfg, completes, StepAt(cfg, s), Before(cfg, completes, s.epoch, s.position), s.total)
  {}

  /** Which steps they are: one for each batch that completes one, in the order of the batches with none left out,
      numbered through; the step counter is that of its epoch; and a step is due to be saved if it is last or its total
      a multiple of the period. */
  lemma {:induction false} StepsInOrder(cfg: Config, completes: Completes, s: SaveState, i: nat)
    requires Sensible(cfg) && Counting(cfg, completes, s) && i < |StepsFrom(cfg, completes, s)|
    ensures InPlace(cfg, completes, StepsFrom(cfg, completes, s)[i], Before(cfg, completes, s.epoch, s.position) + i, s.total + i)
    decreases EpochsLeft(cfg, s), BatchesLeft(cfg, s)
  {
    BeforeMoves(cfg, completes, s);
    assert s.position <= cfg.batches;
    hide InPlace, Before, Counting, StepAt;
    if s.position >= cfg.batches {
      StepsInOrder(cfg, completes, NextEpoch(s), i);
    } else if !completes(s.epoch, s.position) {
      StepsInOrder(cfg, completes, Skips(s), i);
    } else if i > 0 {
      StepsInOrder(cfg, completes, Trains(s), i - 1);
    } else {
      HeadInPlace(cfg, completes, s);
    }
  }

  lemma {:induction false} NewestAtLeast(cfg: Config, timeUp: nat -> bool, steps: seq<Step>, n: nat)
    requires 0 < n <= |steps| && steps[n - 1].saved
    ensures Newest(cfg, timeUp, steps) >= n
    decreases |steps|
  {
    if n < |steps| {
      NewestAtLeast(cfg, timeUp, steps[..|steps| - 1], n);
    }
  }

  /** However a run is cut off, fewer steps than the save period are lost with it. */
  lemma LostWorkIsBounded(cfg: Config, completes: Completes, timeUp: nat -> bool, steps: seq<Step>)
    requires Sensible(cfg) && cfg.saving && steps <= StepsFrom(cfg, completes, FRESH)
    ensures |steps| - Newest(cfg, timeUp, steps) < cfg.savePeriod
  {
    var q, n := |steps| / cfg.savePeriod, |steps| - |steps| % cfg.savePeriod;
    assert n == q * cfg.savePeriod;
    if n > 0 {
      MultipleOf(q, cfg.savePeriod);
      SavedAt(cfg, completes, timeUp, steps, n);
    }
  }

  lemma SavedAt(cfg: Config, completes: Completes, timeUp: nat -> bool, steps: seq<Step>, n: nat)
    requires Sensible(cfg) && cfg.saving && steps <= StepsFrom(cfg, completes, FRESH)
    requires 0 < n <= |steps| && n % cfg.savePeriod == 0
    ensures Newest(cfg, timeUp, steps) >= n
  {
    StepsInOrder(cfg, completes, FRESH, n - 1);
    hide StepsFrom, Newest;
    assert steps[n - 1] == StepsFrom(cfg, completes, FRESH)[n - 1];
    NewestAtLeast(cfg, timeUp, steps, n);
  }

  lemma MultipleOf(q: nat, n: nat)
    requires n > 0
    ensures (q * n) % n == 0
  {
    Arithmetic.DivMod(q, 0, n);
  }

  // ------------------------------------------------------- an endless stream

  /** With several dataloaders the stream never ends and only `max_num_steps` does. However many of its batches
      are drawn: each batch that completes a step makes one, until the steps are used up, and the flag is right
      again. */
  method TrainFromStream(cfg: Config, completes: Completes, start: SaveState, drawn: nat) returns (steps: seq<Step>)
    requires Sensible(cfg) && start.total <= cfg.maxSteps
    ensures |steps| == if start.epoch >= cfg.maxEpochs then 0
      else Min(cfg.maxSteps - start.total,
               Trained(completes, start.epoch, start.position + drawn) - Trained(completes, start.epoch, start.position))
    ensures forall i | 0 <= i < |steps| :: StreamStep(cfg, completes, start, i, steps[i])
  {
    steps := [];
    if start.epoch >= cfg.maxEpochs || start.total >= cfg.maxSteps {
      TrainedGrows(completes, start.epoch, start.position, drawn);
      return;
    }
    var currentStep, totalSteps, position := start.step, start.total, start.position;
    while position < start.position + drawn
      invariant start.position <= position <= start.position + drawn && totalSteps < cfg.maxSteps
      invariant |steps| == totalSteps - start.total == currentStep - start.step
      invariant |steps| == Trained(completes, start.epoch, position) - Trained(completes, start.epoch, start.position)
      invariant forall i | 0 <= i < |steps| :: StreamStep(cfg, completes, start, i, steps[i])
    {
      if !completes(start.epoch, position) {
        position := position + 1;
        continue;
      }
      var isLastStep := totalSteps + 1 >= cfg.maxSteps;
      var saved := cfg.saving && (isLastStep || (totalSteps + 1) % cfg.savePeriod == 0);
      steps := steps + [Step(start.epoch, position, currentStep, totalSteps, isLastStep, saved)];
      position, currentStep, totalSteps := position + 1, currentStep + 1, totalSteps + 1;
      if totalSteps >= cfg.maxSteps {
        TrainedGrows(completes, start.epoch, position, start.position + drawn - position);
        return;
      }
    }
  }

  /** Step number `i` of a stream is made by the batch that completes it, the one after `i` others. */
  predicate StreamStep(cfg: Config, completes: Completes, start: SaveState, i: nat, step: Step)
    requires Sensible(cfg)
  {
    && step.epoch == start.epoch && completes(start.epoch, step.position)
    && Trained(completes, start.epoch, step.position) == Trained(completes, start.epoch, start.position) + i
    && step.step == start.step + i && step.total == start.total + i
    && (step.isLast <==> start.total + i + 1 == cfg.maxSteps)
    && (step.saved <==> cfg.saving && (step.isLast || (step.total + 1) % cfg.savePeriod == 0))
  }

  lemma {:induction false} TrainedGrows(completes: Completes, epoch: nat, position: nat, more: nat)
    ensures Trained(completes, epoch, position) <= Trained(completes, epoch, position + more)
    decreases more
  {
    if more > 0 {
      TrainedGrows(completes, epoch, position, more - 1);
    }
  }
}
