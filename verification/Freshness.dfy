/** Which policy version the generation side holds, over whole runs of the synchronous loops:
    staleness flag, refits, KV-scale calibration, rollouts, dynamic sampling and validation.
    Weights are version numbers; training moves the policy to the next version. */
module Freshness {
  import opened Wrappers

  /** `needRefit` is false when generation runs on the policy's own weights. */
  datatype Setting = Setting(needRefit: bool, syncKvScales: bool, dynamicSampling: bool, validateFirst: bool)

  /** What the environment decides about one generated batch: whether dynamic sampling now has
      enough rows, whether this step validates, and whether the run stops after it. */
  datatype Input = Input(complete: bool, validates: bool, stops: bool)

  /** Events that touch weights; `generation` is the version generation really used. */
  datatype Event =
    | Refit(policy: nat, scales: Option<nat>)
    | Rollout(policy: nat, generation: Option<nat>)
    | Train(policy: nat, merged: seq<Option<nat>>)
    | Validate(policy: nat, generation: Option<nat>)

  // ------------------------------------------------------ the ideal run

  datatype Plan = Plan(events: seq<Event>, policy: nat, stopped: bool)

  function After(events: seq<Event>, rest: Plan): Plan {
    rest.(events := events + rest.events)
  }

  function Repeat(policy: nat, n: nat): seq<Option<nat>> {
    seq(n, _ => Some(policy))
  }

  /** One epoch of a run whose generation always has the newest weights; `waiting` rollouts are
      pending. Every rollout and validation uses the current policy, and every training batch
      merges rollouts of one version, the one then trained. */
  function IdealEpoch(setting: Setting, inputs: seq<Input>, policy: nat, waiting: nat): Plan
    decreases |inputs|
  {
    if inputs == [] then Plan([], policy, false)
    else
      var rollout := [Rollout(policy, Some(policy))];
      if setting.dynamicSampling && !inputs[0].complete then
        After(rollout, IdealEpoch(setting, inputs[1..], policy, waiting + 1))
      else
        var step := rollout + [Train(policy, Repeat(policy, waiting + 1))]
          + (if inputs[0].validates then [Validate(policy + 1, Some(policy + 1))] else []);
        if inputs[0].stops then Plan(step, policy + 1, true)
        else After(step, IdealEpoch(setting, inputs[1..], policy + 1, 0))
  }

  /** An epoch ends by dropping what was pending. */
  function IdealRun(setting: Setting, epochs: seq<seq<Input>>, policy: nat): seq<Event>
    decreases |epochs|
  {
    if epochs == [] then []
    else
      var plan := IdealEpoch(setting, epochs[0], policy, 0);
      plan.events + (if plan.stopped then [] else IdealRun(setting, epochs[1..], plan.policy))
  }

  function WithoutRefits(log: seq<Event>): seq<Event> {
    if log == [] then []
    else
      var last := log[|log| - 1];
      WithoutRefits(log[..|log| - 1]) + (if last.Refit? then [] else [last])
  }

  lemma RecordEvent(log: seq<Event>, e: Event)
    ensures WithoutRefits(log + [e]) == WithoutRefits(log) + (if e.Refit? then [] else [e])
  {
    assert (log + [e])[..|log|] == log;
  }

  lemma RecordRefit(log: seq<Event>, policy: nat, scales: Option<nat>)
    ensures WithoutRefits(log + [Refit(policy, scales)]) == WithoutRefits(log)
  {
    RecordEvent(log, Refit(policy, scales));
    assert WithoutRefits(log) + [] == WithoutRefits(log);
  }

  /** Rollouts and validations use the current policy; a training batch merges only rollouts of
      the version it trains. */
  predicate UsesCurrent(e: Event) {
    match e
    case Refit(_, _) => true
    case Rollout(policy, generation) => generation == Some(policy)
    case Validate(policy, generation) => generation == Some(policy)
    case Train(policy, merged) => forall i | 0 <= i < |merged| :: merged[i] == Some(policy)
  }

  predicate AllCurrent(events: seq<Event>) {
    forall i | 0 <= i < |events| :: UsesCurrent(events[i])
  }

  lemma {:induction false} IdealEpochIsCurrent(setting: Setting, inputs: seq<Input>, policy: nat, waiting: nat)
    ensures AllCurrent(IdealEpoch(setting, inputs, policy, waiting).events)
    decreases |inputs|
  {
    if inputs != [] {
      IdealEpochIsCurrent(setting, inputs[1..], policy, waiting + 1);
      IdealEpochIsCurrent(setting, inputs[1..], policy + 1, 0);
    }
  }

  lemma {:induction false} IdealRunIsCurrent(setting: Setting, epochs: seq<seq<Input>>, policy: nat)
    ensures AllCurrent(IdealRun(setting, epochs, policy))
    decreases |epochs|
  {
    hide IdealEpoch;
    if epochs != [] {
      IdealEpochIsCurrent(setting, epochs[0], policy, 0);
      IdealRunIsCurrent(setting, epochs[1..], IdealEpoch(setting, epochs[0], policy, 0).policy);
    }
  }

  /** Refits are the only events left out, so nothing else can hide in the full log. */
  lemma {:induction false} CurrentWithRefits(log: seq<Event>)
    requires AllCurrent(WithoutRefits(log))
    ensures AllCurrent(log)
  {
    if log != [] {
      var init, last := log[..|log| - 1], log[|log| - 1];
      var kept := WithoutRefits(init);
      assert WithoutRefits(log)[..|kept|] == kept;
      CurrentWithRefits(init);
      assert UsesCurrent(last) by {
        if !last.Refit? {
          assert WithoutRefits(log)[|kept|] == last;
        }
      }
      assert forall i | 0 <= i < |init| :: log[i] == init[i];
    }
  }

  // ---------------------------------------------------------------- refits

  /** KV scales given to a refit were calibrated on the version being refitted. */
  predicate ScalesMatch(log: seq<Event>) {
    forall i | 0 <= i < |log| && log[i].Refit? :: log[i].scales.Some? ==> log[i].scales.value == log[i].policy
  }

  /** With KV scales to sync, every refit but the one before an initial validation, if there is one, is given
      those of the version refitted; without, none is given any. */
  predicate ScalesGiven(setting: Setting, log: seq<Event>) {
    forall i | 0 <= i < |log| && log[i].Refit? ::
      log[i].scales == if setting.syncKvScales && !(setting.validateFirst && i == 0) then Some(log[i].policy) else None
  }

  /** Refits follow the training order and never repeat a version. */
  predicate RefitsIncrease(log: seq<Event>) {
    forall i, j | 0 <= i < j < |log| && log[i].Refit? && log[j].Refit? :: log[i].policy < log[j].policy
  }

  predicate RefitsBelow(log: seq<Event>, bound: int) {
    forall i | 0 <= i < |log| && log[i].Refit? :: log[i].policy < bound
  }

  predicate NoRefits(log: seq<Event>) {
    forall i | 0 <= i < |log| :: !log[i].Refit?
  }

  /** The version generation uses. */
  function Held(setting: Setting, generation: Option<nat>, policy: nat): Option<nat> {
    if setting.needRefit then generation else Some(policy)
  }

  /** What the loop carries from batch to batch. */
  datatype State = State(policy: nat, generation: Option<nat>, stale: bool, kvScales: Option<nat>)

  /** The run invariant: unless flagged stale, generation holds the current policy, and cached KV
      scales belong to it. */
  predicate Consistent(setting: Setting, log: seq<Event>, s: State) {
    && ScalesMatch(log) && ScalesGiven(setting, log) && RefitsIncrease(log)
    && RefitsBelow(log, if s.stale then s.policy else s.policy + 1)
    && (!setting.needRefit ==> NoRefits(log))
    && (setting.needRefit && !s.stale ==> s.generation == Some(s.policy))
    && (s.kvScales.Some? ==> setting.syncKvScales && s.kvScales.value == s.policy && Started(setting, log))
    && (setting.needRefit && setting.syncKvScales && s.stale && s.kvScales.None? ==> log == [])
  }

  /** The initial validation, if there is one, is over. */
  predicate Started(setting: Setting, log: seq<Event>) {
    setting.validateFirst ==> log != []
  }

  // ------------------------------------------------------------------ loop

  /** Before generation is used: refit it if it is stale, handing over the KV scales if there are
      any; `calibrate` computes missing ones first. */
  method Prepare(setting: Setting, log: seq<Event>, s: State, calibrate: bool) returns (log': seq<Event>, s': State)
    requires Consistent(setting, log, s) && if calibrate then Started(setting, log) else setting.validateFirst || log != []
    ensures Consistent(setting, log', s') && s'.policy == s.policy && (setting.needRefit ==> !s'.stale)
    ensures log <= log'
    ensures Held(setting, s'.generation, s'.policy) == Some(s.policy)
    ensures WithoutRefits(log') == WithoutRefits(log)
  {
    hide WithoutRefits;
    log', s' := log, s;
    if setting.needRefit && s'.stale {
      if calibrate && setting.syncKvScales && s'.kvScales.None? {
        s' := s'.(kvScales := Some(s'.policy));
      }
      var scales := if setting.syncKvScales then s'.kvScales else None;
      RecordRefit(log, s'.policy, scales);
      log' := log + [Refit(s'.policy, scales)];
      s' := s'.(generation := Some(s'.policy), stale := false);
    }
  }

  /** One rollout, on whatever version generation really holds. */
  method Generate(setting: Setting, log: seq<Event>, s: State)
    returns (log': seq<Event>, s': State, generation: Option<nat>)
    requires Consistent(setting, log, s) && Started(setting, log)
    ensures Consistent(setting, log', s') && Started(setting, log') && log' != []
    ensures s'.policy == s.policy && generation == Some(s.policy)
    ensures WithoutRefits(log') == WithoutRefits(log) + [Rollout(s.policy, Some(s.policy))]
  {
    hide WithoutRefits;
    log', s' := Prepare(setting, log, s, true);
    generation := Held(setting, s'.generation, s'.policy);
    RecordEvent(log', Rollout(s'.policy, generation));
    log' := log' + [Rollout(s'.policy, generation)];
  }

  method DoValidation(setting: Setting, log: seq<Event>, s: State) returns (log': seq<Event>, s': State)
    requires Consistent(setting, log, s) && (setting.validateFirst || log != [])
    ensures Consistent(setting, log', s') && s'.policy == s.policy && Started(setting, log') && log' != []
    ensures WithoutRefits(log') == WithoutRefits(log) + [Validate(s.policy, Some(s.policy))]
  {
    hide WithoutRefits;
    log', s' := Prepare(setting, log, s, false);
    var used := Validate(s'.policy, Held(setting, s'.generation, s'.policy));
    RecordEvent(log', used);
    log' := log' + [used];
  }

  /** Training makes a new version, leaves generation behind, and recalibrates the scales. */
  method TrainPolicy(setting: Setting, log: seq<Event>, s: State, merged: seq<Option<nat>>)
    returns (log': seq<Event>, s': State)
    requires Consistent(setting, log, s) && Started(setting, log)
    ensures Consistent(setting, log', s') && s'.policy == s.policy + 1 && Started(setting, log') && log' != []
    ensures WithoutRefits(log') == WithoutRefits(log) + [Train(s.policy, merged)]
  {
    hide WithoutRefits;
    RecordEvent(log, Train(s.policy, merged));
    log' := log + [Train(s.policy, merged)];
    s' := State(s.policy + 1, s.generation, true, s.kvScales);
    if setting.syncKvScales {
      s' := s'.(kvScales := Some(s'.policy), stale := true);
    }
  }

  /** The whole run from a policy version, as the list of events that touch weights. Apart from
      its refits it is the ideal run, so nothing ever uses stale weights; refits happen only when
      they are needed, once per version, with the KV scales of that version. */
  method Run(setting: Setting, firstVersion: nat, epochs: seq<seq<Input>>) returns (log: seq<Event>)
    ensures WithoutRefits(log)
      == (if setting.validateFirst then [Validate(firstVersion, Some(firstVersion))] else [])
         + IdealRun(setting, epochs, firstVersion)
    ensures AllCurrent(log)
    ensures ScalesMatch(log) && RefitsIncrease(log) && (!setting.needRefit ==> NoRefits(log))
    ensures ScalesGiven(setting, log)
  {
    hide *;
    var s := State(firstVersion, None, true, None);
    log := [];
    StartsConsistent(setting, s);
    if setting.validateFirst {
      log, s := DoValidation(setting, log, s);
    } else {
      NothingToStart(setting, log);
    }
    ghost var start := RunAll(setting, epochs, firstVersion, WithoutRefits(log));
    var epoch := 0;
    while epoch < |epochs|
      invariant 0 <= epoch <= |epochs|
      invariant Consistent(setting, log, s) && Started(setting, log)
      invariant RunRest(setting, epochs, epoch, WithoutRefits(log), s.policy, start)
    {
      RunStep(setting, epochs, epoch, s.policy, WithoutRefits(log), start);
      var stopped;
      log, s, stopped := RunEpoch(setting, epochs[epoch], log, s);
      if stopped {
        ConsistentMeans(setting, log, s);
        RunIsCurrent(setting, epochs, firstVersion, log);
        return;
      }
      epoch := epoch + 1;
    }
    RunDone(setting, epochs, WithoutRefits(log), s.policy, start);
    ConsistentMeans(setting, log, s);
    RunIsCurrent(setting, epochs, firstVersion, log);
  }

  lemma RunIsCurrent(setting: Setting, epochs: seq<seq<Input>>, firstVersion: nat, log: seq<Event>)
    requires WithoutRefits(log)
      == (if setting.validateFirst then [Validate(firstVersion, Some(firstVersion))] else [])
         + IdealRun(setting, epochs, firstVersion)
    ensures AllCurrent(log)
  {
    hide WithoutRefits, IdealRun;
    IdealRunIsCurrent(setting, epochs, firstVersion);
    CurrentWithRefits(log);
  }

  /** What was done, continued with the ideal run from `epoch` on, is the whole. */
  ghost predicate RunRest(setting: Setting, epochs: seq<seq<Input>>, epoch: nat, done: seq<Event>, policy: nat, whole: seq<Event>)
    requires epoch <= |epochs|
  {
    done + IdealRun(setting, epochs[epoch..], policy) == whole
  }

  lemma RunAll(setting: Setting, epochs: seq<seq<Input>>, policy: nat, done: seq<Event>) returns (whole: seq<Event>)
    ensures RunRest(setting, epochs, 0, done, policy, whole) && whole == done + IdealRun(setting, epochs, policy)
  {
    assert epochs[0..] == epochs;
    whole := done + IdealRun(setting, epochs, policy);
  }

  lemma RunDone(setting: Setting, epochs: seq<seq<Input>>, done: seq<Event>, policy: nat, whole: seq<Event>)
    requires RunRest(setting, epochs, |epochs|, done, policy, whole)
    ensures whole == done
  {
    assert epochs[|epochs|..] == [];
    assert done + [] == done;
  }

  lemma RunStep(setting: Setting, epochs: seq<seq<Input>>, epoch: nat, policy: nat, done: seq<Event>, whole: seq<Event>)
    requires epoch < |epochs| && RunRest(setting, epochs, epoch, done, policy, whole)
    ensures var plan := IdealEpoch(setting, epochs[epoch], policy, 0);
      if plan.stopped then done + plan.events == whole
      else RunRest(setting, epochs, epoch + 1, done + plan.events, plan.policy, whole)
  {
    hide IdealEpoch;
    var rest := epochs[epoch..];
    var plan := IdealEpoch(setting, epochs[epoch], policy, 0);
    assert rest[0] == epochs[epoch] && rest[1..] == epochs[epoch + 1..];
    Associate(done, plan.events, IdealRun(setting, epochs[epoch + 1..], plan.policy));
    assert plan.events + [] == plan.events;
  }

  lemma StartsConsistent(setting: Setting, s: State)
    requires s.stale && s.kvScales.None?
    ensures Consistent(setting, [], s) && WithoutRefits([]) == []
  {}

  lemma NothingToStart(setting: Setting, log: seq<Event>)
    requires !setting.validateFirst
    ensures Started(setting, log)
  {}

  lemma ConsistentMeans(setting: Setting, log: seq<Event>, s: State)
    requires Consistent(setting, log, s)
    ensures ScalesMatch(log) && RefitsIncrease(log) && (!setting.needRefit ==> NoRefits(log)) && ScalesGiven(setting, log)
  {}

  lemma Associate(a: seq<Event>, b: seq<Event>, c: seq<Event>)
    ensures (a + b) + c == a + (b + c)
  {}

  /** One epoch of the loop; what dynamic sampling still had pending is dropped at its end. */
  method RunEpoch(setting: Setting, inputs: seq<Input>, logIn: seq<Event>, start: State)
    returns (log: seq<Event>, s: State, stopped: bool)
    requires Consistent(setting, logIn, start) && Started(setting, logIn)
    ensures Consistent(setting, log, s) && Started(setting, log)
    ensures var plan := IdealEpoch(setting, inputs, start.policy, 0);
      WithoutRefits(log) == WithoutRefits(logIn) + plan.events && s.policy == plan.policy && stopped == plan.stopped
  {
    hide *;
    log, s, stopped := logIn, start, false;
    var pending: seq<Option<nat>> := [];
    ghost var plan := RestAll(setting, inputs, start.policy, WithoutRefits(log));
    RepeatNone(s.policy);
    var b := 0;
    while b < |inputs|
      invariant 0 <= b <= |inputs|
      invariant Consistent(setting, log, s) && Started(setting, log)
      invariant pending == Repeat(s.policy, |pending|)
      invariant Rest(setting, inputs, b, WithoutRefits(log), s.policy, |pending|, plan)
    {
      IdealStep(setting, inputs, b, WithoutRefits(log), s.policy, |pending|, plan);
      RepeatNext(s.policy, pending);
      var generation;
      log, s, generation := Generate(setting, log, s);
      pending := pending + [generation];
      if setting.dynamicSampling && !inputs[b].complete {
        b := b + 1;
        continue;
      }
      log, s := TrainPolicy(setting, log, s, pending);
      pending := [];
      RepeatNone(s.policy);
      if inputs[b].validates {
        log, s := DoValidation(setting, log, s);
      }
      if inputs[b].stops {
        stopped := true;
        return;
      }
      b := b + 1;
    }
    RestDone(setting, inputs, WithoutRefits(log), s.policy, |pending|, plan);
  }

  lemma RepeatNext(policy: nat, pending: seq<Option<nat>>)
    requires pending == Repeat(policy, |pending|)
    ensures pending + [Some(policy)] == Repeat(policy, |pending| + 1)
  {}

  lemma RepeatNone(policy: nat)
    ensures Repeat(policy, 0) == []
  {}

  /** What was done, continued with the ideal epoch from input `b` on, is the plan. */
  ghost predicate Rest(setting: Setting, inputs: seq<Input>, b: nat, done: seq<Event>, policy: nat, waiting: nat, plan: Plan)
    requires b <= |inputs|
  {
    After(done, IdealEpoch(setting, inputs[b..], policy, waiting)) == plan
  }

  lemma RestAll(setting: Setting, inputs: seq<Input>, policy: nat, done: seq<Event>) returns (plan: Plan)
    ensures Rest(setting, inputs, 0, done, policy, 0, plan)
    ensures plan == IdealEpoch(setting, inputs, policy, 0).(events := done + IdealEpoch(setting, inputs, policy, 0).events)
  {
    plan := After(done, IdealEpoch(setting, inputs, policy, 0));
    assert inputs[0..] == inputs;
  }

  lemma RestDone(setting: Setting, inputs: seq<Input>, done: seq<Event>, policy: nat, waiting: nat, plan: Plan)
    requires Rest(setting, inputs, |inputs|, done, policy, waiting, plan)
    ensures plan == Plan(done, policy, false)
  {
    assert inputs[|inputs|..] == [];
    assert done + [] == done;
  }

  /** What one input contributes to the ideal epoch, event by event. */
  lemma IdealStep(setting: Setting, inputs: seq<Input>, b: nat, done: seq<Event>, policy: nat, waiting: nat, plan: Plan)
    requires b < |inputs| && Rest(setting, inputs, b, done, policy, waiting, plan)
    ensures var generated := done + [Rollout(policy, Some(policy))];
      var trained := generated + [Train(policy, Repeat(policy, waiting + 1))];
      var validated := if inputs[b].validates then trained + [Validate(policy + 1, Some(policy + 1))] else trained;
      if setting.dynamicSampling && !inputs[b].complete then
        Rest(setting, inputs, b + 1, generated, policy, waiting + 1, plan)
      else if inputs[b].stops then plan == Plan(validated, policy + 1, true)
      else Rest(setting, inputs, b + 1, validated, policy + 1, 0, plan)
  {
    var rest := inputs[b..];
    assert rest[0] == inputs[b] && rest[1..] == inputs[b + 1..];
    var rollout := Rollout(policy, Some(policy));
    var trained := Train(policy, Repeat(policy, waiting + 1));
    var validated := if inputs[b].validates then [Validate(policy + 1, Some(policy + 1))] else [];
    var step := [rollout] + [trained] + validated;
    Associate(done, [rollout], IdealEpoch(setting, inputs[b + 1..], policy, waiting + 1).events);
    Associate(done, step, IdealEpoch(setting, inputs[b + 1..], policy + 1, 0).events);
    assert done + step == done + [rollout] + [trained] + validated;
    assert done + [rollout] + [trained] + [] == done + [rollout] + [trained];
  }
}
