/** What the always-current run does with its batches: which of them are rolled out, trained and validated, and that
    a training batch merges every rollout since the one before. */
module EpochAccounts {
  import opened Wrappers
  import opened Freshness

  /** Every training batch merges all rollouts since the last one, of which there is at least one; `waiting` rollouts
      precede the events. */
  predicate MergesAll(events: seq<Event>, waiting: nat)
    decreases |events|
  {
    if events == [] then true
    else match events[0]
      case Rollout(_, _) => MergesAll(events[1..], waiting + 1)
      case Train(_, merged) => |merged| == waiting > 0 && MergesAll(events[1..], 0)
      case _ => MergesAll(events[1..], waiting)
  }

  function Rollouts(events: seq<Event>): nat {
    if events == [] then 0 else (if events[0].Rollout? then 1 else 0) + Rollouts(events[1..])
  }

  function Trains(events: seq<Event>): nat {
    if events == [] then 0 else (if events[0].Train? then 1 else 0) + Trains(events[1..])
  }

  function Validations(events: seq<Event>): nat {
    if events == [] then 0 else (if events[0].Validate? then 1 else 0) + Validations(events[1..])
  }

  /** Whether a generated batch leads to training. */
  predicate Completes(setting: Setting, input: Input) {
    !setting.dynamicSampling || input.complete
  }

  predicate Ends(setting: Setting, input: Input) {
    Completes(setting, input) && input.stops
  }

  /** How many batches are generated: up to the first one trained on that ends the run. */
  function Generated(setting: Setting, inputs: seq<Input>): (n: nat)
    ensures n <= |inputs|
    ensures forall i | 0 <= i < n - 1 :: !Ends(setting, inputs[i])
    ensures n < |inputs| ==> n > 0 && Ends(setting, inputs[n - 1])
  {
    if inputs == [] then 0
    else if Ends(setting, inputs[0]) then 1
    else 1 + Generated(setting, inputs[1..])
  }

  function Completing(setting: Setting, inputs: seq<Input>): nat {
    if inputs == [] then 0
    else Completing(setting, inputs[..|inputs| - 1]) + if Completes(setting, inputs[|inputs| - 1]) then 1 else 0
  }

  function Validating(setting: Setting, inputs: seq<Input>): nat {
    if inputs == [] then 0
    else
      var last := inputs[|inputs| - 1];
      Validating(setting, inputs[..|inputs| - 1]) + if Completes(setting, last) && last.validates then 1 else 0
  }

  lemma {:induction false} CountFromFront(setting: Setting, inputs: seq<Input>)
    requires inputs != []
    ensures Completing(setting, inputs) == (if Completes(setting, inputs[0]) then 1 else 0) + Completing(setting, inputs[1..])
    ensures Validating(setting, inputs)
         == (if Completes(setting, inputs[0]) && inputs[0].validates then 1 else 0) + Validating(setting, inputs[1..])
    decreases |inputs|
  {
    if |inputs| > 1 {
      var front := inputs[..|inputs| - 1];
      CountFromFront(setting, front);
      assert front[1..] == inputs[1..][..|inputs| - 2];
    }
  }

  /** The account of an epoch. */
  predicate Accounted(setting: Setting, inputs: seq<Input>, policy: nat, waiting: nat, plan: Plan) {
    var n := Generated(setting, inputs);
    && MergesAll(plan.events, waiting)
    && Rollouts(plan.events) == n
    && Trains(plan.events) == Completing(setting, inputs[..n])
    && Validations(plan.events) == Validating(setting, inputs[..n])
    && plan.policy == policy + Trains(plan.events)
    && (plan.stopped <==> n > 0 && Ends(setting, inputs[n - 1]))
  }

  /** An epoch, exactly: every batch up to the one that ends the run is rolled out, those that complete a step are
      trained on, each giving one new version, and of these the ones that ask for it are validated. */
  lemma {:induction false} EpochAccount(setting: Setting, inputs: seq<Input>, policy: nat, waiting: nat)
    ensures Accounted(setting, inputs, policy, waiting, IdealEpoch(setting, inputs, policy, waiting))
    decreases |inputs|
  {
    if inputs != [] {
      hide *;
      var input, rest := inputs[0], inputs[1..];
      if !Completes(setting, input) {
        EpochAccount(setting, rest, policy, waiting + 1);
        var later := IdealEpoch(setting, rest, policy, waiting + 1);
        RolloutFirst(policy, later.events, waiting);
        Waits(setting, inputs, policy, waiting, later);
      } else {
        var later := if input.stops then Plan([], policy + 1, true) else IdealEpoch(setting, rest, policy + 1, 0);
        if !input.stops {
          EpochAccount(setting, rest, policy + 1, 0);
        }
        StepFirst(policy, waiting, input.validates, later.events);
        StepEvents(setting, inputs, policy, waiting);
        Steps(setting, inputs, policy, waiting, later);
      }
    }
  }

  lemma Waits(setting: Setting, inputs: seq<Input>, policy: nat, waiting: nat, later: Plan)
    requires inputs != [] && !Completes(setting, inputs[0])
    requires later == IdealEpoch(setting, inputs[1..], policy, waiting + 1)
    requires Accounted(setting, inputs[1..], policy, waiting + 1, later)
    ensures Accounted(setting, inputs, policy, waiting, IdealEpoch(setting, inputs, policy, waiting))
  {
    assert IdealEpoch(setting, inputs, policy, waiting) == After([Rollout(policy, Some(policy))], later);
    CountedFrom(setting, inputs);
    RolloutFirst(policy, later.events, waiting);
    hide IdealEpoch, MergesAll, Rollouts, Trains, Validations, Completing, Validating, Generated;
  }

  lemma Steps(setting: Setting, inputs: seq<Input>, policy: nat, waiting: nat, later: Plan)
    requires inputs != [] && Completes(setting, inputs[0])
    requires if inputs[0].stops then later == Plan([], policy + 1, true) else Accounted(setting, inputs[1..], policy + 1, 0, later)
    ensures Accounted(setting, inputs, policy, waiting,
                      Plan(Stepped(policy, waiting, inputs[0].validates, later.events), later.policy, later.stopped))
  {
    CountedFrom(setting, inputs);
    StepFirst(policy, waiting, inputs[0].validates, later.events);
    NoEvents();
    hide Stepped, MergesAll, Rollouts, Trains, Validations, Completing, Validating, Generated;
  }

  lemma NoEvents()
    ensures MergesAll([], 0) && Rollouts([]) == Trains([]) == Validations([]) == 0
  {}

  /** The counts of the inputs used, by the first of them. */
  lemma CountedFrom(setting: Setting, inputs: seq<Input>)
    requires inputs != []
    ensures var n, m := Generated(setting, inputs), Generated(setting, inputs[1..]);
      var c := if Completes(setting, inputs[0]) then 1 else 0;
      var v := if Completes(setting, inputs[0]) && inputs[0].validates then 1 else 0;
      && (Ends(setting, inputs[0]) ==>
            n == 1 && Completing(setting, inputs[..n]) == c && Validating(setting, inputs[..n]) == v)
      && (!Ends(setting, inputs[0]) ==>
            && n == m + 1 && Completing(setting, inputs[..n]) == c + Completing(setting, inputs[1..][..m])
            && Validating(setting, inputs[..n]) == v + Validating(setting, inputs[1..][..m])
            && (m > 0 ==> inputs[n - 1] == inputs[1..][m - 1]))
  {
    var n := Generated(setting, inputs);
    assert inputs[..n][1..] == inputs[1..][..n - 1];
    CountFromFront(setting, inputs[..n]);
  }

  lemma RolloutFirst(policy: nat, rest: seq<Event>, waiting: nat)
    ensures var events := [Rollout(policy, Some(policy))] + rest;
      && (MergesAll(events, waiting) <==> MergesAll(rest, waiting + 1))
      && Rollouts(events) == 1 + Rollouts(rest) && Trains(events) == Trains(rest) && Validations(events) == Validations(rest)
  {
    assert ([Rollout(policy, Some(policy))] + rest)[1..] == rest;
  }

  /** The events of a trained step, and what follows. */
  function Stepped(policy: nat, waiting: nat, validates: bool, rest: seq<Event>): seq<Event> {
    [Rollout(policy, Some(policy))] + ([Train(policy, Repeat(policy, waiting + 1))]
      + ((if validates then [Validate(policy + 1, Some(policy + 1))] else []) + rest))
  }

  lemma StepFirst(policy: nat, waiting: nat, validates: bool, rest: seq<Event>)
    ensures var events := Stepped(policy, waiting, validates, rest);
      && (MergesAll(events, waiting) <==> MergesAll(rest, 0))
      && Rollouts(events) == 1 + Rollouts(rest) && Trains(events) == 1 + Trains(rest)
      && Validations(events) == (if validates then 1 else 0) + Validations(rest)
  {
    var validated := (if validates then [Validate(policy + 1, Some(policy + 1))] else []) + rest;
    assert validates ==> validated[1..] == rest;
    assert !validates ==> validated == rest;
    var trained := [Train(policy, Repeat(policy, waiting + 1))] + validated;
    assert trained[1..] == validated;
    RolloutFirst(policy, trained, waiting);
  }

  lemma StepEvents(setting: Setting, inputs: seq<Input>, policy: nat, waiting: nat)
    requires inputs != [] && Completes(setting, inputs[0])
    ensures var plan, later := IdealEpoch(setting, inputs, policy, waiting), IdealEpoch(setting, inputs[1..], policy + 1, 0);
      if inputs[0].stops then plan == Plan(Stepped(policy, waiting, inputs[0].validates, []), policy + 1, true)
      else plan == Plan(Stepped(policy, waiting, inputs[0].validates, later.events), later.policy, later.stopped)
  {
    var later := IdealEpoch(setting, inputs[1..], policy + 1, 0);
    var validated := if inputs[0].validates then [Validate(policy + 1, Some(policy + 1))] else [];
    assert [Rollout(policy, Some(policy))] + [Train(policy, Repeat(policy, waiting + 1))] + validated
        == Stepped(policy, waiting, inputs[0].validates, []);
    assert [Rollout(policy, Some(policy))] + [Train(policy, Repeat(policy, waiting + 1))] + validated + later.events
        == Stepped(policy, waiting, inputs[0].validates, later.events);
  }
}
