/** Sampling from several dataloaders that start over when they are exhausted. */
module CyclicSampler {
  import opened Arithmetic
  import opened Wrappers

  type Task = string
  type Prompt = nat
  type Batch = seq<Prompt>

  /** Merging the drawn batches in order, or the exception raised on the way. */
  datatype Outcome = Merged(batches: seq<Batch>) | StopIteration | KeyError | IndexError

  // ----------------------------------------------------------- specification

  /** The first `n` batches of a loader repeated for ever. */
  function Cycle(loader: seq<Batch>, n: nat): (batches: seq<Batch>)
    requires loader != []
    ensures |batches| == n
  {
    seq(n, i requires 0 <= i < n => loader[i % |loader|])
  }

  /** Where an iterator stands after `n` batches; one past the end it still waits to be reset. */
  function Cursor(length: nat, n: nat): nat
    requires length > 0
  {
    if n == 0 then 0 else (n - 1) % length + 1
  }

  lemma CursorNext(length: nat, n: nat)
    requires length > 0
    ensures Cursor(length, n) <= length
    ensures Cursor(length, n) < length ==> Cursor(length, n) == n % length && Cursor(length, n + 1) == Cursor(length, n) + 1
    ensures Cursor(length, n) == length ==> n % length == 0 && Cursor(length, n + 1) == 1
  {
    if n == 0 {
      DivMod(0, 0, length);
    } else {
      Successor(n - 1, length);
    }
  }

  /** An iterator's position and what it has given so far. */
  predicate Consistent(loader: seq<Batch>, position: nat, history: seq<Batch>) {
    if loader == [] then position == 0 && history == []
    else position == Cursor(|loader|, |history|) && history == Cycle(loader, |history|)
  }

  /** The batch a loader gives after `n` others. */
  function Following(loader: seq<Batch>, n: nat): Batch
    requires loader != []
  {
    loader[n % |loader|]
  }

  lemma ConsistentNext(loader: seq<Batch>, position: nat, history: seq<Batch>)
    requires Consistent(loader, position, history)
    ensures loader == [] ==> position == 0
    ensures loader != [] && position < |loader| ==>
      loader[position] == Following(loader, |history|) && Consistent(loader, position + 1, history + [loader[position]])
    ensures loader != [] && position >= |loader| ==>
      loader[0] == Following(loader, |history|) && Consistent(loader, 1, history + [loader[0]])
  {
    if loader != [] {
      var n := |history|;
      CursorNext(|loader|, n);
      assert Cycle(loader, n + 1) == Cycle(loader, n) + [Following(loader, n)];
    }
  }

  /** How many of the first `n` draws fall on slot `slot` of `m`. */
  function DrawsOn(m: nat, slot: nat, n: nat): nat
    requires m > 0
  {
    if n == 0 then 0 else DrawsOn(m, slot, n - 1) + (if (n - 1) % m == slot then 1 else 0)
  }

  function Prompts(batches: seq<Batch>): nat {
    if batches == [] then 0 else Prompts(batches[..|batches| - 1]) + |batches[|batches| - 1]|
  }

  /** The shortest run of draws that reaches the expected number of prompts. */
  predicate JustEnough(batches: seq<Batch>, expected: nat) {
    && Prompts(batches) >= expected
    && (batches != [] ==> Prompts(batches[..|batches| - 1]) < expected)
  }

  predicate NoEmptyBatch(loaders: map<Task, seq<Batch>>) {
    forall task | task in loaders :: forall i | 0 <= i < |loaders[task]| :: loaders[task][i] != []
  }

  /** The dictionary's keys, each once, in order. */
  predicate Lists(tasks: seq<Task>, loaders: map<Task, seq<Batch>>) {
    && (forall i | 0 <= i < |tasks| :: tasks[i] in loaders)
    && (forall task | task in loaders :: task in tasks)
    && (forall i, j | 0 <= i < j < |tasks| :: tasks[i] != tasks[j])
  }

  predicate AllConsistent(loaders: map<Task, seq<Batch>>, iterators: map<Task, nat>, drawn: map<Task, seq<Batch>>) {
    && iterators.Keys == drawn.Keys == loaders.Keys
    && forall task | task in loaders :: Consistent(loaders[task], iterators[task], drawn[task])
  }

  lemma Advance(loaders: map<Task, seq<Batch>>, iterators: map<Task, nat>, drawn: map<Task, seq<Batch>>,
                task: Task, position: nat, batch: Batch)
    requires AllConsistent(loaders, iterators, drawn) && task in loaders
    requires Consistent(loaders[task], position, drawn[task] + [batch])
    ensures AllConsistent(loaders, iterators[task := position], drawn[task := drawn[task] + [batch]])
  {
    hide Consistent;
  }

  /** One more batch was drawn from `task`, the one that follows in its repeated dataloader. */
  predicate Gave(loaders: map<Task, seq<Batch>>, before: map<Task, seq<Batch>>, after: map<Task, seq<Batch>>, task: Task, batch: Batch) {
    && task in loaders && task in before && task in after && loaders[task] != []
    && batch == Following(loaders[task], |before[task]|)
    && after[task] == before[task] + [batch]
  }

  predicate EachGave(tasks: seq<Task>, loaders: map<Task, seq<Batch>>, before: map<Task, seq<Batch>>,
                     after: map<Task, seq<Batch>>, r: Outcome) {
    && r.Merged? && |r.batches| == |tasks|
    && forall i | 0 <= i < |tasks| :: Gave(loaders, before, after, tasks[i], r.batches[i])
  }

  /** The draws that fell on `task`, going round the chosen tasks. */
  function GivenBy(chosen: seq<Task>, task: Task, batches: seq<Batch>): (given: seq<Batch>)
    requires chosen != []
  {
    if batches == [] then []
    else
      var n := |batches| - 1;
      GivenBy(chosen, task, batches[..n]) + (if chosen[n % |chosen|] == task then [batches[n]] else [])
  }

  predicate AllGiven(chosen: seq<Task>, before: map<Task, seq<Batch>>, after: map<Task, seq<Batch>>, batches: seq<Batch>)
    requires chosen != []
  {
    && after.Keys == before.Keys
    && forall task | task in before :: after[task] == before[task] + GivenBy(chosen, task, batches)
  }

  lemma NothingGiven(chosen: seq<Task>, before: map<Task, seq<Batch>>)
    requires chosen != []
    ensures AllGiven(chosen, before, before, [])
  {
    assert forall task | task in before :: before[task] + [] == before[task];
  }

  lemma OneGiven(chosen: seq<Task>, before: map<Task, seq<Batch>>, after: map<Task, seq<Batch>>, batches: seq<Batch>, batch: Batch)
    requires chosen != [] && AllGiven(chosen, before, after, batches) && chosen[|batches| % |chosen|] in after
    ensures var task := chosen[|batches| % |chosen|];
      AllGiven(chosen, before, after[task := after[task] + [batch]], batches + [batch])
  {
    var task := chosen[|batches| % |chosen|];
    var after' := after[task := after[task] + [batch]];
    forall other | other in before
      ensures after'[other] == before[other] + GivenBy(chosen, other, batches + [batch])
    {
      assert (batches + [batch])[..|batches|] == batches;
      var given := GivenBy(chosen, other, batches);
      assert before[other] + (given + [batch]) == before[other] + given + [batch];
      assert given + [] == given;
    }
  }

  predicate Ready(loaders: map<Task, seq<Batch>>, task: Task) {
    task in loaders && loaders[task] != []
  }

  /** The first `n` draws find a dataloader with batches. */
  predicate ReadyUpTo(loaders: map<Task, seq<Batch>>, chosen: seq<Task>, n: nat)
    requires chosen != []
  {
    forall i: nat | i < n :: ReadyAt(loaders, chosen, i)
  }

  predicate ReadyAt(loaders: map<Task, seq<Batch>>, chosen: seq<Task>, i: nat)
    requires chosen != []
  {
    Ready(loaders, chosen[i % |chosen|])
  }

  /** The first `n` draws: each the batch that follows what its task has given so far. */
  function Draws(loaders: map<Task, seq<Batch>>, before: map<Task, seq<Batch>>, chosen: seq<Task>, n: nat): (batches: seq<Batch>)
    requires chosen != [] && before.Keys == loaders.Keys && ReadyUpTo(loaders, chosen, n)
    ensures |batches| == n
  {
    if n == 0 then []
    else
      var earlier := Draws(loaders, before, chosen, n - 1);
      assert ReadyAt(loaders, chosen, n - 1);
      var task := chosen[(n - 1) % |chosen|];
      earlier + [Following(loaders[task], |before[task]| + |GivenBy(chosen, task, earlier)|)]
  }

  /** Draw `n` is the first bad one, and comes before there are enough prompts. */
  predicate FailsAt(loaders: map<Task, seq<Batch>>, before: map<Task, seq<Batch>>, chosen: seq<Task>, expected: nat, n: nat)
    requires chosen != [] && before.Keys == loaders.Keys
  {
    ReadyUpTo(loaders, chosen, n) && !ReadyAt(loaders, chosen, n) && Prompts(Draws(loaders, before, chosen, n)) < expected
  }

  lemma FailsOnce(loaders: map<Task, seq<Batch>>, before: map<Task, seq<Batch>>, chosen: seq<Task>, expected: nat, n: nat, k: nat)
    requires chosen != [] && before.Keys == loaders.Keys && FailsAt(loaders, before, chosen, expected, n)
    requires FailsAt(loaders, before, chosen, expected, k)
    ensures n == k
  {
    hide Draws, Prompts, ReadyAt;
  }

  lemma {:induction false} DrawsGrow(loaders: map<Task, seq<Batch>>, before: map<Task, seq<Batch>>, chosen: seq<Task>, k: nat, n: nat)
    requires chosen != [] && before.Keys == loaders.Keys && ReadyUpTo(loaders, chosen, n) && k <= n
    ensures Prompts(Draws(loaders, before, chosen, k)) <= Prompts(Draws(loaders, before, chosen, n))
    decreases n - k
  {
    if k < n {
      assert ReadyAt(loaders, chosen, n - 1);
      DrawsGrow(loaders, before, chosen, k, n - 1);
      var task := chosen[(n - 1) % |chosen|];
      var earlier := Draws(loaders, before, chosen, n - 1);
      hide Prompts, ReadyAt;
      PromptsNext(earlier, Following(loaders[task], |before[task]| + |GivenBy(chosen, task, earlier)|));
    }
  }

  /** Enough prompts from ready tasks: no failure. */
  lemma EnoughNeverFails(loaders: map<Task, seq<Batch>>, before: map<Task, seq<Batch>>, chosen: seq<Task>, expected: nat, k: nat)
    requires chosen != [] && before.Keys == loaders.Keys && ReadyUpTo(loaders, chosen, k)
    requires Prompts(Draws(loaders, before, chosen, k)) >= expected
    ensures forall n: nat :: !FailsAt(loaders, before, chosen, expected, n)
  {
    forall n: nat
      ensures !FailsAt(loaders, before, chosen, expected, n)
    {
      if ReadyUpTo(loaders, chosen, n) && n >= k {
        DrawsGrow(loaders, before, chosen, k, n);
      }
    }
  }

  lemma DrawsNext(loaders: map<Task, seq<Batch>>, before: map<Task, seq<Batch>>, after: map<Task, seq<Batch>>, chosen: seq<Task>, n: nat)
    requires chosen != [] && before.Keys == loaders.Keys && ReadyUpTo(loaders, chosen, n) && ReadyAt(loaders, chosen, n)
    requires AllGiven(chosen, before, after, Draws(loaders, before, chosen, n))
    ensures ReadyUpTo(loaders, chosen, n + 1)
    ensures var task := chosen[n % |chosen|];
      && task in loaders && loaders[task] != [] && task in after
      && Draws(loaders, before, chosen, n + 1) == Draws(loaders, before, chosen, n) + [Following(loaders[task], |after[task]|)]
  {
    hide GivenBy, Following;
  }

  /** The exceptions of the chosen-task loop, by the first bad draw. */
  ghost predicate RaisesAsDrawn(loaders: map<Task, seq<Batch>>, before: map<Task, seq<Batch>>, chosen: seq<Task>, expected: nat, r: Outcome)
    requires chosen != [] && before.Keys == loaders.Keys
  {
    && (r == KeyError <==> exists n: nat :: FailsAt(loaders, before, chosen, expected, n) && chosen[n % |chosen|] !in loaders)
    && (r == StopIteration <==> exists n: nat :: FailsAt(loaders, before, chosen, expected, n) && chosen[n % |chosen|] in loaders)
  }

  lemma RaisedAt(loaders: map<Task, seq<Batch>>, before: map<Task, seq<Batch>>, chosen: seq<Task>, expected: nat, n: nat, r: Outcome)
    requires chosen != [] && before.Keys == loaders.Keys && FailsAt(loaders, before, chosen, expected, n)
    requires r == if chosen[n % |chosen|] in loaders then StopIteration else KeyError
    ensures RaisesAsDrawn(loaders, before, chosen, expected, r)
  {
    forall k: nat | FailsAt(loaders, before, chosen, expected, k)
      ensures k == n
    {
      FailsOnce(loaders, before, chosen, expected, n, k);
    }
    hide FailsAt;
  }

  lemma PromptsNext(batches: seq<Batch>, batch: Batch)
    ensures Prompts(batches + [batch]) == Prompts(batches) + |batch|
    ensures (batches + [batch])[..|batches|] == batches
  {
    assert (batches + [batch])[..|batches|] == batches;
  }

  lemma NextSlot(m: nat, n: nat)
    requires m > 0
    ensures (n % m + 1) % m == (n + 1) % m
  {
    Successor(n, m);
    if n % m + 1 < m {
      DivMod(0, n % m + 1, m);
    } else {
      DivMod(1, 0, m);
    }
  }

  lemma FollowingNotEmpty(loaders: map<Task, seq<Batch>>, task: Task, n: nat)
    requires NoEmptyBatch(loaders) && task in loaders && loaders[task] != []
    ensures Following(loaders[task], n) != []
  {}

  // ---------------------------------------------------------------- samplers

  /** The iterators over a fixed set of dataloaders. `drawn` remembers what each task has given. */
  class Samplers {
    const tasks: seq<Task>
    const dataloaders: map<Task, seq<Batch>>
    var dataIterators: map<Task, nat>
    ghost var drawn: map<Task, seq<Batch>>

    /** Everything drawn so far from a task is a prefix of its repeated dataloader. */
    ghost predicate Valid()
      reads this
    {
      Lists(tasks, dataloaders) && AllConsistent(dataloaders, dataIterators, drawn)
    }

    constructor (tasks: seq<Task>, dataloaders: map<Task, seq<Batch>>)
      requires Lists(tasks, dataloaders)
      ensures Valid() && this.tasks == tasks && this.dataloaders == dataloaders
      ensures forall task | task in drawn :: drawn[task] == []
    {
      this.tasks, this.dataloaders := tasks, dataloaders;
      dataIterators := map task | task in dataloaders :: 0;
      drawn := map task | task in dataloaders :: [];
    }

    /** `next`, starting the dataloader over on `StopIteration`. */
    method Draw(task: Task) returns (batch: Option<Batch>)
      requires Valid() && task in dataloaders
      modifies this
      ensures Valid()
      ensures task in old(drawn) && drawn.Keys == old(drawn).Keys
      ensures batch.None? <==> dataloaders[task] == []
      ensures batch.None? ==> drawn == old(drawn)
      ensures batch.Some? ==>
        && batch.value == Following(dataloaders[task], |old(drawn[task])|)
        && drawn == old(drawn)[task := old(drawn[task]) + [batch.value]]
    {
      hide Consistent, Following, Lists;
      var loader := dataloaders[task];
      ConsistentNext(loader, dataIterators[task], drawn[task]);
      var position := dataIterators[task];
      if position >= |loader| {
        position := 0;
        dataIterators := dataIterators[task := 0];
        if loader == [] { return None; }
      }
      batch := Some(loader[position]);
      Advance(dataloaders, old(dataIterators), drawn, task, position + 1, batch.value);
      dataIterators := dataIterators[task := position + 1];
      assert dataIterators == old(dataIterators)[task := position + 1];
      drawn := drawn[task := drawn[task] + [batch.value]];
    }

    /** One batch from every dataloader, in order. */
    method SampleEach() returns (r: Outcome)
      requires Valid()
      modifies this
      ensures Valid() && drawn.Keys == old(drawn).Keys
      ensures if forall i | 0 <= i < |tasks| :: dataloaders[tasks[i]] != []
              then EachGave(tasks, dataloaders, old(drawn), drawn, r) else r == StopIteration
    {
      hide AllConsistent, Consistent, Following;
      ghost var start := drawn;
      var result := [];
      DrawnKeys();
      for i := 0 to |tasks|
        invariant Valid() && drawn.Keys == start.Keys == dataloaders.Keys
        invariant |result| == i
        invariant forall j | 0 <= j < i :: Gave(dataloaders, start, drawn, tasks[j], result[j])
        invariant forall j | i <= j < |tasks| :: drawn[tasks[j]] == start[tasks[j]]
      {
        var batch := Draw(tasks[i]);
        if batch.None? { return StopIteration; }
        result := result + [batch.value];
      }
      r := Merged(result);
    }

    lemma DrawnKeys()
      requires Valid()
      ensures drawn.Keys == dataIterators.Keys == dataloaders.Keys
    {}

    /** Batches from the chosen tasks in turn, until there are enough prompts. */
    method SampleChosen(chosen: seq<Task>, expected: nat) returns (r: Outcome)
      requires Valid() && NoEmptyBatch(dataloaders)
      modifies this
      ensures Valid() && drawn.Keys == old(drawn).Keys == dataloaders.Keys
      ensures r == IndexError <==> chosen == [] && expected > 0
      ensures chosen != [] ==> RaisesAsDrawn(dataloaders, old(drawn), chosen, expected, r)
      ensures r.Merged? ==> JustEnough(r.batches, expected)
      ensures r.Merged? && chosen != [] ==> ReadyUpTo(dataloaders, chosen, |r.batches|)
      ensures r.Merged? && chosen != [] ==> r.batches == Draws(dataloaders, old(drawn), chosen, |r.batches|)
      ensures r.Merged? && chosen != [] ==> AllGiven(chosen, old(drawn), drawn, r.batches)
      ensures r.Merged? && chosen == [] ==> r.batches == [] && drawn == old(drawn)
    {
      hide AllConsistent, Consistent, Following, Lists, NoEmptyBatch, Prompts, AllGiven, Draws, ReadyUpTo, RaisesAsDrawn;
      DrawnKeys();
      ghost var start := drawn;
      var result: seq<Batch> := [];
      var currentTaskIdx, currentNumPrompts := 0, 0;
      NoPrompts();
      if chosen != [] {
        NothingGiven(chosen, start);
        NoDraws(dataloaders, start, chosen);
      }
      while currentNumPrompts < expected
        invariant Valid() && drawn.Keys == start.Keys == dataloaders.Keys
        invariant currentNumPrompts == Prompts(result)
        invariant result != [] ==> Prompts(result[..|result| - 1]) < expected
        invariant chosen == [] ==> result == [] && currentTaskIdx == 0 && drawn == start
        invariant chosen != [] ==> currentTaskIdx == |result| % |chosen| && AllGiven(chosen, start, drawn, result)
        invariant chosen != [] ==> ReadyUpTo(dataloaders, chosen, |result|)
        invariant chosen != [] ==> result == Draws(dataloaders, start, chosen, |result|)
        decreases expected - currentNumPrompts
      {
        if currentTaskIdx >= |chosen| { return IndexError; }
        var taskName := chosen[currentTaskIdx];
        DrawnKeys();
        if taskName !in dataIterators {
          RaisedAt(dataloaders, start, chosen, expected, |result|, KeyError);
          return KeyError;
        }
        ghost var drawnBefore := drawn;
        var data := Draw(taskName);
        if data.None? {
          RaisedAt(dataloaders, start, chosen, expected, |result|, StopIteration);
          return StopIteration;
        }
        FollowingNotEmpty(dataloaders, taskName, |drawnBefore[taskName]|);
        DrawsNext(dataloaders, start, drawnBefore, chosen, |result|);
        OneGiven(chosen, start, drawnBefore, result, data.value);
        PromptsNext(result, data.value);
        NextSlot(|chosen|, |result|);
        result := result + [data.value];
        currentNumPrompts := currentNumPrompts + |data.value|;
        currentTaskIdx := (currentTaskIdx + 1) % |chosen|;
      }
      r := Merged(result);
      if chosen != [] {
        EnoughNeverFails(dataloaders, start, chosen, expected, |result|);
        NothingRaised(dataloaders, start, chosen, expected, r);
      }
    }
  }

  lemma NothingRaised(loaders: map<Task, seq<Batch>>, before: map<Task, seq<Batch>>, chosen: seq<Task>, expected: nat, r: Outcome)
    requires chosen != [] && before.Keys == loaders.Keys && r.Merged?
    requires forall n: nat :: !FailsAt(loaders, before, chosen, expected, n)
    ensures RaisesAsDrawn(loaders, before, chosen, expected, r)
  {}

  lemma NoDraws(loaders: map<Task, seq<Batch>>, before: map<Task, seq<Batch>>, chosen: seq<Task>)
    requires chosen != [] && before.Keys == loaders.Keys
    ensures ReadyUpTo(loaders, chosen, 0) && Draws(loaders, before, chosen, 0) == []
  {}

  lemma NoPrompts()
    ensures Prompts([]) == 0
  {}

  // ---------------------------------------------------------------- theorems

  /** Draws per slot of a call, in closed form. */
  lemma {:induction false} DrawsOnSlot(m: nat, slot: nat, n: nat)
    requires slot < m
    ensures DrawsOn(m, slot, n) == n / m + (if slot < n % m then 1 else 0)
    decreases n
  {
    if n == 0 {
      DivMod(0, 0, m);
    } else {
      DrawsOnSlot(m, slot, n - 1);
      Successor(n - 1, m);
    }
  }

  /** The batches that a slot of the round drew. */
  function FromSlot(m: nat, slot: nat, batches: seq<Batch>): (from: seq<Batch>)
    requires m > 0
  {
    if batches == [] then []
    else
      var n := |batches| - 1;
      FromSlot(m, slot, batches[..n]) + (if n % m == slot then [batches[n]] else [])
  }

  lemma {:induction false} FromSlotCount(m: nat, slot: nat, batches: seq<Batch>)
    requires m > 0
    ensures |FromSlot(m, slot, batches)| == DrawsOn(m, slot, |batches|)
    decreases |batches|
  {
    if batches != [] {
      FromSlotCount(m, slot, batches[..|batches| - 1]);
    }
  }

  /** A call overshoots by less than its last batch, and any two slots of the round differ by at most one draw,
      whatever tasks they name. */
  lemma ChosenSlotsShareFairly(chosen: seq<Task>, batches: seq<Batch>, expected: nat, s: nat, t: nat)
    requires JustEnough(batches, expected) && s < |chosen| && t < |chosen|
    ensures batches != [] ==> Prompts(batches) < expected + |batches[|batches| - 1]|
    ensures |FromSlot(|chosen|, s, batches)| <= |FromSlot(|chosen|, t, batches)| + 1
  {
    FromSlotCount(|chosen|, s, batches);
    FromSlotCount(|chosen|, t, batches);
    DrawsOnSlot(|chosen|, s, |batches|);
    DrawsOnSlot(|chosen|, t, |batches|);
  }

  /** How often a list names a task. */
  function Multiplicity(chosen: seq<Task>, task: Task): nat {
    if chosen == [] then 0
    else Multiplicity(chosen[..|chosen| - 1], task) + (if chosen[|chosen| - 1] == task then 1 else 0)
  }

  lemma MultiplicityNext(chosen: seq<Task>, task: Task, r: nat)
    requires r < |chosen|
    ensures Multiplicity(chosen[..r + 1], task) == Multiplicity(chosen[..r], task) + (if chosen[r] == task then 1 else 0)
    ensures r + 1 == |chosen| ==> Multiplicity(chosen[..r + 1], task) == Multiplicity(chosen, task)
  {
    assert chosen[..r + 1][..r] == chosen[..r];
    assert r + 1 == |chosen| ==> chosen[..r + 1] == chosen;
  }

  /** A task's share of `n` draws: its multiplicity for each full round, and its multiplicity in the part
      of the round begun. */
  function Share(chosen: seq<Task>, task: Task, n: nat): nat
    requires chosen != []
  {
    FullRounds(Multiplicity(chosen, task), n / |chosen|) + Multiplicity(chosen[..n % |chosen|], task)
  }

  function FullRounds(k: nat, q: nat): nat {
    k * q
  }

  lemma FullRoundsNext(k: nat, q: nat)
    ensures FullRounds(k, 0) == 0 && FullRounds(k, q + 1) == FullRounds(k, q) + k
  {}

  lemma ShareNext(chosen: seq<Task>, task: Task, n: nat)
    requires chosen != []
    ensures Share(chosen, task, n + 1) == Share(chosen, task, n) + (if chosen[n % |chosen|] == task then 1 else 0)
  {
    Successor(n, |chosen|);
    MultiplicityNext(chosen, task, n % |chosen|);
    FullRoundsNext(Multiplicity(chosen, task), n / |chosen|);
    hide FullRounds;
    if n % |chosen| + 1 == |chosen| {
      assert chosen[..0] == [];
    }
  }

  lemma NoShare(chosen: seq<Task>, task: Task)
    requires chosen != []
    ensures Share(chosen, task, 0) == 0
  {
    DivMod(0, 0, |chosen|);
    assert chosen[..0] == [];
  }

  /** Every task gets its share, exactly, however often the list names it. */
  lemma {:induction false} TaskShare(chosen: seq<Task>, task: Task, batches: seq<Batch>)
    requires chosen != []
    ensures |GivenBy(chosen, task, batches)| == Share(chosen, task, |batches|)
    decreases |batches|
  {
    hide Share;
    if batches == [] {
      NoShare(chosen, task);
    } else {
      TaskShare(chosen, task, batches[..|batches| - 1]);
      ShareNext(chosen, task, |batches| - 1);
      GivenByNext(chosen, task, batches);
    }
  }

  lemma GivenByNext(chosen: seq<Task>, task: Task, batches: seq<Batch>)
    requires chosen != [] && batches != []
    ensures var n := |batches| - 1;
      |GivenBy(chosen, task, batches)| == |GivenBy(chosen, task, batches[..n])| + (if chosen[n % |chosen|] == task then 1 else 0)
  {}
}
