/** Message-level advantage penalties: spans of the advantage tensor are written in place, through
    views whose rows may share storage. */
module SpanPenalties {
  import opened Arithmetic
  import opened MessageMasks
  import opened Wrappers

  type Matrix = seq<seq<real>>

  predicate IsMatrix(values: Matrix, cols: nat) {
    forall i | 0 <= i < |values| :: |values[i]| == cols
  }

  lemma MatrixEqual(a: Matrix, b: Matrix)
    requires |a| == |b| && forall k | 0 <= k < |a| :: |a[k]| == |b[k]|
    requires forall k, t | 0 <= k < |a| && 0 <= t < |a[k]| :: a[k][t] == b[k][t]
    ensures a == b
  {
    forall k | 0 <= k < |a|
      ensures a[k] == b[k]
    {
      assert forall t | 0 <= t < |a[k]| :: a[k][t] == b[k][t];
    }
  }

  /** A two-dimensional view of an array. A stride of zero makes a row or a column share storage. */
  class Tensor {
    const storage: array<real>
    const rows: nat
    const cols: nat
    const rowStride: nat
    const colStride: nat

    constructor (storage: array<real>, rows: nat, cols: nat, rowStride: nat, colStride: nat)
      ensures this.storage == storage && this.rows == rows && this.cols == cols
      ensures this.rowStride == rowStride && this.colStride == colStride
    {
      this.storage, this.rows, this.cols, this.rowStride, this.colStride := storage, rows, cols, rowStride, colStride;
    }

    function Index(i: nat, t: nat): nat {
      i * rowStride + t * colStride
    }

    ghost predicate InBounds() {
      forall i: nat, t: nat | i < rows && t < cols :: Index(i, t) < storage.Length
    }

    /** No two positions share storage. */
    ghost predicate Unshared() {
      forall i: nat, t: nat, i': nat, t': nat | i < rows && t < cols && i' < rows && t' < cols ::
        Index(i, t) == Index(i', t') ==> i == i' && t == t'
    }

    function At(i: nat, t: nat): real
      requires InBounds() && i < rows && t < cols
      reads storage
    {
      storage[Index(i, t)]
    }

    ghost function Contents(): (values: Matrix)
      requires InBounds()
      reads storage
      ensures |values| == rows && IsMatrix(values, cols)
    {
      seq(rows, i requires 0 <= i < rows && InBounds() reads storage =>
        seq(cols, t requires 0 <= t < cols && InBounds() reads storage => At(i, t)))
    }

    /** A copy with storage of its own, one cell for each position. */
    method Clone() returns (copy: Tensor)
      requires InBounds()
      ensures fresh(copy) && fresh(copy.storage) && copy.rows == rows && copy.cols == cols
      ensures copy.InBounds() && copy.Unshared()
      ensures forall i: nat, t: nat | i < rows && t < cols :: copy.At(i, t) == At(i, t)
    {
      var cells := new real[rows * cols];
      copy := new Tensor(cells, rows, cols, cols, 1);
      DenseUnshared(copy);
      hide Index, InBounds, Unshared;
      for i := 0 to rows
        invariant forall k: nat, u: nat | k < i && u < cols :: copy.At(k, u) == At(k, u)
      {
        copy.CopyRow(this, i);
      }
    }

    method CopyRow(source: Tensor, i: nat)
      requires InBounds() && Unshared() && i < rows && source.storage != storage
      requires source.InBounds() && SameShape(this, source)
      modifies storage
      ensures forall k: nat, u: nat | k < rows && u < cols ::
        At(k, u) == if k == i then source.At(i, u) else old(At(k, u))
    {
      hide Index;
      for t := 0 to cols
        invariant forall k: nat, u: nat | k < rows && u < cols ::
          At(k, u) == if k == i && u < t then source.At(i, u) else old(At(k, u))
      {
        storage[Index(i, t)] := source.storage[source.Index(i, t)];
      }
    }

    /** Rewrites positions `from..to` of a row, cell by cell. */
    method UpdateSpan(i: nat, from: nat, to: nat, f: real -> real)
      requires InBounds() && Unshared() && i < rows && from <= to <= cols
      modifies storage
      ensures forall k: nat, t: nat | k < rows && t < cols ::
        At(k, t) == if k == i && from <= t < to then f(old(At(k, t))) else old(At(k, t))
    {
      hide Index;
      for t := from to to
        invariant forall k: nat, u: nat | k < rows && u < cols ::
          At(k, u) == if k == i && from <= u < t then f(old(At(k, u))) else old(At(k, u))
      {
        storage[Index(i, t)] := f(storage[Index(i, t)]);
      }
    }
  }

  lemma DenseUnshared(x: Tensor)
    requires x.rowStride == x.cols && x.colStride == 1 && x.storage.Length == x.rows * x.cols
    ensures x.InBounds() && x.Unshared()
  {
    forall i: nat, t: nat | i < x.rows && t < x.cols
      ensures x.Index(i, t) < x.storage.Length
    {
      LastPlace(x.cols, x.rows, i, t);
    }
    forall i: nat, t: nat, i': nat, t': nat | i < x.rows && t < x.cols && i' < x.rows && t' < x.cols && x.Index(i, t) == x.Index(i', t')
      ensures i == i' && t == t'
    {
      QuotientUnique(i, t, i', t', x.cols);
    }
  }

  predicate SameShape(x: Tensor, y: Tensor) {
    x.rows == y.rows && x.cols == y.cols
  }

  // ----------------------------------------------------------- specification

  function Min(x: real, y: real): real {
    if x < y then x else y
  }

  predicate IsInvalid(m: Fields, invalid: Option<real>) {
    Generated(m) && invalid.Some? && m.isInvalidToolCall
  }

  predicate IsMalformed(m: Fields, malformed: Option<real>) {
    Generated(m) && malformed.Some? && m.hasMalformedThinking
  }

  predicate IsFlagged(m: Fields, invalid: Option<real>, malformed: Option<real>) {
    IsInvalid(m, invalid) || IsMalformed(m, malformed)
  }

  /** Add the penalty, then cap at it. */
  function Push(adv: real, p: real): real {
    Min(adv + p, p)
  }

  function Penalised(adv: real, m: Fields, invalid: Option<real>, malformed: Option<real>): real {
    var once := if IsInvalid(m, invalid) then Push(adv, invalid.value) else adv;
    if IsMalformed(m, malformed) then Push(once, malformed.value) else once
  }

  /** The advantage of token `t`, by the message that covers it. */
  function After(adv: real, log: Log, t: nat, invalid: Option<real>, malformed: Option<real>): real {
    match Covering(log, t)
    case None => adv
    case Some(m) => Penalised(adv, m, invalid, malformed)
  }

  /** Every advantage, by the message that covers it. */
  ghost function AfterAll(values: Matrix, logs: seq<Log>, invalid: Option<real>, malformed: Option<real>): (after: Matrix)
    requires |values| == |logs|
    ensures |after| == |values| && forall k | 0 <= k < |values| :: |after[k]| == |values[k]|
  {
    Partly(values, logs, |logs|, 0, invalid, malformed)
  }

  /** The advantages once the rows before `i`, and the tokens before `offset` in row `i`, had their turn. */
  ghost function Partly(values: Matrix, logs: seq<Log>, i: nat, offset: nat, invalid: Option<real>, malformed: Option<real>)
    : (after: Matrix)
    requires |values| == |logs|
    ensures |after| == |values| && forall k | 0 <= k < |values| :: |after[k]| == |values[k]|
  {
    seq(|values|, k requires 0 <= k < |values| => seq(|values[k]|, t requires 0 <= t < |values[k]| =>
      if k < i || (k == i && t < offset) then After(values[k][t], logs[k], t, invalid, malformed) else values[k][t]))
  }

  /** The advantages once message `m`, at `offset` of row `i`, had its turn. */
  ghost function Painted(values: Matrix, i: nat, offset: nat, m: Fields, invalid: Option<real>, malformed: Option<real>)
    : (after: Matrix)
    ensures |after| == |values| && forall k | 0 <= k < |values| :: |after[k]| == |values[k]|
  {
    seq(|values|, k requires 0 <= k < |values| => seq(|values[k]|, t requires 0 <= t < |values[k]| =>
      if k == i && offset <= t < offset + |m.tokenIds| then Penalised(values[k][t], m, invalid, malformed) else values[k][t]))
  }

  lemma PartlyNext(values: Matrix, logs: seq<Log>, i: nat, j: nat, invalid: Option<real>, malformed: Option<real>)
    requires |values| == |logs| && i < |logs| && j < |logs[i]|
    ensures Painted(Partly(values, logs, i, Offset(logs[i], j), invalid, malformed), i, Offset(logs[i], j), logs[i][j], invalid, malformed)
         == Partly(values, logs, i, Offset(logs[i], j + 1), invalid, malformed)
  {
    hide After, Penalised;
    SpanIsCovered(logs[i], j, invalid, malformed);
    MatrixEqual(Painted(Partly(values, logs, i, Offset(logs[i], j), invalid, malformed), i, Offset(logs[i], j), logs[i][j], invalid, malformed),
                Partly(values, logs, i, Offset(logs[i], j + 1), invalid, malformed));
  }

  lemma PartlyRow(values: Matrix, logs: seq<Log>, i: nat, invalid: Option<real>, malformed: Option<real>)
    requires |values| == |logs| && i < |logs|
    ensures Partly(values, logs, i, Offset(logs[i], |logs[i]|), invalid, malformed) == Partly(values, logs, i + 1, 0, invalid, malformed)
  {
    hide After;
    RestIsUncovered(logs[i], invalid, malformed);
    MatrixEqual(Partly(values, logs, i, Offset(logs[i], |logs[i]|), invalid, malformed), Partly(values, logs, i + 1, 0, invalid, malformed));
  }

  lemma PartlyAll(values: Matrix, logs: seq<Log>, invalid: Option<real>, malformed: Option<real>)
    requires |values| == |logs|
    ensures Partly(values, logs, |logs|, 0, invalid, malformed) == AfterAll(values, logs, invalid, malformed)
  {}

  lemma OffsetZero(log: Log)
    ensures Offset(log, 0) == 0
  {}

  lemma PartlyNothing(values: Matrix, logs: seq<Log>, invalid: Option<real>, malformed: Option<real>)
    requires |values| == |logs|
    ensures Partly(values, logs, 0, 0, invalid, malformed) == values
  {
    MatrixEqual(Partly(values, logs, 0, 0, invalid, malformed), values);
  }

  /** Without penalties nothing changes. */
  lemma NothingConfigured(values: Matrix, logs: seq<Log>)
    requires |values| == |logs|
    ensures AfterAll(values, logs, None, None) == values && !AnyFlagged(Flat(logs), None, None)
  {
    hide Covering, Flat;
    MatrixEqual(AfterAll(values, logs, None, None), values);
  }

  /** All messages of a batch, in the order they are visited. */
  function Flat(logs: seq<Log>): seq<Fields> {
    if logs == [] then [] else Flat(logs[..|logs| - 1]) + logs[|logs| - 1]
  }

  predicate AnyFlagged(messages: seq<Fields>, invalid: Option<real>, malformed: Option<real>) {
    exists m :: m in messages && IsFlagged(m, invalid, malformed)
  }

  datatype Tally = Tally(invalidToolCalls: nat, malformedThinking: nat, assistantMessages: nat)

  function One(b: bool): nat {
    if b then 1 else 0
  }

  function Counted(messages: seq<Fields>, invalid: Option<real>, malformed: Option<real>): Tally {
    if messages == [] then Tally(0, 0, 0)
    else Add(Counted(messages[..|messages| - 1], invalid, malformed), messages[|messages| - 1], invalid, malformed)
  }

  function Add(tally: Tally, m: Fields, invalid: Option<real>, malformed: Option<real>): Tally {
    Tally(tally.invalidToolCalls + One(IsInvalid(m, invalid)),
          tally.malformedThinking + One(IsMalformed(m, malformed)),
          tally.assistantMessages + One(Generated(m)))
  }

  datatype Metrics = Metrics(invalidToolCallRate: real, malformedThinkingRate: real, tally: Tally)

  function Rate(n: nat, total: nat): real {
    n as real / (if total > 1 then total else 1) as real
  }

  function MetricsOf(tally: Tally): Metrics {
    Metrics(Rate(tally.invalidToolCalls, tally.assistantMessages), Rate(tally.malformedThinking, tally.assistantMessages), tally)
  }

  // ---------------------------------------------------------------- operation

  class TrainData {
    var advantages: Tensor

    constructor (advantages: Tensor)
      ensures this.advantages == advantages
    {
      this.advantages := advantages;
    }
  }

  function ClampEnd(offset: nat, length: nat, cols: nat): nat {
    if offset + length < cols then offset + length else cols
  }

  /** One message's turn: `add_` then `clamp_` on its span, for each flag it has. A slice stops at the row's end. */
  method PenaliseMessage(advantages: Tensor, i: nat, offset: nat, m: Fields, invalid: Option<real>, malformed: Option<real>)
    requires advantages.InBounds() && advantages.Unshared() && i < advantages.rows
    modifies advantages.storage
    ensures forall k: nat, t: nat | k < advantages.rows && t < advantages.cols ::
      advantages.At(k, t) == if k == i && offset <= t < offset + |m.tokenIds|
        then Penalised(old(advantages.At(k, t)), m, invalid, malformed) else old(advantages.At(k, t))
  {
    hide Tensor.Index;
    var from := ClampEnd(offset, 0, advantages.cols);
    var to := ClampEnd(offset, |m.tokenIds|, advantages.cols);
    if IsInvalid(m, invalid) {
      advantages.UpdateSpan(i, from, to, adv => adv + invalid.value);
      advantages.UpdateSpan(i, from, to, adv => Min(adv, invalid.value));
    }
    if IsMalformed(m, malformed) {
      advantages.UpdateSpan(i, from, to, adv => adv + malformed.value);
      advantages.UpdateSpan(i, from, to, adv => Min(adv, malformed.value));
    }
  }

  /** Before the first flagged message is written, the tensor is copied, so that shared or foreign
      storage is never touched. */
  method VisitMessage(data: TrainData, materialized: bool, i: nat, offset: nat, m: Fields,
                      invalid: Option<real>, malformed: Option<real>) returns (materialized': bool)
    requires data.advantages.InBounds() && i < data.advantages.rows && (materialized ==> data.advantages.Unshared())
    modifies data, if materialized then {data.advantages.storage} else {}
    ensures materialized' == (materialized || IsFlagged(m, invalid, malformed))
    ensures data.advantages.InBounds() && (materialized' ==> data.advantages.Unshared())
    ensures SameShape(data.advantages, old(data.advantages))
    ensures materialized == materialized' ==> data.advantages == old(data.advantages)
    ensures materialized != materialized' ==> fresh(data.advantages) && fresh(data.advantages.storage)
    ensures data.advantages.Contents() == Painted(old(data.advantages.Contents()), i, offset, m, invalid, malformed)
  {
    hide Tensor.Index, Tensor.InBounds, Tensor.Unshared;
    materialized' := materialized;
    if IsFlagged(m, invalid, malformed) {
      if !materialized {
        data.advantages := data.advantages.Clone();
        materialized' := true;
      }
      PenaliseMessage(data.advantages, i, offset, m, invalid, malformed);
    }
    hide Penalised;
    MatrixEqual(data.advantages.Contents(), Painted(old(data.advantages.Contents()), i, offset, m, invalid, malformed));
  }

  method VisitLog(data: TrainData, materialized: bool, tally: Tally, logs: seq<Log>, i: nat,
                  invalid: Option<real>, malformed: Option<real>, ghost values: Matrix, ghost visited: seq<Fields>)
    returns (materialized': bool, tally': Tally)
    requires data.advantages.InBounds() && data.advantages.rows == |logs| == |values| && i < |logs|
    requires materialized ==> data.advantages.Unshared()
    requires data.advantages.Contents() == Partly(values, logs, i, 0, invalid, malformed)
    requires tally == Counted(visited, invalid, malformed) && materialized == AnyFlagged(visited, invalid, malformed)
    modifies data, if materialized then {data.advantages.storage} else {}
    ensures data.advantages.InBounds() && (materialized' ==> data.advantages.Unshared())
    ensures SameShape(data.advantages, old(data.advantages))
    ensures materialized == materialized' ==> data.advantages == old(data.advantages)
    ensures materialized != materialized' ==> materialized' && fresh(data.advantages) && fresh(data.advantages.storage)
    ensures data.advantages.Contents() == Partly(values, logs, i + 1, 0, invalid, malformed)
    ensures tally' == Counted(visited + logs[i], invalid, malformed)
    ensures materialized' == AnyFlagged(visited + logs[i], invalid, malformed)
  {
    hide Tensor.Index, Tensor.InBounds, Tensor.Unshared, Partly, AfterAll, Counted, AnyFlagged, IsFlagged, Flat, Offset, Add, MetricsOf, Painted;
    materialized', tally' := materialized, tally;
    var log := logs[i];
    var tokenOffset: nat := 0;
    OffsetZero(log);
    assert visited + log[..0] == visited;
    for j := 0 to |log|
      invariant data.advantages.InBounds() && (materialized' ==> data.advantages.Unshared())
      invariant SameShape(data.advantages, old(data.advantages))
      invariant materialized == materialized' ==> data.advantages == old(data.advantages)
      invariant materialized != materialized' ==> materialized' && fresh(data.advantages) && fresh(data.advantages.storage)
      invariant data.advantages.Contents() == Partly(values, logs, i, tokenOffset, invalid, malformed)
      invariant tokenOffset == Offset(log, j)
      invariant tally' == Counted(visited + log[..j], invalid, malformed)
      invariant materialized' == AnyFlagged(visited + log[..j], invalid, malformed)
    {
      var m := log[j];
      PrefixNext(visited, log, j);
      TallyNext(visited + log[..j], m, invalid, malformed);
      PartlyNext(values, logs, i, j, invalid, malformed);
      SpanIsCovered(log, j, invalid, malformed);
      tally' := Add(tally', m, invalid, malformed);
      materialized' := VisitMessage(data, materialized', i, tokenOffset, m, invalid, malformed);
      tokenOffset := tokenOffset + |m.tokenIds|;
    }
    assert log[..|log|] == log;
    PartlyRow(values, logs, i, invalid, malformed);
  }

  method ApplyPenalties(data: TrainData, logs: seq<Log>, invalid: Option<real>, malformed: Option<real>)
    returns (metrics: Option<Metrics>)
    requires data.advantages.InBounds() && |logs| == data.advantages.rows
    modifies data
    ensures data.advantages.InBounds() && SameShape(data.advantages, old(data.advantages))
    ensures data.advantages.Contents() == AfterAll(old(data.advantages.Contents()), logs, invalid, malformed)
    ensures if AnyFlagged(Flat(logs), invalid, malformed)
            then fresh(data.advantages.storage) && data.advantages.Unshared()
            else data.advantages == old(data.advantages)
    ensures metrics ==
      if invalid.None? && malformed.None? then None else Some(MetricsOf(Counted(Flat(logs), invalid, malformed)))
  {
    hide Tensor.Index, Tensor.InBounds, Tensor.Unshared, Partly, AfterAll, Counted, AnyFlagged, IsFlagged, Flat, Offset, Add, MetricsOf, Painted;
    ghost var start := data.advantages;
    ghost var values := start.Contents();
    if invalid.None? && malformed.None? {
      NothingConfigured(values, logs);
      return None;
    }
    var materialized := false;
    var tally := Tally(0, 0, 0);
    NothingVisited(logs, invalid, malformed);
    PartlyNothing(values, logs, invalid, malformed);
    for i := 0 to |logs|
      invariant data.advantages.InBounds() && SameShape(data.advantages, start)
      invariant if materialized then fresh(data.advantages.storage) && data.advantages.Unshared() else data.advantages == start
      invariant tally == Counted(Flat(logs[..i]), invalid, malformed)
      invariant materialized == AnyFlagged(Flat(logs[..i]), invalid, malformed)
      invariant data.advantages.Contents() == Partly(values, logs, i, 0, invalid, malformed)
    {
      materialized, tally := VisitLog(data, materialized, tally, logs, i, invalid, malformed, values, Flat(logs[..i]));
      RowVisited(logs, i);
    }
    PartlyAll(values, logs, invalid, malformed);
    assert logs[..|logs|] == logs;
    metrics := Some(MetricsOf(tally));
  }

  lemma NothingVisited(logs: seq<Log>, invalid: Option<real>, malformed: Option<real>)
    ensures Flat(logs[..0]) == [] && Counted([], invalid, malformed) == Tally(0, 0, 0) && !AnyFlagged([], invalid, malformed)
  {}

  lemma PrefixNext(visited: seq<Fields>, log: Log, j: nat)
    requires j < |log|
    ensures visited + log[..j + 1] == visited + log[..j] + [log[j]]
  {}

  lemma TallyNext(visited: seq<Fields>, m: Fields, invalid: Option<real>, malformed: Option<real>)
    ensures AnyFlagged(visited + [m], invalid, malformed) == (AnyFlagged(visited, invalid, malformed) || IsFlagged(m, invalid, malformed))
    ensures Counted(visited + [m], invalid, malformed) == Add(Counted(visited, invalid, malformed), m, invalid, malformed)
  {
    hide IsFlagged, Add;
    assert (visited + [m])[..|visited|] == visited;
  }

  lemma RowVisited(logs: seq<Log>, i: nat)
    requires i < |logs|
    ensures Flat(logs[..i + 1]) == Flat(logs[..i]) + logs[i]
  {
    assert logs[..i + 1][..i] == logs[..i];
  }

  /** Running offsets are where a message's tokens are. */
  lemma SpanIsCovered(log: Log, j: nat, invalid: Option<real>, malformed: Option<real>)
    requires j < |log|
    ensures Offset(log, j + 1) == Offset(log, j) + |log[j].tokenIds|
    ensures forall adv: real, t: nat | Offset(log, j) <= t < Offset(log, j + 1) ::
      After(adv, log, t, invalid, malformed) == Penalised(adv, log[j], invalid, malformed)
  {
    forall adv: real, t: nat | Offset(log, j) <= t < Offset(log, j + 1)
      ensures After(adv, log, t, invalid, malformed) == Penalised(adv, log[j], invalid, malformed)
    {
      CoveringAt(log, j, t);
    }
  }

  lemma RestIsUncovered(log: Log, invalid: Option<real>, malformed: Option<real>)
    ensures forall adv: real, t: nat | t >= Offset(log, |log|) :: After(adv, log, t, invalid, malformed) == adv
  {
    forall adv: real, t: nat | t >= Offset(log, |log|)
      ensures After(adv, log, t, invalid, malformed) == adv
    {
      CoveringPastEnd(log, t);
    }
  }

  // ---------------------------------------------------------------- theorems

  predicate InFlagged(log: Log, t: nat, invalid: Option<real>, malformed: Option<real>) {
    Covering(log, t).Some? && IsFlagged(Covering(log, t).value, invalid, malformed)
  }

  /** Tokens outside flagged messages keep their advantage, padding past the last message included; every
      other token gets its own message's penalties, wherever its row stores it. */
  lemma OnlyFlaggedTokensChange(values: Matrix, logs: seq<Log>, i: nat, t: nat, invalid: Option<real>, malformed: Option<real>)
    requires |values| == |logs| && i < |values| && t < |values[i]|
    ensures AfterAll(values, logs, invalid, malformed)[i][t] ==
      if InFlagged(logs[i], t, invalid, malformed)
      then Penalised(values[i][t], Covering(logs[i], t).value, invalid, malformed)
      else values[i][t]
  {}

  lemma PushIs(adv: real, p: real)
    ensures Push(adv, p) == Min(adv, 0.0) + p
  {}

  /** A message with one flag: its tokens get `min(adv + p, p)`, which is the configured value itself only
      where the advantage was not negative. */
  lemma SinglyFlagged(adv: real, m: Fields, invalid: Option<real>, malformed: Option<real>)
    requires IsInvalid(m, invalid) != IsMalformed(m, malformed)
    ensures var p := if IsInvalid(m, invalid) then invalid.value else malformed.value;
      && Penalised(adv, m, invalid, malformed) == Min(adv + p, p)
      && (Penalised(adv, m, invalid, malformed) == p <==> adv >= 0.0)
  {}

  /** An advantage of -1 under a penalty of -5 becomes -6, not the -5 it is documented to be overwritten with. */
  lemma NegativeAdvantageIsNotOverwritten()
    ensures var m := Fields(true, [7], Some([0.5]), None, true, false);
      After(-1.0, [m], 0, Some(-5.0), None) == -6.0
  {}

  /** Two flags with negative penalties add up, in either order. */
  lemma DoublyFlagged(adv: real, m: Fields, invalid: Option<real>, malformed: Option<real>)
    requires IsInvalid(m, invalid) && IsMalformed(m, malformed) && invalid.value <= 0.0 && malformed.value <= 0.0
    ensures Penalised(adv, m, invalid, malformed) == Min(adv, 0.0) + invalid.value + malformed.value
  {
    PushIs(adv, invalid.value);
    PushIs(Push(adv, invalid.value), malformed.value);
  }

  /** A flag on a message with tokens, where a penalty for it is configured. */
  predicate Hits(m: Fields, invalid: Option<real>, malformed: Option<real>) {
    m.assistant && m.tokenIds != []
    && ((invalid.Some? && m.isInvalidToolCall) || (malformed.Some? && m.hasMalformedThinking))
  }

  /** After mask building every message has log-probabilities, so a flagged prompt message is penalised too.
      All penalised tokens train if and only if flags sit on generated messages only. */
  lemma PenalisedTokensTrainIff(log: Log, invalid: Option<real>, malformed: Option<real>)
    ensures (forall t: nat | t < Offset(log, |log|) && InFlagged(MarkedLog(log), t, invalid, malformed) ::
               TrainsAt(log, t))
      <==> forall j | 0 <= j < |log| && Hits(log[j], invalid, malformed) :: Generated(log[j])
  {
    hide *;
    if forall j | 0 <= j < |log| && Hits(log[j], invalid, malformed) :: Generated(log[j]) {
      forall t: nat | t < Offset(log, |log|) && InFlagged(MarkedLog(log), t, invalid, malformed)
        ensures TrainsAt(log, t)
      {
        TokenHasMessage(log, t, invalid, malformed);
      }
    } else {
      var j :| 0 <= j < |log| && Hits(log[j], invalid, malformed) && !Generated(log[j]);
      var t := MessageHasToken(log, j, invalid, malformed);
    }
  }

  /** Token `t` is penalised and trains as its message says. */
  lemma TokenHasMessage(log: Log, t: nat, invalid: Option<real>, malformed: Option<real>)
    requires t < Offset(log, |log|)
    ensures Covering(log, t).Some? && Covering(log, t).value in log
    ensures InFlagged(MarkedLog(log), t, invalid, malformed) == Hits(Covering(log, t).value, invalid, malformed)
    ensures TrainsAt(log, t) == Generated(Covering(log, t).value)
  {
    LossMaskAt(log, t);
    CoveringIsIn(log, t);
  }

  lemma MessageHasToken(log: Log, j: nat, invalid: Option<real>, malformed: Option<real>) returns (t: nat)
    requires j < |log| && Hits(log[j], invalid, malformed)
    ensures t < Offset(log, |log|)
    ensures InFlagged(MarkedLog(log), t, invalid, malformed) && TrainsAt(log, t) == Generated(log[j])
  {
    t := Offset(log, j);
    OffsetsGrow(log, j + 1, |log|);
    CoveringAt(log, j, t);
    TokenHasMessage(log, t, invalid, malformed);
  }

  /** Token `t` of the log has loss mask one after mask building. */
  predicate TrainsAt(log: Log, t: nat) {
    t < |FlatLossMask(MarkedLog(log))| && FlatLossMask(MarkedLog(log))[t] == 1
  }

  lemma {:induction false} CoveringIsIn(log: Log, t: nat)
    requires Covering(log, t).Some?
    ensures Covering(log, t).value in log && Covering(log, t).value.tokenIds != []
    decreases |log|
  {
    if t >= |log[0].tokenIds| {
      CoveringIsIn(log[1..], t - |log[0].tokenIds|);
    }
  }

  lemma {:induction false} OffsetsGrow(log: Log, j: nat, k: nat)
    requires j <= k <= |log|
    ensures Offset(log, j) <= Offset(log, k)
    decreases k - j
  {
    if j < k {
      OffsetsGrow(log, j, k - 1);
    }
  }

  // ----------------------------------------------------------------- metrics

  function Select(messages: seq<Fields>, keep: Fields -> bool): seq<Fields> {
    if messages == [] then []
    else
      var n := |messages| - 1;
      Select(messages[..n], keep) + if keep(messages[n]) then [messages[n]] else []
  }

  /** Each count is the number of messages it is named after: assistant messages the rollout generated, and of these
      those with the flag, where a penalty for it is configured. */
  lemma {:induction false} TallyCounts(messages: seq<Fields>, invalid: Option<real>, malformed: Option<real>)
    ensures var tally := Counted(messages, invalid, malformed);
      && tally.assistantMessages == |Select(messages, (m: Fields) => m.assistant && m.generationLogprobs.Some?)|
      && tally.invalidToolCalls
           == (if invalid.None? then 0 else |Select(messages, (m: Fields) => m.assistant && m.generationLogprobs.Some? && m.isInvalidToolCall)|)
      && tally.malformedThinking
           == (if malformed.None? then 0 else |Select(messages, (m: Fields) => m.assistant && m.generationLogprobs.Some? && m.hasMalformedThinking)|)
      && tally.invalidToolCalls <= tally.assistantMessages && tally.malformedThinking <= tally.assistantMessages
    decreases |messages|
  {
    if messages != [] {
      TallyCounts(messages[..|messages| - 1], invalid, malformed);
    }
  }

  /** The rates are those counts per generated message, so they lie between zero and one. */
  lemma RatesAreShares(messages: seq<Fields>, invalid: Option<real>, malformed: Option<real>)
    ensures var tally := Counted(messages, invalid, malformed);
      var metrics := MetricsOf(tally);
      && metrics.tally == tally
      && 0.0 <= metrics.invalidToolCallRate <= 1.0 && 0.0 <= metrics.malformedThinkingRate <= 1.0
      && metrics.invalidToolCallRate * tally.assistantMessages as real == tally.invalidToolCalls as real
      && metrics.malformedThinkingRate * tally.assistantMessages as real == tally.malformedThinking as real
      && (tally.assistantMessages == 0 ==> metrics.invalidToolCallRate == metrics.malformedThinkingRate == 0.0)
  {
    TallyCounts(messages, invalid, malformed);
    var tally := Counted(messages, invalid, malformed);
    hide *;
    MetricsAre(tally);
    RateIsShare(tally.invalidToolCalls, tally.assistantMessages);
    RateIsShare(tally.malformedThinking, tally.assistantMessages);
  }

  lemma MetricsAre(tally: Tally)
    ensures MetricsOf(tally) == Metrics(Rate(tally.invalidToolCalls, tally.assistantMessages),
                                        Rate(tally.malformedThinking, tally.assistantMessages), tally)
  {}

  lemma RateIsShare(n: nat, total: nat)
    requires n <= total
    ensures 0.0 <= Rate(n, total) <= 1.0 && Rate(n, total) * total as real == n as real
    ensures total == 0 ==> Rate(n, total) == 0.0
  {
    if total > 0 {
      QuotientAtMost(n as real, total as real, 1.0);
      QuotientAtLeast(n as real, total as real, 0.0);
    }
  }
}
