/** Message logs: the token loss masks written into each message, and which message covers a token. */
module MessageMasks {
  import opened Wrappers

  /** What a message dictionary holds; absent keys are `None`. The flags are false when absent. */
  datatype Fields = Fields(assistant: bool, tokenIds: seq<int>, generationLogprobs: Option<seq<real>>,
                           tokenLossMask: Option<seq<int>>, isInvalidToolCall: bool, hasMalformedThinking: bool)

  type Log = seq<Fields>

  class Message {
    const assistant: bool
    const tokenIds: seq<int>
    var generationLogprobs: Option<seq<real>>
    var tokenLossMask: Option<seq<int>>
    const isInvalidToolCall: bool
    const hasMalformedThinking: bool

    constructor (fields: Fields)
      ensures Value() == fields
    {
      assistant, tokenIds := fields.assistant, fields.tokenIds;
      generationLogprobs, tokenLossMask := fields.generationLogprobs, fields.tokenLossMask;
      isInvalidToolCall, hasMalformedThinking := fields.isInvalidToolCall, fields.hasMalformedThinking;
    }

    function Value(): Fields
      reads this
    {
      Fields(assistant, tokenIds, generationLogprobs, tokenLossMask, isInvalidToolCall, hasMalformedThinking)
    }
  }

  /** Part of a rollout, not of a prompt's history. */
  predicate Generated(m: Fields) {
    m.assistant && m.generationLogprobs.Some?
  }

  function Marked(m: Fields): Fields {
    m.(tokenLossMask := Some(seq(|m.tokenIds|, _ => if Generated(m) then 1 else 0)),
       generationLogprobs := if m.generationLogprobs.Some? then m.generationLogprobs
                             else Some(seq(|m.tokenIds|, _ => 0.0)))
  }

  /** Marking a message again changes nothing, except that a prompt's assistant message now passes for a
      generated one: it has been given log-probabilities. */
  lemma MarkingTwiceIff(m: Fields)
    ensures Marked(Marked(m)) == Marked(m) <==> !(m.assistant && m.generationLogprobs.None? && m.tokenIds != [])
  {
    var once, twice := Marked(m), Marked(Marked(m));
    if m.tokenIds == [] {
      assert once.tokenLossMask.value == twice.tokenLossMask.value;
    } else {
      assert once.tokenLossMask.value[0] == if Generated(m) then 1 else 0;
      assert twice.tokenLossMask.value[0] == if m.assistant then 1 else 0;
    }
  }

  /** Every log's messages are objects of their own. */
  ghost predicate Separate(logs: seq<seq<Message>>) {
    forall i, j, k, l | 0 <= i < |logs| && 0 <= j < |logs[i]| && 0 <= k < |logs| && 0 <= l < |logs[k]| ::
      logs[i][j] == logs[k][l] ==> i == k && j == l
  }

  ghost function Objects(logs: seq<seq<Message>>): set<Message> {
    set i, j | 0 <= i < |logs| && 0 <= j < |logs[i]| :: logs[i][j]
  }

  method MarkMessage(message: Message)
    modifies message
    ensures message.Value() == Marked(old(message.Value()))
  {
    var length := |message.tokenIds|;
    if message.assistant && message.generationLogprobs.Some? {
      message.tokenLossMask := Some(seq(length, _ => 1));
    } else {
      message.tokenLossMask := Some(seq(length, _ => 0));
    }
    if message.generationLogprobs.None? {
      message.generationLogprobs := Some(seq(length, _ => 0.0));
    }
  }

  method AddTokenLossMasks(logs: seq<seq<Message>>)
    requires Separate(logs)
    modifies Objects(logs)
    ensures forall i, j | 0 <= i < |logs| && 0 <= j < |logs[i]| :: logs[i][j].Value() == Marked(old(logs[i][j].Value()))
  {
    hide Marked;
    for i := 0 to |logs|
      invariant forall k, l | 0 <= k < i && 0 <= l < |logs[k]| :: logs[k][l].Value() == Marked(old(logs[k][l].Value()))
      invariant forall k, l | i <= k < |logs| && 0 <= l < |logs[k]| :: logs[k][l].Value() == old(logs[k][l].Value())
    {
      for j := 0 to |logs[i]|
        invariant forall k, l | 0 <= k < i && 0 <= l < |logs[k]| :: logs[k][l].Value() == Marked(old(logs[k][l].Value()))
        invariant forall l | 0 <= l < j :: logs[i][l].Value() == Marked(old(logs[i][l].Value()))
        invariant forall l | j <= l < |logs[i]| :: logs[i][l].Value() == old(logs[i][l].Value())
        invariant forall k, l | i < k < |logs| && 0 <= l < |logs[k]| :: logs[k][l].Value() == old(logs[k][l].Value())
      {
        assert logs[i][j] in Objects(logs);
        MarkMessage(logs[i][j]);
      }
    }
  }

  // ------------------------------------------------------- tokens and messages

  /** Tokens before message `j`. */
  function Offset(log: Log, j: nat): nat
    requires j <= |log|
  {
    if j == 0 then 0 else Offset(log, j - 1) + |log[j - 1].tokenIds|
  }

  /** The message that token `t` of the concatenated log belongs to. */
  function Covering(log: Log, t: nat): Option<Fields> {
    if log == [] then None
    else if t < |log[0].tokenIds| then Some(log[0])
    else Covering(log[1..], t - |log[0].tokenIds|)
  }

  lemma {:induction false} OffsetTail(log: Log, j: nat)
    requires 0 < j <= |log|
    ensures Offset(log, j) == |log[0].tokenIds| + Offset(log[1..], j - 1)
    decreases j
  {
    if j > 1 {
      OffsetTail(log, j - 1);
    }
  }

  /** Running offsets find the covering message. */
  lemma {:induction false} CoveringAt(log: Log, j: nat, t: nat)
    requires j < |log| && Offset(log, j) <= t < Offset(log, j + 1)
    ensures Covering(log, t) == Some(log[j])
    decreases j
  {
    if j > 0 {
      OffsetTail(log, j);
      OffsetTail(log, j + 1);
      CoveringAt(log[1..], j - 1, t - |log[0].tokenIds|);
    }
  }

  lemma {:induction false} CoveringPastEnd(log: Log, t: nat)
    requires t >= Offset(log, |log|)
    ensures Covering(log, t) == None
    decreases |log|
  {
    if log != [] {
      OffsetTail(log, |log|);
      CoveringPastEnd(log[1..], t - |log[0].tokenIds|);
    }
  }

  function MarkedLog(log: Log): (marked: Log)
    ensures |marked| == |log|
  {
    seq(|log|, i requires 0 <= i < |log| => Marked(log[i]))
  }

  /** The loss masks of all messages, one after the other. */
  function FlatLossMask(log: Log): seq<int>
    requires forall i | 0 <= i < |log| :: log[i].tokenLossMask.Some?
  {
    if log == [] then [] else log[0].tokenLossMask.value + FlatLossMask(log[1..])
  }

  /** After marking, a token trains exactly when its message was generated by the rollout, and token
      positions belong to the same messages as before. */
  lemma {:induction false} LossMaskAt(log: Log, t: nat)
    ensures |FlatLossMask(MarkedLog(log))| == Offset(log, |log|)
    ensures t < Offset(log, |log|) ==>
      && Covering(log, t).Some?
      && Covering(MarkedLog(log), t) == Some(Marked(Covering(log, t).value))
      && FlatLossMask(MarkedLog(log))[t] == if Generated(Covering(log, t).value) then 1 else 0
    decreases |log|
  {
    if log != [] {
      var length := |log[0].tokenIds|;
      OffsetTail(log, |log|);
      LossMaskAt(log[1..], if t < length then 0 else t - length);
      assert MarkedLog(log)[1..] == MarkedLog(log[1..]);
    }
  }

  /** Marking gives every message one log-probability for each token: those it had, or zeros. */
  lemma MarkedLogprobs(m: Fields)
    ensures Marked(m).generationLogprobs.Some?
    ensures m.generationLogprobs.Some? ==> Marked(m).generationLogprobs == m.generationLogprobs
    ensures m.generationLogprobs.None? ==>
      |Marked(m).generationLogprobs.value| == |m.tokenIds|
      && forall t | 0 <= t < |m.tokenIds| :: Marked(m).generationLogprobs.value[t] == 0.0
    ensures Marked(m).tokenIds == m.tokenIds && Marked(m).assistant == m.assistant
    ensures Marked(m).isInvalidToolCall == m.isInvalidToolCall && Marked(m).hasMalformedThinking == m.hasMalformedThinking
  {}
}
