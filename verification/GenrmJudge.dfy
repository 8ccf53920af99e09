/** Reading a judge's verdict out of its answer and turning it into a reward. */
module GenrmJudge {
  import opened Wrappers
  import JsonFinder

  datatype Verdict = Verdict(score1: real, score2: real, ranking: real)

  const DEFAULT := Verdict(3.0, 3.0, 3.5)
  const RANKING_MIDPOINT := 3.5
  const REWARD_MIN := 1.0 - 2.5
  const REWARD_MAX := 5.0 + 2.5

  /** The objects of every fenced block, block by block. */
  function ObjectsOf(blocks: seq<string>): seq<string> {
    if blocks == [] then [] else ObjectsOf(blocks[..|blocks| - 1]) + JsonFinder.Found(blocks[|blocks| - 1], 0)
  }

  predicate NoneValid(objects: seq<string>, parse: string -> Option<Verdict>) {
    forall i | 0 <= i < |objects| :: parse(objects[i]).None?
  }

  predicate FirstValid(objects: seq<string>, parse: string -> Option<Verdict>, v: Verdict) {
    exists i | 0 <= i < |objects| :: parse(objects[i]) == Some(v) && NoneValid(objects[..i], parse)
  }

  predicate LastValid(objects: seq<string>, parse: string -> Option<Verdict>, v: Verdict) {
    exists i | 0 <= i < |objects| :: parse(objects[i]) == Some(v) && NoneValid(objects[i + 1..], parse)
  }

  /** Fenced blocks come first and their first valid object wins; otherwise the last valid
      object of the whole answer; otherwise the neutral verdict. `parse` reads one object. */
  method ParseGenrmOutput(blocks: seq<string>, output: string, parse: string -> Option<Verdict>)
    returns (verdict: Verdict)
    ensures if !NoneValid(ObjectsOf(blocks), parse) then FirstValid(ObjectsOf(blocks), parse, verdict)
            else if !NoneValid(JsonFinder.Found(output, 0), parse) then LastValid(JsonFinder.Found(output, 0), parse, verdict)
            else verdict == DEFAULT
  {
    hide FirstValid;
    for b := 0 to |blocks|
      invariant NoneValid(ObjectsOf(blocks[..b]), parse)
    {
      var objects := JsonFinder.FindJsonObjects(blocks[b]);
      for i := 0 to |objects|
        invariant NoneValid(objects[..i], parse)
      {
        var result := parse(objects[i]);
        if result.Some? {
          FirstInBlock(blocks, b, objects, i, parse);
          return result.value;
        }
      }
      assert objects[..|objects|] == objects;
      assert blocks[..b + 1][..b] == blocks[..b];
    }
    assert blocks[..|blocks|] == blocks;
    var lastValid: Option<Verdict> := None;
    var objects := JsonFinder.FindJsonObjects(output);
    ghost var at := 0;
    for i := 0 to |objects|
      invariant lastValid.None? ==> NoneValid(objects[..i], parse)
      invariant lastValid.Some? ==> 0 <= at < i && parse(objects[at]) == lastValid && NoneValid(objects[at + 1..i], parse)
    {
      var result := parse(objects[i]);
      if result.Some? {
        lastValid, at := result, i;
        assert objects[at + 1..i + 1] == [];
      } else if lastValid.Some? {
        assert objects[at + 1..i + 1] == objects[at + 1..i] + [objects[i]];
      }
    }
    assert objects[..|objects|] == objects;
    if lastValid.Some? {
      assert objects[at + 1..|objects|] == objects[at + 1..];
      return lastValid.value;
    }
    return DEFAULT;
  }

  lemma FirstInBlock(blocks: seq<string>, b: nat, objects: seq<string>, i: nat, parse: string -> Option<Verdict>)
    requires b < |blocks| && objects == JsonFinder.Found(blocks[b], 0) && i < |objects|
    requires NoneValid(ObjectsOf(blocks[..b]), parse) && NoneValid(objects[..i], parse) && parse(objects[i]).Some?
    ensures FirstValid(ObjectsOf(blocks), parse, parse(objects[i]).value) && !NoneValid(ObjectsOf(blocks), parse)
  {
    var before := ObjectsOf(blocks[..b]);
    ObjectsOfPrefix(blocks, b + 1);
    assert blocks[..b + 1][..b] == blocks[..b];
    var all := ObjectsOf(blocks);
    assert ObjectsOf(blocks[..b + 1]) == before + objects;
    hide ObjectsOf;
    PrefixHasFirst(all, before, objects, i, parse);
  }

  lemma PrefixHasFirst(all: seq<string>, before: seq<string>, objects: seq<string>, i: nat, parse: string -> Option<Verdict>)
    requires before + objects <= all && i < |objects|
    requires NoneValid(before, parse) && NoneValid(objects[..i], parse) && parse(objects[i]).Some?
    ensures FirstValid(all, parse, parse(objects[i]).value) && !NoneValid(all, parse)
  {
    var k := |before| + i;
    assert all[k] == (before + objects)[k] == objects[i];
    assert all[..k] == before + objects[..i];
  }

  lemma {:induction false} ObjectsOfPrefix(blocks: seq<string>, n: nat)
    requires n <= |blocks|
    ensures ObjectsOf(blocks[..n]) <= ObjectsOf(blocks)
    decreases |blocks|
  {
    if n == |blocks| {
      assert blocks[..n] == blocks;
    } else {
      ObjectsOfPrefix(blocks[..|blocks| - 1], n);
      assert blocks[..|blocks| - 1][..n] == blocks[..n];
    }
  }

  function Reward(v: Verdict, pairwise: bool): real {
    var score := if pairwise && v.score1 == v.score2 then v.score1 + (RANKING_MIDPOINT - v.ranking) else v.score1;
    var clipped := if score < REWARD_MIN then REWARD_MIN else if score > REWARD_MAX then REWARD_MAX else score;
    (clipped - REWARD_MIN) / (REWARD_MAX - REWARD_MIN)
  }

  predicate InProtocol(v: Verdict) {
    1.0 <= v.score1 <= 5.0 && 1.0 <= v.score2 <= 5.0 && 1.0 <= v.ranking <= 6.0
  }

  /** Rewards lie in [0, 1]; inside the protocol's ranges nothing is clipped, so the reward orders
      verdicts strictly by score, and on a tie strictly by ranking, with 3.5 as the neutral point. */
  lemma RewardOrdersVerdicts(v: Verdict, w: Verdict, pairwise: bool)
    ensures 0.0 <= Reward(v, pairwise) <= 1.0
    ensures InProtocol(v) && InProtocol(w) && !(pairwise && (v.score1 == v.score2 || w.score1 == w.score2)) ==>
      (Reward(v, pairwise) < Reward(w, pairwise) <==> v.score1 < w.score1)
    ensures InProtocol(v) && InProtocol(w) && v.score1 == v.score2 == w.score1 == w.score2 ==>
      && (Reward(v, true) < Reward(w, true) <==> v.ranking > w.ranking)
      && (Reward(v, true) > Reward(v, false) <==> v.ranking < RANKING_MIDPOINT)
  {
    assert REWARD_MAX - REWARD_MIN == 9.0;
  }

  /** Inside the ranges a reward moves by a ninth for each point of the score and, on a tie, of the ranking; the neutral
      verdict earns one half, and only the best and the worst tie reach one and zero. */
  lemma RewardMovesByNinths(v: Verdict, w: Verdict)
    requires InProtocol(v) && InProtocol(w)
    ensures 9.0 * (Reward(v, false) - Reward(w, false)) == v.score1 - w.score1
    ensures 9.0 * (Reward(v, true) - Reward(v, false)) == if v.score1 == v.score2 then 3.5 - v.ranking else 0.0
    ensures v.score1 == 3.0 ==> Reward(v, false) == 0.5
    ensures InProtocol(DEFAULT) && Reward(DEFAULT, true) == Reward(DEFAULT, false) == 0.5
    ensures Reward(v, true) == 1.0 <==> v.score1 == 5.0 && v.score2 == 5.0 && v.ranking == 1.0
    ensures Reward(v, true) == 0.0 <==> v.score1 == 1.0 && v.score2 == 1.0 && v.ranking == 6.0
  {
    assert REWARD_MAX - REWARD_MIN == 9.0;
  }
}
