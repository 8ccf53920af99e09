/** The `<think>` format verifiers and an exact description of what they accept. */
module FormatCheck {
  import opened Text
  import BoxedAnswer

  const OPEN := "<think>"
  const CLOSE := "</think>"

  datatype Issue = NotOnePair | OpenAfterClose | WrapperNotAfter

  datatype FormatResult = FormatResult(isCorrectFormat: bool, issues: seq<Issue>, extractedAnswer: string)

  /** The issues either verifier reports; they differ in the offset they add to the closing tag. */
  function Issues(text: string, wrapper: string, offset: nat): seq<Issue> {
    if Count(text, OPEN, 0) != 1 || Count(text, CLOSE, 0) != 1 then [NotOnePair]
    else
      (if Find(text, OPEN) > Find(text, CLOSE) then [OpenAfterClose] else [])
      + (if wrapper != CLOSE && Find(text, CLOSE) >= 0 && RFind(text, CLOSE) + offset > RFind(text, wrapper)
         then [WrapperNotAfter] else [])
  }

  method VerifyFormat(response: string, answerWrapper: string) returns (result: FormatResult)
    ensures result.issues == Issues(response, answerWrapper, 7)
    ensures result.isCorrectFormat <==> result.issues == []
    ensures result.extractedAnswer == BoxedAnswer.Extracted(response, BoxedAnswer.BOXED, "{", "}")
  {
    var issues := [];
    var openThink, closeThink := Count(response, OPEN, 0), Count(response, CLOSE, 0);
    if openThink != 1 || closeThink != 1 {
      issues := issues + [NotOnePair];
    } else {
      if Find(response, OPEN) > Find(response, CLOSE) {
        issues := issues + [OpenAfterClose];
      }
      if answerWrapper != CLOSE && Find(response, CLOSE) >= 0
        && RFind(response, CLOSE) + 7 > RFind(response, answerWrapper) {
        issues := issues + [WrapperNotAfter];
      }
    }
    var answer := BoxedAnswer.ParseFinalBoxed(response);
    result := FormatResult(|issues| == 0, issues, answer);
  }

  method VerifyThinkFormat(response: string, signal: string, opener: string, closer: string, extractAnswer: bool)
    returns (result: FormatResult)
    ensures result.issues == ThinkIssues(response, signal, opener)
    ensures result.isCorrectFormat <==> result.issues == []
    ensures result.extractedAnswer == ThinkAnswer(response, signal, opener, closer, extractAnswer)
    ensures !extractAnswer ==> result.extractedAnswer == ""
  {
    var issues := [];
    var openThink, closeThink := Count(response, OPEN, 0), Count(response, CLOSE, 0);
    if openThink != 1 || closeThink != 1 {
      issues := issues + [NotOnePair];
    } else {
      if Find(response, OPEN) > Find(response, CLOSE) {
        issues := issues + [OpenAfterClose];
      }
      if signal != CLOSE && Find(response, CLOSE) >= 0
        && RFind(response, CLOSE) + 8 > RFind(response, signal + opener) {
        issues := issues + [WrapperNotAfter];
      }
    }
    var answer := "";
    if extractAnswer && |issues| > 0 {
      answer := BoxedAnswer.ParseAnswer(response, signal, opener, closer);
    }
    result := FormatResult(|issues| == 0, issues, answer);
  }

  /** As `Issues` for the wrapper `signal + opener`, whose exemption looks at `signal` alone. */
  function SignalIssues(text: string, signal: string, opener: string): seq<Issue> {
    if Count(text, OPEN, 0) != 1 || Count(text, CLOSE, 0) != 1 then [NotOnePair]
    else
      (if Find(text, OPEN) > Find(text, CLOSE) then [OpenAfterClose] else [])
      + (if Find(text, CLOSE) >= 0 && RFind(text, CLOSE) + 8 > RFind(text, signal + opener)
         then [WrapperNotAfter] else [])
  }

  predicate TagFree(s: string) {
    !Occurs(s, OPEN) && !Occurs(s, CLOSE)
  }

  /** `text` is `a <think> b </think> c` with no other tag. */
  predicate Splits(text: string, a: string, b: string, c: string) {
    TagFree(a) && TagFree(b) && TagFree(c) && text == a + OPEN + b + CLOSE + c
  }

  ghost predicate OnlyAt(text: string, part: string, p: nat) {
    At(text, p, part) && forall k: nat | At(text, k, part) :: k == p
  }

  predicate Tag(part: string) {
    part == OPEN || part == CLOSE
  }

  lemma TagStartsOnce(tag: string, i: nat)
    requires Tag(tag) && i < |tag|
    ensures tag[i] == '<' <==> i == 0
  {}

  lemma TagFirst(tag: string, other: string)
    requires Tag(tag) && Tag(other)
    ensures tag != "" && other != "" && tag[0] == other[0] == '<'
    ensures tag[1] == other[1] <==> tag == other
  {}

  /** Tags do not overlap. */
  lemma TagsDoNotOverlap(text: string, i: nat, t: string, k: nat, part: string)
    requires Tag(t) && Tag(part) && At(text, i, t) && At(text, k, part) && i < k
    ensures i + |t| <= k
  {
    hide At, Tag;
    var d: nat := k - i;
    TagFirst(t, part);
    AtIndex(text, k, part, 0);
    if d < |t| {
      AtIndex(text, i, t, d);
      TagStartsOnce(t, d);
      assert false;
    }
  }

  lemma SameTagAt(text: string, i: nat, t: string, part: string)
    requires Tag(t) && Tag(part) && At(text, i, t) && At(text, i, part)
    ensures part == t
  {
    TagFirst(t, part);
    AtIndex(text, i, t, 1);
    AtIndex(text, i, part, 1);
  }

  lemma TagInMiddle(x: string, t: string, y: string)
    ensures At(x + t + y, |x|, t) && (x + t + y)[0..|x|] == x
    ensures (x + t + y)[|x| + |t|..|x + t + y|] == y
  {
    assert (x + t + y)[|x|..|x| + |t|] == t;
  }

  /** In `x + t + y` with tags `part` and `t`, an occurrence of `part` lies in `x`, is `t`, or lies in `y`. */
  lemma TagOccurrence(x: string, t: string, y: string, part: string, k: nat)
    requires Tag(t) && Tag(part) && At(x + t + y, k, part)
    ensures || (k + |part| <= |x| && At(x, k, part))
            || (k == |x| && part == t)
            || (k >= |x| + |t| && At(y, k - |x| - |t|, part))
  {
    var text := x + t + y;
    TagInMiddle(x, t, y);
    AtFits(text, k, part);
    hide At, Tag;
    if k < |x| {
      TagsDoNotOverlap(text, k, part, |x|, t);
      AtInside(text, part, k, 0, |x|);
    } else if k == |x| {
      SameTagAt(text, k, t, part);
    } else {
      TagsDoNotOverlap(text, |x|, t, k, part);
      AtInside(text, part, k - |x| - |t|, |x| + |t|, |text|);
    }
  }

  lemma OtherTagAbsent(x: string, t: string, y: string, part: string)
    requires Tag(t) && Tag(part) && part != t && !Occurs(x, part) && !Occurs(y, part)
    ensures !Occurs(x + t + y, part)
  {
    forall k | 0 <= k <= |x + t + y|
      ensures !At(x + t + y, k, part)
    {
      if At(x + t + y, k, part) {
        TagOccurrence(x, t, y, part, k);
        hide At;
        assert false;
      }
    }
  }

  lemma TagOnlyBetween(x: string, t: string, y: string)
    requires Tag(t) && !Occurs(x, t) && !Occurs(y, t)
    ensures OnlyAt(x + t + y, t, |x|)
  {
    var text := x + t + y;
    assert At(text, |x|, t);
    forall k: nat | At(text, k, t)
      ensures k == |x|
    {
      TagOccurrence(x, t, y, t, k);
      hide At;
    }
  }

  /** A split text has each tag once, where the split says. */
  lemma SplitHasOnePair(text: string, a: string, b: string, c: string)
    requires Splits(text, a, b, c)
    ensures OnlyAt(text, OPEN, |a|) && OnlyAt(text, CLOSE, |a| + |OPEN| + |b|)
  {
    assert text == a + OPEN + (b + CLOSE + c) && text == (a + OPEN + b) + CLOSE + c;
    hide Occurs;
    hide OnlyAt;
    OtherTagAbsent(b, CLOSE, c, OPEN);
    TagOnlyBetween(a, OPEN, b + CLOSE + c);
    OtherTagAbsent(a, OPEN, b, CLOSE);
    TagOnlyBetween(a + OPEN + b, CLOSE, c);
  }

  lemma FindOnly(text: string, part: string, p: nat)
    requires OnlyAt(text, part, p)
    ensures Find(text, part) == p && RFind(text, part) == p
  {
    RFindIs(text, part, p);
  }

  lemma CountOnly(text: string, part: string)
    requires StartsOnce(part)
    ensures Count(text, part, 0) == 1 <==> exists p: nat :: OnlyAt(text, part, p)
  {
    CountOneIff(text, part, 0);
    if Count(text, part, 0) == 1 {
      var p: nat :| 0 <= p && At(text, p, part) && forall k: nat | k >= 0 && At(text, k, part) :: k == p;
      assert OnlyAt(text, part, p);
    }
    if p: nat :| OnlyAt(text, part, p) {
      assert 0 <= p && At(text, p, part) && forall k: nat | k >= 0 && At(text, k, part) :: k == p;
    }
  }

  lemma PieceTagFree(text: string, from: nat, to: nat, p: nat, q: nat)
    requires OnlyAt(text, OPEN, p) && OnlyAt(text, CLOSE, q) && from <= to <= |text|
    requires (p < from || p + |OPEN| > to) && (q < from || q + |CLOSE| > to)
    ensures TagFree(text[from..to])
  {
    hide At;
    forall k | 0 <= k <= to - from
      ensures !At(text[from..to], k, OPEN) && !At(text[from..to], k, CLOSE)
    {
      AtInside(text, OPEN, k, from, to);
      AtInside(text, CLOSE, k, from, to);
    }
  }

  /** A text with one pair of tags in order splits around them. */
  lemma OrderedTagsSplit(text: string, p: nat, q: nat)
    requires OnlyAt(text, OPEN, p) && OnlyAt(text, CLOSE, q) && p <= q
    ensures p + |OPEN| <= q && q + |CLOSE| <= |text|
    ensures Splits(text, text[..p], text[p + |OPEN|..q], text[q + |CLOSE|..])
  {
    TagsApart(text, p, q);
    assert text[p..p + |OPEN|] == OPEN && text[q..q + |CLOSE|] == CLOSE;
    PieceTagFree(text, 0, p, p, q);
    PieceTagFree(text, p + |OPEN|, q, p, q);
    PieceTagFree(text, q + |CLOSE|, |text|, p, q);
    hide TagFree;
    hide OnlyAt;
    var a, b, c := text[..p], text[p + |OPEN|..q], text[q + |CLOSE|..];
    assert text[0..p] == a && text[q + |CLOSE|..|text|] == c;
    assert text == a + text[p..p + |OPEN|] + b + text[q..q + |CLOSE|] + c;
  }

  lemma TagsApart(text: string, p: nat, q: nat)
    requires At(text, p, OPEN) && At(text, q, CLOSE) && p <= q
    ensures p + |OPEN| <= q && q + |CLOSE| <= |text|
  {
    AtIndex(text, q, CLOSE, 0);
    AtIndex(text, q, CLOSE, 1);
    AtIndex(text, p, OPEN, 1);
    if p < q < p + |OPEN| {
      AtIndex(text, p, OPEN, q - p);
      assert false;
    }
  }

  /** On a split text only the wrapper is left to judge. */
  lemma SplitLeavesWrapper(text: string, a: string, b: string, c: string, wrapper: string, offset: nat)
    requires Splits(text, a, b, c)
    ensures Issues(text, wrapper, offset) == [] <==>
      (wrapper != CLOSE ==> RFind(text, wrapper) >= |a| + |OPEN| + |b| + offset)
  {
    SplitHasOnePair(text, a, b, c);
    CountOnly(text, OPEN);
    CountOnly(text, CLOSE);
    FindOnly(text, OPEN, |a|);
    FindOnly(text, CLOSE, |a| + |OPEN| + |b|);
    hide Count;
    hide Find;
    hide RFind;
    hide Splits;
    hide OnlyAt;
  }

  lemma NoIssuesSplit(text: string, wrapper: string, offset: nat) returns (a: string, b: string, c: string)
    requires Issues(text, wrapper, offset) == []
    ensures Splits(text, a, b, c)
  {
    CountOnly(text, OPEN);
    CountOnly(text, CLOSE);
    var p: nat :| OnlyAt(text, OPEN, p);
    var q: nat :| OnlyAt(text, CLOSE, q);
    FindOnly(text, OPEN, p);
    FindOnly(text, CLOSE, q);
    OrderedTagsSplit(text, p, q);
    a, b, c := text[..p], text[p + |OPEN|..q], text[q + |CLOSE|..];
  }

  /** The format check characterised: a response passes exactly when it is one ordered pair of
      tags, and the last wrapper starts `offset` characters or more after the closing tag begins. */
  lemma AcceptedIff(text: string, wrapper: string, offset: nat)
    ensures Issues(text, wrapper, offset) == [] <==>
      exists a, b, c :: Splits(text, a, b, c)
        && (wrapper != CLOSE ==> RFind(text, wrapper) >= |a| + |OPEN| + |b| + offset)
  {
    if Issues(text, wrapper, offset) == [] {
      var a, b, c := NoIssuesSplit(text, wrapper, offset);
      SplitLeavesWrapper(text, a, b, c, wrapper, offset);
      hide *;
    }
    if exists a, b, c :: Splits(text, a, b, c)
        && (wrapper != CLOSE ==> RFind(text, wrapper) >= |a| + |OPEN| + |b| + offset) {
      var a, b, c :| Splits(text, a, b, c)
        && (wrapper != CLOSE ==> RFind(text, wrapper) >= |a| + |OPEN| + |b| + offset);
      SplitLeavesWrapper(text, a, b, c, wrapper, offset);
      hide *;
    }
  }

  /** With offset 8 the wrapper's last occurrence starts in the text after the closing tag. */
  lemma WrapperStartsAfterIff(text: string, a: string, b: string, c: string, wrapper: string)
    requires Splits(text, a, b, c)
    ensures RFind(text, wrapper) >= |a| + |OPEN| + |b| + 8 <==> Occurs(c, wrapper)
  {
    var from := |a| + |OPEN| + |b| + 8;
    assert text[from..|text|] == c;
    if RFind(text, wrapper) >= from {
      AtInside(text, wrapper, RFind(text, wrapper) - from, from, |text|);
    }
    if k :| 0 <= k <= |c| && At(c, k, wrapper) {
      AtInside(text, wrapper, k, from, |text|);
    }
  }

  /** The two offsets disagree on a response only if the wrapper begins with the closing
      tag's own last character and its last occurrence begins there. */
  lemma OffsetsDisagreeIff(text: string, wrapper: string)
    requires wrapper != "" && wrapper != CLOSE
    ensures Issues(text, wrapper, 7) == [] && Issues(text, wrapper, 8) != [] <==>
      exists a, b, c :: Splits(text, a, b, c) && RFind(text, wrapper) == |a| + |OPEN| + |b| + 7
    ensures Issues(text, wrapper, 8) == [] ==> Issues(text, wrapper, 7) == []
  {
    hide Issues;
    hide Splits;
    hide RFind;
    if Issues(text, wrapper, 7) == [] {
      var a, b, c := NoIssuesSplit(text, wrapper, 7);
      SplitLeavesWrapper(text, a, b, c, wrapper, 7);
      SplitLeavesWrapper(text, a, b, c, wrapper, 8);
    }
    if Issues(text, wrapper, 8) == [] {
      var a, b, c := NoIssuesSplit(text, wrapper, 8);
      SplitLeavesWrapper(text, a, b, c, wrapper, 7);
      SplitLeavesWrapper(text, a, b, c, wrapper, 8);
    }
    forall a, b, c | Splits(text, a, b, c) && RFind(text, wrapper) == |a| + |OPEN| + |b| + 7
      ensures Issues(text, wrapper, 7) == [] && Issues(text, wrapper, 8) != []
    {
      SplitLeavesWrapper(text, a, b, c, wrapper, 7);
      SplitLeavesWrapper(text, a, b, c, wrapper, 8);
    }
  }

  /** For `\boxed{` the verifiers accept exactly the same responses, and both accept exactly the
      responses with one ordered pair of tags and a box begun after it. */
  lemma VerifiersAgreeOnBoxed(text: string)
    ensures Issues(text, BoxedAnswer.BOXED, 7) == [] <==> SignalIssues(text, "\\boxed", "{") == []
    ensures Issues(text, BoxedAnswer.BOXED, 7) == [] <==>
      exists a, b, c :: Splits(text, a, b, c) && Occurs(c, BoxedAnswer.BOXED)
  {
    var wrapper := BoxedAnswer.BOXED;
    assert "\\boxed" + "{" == wrapper;
    assert SignalIssues(text, "\\boxed", "{") == Issues(text, wrapper, 8);
    hide Issues;
    hide SignalIssues;
    hide Splits;
    forall a, b, c | Splits(text, a, b, c)
      ensures Issues(text, wrapper, 7) == [] <==> Occurs(c, wrapper)
      ensures Issues(text, wrapper, 8) == [] <==> Occurs(c, wrapper)
    {
      SplitLeavesWrapper(text, a, b, c, wrapper, 7);
      SplitLeavesWrapper(text, a, b, c, wrapper, 8);
      BoxNeverStartsInTag(text, a, b, c);
    }
    hide *;
    if Issues(text, wrapper, 7) == [] {
      var a, b, c := NoIssuesSplit(text, wrapper, 7);
    }
    if Issues(text, wrapper, 8) == [] {
      var a, b, c := NoIssuesSplit(text, wrapper, 8);
    }
  }

  lemma BoxNeverStartsInTag(text: string, a: string, b: string, c: string)
    requires Splits(text, a, b, c)
    ensures var q := |a| + |OPEN| + |b|;
      && (RFind(text, BoxedAnswer.BOXED) >= q + 7 <==> Occurs(c, BoxedAnswer.BOXED))
      && (RFind(text, BoxedAnswer.BOXED) >= q + 8 <==> Occurs(c, BoxedAnswer.BOXED))
  {
    var wrapper, q := BoxedAnswer.BOXED, |a| + |OPEN| + |b|;
    WrapperStartsAfterIff(text, a, b, c, wrapper);
    SplitHasOnePair(text, a, b, c);
    AtIndex(text, q, CLOSE, 7);
    if RFind(text, wrapper) == q + 7 {
      AtIndex(text, q + 7, wrapper, 0);
      assert false;
    }
  }

  /** What `verify_think_format` reports, exemption included. */
  function ThinkIssues(text: string, signal: string, opener: string): seq<Issue> {
    if signal == CLOSE then Issues(text, CLOSE, 8) else SignalIssues(text, signal, opener)
  }

  /** `verify_think_format` accepts exactly the responses with one ordered pair of tags and the wrapper
      begun after it, for any signal and opener; only the signal `</think>` asks for no wrapper. */
  lemma ThinkAcceptedIff(text: string, signal: string, opener: string)
    ensures ThinkIssues(text, signal, opener) == [] <==>
      exists a, b, c :: Splits(text, a, b, c) && (signal == CLOSE || Occurs(c, signal + opener))
  {
    var wrapper := signal + opener;
    forall a, b, c | Splits(text, a, b, c)
      ensures ThinkIssues(text, signal, opener) == [] <==> signal == CLOSE || Occurs(c, wrapper)
    {
      SplitThinks(text, a, b, c, signal, opener);
    }
    hide *;
    if ThinkIssues(text, signal, opener) == [] {
      var a, b, c := ThinkIssuesSplit(text, signal, opener);
    }
  }

  /** The edges: a wrapper that is `</think>` without being the signal is never found, an empty one always. */
  lemma ThinkEdgeCases(text: string, signal: string, opener: string)
    ensures signal != CLOSE && signal + opener == CLOSE ==> ThinkIssues(text, signal, opener) != []
    ensures signal + opener == "" ==>
      (ThinkIssues(text, signal, opener) == [] <==> exists a, b, c :: Splits(text, a, b, c))
  {
    if ThinkIssues(text, signal, opener) == [] {
      var a, b, c := ThinkIssuesSplit(text, signal, opener);
      SplitThinks(text, a, b, c, signal, opener);
    }
    if signal + opener == "" {
      forall a, b, c | Splits(text, a, b, c)
        ensures ThinkIssues(text, signal, opener) == []
      {
        assert At(c, 0, signal + opener);
        SplitThinks(text, a, b, c, signal, opener);
      }
    }
  }

  lemma SplitThinks(text: string, a: string, b: string, c: string, signal: string, opener: string)
    requires Splits(text, a, b, c)
    ensures ThinkIssues(text, signal, opener) == [] <==> signal == CLOSE || Occurs(c, signal + opener)
  {
    var wrapper := signal + opener;
    if signal == CLOSE {
      SplitLeavesWrapper(text, a, b, c, CLOSE, 8);
    } else {
      SignalIssuesSplit(text, a, b, c, signal, opener);
      WrapperStartsAfterIff(text, a, b, c, wrapper);
    }
  }

  lemma SignalIssuesSplit(text: string, a: string, b: string, c: string, signal: string, opener: string)
    requires Splits(text, a, b, c)
    ensures SignalIssues(text, signal, opener) == [] <==> RFind(text, signal + opener) >= |a| + |OPEN| + |b| + 8
  {
    SplitHasOnePair(text, a, b, c);
    CountOnly(text, OPEN);
    CountOnly(text, CLOSE);
    FindOnly(text, OPEN, |a|);
    FindOnly(text, CLOSE, |a| + |OPEN| + |b|);
    hide Count, Find, RFind, Splits, OnlyAt;
  }

  lemma ThinkIssuesSplit(text: string, signal: string, opener: string) returns (a: string, b: string, c: string)
    requires ThinkIssues(text, signal, opener) == []
    ensures Splits(text, a, b, c)
  {
    hide Splits, Count, Find, RFind;
    if signal == CLOSE || Issues(text, signal + opener, 8) == [] {
      a, b, c := NoIssuesSplit(text, if signal == CLOSE then CLOSE else signal + opener, 8);
    } else {
      a, b, c := NoIssuesSplit(text, CLOSE, 8);
    }
  }

  /** What `verify_think_format` extracts. */
  function ThinkAnswer(text: string, signal: string, opener: string, closer: string, extractAnswer: bool): string {
    if extractAnswer && ThinkIssues(text, signal, opener) != [] then BoxedAnswer.AnswerOf(text, signal, opener, closer) else ""
  }

  /** Asked to extract, it gives the answer of a response if and only if it rejects the response, or there is
      no answer to give: an accepted response loses its answer. */
  lemma AnswerGivenIff(text: string, signal: string, opener: string, closer: string)
    ensures ThinkAnswer(text, signal, opener, closer, true) == BoxedAnswer.AnswerOf(text, signal, opener, closer)
      <==> ThinkIssues(text, signal, opener) != [] || BoxedAnswer.AnswerOf(text, signal, opener, closer) == ""
  {}

  lemma AcceptedAnswerIsLost()
    ensures var text := "<think></think>\\boxed{1}";
      && ThinkIssues(text, "\\boxed", "{") == []
      && BoxedAnswer.AnswerOf(text, "\\boxed", "{", "}") == "1"
      && ThinkAnswer(text, "\\boxed", "{", "}", true) == ""
  {
    var text, c := "<think></think>\\boxed{1}", "\\boxed{1}";
    assert c[0..7] == BoxedAnswer.BOXED;
    assert text == "<think></think>" + c;
    BoxOfOne(text);
    EmptyThoughtAccepted(c);
    hide ThinkIssues;
  }

  lemma EmptyThoughtAccepted(c: string)
    requires '<' !in c && At(c, 0, BoxedAnswer.BOXED)
    ensures ThinkIssues("<think></think>" + c, "\\boxed", "{") == []
  {
    var text := "<think></think>" + c;
    assert "\\boxed" + "{" == BoxedAnswer.BOXED;
    assert text == "" + OPEN + "" + CLOSE + c;
    NoAngleTagFree("");
    NoAngleTagFree(c);
    hide TagFree, At;
    SplitThinks(text, "", "", c, "\\boxed", "{");
  }

  lemma NoAngleTagFree(s: string)
    requires '<' !in s
    ensures TagFree(s)
  {
    forall k: nat | k <= |s|
      ensures !At(s, k, OPEN) && !At(s, k, CLOSE)
    {
      if At(s, k, OPEN) { AtIndex(s, k, OPEN, 0); }
      if At(s, k, CLOSE) { AtIndex(s, k, CLOSE, 0); }
    }
  }

  lemma BoxOfOne(text: string)
    requires text == "<think></think>\\boxed{1}"
    ensures BoxedAnswer.AnswerOf(text, "\\boxed", "{", "}") == "1"
  {
    var b := BoxedAnswer.Plain('1', BoxedAnswer.End);
    assert BoxedAnswer.Print(b, BoxedAnswer.BRACES) == "1";
    forall k | 0 <= k <= |"1}"| ensures !At("1}", k, BoxedAnswer.BOXED) {}
    assert "1" + "}" + "" == "1}";
    BoxedAnswer.BoxedContentComesBack("<think></think>", b, "");
    assert text == "<think></think>" + BoxedAnswer.BOXED + "1" + ['}'] + "";
    BoxedAnswer.DefaultsAgree(text);
  }

  /** The offsets do differ in general: `>` as wrapper passes one verifier and not the other. */
  lemma OffsetMatters()
    ensures Issues("<think></think>", ">", 7) == [] && Issues("<think></think>", ">", 8) != []
  {
    var text := "<think></think>";
    assert text == "" + OPEN + "" + CLOSE + "";
    assert TagFree("");
    assert Splits(text, "", "", "");
    assert text[14..15] == ">";
    RFindIs(text, ">", 14);
    OffsetsDisagreeIff(text, ">");
  }

  // ---------------------------------------------------------- the single issues

  /** No occurrence of the wrapper starts at `from` or later. */
  ghost predicate NoneFrom(text: string, wrapper: string, from: nat) {
    forall k: nat | At(text, k, wrapper) :: k < from
  }

  /** The pair of tags is missing, and then nothing else is reported, unless each tag occurs exactly once. */
  lemma NotOnePairIff(text: string, wrapper: string, offset: nat, signal: string, opener: string)
    ensures var once := (exists p: nat :: OnlyAt(text, OPEN, p)) && (exists q: nat :: OnlyAt(text, CLOSE, q));
      && (NotOnePair in Issues(text, wrapper, offset) <==> !once)
      && (NotOnePair in ThinkIssues(text, signal, opener) <==> !once)
      && (!once ==> Issues(text, wrapper, offset) == ThinkIssues(text, signal, opener) == [NotOnePair])
  {
    CountOnly(text, OPEN);
    CountOnly(text, CLOSE);
  }

  /** With the tags at `p` and `q`: the closing one before the opening one, and no wrapper far enough behind the closing
      one; `verify_think_format` exempts the signal `</think>`, `verify_format` the wrapper `</think>`. */
  lemma IssuesAre(text: string, wrapper: string, offset: nat, signal: string, opener: string, p: nat, q: nat)
    requires OnlyAt(text, OPEN, p) && OnlyAt(text, CLOSE, q)
    ensures Issues(text, wrapper, offset) == (if q < p then [OpenAfterClose] else [])
      + (if wrapper != CLOSE && NoneFrom(text, wrapper, q + offset) then [WrapperNotAfter] else [])
    ensures ThinkIssues(text, signal, opener) == (if q < p then [OpenAfterClose] else [])
      + (if signal != CLOSE && NoneFrom(text, signal + opener, q + 8) then [WrapperNotAfter] else [])
  {
    CountOnly(text, OPEN);
    CountOnly(text, CLOSE);
    FindOnly(text, OPEN, p);
    FindOnly(text, CLOSE, q);
    NoneFromIff(text, wrapper, q + offset);
    NoneFromIff(text, signal + opener, q + 8);
    hide Count, Find, RFind, OnlyAt, NoneFrom;
  }

  lemma NoneFromIff(text: string, wrapper: string, from: nat)
    ensures NoneFrom(text, wrapper, from) <==> RFind(text, wrapper) < from
  {}
}
