/** Extraction of the last delimited answer, such as the content of the final `\boxed{...}`,
    by the escape-aware scanners and by the plain brace counter. */
module BoxedAnswer {
  import opened Text
  import opened Wrappers

  const BOXED := "\\boxed{"

  // ---------------------------------------------------------------- grammar

  /** Balanced content between an opener and a closer; a backslash protects the next character. */
  datatype Body =
    | End
    | Plain(c: char, rest: Body)
    | Escaped(c: char, rest: Body)
    | Group(inner: Body, rest: Body)

  datatype Delimiters = Delimiters(open: char, close: char)

  const BRACES := Delimiters('{', '}')

  /** Delimiters the scanners can tell apart from each other and from the escape. */
  predicate Proper(ds: Delimiters) {
    ds.open != ds.close && ds.open != '\\' && ds.close != '\\'
  }

  predicate Legal(b: Body, ds: Delimiters) {
    match b
    case End => true
    case Plain(c, rest) => c != '\\' && c != ds.open && c != ds.close && Legal(rest, ds)
    case Escaped(_, rest) => Legal(rest, ds)
    case Group(inner, rest) => Legal(inner, ds) && Legal(rest, ds)
  }

  function Print(b: Body, ds: Delimiters): string {
    match b
    case End => ""
    case Plain(c, rest) => [c] + Print(rest, ds)
    case Escaped(c, rest) => ['\\', c] + Print(rest, ds)
    case Group(inner, rest) => [ds.open] + (Print(inner, ds) + ([ds.close] + Print(rest, ds)))
  }

  lemma EndAt(text: string, j: nat, ds: Delimiters)
    requires j <= |text|
    ensures At(text, j, Print(End, ds)) && |Print(End, ds)| == 0
  {}

  lemma PlainAt(text: string, j: nat, c: char, rest: Body, ds: Delimiters)
    ensures At(text, j, Print(Plain(c, rest), ds)) <==>
      j < |text| && text[j] == c && At(text, j + 1, Print(rest, ds))
    ensures |Print(Plain(c, rest), ds)| == 1 + |Print(rest, ds)|
  {
    AtCons(text, j, c, Print(rest, ds));
  }

  lemma EscapedAt(text: string, j: nat, c: char, rest: Body, ds: Delimiters)
    ensures At(text, j, Print(Escaped(c, rest), ds)) <==>
      j + 1 < |text| && text[j] == '\\' && text[j + 1] == c && At(text, j + 2, Print(rest, ds))
    ensures |Print(Escaped(c, rest), ds)| == 2 + |Print(rest, ds)|
  {
    hide At;
    assert Print(Escaped(c, rest), ds) == ['\\'] + ([c] + Print(rest, ds));
    AtCons(text, j, '\\', [c] + Print(rest, ds));
    AtCons(text, j + 1, c, Print(rest, ds));
  }

  lemma GroupAt(text: string, j: nat, inner: Body, rest: Body, ds: Delimiters)
    ensures At(text, j, Print(Group(inner, rest), ds)) <==>
      && j + 1 + |Print(inner, ds)| < |text| && text[j] == ds.open
      && At(text, j + 1, Print(inner, ds))
      && text[j + 1 + |Print(inner, ds)|] == ds.close
      && At(text, j + 2 + |Print(inner, ds)|, Print(rest, ds))
    ensures |Print(Group(inner, rest), ds)| == 2 + |Print(inner, ds)| + |Print(rest, ds)|
  {
    hide At;
    var p, tail := Print(inner, ds), [ds.close] + Print(rest, ds);
    AtCons(text, j, ds.open, p + tail);
    AtConcat(text, j + 1, p, tail);
    AtCons(text, j + 1 + |p|, ds.close, Print(rest, ds));
  }

  // ------------------------------------------------------------------ scans

  /** The position of the closer that matches `depth` openers, escapes skipped. */
  function Close(text: string, j: nat, depth: nat, opener: string, closer: string): (end: Option<nat>)
    requires j <= |text|
    ensures end.Some? ==> j <= end.value < |text|
    decreases |text| - j
  {
    if j == |text| then None
    else if text[j] == '\\' && j + 1 < |text| then Close(text, j + 2, depth, opener, closer)
    else if [text[j]] == opener then Close(text, j + 1, depth + 1, opener, closer)
    else if [text[j]] == closer then
      if depth <= 1 then Some(j) else Close(text, j + 1, depth - 1, opener, closer)
    else Close(text, j + 1, depth, opener, closer)
  }

  function CloseWith(text: string, j: nat, depth: nat, ds: Delimiters): (end: Option<nat>)
    requires j <= |text|
    ensures end.Some? ==> j <= end.value < |text|
  {
    Close(text, j, depth, [ds.open], [ds.close])
  }

  lemma CloseStep(text: string, j: nat, depth: nat, ds: Delimiters)
    requires j < |text| && depth >= 1 && Proper(ds)
    ensures CloseWith(text, j, depth, ds) ==
      if text[j] == '\\' && j + 1 < |text| then CloseWith(text, j + 2, depth, ds)
      else if text[j] == ds.open then CloseWith(text, j + 1, depth + 1, ds)
      else if text[j] != ds.close then CloseWith(text, j + 1, depth, ds)
      else if depth == 1 then Some(j) else CloseWith(text, j + 1, depth - 1, ds)
  {
    assert [text[j]] == [ds.open] <==> text[j] == ds.open;
    assert [text[j]] == [ds.close] <==> text[j] == ds.close;
  }

  lemma {:induction false} CloseSkips(text: string, j: nat, b: Body, depth: nat, ds: Delimiters)
    requires Proper(ds) && Legal(b, ds) && depth >= 1 && At(text, j, Print(b, ds))
    ensures j + |Print(b, ds)| <= |text|
    ensures CloseWith(text, j, depth, ds) == CloseWith(text, j + |Print(b, ds)|, depth, ds)
    decreases b
  {
    hide At;
    hide Print;
    hide CloseWith;
    AtFits(text, j, Print(b, ds));
    match b
    case End =>
      EndAt(text, j, ds);
    case Plain(c, rest) =>
      PlainAt(text, j, c, rest, ds);
      CloseStep(text, j, depth, ds);
      CloseSkips(text, j + 1, rest, depth, ds);
    case Escaped(c, rest) =>
      EscapedAt(text, j, c, rest, ds);
      CloseStep(text, j, depth, ds);
      CloseSkips(text, j + 2, rest, depth, ds);
    case Group(inner, rest) =>
      GroupAt(text, j, inner, rest, ds);
      CloseStep(text, j, depth, ds);
      CloseSkips(text, j + 1, inner, depth + 1, ds);
      CloseStep(text, j + 1 + |Print(inner, ds)|, depth + 1, ds);
      CloseSkips(text, j + 2 + |Print(inner, ds)|, rest, depth, ds);
  }

  /** What the scan accepts can be read back as balanced content before the closer. */
  lemma {:induction false} ReadBody(text: string, j: nat, depth: nat, ds: Delimiters) returns (b: Body, n: nat)
    requires Proper(ds) && j <= |text| && depth >= 1 && CloseWith(text, j, depth, ds).Some?
    ensures Legal(b, ds) && At(text, j, Print(b, ds))
    ensures n == j + |Print(b, ds)| < |text| && text[n] == ds.close
    ensures CloseWith(text, j, depth, ds) ==
      if depth == 1 then Some(n) else CloseWith(text, n + 1, depth - 1, ds)
    decreases |text| - j, 0
  {
    assert j < |text|;
    hide At;
    hide Print;
    hide CloseWith;
    CloseStep(text, j, depth, ds);
    var c := text[j];
    if c == '\\' && j + 1 < |text| {
      var rest, k := ReadBody(text, j + 2, depth, ds);
      EscapedAt(text, j, text[j + 1], rest, ds);
      b, n := Escaped(text[j + 1], rest), k;
    } else if c == ds.open {
      var inner, m := ReadBody(text, j + 1, depth + 1, ds);
      b, n := ReadRest(text, j, inner, m, depth, ds);
    } else if c == ds.close {
      EndAt(text, j, ds);
      b, n := End, j;
    } else {
      var rest, k := ReadBody(text, j + 1, depth, ds);
      if c == '\\' {
        LoneBackslash(text, j, depth, ds);
        assert false;
      }
      PlainAt(text, j, c, rest, ds);
      b, n := Plain(c, rest), k;
    }
  }

  lemma {:induction false} ReadRest(text: string, j: nat, inner: Body, m: nat, depth: nat, ds: Delimiters)
    returns (b: Body, n: nat)
    requires Proper(ds) && depth >= 1 && j < m < |text| && text[j] == ds.open && text[m] == ds.close
    requires Legal(inner, ds) && At(text, j + 1, Print(inner, ds)) && m == j + 1 + |Print(inner, ds)|
    requires CloseWith(text, m + 1, depth, ds).Some?
    ensures Legal(b, ds) && At(text, j, Print(b, ds))
    ensures n == j + |Print(b, ds)| < |text| && text[n] == ds.close
    ensures CloseWith(text, m + 1, depth, ds) ==
      if depth == 1 then Some(n) else CloseWith(text, n + 1, depth - 1, ds)
    decreases |text| - j - 1, 1
  {
    hide At;
    hide Print;
    hide CloseWith;
    var rest;
    rest, n := ReadBody(text, m + 1, depth, ds);
    GroupAt(text, j, inner, rest, ds);
    b := Group(inner, rest);
  }

  lemma LoneBackslash(text: string, j: nat, depth: nat, ds: Delimiters)
    requires Proper(ds) && j + 1 == |text| && depth >= 1 && text[j] == '\\'
    ensures CloseWith(text, j, depth, ds) == None
  {
    CloseStep(text, j, depth, ds);
  }

  /** What the scanners return: the content after the last marker, or nothing. */
  function Extracted(answer: string, marker: string, opener: string, closer: string): string {
    var start := RFind(answer, marker);
    if start == -1 then ""
    else match Close(answer, start + |marker|, 1, opener, closer)
      case None => ""
      case Some(end) => answer[start + |marker|..end]
  }

  /** `parse_answer`, with the degenerate settings its documentation lists. */
  function AnswerOf(answer: string, signal: string, opener: string, closer: string): string {
    if answer == "" then ""
    else if signal == "" then answer
    else
      var start := RFind(answer, signal + opener);
      if start == -1 then ""
      else if closer == "" then answer[start + |signal + opener|..]
      else Extracted(answer, signal + opener, opener, closer)
  }

  method ParseFinalBoxed(answer: string) returns (content: string)
    ensures content == Extracted(answer, BOXED, "{", "}")
  {
    if |answer| == 0 { return ""; }
    var start := RFind(answer, BOXED);
    if start == -1 { return ""; }
    var i := start + |BOXED|;
    var depth := 1;
    var contentStart := i;
    while i < |answer|
      invariant contentStart <= i <= |answer| && depth >= 1
      invariant Close(answer, contentStart, 1, "{", "}") == Close(answer, i, depth, "{", "}")
    {
      var ch := answer[i];
      if ch == '\\' && i + 1 < |answer| {
        i := i + 2;
        continue;
      }
      if ch == '{' {
        depth := depth + 1;
      } else if ch == '}' {
        depth := depth - 1;
        if depth == 0 {
          return answer[contentStart..i];
        }
      }
      i := i + 1;
    }
    return "";
  }

  method ParseAnswer(answer: string, signal: string, opener: string, closer: string) returns (content: string)
    ensures content == AnswerOf(answer, signal, opener, closer)
  {
    if |answer| == 0 { return ""; }
    if |signal| == 0 { return answer; }
    var marker := signal + opener;
    var start := RFind(answer, marker);
    if start == -1 { return ""; }
    var i := start + |marker|;
    var depth := 1;
    var contentStart := i;
    if closer == "" { return answer[contentStart..]; }
    while i < |answer|
      invariant contentStart <= i <= |answer| && depth >= 1
      invariant Close(answer, contentStart, 1, opener, closer) == Close(answer, i, depth, opener, closer)
    {
      var ch := answer[i];
      if ch == '\\' && i + 1 < |answer| {
        i := i + 2;
        continue;
      }
      if [ch] == opener {
        depth := depth + 1;
      } else if [ch] == closer {
        depth := depth - 1;
        if depth == 0 {
          return answer[contentStart..i];
        }
      }
      i := i + 1;
    }
    return "";
  }

  // ------------------------------------------------------------ correctness

  /** `answer` closes the block its last marker opens, and `b` is what the block holds. */
  ghost predicate Holds(answer: string, marker: string, ds: Delimiters, pre: string, b: Body, post: string) {
    && Legal(b, ds)
    && answer == pre + marker + Print(b, ds) + [ds.close] + post
    && RFind(answer, marker) == |pre|
  }

  /** Extraction inverts printing: the content of the last block comes back whole. */
  lemma ExtractedIsContent(answer: string, marker: string, ds: Delimiters, pre: string, b: Body, post: string)
    requires Proper(ds) && Holds(answer, marker, ds, pre, b, post)
    ensures Extracted(answer, marker, [ds.open], [ds.close]) == Print(b, ds)
  {
    hide Print, Legal, RFind, At, Holds, Extracted, CloseWith, Close;
    var p := Print(b, ds);
    var from := |pre| + |marker|;
    HoldsWithin(answer, marker, ds, pre, b, post);
    CloseSkips(answer, from, b, 1, ds);
    CloseStep(answer, from + |p|, 1, ds);
    ExtractedTo(answer, marker, ds, from + |p|);
  }

  lemma HoldsWithin(answer: string, marker: string, ds: Delimiters, pre: string, b: Body, post: string)
    requires Holds(answer, marker, ds, pre, b, post)
    ensures var p, from := Print(b, ds), |pre| + |marker|;
      && Legal(b, ds) && RFind(answer, marker) == |pre| && At(answer, |pre|, marker)
      && At(answer, from, p) && from + |p| < |answer|
      && answer[from..from + |p|] == p && answer[from + |p|] == ds.close
  {
    hide Print, Legal, RFind;
    var p := Print(b, ds);
    Pieces(pre, marker, p, ds.close, post);
  }

  lemma Pieces(pre: string, marker: string, p: string, c: char, post: string)
    ensures var all, from := pre + marker + p + [c] + post, |pre| + |marker|;
      from + |p| < |all| && all[from..from + |p|] == p && all[from + |p|] == c
  {}

  lemma ExtractedTo(answer: string, marker: string, ds: Delimiters, end: nat)
    requires RFind(answer, marker) >= 0 && RFind(answer, marker) + |marker| <= end < |answer|
    requires CloseWith(answer, RFind(answer, marker) + |marker|, 1, ds) == Some(end)
    ensures Extracted(answer, marker, [ds.open], [ds.close]) == answer[RFind(answer, marker) + |marker|..end]
  {
    hide RFind, Close;
  }

  /** Conversely, a non-empty result is the content of a closed last block. */
  lemma ExtractedOnlyContent(answer: string, marker: string, ds: Delimiters)
    returns (pre: string, b: Body, post: string)
    requires Proper(ds) && marker != "" && Extracted(answer, marker, [ds.open], [ds.close]) != ""
    ensures Holds(answer, marker, ds, pre, b, post)
    ensures Extracted(answer, marker, [ds.open], [ds.close]) == Print(b, ds)
  {
    var start := RFind(answer, marker);
    var from := start + |marker|;
    assert CloseWith(answer, from, 1, ds).Some?;
    var n;
    b, n := ReadBody(answer, from, 1, ds);
    pre, post := answer[..start], answer[n + 1..];
    hide Close;
    hide Legal;
    Decompose(answer, start, from, n);
  }

  lemma Decompose(s: string, i: nat, j: nat, n: nat)
    requires i <= j <= n < |s|
    ensures s == s[..i] + s[i..j] + s[j..n] + [s[n]] + s[n + 1..]
  {}

  /** `parse_answer` with its default arguments is `parse_final_boxed`, on every string. */
  lemma DefaultsAgree(answer: string)
    ensures AnswerOf(answer, "\\boxed", "{", "}") == Extracted(answer, BOXED, "{", "}")
  {
    assert "\\boxed" + "{" == BOXED;
    assert answer == "" ==> RFind(answer, BOXED) == -1;
  }

  /** For `\boxed{`, no later marker in the content or after it is all that is asked. */
  lemma BoxedContentComesBack(pre: string, b: Body, post: string)
    requires Legal(b, BRACES)
    requires !Occurs(Print(b, BRACES) + "}" + post, BOXED)
    ensures Holds(pre + BOXED + Print(b, BRACES) + ['}'] + post, BOXED, BRACES, pre, b, post)
    ensures Extracted(pre + BOXED + Print(b, BRACES) + ['}'] + post, BOXED, "{", "}") == Print(b, BRACES)
  {
    var tail := Print(b, BRACES) + "}" + post;
    var answer := pre + BOXED + Print(b, BRACES) + ['}'] + post;
    assert answer == pre + BOXED + tail;
    LastMarker(pre, BOXED, tail);
    ExtractedIsContent(answer, BOXED, BRACES, pre, b, post);
  }

  lemma LastMarker(pre: string, marker: string, tail: string)
    requires StartsOnce(marker) && !Occurs(tail, marker)
    ensures RFind(pre + marker + tail, marker) == |pre|
  {
    var text := pre + marker + tail;
    var from := |pre| + |marker|;
    assert text[|pre|..from] == marker;
    assert text[from..|text|] == tail;
    forall k: nat | k > |pre|
      ensures !At(text, k, marker)
    {
      if k >= from {
        AtInside(text, marker, k - from, from, |text|);
      } else if At(text, k, marker) {
        NoOverlap(text, marker, |pre|, k);
      }
    }
    RFindIs(text, marker, |pre|);
  }

  // ------------------------------------------------- the plain brace counter

  /** The closing brace a counter that knows no escapes stops at. */
  function PlainClose(text: string, i: nat, depth: int): (end: Option<nat>)
    requires i <= |text|
    ensures end.Some? ==> i <= end.value < |text| && text[end.value] == '}'
    decreases |text| - i
  {
    if i == |text| then None
    else if text[i] == '{' then PlainClose(text, i + 1, depth + 1)
    else if text[i] == '}' then
      if depth == 1 then Some(i) else PlainClose(text, i + 1, depth - 1)
    else PlainClose(text, i + 1, depth)
  }

  function LastBoxed(text: string): (boxed: Option<string>) {
    var idx := RFind(text, BOXED);
    if idx < 0 then None
    else match PlainClose(text, idx, 0)
      case None => None
      case Some(end) => Some(text[idx..end + 1])
  }

  method LastBoxedOnlyString(text: string) returns (boxed: Option<string>)
    ensures boxed == LastBoxed(text)
  {
    var idx := RFind(text, BOXED);
    if idx < 0 { return None; }
    var i := idx;
    var rightBrace: Option<nat> := None;
    var open := 0;
    while i < |text|
      invariant idx <= i <= |text|
      invariant PlainClose(text, idx, 0) == PlainClose(text, i, open)
    {
      if text[i] == '{' {
        open := open + 1;
      }
      if text[i] == '}' {
        open := open - 1;
        if open == 0 {
          rightBrace := Some(i);
          break;
        }
      }
      i := i + 1;
    }
    boxed := match rightBrace case None => None case Some(end) => Some(text[idx..end + 1]);
  }

  /** Stripping `\boxed{` and the final brace; `None` where the original's assertions fail. */
  function RemoveBoxed(s: string): Option<string> {
    if |BOXED| <= |s| && s[..|BOXED|] == BOXED && s[|s| - 1] == '}'
    then Some(if |s| == |BOXED| then "" else s[|BOXED|..|s| - 1])
    else None
  }

  /** The strict-box answer: the last boxed expression, stripped. */
  function StrictBoxAnswer(text: string): Option<string> {
    match LastBoxed(text)
    case None => None
    case Some(s) => RemoveBoxed(s)
  }

  /** Whatever the counter finds can be stripped: the assertions in `remove_boxed` never fail on it. */
  lemma FoundBoxStrips(text: string)
    requires LastBoxed(text).Some?
    ensures RemoveBoxed(LastBoxed(text).value).Some?
  {
    var idx := RFind(text, BOXED);
    PlainCloseSkipsMarker(text, idx);
    BoxStrips(text, idx, PlainClose(text, idx, 0).value);
  }

  lemma BoxStrips(text: string, idx: nat, end: nat)
    requires At(text, idx, BOXED) && idx + |BOXED| <= end < |text| && text[end] == '}'
    ensures RemoveBoxed(text[idx..end + 1]) == Some(text[idx + |BOXED|..end])
  {
    var s := text[idx..end + 1];
    SliceOfSlice(text, idx, end + 1, 0, |BOXED|);
    SliceOfSlice(text, idx, end + 1, |BOXED|, |s| - 1);
    assert s[0..|BOXED|] == s[..|BOXED|];
  }

  lemma SliceOfSlice(text: string, i: nat, j: nat, from: nat, to: nat)
    requires i <= j <= |text| && from <= to <= j - i
    ensures text[i..j][from..to] == text[i + from..i + to]
  {
    var a, b := text[i..j][from..to], text[i + from..i + to];
    forall k | 0 <= k < to - from
      ensures a[k] == b[k]
    {
      assert a[k] == text[i..j][from + k] == text[i + (from + k)];
    }
  }

  lemma PlainCloseSkipsMarker(text: string, idx: nat)
    requires At(text, idx, BOXED)
    ensures PlainClose(text, idx, 0) == PlainClose(text, idx + |BOXED|, 1)
  {
    assert BOXED == "\\boxed" + ['{'];
    AtConcat(text, idx, "\\boxed", ['{']);
    AtChar(text, idx + 6, '{');
    PlainCloseFlat(text, idx, "\\boxed", 0);
  }

  lemma {:induction false} PlainCloseFlat(text: string, i: nat, flat: string, depth: int)
    requires At(text, i, flat) && '{' !in flat && '}' !in flat
    ensures PlainClose(text, i, depth) == PlainClose(text, i + |flat|, depth)
    decreases |flat|
  {
    if flat != "" {
      assert flat == [flat[0]] + flat[1..];
      AtCons(text, i, flat[0], flat[1..]);
      PlainCloseFlat(text, i + 1, flat[1..], depth);
    }
  }

  /** Every brace counted, escaped or not, from `depth` opened ones: the count stays positive and ends at one. */
  predicate PlainlyBalanced(p: string, depth: nat) {
    if p == "" then depth == 1
    else if p[0] == '{' then PlainlyBalanced(p[1..], depth + 1)
    else if p[0] == '}' then depth > 1 && PlainlyBalanced(p[1..], depth - 1)
    else PlainlyBalanced(p[1..], depth)
  }

  /** The counter stops at the brace behind `p` exactly when `p` is plainly balanced. */
  lemma {:induction false} PlainCloseIff(text: string, j: nat, p: string, depth: nat)
    requires depth >= 1 && At(text, j, p) && j + |p| < |text| && text[j + |p|] == '}'
    ensures PlainClose(text, j, depth) == Some(j + |p|) <==> PlainlyBalanced(p, depth)
    decreases |p|
  {
    if p != "" {
      assert p == [p[0]] + p[1..];
      AtCons(text, j, p[0], p[1..]);
      if p[0] == '{' {
        PlainCloseIff(text, j + 1, p[1..], depth + 1);
      } else if p[0] != '}' {
        PlainCloseIff(text, j + 1, p[1..], depth);
      } else if depth > 1 {
        PlainCloseIff(text, j + 1, p[1..], depth - 1);
      }
    }
  }

  /** For a closed box, both extractors give the same content exactly when the content is plainly balanced. */
  lemma ClosedBoxAgreesIff(answer: string, pre: string, b: Body, post: string)
    requires Holds(answer, BOXED, BRACES, pre, b, post)
    ensures StrictBoxAnswer(answer) == Some(Extracted(answer, BOXED, "{", "}")) <==> PlainlyBalanced(Print(b, BRACES), 1)
  {
    hide Print, Legal, RFind, At, Holds, Extracted, PlainClose, PlainlyBalanced, StrictBoxAnswer;
    var p := Print(b, BRACES);
    var from := |pre| + |BOXED|;
    ExtractedIsContent(answer, BOXED, BRACES, pre, b, post);
    HoldsWithin(answer, BOXED, BRACES, pre, b, post);
    PlainCloseSkipsMarker(answer, |pre|);
    PlainCloseIff(answer, from, p, 1);
    StrictBoxIs(answer, |pre|);
  }

  /** On every answer: the extractors agree if and only if the last box is closed and its content plainly balanced. */
  lemma ExtractorsAgreeIff(answer: string)
    ensures StrictBoxAnswer(answer) == Some(Extracted(answer, BOXED, "{", "}")) <==>
      exists pre, b, post :: Holds(answer, BOXED, BRACES, pre, b, post) && PlainlyBalanced(Print(b, BRACES), 1)
  {
    if StrictBoxAnswer(answer) == Some(Extracted(answer, BOXED, "{", "}")) {
      var pre, b, post := AgreedBoxIsClosed(answer);
      ClosedBoxAgreesIff(answer, pre, b, post);
    }
    if pre, b, post :| Holds(answer, BOXED, BRACES, pre, b, post) && PlainlyBalanced(Print(b, BRACES), 1) {
      ClosedBoxAgreesIff(answer, pre, b, post);
    }
  }

  lemma AgreedBoxIsClosed(answer: string) returns (pre: string, b: Body, post: string)
    requires StrictBoxAnswer(answer) == Some(Extracted(answer, BOXED, "{", "}"))
    ensures Holds(answer, BOXED, BRACES, pre, b, post)
  {
    if Extracted(answer, BOXED, "{", "}") != "" {
      pre, b, post := ExtractedOnlyContent(answer, BOXED, BRACES);
    } else {
      var idx := RFind(answer, BOXED);
      StrictBoxIs(answer, idx);
      PlainCloseSkipsMarker(answer, idx);
      var from := idx + |BOXED|;
      pre, b, post := answer[..idx], End, answer[from + 1..];
      assert answer[idx..from] == BOXED && answer[from] == '}';
      assert answer == answer[..idx] + answer[idx..from] + [answer[from]] + answer[from + 1..];
    }
  }

  /** Once no escape hides a brace, that is always so. */
  lemma {:induction false} ShownBracesBalance(b: Body, depth: nat, rest: string)
    requires Legal(b, BRACES) && ShowsBraces(b) && depth >= 1
    ensures PlainlyBalanced(Print(b, BRACES) + rest, depth) <==> PlainlyBalanced(rest, depth)
    decreases b
  {
    hide Print, PlainlyBalanced;
    PrintWith(b, rest);
    match b
    case End =>
    case Plain(c, more) =>
      ShownBracesBalance(more, depth, rest);
      BalanceStep(c, Print(more, BRACES) + rest, depth);
    case Escaped(c, more) =>
      ShownBracesBalance(more, depth, rest);
      BalanceStep(c, Print(more, BRACES) + rest, depth);
      BalanceStep('\\', [c] + (Print(more, BRACES) + rest), depth);
    case Group(inner, more) =>
      var tail := Print(more, BRACES) + rest;
      ShownBracesBalance(more, depth, rest);
      ShownBracesBalance(inner, depth + 1, ['}'] + tail);
      BalanceStep('}', tail, depth + 1);
      BalanceStep('{', Print(inner, BRACES) + (['}'] + tail), depth);
  }

  lemma PrintWith(b: Body, rest: string)
    ensures Print(b, BRACES) + rest == match b
      case End => rest
      case Plain(c, more) => [c] + (Print(more, BRACES) + rest)
      case Escaped(c, more) => ['\\'] + ([c] + (Print(more, BRACES) + rest))
      case Group(inner, more) => ['{'] + (Print(inner, BRACES) + (['}'] + (Print(more, BRACES) + rest)))
  {
    match b
    case End =>
    case Plain(c, more) =>
      JoinTwo([c], Print(more, BRACES), rest);
    case Escaped(c, more) =>
      assert ['\\', c] == ['\\'] + [c];
      JoinTwo(['\\'] + [c], Print(more, BRACES), rest);
      JoinTwo(['\\'], [c], Print(more, BRACES) + rest);
    case Group(inner, more) =>
      var tail := ['}'] + Print(more, BRACES);
      JoinTwo(['{'], Print(inner, BRACES) + tail, rest);
      JoinTwo(Print(inner, BRACES), tail, rest);
      JoinTwo(['}'], Print(more, BRACES), rest);
  }

  lemma JoinTwo(a: string, b: string, c: string)
    ensures (a + b) + c == a + (b + c)
  {}

  lemma BalanceStep(c: char, p: string, depth: nat)
    ensures PlainlyBalanced([c] + p, depth) <==>
      if c == '{' then PlainlyBalanced(p, depth + 1)
      else if c == '}' then depth > 1 && PlainlyBalanced(p, depth - 1)
      else PlainlyBalanced(p, depth)
  {
    assert ([c] + p)[1..] == p;
  }

  /** No escape hides a brace. */
  predicate ShowsBraces(b: Body) {
    match b
    case End => true
    case Plain(_, rest) => ShowsBraces(rest)
    case Escaped(c, rest) => c != '{' && c != '}' && ShowsBraces(rest)
    case Group(inner, rest) => ShowsBraces(inner) && ShowsBraces(rest)
  }

  /** In particular both give the same content when no escape hides a brace and the box is closed. */
  lemma ExtractorsAgree(answer: string, pre: string, b: Body, post: string)
    requires Holds(answer, BOXED, BRACES, pre, b, post) && ShowsBraces(b)
    ensures StrictBoxAnswer(answer) == Some(Extracted(answer, BOXED, "{", "}"))
  {
    ShownBracesBalance(b, 1, "");
    assert Print(b, BRACES) + "" == Print(b, BRACES);
    hide *;
    ClosedBoxAgreesIff(answer, pre, b, post);
    EmptyIsBalanced();
  }

  lemma EmptyIsBalanced()
    ensures PlainlyBalanced("", 1)
  {}

  /** The strict-box answer runs to where the counter stops. */
  lemma StrictBoxIs(answer: string, idx: int)
    requires idx == RFind(answer, BOXED)
    ensures StrictBoxAnswer(answer).Some? <==> idx >= 0 && PlainClose(answer, idx, 0).Some?
    ensures StrictBoxAnswer(answer).Some? ==>
      var end := PlainClose(answer, idx, 0).value;
      idx + |BOXED| <= end && StrictBoxAnswer(answer) == Some(answer[idx + |BOXED|..end])
  {
    if idx >= 0 && PlainClose(answer, idx, 0).Some? {
      PlainCloseSkipsMarker(answer, idx);
      BoxStrips(answer, idx, PlainClose(answer, idx, 0).value);
    }
  }

  /** They do disagree: on `\boxed{\}}` the plain counter stops at the escaped brace. */
  lemma HiddenBraceDisagrees()
    ensures Extracted("\\boxed{\\}}", BOXED, "{", "}") == "\\}"
    ensures StrictBoxAnswer("\\boxed{\\}}") == Some("\\")
  {
    var answer := "\\boxed{\\}}";
    var b := Escaped('}', End);
    assert Print(b, BRACES) == "\\}";
    assert StartsOnce(BOXED);
    forall k | 0 <= k <= |"\\}}"| ensures !At("\\}}", k, BOXED) {}
    assert "" + BOXED + Print(b, BRACES) + ['}'] + "" == answer;
    assert Print(b, BRACES) + "}" + "" == "\\}}";
    BoxedContentComesBack("", b, "");
    hide *;
    HiddenBraceStops(answer);
  }

  lemma HiddenBraceStops(answer: string)
    requires answer == "\\boxed{\\}}" && RFind(answer, BOXED) == 0
    ensures StrictBoxAnswer(answer) == Some("\\")
  {
    assert answer[0..7] == BOXED;
    PlainCloseSkipsMarker(answer, 0);
    assert PlainClose(answer, 7, 1) == PlainClose(answer, 8, 1) == Some(8);
    StrictBoxIs(answer, 0);
    assert answer[7..8] == "\\";
  }
}
