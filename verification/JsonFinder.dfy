/** Finding top-level JSON objects by brace counting, against a grammar of object texts: balanced braces
    around strings and any other characters, a superset of the objects of RFC 8259. */
module JsonFinder {
  import opened Text
  import opened Wrappers

  // ---------------------------------------------------------------- grammar

  datatype StringChar = Raw(c: char) | Escaped(c: char)

  /** What may stand between the braces of an object: characters without meaning to the
      scan, strings, and nested objects. */
  datatype Body =
    | End
    | Plain(c: char, rest: Body)
    | Quoted(chars: seq<StringChar>, rest: Body)
    | Object(inner: Body, rest: Body)

  predicate Legal(b: Body) {
    match b
    case End => true
    case Plain(c, rest) => c != '"' && c != '{' && c != '}' && Legal(rest)
    case Quoted(chars, rest) => LegalChars(chars) && Legal(rest)
    case Object(inner, rest) => Legal(inner) && Legal(rest)
  }

  predicate LegalChars(chars: seq<StringChar>) {
    forall i | 0 <= i < |chars| :: chars[i].Raw? ==> chars[i].c != '"' && chars[i].c != '\\'
  }

  function Print(b: Body): string
    decreases b, 0
  {
    match b
    case End => ""
    case Plain(c, rest) => [c] + Print(rest)
    case Quoted(chars, rest) => "\"" + PrintChars(chars) + "\"" + Print(rest)
    case Object(inner, rest) => PrintObject(inner) + Print(rest)
  }

  function PrintObject(inner: Body): string
    decreases inner, 1
  {
    "{" + Print(inner) + "}"
  }

  function PrintChars(chars: seq<StringChar>): string {
    if chars == [] then ""
    else (match chars[0] case Raw(c) => [c] case Escaped(c) => ['\\', c]) + PrintChars(chars[1..])
  }

  ghost predicate IsObjectText(s: string) {
    exists inner: Body :: Legal(inner) && s == PrintObject(inner)
  }

  // ------------------------------------------------------------------- scan

  datatype Scan = Scan(depth: nat, inString: bool, escapeNext: bool)

  /** The state after one more character that does not close the object. */
  function Step(s: Scan, ch: char): Scan {
    if s.escapeNext then s.(escapeNext := false)
    else if ch == '\\' && s.inString then s.(escapeNext := true)
    else if ch == '"' then s.(inString := !s.inString)
    else if s.inString then s
    else if ch == '{' then s.(depth := s.depth + 1)
    else if ch == '}' && s.depth > 0 then s.(depth := s.depth - 1)
    else s
  }

  predicate Closes(s: Scan, ch: char) {
    !s.escapeNext && !s.inString && ch == '}' && s.depth == 1
  }

  /** Where the scan, standing at `j`, has just brought the depth back to zero. */
  function Close(text: string, j: nat, s: Scan): (end: Option<nat>)
    requires j <= |text|
    ensures end.Some? ==> j < end.value <= |text|
    decreases |text| - j
  {
    if j == |text| then None
    else if Closes(s, text[j]) then Some(j + 1)
    else Close(text, j + 1, Step(s, text[j]))
  }

  lemma CloseStep(text: string, j: nat, s: Scan)
    requires j < |text| && !Closes(s, text[j])
    ensures Close(text, j, s) == Close(text, j + 1, Step(s, text[j]))
  {}

  function Outside(depth: nat): Scan { Scan(depth, false, false) }
  function Inside(depth: nat): Scan { Scan(depth, true, false) }

  /** The scan passes over a printed string without counting its braces. */
  lemma {:induction false} CloseSkipsChars(text: string, j: nat, chars: seq<StringChar>, d: nat)
    requires LegalChars(chars) && At(text, j, PrintChars(chars) + "\"")
    ensures j + |PrintChars(chars)| + 1 <= |text|
    ensures Close(text, j, Inside(d)) == Close(text, j + |PrintChars(chars)| + 1, Outside(d))
    decreases |chars|
  {
    hide At;
    hide Close;
    AtFits(text, j, PrintChars(chars) + "\"");
    if chars == [] {
      assert PrintChars(chars) + "\"" == ['"'];
      AtChar(text, j, '"');
      CloseStep(text, j, Inside(d));
    } else {
      var rest := PrintChars(chars[1..]) + "\"";
      match chars[0]
      case Raw(c) =>
        assert PrintChars(chars) + "\"" == [c] + rest;
        AtCons(text, j, c, rest);
        CloseStep(text, j, Inside(d));
        CloseSkipsChars(text, j + 1, chars[1..], d);
      case Escaped(c) =>
        assert PrintChars(chars) + "\"" == ['\\'] + ([c] + rest);
        AtCons(text, j, '\\', [c] + rest);
        AtCons(text, j + 1, c, rest);
        CloseStep(text, j, Inside(d));
        CloseStep(text, j + 1, Scan(d, true, true));
        CloseSkipsChars(text, j + 2, chars[1..], d);
    }
  }

  /** Where the parts of a printed body stand, in both directions. */
  lemma EndParts(text: string, j: nat)
    requires j <= |text|
    ensures At(text, j, Print(End)) && |Print(End)| == 0
  {}

  lemma PlainParts(text: string, j: nat, c: char, rest: Body)
    ensures At(text, j, Print(Plain(c, rest))) <==> j < |text| && text[j] == c && At(text, j + 1, Print(rest))
    ensures |Print(Plain(c, rest))| == 1 + |Print(rest)|
  {
    AtCons(text, j, c, Print(rest));
  }

  lemma QuotedParts(text: string, j: nat, chars: seq<StringChar>, rest: Body)
    ensures At(text, j, Print(Quoted(chars, rest))) <==>
      j < |text| && text[j] == '"' && At(text, j + 1, PrintChars(chars) + "\"")
      && At(text, j + 2 + |PrintChars(chars)|, Print(rest))
    ensures |Print(Quoted(chars, rest))| == 2 + |PrintChars(chars)| + |Print(rest)|
  {
    hide At;
    var quoted := PrintChars(chars) + "\"";
    assert Print(Quoted(chars, rest)) == ['"'] + (quoted + Print(rest));
    AtCons(text, j, '"', quoted + Print(rest));
    AtConcat(text, j + 1, quoted, Print(rest));
  }

  lemma ObjectParts(text: string, j: nat, inner: Body, rest: Body)
    ensures At(text, j, Print(Object(inner, rest))) <==>
      At(text, j, PrintObject(inner)) && At(text, j + |PrintObject(inner)|, Print(rest))
    ensures |Print(Object(inner, rest))| == |PrintObject(inner)| + |Print(rest)|
  {
    hide At;
    AtConcat(text, j, PrintObject(inner), Print(rest));
  }

  lemma BraceParts(text: string, j: nat, inner: Body)
    ensures At(text, j, PrintObject(inner)) <==>
      j + 1 + |Print(inner)| < |text| && text[j] == '{' && At(text, j + 1, Print(inner))
      && text[j + 1 + |Print(inner)|] == '}'
    ensures |PrintObject(inner)| == |Print(inner)| + 2
  {
    hide At;
    hide Print;
    assert PrintObject(inner) == ['{'] + (Print(inner) + ['}']);
    AtCons(text, j, '{', Print(inner) + ['}']);
    AtConcat(text, j + 1, Print(inner), ['}']);
    AtChar(text, j + 1 + |Print(inner)|, '}');
  }

  /** The scan passes over a printed body at any positive depth. */
  lemma {:induction false} CloseSkipsBody(text: string, j: nat, b: Body, d: nat)
    requires Legal(b) && d >= 1 && At(text, j, Print(b))
    ensures j + |Print(b)| <= |text|
    ensures Close(text, j, Outside(d)) == Close(text, j + |Print(b)|, Outside(d))
    decreases b, 0
  {
    hide At;
    hide Print;
    hide Close;
    AtFits(text, j, Print(b));
    match b
    case End =>
      EndParts(text, j);
    case Plain(c, rest) =>
      PlainParts(text, j, c, rest);
      CloseStep(text, j, Outside(d));
      CloseSkipsBody(text, j + 1, rest, d);
    case Quoted(chars, rest) =>
      QuotedParts(text, j, chars, rest);
      CloseStep(text, j, Outside(d));
      CloseSkipsChars(text, j + 1, chars, d);
      CloseSkipsBody(text, j + 2 + |PrintChars(chars)|, rest, d);
    case Object(inner, rest) =>
      ObjectParts(text, j, inner, rest);
      CloseSkipsObject(text, j, inner, d);
      CloseSkipsBody(text, j + |PrintObject(inner)|, rest, d);
  }

  lemma {:induction false} CloseSkipsObject(text: string, j: nat, inner: Body, d: nat)
    requires Legal(inner) && d >= 1 && At(text, j, PrintObject(inner))
    ensures j + |PrintObject(inner)| <= |text|
    ensures Close(text, j, Outside(d)) == Close(text, j + |PrintObject(inner)|, Outside(d))
    decreases inner, 1
  {
    hide At;
    hide Print;
    hide Close;
    BraceParts(text, j, inner);
    CloseStep(text, j, Outside(d));
    CloseSkipsBody(text, j + 1, inner, d + 1);
    CloseStep(text, j + 1 + |Print(inner)|, Outside(d + 1));
  }

  lemma CloseOfPrinted(text: string, i: nat, inner: Body)
    requires Legal(inner) && At(text, i, PrintObject(inner))
    ensures Close(text, i, Outside(0)) == Some(i + |PrintObject(inner)|)
  {
    hide At;
    hide Print;
    BraceParts(text, i, inner);
    CloseStep(text, i, Outside(0));
    CloseSkipsBody(text, i + 1, inner, 1);
  }

  /** Conversely, whatever the scan accepts can be read back as a string ... */
  lemma {:induction false} ReadString(text: string, j: nat, d: nat) returns (chars: seq<StringChar>, n: nat)
    requires j <= |text| && Close(text, j, Inside(d)).Some?
    ensures LegalChars(chars) && At(text, j, PrintChars(chars) + "\"") && n == j + |PrintChars(chars)| + 1
    ensures Close(text, j, Inside(d)) == Close(text, n, Outside(d))
    decreases |text| - j
  {
    var ch := text[j];
    CloseStep(text, j, Inside(d));
    if ch == '"' {
      chars, n := [], j + 1;
    } else if ch == '\\' {
      CloseStep(text, j + 1, Scan(d, true, true));
      var more, m := ReadString(text, j + 2, d);
      var c := text[j + 1];
      chars, n := [Escaped(c)] + more, m;
      CharsParts(text, j, Escaped(c), more);
    } else {
      var more, m := ReadString(text, j + 1, d);
      chars, n := [Raw(ch)] + more, m;
      CharsParts(text, j, Raw(ch), more);
    }
  }

  lemma CharsParts(text: string, j: nat, c: StringChar, more: seq<StringChar>)
    requires match c
      case Raw(x) => j < |text| && text[j] == x && At(text, j + 1, PrintChars(more) + "\"")
      case Escaped(x) => j + 1 < |text| && text[j] == '\\' && text[j + 1] == x && At(text, j + 2, PrintChars(more) + "\"")
    ensures At(text, j, PrintChars([c] + more) + "\"")
    ensures |PrintChars([c] + more)| == |PrintChars(more)| + (if c.Raw? then 1 else 2)
  {
    hide At;
    var rest := PrintChars(more) + "\"";
    assert ([c] + more)[1..] == more;
    match c
    case Raw(x) =>
      assert PrintChars([c] + more) + "\"" == [x] + rest;
      AtCons(text, j, x, rest);
    case Escaped(x) =>
      assert PrintChars([c] + more) + "\"" == ['\\'] + ([x] + rest);
      AtCons(text, j + 1, x, rest);
      AtCons(text, j, '\\', [x] + rest);
  }

  /** ... and as a body followed by the brace that leaves its depth. */
  lemma {:induction false} ReadBody(text: string, j: nat, d: nat) returns (b: Body, n: nat)
    requires j <= |text| && d >= 1 && Close(text, j, Outside(d)).Some?
    ensures Legal(b) && At(text, j, Print(b)) && n == j + |Print(b)| < |text| && text[n] == '}'
    ensures Close(text, j, Outside(d)) == Close(text, n, Outside(d))
    decreases |text| - j, 0
  {
    hide At;
    hide Print;
    hide Close;
    var ch := text[j];
    if ch == '}' {
      EndParts(text, j);
      b, n := End, j;
    } else {
      CloseStep(text, j, Outside(d));
      if ch == '"' {
        var chars, m := ReadString(text, j + 1, d);
        var rest, k := ReadBody(text, m, d);
        QuotedParts(text, j, chars, rest);
        b, n := Quoted(chars, rest), k;
      } else if ch == '{' {
        var inner, m := ReadBody(text, j + 1, d + 1);
        BraceParts(text, j, inner);
        CloseStep(text, m, Outside(d + 1));
        b, n := ReadRest(text, j, inner, d);
      } else {
        var rest, k := ReadBody(text, j + 1, d);
        PlainParts(text, j, ch, rest);
        b, n := Plain(ch, rest), k;
      }
    }
  }

  lemma {:induction false} ReadRest(text: string, j: nat, inner: Body, d: nat) returns (b: Body, n: nat)
    requires d >= 1 && Legal(inner) && At(text, j, PrintObject(inner))
    requires Close(text, j + |PrintObject(inner)|, Outside(d)).Some?
    ensures Legal(b) && At(text, j, Print(b)) && n == j + |Print(b)| < |text| && text[n] == '}'
    ensures Close(text, j + |PrintObject(inner)|, Outside(d)) == Close(text, n, Outside(d))
    decreases |text| - j - 1, 1
  {
    hide At;
    hide Print;
    hide Close;
    BraceParts(text, j, inner);
    var rest, k := ReadBody(text, j + |PrintObject(inner)|, d);
    ObjectParts(text, j, inner, rest);
    b, n := Object(inner, rest), k;
  }

  /** The characters of `text` from `i` to `end` are an object. */
  ghost predicate ObjectAt(text: string, i: nat, end: nat) {
    i <= end <= |text| && IsObjectText(text[i..end])
  }

  /** Brace counting from an opening brace finds the object that starts there, if there is one. */
  lemma CloseIsObjectAt(text: string, i: nat, end: nat)
    requires i < |text| && text[i] == '{'
    ensures Close(text, i, Outside(0)) == Some(end) <==> ObjectAt(text, i, end)
  {
    if ObjectAt(text, i, end) {
      var inner :| Legal(inner) && text[i..end] == PrintObject(inner);
      assert At(text, i, PrintObject(inner));
      CloseOfPrinted(text, i, inner);
    }
    if Close(text, i, Outside(0)) == Some(end) {
      var inner, m := ReadBody(text, i + 1, 1);
      BraceParts(text, i, inner);
    }
  }

  lemma ObjectStartsWithBrace(text: string, i: nat, end: nat)
    requires ObjectAt(text, i, end)
    ensures i < |text| && text[i] == '{'
  {
    var inner :| Legal(inner) && text[i..end] == PrintObject(inner);
    assert text[i..end][0] == '{';
  }

  /** No object text is a proper prefix of another: the span found is the only one. */
  lemma ObjectAtUnique(text: string, i: nat, m: nat, n: nat)
    requires ObjectAt(text, i, m) && ObjectAt(text, i, n)
    ensures m == n
  {
    ObjectStartsWithBrace(text, i, m);
    CloseIsObjectAt(text, i, m);
    CloseIsObjectAt(text, i, n);
  }

  // ----------------------------------------------------------------- finder

  function Found(text: string, i: nat): seq<string>
    requires i <= |text|
    decreases |text| - i
  {
    if i == |text| then []
    else if text[i] == '{' && Close(text, i, Outside(0)).Some? then
      var end := Close(text, i, Outside(0)).value;
      [text[i..end]] + Found(text, end)
    else Found(text, i + 1)
  }

  /** `found` lists the leftmost objects of `text` from `i`, each searched for after the one before. */
  ghost predicate LeftmostObjects(text: string, i: nat, found: seq<string>)
    requires i <= |text|
    decreases |text| - i
  {
    if exists end: nat :: ObjectAt(text, i, end) then
      && found != [] && found[0] != ""
      && ObjectAt(text, i, i + |found[0]|) && text[i..i + |found[0]|] == found[0]
      && LeftmostObjects(text, i + |found[0]|, found[1..])
    else if i == |text| then found == []
    else LeftmostObjects(text, i + 1, found)
  }

  lemma {:induction false} FoundIsLeftmost(text: string, i: nat)
    requires i <= |text|
    ensures LeftmostObjects(text, i, Found(text, i))
    decreases |text| - i
  {
    hide Close;
    hide IsObjectText;
    if exists end: nat :: ObjectAt(text, i, end) {
      var end: nat :| ObjectAt(text, i, end);
      ObjectStartsWithBrace(text, i, end);
      CloseIsObjectAt(text, i, end);
      FoundIsLeftmost(text, end);
      assert Found(text, i)[1..] == Found(text, end);
    } else if i < |text| {
      if text[i] == '{' && Close(text, i, Outside(0)).Some? {
        CloseIsObjectAt(text, i, Close(text, i, Outside(0)).value);
        assert false;
      }
      FoundIsLeftmost(text, i + 1);
    }
  }

  method FindJsonObjects(text: string) returns (results: seq<string>)
    ensures results == Found(text, 0)
    ensures LeftmostObjects(text, 0, results)
  {
    hide LeftmostObjects;
    results := [];
    var i := 0;
    while i < |text|
      invariant 0 <= i <= |text|
      invariant results + Found(text, i) == Found(text, 0)
    {
      if text[i] == '{' {
        var depth, inString, escapeNext := 0, false, false;
        var start, j := i, i;
        var found := false;
        while j < |text| && !found
          invariant start <= j <= |text| && depth >= 0
          invariant j == start ==> depth == 0 && !inString && !escapeNext
          invariant j > start && !found ==> depth > 0
          invariant found ==> j < |text| && Close(text, start, Outside(0)) == Some(j + 1)
          invariant !found ==>
            Close(text, start, Outside(0)) == Close(text, j, Scan(depth, inString, escapeNext))
          decreases |text| - j, !found
        {
          var ch := text[j];
          if escapeNext {
            escapeNext, j := false, j + 1;
          } else if ch == '\\' && inString {
            escapeNext, j := true, j + 1;
          } else if ch == '"' && !escapeNext {
            inString, j := !inString, j + 1;
          } else if inString {
            j := j + 1;
          } else if ch == '{' {
            depth, j := depth + 1, j + 1;
          } else if ch == '}' {
            depth := depth - 1;
            if depth == 0 {
              found := true;
            } else {
              j := j + 1;
            }
          } else {
            j := j + 1;
          }
        }
        if found {
          results := results + [text[start..j + 1]];
          i := j;
        }
      }
      i := i + 1;
    }
    FoundIsLeftmost(text, 0);
  }

  // -------------------------------------------------- the finder as inverse

  /** Objects with the text before each of them. */
  datatype Chunk = Chunk(gap: string, inner: Body)

  function PrintChunks(chunks: seq<Chunk>, tail: string): string {
    if chunks == [] then tail
    else chunks[0].gap + (PrintObject(chunks[0].inner) + PrintChunks(chunks[1..], tail))
  }

  function PrintedObjects(chunks: seq<Chunk>): seq<string> {
    if chunks == [] then [] else [PrintObject(chunks[0].inner)] + PrintedObjects(chunks[1..])
  }

  lemma {:induction false} FoundSkipsGap(text: string, i: nat, gap: string)
    requires '{' !in gap && At(text, i, gap)
    ensures Found(text, i) == Found(text, i + |gap|)
    decreases |gap|
  {
    if gap != "" {
      assert gap == [gap[0]] + gap[1..];
      AtCons(text, i, gap[0], gap[1..]);
      FoundSkipsGap(text, i + 1, gap[1..]);
    }
  }

  lemma FoundAfterObject(text: string, i: nat, inner: Body)
    requires Legal(inner) && At(text, i, PrintObject(inner))
    ensures Found(text, i) == [PrintObject(inner)] + Found(text, i + |PrintObject(inner)|)
  {
    BraceParts(text, i, inner);
    CloseOfPrinted(text, i, inner);
  }

  lemma {:induction false} FoundInChunks(text: string, i: nat, chunks: seq<Chunk>, tail: string)
    requires At(text, i, PrintChunks(chunks, tail)) && i + |PrintChunks(chunks, tail)| == |text|
    requires '{' !in tail
    requires forall k | 0 <= k < |chunks| :: '{' !in chunks[k].gap && Legal(chunks[k].inner)
    ensures Found(text, i) == PrintedObjects(chunks)
    decreases |chunks|
  {
    hide At;
    if chunks == [] {
      FoundSkipsGap(text, i, tail);
    } else {
      var gap, first, rest := chunks[0].gap, PrintObject(chunks[0].inner), PrintChunks(chunks[1..], tail);
      AtConcat(text, i, gap, first + rest);
      AtConcat(text, i + |gap|, first, rest);
      FoundSkipsGap(text, i, gap);
      FoundAfterObject(text, i + |gap|, chunks[0].inner);
      FoundInChunks(text, i + |gap| + |first|, chunks[1..], tail);
    }
  }

  /** The finder inverts the printer: brace-free text between printed objects is skipped and
      exactly the objects come back, in order. */
  lemma FinderInvertsPrinter(chunks: seq<Chunk>, tail: string)
    requires '{' !in tail
    requires forall k | 0 <= k < |chunks| :: '{' !in chunks[k].gap && Legal(chunks[k].inner)
    ensures Found(PrintChunks(chunks, tail), 0) == PrintedObjects(chunks)
  {
    FoundInChunks(PrintChunks(chunks, tail), 0, chunks, tail);
  }
}
