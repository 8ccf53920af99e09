/** The settings of `parse_answer` under which no answer can ever be extracted. */
module AnswerSettings {
  import opened Text
  import opened Wrappers
  import opened BoxedAnswer

  /** The closer cannot close: it is no single character, opens, or is itself the marker. */
  predicate NeverCloses(signal: string, opener: string, closer: string) {
    |closer| != 1 || closer == opener || closer == signal + opener
  }

  lemma {:induction false} ClosesAtCloser(text: string, j: nat, depth: nat, opener: string, closer: string)
    requires j <= |text| && Close(text, j, depth, opener, closer).Some?
    ensures var end := Close(text, j, depth, opener, closer).value;
      [text[end]] == closer != opener
    decreases |text| - j
  {
    if text[j] == '\\' && j + 1 < |text| {
      ClosesAtCloser(text, j + 2, depth, opener, closer);
    } else if [text[j]] == opener {
      ClosesAtCloser(text, j + 1, depth + 1, opener, closer);
    } else if [text[j]] != closer {
      ClosesAtCloser(text, j + 1, depth, opener, closer);
    } else if depth > 1 {
      ClosesAtCloser(text, j + 1, depth - 1, opener, closer);
    }
  }

  lemma NothingExtracted(answer: string, signal: string, opener: string, closer: string)
    requires signal != "" && closer != "" && NeverCloses(signal, opener, closer)
    ensures AnswerOf(answer, signal, opener, closer) == ""
  {
    var marker := signal + opener;
    var start := RFind(answer, marker);
    if start >= 0 && Close(answer, start + |marker|, 1, opener, closer).Some? {
      ClosesAtCloser(answer, start + |marker|, 1, opener, closer);
      assert At(answer, Close(answer, start + |marker|, 1, opener, closer).value, closer);
    }
  }

  /** A text that repeats after `d` characters shows only its first `d` characters. */
  lemma {:induction false} Repeats(text: string, d: nat, n: nat) returns (k: nat)
    requires d > 0 && n < |text| && forall i | 0 <= i < |text| - d :: text[i + d] == text[i]
    ensures k < d && k <= n && text[n] == text[k]
    decreases n
  {
    k := n;
    if n >= d {
      k := Repeats(text, d, n - d);
      assert text[n - d + d] == text[n - d];
    }
  }

  lemma OneMarker(marker: string, x: char, closer: char)
    requires marker != "" && marker != [closer]
    requires x != marker[0] && (|marker| > 1 ==> x != marker[1])
    ensures RFind(marker + [x, closer], marker) == 0
  {
    var answer := marker + [x, closer];
    assert At(answer, 0, marker);
    forall k: nat | k > 0
      ensures !At(answer, k, marker)
    {
      if At(answer, k, marker) {
        MarkerRepeats(marker, x, closer, k);
        if |marker| >= k {
          var first := Repeats(marker, k, |marker| - k);
        }
        assert false;
      }
    }
    RFindIs(answer, marker, 0);
  }

  lemma MarkerRepeats(marker: string, x: char, closer: char, k: nat)
    requires marker != "" && k > 0 && At(marker + [x, closer], k, marker)
    ensures k <= 2
    ensures forall i | 0 <= i < |marker| - k :: marker[i + k] == marker[i]
    ensures if |marker| >= k then marker[|marker| - k] == x else marker == [closer]
  {
    var answer := marker + [x, closer];
    forall i | 0 <= i < |marker|
      ensures answer[k + i] == marker[i]
    {
      AtIndex(answer, k, marker, i);
    }
    if |marker| < k {
      assert answer[k] == closer;
    }
  }

  lemma OtherChar(bad: set<char>)
    requires |bad| <= 5
    ensures exists x: char :: x !in bad
  {
    var six := {'a', 'b', 'c', 'd', 'e', 'f'};
    if forall x: char :: x in bad {
      assert six <= bad;
      Subset(six, bad);
    }
  }

  lemma {:induction false} Subset(s: set<char>, t: set<char>)
    requires s <= t
    ensures |s| <= |t|
  {
    if s != {} {
      var x :| x in s;
      Subset(s - {x}, t - {x});
    }
  }

  lemma SomethingExtracted(signal: string, opener: string, closer: string) returns (answer: string)
    requires signal != "" && !NeverCloses(signal, opener, closer)
    ensures AnswerOf(answer, signal, opener, closer) != ""
  {
    var marker, c := signal + opener, closer[0];
    var bad := {'\\', c, marker[0], if |marker| > 1 then marker[1] else c, if |opener| == 1 then opener[0] else c};
    OtherChar(bad);
    var x: char :| x !in bad;
    answer := marker + [x, c];
    OneMarker(marker, x, c);
    CloseAfterOne(answer, |marker|, opener, closer);
  }

  lemma CloseAfterOne(answer: string, j: nat, opener: string, closer: string)
    requires j + 2 == |answer| && closer == [answer[j + 1]] && closer != opener
    requires answer[j] != '\\' && [answer[j]] != opener && [answer[j]] != closer
    ensures Close(answer, j, 1, opener, closer) == Some(j + 1)
  {
    assert Close(answer, j, 1, opener, closer) == Close(answer, j + 1, 1, opener, closer);
  }

  /** With a signal and a closer given: every answer comes out empty if and only if the closer cannot close. */
  lemma AlwaysEmptyIff(signal: string, opener: string, closer: string)
    requires signal != "" && closer != ""
    ensures (forall answer :: AnswerOf(answer, signal, opener, closer) == "") <==> NeverCloses(signal, opener, closer)
  {
    if NeverCloses(signal, opener, closer) {
      forall answer: string
        ensures AnswerOf(answer, signal, opener, closer) == ""
      {
        NothingExtracted(answer, signal, opener, closer);
      }
    } else {
      var answer := SomethingExtracted(signal, opener, closer);
    }
  }

  /** The other settings: without a signal the whole answer comes back; without a closer everything behind the last
      marker, or nothing if there is none. */
  lemma WithoutSignalOrCloser(answer: string, opener: string, closer: string, pre: string, signal: string, rest: string)
    requires signal != ""
    ensures AnswerOf(answer, "", opener, closer) == answer
    ensures answer == pre + (signal + opener) + rest && RFind(answer, signal + opener) == |pre| ==>
      AnswerOf(answer, signal, opener, "") == rest
    ensures !Occurs(answer, signal + opener) ==> AnswerOf(answer, signal, opener, closer) == ""
  {
    var marker := signal + opener;
    if answer == pre + marker + rest {
      assert answer[|pre| + |marker|..] == rest;
    }
  }
}
