/** Finding the JSON array in a model's answer (src/agentic-draft-common.js:216-278).
    `isArray` stands for `JSON.parse` succeeding with an array. */
module ArrayExtract {
  import opened Wrappers
  import opened JsonText
  import opened BracketScan
  import SpanText

  /** Text whose square and curly brackets, outside strings in either quote, balance first at its end. */
  ghost predicate IsSpan(text: string) {
    SpanText.Balanced(Lexicon({'"', '\''}, {'[', '{'}, {']', '}'}), text)
  }

  /** The span and where to resume the search. `None` when the bracket is never closed. */
  method BalancedBracketSpanAt(s: string, start: nat) returns (r: Option<(string, nat)>)
    requires start < |s|
    ensures r.Some? <==> SpanEnd(ARRAY_LEXICON, s, start).Some?
    ensures r.Some? ==> r.value == (s[start..SpanEnd(ARRAY_LEXICON, s, start).value], start + 1)
  {
    var depth := 0;
    var inString: Option<char> := None;
    var i := start;
    while i < |s|
      invariant start <= i <= |s| + 1
      invariant SpanEnd(ARRAY_LEXICON, s, start)
             == if i <= |s| then CloseIndex(ARRAY_LEXICON, s[i..], depth, inString, i) else None
    {
      var ch := s[i];
      assert s[i..][0] == ch && s[i..][1..] == s[i + 1..];
      if inString.Some? {
        if ch == '\\' {
          assert i + 1 < |s| ==> s[i..][2..] == s[i + 2..];
          i := i + 2;
          continue;
        }
        if ch == inString.value {
          inString := None;
        }
        i := i + 1;
        continue;
      }
      if ch == '"' || ch == '\'' {
        inString := Some(ch);
        i := i + 1;
        continue;
      }
      if ch == '[' || ch == '{' {
        depth := depth + 1;
      } else if ch == ']' || ch == '}' {
        depth := depth - 1;
        if depth == 0 {
          return Some((s[start..i + 1], start + 1));
        }
      }
      i := i + 1;
    }
    return None;
  }

  /** The search goes on past `k`: no bracket there, or a closed span that is not an array. */
  ghost predicate PassedOver(isArray: string -> bool, s: string, k: nat)
    requires k < |s|
  {
    s[k] == '[' ==>
      var end := SpanEnd(ARRAY_LEXICON, s, k);
      end.Some? && !isArray(s[k..end.value])
  }

  /** An array span starts at `a`, and every earlier `[` was passed over. */
  ghost predicate FoundAt(isArray: string -> bool, s: string, a: nat) {
    && a < |s| && s[a] == '['
    && SpanEnd(ARRAY_LEXICON, s, a).Some?
    && isArray(s[a..SpanEnd(ARRAY_LEXICON, s, a).value])
    && forall k :: 0 <= k < a ==> PassedOver(isArray, s, k)
  }

  /** There is a span at `k`, one that is an array or not. */
  ghost predicate SpanAt(isArray: string -> bool, s: string, k: nat, wanted: bool) {
    exists end: nat :: k < end <= |s| && IsSpan(s[k..end]) && isArray(s[k..end]) == wanted
  }

  /** Where the array is found, without the scanner: the first `[` that a span starts at which is an
      array, if all the earlier ones start spans that are not. */
  lemma FoundAtIff(isArray: string -> bool, s: string, a: nat)
    ensures FoundAt(isArray, s, a) <==>
            && a < |s| && s[a] == '[' && SpanAt(isArray, s, a, true)
            && forall k: nat :: k < a && s[k] == '[' ==> SpanAt(isArray, s, k, false)
  {
    if a < |s| {
      SpanAtIsScanned(isArray, s, a, true);
      forall k: nat | k < a
        ensures PassedOver(isArray, s, k) <==> (s[k] == '[' ==> SpanAt(isArray, s, k, false))
      {
        SpanAtIsScanned(isArray, s, k, false);
      }
    }
  }

  lemma SpanAtIsScanned(isArray: string -> bool, s: string, k: nat, wanted: bool)
    requires k < |s|
    ensures SpanAt(isArray, s, k, wanted) <==>
              SpanEnd(ARRAY_LEXICON, s, k).Some? && isArray(s[k..SpanEnd(ARRAY_LEXICON, s, k).value]) == wanted
  {
    forall end: nat
      ensures SpanEnd(ARRAY_LEXICON, s, k) == Some(end) <==> k < end <= |s| && IsSpan(s[k..end])
    {
      SpanText.SpanEndIff(ARRAY_LEXICON, s, k, end);
    }
  }

  /** What the search must return. */
  ghost function FirstArray(isArray: string -> bool, s: string): Option<string> {
    if exists a: nat :: FoundAt(isArray, s, a) then
      var a: nat :| FoundAt(isArray, s, a);
      Some(s[a..SpanEnd(ARRAY_LEXICON, s, a).value])
    else None
  }

  lemma FoundAtIsUnique(isArray: string -> bool, s: string, a: nat, b: nat)
    requires FoundAt(isArray, s, a) && FoundAt(isArray, s, b)
    ensures a == b
  {
    assert a < b ==> PassedOver(isArray, s, a);
    assert b < a ==> PassedOver(isArray, s, b);
  }

  /** An unclosed `[` ends the search with nothing, whatever comes later. */
  lemma UnclosedBracketGivesUp(isArray: string -> bool, s: string, k: nat)
    requires k < |s| && s[k] == '[' && SpanEnd(ARRAY_LEXICON, s, k) == None
    requires forall j :: 0 <= j < k ==> PassedOver(isArray, s, j)
    ensures FirstArray(isArray, s) == None
  {
    forall a: nat
      ensures !FoundAt(isArray, s, a)
    {
      assert a < k ==> PassedOver(isArray, s, a);
      assert a > k && FoundAt(isArray, s, a) ==> PassedOver(isArray, s, k);
    }
  }

  /** `s.indexOf(ch, from)`; -1 when there is none. */
  method IndexOf(s: string, ch: char, from: nat) returns (i: int)
    requires from <= |s|
    ensures i == -1 || (from <= i < |s| && s[i] == ch)
    ensures forall k :: from <= k < (if i == -1 then |s| else i) ==> s[k] != ch
  {
    i := from;
    while i < |s|
      invariant from <= i <= |s|
      invariant forall k :: from <= k < i ==> s[k] != ch
    {
      if s[i] == ch {
        return;
      }
      i := i + 1;
    }
    i := -1;
  }

  method ExtractFirstJsonArray(isArray: string -> bool, s: string) returns (r: Option<string>)
    ensures r == FirstArray(isArray, s)
  {
    var from := 0;
    while true
      invariant from <= |s|
      invariant forall k :: 0 <= k < from ==> PassedOver(isArray, s, k)
      decreases |s| - from
    {
      var start := IndexOf(s, '[', from);
      if start == -1 {
        forall a: nat
          ensures !FoundAt(isArray, s, a)
        {
          assert a < |s| ==> PassedOver(isArray, s, a);
        }
        return None;
      }
      assert forall k :: 0 <= k < start ==> PassedOver(isArray, s, k);
      var span := BalancedBracketSpanAt(s, start);
      if span.None? {
        UnclosedBracketGivesUp(isArray, s, start);
        return None;
      }
      if isArray(span.value.0) {
        assert FoundAt(isArray, s, start);
        forall a: nat | FoundAt(isArray, s, a)
          ensures a == start
        {
          FoundAtIsUnique(isArray, s, a, start);
        }
        return Some(span.value.0);
      }
      from := span.value.1;
    }
  }

  /** Scan/print round trip, exactly: an array printed anywhere in the text is found at its own
      place if and only if every earlier `[` opens a span that is closed and is not an array. */
  lemma PrintedArrayFoundIff(isArray: string -> bool, before: string, v: Value, after: string)
    requires Valid(v) && v.Array? && isArray(Print(v))
    ensures FoundAt(isArray, before + Print(v) + after, |before|) <==>
            forall k :: 0 <= k < |before| ==> PassedOver(isArray, before + Print(v) + after, k)
  {
    var s := before + Print(v) + after;
    SpanIsPrintedValue(ARRAY_LEXICON, before, v, after);
    assert s[|before|..|before| + |Print(v)|] == Print(v);
    assert s[|before|] == Print(v)[0] == '[';
  }

  /** With no `[` before it, a printed array comes back exactly, whatever follows. */
  lemma RoundTrip(isArray: string -> bool, before: string, v: Value, after: string)
    requires Valid(v) && v.Array? && isArray(Print(v))
    requires '[' !in before
    ensures FirstArray(isArray, before + Print(v) + after) == Some(Print(v))
  {
    var s := before + Print(v) + after;
    forall k | 0 <= k < |before|
      ensures PassedOver(isArray, s, k)
    {
      assert s[k] == before[k];
    }
    FoundArrayIsReturned(isArray, before, v, after);
  }

  /** When every earlier bracket is passed over, the printed array is what is returned. */
  lemma FoundArrayIsReturned(isArray: string -> bool, before: string, v: Value, after: string)
    requires Valid(v) && v.Array? && isArray(Print(v))
    requires forall k :: 0 <= k < |before| ==> PassedOver(isArray, before + Print(v) + after, k)
    ensures FirstArray(isArray, before + Print(v) + after) == Some(Print(v))
  {
    var s := before + Print(v) + after;
    PrintedArrayFoundIff(isArray, before, v, after);
    SpanIsPrintedValue(ARRAY_LEXICON, before, v, after);
    assert s[|before|..|before| + |Print(v)|] == Print(v);
    forall a: nat | FoundAt(isArray, s, a)
      ensures a == |before|
    {
      FoundAtIsUnique(isArray, s, a, |before|);
    }
  }

  lemma {:induction false} QuoteNeverEnds(lex: Lexicon, s: string, depth: int, quote: char, at: nat)
    requires quote !in s
    ensures CloseIndex(lex, s, depth, Some(quote), at) == None
    decreases |s|
  {
    if s != "" {
      if s[0] == '\\' {
        if |s| > 1 {
          QuoteNeverEnds(lex, s[2..], depth, quote, at + 2);
        }
      } else {
        QuoteNeverEnds(lex, s[1..], depth, quote, at + 1);
      }
    }
  }

  function Apostrophes(s: string): nat {
    if s == "" then 0 else Apostrophes(s[1..]) + (if s[0] == '\'' then 1 else 0)
  }

  /** Text without quotes, brackets and backslashes, apostrophes aside. */
  predicate Prose(s: string) {
    forall k :: 0 <= k < |s| ==> s[k] !in {'"', '[', ']', '{', '}', '\\'}
  }

  function Toggled(quote: Option<char>, n: nat): Option<char> {
    if n % 2 == 0 then quote else if quote.None? then Some('\'') else None
  }

  /** Every apostrophe of the prose opens or closes a "string". */
  lemma {:induction false} ProseToggles(prose: string, tail: string, depth: int, quote: Option<char>, at: nat)
    requires Prose(prose) && (quote.None? || quote == Some('\''))
    ensures CloseIndex(ARRAY_LEXICON, prose + tail, depth, quote, at)
         == CloseIndex(ARRAY_LEXICON, tail, depth, Toggled(quote, Apostrophes(prose)), at + |prose|)
    decreases |prose|
  {
    if prose == "" {
      assert prose + tail == tail;
    } else {
      assert (prose + tail)[0] == prose[0] && (prose + tail)[1..] == prose[1..] + tail;
      var next := if prose[0] == '\'' then Toggled(quote, 1) else quote;
      ProseToggles(prose[1..], tail, depth, next, at + 1);
    }
  }

  /** `[`, prose, `]` */
  predicate BracketedProse(s: string) {
    |s| >= 2 && s[0] == '[' && s[|s| - 1] == ']' && Prose(s[1..|s| - 1])
  }

  lemma AfterBracketedProse(prose: string, tail: string, at: nat)
    requires Prose(prose) && tail != "" && tail[0] == ']'
    ensures CloseIndex(ARRAY_LEXICON, prose + tail, 1, None, at) ==
              if Apostrophes(prose) % 2 == 0 then Some(at + |prose| + 1)
              else CloseIndex(ARRAY_LEXICON, tail, 1, Some('\''), at + |prose|)
  {
    ProseToggles(prose, tail, 1, None, at);
  }

  /** Where the bracket of the prose closes: at its own `]` when the apostrophes of the prose pair
      up, else nowhere, unless another apostrophe follows. */
  lemma BracketedProseCloses(before: string, bracketed: string, after: string)
    requires BracketedProse(bracketed)
    ensures var end := SpanEnd(ARRAY_LEXICON, before + bracketed + after, |before|);
            && (Apostrophes(bracketed[1..|bracketed| - 1]) % 2 == 0 ==> end == Some(|before| + |bracketed|))
            && (Apostrophes(bracketed[1..|bracketed| - 1]) % 2 == 1 && '\'' !in after ==> end == None)
  {
    var s, n := before + bracketed + after, |bracketed|;
    var prose, tail := bracketed[1..n - 1], bracketed[n - 1..] + after;
    var rest := s[|before|..];
    assert rest == bracketed + after;
    assert rest[0] == '[' && rest[1..] == prose + tail;
    AfterBracketedProse(prose, tail, |before| + 1);
    if Apostrophes(prose) % 2 == 1 && '\'' !in after {
      QuoteNeverEnds(ARRAY_LEXICON, tail, 1, '\'', |before| + 1 + |prose|);
    }
  }

  /** The comment above `extractFirstJsonArray` promises that bracketed prose before the array is
      skipped. With no other `[` before the array and no apostrophe after the prose: the array is
      returned if and only if the number of apostrophes in the prose is even. An odd one opens a
      "string" that never ends, and the search gives up, whatever arrays follow. */
  lemma BracketedProseIsSkippedIff(isArray: string -> bool, before: string, bracketed: string, between: string,
                                   v: Value, after: string)
    requires BracketedProse(bracketed) && '[' !in before && '[' !in between && !isArray(bracketed)
    requires Valid(v) && v.Array? && isArray(Print(v)) && '\'' !in between + Print(v) + after
    ensures FirstArray(isArray, before + bracketed + (between + Print(v) + after)) == Some(Print(v))
       <==> Apostrophes(bracketed[1..|bracketed| - 1]) % 2 == 0
  {
    if Apostrophes(bracketed[1..|bracketed| - 1]) % 2 == 0 {
      PairedProseIsSkipped(isArray, before, bracketed, between, v, after);
    } else {
      UnpairedProseGivesUp(isArray, before, bracketed, between + Print(v) + after);
    }
  }

  lemma UnpairedProseGivesUp(isArray: string -> bool, before: string, bracketed: string, after: string)
    requires BracketedProse(bracketed) && '[' !in before && '\'' !in after
    requires Apostrophes(bracketed[1..|bracketed| - 1]) % 2 == 1
    ensures FirstArray(isArray, before + bracketed + after) == None
  {
    var s := before + bracketed + after;
    BracketedProseCloses(before, bracketed, after);
    forall j | 0 <= j < |before|
      ensures PassedOver(isArray, s, j)
    {
      assert s[j] == before[j];
    }
    UnclosedBracketGivesUp(isArray, s, |before|);
  }

  lemma PairedProseIsSkipped(isArray: string -> bool, before: string, bracketed: string, between: string, v: Value,
                             after: string)
    requires BracketedProse(bracketed) && '[' !in before && '[' !in between && !isArray(bracketed)
    requires Apostrophes(bracketed[1..|bracketed| - 1]) % 2 == 0
    requires Valid(v) && v.Array? && isArray(Print(v))
    ensures FirstArray(isArray, before + bracketed + (between + Print(v) + after)) == Some(Print(v))
  {
    var head, tail := before + bracketed + between, Print(v) + after;
    var s := before + bracketed + (between + Print(v) + after);
    assert s == head + Print(v) + after == before + bracketed + (between + tail);
    forall k | 0 <= k < |head|
      ensures PassedOver(isArray, head + Print(v) + after, k)
    {
      HeadIsPassedOver(isArray, before, bracketed, between, tail, k);
    }
    FoundArrayIsReturned(isArray, head, v, after);
  }

  lemma HeadIsPassedOver(isArray: string -> bool, before: string, bracketed: string, between: string, after: string,
                         k: nat)
    requires BracketedProse(bracketed) && '[' !in before && '[' !in between && !isArray(bracketed)
    requires Apostrophes(bracketed[1..|bracketed| - 1]) % 2 == 0
    requires k < |before| + |bracketed| + |between|
    ensures PassedOver(isArray, before + bracketed + (between + after), k)
  {
    var s, b, n := before + bracketed + (between + after), |before|, |bracketed|;
    if k == b {
      BracketedProseCloses(before, bracketed, between + after);
      assert s[b..b + n] == bracketed;
    } else if k < b {
      assert s[k] == before[k];
    } else if k < b + n - 1 {
      assert s[k] == bracketed[k - b] == bracketed[1..n - 1][k - b - 1];
    } else if k == b + n - 1 {
      assert s[k] == bracketed[n - 1];
    } else {
      assert s[k] == between[k - b - n];
    }
  }

  /** `[don't] []`: the array is there, and nothing is returned. */
  lemma ApostropheExample(isArray: string -> bool)
    ensures Print(Array([], "")) == "[]"
    ensures FirstArray(isArray, "[don't] []") == None
  {
    ApostropheInBracketedProseGivesUp(isArray, "", "don", "t] []");
    assert "" + ("[" + "don") + ("'" + "t] []") == "[don't] []";
  }

  /** The bracket need not even close: one apostrophe after plain text inside it is enough. */
  lemma ApostropheInBracketedProseGivesUp(isArray: string -> bool, before: string, prose: string, after: string)
    requires '[' !in before && '\'' !in after
    requires forall k :: 0 <= k < |prose| ==> prose[k] !in {'"', '\'', '[', ']', '{', '}'}
    ensures FirstArray(isArray, before + ("[" + prose) + ("'" + after)) == None
  {
    var s := before + ("[" + prose) + ("'" + after);
    var k := |before|;
    ReadsChar(ARRAY_LEXICON, '[', 0, 1);
    InertReads(ARRAY_LEXICON, prose, 1);
    ReadsThen(ARRAY_LEXICON, "[", prose, 0, 1, 1);
    assert s[k..] == ("[" + prose) + ("'" + after);
    assert CloseIndex(ARRAY_LEXICON, ("[" + prose) + ("'" + after), 0, None, k)
        == CloseIndex(ARRAY_LEXICON, "'" + after, 1, None, k + |"[" + prose|);
    assert ("'" + after)[1..] == after;
    QuoteNeverEnds(ARRAY_LEXICON, after, 1, '\'', k + |"[" + prose| + 1);
    forall j | 0 <= j < k
      ensures PassedOver(isArray, s, j)
    {
      assert s[j] == before[j];
    }
    UnclosedBracketGivesUp(isArray, s, k);
  }
}
