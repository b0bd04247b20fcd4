/** Finding the verdict object in a model's answer (src/brain-dump-resolution-check.js:175-198). */
module VerdictParse {
  import opened Wrappers
  import opened JsonText
  import opened BracketScan
  import SpanText

  /** `resolved` is whatever the object holds there, if anything; `evidence` is "" unless a string. */
  datatype Verdict = Verdict(resolved: Option<string>, evidence: string)

  const UNPARSABLE := Verdict(Some("unclear"), "unparsable model output")

  /** `parse` is `JSON.parse` followed by the reading of the two fields; `None` when the text is
      not JSON or not an object. */
  type Parse = string -> Option<Verdict>

  ghost predicate ParsesAt(parse: Parse, s: string, k: nat) {
    && k < |s| && s[k] == '{'
    && SpanEnd(OBJECT_LEXICON, s, k).Some?
    && parse(s[k..SpanEnd(OBJECT_LEXICON, s, k).value]).Some?
  }

  ghost predicate FirstParseAt(parse: Parse, s: string, a: nat) {
    ParsesAt(parse, s, a) && forall k :: 0 <= k < a ==> !ParsesAt(parse, s, k)
  }

  /** What the search must return: the first brace span that parses, else the `unclear` verdict. */
  ghost function FirstVerdict(parse: Parse, s: string): Verdict {
    if exists a: nat :: FirstParseAt(parse, s, a) then
      var a: nat :| FirstParseAt(parse, s, a);
      parse(s[a..SpanEnd(OBJECT_LEXICON, s, a).value]).value
    else UNPARSABLE
  }

  /** Text whose curly brackets, outside strings in double quotes, balance first at its end. */
  ghost predicate IsSpan(text: string) {
    SpanText.Balanced(Lexicon({'"'}, {'{'}, {'}'}), text)
  }

  /** A span from a brace that parses is at `k`. */
  lemma ParsesAtIff(parse: Parse, s: string, k: nat)
    ensures ParsesAt(parse, s, k) <==>
              && k < |s| && s[k] == '{'
              && exists end: nat :: k < end <= |s| && IsSpan(s[k..end]) && parse(s[k..end]).Some?
  {
    if k < |s| {
      forall end: nat
        ensures SpanEnd(OBJECT_LEXICON, s, k) == Some(end) <==> k < end <= |s| && IsSpan(s[k..end])
      {
        SpanText.SpanEndIff(OBJECT_LEXICON, s, k, end);
      }
    }
  }

  method ParseVerdictResponse(parse: Parse, src: string) returns (r: Verdict)
    ensures r == FirstVerdict(parse, src)
    ensures (forall k: nat :: !ParsesAt(parse, src, k)) ==> r == Verdict(Some("unclear"), "unparsable model output")
  {
    var start := 0;
    while start < |src|
      invariant 0 <= start <= |src|
      invariant forall k :: 0 <= k < start ==> !ParsesAt(parse, src, k)
    {
      if src[start] == '{' {
        var depth := 0;
        var inString := false;
        var k := start;
        while k < |src|
          invariant start <= k <= |src| + 1
          invariant SpanEnd(OBJECT_LEXICON, src, start)
                 == if k <= |src| then CloseIndex(OBJECT_LEXICON, src[k..], depth,
                                                  if inString then Some('"') else None, k) else None
        {
          var ch := src[k];
          assert src[k..][0] == ch && src[k..][1..] == src[k + 1..];
          if inString {
            if ch == '\\' {
              assert k + 1 < |src| ==> src[k..][2..] == src[k + 2..];
              k := k + 1;
            } else if ch == '"' {
              inString := false;
            }
          } else if ch == '"' {
            inString := true;
          } else if ch == '{' {
            depth := depth + 1;
          } else if ch == '}' {
            depth := depth - 1;
            if depth == 0 {
              var verdict := parse(src[start..k + 1]);
              if verdict.Some? {
                assert FirstParseAt(parse, src, start);
                return verdict.value;
              }
              break;
            }
          }
          k := k + 1;
        }
        assert !ParsesAt(parse, src, start);
      }
      start := start + 1;
    }
    return UNPARSABLE;
  }

  /** A printed object is the one recovered if and only if no earlier brace span parses. Unlike the
      array search, an unclosed brace in the prose before it does no harm. */
  lemma PrintedObjectFoundIff(parse: Parse, before: string, v: Value, after: string)
    requires Valid(v) && v.Object? && parse(Print(v)).Some?
    ensures FirstParseAt(parse, before + Print(v) + after, |before|) <==>
            forall k :: 0 <= k < |before| ==> !ParsesAt(parse, before + Print(v) + after, k)
  {
    var s := before + Print(v) + after;
    SpanIsPrintedValue(OBJECT_LEXICON, before, v, after);
    assert s[|before|..|before| + |Print(v)|] == Print(v);
    assert s[|before|] == Print(v)[0] == '{';
  }

  /** The verdict written in the answer comes back, whatever prose surrounds it. */
  lemma RoundTrip(parse: Parse, before: string, v: Value, after: string)
    requires Valid(v) && v.Object? && parse(Print(v)).Some?
    requires forall k :: 0 <= k < |before| ==> !ParsesAt(parse, before + Print(v) + after, k)
    ensures FirstVerdict(parse, before + Print(v) + after) == parse(Print(v)).value
  {
    var s := before + Print(v) + after;
    PrintedObjectFoundIff(parse, before, v, after);
    SpanIsPrintedValue(OBJECT_LEXICON, before, v, after);
    assert s[|before|..|before| + |Print(v)|] == Print(v);
    assert FirstParseAt(parse, s, |before|);
    forall a: nat | FirstParseAt(parse, s, a)
      ensures a == |before|
    {
      assert !(a < |before|) && !(|before| < a);
    }
  }
}
