/** Depth-counting over bracketed text, and why it finds printed JSON exactly. Both scanners of
    model output are instances: src/agentic-draft-common.js:233-251 and the inner loop of
    src/brain-dump-resolution-check.js:179-196. */
module BracketScan {
  import opened Wrappers
  import opened JsonText

  /** The characters a scanner reacts to. */
  datatype Lexicon = Lexicon(quotes: set<char>, opens: set<char>, closes: set<char>)

  /** The scanner of `balancedBracketSpanAt`: either quote opens a string. */
  const ARRAY_LEXICON := Lexicon({'"', '\''}, {'[', '{'}, {']', '}'})

  /** The scanner of `parseVerdictResponse`: braces and double quotes only. */
  const OBJECT_LEXICON := Lexicon({'"'}, {'{'}, {'}'})

  /** Where the bracket that `rest` is inside of closes: `depth` brackets are open, `quote` is the
      string being skipped, `at` is the index of `rest` in the whole text. */
  function CloseIndex(lex: Lexicon, rest: string, depth: int, quote: Option<char>, at: nat): (r: Option<nat>)
    ensures r.Some? ==> at < r.value <= at + |rest|
    decreases |rest|
  {
    if rest == "" then None
    else
      var ch := rest[0];
      if quote.Some? then
        if ch == '\\' then
          if |rest| == 1 then None else CloseIndex(lex, rest[2..], depth, quote, at + 2)
        else CloseIndex(lex, rest[1..], depth, if ch == quote.value then None else quote, at + 1)
      else if ch in lex.quotes then CloseIndex(lex, rest[1..], depth, Some(ch), at + 1)
      else if ch in lex.opens then CloseIndex(lex, rest[1..], depth + 1, None, at + 1)
      else if ch in lex.closes then
        if depth - 1 == 0 then Some(at + 1) else CloseIndex(lex, rest[1..], depth - 1, None, at + 1)
      else CloseIndex(lex, rest[1..], depth, None, at + 1)
  }

  /** End of the balanced span that starts at `start`, if that bracket is ever closed. */
  function SpanEnd(lex: Lexicon, s: string, start: nat): (r: Option<nat>)
    requires start < |s|
    ensures r.Some? ==> start < r.value <= |s|
  {
    CloseIndex(lex, s[start..], 0, None, start)
  }

  /** The lexicon reacts to JSON's own delimiters in matching pairs and to nothing else in JSON. */
  predicate ReadsJson(lex: Lexicon) {
    && '"' in lex.quotes && lex.quotes <= {'"', '\''}
    && lex.opens <= {'[', '{'} && lex.closes <= {']', '}'}
    && ('[' in lex.opens <==> ']' in lex.closes)
    && ('{' in lex.opens <==> '}' in lex.closes)
  }

  /** Reading `s` outside a string takes the depth from `d0` to `d1`, whatever follows, without the
      scan ending inside it. */
  ghost predicate Reads(lex: Lexicon, s: string, d0: int, d1: int) {
    forall tail: string, at: nat ::
      CloseIndex(lex, s + tail, d0, None, at) == CloseIndex(lex, tail, d1, None, at + |s|)
  }

  lemma ReadsThen(lex: Lexicon, s: string, t: string, d0: int, d1: int, d2: int)
    requires Reads(lex, s, d0, d1) && Reads(lex, t, d1, d2)
    ensures Reads(lex, s + t, d0, d2)
  {
    forall tail: string, at: nat
      ensures CloseIndex(lex, (s + t) + tail, d0, None, at) == CloseIndex(lex, tail, d2, None, at + |s + t|)
    {
      assert (s + t) + tail == s + (t + tail);
      assert CloseIndex(lex, s + (t + tail), d0, None, at) == CloseIndex(lex, t + tail, d1, None, at + |s|);
    }
  }

  lemma ReadsChar(lex: Lexicon, ch: char, d0: int, d1: int)
    requires ch !in lex.quotes
    requires d1 == if ch in lex.opens then d0 + 1 else if ch in lex.closes then d0 - 1 else d0
    requires ch in lex.closes && ch !in lex.opens ==> d0 != 1
    ensures Reads(lex, [ch], d0, d1)
  {
    forall tail: string, at: nat
      ensures CloseIndex(lex, [ch] + tail, d0, None, at) == CloseIndex(lex, tail, d1, None, at + 1)
    {
      assert ([ch] + tail)[1..] == tail;
    }
  }

  lemma {:induction false} InertReads(lex: Lexicon, s: string, depth: int)
    requires forall k :: 0 <= k < |s| ==> s[k] !in lex.quotes + lex.opens + lex.closes
    ensures Reads(lex, s, depth, depth)
    decreases |s|
  {
    if s == "" {
      assert forall tail: string :: s + tail == tail;
    } else {
      assert s[0] !in lex.quotes + lex.opens + lex.closes;
      ReadsChar(lex, s[0], depth, depth);
      InertReads(lex, s[1..], depth);
      ReadsThen(lex, [s[0]], s[1..], depth, depth, depth);
      assert [s[0]] + s[1..] == s;
    }
  }

  lemma {:induction false} QuotedIsSkipped(lex: Lexicon, s: string, tail: string, depth: int, at: nat)
    requires '"' !in s && '\\' !in s
    ensures CloseIndex(lex, s + tail, depth, Some('"'), at) == CloseIndex(lex, tail, depth, Some('"'), at + |s|)
    decreases |s|
  {
    if s == "" {
      assert s + tail == tail;
    } else {
      assert (s + tail)[0] == s[0] && (s + tail)[1..] == s[1..] + tail;
      QuotedIsSkipped(lex, s[1..], tail, depth, at + 1);
    }
  }

  lemma PieceIsSkipped(lex: Lexicon, p: Piece, tail: string, depth: int, at: nat)
    requires ValidPiece(p)
    ensures CloseIndex(lex, PrintPiece(p) + tail, depth, Some('"'), at)
         == CloseIndex(lex, tail, depth, Some('"'), at + |PrintPiece(p)|)
  {
    if p.Plain? {
      QuotedIsSkipped(lex, [p.c], tail, depth, at);
    } else {
      var s := PrintPiece(p);
      assert (s + tail)[0] == '\\' && (s + tail)[2..] == s[2..] + tail;
      QuotedIsSkipped(lex, s[2..], tail, depth, at + 2);
    }
  }

  lemma {:induction false} PiecesAreSkipped(lex: Lexicon, ps: seq<Piece>, tail: string, depth: int, at: nat)
    requires ValidPieces(ps)
    ensures CloseIndex(lex, PrintPieces(ps) + tail, depth, Some('"'), at)
         == CloseIndex(lex, tail, depth, Some('"'), at + |PrintPieces(ps)|)
    decreases |ps|
  {
    if ps == [] {
      assert PrintPieces(ps) + tail == tail;
    } else {
      assert PrintPieces(ps) + tail == PrintPiece(ps[0]) + (PrintPieces(ps[1..]) + tail);
      PieceIsSkipped(lex, ps[0], PrintPieces(ps[1..]) + tail, depth, at);
      PiecesAreSkipped(lex, ps[1..], tail, depth, at + |PrintPiece(ps[0])|);
    }
  }

  /** Brackets and quotes inside a printed string are never counted. */
  lemma StringReads(lex: Lexicon, ps: seq<Piece>, depth: int)
    requires ReadsJson(lex) && ValidPieces(ps)
    ensures Reads(lex, PrintString(ps), depth, depth)
  {
    forall tail: string, at: nat
      ensures CloseIndex(lex, PrintString(ps) + tail, depth, None, at)
           == CloseIndex(lex, tail, depth, None, at + |PrintString(ps)|)
    {
      assert (PrintString(ps) + tail)[1..] == PrintPieces(ps) + ("\"" + tail);
      PiecesAreSkipped(lex, ps, "\"" + tail, depth, at + 1);
      assert ("\"" + tail)[1..] == tail;
    }
  }

  /** The depth inside a bracket that opens at `depth`. */
  function Inside(lex: Lexicon, open: char, depth: int): int {
    if open in lex.opens then depth + 1 else depth
  }

  /** A printed value nested inside an open bracket leaves the scan exactly as it found it. */
  lemma {:induction false} ValueReads(lex: Lexicon, v: Value, depth: int)
    requires ReadsJson(lex) && Valid(v) && depth >= 1
    ensures Reads(lex, Print(v), depth, depth)
    decreases v, 1
  {
    match v {
      case Literal(text) =>
        InertReads(lex, text, depth);
      case Text(pieces) =>
        StringReads(lex, pieces, depth);
      case Array(elems, blank) =>
        ArrayBodyReads(lex, elems, blank, Inside(lex, '[', depth));
        BracketedReads(lex, '[', ArrayBody(elems, blank), ']', depth);
      case Object(members, blank) =>
        ObjectBodyReads(lex, members, blank, Inside(lex, '{', depth));
        BracketedReads(lex, '{', ObjectBody(members, blank), '}', depth);
    }
  }

  lemma BracketedReads(lex: Lexicon, open: char, body: string, close: char, depth: int)
    requires ReadsJson(lex) && depth >= 1
    requires (open == '[' && close == ']') || (open == '{' && close == '}')
    requires Reads(lex, body, Inside(lex, open, depth), Inside(lex, open, depth))
    ensures Reads(lex, [open] + body + [close], depth, depth)
  {
    var inner := Inside(lex, open, depth);
    ReadsChar(lex, open, depth, inner);
    ReadsThen(lex, [open], body, depth, inner, inner);
    ReadsChar(lex, close, inner, depth);
    ReadsThen(lex, [open] + body, [close], depth, inner, depth);
  }

  function ArrayBody(elems: seq<Elem>, blank: string): string {
    if elems == [] then blank else PrintElems(elems)
  }

  function ObjectBody(members: seq<Member>, blank: string): string {
    if members == [] then blank else PrintMembers(members)
  }

  lemma {:induction false} ArrayBodyReads(lex: Lexicon, es: seq<Elem>, blank: string, depth: int)
    requires ReadsJson(lex) && ValidElems(es) && IsWhitespace(blank) && depth >= 1
    ensures Reads(lex, ArrayBody(es, blank), depth, depth)
    decreases es, 0
  {
    if es == [] {
      InertReads(lex, blank, depth);
    } else {
      var e := es[0];
      InertReads(lex, e.before, depth);
      ValueReads(lex, e.value, depth);
      InertReads(lex, e.after, depth);
      ReadsThen(lex, e.before, Print(e.value), depth, depth, depth);
      ReadsThen(lex, e.before + Print(e.value), e.after, depth, depth, depth);
      var first := e.before + Print(e.value) + e.after;
      if |es| > 1 {
        InertReads(lex, ",", depth);
        ArrayBodyReads(lex, es[1..], "", depth);
        ReadsThen(lex, ",", PrintElems(es[1..]), depth, depth, depth);
        ReadsThen(lex, first, "," + PrintElems(es[1..]), depth, depth, depth);
      } else {
        assert PrintElems(es) == first;
      }
    }
  }

  lemma {:induction false} ObjectBodyReads(lex: Lexicon, ms: seq<Member>, blank: string, depth: int)
    requires ReadsJson(lex) && ValidMembers(ms) && IsWhitespace(blank) && depth >= 1
    ensures Reads(lex, ObjectBody(ms, blank), depth, depth)
    decreases ms, 0
  {
    if ms == [] {
      InertReads(lex, blank, depth);
    } else {
      ValueReads(lex, ms[0].value, depth);
      MemberReads(lex, ms[0], depth);
      if |ms| > 1 {
        InertReads(lex, ",", depth);
        ObjectBodyReads(lex, ms[1..], "", depth);
        ReadsThen(lex, ",", PrintMembers(ms[1..]), depth, depth, depth);
        ReadsThen(lex, MemberText(ms[0]), "," + PrintMembers(ms[1..]), depth, depth, depth);
        assert PrintMembers(ms) == MemberText(ms[0]) + ("," + PrintMembers(ms[1..]));
      } else {
        assert PrintMembers(ms) == MemberText(ms[0]);
      }
    }
  }

  function MemberText(m: Member): string {
    m.before + PrintString(m.name) + m.afterName + ":" + m.beforeValue + Print(m.value) + m.after
  }

  lemma MemberReads(lex: Lexicon, m: Member, depth: int)
    requires ReadsJson(lex) && ValidMembers([m]) && Reads(lex, Print(m.value), depth, depth)
    ensures Reads(lex, MemberText(m), depth, depth)
  {
    InertReads(lex, m.before, depth);
    StringReads(lex, m.name, depth);
    InertReads(lex, m.afterName, depth);
    InertReads(lex, ":", depth);
    InertReads(lex, m.beforeValue, depth);
    InertReads(lex, m.after, depth);
    ReadsThen(lex, m.before, PrintString(m.name), depth, depth, depth);
    ReadsThen(lex, m.before + PrintString(m.name), m.afterName, depth, depth, depth);
    ReadsThen(lex, m.before + PrintString(m.name) + m.afterName, ":", depth, depth, depth);
    ReadsThen(lex, m.before + PrintString(m.name) + m.afterName + ":", m.beforeValue, depth, depth, depth);
    ReadsThen(lex, m.before + PrintString(m.name) + m.afterName + ":" + m.beforeValue, Print(m.value), depth, depth,
              depth);
    ReadsThen(lex, m.before + PrintString(m.name) + m.afterName + ":" + m.beforeValue + Print(m.value), m.after,
              depth, depth, depth);
  }

  lemma SpanOfBracketed(lex: Lexicon, before: string, open: char, body: string, close: char, after: string)
    requires open in lex.opens && open !in lex.quotes
    requires close in lex.closes && close !in lex.quotes && close !in lex.opens
    requires Reads(lex, body, 1, 1)
    ensures SpanEnd(lex, before + ([open] + body + [close]) + after, |before|) == Some(|before| + |body| + 2)
  {
    var tail := [close] + after;
    ReadsChar(lex, open, 0, 1);
    ReadsThen(lex, [open], body, 0, 1, 1);
    assert (before + ([open] + body + [close]) + after)[|before|..] == ([open] + body) + tail;
    assert CloseIndex(lex, ([open] + body) + tail, 0, None, |before|)
        == CloseIndex(lex, tail, 1, None, |before| + |[open] + body|);
    assert tail[0] == close;
  }

  /** The span found at the opening bracket of a printed array or object is that value's text, no
      shorter and no longer, whatever stands before and after it. */
  lemma SpanIsPrintedValue(lex: Lexicon, before: string, v: Value, after: string)
    requires ReadsJson(lex) && Valid(v)
    requires (v.Array? && '[' in lex.opens) || (v.Object? && '{' in lex.opens)
    ensures Print(v) != "" && SpanEnd(lex, before + Print(v) + after, |before|) == Some(|before| + |Print(v)|)
  {
    if v.Array? {
      ArrayBodyReads(lex, v.elems, v.blank, 1);
      SpanOfBracketed(lex, before, '[', ArrayBody(v.elems, v.blank), ']', after);
    } else {
      ObjectBodyReads(lex, v.members, v.blank, 1);
      SpanOfBracketed(lex, before, '{', ObjectBody(v.members, v.blank), '}', after);
    }
  }
}
