/** What a span is, without a scanner: text that reads as strings and single characters, in which the
    brackets first balance at the last one. Both scanners find exactly that. */
module SpanText {
  import opened Wrappers
  import opened BracketScan

  /** A character inside a string: any but the quote and the backslash, or any after a backslash. */
  datatype Atom = One(c: char) | Escaped(c: char)

  datatype Token = Bare(c: char) | Quoted(quote: char, body: seq<Atom>)

  function AtomText(a: Atom): string {
    match a
    case One(c) => [c]
    case Escaped(c) => ['\\', c]
  }

  function AtomsText(body: seq<Atom>): string {
    if body == [] then "" else AtomText(body[0]) + AtomsText(body[1..])
  }

  function TokenText(t: Token): string {
    match t
    case Bare(c) => [c]
    case Quoted(quote, body) => [quote] + (AtomsText(body) + [quote])
  }

  function TokensText(ts: seq<Token>): string {
    if ts == [] then "" else TokenText(ts[0]) + TokensText(ts[1..])
  }

  predicate ValidBody(quote: char, body: seq<Atom>) {
    forall k :: 0 <= k < |body| && body[k].One? ==> body[k].c != quote && body[k].c != '\\'
  }

  predicate ValidToken(lex: Lexicon, t: Token) {
    match t
    case Bare(c) => c !in lex.quotes
    case Quoted(quote, body) => quote in lex.quotes && ValidBody(quote, body)
  }

  predicate Valid(lex: Lexicon, ts: seq<Token>) {
    forall k :: 0 <= k < |ts| ==> ValidToken(lex, ts[k])
  }

  predicate Opens(lex: Lexicon, t: Token) {
    t.Bare? && t.c in lex.opens
  }

  predicate Closes(lex: Lexicon, t: Token) {
    t.Bare? && t.c in lex.closes && t.c !in lex.opens
  }

  /** Brackets open after the tokens, `depth` being open before. */
  function Depth(lex: Lexicon, ts: seq<Token>, depth: int): int {
    if ts == [] then depth
    else Depth(lex, ts[1..], depth + if Opens(lex, ts[0]) then 1 else if Closes(lex, ts[0]) then -1 else 0)
  }

  /** The last token closes the last open bracket, and no earlier one does. */
  ghost predicate Ends(lex: Lexicon, ts: seq<Token>, depth: int) {
    && ts != []
    && forall k :: 0 <= k < |ts| ==>
         (Closes(lex, ts[k]) && Depth(lex, ts[..k], depth) == 1 <==> k == |ts| - 1)
  }

  /** Some reading of the text, as strings and single characters, balances first at its end. */
  ghost predicate Balanced(lex: Lexicon, text: string) {
    exists ts :: Valid(lex, ts) && Ends(lex, ts, 0) && TokensText(ts) == text
  }

  // ----- a reading is what the scanner makes of the text

  lemma {:induction false} BodyIsSkipped(lex: Lexicon, quote: char, body: seq<Atom>, tail: string, depth: int, at: nat)
    requires ValidBody(quote, body) && quote != '\\'
    ensures CloseIndex(lex, AtomsText(body) + ([quote] + tail), depth, Some(quote), at)
         == CloseIndex(lex, tail, depth, None, at + |AtomsText(body)| + 1)
    decreases |body|
  {
    var rest := [quote] + tail;
    if body == [] {
      assert AtomsText(body) + rest == rest && rest[1..] == tail;
      QuoteCloses(lex, quote, rest, depth, at);
    } else {
      var first, more := AtomText(body[0]), AtomsText(body[1..]) + rest;
      assert AtomsText(body) + rest == first + more;
      assert (first + more)[|first|..] == more && (first + more)[0] == first[0];
      BodyIsSkipped(lex, quote, body[1..], tail, depth, at + |first|);
    }
  }

  lemma QuoteCloses(lex: Lexicon, quote: char, rest: string, depth: int, at: nat)
    requires rest != "" && rest[0] == quote != '\\'
    ensures CloseIndex(lex, rest, depth, Some(quote), at) == CloseIndex(lex, rest[1..], depth, None, at + 1)
  {
    QuoteAfterString(lex, rest[1..], depth, Some(quote), at + 1);
  }

  /** Outside a string it does not matter which quote opened the last one. */
  lemma QuoteAfterString(lex: Lexicon, rest: string, depth: int, quote: Option<char>, at: nat)
    ensures quote.None? ==> CloseIndex(lex, rest, depth, quote, at) == CloseIndex(lex, rest, depth, None, at)
  {
  }

  lemma TokenIsRead(lex: Lexicon, t: Token, tail: string, depth: int, at: nat)
    requires ValidToken(lex, t) && '\\' !in lex.quotes && !(Closes(lex, t) && depth == 1)
    ensures CloseIndex(lex, TokenText(t) + tail, depth, None, at)
         == CloseIndex(lex, tail, Depth(lex, [t], depth), None, at + |TokenText(t)|)
  {
    assert [t][1..] == [];
    var step := if Opens(lex, t) then 1 else if Closes(lex, t) then -1 else 0;
    assert Depth(lex, [t], depth) == Depth(lex, [], depth + step) == depth + step;
    match t
    case Bare(c) =>
      assert ([c] + tail)[1..] == tail;
    case Quoted(quote, body) =>
      var inner := AtomsText(body) + ([quote] + tail);
      assert TokenText(t) + tail == [quote] + inner;
      assert ([quote] + inner)[1..] == inner;
      BodyIsSkipped(lex, quote, body, tail, depth, at + 1);
  }

  lemma DepthAfterFirst(lex: Lexicon, t: Token, ts: seq<Token>, depth: int)
    ensures Depth(lex, [t] + ts, depth) == Depth(lex, ts, Depth(lex, [t], depth))
  {
    assert ([t] + ts)[1..] == ts && [t][1..] == [];
    var step := if Opens(lex, t) then 1 else if Closes(lex, t) then -1 else 0;
    assert Depth(lex, [t], depth) == Depth(lex, [], depth + step) == depth + step;
  }

  lemma EndsLater(lex: Lexicon, ts: seq<Token>, depth: int)
    requires Ends(lex, ts, depth) && |ts| > 1
    ensures !(Closes(lex, ts[0]) && depth == 1)
    ensures Ends(lex, ts[1..], Depth(lex, ts[..1], depth))
  {
    var rest, depth' := ts[1..], Depth(lex, ts[..1], depth);
    assert Closes(lex, ts[0]) && Depth(lex, ts[..0], depth) == 1 <==> 0 == |ts| - 1;
    forall k | 0 <= k < |rest|
      ensures Closes(lex, rest[k]) && Depth(lex, rest[..k], depth') == 1 <==> k == |rest| - 1
    {
      assert Closes(lex, ts[k + 1]) && Depth(lex, ts[..k + 1], depth) == 1 <==> k + 1 == |ts| - 1;
      assert ts[..k + 1] == [ts[0]] + rest[..k] && ts[..1] == [ts[0]];
      DepthAfterFirst(lex, ts[0], rest[..k], depth);
    }
  }

  lemma {:induction false} ReadingIsSpan(lex: Lexicon, ts: seq<Token>, tail: string, depth: int, at: nat)
    requires '\\' !in lex.quotes && Valid(lex, ts) && Ends(lex, ts, depth)
    ensures CloseIndex(lex, TokensText(ts) + tail, depth, None, at) == Some(at + |TokensText(ts)|)
    decreases |ts|
  {
    if |ts| == 1 {
      assert Closes(lex, ts[0]) && Depth(lex, ts[..0], depth) == 1;
      assert TokensText(ts) == [ts[0].c] + TokensText(ts[1..]) == [ts[0].c];
      assert ([ts[0].c] + tail)[0] == ts[0].c;
    } else {
      var more := TokensText(ts[1..]) + tail;
      assert TokensText(ts) + tail == TokenText(ts[0]) + more;
      EndsLater(lex, ts, depth);
      assert ts[..1] == [ts[0]];
      TokenIsRead(lex, ts[0], more, depth, at);
      ReadingIsSpan(lex, ts[1..], tail, Depth(lex, ts[..1], depth), at + |TokenText(ts[0])|);
    }
  }

  // ----- and the scanner finds a reading

  /** From inside a string the scanner comes to its closing quote. */
  lemma {:induction false} StringIsRead(lex: Lexicon, rest: string, depth: int, quote: char, at: nat)
      returns (body: seq<Atom>, tail: string)
    requires CloseIndex(lex, rest, depth, Some(quote), at).Some? && quote != '\\'
    ensures ValidBody(quote, body) && rest == AtomsText(body) + ([quote] + tail)
    decreases |rest|
  {
    if rest[0] == quote {
      body, tail := [], rest[1..];
      assert AtomsText(body) + ([quote] + tail) == [rest[0]] + rest[1..] == rest;
    } else {
      var n := if rest[0] == '\\' then 2 else 1;
      var more;
      more, tail := StringIsRead(lex, rest[n..], depth, quote, at + n);
      body := [if n == 2 then Escaped(rest[1]) else One(rest[0])] + more;
      OneMoreAtom(body[0], more, [quote] + tail);
      assert AtomText(body[0]) == rest[..n];
      assert rest == rest[..n] + rest[n..];
    }
  }

  lemma OneMoreAtom(a: Atom, more: seq<Atom>, tail: string)
    ensures AtomsText([a] + more) + tail == AtomText(a) + (AtomsText(more) + tail)
  {
    assert ([a] + more)[1..] == more;
  }

  /** The first token of a text whose bracket closes. */
  lemma FirstToken(lex: Lexicon, rest: string, depth: int, at: nat) returns (t: Token)
    requires CloseIndex(lex, rest, depth, None, at).Some? && '\\' !in lex.quotes
    ensures ValidToken(lex, t) && 0 < |TokenText(t)| <= |rest| && rest == TokenText(t) + rest[|TokenText(t)|..]
    ensures t.Bare? ==> t.c == rest[0]
  {
    if rest[0] in lex.quotes {
      var body, tail := StringIsRead(lex, rest[1..], depth, rest[0], at + 1);
      t := Quoted(rest[0], body);
      assert rest == [rest[0]] + rest[1..];
      assert rest == TokenText(t) + tail;
      assert rest[|TokenText(t)|..] == tail;
    } else {
      t := Bare(rest[0]);
      assert rest == [rest[0]] + rest[1..];
    }
  }

  lemma EndsNow(lex: Lexicon, t: Token)
    requires Closes(lex, t)
    ensures Ends(lex, [t], 1)
  {
    assert [t][..0] == [];
  }

  lemma EndsOneLater(lex: Lexicon, t: Token, ts: seq<Token>, depth: int)
    requires !(Closes(lex, t) && depth == 1) && Ends(lex, ts, Depth(lex, [t], depth))
    ensures Ends(lex, [t] + ts, depth)
  {
    var all, depth' := [t] + ts, Depth(lex, [t], depth);
    forall k | 0 <= k < |all|
      ensures Closes(lex, all[k]) && Depth(lex, all[..k], depth) == 1 <==> k == |all| - 1
    {
      if k > 0 {
        assert all[..k] == [t] + ts[..k - 1];
        DepthAfterFirst(lex, t, ts[..k - 1], depth);
        assert Closes(lex, ts[k - 1]) && Depth(lex, ts[..k - 1], depth') == 1 <==> k - 1 == |ts| - 1;
      }
    }
  }

  lemma {:induction false} SpanIsReading(lex: Lexicon, rest: string, depth: int, at: nat) returns (ts: seq<Token>)
    requires CloseIndex(lex, rest, depth, None, at).Some? && '\\' !in lex.quotes
    ensures Valid(lex, ts) && Ends(lex, ts, depth)
    ensures TokensText(ts) == rest[..CloseIndex(lex, rest, depth, None, at).value - at]
    decreases |rest|
  {
    var t := FirstToken(lex, rest, depth, at);
    var n := |TokenText(t)|;
    if Closes(lex, t) && depth == 1 {
      ts := [t];
      EndsNow(lex, t);
      assert ts[1..] == [] && TokensText(ts) == TokenText(t) + "" == rest[..1];
    } else {
      TokenIsRead(lex, t, rest[n..], depth, at);
      var more := SpanIsReading(lex, rest[n..], Depth(lex, [t], depth), at + n);
      ts := [t] + more;
      EndsOneLater(lex, t, more, depth);
      assert ts[1..] == more && ts[0] == t;
      var end := CloseIndex(lex, rest, depth, None, at).value - at;
      assert rest[..end] == rest[..n] + rest[n..][..end - n];
    }
  }

  /** The span the scanner finds is the one prefix that balances: it finds it if there is one, and
      there is never more than one. */
  lemma SpanEndIff(lex: Lexicon, s: string, start: nat, end: nat)
    requires start < |s| && '\\' !in lex.quotes
    ensures SpanEnd(lex, s, start) == Some(end) <==> start < end <= |s| && Balanced(lex, s[start..end])
  {
    if SpanEnd(lex, s, start) == Some(end) {
      SpanIsBalanced(lex, s, start);
    }
    if start < end <= |s| && Balanced(lex, s[start..end]) {
      BalancedIsSpan(lex, s, start, end);
    }
  }

  lemma SpanIsBalanced(lex: Lexicon, s: string, start: nat)
    requires start < |s| && '\\' !in lex.quotes && SpanEnd(lex, s, start).Some?
    ensures Balanced(lex, s[start..SpanEnd(lex, s, start).value])
  {
    var end := SpanEnd(lex, s, start).value;
    var ts := SpanIsReading(lex, s[start..], 0, start);
    assert s[start..][..end - start] == s[start..end];
  }

  lemma BalancedIsSpan(lex: Lexicon, s: string, start: nat, end: nat)
    requires start < end <= |s| && '\\' !in lex.quotes && Balanced(lex, s[start..end])
    ensures SpanEnd(lex, s, start) == Some(end)
  {
    var ts :| Valid(lex, ts) && Ends(lex, ts, 0) && TokensText(ts) == s[start..end];
    ReadingIsSpan(lex, ts, s[end..], 0, start);
    SplitAt(s, start, end);
  }

  lemma SplitAt(s: string, start: nat, end: nat)
    requires start <= end <= |s|
    ensures s[start..end] + s[end..] == s[start..]
  {
  }
}
