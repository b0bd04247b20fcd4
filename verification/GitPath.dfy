/** Git's C-style path quoting and its inverse (src/apply-adhoc-diff.js:313-343). */
module GitPath {
  import opened Wrappers
  import opened Utf

  const QUOTE: Unit := 34
  const BACKSLASH: Unit := 92
  const CR: Unit := 13

  predicate IsDigit(u: Unit, most: int) { 48 <= u <= 48 + most }

  /** The byte named by the letter after a backslash. */
  function EscapeOf(letter: Unit): Option<Byte> {
    if letter == 97 then Some(7)
    else if letter == 98 then Some(8)
    else if letter == 102 then Some(12)
    else if letter == 110 then Some(10)
    else if letter == 114 then Some(13)
    else if letter == 116 then Some(9)
    else if letter == 118 then Some(11)
    else if letter == BACKSLASH || letter == QUOTE then Some(letter)
    else None
  }

  /** `/^[0-3][0-7]{2}/` on what follows a backslash. */
  predicate OctalAt(body: seq<Unit>, i: nat) {
    i + 3 <= |body| && IsDigit(body[i], 3) && IsDigit(body[i + 1], 7) && IsDigit(body[i + 2], 7)
  }

  function OctalValue(body: seq<Unit>, i: nat): Byte
    requires OctalAt(body, i)
  {
    (body[i] - 48) * 64 + (body[i + 1] - 48) * 8 + (body[i + 2] - 48)
  }

  /** What a quoted body stands for at position `i`, and how many code units that takes. */
  function Front(body: seq<Unit>, i: nat): (r: (seq<Byte>, nat))
    requires i < |body|
    ensures 1 <= r.1 <= |body| - i
  {
    if body[i] != BACKSLASH then (FromString([body[i]]), 1)
    else if OctalAt(body, i + 1) then ([OctalValue(body, i + 1)], 4)
    else if i + 1 < |body| && EscapeOf(body[i + 1]).Some? then ([EscapeOf(body[i + 1]).value], 2)
    else ([BACKSLASH], 1)
  }

  /** The bytes a quoted body stands for. */
  function UnquotedBytes(body: seq<Unit>): seq<Byte>
    decreases |body|
  {
    if body == [] then [] else Front(body, 0).0 + UnquotedBytes(body[Front(body, 0).1..])
  }

  lemma FrontOfSuffix(body: seq<Unit>, i: nat)
    requires i < |body|
    ensures Front(body[i..], 0) == Front(body, i)
    ensures UnquotedBytes(body[i..]) == Front(body, i).0 + UnquotedBytes(body[i + Front(body, i).1..])
  {
    var rest := body[i..];
    assert OctalAt(rest, 1) <==> OctalAt(body, i + 1);
    var n := Front(body, i).1;
    assert rest[n..] == body[i + n..];
  }

  /** The loop has read `body` up to `i` and collected `bytes`. */
  ghost predicate Collected(body: seq<Unit>, bytes: seq<Byte>, i: nat) {
    i <= |body| && UnquotedBytes(body) == bytes + UnquotedBytes(body[i..])
  }

  lemma CollectFront(body: seq<Unit>, bytes: seq<Byte>, i: nat)
    requires Collected(body, bytes, i) && i < |body|
    ensures Collected(body, bytes + Front(body, i).0, i + Front(body, i).1)
  {
    FrontOfSuffix(body, i);
  }

  function StripCr(raw: seq<Unit>): seq<Unit> {
    if raw != [] && raw[|raw| - 1] == CR then raw[..|raw| - 1] else raw
  }

  predicate IsQuoted(text: seq<Unit>) {
    |text| >= 2 && text[0] == QUOTE && text[|text| - 1] == QUOTE
  }

  /** The path a header field stands for; `toString` reads bytes as UTF-8. */
  function Unquoted(toString: seq<Byte> -> seq<Unit>, raw: seq<Unit>): seq<Unit> {
    var text := StripCr(raw);
    if IsQuoted(text) then toString(UnquotedBytes(text[1..|text| - 1])) else text
  }

  /** What a backslash before `rest` comes to: three octal digits, up to 377, are a byte; one of
      `abfnrtv"\` names a byte; before anything else, or at the end, it stands for itself. */
  ghost predicate Escape(rest: seq<Unit>, piece: seq<Byte>, length: nat) {
    var octal := |rest| >= 3 && 48 <= rest[0] <= 51 && 48 <= rest[1] <= 55 && 48 <= rest[2] <= 55;
    && (octal ==> length == 4 && piece == [(rest[0] - 48) * 64 + (rest[1] - 48) * 8 + (rest[2] - 48)])
    && (!octal && rest != [] && EscapeOf(rest[0]).Some? ==> length == 2 && piece == [EscapeOf(rest[0]).value])
    && (!octal && (rest == [] || EscapeOf(rest[0]).None?) ==> length == 1 && piece == [92])
  }

  /** One turn of the loop of `unquoteGitPath`. */
  method UnquoteFront(body: seq<Unit>, i: nat) returns (piece: seq<Byte>, length: nat)
    requires i < |body|
    ensures (piece, length) == Front(body, i)
    ensures body[i] != BACKSLASH ==> piece == FromString([body[i]]) && length == 1
    ensures body[i] == BACKSLASH ==> Escape(body[i + 1..], piece, length)
  {
    var ch := body[i];
    if ch != BACKSLASH {
      return FromString([ch]), 1;
    }
    if OctalAt(body, i + 1) {
      return [OctalValue(body, i + 1)], 4;
    }
    if i + 1 < |body| && EscapeOf(body[i + 1]).Some? {
      return [EscapeOf(body[i + 1]).value], 2;
    }
    return [BACKSLASH], 1;
  }

  /** The loop of `unquoteGitPath`. */
  method UnquoteBody(body: seq<Unit>) returns (bytes: seq<Byte>)
    ensures bytes == UnquotedBytes(body)
  {
    bytes := [];
    var i := 0;
    while i < |body|
      invariant Collected(body, bytes, i)
    {
      CollectFront(body, bytes, i);
      var piece, length := UnquoteFront(body, i);
      bytes := bytes + piece;
      i := i + length;
    }
  }

  /** `raw` is the quoted path with this body, a carriage return after it or not. */
  ghost predicate IsQuotedField(raw: seq<Unit>, body: seq<Unit>) {
    raw == [QUOTE] + body + [QUOTE] || raw == [QUOTE] + body + [QUOTE] + [CR]
  }

  lemma QuotedField(toString: seq<Byte> -> seq<Unit>, raw: seq<Unit>, body: seq<Unit>)
    requires IsQuotedField(raw, body)
    ensures Unquoted(toString, raw) == toString(UnquotedBytes(body))
  {
    var quoted := [QUOTE] + body + [QUOTE];
    assert StripCr(raw) == quoted;
    assert quoted[1..|quoted| - 1] == body;
  }

  method UnquoteGitPath(toString: seq<Byte> -> seq<Unit>, raw: seq<Unit>) returns (path: seq<Unit>)
    ensures path == Unquoted(toString, raw)
    ensures forall body :: IsQuotedField(raw, body) ==> path == toString(UnquotedBytes(body))
    ensures raw != [] && raw[0] != QUOTE ==> path == if raw[|raw| - 1] == CR then raw[..|raw| - 1] else raw
    ensures DecodesUtf8(toString) ==> forall bs :: raw == QuotePath(bs) ==> path == toString(bs)
    ensures DecodesUtf8(toString) ==> forall name :: raw == QuotePath(Encode(name)) ==> path == Units(name)
  {
    forall body | IsQuotedField(raw, body)
      ensures Unquoted(toString, raw) == toString(UnquotedBytes(body))
    {
      QuotedField(toString, raw, body);
    }
    if DecodesUtf8(toString) {
      forall bs | raw == QuotePath(bs)
        ensures Unquoted(toString, raw) == toString(bs)
      {
        UnquotedQuotedPath(toString, bs);
      }
    }
    var text := if raw != [] && raw[|raw| - 1] == CR then raw[..|raw| - 1] else raw;
    if !(|text| >= 2 && text[0] == QUOTE && text[|text| - 1] == QUOTE) {
      return text;
    }
    var bytes := UnquoteBody(text[1..|text| - 1]);
    return toString(bytes);
  }

  // ----- the printer: how git writes a path in a patch header (core.quotePath at its default)

  predicate NeedsQuoting(b: Byte) {
    b < 32 || b == 127 || b >= 128 || b == QUOTE || b == BACKSLASH
  }

  function QuoteByte(b: Byte): seq<Unit> {
    if b == 7 then [BACKSLASH, 97]
    else if b == 8 then [BACKSLASH, 98]
    else if b == 9 then [BACKSLASH, 116]
    else if b == 10 then [BACKSLASH, 110]
    else if b == 11 then [BACKSLASH, 118]
    else if b == 12 then [BACKSLASH, 102]
    else if b == 13 then [BACKSLASH, 114]
    else if b == QUOTE then [BACKSLASH, QUOTE]
    else if b == BACKSLASH then [BACKSLASH, BACKSLASH]
    else if NeedsQuoting(b) then [BACKSLASH, 48 + b / 64, 48 + b / 8 % 8, 48 + b % 8]
    else [b]
  }

  function QuoteBytes(bs: seq<Byte>): seq<Unit> {
    if bs == [] then [] else QuoteByte(bs[0]) + QuoteBytes(bs[1..])
  }

  function QuotePath(bs: seq<Byte>): seq<Unit> {
    if exists k :: 0 <= k < |bs| && NeedsQuoting(bs[k]) then [QUOTE] + QuoteBytes(bs) + [QUOTE]
    else seq(|bs|, k requires 0 <= k < |bs| => bs[k] as int)
  }

  lemma FrontIsByte(b: Byte, tail: seq<Unit>)
    ensures Front(QuoteByte(b) + tail, 0) == ([b], |QuoteByte(b)|)
  {
    var q := QuoteByte(b);
    var body := q + tail;
    assert body[..|q|] == q;
    if |q| == 1 {
      AsciiFromString([b]);
    } else if |q| == 4 {
      assert body[1] == q[1] && body[2] == q[2] && body[3] == q[3];
      assert b == b / 64 * 64 + b / 8 % 8 * 8 + b % 8;
    } else {
      assert body[1] == q[1] && !IsDigit(body[1], 3);
    }
  }

  lemma ByteUnquotes(b: Byte, tail: seq<Unit>)
    ensures UnquotedBytes(QuoteByte(b) + tail) == [b] + UnquotedBytes(tail)
  {
    var body := QuoteByte(b) + tail;
    assert body[|QuoteByte(b)|..] == tail;
    FrontIsByte(b, tail);
  }

  lemma {:induction false} AsciiFromString(text: seq<Unit>)
    requires forall k :: 0 <= k < |text| ==> text[k] < 128
    ensures FromString(text) == text
    decreases |text|
  {
    if text != [] {
      AsciiFromString(text[1..]);
    }
  }

  /** The loop recovers every byte that was quoted. */
  lemma {:induction false} BytesUnquote(bs: seq<Byte>)
    ensures UnquotedBytes(QuoteBytes(bs)) == bs
    decreases |bs|
  {
    if bs != [] {
      ByteUnquotes(bs[0], QuoteBytes(bs[1..]));
      BytesUnquote(bs[1..]);
    }
  }

  /** Unquoting what git printed for `bs` reads `bs` as UTF-8. */
  lemma UnquotedQuotedPath(toString: seq<Byte> -> seq<Unit>, bs: seq<Byte>)
    requires DecodesUtf8(toString)
    ensures Unquoted(toString, QuotePath(bs)) == toString(bs)
  {
    if exists k :: 0 <= k < |bs| && NeedsQuoting(bs[k]) {
      var raw := QuotePath(bs);
      assert raw[|raw| - 1] == QUOTE && raw[1..|raw| - 1] == QuoteBytes(bs);
      BytesUnquote(bs);
    } else {
      AsciiFromString(QuotePath(bs));
      assert QuotePath(bs) == bs;
      assert forall k :: 0 <= k < |bs| ==> bs[k] != QUOTE && bs[k] != CR;
      AsciiUnits(bs);
    }
  }

  lemma {:induction false} AsciiUnits(s: seq<Scalar>)
    requires forall k :: 0 <= k < |s| ==> s[k] < 128
    ensures Units(s) == s && Encode(s) == s
    decreases |s|
  {
    if s != [] {
      AsciiUnits(s[1..]);
    }
  }

  /** The round trip on every file name: quoting its UTF-8 bytes and unquoting gives the name back. */
  lemma UnquoteInvertsQuote(toString: seq<Byte> -> seq<Unit>, name: seq<Scalar>)
    requires DecodesUtf8(toString)
    ensures Unquoted(toString, QuotePath(Encode(name))) == Units(name)
  {
    UnquotedQuotedPath(toString, Encode(name));
  }

  /** On arbitrary bytes the loop always recovers them; the path returned denotes the same bytes
      exactly when they are UTF-8, because the result is a JavaScript string. */
  lemma BytesSurviveIffUtf8(toString: seq<Byte> -> seq<Unit>, bs: seq<Byte>)
    requires DecodesUtf8(toString)
    ensures FromString(Unquoted(toString, QuotePath(bs))) == bs <==> IsUtf8(bs)
  {
    UnquotedQuotedPath(toString, bs);
    RecodedIffUtf8(toString, bs);
  }

  // ----- the same, when git is told not to quote high bytes (core.quotePath=false)

  predicate Special(c: Scalar) {
    c < 32 || c == 127 || c == QUOTE || c == BACKSLASH
  }

  function QuoteScalars(name: seq<Scalar>): seq<Unit> {
    if name == [] then []
    else (if Special(name[0]) then QuoteByte(name[0]) else UnitsOne(name[0])) + QuoteScalars(name[1..])
  }

  function QuotePathVerbatim(name: seq<Scalar>): seq<Unit> {
    if exists k :: 0 <= k < |name| && Special(name[k]) then [QUOTE] + QuoteScalars(name) + [QUOTE] else Units(name)
  }

  /** Scalars above the basic plane come out as two replacement characters: the loop encodes one
      code unit at a time. */
  function Mangled(name: seq<Scalar>): seq<Scalar> {
    if name == [] then []
    else (if name[0] < 0x1_0000 then [name[0]] else [REPLACEMENT, REPLACEMENT]) + Mangled(name[1..])
  }

  lemma EncodeAppend(s: seq<Scalar>, t: seq<Scalar>)
    ensures Encode(s + t) == Encode(s) + Encode(t)
  {
    if s == [] {
      assert s + t == t;
    } else {
      assert (s + t)[1..] == s[1..] + t;
    }
  }

  /** A plain character of the basic plane. */
  lemma BasicUnquotes(c: Scalar, tail: seq<Unit>)
    requires !Special(c) && c < 0x1_0000
    ensures UnquotedBytes(UnitsOne(c) + tail) == EncodeOne(c) + UnquotedBytes(tail)
  {
    assert UnitsOne(c) == [c as int] && ([c as int] + tail)[1..] == tail;
    assert Front([c as int] + tail, 0) == (FromString([c as int]), 1);
    assert Scalars([c as int]) == [c] && Encode([c]) == EncodeOne(c);
  }

  /** A surrogate pair: each half is converted alone. */
  lemma AstralUnquotes(c: Scalar, tail: seq<Unit>)
    requires c >= 0x1_0000
    ensures UnquotedBytes(UnitsOne(c) + tail) == EncodeOne(REPLACEMENT) + (EncodeOne(REPLACEMENT) + UnquotedBytes(tail))
  {
    var u := UnitsOne(c);
    HalfUnquotes(u[0], [u[1]] + tail);
    HalfUnquotes(u[1], tail);
    assert u + tail == [u[0]] + ([u[1]] + tail);
  }

  lemma HalfIsReplaced(half: Unit)
    requires High(half) || Low(half)
    ensures FromString([half]) == EncodeOne(REPLACEMENT)
  {
    assert [half][1..] == [];
    assert Scalars([half]) == [REPLACEMENT] + Scalars([]);
    assert Encode([REPLACEMENT]) == EncodeOne(REPLACEMENT) + Encode([]);
  }

  lemma HalfUnquotes(half: Unit, tail: seq<Unit>)
    requires High(half) || Low(half)
    ensures UnquotedBytes([half] + tail) == EncodeOne(REPLACEMENT) + UnquotedBytes(tail)
  {
    assert ([half] + tail)[1..] == tail;
    assert Front([half] + tail, 0) == (FromString([half]), 1);
    HalfIsReplaced(half);
  }

  lemma {:induction false} VerbatimUnquotes(name: seq<Scalar>)
    ensures UnquotedBytes(QuoteScalars(name)) == Encode(Mangled(name))
    decreases |name|
  {
    if name != [] {
      var c, tail := name[0], QuoteScalars(name[1..]);
      VerbatimUnquotes(name[1..]);
      if Special(c) {
        ByteUnquotes(c, tail);
      } else if c < 0x1_0000 {
        BasicUnquotes(c, tail);
      } else {
        AstralUnquotes(c, tail);
        EncodeAppend([REPLACEMENT, REPLACEMENT], Mangled(name[1..]));
        EncodeAppend([REPLACEMENT], [REPLACEMENT]);
      }
    }
  }

  lemma {:induction false} MangledIffAstral(name: seq<Scalar>)
    ensures Mangled(name) == name <==> forall k :: 0 <= k < |name| ==> name[k] < 0x1_0000
    ensures forall k :: 0 <= k < |Mangled(name)| ==> Mangled(name)[k] < 0x1_0000
    decreases |name|
  {
    if name != [] {
      MangledIffAstral(name[1..]);
      assert forall k :: 0 <= k < |name| - 1 ==> name[1..][k] == name[k + 1];
      if name[0] < 0x1_0000 {
        assert Mangled(name)[1..] == Mangled(name[1..]);
      }
    }
  }

  lemma {:induction false} UnitsEndLikeText(name: seq<Scalar>)
    ensures Units(name) != [] ==> name != []
    ensures Units(name) != [] && Units(name)[|Units(name)| - 1] == QUOTE ==> QUOTE in name
    ensures Units(name) != [] && Units(name)[|Units(name)| - 1] == CR ==> CR in name
    decreases |name|
  {
    if name != [] {
      UnitsEndLikeText(name[1..]);
    }
  }

  lemma PlainVerbatim(toString: seq<Byte> -> seq<Unit>, name: seq<Scalar>)
    requires DecodesUtf8(toString) && forall k :: 0 <= k < |name| ==> !Special(name[k])
    ensures Unquoted(toString, QuotePathVerbatim(name)) == Units(name)
  {
    UnitsEndLikeText(name);
    assert QUOTE !in name && CR !in name;
  }

  lemma QuotedVerbatim(toString: seq<Byte> -> seq<Unit>, name: seq<Scalar>)
    requires DecodesUtf8(toString) && !forall k :: 0 <= k < |name| ==> !Special(name[k])
    ensures Unquoted(toString, QuotePathVerbatim(name)) == Units(Mangled(name))
  {
    var raw := QuotePathVerbatim(name);
    assert raw[|raw| - 1] == QUOTE && raw[1..|raw| - 1] == QuoteScalars(name);
    VerbatimUnquotes(name);
    MangledIffAstral(name);
  }

  /** With high bytes left unquoted the round trip holds exactly for names that need no quoting or
      stay within the basic plane. */
  lemma VerbatimRoundTripIff(toString: seq<Byte> -> seq<Unit>, name: seq<Scalar>)
    requires DecodesUtf8(toString)
    ensures Unquoted(toString, QuotePathVerbatim(name)) == Units(name) <==>
            || (forall k :: 0 <= k < |name| ==> !Special(name[k]))
            || (forall k :: 0 <= k < |name| ==> name[k] < 0x1_0000)
  {
    if forall k :: 0 <= k < |name| ==> !Special(name[k]) {
      PlainVerbatim(toString, name);
    } else {
      QuotedVerbatim(toString, name);
      MangledIffAstral(name);
      if Units(Mangled(name)) == Units(name) {
        ScalarsOfUnits(name);
        ScalarsOfUnits(Mangled(name));
      }
    }
  }
}
