/** Concrete JSON texts, RFC 8259 sections 2 to 5 and 7: a value together with the whitespace and
    the escapes it is written with, and the text it prints to. */
module JsonText {
  /** One character of a string (section 7), as written. */
  datatype Piece =
    | Plain(c: char)
    | Escape(c: char)
    | Unicode(d0: char, d1: char, d2: char, d3: char)

  datatype Value =
    | Literal(text: string)  // true, false, null or a number
    | Text(pieces: seq<Piece>)
    | Array(elems: seq<Elem>, blank: string)
    | Object(members: seq<Member>, blank: string)

  /** An array element with the whitespace on either side. */
  datatype Elem = Elem(before: string, value: Value, after: string)

  /** An object member with the whitespace around its name and its value. */
  datatype Member = Member(before: string, name: seq<Piece>, afterName: string, beforeValue: string, value: Value,
                           after: string)

  predicate IsWhitespace(s: string) {
    forall k :: 0 <= k < |s| ==> s[k] in {' ', '\t', '\n', '\r'}
  }

  predicate IsHex(c: char) {
    '0' <= c <= '9' || 'a' <= c <= 'f' || 'A' <= c <= 'F'
  }

  predicate ValidPiece(p: Piece) {
    match p
    case Plain(c) => c != '"' && c != '\\' && ' ' <= c
    case Escape(c) => c in {'"', '\\', '/', 'b', 'f', 'n', 'r', 't'}
    case Unicode(d0, d1, d2, d3) => IsHex(d0) && IsHex(d1) && IsHex(d2) && IsHex(d3)
  }

  predicate ValidPieces(ps: seq<Piece>) {
    forall k :: 0 <= k < |ps| ==> ValidPiece(ps[k])
  }

  /** Section 3's names, and any run of the characters section 6 writes numbers with. */
  predicate ValidLiteral(s: string) {
    || s in {"true", "false", "null"}
    || (s != "" && forall k :: 0 <= k < |s| ==> '0' <= s[k] <= '9' || s[k] in {'+', '-', '.', 'e', 'E'})
  }

  predicate Valid(v: Value)
    decreases v, 0
  {
    match v
    case Literal(text) => ValidLiteral(text)
    case Text(pieces) => ValidPieces(pieces)
    case Array(elems, blank) => IsWhitespace(blank) && ValidElems(elems)
    case Object(members, blank) => IsWhitespace(blank) && ValidMembers(members)
  }

  predicate ValidElems(es: seq<Elem>)
    decreases es, 0
  {
    es == [] ||
    (&& IsWhitespace(es[0].before) && IsWhitespace(es[0].after)
     && Valid(es[0].value) && ValidElems(es[1..]))
  }

  predicate ValidMembers(ms: seq<Member>)
    decreases ms, 0
  {
    ms == [] ||
    (&& IsWhitespace(ms[0].before) && IsWhitespace(ms[0].afterName)
     && IsWhitespace(ms[0].beforeValue) && IsWhitespace(ms[0].after)
     && ValidPieces(ms[0].name) && Valid(ms[0].value) && ValidMembers(ms[1..]))
  }

  function PrintPiece(p: Piece): string {
    match p
    case Plain(c) => [c]
    case Escape(c) => ['\\', c]
    case Unicode(d0, d1, d2, d3) => ['\\', 'u', d0, d1, d2, d3]
  }

  function PrintPieces(ps: seq<Piece>): string {
    if ps == [] then "" else PrintPiece(ps[0]) + PrintPieces(ps[1..])
  }

  function PrintString(ps: seq<Piece>): string {
    "\"" + PrintPieces(ps) + "\""
  }

  function Print(v: Value): string
    decreases v, 1
  {
    match v
    case Literal(text) => text
    case Text(pieces) => PrintString(pieces)
    case Array(elems, blank) => "[" + (if elems == [] then blank else PrintElems(elems)) + "]"
    case Object(members, blank) => "{" + (if members == [] then blank else PrintMembers(members)) + "}"
  }

  function PrintElems(es: seq<Elem>): string
    requires es != []
    decreases es, 0
  {
    es[0].before + Print(es[0].value) + es[0].after + (if |es| == 1 then "" else "," + PrintElems(es[1..]))
  }

  function PrintMembers(ms: seq<Member>): string
    requires ms != []
    decreases ms, 0
  {
    ms[0].before + PrintString(ms[0].name) + ms[0].afterName + ":" + ms[0].beforeValue + Print(ms[0].value)
        + ms[0].after
      + (if |ms| == 1 then "" else "," + PrintMembers(ms[1..]))
  }
}
