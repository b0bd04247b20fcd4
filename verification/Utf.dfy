/** UTF-8 bytes and UTF-16 code units, as JavaScript's `Buffer` converts between them. */
module Utf {
  type Byte = b: int | 0 <= b < 0x100
  type Unit = u: int | 0 <= u < 0x10000

  /** A Unicode scalar value. */
  type Scalar = c: int | 0 <= c < 0xD800 || 0xE000 <= c < 0x11_0000

  const REPLACEMENT: Scalar := 0xFFFD

  function EncodeOne(c: Scalar): (bytes: seq<Byte>)
    ensures bytes != []
  {
    if c < 0x80 then [c]
    else if c < 0x800 then [0xC0 + c / 0x40, 0x80 + c % 0x40]
    else if c < 0x1_0000 then [0xE0 + c / 0x1000, 0x80 + c / 0x40 % 0x40, 0x80 + c % 0x40]
    else [0xF0 + c / 0x4_0000, 0x80 + c / 0x1000 % 0x40, 0x80 + c / 0x40 % 0x40, 0x80 + c % 0x40]
  }

  function Encode(s: seq<Scalar>): seq<Byte> {
    if s == [] then [] else EncodeOne(s[0]) + Encode(s[1..])
  }

  /** The code units of one scalar: a surrogate pair above the basic plane. */
  function UnitsOne(c: Scalar): (units: seq<Unit>)
    ensures units != []
  {
    if c < 0x1_0000 then [c] else [0xD800 + (c - 0x1_0000) / 0x400, 0xDC00 + (c - 0x1_0000) % 0x400]
  }

  function Units(s: seq<Scalar>): seq<Unit> {
    if s == [] then [] else UnitsOne(s[0]) + Units(s[1..])
  }

  predicate High(u: Unit) { 0xD800 <= u < 0xDC00 }

  predicate Low(u: Unit) { 0xDC00 <= u < 0xE000 }

  /** Reading code units; an unpaired surrogate reads as U+FFFD. */
  function Scalars(u: seq<Unit>): seq<Scalar> {
    if u == [] then []
    else if High(u[0]) && |u| > 1 && Low(u[1]) then
      [0x1_0000 + (u[0] - 0xD800) * 0x400 + (u[1] - 0xDC00)] + Scalars(u[2..])
    else if High(u[0]) || Low(u[0]) then [REPLACEMENT] + Scalars(u[1..])
    else [u[0]] + Scalars(u[1..])
  }

  /** `Buffer.from(text, 'utf8')`. */
  function FromString(text: seq<Unit>): seq<Byte> {
    Encode(Scalars(text))
  }

  ghost predicate IsUtf8(bytes: seq<Byte>) {
    exists s :: Encode(s) == bytes
  }

  /** What is used of `Buffer.from(bytes).toString('utf8')`: it reads well-formed UTF-8 back. Its
      reading of malformed bytes is left open. */
  ghost predicate DecodesUtf8(toString: seq<Byte> -> seq<Unit>) {
    forall s: seq<Scalar> :: toString(Encode(s)) == Units(s)
  }

  ghost function StrictDecode(bytes: seq<Byte>): seq<Unit> {
    if IsUtf8(bytes) then
      var s :| Encode(s) == bytes;
      Units(s)
    else []
  }

  /** The first scalar of well-formed bytes. */
  function FirstScalar(b: seq<int>): int
    requires b != []
  {
    if b[0] < 0x80 || |b| < 2 then b[0]
    else if b[0] < 0xE0 || |b| < 3 then (b[0] - 0xC0) * 0x40 + (b[1] - 0x80)
    else if b[0] < 0xF0 || |b| < 4 then (b[0] - 0xE0) * 0x1000 + (b[1] - 0x80) * 0x40 + (b[2] - 0x80)
    else (b[0] - 0xF0) * 0x4_0000 + (b[1] - 0x80) * 0x1000 + (b[2] - 0x80) * 0x40 + (b[3] - 0x80)
  }

  lemma FirstScalarOfEncoding(c: Scalar, tail: seq<Byte>)
    ensures FirstScalar(EncodeOne(c) + tail) == c
  {
    assert (EncodeOne(c) + tail)[..|EncodeOne(c)|] == EncodeOne(c);
    if 0x1_0000 <= c {
      assert c / 0x1000 == c / 0x4_0000 * 0x40 + c / 0x1000 % 0x40;
      assert c / 0x40 == c / 0x1000 * 0x40 + c / 0x40 % 0x40;
    } else if 0x800 <= c {
      assert c / 0x40 == c / 0x1000 * 0x40 + c / 0x40 % 0x40;
    }
  }

  /** No two texts have the same UTF-8 bytes. */
  lemma {:induction false} EncodeInjective(s: seq<Scalar>, t: seq<Scalar>)
    requires Encode(s) == Encode(t)
    ensures s == t
    decreases |s|
  {
    if s == [] || t == [] {
    } else {
      FirstScalarOfEncoding(s[0], Encode(s[1..]));
      FirstScalarOfEncoding(t[0], Encode(t[1..]));
      assert Encode(s)[|EncodeOne(s[0])|..] == Encode(s[1..]);
      assert Encode(t)[|EncodeOne(t[0])|..] == Encode(t[1..]);
      EncodeInjective(s[1..], t[1..]);
    }
  }

  /** Because of that, a decoder exists. */
  lemma DecoderExists()
    ensures DecodesUtf8((bytes: seq<Byte>) => StrictDecode(bytes))
  {
    forall s: seq<Scalar>
      ensures StrictDecode(Encode(s)) == Units(s)
    {
      forall t | Encode(t) == Encode(s)
        ensures t == s
      {
        EncodeInjective(t, s);
      }
    }
  }

  lemma {:induction false} ScalarsOfUnits(s: seq<Scalar>)
    ensures Scalars(Units(s)) == s
    decreases |s|
  {
    if s != [] {
      var u := Units(s);
      assert u[..|UnitsOne(s[0])|] == UnitsOne(s[0]) && u[|UnitsOne(s[0])|..] == Units(s[1..]);
      ScalarsOfUnits(s[1..]);
    }
  }

  /** Read as text and written back, bytes are the same exactly when they are UTF-8. */
  lemma RecodedIffUtf8(toString: seq<Byte> -> seq<Unit>, bytes: seq<Byte>)
    requires DecodesUtf8(toString)
    ensures FromString(toString(bytes)) == bytes <==> IsUtf8(bytes)
  {
    if IsUtf8(bytes) {
      var s :| Encode(s) == bytes;
      ScalarsOfUnits(s);
    } else {
      assert Encode(Scalars(toString(bytes))) != bytes;
    }
  }

  lemma LoneContinuationByte()
    ensures !IsUtf8([0x80])
  {
    forall s
      ensures Encode(s) != [0x80]
    {
      if s != [] {
        assert Encode(s)[0] == EncodeOne(s[0])[0];
      }
    }
  }
}
