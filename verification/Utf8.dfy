/** Well-formed UTF-8 (section 4 of RFC 3629), the only text the source's fatal decoders let through. */
module Utf8 {
  import opened Prelude

  predicate Continuation(b: byte) {
    0x80 <= b <= 0xbf
  }

  /** Length of the well-formed scalar value at the front of `s`, or 0 if there is none. */
  function ScalarLength(s: Bytes): (n: nat)
    ensures n <= |s|
  {
    if s == [] then 0
    else if s[0] < 0x80 then 1
    else if |s| < 2 || !Continuation(s[1]) then 0
    else if 0xc2 <= s[0] <= 0xdf then 2
    else if |s| < 3 || !Continuation(s[2]) then 0
    else if 0xe0 <= s[0] <= 0xef then
      if (s[0] == 0xe0 && s[1] < 0xa0) || (s[0] == 0xed && s[1] > 0x9f) then 0 else 3
    else if |s| < 4 || !Continuation(s[3]) then 0
    else if 0xf0 <= s[0] <= 0xf4 then
      if (s[0] == 0xf0 && s[1] < 0x90) || (s[0] == 0xf4 && s[1] > 0x8f) then 0 else 4
    else 0
  }

  predicate Valid(s: Bytes)
    decreases |s|
  {
    s == [] || (ScalarLength(s) > 0 && Valid(s[ScalarLength(s)..]))
  }

  /** A character number: any but the surrogates (section 3 of RFC 3629). */
  predicate Scalar(c: nat) {
    c < 0xd800 || 0xe000 <= c < 0x11_0000
  }

  /** Its bytes, by the table of that section. */
  function Encode(c: nat): Bytes
    requires Scalar(c)
  {
    if c < 0x80 then [c]
    else if c < 0x800 then [0xc0 + c / 0x40, 0x80 + c % 0x40]
    else if c < 0x1_0000 then [0xe0 + c / 0x1000, 0x80 + c / 0x40 % 0x40, 0x80 + c % 0x40]
    else [0xf0 + c / 0x4_0000, 0x80 + c / 0x1000 % 0x40, 0x80 + c / 0x40 % 0x40, 0x80 + c % 0x40]
  }

  predicate Scalars(text: seq<nat>) {
    forall i :: 0 <= i < |text| ==> Scalar(text[i])
  }

  function EncodeAll(text: seq<nat>): Bytes
    requires Scalars(text)
  {
    if text == [] then [] else Encode(text[0]) + EncodeAll(text[1..])
  }

  lemma ScalarEncoded(c: nat, rest: Bytes)
    requires Scalar(c)
    ensures ScalarLength(Encode(c) + rest) == |Encode(c)| > 0
  {
    var s := Encode(c) + rest;
    assert forall i :: 0 <= i < |Encode(c)| ==> s[i] == Encode(c)[i];
  }

  /** Six bits at a time. */
  lemma Digits(w: nat, x: nat, y: nat, z: nat)
    requires x < 0x40 && y < 0x40 && z < 0x40
    ensures var c := w * 0x40 + x; c / 0x40 == w && c % 0x40 == x
    ensures var c := w * 0x1000 + x * 0x40 + y; c / 0x1000 == w && c / 0x40 % 0x40 == x && c % 0x40 == y
    ensures var c := w * 0x4_0000 + x * 0x1000 + y * 0x40 + z;
            c / 0x4_0000 == w && c / 0x1000 % 0x40 == x && c / 0x40 % 0x40 == y && c % 0x40 == z
  {
    var c := w * 0x4_0000 + x * 0x1000 + y * 0x40 + z;
    assert c / 0x1000 == w * 0x40 + x && c / 0x40 == w * 0x1000 + x * 0x40 + y;
  }

  lemma LongRead(s: Bytes) returns (c: nat)
    requires ScalarLength(s) == 4
    ensures Scalar(c) && Encode(c) == s[..4]
  {
    var w: int, x: int, y: int, z: int := s[0] - 0xf0, s[1] - 0x80, s[2] - 0x80, s[3] - 0x80;
    c := w * 0x4_0000 + x * 0x1000 + y * 0x40 + z;
    Digits(w, x, y, z);
  }

  /** The character at the front of well-formed text. */
  lemma ScalarRead(s: Bytes) returns (c: nat)
    requires ScalarLength(s) > 0
    ensures Scalar(c) && Encode(c) == s[..ScalarLength(s)]
  {
    var n := ScalarLength(s);
    if n == 1 {
      c := s[0];
    } else if n == 2 {
      var w: int, x: int := s[0] - 0xc0, s[1] - 0x80;
      c := w * 0x40 + x;
      Digits(w, x, 0, 0);
    } else if n == 3 {
      var w: int, x: int, y: int := s[0] - 0xe0, s[1] - 0x80, s[2] - 0x80;
      c := w * 0x1000 + x * 0x40 + y;
      Digits(w, x, y, 0);
    } else {
      c := LongRead(s);
    }
  }

  lemma {:induction false} EncodedIsValid(text: seq<nat>)
    requires Scalars(text)
    ensures Valid(EncodeAll(text))
    decreases |text|
  {
    hide Encode, ScalarLength;
    if text != [] {
      ScalarEncoded(text[0], EncodeAll(text[1..]));
      EncodedIsValid(text[1..]);
      var s := EncodeAll(text);
      assert s[ScalarLength(s)..] == EncodeAll(text[1..]);
    }
  }

  lemma {:induction false} ValidIsEncoded(s: Bytes) returns (text: seq<nat>)
    requires Valid(s)
    ensures Scalars(text) && s == EncodeAll(text)
    decreases |s|
  {
    hide Encode, ScalarLength;
    if s == [] {
      text := [];
    } else {
      var n := ScalarLength(s);
      var c := ScalarRead(s);
      var rest := ValidIsEncoded(s[n..]);
      text := [c] + rest;
      assert text[1..] == rest && s == s[..n] + s[n..];
    }
  }

  /** Well-formed text is exactly the encoding of a sequence of characters. */
  lemma ValidExactly(s: Bytes)
    ensures Valid(s) <==> exists text :: Scalars(text) && s == EncodeAll(text)
  {
    if Valid(s) {
      var text := ValidIsEncoded(s);
    }
    if text :| Scalars(text) && s == EncodeAll(text) {
      EncodedIsValid(text);
    }
  }

  const BOM: Bytes := [0xef, 0xbb, 0xbf]

  /** A `TextDecoder` drops one leading byte order mark. */
  function Decoded(raw: Bytes): Bytes {
    if BOM <= raw then raw[3..] else raw
  }

  lemma BomIsValid(s: Bytes)
    ensures Valid(BOM + s) <==> Valid(s)
  {
    assert ScalarLength(BOM + s) == 3;
    assert (BOM + s)[3..] == s;
  }

  /** ASCII text is well formed. */
  lemma {:induction false} AsciiIsValid(s: Bytes)
    requires forall i :: 0 <= i < |s| ==> s[i] < 0x80
    ensures Valid(s)
    decreases |s|
  {
    if s != [] {
      AsciiIsValid(s[1..]);
    }
  }
}
