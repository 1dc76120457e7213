// opentine/_cbor.py: the text strings a decoder accepts are the UTF-8 forms of Unicode texts.
module Utf8Text {
  import opened ByteOrder
  import opened CborSyntax

  /** A code point that is no surrogate. */
  predicate Scalar(c: nat) {
    c < 0xD800 || 0xE000 <= c < 0x11_0000
  }

  /** RFC 3629 section 3 */
  function Utf8Of(c: nat): (s: seq<Byte>)
    requires Scalar(c)
    ensures |s| > 0
  {
    if c < 0x80 then [c]
    else if c < 0x800 then [0xC0 + c / 0x40, 0x80 + c % 0x40]
    else if c < 0x1_0000 then [0xE0 + c / 0x1000, 0x80 + c / 0x40 % 0x40, 0x80 + c % 0x40]
    else [0xF0 + c / 0x4_0000, 0x80 + c / 0x1000 % 0x40, 0x80 + c / 0x40 % 0x40, 0x80 + c % 0x40]
  }

  ghost predicate Scalars(text: seq<nat>) {
    forall i :: 0 <= i < |text| ==> Scalar(text[i])
  }

  function Utf8All(text: seq<nat>): seq<Byte>
    requires Scalars(text)
  {
    if text == [] then [] else Utf8Of(text[0]) + Utf8All(text[1..])
  }

  /** The first code point is the only one with its bytes, and they are read whole. */
  lemma FirstRead(c: nat, rest: seq<Byte>)
    requires Scalar(c)
    ensures Utf8Width(Utf8Of(c) + rest) == |Utf8Of(c)|
  {
    var s := Utf8Of(c) + rest;
    assert forall i :: 0 <= i < |Utf8Of(c)| ==> s[i] == Utf8Of(c)[i];
  }

  lemma OneByte(a: nat)
    requires a < 0x80
    ensures Scalar(a) && Utf8Of(a) == [a]
  {
  }

  lemma TwoBytes(a: nat, b: nat)
    requires 0xC2 <= a < 0xE0 && 0x80 <= b < 0xC0
    ensures var c := (a - 0xC0) * 0x40 + (b - 0x80); Scalar(c) && Utf8Of(c) == [a, b]
  {
  }

  lemma ThreeBytes(a: nat, b: nat, d: nat)
    requires 0xE0 <= a < 0xF0 && 0x80 <= b < 0xC0 && 0x80 <= d < 0xC0
    requires (a == 0xE0 ==> 0xA0 <= b) && (a == 0xED ==> b < 0xA0)
    ensures var c := ((a - 0xE0) * 0x40 + (b - 0x80)) * 0x40 + (d - 0x80); Scalar(c) && Utf8Of(c) == [a, b, d]
  {
    var high := (a - 0xE0) * 0x40 + (b - 0x80);
    var c := high * 0x40 + (d - 0x80);
    assert c / 0x40 == high && c % 0x40 == d - 0x80;
    assert c / 0x1000 == high / 0x40 == a - 0xE0;
  }

  lemma FourBytes(a: nat, b: nat, d: nat, e: nat)
    requires 0xF0 <= a < 0xF5 && 0x80 <= b < 0xC0 && 0x80 <= d < 0xC0 && 0x80 <= e < 0xC0
    requires (a == 0xF0 ==> 0x90 <= b) && (a == 0xF4 ==> b < 0x90)
    ensures var c := (((a - 0xF0) * 0x40 + (b - 0x80)) * 0x40 + (d - 0x80)) * 0x40 + (e - 0x80);
            Scalar(c) && Utf8Of(c) == [a, b, d, e]
  {
    var top := (a - 0xF0) * 0x40 + (b - 0x80);
    var high := top * 0x40 + (d - 0x80);
    var c := high * 0x40 + (e - 0x80);
    assert c / 0x40 == high && c % 0x40 == e - 0x80;
    assert c / 0x1000 == high / 0x40 == top && c / 0x4_0000 == top / 0x40 == a - 0xF0;
  }

  lemma FirstWritten(s: seq<Byte>) returns (c: nat)
    requires Utf8Width(s) > 0
    ensures Scalar(c) && Utf8Of(c) == s[..Utf8Width(s)]
  {
    hide Utf8Of;
    var n := Utf8Width(s);
    var b: seq<int> := s[..n];
    if n == 1 {
      c := b[0];
      OneByte(b[0]);
    } else if n == 2 {
      c := (b[0] - 0xC0) * 0x40 + (b[1] - 0x80);
      TwoBytes(b[0], b[1]);
    } else if n == 3 {
      c := ((b[0] - 0xE0) * 0x40 + (b[1] - 0x80)) * 0x40 + (b[2] - 0x80);
      ThreeBytes(b[0], b[1], b[2]);
    } else {
      c := (((b[0] - 0xF0) * 0x40 + (b[1] - 0x80)) * 0x40 + (b[2] - 0x80)) * 0x40 + (b[3] - 0x80);
      FourBytes(b[0], b[1], b[2], b[3]);
    }
  }

  lemma {:induction false} AllRead(text: seq<nat>)
    requires Scalars(text)
    ensures Utf8(Utf8All(text))
  {
    if text != [] {
      var rest := Utf8All(text[1..]);
      FirstRead(text[0], rest);
      AllRead(text[1..]);
      assert (Utf8Of(text[0]) + rest)[|Utf8Of(text[0])|..] == rest;
    }
  }

  lemma {:induction false} AllWritten(s: seq<Byte>) returns (text: seq<nat>)
    requires Utf8(s)
    ensures Scalars(text) && Utf8All(text) == s
  {
    if s == [] {
      text := [];
    } else {
      var c := FirstWritten(s);
      var rest := AllWritten(s[Utf8Width(s)..]);
      text := [c] + rest;
      assert text[1..] == rest && s == s[..Utf8Width(s)] + s[Utf8Width(s)..];
    }
  }

  /** Bytes decode as UTF-8 exactly when they are the bytes of some Unicode text. */
  lemma Utf8Iff(s: seq<Byte>)
    ensures Utf8(s) <==> exists text :: Scalars(text) && Utf8All(text) == s
  {
    if Utf8(s) {
      var text := AllWritten(s);
    }
    if text :| Scalars(text) && Utf8All(text) == s {
      AllRead(text);
    }
  }
}
