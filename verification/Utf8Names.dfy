/** `Coff.Utf8` is the encoding of section 3 of RFC 3629, read backwards: it accepts exactly the bytes that sequences of
    characters are encoded as. */
module Utf8Names {
  import opened Bytes
  import opened Coff

  /** A character's number: up to 0x10ffff, surrogates left out. */
  predicate Scalar(c: nat) {
    c < 0x11_0000 && !(0xd800 <= c < 0xe000)
  }

  predicate Scalars(cs: seq<nat>) {
    forall i :: 0 <= i < |cs| ==> Scalar(cs[i])
  }

  function EncodePoint(c: nat): (s: seq<byte>)
    requires Scalar(c)
    ensures 1 <= |s| <= 4
  {
    if c < 0x80 then [c]
    else if c < 0x800 then [0xc0 + c / 64, 0x80 + c % 64]
    else if c < 0x1_0000 then [0xe0 + c / 4096, 0x80 + c / 64 % 64, 0x80 + c % 64]
    else [0xf0 + c / 262144, 0x80 + c / 4096 % 64, 0x80 + c / 64 % 64, 0x80 + c % 64]
  }

  function Encode(cs: seq<nat>): seq<byte>
    requires Scalars(cs)
  {
    if cs == [] then [] else EncodePoint(cs[0]) + Encode(cs[1..])
  }

  /** An encoded character in front changes nothing. */
  lemma PointAccepted(c: nat, rest: seq<byte>)
    requires Scalar(c)
    ensures Utf8(EncodePoint(c) + rest) <==> Utf8(rest)
  {
    var e := EncodePoint(c);
    var s := e + rest;
    assert s[|e|..] == rest;
    PointBytes(c);
    assert forall i :: 0 <= i < |e| ==> s[i] == e[i];
    hide EncodePoint;
  }

  lemma PointBytes(c: nat)
    requires Scalar(c)
    ensures var e := EncodePoint(c);
      && (|e| == 1 ==> e[0] < 0x80)
      && (|e| == 2 ==> 0xc2 <= e[0] < 0xe0 && Tail8(e[1]))
      && (|e| == 3 ==> 0xe0 <= e[0] < 0xf0 && Tail8(e[1]) && Tail8(e[2]))
      && (|e| == 3 ==> (e[0] == 0xe0 ==> e[1] >= 0xa0) && (e[0] == 0xed ==> e[1] < 0xa0))
      && (|e| == 4 ==> 0xf0 <= e[0] < 0xf5 && Tail8(e[1]) && Tail8(e[2]) && Tail8(e[3]))
      && (|e| == 4 ==> (e[0] == 0xf0 ==> e[1] >= 0x90) && (e[0] == 0xf4 ==> e[1] < 0x90))
  {
  }

  lemma {:induction false} EncodedAccepted(cs: seq<nat>)
    requires Scalars(cs)
    ensures Utf8(Encode(cs))
  {
    if cs != [] {
      EncodedAccepted(cs[1..]);
      PointAccepted(cs[0], Encode(cs[1..]));
    }
  }

  /** The first character of accepted bytes. */
  lemma FirstPoint(s: seq<byte>) returns (c: nat)
    requires Utf8(s) && s != []
    ensures Scalar(c) && |EncodePoint(c)| <= |s| && s == EncodePoint(c) + s[|EncodePoint(c)|..]
    ensures Utf8(s[|EncodePoint(c)|..])
  {
    if s[0] < 0x80 {
      c := s[0];
      assert EncodePoint(c) == [s[0]];
    } else if s[0] < 0xe0 {
      c := Two(s[0], s[1]);
    } else if s[0] < 0xf0 {
      c := Three(s[0], s[1], s[2]);
    } else {
      c := Four(s[0], s[1], s[2], s[3]);
    }
    hide Utf8, EncodePoint, Scalar;
    Splits(s, EncodePoint(c));
  }

  lemma Splits(s: seq<byte>, e: seq<byte>)
    requires |e| <= |s| && forall i :: 0 <= i < |e| ==> s[i] == e[i]
    ensures s == e + s[|e|..]
  {
  }

  lemma Two(a: byte, b: byte) returns (c: nat)
    requires 0xc2 <= a < 0xe0 && Tail8(b)
    ensures Scalar(c) && EncodePoint(c) == [a, b]
  {
    c := 64 * (a as int - 0xc0) + (b as int - 0x80);
  }

  lemma Three(a: byte, b: byte, d: byte) returns (c: nat)
    requires 0xe0 <= a < 0xf0 && Tail8(b) && Tail8(d)
    requires (a == 0xe0 ==> b >= 0xa0) && (a == 0xed ==> b < 0xa0)
    ensures Scalar(c) && EncodePoint(c) == [a, b, d]
  {
    c := 4096 * (a as int - 0xe0) + 64 * (b as int - 0x80) + (d as int - 0x80);
    assert c / 64 == 64 * (a as int - 0xe0) + (b as int - 0x80);
    assert c / 4096 == a as int - 0xe0;
  }

  lemma Four(a: byte, b: byte, d: byte, e: byte) returns (c: nat)
    requires 0xf0 <= a < 0xf5 && Tail8(b) && Tail8(d) && Tail8(e)
    requires (a == 0xf0 ==> b >= 0x90) && (a == 0xf4 ==> b < 0x90)
    ensures Scalar(c) && EncodePoint(c) == [a, b, d, e]
  {
    c := 262144 * (a as int - 0xf0) + 4096 * (b as int - 0x80) + 64 * (d as int - 0x80) + (e as int - 0x80);
    assert c / 64 == 4096 * (a as int - 0xf0) + 64 * (b as int - 0x80) + (d as int - 0x80);
    assert c / 4096 == 64 * (a as int - 0xf0) + (b as int - 0x80);
    assert c / 262144 == a as int - 0xf0;
  }

  lemma {:induction false} Decoded(s: seq<byte>) returns (cs: seq<nat>)
    requires Utf8(s)
    ensures Scalars(cs) && s == Encode(cs)
    decreases |s|
  {
    hide Utf8, EncodePoint;
    cs := [];
    if s != [] {
      var c := FirstPoint(s);
      var rest := Decoded(s[|EncodePoint(c)|..]);
      cs := [c] + rest;
      assert cs[1..] == rest;
    }
  }

  /** A section name can be decoded exactly when it encodes some sequence of characters. */
  lemma Utf8When(s: seq<byte>)
    ensures Utf8(s) <==> exists cs :: Scalars(cs) && s == Encode(cs)
  {
    hide Utf8, Encode;
    if Utf8(s) {
      var cs := Decoded(s);
    }
    if cs :| Scalars(cs) && s == Encode(cs) {
      EncodedAccepted(cs);
    }
  }
}
