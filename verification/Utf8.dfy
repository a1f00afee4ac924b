/** The text check of the file parser against the definition of UTF-8 by code points (section 3 of RFC 3629). */
module Utf8 {
  import opened Integers
  import opened GgufFormat

  /** Code points without the surrogates. */
  predicate IsPoint(c: int) {
    0 <= c < 0xD800 || 0xE000 <= c <= 0x10FFFF
  }

  /** Six bits a byte, lowest last; the first byte tells the length. */
  function EncodePoint(c: nat): (bs: seq<u8>)
    requires IsPoint(c)
    ensures 1 <= |bs| <= 4
  {
    if c < 0x80 then [c]
    else if c < 0x800 then [0xC0 + c / 64, 0x80 + c % 64]
    else if c < 0x10000 then [0xE0 + c / 4096, 0x80 + c / 64 % 64, 0x80 + c % 64]
    else [0xF0 + c / 262144, 0x80 + c / 4096 % 64, 0x80 + c / 64 % 64, 0x80 + c % 64]
  }

  ghost predicate ArePoints(cs: seq<nat>) {
    forall i :: 0 <= i < |cs| ==> IsPoint(cs[i])
  }

  ghost function EncodePoints(cs: seq<nat>): seq<u8>
    requires ArePoints(cs)
  {
    if cs == [] then [] else EncodePoint(cs[0]) + EncodePoints(cs[1..])
  }

  lemma PointIsAccepted(c: nat, rest: seq<u8>)
    requires IsPoint(c)
    ensures CharLength(EncodePoint(c) + rest) == |EncodePoint(c)|
  {
    var bs := EncodePoint(c) + rest;
    if 0x800 <= c < 0x10000 {
      assert c / 64 % 64 == c / 64 - c / 4096 * 64;
    } else if 0x10000 <= c {
      assert c / 4096 % 64 == c / 4096 - c / 262144 * 64;
    }
  }

  /** The code point with these groups of six bits. */
  function Joined(a: int, b: int, c: int, d: int): int {
    a * 262144 + b * 4096 + c * 64 + d
  }

  /** The six bits that a byte after the first carries. */
  function Bits(b: u8): int {
    b as int - 0x80
  }

  lemma OneByte(bs: seq<u8>)
    requires CharLength(bs) == 1
    ensures IsPoint(bs[0]) && EncodePoint(bs[0]) == bs[..1]
  {
  }

  lemma TwoByteChar(bs: seq<u8>)
    requires CharLength(bs) == 2
    ensures var c := Joined(0, 0, bs[0] as int - 0xC0, Bits(bs[1])); IsPoint(c) && EncodePoint(c) == bs[..2]
  {
    TwoBytes(bs[0] as int - 0xC0, Bits(bs[1]));
  }

  lemma ThreeByteChar(bs: seq<u8>)
    requires CharLength(bs) == 3
    ensures var c := Joined(0, bs[0] as int - 0xE0, Bits(bs[1]), Bits(bs[2]));
            IsPoint(c) && EncodePoint(c) == bs[..3]
  {
    ThreeBytes(bs[0] as int - 0xE0, Bits(bs[1]), Bits(bs[2]));
  }

  lemma FourByteChar(bs: seq<u8>)
    requires CharLength(bs) == 4
    ensures var c := Joined(bs[0] as int - 0xF0, Bits(bs[1]), Bits(bs[2]), Bits(bs[3]));
            IsPoint(c) && EncodePoint(c) == bs[..4]
  {
    FourBytes(bs[0] as int - 0xF0, Bits(bs[1]), Bits(bs[2]), Bits(bs[3]));
  }

  lemma LengthIsSmall(bs: seq<u8>)
    ensures CharLength(bs) <= 4
  {
  }

  /** Every accepted character stands for a code point. */
  lemma AcceptedIsPoint(bs: seq<u8>) returns (c: nat)
    requires CharLength(bs) > 0
    ensures IsPoint(c) && EncodePoint(c) == bs[..CharLength(bs)]
  {
    hide CharLength, EncodePoint, Joined, Bits;
    LengthIsSmall(bs);
    if CharLength(bs) == 1 {
      OneByte(bs);
      c := bs[0];
    } else if CharLength(bs) == 2 {
      TwoByteChar(bs);
      c := Joined(0, 0, bs[0] as int - 0xC0, Bits(bs[1]));
    } else if CharLength(bs) == 3 {
      ThreeByteChar(bs);
      c := Joined(0, bs[0] as int - 0xE0, Bits(bs[1]), Bits(bs[2]));
    } else {
      FourByteChar(bs);
      c := Joined(bs[0] as int - 0xF0, Bits(bs[1]), Bits(bs[2]), Bits(bs[3]));
    }
  }

  lemma TwoBytes(a: nat, b: nat)
    requires b < 64
    ensures var n := Joined(0, 0, a, b); n / 64 == a && n % 64 == b
  {
  }

  lemma ThreeBytes(a: nat, b: nat, c: nat)
    requires b < 64 && c < 64
    ensures var n := Joined(0, a, b, c); n / 4096 == a && n / 64 % 64 == b && n % 64 == c
  {
    var n := Joined(0, a, b, c);
    assert n / 64 == a * 64 + b;
  }

  lemma FourBytes(a: nat, b: nat, c: nat, d: nat)
    requires b < 64 && c < 64 && d < 64
    ensures var n := Joined(a, b, c, d);
            n / 262144 == a && n / 4096 % 64 == b && n / 64 % 64 == c && n % 64 == d
  {
    var n := Joined(a, b, c, d);
    assert n / 64 == a * 4096 + b * 64 + c;
    assert n / 4096 == a * 64 + b;
  }

  lemma {:induction false} PointsAreUtf8(cs: seq<nat>)
    requires ArePoints(cs)
    ensures IsUtf8(EncodePoints(cs))
  {
    if cs != [] {
      PointsAreUtf8(cs[1..]);
      PointIsAccepted(cs[0], EncodePoints(cs[1..]));
      assert EncodePoints(cs)[|EncodePoint(cs[0])|..] == EncodePoints(cs[1..]);
    }
  }

  lemma {:induction false} Utf8IsPoints(bs: seq<u8>) returns (cs: seq<nat>)
    requires IsUtf8(bs)
    ensures ArePoints(cs) && EncodePoints(cs) == bs
  {
    hide CharLength, EncodePoint, IsPoint;
    if bs == [] {
      cs := [];
    } else {
      var c := AcceptedIsPoint(bs);
      var rest := Utf8IsPoints(bs[CharLength(bs)..]);
      cs := [c] + rest;
      assert cs[1..] == rest;
      assert bs == bs[..CharLength(bs)] + bs[CharLength(bs)..];
    }
  }

  /** The check accepts exactly the encodings of sequences of code points. */
  lemma Utf8Iff(bs: seq<u8>)
    ensures IsUtf8(bs) <==> exists cs :: ArePoints(cs) && bs == EncodePoints(cs)
  {
    hide CharLength, EncodePoint;
    if IsUtf8(bs) {
      var cs := Utf8IsPoints(bs);
    }
    if cs :| ArePoints(cs) && bs == EncodePoints(cs) {
      PointsAreUtf8(cs);
    }
  }
}
