/** UTF-8 as the Rust standard library checks and produces it (Unicode Standard, tables 3-6 and 3-7). */
module Utf8 {
  import opened Bytes

  /** A Unicode scalar value: a Rust `char`. */
  type Scalar = c: int | 0 <= c < 0x11_0000 && !(0xD800 <= c < 0xE000)

  datatype First = NotWellFormed | First(scalar: Scalar, width: nat)

  datatype Text = Malformed | Text(chars: seq<Scalar>)

  predicate Continuation(b: byte) {
    0x80 <= b < 0xC0
  }

  function EncodeChar(c: Scalar): (s: Bytes)
    ensures 1 <= |s| <= 4
  {
    if c < 0x80 then [c]
    else if c < 0x800 then [0xC0 + c / 0x40, 0x80 + c % 0x40]
    else if c < 0x1_0000 then [0xE0 + c / 0x1000, 0x80 + c / 0x40 % 0x40, 0x80 + c % 0x40]
    else [0xF0 + c / 0x4_0000, 0x80 + c / 0x1000 % 0x40, 0x80 + c / 0x40 % 0x40, 0x80 + c % 0x40]
  }

  /** Four digits in base 64. */
  function Digits(d3: nat, d2: nat, d1: nat, d0: nat): nat {
    d3 * 0x4_0000 + d2 * 0x1000 + d1 * 0x40 + d0
  }

  lemma DigitsOf(d3: nat, d2: nat, d1: nat, d0: nat)
    requires d2 < 0x40 && d1 < 0x40 && d0 < 0x40
    ensures var v := Digits(d3, d2, d1, d0);
            v % 0x40 == d0 && v / 0x40 % 0x40 == d1 && v / 0x1000 % 0x40 == d2 && v / 0x4_0000 == d3
            && v / 0x40 == d3 * 0x1000 + d2 * 0x40 + d1 && v / 0x1000 == d3 * 0x40 + d2
  {
    var v := Digits(d3, d2, d1, d0);
    assert v / 0x40 == d3 * 0x1000 + d2 * 0x40 + d1;
    assert v / 0x1000 == d3 * 0x40 + d2;
  }

  lemma DigitsSum(v: nat)
    ensures v == Digits(v / 0x4_0000, v / 0x1000 % 0x40, v / 0x40 % 0x40, v % 0x40)
  {
    assert v / 0x40 / 0x40 == v / 0x1000;
    assert v / 0x1000 / 0x40 == v / 0x4_0000;
  }

  /** The scalar value at the front of a nonempty string of octets. */
  function DecodeFirst(b: Bytes): (r: First)
    requires b != []
    ensures r.First? ==> 1 <= r.width <= |b|
  {
    if b[0] < 0x80 then First(b[0], 1)
    else if 0xC2 <= b[0] < 0xE0 && |b| >= 2 && Continuation(b[1]) then
      First(Digits(0, 0, b[0] - 0xC0, b[1] - 0x80), 2)
    else if 0xE0 <= b[0] < 0xF0 && |b| >= 3 && Continuation(b[1]) && Continuation(b[2])
            && (b[0] == 0xE0 ==> b[1] >= 0xA0) && (b[0] == 0xED ==> b[1] < 0xA0) then
      First(Digits(0, b[0] - 0xE0, b[1] - 0x80, b[2] - 0x80), 3)
    else if 0xF0 <= b[0] < 0xF5 && |b| >= 4 && Continuation(b[1]) && Continuation(b[2]) && Continuation(b[3])
            && (b[0] == 0xF0 ==> b[1] >= 0x90) && (b[0] == 0xF4 ==> b[1] < 0x90) then
      First(Digits(b[0] - 0xF0, b[1] - 0x80, b[2] - 0x80, b[3] - 0x80), 4)
    else NotWellFormed
  }

  function Encode(chars: seq<Scalar>): (s: Bytes)
  {
    if chars == [] then [] else EncodeChar(chars[0]) + Encode(chars[1..])
  }

  function Decode(b: Bytes): (t: Text)
  {
    if b == [] then Text([])
    else match DecodeFirst(b)
      case NotWellFormed => Malformed
      case First(c, n) =>
        match Decode(b[n..])
        case Malformed => Malformed
        case Text(rest) => Text([c] + rest)
  }

  predicate Valid(b: Bytes) {
    Decode(b).Text?
  }

  lemma DecodeFirstOfEncoded(c: Scalar, rest: Bytes)
    ensures DecodeFirst(EncodeChar(c) + rest) == First(c, |EncodeChar(c)|)
  {
    hide Digits;
    DigitsSum(c);
    var e := EncodeChar(c);
    assert (e + rest)[..|e|] == e;
    if c >= 0x1_0000 {
      FourOctets(c, e + rest);
    }
  }

  lemma FourOctets(c: Scalar, b: Bytes)
    requires c >= 0x1_0000 && |b| >= 4 && b[..4] == EncodeChar(c)
    ensures DecodeFirst(b) == First(c, 4)
  {
    hide Digits;
    DigitsSum(c);
    var e := b[..4];
    assert b[0] == e[0] && b[1] == e[1] && b[2] == e[2] && b[3] == e[3];
  }

  lemma EncodedOfDecodeFirst(b: Bytes)
    requires b != [] && DecodeFirst(b).First?
    ensures b[..DecodeFirst(b).width] == EncodeChar(DecodeFirst(b).scalar)
  {
    match DecodeFirst(b).width
    case 1 =>
    case 2 => DigitsOf(0, 0, b[0] - 0xC0, b[1] - 0x80);
    case 3 => DigitsOf(0, b[0] - 0xE0, b[1] - 0x80, b[2] - 0x80);
    case _ => DigitsOf(b[0] - 0xF0, b[1] - 0x80, b[2] - 0x80, b[3] - 0x80);
  }

  /** Every string of scalar values survives encoding and checking. */
  lemma {:induction false} DecodeEncode(chars: seq<Scalar>)
    ensures Decode(Encode(chars)) == Text(chars)
  {
    if chars != [] {
      var rest := Encode(chars[1..]);
      DecodeFirstOfEncoded(chars[0], rest);
      DecodeEncode(chars[1..]);
      var n := |EncodeChar(chars[0])|;
      assert Encode(chars)[n..] == rest;
      assert [chars[0]] + chars[1..] == chars;
    }
  }

  /** A well-formed string of octets has exactly one reading, so it is its own re-encoding. */
  lemma {:induction false} EncodeDecode(b: Bytes)
    requires Valid(b)
    ensures Encode(Decode(b).chars) == b
  {
    if b != [] {
      var f := DecodeFirst(b);
      EncodedOfDecodeFirst(b);
      EncodeDecode(b[f.width..]);
      var chars := Decode(b).chars;
      assert chars[1..] == Decode(b[f.width..]).chars;
      assert b == b[..f.width] + b[f.width..];
    }
  }

  /** The example of table 3-4 of the Unicode Standard: one character of each width. */
  lemma StandardExample()
    ensures Encode([0x4D, 0x430, 0x4E8C, 0x1_0302]) == [0x4D, 0xD0, 0xB0, 0xE4, 0xBA, 0x8C, 0xF0, 0x90, 0x8C, 0x82]
  {
    var chars: seq<Scalar> := [0x4D, 0x430, 0x4E8C, 0x1_0302];
    assert chars[1..] == [0x430, 0x4E8C, 0x1_0302] && chars[1..][1..] == [0x4E8C, 0x1_0302] && chars[1..][1..][1..] == [0x1_0302];
    assert Encode([0x1_0302]) == [0xF0, 0x90, 0x8C, 0x82] + Encode([]);
    assert Encode([0x4E8C, 0x1_0302]) == [0xE4, 0xBA, 0x8C] + Encode([0x1_0302]);
    assert Encode([0x430, 0x4E8C, 0x1_0302]) == [0xD0, 0xB0] + Encode([0x4E8C, 0x1_0302]);
  }

  lemma {:induction false} AsciiIsValid(b: Bytes)
    requires forall i :: 0 <= i < |b| ==> b[i] < 0x80
    ensures Valid(b)
  {
    if b != [] {
      AsciiIsValid(b[1..]);
    }
  }
}
