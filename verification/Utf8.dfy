/**
 The texts that framing accepts: encodings of sequences of Unicode scalar values, with the
 encoder of section 3 of RFC 3629 given by arithmetic on the value.
 */
module Utf8 {
  import opened Framing

  /** A code point that is not a surrogate. */
  type Scalar = c: int | 0 <= c <= 0xD7FF || 0xE000 <= c <= 0x10FFFF

  /** Six bits to a byte from the low end, and the number of bytes in the first. */
  function Encode(c: Scalar): seq<Byte> {
    if c < 0x80 then [c]
    else if c < 0x800 then [0xC0 + c / 64, 0x80 + c % 64]
    else if c < 0x1_0000 then [0xE0 + c / 64 / 64, 0x80 + c / 64 % 64, 0x80 + c % 64]
    else [0xF0 + c / 64 / 64 / 64, 0x80 + c / 64 / 64 % 64, 0x80 + c / 64 % 64, 0x80 + c % 64]
  }

  function EncodeAll(text: seq<Scalar>): seq<Byte> {
    if text == [] then [] else Encode(text[0]) + EncodeAll(text[1..])
  }

  /** Six more bits. */
  function Shifted(high: int, tail: Byte): (c: int)
    requires Tail(tail)
    ensures c / 64 == high && 0x80 + c % 64 == tail
  {
    64 * high + (tail - 0x80)
  }

  /** The first character of a sequence of bytes, undoing the encoder. */
  function First(s: seq<Byte>): (c: Scalar)
    requires ValidUtf8(s) && s != []
  {
    if s[0] < 0x80 then s[0]
    else if s[0] < 0xE0 then Shifted(s[0] - 0xC0, s[1])
    else if s[0] < 0xF0 then Shifted(Shifted(s[0] - 0xE0, s[1]), s[2])
    else Shifted(Shifted(Shifted(s[0] - 0xF0, s[1]), s[2]), s[3])
  }

  lemma FirstIsEncoded(s: seq<Byte>)
    requires ValidUtf8(s) && s != []
    ensures Encode(First(s)) <= s && ValidUtf8(s[|Encode(First(s))|..])
  {
    var c := First(s);
    if s[0] < 0x80 {
      assert Encode(c) == [s[0]];
    } else if s[0] < 0xE0 {
      assert Encode(c) == [s[0], s[1]];
    } else if s[0] < 0xF0 {
      assert Encode(c) == [s[0], s[1], s[2]];
    } else {
      assert Encode(c) == [s[0], s[1], s[2], s[3]];
    }
  }

  /** One encoded character in front keeps well-formedness, either way. */
  lemma EncodedFirst(c: Scalar, rest: seq<Byte>)
    ensures ValidUtf8(Encode(c) + rest) <==> ValidUtf8(rest)
  {
    var s := Encode(c) + rest;
    assert s[|Encode(c)|..] == rest;
    Lead(c);
  }

  /** Which bytes the encoder uses. */
  lemma Lead(c: Scalar)
    ensures 0x80 <= c < 0x800 ==> 0xC2 <= Encode(c)[0] <= 0xDF && Tail(Encode(c)[1])
    ensures 0x800 <= c < 0x1_0000 ==>
              && 0xE0 <= Encode(c)[0] <= 0xEF && Tail(Encode(c)[1]) && Tail(Encode(c)[2])
              && (Encode(c)[0] == 0xE0 ==> 0xA0 <= Encode(c)[1]) && (Encode(c)[0] == 0xED ==> Encode(c)[1] <= 0x9F)
    ensures 0x1_0000 <= c ==>
              && 0xF0 <= Encode(c)[0] <= 0xF4 && Tail(Encode(c)[1]) && Tail(Encode(c)[2]) && Tail(Encode(c)[3])
              && (Encode(c)[0] == 0xF0 ==> 0x90 <= Encode(c)[1]) && (Encode(c)[0] == 0xF4 ==> Encode(c)[1] <= 0x8F)
  {
  }

  lemma {:induction false} EncodingsAreValid(text: seq<Scalar>)
    ensures ValidUtf8(EncodeAll(text))
  {
    if text != [] {
      EncodingsAreValid(text[1..]);
      EncodedFirst(text[0], EncodeAll(text[1..]));
    }
  }

  lemma {:induction false} Decode(s: seq<Byte>) returns (text: seq<Scalar>)
    requires ValidUtf8(s)
    ensures EncodeAll(text) == s
    decreases |s|
  {
    if s == [] {
      text := [];
    } else {
      var c := First(s);
      FirstIsEncoded(s);
      var rest := Decode(s[|Encode(c)|..]);
      text := [c] + rest;
      assert text[1..] == rest;
      assert s == Encode(c) + s[|Encode(c)|..];
    }
  }

  /** Exactly the encodings of scalar values are accepted as text. */
  lemma ValidUtf8Exactly(s: seq<Byte>)
    ensures ValidUtf8(s) <==> exists text: seq<Scalar> :: EncodeAll(text) == s
  {
    if ValidUtf8(s) {
      var text := Decode(s);
    }
    if text: seq<Scalar> :| EncodeAll(text) == s {
      EncodingsAreValid(text);
    }
  }
}
