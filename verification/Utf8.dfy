/** UTF-8 (section 3 of RFC 3629) on sequences of Unicode scalar values. */
module Utf8 {
  import opened Wrappers
  import opened Crypto

  function EncodeChar(c: char): (b: Bytes)
    ensures 1 <= |b| <= 4
  {
    var n := c as int;
    if n < 0x80 then [n]
    else if n < 0x800 then [0xC0 + n / 64, 0x80 + n % 64]
    else if n < 0x10000 then [0xE0 + n / 64 / 64, 0x80 + n / 64 % 64, 0x80 + n % 64]
    else [0xF0 + n / 64 / 64 / 64, 0x80 + n / 64 / 64 % 64, 0x80 + n / 64 % 64, 0x80 + n % 64]
  }

  function Encode(s: string): Bytes {
    if s == "" then [] else EncodeChar(s[0]) + Encode(s[1..])
  }

  predicate IsTail(b: byte) {
    0x80 <= b < 0xC0
  }

  predicate IsScalar(n: int) {
    0 <= n < 0xD800 || 0xE000 <= n < 0x11_0000
  }

  /** The number spelled by a lead byte's own bits and the six low bits of each tail byte. */
  function Scalar(lead: int, tail: Bytes): int
    decreases |tail|
  {
    if tail == [] then lead else Scalar(lead * 64 + (tail[0] as int - 0x80), tail[1..])
  }

  /** The scalar value at the front of the bytes; overlong forms and surrogates are refused. */
  function DecodeChar(b: Bytes): (r: Option<char>) {
    if |b| == 0 then None
    else if b[0] < 0x80 then Some(b[0] as char)
    else
      var (lead, tails, least) :=
        if 0xC0 <= b[0] < 0xE0 then (b[0] as int - 0xC0, 1, 0x80)
        else if 0xE0 <= b[0] < 0xF0 then (b[0] as int - 0xE0, 2, 0x800)
        else if 0xF0 <= b[0] < 0xF8 then (b[0] as int - 0xF0, 3, 0x10000)
        else (0, |b|, 0);
      if tails < |b| && forall i | 1 <= i <= tails :: IsTail(b[i]) then
        var n := Scalar(lead, b[1..tails + 1]);
        if n >= least && IsScalar(n) then Some(n as char) else None
      else None
  }

  function Decode(b: Bytes): Option<string>
    decreases |b|
  {
    if b == [] then Some("")
    else
      var c := DecodeChar(b);
      if c.None? || |b| < |EncodeChar(c.value)| then None
      else
        var rest := Decode(b[|EncodeChar(c.value)|..]);
        if rest.None? then None else Some([c.value] + rest.value)
  }

  lemma ScalarOfTwo(lead: int, t0: byte)
    ensures Scalar(lead, [t0]) == lead * 64 + (t0 as int - 0x80)
  {
  }

  lemma ScalarOfThree(lead: int, t0: byte, t1: byte)
    ensures Scalar(lead, [t0, t1]) == (lead * 64 + (t0 as int - 0x80)) * 64 + (t1 as int - 0x80)
  {
    assert [t0, t1][1..] == [t1];
    ScalarOfTwo(lead * 64 + (t0 as int - 0x80), t1);
  }

  lemma ScalarOfFour(lead: int, t0: byte, t1: byte, t2: byte)
    ensures Scalar(lead, [t0, t1, t2])
            == ((lead * 64 + (t0 as int - 0x80)) * 64 + (t1 as int - 0x80)) * 64 + (t2 as int - 0x80)
  {
    assert [t0, t1, t2][1..] == [t1, t2];
    ScalarOfThree(lead * 64 + (t0 as int - 0x80), t1, t2);
  }

  lemma DecodeEncodedChar(c: char, rest: Bytes)
    ensures DecodeChar(EncodeChar(c) + rest) == Some(c)
  {
    var n, e, b := c as int, EncodeChar(c), EncodeChar(c) + rest;
    assert b[..|e|] == e;
    if 0x80 <= n < 0x800 {
      assert b[1..2] == [e[1]];
      ScalarOfTwo(n / 64, e[1]);
    } else if 0x800 <= n < 0x10000 {
      assert b[1..3] == [e[1], e[2]];
      ScalarOfThree(n / 64 / 64, e[1], e[2]);
    } else if 0x10000 <= n {
      assert b[1..4] == [e[1], e[2], e[3]];
      ScalarOfFour(n / 64 / 64 / 64, e[1], e[2], e[3]);
    }
  }

  lemma {:induction false} DecodeEncode(s: string)
    ensures Decode(Encode(s)) == Some(s)
  {
    hide EncodeChar, DecodeChar;
    if s != "" {
      var e := EncodeChar(s[0]);
      DecodeEncodedChar(s[0], Encode(s[1..]));
      DecodeEncode(s[1..]);
      assert Encode(s)[|e|..] == Encode(s[1..]);
      assert s == [s[0]] + s[1..];
    }
  }

  lemma {:induction false} LengthBound(s: string)
    ensures |s| <= |Encode(s)| <= 4 * |s|
  {
    if s != "" {
      LengthBound(s[1..]);
    }
  }
}
