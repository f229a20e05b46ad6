// UTF-8, the charset `String.getBytes()` and `new String(bytes)` use:
// each Unicode scalar value as one to four bytes (section 3 of RFC 3629).
module Utf8 {
  import opened Common

  predicate IsContinuation(b: Byte)
  {
    0x80 <= b as int < 0xC0
  }

  function Payload(b: Byte): nat
    requires IsContinuation(b)
  {
    b as int - 0x80
  }

  function Continuation(v: nat): (b: Byte)
    requires v < 64
    ensures IsContinuation(b) && Payload(b) == v
  {
    (0x80 + v) as Byte
  }

  /** The bytes of one character: the shortest form, as section 3 of RFC 3629 requires. */
  function EncodeChar(c: char): (r: seq<Byte>)
    ensures 1 <= |r| <= 4
  {
    var n := c as int;
    if n < 0x80 then [n as Byte]
    else if n < 0x800 then [(0xC0 + n / 64) as Byte, Continuation(n % 64)]
    else if n < 0x10000 then [(0xE0 + n / 64 / 64) as Byte, Continuation(n / 64 % 64), Continuation(n % 64)]
    else [(0xF0 + n / 64 / 64 / 64) as Byte, Continuation(n / 64 / 64 % 64), Continuation(n / 64 % 64),
          Continuation(n % 64)]
  }

  /** `s.getBytes(UTF_8)`. */
  function Encode(s: string): seq<Byte>
  {
    if s == [] then [] else EncodeChar(s[0]) + Encode(s[1..])
  }

  /**
   * The first character of well-formed UTF-8 and the number of bytes it
   * takes; none for a sequence that is not well formed (a stray
   * continuation byte, a truncated sequence, an over-long form, a
   * surrogate or a value past U+10FFFF).
   */
  function DecodeFirst(b: seq<Byte>): (r: Option<(char, nat)>)
    requires |b| > 0
    ensures r.Some? ==> 1 <= r.value.1 <= |b|
  {
    var b0 := b[0] as int;
    if b0 < 0x80 then Some((b0 as char, 1))
    else if 0xC2 <= b0 < 0xE0 && |b| >= 2 && IsContinuation(b[1]) then
      Some((((b0 - 0xC0) * 64 + Payload(b[1])) as char, 2))
    else if 0xE0 <= b0 < 0xF0 && |b| >= 3 && IsContinuation(b[1]) && IsContinuation(b[2]) then
      var n := (b0 - 0xE0) * 4096 + Payload(b[1]) * 64 + Payload(b[2]);
      if 0x800 <= n && !(0xD800 <= n < 0xE000) then Some((n as char, 3)) else None
    else if 0xF0 <= b0 < 0xF5 && |b| >= 4 && IsContinuation(b[1]) && IsContinuation(b[2]) && IsContinuation(b[3])
    then
      var n := (b0 - 0xF0) * 262144 + Payload(b[1]) * 4096 + Payload(b[2]) * 64 + Payload(b[3]);
      if 0x10000 <= n < 0x110000 then Some((n as char, 4)) else None
    else None
  }

  /** The text of well-formed UTF-8; none for bytes that are not. */
  function Decode(b: seq<Byte>): Option<string>
    decreases |b|
  {
    if b == [] then Some([])
    else match DecodeFirst(b)
      case None => None
      case Some((c, k)) =>
        match Decode(b[k..])
        case None => None
        case Some(rest) => Some([c] + rest)
  }

  lemma DecodeFirstTwo(c: char, rest: seq<Byte>)
    requires 0x80 <= c as int < 0x800
    ensures DecodeFirst(EncodeChar(c) + rest) == Some((c, 2))
  {
    var n := c as int;
    var b := EncodeChar(c) + rest;
    assert b[0] as int == 0xC0 + n / 64 && b[1] == Continuation(n % 64);
    assert (n / 64) * 64 + n % 64 == n;
  }

  lemma DecodeFirstThree(c: char, rest: seq<Byte>)
    requires 0x800 <= c as int < 0x10000
    ensures DecodeFirst(EncodeChar(c) + rest) == Some((c, 3))
  {
    var n := c as int;
    var b := EncodeChar(c) + rest;
    assert b[0] as int == 0xE0 + n / 64 / 64 && b[1] == Continuation(n / 64 % 64) && b[2] == Continuation(n % 64);
    assert (n / 64 / 64) * 4096 + (n / 64 % 64) * 64 + n % 64 == n by {
      assert n == (n / 64) * 64 + n % 64;
      assert n / 64 == (n / 64 / 64) * 64 + n / 64 % 64;
    }
  }

  lemma DecodeFirstFour(c: char, rest: seq<Byte>)
    requires 0x10000 <= c as int
    ensures DecodeFirst(EncodeChar(c) + rest) == Some((c, 4))
  {
    var n := c as int;
    var b := EncodeChar(c) + rest;
    assert b[0] as int == 0xF0 + n / 64 / 64 / 64 && b[1] == Continuation(n / 64 / 64 % 64) &&
           b[2] == Continuation(n / 64 % 64) && b[3] == Continuation(n % 64);
    assert (n / 64 / 64 / 64) * 262144 + (n / 64 / 64 % 64) * 4096 + (n / 64 % 64) * 64 + n % 64 == n by {
      assert n == (n / 64) * 64 + n % 64;
      assert n / 64 == (n / 64 / 64) * 64 + n / 64 % 64;
      assert n / 64 / 64 == (n / 64 / 64 / 64) * 64 + n / 64 / 64 % 64;
    }
  }

  /** The first character of an encoding is read back with exactly its bytes. */
  lemma DecodeFirstEncodeChar(c: char, rest: seq<Byte>)
    ensures DecodeFirst(EncodeChar(c) + rest) == Some((c, |EncodeChar(c)|))
  {
    var n := c as int;
    if n < 0x80 {
    } else if n < 0x800 {
      DecodeFirstTwo(c, rest);
    } else if n < 0x10000 {
      DecodeFirstThree(c, rest);
    } else {
      DecodeFirstFour(c, rest);
    }
  }

  /** Decoding the UTF-8 of a text gives the text back. */
  lemma {:induction false} DecodeEncode(s: string)
    ensures Decode(Encode(s)) == Some(s)
  {
    if s != [] {
      var head := EncodeChar(s[0]);
      var tail := Encode(s[1..]);
      DecodeFirstEncodeChar(s[0], tail);
      assert (head + tail)[|head|..] == tail;
      DecodeEncode(s[1..]);
      assert s == [s[0]] + s[1..];
    }
  }
}
