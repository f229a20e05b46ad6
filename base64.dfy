// The "basic" Base64 encoding of section 4 of RFC 4648: the 64-character
// alphabet of its Table 1, '=' padding, no line breaks. Decoding follows
// the basic decoder of java.util.Base64: padding may be left out of the
// final unit, but if present it must be complete, and any character
// outside the alphabet is an error.
module Base64 {
  import opened Common

  const Pad: char := '='

  /** Table 1 of RFC 4648: A-Z, a-z, 0-9, '+' and '/' for the values 0 to 63. */
  function SextetChar(v: nat): (c: char)
    requires v < 64
    ensures c != Pad
  {
    if v < 26 then ('A' as int + v) as char
    else if v < 52 then ('a' as int + v - 26) as char
    else if v < 62 then ('0' as int + v - 52) as char
    else if v == 62 then '+'
    else '/'
  }

  /** The value of an alphabet character; none for any other character, the pad included. */
  function SextetValue(c: char): (r: Option<nat>)
    ensures r.Some? ==> r.value < 64 && SextetChar(r.value) == c
    ensures c == Pad ==> r.None?
  {
    if 'A' <= c <= 'Z' then Some(c as int - 'A' as int)
    else if 'a' <= c <= 'z' then Some(c as int - 'a' as int + 26)
    else if '0' <= c <= '9' then Some(c as int - '0' as int + 52)
    else if c == '+' then Some(62)
    else if c == '/' then Some(63)
    else None
  }

  lemma SextetRoundTrip(v: nat)
    requires v < 64
    ensures SextetValue(SextetChar(v)) == Some(v)
  {
  }

  /** Three bytes as four 6-bit values, most significant bits first. */
  function Sextets(x: Byte, y: Byte, z: Byte): (t: (nat, nat, nat, nat))
    ensures t.0 < 64 && t.1 < 64 && t.2 < 64 && t.3 < 64
  {
    var a, b, c := x as int, y as int, z as int;
    (a / 4, (a % 4) * 16 + b / 16, (b % 16) * 4 + c / 64, c % 64)
  }

  /** The four characters of three bytes. */
  function EncodeGroup(x: Byte, y: Byte, z: Byte): string
  {
    var t := Sextets(x, y, z);
    [SextetChar(t.0), SextetChar(t.1), SextetChar(t.2), SextetChar(t.3)]
  }

  /** `Base64.getEncoder().encodeToString(b)`: a short final group is padded, its missing bits zero. */
  function Encode(b: seq<Byte>): (s: string)
    ensures |s| == 4 * ((|b| + 2) / 3)
    decreases |b|
  {
    if |b| == 0 then ""
    else if |b| == 1 then
      var t := Sextets(b[0], 0, 0);
      [SextetChar(t.0), SextetChar(t.1), Pad, Pad]
    else if |b| == 2 then
      var t := Sextets(b[0], b[1], 0);
      [SextetChar(t.0), SextetChar(t.1), SextetChar(t.2), Pad]
    else
      EncodeGroup(b[0], b[1], b[2]) + Encode(b[3..])
  }

  /** The bytes of a unit of four sextets (the last ones are dropped for a short unit). */
  function DecodeGroup(a: nat, b: nat, c: nat, d: nat): seq<Byte>
    requires a < 64 && b < 64 && c < 64 && d < 64
  {
    [(a * 4 + b / 16) as Byte, ((b % 16) * 16 + c / 4) as Byte, ((c % 4) * 64 + d) as Byte]
  }

  /**
   * The final unit: two or three alphabet characters, either alone or
   * padded to four. One character, or a pad that is not complete, is an
   * error.
   */
  function DecodeFinal(s: string): (r: Result<seq<Byte>>)
    requires 0 < |s| <= 4
  {
    if |s| == 1 then Err(IllegalArgument)
    else if |s| == 4 && s[3] != Pad then Err(IllegalArgument)
    else if |s| == 3 && s[2] == Pad then Err(IllegalArgument)
    else
      var a, b := SextetValue(s[0]), SextetValue(s[1]);
      if a.None? || b.None? then Err(IllegalArgument)
      else if |s| == 2 || s[2] == Pad then Ok(DecodeGroup(a.value, b.value, 0, 0)[..1])
      else
        var c := SextetValue(s[2]);
        if c.None? then Err(IllegalArgument) else Ok(DecodeGroup(a.value, b.value, c.value, 0)[..2])
  }

  /** `Base64.getDecoder().decode(s)`; IllegalArgumentException for text it refuses. */
  function Decode(s: string): (r: Result<seq<Byte>>)
    decreases |s|
  {
    if |s| == 0 then Ok([])
    else if |s| > 4 || (|s| == 4 && s[3] != Pad) then
      var a, b, c, d := SextetValue(s[0]), SextetValue(s[1]), SextetValue(s[2]), SextetValue(s[3]);
      if a.None? || b.None? || c.None? || d.None? then Err(IllegalArgument)
      else
        var rest :- Decode(s[4..]);
        Ok(DecodeGroup(a.value, b.value, c.value, d.value) + rest)
    else DecodeFinal(s)
  }

  /** Splitting three bytes into sextets and joining them again gives the bytes back. */
  lemma GroupRoundTrip(x: Byte, y: Byte, z: Byte)
    ensures var t := Sextets(x, y, z);
            DecodeGroup(t.0, t.1, t.2, t.3) == [x, y, z]
  {
    var a, b, c := x as int, y as int, z as int;
    var s1 := (a % 4) * 16 + b / 16;
    var s2 := (b % 16) * 4 + c / 64;
    assert s1 / 16 == a % 4 && s1 % 16 == b / 16;
    assert s2 / 4 == b % 16 && s2 % 4 == c / 64;
  }

  lemma DecodeFinalOneByte(s: string, p: nat, q: nat)
    requires |s| == 4 && s[2] == Pad && s[3] == Pad && p < 64 && q < 64
    requires SextetValue(s[0]) == Some(p) && SextetValue(s[1]) == Some(q)
    ensures Decode(s) == Ok(DecodeGroup(p, q, 0, 0)[..1])
  {
  }

  lemma DecodeFinalTwoBytes(s: string, p: nat, q: nat, r: nat)
    requires |s| == 4 && s[2] != Pad && s[3] == Pad && p < 64 && q < 64 && r < 64
    requires SextetValue(s[0]) == Some(p) && SextetValue(s[1]) == Some(q) && SextetValue(s[2]) == Some(r)
    ensures Decode(s) == Ok(DecodeGroup(p, q, r, 0)[..2])
  {
  }

  lemma DecodeFullUnit(s: string, p: nat, q: nat, r: nat, t: nat, rest: seq<Byte>)
    requires |s| >= 4 && p < 64 && q < 64 && r < 64 && t < 64
    requires SextetValue(s[0]) == Some(p) && SextetValue(s[1]) == Some(q)
    requires SextetValue(s[2]) == Some(r) && SextetValue(s[3]) == Some(t)
    requires Decode(s[4..]) == Ok(rest)
    ensures Decode(s) == Ok(DecodeGroup(p, q, r, t) + rest)
  {
  }

  lemma SextetsDecoded(s: string, t: (nat, nat, nat, nat), n: nat)
    requires n <= 4 && n <= |s| && t.0 < 64 && t.1 < 64 && t.2 < 64 && t.3 < 64
    requires n > 0 ==> s[0] == SextetChar(t.0)
    requires n > 1 ==> s[1] == SextetChar(t.1)
    requires n > 2 ==> s[2] == SextetChar(t.2)
    requires n > 3 ==> s[3] == SextetChar(t.3)
    ensures n > 0 ==> SextetValue(s[0]) == Some(t.0)
    ensures n > 1 ==> SextetValue(s[1]) == Some(t.1)
    ensures n > 2 ==> SextetValue(s[2]) == Some(t.2)
    ensures n > 3 ==> SextetValue(s[3]) == Some(t.3)
  {
    SextetRoundTrip(t.0);
    SextetRoundTrip(t.1);
    SextetRoundTrip(t.2);
    SextetRoundTrip(t.3);
  }

  lemma EncodeOneByte(b: seq<Byte>)
    requires |b| == 1
    ensures var t := Sextets(b[0], 0, 0); Encode(b) == [SextetChar(t.0), SextetChar(t.1), Pad, Pad]
  {
  }

  lemma EncodeTwoBytes(b: seq<Byte>)
    requires |b| == 2
    ensures var t := Sextets(b[0], b[1], 0); Encode(b) == [SextetChar(t.0), SextetChar(t.1), SextetChar(t.2), Pad]
  {
  }

  lemma EncodeThreeOrMore(b: seq<Byte>)
    requires |b| >= 3
    ensures var t := Sextets(b[0], b[1], b[2]); var s := Encode(b);
            s[0] == SextetChar(t.0) && s[1] == SextetChar(t.1) && s[2] == SextetChar(t.2) &&
            |s| >= 4 && s[3] == SextetChar(t.3) && s[4..] == Encode(b[3..])
  {
    assert Encode(b) == EncodeGroup(b[0], b[1], b[2]) + Encode(b[3..]);
  }

  lemma GroupRoundTripShort(x: Byte, y: Byte)
    ensures DecodeGroup(Sextets(x, 0, 0).0, Sextets(x, 0, 0).1, 0, 0)[..1] == [x]
    ensures var t := Sextets(x, y, 0); DecodeGroup(t.0, t.1, t.2, 0)[..2] == [x, y]
  {
    GroupRoundTrip(x, 0, 0);
    GroupRoundTrip(x, y, 0);
  }

  lemma DecodeEncodeOne(b: seq<Byte>)
    requires |b| == 1
    ensures Decode(Encode(b)) == Ok(b)
  {
    var t := Sextets(b[0], 0, 0);
    EncodeOneByte(b);
    SextetsDecoded(Encode(b), t, 2);
    DecodeFinalOneByte(Encode(b), t.0, t.1);
    GroupRoundTripShort(b[0], 0);
    assert b == [b[0]];
  }

  lemma DecodeEncodeTwo(b: seq<Byte>)
    requires |b| == 2
    ensures Decode(Encode(b)) == Ok(b)
  {
    var t := Sextets(b[0], b[1], 0);
    EncodeTwoBytes(b);
    SextetsDecoded(Encode(b), t, 3);
    DecodeFinalTwoBytes(Encode(b), t.0, t.1, t.2);
    GroupRoundTripShort(b[0], b[1]);
    assert b == [b[0], b[1]];
  }

  lemma DecodeUnitThen(s: string, b: seq<Byte>)
    requires |s| >= 4 && |b| >= 3
    requires var t := Sextets(b[0], b[1], b[2]);
             SextetValue(s[0]) == Some(t.0) && SextetValue(s[1]) == Some(t.1) &&
             SextetValue(s[2]) == Some(t.2) && SextetValue(s[3]) == Some(t.3)
    requires Decode(s[4..]) == Ok(b[3..])
    ensures Decode(s) == Ok(b)
  {
    var t := Sextets(b[0], b[1], b[2]);
    DecodeFullUnit(s, t.0, t.1, t.2, t.3, b[3..]);
    GroupRoundTrip(b[0], b[1], b[2]);
    assert b == [b[0], b[1], b[2]] + b[3..];
  }

  lemma DecodeEncodeGroup(b: seq<Byte>)
    requires |b| >= 3 && Decode(Encode(b[3..])) == Ok(b[3..])
    ensures Decode(Encode(b)) == Ok(b)
  {
    EncodeThreeOrMore(b);
    SextetsDecoded(Encode(b), Sextets(b[0], b[1], b[2]), 4);
    DecodeUnitThen(Encode(b), b);
  }

  /** Decoding what the encoder writes gives the bytes back. */
  lemma {:induction false} DecodeEncode(b: seq<Byte>)
    ensures Decode(Encode(b)) == Ok(b)
    decreases |b|
  {
    if |b| == 1 {
      DecodeEncodeOne(b);
    } else if |b| == 2 {
      DecodeEncodeTwo(b);
    } else if |b| >= 3 {
      DecodeEncode(b[3..]);
      DecodeEncodeGroup(b);
    }
  }

  /** Different byte strings have different encodings. */
  lemma EncodeInjective(b1: seq<Byte>, b2: seq<Byte>)
    requires Encode(b1) == Encode(b2)
    ensures b1 == b2
  {
    DecodeEncode(b1);
    DecodeEncode(b2);
  }
}
