/** Go's `base64.StdEncoding`: the standard alphabet with `=` padding of
    section 4 of RFC 4648. Encoding works on whole 3-byte groups and pads the
    last one; decoding is not strict about the unused bits of a padded
    group and skips carriage returns and line feeds, as Go's decoder does. */
module Base64 {
  import opened Base

  const Pad: byte := 61  // '='

  /** The character (as an ASCII byte) for a 6-bit value. */
  function EncodeSextet(x: nat): (c: byte)
    requires x < 64
  {
    if x < 26 then 65 + x          // 'A'..'Z'
    else if x < 52 then 97 + x - 26  // 'a'..'z'
    else if x < 62 then 48 + x - 52  // '0'..'9'
    else if x == 62 then 43          // '+'
    else 47                          // '/'
  }

  /** The 6-bit value of an alphabet character, or None for anything else
      (padding included). */
  function DecodeSextet(c: byte): (r: Option<nat>)
    ensures r.Some? ==> r.value < 64 && EncodeSextet(r.value) == c
  {
    if 65 <= c <= 90 then Some(c - 65)
    else if 97 <= c <= 122 then Some(c - 97 + 26)
    else if 48 <= c <= 57 then Some(c - 48 + 52)
    else if c == 43 then Some(62)
    else if c == 47 then Some(63)
    else None
  }

  lemma SextetRoundTrip(x: nat)
    requires x < 64
    ensures DecodeSextet(EncodeSextet(x)) == Some(x)
  {
  }

  /** `base64.StdEncoding.EncodeToString`. */
  function Encode(b: seq<byte>): (r: seq<byte>)
    ensures |r| == 4 * ((|b| + 2) / 3)
    decreases |b|
  {
    if |b| == 0 then []
    else if |b| == 1 then
      [EncodeSextet(b[0] / 4), EncodeSextet((b[0] % 4) * 16), Pad, Pad]
    else if |b| == 2 then
      [EncodeSextet(b[0] / 4), EncodeSextet((b[0] % 4) * 16 + b[1] / 16),
       EncodeSextet((b[1] % 16) * 4), Pad]
    else
      [EncodeSextet(b[0] / 4), EncodeSextet((b[0] % 4) * 16 + b[1] / 16),
       EncodeSextet((b[1] % 16) * 4 + b[2] / 64), EncodeSextet(b[2] % 64)]
      + Encode(b[3..])
  }

  /** The input with every '\r' and '\n' removed. */
  function StripNewlines(s: seq<byte>): seq<byte>
  {
    if s == [] then []
    else if s[0] == 10 || s[0] == 13 then StripNewlines(s[1..])
    else [s[0]] + StripNewlines(s[1..])
  }

  /** Decodes whole 4-character groups; only the last group may be padded,
      as `xx==` (one byte) or `xxx=` (two bytes). */
  function DecodeGroups(s: seq<byte>): Result<seq<byte>>
    decreases |s|
  {
    if |s| == 0 then Ok([])
    else if |s| < 4 then Err("illegal base64 data: incomplete group")
    else
      var a, b, c, d := DecodeSextet(s[0]), DecodeSextet(s[1]), DecodeSextet(s[2]), DecodeSextet(s[3]);
      if a.None? || b.None? then Err("illegal base64 data")
      else if |s| == 4 && s[2] == Pad && s[3] == Pad then
        Ok([a.value * 4 + b.value / 16])
      else if c.None? then Err("illegal base64 data")
      else if |s| == 4 && s[3] == Pad then
        Ok([a.value * 4 + b.value / 16, (b.value % 16) * 16 + c.value / 4])
      else if d.None? then Err("illegal base64 data")
      else
        match DecodeGroups(s[4..])
        case Err(e) => Err(e)
        case Ok(rest) =>
          Ok([a.value * 4 + b.value / 16, (b.value % 16) * 16 + c.value / 4,
              (c.value % 4) * 64 + d.value] + rest)
  }

  /** `base64.StdEncoding.DecodeString`: an error for any character outside
      the alphabet, misplaced padding or an incomplete last group. */
  function Decode(s: seq<byte>): Result<seq<byte>>
  {
    DecodeGroups(StripNewlines(s))
  }

  /** Encoded text contains only alphabet characters and padding, so no
      newline for the decoder to skip. */
  lemma {:induction false} EncodeHasNoNewlines(b: seq<byte>)
    ensures StripNewlines(Encode(b)) == Encode(b)
    decreases |b|
  {
    var e := Encode(b);
    if |b| == 0 {
    } else if |b| <= 2 {
      NoNewlinesStrip(e);
    } else {
      EncodeHasNoNewlines(b[3..]);
      var head := e[..4];
      assert e == head + Encode(b[3..]);
      NoNewlinesStrip(head);
      StripAppend(head, Encode(b[3..]));
    }
  }

  lemma {:induction false} NoNewlinesStrip(s: seq<byte>)
    requires forall i :: 0 <= i < |s| ==> s[i] != 10 && s[i] != 13
    ensures StripNewlines(s) == s
    decreases |s|
  {
    if s != [] {
      NoNewlinesStrip(s[1..]);
      assert [s[0]] + s[1..] == s;
    }
  }

  lemma {:induction false} StripAppend(s: seq<byte>, t: seq<byte>)
    ensures StripNewlines(s + t) == StripNewlines(s) + StripNewlines(t)
    decreases |s|
  {
    if s == [] {
      assert s + t == t;
    } else {
      assert (s + t)[0] == s[0];
      assert (s + t)[1..] == s[1..] + t;
      StripAppend(s[1..], t);
    }
  }

  /** Decoding what was encoded gives back the original bytes. */
  lemma {:induction false} DecodeEncode(b: seq<byte>)
    ensures Decode(Encode(b)) == Ok(b)
  {
    EncodeHasNoNewlines(b);
    DecodeGroupsEncode(b);
  }

  lemma {:induction false} DecodeGroupsEncode(b: seq<byte>)
    ensures DecodeGroups(Encode(b)) == Ok(b)
    decreases |b|
  {
    if |b| == 1 {
      DecodeLastOne(b[0]);
      assert b == [b[0]];
    } else if |b| == 2 {
      DecodeLastTwo(b[0], b[1]);
      assert b == [b[0], b[1]];
    } else if |b| >= 3 {
      DecodeGroupsEncode(b[3..]);
      DecodeFullGroup(b[0], b[1], b[2], Encode(b[3..]));
      EncodeGroup(b);
      assert b == [b[0], b[1], b[2]] + b[3..];
    }
  }

  lemma EncodeGroup(b: seq<byte>)
    requires |b| >= 3
    ensures Encode(b) == Encode([b[0], b[1], b[2]]) + Encode(b[3..])
  {
    var h := [b[0], b[1], b[2]];
    assert h[3..] == [];
    assert Encode(h) == Encode(h)[..4] + Encode(h[3..]);
  }

  /** Arithmetic of one group: the three bytes are recovered from the four
      sextets they were cut into. */
  lemma SplitByte0(x0: byte)
    ensures (x0 / 4) * 4 + ((x0 % 4) * 16) / 16 == x0
  {
  }

  lemma SplitByte01(x0: byte, x1: byte)
    ensures ((x0 % 4) * 16 + x1 / 16) < 64
    ensures (x0 / 4) * 4 + ((x0 % 4) * 16 + x1 / 16) / 16 == x0
    ensures (((x0 % 4) * 16 + x1 / 16) % 16) == x1 / 16
  {
  }

  lemma SplitByte12(x1: byte, x2: byte)
    ensures ((x1 % 16) * 4 + x2 / 64) < 64
    ensures (x1 / 16) * 16 + ((x1 % 16) * 4 + x2 / 64) / 4 == x1
    ensures ((x1 % 16) * 4 + x2 / 64) % 4 == x2 / 64
    ensures (x2 / 64) * 64 + x2 % 64 == x2
  {
  }

  lemma DecodeLastOne(x0: byte)
    ensures DecodeGroups(Encode([x0])) == Ok([x0])
  {
    SextetRoundTrip(x0 / 4);
    SextetRoundTrip((x0 % 4) * 16);
    SplitByte0(x0);
  }

  lemma DecodeLastTwo(x0: byte, x1: byte)
    ensures DecodeGroups(Encode([x0, x1])) == Ok([x0, x1])
  {
    var s1 := (x0 % 4) * 16 + x1 / 16;
    SplitByte01(x0, x1);
    SextetRoundTrip(x0 / 4);
    SextetRoundTrip(s1);
    SextetRoundTrip((x1 % 16) * 4);
    assert (x1 / 16) * 16 + ((x1 % 16) * 4) / 4 == x1;
  }

  lemma DecodeFullGroup(x0: byte, x1: byte, x2: byte, tail: seq<byte>)
    requires DecodeGroups(tail).Ok?
    ensures DecodeGroups(Encode([x0, x1, x2]) + tail)
         == Ok([x0, x1, x2] + DecodeGroups(tail).value)
  {
    var s1 := (x0 % 4) * 16 + x1 / 16;
    var s2 := (x1 % 16) * 4 + x2 / 64;
    SplitByte01(x0, x1);
    SplitByte12(x1, x2);
    SextetRoundTrip(x0 / 4);
    SextetRoundTrip(s1);
    SextetRoundTrip(s2);
    SextetRoundTrip(x2 % 64);
    var e := Encode([x0, x1, x2]) + tail;
    assert Encode([x0, x1, x2]) == [EncodeSextet(x0 / 4), EncodeSextet(s1), EncodeSextet(s2), EncodeSextet(x2 % 64)] + Encode([x0, x1, x2][3..]);
    assert [x0, x1, x2][3..] == [];
    assert e[4..] == tail;
  }
}
