/**
  Base64 with the standard alphabet of section 4 of RFC 4648 and no padding
  (section 3.2), as Go's `base64.RawStdEncoding`: every 3 bytes become 4
  characters, a tail of 1 or 2 bytes becomes 2 or 3 characters. Decoding is
  the non-strict decoder: carriage returns and line feeds are skipped, a
  padding character or any other character outside the alphabet is an error,
  a final group of one character is an error, and the unused low bits of a
  final group of 2 or 3 characters are ignored.
*/
module Base64 {
  import opened Wrappers

  type sextet = x: int | 0 <= x < 64

  /** The character for a 6-bit value: A-Z, a-z, 0-9, '+', '/'. */
  function CharOf(v: sextet): (c: char)
  {
    if v < 26 then ('A' as int + v) as char
    else if v < 52 then ('a' as int + (v - 26)) as char
    else if v < 62 then ('0' as int + (v - 52)) as char
    else if v == 62 then '+'
    else '/'
  }

  /** The 6-bit value of an alphabet character, None outside the alphabet. */
  function ValueOf(c: char): (r: Option<sextet>)
    ensures r.Some? ==> CharOf(r.value) == c
  {
    if 'A' <= c <= 'Z' then Some(c as int - 'A' as int)
    else if 'a' <= c <= 'z' then Some(c as int - 'a' as int + 26)
    else if '0' <= c <= '9' then Some(c as int - '0' as int + 52)
    else if c == '+' then Some(62)
    else if c == '/' then Some(63)
    else None
  }

  predicate InAlphabet(c: char)
  {
    ValueOf(c).Some?
  }

  lemma ValueOfCharOf(v: sextet)
    ensures ValueOf(CharOf(v)) == Some(v)
  {
  }

  /** Four characters for three bytes. */
  function EncodeBlock(b0: byte, b1: byte, b2: byte): string
  {
    [CharOf(b0 / 4), CharOf((b0 % 4) * 16 + b1 / 16), CharOf((b1 % 16) * 4 + b2 / 64), CharOf(b2 % 64)]
  }

  function Encode(b: seq<byte>): (s: string)
    decreases |b|
  {
    if |b| == 0 then ""
    else if |b| == 1 then [CharOf(b[0] / 4), CharOf((b[0] % 4) * 16)]
    else if |b| == 2 then [CharOf(b[0] / 4), CharOf((b[0] % 4) * 16 + b[1] / 16), CharOf((b[1] % 16) * 4)]
    else EncodeBlock(b[0], b[1], b[2]) + Encode(b[3..])
  }

  /** Drops '\r' and '\n', which Go's decoder skips wherever they occur. */
  function StripNewlines(s: string): (t: string)
    ensures forall c :: c in t ==> c in s && c != '\r' && c != '\n'
    ensures (forall i :: 0 <= i < |s| ==> s[i] != '\r' && s[i] != '\n') ==> t == s
  {
    if s == [] then []
    else if s[0] == '\r' || s[0] == '\n' then StripNewlines(s[1..])
    else [s[0]] + StripNewlines(s[1..])
  }

  /** The byte values of a group of 2, 3 or 4 sextets (Go keeps the high bits). */
  function Bytes2(v0: sextet, v1: sextet): byte
  {
    v0 * 4 + v1 / 16
  }

  function Bytes3(v0: sextet, v1: sextet, v2: sextet): seq<byte>
  {
    [Bytes2(v0, v1), (v1 % 16) * 16 + v2 / 4]
  }

  function Bytes4(v0: sextet, v1: sextet, v2: sextet, v3: sextet): seq<byte>
  {
    Bytes3(v0, v1, v2) + [(v2 % 4) * 64 + v3]
  }

  /** Decodes a string that holds no line breaks. */
  function DecodeGroups(s: string): (r: Option<seq<byte>>)
    decreases |s|
  {
    if |s| == 0 then Some([])
    else if |s| == 1 then None
    else
      var v0, v1 := ValueOf(s[0]), ValueOf(s[1]);
      if v0.None? || v1.None? then None
      else if |s| == 2 then Some([Bytes2(v0.value, v1.value)])
      else
        var v2 := ValueOf(s[2]);
        if v2.None? then None
        else if |s| == 3 then Some(Bytes3(v0.value, v1.value, v2.value))
        else
          var v3 := ValueOf(s[3]);
          if v3.None? then None
          else
            match DecodeGroups(s[4..])
            case None => None
            case Some(rest) => Some(Bytes4(v0.value, v1.value, v2.value, v3.value) + rest)
  }

  /** Go's `RawStdEncoding.DecodeString`: None where Go returns an error. */
  function Decode(s: string): Option<seq<byte>>
  {
    DecodeGroups(StripNewlines(s))
  }

  lemma {:induction false} EncodeInAlphabet(b: seq<byte>)
    ensures forall c :: c in Encode(b) ==> InAlphabet(c)
    decreases |b|
  {
    if |b| >= 3 {
      EncodeInAlphabet(b[3..]);
      var block := EncodeBlock(b[0], b[1], b[2]);
      forall c | c in Encode(b) ensures InAlphabet(c) {
        if c in block {
          var k :| 0 <= k < 4 && block[k] == c;
        } else {
          assert c in Encode(b[3..]);
        }
      }
    }
  }

  /** The encoding never holds '$', the field separator of the password format. */
  lemma EncodeHasNoDollar(b: seq<byte>)
    ensures '$' !in Encode(b)
  {
    EncodeInAlphabet(b);
  }

  /** |Encode(b)| is Go's `EncodedLen`: 4 characters per 3 bytes, 2 or 3 for a tail. */
  lemma {:induction false} EncodeLength(b: seq<byte>)
    ensures |Encode(b)| == |b| / 3 * 4 + (|b| % 3 * 8 + 5) / 6
    decreases |b|
  {
    if |b| >= 3 {
      EncodeLength(b[3..]);
    }
  }

  lemma Tail1RoundTrip(b0: byte)
    ensures Bytes2(b0 / 4, (b0 % 4) * 16) == b0
  {
  }

  lemma Tail2RoundTrip(b0: byte, b1: byte)
    ensures Bytes3(b0 / 4, (b0 % 4) * 16 + b1 / 16, (b1 % 16) * 4) == [b0, b1]
  {
    assert ((b0 % 4) * 16 + b1 / 16) / 16 == b0 % 4;
    assert ((b0 % 4) * 16 + b1 / 16) % 16 == b1 / 16;
  }

  lemma BlockRoundTrip(b0: byte, b1: byte, b2: byte)
    ensures Bytes4(b0 / 4, (b0 % 4) * 16 + b1 / 16, (b1 % 16) * 4 + b2 / 64, b2 % 64) == [b0, b1, b2]
  {
    Tail2RoundTrip(b0, b1);
    assert ((b1 % 16) * 4 + b2 / 64) / 4 == b1 % 16;
    assert ((b1 % 16) * 4 + b2 / 64) % 4 == b2 / 64;
  }

  /** Decoding a block of four alphabet characters followed by more text. */
  lemma DecodeGroupsBlock(b0: byte, b1: byte, b2: byte, rest: string)
    ensures DecodeGroups(EncodeBlock(b0, b1, b2) + rest) ==
      match DecodeGroups(rest)
      case None => None
      case Some(r) => Some([b0, b1, b2] + r)
  {
    var s := EncodeBlock(b0, b1, b2) + rest;
    assert s[4..] == rest;
    ValueOfCharOf(b0 / 4);
    ValueOfCharOf((b0 % 4) * 16 + b1 / 16);
    ValueOfCharOf((b1 % 16) * 4 + b2 / 64);
    ValueOfCharOf(b2 % 64);
    BlockRoundTrip(b0, b1, b2);
  }

  /** Decoding the two characters of a one-byte tail. */
  lemma DecodeTail1(b0: byte)
    ensures DecodeGroups(Encode([b0])) == Some([b0])
  {
    ValueOfCharOf(b0 / 4);
    ValueOfCharOf((b0 % 4) * 16);
    Tail1RoundTrip(b0);
  }

  /** Decoding the three characters of a two-byte tail. */
  lemma DecodeTail2(b0: byte, b1: byte)
    ensures DecodeGroups(Encode([b0, b1])) == Some([b0, b1])
  {
    ValueOfCharOf(b0 / 4);
    ValueOfCharOf((b0 % 4) * 16 + b1 / 16);
    ValueOfCharOf((b1 % 16) * 4);
    Tail2RoundTrip(b0, b1);
  }

  lemma {:induction false} DecodeEncode(b: seq<byte>)
    ensures DecodeGroups(Encode(b)) == Some(b)
    decreases |b|
  {
    if |b| == 1 {
      assert b == [b[0]];
      DecodeTail1(b[0]);
    } else if |b| == 2 {
      assert b == [b[0], b[1]];
      DecodeTail2(b[0], b[1]);
    } else if |b| >= 3 {
      DecodeEncode(b[3..]);
      DecodeBlockThenRest(b);
    }
  }

  /** A leading block decodes to its three bytes, in front of whatever the rest decodes to. */
  lemma DecodeBlockThenRest(b: seq<byte>)
    requires |b| >= 3
    requires DecodeGroups(Encode(b[3..])) == Some(b[3..])
    ensures DecodeGroups(Encode(b)) == Some(b)
  {
    var rest := b[3..];
    var r := Encode(rest);
    EncodeBlockFirst(b);
    DecodeGroupsBlock(b[0], b[1], b[2], r);
    assert DecodeGroups(EncodeBlock(b[0], b[1], b[2]) + r) == Some([b[0], b[1], b[2]] + rest);
    assert b == [b[0], b[1], b[2]] + rest;
  }

  lemma EncodeBlockFirst(b: seq<byte>)
    requires |b| >= 3
    ensures Encode(b) == EncodeBlock(b[0], b[1], b[2]) + Encode(b[3..])
  {
  }

  /** Round trip: decoding an encoding gives back the bytes. */
  lemma DecodeOfEncode(b: seq<byte>)
    ensures Decode(Encode(b)) == Some(b)
  {
    EncodeInAlphabet(b);
    var s := Encode(b);
    forall i | 0 <= i < |s| ensures s[i] != '\r' && s[i] != '\n' {
      assert s[i] in s;
    }
    DecodeEncode(b);
  }
}
