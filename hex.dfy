/** Lower-case hexadecimal (section 8 of RFC 4648), as Go's `hex.EncodeToString`. */
module Hex {
  import opened Wrappers

  type nibble = x: int | 0 <= x < 16

  function Digit(v: nibble): char
  {
    if v < 10 then ('0' as int + v) as char else ('a' as int + (v - 10)) as char
  }

  predicate IsLowerHex(c: char)
  {
    '0' <= c <= '9' || 'a' <= c <= 'f'
  }

  /** Two characters per byte, high nibble first. */
  function Encode(b: seq<byte>): (s: string)
    ensures |s| == 2 * |b|
    ensures forall i :: 0 <= i < |s| ==> IsLowerHex(s[i])
  {
    if b == [] then "" else [Digit(b[0] / 16), Digit(b[0] % 16)] + Encode(b[1..])
  }

  lemma DigitInjective(v: nibble, w: nibble)
    requires Digit(v) == Digit(w)
    ensures v == w
  {
  }

  /** Distinct byte strings have distinct encodings. */
  lemma {:induction false} EncodeInjective(a: seq<byte>, b: seq<byte>)
    requires Encode(a) == Encode(b)
    ensures a == b
  {
    if a != [] {
      assert |b| == |a|;
      var ea, eb := Encode(a), Encode(b);
      assert ea[0] == eb[0] && ea[1] == eb[1];
      DigitInjective(a[0] / 16, b[0] / 16);
      DigitInjective(a[0] % 16, b[0] % 16);
      assert ea[2..] == Encode(a[1..]) && eb[2..] == Encode(b[1..]);
      EncodeInjective(a[1..], b[1..]);
      assert a == [a[0]] + a[1..] && b == [b[0]] + b[1..];
    }
  }
}
