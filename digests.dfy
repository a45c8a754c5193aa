/**
 * Bytes and their lower-case hexadecimal text, as `digest('hex')` and
 * `toString('hex')` produce it. The digests themselves (HMAC-SHA256,
 * SHA-256) and the random source are parameters of the callers.
 */
module Digests {
  type Byte = x: int | 0 <= x < 256

  const HexDigits := "0123456789abcdef"

  function HexDigit(d: int): (c: char)
    requires 0 <= d < 16
    ensures c in HexDigits
  {
    HexDigits[d]
  }

  /** Two hex digits per byte, high nibble first. */
  function Hex(bytes: seq<Byte>): (s: string)
    ensures |s| == 2 * |bytes|
    ensures forall i :: 0 <= i < |s| ==> s[i] in HexDigits
  {
    if bytes == [] then ""
    else [HexDigit(bytes[0] / 16), HexDigit(bytes[0] % 16)] + Hex(bytes[1..])
  }

  lemma HexDigitInjective(a: int, b: int)
    requires 0 <= a < 16 && 0 <= b < 16
    requires HexDigit(a) == HexDigit(b)
    ensures a == b
  {
  }

  /** A byte is determined by its two nibbles. */
  lemma NibblesDetermineByte(x: Byte, y: Byte)
    requires x / 16 == y / 16 && x % 16 == y % 16
    ensures x == y
  {
  }

  /** Distinct byte strings have distinct hex texts. */
  lemma {:induction false} HexInjective(a: seq<Byte>, b: seq<Byte>)
    requires Hex(a) == Hex(b)
    ensures a == b
  {
    if a != [] {
      assert |b| == |a|;
      var x, y := a[0], b[0];
      var ha := [HexDigit(x / 16), HexDigit(x % 16)] + Hex(a[1..]);
      var hb := [HexDigit(y / 16), HexDigit(y % 16)] + Hex(b[1..]);
      assert ha == Hex(a) && hb == Hex(b);
      assert ha[0] == hb[0] && ha[1] == hb[1];
      HexDigitInjective(x / 16, y / 16);
      HexDigitInjective(x % 16, y % 16);
      NibblesDetermineByte(x, y);
      assert ha[2..] == Hex(a[1..]) && hb[2..] == Hex(b[1..]);
      HexInjective(a[1..], b[1..]);
      assert a == [x] + a[1..] && b == [y] + b[1..];
    }
  }
}
