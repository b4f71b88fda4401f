/** Bytes and their lower-case hexadecimal text. */
module Bytes {
  type Byte = b: nat | b < 256

  predicate IsHexDigit(c: char) { '0' <= c <= '9' || 'a' <= c <= 'f' }

  function Digit(n: nat): (c: char)
    requires n < 16
    ensures IsHexDigit(c) && DigitValue(c) == n
  {
    if n < 10 then '0' + n as char else 'a' + (n - 10) as char
  }

  function DigitValue(c: char): (n: nat)
    requires IsHexDigit(c)
    ensures n < 16
  {
    if c <= '9' then c as int - '0' as int else c as int - 'a' as int + 10
  }

  function Hex(bytes: seq<Byte>): (s: string)
    ensures |s| == 2 * |bytes| && forall c :: c in s ==> IsHexDigit(c)
    decreases |bytes|
  {
    if bytes == [] then ""
    else [Digit(bytes[0] / 16), Digit(bytes[0] % 16)] + Hex(bytes[1..])
  }

  lemma {:induction false} HexIsInjective(a: seq<Byte>, b: seq<Byte>)
    requires Hex(a) == Hex(b)
    ensures a == b
    decreases |a|
  {
    if a != [] {
      assert |Hex(a)| == 2 * |a| && |Hex(b)| == 2 * |b|;
      assert Hex(a)[0] == Digit(a[0] / 16) && Hex(a)[1] == Digit(a[0] % 16);
      assert Hex(b)[0] == Digit(b[0] / 16) && Hex(b)[1] == Digit(b[0] % 16);
      assert Hex(a)[2..] == Hex(a[1..]) && Hex(b)[2..] == Hex(b[1..]);
      HexIsInjective(a[1..], b[1..]);
      assert a == [a[0]] + a[1..] && b == [b[0]] + b[1..];
    }
  }

  /** Two digits to a byte, the high one first, in order. */
  lemma {:induction false} HexReadsBack(bytes: seq<Byte>, i: nat)
    requires i < |bytes|
    ensures var s := Hex(bytes);
      && s[2 * i] in s && s[2 * i + 1] in s
      && bytes[i] == 16 * DigitValue(s[2 * i]) + DigitValue(s[2 * i + 1])
    decreases |bytes|
  {
    if i > 0 { HexReadsBack(bytes[1..], i - 1); }
  }
}
