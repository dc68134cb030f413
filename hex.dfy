/** Bytes and their lower-case hexadecimal text, as produced by Python's
    `bytes.hex()` and `hmac.HMAC.hexdigest()`. */
module HexText {
  import opened Basics

  newtype byte = x: int | 0 <= x < 256

  const HEX_DIGITS := "0123456789abcdef"

  predicate IsLowerHexDigit(c: char) {
    '0' <= c <= '9' || 'a' <= c <= 'f'
  }

  /** Two lower-case hex digits per byte, high nibble first. */
  function Hex(bytes: seq<byte>): (s: string)
    ensures |s| == 2 * |bytes|
    ensures forall i :: 0 <= i < |s| ==> IsLowerHexDigit(s[i])
  {
    if bytes == [] then ""
    else [HEX_DIGITS[bytes[0] as int / 16], HEX_DIGITS[bytes[0] as int % 16]] + Hex(bytes[1..])
  }

  /** The value of one lower-case hex digit; None for any other character. */
  function DigitValue(c: char): (v: Option<int>)
    ensures v.Some? <==> IsLowerHexDigit(c)
    ensures v.Some? ==> 0 <= v.value < 16 && HEX_DIGITS[v.value] == c
  {
    if '0' <= c <= '9' then Some(c as int - '0' as int)
    else if 'a' <= c <= 'f' then Some(c as int - 'a' as int + 10)
    else None
  }

  /** Inverse of Hex: reads pairs of lower-case hex digits back into bytes. */
  function UnHex(s: string): (r: Option<seq<byte>>)
    ensures r.Some? ==> 2 * |r.value| == |s|
    decreases |s|
  {
    if s == [] then Some([])
    else if |s| == 1 then None
    else
      match (DigitValue(s[0]), DigitValue(s[1]), UnHex(s[2..]))
      case (Some(hi), Some(lo), Some(rest)) => Some([(hi * 16 + lo) as byte] + rest)
      case _ => None
  }

  /** Reading back the hex text of some bytes gives those bytes. */
  lemma {:induction false} UnHexHex(bytes: seq<byte>)
    ensures UnHex(Hex(bytes)) == Some(bytes)
  {
    if bytes != [] {
      var b := bytes[0] as int;
      var s := Hex(bytes);
      assert s[0] == HEX_DIGITS[b / 16] && s[1] == HEX_DIGITS[b % 16];
      DigitValueOfDigit(b / 16);
      DigitValueOfDigit(b % 16);
      assert (b / 16) * 16 + b % 16 == b;
      assert s[2..] == Hex(bytes[1..]);
      UnHexHex(bytes[1..]);
      assert [bytes[0]] + bytes[1..] == bytes;
    }
  }

  lemma DigitValueOfDigit(n: int)
    requires 0 <= n < 16
    ensures DigitValue(HEX_DIGITS[n]) == Some(n)
  {
  }

  /** Whatever UnHex accepts is the hex text of what it returns: only
      lower-case, even-length text reads back. */
  lemma {:induction false} HexUnHex(s: string)
    requires UnHex(s).Some?
    ensures Hex(UnHex(s).value) == s
    decreases |s|
  {
    if s != [] {
      var hi := DigitValue(s[0]).value;
      var lo := DigitValue(s[1]).value;
      var rest := UnHex(s[2..]).value;
      var b := (hi * 16 + lo) as byte;
      assert UnHex(s).value == [b] + rest;
      assert b as int / 16 == hi && b as int % 16 == lo;
      HexUnHex(s[2..]);
      assert ([b] + rest)[1..] == rest;
      assert s == [s[0], s[1]] + s[2..];
    }
  }

  /** Different bytes never have the same hex text. */
  lemma HexInjective(a: seq<byte>, b: seq<byte>)
    ensures Hex(a) == Hex(b) <==> a == b
  {
    UnHexHex(a);
    UnHexHex(b);
  }
}
