/**
 * Lowercase base16 (the encoding of section 8 of RFC 4648, with the
 * lower-case alphabet that Node's `Buffer.toString("hex")` emits), and
 * its inverse. Every byte becomes two digits, high nibble first.
 */
module Hex {

  import opened Wrappers

  /** An octet, as `crypto.randomBytes` yields them. */
  type byte = x: int | 0 <= x < 256

  predicate IsLowerHexDigit(c: char) {
    '0' <= c <= '9' || 'a' <= c <= 'f'
  }

  /** The value of a lowercase hex digit; `None` for any other character. */
  function DigitValue(c: char): (v: Option<nat>)
    ensures v.Some? <==> IsLowerHexDigit(c)
    ensures v.Some? ==> v.value < 16
  {
    if '0' <= c <= '9' then Some(c as int - '0' as int)
    else if 'a' <= c <= 'f' then Some(c as int - 'a' as int + 10)
    else None
  }

  /** The lowercase hex digit for a nibble. */
  function Digit(n: nat): (c: char)
    requires n < 16
    ensures IsLowerHexDigit(c)
    ensures DigitValue(c) == Some(n)
  {
    if n < 10 then ('0' as int + n) as char else ('a' as int + n - 10) as char
  }

  lemma DigitOfValue(c: char)
    requires IsLowerHexDigit(c)
    ensures DigitValue(c).Some? && Digit(DigitValue(c).value) == c
  {
  }

  /** `Buffer.from(bytes).toString("hex")`. */
  function ToHex(bytes: seq<byte>): (s: string)
    ensures |s| == 2 * |bytes|
    ensures forall i :: 0 <= i < |s| ==> IsLowerHexDigit(s[i])
    ensures forall i :: 0 <= i < |bytes| ==>
      s[2 * i] == Digit(bytes[i] / 16) && s[2 * i + 1] == Digit(bytes[i] % 16)
  {
    if bytes == [] then []
    else [Digit(bytes[0] / 16), Digit(bytes[0] % 16)] + ToHex(bytes[1..])
  }

  /** Strict decoding: an even number of lowercase hex digits, high nibble first. */
  function FromHex(s: string): (r: Option<seq<byte>>)
    ensures r.Some? <==> |s| % 2 == 0 && forall i :: 0 <= i < |s| ==> IsLowerHexDigit(s[i])
    ensures r.Some? ==> 2 * |r.value| == |s|
  {
    if |s| == 0 then Some([])
    else if |s| == 1 then None
    else
      match (DigitValue(s[0]), DigitValue(s[1]), FromHex(s[2..]))
      case (Some(hi), Some(lo), Some(rest)) => Some([hi * 16 + lo] + rest)
      case _ => None
  }

  /** One decoding step: a leading pair of digits becomes one byte. */
  lemma FromHexPair(hi: nat, lo: nat, t: string)
    requires hi < 16 && lo < 16 && FromHex(t).Some?
    ensures FromHex([Digit(hi), Digit(lo)] + t) == Some([hi * 16 + lo] + FromHex(t).value)
  {
    assert ([Digit(hi), Digit(lo)] + t)[2..] == t;
  }

  /** Decoding recovers every encoded byte sequence. */
  lemma {:induction false} FromHexToHex(bytes: seq<byte>)
    ensures FromHex(ToHex(bytes)) == Some(bytes)
  {
    if bytes != [] {
      var rest := bytes[1..];
      FromHexToHex(rest);
      FromHexPair(bytes[0] / 16, bytes[0] % 16, ToHex(rest));
      assert bytes == [bytes[0]] + rest;
    }
  }

  /** Encoding recovers every string that decodes: it is exactly the even-length lowercase hex strings. */
  lemma {:induction false} ToHexFromHex(s: string)
    requires FromHex(s).Some?
    ensures ToHex(FromHex(s).value) == s
  {
    if |s| >= 2 {
      var bytes := FromHex(s).value;
      DigitOfValue(s[0]);
      DigitOfValue(s[1]);
      ToHexFromHex(s[2..]);
      assert bytes[1..] == FromHex(s[2..]).value;
      assert s == [s[0], s[1]] + s[2..];
    }
  }

  /** Two byte sequences with the same encoding are equal. */
  lemma ToHexInjective(a: seq<byte>, b: seq<byte>)
    requires ToHex(a) == ToHex(b)
    ensures a == b
  {
    FromHexToHex(a);
    FromHexToHex(b);
  }
}
