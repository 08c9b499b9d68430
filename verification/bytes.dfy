/** Bytes and the lowercase hexadecimal rendering `hashlib`'s `hexdigest()` produces. */
module Bytes {
  import opened Wrappers

  type Byte = b: int | 0 <= b < 256

  predicate IsLowerHex(c: char) {
    '0' <= c <= '9' || 'a' <= c <= 'f'
  }

  function HexDigit(d: nat): (c: char)
    requires d < 16
    ensures IsLowerHex(c)
  {
    "0123456789abcdef"[d]
  }

  function HexValue(c: char): (d: nat)
    requires IsLowerHex(c)
    ensures d < 16
  {
    if c <= '9' then c as int - '0' as int else c as int - 'a' as int + 10
  }

  lemma HexValueOfDigit(d: nat)
    requires d < 16
    ensures HexValue(HexDigit(d)) == d
  {
  }

  /** Two lowercase hex digits per byte, high nibble first. */
  function HexDigest(bs: seq<Byte>): (s: string)
    ensures |s| == 2 * |bs|
    ensures forall i :: 0 <= i < |s| ==> IsLowerHex(s[i])
  {
    if |bs| == 0 then "" else [HexDigit(bs[0] / 16), HexDigit(bs[0] % 16)] + HexDigest(bs[1..])
  }

  /** Reads a string of lowercase hex digit pairs back into bytes. */
  function ParseHex(s: string): Option<seq<Byte>>
    decreases |s|
  {
    if |s| == 0 then Some([])
    else if |s| == 1 || !IsLowerHex(s[0]) || !IsLowerHex(s[1]) then None
    else match ParseHex(s[2..])
      case None => None
      case Some(rest) => Some([HexValue(s[0]) * 16 + HexValue(s[1])] + rest)
  }

  /** `hexdigest()` loses nothing: the text reads back as the digest bytes. */
  lemma {:induction false} ParseHexDigest(bs: seq<Byte>)
    ensures ParseHex(HexDigest(bs)) == Some(bs)
  {
    if |bs| > 0 {
      var s := HexDigest(bs);
      ParseHexDigest(bs[1..]);
      assert s[2..] == HexDigest(bs[1..]);
      HexValueOfDigit(bs[0] / 16);
      HexValueOfDigit(bs[0] % 16);
      assert [bs[0]] + bs[1..] == bs;
    }
  }

  lemma HexDigestInjective(a: seq<Byte>, b: seq<Byte>)
    ensures HexDigest(a) == HexDigest(b) ==> a == b
  {
    ParseHexDigest(a);
    ParseHexDigest(b);
  }
}
