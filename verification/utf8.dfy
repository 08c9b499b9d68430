/** UTF-8, the encoding Python's `str.encode()` uses by default. A Dafny
    `char` is a Unicode scalar value, so every string here is encodable. */
module Utf8 {
  import opened Wrappers
  import opened Bytes

  predicate IsContinuation(b: Byte) {
    0x80 <= b < 0xC0
  }

  /** The one to four bytes of one scalar value, shortest form. */
  function EncodeChar(c: char): (bs: seq<Byte>)
    ensures 1 <= |bs| <= 4
    ensures |bs| == 1 <==> c as int < 0x80
    ensures forall i :: 1 <= i < |bs| ==> IsContinuation(bs[i])
  {
    var n := c as int;
    if n < 0x80 then [n]
    else if n < 0x800 then [0xC0 + n / 64, 0x80 + n % 64]
    else if n < 0x10000 then [0xE0 + n / 4096, 0x80 + n / 64 % 64, 0x80 + n % 64]
    else [0xF0 + n / 262144, 0x80 + n / 4096 % 64, 0x80 + n / 64 % 64, 0x80 + n % 64]
  }

  function Encode(s: string): (bs: seq<Byte>)
    ensures |bs| >= |s|
  {
    if |s| == 0 then [] else EncodeChar(s[0]) + Encode(s[1..])
  }

  predicate IsScalar(n: int) {
    0 <= n < 0xD800 || 0xE000 <= n < 0x11_0000
  }

  /** Decodes the scalar value at the front of `bs` and says how many bytes it took;
      `None` for a malformed, overlong or surrogate sequence. */
  function DecodeChar(bs: seq<Byte>): (r: Option<(char, nat)>)
    ensures r.Some? ==> 1 <= r.value.1 <= |bs|
  {
    if |bs| == 0 then None
    else if bs[0] < 0x80 then Some((bs[0] as char, 1))
    else if 0xC0 <= bs[0] < 0xE0 && |bs| >= 2 && IsContinuation(bs[1]) then
      var n: int := (bs[0] - 0xC0) as int * 64 + (bs[1] - 0x80) as int;
      if 0x80 <= n then Some((n as char, 2)) else None
    else if 0xE0 <= bs[0] < 0xF0 && |bs| >= 3 && IsContinuation(bs[1]) && IsContinuation(bs[2]) then
      var n: int := (bs[0] - 0xE0) as int * 4096 + (bs[1] - 0x80) as int * 64 + (bs[2] - 0x80) as int;
      if 0x800 <= n && IsScalar(n) then Some((n as char, 3)) else None
    else if 0xF0 <= bs[0] < 0xF8 && |bs| >= 4 && IsContinuation(bs[1]) && IsContinuation(bs[2])
         && IsContinuation(bs[3]) then
      var n: int := (bs[0] - 0xF0) as int * 262144 + (bs[1] - 0x80) as int * 4096
        + (bs[2] - 0x80) as int * 64 + (bs[3] - 0x80) as int;
      if 0x1_0000 <= n < 0x11_0000 then Some((n as char, 4)) else None
    else None
  }

  function Decode(bs: seq<Byte>): Option<string>
    decreases |bs|
  {
    if |bs| == 0 then Some("")
    else match DecodeChar(bs)
      case None => None
      case Some((c, k)) =>
        match Decode(bs[k..])
        case None => None
        case Some(rest) => Some([c] + rest)
  }

  lemma Split3(n: int)
    requires 0 <= n
    ensures (n / 4096) * 4096 + (n / 64 % 64) * 64 + n % 64 == n
  {
  }

  lemma High(n: int, q: int, r: int)
    requires 0 <= q && 0 <= r < 262144 && n == q * 262144 + r
    ensures n / 4096 % 64 == r / 4096
  {
    assert n / 4096 == q * 64 + r / 4096;
  }

  lemma Middle(n: int, q: int, r: int)
    requires 0 <= q && 0 <= r < 262144 && n == q * 262144 + r
    ensures n / 64 % 64 == r / 64 % 64
  {
    var m := q * 64 + r / 64 / 64;
    assert r / 64 == (r / 64 / 64) * 64 + r / 64 % 64;
    DivBy64(n, m * 64 + r / 64 % 64);
    ModBy64(m, r / 64 % 64);
  }

  lemma DivBy64(n: int, m: int)
    requires m * 64 <= n < m * 64 + 64
    ensures n / 64 == m
  {
  }

  lemma ModBy64(m: int, b: int)
    requires 0 <= b < 64
    ensures (m * 64 + b) % 64 == b
  {
  }

  lemma Split4(n: int)
    requires 0 <= n < 0x11_0000
    ensures (n / 262144) * 262144 + (n / 4096 % 64) * 4096 + (n / 64 % 64) * 64 + n % 64 == n
  {
    var q, r := n / 262144, n % 262144;
    Split3(r);
    High(n, q, r);
    Middle(n, q, r);
    assert n % 64 == r % 64;
  }

  lemma DecodeEncodeChar(c: char, rest: seq<Byte>)
    ensures DecodeChar(EncodeChar(c) + rest) == Some((c, |EncodeChar(c)|))
  {
    var n := c as int;
    var bs := EncodeChar(c) + rest;
    if n < 0x80 {
    } else if n < 0x800 {
      assert bs[0] == 0xC0 + n / 64 && bs[1] == 0x80 + n % 64;
    } else if n < 0x10000 {
      Split3(n);
      assert bs[0] == 0xE0 + n / 4096 && bs[1] == 0x80 + n / 64 % 64 && bs[2] == 0x80 + n % 64;
    } else {
      Split4(n);
      assert bs[0] == 0xF0 + n / 262144 && bs[1] == 0x80 + n / 4096 % 64;
      assert bs[2] == 0x80 + n / 64 % 64 && bs[3] == 0x80 + n % 64;
    }
  }

  /** Encoding loses nothing: decoding the bytes gives the string back. */
  lemma {:induction false} DecodeEncode(s: string)
    ensures Decode(Encode(s)) == Some(s)
  {
    if |s| > 0 {
      var head := EncodeChar(s[0]);
      DecodeEncodeChar(s[0], Encode(s[1..]));
      assert (head + Encode(s[1..]))[|head|..] == Encode(s[1..]);
      DecodeEncode(s[1..]);
      assert [s[0]] + s[1..] == s;
    }
  }

  /** Distinct strings hash distinct byte strings. */
  lemma EncodeInjective(s: string, t: string)
    ensures Encode(s) == Encode(t) ==> s == t
  {
    DecodeEncode(s);
    DecodeEncode(t);
  }
}
