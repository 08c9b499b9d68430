/** Text helpers behind the id pre-image: Python's `str` of an integer and
    `'+'.join(...)`, each with the inverse that shows nothing is lost. */
module Strings {
  import opened Wrappers

  predicate IsDigit(c: char) {
    '0' <= c <= '9'
  }

  predicate AllDigits(s: string) {
    forall i :: 0 <= i < |s| ==> IsDigit(s[i])
  }

  function DigitChar(d: nat): (c: char)
    requires d < 10
    ensures IsDigit(c) && c as int - '0' as int == d
  {
    "0123456789"[d]
  }

  function DigitValue(c: char): nat
    requires IsDigit(c)
  {
    c as int - '0' as int
  }

  /** Decimal digits of `n`, most significant first, without leading zeros. */
  function NatToString(n: nat): (s: string)
    ensures |s| >= 1 && AllDigits(s)
    ensures s[0] == '0' ==> n == 0
    decreases n
  {
    if n < 10 then [DigitChar(n)] else NatToString(n / 10) + [DigitChar(n % 10)]
  }

  /** The number a non-empty string of decimal digits denotes. */
  function DigitsValue(s: string): nat
    requires AllDigits(s)
    decreases |s|
  {
    if |s| == 0 then 0 else DigitsValue(s[..|s| - 1]) * 10 + DigitValue(s[|s| - 1])
  }

  /** Python's `str(i)` for an integer `i`. */
  function IntToString(i: int): (s: string)
    ensures |s| >= 1
    ensures i < 0 <==> s[0] == '-'
  {
    if i < 0 then "-" + NatToString(-i) else NatToString(i)
  }

  /** Reads back an optionally signed decimal numeral. */
  function ParseInt(s: string): Option<int> {
    if |s| >= 2 && s[0] == '-' && AllDigits(s[1..]) then
      var magnitude: int := DigitsValue(s[1..]);
      Some(-magnitude)
    else if |s| >= 1 && AllDigits(s) then Some(DigitsValue(s))
    else None
  }

  lemma {:induction false} NatToStringValue(n: nat)
    ensures DigitsValue(NatToString(n)) == n
    decreases n
  {
    if n >= 10 {
      NatToStringValue(n / 10);
      var s := NatToString(n);
      assert s[..|s| - 1] == NatToString(n / 10);
    }
  }

  lemma ParseUnsigned(s: string)
    requires |s| >= 1 && AllDigits(s)
    ensures ParseInt(s) == Some(DigitsValue(s))
  {
    assert IsDigit(s[0]);
  }

  lemma ParseSigned(s: string)
    requires |s| >= 1 && AllDigits(s)
    ensures ParseInt("-" + s) == Some(-(DigitsValue(s) as int))
  {
    var t := "-" + s;
    assert t[1..] == s;
  }

  /** `str` of an integer loses nothing: the numeral reads back as the same integer. */
  lemma IntToStringRoundTrip(i: int)
    ensures ParseInt(IntToString(i)) == Some(i)
  {
    if i < 0 {
      NatToStringValue(-i);
      ParseSigned(NatToString(-i));
    } else {
      NatToStringValue(i);
      ParseUnsigned(NatToString(i));
    }
  }

  lemma IntToStringInjective(i: int, j: int)
    ensures IntToString(i) == IntToString(j) ==> i == j
  {
    IntToStringRoundTrip(i);
    IntToStringRoundTrip(j);
  }

  /** Python's `sep.join(parts)`. */
  function Join(parts: seq<string>, sep: char): (s: string)
    decreases |parts|
  {
    if |parts| == 0 then "" else if |parts| == 1 then parts[0] else parts[0] + [sep] + Join(parts[1..], sep)
  }

  /** Python's `s.split(sep)`: cuts at every occurrence, always at least one piece. */
  function Split(s: string, sep: char): (parts: seq<string>)
    ensures |parts| >= 1
    decreases |s|
  {
    if |s| == 0 then [""]
    else if s[0] == sep then [""] + Split(s[1..], sep)
    else
      var rest := Split(s[1..], sep);
      [[s[0]] + rest[0]] + rest[1..]
  }

  lemma {:induction false} SplitPiece(a: string, sep: char, tail: seq<string>, b: string)
    requires sep !in a
    requires Split(b, sep) == tail
    ensures Split(a + b, sep) == [a + tail[0]] + tail[1..]
    decreases |a|
  {
    if |a| > 0 {
      SplitPiece(a[1..], sep, tail, b);
      assert (a + b)[0] == a[0] != sep;
      assert (a + b)[1..] == a[1..] + b;
      var rest := Split(a[1..] + b, sep);
      assert rest == [a[1..] + tail[0]] + tail[1..];
      assert Split(a + b, sep) == [[a[0]] + rest[0]] + rest[1..];
      assert [a[0]] + (a[1..] + tail[0]) == a + tail[0];
    } else {
      assert a + b == b;
      assert a + tail[0] == tail[0];
      assert [tail[0]] + tail[1..] == tail;
    }
  }

  /** Splitting a join gives the parts back when no part contains the separator. */
  lemma {:induction false} SplitJoin(parts: seq<string>, sep: char)
    requires |parts| >= 1
    requires forall i :: 0 <= i < |parts| ==> sep !in parts[i]
    ensures Split(Join(parts, sep), sep) == parts
    decreases |parts|
  {
    if |parts| == 1 {
      SplitPiece(parts[0], sep, [""], "");
      assert parts[0] + "" == parts[0];
    } else {
      SplitJoin(parts[1..], sep);
      var rest := Join(parts[1..], sep);
      assert Split([sep] + rest, sep) == [""] + parts[1..];
      SplitPiece(parts[0], sep, [""] + parts[1..], [sep] + rest);
      assert parts[0] + ([sep] + rest) == Join(parts, sep);
      assert parts[0] + "" == parts[0];
      assert [parts[0]] + parts[1..] == parts;
    }
  }

  /** Joining is injective on part lists of one length whose parts avoid the separator. */
  lemma JoinInjective(p: seq<string>, q: seq<string>, sep: char)
    requires |p| == |q| >= 1
    requires forall i :: 0 <= i < |p| ==> sep !in p[i]
    requires forall i :: 0 <= i < |q| ==> sep !in q[i]
    ensures Join(p, sep) == Join(q, sep) ==> p == q
  {
    SplitJoin(p, sep);
    SplitJoin(q, sep);
  }

  lemma CommonSuffix(a: string, b: string, c: string)
    requires a + c == b + c
    ensures a == b
  {
    assert |a| == |b|;
    assert a == (a + c)[..|a|];
    assert b == (b + c)[..|b|];
  }

  lemma CommonPrefix(c: string, a: string, b: string)
    requires c + a == c + b
    ensures a == b
  {
    assert a == (c + a)[|c|..];
    assert b == (c + b)[|c|..];
  }

  /** Replacing one part by a different one always changes the join, separators or not. */
  lemma {:induction false} JoinChangeOne(p: seq<string>, q: seq<string>, sep: char, k: nat)
    requires |p| == |q| && k < |p|
    requires forall i :: 0 <= i < |p| && i != k ==> p[i] == q[i]
    requires p[k] != q[k]
    ensures Join(p, sep) != Join(q, sep)
    decreases |p|
  {
    if |p| == 1 {
    } else if k == 0 {
      assert p[1..] == q[1..];
      var rest := [sep] + Join(p[1..], sep);
      assert Join(p, sep) == p[0] + rest;
      assert Join(q, sep) == q[0] + rest;
      if Join(p, sep) == Join(q, sep) {
        CommonSuffix(p[0], q[0], rest);
      }
    } else {
      JoinChangeOne(p[1..], q[1..], sep, k - 1);
      var head := p[0] + [sep];
      assert Join(p, sep) == head + Join(p[1..], sep);
      assert Join(q, sep) == head + Join(q[1..], sep);
      if Join(p, sep) == Join(q, sep) {
        CommonPrefix(head, Join(p[1..], sep), Join(q[1..], sep));
      }
    }
  }
}
