/** The compact serialisation a token travels in: segments over the
    base64url alphabet joined by `.`. In place of base64url over UTF-8 JSON,
    a segment here spells numbers and text in a prefix-free digit code over
    the same alphabet; the token service relies only on what the real
    encoding also guarantees: decoding undoes encoding and an encoded
    segment never contains `.`. A segment holding a character outside the
    alphabet is refused here outright, where the real decoder may first
    drop white space and accept what remains. */
module Segment {
  import opened Js

  /** The base64url digit for a value below 64. */
  function Digit(v: nat): (c: char)
    requires v < 64
    ensures DigitValue(c) == Some(v)
  {
    if v < 26 then ('A' as int + v) as char
    else if v < 52 then ('a' as int + v - 26) as char
    else if v < 62 then ('0' as int + v - 52) as char
    else if v == 62 then '-'
    else '_'
  }

  /** The value of a base64url digit; `None` for any other character. */
  function DigitValue(c: char): (r: Option<nat>)
    ensures r.Some? ==> r.value < 64
  {
    if 'A' <= c <= 'Z' then Some(c as int - 'A' as int)
    else if 'a' <= c <= 'z' then Some(c as int - 'a' as int + 26)
    else if '0' <= c <= '9' then Some(c as int - '0' as int + 52)
    else if c == '-' then Some(62)
    else if c == '_' then Some(63)
    else None
  }

  /** Every character of `s` is in the base64url alphabet. */
  predicate IsBase64Url(s: string) {
    forall i :: 0 <= i < |s| ==> DigitValue(s[i]).Some?
  }

  /** A number as base-32 digits, least significant first; a digit of 32 or
      more says that more digits follow. */
  function EncodeNat(n: nat): (s: string)
    ensures |s| > 0 && IsBase64Url(s)
    decreases n
  {
    if n < 32 then [Digit(n)] else [Digit(32 + n % 32)] + EncodeNat(n / 32)
  }

  /** Reads one number off the front of `s`, returning it and what follows. */
  function DecodeNat(s: string): (r: Option<(nat, string)>)
    ensures r.Some? ==> |r.value.1| < |s|
    decreases |s|
  {
    if s == [] then None
    else match DigitValue(s[0])
      case None => None
      case Some(v) =>
        if v < 32 then Some((v, s[1..]))
        else match DecodeNat(s[1..])
          case None => None
          case Some((high, rest)) => Some((v - 32 + 32 * high, rest))
  }

  lemma {:induction false} DecodeEncodeNat(n: nat, rest: string)
    ensures DecodeNat(EncodeNat(n) + rest) == Some((n, rest))
    decreases n
  {
    var s := EncodeNat(n) + rest;
    if n < 32 {
      assert s[1..] == rest;
    } else {
      DecodeEncodeNat(n / 32, rest);
      assert s[0] == Digit(32 + n % 32);
      assert s[1..] == EncodeNat(n / 32) + rest;
    }
  }

  /** The code points of `s`, one number each. */
  function EncodeChars(s: string): (e: string)
    ensures IsBase64Url(e)
  {
    if s == [] then [] else EncodeNat(s[0] as int) + EncodeChars(s[1..])
  }

  /** The numbers that are the code point of some character. */
  predicate IsScalar(n: nat) {
    n < 0xD800 || 0xE000 <= n < 0x11_0000
  }

  /** Reads `count` characters off the front of `s`. */
  function DecodeChars(count: nat, s: string): Option<(string, string)>
    decreases count
  {
    if count == 0 then Some(([], s))
    else match DecodeNat(s)
      case None => None
      case Some((n, rest)) =>
        if !IsScalar(n) then None
        else match DecodeChars(count - 1, rest)
          case None => None
          case Some((cs, tail)) => Some(([n as char] + cs, tail))
  }

  lemma {:induction false} DecodeEncodeChars(s: string, rest: string)
    ensures DecodeChars(|s|, EncodeChars(s) + rest) == Some((s, rest))
  {
    if s != [] {
      var c, tail := s[0], EncodeChars(s[1..]) + rest;
      assert EncodeChars(s) + rest == EncodeNat(c as int) + tail;
      DecodeEncodeNat(c as int, tail);
      assert IsScalar(c as int);
      DecodeEncodeChars(s[1..], rest);
      assert DecodeChars(|s| - 1, tail) == Some((s[1..], rest));
      assert [(c as int) as char] + s[1..] == s;
      assert DecodeChars(|s|, EncodeNat(c as int) + tail) == Some(([(c as int) as char] + s[1..], rest));
    } else {
      assert EncodeChars(s) + rest == rest;
    }
  }

  /** Text: its length, then its characters. */
  function EncodeText(s: string): (e: string)
    ensures IsBase64Url(e)
  {
    EncodeNat(|s|) + EncodeChars(s)
  }

  function DecodeText(s: string): Option<(string, string)> {
    match DecodeNat(s)
    case None => None
    case Some((count, rest)) => DecodeChars(count, rest)
  }

  lemma DecodeEncodeText(s: string, rest: string)
    ensures DecodeText(EncodeText(s) + rest) == Some((s, rest))
  {
    assert EncodeText(s) + rest == EncodeNat(|s|) + (EncodeChars(s) + rest);
    DecodeEncodeNat(|s|, EncodeChars(s) + rest);
    DecodeEncodeChars(s, rest);
  }

  /** `s.split('.')`. */
  function Split(s: string): (parts: seq<string>)
    ensures |parts| > 0
  {
    if s == [] then [[]]
    else if s[0] == '.' then [[]] + Split(s[1..])
    else
      var rest := Split(s[1..]);
      [[s[0]] + rest[0]] + rest[1..]
  }

  /** Text without a `.` stays glued to whatever follows it up to the next
      `.`. */
  lemma {:induction false} SplitAfterDotFree(a: string, b: string)
    requires '.' !in a
    ensures Split(a + b) == [a + Split(b)[0]] + Split(b)[1..]
  {
    if a != [] {
      assert (a + b)[0] == a[0] != '.';
      assert (a + b)[1..] == a[1..] + b;
      assert '.' !in a[1..];
      SplitAfterDotFree(a[1..], b);
      var rest := Split(a[1..] + b);
      assert rest[0] == a[1..] + Split(b)[0];
      assert rest[1..] == Split(b)[1..];
      assert [a[0]] + (a[1..] + Split(b)[0]) == a + Split(b)[0];
    } else {
      var parts := Split(b);
      assert a + b == b && a + parts[0] == parts[0];
      assert [parts[0]] + parts[1..] == parts;
    }
  }

  /** A `.` after dot-free text ends the first part. */
  lemma SplitCons(a: string, rest: string)
    requires '.' !in a
    ensures Split(a + "." + rest) == [a] + Split(rest)
  {
    var tail := "." + rest;
    assert tail[0] == '.' && tail[1..] == rest;
    assert Split(tail) == [[]] + Split(rest);
    SplitAfterDotFree(a, tail);
    assert a + "." + rest == a + tail;
    assert a + [] == a;
  }

  /** Dot-free text is a single part. */
  lemma SplitSingle(c: string)
    requires '.' !in c
    ensures Split(c) == [c]
  {
    SplitAfterDotFree(c, []);
    assert c + [] == c;
  }

  /** Three segments without a `.` split back into themselves. */
  lemma SplitJoin(a: string, b: string, c: string)
    requires '.' !in a && '.' !in b && '.' !in c
    ensures Split(a + "." + b + "." + c) == [a, b, c]
  {
    SplitSingle(c);
    SplitCons(b, c);
    SplitCons(a, b + "." + c);
    assert a + "." + b + "." + c == a + "." + (b + "." + c);
  }

  /** No base64url text contains a `.`. */
  lemma NoDot(s: string)
    requires IsBase64Url(s)
    ensures '.' !in s
  {
  }
}
