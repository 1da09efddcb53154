/**
 * `URLEncoder.encode(text, "UTF-8")`: the application/x-www-form-urlencoded
 * encoding of section 17.13.4.1 of HTML 4.01.  ASCII letters, digits and
 * `.`, `-`, `*`, `_` are kept, a space becomes `+`, and every other character
 * becomes `%XY` for each byte of its UTF-8 encoding (RFC 3629), with
 * upper-case hexadecimal digits.  `Decode` is an independent inverse, and
 * `DecodeEncode` proves the round trip.
 *
 * Characters are Unicode scalar values; a Java string's surrogate pairs
 * correspond to one such character here.
 */
module UrlEncoding {
  import opened Wire

  /** The characters `URLEncoder` copies unchanged. */
  predicate Unreserved(c: char) {
    ('a' <= c <= 'z') || ('A' <= c <= 'Z') || ('0' <= c <= '9')
    || c == '.' || c == '-' || c == '*' || c == '_'
  }

  /** UTF-8 encoding of one scalar value (section 3 of RFC 3629). */
  function Utf8(c: char): (bs: seq<byte>)
    ensures 1 <= |bs| <= 4
    ensures |bs| == 1 <==> c as int < 0x80
    ensures |bs| == 1 ==> bs[0] == c as int
  {
    var n := c as int;
    if n < 0x80 then [n]
    else if n < 0x800 then [0xC0 + n / 64, 0x80 + n % 64]
    else if n < 0x10000 then [0xE0 + n / 4096, 0x80 + (n / 64) % 64, 0x80 + n % 64]
    else [0xF0 + n / 262144, 0x80 + (n / 4096) % 64, 0x80 + (n / 64) % 64, 0x80 + n % 64]
  }

  /** `String.getBytes("UTF-8")`. */
  function Utf8String(s: string): (bs: seq<byte>)
    ensures |bs| >= |s|
    ensures (forall i :: 0 <= i < |s| ==> s[i] as int < 0x80) ==> |bs| == |s|
  {
    if s == [] then [] else Utf8(s[0]) + Utf8String(s[1..])
  }

  /** Number of bytes of a UTF-8 sequence led by `b0`; 0 when `b0` cannot lead one. */
  function SequenceLength(b0: byte): nat {
    if b0 < 0x80 then 1
    else if 0xC0 <= b0 < 0xE0 then 2
    else if 0xE0 <= b0 < 0xF0 then 3
    else if 0xF0 <= b0 < 0xF8 then 4
    else 0
  }

  /** The scalar value a UTF-8 sequence of one to four bytes stands for. */
  function CodePoint(bs: seq<byte>): int
    requires 1 <= |bs| <= 4
  {
    var b: seq<int> := bs;
    if |b| == 1 then b[0]
    else if |b| == 2 then (b[0] - 0xC0) * 64 + (b[1] - 0x80)
    else if |b| == 3 then (b[0] - 0xE0) * 4096 + (b[1] - 0x80) * 64 + (b[2] - 0x80)
    else (b[0] - 0xF0) * 262144 + (b[1] - 0x80) * 4096 + (b[2] - 0x80) * 64 + (b[3] - 0x80)
  }

  predicate IsScalar(n: int) {
    0 <= n < 0xD800 || 0xE000 <= n < 0x11_0000
  }

  /** The upper-case hexadecimal digit for `d`. */
  function HexDigit(d: int): char
    requires 0 <= d < 16
  {
    if d < 10 then ('0' as int + d) as char else ('A' as int + d - 10) as char
  }

  function HexValue(c: char): Option<int> {
    if '0' <= c <= '9' then Some(c as int - '0' as int)
    else if 'A' <= c <= 'F' then Some(c as int - 'A' as int + 10)
    else if 'a' <= c <= 'f' then Some(c as int - 'a' as int + 10)
    else None
  }

  /** `%XY` for each byte. */
  function Percent(bs: seq<byte>): (t: string)
    ensures |t| == 3 * |bs|
  {
    if bs == [] then "" else ['%', HexDigit(bs[0] / 16), HexDigit(bs[0] % 16)] + Percent(bs[1..])
  }

  /** How `URLEncoder` writes one character. */
  function EncodeChar(c: char): string {
    if Unreserved(c) then [c]
    else if c == ' ' then "+"
    else Percent(Utf8(c))
  }

  /** Every character of the result is unreserved, `+` or `%`, so it never holds `&`, `=`, `?` or `#`. */
  function Encode(s: string): (r: string)
    ensures forall i :: 0 <= i < |r| ==> Unreserved(r[i]) || r[i] == '+' || r[i] == '%'
    ensures |r| >= |s|
  {
    if s == [] then ""
    else
      var head := EncodeChar(s[0]);
      assert forall i :: 0 <= i < |head| ==> Unreserved(head[i]) || head[i] == '+' || head[i] == '%' by {
        if !Unreserved(s[0]) && s[0] != ' ' { PercentAlphabet(Utf8(s[0])); }
      }
      head + Encode(s[1..])
  }

  lemma {:induction false} PercentAlphabet(bs: seq<byte>)
    ensures forall i :: 0 <= i < |Percent(bs)| ==> Unreserved(Percent(bs)[i]) || Percent(bs)[i] == '%'
  {
    if bs != [] {
      PercentAlphabet(bs[1..]);
    }
  }

  // ---------------------------------------------------------------------------
  // Decoding

  function Cons(c: char, r: Option<string>): Option<string> {
    if r.Some? then Some([c] + r.value) else None
  }

  /** The byte written as `%XY` at the start of `t`. */
  function PercentByte(t: string): Option<byte>
    requires |t| >= 3
  {
    if t[0] != '%' then None
    else match (HexValue(t[1]), HexValue(t[2]))
      case (Some(hi), Some(lo)) => Some(hi * 16 + lo)
      case _ => None
  }

  /** The `k` bytes written as `%XY%XY…` at the start of `t`. */
  function ReadPercent(t: string, k: nat): (r: Option<seq<byte>>)
    requires 3 * k <= |t|
    ensures r.Some? ==> |r.value| == k
  {
    if k == 0 then Some([])
    else match (PercentByte(t[..3]), ReadPercent(t[3..], k - 1))
      case (Some(b), Some(bs)) => Some([b] + bs)
      case _ => None
  }

  /** The inverse of `Encode`: `+` is a space, `%XY…` one UTF-8 encoded character, anything else itself. */
  function Decode(t: string): Option<string>
    decreases |t|
  {
    if t == [] then Some("")
    else if t[0] == '+' then Cons(' ', Decode(t[1..]))
    else if t[0] != '%' then Cons(t[0], Decode(t[1..]))
    else if |t| < 3 then None
    else match PercentByte(t)
      case None => None
      case Some(b0) =>
        var k := SequenceLength(b0);
        if k == 0 || |t| < 3 * k then None
        else match ReadPercent(t, k)
          case None => None
          case Some(bs) =>
            var n := CodePoint(bs);
            if IsScalar(n) then Cons(n as char, Decode(t[3 * k..])) else None
  }

  // ---------------------------------------------------------------------------
  // Round trip

  lemma HexRoundTrip(d: int)
    requires 0 <= d < 16
    ensures HexValue(HexDigit(d)) == Some(d)
  {
  }

  /** One byte written as `%XY` reads back as that byte. */
  lemma PercentByteOf(b: byte)
    ensures PercentByte(['%', HexDigit(b / 16), HexDigit(b % 16)]) == Some(b)
  {
    HexRoundTrip(b / 16);
    HexRoundTrip(b % 16);
  }

  lemma {:induction false} ReadPercentOf(bs: seq<byte>, rest: string)
    ensures 3 * |bs| <= |Percent(bs) + rest|
    ensures ReadPercent(Percent(bs) + rest, |bs|) == Some(bs)
  {
    if bs != [] {
      var b := bs[0];
      var head := ['%', HexDigit(b / 16), HexDigit(b % 16)];
      var tail := Percent(bs[1..]) + rest;
      var t := Percent(bs) + rest;
      assert t[..3] == head && t[3..] == tail by {
        assert t == head + tail;
      }
      PercentByteOf(b);
      ReadPercentOf(bs[1..], rest);
      assert ReadPercent(t, |bs|) == Some([b] + bs[1..]);
      assert [b] + bs[1..] == bs;
    }
  }

  /** The lead byte announces the length of the sequence, and the sequence decodes to the character. */
  lemma Utf8Decodes(c: char)
    ensures SequenceLength(Utf8(c)[0]) == |Utf8(c)|
    ensures CodePoint(Utf8(c)) == c as int
  {
    var n := c as int;
    if n < 0x80 {
    } else if n < 0x800 {
      assert (n / 64) * 64 + n % 64 == n;
    } else if n < 0x10000 {
      var q := n / 64;
      assert q == (n / 4096) * 64 + q % 64 by { assert q / 64 == n / 4096; }
      assert CodePoint(Utf8(c)) == (n / 4096) * 4096 + (q % 64) * 64 + n % 64;
    } else {
      var q := n / 64;
      var p := n / 4096;
      assert q == p * 64 + q % 64 by { assert q / 64 == p; }
      assert p == (n / 262144) * 64 + p % 64 by { assert p / 64 == n / 262144; }
      assert CodePoint(Utf8(c)) == (n / 262144) * 262144 + (p % 64) * 4096 + (q % 64) * 64 + n % 64;
    }
  }

  lemma DecodeChar(c: char, rest: string)
    ensures Decode(EncodeChar(c) + rest) == Cons(c, Decode(rest))
  {
    var t := EncodeChar(c) + rest;
    if Unreserved(c) || c == ' ' {
      assert t[1..] == rest;
    } else {
      var bs := Utf8(c);
      var k := |bs|;
      ReadPercentOf(bs, rest);
      ReadPercentOf(bs[..1], Percent(bs[1..]) + rest);
      assert bs[..1] + bs[1..] == bs;
      assert Percent(bs) == Percent(bs[..1]) + Percent(bs[1..]);
      assert t[0] == '%';
      HexRoundTrip(bs[0] / 16);
      HexRoundTrip(bs[0] % 16);
      assert PercentByte(t) == Some(bs[0]);
      Utf8Decodes(c);
      assert SequenceLength(bs[0]) == k;
      assert t[3 * k..] == rest;
    }
  }

  lemma {:induction false} DecodeEncode(s: string)
    ensures Decode(Encode(s)) == Some(s)
  {
    if s != [] {
      DecodeChar(s[0], Encode(s[1..]));
      DecodeEncode(s[1..]);
      assert [s[0]] + s[1..] == s;
    }
  }

  /** Different texts never encode alike, so a query value can always be recovered. */
  lemma EncodeInjective(s1: string, s2: string)
    requires Encode(s1) == Encode(s2)
    ensures s1 == s2
  {
    DecodeEncode(s1);
    DecodeEncode(s2);
  }
}
