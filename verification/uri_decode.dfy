/** `decodeURIComponent` (ECMAScript's Decode with an empty reserved set), which the
    Content-Disposition parser applies to the `filename*=UTF-8''` value: `%XX` escapes are
    collected into UTF-8 sequences and decoded; a malformed escape or an ill-formed UTF-8
    sequence raises `URIError`, modelled as `None`. */
module UriDecode {
  import opened Wrappers

  type Byte = b: int | 0 <= b < 256

  /** The value of one hexadecimal digit, either case. */
  function HexValue(c: char): Option<nat> {
    if '0' <= c <= '9' then Some(c as int - '0' as int)
    else if 'a' <= c <= 'f' then Some(c as int - 'a' as int + 10)
    else if 'A' <= c <= 'F' then Some(c as int - 'A' as int + 10)
    else None
  }

  /** The `%XX` escape starting at position `k`, as a byte. */
  function EscapeAt(s: string, k: nat): (r: Option<Byte>)
    ensures r.Some? ==> k + 3 <= |s| && s[k] == '%'
  {
    if k + 3 <= |s| && s[k] == '%' && HexValue(s[k + 1]).Some? && HexValue(s[k + 2]).Some? then
      Some(HexValue(s[k + 1]).value * 16 + HexValue(s[k + 2]).value)
    else None
  }

  /** The number of bytes a lead byte announces (its count of leading one bits), with
      0 for a byte that cannot lead (a continuation byte or five or more leading ones). */
  function SequenceLength(b: Byte): nat {
    if b < 0x80 then 1
    else if b < 0xC0 then 0
    else if b < 0xE0 then 2
    else if b < 0xF0 then 3
    else if b < 0xF8 then 4
    else 0
  }

  predicate IsContinuation(b: Byte) {
    0x80 <= b < 0xC0
  }

  /** The code point of a well-formed multi-byte UTF-8 sequence (Unicode, table 3-7): no
      overlong form, no surrogate, nothing above U+10FFFF. */
  function Utf8Decode(bs: seq<Byte>): (r: Option<char>)
    ensures r.Some? ==> 2 <= |bs| <= 4 && r.value as int >= 0x80
  {
    if |bs| == 2 && 0xC2 <= bs[0] <= 0xDF && IsContinuation(bs[1]) then
      var v: int := (bs[0] as int - 0xC0) * 64 + (bs[1] as int - 0x80);
      Some(v as char)
    else if |bs| == 3 && 0xE0 <= bs[0] <= 0xEF && IsContinuation(bs[1]) && IsContinuation(bs[2])
      && (bs[0] != 0xE0 || bs[1] >= 0xA0) && (bs[0] != 0xED || bs[1] <= 0x9F) then
      var v: int := (bs[0] as int - 0xE0) * 4096 + (bs[1] as int - 0x80) * 64 + (bs[2] as int - 0x80);
      Some(v as char)
    else if |bs| == 4 && 0xF0 <= bs[0] <= 0xF4 && IsContinuation(bs[1]) && IsContinuation(bs[2])
      && IsContinuation(bs[3]) && (bs[0] != 0xF0 || bs[1] >= 0x90) && (bs[0] != 0xF4 || bs[1] <= 0x8F) then
      var v: int := (bs[0] as int - 0xF0) * 262144 + (bs[1] as int - 0x80) * 4096
        + (bs[2] as int - 0x80) * 64 + (bs[3] as int - 0x80);
      Some(v as char)
    else None
  }

  /** The `n - 1` escapes that follow the lead escape at the start of `s`. */
  function Trailing(s: string, n: nat): (r: Option<seq<Byte>>)
    ensures r.Some? ==> |r.value| == n && (n > 0 ==> 3 * (n + 1) <= |s|)
    decreases n
  {
    if n == 0 then Some([])
    else
      match EscapeAt(s, 3 * n)
      case None => None
      case Some(b) =>
        match Trailing(s, n - 1)
        case None => None
        case Some(bs) => Some(bs + [b])
  }

  /** Decodes the escape sequence at the start of `s` (which begins with `%`): the decoded
      character and the number of input characters it used. */
  function DecodeEscape(s: string): (r: Option<(char, nat)>)
    ensures r.Some? ==> 3 <= r.value.1 <= |s|
  {
    match EscapeAt(s, 0)
    case None => None
    case Some(b) =>
      if b < 0x80 then Some((b as char, 3))
      else
        var n := SequenceLength(b);
        if n < 2 then None
        else match Trailing(s, n - 1)
          case None => None
          case Some(rest) =>
            match Utf8Decode([b] + rest)
            case None => None
            case Some(c) => Some((c, 3 * n))
  }

  /** `decodeURIComponent(s)`; `None` where the source's call throws `URIError`. */
  function DecodeURIComponent(s: string): (r: Option<string>)
    decreases |s|
  {
    if |s| == 0 then Some("")
    else if s[0] != '%' then
      match DecodeURIComponent(s[1..])
      case None => None
      case Some(t) => Some([s[0]] + t)
    else
      match DecodeEscape(s)
      case None => None
      case Some(p) =>
        match DecodeURIComponent(s[p.1..])
        case None => None
        case Some(t) => Some([p.0] + t)
  }

  /** A string with no `%` decodes to itself. */
  lemma {:induction false} DecodePlain(s: string)
    requires '%' !in s
    ensures DecodeURIComponent(s) == Some(s)
    decreases |s|
  {
    if |s| > 0 {
      assert s[0] in s;
      assert forall c | c in s[1..] :: c in s;
      DecodePlain(s[1..]);
      assert [s[0]] + s[1..] == s;
    }
  }

  // ----- the inverse, used to state the round trip -----

  /** Upper-case hexadecimal digit of a nibble. */
  function HexDigit(v: nat): (c: char)
    requires v < 16
    ensures HexValue(c) == Some(v)
  {
    if v < 10 then ('0' as int + v) as char else ('A' as int + v - 10) as char
  }

  /** `%XX` for one byte. */
  function EscapeByte(b: Byte): (e: string)
    ensures |e| == 3 && EscapeAt(e, 0) == Some(b)
  {
    ['%', HexDigit(b / 16), HexDigit(b % 16)]
  }

  /** UTF-8 encoding of a Unicode scalar value. */
  function Utf8Encode(c: char): (bs: seq<Byte>)
    ensures 1 <= |bs| <= 4
  {
    var v := c as int;
    if v < 0x80 then [v]
    else if v < 0x800 then [0xC0 + v / 64, 0x80 + v % 64]
    else if v < 0x10000 then [0xE0 + v / 4096, 0x80 + (v / 64) % 64, 0x80 + v % 64]
    else [0xF0 + v / 262144, 0x80 + (v / 4096) % 64, 0x80 + (v / 64) % 64, 0x80 + v % 64]
  }

  function EscapeBytes(bs: seq<Byte>): (e: string)
    ensures |e| == 3 * |bs|
  {
    if |bs| == 0 then "" else EscapeBytes(bs[..|bs| - 1]) + EscapeByte(bs[|bs| - 1])
  }

  /** Percent-encodes every character of `s` as UTF-8 escapes. */
  function PercentEncode(s: string): string {
    if |s| == 0 then "" else EscapeBytes(Utf8Encode(s[0])) + PercentEncode(s[1..])
  }

  /** Decoding a multi-byte sequence inverts `Utf8Encode`. */
  lemma Utf8RoundTrip(c: char)
    requires c as int >= 0x80
    ensures Utf8Decode(Utf8Encode(c)) == Some(c)
  {
    if c as int < 0x800 {
      TwoByteRoundTrip(c);
    } else if c as int < 0x10000 {
      ThreeByteRoundTrip(c);
    } else {
      FourByteRoundTrip(c);
    }
  }

  lemma TwoByteRoundTrip(c: char)
    requires 0x80 <= c as int < 0x800
    ensures Utf8Decode(Utf8Encode(c)) == Some(c)
  {
    var v := c as int;
    var hi, lo := v / 64, v % 64;
    assert v == hi * 64 + lo;
    assert Utf8Encode(c) == [0xC0 + hi, 0x80 + lo];
  }

  lemma ThreeByteRoundTrip(c: char)
    requires 0x800 <= c as int < 0x10000
    ensures Utf8Decode(Utf8Encode(c)) == Some(c)
  {
    var v := c as int;
    var top, mid, lo := v / 4096, (v / 64) % 64, v % 64;
    assert v / 64 == top * 64 + mid;
    assert v == (v / 64) * 64 + lo;
    assert v == top * 4096 + mid * 64 + lo;
    assert Utf8Encode(c) == [0xE0 + top, 0x80 + mid, 0x80 + lo];
    assert top == 0 ==> mid >= 0x20;
    assert top == 13 ==> mid < 0x20;
  }

  lemma FourByteRoundTrip(c: char)
    requires 0x10000 <= c as int
    ensures Utf8Decode(Utf8Encode(c)) == Some(c)
  {
    var v := c as int;
    var top, high, mid, lo := v / 262144, (v / 4096) % 64, (v / 64) % 64, v % 64;
    assert v / 4096 == top * 64 + high;
    assert v / 64 == (v / 4096) * 64 + mid;
    assert v == (v / 64) * 64 + lo;
    assert v == top * 262144 + high * 4096 + mid * 64 + lo;
    assert Utf8Encode(c) == [0xF0 + top, 0x80 + high, 0x80 + mid, 0x80 + lo];
    assert top == 0 ==> high >= 0x10;
    assert top == 4 ==> high < 0x10;
  }

  /** The trailing escapes of an escaped byte sequence read back as its bytes. */
  lemma {:induction false} TrailingOfEscapes(bs: seq<Byte>, rest: string, n: nat)
    requires 1 <= n + 1 <= |bs|
    ensures Trailing(EscapeBytes(bs) + rest, n) == Some(bs[1..n + 1])
    decreases n
  {
    var s := EscapeBytes(bs) + rest;
    if n > 0 {
      TrailingOfEscapes(bs, rest, n - 1);
      EscapeAtOfEscapes(bs, rest, n);
      assert Trailing(s, n - 1) == Some(bs[1..n]);
      assert EscapeAt(s, 3 * n) == Some(bs[n]);
      assert Trailing(s, n) == Some(bs[1..n] + [bs[n]]);
      assert bs[1..n] + [bs[n]] == bs[1..n + 1];
    } else {
      assert Trailing(s, 0) == Some([]);
      assert bs[1..1] == [];
    }
  }

  /** The escape at position `3 * i` of an escaped byte sequence is byte `i`. */
  lemma {:induction false} EscapeAtOfEscapes(bs: seq<Byte>, rest: string, i: nat)
    requires i < |bs|
    ensures EscapeAt(EscapeBytes(bs) + rest, 3 * i) == Some(bs[i])
    decreases |bs|
  {
    var s := EscapeBytes(bs) + rest;
    var last := |bs| - 1;
    assert EscapeBytes(bs) == EscapeBytes(bs[..last]) + EscapeByte(bs[last]);
    if i == last {
      assert s[3 * i..3 * i + 3] == EscapeByte(bs[last]);
    } else {
      EscapeAtOfEscapes(bs[..last], EscapeByte(bs[last]) + rest, i);
      assert EscapeBytes(bs[..last]) + EscapeByte(bs[last]) + rest == s;
    }
  }

  /** The lead byte of an encoding announces the encoding's length. */
  lemma LeadAnnouncesLength(c: char)
    ensures SequenceLength(Utf8Encode(c)[0]) == |Utf8Encode(c)|
  {
  }

  /** The escapes of one character decode back to that character. */
  lemma DecodeEscapeOfChar(c: char, rest: string)
    ensures DecodeEscape(EscapeBytes(Utf8Encode(c)) + rest) == Some((c, 3 * |Utf8Encode(c)|))
  {
    var bs := Utf8Encode(c);
    var s := EscapeBytes(bs) + rest;
    EscapeAtOfEscapes(bs, rest, 0);
    assert EscapeAt(s, 0) == Some(bs[0]);
    if c as int >= 0x80 {
      var n := |bs|;
      LeadAnnouncesLength(c);
      TrailingOfEscapes(bs, rest, n - 1);
      assert bs[1..n] == bs[1..];
      assert Trailing(s, n - 1) == Some(bs[1..]);
      assert [bs[0]] + bs[1..] == bs;
      Utf8RoundTrip(c);
      assert Utf8Decode([bs[0]] + bs[1..]) == Some(c);
    }
  }

  /** `decodeURIComponent` inverts percent-encoding: every string survives the round trip. */
  lemma {:induction false} DecodeEncodeRoundTrip(s: string)
    ensures DecodeURIComponent(PercentEncode(s)) == Some(s)
    decreases |s|
  {
    if |s| > 0 {
      var head := EscapeBytes(Utf8Encode(s[0]));
      var e := PercentEncode(s);
      assert e == head + PercentEncode(s[1..]);
      EscapeAtOfEscapes(Utf8Encode(s[0]), PercentEncode(s[1..]), 0);
      DecodeEscapeOfChar(s[0], PercentEncode(s[1..]));
      assert e[0] == '%';
      assert DecodeEscape(e) == Some((s[0], |head|));
      assert e[|head|..] == PercentEncode(s[1..]);
      DecodeEncodeRoundTrip(s[1..]);
      assert [s[0]] + s[1..] == s;
    }
  }
}
