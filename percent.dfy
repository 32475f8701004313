/** `urllib.parse.quote(s)` with its default `safe='/'`: the string is encoded as UTF-8
    and every byte outside the unreserved set (ASCII letters, digits, `_.-~`) and `/`
    is written as `%XX` with upper-case hexadecimal digits. */
module Percent {
  import opened Wrappers

  type Byte = b: int | 0 <= b < 256

  // ---- UTF-8 ----

  /** A Unicode scalar value: what a Dafny `char` can hold. */
  predicate IsScalar(n: int)
  {
    0 <= n < 0xD800 || 0xE000 <= n < 0x11_0000
  }

  predicate IsContinuation(b: Byte)
  {
    0x80 <= b < 0xC0
  }

  /** The UTF-8 encoding of one character (section 3 of RFC 3629). */
  function Utf8Char(c: char): (bs: seq<Byte>)
    ensures 1 <= |bs| <= 4
  {
    var n := c as int;
    if n < 0x80 then [n]
    else if n < 0x800 then [0xC0 + n / 64, 0x80 + n % 64]
    else if n < 0x1_0000 then
      var r := n % 4096;
      [0xE0 + n / 4096, 0x80 + r / 64, 0x80 + r % 64]
    else
      var r := n % 262144;
      var r2 := r % 4096;
      [0xF0 + n / 262144, 0x80 + r / 4096, 0x80 + r2 / 64, 0x80 + r2 % 64]
  }

  /** Python's `s.encode("utf-8")`. */
  function Utf8(s: string): seq<Byte>
  {
    if s == [] then [] else Utf8Char(s[0]) + Utf8(s[1..])
  }

  /** Reference UTF-8 decoder that undoes `Utf8`. It gives `None` on a bad lead byte, a
      missing continuation byte or a code point that is not a scalar value, but it
      accepts overlong forms such as `[0xC0, 0x80]`. */
  function Utf8Decode(bs: seq<Byte>): Option<string>
    decreases |bs|
  {
    if bs == [] then Some("")
    else
      var b0: int := bs[0];
      var len := if b0 < 0x80 then 1 else if 0xC0 <= b0 < 0xE0 then 2
                 else if 0xE0 <= b0 < 0xF0 then 3 else if 0xF0 <= b0 < 0xF8 then 4 else 0;
      if len == 0 || |bs| < len then None
      else if exists i :: 1 <= i < len && !IsContinuation(bs[i]) then None
      else
        var cp :=
          if len == 1 then b0
          else if len == 2 then (b0 - 0xC0) * 64 + (bs[1] as int - 0x80)
          else if len == 3 then (b0 - 0xE0) * 4096 + (bs[1] as int - 0x80) * 64 + (bs[2] as int - 0x80)
          else (b0 - 0xF0) * 262144 + (bs[1] as int - 0x80) * 4096 + (bs[2] as int - 0x80) * 64 + (bs[3] as int - 0x80);
        if !IsScalar(cp) then None
        else match Utf8Decode(bs[len..])
          case None => None
          case Some(rest) => Some([cp as char] + rest)
  }

  lemma Utf8CharDecodes(c: char, tail: seq<Byte>)
    ensures Utf8Decode(Utf8Char(c) + tail) ==
      match Utf8Decode(tail)
      case None => None
      case Some(rest) => Some([c] + rest)
  {
    var e := Utf8Char(c);
    var bs := e + tail;
    assert bs[..|e|] == e;
    assert bs[|e|..] == tail;
    var n := c as int;
    if n < 0x80 {
    } else if n < 0x800 {
      TwoBytes(c, bs);
    } else if n < 0x1_0000 {
      ThreeBytes(c, bs);
    } else {
      FourBytes(c, bs);
    }
  }

  lemma TwoBytes(c: char, bs: seq<Byte>)
    requires 0x80 <= c as int < 0x800 && |Utf8Char(c)| <= |bs| && bs[..|Utf8Char(c)|] == Utf8Char(c)
    ensures |Utf8Char(c)| == 2 && 0xC0 <= bs[0] < 0xE0 && IsContinuation(bs[1])
    ensures (bs[0] as int - 0xC0) * 64 + (bs[1] as int - 0x80) == c as int
  {
    var n := c as int;
    assert bs[0] == 0xC0 + n / 64 && bs[1] == 0x80 + n % 64;
  }

  lemma ThreeBytes(c: char, bs: seq<Byte>)
    requires 0x800 <= c as int < 0x1_0000 && |Utf8Char(c)| <= |bs| && bs[..|Utf8Char(c)|] == Utf8Char(c)
    ensures |Utf8Char(c)| == 3 && 0xE0 <= bs[0] < 0xF0 && IsContinuation(bs[1]) && IsContinuation(bs[2])
    ensures (bs[0] as int - 0xE0) * 4096 + (bs[1] as int - 0x80) * 64 + (bs[2] as int - 0x80) == c as int
  {
    var n := c as int;
    var r := n % 4096;
    assert bs[0] == 0xE0 + n / 4096 && bs[1] == 0x80 + r / 64 && bs[2] == 0x80 + r % 64;
  }

  lemma FourBytes(c: char, bs: seq<Byte>)
    requires 0x1_0000 <= c as int && |Utf8Char(c)| <= |bs| && bs[..|Utf8Char(c)|] == Utf8Char(c)
    ensures |Utf8Char(c)| == 4 && 0xF0 <= bs[0] < 0xF8
    ensures IsContinuation(bs[1]) && IsContinuation(bs[2]) && IsContinuation(bs[3])
    ensures (bs[0] as int - 0xF0) * 262144 + (bs[1] as int - 0x80) * 4096
      + (bs[2] as int - 0x80) * 64 + (bs[3] as int - 0x80) == c as int
  {
    var n := c as int;
    var r := n % 262144;
    var r2 := r % 4096;
    assert bs[0] == 0xF0 + n / 262144 && bs[1] == 0x80 + r / 4096;
    assert bs[2] == 0x80 + r2 / 64 && bs[3] == 0x80 + r2 % 64;
  }


  lemma {:induction false} Utf8RoundTrip(s: string)
    ensures Utf8Decode(Utf8(s)) == Some(s)
  {
    if s != [] {
      assert Utf8(s) == Utf8Char(s[0]) + Utf8(s[1..]);
      Utf8RoundTrip(s[1..]);
      Utf8CharDecodes(s[0], Utf8(s[1..]));
      assert [s[0]] + s[1..] == s;
    }
  }

  // ---- percent-encoding ----

  predicate IsAsciiAlnum(b: int)
  {
    ('A' as int <= b <= 'Z' as int) || ('a' as int <= b <= 'z' as int) || ('0' as int <= b <= '9' as int)
  }

  /** Bytes `quote` never escapes, plus the default `safe` character `/`. */
  predicate IsSafe(b: Byte)
  {
    IsAsciiAlnum(b) || b == '_' as int || b == '.' as int || b == '-' as int || b == '~' as int
    || b == '/' as int
  }

  predicate IsUpperHex(c: char)
  {
    '0' <= c <= '9' || 'A' <= c <= 'F'
  }

  /** Characters that can occur in the output of `quote`. */
  predicate IsQuotedChar(c: char)
  {
    (c as int < 256 && IsSafe(c as int)) || c == '%' || IsUpperHex(c)
  }

  function HexDigit(v: nat): (c: char)
    requires v < 16
    ensures IsUpperHex(c)
  {
    "0123456789ABCDEF"[v]
  }

  function HexValue(c: char): Option<nat>
  {
    if '0' <= c <= '9' then Some(c as int - '0' as int)
    else if 'A' <= c <= 'F' then Some(c as int - 'A' as int + 10)
    else if 'a' <= c <= 'f' then Some(c as int - 'a' as int + 10)
    else None
  }

  function QuoteByte(b: Byte): (r: string)
    ensures forall i :: 0 <= i < |r| ==> IsQuotedChar(r[i])
  {
    if IsSafe(b) then [b as char] else ['%', HexDigit(b / 16), HexDigit(b % 16)]
  }

  function QuoteBytes(bs: seq<Byte>): (r: string)
    ensures forall i :: 0 <= i < |r| ==> IsQuotedChar(r[i])
  {
    if bs == [] then "" else QuoteByte(bs[0]) + QuoteBytes(bs[1..])
  }

  /** `urllib.parse.quote(s)` with the default `safe='/'`. */
  function Quote(s: string): (r: string)
    ensures forall i :: 0 <= i < |r| ==> IsQuotedChar(r[i])
  {
    QuoteBytes(Utf8(s))
  }

  /** Reference percent-decoder: `None` on a `%` not followed by two hex digits or on
      a character that is not a single byte. */
  function UnquoteBytes(s: string): Option<seq<Byte>>
  {
    if s == [] then Some([])
    else if s[0] == '%' then
      if |s| < 3 || HexValue(s[1]).None? || HexValue(s[2]).None? then None
      else match UnquoteBytes(s[3..])
        case None => None
        case Some(rest) => Some([HexValue(s[1]).value * 16 + HexValue(s[2]).value] + rest)
    else if s[0] as int < 256 then
      match UnquoteBytes(s[1..])
      case None => None
      case Some(rest) => Some([s[0] as int] + rest)
    else None
  }

  /** Reference inverse of `Quote`. */
  function Unquote(s: string): Option<string>
  {
    match UnquoteBytes(s)
    case None => None
    case Some(bs) => Utf8Decode(bs)
  }

  lemma HexRoundTrip(v: nat)
    requires v < 16
    ensures HexValue(HexDigit(v)) == Some(v)
  {
  }

  lemma QuoteByteDecodes(b: Byte, tail: string)
    ensures UnquoteBytes(QuoteByte(b) + tail) ==
      match UnquoteBytes(tail)
      case None => None
      case Some(rest) => Some([b] + rest)
  {
    var s := QuoteByte(b) + tail;
    if IsSafe(b) {
      assert s[1..] == tail;
    } else {
      PercentDecodes(b, b / 16, b % 16, tail);
    }
  }

  lemma PercentDecodes(b: Byte, hi: nat, lo: nat, tail: string)
    requires hi < 16 && lo < 16 && b == hi * 16 + lo
    ensures UnquoteBytes(['%', HexDigit(hi), HexDigit(lo)] + tail) ==
      match UnquoteBytes(tail)
      case None => None
      case Some(rest) => Some([b] + rest)
  {
    var s := ['%', HexDigit(hi), HexDigit(lo)] + tail;
    HexRoundTrip(hi);
    HexRoundTrip(lo);
    assert s[1] == HexDigit(hi) && s[2] == HexDigit(lo);
    assert s[3..] == tail;
  }

  lemma {:induction false} QuoteBytesRoundTrip(bs: seq<Byte>)
    ensures UnquoteBytes(QuoteBytes(bs)) == Some(bs)
  {
    if bs != [] {
      QuoteBytesRoundTrip(bs[1..]);
      QuoteByteDecodes(bs[0], QuoteBytes(bs[1..]));
      assert [bs[0]] + bs[1..] == bs;
    }
  }

  /** Percent-decoding and then UTF-8-decoding the output of `quote` gives back its input. */
  lemma UnquoteQuote(s: string)
    ensures Unquote(Quote(s)) == Some(s)
  {
    QuoteBytesRoundTrip(Utf8(s));
    Utf8RoundTrip(s);
  }

  /** Distinct strings quote to distinct strings. */
  lemma QuoteInjective(a: string, b: string)
    requires Quote(a) == Quote(b)
    ensures a == b
  {
    UnquoteQuote(a);
    UnquoteQuote(b);
  }

  /** The output of `quote` holds no line feed and no space. */
  lemma QuoteIsOneToken(s: string)
    ensures '\n' !in Quote(s) && ' ' !in Quote(s)
  {
  }
}
