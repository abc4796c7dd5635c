/**
 * Ruby's `CGI.escape`, used to put a location search string into a query
 * string: letters, digits, `_`, `.` and `-` stay, a space becomes `+`, and
 * every other character becomes `%XX` for each byte of its UTF-8 encoding.
 */
module Cgi {

  /** The characters CGI.escape leaves as they are. */
  predicate Unreserved(c: char)
  {
    ('a' <= c <= 'z') || ('A' <= c <= 'Z') || ('0' <= c <= '9') || c == '_' || c == '.' || c == '-'
  }

  /** The characters that can appear in CGI.escape's output. */
  predicate QuerySafe(c: char) { Unreserved(c) || c == '+' || c == '%' }

  function HexDigit(n: int): (c: char)
    requires 0 <= n < 16
    ensures Unreserved(c)
  {
    "0123456789ABCDEF"[n]
  }

  predicate IsHex(c: char) { ('0' <= c <= '9') || ('A' <= c <= 'F') || ('a' <= c <= 'f') }

  function HexValue(c: char): int
  {
    if '0' <= c <= '9' then c as int - '0' as int
    else if 'A' <= c <= 'F' then c as int - 'A' as int + 10
    else c as int - 'a' as int + 10
  }

  lemma HexValueOfDigit(n: int)
    requires 0 <= n < 16
    ensures IsHex(HexDigit(n)) && HexValue(HexDigit(n)) == n
  {
  }

  /** The UTF-8 encoding of a character, as byte values. */
  function Utf8(c: char): (bs: seq<int>)
    ensures 1 <= |bs| <= 4
    ensures forall i :: 0 <= i < |bs| ==> 0 <= bs[i] < 256
    ensures (c as int) < 128 ==> bs == [c as int]
  {
    var cp := c as int;
    if cp < 0x80 then [cp]
    else if cp < 0x800 then [0xC0 + cp / 64, 0x80 + cp % 64]
    else if cp < 0x10000 then [0xE0 + cp / 4096, 0x80 + (cp / 64) % 64, 0x80 + cp % 64]
    else [0xF0 + cp / 262144, 0x80 + (cp / 4096) % 64, 0x80 + (cp / 64) % 64, 0x80 + cp % 64]
  }

  function PercentBytes(bs: seq<int>): (r: string)
    requires forall i :: 0 <= i < |bs| ==> 0 <= bs[i] < 256
    ensures |r| == 3 * |bs|
    ensures forall i :: 0 <= i < |r| ==> QuerySafe(r[i])
  {
    if bs == [] then []
    else ['%', HexDigit(bs[0] / 16), HexDigit(bs[0] % 16)] + PercentBytes(bs[1..])
  }

  function EscapeChar(c: char): string
  {
    if c == ' ' then "+"
    else if Unreserved(c) then [c]
    else PercentBytes(Utf8(c))
  }

  /** `CGI.escape(s)`. */
  function Escape(s: string): string
  {
    if s == [] then [] else EscapeChar(s[0]) + Escape(s[1..])
  }

  /** `CGI.unescape` on text whose `%XX` escapes stand for single ASCII bytes. */
  function Unescape(s: string): string
  {
    if s == [] then []
    else if s[0] == '+' then " " + Unescape(s[1..])
    else if s[0] == '%' && |s| >= 3 && IsHex(s[1]) && IsHex(s[2]) then
      [(HexValue(s[1]) * 16 + HexValue(s[2])) as char] + Unescape(s[3..])
    else [s[0]] + Unescape(s[1..])
  }

  /** Whatever the search string, the escaped text holds only query-safe characters. */
  lemma {:induction false} EscapeIsQuerySafe(s: string)
    ensures forall i :: 0 <= i < |Escape(s)| ==> QuerySafe(Escape(s)[i])
    decreases |s|
  {
    if s != [] {
      EscapeIsQuerySafe(s[1..]);
      var h, t := EscapeChar(s[0]), Escape(s[1..]);
      assert forall i :: 0 <= i < |h| ==> QuerySafe(h[i]);
      assert forall i :: 0 <= i < |h + t| ==> (h + t)[i] == (if i < |h| then h[i] else t[i - |h|]);
    }
  }

  /** A string of unreserved characters is passed through unchanged. */
  lemma {:induction false} EscapeKeepsUnreserved(s: string)
    requires forall i :: 0 <= i < |s| ==> Unreserved(s[i])
    ensures Escape(s) == s
    decreases |s|
  {
    if s != [] {
      EscapeKeepsUnreserved(s[1..]);
      assert [s[0]] + s[1..] == s;
    }
  }

  lemma UnescapeEscapedChar(c: char, rest: string)
    requires (c as int) < 128
    ensures Unescape(EscapeChar(c) + rest) == [c] + Unescape(rest)
  {
    var e := EscapeChar(c) + rest;
    if c == ' ' {
      assert e[1..] == rest;
    } else if Unreserved(c) {
      assert e[1..] == rest;
    } else {
      var b := c as int;
      HexValueOfDigit(b / 16);
      HexValueOfDigit(b % 16);
      assert EscapeChar(c) == ['%', HexDigit(b / 16), HexDigit(b % 16)];
      assert e[3..] == rest;
      assert (HexValue(e[1]) * 16 + HexValue(e[2])) as char == c;
    }
  }

  /** For an ASCII search string, CGI.unescape recovers exactly what CGI.escape encoded. */
  lemma {:induction false} UnescapeEscape(s: string)
    requires forall i :: 0 <= i < |s| ==> (s[i] as int) < 128
    ensures Unescape(Escape(s)) == s
    decreases |s|
  {
    if s != [] {
      UnescapeEscape(s[1..]);
      UnescapeEscapedChar(s[0], Escape(s[1..]));
      assert [s[0]] + s[1..] == s;
    }
  }
}
