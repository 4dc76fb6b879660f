/** Percent coding of URL parts and base64 decoding, on byte strings (one character per byte). */
module Codecs {
  import opened Wrappers

  predicate IsBytes(s: string) {
    forall i :: 0 <= i < |s| ==> s[i] as int < 256
  }

  type Bytes = s: string | IsBytes(s)

  // ---------------------------------------------------------------- base64

  /** The decoding table: both alphabets of RFC 4648, and 0 for whatever is in neither. */
  function B64Index(c: char): (v: nat)
    ensures v < 64
  {
    var n := c as int;
    if 'A' <= c <= 'Z' then n - 65
    else if 'a' <= c <= 'z' then n - 71
    else if '0' <= c <= '9' then n + 4
    else if c == '+' || c == '-' || c == '.' then 62
    else if c == '/' || c == '_' || c == ',' then 63
    else 0
  }

  function Byte(n: nat): char {
    (n % 256) as char
  }

  function Triple(a: char, b: char, c: char, d: char): string {
    var n := B64Index(a) * 262144 + B64Index(b) * 4096 + B64Index(c) * 64 + B64Index(d);
    [Byte(n / 65536), Byte(n / 256), Byte(n)]
  }

  /** A last group that is short or ends in '='; a character past the end reads as the terminating zero. */
  function LastGroup(s: string): string
    requires 0 < |s| <= 4
  {
    var n := B64Index(s[0]) * 262144 + (if |s| > 1 then B64Index(s[1]) * 4096 else 0);
    [Byte(n / 65536)] +
    if |s| > 2 && s[2] != '=' then [Byte((n + B64Index(s[2]) * 64) / 256)] else []
  }

  predicate EndsHere(s: string) {
    0 < |s| <= 4 && (|s| < 4 || s[3] == '=')
  }

  function Base64Decoded(s: string): string {
    if s == "" then ""
    else if EndsHere(s) then LastGroup(s)
    else if |s| < 4 then ""
    else Triple(s[0], s[1], s[2], s[3]) + Base64Decoded(s[4..])
  }

  /** Number of characters in whole groups, when `pad` tells whether the last group is short or padded. */
  lemma FullGroups(len: nat, pad: nat)
    requires pad == 0 ==> len % 4 == 0
    requires pad == 1 ==> len > 0
    requires pad <= 1
    ensures var full := ((len + 3) / 4 - pad) * 4;
            && 0 <= full <= len && full % 4 == 0
            && (pad == 0 ==> full == len) && (pad == 1 ==> full < len <= full + 4)
            && (pad == 1 && len % 4 == 0 ==> len == full + 4)
  {
  }

  lemma GroupStep(str: string, s: string, i: nat, whole: string)
    requires i + 4 <= |s| && !EndsHere(s[i..]) && str + Base64Decoded(s[i..]) == whole
    ensures str + Triple(s[i], s[i + 1], s[i + 2], s[i + 3]) + Base64Decoded(s[i + 4..]) == whole
  {
    assert s[i..][4..] == s[i + 4..];
  }

  lemma GroupAhead(input: string, full: nat, i: nat)
    requires full % 4 == 0 && i % 4 == 0 && i < full <= |input|
    requires full < |input| || input[|input| - 1] != '='
    ensures i + 4 <= full && (i + 4) % 4 == 0 && !EndsHere(input[i..])
  {
  }

  method DecodeGroups(input: string, full: nat) returns (str: string)
    requires full % 4 == 0 && full <= |input|
    requires full < |input| || input == "" || input[|input| - 1] != '='
    ensures str + Base64Decoded(input[full..]) == Base64Decoded(input)
  {
    ghost var whole := Base64Decoded(input);
    str := "";
    var i := 0;
    assert str + Base64Decoded(input[0..]) == whole by {
      assert input[0..] == input;
    }
    while i < full
      invariant i % 4 == 0 && i <= full
      invariant str + Base64Decoded(input[i..]) == whole
    {
      GroupAhead(input, full, i);
      GroupStep(str, input, i, whole);
      str := str + Triple(input[i], input[i + 1], input[i + 2], input[i + 3]);
      i := i + 4;
    }
  }

  method Base64Decode(input: string) returns (str: string)
    ensures str == Base64Decoded(input)
  {
    var len := |input|;
    var pad := if len > 0 && (len % 4 != 0 || input[len - 1] == '=') then 1 else 0;
    FullGroups(len, pad);
    var full := ((len + 3) / 4 - pad) * 4;
    str := DecodeGroups(input, full);
    if pad != 0 {
      LastEnds(input, full);
      var tail := DecodeLast(input, full);
      str := str + tail;
    }
  }

  lemma LastEnds(s: string, full: nat)
    requires full % 4 == 0 && full < |s| <= full + 4 && (|s| % 4 != 0 || s[|s| - 1] == '=')
    ensures Base64Decoded(s[full..]) == LastGroup(s[full..])
  {
    assert EndsHere(s[full..]);
  }

  method DecodeLast(p: string, L: nat) returns (str: string)
    requires L < |p| <= L + 4
    ensures str == LastGroup(p[L..])
  {
    var n := B64Index(p[L]) * 262144 + (if |p| > L + 1 then B64Index(p[L + 1]) * 4096 else 0);
    str := [Byte(n / 65536)];
    if |p| > L + 2 && p[L + 2] != '=' {
      n := n + B64Index(p[L + 2]) * 64;
      str := str + [Byte(n / 256)];
    }
  }

  /** The encoding alphabets of sections 4 and 5 of RFC 4648. */
  function B64Char(v: nat, urlSafe: bool): char
    requires v < 64
  {
    if v < 26 then (v + 65) as char
    else if v < 52 then (v + 71) as char
    else if v < 62 then (v - 4) as char
    else if v == 62 then (if urlSafe then '-' else '+')
    else (if urlSafe then '_' else '/')
  }

  function Base64Encoded(b: Bytes, urlSafe: bool, padded: bool): string
    decreases |b|
  {
    if |b| == 0 then ""
    else
      var x := b[0] as int;
      if |b| == 1 then
        [B64Char(x / 4, urlSafe), B64Char(x % 4 * 16, urlSafe)] + (if padded then "==" else "")
      else
        var y := b[1] as int;
        if |b| == 2 then
          [B64Char(x / 4, urlSafe), B64Char(x % 4 * 16 + y / 16, urlSafe), B64Char(y % 16 * 4, urlSafe)]
          + (if padded then "=" else "")
        else
          var z := b[2] as int;
          [B64Char(x / 4, urlSafe), B64Char(x % 4 * 16 + y / 16, urlSafe), B64Char(y % 16 * 4 + z / 64, urlSafe),
           B64Char(z % 64, urlSafe)] + Base64Encoded(b[3..], urlSafe, padded)
  }

  lemma IndexOfChar(v: nat, urlSafe: bool)
    requires v < 64
    ensures B64Index(B64Char(v, urlSafe)) == v && B64Char(v, urlSafe) != '='
  {
  }

  /** The four indices of three bytes put the bytes back together. */
  lemma ThreeBytes(x: nat, y: nat, z: nat)
    requires x < 256 && y < 256 && z < 256
    ensures x / 4 * 262144 + (x % 4 * 16 + y / 16) * 4096 + (y % 16 * 4 + z / 64) * 64 + z % 64 == x * 65536 + y * 256 + z
  {
  }

  lemma SplitBytes(x: nat, y: nat, z: nat)
    requires x < 256 && y < 256 && z < 256
    ensures var n := x * 65536 + y * 256 + z; n / 65536 == x && n / 256 % 256 == y && n % 256 == z
  {
  }

  /** Three bytes from the number their four indices make. */
  lemma TripleOfIndices(a: char, b: char, c: char, d: char, x: nat, y: nat, z: nat)
    requires x < 256 && y < 256 && z < 256
    requires B64Index(a) == x / 4 && B64Index(b) == x % 4 * 16 + y / 16 && B64Index(c) == y % 16 * 4 + z / 64
    requires B64Index(d) == z % 64
    ensures Triple(a, b, c, d) == [x as char, y as char, z as char]
  {
    ThreeBytes(x, y, z);
    SplitBytes(x, y, z);
  }

  lemma TripleOfBytes(x: nat, y: nat, z: nat, urlSafe: bool)
    requires x < 256 && y < 256 && z < 256
    ensures Triple(B64Char(x / 4, urlSafe), B64Char(x % 4 * 16 + y / 16, urlSafe),
                   B64Char(y % 16 * 4 + z / 64, urlSafe), B64Char(z % 64, urlSafe))
            == [x as char, y as char, z as char]
  {
    var a, b, c, d := x / 4, x % 4 * 16 + y / 16, y % 16 * 4 + z / 64, z % 64;
    IndexOfChar(a, urlSafe);
    IndexOfChar(b, urlSafe);
    IndexOfChar(c, urlSafe);
    IndexOfChar(d, urlSafe);
    TripleOfIndices(B64Char(a, urlSafe), B64Char(b, urlSafe), B64Char(c, urlSafe), B64Char(d, urlSafe), x, y, z);
  }

  lemma OneByteLeft(b: Bytes, urlSafe: bool, padded: bool)
    requires |b| == 1
    ensures Base64Decoded(Base64Encoded(b, urlSafe, padded)) == b
  {
    var x := b[0] as int;
    IndexOfChar(x / 4, urlSafe);
    IndexOfChar(x % 4 * 16, urlSafe);
    ThreeBytes(x, 0, 0);
    SplitBytes(x, 0, 0);
    LastOne(B64Char(x / 4, urlSafe), B64Char(x % 4 * 16, urlSafe), padded, x);
  }

  lemma LastOne(c: char, d: char, padded: bool, x: nat)
    requires (B64Index(c) * 262144 + B64Index(d) * 4096) / 65536 == x < 256
    ensures Base64Decoded([c, d] + (if padded then "==" else "")) == [x as char]
  {
    var e := [c, d] + (if padded then "==" else "");
    assert EndsHere(e) && (padded ==> e[2] == '=');
    assert LastGroup(e) == [Byte(x)] + [];
  }

  lemma TwoBytesLeft(b: Bytes, urlSafe: bool, padded: bool)
    requires |b| == 2
    ensures Base64Decoded(Base64Encoded(b, urlSafe, padded)) == b
  {
    var x, y := b[0] as int, b[1] as int;
    IndexOfChar(x / 4, urlSafe);
    IndexOfChar(x % 4 * 16 + y / 16, urlSafe);
    IndexOfChar(y % 16 * 4, urlSafe);
    TwoBytes(x, y);
    LastTwo(B64Char(x / 4, urlSafe), B64Char(x % 4 * 16 + y / 16, urlSafe), B64Char(y % 16 * 4, urlSafe), padded, x, y);
  }

  lemma TwoBytes(x: nat, y: nat)
    requires x < 256 && y < 256
    ensures var n := x / 4 * 262144 + (x % 4 * 16 + y / 16) * 4096;
            n / 65536 == x && (n + y % 16 * 4 * 64) / 256 % 256 == y
  {
    var n := x / 4 * 262144 + (x % 4 * 16 + y / 16) * 4096;
    assert n == x * 65536 + y / 16 * 4096;
    assert n + y % 16 * 256 == x * 65536 + y * 256;
  }

  lemma LastTwo(c: char, d: char, e: char, padded: bool, x: nat, y: nat)
    requires x < 256 && y < 256 && e != '='
    requires var n := B64Index(c) * 262144 + B64Index(d) * 4096;
             n / 65536 == x && (n + B64Index(e) * 64) / 256 % 256 == y
    ensures Base64Decoded([c, d, e] + (if padded then "=" else "")) == [x as char, y as char]
  {
    var s := [c, d, e] + (if padded then "=" else "");
    assert EndsHere(s) && s[0] == c && s[1] == d && s[2] == e;
    ThirdIndex(s, x, y);
  }

  lemma ThirdIndex(s: string, x: nat, y: nat)
    requires 3 <= |s| <= 4 && s[2] != '=' && x < 256 && y < 256
    requires var n := B64Index(s[0]) * 262144 + B64Index(s[1]) * 4096;
             n / 65536 == x && (n + B64Index(s[2]) * 64) / 256 % 256 == y
    ensures LastGroup(s) == [x as char, y as char]
  {
    var n := B64Index(s[0]) * 262144 + B64Index(s[1]) * 4096;
    assert Byte(n / 65536) == x as char && Byte((n + B64Index(s[2]) * 64) / 256) == y as char;
  }

  /** Decoding inverts both encodings, padded or not, for every byte sequence. */
  lemma {:induction false} Base64RoundTrip(b: Bytes, urlSafe: bool, padded: bool)
    ensures Base64Decoded(Base64Encoded(b, urlSafe, padded)) == b
    decreases |b|
  {
    if |b| == 1 {
      OneByteLeft(b, urlSafe, padded);
    } else if |b| == 2 {
      TwoBytesLeft(b, urlSafe, padded);
    } else if |b| > 2 {
      TripleOfBytes(b[0] as int, b[1] as int, b[2] as int, urlSafe);
      IndexOfChar(b[2] as int % 64, urlSafe);
      var rest: Bytes := b[3..];
      Base64RoundTrip(rest, urlSafe, padded);
      DecodeGroup(Base64Encoded(b, urlSafe, padded), Base64Encoded(rest, urlSafe, padded));
      assert b == [b[0], b[1], b[2]] + rest;
    }
  }

  lemma DecodeGroup(e: string, rest: string)
    requires |e| == 4 + |rest| && e[4..] == rest && e[3] != '='
    ensures Base64Decoded(e) == Triple(e[0], e[1], e[2], e[3]) + Base64Decoded(rest)
  {
  }

  // ---------------------------------------------------------------- percent encoding

  /** The unreserved characters of section 2.3 of RFC 3986. */
  predicate Unreserved(c: char) {
    '0' <= c <= '9' || 'A' <= c <= 'Z' || 'a' <= c <= 'z' || c == '~' || c == '-' || c == '_' || c == '.'
  }

  function HexDigit(n: nat): char
    requires n < 16
  {
    if n < 10 then (n + 48) as char else (n + 55) as char
  }

  function CharToHex(c: char): string {
    var n := c as int % 256;
    [HexDigit(n / 16), HexDigit(n % 16)]
  }

  function EncodedChar(c: char): string {
    if Unreserved(c) then [c] else "%" + CharToHex(c)
  }

  function UrlEncoded(s: string): string {
    if s == "" then "" else EncodedChar(s[0]) + UrlEncoded(s[1..])
  }

  lemma EncodeStep(escaped: string, url: string, i: nat, whole: string)
    requires i < |url| && escaped + UrlEncoded(url[i..]) == whole
    ensures escaped + EncodedChar(url[i]) + UrlEncoded(url[i + 1..]) == whole
  {
    assert url[i..][1..] == url[i + 1..] && url[i..][0] == url[i];
  }

  method UrlEncode(url: string) returns (escaped: string)
    ensures escaped == UrlEncoded(url)
  {
    ghost var whole := UrlEncoded(url);
    escaped := "";
    assert url[0..] == url;
    for i := 0 to |url|
      invariant escaped + UrlEncoded(url[i..]) == whole
    {
      EncodeStep(escaped, url, i, whole);
      var ch := EncodeOne(url[i]);
      escaped := escaped + ch;
    }
    assert escaped + "" == escaped;
  }

  /** The body of that loop: the character, or a percent sign and two hexadecimal digits. */
  method EncodeOne(ch: char) returns (text: string)
    ensures text == EncodedChar(ch)
  {
    if Unreserved(ch) {
      text := [ch];
    } else {
      text := "%";
      text := text + CharToHex(ch);
    }
  }

  // ---------------------------------------------------------------- percent decoding

  function HexValue(c: char): int {
    if '0' <= c <= '9' then c as int - 48
    else if 'A' <= c <= 'F' then c as int - 55
    else if 'a' <= c <= 'f' then c as int - 87
    else -1
  }

  predicate IsSpace(c: char) {
    c == ' ' || 9 <= c as int <= 13
  }

  /**
   strtol in base 16 on two characters and a terminating zero, accepted when it stops at a zero: leading
   white space, a sign and a zero byte are let through.
   */
  function HexPair(a: char, b: char): Option<int> {
    if a as int == 0 then Some(0)
    else if HexValue(a) >= 0 then
      if b as int == 0 then Some(HexValue(a))
      else if HexValue(b) >= 0 then Some(16 * HexValue(a) + HexValue(b))
      else None
    else if HexValue(b) < 0 then None
    else if IsSpace(a) || a == '+' then Some(HexValue(b))
    else if a == '-' then Some(-HexValue(b))
    else None
  }

  /** Failed conversions are passed on as they are. */
  function PercentDecoded(s: string): string {
    if s == "" then ""
    else if s[0] != '%' then [s[0]] + PercentDecoded(s[1..])
    else if |s| < 3 then s
    else
      match HexPair(s[1], s[2])
      case None => "%" + PercentDecoded(s[1..])
      case Some(v) => [(v % 256) as char] + PercentDecoded(s[3..])
  }

  /** Position of the first c at or after `start`, or the length when there is none. */
  function Find(s: string, c: char, start: nat): (i: nat)
    requires start <= |s|
    ensures start <= i <= |s|
    ensures i < |s| ==> s[i] == c
    ensures forall k :: start <= k < i ==> s[k] != c
    decreases |s| - start
  {
    if start == |s| || s[start] == c then start else Find(s, c, start + 1)
  }

  const DATA: string := "data:"

  /** Where decoding of a data URL starts: after the comma, or after "data:" when there is none. */
  function DataStart(url: string): (pos: nat)
    requires DATA <= url
    ensures pos <= |url|
  {
    var comma := Find(url, ',', 0);
    if comma == |url| then 5 else comma + 1
  }

  function UrlDecoded(url: string): Result<string> {
    if !(DATA <= url) then Success(PercentDecoded(url))
    else
      var pos := DataStart(url);
      if pos >= 11 && url[pos - 7..pos - 1] == "base64" then
        if url[pos - 8..pos - 1] != ";base64" then Thrown
        else Success("data:," + Base64Decoded(url[pos..]))
      else Success("data:," + PercentDecoded(url[pos..]))
  }

  lemma {:induction false} DecodeSkips(s: string, n: nat)
    requires n <= |s| && forall k :: 0 <= k < n ==> s[k] != '%'
    ensures PercentDecoded(s) == s[..n] + PercentDecoded(s[n..])
  {
    if n > 0 {
      DecodeSkips(s[1..], n - 1);
      assert s[1..][n - 1..] == s[n..] && s[..n] == [s[0]] + s[1..][..n - 1];
    } else {
      assert s[0..] == s;
    }
  }

  /** The loop over the percent signs of the url from a position on. */
  method PercentDecode(url: string, start: nat) returns (result: string)
    requires start <= |url|
    ensures result == PercentDecoded(url[start..])
  {
    ghost var whole := PercentDecoded(url[start..]);
    var pos := start;
    result := "";
    assert "" + whole == whole;
    var next := Find(url, '%', pos);
    while next != |url|
      invariant pos <= |url| && next == Find(url, '%', pos)
      invariant result + PercentDecoded(url[pos..]) == whole
      decreases |url| - pos
    {
      Append(result, url, pos, next, whole);
      result := result + url[pos..next];
      pos := next;
      var text, after := DecodeAt(url, pos);
      Join(result, text, PercentDecoded(url[after..]));
      result := result + text;
      pos := after;
      next := Find(url, '%', pos);
    }
    Append(result, url, pos, |url|, whole);
    result := result + url[pos..];
  }

  lemma Join(a: string, b: string, c: string)
    ensures a + b + c == a + (b + c)
  {
  }

  lemma Append(result: string, url: string, pos: nat, next: nat, whole: string)
    requires pos <= next <= |url| && forall k :: pos <= k < next ==> url[k] != '%'
    requires result + PercentDecoded(url[pos..]) == whole
    ensures result + url[pos..next] + PercentDecoded(url[next..]) == whole
    ensures next == |url| ==> result + url[pos..] == whole
  {
    SkipTo(url, pos, next);
    Join(result, url[pos..next], PercentDecoded(url[next..]));
  }

  lemma SkipTo(url: string, pos: nat, next: nat)
    requires pos <= next <= |url| && forall k :: pos <= k < next ==> url[k] != '%'
    ensures PercentDecoded(url[pos..]) == url[pos..next] + PercentDecoded(url[next..])
    ensures PercentDecoded(url[|url|..]) == "" && url[pos..|url|] + "" == url[pos..]
  {
    DecodeSkips(url[pos..], next - pos);
    assert url[pos..][..next - pos] == url[pos..next] && url[pos..][next - pos..] == url[next..];
  }

  /** The body of that loop: the text for one percent sign, and where to go on. */
  method DecodeAt(url: string, next: nat) returns (text: string, pos: nat)
    requires next < |url| && url[next] == '%'
    ensures next < pos <= |url|
    ensures text + PercentDecoded(url[pos..]) == PercentDecoded(url[next..])
  {
    if |url| - next < 3 {
      text, pos := url[next..], |url|;
    } else {
      var res := HexPair(url[next + 1], url[next + 2]);
      if res.None? {
        assert url[next..][1..] == url[next + 1..];
        text, pos := "%", next + 1;
      } else {
        assert url[next..][3..] == url[next + 3..];
        text, pos := [(res.value % 256) as char], next + 3;
      }
    }
  }

  method UrlDecode(url: string) returns (r: Result<string>)
    ensures r == UrlDecoded(url)
  {
    var pos, result := 0, "";
    if DATA <= url {
      var comma := Find(url, ',', 0);
      pos := if comma == |url| then 5 else comma + 1;
      result := "data:,";
      if pos >= 11 {
        var is64 := url[pos - 7..pos - 1];
        if is64 == "base64" {
          if url[pos - 8..pos - 1] != ";base64" {
            return Thrown;
          }
          var decoded := Base64Decode(url[pos..]);
          return Success(result + decoded);
        }
      }
    }
    assert url[0..] == url;
    var decoded := PercentDecode(url, pos);
    assert "" + decoded == decoded;
    return Success(result + decoded);
  }

  // ---------------------------------------------------------------- decoding undoes encoding

  lemma {:induction false} EncodedChars(s: string)
    ensures forall i :: 0 <= i < |UrlEncoded(s)| ==> Unreserved(UrlEncoded(s)[i]) || UrlEncoded(s)[i] == '%'
  {
    if s != "" {
      EncodedChars(s[1..]);
    }
  }

  lemma HexDigits(n: nat)
    requires n < 256
    ensures HexPair(HexDigit(n / 16), HexDigit(n % 16)) == Some(n)
  {
    assert HexValue(HexDigit(n / 16)) == n / 16 && HexValue(HexDigit(n % 16)) == n % 16;
  }

  lemma DecodeHex(a: char, b: char, v: nat, rest: string)
    requires HexPair(a, b) == Some(v) && v < 256
    ensures PercentDecoded(['%', a, b] + rest) == [v as char] + PercentDecoded(rest)
  {
    assert (['%', a, b] + rest)[3..] == rest;
  }

  lemma DecodeOne(c: char, rest: string)
    requires c as int < 256
    ensures PercentDecoded(EncodedChar(c) + rest) == [c] + PercentDecoded(rest)
  {
    var n := c as int;
    if Unreserved(c) {
      assert ([c] + rest)[1..] == rest;
    } else {
      HexDigits(n);
      DecodeHex(HexDigit(n / 16), HexDigit(n % 16), n, rest);
      assert EncodedChar(c) == ['%', HexDigit(n / 16), HexDigit(n % 16)];
    }
  }

  lemma {:induction false} PercentRoundTrip(s: Bytes)
    ensures PercentDecoded(UrlEncoded(s)) == s
    decreases |s|
  {
    if s != "" {
      DecodeOne(s[0], UrlEncoded(s[1..]));
      PercentRoundTrip(s[1..]);
      assert s == [s[0]] + s[1..];
    }
  }

  /** A data URL contains a colon. */
  lemma NotData(s: string)
    requires forall i :: 0 <= i < |s| ==> s[i] != ':'
    ensures !(DATA <= s)
  {
    assert DATA[4] == ':';
  }

  /** Decoding gives back every byte string that was encoded, section 2.1 of RFC 3986. */
  lemma UrlRoundTrip(s: Bytes)
    ensures UrlDecoded(UrlEncoded(s)) == Success(s)
  {
    PercentRoundTrip(s);
    EncodedChars(s);
    NotData(UrlEncoded(s));
  }

  /** Text made of unreserved characters decodes to itself. */
  lemma UnreservedDecodes(s: string)
    requires forall i :: 0 <= i < |s| ==> Unreserved(s[i])
    ensures UrlDecoded(s) == Success(s)
  {
    DecodeSkips(s, |s|);
    assert s[|s|..] == "" && s[..|s|] == s;
    assert PercentDecoded(s) == s + "" == s;
    NotData(s);
  }
}
