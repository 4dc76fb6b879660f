/**
 The codecs against what they are known by: the alphabets of base64, the unreserved characters, strtol of the C
 library, and data URLs; and the character sets of the grammars.
 */
module UrlText {
  import opened Wrappers
  import opened Text
  import opened Codecs

  // ---------------------------------------------------------------- alphabets

  /** n characters in a row, from a first one. */
  function Row(first: char, n: nat): (s: string)
    requires first as int + n < 0xD800
    ensures |s| == n && forall k :: 0 <= k < n ==> s[k] as int == first as int + k
  {
    seq(n, k requires 0 <= k < n => (first as int + k) as char)
  }

  /** The 62 characters all alphabets begin with. */
  function LettersAndDigits(): (s: string)
    ensures |s| == 62
  {
    Row('A', 26) + Row('a', 26) + Row('0', 10)
  }

  /** The alphabets of sections 4 and 5 of RFC 4648, and a third one that ends in a dot and a comma. */
  function Standard(): string { LettersAndDigits() + "+/" }
  function UrlSafe(): string { LettersAndDigits() + "-_" }
  function Dotted(): string { LettersAndDigits() + ".," }

  lemma InRow(c: char, first: char, n: nat)
    requires first as int + n < 0xD800
    ensures c in Row(first, n) <==> first as int <= c as int < first as int + n
  {
    if first as int <= c as int < first as int + n {
      assert Row(first, n)[c as int - first as int] == c;
    }
  }

  lemma LetterOrDigit(c: char)
    ensures c in LettersAndDigits() <==> 'A' <= c <= 'Z' || 'a' <= c <= 'z' || '0' <= c <= '9'
  {
    InRow(c, 'A', 26);
    InRow(c, 'a', 26);
    InRow(c, '0', 10);
  }

  /** All three alphabets are decoded, and whatever is in none of them counts as nothing. */
  lemma IndexIsAlphabet(v: nat, c: char)
    requires v < 64
    ensures B64Index(Standard()[v]) == B64Index(UrlSafe()[v]) == B64Index(Dotted()[v]) == v
    ensures c !in Standard() && c !in UrlSafe() && c !in Dotted() ==> B64Index(c) == 0
  {
    LetterOrDigit(c);
    assert Standard()[62] == '+' && Standard()[63] == '/' && UrlSafe()[62] == '-' && UrlSafe()[63] == '_';
    assert Dotted()[62] == '.' && Dotted()[63] == ',';
  }

  // ---------------------------------------------------------------- the encoder

  /** The unreserved characters of section 2.3 of RFC 3986. */
  function UnreservedCharacters(): string { LettersAndDigits() + "-._~" }

  function HexDigits(): string { Row('0', 10) + Row('A', 6) }

  lemma EncodedByte(c: char)
    requires c as int < 256
    ensures EncodedChar(c) == if c in UnreservedCharacters() then [c]
                              else ['%', HexDigits()[c as int / 16], HexDigits()[c as int % 16]]
  {
    LetterOrDigit(c);
  }

  /** Unreserved characters are kept, and every other byte becomes a percent sign and two capital digits. */
  lemma {:induction false} EncodedByteByByte(s: string, c: char)
    requires c as int < 256
    ensures UrlEncoded(s + [c])
            == UrlEncoded(s) + if c in UnreservedCharacters() then [c]
                               else ['%', HexDigits()[c as int / 16], HexDigits()[c as int % 16]]
  {
    if s == "" {
      EncodedByte(c);
      assert [c][1..] == "" && UrlEncoded([c]) == EncodedChar(c) + "" == EncodedChar(c);
    } else {
      EncodedByteByByte(s[1..], c);
      assert (s + [c])[1..] == s[1..] + [c] && (s + [c])[0] == s[0];
      Join(EncodedChar(s[0]), UrlEncoded(s[1..]), if c in UnreservedCharacters() then [c]
           else ['%', HexDigits()[c as int / 16], HexDigits()[c as int % 16]]);
    }
  }

  // ---------------------------------------------------------------- strtol

  predicate IsHexDigit(c: char) {
    c in Row('0', 10) || c in Row('a', 6) || c in Row('A', 6)
  }

  function DigitOf(c: char): nat
    requires IsHexDigit(c)
  {
    if c in Row('0', 10) then c as int - '0' as int
    else if c in Row('a', 6) then 10 + (c as int - 'a' as int)
    else
      InRow(c, 'A', 6);
      10 + (c as int - 'A' as int)
  }

  /** The white space of the C library. */
  predicate IsWhite(c: char) {
    c as int in {9, 10, 11, 12, 13, 32}
  }

  function WhiteLength(s: string): (n: nat)
    ensures n <= |s|
  {
    if s == "" || !IsWhite(s[0]) then 0 else 1 + WhiteLength(s[1..])
  }

  function DigitsLength(s: string): (n: nat)
    ensures n <= |s| && forall k :: 0 <= k < n ==> IsHexDigit(s[k])
  {
    if s == "" || !IsHexDigit(s[0]) then 0 else 1 + DigitsLength(s[1..])
  }

  function HexNumber(s: string): nat
    requires forall k :: 0 <= k < |s| ==> IsHexDigit(s[k])
  {
    if s == "" then 0 else 16 * HexNumber(s[..|s| - 1]) + DigitOf(s[|s| - 1])
  }

  function SignLength(s: string): (n: nat)
    ensures n <= |s|
  {
    if s != "" && (s[0] == '+' || s[0] == '-') then 1 else 0
  }

  /**
   strtol in base 16, on a text too short for the prefix "0x" and a digit: the value, and where it stops. Without any
   digit it stops at the start.
   */
  function Strtol(s: string): (r: (int, nat))
    requires |s| <= 2
    ensures r.1 <= |s|
  {
    var a := s[WhiteLength(s)..];
    var b := a[SignLength(a)..];
    var n := DigitsLength(b);
    var v: int := HexNumber(b[..n]);
    if n == 0 then (0, 0)
    else (if a != "" && a[0] == '-' then -v else v, WhiteLength(s) + SignLength(a) + n)
  }

  /** Two characters convert when strtol stops at the end, or at a zero byte. */
  function Converted(a: char, b: char): Option<int> {
    var (value, end) := Strtol([a, b]);
    if end == 2 || [a, b][end] as int == 0 then Some(value) else None
  }

  lemma DigitIsHexValue(c: char)
    ensures IsHexDigit(c) <==> HexValue(c) >= 0
    ensures IsHexDigit(c) ==> DigitOf(c) == HexValue(c)
  {
    InRow(c, '0', 10);
    InRow(c, 'a', 6);
    InRow(c, 'A', 6);
  }

  lemma Unfold(s: string)
    requires |s| <= 2
    ensures WhiteLength(s) == if s == "" || !IsWhite(s[0]) then 0 else if |s| == 1 || !IsWhite(s[1]) then 1 else 2
    ensures DigitsLength(s)
            == if s == "" || !IsHexDigit(s[0]) then 0 else if |s| == 1 || !IsHexDigit(s[1]) then 1 else 2
  {
    if |s| == 2 {
      assert s[1..] == [s[1]] && [s[1]][1..] == "";
    }
  }

  lemma NumberOfTwo(a: char, b: char)
    requires IsHexDigit(a) && IsHexDigit(b)
    ensures HexNumber([a]) == DigitOf(a) && HexNumber([a, b]) == 16 * DigitOf(a) + DigitOf(b)
  {
    assert [a][..0] == "" && [a, b][..1] == [a];
  }

  lemma TwoDigits(a: char, b: char)
    requires IsHexDigit(a)
    ensures HexPair(a, b) == Converted(a, b)
  {
    var s := [a, b];
    Unfold(s);
    DigitIsHexValue(a);
    DigitIsHexValue(b);
    assert WhiteLength(s) == 0 && s[0..] == s && SignLength(s) == 0;
    if IsHexDigit(b) {
      NumberOfTwo(a, b);
      assert s[..2] == s;
    } else {
      NumberOfTwo(a, a);
      assert s[..1] == [a];
    }
  }

  lemma OneDigit(a: char, b: char)
    requires IsHexDigit(b) && (IsWhite(a) || a == '+' || a == '-')
    ensures HexPair(a, b) == Converted(a, b)
  {
    var s := [a, b];
    Unfold(s);
    Unfold([b]);
    DigitIsHexValue(a);
    DigitIsHexValue(b);
    NumberOfTwo(b, b);
    assert s[0..] == s && s[1..] == [b] && [b][0..] == [b] && [b][..1] == [b];
    if IsWhite(a) {
      assert WhiteLength(s) == 1 && SignLength([b]) == 0;
      assert Strtol(s) == (HexNumber([b]), 2);
    } else {
      assert WhiteLength(s) == 0 && SignLength(s) == 1;
    }
  }

  lemma NoDigits(a: char, b: char)
    requires !IsHexDigit(a) && (!IsHexDigit(b) || !(IsWhite(a) || a == '+' || a == '-'))
    ensures Strtol([a, b]) == (0, 0)
  {
    var s := [a, b];
    Unfold(s);
    Unfold([b]);
    Unfold("");
    assert s[0..] == s && s[1..] == [b] && s[2..] == "" && [b][0..] == [b] && [b][1..] == "" && ""[0..] == "";
    DigitIsHexValue(b);
  }

  /** The decoder converts two characters as strtol does. */
  lemma PairIsStrtol(a: char, b: char)
    ensures HexPair(a, b) == Converted(a, b)
  {
    DigitIsHexValue(a);
    DigitIsHexValue(b);
    if IsHexDigit(a) {
      TwoDigits(a, b);
    } else if IsHexDigit(b) && (IsWhite(a) || a == '+' || a == '-') {
      OneDigit(a, b);
    } else {
      NoDigits(a, b);
    }
  }

  // ---------------------------------------------------------------- any text, percent sign by percent sign

  /**
   A text without a percent sign, or with fewer than two characters after the first one, is kept. Otherwise the two
   characters after the first one become a byte when they convert, and else that percent sign is kept.
   */
  lemma DecodedByPercents(before: string, after: string)
    requires '%' !in before
    ensures PercentDecoded(before) == before
    ensures |after| < 2 ==> PercentDecoded(before + "%" + after) == before + "%" + after
    ensures |after| >= 2 ==>
              PercentDecoded(before + "%" + after)
              == match Converted(after[0], after[1])
                 case None => before + "%" + PercentDecoded(after)
                 case Some(v) => before + [(v % 256) as char] + PercentDecoded(after[2..])
  {
    DecodeSkips(before, |before|);
    assert before[|before|..] == "" && before[..|before|] == before && before + "" == before;
    UpToPercent(before, after);
    if |after| >= 2 {
      PairIsStrtol(after[0], after[1]);
      FirstPercent(after);
      Join(before, "%", PercentDecoded(after));
      Join(before, PairText(after), PercentDecoded(after[2..]));
    }
  }

  /** What a pair that converts stands for. */
  function PairText(after: string): string
    requires |after| >= 2
  {
    match Converted(after[0], after[1])
    case None => ""
    case Some(v) => [(v % 256) as char]
  }

  lemma UpToPercent(before: string, after: string)
    requires '%' !in before
    ensures PercentDecoded(before + "%" + after) == before + PercentDecoded("%" + after)
    ensures |after| < 2 ==> before + PercentDecoded("%" + after) == before + "%" + after
  {
    Join(before, "%", after);
    SkipBefore(before, "%" + after);
    if |after| < 2 {
      assert PercentDecoded("%" + after) == "%" + after;
    }
  }

  lemma SkipBefore(before: string, rest: string)
    requires '%' !in before
    ensures PercentDecoded(before + rest) == before + PercentDecoded(rest)
  {
    var s := before + rest;
    assert forall k :: 0 <= k < |before| ==> s[k] == before[k];
    DecodeSkips(s, |before|);
    assert s[..|before|] == before && s[|before|..] == rest;
  }

  lemma FirstPercent(after: string)
    requires |after| >= 2
    ensures PercentDecoded("%" + after)
            == match HexPair(after[0], after[1])
               case None => "%" + PercentDecoded(after)
               case Some(v) => [(v % 256) as char] + PercentDecoded(after[2..])
  {
    var s := "%" + after;
    assert s[1..] == after && s[3..] == after[2..];
  }

  // ---------------------------------------------------------------- data URLs

  predicate EndsWith(s: string, end: string) {
    |end| <= |s| && s[|s| - |end|..] == end
  }

  lemma AfterComma(url: string, media: string, data: string)
    requires url == "data:" + media + "," + data && ',' !in media
    ensures var pos := 5 + |media| + 1;
            DATA <= url && url[..5] == DATA && DataStart(url) == pos && url[pos..] == data && url[5..pos - 1] == media
  {
    var pos := 5 + |media| + 1;
    assert url[pos - 1] == ',' && forall k :: 5 <= k < pos - 1 ==> url[k] == media[k - 5];
    assert url[0] == 'd' && url[1] == 'a' && url[2] == 't' && url[3] == 'a' && url[4] == ':';
    assert Find(url, ',', 0) == pos - 1;
    assert url[..5] == DATA;
  }

  /** RFC 2397: the media type up to the first comma, which says whether base64 follows, and the data. */
  lemma DataUrl(media: string, data: string)
    requires ',' !in media
    ensures var r := UrlDecoded("data:" + media + "," + data);
            && (EndsWith(media, ";base64") ==> r == Success("data:," + Base64Decoded(data)))
            && (EndsWith(media, "base64") && !EndsWith(media, ";base64") ==> r == Thrown)
            && (!EndsWith(media, "base64") ==> r == Success("data:," + PercentDecoded(data)))
  {
    var url, pos := "data:" + media + "," + data, 5 + |media| + 1;
    AfterComma(url, media, data);
    MediaEnd(url, media, pos);
    EndsInside(media);
    DataFrom(url, pos, data);
  }

  lemma DataFrom(url: string, pos: nat, data: string)
    requires DATA <= url && DataStart(url) == pos <= |url| && url[pos..] == data
    ensures UrlDecoded(url)
            == if !(pos >= 11 && url[pos - 7..pos - 1] == "base64") then Success("data:," + PercentDecoded(data))
               else if url[pos - 8..pos - 1] == ";base64" then Success("data:," + Base64Decoded(data))
               else Thrown
  {
  }

  lemma EndsInside(s: string)
    ensures EndsWith(s, ";base64") ==> EndsWith(s, "base64")
  {
    if EndsWith(s, ";base64") {
      assert s[|s| - 6..] == s[|s| - 7..][1..] == ";base64"[1..] == "base64";
    }
  }

  lemma MediaEnd(url: string, media: string, pos: nat)
    requires pos == 5 + |media| + 1 <= |url| && url[..5] == DATA && url[5..pos - 1] == media
    ensures pos >= 11 && url[pos - 7..pos - 1] == "base64" <==> EndsWith(media, "base64")
    ensures pos >= 11 && url[pos - 8..pos - 1] == ";base64" <==> EndsWith(media, ";base64")
  {
    var n := |media|;
    if n >= 6 {
      assert url[pos - 7..pos - 1] == media[n - 6..];
    } else if n == 5 {
      assert url[pos - 7] == DATA[4] == ':' && url[pos - 7..pos - 1][0] == ':';
    }
    if n >= 7 {
      assert url[pos - 8..pos - 1] == media[n - 7..];
    } else if n >= 5 {
      assert url[pos - 8] == DATA[n - 2] && url[pos - 8..pos - 1][0] == DATA[n - 2];
    }
  }

  /** Without a comma everything after the scheme is the data. */
  lemma DataUrlWithoutComma(data: string)
    requires ',' !in data
    ensures UrlDecoded("data:" + data) == Success("data:," + PercentDecoded(data))
  {
    var url := "data:" + data;
    assert url[..5] == DATA && url[5..] == data;
    assert forall k :: 5 <= k < |url| ==> url[k] == data[k - 5];
    assert url[0] == 'd' && url[1] == 'a' && url[2] == 't' && url[3] == 'a' && url[4] == ':';
    assert Find(url, ',', 0) == |url|;
  }

  /** Data that was encoded into a data URL, either way, comes back. */
  lemma DataRoundTrip(media: string, b: Bytes, urlSafe: bool, padded: bool)
    requires ',' !in media && !EndsWith(media, "base64")
    ensures UrlDecoded("data:" + (media + ";base64") + "," + Base64Encoded(b, urlSafe, padded)) == Success("data:," + b)
    ensures UrlDecoded("data:" + media + "," + UrlEncoded(b)) == Success("data:," + b)
  {
    Base64RoundTrip(b, urlSafe, padded);
    PercentRoundTrip(b);
    var m := media + ";base64";
    assert m[|m| - 7..] == ";base64" && ',' !in ";base64";
    DataUrl(m, Base64Encoded(b, urlSafe, padded));
    DataUrl(media, UrlEncoded(b));
  }

  // ---------------------------------------------------------------- the character sets of the grammars

  /** Rows of ASCII and short lists: capital letters, graphic and printable characters, white space, and the rest. */
  lemma ClassesExactly(c: char)
    ensures In(c, Upper) <==> c in Row('A', 26)
    ensures In(c, Digit) <==> c in Row('0', 10)
    ensures In(c, ResourceChar) <==> c in Row('!', 94) && c != '?'
    ensures In(c, NameChar) <==> c in Row(' ', 95) && c != ':'
    ensures In(c, KeyChar) <==> c !in ['=', '&', ' ']
    ensures In(c, ValueChar) <==> c !in ['&', ' ']
    ensures In(c, Ampersand) <==> c in ['&']
    ensures In(c, LineChar) <==> c !in ['\r', '\n']
    ensures In(c, EndOfLine) <==> c in ['\r', '\n']
    ensures In(c, Blank) <==> c in [' ', '\t']
    ensures In(c, Space) <==> IsWhite(c)
  {
    InRow(c, 'A', 26);
    InRow(c, '0', 10);
    InRow(c, '!', 94);
    InRow(c, ' ', 95);
  }
}
