/**
 What the grammars accept: a text that is parsed was written in the one form the grammar describes, and the parts that
 are read are the parts it was written from.
 */
module WrittenForm {
  import opened Text
  import opened HeaderMaps
  import opened Grammar
  import Requests
  import R = RequestRoundTrips

  // ---------------------------------------------------------------- terminals

  lemma OneOrMoreReads(s: string, k: Class)
    requires OneOrMore(s, k).Ok?
    ensures var v, rest := OneOrMore(s, k).value, OneOrMore(s, k).rest;
            s == v + rest && v != "" && AllIn(v, k)
  {
    SpanFacts(s, k);
  }

  lemma SkipReads(s: string, k: Class) returns (skipped: string)
    ensures s == skipped + Skip(s, k) && AllIn(skipped, k)
  {
    SpanFacts(s, k);
    skipped := s[..Span(s, k)];
  }

  lemma LiteralReads(s: string, t: string)
    requires Literal(s, t).Ok?
    ensures s == t + Literal(s, t).rest
  {
  }

  /** The digits of a number that fits in 32 bits. */
  predicate Digits(text: string, n: nat) {
    text != "" && AllIn(text, Digit) && NumberOf(text) == n < 0x1_0000_0000
  }

  lemma UIntReads(s: string) returns (digits: string)
    requires UInt(s).Ok?
    ensures s == digits + UInt(s).rest && Digits(digits, UInt(s).value)
  {
    SpanFacts(s, Digit);
    digits := s[..Span(s, Digit)];
  }

  // ---------------------------------------------------------------- version and headers

  lemma VersionReads(s: string) returns (major: string, minor: string)
    requires Version(s).Ok?
    ensures s == "HTTP/" + (major + ("." + (minor + Version(s).rest)))
    ensures Digits(major, Version(s).value.0) && Digits(minor, Version(s).value.1)
  {
    LiteralReads(s, "HTTP/");
    var a := Literal(s, "HTTP/").rest;
    major := UIntReads(a);
    var b := UInt(a).rest;
    LiteralReads(b, ".");
    minor := UIntReads(Literal(b, ".").rest);
  }

  lemma HeaderReads(s: string)
    requires Header(s).Ok?
    ensures var h := Header(s).value;
            s == h.0 + ": " + h.1 + CRLF + Header(s).rest && R.HeaderTexts([h])
  {
    OneOrMoreReads(s, NameChar);
    var a := OneOrMore(s, NameChar).rest;
    LiteralReads(a, ": ");
    var b := Literal(a, ": ").rest;
    OneOrMoreReads(b, LineChar);
    var c := OneOrMore(b, LineChar).rest;
    LiteralReads(c, CRLF);
    var h := Header(s).value;
    Regroup5(h.0, ": ", h.1, CRLF, Header(s).rest);
  }

  lemma {:induction false} HeadersRead(s: string)
    ensures s == Requests.HeaderLines(Headers(s).0) + Headers(s).1 && R.HeaderTexts(Headers(s).0)
    decreases |s|
  {
    if Header(s).Ok? {
      HeaderConsumes(s);
      HeaderReads(s);
      var h, rest := Header(s).value, Header(s).rest;
      HeadersRead(rest);
      var more := Headers(rest).0;
      assert Headers(s).0 == [h] + more && ([h] + more)[1..] == more;
      Regroup3(h.0 + ": " + h.1 + CRLF, Requests.HeaderLines(more), Headers(rest).1);
      assert [h][0] == h;
    } else {
      assert "" + s == s;
    }
  }

  // ---------------------------------------------------------------- requests

  /** A pair of a query as it is written: ampersands, the key, perhaps a sign, the value, and ampersands. */
  datatype WrittenPair = WrittenPair(before: string, key: string, sign: string, value: string, after: string)

  predicate WellWritten(w: WrittenPair) {
    && AllIn(w.before, Ampersand) && w.key != "" && AllIn(w.key, KeyChar) && (w.sign == "=" || w.sign == "")
    && AllIn(w.value, ValueChar) && AllIn(w.after, Ampersand)
  }

  function PairText(w: WrittenPair): string {
    w.before + (w.key + (w.sign + (w.value + w.after)))
  }

  function QueryText(ws: seq<WrittenPair>): string {
    if ws == [] then "" else PairText(ws[0]) + QueryText(ws[1..])
  }

  predicate WritesPairs(ws: seq<WrittenPair>, params: seq<Entry>) {
    |ws| == |params| && forall i :: 0 <= i < |ws| ==> WellWritten(ws[i]) && params[i] == (ws[i].key, ws[i].value)
  }

  /** The text after the sign, if there is one. */
  function AfterSign(r: string): string {
    if "=" <= r then r[1..] else r
  }

  lemma SignReads(r: string) returns (sign: string)
    ensures r == sign + AfterSign(r) && (sign == "=" || sign == "")
  {
    sign := if "=" <= r then "=" else "";
  }

  lemma ValueIsSpan(r: string)
    ensures var v := AfterSign(r);
            ParamValue(r) == (v[..Span(v, ValueChar)], Skip(v[Span(v, ValueChar)..], Ampersand))
  {
  }

  lemma ValueReads(r: string) returns (sign: string, value: string, after: string)
    ensures r == sign + (value + (after + ParamValue(r).1)) && ParamValue(r).0 == value
    ensures (sign == "=" || sign == "") && AllIn(value, ValueChar) && AllIn(after, Ampersand)
  {
    sign := SignReads(r);
    ValueIsSpan(r);
    var w;
    value, w := SpanReads(AfterSign(r), ValueChar);
    after := SkipReads(w, Ampersand);
  }

  lemma SpanReads(v: string, k: Class) returns (value: string, rest: string)
    ensures value == v[..Span(v, k)] && rest == v[Span(v, k)..] && v == value + rest && AllIn(value, k)
  {
    SpanFacts(v, k);
    value, rest := v[..Span(v, k)], v[Span(v, k)..];
  }

  lemma PairReads(s: string) returns (w: WrittenPair)
    requires ParamPair(s).Ok?
    ensures s == PairText(w) + ParamPair(s).rest && WellWritten(w) && ParamPair(s).value == (w.key, w.value)
  {
    var before := SkipReads(s, Ampersand);
    var a := Skip(s, Ampersand);
    OneOrMoreReads(a, KeyChar);
    var key, r := OneOrMore(a, KeyChar).value, OneOrMore(a, KeyChar).rest;
    var sign, value, after := ValueReads(r);
    w := WrittenPair(before, key, sign, value, after);
    Regroup6(before, key, sign, value, after, ParamPair(s).rest);
    Regroup5(before, key, sign, value, after);
  }

  lemma ParamsUnfold(s: string)
    requires ParamPair(s).Ok?
    ensures var rest := ParamPair(s).rest;
            |rest| < |s| && Params(s) == ([ParamPair(s).value] + Params(rest).0, Params(rest).1)
  {
    PairConsumes(s);
  }

  lemma PairsCons(w: WrittenPair, ws: seq<WrittenPair>, p: Entry, params: seq<Entry>, rest: string)
    requires WellWritten(w) && p == (w.key, w.value) && WritesPairs(ws, params)
    ensures WritesPairs([w] + ws, [p] + params)
    ensures QueryText([w] + ws) + rest == PairText(w) + (QueryText(ws) + rest)
  {
    assert ([w] + ws)[1..] == ws;
    Regroup3(PairText(w), QueryText(ws), rest);
  }

  lemma {:induction false} ParamsRead(s: string) returns (ws: seq<WrittenPair>)
    ensures s == QueryText(ws) + Params(s).1 && WritesPairs(ws, Params(s).0)
    decreases |s|
  {
    if ParamPair(s).Ok? {
      ParamsUnfold(s);
      var w := PairReads(s);
      var rest := ParamPair(s).rest;
      var more := ParamsRead(rest);
      ws := [w] + more;
      PairsCons(w, more, ParamPair(s).value, Params(rest).0, Params(rest).1);
    } else {
      ws := [];
      NoParams(s);
    }
  }

  lemma NoParams(s: string)
    requires ParamPair(s).Fail?
    ensures Params(s) == ([], s) && s == QueryText([]) + s
  {
    assert "" + s == s;
  }

  /** The text of a request, from its parts and the places where the writer has a choice. */
  function Written(raw: RawRequest, gap: string, mark: string, ws: seq<WrittenPair>, blank: string, major: string,
                   minor: string): string
  {
    raw.method_ + (gap + (raw.resource + (mark + (QueryText(ws) + (blank + ("HTTP/" + (major + ("." + (minor
      + (CRLF + (Requests.HeaderLines(raw.headers) + (CRLF + raw.body))))))))))))
  }

  lemma MarkReads(b: string) returns (mark: string)
    ensures b == mark + DropQuestion(b) && (mark == "?" || mark == "")
  {
    mark := if "?" <= b then "?" else "";
  }

  lemma StartReads(s: string) returns (gap: string, mark: string)
    requires RequestStart(s).Ok?
    ensures var v := RequestStart(s).value;
            && s == v.0 + (gap + (v.1 + (mark + RequestStart(s).rest)))
            && v.0 != "" && AllIn(v.0, Upper) && AllIn(gap, Blank) && v.1 != "" && AllIn(v.1, ResourceChar)
            && (mark == "?" || mark == "")
  {
    OneOrMoreReads(s, Upper);
    var a := OneOrMore(s, Upper).rest;
    gap := SkipReads(a, Blank);
    var t := Skip(a, Blank);
    OneOrMoreReads(t, ResourceChar);
    mark := MarkReads(OneOrMore(t, ResourceChar).rest);
  }

  lemma TailReads(s: string) returns (blank: string, major: string, minor: string)
    requires RequestTail(s).Ok?
    ensures var v := RequestTail(s).value;
            && s == blank + ("HTTP/" + (major + ("." + (minor
                      + (CRLF + (Requests.HeaderLines(v.1) + (CRLF + RequestTail(s).rest)))))))
            && AllIn(blank, Blank) && Digits(major, v.0.0) && Digits(minor, v.0.1) && R.HeaderTexts(v.1)
  {
    blank := SkipReads(s, Blank);
    major, minor := VersionReads(Skip(s, Blank));
    var a := Version(Skip(s, Blank)).rest;
    LiteralReads(a, CRLF);
    var b := Literal(a, CRLF).rest;
    HeadersRead(b);
    LiteralReads(Headers(b).1, CRLF);
  }

  /**
   A request that is parsed was written in the form of the grammar: capital letters, blanks, a resource, perhaps a
   question mark, pairs, blanks, a version, header lines, an empty line and a body; and these are the parts read.
   */
  lemma RequestIsWritten(s: string)
    returns (gap: string, mark: string, ws: seq<WrittenPair>, blank: string, major: string, minor: string)
    requires RequestText(s).Ok?
    ensures var raw := RequestText(s).value;
            && s == Written(raw, gap, mark, ws, blank, major, minor)
            && raw.method_ != "" && AllIn(raw.method_, Upper) && raw.resource != "" && AllIn(raw.resource, ResourceChar)
            && AllIn(gap, Blank) && AllIn(blank, Blank) && (mark == "?" || mark == "") && WritesPairs(ws, raw.params)
            && Digits(major, raw.version.0) && Digits(minor, raw.version.1) && R.HeaderTexts(raw.headers)
  {
    gap, mark := StartReads(s);
    ws := ParamsRead(RequestStart(s).rest);
    blank, major, minor := TailReads(Params(RequestStart(s).rest).1);
  }

  // ---------------------------------------------------------------- responses

  lemma ResponseStartReads(s: string)
    returns (major: string, minor: string, gap: string, code: string, space: string, ends: string)
    requires ResponseStart(s).Ok?
    ensures var v := ResponseStart(s).value;
            && s == "HTTP/" + (major + ("." + (minor + (gap + (code + (space + (v.2
                      + (ends + ResponseStart(s).rest))))))))
            && Digits(major, v.0.0) && Digits(minor, v.0.1) && Digits(code, v.1)
            && gap != "" && AllIn(gap, Space) && space != "" && AllIn(space, Space)
            && v.2 != "" && AllIn(v.2, LineChar) && ends != "" && AllIn(ends, EndOfLine)
  {
    major, minor := VersionReads(s);
    var a := Version(s).rest;
    OneOrMoreReads(a, Space);
    gap := OneOrMore(a, Space).value;
    var b := OneOrMore(a, Space).rest;
    code := UIntReads(b);
    var c := UInt(b).rest;
    OneOrMoreReads(c, Space);
    space := OneOrMore(c, Space).value;
    var d := OneOrMore(c, Space).rest;
    OneOrMoreReads(d, LineChar);
    var e := OneOrMore(d, LineChar).rest;
    OneOrMoreReads(e, EndOfLine);
    ends := OneOrMore(e, EndOfLine).value;
  }

  /** And so was a response: a version, a code and a reason between white space, line ends, header lines and a body. */
  lemma ResponseIsWritten(s: string)
    returns (major: string, minor: string, gap: string, code: string, space: string, ends: string)
    requires ResponseText(s).Ok?
    ensures var raw := ResponseText(s).value;
            && s == "HTTP/" + (major + ("." + (minor + (gap + (code + (space + (raw.reason
                      + (ends + (Requests.HeaderLines(raw.headers) + (CRLF + ResponseText(s).rest))))))))))
            && Digits(major, raw.version.0) && Digits(minor, raw.version.1) && Digits(code, raw.code)
            && gap != "" && AllIn(gap, Space) && space != "" && AllIn(space, Space)
            && raw.reason != "" && AllIn(raw.reason, LineChar) && ends != "" && AllIn(ends, EndOfLine)
            && R.HeaderTexts(raw.headers)
  {
    major, minor, gap, code, space, ends := ResponseStartReads(s);
    var f := ResponseStart(s).rest;
    HeadersRead(f);
    LiteralReads(Headers(f).1, CRLF);
  }
}
