/**
 Framing of requests that arrive in pieces: which prefixes of a request are incomplete, and what more bytes do
 to it.
 */
module RequestFraming {
  import opened Wrappers
  import opened Text
  import opened Codecs
  import opened HeaderMaps
  import opened Grammar
  import opened Extension
  import opened Requests
  import opened RequestRoundTrips

  // ---------------------------------------------------------------- a parse does not need what it leaves over

  lemma Halves(p: string, x: string, n: nat)
    requires n <= |p|
    ensures (p + x)[n..] == p[n..] + x && (p + x)[..n] == p[..n]
  {
  }

  lemma SpanShrink(p: string, x: string, k: Class)
    requires Span(p + x, k) < |p|
    ensures Span(p, k) == Span(p + x, k)
  {
    var n := Span(p + x, k);
    SpanFacts(p + x, k);
    Halves(p, x, n);
    assert (p + x)[n] == p[n];
    SpanUnique(p, k, n);
  }

  lemma LiteralShrink(p: string, x: string, t: string)
    requires Literal(p + x, t).Ok? && |x| <= |Literal(p + x, t).rest|
    ensures Literal(p, t).Ok? && Literal(p + x, t).rest == Literal(p, t).rest + x
  {
    assert |t| <= |p|;
    Halves(p, x, |t|);
  }

  lemma OneOrMoreShrink(p: string, x: string, k: Class)
    requires OneOrMore(p + x, k).Ok? && |x| < |OneOrMore(p + x, k).rest|
    ensures OneOrMore(p, k).Ok? && OneOrMore(p + x, k) == Ok(OneOrMore(p, k).value, OneOrMore(p, k).rest + x)
  {
    SpanShrink(p, x, k);
    Halves(p, x, Span(p, k));
  }

  lemma SkipShrink(p: string, x: string, k: Class)
    requires |x| < |Skip(p + x, k)|
    ensures Skip(p + x, k) == Skip(p, k) + x
  {
    SpanShrink(p, x, k);
    Halves(p, x, Span(p, k));
  }

  lemma UIntShrink(p: string, x: string)
    requires UInt(p + x).Ok? && |x| < |UInt(p + x).rest|
    ensures UInt(p).Ok? && UInt(p + x) == Ok(UInt(p).value, UInt(p).rest + x)
  {
    SpanShrink(p, x, Digit);
    Halves(p, x, Span(p, Digit));
  }

  lemma ParamValueShrink(p: string, x: string)
    requires |x| < |ParamValue(p + x).1|
    ensures ParamValue(p + x) == (ParamValue(p).0, ParamValue(p).1 + x)
  {
    assert p != "";
    var v := if "=" <= p then p[1..] else p;
    assert (p + x)[0] == p[0] && (p + x)[1..] == p[1..] + x;
    SpanShrink(v, x, ValueChar);
    Halves(v, x, Span(v, ValueChar));
    SkipShrink(v[Span(v, ValueChar)..], x, Ampersand);
  }

  lemma PairShrink(p: string, x: string)
    requires ParamPair(p + x).Ok? && |x| < |ParamPair(p + x).rest|
    ensures ParamPair(p).Ok? && ParamPair(p + x) == Ok(ParamPair(p).value, ParamPair(p).rest + x)
  {
    SkipShrink(p, x, Ampersand);
    OneOrMoreShrink(Skip(p, Ampersand), x, KeyChar);
    ParamValueShrink(OneOrMore(Skip(p, Ampersand), KeyChar).rest, x);
  }

  /** If the parameters of p end inside p, and the whole text has its parameters end at a space. */
  lemma {:induction false} ParamsShrink(p: string, x: string)
    requires " " <= Params(p + x).1 && |x| < |Params(p + x).1|
    ensures Params(p + x) == (Params(p).0, Params(p).1 + x)
    decreases |p|
  {
    if ParamPair(p + x).Fail? {
      assert p + x == Params(p + x).1 && p[0] == (p + x)[0];
      PairFailsAtSpace(p);
    } else {
      PairConsumes(p + x);
      PairConsumes(p);
      var rest := ParamPair(p + x).rest;
      assert Params(p + x).1 == Params(rest).1;
      PairShrink(p, x);
      ParamsShrink(ParamPair(p).rest, x);
    }
  }

  lemma VersionShrink(p: string, x: string)
    requires Version(p + x).Ok? && |x| < |Version(p + x).rest|
    ensures Version(p).Ok? && Version(p + x) == Ok(Version(p).value, Version(p).rest + x)
  {
    LiteralShrink(p, x, "HTTP/");
    var a := Literal(p, "HTTP/").rest;
    UIntShrink(a, x);
    var b := UInt(a).rest;
    LiteralShrink(b, x, ".");
    UIntShrink(Literal(b, ".").rest, x);
  }

  lemma HeaderShrink(p: string, x: string)
    requires Header(p + x).Ok? && |x| <= |Header(p + x).rest|
    ensures Header(p).Ok? && Header(p + x) == Ok(Header(p).value, Header(p).rest + x)
  {
    OneOrMoreShrink(p, x, NameChar);
    var a := OneOrMore(p, NameChar).rest;
    LiteralShrink(a, x, ": ");
    var b := Literal(a, ": ").rest;
    OneOrMoreShrink(b, x, LineChar);
    LiteralShrink(OneOrMore(b, LineChar).rest, x, CRLF);
  }

  lemma {:induction false} HeadersShrink(p: string, x: string)
    requires CRLF <= Headers(p + x).1 && |x| + 2 <= |Headers(p + x).1|
    ensures Headers(p + x) == (Headers(p).0, Headers(p).1 + x)
    decreases |p|
  {
    if Header(p + x).Fail? {
      assert p[0] == (p + x)[0] && p[1] == (p + x)[1];
      HeaderFailsAtLineEnd(p);
    } else {
      HeaderConsumes(p + x);
      HeadersLength(Header(p + x).rest);
      HeaderShrink(p, x);
      HeaderConsumes(p);
      HeadersShrink(Header(p).rest, x);
    }
  }

  lemma {:induction false} HeadersLength(s: string)
    ensures |Headers(s).1| <= |s|
    decreases |s|
  {
    if Header(s).Ok? {
      HeaderConsumes(s);
      HeadersLength(Header(s).rest);
    }
  }

  /** A tail from its parts. */
  lemma TailParts(s: string, version: (nat, nat), a: string, b: string, headers: seq<Entry>, c: string, rest: string)
    requires Version(Skip(s, Blank)) == Ok(version, a) && Literal(a, CRLF) == Ok((), b)
    requires Headers(b) == (headers, c) && Literal(c, CRLF) == Ok((), rest)
    ensures RequestTail(s) == Ok((version, headers), rest)
  {
  }

  lemma PartsOfTail(s: string) returns (version: (nat, nat), a: string, b: string, headers: seq<Entry>, c: string, rest: string)
    requires RequestTail(s).Ok?
    ensures Version(Skip(s, Blank)) == Ok(version, a) && Literal(a, CRLF) == Ok((), b)
    ensures Headers(b) == (headers, c) && Literal(c, CRLF) == Ok((), rest)
    ensures RequestTail(s) == Ok((version, headers), rest)
  {
    version, a := Version(Skip(s, Blank)).value, Version(Skip(s, Blank)).rest;
    b := Literal(a, CRLF).rest;
    headers, c := Headers(b).0, Headers(b).1;
    rest := Literal(c, CRLF).rest;
  }

  lemma TailShrink(p: string, x: string)
    requires RequestTail(p + x).Ok? && |x| <= |RequestTail(p + x).rest|
    ensures RequestTail(p).Ok? && RequestTail(p + x) == Ok(RequestTail(p).value, RequestTail(p).rest + x)
  {
    var version, a', b', headers, c', rest := PartsOfTail(p + x);
    HeadersLength(b');
    SkipShrink(p, x, Blank);
    VersionShrink(Skip(p, Blank), x);
    var a := Version(Skip(p, Blank)).rest;
    LiteralShrink(a, x, CRLF);
    var b := Literal(a, CRLF).rest;
    HeadersShrink(b, x);
    var c := Headers(b).1;
    LiteralShrink(c, x, CRLF);
    TailParts(p, version, a, b, headers, c, Literal(c, CRLF).rest);
  }

  /** A start from its parts. */
  lemma StartFromParts(s: string, method_: string, a: string, resource: string, b: string)
    requires OneOrMore(s, Upper) == Ok(method_, a) && OneOrMore(Skip(a, Blank), ResourceChar) == Ok(resource, b)
    ensures RequestStart(s) == Ok((method_, resource), DropQuestion(b))
  {
  }

  lemma StartShrink(p: string, x: string)
    requires RequestStart(p + x).Ok? && |x| < |RequestStart(p + x).rest|
    ensures RequestStart(p).Ok? && RequestStart(p + x) == Ok(RequestStart(p).value, RequestStart(p).rest + x)
  {
    OneOrMoreShrink(p, x, Upper);
    var (method_, a) := (OneOrMore(p, Upper).value, OneOrMore(p, Upper).rest);
    SkipShrink(a, x, Blank);
    OneOrMoreShrink(Skip(a, Blank), x, ResourceChar);
    var (resource, b) := (OneOrMore(Skip(a, Blank), ResourceChar).value, OneOrMore(Skip(a, Blank), ResourceChar).rest);
    StartFromParts(p, method_, a, resource, b);
    StartFromParts(p + x, method_, a + x, resource, b + x);
    DropShrink(b, x);
  }

  lemma DropShrink(b: string, x: string)
    requires |x| < |DropQuestion(b + x)|
    ensures DropQuestion(b + x) == DropQuestion(b) + x
  {
    assert b != "";
    assert (b + x)[0] == b[0] && (b + x)[1..] == b[1..] + x;
  }

  lemma TailLength(s: string)
    requires RequestTail(s).Ok?
    ensures |RequestTail(s).rest| + 4 <= |s|
  {
    var version, a, b, headers, c, rest := PartsOfTail(s);
    VersionLength(Skip(s, Blank));
    HeadersLength(b);
  }

  lemma VersionLength(s: string)
    requires Version(s).Ok?
    ensures |Version(s).rest| <= |s|
  {
  }

  /** A text that parses still does without any end of its body. */
  lemma RequestShrink(p: string, x: string)
    requires RequestText(p + x).Ok? && |x| <= |RequestText(p + x).value.body|
    ensures RequestText(p).Ok?
    ensures RequestText(p + x) == Ok(RequestText(p).value.(body := RequestText(p).value.body + x), "")
  {
    var a := RequestStart(p + x).rest;
    TailLength(Params(a).1);
    StartShrink(p, x);
    ParamsEndAtSpace(a);
    ParamsShrink(RequestStart(p).rest, x);
    TailShrink(Params(RequestStart(p).rest).1, x);
    RequestExtend(p, x);
  }

  // ---------------------------------------------------------------- where a blank line can be

  /** The rest is an end of s, and no CR comes before it. */
  predicate Before(s: string, rest: string)
    decreases |s|
  {
    s == rest || (s != "" && s[0] != CR && Before(s[1..], rest))
  }

  lemma {:induction false} BeforeTrans(s: string, a: string, b: string)
    requires Before(s, a) && Before(a, b)
    ensures Before(s, b)
    decreases |s|
  {
    if s != a {
      BeforeTrans(s[1..], a, b);
    }
  }

  lemma {:induction false} BeforeFacts(s: string, rest: string)
    requires Before(s, rest)
    ensures |rest| <= |s| && s[|s| - |rest|..] == rest && forall i :: 0 <= i < |s| - |rest| ==> s[i] != CR
    decreases |s|
  {
    if s != rest {
      BeforeFacts(s[1..], rest);
      assert forall i :: 1 <= i < |s| ==> s[i] == s[1..][i - 1];
    }
  }

  lemma {:induction false} DropBefore(s: string, n: nat)
    requires n <= |s| && forall i :: 0 <= i < n ==> s[i] != CR
    ensures Before(s, s[n..])
  {
    if n > 0 {
      DropBefore(s[1..], n - 1);
      assert s[1..][n - 1..] == s[n..];
    }
  }

  lemma SpanBefore(s: string, k: Class)
    requires !In(CR, k)
    ensures Before(s, Skip(s, k))
    ensures OneOrMore(s, k).Ok? ==> OneOrMore(s, k).rest == Skip(s, k)
  {
    var n := Span(s, k);
    SpanFacts(s, k);
    forall i | 0 <= i < n ensures s[i] != CR {
      assert s[..n][i] == s[i];
    }
    DropBefore(s, n);
  }

  lemma LiteralBefore(s: string, t: string)
    requires Literal(s, t).Ok? && CR !in t
    ensures Before(s, Literal(s, t).rest)
  {
    forall i | 0 <= i < |t| ensures s[i] != CR {
      assert s[i] == t[i];
    }
    DropBefore(s, |t|);
  }

  lemma VersionBefore(s: string)
    requires Version(s).Ok?
    ensures Before(s, Version(s).rest)
  {
    LiteralBefore(s, "HTTP/");
    var a := Literal(s, "HTTP/").rest;
    SpanBefore(a, Digit);
    var b := UInt(a).rest;
    LiteralBefore(b, ".");
    var c := Literal(b, ".").rest;
    SpanBefore(c, Digit);
    BeforeTrans(s, a, b);
    BeforeTrans(s, b, c);
    BeforeTrans(s, c, Version(s).rest);
  }

  lemma StartBefore(s: string)
    requires RequestStart(s).Ok?
    ensures Before(s, RequestStart(s).rest)
  {
    SpanBefore(s, Upper);
    var a := OneOrMore(s, Upper).rest;
    SpanBefore(a, Blank);
    var b := Skip(a, Blank);
    SpanBefore(b, ResourceChar);
    var c := OneOrMore(b, ResourceChar).rest;
    DropBefore(c, if "?" <= c then 1 else 0);
    assert c[0..] == c;
    BeforeTrans(s, a, b);
    BeforeTrans(s, b, c);
    BeforeTrans(s, c, DropQuestion(c));
  }

  /** A header is text without CR and then CR and LF. */
  lemma HeaderBefore(s: string)
    requires Header(s).Ok?
    ensures var l := |s| - |Header(s).rest|;
            2 < l <= |s| && s[l - 2..] == CRLF + Header(s).rest && Before(s, s[l - 2..])
  {
    SpanBefore(s, NameChar);
    var a := OneOrMore(s, NameChar).rest;
    LiteralBefore(a, ": ");
    var b := Literal(a, ": ").rest;
    SpanBefore(b, LineChar);
    var c := OneOrMore(b, LineChar).rest;
    BeforeTrans(s, a, b);
    BeforeTrans(s, b, c);
    BeforeFacts(s, c);
    assert c == CRLF + Header(s).rest;
  }

  predicate BlankAt(s: string, i: int) {
    0 <= i && i + 4 <= |s| && s[i] == CR && s[i + 1] == LF && s[i + 2] == CR && s[i + 3] == LF
  }

  lemma BlankChars(s: string, i: nat)
    ensures At(s, i, BLANK_LINE) <==> BlankAt(s, i)
  {
    if i + 4 <= |s| {
      var t := s[i..i + 4];
      assert t[0] == s[i] && t[1] == s[i + 1] && t[2] == s[i + 2] && t[3] == s[i + 3];
    }
  }

  lemma BlankContained(s: string, i: nat)
    requires BlankAt(s, i)
    ensures Contains(s, BLANK_LINE)
  {
    BlankChars(s, i);
  }

  lemma BlankFound(s: string) returns (i: nat)
    requires Contains(s, BLANK_LINE)
    ensures BlankAt(s, i)
  {
    i :| 0 <= i <= |s| && At(s, i, BLANK_LINE);
    BlankChars(s, i);
  }

  /** No blank line ends before the rest is reached. */
  ghost predicate Quiet(s: string, rest: string) {
    |rest| <= |s| && forall j :: BlankAt(s, j) ==> |s| - |rest| <= j + 4
  }

  lemma LineQuiet(s: string, l: nat, rest: string, last: string, j: nat)
    requires 2 < l <= |s| && |s| == l + |rest| && s[l - 2..] == CRLF + rest && Before(s, s[l - 2..])
    requires Quiet(CRLF + rest, last) && BlankAt(CRLF + s, j)
    ensures |CRLF + s| - |last| <= j + 4
  {
    var t := CRLF + s;
    BeforeFacts(s, s[l - 2..]);
    assert forall i :: 2 <= i < l ==> t[i] == s[i - 2] && s[i - 2] != CR;
    assert t[0] == CR && t[1] == LF && t[2] == s[0];
    assert j >= l;
    assert forall i :: l <= i < |t| ==> t[i] == s[l - 2..][i - l];
    assert BlankAt(CRLF + rest, j - l);
  }

  /** After a line end, the headers keep quiet until the blank line that ends them. */
  lemma {:induction false} HeadersQuiet(s: string)
    requires CRLF <= Headers(s).1
    ensures Quiet(CRLF + s, Headers(s).1[2..])
    decreases |s|
  {
    if Header(s).Ok? {
      HeaderBefore(s);
      var rest := Header(s).rest;
      HeadersQuiet(rest);
      forall j | BlankAt(CRLF + s, j) ensures |CRLF + s| - |Headers(s).1[2..]| <= j + 4 {
        LineQuiet(s, |s| - |rest|, rest, Headers(rest).1[2..], j);
      }
    }
  }

  lemma BeforeQuiet(s: string, a: string, last: string)
    requires Before(s, a) && Quiet(a, last)
    ensures Quiet(s, last)
  {
    BeforeFacts(s, a);
    var n := |s| - |a|;
    assert forall i :: n <= i < |s| ==> s[i] == a[i - n];
    forall j | BlankAt(s, j) ensures |s| - |last| <= j + 4 {
      assert j >= n;
      assert BlankAt(a, j - n);
    }
  }

  lemma TailQuiet(s: string)
    requires RequestTail(s).Ok?
    ensures Quiet(s, RequestTail(s).rest)
  {
    var version, a, b, headers, c, rest := PartsOfTail(s);
    SpanBefore(s, Blank);
    VersionBefore(Skip(s, Blank));
    BeforeTrans(s, Skip(s, Blank), a);
    assert a == CRLF + b && c[2..] == rest;
    HeadersQuiet(b);
    BeforeQuiet(s, a, rest);
  }

  /** The three parts of a head: a start without CR, the query, and a tail that is quiet until the end. */
  ghost predicate Layout(s: string, query: string, body: string, a: string, b: string) {
    && Before(s, a) && |b| <= |a| <= |s| && a[|a| - |b|..] == b && query == Query(a, b)
    && " " <= b && |body| + 4 <= |b| && Quiet(b, body)
  }

  lemma RequestLayout(s: string) returns (a: string, b: string)
    requires RequestText(s).Ok?
    ensures Layout(s, RequestText(s).value.query, RequestText(s).value.body, a, b)
  {
    StartBefore(s);
    a := RequestStart(s).rest;
    BeforeFacts(s, a);
    b := Params(a).1;
    ParamsEndAtSpace(a);
    ParamsIsEnd(a);
    EndFacts(b, a);
    TailQuiet(b);
    TailLength(b);
  }

  lemma BlankBehind(s: string, n: nat, i: nat)
    requires BlankAt(s, i) && n <= i
    ensures BlankAt(s[n..], i - n)
  {
  }

  lemma BlankAhead(s: string, n: nat, i: nat)
    requires BlankAt(s, i) && i + 4 <= n <= |s|
    ensures BlankAt(s[..n], i)
  {
  }

  lemma BlankNotAcross(s: string, n: nat, i: nat)
    requires BlankAt(s, i) && i < n < |s| && s[n] == ' '
    ensures i + 4 <= n
  {
  }

  /** A blank line before the end of the head lies in the stretch the parameters were read from. */
  lemma BlankInQuery(s: string, query: string, body: string, a: string, b: string, i: nat)
    requires Layout(s, query, body, a, b) && BlankAt(s, i) && i + 4 < |s| - |body|
    ensures Contains(query, BLANK_LINE)
  {
    BeforeFacts(s, a);
    var n, m := |s| - |a|, |a| - |b|;
    assert n <= i;
    BlankBehind(s, n, i);
    if m <= i - n {
      BlankBehind(a, m, i - n);
      assert false;
    }
    assert a[m] == a[m..][0] == b[0];
    BlankNotAcross(a, m, i - n);
    BlankAhead(a, m, i - n);
    BlankContained(query, i - n);
  }

  /** A blank line in that stretch is there before the head has arrived. */
  lemma QueryIsEarly(s: string, n: nat, query: string, early: string)
    requires n <= |s| && query <= s[n..] && early <= s && n + |query| <= |early|
    requires Contains(query, BLANK_LINE)
    ensures Contains(early, BLANK_LINE)
  {
    var i := BlankFound(query);
    assert BlankAt(s[n..], i);
    assert BlankAt(s, n + i);
    assert BlankAt(early, n + i);
    BlankContained(early, n + i);
  }

  // ---------------------------------------------------------------- the theorems

  /** A request that is not a form and declares the length of its body. */
  predicate Framed(raw: RawRequest, length: LengthReader) {
    var headers := InsertAll([], raw.headers);
    && MethodOf(raw.method_).Some? && Collected([], raw.params).Success? && !HasForm(headers)
    && Lookup(headers, "Content-Length").Some?
    && length(Lookup(headers, "Content-Length").value) == Some(|raw.body|)
  }

  predicate WellFormed(text: string, length: LengthReader) {
    RequestText(text).Ok? && Framed(RequestText(text).value, length)
  }

  predicate Parses(text: string, length: LengthReader, status: Status) {
    Parsed(text, length).Success? && Parsed(text, length).value.status == status
  }

  lemma StatusOfBody(text: string, raw: RawRequest, body: string, length: LengthReader)
    requires Framed(raw, length) && RequestText(text) == Ok(raw.(body := body), "")
    ensures Parses(text, length, if |body| < |raw.body| then INCOMPLETE else if |body| > |raw.body| then FAILED else COMPLETE)
  {
    StatusOfRaw(raw, body, length);
  }

  lemma StatusOfRaw(raw: RawRequest, body: string, length: LengthReader)
    requires Framed(raw, length)
    ensures var params := Collected([], raw.params).value;
            var r := Assembled(raw.(body := body), params, length);
            && r.Success?
            && r.value.status
               == if |body| < |raw.body| then INCOMPLETE else if |body| > |raw.body| then FAILED else COMPLETE
  {
  }

  lemma StatusOfFailure(text: string, length: LengthReader)
    requires RequestText(text).Fail?
    ensures Parses(text, length, if Contains(text, BLANK_LINE) then FAILED else INCOMPLETE)
  {
  }

  /** The whole is complete, and anything that follows makes it fail. */
  lemma WholeIsComplete(text: string, length: LengthReader, more: string)
    requires WellFormed(text, length)
    ensures Parses(text, length, COMPLETE)
    ensures more != "" ==> Parses(text + more, length, FAILED)
  {
    var raw := RequestText(text).value;
    RequestRest(text);
    StatusOfBody(text, raw, raw.body, length);
    RequestExtend(text, more);
    StatusOfBody(text + more, raw, raw.body + more, length);
  }

  lemma RequestRest(text: string)
    requires RequestText(text).Ok?
    ensures RequestText(text).rest == ""
  {
  }

  /** A text cut inside its head does not parse. */
  lemma CutHead(p: string, x: string)
    requires RequestText(p + x).Ok? && |RequestText(p + x).value.body| < |x|
    ensures RequestText(p).Fail?
  {
    if RequestText(p).Ok? {
      RequestExtend(p, x);
      assert false;
    }
  }

  /** The status of every proper prefix: cut in the body, or in the head. */
  lemma PrefixStatus(text: string, p: string, x: string, raw: RawRequest, length: LengthReader)
    requires text == p + x && RequestText(text) == Ok(raw, "") && Framed(raw, length) && x != ""
    ensures |x| <= |raw.body| ==> Parses(p, length, INCOMPLETE)
    ensures |x| > |raw.body| ==> Parses(p, length, if Contains(p, BLANK_LINE) then FAILED else INCOMPLETE)
  {
    if |x| > |raw.body| {
      CutHead(p, x);
      StatusOfFailure(p, length);
    } else {
      RequestShrink(p, x);
      RequestRest(p);
      var body := RequestText(p).value.body;
      assert raw.body == body + x;
      StatusOfBody(p, raw, body, length);
    }
  }

  lemma Cut(text: string, n: nat)
    requires n <= |text|
    ensures text == text[..n] + text[n..]
  {
  }

  /** The same for a text cut at a position. */
  lemma CutStatus(text: string, n: nat, raw: RawRequest, length: LengthReader)
    requires RequestText(text) == Ok(raw, "") && Framed(raw, length) && n < |text|
    ensures |text| - |raw.body| <= n ==> Parses(text[..n], length, INCOMPLETE)
    ensures |text| - |raw.body| > n
            ==> Parses(text[..n], length, if Contains(text[..n], BLANK_LINE) then FAILED else INCOMPLETE)
  {
    Cut(text, n);
    PrefixStatus(text, text[..n], text[n..], raw, length);
  }

  lemma EarlyIsInQuery(s: string, query: string, body: string, a: string, b: string, n: nat)
    requires Layout(s, query, body, a, b) && n <= |s| && !Contains(query, BLANK_LINE)
    ensures Contains(s[..n], BLANK_LINE) ==> |s| - |body| <= n
  {
    if Contains(s[..n], BLANK_LINE) {
      var i := BlankFound(s[..n]);
      assert BlankAt(s, i);
      if i + 4 < |s| - |body| {
        BlankInQuery(s, query, body, a, b, i);
      }
    }
  }

  ghost predicate PrefixesIncomplete(text: string, length: LengthReader) {
    forall n :: 0 <= n < |text| ==> Parses(text[..n], length, INCOMPLETE)
  }

  lemma BlankFails(text: string, raw: RawRequest, a: string, b: string, length: LengthReader) returns (n: nat)
    requires RequestText(text) == Ok(raw, "") && Framed(raw, length) && Layout(text, raw.query, raw.body, a, b)
    requires Contains(raw.query, BLANK_LINE)
    ensures n < |text| && Parses(text[..n], length, FAILED)
  {
    n := |text| - |raw.body| - 1;
    BeforeFacts(text, a);
    QueryIsEarly(text, |text| - |a|, raw.query, text[..n]);
    CutStatus(text, n, raw, length);
  }

  lemma QuietPrefix(text: string, raw: RawRequest, a: string, b: string, n: nat, length: LengthReader)
    requires RequestText(text) == Ok(raw, "") && Framed(raw, length) && Layout(text, raw.query, raw.body, a, b)
    requires !Contains(raw.query, BLANK_LINE) && n < |text|
    ensures Parses(text[..n], length, INCOMPLETE)
  {
    EarlyIsInQuery(text, raw.query, raw.body, a, b, n);
    CutStatus(text, n, raw, length);
  }

  lemma NotBoth(text: string, length: LengthReader)
    ensures !(Parses(text, length, FAILED) && Parses(text, length, INCOMPLETE))
  {
  }

  lemma PrefixesOfLayout(text: string, raw: RawRequest, a: string, b: string, length: LengthReader)
    requires RequestText(text) == Ok(raw, "") && Framed(raw, length) && Layout(text, raw.query, raw.body, a, b)
    ensures PrefixesIncomplete(text, length) <==> !Contains(raw.query, BLANK_LINE)
  {
    if Contains(raw.query, BLANK_LINE) {
      var n := BlankFails(text, raw, a, b, length);
      NotBoth(text[..n], length);
    } else {
      forall n | 0 <= n < |text| ensures Parses(text[..n], length, INCOMPLETE) {
        QuietPrefix(text, raw, a, b, n, length);
      }
    }
  }

  /**
   All proper prefixes are incomplete exactly when no blank line can be found inside the query. The grammar lets
   CR and LF into parameter names and values.
   */
  lemma PrefixesAreIncomplete(text: string, length: LengthReader)
    requires WellFormed(text, length)
    ensures PrefixesIncomplete(text, length) <==> !Contains(RequestText(text).value.query, BLANK_LINE)
  {
    var a, b := RequestLayout(text);
    RequestRest(text);
    PrefixesOfLayout(text, RequestText(text).value, a, b, length);
  }

  const BLANK_VALUE: Entry := ("a", BLANK_LINE)

  lemma ParamsOfOne(s: string, pair: Entry, tail: string)
    requires ParamPair(s) == Ok(pair, tail) && ParamPair(tail).Fail?
    ensures Params(s) == ([pair], tail)
  {
    NoParams(tail);
    ParamsStep(s, pair, tail, [], tail);
    assert [pair] + [] == [pair];
  }

  lemma NoParams(s: string)
    requires ParamPair(s).Fail?
    ensures Params(s) == ([], s)
  {
  }

  lemma OneParam(name: string, value: string, tail: string)
    requires name != "" && AllIn(name, KeyChar) && AllIn(value, ValueChar) && " " <= tail
    ensures Params(name + "=" + value + "" + tail) == ([(name, value)], tail)
  {
    assert tail[0] == ' ';
    PairExact(name, value, "", tail);
    PairFailsAtSpace(tail);
    ParamsOfOne(name + "=" + value + "" + tail, (name, value), tail);
  }

  lemma StartExample(a: string)
    ensures RequestStart("GET" + " " + "/" + ("?" + a)) == Ok(("GET", "/"), a)
  {
    assert ("?" + a)[1..] == a;
    StartExact("GET", "/", "?" + a);
  }

  lemma QueryExample(tail: string)
    ensures Contains(Query("a" + "=" + BLANK_LINE + "" + tail, tail), BLANK_LINE)
  {
    var q := "a" + "=" + BLANK_LINE + "";
    assert q[2..] == BLANK_LINE && q[2..6] == q[2..];
    assert At(q, 2, BLANK_LINE);
    assert (q + tail)[..|q|] == q;
  }

  /** A parameter value that holds a blank line: the request is complete, but it fails before it has arrived. */
  lemma BlankLineInQuery(length: LengthReader) returns (text: string)
    requires length("0") == Some(0)
    ensures WellFormed(text, length) && Parses(text, length, COMPLETE)
    ensures !PrefixesIncomplete(text, length)
  {
    var headers := [("Content-Length", "0")];
    var tail := TailText(VersionText((1, 1)), headers, "");
    TailExact(1, 1, headers, "");
    var a;
    text, a := ExampleText(tail);
    var raw := ExampleParts(text, a, tail, headers);
    FramedExample(raw, length);
    WholeIsComplete(text, length, "");
    PrefixesAreIncomplete(text, length);
  }

  lemma ExampleText(tail: string) returns (text: string, a: string)
    requires " " <= tail
    ensures RequestStart(text) == Ok(("GET", "/"), a) && Params(a) == ([BLANK_VALUE], tail)
    ensures Contains(Query(a, tail), BLANK_LINE)
  {
    a := "a" + "=" + BLANK_LINE + "" + tail;
    text := "GET" + " " + "/" + ("?" + a);
    OneParam("a", BLANK_LINE, tail);
    StartExample(a);
    QueryExample(tail);
  }

  lemma ExampleParts(text: string, a: string, tail: string, headers: seq<Entry>) returns (raw: RawRequest)
    requires RequestStart(text) == Ok(("GET", "/"), a) && Params(a) == ([BLANK_VALUE], tail)
    requires RequestTail(tail) == Ok(((1, 1), headers), "")
    ensures raw == RawRequest("GET", "/", Query(a, tail), [BLANK_VALUE], (1, 1), headers, "")
    ensures RequestText(text) == Ok(raw, "")
  {
    RequestParts(text, ("GET", "/"), a, [BLANK_VALUE], tail, ((1, 1), headers), "");
    raw := RequestText(text).value;
  }

  lemma FramedExample(raw: RawRequest, length: LengthReader)
    requires raw.method_ == "GET" && raw.params == [BLANK_VALUE] && raw.headers == [("Content-Length", "0")]
    requires raw.body == "" && length("0") == Some(0)
    ensures Framed(raw, length)
  {
    assert InsertAll([], raw.headers) == raw.headers by {
      assert MapSorted([] + raw.headers) && [] + raw.headers == raw.headers;
      InsertSortedAll([], raw.headers);
    }
    var headers := raw.headers;
    assert headers[0].0 == "Content-Length" && |headers[0].0| == 14 && |"Content-Type"| == 12;
    assert Lookup(headers, "Content-Type") == Lookup(headers[1..], "Content-Type") == None;
    UnreservedDecodes("a");
    assert raw.params[0] == BLANK_VALUE && raw.params[1..] == [];
    assert !(DATA <= Plus(BLANK_LINE));
    DecodeSkips(Plus(BLANK_LINE), 4);
  }
}
