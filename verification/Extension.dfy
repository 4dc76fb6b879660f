/** Text that follows a finished parse does not change it. */
module Extension {
  import opened Text
  import opened HeaderMaps
  import opened Grammar

  lemma LiteralExtend(s: string, t: string, x: string)
    requires Literal(s, t).Ok?
    ensures Literal(s + x, t) == Ok((), Literal(s, t).rest + x)
  {
    assert (s + x)[|t|..] == s[|t|..] + x;
  }

  lemma OneOrMoreExtend(s: string, k: Class, x: string)
    requires OneOrMore(s, k).Ok? && OneOrMore(s, k).rest != ""
    ensures OneOrMore(s + x, k) == Ok(OneOrMore(s, k).value, OneOrMore(s, k).rest + x)
  {
    SpanExtend(s, x, k);
  }

  lemma SkipExtend(s: string, k: Class, x: string)
    requires Skip(s, k) != ""
    ensures Skip(s + x, k) == Skip(s, k) + x
  {
    SpanExtend(s, x, k);
  }

  lemma UIntExtend(s: string, x: string)
    requires UInt(s).Ok? && UInt(s).rest != ""
    ensures UInt(s + x) == Ok(UInt(s).value, UInt(s).rest + x)
  {
    SpanExtend(s, x, Digit);
  }

  lemma ParamValueExtend(r: string, x: string)
    requires r != "" && ParamValue(r).1 != ""
    ensures ParamValue(r + x) == (ParamValue(r).0, ParamValue(r).1 + x)
  {
    var v := if "=" <= r then r[1..] else r;
    assert v != "";
    assert (r + x)[0] == r[0] && (r + x)[1..] == r[1..] + x;
    var w := v[Span(v, ValueChar)..];
    assert w != "";
    SpanExtend(v, x, ValueChar);
    SkipExtend(w, Ampersand, x);
  }

  lemma PairExtend(s: string, x: string)
    requires ParamPair(s).Ok? && ParamPair(s).rest != ""
    ensures ParamPair(s + x) == Ok(ParamPair(s).value, ParamPair(s).rest + x)
  {
    var a := Skip(s, Ampersand);
    SkipExtend(s, Ampersand, x);
    var r := OneOrMore(a, KeyChar).rest;
    assert r != "";
    OneOrMoreExtend(a, KeyChar, x);
    ParamValueExtend(r, x);
  }

  /** The parameters end at a space, or the text that follows cannot be the rest of a request. */
  lemma PairFailsAtSpace(s: string)
    requires " " <= s
    ensures ParamPair(s) == Fail
  {
    assert s[0] == ' ';
    assert Span(s, Ampersand) == 0 && Skip(s, Ampersand) == s;
    assert Span(s, KeyChar) == 0;
  }

  lemma {:induction false} ParamsExtend(s: string, x: string)
    requires " " <= Params(s).1
    ensures Params(s + x) == (Params(s).0, Params(s).1 + x)
    decreases |s|
  {
    if ParamPair(s).Fail? {
      PairFailsAtSpace(s + x);
    } else {
      PairConsumes(s);
      var rest := ParamPair(s).rest;
      assert Params(s).1 == Params(rest).1;
      PairExtend(s, x);
      PairConsumes(s + x);
      ParamsExtend(rest, x);
    }
  }

  lemma VersionExtend(s: string, x: string)
    requires Version(s).Ok? && Version(s).rest != ""
    ensures Version(s + x) == Ok(Version(s).value, Version(s).rest + x)
  {
    LiteralExtend(s, "HTTP/", x);
    var a := Literal(s, "HTTP/").rest;
    UIntExtend(a, x);
    var b := UInt(a).rest;
    LiteralExtend(b, ".", x);
    UIntExtend(Literal(b, ".").rest, x);
  }

  lemma HeaderExtend(s: string, x: string)
    requires Header(s).Ok?
    ensures Header(s + x) == Ok(Header(s).value, Header(s).rest + x)
  {
    OneOrMoreExtend(s, NameChar, x);
    var a := OneOrMore(s, NameChar).rest;
    LiteralExtend(a, ": ", x);
    var b := Literal(a, ": ").rest;
    OneOrMoreExtend(b, LineChar, x);
    LiteralExtend(OneOrMore(b, LineChar).rest, CRLF, x);
  }

  lemma HeaderFailsAtLineEnd(s: string)
    requires CRLF <= s
    ensures Header(s) == Fail
  {
    assert s[0] == CRLF[0] == CR;
    assert Span(s, NameChar) == 0;
  }

  lemma {:induction false} HeadersExtend(s: string, x: string)
    requires CRLF <= Headers(s).1
    ensures Headers(s + x) == (Headers(s).0, Headers(s).1 + x)
    decreases |s|
  {
    if Header(s).Fail? {
      HeaderFailsAtLineEnd(s + x);
    } else {
      HeaderConsumes(s);
      HeaderExtend(s, x);
      HeadersExtend(Header(s).rest, x);
    }
  }

  lemma TailExtend(s: string, x: string)
    requires RequestTail(s).Ok?
    ensures RequestTail(s + x) == Ok(RequestTail(s).value, RequestTail(s).rest + x)
  {
    SkipExtend(s, Blank, x);
    VersionExtend(Skip(s, Blank), x);
    var a := Version(Skip(s, Blank)).rest;
    LiteralExtend(a, CRLF, x);
    var b := Literal(a, CRLF).rest;
    HeadersExtend(b, x);
    LiteralExtend(Headers(b).1, CRLF, x);
  }

  lemma StartExtend(s: string, x: string)
    requires RequestStart(s).Ok? && RequestStart(s).rest != ""
    ensures RequestStart(s + x) == Ok(RequestStart(s).value, RequestStart(s).rest + x)
  {
    OneOrMoreExtend(s, Upper, x);
    var a := OneOrMore(s, Upper).rest;
    SkipExtend(a, Blank, x);
    OneOrMoreExtend(Skip(a, Blank), ResourceChar, x);
    DropExtend(OneOrMore(Skip(a, Blank), ResourceChar).rest, x);
  }

  lemma DropExtend(b: string, x: string)
    requires DropQuestion(b) != ""
    ensures DropQuestion(b + x) == DropQuestion(b) + x
  {
    assert (b + x)[0] == b[0] && (b + x)[1..] == b[1..] + x;
  }

  lemma PairFailsAt(s: string)
    requires ParamPair(s).Fail? && s != ""
    ensures s[0] == '&' || s[0] == '=' || s[0] == ' '
  {
    assert s[0] != '&' ==> Skip(s, Ampersand) == s;
  }

  /** Where the parameters end, a request that goes on has a space. */
  lemma {:induction false} ParamsEndAtSpace(s: string)
    requires RequestTail(Params(s).1).Ok?
    ensures " " <= Params(s).1
    decreases |s|
  {
    if ParamPair(s).Fail? {
      var b := Skip(s, Blank);
      assert b[0] == "HTTP/"[0] == 'H';
      PairFailsAt(s);
      assert !In(s[0], Blank) ==> b == s;
    } else {
      PairConsumes(s);
      ParamsEndAtSpace(ParamPair(s).rest);
    }
  }

  lemma SameQuery(a: string, b: string, x: string)
    requires |b| <= |a|
    ensures Query(a + x, b + x) == Query(a, b)
  {
    assert (a + x)[..|a| - |b|] == a[..|a| - |b|];
  }

  /** A request from its three parts. */
  lemma RequestParts(s: string, start: (string, string), a: string, params: seq<Entry>, b: string,
                     tail: ((nat, nat), seq<Entry>), body: string)
    requires RequestStart(s) == Ok(start, a) && Params(a) == (params, b) && RequestTail(b) == Ok(tail, body)
    ensures RequestText(s) == Ok(RawRequest(start.0, start.1, Query(a, b), params, tail.0, tail.1, body), "")
  {
  }

  /** A parsed request followed by more text parses the same, with the text added to its body. */
  lemma RequestExtend(s: string, x: string)
    requires RequestText(s).Ok?
    ensures RequestText(s + x) == Ok(RequestText(s).value.(body := RequestText(s).value.body + x), "")
  {
    var a := RequestStart(s).rest;
    var (params, b) := Params(a);
    ParamsEndAtSpace(a);
    StartExtend(s, x);
    ParamsExtend(a, x);
    TailExtend(b, x);
    SameQuery(a, b, x);
    RequestParts(s + x, RequestStart(s).value, a + x, params, b + x, RequestTail(b).value, RequestTail(b).rest + x);
  }
}
