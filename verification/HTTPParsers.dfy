/**
 The request and response grammars: greedy repetitions without backtracking, as functions from a text to the
 parsed parts and the text left over.
 */
module Grammar {
  import opened Text
  import opened HeaderMaps

  datatype Parse<+T> = Fail | Ok(value: T, rest: string) {
    predicate IsFailure() { Fail? }
    function PropagateFailure<U>(): Parse<U>
      requires Fail?
    {
      Fail
    }
    function Extract(): (T, string)
      requires Ok?
    {
      (value, rest)
    }
  }

  /** Unsigned integers are 32 bits wide; a larger number does not match. */
  const UINT_LIMIT: nat := 0x1_0000_0000

  // ---------------------------------------------------------------- terminals

  function Literal(s: string, t: string): Parse<()> {
    if t <= s then Ok((), s[|t|..]) else Fail
  }

  function OneOrMore(s: string, k: Class): Parse<string> {
    var n := Span(s, k);
    if n == 0 then Fail else Ok(s[..n], s[n..])
  }

  /** The text after zero or more characters of a class. */
  function Skip(s: string, k: Class): string {
    s[Span(s, k)..]
  }

  function UInt(s: string): Parse<nat> {
    var n := Span(s, Digit);
    SpanFacts(s, Digit);
    if n == 0 || NumberOf(s[..n]) >= UINT_LIMIT then Fail else Ok(NumberOf(s[..n]), s[n..])
  }

  // ---------------------------------------------------------------- request

  /** `query` is the stretch of text the parameters were read from. */
  datatype RawRequest = RawRequest(
    method_: string, resource: string, query: string, params: seq<Entry>, version: (nat, nat), headers: seq<Entry>, body: string)

  /** The optional sign, the value and the ampersands after a key. */
  function ParamValue(r: string): (string, string) {
    var v := if "=" <= r then r[1..] else r;
    var n := Span(v, ValueChar);
    (v[..n], Skip(v[n..], Ampersand))
  }

  function ParamPair(s: string): Parse<Entry> {
    var (key, r) :- OneOrMore(Skip(s, Ampersand), KeyChar);
    var (value, rest) := ParamValue(r);
    Ok((key, value), rest)
  }

  /** A text left over is the end of the text it was parsed from. */
  predicate IsEnd(rest: string, s: string)
    decreases |s|
  {
    s == rest || (s != "" && IsEnd(rest, s[1..]))
  }

  lemma {:induction false} EndOfEnd(a: string, b: string, c: string)
    requires IsEnd(a, b) && IsEnd(b, c)
    ensures IsEnd(a, c)
    decreases |c|
  {
    if c != b {
      EndOfEnd(a, b, c[1..]);
    }
  }

  lemma {:induction false} DropIsEnd(s: string, n: nat)
    requires n <= |s|
    ensures IsEnd(s[n..], s)
    decreases n
  {
    if n == 0 {
      assert s[0..] == s;
    } else {
      DropIsEnd(s[1..], n - 1);
      assert s[1..][n - 1..] == s[n..];
    }
  }

  lemma {:induction false} EndFacts(rest: string, s: string)
    requires IsEnd(rest, s)
    ensures |rest| <= |s| && s[|s| - |rest|..] == rest
    decreases |s|
  {
    if s != rest {
      EndFacts(rest, s[1..]);
      assert s[1..][|s| - 1 - |rest|..] == s[|s| - |rest|..];
    }
  }

  lemma ValuePartIsEnd(v: string)
    ensures IsEnd(Skip(v[Span(v, ValueChar)..], Ampersand), v)
  {
    var w := v[Span(v, ValueChar)..];
    DropIsEnd(v, Span(v, ValueChar));
    DropIsEnd(w, Span(w, Ampersand));
    EndOfEnd(Skip(w, Ampersand), w, v);
  }

  lemma ValueIsEnd(r: string)
    ensures IsEnd(ParamValue(r).1, r)
  {
    if "=" <= r {
      ValuePartIsEnd(r[1..]);
      DropIsEnd(r, 1);
      EndOfEnd(ParamValue(r).1, r[1..], r);
    } else {
      ValuePartIsEnd(r);
    }
  }

  lemma PairConsumes(s: string)
    ensures ParamPair(s).Ok? ==> IsEnd(ParamPair(s).rest, s) && |ParamPair(s).rest| < |s|
  {
    if ParamPair(s).Ok? {
      var a := Skip(s, Ampersand);
      DropIsEnd(s, Span(s, Ampersand));
      DropIsEnd(a, Span(a, KeyChar));
      var r := OneOrMore(a, KeyChar).rest;
      ValueIsEnd(r);
      EndOfEnd(r, a, s);
      EndOfEnd(ParamPair(s).rest, r, s);
      EndFacts(ParamPair(s).rest, r);
      EndFacts(a, s);
    }
  }

  function Params(s: string): (r: (seq<Entry>, string))
    ensures |r.1| <= |s|
    decreases |s|
  {
    match ParamPair(s)
    case Fail => ([], s)
    case Ok(pair, rest) =>
      PairConsumes(s);
      var (more, last) := Params(rest);
      ([pair] + more, last)
  }

  lemma {:induction false} ParamsIsEnd(s: string)
    ensures IsEnd(Params(s).1, s)
    decreases |s|
  {
    if ParamPair(s).Ok? {
      PairConsumes(s);
      ParamsIsEnd(ParamPair(s).rest);
      EndOfEnd(Params(s).1, ParamPair(s).rest, s);
    }
  }

  function Version(s: string): Parse<(nat, nat)> {
    var (_, a) :- Literal(s, "HTTP/");
    var (major, b) :- UInt(a);
    var (_, c) :- Literal(b, ".");
    var (minor, d) :- UInt(c);
    Ok((major, minor), d)
  }

  function Header(s: string): Parse<Entry> {
    var (name, a) :- OneOrMore(s, NameChar);
    var (_, b) :- Literal(a, ": ");
    var (value, c) :- OneOrMore(b, LineChar);
    var (_, d) :- Literal(c, CRLF);
    Ok((name, value), d)
  }

  function Headers(s: string): (r: (seq<Entry>, string))
    decreases |s|
  {
    match Header(s)
    case Fail => ([], s)
    case Ok(header, rest) =>
      if |rest| < |s| then
        var (more, last) := Headers(rest);
        ([header] + more, last)
      else ([], s)
  }

  lemma HeaderConsumes(s: string)
    ensures Header(s).Ok? ==> |Header(s).rest| < |s|
  {
  }

  /** Everything after the parameters. */
  function RequestTail(s: string): Parse<((nat, nat), seq<Entry>)> {
    var (version, a) :- Version(Skip(s, Blank));
    var (_, b) :- Literal(a, CRLF);
    var (headers, c) := Headers(b);
    var (_, d) :- Literal(c, CRLF);
    Ok((version, headers), d)
  }

  function DropQuestion(b: string): string {
    if "?" <= b then b[1..] else b
  }

  /** Everything before the parameters. */
  function RequestStart(s: string): Parse<(string, string)> {
    var (method_, a) :- OneOrMore(s, Upper);
    var (resource, b) :- OneOrMore(Skip(a, Blank), ResourceChar);
    Ok((method_, resource), DropQuestion(b))
  }

  function Query(a: string, b: string): string {
    if |b| <= |a| then a[..|a| - |b|] else ""
  }

  function RequestText(s: string): Parse<RawRequest> {
    var (start, a) :- RequestStart(s);
    var (params, b) := Params(a);
    var (tail, body) :- RequestTail(b);
    Ok(RawRequest(start.0, start.1, Query(a, b), params, tail.0, tail.1, body), "")
  }

  // ---------------------------------------------------------------- response

  datatype RawResponse = RawResponse(version: (nat, nat), code: nat, reason: string, headers: seq<Entry>)

  /** Version, code and reason; every line end that follows belongs to the reason. */
  function ResponseStart(s: string): Parse<((nat, nat), nat, string)> {
    var (version, a) :- Version(s);
    var (_, b) :- OneOrMore(a, Space);
    var (code, c) :- UInt(b);
    var (_, d) :- OneOrMore(c, Space);
    var (reason, e) :- OneOrMore(d, LineChar);
    var (_, f) :- OneOrMore(e, EndOfLine);
    Ok((version, code, reason), f)
  }

  /** Only the head is parsed; the text left over is the body. */
  function ResponseText(s: string): Parse<RawResponse> {
    var (start, f) :- ResponseStart(s);
    var (headers, g) := Headers(f);
    var (_, body) :- Literal(g, CRLF);
    Ok(RawResponse(start.0, start.1, start.2, headers), body)
  }
}
