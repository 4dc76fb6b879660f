/** What the printer of a request writes, the parser reads back. */
module RequestRoundTrips {
  import opened Wrappers
  import opened Text
  import opened Codecs
  import opened HeaderMaps
  import opened Grammar
  import opened Extension
  import opened Requests

  // ---------------------------------------------------------------- hypotheses

  predicate UnreservedText(s: string) {
    forall i :: 0 <= i < |s| ==> Unreserved(s[i])
  }

  /** Characters an encoded text is made of. */
  predicate EncodedText(s: string) {
    forall i :: 0 <= i < |s| ==> Unreserved(s[i]) || s[i] == '%'
  }

  /** Names are not empty and everything is bytes. */
  predicate ByteParams(params: seq<Entry>) {
    forall i :: 0 <= i < |params| ==> params[i].0 != "" && IsBytes(params[i].0) && IsBytes(params[i].1)
  }

  predicate UnreservedNames(params: seq<Entry>) {
    forall i :: 0 <= i < |params| ==> UnreservedText(params[i].0)
  }

  predicate HeaderTexts(headers: seq<Entry>) {
    forall i :: 0 <= i < |headers| ==>
      headers[i].0 != "" && AllIn(headers[i].0, NameChar) && headers[i].1 != "" && AllIn(headers[i].1, LineChar)
  }

  ghost predicate CanonicalVersion(version: string) {
    exists n: nat, m: nat :: n < UINT_LIMIT && m < UINT_LIMIT && version == VersionText((n, m))
  }

  /** A request as the setters of the class can build it, with printable parts. */
  ghost predicate Printable(m: Message) {
    && m.resource != "" && AllIn(m.resource, ResourceChar) && CanonicalVersion(m.version)
    && MapSorted(m.headers) && HeaderTexts(m.headers) && MultiSorted(m.params) && ByteParams(m.params)
  }

  /** The declared length, if any, is the length of the body. */
  predicate LengthFits(headers: seq<Entry>, body: string, length: LengthReader) {
    Lookup(headers, "Content-Length").Some? ==> length(Lookup(headers, "Content-Length").value) == Some(|body|)
  }

  // ---------------------------------------------------------------- terminals

  lemma OneOrMoreExact(a: string, b: string, k: Class)
    requires a != "" && AllIn(a, k) && Stops(b, k)
    ensures OneOrMore(a + b, k) == Ok(a, b)
  {
    SpanExact(a, b, k);
  }

  lemma LiteralExact(t: string, b: string)
    ensures Literal(t + b, t) == Ok((), b)
  {
    assert (t + b)[|t|..] == b;
  }

  lemma UIntExact(n: nat, b: string)
    requires n < UINT_LIMIT && Stops(b, Digit)
    ensures UInt(Decimal(n) + b) == Ok(n, b)
  {
    SpanExact(Decimal(n), b, Digit);
    DecimalRoundTrip(n);
  }

  lemma VersionExact(n: nat, m: nat, b: string)
    requires n < UINT_LIMIT && m < UINT_LIMIT && Stops(b, Digit)
    ensures Version("HTTP/" + VersionText((n, m)) + b) == Ok((n, m), b)
  {
    var d := Decimal(m) + b;
    var c := "." + d;
    var a := Decimal(n) + c;
    Regroup4(Decimal(n), ".", Decimal(m), b);
    Regroup3("HTTP/", VersionText((n, m)), b);
    LiteralExact("HTTP/", a);
    UIntExact(n, c);
    LiteralExact(".", d);
    UIntExact(m, b);
  }

  // ---------------------------------------------------------------- headers

  lemma HeaderExact(name: string, value: string, rest: string)
    requires name != "" && AllIn(name, NameChar) && value != "" && AllIn(value, LineChar)
    ensures Header(name + ": " + value + CRLF + rest) == Ok((name, value), rest)
  {
    var c := CRLF + rest;
    var b := value + c;
    var a := ": " + b;
    Regroup5(name, ": ", value, CRLF, rest);
    OneOrMoreExact(name, a, NameChar);
    LiteralExact(": ", b);
    OneOrMoreExact(value, c, LineChar);
    LiteralExact(CRLF, rest);
  }

  lemma {:induction false} HeadersExact(headers: seq<Entry>, rest: string)
    requires HeaderTexts(headers) && CRLF <= rest
    ensures Headers(HeaderLines(headers) + rest) == (headers, rest)
  {
    if headers == [] {
      assert HeaderLines(headers) + rest == rest;
      HeaderFailsAtLineEnd(rest);
    } else {
      var h, more := headers[0], HeaderLines(headers[1..]) + rest;
      Regroup3(h.0 + ": " + h.1 + CRLF, HeaderLines(headers[1..]), rest);
      HeaderExact(h.0, h.1, more);
      HeadersExact(headers[1..], rest);
      assert headers == [h] + headers[1..];
    }
  }

  /** Everything after the URI. */
  function TailText(version: string, headers: seq<Entry>, body: string): string {
    " HTTP/" + version + CRLF + HeaderLines(headers) + CRLF + body
  }

  lemma TailExact(n: nat, m: nat, headers: seq<Entry>, body: string)
    requires n < UINT_LIMIT && m < UINT_LIMIT && HeaderTexts(headers)
    ensures RequestTail(TailText(VersionText((n, m)), headers, body)) == Ok(((n, m), headers), body)
    ensures " " <= TailText(VersionText((n, m)), headers, body)
  {
    var d := CRLF + body;
    var c := HeaderLines(headers) + d;
    var b := CRLF + c;
    var a := "HTTP/" + VersionText((n, m)) + b;
    Regroup6(" HTTP/", VersionText((n, m)), CRLF, HeaderLines(headers), CRLF, body);
    Regroup3("HTTP/", VersionText((n, m)), b);
    Regroup3(" ", "HTTP/", VersionText((n, m)) + b);
    assert " HTTP/" == " " + "HTTP/";
    assert TailText(VersionText((n, m)), headers, body) == " " + a;
    SkipBlank(a);
    VersionExact(n, m, b);
    LiteralExact(CRLF, c);
    HeadersExact(headers, d);
    LiteralExact(CRLF, body);
  }

  lemma SkipBlank(a: string)
    requires Stops(a, Blank)
    ensures Skip(" " + a, Blank) == a
  {
    SpanExact(" ", a, Blank);
  }

  // ---------------------------------------------------------------- parameters

  /** The parameters as the grammar sees them. */
  function RawParams(params: seq<Entry>): seq<Entry> {
    seq(|params|, i requires 0 <= i < |params| => (params[i].0, UrlEncoded(params[i].1)))
  }

  predicate EncodedNamesIn(params: seq<Entry>) {
    forall i :: 0 <= i < |params| ==> params[i].0 != "" && EncodedText(params[i].0)
  }

  lemma SkipNothing(s: string, k: Class)
    requires Stops(s, k)
    ensures Skip(s, k) == s
  {
    SpanExact("", s, k);
    assert "" + s == s;
  }

  /** One pair, up to the space or over the single ampersand that follows it. */
  lemma PairExact(name: string, value: string, sep: string, rest: string)
    requires name != "" && AllIn(name, KeyChar) && AllIn(value, ValueChar)
    requires sep == "&" || (sep == "" && " " <= rest)
    requires Stops(rest, Ampersand)
    ensures ParamPair(name + "=" + value + sep + rest) == Ok((name, value), rest)
  {
    var c := sep + rest;
    var b := value + c;
    var a := "=" + b;
    Regroup5(name, "=", value, sep, rest);
    assert (name + a)[0] == name[0];
    SkipNothing(name + a, Ampersand);
    OneOrMoreExact(name, a, KeyChar);
    ValueExact(value, sep, rest);
  }

  lemma ValueExact(value: string, sep: string, rest: string)
    requires AllIn(value, ValueChar) && Stops(rest, Ampersand)
    requires sep == "&" || (sep == "" && " " <= rest)
    ensures ParamValue("=" + (value + (sep + rest))) == (value, rest)
  {
    var c := sep + rest;
    assert ("=" + (value + c))[1..] == value + c;
    SpanExact(value, c, ValueChar);
    SpanExact(sep, rest, Ampersand);
  }

  /** Names and values as they are, joined by ampersands. */
  function Pairs(raw: seq<Entry>): string {
    if raw == [] then "" else raw[0].0 + "=" + raw[0].1 + (if |raw| == 1 then "" else "&" + Pairs(raw[1..]))
  }

  /** Texts the grammar takes as a name and a value. */
  predicate PairTexts(raw: seq<Entry>) {
    forall i :: 0 <= i < |raw| ==> raw[i].0 != "" && AllIn(raw[i].0, KeyChar) && AllIn(raw[i].1, ValueChar)
  }

  lemma PairsSplit(raw: seq<Entry>, tail: string)
    requires raw != []
    ensures Pairs(raw) + tail == raw[0].0 + "=" + raw[0].1 + Separator(raw) + (Pairs(raw[1..]) + tail)
  {
    var line, more := raw[0].0 + "=" + raw[0].1, Pairs(raw[1..]);
    assert |raw| == 1 ==> Separator(raw) + more == "";
    assert Pairs(raw) == line + (Separator(raw) + more);
    Regroup3(line, Separator(raw), more);
    Regroup3(line + Separator(raw), more, tail);
  }

  function Separator(raw: seq<Entry>): string {
    if |raw| == 1 then "" else "&"
  }

  lemma PairsStart(raw: seq<Entry>, tail: string)
    requires PairTexts(raw) && " " <= tail
    ensures Stops(Pairs(raw) + tail, Ampersand) && (raw == [] ==> Pairs(raw) + tail == tail)
  {
    if raw != [] {
      PairsSplit(raw, tail);
      assert (Pairs(raw) + tail)[0] == raw[0].0[0];
    } else {
      assert Pairs(raw) + tail == tail;
    }
  }

  lemma FirstPair(raw: seq<Entry>, tail: string)
    requires raw != [] && PairTexts(raw) && " " <= tail
    ensures ParamPair(Pairs(raw) + tail) == Ok(raw[0], Pairs(raw[1..]) + tail)
  {
    PairsSplit(raw, tail);
    PairsStart(raw[1..], tail);
    PairExact(raw[0].0, raw[0].1, Separator(raw), Pairs(raw[1..]) + tail);
  }

  lemma ParamsStep(s: string, pair: Entry, rest: string, more: seq<Entry>, tail: string)
    requires ParamPair(s) == Ok(pair, rest) && Params(rest) == (more, tail)
    ensures Params(s) == ([pair] + more, tail)
  {
  }

  /** The grammar reads the pairs back, whatever the names and values are. */
  lemma {:induction false} PairsExact(raw: seq<Entry>, tail: string)
    requires PairTexts(raw) && " " <= tail
    ensures Params(Pairs(raw) + tail) == (raw, tail)
  {
    if raw == [] {
      PairsEnd(tail);
    } else {
      FirstPair(raw, tail);
      PairsExact(raw[1..], tail);
      ParamsStep(Pairs(raw) + tail, raw[0], Pairs(raw[1..]) + tail, raw[1..], tail);
      assert raw == [raw[0]] + raw[1..];
    }
  }

  lemma PairsEnd(tail: string)
    requires " " <= tail
    ensures Params(Pairs([]) + tail) == ([], tail)
  {
    PairFailsAtSpace(tail);
    assert Pairs([]) + tail == tail;
  }

  lemma RawParamsCons(params: seq<Entry>)
    requires params != []
    ensures RawParams(params) == [(params[0].0, UrlEncoded(params[0].1))] + RawParams(params[1..])
  {
  }

  lemma {:induction false} JoinedIsPairs(params: seq<Entry>)
    ensures Joined(params) == Pairs(RawParams(params))
  {
    if params != [] {
      RawParamsCons(params);
      JoinedIsPairs(params[1..]);
    }
  }

  lemma ParamsExact(params: seq<Entry>, tail: string)
    requires EncodedNamesIn(params) && " " <= tail
    ensures Params(Joined(params) + tail) == (RawParams(params), tail)
  {
    forall i | 0 <= i < |params| ensures AllIn(UrlEncoded(params[i].1), ValueChar) {
      EncodedChars(params[i].1);
    }
    JoinedIsPairs(params);
    PairsExact(RawParams(params), tail);
  }

  lemma PlusOfEncoded(s: string)
    ensures Plus(UrlEncoded(s)) == UrlEncoded(s)
  {
    EncodedChars(s);
  }

  /** Decoding the pairs in order puts the sorted multimap back together. */
  lemma {:induction false} CollectedExact(done: seq<Entry>, params: seq<Entry>)
    requires MultiSorted(done + params) && ByteParams(params)
    ensures Collected(done, RawParams(EncodedNames(params))) == Success(done + params)
    decreases |params|
  {
    if params == [] {
      assert done + params == done;
    } else {
      var raw, p := RawParams(EncodedNames(params)), params[0];
      UrlRoundTrip(p.0);
      UrlRoundTrip(p.1);
      PlusOfEncoded(p.1);
      MultiInsertNext(done, params);
      assert raw[1..] == RawParams(EncodedNames(params[1..]));
      CollectedExact(done + [p], params[1..]);
    }
  }

  lemma {:induction false} NamesEncoded(params: seq<Entry>)
    requires ByteParams(params)
    ensures EncodedNamesIn(EncodedNames(params))
  {
    forall i | 0 <= i < |params| ensures UrlEncoded(params[i].0) != "" && EncodedText(UrlEncoded(params[i].0)) {
      EncodedChars(params[i].0);
    }
  }

  // ---------------------------------------------------------------- the request line

  lemma StartExact(name: string, resource: string, rest: string)
    requires name != "" && AllIn(name, Upper) && resource != "" && AllIn(resource, ResourceChar)
    requires " " <= rest || "?" <= rest
    ensures RequestStart(name + " " + resource + rest) == Ok((name, resource), DropQuestion(rest))
  {
    var b := resource + rest;
    var a := " " + b;
    Regroup4(name, " ", resource, rest);
    OneOrMoreExact(name, a, Upper);
    SpanExact(" ", b, Blank);
    OneOrMoreExact(resource, rest, ResourceChar);
  }

  /** A request line with a URI as GetURI prints it, the headers, the blank line and the body. */
  function RequestWithUri(m: Message, body: string): string {
    MethodName(m.method_) + " " + Uri(m) + TailText(m.version, m.headers, body)
  }

  /** The text from the end of the resource on. */
  function FromQuery(params: seq<Entry>, tail: string): string {
    (if params == [] then "" else "?" + Joined(params)) + tail
  }

  lemma FromQueryFacts(params: seq<Entry>, tail: string)
    requires " " <= tail
    ensures DropQuestion(FromQuery(params, tail)) == Joined(params) + tail
    ensures " " <= FromQuery(params, tail) || "?" <= FromQuery(params, tail)
  {
    if params == [] {
      assert FromQuery(params, tail) == tail && Joined(params) + tail == tail;
      assert tail[0] == ' ';
    } else {
      Regroup3("?", Joined(params), tail);
      assert ("?" + (Joined(params) + tail))[1..] == Joined(params) + tail;
    }
  }

  lemma UriText(m: Message, body: string)
    ensures var tail := TailText(m.version, m.headers, body);
            RequestWithUri(m, body) == MethodName(m.method_) + " " + m.resource + FromQuery(EncodedNames(m.params), tail)
  {
    var tail, name := TailText(m.version, m.headers, body), MethodName(m.method_) + " ";
    var all := EncodedNames(m.params);
    var query := if all == [] then "" else "?" + Joined(all);
    assert all == [] <==> m.params == [];
    Regroup3(name, m.resource, query);
    Regroup3(name + m.resource, query, tail);
  }

  lemma StartOfUri(m: Message, body: string)
    requires m.resource != "" && AllIn(m.resource, ResourceChar) && " " <= TailText(m.version, m.headers, body)
    ensures RequestStart(RequestWithUri(m, body))
            == Ok((MethodName(m.method_), m.resource),
                  Joined(EncodedNames(m.params)) + TailText(m.version, m.headers, body))
  {
    var tail, all := TailText(m.version, m.headers, body), EncodedNames(m.params);
    UriText(m, body);
    FromQueryFacts(all, tail);
    StartExact(MethodName(m.method_), m.resource, FromQuery(all, tail));
  }

  lemma RequestExact(m: Message, version: (nat, nat), body: string) returns (query: string)
    requires m.resource != "" && AllIn(m.resource, ResourceChar) && HeaderTexts(m.headers) && ByteParams(m.params)
    requires version.0 < UINT_LIMIT && version.1 < UINT_LIMIT && m.version == VersionText(version)
    ensures RequestText(RequestWithUri(m, body))
            == Ok(RawRequest(MethodName(m.method_), m.resource, query, RawParams(EncodedNames(m.params)), version,
                             m.headers, body), "")
  {
    var tail, all := TailText(m.version, m.headers, body), EncodedNames(m.params);
    TailExact(version.0, version.1, m.headers, body);
    StartOfUri(m, body);
    NamesEncoded(m.params);
    ParamsExact(all, tail);
    var a := Joined(all) + tail;
    query := Query(a, tail);
    RequestParts(RequestWithUri(m, body), (MethodName(m.method_), m.resource), a, RawParams(all), tail,
                 (version, m.headers), body);
  }

  // ---------------------------------------------------------------- the theorems

  /** The printed URI, in a request line of any method, brings back every name and every value. */
  lemma UriRoundTrip(m: Message, length: LengthReader)
    requires Printable(m) && !HasForm(m.headers) && LengthFits(m.headers, m.content, length)
    ensures Parsed(RequestWithUri(m, m.content), length) == Success(Outcome(COMPLETE, Some(m.(parsedPost := false))))
  {
    var n: nat, k: nat :| n < UINT_LIMIT && k < UINT_LIMIT && m.version == VersionText((n, k));
    var query := RequestExact(m, (n, k), m.content);
    assert [] + m.params == m.params;
    CollectedExact([], m.params);
    AssembledExact(RawRequest(MethodName(m.method_), m.resource, query, RawParams(EncodedNames(m.params)), (n, k),
                              m.headers, m.content), m, length);
  }

  lemma AssembledExact(raw: RawRequest, m: Message, length: LengthReader)
    requires raw.method_ == MethodName(m.method_) && raw.resource == m.resource && VersionText(raw.version) == m.version
    requires raw.headers == m.headers && raw.body == m.content
    requires MapSorted(m.headers) && !HasForm(m.headers) && LengthFits(m.headers, m.content, length)
    ensures Assembled(raw, m.params, length) == Success(Outcome(COMPLETE, Some(m.(parsedPost := false))))
  {
    assert [] + m.headers == m.headers;
    InsertSortedAll([], m.headers);
  }

  lemma {:induction false} UnreservedUnchanged(s: string)
    requires UnreservedText(s)
    ensures UrlEncoded(s) == s
  {
    if s != "" {
      UnreservedUnchanged(s[1..]);
      assert s == [s[0]] + s[1..];
    }
  }

  lemma NamesUnchanged(params: seq<Entry>)
    requires UnreservedNames(params)
    ensures EncodedNames(params) == params
  {
    forall i | 0 <= i < |params| ensures EncodedNames(params)[i] == params[i] {
      UnreservedUnchanged(params[i].0);
    }
  }

  /**
   Printing and parsing is the identity. ToString leaves names as they are, so they have to be unreserved; only
   GET prints the parameters, and only POST prints the content.
   */
  lemma RequestRoundTrip(m: Message, length: LengthReader)
    requires Printable(m) && UnreservedNames(m.params) && !m.parsedPost
    requires !HasForm(m.headers) && LengthFits(m.headers, m.content, length)
    requires m.method_.GET? || m.params == []
    requires m.method_.POST? || m.content == ""
    ensures Printed(m).Success?
    ensures Parsed(Printed(m).value, length) == Success(Outcome(COMPLETE, Some(m)))
  {
    NamesUnchanged(m.params);
    PrintedText(m);
    UriRoundTrip(m, length);
  }

  /** What ToString prints of a request that is no form: the parameters of a GET, the content of a POST. */
  function Kept(m: Message): Message {
    m.(params := if m.method_ == GET then m.params else [], content := if m.method_ == POST then m.content else "")
  }

  /**
   For any request but a form: printing throws exactly for a GET request with content and no parameters; otherwise
   what is printed is read back, and it is the request itself exactly when nothing of it is left out.
   */
  lemma RoundTripExactly(m: Message, length: LengthReader)
    requires Printable(m) && UnreservedNames(m.params) && !m.parsedPost
    requires !HasForm(m.headers) && LengthFits(m.headers, Kept(m).content, length)
    ensures Printed(m).Thrown? <==> m.method_ == GET && m.params == [] && m.content != ""
    ensures Printed(m).Success? ==>
              Parsed(Printed(m).value, length) == Success(Outcome(COMPLETE, Some(Kept(m))))
    ensures Kept(m) == m <==> (m.method_ == GET || m.params == []) && (m.method_ == POST || m.content == "")
  {
    RequestRoundTrip(Kept(m), length);
    assert QueryText(Kept(m)) == QueryText(m) && BodyText(Kept(m)) == BodyText(m);
  }

  lemma PrintedText(m: Message)
    requires EncodedNames(m.params) == m.params
    requires m.method_.GET? || m.params == []
    requires m.method_.POST? || m.content == ""
    ensures Printed(m) == Success(RequestWithUri(m, m.content))
  {
    var start := MethodName(m.method_) + " " + m.resource + QueryText(m);
    var a, b, c := HeaderLines(m.headers), CRLF, m.content;
    Regroup3(MethodName(m.method_) + " ", m.resource, QueryText(m));
    assert QueryText(m) == if m.params == [] then "" else "?" + Joined(m.params);
    assert BodyText(m) == c;
    assert " HTTP/" + m.version + CRLF + a + CRLF + c == TailText(m.version, m.headers, c);
    PrintedGroups(start, " HTTP/", m.version, CRLF, a, c);
    assert m.resource + "" == m.resource;
  }

  lemma PrintedGroups(start: string, http: string, version: string, eol: string, lines: string, body: string)
    ensures start + http + version + eol + (lines) + eol + body == start + (http + version + eol + lines + eol + body)
  {
    Regroup6(http, version, eol, lines, eol, body);
    Regroup6(start, http, version, eol, lines, eol + body);
    Regroup3(start + http + version + eol + lines, eol, body);
  }

  // ---------------------------------------------------------------- posted forms

  /** Names of form fields are neither encoded nor decoded. */
  predicate FormNames(params: seq<Entry>) {
    forall i :: 0 <= i < |params| ==> '&' !in params[i].0 && '=' !in params[i].0 && IsBytes(params[i].1)
  }

  function Field(p: Entry): string {
    p.0 + "=" + UrlEncoded(p.1)
  }

  function Fields(params: seq<Entry>): seq<string> {
    seq(|params|, i requires 0 <= i < |params| => Field(params[i]))
  }

  lemma FieldChars(p: Entry)
    requires '&' !in p.0
    ensures '&' !in Field(p)
  {
    EncodedChars(p.1);
  }

  lemma TokensCons(token: string, rest: string)
    requires '&' !in token
    ensures Tokens(token) == [token]
    ensures Tokens(token + "&" + rest) == [token] + Tokens(rest)
  {
    var s := token + "&" + rest;
    assert s[|token|] == '&' && forall k :: 0 <= k < |token| ==> s[k] == token[k];
    assert Find(s, '&', 0) == |token| && s[..|token|] == token && s[|token| + 1..] == rest;
  }

  lemma {:induction false} TokensOfJoined(params: seq<Entry>)
    requires params != [] && FormNames(params)
    ensures Tokens(Joined(params)) == Fields(params)
  {
    FieldChars(params[0]);
    TokensCons(Field(params[0]), Joined(params[1..]));
    assert Fields(params) == [Field(params[0])] + Fields(params[1..]);
    if |params| == 1 {
      assert Joined(params) == Field(params[0]) + "" == Field(params[0]);
    } else {
      TokensOfJoined(params[1..]);
      Regroup3(Field(params[0]), "&", Joined(params[1..]));
      assert Joined(params) == Field(params[0]) + "&" + Joined(params[1..]);
    }
  }

  lemma {:induction false} NoLineBreaks(s: string)
    requires EncodedText(s)
    ensures LineBreaks(s) == s
  {
    if s != "" {
      assert !(CRLF <= s) by {
        assert CRLF[0] == CR;
      }
      NoLineBreaks(s[1..]);
      assert s == [s[0]] + s[1..];
    }
  }

  lemma FieldParts(p: Entry)
    requires '=' !in p.0
    ensures Find(Field(p), '=', 0) == |p.0| < |Field(p)|
    ensures Field(p)[..|p.0|] == p.0 && Field(p)[|p.0| + 1..] == UrlEncoded(p.1)
  {
    var s := Field(p);
    assert s[|p.0|] == '=' && forall k :: 0 <= k < |p.0| ==> s[k] == p.0[k];
  }

  /** One field more. */
  lemma FormStep(done: seq<Entry>, params: seq<Entry>)
    requires params != [] && FormNames(params)
    ensures CollectedForm(done, Fields(params)) == CollectedForm(MultiInsert(done, params[0]), Fields(params[1..]))
  {
    var p := params[0];
    FieldParts(p);
    EncodedChars(p.1);
    PlusOfEncoded(p.1);
    NoLineBreaks(UrlEncoded(p.1));
    UrlRoundTrip(p.1);
    assert Fields(params)[1..] == Fields(params[1..]);
  }

  lemma {:induction false} FormExact(done: seq<Entry>, params: seq<Entry>)
    requires MultiSorted(done + params) && FormNames(params)
    ensures CollectedForm(done, Fields(params)) == Success(done + params)
    decreases |params|
  {
    if params == [] {
      assert done + params == done;
    } else {
      FormStep(done, params);
      MultiInsertNext(done, params);
      FormExact(done + [params[0]], params[1..]);
    }
  }

  lemma FormText(m: Message)
    requires m.method_.POST? && m.params != [] && HasForm(m.headers) && m.content != ""
    ensures Printed(m) == Success(RequestWithUri(m.(params := []), Joined(m.params)))
  {
    assert m.resource + "" == m.resource;
    PrintedGroups(MethodName(m.method_) + " " + m.resource + QueryText(m), " HTTP/", m.version, CRLF, HeaderLines(m.headers),
                  Joined(m.params));
    assert MethodName(m.method_) + " " + m.resource + "" == MethodName(m.method_) + " " + m.resource;
    Regroup3(MethodName(m.method_) + " ", m.resource, "");
  }

  /** A posted form comes back with its fields; its content is the printed form. */
  lemma FormRoundTrip(m: Message, length: LengthReader)
    requires m.resource != "" && AllIn(m.resource, ResourceChar) && CanonicalVersion(m.version)
    requires MapSorted(m.headers) && HeaderTexts(m.headers) && MultiSorted(m.params) && FormNames(m.params)
    requires m.method_.POST? && m.params != [] && HasForm(m.headers) && m.content != ""
    requires LengthFits(m.headers, Joined(m.params), length)
    ensures Printed(m).Success?
    ensures Parsed(Printed(m).value, length)
            == Success(Outcome(COMPLETE, Some(m.(content := Joined(m.params), parsedPost := true))))
  {
    FormText(m);
    var n: nat, k: nat :| n < UINT_LIMIT && k < UINT_LIMIT && m.version == VersionText((n, k));
    var query := RequestExact(m.(params := []), (n, k), Joined(m.params));
    TokensOfJoined(m.params);
    assert [] + m.params == m.params;
    FormExact([], m.params);
    FormAssembled(RawRequest("POST", m.resource, query, [], (n, k), m.headers, Joined(m.params)), m, length);
    assert RawParams(EncodedNames([])) == [];
  }

  lemma FormAssembled(raw: RawRequest, m: Message, length: LengthReader)
    requires raw.method_ == "POST" && m.method_ == POST && raw.resource == m.resource
    requires VersionText(raw.version) == m.version && raw.headers == m.headers && raw.body == Joined(m.params)
    requires CollectedForm([], Tokens(raw.body)) == Success(m.params)
    requires MapSorted(m.headers) && HasForm(m.headers) && LengthFits(m.headers, raw.body, length)
    ensures Assembled(raw, [], length)
            == Success(Outcome(COMPLETE, Some(m.(content := raw.body, parsedPost := true))))
  {
    assert [] + m.headers == m.headers;
    InsertSortedAll([], m.headers);
  }
}
