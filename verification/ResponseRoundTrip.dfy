/** What the printer of a response writes, the parser reads back, and when it does not. */
module ResponseRoundTrips {
  import opened Wrappers
  import opened Text
  import opened HeaderMaps
  import opened Grammar
  import opened Responses
  import Requests
  import R = RequestRoundTrips

  /** Not empty, on one line, and not starting with white space. */
  predicate ReasonText(reason: string) {
    reason != "" && AllIn(reason, LineChar) && !In(reason[0], Space)
  }

  ghost predicate Printable(m: Message) {
    && m.status in CODES && R.CanonicalVersion(m.version) && ReasonText(m.reason)
    && MapSorted(m.headers) && R.HeaderTexts(m.headers)
  }

  /** The response that comes back is the one sent, but for the header that carries a local status. */
  predicate Recovered(sent: Message, got: Message) {
    && got.status == sent.status && got.version == sent.version && got.reason == sent.reason
    && got.content == sent.content
    && if Local(sent.status) then
         Except(got.headers, ERROR_HEADER) == Except(sent.headers, ERROR_HEADER)
         && Lookup(got.headers, ERROR_HEADER) == Some(Decimal(sent.status))
       else got.headers == sent.headers
  }

  predicate ReadsBack(m: Message, caught: bool) {
    && Printed(m).Success?
    && var r := Parsed(Printed(m).value, caught);
       r.Success? && r.value.status == Requests.COMPLETE && r.value.message.Some? && Recovered(m, r.value.message.value)
  }

  // ---------------------------------------------------------------- the status line

  /** Everything after the status line. */
  function Rest(m: Message): string {
    Requests.HeaderLines(SentHeaders(m)) + (CRLF + m.content)
  }

  lemma PrintedText(m: Message)
    requires m.status != NOT_A_STATUS
    ensures Printed(m) == Success(StatusLine(m) + Rest(m))
  {
    Regroup4(StatusLine(m), Requests.HeaderLines(SentHeaders(m)), CRLF, m.content);
  }

  function AfterCode(m: Message): string {
    " " + (m.reason + (CRLF + Rest(m)))
  }

  lemma StatusLineGroups(m: Message)
    ensures StatusLine(m) + Rest(m)
            == "HTTP/" + m.version + (" " + (Decimal(StatusLineCode(m.status)) + AfterCode(m)))
  {
    var code := Decimal(StatusLineCode(m.status));
    Regroup6("HTTP/" + m.version, " ", code, " ", m.reason, CRLF);
    Regroup6("HTTP/" + m.version, " ", code, " ", m.reason, CRLF + Rest(m));
    Regroup3("HTTP/" + m.version + " " + code + " " + m.reason, CRLF, Rest(m));
  }

  lemma LineEndsExact(rest: string)
    ensures OneOrMore(CRLF + rest, EndOfLine).Ok? && OneOrMore(CRLF + rest, EndOfLine).rest == Skip(rest, EndOfLine)
  {
    var n := Span(rest, EndOfLine);
    SpanFacts(rest, EndOfLine);
    assert (CRLF + rest)[..2 + n] == CRLF + rest[..n] && (CRLF + rest)[2 + n..] == rest[n..];
    SpanUnique(CRLF + rest, EndOfLine, 2 + n);
  }

  lemma ReasonExact(reason: string, rest: string)
    requires ReasonText(reason) && CRLF <= rest
    ensures OneOrMore(" " + (reason + rest), Space) == Ok(" ", reason + rest)
    ensures OneOrMore(reason + rest, LineChar) == Ok(reason, rest)
  {
    var d := reason + rest;
    assert d[0] == reason[0] && rest[0] == CR;
    R.OneOrMoreExact(" ", d, Space);
    R.OneOrMoreExact(reason, rest, LineChar);
  }

  lemma CodeExact(code: nat, after: string)
    requires code < UINT_LIMIT && Stops(after, Digit)
    ensures OneOrMore(" " + (Decimal(code) + after), Space) == Ok(" ", Decimal(code) + after)
    ensures UInt(Decimal(code) + after) == Ok(code, after)
  {
    var b := Decimal(code) + after;
    assert b[0] == Decimal(code)[0] && In(b[0], Digit);
    R.OneOrMoreExact(" ", b, Space);
    R.UIntExact(code, after);
  }

  lemma StartExact(m: Message, version: (nat, nat))
    requires m.status in CODES && ReasonText(m.reason) && m.version == Requests.VersionText(version)
    requires version.0 < UINT_LIMIT && version.1 < UINT_LIMIT
    ensures ResponseStart(StatusLine(m) + Rest(m))
            == Ok((version, StatusLineCode(m.status), m.reason), Skip(Rest(m), EndOfLine))
  {
    var code := StatusLineCode(m.status);
    var b := Decimal(code) + AfterCode(m);
    StatusLineGroups(m);
    R.VersionExact(version.0, version.1, " " + b);
    CodeExact(code, AfterCode(m));
    ReasonExact(m.reason, CRLF + Rest(m));
    LineEndsExact(Rest(m));
    StartParts(StatusLine(m) + Rest(m), version, " " + b, " ", b, code, AfterCode(m), " ", m.reason + (CRLF + Rest(m)),
               m.reason, CRLF + Rest(m), OneOrMore(CRLF + Rest(m), EndOfLine).value, Skip(Rest(m), EndOfLine));
  }

  lemma StartParts(s: string, version: (nat, nat), a: string, x: string, b: string, code: nat, c: string, y: string,
                   d: string, reason: string, e: string, z: string, f: string)
    requires Version(s) == Ok(version, a) && OneOrMore(a, Space) == Ok(x, b) && UInt(b) == Ok(code, c)
    requires OneOrMore(c, Space) == Ok(y, d) && OneOrMore(d, LineChar) == Ok(reason, e) && OneOrMore(e, EndOfLine) == Ok(z, f)
    ensures ResponseStart(s) == Ok((version, code, reason), f)
  {
  }

  // ---------------------------------------------------------------- headers and body

  lemma {:induction false} DecimalDigits(n: nat)
    ensures AllIn(Decimal(n), LineChar)
  {
    assert forall i :: 0 <= i < |Decimal(n)| ==> In(Decimal(n)[i], Digit);
  }

  lemma SentTexts(m: Message)
    requires R.HeaderTexts(m.headers)
    ensures R.HeaderTexts(SentHeaders(m))
  {
    DecimalDigits(m.status);
  }

  /** Some header line stops the line ends from running into the body. */
  lemma SomeHeader(m: Message)
    requires R.HeaderTexts(m.headers) && SentHeaders(m) != []
    ensures Skip(Rest(m), EndOfLine) == Rest(m)
    ensures Headers(Rest(m)) == (SentHeaders(m), CRLF + m.content)
  {
    SentTexts(m);
    R.HeadersExact(SentHeaders(m), CRLF + m.content);
    var first := SentHeaders(m)[0].0;
    assert In(first[0], NameChar);
    assert Requests.HeaderLines(SentHeaders(m))[0] == first[0] == Rest(m)[0];
    R.SkipNothing(Rest(m), EndOfLine);
  }

  /** Without a header line, whatever is parsed as the end of the head comes after some header. */
  lemma NoHeader(f: string)
    requires Stops(f, EndOfLine) && CRLF <= Headers(f).1
    ensures Headers(f).0 != []
  {
    assert f != "" ==> f[0] != CRLF[0];
  }

  lemma SkipStops(s: string, k: Class)
    ensures Stops(Skip(s, k), k)
  {
    SpanFacts(s, k);
  }

  // ---------------------------------------------------------------- status and header map

  lemma StatusBack(status: nat, caught: bool)
    requires status in CODES
    ensures StatusOfCode(StatusLineCode(status), caught) == Success(StatusLineCode(status))
  {
    StatusOfDecimal(StatusLineCode(status), CODES);
  }

  lemma LocalStatus(status: nat)
    requires Local(status)
    ensures CustomStatus(Decimal(status)) == Some(status)
  {
    assert Decimal(1234) == "1234" && Decimal(3210) == "3210";
    var d := Decimal(status);
    assert Trimmed(d) == d;
    assert Requests.LowerText(d) == d;
  }

  lemma MapBack(m: Message)
    requires MapSorted(m.headers)
    ensures var headers := InsertAll([], SentHeaders(m));
            if Local(m.status) then
              Except(headers, ERROR_HEADER) == Except(m.headers, ERROR_HEADER)
              && Lookup(headers, ERROR_HEADER) == Some(Decimal(m.status))
            else headers == m.headers
  {
    if Local(m.status) {
      var e := (ERROR_HEADER, Decimal(m.status));
      assert SentHeaders(m)[1..] == m.headers && SentHeaders(m)[0] == e && Insert([], e) == [e];
      assert InsertAll([], SentHeaders(m)) == InsertAll([e], m.headers);
      LookupInsertAll([e], m.headers, ERROR_HEADER);
      ExceptInsertAll([e], m.headers, ERROR_HEADER);
      ExceptFacts(m.headers, ERROR_HEADER, ERROR_HEADER);
      assert [] + Except(m.headers, ERROR_HEADER) == Except(m.headers, ERROR_HEADER);
      assert Except([e], ERROR_HEADER) == [];
      InsertSortedAll([], Except(m.headers, ERROR_HEADER));
    } else {
      assert [] + m.headers == m.headers == SentHeaders(m);
      InsertSortedAll([], m.headers);
    }
  }

  // ---------------------------------------------------------------- the theorem

  /** The guard of the one branch that changes a plain status. */
  predicate AsksForLocal(m: Message) {
    m.status == SERVICE_UNAVAILABLE && Tunnelled(m.headers).Some?
  }

  lemma ParsedParts(s: string, version: (nat, nat), code: nat, reason: string, f: string, caught: bool)
    requires ResponseStart(s) == Ok((version, code, reason), f) && CRLF <= Headers(f).1
    requires StatusOfCode(code, caught).Success?
    ensures Parsed(s, caught)
            == Success(Outcome(Requests.COMPLETE,
                               Some(Assembled(RawResponse(version, code, reason, Headers(f).0),
                                              StatusOfCode(code, caught).value, Headers(f).1[2..]))))
  {
  }

  lemma ParsedFails(s: string, version: (nat, nat), code: nat, reason: string, f: string, caught: bool)
    requires ResponseStart(s) == Ok((version, code, reason), f) && !(CRLF <= Headers(f).1)
    ensures Parsed(s, caught).Success? && Parsed(s, caught).value.status != Requests.COMPLETE
  {
  }

  lemma StatusAgain(m: Message)
    requires m.status in CODES && MapSorted(m.headers)
    ensures RecoverCustomStatusCode(StatusLineCode(m.status), InsertAll([], SentHeaders(m))) == m.status <==> !AsksForLocal(m)
  {
    MapBack(m);
    if Local(m.status) {
      LocalStatus(m.status);
    }
  }

  lemma WithHeaders(m: Message, version: (nat, nat), s: string, caught: bool)
    requires m.status in CODES && m.version == Requests.VersionText(version)
    requires MapSorted(m.headers) && R.HeaderTexts(m.headers) && SentHeaders(m) != []
    requires Printed(m) == Success(s)
    requires ResponseStart(s) == Ok((version, StatusLineCode(m.status), m.reason), Skip(Rest(m), EndOfLine))
    ensures ReadsBack(m, caught) <==> !AsksForLocal(m)
  {
    var code, f := StatusLineCode(m.status), Skip(Rest(m), EndOfLine);
    RestParts(m);
    StatusBack(m.status, caught);
    ParsedParts(s, version, code, m.reason, f, caught);
    Reassembled(m, version);
    Judged(m, s, Assembled(RawResponse(version, code, m.reason, SentHeaders(m)), code, m.content), caught);
  }

  lemma RestParts(m: Message)
    requires R.HeaderTexts(m.headers) && SentHeaders(m) != []
    ensures var h := Headers(Skip(Rest(m), EndOfLine));
            h.0 == SentHeaders(m) && CRLF <= h.1 && h.1[2..] == m.content
  {
    SomeHeader(m);
    assert (CRLF + m.content)[2..] == m.content;
  }

  lemma Judged(m: Message, s: string, got: Message, caught: bool)
    requires Printed(m) == Success(s) && Parsed(s, caught) == Success(Outcome(Requests.COMPLETE, Some(got)))
    ensures ReadsBack(m, caught) <==> Recovered(m, got)
  {
  }

  lemma Reassembled(m: Message, version: (nat, nat))
    requires m.status in CODES && m.version == Requests.VersionText(version) && MapSorted(m.headers)
    ensures var code := StatusLineCode(m.status);
            Recovered(m, Assembled(RawResponse(version, code, m.reason, SentHeaders(m)), code, m.content))
            <==> !AsksForLocal(m)
  {
    StatusAgain(m);
    MapBack(m);
  }

  lemma WithoutHeaders(m: Message, version: (nat, nat), s: string, caught: bool)
    requires m.status in CODES && SentHeaders(m) == [] && Printed(m) == Success(s)
    requires ResponseStart(s) == Ok((version, StatusLineCode(m.status), m.reason), Skip(Rest(m), EndOfLine))
    ensures !ReadsBack(m, caught)
  {
    var code, f := StatusLineCode(m.status), Skip(Rest(m), EndOfLine);
    SkipStops(Rest(m), EndOfLine);
    StatusBack(m.status, caught);
    if CRLF <= Headers(f).1 {
      NoHeader(f);
      ParsedParts(s, version, code, m.reason, f, caught);
      SomeInserted(Headers(f).0);
    } else {
      ParsedFails(s, version, code, m.reason, f, caught);
    }
  }

  /**
   A printed response is read back, status and all, exactly when at least one header line is printed and a 503 does
   not itself ask for a local status. The two local codes travel as 503.
   */
  lemma ResponseRoundTrip(m: Message, caught: bool)
    requires Printable(m)
    ensures ReadsBack(m, caught) <==> SentHeaders(m) != [] && !AsksForLocal(m)
  {
    var n: nat, k: nat :| n < UINT_LIMIT && k < UINT_LIMIT && m.version == Requests.VersionText((n, k));
    PrintedText(m);
    StartExact(m, (n, k));
    if SentHeaders(m) != [] {
      WithHeaders(m, (n, k), StatusLine(m) + Rest(m), caught);
    } else {
      WithoutHeaders(m, (n, k), StatusLine(m) + Rest(m), caught);
    }
  }

  lemma {:induction false} InsertAllGrows(m: seq<Entry>, es: seq<Entry>)
    ensures |m| <= |InsertAll(m, es)|
    decreases |es|
  {
    if es != [] {
      InsertGrows(m, es[0]);
      InsertAllGrows(Insert(m, es[0]), es[1..]);
    }
  }

  lemma {:induction false} InsertGrows(m: seq<Entry>, e: Entry)
    ensures |m| <= |Insert(m, e)| && Insert(m, e) != []
  {
    if m != [] {
      InsertGrows(m[1..], e);
    }
  }

  lemma SomeInserted(es: seq<Entry>)
    requires es != []
    ensures InsertAll([], es) != []
  {
    InsertGrows([], es[0]);
    InsertAllGrows(Insert([], es[0]), es[1..]);
  }

  // ---------------------------------------------------------------- what the parser can return

  lemma SpanText(s: string, k: Class)
    requires OneOrMore(s, k).Ok?
    ensures OneOrMore(s, k).value != "" && AllIn(OneOrMore(s, k).value, k)
    ensures Stops(OneOrMore(s, k).rest, k)
  {
    SpanFacts(s, k);
  }

  lemma HeaderIsText(s: string)
    requires Header(s).Ok?
    ensures R.HeaderTexts([Header(s).value])
  {
    SpanText(s, NameChar);
    var b := Literal(OneOrMore(s, NameChar).rest, ": ").rest;
    SpanText(b, LineChar);
  }

  lemma {:induction false} HeadersAreTexts(s: string)
    ensures R.HeaderTexts(Headers(s).0)
    decreases |s|
  {
    if Header(s).Ok? {
      HeaderConsumes(s);
      HeaderIsText(s);
      HeadersAreTexts(Header(s).rest);
      var h, more := Header(s).value, Headers(Header(s).rest).0;
      assert [h][0] == h && Headers(s).0 == [h] + more;
    }
  }

  lemma StartIsText(s: string)
    requires ResponseStart(s).Ok?
    ensures var v := ResponseStart(s).value;
            ReasonText(v.2) && v.0.0 < UINT_LIMIT && v.0.1 < UINT_LIMIT
  {
    var a := Version(s).rest;
    var c := UInt(OneOrMore(a, Space).rest).rest;
    SpanText(c, Space);
    var d := OneOrMore(c, Space).rest;
    SpanText(d, LineChar);
    assert OneOrMore(d, LineChar).value[0] == d[0];
  }

  lemma AssembledIsPrintable(raw: RawResponse, status: nat, body: string)
    requires ReasonText(raw.reason) && raw.version.0 < UINT_LIMIT && raw.version.1 < UINT_LIMIT
    requires R.HeaderTexts(raw.headers) && status in CODES
    ensures Printable(Assembled(raw, status, body)) && !AsksForLocal(Assembled(raw, status, body))
  {
    var headers := InsertAll([], raw.headers);
    InsertAllFacts([], raw.headers);
    forall i | 0 <= i < |headers| ensures R.HeaderTexts([headers[i]]) {
      assert headers[i] in raw.headers;
    }
    forall i | 0 <= i < |headers|
      ensures headers[i].0 != "" && AllIn(headers[i].0, NameChar) && headers[i].1 != "" && AllIn(headers[i].1, LineChar)
    {
      assert R.HeaderTexts([headers[i]]) && [headers[i]][0] == headers[i];
    }
    assert BAD_GATEWAY in CODES && HIGH_LOAD in CODES && SHUTDOWN in CODES by {
      assert CODES[19] == 502 && CODES[21] == 1234 && CODES[22] == 3210;
    }
  }

  lemma {:induction false} KnownStatus(text: string, codes: seq<nat>)
    ensures StatusOfText(text, codes).Some? ==> StatusOfText(text, codes).value in codes
  {
    if codes != [] {
      KnownStatus(text, codes[1..]);
    }
  }

  /**
   Whatever the parser returns is printable and never a 503 that asks for a local status: the hypotheses of the
   round trip are exactly what parsing can produce.
   */
  lemma ParsedIsPrintable(text: string, caught: bool)
    requires Parsed(text, caught).Success? && Parsed(text, caught).value.status == Requests.COMPLETE
    ensures Parsed(text, caught).value.message.Some?
    ensures Printable(Parsed(text, caught).value.message.value) && !AsksForLocal(Parsed(text, caught).value.message.value)
  {
    StartIsText(text);
    var f := ResponseStart(text).rest;
    HeadersAreTexts(f);
    var raw := ResponseText(text).value;
    KnownStatus(Decimal(raw.code), CODES);
    assert CODES[19] == 502;
    AssembledIsPrintable(raw, StatusOfCode(raw.code, caught).value, ResponseText(text).rest);
  }

  /** So a parsed response that has any header line to print survives being printed and parsed again. */
  lemma ParsedAgain(text: string, caught: bool)
    requires Parsed(text, caught).Success? && Parsed(text, caught).value.message.Some?
    ensures var m := Parsed(text, caught).value.message.value;
            ReadsBack(m, caught) <==> Local(m.status) || m.headers != []
  {
    ParsedIsPrintable(text, caught);
    ResponseRoundTrip(Parsed(text, caught).value.message.value, caught);
  }
}
