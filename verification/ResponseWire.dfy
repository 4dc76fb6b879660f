/** Responses on the wire: which codes and error headers mean what, and what a client of the server gets to see. */
module ResponseWire {
  import opened Wrappers
  import opened Text
  import opened HeaderMaps
  import opened NameOrder
  import opened Grammar
  import opened Responses
  import Requests

  /** The codes of the HTTP standards that are supported. Two more are local to the server. */
  const SUPPORTED: set<nat> :=
    {200, 201, 202, 204, 300, 301, 302, 304, 400, 401, 403, 404, 408, 411, 412, 413, 431, 500, 501, 502, 503}

  lemma CodesExactly(n: nat)
    ensures n in CODES <==> n in SUPPORTED || n == 1234 || n == 3210
  {
    assert CODES[..21] == [200, 201, 202, 204, 300, 301, 302, 304, 400, 401, 403, 404, 408, 411, 412, 413, 431, 500,
                           501, 502, 503];
    assert CODES == CODES[..21] + [1234, 3210];
  }

  // ---------------------------------------------------------------- reading

  lemma LowerTextIs(s: string, word: string)
    requires forall i :: 0 <= i < |word| ==> Lower(word[i]) == word[i]
    ensures Requests.LowerText(s) == word <==> SameName(s, word)
  {
    if SameName(s, word) {
      assert forall i :: 0 <= i < |s| ==> Requests.LowerText(s)[i] == word[i];
    }
  }

  /** The local status that the value of the error header names, by number or by word, in any case. */
  lemma ErrorHeaderExactly(value: string)
    ensures CustomStatus(value)
            == if SameName(Trimmed(value), "1234") || SameName(Trimmed(value), "high_load") then Some(1234)
               else if SameName(Trimmed(value), "3210") || SameName(Trimmed(value), "shutdown") then Some(3210)
               else None
  {
    LowerTextIs(Trimmed(value), "1234");
    LowerTextIs(Trimmed(value), "high_load");
    LowerTextIs(Trimmed(value), "3210");
    LowerTextIs(Trimmed(value), "shutdown");
  }

  /** The status of a 503: the one its first error header names, if any. */
  function Unavailable(headers: seq<Entry>): nat {
    match FirstNamed(headers, "X-SmartMet-Error")
    case None => 503
    case Some(value) =>
      var v := Trimmed(value);
      if SameName(v, "1234") || SameName(v, "high_load") then 1234
      else if SameName(v, "3210") || SameName(v, "shutdown") then 3210
      else 503
  }

  lemma RecoveredExactly(code: nat, headers: seq<Entry>)
    ensures RecoverCustomStatusCode(code, InsertAll([], headers)) == if code == 503 then Unavailable(headers) else code
  {
    FirstHeaderWins(headers, "X-SmartMet-Error");
    if FirstNamed(headers, "X-SmartMet-Error").Some? {
      ErrorHeaderExactly(FirstNamed(headers, "X-SmartMet-Error").value);
    }
  }

  /**
   A response that can be parsed has the status of its code. A 503 has the local status its error header names. A code
   that is not supported becomes a bad gateway, or an exception.
   */
  lemma StatusExactly(text: string, caught: bool)
    requires ResponseText(text).Ok?
    ensures var raw, r := ResponseText(text).value, Parsed(text, caught);
            var known := raw.code in SUPPORTED || raw.code == 1234 || raw.code == 3210;
            && (r.Thrown? <==> !known && !caught)
            && (r.Success? ==>
                  && r.value.status == Requests.COMPLETE && r.value.message.Some?
                  && r.value.message.value.status
                     == if raw.code == 503 then Unavailable(raw.headers) else if known then raw.code else 502)
  {
    var raw := ResponseText(text).value;
    CodesExactly(raw.code);
    StatusOfDecimal(raw.code, CODES);
    RecoveredExactly(raw.code, raw.headers);
    RecoveredExactly(502, raw.headers);
  }

  /** A text that cannot be parsed waits for more until an empty line has arrived, and has failed from then on. */
  lemma UnparsedExactly(text: string, caught: bool)
    requires ResponseText(text).Fail?
    ensures Parsed(text, caught)
            == Success(Outcome(if Contains(text, "\r\n\r\n") then Requests.FAILED else Requests.INCOMPLETE, None))
    ensures Contains(text, "\r\n\r\n") <==> exists before, after :: text == before + "\r\n\r\n" + after
  {
    ContainsExactly(text, "\r\n\r\n");
  }

  // ---------------------------------------------------------------- writing

  lemma DecimalOfLocal()
    ensures Decimal(1234) == "1234" && Decimal(3210) == "3210" && Decimal(503) == "503"
  {
    assert Decimal(1) == "1" && Decimal(12) == "12" && Decimal(123) == "123";
    assert Decimal(3) == "3" && Decimal(32) == "32" && Decimal(321) == "321";
    assert Decimal(5) == "5" && Decimal(50) == "50";
  }

  function Wire(m: Message, code: string, headers: seq<Entry>): string {
    "HTTP/" + m.version + " " + code + " " + m.reason + CRLF + Requests.HeaderLines(headers) + CRLF + m.content
  }

  lemma PrintedIsWire(m: Message)
    ensures Printed(m)
            == if m.status == 0 then Thrown else Success(Wire(m, Decimal(StatusLineCode(m.status)), SentHeaders(m)))
  {
  }

  lemma CodeAndHeaders(m: Message)
    ensures m.status == 1234 || m.status == 3210 ==>
              Decimal(StatusLineCode(m.status)) == "503"
              && SentHeaders(m) == [("X-SmartMet-Error", Decimal(m.status))] + m.headers
    ensures m.status in SUPPORTED ==> StatusLineCode(m.status) == m.status && SentHeaders(m) == m.headers
  {
    DecimalOfLocal();
  }

  /**
   What is sent: a status of the standards as it is; a local one as a 503, with its number in the error header before
   all others. A status that was never set cannot be sent.
   */
  lemma SentExactly(m: Message)
    ensures Printed(m).Thrown? <==> m.status == 0
    ensures m.status == 1234 ==> Printed(m) == Success(Wire(m, "503", [("X-SmartMet-Error", "1234")] + m.headers))
    ensures m.status == 3210 ==> Printed(m) == Success(Wire(m, "503", [("X-SmartMet-Error", "3210")] + m.headers))
    ensures m.status in SUPPORTED ==> Printed(m) == Success(Wire(m, Decimal(m.status), m.headers))
  {
    DecimalOfLocal();
    PrintedIsWire(m);
    CodeAndHeaders(m);
  }

  // ---------------------------------------------------------------- phrases

  /** The phrases of section 6 of RFC 7231 and section 5 of RFC 6585, three of them in other words. */
  lemma SuccessPhrases()
    ensures ReasonOf(200) == "OK" && ReasonOf(201) == "Created" && ReasonOf(202) == "Accepted"
    ensures ReasonOf(204) == "No Content"
  {
  }

  lemma RedirectionPhrases()
    ensures ReasonOf(300) == "Multiple Choices" && ReasonOf(301) == "Moved Permanently"
    ensures ReasonOf(302) == "Moved Temporarily" && ReasonOf(304) == "Not Modified"
  {
  }

  lemma ClientErrorPhrases()
    ensures ReasonOf(400) == "Bad Request" && ReasonOf(401) == "Unauthorized" && ReasonOf(403) == "Forbidden"
    ensures ReasonOf(404) == "Not Found" && ReasonOf(408) == "Request Timeout"
  {
  }

  lemma MoreClientErrorPhrases()
    ensures ReasonOf(411) == "Length Required" && ReasonOf(412) == "Precondition Failed"
    ensures ReasonOf(413) == "Request Entity Too Large" && ReasonOf(431) == "Request header fields too large"
  {
  }

  lemma ServerErrorPhrases()
    ensures ReasonOf(500) == "Internal Server Error" && ReasonOf(501) == "Not Implemented"
    ensures ReasonOf(502) == "Bad Gateway" && ReasonOf(503) == "Service Unavailable"
  {
  }

  lemma LocalPhrases()
    ensures ReasonOf(1234) == "High Load in Backend Server" && ReasonOf(3210) == "Shutdown in progress"
  {
  }
}
