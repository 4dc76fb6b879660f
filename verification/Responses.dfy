/** HTTP responses: printing, parsing, and the two local status codes carried through a 503. */
module Responses {
  import opened Wrappers
  import opened Text
  import opened HeaderMaps
  import opened Grammar
  import Requests

  type Status = Requests.Status

  /** A status is its number; 0 stands for a status that was never set. */
  const NOT_A_STATUS: nat := 0
  const BAD_GATEWAY: nat := 502
  const SERVICE_UNAVAILABLE: nat := 503
  const HIGH_LOAD: nat := 1234
  const SHUTDOWN: nat := 3210

  const CODES: seq<nat> :=
    [200, 201, 202, 204, 300, 301, 302, 304, 400, 401, 403, 404, 408, 411, 412, 413, 431, 500, 501, 502, 503, 1234, 3210]

  const ERROR_HEADER: string := "X-SmartMet-Error"

  predicate Local(code: nat) {
    code == HIGH_LOAD || code == SHUTDOWN
  }

  function ReasonOf(code: nat): string {
    if code == 200 then "OK"
    else if code == 201 then "Created"
    else if code == 202 then "Accepted"
    else if code == 204 then "No Content"
    else if code == 300 then "Multiple Choices"
    else if code == 301 then "Moved Permanently"
    else if code == 302 then "Moved Temporarily"
    else if code == 304 then "Not Modified"
    else if code == 400 then "Bad Request"
    else if code == 401 then "Unauthorized"
    else if code == 403 then "Forbidden"
    else if code == 404 then "Not Found"
    else if code == 501 then "Not Implemented"
    else if code == 502 then "Bad Gateway"
    else if code == 503 then "Service Unavailable"
    else if code == 411 then "Length Required"
    else if code == 412 then "Precondition Failed"
    else if code == 413 then "Request Entity Too Large"
    else if code == 431 then "Request header fields too large"
    else if code == 408 then "Request Timeout"
    else if code == 1234 then "High Load in Backend Server"
    else if code == 3210 then "Shutdown in progress"
    else "Internal Server Error"
  }

  /** The chain of comparisons that turns the text of a code into a status. */
  function StatusOfText(text: string, codes: seq<nat>): Option<nat> {
    if codes == [] then None
    else if text == Decimal(codes[0]) then Some(codes[0])
    else StatusOfText(text, codes[1..])
  }

  lemma {:induction false} StatusOfDecimal(n: nat, codes: seq<nat>)
    ensures StatusOfText(Decimal(n), codes) == if n in codes then Some(n) else None
  {
    if codes != [] {
      DecimalRoundTrip(n);
      DecimalRoundTrip(codes[0]);
      StatusOfDecimal(n, codes[1..]);
    }
  }

  /** A response as a value. */
  datatype Message = Message(status: nat, version: string, reason: string, headers: seq<Entry>, content: string)

  datatype Outcome = Outcome(status: Status, message: Option<Message>)

  // ---------------------------------------------------------------- printing

  function StatusLineCode(status: nat): nat {
    if Local(status) then SERVICE_UNAVAILABLE else status
  }

  /** A local status travels in a header of its own, before all others. */
  function SentHeaders(m: Message): seq<Entry> {
    (if Local(m.status) then [(ERROR_HEADER, Decimal(m.status))] else []) + m.headers
  }

  function StatusLine(m: Message): string {
    "HTTP/" + m.version + " " + Decimal(StatusLineCode(m.status)) + " " + m.reason + CRLF
  }

  function HeadText(m: Message): Result<string> {
    if m.status == NOT_A_STATUS then Thrown
    else Success(StatusLine(m) + Requests.HeaderLines(SentHeaders(m)) + CRLF)
  }

  function Printed(m: Message): Result<string> {
    match HeadText(m)
    case Thrown => Thrown
    case Success(head) => Success(head + m.content)
  }

  // ---------------------------------------------------------------- parsing

  function CustomStatus(value: string): Option<nat> {
    var v := Requests.LowerText(Trimmed(value));
    if v == "1234" || v == "high_load" then Some(HIGH_LOAD)
    else if v == "3210" || v == "shutdown" then Some(SHUTDOWN)
    else None
  }

  /** The local status a header map asks for. */
  function Tunnelled(headers: seq<Entry>): Option<nat> {
    match Lookup(headers, ERROR_HEADER)
    case None => None
    case Some(value) => CustomStatus(value)
  }

  function RecoverCustomStatusCode(status: nat, headers: seq<Entry>): nat {
    if status != SERVICE_UNAVAILABLE then status
    else if Tunnelled(headers).Some? then Tunnelled(headers).value
    else status
  }

  /**
   An unknown code makes stringToStatusCode throw. The parser turns a std::runtime_error into a bad gateway; whether
   the exception thrown is one is not part of this model, `caught` stands for it.
   */
  function StatusOfCode(code: nat, caught: bool): Result<nat> {
    match StatusOfText(Decimal(code), CODES)
    case Some(status) => Success(status)
    case None => if caught then Success(BAD_GATEWAY) else Thrown
  }

  function Assembled(raw: RawResponse, status: nat, body: string): Message {
    var headers := InsertAll([], raw.headers);
    Message(RecoverCustomStatusCode(status, headers), Requests.VersionText(raw.version), raw.reason, headers, body)
  }

  function Parsed(text: string, caught: bool): Result<Outcome> {
    match ResponseText(text)
    case Fail =>
      Success(Outcome(if Contains(text, Requests.BLANK_LINE) then Requests.FAILED else Requests.INCOMPLETE, None))
    case Ok(raw, body) =>
      match StatusOfCode(raw.code, caught)
      case Thrown => Thrown
      case Success(status) => Success(Outcome(Requests.COMPLETE, Some(Assembled(raw, status, body))))
  }

  // ---------------------------------------------------------------- the object

  class Response {
    var itsStatus: nat
    var itsVersion: string
    var itsReasonPhrase: string
    var itsHeaders: seq<Entry>
    var itsContent: string

    function Value(): Message
      reads this
    {
      Message(itsStatus, itsVersion, itsReasonPhrase, itsHeaders, itsContent)
    }

    constructor (m: Message)
      ensures Value() == m
    {
      itsStatus, itsVersion, itsReasonPhrase, itsHeaders, itsContent := m.status, m.version, m.reason, m.headers, m.content;
    }

    /** Setting a status by number also sets its standard phrase; an unsupported number throws. */
    method SetStatus(number: nat) returns (r: Result<()>)
      modifies this`itsStatus, this`itsReasonPhrase
      ensures r.Success? <==> number in CODES
      ensures Value() == if number in CODES then old(Value()).(status := number, reason := ReasonOf(number)) else old(Value())
    {
      StatusOfDecimal(number, CODES);
      var known := StatusOfText(Decimal(number), CODES);
      if known.None? {
        return Thrown;
      }
      itsStatus := known.value;
      itsReasonPhrase := ReasonOf(itsStatus);
      return Success(());
    }

    method HeadersToString() returns (r: Result<string>)
      ensures r == HeadText(Value())
    {
      if itsStatus == NOT_A_STATUS {
        return Thrown;
      }
      ghost var m := Value();
      var out := "HTTP/" + itsVersion + " " + Decimal(StatusLineCode(itsStatus)) + " " + itsReasonPhrase + CRLF;
      if Local(itsStatus) {
        FirstLine(out, (ERROR_HEADER, Decimal(itsStatus)), itsHeaders);
        out := out + ERROR_HEADER;
        out := out + ": ";
        out := out + Decimal(itsStatus);
        out := out + CRLF;
      } else {
        assert SentHeaders(m) == itsHeaders;
      }
      var lines := Requests.JoinHeaders(itsHeaders);
      out := out + lines;
      out := out + CRLF;
      return Success(out);
    }
  }

  lemma FirstLine(out: string, e: Entry, headers: seq<Entry>)
    ensures out + e.0 + ": " + e.1 + CRLF + Requests.HeaderLines(headers) == out + Requests.HeaderLines([e] + headers)
  {
    var lines := Requests.HeaderLines(headers);
    assert ([e] + headers)[1..] == headers;
    Regroup6(out, e.0, ": ", e.1, CRLF, lines);
    Regroup5(e.0, ": ", e.1, CRLF, lines);
  }

  method ParseResponseFull(text: string, caught: bool) returns (r: Result<Status>, response: Response?)
    ensures r.Thrown? <==> Parsed(text, caught).Thrown?
    ensures r.Success? ==> r.value == Parsed(text, caught).value.status
    ensures response != null <==> r == Success(Requests.COMPLETE)
    ensures response != null ==> fresh(response) && Some(response.Value()) == Parsed(text, caught).value.message
  {
    var target := ResponseText(text);
    if target.Fail? {
      var found := FindFirst(text, Requests.BLANK_LINE);
      return Success(if found then Requests.FAILED else Requests.INCOMPLETE), null;
    }
    var raw := target.value;
    var headers := Requests.CollectHeaders(raw.headers);
    var code := StatusOfCode(raw.code, caught);
    if code.Thrown? {
      return Thrown, null;
    }
    var status := RecoverCustomStatusCode(code.value, headers);
    response := new Response(Message(status, Requests.VersionText(raw.version), raw.reason, headers, ""));
    if target.rest != "" {
      response.itsContent := target.rest;
    }
    return Success(Requests.COMPLETE), response;
  }
}
