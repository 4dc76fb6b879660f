/** HTTP requests: the object, the printer and the parser with its three-way status. */
module Requests {
  import opened Wrappers
  import opened Text
  import opened Codecs
  import opened HeaderMaps
  import opened Grammar

  datatype Method = GET | POST | OPTIONS

  function MethodName(m: Method): string {
    match m
    case GET => "GET"
    case POST => "POST"
    case OPTIONS => "OPTIONS"
  }

  /** A request as a value. */
  datatype Message = Message(
    method_: Method, resource: string, version: string, headers: seq<Entry>, params: seq<Entry>, content: string, parsedPost: bool)

  const FORM: string := "application/x-www-form-urlencoded"

  function LowerText(s: string): (t: string)
    ensures |t| == |s|
  {
    seq(|s|, i requires 0 <= i < |s| => Lower(s[i]))
  }

  /** The form content type, in any case, with or without parameters after a semicolon. */
  predicate IsForm(contentType: string) {
    FORM <= LowerText(contentType) && (|contentType| == |FORM| || contentType[|FORM|] == ';')
  }

  predicate HasForm(headers: seq<Entry>) {
    Lookup(headers, "Content-Type").Some? && IsForm(Lookup(headers, "Content-Type").value)
  }

  // ---------------------------------------------------------------- printing

  /** Parameters joined by ampersands; the printer of a message leaves the names as they are. */
  function Joined(params: seq<Entry>): string {
    if params == [] then ""
    else params[0].0 + "=" + UrlEncoded(params[0].1) + (if |params| == 1 then "" else "&" + Joined(params[1..]))
  }

  function HeaderLines(headers: seq<Entry>): string {
    if headers == [] then "" else headers[0].0 + ": " + headers[0].1 + CRLF + HeaderLines(headers[1..])
  }

  function QueryText(m: Message): string {
    if m.params != [] && m.method_.GET? then "?" + Joined(m.params) else ""
  }

  function BodyText(m: Message): string {
    match m.method_
    case GET => ""
    case POST => if m.params != [] && HasForm(m.headers) && m.content != "" then Joined(m.params) else m.content
    case OPTIONS => ""
  }

  /** A GET request without parameters must not carry a body. */
  function Printed(m: Message): Result<string> {
    if m.method_.GET? && m.params == [] && m.content != "" then Thrown
    else
      Success(MethodName(m.method_) + " " + m.resource + QueryText(m) + " HTTP/" + m.version + CRLF
              + HeaderLines(m.headers) + CRLF + BodyText(m))
  }

  /** The printer of a URI encodes the names as well. */
  function EncodedNames(params: seq<Entry>): seq<Entry> {
    seq(|params|, i requires 0 <= i < |params| => (UrlEncoded(params[i].0), params[i].1))
  }

  function Uri(m: Message): string {
    m.resource + if m.params == [] then "" else "?" + Joined(EncodedNames(m.params))
  }

  // ---------------------------------------------------------------- parsing

  datatype Status = COMPLETE | INCOMPLETE | FAILED

  datatype Outcome = Outcome(status: Status, message: Option<Message>)

  /** The conversion of the declared length is not part of this model: any function from text may stand for it. */
  type LengthReader = string -> Option<nat>

  const BLANK_LINE: string := "\r\n\r\n"

  function Plus(s: string): (t: string)
    ensures |t| == |s|
  {
    seq(|s|, i requires 0 <= i < |s| => if s[i] == '+' then ' ' else s[i])
  }

  function LineBreaks(s: string): string {
    if s == "" then ""
    else if CRLF <= s then "\n" + LineBreaks(s[2..])
    else [s[0]] + LineBreaks(s[1..])
  }

  /** Decodes the parameters in order; empty names are dropped. */
  function Collected(params: seq<Entry>, raw: seq<Entry>): Result<seq<Entry>>
    decreases |raw|
  {
    if raw == [] then Success(params)
    else
      match UrlDecoded(raw[0].0)
      case Thrown => Thrown
      case Success(name) =>
        if name == "" then Collected(params, raw[1..])
        else
          match UrlDecoded(Plus(raw[0].1))
          case Thrown => Thrown
          case Success(value) => Collected(MultiInsert(params, (name, value)), raw[1..])
  }

  function Tokens(s: string): seq<string>
    decreases |s|
  {
    var n := Find(s, '&', 0);
    if n == |s| then [s] else [s[..n]] + Tokens(s[n + 1..])
  }

  /** Form fields; a name is kept as it is and may be empty. */
  function CollectedForm(params: seq<Entry>, tokens: seq<string>): Result<seq<Entry>>
    decreases |tokens|
  {
    if tokens == [] then Success(params)
    else
      var token := tokens[0];
      var n := Find(token, '=', 0);
      var second := if n == |token| then "" else token[n + 1..];
      match UrlDecoded(LineBreaks(Plus(second)))
      case Thrown => Thrown
      case Success(value) => CollectedForm(MultiInsert(params, (token[..n], value)), tokens[1..])
  }

  function MethodOf(s: string): Option<Method> {
    if s == "GET" then Some(GET)
    else if s == "POST" then Some(POST)
    else if s == "OPTIONS" then Some(OPTIONS)
    else None
  }

  /** COMPLETE when no length is declared or it is the length of the body. */
  function Framing(headers: seq<Entry>, body: string, length: LengthReader): Status {
    match Lookup(headers, "Content-Length")
    case None => COMPLETE
    case Some(declared) =>
      match length(declared)
      case None => FAILED
      case Some(n) => if |body| < n then INCOMPLETE else if |body| > n then FAILED else COMPLETE
  }

  function VersionText(version: (nat, nat)): string {
    Decimal(version.0) + "." + Decimal(version.1)
  }

  function Assembled(raw: RawRequest, params: seq<Entry>, length: LengthReader): Result<Outcome> {
    var headers := InsertAll([], raw.headers);
    var framing := Framing(headers, raw.body, length);
    if MethodOf(raw.method_).None? then Success(Outcome(FAILED, None))
    else if framing != COMPLETE then Success(Outcome(framing, None))
    else
      var form := HasForm(headers);
      match (if form then CollectedForm(params, Tokens(raw.body)) else Success(params))
      case Thrown => Thrown
      case Success(all) =>
        Success(Outcome(COMPLETE, Some(Message(MethodOf(raw.method_).value, raw.resource, VersionText(raw.version),
                                               headers, all, raw.body, form))))
  }

  function Parsed(text: string, length: LengthReader): Result<Outcome> {
    match RequestText(text)
    case Fail => Success(Outcome(if Contains(text, BLANK_LINE) then FAILED else INCOMPLETE, None))
    case Ok(raw, _) =>
      match Collected([], raw.params)
      case Thrown => Thrown
      case Success(params) => Assembled(raw, params, length)
  }

  // ---------------------------------------------------------------- the object

  class Request {
    var itsMethod: Method
    var itsResource: string
    var itsVersion: string
    var itsHeaders: seq<Entry>
    var itsParameters: seq<Entry>
    var itsContent: string
    var itsHasParsedPostData: bool

    function Value(): Message
      reads this
    {
      Message(itsMethod, itsResource, itsVersion, itsHeaders, itsParameters, itsContent, itsHasParsedPostData)
    }

    ghost predicate Valid()
      reads this
    {
      MapSorted(itsHeaders) && MultiSorted(itsParameters)
    }

    constructor (m: Message)
      ensures Value() == m
    {
      itsMethod, itsResource, itsVersion := m.method_, m.resource, m.version;
      itsHeaders, itsParameters := m.headers, m.params;
      itsContent, itsHasParsedPostData := m.content, m.parsedPost;
    }

    method SetHeader(name: string, value: string)
      requires Valid()
      modifies this`itsHeaders
      ensures Valid() && itsHeaders == SetEntry(old(itsHeaders), name, value)
      ensures Lookup(itsHeaders, name) == Some(value)
    {
      SetThenLookup(itsHeaders, name, value, name);
      if Lookup(itsHeaders, name).None? {
        itsHeaders := Insert(itsHeaders, (name, value));
      } else {
        itsHeaders := Overwrite(itsHeaders, name, value);
      }
    }

    method RemoveHeader(name: string)
      requires Valid()
      modifies this`itsHeaders
      ensures Valid() && itsHeaders == Except(old(itsHeaders), name)
      ensures Lookup(itsHeaders, name) == None
    {
      ExceptFacts(itsHeaders, name, name);
      itsHeaders := Except(itsHeaders, name);
    }

    method AddParameter(name: string, value: string)
      requires Valid()
      modifies this`itsParameters
      ensures Valid() && itsParameters == MultiInsert(old(itsParameters), (name, value))
    {
      MultiInsertSorted(itsParameters, (name, value));
      itsParameters := MultiInsert(itsParameters, (name, value));
    }

    method ToString() returns (ret: Result<string>)
      ensures ret == Printed(Value())
    {
      var text := MethodName(itsMethod) + " " + itsResource;
      var body := "";
      if itsParameters != [] {
        if itsMethod.GET? {
          var query := JoinParameters(itsParameters);
          text := text + "?";
          text := text + query;
          assert text == MethodName(itsMethod) + " " + itsResource + QueryText(Value());
        } else if itsMethod.POST? {
          if HasForm(itsHeaders) && itsContent != "" {
            body := JoinParameters(itsParameters);
          } else {
            body := itsContent;
          }
        }
      } else {
        if itsMethod.GET? && itsContent != "" {
          return Thrown;
        }
        if !itsMethod.OPTIONS? {
          body := itsContent;
        }
      }
      assert text == MethodName(itsMethod) + " " + itsResource + QueryText(Value());
      text := text + " HTTP/" + itsVersion + CRLF;
      var lines := JoinHeaders(itsHeaders);
      return Success(text + lines + CRLF + body);
    }

    method GetURI() returns (uri: string)
      ensures uri == Uri(Value())
    {
      uri := itsResource;
      if itsParameters != [] {
        var query := JoinEncoded(itsParameters);
        uri := uri + "?" + query;
      }
    }
  }

  /** All but the last parameter are followed by an ampersand. */
  method JoinParameters(params: seq<Entry>) returns (text: string)
    requires params != []
    ensures text == Joined(params)
  {
    text := "";
    var i := 0;
    while i < |params| - 1
      invariant i <= |params| - 1
      invariant text + Joined(params[i..]) == Joined(params)
    {
      JoinedStep(text, params, i, Joined(params));
      var value := UrlEncode(params[i].1);
      text := text + params[i].0 + "=" + value + "&";
      i := i + 1;
    }
    assert params[i..] == [params[i]];
    var value := UrlEncode(params[i].1);
    text := text + (params[i].0 + "=" + value);
  }

  lemma JoinedStep(text: string, params: seq<Entry>, i: nat, whole: string)
    requires i < |params| - 1 && text + Joined(params[i..]) == whole
    ensures text + params[i].0 + "=" + UrlEncoded(params[i].1) + "&" + Joined(params[i + 1..]) == whole
  {
    assert params[i..][1..] == params[i + 1..];
  }

  method JoinHeaders(headers: seq<Entry>) returns (text: string)
    ensures text == HeaderLines(headers)
  {
    text := "";
    assert headers[0..] == headers;
    for i := 0 to |headers|
      invariant text + HeaderLines(headers[i..]) == HeaderLines(headers)
    {
      LinesStep(text, headers, i, HeaderLines(headers));
      text := text + headers[i].0 + ": " + headers[i].1 + CRLF;
    }
  }

  lemma LinesStep(text: string, headers: seq<Entry>, i: nat, whole: string)
    requires i < |headers| && text + HeaderLines(headers[i..]) == whole
    ensures text + headers[i].0 + ": " + headers[i].1 + CRLF + HeaderLines(headers[i + 1..]) == whole
  {
    assert headers[i..][1..] == headers[i + 1..];
  }

  /** The parameters with an ampersand after each. */
  function Terminated(params: seq<Entry>): string {
    if params == [] then "" else params[0].0 + "=" + UrlEncoded(params[0].1) + "&" + Terminated(params[1..])
  }

  lemma {:induction false} TerminatedIsJoined(params: seq<Entry>)
    requires params != []
    ensures Terminated(params) == Joined(params) + "&"
  {
    var line := params[0].0 + "=" + UrlEncoded(params[0].1);
    if |params| == 1 {
      assert line + "" == line && line + "&" + "" == line + "&";
    } else {
      TerminatedIsJoined(params[1..]);
      var more := Joined(params[1..]);
      Regroup3(line, "&", more);
      Regroup3(line + "&", more, "&");
    }
  }

  lemma TerminatedStep(text: string, params: seq<Entry>, i: nat, whole: string)
    requires i < |params| && text + Terminated(params[i..]) == whole
    ensures text + params[i].0 + "=" + UrlEncoded(params[i].1) + "&" + Terminated(params[i + 1..]) == whole
  {
    assert params[i..][1..] == params[i + 1..] && params[i..][0] == params[i];
    Regroup6(text, params[i].0, "=", UrlEncoded(params[i].1), "&", Terminated(params[i + 1..]));
    Regroup5(params[i].0, "=", UrlEncoded(params[i].1), "&", Terminated(params[i + 1..]));
  }

  /** Every parameter is followed by an ampersand, and the last one is taken away again. */
  method JoinEncoded(params: seq<Entry>) returns (text: string)
    requires params != []
    ensures text == Joined(EncodedNames(params))
  {
    ghost var all := EncodedNames(params);
    ghost var whole := Terminated(all);
    text := "";
    assert all[0..] == all && "" + whole == whole;
    for i := 0 to |params|
      invariant text + Terminated(all[i..]) == whole
    {
      TerminatedStep(text, all, i, whole);
      var name := UrlEncode(params[i].0);
      text := text + name;
      text := text + "=";
      var value := UrlEncode(params[i].1);
      text := text + value;
      text := text + "&";
    }
    TerminatedIsJoined(all);
    assert text + "" == text == Joined(all) + "&";
    text := text[..|text| - 1];
  }

  // ---------------------------------------------------------------- the parser's loops

  method CollectParams(raw: seq<Entry>) returns (r: Result<seq<Entry>>)
    ensures r == Collected([], raw)
  {
    var params: seq<Entry> := [];
    for i := 0 to |raw|
      invariant Collected([], raw) == Collected(params, raw[i..])
    {
      assert raw[i..][1..] == raw[i + 1..];
      var first := UrlDecode(raw[i].0);
      if first.Thrown? {
        return Thrown;
      }
      if first.value != "" {
        var second := UrlDecode(Plus(raw[i].1));
        if second.Thrown? {
          return Thrown;
        }
        params := MultiInsert(params, (first.value, second.value));
      }
    }
    return Success(params);
  }

  method ParseTokens(params: seq<Entry>, body: string) returns (r: Result<seq<Entry>>)
    ensures r == CollectedForm(params, Tokens(body))
  {
    var tokens, all := Tokens(body), params;
    for i := 0 to |tokens|
      invariant CollectedForm(params, Tokens(body)) == CollectedForm(all, tokens[i..])
    {
      assert tokens[i..][1..] == tokens[i + 1..];
      var token := tokens[i];
      var n := Find(token, '=', 0);
      var second := if n == |token| then "" else token[n + 1..];
      var value := UrlDecode(LineBreaks(Plus(second)));
      if value.Thrown? {
        return Thrown;
      }
      all := MultiInsert(all, (token[..n], value.value));
    }
    return Success(all);
  }

  method CollectHeaders(raw: seq<Entry>) returns (headers: seq<Entry>)
    ensures headers == InsertAll([], raw)
  {
    headers := [];
    for i := 0 to |raw|
      invariant InsertAll([], raw) == InsertAll(headers, raw[i..])
    {
      assert raw[i..][1..] == raw[i + 1..];
      headers := Insert(headers, raw[i]);
    }
  }

  /** A null request comes with every status but COMPLETE. */
  method ParseRequest(text: string, length: LengthReader) returns (r: Result<Status>, request: Request?)
    ensures r.Thrown? <==> Parsed(text, length).Thrown?
    ensures r.Success? ==> r.value == Parsed(text, length).value.status
    ensures request != null <==> r == Success(COMPLETE)
    ensures request != null ==> fresh(request) && Some(request.Value()) == Parsed(text, length).value.message
  {
    request := null;
    var target := RequestText(text);
    if target.Fail? {
      var found := FindFirst(text, BLANK_LINE);
      return Success(if found then FAILED else INCOMPLETE), null;
    }
    var raw := target.value;
    var params := CollectParams(raw.params);
    if params.Thrown? {
      return Thrown, null;
    }
    var headers := CollectHeaders(raw.headers);
    var method_ := MethodOf(raw.method_);
    if method_.None? {
      return Success(FAILED), null;
    }
    var framing := Framing(headers, raw.body, length);
    if framing != COMPLETE {
      return Success(framing), null;
    }
    var all, form := params, HasForm(headers);
    if form {
      all := ParseTokens(params.value, raw.body);
      if all.Thrown? {
        return Thrown, null;
      }
    }
    request := new Request(Message(method_.value, raw.resource, VersionText(raw.version), headers, all.value, raw.body, form));
    return Success(COMPLETE), request;
  }
}
