/**
 What clients send: names, values and form fields in any percent encoding, with plus signs for spaces. A text spells a
 value by rules that do not mention the decoder; the parser finds the values that are spelled.
 */
module FormEncoding {
  import opened Wrappers
  import opened Text
  import opened Codecs
  import opened HeaderMaps
  import opened NameOrder
  import opened Grammar
  import opened Extension
  import opened Requests
  import opened RequestRoundTrips

  // ---------------------------------------------------------------- spelling

  /** Where a text stands: a name and a value of a query, or a value of a posted form. */
  datatype Place = InName | InValue | InForm

  const CAPITALS: string := "0123456789ABCDEF"
  const SMALL: string := "0123456789abcdef"

  /** A hexadecimal digit, of either case. */
  predicate Spells4(c: char, n: nat)
    requires n < 16
  {
    c == CAPITALS[n] || c == SMALL[n]
  }

  /** The character that one which stands for itself stands for: a plus sign is a space, but not in a name. */
  function Meant(c: char, place: Place): char {
    if c == '+' && place != InName then ' ' else c
  }

  /**
   The text is an encoding of the value: any byte may be written as a percent sign and two digits, a plus sign is a
   space, a line break of a form may be a carriage return and a line feed, and anything else stands for itself.
   */
  predicate Spells(text: string, value: string, place: Place)
    decreases |text|
  {
    if text == "" then value == ""
    else
      && value != ""
      && if text[0] == '%' then
           && |text| >= 3 && value[0] as int < 256
           && Spells4(text[1], value[0] as int / 16) && Spells4(text[2], value[0] as int % 16)
           && Spells(text[3..], value[1..], place)
         else if place == InForm && CRLF <= text then value[0] == LF && Spells(text[2..], value[1..], place)
         else value[0] == Meant(text[0], place) && Spells(text[1..], value[1..], place)
  }

  /** The text as it is handed to the decoder. */
  function Prepared(text: string, place: Place): string {
    match place
    case InName => text
    case InValue => Plus(text)
    case InForm => LineBreaks(Plus(text))
  }

  lemma DigitValue(c: char, n: nat)
    requires n < 16 && Spells4(c, n)
    ensures HexValue(c) == n
  {
  }

  lemma PairValue(a: char, b: char, v: nat)
    requires v < 256 && Spells4(a, v / 16) && Spells4(b, v % 16)
    ensures HexPair(a, b) == Some(v) && a != '+' && b != '+' && a != CR && b != CR
  {
    DigitValue(a, v / 16);
    DigitValue(b, v % 16);
  }

  lemma PlusFirst(text: string)
    requires text != ""
    ensures Plus(text) == [if text[0] == '+' then ' ' else text[0]] + Plus(text[1..])
  {
  }

  lemma IsLineBreak(s: string)
    ensures CRLF <= s <==> |s| >= 2 && s[0] == CR && s[1] == LF
  {
    assert |s| >= 2 ==> s[..2] == [s[0], s[1]];
  }

  lemma LineBreaksFirst(c: char, rest: string)
    requires c != CR || rest == "" || rest[0] != LF
    ensures LineBreaks([c] + rest) == [c] + LineBreaks(rest)
  {
    var s := [c] + rest;
    IsLineBreak(s);
    assert s[1..] == rest;
  }

  /** A character that stands for itself comes through the preparation. */
  lemma PreparedPlain(text: string, place: Place)
    requires text != "" && !(place == InForm && CRLF <= text)
    ensures Prepared(text, place) == [Meant(text[0], place)] + Prepared(text[1..], place)
  {
    if place != InName {
      PlusFirst(text);
      if place == InForm {
        var rest := Plus(text[1..]);
        IsLineBreak(text);
        LineBreaksFirst(Meant(text[0], place), rest);
      }
    } else {
      assert text == [text[0]] + text[1..];
    }
  }

  lemma PreparedBreak(text: string)
    requires CRLF <= text
    ensures Prepared(text, InForm) == [LF] + Prepared(text[2..], InForm)
  {
    var s := Plus(text);
    assert s[0] == CR && s[1] == LF && s[2..] == Plus(text[2..]);
    assert s[..2] == CRLF;
    assert "\n" == [LF];
  }

  lemma ThreeFirst(a: char, b: char, c: char, rest: string)
    ensures [a] + ([b] + ([c] + rest)) == [a, b, c] + rest
  {
  }

  /** So do a percent sign and the two digits after it. */
  lemma PreparedHex(text: string, place: Place)
    requires |text| >= 3 && text[0] == '%' && text[1] != '+' && text[2] != '+' && text[1] != CR && text[2] != CR
    ensures Prepared(text, place) == ['%', text[1], text[2]] + Prepared(text[3..], place)
  {
    PreparedPlain(text, place);
    PreparedPlain(text[1..], place);
    assert text[1..][1..] == text[2..] && text[2..][1..] == text[3..];
    PreparedPlain(text[2..], place);
    ThreeFirst(text[0], text[1], text[2], Prepared(text[3..], place));
  }

  lemma DecodePlain(c: char, rest: string)
    requires c != '%'
    ensures PercentDecoded([c] + rest) == [c] + PercentDecoded(rest)
  {
    assert ([c] + rest)[1..] == rest;
  }

  /** Decoding finds what a text spells. */
  lemma {:induction false} SpelledIsDecoded(text: string, value: string, place: Place)
    requires Spells(text, value, place)
    ensures PercentDecoded(Prepared(text, place)) == value
    decreases |text|
  {
    if text == "" {
      assert Prepared(text, place) == "";
    } else if text[0] == '%' {
      PairValue(text[1], text[2], value[0] as int);
      PreparedHex(text, place);
      DecodeHex(text[1], text[2], value[0] as int, Prepared(text[3..], place));
      SpelledIsDecoded(text[3..], value[1..], place);
      assert value == [value[0]] + value[1..];
    } else if place == InForm && CRLF <= text {
      PreparedBreak(text);
      DecodePlain(LF, Prepared(text[2..], place));
      SpelledIsDecoded(text[2..], value[1..], place);
      assert value == [value[0]] + value[1..];
    } else {
      PreparedPlain(text, place);
      DecodePlain(Meant(text[0], place), Prepared(text[1..], place));
      SpelledIsDecoded(text[1..], value[1..], place);
      assert value == [value[0]] + value[1..];
    }
  }

  // ---------------------------------------------------------------- data URLs are another matter

  lemma {:induction false} BreaksKeepStart(start: string, s: string)
    requires start <= LineBreaks(s) && LF !in start
    ensures start <= s
  {
    if start != "" {
      assert start[0] in start && LineBreaks(s)[0] == start[0];
      if !(CRLF <= s) {
        var rest := LineBreaks(s[1..]);
        assert LineBreaks(s) == [s[0]] + rest && start[1..] == LineBreaks(s)[1..|start|] == rest[..|start| - 1];
        BreaksKeepStart(start[1..], s[1..]);
        assert start == [s[0]] + start[1..];
      }
    }
  }

  /** The preparation makes no data URL of a text that is none. */
  lemma PreparedNotData(text: string, place: Place)
    requires !(DATA <= text)
    ensures !(DATA <= Prepared(text, place))
  {
    if DATA <= Prepared(text, place) {
      if place == InForm {
        BreaksKeepStart(DATA, Plus(text));
      }
      assert place != InName ==> forall i :: 0 <= i < 5 ==> Plus(text)[i] == DATA[i] && text[i] == DATA[i];
    }
  }

  lemma SpelledIsUrlDecoded(text: string, value: string, place: Place)
    requires Spells(text, value, place) && !(DATA <= text)
    ensures UrlDecoded(Prepared(text, place)) == Success(value)
  {
    SpelledIsDecoded(text, value, place);
    PreparedNotData(text, place);
  }

  // ---------------------------------------------------------------- parameters

  /** Pairs of texts that spell the parameters. */
  predicate SpellsAll(raw: seq<Entry>, params: seq<Entry>) {
    |raw| == |params| && forall i :: 0 <= i < |raw| ==> SpellsPair(raw[i], params[i])
  }

  predicate SpellsPair(raw: Entry, p: Entry) {
    && Spells(raw.0, p.0, InName) && !(DATA <= raw.0) && raw.0 != ""
    && Spells(raw.1, p.1, InValue) && !(DATA <= raw.1)
  }

  lemma {:induction false} SpelledIsCollected(done: seq<Entry>, raw: seq<Entry>, params: seq<Entry>)
    requires SpellsAll(raw, params)
    ensures Collected(done, raw) == Success(SortedByName(done, params))
    decreases |raw|
  {
    if raw != [] {
      assert SpellsPair(raw[0], params[0]);
      SpelledIsUrlDecoded(raw[0].0, params[0].0, InName);
      SpelledIsUrlDecoded(raw[0].1, params[0].1, InValue);
      SpelledIsCollected(MultiInsert(done, params[0]), raw[1..], params[1..]);
    }
  }

  // ---------------------------------------------------------------- a request with a query

  /** A request line with the pairs as its query, the headers, the blank line and the body. */
  function RequestWithQuery(m: Message, raw: seq<Entry>): string {
    RequestOf(MethodName(m.method_), m.resource, raw, m.version, m.headers, m.content)
  }

  function FromPairs(raw: seq<Entry>, tail: string): string {
    (if raw == [] then "" else "?" + Pairs(raw)) + tail
  }

  lemma FromPairsFacts(raw: seq<Entry>, tail: string)
    requires " " <= tail
    ensures DropQuestion(FromPairs(raw, tail)) == Pairs(raw) + tail
    ensures " " <= FromPairs(raw, tail) || "?" <= FromPairs(raw, tail)
  {
    if raw == [] {
      assert FromPairs(raw, tail) == tail && Pairs(raw) + tail == tail;
      assert tail[0] == ' ';
    } else {
      Regroup3("?", Pairs(raw), tail);
      assert ("?" + (Pairs(raw) + tail))[1..] == Pairs(raw) + tail;
    }
  }

  lemma StartThenPairs(name: string, resource: string, raw: seq<Entry>, tail: string)
    requires name != "" && AllIn(name, Upper) && resource != "" && AllIn(resource, ResourceChar) && " " <= tail
    ensures RequestStart(name + " " + resource + FromPairs(raw, tail)) == Ok((name, resource), Pairs(raw) + tail)
  {
    FromPairsFacts(raw, tail);
    StartExact(name, resource, FromPairs(raw, tail));
  }

  lemma NameIsUpper(m: Method)
    ensures MethodName(m) != "" && AllIn(MethodName(m), Upper)
  {
  }

  /** A request with any word for a method. */
  function RequestOf(name: string, resource: string, raw: seq<Entry>, version: string, headers: seq<Entry>,
                     body: string): string
  {
    name + " " + resource + FromPairs(raw, TailText(version, headers, body))
  }

  lemma RequestOfExact(name: string, resource: string, raw: seq<Entry>, version: (nat, nat), headers: seq<Entry>,
                       body: string) returns (query: string)
    requires name != "" && AllIn(name, Upper) && resource != "" && AllIn(resource, ResourceChar)
    requires HeaderTexts(headers) && PairTexts(raw) && version.0 < UINT_LIMIT && version.1 < UINT_LIMIT
    ensures RequestText(RequestOf(name, resource, raw, VersionText(version), headers, body))
            == Ok(RawRequest(name, resource, query, raw, version, headers, body), "")
  {
    var tail := TailText(VersionText(version), headers, body);
    TailExact(version.0, version.1, headers, body);
    StartThenPairs(name, resource, raw, tail);
    PairsExact(raw, tail);
    var a := Pairs(raw) + tail;
    query := Query(a, tail);
    RequestParts(RequestOf(name, resource, raw, VersionText(version), headers, body), (name, resource), a, raw, tail,
                 (version, headers), body);
  }

  /**
   However a client writes the names and values of a query, the request that is parsed has the names and values it
   meant.
   */
  lemma SpelledQuery(m: Message, raw: seq<Entry>, length: LengthReader)
    requires m.resource != "" && AllIn(m.resource, ResourceChar) && CanonicalVersion(m.version)
    requires MapSorted(m.headers) && HeaderTexts(m.headers) && !HasForm(m.headers)
    requires LengthFits(m.headers, m.content, length) && PairTexts(raw) && SpellsAll(raw, m.params)
    ensures Parsed(RequestWithQuery(m, raw), length)
            == Success(Outcome(COMPLETE, Some(m.(params := SortedByName([], m.params), parsedPost := false))))
    ensures MultiSorted(m.params) ==> SortedByName([], m.params) == m.params
  {
    var n: nat, k: nat :| n < UINT_LIMIT && k < UINT_LIMIT && m.version == VersionText((n, k));
    NameIsUpper(m.method_);
    var query := RequestOfExact(MethodName(m.method_), m.resource, raw, (n, k), m.headers, m.content);
    SpelledIsCollected([], raw, m.params);
    var parts := RawRequest(MethodName(m.method_), m.resource, query, raw, (n, k), m.headers, m.content);
    AssembledExact(parts, m.(params := SortedByName([], m.params)), length);
    SortedIsKept(m.params);
  }

  // ---------------------------------------------------------------- a posted form

  /** Fields of a form: names as they are, values that spell those of the parameters. */
  predicate SpellsForm(raw: seq<Entry>, params: seq<Entry>) {
    |raw| == |params| && forall i :: 0 <= i < |raw| ==> SpellsField(raw[i], params[i])
  }

  predicate SpellsField(raw: Entry, p: Entry) {
    && raw.0 == p.0 && '&' !in raw.0 && '=' !in raw.0 && '&' !in raw.1
    && Spells(raw.1, p.1, InForm) && !(DATA <= raw.1)
  }

  function RawField(p: Entry): string {
    p.0 + "=" + p.1
  }

  function RawFields(raw: seq<Entry>): seq<string> {
    seq(|raw|, i requires 0 <= i < |raw| => RawField(raw[i]))
  }

  lemma {:induction false} TokensOfPairs(raw: seq<Entry>)
    requires raw != [] && forall i :: 0 <= i < |raw| ==> '&' !in raw[i].0 && '&' !in raw[i].1
    ensures Tokens(Pairs(raw)) == RawFields(raw)
  {
    TokensCons(RawField(raw[0]), Pairs(raw[1..]));
    assert RawFields(raw) == [RawField(raw[0])] + RawFields(raw[1..]);
    if |raw| == 1 {
      assert Pairs(raw) == RawField(raw[0]) + "" == RawField(raw[0]);
    } else {
      TokensOfPairs(raw[1..]);
      Regroup3(RawField(raw[0]), "&", Pairs(raw[1..]));
      assert Pairs(raw) == RawField(raw[0]) + "&" + Pairs(raw[1..]);
    }
  }

  lemma RawFieldParts(p: Entry)
    requires '=' !in p.0
    ensures Find(RawField(p), '=', 0) == |p.0| < |RawField(p)|
    ensures RawField(p)[..|p.0|] == p.0 && RawField(p)[|p.0| + 1..] == p.1
  {
    var s := RawField(p);
    assert s[|p.0|] == '=' && forall k :: 0 <= k < |p.0| ==> s[k] == p.0[k];
  }

  lemma {:induction false} SpelledFormIsCollected(done: seq<Entry>, raw: seq<Entry>, params: seq<Entry>)
    requires SpellsForm(raw, params)
    ensures CollectedForm(done, RawFields(raw)) == Success(SortedByName(done, params))
    decreases |raw|
  {
    if raw != [] {
      assert SpellsField(raw[0], params[0]);
      RawFieldParts(raw[0]);
      SpelledIsUrlDecoded(raw[0].1, params[0].1, InForm);
      assert RawFields(raw)[1..] == RawFields(raw[1..]);
      SpelledFormIsCollected(MultiInsert(done, params[0]), raw[1..], params[1..]);
    }
  }

  lemma BodyIsCollected(body: string, raw: seq<Entry>, params: seq<Entry>)
    requires raw != [] && body == Pairs(raw) && SpellsForm(raw, params)
    ensures CollectedForm([], Tokens(body)) == Success(SortedByName([], params))
  {
    assert forall i :: 0 <= i < |raw| ==> SpellsField(raw[i], params[i]);
    TokensOfPairs(raw);
    SpelledFormIsCollected([], raw, params);
  }

  lemma ParsedForm(text: string, m: Message, raw: RawRequest, length: LengthReader)
    requires RequestText(text) == Ok(raw, "") && raw.params == [] && raw.method_ == "POST" && m.method_ == POST
    requires raw.resource == m.resource && VersionText(raw.version) == m.version && raw.headers == m.headers
    requires raw.body == m.content && CollectedForm([], Tokens(raw.body)) == Success(SortedByName([], m.params))
    requires MapSorted(m.headers) && HasForm(m.headers) && LengthFits(m.headers, raw.body, length)
    ensures Parsed(text, length)
            == Success(Outcome(COMPLETE, Some(m.(params := SortedByName([], m.params), parsedPost := true))))
  {
    SpelledAssembled(raw, m, length);
  }

  lemma PostIsPost(m: Message)
    requires m.method_.POST?
    ensures RequestWithQuery(m, []) == RequestOf("POST", m.resource, [], m.version, m.headers, m.content)
  {
  }

  /** However a client writes the fields of a posted form, the request that is parsed has the values it meant. */
  lemma SpelledForm(m: Message, raw: seq<Entry>, length: LengthReader)
    requires m.method_.POST? && m.resource != "" && AllIn(m.resource, ResourceChar) && CanonicalVersion(m.version)
    requires MapSorted(m.headers) && HeaderTexts(m.headers) && HasForm(m.headers)
    requires raw != [] && m.content == Pairs(raw) && SpellsForm(raw, m.params)
    requires LengthFits(m.headers, m.content, length)
    ensures Parsed(RequestWithQuery(m, []), length)
            == Success(Outcome(COMPLETE, Some(m.(params := SortedByName([], m.params), parsedPost := true))))
    ensures MultiSorted(m.params) ==> SortedByName([], m.params) == m.params
  {
    var n: nat, k: nat :| n < UINT_LIMIT && k < UINT_LIMIT && m.version == VersionText((n, k));
    PostIsPost(m);
    BodyIsCollected(m.content, raw, m.params);
    FormWithVersion(m, (n, k), length);
    SortedIsKept(m.params);
  }

  lemma SortedIsKept(params: seq<Entry>)
    ensures MultiSorted(params) ==> SortedByName([], params) == params
  {
    if MultiSorted(params) {
      assert [] + params == params;
      SortedStays([], params);
    }
  }

  lemma FormWithVersion(m: Message, version: (nat, nat), length: LengthReader)
    requires m.method_.POST? && m.resource != "" && AllIn(m.resource, ResourceChar)
    requires version.0 < UINT_LIMIT && version.1 < UINT_LIMIT && m.version == VersionText(version)
    requires MapSorted(m.headers) && HeaderTexts(m.headers) && HasForm(m.headers)
    requires CollectedForm([], Tokens(m.content)) == Success(SortedByName([], m.params))
    requires LengthFits(m.headers, m.content, length)
    ensures Parsed(RequestOf("POST", m.resource, [], m.version, m.headers, m.content), length)
            == Success(Outcome(COMPLETE, Some(m.(params := SortedByName([], m.params), parsedPost := true))))
  {
    var text := RequestOf("POST", m.resource, [], m.version, m.headers, m.content);
    assert AllIn("POST", Upper);
    var query := RequestOfExact("POST", m.resource, [], version, m.headers, m.content);
    ParsedForm(text, m, RawRequest("POST", m.resource, query, [], version, m.headers, m.content), length);
  }

  lemma SpelledAssembled(raw: RawRequest, m: Message, length: LengthReader)
    requires raw.method_ == "POST" && m.method_ == POST && raw.resource == m.resource
    requires VersionText(raw.version) == m.version && raw.headers == m.headers && raw.body == m.content
    requires CollectedForm([], Tokens(raw.body)) == Success(SortedByName([], m.params))
    requires MapSorted(m.headers) && HasForm(m.headers) && LengthFits(m.headers, raw.body, length)
    ensures Assembled(raw, [], length)
            == Success(Outcome(COMPLETE, Some(m.(params := SortedByName([], m.params), parsedPost := true))))
  {
    assert [] + m.headers == m.headers;
    InsertSortedAll([], m.headers);
  }

  // ---------------------------------------------------------------- which bodies are forms

  /** The content type of forms, in any case, alone or before a semicolon. */
  ghost predicate IsFormType(value: string) {
    exists start, rest :: value == start + rest && SameName(start, "application/x-www-form-urlencoded")
                          && (rest == "" || rest[0] == ';')
  }

  lemma LowerPrefix(value: string)
    ensures FORM <= LowerText(value) <==> |value| >= |FORM| && SameName(value[..|FORM|], FORM)
  {
    assert forall i :: 0 <= i < |FORM| ==> Lower(FORM[i]) == FORM[i];
    if FORM <= LowerText(value) {
      assert forall i :: 0 <= i < |FORM| ==> LowerText(value)[i] == FORM[i];
    }
    if |value| >= |FORM| && SameName(value[..|FORM|], FORM) {
      assert forall i :: 0 <= i < |FORM| ==> Lower(value[..|FORM|][i]) == FORM[i];
      assert LowerText(value)[..|FORM|] == FORM;
    }
  }

  lemma FormTypeExactly(value: string)
    ensures IsForm(value) <==> IsFormType(value)
  {
    var n := |FORM|;
    LowerPrefix(value);
    if IsForm(value) {
      assert value == value[..n] + value[n..];
    }
    if start, rest :| value == start + rest && SameName(start, "application/x-www-form-urlencoded")
                      && (rest == "" || rest[0] == ';') {
      assert |start| == n && value[..n] == start && value[n..] == rest;
    }
  }

  /** The body is taken for a form exactly when the first Content-Type header is that of forms. */
  lemma FormExactly(headers: seq<Entry>)
    ensures HasForm(InsertAll([], headers))
            <==> FirstNamed(headers, "Content-Type").Some? && IsFormType(FirstNamed(headers, "Content-Type").value)
  {
    FirstHeaderWins(headers, "Content-Type");
    if FirstNamed(headers, "Content-Type").Some? {
      FormTypeExactly(FirstNamed(headers, "Content-Type").value);
    }
  }

  // ---------------------------------------------------------------- empty names

  lemma NotEmptyDecoded(s: string)
    requires s != ""
    ensures UrlDecoded(s) != Success("")
  {
    assert PercentDecoded(s) != "";
  }

  function Nameable(raw: seq<Entry>): seq<Entry> {
    if raw == [] then [] else (if raw[0].0 == "" then [] else [raw[0]]) + Nameable(raw[1..])
  }

  /** Pairs with an empty name are dropped, and no others: no other name decodes to nothing. */
  lemma {:induction false} EmptyNamesAreDropped(done: seq<Entry>, raw: seq<Entry>)
    ensures Collected(done, raw) == Collected(done, Nameable(raw))
    decreases |raw|
  {
    if raw != [] {
      var rest := Nameable(raw[1..]);
      if raw[0].0 == "" {
        assert UrlDecoded("") == Success("") && [] + rest == rest;
        EmptyNamesAreDropped(done, raw[1..]);
      } else {
        NotEmptyDecoded(raw[0].0);
        assert ([raw[0]] + rest)[1..] == rest;
        var name, value := UrlDecoded(raw[0].0), UrlDecoded(Plus(raw[0].1));
        if name.Success? && value.Success? {
          EmptyNamesAreDropped(MultiInsert(done, (name.value, value.value)), raw[1..]);
        }
      }
    }
  }

  // ---------------------------------------------------------------- which requests are complete

  /** Whether the declared length, in the first header of that name, is that of the body. */
  function Length(headers: seq<Entry>, body: string, length: LengthReader): Status {
    match FirstNamed(headers, "Content-Length")
    case None => COMPLETE
    case Some(declared) =>
      if length(declared).None? || length(declared).value < |body| then FAILED
      else if length(declared).value > |body| then INCOMPLETE
      else COMPLETE
  }

  /**
   A request that follows the grammar fails when its method is none of the three that are known; otherwise its
   declared length says whether it is complete, fails, or waits for more. Only a complete one has a message.
   */
  lemma StatusExactly(name: string, resource: string, raw: seq<Entry>, params: seq<Entry>, version: (nat, nat),
                      headers: seq<Entry>, body: string, length: LengthReader)
    requires name != "" && AllIn(name, Upper) && resource != "" && AllIn(resource, ResourceChar)
    requires HeaderTexts(headers) && PairTexts(raw) && version.0 < UINT_LIMIT && version.1 < UINT_LIMIT
    requires SpellsAll(raw, params) && !HasForm(InsertAll([], headers))
    ensures var r := Parsed(RequestOf(name, resource, raw, VersionText(version), headers, body), length);
            var status := if name == "GET" || name == "POST" || name == "OPTIONS" then Length(headers, body, length)
                          else FAILED;
            r.Success? && r.value.status == status && (r.value.message.Some? <==> status == COMPLETE)
  {
    var query := RequestOfExact(name, resource, raw, version, headers, body);
    SpelledIsCollected([], raw, params);
    FirstHeaderWins(headers, "Content-Length");
    AssembledStatus(RawRequest(name, resource, query, raw, version, headers, body), SortedByName([], params), length);
  }

  lemma AssembledStatus(raw: RawRequest, params: seq<Entry>, length: LengthReader)
    requires !HasForm(InsertAll([], raw.headers))
    requires Lookup(InsertAll([], raw.headers), "Content-Length") == FirstNamed(raw.headers, "Content-Length")
    ensures var r := Assembled(raw, params, length);
            var known := raw.method_ == "GET" || raw.method_ == "POST" || raw.method_ == "OPTIONS";
            var status := if known then Length(raw.headers, raw.body, length) else FAILED;
            r.Success? && r.value.status == status && (r.value.message.Some? <==> status == COMPLETE)
  {
  }

  /** A text that cannot be parsed waits for more until an empty line has arrived, and has failed from then on. */
  lemma UnparsedExactly(text: string, length: LengthReader)
    requires RequestText(text).Fail?
    ensures Parsed(text, length)
            == Success(Outcome(if Contains(text, "\r\n\r\n") then FAILED else INCOMPLETE, None))
    ensures Contains(text, "\r\n\r\n") <==> exists before, after :: text == before + "\r\n\r\n" + after
  {
    ContainsExactly(text, "\r\n\r\n");
  }
}
