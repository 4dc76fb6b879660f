/** The serialized arrays of PHP: an encoder, a decoder, and their round trip. */
module PhpArrays {
  import opened Wrappers
  import opened Text

  datatype Node = Num(number: nat) | Str(text: string) | Arr(entries: seq<Entry>)

  datatype Entry = Entry(key: Node, value: Node)

  function Encoded(n: Node): string {
    match n
    case Num(k) => "i:" + Decimal(k) + ";"
    case Str(s) => "s:" + Decimal(|s|) + ":\"" + s + "\";"
    case Arr(es) => "a:" + Decimal(|es|) + ":{" + EncodedEntries(es) + "}"
  }

  function EncodedEntry(e: Entry): string {
    Encoded(e.key) + Encoded(e.value)
  }

  function EncodedEntries(es: seq<Entry>): string {
    if es == [] then "" else EncodedEntry(es[0]) + EncodedEntries(es[1..])
  }

  /** Keys are numbers and strings. */
  predicate WellKeyed(n: Node) {
    n.Arr? ==> WellKeyedEntries(n.entries)
  }

  predicate WellKeyedEntry(e: Entry) {
    !e.key.Arr? && WellKeyed(e.value)
  }

  predicate WellKeyedEntries(es: seq<Entry>) {
    es != [] ==> WellKeyedEntry(es[0]) && WellKeyedEntries(es[1..])
  }

  // ---------------------------------------------------------------- decoding

  /** A decimal number and the text that ends it. */
  function Length(s: string, stop: string): (r: Option<(nat, string)>)
    ensures r.Some? ==> |r.value.1| <= |s|
  {
    var n := Span(s, Digit);
    SpanFacts(s, Digit);
    if n > 0 && stop <= s[n..] then Some((NumberOf(s[..n]), s[n + |stop|..])) else None
  }

  function Decoded(s: string): (r: Option<(Node, string)>)
    ensures r.Some? ==> |r.value.1| < |s|
    decreases |s|, 0
  {
    if "i:" <= s then
      match Length(s[2..], ";")
      case None => None
      case Some((n, rest)) => Some((Num(n), rest))
    else if "s:" <= s then
      match Length(s[2..], ":\"")
      case None => None
      case Some((n, rest)) =>
        if n <= |rest| && "\";" <= rest[n..] then Some((Str(rest[..n]), rest[n + 2..])) else None
    else if "a:" <= s then
      match Length(s[2..], ":{")
      case None => None
      case Some((n, rest)) =>
        match DecodedEntries(rest, n)
        case None => None
        case Some((es, last)) => if "}" <= last then Some((Arr(es), last[1..])) else None
    else None
  }

  function DecodedEntry(s: string): (r: Option<(Entry, string)>)
    ensures r.Some? ==> |r.value.1| < |s|
    decreases |s|, 1
  {
    match Decoded(s)
    case None => None
    case Some((key, a)) =>
      if key.Arr? then None
      else
        match Decoded(a)
        case None => None
        case Some((value, b)) => Some((Entry(key, value), b))
  }

  function DecodedEntries(s: string, n: nat): (r: Option<(seq<Entry>, string)>)
    ensures r.Some? ==> |r.value.1| <= |s|
    decreases |s|, n + 2
  {
    if n == 0 then Some(([], s))
    else
      match DecodedEntry(s)
      case None => None
      case Some((e, a)) =>
        match DecodedEntries(a, n - 1)
        case None => None
        case Some((es, last)) => Some(([e] + es, last))
  }

  // ---------------------------------------------------------------- round trip

  lemma LengthExact(n: nat, stop: string, rest: string)
    requires stop != "" && !In(stop[0], Digit)
    ensures Length(Decimal(n) + (stop + rest), stop) == Some((n, rest))
  {
    assert (stop + rest)[0] == stop[0];
    SpanExact(Decimal(n), stop + rest, Digit);
    DecimalRoundTrip(n);
    assert (stop + rest)[|stop|..] == rest;
    var s := Decimal(n) + (stop + rest);
    assert s[|Decimal(n)| + |stop|..] == s[|Decimal(n)|..][|stop|..];
  }

  lemma NumExact(k: nat, rest: string)
    ensures Decoded(Encoded(Num(k)) + rest) == Some((Num(k), rest))
  {
    var a := Decimal(k) + (";" + rest);
    Regroup4("i:", Decimal(k), ";", rest);
    assert ("i:" + a)[2..] == a;
    LengthExact(k, ";", rest);
  }

  lemma StrExact(t: string, rest: string)
    ensures Decoded(Encoded(Str(t)) + rest) == Some((Str(t), rest))
  {
    var b := t + ("\";" + rest);
    var a := Decimal(|t|) + (":\"" + b);
    Regroup6("s:", Decimal(|t|), ":\"", t, "\";", rest);
    var s := "s:" + a;
    assert s[0] == 's' && s[2..] == a;
    LengthExact(|t|, ":\"", b);
    StrParts(s, a, t, b, rest);
  }

  lemma StrParts(s: string, a: string, t: string, b: string, rest: string)
    requires "s:" <= s && s[2..] == a && Length(a, ":\"") == Some((|t|, b)) && b == t + ("\";" + rest)
    ensures Decoded(s) == Some((Str(t), rest))
  {
    assert s[0] == "s:"[0];
    var c := "\";" + rest;
    assert b[..|t|] == t && b[|t|..] == c && c[2..] == rest;
    assert b[|t| + 2..] == c[2..];
  }

  lemma ArrParts(s: string, a: string, n: nat, b: string, es: seq<Entry>, rest: string)
    requires "a:" <= s && s[2..] == a && Length(a, ":{") == Some((n, b))
    requires DecodedEntries(b, n) == Some((es, "}" + rest))
    ensures Decoded(s) == Some((Arr(es), rest))
  {
    assert s[0] == "a:"[0];
    assert ("}" + rest)[1..] == rest;
  }

  /** Decoding gives back the node and leaves the text after it. */
  lemma {:induction false} RoundTrip(n: Node, rest: string)
    requires WellKeyed(n)
    ensures Decoded(Encoded(n) + rest) == Some((n, rest))
  {
    match n {
      case Num(k) => NumExact(k, rest);
      case Str(t) => StrExact(t, rest);
      case Arr(es) =>
        EntriesRoundTrip(es, "}" + rest);
        var b := EncodedEntries(es) + ("}" + rest);
        var a := Decimal(|es|) + (":{" + b);
        Regroup6("a:", Decimal(|es|), ":{", EncodedEntries(es), "}", rest);
        assert ("a:" + a)[2..] == a;
        LengthExact(|es|, ":{", b);
        ArrParts("a:" + a, a, |es|, b, es, rest);
    }
  }

  lemma {:induction false} EntryRoundTrip(e: Entry, rest: string)
    requires WellKeyedEntry(e)
    ensures DecodedEntry(EncodedEntry(e) + rest) == Some((e, rest))
  {
    Regroup3(Encoded(e.key), Encoded(e.value), rest);
    RoundTrip(e.key, Encoded(e.value) + rest);
    RoundTrip(e.value, rest);
  }

  lemma {:induction false} EntriesRoundTrip(es: seq<Entry>, rest: string)
    requires WellKeyedEntries(es)
    ensures DecodedEntries(EncodedEntries(es) + rest, |es|) == Some((es, rest))
  {
    if es == [] {
      assert EncodedEntries(es) + rest == rest;
    } else {
      var more := EncodedEntries(es[1..]) + rest;
      Regroup3(EncodedEntry(es[0]), EncodedEntries(es[1..]), rest);
      EntryRoundTrip(es[0], more);
      EntriesRoundTrip(es[1..], rest);
      assert [es[0]] + es[1..] == es;
    }
  }

  lemma {:induction false} EncodedAppend(a: seq<Entry>, b: seq<Entry>)
    ensures EncodedEntries(a + b) == EncodedEntries(a) + EncodedEntries(b)
  {
    if a == [] {
      assert a + b == b && "" + EncodedEntries(b) == EncodedEntries(b);
    } else {
      assert (a + b)[1..] == a[1..] + b;
      EncodedAppend(a[1..], b);
      Regroup3(EncodedEntry(a[0]), EncodedEntries(a[1..]), EncodedEntries(b));
    }
  }
}
