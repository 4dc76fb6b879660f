/** Character classes, greedy spans and decimal numbers, shared by the grammars and the printers. */
module Text {
  const CR: char := '\r'
  const LF: char := '\n'
  const CRLF: string := "\r\n"

  /** The character sets the grammars repeat over. */
  datatype Class =
    | Upper          // capital letters
    | Blank          // space and tab
    | ResourceChar   // graphic, but no question mark
    | KeyChar        // anything but '=', '&' and space
    | ValueChar      // anything but '&' and space
    | Ampersand
    | Digit
    | NameChar       // printable, but no colon
    | LineChar       // anything but CR and LF
    | EndOfLine      // CR and LF
    | Space          // white space

  predicate In(c: char, k: Class) {
    match k
    case Upper => 'A' <= c <= 'Z'
    case Blank => c == ' ' || c == '\t'
    case ResourceChar => 33 <= c as int <= 126 && c != '?'
    case KeyChar => c != '=' && c != '&' && c != ' '
    case ValueChar => c != '&' && c != ' '
    case Ampersand => c == '&'
    case Digit => '0' <= c <= '9'
    case NameChar => 32 <= c as int <= 126 && c != ':'
    case LineChar => c != CR && c != LF
    case EndOfLine => c == CR || c == LF
    case Space => c == ' ' || 9 <= c as int <= 13
  }

  predicate AllIn(s: string, k: Class) {
    forall i :: 0 <= i < |s| ==> In(s[i], k)
  }

  /** Length of the longest prefix inside a class. */
  function Span(s: string, k: Class): (n: nat)
    ensures n <= |s|
  {
    if s != "" && In(s[0], k) then 1 + Span(s[1..], k) else 0
  }

  lemma {:induction false} SpanFacts(s: string, k: Class)
    ensures AllIn(s[..Span(s, k)], k)
    ensures Span(s, k) < |s| ==> !In(s[Span(s, k)], k)
  {
    if s != "" && In(s[0], k) {
      SpanFacts(s[1..], k);
      var n := Span(s[1..], k);
      assert s[..1 + n] == [s[0]] + s[1..][..n];
    }
  }

  predicate Stops(s: string, k: Class) {
    s == "" || !In(s[0], k)
  }

  lemma SpanUnique(s: string, k: Class, n: nat)
    requires n <= |s| && AllIn(s[..n], k) && (n < |s| ==> !In(s[n], k))
    ensures Span(s, k) == n
  {
    var m := Span(s, k);
    SpanFacts(s, k);
    assert forall i :: 0 <= i < n ==> s[..n][i] == s[i];
    assert forall i :: 0 <= i < m ==> s[..m][i] == s[i];
  }

  /** A run followed by something else is taken exactly. */
  lemma SpanExact(a: string, b: string, k: Class)
    requires AllIn(a, k) && Stops(b, k)
    ensures Span(a + b, k) == |a| && (a + b)[..|a|] == a && (a + b)[|a|..] == b
  {
    assert (a + b)[..|a|] == a;
    SpanUnique(a + b, k, |a|);
  }

  /** A run that ends before the end of the text does not see what is appended. */
  lemma SpanExtend(s: string, x: string, k: Class)
    requires Span(s, k) < |s|
    ensures Span(s + x, k) == Span(s, k)
    ensures (s + x)[..Span(s, k)] == s[..Span(s, k)] && (s + x)[Span(s, k)..] == s[Span(s, k)..] + x
  {
    var n := Span(s, k);
    SpanFacts(s, k);
    assert (s + x)[..n] == s[..n];
    SpanUnique(s + x, k, n);
  }

  // ---------------------------------------------------------------- regrouping a concatenation to the right

  lemma Regroup3(a: string, b: string, c: string)
    ensures a + b + c == a + (b + c)
  {
  }

  lemma Regroup4(a: string, b: string, c: string, d: string)
    ensures a + b + c + d == a + (b + (c + d))
  {
    Regroup3(a, b, c);
    Regroup3(a, b + c, d);
    Regroup3(b, c, d);
  }

  lemma Regroup5(a: string, b: string, c: string, d: string, e: string)
    ensures a + b + c + d + e == a + (b + (c + (d + e)))
  {
    Regroup4(a, b, c, d + e);
    Regroup3(a + b + c, d, e);
  }

  lemma Regroup6(a: string, b: string, c: string, d: string, e: string, f: string)
    ensures a + b + c + d + e + f == a + (b + (c + (d + (e + f))))
  {
    Regroup5(a, b, c, d, e + f);
    Regroup3(a + b + c + d, e, f);
  }

  // ---------------------------------------------------------------- decimal numbers

  function DigitOf(n: nat): char
    requires n < 10
  {
    (n + 48) as char
  }

  function Decimal(n: nat): (s: string)
    ensures s != "" && AllIn(s, Digit)
  {
    if n < 10 then [DigitOf(n)] else Decimal(n / 10) + [DigitOf(n % 10)]
  }

  function NumberOf(s: string): nat
    requires AllIn(s, Digit)
  {
    if s == "" then 0 else 10 * NumberOf(s[..|s| - 1]) + (s[|s| - 1] as int - 48)
  }

  lemma {:induction false} DecimalRoundTrip(n: nat)
    ensures NumberOf(Decimal(n)) == n
  {
    if n >= 10 {
      DecimalRoundTrip(n / 10);
      var s := Decimal(n);
      assert s[..|s| - 1] == Decimal(n / 10);
    } else {
      assert [DigitOf(n)][..0] == "";
    }
  }

  // ---------------------------------------------------------------- trimming

  /** White space is taken off both ends. */
  function Trimmed(s: string): (t: string)
    decreases |s|
  {
    if s != "" && In(s[0], Space) then Trimmed(s[1..])
    else if s != "" && In(s[|s| - 1], Space) then Trimmed(s[..|s| - 1])
    else s
  }

  lemma {:induction false} TrimmedExact(before: string, core: string, after: string)
    requires AllIn(before, Space) && AllIn(after, Space)
    requires core != "" ==> !In(core[0], Space) && !In(core[|core| - 1], Space)
    ensures Trimmed(before + core + after) == core
    decreases |before| + |after|
  {
    var s := before + core + after;
    if before != "" {
      assert s[0] == before[0] && s[1..] == before[1..] + core + after;
      TrimmedExact(before[1..], core, after);
    } else if after != "" {
      assert s == core + after;
      if core == "" {
        assert s == after && s[1..] == after[1..] == "" + core + after[1..];
        TrimmedExact("", core, after[1..]);
      } else {
        assert s[0] == core[0] && s[|s| - 1] == after[|after| - 1];
        assert s[..|s| - 1] == "" + core + after[..|after| - 1];
        TrimmedExact("", core, after[..|after| - 1]);
      }
    } else {
      assert s == core;
    }
  }

  // ---------------------------------------------------------------- substrings

  predicate At(s: string, i: nat, t: string) {
    i + |t| <= |s| && s[i..i + |t|] == t
  }

  predicate Contains(s: string, t: string) {
    exists i :: 0 <= i <= |s| && At(s, i, t)
  }

  lemma ContainsExactly(s: string, t: string)
    ensures Contains(s, t) <==> exists before, after :: s == before + t + after
  {
    if i :| 0 <= i <= |s| && At(s, i, t) {
      assert s == s[..i] + t + s[i + |t|..];
    }
    if before, after :| s == before + t + after {
      assert s[|before|..|before| + |t|] == t;
      assert At(s, |before|, t);
    }
  }

  /** The index loop of a substring search. */
  method FindFirst(s: string, t: string) returns (found: bool)
    ensures found == Contains(s, t)
  {
    found := false;
    var i := 0;
    while i <= |s|
      invariant i <= |s| + 1
      invariant forall j :: 0 <= j < i ==> !At(s, j, t)
    {
      if At(s, i, t) {
        return true;
      }
      i := i + 1;
    }
  }
}
