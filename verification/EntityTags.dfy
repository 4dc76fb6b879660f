/** Conditional requests: entity-tag lists and the decision between 200, 304 and 412. */
module EntityTags {
  import opened Wrappers
  import opened Text
  import opened HeaderMaps

  datatype EntityTag = EntityTag(weak: bool, tag: string)

  const QUOTE: char := '\"'
  const OK_STATUS: nat := 200
  const NOT_MODIFIED: nat := 304
  const PRECONDITION_FAILED: nat := 412
  const PROBE_HEADER: string := "X-Request-ETag"

  // ---------------------------------------------------------------- parsing

  /** Splits at the commas outside quotes; `current` is the element read so far. */
  function Split(value: string, current: string, quoted: bool): seq<string>
    decreases |value|
  {
    if value == "" then [current]
    else if value[0] == QUOTE then Split(value[1..], current + [QUOTE], !quoted)
    else if value[0] == ',' && !quoted then [current] + Split(value[1..], "", false)
    else Split(value[1..], current + [value[0]], quoted)
  }

  method SplitTagList(value: string) returns (result: seq<string>)
    ensures result == Split(value, "", false)
  {
    result := [];
    var current, quoted := "", false;
    for i := 0 to |value|
      invariant result + Split(value[i..], current, quoted) == Split(value, "", false)
    {
      assert value[i..][1..] == value[i + 1..] && value[i..][0] == value[i];
      if value[i] == QUOTE {
        quoted := !quoted;
        current := current + [value[i]];
      } else if value[i] == ',' && !quoted {
        result := result + [current];
        current := "";
      } else {
        current := current + [value[i]];
      }
    }
    result := result + [current];
  }

  predicate IsWeak(tag: string) {
    |tag| >= 2 && (tag[0] == 'W' || tag[0] == 'w') && tag[1] == '/'
  }

  function Unquoted(tag: string): string {
    if |tag| >= 2 && tag[0] == QUOTE && tag[|tag| - 1] == QUOTE then tag[1..|tag| - 1] else tag
  }

  function ParseEntityTag(text: string): EntityTag {
    var tag := Trimmed(text);
    if IsWeak(tag) then EntityTag(true, Unquoted(Trimmed(tag[2..]))) else EntityTag(false, Unquoted(tag))
  }

  /** What a header with a list of tags says: whether a star is in it, and the tags. */
  function Collected(tokens: seq<string>): (r: (bool, seq<EntityTag>)) {
    if tokens == [] then (false, [])
    else
      var rest := Collected(tokens[1..]);
      var trimmed := Trimmed(tokens[0]);
      if trimmed == "" then rest
      else if trimmed == "*" then (true, rest.1)
      else (rest.0, [ParseEntityTag(trimmed)] + rest.1)
  }

  method CollectTags(value: string) returns (any: bool, tags: seq<EntityTag>)
    ensures (any, tags) == Collected(Split(value, "", false))
  {
    any, tags := false, [];
    var tokens := SplitTagList(value);
    assert tokens[0..] == tokens;
    for i := 0 to |tokens|
      invariant (any || Collected(tokens[i..]).0) == Collected(tokens).0
      invariant tags + Collected(tokens[i..]).1 == Collected(tokens).1
    {
      assert tokens[i..][1..] == tokens[i + 1..] && tokens[i..][0] == tokens[i];
      var trimmed := Trimmed(tokens[i]);
      if trimmed == "*" {
        any := true;
      } else if trimmed != "" {
        tags := tags + [ParseEntityTag(trimmed)];
      }
    }
    assert Collected(tokens[|tokens|..]) == (false, []) && tags + [] == tags;
  }

  // ---------------------------------------------------------------- what the RFC says

  /** A precondition header: not there, a star, or a list of entity-tags. */
  datatype Condition = Absent | Any | OneOf(tags: seq<EntityTag>)

  /** The two comparisons of section 2.3.2 of RFC 7232. */
  predicate StrongMatch(a: EntityTag, b: EntityTag) {
    !a.weak && !b.weak && a.tag == b.tag
  }

  predicate WeakMatch(a: EntityTag, b: EntityTag) {
    a.tag == b.tag
  }

  /** Section 3.1 of RFC 7232, for a resource that has a current representation. */
  predicate IfMatchHolds(c: Condition, current: EntityTag) {
    c.OneOf? ==> exists i :: 0 <= i < |c.tags| && StrongMatch(c.tags[i], current)
  }

  /** Section 3.2 of RFC 7232. */
  predicate IfNoneMatchHolds(c: Condition, current: EntityTag) {
    match c
    case Absent => true
    case Any => false
    case OneOf(tags) => !exists i :: 0 <= i < |tags| && WeakMatch(tags[i], current)
  }

  /** Whether a full response is needed, and the status. */
  function Decision(ifMatch: Condition, ifNoneMatch: Condition, current: EntityTag): (bool, nat) {
    if !IfMatchHolds(ifMatch, current) then (false, PRECONDITION_FAILED)
    else if !IfNoneMatchHolds(ifNoneMatch, current) then (false, NOT_MODIFIED)
    else (true, OK_STATUS)
  }

  // ---------------------------------------------------------------- the filter

  /** What the filter keeps of a header. */
  function ConditionOf(header: Option<string>): Condition {
    match header
    case None => Absent
    case Some(value) =>
      var (any, tags) := Collected(Split(value, "", false));
      if any then Any else OneOf(tags)
  }

  class ETagFilter {
    var itsHasIfMatch: bool
    var itsIfMatchAny: bool
    var itsIfMatch: seq<EntityTag>
    var itsHasIfNoneMatch: bool
    var itsIfNoneMatchAny: bool
    var itsIfNoneMatch: seq<EntityTag>

    function IfMatch(): Condition
      reads this
    {
      if !itsHasIfMatch then Absent else if itsIfMatchAny then Any else OneOf(itsIfMatch)
    }

    function IfNoneMatch(): Condition
      reads this
    {
      if !itsHasIfNoneMatch then Absent else if itsIfNoneMatchAny then Any else OneOf(itsIfNoneMatch)
    }

    constructor (headers: seq<Entry>)
      ensures IfMatch() == ConditionOf(Lookup(headers, "If-Match"))
      ensures IfNoneMatch() == ConditionOf(Lookup(headers, "If-None-Match"))
    {
      itsHasIfMatch, itsIfMatchAny, itsIfMatch := false, false, [];
      itsHasIfNoneMatch, itsIfNoneMatchAny, itsIfNoneMatch := false, false, [];
      new;
      var ifMatch := Lookup(headers, "If-Match");
      if ifMatch.Some? {
        itsHasIfMatch := true;
        itsIfMatchAny, itsIfMatch := CollectTags(ifMatch.value);
      }
      var ifNoneMatch := Lookup(headers, "If-None-Match");
      if ifNoneMatch.Some? {
        itsHasIfNoneMatch := true;
        itsIfNoneMatchAny, itsIfNoneMatch := CollectTags(ifNoneMatch.value);
      }
    }

    method Evaluate(etag: string) returns (full: bool, status: nat)
      ensures (full, status) == Decision(IfMatch(), IfNoneMatch(), ParseEntityTag(etag))
    {
      if !itsHasIfMatch && !itsHasIfNoneMatch {
        return true, OK_STATUS;
      }
      var resource := ParseEntityTag(etag);
      if itsHasIfMatch {
        var matched := itsIfMatchAny;
        if !matched {
          var i := 0;
          while i < |itsIfMatch| && !matched
            invariant i <= |itsIfMatch|
            invariant matched <==> exists k :: 0 <= k < i && StrongMatch(itsIfMatch[k], resource)
          {
            var tag := itsIfMatch[i];
            if !tag.weak && !resource.weak && tag.tag == resource.tag {
              assert StrongMatch(itsIfMatch[i], resource);
              matched := true;
            }
            i := i + 1;
          }
        }
        if !matched {
          return false, PRECONDITION_FAILED;
        }
      }
      if itsHasIfNoneMatch {
        var matched := itsIfNoneMatchAny;
        if !matched {
          var i := 0;
          while i < |itsIfNoneMatch| && !matched
            invariant i <= |itsIfNoneMatch|
            invariant matched <==> exists k :: 0 <= k < i && WeakMatch(itsIfNoneMatch[k], resource)
          {
            if itsIfNoneMatch[i].tag == resource.tag {
              assert WeakMatch(itsIfNoneMatch[i], resource);
              matched := true;
            }
            i := i + 1;
          }
        }
        if matched {
          return false, NOT_MODIFIED;
        }
      }
      return true, OK_STATUS;
    }
  }

  /** No status means that the full response is needed; a frontend that probes for the tag decides itself. */
  function ResponseStatus(headers: seq<Entry>, etag: string): Option<nat> {
    var d := Decision(ConditionOf(Lookup(headers, "If-Match")), ConditionOf(Lookup(headers, "If-None-Match")),
                      ParseEntityTag(etag));
    if Lookup(headers, PROBE_HEADER).Some? || d.0 then None else Some(d.1)
  }

  method ConditionalResponseStatus(headers: seq<Entry>, etag: string) returns (status: Option<nat>)
    ensures status == ResponseStatus(headers, etag)
  {
    if Lookup(headers, PROBE_HEADER).Some? {
      return None;
    }
    var filter := new ETagFilter(headers);
    var full, code := filter.Evaluate(etag);
    status := if full then None else Some(code);
  }

  // ---------------------------------------------------------------- printed lists

  /** How a client writes a tag: the mark of a weak one, white space after it, and quotes or none. */
  datatype Spelling = Spelling(mark: string, gap: string, quoted: bool)

  /** An element of a list, between white space. */
  datatype Item = Nothing | Star | Tag(tag: EntityTag, spelling: Spelling)
  datatype Element = Element(before: string, item: Item, after: string)

  predicate StartsWeak(tag: string) {
    |tag| >= 2 && tag[0] in {'W', 'w'} && tag[1] == '/'
  }

  /** Commas and spaces are fine inside quotes, but a tag without them must not look like anything else. */
  predicate Spellable(t: EntityTag, w: Spelling) {
    && (w.mark == "W/" || w.mark == "w/") && AllIn(w.gap, Space)
    && (!w.quoted ==>
          && t.tag != "" && '\"' !in t.tag && ',' !in t.tag && !In(t.tag[0], Space) && !In(t.tag[|t.tag| - 1], Space)
          && (!t.weak ==> t.tag != "*" && !StartsWeak(t.tag)))
  }

  /** In a list the opaque text of a tag has no quote. */
  predicate Printable(e: Element) {
    && AllIn(e.before, Space) && AllIn(e.after, Space)
    && (e.item.Tag? ==> Spellable(e.item.tag, e.item.spelling) && '\"' !in e.item.tag.tag)
  }

  predicate PrintableList(es: seq<Element>) {
    es != [] && forall i :: 0 <= i < |es| ==> Printable(es[i])
  }

  function Opaque(tag: string, quoted: bool): string {
    if quoted then "\"" + tag + "\"" else tag
  }

  function SpelledTag(t: EntityTag, w: Spelling): string {
    (if t.weak then w.mark + w.gap else "") + Opaque(t.tag, w.quoted)
  }

  /** The usual way to write a tag. */
  function TagText(t: EntityTag): string {
    SpelledTag(t, Spelling("W/", "", true))
  }

  function Core(item: Item): string {
    match item
    case Nothing => ""
    case Star => "*"
    case Tag(t, w) => SpelledTag(t, w)
  }

  function ElementText(e: Element): string {
    e.before + Core(e.item) + e.after
  }

  function ListText(es: seq<Element>): string {
    if es == [] then ""
    else if |es| == 1 then ElementText(es[0])
    else ElementText(es[0]) + "," + ListText(es[1..])
  }

  function TagsOf(es: seq<Element>): seq<EntityTag> {
    if es == [] then []
    else (if es[0].item.Tag? then [es[0].item.tag] else []) + TagsOf(es[1..])
  }

  predicate HasStar(es: seq<Element>) {
    exists i :: 0 <= i < |es| && es[i].item.Star?
  }

  // ---------------------------------------------------------------- lists come back

  lemma {:induction false} SplitRun(run: string, rest: string, current: string, quoted: bool)
    requires QUOTE !in run && (quoted || ',' !in run)
    ensures Split(run + rest, current, quoted) == Split(rest, current + run, quoted)
  {
    if run == "" {
      assert run + rest == rest && current + run == current;
    } else {
      assert (run + rest)[0] == run[0] && (run + rest)[1..] == run[1..] + rest;
      assert current + [run[0]] + run[1..] == current + run;
      SplitRun(run[1..], rest, current + [run[0]], quoted);
    }
  }

  lemma SplitQuote(rest: string, current: string, quoted: bool)
    ensures Split([QUOTE] + rest, current, quoted) == Split(rest, current + [QUOTE], !quoted)
  {
    assert ([QUOTE] + rest)[1..] == rest;
  }

  lemma SplitOpaque(tag: string, quoted: bool, rest: string, current: string)
    requires QUOTE !in tag && (!quoted ==> ',' !in tag)
    ensures Split(Opaque(tag, quoted) + rest, current, false) == Split(rest, current + Opaque(tag, quoted), false)
  {
    if quoted {
      Regroup4([QUOTE], tag, [QUOTE], rest);
      SplitQuote(tag + ([QUOTE] + rest), current, false);
      SplitRun(tag, [QUOTE] + rest, current + [QUOTE], true);
      SplitQuote(rest, current + [QUOTE] + tag, true);
      Regroup4(current, [QUOTE], tag, [QUOTE]);
      Regroup3([QUOTE], tag, [QUOTE]);
      assert [QUOTE] == "\"";
    } else {
      SplitRun(tag, rest, current, false);
    }
  }

  lemma SplitTag(t: EntityTag, w: Spelling, rest: string, current: string)
    requires Spellable(t, w) && QUOTE !in t.tag
    ensures Split(SpelledTag(t, w) + rest, current, false) == Split(rest, current + SpelledTag(t, w), false)
  {
    var start, opaque_ := if t.weak then w.mark + w.gap else "", Opaque(t.tag, w.quoted);
    SpaceRun(w.gap);
    Regroup3(start, opaque_, rest);
    SplitRun(start, opaque_ + rest, current, false);
    SplitOpaque(t.tag, w.quoted, rest, current + start);
    Regroup3(current, start, opaque_);
  }

  lemma SpaceRun(s: string)
    requires AllIn(s, Space)
    ensures QUOTE !in s && ',' !in s
  {
  }

  lemma SplitElement(e: Element, rest: string, current: string)
    requires Printable(e)
    ensures Split(ElementText(e) + rest, current, false) == Split(rest, current + ElementText(e), false)
  {
    var core := Core(e.item);
    SpaceRun(e.before);
    SpaceRun(e.after);
    Regroup4(e.before, core, e.after, rest);
    SplitRun(e.before, core + (e.after + rest), current, false);
    if e.item.Tag? {
      SplitTag(e.item.tag, e.item.spelling, e.after + rest, current + e.before);
    } else {
      SplitRun(core, e.after + rest, current + e.before, false);
    }
    SplitRun(e.after, rest, current + e.before + core, false);
    Regroup4(current, e.before, core, e.after);
    Regroup3(e.before, core, e.after);
  }

  function Texts(es: seq<Element>): seq<string> {
    seq(|es|, i requires 0 <= i < |es| => ElementText(es[i]))
  }

  lemma SplitComma(e: Element, rest: string)
    requires Printable(e)
    ensures Split(ElementText(e) + "," + rest, "", false) == [ElementText(e)] + Split(rest, "", false)
  {
    var t := ElementText(e);
    Regroup3(t, ",", rest);
    SplitElement(e, "," + rest, "");
    assert "" + t == t && ("," + rest)[0] == ',' && ("," + rest)[1..] == rest;
  }

  lemma SplitLast(e: Element)
    requires Printable(e)
    ensures Split(ElementText(e), "", false) == [ElementText(e)]
  {
    SplitElement(e, "", "");
    assert ElementText(e) + "" == ElementText(e) == "" + ElementText(e);
  }

  lemma TextsCons(es: seq<Element>)
    requires es != []
    ensures Texts(es) == [ElementText(es[0])] + Texts(es[1..])
  {
  }

  /** The commas outside quotes are the ones between the elements. */
  lemma {:induction false} SplitList(es: seq<Element>)
    requires PrintableList(es)
    ensures Split(ListText(es), "", false) == Texts(es)
  {
    TextsCons(es);
    if |es| == 1 {
      SplitLast(es[0]);
      assert Texts(es[1..]) == [];
    } else {
      SplitComma(es[0], ListText(es[1..]));
      SplitList(es[1..]);
    }
  }

  lemma OpaqueEnds(tag: string, w: Spelling)
    requires Spellable(EntityTag(true, tag), w)
    ensures var q := Opaque(tag, w.quoted);
            && Unquoted(q) == tag && q != "" && !In(q[0], Space) && !In(q[|q| - 1], Space)
            && (w.quoted ==> !IsWeak(q) && q != "*")
  {
    var q := Opaque(tag, w.quoted);
    if w.quoted {
      assert q[1..|q| - 1] == tag;
    } else {
      assert tag[0] in tag;
    }
  }

  lemma TrimmedAlready(s: string)
    requires s != "" ==> !In(s[0], Space) && !In(s[|s| - 1], Space)
    ensures Trimmed(s) == s
  {
    TrimmedExact("", s, "");
    assert "" + s + "" == s;
  }

  /** However a tag is written, it is read as it was meant. */
  lemma ParseTag(t: EntityTag, w: Spelling)
    requires Spellable(t, w)
    ensures ParseEntityTag(SpelledTag(t, w)) == t && Trimmed(SpelledTag(t, w)) == SpelledTag(t, w)
    ensures SpelledTag(t, w) != "" && SpelledTag(t, w) != "*"
  {
    var s, q := SpelledTag(t, w), Opaque(t.tag, w.quoted);
    OpaqueEnds(t.tag, w);
    if t.weak {
      Regroup3(w.mark, w.gap, q);
      assert s == w.mark + (w.gap + q) && s[2..] == w.gap + q && s[|s| - 1] == q[|q| - 1];
      TrimmedAlready(s);
      TrimmedExact(w.gap, q, "");
      assert w.gap + q + "" == w.gap + q;
    } else {
      assert s == "" + q == q;
      TrimmedAlready(s);
    }
  }

  lemma ElementIsTrimmed(e: Element)
    requires Printable(e)
    ensures Trimmed(ElementText(e)) == Core(e.item)
  {
    if e.item.Tag? {
      TagIsTrimmed(e.item.tag, e.item.spelling);
    }
    TrimmedExact(e.before, Core(e.item), e.after);
  }

  lemma TagIsTrimmed(t: EntityTag, w: Spelling)
    requires Spellable(t, w)
    ensures var s := SpelledTag(t, w);
            s != "" && !In(s[0], Space) && !In(s[|s| - 1], Space)
  {
    OpaqueEnds(t.tag, w);
    var s, q := SpelledTag(t, w), Opaque(t.tag, w.quoted);
    if t.weak {
      assert s[0] == w.mark[0] && s[|s| - 1] == q[|q| - 1];
    } else {
      assert s == q;
    }
  }

  lemma {:induction false} CollectList(es: seq<Element>)
    requires forall i :: 0 <= i < |es| ==> Printable(es[i])
    ensures Collected(Texts(es)) == (HasStar(es), TagsOf(es))
  {
    if es != [] {
      var e := es[0];
      CollectList(es[1..]);
      TextsCons(es);
      ElementIsTrimmed(e);
      StarFirst(es);
      if e.item.Tag? {
        ParseTag(e.item.tag, e.item.spelling);
      }
      assert [] + TagsOf(es[1..]) == TagsOf(es[1..]);
    }
  }

  lemma StarFirst(es: seq<Element>)
    requires es != []
    ensures HasStar(es) <==> es[0].item.Star? || HasStar(es[1..])
  {
    if i :| 0 < i < |es| && es[i].item.Star? {
      assert es[1..][i - 1].item.Star?;
    }
  }

  /** A header printed from a condition: a list with a star in it, or without. */
  ghost predicate Prints(header: Option<string>, c: Condition) {
    match c
    case Absent => header == None
    case Any => exists es :: PrintableList(es) && HasStar(es) && header == Some(ListText(es))
    case OneOf(tags) =>
      exists es :: PrintableList(es) && !HasStar(es) && TagsOf(es) == tags && header == Some(ListText(es))
  }

  /** The constructor recovers exactly the printed condition. */
  lemma ConditionComesBack(header: Option<string>, c: Condition)
    requires Prints(header, c)
    ensures ConditionOf(header) == c
  {
    match c {
      case Absent =>
      case Any =>
        var es :| PrintableList(es) && HasStar(es) && header == Some(ListText(es));
        SplitList(es);
        CollectList(es);
      case OneOf(tags) =>
        var es :| PrintableList(es) && !HasStar(es) && TagsOf(es) == tags && header == Some(ListText(es));
        SplitList(es);
        CollectList(es);
    }
  }

  /** The client wants the representation only as it knows it, and it is another one, or a weak tag cannot tell. */
  predicate Outdated(ifMatch: Condition, current: EntityTag) {
    ifMatch.OneOf? && forall t :: t in ifMatch.tags ==> t != current || t.weak
  }

  /** The client has the representation already. */
  predicate Known(ifNoneMatch: Condition, current: EntityTag) {
    ifNoneMatch.Any? || (ifNoneMatch.OneOf? && exists t :: t in ifNoneMatch.tags && t.tag == current.tag)
  }

  lemma DecisionIs(ifMatch: Condition, ifNoneMatch: Condition, current: EntityTag)
    ensures Decision(ifMatch, ifNoneMatch, current)
            == if Outdated(ifMatch, current) then (false, 412)
               else if Known(ifNoneMatch, current) then (false, 304)
               else (true, 200)
  {
    if ifMatch.OneOf? {
      assert IfMatchHolds(ifMatch, current) ==> !Outdated(ifMatch, current);
      if t :| t in ifMatch.tags && t == current && !t.weak {
        var i :| 0 <= i < |ifMatch.tags| && ifMatch.tags[i] == t;
        assert StrongMatch(ifMatch.tags[i], current);
      }
    }
    if ifNoneMatch.OneOf? {
      if t :| t in ifNoneMatch.tags && t.tag == current.tag {
        var i :| 0 <= i < |ifNoneMatch.tags| && ifNoneMatch.tags[i] == t;
        assert WeakMatch(ifNoneMatch.tags[i], current);
      }
    }
  }

  /**
   For any printed preconditions and the printed tag of the current representation: 412 when If-Match names other
   representations only, by strong comparison; or else 304 when If-None-Match names the current one, by weak
   comparison; or else, and when a frontend probes for the tag, the full response.
   */
  lemma ConditionalRequests(headers: seq<Entry>, ifMatch: Condition, ifNoneMatch: Condition, current: EntityTag)
    requires Prints(Lookup(headers, "If-Match"), ifMatch) && Prints(Lookup(headers, "If-None-Match"), ifNoneMatch)
    ensures ResponseStatus(headers, TagText(current))
            == if Lookup(headers, "X-Request-ETag").Some? then None
               else if Outdated(ifMatch, current) then Some(412)
               else if Known(ifNoneMatch, current) then Some(304)
               else None
    ensures Decision(ConditionOf(Lookup(headers, "If-Match")), ConditionOf(Lookup(headers, "If-None-Match")),
                     ParseEntityTag(TagText(current)))
            == if Outdated(ifMatch, current) then (false, 412)
               else if Known(ifNoneMatch, current) then (false, 304)
               else (true, 200)
  {
    ConditionComesBack(Lookup(headers, "If-Match"), ifMatch);
    ConditionComesBack(Lookup(headers, "If-None-Match"), ifNoneMatch);
    ParseTag(current, Spelling("W/", "", true));
    DecisionIs(ifMatch, ifNoneMatch, current);
  }
}
