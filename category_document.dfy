/**
 * The category document scanner (src/response.rs, `from_category_document_xml` and
 * `categories_from_reader`). The XML tokenizer (quick-xml's namespaced reader) is a
 * parameter that turns the text into a sequence of events; reading past the end of that
 * sequence yields `Eof`, as the reader does at the end of its input.
 *
 * `Run` is the specification, a state machine over the event sequence. The two methods
 * are the source's two nested loops and are proved to compute what `Run` computes.
 */
module CategoryDocument {
  import opened Wrappers

  const AtomNamespace: string := "http://www.w3.org/2005/Atom"
  const AppNamespace: string := "http://www.w3.org/2007/app"

  /** An element name as the namespaced reader resolves it: namespace URI, if bound, and local name. */
  datatype QName = QName(ns: Option<string>, local: string)

  const AppCategories: QName := QName(Some(AppNamespace), "categories")
  const AtomCategory: QName := QName(Some(AtomNamespace), "category")

  /**
   * One item of an element's attribute iterator. `Malformed` is an iterator error; a
   * `value` of `None` is a value that cannot be unescaped or is not UTF-8. `key` is the raw
   * key, prefix included.
   */
  datatype Attribute = Malformed | Attribute(key: string, value: Option<string>)

  /** A reader event: `Other` stands for text, comments, declarations and the like; `Error` for a reader error. */
  datatype Event =
    | Start(name: QName)
    | Empty(name: QName, attributes: seq<Attribute>)
    | End(name: QName)
    | Other
    | Eof
    | Error

  /** The reader over a document's text, left to quick-xml. */
  type Tokenizer = string -> seq<Event>

  datatype ParseCategoryError = ParseCategoryError

  predicate IsRootStart(e: Event) { e.Start? && e.name == AppCategories }
  predicate IsRootEmpty(e: Event) { e.Empty? && e.name == AppCategories }
  predicate IsRootEnd(e: Event) { e.End? && e.name == AppCategories }
  predicate IsCategory(e: Event) { e.Empty? && e.name == AtomCategory }

  /**
   * The values of the `term` attributes, in order (every one of them, not just the first).
   * A malformed attribute, or a `term` whose value cannot be decoded, spoils the lot.
   */
  function TermsOf(attributes: seq<Attribute>): Option<seq<string>>
  {
    if attributes == [] then Some([])
    else
      var init :- TermsOf(attributes[..|attributes| - 1]);
      match attributes[|attributes| - 1]
      case Malformed => None
      case Attribute(key, value) =>
        if key != "term" then Some(init)
        else if value.None? then None
        else Some(init + [value.value])
  }

  /** Once an attribute has spoiled the terms, later attributes cannot repair them. */
  lemma {:induction false} TermsOfSpoiledPrefix(attributes: seq<Attribute>, j: nat)
    requires j <= |attributes|
    requires TermsOf(attributes[..j]) == None
    ensures TermsOf(attributes) == None
    decreases |attributes| - j
  {
    if j < |attributes| {
      assert attributes[..j + 1][..j] == attributes[..j];
      TermsOfSpoiledPrefix(attributes, j + 1);
    } else {
      assert attributes[..j] == attributes;
    }
  }

  /** Where the scan stands: before the root, inside it, after it, or finished with a result. */
  datatype State =
    | BeforeRoot
    | InRoot(terms: seq<string>)
    | AfterRoot(terms: seq<string>)
    | Finished(result: Result<seq<string>, ParseCategoryError>)

  const Failed: State := Finished(Err(ParseCategoryError))

  /**
   * One event. Outside the root, an `app:categories` start opens the root only the first
   * time; an empty `app:categories` always fails; `Eof` ends the document, and succeeds only
   * after a root. Inside the root, empty `atom:category` elements contribute their terms, the
   * closing `app:categories` leaves the root, and `Eof` fails. A reader error always fails;
   * anything else is skipped.
   */
  function Step(s: State, e: Event): State
  {
    match s
    case Finished(_) => s
    case BeforeRoot =>
      if IsRootStart(e) then InRoot([])
      else if IsRootEmpty(e) || e.Eof? || e.Error? then Failed
      else BeforeRoot
    case InRoot(ts) =>
      if IsCategory(e) then
        match TermsOf(e.attributes)
        case None => Failed
        case Some(more) => InRoot(ts + more)
      else if IsRootEnd(e) then AfterRoot(ts)
      else if e.Eof? || e.Error? then Failed
      else InRoot(ts)
    case AfterRoot(ts) =>
      if IsRootStart(e) || IsRootEmpty(e) || e.Error? then Failed
      else if e.Eof? then Finished(Ok(ts))
      else AfterRoot(ts)
  }

  /** The result of scanning `events` from position `i` in state `s`; the end of `events` reads as `Eof`. */
  function Run(events: seq<Event>, i: nat, s: State): Result<seq<string>, ParseCategoryError>
    requires i <= |events|
    decreases |events| - i
  {
    if s.Finished? then s.result
    else if i == |events| then Step(s, Eof).result
    else Run(events, i + 1, Step(s, events[i]))
  }

  /** The category terms a document's events describe. */
  function ParseCategoryDocument(events: seq<Event>): Result<seq<string>, ParseCategoryError>
  {
    Run(events, 0, BeforeRoot)
  }

  /** The event at position `i`: past the end the reader keeps reporting `Eof`. */
  function EventAt(events: seq<Event>, i: nat): (e: Event)
    ensures i < |events| ==> e == events[i]
    ensures i >= |events| ==> e == Eof
  {
    if i < |events| then events[i] else Eof
  }

  // ---------------------------------------------------------------------------------------
  // The two loops of the source
  // ---------------------------------------------------------------------------------------

  /**
   * `categories_from_reader`: called just after the root's start event, it collects terms
   * up to the root's end event, and returns the position after it. Its result is the scan
   * of the root's contents.
   */
  method CategoriesFromReader(events: seq<Event>, start: nat) returns (r: Result<seq<string>, ParseCategoryError>, next: nat)
    requires start <= |events|
    ensures start <= next <= |events|
    ensures r.Ok? ==> start < next
    ensures r.Err? ==> r == Err(ParseCategoryError) && Run(events, start, InRoot([])) == r
    ensures r.Ok? ==> Run(events, start, InRoot([])) == Run(events, next, AfterRoot(r.value))
  {
    var categories: seq<string> := [];
    var i := start;
    while true
      invariant start <= i <= |events|
      invariant Run(events, start, InRoot([])) == Run(events, i, InRoot(categories))
      decreases |events| - i
    {
      var e := EventAt(events, i);
      if e.Eof? || e.Error? {
        return Err(ParseCategoryError), start;
      }
      assert i < |events|;
      i := i + 1;
      if IsCategory(e) {
        ghost var before := categories;
        ghost var added: seq<string> := [];
        var attributes := e.attributes;
        for j := 0 to |attributes|
          invariant TermsOf(attributes[..j]) == Some(added)
          invariant categories == before + added
        {
          assert attributes[..j + 1][..j] == attributes[..j];
          match attributes[j]
          case Malformed =>
            TermsOfSpoiledPrefix(attributes, j + 1);
            return Err(ParseCategoryError), start;
          case Attribute(key, value) =>
            if key == "term" {
              if value.None? {
                TermsOfSpoiledPrefix(attributes, j + 1);
                return Err(ParseCategoryError), start;
              }
              categories := categories + [value.value];
              added := added + [value.value];
            }
        }
        assert attributes[..|attributes|] == attributes;
      } else if IsRootEnd(e) {
        return Ok(categories), i;
      }
    }
  }

  /** The scan state the outer loop is in, given what it has collected so far. */
  function Outer(categories: Option<seq<string>>): State
  {
    if categories.None? then BeforeRoot else AfterRoot(categories.value)
  }

  /** `from_category_document_xml`: the outer loop over the whole document. */
  method FromCategoryDocumentXml(events: seq<Event>) returns (r: Result<seq<string>, ParseCategoryError>)
    ensures r == ParseCategoryDocument(events)
  {
    var categories: Option<seq<string>> := None;
    var i := 0;
    while true
      invariant i <= |events|
      invariant ParseCategoryDocument(events) == Run(events, i, Outer(categories))
      decreases |events| - i
    {
      var e := EventAt(events, i);
      if IsRootStart(e) {
        assert i < |events|;
        if categories.None? {
          var found, next := CategoriesFromReader(events, i + 1);
          if found.Err? {
            return Err(ParseCategoryError);
          }
          categories := Some(found.value);
          i := next;
        } else {
          return Err(ParseCategoryError);
        }
      } else if IsRootEmpty(e) {
        return Err(ParseCategoryError);
      } else if e.Eof? {
        break;
      } else if e.Error? {
        return Err(ParseCategoryError);
      } else {
        i := i + 1;
      }
    }
    match categories
    case None => r := Err(ParseCategoryError);
    case Some(ts) => r := Ok(ts);
  }

  // ---------------------------------------------------------------------------------------
  // What the scan accepts
  // ---------------------------------------------------------------------------------------

  /** Skipped before the root: anything but a root start, an empty root, `Eof` or an error. */
  predicate SkippedOutside(e: Event)
  {
    !IsRootStart(e) && !IsRootEmpty(e) && !e.Eof? && !e.Error?
  }

  /**
   * Accepted inside the root: anything but the root's end, `Eof` or an error, provided the
   * categories' attributes decode. A nested `app:categories` start is accepted and ignored.
   */
  predicate AcceptedInside(e: Event)
  {
    !IsRootEnd(e) && !e.Eof? && !e.Error? && (IsCategory(e) ==> TermsOf(e.attributes).Some?)
  }

  /** The terms one event contributes inside the root. */
  function EventTerms(e: Event): seq<string>
  {
    if IsCategory(e) && TermsOf(e.attributes).Some? then TermsOf(e.attributes).value else []
  }

  /** The terms a run of events contributes inside the root, in document order. */
  function CategoryTerms(es: seq<Event>): seq<string>
  {
    if es == [] then [] else EventTerms(es[0]) + CategoryTerms(es[1..])
  }

  lemma {:induction false} RunSkipsBeforeRoot(events: seq<Event>, i: nat, k: nat)
    requires i <= k <= |events|
    requires forall j :: i <= j < k ==> SkippedOutside(events[j])
    ensures Run(events, i, BeforeRoot) == Run(events, k, BeforeRoot)
    decreases k - i
  {
    if i < k {
      RunSkipsBeforeRoot(events, i + 1, k);
    }
  }

  lemma {:induction false} RunSkipsAfterRoot(events: seq<Event>, i: nat, k: nat, ts: seq<string>)
    requires i <= k <= |events|
    requires forall j :: i <= j < k ==> SkippedOutside(events[j])
    ensures Run(events, i, AfterRoot(ts)) == Run(events, k, AfterRoot(ts))
    decreases k - i
  {
    if i < k {
      RunSkipsAfterRoot(events, i + 1, k, ts);
    }
  }

  lemma {:induction false} RunCollects(events: seq<Event>, i: nat, k: nat, ts: seq<string>)
    requires i <= k <= |events|
    requires forall j :: i <= j < k ==> AcceptedInside(events[j])
    ensures Run(events, i, InRoot(ts)) == Run(events, k, InRoot(ts + CategoryTerms(events[i..k])))
    decreases k - i
  {
    if i == k {
      assert events[i..k] == [];
      assert ts + [] == ts;
    } else {
      var e := events[i];
      assert Step(InRoot(ts), e) == InRoot(ts + EventTerms(e));
      RunCollects(events, i + 1, k, ts + EventTerms(e));
      assert events[i..k][1..] == events[i + 1..k];
      assert ts + EventTerms(e) + CategoryTerms(events[i + 1..k]) == ts + CategoryTerms(events[i..k]);
    }
  }

  /** A root opened at `open` and closed at `close`, with only skipped events around it. */
  ghost predicate RootAt(events: seq<Event>, open: nat, close: nat)
  {
    open < close < |events| &&
    (forall j :: 0 <= j < open ==> SkippedOutside(events[j])) &&
    events[open] == Start(AppCategories) &&
    (forall j :: open < j < close ==> AcceptedInside(events[j])) &&
    events[close] == End(AppCategories) &&
    (forall j :: close < j < |events| ==> SkippedOutside(events[j]))
  }

  lemma RunOfRoot(events: seq<Event>, open: nat, close: nat)
    requires RootAt(events, open, close)
    ensures ParseCategoryDocument(events) == Ok(CategoryTerms(events[open + 1..close]))
  {
    RunSkipsBeforeRoot(events, 0, open);
    RunCollects(events, open + 1, close, []);
    var ts := CategoryTerms(events[open + 1..close]);
    assert [] + ts == ts;
    RunSkipsAfterRoot(events, close + 1, |events|, ts);
  }

  /** Regrouping a five-part concatenation, stated over opaque parts. */
  lemma Regroup(a: seq<Event>, b: seq<Event>, c: seq<Event>, d: seq<Event>, e: seq<Event>)
    ensures a + b + c + d + e == (a + b) + c + (d + e)
  {
  }

  /** Where the three parts of a concatenation sit in it. */
  lemma Parts(a: seq<Event>, b: seq<Event>, c: seq<Event>)
    ensures forall j :: 0 <= j < |a| ==> (a + b + c)[j] == a[j]
    ensures forall j :: 0 <= j < |b| ==> (a + b + c)[|a| + j] == b[j]
    ensures forall j :: 0 <= j < |c| ==> (a + b + c)[|a| + |b| + j] == c[j]
    ensures (a + b + c)[|a|..|a| + |b|] == b
  {
  }

  /** A root with skipped events around it is laid out as `RootAt` describes. */
  lemma Layout(before: seq<Event>, body: seq<Event>, after: seq<Event>)
    requires forall j :: 0 <= j < |before| ==> SkippedOutside(before[j])
    requires forall j :: 0 <= j < |body| ==> AcceptedInside(body[j])
    requires forall j :: 0 <= j < |after| ==> SkippedOutside(after[j])
    ensures var events := (before + [Start(AppCategories)]) + body + ([End(AppCategories)] + after);
      RootAt(events, |before|, |before| + 1 + |body|) &&
      events[|before| + 1..|before| + 1 + |body|] == body
  {
    var pre := before + [Start(AppCategories)];
    var post := [End(AppCategories)] + after;
    var events := pre + body + post;
    Parts(pre, body, post);
    var open := |before|;
    var close := |pre| + |body|;
    forall j | 0 <= j < open ensures SkippedOutside(events[j]) {
      assert events[j] == pre[j] == before[j];
    }
    forall j | open < j < close ensures AcceptedInside(events[j]) {
      assert events[|pre| + (j - |pre|)] == body[j - |pre|];
    }
    forall j | close < j < |events| ensures SkippedOutside(events[j]) {
      assert events[close + (j - close)] == post[j - close];
      assert post[1 + (j - close - 1)] == after[j - close - 1];
    }
    assert events[open] == pre[open];
    assert events[close + 0] == post[0];
  }

  /**
   * A well-formed document: events skipped before the root, the root with contents it
   * accepts, and events skipped after it. Its result is the root's category terms in order.
   */
  lemma WellFormedDocument(before: seq<Event>, body: seq<Event>, after: seq<Event>)
    requires forall j :: 0 <= j < |before| ==> SkippedOutside(before[j])
    requires forall j :: 0 <= j < |body| ==> AcceptedInside(body[j])
    requires forall j :: 0 <= j < |after| ==> SkippedOutside(after[j])
    ensures ParseCategoryDocument(before + [Start(AppCategories)] + body + [End(AppCategories)] + after) == Ok(CategoryTerms(body))
  {
    Layout(before, body, after);
    RunOfRoot((before + [Start(AppCategories)]) + body + ([End(AppCategories)] + after), |before|, |before| + 1 + |body|);
    Regroup(before, [Start(AppCategories)], body, [End(AppCategories)], after);
  }

  /** A document with no `app:categories` start at all fails. */
  lemma {:induction false} NoRootFails(events: seq<Event>, i: nat)
    requires i <= |events|
    requires forall j :: i <= j < |events| ==> !IsRootStart(events[j])
    ensures Run(events, i, BeforeRoot) == Err(ParseCategoryError)
    decreases |events| - i
  {
    if i < |events| && Step(BeforeRoot, events[i]) == BeforeRoot {
      NoRootFails(events, i + 1);
    }
  }

  /** An empty `<app:categories/>` (a reference to another document) fails before the root. */
  lemma EmptyRootFails(before: seq<Event>, attributes: seq<Attribute>, rest: seq<Event>)
    requires forall j :: 0 <= j < |before| ==> SkippedOutside(before[j])
    ensures ParseCategoryDocument(before + [Empty(AppCategories, attributes)] + rest) == Err(ParseCategoryError)
  {
    var events := before + [Empty(AppCategories, attributes)] + rest;
    RunSkipsBeforeRoot(events, 0, |before|);
    assert events[|before|] == Empty(AppCategories, attributes);
  }

  /** A root that is never closed fails when the input ends. */
  lemma UnclosedRootFails(before: seq<Event>, body: seq<Event>)
    requires forall j :: 0 <= j < |before| ==> SkippedOutside(before[j])
    requires forall j :: 0 <= j < |body| ==> AcceptedInside(body[j])
    ensures ParseCategoryDocument(before + [Start(AppCategories)] + body) == Err(ParseCategoryError)
  {
    var events := before + [Start(AppCategories)] + body;
    RunSkipsBeforeRoot(events, 0, |before|);
    assert events[|before|] == Start(AppCategories);
    RunCollects(events, |before| + 1, |events|, []);
  }

  /** A second root after the first one, whether a start or an empty element, fails. */
  lemma SecondRootFails(before: seq<Event>, body: seq<Event>, between: seq<Event>, second: Event, rest: seq<Event>)
    requires forall j :: 0 <= j < |before| ==> SkippedOutside(before[j])
    requires forall j :: 0 <= j < |body| ==> AcceptedInside(body[j])
    requires forall j :: 0 <= j < |between| ==> SkippedOutside(between[j])
    requires IsRootStart(second) || IsRootEmpty(second)
    ensures ParseCategoryDocument(before + [Start(AppCategories)] + body + [End(AppCategories)] + between + [second] + rest)
            == Err(ParseCategoryError)
  {
    var events := before + [Start(AppCategories)] + body + [End(AppCategories)] + between + [second] + rest;
    var open := |before|;
    var close := open + 1 + |body|;
    RunSkipsBeforeRoot(events, 0, open);
    assert events[open] == Start(AppCategories);
    RunCollects(events, open + 1, close, []);
    assert events[close] == End(AppCategories);
    var ts := [] + CategoryTerms(events[open + 1..close]);
    RunSkipsAfterRoot(events, close + 1, close + 1 + |between|, ts);
    assert events[close + 1 + |between|] == second;
  }

  /** A reader error fails the scan wherever it occurs, inside the root or out of it. */
  lemma ErrorFails(events: seq<Event>, i: nat, s: State)
    requires i < |events| && events[i].Error? && !s.Finished?
    ensures Run(events, i, s) == Err(ParseCategoryError)
  {
  }

  /** A category with a malformed attribute, or an undecodable term, fails the whole document. */
  lemma SpoiledCategoryFails(events: seq<Event>, i: nat, ts: seq<string>)
    requires i < |events| && IsCategory(events[i]) && TermsOf(events[i].attributes).None?
    ensures Run(events, i, InRoot(ts)) == Err(ParseCategoryError)
  {
  }

  /** The unit test's document: two categories, listed in document order. */
  lemma PerlScalaExample()
    ensures ParseCategoryDocument([
      Other,
      Start(AppCategories),
      Empty(AtomCategory, [Attribute("term", Some("Perl"))]),
      Empty(AtomCategory, [Attribute("term", Some("Scala"))]),
      End(AppCategories)]) == Ok(["Perl", "Scala"])
  {
    var perl := Empty(AtomCategory, [Attribute("term", Some("Perl"))]);
    var scala := Empty(AtomCategory, [Attribute("term", Some("Scala"))]);
    assert TermsOf([Attribute("term", Some("Perl"))]) == Some(["Perl"]) by {
      assert [Attribute("term", Some("Perl"))][..0] == [];
      assert TermsOf([]) == Some([]);
      assert [] + ["Perl"] == ["Perl"];
    }
    assert TermsOf([Attribute("term", Some("Scala"))]) == Some(["Scala"]) by {
      assert [Attribute("term", Some("Scala"))][..0] == [];
      assert TermsOf([]) == Some([]);
      assert [] + ["Scala"] == ["Scala"];
    }
    assert CategoryTerms([perl, scala]) == ["Perl", "Scala"] by {
      assert [perl, scala][1..] == [scala];
      assert CategoryTerms([scala]) == ["Scala"];
    }
    WellFormedDocument([Other], [perl, scala], []);
    assert [Other] + [Start(AppCategories)] + [perl, scala] + [End(AppCategories)] + []
        == [Other, Start(AppCategories), perl, scala, End(AppCategories)];
  }
}
