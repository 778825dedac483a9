/**
 * Turning response bodies into entries (src/response.rs): field extraction from a parsed
 * Atom entry, the envelope that lets the feed parser read a single entry, pagination and
 * the response wrappers. The Atom parser and the date parser are parameters.
 */
module Response {
  import opened Wrappers
  import opened EntryIds
  import Atom
  import Entries
  import EntryParamsXml
  import CategoryDocument

  /** The one error every entry/collection conversion reports. */
  datatype ParseEntry = ParseEntry

  /** Atom's `Feed::from_str`, left to the library. */
  type FeedParser = string -> Option<Atom.Feed>

  /** chrono's RFC 3339 `FixedDateTime::from_str`, left to the library. */
  type DateParser = string -> Option<Atom.DateTime>

  /** `Url::parse` followed by `query_pairs`: the decoded query pairs, if the URL parses. */
  type QueryParser = string -> Option<seq<(string, string)>>

  // ---------------------------------------------------------------------------------------
  // Field extraction
  // ---------------------------------------------------------------------------------------

  /** `i` is the position of the first element of `xs` whose qualified name is `qname`. */
  ghost predicate FirstNamed(xs: seq<Atom.Extension>, i: int, qname: string)
  {
    0 <= i < |xs| && xs[i].name == qname && forall j :: 0 <= j < i ==> xs[j].name != qname
  }

  /** `i` is the position of the first link of `links` whose relation is `rel`. */
  ghost predicate FirstRel(links: seq<Atom.Link>, i: int, rel: string)
  {
    0 <= i < |links| && links[i].rel == rel && forall j :: 0 <= j < i ==> links[j].rel != rel
  }

  /**
   * The lookup shared by the extension accessors: under local name `local`, the first
   * element whose qualified name is `qname`.
   */
  function FindExtension(m: map<string, seq<Atom.Extension>>, local: string, qname: string): (r: Option<Atom.Extension>)
    ensures r.None? <==> local !in m || forall i :: 0 <= i < |m[local]| ==> m[local][i].name != qname
    ensures r.Some? ==> local in m && exists i :: FirstNamed(m[local], i, qname) && m[local][i] == r.value
    ensures local in m ==> forall i :: FirstNamed(m[local], i, qname) ==> r == Some(m[local][i])
  {
    if local in m then
      var r := Find(m[local], (e: Atom.Extension) => e.name == qname);
      if r.Some? then
        ghost var i :| 0 <= i < |m[local]| && m[local][i] == r.value && m[local][i].name == qname &&
                       forall j :: 0 <= j < i ==> m[local][j].name != qname;
        assert FirstNamed(m[local], i, qname);
        r
      else r
    else None
  }

  /** The first `app` extension with local name `local` and qualified name `qname`. */
  function AppElement(entry: Atom.Entry, local: string, qname: string): Option<Atom.Extension>
  {
    if "app" in entry.extensions then FindExtension(entry.extensions["app"], local, qname) else None
  }

  /**
   * What marks an entry as a draft: its first `app:control` element has a first
   * `app:draft` child whose text is exactly "yes".
   */
  ghost predicate MarkedDraft(entry: Atom.Entry)
  {
    "app" in entry.extensions && "control" in entry.extensions["app"] &&
    exists i :: FirstNamed(entry.extensions["app"]["control"], i, "app:control") &&
      var control := entry.extensions["app"]["control"][i];
      "draft" in control.children &&
      exists j :: FirstNamed(control.children["draft"], j, "app:draft") &&
        control.children["draft"][j].value == Some("yes")
  }

  /**
   * `get_draft`: reads the first `app:draft` of the first `app:control`. It is true exactly
   * for entries marked as drafts; any other shape, a missing block included, is false.
   */
  function GetDraft(entry: Atom.Entry): (r: bool)
    ensures r <==> MarkedDraft(entry)
  {
    var control := AppElement(entry, "control", "app:control");
    if control.None? then false
    else
      var draft := FindExtension(control.value.children, "draft", "app:draft");
      if draft.None? then false
      else
        draft.value.value == Some("yes")
  }

  /** `get_edited`: the text of the first `app:edited` element, if there is one and it has text. */
  function GetEdited(entry: Atom.Entry): (r: Option<string>)
    ensures r.Some? ==>
      "app" in entry.extensions && "edited" in entry.extensions["app"] &&
      exists i :: FirstNamed(entry.extensions["app"]["edited"], i, "app:edited") &&
        entry.extensions["app"]["edited"][i].value == r
    ensures "app" in entry.extensions && "edited" in entry.extensions["app"] ==>
      forall i :: FirstNamed(entry.extensions["app"]["edited"], i, "app:edited") ==>
        r == entry.extensions["app"]["edited"][i].value
  {
    match AppElement(entry, "edited", "app:edited")
    case None => None
    case Some(edited) => edited.value
  }

  /** The `href` of the first link with relation `rel` (`get_edit_url`, `get_url`, the next-page link). */
  function LinkHref(links: seq<Atom.Link>, rel: string): (r: Option<string>)
    ensures r.None? <==> forall i :: 0 <= i < |links| ==> links[i].rel != rel
    ensures r.Some? ==> exists i :: FirstRel(links, i, rel) && links[i].href == r.value
    ensures forall i :: FirstRel(links, i, rel) ==> r == Some(links[i].href)
  {
    var l := Find(links, (l: Atom.Link) => l.rel == rel);
    if l.Some? then
      ghost var i :| 0 <= i < |links| && links[i] == l.value && links[i].rel == rel &&
                     forall j :: 0 <= j < i ==> links[j].rel != rel;
      assert FirstRel(links, i, rel);
      Some(l.value.href)
    else None
  }

  /** `get_edit_url`: the `href` of the first `edit` link; `None` exactly when there is none. */
  function GetEditUrl(entry: Atom.Entry): (r: Option<string>)
    ensures r.None? <==> forall i :: 0 <= i < |entry.links| ==> entry.links[i].rel != "edit"
    ensures r.Some? ==> exists i :: FirstRel(entry.links, i, "edit") && entry.links[i].href == r.value
  {
    LinkHref(entry.links, "edit")
  }

  /** `get_url`: the `href` of the first `alternate` link; `None` exactly when there is none. */
  function GetUrl(entry: Atom.Entry): (r: Option<string>)
    ensures r.None? <==> forall i :: 0 <= i < |entry.links| ==> entry.links[i].rel != "alternate"
    ensures r.Some? ==> exists i :: FirstRel(entry.links, i, "alternate") && entry.links[i].href == r.value
  {
    LinkHref(entry.links, "alternate")
  }

  /**
   * The last item of `s.split('/')`: the longest suffix of `s` without a slash. It is empty
   * when `s` is empty or ends in a slash.
   */
  function LastSegment(s: string): (r: string)
    ensures |r| <= |s| && r == s[|s| - |r|..]
    ensures '/' !in r
    ensures |r| < |s| ==> s[|s| - |r| - 1] == '/'
    decreases |s|
  {
    if s == [] then []
    else if s[|s| - 1] == '/' then []
    else
      var init := s[..|s| - 1];
      var r := LastSegment(init);
      assert s[|s| - |r| - 1..] == init[|init| - |r|..] + [s[|s| - 1]];
      assert |r| < |init| ==> s[|s| - |r| - 2] == init[|init| - |r| - 1];
      r + [s[|s| - 1]]
  }

  /** The three properties of `LastSegment` determine it: it is the only such suffix. */
  lemma LastSegmentUnique(s: string, t: string)
    requires |t| <= |s| && t == s[|s| - |t|..]
    requires '/' !in t
    requires |t| < |s| ==> s[|s| - |t| - 1] == '/'
    ensures t == LastSegment(s)
    decreases |s|
  {
  }

  /** The segment after the last slash is recovered exactly. */
  lemma LastSegmentAfterSlash(prefix: string, segment: string)
    requires '/' !in segment
    ensures LastSegment(prefix + "/" + segment) == segment
  {
    var s := prefix + "/" + segment;
    assert s[|s| - |segment|..] == segment;
    assert s[|s| - |segment| - 1] == '/';
    LastSegmentUnique(s, segment);
  }

  /**
   * `get_id`: the text after the last slash of the edit link, parsed as an id. There is an
   * id exactly when there is an edit link and it does not end in a slash, and the id prints
   * as that last segment.
   */
  function GetId(entry: Atom.Entry): (r: Option<EntryId>)
    ensures r.Some? <==> GetEditUrl(entry).Some? && LastSegment(GetEditUrl(entry).value) != ""
    ensures r.Some? ==> ToString(r.value) == LastSegment(GetEditUrl(entry).value)
  {
    match LinkHref(entry.links, "edit")
    case None => None
    case Some(href) =>
      match Parse(LastSegment(href))
      case Ok(id) => Some(id)
      case Err(_) => None
  }

  /** An edit link `…/<segment>` yields the id `<segment>` whatever precedes it. */
  lemma GetIdOfEditLink(entry: Atom.Entry, prefix: string, segment: string)
    requires GetEditUrl(entry) == Some(prefix + "/" + segment)
    requires segment != "" && '/' !in segment
    ensures GetId(entry) == Some(EntryIdRepr(segment))
  {
    LastSegmentAfterSlash(prefix, segment);
  }

  /** An edit link that ends in a slash yields no id. */
  lemma GetIdOfTrailingSlash(entry: Atom.Entry, prefix: string)
    requires GetEditUrl(entry) == Some(prefix + "/")
    ensures GetId(entry).None?
  {
    var s := prefix + "/";
    assert s[|s| - 1] == '/';
  }

  /** The category terms in document order. */
  function Terms(categories: seq<Atom.Category>): (r: seq<string>)
    ensures |r| == |categories|
    ensures forall i :: 0 <= i < |categories| ==> r[i] == categories[i].term
  {
    seq(|categories|, i requires 0 <= i < |categories| => categories[i].term)
  }

  // ---------------------------------------------------------------------------------------
  // Entry conversion
  // ---------------------------------------------------------------------------------------

  /**
   * Everything `to_entry` requires of an Atom entry: an author, content with text, an
   * `app:edited` date that parses, an edit link whose last segment is an id, a publication
   * date and an alternate link. Missing any one of them is `ParseEntry`.
   */
  predicate Convertible(entry: Atom.Entry, parseDate: DateParser)
  {
    |entry.authors| > 0 &&
    entry.content.Some? && entry.content.value.value.Some? &&
    GetEdited(entry).Some? && parseDate(GetEdited(entry).value).Some? &&
    GetEditUrl(entry).Some? &&
    GetId(entry).Some? &&
    entry.published.Some? &&
    GetUrl(entry).Some?
  }

  /**
   * `to_entry`: all or nothing. It succeeds exactly when every required field is present,
   * and then each field of the result comes from its own place in the Atom entry.
   */
  function ToEntry(entry: Atom.Entry, parseDate: DateParser): (r: Result<Entries.Entry, ParseEntry>)
    ensures r.Ok? <==> Convertible(entry, parseDate)
    ensures r.Ok? ==>
      var e := r.value;
      e.authorName == entry.authors[0].name &&
      e.categories == Terms(entry.categories) &&
      Some(e.content) == entry.content.value.value &&
      e.draft == GetDraft(entry) &&
      Some(e.edited) == parseDate(GetEdited(entry).value) &&
      Some(e.editUrl) == GetEditUrl(entry) &&
      Some(e.id) == GetId(entry) &&
      Some(e.published) == entry.published &&
      e.title == entry.title &&
      e.updated == entry.updated &&
      Some(e.url) == GetUrl(entry)
  {
    if Convertible(entry, parseDate) then
      Ok(Entries.Entry(
        authorName := entry.authors[0].name,
        categories := Terms(entry.categories),
        content := entry.content.value.value.value,
        draft := GetDraft(entry),
        editUrl := GetEditUrl(entry).value,
        edited := parseDate(GetEdited(entry).value).value,
        id := GetId(entry).value,
        published := entry.published.value,
        title := entry.title,
        updated := entry.updated,
        url := GetUrl(entry).value))
    else Err(ParseEntry)
  }

  /** `first_entry`: the conversion of the first entry of the feed; an empty feed is an error. */
  function FirstEntry(feed: Atom.Feed, parseDate: DateParser): (r: Result<Entries.Entry, ParseEntry>)
    ensures feed.entries == [] ==> r == Err(ParseEntry)
    ensures feed.entries != [] ==> (r.Ok? <==> Convertible(feed.entries[0], parseDate))
    ensures r.Ok? ==> r == ToEntry(feed.entries[0], parseDate)
  {
    if feed.entries == [] then Err(ParseEntry) else ToEntry(feed.entries[0], parseDate)
  }

  /** Entries after the first never influence `FirstEntry`. */
  lemma FirstEntryIgnoresRest(links: seq<Atom.Link>, e: Atom.Entry, rest: seq<Atom.Entry>, more: seq<Atom.Entry>, parseDate: DateParser)
    ensures FirstEntry(Atom.Feed(links, [e] + rest), parseDate) == FirstEntry(Atom.Feed(links, [e] + more), parseDate)
  {
  }

  /** The XML declaration an entry response starts with; it is the one the serializer writes. */
  const XmlDeclaration: string := EntryParamsXml.XmlDeclaration

  /** `body` with a leading `XmlDeclaration` removed; no other prefix is touched. */
  function StripDeclaration(body: string): (r: string)
    ensures StartsWith(body, XmlDeclaration) ==> XmlDeclaration + r == body
    ensures !StartsWith(body, XmlDeclaration) ==> r == body
  {
    if StartsWith(body, XmlDeclaration) then body[|XmlDeclaration|..] else body
  }

  /**
   * The text `from_entry_xml` hands to the feed parser: a lone `<entry>` document rewrapped
   * as the only child of a `<feed>`.
   */
  function EntryEnvelope(body: string): (xml: string)
    ensures |xml| == 6 + |StripDeclaration(body)| + 7
    ensures xml[..6] == "<feed>" && xml[|xml| - 7..] == "</feed>"
    ensures xml[6..|xml| - 7] == StripDeclaration(body)
  {
    "<feed>" + StripDeclaration(body) + "</feed>"
  }

  /** An entry document the serializer writes loses its declaration and nothing else. */
  lemma EnvelopeOfSerializedEntry(p: EntryParamsXml.EntryParams)
    ensures EntryEnvelope(EntryParamsXml.EntryXml(p)) ==
            "<feed>" + EntryParamsXml.EntryXml(p)[|XmlDeclaration|..] + "</feed>"
  {
    EntryParamsXml.EntryXmlFrame(p);
    var x := EntryParamsXml.EntryXml(p);
    assert StartsWith(x, XmlDeclaration) by {
      assert x[..|XmlDeclaration|] == (XmlDeclaration + "\n")[..|XmlDeclaration|];
    }
  }

  /** A body without the declaration is wrapped unchanged. */
  lemma EnvelopeWithoutDeclaration(body: string)
    requires !StartsWith(body, XmlDeclaration)
    ensures EntryEnvelope(body) == "<feed>" + body + "</feed>"
  {
  }

  /** `from_entry_xml`: the feed parsed from the envelope. */
  function FromEntryXml(body: string, parseFeed: FeedParser): (r: Result<Atom.Feed, ParseEntry>)
    ensures r.Ok? <==> parseFeed(EntryEnvelope(body)).Some?
    ensures r.Ok? ==> Some(r.value) == parseFeed(EntryEnvelope(body))
  {
    match parseFeed(EntryEnvelope(body))
    case Some(feed) => Ok(feed)
    case None => Err(ParseEntry)
  }

  /** `from_feed_xml`: a collection body is a feed document as it is. */
  function FromFeedXml(body: string, parseFeed: FeedParser): (r: Result<Atom.Feed, ParseEntry>)
    ensures r.Ok? <==> parseFeed(body).Some?
    ensures r.Ok? ==> Some(r.value) == parseFeed(body)
  {
    match parseFeed(body)
    case Some(feed) => Ok(feed)
    case None => Err(ParseEntry)
  }

  // ---------------------------------------------------------------------------------------
  // Pagination
  // ---------------------------------------------------------------------------------------

  /** Converts every entry, in order; the first failure fails the whole list. */
  function ToEntries(entries: seq<Atom.Entry>, parseDate: DateParser): (r: Result<seq<Entries.Entry>, ParseEntry>)
    ensures r.Ok? <==> forall i :: 0 <= i < |entries| ==> Convertible(entries[i], parseDate)
    ensures r.Ok? ==> |r.value| == |entries| &&
                      forall i :: 0 <= i < |entries| ==> Ok(r.value[i]) == ToEntry(entries[i], parseDate)
  {
    var convert := (e: Atom.Entry) => ToEntry(e, parseDate);
    assert forall i :: 0 <= i < |entries| ==> (convert(entries[i]).Ok? <==> Convertible(entries[i], parseDate));
    Collect(entries, convert)
  }

  /** `i` is the position of the first pair named "page". */
  ghost predicate FirstPage(pairs: seq<(string, string)>, i: int)
  {
    0 <= i < |pairs| && pairs[i].0 == "page" && forall j :: 0 <= j < i ==> pairs[j].0 != "page"
  }

  /**
   * The cursor of the next page: the value of the first `page` query parameter of the first
   * `next` link. No `next` link, an unparseable URL or no `page` parameter all mean "no cursor".
   */
  function NextPage(links: seq<Atom.Link>, queryPairs: QueryParser): (r: Option<string>)
    ensures r.Some? <==>
      LinkHref(links, "next").Some? && queryPairs(LinkHref(links, "next").value).Some? &&
      exists i :: 0 <= i < |queryPairs(LinkHref(links, "next").value).value| &&
                  queryPairs(LinkHref(links, "next").value).value[i].0 == "page"
    ensures r.Some? ==> exists i :: FirstPage(queryPairs(LinkHref(links, "next").value).value, i) &&
                                   queryPairs(LinkHref(links, "next").value).value[i].1 == r.value
  {
    var href :- LinkHref(links, "next");
    var pairs :- queryPairs(href);
    var pair := Find(pairs, (p: (string, string)) => p.0 == "page");
    if pair.Some? then
      ghost var i :| 0 <= i < |pairs| && pairs[i] == pair.value && pairs[i].0 == "page" &&
                     forall j :: 0 <= j < i ==> pairs[j].0 != "page";
      assert FirstPage(pairs, i);
      Some(pair.value.1)
    else None
  }

  /** The `next` link of the list test's feed. */
  const FeedNextHref: string := "https://blog.hatena.ne.jp/test_user/test_blog/atom/entry?page=1377584217"

  /**
   * The links of the list test's feed, `first`, `next` and `alternate` in that order: when
   * the URL library decodes the `next` href to the one pair `page=1377584217`, that is the cursor.
   */
  lemma NextPageExample(queryPairs: QueryParser)
    requires queryPairs(FeedNextHref) == Some([("page", "1377584217")])
    ensures NextPage([Atom.Link("first", "https://blog.hatena.ne.jp/test_user/test_blog/atom/entry"),
                      Atom.Link("next", FeedNextHref),
                      Atom.Link("alternate", "http://test_blog.hatenablog.com/")], queryPairs)
            == Some("1377584217")
  {
    var links := [Atom.Link("first", "https://blog.hatena.ne.jp/test_user/test_blog/atom/entry"),
                  Atom.Link("next", FeedNextHref),
                  Atom.Link("alternate", "http://test_blog.hatenablog.com/")];
    assert FirstRel(links, 1, "next");
    assert FirstPage([("page", "1377584217")], 0);
  }

  /** Without a `next` link there is no cursor, whatever the other links say. */
  lemma NoNextLinkNoCursor(links: seq<Atom.Link>, queryPairs: QueryParser)
    requires forall i :: 0 <= i < |links| ==> links[i].rel != "next"
    ensures NextPage(links, queryPairs) == None
  {
  }

  /** A list page: the cursor of the next page, if any, and the entries of this one. */
  type Page = (Option<string>, seq<Entries.Entry>)

  /**
   * `partial_list`: the next-page cursor of the feed and all of its entries converted. A
   * missing cursor never fails the page; a single unconvertible entry does.
   */
  function PartialList(feed: Atom.Feed, parseDate: DateParser, queryPairs: QueryParser): (r: Result<Page, ParseEntry>)
    ensures r.Ok? <==> ToEntries(feed.entries, parseDate).Ok?
    ensures r.Ok? ==> r.value.0 == NextPage(feed.links, queryPairs)
    ensures r.Ok? ==> Ok(r.value.1) == ToEntries(feed.entries, parseDate)
  {
    var next := NextPage(feed.links, queryPairs);
    var entries :- ToEntries(feed.entries, parseDate);
    Ok((next, entries))
  }

  /** The ids of a list of entries, in the same order. */
  function Ids(entries: seq<Entries.Entry>): (r: seq<EntryId>)
    ensures |r| == |entries|
    ensures forall i :: 0 <= i < |entries| ==> r[i] == entries[i].id
  {
    seq(|entries|, i requires 0 <= i < |entries| => entries[i].id)
  }

  // ---------------------------------------------------------------------------------------
  // Response wrappers
  // ---------------------------------------------------------------------------------------

  /** The body of a create, get or update response. */
  datatype MemberResponse = MemberResponse(body: string)

  /** `Display` and `From<MemberResponse> for String`: the body, verbatim. */
  function MemberToString(response: MemberResponse): (s: string)
    ensures MemberResponse(s) == response
  {
    response.body
  }

  /**
   * `TryFrom<MemberResponse> for Entry`: the body must parse as an entry document whose
   * (first) entry converts.
   */
  function MemberToEntry(response: MemberResponse, parseFeed: FeedParser, parseDate: DateParser): (r: Result<Entries.Entry, ParseEntry>)
    ensures r.Ok? <==>
      parseFeed(EntryEnvelope(response.body)).Some? &&
      parseFeed(EntryEnvelope(response.body)).value.entries != [] &&
      Convertible(parseFeed(EntryEnvelope(response.body)).value.entries[0], parseDate)
    ensures r.Ok? ==> r == ToEntry(parseFeed(EntryEnvelope(response.body)).value.entries[0], parseDate)
  {
    var feed :- FromEntryXml(response.body, parseFeed);
    FirstEntry(feed, parseDate)
  }

  /** The body of a delete response, which is thrown away. */
  datatype EmptyResponse = EmptyResponse

  /** `From<String> for EmptyResponse`: the body is ignored. */
  function EmptyFromString(body: string): (r: EmptyResponse)
    ensures r == EmptyResponse
  {
    EmptyResponse
  }

  /** `Display` and `From<EmptyResponse> for String`: always the empty string. */
  function EmptyToString(response: EmptyResponse): (s: string)
    ensures s == ""
  {
    ""
  }

  /** Whatever the delete response said, it prints as the empty string. */
  lemma EmptyForgetsBody(a: string, b: string)
    ensures EmptyFromString(a) == EmptyFromString(b)
    ensures EmptyToString(EmptyFromString(a)) == ""
  {
  }

  /** The body of a category document response. */
  datatype CategoryDocumentResponse = CategoryDocumentResponse(body: string)

  function CategoryDocumentToString(response: CategoryDocumentResponse): (s: string)
    ensures CategoryDocumentResponse(s) == response
  {
    response.body
  }

  /**
   * `TryFrom<CategoryDocumentResponse> for Vec<String>`: the scanner's result, with its
   * `ParseCategoryError` reported as `ParseEntry`.
   */
  function CategoryDocumentToTerms(response: CategoryDocumentResponse, tokenize: CategoryDocument.Tokenizer): (r: Result<seq<string>, ParseEntry>)
    ensures r.Ok? <==> CategoryDocument.ParseCategoryDocument(tokenize(response.body)).Ok?
    ensures r.Ok? ==> Ok(r.value) == CategoryDocument.ParseCategoryDocument(tokenize(response.body))
  {
    match CategoryDocument.ParseCategoryDocument(tokenize(response.body))
    case Ok(terms) => Ok(terms)
    case Err(_) => Err(ParseEntry)
  }

  /** The body of a list response. */
  datatype CollectionResponse = CollectionResponse(body: string)

  function CollectionToString(response: CollectionResponse): (s: string)
    ensures CollectionResponse(s) == response
  {
    response.body
  }

  /** `TryFrom<CollectionResponse> for (Option<String>, Vec<Entry>)`. */
  function CollectionToPage(response: CollectionResponse, parseFeed: FeedParser, parseDate: DateParser, queryPairs: QueryParser): (r: Result<Page, ParseEntry>)
    ensures r.Ok? <==> parseFeed(response.body).Some? && ToEntries(parseFeed(response.body).value.entries, parseDate).Ok?
    ensures r.Ok? ==> r == PartialList(parseFeed(response.body).value, parseDate, queryPairs)
  {
    var feed :- FromFeedXml(response.body, parseFeed);
    PartialList(feed, parseDate, queryPairs)
  }

  /**
   * `TryFrom<CollectionResponse> for PartialList`: the same page with each entry reduced to
   * its id. It fails exactly when the full page fails, keeps the cursor, and lists the ids
   * in entry order.
   */
  function CollectionToPartialList(response: CollectionResponse, parseFeed: FeedParser, parseDate: DateParser, queryPairs: QueryParser): (r: Result<(Option<string>, seq<EntryId>), ParseEntry>)
    ensures var full := CollectionToPage(response, parseFeed, parseDate, queryPairs);
      (r.Ok? <==> full.Ok?) &&
      (r.Ok? ==> r.value.0 == full.value.0 &&
                 |r.value.1| == |full.value.1| &&
                 forall i :: 0 <= i < |full.value.1| ==> r.value.1[i] == full.value.1[i].id)
  {
    var feed :- FromFeedXml(response.body, parseFeed);
    var page :- PartialList(feed, parseDate, queryPairs);
    Ok((page.0, Ids(page.1)))
  }

  // ---------------------------------------------------------------------------------------
  // The get-entry fixture
  // ---------------------------------------------------------------------------------------

  /** The fixture's author name; the same placeholder stands for the ids in its URLs. */
  const FixtureAuthor: string := "{?????????ID}"
  const FixtureTitle: string := "??????????????????"
  /** The text of the fixture's `text/x-hatena-syntax` content, its surrounding whitespace included. */
  const FixtureContent: string := "\n    ** ????????????\n    - ?????????1\n    - ?????????2\n    ??????\n  "
  const FixtureEditBase: string := "https://blog.hatena.ne.jp/{?????????ID}/{?????????ID}/atom/edit"
  const FixtureEditUrl: string := FixtureEditBase + "/" + "2500000000"
  const FixtureUrl: string := "http://{?????????ID}/entry/2013/09/02/112823"
  const FixtureEditedText: string := "2013-09-02T11:28:25+09:00"

  /**
   * The get-entry fixture of src/response.rs as the feed parser would hand it over: its
   * author, title, content text, edit and alternate links, two categories, `app:edited` and a
   * draft flag of "no". The parsed `updated` and `published` dates are parameters.
   */
  function FixtureEntry(updated: Atom.DateTime, published: Atom.DateTime): Atom.Entry
  {
    Atom.Entry(
      title := FixtureTitle,
      updated := updated,
      authors := [Atom.Person(FixtureAuthor)],
      categories := [Atom.Category("Scala"), Atom.Category("Perl")],
      links := [Atom.Link("edit", FixtureEditUrl), Atom.Link("alternate", FixtureUrl)],
      published := Some(published),
      content := Some(Atom.Content(Some(FixtureContent))),
      extensions := map[
        "app" := map[
          "control" := [Atom.Extension("app:control", Some(""),
                          map["draft" := [Atom.Extension("app:draft", Some("no"), map[])]])],
          "edited" := [Atom.Extension("app:edited", Some(FixtureEditedText), map[])]]])
  }

  /** What the field accessors find in the fixture. */
  lemma FixtureFields(updated: Atom.DateTime, published: Atom.DateTime)
    ensures var e := FixtureEntry(updated, published);
      GetEditUrl(e) == Some(FixtureEditUrl) && GetUrl(e) == Some(FixtureUrl) &&
      GetId(e) == Some(EntryIdRepr("2500000000")) &&
      GetEdited(e) == Some(FixtureEditedText) && !GetDraft(e)
  {
    var e := FixtureEntry(updated, published);
    assert FirstRel(e.links, 0, "edit");
    assert FirstRel(e.links, 1, "alternate");
    GetIdOfEditLink(e, FixtureEditBase, "2500000000");
    assert FirstNamed(e.extensions["app"]["edited"], 0, "app:edited");
    assert FirstNamed(e.extensions["app"]["control"], 0, "app:control");
  }

  /** The fixture converts: id from the edit link, draft "no" read as false, categories in order. */
  lemma FixtureToEntry(updated: Atom.DateTime, published: Atom.DateTime, edited: Atom.DateTime, parseDate: DateParser)
    requires parseDate(FixtureEditedText) == Some(edited)
    ensures ToEntry(FixtureEntry(updated, published), parseDate) == Ok(Entries.Entry(
      authorName := FixtureAuthor,
      categories := ["Scala", "Perl"],
      content := FixtureContent,
      draft := false,
      editUrl := FixtureEditUrl,
      edited := edited,
      id := EntryIdRepr("2500000000"),
      published := published,
      title := FixtureTitle,
      updated := updated,
      url := FixtureUrl))
  {
    FixtureFields(updated, published);
    var e := FixtureEntry(updated, published);
    var terms := Terms([Atom.Category("Scala"), Atom.Category("Perl")]);
    assert terms == ["Scala", "Perl"] by {
      assert |terms| == 2 && terms[0] == "Scala" && terms[1] == "Perl";
    }
  }
}
