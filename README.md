# Hatena Blog AtomPub client: a verified model

This project models the core of a Rust client for the Hatena Blog AtomPub API in Dafny.
The core has four parts:

- the serializer that turns entry parameters into an Atom `<entry>` request body, with
  its five-character XML escaper;
- the `EntryId` type;
- the response layer, which turns response bodies (entry, feed and category documents)
  into typed entries, ids, page cursors and category lists;
- the pure parts of the client: the collection, member and category document URIs, the
  request each operation sends, and the mapping from HTTP status to result.

Modules: one for each modelled source file, except that src/response.rs is split between `Response` and `CategoryDocument`. `Wrappers` and `Atom` have no source file of their own:

| module | file | source | form |
|---|---|---|---|
| `Wrappers` | wrappers.dfy | — | `Option`, `Result`, Rust's `Iterator::find` and `collect::<Result<Vec<_>,_>>` |
| `EntryParamsXml` | entry_params.dfy | src/entry_params.rs | `Escape` and `IntoXml` are methods with loops, proved equal to the functions `Escaped` and `EntryXml` |
| `EntryIds` | entry_id.dfy | src/entry_id.rs | a subset type of non-empty strings, with parse and print |
| `Entries` | entry.dfy | src/entry.rs | the `Entry` record |
| `Atom` | atom.dfy | — | the parsed Atom values the feed library hands over |
| `Response` | response.dfy | src/response.rs | functions over parsed Atom values |
| `CategoryDocument` | category_document.dfy | src/response.rs | the specification `Run`, a state machine, and the two scanning loops as methods proved to compute it |
| `Client` | client.dfy | src/client.rs | URI builders, request plans, the status decision |

Foreign code is passed in as function-valued parameters:

| parameter | stands for |
|---|---|
| `FeedParser` | atom_syndication's `Feed::from_str` |
| `DateParser` | chrono's RFC 3339 `FixedDateTime::from_str` |
| `QueryParser` | `Url::parse` followed by `query_pairs` |
| `Encoder` | `urlencoding::encode` |
| `Tokenizer` | quick-xml's namespaced event reader, as a sequence of events; the end of the sequence reads as `Eof` |
| `Transport` | the HTTP exchange |

Every property stated about these holds for every such parameter.

## Model

| member | source | states |
|---|---|---|
| EntryParamsXml.Escape | src/entry_params.rs:31-42 | the loop appends exactly the escaping of `s` to `t`: the result is `t + Escaped(s)` |
| EntryParamsXml.EscapedAppend | src/entry_params.rs:32-41 | escaping works character by character: escaping `a + b` is escaping `a` followed by escaping `b` |
| EntryParamsXml.EscapedLength | src/entry_params.rs:32-41 | escaped text is never shorter than the input |
| EntryParamsXml.EscapedIdentity | src/entry_params.rs:39 | text free of the five special characters passes through unchanged |
| EntryParamsXml.EscapedIsSafe | src/entry_params.rs:33-39 | escaped text contains no raw `<`, `>`, `"` or `'`, and every `&` in it starts one of `&quot;` `&amp;` `&apos;` `&lt;` `&gt;` |
| EntryParamsXml.UnescapeEscaped | src/entry_params.rs:33-39 | standard decoding of the five entities gives back the original text, so escaping loses nothing |
| EntryParamsXml.EscapeIsNotIdempotent | src/entry_params.rs:35 | text that is already escaped is escaped again: `&amp;` becomes `&amp;amp;` |
| EntryParamsXml.IntoXml | src/entry_params.rs:44-89 | the sequence of pushes builds exactly `EntryXml(p)`: the prologue, title, author name, content, updated, one category line per category, the draft block and `</entry>` |
| EntryParamsXml.PushElement | src/entry_params.rs:52-55 | one element line: the opening tag, the escaped value, the closing tag and a newline are appended to the buffer, in that order |
| EntryParamsXml.EntryXmlFrame | src/entry_params.rs:45-89 | the body starts with the XML declaration and a newline, and ends with `</entry>` |
| EntryParamsXml.ReadCategoriesOfLines | src/entry_params.rs:72-77 | the category lines read back as exactly the input list: same order, duplicates kept, one line each |
| EntryParamsXml.IntoXmlReadBack | src/entry_params.rs:52-86 | reading the fixed layout back gives every field: title, author, content and updated in that order, then the categories, then a draft flag that is the literal `yes` or `no` |
| EntryParamsXml.IntoXmlInjective | src/entry_params.rs:44-89 | different parameters always serialize to different bodies |
| EntryParamsXml.DummyIntoXml | src/entry_params.rs:97-126 | the unit test's dummy parameters serialize to exactly the expected document |
| EntryIds.Parse | src/entry_id.rs:18-27 | parsing fails exactly on the empty string; otherwise the input is stored verbatim |
| EntryIds.ToString | src/entry_id.rs:12-16 | the printed id is never empty and parses back to the same id |
| EntryIds.ParsePrintRoundTrip | src/entry_id.rs:12-27 | printing a parsed id returns the original string |
| EntryIds.EqualityIsStringEquality | src/entry_id.rs:3-4 | two ids are equal exactly when their strings are equal |
| EntryIds.ParseExamples | src/entry_id.rs:33-50 | the unit tests: `"2500000000"` round-trips, `""` fails |
| Wrappers.Find | src/response.rs:35 | the first element that satisfies the predicate, and `None` exactly when no element does |
| Wrappers.Collect | src/response.rs:236-240 | all conversions in order, or the first error; it succeeds exactly when every element converts |
| Response.FindExtension | src/response.rs:33-37 | under the given local name, the first extension with the qualified name; `None` exactly when there is none |
| Response.GetDraft | src/response.rs:30-40 | `get_draft` is true exactly when the first `app:control` has a first `app:draft` whose text is exactly "yes"; any other value and any missing piece give false |
| Response.GetEdited | src/response.rs:42-49 | `get_edited` returns the text of the first `app:edited` element, and nothing when there is no such element |
| Response.LinkHref | src/response.rs:51-65 | the href of the first link with the relation (`edit` for `get_edit_url`, `alternate` for `get_url`); `None` exactly when no link has that relation |
| Response.GetEditUrl | src/response.rs:51-57 | the href of the first `edit` link; `None` exactly when no link has relation `edit` |
| Response.GetUrl | src/response.rs:59-65 | the href of the first `alternate` link; `None` exactly when no link has relation `alternate` |
| Response.LastSegment | src/response.rs:73 | the last item of a split on `/`: a suffix with no `/` in it, preceded by `/` unless it is the whole string |
| Response.LastSegmentUnique | src/response.rs:73 | those three facts determine the last segment uniquely |
| Response.LastSegmentAfterSlash | src/response.rs:73 | the text after the last slash is recovered exactly |
| Response.GetId | src/response.rs:67-75 | there is an id exactly when there is an edit link whose last segment is non-empty, and the id prints as that segment |
| Response.GetIdOfEditLink | src/response.rs:67-75 | an edit link ending in `/2500000000`, or `/<segment>` in general, gives that id, whatever precedes it |
| Response.GetIdOfTrailingSlash | src/response.rs:67-75 | an edit link ending in `/` gives no id |
| Response.Terms | src/response.rs:80-84 | the entry's categories are every category's `term`, in document order, with no deduplication |
| Response.ToEntry | src/response.rs:77-101 | conversion is all or nothing: it succeeds exactly when the author, content text, a parseable `app:edited`, edit link, id, published date and alternate link are all present; each field of the result comes from its source |
| Response.FirstEntry | src/response.rs:103-109 | a feed without entries fails; otherwise the result is the first entry's conversion |
| Response.FirstEntryIgnoresRest | src/response.rs:103-109 | entries after the first never affect the result |
| Response.StripDeclaration | src/response.rs:114-115 | the XML declaration is removed only on an exact prefix match; any other body is left as it is |
| Response.EntryEnvelope | src/response.rs:112-116 | the text handed to the feed parser is `<feed>`, then the body without its declaration, then `</feed>` |
| Response.EnvelopeOfSerializedEntry | src/response.rs:111-118 | a body written by `into_xml` loses exactly its declaration, nothing else |
| Response.EnvelopeWithoutDeclaration | src/response.rs:114-115 | a body without the declaration is wrapped unchanged |
| Response.FromEntryXml | src/response.rs:111-118 | the result is the feed parsed from the envelope, and the call fails exactly when that parse fails |
| Response.FromFeedXml | src/response.rs:120-122 | the result is the feed parsed from the body as it is |
| Response.ToEntries | src/response.rs:236-240 | every entry is converted, in order; the list fails exactly when some entry fails to convert |
| Response.NextPage | src/response.rs:226-235 | the cursor is the first `page` query value of the first `next` link; a missing link, an unparseable URL or a missing parameter gives no cursor, not an error |
| Response.NextPageExample | src/response.rs:226-235 | on the links of the list test's feed (`first`, `next`, `alternate`), a `next` href whose query is `page=1377584217` gives the cursor "1377584217" |
| Response.NoNextLinkNoCursor | src/response.rs:226-229 | without a `next` link there is no cursor |
| Response.PartialList | src/response.rs:224-242 | the page carries the `next` cursor and all converted entries; a missing cursor never fails the page, but one unconvertible entry does |
| Response.Ids | src/response.rs:359 | the id projection keeps the number and the order of the entries |
| Response.MemberToString | src/response.rs:249-265 | a member response prints as the body it was built from |
| Response.MemberToEntry | src/response.rs:267-274 | a member body converts exactly when its envelope parses, has an entry, and that first entry converts |
| Response.EmptyFromString | src/response.rs:285-289 | every body gives the same empty response |
| Response.EmptyToString | src/response.rs:279-295 | an empty response always prints as "" |
| Response.EmptyForgetsBody | src/response.rs:276-295 | whatever the delete response said, the result prints as "" |
| Response.CategoryDocumentToString | src/response.rs:302-318 | a category document response prints as its body |
| Response.CategoryDocumentToTerms | src/response.rs:320-326 | the scanner's terms, and a scanner failure reported as `ParseEntry` |
| Response.CollectionToString | src/response.rs:333-349 | a collection response prints as its body |
| Response.CollectionToPage | src/response.rs:364-371 | a collection body converts exactly when it parses as a feed whose entries all convert |
| Response.CollectionToPartialList | src/response.rs:351-362 | the id list fails exactly when the full page fails, keeps its cursor, and lists the entries' ids in order |
| Response.FixtureFields | src/response.rs:384-441 | the get-entry fixture, with its own author, title, content and URL text, as the feed parser hands it over; its lookups give: its edit link and alternate link, the id `2500000000`, its `app:edited` text, and a draft flag of false because its `app:draft` says "no" |
| Response.FixtureToEntry | src/response.rs:384-441 | the get-entry fixture converts to the test's expected entry, field for field: id `2500000000` from the edit link, draft "no" read as false, categories Scala then Perl |
| CategoryDocument.TermsOfSpoiledPrefix | src/response.rs:137-146 | one malformed attribute, or one `term` that cannot be decoded, spoils the whole category, whatever follows it |
| CategoryDocument.CategoriesFromReader | src/response.rs:124-167 | the inner loop computes the specification's scan of the root: on success it returns the position after the root's end, and the rest of the document is scanned from there |
| CategoryDocument.FromCategoryDocumentXml | src/response.rs:169-222 | the outer loop computes exactly `ParseCategoryDocument` |
| CategoryDocument.RunCollects | src/response.rs:134-147 | inside the root, each self-closing Atom `category` adds its terms in document order; other accepted events are skipped, a nested `app:categories` start among them |
| CategoryDocument.RunSkipsBeforeRoot | src/response.rs:176-219 | before the root, events other than a root, `Eof` or an error are skipped |
| CategoryDocument.RunSkipsAfterRoot | src/response.rs:176-219 | after the root, the same events are skipped |
| CategoryDocument.RunOfRoot | src/response.rs:169-222 | a document with one root and only skippable events around it yields the root's terms |
| CategoryDocument.WellFormedDocument | src/response.rs:169-222 | a well-formed category document yields the terms of its categories, in document order, duplicates preserved |
| CategoryDocument.NoRootFails | src/response.rs:210-221 | a document without an `app:categories` start fails |
| CategoryDocument.EmptyRootFails | src/response.rs:196-208 | a self-closing `app:categories` fails |
| CategoryDocument.UnclosedRootFails | src/response.rs:153-156 | the end of input inside the root fails |
| CategoryDocument.SecondRootFails | src/response.rs:190-207 | a second `app:categories` after the first one closed fails, as a start or as a self-closing element |
| CategoryDocument.ErrorFails | src/response.rs:159-162 | a tokenizer error fails the scan wherever it occurs |
| CategoryDocument.SpoiledCategoryFails | src/response.rs:137-143 | a category with a malformed attribute or an undecodable term fails the document |
| CategoryDocument.PerlScalaExample | src/response.rs:587-606 | the unit test's document yields `["Perl", "Scala"]` |
| Client.CategoryDocumentUri | src/client.rs:97-103 | `{base}/{hatena}/{blog}/atom/category` |
| Client.CollectionUri | src/client.rs:105-115 | `{base}/{hatena}/{blog}/atom/entry`, followed by `?page=` and the encoded cursor exactly when a page is given |
| Client.MemberUri | src/client.rs:117-123 | `{base}/{hatena}/{blog}/atom/entry/{id}` |
| Client.CollectionUriOfPage | src/client.rs:112-113 | a page only appends `?page=` and the encoded cursor to the first-page URI |
| Client.MemberUriExtendsCollection | src/client.rs:105-123 | a member URI is the collection URI plus one path segment, the id |
| Client.GetIdOfMemberUri | src/client.rs:117-123 | `get_id` inverts `member_uri`: an edit link equal to the member URI of a slash-free id gives back that id |
| Client.UriExamples | src/client.rs:172-190 | the unit tests: "BASE_URL/HATENA_ID/BLOG_ID/atom/entry" and ".../atom/entry/ENTRY_ID" |
| Client.StatusOf | src/client.rs:147-151 | each named error stands for a non-2xx status |
| Client.StatusResult | src/client.rs:142-153 | a 2xx status gives the body; 400, 401, 404, 405 and 500 give their own errors, each exactly for its status; every other status gives `UnknownStatusCode` |
| Client.StatusOfRoundTrip | src/client.rs:147-151 | each named error comes back from its own status, whatever the body |
| Client.StatusExamples | src/client.rs:314-519 | the tests: 401, 404 and 500 become their errors; 200 and 201 yield the body |
| Client.Authorized | src/client.rs:131-140 | every request uses basic authentication with the Hatena id and the API key, and carries the given method, URL and body |
| Client.Exchange | src/client.rs:141-153 | a transport failure is `RequestError`; otherwise the status decides |
| Client.CreateEntryRequest | src/client.rs:46-54 | create sends a POST to the collection URI, with basic authentication; its body is exactly `EntryXml(params)`, the `into_xml` text, and so reads back as the given parameters |
| Client.UpdateEntryRequest | src/client.rs:86-95 | update sends a PUT to the member URI, with basic authentication; its body is exactly `EntryXml(params)`, the `into_xml` text, and so reads back as the given parameters |
| Client.DeleteEntryRequest | src/client.rs:56-63 | delete sends a DELETE to the member URI, without a body |
| Client.GetEntryRequest | src/client.rs:65-69 | get sends a GET to the member URI, without a body |
| Client.ListCategoriesRequest | src/client.rs:71-75 | list-categories sends a GET to the category document URI, without a body |
| Client.ListEntriesInPageRequest | src/client.rs:77-84 | list-entries sends a GET to the collection URI at the given page, without a body |
| Client.CreateEntry | src/client.rs:46-54 | succeeds exactly when the exchange does, and the member response holds the body unchanged |
| Client.UpdateEntry | src/client.rs:86-95 | succeeds exactly when the exchange does, and the member response holds the body unchanged |
| Client.GetEntry | src/client.rs:65-69 | succeeds exactly when the exchange does, and the member response holds the body unchanged |
| Client.DeleteEntry | src/client.rs:56-63 | succeeds exactly when the exchange does, and the response prints as "" |
| Client.ListCategories | src/client.rs:71-75 | succeeds exactly when the exchange does, and the category document response holds the body unchanged |
| Client.ListEntriesInPage | src/client.rs:77-84 | succeeds exactly when the exchange does, and the collection response holds the body unchanged |

## Left out

- HTTP transport: the reqwest client, the `Authorization` header encoding, `send`, `text` and async/await (src/client.rs:125-141) are network I/O. The model has a `Transport` parameter that returns a status and an optional body text.
- Atom parsing: `Feed::from_str` is a foreign library, so the model has a `FeedParser` parameter. The library's own rules are not modelled. One example is the default `alternate` relation it gives a link without `rel`.
- Date, URL and encoding libraries: RFC 3339 parsing, `Url::parse`/`query_pairs` with percent-decoding, and `urlencoding::encode` are foreign. They are parameters.
- The tokenizer: quick-xml's reader (`read_namespaced_event`, `unescaped_value`, `String::from_utf8`) is a `Tokenizer` parameter producing events.
  - Each attribute carries either its decoded value or the fact that decoding failed.
  - `trim_text` and the clearing of the event and namespace buffers change nothing the scan can observe, so they are not modelled.
- The reader as a shared object: `categories_from_reader` advances the caller's `&mut Reader`. In the model it returns the position after the root, and the caller carries on from that position.
- Values instead of buffers: `escape` appends to a `&mut String`, and `into_xml` consumes its parameters. In the model they take and return string values.
- `EntryParams::new` is the constructor of the `EntryParamsXml.EntryParams` datatype. The source validates nothing there.
- `Client::new` and `Config`: loading credentials from the environment and the default base URL are not modelled. `Config` is a plain record of the four values the client reads.
- Status range: `StatusCode` only holds values 100 to 999, while `StatusResult` accepts any integer.
- Error messages: the texts of the `thiserror` messages are not modelled.
- `entry.title` is an Atom `Text` printed with `to_string`. The model keeps it as a plain string.
- The command-line example programs get_entry.rs and list_categories.rs, and the compile-time check in tests/v0_3.rs, are not part of this model.
