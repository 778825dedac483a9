/**
 * The parsed Atom document as the feed library (atom_syndication) hands it over: only the
 * parts the response parser reads. Parsing XML into these values is the library's work and
 * is not part of this model; it reaches the model as a function parameter.
 */
module Atom {
  import opened Wrappers

  /** A date-time with a fixed UTC offset; the model never looks inside one. */
  datatype DateTime = DateTime(unixSeconds: int, offsetSeconds: int)

  /** `<link rel="…" href="…"/>` (RFC 4287, section 4.2.7). */
  datatype Link = Link(rel: string, href: string)

  /** `<author>`; only its `<name>` is read. */
  datatype Person = Person(name: string)

  /** `<category term="…"/>`. */
  datatype Category = Category(term: string)

  /** `<content>`; `value` is absent when the element has no text. */
  datatype Content = Content(value: Option<string>)

  /**
   * A foreign-namespace element such as `app:edited`: its qualified name, its text, and its
   * child elements grouped by local name.
   */
  datatype Extension = Extension(name: string, value: Option<string>, children: map<string, seq<Extension>>)

  /** Extension elements keyed by namespace prefix, then by local name. */
  type ExtensionMap = map<string, map<string, seq<Extension>>>

  datatype Entry = Entry(
    title: string,
    updated: DateTime,
    authors: seq<Person>,
    categories: seq<Category>,
    links: seq<Link>,
    published: Option<DateTime>,
    content: Option<Content>,
    extensions: ExtensionMap)

  datatype Feed = Feed(links: seq<Link>, entries: seq<Entry>)
}
