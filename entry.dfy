/** The blog entry record the parser produces (src/entry.rs). */
module Entries {
  import opened EntryIds
  import Atom

  /** Every field is required: a parse that misses one produces no `Entry` at all. */
  datatype Entry = Entry(
    authorName: string,
    categories: seq<string>,
    content: string,
    draft: bool,
    editUrl: string,
    edited: Atom.DateTime,
    id: EntryId,
    published: Atom.DateTime,
    title: string,
    updated: Atom.DateTime,
    url: string)
}
