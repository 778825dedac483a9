/** The entry identifier: a string wrapper that is never empty (src/entry_id.rs). */
module EntryIds {
  import opened Wrappers

  datatype EntryIdRepr = EntryIdRepr(value: string)

  /** An `EntryId`; the only way to obtain an empty one would be to bypass `Parse`. */
  type EntryId = id: EntryIdRepr | id.value != "" witness EntryIdRepr("0")

  /** The parse error carries no information. */
  datatype EntryIdParseError = EntryIdParseError

  /** `FromStr::from_str`: fails exactly on the empty string, otherwise keeps the input verbatim. */
  function Parse(s: string): (r: Result<EntryId, EntryIdParseError>)
    ensures r.Err? <==> s == ""
    ensures r.Ok? ==> r.value.value == s
  {
    if s == "" then Err(EntryIdParseError) else Ok(EntryIdRepr(s))
  }

  /** `Display::fmt`: the id prints as the string it was parsed from. */
  function ToString(id: EntryId): (s: string)
    ensures s != ""
    ensures Parse(s) == Ok(id)
  {
    id.value
  }

  /** Printing a parsed id gives back the original string. */
  lemma ParsePrintRoundTrip(s: string)
    requires s != ""
    ensures Parse(s).Ok? && ToString(Parse(s).value) == s
  {
  }

  /** Two ids are equal exactly when the strings they print are equal. */
  lemma EqualityIsStringEquality(a: EntryId, b: EntryId)
    ensures a == b <==> ToString(a) == ToString(b)
  {
  }

  /** The unit test: "2500000000" parses and prints back; "" does not parse. */
  lemma ParseExamples()
    ensures Parse("2500000000") == Ok(EntryIdRepr("2500000000"))
    ensures ToString(Parse("2500000000").value) == "2500000000"
    ensures Parse("") == Err(EntryIdParseError)
  {
  }
}
