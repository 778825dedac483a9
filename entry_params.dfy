/**
 * The outbound entry document (src/entry_params.rs): the parameters of a new or
 * updated blog entry and their serialisation into an Atom entry (RFC 4287,
 * section 4.1.2) with the AtomPub draft control (RFC 5023, section 13.1.1).
 */
module EntryParamsXml {
  import opened Wrappers

  /**
   * `EntryParams`. `EntryParams::new` is this datatype's constructor: it stores its six
   * arguments as they are, with no validation (`updated` is not checked to be a date).
   */
  datatype EntryParams = EntryParams(
    authorName: string,
    title: string,
    content: string,
    updated: string,
    categories: seq<string>,
    draft: bool)

  // ---------------------------------------------------------------------------
  // Escaping (the inner `escape` of `into_xml`)

  /** The five characters that have a predefined entity in section 4.6 of XML 1.0. */
  predicate IsSpecial(c: char)
  {
    c == '"' || c == '&' || c == '\'' || c == '<' || c == '>'
  }

  /** What `escape` appends for one character. */
  function EscapeChar(c: char): string
  {
    match c
    case '"' => "&quot;"
    case '&' => "&amp;"
    case '\'' => "&apos;"
    case '<' => "&lt;"
    case '>' => "&gt;"
    case _ => [c]
  }

  /** `f` applied to every character of `s`, the pieces concatenated in order. */
  function FlatMap(s: string, f: char -> string): string
  {
    if s == [] then [] else FlatMap(s[..|s| - 1], f) + f(s[|s| - 1])
  }

  /** What `escape(t, s)` appends to `t`: the characters of `s`, each escaped, in order. */
  function Escaped(s: string): string
  {
    FlatMap(s, EscapeChar)
  }

  /**
   * `escape`: for each character of `s` in turn, push its entity or the character itself
   * onto `t`. The `&mut String` buffer is passed in and handed back.
   */
  method Escape(t: string, s: string) returns (r: string)
    ensures r == t + Escaped(s)
  {
    r := t;
    for i := 0 to |s|
      invariant r == t + Escaped(s[..i])
    {
      var c := s[i];
      ghost var before := r;
      match c {
        case '"' => r := r + "&quot;";
        case '&' => r := r + "&amp;";
        case '\'' => r := r + "&apos;";
        case '<' => r := r + "&lt;";
        case '>' => r := r + "&gt;";
        case _ => r := r + [c];
      }
      assert r == before + EscapeChar(c);
      FlatMapPrefix(s, i, EscapeChar);
    }
    assert s[..|s|] == s;
  }

  lemma FlatMapPrefix(s: string, i: nat, f: char -> string)
    requires i < |s|
    ensures FlatMap(s[..i + 1], f) == FlatMap(s[..i], f) + f(s[i])
  {
    assert s[..i + 1][..i] == s[..i];
  }

  lemma {:induction false} FlatMapAppend(a: string, b: string, f: char -> string)
    ensures FlatMap(a + b, f) == FlatMap(a, f) + FlatMap(b, f)
    decreases |b|
  {
    if b == [] {
      assert a + b == a;
    } else {
      var ab := a + b;
      assert ab[..|ab| - 1] == a + b[..|b| - 1];
      assert ab[|ab| - 1] == b[|b| - 1];
      FlatMapAppend(a, b[..|b| - 1], f);
      assert FlatMap(b, f) == FlatMap(b[..|b| - 1], f) + f(b[|b| - 1]);
    }
  }

  /** Escaping only appends: escaping `a + b` is escaping `a`, then escaping `b`. */
  lemma EscapedAppend(a: string, b: string)
    ensures Escaped(a + b) == Escaped(a) + Escaped(b)
  {
    FlatMapAppend(a, b, EscapeChar);
  }

  lemma {:induction false} FlatMapLength(s: string, f: char -> string)
    requires forall c :: |f(c)| >= 1
    ensures |FlatMap(s, f)| >= |s|
  {
    if s != [] {
      FlatMapLength(s[..|s| - 1], f);
    }
  }

  /** Escaping never shortens its input. */
  lemma EscapedLength(s: string)
    ensures |Escaped(s)| >= |s|
  {
    FlatMapLength(s, EscapeChar);
  }

  lemma {:induction false} FlatMapIdentity(s: string, f: char -> string)
    requires forall i :: 0 <= i < |s| ==> f(s[i]) == [s[i]]
    ensures FlatMap(s, f) == s
  {
    if s != [] {
      var init, last := s[..|s| - 1], s[|s| - 1];
      forall i | 0 <= i < |init|
        ensures f(init[i]) == [init[i]]
      {
        assert init[i] == s[i];
      }
      FlatMapIdentity(init, f);
      assert f(last) == [last];
      assert s == init + [last];
    }
  }

  /** A string with none of the five special characters is copied unchanged. */
  lemma EscapedIdentity(s: string)
    requires forall i :: 0 <= i < |s| ==> !IsSpecial(s[i])
    ensures Escaped(s) == s
  {
    FlatMapIdentity(s, EscapeChar);
  }

  /** `s` begins with one of the five predefined entities. */
  predicate StartsEntity(s: string)
  {
    StartsWith(s, "&quot;") || StartsWith(s, "&amp;") || StartsWith(s, "&apos;") ||
    StartsWith(s, "&lt;") || StartsWith(s, "&gt;")
  }

  /** No raw `<`, `>`, `"` or `'` in `e`. */
  predicate NoRawMarkup(e: string)
  {
    forall i :: 0 <= i < |e| ==> e[i] != '<' && e[i] != '>' && e[i] != '"' && e[i] != '\''
  }

  /** Every `&` in `e` begins one of the five entities. */
  predicate AmpersandsStartEntities(e: string)
  {
    forall i :: 0 <= i < |e| && e[i] == '&' ==> StartsEntity(e[i..])
  }

  lemma StartsEntityAppend(a: string, b: string)
    requires StartsEntity(a)
    ensures StartsEntity(a + b)
  {
    if StartsWith(a, "&quot;") { StartsWithAppend(a, b, "&quot;"); }
    if StartsWith(a, "&amp;") { StartsWithAppend(a, b, "&amp;"); }
    if StartsWith(a, "&apos;") { StartsWithAppend(a, b, "&apos;"); }
    if StartsWith(a, "&lt;") { StartsWithAppend(a, b, "&lt;"); }
    if StartsWith(a, "&gt;") { StartsWithAppend(a, b, "&gt;"); }
  }

  /** Both safety properties survive concatenation. */
  lemma SafeAppend(a: string, b: string)
    requires NoRawMarkup(a) && AmpersandsStartEntities(a)
    requires NoRawMarkup(b) && AmpersandsStartEntities(b)
    ensures NoRawMarkup(a + b) && AmpersandsStartEntities(a + b)
  {
    var e := a + b;
    forall i | 0 <= i < |e| && e[i] == '&'
      ensures StartsEntity(e[i..])
    {
      if i < |a| {
        assert e[i..] == a[i..] + b;
        StartsEntityAppend(a[i..], b);
      } else {
        assert e[i..] == b[i - |a|..];
      }
    }
  }

  /** An entity is safe: its one `&` stands at the front. */
  lemma EntityAmpersands(x: string)
    requires StartsEntity(x) && 0 < |x| && forall i :: 1 <= i < |x| ==> x[i] != '&'
    ensures AmpersandsStartEntities(x)
  {
    forall i | 0 <= i < |x| && x[i] == '&'
      ensures StartsEntity(x[i..])
    {
      assert x[i..] == x;
    }
  }

  lemma EscapeCharSafe(c: char)
    ensures NoRawMarkup(EscapeChar(c)) && AmpersandsStartEntities(EscapeChar(c))
  {
    if IsSpecial(c) {
      var x := EscapeChar(c);
      assert x[0..] == x;
      EntityAmpersands(x);
    }
  }

  /** Escaped text holds no raw markup character, and each `&` in it starts an entity. */
  lemma {:induction false} FlatMapSafe(s: string, f: char -> string)
    requires forall c :: NoRawMarkup(f(c)) && AmpersandsStartEntities(f(c))
    ensures NoRawMarkup(FlatMap(s, f)) && AmpersandsStartEntities(FlatMap(s, f))
  {
    if s != [] {
      FlatMapSafe(s[..|s| - 1], f);
      SafeAppend(FlatMap(s[..|s| - 1], f), f(s[|s| - 1]));
    }
  }

  /** Escaped text holds no raw markup character, and each `&` in it starts an entity. */
  lemma EscapedIsSafe(s: string)
    ensures NoRawMarkup(Escaped(s))
    ensures AmpersandsStartEntities(Escaped(s))
  {
    forall c { EscapeCharSafe(c); }
    FlatMapSafe(s, EscapeChar);
  }

  /** An `&` already in the input is escaped again, never passed through. */
  lemma EscapeIsNotIdempotent()
    ensures Escaped("&amp;") == "&amp;amp;"
  {
    assert "&amp;" == "&" + "amp;";
    EscapedAppend("&", "amp;");
    assert "&"[..0] == [];
    EscapedIdentity("amp;");
  }

  /**
   * Standard decoding of the five predefined entities, as an XML reader performs it;
   * any other character, including an `&` that starts no entity, is kept.
   */
  function Unescape(e: string): string
    decreases |e|
  {
    if e == [] then []
    else if StartsWith(e, "&quot;") then "\"" + Unescape(e[6..])
    else if StartsWith(e, "&amp;") then "&" + Unescape(e[5..])
    else if StartsWith(e, "&apos;") then "'" + Unescape(e[6..])
    else if StartsWith(e, "&lt;") then "<" + Unescape(e[4..])
    else if StartsWith(e, "&gt;") then ">" + Unescape(e[4..])
    else [e[0]] + Unescape(e[1..])
  }

  lemma UnescapeEscapeChar(c: char, rest: string)
    ensures Unescape(EscapeChar(c) + rest) == [c] + Unescape(rest)
  {
    if IsSpecial(c) {
      UnescapeEntity(c, rest);
    } else {
      UnescapePlain(c, rest);
    }
  }

  lemma UnescapeEntity(c: char, rest: string)
    requires IsSpecial(c)
    ensures Unescape(EscapeChar(c) + rest) == [c] + Unescape(rest)
  {
    var e := EscapeChar(c) + rest;
    var n := |EscapeChar(c)|;
    assert e[..n] == EscapeChar(c) && e[n..] == rest;
    if c == '"' {
      assert StartsWith(e, "&quot;");
    } else if c == '&' {
      assert !StartsWith(e, "&quot;");
      assert StartsWith(e, "&amp;");
    } else if c == '\'' {
      assert e[2] == 'p';
      assert !StartsWith(e, "&quot;") && !StartsWith(e, "&amp;");
      assert StartsWith(e, "&apos;");
    } else if c == '<' {
      assert e[1] == 'l';
      assert !StartsWith(e, "&quot;") && !StartsWith(e, "&amp;") && !StartsWith(e, "&apos;");
      assert StartsWith(e, "&lt;");
    } else {
      assert e[1] == 'g';
      assert !StartsWith(e, "&quot;") && !StartsWith(e, "&amp;") && !StartsWith(e, "&apos;");
      assert !StartsWith(e, "&lt;");
      assert StartsWith(e, "&gt;");
    }
  }

  lemma UnescapePlain(c: char, rest: string)
    requires !IsSpecial(c)
    ensures Unescape(EscapeChar(c) + rest) == [c] + Unescape(rest)
  {
    var e := [c] + rest;
    assert EscapeChar(c) == [c];
    assert e[0] == c;
    assert !StartsWith(e, "&quot;") && !StartsWith(e, "&amp;") && !StartsWith(e, "&apos;");
    assert !StartsWith(e, "&lt;") && !StartsWith(e, "&gt;");
    assert e[1..] == rest;
  }

  lemma EscapedSingle(c: char)
    ensures Escaped([c]) == EscapeChar(c)
  {
    assert [c][..0] == [];
    assert FlatMap([c], EscapeChar) == FlatMap([], EscapeChar) + EscapeChar(c);
  }

  /** Decoding escaped text gives back the original text, the five special characters included. */
  lemma {:induction false} UnescapeEscaped(s: string)
    ensures Unescape(Escaped(s)) == s
  {
    if s != [] {
      calc {
        Unescape(Escaped(s));
        { assert s == [s[0]] + s[1..]; EscapedAppend([s[0]], s[1..]); EscapedSingle(s[0]); }
        Unescape(EscapeChar(s[0]) + Escaped(s[1..]));
        { UnescapeEscapeChar(s[0], Escaped(s[1..])); }
        [s[0]] + Unescape(Escaped(s[1..]));
        { UnescapeEscaped(s[1..]); }
        s;
      }
    }
  }

  // ---------------------------------------------------------------------------
  // The document layout (`into_xml`)

  const XmlDeclaration := "<?xml version=\"1.0\" encoding=\"utf-8\"?>"
  const EntryStart := "<entry xmlns=\"http://www.w3.org/2005/Atom\""
  const AppNamespace := "       xmlns:app=\"http://www.w3.org/2007/app\">"

  /** The declaration and the `<entry>` start tag with the Atom and `app` namespaces: three lines. */
  const Prologue := XmlDeclaration + "\n" + EntryStart + "\n" + AppNamespace + "\n"

  const TitleOpen := "  <title>"
  const TitleClose := "</title>"
  const AuthorOpen := "  <author><name>"
  const AuthorClose := "</name></author>"
  const ContentOpen := "  <content type=\"text/plain\">"
  const ContentClose := "</content>"
  const UpdatedOpen := "  <updated>"
  const UpdatedClose := "</updated>"
  const CategoryOpen := "  <category term=\""
  const CategoryClose := "\" />"
  const ControlOpen := "  <app:control>"
  const DraftOpen := "    <app:draft>"
  const DraftClose := "</app:draft>"
  const ControlClose := "  </app:control>"
  const EntryClose := "</entry>"

  /** One line: an escaped text value between two fixed pieces of markup. */
  function Element(open: string, value: string, close: string): string
  {
    open + Escaped(value) + close + "\n"
  }

  /** One `<category term="…" />` line per term, in order. */
  function CategoryLines(terms: seq<string>): string
  {
    if terms == [] then []
    else CategoryLines(terms[..|terms| - 1]) + Element(CategoryOpen, terms[|terms| - 1], CategoryClose)
  }

  /** The draft flag as the literal `yes` or `no`. */
  function DraftFlag(draft: bool): string
  {
    if draft then "yes" else "no"
  }

  /** The `app:control` block; the flag is written as it is, not escaped. */
  function DraftBlock(draft: bool): string
  {
    ControlOpen + "\n" + DraftOpen + DraftFlag(draft) + DraftClose + "\n" + ControlClose + "\n"
  }

  /** Everything `into_xml` writes before the category lines. */
  function Head(p: EntryParams): string
  {
    Prologue +
    Element(TitleOpen, p.title, TitleClose) +
    Element(AuthorOpen, p.authorName, AuthorClose) +
    Element(ContentOpen, p.content, ContentClose) +
    Element(UpdatedOpen, p.updated, UpdatedClose)
  }

  /**
   * The document in its fixed order: declaration, `<entry>`, title, author name, plain-text
   * content, updated, the categories, the draft control, `</entry>`.
   */
  function EntryXml(p: EntryParams): string
  {
    Head(p) + CategoryLines(p.categories) + DraftBlock(p.draft) + EntryClose
  }

  // Regrouping steps for string concatenation. Stated over opaque arguments, they spare
  // the solver from unfolding the literal tags and escaped values they are applied to.

  lemma AppendEmpty(x: string)
    ensures "" + x == x && x + "" == x
  {
  }

  lemma Assoc(a: string, b: string, c: string)
    ensures a + b + c == a + (b + c)
  {
  }

  lemma Assoc4(s: string, a: string, b: string, c: string, d: string)
    ensures s + a + b + c + d == s + (a + b + c + d)
  {
  }

  lemma Assoc8(s: string, a: string, b: string, c: string, d: string, e: string, f: string, g: string, h: string)
    ensures s + a + b + c + d + e + f + g + h == s + (a + b + c + d + e + f + g + h)
  {
  }

  lemma CategoryLinesPrefix(terms: seq<string>, i: nat)
    requires i < |terms|
    ensures CategoryLines(terms[..i + 1]) == CategoryLines(terms[..i]) + Element(CategoryOpen, terms[i], CategoryClose)
  {
    assert terms[..i + 1][..i] == terms[..i];
  }

  /** One element line of `into_xml`: the opening tag, the escaped value, the closing tag, a newline. */
  method PushElement(s: string, open: string, value: string, close: string) returns (r: string)
    ensures r == s + Element(open, value, close)
  {
    r := s + open;
    r := Escape(r, value);
    r := r + close;
    r := r + "\n";
    Assoc4(s, open, Escaped(value), close, "\n");
  }

  /** `EntryParams::into_xml`: builds the document one push at a time. */
  method IntoXml(p: EntryParams) returns (s: string)
    ensures s == EntryXml(p)
  {
    s := "";
    s := s + XmlDeclaration;
    AppendEmpty(XmlDeclaration);
    s := s + "\n";
    s := s + EntryStart;
    s := s + "\n";
    s := s + AppNamespace;
    s := s + "\n";

    s := PushElement(s, TitleOpen, p.title, TitleClose);
    s := PushElement(s, AuthorOpen, p.authorName, AuthorClose);
    s := PushElement(s, ContentOpen, p.content, ContentClose);
    s := PushElement(s, UpdatedOpen, p.updated, UpdatedClose);

    AppendEmpty(s);
    for i := 0 to |p.categories|
      invariant s == Head(p) + CategoryLines(p.categories[..i])
    {
      s := PushElement(s, CategoryOpen, p.categories[i], CategoryClose);
      CategoryLinesPrefix(p.categories, i);
      Assoc(Head(p), CategoryLines(p.categories[..i]), Element(CategoryOpen, p.categories[i], CategoryClose));
    }
    assert p.categories[..|p.categories|] == p.categories;

    ghost var before := s;
    s := s + ControlOpen;
    s := s + "\n";
    s := s + DraftOpen;
    s := s + (if p.draft then "yes" else "no");
    s := s + DraftClose;
    s := s + "\n";
    s := s + ControlClose;
    s := s + "\n";
    Assoc8(before, ControlOpen, "\n", DraftOpen, DraftFlag(p.draft), DraftClose, "\n", ControlClose, "\n");

    s := s + EntryClose;
  }

  lemma PrefixOfAppend(a: string, b: string)
    ensures StartsWith(a + b, a)
    ensures (a + b)[..|a|] == a && (a + b)[|a|..] == b
  {
  }

  /** The document starts with the XML declaration and a newline, and ends with `</entry>`. */
  lemma EntryXmlFrame(p: EntryParams)
    ensures StartsWith(EntryXml(p), XmlDeclaration + "\n")
    ensures |EntryXml(p)| >= |EntryClose| && EntryXml(p)[|EntryXml(p)| - |EntryClose|..] == EntryClose
  {
    EntryXmlIsPrologueAndBody(p);
    var d := XmlDeclaration + "\n";
    PrefixOfAppend(d, EntryStart);
    StartsWithAppend(d + EntryStart, "\n", d);
    StartsWithAppend(d + EntryStart + "\n", AppNamespace, d);
    StartsWithAppend(d + EntryStart + "\n" + AppNamespace, "\n", d);
    StartsWithAppend(Prologue, Body(p), d);
    var body := Head(p) + CategoryLines(p.categories) + DraftBlock(p.draft);
    PrefixOfAppend(body, EntryClose);
  }

  // ---------------------------------------------------------------------------
  // Reading the layout back

  /** Splits `s` at the first occurrence of `d`: the text before it and the rest from `d` on. */
  function SplitAt(s: string, d: char): (r: (string, string))
    ensures |r.0| + |r.1| == |s|
  {
    if s == [] then ([], [])
    else if s[0] == d then ([], s)
    else var (a, b) := SplitAt(s[1..], d); ([s[0]] + a, b)
  }

  /** A value free of `d`, followed by text that starts with `d`, splits back into the two. */
  lemma {:induction false} SplitAtValue(u: string, rest: string, d: char)
    requires forall i :: 0 <= i < |u| ==> u[i] != d
    requires rest != [] && rest[0] == d
    ensures SplitAt(u + rest, d) == (u, rest)
  {
    if u == [] {
      assert u + rest == rest;
    } else {
      var s := u + rest;
      assert s[0] == u[0] && s[0] != d;
      assert s[1..] == u[1..] + rest;
      SplitAtValue(u[1..], rest, d);
      assert [u[0]] + u[1..] == u;
    }
  }

  /**
   * Reads `open`, an escaped text up to the next `<`, `close` and a newline; gives the
   * decoded text and what follows.
   */
  function ReadElement(s: string, open: string, close: string): Option<(string, string)>
  {
    if !StartsWith(s, open) then None
    else
      var (t, rest) := SplitAt(s[|open|..], '<');
      if StartsWith(rest, close + "\n") then Some((Unescape(t), rest[|close + "\n"|..])) else None
  }

  /** Reads consecutive category lines; stops at the first line that is not one. */
  function ReadCategories(s: string): (seq<string>, string)
    decreases |s|
  {
    if !StartsWith(s, CategoryOpen) then ([], s)
    else
      var (t, rest) := SplitAt(s[|CategoryOpen|..], '"');
      if !StartsWith(rest, CategoryClose + "\n") then ([], s)
      else
        var (ts, tail) := ReadCategories(rest[|CategoryClose + "\n"|..]);
        ([Unescape(t)] + ts, tail)
  }

  function ReadDraft(s: string): Option<bool>
  {
    if s == DraftBlock(true) + EntryClose then Some(true)
    else if s == DraftBlock(false) + EntryClose then Some(false)
    else None
  }

  /**
   * A reader for exactly the layout `into_xml` writes: recovers every field, decoding
   * entities, or gives `None` for any other text.
   */
  function ReadBack(x: string): Option<EntryParams>
  {
    if !StartsWith(x, Prologue) then None
    else
      var (title, r1) :- ReadElement(x[|Prologue|..], TitleOpen, TitleClose);
      var (author, r2) :- ReadElement(r1, AuthorOpen, AuthorClose);
      var (content, r3) :- ReadElement(r2, ContentOpen, ContentClose);
      var (updated, r4) :- ReadElement(r3, UpdatedOpen, UpdatedClose);
      var (categories, r5) := ReadCategories(r4);
      var draft :- ReadDraft(r5);
      Some(EntryParams(author, title, content, updated, categories, draft))
  }

  lemma ReadElementOfElement(open: string, value: string, close: string, tail: string)
    requires close != [] && close[0] == '<'
    ensures ReadElement(Element(open, value, close) + tail, open, close) == Some((value, tail))
  {
    var e := Escaped(value);
    var s := Element(open, value, close) + tail;
    assert s == open + (e + (close + "\n" + tail));
    PrefixOfAppend(open, e + (close + "\n" + tail));
    EscapedIsSafe(value);
    SplitAtValue(e, close + "\n" + tail, '<');
    PrefixOfAppend(close + "\n", tail);
    UnescapeEscaped(value);
  }

  lemma ReadCategoryOfLine(term: string, tail: string)
    ensures var s := Element(CategoryOpen, term, CategoryClose) + tail;
            StartsWith(s, CategoryOpen) &&
            SplitAt(s[|CategoryOpen|..], '"') == (Escaped(term), CategoryClose + "\n" + tail)
  {
    var e := Escaped(term);
    var s := Element(CategoryOpen, term, CategoryClose) + tail;
    assert s == CategoryOpen + (e + (CategoryClose + "\n" + tail));
    PrefixOfAppend(CategoryOpen, e + (CategoryClose + "\n" + tail));
    EscapedIsSafe(term);
    SplitAtValue(e, CategoryClose + "\n" + tail, '"');
  }

  lemma CategoryLinesCons(t: string, ts: seq<string>)
    ensures CategoryLines([t] + ts) == Element(CategoryOpen, t, CategoryClose) + CategoryLines(ts)
    decreases |ts|
  {
    if ts == [] {
      assert [t] + ts == [t] && [t][..0] == [];
      AppendEmpty(Element(CategoryOpen, t, CategoryClose));
    } else {
      var init := ts[..|ts| - 1];
      assert ([t] + ts)[..|[t] + ts| - 1] == [t] + init;
      CategoryLinesCons(t, init);
      Assoc(Element(CategoryOpen, t, CategoryClose), CategoryLines(init),
            Element(CategoryOpen, ts[|ts| - 1], CategoryClose));
    }
  }

  /** The draft block does not start like a category line. */
  lemma DraftBlockIsNoCategory(draft: bool)
    ensures !StartsWith(DraftBlock(draft) + EntryClose, CategoryOpen)
  {
    var s := DraftBlock(draft) + EntryClose;
    var r := "\n" + DraftOpen + DraftFlag(draft) + DraftClose + "\n" + ControlClose + "\n" + EntryClose;
    Assoc8(ControlOpen, "\n", DraftOpen, DraftFlag(draft), DraftClose, "\n", ControlClose, "\n", EntryClose);
    assert s == ControlOpen + r;
    assert s[3] == ControlOpen[3] == 'a';
  }

  lemma {:induction false} ReadCategoriesOfLines(ts: seq<string>, draft: bool)
    ensures ReadCategories(CategoryLines(ts) + (DraftBlock(draft) + EntryClose)) ==
            (ts, DraftBlock(draft) + EntryClose)
  {
    var tail := DraftBlock(draft) + EntryClose;
    if ts == [] {
      AppendEmpty(tail);
      DraftBlockIsNoCategory(draft);
    } else {
      var rest := CategoryLines(ts[1..]) + tail;
      CategoryLinesCons(ts[0], ts[1..]);
      assert [ts[0]] + ts[1..] == ts;
      var line := Element(CategoryOpen, ts[0], CategoryClose);
      Assoc(line, CategoryLines(ts[1..]), tail);
      ReadCategoryOfLine(ts[0], rest);
      PrefixOfAppend(CategoryClose + "\n", rest);
      ReadCategoriesOfLines(ts[1..], draft);
      UnescapeEscaped(ts[0]);
    }
  }

  lemma RegroupDocument(h: string, pro: string, a: string, b: string, c: string, d: string,
                        lines: string, block: string, close: string)
    requires h == pro + a + b + c + d
    ensures h + lines + block + close == pro + (a + (b + (c + (d + (lines + (block + close))))))
  {
  }

  /** The document as its prologue followed by its lines, grouped from the right. */
  function Body(p: EntryParams): string
  {
    Element(TitleOpen, p.title, TitleClose) +
    (Element(AuthorOpen, p.authorName, AuthorClose) +
    (Element(ContentOpen, p.content, ContentClose) +
    (Element(UpdatedOpen, p.updated, UpdatedClose) +
    (CategoryLines(p.categories) + (DraftBlock(p.draft) + EntryClose)))))
  }

  lemma EntryXmlIsPrologueAndBody(p: EntryParams)
    ensures EntryXml(p) == Prologue + Body(p)
  {
    RegroupDocument(Head(p), Prologue, Element(TitleOpen, p.title, TitleClose),
      Element(AuthorOpen, p.authorName, AuthorClose),
      Element(ContentOpen, p.content, ContentClose),
      Element(UpdatedOpen, p.updated, UpdatedClose),
      CategoryLines(p.categories), DraftBlock(p.draft), EntryClose);
  }

  /** Reading the lines after the prologue gives back every field. */
  lemma ReadBody(p: EntryParams)
    ensures
      var tail := DraftBlock(p.draft) + EntryClose;
      var t4 := CategoryLines(p.categories) + tail;
      var t3 := Element(UpdatedOpen, p.updated, UpdatedClose) + t4;
      var t2 := Element(ContentOpen, p.content, ContentClose) + t3;
      var t1 := Element(AuthorOpen, p.authorName, AuthorClose) + t2;
      && ReadElement(Body(p), TitleOpen, TitleClose) == Some((p.title, t1))
      && ReadElement(t1, AuthorOpen, AuthorClose) == Some((p.authorName, t2))
      && ReadElement(t2, ContentOpen, ContentClose) == Some((p.content, t3))
      && ReadElement(t3, UpdatedOpen, UpdatedClose) == Some((p.updated, t4))
      && ReadCategories(t4) == (p.categories, tail)
      && ReadDraft(tail) == Some(p.draft)
  {
    var tail := DraftBlock(p.draft) + EntryClose;
    var t4 := CategoryLines(p.categories) + tail;
    var t3 := Element(UpdatedOpen, p.updated, UpdatedClose) + t4;
    var t2 := Element(ContentOpen, p.content, ContentClose) + t3;
    var t1 := Element(AuthorOpen, p.authorName, AuthorClose) + t2;
    ReadElementOfElement(TitleOpen, p.title, TitleClose, t1);
    ReadElementOfElement(AuthorOpen, p.authorName, AuthorClose, t2);
    ReadElementOfElement(ContentOpen, p.content, ContentClose, t3);
    ReadElementOfElement(UpdatedOpen, p.updated, UpdatedClose, t4);
    ReadCategoriesOfLines(p.categories, p.draft);
    assert |DraftBlock(true)| == |DraftBlock(false)| + 1;
  }

  /**
   * The serialised document determines the parameters: reading it back recovers the
   * title, author, content, updated text, every category in order with duplicates kept,
   * and the draft flag.
   */
  lemma IntoXmlReadBack(p: EntryParams)
    ensures ReadBack(EntryXml(p)) == Some(p)
  {
    EntryXmlIsPrologueAndBody(p);
    PrefixOfAppend(Prologue, Body(p));
    ReadBody(p);
  }

  /** Documents of parameters that differ in any field differ: in particular the draft flag is visible. */
  lemma IntoXmlInjective(p: EntryParams, q: EntryParams)
    requires p != q
    ensures EntryXml(p) != EntryXml(q)
  {
    IntoXmlReadBack(p);
    IntoXmlReadBack(q);
  }

  /** The unit test's parameters. */
  const Dummy := EntryParams("AUTHOR_NAME", "TITLE", "CONTENT", "2020-02-07T00:00:00Z", ["CATEGORY"], true)

  /** None of the dummy values contains a special character. */
  lemma DummyValuesArePlain()
    ensures Escaped("TITLE") == "TITLE"
    ensures Escaped("AUTHOR_NAME") == "AUTHOR_NAME"
    ensures Escaped("CONTENT") == "CONTENT"
    ensures Escaped("2020-02-07T00:00:00Z") == "2020-02-07T00:00:00Z"
    ensures Escaped("CATEGORY") == "CATEGORY"
  {
    EscapedIdentity("TITLE");
    EscapedIdentity("AUTHOR_NAME");
    EscapedIdentity("CONTENT");
    EscapedIdentity("2020-02-07T00:00:00Z");
    EscapedIdentity("CATEGORY");
  }

  /**
   * The unit test: the dummy parameters serialise to exactly this text (written here
   * line by line, each line cut where a value is inserted).
   */
  lemma DummyIntoXml()
    ensures EntryXml(Dummy) ==
      "<?xml version=\"1.0\" encoding=\"utf-8\"?>" + "\n" +
      "<entry xmlns=\"http://www.w3.org/2005/Atom\"" + "\n" +
      "       xmlns:app=\"http://www.w3.org/2007/app\">" + "\n" +
      "  <title>" + "TITLE" + "</title>" + "\n" +
      "  <author><name>" + "AUTHOR_NAME" + "</name></author>" + "\n" +
      "  <content type=\"text/plain\">" + "CONTENT" + "</content>" + "\n" +
      "  <updated>" + "2020-02-07T00:00:00Z" + "</updated>" + "\n" +
      "  <category term=\"" + "CATEGORY" + "\" />" + "\n" +
      "  <app:control>" + "\n" +
      "    <app:draft>" + "yes" + "</app:draft>" + "\n" +
      "  </app:control>" + "\n" +
      "</entry>"
  {
    var x := Prologue;
    Assoc4(x, TitleOpen, "TITLE", TitleClose, "\n");
    x := x + TitleOpen + "TITLE" + TitleClose + "\n";
    Assoc4(x, AuthorOpen, "AUTHOR_NAME", AuthorClose, "\n");
    x := x + AuthorOpen + "AUTHOR_NAME" + AuthorClose + "\n";
    Assoc4(x, ContentOpen, "CONTENT", ContentClose, "\n");
    x := x + ContentOpen + "CONTENT" + ContentClose + "\n";
    Assoc4(x, UpdatedOpen, "2020-02-07T00:00:00Z", UpdatedClose, "\n");
    x := x + UpdatedOpen + "2020-02-07T00:00:00Z" + UpdatedClose + "\n";
    Assoc4(x, CategoryOpen, "CATEGORY", CategoryClose, "\n");
    Assoc8(x + CategoryOpen + "CATEGORY" + CategoryClose + "\n",
      ControlOpen, "\n", DraftOpen, "yes", DraftClose, "\n", ControlClose, "\n");
    DummyValuesArePlain();
    assert CategoryLines(["CATEGORY"]) == Element(CategoryOpen, "CATEGORY", CategoryClose) by {
      assert ["CATEGORY"][..0] == [];
      AppendEmpty(Element(CategoryOpen, "CATEGORY", CategoryClose));
    }
  }
}
