/**
  The repository's `processBang` tests (tests/search.spec.js), each stated
  for its exact query: the prefix form with Google, a bang with no term, an
  unknown bang, and the 2000-unit cut.  The Google case holds for any
  storage; the others have none, as the tests' mock window has none.  The
  text facts come from module TestInputs.
*/
module SearchTests {
  import opened Wrappers
  import opened JsString
  import opened UriComponent
  import opened Bangs
  import opened SearchJs
  import opened TestInputs

  /** A template `pre {{{s}}} post` gets the encoded term between `pre` and `post`. */
  lemma TermWithin(pre: string, post: string, term: string)
    requires '{' !in pre && '{' !in post
    ensures BuildSearchUrl(pre + Placeholder + post, term) == pre + EncodeKeepSlash(term) + post
  {
    var u := pre + Placeholder + post;
    assert u[..|pre|] == pre && u[|pre|..|pre| + |Placeholder|] == Placeholder && u[|pre| + |Placeholder|..] == post;
    assert IsTemplateAt(u, |pre|);
    BuildSearchUrlFills(u, |pre|, term);
  }

  lemma DefaultTemplate()
    ensures SearchBangs[DefaultBang] == "https://lite.duckduckgo.com/lite?q=" + Placeholder + "&kl=us-en"
    ensures '{' !in "https://lite.duckduckgo.com/lite?q=" && '{' !in "&kl=us-en"
  {
  }

  /** With no storage, the fallback fills the `d` template with the whole term. */
  lemma TermOnDefault(term: string)
    ensures BuildFallbackUrl(SearchBangs, term, None, OwnKeys) == Success("https://lite.duckduckgo.com/lite?q=" + EncodeKeepSlash(term) + "&kl=us-en")
  {
    SearchHasDefault();
    assert GetDefaultBang(SearchBangs, None, OwnKeys) == DefaultBang;
    DefaultTemplate();
    TermWithin("https://lite.duckduckgo.com/lite?q=", "&kl=us-en", term);
  }

  lemma GoogleRecord(tag: string)
    requires tag == "g"
    ensures tag in SearchBangs && SearchBangs[tag] == "https://www.google.com/search?q=" + Placeholder + ""
    ensures '{' !in "https://www.google.com/search?q="
  {
  }

  /** A trimmed `!tag rest` with a tag of the table searches `rest` with that tag. */
  lemma PrefixOfTrimmed(q: string, storage: Storage, tag: string, rest: string)
    requires Trim(q) == "!" + tag + " " + rest && Utf16Length(Trim(q)) <= MaxQueryUnits && Trim(rest) == rest
    requires ' ' !in tag && tag in SearchBangs
    ensures ProcessBang(q, storage) == Success(BuildSearchUrl(SearchBangs[tag], rest))
  {
    ProcessBangPrefix(q, storage, tag, rest);
  }

  /** `!g javascript tutorial` is a Google search for `javascript tutorial`, whatever the storage. */
  lemma GooglePrefixQuery(q: string, storage: Storage)
    requires q == "!g javascript tutorial"
    ensures ProcessBang(q, storage) == Success("https://www.google.com/search?q=javascript%20tutorial")
  {
    var tag, rest := "g", "javascript tutorial";
    GoogleShape(q, tag, rest);
    GoogleTrimmed(q, rest);
    GoogleRecord(tag);
    PrefixOfTrimmed(q, storage, tag, rest);
    TermWithin("https://www.google.com/search?q=", "", rest);
    TutorialEncoded(rest);
    GoogleUrl();
  }

  /** `!gh` alone, without a term, is a DuckDuckGo Lite search for `!gh`. */
  lemma BangWithoutTerm(q: string)
    requires q == "!gh"
    ensures ProcessBang(q, None) == Success("https://lite.duckduckgo.com/lite?q=!gh&kl=us-en")
  {
    BangOnlyShape(q);
    TrimFixedPoint(q);
    ProcessBangNoSpace(q, None);
    TermOnDefault(q);
    BangOnlyEncoded(q);
    BangOnlyUrl(q);
  }

  /** `!unknown search term` names no bang of the table and is searched whole on DuckDuckGo Lite. */
  lemma UnknownBangQuery(q: string)
    requires q == "!unknown search term"
    ensures ProcessBang(q, None) == Success("https://lite.duckduckgo.com/lite?q=!unknown%20search%20term&kl=us-en")
  {
    UnknownShape(q);
    UnknownTag(q);
    TrimFixedPoint(q);
    SearchTagsShort();
    ProcessBangFallsBack(q, None);
    TermOnDefault(q);
    UnknownEncoded(q);
    UnknownUrl();
  }

  /** `"a".repeat(2500)` is cut to its first 2000 characters and searched on DuckDuckGo Lite. */
  lemma LongQueryCut(q: string)
    requires q == Repeated(2500)
    ensures ProcessBang(q, None) == Success("https://lite.duckduckgo.com/lite?q=" + Encode(Repeated(2000)) + "&kl=us-en")
  {
    LongShape(q);
    TrimFixedPoint(q);
    ProcessBangCutsLongBmpQuery(q, None);
    TermOnDefault(Repeated(2000));
    RepeatedEncoded(2000);
  }
}
