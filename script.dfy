/**
  The resolver of public_html/script.js, the page's earlier script:
  `processBang` over the array of `{t, u}` records.  It reads the same two
  bang forms as search.js, but a query that starts with `!` and holds no
  space gives `null`, the term is encoded by `encodeURIComponent` alone
  (a `/` becomes `%2F`), the fallback is always DuckDuckGo Lite, and the
  query is never cut.

  The functions take the table as a parameter `bangs`; `ProcessBang`
  applies them to the table of public_html/script.js.
*/
module ScriptJs {
  import opened Wrappers
  import opened JsString
  import opened UriComponent
  import opened Bangs
  import opened BangSyntax

  /** The fixed fallback URL, around the encoded query. */
  const FallbackHead: string := "https://lite.duckduckgo.com/lite" + "?q="
  const FallbackTail: string := "&kl=us-en"

  /** `bang.u.replace(/{{{s}}}/g, encodeURIComponent(searchTerm))`. */
  function FillTemplate(template: string, term: string): string
  {
    EncodedHasNoPatternChars(term);
    ReplaceAll(template, Placeholder, Encode(term))
  }

  /** Filling a template keeps the text around the placeholder and puts the encoded term in its place. */
  lemma FillTemplateFills(template: string, i: nat, term: string)
    requires IsTemplateAt(template, i)
    ensures FillTemplate(template, term) == template[..i] + Encode(term) + template[i + |Placeholder|..]
  {
    var pre, post := template[..i], template[i + |Placeholder|..];
    assert template == pre + Placeholder + post;
    EncodedHasNoPatternChars(term);
    ReplaceSingle(pre, Placeholder, post, Encode(term));
  }

  /** One template never gives the same URL for two different terms: the encoded term decodes back. */
  lemma FillTemplateInjective(template: string, term1: string, term2: string)
    requires IsTemplate(template)
    requires FillTemplate(template, term1) == FillTemplate(template, term2)
    ensures term1 == term2
  {
    var i :| 0 < i <= |template| && IsTemplateAt(template, i);
    FillTemplateFills(template, i, term1);
    FillTemplateFills(template, i, term2);
    var pre, post := template[..i], template[i + |Placeholder|..];
    var e1, e2 := Encode(term1), Encode(term2);
    var u := pre + e1 + post;
    assert |e1| == |e2|;
    assert e1 == u[|pre|..|pre| + |e1|];
    assert e2 == (pre + e2 + post)[|pre|..|pre| + |e2|];
    DecodeEncode(term1);
    DecodeEncode(term2);
  }

  /** The URL of the last line of `processBang`: the whole trimmed query searched on DuckDuckGo Lite. */
  function FallbackUrl(trimmed: string): string {
    FallbackHead + Encode(trimmed) + FallbackTail
  }

  /** `bangs.find((b) => b.t === tag)`, and the found record's template filled with `term`. */
  function SearchRecord(bangs: seq<Bang>, tag: string, term: string): (r: Option<string>)
    ensures r.Some? <==> exists i :: 0 <= i < |bangs| && bangs[i].t == tag
  {
    match Find(bangs, tag)
    case None => None
    case Some(b) => Some(FillTemplate(b.u, term))
  }

  /**
    `processBang` after `query.trim()`: `null` for `!` without a space;
    `!tag rest` with a known tag searches `rest`; otherwise `text tag!` with
    a known tag searches `text`; anything else goes to DuckDuckGo Lite.
  */
  function ResolveForm(bangs: seq<Bang>, trimmed: string): (r: Option<string>)
    ensures r.None? <==> StartsWith(trimmed, "!") && ' ' !in trimmed
  {
    var prefix := ParsePrefix(trimmed);
    if prefix.NoSpace? then None
    else if prefix.Prefixed? && SearchRecord(bangs, prefix.tag, prefix.term).Some? then SearchRecord(bangs, prefix.tag, prefix.term)
    else
      match ParseSuffix(trimmed)
      case Some(Suffixed(term, tag)) =>
        if SearchRecord(bangs, tag, term).Some? then SearchRecord(bangs, tag, term) else Some(FallbackUrl(trimmed))
      case None => Some(FallbackUrl(trimmed))
  }

  /** `processBang(query)` on the table of script.js: `null` exactly for a trimmed query `!` followed by no space. */
  function ProcessBang(query: string): (r: Option<string>)
    ensures r.None? <==> StartsWith(Trim(query), "!") && ' ' !in Trim(query)
  {
    ResolveForm(ScriptBangs, Trim(query))
  }

  // ---------------------------------------------------------------------------
  // find on a table without repeated tags
  // ---------------------------------------------------------------------------

  /** In a table whose tags are distinct, `find` returns the one record with the tag. */
  lemma FindDistinct(bangs: seq<Bang>, i: nat)
    requires i < |bangs|
    requires forall j, k :: 0 <= j < k < |bangs| ==> bangs[j].t != bangs[k].t
    ensures Find(bangs, bangs[i].t) == Some(bangs[i])
  {
    var r := Find(bangs, bangs[i].t);
    var j :| 0 <= j < |bangs| && bangs[j] == r.value && r.value.t == bangs[i].t && forall k :: 0 <= k < j ==> bangs[k].t != bangs[i].t;
    assert j == i;
  }

  lemma ScriptFind(i: nat)
    requires i < |ScriptBangs|
    ensures Find(ScriptBangs, ScriptBangs[i].t) == Some(ScriptBangs[i])
  {
    ScriptTagsDistinct();
    FindDistinct(ScriptBangs, i);
  }

  // ---------------------------------------------------------------------------
  // what processBang does with each form of query, for any table
  // ---------------------------------------------------------------------------

  /** `!tag rest` with the tag of record `b` searches `rest`, trimmed, with that record. */
  lemma ResolvePrefix(bangs: seq<Bang>, t: string, tag: string, rest: string, b: Bang)
    requires t == "!" + tag + " " + rest && ' ' !in tag
    requires Find(bangs, tag) == Some(b)
    ensures ResolveForm(bangs, t) == Some(FillTemplate(b.u, Trim(rest)))
  {
    ParsePrefixOf(tag, rest);
  }

  /** A trimmed query that is not a known prefix bang is resolved by its suffix form. */
  lemma ResolveFormSuffix(bangs: seq<Bang>, t: string)
    requires !ParsePrefix(t).NoSpace?
    requires ParsePrefix(t).Prefixed? ==> Find(bangs, ParsePrefix(t).tag).None?
    ensures ParseSuffix(t).None? ==> ResolveForm(bangs, t) == Some(FallbackUrl(t))
    ensures ParseSuffix(t).Some? ==>
      var s := ParseSuffix(t).value;
      ResolveForm(bangs, t) == if Find(bangs, s.tag).Some? then SearchRecord(bangs, s.tag, s.term) else Some(FallbackUrl(t))
  {
  }

  /** `text w tag!` with the tag of record `b`, when the query is not a known prefix bang, searches `text`, trimmed. */
  lemma ResolveSuffix(bangs: seq<Bang>, t: string, text: string, w: char, tag: string, b: Bang)
    requires t == text + [w] + tag + "!"
    requires text != [] && forall i :: 0 <= i < |text| ==> !IsLineTerminator(text[i])
    requires IsWhite(w)
    requires tag != [] && forall i :: 0 <= i < |tag| ==> IsWordChar(tag[i])
    requires Find(bangs, tag) == Some(b)
    requires StartsWith(t, "!") ==> ' ' in t && Find(bangs, t[1..IndexOf(t, ' ')]).None?
    ensures ResolveForm(bangs, t) == Some(FillTemplate(b.u, Trim(text)))
  {
    ParseSuffixOf(text, w, tag);
    assert ParseSuffix(t) == Some(Suffixed(Trim(text), tag));
    ResolveFormSuffix(bangs, t);
  }

  /** A query naming no record, neither as its prefix tag nor as its suffix tag, goes to DuckDuckGo Lite whole. */
  lemma ResolveFallsBack(bangs: seq<Bang>, t: string)
    requires !(StartsWith(t, "!") && ' ' !in t)
    requires StartsWith(t, "!") && ' ' in t ==> Find(bangs, t[1..IndexOf(t, ' ')]).None?
    requires forall p: nat, k: nat :: IsSuffixMatch(t, p, k) ==> Find(bangs, t[k..|t| - 1]).None?
    ensures ResolveForm(bangs, t) == Some(FallbackUrl(t))
  {
    if ParseSuffix(t).Some? {
      ParseSuffixIsMatch(t);
    }
  }

  /** `url` is the template of some record filled with some term. */
  ghost predicate FillsRecord(url: string, bangs: seq<Bang>) {
    exists i, term :: 0 <= i < |bangs| && url == FillTemplate(bangs[i].u, term)
  }

  lemma FoundFillsRecord(bangs: seq<Bang>, tag: string, term: string)
    ensures SearchRecord(bangs, tag, term).Some? ==> FillsRecord(SearchRecord(bangs, tag, term).value, bangs)
  {
    if Find(bangs, tag).Some? {
      var i :| 0 <= i < |bangs| && bangs[i] == Find(bangs, tag).value && Find(bangs, tag).value.t == tag && forall j :: 0 <= j < i ==> bangs[j].t != tag;
      assert SearchRecord(bangs, tag, term).value == FillTemplate(bangs[i].u, term);
    }
  }

  /** The DuckDuckGo Lite record of the table. */
  lemma FallbackRecord()
    ensures ScriptBangs[2].u == FallbackHead + Placeholder + FallbackTail
  {
  }

  /** The DuckDuckGo Lite template, split where the placeholder stands. */
  lemma FallbackTemplate(u: string)
    requires u == FallbackHead + Placeholder + FallbackTail
    ensures IsTemplateAt(u, |FallbackHead|)
    ensures u[..|FallbackHead|] == FallbackHead && u[|FallbackHead| + |Placeholder|..] == FallbackTail
  {
    assert u[..|FallbackHead|] == FallbackHead;
    assert u[|FallbackHead|..|FallbackHead| + |Placeholder|] == Placeholder;
    assert u[|FallbackHead| + |Placeholder|..] == FallbackTail;
  }

  /** The fallback URL is the table's `d` record filled with the whole query. */
  lemma FallbackIsDefaultRecord(t: string)
    ensures FallbackUrl(t) == FillTemplate(ScriptBangs[2].u, t)
    ensures FillsRecord(FallbackUrl(t), ScriptBangs)
  {
    FallbackRecord();
    var u := ScriptBangs[2].u;
    FallbackTemplate(u);
    FillTemplateFills(u, |FallbackHead|, t);
  }

  /** A filled template is never empty: the text before the placeholder stays. */
  lemma FillTemplateNonEmpty(template: string, term: string)
    requires IsTemplate(template)
    ensures FillTemplate(template, term) != ""
  {
    var i :| 0 < i <= |template| && IsTemplateAt(template, i);
    FillTemplateFills(template, i, term);
  }

  // ---------------------------------------------------------------------------
  // processBang on the table of script.js
  // ---------------------------------------------------------------------------

  lemma ResolveFormFillsRecord(t: string)
    ensures ResolveForm(ScriptBangs, t).Some? ==> FillsRecord(ResolveForm(ScriptBangs, t).value, ScriptBangs)
  {
    var prefix := ParsePrefix(t);
    if prefix.NoSpace? {
    } else if prefix.Prefixed? && SearchRecord(ScriptBangs, prefix.tag, prefix.term).Some? {
      FoundFillsRecord(ScriptBangs, prefix.tag, prefix.term);
    } else {
      ResolveFormSuffix(ScriptBangs, t);
      FallbackIsDefaultRecord(t);
      match ParseSuffix(t)
      case Some(Suffixed(term, tag)) =>
        FoundFillsRecord(ScriptBangs, tag, term);
      case None =>
    }
  }

  /** Every URL `processBang` returns is the template of one of its records filled with a term. */
  lemma ProcessBangFillsRecord(query: string)
    ensures ProcessBang(query).Some? ==> FillsRecord(ProcessBang(query).value, ScriptBangs)
  {
    ResolveFormFillsRecord(Trim(query));
  }

  /** Every URL `processBang` returns is a non-empty string, so `if (url)` always navigates to it. */
  lemma ProcessBangNonEmpty(query: string)
    ensures ProcessBang(query).Some? ==> ProcessBang(query).value != ""
  {
    if ProcessBang(query).Some? {
      ProcessBangFillsRecord(query);
      var i, term :| 0 <= i < |ScriptBangs| && ProcessBang(query).value == FillTemplate(ScriptBangs[i].u, term);
      ScriptBangsAreTemplates();
      FillTemplateNonEmpty(ScriptBangs[i].u, term);
    }
  }

  /** White space around the query changes nothing. */
  lemma ProcessBangIgnoresPadding(a: string, query: string, b: string)
    requires AllWhite(a) && AllWhite(b)
    ensures ProcessBang(a + query + b) == ProcessBang(query)
  {
    TrimIgnoresPadding(a, query, b);
  }

  /** `!tag rest` with the tag of record `i` searches `rest`, trimmed, with that record's template. */
  lemma ProcessBangPrefix(query: string, i: nat, rest: string)
    requires i < |ScriptBangs|
    requires Trim(query) == "!" + ScriptBangs[i].t + " " + rest && ' ' !in ScriptBangs[i].t
    ensures ProcessBang(query) == Some(FillTemplate(ScriptBangs[i].u, Trim(rest)))
  {
    ScriptFind(i);
    ResolvePrefix(ScriptBangs, Trim(query), ScriptBangs[i].t, rest, ScriptBangs[i]);
  }

  /**
    `text w tag!` with the tag of record `i` searches `text`, trimmed, with
    that record's template, unless the query is a prefix bang with a known tag.
  */
  lemma ProcessBangSuffix(query: string, text: string, w: char, i: nat)
    requires i < |ScriptBangs|
    requires Trim(query) == text + [w] + ScriptBangs[i].t + "!"
    requires text != [] && forall j :: 0 <= j < |text| ==> !IsLineTerminator(text[j])
    requires IsWhite(w)
    requires ScriptBangs[i].t != [] && forall j :: 0 <= j < |ScriptBangs[i].t| ==> IsWordChar(ScriptBangs[i].t[j])
    requires var t := Trim(query); StartsWith(t, "!") ==> ' ' in t && Find(ScriptBangs, t[1..IndexOf(t, ' ')]).None?
    ensures ProcessBang(query) == Some(FillTemplate(ScriptBangs[i].u, Trim(text)))
  {
    ScriptFind(i);
    ResolveSuffix(ScriptBangs, Trim(query), text, w, ScriptBangs[i].t, ScriptBangs[i]);
  }

  /** A query naming no record goes to DuckDuckGo Lite whole, unless it is `!` without a space. */
  lemma ProcessBangFallsBack(query: string)
    requires var t := Trim(query); !(StartsWith(t, "!") && ' ' !in t)
    requires var t := Trim(query); StartsWith(t, "!") && ' ' in t ==> Find(ScriptBangs, t[1..IndexOf(t, ' ')]).None?
    requires var t := Trim(query); forall p: nat, k: nat :: IsSuffixMatch(t, p, k) ==> Find(ScriptBangs, t[k..|t| - 1]).None?
    ensures ProcessBang(query) == Some(FallbackUrl(Trim(query)))
  {
    ResolveFallsBack(ScriptBangs, Trim(query));
  }
}
