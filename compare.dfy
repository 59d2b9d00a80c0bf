/**
  How the two resolvers relate: where both tables know a tag they give the
  same URL for a term without `/`; a `/` in the term is encoded as `%2F` by
  script.js and kept by search.js; and a query `!` with no space is `null`
  for script.js but a fallback search for search.js.
*/
module ScriptAndSearch {
  import opened Wrappers
  import opened JsString
  import opened UriComponent
  import opened Bangs
  import opened BangSyntax
  import SearchJs
  import ScriptJs

  /** On a term without `/` the two ways of filling a template agree. */
  lemma SameUrlWithoutSlash(template: string, term: string)
    requires IsTemplate(template) && '/' !in term
    ensures SearchJs.BuildSearchUrl(template, term) == ScriptJs.FillTemplate(template, term)
  {
    var i :| 0 < i <= |template| && IsTemplateAt(template, i);
    SearchJs.BuildSearchUrlFills(template, i, term);
    ScriptJs.FillTemplateFills(template, i, term);
    EncodeKeepSlashWithoutSlash(term);
  }

  /** On a term with a `/` they differ: script.js sends `%2F`, search.js a `/`. */
  lemma SlashEncodedDifferently(template: string, term: string)
    requires IsTemplate(template) && '/' in term
    ensures SearchJs.BuildSearchUrl(template, term) != ScriptJs.FillTemplate(template, term)
  {
    var i :| 0 < i <= |template| && IsTemplateAt(template, i);
    SearchJs.BuildSearchUrlFills(template, i, term);
    ScriptJs.FillTemplateFills(template, i, term);
    var pre, post := template[..i], template[i + |Placeholder|..];
    var kept, encoded := EncodeKeepSlash(term), Encode(term);
    EncodeKeepSlashKeepsSlash(term);
    EncodedHasNoPatternChars(term);
    assert kept != encoded;
    MiddleDiffers(pre, kept, encoded, post);
  }

  lemma MiddleDiffers(pre: string, x: string, y: string, post: string)
    requires x != y
    ensures pre + x + post != pre + y + post
  {
    if |x| == |y| {
      assert x == (pre + x + post)[|pre|..|pre| + |x|];
      assert y == (pre + y + post)[|pre|..|pre| + |y|];
    }
  }

  /** The template both tables hold for a tag of record `i`. */
  lemma SharedTemplate(i: nat)
    requires i < |ScriptBangs| && ScriptBangs[i].t in SearchBangs
    ensures SearchBangs[ScriptBangs[i].t] == ScriptBangs[i].u
    ensures IsTemplate(ScriptBangs[i].u)
  {
    ScriptAgreesWithSearch();
    ScriptBangsAreTemplates();
    assert AgreesAt(i);
  }

  /**
    A prefix bang whose tag both tables hold, with a term free of `/`, goes
    to the same URL on both pages.
  */
  lemma PrefixAgrees(query: string, storage: SearchJs.Storage, i: nat, rest: string)
    requires i < |ScriptBangs| && ScriptBangs[i].t in SearchBangs
    requires Trim(query) == "!" + ScriptBangs[i].t + " " + rest && ' ' !in ScriptBangs[i].t
    requires '/' !in Trim(rest)
    requires Utf16Length(Trim(query)) <= SearchJs.MaxQueryUnits
    ensures ScriptJs.ProcessBang(query).Some?
    ensures SearchJs.ProcessBang(query, storage) == Success(ScriptJs.ProcessBang(query).value)
  {
    var tag := ScriptBangs[i].t;
    SharedTemplate(i);
    SearchJs.ProcessBangPrefix(query, storage, tag, rest);
    ScriptJs.ProcessBangPrefix(query, i, rest);
    SameUrlWithoutSlash(ScriptBangs[i].u, Trim(rest));
  }

  /** `!` followed by no space: script.js returns `null`, search.js searches the whole query with the default bang. */
  lemma NoSpaceDiffers(query: string, storage: SearchJs.Storage)
    requires StartsWith(Trim(query), "!") && ' ' !in Trim(query)
    requires Utf16Length(Trim(query)) <= SearchJs.MaxQueryUnits
    ensures ScriptJs.ProcessBang(query).None?
    ensures SearchJs.ProcessBang(query, storage) == SearchJs.BuildFallbackUrl(SearchBangs, Trim(query), storage, SearchJs.OwnKeys)
    ensures SearchJs.ProcessBang(query, storage).Success?
  {
    SearchJs.ProcessBangNoSpace(query, storage);
  }
}
