/**
  The two bang tables: the `bangs` object of public_html/search.js, keyed by
  tag, and the `bangs` array of `{t, u}` records of public_html/script.js.
  Every URL template holds the placeholder `{{{s}}}` once.  The long
  template literals are written as concatenations of shorter pieces; their
  values are the source's strings.
*/
module Bangs {
  import opened Wrappers
  import opened JsString

  /** The text every template holds where the search term goes. */
  const Placeholder: string := "{{{s}}}"

  /** `DEFAULT_BANG`: the bang used when none was chosen. */
  const DefaultBang: string := "d"

  /** The placeholder at `i`, and no `{` in the text before or after it. */
  predicate IsTemplateAt(u: string, i: nat) {
    i + |Placeholder| <= |u| && u[i..i + |Placeholder|] == Placeholder && '{' !in u[..i] && '{' !in u[i + |Placeholder|..]
  }

  /** A template: some text, the placeholder, more text, neither holding a `{`. */
  predicate IsTemplate(u: string) {
    exists i :: 0 < i <= |u| && IsTemplateAt(u, i)
  }

  /** `pre {{{s}}} post` is a template when `pre` is not empty and neither side holds a `{`. */
  lemma Spliced(pre: string, post: string)
    requires pre != [] && '{' !in pre && '{' !in post
    ensures IsTemplate(pre + Placeholder + post)
  {
    var u := pre + Placeholder + post;
    assert u[..|pre|] == pre && u[|pre|..|pre| + |Placeholder|] == Placeholder && u[|pre| + |Placeholder|..] == post;
    assert IsTemplateAt(u, |pre|);
  }

  lemma SplicedEnd(pre: string)
    requires pre != [] && '{' !in pre
    ensures IsTemplate(pre + Placeholder)
  {
    Spliced(pre, "");
    assert pre + Placeholder + "" == pre + Placeholder;
  }

  // ---------------------------------------------------------------------------
  // public_html/search.js: an object from tag to template
  // ---------------------------------------------------------------------------

  const SearchBangs: map<string, string> := map[
    "al" := "https://kiwix.tristanhavelick.co" + "m/search?content=archlinux_en_al" + "l_nopic_2022-05&pattern=" + Placeholder,
    "cl" := "https://denver.craigslist.org/se" + "arch/?query=" + Placeholder,
    "d" := "https://lite.duckduckgo.com/lite" + "?q=" + Placeholder + "&kl=us-en",
    "e" := "https://www.ebay.com/sch/i.html?" + "_nkw=" + Placeholder + "&rt=nc&LH_ItemCondition=4",
    "jw" := "https://www.justwatch.com/us/sea" + "rch?q=" + Placeholder,
    "k" := "https://kiwix.tristanhavelick.co" + "m/search?pattern=" + Placeholder,
    "m" := "https://search.marginalia.nu/sea" + "rch?query=" + Placeholder,
    "py" := "https://kiwix.tristanhavelick.co" + "m/search?content=python-3.10.2&p" + "attern=" + Placeholder,
    "sg" := "https://app.thestorygraph.com/br" + "owse?search_term=" + Placeholder,
    "ytt" := "https://youtranscript.tristanhav" + "elick.com/search?search_term=" + Placeholder,
    "x" := "https://searxng.tristanhavelick." + "com/search?q=" + Placeholder,
    "gh" := "https://github.com/search?q=" + Placeholder,
    "ghr" := "https://github.com/" + Placeholder,
    "wb" := "https://web.archive.org/web/" + Placeholder,
    "g" := "https://www.google.com/search?q=" + Placeholder,
    "ddg" := "https://duckduckgo.com/?q=" + Placeholder,
    "a" := "https://www.amazon.com/s?k=" + Placeholder,
    "pypi" := "https://pypi.org/search/?q=" + Placeholder,
    "w" := "https://en.wikipedia.org/wiki/Sp" + "ecial:Search?search=" + Placeholder
  ]

  /** Every tag of the table is at most four characters long. */
  lemma SearchTagsShort()
    ensures forall tag :: tag in SearchBangs ==> |tag| <= 4
  {
  }

  /** The default bang `d` is one of them. */
  lemma SearchHasDefault()
    ensures DefaultBang in SearchBangs
  {
  }

  /** Google's tag `g` is one of them. */
  lemma SearchHasGoogle()
    ensures "g" in SearchBangs
  {
  }

  lemma SearchTemplatesA()
    ensures IsTemplate("https://kiwix.tristanhavelick.co" + "m/search?content=archlinux_en_al" + "l_nopic_2022-05&pattern=" + Placeholder)
      && IsTemplate("https://kiwix.tristanhavelick.co" + "m/search?content=python-3.10.2&p" + "attern=" + Placeholder)
  {
    SplicedEnd("https://kiwix.tristanhavelick.co" + "m/search?content=archlinux_en_al" + "l_nopic_2022-05&pattern=");
    SplicedEnd("https://kiwix.tristanhavelick.co" + "m/search?content=python-3.10.2&p" + "attern=");
  }

  lemma SearchTemplatesB()
    ensures IsTemplate("https://denver.craigslist.org/se" + "arch/?query=" + Placeholder)
      && IsTemplate("https://lite.duckduckgo.com/lite" + "?q=" + Placeholder + "&kl=us-en")
  {
    SplicedEnd("https://denver.craigslist.org/se" + "arch/?query=");
    Spliced("https://lite.duckduckgo.com/lite" + "?q=", "&kl=us-en");
  }

  lemma SearchTemplatesC()
    ensures IsTemplate("https://www.ebay.com/sch/i.html?" + "_nkw=" + Placeholder + "&rt=nc&LH_ItemCondition=4")
      && IsTemplate("https://www.justwatch.com/us/sea" + "rch?q=" + Placeholder)
  {
    Spliced("https://www.ebay.com/sch/i.html?" + "_nkw=", "&rt=nc&LH_ItemCondition=4");
    SplicedEnd("https://www.justwatch.com/us/sea" + "rch?q=");
  }

  lemma SearchTemplatesD()
    ensures IsTemplate("https://kiwix.tristanhavelick.co" + "m/search?pattern=" + Placeholder)
      && IsTemplate("https://search.marginalia.nu/sea" + "rch?query=" + Placeholder)
  {
    SplicedEnd("https://kiwix.tristanhavelick.co" + "m/search?pattern=");
    SplicedEnd("https://search.marginalia.nu/sea" + "rch?query=");
  }

  lemma SearchTemplatesE()
    ensures IsTemplate("https://app.thestorygraph.com/br" + "owse?search_term=" + Placeholder)
      && IsTemplate("https://github.com/search?q=" + Placeholder)
  {
    SplicedEnd("https://app.thestorygraph.com/br" + "owse?search_term=");
    SplicedEnd("https://github.com/search?q=");
  }

  lemma SearchTemplatesF()
    ensures IsTemplate("https://youtranscript.tristanhav" + "elick.com/search?search_term=" + Placeholder)
  {
    SplicedEnd("https://youtranscript.tristanhav" + "elick.com/search?search_term=");
  }

  lemma SearchTemplatesG()
    ensures IsTemplate("https://web.archive.org/web/" + Placeholder)
      && IsTemplate("https://www.google.com/search?q=" + Placeholder)
  {
    SplicedEnd("https://web.archive.org/web/");
    SplicedEnd("https://www.google.com/search?q=");
  }

  lemma SearchTemplatesH()
    ensures IsTemplate("https://searxng.tristanhavelick." + "com/search?q=" + Placeholder)
      && IsTemplate("https://duckduckgo.com/?q=" + Placeholder)
      && IsTemplate("https://www.amazon.com/s?k=" + Placeholder)
  {
    SplicedEnd("https://searxng.tristanhavelick." + "com/search?q=");
    SplicedEnd("https://duckduckgo.com/?q=");
    SplicedEnd("https://www.amazon.com/s?k=");
  }

  lemma SearchTemplatesI()
    ensures IsTemplate("https://github.com/" + Placeholder)
      && IsTemplate("https://pypi.org/search/?q=" + Placeholder)
      && IsTemplate("https://en.wikipedia.org/wiki/Sp" + "ecial:Search?search=" + Placeholder)
  {
    SplicedEnd("https://github.com/");
    SplicedEnd("https://pypi.org/search/?q=");
    SplicedEnd("https://en.wikipedia.org/wiki/Sp" + "ecial:Search?search=");
  }

  /** Every entry of the search.js table is a template, and the default bang is one of its keys. */
  lemma SearchBangsAreTemplates()
    ensures DefaultBang in SearchBangs
    ensures forall tag :: tag in SearchBangs ==> IsTemplate(SearchBangs[tag])
  {
    SearchTemplatesA(); SearchTemplatesB(); SearchTemplatesC(); SearchTemplatesD(); SearchTemplatesE(); SearchTemplatesF(); SearchTemplatesG(); SearchTemplatesH(); SearchTemplatesI();
  }

  // ---------------------------------------------------------------------------
  // public_html/script.js: an array of records
  // ---------------------------------------------------------------------------

  datatype Bang = Bang(t: string, u: string)

  const ScriptBangs: seq<Bang> := [
    Bang("al", "https://kiwix.tristanhavelick.co" + "m/search?content=archlinux_en_al" + "l_nopic_2022-05&pattern=" + Placeholder),
    Bang("cl", "https://denver.craigslist.org/se" + "arch/?query=" + Placeholder),
    Bang("d", "https://lite.duckduckgo.com/lite" + "?q=" + Placeholder + "&kl=us-en"),
    Bang("e", "https://www.ebay.com/sch/i.html?" + "_nkw=" + Placeholder + "&rt=nc&LH_ItemCondition=4"),
    Bang("jw", "https://www.justwatch.com/us/sea" + "rch?q=" + Placeholder),
    Bang("k", "https://kiwix.tristanhavelick.co" + "m/search?pattern=" + Placeholder),
    Bang("lg", "http://libgen.is/search.php?req=" + Placeholder),
    Bang("lgf", "http://libgen.is/fiction/?q=" + Placeholder),
    Bang("m", "https://search.marginalia.nu/sea" + "rch?query=" + Placeholder),
    Bang("py", "https://kiwix.tristanhavelick.co" + "m/search?content=python-3.10.2&p" + "attern=" + Placeholder),
    Bang("sg", "https://app.thestorygraph.com/br" + "owse?search_term=" + Placeholder),
    Bang("ytt", "https://youtranscript.tristanhav" + "elick.com/search?search_term=" + Placeholder),
    Bang("x", "https://searxng.tristanhavelick." + "com/search?q=" + Placeholder),
    Bang("gh", "https://github.com/search?q=" + Placeholder),
    Bang("g", "https://www.google.com/search?q=" + Placeholder),
    Bang("ddg", "https://duckduckgo.com/?q=" + Placeholder),
    Bang("a", "https://www.amazon.com/s?k=" + Placeholder),
    Bang("pypi", "https://pypi.org/search/?q=" + Placeholder),
    Bang("w", "https://en.wikipedia.org/wiki/Sp" + "ecial:Search?search=" + Placeholder)
  ]

  /** `bangs.find((b) => b.t === tag)`: the first record with that tag. */
  function Find(bangs: seq<Bang>, tag: string): (r: Option<Bang>)
    ensures r.None? <==> forall i :: 0 <= i < |bangs| ==> bangs[i].t != tag
    ensures r.Some? ==> exists i :: 0 <= i < |bangs| && bangs[i] == r.value && r.value.t == tag && forall j :: 0 <= j < i ==> bangs[j].t != tag
  {
    if bangs == [] then None
    else if bangs[0].t == tag then Some(bangs[0])
    else
      var r := Find(bangs[1..], tag);
      assert forall i :: 1 <= i < |bangs| ==> bangs[i] == bangs[1..][i - 1];
      r
  }

  /**
    Record `i` of the script.js table: its tag is one search.js also has,
    with the same template, unless it is `lg` or `lgf`; and it is neither
    `ghr` nor `wb`.
  */
  predicate AgreesAt(i: nat)
    requires i < |ScriptBangs|
  {
    var b := ScriptBangs[i];
    && (b.t in SearchBangs <==> b.t != "lg" && b.t != "lgf")
    && (b.t in SearchBangs ==> SearchBangs[b.t] == b.u)
    && b.t != "ghr" && b.t != "wb"
  }

  lemma ScriptAgreesA()
    ensures AgreesAt(0) && AgreesAt(1) && AgreesAt(2)
  {
  }

  lemma ScriptAgreesB()
    ensures AgreesAt(3) && AgreesAt(4) && AgreesAt(5)
  {
  }

  lemma ScriptAgreesC()
    ensures AgreesAt(6) && AgreesAt(7) && AgreesAt(8)
  {
  }

  lemma ScriptAgreesD()
    ensures AgreesAt(9) && AgreesAt(10)
  {
  }

  lemma ScriptAgreesE()
    ensures AgreesAt(11) && AgreesAt(12) && AgreesAt(13)
  {
  }

  lemma ScriptAgreesF()
    ensures AgreesAt(14) && AgreesAt(15) && AgreesAt(16) && AgreesAt(17) && AgreesAt(18)
  {
  }

  /**
    The two tables agree wherever both have a tag; search.js alone has `ghr`
    and `wb`, script.js alone has `lg` and `lgf`.
  */
  lemma ScriptAgreesWithSearch()
    ensures "ghr" in SearchBangs && "wb" in SearchBangs
    ensures forall i :: 0 <= i < |ScriptBangs| ==> AgreesAt(i)
  {
    forall i | 0 <= i < |ScriptBangs|
      ensures AgreesAt(i)
    {
      if i < 3 { ScriptAgreesA(); }
      else if i < 6 { ScriptAgreesB(); }
      else if i < 9 { ScriptAgreesC(); }
      else if i < 11 { ScriptAgreesD(); }
      else if i < 14 { ScriptAgreesE(); }
      else { ScriptAgreesF(); }
    }
  }

  /** Every record of the script.js table holds a template. */
  lemma ScriptBangsAreTemplates()
    ensures forall i :: 0 <= i < |ScriptBangs| ==> IsTemplate(ScriptBangs[i].u)
  {
    forall i | 0 <= i < |ScriptBangs|
      ensures IsTemplate(ScriptBangs[i].u)
    {
      if i == 6 {
        SplicedEnd("http://libgen.is/search.php?req=");
      } else if i == 7 {
        SplicedEnd("http://libgen.is/fiction/?q=");
      } else {
        ScriptTagsDistinct();
        ScriptAgreesWithSearch();
        SearchBangsAreTemplates();
        assert AgreesAt(i) && ScriptBangs[i].t != ScriptBangs[6].t && ScriptBangs[i].t != ScriptBangs[7].t;
      }
    }
  }

  /** No two records of the script.js table share a tag, so `find` has at most one candidate. */
  lemma ScriptTagsDistinct()
    ensures forall i, j :: 0 <= i < j < |ScriptBangs| ==> ScriptBangs[i].t != ScriptBangs[j].t
  {
  }
}
