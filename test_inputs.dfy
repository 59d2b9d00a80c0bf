/**
  The exact queries of the repository's `processBang` tests
  (tests/search.spec.js), and the facts about their text that the
  resolver's lemmas need: where the spaces are, that `trim` keeps them, and
  how they encode.  Module SearchTests puts these facts together with the
  resolver.  Each lemma states one fact, which keeps the solver's work on
  the literals small.
*/
module TestInputs {
  import opened JsString
  import opened UriComponent

  // ---------------------------------------------------------------------------
  // !g javascript tutorial
  // ---------------------------------------------------------------------------

  /** The tag `g` and the rest `javascript tutorial`. */
  lemma GoogleShape(q: string, tag: string, rest: string)
    requires q == "!g javascript tutorial" && tag == "g" && rest == "javascript tutorial"
    ensures q == "!" + tag + " " + rest && ' ' !in tag
  {
  }

  /** `trim` keeps both, and the query is far below 2000 code units. */
  lemma GoogleTrimmed(q: string, rest: string)
    requires q == "!g javascript tutorial" && rest == "javascript tutorial"
    ensures Trim(q) == q && Trim(rest) == rest && Utf16Length(q) <= 2000
  {
    assert IsTrimmed(q) && IsTrimmed(rest);
    TrimFixedPoint(q);
    TrimFixedPoint(rest);
  }

  lemma TutorialWords()
    ensures forall i :: 0 <= i < |"javascript"| ==> IsUnreserved("javascript"[i])
    ensures forall i :: 0 <= i < |"tutorial"| ==> IsUnreserved("tutorial"[i])
  {
  }

  lemma TutorialSplit(rest: string)
    requires rest == "javascript tutorial"
    ensures rest == "javascript" + " " + "tutorial"
    ensures "javascript" + "%20" + "tutorial" == "javascript%20tutorial"
  {
  }

  /** Only the space of `javascript tutorial` is escaped. */
  lemma TutorialEncoded(rest: string)
    requires rest == "javascript tutorial"
    ensures EncodeKeepSlash(rest) == "javascript%20tutorial"
  {
    TutorialWords();
    TutorialSplit(rest);
    SpaceBetweenWords("javascript", "tutorial");
  }

  lemma GoogleUrl()
    ensures "https://www.google.com/search?q=" + "javascript%20tutorial" + "" == "https://www.google.com/search?q=javascript%20tutorial"
  {
  }

  // ---------------------------------------------------------------------------
  // !gh
  // ---------------------------------------------------------------------------

  /** A bang with no space and no term. */
  lemma BangOnlyShape(q: string)
    requires q == "!gh"
    ensures IsTrimmed(q) && StartsWith(q, "!") && ' ' !in q && |q| <= 1000
  {
  }

  /** `!gh` encodes as itself. */
  lemma BangOnlyEncoded(q: string)
    requires q == "!gh"
    ensures EncodeKeepSlash(q) == q
  {
    assert forall i :: 0 <= i < |q| ==> IsUnreserved(q[i]);
    EncodeKeepSlashPlain(q);
  }

  lemma BangOnlyUrl(q: string)
    requires q == "!gh"
    ensures "https://lite.duckduckgo.com/lite?q=" + q + "&kl=us-en" == "https://lite.duckduckgo.com/lite?q=!gh&kl=us-en"
  {
  }

  // ---------------------------------------------------------------------------
  // !unknown search term
  // ---------------------------------------------------------------------------

  /** Starts with `!`, does not end with one, and is trimmed. */
  lemma UnknownShape(q: string)
    requires q == "!unknown search term"
    ensures IsTrimmed(q) && StartsWith(q, "!") && q[|q| - 1] != '!' && |q| <= 1000
  {
  }

  /** The prefix tag is `unknown`, longer than every tag of the table. */
  lemma UnknownTag(q: string)
    requires q == "!unknown search term"
    ensures ' ' in q && |q[1..IndexOf(q, ' ')]| > 4
  {
    assert q == "!unknown" + [' '] + "search term";
    IndexOfAfter("!unknown", ' ', "search term");
  }

  lemma UnknownWords()
    ensures forall i :: 0 <= i < |"!unknown"| ==> IsUnreserved("!unknown"[i])
    ensures forall i :: 0 <= i < |"search"| ==> IsUnreserved("search"[i])
    ensures forall i :: 0 <= i < |"term"| ==> IsUnreserved("term"[i])
  {
  }

  lemma UnknownSplit(q: string)
    requires q == "!unknown search term"
    ensures q == "!unknown" + " " + "search" + " " + "term"
    ensures "!unknown" + "%20" + "search" + "%20" + "term" == "!unknown%20search%20term"
  {
  }

  /** The two spaces of `!unknown search term` are escaped, and nothing else. */
  lemma UnknownEncoded(q: string)
    requires q == "!unknown search term"
    ensures EncodeKeepSlash(q) == "!unknown%20search%20term"
  {
    UnknownWords();
    UnknownSplit(q);
    SpacesBetweenWords("!unknown", "search", "term");
  }

  lemma UnknownUrl()
    ensures "https://lite.duckduckgo.com/lite?q=" + "!unknown%20search%20term" + "&kl=us-en"
      == "https://lite.duckduckgo.com/lite?q=!unknown%20search%20term&kl=us-en"
  {
  }

  // ---------------------------------------------------------------------------
  // "a".repeat(2500)
  // ---------------------------------------------------------------------------

  /** `"a".repeat(n)`. */
  function Repeated(n: nat): (s: string)
    ensures |s| == n && forall i :: 0 <= i < n ==> s[i] == 'a'
  {
    seq(n, _ => 'a')
  }

  /** Trimmed, inside the Basic Multilingual Plane, and its first 2000 characters are `"a".repeat(2000)`. */
  lemma LongShape(q: string)
    requires q == Repeated(2500)
    ensures IsTrimmed(q) && IsBmp(q) && q[..2000] == Repeated(2000)
  {
  }

  /** `"a".repeat(n)` encodes as itself, with or without `/` kept. */
  lemma RepeatedEncoded(n: nat)
    ensures EncodeKeepSlash(Repeated(n)) == Repeated(n) && Encode(Repeated(n)) == Repeated(n)
  {
    var h := Repeated(n);
    assert forall i :: 0 <= i < |h| ==> IsUnreserved(h[i]);
    EncodeKeepSlashPlain(h);
    EncodeKeepSlashWithoutSlash(h);
  }
}
