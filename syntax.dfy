/**
  The two bang forms both resolvers recognise in a trimmed query:

  - the prefix form `!tag rest`, split at the first U+0020 space with
    `indexOf(" ")` and `substring` (public_html/search.js and
    public_html/script.js share this code line for line);
  - the suffix form `text tag!`, recognised by the regular expression
    `/^(.+)\s+(\w+)!$/`.
*/
module BangSyntax {
  import opened Wrappers
  import opened JsString

  // ---------------------------------------------------------------------------
  // The suffix regular expression
  // ---------------------------------------------------------------------------

  /**
    `^(.+)\s+(\w+)!$` matches all of `s` with group 1 = `s[..p]` and
    group 2 = `s[k..|s| - 1]`: `.` matches anything but a line terminator,
    `\s` white space, `\w` a word character, and the last character is `!`.
  */
  predicate IsSuffixMatch(s: string, p: nat, k: nat) {
    && 0 < p < k < |s| - 1
    && s[|s| - 1] == '!'
    && (forall i :: 0 <= i < p ==> !IsLineTerminator(s[i]))
    && (forall i :: p <= i < k ==> IsWhite(s[i]))
    && (forall i :: k <= i < |s| - 1 ==> IsWordChar(s[i]))
  }

  /** The start of the run of word characters that ends at `e`. */
  function WordRunStart(s: string, e: nat): (r: nat)
    requires e <= |s|
    ensures r <= e
    ensures forall i :: r <= i < e ==> IsWordChar(s[i])
    ensures r == 0 || !IsWordChar(s[r - 1])
  {
    if e > 0 && IsWordChar(s[e - 1]) then WordRunStart(s, e - 1) else e
  }

  /** The start of the run of white space that ends at `e`. */
  function WhiteRunStart(s: string, e: nat): (r: nat)
    requires e <= |s|
    ensures r <= e
    ensures forall i :: r <= i < e ==> IsWhite(s[i])
    ensures r == 0 || !IsWhite(s[r - 1])
  {
    if e > 0 && IsWhite(s[e - 1]) then WhiteRunStart(s, e - 1) else e
  }

  /** The position of the first line terminator at or after `from`, or `|s|`. */
  function LineTerminatorFrom(s: string, from: nat): (r: nat)
    requires from <= |s|
    ensures from <= r <= |s|
    ensures forall i :: from <= i < r ==> !IsLineTerminator(s[i])
    ensures r < |s| ==> IsLineTerminator(s[r])
    decreases |s| - from
  {
    if from == |s| || IsLineTerminator(s[from]) then from else LineTerminatorFrom(s, from + 1)
  }

  lemma WhiteIsNotWord(c: char)
    ensures IsWhite(c) ==> !IsWordChar(c)
  {
  }

  /**
    Every match has the same group 2 (the maximal word run before the final
    `!`), and its group 1 ends no earlier than the white run before it and no
    later than the first line terminator.
  */
  lemma MatchBounds(s: string)
    requires |s| > 0
    ensures forall p: nat, k: nat :: IsSuffixMatch(s, p, k) ==>
      && k == WordRunStart(s, |s| - 1)
      && WhiteRunStart(s, k) <= p
      && p <= LineTerminatorFrom(s, 0)
  {
    var e := |s| - 1;
    forall p: nat, k: nat | IsSuffixMatch(s, p, k)
      ensures k == WordRunStart(s, e) && WhiteRunStart(s, k) <= p && p <= LineTerminatorFrom(s, 0)
    {
      var w := WordRunStart(s, e);
      WhiteIsNotWord(s[k - 1]);
      var q := WhiteRunStart(s, k);
      var l := LineTerminatorFrom(s, 0);
    }
  }

  /**
    `s.match(/^(.+)\s+(\w+)!$/)`: the pair (end of group 1, start of group 2),
    or `None` when there is no match.  The greedy `.+` makes the engine report
    the match whose group 1 is longest.
  */
  function SuffixMatch(s: string): (r: Option<(nat, nat)>)
    ensures r.Some? ==> IsSuffixMatch(s, r.value.0, r.value.1)
    ensures r.Some? ==> forall p: nat, k: nat :: IsSuffixMatch(s, p, k) ==> p <= r.value.0 && k == r.value.1
    ensures r.None? ==> forall p: nat, k: nat :: !IsSuffixMatch(s, p, k)
  {
    if |s| == 0 || s[|s| - 1] != '!' then None
    else
      var e := |s| - 1;
      var k := WordRunStart(s, e);
      var q := WhiteRunStart(s, k);
      var l := LineTerminatorFrom(s, 0);
      MatchBounds(s);
      var p := if k - 1 < l then k - 1 else l;
      if k < e && q < k && 0 < p && q <= p then Some((p, k)) else None
  }

  // ---------------------------------------------------------------------------
  // The two forms
  // ---------------------------------------------------------------------------

  /** What the `startsWith("!")` / `indexOf(" ")` branch makes of a trimmed query. */
  datatype PrefixForm =
    | NotPrefixed                          // does not start with `!`
    | NoSpace                              // starts with `!` but holds no U+0020
    | Prefixed(tag: string, term: string)  // `!tag rest`, with term = rest.trim()

  function ParsePrefix(t: string): (f: PrefixForm)
    ensures f.NotPrefixed? <==> !StartsWith(t, "!")
    ensures f.NoSpace? <==> StartsWith(t, "!") && ' ' !in t
    ensures f.Prefixed? ==>
      && |f.tag| + 2 <= |t| && t[0] == '!' && t[1..|f.tag| + 1] == f.tag && t[|f.tag| + 1] == ' '
      && IndexOf(t, ' ') == |f.tag| + 1
      && ' ' !in f.tag
      && f.term == Trim(t[|f.tag| + 2..])
  {
    if !StartsWith(t, "!") then NotPrefixed
    else
      var sp := IndexOf(t, ' ');
      if sp < 0 then NoSpace
      else
        assert t[1..sp] == t[..sp][1..];
        Prefixed(t[1..sp], Trim(t[sp + 1..]))
  }

  /** A trimmed query spelled `!tag rest`, the tag free of U+0020, is read as that tag and term. */
  lemma ParsePrefixOf(tag: string, rest: string)
    requires ' ' !in tag
    ensures ParsePrefix("!" + tag + " " + rest) == Prefixed(tag, Trim(rest))
  {
    var t := "!" + tag + " " + rest;
    assert t == ("!" + tag) + [' '] + rest;
    IndexOfAfter("!" + tag, ' ', rest);
    assert StartsWith(t, "!");
    assert t[1..|tag| + 1] == tag;
    assert t[|tag| + 2..] == rest;
  }

  /** What the suffix regular expression makes of a trimmed query: group 1 trimmed, and group 2. */
  datatype SuffixForm = Suffixed(term: string, tag: string)

  function ParseSuffix(t: string): (r: Option<SuffixForm>)
    ensures r.None? <==> forall p: nat, k: nat :: !IsSuffixMatch(t, p, k)
    ensures r.Some? ==>
      && 0 < |r.value.tag| < |t| - 2
      && (forall i :: 0 <= i < |r.value.tag| ==> IsWordChar(r.value.tag[i]))
      && t[|t| - |r.value.tag| - 1..|t| - 1] == r.value.tag && t[|t| - 1] == '!'
      && exists p: nat :: IsSuffixMatch(t, p, |t| - |r.value.tag| - 1) && r.value.term == Trim(t[..p])
  {
    match SuffixMatch(t)
    case None => None
    case Some((p, k)) =>
      Some(Suffixed(Trim(t[..p]), t[k..|t| - 1]))
  }

  /** A suffix form read from a query comes from the match `SuffixMatch` reports. */
  lemma ParseSuffixIsMatch(t: string)
    requires ParseSuffix(t).Some?
    ensures SuffixMatch(t).Some? && IsSuffixMatch(t, SuffixMatch(t).value.0, SuffixMatch(t).value.1)
    ensures ParseSuffix(t).value.tag == t[SuffixMatch(t).value.1..|t| - 1]
    ensures ParseSuffix(t).value.term == Trim(t[..SuffixMatch(t).value.0])
  {
  }

  /**
    Two matches with the same group 2 differ only in where group 1 ends, and
    what lies between the two ends is white space, so trimming group 1 gives
    the same term.
  */
  lemma SuffixTermsAgree(t: string, p: nat, p': nat, k: nat)
    requires IsSuffixMatch(t, p, k) && IsSuffixMatch(t, p', k) && p <= p'
    ensures Trim(t[..p]) == Trim(t[..p'])
  {
    var gap := t[p..p'];
    assert AllWhite(gap) by {
      forall i | 0 <= i < |gap| ensures IsWhite(gap[i]) {
        assert gap[i] == t[p + i];
      }
    }
    assert t[..p'] == [] + t[..p] + gap;
    TrimIgnoresPadding([], t[..p], gap);
  }

  /** Every match of the regular expression gives the term `ParseSuffix` reports. */
  lemma ParseSuffixTerm(t: string)
    requires ParseSuffix(t).Some?
    ensures forall p: nat, k: nat :: IsSuffixMatch(t, p, k) ==> ParseSuffix(t).value.term == Trim(t[..p])
  {
    var (p0, k0) := SuffixMatch(t).value;
    forall p: nat, k: nat | IsSuffixMatch(t, p, k)
      ensures ParseSuffix(t).value.term == Trim(t[..p])
    {
      SuffixTermsAgree(t, p, p0, k0);
    }
  }

  /**
    `text w tag!` with a single white-space character before the tag and no
    line terminator in `text` is read as `tag` with term `text.trim()`.
  */
  lemma ParseSuffixOf(text: string, w: char, tag: string)
    requires text != [] && forall i :: 0 <= i < |text| ==> !IsLineTerminator(text[i])
    requires IsWhite(w)
    requires tag != [] && forall i :: 0 <= i < |tag| ==> IsWordChar(tag[i])
    ensures ParseSuffix(text + [w] + tag + "!") == Some(Suffixed(Trim(text), tag))
  {
    var t := text + [w] + tag + "!";
    var p, k := |text|, |text| + 1;
    assert |t| == k + |tag| + 1;
    assert t[..p] == text;
    assert t[k..|t| - 1] == tag;
    assert forall i :: 0 <= i < p ==> t[i] == text[i];
    assert t[p] == w && t[|t| - 1] == '!';
    assert forall i :: k <= i < |t| - 1 ==> t[i] == tag[i - k];
    assert IsSuffixMatch(t, p, k);
    var m := SuffixMatch(t);
    assert m.Some? && m.value.0 == p && m.value.1 == k;
  }
}
