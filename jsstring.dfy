/**
  The JavaScript string primitives the resolvers rely on: `trim`, `startsWith`,
  `indexOf`, `length` and `substring` (counted in UTF-16 code units), the
  character classes of regular expressions, and `replace` with a global pattern.

  A Dafny `char` is a Unicode scalar value, so a `string` here is always
  well-formed text: it never holds a lone surrogate.  JavaScript counts lengths
  in UTF-16 code units; a scalar value above U+FFFF occupies two of them.
*/
module JsString {
  import opened Wrappers

  // ---------------------------------------------------------------------------
  // Character classes
  // ---------------------------------------------------------------------------

  /** ECMAScript LineTerminator: LF, CR, LINE SEPARATOR, PARAGRAPH SEPARATOR. */
  predicate IsLineTerminator(c: char) {
    c == '\n' || c == '\r' || c == '\U{2028}' || c == '\U{2029}'
  }

  /**
    ECMAScript WhiteSpace or LineTerminator: the set `String.prototype.trim`
    removes and the set `\s` matches.  WhiteSpace is TAB, VT, FF, ZWNBSP and
    every character of general category Zs.
  */
  predicate IsWhite(c: char) {
    || c == '\t' || c == '\U{000B}' || c == '\U{000C}' || c == '\U{FEFF}'
    || c == ' ' || c == '\U{00A0}' || c == '\U{1680}'
    || ('\U{2000}' <= c <= '\U{200A}')
    || c == '\U{202F}' || c == '\U{205F}' || c == '\U{3000}'
    || IsLineTerminator(c)
  }

  /** The class `\w` of a regular expression without the `u` flag: `[A-Za-z0-9_]`. */
  predicate IsWordChar(c: char) {
    ('A' <= c <= 'Z') || ('a' <= c <= 'z') || ('0' <= c <= '9') || c == '_'
  }

  predicate AllWhite(s: string) {
    forall i :: 0 <= i < |s| ==> IsWhite(s[i])
  }

  /** A string `trim` leaves unchanged: no white space at either end. */
  predicate IsTrimmed(s: string) {
    s == [] || (!IsWhite(s[0]) && !IsWhite(s[|s| - 1]))
  }

  // ---------------------------------------------------------------------------
  // trim
  // ---------------------------------------------------------------------------

  function TrimStart(s: string): (r: string)
    ensures |r| <= |s| && r == s[|s| - |r|..]
    ensures AllWhite(s[..|s| - |r|])
    ensures r == [] || !IsWhite(r[0])
  {
    if s != [] && IsWhite(s[0]) then
      var t := s[1..];
      var r := TrimStart(t);
      assert s[|s| - |r|..] == t[|t| - |r|..];
      assert forall i :: 0 < i < |s| - |r| ==> s[i] == t[..|t| - |r|][i - 1];
      r
    else s
  }

  function TrimEnd(s: string): (r: string)
    ensures |r| <= |s| && r == s[..|r|]
    ensures AllWhite(s[|r|..])
    ensures r == [] || !IsWhite(r[|r| - 1])
  {
    if s != [] && IsWhite(s[|s| - 1]) then TrimEnd(s[..|s| - 1]) else s
  }

  /** `String.prototype.trim`: what is left once both white-space margins are cut. */
  function Trim(s: string): (r: string)
    ensures |r| <= |s|
    ensures IsTrimmed(r)
  {
    TrimEnd(TrimStart(s))
  }

  lemma {:induction false} TrimStartOfPadded(a: string, x: string)
    requires AllWhite(a)
    requires x == [] || !IsWhite(x[0])
    ensures TrimStart(a + x) == x
  {
    if a != [] {
      assert (a + x)[1..] == a[1..] + x;
      TrimStartOfPadded(a[1..], x);
    }
  }

  lemma {:induction false} TrimEndOfPadded(x: string, b: string)
    requires AllWhite(b)
    requires x == [] || !IsWhite(x[|x| - 1])
    ensures TrimEnd(x + b) == x
  {
    if b != [] {
      assert (x + b)[..|x + b| - 1] == x + b[..|b| - 1];
      TrimEndOfPadded(x, b[..|b| - 1]);
    }
  }

  /**
    Trimming is determined by the margins: a trimmed core surrounded by white
    space trims to that core.  With `TrimSplit` this pins the result down
    completely.
  */
  lemma TrimOfPadded(a: string, r: string, b: string)
    requires AllWhite(a) && AllWhite(b) && IsTrimmed(r)
    ensures Trim(a + r + b) == r
  {
    if r == [] {
      assert a + r + b == (a + b) + [];
      TrimStartOfPadded(a + b, []);
    } else {
      assert a + r + b == a + (r + b);
      TrimStartOfPadded(a, r + b);
      TrimEndOfPadded(r, b);
    }
  }

  lemma AllWhiteAppend(x: string, y: string)
    requires AllWhite(x) && AllWhite(y)
    ensures AllWhite(x + y)
  {
  }

  /** The white-space margins that `trim` cuts off. */
  lemma TrimSplit(s: string) returns (lead: string, trail: string)
    ensures AllWhite(lead) && AllWhite(trail)
    ensures s == lead + (Trim(s) + trail)
  {
    var t := TrimStart(s);
    var r := TrimEnd(t);
    lead, trail := s[..|s| - |t|], t[|r|..];
    assert Trim(s) == r;
    SplitAt(s, t, r);
  }

  /** A suffix `t` of `s` and a prefix `r` of `t` cut `s` in three. */
  lemma SplitAt(s: string, t: string, r: string)
    requires |t| <= |s| && t == s[|s| - |t|..] && |r| <= |t| && r == t[..|r|]
    ensures s == s[..|s| - |t|] + (r + t[|r|..])
  {
    assert t == t[..|r|] + t[|r|..];
    assert s == s[..|s| - |t|] + s[|s| - |t|..];
  }

  lemma Associative(a: string, b: string, c: string)
    ensures a + (b + c) == (a + b) + c
  {
  }

  lemma Regroup(a: string, l: string, m: string, t: string, b: string)
    ensures a + (l + (m + t)) + b == (a + l) + m + (t + b)
  {
  }

  /** Extra white space around a string does not change what `trim` gives. */
  lemma TrimIgnoresPadding(a: string, s: string, b: string)
    requires AllWhite(a) && AllWhite(b)
    ensures Trim(a + s + b) == Trim(s)
  {
    var lead, trail := TrimSplit(s);
    AllWhiteAppend(a, lead);
    AllWhiteAppend(trail, b);
    Regroup(a, lead, Trim(s), trail, b);
    TrimOfPadded(a + lead, Trim(s), trail + b);
  }

  /** `trim` leaves a string unchanged exactly when it has no white space at either end. */
  lemma TrimFixedPoint(s: string)
    ensures Trim(s) == s <==> IsTrimmed(s)
  {
    if IsTrimmed(s) {
      assert s == [] + s + [];
      TrimOfPadded([], s, []);
    }
  }

  lemma TrimIdempotent(s: string)
    ensures Trim(Trim(s)) == Trim(s)
  {
    TrimFixedPoint(Trim(s));
  }

  // ---------------------------------------------------------------------------
  // startsWith, indexOf
  // ---------------------------------------------------------------------------

  predicate StartsWith(s: string, prefix: string) {
    prefix <= s
  }

  /** `s.indexOf(c)` for a one-character needle: the first position of `c`, or -1. */
  function IndexOf(s: string, c: char): (r: int)
    ensures -1 <= r < |s|
    ensures r == -1 <==> c !in s
    ensures r >= 0 ==> s[r] == c && c !in s[..r]
  {
    if s == [] then -1
    else if s[0] == c then 0
    else
      var i := IndexOf(s[1..], c);
      assert s == [s[0]] + s[1..];
      if i < 0 then -1
      else
        assert s[..i + 1] == [s[0]] + s[1..][..i];
        i + 1
  }

  /** The first `c` after a stretch free of `c` is found right there. */
  lemma IndexOfAfter(a: string, c: char, b: string)
    requires c !in a
    ensures IndexOf(a + [c] + b, c) == |a|
  {
    var s := a + [c] + b;
    assert s[|a|] == c && s[..|a|] == a;
  }

  // ---------------------------------------------------------------------------
  // length and substring, in UTF-16 code units
  // ---------------------------------------------------------------------------

  /** The number of UTF-16 code units that encode `c`. */
  function CodeUnits(c: char): (n: nat)
    ensures n == 1 || n == 2
  {
    if c as int < 0x1_0000 then 1 else 2
  }

  /** `s.length` in JavaScript. */
  function Utf16Length(s: string): (n: nat)
    ensures |s| <= n <= 2 * |s|
  {
    if s == [] then 0 else CodeUnits(s[0]) + Utf16Length(s[1..])
  }

  lemma {:induction false} Utf16LengthAppend(a: string, b: string)
    ensures Utf16Length(a + b) == Utf16Length(a) + Utf16Length(b)
  {
    if a != [] {
      assert (a + b)[0] == a[0];
      assert (a + b)[1..] == a[1..] + b;
      Utf16LengthAppend(a[1..], b);
    } else {
      assert a + b == b;
    }
  }

  /** Every character lies in the Basic Multilingual Plane (one code unit each). */
  predicate IsBmp(s: string) {
    forall i :: 0 <= i < |s| ==> s[i] as int < 0x1_0000
  }

  /**
    `s.substring(0, n)`.  When the cut falls inside the two code units of one
    character, JavaScript returns a string ending in a lone high surrogate; a
    Dafny string cannot hold one, so that case is `None`.
  */
  function PrefixUnits(s: string, n: nat): (r: Option<string>)
    ensures r.Some? ==> r.value <= s
  {
    if s == [] || n == 0 then Some([])
    else if CodeUnits(s[0]) <= n then
      match PrefixUnits(s[1..], n - CodeUnits(s[0]))
      case None => None
      case Some(p) => Some([s[0]] + p)
    else None
  }

  /** A prefix that `substring(0, n)` returns is `n` code units long, or all of `s`. */
  lemma {:induction false} PrefixUnitsLength(s: string, n: nat)
    requires PrefixUnits(s, n).Some?
    ensures Utf16Length(PrefixUnits(s, n).value) == if n < Utf16Length(s) then n else Utf16Length(s)
  {
    if s != [] && n != 0 {
      var c := CodeUnits(s[0]);
      var p := PrefixUnits(s[1..], n - c);
      PrefixUnitsLength(s[1..], n - c);
      var r := [s[0]] + p.value;
      assert r[0] == s[0] && r[1..] == p.value;
    }
  }

  /** A cut of `s` after `n` code units falls between the two code units of one character. */
  ghost predicate SplitsPair(s: string, n: nat) {
    exists i :: 0 <= i < |s| && Utf16Length(s[..i]) + 1 == n && CodeUnits(s[i]) == 2
  }

  /** The two code units of `s[0]` that `Utf16Length` counts first. */
  lemma Utf16LengthCons(s: string, i: nat)
    requires 0 < i <= |s|
    ensures Utf16Length(s[..i]) == CodeUnits(s[0]) + Utf16Length(s[1..][..i - 1])
  {
    var u := s[..i];
    assert u[0] == s[0] && u[1..] == s[1..][..i - 1];
  }

  /** `substring(0, n)` fails only on a cut that splits a pair. */
  lemma {:induction false} PrefixUnitsNoneSplits(s: string, n: nat)
    requires PrefixUnits(s, n).None?
    ensures SplitsPair(s, n)
  {
    var c := CodeUnits(s[0]);
    if c <= n {
      PrefixUnitsNoneSplits(s[1..], n - c);
      var i :| 0 <= i < |s[1..]| && Utf16Length(s[1..][..i]) + 1 == n - c && CodeUnits(s[1..][i]) == 2;
      Utf16LengthCons(s, i + 1);
      assert s[1..][i] == s[i + 1];
    } else {
      assert s[..0] == [];
    }
  }

  /** A cut right after the first code unit of a two-unit character has no Dafny string. */
  lemma {:induction false} PrefixUnitsSplit(s: string, i: nat, n: nat)
    requires i < |s| && Utf16Length(s[..i]) + 1 == n && CodeUnits(s[i]) == 2
    ensures PrefixUnits(s, n).None?
  {
    if i > 0 {
      Utf16LengthCons(s, i);
      assert s[1..][i - 1] == s[i];
      PrefixUnitsSplit(s[1..], i - 1, n - CodeUnits(s[0]));
    } else {
      assert s[..i] == [];
    }
  }

  /** A cut that splits a pair lies before the end of `s`. */
  lemma SplitsPairInside(s: string, n: nat)
    requires SplitsPair(s, n)
    ensures n < Utf16Length(s)
  {
    var i :| 0 <= i < |s| && Utf16Length(s[..i]) + 1 == n && CodeUnits(s[i]) == 2;
    Utf16LengthAt(s, i);
  }

  /** The code units of `s` before character `i` and of `s[i]` itself are all counted in `s.length`. */
  lemma Utf16LengthAt(s: string, i: nat)
    requires i < |s|
    ensures Utf16Length(s[..i]) + CodeUnits(s[i]) <= Utf16Length(s)
  {
    var a, b := s[..i], s[i..];
    assert s == a + b;
    Utf16LengthAppend(a, b);
    assert b[0] == s[i];
    assert Utf16Length(b) == CodeUnits(b[0]) + Utf16Length(b[1..]);
  }

  /** `substring(0, n)` has no Dafny string exactly when the cut splits a pair, which needs `n` short of the length. */
  lemma PrefixUnitsNone(s: string, n: nat)
    ensures PrefixUnits(s, n).None? <==> SplitsPair(s, n)
    ensures SplitsPair(s, n) ==> n < Utf16Length(s)
  {
    if SplitsPair(s, n) {
      var i :| 0 <= i < |s| && Utf16Length(s[..i]) + 1 == n && CodeUnits(s[i]) == 2;
      PrefixUnitsSplit(s, i, n);
      SplitsPairInside(s, n);
    } else if PrefixUnits(s, n).None? {
      PrefixUnitsNoneSplits(s, n);
    }
  }

  /** On text of the Basic Multilingual Plane, `substring(0, n)` is a plain prefix. */
  lemma {:induction false} PrefixUnitsBmp(s: string, n: nat)
    requires IsBmp(s)
    ensures PrefixUnits(s, n) == Some(if n < |s| then s[..n] else s)
  {
    if s != [] && n != 0 {
      var t := s[1..];
      assert IsBmp(t);
      assert CodeUnits(s[0]) == 1;
      PrefixUnitsBmp(t, n - 1);
      if n < |s| {
        assert s[..n] == [s[0]] + t[..n - 1];
      } else {
        assert s == [s[0]] + t;
      }
    }
  }

  lemma {:induction false} Utf16LengthBmp(s: string)
    requires IsBmp(s)
    ensures Utf16Length(s) == |s|
  {
    if s != [] {
      assert IsBmp(s[1..]);
      Utf16LengthBmp(s[1..]);
    }
  }

  // ---------------------------------------------------------------------------
  // replace with a global pattern that matches one literal string
  // ---------------------------------------------------------------------------

  /**
    `s.replace(/pat/g, rep)`: every match of `pat`, scanned from the left and
    never overlapping, is replaced by `rep`.  In JavaScript a `$` in `rep`
    introduces a substitution pattern; every replacement the resolvers pass is
    free of `$`, which is required here.
  */
  function ReplaceAll(s: string, pat: string, rep: string): (r: string)
    requires |pat| > 0 && '$' !in rep
    ensures MatchCount(s, pat) == 0 ==> r == s
    decreases |s|
  {
    if s == [] then []
    else if pat <= s then rep + ReplaceAll(s[|pat|..], pat, rep)
    else [s[0]] + ReplaceAll(s[1..], pat, rep)
  }

  /** `s.match(/pat/g).length` (0 when there is no match): the matches that `ReplaceAll` replaces. */
  function MatchCount(s: string, pat: string): nat
    requires |pat| > 0
    decreases |s|
  {
    if s == [] then 0
    else if pat <= s then 1 + MatchCount(s[|pat|..], pat)
    else MatchCount(s[1..], pat)
  }

  /** A stretch that never holds the first character of the pattern passes through untouched. */
  lemma {:induction false} ReplaceAllSkips(a: string, x: string, pat: string, rep: string)
    requires |pat| > 0 && '$' !in rep
    requires pat[0] !in a
    ensures ReplaceAll(a + x, pat, rep) == a + ReplaceAll(x, pat, rep)
    ensures MatchCount(a + x, pat) == MatchCount(x, pat)
  {
    if a != [] {
      assert (a + x)[0] == a[0] != pat[0];
      assert !(pat <= a + x);
      assert (a + x)[1..] == a[1..] + x;
      ReplaceAllSkips(a[1..], x, pat, rep);
      assert a == [a[0]] + a[1..];
    } else {
      assert a + x == x;
    }
  }

  /** A match at the front is replaced, and scanning resumes after it. */
  lemma ReplaceAllAtMatch(x: string, pat: string, rep: string)
    requires |pat| > 0 && '$' !in rep
    ensures ReplaceAll(pat + x, pat, rep) == rep + ReplaceAll(x, pat, rep)
    ensures MatchCount(pat + x, pat) == 1 + MatchCount(x, pat)
  {
    assert pat <= pat + x;
    assert (pat + x)[|pat|..] == x;
  }

  /**
    A string whose only possible match sits between two stretches free of the
    pattern's first character: the pattern occurs exactly once and `replace`
    splices `rep` in its place.
  */
  lemma ReplaceSingle(pre: string, pat: string, post: string, rep: string)
    requires |pat| > 0 && '$' !in rep
    requires pat[0] !in pre && pat[0] !in post
    ensures MatchCount(pre + pat + post, pat) == 1
    ensures ReplaceAll(pre + pat + post, pat, rep) == pre + rep + post
  {
    assert pre + pat + post == pre + (pat + post);
    ReplaceAllSkips(pre, pat + post, pat, rep);
    ReplaceAllAtMatch(post, pat, rep);
    assert post == post + [];
    ReplaceAllSkips(post, [], pat, rep);
  }
}
