/**
  `encodeURIComponent` and `decodeURIComponent` (section 19.2.6 of ECMA-262,
  2023 edition).  Encoding leaves the unreserved marks of the standard as they
  are and writes every other character as the UTF-8 bytes of its code point,
  each byte as a `%XX` triplet with upper-case hexadecimal digits (the
  percent-encoding of section 2.1 of RFC 3986).  Decoding reverses it and
  rejects malformed input (a `URIError` in JavaScript, `None` here).
*/
module UriComponent {
  import opened Wrappers
  import opened JsString

  type Byte = b: int | 0 <= b < 256

  /** The characters `encodeURIComponent` leaves unescaped: `A-Z a-z 0-9 - _ . ! ~ * ' ( )`. */
  predicate IsUnreserved(c: char) {
    || ('A' <= c <= 'Z') || ('a' <= c <= 'z') || ('0' <= c <= '9')
    || c == '-' || c == '_' || c == '.' || c == '!' || c == '~' || c == '*'
    || c == '\'' || c == '(' || c == ')'
  }

  predicate IsContinuation(b: Byte) {
    0x80 <= b < 0xC0
  }

  // ---------------------------------------------------------------------------
  // UTF-8
  // ---------------------------------------------------------------------------

  /** The UTF-8 encoding of one Unicode scalar value. */
  function Utf8(c: char): (bs: seq<Byte>)
    ensures 1 <= |bs| <= 4
    ensures |bs| == 1 <==> c as int < 0x80
    ensures |bs| == 1 ==> bs[0] == c as int
    ensures |bs| > 1 ==> 0xC0 <= bs[0]
    ensures forall i :: 1 <= i < |bs| ==> IsContinuation(bs[i])
  {
    var n := c as int;
    var q1 := n / 64;
    var q2 := q1 / 64;
    var q3 := q2 / 64;
    if n < 0x80 then [n]
    else if n < 0x800 then [0xC0 + q1, 0x80 + n % 64]
    else if n < 0x1_0000 then [0xE0 + q2, 0x80 + q1 % 64, 0x80 + n % 64]
    else [0xF0 + q3, 0x80 + q2 % 64, 0x80 + q1 % 64, 0x80 + n % 64]
  }

  /** How many bytes a sequence starting with `lead` has; 0 when `lead` cannot start one. */
  function SequenceLength(lead: Byte): nat {
    if lead < 0x80 then 1
    else if lead < 0xC0 then 0
    else if lead < 0xE0 then 2
    else if lead < 0xF0 then 3
    else if lead < 0xF8 then 4
    else 0
  }

  /**
    The scalar value a complete UTF-8 sequence spells, or `None` for a sequence
    that is not the shortest encoding of a scalar value (overlong forms,
    surrogates, values above U+10FFFF, bad continuation bytes).
  */
  function Utf8Decode(bs: seq<Byte>): Option<char> {
    if |bs| == 1 then
      if bs[0] < 0x80 then Some(bs[0] as char) else None
    else if |bs| == 2 then
      if 0xC0 <= bs[0] < 0xE0 && IsContinuation(bs[1]) then
        var n := (bs[0] as int - 0xC0) * 64 + (bs[1] as int - 0x80);
        if 0x80 <= n then Some(n as char) else None
      else None
    else if |bs| == 3 then
      if 0xE0 <= bs[0] < 0xF0 && IsContinuation(bs[1]) && IsContinuation(bs[2]) then
        var n := ((bs[0] as int - 0xE0) * 64 + (bs[1] as int - 0x80)) * 64 + (bs[2] as int - 0x80);
        if 0x800 <= n && !(0xD800 <= n < 0xE000) then Some(n as char) else None
      else None
    else if |bs| == 4 then
      if 0xF0 <= bs[0] < 0xF8 && IsContinuation(bs[1]) && IsContinuation(bs[2]) && IsContinuation(bs[3]) then
        var n := (((bs[0] as int - 0xF0) * 64 + (bs[1] as int - 0x80)) * 64 + (bs[2] as int - 0x80)) * 64 + (bs[3] as int - 0x80);
        if 0x1_0000 <= n < 0x11_0000 then Some(n as char) else None
      else None
    else None
  }

  /** UTF-8 decoding undoes UTF-8 encoding, and the lead byte announces the length. */
  lemma Utf8RoundTrip(c: char)
    ensures SequenceLength(Utf8(c)[0]) == |Utf8(c)|
    ensures Utf8Decode(Utf8(c)) == Some(c)
  {
    var n := c as int;
    var q1 := n / 64;
    var q2 := q1 / 64;
    var q3 := q2 / 64;
    assert n == q1 * 64 + n % 64;
    assert q1 == q2 * 64 + q1 % 64;
    assert q2 == q3 * 64 + q2 % 64;
  }

  // ---------------------------------------------------------------------------
  // Percent-encoding
  // ---------------------------------------------------------------------------

  /** An upper-case hexadecimal digit. */
  function HexDigit(d: nat): (c: char)
    requires d < 16
    ensures '0' <= c <= '9' || 'A' <= c <= 'F'
  {
    if d < 10 then ('0' as int + d) as char else ('A' as int + d - 10) as char
  }

  function HexValue(c: char): Option<nat> {
    if '0' <= c <= '9' then Some(c as int - '0' as int)
    else if 'A' <= c <= 'F' then Some(c as int - 'A' as int + 10)
    else if 'a' <= c <= 'f' then Some(c as int - 'a' as int + 10)
    else None
  }

  /** The `%XX` triplet of one byte. */
  function Triplet(b: Byte): (t: string)
    ensures |t| == 3 && t[0] == '%' && t[1] != '%' && t[2] != '%'
  {
    ['%', HexDigit(b / 16), HexDigit(b % 16)]
  }

  function PercentBytes(bs: seq<Byte>): (r: string)
    ensures |r| == 3 * |bs|
  {
    if bs == [] then [] else Triplet(bs[0]) + PercentBytes(bs[1..])
  }

  /** Every character `encodeURIComponent` can produce. */
  predicate IsEncodedChar(c: char) {
    IsUnreserved(c) || c == '%'
  }

  predicate AllEncodedChars(s: string) {
    forall i :: 0 <= i < |s| ==> IsEncodedChar(s[i])
  }

  lemma {:induction false} PercentBytesAlphabet(bs: seq<Byte>)
    ensures AllEncodedChars(PercentBytes(bs))
  {
    if bs != [] {
      PercentBytesAlphabet(bs[1..]);
    }
  }

  function EncodeChar(c: char): (r: string)
    ensures AllEncodedChars(r)
  {
    if IsUnreserved(c) then [c]
    else
      PercentBytesAlphabet(Utf8(c));
      PercentBytes(Utf8(c))
  }

  /** `encodeURIComponent`; a Dafny string holds no lone surrogate, so it never throws. */
  function Encode(s: string): (r: string)
    ensures AllEncodedChars(r)
    ensures (forall i :: 0 <= i < |s| ==> IsUnreserved(s[i])) ==> r == s
  {
    if s == [] then [] else EncodeChar(s[0]) + Encode(s[1..])
  }

  lemma {:induction false} EncodeAppend(a: string, b: string)
    ensures Encode(a + b) == Encode(a) + Encode(b)
  {
    if a == [] {
      assert a + b == b;
    } else {
      assert (a + b)[0] == a[0] && (a + b)[1..] == a[1..] + b;
      EncodeAppend(a[1..], b);
    }
  }

  /** The output of `encodeURIComponent` holds no `$` (so no replacement pattern) and no `{`. */
  lemma EncodedHasNoPatternChars(s: string)
    ensures '$' !in Encode(s) && '{' !in Encode(s) && '/' !in Encode(s)
  {
    var r := Encode(s);
    assert forall i :: 0 <= i < |r| ==> IsEncodedChar(r[i]);
  }

  // ---------------------------------------------------------------------------
  // Keeping slashes
  // ---------------------------------------------------------------------------

  /** `encodeURIComponent` as it would be with `/` among the unreserved marks. */
  function EncodeKeepSlash(s: string): (r: string)
    ensures forall i :: 0 <= i < |r| ==> IsEncodedChar(r[i]) || r[i] == '/'
  {
    if s == [] then []
    else (if s[0] == '/' then "/" else EncodeChar(s[0])) + EncodeKeepSlash(s[1..])
  }

  lemma EncodedKeepSlashHasNoPatternChars(s: string)
    ensures '$' !in EncodeKeepSlash(s) && '{' !in EncodeKeepSlash(s)
  {
    var r := EncodeKeepSlash(s);
    assert forall i :: 0 <= i < |r| ==> IsEncodedChar(r[i]) || r[i] == '/';
  }

  /** A term of unreserved characters and slashes comes out of the slash-keeping encoding unchanged. */
  lemma {:induction false} EncodeKeepSlashPlain(s: string)
    requires forall i :: 0 <= i < |s| ==> IsUnreserved(s[i]) || s[i] == '/'
    ensures EncodeKeepSlash(s) == s
  {
    if s != [] {
      assert forall i :: 0 <= i < |s[1..]| ==> s[1..][i] == s[i + 1];
      EncodeKeepSlashPlain(s[1..]);
      assert s == [s[0]] + s[1..];
    }
  }

  lemma {:induction false} EncodeKeepSlashAppend(a: string, b: string)
    ensures EncodeKeepSlash(a + b) == EncodeKeepSlash(a) + EncodeKeepSlash(b)
  {
    if a == [] {
      assert a + b == b;
    } else {
      assert (a + b)[0] == a[0] && (a + b)[1..] == a[1..] + b;
      EncodeKeepSlashAppend(a[1..], b);
    }
  }

  /** A space is escaped as `%20`. */
  lemma SpaceEncoded()
    ensures Encode(" ") == "%20"
  {
    assert EncodeChar(' ') == "%20";
  }

  lemma NoSlashAround(a: string, b: string)
    requires '/' !in a && '/' !in b
    ensures '/' !in a + " " + b
  {
  }

  /** Two words of unreserved characters with a space between them: only the space is escaped. */
  lemma SpaceBetweenWords(a: string, b: string)
    requires forall i :: 0 <= i < |a| ==> IsUnreserved(a[i])
    requires forall i :: 0 <= i < |b| ==> IsUnreserved(b[i])
    ensures EncodeKeepSlash(a + " " + b) == a + "%20" + b
  {
    assert '/' !in a && '/' !in b;
    NoSlashAround(a, b);
    EncodeKeepSlashWithoutSlash(a + " " + b);
    EncodeAppend(a + " ", b);
    EncodeAppend(a, " ");
    SpaceEncoded();
    var ea, eb := Encode(a), Encode(b);
    assert ea == a && eb == b;
  }

  /** Three words of unreserved characters with spaces between them: only the spaces are escaped. */
  lemma SpacesBetweenWords(a: string, b: string, c: string)
    requires forall i :: 0 <= i < |a| ==> IsUnreserved(a[i])
    requires forall i :: 0 <= i < |b| ==> IsUnreserved(b[i])
    requires forall i :: 0 <= i < |c| ==> IsUnreserved(c[i])
    ensures EncodeKeepSlash(a + " " + b + " " + c) == a + "%20" + b + "%20" + c
  {
    SpaceBetweenWords(a, b);
    SpaceBetweenWords([], c);
    assert [] + " " + c == " " + c;
    assert [] + "%20" + c == "%20" + c;
    EncodeKeepSlashAppend(a + " " + b, " " + c);
    Associative(a + " " + b, " ", c);
    Associative(a + "%20" + b, "%20", c);
  }

  /** On a term without `/` the two encodings agree. */
  lemma {:induction false} EncodeKeepSlashWithoutSlash(s: string)
    requires '/' !in s
    ensures EncodeKeepSlash(s) == Encode(s)
  {
    if s != [] {
      assert s[0] != '/' && '/' !in s[1..];
      EncodeKeepSlashWithoutSlash(s[1..]);
    }
  }

  /** A term with a `/` keeps it. */
  lemma {:induction false} EncodeKeepSlashKeepsSlash(s: string)
    requires '/' in s
    ensures '/' in EncodeKeepSlash(s)
  {
    var head := if s[0] == '/' then "/" else EncodeChar(s[0]);
    assert EncodeKeepSlash(s) == head + EncodeKeepSlash(s[1..]);
    if s[0] == '/' {
      assert EncodeKeepSlash(s)[0] == '/';
    } else {
      assert '/' in s[1..];
      EncodeKeepSlashKeepsSlash(s[1..]);
      var j :| 0 <= j < |EncodeKeepSlash(s[1..])| && EncodeKeepSlash(s[1..])[j] == '/';
      assert EncodeKeepSlash(s)[|head| + j] == '/';
    }
  }

  lemma HexDigitInjective(a: nat, b: nat)
    requires a < 16 && b < 16 && HexDigit(a) == HexDigit(b)
    ensures a == b
  {
  }

  /** A triplet is `%2F` exactly for the byte of `/`. */
  lemma TripletIsSlash(b: Byte)
    ensures (Triplet(b) == "%2F") <==> b == 0x2F
  {
    if Triplet(b) == "%2F" {
      assert HexDigit(b / 16) == HexDigit(2) && HexDigit(b % 16) == HexDigit(15);
      HexDigitInjective(b / 16, 2);
      HexDigitInjective(b % 16, 15);
    }
  }

  /** The escape of a byte other than `/` survives the `%2F` fix-up unchanged. */
  lemma FixSlashesSkipsTriplet(b: Byte, rest: string)
    requires b != 0x2F
    ensures ReplaceAll(Triplet(b) + rest, "%2F", "/") == Triplet(b) + ReplaceAll(rest, "%2F", "/")
  {
    var t := Triplet(b);
    TripletIsSlash(b);
    assert (t + rest)[..3] == t;
    assert (t + rest)[1..] == t[1..] + rest;
    assert '%' !in t[1..];
    ReplaceAllSkips(t[1..], rest, "%2F", "/");
    assert t == [t[0]] + t[1..];
  }

  lemma {:induction false} FixSlashesSkipsBytes(bs: seq<Byte>, x: string)
    requires forall i :: 0 <= i < |bs| ==> bs[i] != 0x2F
    ensures ReplaceAll(PercentBytes(bs) + x, "%2F", "/") == PercentBytes(bs) + ReplaceAll(x, "%2F", "/")
  {
    if bs == [] {
      assert PercentBytes(bs) + x == x;
    } else {
      var t, p := Triplet(bs[0]), PercentBytes(bs[1..]);
      assert PercentBytes(bs) == t + p;
      assert PercentBytes(bs) + x == t + (p + x);
      FixSlashesSkipsTriplet(bs[0], p + x);
      assert forall i :: 0 <= i < |bs[1..]| ==> bs[1..][i] == bs[i + 1];
      FixSlashesSkipsBytes(bs[1..], x);
      var y := ReplaceAll(x, "%2F", "/");
      Associative(t, p, y);
    }
  }

  lemma FixSlashesChar(c: char, x: string)
    ensures ReplaceAll(EncodeChar(c) + x, "%2F", "/")
         == (if c == '/' then "/" else EncodeChar(c)) + ReplaceAll(x, "%2F", "/")
  {
    if c == '/' {
      assert Utf8(c) == [0x2F];
      assert EncodeChar(c) == Triplet(0x2F) == "%2F";
      ReplaceAllAtMatch(x, "%2F", "/");
    } else if IsUnreserved(c) {
      ReplaceAllSkips([c], x, "%2F", "/");
    } else {
      var bs := Utf8(c);
      assert forall i :: 0 <= i < |bs| ==> bs[i] != 0x2F;
      FixSlashesSkipsBytes(bs, x);
    }
  }

  /**
    Turning every `%2F` of the encoded text back into `/` touches only encoded
    slashes, because `%` itself is always escaped: the fix-up equals encoding
    with `/` treated as unreserved.
  */
  lemma {:induction false} FixSlashes(s: string)
    ensures ReplaceAll(Encode(s), "%2F", "/") == EncodeKeepSlash(s)
  {
    if s != [] {
      FixSlashesChar(s[0], Encode(s[1..]));
      FixSlashes(s[1..]);
    }
  }

  // ---------------------------------------------------------------------------
  // Decoding
  // ---------------------------------------------------------------------------

  /** The byte of a `%XX` triplet at the front of `e`. */
  function ReadByte(e: string): (r: Option<Byte>)
    ensures r.Some? ==> 3 <= |e| && e[0] == '%'
  {
    if 3 <= |e| && e[0] == '%' then
      match (HexValue(e[1]), HexValue(e[2]))
      case (Some(h), Some(l)) => Some(h * 16 + l)
      case _ => None
    else None
  }

  /** The bytes of `n` consecutive triplets at the front of `e`. */
  function ReadBytes(e: string, n: nat): (r: Option<seq<Byte>>)
    ensures r.Some? ==> |r.value| == n && 3 * n <= |e|
  {
    if n == 0 then Some([])
    else
      match ReadByte(e)
      case None => None
      case Some(b) =>
        match ReadBytes(e[3..], n - 1)
        case None => None
        case Some(bs) => Some([b] + bs)
  }

  /**
    `decodeURIComponent`: `None` stands for the `URIError` it throws on a `%`
    that does not start a complete, valid UTF-8 sequence of triplets.
  */
  function Decode(e: string): Option<string>
    decreases |e|
  {
    if e == [] then Some([])
    else if e[0] != '%' then
      match Decode(e[1..])
      case None => None
      case Some(t) => Some([e[0]] + t)
    else
      match ReadByte(e)
      case None => None
      case Some(lead) =>
        var n := SequenceLength(lead);
        if n == 0 then None
        else
          match ReadBytes(e, n)
          case None => None
          case Some(bs) =>
            match Utf8Decode(bs)
            case None => None
            case Some(c) =>
              match Decode(e[3 * n..])
              case None => None
              case Some(t) => Some([c] + t)
  }

  lemma ReadTriplet(b: Byte, x: string)
    ensures ReadByte(Triplet(b) + x) == Some(b)
  {
    var e := Triplet(b) + x;
    assert e[1] == HexDigit(b / 16) && e[2] == HexDigit(b % 16);
  }

  lemma {:induction false} ReadPercentBytes(bs: seq<Byte>, x: string)
    ensures ReadBytes(PercentBytes(bs) + x, |bs|) == Some(bs)
    ensures (PercentBytes(bs) + x)[3 * |bs|..] == x
  {
    var e := PercentBytes(bs) + x;
    assert e[|PercentBytes(bs)|..] == x;
    if bs != [] {
      var b, rest := bs[0], bs[1..];
      var tail := PercentBytes(rest) + x;
      assert e == Triplet(b) + tail;
      ReadTriplet(b, tail);
      assert e[3..] == tail;
      ReadPercentBytes(rest, x);
      assert ReadBytes(e, |bs|) == Some([b] + rest);
      assert bs == [b] + rest;
    }
  }

  lemma DecodeEscaped(c: char, x: string)
    requires !IsUnreserved(c)
    ensures Decode(PercentBytes(Utf8(c)) + x) == match Decode(x) case None => None case Some(t) => Some([c] + t)
  {
    var bs := Utf8(c);
    var e := PercentBytes(bs) + x;
    Utf8RoundTrip(c);
    ReadPercentBytes(bs, x);
    assert e == Triplet(bs[0]) + (PercentBytes(bs[1..]) + x);
    ReadTriplet(bs[0], PercentBytes(bs[1..]) + x);
  }

  lemma DecodeChar(c: char, x: string)
    ensures Decode(EncodeChar(c) + x) == match Decode(x) case None => None case Some(t) => Some([c] + t)
  {
    if IsUnreserved(c) {
      var e := EncodeChar(c) + x;
      assert e[0] == c && e[1..] == x;
    } else {
      DecodeEscaped(c, x);
    }
  }

  /** `decodeURIComponent` recovers exactly the text `encodeURIComponent` was given. */
  lemma {:induction false} DecodeEncode(s: string)
    ensures Decode(Encode(s)) == Some(s)
  {
    if s != [] {
      DecodeChar(s[0], Encode(s[1..]));
      DecodeEncode(s[1..]);
      assert s == [s[0]] + s[1..];
    }
  }

  /** Restoring the slashes loses nothing: the result still decodes to the original term. */
  lemma {:induction false} DecodeEncodeKeepSlash(s: string)
    ensures Decode(EncodeKeepSlash(s)) == Some(s)
  {
    if s != [] {
      var rest := EncodeKeepSlash(s[1..]);
      if s[0] == '/' {
        assert ("/" + rest)[0] == '/' && ("/" + rest)[1..] == rest;
      } else {
        DecodeChar(s[0], rest);
      }
      DecodeEncodeKeepSlash(s[1..]);
      assert s == [s[0]] + s[1..];
    }
  }
}
