/**
  The resolver of public_html/search.js: `buildSearchUrl`, `getDefaultBang`,
  `buildFallbackUrl` and `processBang`.

  The functions take the bang table as a parameter `bangs`; `ProcessBang`
  applies them to the table of public_html/search.js.  `window.localStorage`
  is a parameter too: `None` when the page has no storage, otherwise the
  stored items.
*/
module SearchJs {
  import opened Wrappers
  import opened JsString
  import opened UriComponent
  import opened Bangs
  import opened BangSyntax

  /** The storage key under which the settings panel keeps the chosen default bang. */
  const StorageKey: string := "default-bang"

  /** Queries longer than this many UTF-16 code units are cut before the fallback search. */
  const MaxQueryUnits: nat := 2000

  /** The exceptions a resolution can throw. */
  datatype Thrown =
    | URIError   // encodeURIComponent met a lone surrogate
    | TypeError  // `urlTemplate.replace` is not a function

  type Storage = Option<map<string, string>>

  /** A bang table: the default bang is one of its tags, and every entry is a template. */
  ghost predicate ValidTable(bangs: map<string, string>) {
    DefaultBang in bangs && forall tag :: tag in bangs ==> IsTemplate(bangs[tag])
  }

  lemma SearchBangsValid()
    ensures ValidTable(SearchBangs)
  {
    SearchBangsAreTemplates();
  }

  // ---------------------------------------------------------------------------
  // buildSearchUrl
  // ---------------------------------------------------------------------------

  /**
    `buildSearchUrl(urlTemplate, searchTerm)`: encode the term, turn every
    `%2F` back into `/`, and put the result wherever the template holds the
    placeholder.
  */
  function BuildSearchUrl(template: string, term: string): string
  {
    FixSlashes(term);
    EncodedKeepSlashHasNoPatternChars(term);
    ReplaceAll(template, Placeholder, ReplaceAll(Encode(term), "%2F", "/"))
  }

  /**
    `url` is `template` with its placeholder replaced by the term, percent-encoded
    except for its slashes.
  */
  predicate IsInstance(url: string, template: string, term: string) {
    exists i :: 0 < i <= |template| && IsTemplateAt(template, i) && url == template[..i] + EncodeKeepSlash(term) + template[i + |Placeholder|..]
  }

  /** Filling a template keeps the text around the placeholder and puts the encoded term in its place. */
  lemma BuildSearchUrlFills(template: string, i: nat, term: string)
    requires IsTemplateAt(template, i)
    ensures BuildSearchUrl(template, term) == template[..i] + EncodeKeepSlash(term) + template[i + |Placeholder|..]
  {
    var pre, post := template[..i], template[i + |Placeholder|..];
    assert template == pre + Placeholder + post;
    FixSlashes(term);
    EncodedKeepSlashHasNoPatternChars(term);
    ReplaceSingle(pre, Placeholder, post, EncodeKeepSlash(term));
  }

  lemma BuildSearchUrlIsInstance(template: string, term: string)
    requires IsTemplate(template)
    ensures IsInstance(BuildSearchUrl(template, term), template, term)
  {
    var i :| 0 < i <= |template| && IsTemplateAt(template, i);
    BuildSearchUrlFills(template, i, term);
  }

  /**
    The search term can be read back from the URL: one template never yields
    the same URL for two different terms, because the text in the
    placeholder's place decodes to the term.
  */
  lemma BuildSearchUrlInjective(template: string, term1: string, term2: string)
    requires IsTemplate(template)
    requires BuildSearchUrl(template, term1) == BuildSearchUrl(template, term2)
    ensures term1 == term2
  {
    var i :| 0 < i <= |template| && IsTemplateAt(template, i);
    BuildSearchUrlFills(template, i, term1);
    BuildSearchUrlFills(template, i, term2);
    var pre, post := template[..i], template[i + |Placeholder|..];
    var e1, e2 := EncodeKeepSlash(term1), EncodeKeepSlash(term2);
    var u := pre + e1 + post;
    assert |e1| == |e2|;
    assert e1 == u[|pre|..|pre| + |e1|];
    assert e2 == (pre + e2 + post)[|pre|..|pre| + |e2|];
    DecodeEncodeKeepSlash(term1);
    DecodeEncodeKeepSlash(term2);
  }

  // ---------------------------------------------------------------------------
  // `bangs[tag]`, getDefaultBang and buildFallbackUrl
  // ---------------------------------------------------------------------------

  /**
    Object.prototype's property names.  The table is an object literal, so
    `bangs[tag]` is truthy for these tags too.
  */
  const InheritedNames: set<string> := {
    "constructor", "hasOwnProperty", "isPrototypeOf", "propertyIsEnumerable",
    "toLocaleString", "toString", "valueOf", "__proto__",
    "__defineGetter__", "__defineSetter__", "__lookupGetter__", "__lookupSetter__"
  }

  /**
    How `bangs[tag]` is read: only the table's own keys, or along the
    prototype chain, which adds the `inherited` names (for an object literal,
    `InheritedNames`).
  */
  datatype Access = OwnKeys | PrototypeChain(inherited: set<string>)

  /** `bangs[tag]` is truthy. */
  predicate Known(bangs: map<string, string>, tag: string, access: Access) {
    tag in bangs || (access.PrototypeChain? && tag in access.inherited)
  }

  /** `buildSearchUrl(bangs[tag], term)`, which throws when `bangs[tag]` is an inherited member rather than a string. */
  function SearchWith(bangs: map<string, string>, tag: string, term: string, access: Access): (r: Result<string, Thrown>)
    requires Known(bangs, tag, access)
    ensures r.Success? <==> tag in bangs
    ensures r.Failure? ==> r.error == TypeError
  {
    if tag in bangs then Success(BuildSearchUrl(bangs[tag], term)) else Failure(TypeError)
  }

  /** `storage.getItem("default-bang")`, or `None` when there is no storage or no such item. */
  function StoredDefault(storage: Storage): Option<string> {
    if storage.Some? && StorageKey in storage.value then Some(storage.value[StorageKey]) else None
  }

  /**
    `getDefaultBang()`: the stored default bang when it is a non-empty string
    that `bangs[userDefault]` finds, otherwise `d`.
  */
  function GetDefaultBang(bangs: map<string, string>, storage: Storage, access: Access): (b: string)
    requires DefaultBang in bangs
    ensures Known(bangs, b, access)
    ensures b == DefaultBang || StoredDefault(storage) == Some(b)
    ensures StoredDefault(storage).Some? && StoredDefault(storage).value != "" && Known(bangs, StoredDefault(storage).value, access) ==>
      b == StoredDefault(storage).value
  {
    var stored := StoredDefault(storage);
    if stored.Some? && stored.value != "" && Known(bangs, stored.value, access) then stored.value else DefaultBang
  }

  /**
    `buildFallbackUrl(searchTerm)`: the term searched with the default bang.
    It throws only when the default bang names an inherited member.
  */
  function BuildFallbackUrl(bangs: map<string, string>, term: string, storage: Storage, access: Access): (r: Result<string, Thrown>)
    requires DefaultBang in bangs
    ensures r.Success? <==> GetDefaultBang(bangs, storage, access) in bangs
    ensures r.Failure? ==> r.error == TypeError && access.PrototypeChain?
  {
    SearchWith(bangs, GetDefaultBang(bangs, storage, access), term, access)
  }

  // ---------------------------------------------------------------------------
  // processBang
  // ---------------------------------------------------------------------------

  /**
    `processBang(query)` with `bangs[tag]` read as `access` says.  A URIError
    comes only from a query too long, and a TypeError only from the prototype
    chain.
  */
  function Resolve(bangs: map<string, string>, query: string, storage: Storage, access: Access): (r: Result<string, Thrown>)
    requires DefaultBang in bangs
    ensures r.Failure? && r.error == URIError ==> Utf16Length(Trim(query)) > MaxQueryUnits
    ensures r.Failure? && r.error == TypeError ==> access.PrototypeChain?
  {
    ResolveTrimmed(bangs, Trim(query), storage, access)
  }

  /**
    The body of `processBang` after `query.trim()`: a query longer than 2000
    code units is cut and its head searched with the default bang; a shorter
    one is resolved by its form.
  */
  function ResolveTrimmed(bangs: map<string, string>, trimmed: string, storage: Storage, access: Access): (r: Result<string, Thrown>)
    requires DefaultBang in bangs
    ensures r.Failure? && r.error == URIError ==> Utf16Length(trimmed) > MaxQueryUnits
    ensures r.Failure? && r.error == TypeError ==> access.PrototypeChain?
  {
    if Utf16Length(trimmed) > MaxQueryUnits then
      match PrefixUnits(trimmed, MaxQueryUnits)
      case None => Failure(URIError)
      case Some(head) => BuildFallbackUrl(bangs, head, storage, access)
    else ResolveForm(bangs, trimmed, storage, access)
  }

  /**
    A trimmed query of at most 2000 code units: starting with `!` and holding
    no space, it goes to the default bang whole; `!tag rest` with a known tag
    searches `rest`; otherwise `text tag!` with a known tag searches `text`;
    anything else goes to the default bang whole.
  */
  function ResolveForm(bangs: map<string, string>, trimmed: string, storage: Storage, access: Access): (r: Result<string, Thrown>)
    requires DefaultBang in bangs
    ensures r.Failure? ==> r.error == TypeError && access.PrototypeChain?
  {
    var prefix := ParsePrefix(trimmed);
    if prefix.NoSpace? then BuildFallbackUrl(bangs, trimmed, storage, access)
    else if prefix.Prefixed? && Known(bangs, prefix.tag, access) then SearchWith(bangs, prefix.tag, prefix.term, access)
    else
      match ParseSuffix(trimmed)
      case Some(Suffixed(term, tag)) =>
        if Known(bangs, tag, access) then SearchWith(bangs, tag, term, access) else BuildFallbackUrl(bangs, trimmed, storage, access)
      case None => BuildFallbackUrl(bangs, trimmed, storage, access)
  }

  /**
    `processBang(query)` on the table of search.js, read by its own keys: it
    throws only when the trimmed query is too long and the cut at 2000 code
    units falls inside a character outside the Basic Multilingual Plane.
  */
  function ProcessBang(query: string, storage: Storage): (r: Result<string, Thrown>)
    ensures r.Failure? ==> r.error == URIError && Utf16Length(Trim(query)) > MaxQueryUnits
  {
    SearchHasDefault();
    OwnKeysThrowsOnlyUriError(SearchBangs, query, storage);
    Resolve(SearchBangs, query, storage, OwnKeys)
  }

  /** Read by its own keys, a table never makes `processBang` throw a TypeError. */
  lemma OwnKeysThrowsOnlyUriError(bangs: map<string, string>, query: string, storage: Storage)
    requires DefaultBang in bangs
    ensures var r := Resolve(bangs, query, storage, OwnKeys);
      r.Failure? ==> r.error == URIError && Utf16Length(Trim(query)) > MaxQueryUnits
  {
  }

  // ---------------------------------------------------------------------------
  // the forms, for any table
  // ---------------------------------------------------------------------------

  /** A trimmed query that is not a known prefix bang is resolved by its suffix form. */
  lemma ResolveFormSuffix(bangs: map<string, string>, t: string, storage: Storage, access: Access)
    requires DefaultBang in bangs
    requires !ParsePrefix(t).NoSpace? && !(ParsePrefix(t).Prefixed? && Known(bangs, ParsePrefix(t).tag, access))
    ensures ResolveForm(bangs, t, storage, access) ==
      match ParseSuffix(t)
      case Some(Suffixed(term, tag)) =>
        if Known(bangs, tag, access) then SearchWith(bangs, tag, term, access) else BuildFallbackUrl(bangs, t, storage, access)
      case None => BuildFallbackUrl(bangs, t, storage, access)
  {
  }

  lemma UnknownPrefix(bangs: map<string, string>, t: string)
    requires StartsWith(t, "!") && ' ' in t ==> t[1..IndexOf(t, ' ')] !in bangs
    ensures ParsePrefix(t).Prefixed? ==> ParsePrefix(t).tag !in bangs
  {
  }

  lemma UnknownSuffix(bangs: map<string, string>, t: string)
    requires forall p: nat, k: nat :: IsSuffixMatch(t, p, k) ==> t[k..|t| - 1] !in bangs
    ensures ParseSuffix(t).Some? ==> ParseSuffix(t).value.tag !in bangs
  {
    if ParseSuffix(t).Some? {
      ParseSuffixIsMatch(t);
    }
  }

  /** A query whose prefix tag and suffix tag, where it has them, are not in the table goes to the default bang. */
  lemma ResolveFormFallsBack(bangs: map<string, string>, t: string, storage: Storage)
    requires DefaultBang in bangs
    requires ParsePrefix(t).Prefixed? ==> ParsePrefix(t).tag !in bangs
    requires ParseSuffix(t).Some? ==> ParseSuffix(t).value.tag !in bangs
    ensures ResolveForm(bangs, t, storage, OwnKeys) == BuildFallbackUrl(bangs, t, storage, OwnKeys)
  {
    if !ParsePrefix(t).NoSpace? {
      ResolveFormSuffix(bangs, t, storage, OwnKeys);
    }
  }

  /** `url` is some template of the table filled with some term. */
  ghost predicate FillsTable(url: string, bangs: map<string, string>) {
    exists tag, term :: tag in bangs && IsInstance(url, bangs[tag], term)
  }

  lemma SearchFillsTable(bangs: map<string, string>, tag: string, term: string)
    requires ValidTable(bangs) && tag in bangs
    ensures FillsTable(BuildSearchUrl(bangs[tag], term), bangs)
  {
    BuildSearchUrlIsInstance(bangs[tag], term);
  }

  lemma FallbackFillsTable(bangs: map<string, string>, term: string, storage: Storage, access: Access)
    requires ValidTable(bangs)
    ensures var r := BuildFallbackUrl(bangs, term, storage, access); r.Success? ==> FillsTable(r.value, bangs)
  {
    var b := GetDefaultBang(bangs, storage, access);
    if b in bangs {
      SearchFillsTable(bangs, b, term);
    }
  }

  lemma ResolveFormFillsTable(bangs: map<string, string>, t: string, storage: Storage, access: Access)
    requires ValidTable(bangs)
    ensures var r := ResolveForm(bangs, t, storage, access); r.Success? ==> FillsTable(r.value, bangs)
  {
    var prefix := ParsePrefix(t);
    if prefix.NoSpace? {
      FallbackFillsTable(bangs, t, storage, access);
    } else if prefix.Prefixed? && Known(bangs, prefix.tag, access) {
      if prefix.tag in bangs {
        SearchFillsTable(bangs, prefix.tag, prefix.term);
      }
    } else {
      ResolveFormSuffix(bangs, t, storage, access);
      match ParseSuffix(t)
      case Some(Suffixed(term, tag)) =>
        if Known(bangs, tag, access) {
          if tag in bangs {
            SearchFillsTable(bangs, tag, term);
          }
        } else {
          FallbackFillsTable(bangs, t, storage, access);
        }
      case None =>
        FallbackFillsTable(bangs, t, storage, access);
    }
  }

  lemma ResolveTrimmedFillsTable(bangs: map<string, string>, t: string, storage: Storage, access: Access)
    requires ValidTable(bangs)
    ensures var r := ResolveTrimmed(bangs, t, storage, access); r.Success? ==> FillsTable(r.value, bangs)
  {
    if Utf16Length(t) > MaxQueryUnits {
      match PrefixUnits(t, MaxQueryUnits)
      case None =>
      case Some(head) =>
        FallbackFillsTable(bangs, head, storage, access);
    } else {
      ResolveFormFillsTable(bangs, t, storage, access);
    }
  }

  /** Read by its own keys, the table never makes the resolution throw a TypeError; it throws exactly when the cut splits a pair. */
  lemma ResolveTrimmedThrows(bangs: map<string, string>, t: string, storage: Storage)
    requires DefaultBang in bangs
    ensures ResolveTrimmed(bangs, t, storage, OwnKeys).Failure? <==> SplitsPair(t, MaxQueryUnits)
  {
    PrefixUnitsNone(t, MaxQueryUnits);
  }

  // ---------------------------------------------------------------------------
  // what processBang does with each form of query
  // ---------------------------------------------------------------------------

  /**
    Every URL `processBang` returns is a template of the table with its
    placeholder replaced by a search term, encoded except for its slashes.
  */
  lemma ProcessBangFillsTemplate(query: string, storage: Storage)
    ensures var r := ProcessBang(query, storage); r.Success? ==> FillsTable(r.value, SearchBangs)
  {
    SearchBangsValid();
    ResolveTrimmedFillsTable(SearchBangs, Trim(query), storage, OwnKeys);
  }

  /** The URL is never empty, so the `if (url)` of its callers always passes. */
  lemma ProcessBangNonEmpty(query: string, storage: Storage)
    ensures ProcessBang(query, storage).Success? ==> ProcessBang(query, storage).value != ""
  {
    var r := ProcessBang(query, storage);
    if r.Success? {
      ProcessBangFillsTemplate(query, storage);
      var tag, term :| tag in SearchBangs && IsInstance(r.value, SearchBangs[tag], term);
      var i :| 0 < i <= |SearchBangs[tag]| && IsTemplateAt(SearchBangs[tag], i) && r.value == SearchBangs[tag][..i] + EncodeKeepSlash(term) + SearchBangs[tag][i + |Placeholder|..];
    }
  }

  /** White space around the query changes nothing. */
  lemma ProcessBangIgnoresPadding(a: string, query: string, b: string, storage: Storage)
    requires AllWhite(a) && AllWhite(b)
    ensures ProcessBang(a + query + b, storage) == ProcessBang(query, storage)
  {
    TrimIgnoresPadding(a, query, b);
  }

  /**
    A trimmed query over 2000 code units whose cut does not split a
    character: its first 2000 code units go to the default bang, whatever bang
    the query holds.
  */
  lemma ProcessBangCutsLongQuery(query: string, storage: Storage)
    requires Utf16Length(Trim(query)) > MaxQueryUnits && !SplitsPair(Trim(query), MaxQueryUnits)
    ensures exists head ::
      && head <= Trim(query) && Utf16Length(head) == MaxQueryUnits
      && ProcessBang(query, storage) == BuildFallbackUrl(SearchBangs, head, storage, OwnKeys)
  {
    var t := Trim(query);
    PrefixUnitsNone(t, MaxQueryUnits);
    PrefixUnitsLength(t, MaxQueryUnits);
    var head := PrefixUnits(t, MaxQueryUnits).value;
    assert ProcessBang(query, storage) == BuildFallbackUrl(SearchBangs, head, storage, OwnKeys);
  }

  /** The same for text of the Basic Multilingual Plane: its first 2000 characters go to the default bang. */
  lemma ProcessBangCutsLongBmpQuery(query: string, storage: Storage)
    requires |Trim(query)| > MaxQueryUnits && IsBmp(Trim(query))
    ensures ProcessBang(query, storage) == BuildFallbackUrl(SearchBangs, Trim(query)[..MaxQueryUnits], storage, OwnKeys)
  {
    Utf16LengthBmp(Trim(query));
    PrefixUnitsBmp(Trim(query), MaxQueryUnits);
  }

  /**
    `processBang` throws exactly when the cut at 2000 code units falls between
    the two code units of one character.
  */
  lemma ProcessBangThrows(query: string, storage: Storage)
    ensures ProcessBang(query, storage).Failure? <==> SplitsPair(Trim(query), MaxQueryUnits)
  {
    ResolveTrimmedThrows(SearchBangs, Trim(query), storage);
  }

  /** `!tag rest` with a tag of the table searches `rest`, trimmed, with that bang, whatever `rest` holds. */
  lemma ProcessBangPrefix(query: string, storage: Storage, tag: string, rest: string)
    requires Trim(query) == "!" + tag + " " + rest && ' ' !in tag && tag in SearchBangs
    requires Utf16Length(Trim(query)) <= MaxQueryUnits
    ensures ProcessBang(query, storage) == Success(BuildSearchUrl(SearchBangs[tag], Trim(rest)))
  {
    var t := Trim(query);
    SearchBangsValid();
    ParsePrefixOf(tag, rest);
    assert ResolveForm(SearchBangs, t, storage, OwnKeys) == SearchWith(SearchBangs, tag, Trim(rest), OwnKeys);
    assert ResolveTrimmed(SearchBangs, t, storage, OwnKeys) == ResolveForm(SearchBangs, t, storage, OwnKeys);
  }

  /**
    A query starting with `!` and holding no U+0020 space goes to the default
    bang whole, even when it has the suffix form with another white-space
    character.
  */
  lemma ProcessBangNoSpace(query: string, storage: Storage)
    requires StartsWith(Trim(query), "!") && ' ' !in Trim(query)
    requires Utf16Length(Trim(query)) <= MaxQueryUnits
    ensures ProcessBang(query, storage) == BuildFallbackUrl(SearchBangs, Trim(query), storage, OwnKeys)
  {
    var t := Trim(query);
    SearchBangsValid();
    assert ParsePrefix(t).NoSpace?;
    assert ResolveForm(SearchBangs, t, storage, OwnKeys) == BuildFallbackUrl(SearchBangs, t, storage, OwnKeys);
    assert ResolveTrimmed(SearchBangs, t, storage, OwnKeys) == ResolveForm(SearchBangs, t, storage, OwnKeys);
  }

  /**
    `text tag!` with a tag of the table searches `text`, trimmed, with that
    bang, unless the query is a prefix bang with a known tag.
  */
  lemma ProcessBangSuffix(query: string, storage: Storage, text: string, w: char, tag: string)
    requires Trim(query) == text + [w] + tag + "!"
    requires text != [] && forall i :: 0 <= i < |text| ==> !IsLineTerminator(text[i])
    requires IsWhite(w)
    requires tag != [] && forall i :: 0 <= i < |tag| ==> IsWordChar(tag[i])
    requires tag in SearchBangs
    requires StartsWith(Trim(query), "!") ==> ' ' in Trim(query) && Trim(query)[1..IndexOf(Trim(query), ' ')] !in SearchBangs
    requires Utf16Length(Trim(query)) <= MaxQueryUnits
    ensures ProcessBang(query, storage) == Success(BuildSearchUrl(SearchBangs[tag], Trim(text)))
  {
    var t := Trim(query);
    SearchBangsValid();
    ParseSuffixOf(text, w, tag);
    ResolveFormSuffix(SearchBangs, t, storage, OwnKeys);
    assert ResolveTrimmed(SearchBangs, t, storage, OwnKeys) == ResolveForm(SearchBangs, t, storage, OwnKeys);
  }

  /**
    A query that names no bang of the table, neither as the word between its
    leading `!` and first space nor as the regular expression's group 2, goes
    to the default bang whole.
  */
  lemma ProcessBangFallsBack(query: string, storage: Storage)
    requires var t := Trim(query); StartsWith(t, "!") && ' ' in t ==> t[1..IndexOf(t, ' ')] !in SearchBangs
    requires var t := Trim(query); forall p: nat, k: nat :: IsSuffixMatch(t, p, k) ==> t[k..|t| - 1] !in SearchBangs
    requires Utf16Length(Trim(query)) <= MaxQueryUnits
    ensures ProcessBang(query, storage) == BuildFallbackUrl(SearchBangs, Trim(query), storage, OwnKeys)
  {
    var t := Trim(query);
    SearchBangsValid();
    UnknownPrefix(SearchBangs, t);
    UnknownSuffix(SearchBangs, t);
    ResolveFormFallsBack(SearchBangs, t, storage);
    assert ResolveTrimmed(SearchBangs, t, storage, OwnKeys) == ResolveForm(SearchBangs, t, storage, OwnKeys);
  }

  // ---------------------------------------------------------------------------
  // the stored default
  // ---------------------------------------------------------------------------

  /** What `setItem("default-bang", value)` stores is what `getDefaultBang` reads back, when it names a bang. */
  lemma StoredChoiceIsDefault(bangs: map<string, string>, items: map<string, string>, value: string)
    requires DefaultBang in bangs
    ensures GetDefaultBang(bangs, Some(items[StorageKey := value]), OwnKeys) == if value != "" && value in bangs then value else DefaultBang
  {
  }

  // ---------------------------------------------------------------------------
  // the prototype chain
  // ---------------------------------------------------------------------------

  /**
    As written, `bangs[bangTag]` also finds the members every object
    inherits: `!constructor x` hands `buildSearchUrl` a function for a
    template, and `urlTemplate.replace` throws a TypeError.  Read by its own
    keys, the table never throws a TypeError (`ProcessBang`).
  */
  lemma InheritedTagThrows(bangs: map<string, string>, inherited: set<string>, query: string, storage: Storage, tag: string, rest: string)
    requires DefaultBang in bangs
    requires Trim(query) == "!" + tag + " " + rest && ' ' !in tag
    requires tag in inherited && tag !in bangs
    requires Utf16Length(Trim(query)) <= MaxQueryUnits
    ensures Resolve(bangs, query, storage, PrototypeChain(inherited)) == Failure(TypeError)
  {
    var t := Trim(query);
    var access := PrototypeChain(inherited);
    ParsePrefixOf(tag, rest);
    assert SearchWith(bangs, tag, Trim(rest), access) == Failure(TypeError);
    assert ResolveForm(bangs, t, storage, access) == Failure(TypeError);
    assert ResolveTrimmed(bangs, t, storage, access) == ResolveForm(bangs, t, storage, access);
  }

  /** A query without `!` has neither bang form. */
  lemma NoBangForm(t: string)
    requires '!' !in t
    ensures ParsePrefix(t).NotPrefixed? && ParseSuffix(t).None?
  {
    if t != [] {
      assert t[0] in t && t[|t| - 1] in t;
    }
  }

  /**
    As written, a stored default such as `toString` passes the
    `bangs[userDefault]` test, and every query that falls back then throws a
    TypeError.
  */
  lemma InheritedDefaultThrows(bangs: map<string, string>, inherited: set<string>, query: string, storage: Storage)
    requires DefaultBang in bangs
    requires StoredDefault(storage).Some? && StoredDefault(storage).value != ""
    requires StoredDefault(storage).value in inherited && StoredDefault(storage).value !in bangs
    requires '!' !in Trim(query) && Utf16Length(Trim(query)) <= MaxQueryUnits
    ensures Resolve(bangs, query, storage, PrototypeChain(inherited)) == Failure(TypeError)
  {
    var t := Trim(query);
    var access := PrototypeChain(inherited);
    NoBangForm(t);
    assert GetDefaultBang(bangs, storage, access) == StoredDefault(storage).value;
    assert BuildFallbackUrl(bangs, t, storage, access) == Failure(TypeError);
    assert ResolveForm(bangs, t, storage, access) == BuildFallbackUrl(bangs, t, storage, access);
    assert ResolveTrimmed(bangs, t, storage, access) == ResolveForm(bangs, t, storage, access);
  }

  /** Read by its own keys, the table ignores a stored default it does not hold, and `d` is used. */
  lemma UnknownDefaultIgnored(bangs: map<string, string>, storage: Storage)
    requires DefaultBang in bangs
    requires StoredDefault(storage).Some? && StoredDefault(storage).value !in bangs
    ensures GetDefaultBang(bangs, storage, OwnKeys) == DefaultBang
  {
  }

  // ---------------------------------------------------------------------------
  // shouldEnableCaching
  // ---------------------------------------------------------------------------

  /** `location.hostname` names this machine or a host on a home network. */
  predicate IsLocal(hostname: string) {
    hostname == "localhost" || hostname == "127.0.0.1" || StartsWith(hostname, "192.168.")
  }

  /**
    `shouldEnableCaching()`, given the page's `cache` query parameter and its
    host name: `force` and `disable` decide outright; otherwise the service
    worker caches everywhere except on a local host.
  */
  function ShouldEnableCaching(cacheParam: Option<string>, hostname: string): (enable: bool)
    ensures cacheParam == Some("force") ==> enable
    ensures cacheParam == Some("disable") ==> !enable
    ensures cacheParam != Some("force") && cacheParam != Some("disable") ==> (enable <==> !IsLocal(hostname))
  {
    if cacheParam == Some("force") then true
    else if cacheParam == Some("disable") then false
    else !IsLocal(hostname)
  }

  /** The host name only matters when the parameter does not decide. */
  lemma CachingOverrideIgnoresHost(cacheParam: Option<string>, host1: string, host2: string)
    requires cacheParam == Some("force") || cacheParam == Some("disable")
    ensures ShouldEnableCaching(cacheParam, host1) == ShouldEnableCaching(cacheParam, host2)
  {
  }
}
