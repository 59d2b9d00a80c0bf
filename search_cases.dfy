/**
  Concrete cases: those the repository's tests check for `buildSearchUrl`,
  `getDefaultBang`, the empty query and `shouldEnableCaching`, and the two
  kinds of input that make search.js throw a TypeError through the
  prototype chain.
*/
module SearchCases {
  import opened Wrappers
  import opened JsString
  import opened UriComponent
  import opened Bangs
  import opened SearchJs
  import ScriptJs

  /** No storage, no stored item, a stored `g` and a stored `invalid`. */
  lemma GetDefaultBangCases(bangs: map<string, string>)
    requires DefaultBang in bangs && "g" in bangs && "invalid" !in bangs
    ensures GetDefaultBang(bangs, None, OwnKeys) == "d"
    ensures GetDefaultBang(bangs, Some(map[]), OwnKeys) == "d"
    ensures GetDefaultBang(bangs, Some(map[StorageKey := "g"]), OwnKeys) == "g"
    ensures GetDefaultBang(bangs, Some(map[StorageKey := "invalid"]), OwnKeys) == "d"
  {
  }

  lemma GetDefaultBangExamples()
    ensures GetDefaultBang(SearchBangs, None, OwnKeys) == "d"
    ensures GetDefaultBang(SearchBangs, Some(map[]), OwnKeys) == "d"
    ensures GetDefaultBang(SearchBangs, Some(map[StorageKey := "g"]), OwnKeys) == "g"
    ensures GetDefaultBang(SearchBangs, Some(map[StorageKey := "invalid"]), OwnKeys) == "d"
  {
    SearchBangsValid();
    SearchHasGoogle();
    SearchTagsShort();
    GetDefaultBangCases(SearchBangs);
  }

  // ---------------------------------------------------------------------------
  // the prototype chain
  // ---------------------------------------------------------------------------

  /** The table of search.js holds neither `constructor` nor `toString` as a key of its own. */
  lemma SearchLacksInherited()
    ensures DefaultBang in SearchBangs
    ensures "constructor" !in SearchBangs && "toString" !in SearchBangs
  {
    SearchHasDefault();
    SearchTagsShort();
    assert |"constructor"| > 4 && |"toString"| > 4;
  }

  lemma ConstructorInherited()
    ensures ' ' !in "constructor" && "constructor" in InheritedNames
  {
  }

  /**
    On the table of search.js, every query that trims to `!constructor rest`
    (`!constructor x`, say) throws a TypeError as written; read by own keys
    it is resolved.
  */
  lemma ConstructorTagThrows(query: string, rest: string, storage: Storage)
    requires Trim(query) == "!" + "constructor" + " " + rest
    requires Utf16Length(Trim(query)) <= MaxQueryUnits
    ensures Resolve(SearchBangs, query, storage, PrototypeChain(InheritedNames)) == Failure(TypeError)
    ensures ProcessBang(query, storage).Success?
  {
    SearchLacksInherited();
    ConstructorInherited();
    InheritedTagThrows(SearchBangs, InheritedNames, query, storage, "constructor", rest);
  }

  lemma ToStringInherited(storage: Storage)
    requires storage == Some(map[StorageKey := "toString"])
    ensures StoredDefault(storage) == Some("toString") && "toString" in InheritedNames
  {
  }

  /**
    On the table of search.js, with `toString` stored as the default bang,
    every query without `!` (`hello`, say) throws a TypeError as written;
    read by own keys, `d` is used instead.
  */
  lemma ToStringDefaultThrows(query: string)
    requires '!' !in Trim(query) && Utf16Length(Trim(query)) <= MaxQueryUnits
    ensures Resolve(SearchBangs, query, Some(map[StorageKey := "toString"]), PrototypeChain(InheritedNames)) == Failure(TypeError)
    ensures GetDefaultBang(SearchBangs, Some(map[StorageKey := "toString"]), OwnKeys) == DefaultBang
  {
    var storage := Some(map[StorageKey := "toString"]);
    SearchLacksInherited();
    ToStringInherited(storage);
    InheritedDefaultThrows(SearchBangs, InheritedNames, query, storage);
    UnknownDefaultIgnored(SearchBangs, storage);
  }

  // ---------------------------------------------------------------------------
  // buildSearchUrl and the empty query
  // ---------------------------------------------------------------------------

  lemma WordsUnreserved()
    ensures forall i :: 0 <= i < |"hello"| ==> IsUnreserved("hello"[i])
    ensures forall i :: 0 <= i < |"world"| ==> IsUnreserved("world"[i])
  {
  }

  /** The space of `hello world` is escaped. */
  lemma HelloWorldEncoded()
    ensures EncodeKeepSlash("hello world") == "hello%20world"
  {
    WordsUnreserved();
    SpaceBetweenWords("hello", "world");
    assert "hello" + " " + "world" == "hello world";
    assert "hello" + "%20" + "world" == "hello%20world";
  }

  lemma PathPlain()
    ensures forall i :: 0 <= i < |"path/to/resource"| ==> IsUnreserved("path/to/resource"[i]) || "path/to/resource"[i] == '/'
  {
  }

  /** The slashes of `path/to/resource` stay as they are. */
  lemma PathKept()
    ensures EncodeKeepSlash("path/to/resource") == "path/to/resource"
  {
    PathPlain();
    EncodeKeepSlashPlain("path/to/resource");
  }

  /** The `d` template of search.js is the DuckDuckGo Lite template of script.js. */
  lemma DefaultRecord()
    ensures SearchBangs[DefaultBang] == ScriptJs.FallbackHead + Placeholder + ScriptJs.FallbackTail
  {
  }

  lemma EmptyTermOnDefault()
    ensures BuildSearchUrl(SearchBangs[DefaultBang], "") == "https://lite.duckduckgo.com/lite?q=&kl=us-en"
  {
    DefaultRecord();
    var u := SearchBangs[DefaultBang];
    ScriptJs.FallbackTemplate(u);
    BuildSearchUrlFills(u, |ScriptJs.FallbackHead|, "");
    assert EncodeKeepSlash("") == "";
  }

  /** A query that trims to nothing is searched, as the empty term, with the default bang. */
  lemma EmptyQueryFallsBack(query: string, storage: Storage)
    requires Trim(query) == ""
    ensures ProcessBang(query, storage) == BuildFallbackUrl(SearchBangs, "", storage, OwnKeys)
  {
    NoBangForm(Trim(query));
    assert Utf16Length(Trim(query)) == 0;
    SearchHasDefault();
    ResolveFormFallsBack(SearchBangs, Trim(query), storage);
  }

  /** The empty query is a DuckDuckGo Lite search for nothing, never `null`. */
  lemma EmptyQuery()
    ensures ProcessBang("", None) == Success("https://lite.duckduckgo.com/lite?q=&kl=us-en")
  {
    assert Trim("") == "";
    EmptyQueryFallsBack("", None);
    SearchHasDefault();
    assert GetDefaultBang(SearchBangs, None, OwnKeys) == DefaultBang;
    EmptyTermOnDefault();
  }

  // ---------------------------------------------------------------------------
  // shouldEnableCaching
  // ---------------------------------------------------------------------------

  /** Without an override, `localhost`, `127.0.0.1` and `192.168.1.5` do not cache; `example.com` does. */
  lemma CachingExamples()
    ensures !ShouldEnableCaching(None, "localhost")
    ensures !ShouldEnableCaching(None, "127.0.0.1")
    ensures !ShouldEnableCaching(Some(""), "192.168.1.5")
    ensures ShouldEnableCaching(None, "example.com")
    ensures ShouldEnableCaching(Some("force"), "localhost")
  {
    assert StartsWith("192.168.1.5", "192.168.");
    assert "example.com"[0] != "192.168."[0];
  }
}
