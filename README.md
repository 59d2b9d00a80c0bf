# just-bangs-lite, modelled in Dafny

just-bangs-lite is a static web page that turns a search query into a
redirect. A query may carry a "bang" naming a search engine, either in
front (`!g cats`) or at the end (`cats g!`). The page looks the bang up in
a fixed table of URL templates and fills the template's `{{{s}}}`
placeholder with the encoded search term. A query without a known bang
goes to a default engine: DuckDuckGo Lite, unless the user saved another
default bang in the settings panel.

The repository holds two resolvers:

- `public_html/search.js` is the current one. It reads the table object,
  has a 2000-code-unit length guard, keeps `/` literal in the term, and
  falls back to the stored default bang.
- `public_html/script.js` is the older one. It reads an array of
  `{t, u}` records, returns `null` for `!tag` without a space, and always
  falls back to DuckDuckGo Lite.

Both resolvers are modelled as pure functions. The page code that changes
the browser's state is modelled imperatively:

- `performSearch`, `redirect` and `initialize` assign `location.hash` and
  `location.href`;
- `toggleDarkMode` edits the root element's `classList`;
- `toggleSettingsPanel` flips `aria-hidden`;
- `handleDefaultBangChange` and `showSaveMessage` write `localStorage` and
  show the save message.

Modules, one per file:

| file | module | what it holds |
|---|---|---|
| wrappers.dfy | Wrappers | `Option` and `Result` |
| jsstring.dfy | JsString | `trim`, `startsWith`, `indexOf`, UTF-16 `length`, `substring(0, n)`, global `replace` |
| uri.dfy | UriComponent | `encodeURIComponent` over UTF-8, its inverse, and the `%2F` fix-up |
| syntax.dfy | BangSyntax | the prefix form and the suffix regular expression `^(.+)\s+(\w+)!$` |
| bangs.dfy | Bangs | both bang tables, as literals |
| search.dfy | SearchJs | the search.js resolver and `shouldEnableCaching` |
| search_cases.dfy | SearchCases | concrete inputs from the repository's tests and the prototype-chain cases |
| test_inputs.dfy | TestInputs | the literal queries of the `processBang` tests and facts about their text |
| search_tests.dfy | SearchTests | the `processBang` tests, each for its exact query |
| script.dfy | ScriptJs | the script.js resolver |
| compare.dfy | ScriptAndSearch | where the two resolvers agree and where they differ |
| dom.dfy | Dom | `classList`, element attributes, `localStorage`, `location` as classes |
| search_page.dfy | SearchPage | the page functions of search.js |
| script_page.dfy | ScriptPage | the page functions of script.js |

Modelling choices:

- **Storage.** `window.localStorage` is `Option<map<string, string>>` in
  the resolver. It is `None` when the window has no storage. The page
  methods take a `LocalStorage?` object instead, and `null` plays the
  same part.
- **Query parameter.** `getQueryParam("q")` is an `Option<string>` input.
- **Strings.** A Dafny `string` is a sequence of Unicode scalar values.
  - `length` and `substring(0, 2000)` count UTF-16 code units. A character
    outside the Basic Multilingual Plane counts as two.
  - If `substring(0, 2000)` cuts such a character in half, it leaves a lone
    surrogate. `encodeURIComponent` then throws `URIError`. The model
    returns `Failure(URIError)` in exactly that case (`JsString.PrefixUnits`
    gives `None`).
- **Trimming.** `trim` and the regular expression's `\s` use the
  ECMAScript white space and line terminator set (`JsString.IsWhite`).
- **Regular expression.**
  - The suffix form is defined declaratively: `BangSyntax.IsSuffixMatch`
    says what a match is.
  - `BangSyntax.SuffixMatch` then picks the match a backtracking engine
    reports, the one whose greedy group 1 is longest.
  - Group 2 turns out to be the same for every match (`BangSyntax.SuffixMatch`).

## Model

| member | source | states |
|---|---|---|
| JsString.TrimStart | public_html/search.js:45 | the result is a suffix of the input, everything cut off is white space, and the result does not start with white space |
| JsString.TrimEnd | public_html/search.js:45 | the result is a prefix of the input, everything cut off is white space, and the result does not end with white space |
| JsString.Trim | public_html/search.js:45 | `trim()` never lengthens the string, and its result neither starts nor ends with white space |
| JsString.TrimOfPadded | public_html/search.js:45 | trimming `a + r + b`, where `a` and `b` are white and `r` is already trimmed, gives exactly `r` |
| JsString.TrimSplit | public_html/search.js:45 | every string is white space, then its trimmed form, then white space |
| JsString.TrimIgnoresPadding | public_html/search.js:45 | white space added around a string does not change its trimmed form |
| JsString.TrimFixedPoint | public_html/search.js:45 | `trim()` leaves a string unchanged exactly when it neither starts nor ends with white space |
| JsString.TrimIdempotent | public_html/search.js:58 | trimming twice, as line 58 does to part of an already trimmed query, is the same as trimming once |
| JsString.IndexOf | public_html/search.js:52 | `indexOf(c)` is -1 exactly when `c` is absent; otherwise it is the first position holding `c` |
| JsString.IndexOfAfter | public_html/search.js:52 | in `a + [c] + b` with `c` not in `a`, `indexOf(c)` is the length of `a` |
| JsString.CodeUnits | public_html/search.js:47 | a character takes one or two UTF-16 code units |
| JsString.Utf16Length | public_html/search.js:47 | `length` of a string lies between its number of characters and twice that |
| JsString.Utf16LengthAppend | public_html/search.js:47 | `length` adds up over concatenation |
| JsString.Utf16LengthBmp | public_html/search.js:47 | on text inside the Basic Multilingual Plane, `length` is the number of characters |
| JsString.PrefixUnits | public_html/search.js:48 | when `substring(0, n)` gives well-formed text, that text is a prefix of the input |
| JsString.PrefixUnitsLength | public_html/search.js:48 | a well-formed `substring(0, n)` has `min(n, length)` code units |
| JsString.PrefixUnitsSplit | public_html/search.js:48 | a cut that falls inside a surrogate pair gives no well-formed text |
| JsString.PrefixUnitsNone | public_html/search.js:48 | `substring(0, n)` leaves a lone surrogate exactly when the cut splits a pair, which can only happen when `n` is below `length` |
| JsString.PrefixUnitsBmp | public_html/search.js:48 | on text inside the Basic Multilingual Plane, `substring(0, n)` is the first `n` characters |
| JsString.ReplaceAll | public_html/search.js:29 | a global `replace` with no occurrence of the pattern leaves the text as it is |
| JsString.ReplaceAllSkips | public_html/search.js:29 | text before the first character of the pattern is kept and holds no match |
| JsString.ReplaceAllAtMatch | public_html/search.js:29 | an occurrence at the front is replaced, and the replacement continues after it |
| JsString.ReplaceSingle | public_html/search.js:29 | `pre + pattern + post` with the pattern's first character in neither side has one match, and replacing gives `pre + rep + post` |
| UriComponent.Utf8 | public_html/search.js:26 | a character's UTF-8 form is 1 to 4 bytes: a single byte exactly for ASCII, otherwise a lead byte of at least 0xC0 followed by continuation bytes |
| UriComponent.Utf8RoundTrip | public_html/search.js:26 | decoding a character's UTF-8 bytes gives the character back, and the lead byte tells the length |
| UriComponent.HexDigit | public_html/search.js:26 | escapes use upper-case hexadecimal digits |
| UriComponent.Triplet | public_html/search.js:26 | a byte is escaped as `%` and two characters that are not `%` |
| UriComponent.PercentBytes | public_html/search.js:26 | escaping bytes gives three characters per byte |
| UriComponent.EncodeChar | public_html/search.js:26 | one character is encoded using only unreserved characters, `%` and hexadecimal digits |
| UriComponent.Encode | public_html/search.js:26 | `encodeURIComponent` uses only that alphabet, and leaves text made of unreserved characters alone |
| UriComponent.EncodeAppend | public_html/search.js:26 | encoding works character by character: it distributes over concatenation |
| UriComponent.EncodedHasNoPatternChars | public_html/search.js:26-29 | encoded text holds no `$`, `{` or `/`, so it is never read as a replacement pattern and never forms a new placeholder |
| UriComponent.EncodeKeepSlash | public_html/search.js:26-28 | the search.js encoding uses only the encoded alphabet plus `/` |
| UriComponent.EncodedKeepSlashHasNoPatternChars | public_html/search.js:28-29 | the slash-keeping encoding holds no `$` and no `{` |
| UriComponent.EncodeKeepSlashWithoutSlash | public_html/search.js:26-28 | on a term without `/`, the slash-keeping encoding equals `encodeURIComponent` |
| UriComponent.EncodeKeepSlashKeepsSlash | public_html/search.js:27-28 | a term holding `/` still holds `/` after the slash-keeping encoding |
| UriComponent.EncodeKeepSlashPlain | public_html/search.js:27-28 | a term of unreserved characters and slashes is left unchanged |
| UriComponent.SpaceEncoded | public_html/search.js:26 | a space becomes `%20` |
| UriComponent.SpaceBetweenWords | public_html/search.js:26 | in two unreserved words joined by a space, only the space is escaped |
| UriComponent.EncodeKeepSlashAppend | public_html/search.js:26-28 | encoding with `/` kept also distributes over concatenation |
| UriComponent.SpacesBetweenWords | public_html/search.js:26-28 | in three unreserved words joined by spaces, only the two spaces are escaped |
| UriComponent.TripletIsSlash | public_html/search.js:28 | an escape reads `%2F` exactly for the byte of `/` |
| UriComponent.FixSlashesSkipsTriplet | public_html/search.js:28 | the `%2F` fix-up leaves the escape of any other byte in place |
| UriComponent.FixSlashesSkipsBytes | public_html/search.js:28 | the fix-up leaves escaped bytes other than `/` in place |
| UriComponent.FixSlashesChar | public_html/search.js:28 | the fix-up turns the encoding of `/` back into `/` and leaves other characters' encodings alone |
| UriComponent.FixSlashes | public_html/search.js:26-28 | turning every `%2F` back into `/` after `encodeURIComponent` gives the encoding that treats `/` as unreserved; `%` is always escaped, so no other text is touched |
| UriComponent.ReadByte | public_html/search.js:119 | `decodeURIComponent` reads a byte only from a `%` triplet |
| UriComponent.ReadBytes | public_html/search.js:119 | reading `n` escaped bytes consumes at least `3n` characters |
| UriComponent.ReadTriplet | public_html/search.js:119 | an escaped byte reads back as that byte |
| UriComponent.ReadPercentBytes | public_html/search.js:119 | a run of escaped bytes reads back as those bytes and leaves the rest |
| UriComponent.DecodeEscaped | public_html/search.js:119 | an escaped character decodes back before the rest is decoded |
| UriComponent.DecodeChar | public_html/search.js:119 | any encoded character decodes back before the rest is decoded |
| UriComponent.DecodeEncode | public_html/search.js:26 | `decodeURIComponent(encodeURIComponent(s))` is `s`, which also makes the encoding injective |
| UriComponent.DecodeEncodeKeepSlash | public_html/search.js:26-28 | the slash-keeping encoding decodes back to the term too |
| BangSyntax.WordRunStart | public_html/search.js:65 | finds the maximal run of `\w` characters that ends at a given position |
| BangSyntax.WhiteRunStart | public_html/search.js:65 | finds the maximal run of `\s` characters that ends at a given position |
| BangSyntax.LineTerminatorFrom | public_html/search.js:65 | finds the first line terminator from a given position, which `.` cannot cross |
| BangSyntax.MatchBounds | public_html/search.js:65 | every match has group 2 equal to the maximal word run before the final `!`, and group 1 ends within known bounds |
| BangSyntax.SuffixMatch | public_html/search.js:65 | `match` succeeds exactly when some match of `^(.+)\s+(\w+)!$` exists; it reports the match with the longest group 1, and every match has the same group 2 |
| BangSyntax.ParsePrefix | public_html/search.js:51-58 | it is not the prefix form exactly when the query does not start with `!`, and it has no space exactly when it holds no U+0020; otherwise the tag runs from after `!` to the first U+0020 and the term is the rest, trimmed |
| BangSyntax.ParsePrefixOf | public_html/search.js:51-58 | a query spelled `!tag rest`, with no U+0020 in the tag, reads as that tag and `trim(rest)` |
| BangSyntax.ParseSuffix | public_html/search.js:65-68 | there is no suffix form exactly when the regular expression does not match; otherwise the tag is a non-empty word run right before the final `!`, and the term is group 1 trimmed |
| BangSyntax.ParseSuffixIsMatch | public_html/search.js:65-68 | the suffix form comes from the match the engine reports, and its term is group 1 of that match, trimmed |
| BangSyntax.SuffixTermsAgree | public_html/search.js:65-68 | two matches that end group 1 at different places give the same trimmed term, because only white space lies between the two ends |
| BangSyntax.ParseSuffixTerm | public_html/search.js:65-68 | the term does not depend on which match is taken: every match's group 1, trimmed, is the term |
| BangSyntax.ParseSuffixOf | public_html/search.js:65-68 | `text w tag!`, with white space `w` and no line terminator in `text`, reads as `tag` with term `trim(text)` |
| Bangs.Spliced | public_html/search.js:4-22 | `pre {{{s}}} post` is a template when `pre` is not empty and neither side holds `{` |
| Bangs.SplicedEnd | public_html/search.js:4-22 | `pre {{{s}}}` is a template under the same condition |
| Bangs.SearchTagsShort | public_html/search.js:3-23 | every tag of the search.js table has at most four characters |
| Bangs.SearchHasDefault | public_html/search.js:1-23 | the default bang `d` is a tag of the table |
| Bangs.SearchHasGoogle | public_html/search.js:18 | `g` is a tag of the table |
| Bangs.SearchBangsAreTemplates | public_html/search.js:3-23 | every template of the table holds the placeholder `{{{s}}}` once, after a non-empty head, with no other `{` |
| Bangs.Find | public_html/script.js:92 | `bangs.find` gives nothing exactly when no record has the tag; otherwise it gives the first record that has it |
| Bangs.ScriptAgreesWithSearch | public_html/script.js:1-78 | each record of script.js has the template search.js gives its tag; only `lg` and `lgf` are missing from search.js, and script.js has no `ghr` or `wb` |
| Bangs.ScriptBangsAreTemplates | public_html/script.js:1-78 | every template of the script.js array holds the placeholder, as above |
| Bangs.ScriptTagsDistinct | public_html/script.js:1-78 | no two records of the array share a tag, so at most one record matches a lookup |
| SearchJs.SearchBangsValid | public_html/search.js:1-23 | the default bang is in the table and every entry is a template |
| SearchJs.BuildSearchUrlFills | public_html/search.js:25-30 | for a template `pre {{{s}}} post`, `buildSearchUrl` gives `pre`, then the term encoded with `/` kept, then `post` |
| SearchJs.BuildSearchUrlIsInstance | public_html/search.js:25-30 | every URL built from a template is an instance of that template for the term |
| SearchJs.BuildSearchUrlInjective | public_html/search.js:25-30 | one template never gives the same URL for two different terms |
| SearchJs.SearchWith | public_html/search.js:60-62 | a truthy `bangs[tag]` gives a URL exactly when the tag is an own key of the table; an inherited member makes `replace` throw a TypeError |
| SearchJs.GetDefaultBang | public_html/search.js:32-36 | the default bang is always found by `bangs[...]`; it is either `d` or the stored item; the stored item wins whenever it is non-empty and found |
| SearchJs.BuildFallbackUrl | public_html/search.js:38-42 | the fallback succeeds exactly when the default bang is an own key; otherwise, only with prototype lookup, it throws a TypeError |
| SearchJs.Resolve | public_html/search.js:44-76 | `processBang` throws a URIError only for a trimmed query over 2000 code units, and a TypeError only through prototype lookup |
| SearchJs.ResolveTrimmed | public_html/search.js:47-76 | the same, stated on the trimmed query |
| SearchJs.ResolveForm | public_html/search.js:51-75 | on a short query, the only failure is a TypeError through prototype lookup |
| SearchJs.ProcessBang | public_html/search.js:44-76 | on the table of search.js, read by its own keys, the only failure is the URIError of a long query |
| SearchJs.ResolveFormSuffix | public_html/search.js:64-75 | when the prefix form does not apply or its tag is unknown, the result is decided by the suffix form and then the fallback |
| SearchJs.UnknownPrefix | public_html/search.js:57-60 | a tag taken from between `!` and the first space that is not in the table is an unknown prefix tag |
| SearchJs.UnknownSuffix | public_html/search.js:67-70 | a tag that no match's group 2 finds in the table is an unknown suffix tag |
| SearchJs.ResolveFormFallsBack | public_html/search.js:75 | with neither form naming a known tag, the result is the fallback for the whole trimmed query |
| SearchJs.SearchFillsTable | public_html/search.js:60-62 | a URL built for a known tag fills one of the table's templates |
| SearchJs.FallbackFillsTable | public_html/search.js:38-42 | a fallback URL fills one of the table's templates |
| SearchJs.ResolveFormFillsTable | public_html/search.js:51-75 | every URL resolved from a form fills one of the table's templates |
| SearchJs.ResolveTrimmedFillsTable | public_html/search.js:47-75 | every URL resolved from a trimmed query does too |
| SearchJs.ResolveTrimmedThrows | public_html/search.js:47-48 | read by its own keys, resolution fails exactly when cutting at 2000 code units splits a surrogate pair |
| SearchJs.ProcessBangFillsTemplate | public_html/search.js:44-76 | every URL `processBang` returns is a table template with the placeholder replaced by an encoded term |
| SearchJs.ProcessBangNonEmpty | public_html/search.js:89 | the URL is never empty, so `if (url)` always passes |
| SearchJs.ProcessBangIgnoresPadding | public_html/search.js:45 | white space around the query does not change the result |
| SearchJs.ProcessBangCutsLongQuery | public_html/search.js:47-49 | a trimmed query over 2000 code units whose cut does not split a surrogate pair goes to the default engine with a prefix of exactly 2000 code units, whatever bang it holds |
| SearchJs.ProcessBangCutsLongBmpQuery | public_html/search.js:47-49 | the same for text inside the Basic Multilingual Plane, where the prefix is the first 2000 characters |
| SearchJs.ProcessBangThrows | public_html/search.js:47-48 | `processBang` throws exactly when the 2000-unit cut splits a surrogate pair |
| SearchJs.ProcessBangPrefix | public_html/search.js:51-63 | `!tag rest` with a known tag, no U+0020 in the tag, and a short query gives `buildSearchUrl(bangs[tag], trim(rest))`, even when `rest` ends in a suffix bang |
| SearchJs.ProcessBangNoSpace | public_html/search.js:52-55 | a short query that starts with `!` and holds no U+0020 goes to the default engine whole, `!` included |
| SearchJs.ProcessBangSuffix | public_html/search.js:65-73 | `text w tag!` with a known tag, when the prefix form does not name a known tag, gives `buildSearchUrl(bangs[tag], trim(text))` |
| SearchJs.ProcessBangFallsBack | public_html/search.js:60-75 | when neither form names a known tag, the default engine gets the whole trimmed query |
| SearchJs.StoredChoiceIsDefault | public_html/search.js:257 | after `default-bang` is set to a value, the default bang is that value if it is a non-empty tag, and `d` otherwise |
| SearchJs.InheritedTagThrows | public_html/search.js:57-62 | as written, `!constructor rest` and other inherited names make `processBang` throw a TypeError |
| SearchJs.NoBangForm | public_html/search.js:51-65 | a query without `!` has neither bang form |
| SearchJs.InheritedDefaultThrows | public_html/search.js:35-41 | as written, a stored default such as `toString` makes every falling-back query throw a TypeError |
| SearchJs.UnknownDefaultIgnored | public_html/search.js:35 | read by its own keys, a stored default that is not a tag is ignored and `d` is used |
| SearchJs.ShouldEnableCaching | public_html/search.js:190-205 | `cache=force` enables caching and `cache=disable` disables it; otherwise caching is on exactly when the host is not `localhost`, not `127.0.0.1` and does not start with `192.168.` |
| SearchJs.CachingOverrideIgnoresHost | public_html/search.js:194-195 | with an override, the host makes no difference |
| SearchCases.GetDefaultBangCases | public_html/search.js:32-36 | for any table holding `d` and `g` but not `invalid`, the four test cases hold: no storage or no item gives `d`, stored `g` gives `g`, stored `invalid` gives `d` |
| SearchCases.GetDefaultBangExamples | public_html/search.js:32-36 | the same four cases on the table of search.js |
| SearchCases.SearchLacksInherited | public_html/search.js:3-23 | the table holds neither `constructor` nor `toString` as its own key |
| SearchCases.ConstructorInherited | public_html/search.js:60 | `constructor` is an inherited name without a space |
| SearchCases.ConstructorTagThrows | public_html/search.js:57-62 | as written, every short query trimming to `!constructor rest` throws a TypeError; read by own keys, it succeeds |
| SearchCases.ToStringInherited | public_html/search.js:34-35 | a stored `toString` is the stored default and an inherited name |
| SearchCases.ToStringDefaultThrows | public_html/search.js:34-41 | as written, with `toString` stored, every short query without `!` throws; read by own keys, `d` is used |
| SearchCases.HelloWorldEncoded | public_html/search.js:26-28 | `hello world` is encoded as `hello%20world` |
| SearchCases.PathKept | public_html/search.js:26-28 | `path/to/resource` keeps its slashes |
| SearchCases.DefaultRecord | public_html/search.js:6 | the `d` template is DuckDuckGo Lite with the placeholder between `?q=` and `&kl=us-en` |
| SearchCases.EmptyTermOnDefault | public_html/search.js:6 | the empty term on the `d` template gives `https://lite.duckduckgo.com/lite?q=&kl=us-en` |
| SearchCases.EmptyQueryFallsBack | public_html/search.js:75 | a query that trims to nothing is searched, as the empty term, with the default bang |
| SearchCases.EmptyQuery | public_html/search.js:44-76 | the empty query gives `https://lite.duckduckgo.com/lite?q=&kl=us-en`, never null |
| SearchCases.CachingExamples | public_html/search.js:190-205 | local hosts do not cache, `example.com` does, and `force` overrides a local host |
| TestInputs.Repeated | tests/search.spec.js:114 | `"a".repeat(n)` has `n` characters, each `a` |
| TestInputs.UnknownTag | tests/search.spec.js:102 | the prefix tag of `!unknown search term` is longer than every tag of the table |
| TestInputs.TutorialEncoded | tests/search.spec.js:76-79 | `javascript tutorial` encodes as `javascript%20tutorial` |
| TestInputs.UnknownEncoded | tests/search.spec.js:102-105 | `!unknown search term` encodes as `!unknown%20search%20term` |
| SearchTests.TermWithin | public_html/search.js:25-30 | a template `pre {{{s}}} post` gives `pre`, the term encoded with `/` kept, and `post` |
| SearchTests.TermOnDefault | public_html/search.js:38-42 | with no storage, the fallback fills the `d` template with the term |
| SearchTests.PrefixOfTrimmed | public_html/search.js:51-63 | a trimmed, short `!tag rest` with a tag of the table searches `rest` with that tag |
| SearchTests.GooglePrefixQuery | tests/search.spec.js:75-80 | `!g javascript tutorial` gives `https://www.google.com/search?q=javascript%20tutorial`, whatever the storage |
| SearchTests.UnknownBangQuery | tests/search.spec.js:101-106 | `!unknown search term` with no storage gives `https://lite.duckduckgo.com/lite?q=!unknown%20search%20term&kl=us-en` |
| SearchTests.BangWithoutTerm | tests/search.spec.js:108-111 | `!gh` with no storage gives `https://lite.duckduckgo.com/lite?q=!gh&kl=us-en` |
| SearchTests.LongQueryCut | tests/search.spec.js:113-121 | `"a".repeat(2500)` with no storage gives the DuckDuckGo Lite URL of `encodeURIComponent("a".repeat(2000))` |
| ScriptJs.FillTemplateFills | public_html/script.js:94 | for `pre {{{s}}} post`, the record's URL is `pre`, then `encodeURIComponent(term)`, then `post` |
| ScriptJs.FillTemplateInjective | public_html/script.js:94 | one template never gives the same URL for two different terms |
| ScriptJs.FillTemplateNonEmpty | public_html/script.js:94 | a filled template is never empty |
| ScriptJs.SearchRecord | public_html/script.js:92-95 | a URL is found exactly when some record has the tag |
| ScriptJs.ResolveForm | public_html/script.js:83-107 | the result is `null` exactly when the trimmed query starts with `!` and holds no U+0020 |
| ScriptJs.ProcessBang | public_html/script.js:80-108 | the same, on `trim(query)` |
| ScriptJs.FindDistinct | public_html/script.js:92 | with distinct tags, looking up a record's tag finds that record |
| ScriptJs.ScriptFind | public_html/script.js:92 | looking up any tag of the array finds its own record |
| ScriptJs.ResolvePrefix | public_html/script.js:89-95 | `!tag rest` with a found record gives its template filled with `trim(rest)` |
| ScriptJs.ResolveFormSuffix | public_html/script.js:97-107 | when the prefix form does not apply or finds no record, the suffix form decides, then the fixed fallback |
| ScriptJs.ResolveSuffix | public_html/script.js:97-105 | `text w tag!` with a found record gives its template filled with `trim(text)` |
| ScriptJs.ResolveFallsBack | public_html/script.js:107 | with neither form finding a record, the result is the DuckDuckGo Lite URL of the whole trimmed query |
| ScriptJs.FoundFillsRecord | public_html/script.js:92-95 | a found URL fills some record's template |
| ScriptJs.FallbackRecord | public_html/script.js:10-13 | the `d` record is the DuckDuckGo Lite template |
| ScriptJs.FallbackTemplate | public_html/script.js:107 | the fixed fallback URL is that template split at its placeholder |
| ScriptJs.FallbackIsDefaultRecord | public_html/script.js:107 | the fixed fallback equals the `d` record filled with the trimmed query |
| ScriptJs.ResolveFormFillsRecord | public_html/script.js:83-107 | every URL resolved from a form fills some record's template |
| ScriptJs.ProcessBangFillsRecord | public_html/script.js:80-108 | every URL `processBang` returns is some record's template filled with an encoded term |
| ScriptJs.ProcessBangNonEmpty | public_html/script.js:125 | a returned URL is never empty |
| ScriptJs.ProcessBangIgnoresPadding | public_html/script.js:81 | the result depends only on the trimmed query |
| ScriptJs.ProcessBangPrefix | public_html/script.js:89-95 | `!tag rest` for a tag of the array gives its template filled with `encodeURIComponent(trim(rest))`, slashes escaped |
| ScriptJs.ProcessBangSuffix | public_html/script.js:97-105 | `text w tag!` for a tag of the array, when the prefix form finds no record, gives its template filled with `encodeURIComponent(trim(text))` |
| ScriptJs.ProcessBangFallsBack | public_html/script.js:107 | every other query, with no length limit and no stored default, gives the DuckDuckGo Lite URL of the trimmed query |
| ScriptAndSearch.SameUrlWithoutSlash | public_html/search.js:25-30 | for a term without `/`, both files fill a template identically |
| ScriptAndSearch.SlashEncodedDifferently | public_html/search.js:26-28 | for a term with `/`, the two URLs differ: script.js sends `%2F` where search.js sends `/` |
| ScriptAndSearch.SharedTemplate | public_html/script.js:1-78 | a tag present in both tables has the same template in both |
| ScriptAndSearch.PrefixAgrees | public_html/script.js:89-95 | for `!tag rest` with a shared tag and no `/` in the term, both resolvers give the same URL |
| ScriptAndSearch.NoSpaceDiffers | public_html/script.js:85-87 | for `!tag` without a space, script.js gives `null` and search.js gives the default engine's URL |
| Dom.Added | public_html/search.js:131 | `classList.add` gives exactly the old names plus the new one, and keeps names distinct |
| Dom.Without | public_html/search.js:130 | `classList.remove` gives exactly the old names except the removed one, and keeps names distinct |
| Dom.WithoutAbsent | public_html/search.js:130 | removing an absent name changes nothing |
| Dom.WithoutAppend | public_html/search.js:268-269 | removal works name by name through an added last name |
| Dom.AddedThenWithout | public_html/search.js:266-269 | adding a name and removing it again is the same as only removing it |
| Dom.ClassList.Contains | public_html/search.js:127 | `contains` reports whether the name is present |
| Dom.ClassList.Add | public_html/search.js:131 | the list becomes `Added` of the old list, still distinct |
| Dom.ClassList.Remove | public_html/search.js:130 | the list becomes `Without` of the old list, still distinct |
| Dom.Element.GetAttribute | public_html/search.js:217 | `getAttribute` gives the value when the attribute is set, and `null` otherwise |
| Dom.Element.SetAttribute | public_html/search.js:218 | only the named attribute changes |
| Dom.LocalStorage.SetItem | public_html/search.js:257 | only the item under the key changes |
| SearchPage.StorageOf | public_html/search.js:33 | the storage `getDefaultBang` sees is absent exactly when there is no storage object, and otherwise holds its items |
| SearchPage.Redirect | public_html/search.js:83-85 | only `href` changes, to the URL |
| SearchPage.Follow | public_html/search.js:89-92 | a URL sets the fragment to `#q=` plus the encoded query and navigates to it; an exception is passed on and nothing changes |
| SearchPage.PerformSearch | public_html/search.js:87-93 | the location ends at the URL `processBang` gives for the query and the stored default, with the query in the fragment; a thrown URIError leaves the location as it was |
| SearchPage.Initialize | public_html/search.js:136-151 | a present `q`, even an empty one, redirects to its URL and does not wait for the page; only a missing `q` waits for `DOMContentLoaded`; the fragment is never touched |
| SearchPage.ToggleDarkMode | public_html/search.js:124-134 | the class list becomes `Toggled` of the old list, still distinct |
| SearchPage.ToggledFlipsTheme | public_html/search.js:127-133 | after a toggle, `dark-mode` is present exactly when it was absent, and `light-mode` exactly when `dark-mode` was present, so exactly one theme class is set |
| SearchPage.ToggledKeepsOthers | public_html/search.js:127-133 | every other class is kept or left out as before |
| SearchPage.ToggleTwice | public_html/search.js:124-134 | with one theme class set, two toggles give back the same set of classes |
| SearchPage.NextAriaHidden | public_html/search.js:217-218 | the new `aria-hidden` value is `"false"` exactly after `"true"`, and `"true"` after anything else or no value |
| SearchPage.AriaHiddenTwice | public_html/search.js:217-218 | from `"true"` or `"false"`, two toggles restore the value |
| SearchPage.ToggleSettingsPanel | public_html/search.js:213-219 | without a panel nothing happens; otherwise only `aria-hidden` changes, to `NextAriaHidden` of its old value |
| SearchPage.ShowSaveMessage | public_html/search.js:263-271 | the message, if there is one, gets the `visible` class and nothing else changes |
| SearchPage.HideSaveMessage | public_html/search.js:267-269 | the timer callback removes `visible` and nothing else |
| SearchPage.ShowThenHide | public_html/search.js:263-271 | a hidden message has exactly its old classes again once the callback has run |
| SearchPage.HandleDefaultBangChange | public_html/search.js:253-261 | a `default-bang` change with storage stores the value, shows the message, and makes the value the default bang exactly when it is a tag; any other change, or no storage, changes nothing |
| ScriptPage.Redirect | public_html/script.js:115-117 | only `href` changes, to the URL |
| ScriptPage.PerformSearch | public_html/script.js:122-129 | for a URL, the fragment gets `#q=` plus the encoded query and the page navigates to the URL; for `null` the location stays as it is |
| ScriptPage.Initialize | public_html/script.js:151-161 | only a present, non-empty `q` is resolved and followed; a missing or empty `q` waits for `DOMContentLoaded`; the fragment is never touched |

## Left out

- DOM wiring is not modelled: `setupUI`'s event listeners, `setupSettingsEventListeners`, `initializeSettings` and element lookup. Each method takes the element it would look up, or `null` when the lookup fails.
- `initializeDarkModeToggle` is not modelled. It queries `matchMedia`, an outside input.
- `buildSettingsPanel` is not modelled. It produces HTML text for display only.
- `setupUI`'s restoring of the search box from the fragment is not modelled. Only `decodeURIComponent` itself is (`UriComponent.Decode`).
- `getQueryParam` and the fragment's parsing by `URLSearchParams` are not modelled. This is form-urlencoded parsing; `q` is an `Option<string>` input.
- The service worker is not modelled: `registerServiceWorker`, `isServiceWorkerSupported`, `initializePWA`, public_html/service-worker.js and public_html/service-worker-lib.js. They are asynchronous Cache Storage and registration I/O.
- Timing is not modelled. The two-second `setTimeout` of `showSaveMessage` is stated as the callback `SearchPage.HideSaveMessage` together with the lemma `SearchPage.ShowThenHide`.
- In the page methods, an exception thrown by `processBang` is stated as an out-parameter `thrown`, not as JavaScript exception propagation.
- JsString.ReplaceAll: the replacement's `$` patterns are not modelled. The function requires a replacement without `$`, and every encoded term is proved to hold none.
- UriComponent.Encode: strings are sequences of scalar values, so the lone surrogates on which `encodeURIComponent` throws arise only from `substring`. That case is modelled.
- The prototype-chain cases are stated for every query of a family (every query trimming to `!constructor rest`, every query without `!`), not for one literal query.
- The tests' examples `!g foo w!` and `machine learning w!` are covered by `SearchJs.ProcessBangPrefix` and `SearchJs.ProcessBangSuffix` for all queries of those shapes, not as literal cases.

## Findings

| source | as written | input that shows it | evidently intended | confidence | as-written member | corrected member |
|---|---|---|---|---|---|---|
| public_html/search.js:60-62 | `bangs[bangTag]` is looked up on an object literal, so inherited members such as `constructor` count as bangs, and `urlTemplate.replace` then throws a TypeError | the query `!constructor x` | only the table's own keys are bangs; `!constructor x` falls through and goes to the default engine | not executed | SearchCases.ConstructorTagThrows | SearchJs.ProcessBang |
| public_html/search.js:35 | `bangs[userDefault]` accepts an inherited name as the stored default, and every query that falls back then throws a TypeError | `default-bang` stored as `toString`, then the query `hello` | a stored default that is not a tag is ignored and `d` is used | not executed | SearchCases.ToStringDefaultThrows | SearchJs.UnknownDefaultIgnored |

The as-written behaviour is `SearchJs.Resolve` with `PrototypeChain(InheritedNames)`. The general lemmas are `SearchJs.InheritedTagThrows` and `SearchJs.InheritedDefaultThrows`. The rest of the model, including the page methods, reads the table by its own keys, which is `SearchJs.ProcessBang`.

Two further points about long queries:

- **Long queries.** A trimmed query over 2000 code units is cut, and its head goes to the default engine without bang detection (public_html/search.js:47-49; tests/search.spec.js:113-121). `SearchJs.ProcessBangCutsLongQuery` states this.
- **Lone surrogates.** The cut counts UTF-16 code units and can split a surrogate pair. `encodeURIComponent` then throws. This is the one case where `SearchJs.ProcessBang` fails, and `SearchJs.ProcessBangThrows` states it.
