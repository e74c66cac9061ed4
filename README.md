# OpenAPI client core, modelled in Dafny

This project models the API layer of a mobile wallpaper-browsing app (an Expo project) and the two scripts that generate its client from the backend's OpenAPI document.

- **The HTTP client** (`src/api/httpClient.ts`) covers:
  - `buildPath`, which fills `{name}` placeholders with `encodeURIComponent` of their values and throws for a missing one;
  - `buildQueryString`, which appends the non-null query values and array items to a `URLSearchParams` buffer and serializes it;
  - `mergeHeaders`, which sets the present extra headers over the base headers, matching names case-insensitively;
  - from `apiRequest`:
    - the base URL with its trailing slashes removed, then path, then query string;
    - the `Content-Type: application/json` default for bodies serialized as JSON;
    - the response classification (error, `204`, JSON or `undefined`).
- **The module generator** (`scripts/generate-openapi-modules.js`) covers:
  - `toIdentifier`, `tagToFileName` and `buildFunctionName` with its deduplicating loop;
  - `generateControllerFileContent`;
  - the loop of `main` that keeps supported methods, groups operations by first tag in order of first appearance, sorts each group by path and then method, and writes one file per tag.
- **The runner** (`scripts/run-openapi.js`) covers:
  - `loadEnvFile`, which parses `KEY=VALUE` lines into `process.env` without overwriting a set variable;
  - the order `.env.development` then `.env`;
  - the missing-variable exit;
  - the derived `/openapi.json` URL.

Modules:

- `Wrappers`: `Option` and `Result`.
- `Text`:
  - ASCII character classes and case mapping;
  - the JavaScript `trim` whitespace set;
  - `indexOf`, `split` and `join`;
  - decimal numerals;
  - the `/\/+$/` trim.
- `UrlEncoding`:
  - UTF-8;
  - `encodeURIComponent`;
  - the `application/x-www-form-urlencoded` serializer of `URLSearchParams`;
  - the matching decoders and parser, each the partner of an encoder.
- `HttpClient`: `httpClient.ts`.
  - `SearchParams` and `Headers` are classes whose methods update their fields.
  - `BuildQueryString` and `MergeHeaders` are loops over them, each proved against a specification function.
- `OpenApiNames`: `toIdentifier` and `tagToFileName`.
- `OpenApiGenerator`: the rest of the generator.
  - `NameSet` is the `usedNames` set.
  - `TagMap` is the `Map` of `main`.
  - `BuildFunctionName`, `GenerateControllerFileContent`, `GroupByTag` and `EmitControllers` are the loops of the script.
- `EnvLoader`: `run-openapi.js`.
  - `Environment` is `process.env`.
  - `LoadEnvFile` is the line loop.

Where the code and a plain reading of the script disagree, the model follows the code. `loadEnvFile` tests `!process.env[key]`, so an empty value counts as unset. Within one file, the first *non-empty* assignment of a key wins, not simply the first one: a later non-empty value replaces an earlier empty one (`EnvLoader.FirstNonEmptyWins`).

## Model

Paths are relative to the repository root.

| member | source | states |
|---|---|---|
| HttpClient.Scan | src/api/httpClient.ts:195 | Every placeholder the regex `/{([^}]+)}/g` finds has a non-empty name without `}`. |
| HttpClient.ScanRender | src/api/httpClient.ts:195 | Reading the template as literal characters and placeholders loses nothing: writing the pieces back gives the template. |
| HttpClient.EmptyBracesStay | src/api/httpClient.ts:195 | `{}` is not a placeholder: both braces stay literal. |
| HttpClient.BuildPath | src/api/httpClient.ts:189-193 | Without a path-parameter object the template comes back unchanged. |
| HttpClient.FillOutcome | src/api/httpClient.ts:195-201 | Filling succeeds exactly when every placeholder's value is neither undefined nor null, and then gives each placeholder's value encoded in template order. Otherwise the error names the first placeholder, in template order, whose value is missing. |
| HttpClient.BuildPathSucceeds | src/api/httpClient.ts:193-201 | `buildPath` throws exactly when some placeholder of the template has no usable value. |
| HttpClient.BuildPathIgnoresExtraParams | src/api/httpClient.ts:195-196 | Parameters no placeholder names do not change the result. |
| HttpClient.FillIgnoresExtraParams | src/api/httpClient.ts:195-196 | Filling reads a parameter only through a placeholder that names it. |
| HttpClient.ScanWithoutCloseBrace | src/api/httpClient.ts:195 | Text without `}` holds no placeholder. |
| HttpClient.ScanAfterPlainText | src/api/httpClient.ts:195 | Text without `{` is all literals, whatever follows it. |
| HttpClient.FilledPathHasNoPlaceholder | src/api/httpClient.ts:195-201 | A filled path contains no placeholder: encoded values bring no braces. |
| HttpClient.BuildPathComplete | src/api/httpClient.ts:189-202 | Building the path again from a filled path, with any parameters, changes nothing. |
| HttpClient.FilledStartsWithCloseBrace | src/api/httpClient.ts:195 | A template that starts with `}` fills to a text that starts with `}`. |
| HttpClient.EntryPairs | src/api/httpClient.ts:215-228 | Every pair one query entry yields carries that entry's key. |
| HttpClient.BuildQueryString | src/api/httpClient.ts:208-233 | The loop over the entries, which appends to the `URLSearchParams` buffer, returns the query string of the entries' pairs. |
| HttpClient.AppendItems | src/api/httpClient.ts:220-225 | The array `forEach` appends exactly the non-null items, in order, under the entry's key. |
| HttpClient.PresentTextsSnoc | src/api/httpClient.ts:221-224 | An array item adds its text exactly when it is neither undefined nor null. |
| HttpClient.QueryPairsSnoc | src/api/httpClient.ts:215-229 | One more entry appends exactly that entry's pairs. |
| HttpClient.PresentTextsMember | src/api/httpClient.ts:221-224 | A text is among an array's texts exactly when a present item of the array carries it. |
| HttpClient.QueryPairsMember | src/api/httpClient.ts:215-229 | A pair is sent exactly when some entry carries it: as a single present value, or as a present item of an array under that key. |
| HttpClient.QueryPairsAppend | src/api/httpClient.ts:215-229 | Pairs keep entry order: an earlier entry's pairs come first. |
| HttpClient.QueryStringMeaning | src/api/httpClient.ts:211-232 | The query string is empty exactly when the query is absent or yields no pair. Otherwise it is `?` followed by text that parses back to exactly those pairs, in order. |
| HttpClient.Headers.Set | src/api/httpClient.ts:247 | `headers.set` stores the value under the lower-cased name, replacing any earlier value. |
| HttpClient.MergeHeaders | src/api/httpClient.ts:238-252 | The result is the base headers with the present extras applied in order; an absent extra object changes nothing. |
| HttpClient.OverlaySnoc | src/api/httpClient.ts:245-248 | One more extra header is one more conditional `set`. |
| HttpClient.OverlayLookup | src/api/httpClient.ts:244-249 | A merged header holds the value of the last present extra of that name, if any. Otherwise it holds the base header, and it is absent when the base lacks it. Undefined and null extras change nothing. |
| HttpClient.DefaultBaseUrl | src/api/httpClient.ts:178-182 | The environment's base URL when it is non-empty, and `http://127.0.0.1:8203` otherwise. |
| HttpClient.RequestUrlShape | src/api/httpClient.ts:271-282 | The URL is the base with its trailing slashes cut, then the filled path and the query string. The part taken from the base never ends in `/`. |
| HttpClient.PrepareBody | src/api/httpClient.ts:295-315 | Form data and blobs are passed as they are, an absent body sends none, and anything else is sent as its JSON text. Only the JSON case touches the headers. |
| HttpClient.LowerContentType | src/api/httpClient.ts:310 | `Content-Type` is looked up under `content-type`. |
| HttpClient.NonJsonKeepsHeaders | src/api/httpClient.ts:297-308 | Form data, blobs and an absent body leave the headers as they are. |
| HttpClient.ContentTypeDefault | src/api/httpClient.ts:310-312 | A Content-Type already present, in any letter case, is never replaced. Only a JSON body without one gets `application/json`. No other header changes. |
| HttpClient.HandleResponse | src/api/httpClient.ts:338-361 | A status outside 200-299 fails with the status, the status text and the body (empty when reading it failed). `204` and a failed JSON parse give `undefined`, and otherwise the result is the parsed JSON. |
| HttpClient.RequestFailedMessage | src/api/httpClient.ts:343-347 | The message holds the status as a numeral that reads back as the status and the status text. It ends in ` - body` exactly when the body is non-empty. |
| HttpClient.ApiRequest | src/api/httpClient.ts:258-361 | A `buildPath` error is thrown before any request is sent. Otherwise the request has the built URL, the upper-cased method, the merged headers with the JSON default, and the body: form data and blobs as they are, JSON as its text, none when absent. A network error is rethrown, and a response is classified by `HandleResponse`. |
| UrlEncoding.Utf8Char | src/api/httpClient.ts:200 | A character's UTF-8 form has 1-4 bytes: one byte equal to the code point below U+0080, otherwise only bytes of 0x80 and above. |
| UrlEncoding.Utf8DecodeChar | src/api/httpClient.ts:200 | A strict decoder reads each character's encoding back as that character. |
| UrlEncoding.Utf8RoundTrip | src/api/httpClient.ts:200 | Decoding the UTF-8 encoding of a string gives that string. |
| UrlEncoding.HexValueOfDigit | src/api/httpClient.ts:200 | Every upper-case hex digit reads back as its value. |
| UrlEncoding.PercentEncodeBytes | src/api/httpClient.ts:200 | A percent-encoded byte string holds only `%` and hex digits. |
| UrlEncoding.EncodeUriComponent | src/api/httpClient.ts:200 | `encodeURIComponent` outputs only unreserved characters and `%`, so never `/`, `?`, `#`, `{` or `}`. |
| UrlEncoding.EncodeUriComponentUnreserved | src/api/httpClient.ts:200 | A string of unreserved characters is encoded as itself. |
| UrlEncoding.PercentDecodeBytes | src/api/httpClient.ts:200 | Percent-decoding reads `%XX` sequences back as their bytes. |
| UrlEncoding.PercentDecodeUriComponent | src/api/httpClient.ts:200 | Percent-decoding an encoded component gives its UTF-8 bytes. |
| UrlEncoding.UriComponentRoundTrip | src/api/httpClient.ts:200 | `decodeURIComponent(encodeURIComponent(s)) == s` for every string. |
| UrlEncoding.FormEncode | src/api/httpClient.ts:228-231 | A name or value as the form serializer writes it never contains `&`, `=`, `?` or `#`. |
| UrlEncoding.PercentDecodeForm | src/api/httpClient.ts:231 | Form-decoding, where `+` is a space, an encoded name or value gives its UTF-8 bytes. |
| UrlEncoding.FormRoundTrip | src/api/httpClient.ts:231 | The form decoding of the form encoding of a string is that string. |
| UrlEncoding.SerializePairs | src/api/httpClient.ts:231 | One `name=value` piece per pair, in pair order. |
| UrlEncoding.SerializeFormEmpty | src/api/httpClient.ts:231-232 | `toString()` is empty exactly for an empty buffer, which is why `qs ? ... : ''` drops the `?` only then. |
| UrlEncoding.ParseSerializedPair | src/api/httpClient.ts:231 | A serialized pair is a non-empty piece that parses back to the pair. |
| UrlEncoding.ParseSerializedPieces | src/api/httpClient.ts:231 | The serialized pieces parse back to the pairs. |
| UrlEncoding.FormSerializeRoundTrip | src/api/httpClient.ts:231 | The form-urlencoded parser reads the serialization of a pair list back as the same pairs in the same order. |
| Text.ToLower | scripts/generate-openapi-modules.js:70 | `toLowerCase` keeps the length and lower-cases each character. |
| Text.ToUpper | src/api/httpClient.ts:321 | `toUpperCase` keeps the length and upper-cases each character. |
| Text.Trim | scripts/run-openapi.js:17 | The result starts and ends with no whitespace and is no longer than the input. |
| Text.TrimIsSlice | scripts/run-openapi.js:17 | `trim` removes only whitespace, from both ends, and keeps a contiguous part of the input. |
| Text.TrimKeepsFirst | scripts/run-openapi.js:17-21 | A string that starts with a non-whitespace character keeps that character first. |
| Text.TrimOfTrimmed | scripts/run-openapi.js:21-22 | Trimming trimmed text changes nothing. |
| Text.TrimNoWhitespace | scripts/run-openapi.js:17 | Text without whitespace is its own trim. |
| Text.IndexOf | scripts/run-openapi.js:19 | `indexOf` gives the first position of the character, or -1 exactly when it is absent. |
| Text.IndexOfConcat | scripts/run-openapi.js:19 | The first `=` after text without `=` is found just after that text. |
| Text.Split | scripts/run-openapi.js:16 | `split` gives at least one part, and no part contains the separator. |
| Text.JoinSplit | scripts/run-openapi.js:16 | Joining the parts of a split with the separator restores the text. |
| Text.SplitJoin | scripts/run-openapi.js:16 | Splitting a join of separator-free parts restores the parts. |
| Text.NatToString | scripts/generate-openapi-modules.js:103 | A decimal numeral is non-empty, all digits, and has no leading zero. |
| Text.ParseNatToString | src/api/httpClient.ts:344 | The numeral of a number reads back as that number. |
| Text.NatToStringInjective | scripts/generate-openapi-modules.js:103 | Different numbers have different numerals. |
| Text.TrimTrailingSlashes | scripts/run-openapi.js:37 | `replace(/\/+$/, '')` keeps a prefix, removes only `/`, and leaves no trailing `/`. |
| Text.TrimTrailingSlashesUnique | src/api/httpClient.ts:271 | Those three facts determine the result. |
| OpenApiNames.Words | scripts/generate-openapi-modules.js:40-42 | The words of `split(/[^a-zA-Z0-9]+/).filter(Boolean)` are non-empty runs of letters and digits. |
| OpenApiNames.WordsConcat | scripts/generate-openapi-modules.js:40-42 | The words, concatenated, are exactly the letters and digits of the input, in order. |
| OpenApiNames.WordsEmpty | scripts/generate-openapi-modules.js:44 | There are no words exactly when the input has no letter or digit. |
| OpenApiNames.WordsCons | scripts/generate-openapi-modules.js:41 | A run of letters and digits ended by a separator is the first word. |
| OpenApiNames.CamelBase | scripts/generate-openapi-modules.js:48-54 | The camel-case join of words is a non-empty run of letters and digits. |
| OpenApiNames.ToIdentifier | scripts/generate-openapi-modules.js:39-61 | No words gives `operation`. The result is otherwise letters and digits starting with a lower-case letter, prefixed `op` exactly when the first word starts with a digit. Without the prefix it has as many characters as the input has letters and digits. |
| OpenApiNames.KeepsLettersAndDigits | scripts/generate-openapi-modules.js:48-58 | Up to letter case, the identifier is the input's letters and digits, behind `op` when they start with a digit. |
| OpenApiNames.CapitalizedConcatCase | scripts/generate-openapi-modules.js:53 | Capitalizing and joining the words upper-cases the character at each word start and keeps every other character. |
| OpenApiNames.CamelBaseCasing | scripts/generate-openapi-modules.js:48-54 | The joined name lower-cases its first character, upper-cases the first character of every later word and keeps every other character. |
| OpenApiNames.ToIdentifierCasing | scripts/generate-openapi-modules.js:48-58 | Behind an `op` prefix exactly when the letters and digits start with a digit, the identifier has one character per input letter or digit. That character is lower-cased for the first, upper-cased at the start of every later word, and the input's own character everywhere else. |
| OpenApiNames.ToIdentifierIdempotent | scripts/generate-openapi-modules.js:39-61 | An identifier is its own identifier. |
| OpenApiNames.UploadWallpaperName | scripts/generate-openapi-modules.js:48-54 | `upload_wallpaper_api_pictures__post` becomes `uploadWallpaperApiPicturesPost`. |
| OpenApiNames.SkipSymbols | scripts/generate-openapi-modules.js:71 | Only characters outside `[a-z0-9]` are skipped, and the rest starts inside it. |
| OpenApiNames.DashRuns | scripts/generate-openapi-modules.js:71 | `replace(/[^a-z0-9]+/g, '-')` leaves only `[a-z0-9]` and single dashes. |
| OpenApiNames.DropLeadingDashes | scripts/generate-openapi-modules.js:72 | `^-+` removes only leading dashes. |
| OpenApiNames.DropTrailingDashes | scripts/generate-openapi-modules.js:72 | `-+$` removes only trailing dashes. |
| OpenApiNames.TrimDashes | scripts/generate-openapi-modules.js:72 | Once dashes are cut from both ends, a dash-run string is empty or a well-formed file name. |
| OpenApiNames.TagToFileName | scripts/generate-openapi-modules.js:67-75 | The file name is always non-empty `[a-z0-9]` words joined by single dashes. |
| OpenApiNames.SymbolTagIsDefault | scripts/generate-openapi-modules.js:74 | A tag with no letter or digit becomes `default`. |
| OpenApiNames.FileNameKeepsLettersAndDigits | scripts/generate-openapi-modules.js:68-72 | A tag with letters or digits keeps exactly those, lower-cased and in order. |
| OpenApiNames.FileNameIsFixed | scripts/generate-openapi-modules.js:67-75 | A well-formed file name maps to itself. |
| OpenApiNames.TagToFileNameIdempotent | scripts/generate-openapi-modules.js:67-75 | Applying `tagToFileName` twice is applying it once. |
| OpenApiNames.AlnumOnlyOfTrim | scripts/generate-openapi-modules.js:69 | Trimming removes no letter or digit. |
| OpenApiNames.DashRunsSeparates | scripts/generate-openapi-modules.js:71 | A run outside `[a-z0-9]` that stands between `[a-z0-9]` characters, or at an end of the text, becomes exactly one dash in its place. The text on either side is replaced independently. |
| OpenApiNames.FileNameOfTwoWords | scripts/generate-openapi-modules.js:67-75 | Two `[a-z0-9]` words with any non-empty run of non-alphanumeric characters between them give the two words joined by one dash. |
| OpenApiNames.AlnumOnlyOfDashRuns | scripts/generate-openapi-modules.js:71 | Replacing symbol runs by dashes keeps every letter and digit, in order. |
| OpenApiNames.DashRunsOfKebab | scripts/generate-openapi-modules.js:71 | Text already made of `[a-z0-9]` and single inner dashes is unchanged by the replacement. |
| OpenApiGenerator.RemoveBraces | scripts/generate-openapi-modules.js:94 | A segment loses its braces and nothing else. |
| OpenApiGenerator.KeptSegmentsMember | scripts/generate-openapi-modules.js:91-94 | A segment is kept exactly when it is non-empty and not `api`, and is then used without braces. |
| OpenApiGenerator.BaseName | scripts/generate-openapi-modules.js:86-98 | The base name is always a non-empty identifier of letters and digits starting lower-case. |
| OpenApiGenerator.FallbackTextLetters | scripts/generate-openapi-modules.js:96 | The letters and digits of the combined text are those of the method, the tag and the kept segments, in order. |
| OpenApiGenerator.FallbackNameSpelling | scripts/generate-openapi-modules.js:88-98 | Without a usable operationId the name spells the method, the tag and the kept path segments, up to case. |
| OpenApiGenerator.CandidateInjective | scripts/generate-openapi-modules.js:103 | Different indices give different candidate names. |
| OpenApiGenerator.FirstFreeUnique | scripts/generate-openapi-modules.js:100-106 | The deduplicating loop's result is determined by the base name and the used set. |
| OpenApiGenerator.FirstFreeShape | scripts/generate-openapi-modules.js:100-106 | The name is the base name exactly when that is unused, and otherwise the base name followed by a positive index. |
| OpenApiGenerator.BuildFunctionName | scripts/generate-openapi-modules.js:85-109 | Returns the first free candidate, which was unused, and adds exactly it to `usedNames`. |
| OpenApiGenerator.NameSet.Add | scripts/generate-openapi-modules.js:106 | `usedNames.add` adds the name. |
| OpenApiGenerator.DocSummary | scripts/generate-openapi-modules.js:138-141 | A summary is shown exactly when it is a non-blank string, and then trimmed. |
| OpenApiGenerator.DocLines | scripts/generate-openapi-modules.js:158-169 | A doc comment appears exactly when there is a summary or a non-empty operationId. It opens with `/**`, closes with ` */`, and carries the summary first and the operationId line. |
| OpenApiGenerator.HeaderExportsNothing | scripts/generate-openapi-modules.js:125-135 | The file header exports nothing. |
| OpenApiGenerator.FunctionExportsItself | scripts/generate-openapi-modules.js:174-193 | Each wrapper has exactly one `export function` line, for its own name, path and method. |
| OpenApiGenerator.EntryExports | scripts/generate-openapi-modules.js:158-193 | Everything one operation adds exports exactly its wrapper. |
| OpenApiGenerator.ExportsFollowOperations | scripts/generate-openapi-modules.js:120-197 | Among the lines pushed for a file, the export lines are the operations' wrappers, one each, in operation order. |
| OpenApiGenerator.ContentExports | scripts/generate-openapi-modules.js:120-197 | When no summary, operationId, path or method holds a line feed, the written file text, split at line feeds, has as its export lines the operations' wrappers, one each, in operation order; the generated names never hold a line feed. |
| OpenApiGenerator.NamesDistinct | scripts/generate-openapi-modules.js:100-106 | The function names within one file are pairwise distinct. |
| OpenApiGenerator.RenderStep | scripts/generate-openapi-modules.js:137-194 | One more operation adds its chosen name and exactly its lines at the end. |
| OpenApiGenerator.FileLinesSnoc | scripts/generate-openapi-modules.js:137-194 | One more operation appends exactly its lines. |
| OpenApiGenerator.EmitOperation | scripts/generate-openapi-modules.js:137-194 | One `forEach` step picks the first free name and appends that operation's doc and wrapper lines. |
| OpenApiGenerator.GenerateControllerFileContent | scripts/generate-openapi-modules.js:120-197 | The content is the header and then each operation's lines, joined by newlines, with every name chosen as the first free one against the names before it; when no operation's texts hold a line feed, the lines of the content export the operations' wrappers, one each, in order. |
| OpenApiGenerator.IncludesMeans | scripts/generate-openapi-modules.js:238 | `includes` is list membership. |
| OpenApiGenerator.SupportedKeys | scripts/generate-openapi-modules.js:223-238 | A key is kept exactly when its lower-case form is one of the seven methods. |
| OpenApiGenerator.TagOf | scripts/generate-openapi-modules.js:243-248 | The first tag is used, or `default` when there are none or the first is empty. |
| OpenApiGenerator.TagMap.Open | scripts/generate-openapi-modules.js:250-252 | A new tag gets an empty group and is appended to the key order. |
| OpenApiGenerator.TagMap.Push | scripts/generate-openapi-modules.js:254-258 | The record is appended to its tag's group, and nothing else changes. |
| OpenApiGenerator.TagOrderSnoc | scripts/generate-openapi-modules.js:250-258 | A record opens its tag only if the tag is new, and joins that tag's group only. |
| OpenApiGenerator.GroupOfAbsentTag | scripts/generate-openapi-modules.js:250-251 | A tag never seen has no records. |
| OpenApiGenerator.FileEntry | scripts/generate-openapi-modules.js:250-258 | Filing a record keeps the map equal to the grouping of the records so far. |
| OpenApiGenerator.FileField | scripts/generate-openapi-modules.js:236-258 | One key of a path item files its record exactly when the method is supported and the operation is truthy. |
| OpenApiGenerator.FilePathItem | scripts/generate-openapi-modules.js:234-259 | The inner loop files a path item's records in key order. A non-object item is skipped. |
| OpenApiGenerator.GroupByTag | scripts/generate-openapi-modules.js:221-260 | After the loop the map has a key per tag in order of first appearance, each with its records in document order. |
| OpenApiGenerator.GroupMember | scripts/generate-openapi-modules.js:254 | A record is in a group exactly when it carries that group's tag. |
| OpenApiGenerator.TagOrderMember | scripts/generate-openapi-modules.js:250 | A tag is a key exactly when some record carries it. |
| OpenApiGenerator.TagOrderDistinct | scripts/generate-openapi-modules.js:250 | No tag is a key twice. |
| OpenApiGenerator.GroupsPartition | scripts/generate-openapi-modules.js:233-260 | The groups partition the accepted records by tag, and the keys are distinct. |
| OpenApiGenerator.ItemEntriesMember | scripts/generate-openapi-modules.js:236-258 | A record comes from a path item exactly when some key of it is a supported method with a truthy operation. |
| OpenApiGenerator.AcceptedEntriesMember | scripts/generate-openapi-modules.js:233-234 | A record is accepted exactly when it comes from some path item of the document. |
| OpenApiGenerator.EntryLeTotalPreorder | scripts/generate-openapi-modules.js:272-277 | Comparing by path and then by method is total and transitive when `localeCompare` is a total order. |
| OpenApiGenerator.EntryLeEqual | scripts/generate-openapi-modules.js:273-274 | Two records compare equal exactly when path and method are both equal. |
| OpenApiGenerator.Insert | scripts/generate-openapi-modules.js:272-277 | Insertion adds exactly the new record. |
| OpenApiGenerator.SortEntries | scripts/generate-openapi-modules.js:272-277 | The sorted group is a permutation of the group. |
| OpenApiGenerator.InsertSorted | scripts/generate-openapi-modules.js:272-277 | Insertion into a sorted list keeps it sorted. |
| OpenApiGenerator.SortEntriesSorted | scripts/generate-openapi-modules.js:272-277 | The sorted group is ordered by path, then method. |
| OpenApiGenerator.InsertStable | scripts/generate-openapi-modules.js:272-277 | Insertion keeps records with the same path and method in arrival order. |
| OpenApiGenerator.SortEntriesStable | scripts/generate-openapi-modules.js:272-277 | The sort is stable, like `Array.prototype.sort`: records of the same path and method keep document order. |
| OpenApiGenerator.WriteController | scripts/generate-openapi-modules.js:272-283 | One tag's file is named after `tagToFileName` and holds the rendered sorted group. |
| OpenApiGenerator.EmitControllers | scripts/generate-openapi-modules.js:271-284 | One write per tag, in map order, each with its file name and its rendered sorted group. |
| OpenApiGenerator.GenerateModules | scripts/generate-openapi-modules.js:218-284 | One write per tag, in order of first appearance, holding that tag's accepted records sorted and rendered. |
| EnvLoader.ParseEnvLineSkips | scripts/run-openapi.js:17-22 | A line is skipped exactly when its trimmed form is empty, starts with `#`, or has no `=` after its first character. Otherwise key and value are trimmed, and the key holds no `=`. |
| EnvLoader.ParsedKeyStart | scripts/run-openapi.js:17-21 | A parsed key is non-empty, starts where the trimmed line starts, and never starts with `#`. |
| EnvLoader.ParseAssignment | scripts/run-openapi.js:17-22 | `KEY=VALUE` with a trimmed key free of `=` and `#`-free at its start, and a trimmed value, parses to exactly that key and value; the value may itself hold `=`. |
| EnvLoader.ParseCanonical | scripts/run-openapi.js:19-22 | A parsed line written back as `key=value` parses to the same pair. |
| EnvLoader.Environment.ApplyLine | scripts/run-openapi.js:17-23 | One line sets its key only when the key is not yet set to a non-empty value. |
| EnvLoader.Environment.LoadEnvFile | scripts/run-openapi.js:12-25 | The environment becomes the lines applied in order. A missing file changes nothing. |
| EnvLoader.ApplyLinesAppend | scripts/run-openapi.js:16 | Applying two runs of lines is applying the first, then the second. |
| EnvLoader.NeverOverwrites | scripts/run-openapi.js:23 | A variable with a non-empty value is never changed by loading. |
| EnvLoader.UnmentionedUnchanged | scripts/run-openapi.js:23 | Lines that do not assign a variable leave it exactly as it was. |
| EnvLoader.StaysUnset | scripts/run-openapi.js:23 | A variable that no line assigns a non-empty value stays unset. |
| EnvLoader.FirstNonEmptyWins | scripts/run-openapi.js:16-23 | An unset variable ends with the value of the first line that assigns it a non-empty value. |
| EnvLoader.LoadOrder | scripts/run-openapi.js:23-29 | Values already in the process environment win over both files, and `.env.development` wins over `.env`. |
| EnvLoader.OpenApiUrl | scripts/run-openapi.js:31-37 | The script exits with code 1 exactly when the base URL is unset or empty. |
| EnvLoader.OpenApiUrlShape | scripts/run-openapi.js:37 | The document URL is the base URL cut before its trailing slashes, followed by `/openapi.json`. |
| EnvLoader.TrailingSlashesIgnored | scripts/run-openapi.js:37 | Extra trailing slashes on the base URL do not change the document URL. |
| EnvLoader.RunOpenApi | scripts/run-openapi.js:27-37 | The script loads `.env.development` and then `.env`, and derives the document URL from the resulting environment. |

## Left out

- I/O:
  - `fetch`, file existence and reading, `mkdirSync`, `readdirSync`, `unlinkSync` and `writeFileSync` are parameters or results.
  - A missing file is `None`, and the JSON document is given as `paths`.
  - The files written are returned as a list of `(name, content)` pairs.
  - Deleting the old `.ts` files before writing is not modelled.
- Console output (`console.log`, `console.warn`, `console.error`) and the `__DEV__` logging are left out; they change no result.
- `execSync` is not part of this model: the two child processes of `run-openapi.js` and the environment handed to the second (lines 38-50).
- `getOpenApiUrl` of `generate-openapi-modules.js` (lines 27-33) and the fetch of the document in `main` (lines 203-217) are not part of this model.
- The error message of a missing base URL is modelled as exit code 1 only.
- `JSON.stringify` is not modelled: a JSON body is given as its serialized text, and the parsed response JSON as an optional value.
- Values are modelled as strings, `undefined` or `null`. `String(value)` is not modelled for non-string values: the text is given.
  - Non-array `tags` count as none.
  - A non-string `summary` or `operationId` is `None`.
  - A falsy operation value is `None`.
- Letter case is ASCII only: `toLowerCase` and `toUpperCase` on non-ASCII letters are not modelled. `Headers` itself lower-cases names byte by byte, which the ASCII mapping captures.
- HttpClient.BuildPath: only the path-parameter object's own properties are modelled. A placeholder named after a property inherited from `Object.prototype`, such as `{constructor}` or `{toString}`, finds that property in the source, but counts as missing in the model.
- HttpClient.ApiRequest: the other `init` fields that are spread into the `fetch` options unchanged (`signal`, `credentials`, `cache`, `mode` and the rest) are not modelled. The request records only the URL, method, headers and body.
- HttpClient.Headers.Set: the `Headers` class's own normalisation of header values (trimming whitespace) is not modelled, nor is its name validation: a name that is not an HTTP token, such as one with a non-ASCII character, throws in the source.
- OpenApiGenerator.ContentExports: the case where a summary, operationId, path or method holds a line feed is not stated. The source writes such a text into one pushed line, and joining then splits it into several lines of the file. One of those lines can start with `export function `, which adds an export that matches no operation.
- `localeCompare` is a parameter `le`. The sorting lemmas ask that it is a total order.
- OpenApiGenerator.SortEntries:
  - `Array.prototype.sort` is modelled on values, as a stable insertion sort.
  - It does not model the in-place update of the group array.
  - It does not model that the sorted group is also what is left in `tagMap`.
- GenerateModules:
  - Two tags whose file names collide make the later write replace the earlier file. The model lists both writes and does not state which file survives.
  - `supportedMethods` is the constant `SupportedMethods`, passed as a parameter to the grouping functions.
- Environment variable names are compared exactly: case-insensitive keys on Windows are not modelled.
- `process.env` holds only the variables given. Its coercion of assigned values to strings is not needed, since values are strings.
- UrlEncoding:
  - Lone surrogate code points, for which `encodeURIComponent` throws, cannot occur: Dafny's `char` holds Unicode scalar values only.
  - The decoders exist only as partners of the encoders. The client never decodes.

