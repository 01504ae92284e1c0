# Blue Archive data client: query engine in Dafny

This project models the query engine of the SchaleDB client in `src/index.ts`. It covers:

- the time-to-live `Cache<T>`;
- the cache-aside `fetchData` and the two-hour localization cache in front of it;
- the `smartSearch` relevance ranking;
- the stage helpers: `createSearchableStageNumber`, the chapter and stage number `simplifyStageData` derives from a stage ID, `generateStageName` and `getCategoryDisplayName`;
- the area, chapter and difficulty filters of `getStagesEnhanced`;
- the school, star-grade and role filters of `getStudents`;
- the first-match name lookup `searchInData` of `getStudentByName`;
- `levenshteinDistance`, `findStudentVariants` and `escapeRegExp`.

How the model maps the source:

- Code that changes state stays imperative. `Cache` and `SchaleDBClient` are classes whose methods update a `map` field. The loops of `smartSearch`, `searchInData`, `findStudentVariants` and `levenshteinDistance` are methods with loop invariants. `createSearchableStageNumber` and `generateStageName` have no loop; they are straight-line methods that assemble their string step by step, as the source does. Each is proved equal to a specification function, or to the property the source promises; the lemmas are stated about those functions.
- The filters and lookups are predicates over datatypes.
- The JavaScript runtime pieces the engine leans on are written out in the `Text`, `Lists` and `StableSort` modules: `toLowerCase`, `trim`, `includes`, `parseInt`, `Number.prototype.toString`, `join`, `filter`, `slice`, and the stable `Array.prototype.sort`.

Modules, one file each:

| file | module | models |
|---|---|---|
| wrappers.dfy | Wrappers | Option and Result |
| text.dfy | Text | string and number primitives of the JavaScript runtime |
| lists.dfy | Lists | `filter`, `slice(0, end)` |
| stable_sort.dfy | StableSort | stable sort by a descending key |
| cache.dfy | TtlCache | `Cache<T>` |
| client.dfy | Client | `SchaleDBClient` constructor, `fetchData`, `getLocalizationData` |
| search.dfy | Search | `smartSearch` |
| stages.dfy | Stages | searchable stage number, ID-derived chapter and stage number, stage names |
| stage_filters.dfy | StageFilters | area, chapter and difficulty filters |
| students.dfy | Students | school, star-grade and role filters, `searchInData` |
| levenshtein.dfy | Levenshtein | `levenshteinDistance` |
| variants.dfy | Variants | `findStudentVariants`, `escapeRegExp` |

Choices that shape the model:

- **Clock and network as parameters.** The clock is a parameter `now`, in milliseconds. The network is a function `fetch` from URL to `Option<Json>`. `None` stands for every way a request can fail: the request throws, the status is not ok, or the body is not JSON.
- **Missing fields.** A record field that may be absent is an `Option`. Truthiness follows JavaScript: an absent field, `""` and `0` are falsy.
- **Numbers.** Numbers are unbounded integers. The fractional parts of the source are written as integer arithmetic:
  - the partial-match ratio `m / len >= 0.8` is `5m >= 4len`, which agrees with the double comparison for every query up to 3000 characters;
  - `Math.floor(m * (m / len))` is `m*m / len`. This is exact for queries shorter than 2523 characters; beyond that, double rounding can make the source's floor one less (see "## Left out");
  - the variant similarities are stored in hundredths: 100, 98 and 95 against a floor of 90.
- **Case and whitespace.** `toLowerCase` is ASCII-only. `trim` and `parseInt` skip the ECMAScript white-space and line-terminator characters.
- **Object entries.** Lookup tables iterated with `Object.entries` keep their declaration order, as sequences. Tables that are only indexed are maps.

Where the code behaves unexpectedly (the model follows the code):

- **Variant names with a space before the bracket.** The second variant pattern is `^base[（(](.+?)[）)]$`. It wants the opening bracket right after the base name. For the Chinese names of the default language, such as "阿露（正月）", this finds every variant. For English names such as "Aru (New Year)", a query for "Aru" finds only "Aru", because of the space before the bracket (`Variants.SpacedVariantsMissed`). The step-3 comment at src/index.ts:1918 describes a variant as the original name followed by a bracketed suffix, with no language restriction, so English variant names are evidently meant to be found too.
- **Variant queries.** For a variant query, the lazy first group keeps the space before the bracket. The base of "aru (new year)" is therefore "aru ". Names are trimmed, so no student is ever found under that base, and the base character is never returned at 0.98 (`Variants.AruQueryHasNoBaseCharacter`). Siblings that share the spaced base ("aru (swimsuit)") are found at 0.95 (`Variants.VariantQueryScenario`).
- **Stage ID 1001.** The display path and the chapter filter read the same stage ID differently. `simplifyStageData` reports ID 1001 as chapter "10", from the first two digits of any ID of four or more digits. The chapter filter puts it in chapter 1, from the first digit of a four-digit ID (`StageFilters.ChapterOf1001Disagrees`).
- **Chapter phrases.** The list of chapter phrases in the chapter filter never changes its outcome. Every phrase contains the request, which the name test also tries on its own (`StageFilters.ChapterPatternsRedundant`).

## Model

| member | source | states |
|---|---|---|
| TtlCache.Cache.constructor | src/index.ts:515-517 | the time-to-live is the given minutes times 60·1000 milliseconds, and the cache starts empty |
| TtlCache.Cache.Default | src/index.ts:515-517 | without an argument the time-to-live is 60 minutes, 3 600 000 ms |
| TtlCache.Cache.Set | src/index.ts:519-521 | the key now maps to the data stamped with the current time; every other entry is unchanged |
| TtlCache.Cache.Get | src/index.ts:523-533 | answers the stored data for a fresh entry and nothing for a missing or stale one; only a stale entry for the key is deleted |
| TtlCache.Cache.Clear | src/index.ts:535-537 | no entries remain |
| TtlCache.SetThenLookup | src/index.ts:519-533 | data set at t0 is returned at time t exactly when t - t0 <= ttl; with a non-negative ttl it is returned at once |
| TtlCache.SetOtherKey | src/index.ts:519-521 | setting one key leaves the answer for every other key unchanged |
| TtlCache.LookupEarlier | src/index.ts:527-532 | expiry is monotone in time: an entry returned at t2 is returned, with the same data, at every t1 <= t2 |
| TtlCache.AfterGetUnobservable | src/index.ts:527-530 | the deletion get performs changes no later answer for any key |
| TtlCache.AfterGetRemovesOnlyStale | src/index.ts:527-530 | get removes at most the key asked for, only when it is stale, and leaves the other entries as they were |
| TtlCache.ClearedLookup | src/index.ts:535-537 | a cleared cache answers nothing |
| Client.SchaleDBClient.constructor | src/index.ts:547-552 | the main cache lives cacheTimeout milliseconds, the localization cache 120 minutes; both start empty and are distinct |
| Client.SchaleDBClient.Default | src/index.ts:346-349 | the default configuration: base URL https://schaledb.com/data and a five-minute main cache |
| Client.SchaleDBClient.FetchData | src/index.ts:554-575 | the result and the new main cache are those of the cache-aside protocol: a truthy fresh value is returned; otherwise the URL is fetched, a failure is an error naming the endpoint, a success is stored and returned |
| Client.SchaleDBClient.GetLocalizationData | src/index.ts:1193-1203 | the result and both caches are those of a truthy localization hit, or else of fetchData on language/localization.json, whose success is stored under localization_language and whose error propagates |
| Client.FetchHitSkipsNetwork | src/index.ts:555-559 | on a truthy fresh hit the outcome does not depend on the network and the cache is unchanged |
| Client.FetchThenHit | src/index.ts:554-570 | truthy data fetched at t0 is served from the cache, without the network, by every call up to ttl later |
| Client.FalsyBodyRefetched | src/index.ts:555-568 | a falsy body is stored but never served: the next call goes to the network again |
| Client.FetchFailureStoresNothing | src/index.ts:561-574 | a failed request reports the endpoint and leaves only the eviction the lookup made |
| Client.FetchOtherEndpoint | src/index.ts:554-575 | fetching one endpoint never changes what is cached for another |
| Client.LocalizationNamesInjective | src/index.ts:1194-1200 | the localization cache key and endpoint determine the language, and the language determines them |
| Client.LocalizationThenHit | src/index.ts:1193-1203 | localization data loaded at t0 is served from the localization cache, with both caches unchanged, by every call within its time-to-live |
| Client.LocalizationFailure | src/index.ts:1193-1203 | a failed load propagates fetchData's error and stores nothing in the localization cache |
| Search.SmartSearch | src/index.ts:578-635 | an empty term returns the items unchanged; otherwise the result is the ranking of the lower-cased, trimmed term |
| Search.ScoreRecord | src/index.ts:584-623 | the loop over the fields yields the sum of the field scores: 100 exact, 80 prefix, 60 substring, else the partial score |
| Search.CountMatchedChars | src/index.ts:607-615 | counts the positions of the query whose character occurs in the field |
| Search.RankedSortedAboveFloor | src/index.ts:626-634 | every ranked record scores at least 10, and scores never increase along the ranking |
| Search.RankedIsKeptPermutation | src/index.ts:626-634 | the ranking holds exactly the input records that reach 10, each as often as in the input |
| Search.KeptCounts | src/index.ts:626-628 | a record is kept as often as it occurs in the input when it reaches 10, and not at all otherwise |
| Search.KeptAboveFloor | src/index.ts:626-628 | every kept record scores at least 10 |
| Search.RankedStable | src/index.ts:632-634 | records with equal scores keep their input order |
| Search.ExactFieldScores100 | src/index.ts:591-596 | a field equal to the query in any letter case scores 100 |
| Search.MissingFieldScoresZero | src/index.ts:588-589 | an absent or empty field scores 0 |
| Search.FieldScoreTiers | src/index.ts:597-622 | a proper prefix scores 80, a non-prefix substring 60, and the partial score never exceeds the query's length |
| Search.SingleExactField | src/index.ts:587-596 | a record searched on one exactly matching field scores 100 |
| Search.RecordScoreAppend | src/index.ts:587-623 | adding a field adds its score to the total |
| StableSort.SortDescPermutes | src/index.ts:632-634 | the sort neither drops, duplicates nor invents an element |
| StableSort.SortDescSorted | src/index.ts:632-634 | the sorted list is ordered by non-increasing key and has the input's length |
| StableSort.SortDescStable | src/index.ts:632-634 | for every key value, the elements with that key keep their input order |
| StableSort.SortDescOfSorted | src/index.ts:1949 | an input already in order is returned unchanged |
| StableSort.MapSortDesc | src/index.ts:632-634 | sorting (item, score) pairs and projecting the items equals sorting the items by their score |
| Lists.FilterCounts | src/index.ts:999-1011 | filter keeps an element as often as it occurs when the predicate holds, and not at all otherwise |
| Lists.FilterMembers | src/index.ts:999-1011 | an element is in the filtered list exactly when it is in the input and satisfies the predicate |
| Lists.FilterAll | src/index.ts:1952 | a list every element of which passes comes back unchanged |
| Lists.Take | src/index.ts:1050 | slice(0, end) is a prefix of the list, of length end clamped to the list for a non-negative end |
| Stages.CreateSearchableStageNumber | src/index.ts:766-790 | the parts joined by single spaces; every part occurs in the result; the result is empty exactly when StageNumber, Stage and Id are all falsy |
| Stages.SearchablePartsNonEmpty | src/index.ts:769-787 | no part is empty, and there are none exactly when StageNumber, Stage and Id are all falsy |
| Stages.DerivationKeepsFields | src/index.ts:803-842 | a truthy Chapter or StageNumber is never replaced, and nothing is derived without a truthy Id |
| Stages.DerivedFromLongId | src/index.ts:806-833 | for an ID of four or more digits the chapter is its first two digits and the stage number the value of its third and fourth |
| Stages.DerivedFromShortId | src/index.ts:817-840 | for an ID of two or three digits the chapter is its first digit and the stage number the value of the digits after it |
| Stages.DerivedFrom1001 | src/index.ts:810-833 | ID 1001 is shown as chapter "10", stage number "1" |
| Stages.CategoryDisplayName | src/index.ts:1248-1263 | the five known codes, in any letter case, get their Chinese label; any other code is returned as given |
| Stages.CategoryDisplayNameCaseInsensitive | src/index.ts:1249 | the label does not depend on the letter case of a known code |
| Stages.GenerateStageName | src/index.ts:1206-1241 | the trimmed name, or undefined when it is empty; without a category, or with a known one, the name needs no trimming and is never undefined |
| Stages.BuildStageName | src/index.ts:1209-1238 | the name is the label, " Stage", "-Level" and " (Terrain)" as present with a category, and "关卡 " with the Stage, the Id or "Unknown" without one |
| Stages.LabelledStageNameUntrimmed | src/index.ts:1212-1230 | a label without surrounding white space gives a non-empty name that trim leaves unchanged |
| Stages.LabelEdges | src/index.ts:1250-1259 | the five labels start and end with a non-space character |
| Stages.PlainStageNameUntrimmed | src/index.ts:1231-1238 | a name without a category is non-empty and unchanged by trim |
| Stages.StageNamedAfterId | src/index.ts:1236 | a stage with only a non-zero Id is named "关卡 " followed by it |
| StageFilters.KeyLookup | src/index.ts:1326 | the list for a key is missing exactly when no entry has that key |
| StageFilters.WordLookup | src/index.ts:1332-1333 | no entry is found exactly when no list holds the word; a found entry holds it |
| StageFilters.AreaTableShape | src/index.ts:1314-1323 | the Chinese names are distinct and free of ASCII letters; the English words are lower case and each is listed once |
| StageFilters.AreaNeedsCategory | src/index.ts:1303 | a stage without a truthy Category matches no area |
| StageFilters.AreaChineseName | src/index.ts:1305-1329 | a Chinese area name matches exactly the categories that contain it or one of its English words |
| StageFilters.AreaEnglishWord | src/index.ts:1305-1337 | an English word in any letter case matches exactly the categories that contain its Chinese name or one of its entry's words |
| StageFilters.PatternsContainChapter | src/index.ts:1393-1403 | every lower-cased chapter phrase contains the lower-cased request |
| StageFilters.ChapterPatternsRedundant | src/index.ts:1390-1411 | the chapter filter with the phrase list is the same test as without it |
| StageFilters.ChapterCaseInsensitive | src/index.ts:1344-1414 | the chapter filter does not depend on the letter case of the request |
| StageFilters.FilterChapterOfLength | src/index.ts:1357-1372 | the filter reads a four-digit ID's first digit and a five- or six-digit ID's first two digits as the chapter |
| StageFilters.FilterChapterByMagnitude | src/index.ts:1357-1372 | IDs from 1000 to 99999 are in chapter n / 1000, those from 100000 to 999999 in chapter n / 10000 |
| StageFilters.FilterChapterExamples | src/index.ts:1361-1371 | 30101 and 301001 are in chapter 30 and 1001 in chapter 1 |
| StageFilters.ChapterOf1001Disagrees | src/index.ts:1357-1378 | stage 1001 is shown in chapter "10" but found under chapter "1" and not under "10" |
| StageFilters.ChapterOfIdOnly | src/index.ts:1357-1378 | a stage with nothing but an Id matches a numeric request exactly when the chapter read off the Id equals it |
| StageFilters.Span | src/index.ts:1431-1438 | each level range holds exactly the integers from its lower bound to its upper bound |
| StageFilters.DifficultyNumberIsExact | src/index.ts:1423-1427 | a numeric request against a stage with a Level is decided by Level == n alone |
| StageFilters.DifficultyWordCases | src/index.ts:1420-1500 | a non-numeric request matches by level range, by category word or direct containment in Category, or by containment in Type or Name |
| StageFilters.DifficultyLevelBand | src/index.ts:1430-1444 | levels 1-5, 6-15, 16-25 and 26-35 match 简单/easy, 普通/normal, 困难/hard and 极难/extreme |
| StageFilters.DifficultyAlias | src/index.ts:1452-1476 | a Category containing one of the request's category words matches |
| StageFilters.ParseIntOfWord | src/index.ts:1424-1425 | a word starting with a letter or ideograph is not a number |
| StageFilters.DifficultyKeysAreWords | src/index.ts:1430-1469 | no key of the difficulty tables parses as a number |
| StageFilters.DifficultyCaseInsensitive | src/index.ts:1418-1501 | the difficulty filter does not depend on the letter case of the request |
| StageFilters.FilterStagesKeeps | src/index.ts:1301-1502 | the filters keep exactly the stages that pass every filter switched on, each as often as in the input |
| StageFilters.NoFilters | src/index.ts:1298-1502 | without filter arguments the stage list is unchanged |
| Students.SchoolKeysLowerCase | src/index.ts:912-937 | every key of the school table is its own lower-cased form |
| Students.RoleKeysLowerCase | src/index.ts:939-953 | every key of the role table is its own lower-cased form |
| Students.NamedFieldOfKey | src/index.ts:994-1011 | a table key matches exactly the fields that contain it or its English name, in any letter case |
| Students.NamedFieldOfOther | src/index.ts:994-1011 | a query that is not a key, as typed or lower-cased, is case-blind containment |
| Students.TrinityByChineseName | src/index.ts:994-1011 | 三一 finds a Trinity student whatever the case of the School field |
| Students.SrtInCapitals | src/index.ts:995-997 | "SRT" reaches the table through its lower-cased form |
| Students.SchoolCaseInsensitive | src/index.ts:994-1011 | the school filter does not depend on the letter case of the query |
| Students.RoleCaseInsensitive | src/index.ts:1020-1037 | the role filter does not depend on the letter case of the query |
| Students.FilterStudentsKeeps | src/index.ts:994-1038 | the filters keep exactly the students that pass every filter switched on, each as often as in the input |
| Students.SearchInData | src/index.ts:1063-1097 | a falsy collection gives null; otherwise the first present student, in key order, with a matching name field, and null exactly when there is none |
| Students.FirstMatch | src/index.ts:1069-1096 | the first entry that is a matching student, and None exactly when no entry is |
| Students.AnyFieldMatches | src/index.ts:1086-1094 | true exactly when some field is a non-empty string whose normalised form equals or contains the query |
| Students.FieldMatchesIsContainment | src/index.ts:1090 | the equality test adds nothing to the containment test |
| Students.FoundByOwnName | src/index.ts:1060-1091 | a query equal to a student's Name up to letter case and surrounding spaces finds that student |
| Students.FoundByFullName | src/index.ts:1081-1082 | family and personal name written together or with a space find the student |
| Students.EmptyQueryMatchesAnyName | src/index.ts:1060-1091 | an empty or all-space query matches every student with a truthy Name |
| Levenshtein.LevenshteinDistance | src/index.ts:1806-1833 | the bottom-right cell of the matrix is the edit distance between the two strings |
| Levenshtein.FillRow | src/index.ts:1818-1830 | after row i every cell of rows 0..i holds the distance of the prefixes; later rows are untouched |
| Levenshtein.CellRecurrence | src/index.ts:1820-1827 | a cell computed from its diagonal, left and upper neighbours holds the distance |
| Levenshtein.DistSymmetric | src/index.ts:1807-1832 | the distance does not depend on which string indexes the rows |
| Levenshtein.DistanceToEmpty | src/index.ts:1810-1815 | the distance to the empty string is the other string's length |
| Levenshtein.DistanceSelf | src/index.ts:1818-1832 | a string is at distance 0 from itself |
| Levenshtein.DistanceZeroIffEqual | src/index.ts:1806-1833 | the distance is 0 exactly when the strings are equal |
| Levenshtein.DistanceBounds | src/index.ts:1806-1833 | the distance lies between the difference of the lengths and the larger length |
| Variants.EscapeRegExpIsLiteral | src/index.ts:1956-1958 | the escaped string is a pattern of literal characters that matches exactly the original |
| Variants.EscapeRegExpPlain | src/index.ts:1956-1958 | a string without special characters is its own escape |
| Variants.ParseVariantQuerySome | src/index.ts:1850-1856 | a parsed query is a non-empty base without an opening bracket after its first character, a bracket, a non-empty suffix and a closing bracket at the end |
| Variants.ParseVariantQueryOf | src/index.ts:1850-1856 | every string of that shape parses to that base and suffix |
| Variants.ParseVariantQueryIff | src/index.ts:1850-1853 | a query is a variant query exactly when it ends in a closing bracket and has an opening one at an index from 1 to length - 3 |
| Variants.VariantSuffixShape | src/index.ts:1908-1919 | a name the second pattern accepts is the base, a bracket, a non-empty suffix and a closing bracket |
| Variants.VariantSuffixOf | src/index.ts:1908-1919 | every name of that shape is accepted with that suffix |
| Variants.FirstWithName | src/index.ts:1859-1869 | nothing is found exactly when no key is the target; otherwise the first student whose key is it |
| Variants.ExactMatches | src/index.ts:1934-1945 | every entry is an exact match at 100 of a student whose key is the query |
| Variants.FindStudentVariants | src/index.ts:1836-1953 | the result is the variant lookup on the first 1000 students fetched |
| Variants.FirstSteps | src/index.ts:1843-1904 | the entries and base name of the first two steps, for a variant and for a plain query |
| Variants.FindByName | src/index.ts:1859-1869 | the loops that break at the first student whose key is the target |
| Variants.ExpandLoop | src/index.ts:1907-1930 | the variant loop adds, at 95, every student not yet returned whose key is the base with a bracketed suffix |
| Variants.ExactLoop | src/index.ts:1933-1946 | the fallback collects every student whose key is the query, at 100, in order |
| Variants.ThresholdDropsNothing | src/index.ts:1949-1952 | the 0.9 floor removes nothing: the result is the collected entries sorted by non-increasing similarity, a permutation of them |
| Variants.CollectedKnown | src/index.ts:1862-1943 | only the similarities 100, 98 and 95 are produced |
| Variants.NoStudentsNoVariants | src/index.ts:1839-1841 | no students give no result |
| Variants.CollectedRelated | src/index.ts:1843-1946 | every returned student's key is the query, its base, or the base with a bracketed suffix |
| Variants.CollectedFresh | src/index.ts:1913-1916 | no variant is returned under a Name already returned |
| Variants.PlainQueryFallsBackToExact | src/index.ts:1932-1946 | a plain query with exact matches and no variants returns the exact matches even without includeOriginal |
| Variants.StudentKeyTrimmed | src/index.ts:1860 | a student key never ends in white space |
| Variants.AruBaseKeepsSpace | src/index.ts:1850-1856 | the base of "aru (new year)" is "aru ", with its trailing space |
| Variants.SpacedBaseNamesNoOne | src/index.ts:1872-1874 | a base ending in a space names no student |
| Variants.AruQueryHasNoBaseCharacter | src/index.ts:1871-1884 | for any spelling of "Aru (New Year)" no base character is returned |
| Variants.SpacedVariantsMissed | src/index.ts:1886-1930 | "aru" over aru, aru (new year), aru (swimsuit) and unrelated returns only aru at 100 |
| Variants.FullWidthVariantsFound | src/index.ts:1886-1930 | "阿露" over 阿露, 阿露（正月）, 阿露（泳装） and 无关 returns 阿露 at 100 and both variants at 95 |
| Variants.VariantQueryScenario | src/index.ts:1853-1930 | "aru (new year)" returns that student at 100 and aru (swimsuit) at 95, with no base character |

## Left out

- I/O:
  - the HTTP request, `response.ok` and `response.json` are the parameter `fetch`;
  - `Date.now()` is the parameter `now`;
  - the logger and `ErrorHandler` are not modelled.
- The error message text of `fetchData` is not modelled; its error carries only the endpoint.
- The MCP server, the tool handlers and every query method outside the list above are not part of this model.
- The per-language retry loop of `getStudentByName` and the projections in `simplifyStudentData` and `simplifyStageData` are not modelled, because they are I/O sequencing and field copying. `searchInData` itself is modelled.
- `findStudentVariants` receives the student list that `getStudents({language, limit: 1000})` would return, and the model takes its first 1000 entries. How `getStudents` builds that list is covered by the student filters and `smartSearch`.
- How `Object.values`/`Object.keys` turn a JSON object into a list is not modelled. The model takes the resulting list. In `searchInData` a falsy entry is `None`.
- Floating point is not modelled. The partial-match score and the variant similarities are integer forms, and the time-to-live is a `real`.
- Search.PartialScore: is the exact `m*m / len`, not the double-precision `Math.floor(m * (m / len))` of src/index.ts:617-620. The two differ once the query has 2523 characters or more. For m = 2175 and a length of 2523, the double product is 1874.9999999999998, so the source floors it to 1874 while the model gives 1875.
- Search.CountMatchedChars, Search.PartialScore and Levenshtein.Dist: model strings as sequences of Unicode characters, while `.length` and `str[i]` in the source (src/index.ts:610-620, 1806-1833) count UTF-16 code units. A character outside the Basic Multilingual Plane, such as an emoji, is two units in the source and one character in the model. So under `smartSearch` the query "😀😀😀😀😀" against a field "😀" scores 10 in the source and 5 in the model, and `levenshteinDistance("😀", "")` is 2 in the source and 1 in the model.
- `toString` of non-string field values in `smartSearch` is not modelled: records map field names to strings.
- Lowercasing is ASCII-only. Unicode case folding beyond ASCII is not modelled.
- JavaScript object prototype keys such as `"constructor"` are not modelled. They can reach five plain-object lookups: `schoolMapping[...]`, the area filter's `categoryMapping[...]`, `roleMapping[role]` (src/index.ts:1022), `levelRangeMapping[difficultyStr]` (src/index.ts:1441) and `difficultyMapping[difficultyStr]` (src/index.ts:1471). For such a key the source gets an `Object.prototype` member back and then throws a TypeError (`englishRole.toLowerCase`, `levelRange.includes`, `mappedDifficulties.some`). The model's tables `SchoolNames`, `RoleNames`, `LevelRanges` and `DifficultyAliases` and the area table are plain maps, so they answer "absent" and the filter carries on.
- Client.SchaleDBClient.FetchData: reads the clock once per call, so lookup and store share one `now`. The source calls `Date.now()` again inside `set` (src/index.ts:520), after the awaits at src/index.ts:563 and 567, so its entries are stamped later, by the fetch latency.
- Client.SchaleDBClient.GetLocalizationData: the same single clock reading per call, and the same gap.
- Client.SchaleDBClient.FetchData and Client.SchaleDBClient.GetLocalizationData: calls run one after another. Two overlapping calls that both miss the cache and both fetch are not modelled.
- StageFilters.ChapterMatches: a JSON `null` Stage or Id is taken as absent. The source's `!== undefined` tests (src/index.ts:1350, 1357) let `null` through; a null Stage never equals the number, and a null Id makes `s.Id.toString()` throw.
- StageFilters.DifficultyMatches: a JSON `null` Level is taken as absent. With the test at src/index.ts:1423, a null Level makes the source return false for a numeric request; the model instead falls through to the Category, Type and Name tests.
- The regular expressions are written out as functions. Line terminators in names are assumed absent, so `.` matches every character.
- The `catch` branch of `generateStageName` is not modelled. Nothing in its body can throw for the record shapes modelled.
- The `localizationData` argument of `generateStageName` is not modelled, because the function never reads it.
