# Course-lookup pipeline of the training-course chat assistant

This project is a Dafny model of the course-lookup pipeline behind a chat
assistant that finds training courses in a shop catalogue. It covers:

- the text normaliser (`normalizeText`);
- the pipe-delimited location extractor (`extractLocation`);
- the date-segment selector (`parseDate`);
- the per-course metadata builder (`buildMeta`);
- the sort-trigger detector (`detectSortKey`);
- the two synonym tables built from the catalogue (lib/synonyms.js);
- the two `searchCourses` filters: the newer one in lib/search.js, which
  writes `_meta` into each product it keeps, and the older one in
  pages/api/ask.js, which substitutes the keyword and asks for every word of
  it in the course name;
- the API handler's follow-up question and reply intro;
- the chat client's payload window and course-type detection.

Each JavaScript file is one Dafny module:

| source | module | form |
|---|---|---|
| lib/utils/normalize.js | `Normalize` (normalize.dfy) | functions and lemmas |
| lib/utils/location.js | `Location` (location.dfy) | functions and lemmas |
| lib/utils/date.js | `Dates` (dates.dfy) | functions and lemmas |
| lib/courses/buildMeta.js | `Courses` (courses.dfy) | record datatype, function and lemmas |
| lib/sortTriggers.js | `SortTriggers` (sort_triggers.dfy) | table, recursive search and lemmas |
| lib/synonyms.js | `Synonyms` (synonyms.dfy) | class `SynonymTables` whose constructor runs the loading loops |
| lib/search.js | `Search` (search.dfy) | class `SearchModule` holding `synonymLookup`; class `Product` whose `meta` field is written in place |
| pages/api/ask.js | `Ask` (ask.dfy) | keyword-resolution loop as a method; filter, follow-up and intro as functions |
| components/ChatUI.js | `ChatClient` (chat_client.dfy) | functions and lemmas |

Four support modules are shared:

- `Strings` models `toLowerCase`, `trim`, `includes`, `split`, `indexOf` and
  `replace` on ASCII text.
- `Numbers` models `parseInt` with no radix and the decimal text of a count.
- `Registry` describes a dictionary that a sequence of entries writes into,
  where the last write wins. Both synonym tables are such dictionaries.
- `CourseFilters` holds the seat, month and location checks. The two
  `searchCourses` variants share them word for word.

Modelling choices:

- Dates are whole days (`Day = int`). JavaScript's `new Date(str)` is a
  parameter `parse: string -> Option<Day>`, and "today" is a parameter.
- A product field (name, dates, seat count) that is absent, or not a string,
  is `None`. The handler's `keyword`, `month` and `location` arguments are
  either absent (`None`) or a string; other JSON values are listed under
  "Left out".
- The catalogue file of lib/synonyms.js is a parameter: a sequence of
  (category, [(code, full name)]).
- Text is ASCII. Lower-casing maps only `A`-`Z`. White space is space, tab,
  line feed, carriage return, vertical tab and form feed.

Notes on the code:

- `normalizeText` collapses each run of white space to a single space; it
  does not remove white space.
- `parseDate` takes segment 1 of the split on "-", which for a range is the
  end date and for an ISO date is the month.
- The only dialogue rule in pages/api/ask.js is the two-slot follow-up.

## Model

| member | source | states |
|---|---|---|
| Normalize.NormalizeText | lib/utils/normalize.js:1-7 | `normalizeText`: lower-case, delete every character outside a-z, 0-9 and white space, turn each white-space run into one space, trim; NormalizeCanonical, NormalizeIdempotent and CanonicalFixed characterise the result |
| Normalize.NormalizeCanonical | lib/utils/normalize.js:1-7 | every result uses only a-z, 0-9 and single inner spaces, with no space at either end |
| Normalize.NormalizeAlphabet | lib/utils/normalize.js:3-5 | every character of the result is a lower-case letter, a digit or the plain space |
| Normalize.NormalizeSpacing | lib/utils/normalize.js:5-6 | the result has no leading or trailing space and never two spaces in a row |
| Normalize.NormalizeIdempotent | lib/utils/normalize.js:1-7 | normalising twice gives the same text as normalising once |
| Normalize.CanonicalFixed | lib/utils/normalize.js:1-7 | a canonical string is its own normal form |
| Normalize.FixedPoint | lib/utils/normalize.js:1-7 | a string that passes the character-by-character canonical check is its own normal form |
| Normalize.NormalizeEmpty | lib/utils/normalize.js:2 | the empty string normalises to the empty string |
| Normalize.NormalizeCaseInsensitive | lib/utils/normalize.js:3 | a string and its lower-cased form normalise alike |
| Normalize.NormalizeDeletes | lib/utils/normalize.js:4 | a character outside `[a-z0-9\s]` after lower-casing is deleted without leaving a space |
| Normalize.NormalizeWhitespaceRun | lib/utils/normalize.js:5 | any non-empty run of white space normalises as one plain space |
| Normalize.ReplaceKeepsNormal | lib/utils/normalize.js:3-4 | replacing a pattern by text with the same letters and digits leaves the normal form unchanged |
| Normalize.NormalizeCoordinator | lib/utils/normalize.js:4 | "co-ordinator" becomes "coordinator" |
| Normalize.NormalizeNebosh | lib/utils/normalize.js:3-5 | "NEBOSH-General" becomes "neboshgeneral", while "nebosh general" keeps its space |
| Normalize.NormalizeTabExample | lib/utils/normalize.js:3-5 | "Mental\t Health" becomes "mental health" |
| Location.ExtractLocation | lib/utils/location.js:3-6 | the result never contains "\|" and has no white space at either end |
| Location.LocationWithoutBar | lib/utils/location.js:4-5 | a name with no "\|" gives "Unknown" |
| Location.LocationAfterOnlyBar | lib/utils/location.js:4-5 | with exactly one "\|", the result is the trimmed text after it |
| Location.LocationBetweenBars | lib/utils/location.js:4-5 | the result is the trimmed text between the first two bars, whatever comes before and after |
| Location.LocationSegment | lib/utils/location.js:4-5 | for any name with a bar, the result is the trimmed text from the first bar up to the next bar or the end |
| Dates.RangeEnd | lib/utils/date.js:6-9 | the selected segment has no "-", and a string with no "-" is kept as is |
| Dates.FirstLine | lib/utils/date.js:11-13 | the selected line has no line feed and adds no character; a single line is kept |
| Dates.DateText | lib/utils/date.js:6-13 | the text handed to the date parser contains neither "-" nor a line feed |
| Dates.ParseDate | lib/utils/date.js:3-4 | an absent or empty date gives null |
| Dates.DateTextRange | lib/utils/date.js:6-9 | with a "-", segment 1 of the split on "-", trimmed, is kept, and then its first line |
| Dates.DateTextLines | lib/utils/date.js:11-13 | without a "-", the first line, trimmed, is kept |
| Dates.DateTextPlain | lib/utils/date.js:6-13 | text with neither "-" nor a line feed is passed on untouched |
| Dates.ParseDateCalls | lib/utils/date.js:15-16 | a non-empty date string gives exactly what the parser returns for the selected text, and never fails |
| Dates.RangeExample | lib/utils/date.js:6-9 | "5 May - 9 May" selects "9 May" |
| Dates.IsoExample | lib/utils/date.js:6-9 | "2025-05-05" selects "05" |
| Dates.RangeBeforeLinesExample | lib/utils/date.js:6-13 | the hyphen step runs first: "1 May\n2 May - 3 May" selects "3 May" |
| Courses.TypeName | lib/courses/buildMeta.js:21 | the type is spelt "refresher" exactly for the refresher type |
| Courses.TypeOf | lib/courses/buildMeta.js:21 | the type is refresher iff the lower-cased name contains "refresher" |
| Courses.LowerName | lib/search.js:69 | the lower-cased name keeps the name's length, and a missing name gives "" |
| Courses.BuildMeta | lib/courses/buildMeta.js:6-24 | the meta exists iff the product has a name; start and end are `parseDate` of the two date fields; the seat count is `parseInt` of its field; location is `extractLocation(name)`; type is derived from the name; never both upcoming and ongoing; an ongoing course lasts at least one day |
| Courses.MetaOf | lib/courses/buildMeta.js:11-23 | the meta record from the parsed dates, today and the name: the seat count read by `parseInt`, upcoming, ongoing, the duration in whole days, the type and the location; MetaDates, NoStartNoFlags and MetaLocation characterise it |
| Courses.MetaDates | lib/courses/buildMeta.js:16-20 | upcoming iff the start parses and is after today; ongoing iff both parse and today lies between them inclusive; the duration exists iff both parse and equals end minus start plus one |
| Courses.NoStartNoFlags | lib/courses/buildMeta.js:16-20 | with no start date, the course is neither upcoming nor ongoing and has no duration |
| Courses.MetaLocation | lib/courses/buildMeta.js:22 | the location is the trimmed second bar-separated segment of the name |
| Numbers.ParseInt | lib/search.js:88 | `parseInt` with no radix: leading white space, an optional sign, a "0x" prefix for base 16, then the longest run of digits; no digit is NaN (None); ParseDecimal, ParseNoDigits, ParseStopsAtNonDigit and ParseNegative characterise it |
| Numbers.ParseDecimal | lib/courses/buildMeta.js:13 | `parseInt` reads the decimal text of a count back as that count |
| Numbers.ParseNoDigits | lib/search.js:88 | text with no digit reads as NaN |
| Numbers.ParseStopsAtNonDigit | lib/search.js:88 | `parseInt` stops at the first non-digit after the number |
| Numbers.ParseNegative | lib/search.js:88 | a leading minus negates the count |
| Numbers.DecimalString | pages/api/ask.js:122 | the decimal text is non-empty digits with no leading zero |
| SortTriggers.FirstKey | lib/sortTriggers.js:16-19 | the loop over the table entries in declaration order, returning the first key with a phrase the text includes, or null; FirstKeySpec characterises it |
| SortTriggers.DetectSortKey | lib/sortTriggers.js:14-20 | `detectSortKey`: that loop over the normalised message; DetectSpec and DetectNormalized characterise it |
| SortTriggers.FirstKeySpec | lib/sortTriggers.js:16-19 | the scan returns the first key, in table order, with a phrase that occurs, and null when no key has one |
| SortTriggers.DetectSpec | lib/sortTriggers.js:14-19 | null iff no trigger phrase occurs in the normalised message; otherwise a key of the table with an occurring phrase, and no earlier key has one |
| SortTriggers.DetectNormalized | lib/sortTriggers.js:15 | a message and its normal form select the same key |
| SortTriggers.PhrasesFixed | lib/sortTriggers.js:3-12 | every trigger phrase is its own normal form |
| SortTriggers.PhraseSelectsItsKey | lib/sortTriggers.js:3-19 | each trigger phrase sent alone selects the key it is listed under |
| SortTriggers.CheapestAndLatest | lib/sortTriggers.js:3-17 | "cheapest and latest" gives "cheapest": the first declared key wins |
| Registry.Put | lib/synonyms.js:13-19 | writing keys with one value keeps the old keys and adds the new ones, with the value on the new keys |
| Registry.FillAppend | lib/synonyms.js:9-10 | loading two runs of entries one after the other is loading their concatenation |
| Registry.FillKeys | lib/synonyms.js:9-111 | a key is in the table iff some entry writes it |
| Registry.FillLast | lib/synonyms.js:9-111 | a key holds the value of the last entry that writes it |
| Registry.FillValue | lib/synonyms.js:9-111 | every value in the table comes from the last entry that writes its key |
| Synonyms.SynonymTables.constructor | lib/synonyms.js:9-111 | after loading, both tables equal the last-write-wins dictionaries of the catalogue's courses in order |
| Synonyms.SynonymTables.RegisterCategory | lib/synonyms.js:10-110 | one category's courses are written into both tables in order |
| Synonyms.SynonymTables.Register | lib/synonyms.js:11-109 | one course sets its full name under its code and writes all its lookup keys to its code |
| Synonyms.SynonymTables.RegisterPhrases | lib/synonyms.js:22-109 | the hand-written phrases for a code are normalised and written to that code; the keyword table is unchanged |
| Synonyms.KeywordTable | lib/synonyms.js:9-11 | `keywordSynonyms` after loading: each code written with its full name, the last write winning; KeywordCodes and KeywordLastName characterise it |
| Synonyms.KeywordCodes | lib/synonyms.js:9-11 | `keywordSynonyms` has a key exactly for each code in the catalogue |
| Synonyms.KeywordLastName | lib/synonyms.js:9-11 | `keywordSynonyms[code]` is the full name of the last catalogue entry with that code |
| Synonyms.LookupTable | lib/synonyms.js:9-110 | `synonymLookup` after loading: each course writes its normalised code, full name, both co-ordinator spellings and its hand-written phrases to its code; LookupKeysNormal, LookupValues, LookupLastWriter and ResolvesOnlyToCatalogCodes characterise it |
| Synonyms.LookupKeysNormal | lib/synonyms.js:13-109 | every key of `synonymLookup` is its own normal form |
| Synonyms.LookupValues | lib/synonyms.js:13-109 | each key resolves to the code of the last course that wrote it |
| Synonyms.LookupLastWriter | lib/synonyms.js:13-109 | the last course to write a key decides its code |
| Synonyms.ResolvesOnlyToCatalogCodes | lib/synonyms.js:9-110 | every value of `synonymLookup` is a code in the catalogue |
| Synonyms.CoordinatorVariants | lib/synonyms.js:13-19 | both co-ordinator spellings normalise to the normalised full name, so lines 18-19 add no key |
| Synonyms.CodeAndNameResolve | lib/synonyms.js:14-15 | unless a later course overwrites them, the normalised code and full name resolve to the code |
| Synonyms.PhraseResolves | lib/synonyms.js:22-109 | unless a later course overwrites it, a hand-written phrase of a catalogue code resolves to that code |
| Synonyms.TripleSts | lib/synonyms.js:29-32 | with "sssts" in the catalogue, "triple sts" resolves to "sssts" |
| Synonyms.SpacedTwc | lib/synonyms.js:44 | with "twc" in the catalogue, "t w c" resolves to "twc" |
| CourseFilters.OptionalLower | lib/search.js:63-64 | an optional parameter is switched on iff it is present and not blank after lower-casing and trimming |
| CourseFilters.SeatsOk | lib/search.js:88-90 | with seats required, the count must be present, non-empty and not read as zero or less; SeatsOkIff, SeatsDecimal and SeatsUnreadable characterise it |
| CourseFilters.SeatsOkIff | lib/search.js:88-90 | with seats required, a product is rejected exactly when the count is missing or empty or reads as zero or less |
| CourseFilters.SeatsDecimal | lib/search.js:88-90 | a decimal count passes the seat check iff it is positive |
| CourseFilters.SeatsUnreadable | lib/search.js:88-90 | a count `parseInt` cannot read passes, since NaN is not at most 0 |
| CourseFilters.MonthWord | lib/search.js:93-94 | `match[1].toLowerCase()` for the month pattern at word boundaries, ignoring case, or None without a match; MonthWordSpec characterises it |
| CourseFilters.MonthWordSpec | lib/search.js:93-94 | the found word is the first month name occurring at word boundaries, ignoring case; none iff no month name occurs |
| CourseFilters.MonthOk | lib/search.js:92-95 | with a month requested and a non-empty start date, the first month word of the date must equal the request; MonthOfRange and MonthNotAName are about it |
| CourseFilters.MonthOfRange | lib/search.js:93-94 | "30 June - 2 July" is a June date: the first month named decides |
| CourseFilters.MonthNotAName | lib/search.js:92-95 | a requested month that is no month name rejects every dated product |
| CourseFilters.LocationOk | lib/search.js:97 | with a location requested, the lower-cased name must contain it; Search.SelectedMembers and Ask.OldFilterMembers are stated through it |
| Search.Lookup | lib/search.js:15-30 | `synonymLookup` after the load-time loop: each entry writes its lower-cased abbreviation, its lower-cased trimmed full name and, for the two NEBOSH entries, two extra phrases, all to the abbreviation; LookupValue, AbbreviationResolves, FullNameResolves and NeboshPhrasesResolve characterise it |
| Search.Resolve | lib/search.js:58-62 | the keyword resolves iff its trimmed, lower-cased form is a key with a non-empty value; the key found is that value |
| Search.WellFormedLookup | lib/search.js:15-30 | every resolved abbreviation has a full name, and no key is empty |
| Search.LookupValue | lib/search.js:15-30 | each key resolves to the abbreviation of the last entry writing it, which has a full name |
| Search.AbbreviationResolves | lib/search.js:16-18 | each abbreviation resolves to itself |
| Search.FullNameResolves | lib/search.js:16-19 | each full name, lower-cased and trimmed, resolves to its abbreviation |
| Search.NeboshPhrasesResolve | lib/search.js:22-29 | "nebosh general" and "neboshgeneral" resolve to "nebosh-general"; "nebosh construction" and "neboshconstruction" resolve to "nebosh-construction" |
| Search.NeboshAloneUnresolved | lib/search.js:58-60 | "nebosh" alone, in any case, is no key, so the search returns nothing |
| Search.KeywordMatch | lib/search.js:72-84 | the name must contain the resolved full name, the abbreviation or the raw input, or, for the two NEBOSH abbreviations, both "nebosh" and the qualifier; Search.SelectedMembers is stated through it |
| Search.TypeOk | lib/search.js:86 | a truthy type filter must equal the type derived from the name |
| Search.Expired | lib/search.js:99-108 | the date cut-off of the callback; ExpiredIff characterises it |
| Search.ExpiredIff | lib/search.js:103-108 | a product is cut off iff its end date parses and is past, or its end date does not parse and its start date parses and is past |
| Search.Accepts | lib/search.js:68-108 | every check of the filter callback in source order: keyword, type, seats, month, location and date cut-off; Visit and SelectedMembers are stated through it |
| Search.KeptNamed | lib/search.js:69-124 | a kept product has a non-empty name, so `extractLocation` cannot fail on it |
| Search.SearchMeta | lib/search.js:113-125 | the `_meta` record of a kept product; SearchMetaIsBuildMeta ties it to `buildMeta` |
| Search.SearchMetaIsBuildMeta | lib/search.js:113-125 | the meta written by the search is exactly `buildMeta` of the product |
| Search.Selected | lib/search.js:68-128 | `allProducts.filter(…)`: the products the callback accepts, in input order; SelectedMembers, SelectedAppend and SelectedShorter characterise it, and FilterProducts is proved equal to it |
| Search.SelectedAppend | lib/search.js:68 | the filter distributes over concatenation, so it keeps the input order |
| Search.SelectedMembers | lib/search.js:68-128 | a product is returned iff it is in the input, the keyword resolved, and every check passed |
| Search.SelectedShorter | lib/search.js:68 | the result is no longer than the input |
| Search.UnresolvedEmpty | lib/search.js:60 | an unresolved keyword returns nothing |
| Search.Product.constructor | lib/search.js:68 | a new product carries its record and no meta |
| Search.SearchModule.constructor | lib/search.js:15-30 | the lookup field equals the table built from the seven entries, and the table is well formed |
| Search.SearchModule.SearchCourses | lib/search.js:57-129 | the result is the filter of the products; each kept product's meta is `buildMeta` of it and every other product's meta is unchanged |
| Search.FilterProducts | lib/search.js:68-128 | the loop over the products returns the kept ones in order and writes meta only into them |
| Search.Visit | lib/search.js:68-127 | one product is kept iff every check passes, and only a kept product has its meta written |
| Ask.FirstKeyIn | pages/api/ask.js:29-30 | the `for…in` test in table order: an index found is at or after the start and names a key the input contains; FirstKeyInSpec adds that no earlier key is contained |
| Ask.FirstKeyInSpec | pages/api/ask.js:29-30 | the key found is the first key in table order that the input contains; none is contained when nothing is found |
| Ask.ResolveKeyword | pages/api/ask.js:25-35 | the loop with `break` gives the resolution of the trimmed, lower-cased keyword |
| Ask.Resolution | pages/api/ask.js:28-35 | the resolved keyword for a trimmed, lower-cased input; ResolutionSpec characterises it and ResolveKeyword is proved equal to it |
| Ask.ResolutionSpec | pages/api/ask.js:28-35 | the first occurrence of the first contained key is replaced by its full name and the whole is lower-cased; with no key the input is kept |
| Ask.EmptyResolution | pages/api/ask.js:28-35 | an empty keyword resolves to "" |
| Ask.TwcResolution | pages/api/ask.js:28-35 | "twc" becomes "temporary works coordinator" |
| Ask.OldSearchCourses | pages/api/ask.js:24-63 | the result is the filter of the products by the resolved keyword and the lower-cased optional month and location |
| Ask.AllWordsIn | pages/api/ask.js:45 | every word of the resolved keyword, split on single spaces, occurs in the name; OldResultWords and EmptyKeywordMatchesAll are about it |
| Ask.OldAccepts | pages/api/ask.js:41-61 | the filter callback: the word check, then the seat, month and location checks shared with lib/search.js, and no date cut-off |
| Ask.OldFilter | pages/api/ask.js:40-62 | `allProducts.filter(…)`: the records the callback accepts, in input order; OldFilterMembers and OldFilterAppend characterise it, and OldSearchCourses is proved equal to it |
| Ask.OldFilterAppend | pages/api/ask.js:40 | the filter distributes over concatenation, so it keeps the input order |
| Ask.OldFilterMembers | pages/api/ask.js:40-62 | a product is returned iff it is in the input and passes the word, seat, month and location checks |
| Ask.OldResultWords | pages/api/ask.js:45 | every returned name contains every space-separated word of the resolved keyword |
| Ask.EmptyKeywordMatchesAll | pages/api/ask.js:45 | an empty keyword puts no constraint on the name |
| Ask.NoDateCutoff | pages/api/ask.js:17-62 | the end date plays no part in the filter |
| Ask.NoStartCutoff | pages/api/ask.js:42-55 | without a month request, the start date plays no part either |
| Ask.SlotCount | pages/api/ask.js:103 | the number of truthy slots is at most 3, and 0 iff none is truthy |
| Ask.KnownParam | pages/api/ask.js:106 | the first truthy slot named back, keyword first, then month, then location, or null when none is truthy |
| Ask.FollowUp | pages/api/ask.js:103-111 | no follow-up when two or more slots are truthy; otherwise the thanks sentence around the known slot, or the generic prompt; FollowUpWhenFewSlots, FollowUpNothingKnown and FollowUpQuotesKnown characterise it |
| Ask.FollowUpWhenFewSlots | pages/api/ask.js:105 | a follow-up is sent iff no two of keyword, month and location are truthy |
| Ask.FollowUpNothingKnown | pages/api/ask.js:106-109 | with no slot known, the generic prompt is sent |
| Ask.FollowUpQuotesKnown | pages/api/ask.js:106-108 | with one slot known, the reply quotes that slot's value |
| Ask.HandlerKeyword | pages/api/ask.js:113 | an exact key, ignoring case, becomes its full name; any other keyword is passed on as given; an absent one stays absent |
| Ask.HandlerKeywordTwc | pages/api/ask.js:113 | "TWC" becomes "Temporary Works Coordinator" |
| Ask.HandlerKeywordUnknown | pages/api/ask.js:113 | "asbestos" is passed on unchanged |
| Ask.Intro | pages/api/ask.js:119-125 | the first sentence of the reply: the count, the keyword and a singular or plural noun, or the apology when nothing was found; IntroCountReadsBack, IntroPlural and IntroApology characterise it |
| Ask.IntroCountReadsBack | pages/api/ask.js:121-122 | the number in the intro reads back with `parseInt` as the count of results |
| Ask.IntroPlural | pages/api/ask.js:122 | the noun is "courses" iff there is more than one result |
| Ask.IntroApology | pages/api/ask.js:123-124 | no results give the apology, which names the keyword |
| Ask.ReplyIntro | pages/api/ask.js:113-125 | the intro for the handler's keyword, with an absent keyword printed as "undefined"; IntroWithoutKeyword is about it |
| Ask.IntroWithoutKeyword | pages/api/ask.js:113-125 | with no keyword, the intro names "undefined" courses |
| ChatClient.PayloadWindow | components/ChatUI.js:97-99 | the payload is the first message then the last min(6, n-1) of the rest, in order; at most 7 messages |
| ChatClient.PayloadEndsWithNewest | components/ChatUI.js:93-99 | the payload ends with the newest message |
| ChatClient.ShortHistoryWhole | components/ChatUI.js:98-99 | a history of at most 7 messages is sent whole |
| ChatClient.SendMessage | components/ChatUI.js:87-103 | blank input sends nothing; otherwise the trimmed text is appended as a user message and the window of the new list is sent |
| ChatClient.TypedPayload | components/ChatUI.js:93-99 | for the widget's list, the payload starts with the system message, has at most 7 messages and ends with the typed message |
| ChatClient.VoiceSend | components/ChatUI.js:223-228 | the transcript is appended untrimmed |
| ChatClient.VoiceSendsEverything | components/ChatUI.js:226-228 | the voice path sends the whole history, more than the typed window once it is long |
| ChatClient.DetectType | components/ChatUI.js:108-115 | refresher iff a positive phrase occurs in the lower-cased text; standard iff none does and a negation does |
| ChatClient.DetectIgnoresCase | components/ChatUI.js:109 | lower-casing the text first changes nothing |
| ChatClient.NoRefresherCourses | components/ChatUI.js:111-113 | "no refresher courses" counts as a refresher request, since positives are checked first |
| ChatClient.NoRefresher | components/ChatUI.js:113-115 | "no refresher", in any case, is a standard request |
| ChatClient.BuildRequest | components/ChatUI.js:116-163 | the body carries the messages, and a `type` field iff some phrase was detected, with value "refresher" or "standard" |
| ChatClient.RequestTypeRefresher | components/ChatUI.js:161-163 | the type sent is "refresher" iff a positive phrase occurs |

## Left out

- Floating point: `parseFloat(product.price)` and the price field of the meta are not modelled.
- Courses.BuildMeta: the duration is the difference of whole days plus one. `Math.round` of a millisecond quotient, and daylight-saving shifts, are not modelled.
- Dates.ParseDate: JavaScript's `new Date(str)` is an uninterpreted parameter, so the model does not say which texts parse.
- Numeric JSON values: a date, name or seat count that arrives as a number or another non-string is modelled as absent. For the dates this is what `parseDate` does (lib/utils/date.js:4). Elsewhere the source behaves differently. A non-string name throws at `toLowerCase` (lib/search.js:69, pages/api/ask.js:41). A non-string start date throws at `match` when a month is requested (lib/search.js:93, pages/api/ask.js:53). In both cases the model treats the field as missing instead. A positive numeric seat count passes the seat check in the source, since `parseInt` converts it, but the model rejects it as missing.
- Search.Resolve: a dictionary lookup sees only the keys the table holds. In the source, a lower-cased, trimmed keyword that names a property every JavaScript object inherits (`constructor`, `__proto__`) finds that property at lib/search.js:59. `keywordSynonyms[keywordKey]` is then `undefined`, and line 62 throws a TypeError. The model reports such a keyword as unresolved, so Search.SearchModule.SearchCourses returns [] where the source throws.
- Ask.HandlerKeyword: the same holds at pages/api/ask.js:113. For the keyword "constructor" or "__proto__", in any case, the lookup finds an inherited property, `searchCourses` throws at line 25, and the handler answers with status 500 (lines 147-149). The model passes the keyword on unchanged. The keyword is also modelled as absent or a string only. A JSON `null` keyword skips the parameter default `''` of line 24, which applies only to `undefined`, and throws at line 25. A number or boolean keyword throws at line 113 itself. Both reach the 500 answer, and the model has no such input.
- Ask.ReplyIntro: its absent keyword stands for a missing field only. A `null` or non-string keyword, for which the source answers with an error, is not modelled, and neither is a non-string month or location, which throws at lines 37-38 once the search runs.
- Text is ASCII only. Unicode case mapping, Unicode white space in `trim` and `\s`, and `\b` on non-ASCII letters are not modelled.
- CourseFilters.MonthWord: the regular expression is modelled as the leftmost match, trying the month names in order at each position. JavaScript's backtracking engine is not modelled.
- The handler's network code, the OpenAI and catalogue fetches, `JSON.parse` of the function arguments, HTTP statuses and the HTML `courseBox` markup are I/O and presentation.
- `isFutureDate` (pages/api/ask.js:17-22) is never called, so it is not modelled.
- Everything else in components/ChatUI.js is DOM, React state and speech code: bubbles, speech synthesis and recognition, and the spoken-intro regex. hooks/useChat.js and pages/index.js are not part of this model.
- The catalogue file data/coursesCatalog.json is not part of this model. It is a parameter of `Synonyms.SynonymTables.constructor`.
- Search.SearchModule.SearchCourses: the `today` parameter replaces `new Date()` with `setHours(0, 0, 0, 0)`, and the comparisons are on whole days.
- Synonyms.TripleSts: like the other per-phrase lemmas, it needs the hand-written phrase not to be overwritten by a later course. The catalogue is a parameter, so this cannot be ruled out.
- The sort orders that a detected sort key would apply, and the confirmation and subject-change dialogue, are not in the modelled code.
