# Duty pharmacy site: a verified model of its core

The site lists the pharmacies on duty in each Turkish city and district. It folds Turkish letters
to Latin ones so that place names match whatever spelling a URL uses. It answers a URL with
capitals with a 301 to the lower-case URL. It keeps the lists it fetched in a key-value cache and in
cookie maps, and three scripts write sitemaps of its pages. This project models those parts in
Dafny and proves what they promise:

- `TranslateEnglish` is the replace chain of `utils/translateEnglish.js`, stage by stage in source
  order. It is proved equal to a per-character folding table, except for the combining dot above
  (U+0307), which the chain drops after an `i` (the first pair, then all the rest). The in-place
  rewrite of every property of the parameter object is a class method.
- `EqualsTool` is the fold, lower-case and trim comparison of `utils/equalsTool.js`, and `MatchKey`
  is the inline key of the router loops, which does not trim. It proves that the comparison is an
  equivalence, what it ignores (case, Turkish letters, padding) and what it keeps (interior white
  space), and that it agrees with the inline key on trimmed names.
- `DutyTTLGenerate` gives the milliseconds until 09:00:01 local time, `day` calendar days ahead.
  Local time is a day number and a millisecond of that day.
- `CacheManage` is the key-value store: a class over a map of entries with optional expiry instants,
  and an explicit clock.
- `PharmacyModel` is the pharmacy record, `fromJson` and `getLocation`. Each field keeps the JSON type
  the API sent, so a name or city sent as `null` or as a number is not a string.
- `IndexRouter`, `IndexRouterOld` and `IndexRouterV1` hold the helpers of the three routers that
  are not Express plumbing:
  - grouping pharmacies by city;
  - the 301 canonicalisation decision;
  - capitalisation of the city segment;
  - the first-match loops that resolve a segment to a place name (`PlaceMatch`);
  - the per-city counts;
  - cookie-map read-through with `{ ...m, [k]: v }` (`SpreadCache`);
  - the loops that fill the cookie maps.
- `SitemapGenerator`, `SitemapMainDistrictCityNear` and `SitemapPharmacies` are the three sitemap
  scripts, following version 0.9 of the sitemaps.org protocol. Their shared parts are
  `Sitemap` (header, `<url>` block and footer) and `SitemapCities` (the `districtsByCity` object and
  the nested city and district loops). Each script's `sitemap +=` loops are a method proved to write
  `Document(entries, date)`, and the lemmas state what the entries are.

The remaining modules are shared helpers:

- `Wrappers`: `Option` and `Result`;
- `JsString`: JavaScript's `toLowerCase`, `trim`, `split` and `join`, with ASCII-only case mapping;
- `Seqs`: first-occurrence collection, filtering, and sequence lemmas.

Where the plain description of the system and the code differ, the model follows the code:

- `DutyTTLGenerate` always counts `day` calendar days ahead rather than to the next 09:00:01.
- The district handler of `routes/indexRouter.js` never resolves the district.
- The city handler throws when no city matches.
- `/onSelectCity` in `routes/indexRouterV1.js` offers nothing on a cache miss (see Findings).
- The V1 router's `translateEnglish` calls on primitive strings change nothing.

## Model

| member | source | states |
|---|---|---|
| TranslateEnglish.FoldChar | utils/translateEnglish.js:5-28 | the folding table: each of the twelve Turkish letters goes to its Latin base letter, upper to upper and lower to lower; every other character, the combining dot included, stays; no Turkish letter comes out |
| TranslateEnglish.StageAIsReplaceChain | utils/translateEnglish.js:4-13 | the ten global replacements before line 14, applied one after the other to the whole string, equal the per-character stage that folds ç, Ç, ğ, Ğ and ı |
| TranslateEnglish.StageBIsReplaceChain | utils/translateEnglish.js:15-28 | the fourteen global replacements between lines 14 and 29 equal the per-character stage that folds the other seven letters |
| TranslateEnglish.ReplaceFirstDot | utils/translateEnglish.js:14 | a plain-string `replace` removes at most one character |
| TranslateEnglish.ReplaceFirstDotAt | utils/translateEnglish.js:14 | the pair that loses its dot is the first `i`+U+0307, and the rest of the string stays |
| TranslateEnglish.ReplaceAllDot | utils/translateEnglish.js:29 | the global replacement never lengthens the string |
| TranslateEnglish.NoDottedIUnchanged | utils/translateEnglish.js:14-29 | with no `i`+U+0307 pair, neither dot removal changes anything |
| TranslateEnglish.FirstDotRemovalCount | utils/translateEnglish.js:14 | every character the first-pair removal drops is a combining dot |
| TranslateEnglish.AllDotRemovalCount | utils/translateEnglish.js:29 | every character the global removal drops is a combining dot |
| TranslateEnglish.DotRemovalKeeps | utils/translateEnglish.js:14-29 | a property of every character survives both removals, which only drop characters |
| TranslateEnglish.StagesKeepDots | utils/translateEnglish.js:4-28 | neither letter stage adds or removes a combining dot |
| TranslateEnglish.FoldLength | utils/translateEnglish.js:3-29 | the fold never lengthens a string, and it shortens it only by the combining dots it drops |
| TranslateEnglish.FoldLengthWithoutDot | utils/translateEnglish.js:3-29 | without a combining dot the length is kept |
| TranslateEnglish.FoldRemovesTurkish | utils/translateEnglish.js:3-29 | none of the twelve Turkish letters is left in the output |
| TranslateEnglish.FoldAddsNoCapital | utils/translateEnglish.js:3-29 | a string with no capital, ASCII or Turkish, folds to one with no ASCII capital: case is preserved |
| TranslateEnglish.FoldWithoutDot | utils/translateEnglish.js:3-29 | on strings without U+0307 the whole chain is the table applied character by character |
| TranslateEnglish.MapFoldConcat | utils/translateEnglish.js:5-28 | the table applied to a concatenation is the concatenation of the tables applied to each part |
| TranslateEnglish.FoldConcat | utils/translateEnglish.js:3-29 | on dot-free strings the fold maps "" to "" and distributes over concatenation |
| TranslateEnglish.FoldIdempotent | utils/translateEnglish.js:3-29 | on dot-free strings a second pass is a no-op |
| TranslateEnglish.ReplaceFirstDotPrefix | utils/translateEnglish.js:14 | the first-pair replace passes over a prefix holding neither `i` nor U+0307 |
| TranslateEnglish.ReplaceFirstDotSuffix | utils/translateEnglish.js:14 | the first-pair replace passes over a suffix holding no U+0307 |
| TranslateEnglish.ReplaceAllDotPrefix | utils/translateEnglish.js:29 | the global replace passes over a prefix holding neither `i` nor U+0307 |
| TranslateEnglish.ReplaceAllDotSuffix | utils/translateEnglish.js:29 | the global replace passes over a suffix holding no U+0307 |
| TranslateEnglish.FoldPadding | utils/translateEnglish.js:4-29 | white space around any string, dotted or not, comes out of the chain unchanged and in place |
| TranslateEnglish.ReplaceFirstDotEnds | utils/translateEnglish.js:14 | the first character is kept, and the last one unless a final U+0307 is dropped, leaving its `i` last |
| TranslateEnglish.ReplaceAllDotEnds | utils/translateEnglish.js:29 | the same for the global replace |
| TranslateEnglish.FoldKeepsTrimmed | utils/translateEnglish.js:4-29 | a string with no white space at either end folds to one with none |
| TranslateEnglish.DottedCaseFolds | utils/translateEnglish.js:14-16 | "i"+U+0307 folds to "i", while "I"+U+0307 is kept, since only the precomposed U+0130 becomes "I" |
| TranslateEnglish.DottedCaseFoldsBeforeX | utils/translateEnglish.js:14-16 | the same with a letter after the dot: "i"+U+0307+"x" folds to "ix" and "I"+U+0307+"x" is kept |
| TranslateEnglish.StackedDotsNotIdempotent | utils/translateEnglish.js:14-29 | `i` with three combining dots folds to a dotted `i`, which a second pass turns into `i`, so the fold is not idempotent in general |
| TranslateEnglish.FoldFields | utils/translateEnglish.js:2-3 | every field folded, no key added or removed |
| TranslateEnglish.PartlyFoldedStep | utils/translateEnglish.js:2-3 | one iteration of `for…in` folds its own key and changes no other key |
| TranslateEnglish.Params.constructor | utils/translateEnglish.js:1 | the parameter object holds the given fields |
| TranslateEnglish.TranslateEnglish | utils/translateEnglish.js:1-33 | the same object comes back, with every field folded and the key set unchanged, whatever the enumeration order |
| JsString.ToLowerCase | utils/equalsTool.js:5 | `toLowerCase` on ASCII: same length, each capital replaced by its small letter, every other character kept |
| JsString.LowerFixedIff | utils/equalsTool.js:5 | a string is its own lower-case form exactly when it has no ASCII capital |
| JsString.LowerIdempotent | utils/equalsTool.js:5 | lower-casing twice is lower-casing once |
| JsString.LowerConcat | scripts/sitemapGeneratorPharmacies.js:22-23 | lower-casing distributes over concatenation |
| JsString.Trim | utils/equalsTool.js:5 | `trim` leaves no white space at either end and never lengthens |
| JsString.TrimStart | utils/equalsTool.js:5 | only leading white space is removed, and all of it |
| JsString.TrimEnd | utils/equalsTool.js:5 | only trailing white space is removed, and all of it |
| JsString.TrimOfTrimmed | utils/equalsTool.js:5 | a trimmed string is its own trim |
| JsString.TrimIgnoresPadding | utils/equalsTool.js:5 | white space put around any string does not change its trim |
| JsString.Split | scripts/sitemapGeneratorPharmacies.js:18 | `split` on one character gives one more piece than separators, none holding one |
| JsString.SplitJoinIsReplace | scripts/sitemapGeneratorPharmacies.js:18-19 | splitting on one character and joining with another replaces the first by the second |
| JsString.CountAfterReplace | scripts/sitemapGeneratorPharmacies.js:18-19 | after the replacement the target character is counted once per replaced character plus its old count, and the replaced one is gone |
| JsString.SplitAtFirst | models/dutyPharmacyModel.js:44-46 | a separator after a separator-free prefix ends the first piece there |
| EqualsTool.CharKey | utils/equalsTool.js:5 | a character's key is neither an ASCII capital nor a Turkish letter |
| EqualsTool.MatchKeyWithoutDot | utils/equalsTool.js:5 | without a combining dot, the key is built character by character |
| EqualsTool.MatchKeyIsCanonical | utils/equalsTool.js:5 | keys carry no ASCII capital and no Turkish letter |
| EqualsTool.EqualsToolIsEquivalence | utils/equalsTool.js:4-6 | `equalsTool` is reflexive, symmetric and transitive |
| EqualsTool.MatchKeyIff | utils/equalsTool.js:5 | two dot-free names have the same inline key exactly when they agree character by character on the key |
| EqualsTool.VariantsAreEqual | utils/equalsTool.js:5 | dot-free spellings that differ only in ASCII case or Turkish letters are equal |
| EqualsTool.DottedCaseMatters | utils/equalsTool.js:5 | with a combining dot the case of an `i` matters: "i"+U+0307 and "I"+U+0307 differ only in ASCII case and are not equal |
| EqualsTool.IstanbulExample | utils/equalsTool.js:5 | "İSTANBUL" equals "istanbul" |
| EqualsTool.CanakkaleExample | utils/equalsTool.js:5 | "Çanakkale" equals "canakkale" |
| EqualsTool.CharKeyWhitespace | utils/equalsTool.js:5 | a key character is white space exactly when the original character is |
| EqualsTool.WhitespaceKey | utils/equalsTool.js:5 | white space is its own key |
| EqualsTool.PaddingIgnored | utils/equalsTool.js:5 | leading and trailing white space never changes the compared key, for every name, combining dots included |
| EqualsTool.InteriorWhitespaceMatters | utils/equalsTool.js:5 | "a b" and "ab" are not equal: interior white space is kept |
| EqualsTool.EqualsKeyOfTrimmed | utils/equalsTool.js:5 | on any name with no white space at either end the trim step changes nothing |
| EqualsTool.AgreesWithInlineMatch | routes/indexRouterOld.js:184-189 | on any two names trimmed at both ends `equalsTool` holds exactly when the inline keys are equal |
| DutyTTLGenerate.DutyTTLGenerate | utils/dutyTTLGenerate.js:5-12 | `day` defaults to 1; the result is positive for `day` at least 1 and lies in (day·D + B − D, day·D + B], with D one day and B 09:00:01 in ms |
| DutyTTLGenerate.NextDayAddsADay | utils/dutyTTLGenerate.js:8 | one more day adds exactly 86 400 000 ms |
| DutyTTLGenerate.LaterSameDay | utils/dutyTTLGenerate.js:10 | later on the same day the result shrinks by exactly the time passed |
| DutyTTLGenerate.SameDayAfterBoundary | utils/dutyTTLGenerate.js:8-10 | with `day = 0` the result is at most 0 from 09:00:01 on |
| DutyTTLGenerate.AtSevenInTheMorning | utils/dutyTTLGenerate.js:8-9 | at 07:00 the default call gives 26 h 0 min 1 s |
| DutyTTLGenerate.SkipsTodaysBoundary | utils/dutyTTLGenerate.js:8-9 | before 09:00:01 the default call still aims at tomorrow: more than a day, not the time to the next 09:00:01 |
| CacheManage.ExpiryOf | utils/cacheManage.js:22-23 | a null ttl, or 0, stores no expiry; any other ttl expires that many ms after now |
| CacheManage.Read | utils/cacheManage.js:18-21 | a hit exactly when the entry exists and is before its expiry, with the stored value |
| CacheManage.Written | utils/cacheManage.js:22-24 | the written key holds the new entry and every other key is unchanged |
| CacheManage.Cache.constructor | utils/cacheManage.js:4-10 | the store starts empty |
| CacheManage.Cache.GetCache | utils/cacheManage.js:18-21 | returns what `Read` gives for the store and instant, and deletes the entry when it has expired |
| CacheManage.Pruned | utils/cacheManage.js:18-21 | the store after a read loses exactly the entry found expired, all others kept |
| CacheManage.PruneKeepsReads | utils/cacheManage.js:18-21 | deleting an expired entry on a read changes what no later read gives, for any name |
| CacheManage.Cache.SetCache | utils/cacheManage.js:22-25 | returns exactly its value argument, and the store becomes `Written(old store, …)` |
| CacheManage.Cache.DeleteCache | utils/cacheManage.js:26-28 | the store loses exactly that key |
| CacheManage.ReadAfterWriteNoExpiry | utils/cacheManage.js:22-23 | a value written with no ttl (the default) or ttl 0 reads back at every later instant |
| CacheManage.ReadAfterWriteWithTtl | utils/cacheManage.js:23 | a value written with a ttl reads back exactly before set time plus ttl |
| CacheManage.WriteFrame | utils/cacheManage.js:22-24 | writing one name leaves what every other name reads unchanged |
| CacheManage.DeleteMisses | utils/cacheManage.js:26-27 | after a delete the name misses and every other name reads as before |
| CacheManage.ExpiredStaysMissing | utils/cacheManage.js:18-21 | once a miss, always a miss as the clock moves forward |
| CacheManage.CacheNamesIndependent | utils/cacheManage.js:12-15 | writing either cache name never changes what the other reads |
| PharmacyModel.Text | models/dutyPharmacyModel.js:28-42 | a field has the string methods exactly when the API sent it as a JSON string |
| PharmacyModel.FromJson | models/dutyPharmacyModel.js:28-42 | `pharmacyId` becomes `id`, `pharmacyName` becomes `name`, the other nine keys are copied under their own names, the phone verbatim, in constructor order |
| PharmacyModel.FromJsonIgnoresOtherKeys | models/dutyPharmacyModel.js:28-42 | adding or changing a key outside the eleven read never changes the record |
| PharmacyModel.FromJsonDeterminedByKeys | models/dutyPharmacyModel.js:28-42 | two objects that agree on the eleven keys give the same record |
| PharmacyModel.GetLocation | models/dutyPharmacyModel.js:44-46 | the latitude as `String()` prints it ("undefined" and "null" included), then ", ", then the longitude |
| PharmacyModel.LocationSplitsBack | models/dutyPharmacyModel.js:44-46 | when neither coordinate holds a comma, splitting the location at the comma gives both back |
| SpreadCache.Spread | routes/indexRouterOld.js:30-33 | `{ ...m, [k]: v }` has m's keys plus k, k holds v, and every other key keeps its value |
| SpreadCache.ReadThrough | routes/indexRouterOld.js:112-118 | the service is called exactly on a miss; a hit uses the cookie's list and writes nothing; a call that throws leaves the list at its initial `[]`, writes nothing and ends the `try` block (lines 105-106); a miss that answers writes the spread map exactly when the list is defined |
| SpreadCache.DefaultedMissWrites | routes/indexRouterOld.js:120-126 | with `?? []` a miss whose call answers always writes the cookie, and the list used is never undefined |
| SpreadCache.ReadThroughSettles | routes/indexRouterOld.js:195-201 | after a miss wrote the cookie, the next request for that key is a hit on the same list |
| SpreadCache.ReadThroughFrame | routes/indexRouterOld.js:238-244 | a read-through for one key never changes what the cookie holds for another |
| PlaceMatch.Keys | routes/indexRouterOld.js:187 | the inline key of every candidate, in order |
| PlaceMatch.FirstEqual | routes/indexRouterOld.js:185-193 | the index of the first equal key; none exactly when no key is equal |
| PlaceMatch.FirstMatch | routes/indexRouterOld.js:184-193 | the first candidate whose fold-lower key equals the segment's, with no match before it; none exactly when nothing matches |
| PlaceMatch.Resolve | routes/indexRouterOld.js:225-226 | the first matching candidate, or the segment itself when none matches |
| PlaceMatch.ResolveKeepsKey | routes/indexRouterOld.js:225-226 | whatever is shown matches the segment |
| PlaceMatch.ResolveFindsFirst | routes/indexRouterOld.js:189-191 | a matching candidate with no match before it is the one shown |
| PlaceMatch.FindFirst | routes/indexRouterOld.js:208-218 | the index loop with `break` finds exactly the first match, or nothing |
| IndexRouter.ByCity | routes/indexRouter.js:31-42 | the grouping reference: each city that occurs, with its pharmacies in input order and without repeats |
| IndexRouter.GetPharmaciesByCities | routes/indexRouter.js:31-42 | the loop builds exactly `ByCity(pharmacies)`; it also models routes/indexRouterV1.js:46-56, where `translateEnglish` of the city string gives the string back, so the key is the raw city |
| IndexRouter.NoneCollected | routes/indexRouter.js:37 | before a city's first pharmacy its group is empty, as `result[city] = []` creates it |
| IndexRouter.ByCityOfNothing | routes/indexRouter.js:32-41 | an empty list gives `{}` |
| IndexRouter.ByCityPartition | routes/indexRouter.js:35-38 | every pharmacy's city is a key, and a group holds exactly the pharmacies of its city |
| IndexRouter.ByCityGroupsNonEmpty | routes/indexRouter.js:37-38 | no group is empty |
| IndexRouter.ByCityGroupsOrdered | routes/indexRouter.js:33-38 | no group holds the same object twice, and groups keep input order |
| IndexRouter.EqualRecordsBothKept | routes/indexRouter.js:38 | two objects with equal fields are both kept: `includes` compares identity |
| IndexRouter.RepeatedObjectKeptOnce | routes/indexRouter.js:38 | the same object listed twice is pushed once |
| IndexRouter.CityDecision | routes/indexRouter.js:103-111 | the canonical city URL, and a 301 exactly when the folded city differs from its lower case; the middlewares at routes/indexRouterOld.js:93-101 and routes/indexRouterV1.js:117-125 are the same |
| IndexRouter.DistrictDecision | routes/indexRouter.js:160-170 | the canonical district URL (no district segment when the district is empty), and a 301 exactly when either folded parameter differs from its lower case; the middlewares at routes/indexRouterOld.js:153-163 and routes/indexRouterV1.js:169-180 are the same |
| IndexRouter.CityMiddleware | routes/indexRouter.js:103-111 | folds the parameters in place and decides on the folded city |
| IndexRouter.DistrictMiddleware | routes/indexRouter.js:160-170 | folds the parameters in place and decides on the folded city and district |
| IndexRouter.FoldCharCapital | utils/translateEnglish.js:5-28 | a character folds to an ASCII capital exactly when it is a capital, ASCII or Turkish |
| IndexRouter.FoldedHasUpperIff | routes/indexRouter.js:107 | a dot-free folded segment differs from its lower case exactly when the raw segment has a capital |
| IndexRouter.CityRedirectIff | routes/indexRouter.js:105-108 | a dot-free city segment is redirected exactly when it holds a capital, to `/nobetcieczane/` plus its key |
| IndexRouter.DistrictRedirectIff | routes/indexRouter.js:162-167 | dot-free segments are redirected exactly when the city or the district holds a capital |
| IndexRouter.KeyFoldsLower | routes/indexRouter.js:105-107 | the fold of any key is already lower case |
| IndexRouter.CanonicalNotRedirected | routes/indexRouter.js:105-166 | following the URL either middleware builds (lines 105-107 and 162-166) never leads to a second 301 |
| IndexRouter.KeyIsFixed | routes/indexRouter.js:105 | without a combining dot the key is its own fold |
| IndexRouter.CanonicalIsFixedPoint | routes/indexRouter.js:105-107 | a dot-free segment's canonical URL decides on itself: same URL, no redirect |
| IndexRouter.Capitalize | routes/indexRouter.js:121 | throws exactly on the empty segment; otherwise only the first character can change, to its capital, and the rest is kept |
| IndexRouter.CharKeyOfUpper | routes/indexRouter.js:121-140 | capitalising a character never changes its key |
| IndexRouter.CapitalizeKeepsKey | routes/indexRouter.js:121-140 | capitalising a dot-free city never changes which names it matches |
| IndexRouter.CityPage | routes/indexRouter.js:120-144 | the page renders exactly when `find` matches a city, and then shows the first match |
| IndexRouter.CityPageRenders | routes/indexRouter.js:138-152 | a non-empty dot-free segment that matches a returned name renders that first matching name |
| IndexRouter.CityPageThrows | routes/indexRouter.js:121-144 | an empty segment, or a failed service call, ends in a `TypeError` |
| IndexRouter.ShownCityMatches | routes/indexRouter.js:198-215 | for a dot-free segment, the shown city always matches it |
| IndexRouter.DottedCityMissesSegment | routes/indexRouter.js:198-215 | for the segment "i"+U+0307+"x" with no cities, the shown city "I"+U+0307+"x" does not match the segment |
| IndexRouter.DistrictPage | routes/indexRouter.js:198-216 | the shown city comes from the index loop over the cities, with the handler's city as fallback; the district is shown as given, since `currentDistrict` is never assigned |
| IndexRouterOld.HomeFillSnoc | routes/indexRouterOld.js:24-35 | the home loop over one more city is one more step |
| IndexRouterOld.HomeThrowSticks | routes/indexRouterOld.js:15-39 | after a call throws, the rest of the cities change nothing |
| IndexRouterOld.FillHomeCache | routes/indexRouterOld.js:24-35 | the loop ends in exactly the state `HomeFill` describes, including a stop at a throwing call |
| IndexRouterOld.HomeFillKeeps | routes/indexRouterOld.js:26 | entries already in the map are never replaced, and only cities missing from it are asked about |
| IndexRouterOld.HomeFillKeys | routes/indexRouterOld.js:24-35 | with no throw, the keys are the old keys plus every listed city |
| IndexRouterOld.HomeFillAsked | routes/indexRouterOld.js:26-27 | with no throw, the service is asked about exactly the cities missing at the start, once each, in first-occurrence order |
| IndexRouterOld.HomeFillAnswers | routes/indexRouterOld.js:27-33 | each city asked about holds its answer `?? []` |
| IndexRouterOld.PharmacyCountByCity | routes/indexRouterOld.js:41-46 | one entry per city in order, with the length of its stored list or 0 |
| IndexRouterOld.CountsAfterFill | routes/indexRouterOld.js:24-46 | after a home loop with no throw, a city's count is that of the list already stored, or of the service's answer |
| IndexRouterOld.DistrictPage | routes/indexRouterOld.js:184-226 | the shown district is the first match among the city's districts (lines 184-193) and the shown city the first match among the cities (lines 208-218), each falling back to the raw segment (lines 225-226) |
| IndexRouterOld.CookieName | utils/cookieManage.js:5-8 | only `SELECTED_CITY` and `SELECTABLE_DISTRICTS` have names; every other member gives the cookie name "undefined" |
| IndexRouterOld.CityVisit | routes/indexRouterOld.js:103-126 | with the pharmacy and district maps in cookies of the given names: each list is the cookie's on a hit and the answer `?? []` on a miss; a thrown pharmacy call leaves both lists `[]` and the cookies unchanged; otherwise the pharmacy cookie is written and then the district cookie, each answered miss storing the cookie's map with the city's list added; no other cookie changes |
| IndexRouterOld.SeparateCookiesKeepLists | routes/indexRouterOld.js:107-126 | with two distinct cookie names, the second visit of a city shows the pharmacies and districts the first one fetched |
| IndexRouterOld.SharedCookieMixesLists | routes/indexRouterOld.js:107-126 | as written both maps live in the cookie "undefined": the second visit of a city shows its districts as its pharmacies |
| IndexRouterV1.SameCity | routes/indexRouterV1.js:22-24 | the filter's test: the pharmacy's city and the target are equal after ASCII lower-casing |
| IndexRouterV1.FilterByCity | routes/indexRouterV1.js:22-24 | throws exactly when some pharmacy's city is not a string (`undefined`, `null`, a number, a boolean, an array or object); otherwise keeps the matching pharmacies in order |
| IndexRouterV1.NonTextCityThrows | routes/indexRouterV1.js:22-24 | a city sent as `null`, a number or a boolean makes the filter throw a `TypeError` |
| IndexRouterV1.FilterByCityKeeps | routes/indexRouterV1.js:22-24 | a pharmacy is kept exactly when it is in the list and its city matches |
| IndexRouterV1.FillSnoc | routes/indexRouterV1.js:18-37 | the fill loop over one more city is one more step |
| IndexRouterV1.FillThrowSticks | routes/indexRouterV1.js:12-43 | after the filter throws, the rest of the cities change nothing |
| IndexRouterV1.FillCaches | routes/indexRouterV1.js:15-38 | the loop ends in exactly the state `Fill` describes |
| IndexRouterV1.FillWithCityNotText | routes/indexRouterV1.js:20-24 | a pharmacy whose city is not a string makes the first new city throw before any map changes |
| IndexRouterV1.FillWithTextCities | routes/indexRouterV1.js:18-28 | with every city a string nothing throws and every listed city ends up in the pharmacy map |
| IndexRouterV1.FillKeepsPharmacies | routes/indexRouterV1.js:20 | a cached city's pharmacy list is never replaced |
| IndexRouterV1.FillKeepsDistricts | routes/indexRouterV1.js:30 | a cached city's district list is never replaced |
| IndexRouterV1.FillAsksOnlyNew | routes/indexRouterV1.js:20-32 | districts are fetched only for listed cities in neither map |
| IndexRouterV1.FillFiltered | routes/indexRouterV1.js:22-28 | each city new to the pharmacy map holds its filtered list |
| IndexRouterV1.FillAsked | routes/indexRouterV1.js:20-32 | districts are fetched for exactly the cities in neither map, once each, in first-occurrence order |
| IndexRouterV1.FillDistrictKeys | routes/indexRouterV1.js:30-35 | the district map gains exactly the fetched cities, each with what the service gave |
| IndexRouterV1.SelectableDistrictsAsWritten | routes/indexRouterV1.js:97-107 | as written: a hit offers the cached list, a miss offers nothing but still writes the cookie |
| IndexRouterV1.FirstSelectionOffersNothing | routes/indexRouterV1.js:103-107 | the first selection of a city with districts offers none |
| IndexRouterV1.SelectableDistricts | routes/indexRouterV1.js:97-107 | as intended: the cached or fetched list is offered, and the same cookie is written |
| IndexRouterV1.SelectableDistrictsSettle | routes/indexRouterV1.js:97-107 | the intended version writes the same cookie as the code, agrees with it on a hit, and the next selection offers the same list |
| Sitemap.Blocks | scripts/sitemapGenerator.js:19-31 | one block per page, in order, all with the same date |
| Sitemap.Document | scripts/sitemapGenerator.js:15-34 | the text starts with the XML declaration and the `<urlset>` opening and ends with the closing tag |
| Sitemap.RenderSnoc | scripts/sitemapGenerator.js:19-24 | one more page appends its block |
| Sitemap.RenderConcat | scripts/sitemapGenerator.js:18-33 | rendering a concatenation renders each part in turn |
| Sitemap.RenderAt | scripts/sitemapGenerator.js:18-33 | page i's block is exactly in place i, between the earlier and the later blocks |
| Sitemap.BlockHoldsLoc | scripts/sitemapGenerator.js:20-27 | the location appears verbatim right after `<loc>`, with no escaping |
| Sitemap.PriorityTexts | scripts/sitemapGenerator.js:23 | "1.0" and "0.5" are in the protocol's 0.0 to 1.0 range, "N/A" is not |
| SitemapCities.Order | scripts/sitemapGenerator.js:10-13 | the keys of `districtsByCity` are exactly the city slugs |
| SitemapCities.BuildDistrictsByCity | scripts/sitemapGenerator.js:10-13 | the loop builds the key order `Order` and the map `DistrictsByCity`; scripts/sitemapGeneratorMainDistrictCityNear.js:10-13 runs the same loop |
| SitemapCities.OrderFacts | scripts/sitemapGenerator.js:12-18 | the keys come once each, in first-insertion order, and are exactly the keys of the map |
| SitemapCities.LastAssignmentWins | scripts/sitemapGenerator.js:12 | a repeated city slug keeps only the districts of its last assignment |
| SitemapCities.DistrictLoc | scripts/sitemapGenerator.js:20-27 | a district's location is its city's location, "/" and the district slug |
| SitemapCities.DistrictUrls | scripts/sitemapGenerator.js:25-32 | one page per district, in list order |
| SitemapCities.CityUrlsAt | scripts/sitemapGenerator.js:18-33 | each city's page comes right after the pages of the cities before it and is followed by its districts' pages |
| SitemapCities.CityUrlsCount | scripts/sitemapGenerator.js:18-33 | one page per city plus one per district of each |
| SitemapCities.CityUrlsPriority | scripts/sitemapGenerator.js:23-30 | every city and district page carries the one priority given |
| SitemapCities.RenderGroup | scripts/sitemapGenerator.js:19-32 | a city's group renders as its block followed by its districts' blocks |
| SitemapCities.AppendDistrictBlocks | scripts/sitemapGenerator.js:25-32 | the inner loop appends the blocks of the city's districts |
| SitemapCities.AppendCityGroup | scripts/sitemapGenerator.js:19-32 | one outer turn appends the city's block then its districts' |
| SitemapCities.AppendCityBlocks | scripts/sitemapGenerator.js:18-33 | the outer loop appends every city group in key order; scripts/sitemapGeneratorMainDistrictCityNear.js:30-45 runs the same loops |
| SitemapGenerator.Generate | scripts/sitemapGenerator.js:7-34 | the text is the document of the city and district pages, all with priority "N/A" |
| SitemapGenerator.EntriesCount | scripts/sitemapGenerator.js:12-33 | one block per distinct city slug plus one per district of it |
| SitemapGenerator.EntriesPriority | scripts/sitemapGenerator.js:23-30 | every block has priority "N/A", outside the protocol's range |
| SitemapMainDistrictCityNear.RenderFixed | scripts/sitemapGeneratorMainDistrictCityNear.js:18-29 | the fixed part is the root's block then the nearest-pharmacy page's |
| SitemapMainDistrictCityNear.AppendFixedBlocks | scripts/sitemapGeneratorMainDistrictCityNear.js:18-29 | appends exactly those two blocks |
| SitemapMainDistrictCityNear.Generate | scripts/sitemapGeneratorMainDistrictCityNear.js:7-46 | the text is the document of the two fixed pages followed by the city and district pages |
| SitemapMainDistrictCityNear.EntriesCount | scripts/sitemapGeneratorMainDistrictCityNear.js:12-45 | 2 plus one per distinct city slug plus one per district of it |
| SitemapMainDistrictCityNear.EntriesStart | scripts/sitemapGeneratorMainDistrictCityNear.js:18-29 | the root comes first with priority 1.0, `/enyakinnobetcieczane` second with 0.5 |
| SitemapMainDistrictCityNear.EntriesPriority | scripts/sitemapGeneratorMainDistrictCityNear.js:35-42 | every page after the fixed two has priority 0.5, and every priority lies in the protocol's range |
| SitemapPharmacies.NamePart | scripts/sitemapGeneratorPharmacies.js:18-19 | `split(" ").join("-")` replaces every space by a hyphen |
| SitemapPharmacies.Slug | scripts/sitemapGeneratorPharmacies.js:20-23 | in the model, the slug has one character per name character, then one hyphen, then one per character of the id's `String()` text ("undefined" when absent) |
| SitemapPharmacies.NamedSnoc | scripts/sitemapGeneratorPharmacies.js:16-29 | one more named pharmacy adds its page |
| SitemapPharmacies.PharmacyUrls | scripts/sitemapGeneratorPharmacies.js:16-29 | one page per pharmacy |
| SitemapPharmacies.PharmacyUrlsAt | scripts/sitemapGeneratorPharmacies.js:16-29 | page k is pharmacy k's, so the pages are in list order |
| SitemapPharmacies.PharmaciesSitemap | scripts/sitemapGeneratorPharmacies.js:7-30 | an empty list fails before any output; a pharmacy whose name is not a string (`undefined`, `null`, a number, ...) fails with a `TypeError`; otherwise the document of the pharmacies' pages |
| SitemapPharmacies.AppendPharmacyBlocks | scripts/sitemapGeneratorPharmacies.js:16-29 | stops exactly at a pharmacy whose name is not a string; otherwise appends every pharmacy's block |
| SitemapPharmacies.NonTextNameFails | scripts/sitemapGeneratorPharmacies.js:16-18 | a name sent as `null`, a number or a boolean makes the script fail with a `TypeError` |
| SitemapPharmacies.Generate | scripts/sitemapGeneratorPharmacies.js:9-30 | the script gives exactly `PharmaciesSitemap` |
| SitemapPharmacies.SlugParts | scripts/sitemapGeneratorPharmacies.js:20-23 | the slug is the lower-cased name part, a hyphen, and the lower-cased id |
| SitemapPharmacies.SlugLayout | scripts/sitemapGeneratorPharmacies.js:18-23 | every name character stays in place, a space as a hyphen and a capital as its small letter; then one hyphen and the id; nothing is trimmed |
| SitemapPharmacies.NamePartHyphens | scripts/sitemapGeneratorPharmacies.js:18-19 | the name part has one hyphen per space besides its own, and no space |
| SitemapPharmacies.SlugKeepsNonAscii | scripts/sitemapGeneratorPharmacies.js:22-23 | in the model every character other than an ASCII capital and the space stays as it is: ş stays ş and is not folded to s; capitals outside ASCII are not mapped (see Left out on case mapping) |
| SitemapPharmacies.SlugIsLower | scripts/sitemapGeneratorPharmacies.js:22-23 | the slug holds no ASCII capital |

## Left out

- Express plumbing is not modelled: route registration, `res.render`, `req.flash`, redirects as HTTP actions, and `async`/`await` sequencing. Only the helpers inside the routes are.
- Cookies are plain maps, the `getCookie` result is an `Option` of one, and `setCookie` is the value it writes. Of `utils/cookieManage.js` the model keeps the names of `CookieNames` (`CookieName`) and, for the city page, a jar of cookies by name (`CityVisit`). The cookie named "undefined" that the three routers share for `CookieNames.PHARMACIES` and `CookieNames.DISTRICTS` is shown for the older city page only (see Findings); the other routers' read-throughs take each map as a separate parameter.
- Keyv and the file-backed store are not modelled (`utils/cacheManage.js:4-10`). The store is an in-memory map and the clock is a parameter. The Keyv TTL semantics are assumed: a null or 0 ttl never expires, an entry is a miss from set time plus ttl on, and a read that finds it expired deletes it.
- JSON values pass through `JSON.stringify` and `JSON.parse` unchanged. Values that do not round-trip, such as `undefined` members, dates and NaN, are not modelled.
- A pharmacy field that is a number, an array or an object carries the text `String()` gives it; number formatting and the joining of arrays are not modelled.
- IndexRouter.GetPharmaciesByCities: as a model of `routes/indexRouterV1.js:50`, it relies on `translateEnglish(pharmacy.city)` giving the city back, which holds only for a primitive string. On an object or array city, its `for…in` folds the string members in place and throws on a member that is not a string. The model instead keys that city by its `String()` text, and does not capture the mutation or the throw.
- The network clients in `services/` are not part of this model. Their replies are parameters: a `result` list or a thrown error (`SpreadCache.Reply`). The reply shapes (`.result`, `.cities`, `.text`) are reduced to the lists of texts the loops read.
- IndexRouterOld.HomeFill and IndexRouterV1.FillCaches: each router is modelled against the reply shape it was written for. The older router reads the `resJson` wrapper of `services/DutyPharmacyServiceOld.js` (`.result`); the intermediate router takes the cities as texts. Both routers import `services/DutyPharmacyService.js`, which answers with bare arrays of city records. Against that service, `citiesJson.result ?? []` is always `[]`, and in the intermediate router a city record keys the cookie as "[object Object]" and makes `toLowerCase` throw. The model does not capture that mismatch.
- Time zones, DST and Date rollover are not modelled. Every day has 86 400 000 ms.
- Unicode case mapping is exact on ASCII only (`toLowerCase`, `toLocaleUpperCase`, `toLocaleLowerCase("en-US")`). Other characters are left unchanged.
- Latitude and longitude are text, and float formatting is not modelled.
- `for…in` over an object visits integer-like keys first in JavaScript. The model takes keys in insertion order, so city slugs that look like array indices are out of scope.
- Inherited properties are not modelled: a segment such as `constructor`, which `m[k]` finds on `Object.prototype`, is taken as a miss.
- The `cachedPharmacies.length` branches are not modelled (`routes/indexRouterOld.js:19-22`, `routes/indexRouter.js:15`, `routes/indexRouterV1.js:15`). A cookie object has no `length`, so the loop branch always runs.
- IndexRouterV1.FillCaches: the `getDistricts` call is a total function that never throws. `FilterByCity`'s `TypeError` is the only error modelled in that loop.
- IndexRouterV1.SelectableDistricts: `getDistricts` is taken to answer with a list; an `undefined` answer and a throw (routes/indexRouterV1.js:103-110) are not modelled.
- IndexRouterV1.SelectableDistrictsAsWritten: the same holds; only an answered list is modelled.
- IndexRouter.CityPage: `getDistricts` failing is folded into `fetched` being `None`. This is the same effect as any other failure in the `try`.
- `public/js/global.js` is browser UI and is not part of this model.
- For the sitemaps, the file system, console logging and `new Date()` are left out. The date text is a parameter.
- The sitemap scripts read `.slug` from city and district entries. The slug lists are taken as inputs rather than modelling that service call.
- Sitemap.Block: locations are inserted without XML entity escaping, as the scripts do. No property is claimed about well-formed XML.

## Findings

| source | as written | input that shows it | evidently intended | confidence | as-written member | corrected member |
|---|---|---|---|---|---|---|
| routes/indexRouterV1.js:103 | on a cache miss the fetched districts go into a `const districts` local to the `else` block, so the outer `districts` written at line 107 stays `[]` | first selection of a city not in the district cookie, e.g. "Adana" answered with ["Seyhan", "Ceyhan"] | the fetched list is offered, as in routes/indexRouterOld.js:78-83 | high, not executed | IndexRouterV1.SelectableDistrictsAsWritten, IndexRouterV1.FirstSelectionOffersNothing | IndexRouterV1.SelectableDistricts |
| utils/cookieManage.js:5-8 | `CookieNames` has no `PHARMACIES` and no `DISTRICTS`, so both maps are kept in one cookie named "undefined" (routes/indexRouterOld.js:108-109, 117, 125), and the district map, written last, replaces the pharmacy map | visit a city page twice with fresh cookies: the second visit hits the cookie and shows the city's districts as its pharmacies | two cookies of their own, as the two constants' names say | high, not executed | IndexRouterOld.SharedCookieMixesLists | IndexRouterOld.SeparateCookiesKeepLists |
