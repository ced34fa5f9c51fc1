# SiteMapper, modelled in Dafny

SiteMapper is a browser extension that maps the pages of the website open
in the active tab. It probes five sources:
- `robots.txt`;
- the standard sitemap locations, following nested sitemaps;
- `sitemap.html`;
- the links of the open page;
- ten common paths such as `/about`.

It keeps every accepted path in a map from path to HTTP status and returns
the map as a list sorted by path. It can then HEAD-probe, in small batches,
the entries whose status is still unknown. The popup filters the list with
a segment-wise search pattern and with two visibility switches.

A background worker does two jobs:
- It keeps a per-tab page count and shows it on the toolbar badge.
- It validates the user's paid licence with a payment service. Validation
  uses a sliding one-hour rate limit, a minimum interval, a 24-hour cache
  stored obfuscated (base64, then reversed), a 3-day grace period and a
  bounded number of retries.

An older version of the popup is modelled next to the current one. It keeps
a plain set of paths, applies a simpler normaliser, and groups the sorted
list into Main, Sub and Deep pages.

The model is split into modules:
- Effects are passed in as inputs:
  - URL parsing, `decodeURIComponent`, HTTP answers, DOM extraction and the
    active tab are fields of the datatypes `Net.UrlEnv` and `Net.Web`;
  - the clock is the parameter `now`;
  - the payment service's answer, the stored cache and `JSON` are
    parameters of `License.LicenseValidator.ValidateLicense`.
- The two path mappers (`Mapper.SiteMapper` and
  `LegacyMapper.LegacySiteMapper`), the licence validator and the badge
  state are classes whose methods update their fields.
- Each method is proved against specification functions. For the mappers
  these are `AddAll`, `Accepted` and `CommonWrites`, over the run of
  candidates each probe yields. The properties of the source are proved
  about those functions as lemmas.

## Model

| member | source | states |
|---|---|---|
| Net.FetchWithTimeout | src/popup.js:491-510 | a URL that fails `isValidUrl` is refused with the scheme error and the network is not consulted; otherwise the result is exactly the network's answer, or a network error when the request fails or is aborted |
| Net.FetchRefusesBeforeNetwork | src/popup.js:492-494 | a URL refused by the scheme check gets the same refusal whatever the network would answer |
| Net.OkText | src/popup.js:515-518 | a body is returned exactly when the URL is valid and its GET succeeded with `response.ok`, and the body is that response's text |
| Text.LowerMeaning | src/popup.js:369 | `toLowerCase` keeps the length, leaves no upper-case ASCII letter, and changes exactly the upper-case letters, each into its lower-case partner |
| Text.Trim | src/popup.js:575 | `trim` leaves no whitespace at either end and never lengthens its input |
| Text.TrimSlice | src/popup.js:575 | what `trim` keeps is the contiguous slice of the input after its leading whitespace |
| Text.Collapse | src/popup.js:723 | `replace(/\s+/g, " ").trim()` always yields a collapsed string: single inner spaces only, none at the ends |
| Text.CollapseFixesCollapsed | src/popup.js:723 | collapsing leaves an already collapsed string unchanged |
| Text.CollapseIdempotent | src/popup.js:590 | collapsing twice equals collapsing once |
| Text.SquashKeepsWords | src/popup.js:723 | a space-free word present after the whitespace replacement was already present in the input |
| Text.SquashKeepsTimestamp | src/popup.js:718-723 | a date-time match after the whitespace replacement was already in the input |
| Text.CollapseKeepsTimestampFree | src/popup.js:718-723 | collapsing never creates a date-time match, so the timestamp check that comes before the clean-up still holds after it |
| Text.TimestampInSlice | src/popup.js:718 | a date-time match inside a slice is a match in the whole string |
| Text.Split | src/popup.js:519 | `split(sep)` yields at least one piece and no piece contains the separator |
| Text.JoinSplit | src/popup.js:519 | joining the pieces of `split` with the same separator gives back the input |
| Text.SplitJoin | src/popup.js:330 | splitting a join of separator-free pieces gives back the pieces |
| Text.SplitLength | popup.js:279-281 | `split("/").length` is one more than the number of "/" in the string |
| Text.NonEmpty | src/popup.js:330 | `filter(Boolean)` yields only non-empty pieces of the input, and never more pieces than the input had |
| Text.NonEmptyMembers | src/popup.js:330 | a piece is kept exactly when it is in the input and non-empty |
| Text.NonEmptyConcat | src/popup.js:330 | the non-empty pieces keep their input order: filtering a concatenation filters each part and concatenates the results |
| Text.LowerFixesLowercase | src/popup.js:369 | a string without upper-case ASCII letters is unchanged by `toLowerCase` |
| Ordinal.LessIrreflexive | src/popup.js:426-428 | the path order never puts a path before itself |
| Ordinal.LessTransitive | src/popup.js:426-428 | the path order is transitive |
| Ordinal.LessTotal | src/popup.js:426-428 | any two distinct paths are ordered one way or the other |
| Ordinal.LessAsymmetric | src/popup.js:426-428 | two paths are never each before the other |
| Ordinal.MinimumExists | popup.js:30 | every finite non-empty set of paths has a least element |
| Ordinal.SortedKeys | popup.js:30 | `Array.from(set).sort()`: every key exactly once, nothing else, in strictly increasing order |
| Robots.DirectiveLength | src/popup.js:522 | a recognised directive prefix never extends past the line |
| Robots.SkipSpaces | src/popup.js:522 | `\s*` ends at the first non-whitespace character after the directive |
| Robots.TokenEnd | src/popup.js:522 | the greedy `\S+` stops at the first whitespace character or at the end of the line |
| Robots.DirectiveLengthSound | src/popup.js:522 | the prefix found is `Allow:`, `Disallow:` or `Sitemap:` in some letter case |
| Robots.DirectiveLengthComplete | src/popup.js:522 | whenever a line begins with a directive in any case, that directive is the one found |
| Robots.ClassifySound | src/popup.js:521-532 | every line classified as a directive is matched by the regular expression, and the classified value is its captured group |
| Robots.ClassifyComplete | src/popup.js:521-532 | every line the regular expression matches is classified as a directive carrying exactly the captured group |
| Robots.RoutingIsCaseSensitive | src/popup.js:525-531 | a matched line goes to the sitemap parser exactly when the matched text starts with `Sitemap` as written, and to `addCleanPath` otherwise, lower-case `sitemap:` included |
| Robots.SkipSpacesAt | src/popup.js:522 | a whitespace run that ends before a non-whitespace character is exactly what `\s*` consumes |
| Robots.TokenEndAt | src/popup.js:522 | a maximal non-whitespace run is exactly what `\S+` captures |
| Robots.LowerPrefix | src/popup.js:522 | lower-casing commutes with taking a prefix |
| PathRules.NormalizePathname | src/popup.js:708-730 | every path the normaliser keeps is not noise, has no date-time text and is collapsed |
| PathRules.NormalizeKeepsCanonical | src/popup.js:708-730 | a pathname already in canonical form, which decoding leaves alone, is stored as it is |
| PathRules.CleanPath | src/popup.js:697-731 | a stored key comes from a candidate on the base URL's host and is acceptable; a candidate from another host, or one that fails to parse, yields nothing |
| PathRules.LegacyCleanPath | popup.js:223-244 | the older rule keeps the raw pathname of a same-host candidate exactly when it is not noise |
| PathRules.RulesAgreeOnPlainPaths | src/popup.js:708-730 | on a collapsed, timestamp-free pathname that decoding leaves alone, the current and older rules store the same key |
| PathRules.LegacyKeepsTimestamps | popup.js:234-242 | the older rule stores date-time-like paths that the current rule rejects |
| PathRules.Insert | src/popup.js:732-734 | first writer wins: existing entries keep their status, at most the one normalised key is added with the given status, and a foreign-host candidate changes nothing |
| PathRules.AddAllSnoc | src/popup.js:697-740 | adding one more candidate inserts it into the store built from the earlier ones |
| PathRules.AddAllConcat | src/popup.js:417-423 | running two batches of candidates one after the other is the same as running their concatenation |
| PathRules.AcceptedAreAcceptable | src/popup.js:725-734 | every accepted path has the shape the normaliser promises |
| PathRules.AcceptedSnoc | src/popup.js:697-740 | the accepted set of a longer run is the earlier set plus the new candidate's key |
| PathRules.InsertIntoUnion | src/popup.js:732-734 | inserting into the store described as accepted paths plus the initial map adds the new key to the accepted set |
| PathRules.InsertKeyIntoUnion | src/popup.js:732-734 | the same at the level of a single key |
| PathRules.AddAllIsUnion | src/popup.js:732-734 | after any run of `addCleanPath` calls, existing paths keep their status, newly accepted paths carry `null`, and nothing else is present |
| PathRules.AddAllOrderIrrelevant | src/popup.js:417-423 | the order in which two probes' candidates arrive does not change the final map |
| PathRules.NullsUnion | src/popup.js:732-734 | adding two accepted sets one after the other equals adding their union |
| PathRules.InsertUnderWrites | src/popup.js:686-688 | a first-writer-wins insert after the common-path overwrites acts as if it came before them |
| PathRules.InsertKeyUnderWrites | src/popup.js:686-688 | the same at the level of a single key |
| PathRules.InterleavingIrrelevant | src/popup.js:417-423 | however the probes' writes interleave under `Promise.all`, the final map is the initial map plus the accepted paths with `null`, overridden by the common-path writes |
| Mapper.RouteLoc | src/popup.js:574-596 | a `<loc>` text is skipped exactly when its decoded form contains a date-time; otherwise the routed URL is collapsed and timestamp-free; it is followed as a nested sitemap exactly when it ends in `.xml` and is valid, and handed to `addCleanPath` otherwise |
| Mapper.RouteLocPlain | src/popup.js:574-596 | a collapsed, timestamp-free location that decoding leaves alone is routed unchanged |
| Mapper.DecodedPlain | src/popup.js:575-582 | trimming and decoding leave such a location unchanged |
| Mapper.LegacyRouteLoc | popup.js:99-127 | the older route never skips a location, follows it exactly when it is a valid `.xml` URL, and trims it |
| Mapper.RoutesAgreeOnPlainLocs | src/popup.js:574-596 | on plain locations both versions route alike |
| Mapper.LegacyFollowsTimestamps | src/popup.js:585-587 | a date-time-like location is skipped by the current version and handed on by the older one |
| Mapper.SitemapAddsAreCandidates | src/popup.js:557-601 | every candidate a sitemap yields, at any nesting depth, is collapsed, timestamp-free, and not a sitemap URL that would be followed |
| Mapper.SitemapAddsNone | src/popup.js:559-562 | a sitemap whose URL is invalid or whose GET fails, or one beyond the nesting bound, adds nothing |
| Mapper.SitemapAddsSome | src/popup.js:564-574 | a fetched sitemap adds exactly what its `<loc>` and `<url>` texts add, one nesting level further down |
| Mapper.LocsAddsAreCandidates | src/popup.js:574-597 | the same for a list of `<loc>` texts |
| Mapper.LocAddsAreCandidates | src/popup.js:574-596 | the same for one `<loc>` text |
| Mapper.LineRouting | src/popup.js:521-532 | a matched robots line hands its captured value to the sitemap parser when it begins with `Sitemap` and the value is valid, to nowhere when it begins so and the value is invalid, and to `addCleanPath` otherwise |
| Mapper.UnmatchedLineIgnored | src/popup.js:522-523 | a line the directive pattern does not match contributes nothing |
| Mapper.ValidOnly | src/popup.js:603-623 | the links of `sitemap.html` that are passed on are exactly those that pass `isValidUrl` |
| Mapper.CommonHit | src/popup.js:680-692 | a common path records a status exactly when its URL is valid and the GET succeeded with `response.ok`, and that status is the response's |
| Mapper.CommonWritesExact | src/popup.js:666-695 | the common-path probe writes exactly the paths that answered ok, each with the status it answered |
| Mapper.DiscoveryOutcome | src/popup.js:412-428 | the map after the probes keeps every earlier path; each new non-common path is acceptable and carries `null`; each common path that answered ok carries its status; every other path keeps its earlier status |
| Mapper.SiteMapper.constructor | src/popup.js:397-400 | a mapper starts with its base URL and an empty map |
| Mapper.SiteMapper.AddCleanPath | src/popup.js:697-740 | the map becomes `Insert` of the candidate into the old map |
| Mapper.SiteMapper.ParseSitemapUrl | src/popup.js:557-601 | the map becomes the old map with every candidate of the sitemap added, nested sitemaps included |
| Mapper.SiteMapper.FollowLocs | src/popup.js:574-597 | the loop over the `<loc>` and `<url>` texts adds exactly their candidates, in order |
| Mapper.SiteMapper.FollowLoc | src/popup.js:575-596 | one location is skipped, followed or added, as `RouteLoc` says |
| Mapper.SiteMapper.GetRobotsTxt | src/popup.js:512-537 | the map gains exactly the candidates of the robots.txt lines, with `Sitemap` lines followed |
| Mapper.SiteMapper.GetSitemap | src/popup.js:539-555 | the map gains the candidates of `/sitemap.xml`, `/sitemap_index.xml` and `/sitemap/sitemap.xml` under the base URL, in that order |
| Mapper.SiteMapper.GetHtmlSitemap | src/popup.js:603-623 | the map gains the valid links of `sitemap.html` |
| Mapper.SiteMapper.ScanMetaTags | src/popup.js:625-664 | the map gains the links of the active tab only when that tab holds an `http` page and the injected script returned links |
| Mapper.SiteMapper.CheckCommonPaths | src/popup.js:666-695 | each common path that answered ok overwrites its entry with its status; nothing else changes |
| Mapper.SiteMapper.SortedEntries | src/popup.js:426-428 | the map as `{path, status}` records: one record per key with its status, in strictly increasing path order |
| Mapper.SiteMapper.GetAllPaths | src/popup.js:412-448 | an invalid base URL is refused and the map is untouched; otherwise the map is the discovered accepted paths with `null` plus the earlier map, overridden by the common-path writes, and the result lists it sorted |
| Mapper.SiteMapper.ProbeBatch | src/popup.js:458-487 | one batch: each of its entries is HEAD-probed and updated in place, and the status callback is made once per entry, in order |
| Mapper.SiteMapper.BatchCheckStatuses | src/popup.js:450-489 | the array ends as `Enriched` of its old contents; the callbacks are one per selected entry, in order; the batches are the selection cut into runs of `batchSize` |
| Mapper.SiteMapper.ProbeInBatches | src/popup.js:457-488 | the loop over the selection leaves the array as `ProbedAt` of its starting contents, makes one callback per selected entry in order, and uses the batches `Batches` cuts |
| Enrichment.FalsyIndices | src/popup.js:452 | the positions of the entries without a truthy status, all of them, increasing |
| Enrichment.SliceEnd | src/popup.js:452 | `slice(0, end)` never reaches past the list; a negative end counts from the back |
| Enrichment.Selection | src/popup.js:452 | only entries without a truthy status are selected, in order, with no gap before the last selected one |
| Enrichment.SelectionSize | src/popup.js:452 | the selection holds `maxChecks` entries, or every unknown one when there are fewer; a negative `maxChecks` drops that many from the end |
| Enrichment.BatchesCover | src/popup.js:457-460 | concatenating the batches gives back the selection, so every selected entry is probed once, in order |
| Enrichment.BatchesShape | src/popup.js:457-460 | every batch holds between 1 and `batchSize` entries, and all but the last are full |
| Enrichment.BatchesCount | src/popup.js:457 | the number of batches is the selection length divided by `batchSize`, rounded up |
| Enrichment.BatchesExact | src/popup.js:457-460 | a selection whose length is a whole number of batches is cut into exactly that many full batches |
| Enrichment.DefaultSchedule | src/popup.js:450-460 | with the default arguments and at least fifty unknown entries, exactly fifty are probed in ten batches of five |
| Enrichment.ProbeStatus | src/popup.js:463-484 | a non-zero response status is recorded as is; status 0 records 200 when the response is opaque and `null` otherwise; a failed or aborted probe records `null`; a recorded status is never 0 |
| Enrichment.ProbedAt | src/popup.js:473 | probing keeps the length and every path in place |
| Enrichment.ProbedAtSnoc | src/popup.js:473 | probing one more position changes that entry alone |
| Enrichment.Enriched | src/popup.js:450-489 | the list keeps its length after enrichment |
| Enrichment.EnrichedProperties | src/popup.js:450-489 | enrichment keeps every path, leaves entries with a truthy status untouched, changes only selected entries, never more than `maxChecks`, and leaves no selected entry with status 0 |
| Enrichment.Callbacks | src/popup.js:474-476 | one callback per probed position |
| Enrichment.CallbacksSnoc | src/popup.js:474-476 | one more probe adds one callback at the end |
| Enrichment.CallbacksConcat | src/popup.js:457-488 | the callbacks of consecutive batches concatenate |
| Enrichment.CallbacksReportEnriched | src/popup.js:474-476 | each callback carries the probed entry's path and the status the entry ends up with |
| Enrichment.StatusClassByHundreds | src/popup.js:1582-1589 | a status from 200 to 599 is shown by its hundreds digit, and every other status, including an unknown or failed one, as unknown |
| Settings.AlnumSuffix | src/popup.js:789 | the length of the run of ASCII letters and digits at the end of the path, and no longer |
| Settings.HasExtensionMeaning | src/popup.js:789 | the computed extension test holds exactly when some dot is followed by one or more ASCII letters or digits up to the end |
| Settings.XmlHasExtension | src/popup.js:784-791 | a path ending in `.xml`, in any case, has an extension |
| Settings.XmlIsNotHtml | src/popup.js:784-790 | a path ending in `.xml` is not a page ending |
| Settings.XmlHiddenByEitherSwitch | src/popup.js:783-797 | an `.xml` path is hidden as soon as either switch is on |
| Settings.NoExtensionShown | src/popup.js:783-797 | a path without an extension is always shown |
| Settings.HtmlShown | src/popup.js:783-797 | a path with a page ending is always shown |
| Settings.AllSwitchesOffShowsAll | src/popup.js:783-797 | with both switches off every path is shown |
| Settings.DefaultsShowPagesOnly | src/popup.js:746-751 | under the defaults a path is shown exactly when it has no extension or a page ending |
| Settings.MoreSwitchesHideMore | src/popup.js:783-797 | turning a switch on never shows a path that was hidden |
| Filter.Every | src/popup.js:376-387 | `every` holds exactly when the path has at least as many segments as the pattern and each pattern segment matches the path segment at the same position |
| Filter.MatchesMeaning | src/popup.js:355-393 | the empty pattern matches every path; a pattern containing "/" matches segment by segment; any other pattern matches as a case-insensitive substring |
| Filter.LowerKeepsSlash | src/popup.js:372 | lower-casing neither adds nor removes a "/" |
| Filter.LowerIdempotent | src/popup.js:380-386 | lower-casing twice is lower-casing once, so the segments compare alike whether or not they were already lowered |
| Filter.SplitLower | src/popup.js:373-380 | lower-casing commutes with splitting on "/" |
| Filter.NonEmptyLower | src/popup.js:373 | lower-casing commutes with dropping empty segments |
| Filter.SegmentMatchesLower | src/popup.js:380-386 | a segment test ignores the case of both the segment and the search |
| Filter.MatchesIgnoresPathCase | src/popup.js:369-392 | matching does not depend on the case of the path |
| Filter.MatchesIgnoresPatternCase | src/popup.js:323-331 | matching does not depend on the case of the pattern |
| Filter.BlogPattern | src/popup.js:329-330 | the pattern `/blog/` plus a wildcard compiles to the segments `blog` and the wildcard |
| Filter.BlogSegmentMatches | src/popup.js:386 | the segment `blog` matches itself and does not match `shop` |
| Filter.SegmentExampleMatch | src/popup.js:372-387 | the wildcard pattern under `blog` matches `/blog/my-post` |
| Filter.SegmentExampleTooFew | src/popup.js:378 | it rejects `/blog`, which has fewer segments than the pattern |
| Filter.SegmentExampleByPosition | src/popup.js:376-387 | it rejects `/shop/blog`, because segments are compared by position |
| Filter.SubstringExamples | src/popup.js:392 | `contact` matches `/contact-us` and `/about/contact` |
| Filter.SubstringMatch | src/popup.js:390-392 | a non-empty pattern without "/" matches every path whose lower-cased form contains the lower-cased pattern |
| Filter.SplitExample | src/popup.js:373 | a "/"-join of separator-free pieces splits back into those pieces |
| LegacyMapper.LegacyAcceptedConcat | popup.js:22-28 | the older accepted set of a concatenation is the union of the parts |
| LegacyMapper.LegacyAcceptedShape | popup.js:223-244 | every path the older rule keeps is not noise and is the pathname of a same-host candidate |
| LegacyMapper.CommonHits | popup.js:192-221 | a common path is added exactly when its URL passes `isValidUrl` and its GET, with the 2000 ms timeout, answered with `response.ok` |
| LegacyMapper.LegacySiteMapper.constructor | popup.js:2-5 | a mapper starts with its base URL and an empty set |
| LegacyMapper.LegacySiteMapper.AddCleanPath | popup.js:223-248 | the set gains the older rule's key for the candidate, if any |
| LegacyMapper.LegacySiteMapper.ParseSitemapUrl | popup.js:99-127 | the set gains every candidate of the sitemap under the older route |
| LegacyMapper.LegacySiteMapper.FollowLocs | popup.js:116-123 | the loop adds to the set exactly the older accepted paths of its locations' candidates |
| LegacyMapper.LegacySiteMapper.FollowLoc | popup.js:99-127 | one location is followed or added, as `LegacyRouteLoc` says |
| LegacyMapper.LegacySiteMapper.GetRobotsTxt | popup.js:54-79 | the set gains the candidates of the robots.txt lines |
| LegacyMapper.LegacySiteMapper.FollowLine | popup.js:63-74 | one robots.txt line: a valid `Sitemap` value is followed, any other matched value goes to `addCleanPath`, and an unmatched line adds nothing |
| LegacyMapper.LegacySiteMapper.GetSitemap | popup.js:81-97 | the set gains the candidates of the three standard sitemap locations |
| LegacyMapper.LegacySiteMapper.GetHtmlSitemap | popup.js:129-149 | the set gains the valid links of `sitemap.html` |
| LegacyMapper.LegacySiteMapper.ScanMetaTags | popup.js:151-190 | the set gains the active tab's links when that tab holds an `http` page |
| LegacyMapper.LegacySiteMapper.CheckCommonPaths | popup.js:192-221 | the set gains the common paths that answered ok, as written |
| LegacyMapper.LegacySiteMapper.GetAllPaths | popup.js:17-31 | an invalid base URL is refused and the set is untouched; otherwise the set is the older accepted paths plus the common hits, and the result is its elements, each once, strictly sorted |
| LegacyMapper.Grouped | popup.js:278-282 | a group holds exactly the listed paths with the right number of segments, and no more entries than the list |
| LegacyMapper.GroupedConcat | popup.js:278-282 | grouping a concatenation groups each part and concatenates the results, so a group keeps the list order |
| LegacyMapper.GroupedOne | popup.js:278-282 | a single path is kept exactly when its segment count selects the group |
| LegacyMapper.CountZero | popup.js:279 | a string has no "/" exactly when its count of "/" is zero |
| LegacyMapper.SectionByDepth | popup.js:278-282 | one "/" makes a Main page, two a Sub page, three or more a Deep page, and a path with no "/" belongs to no group |
| LegacyMapper.GroupsPartition | popup.js:278-282 | each pathname lands in exactly one group, and the group sizes add up to the list length |
| License.CacheAgePredicates | src/background.js:131-141 | without a timestamp neither predicate holds; a valid cache is in its grace period; both predicates only turn false as time passes; a cache aged from 24 to 72 hours is in grace but not valid |
| License.Recent | src/background.js:159-168 | the pruned window holds exactly the attempts later than one hour ago, in order, and never grows |
| License.RecentConcat | src/background.js:164 | pruning distributes over concatenation, so recorded order is kept |
| License.RecentNested | src/background.js:164 | pruning with an earlier cutoff and then a later one is pruning once with the later one |
| License.RecentKeepsNewest | src/background.js:164-171 | an attempt recorded now survives pruning at any cutoff before now |
| License.ReadCache | src/background.js:117-129 | a cached licence is read exactly when a non-empty entry is stored that decrypts and parses; it is the parsed licence with the stored timestamp, and every other case reads as `null` |
| License.CacheRoundTrip | src/background.js:109-129 | writing a licence to the cache and reading it back yields the licence with the write time, whenever its JSON text encodes |
| License.GateFor | src/background.js:31-42 | the rate limit refuses exactly when the pruned window is full; otherwise the call is too soon exactly when the last validation is under a minute old and no refresh is forced, and proceeds in every other case |
| License.TryBlockAsWritten | src/background.js:44-72 | the `try` block as written: valid cache first, then the grace-period shortcut, then the payment service |
| License.ForceRefreshIgnoredAsWritten | src/background.js:52-61 | as written, a forced refresh against a cache one second old is answered from the cache without a fetch, where the corrected block returns the fresh licence |
| License.ExpiredCacheServedAsWritten | src/background.js:57-61 | as written, a cache two days old, no longer valid, is served without a fetch, where the corrected block returns the fresh licence |
| License.TryBlockSpec | src/background.js:44-93 | the corrected block always replies; it fetches exactly when forced or when the cache cannot answer, and an unfetched call replies with the cache; success resets retries and writes the cache; a failed fetch inside the grace period replies with the cache, and grace applies only after a failure; any other failure replies `{ paid: false, error: true }`, and schedules a retry exactly while fewer than three are pending; the retry count never exceeds three |
| License.AttemptsStayBounded | src/background.js:31-47 | an attempt is recorded only when fewer than twenty remain after pruning, so the window never holds more than twenty |
| License.LicenseValidator.constructor | src/background.js:17-25 | a fresh validator is idle, with no retries, no attempts and last validation time 0 |
| License.LicenseValidator.CheckRateLimit | src/background.js:159-168 | the attempts become the pruned window, and another attempt is allowed exactly when it holds fewer than twenty |
| License.LicenseValidator.RecordValidationAttempt | src/background.js:170-172 | the attempt time is appended and nothing else changes |
| License.LicenseValidator.ValidateLicense | src/background.js:27-94 | a call made while validating returns nothing and changes nothing; otherwise, rate-limited and too-soon calls answer from the cache or with a `paid: false` marker after pruning; a call that proceeds records the attempt and the time, returns what the corrected `try` block returns, and updates the retry count; the flag is cleared on exit and the bounds are kept |
| Base64.CharToIndex | src/background.js:154 | a base64 character's index is below 64 and maps back to that character |
| Base64.IndexRoundTrip | src/background.js:146-154 | every index below 64 survives the trip to its character and back |
| Base64.Sextets | src/background.js:146 | every sextet is below 64; each full group of three characters gives four sextets, and a final group of one or two gives two or three |
| Base64.Btoa | src/background.js:146 | `btoa` succeeds exactly on Latin-1 text, and its output length is four times the number of three-byte groups, rounded up |
| Base64.Bytes | src/background.js:154 | decoded characters are Latin-1, three per group of four sextets and one or two for a final group of two or three |
| Base64.QuadRoundTrip | src/background.js:146-154 | four sextets decode to the three bytes that made them |
| Base64.BytesStep | src/background.js:154 | decoding a full group followed by more equals decoding each in turn |
| Base64.GroupRoundTrip | src/background.js:146-154 | one full group encodes and decodes back to itself |
| Base64.ShortRoundTrip | src/background.js:146-154 | a final group of one or two bytes encodes and decodes back to itself |
| Base64.SextetsRoundTrip | src/background.js:146-154 | decoding the encoded characters gives back any Latin-1 text |
| Base64.IndicesOfChars | src/background.js:154 | the characters of the encoding decode to the sextets they came from |
| Base64.NoWhitespaceKept | src/background.js:154 | whitespace removal leaves text without whitespace unchanged |
| Base64.EncodedHasNoWhitespace | src/background.js:146 | `btoa` output contains no whitespace |
| Base64.PaddingDropped | src/background.js:154 | `atob` strips exactly the padding `btoa` added |
| Base64.BtoaAtob | src/background.js:146-154 | `atob(btoa(s)) == s` for every Latin-1 string |
| Base64.ReverseReverse | src/background.js:148-153 | reversing the characters twice gives back the input |
| Base64.Encrypt | src/background.js:144-149 | obfuscation succeeds exactly on Latin-1 JSON text |
| Base64.DecryptEncrypt | src/background.js:144-156 | decrypting an encrypted JSON text gives back that text |
| Badge.DigitChar | src/background.js:225 | a digit value becomes a decimal digit character |
| Badge.DecimalString | src/background.js:225 | `toString` of a count gives a non-empty string of digits with no leading zero |
| Badge.DigitValue | src/background.js:225 | a digit character has a value below ten |
| Badge.DecimalRoundTrip | src/background.js:225 | reading the digits of a count back gives the count |
| Badge.DecimalLength | src/background.js:225-228 | a count up to 999 takes at most three digits |
| Badge.BadgeTextSpec | src/background.js:221-247 | the badge is blank exactly for counts of zero or below; otherwise it holds the count's digits, or `999+` from a thousand on, padded by one space on each side, at most six characters |
| Badge.BadgeState.constructor | src/background.js:13 | the page-count map starts empty |
| Badge.BadgeState.UpdateBadge | src/background.js:221-247 | the tab's count is set and the badge text is `BadgeText` of the count |
| Badge.BadgeState.OnUpdated | src/background.js:208-213 | a tab that finished loading an `http` page is reset to zero with a blank badge; any other update changes nothing |
| Badge.BadgeState.OnRemoved | src/background.js:216-218 | a closed tab's count is forgotten |
| Badge.BadgeState.CleanupTabs | src/background.js:196-205 | the map keeps exactly the counts of tabs that are still open, with unchanged values |

## Left out

- Network, timers and `AbortController`: each request is one answer of `Net.Web.get` or `Net.Web.head`. A timeout is the same as a failed request. The 5-second and 2-second limits are carried as constants only.
- URL parsing, `decodeURIComponent`, `DOMParser` extraction and the script injected into the tab are given functions (`Net.UrlEnv`, `Net.Web`). Their own behaviour is not modelled.
- Concurrency: `Promise.all` in `getAllPaths`, `checkCommonPaths` and each batch of `batchCheckStatuses` is modelled as sequential. `PathRules.InterleavingIrrelevant` proves that any interleaving of the probes' writes ends in the same map.
- The `isValidating` re-entrancy guard is only reached under concurrent calls. The model states it, but nothing can interleave with a call here.
- Mapper.SitemapAdds: nested sitemaps are followed at most `fuel` levels deep. A sitemap that refers to itself makes the source recurse without end; the model stops at the bound.
- Ordinal.Less: `localeCompare` is replaced by ordinal order on code points. Locale collation is not modelled. The older `sort()` compares UTF-16 code units, which differs from code-point order only for characters outside the Basic Multilingual Plane.
- Text.Lower: `toLowerCase` is modelled on ASCII letters only; other letters are left unchanged.
- The regular-expression search of `PathFilter` (Pro mode) and `createRegexPattern` are not modelled. A user-supplied regular expression would need a regex engine. Only the ordinary mode of `matches` is modelled.
- `buildTreeStructure`, the rendering, exports, SEO analysis and the rest of the popup UI are not modelled. They only display the list.
- The `UPDATE_PAGE_COUNT` message that `getAllPaths` sends, and the `chrome.action` colour calls, are not modelled. `Badge.BadgeState.UpdateBadge` covers what the message causes.
- `JSON.stringify`, `JSON.parse` and the payment service's answer are inputs of the licence model. The extra licence fields are carried as one opaque `details` value.
- A storage failure and an exception thrown by the status callback are not modelled.
- `Date.now()` is read several times inside one source call. The model reads one `now` per call.
- License.LicenseValidator.ValidateLicense: the `setTimeout` retry after five minutes is reported as the flag `retryScheduled`. The later call is not run.
- Badge.BadgeState.CleanupTabs: the source visits the tab ids in map insertion order. The model visits them in an arbitrary order; the final map does not depend on the order.
- `checkCommonPaths` overwrites an entry that another probe already stored. The model follows the code here (`Mapper.SiteMapper.CheckCommonPaths`), not the first-writer-wins rule that `addCleanPath` applies.
- Mapper.SiteMapper.BatchCheckStatuses: requires `batchSize >= 1` whenever something is selected. With a smaller batch size the source loop never ends.

## Findings

| source | as written | input that shows it | evidently intended | confidence | as-written member | corrected member |
|---|---|---|---|---|---|---|
| src/background.js:57-61 | inside the `try` block, a cache still in its 3-day grace period is returned before the payment service is asked, so the grace period shortcuts every fetch | `validateLicense(true)` with a cache written one second ago returns the cache without a fetch; a cache two days old, past its 24-hour lifetime, is also returned without a fetch | the grace period, logged as a "network issue", applies only after the payment service fails (the `catch` block at lines 78-81); a forced refresh or an expired cache goes to the network | not executed | License.TryBlockAsWritten (shown by License.ForceRefreshIgnoredAsWritten and License.ExpiredCacheServedAsWritten) | License.TryBlock (proved in License.TryBlockSpec, used by License.LicenseValidator.ValidateLicense) |
