# A verified model of the Chrome-extension monorepo's core

This project models in Dafny the core logic of a monorepo of Chrome
extensions and its release scripts. It covers:

- **The review collector's background worker** (`ReviewCollectorBackground`,
  a `ReviewCollector` class). Phase one opens the first review page. With up
  to three attempts, it reads the review and page counts and builds one idle
  task per page. Phase two runs the tasks that are idle, in order, until a
  stop request. Each task gets its own three-attempt retry. The retry
  decision is a substring test on the error text. Attempt 1 creates the tab
  and later attempts reload it. The worker saves the state record after every
  step. It tracks every tab it opens that has a truthy id and closes each
  of those. A tab created without a truthy id stays open and is never tracked.
- **The spam-list reporter's background worker** (`SpamReporterBackground`,
  a `SpamReporter` class). It checks that the page is a list's member page,
  collects the member URLs, and then visits each member once. Nothing is
  retried, and every failure is swallowed. Each visited member is counted.
- **The reporter's member collector** (`MemberCollector`). It polls until
  three polls in a row add no new username.
- **The collector's page scraper** (`Scraper`). It computes the page-count
  ceiling and maps rate lines to sub-scores.
- **URL building** (`UrlBuilder`). Page k's URL rewrites the first
  `/reviews/` segment of the path.
- **Review export** (`Export`). CSV quotes every cell as in section 2 of
  RFC 4180, and TSV sanitises cells. Each export comes with its round trip
  or its shape.
- **Review filters** (`ReviewFilter`). This covers the all-fives test and
  the sorted list of distinct girl names.
- **The shared logger** (`Logger`). This covers level order and filtering,
  binding precedence, the pretty line format and the getLogger registry.
- **The release script** (`ZipReleases`). It parses tags, finds package
  directories and decides skips, then zips, pushes and creates releases.
- **The version-sync script** (`SyncManifest`). It rewrites the first
  `version: '…'` in each extension's vite.config.ts, matching the regex as
  the JavaScript engine does.

The browser, the content scripts, the file system, `git` and `gh` are
inputs to the model. For each step, the caller says what happened: whether a
tab was created and with which id, whether a reload worked, whether the page
loaded before the timeout, what a content script replied, which paths
exist, and how a command exited. Stop requests are inputs too. Each one says
at which point of a loop it arrives. The two workers are classes whose
fields are the module-level variables of the source. Storage is a field: the
log of every state saved, or the one stored record.

Where the specification and the code disagree, the model follows the code.
The review collector's state record uses the field names its background
worker writes: `expectedTotalReviews`, `collectedReviewsCount` and
`totalPageCount`. The shared type file names the count fields
`totalReviewCount` and `totalReviews` instead.

Helper modules `Wrappers` (Option and Result), `Strings` (the JavaScript
string operations used, stated on `seq<char>`), `Browser` and `ReviewTypes`
hold shared definitions.

## Model

| member | source | states |
|---|---|---|
| UrlBuilder.BuildPageUrls | packages/heavenly-reviews-collector/src/utils/url-builder.ts:8-29 | the loop returns exactly `PageUrls`: the base URL text first, then the URL of every page 2..totalPages in ascending order |
| UrlBuilder.PageUrlsShape | packages/heavenly-reviews-collector/src/utils/url-builder.ts:15-27 | the list has totalPages entries when totalPages >= 1 and one otherwise; entry 0 is the base URL unchanged; entry k is the base origin, the path with its first "/reviews/" made "/reviews/k+1/", and the base query |
| UrlBuilder.LaterPageUrlsAt | packages/heavenly-reviews-collector/src/utils/url-builder.ts:18-25 | the loop appends n - 1 URLs and the k-th of them is the URL of page k + 2 |
| UrlBuilder.LaterPageUrlsEmpty | packages/heavenly-reviews-collector/src/utils/url-builder.ts:18 | with fewer than 2 pages the loop appends nothing |
| UrlBuilder.PagePathAt | packages/heavenly-reviews-collector/src/utils/url-builder.ts:21-24 | where the first "/reviews/" of the path sits at i, page p's path is the text before it, "/reviews/", the decimal p, "/", and the rest of the path |
| UrlBuilder.PagePathWithoutSegment | packages/heavenly-reviews-collector/src/utils/url-builder.ts:21-24 | a path with no "/reviews/" is left as it is for every page |
| UrlBuilder.PagePathsDistinct | packages/heavenly-reviews-collector/src/utils/url-builder.ts:21-24 | when the path holds "/reviews/", every page's path differs from the base path and two different pages get different paths |
| UrlBuilder.HrefInjective | packages/heavenly-reviews-collector/src/utils/url-builder.ts:19-25 | with origin and query kept, URLs whose paths differ serialise to different strings |
| UrlBuilder.LaterPageUrlsDistinct | packages/heavenly-reviews-collector/src/utils/url-builder.ts:18-25 | with "/reviews/" in the path, pages 2..n are pairwise distinct and all differ from the serialised base URL; without it, every one of them is the serialised base URL |
| Scraper.CeilDivBounds | packages/heavenly-reviews-collector/src/services/scraper.ts:106-107 | the `Math.ceil(a / b)` used for the page count is the one integer c with (c - 1) * b < a <= c * b |
| Scraper.GetPageInfo | packages/heavenly-reviews-collector/src/services/scraper.ts:93-110 | reviewsPerPage is the number of review items; totalReviews is 0 when the total element is missing and the parsed count otherwise; totalPages is 0 with no items, and otherwise the c with (c - 1) * perPage < total <= c * perPage, at least 1 when there are reviews |
| Scraper.ExtractScores | packages/heavenly-reviews-collector/src/services/scraper.ts:26-53 | every sub-score starts at 0 and ends as the score of the last rate line whose label selects it, a label selecting the first of 女の子, プレイ, 料金, スタッフ, 写真 that it contains |
| Scraper.UnlabelledLineChangesNothing | packages/heavenly-reviews-collector/src/services/scraper.ts:37-52 | a rate line that does not match the pattern or whose label holds none of the five words changes no sub-score |
| Scraper.LabelledLineSetsOneField | packages/heavenly-reviews-collector/src/services/scraper.ts:41-51 | a rate line whose label selects one field sets that field to its score and leaves the other four as they were |
| Scraper.LineRun | packages/heavenly-reviews-collector/src/services/scraper.ts:63 | what the greedy `.+` takes: the longest run at the start of the text without a line terminator |
| Scraper.PostDateMatchShape | packages/heavenly-reviews-collector/src/services/scraper.ts:63-64 | a match of /掲載日：(.+)/ exists only when the text holds "掲載日：", and its capture is non-empty and holds no line terminator |
| Scraper.PostDateSpec | packages/heavenly-reviews-collector/src/services/scraper.ts:61-64 | the post date is "" when the text lacks "掲載日：", never holds a line terminator, and for "掲載日：" followed by one non-empty line is exactly that line |
| Scraper.ExtractReviews | packages/heavenly-reviews-collector/src/services/scraper.ts:6-79 | one review per item, in page order: the id attribute or "", each trimmed text or "", `parseFloat` of the trimmed total or of "0", the sub-scores of its rate lines and its post date |
| Export.ParseQuotedRoundTrip | packages/heavenly-reviews-collector/src/utils/export.ts:31 | reading back a cell body whose quotes were doubled, up to its closing quote, gives the original text and stops right after that quote |
| Export.CsvCellRoundTrip | packages/heavenly-reviews-collector/src/utils/export.ts:31 | a cell wrapped in quotes with its inner quotes doubled reads back as exactly the original text |
| Export.CsvLineCons | packages/heavenly-reviews-collector/src/utils/export.ts:30-32 | a CSV line is the first escaped cell, ",", and the line of the remaining cells |
| Export.ParseCellsRoundTrip | packages/heavenly-reviews-collector/src/utils/export.ts:30-32 | the CSV line of a row reads back as that row, cell for cell, and leaves what follows untouched |
| Export.ParseCsvRoundTrip | packages/heavenly-reviews-collector/src/utils/export.ts:29-33 | CSV lines joined with "\n" read back as the rows they were made from |
| Export.ExportToCsvRoundTrip | packages/heavenly-reviews-collector/src/utils/export.ts:7-35 | reading back the CSV export gives the header row followed by one twelve-cell row per review, in input order |
| Export.ReplaceAllChar | packages/heavenly-reviews-collector/src/utils/export.ts:45 | a global one-character replace keeps the length, turns every occurrence into the replacement and keeps every other character |
| Export.TsvCellSpec | packages/heavenly-reviews-collector/src/utils/export.ts:45 | a TSV cell has the length of its text, holds no tab and no newline, and keeps every other character in place |
| Export.TsvLineSpec | packages/heavenly-reviews-collector/src/utils/export.ts:43-46 | a TSV line holds no newline and splits on tabs into exactly its cleaned cells |
| Export.ExportToTsvShape | packages/heavenly-reviews-collector/src/utils/export.ts:7-50 | the TSV export splits on "\n" into one line per review plus the header line, and each review line splits on tabs into its twelve cleaned cells, in the fixed order |
| ReviewFilter.PerfectScoreIff | apps/heavenly-reviews-collector/src/utils/reviewFilter.ts:6-14 | a review is perfect exactly when all five sub-scores are 5; the total score plays no part |
| ReviewFilter.LessIrreflexive | apps/heavenly-reviews-collector/src/utils/reviewFilter.ts:22 | the default sort order (code-unit order) never puts a name before itself |
| ReviewFilter.LessTransitive | apps/heavenly-reviews-collector/src/utils/reviewFilter.ts:22 | the default sort order is transitive |
| ReviewFilter.LessTotal | apps/heavenly-reviews-collector/src/utils/reviewFilter.ts:22 | of two different names exactly one comes first |
| ReviewFilter.LessEqTransitive | apps/heavenly-reviews-collector/src/utils/reviewFilter.ts:22 | "comes first or equal" is transitive |
| ReviewFilter.Distinct | apps/heavenly-reviews-collector/src/utils/reviewFilter.ts:21 | the set of names holds no duplicates and exactly the names of the input |
| ReviewFilter.Insert | apps/heavenly-reviews-collector/src/utils/reviewFilter.ts:22 | inserting a name adds exactly that name and loses nothing |
| ReviewFilter.SortStrings | apps/heavenly-reviews-collector/src/utils/reviewFilter.ts:22 | sorting is a permutation of its input |
| ReviewFilter.InsertSorted | apps/heavenly-reviews-collector/src/utils/reviewFilter.ts:22 | inserting into a sorted list keeps it sorted |
| ReviewFilter.SortStringsSorted | apps/heavenly-reviews-collector/src/utils/reviewFilter.ts:22 | the sorted list is in ascending order |
| ReviewFilter.StrictlySortedUnique | apps/heavenly-reviews-collector/src/utils/reviewFilter.ts:22 | two strictly ascending lists with the same members are the same list |
| ReviewFilter.UniqueGirlNamesSpec | apps/heavenly-reviews-collector/src/utils/reviewFilter.ts:20-23 | the unique names are strictly ascending, hence free of duplicates, and a name is among them exactly when some review carries it |
| ReviewFilter.UniqueGirlNamesOrderFree | apps/heavenly-reviews-collector/src/utils/reviewFilter.ts:20-23 | two review lists carrying the same names, in any order and with any repetition, give the same unique names |
| Logger.LevelOrder | packages/common/src/logger.ts:32-46 | trace 0, debug 1, info 2, warn 3, error 4, fatal 5; a non-number exactly for the names the table inherits from Object.prototype ("toString", "constructor", "__proto__", ...); 2 for any other name |
| Logger.ResolveLogLevel | packages/common/src/logger.ts:194-203 | the level is LOG_LEVEL when that is a non-empty string and "info" otherwise, so it is never empty |
| Logger.FormatTimestampSpec | packages/common/src/logger.ts:181-184 | the timestamp is the longest prefix of the ISO text holding neither 'Z' nor '.': the zone letter and the fractional seconds are dropped |
| Logger.JoinSegments | packages/common/src/logger.ts:139-151 | joining the segments with ", " puts the context and the message in only when they are non-empty |
| Logger.MetadataTextSpec | packages/common/src/logger.ts:127-149 | the metadata text is one space and the JSON of the metadata without loggerContext when some other key exists, and empty otherwise |
| Logger.FormatPrettyShape | packages/common/src/logger.ts:122-152 | a line is the upper-case level, the context if any, the timestamp and the message if any, joined by ", ", then the metadata text |
| Logger.Log | packages/common/src/logger.ts:73-95 | a call is dropped exactly when the order of its level is a number below the configured order (a comparison with a non-number is false), so a level configured as an Object.prototype member name prints every call; a printed line goes to console.error exactly for error and fatal |
| Logger.LogFilter | packages/common/src/logger.ts:32-82 | a logger configured with a level name prints exactly the calls whose level ranks at least as high |
| Logger.LogUnknownLevel | packages/common/src/logger.ts:44-73 | a configured name that is neither a level nor an Object.prototype member filters like "info" |
| Logger.LogMonotone | packages/common/src/logger.ts:80-82 | a call printed at one level is printed at every higher level |
| Logger.BindingPrecedence | packages/common/src/logger.ts:84-115 | for a call on a child of a child, each key comes from the call's fields, else the inner child, else the outer child, else the root, and no key is lost |
| Logger.LoggerRegistry.constructor | packages/common/src/logger.ts:48 | there is no core logger before the first getLogger call |
| Logger.LoggerRegistry.GetLogger | packages/common/src/logger.ts:53-63 | the core logger is created once, at the first call, from the LOG_LEVEL seen then; an absent or empty context returns it, any other context its child bound to loggerContext "-context-" |
| Logger.ContextLoggerLine | packages/common/src/logger.ts:53-95 | a message logged through getLogger(context) at a level the core lets through prints "LEVEL, -context-, time, message" on the console function of its level |
| MemberCollector.UsernameSpec | apps/x-spam-list-reporter/src/content/member-collector.ts:38-43 | a username is a non-empty path piece without '/', and a link whose href holds "/i/" adds none |
| MemberCollector.UsernameOfProfilePath | apps/x-spam-list-reporter/src/content/member-collector.ts:38-43 | a link outside "/i/" whose path is "/user" or "/user/..." adds exactly "user" |
| MemberCollector.AddAllSpec | apps/x-spam-list-reporter/src/content/member-collector.ts:31-46 | one collection pass keeps the names already held as a prefix, adds no duplicate, and ends holding exactly the old names and the usernames of the visible links |
| MemberCollector.CollectVisible | apps/x-spam-list-reporter/src/content/member-collector.ts:31-46 | the pass over the visible links adds their usernames to the set exactly as `AddAllSpec` describes |
| MemberCollector.NamesPrefix | apps/x-spam-list-reporter/src/content/member-collector.ts:12-57 | the names after fewer polls are a prefix of the names after more: the set keeps first-seen order |
| MemberCollector.NamesDistinct | apps/x-spam-list-reporter/src/content/member-collector.ts:12-42 | the collected names never hold a duplicate |
| MemberCollector.NamesSeen | apps/x-spam-list-reporter/src/content/member-collector.ts:31-57 | a name is held after k polls exactly when one of the first k polls showed a link with that username |
| MemberCollector.NameCountMonotone | apps/x-spam-list-reporter/src/content/member-collector.ts:12-59 | the set size never shrinks from one poll to a later one |
| MemberCollector.StableRunSpec | apps/x-spam-list-reporter/src/content/member-collector.ts:56-66 | the stable count reaches 3 exactly when the size now equals the size three polls ago |
| MemberCollector.PollStep | apps/x-spam-list-reporter/src/content/member-collector.ts:56-66 | one poll adds what it shows; the stable count grows by one when the size is unchanged and restarts at 0 when it grew; once the input runs out nothing is added |
| MemberCollector.NameCountStable | apps/x-spam-list-reporter/src/content/member-collector.ts:56-66 | the loop's exit test holds after k polls exactly when the last three polls added no name |
| MemberCollector.NotYetStableStep | apps/x-spam-list-reporter/src/content/member-collector.ts:56-66 | a poll whose stable count is below 3 keeps "every earlier window of three polls added a name" true |
| MemberCollector.ProfileUrlsSpec | apps/x-spam-list-reporter/src/content/member-collector.ts:73-75 | each URL is "https://x.com/" followed by its username, and distinct usernames give distinct URLs |
| MemberCollector.CollectMembers | apps/x-spam-list-reporter/src/content/member-collector.ts:9-78 | the loop stops at the first poll after which three polls in a row added no name, within the input's polls plus three, and returns the profile URL of every collected name in first-seen order |
| ZipReleases.TaggedLines | scripts/create-zip-releases.ts:15 | the filter keeps exactly the lines that include '@', and nothing when no line does |
| ZipReleases.NoAtNoTags | scripts/create-zip-releases.ts:12-24 | `git tag` output without '@', the empty output included, leaves no tag to process |
| ZipReleases.TagSplit | scripts/create-zip-releases.ts:31-33 | a tag is its package name, '@' and its version, and the version holds no '@' |
| ZipReleases.PackageDirNameSpec | scripts/create-zip-releases.ts:36 | the directory name is the part of the package name after its last '/', or the whole name when it has none, and holds no '/' |
| ZipReleases.ScopedPackageDir | scripts/create-zip-releases.ts:29-36 | a scoped name "scope/dir" gives "dir" whatever the scope holds |
| ZipReleases.PlanTagSpec | scripts/create-zip-releases.ts:36-59 | a tag is built only with a non-empty directory name, from packages/dir when that exists and apps/dir otherwise, and only when that directory and its dist/ exist; the tag is skipped for its name exactly when the directory name is empty |
| ZipReleases.NotesTextHeading | scripts/create-zip-releases.ts:79-91 | the release notes open with "Release of <name> version <version>" on a line of its own |
| ZipReleases.TagStepSpec | scripts/create-zip-releases.ts:61-117 | a tag acts only when it is built; a built tag's actions are exactly: zip its dist directory to `<dir>.zip`, and, when it has no release yet, push the tag and create its release; a tag already released is zipped and nothing more, without failure; a created release has the tag as title, the package's dir.zip as asset and notes of the package's name, version and directory; a push or creation happens only for a tag not yet released; the step fails exactly when a creation exits with a status other than 0 |
| ZipReleases.AbortIsFinal | scripts/create-zip-releases.ts:113-124 | once a tag's release creation throws, later tags change nothing |
| ZipReleases.SequencedKeeps | scripts/create-zip-releases.ts:26-118 | the actions of a tag reached before any failure stay in the run over all later tags |
| ZipReleases.NoFailureBefore | scripts/create-zip-releases.ts:113-124 | a run over all tags that did not fail had no failure after any earlier tag |
| ZipReleases.SequencedActions | scripts/create-zip-releases.ts:26-118 | every action of the run comes from one of the tags processed, and a failure is one tag's failure |
| ZipReleases.ReleaseRunSpec | scripts/create-zip-releases.ts:26-118 | over all tags, every tag pushed or released is one of the tags and had no release yet, every release is titled with its tag, and a failure comes from a tag whose creation exited with a status other than 0; every built tag without a release that comes before the first failure, and every one when nothing fails, is pushed and released with its zip and notes |
| ZipReleases.RunInOrder | scripts/create-zip-releases.ts:26-118 | the loop takes each tag's actions in turn and stops after the first tag that throws |
| ZipReleases.CreateZipReleases | scripts/create-zip-releases.ts:8-124 | a failing `git tag` does nothing; otherwise the '@' lines of its trimmed output are processed in order, as `ReleaseRun` says |
| SyncManifest.SpaceRun | scripts/sync-manifest-version.ts:28 | the greedy `\s*` takes whitespace only and stops at the first non-whitespace character or the end |
| SyncManifest.ValueRun | scripts/sync-manifest-version.ts:28 | the greedy `[^'"]+` takes non-quotes only and stops at the first quote or the end |
| SyncManifest.MatchAtAllowed | scripts/sync-manifest-version.ts:28 | a match the search takes is one the pattern allows: "version:", spaces, a quote, a non-empty quote-free value, a quote, spaces and at most one comma |
| SyncManifest.MatchesWithGreedy | scripts/sync-manifest-version.ts:28 | wherever the pattern allows a match, the search takes one there, with the same spaces and value and a tail at least as long |
| SyncManifest.FirstMatchFrom | scripts/sync-manifest-version.ts:28-29 | a match found lies at or after the start of the search, its value follows the key, is non-empty and ends before the match does |
| SyncManifest.FirstMatchFromSpec | scripts/sync-manifest-version.ts:28-29 | the match found is the pattern's match at that position and there is none earlier: the regex has no g flag, so only the leftmost match counts |
| SyncManifest.ReplaceVersionSpec | scripts/sync-manifest-version.ts:28-29 | text without a match is written back unchanged; otherwise only the value of the first match becomes the new version, and the key, spaces, quotes, comma and the rest of the text are kept |
| SyncManifest.UnquotedKeyPassedOver | scripts/sync-manifest-version.ts:28 | "version:" followed by spaces and then no quote, as in `manifest_version: 3`, is no match, so the search goes on to the manifest's `version: '0.1.0'` |
| SyncManifest.Glob | scripts/sync-manifest-version.ts:10-15 | the glob yields exactly the found packages right under packages/ or apps/ other than ui, each once |
| SyncManifest.SyncUpToSpec | scripts/sync-manifest-version.ts:17-33 | after the first k packages, the vite.config.ts of each of them holds the rewrite with that package's version, and every other file is as it was |
| SyncManifest.Workspace.SyncPackages | scripts/sync-manifest-version.ts:17-33 | the loop skips a package without vite.config.ts and rewrites the others in turn, ending as `SyncUpTo` over all the packages |
| SyncManifest.Workspace.SyncManifestVersions | scripts/sync-manifest-version.ts:8-34 | the script rewrites the files of the packages the glob yields, in order, and changes nothing else |
| SyncManifest.SyncSpec | scripts/sync-manifest-version.ts:8-34 | over the whole run a file changes only when it is the vite.config.ts of a selected package, and then holds the rewrite with that package's version; the ui packages' configs are never touched |
| SpamReporterBackground.ListPageError | packages/x-spam-list-reporter/src/background/index.ts:93-107 | the list-page check fails exactly on an explicit "not a list page" answer (with the fixed message) or a failed send (with its message); any other reply goes on |
| SpamReporterBackground.MembersOf | packages/x-spam-list-reporter/src/background/index.ts:113-129 | the collection succeeds exactly on MEMBERS_COLLECTED with its URLs; an ERROR reply or failed send throws its message, anything else the fixed "collection failed" message |
| SpamReporterBackground.CollectOutcome | packages/x-spam-list-reporter/src/background/index.ts:89-130 | collectMembers fails with the check's error when the check fails, and otherwise returns what the collection reply gives |
| SpamReporterBackground.NotListPageFails | packages/x-spam-list-reporter/src/background/index.ts:100-107 | a tab that is not a list member page ends collection with the list-page message whatever the collection would answer |
| SpamReporterBackground.Visited | packages/x-spam-list-reporter/src/background/index.ts:144-148 | the loop visits at most all members |
| SpamReporterBackground.ReportRun | packages/x-spam-list-reporter/src/background/index.ts:135-206 | after reportMembers every member is counted in the total, the processed count lies between 0 and the total, the status is completed exactly when no stop was seen and idle exactly when one was, completed means all processed, the current member is the last processed one, and the error is untouched |
| SpamReporterBackground.ReportRunStops | packages/x-spam-list-reporter/src/background/index.ts:144-193 | with no stop all members are processed and the run completes; a stop before member k leaves k processed, a stop during member k leaves k+1; a flag raised before the loop leaves none |
| SpamReporterBackground.SentReportsSpec | packages/x-spam-list-reporter/src/background/index.ts:144-199 | REPORT_SPAM goes only to members visited, at most once each and in member order, and when every visit loads every visited member is reported |
| SpamReporterBackground.LoopProgressStart | packages/x-spam-list-reporter/src/background/index.ts:144-145 | before the first member the loop invariant holds with the flag as it was |
| SpamReporterBackground.MembersDoneRun | packages/x-spam-list-reporter/src/background/index.ts:138-201 | the record the loop leaves, once the final status is set, equals the closed form of the run |
| SpamReporterBackground.LoopProgressHalt | packages/x-spam-list-reporter/src/background/index.ts:145-148 | a stop flag seen at member j ends the loop there, with the flag set and j the number visited |
| SpamReporterBackground.LoopProgressNext | packages/x-spam-list-reporter/src/background/index.ts:150-199 | without a stop member j is visited, and a stop during it is the flag the next round sees |
| SpamReporterBackground.LoopProgressEnd | packages/x-spam-list-reporter/src/background/index.ts:144-201 | when the loop is over it has visited the closed-form number of members and the flag equals whether a stop was seen |
| SpamReporterBackground.SpamReporter.constructor | packages/x-spam-list-reporter/src/background/index.ts:287-293 | start-up: idle with no progress, no stop, no tab, replaced by the stored record when storage holds one |
| SpamReporterBackground.SpamReporter.StopReporting | packages/x-spam-list-reporter/src/background/index.ts:245-257 | the stop flag is raised, the status shown idle, the tab in progress (when its id is truthy) closed and forgotten, storage cleared, nothing else changes |
| SpamReporterBackground.SpamReporter.CollectMembers | packages/x-spam-list-reporter/src/background/index.ts:89-130 | returns collectMembers' outcome; a failed check changes nothing, otherwise the status becomes collecting and is saved (or idle and cleared when a stop arrives meanwhile) |
| SpamReporterBackground.SpamReporter.ReportMember | packages/x-spam-list-reporter/src/background/index.ts:150-195 | one member becomes current, REPORT_SPAM is recorded exactly when its tab has an id and loaded, its tab is closed, the processed count goes up by one and the record is saved, whatever failed on the way |
| SpamReporterBackground.SpamReporter.ReportMemberAt | packages/x-spam-list-reporter/src/background/index.ts:144-199 | one pass of the loop keeps the loop invariant: it either ends the loop at member j on a stop or visits member j and moves on |
| SpamReporterBackground.SpamReporter.ReportMembers | packages/x-spam-list-reporter/src/background/index.ts:135-206 | the new record is the closed form ReportRun, the flag says whether a stop was seen, the record is saved, the reports sent are those of the visited members, and every tab opened with a truthy id is closed (a tab created without one stays open and is not tracked) |
| SpamReporterBackground.SpamReporter.StartReportWorkflow | packages/x-spam-list-reporter/src/background/index.ts:211-240 | the record is reset; a collection error leaves the error status with the error's text, and the stop flag set exactly when the page check passed and a stop arrived during collection; a stop during collection leaves the reset record idle and storage cleared; otherwise the run over the collected members is ReportRun with its reports and tab cleanup |
| ReviewCollectorBackground.PageRetryImpliesUrlRetry | packages/heavenly-reviews-collector/src/background/index.ts:225-230 | every error text a page task retries is also retried by the URL-collection phase |
| ReviewCollectorBackground.RetryableOwnErrors | packages/heavenly-reviews-collector/src/background/index.ts:225-232 | the worker's own "no tab id" and "page load timeout" errors are retried in both phases, and missing page info in the URL phase |
| ReviewCollectorBackground.NoTabOnRetryIsFinal | packages/heavenly-reviews-collector/src/background/index.ts:225-251 | the "no tab id on retry" error matches none of the retryable patterns, so it ends the retry in both phases |
| ReviewCollectorBackground.NoTabOnRetryLacks | packages/heavenly-reviews-collector/src/background/index.ts:176-178 | the text of the "no tab id on retry" error lacks the characters the retryable patterns need |
| ReviewCollectorBackground.PageInfoFailureOnlyRetriedForUrls | packages/heavenly-reviews-collector/src/background/index.ts:361-365 | missing page info would not be retried by a page task |
| ReviewCollectorBackground.OpenTab | packages/heavenly-reviews-collector/src/background/index.ts:316-329 | later attempts keep the tab; a tab id handed on is the tab's truthy id; a retry without a tab id fails with "no tab id on retry", and a created tab without an id with "no tab id" |
| ReviewCollectorBackground.AttemptOnce | packages/heavenly-reviews-collector/src/background/index.ts:314-338 | an attempt after the first keeps the tab the first created |
| ReviewCollectorBackground.RetryFrom | packages/heavenly-reviews-collector/src/background/index.ts:307-407 | from attempt n the retry makes between one and 4 - n attempts and hands on the last attempt's result, which Retry then settles |
| ReviewCollectorBackground.RetryFromSpec | packages/heavenly-reviews-collector/src/background/index.ts:307-407 | every attempt but the last failed with a retryable error, the retry stopped on success, on an error it does not retry or when the attempts ran out, and later attempts reuse the tab |
| ReviewCollectorBackground.RetrySpec | packages/heavenly-reviews-collector/src/background/index.ts:307-407 | the retry makes one to three attempts, each but the last failed with a retryable error, it stops on success, on a bail or after the third, the first attempt creates the tab and every later attempt reloads that tab; it settles with Settled: the success, the bailed error, or after three retryable failures async-retry's main error |
| ReviewCollectorBackground.MainErrorSpec | packages/heavenly-reviews-collector/src/background/index.ts:162-275 | async-retry's main error after retries run out is one of the errors seen, none is seen more often, and the last error is chosen whenever no other is seen more often than it |
| ReviewCollectorBackground.SettledSpec | packages/heavenly-reviews-collector/src/background/index.ts:162-275 | the retry settles with success exactly when its last attempt succeeded, with that attempt's value, and otherwise with one of the error messages the attempts raised |
| ReviewCollectorBackground.TimesOutTwiceThenNoInfoTrace | packages/heavenly-reviews-collector/src/background/index.ts:162-275 | a URL phase whose page times out twice and then loads without page info makes three attempts: two timeouts, then the page-info error |
| ReviewCollectorBackground.TimeoutIsMainError | packages/heavenly-reviews-collector/src/background/index.ts:162-275 | of two timeouts and one page-info error, the timeout is the main error |
| ReviewCollectorBackground.UrlPhaseReportsMostFrequentError | packages/heavenly-reviews-collector/src/background/index.ts:162-275 | that URL phase fails with the timeout, the error seen most often, not with the last error |
| ReviewCollectorBackground.LostTabEndsRetry | packages/heavenly-reviews-collector/src/background/index.ts:316-326 | when the first attempt leaves no tab id and its error is retried, the second attempt fails with "no tab id on retry" and ends the retry after exactly two attempts |
| ReviewCollectorBackground.PageInfoOf | packages/heavenly-reviews-collector/src/background/index.ts:83-106 | getPageInfoFromTab succeeds exactly on a PAGE_INFO_RESPONSE with its counts; an ERROR reply or failed send throws its message, anything else the fixed "page info failed" message |
| ReviewCollectorBackground.ReviewsOf | packages/heavenly-reviews-collector/src/background/index.ts:52-78 | extractReviewsFromTab never fails, and any reply other than extracted reviews yields no reviews |
| ReviewCollectorBackground.PageAttemptFailure | packages/heavenly-reviews-collector/src/background/index.ts:314-358 | a page attempt fails exactly when its tab could not be had or the page did not load in time |
| ReviewCollectorBackground.TabWithoutIdFailsTwice | packages/heavenly-reviews-collector/src/background/index.ts:316-326 | a page task or URL phase whose created tab has no id is tried exactly twice and fails with "no tab id on retry" |
| ReviewCollectorBackground.UrlPhaseResultSpec | packages/heavenly-reviews-collector/src/background/index.ts:202-278 | after a successful URL phase there is one idle task per page numbered from 1, the first for the start URL, the status is review collecting and the reviews are kept; after a failure the tasks are untouched and the error text starts with the URL-phase prefix |
| ReviewCollectorBackground.IdleIndicesSpec | packages/heavenly-reviews-collector/src/background/index.ts:434 | the idle filter keeps exactly the idle tasks, each once, in task order |
| ReviewCollectorBackground.AllIdle | packages/heavenly-reviews-collector/src/background/index.ts:434 | when every task is idle the filter keeps them all, in order |
| ReviewCollectorBackground.FinishedSpec | packages/heavenly-reviews-collector/src/background/index.ts:355-417 | a task that ran is completed exactly when its retry succeeded and failed exactly when it did not, a failure records its error text, and url and page number are kept |
| ReviewCollectorBackground.Visited | packages/heavenly-reviews-collector/src/background/index.ts:437-441 | the review loop runs at most all the idle tasks |
| ReviewCollectorBackground.RunState | packages/heavenly-reviews-collector/src/background/index.ts:437-443 | running idle tasks keeps the number of tasks and the status |
| ReviewCollectorBackground.RunStateSpec | packages/heavenly-reviews-collector/src/background/index.ts:289-443 | after the first j idle tasks ran, exactly those are finished with their retry's outcome, all other tasks are as they were, their reviews are appended in order, the current page is the last visited, the review count stays in step and the phase-one fields are kept |
| ReviewCollectorBackground.RunSoFarAllIdle | packages/heavenly-reviews-collector/src/background/index.ts:434-443 | when every task started idle, the first v tasks are finished and the rest are untouched |
| ReviewCollectorBackground.FreshTasksRun | packages/heavenly-reviews-collector/src/background/index.ts:434-443 | the review phase over freshly built tasks finishes a prefix of them in page order with their reviews appended in the same order, leaves the rest idle and keeps the page counts |
| ReviewCollectorBackground.WorkflowReviewPhase | packages/heavenly-reviews-collector/src/background/index.ts:460-471 | after a successful URL phase the review phase sees one idle task per page, finishes the first v pages (all of them without a stop) in page order with their reviews appended after those already held, and leaves the rest idle |
| ReviewCollectorBackground.StopProgressHalt | packages/heavenly-reviews-collector/src/background/index.ts:437-441 | a stop flag raised before the loop or arriving before idle task j ends the loop there |
| ReviewCollectorBackground.StopProgressNext | packages/heavenly-reviews-collector/src/background/index.ts:437-443 | without a stop task j runs and the loop moves on |
| ReviewCollectorBackground.StopProgressEnd | packages/heavenly-reviews-collector/src/background/index.ts:437-445 | when the loop ends it has run the closed-form number of tasks and the final flag says whether a stop was seen |
| ReviewCollectorBackground.RetryStep | packages/heavenly-reviews-collector/src/background/index.ts:307-393 | one attempt either ends the retry with the result RetryFrom gives or hands on to the next attempt without changing where the retry ends |
| ReviewCollectorBackground.RetryAttempts | packages/heavenly-reviews-collector/src/background/index.ts:307-407 | the attempt loop computes exactly the retry RetrySpec describes, settled as async-retry settles it |
| ReviewCollectorBackground.ReviewCollector.constructor | packages/heavenly-reviews-collector/src/background/index.ts:539-543 | start-up: the initial state, replaced by the stored one when storage holds one; no stop, no tab |
| ReviewCollectorBackground.ReviewCollector.RunRetry | packages/heavenly-reviews-collector/src/background/index.ts:303-329 | the retry of a phase is the retry RetrySpec describes; its tab, when it has an id, is open and, for a page task, the tab in progress; nothing else changes |
| ReviewCollectorBackground.ReviewCollector.StopCollection | packages/heavenly-reviews-collector/src/background/index.ts:476-492 | the stop flag is raised, the status shown idle, the tab in progress (when its id is truthy) closed and forgotten, and the state saved |
| ReviewCollectorBackground.ReviewCollector.CollectPageUrls | packages/heavenly-reviews-collector/src/background/index.ts:153-284 | succeeds exactly when the URL retry succeeded; the new state is the URL-phase result; the status shown URL collecting is saved first and the result last; the first page's tab is closed |
| ReviewCollectorBackground.ReviewCollector.EndUrlPhase | packages/heavenly-reviews-collector/src/background/index.ts:202-283 | the tasks or the error state, as the URL phase's outcome says, saved, and the tab closed |
| ReviewCollectorBackground.ReviewCollector.ProcessSinglePageTask | packages/heavenly-reviews-collector/src/background/index.ts:289-427 | the task is saved as processing with its page current, then finished with the retry's outcome, its reviews appended and counted on success, its tab closed and forgotten, and the state saved |
| ReviewCollectorBackground.ReviewCollector.RunIdleTaskAt | packages/heavenly-reviews-collector/src/background/index.ts:437-443 | one pass of the loop keeps the loop invariant: it ends the loop on a stop or runs the next idle task |
| ReviewCollectorBackground.ReviewCollector.RunIdleTasks | packages/heavenly-reviews-collector/src/background/index.ts:437-443 | the loop runs idle tasks in order until a stop is seen, and its state is RunState over the tasks run |
| ReviewCollectorBackground.ReviewCollector.EndReviewPhase | packages/heavenly-reviews-collector/src/background/index.ts:445-447 | the status is idle after a stop and completed otherwise, and the state is saved |
| ReviewCollectorBackground.ReviewCollector.CollectReviewsFromTasks | packages/heavenly-reviews-collector/src/background/index.ts:433-455 | the tasks idle at the start are run in order until a stop; the new state is RunState over them with idle after a stop and completed otherwise, saved, and no tracked tab is left open: every tab with a truthy id is closed (a tab created without one stays open and is not tracked) |
| ReviewCollectorBackground.ReviewCollector.StartCollectionWorkflow | packages/heavenly-reviews-collector/src/background/index.ts:460-471 | a failed URL phase or a stop during it leaves the URL-phase result; otherwise the review phase runs over the new tasks and the final state is its closed form, saved |
| ReviewCollectorBackground.ReviewCollector.ClearData | packages/heavenly-reviews-collector/src/background/index.ts:521-533 | the state is back to the initial one and saved; flag and tabs are left alone |
| ReviewCollectorBackground.ReviewCollector.GetState | packages/heavenly-reviews-collector/src/background/index.ts:506-520 | the last stored state, when there is one, replaces the one in memory and is returned |

## Left out

- Tabs created without a truthy id: `chrome.tabs.create` can return a tab whose id is missing or 0, and neither worker ever closes such a tab. The `openTabs` set holds ids only, so the model does not track these tabs, and its "every tab is closed" promises cover tabs with a truthy id only.
- Chrome APIs are not modelled. This covers `tabs.create`, `tabs.reload`, `tabs.remove`, the `onUpdated` listener, `runtime.sendMessage` and `storage.local`. Each call's outcome is an input, and a closed tab is removed from an `openTabs` set. Popup notifications are not modelled, because they change no state.
- `waitForPageLoad` becomes a loaded or timed-out outcome. Its 30-second and 1-second timers, the retry back-off and the politeness delays are not modelled, because they affect timing only.
- Concurrency between message handlers is not modelled. A stop request is observed only at the points the loops check it: before a task or member, while the first page loads, while members are collected, and inside a member's visit before its tab is closed.
- In the review collector, a stop that arrives while a page task is in flight closes that task's tab. This makes the running attempt fail. The model treats such a stop as arriving before the next task.
- ReviewCollectorBackground.ReviewCollector.GetState: handled as if it ran between workflow steps. In the source, GET_STATE can replace `state` with the stored copy while a task still holds the old task object. A failing storage read is not modelled either, and the state then stays as it is.
- ReviewCollectorBackground.ReviewCollector.ClearData: a failing save, which only changes the reply, is not modelled.
- The page task list is a sequence inside the state record, and a task is updated at its index. The source mutates the shared task object in place, and this is equivalent only while no handler replaces `state` meanwhile.
- The error text `String(error)` is modelled for `Error` values only, as "Error: " followed by the message. Rejections from Chrome APIs are given as their message.
- The content scripts' DOM queries are not modelled, and neither is the text-to-number parsing of `parseInt` and `parseFloat`. The total count comes in already parsed, with None for a missing element. A rate line comes in already matched against its pattern, with its label and number. `parseFloat` is a parameter, and a NaN total is not modelled.
- `JSON.stringify`, `Date` and number `toString()` are parameters or given texts. This applies to the logger's metadata text, the logger timestamp and the number cells of an export.
- The logger's console output is returned rather than written. A call yields the line and the console function it would go to.
- Scripts: `execSync` of `zip` and `git push` are assumed to succeed. A failure there throws, and the model does not follow that path. Only the exit status of `gh release create` is an input. The release notes are represented by what their text is built from, plus the heading line.
- Version sync: only `package.json` and `vite.config.ts` files are modelled, and a path is a (root, directory) pair. The order in which the glob yields directories is an input. `JSON.parse` of package.json is given as the version it yields. A version containing a `$` replacement pattern is not modelled.
- Review filter: strings are compared character by character. This matches JavaScript's UTF-16 code-unit order except for characters outside the Basic Multilingual Plane.
- REVIEW_HEADERS (constants.ts) is not part of this model. The header row is a parameter of the export functions.
- `exportToJson` is not modelled, because it is a single `JSON.stringify` call.
- The React UI components, the content-script dispatchers, the storage and messaging wrappers and the build configuration are not modelled, because they only render or forward.
- Integers are unbounded. Page counts, member counts and review counts in the source are JavaScript numbers, which stay exact at these sizes.

