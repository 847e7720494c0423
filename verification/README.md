# Link store: a Dafny model

This project models the back end of a link shortener with click analytics. It covers:

- the SQLite store with its `urls` and `clicks` tables (`database.py`);
- the redirect path that records clicks (`routes/redirect.py`);
- creating links, one at a time (`routes/shorten.py`) or in batches (`routes/bulk.py`);
- the read-only analytics, admin-dashboard and export queries (`routes/analytics.py`, `routes/admin.py`, `routes/export.py`).

Modules, one file each:

| file | module | what it holds |
|---|---|---|
| wrappers.dfy | Wrappers | `Option`, and `Result` (a value or the HTTP status of the raised exception) |
| strings.dfy | Strings | `strip`, ASCII `lower`, substring test, `join`, character counts |
| ordering.dfy | Ordering | `WHERE`, `ORDER BY ... DESC` (stable insertion sort), `LIMIT`, `GROUP BY ... COUNT(*)` |
| tables.dfy | Tables | table rows, a read-only snapshot `Db`, lookups and per-link aggregates |
| database.dfy | Database | class `LinkStore`: both tables as fields updated in place; sample data, cleanup, health check |
| redirect.dfy | Redirect | code validation, client address, traffic-source classifier, `redirect_url`, `redirect_from_qr` |
| bulk.dfy | Bulk | the 50-attempt code allocator and the batch loop of `bulk_generate_urls` |
| shorten.dfy | Shorten | `shorten_url` (draw until free) and `get_all_urls` |
| analytics.dfy | Analytics | `get_analytics_data` and its seven sub-queries, the summary, the chart data |
| admin.dfy | Admin | the dashboard figures and table, and the QR page |
| export.dfy | Export | the three export routes, the filter builder, the `IN (...)` placeholder list |

Conventions:

- Timestamps are whole seconds, and `DATE(t)` is the day number `t / 86400`. The current time, and "today", are parameters.
- Randomness is a stream passed as a parameter:
  - `pick: nat -> nat` gives the alphabet indices for the batch allocator;
  - `draw: nat -> string` gives the successive results of `generate_short_code`.
- An exception from the database is a boolean parameter (`fails`, `storeDown`, ...) wherever the source catches it.
- Helpers the code imports from `utils` but that are not defined there are parameters. These are `validate_url`, `clean_url`, `create_qr_code`, `generate_qr_code_base64` and `export_to_csv_format`.
- `get_db_connection` is imported from `utils` but not defined there either. The model takes it to open the database with `sqlite3.Row` rows, which support both `dict(row)` and `row[0]`. With plain tuples, `dict(cursor.fetchone())` in `get_analytics_data` would raise, and every analytics route would answer 500.
- Settings that `config.py` does not define are parameters too: `MAX_EXPORT_RECORDS` and the two retention periods.

Where the behaviour is surprising, the model keeps it as the code has it, and a lemma exhibits it:

- the dashboard's QR column counts source `'qr'`, which no insert ever writes (`Admin.QrColumnAlwaysZero`);
- the analytics 404 is swallowed into a 500 (`Analytics.NotFoundBecomesServerError`);
- `$` in the short-code pattern admits a trailing newline (`Redirect.TrailingNewlineAccepted`);
- `t.co` matches any domain containing it, `reddit.com` among them (`Redirect.RedditCountsAsTwitter`);
- a `null` `custom_name` makes a bulk item fail (`Bulk.NullCustomNameFails`);
- sample data adds two clicks on every run (`Database.SeedAlwaysAddsTwoClicks`);
- cleanup can leave orphaned clicks (`Database.CleanupCanOrphanClicks`);
- the admin dashboard always answers its 500 page: the page template's CSS rules use single braces, so `str.format` raises `KeyError` on the first of them (`Admin.AdminTemplateRaises`, `Admin.AdminDashboard`);
- the "24h" chart compares `clicked_at` with the cutoff as text, and the stored 'T' separator sorts after the space `datetime()` writes, so it counts every click since the start of the cutoff's date, up to 48 hours back (`Analytics.DayOldClickInHourlyChart`).

## Model

| member | source | states |
|---|---|---|
| Strings.TrimStart | routes/bulk.py:376 | the result is a suffix of the input, and starts with no whitespace |
| Strings.TrimEnd | routes/bulk.py:376 | the result is a prefix of the input, and ends with no whitespace |
| Strings.Strip | routes/bulk.py:376-377 | `.strip()`: no contract of its own; `TrimStart` and `TrimEnd` state what each side removes and `StripEmptyIff` when the result is empty |
| Strings.StripEmptyIff | routes/bulk.py:376-380 | `strip()` is empty exactly when every character is whitespace |
| Strings.Lower | routes/analytics.py:176-177 | same length; each character is lower-cased |
| Strings.Contains | routes/redirect.py:126 | Python's `in` on strings and `LIKE '%t%'`; no contract of its own, it is the condition `FirstMatchName`, `TrafficSourceFacts` and `DeviceTypeFacts` state their results by |
| Strings.BeforeFirst | routes/redirect.py:95 | `split(",")[0]`: a prefix of the input without the separator |
| Strings.BeforeFirstAt | routes/redirect.py:95 | the cut is exactly at the first separator |
| Strings.BeforeAny | routes/redirect.py:112 | a prefix that contains none of the stop characters |
| Strings.BeforeAnyAt | routes/redirect.py:112 | the cut is exactly at the first stop character |
| Strings.CountChar | routes/export.py:286 | the count never exceeds the length |
| Strings.CountCharConcat | routes/export.py:109 | counts add up over concatenation |
| Strings.Join | routes/export.py:109 | `" AND ".join(conditions)`; no contract of its own, `CountCharJoin` states the placeholder count of the joined text |
| Strings.CountCharJoin | routes/export.py:109 | the count of a joined text is the pieces' counts plus the separators' |
| Ordering.InsertDesc | routes/analytics.py:109 | one more element, and the multiset is kept |
| Ordering.SortDesc | routes/analytics.py:149 | `ORDER BY ... DESC` is a permutation of its input |
| Ordering.InsertDescSorted | routes/analytics.py:149 | insertion keeps descending order |
| Ordering.SortDescSorted | routes/analytics.py:149 | the sort's output is in descending key order |
| Ordering.SortDescSameElements | routes/analytics.py:149 | the sort keeps exactly the input's elements |
| Ordering.Take | routes/analytics.py:150 | `LIMIT n` (and `s[:n]`) is a prefix: exactly the first `n` when the input is longer, the whole input otherwise |
| Ordering.Filter | routes/admin.py:222 | `WHERE` keeps exactly the rows that satisfy it |
| Ordering.FilterConcat | database.py:246-249 | filtering distributes over concatenation |
| Ordering.FilterEmpty | routes/export.py:32-33 | no rows pass exactly when no row satisfies the condition |
| Ordering.FilterAll | routes/export.py:197-201 | a condition every row meets filters nothing |
| Ordering.SumByInsert | routes/analytics.py:109 | insertion keeps the sum of the counts |
| Ordering.SumBySort | routes/analytics.py:109 | sorting keeps the sum of the counts |
| Ordering.Occurrences | routes/analytics.py:105-108 | a key's occurrences never exceed the length |
| Ordering.KeysAt | routes/analytics.py:108 | every group's key is among the keys |
| Ordering.KeysWitness | routes/analytics.py:108 | every key has a group |
| Ordering.Bump | routes/analytics.py:108 | adding a row to the groups makes at most one new group |
| Ordering.BumpKeys | routes/analytics.py:108 | after adding a row, the keys are the old keys plus the row's |
| Ordering.BumpDistinct | routes/analytics.py:108 | adding a row keeps the keys distinct |
| Ordering.BumpCount | routes/analytics.py:108 | adding a row counts it once, under its own key only |
| Ordering.BumpSum | routes/analytics.py:108 | adding a row adds one to the total |
| Ordering.GroupCounts | routes/analytics.py:105-108 | `GROUP BY ... COUNT(*)` in order of first appearance; no contract of its own, `GroupCountsFacts` and `GroupCountsExact` state its properties |
| Ordering.GroupCountsFacts | routes/analytics.py:105-108 | `GROUP BY`: distinct keys, exactly the keys present, counts summing to the row count |
| Ordering.CountOfDistinct | routes/analytics.py:108 | with distinct keys, a group's count is its key's count |
| Ordering.OccurrencesPositive | routes/analytics.py:108 | a present key occurs at least once |
| Ordering.GroupCountsExact | routes/analytics.py:105-108 | each group's `COUNT(*)` is the number of rows with its key |
| Ordering.RankedCounts | routes/analytics.py:105-109 | `GROUP BY ... ORDER BY count DESC`; no contract of its own, `RankedCountsOrder`, `RankedCountsExact` and `RankedCountsDistinct` state its properties |
| Ordering.RankedCountsAt | routes/analytics.py:109 | `ORDER BY count DESC`: an earlier group never has a smaller count |
| Ordering.RankedCountsOrder | routes/analytics.py:105-109 | the ranked groups are in descending count order, with counts summing to the row count |
| Ordering.RankedCountsExact | routes/analytics.py:105-109 | ranked groups have distinct keys, exactly the keys present, each with its exact count |
| Ordering.DistinctKeysNoRepeats | routes/analytics.py:108 | groups with distinct keys never hold the same group twice |
| Ordering.NoRepeatsAt | routes/analytics.py:108 | two positions of a sequence without repeats hold different values |
| Ordering.GroupsKeysDistinct | routes/analytics.py:105-109 | any reordering of the `GROUP BY` groups lists each key once |
| Ordering.RankedCountsDistinct | routes/analytics.py:105-109 | the ranked groups list each key once |
| Ordering.Histogram | routes/analytics.py:123-124 | `GROUP BY bucket ORDER BY bucket`; no contract of its own, `HistogramAscending`, `HistogramExact` and `HistogramFacts` state its properties |
| Ordering.HistogramAscending | routes/analytics.py:123-124 | the buckets are in strictly ascending key order |
| Ordering.HistogramExact | routes/analytics.py:123-124 | each bucket's count is the exact number of its rows, at least 1; every key that occurs has a bucket |
| Ordering.HistogramFacts | routes/analytics.py:123-124 | each bucket once, in strictly ascending key order, with its exact count; every key that occurs has a bucket; the counts sum to the rows |
| Tables.ShortUrl | routes/shorten.py:45 | `BASE_URL`, then `/`, then the code, and nothing else |
| Tables.FindByCode | routes/redirect.py:26-36 | a row is found only when it has the code; none is found exactly when no row has it |
| Tables.FindByCodeUnique | database.py:21 | under the `UNIQUE` constraint the row found is the only row with that code |
| Tables.ClicksOf | routes/analytics.py:98 | `WHERE url_id = ?`; no contract of its own, `Ordering.Filter`'s contract states that it keeps exactly the link's clicks |
| Tables.UniqueVisitors | routes/analytics.py:93 | `COUNT(DISTINCT ip_address)`; no contract of its own, `UniqueVisitorsIsDistinctCount`, `UniqueVisitorsAtMostClicks` and `UniqueVisitorsAppend` state its properties |
| Tables.IpInSet | routes/analytics.py:93 | an address occurs in the rows exactly when it is in their address set |
| Tables.UniqueVisitorsIsDistinctCount | routes/analytics.py:93 | `COUNT(DISTINCT ip_address)` is the number of distinct non-NULL addresses |
| Tables.UniqueVisitorsAtMostClicks | routes/analytics.py:92-93 | there are never more distinct visitors than clicks |
| Tables.UniqueVisitorsAppend | routes/redirect.py:72-83 | one more click adds one visitor exactly when its address is new |
| Tables.IpSetConcat | routes/analytics.py:93 | the address set of concatenated rows is the union of the two sets |
| Tables.CountSource | routes/analytics.py:94 | the `CASE WHEN source = ...` count is at most the row count |
| Tables.CountSourceAbsent | routes/admin.py:218 | a source that no row carries counts 0 |
| Tables.MaxClickedAt | routes/analytics.py:96 | `MAX` is NULL exactly on no rows; otherwise it bounds every row and is attained |
| Tables.MinClickedAt | routes/analytics.py:95 | `MIN` is NULL exactly on no rows; otherwise it bounds every row and is attained |
| Tables.NewestFirst | routes/analytics.py:149 | `ORDER BY clicked_at DESC`; no contract of its own, `Ordering.SortDescSorted`, `Ordering.SortDescSameElements` and `Analytics.RecentClicksFacts` state its properties |
| Tables.ActiveNewestFirst | routes/shorten.py:80-82 | `WHERE is_active = 1 ORDER BY created_at DESC`; no contract of its own, `ActiveNewestFirstFacts` states its properties |
| Tables.ActiveNewestFirstFacts | routes/shorten.py:70-83 | the active rows, as a permutation, newest first |
| Database.SetLatestSource | routes/redirect.py:177-185 | exactly the link's clicks at its latest `clicked_at` get the new source; every other row is unchanged |
| Database.SetLatestSourceOrigin | routes/redirect.py:177-185 | every row afterwards either carries the new source or was there before |
| Database.FilterKeepsUnique | database.py:244-258 | deleting rows keeps codes and ids unique |
| Database.LinkStore.Snapshot | database.py:18-44 | the snapshot is both tables as they stand |
| Database.LinkStore.constructor | database.py:8-82 | a fresh store has empty tables and meets the schema invariant |
| Database.LinkStore.InsertUrl | database.py:18-30 | a new code appends one active row with the next id; a taken code changes nothing |
| Database.LinkStore.InsertClick | database.py:33-44 | appends one click with the next id; `urls` is unchanged |
| Database.LinkStore.UpdateLatestSource | routes/redirect.py:177-185 | the clicks become `SetLatestSource` of the old clicks; nothing else changes |
| Database.LinkStore.Rollback | routes/bulk.py:439-440 | both tables and both counters return to the saved state |
| Database.LinkStore.DeleteClicksBefore | database.py:246-249 | keeps exactly the clicks on or after the cutoff day; returns the number removed |
| Database.LinkStore.DeleteInactiveUrlsBefore | database.py:254-258 | keeps every active row, and every inactive row on or after the cutoff day; returns the number removed |
| Database.SampleClicks | database.py:126-145 | two clicks for TEST01 when it exists, none otherwise |
| Database.HasCodeAppend | database.py:112-123 | after appending a row, a code is taken exactly when it was taken before or is the row's |
| Database.SeedUrls | database.py:112-123 | the `urls` table after `INSERT OR IGNORE` of each sample; no contract of its own, `SeedUrlsCovers`, `SeedUrlsNoop` and `SeedUrlsIdempotent` state its properties |
| Database.SeedUrlsCovers | database.py:112-123 | `INSERT OR IGNORE` keeps every old row, and afterwards every sample code is present |
| Database.SeedUrlsNoop | database.py:112-123 | when every sample code is already present, seeding changes nothing |
| Database.SeedUrlsIdempotent | database.py:112-123 | seeding twice leaves `urls` as seeding once |
| Database.SeedAlwaysAddsTwoClicks | database.py:126-159 | every run after the first adds two more clicks for TEST01 |
| Database.InsertSamples | database.py:112-123 | the insert loop leaves `urls` as the seeding function says, and `clicks` unchanged |
| Database.CreateSampleData | database.py:84-169 | on success, seeded `urls` plus the sample clicks; a failure changes nothing and answers False |
| Database.RetainedClicks | database.py:246-249 | a click is kept exactly when it is dated on or after the cutoff |
| Database.RetainedUrls | database.py:254-258 | an active row is never deleted; a row is deleted exactly when it is inactive and older than the cutoff |
| Database.CleanupOldData | database.py:237-270 | both tables become their retained parts; a failure changes nothing and answers False |
| Database.CleanupCanOrphanClicks | database.py:246-258 | a deleted inactive link can leave clicks that name no row |
| Database.OrphanCount | database.py:210-218 | the orphan count is 0 exactly when every click names an existing row |
| Database.CheckDatabaseHealth | database.py:191-235 | healthy exactly when both tables exist and no error occurs; orphans only warn |
| Redirect.AlnumRun | routes/redirect.py:158 | the longest alphanumeric prefix |
| Redirect.ValidateShortCode | routes/redirect.py:155-159 | accepted exactly when 6 to 10 ASCII letters or digits, optionally followed by one newline |
| Redirect.TrailingNewlineAccepted | routes/redirect.py:158-159 | a code followed by a newline passes; 5 or 11 characters fail |
| Redirect.Header | routes/redirect.py:92 | `request.headers.get(name)`; no contract of its own, `GetClientIp` states the result it leads to |
| Redirect.HeaderOrEmpty | routes/redirect.py:66-67 | `request.headers.get(name, "")`; no contract of its own, `ClickFor` states the click fields taken from it |
| Redirect.GetClientIp | routes/redirect.py:89-102 | the header's text up to its first comma, stripped, when `x-forwarded-for` is sent; else `x-real-ip`; else the peer address or "unknown" |
| Redirect.FirstForwardedFacts | routes/redirect.py:92-94 | the result is the header's text before its first comma (all of it when there is none), stripped: a comma-free piece of the header with no whitespace at either end |
| Redirect.FirstEntry | routes/redirect.py:95 | the text `split(",")[0]` keeps ends at the first comma or at the end of the header |
| Redirect.InnerPiece | routes/redirect.py:95 | stripping the comma-free first entry leaves a comma-free piece of the header |
| Redirect.AfterScheme | routes/redirect.py:110 | what follows the scheme is a suffix of the URL |
| Redirect.AfterValidScheme | routes/redirect.py:110 | a valid scheme (a letter, then letters, digits, `+`, `-` or `.`) and its colon are removed, and nothing else |
| Redirect.AfterNoScheme | routes/redirect.py:110 | a URL with no colon, or no valid scheme before its first colon, is kept whole |
| Redirect.Netloc | routes/redirect.py:110 | the network location contains no `/`, `?` or `#`, and its brackets balance |
| Redirect.HttpsAfterScheme | routes/redirect.py:110 | after the `https` scheme comes the rest of the URL |
| Redirect.HostBeforeStops | routes/redirect.py:110 | a host ends at the path, query or fragment that follows it |
| Redirect.NetlocAfterSlashes | routes/redirect.py:110 | after `//`, the network location is the host up to the first `/`, `?` or `#` |
| Redirect.FirstMatch | routes/redirect.py:126-139 | no match exactly when no pattern occurs; a match is the first rule whose pattern occurs |
| Redirect.FirstMatchName | routes/redirect.py:126-139 | a match is the name of one of the rules |
| Redirect.SocialNames | routes/redirect.py:114-123 | the platform names |
| Redirect.DetermineTrafficSource | routes/redirect.py:104-153 | the classifier: "direct" for an empty referrer, "unknown" when no network location can be had, otherwise the lower-cased location's class; no contract of its own, its properties are `TrafficSourceFacts` |
| Redirect.ClassifyDomain | routes/redirect.py:112-150 | social table first, then search engines, mail, a scanner user agent, else `referral_` and the domain; no contract of its own, its labels are stated by `ClassifyDomainLabels` |
| Redirect.IsQrScanner | routes/redirect.py:145-146 | "qr" or "scanner" in the lower-cased user agent; no contract of its own, used by `ClassifyDomainLabels` and `TrafficSourceFacts` |
| Redirect.ClassifyDomainLabels | routes/redirect.py:109-150 | a non-empty referrer is never "direct" and never "qr"; "qr_code" only for a scanner user agent |
| Redirect.TrafficSourceFacts | routes/redirect.py:104-153 | "direct" exactly for an empty referrer; "qr_code" needs a referrer and a scanner; never "qr" |
| Redirect.HttpsNetloc | routes/redirect.py:109-110 | the host of an `https://` URL is its network location |
| Redirect.QrScannerWithoutReferrerIsDirect | routes/redirect.py:106-107 | a scanner with no referrer is counted as "direct" |
| Redirect.TcoMatchesAnyDomain | routes/redirect.py:115-127 | any domain containing "t.co" is twitter |
| Redirect.TcoHostIsTwitter | routes/redirect.py:109-127 | an https referrer whose host contains "t.co" is twitter |
| Redirect.RedditCountsAsTwitter | routes/redirect.py:115-127 | a referrer from reddit.com is labelled twitter |
| Redirect.ClickFor | routes/redirect.py:61-83 | the stored click: the client address, each header exactly its first 500 characters (all of it when shorter), the classified source, never "qr" |
| Redirect.RecordClick | routes/redirect.py:61-87 | appends the click; a write failure is swallowed and changes nothing |
| Redirect.RedirectOutcome | routes/redirect.py:14-59 | 404 for an invalid or unknown code, 410 for an inactive row, 500 for a store error, otherwise the row's URL |
| Redirect.RedirectOutcomeByRow | routes/redirect.py:26-54 | with unique codes, the outcome is decided by the one row with the code |
| Redirect.RedirectUrl | routes/redirect.py:14-59 | answers `RedirectOutcome`; the clicks become `ClicksAfterRedirect`; `urls` is unchanged |
| Redirect.ClicksAfterRedirect | routes/redirect.py:15-87 | the clicks after `redirect_url`: unchanged on any error answer or a failed click write; otherwise one more click, built by `ClickFor` |
| Redirect.RedirectFromQr | routes/redirect.py:161-191 | redirects as `redirect_url`, then relabels the link's clicks at the latest `clicked_at` "qr_code"; every failure is 500; an error answer leaves the clicks unchanged, a failed relabel keeps the recorded click |
| Redirect.RelabelKeepsNoAdminQr | routes/redirect.py:172-181 | relabelling the clicks at the latest `clicked_at` "qr_code" never writes the "qr" label the dashboard counts |
| Bulk.AlphabetIsAlnum | routes/bulk.py:447 | the alphabet is letters and digits |
| Bulk.Candidate | routes/bulk.py:451 | a candidate has the requested length, all letters and digits |
| Bulk.CandidateAtPosition | routes/bulk.py:450-451 | the j-th candidate starts j·length picks into the stream |
| Bulk.Allocate | routes/bulk.py:442-460 | at most 50 checks; a code found is free, alphanumeric and of the requested length |
| Bulk.AllocateFirstFree | routes/bulk.py:450-460 | the code found is the first free candidate; no code means all 50 were taken |
| Bulk.AllocateExhausted | routes/bulk.py:450-460 | an allocator that returns no code has drawn all of its candidates |
| Bulk.AllocateBulk | routes/bulk.py:442-460 | the loop returns the allocation the specification function defines |
| Bulk.AllocatedCodeIsValid | routes/bulk.py:442-458 | an allocated code passes `validate_short_code` |
| Bulk.Get | routes/bulk.py:376-377 | `item.get(key, default)`: the default when missing, NULL when null, the text otherwise |
| Bulk.ParseItem | routes/bulk.py:376-377 | an item cannot be parsed exactly when `url` or `custom_name` is null; an empty name becomes NULL |
| Bulk.BulkGenerate | routes/bulk.py:363-440 | the batch loop ends in the state `BulkRun` defines; a non-object item aborts and rolls back |
| Bulk.BulkRun | routes/bulk.py:364-440 | the batch as a function: 500 for a store error or a non-object item, otherwise the loop over the items from an empty result list; no contract of its own, `BulkGenerate`, `RunAccounted` and `BatchFacts` state what it does |
| Bulk.Step | routes/bulk.py:374-376 | one pass of the loop: a non-object item fails the request with 500, an object item is `ItemStep`; no contract of its own, `StepAccounted` states its properties |
| Bulk.ItemStep | routes/bulk.py:375-427 | one object item: a failure entry when `.strip()` raises, a skip for a blank URL, a failure for an invalid URL, else the allocation; no contract of its own, `StepAccounted`, `NullCustomNameFails`, `BlankUrlSkipped` and `AllocationFailureContained` state its properties |
| Bulk.ProcessItem | routes/bulk.py:375-427 | one item's effect on the store and counters is `ItemStep` |
| Bulk.PlaceItem | routes/bulk.py:395-416 | allocates, then inserts and records success, or records the allocation failure |
| Bulk.SuccessesAppend | routes/bulk.py:408-416 | a new entry adds to the successes exactly when it is a success |
| Bulk.WithFailureAccounted | routes/bulk.py:383-392 | recording a failure keeps the accounting invariant |
| Bulk.InsertedAccounted | routes/bulk.py:398-416 | inserting under a fresh code keeps the accounting invariant |
| Bulk.StepAccounted | routes/bulk.py:374-427 | each item keeps the invariant and adds at most one result |
| Bulk.Run | routes/bulk.py:374-427 | the remaining passes of the loop, stopping at the first failed step; no contract of its own, `RunAccounted` states its properties |
| Bulk.RunAccounted | routes/bulk.py:374-427 | the loop keeps the invariant and adds at most one result per item |
| Bulk.BatchFacts | routes/bulk.py:363-437 | success plus failure counts are at most `total_count`; every success is one new row; the new codes are fresh and distinct |
| Bulk.NullCustomNameFails | routes/bulk.py:418-427 | a null `custom_name` fails the item with the `strip` error message |
| Bulk.BlankUrlSkipped | routes/bulk.py:379-380 | a blank URL is skipped with no result and no count |
| Bulk.AllocationFailureContained | routes/bulk.py:418-427 | a failed allocation fails only its own item, and the batch goes on |
| Shorten.FirstFreeDrawUnique | routes/shorten.py:22-27 | the first free draw is unique |
| Shorten.FirstFreeDraw | routes/shorten.py:22-27 | a code is the first free draw: the draws before it are all taken; no contract of its own, `FirstFreeDrawUnique` and `DrawFreeCode` use it |
| Shorten.DrawFreeCode | routes/shorten.py:22-27 | the code returned is the first draw that no row has |
| Shorten.ShortenUrl | routes/shorten.py:14-64 | one new active row with the first free draw, kept even when QR generation then fails (500); a store error is 500 and changes nothing |
| Shorten.GetAllUrls | routes/shorten.py:66-105 | the listing, or 500 |
| Shorten.Listing | routes/shorten.py:73-100 | the listing rows with their `short_url`; no contract of its own, `ListingFacts` states its properties |
| Shorten.ListingFacts | routes/shorten.py:70-102 | exactly the active rows, newest first, each with its click count and short URL |
| Analytics.DeviceType | routes/analytics.py:175-179 | the device `CASE`; no contract of its own, `DeviceTypeFacts` and `MobileWinsOverTablet` state it |
| Analytics.DeviceTypeFacts | routes/analytics.py:175-179 | Mobile, Tablet and Desktop, exactly as the `CASE` decides, NULL counted as Desktop |
| Analytics.MobileWinsOverTablet | routes/analytics.py:176-177 | a user agent naming both a phone and a tablet is Mobile |
| Analytics.ReferrerBucket | routes/analytics.py:158-161 | an empty or NULL referrer is "Direct"; any other is itself |
| Analytics.Map | routes/analytics.py:112 | the comprehension maps each row in order |
| Analytics.SourceStatsOf | routes/analytics.py:104-110 | one stat per group, with the group's count; counts sum as the groups' do |
| Analytics.GetAnalyticsData | routes/analytics.py:75-208 | fails with 500 exactly when the store errs or no row has the code; otherwise `Aggregates` of that row's clicks |
| Analytics.HeadlineFacts | routes/analytics.py:90-101 | total = rows; distinct visitors and QR clicks at most total; first ≤ last, NULL exactly on no clicks |
| Analytics.SourceStatsOrder | routes/analytics.py:104-110 | per-source counts in descending order, summing to the click count |
| Analytics.SourceStatsExact | routes/analytics.py:104-110 | each source's count is its number of clicks, its distinct count at most that |
| Analytics.OccurrencesIsFilter | routes/analytics.py:105-108 | a source's group count is the number of its clicks |
| Analytics.OccurrencesMap | routes/analytics.py:105-108 | the rows whose key is `k` are as many as the rows the matching `WHERE` keeps |
| Analytics.MapHas | routes/analytics.py:158-165 | a row's key is among the mapped keys |
| Analytics.RankedIndex | routes/analytics.py:163-167 | every key that occurs has a ranked group, with its exact count |
| Analytics.ReferrersLeftOut | routes/analytics.py:163-167 | a bucket cut by `LIMIT 10` has no more clicks than any listed one |
| Analytics.ReferrersAllListed | routes/analytics.py:163-167 | when fewer than 10 buckets are listed, every click's bucket is |
| Analytics.DeviceRowExact | routes/analytics.py:173-185 | a listed class is Mobile, Tablet or Desktop, counted exactly |
| Analytics.DeviceRowsExact | routes/analytics.py:173-185 | every listed class is Mobile, Tablet or Desktop, counted exactly |
| Analytics.DeviceRowsComplete | routes/analytics.py:173-185 | every click's class is listed |
| Analytics.DailyRowsExact | routes/analytics.py:130-140 | each listed day is in the window, with its exact click count and no more visitors than clicks |
| Analytics.DailyRowsComplete | routes/analytics.py:130-140 | every day in the window that has a click is listed |
| Analytics.SourceStats | routes/analytics.py:104-110 | `source_stats`; no contract of its own, `SourceStatsOrder` and `SourceStatsExact` state its properties |
| Analytics.RecentClicks | routes/analytics.py:145-151 | `recent_clicks`; no contract of its own, `RecentClicksFacts` states its properties |
| Analytics.ReferrerStats | routes/analytics.py:156-168 | `referrer_stats`; no contract of its own, `ReferrerStatsFacts` states its properties |
| Analytics.DeviceStats | routes/analytics.py:173-185 | `device_stats`; no contract of its own, `DeviceStatsFacts` states its properties |
| Analytics.HourlyStats | routes/analytics.py:115-126 | `hourly_stats`, a histogram over the window's hours; no contract of its own, `HourlyStatsFacts` states its properties |
| Analytics.DailyStats | routes/analytics.py:128-140 | `daily_stats`; no contract of its own, `DailyStatsFacts` states its properties |
| Analytics.Aggregates | routes/analytics.py:89-187 | the seven query results of one link; no contract of its own, `HeadlineFacts` and the lemmas above state them |
| Analytics.RecentClicksFacts | routes/analytics.py:145-151 | the first 50 (all, when no more) of the link's clicks in most-recent-first order; no click left out is newer than a listed one |
| Analytics.ReferrerStatsFacts | routes/analytics.py:156-168 | at most 10 buckets, each once, in descending count order, with exact counts; a bucket left out has no more clicks than any listed; under 10 listed means all are |
| Analytics.DeviceStatsFacts | routes/analytics.py:173-185 | each class once, Mobile, Tablet or Desktop, in descending count order, with its exact number of clicks; every click's class is listed; the counts sum to the click count |
| Analytics.HourlyStatsFacts | routes/analytics.py:115-124 | hours ascend; every bucket is the hour of a click dated within the last 7 days and holds that hour's exact click count (at least 1); every such click's hour has a bucket |
| Analytics.DailyStatsFacts | routes/analytics.py:130-140 | each day once, in strictly ascending order, within the last 30 days, with its exact click count (at least 1) and no more visitors than clicks; every day in the window that has a click is listed |
| Analytics.AnalyticsEndpoint | routes/analytics.py:41-73 | 404 when the route's own lookup misses, otherwise the aggregates |
| Analytics.NotFoundBecomesServerError | routes/analytics.py:84-85 | an unknown code is 500 from the summary and the chart, not 404 |
| Analytics.Summary | routes/analytics.py:210-232 | 500 exactly when the data cannot be had; otherwise the link's headline figures, the first five source rows and the device rows |
| Analytics.TopSourcesFacts | routes/analytics.py:227 | the top sources: each once, in descending count order, with exact counts; none left out is larger; all are listed when there are at most five |
| Analytics.TopSourcesOrder | routes/analytics.py:227 | the top sources are in descending count order, each once, none left out larger |
| Analytics.TopSourcesExact | routes/analytics.py:227 | each top source carries its exact number of clicks, at least one |
| Analytics.TopSourcesAll | routes/analytics.py:227 | with at most five sources, every click's source is listed |
| Analytics.SeriesOf | routes/analytics.py:250-285 | "24h" is hourly, "30d" is 30 days, any other period is 7 days |
| Analytics.SinceTime | routes/analytics.py:258 | the "24h" filter: the text comparison reduces to comparing dates; no contract of its own, `ChartFacts` and `DayOldClickInHourlyChart` use it |
| Analytics.Buckets | routes/analytics.py:250-287 | the three chart queries; no contract of its own, `ChartFacts` states their properties |
| Analytics.ChartData | routes/analytics.py:234-297 | 500 exactly when the store errs or no row has the code; otherwise the period echoed and `Buckets` of that row's clicks |
| Analytics.ChartFacts | routes/analytics.py:250-287 | buckets in ascending order whose counts sum to the number of clicks inside the window the period selects ("24h": dated on or after the cutoff's date) |
| Analytics.HistogramOne | routes/analytics.py:259-260 | a single row makes a single bucket with count 1 |
| Analytics.DayOldClickInHourlyChart | routes/analytics.py:258 | at noon, a click 35 hours old is counted by the "24h" chart |
| Admin.DashboardStats | routes/admin.py:185-199 | the "total" figure equals the "active" figure; total clicks; today's clicks are exactly the clicks dated today, at most total |
| Admin.DashboardRowsFacts | routes/admin.py:202-225 | the first 100 (all, when no more) of the active rows newest first, each with its 0-defaulted counts; no link left out is newer than a listed one |
| Admin.DashboardRowsPrefix | routes/admin.py:222-224 | the rows are those of the first 100 active links newest first, all of them when there are no more |
| Admin.DashboardRowsAll | routes/admin.py:222-224 | with at most 100 active links, every one is listed |
| Admin.DashboardRowsActive | routes/admin.py:202-225 | every listed row is an active link's, with distinct addresses and QR clicks at most its clicks |
| Admin.DashboardRowsNewest | routes/admin.py:222-224 | the listed rows are newest first, and none is older than a link left out |
| Admin.RowOf | routes/admin.py:203-221 | one dashboard row with its counts; no contract of its own, `DashboardRowsFacts` and `QrColumnAlwaysZero` state them |
| Admin.DashboardRows | routes/admin.py:202-225 | the dashboard table; no contract of its own, `DashboardRowsFacts` states its properties |
| Admin.QrColumnAlwaysZero | routes/admin.py:218 | on clicks the redirect path wrote, every row's QR column is 0 |
| Admin.DisplayUrl | routes/admin.py:237 | the shortened URL shown in the table; no contract of its own, `DisplayUrlFacts` and `DisplayUrlIdempotent` state its properties |
| Admin.DisplayUrlFacts | routes/admin.py:237 | kept whole up to 50 characters; otherwise the first 50 plus "..." |
| Admin.DisplayUrlIdempotent | routes/admin.py:237 | shortening a shown URL again changes nothing |
| Admin.BuildTableRows | routes/admin.py:231-257 | one rendered row per query row, in order, with its short URL and shown URL |
| Admin.FirstMissingField | routes/admin.py:260-268 | the key `str.format` fails on: none exactly when every field has a value, else the first field without one |
| Admin.FillTemplate | routes/admin.py:260-280 | the content exactly when every field has a value; otherwise the caught `KeyError`, a 500 |
| Admin.AdminTemplateRaises | routes/admin.py:11-20 | filling the page template fails on its first CSS rule, which no keyword argument names |
| Admin.AdminDashboard | routes/admin.py:178-280 | always the 500 page: a query error, or else the `KeyError` from filling the template |
| Admin.QrUrl | routes/admin.py:302 | the short URL followed by `?source=qr` |
| Admin.FindActive | routes/admin.py:290-297 | finds a row only if it is active and has the code; none exactly when no such row |
| Admin.QrCodePage | routes/admin.py:283-342 | 404 exactly for a code no active row has; 500 for a failure; otherwise the row's fields and QR target |
| Export.ExportRowOf | routes/export.py:289-298 | click count exact; distinct and QR counts at most that; last click NULL exactly on no clicks |
| Export.RowsFacts | routes/export.py:299-306 | one row per selected link, newest first; empty exactly when no link is selected |
| Export.Rows | routes/export.py:289-306 | the per-link export rows for a condition, newest first; no contract of its own, `RowsFacts` states its properties |
| Export.GetExportData | routes/export.py:279-313 | the rows of the active links with the given codes, none on a store error; no contract of its own, `RowsFacts` and `ExportData` state it |
| Export.ExportData | routes/export.py:16-60 | 400 for no codes or too many; 404 when nothing is found or the query fails; json and csv in any case; other text 400 |
| Export.FormatCaseInsensitive | routes/export.py:36-43 | the letter case of the format never changes the answer |
| Export.CountCharAbsent | routes/export.py:97-105 | a text without `?` counts 0 |
| Export.OneMark | routes/export.py:97-105 | a condition text ending in its only `?` counts 1 |
| Export.ConditionMarks | routes/export.py:97-109 | each condition holds one `?`, the separator none |
| Export.SumCountsOnes | routes/export.py:108-109 | conditions holding one `?` each sum to their number |
| Export.BuildFilters | routes/export.py:92-109 | campaign, start and end conditions in that order, each only when given; `?` count equals the number of parameters |
| Export.WhereSuffix | routes/export.py:108-109 | the text added before `GROUP BY`; no contract of its own, `WhereSuffixMarks` states its placeholder count |
| Export.WhereSuffixMarks | routes/export.py:108-109 | the added `WHERE` text holds one `?` per condition |
| Export.Placeholders | routes/export.py:133 | exactly `n` `?`, separated by `n - 1` commas |
| Export.PlaceholdersFacts | routes/export.py:133 | the joined list's counts and length, by induction on `n` |
| Export.FindById | routes/export.py:144 | a row is found only when it has the id; none exactly when no row has it |
| Export.ClickRowsForFacts | routes/export.py:131-150 | newest first; exactly the clicks of links with the given codes, each under its link's code |
| Export.ClickRowsFor | routes/export.py:131-150 | the clicks export; no contract of its own, `ClickRowsForFacts` states its properties |
| Export.ExportAllData | routes/export.py:62-174 | every failure is 500, also for an unsupported format; clicks only when asked and rows exist |
| Export.SelectedFacts | routes/export.py:89-106 | no filters selects every active row; a campaign filter selects only that campaign |
| Export.Selected | routes/export.py:84-106 | the `WHERE` condition of the bulk export; no contract of its own, `SelectedFacts` and `BuildFilters` state it |
| Export.PeriodDays | routes/export.py:197-201 | only "7d" and "30d" have a look-back |
| Export.InPeriod | routes/export.py:196-200 | the `date_filter`; no contract of its own, `PeriodClicksFacts` states which clicks it keeps |
| Export.PeriodClicksFacts | routes/export.py:197-216 | any other period keeps every click; "7d"/"30d" keep exactly the clicks inside the window |
| Export.PeriodClicks | routes/export.py:197-216 | the link's clicks within the period; no contract of its own, `PeriodClicksFacts` states its properties |
| Export.HourOfDay | routes/export.py:212 | the hour of the day is between 0 and 23 |
| Export.PeriodStatsOf | routes/export.py:221-232 | total exact; distinct non-NULL addresses and 'qr_code' clicks counted exactly, at most total; first ≤ last, NULL exactly on no clicks |
| Export.ExportAnalyticsData | routes/export.py:176-277 | 404 for an unknown code, active or not; 400 for an unsupported format; 500 for a store error; for json the period's clicks newest first, their exact statistics and ranked sources; for csv the CSV helper applied to those clicks |
| Export.ClickListFacts | routes/export.py:204-218 | the click list is newest first and a permutation of the kept clicks |

## Left out

- HTML, CSS and JavaScript pages are not modelled: the bulk page, the admin page body and the QR page body. This includes the browser-side expansion of quantities and suffixes. All of it is presentation.
- The image data of the QR codes. `create_qr_code` is a parameter; `generate_qr_code_base64` appears only as a failure flag.
- `validate_url`, `clean_url`, `get_url_info` and `export_to_csv_format` are not defined in `utils.py`. They are parameters, and the CSV helper is assumed never to raise.
- File-system I/O, `backup_database` and the backup and restore in `utils.init_database`.
- Application wiring and the framework's route-dispatch order. This covers `main.py`, `config.py`, `models.py`, `setup.py` and `routes/__init__.py`.
- `get_system_analytics`, `get_export_formats` and `get_exportable_campaigns` are not part of this model. They are further read-only aggregates of the same kind, and none of the listed properties concern them.
- The conversion and success-rate percentages in the analytics summary are left out, because they are floating point.
- Dates are integers. SQLite compares ISO texts, and `DATE('now')` is UTC while `datetime.now()` is local time; the model has one clock. The one comparison of a stored timestamp with a `datetime()` text, the "24h" chart's, is modelled by its effect: a comparison of dates (`Analytics.SinceTime`).
- The admin page template is listed only as far as `str.format` reads it: its first three replacement fields, all of them CSS rules. The rendered page is not modelled, since it is never produced; the figures and table it would show are (`DashboardStats`, `DashboardRows`, `BuildTableRows`).
- Export.ExportAllData: `dayOf` stands for the comparison of a `YYYY-MM-DD` parameter with `DATE(created_at)`. A malformed date text, which SQLite would compare as text, is not modelled.
- Strings.Lower: lower-cases ASCII letters only, as SQLite's `LOWER` does; Python's `str.lower` also folds non-ASCII letters, and the model does not.
- Redirect.Netloc: a simplified `urlparse`. It takes what follows `scheme://` up to the first `/`, `?` or `#`, and it leaves out the parser's other rules.
- Redirect.GetClientIp: header names are looked up as given, without the framework's case-insensitive matching.
- Shorten.ShortenUrl: `request.url` is taken as the text `str(HttpUrl)` produces, without pydantic's normalisation. The response's `created_at`, which comes from a second `datetime.now()`, is a separate parameter.
- Shorten.DrawFreeCode: requires that some future draw is free. The source's `while True` loop does not terminate otherwise.
- Bulk.BulkGenerate: a `url` or `custom_name` that is a non-string value (a number, say) is not modelled; its `strip` would raise and fail the item. Every item that is not an object (a string, a number, a list or null) is `NotAnObject`, whose `.get` raises even in the `except` branch and aborts the batch. A database error on the insert itself is not modelled; only allocation failure is.
- Export.ExportData: a `short_codes` value that is not a list is not modelled. A missing or null list is the empty list.
- Concurrency between requests and transaction isolation are left out. The store is one sequential object, with the `UNIQUE` constraint as an invariant.
- Ties under `ORDER BY ... DESC` keep table order, by a stable sort. SQLite leaves the order of ties unspecified.
- The text of exception messages beyond the ones the bulk results carry.
