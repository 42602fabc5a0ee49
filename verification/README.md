# odoo-customer-tracker: the harvest-and-deduplicate pipeline in Dafny

This project models the decision logic of the Odoo customer tracker. The
tracker has five stages:

- A cron route plans scraping jobs for three targets (`all`, `dach`, `uk`)
  and queues them with jittered delays.
- A worker resolves each job's URL and scrapes the customer cards on that page.
- The worker then keeps only the customers whose fingerprint has not been seen
  for the target, hands them to the spreadsheet sink, and logs a history entry.
- A history route merges the logged entries and returns the most recent ones.
- An export script serialises customers to CSV.

The fetches, the key-value store, the message queue and the spreadsheet are
not modelled as services:

- The key-value store is an explicit value (`KvStore.Store`). It holds a seen
  set per target, two timestamp maps and the history lists.
- Clock readings are parameters.
- Random jitter is a parameter of type `Jitter` (exact reals in
  [-0.2, 0.2)), one value per publish.
- Each queue publish, page fetch and sink call is a parameter that gives
  its outcome.
- A page's HTML is pre-extracted into abstract card records (`Scraper.Anchor`).

Modules, one per source file, plus shared helpers:

| file | module | models |
|---|---|---|
| wrappers.dfy | Wrappers | `Option` / `Result` |
| text.dfy | Text | JavaScript `\s`, `trim`, ASCII `toLowerCase`, run collapsing, `join`/`split`, number printing |
| seqs.dfy | Seqs | subsequences, masks, ranges, first-index search, filter-map |
| keyed.dfy | Keyed | generic "first occurrence of an unseen key" fold and key indexes |
| domain.dfy | Domain | the entities: `Target`, `Country`, `TargetConfig`, `Customer`, `ScanJob`, `ScrapingResult`, `HistoryEntry` |
| targets.dfy | Targets | `TARGET_CONFIGS` |
| store.dfy | KvStore | the key-value store and its list operations |
| hash.dfy | Hash | `lib/state/hash.ts` |
| seen_tracker.dfy | SeenTracker | `lib/state/seen-tracker.ts` |
| url_builder.dfy | UrlBuilder | `lib/scraper/url-builder.ts` |
| check_customers.dfy | CheckCustomers | the planning loop of `app/api/cron/check-customers/route.ts` |
| scraper.dfy | Scraper | `lib/scraper/cheerio-scraper.ts` |
| history.dfy | History | `app/api/history/route.ts` and the worker's `logHistory` |
| worker.dfy | Worker | `processJob` of `app/api/scrape/worker/route.ts` |
| csv_export.dfy | CsvExport | `customersToCSV` of `scripts/export-all-customers.ts` |

## Model

| member | source | states |
|---|---|---|
| Hash.Normalize | lib/state/hash.ts:25-32 | The result uses only lower-case ASCII letters, digits, `_`, the plain space and `-`, so no tab, line break or vertical bar. It never has two adjacent `-`. |
| Hash.PipelineShape | lib/state/hash.ts:26-31 | Lower-case, trim, collapse `\s` runs, strip characters outside `[\w\s-]`, collapse `-` runs: the result is in normal form. |
| Hash.StripSpecialKeeps | lib/state/hash.ts:30 | Stripping keeps only word characters, whitespace and `-` that were in the input. |
| Hash.NormalizeIgnoresCase | lib/state/hash.ts:27 | Strings that agree up to ASCII letter case normalise identically. |
| Hash.NormalizeIgnoresLeadingSpace | lib/state/hash.ts:28 | Leading whitespace does not change the normal form. |
| Hash.NormalizeIgnoresTrailingSpace | lib/state/hash.ts:28 | Trailing whitespace does not change the normal form. |
| Hash.NormalizeIgnoresSpaceRunShape | lib/state/hash.ts:28-29 | Replacing one non-empty whitespace run by any other does not change the normal form. |
| Hash.NormalizeNotIdempotent | lib/state/hash.ts:29-30 | The pipeline is not idempotent: `"a ! b"` normalises to `"a  b"` (two spaces), and normalising that again gives `"a b"`. |
| Hash.HashSplitsIntoFields | lib/state/hash.ts:9-15 | The fingerprint splits at its vertical bars into exactly the normalised name, country and industry, in that order. |
| Hash.HashInjective | lib/state/hash.ts:9-15 | Two fingerprints are equal iff the three normalised fields are pairwise equal. |
| Hash.HashIgnoresNonIdentityFields | lib/state/hash.ts:9-13 | Description, detail URL and detection date never affect the fingerprint. |
| Hash.AreCustomersSame | lib/state/hash.ts:51-53 | Two customers are the same iff their name, country and industry normalise identically. |
| Hash.AreCustomersSameIsEquivalence | lib/state/hash.ts:51-53 | `areCustomersSame` is reflexive, symmetric and transitive. |
| Hash.CustomerIndex | lib/state/hash.ts:37-46 | `generateCustomerHashes` has exactly the input's fingerprints as keys and at most one entry per input customer. |
| Hash.CustomerIndexLastWins | lib/state/hash.ts:40-43 | On a fingerprint collision the map holds the last customer with that fingerprint. |
| Hash.FingerprintsMembership | lib/state/hash.ts:37-46 | A string is a fingerprint of the list iff some customer of the list hashes to it. |
| SeenTracker.IsCustomerSeen | lib/state/seen-tracker.ts:10-19 | True iff some customer with the same normalised name, country and industry has its fingerprint in the target's seen set. |
| SeenTracker.MarkCustomerAsSeen | lib/state/seen-tracker.ts:24-32 | Adds the fingerprint to the target's set. Other targets' sets, the timestamps and the history lists are unchanged. |
| SeenTracker.MarkCustomersAsSeen | lib/state/seen-tracker.ts:37-47 | Adds every fingerprint of the list to the target's set. No other set, no timestamp and no history list changes. An empty list leaves the store unchanged. |
| SeenTracker.MarkIsFilterStore | lib/state/seen-tracker.ts:37-74 | Marking a list leaves the store exactly as filtering the same list does. |
| SeenTracker.MarkThenFilterIsEmpty | lib/state/seen-tracker.ts:37-74 | After a list is marked as seen, filtering it reports no new customer. |
| SeenTracker.FilterNewCustomers | lib/state/seen-tracker.ts:53-74 | The target's set becomes the old set plus all input fingerprints; other sets, timestamps and history are unchanged. No returned customer's fingerprint was seen before, no two returned customers share one, and an empty input returns nothing and changes nothing. |
| SeenTracker.FilterNewIsFirstOccurrences | lib/state/seen-tracker.ts:62-71 | The returned list is exactly the input customers whose fingerprint is neither in the old set nor carried by an earlier input customer: the first occurrence wins. |
| SeenTracker.FilterNewIsSubsequence | lib/state/seen-tracker.ts:62-71 | The result is an order-preserving subsequence of the input. |
| SeenTracker.FilterNewGrowsByNewCount | lib/state/seen-tracker.ts:64-70 | The set grows by exactly the returned customers' fingerprints, one per returned customer. |
| SeenTracker.FilterNewTwiceIsEmpty | lib/state/seen-tracker.ts:64-70 | Filtering the same input a second time returns nothing. |
| SeenTracker.FilterThenSeen | lib/state/seen-tracker.ts:64-70 | After filtering, every input customer counts as seen for the target. |
| SeenTracker.MarkThenSeen | lib/state/seen-tracker.ts:10-32 | After `d` is marked, a customer is seen iff it was seen before or `areCustomersSame` holds for it and `d`. |
| SeenTracker.SeenCountAfterFilter | lib/state/seen-tracker.ts:53-82 | Filtering a list raises the target's count by exactly the number of new customers it reports. |
| SeenTracker.SeenCountAfterMark | lib/state/seen-tracker.ts:24-32 | Marking one customer raises the count by one if it was not seen yet, and otherwise leaves it. |
| SeenTracker.MarkInParentTargets | lib/state/seen-tracker.ts:88-99 | Adds the fingerprint to the target's set and, for `dach` and `uk`, to the `all` set. No set loses an element and no set gains anything else. The other region's set, the timestamps and the history lists are unchanged. |
| SeenTracker.ResetSeenCustomers | lib/state/seen-tracker.ts:105-108 | Empties only that target's set. |
| SeenTracker.ResetThenAllNew | lib/state/seen-tracker.ts:101-108 | After a reset, a list with distinct fingerprints is returned whole as new. |
| SeenTracker.GetLastCheckTimestamp | lib/state/seen-tracker.ts:113-117 | A missing or zero stored value reads as absent. |
| SeenTracker.GetLastFullScanTimestamp | lib/state/seen-tracker.ts:130-134 | A missing or zero stored value reads as absent. |
| SeenTracker.UpdateLastCheckTimestamp | lib/state/seen-tracker.ts:122-125 | Sets only this target's last-check value. Every other key is unchanged. |
| SeenTracker.UpdateLastFullScanTimestamp | lib/state/seen-tracker.ts:139-142 | Sets only this target's last-full-scan value. Every other key is unchanged. |
| SeenTracker.ShouldDoFullScan | lib/state/seen-tracker.ts:147-159 | True when no full scan is recorded (unset or 0); otherwise true iff at least seven days in milliseconds have passed. |
| SeenTracker.FullScanDueAfterAWeek | lib/state/seen-tracker.ts:139-159 | After recording a full scan at a positive time, the next one is due exactly from seven days later. |
| SeenTracker.FullScanDueIsMonotone | lib/state/seen-tracker.ts:147-159 | Once a full scan is due it stays due as time passes. |
| Keyed.SelectNewIsFirstOccurrences | lib/state/seen-tracker.ts:62-71 | The check-then-insert fold keeps exactly the first occurrence of each unseen key. |
| Keyed.SelectNewFresh | lib/state/seen-tracker.ts:63-70 | The fold returns no seen key and no key twice. |
| Keyed.SelectNewAddsReturnedKeys | lib/state/seen-tracker.ts:64-70 | The set after the fold is the old set plus the returned items' keys. |
| Keyed.SelectNewAllSeen | lib/state/seen-tracker.ts:64-70 | When every key is already seen, nothing is returned. |
| Keyed.SelectNewKeepsDistinct | lib/state/seen-tracker.ts:62-71 | Items with distinct unseen keys are all returned, in order. |
| Keyed.IndexByLastWins | lib/state/hash.ts:40-43 | In a key index, the last item with a key wins. |
| Targets.CatalogIsWellFormed | lib/config/targets.ts:3-31 | Country ids are distinct within each target. Every country has between 1 and its target's total pages. Only `all` has no countries. Sheet tabs are distinct. |
| Targets.CatalogFigures | lib/config/targets.ts:4-30 | `all` has no countries and 4282 pages. The DACH pages 115 + 40 + 103 sum to 258. The UK's one country has all 36 pages. |
| UrlBuilder.BuildUrl | lib/scraper/url-builder.ts:12-35 | The call fails iff a non-`all` target has no country, with the source's message. Page 1 gives the base or country path; any other page appends `/page/n`. Every URL starts with the base URL. |
| UrlBuilder.BuildUrlInjective | lib/scraper/url-builder.ts:16-34 | For a fixed target and country, different pages give different URLs. |
| UrlBuilder.GetUrlsForTarget | lib/scraper/url-builder.ts:37-58 | For `all`, one URL per page, in page order. For a region, the countries' URLs in catalog order (Germany, Austria, Switzerland; United Kingdom). The count is the number of (country, page) pairs with the page within the country's limit. |
| UrlBuilder.CountryUrls | lib/scraper/url-builder.ts:49-54 | One country's URLs are the URLs of the requested pages it has, in the requested order. |
| UrlBuilder.RegionUrlsMembership | lib/scraper/url-builder.ts:45-57 | For a region target, a URL is listed iff it is some catalog country's URL for a page with `page <= country.pages`. |
| UrlBuilder.GetPagesToCheck | lib/scraper/url-builder.ts:60-92 | The pages are strictly increasing, so sorted and duplicate-free, and lie within the target's total. |
| UrlBuilder.PagesToCheckShape | lib/scraper/url-builder.ts:60-91 | A full scan gives `1..totalPages`. Incremental `all` and `uk` give `1..min(k, totalPages)`. Incremental `dach` gives `1..max over countries of min(10, pages)`. |
| UrlBuilder.IncrementalPlanFigures | lib/scraper/url-builder.ts:69-91 | For this catalog the incremental pages are `1..5`, `1..10` and `1..36`. |
| CheckCustomers.GetAllPages | app/api/cron/check-customers/route.ts:141-143 | The pages are strictly increasing and are exactly `1..n`. |
| CheckCustomers.GetIncrementalPages | app/api/cron/check-customers/route.ts:145-154 | The pages are exactly `1..k`, with k = 5, 10 or 36. |
| CheckCustomers.PlannerPagesMatchUrlBuilder | app/api/cron/check-customers/route.ts:57-59 | The route's page plan equals the URL builder's `getPagesToCheck` for every target and scan kind. |
| CheckCustomers.CalculateDelay | app/api/cron/check-customers/route.ts:156-166 | With jitter in [-0.2, 0.2), the delay of page p lies in [48p, 72p]. |
| CheckCustomers.DelayMonotone | app/api/cron/check-customers/route.ts:156-166 | For a fixed jitter the delay does not decrease with the page. |
| CheckCustomers.TargetJobs | app/api/cron/check-customers/route.ts:64-105 | For `all`, one job per planned page, in order, with no country fields. For a region, one job per (country, planned page) pair with the page within that country's limit. Each job carries its country's name and id. |
| CheckCustomers.CountryJobs | app/api/cron/check-customers/route.ts:84-103 | One country's jobs are one per planned page it has, in page order. |
| CheckCustomers.CountriesJobsCover | app/api/cron/check-customers/route.ts:83-104 | Every (country, planned page) pair with `page <= country.pages` gets a job. |
| CheckCustomers.FullScanCoversEveryCountryPage | app/api/cron/check-customers/route.ts:57-58 | A region full scan queues every page `1..c.pages` of every country c. |
| CheckCustomers.PublishJobs | app/api/cron/check-customers/route.ts:73-101 | Jobs are published in order, each with the delay of its page under its own jitter draw. Publishing stops at the first failing publish. |
| CheckCustomers.RunTarget | app/api/cron/check-customers/route.ts:50-112 | Timestamps are set only when all of a target's jobs were queued, and the full-scan time only on a full scan. A failing publish leaves the store unchanged. Seen sets and history never change. |
| CheckCustomers.RunCycle | app/api/cron/check-customers/route.ts:47-124 | Without a queue token the reply is the missing-token failure with nothing queued. A success reports the number of published jobs. Seen sets and history are unchanged. |
| CheckCustomers.CycleSucceeds | app/api/cron/check-customers/route.ts:47-124 | On success, the published jobs are exactly the `all`, `dach` and `uk` plans in that order, and `jobsQueued` is their count. Every target's timestamps are recorded. |
| CheckCustomers.CycleFails | app/api/cron/check-customers/route.ts:50-138 | On failure, the targets before the failing one are recorded. The failing target and those after it keep their timestamps. |
| CheckCustomers.CycleDelays | app/api/cron/check-customers/route.ts:73-99 | The i-th published job's delay is computed from the i-th jitter draw. |
| CheckCustomers.RunTargetsJobs | app/api/cron/check-customers/route.ts:50-113 | A loop over distinct targets that runs to the end publishes exactly the concatenation of each target's plan. |
| CheckCustomers.RunTargetsFails | app/api/cron/check-customers/route.ts:50-113 | A failing loop stops at one target. Earlier targets are recorded; that target and later ones are untouched. |
| Scraper.IsDetailLinkIsPattern | lib/scraper/cheerio-scraper.ts:43 | The decision procedure accepts exactly the hrefs that end with `/de_DE/customers/`, a non-empty segment without `/`, `-` and one or more digits. |
| Scraper.CardName | lib/scraper/cheerio-scraper.ts:51-52 | The name is the trimmed heading text when non-empty, else the trimmed link text. |
| Scraper.BadgeText | lib/scraper/cheerio-scraper.ts:60-77 | The first non-empty trimmed badge text, else `Unknown`. The result is never empty. |
| Scraper.DescriptionText | lib/scraper/cheerio-scraper.ts:80-88 | The first paragraph whose trimmed length exceeds 20, else empty. |
| Scraper.AbsoluteUrl | lib/scraper/cheerio-scraper.ts:98-100 | An href starting with `http` is kept; any other is prefixed with `https://www.odoo.com`. |
| Scraper.ScrapeCard | lib/scraper/cheerio-scraper.ts:38-107 | A card is accepted iff it is readable, its href matches the detail pattern and its name has at least 2 characters. The record is exactly the name, badges, description, absolute URL and detection time. |
| Scraper.ScrapedRecordShape | lib/scraper/cheerio-scraper.ts:90-102 | Every accepted record has a name of at least 2 characters, non-empty industry and country, a description that is empty or longer than 20, and an `http` URL. |
| Scraper.ScrapeCardsKeepsAccepted | lib/scraper/cheerio-scraper.ts:37-110 | The output is the accepted anchors' records, in anchor order, one for one. Unreadable cards are skipped. |
| Scraper.ScrapeCardsMembership | lib/scraper/cheerio-scraper.ts:37-108 | A record is in the output iff some anchor yields it. |
| Scraper.ScrapeCardsAppend | lib/scraper/cheerio-scraper.ts:37-108 | Cards are handled independently: scraping two anchor lists one after the other gives the concatenation. |
| Scraper.ScrapePage | lib/scraper/cheerio-scraper.ts:9-121 | A page yields records iff the response is 2xx. Its records number at most one per anchor, each comes from an anchor and each has the record shape. A non-2xx status, a timeout, a thrown error and a thrown non-error each give the source's message. |
| Scraper.ScrapeCardsShape | lib/scraper/cheerio-scraper.ts:90-102 | Every record of a page has the record shape. |
| Scraper.ScrapeWithRetry | lib/scraper/cheerio-scraper.ts:123-145 | At most `maxRetries` attempts are made and the first success is returned. If all fail, the last error is thrown; `maxRetries <= 0` gives the generic error. After failed attempt k < maxRetries it waits 2^k·1000 ms. |
| History.LogHistory | app/api/scrape/worker/route.ts:176-198 | Without a fault, the new entry goes to the head of the target's list and the list is cut to 100. A failing trim leaves the pushed list; a failing push changes nothing. Other lists are untouched in every case. |
| History.LogHistoryBounded | app/api/scrape/worker/route.ts:190-193 | After logging, the list is 1 to 100 long. Its head is the new entry and the rest is the first 99 older entries. |
| History.LogHistoryStaysAtLimit | app/api/scrape/worker/route.ts:192-193 | A full list stays at exactly 100 entries. |
| History.LoggedEntryIsServed | app/api/history/route.ts:10-48 | In the model's store, right after the worker logs an entry, the history endpoint's reading parses it back and includes it in the merged list. |
| History.MergedHistoryParts | app/api/history/route.ts:10-22 | The merged list is the four lists' parsed first-50 parts, in the order all, dach, uk, errors; each part has at most 50 entries. |
| History.MergedHistoryMembership | app/api/history/route.ts:10-22 | An entry is merged iff it is stored well-formed within the first 50 of one of the four lists. |
| History.SortByRecency | app/api/history/route.ts:23 | The result is sorted by timestamp, most recent first, and is a permutation of the input. |
| History.MostRecentIsTop | app/api/history/route.ts:23-24 | The result is sorted and holds min(n, 50) entries of the input. No entry left out is more recent than one kept. |
| History.GetHistory | app/api/history/route.ts:4-40 | A read failure gives an empty history with `success: false` and the error's message, or "Unknown error" for a thrown non-error. Otherwise the reply succeeds with the 50 most recent merged entries. |
| Worker.FindCountryById | app/api/scrape/worker/route.ts:99 | The found country has the id and is in the list; nothing is found iff no country has the id. |
| Worker.FindCountryOfMember | app/api/scrape/worker/route.ts:99 | With distinct ids, each catalog country is found by its own id. |
| Worker.JobUrl | app/api/scrape/worker/route.ts:82-111 | `all` builds the URL without a country. A region job without a non-empty country or without an id fails with "Country information required". An unknown id fails with "Country not found"; otherwise the URL is that country's. |
| Worker.QueuedJobsResolve | app/api/scrape/worker/route.ts:82-111 | Every job the cron route queues resolves to a URL listed by `getUrlsForTarget` for `getPagesToCheck`. |
| Worker.PlannedUrlsAreQueued | app/api/cron/check-customers/route.ts:64-104 | Every URL `getUrlsForTarget` lists for the planned pages is the URL of a queued job. |
| Worker.JobsMatchUrls | app/api/cron/check-customers/route.ts:64-104 | The queued jobs and `getUrlsForTarget`'s URLs for the planned pages match one for one and in order: the i-th job resolves to the i-th URL. |
| Worker.HandleScraped | app/api/scrape/worker/route.ts:120-150 | The sink append happens iff there are new customers. The seen set grows by the scraped fingerprints. The reply is 500 iff the append or the run log throws; otherwise it is 200 with the found and new counts. A history logging failure never fails the job. The history entry with the found and new counts is logged for the job's target unless the append threw first, in which case the store is the filtered store alone. Other targets' sets and both timestamps are unchanged. |
| Worker.HandledEntryIsServed | app/api/scrape/worker/route.ts:130-131 | A job handled without any fault leaves the entry for its target, with the found count, the new count and the handling time, in the list the history endpoint merges. |
| Worker.HandledCounts | app/api/scrape/worker/route.ts:138-143 | A successful reply reports `newCustomers <= customersFound`. |
| Worker.HandleScrapedTwice | app/api/scrape/worker/route.ts:121-143 | Handling the same scraped page twice appends nothing the second time and reports 0 new. |
| Worker.ScrapeAndHandle | app/api/scrape/worker/route.ts:113-150 | Makes at most 3 attempts, each `scrapePage` with the 30000 ms default timeout. Every failed attempt had a non-2xx fetch. If all fail, the reply is 500 with the last error and the store is unchanged. Otherwise the accepted page's records are handled. |
| Worker.ProcessJob | app/api/scrape/worker/route.ts:76-174 | A job that fails validation gets a 400 with its message before any fetch. Otherwise the job's URL is scraped and handled as above. |
| CsvExport.DoubleQuotes | scripts/export-all-customers.ts:56-59 | Quote doubling adds one character per `"`, and every `"` in the output is one of a `""` pair. |
| CsvExport.UnescapeDoubled | scripts/export-all-customers.ts:56-59 | Reading a quoted field back, with `""` as a quote and a lone `"` as the end, recovers the original text. |
| CsvExport.UnescapeIsDoubled | scripts/export-all-customers.ts:56-59 | Whatever reads back as a field is exactly the doubled text plus the closing quote, so the escaping is a bijection. |
| CsvExport.RowRoundTrip | scripts/export-all-customers.ts:54-61 | A row is the raw date, the four quoted fields and the raw URL, joined by commas. When the date has no comma, it reads back as the same customer. |
| CsvExport.HeaderLineCells | scripts/export-all-customers.ts:44-51 | The header line has no line break and splits on commas into the six column names. |
| CsvExport.CsvLines | scripts/export-all-customers.ts:63-67 | When no field holds a line break, the document is the header line followed by one line per customer, in input order. |
| CsvExport.CsvRoundTrip | scripts/export-all-customers.ts:42-68 | When no field holds a line break and no date holds a comma, the export reads back as exactly the customers it was made from. |
| CsvExport.EmptyExport | scripts/export-all-customers.ts:64-67 | An empty input gives the header line alone. |
| Text.SplitOfJoin | lib/state/hash.ts:15 | Splitting on a separator the pieces do not contain undoes joining them with it. |

## Left out

- **External services:**
  - HTTP fetching, `AbortController` timeouts and cheerio's DOM traversal. A fetch is an abstract outcome (`Scraper.Fetch`) and a card is a pre-extracted record (`Scraper.Anchor`).
  - The Redis client. The store is an explicit value, and each Redis call is a pure function on it.
  - QStash publishing, signature checks and the cron secret check. A publish is a function from publish index to an optional error.
  - The Google Sheets calls (`appendCustomersToSheet`, `appendLogToSheet`) and `app/api/setup/init-sheets/route.ts`. Each sink call is a parameter saying whether it throws.
  - The UI, `formatTimeCEST`, console logging and the measured durations.
- **Time and randomness:** `Date.now()` is a `now` parameter, and one value serves a whole cron run or worker call. `Math.random()` becomes a per-publish jitter sequence.
- **Floating point:**
  - CheckCustomers.CalculateDelay: computed on exact reals, not IEEE doubles. The result can differ from the source by one second when `page * 60 * (1 + jitter)` rounds across an integer.
  - SeenTracker.ShouldDoFullScan: compares integer milliseconds with 604800000 instead of dividing by 86400000. These are equivalent for integer timestamps below 2^53.
- **Lengths and case:** lengths are counted in characters, not UTF-16 code units. `toLowerCase` is modelled for ASCII letters only.
- **Errors not modelled:**
  - Worker.ProcessJob: a Redis error inside `filterNewCustomers` also gives a 500 in the source.
  - Worker.ProcessJob: the `POST` wrapper's body parsing, and the error-log sheet write in the catch blocks.
- CheckCustomers.RunTarget: a Redis error in `shouldDoFullScan` or in a timestamp update (app/api/cron/check-customers/route.ts:52 and 108-112) makes the source's cycle reply 500. The model's store reads and writes never fail, so `RunTarget` does not say what happens then.
- **History:**
  - JSON values that parse but are not history entries are left out. `ParseHistoryEntry` distinguishes only well-formed entries from malformed strings.
  - History.SortByRecency: the result is a permutation sorted most recent first. That the order among equal timestamps matches `Array.prototype.sort`'s stable order is not stated.
  - `logHistory` writes only `history:<target>` (app/api/scrape/worker/route.ts:191). The `history:errors` list is read like the other three, but nothing modelled writes it.
  - History.LoggedEntryIsServed: the Redis client's reply decoding is not modelled. The store hands back the text `lpush` stored, so stored entries reach `parseHistoryEntry` as JSON text. The client built at lib/state/redis.ts:18-21 uses the library's default options, and a client that decodes JSON replies itself would hand `JSON.parse` an object instead; that library is not part of this model.
- **Scraper:** a card whose parsing throws inside cheerio is the `Unreadable` anchor, which is skipped like a rejected card.
- CsvExport.CsvRoundTrip: the round trip is stated only for exportable customers: no field holds a line break and the date holds no comma. The reader splits the document into lines and the raw date cell on commas, and the source's quoting does not protect either case.
- **Export script:** its page loops, sleeps and file writes are left out; only `customersToCSV` is modelled.
- **Jobs:** `job.timestamp` is carried but never read.
- `lib/config/constants.ts` is not part of this model. The key prefixes it defines only name Redis keys, which the model replaces with map indices.
