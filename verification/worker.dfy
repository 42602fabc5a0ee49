/** The scrape worker (`processJob` in `app/api/scrape/worker/route.ts`):
    validate a queued job and resolve its URL, scrape the page with up to
    three attempts, keep the customers not seen before for the job's target,
    hand them to the spreadsheet sink, and log the run. The page fetches and
    the two spreadsheet calls are parameters: the fetch outcome of each
    attempt, and whether each sink call throws. */
module Worker {
  import opened Wrappers
  import opened Seqs
  import opened Domain
  import opened Targets
  import opened KvStore
  import opened Hash
  import opened SeenTracker
  import opened UrlBuilder
  import opened Scraper
  import opened History
  import opened CheckCustomers

  const CountryInfoRequired := "Country information required for non-all targets"
  const WorkerRetries := 3

  /** `config.countries.find(c => c.id === id)`. */
  function FindCountryById(cs: seq<Country>, id: int): (r: Option<Country>)
    ensures r.Some? ==> r.value in cs && r.value.id == id
    ensures r.None? <==> forall i :: 0 <= i < |cs| ==> cs[i].id != id
  {
    match FirstIndex(cs, (c: Country) => c.id == id)
    case None => None
    case Some(i) => Some(cs[i])
  }

  /** With distinct ids, the lookup finds each country by its own id. */
  lemma FindCountryOfMember(cs: seq<Country>, c: Country)
    requires DistinctIds(cs) && c in cs
    ensures FindCountryById(cs, c.id) == Some(c)
  {
    var i :| 0 <= i < |cs| && cs[i] == c;
    var found := FindCountryById(cs, c.id);
    assert found.Some?;
    var k :| 0 <= k < |cs| && cs[k] == found.value;
    assert k == i;
  }

  /** The URL a job scrapes, or the message of its 400 response. `all` ignores
      the country fields; a region job needs a non-empty country name and an
      id, and the id must belong to one of the target's countries. */
  function JobUrl(job: ScanJob): (r: Result<string, string>)
    ensures job.target == All ==> r == BuildUrl(All, job.page, None)
    ensures job.target != All && (job.country.None? || job.country.value == "" || job.countryId.None?) ==>
      r == Failure(CountryInfoRequired)
    ensures job.target != All && job.country.Some? && job.country.value != "" && job.countryId.Some? ==>
      match FindCountryById(Config(job.target).countries, job.countryId.value)
      case None => r == Failure("Country not found: " + job.country.value)
      case Some(c) => r == BuildUrl(job.target, job.page, Some(c))
  {
    if job.target == All then BuildUrl(All, job.page, None)
    else if job.country.None? || job.country.value == "" || job.countryId.None? then Failure(CountryInfoRequired)
    else
      match FindCountryById(Config(job.target).countries, job.countryId.value)
      case None => Failure("Country not found: " + job.country.value)
      case Some(c) => BuildUrl(job.target, job.page, Some(c))
  }

  /** An `all` job's URL is the page's URL without a country. */
  lemma AllJobUrl(p: int, now: int)
    ensures JobUrl(ScanJob(All, None, None, p, now)) == BuildUrl(All, p, None)
  {
  }

  /** A region job carrying one of its target's countries resolves to that
      country's URL for the page. */
  lemma RegionJobUrl(t: Target, c: Country, p: int, now: int)
    requires t != All && c in Config(t).countries
    ensures JobUrl(ScanJob(t, Some(c.name), Some(c.id), p, now)) == BuildUrl(t, p, Some(c))
  {
    TargetIsWellFormed(t);
    assert c.name != "";
    FindCountryOfMember(Config(t).countries, c);
  }

  /** Every job the scheduling cycle queues resolves to a URL that
      `getUrlsForTarget` lists for the pages `getPagesToCheck` plans. */
  lemma QueuedJobsResolve(t: Target, isFullScan: bool, now: int, job: ScanJob)
    requires job in TargetJobs(Config(t), isFullScan, now)
    ensures JobUrl(job).Success?
    ensures JobUrl(job).value in GetUrlsForTarget(t, GetPagesToCheck(t, isFullScan))
  {
    var jobs := TargetJobs(Config(t), isFullScan, now);
    var pages := GetPagesToCheck(t, isFullScan);
    PlannerPagesMatchUrlBuilder(t, isFullScan);
    if t == All {
      var i :| 0 <= i < |jobs| && jobs[i] == job;
      AllJobUrl(pages[i], now);
      assert BuildUrl(All, pages[i], None) == Success(GetUrlsForTarget(t, pages)[i]);
    } else {
      var c :| c in Config(t).countries && job == ScanJob(t, Some(c.name), Some(c.id), job.page, now)
                                         && 1 <= job.page <= c.pages;
      RegionJobUrl(t, c, job.page, now);
      RegionUrlsMembership(t, pages, JobUrl(job).value);
    }
  }

  /** Conversely, every URL `getUrlsForTarget` lists for the planned pages is
      the URL of a job the cycle queues. */
  lemma PlannedUrlsAreQueued(t: Target, isFullScan: bool, now: int, url: string)
    requires url in GetUrlsForTarget(t, GetPagesToCheck(t, isFullScan))
    ensures exists job :: job in TargetJobs(Config(t), isFullScan, now) && JobUrl(job) == Success(url)
  {
    PlannerPagesMatchUrlBuilder(t, isFullScan);
    if t == All {
      AllUrlIsQueued(isFullScan, now, url);
    } else {
      RegionUrlIsQueued(t, isFullScan, now, url);
    }
  }

  lemma AllUrlIsQueued(isFullScan: bool, now: int, url: string)
    requires url in GetUrlsForTarget(All, PlannedPages(Config(All), isFullScan))
    ensures exists job :: job in TargetJobs(Config(All), isFullScan, now) && JobUrl(job) == Success(url)
  {
    var pages := PlannedPages(Config(All), isFullScan);
    var jobs := TargetJobs(Config(All), isFullScan, now);
    var urls := GetUrlsForTarget(All, pages);
    var i :| 0 <= i < |urls| && urls[i] == url;
    AllJobUrl(pages[i], now);
    assert JobUrl(jobs[i]) == Success(url);
  }

  lemma RegionUrlIsQueued(t: Target, isFullScan: bool, now: int, url: string)
    requires t != All
    requires url in GetUrlsForTarget(t, PlannedPages(Config(t), isFullScan))
    ensures exists job :: job in TargetJobs(Config(t), isFullScan, now) && JobUrl(job) == Success(url)
  {
    var cfg := Config(t);
    var pages := PlannedPages(cfg, isFullScan);
    RegionUrlsMembership(t, pages, url);
    var c, p :| c in cfg.countries && p in pages && p <= c.pages && BuildUrl(t, p, Some(c)) == Success(url);
    var job := ScanJob(t, Some(c.name), Some(c.id), p, now);
    RegionJobsAreCountriesJobs(cfg, isFullScan, now);
    CountriesJobsCover(t, cfg.countries, pages, now, c, p);
    RegionJobUrl(t, c, p, now);
    assert job in TargetJobs(cfg, isFullScan, now) && JobUrl(job) == Success(url);
  }

  lemma RegionJobsAreCountriesJobs(cfg: TargetConfig, isFullScan: bool, now: int)
    requires cfg.target != All
    ensures TargetJobs(cfg, isFullScan, now) == CountriesJobs(cfg.target, cfg.countries, PlannedPages(cfg, isFullScan), now)
  {
  }

  /** The cycle's jobs and the URLs `getUrlsForTarget` lists for the
      planned pages correspond one for one and in the same order: the `i`-th
      job resolves to the `i`-th URL. */
  lemma JobsMatchUrls(t: Target, isFullScan: bool, now: int)
    ensures var jobs := TargetJobs(Config(t), isFullScan, now);
      var urls := GetUrlsForTarget(t, GetPagesToCheck(t, isFullScan));
      && |jobs| == |urls|
      && forall i :: 0 <= i < |jobs| ==> JobUrl(jobs[i]) == Success(urls[i])
  {
    PlannerPagesMatchUrlBuilder(t, isFullScan);
    var pages := PlannedPages(Config(t), isFullScan);
    var jobs := TargetJobs(Config(t), isFullScan, now);
    if t == All {
      forall i | 0 <= i < |jobs| ensures JobUrl(jobs[i]) == Success(GetUrlsForTarget(t, pages)[i]) {
        AllJobUrl(pages[i], now);
      }
    } else {
      RegionJobsAreCountriesJobs(Config(t), isFullScan, now);
      CountriesJobsMatchUrls(t, Config(t).countries, pages, now);
    }
  }

  lemma {:induction false} CountriesJobsMatchUrls(t: Target, cs: seq<Country>, pages: seq<int>, now: int)
    requires t != All
    requires forall c :: c in cs ==> c in Config(t).countries
    ensures var jobs := CountriesJobs(t, cs, pages, now);
      var urls := CountriesUrls(cs, pages);
      && |jobs| == |urls|
      && forall i :: 0 <= i < |jobs| ==> JobUrl(jobs[i]) == Success(urls[i])
  {
    if cs != [] {
      CountriesJobsMatchUrls(t, cs[1..], pages, now);
      var c := cs[0];
      var a, b := CountryJobs(t, c, pages, now), CountriesJobs(t, cs[1..], pages, now);
      var u, v := CountryUrls(c, pages), CountriesUrls(cs[1..], pages);
      forall i | 0 <= i < |a| + |b| ensures JobUrl((a + b)[i]) == Success((u + v)[i]) {
        if i < |a| {
          RegionJobUrl(t, c, Within(pages, c.pages)[i], now);
        }
      }
    }
  }

  /** The HTTP reply: its status and either the result or the error text. */
  datatype Reply = Reply(status: int, body: Result<ScrapingResult, string>)

  /** What handling a scraped page did: the store after it, the reply, and
      the customers handed to the spreadsheet append (none when the call was
      not made). */
  datatype Handled = Handled(store: Store, reply: Reply, appended: Option<seq<Customer>>)

  /** `processJob` after the page is scraped: filter out the customers
      already seen for the target, append the new ones to the sheet when
      there are any, log the history entry, append the run log. The append
      throwing `appendFault` or the run log throwing `runLogFault` makes the
      reply a 500, after the seen set was already updated. */
  function HandleScraped(st: Store, job: ScanJob, scraped: seq<Customer>, now: int,
                         appendFault: Option<string>, logFault: LogFault, runLogFault: Option<string>): (r: Handled)
    ensures var (filtered, added) := FilterNewCustomers(st, scraped, job.target);
      && r.appended == (if added != [] then Some(added) else None)
      && SeenOf(r.store, job.target) == SeenOf(st, job.target) + Fingerprints(scraped)
      && (r.reply.status == 500 <==> (added != [] && appendFault.Some?) || runLogFault.Some?)
      && (r.reply.status != 500 ==> r.reply == Reply(200, Success(ScrapingResult(true, job.page, |scraped|, |added|))))
      && (added != [] && appendFault.Some? ==> r.store == filtered)
      && (added == [] || appendFault.None? ==> r.store == LogHistory(filtered, job.target, |scraped|, |added|, now, logFault))
    ensures forall u :: u != job.target ==> SeenOf(r.store, u) == SeenOf(st, u)
    ensures r.store.lastCheck == st.lastCheck && r.store.lastFullScan == st.lastFullScan
  {
    var (filtered, added) := FilterNewCustomers(st, scraped, job.target);
    var appended := if added != [] then Some(added) else None;
    if added != [] && appendFault.Some? then
      Handled(filtered, Reply(500, Failure(appendFault.value)), appended)
    else
      var logged := LogHistory(filtered, job.target, |scraped|, |added|, now, logFault);
      OtherSeenKept(st, filtered, logged, job.target);
      match runLogFault
      case Some(e) => Handled(logged, Reply(500, Failure(e)), appended)
      case None => Handled(logged, Reply(200, Success(ScrapingResult(true, job.page, |scraped|, |added|))), appended)
  }

  /** A store with the same fingerprint sets as one that kept every set but
      `t`'s keeps them too. */
  lemma OtherSeenKept(st: Store, mid: Store, after: Store, t: Target)
    requires forall u :: u != t ==> SeenOf(mid, u) == SeenOf(st, u)
    requires after.seen == mid.seen
    ensures forall u :: u != t ==> SeenOf(after, u) == SeenOf(st, u)
  {
  }

  /** A job handled without any sink fault leaves its history entry where the
      history endpoint reads it: the entry for the job's target, with the
      scraped count, the new count and the handling time. */
  lemma HandledEntryIsServed(st: Store, job: ScanJob, scraped: seq<Customer>, now: int)
    ensures var h := HandleScraped(st, job, scraped, now, None, NoFault, None);
      HistoryEntry(job.target, |scraped|, |FilterNewCustomers(st, scraped, job.target).1|, now) in MergedHistory(h.store)
  {
    var (filtered, added) := FilterNewCustomers(st, scraped, job.target);
    LoggedEntryIsServed(filtered, job.target, |scraped|, |added|, now);
  }

  /** A success reports the scraped count and the new count, and never more
      new customers than were found. */
  lemma HandledCounts(st: Store, job: ScanJob, scraped: seq<Customer>, now: int,
                      appendFault: Option<string>, logFault: LogFault, runLogFault: Option<string>)
    requires HandleScraped(st, job, scraped, now, appendFault, logFault, runLogFault).reply.body.Success?
    ensures var res := HandleScraped(st, job, scraped, now, appendFault, logFault, runLogFault).reply.body.value;
      && res.customersFound == |scraped|
      && res.newCustomers <= res.customersFound
      && res.newCustomers == |FilterNewCustomers(st, scraped, job.target).1|
  {
  }

  /** A page processed a second time with the same records finds nothing new
      and makes no sheet append, whatever the sinks did the first time. */
  lemma HandleScrapedTwice(st: Store, job: ScanJob, scraped: seq<Customer>, now: int, later: int,
                           appendFault: Option<string>, logFault: LogFault, runLogFault: Option<string>,
                           appendFault2: Option<string>, logFault2: LogFault, runLogFault2: Option<string>)
    ensures var first := HandleScraped(st, job, scraped, now, appendFault, logFault, runLogFault);
      var second := HandleScraped(first.store, job, scraped, later, appendFault2, logFault2, runLogFault2);
      && second.appended.None?
      && (second.reply.body.Success? ==> second.reply.body.value.newCustomers == 0)
  {
    var first := HandleScraped(st, job, scraped, now, appendFault, logFault, runLogFault);
    var filtered := FilterNewCustomers(st, scraped, job.target).0;
    SeenAfterHandling(st, job, scraped, now, appendFault, logFault, runLogFault);
    FilterNewSameSeen(filtered, first.store, scraped, job.target);
    FilterNewTwiceIsEmpty(st, scraped, job.target);
  }

  /** Handling touches no other target's fingerprint set than filtering did. */
  lemma SeenAfterHandling(st: Store, job: ScanJob, scraped: seq<Customer>, now: int,
                          appendFault: Option<string>, logFault: LogFault, runLogFault: Option<string>)
    ensures SeenOf(HandleScraped(st, job, scraped, now, appendFault, logFault, runLogFault).store, job.target)
         == SeenOf(FilterNewCustomers(st, scraped, job.target).0, job.target)
  {
  }

  /** What `processJob` did: the handled page (absent when validation or the
      scrape failed), the URL it scraped, and the number of fetch attempts. */
  datatype WorkerRun = WorkerRun(store: Store, reply: Reply, url: Option<string>, attempts: nat,
                                 appended: Option<seq<Customer>>)

  /** Attempt `k` at `url`: `scrapePage` with its default timeout on the
      `k`-th fetch of the URL; `detected` is the clock reading that stamps the
      records. */
  function Attempt(fetches: (string, nat) -> Fetch, url: string, detected: string, k: nat): Result<seq<Customer>, string> {
    ScrapePage(fetches(url, k), DefaultTimeoutMillis, detected)
  }

  /** A fetch the page accepts: a 2xx response. */
  predicate Accepted(f: Fetch) { f.Response? && Ok(f.status) }

  /** `processJob` once the URL is resolved: scrape it with up to three
      attempts, then handle the customers, or reply 500 with the last
      attempt's error. */
  method ScrapeAndHandle(st: Store, job: ScanJob, url: string, fetches: (string, nat) -> Fetch, detected: string,
                         now: int, appendFault: Option<string>, logFault: LogFault, runLogFault: Option<string>)
    returns (r: WorkerRun)
    ensures r.url == Some(url) && 1 <= r.attempts <= WorkerRetries
    ensures forall k :: 1 <= k < r.attempts ==> !Accepted(fetches(url, k))
    ensures !Accepted(fetches(url, r.attempts)) ==>
      r.attempts == WorkerRetries && r.store == st && r.appended.None?
      && r.reply == Reply(500, Failure(Attempt(fetches, url, detected, WorkerRetries).error))
    ensures Accepted(fetches(url, r.attempts)) ==>
      var h := HandleScraped(st, job, ScrapeCards(fetches(url, r.attempts).anchors, detected), now,
                             appendFault, logFault, runLogFault);
      r == WorkerRun(h.store, h.reply, Some(url), r.attempts, h.appended)
  {
    var attempt := (k: nat) => Attempt(fetches, url, detected, k);
    var run := ScrapeWithRetry(attempt, WorkerRetries);
    forall k | 1 <= k < run.attempts
      ensures !Accepted(fetches(url, k))
    {
      assert attempt(k).Failure?;
    }
    match run.result
    case Failure(e) =>
      assert attempt(WorkerRetries).Failure?;
      r := WorkerRun(st, Reply(500, Failure(e)), Some(url), run.attempts, None);
    case Success(customers) =>
      assert attempt(run.attempts).Success?;
      var h := HandleScraped(st, job, customers, now, appendFault, logFault, runLogFault);
      r := WorkerRun(h.store, h.reply, Some(url), run.attempts, h.appended);
  }

  /** `processJob`. `fetches(url, k)` is what the `k`-th fetch of `url`
      produces. */
  method ProcessJob(st: Store, job: ScanJob, fetches: (string, nat) -> Fetch, detected: string, now: int,
                    appendFault: Option<string>, logFault: LogFault, runLogFault: Option<string>)
    returns (r: WorkerRun)
    ensures JobUrl(job).Failure? ==>
      r == WorkerRun(st, Reply(400, Failure(JobUrl(job).error)), None, 0, None)
    ensures JobUrl(job).Success? ==> r.url == Some(JobUrl(job).value) && 1 <= r.attempts <= WorkerRetries
    ensures JobUrl(job).Success? ==> forall k :: 1 <= k < r.attempts ==> !Accepted(fetches(JobUrl(job).value, k))
    ensures JobUrl(job).Success? && !Accepted(fetches(JobUrl(job).value, r.attempts)) ==>
      r.attempts == WorkerRetries && r.store == st && r.appended.None?
      && r.reply == Reply(500, Failure(Attempt(fetches, JobUrl(job).value, detected, WorkerRetries).error))
    ensures JobUrl(job).Success? && Accepted(fetches(JobUrl(job).value, r.attempts)) ==>
      var h := HandleScraped(st, job, ScrapeCards(fetches(JobUrl(job).value, r.attempts).anchors, detected), now,
                             appendFault, logFault, runLogFault);
      r == WorkerRun(h.store, h.reply, Some(JobUrl(job).value), r.attempts, h.appended)
  {
    var resolved := JobUrl(job);
    if resolved.Failure? {
      return WorkerRun(st, Reply(400, Failure(resolved.error)), None, 0, None);
    }
    r := ScrapeAndHandle(st, job, resolved.value, fetches, detected, now, appendFault, logFault, runLogFault);
  }
}
