/** The scheduling cycle (`app/api/cron/check-customers/route.ts`): per
    target, choose a full or incremental scan, publish one job per planned
    (country, page), then record the timestamps. The queue, the clock and the
    jitter source are parameters. */
module CheckCustomers {
  import opened Wrappers
  import opened Seqs
  import opened Domain
  import opened Targets
  import opened KvStore
  import opened SeenTracker
  import opened UrlBuilder

  /** `Math.random() * 0.4 - 0.2`, as an exact rational. */
  type Jitter = j: real | -0.2 <= j < 0.2 witness 0.0

  const BaseDelaySeconds := 60
  const QueueTokenMissing := "QSTASH_TOKEN environment variable is required"

  /** `TARGET_CONFIGS` in the order the cycle visits the targets. */
  const Catalog := [Config(All), Config(Dach), Config(Uk)]

  /** `getAllPages`. */
  function GetAllPages(totalPages: int): (r: seq<int>)
    ensures StrictlyIncreasing(r)
    ensures forall p :: p in r <==> 1 <= p <= totalPages
  {
    RangeFrom1Properties(totalPages);
    RangeFrom1(totalPages)
  }

  /** `getIncrementalPages`: the first 5, 10 or 36 pages, without capping by
      the target's page count. */
  function GetIncrementalPages(t: Target): (r: seq<int>)
    ensures StrictlyIncreasing(r)
    ensures forall p :: p in r <==> 1 <= p <= IncrementalPageCount(t)
  {
    RangeFrom1Properties(IncrementalPageCount(t));
    RangeFrom1(IncrementalPageCount(t))
  }

  /** The planner's page lists agree with the URL builder's for every target
      and both scan kinds (with this catalog no incremental count exceeds a
      target's pages). */
  lemma PlannerPagesMatchUrlBuilder(t: Target, isFullScan: bool)
    ensures (if isFullScan then GetAllPages(Config(t).totalPages) else GetIncrementalPages(t))
         == GetPagesToCheck(t, isFullScan)
  {
    PagesToCheckShape(t, isFullScan);
    IncrementalPlanFigures();
  }

  /** `calculateDelay`: `floor(page * 60 * (1 + jitter))` seconds. */
  function CalculateDelay(page: int, jitter: Jitter): (r: int)
    ensures page >= 0 ==> 48 * page <= r <= 72 * page
  {
    var x := (page * BaseDelaySeconds) as real * (1.0 + jitter);
    DelayBounds(page, jitter, x);
    x.Floor
  }

  lemma DelayBounds(page: int, jitter: Jitter, x: real)
    requires x == (page * BaseDelaySeconds) as real * (1.0 + jitter)
    ensures page >= 0 ==> (48 * page) as real <= x <= (72 * page) as real
  {
    if page >= 0 {
      var p := page as real;
      assert (page * BaseDelaySeconds) as real == 60.0 * p;
      assert x == 60.0 * p + 60.0 * p * jitter;
      ScaleBounds(60.0 * p, jitter, -0.2, 0.2);
      assert (48 * page) as real == 48.0 * p;
      assert (72 * page) as real == 72.0 * p;
    }
  }

  lemma ScaleBounds(a: real, x: real, lo: real, hi: real)
    requires a >= 0.0 && lo <= x <= hi
    ensures a * lo <= a * x <= a * hi
  {
  }

  /** For a fixed jitter, later pages never get shorter delays. */
  lemma DelayMonotone(p: int, q: int, jitter: Jitter)
    requires 0 <= p <= q
    ensures CalculateDelay(p, jitter) <= CalculateDelay(q, jitter)
  {
    var x := (p * BaseDelaySeconds) as real * (1.0 + jitter);
    var y := (q * BaseDelaySeconds) as real * (1.0 + jitter);
    assert x <= y by {
      assert (q * BaseDelaySeconds) as real - (p * BaseDelaySeconds) as real >= 0.0;
      assert y - x == ((q * BaseDelaySeconds) as real - (p * BaseDelaySeconds) as real) * (1.0 + jitter);
    }
  }

  /** The pages the cycle plans for a target. */
  function PlannedPages(cfg: TargetConfig, isFullScan: bool): seq<int> {
    if isFullScan then GetAllPages(cfg.totalPages) else GetIncrementalPages(cfg.target)
  }

  /** Jobs of one country: one per planned page the country has, in page
      order. */
  function CountryJobs(t: Target, c: Country, pages: seq<int>, now: int): (r: seq<ScanJob>)
    ensures |r| == |Within(pages, c.pages)|
    ensures forall i :: 0 <= i < |r| ==> r[i] == ScanJob(t, Some(c.name), Some(c.id), Within(pages, c.pages)[i], now)
    ensures forall j :: j in r ==>
      j == ScanJob(t, Some(c.name), Some(c.id), j.page, now) && j.page in pages && j.page <= c.pages
  {
    if pages == [] then []
    else
      (if pages[0] <= c.pages then [ScanJob(t, Some(c.name), Some(c.id), pages[0], now)] else [])
      + CountryJobs(t, c, pages[1..], now)
  }

  /** Jobs of every country, country by country. */
  function CountriesJobs(t: Target, cs: seq<Country>, pages: seq<int>, now: int): (r: seq<ScanJob>)
    ensures |r| == SumWithin(cs, pages)
    ensures forall j :: j in r ==> exists c :: (c in cs &&
      j == ScanJob(t, Some(c.name), Some(c.id), j.page, now) && j.page in pages && j.page <= c.pages)
  {
    if cs == [] then []
    else
      var r := CountryJobs(t, cs[0], pages, now) + CountriesJobs(t, cs[1..], pages, now);
      assert forall j :: j in r ==> j in CountryJobs(t, cs[0], pages, now) || j in CountriesJobs(t, cs[1..], pages, now);
      r
  }

  /** The jobs a target's step publishes, in order: one per page for `all`
      with no country fields; for a region target one per (country, page)
      with the page not beyond the country's count, country by country,
      carrying that country's name and id. Every job is stamped `now`. */
  function TargetJobs(cfg: TargetConfig, isFullScan: bool, now: int): (r: seq<ScanJob>)
    ensures cfg.target == All ==> |r| == |PlannedPages(cfg, isFullScan)|
    ensures cfg.target == All ==> forall i :: 0 <= i < |r| ==>
      r[i] == ScanJob(All, None, None, PlannedPages(cfg, isFullScan)[i], now)
    ensures cfg.target != All ==> |r| == SumWithin(cfg.countries, PlannedPages(cfg, isFullScan))
    ensures cfg.target != All ==> forall j :: j in r ==> j.page in PlannedPages(cfg, isFullScan)
    ensures cfg.target != All ==> forall j :: j in r ==> exists c :: (c in cfg.countries &&
      j == ScanJob(cfg.target, Some(c.name), Some(c.id), j.page, now) && 1 <= j.page <= c.pages)
  {
    var pages := PlannedPages(cfg, isFullScan);
    if cfg.target == All then seq(|pages|, i requires 0 <= i < |pages| => ScanJob(All, None, None, pages[i], now))
    else CountriesJobs(cfg.target, cfg.countries, pages, now)
  }

  lemma {:induction false} CountryJobsCover(t: Target, c: Country, pages: seq<int>, now: int, p: int)
    requires p in pages && p <= c.pages
    ensures ScanJob(t, Some(c.name), Some(c.id), p, now) in CountryJobs(t, c, pages, now)
  {
    if pages[0] != p {
      CountryJobsCover(t, c, pages[1..], now, p);
    }
  }

  lemma {:induction false} CountriesJobsCover(t: Target, cs: seq<Country>, pages: seq<int>, now: int, c: Country, p: int)
    requires c in cs && p in pages && p <= c.pages
    ensures ScanJob(t, Some(c.name), Some(c.id), p, now) in CountriesJobs(t, cs, pages, now)
  {
    if cs[0] == c {
      CountryJobsCover(t, c, pages, now, p);
    } else {
      CountriesJobsCover(t, cs[1..], pages, now, c, p);
    }
  }

  /** A full scan of a region target covers every page of every one of its
      countries. */
  lemma FullScanCoversEveryCountryPage(t: Target, now: int, c: Country, p: int)
    requires t != All && c in Config(t).countries && 1 <= p <= c.pages
    ensures ScanJob(t, Some(c.name), Some(c.id), p, now) in TargetJobs(Config(t), true, now)
  {
    TargetIsWellFormed(t);
    CountriesJobsCover(t, Config(t).countries, PlannedPages(Config(t), true), now, c, p);
  }

  /** One queue message: the job and its delivery delay. */
  datatype Published = Published(job: ScanJob, delay: int)

  /** Publish `jobs` in order, the `k`-th publish call of the cycle failing
      with `publish(k)` when that is present. Returns what was published and
      the first failure. */
  function PublishJobs(jobs: seq<ScanJob>, k: nat, publish: nat -> Option<string>,
                       jitter: nat -> Jitter): (r: (seq<Published>, Option<string>))
    ensures |r.0| <= |jobs|
    ensures forall i :: 0 <= i < |r.0| ==>
      r.0[i] == Published(jobs[i], CalculateDelay(jobs[i].page, jitter(k + i)))
    ensures forall i :: k <= i < k + |r.0| ==> publish(i).None?
    ensures r.1.None? <==> |r.0| == |jobs|
    ensures r.1.Some? ==> r.1 == publish(k + |r.0|)
    decreases |jobs|
  {
    if jobs == [] then ([], None)
    else if publish(k).Some? then ([], publish(k))
    else
      var rest := PublishJobs(jobs[1..], k + 1, publish, jitter);
      var out := [Published(jobs[0], CalculateDelay(jobs[0].page, jitter(k)))] + rest.0;
      assert forall i :: 1 <= i < |out| ==> out[i] == rest.0[i - 1] && jobs[i] == jobs[1..][i - 1];
      (out, rest.1)
  }

  /** The state the cycle threads from target to target. */
  datatype Step = Step(store: Store, published: seq<Published>, fault: Option<string>)

  /** What one target's step guarantees: a failure leaves the store as it
      was; success records the target; no other target's timestamps and no
      fingerprint set or history list change; a completed step publishes
      exactly the target's jobs; each message has the delay drawn for its
      publish index. */
  predicate StepSpec(r: Step, st: Store, cfg: TargetConfig, k: nat, now: int, jitter: nat -> Jitter,
                     plan: (Store, TargetConfig) -> seq<ScanJob>) {
    && (r.fault.Some? ==> r.store == st)
    && (r.fault.None? ==> Recorded(st, r.store, cfg.target, now))
    && (forall u :: u != cfg.target ==> SameTimestamps(st, r.store, u))
    && r.store.seen == st.seen && r.store.history == st.history
    && (r.fault.None? ==> JobsOf(r.published) == plan(st, cfg))
    && |r.published| <= |plan(st, cfg)|
    && DelaysDrawn(r.published, k, jitter)
  }

  /** One target's step: decide the scan kind, publish its jobs, and only when
      all of them are queued set `last_check`, and `last_full_scan` after a
      full scan. */
  function RunTarget(st: Store, cfg: TargetConfig, now: int, k: nat,
                     publish: nat -> Option<string>, jitter: nat -> Jitter): (r: Step)
    ensures StepSpec(r, st, cfg, k, now, jitter, CyclePlan(now))
  {
    assert CyclePlan(now)(st, cfg) == TargetJobs(cfg, ShouldDoFullScan(st, cfg.target, now), now);
    var t := cfg.target;
    var isFullScan := ShouldDoFullScan(st, t, now);
    var sent := PublishJobs(TargetJobs(cfg, isFullScan, now), k, publish, jitter);
    if sent.1.Some? then Step(st, sent.0, sent.1)
    else
      var checked := UpdateLastCheckTimestamp(st, t, now);
      Step(if isFullScan then UpdateLastFullScanTimestamp(checked, t, now) else checked, sent.0, None)
  }

  /** The jobs a target's step plans, given the store it starts from. */
  function CyclePlan(now: int): (Store, TargetConfig) -> seq<ScanJob> {
    (st: Store, cfg: TargetConfig) => TargetJobs(cfg, ShouldDoFullScan(st, cfg.target, now), now)
  }

  /** The cycle's step for one target, with the `k`-th publish of the run. */
  function CycleStep(now: int, publish: nat -> Option<string>, jitter: nat -> Jitter): (Store, TargetConfig, nat) -> Step {
    (st: Store, cfg: TargetConfig, k: nat) => RunTarget(st, cfg, now, k, publish, jitter)
  }

  /** Every step the function takes meets the step guarantee. */
  ghost predicate WellBehaved(step: (Store, TargetConfig, nat) -> Step, now: int, jitter: nat -> Jitter,
                              plan: (Store, TargetConfig) -> seq<ScanJob>) {
    forall st, cfg, k :: StepSpec(step(st, cfg, k), st, cfg, k, now, jitter, plan)
  }

  lemma CycleStepWellBehaved(now: int, publish: nat -> Option<string>, jitter: nat -> Jitter)
    ensures WellBehaved(CycleStep(now, publish, jitter), now, jitter, CyclePlan(now))
  {
    forall st, cfg, k ensures StepSpec(CycleStep(now, publish, jitter)(st, cfg, k), st, cfg, k, now, jitter, CyclePlan(now)) {
      assert CycleStep(now, publish, jitter)(st, cfg, k) == RunTarget(st, cfg, now, k, publish, jitter);
    }
  }

  /** The part of a step's contract about the timestamps alone. */
  predicate StoreSpec(r: Step, st: Store, cfg: TargetConfig, now: int) {
    && (r.fault.Some? ==> r.store == st)
    && (r.fault.None? ==> Recorded(st, r.store, cfg.target, now))
    && (forall u :: u != cfg.target ==> SameTimestamps(st, r.store, u))
  }

  ghost predicate StoreBehaved(step: (Store, TargetConfig, nat) -> Step, now: int) {
    forall st, cfg, k :: StoreSpec(step(st, cfg, k), st, cfg, now)
  }

  lemma WellBehavedStores(step: (Store, TargetConfig, nat) -> Step, now: int, jitter: nat -> Jitter,
                          plan: (Store, TargetConfig) -> seq<ScanJob>)
    requires WellBehaved(step, now, jitter, plan)
    ensures StoreBehaved(step, now)
  {
    forall st, cfg, k ensures StoreSpec(step(st, cfg, k), st, cfg, now) {
      assert StepSpec(step(st, cfg, k), st, cfg, k, now, jitter, plan);
    }
  }

  /** The targets in order, each step starting at the publish index where the
      previous one stopped, and the run ending at the first failure. */
  function RunTargets(st: Store, cfgs: seq<TargetConfig>, k: nat,
                      step: (Store, TargetConfig, nat) -> Step): Step
    decreases |cfgs|
  {
    if cfgs == [] then Step(st, [], None)
    else
      var first := step(st, cfgs[0], k);
      if first.fault.Some? then first
      else
        var rest := RunTargets(first.store, cfgs[1..], k + |first.published|, step);
        Step(rest.store, first.published + rest.published, rest.fault)
  }

  /** The cycle's response: the number of jobs queued, or the error message
      of the 500 response. */
  datatype CycleReport = CycleReport(store: Store, published: seq<Published>, response: Result<nat, string>)

  /** `GET` of the scheduling route, after authorisation. Without a queue
      token nothing is published and nothing is recorded. */
  function RunCycle(st: Store, now: int, queueConfigured: bool,
                    publish: nat -> Option<string>, jitter: nat -> Jitter): (r: CycleReport)
    ensures !queueConfigured ==> r == CycleReport(st, [], Failure(QueueTokenMissing))
    ensures r.response.Success? ==> r.response.value == |r.published|
    ensures r.store.seen == st.seen && r.store.history == st.history
  {
    if !queueConfigured then CycleReport(st, [], Failure(QueueTokenMissing))
    else
      var run := RunTargets(st, Catalog, 0, CycleStep(now, publish, jitter));
      CycleStepWellBehaved(now, publish, jitter);
      RunTargetsKeepsSets(st, Catalog, 0, CycleStep(now, publish, jitter), now, jitter, CyclePlan(now));
      match run.fault
      case None => CycleReport(run.store, run.published, Success(|run.published|))
      case Some(e) => CycleReport(run.store, run.published, Failure(e))
  }

  /** The targets of a list of configurations, in order. */
  function TargetsOf(cfgs: seq<TargetConfig>): (r: seq<Target>)
    ensures |r| == |cfgs| && forall i :: 0 <= i < |cfgs| ==> r[i] == cfgs[i].target
  {
    if cfgs == [] then [] else [cfgs[0].target] + TargetsOf(cfgs[1..])
  }

  /** The jobs of a list of queue messages. */
  function JobsOf(ps: seq<Published>): (r: seq<ScanJob>)
    ensures |r| == |ps| && forall i :: 0 <= i < |ps| ==> r[i] == ps[i].job
  {
    if ps == [] then [] else [ps[0].job] + JobsOf(ps[1..])
  }

  lemma JobsOfAppend(a: seq<Published>, b: seq<Published>)
    ensures JobsOf(a + b) == JobsOf(a) + JobsOf(b)
  {
  }

  /** Message `i` of `ps` carries the delay drawn for publish index `k + i`. */
  predicate DelaysDrawn(ps: seq<Published>, k: nat, jitter: nat -> Jitter) {
    forall i :: 0 <= i < |ps| ==> ps[i].delay == CalculateDelay(ps[i].job.page, jitter(k + i))
  }

  lemma DelaysConcat(a: seq<Published>, b: seq<Published>, k: nat, jitter: nat -> Jitter)
    requires DelaysDrawn(a, k, jitter) && DelaysDrawn(b, k + |a|, jitter)
    ensures DelaysDrawn(a + b, k, jitter)
  {
    var all := a + b;
    forall i | |a| <= i < |all|
      ensures all[i].delay == CalculateDelay(all[i].job.page, jitter(k + i))
    {
      assert all[i] == b[i - |a|];
    }
  }

  /** What a run over `cfgs` publishes when nothing fails: each target's
      jobs, in order, with the scan kind each target's own record selects. */
  function PlannedJobs(st: Store, cfgs: seq<TargetConfig>, plan: (Store, TargetConfig) -> seq<ScanJob>): seq<ScanJob> {
    if cfgs == [] then []
    else plan(st, cfgs[0]) + PlannedJobs(st, cfgs[1..], plan)
  }

  /** A plan for a target reads only that target's timestamps. */
  ghost predicate PlanLocal(plan: (Store, TargetConfig) -> seq<ScanJob>) {
    forall a: Store, b: Store, cfg: TargetConfig :: SameTimestamps(a, b, cfg.target) ==> plan(a, cfg) == plan(b, cfg)
  }

  lemma CyclePlanLocal(now: int)
    ensures PlanLocal(CyclePlan(now))
  {
    forall a: Store, b: Store, cfg: TargetConfig | SameTimestamps(a, b, cfg.target) ensures CyclePlan(now)(a, cfg) == CyclePlan(now)(b, cfg) {
      ShouldDoFullScanLocal(a, b, cfg.target, now);
    }
  }

  /** The timestamps of `u` read the same in both stores. */
  predicate SameTimestamps(a: Store, b: Store, u: Target) {
    GetLastCheckTimestamp(a, u) == GetLastCheckTimestamp(b, u) &&
    GetLastFullScanTimestamp(a, u) == GetLastFullScanTimestamp(b, u)
  }

  /** Target `u`'s step completed at `now`: `last_check` is `now`, and
      `last_full_scan` is `now` after a full scan and untouched otherwise. */
  predicate Recorded(before: Store, after: Store, u: Target, now: int) {
    && GetLastCheckTimestamp(after, u) == (if now == 0 then None else Some(now))
    && GetLastFullScanTimestamp(after, u)
       == (if ShouldDoFullScan(before, u, now) then (if now == 0 then None else Some(now))
           else GetLastFullScanTimestamp(before, u))
  }

  /** No two configurations are for the same target. */
  predicate Distinct(cfgs: seq<TargetConfig>) {
    forall i, j :: 0 <= i < j < |cfgs| ==> cfgs[i].target != cfgs[j].target
  }

  lemma DistinctTail(cfgs: seq<TargetConfig>)
    requires cfgs != [] && Distinct(cfgs)
    ensures Distinct(cfgs[1..]) && cfgs[0].target !in TargetsOf(cfgs[1..])
  {
    var tl := cfgs[1..];
    forall i, j | 0 <= i < j < |tl| ensures tl[i].target != tl[j].target {
      assert tl[i] == cfgs[i + 1] && tl[j] == cfgs[j + 1];
    }
    forall i | 0 <= i < |tl| ensures TargetsOf(tl)[i] != cfgs[0].target {
      assert tl[i] == cfgs[i + 1];
    }
  }

  lemma TargetsOfCons(cfgs: seq<TargetConfig>)
    requires cfgs != []
    ensures forall u :: u in TargetsOf(cfgs) <==> u == cfgs[0].target || u in TargetsOf(cfgs[1..])
  {
    assert TargetsOf(cfgs) == [cfgs[0].target] + TargetsOf(cfgs[1..]);
  }

  /** A run never changes a fingerprint set or a history list. */
  lemma {:induction false} RunTargetsKeepsSets(st: Store, cfgs: seq<TargetConfig>, k: nat,
                                               step: (Store, TargetConfig, nat) -> Step, now: int, jitter: nat -> Jitter,
                                               plan: (Store, TargetConfig) -> seq<ScanJob>)
    requires WellBehaved(step, now, jitter, plan)
    ensures RunTargets(st, cfgs, k, step).store.seen == st.seen
    ensures RunTargets(st, cfgs, k, step).store.history == st.history
    decreases |cfgs|
  {
    if cfgs != [] {
      var first := step(st, cfgs[0], k);
      assert StepSpec(first, st, cfgs[0], k, now, jitter, plan);
      if first.fault.None? {
        RunTargetsKeepsSets(first.store, cfgs[1..], k + |first.published|, step, now, jitter, plan);
      }
    }
  }

  /** Every queue message carries the delay drawn for its publish index. */
  lemma {:induction false} RunTargetsDelays(st: Store, cfgs: seq<TargetConfig>, k: nat,
                                            step: (Store, TargetConfig, nat) -> Step, now: int, jitter: nat -> Jitter,
                                               plan: (Store, TargetConfig) -> seq<ScanJob>)
    requires WellBehaved(step, now, jitter, plan)
    ensures DelaysDrawn(RunTargets(st, cfgs, k, step).published, k, jitter)
    decreases |cfgs|
  {
    if cfgs != [] {
      var first := step(st, cfgs[0], k);
      assert StepSpec(first, st, cfgs[0], k, now, jitter, plan);
      if first.fault.None? {
        var k' := k + |first.published|;
        var rest := RunTargets(first.store, cfgs[1..], k', step);
        RunTargetsDelays(first.store, cfgs[1..], k', step, now, jitter, plan);
        DelaysConcat(first.published, rest.published, k, jitter);
      }
    }
  }

  /** The scan-kind decision for a target reads only that target's record. */
  lemma ShouldDoFullScanLocal(a: Store, b: Store, u: Target, now: int)
    requires SameTimestamps(a, b, u)
    ensures ShouldDoFullScan(a, u, now) == ShouldDoFullScan(b, u, now)
  {
  }

  lemma {:induction false} PlannedJobsLocal(a: Store, b: Store, cfgs: seq<TargetConfig>,
                                            plan: (Store, TargetConfig) -> seq<ScanJob>)
    requires PlanLocal(plan)
    requires forall u :: u in TargetsOf(cfgs) ==> SameTimestamps(a, b, u)
    ensures PlannedJobs(a, cfgs, plan) == PlannedJobs(b, cfgs, plan)
  {
    if cfgs != [] {
      TargetsOfCons(cfgs);
      PlannedJobsLocal(a, b, cfgs[1..], plan);
    }
  }

  /** A run that completes publishes exactly the planned jobs. */
  lemma {:induction false} RunTargetsJobs(st: Store, cfgs: seq<TargetConfig>, k: nat,
                                          step: (Store, TargetConfig, nat) -> Step, now: int, jitter: nat -> Jitter,
                                               plan: (Store, TargetConfig) -> seq<ScanJob>)
    requires WellBehaved(step, now, jitter, plan) && PlanLocal(plan) && Distinct(cfgs)
    requires RunTargets(st, cfgs, k, step).fault.None?
    ensures JobsOf(RunTargets(st, cfgs, k, step).published) == PlannedJobs(st, cfgs, plan)
    decreases |cfgs|
  {
    if cfgs != [] {
      DistinctTail(cfgs);
      var first := step(st, cfgs[0], k);
      assert StepSpec(first, st, cfgs[0], k, now, jitter, plan);
      var tl := cfgs[1..];
      var rest := RunTargets(first.store, tl, k + |first.published|, step);
      RunTargetsJobs(first.store, tl, k + |first.published|, step, now, jitter, plan);
      JobsOfAppend(first.published, rest.published);
      PlannedJobsLocal(st, first.store, tl, plan);
    }
  }

  /** A run that completes records every target it visits. */
  lemma {:induction false} RunTargetsRecords(st: Store, cfgs: seq<TargetConfig>, k: nat,
                                             step: (Store, TargetConfig, nat) -> Step, now: int, jitter: nat -> Jitter,
                                               plan: (Store, TargetConfig) -> seq<ScanJob>)
    requires WellBehaved(step, now, jitter, plan) && Distinct(cfgs)
    requires RunTargets(st, cfgs, k, step).fault.None?
    ensures forall u :: u in TargetsOf(cfgs) ==> Recorded(st, RunTargets(st, cfgs, k, step).store, u, now)
    decreases |cfgs|
  {
    if cfgs != [] {
      DistinctTail(cfgs);
      TargetsOfCons(cfgs);
      var first := step(st, cfgs[0], k);
      assert StepSpec(first, st, cfgs[0], k, now, jitter, plan);
      var tl := cfgs[1..];
      var r := RunTargets(st, cfgs, k, step);
      WellBehavedStores(step, now, jitter, plan);
      RunTargetsRecords(first.store, tl, k + |first.published|, step, now, jitter, plan);
      forall u | u in TargetsOf(cfgs) ensures Recorded(st, r.store, u, now) {
        if u == cfgs[0].target {
          RunTargetsUntouched(first.store, tl, k + |first.published|, step, now, u);
        } else {
          ShouldDoFullScanLocal(st, first.store, u, now);
        }
      }
    }
  }

  /** A target the run does not visit keeps its timestamps. */
  lemma {:induction false} RunTargetsUntouched(st: Store, cfgs: seq<TargetConfig>, k: nat,
                                               step: (Store, TargetConfig, nat) -> Step, now: int, u: Target)
    requires StoreBehaved(step, now) && u !in TargetsOf(cfgs)
    ensures SameTimestamps(st, RunTargets(st, cfgs, k, step).store, u)
    decreases |cfgs|
  {
    if cfgs != [] {
      TargetsOfCons(cfgs);
      var first := step(st, cfgs[0], k);
      assert StoreSpec(first, st, cfgs[0], now);
      if first.fault.None? {
        var rest := RunTargets(first.store, cfgs[1..], k + |first.published|, step);
        RunTargetsUntouched(first.store, cfgs[1..], k + |first.published|, step, now, u);
        assert SameTimestamps(st, first.store, u);
        assert RunTargets(st, cfgs, k, step).store == rest.store;
      }
    }
  }

  /** A run that fails stops inside some target: the targets before it are
      recorded, and it and every later target keep their timestamps. */
  lemma {:induction false} RunTargetsFails(st: Store, cfgs: seq<TargetConfig>, k: nat,
                                           step: (Store, TargetConfig, nat) -> Step, now: int)
    requires StoreBehaved(step, now) && Distinct(cfgs)
    requires RunTargets(st, cfgs, k, step).fault.Some?
    ensures StoppedSomewhere(st, RunTargets(st, cfgs, k, step).store, cfgs, now)
    decreases |cfgs|
  {
    var r := RunTargets(st, cfgs, k, step);
    var first := step(st, cfgs[0], k);
    assert StoreSpec(first, st, cfgs[0], now);
    if first.fault.Some? {
      assert r.store == st;
      StoppedAtStart(st, cfgs, now);
      assert StoppedAt(st, r.store, cfgs, 0, now);
    } else {
      var tl := cfgs[1..];
      var rest := RunTargets(first.store, tl, k + |first.published|, step);
      assert r.store == rest.store && r.fault == rest.fault;
      DistinctTail(cfgs);
      RunTargetsFails(first.store, tl, k + |first.published|, step, now);
      RunTargetsUntouched(first.store, tl, k + |first.published|, step, now, cfgs[0].target);
      StoppedAfterFirst(st, first.store, rest.store, cfgs, now);
    }
  }

  /** A run that stopped somewhere in the tail, behind a recorded first
      target, stopped somewhere in the whole list. */
  lemma StoppedAfterFirst(st: Store, mid: Store, fin: Store, cfgs: seq<TargetConfig>, now: int)
    requires Distinct(cfgs) && |cfgs| >= 1
    requires Recorded(st, mid, cfgs[0].target, now) && SameTimestamps(mid, fin, cfgs[0].target)
    requires forall u :: u != cfgs[0].target ==> SameTimestamps(st, mid, u)
    requires StoppedSomewhere(mid, fin, cfgs[1..], now)
    ensures StoppedSomewhere(st, fin, cfgs, now)
  {
    var n :| 0 <= n < |cfgs| - 1 && StoppedAt(mid, fin, cfgs[1..], n, now);
    StoppedAtCons(st, mid, fin, cfgs, n, now);
    assert StoppedAt(st, fin, cfgs, n + 1, now);
  }

  /** A run that changed nothing stopped before its first target. */
  lemma StoppedAtStart(st: Store, cfgs: seq<TargetConfig>, now: int)
    ensures StoppedAt(st, st, cfgs, 0, now)
  {
  }

  /** One recorded step in front of a run that stopped at `n` gives a run
      that stopped at `n + 1`. */
  lemma StoppedAtCons(st: Store, mid: Store, fin: Store, cfgs: seq<TargetConfig>, n: int, now: int)
    requires Distinct(cfgs) && 0 <= n < |cfgs| - 1
    requires Recorded(st, mid, cfgs[0].target, now) && SameTimestamps(mid, fin, cfgs[0].target)
    requires forall u :: u != cfgs[0].target ==> SameTimestamps(st, mid, u)
    requires StoppedAt(mid, fin, cfgs[1..], n, now)
    ensures StoppedAt(st, fin, cfgs, n + 1, now)
  {
    var tl := cfgs[1..];
    forall i | 0 <= i < n + 1 ensures Recorded(st, fin, cfgs[i].target, now) {
      if i == 0 {
        RecordedKept(st, mid, fin, cfgs[0].target, now);
      } else {
        assert cfgs[i] == tl[i - 1];
        RecordedCarried(st, mid, fin, cfgs[i].target, now);
      }
    }
    forall i | n + 1 <= i < |cfgs| ensures SameTimestamps(st, fin, cfgs[i].target) {
      assert cfgs[i] == tl[i - 1];
      SameTimestampsTrans(st, mid, fin, cfgs[i].target);
    }
  }

  lemma SameTimestampsTrans(a: Store, b: Store, c: Store, u: Target)
    requires SameTimestamps(a, b, u) && SameTimestamps(b, c, u)
    ensures SameTimestamps(a, c, u)
  {
  }

  lemma RecordedKept(st: Store, mid: Store, fin: Store, u: Target, now: int)
    requires Recorded(st, mid, u, now) && SameTimestamps(mid, fin, u)
    ensures Recorded(st, fin, u, now)
  {
  }

  lemma RecordedCarried(st: Store, mid: Store, fin: Store, u: Target, now: int)
    requires SameTimestamps(st, mid, u) && Recorded(mid, fin, u, now)
    ensures Recorded(st, fin, u, now)
  {
    ShouldDoFullScanLocal(st, mid, u, now);
  }

  /** The first `n` targets of `cfgs` are recorded and the rest keep their
      timestamps. */
  predicate StoppedAt(before: Store, after: Store, cfgs: seq<TargetConfig>, n: int, now: int)
    requires 0 <= n <= |cfgs|
  {
    && (forall i :: 0 <= i < n ==> Recorded(before, after, cfgs[i].target, now))
    && (forall i :: n <= i < |cfgs| ==> SameTimestamps(before, after, cfgs[i].target))
  }

  /** The run stopped inside one of the targets of `cfgs`. */
  predicate StoppedSomewhere(before: Store, after: Store, cfgs: seq<TargetConfig>, now: int)
  {
    exists n :: 0 <= n < |cfgs| && StoppedAt(before, after, cfgs, n, now)
  }

  /** A completed cycle queues exactly the planned jobs of `all`, `dach` and
      `uk`, reports their number, and records all three targets. */
  lemma CycleSucceeds(st: Store, now: int, publish: nat -> Option<string>, jitter: nat -> Jitter)
    requires RunCycle(st, now, true, publish, jitter).response.Success?
    ensures JobsOf(RunCycle(st, now, true, publish, jitter).published) == CycleJobs(st, now)
    ensures RunCycle(st, now, true, publish, jitter).response.value == |CycleJobs(st, now)|
    ensures forall u :: Recorded(st, RunCycle(st, now, true, publish, jitter).store, u, now)
  {
    var step := CycleStep(now, publish, jitter);
    var run := RunTargets(st, Catalog, 0, step);
    assert RunCycle(st, now, true, publish, jitter) == CycleReport(run.store, run.published, Success(|run.published|));
    CycleStepWellBehaved(now, publish, jitter);
    CyclePlanLocal(now);
    CatalogDistinct();
    CatalogTargets();
    RunTargetsJobs(st, Catalog, 0, step, now, jitter, CyclePlan(now));
    RunTargetsRecords(st, Catalog, 0, step, now, jitter, CyclePlan(now));
    CatalogPlan(st, now);
  }

  lemma CatalogTargets()
    ensures forall u :: u in TargetsOf(Catalog)
  {
    var ts := TargetsOf(Catalog);
    assert ts[0] == All && ts[1] == Dach && ts[2] == Uk;
    forall u ensures u in ts {
      if u == All { assert u == ts[0]; }
      else if u == Dach { assert u == ts[1]; }
      else { assert u == ts[2]; }
    }
  }

  /** A cycle that fails part-way leaves a prefix of the targets recorded and
      the rest untouched; every message carries its drawn delay. */
  lemma CycleFails(st: Store, now: int, publish: nat -> Option<string>, jitter: nat -> Jitter)
    requires RunCycle(st, now, true, publish, jitter).response.Failure?
    ensures exists n :: 0 <= n < 3 && StoppedAt(st, RunCycle(st, now, true, publish, jitter).store, Catalog, n, now)
  {
    var step := CycleStep(now, publish, jitter);
    CycleStepWellBehaved(now, publish, jitter);
    CatalogDistinct();
    WellBehavedStores(step, now, jitter, CyclePlan(now));
    RunTargetsFails(st, Catalog, 0, step, now);
  }

  /** Every queued message's delay is the one drawn for its publish index. */
  lemma CycleDelays(st: Store, now: int, publish: nat -> Option<string>, jitter: nat -> Jitter)
    ensures DelaysDrawn(RunCycle(st, now, true, publish, jitter).published, 0, jitter)
  {
    CycleStepWellBehaved(now, publish, jitter);
    RunTargetsDelays(st, Catalog, 0, CycleStep(now, publish, jitter), now, jitter, CyclePlan(now));
  }

  /** The jobs of a completed cycle: `all`'s, then `dach`'s, then `uk`'s,
      each target's scan kind chosen from the store the cycle started with. */
  function CycleJobs(st: Store, now: int): seq<ScanJob> {
    TargetJobs(Config(All), ShouldDoFullScan(st, All, now), now)
    + TargetJobs(Config(Dach), ShouldDoFullScan(st, Dach, now), now)
    + TargetJobs(Config(Uk), ShouldDoFullScan(st, Uk, now), now)
  }

  lemma CatalogPlan(st: Store, now: int)
    ensures PlannedJobs(st, Catalog, CyclePlan(now)) == CycleJobs(st, now)
  {
    var plan := CyclePlan(now);
    assert Catalog[1..][1..][1..] == [];
    assert PlannedJobs(st, Catalog[1..][1..], plan) == plan(st, Config(Uk)) + [];
    assert PlannedJobs(st, Catalog[1..], plan) == plan(st, Config(Dach)) + PlannedJobs(st, Catalog[1..][1..], plan);
  }

  lemma CatalogDistinct()
    ensures Distinct(Catalog)
  {
  }
}
