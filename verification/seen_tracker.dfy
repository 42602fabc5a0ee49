/** Novelty filter and scan-cadence state (`lib/state/seen-tracker.ts`), over
    the explicit store. Wall-clock time is a parameter. */
module SeenTracker {
  import opened Wrappers
  import opened Domain
  import opened Seqs
  import opened Keyed
  import opened Hash
  import opened KvStore

  /** `FULL_SCAN_INTERVAL_DAYS`, as milliseconds. */
  const DayMillis := 1000 * 60 * 60 * 24
  const FullScanIntervalDays := 7
  const FullScanIntervalMillis := 604800000

  /** `isCustomerSeen`: a customer counts as seen for a target exactly when
      some customer with the same normalised name, country and industry has
      its fingerprint in the target's set. */
  function IsCustomerSeen(st: Store, c: Customer, t: Target): (r: bool)
    ensures r <==> exists d :: SameIdentity(c, d) && CustomerHash(d) in SeenOf(st, t)
  {
    SeenByIdentity(st, c, t);
    CustomerHash(c) in SeenOf(st, t)
  }

  lemma SeenByIdentity(st: Store, c: Customer, t: Target)
    ensures CustomerHash(c) in SeenOf(st, t) <==>
      exists d :: SameIdentity(c, d) && CustomerHash(d) in SeenOf(st, t)
  {
    assert SameIdentity(c, c);
    forall d | SameIdentity(c, d) ensures CustomerHash(d) == CustomerHash(c) {
      HashInjective(c, d);
    }
  }

  /** `markCustomerAsSeen`: `SADD seen:<t> hash`. */
  function MarkCustomerAsSeen(st: Store, c: Customer, t: Target): (r: Store)
    ensures SeenOf(r, t) == SeenOf(st, t) + {CustomerHash(c)}
    ensures forall u :: u != t ==> SeenOf(r, u) == SeenOf(st, u)
    ensures r.lastCheck == st.lastCheck && r.lastFullScan == st.lastFullScan
    ensures r.history == st.history
  {
    WithSeen(st, t, SeenOf(st, t) + {CustomerHash(c)})
  }

  /** `markCustomersAsSeen`: one `SADD` with every fingerprint, skipped for an
      empty list. */
  function MarkCustomersAsSeen(st: Store, cs: seq<Customer>, t: Target): (r: Store)
    ensures SeenOf(r, t) == SeenOf(st, t) + Fingerprints(cs)
    ensures forall u :: u != t ==> SeenOf(r, u) == SeenOf(st, u)
    ensures r.lastCheck == st.lastCheck && r.lastFullScan == st.lastFullScan
    ensures r.history == st.history
    ensures cs == [] ==> r == st
  {
    if cs == [] then st else WithSeen(st, t, SeenOf(st, t) + Fingerprints(cs))
  }

  /** `filterNewCustomers`: walk the batch, keeping a customer when its
      fingerprint is not yet in `seen:<t>` and adding that fingerprint at
      once, so a batch never reports two records with one fingerprint.
      Returns the updated store and the new customers. */
  function FilterNewCustomers(st: Store, cs: seq<Customer>, t: Target): (r: (Store, seq<Customer>))
    ensures SeenOf(r.0, t) == SeenOf(st, t) + Fingerprints(cs)
    ensures forall u :: u != t ==> SeenOf(r.0, u) == SeenOf(st, u)
    ensures r.0.lastCheck == st.lastCheck && r.0.lastFullScan == st.lastFullScan
    ensures r.0.history == st.history
    ensures |r.1| <= |cs|
    ensures forall i :: 0 <= i < |r.1| ==> CustomerHash(r.1[i]) !in SeenOf(st, t)
    ensures forall i, j :: 0 <= i < j < |r.1| ==> CustomerHash(r.1[i]) != CustomerHash(r.1[j])
    ensures cs == [] ==> r == (st, [])
  {
    if cs == [] then (st, [])
    else
      var sel := SelectNew(SeenOf(st, t), cs, CustomerHash);
      SelectNewFresh(SeenOf(st, t), cs, CustomerHash);
      (WithSeen(st, t, sel.1), sel.0)
  }

  /** The new customers are exactly the first occurrences, in input order,
      of the fingerprints not already in the target's set. */
  lemma FilterNewIsFirstOccurrences(st: Store, cs: seq<Customer>, t: Target)
    ensures FilterNewCustomers(st, cs, t).1
         == Keep(cs, FirstNewMask(SeenOf(st, t), cs, CustomerHash))
  {
    SelectNewIsFirstOccurrences(SeenOf(st, t), cs, CustomerHash);
  }

  /** The new customers form an order-preserving subsequence of the batch. */
  lemma FilterNewIsSubsequence(st: Store, cs: seq<Customer>, t: Target)
    ensures IsSubsequence(FilterNewCustomers(st, cs, t).1, cs)
  {
    if cs != [] {
      SelectNewSubsequence(SeenOf(st, t), cs, CustomerHash);
    }
  }

  /** The target's set grows by exactly one fingerprint per new customer. */
  lemma FilterNewGrowsByNewCount(st: Store, cs: seq<Customer>, t: Target)
    ensures |SeenOf(FilterNewCustomers(st, cs, t).0, t)|
         == |SeenOf(st, t)| + |FilterNewCustomers(st, cs, t).1|
    ensures SeenOf(FilterNewCustomers(st, cs, t).0, t)
         == SeenOf(st, t) + Fingerprints(FilterNewCustomers(st, cs, t).1)
  {
    if cs != [] {
      SelectNewCount(SeenOf(st, t), cs, CustomerHash);
      SelectNewAddsReturnedKeys(SeenOf(st, t), cs, CustomerHash);
    }
  }

  /** Filtering the same batch a second time finds nothing new. */
  lemma FilterNewTwiceIsEmpty(st: Store, cs: seq<Customer>, t: Target)
    ensures var st' := FilterNewCustomers(st, cs, t).0;
      FilterNewCustomers(st', cs, t).1 == []
  {
    var st' := FilterNewCustomers(st, cs, t).0;
    if cs != [] {
      SelectNewAllSeen(SeenOf(st', t), cs, CustomerHash);
    }
  }

  /** After `d` is marked for `t`, a customer is seen for `t` exactly when it
      was seen before or `areCustomersSame` holds for it and `d`. */
  lemma MarkThenSeen(st: Store, d: Customer, t: Target, c: Customer)
    ensures IsCustomerSeen(MarkCustomerAsSeen(st, d, t), c, t) <==> IsCustomerSeen(st, c, t) || AreCustomersSame(c, d)
  {
    AddOneMembership(SeenOf(st, t), CustomerHash(c), CustomerHash(d));
  }

  lemma AddOneMembership(seen: set<string>, h: string, k: string)
    ensures h in seen + {k} <==> h in seen || h == k
  {
  }

  /** Marking a batch leaves the store exactly as filtering it does. */
  lemma MarkIsFilterStore(st: Store, cs: seq<Customer>, t: Target)
    ensures MarkCustomersAsSeen(st, cs, t) == FilterNewCustomers(st, cs, t).0
  {
    if cs != [] {
      var sel := SelectNew(SeenOf(st, t), cs, CustomerHash);
      SelectNewFresh(SeenOf(st, t), cs, CustomerHash);
      assert SeenOf(WithSeen(st, t, sel.1), t) == sel.1;
    }
  }

  /** Filtering reads only the target's fingerprint set. */
  lemma FilterNewSameSeen(a: Store, b: Store, cs: seq<Customer>, t: Target)
    requires SeenOf(a, t) == SeenOf(b, t)
    ensures FilterNewCustomers(a, cs, t).1 == FilterNewCustomers(b, cs, t).1
  {
    FilterNewIsFirstOccurrences(a, cs, t);
    FilterNewIsFirstOccurrences(b, cs, t);
  }

  /** A batch that was marked as seen finds nothing new when filtered. */
  lemma MarkThenFilterIsEmpty(st: Store, cs: seq<Customer>, t: Target)
    ensures FilterNewCustomers(MarkCustomersAsSeen(st, cs, t), cs, t).1 == []
  {
    MarkIsFilterStore(st, cs, t);
    FilterNewTwiceIsEmpty(st, cs, t);
  }

  /** After a batch is filtered, every customer of it counts as seen. */
  lemma FilterThenSeen(st: Store, cs: seq<Customer>, t: Target, i: int)
    requires 0 <= i < |cs|
    ensures IsCustomerSeen(FilterNewCustomers(st, cs, t).0, cs[i], t)
  {
    FingerprintsMembership(cs, CustomerHash(cs[i]));
  }

  /** `getSeenCustomersCount`: `SCARD seen:<t>`. */
  function SeenCount(st: Store, t: Target): (r: nat)
    ensures r == 0 <==> SeenOf(st, t) == {}
  {
    |SeenOf(st, t)|
  }

  /** Filtering a batch raises the target's count by exactly the number of
      new customers it reports. */
  lemma SeenCountAfterFilter(st: Store, cs: seq<Customer>, t: Target)
    ensures SeenCount(FilterNewCustomers(st, cs, t).0, t) == SeenCount(st, t) + |FilterNewCustomers(st, cs, t).1|
  {
    FilterNewGrowsByNewCount(st, cs, t);
  }

  /** Marking one customer raises the target's count by one when it was not
      seen yet and leaves it otherwise. */
  lemma SeenCountAfterMark(st: Store, c: Customer, t: Target)
    ensures SeenCount(MarkCustomerAsSeen(st, c, t), t)
         == SeenCount(st, t) + (if IsCustomerSeen(st, c, t) then 0 else 1)
  {
    AddOneCount(SeenOf(st, t), CustomerHash(c));
  }

  lemma AddOneCount(seen: set<string>, h: string)
    ensures |seen + {h}| == |seen| + (if h in seen then 0 else 1)
  {
    if h in seen {
      assert seen + {h} == seen;
    }
  }

  /** `markInParentTargets`: the target's set, and for a region target the
      aggregate `all` set as well. */
  function MarkInParentTargets(st: Store, c: Customer, t: Target): (r: Store)
    ensures CustomerHash(c) in SeenOf(r, t)
    ensures t != All ==> CustomerHash(c) in SeenOf(r, All)
    ensures forall u :: SeenOf(st, u) <= SeenOf(r, u)
    ensures forall u :: SeenOf(r, u) <= SeenOf(st, u) + {CustomerHash(c)}
    ensures forall u :: u != t && u != All ==> SeenOf(r, u) == SeenOf(st, u)
    ensures r.lastCheck == st.lastCheck && r.lastFullScan == st.lastFullScan
    ensures r.history == st.history
  {
    var h := CustomerHash(c);
    AddToParents(st, h, t);
    var once := WithSeen(st, t, SeenOf(st, t) + {h});
    if t == Dach || t == Uk then WithSeen(once, All, SeenOf(once, All) + {h}) else once
  }

  lemma AddToParents(st: Store, h: string, t: Target)
    ensures var once := WithSeen(st, t, SeenOf(st, t) + {h});
      var r := if t == Dach || t == Uk then WithSeen(once, All, SeenOf(once, All) + {h}) else once;
      && h in SeenOf(r, t)
      && (t != All ==> h in SeenOf(r, All))
      && (forall u :: SeenOf(st, u) <= SeenOf(r, u))
      && (forall u :: SeenOf(r, u) <= SeenOf(st, u) + {h})
      && (forall u :: u != t && u != All ==> SeenOf(r, u) == SeenOf(st, u))
      && r.lastCheck == st.lastCheck && r.lastFullScan == st.lastFullScan && r.history == st.history
  {
  }

  /** `resetSeenCustomers`: `DEL seen:<t>`. */
  function ResetSeenCustomers(st: Store, t: Target): (r: Store)
    ensures SeenOf(r, t) == {}
    ensures forall u :: u != t ==> SeenOf(r, u) == SeenOf(st, u)
    ensures r.lastCheck == st.lastCheck && r.lastFullScan == st.lastFullScan
    ensures r.history == st.history
  {
    st.(seen := st.seen - {t})
  }

  /** After a reset every customer is new again: a batch of distinct
      fingerprints comes back whole. */
  lemma ResetThenAllNew(st: Store, cs: seq<Customer>, t: Target)
    requires DistinctKeys(cs, CustomerHash)
    ensures FilterNewCustomers(ResetSeenCustomers(st, t), cs, t).1 == cs
  {
    if cs != [] {
      SelectNewKeepsDistinct({}, cs, CustomerHash);
    }
  }

  /** `getLastCheckTimestamp`. */
  function GetLastCheckTimestamp(st: Store, t: Target): (r: Option<int>)
    ensures r.Some? <==> t in st.lastCheck && st.lastCheck[t] != 0
    ensures r.Some? ==> r.value == st.lastCheck[t]
  {
    ReadTimestamp(st.lastCheck, t)
  }

  /** `getLastFullScanTimestamp`. */
  function GetLastFullScanTimestamp(st: Store, t: Target): (r: Option<int>)
    ensures r.Some? <==> t in st.lastFullScan && st.lastFullScan[t] != 0
    ensures r.Some? ==> r.value == st.lastFullScan[t]
  {
    ReadTimestamp(st.lastFullScan, t)
  }

  /** `updateLastCheckTimestamp`: `SET last_check:<t> now`. */
  function UpdateLastCheckTimestamp(st: Store, t: Target, now: int): (r: Store)
    ensures GetLastCheckTimestamp(r, t) == if now == 0 then None else Some(now)
    ensures forall u :: u != t ==> GetLastCheckTimestamp(r, u) == GetLastCheckTimestamp(st, u)
    ensures r.seen == st.seen && r.lastFullScan == st.lastFullScan && r.history == st.history
  {
    st.(lastCheck := st.lastCheck[t := now])
  }

  /** `updateLastFullScanTimestamp`: `SET last_full_scan:<t> now`. */
  function UpdateLastFullScanTimestamp(st: Store, t: Target, now: int): (r: Store)
    ensures GetLastFullScanTimestamp(r, t) == if now == 0 then None else Some(now)
    ensures forall u :: u != t ==> GetLastFullScanTimestamp(r, u) == GetLastFullScanTimestamp(st, u)
    ensures r.seen == st.seen && r.lastCheck == st.lastCheck && r.history == st.history
  {
    st.(lastFullScan := st.lastFullScan[t := now])
  }

  /** `shouldDoFullScan`: no recorded full scan, or at least seven days
      (`(now - last) / 86400000 >= 7`, on exact rationals) since it. */
  function ShouldDoFullScan(st: Store, t: Target, now: int): (r: bool)
    ensures GetLastFullScanTimestamp(st, t).None? ==> r
    ensures GetLastFullScanTimestamp(st, t).Some? ==>
      (r <==> now - GetLastFullScanTimestamp(st, t).value >= FullScanIntervalMillis)
  {
    match GetLastFullScanTimestamp(st, t)
    case None => true
    case Some(last) =>
      var days := (now - last) as real / DayMillis as real;
      days >= FullScanIntervalDays as real
  }

  /** A full scan recorded at `at` is due again exactly seven days later. */
  lemma FullScanDueAfterAWeek(st: Store, t: Target, at: int, now: int)
    requires at > 0
    ensures ShouldDoFullScan(UpdateLastFullScanTimestamp(st, t, at), t, now)
        <==> now >= at + FullScanIntervalMillis
  {
  }

  /** Once due, a full scan stays due as time passes. */
  lemma FullScanDueIsMonotone(st: Store, t: Target, now: int, later: int)
    requires now <= later
    requires ShouldDoFullScan(st, t, now)
    ensures ShouldDoFullScan(st, t, later)
  {
  }
}
