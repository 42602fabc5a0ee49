/** The run history: the worker's bounded push of one entry per job
    (`logHistory` in `app/api/scrape/worker/route.ts`) and the history
    endpoint (`app/api/history/route.ts`), which reads the newest 50 entries
    of each list, drops what does not parse, and returns the 50 most recent
    entries overall. */
module History {
  import opened Wrappers
  import opened Seqs
  import opened Domain
  import opened KvStore

  /** Entries read from each list, and entries returned. */
  const PerListLimit := 50
  const ResponseLimit := 50
  /** Entries a history list keeps after a push. */
  const RetainedEntries := 100
  const UnknownError := "Unknown error"

  /** The lists the endpoint reads, in the order it concatenates them. */
  const SourceLists := [TargetLog(All), TargetLog(Dach), TargetLog(Uk), ErrorLog]

  // ----- Writing -----

  /** Where `logHistory` can stop: it completes, `LPUSH` throws, or `LTRIM`
      throws after the push went through. */
  datatype LogFault = NoFault | PushFails | TrimFails

  /** `logHistory`: push the entry at the head of `history:<target>` and keep
      the first 100. A failure is logged and swallowed, so the caller always
      continues. */
  function LogHistory(st: Store, t: Target, found: int, added: int, now: int, fault: LogFault): (r: Store)
    ensures var e := Json(HistoryEntry(t, found, added, now));
      && (fault == NoFault ==> ListOf(r, TargetLog(t)) == Take([e] + ListOf(st, TargetLog(t)), RetainedEntries))
      && (fault == TrimFails ==> ListOf(r, TargetLog(t)) == [e] + ListOf(st, TargetLog(t)))
      && (fault == PushFails ==> r == st)
    ensures forall l :: l != TargetLog(t) ==> ListOf(r, l) == ListOf(st, l)
    ensures r.seen == st.seen && r.lastCheck == st.lastCheck && r.lastFullScan == st.lastFullScan
  {
    var l := TargetLog(t);
    match fault
    case PushFails => st
    case TrimFails => LPush(st, l, Json(HistoryEntry(t, found, added, now)))
    case NoFault => LTrim(LPush(st, l, Json(HistoryEntry(t, found, added, now))), l, RetainedEntries)
  }

  /** A completed push puts the new entry first, keeps the list at no more
      than 100 entries, and keeps the newest prior entries behind it. */
  lemma LogHistoryBounded(st: Store, t: Target, found: int, added: int, now: int)
    ensures var after := ListOf(LogHistory(st, t, found, added, now, NoFault), TargetLog(t));
      && 1 <= |after| <= RetainedEntries
      && after[0] == Json(HistoryEntry(t, found, added, now))
      && after[1..] == Take(ListOf(st, TargetLog(t)), RetainedEntries - 1)
  {
    var prior := ListOf(st, TargetLog(t));
    var e := Json(HistoryEntry(t, found, added, now));
    var after := Take([e] + prior, RetainedEntries);
    assert after[1..] == ([e] + prior)[1..|after|];
    assert ([e] + prior)[1..|after|] == prior[..|after| - 1];
  }

  /** Once a list holds 100 entries it stays at 100 whatever is pushed. */
  lemma LogHistoryStaysAtLimit(st: Store, t: Target, found: int, added: int, now: int)
    requires |ListOf(st, TargetLog(t))| >= RetainedEntries
    ensures |ListOf(LogHistory(st, t, found, added, now, NoFault), TargetLog(t))| == RetainedEntries
  {
  }

  // ----- Reading -----

  /** `parseHistoryEntry`: the entry, or nothing when the text does not parse. */
  function ParseHistoryEntry(s: StoredEntry): (r: Option<HistoryEntry>)
    ensures r.Some? <==> s.Json?
    ensures r.Some? ==> r.value == s.entry
  {
    match s
    case Json(e) => Some(e)
    case Malformed(_) => None
  }

  /** The parsed entries of the newest 50 of each source list, lists in the
      order `all`, `dach`, `uk`, `errors`. */
  function MergedHistory(st: Store): (r: seq<HistoryEntry>)
    ensures |r| <= |SourceLists| * PerListLimit
  {
    var raw := Take(ListOf(st, SourceLists[0]), PerListLimit)
             + Take(ListOf(st, SourceLists[1]), PerListLimit)
             + Take(ListOf(st, SourceLists[2]), PerListLimit)
             + Take(ListOf(st, SourceLists[3]), PerListLimit);
    FilterMap(raw, ParseHistoryEntry)
  }

  /** The merged list is the parsed part of each list's newest 50 entries,
      list after list: each list contributes at most 50 entries, and an entry
      is dropped exactly when it does not parse. */
  lemma MergedHistoryParts(st: Store)
    ensures var part := (l: HistoryList) => FilterMap(Take(ListOf(st, l), PerListLimit), ParseHistoryEntry);
      && MergedHistory(st) == part(SourceLists[0]) + part(SourceLists[1]) + part(SourceLists[2]) + part(SourceLists[3])
      && forall l :: |part(l)| <= PerListLimit
  {
    var a := Take(ListOf(st, SourceLists[0]), PerListLimit);
    var b := Take(ListOf(st, SourceLists[1]), PerListLimit);
    var c := Take(ListOf(st, SourceLists[2]), PerListLimit);
    var d := Take(ListOf(st, SourceLists[3]), PerListLimit);
    FilterMapAppend(a + b + c, d, ParseHistoryEntry);
    FilterMapAppend(a + b, c, ParseHistoryEntry);
    FilterMapAppend(a, b, ParseHistoryEntry);
  }

  /** An entry is in the merged list iff it is stored, well-formed, among the
      newest 50 of one of the source lists. */
  lemma MergedHistoryMembership(st: Store, e: HistoryEntry)
    ensures e in MergedHistory(st) <==>
      Json(e) in Take(ListOf(st, SourceLists[0]), PerListLimit) + Take(ListOf(st, SourceLists[1]), PerListLimit)
               + Take(ListOf(st, SourceLists[2]), PerListLimit) + Take(ListOf(st, SourceLists[3]), PerListLimit)
  {
    var raw := Take(ListOf(st, SourceLists[0]), PerListLimit)
             + Take(ListOf(st, SourceLists[1]), PerListLimit)
             + Take(ListOf(st, SourceLists[2]), PerListLimit)
             + Take(ListOf(st, SourceLists[3]), PerListLimit);
    FilterMapMembership(raw, ParseHistoryEntry, e);
    if Json(e) in raw {
      var i :| 0 <= i < |raw| && raw[i] == Json(e);
      assert ParseHistoryEntry(raw[i]) == Some(e);
    }
  }

  /** What the worker logs, the endpoint serves: right after `logHistory`
      completes, the entry it wrote parses back and is in the merged list. */
  lemma LoggedEntryIsServed(st: Store, t: Target, found: int, added: int, now: int)
    ensures HistoryEntry(t, found, added, now) in MergedHistory(LogHistory(st, t, found, added, now, NoFault))
  {
    var after := LogHistory(st, t, found, added, now, NoFault);
    var e := HistoryEntry(t, found, added, now);
    LogHistoryBounded(st, t, found, added, now);
    var part := Take(ListOf(after, TargetLog(t)), PerListLimit);
    assert part[0] == Json(e);
    var parts := seq(4, i requires 0 <= i < 4 => Take(ListOf(after, SourceLists[i]), PerListLimit));
    var k := match t case All => 0 case Dach => 1 case Uk => 2;
    assert parts[k] == part;
    MergedHistoryMembership(after, e);
    assert Json(e) in parts[0] + parts[1] + parts[2] + parts[3];
  }

  /** Most recent first. */
  predicate SortedByRecency(s: seq<HistoryEntry>) {
    forall i, j :: 0 <= i < j < |s| ==> s[i].timestamp >= s[j].timestamp
  }

  /** No entry of `s` is more recent than `t`. */
  predicate NoneAfter(s: seq<HistoryEntry>, t: int) {
    forall i :: 0 <= i < |s| ==> s[i].timestamp <= t
  }

  /** `e` placed before the first entry that is not more recent than it. */
  function Insert(e: HistoryEntry, s: seq<HistoryEntry>): (r: seq<HistoryEntry>)
    ensures |r| == |s| + 1
    ensures multiset(r) == multiset(s) + multiset{e}
  {
    if s == [] then [e]
    else if s[0].timestamp <= e.timestamp then [e] + s
    else
      assert s == [s[0]] + s[1..];
      [s[0]] + Insert(e, s[1..])
  }

  lemma {:induction false} InsertNoneAfter(e: HistoryEntry, s: seq<HistoryEntry>, t: int)
    requires NoneAfter(s, t) && e.timestamp <= t
    ensures NoneAfter(Insert(e, s), t)
  {
    if s != [] && s[0].timestamp > e.timestamp {
      var rest := Insert(e, s[1..]);
      assert NoneAfter(s[1..], t) by {
        forall i | 0 <= i < |s[1..]| ensures s[1..][i].timestamp <= t {
          assert s[1..][i] == s[i + 1];
        }
      }
      InsertNoneAfter(e, s[1..], t);
      var r := [s[0]] + rest;
      forall i | 0 <= i < |r| ensures r[i].timestamp <= t {
        if i > 0 { assert r[i] == rest[i - 1]; }
      }
    }
  }

  lemma ConsSorted(x: HistoryEntry, s: seq<HistoryEntry>)
    requires SortedByRecency(s) && NoneAfter(s, x.timestamp)
    ensures SortedByRecency([x] + s)
  {
    var r := [x] + s;
    forall i, j | 0 <= i < j < |r| ensures r[i].timestamp >= r[j].timestamp {
      assert r[j] == s[j - 1];
      if i > 0 { assert r[i] == s[i - 1]; }
    }
  }

  lemma {:induction false} InsertSorted(e: HistoryEntry, s: seq<HistoryEntry>)
    requires SortedByRecency(s)
    ensures SortedByRecency(Insert(e, s))
  {
    if s == [] {
    } else if s[0].timestamp <= e.timestamp {
      ConsSorted(e, s);
    } else {
      var tl := s[1..];
      assert SortedByRecency(tl) by {
        forall i, j | 0 <= i < j < |tl| ensures tl[i].timestamp >= tl[j].timestamp {
          assert tl[i] == s[i + 1] && tl[j] == s[j + 1];
        }
      }
      assert NoneAfter(tl, s[0].timestamp) by {
        forall i | 0 <= i < |tl| ensures tl[i].timestamp <= s[0].timestamp {
          assert tl[i] == s[i + 1];
        }
      }
      InsertSorted(e, tl);
      InsertNoneAfter(e, tl, s[0].timestamp);
      ConsSorted(s[0], Insert(e, tl));
    }
  }

  /** `sort((a, b) => b.timestamp - a.timestamp)`, most recent first, as an
      insertion sort. */
  function SortByRecency(s: seq<HistoryEntry>): (r: seq<HistoryEntry>)
    ensures SortedByRecency(r)
    ensures |r| == |s| && multiset(r) == multiset(s)
  {
    if s == [] then []
    else
      assert s == [s[0]] + s[1..];
      var rest := SortByRecency(s[1..]);
      InsertSorted(s[0], rest);
      Insert(s[0], rest)
  }

  /** The 50 most recent entries, most recent first. */
  function MostRecent(entries: seq<HistoryEntry>): (r: seq<HistoryEntry>)
    ensures |r| <= ResponseLimit
  {
    Take(SortByRecency(entries), ResponseLimit)
  }

  /** What `MostRecent` returns is sorted, drawn from the input, as long as
      the input up to the limit, and no entry it leaves out is more recent
      than one it returns. */
  lemma MostRecentIsTop(entries: seq<HistoryEntry>)
    ensures var r := MostRecent(entries);
      && SortedByRecency(r)
      && |r| == (if |entries| < ResponseLimit then |entries| else ResponseLimit)
      && multiset(r) <= multiset(entries)
      && forall x, y :: x in multiset(r) && y in multiset(entries) - multiset(r) ==> x.timestamp >= y.timestamp
  {
    var s := SortByRecency(entries);
    var r := MostRecent(entries);
    assert r == s[..|r|];
    SortedPrefixIsTop(s, |r|);
  }

  /** A prefix of a sorted list holds its most recent entries. */
  lemma SortedPrefixIsTop(s: seq<HistoryEntry>, n: nat)
    requires SortedByRecency(s) && n <= |s|
    ensures multiset(s[..n]) <= multiset(s)
    ensures forall x, y :: x in multiset(s[..n]) && y in multiset(s) - multiset(s[..n]) ==> x.timestamp >= y.timestamp
  {
    var r := s[..n];
    assert s == r + s[n..];
    assert multiset(s) == multiset(r) + multiset(s[n..]);
    forall x: HistoryEntry, y: HistoryEntry | x in multiset(r) && y in multiset(s) - multiset(r)
      ensures x.timestamp >= y.timestamp
    {
      assert y in multiset(s[n..]);
      var i :| 0 <= i < |r| && r[i] == x;
      var j :| 0 <= j < |s[n..]| && s[n..][j] == y;
      assert s[i] == x && s[n + j] == y;
    }
  }

  /** The endpoint's body: `success`, `history` and, on failure, `error`. */
  datatype HistoryResponse = HistoryResponse(success: bool, history: seq<HistoryEntry>, error: Option<string>)

  /** How the endpoint's store reads end: normally, with a thrown `Error`
      carrying a message, or with a thrown value that is not an `Error`. */
  datatype ReadOutcome = ReadOk | ReadError(message: string) | ReadThrewNonError

  /** `GET /api/history`: on a read failure an empty history with
      `success: false` and the error's message, or `UnknownError` for a
      thrown non-error; otherwise the 50 most recent merged entries. */
  function GetHistory(st: Store, read: ReadOutcome): (r: HistoryResponse)
    ensures r.success <==> read.ReadOk?
    ensures !r.success ==> r.history == []
    ensures read.ReadError? ==> r.error == Some(read.message)
    ensures read.ReadThrewNonError? ==> r.error == Some(UnknownError)
    ensures read.ReadOk? ==> r.error.None? && r.history == MostRecent(MergedHistory(st))
  {
    match read
    case ReadError(message) => HistoryResponse(false, [], Some(message))
    case ReadThrewNonError => HistoryResponse(false, [], Some(UnknownError))
    case ReadOk => HistoryResponse(true, MostRecent(MergedHistory(st)), None)
  }
}
