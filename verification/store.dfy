/** The Redis state the harvester reads and writes, as an explicit value:
    one fingerprint set per target (`seen:<target>`), the two per-target
    timestamps (`last_check:<target>`, `last_full_scan:<target>`) and the
    history lists. A missing key reads as the empty set or list. */
module KvStore {
  import opened Domain
  import opened Wrappers

  datatype Store = Store(
    seen: map<Target, set<string>>,
    lastCheck: map<Target, int>,
    lastFullScan: map<Target, int>,
    history: map<HistoryList, seq<StoredEntry>>)

  /** A store with no keys at all. */
  const Empty := Store(map[], map[], map[], map[])

  /** `SMEMBERS seen:<t>`. */
  function SeenOf(st: Store, t: Target): set<string> {
    if t in st.seen then st.seen[t] else {}
  }

  /** The store with `seen:<t>` replaced by `s`. */
  function WithSeen(st: Store, t: Target, s: set<string>): (r: Store)
    ensures SeenOf(r, t) == s
    ensures forall u :: u != t ==> SeenOf(r, u) == SeenOf(st, u)
    ensures r.lastCheck == st.lastCheck && r.lastFullScan == st.lastFullScan
    ensures r.history == st.history
  {
    st.(seen := st.seen[t := s])
  }

  /** `GET` of a timestamp key followed by `timestamp ? Number(timestamp) : null`:
      a missing key and a stored 0 both read as absent. */
  function ReadTimestamp(m: map<Target, int>, t: Target): (r: Option<int>)
    ensures r.Some? <==> t in m && m[t] != 0
    ensures r.Some? ==> r.value == m[t]
  {
    if t in m && m[t] != 0 then Some(m[t]) else None
  }

  /** `LRANGE <list> 0 -1`: the whole list, head first. */
  function ListOf(st: Store, l: HistoryList): seq<StoredEntry> {
    if l in st.history then st.history[l] else []
  }

  /** The first `n` elements of `xs`, or all of them when there are fewer:
      `LRANGE 0 n-1`, `LTRIM 0 n-1`, `slice(0, n)`. */
  function Take<T>(xs: seq<T>, n: nat): (r: seq<T>)
    ensures |r| == if |xs| < n then |xs| else n
    ensures r == xs[..|r|]
  {
    if |xs| <= n then xs else xs[..n]
  }

  /** `LPUSH l e`: `e` becomes the head of the list. */
  function LPush(st: Store, l: HistoryList, e: StoredEntry): (r: Store)
    ensures ListOf(r, l) == [e] + ListOf(st, l)
    ensures forall k :: k != l ==> ListOf(r, k) == ListOf(st, k)
    ensures r.seen == st.seen && r.lastCheck == st.lastCheck && r.lastFullScan == st.lastFullScan
  {
    st.(history := st.history[l := [e] + ListOf(st, l)])
  }

  /** `LTRIM l 0 (n-1)`: only the first `n` elements stay. */
  function LTrim(st: Store, l: HistoryList, n: nat): (r: Store)
    ensures ListOf(r, l) == Take(ListOf(st, l), n)
    ensures forall k :: k != l ==> ListOf(r, k) == ListOf(st, k)
    ensures r.seen == st.seen && r.lastCheck == st.lastCheck && r.lastFullScan == st.lastFullScan
  {
    st.(history := st.history[l := Take(ListOf(st, l), n)])
  }
}
