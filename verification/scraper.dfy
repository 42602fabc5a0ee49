/** The page harvester (`lib/scraper/cheerio-scraper.ts`): which anchors of a
    directory page become customer records, how each record's fields are
    chosen and defaulted, how a page fetch turns into records or an error,
    and the retry loop around it. The HTML document is given as the list of
    anchors it contains, each already reduced to the texts the rules read. */
module Scraper {
  import opened Wrappers
  import opened Text
  import opened Seqs
  import opened Domain

  /** The path every customer detail link has in front of its final segment. */
  const CustomersPath := "/de_DE/customers/"
  const SiteOrigin := "https://www.odoo.com"
  const DefaultTimeoutMillis := 30000
  const UnknownField := "Unknown"
  const RetriesExhausted := "Scraping failed after retries"
  const UnknownScrapeError := "Unknown error during scraping"

  /** One anchor of the page, as the card rules see it: its `href`, the text
      of its first `h5`/`h4`/`h3` (if it has one), its own text, and the texts
      of the industry links, country links and paragraphs of its card, in
      document order. `Unreadable` is an anchor whose card the DOM library
      fails on; the page skips it. */
  datatype Anchor =
    | Card(href: Option<string>, heading: Option<string>, linkText: string,
           industryTexts: seq<string>, countryTexts: seq<string>, paragraphs: seq<string>)
    | Unreadable

  // ----- The detail-link pattern `/\/de_DE\/customers\/[^\/]+-\d+$/` -----

  /** The pattern matches with the customers path at `i` and the hyphen at
      `j`: a non-empty slash-free segment between them, and only digits, at
      least one, after the hyphen up to the end. */
  predicate DetailMatchAt(h: string, i: int, j: int) {
    var p := |CustomersPath|;
    && 0 <= i && i + p < j < |h| - 1
    && h[i..i + p] == CustomersPath
    && (forall m :: i + p <= m < j ==> h[m] != '/')
    && h[j] == '-'
    && (forall m :: j < m < |h| ==> IsDigit(h[m]))
  }

  /** `/\/de_DE\/customers\/[^\/]+-\d+$/.test(h)`, as the regular expression
      defines it: it matches at some position. */
  ghost predicate MatchesDetailPattern(h: string) {
    exists i, j :: DetailMatchAt(h, i, j)
  }

  /** Number of digits `s` ends with. */
  function TrailingDigits(s: string): (r: nat)
    ensures r <= |s|
    ensures forall m :: |s| - r <= m < |s| ==> IsDigit(s[m])
    ensures r < |s| ==> !IsDigit(s[|s| - r - 1])
  {
    if s != [] && IsDigit(s[|s| - 1]) then TrailingDigits(s[..|s| - 1]) + 1 else 0
  }

  /** Position of the last `c` in `s`. */
  function LastIndexOf(s: string, c: char): (r: Option<nat>)
    ensures r.Some? ==> r.value < |s| && s[r.value] == c
    ensures r.Some? ==> forall m :: r.value < m < |s| ==> s[m] != c
    ensures r.None? ==> forall m :: 0 <= m < |s| ==> s[m] != c
  {
    if s == [] then None
    else if s[|s| - 1] == c then Some(|s| - 1)
    else LastIndexOf(s[..|s| - 1], c)
  }

  /** The pattern decided in one pass: the string ends with `-` and digits,
      and its last slash closes an occurrence of the customers path that
      leaves a non-empty segment before the hyphen. */
  function IsDetailLink(h: string): bool {
    var d := TrailingDigits(h);
    var j := |h| - d - 1;
    var p := |CustomersPath|;
    match LastIndexOf(h, '/')
    case None => false
    case Some(k) =>
      d >= 1 && j >= 0 && h[j] == '-' && p - 1 <= k && k + 1 < j && h[k - (p - 1)..k + 1] == CustomersPath
  }

  lemma IsDetailLinkSound(h: string)
    requires IsDetailLink(h)
    ensures MatchesDetailPattern(h)
  {
    var j := |h| - TrailingDigits(h) - 1;
    var k := LastIndexOf(h, '/').value;
    assert DetailMatchAt(h, k - (|CustomersPath| - 1), j);
  }

  lemma IsDetailLinkComplete(h: string)
    requires MatchesDetailPattern(h)
    ensures IsDetailLink(h)
  {
    var p := |CustomersPath|;
    var i, j :| DetailMatchAt(h, i, j);
    DigitsAfterHyphen(h, j);
    LastSlashClosesPath(h, i, j);
    assert h[i..i + p] == CustomersPath;
  }

  /** The trailing digits run exactly from the hyphen to the end. */
  lemma DigitsAfterHyphen(h: string, j: int)
    requires 0 <= j < |h| && h[j] == '-'
    requires forall m :: j < m < |h| ==> IsDigit(h[m])
    ensures TrailingDigits(h) == |h| - j - 1
  {
    assert !IsDigit(h[j]);
  }

  /** The last slash is the one closing the customers path. */
  lemma LastSlashClosesPath(h: string, i: int, j: int)
    requires DetailMatchAt(h, i, j)
    ensures LastIndexOf(h, '/') == Some(i + |CustomersPath| - 1)
  {
    var p := |CustomersPath|;
    assert h[i + p - 1] == h[i..i + p][p - 1] == '/';
    forall m | i + p - 1 < m < |h| ensures h[m] != '/' {
      if j < m {
        assert IsDigit(h[m]);
      }
    }
  }

  /** The decision function and the regular expression agree on every href. */
  lemma IsDetailLinkIsPattern(h: string)
    ensures IsDetailLink(h) <==> MatchesDetailPattern(h)
  {
    if IsDetailLink(h) { IsDetailLinkSound(h); }
    if MatchesDetailPattern(h) { IsDetailLinkComplete(h); }
  }

  // ----- Field selection -----

  /** The first text whose trimmed form is longer than `n` characters,
      trimmed: the `each` loops that stop at the first qualifying element. */
  function FirstLongerThan(texts: seq<string>, n: nat): (r: Option<string>)
    ensures r.None? <==> forall i :: 0 <= i < |texts| ==> |Trim(texts[i])| <= n
    ensures r.Some? ==> |r.value| > n
    ensures r.Some? ==> exists i :: (0 <= i < |texts| && r.value == Trim(texts[i])
                                     && forall j :: 0 <= j < i ==> |Trim(texts[j])| <= n)
  {
    var p := (t: string) => |Trim(t)| > n;
    match FirstIndex(texts, p)
    case None => None
    case Some(i) => Some(Trim(texts[i]))
  }

  /** `x || fallback` for a string: the fallback when `x` is empty. */
  function OrElse(x: string, fallback: string): (r: string)
    ensures x != "" ==> r == x
    ensures x == "" ==> r == fallback
  {
    if x != "" then x else fallback
  }

  /** The name: the trimmed heading text, else the trimmed link text. */
  function CardName(heading: Option<string>, linkText: string): (r: string)
    ensures heading.Some? && Trim(heading.value) != "" ==> r == Trim(heading.value)
    ensures (heading.None? || Trim(heading.value) == "") ==> r == Trim(linkText)
  {
    OrElse(Trim(heading.GetOr("")), Trim(linkText))
  }

  /** The first non-blank text, trimmed, or `"Unknown"` when all are blank. */
  function BadgeText(texts: seq<string>): (r: string)
    ensures r != ""
    ensures (forall i :: 0 <= i < |texts| ==> Trim(texts[i]) == "") ==> r == UnknownField
    ensures (exists i :: 0 <= i < |texts| && Trim(texts[i]) != "") ==>
      exists i :: 0 <= i < |texts| && r == Trim(texts[i]) && (forall j :: 0 <= j < i ==> Trim(texts[j]) == "")
  {
    FirstLongerThan(texts, 0).GetOr(UnknownField)
  }

  /** The first paragraph with more than 20 characters once trimmed, or `""`. */
  function DescriptionText(paragraphs: seq<string>): (r: string)
    ensures r == "" <==> forall i :: 0 <= i < |paragraphs| ==> |Trim(paragraphs[i])| <= 20
    ensures r != "" ==> |r| > 20
    ensures r != "" ==> exists i :: (0 <= i < |paragraphs| && r == Trim(paragraphs[i])
                                     && forall j :: 0 <= j < i ==> |Trim(paragraphs[j])| <= 20)
  {
    FirstLongerThan(paragraphs, 20).GetOr("")
  }

  /** Relative links are resolved against the site's origin. */
  function AbsoluteUrl(href: string): (r: string)
    ensures StartsWith(r, "http")
    ensures StartsWith(href, "http") ==> r == href
    ensures !StartsWith(href, "http") ==> r == SiteOrigin + href
  {
    if StartsWith(href, "http") then href
    else
      var r := SiteOrigin + href;
      assert r[..4] == "http";
      r
  }

  /** One anchor's record, stamped `detected`, or nothing when the anchor is
      not a customer detail link, has no name of at least two characters, or
      cannot be read. */
  function ScrapeCard(a: Anchor, detected: string): (r: Option<Customer>)
    ensures r.Some? <==> a.Card? && a.href.Some? && IsDetailLink(a.href.value)
                         && |CardName(a.heading, a.linkText)| >= 2
    ensures r.Some? ==> r.value == Customer(
      CardName(a.heading, a.linkText),
      BadgeText(a.industryTexts),
      BadgeText(a.countryTexts),
      DescriptionText(a.paragraphs),
      AbsoluteUrl(a.href.value),
      detected)
  {
    match a
    case Unreadable => None
    case Card(href, heading, linkText, industryTexts, countryTexts, paragraphs) =>
      if href.None? || href.value == "" || !IsDetailLink(href.value) then None
      else
        var name := CardName(heading, linkText);
        if name == "" || |name| < 2 then None
        else Some(Customer(name, BadgeText(industryTexts), BadgeText(countryTexts),
                           DescriptionText(paragraphs), AbsoluteUrl(href.value), detected))
  }

  /** Every record a page yields has a name of at least two characters,
      non-empty industry and country, a description that is empty or longer
      than 20 characters, and an absolute link to a detail page. */
  lemma ScrapedRecordShape(a: Anchor, detected: string)
    requires ScrapeCard(a, detected).Some?
    ensures WellFormedRecord(ScrapeCard(a, detected).value)
    ensures MatchesDetailPattern(a.href.value)
  {
    IsDetailLinkIsPattern(a.href.value);
  }

  /** The shape of every record a page yields. */
  predicate WellFormedRecord(c: Customer) {
    && |c.name| >= 2 && c.industry != "" && c.country != ""
    && (c.description == "" || |c.description| > 20)
    && StartsWith(c.detailUrl, "http")
  }

  /** The records of a page, in anchor order. */
  function ScrapeCards(anchors: seq<Anchor>, detected: string): (r: seq<Customer>)
    ensures |r| <= |anchors|
  {
    FilterMap(anchors, (a: Anchor) => ScrapeCard(a, detected))
  }

  /** A page's records are the accepted anchors' records, one for one and in
      order: the page keeps a subsequence of its anchors, and a rejected or
      unreadable anchor drops only itself. */
  lemma ScrapeCardsKeepsAccepted(anchors: seq<Anchor>, detected: string)
    ensures var f := (a: Anchor) => ScrapeCard(a, detected);
      var kept := Keep(anchors, DefinedMask(anchors, f));
      && IsSubsequence(kept, anchors)
      && |ScrapeCards(anchors, detected)| == |kept|
      && forall i :: 0 <= i < |kept| ==> ScrapeCard(kept[i], detected) == Some(ScrapeCards(anchors, detected)[i])
  {
    var f := (a: Anchor) => ScrapeCard(a, detected);
    FilterMapIsKeep(anchors, f);
    KeepIsSubsequence(anchors, DefinedMask(anchors, f));
  }

  /** A customer is on the page iff some anchor yields it. */
  lemma ScrapeCardsMembership(anchors: seq<Anchor>, detected: string, c: Customer)
    ensures c in ScrapeCards(anchors, detected) <==>
      exists i :: 0 <= i < |anchors| && ScrapeCard(anchors[i], detected) == Some(c)
  {
    FilterMapMembership(anchors, (a: Anchor) => ScrapeCard(a, detected), c);
  }

  /** Every record of a page has the record shape. */
  lemma ScrapeCardsShape(anchors: seq<Anchor>, detected: string)
    ensures forall c :: c in ScrapeCards(anchors, detected) ==> WellFormedRecord(c)
  {
    forall c | c in ScrapeCards(anchors, detected) ensures WellFormedRecord(c) {
      ScrapeCardsMembership(anchors, detected, c);
      var i :| 0 <= i < |anchors| && ScrapeCard(anchors[i], detected) == Some(c);
      ScrapedRecordShape(anchors[i], detected);
    }
  }

  /** Splitting the page splits its records. */
  lemma ScrapeCardsAppend(a: seq<Anchor>, b: seq<Anchor>, detected: string)
    ensures ScrapeCards(a + b, detected) == ScrapeCards(a, detected) + ScrapeCards(b, detected)
  {
    FilterMapAppend(a, b, (x: Anchor) => ScrapeCard(x, detected));
  }

  // ----- Fetching one page -----

  /** What fetching a page produces: a response (with its status, status text
      and, when parsed, its anchors), an abort by the timeout, or another
      thrown value, which is an `Error` with a message or something else. */
  datatype Fetch =
    | Response(status: int, statusText: string, anchors: seq<Anchor>)
    | TimedOut
    | Threw(message: string)
    | ThrewNonError

  /** `response.ok`. */
  predicate Ok(status: int) { 200 <= status <= 299 }

  /** `scrapePage`: the page's records, or the message of the error it
      throws. A page yields records exactly when the response is 2xx; then
      they are at most one per anchor, each comes from an anchor, and each has
      the record shape. The error names the status, or the timeout, or
      passes the thrown message on. */
  function ScrapePage(f: Fetch, timeout: int, detected: string): (r: Result<seq<Customer>, string>)
    ensures r.Success? <==> f.Response? && Ok(f.status)
    ensures r.Success? ==> r.value == ScrapeCards(f.anchors, detected)
    ensures r.Success? ==> |r.value| <= |f.anchors|
    ensures r.Success? ==> forall c :: c in r.value ==> WellFormedRecord(c)
    ensures r.Success? ==> forall c :: c in r.value ==>
      exists i :: 0 <= i < |f.anchors| && ScrapeCard(f.anchors[i], detected) == Some(c)
    ensures f.Response? && !Ok(f.status) ==>
      r.error == "HTTP " + IntToString(f.status) + ": " + f.statusText
    ensures f.TimedOut? ==> r.error == "Request timeout after " + IntToString(timeout) + "ms"
    ensures f.Threw? ==> r.error == f.message
    ensures f.ThrewNonError? ==> r.error == UnknownScrapeError
  {
    match f
    case Response(status, statusText, anchors) =>
      if Ok(status) then
        ScrapeCardsShape(anchors, detected);
        assert forall c :: c in ScrapeCards(anchors, detected) ==>
          exists i :: 0 <= i < |anchors| && ScrapeCard(anchors[i], detected) == Some(c) by {
          forall c | c in ScrapeCards(anchors, detected)
            ensures exists i :: 0 <= i < |anchors| && ScrapeCard(anchors[i], detected) == Some(c) {
            ScrapeCardsMembership(anchors, detected, c);
          }
        }
        Success(ScrapeCards(anchors, detected))
      else Failure("HTTP " + IntToString(status) + ": " + statusText)
    case TimedOut => Failure("Request timeout after " + IntToString(timeout) + "ms")
    case Threw(message) => Failure(message)
    case ThrewNonError => Failure(UnknownScrapeError)
  }

  // ----- Retrying -----

  function Pow2(n: nat): (r: nat)
    ensures r >= 1
  {
    if n == 0 then 1 else 2 * Pow2(n - 1)
  }

  /** The outcome of the retry loop: the result, how many attempts ran, and
      the back-off waits (in milliseconds) taken between them. */
  datatype RetryRun = RetryRun(result: Result<seq<Customer>, string>, attempts: nat, waits: seq<nat>)

  /** `scrapePageWithRetry`: attempt `k` (from 1) has outcome `attempt(k)`.
      The first success is returned; after a failed attempt `k` with
      `k < maxRetries` the loop waits `2^k * 1000` ms; when every attempt
      fails the last error is raised, and with no attempt at all a generic
      one. */
  method ScrapeWithRetry(attempt: nat -> Result<seq<Customer>, string>, maxRetries: int) returns (r: RetryRun)
    ensures r.attempts <= if maxRetries < 0 then 0 else maxRetries
    ensures forall k :: 1 <= k < r.attempts ==> attempt(k).Failure?
    ensures r.result.Success? ==> r.attempts >= 1 && r.result == attempt(r.attempts)
    ensures r.result.Failure? && maxRetries >= 1 ==>
      r.attempts == maxRetries && attempt(maxRetries).Failure? && r.result.error == attempt(maxRetries).error
    ensures maxRetries <= 0 ==> r == RetryRun(Failure(RetriesExhausted), 0, [])
    ensures |r.waits| == if r.attempts == 0 then 0 else r.attempts - 1
    ensures forall i :: 0 <= i < |r.waits| ==> r.waits[i] == Pow2(i + 1) * 1000
  {
    var lastError: Option<string> := None;
    var waits: seq<nat> := [];
    var k := 1;
    while k <= maxRetries
      invariant 1 <= k <= if maxRetries < 1 then 1 else maxRetries + 1
      invariant forall j :: 1 <= j < k ==> attempt(j).Failure?
      invariant k == 1 <==> lastError.None?
      invariant k > 1 ==> lastError == Some(attempt(k - 1).error)
      invariant |waits| == if k == 1 then 0 else k - 2 + (if k - 1 < maxRetries then 1 else 0)
      invariant forall i :: 0 <= i < |waits| ==> waits[i] == Pow2(i + 1) * 1000
      decreases maxRetries - k
    {
      var outcome := attempt(k);
      if outcome.Success? {
        return RetryRun(outcome, k, waits);
      }
      lastError := Some(outcome.error);
      if k < maxRetries {
        waits := waits + [Pow2(k) * 1000];
      }
      k := k + 1;
    }
    match lastError
    case Some(e) => r := RetryRun(Failure(e), k - 1, waits);
    case None => r := RetryRun(Failure(RetriesExhausted), 0, waits);
  }
}
