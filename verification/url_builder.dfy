/** Directory URLs and page plans (`lib/scraper/url-builder.ts`). */
module UrlBuilder {
  import opened Wrappers
  import opened Text
  import opened Seqs
  import opened Domain
  import opened Targets

  const BaseUrl := "https://www.odoo.com/de_DE/customers"

  /** Pages checked by an incremental scan: 5 for `all`, 10 per country for
      `dach`, 36 for `uk`. */
  function IncrementalPageCount(t: Target): nat {
    match t
    case All => 5
    case Dach => 10
    case Uk => 36
  }

  /** `prefix` for page 1, `prefix/page/<n>` for any other page. */
  function Paged(prefix: string, page: int): string {
    if page == 1 then prefix else prefix + "/page/" + IntToString(page)
  }

  /** `${BASE_URL}/country/${slug}-${id}`. */
  function CountryPath(c: Country): string {
    BaseUrl + "/country/" + c.slug + "-" + IntToString(c.id)
  }

  /** `buildUrl`: the aggregate target ignores any country; a region target
      needs one and raises an error without it. */
  function BuildUrl(t: Target, page: int, country: Option<Country>): (r: Result<string, string>)
    ensures r.Failure? <==> t != All && country.None?
    ensures r.Failure? ==> r.error == "Country filter required for target: " + TargetName(t)
    ensures r.Success? ==> StartsWith(r.value, BaseUrl)
    ensures r.Success? && page == 1 && t == All ==> r.value == BaseUrl
    ensures r.Success? && page == 1 && t != All ==> r.value == CountryPath(country.value)
    ensures r.Success? && page != 1 ==>
      r.value == (if t == All then BaseUrl else CountryPath(country.value)) + "/page/" + IntToString(page)
  {
    if t == All then Success(Paged(BaseUrl, page))
    else if country.None? then Failure("Country filter required for target: " + TargetName(t))
    else Success(Paged(CountryPath(country.value), page))
  }

  /** Distinct pages of one listing give distinct URLs. */
  lemma PagedInjective(prefix: string, p: int, q: int)
    requires Paged(prefix, p) == Paged(prefix, q)
    ensures p == q
  {
    var sp := prefix + "/page/";
    if p != 1 && q != 1 {
      assert Paged(prefix, p) == sp + IntToString(p);
      assert Paged(prefix, q) == sp + IntToString(q);
      assert IntToString(p) == (sp + IntToString(p))[|sp|..];
      assert IntToString(q) == (sp + IntToString(q))[|sp|..];
      IntToStringInjective(p, q);
    }
  }

  /** The URL determines the page, for every target and country. */
  lemma BuildUrlInjective(t: Target, p: int, q: int, country: Option<Country>)
    requires BuildUrl(t, p, country).Success?
    requires BuildUrl(t, p, country) == BuildUrl(t, q, country)
    ensures p == q
  {
    if t == All {
      PagedInjective(BaseUrl, p, q);
    } else {
      PagedInjective(CountryPath(country.value), p, q);
    }
  }

  /** The pages of `pages` a country with `limit` pages has, in the order
      given. */
  function Within(pages: seq<int>, limit: int): (r: seq<int>)
    ensures IsSubsequence(r, pages)
    ensures forall v :: v in r <==> v in pages && v <= limit
  {
    if pages == [] then []
    else
      var rest := Within(pages[1..], limit);
      assert forall v :: v in pages <==> v == pages[0] || v in pages[1..];
      if pages[0] <= limit then
        assert ([pages[0]] + rest)[1..] == rest;
        [pages[0]] + rest
      else
        SubsequenceDropHead(rest, pages);
        rest
  }

  /** One country's URLs: one per page of `pages` the country has, in the
      order of `pages`. */
  function CountryUrls(c: Country, pages: seq<int>): (r: seq<string>)
    ensures |r| == |Within(pages, c.pages)|
    ensures forall i :: 0 <= i < |r| ==> r[i] == Paged(CountryPath(c), Within(pages, c.pages)[i])
  {
    if pages == [] then []
    else (if pages[0] <= c.pages then [Paged(CountryPath(c), pages[0])] else [])
         + CountryUrls(c, pages[1..])
  }

  /** The number of (country, page) pairs with the page within the
      country's count. */
  function SumWithin(cs: seq<Country>, pages: seq<int>): nat {
    if cs == [] then 0 else |Within(pages, cs[0].pages)| + SumWithin(cs[1..], pages)
  }

  /** Every country's URLs, country by country. */
  function CountriesUrls(cs: seq<Country>, pages: seq<int>): (r: seq<string>)
    ensures |r| == SumWithin(cs, pages)
  {
    if cs == [] then [] else CountryUrls(cs[0], pages) + CountriesUrls(cs[1..], pages)
  }

  /** `getUrlsForTarget`: for `all` one URL per page in order; for a region
      target the URLs of its countries in catalog order, each country's in
      page order, one per page the country has. */
  function GetUrlsForTarget(t: Target, pages: seq<int>): (r: seq<string>)
    ensures t == All ==> |r| == |pages|
    ensures t == All ==> forall i :: 0 <= i < |pages| ==>
      BuildUrl(All, pages[i], None) == Success(r[i])
    ensures t != All ==> |r| == SumWithin(Config(t).countries, pages)
    ensures t == Dach ==>
      r == CountryUrls(Germany, pages) + CountryUrls(Austria, pages) + CountryUrls(Switzerland, pages)
    ensures t == Uk ==> r == CountryUrls(UnitedKingdom, pages)
  {
    if t == All then seq(|pages|, i requires 0 <= i < |pages| => Paged(BaseUrl, pages[i]))
    else
      RegionUrlsByCountry(pages);
      CountriesUrls(Config(t).countries, pages)
  }

  lemma RegionUrlsByCountry(pages: seq<int>)
    ensures CountriesUrls([Germany, Austria, Switzerland], pages)
         == CountryUrls(Germany, pages) + CountryUrls(Austria, pages) + CountryUrls(Switzerland, pages)
    ensures CountriesUrls([UnitedKingdom], pages) == CountryUrls(UnitedKingdom, pages)
  {
    var cs := [Germany, Austria, Switzerland];
    assert cs[1..] == [Austria, Switzerland];
    assert cs[1..][1..] == [Switzerland];
    assert [Switzerland][1..] == [];
    assert [UnitedKingdom][1..] == [];
    var g, a, w := CountryUrls(Germany, pages), CountryUrls(Austria, pages), CountryUrls(Switzerland, pages);
    assert CountriesUrls([Switzerland], pages) == w + [];
    assert CountriesUrls(cs[1..], pages) == a + w;
    assert CountriesUrls(cs, pages) == g + (a + w);
    assert g + (a + w) == g + a + w;
  }

  lemma {:induction false} CountryUrlsMembership(c: Country, pages: seq<int>, url: string)
    ensures url in CountryUrls(c, pages) <==>
      exists p :: p in pages && p <= c.pages && url == Paged(CountryPath(c), p)
  {
    if pages != [] {
      CountryUrlsMembership(c, pages[1..], url);
      assert forall p :: p in pages <==> p == pages[0] || p in pages[1..];
    }
  }

  lemma {:induction false} CountriesUrlsMembership(cs: seq<Country>, pages: seq<int>, url: string)
    ensures url in CountriesUrls(cs, pages) <==>
      exists c, p :: c in cs && p in pages && p <= c.pages && url == Paged(CountryPath(c), p)
  {
    if cs != [] {
      CountryUrlsMembership(cs[0], pages, url);
      CountriesUrlsMembership(cs[1..], pages, url);
      assert forall c :: c in cs <==> c == cs[0] || c in cs[1..];
    }
  }

  /** A region target's URLs are exactly the `buildUrl` results for a
      catalog country and a requested page that the country has. */
  lemma RegionUrlsMembership(t: Target, pages: seq<int>, url: string)
    requires t != All
    ensures url in GetUrlsForTarget(t, pages) <==>
      exists c, p :: c in Config(t).countries && p in pages && p <= c.pages
                     && BuildUrl(t, p, Some(c)) == Success(url)
  {
    var cs := Config(t).countries;
    assert GetUrlsForTarget(t, pages) == CountriesUrls(cs, pages);
    CountriesUrlsMembership(cs, pages, url);
    forall c: Country, p: int ensures BuildUrl(t, p, Some(c)) == Success(url) <==> url == Paged(CountryPath(c), p) {
      assert BuildUrl(t, p, Some(c)) == Success(Paged(CountryPath(c), p));
    }
  }

  function Min(a: int, b: int): int {
    if a <= b then a else b
  }

  /** The per-country page prefixes `1..min(n, c.pages)`, one after the
      other. */
  function CountryPrefixes(cs: seq<Country>, n: int): seq<int> {
    if cs == [] then [] else RangeFrom1(Min(n, cs[0].pages)) + CountryPrefixes(cs[1..], n)
  }

  /** The largest per-country prefix length, 0 without countries. */
  function MaxPrefix(cs: seq<Country>, n: int): (m: int)
    ensures m >= 0
  {
    if cs == [] then 0
    else
      var rest := MaxPrefix(cs[1..], n);
      if Min(n, cs[0].pages) > rest then Min(n, cs[0].pages) else rest
  }

  lemma {:induction false} MaxPrefixBound(cs: seq<Country>, n: int, bound: int)
    requires bound >= 0
    requires forall i :: 0 <= i < |cs| ==> cs[i].pages <= bound
    ensures MaxPrefix(cs, n) <= bound
  {
    if cs != [] {
      MaxPrefixBound(cs[1..], n, bound);
    }
  }

  lemma {:induction false} CountryPrefixesElements(cs: seq<Country>, n: int)
    ensures forall v :: v in CountryPrefixes(cs, n) <==> 1 <= v <= MaxPrefix(cs, n)
  {
    if cs != [] {
      RangeFrom1Properties(Min(n, cs[0].pages));
      CountryPrefixesElements(cs[1..], n);
    }
  }

  /** `getPagesToCheck`: every page for a full scan; otherwise the first
      pages, which for `dach` are the distinct page numbers of the per-country
      prefixes in ascending order. Always ascending, without repeats, and
      within the target's page count. */
  function GetPagesToCheck(t: Target, isFullScan: bool): (r: seq<int>)
    ensures StrictlyIncreasing(r)
    ensures forall p :: p in r ==> 1 <= p <= Config(t).totalPages
  {
    var config := Config(t);
    if isFullScan then
      RangeFrom1Properties(config.totalPages);
      RangeFrom1(config.totalPages)
    else
      var n := IncrementalPageCount(t);
      if t == Dach then
        CountryPrefixesElements(config.countries, n);
        MaxPrefixBound(config.countries, n, config.totalPages);
        SortDedup(CountryPrefixes(config.countries, n))
      else
        RangeFrom1Properties(Min(n, config.totalPages));
        RangeFrom1(Min(n, config.totalPages))
  }

  /** The sorted distinct pages of the per-country prefixes are `1..m` for the
      longest prefix `m`. */
  lemma DedupOfPrefixes(cs: seq<Country>, n: int)
    ensures SortDedup(CountryPrefixes(cs, n)) == RangeFrom1(MaxPrefix(cs, n))
  {
    CountryPrefixesElements(cs, n);
    RangeFrom1Properties(MaxPrefix(cs, n));
    StrictlyIncreasingUnique(SortDedup(CountryPrefixes(cs, n)), RangeFrom1(MaxPrefix(cs, n)));
  }

  /** A full scan plans `1..totalPages`; an incremental one plans
      `1..min(k, totalPages)` for `all` and `uk`, and for `dach` the pages up
      to the longest capped country prefix. */
  lemma PagesToCheckShape(t: Target, isFullScan: bool)
    ensures isFullScan ==> GetPagesToCheck(t, true) == RangeFrom1(Config(t).totalPages)
    ensures !isFullScan && t != Dach ==>
      GetPagesToCheck(t, false) == RangeFrom1(Min(IncrementalPageCount(t), Config(t).totalPages))
    ensures !isFullScan && t == Dach ==>
      GetPagesToCheck(t, false) == RangeFrom1(MaxPrefix(Config(Dach).countries, 10))
  {
    DedupOfPrefixes(Config(Dach).countries, 10);
  }

  /** With this catalog an incremental scan plans pages 1..5 for `all`,
      1..10 for `dach` and 1..36 for `uk`. */
  lemma IncrementalPlanFigures()
    ensures GetPagesToCheck(All, false) == RangeFrom1(5)
    ensures GetPagesToCheck(Dach, false) == RangeFrom1(10)
    ensures GetPagesToCheck(Uk, false) == RangeFrom1(36)
  {
    PagesToCheckShape(Dach, false);
    assert MaxPrefix(Config(Dach).countries, 10) == 10;
  }
}
