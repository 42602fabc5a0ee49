/** The static target catalog (`lib/config/targets.ts`). */
module Targets {
  import opened Domain

  const Germany := Country("Germany", "deutschland", 56, 115)
  const Austria := Country("Austria", "osterreich", 13, 40)
  const Switzerland := Country("Switzerland", "schweiz", 41, 103)
  const UnitedKingdom := Country("United Kingdom", "vereinigtes-konigreich", 222, 36)

  /** `TARGET_CONFIGS[t]`. */
  function Config(t: Target): (c: TargetConfig)
    ensures c.target == t
  {
    match t
    case All => TargetConfig(All, "All Customers", [], 4282, "All")
    case Dach => TargetConfig(Dach, "DACH (Germany, Austria, Switzerland)",
                              [Germany, Austria, Switzerland], 258, "DACH")
    case Uk => TargetConfig(Uk, "United Kingdom", [UnitedKingdom], 36, "UK")
  }

  /** No two countries of a list share an id. */
  predicate DistinctIds(cs: seq<Country>) {
    forall i, j :: 0 <= i < j < |cs| ==> cs[i].id != cs[j].id
  }

  function SumPages(cs: seq<Country>): int {
    if cs == [] then 0 else cs[0].pages + SumPages(cs[1..])
  }

  /** The invariants the rest of the harvester relies on: every country has at
      least one page and no more than its target's total, ids are distinct
      within a target, region targets have countries and the aggregate target
      has none, and the sheet tabs are distinct. */
  predicate WellFormedCatalog() {
    && (forall t: Target :: TargetWellFormed(t))
    && (forall t: Target, u: Target :: t != u ==> Config(t).sheetTab != Config(u).sheetTab)
  }

  lemma CatalogIsWellFormed()
    ensures WellFormedCatalog()
  {
    forall t: Target ensures TargetWellFormed(t) {
      TargetIsWellFormed(t);
    }
    SheetTabsDistinct();
  }

  lemma SheetTabsDistinct()
    ensures forall t: Target, u: Target :: t != u ==> Config(t).sheetTab != Config(u).sheetTab
  {
    forall t: Target, u: Target | t != u ensures Config(t).sheetTab != Config(u).sheetTab {
      assert Config(t).sheetTab[0] != Config(u).sheetTab[0];
    }
  }

  /** One target's part of the catalog invariant. */
  predicate TargetWellFormed(t: Target) {
    && DistinctIds(Config(t).countries)
    && (forall c :: c in Config(t).countries ==> 1 <= c.pages <= Config(t).totalPages)
    && (t == All <==> Config(t).countries == [])
    && Config(t).totalPages >= 1
  }

  lemma TargetIsWellFormed(t: Target)
    ensures TargetWellFormed(t)
  {
    match t
    case All =>
    case Dach =>
      var cs := Config(Dach).countries;
      assert cs == [Germany, Austria, Switzerland];
      forall c | c in cs ensures 1 <= c.pages <= 258 {
        assert c == Germany || c == Austria || c == Switzerland;
      }
    case Uk =>
      assert Config(Uk).countries == [UnitedKingdom];
  }

  /** The concrete figures of the catalog: `all` is 4282 pages with no
      country filter, the DACH countries' 115 + 40 + 103 pages make up its
      258, and the UK's single country covers all 36 of its pages. */
  lemma CatalogFigures()
    ensures Config(All).countries == [] && Config(All).totalPages == 4282
    ensures |Config(Dach).countries| == 3
    ensures SumPages(Config(Dach).countries) == Config(Dach).totalPages == 258
    ensures |Config(Uk).countries| == 1
    ensures Config(Uk).countries[0].pages == Config(Uk).totalPages == 36
  {
  }
}
