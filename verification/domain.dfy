/** The records the harvester passes between its parts (`types/target.ts`,
    `types/customer.ts`, `types/scraping.ts`) and the history entries the
    worker writes and the history endpoint reads. */
module Domain {
  import opened Wrappers

  /** `TrackingTarget`: a fixed enumeration, not user-extensible. */
  datatype Target = All | Dach | Uk

  /** The key suffix the source uses for a target (`"all"`, `"dach"`, `"uk"`). */
  function TargetName(t: Target): string {
    match t
    case All => "all"
    case Dach => "dach"
    case Uk => "uk"
  }

  /** `CountryFilter`: a country sub-scope of a region target. */
  datatype Country = Country(name: string, slug: string, id: int, pages: int)

  /** `TargetConfig`. */
  datatype TargetConfig = TargetConfig(
    target: Target,
    displayName: string,
    countries: seq<Country>,
    totalPages: int,
    sheetTab: string)

  /** `Customer`: one harvested directory record. */
  datatype Customer = Customer(
    name: string,
    industry: string,
    country: string,
    description: string,
    detailUrl: string,
    detectedDate: string)

  /** `ScrapingJob`, the queue payload: the country fields are present only
      for region targets, and a payload arriving at the worker may lack them. */
  datatype ScanJob = ScanJob(
    target: Target,
    country: Option<string>,
    countryId: Option<int>,
    page: int,
    timestamp: int)

  /** `ScrapingResult` as the worker reports it on success. */
  datatype ScrapingResult = ScrapingResult(
    success: bool,
    page: int,
    customersFound: nat,
    newCustomers: nat)

  /** One run-history record, as the worker serialises it. */
  datatype HistoryEntry = HistoryEntry(
    target: Target,
    customersFound: int,
    newCustomers: int,
    timestamp: int)

  /** An element of a Redis history list: either a JSON text that parses to
      an entry, or text that `JSON.parse` rejects. */
  datatype StoredEntry = Json(entry: HistoryEntry) | Malformed(text: string)

  /** The Redis history lists: `history:<target>` and `history:errors`. */
  datatype HistoryList = TargetLog(target: Target) | ErrorLog
}
