/** The viewer's release table: five filters, choices of which three are
    fixed lists and two come from the data, and the row helpers it shares
    with the release table. */
module ViewerReleaseTable {
  import opened Common
  import opened Seqs
  import opened Entities
  import opened Listing
  import ReleaseTable

  const StaticProducts: seq<string> := ["Monitoring", "SRE"]
  const StaticEnvironments: seq<string> := ["PROD", "DR", "DEV", "UAT"]
  const StaticStatuses: seq<string> := ["Scheduled", "In Progress", "Completed", "Blocked"]

  /** The choices of the five selects. */
  datatype FilterOptions = FilterOptions(
    products: seq<string>,
    environments: seq<string>,
    releaseVersions: seq<string>,
    accountRegions: seq<string>,
    statuses: seq<string>)

  /** `filterOptions`: fixed products, environments and statuses; the
      version names in their order; each account region once. */
  function GetFilterOptions(regions: seq<ReleaseVersion>, accounts: seq<Account>): (o: FilterOptions)
    ensures o.products == StaticProducts && o.environments == StaticEnvironments && o.statuses == StaticStatuses
    ensures |o.releaseVersions| == |regions| && forall k :: 0 <= k < |regions| ==> o.releaseVersions[k] == regions[k].name
    ensures o.accountRegions == ReleaseTable.UniqueRegions(accounts)
  {
    FilterOptions(
      StaticProducts,
      StaticEnvironments,
      seq(|regions|, k requires 0 <= k < |regions| => regions[k].name),
      ReleaseTable.UniqueRegions(accounts),
      StaticStatuses)
  }

  /** The fixed choices do not depend on the data. */
  lemma StaticOptionsFixed(regions: seq<ReleaseVersion>, accounts: seq<Account>,
                           regions': seq<ReleaseVersion>, accounts': seq<Account>)
    ensures var o := GetFilterOptions(regions, accounts);
            var o' := GetFilterOptions(regions', accounts');
            o.products == o'.products && o.environments == o'.environments && o.statuses == o'.statuses
  {
  }

  /** The region choices hold each non-empty account region exactly once. */
  lemma AccountRegionChoices(regions: seq<ReleaseVersion>, accounts: seq<Account>, k: int)
    requires 0 <= k < |accounts| && accounts[k].info.region != ""
    ensures accounts[k].info.region in GetFilterOptions(regions, accounts).accountRegions
    ensures Distinct(GetFilterOptions(regions, accounts).accountRegions)
    ensures "" !in GetFilterOptions(regions, accounts).accountRegions
  {
    assert Regions(accounts)[k] == accounts[k].info.region;
  }

  /** `getStatusClass` of this table, which gives Blocked the cancelled style. */
  function StatusClass(status: string): (c: string)
    ensures status == "Scheduled" ==> c == "status-scheduled"
    ensures status == "In Progress" ==> c == "status-in-progress"
    ensures status == "Done" ==> c == "status-done"
    ensures status == "Blocked" ==> c == "status-canceled"
    ensures status !in ["Scheduled", "In Progress", "Done", "Blocked"] ==> c == ""
  {
    match status
    case "Scheduled" => "status-scheduled"
    case "In Progress" => "status-in-progress"
    case "Done" => "status-done"
    case "Blocked" => "status-canceled"
    case _ => ""
  }

  /** The five filters. */
  datatype ViewerFilters = ViewerFilters(
    product: string, environment: string, release_version: string, account_region: string, status: string)

  const EmptyFilters := ViewerFilters("", "", "", "", "")

  datatype ViewerKey = ProductKey | EnvironmentKey | VersionKey | RegionKey | StatusKey

  function FilterValue(f: ViewerFilters, key: ViewerKey): string {
    match key
    case ProductKey => f.product
    case EnvironmentKey => f.environment
    case VersionKey => f.release_version
    case RegionKey => f.account_region
    case StatusKey => f.status
  }

  /** `handleFilterChange`: `{...filters, [name]: value}`, also handed to
      `onFilter`. */
  function HandleFilterChange(f: ViewerFilters, key: ViewerKey, value: string): (r: ViewerFilters)
    ensures FilterValue(r, key) == value
    ensures forall k :: k != key ==> FilterValue(r, k) == FilterValue(f, k)
  {
    match key
    case ProductKey => f.(product := value)
    case EnvironmentKey => f.(environment := value)
    case VersionKey => f.(release_version := value)
    case RegionKey => f.(account_region := value)
    case StatusKey => f.(status := value)
  }

  /** `clearFilters`: all five filters become "". */
  function ClearFilters(f: ViewerFilters): (r: ViewerFilters)
    ensures forall k :: FilterValue(r, k) == ""
  {
    EmptyFilters
  }

  /** Changing filters one at a time and then clearing ends where clearing
      alone does. */
  lemma ClearAfterChanges(f: ViewerFilters, key: ViewerKey, value: string)
    ensures ClearFilters(HandleFilterChange(f, key, value)) == ClearFilters(f) == EmptyFilters
  {
  }
}
