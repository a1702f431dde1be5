/** The release table's own logic: its three filters, which it hands to
    the parent's `onFilter` on every change, the region lookup for each row,
    the region choices, and the status badge class. */
module ReleaseTable {
  import opened Common
  import opened Seqs
  import opened Entities
  import opened Listing
  import App

  /** `getStatusClass`. */
  function StatusClass(status: string): (c: string)
    ensures status == "Scheduled" ==> c == "status-scheduled"
    ensures status == "In Progress" ==> c == "status-in-progress"
    ensures status == "Done" ==> c == "status-done"
    ensures status == "Canceled" ==> c == "status-canceled"
    ensures status !in ["Scheduled", "In Progress", "Done", "Canceled"] ==> c == ""
  {
    match status
    case "Scheduled" => "status-scheduled"
    case "In Progress" => "status-in-progress"
    case "Done" => "status-done"
    case "Canceled" => "status-canceled"
    case _ => ""
  }

  /** Of the four statuses releases carry, Completed and Blocked get no
      badge class, and different classed statuses get different classes. */
  lemma StatusClassOfUsedStatuses(a: string, b: string)
    ensures StatusClass("Completed") == "" && StatusClass("Blocked") == ""
    ensures StatusClass(a) != "" && StatusClass(b) != "" && a != b ==> StatusClass(a) != StatusClass(b)
  {
  }

  /** `getAccountRegion`: the region of the first account with exactly that
      name, or "" when there is none. */
  function GetAccountRegion(accounts: seq<Account>, name: string): (region: string)
    ensures (forall k :: 0 <= k < |accounts| ==> accounts[k].name != name) ==> region == ""
    ensures IndexOfName(accounts, name) >= 0 ==> region == accounts[IndexOfName(accounts, name)].info.region
  {
    match FindAccountByName(accounts, name)
    case None => ""
    case Some(a) => a.info.region
  }

  /** With distinct names, a row shows the region of its account. */
  lemma AccountRegionOfNamedAccount(accounts: seq<Account>, k: int)
    requires App.DistinctNames(accounts)
    requires 0 <= k < |accounts|
    ensures GetAccountRegion(accounts, accounts[k].name) == accounts[k].info.region
  {
  }

  /** `[...new Set(accounts.map((acc) => acc.region))].filter(Boolean)`. */
  function UniqueRegions(accounts: seq<Account>): (r: seq<string>)
    ensures Distinct(r)
    ensures forall k :: 0 <= k < |r| ==> r[k] != ""
    ensures forall x :: x in r <==> x != "" && x in Regions(accounts)
  {
    var d := Dedupe(Regions(accounts));
    var r := Filter(IsSet, d);
    FilterPairwise(IsSet, d, (a: string, b: string) => a != b);
    r
  }

  /** The choices keep the order in which regions first occur. */
  lemma UniqueRegionsOrder(accounts: seq<Account>)
    ensures forall i, j :: 0 <= i < j < |UniqueRegions(accounts)| ==>
              FirstIndex(Regions(accounts), UniqueRegions(accounts)[i]) < FirstIndex(Regions(accounts), UniqueRegions(accounts)[j])
  {
    var xs := Regions(accounts);
    var d := Dedupe(xs);
    var rel := (a: string, b: string) => a in xs && b in xs && FirstIndex(xs, a) < FirstIndex(xs, b);
    DedupeOrder(xs);
    assert Pairwise(d, rel);
    FilterPairwise(IsSet, d, rel);
  }

  /** The filter names of the table's selects. */
  datatype TableKey = VersionKey | RegionKey | StatusKey

  function FilterValue(f: ReleaseQuery, key: TableKey): string {
    match key
    case VersionKey => f.release_version
    case RegionKey => f.account_region
    case StatusKey => f.status
  }

  /** `handleFilterChange`: `{...filters, [name]: value}`, which becomes the
      table's filters and is what `onFilter` receives. */
  function HandleFilterChange(f: ReleaseQuery, key: TableKey, value: string): (r: ReleaseQuery)
    ensures FilterValue(r, key) == value
    ensures forall k :: k != key ==> FilterValue(r, k) == FilterValue(f, k)
  {
    match key
    case VersionKey => f.(release_version := value)
    case RegionKey => f.(account_region := value)
    case StatusKey => f.(status := value)
  }

  const EmptyFilters := ReleaseQuery("", "", "")

  /** `clearFilters`: all three filters become "", whatever they were. */
  function ClearFilters(f: ReleaseQuery): (r: ReleaseQuery)
    ensures forall k :: FilterValue(r, k) == ""
  {
    EmptyFilters
  }

  /** Clearing the table's filters makes the app show every release again. */
  lemma ClearShowsAll(f: ReleaseQuery, releases: seq<Release>, accounts: seq<Account>)
    ensures App.HandleFilter(releases, accounts, ClearFilters(f)) == releases
  {
  }

  /** Setting a filter back to "" undoes setting it: the app then shows the
      same releases as before the change. */
  lemma ChangeThenUnset(f: ReleaseQuery, key: TableKey, value: string, releases: seq<Release>, accounts: seq<Account>)
    requires FilterValue(f, key) == ""
    ensures HandleFilterChange(HandleFilterChange(f, key, value), key, "") == f
    ensures App.HandleFilter(releases, accounts, HandleFilterChange(HandleFilterChange(f, key, value), key, ""))
            == App.HandleFilter(releases, accounts, f)
  {
  }
}
