/** The records kept in the three JSON files (accounts.json,
    available_releases.json, releases.json) and shared by the client. */
module Entities {
  import opened Common
  import opened Seqs

  /** A feature of a release version as the server stores it. */
  datatype Feature = Feature(id: int, name: string, description: string)

  /** The common shape of the two name-keyed collections: an account and a
      release version (called a "region" in the routes) each carry an id, a
      name that is unique ignoring case, their own details and timestamps. */
  datatype Record<D> = Record(id: int, name: string, info: D, created_at: string, updated_at: Option<string>)

  /** The details of an account; `products` is absent on every record the
      server writes, and the client reads it as `products || []`. */
  datatype AccountInfo = AccountInfo(region: string, products: Option<seq<string>>)

  type Account = Record<AccountInfo>

  datatype VersionInfo = VersionInfo(description: string, features: Option<seq<Feature>>)

  type ReleaseVersion = Record<VersionInfo>

  /** A defect entered on the release form and stored inside its release. */
  datatype Defect = Defect(id: int, defect_id: string, description: string, severity: string, status: string)

  /** A release. `completion_date` and `time_taken_hours` distinguish a missing
      property (records written before completion tracking), null, and a value;
      `defects` is None when the property is missing or not an array. */
  datatype Release = Release(
    id: int,
    account_name: string,
    release_date: string,
    executor: string,
    status: string,
    notes: string,
    release_version: string,
    completion_date: JsonField,
    time_taken_hours: JsonField,
    defects_raised: string,
    defect_details: string,
    completion_notes: string,
    defects: Option<seq<Defect>>,
    created_at: string,
    updated_at: string)

  /** `release.defects || []`. */
  function DefectsOf(r: Release): seq<Defect> {
    if r.defects.Some? then r.defects.value else []
  }

  /** `accounts.findIndex((acc) => acc.name === name)`: the index of the first
      account with exactly that name, or -1. */
  function IndexOfName(accounts: seq<Account>, name: string): (k: int)
    ensures -1 <= k < |accounts|
    ensures k == -1 <==> forall j :: 0 <= j < |accounts| ==> accounts[j].name != name
    ensures k >= 0 ==> accounts[k].name == name && forall j :: 0 <= j < k ==> accounts[j].name != name
  {
    IndexWhere(accounts, (a: Account) => a.name == name)
  }

  /** `accounts.find((acc) => acc.name === name)`: the first account with
      exactly that name. */
  function FindAccountByName(accounts: seq<Account>, name: string): (r: Option<Account>)
    ensures r.None? <==> forall j :: 0 <= j < |accounts| ==> accounts[j].name != name
    ensures r.Some? ==> r == Some(accounts[IndexOfName(accounts, name)])
  {
    var k := IndexOfName(accounts, name);
    if k == -1 then None else Some(accounts[k])
  }
}
