/** The server's three collections (accounts.json, available_releases.json
    and releases.json) held in memory, and the create, update and delete
    handlers of /api/accounts, /api/regions and /api/releases. Each handler
    reads the whole collection, checks it, then appends, replaces by index or
    filters, and writes the collection back. */
module Server {
  import opened Common
  import opened Text
  import opened Seqs
  import opened Entities
  import opened Repository

  /** The JSON reply of a handler: a body, or an error status and message. */
  datatype Reply<T> = Ok(body: T) | Fail(status: int, error: string)

  /** A feature as the client sends it; `id` 0 stands for a falsy id. The
      client also sends `type` and `priority`, which the server drops. */
  datatype FeatureInput = FeatureInput(id: int, name: string, description: string, feature_type: string, priority: string)

  /** The body of a release create or update; "" stands for a missing or
      empty field, `defects` is None when it is missing. */
  datatype ReleaseInput = ReleaseInput(
    account_name: string,
    release_date: string,
    executor: string,
    status: string,
    notes: string,
    release_version: string,
    completion_date: string,
    time_taken_hours: string,
    defects_raised: string,
    defect_details: string,
    completion_notes: string,
    defects: Option<seq<Defect>>)

  /** `features.map((feature, index) => ({id: feature.id || now + index, name, description}))`. */
  function ProcessFeatures(features: seq<FeatureInput>, nowMs: int): (r: seq<Feature>)
    ensures |r| == |features|
    ensures forall i :: 0 <= i < |r| ==>
              r[i].name == features[i].name && r[i].description == features[i].description
              && (features[i].id != 0 ==> r[i].id == features[i].id)
              && (features[i].id == 0 ==> r[i].id == nowMs + i)
  {
    seq(|features|, i requires 0 <= i < |features| =>
      Feature(if features[i].id != 0 then features[i].id else nowMs + i, features[i].name, features[i].description))
  }

  function ReleaseIds(releases: seq<Release>): (ids: seq<int>)
    ensures |ids| == |releases| && forall k :: 0 <= k < |releases| ==> ids[k] == releases[k].id
  {
    seq(|releases|, k requires 0 <= k < |releases| => releases[k].id)
  }

  /** `releases.findIndex((r) => r.id === id)`. */
  function IndexOfRelease(releases: seq<Release>, id: int): (k: int)
    ensures -1 <= k < |releases|
    ensures k == -1 <==> forall j :: 0 <= j < |releases| ==> releases[j].id != id
    ensures k >= 0 ==> releases[k].id == id && forall j :: 0 <= j < k ==> releases[j].id != id
  {
    IndexWhere(releases, (r: Release) => r.id == id)
  }

  predicate DistinctReleaseIds(releases: seq<Release>) {
    forall i, j :: 0 <= i < j < |releases| ==> releases[i].id != releases[j].id
  }

  /** The names releases refer to accounts by. */
  function AccountRefs(releases: seq<Release>): (refs: seq<string>)
    ensures |refs| == |releases| && forall k :: 0 <= k < |releases| ==> refs[k] == releases[k].account_name
  {
    seq(|releases|, k requires 0 <= k < |releases| => releases[k].account_name)
  }

  /** The names releases refer to release versions by. */
  function VersionRefs(releases: seq<Release>): (refs: seq<string>)
    ensures |refs| == |releases| && forall k :: 0 <= k < |releases| ==> refs[k] == releases[k].release_version
  {
    seq(|releases|, k requires 0 <= k < |releases| => releases[k].release_version)
  }

  /** The fields a create and an update both take from the body, with their
      defaults; `status` is passed in because only the create defaults it. */
  function WithInput(r: Release, input: ReleaseInput, status: string, updatedAt: string): (u: Release)
    ensures u.id == r.id && u.created_at == r.created_at && u.status == status && u.updated_at == updatedAt
    ensures u.account_name == input.account_name && u.release_date == input.release_date && u.executor == input.executor
    ensures u.notes == input.notes && u.release_version == input.release_version
    ensures u.completion_date.Truthy() <==> input.completion_date != ""
    ensures u.completion_date.Truthy() ==> u.completion_date.text == input.completion_date
    ensures !u.completion_date.Truthy() ==> u.completion_date == Null
    ensures u.time_taken_hours.Truthy() <==> input.time_taken_hours != ""
    ensures u.time_taken_hours.Truthy() ==> u.time_taken_hours.text == input.time_taken_hours
    ensures !u.time_taken_hours.Truthy() ==> u.time_taken_hours == Null
    ensures input.defects_raised != "" ==> u.defects_raised == input.defects_raised
    ensures input.defects_raised == "" ==> u.defects_raised == "0"
    ensures u.defect_details == input.defect_details && u.completion_notes == input.completion_notes
    ensures u.defects.Some? && (input.defects.Some? ==> u.defects == input.defects)
    ensures input.defects.None? ==> u.defects == Some([])
  {
    r.(account_name := input.account_name,
       release_date := input.release_date,
       executor := input.executor,
       status := status,
       notes := input.notes,
       release_version := input.release_version,
       completion_date := OrNull(input.completion_date),
       time_taken_hours := OrNull(input.time_taken_hours),
       defects_raised := Or(input.defects_raised, "0"),
       defect_details := input.defect_details,
       completion_notes := input.completion_notes,
       defects := Some(if input.defects.Some? then input.defects.value else []),
       updated_at := updatedAt)
  }

  /** The release `POST /api/releases` appends. */
  function NewRelease(releases: seq<Release>, input: ReleaseInput, now: string): (r: Release)
    ensures r.id == NextId(ReleaseIds(releases)) && r.id !in ReleaseIds(releases)
    ensures input.status != "" ==> r.status == input.status
    ensures input.status == "" ==> r.status == "Scheduled"
    ensures r.created_at == now && r.updated_at == now
  {
    var blank := Release(NextId(ReleaseIds(releases)), "", "", "", "", "", "", Missing, Missing, "", "", "", None, now, "");
    WithInput(blank, input, Or(input.status, "Scheduled"), now)
  }

  /** The release `PUT /api/releases/:id` stores over `stored`: `status` is taken
      as sent, without a default. */
  function UpdatedRelease(stored: Release, input: ReleaseInput, now: string): (r: Release)
    ensures r.id == stored.id && r.created_at == stored.created_at
    ensures r.status == input.status && r.updated_at == now
  {
    WithInput(stored, input, input.status, now)
  }

  lemma AppendReleaseKeepsIds(releases: seq<Release>, input: ReleaseInput, now: string)
    requires DistinctReleaseIds(releases)
    ensures DistinctReleaseIds(releases + [NewRelease(releases, input, now)])
  {
    var t := releases + [NewRelease(releases, input, now)];
    forall i, j | 0 <= i < j < |t| ensures t[i].id != t[j].id {
      if j == |releases| {
        assert ReleaseIds(releases)[i] == t[i].id;
      }
    }
  }

  lemma RemoveReleaseKeepsIds(releases: seq<Release>, id: int)
    requires DistinctReleaseIds(releases)
    ensures DistinctReleaseIds(Filter((r: Release) => r.id != id, releases))
  {
    var rel := (a: Release, b: Release) => a.id != b.id;
    assert Pairwise(releases, rel);
    FilterPairwise((r: Release) => r.id != id, releases, rel);
  }

  class Store {
    var accounts: seq<Account>
    var versions: seq<ReleaseVersion>
    var releases: seq<Release>

    ghost predicate Valid()
      reads this
    {
      Repository.Valid(accounts) && Repository.Valid(versions) && DistinctReleaseIds(releases)
    }

    constructor(accounts0: seq<Account>, versions0: seq<ReleaseVersion>, releases0: seq<Release>)
      ensures accounts == accounts0 && versions == versions0 && releases == releases0
    {
      accounts := accounts0;
      versions := versions0;
      releases := releases0;
    }

    /** `POST /api/regions`. */
    method PostVersion(name: string, description: string, features: seq<FeatureInput>, now: string, nowMs: int)
      returns (reply: Reply<ReleaseVersion>)
      modifies this
      ensures accounts == old(accounts) && releases == old(releases)
      ensures NameTaken(old(versions), name) ==>
                reply == Fail(400, "Release version already exists") && versions == old(versions)
      ensures !NameTaken(old(versions), name) ==>
                reply == Ok(NewRecord(old(versions), name, VersionInfo(description, Some(ProcessFeatures(features, nowMs))), now))
                && versions == old(versions) + [reply.body]
      ensures old(Valid()) ==> Valid()
    {
      if NameTaken(versions, name) {
        return Fail(400, "Release version already exists");
      }
      var info := VersionInfo(description, Some(ProcessFeatures(features, nowMs)));
      var record := NewRecord(versions, name, info, now);
      if Valid() {
        CreatePreservesValid(versions, name, info, now);
      }
      versions := versions + [record];
      reply := Ok(record);
    }

    /** `PUT /api/regions/:id`. */
    method PutVersion(id: int, name: string, description: string, features: seq<FeatureInput>, now: string, nowMs: int)
      returns (reply: Reply<string>)
      modifies this
      ensures accounts == old(accounts) && releases == old(releases)
      ensures IndexOfId(old(versions), id) == -1 ==>
                reply == Fail(404, "Release version not found") && versions == old(versions)
      ensures IndexOfId(old(versions), id) >= 0 && NameTakenByOther(old(versions), name, id) ==>
                reply == Fail(400, "Release version name already exists") && versions == old(versions)
      ensures IndexOfId(old(versions), id) >= 0 && !NameTakenByOther(old(versions), name, id) ==>
                reply == Ok("Release version updated successfully")
                && versions == Replace(old(versions), IndexOfId(old(versions), id), name,
                                       VersionInfo(description, Some(ProcessFeatures(features, nowMs))), now)
      ensures old(Valid()) ==> Valid()
    {
      var k := IndexOfId(versions, id);
      if k == -1 {
        return Fail(404, "Release version not found");
      }
      if NameTakenByOther(versions, name, id) {
        return Fail(400, "Release version name already exists");
      }
      var info := VersionInfo(description, Some(ProcessFeatures(features, nowMs)));
      if Valid() {
        UpdatePreservesValid(versions, id, name, info, now);
      }
      versions := Replace(versions, k, name, info, now);
      reply := Ok("Release version updated successfully");
    }

    /** `DELETE /api/regions/:id`. */
    method DeleteVersion(id: int) returns (reply: Reply<string>)
      modifies this
      ensures accounts == old(accounts) && releases == old(releases)
      ensures Referenced(old(versions), id, VersionRefs(old(releases))) ==>
                reply == Fail(400, "Cannot delete release version that is being used in releases")
                && versions == old(versions)
      ensures !Referenced(old(versions), id, VersionRefs(old(releases))) ==>
                reply == Ok("Release version deleted successfully") && versions == RemoveId(old(versions), id)
      ensures old(Valid()) ==> Valid()
    {
      if Referenced(versions, id, VersionRefs(releases)) {
        return Fail(400, "Cannot delete release version that is being used in releases");
      }
      if Valid() {
        DeletePreservesValid(versions, id);
      }
      versions := RemoveId(versions, id);
      reply := Ok("Release version deleted successfully");
    }

    /** `POST /api/accounts`; the products the client sends are not stored. */
    method PostAccount(name: string, region: string, now: string) returns (reply: Reply<Account>)
      modifies this
      ensures versions == old(versions) && releases == old(releases)
      ensures NameTaken(old(accounts), name) ==>
                reply == Fail(400, "Account already exists") && accounts == old(accounts)
      ensures !NameTaken(old(accounts), name) ==>
                reply == Ok(NewRecord(old(accounts), name, AccountInfo(region, None), now))
                && accounts == old(accounts) + [reply.body]
      ensures old(Valid()) ==> Valid()
    {
      if NameTaken(accounts, name) {
        return Fail(400, "Account already exists");
      }
      var record := NewRecord(accounts, name, AccountInfo(region, None), now);
      if Valid() {
        CreatePreservesValid(accounts, name, AccountInfo(region, None), now);
      }
      accounts := accounts + [record];
      reply := Ok(record);
    }

    /** `PUT /api/accounts/:id`; properties other than the name and region
        are carried over from the stored record. */
    method PutAccount(id: int, name: string, region: string, now: string) returns (reply: Reply<string>)
      modifies this
      ensures versions == old(versions) && releases == old(releases)
      ensures IndexOfId(old(accounts), id) == -1 ==>
                reply == Fail(404, "Account not found") && accounts == old(accounts)
      ensures IndexOfId(old(accounts), id) >= 0 && NameTakenByOther(old(accounts), name, id) ==>
                reply == Fail(400, "Account name already exists") && accounts == old(accounts)
      ensures IndexOfId(old(accounts), id) >= 0 && !NameTakenByOther(old(accounts), name, id) ==>
                var k := IndexOfId(old(accounts), id);
                reply == Ok("Account updated successfully")
                && accounts == Replace(old(accounts), k, name, old(accounts)[k].info.(region := region), now)
      ensures old(Valid()) ==> Valid()
    {
      var k := IndexOfId(accounts, id);
      if k == -1 {
        return Fail(404, "Account not found");
      }
      if NameTakenByOther(accounts, name, id) {
        return Fail(400, "Account name already exists");
      }
      var info := accounts[k].info.(region := region);
      if Valid() {
        UpdatePreservesValid(accounts, id, name, info, now);
      }
      accounts := Replace(accounts, k, name, info, now);
      reply := Ok("Account updated successfully");
    }

    /** `DELETE /api/accounts/:id`. */
    method DeleteAccount(id: int) returns (reply: Reply<string>)
      modifies this
      ensures versions == old(versions) && releases == old(releases)
      ensures Referenced(old(accounts), id, AccountRefs(old(releases))) ==>
                reply == Fail(400, "Cannot delete account that is being used in releases")
                && accounts == old(accounts)
      ensures !Referenced(old(accounts), id, AccountRefs(old(releases))) ==>
                reply == Ok("Account deleted successfully") && accounts == RemoveId(old(accounts), id)
      ensures old(Valid()) ==> Valid()
    {
      if Referenced(accounts, id, AccountRefs(releases)) {
        return Fail(400, "Cannot delete account that is being used in releases");
      }
      if Valid() {
        DeletePreservesValid(accounts, id);
      }
      accounts := RemoveId(accounts, id);
      reply := Ok("Account deleted successfully");
    }

    /** `POST /api/releases`: no field is checked; the release is appended
        with the next id and its defaults. */
    method PostRelease(input: ReleaseInput, now: string) returns (reply: Reply<Release>)
      modifies this
      ensures accounts == old(accounts) && versions == old(versions)
      ensures reply == Ok(NewRelease(old(releases), input, now))
      ensures releases == old(releases) + [reply.body]
      ensures old(Valid()) ==> Valid()
    {
      var release := NewRelease(releases, input, now);
      if Valid() {
        AppendReleaseKeepsIds(releases, input, now);
      }
      releases := releases + [release];
      reply := Ok(release);
    }

    /** `PUT /api/releases/:id`; the reply carries the stored release. */
    method PutRelease(id: int, input: ReleaseInput, now: string) returns (reply: Reply<Release>)
      modifies this
      ensures accounts == old(accounts) && versions == old(versions)
      ensures IndexOfRelease(old(releases), id) == -1 ==>
                reply == Fail(404, "Release not found") && releases == old(releases)
      ensures IndexOfRelease(old(releases), id) >= 0 ==>
                var k := IndexOfRelease(old(releases), id);
                releases == old(releases)[k := UpdatedRelease(old(releases)[k], input, now)]
                && reply == Ok(releases[k])
      ensures old(Valid()) ==> Valid()
    {
      var k := IndexOfRelease(releases, id);
      if k == -1 {
        return Fail(404, "Release not found");
      }
      releases := releases[k := UpdatedRelease(releases[k], input, now)];
      reply := Ok(releases[k]);
    }

    /** `DELETE /api/releases/:id`: unconditional. */
    method DeleteRelease(id: int) returns (reply: Reply<string>)
      modifies this
      ensures accounts == old(accounts) && versions == old(versions)
      ensures reply == Ok("Release deleted successfully")
      ensures releases == Filter((r: Release) => r.id != id, old(releases))
      ensures old(Valid()) ==> Valid()
    {
      if Valid() {
        RemoveReleaseKeepsIds(releases, id);
      }
      releases := Filter((r: Release) => r.id != id, releases);
      reply := Ok("Release deleted successfully");
    }
  }
}
