/** The one-shot backfill the server runs at start-up: releases written
    before completion tracking lack `completion_date` and get the new fields
    with their defaults; the file is written back only if one did. */
module Migration {
  import opened Common
  import opened Entities
  import opened Server

  /** A release written before completion tracking. */
  predicate NeedsMigration(r: Release) {
    r.completion_date == Missing
  }

  /** The record the backfill maps one release to. */
  function MigrateRecord(r: Release): (m: Release)
    ensures !NeedsMigration(r) ==> m == r
    ensures NeedsMigration(r) ==>
              m.completion_date == Null && m.time_taken_hours == Null && m.defects_raised == "0"
              && m.completion_notes == "" && m.defects == Some([])
    ensures m.defect_details == r.defect_details
    ensures m.id == r.id && m.account_name == r.account_name && m.release_date == r.release_date
            && m.executor == r.executor && m.status == r.status && m.notes == r.notes
            && m.release_version == r.release_version
            && m.created_at == r.created_at && m.updated_at == r.updated_at
    ensures !NeedsMigration(m)
  {
    if NeedsMigration(r) then
      r.(completion_date := Null,
         time_taken_hours := Null,
         defects_raised := "0",
         defect_details := Or(r.defect_details, ""),
         completion_notes := "",
         defects := Some([]))
    else r
  }

  /** The whole backfill over `releases`, with the flag telling whether any
      record changed and the file must be written. */
  method MigrateReleases(releases: seq<Release>) returns (updated: seq<Release>, needsUpdate: bool)
    ensures |updated| == |releases|
    ensures forall i :: 0 <= i < |releases| ==> updated[i] == MigrateRecord(releases[i])
    ensures needsUpdate <==> exists i :: 0 <= i < |releases| && NeedsMigration(releases[i])
    ensures !needsUpdate ==> updated == releases
  {
    updated := [];
    needsUpdate := false;
    var i := 0;
    while i < |releases|
      invariant 0 <= i <= |releases|
      invariant |updated| == i
      invariant forall k :: 0 <= k < i ==> updated[k] == MigrateRecord(releases[k])
      invariant needsUpdate <==> exists k :: 0 <= k < i && NeedsMigration(releases[k])
      invariant !needsUpdate ==> updated == releases[..i]
    {
      var release := releases[i];
      if NeedsMigration(release) {
        needsUpdate := true;
      }
      updated := updated + [MigrateRecord(release)];
      i := i + 1;
    }
  }

  /** The record-wise backfill as a value, for stating what a second run does. */
  function MigrateAll(releases: seq<Release>): (r: seq<Release>)
    ensures |r| == |releases| && forall i :: 0 <= i < |releases| ==> r[i] == MigrateRecord(releases[i])
  {
    seq(|releases|, i requires 0 <= i < |releases| => MigrateRecord(releases[i]))
  }

  /** A second run finds nothing to migrate: it leaves every record as it is
      and does not write. */
  lemma MigrateIdempotent(releases: seq<Release>)
    ensures MigrateAll(MigrateAll(releases)) == MigrateAll(releases)
    ensures forall i :: 0 <= i < |releases| ==> !NeedsMigration(MigrateAll(releases)[i])
  {
  }

  /** The backfill never changes a release's id, so distinct ids stay distinct. */
  lemma MigrateKeepsIds(releases: seq<Release>)
    requires DistinctReleaseIds(releases)
    ensures DistinctReleaseIds(MigrateAll(releases))
  {
  }

  /** `migrateReleases` against the stored collections: the releases are
      replaced only when some record needed the backfill. */
  method Migrate(store: Store) returns (written: bool)
    modifies store
    ensures store.accounts == old(store.accounts) && store.versions == old(store.versions)
    ensures written <==> exists i :: 0 <= i < |old(store.releases)| && NeedsMigration(old(store.releases)[i])
    ensures store.releases == MigrateAll(old(store.releases))
    ensures !written ==> store.releases == old(store.releases)
    ensures old(store.Valid()) ==> store.Valid()
  {
    var updated, needsUpdate := MigrateReleases(store.releases);
    if needsUpdate {
      if store.Valid() {
        MigrateKeepsIds(store.releases);
      }
      store.releases := updated;
    }
    written := needsUpdate;
  }
}
