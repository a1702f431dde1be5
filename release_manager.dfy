/** The administrator's release list: the four-status overview above the
    table, and the query string its filter callback sends to
    `GET /api/releases`. */
module ReleaseManager {
  import opened Common
  import opened Seqs
  import opened Entities
  import opened Listing

  /** One tile of the status overview. */
  datatype StatusStat = StatusStat(caption: string, count: nat, color: string)

  const StatusLabels: seq<string> := ["Scheduled", "In Progress", "Completed", "Blocked"]
  const StatusColors: seq<string> := ["#ffa726", "#42a5f5", "#66bb6a", "#ef5350"]

  function StatusOf(r: Release): string {
    r.status
  }

  /** `stats[k] || 0`. */
  function CountOr0(m: map<string, nat>, k: string): nat {
    if k in m then m[k] else 0
  }

  /** `getStatusStats`: the status histogram read at the four statuses, in
      the fixed order, each with its colour. */
  function GetStatusStats(releases: seq<Release>): (r: seq<StatusStat>)
    ensures |r| == 4
    ensures forall i :: 0 <= i < 4 ==> r[i].caption == StatusLabels[i] && r[i].color == StatusColors[i]
  {
    var stats := Histogram(Statuses(releases));
    [StatusStat("Scheduled", CountOr0(stats, "Scheduled"), "#ffa726"),
     StatusStat("In Progress", CountOr0(stats, "In Progress"), "#42a5f5"),
     StatusStat("Completed", CountOr0(stats, "Completed"), "#66bb6a"),
     StatusStat("Blocked", CountOr0(stats, "Blocked"), "#ef5350")]
  }

  /** The histogram's entry for a status is the number of releases with it. */
  lemma {:induction false} StatusMultiplicity(releases: seq<Release>, v: string)
    ensures multiset(Statuses(releases))[v] == Count(KeyEquals(StatusOf, v), releases)
  {
    if releases != [] {
      StatusMultiplicity(releases[1..], v);
      assert Statuses(releases) == [releases[0].status] + Statuses(releases[1..]);
      assert releases == [releases[0]] + releases[1..];
      FilterCons(KeyEquals(StatusOf, v), releases[0], releases[1..]);
    }
  }

  /** Each tile counts exactly the releases with its status; a status no
      release has shows 0. */
  lemma StatusStatsCount(releases: seq<Release>)
    ensures forall i :: 0 <= i < 4 ==>
              GetStatusStats(releases)[i].count == Count(KeyEquals(StatusOf, StatusLabels[i]), releases)
  {
    var keys := Statuses(releases);
    forall i | 0 <= i < 4
      ensures GetStatusStats(releases)[i].count == Count(KeyEquals(StatusOf, StatusLabels[i]), releases)
    {
      StatusMultiplicity(releases, StatusLabels[i]);
      if StatusLabels[i] !in keys {
        assert multiset(keys)[StatusLabels[i]] == 0;
      }
    }
  }

  // The same projection as `AccountManager.Counts`, over status tiles.
  function Counts(stats: seq<StatusStat>): (r: seq<nat>)
    ensures |r| == |stats| && forall i :: 0 <= i < |stats| ==> r[i] == stats[i].count
  {
    seq(|stats|, i requires 0 <= i < |stats| => stats[i].count)
  }

  /** The four counts together with the releases of any other status make up
      all releases, so the tiles never count more than there are. */
  lemma StatusStatsSum(releases: seq<Release>)
    ensures Sum(Counts(GetStatusStats(releases))) + Count(KeyNotAmong(StatusOf, StatusLabels), releases) == |releases|
    ensures Sum(Counts(GetStatusStats(releases))) <= |releases|
  {
    var c := Counts(GetStatusStats(releases));
    var d := CountsPer(StatusOf, StatusLabels, releases);
    StatusStatsCount(releases);
    forall i | 0 <= i < 4 ensures c[i] == d[i] {
    }
    assert c == d;
    CountsPerPartition(StatusOf, StatusLabels, releases);
  }

  /** `Object.entries(filters)` of the release table's filter object. */
  function Entries(q: ReleaseQuery): seq<(string, string)> {
    [("release_version", q.release_version), ("account_region", q.account_region), ("status", q.status)]
  }

  predicate EntryIsSet(e: (string, string)) {
    e.1 != ""
  }

  /** The `forEach` of `handleFilter`: each entry with a non-empty value is
      appended to the query parameters, in order. */
  method BuildQueryParams(entries: seq<(string, string)>) returns (params: seq<(string, string)>)
    ensures params == Filter(EntryIsSet, entries)
  {
    params := [];
    var i := 0;
    while i < |entries|
      invariant 0 <= i <= |entries|
      invariant params == Filter(EntryIsSet, entries[..i])
    {
      var entry := entries[i];
      assert entries[..i + 1] == entries[..i] + [entry];
      FilterConcat(EntryIsSet, entries[..i], [entry]);
      if EntryIsSet(entry) {
        params := params + [entry];
      }
      i := i + 1;
    }
    assert entries[..i] == entries;
  }

  /** The query holds only set entries, as a subsequence of the entries. */
  lemma QueryParamsAreSetEntries(entries: seq<(string, string)>)
    ensures IsSubseq(Filter(EntryIsSet, entries), entries)
    ensures forall k :: 0 <= k < |Filter(EntryIsSet, entries)| ==> Filter(EntryIsSet, entries)[k].1 != ""
    ensures forall k :: 0 <= k < |entries| && entries[k].1 != "" ==> entries[k] in Filter(EntryIsSet, entries)
  {
    FilterIsSubseq(EntryIsSet, entries);
  }

  /** `req.query[key]`, read as the first value under that key, or "" when
      the key is absent. This agrees with the server only when keys are
      distinct: Express gives an array for a repeated key. */
  function Param(params: seq<(string, string)>, key: string): (v: string)
    ensures (forall k :: 0 <= k < |params| ==> params[k].0 != key) ==> v == ""
  {
    if params == [] then ""
    else if params[0].0 == key then params[0].1
    else Param(params[1..], key)
  }

  function ReadQuery(params: seq<(string, string)>): ReleaseQuery {
    ReleaseQuery(Param(params, "release_version"), Param(params, "account_region"), Param(params, "status"))
  }

  /** No key occurs twice. */
  predicate DistinctKeys(entries: seq<(string, string)>) {
    forall i, j :: 0 <= i < j < |entries| ==> entries[i].0 != entries[j].0
  }

  /** Dropping the empty entries does not change what a key reads as, since
      an absent key reads as "" just as an empty value does. */
  lemma {:induction false} ParamIgnoresEmpty(entries: seq<(string, string)>, key: string)
    requires DistinctKeys(entries)
    ensures Param(Filter(EntryIsSet, entries), key) == Param(entries, key)
  {
    if entries != [] {
      var tail := entries[1..];
      assert DistinctKeys(tail) by {
        forall i, j | 0 <= i < j < |tail| ensures tail[i].0 != tail[j].0 {
          assert tail[i] == entries[i + 1] && tail[j] == entries[j + 1];
        }
      }
      ParamIgnoresEmpty(tail, key);
      var head := entries[0];
      assert entries == [head] + tail;
      FilterCons(EntryIsSet, head, tail);
      var rest := Filter(EntryIsSet, tail);
      if EntryIsSet(head) {
        assert Filter(EntryIsSet, entries) == [head] + rest;
        assert ([head] + rest)[1..] == rest;
      } else {
        assert Filter(EntryIsSet, entries) == rest;
        if head.0 == key {
          forall k | 0 <= k < |tail| ensures tail[k].0 != key {
            assert tail[k] == entries[k + 1];
          }
        }
      }
    }
  }

  /** The server reads back exactly the filters that were sent. */
  lemma QueryRoundTrip(q: ReleaseQuery)
    ensures ReadQuery(Filter(EntryIsSet, Entries(q))) == q
  {
    var e := Entries(q);
    assert DistinctKeys(e);
    assert e[1..][1..] == [e[2]];
    assert Param(e, "status") == Param(e[1..], "status") == Param(e[1..][1..], "status") == q.status;
    assert Param(e, "account_region") == Param(e[1..], "account_region") == q.account_region;
    ParamIgnoresEmpty(e, "release_version");
    ParamIgnoresEmpty(e, "account_region");
    ParamIgnoresEmpty(e, "status");
  }
}
