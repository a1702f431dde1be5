/** The defect analytics of the client: the defects of completed releases,
    flattened with their release's account and version, the statistics over
    them, and the four dashboard filters. */
module DefectsDashboard {
  import opened Common
  import opened Seqs
  import opened Entities

  /** A defect as the dashboard lists it: the stored defect with its
      release's `account_name` and `release_version`. */
  datatype FlatDefect = FlatDefect(
    id: int, defect_id: string, description: string, severity: string, status: string,
    account_name: string, release_version: string)

  /** `{...defect, account_name: release.account_name, release_version: release.release_version}`. */
  function Tag(d: Defect, r: Release): FlatDefect {
    FlatDefect(d.id, d.defect_id, d.description, d.severity, d.status, r.account_name, r.release_version)
  }

  /** The defects of one release, each tagged with it. */
  function Tagged(r: Release): (t: seq<FlatDefect>)
    ensures |t| == |DefectsOf(r)| && forall k :: 0 <= k < |t| ==> t[k] == Tag(DefectsOf(r)[k], r)
  {
    seq(|DefectsOf(r)|, k requires 0 <= k < |DefectsOf(r)| => Tag(DefectsOf(r)[k], r))
  }

  /** `flatMap` of `Tagged` over `releases`, in order. */
  function Flatten(releases: seq<Release>): (r: seq<FlatDefect>)
    ensures |r| == DefectCount(releases)
  {
    if releases == [] then [] else Tagged(releases[0]) + Flatten(releases[1..])
  }

  predicate IsCompleted(r: Release) {
    r.status == "Completed"
  }

  /** The defects the dashboard works on: those of completed releases. */
  function AllDefects(releases: seq<Release>): seq<FlatDefect> {
    Flatten(Filter(IsCompleted, releases))
  }

  /** The number of defects across `releases`, a missing list counting 0. */
  function DefectCount(releases: seq<Release>): nat {
    if releases == [] then 0 else |DefectsOf(releases[0])| + DefectCount(releases[1..])
  }

  /** Every flattened defect is a defect of one of the releases, carrying
      that release's account and version in place of its own. */
  lemma {:induction false} FlattenFromParents(releases: seq<Release>)
    ensures forall k :: 0 <= k < |Flatten(releases)| ==>
              exists i, j :: 0 <= i < |releases| && 0 <= j < |DefectsOf(releases[i])|
                && Flatten(releases)[k] == Tag(DefectsOf(releases[i])[j], releases[i])
  {
    if releases != [] {
      var head := Tagged(releases[0]);
      var rest := releases[1..];
      FlattenFromParents(rest);
      var f := Flatten(releases);
      forall k | 0 <= k < |f|
        ensures exists i, j :: 0 <= i < |releases| && 0 <= j < |DefectsOf(releases[i])|
                  && f[k] == Tag(DefectsOf(releases[i])[j], releases[i])
      {
        if k < |head| {
          assert f[k] == head[k] == Tag(DefectsOf(releases[0])[k], releases[0]);
          assert 0 <= k < |DefectsOf(releases[0])|;
        } else {
          var k' := k - |head|;
          assert f[k] == Flatten(rest)[k'];
          var i, j :| 0 <= i < |rest| && 0 <= j < |DefectsOf(rest[i])|
                      && Flatten(rest)[k'] == Tag(DefectsOf(rest[i])[j], rest[i]);
          assert rest[i] == releases[i + 1];
          assert 0 <= j < |DefectsOf(releases[i + 1])| && f[k] == Tag(DefectsOf(releases[i + 1])[j], releases[i + 1]);
        }
      }
    } else {
      assert Flatten(releases) == [];
    }
  }

  /** Every defect of every release appears, tagged, in the flattened list. */
  lemma {:induction false} FlattenKeepsAll(releases: seq<Release>)
    ensures forall i, j :: 0 <= i < |releases| && 0 <= j < |DefectsOf(releases[i])| ==>
              Tag(DefectsOf(releases[i])[j], releases[i]) in Flatten(releases)
  {
    if releases != [] {
      var rest := releases[1..];
      FlattenKeepsAll(rest);
      forall i, j | 0 <= i < |releases| && 0 <= j < |DefectsOf(releases[i])|
        ensures Tag(DefectsOf(releases[i])[j], releases[i]) in Flatten(releases)
      {
        if i == 0 {
          assert Tagged(releases[0])[j] == Tag(DefectsOf(releases[0])[j], releases[0]);
        } else {
          assert releases[i] == rest[i - 1];
        }
      }
    }
  }

  /** `defectRate`: 0 without completed releases, else defects per
      completed release, kept as a fraction. */
  datatype Rate = NoRate | Ratio(numerator: nat, denominator: nat)

  datatype DefectStats = DefectStats(
    totalDefects: nat,
    totalReleases: nat,
    defectRate: Rate,
    severityBreakdown: map<string, nat>,
    statusBreakdown: map<string, nat>,
    accountBreakdown: map<string, nat>)

  function Severities(ds: seq<FlatDefect>): (r: seq<string>)
    ensures |r| == |ds| && forall k :: 0 <= k < |ds| ==> r[k] == ds[k].severity
  {
    seq(|ds|, k requires 0 <= k < |ds| => ds[k].severity)
  }

  function Statuses(ds: seq<FlatDefect>): (r: seq<string>)
    ensures |r| == |ds| && forall k :: 0 <= k < |ds| ==> r[k] == ds[k].status
  {
    seq(|ds|, k requires 0 <= k < |ds| => ds[k].status)
  }

  function AccountNames(ds: seq<FlatDefect>): (r: seq<string>)
    ensures |r| == |ds| && forall k :: 0 <= k < |ds| ==> r[k] == ds[k].account_name
  {
    seq(|ds|, k requires 0 <= k < |ds| => ds[k].account_name)
  }

  /** `calculateDefectStats`. */
  function CalculateDefectStats(releases: seq<Release>): (s: DefectStats)
    ensures s.totalDefects == DefectCount(Filter(IsCompleted, releases))
    ensures s.totalReleases == |Filter(IsCompleted, releases)|
    ensures s.totalReleases == 0 ==> s.defectRate == NoRate
    ensures s.totalReleases > 0 ==> s.defectRate == Ratio(s.totalDefects, s.totalReleases)
  {
    var completed := Filter(IsCompleted, releases);
    var all := Flatten(completed);
    var n := |completed|;
    DefectStats(
      |all|,
      n,
      if n > 0 then Ratio(|all|, n) else NoRate,
      Histogram(Severities(all)),
      Histogram(Statuses(all)),
      Histogram(AccountNames(all)))
  }

  /** The three breakdowns each count every defect once. */
  lemma BreakdownsSumToTotal(releases: seq<Release>)
    ensures var s := CalculateDefectStats(releases);
            MapSum(s.severityBreakdown) == s.totalDefects
            && MapSum(s.statusBreakdown) == s.totalDefects
            && MapSum(s.accountBreakdown) == s.totalDefects
  {
    var all := AllDefects(releases);
    HistogramTotal(Severities(all));
    HistogramTotal(Statuses(all));
    HistogramTotal(AccountNames(all));
  }

  /** The severity breakdown has a key exactly for the severities some
      listed defect has, and counts how many have it. */
  lemma SeverityBreakdownKeys(releases: seq<Release>, v: string)
    ensures var s := CalculateDefectStats(releases);
            var all := AllDefects(releases);
            (v in s.severityBreakdown <==> exists k :: 0 <= k < |all| && all[k].severity == v)
            && (v in s.severityBreakdown ==> s.severityBreakdown[v] == multiset(Severities(all))[v])
  {
    var keys := Severities(AllDefects(releases));
    assert CalculateDefectStats(releases).severityBreakdown == Histogram(keys);
    if v in keys {
      var k :| 0 <= k < |keys| && keys[k] == v;
    }
  }

  /** The status breakdown has a key exactly for the statuses some listed
      defect has, and counts how many have it. */
  lemma StatusBreakdownKeys(releases: seq<Release>, v: string)
    ensures var s := CalculateDefectStats(releases);
            var all := AllDefects(releases);
            (v in s.statusBreakdown <==> exists k :: 0 <= k < |all| && all[k].status == v)
            && (v in s.statusBreakdown ==> s.statusBreakdown[v] == multiset(Statuses(all))[v])
  {
    var keys := Statuses(AllDefects(releases));
    assert CalculateDefectStats(releases).statusBreakdown == Histogram(keys);
    if v in keys {
      var k :| 0 <= k < |keys| && keys[k] == v;
    }
  }

  /** The account breakdown has a key exactly for the accounts some listed
      defect comes from, and counts how many do. */
  lemma AccountBreakdownKeys(releases: seq<Release>, v: string)
    ensures var s := CalculateDefectStats(releases);
            var all := AllDefects(releases);
            (v in s.accountBreakdown <==> exists k :: 0 <= k < |all| && all[k].account_name == v)
            && (v in s.accountBreakdown ==> s.accountBreakdown[v] == multiset(AccountNames(all))[v])
  {
    var keys := AccountNames(AllDefects(releases));
    assert CalculateDefectStats(releases).accountBreakdown == Histogram(keys);
    if v in keys {
      var k :| 0 <= k < |keys| && keys[k] == v;
    }
  }

  /** Only completed releases contribute: each defect listed is a defect of
      a release whose status is Completed, tagged with it. */
  lemma OnlyCompletedContribute(releases: seq<Release>)
    ensures forall k :: 0 <= k < |AllDefects(releases)| ==>
              exists i, j :: 0 <= i < |releases| && IsCompleted(releases[i]) && 0 <= j < |DefectsOf(releases[i])|
                && AllDefects(releases)[k] == Tag(DefectsOf(releases[i])[j], releases[i])
  {
    var completed := Filter(IsCompleted, releases);
    FlattenFromParents(completed);
    forall k | 0 <= k < |AllDefects(releases)|
      ensures exists i, j :: 0 <= i < |releases| && IsCompleted(releases[i]) && 0 <= j < |DefectsOf(releases[i])|
                && AllDefects(releases)[k] == Tag(DefectsOf(releases[i])[j], releases[i])
    {
      var c, j :| 0 <= c < |completed| && 0 <= j < |DefectsOf(completed[c])|
                  && Flatten(completed)[k] == Tag(DefectsOf(completed[c])[j], completed[c]);
      var r := completed[c];
      assert r in releases && IsCompleted(completed[c]);
      var i :| 0 <= i < |releases| && releases[i] == r;
      assert AllDefects(releases)[k] == Tag(DefectsOf(releases[i])[j], releases[i]);
      assert 0 <= i < |releases| && IsCompleted(releases[i]) && 0 <= j < |DefectsOf(releases[i])|;
    }
    assert forall k :: 0 <= k < |AllDefects(releases)| ==>
              exists i, j :: 0 <= i < |releases| && IsCompleted(releases[i]) && 0 <= j < |DefectsOf(releases[i])|
                && AllDefects(releases)[k] == Tag(DefectsOf(releases[i])[j], releases[i]);
  }

  /** The dashboard's filter state; "" is an unset filter. */
  datatype DefectFilters = DefectFilters(account_name: string, release_version: string, severity: string, status: string)

  const ClearedFilters: DefectFilters := DefectFilters("", "", "", "")

  /** Every set filter holds of `d`. */
  predicate MatchesFilters(d: FlatDefect, f: DefectFilters) {
    (f.account_name == "" || d.account_name == f.account_name)
    && (f.release_version == "" || d.release_version == f.release_version)
    && (f.severity == "" || d.severity == f.severity)
    && (f.status == "" || d.status == f.status)
  }

  function AccountIs(v: string): FlatDefect -> bool {
    (d: FlatDefect) => d.account_name == v
  }

  function VersionIs(v: string): FlatDefect -> bool {
    (d: FlatDefect) => d.release_version == v
  }

  function SeverityIs(v: string): FlatDefect -> bool {
    (d: FlatDefect) => d.severity == v
  }

  function StatusIs(v: string): FlatDefect -> bool {
    (d: FlatDefect) => d.status == v
  }

  /** `applyFilters`: the four filters in turn, each only when set. */
  function ApplyFilters(releases: seq<Release>, f: DefectFilters): (r: seq<FlatDefect>)
    ensures |r| <= |AllDefects(releases)| && forall k :: 0 <= k < |r| ==> r[k] in AllDefects(releases)
  {
    var all := AllDefects(releases);
    var a := if f.account_name != "" then Filter(AccountIs(f.account_name), all) else all;
    var b := if f.release_version != "" then Filter(VersionIs(f.release_version), a) else a;
    var c := if f.severity != "" then Filter(SeverityIs(f.severity), b) else b;
    if f.status != "" then Filter(StatusIs(f.status), c) else c
  }

  /** The filtered list is exactly the defects matching every set filter,
      in flattened order. */
  lemma ApplyFiltersMatches(releases: seq<Release>, f: DefectFilters)
    ensures ApplyFilters(releases, f) == Filter((d: FlatDefect) => MatchesFilters(d, f), AllDefects(releases))
  {
    var all := AllDefects(releases);
    var qa := (d: FlatDefect) => f.account_name == "" || d.account_name == f.account_name;
    var qb := (d: FlatDefect) => qa(d) && (f.release_version == "" || d.release_version == f.release_version);
    var qc := (d: FlatDefect) => qb(d) && (f.severity == "" || d.severity == f.severity);
    var qd := (d: FlatDefect) => MatchesFilters(d, f);
    FilterWhen(f.account_name != "", AccountIs(f.account_name), qa, all);
    FilterWhenAfter(qa, f.release_version != "", VersionIs(f.release_version), qb, all);
    FilterWhenAfter(qb, f.severity != "", SeverityIs(f.severity), qc, all);
    FilterWhenAfter(qc, f.status != "", StatusIs(f.status), qd, all);
  }

  /** With every filter cleared the dashboard lists all defects. */
  lemma ClearedFiltersShowAll(releases: seq<Release>)
    ensures ApplyFilters(releases, ClearedFilters) == AllDefects(releases)
  {
  }

  /** The filter keys `handleFilterChange` is called with. */
  datatype FilterKey = AccountKey | VersionKey | SeverityKey | StatusKey

  function FilterValue(f: DefectFilters, key: FilterKey): string {
    match key
    case AccountKey => f.account_name
    case VersionKey => f.release_version
    case SeverityKey => f.severity
    case StatusKey => f.status
  }

  /** `{...prev, [name]: value}`. */
  function ChangeFilter(f: DefectFilters, key: FilterKey, value: string): (r: DefectFilters)
    ensures FilterValue(r, key) == value
    ensures forall k :: k != key ==> FilterValue(r, k) == FilterValue(f, k)
  {
    match key
    case AccountKey => f.(account_name := value)
    case VersionKey => f.(release_version := value)
    case SeverityKey => f.(severity := value)
    case StatusKey => f.(status := value)
  }

  /** `clearFilters` empties every filter, whatever was set. */
  function ClearFilters(f: DefectFilters): (r: DefectFilters)
    ensures forall k :: FilterValue(r, k) == ""
  {
    ClearedFilters
  }
}
