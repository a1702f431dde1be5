/** The read side of the server: `GET /api/releases` (filter by query, then
    order by release date, newest first) and the `GET /api/stats` roll-ups.
    Dates are compared through `dateKey`, the time value a date string parses
    to; the current time is the parameter `now`. */
module Listing {
  import opened Common
  import opened Seqs
  import opened Entities
  import opened Repository
  import opened Server

  /** The query string of `GET /api/releases`; "" stands for an absent key. */
  datatype ReleaseQuery = ReleaseQuery(release_version: string, account_region: string, status: string)

  /** The names of the accounts whose region is exactly `region`. */
  function AccountsInRegion(accounts: seq<Account>, region: string): seq<string> {
    if accounts == [] then []
    else
      (if accounts[0].info.region == region then [accounts[0].name] else []) + AccountsInRegion(accounts[1..], region)
  }

  lemma {:induction false} AccountsInRegionMembers(accounts: seq<Account>, region: string, n: string)
    ensures n in AccountsInRegion(accounts, region) <==>
              exists k :: 0 <= k < |accounts| && accounts[k].info.region == region && accounts[k].name == n
  {
    if accounts != [] {
      AccountsInRegionMembers(accounts[1..], region, n);
      if exists k :: 0 <= k < |accounts[1..]| && accounts[1..][k].info.region == region && accounts[1..][k].name == n {
        var k :| 0 <= k < |accounts[1..]| && accounts[1..][k].info.region == region && accounts[1..][k].name == n;
        assert accounts[k + 1] == accounts[1..][k];
      }
      if exists k :: 0 <= k < |accounts| && accounts[k].info.region == region && accounts[k].name == n {
        var k :| 0 <= k < |accounts| && accounts[k].info.region == region && accounts[k].name == n;
        if k > 0 {
          assert accounts[1..][k - 1] == accounts[k];
        }
      }
    }
  }

  /** Every criterion of the query that is set holds of `r`. */
  predicate MatchesQuery(r: Release, accounts: seq<Account>, q: ReleaseQuery) {
    (q.release_version == "" || r.release_version == q.release_version)
    && (q.account_region == "" || r.account_name in AccountsInRegion(accounts, q.account_region))
    && (q.status == "" || r.status == q.status)
  }

  function VersionIs(version: string): Release -> bool {
    (r: Release) => r.release_version == version
  }

  function AccountAmong(names: seq<string>): Release -> bool {
    (r: Release) => r.account_name in names
  }

  function StatusIs(status: string): Release -> bool {
    (r: Release) => r.status == status
  }

  /** The three filters in the order the handler applies them. */
  function FilterReleases(releases: seq<Release>, accounts: seq<Account>, q: ReleaseQuery): (r: seq<Release>)
    ensures |r| <= |releases| && forall k :: 0 <= k < |r| ==> r[k] in releases
  {
    var byVersion := if q.release_version != "" then Filter(VersionIs(q.release_version), releases) else releases;
    var byRegion := if q.account_region != "" then Filter(AccountAmong(AccountsInRegion(accounts, q.account_region)), byVersion) else byVersion;
    if q.status != "" then Filter(StatusIs(q.status), byRegion) else byRegion
  }

  /** The sequential filters keep exactly the releases matching every set
      criterion, in their stored order. */
  lemma FilterReleasesMatches(releases: seq<Release>, accounts: seq<Account>, q: ReleaseQuery)
    ensures FilterReleases(releases, accounts, q) == Filter((r: Release) => MatchesQuery(r, accounts, q), releases)
  {
    var names := AccountsInRegion(accounts, q.account_region);
    var qv := (r: Release) => q.release_version == "" || r.release_version == q.release_version;
    var qvr := (r: Release) => qv(r) && (q.account_region == "" || r.account_name in names);
    var all := (r: Release) => MatchesQuery(r, accounts, q);
    FilterWhen(q.release_version != "", VersionIs(q.release_version), qv, releases);
    FilterWhenAfter(qv, q.account_region != "", AccountAmong(names), qvr, releases);
    FilterWhenAfter(qvr, q.status != "", StatusIs(q.status), all, releases);
  }

  /** The position `x` takes in `t`: before the first element whose key is
      not larger, so that ties keep their input order. */
  function Insert<T>(x: T, t: seq<T>, key: T -> int): (r: seq<T>)
    ensures |r| == |t| + 1
  {
    if t == [] || key(t[0]) <= key(x) then [x] + t
    else [t[0]] + Insert(x, t[1..], key)
  }

  lemma {:induction false} InsertMultiset<T>(x: T, t: seq<T>, key: T -> int)
    ensures multiset(Insert(x, t, key)) == multiset(t) + multiset{x}
  {
    if t != [] && key(t[0]) > key(x) {
      InsertMultiset(x, t[1..], key);
      assert t == [t[0]] + t[1..];
    }
  }

  /** A stable sort by `key`, largest first: the order `Array.prototype.sort`
      gives with the comparator `key(b) - key(a)`. */
  function SortDesc<T>(s: seq<T>, key: T -> int): (r: seq<T>)
    ensures |r| == |s|
  {
    if s == [] then [] else Insert(s[0], SortDesc(s[1..], key), key)
  }

  /** The sort is a permutation of its input. */
  lemma {:induction false} SortDescMultiset<T>(s: seq<T>, key: T -> int)
    ensures multiset(SortDesc(s, key)) == multiset(s)
  {
    if s != [] {
      SortDescMultiset(s[1..], key);
      InsertMultiset(s[0], SortDesc(s[1..], key), key);
      assert s == [s[0]] + s[1..];
    }
  }

  predicate SortedDesc<T>(s: seq<T>, key: T -> int) {
    forall i, j :: 0 <= i < j < |s| ==> key(s[i]) >= key(s[j])
  }

  /** The elements whose key is `v`. */
  function KeyIs<T>(key: T -> int, v: int): T -> bool {
    (x: T) => key(x) == v
  }

  /** Every key `Insert` leaves in place is bounded by a bound of `x` and `t`. */
  lemma {:induction false} InsertBound<T>(x: T, t: seq<T>, key: T -> int, b: int)
    requires key(x) <= b && forall j :: 0 <= j < |t| ==> key(t[j]) <= b
    ensures forall j :: 0 <= j < |Insert(x, t, key)| ==> key(Insert(x, t, key)[j]) <= b
  {
    if t != [] && key(t[0]) > key(x) {
      InsertBound(x, t[1..], key, b);
      var r := Insert(x, t, key);
      forall j | 0 <= j < |r| ensures key(r[j]) <= b {
        if j > 0 {
          assert r[j] == Insert(x, t[1..], key)[j - 1];
        }
      }
    }
  }

  lemma {:induction false} InsertSorted<T>(x: T, t: seq<T>, key: T -> int)
    requires SortedDesc(t, key)
    ensures SortedDesc(Insert(x, t, key), key)
  {
    var r := Insert(x, t, key);
    if t == [] || key(t[0]) <= key(x) {
      forall a, b | 0 <= a < b < |r| ensures key(r[a]) >= key(r[b]) {
        assert r[b] == t[b - 1];
        if a > 0 {
          assert r[a] == t[a - 1];
        } else {
          assert key(t[0]) >= key(t[b - 1]);
        }
      }
    } else {
      var tail := t[1..];
      assert SortedDesc(tail, key) by {
        forall a, b | 0 <= a < b < |tail| ensures key(tail[a]) >= key(tail[b]) {
          assert tail[a] == t[a + 1] && tail[b] == t[b + 1];
        }
      }
      InsertSorted(x, tail, key);
      forall j | 0 <= j < |tail| ensures key(tail[j]) <= key(t[0]) {
        assert tail[j] == t[j + 1];
      }
      InsertBound(x, tail, key, key(t[0]));
      var r' := Insert(x, tail, key);
      forall a, b | 0 <= a < b < |r| ensures key(r[a]) >= key(r[b]) {
        assert r[b] == r'[b - 1];
        if a > 0 {
          assert r[a] == r'[a - 1];
        }
      }
    }
  }

  /** Inserting `x` adds it in front of the elements that share its key and
      leaves every other key's elements as they were. */
  lemma {:induction false} InsertStable<T>(x: T, t: seq<T>, key: T -> int, v: int)
    ensures Filter(KeyIs(key, v), Insert(x, t, key)) == (if key(x) == v then [x] else []) + Filter(KeyIs(key, v), t)
  {
    var p := KeyIs(key, v);
    assert p(x) == (key(x) == v);
    var hx := if p(x) then [x] else [];
    if t == [] || key(t[0]) <= key(x) {
      FilterCons(p, x, t);
    } else {
      var tail := t[1..];
      var h0 := if p(t[0]) then [t[0]] else [];
      InsertStable(x, tail, key, v);
      FilterCons(p, t[0], Insert(x, tail, key));
      assert t == [t[0]] + tail;
      FilterCons(p, t[0], tail);
      assert h0 == [] || hx == [];
      assert h0 + (hx + Filter(p, tail)) == hx + (h0 + Filter(p, tail));
    }
  }

  lemma {:induction false} SortDescSorted<T>(s: seq<T>, key: T -> int)
    ensures SortedDesc(SortDesc(s, key), key)
  {
    if s != [] {
      SortDescSorted(s[1..], key);
      InsertSorted(s[0], SortDesc(s[1..], key), key);
    }
  }

  /** Stability: the elements with any one key come out in input order. */
  lemma {:induction false} SortDescStable<T>(s: seq<T>, key: T -> int, v: int)
    ensures Filter(KeyIs(key, v), SortDesc(s, key)) == Filter(KeyIs(key, v), s)
  {
    if s != [] {
      SortDescStable(s[1..], key, v);
      InsertStable(s[0], SortDesc(s[1..], key), key, v);
      assert s == [s[0]] + s[1..];
      FilterCons(KeyIs(key, v), s[0], s[1..]);
    }
  }

  function ByDate(dateKey: string -> int): Release -> int {
    (r: Release) => dateKey(r.release_date)
  }

  /** `GET /api/releases`. */
  function ListReleases(releases: seq<Release>, accounts: seq<Account>, q: ReleaseQuery, dateKey: string -> int): (r: seq<Release>)
    ensures multiset(r) == multiset(FilterReleases(releases, accounts, q))
    ensures SortedDesc(r, ByDate(dateKey))
  {
    SortDescSorted(FilterReleases(releases, accounts, q), ByDate(dateKey));
    SortDescMultiset(FilterReleases(releases, accounts, q), ByDate(dateKey));
    SortDesc(FilterReleases(releases, accounts, q), ByDate(dateKey))
  }

  /** The listing holds exactly the releases matching every set criterion,
      newest first, and releases with the same date in stored order. */
  lemma ListReleasesSpec(releases: seq<Release>, accounts: seq<Account>, q: ReleaseQuery, dateKey: string -> int, d: int)
    ensures var r := ListReleases(releases, accounts, q, dateKey);
            (forall x :: x in r <==> x in releases && MatchesQuery(x, accounts, q))
            && SortedDesc(r, ByDate(dateKey))
            && Filter(KeyIs(ByDate(dateKey), d), r)
               == Filter(KeyIs(ByDate(dateKey), d), Filter((x: Release) => MatchesQuery(x, accounts, q), releases))
  {
    var f := FilterReleases(releases, accounts, q);
    var r := ListReleases(releases, accounts, q, dateKey);
    FilterReleasesMatches(releases, accounts, q);
    SortDescStable(f, ByDate(dateKey), d);
    forall x ensures x in r <==> x in releases && MatchesQuery(x, accounts, q) {
      assert x in r <==> x in multiset(r);
      assert x in f <==> x in multiset(f);
    }
  }

  /** The result of `GET /api/stats`. */
  datatype Stats = Stats(
    totalAccounts: nat,
    totalReleases: nat,
    totalRegions: nat,
    totalFeatures: nat,
    statusCounts: map<string, nat>,
    releaseVersionCounts: map<string, nat>,
    regionCounts: map<string, nat>,
    upcomingReleases: nat)

  /** `region.features?.length || 0`. */
  function FeatureCount(v: ReleaseVersion): nat {
    if v.info.features.Some? then |v.info.features.value| else 0
  }

  /** The sum of the versions' feature counts. */
  function TotalFeatures(versions: seq<ReleaseVersion>): (n: nat)
    ensures forall k :: 0 <= k < |versions| ==> FeatureCount(versions[k]) <= n
  {
    if versions == [] then 0 else FeatureCount(versions[0]) + TotalFeatures(versions[1..])
  }

  lemma {:induction false} TotalFeaturesConcat(a: seq<ReleaseVersion>, b: seq<ReleaseVersion>)
    ensures TotalFeatures(a + b) == TotalFeatures(a) + TotalFeatures(b)
  {
    if a == [] {
      assert a + b == b;
    } else {
      TotalFeaturesConcat(a[1..], b);
      assert (a + b)[1..] == a[1..] + b;
    }
  }

  lemma {:induction false} TotalFeaturesNone(versions: seq<ReleaseVersion>)
    requires forall k :: 0 <= k < |versions| ==> versions[k].info.features.None?
    ensures TotalFeatures(versions) == 0
  {
    if versions != [] {
      TotalFeaturesNone(versions[1..]);
    }
  }

  // The same projection as `DefectsDashboard.Statuses`, over releases.
  function Statuses(releases: seq<Release>): (keys: seq<string>)
    ensures |keys| == |releases| && forall k :: 0 <= k < |releases| ==> keys[k] == releases[k].status
  {
    seq(|releases|, k requires 0 <= k < |releases| => releases[k].status)
  }

  function Regions(accounts: seq<Account>): (keys: seq<string>)
    ensures |keys| == |accounts| && forall k :: 0 <= k < |accounts| ==> keys[k] == accounts[k].info.region
  {
    seq(|accounts|, k requires 0 <= k < |accounts| => accounts[k].info.region)
  }

  predicate IsSet(k: string) {
    k != ""
  }

  /** The keys a fold that skips falsy values counts. */
  function NonEmpty(keys: seq<string>): (r: seq<string>)
    ensures forall k :: k in r <==> k in keys && k != ""
  {
    if keys == [] then []
    else (if keys[0] != "" then [keys[0]] else []) + NonEmpty(keys[1..])
  }

  predicate HasVersion(r: Release) {
    r.release_version != ""
  }

  predicate HasRegion(a: Account) {
    a.info.region != ""
  }

  predicate IsUpcoming(r: Release, dateKey: string -> int, now: int) {
    dateKey(r.release_date) >= now && r.status == "Scheduled"
  }

  /** `(r) => new Date(r.release_date) >= now && r.status === "Scheduled"`. */
  function UpcomingAt(dateKey: string -> int, now: int): Release -> bool {
    (r: Release) => IsUpcoming(r, dateKey, now)
  }

  /** `releases.filter(...).length`, counted one release at a time: the
      number of Scheduled releases dated at or after `now`. */
  function Upcoming(releases: seq<Release>, dateKey: string -> int, now: int): (n: nat)
    ensures n == Count(UpcomingAt(dateKey, now), releases)
    ensures n <= |releases|
    ensures n == 0 <==> forall j :: 0 <= j < |releases| ==> !IsUpcoming(releases[j], dateKey, now)
  {
    if releases == [] then 0
    else
      var rest := Upcoming(releases[1..], dateKey, now);
      assert releases == [releases[0]] + releases[1..];
      FilterCons(UpcomingAt(dateKey, now), releases[0], releases[1..]);
      (if IsUpcoming(releases[0], dateKey, now) then 1 else 0) + rest
  }

  function ComputeStats(accounts: seq<Account>, releases: seq<Release>, versions: seq<ReleaseVersion>,
                        dateKey: string -> int, now: int): (s: Stats)
    ensures s.totalAccounts == |accounts| && s.totalReleases == |releases| && s.totalRegions == |versions|
    ensures forall k :: k in s.statusCounts <==> k in Statuses(releases)
    ensures forall k :: k in s.releaseVersionCounts <==> k in VersionRefs(releases) && k != ""
    ensures forall k :: k in s.regionCounts <==> k in Regions(accounts) && k != ""
    ensures s.totalFeatures == TotalFeatures(versions)
    ensures s.upcomingReleases == Count(UpcomingAt(dateKey, now), releases) <= |releases|
  {
    Stats(
      |accounts|, |releases|, |versions|, TotalFeatures(versions),
      Histogram(Statuses(releases)),
      Histogram(NonEmpty(VersionRefs(releases))),
      Histogram(NonEmpty(Regions(accounts))),
      Upcoming(releases, dateKey, now))
  }

  /** Every release is counted under exactly one status, so the status
      counts add up to the number of releases. */
  lemma StatusCountsSumToTotal(accounts: seq<Account>, releases: seq<Release>, versions: seq<ReleaseVersion>,
                               dateKey: string -> int, now: int)
    ensures var s := ComputeStats(accounts, releases, versions, dateKey, now);
            MapSum(s.statusCounts) == s.totalReleases
  {
    HistogramTotal(Statuses(releases));
  }

  lemma {:induction false} VersionKeysCount(releases: seq<Release>)
    ensures |NonEmpty(VersionRefs(releases))| == Count(HasVersion, releases)
  {
    if releases != [] {
      var keys := VersionRefs(releases);
      VersionKeysCount(releases[1..]);
      assert keys[1..] == VersionRefs(releases[1..]);
      assert |NonEmpty(keys)| == (if keys[0] != "" then 1 else 0) + |NonEmpty(keys[1..])|;
      assert releases == [releases[0]] + releases[1..];
      FilterCons(HasVersion, releases[0], releases[1..]);
    }
  }

  lemma {:induction false} RegionKeysCount(accounts: seq<Account>)
    ensures |NonEmpty(Regions(accounts))| == Count(HasRegion, accounts)
  {
    if accounts != [] {
      var keys := Regions(accounts);
      RegionKeysCount(accounts[1..]);
      assert keys[1..] == Regions(accounts[1..]);
      assert |NonEmpty(keys)| == (if keys[0] != "" then 1 else 0) + |NonEmpty(keys[1..])|;
      assert accounts == [accounts[0]] + accounts[1..];
      FilterCons(HasRegion, accounts[0], accounts[1..]);
    }
  }

  /** The version and region counts add up to the number of releases with a
      version and of accounts with a region. */
  lemma KeyedCountsSum(accounts: seq<Account>, releases: seq<Release>, versions: seq<ReleaseVersion>,
                       dateKey: string -> int, now: int)
    ensures var s := ComputeStats(accounts, releases, versions, dateKey, now);
            MapSum(s.releaseVersionCounts) == Count(HasVersion, releases)
            && MapSum(s.regionCounts) == Count(HasRegion, accounts)
  {
    HistogramTotal(NonEmpty(VersionRefs(releases)));
    HistogramTotal(NonEmpty(Regions(accounts)));
    VersionKeysCount(releases);
    RegionKeysCount(accounts);
  }

  lemma {:induction false} NonEmptyMultiplicity(keys: seq<string>, k: string)
    requires k != ""
    ensures multiset(NonEmpty(keys))[k] == multiset(keys)[k]
  {
    if keys != [] {
      NonEmptyMultiplicity(keys[1..], k);
      assert keys == [keys[0]] + keys[1..];
    }
  }

  /** Each count is the number of records carrying that key. */
  lemma CountsAreMultiplicities(accounts: seq<Account>, releases: seq<Release>, versions: seq<ReleaseVersion>,
                                dateKey: string -> int, now: int, k: string)
    ensures var s := ComputeStats(accounts, releases, versions, dateKey, now);
            (k in s.statusCounts ==> s.statusCounts[k] == multiset(Statuses(releases))[k])
            && (k in s.releaseVersionCounts ==> s.releaseVersionCounts[k] == multiset(VersionRefs(releases))[k])
            && (k in s.regionCounts ==> s.regionCounts[k] == multiset(Regions(accounts))[k])
  {
    if k != "" {
      NonEmptyMultiplicity(VersionRefs(releases), k);
      NonEmptyMultiplicity(Regions(accounts), k);
    }
  }
}
