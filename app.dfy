/** The top-level client view: the release filter the release table calls
    back with, the tabs offered to each role, and the view each tab renders.
    The signed-in user's role is a parameter; `isAdmin()` and `isReadOnly()`
    are the tests of that role. */
module App {
  import opened Common
  import opened Text
  import opened Seqs
  import opened Entities
  import opened Repository
  import opened Listing

  /** `account && account.region === region` for the first account named
      like the release: a release whose account is unknown is dropped. */
  predicate AccountInRegion(accounts: seq<Account>, region: string, r: Release) {
    var a := FindAccountByName(accounts, r.account_name);
    a.Some? && a.value.info.region == region
  }

  function RegionIs(accounts: seq<Account>, region: string): Release -> bool {
    (r: Release) => AccountInRegion(accounts, region, r)
  }

  predicate NoCriteria(f: ReleaseQuery) {
    f.release_version == "" && f.account_region == "" && f.status == ""
  }

  /** `handleFilter`: the releases themselves when no criterion is set, else
      the version, region and status filters in that order, each only when
      its criterion is set. */
  function HandleFilter(releases: seq<Release>, accounts: seq<Account>, f: ReleaseQuery): (r: seq<Release>)
    ensures |r| <= |releases| && forall k :: 0 <= k < |r| ==> r[k] in releases
  {
    if NoCriteria(f) then releases
    else
      var byVersion := if f.release_version != "" then Filter(VersionIs(f.release_version), releases) else releases;
      var byRegion := if f.account_region != "" then Filter(RegionIs(accounts, f.account_region), byVersion) else byVersion;
      if f.status != "" then Filter(StatusIs(f.status), byRegion) else byRegion
  }

  /** Every set criterion holds of `r`: the exact version, the region of the
      first account with the release's name, the exact status. */
  predicate Matches(accounts: seq<Account>, f: ReleaseQuery, r: Release) {
    (f.release_version == "" || r.release_version == f.release_version)
    && (f.account_region == "" || AccountInRegion(accounts, f.account_region, r))
    && (f.status == "" || r.status == f.status)
  }

  /** The filtered list is exactly the releases matching every set
      criterion, in their original order. */
  lemma HandleFilterMatches(releases: seq<Release>, accounts: seq<Account>, f: ReleaseQuery)
    ensures HandleFilter(releases, accounts, f) == Filter((r: Release) => Matches(accounts, f, r), releases)
  {
    var all := (r: Release) => Matches(accounts, f, r);
    if NoCriteria(f) {
      FilterAll(all, releases);
    } else {
      var qv := (r: Release) => f.release_version == "" || r.release_version == f.release_version;
      var qvr := (r: Release) => qv(r) && (f.account_region == "" || AccountInRegion(accounts, f.account_region, r));
      FilterWhen(f.release_version != "", VersionIs(f.release_version), qv, releases);
      FilterWhenAfter(qv, f.account_region != "", RegionIs(accounts, f.account_region), qvr, releases);
      FilterWhenAfter(qvr, f.status != "", StatusIs(f.status), all, releases);
    }
  }

  /** The result keeps a subsequence of the releases, in order and unsorted,
      and each kept release matches every set criterion; a release matching
      them all is kept. */
  lemma HandleFilterIsSubseq(releases: seq<Release>, accounts: seq<Account>, f: ReleaseQuery)
    ensures IsSubseq(HandleFilter(releases, accounts, f), releases)
    ensures forall k :: 0 <= k < |HandleFilter(releases, accounts, f)| ==>
              Matches(accounts, f, HandleFilter(releases, accounts, f)[k])
    ensures forall k :: 0 <= k < |releases| && Matches(accounts, f, releases[k]) ==>
              releases[k] in HandleFilter(releases, accounts, f)
  {
    var p := (r: Release) => Matches(accounts, f, r);
    HandleFilterMatches(releases, accounts, f);
    FilterIsSubseq(p, releases);
  }

  /** With no criterion set the list is the releases unchanged. */
  lemma NoCriteriaKeepsAll(releases: seq<Release>, accounts: seq<Account>, f: ReleaseQuery)
    requires NoCriteria(f)
    ensures HandleFilter(releases, accounts, f) == releases
  {
  }

  /** The three criteria of the release table. */
  datatype Criterion = VersionCriterion | RegionCriterion | StatusCriterion

  /** One of the three conditional filter steps of `handleFilter`. */
  function Step(accounts: seq<Account>, f: ReleaseQuery, c: Criterion, s: seq<Release>): seq<Release> {
    match c
    case VersionCriterion => if f.release_version != "" then Filter(VersionIs(f.release_version), s) else s
    case RegionCriterion => if f.account_region != "" then Filter(RegionIs(accounts, f.account_region), s) else s
    case StatusCriterion => if f.status != "" then Filter(StatusIs(f.status), s) else s
  }

  /** The test a step keeps a release by, set or not. */
  predicate Holds(accounts: seq<Account>, f: ReleaseQuery, c: Criterion, r: Release) {
    match c
    case VersionCriterion => f.release_version == "" || r.release_version == f.release_version
    case RegionCriterion => f.account_region == "" || AccountInRegion(accounts, f.account_region, r)
    case StatusCriterion => f.status == "" || r.status == f.status
  }

  function HoldsFor(accounts: seq<Account>, f: ReleaseQuery, c: Criterion): Release -> bool {
    (r: Release) => Holds(accounts, f, c, r)
  }

  lemma StepIsFilter(accounts: seq<Account>, f: ReleaseQuery, c: Criterion, s: seq<Release>)
    ensures Step(accounts, f, c, s) == Filter(HoldsFor(accounts, f, c), s)
  {
    match c
    case VersionCriterion => FilterWhen(f.release_version != "", VersionIs(f.release_version), HoldsFor(accounts, f, c), s);
    case RegionCriterion => FilterWhen(f.account_region != "", RegionIs(accounts, f.account_region), HoldsFor(accounts, f, c), s);
    case StatusCriterion => FilterWhen(f.status != "", StatusIs(f.status), HoldsFor(accounts, f, c), s);
  }

  /** Any two steps commute: either order keeps the releases passing both. */
  lemma StepsCommute(accounts: seq<Account>, f: ReleaseQuery, a: Criterion, b: Criterion, s: seq<Release>)
    ensures Step(accounts, f, a, Step(accounts, f, b, s)) == Step(accounts, f, b, Step(accounts, f, a, s))
    ensures Step(accounts, f, a, Step(accounts, f, b, s)) ==
              Filter((r: Release) => Holds(accounts, f, a, r) && Holds(accounts, f, b, r), s)
  {
    var pa := HoldsFor(accounts, f, a);
    var pb := HoldsFor(accounts, f, b);
    var both := (r: Release) => Holds(accounts, f, a, r) && Holds(accounts, f, b, r);
    StepIsFilter(accounts, f, b, s);
    StepIsFilter(accounts, f, a, Filter(pb, s));
    StepIsFilter(accounts, f, a, s);
    StepIsFilter(accounts, f, b, Filter(pa, s));
    FilterFilter(pb, pa, both, s);
    FilterFilter(pa, pb, both, s);
  }

  /** Three different criteria are all three, so passing them is matching. */
  lemma MatchesIsAllThree(accounts: seq<Account>, f: ReleaseQuery, a: Criterion, b: Criterion, c: Criterion, r: Release)
    requires a != b && b != c && a != c
    ensures Matches(accounts, f, r) == (Holds(accounts, f, a, r) && Holds(accounts, f, b, r) && Holds(accounts, f, c, r))
  {
  }

  /** `handleFilter` is its three steps applied in any order. */
  lemma HandleFilterInAnyOrder(releases: seq<Release>, accounts: seq<Account>, f: ReleaseQuery,
                               a: Criterion, b: Criterion, c: Criterion)
    requires a != b && b != c && a != c
    ensures HandleFilter(releases, accounts, f) == Step(accounts, f, c, Step(accounts, f, b, Step(accounts, f, a, releases)))
  {
    var pa := HoldsFor(accounts, f, a);
    var pab := (r: Release) => Holds(accounts, f, a, r) && Holds(accounts, f, b, r);
    var all := (r: Release) => Matches(accounts, f, r);
    StepIsFilter(accounts, f, a, releases);
    StepIsFilter(accounts, f, b, Filter(pa, releases));
    FilterFilter(pa, HoldsFor(accounts, f, b), pab, releases);
    StepIsFilter(accounts, f, c, Filter(pab, releases));
    forall r ensures all(r) == (pab(r) && Holds(accounts, f, c, r)) {
      MatchesIsAllThree(accounts, f, a, b, c, r);
    }
    FilterFilter(pab, HoldsFor(accounts, f, c), all, releases);
    HandleFilterMatches(releases, accounts, f);
  }

  /** Account names are pairwise different. */
  predicate DistinctNames(accounts: seq<Account>) {
    forall i, j :: 0 <= i < j < |accounts| ==> accounts[i].name != accounts[j].name
  }

  /** The server keeps names distinct even ignoring case. */
  lemma ValidHasDistinctNames(accounts: seq<Account>)
    requires Repository.Valid(accounts)
    ensures DistinctNames(accounts)
  {
    forall i, j | 0 <= i < j < |accounts| ensures accounts[i].name != accounts[j].name {
      if accounts[i].name == accounts[j].name {
        assert SameIgnoringCase(accounts[i].name, accounts[j].name);
      }
    }
  }

  /** With distinct account names, the client's first-account region test
      is the server's "account among the region's accounts" test, so the
      client filter returns what `GET /api/releases` returns before its sort. */
  lemma ClientFilterAgreesWithServer(releases: seq<Release>, accounts: seq<Account>, f: ReleaseQuery)
    requires DistinctNames(accounts)
    ensures HandleFilter(releases, accounts, f) == FilterReleases(releases, accounts, f)
  {
    forall r | true
      ensures Matches(accounts, f, r) == MatchesQuery(r, accounts, f)
    {
      AccountsInRegionMembers(accounts, f.account_region, r.account_name);
      var a := FindAccountByName(accounts, r.account_name);
      if a.Some? {
        var i := IndexOfName(accounts, r.account_name);
        assert accounts[i].name == r.account_name;
      }
    }
    HandleFilterMatches(releases, accounts, f);
    FilterReleasesMatches(releases, accounts, f);
    FilterExt((r: Release) => Matches(accounts, f, r), (r: Release) => MatchesQuery(r, accounts, f), releases);
  }

  /** A navigation tab; `caption` is its `label`. */
  datatype Tab = Tab(id: string, caption: string, icon: string)

  const DashboardTab := Tab("dashboard", "\U{1F4CA} Dashboard", "\U{1F4CA}")
  const ReleasesTab := Tab("releases", "\U{1F4CB} View Releases", "\U{1F4CB}")
  const AdminTab := Tab("admin", "⚙️ Admin Panel", "⚙️")

  predicate IsAdmin(role: string) {
    role == "admin"
  }

  predicate IsReadOnly(role: string) {
    role == "readonly"
  }

  /** `getAvailableTabs`: dashboard, then releases, then the admin panel for
      administrators only. */
  function AvailableTabs(role: string): (tabs: seq<Tab>)
    ensures |tabs| >= 2 && tabs[0] == DashboardTab && tabs[1] == ReleasesTab
    ensures AdminTab in tabs <==> IsAdmin(role)
    ensures |tabs| == if IsAdmin(role) then 3 else 2
  {
    var tabs := [DashboardTab, ReleasesTab];
    if IsAdmin(role) then tabs + [AdminTab] else tabs
  }

  /** What `renderContent` shows. */
  datatype View =
    | DashboardView
    | ReleaseTableView(readOnly: bool)
    | AccessDenied
    | AdminPanelView

  /** `renderContent`: an unknown tab shows the dashboard, and the admin tab
      shows the panel to administrators and a refusal to everyone else. */
  function RenderContent(activeTab: string, role: string): (v: View)
    ensures v == AdminPanelView <==> activeTab == "admin" && IsAdmin(role)
    ensures v == AccessDenied <==> activeTab == "admin" && !IsAdmin(role)
    ensures v.ReleaseTableView? <==> activeTab == "releases"
    ensures v.ReleaseTableView? ==> v.readOnly == IsReadOnly(role)
    ensures v == DashboardView <==> activeTab != "admin" && activeTab != "releases"
  {
    if activeTab == "dashboard" then DashboardView
    else if activeTab == "releases" then ReleaseTableView(IsReadOnly(role))
    else if activeTab == "admin" then (if IsAdmin(role) then AdminPanelView else AccessDenied)
    else DashboardView
  }

  /** The admin panel is reachable exactly when its tab is offered. */
  lemma AdminPanelOnlyForAdmins(activeTab: string, role: string)
    ensures RenderContent(activeTab, role) == AdminPanelView ==> AdminTab in AvailableTabs(role)
    ensures AdminTab in AvailableTabs(role) ==> RenderContent("admin", role) == AdminPanelView
  {
  }
}
