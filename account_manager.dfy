/** The accounts screen: the region filter over the account list, the
    accounts-per-region tiles, the product checkboxes of the account form,
    and the form's edit and reset transitions. */
module AccountManager {
  import opened Common
  import opened Seqs
  import opened Entities

  /** The regions the form offers, in display order. */
  const RegionNames: seq<string> := ["APAC", "CALA", "EMEA", "Cluster M", "Cluster R"]
  /** The products the form offers. */
  const ProductNames: seq<string> := ["Monitoring", "SRE"]

  function RegionOf(a: Account): string {
    a.info.region
  }

  /** `filteredAccounts`: every account when no region is chosen, else the
      accounts with exactly that region. */
  function FilteredAccounts(accounts: seq<Account>, filterRegion: string): (r: seq<Account>)
    ensures |r| <= |accounts| && forall k :: 0 <= k < |r| ==> r[k] in accounts
  {
    if filterRegion != "" then Filter(KeyEquals(RegionOf, filterRegion), accounts) else accounts
  }

  /** The shown accounts are a subsequence of the accounts, and an account
      is shown exactly when no region is chosen or it has that region. */
  lemma FilteredAccountsSpec(accounts: seq<Account>, filterRegion: string)
    ensures IsSubseq(FilteredAccounts(accounts, filterRegion), accounts)
    ensures filterRegion == "" ==> FilteredAccounts(accounts, filterRegion) == accounts
    ensures forall k :: 0 <= k < |FilteredAccounts(accounts, filterRegion)| ==>
              filterRegion == "" || FilteredAccounts(accounts, filterRegion)[k].info.region == filterRegion
    ensures forall k :: 0 <= k < |accounts| && (filterRegion == "" || accounts[k].info.region == filterRegion) ==>
              accounts[k] in FilteredAccounts(accounts, filterRegion)
  {
    if filterRegion != "" {
      var p := KeyEquals(RegionOf, filterRegion);
      var r := Filter(p, accounts);
      assert FilteredAccounts(accounts, filterRegion) == r;
      FilterIsSubseq(p, accounts);
      forall k | 0 <= k < |r| ensures r[k].info.region == filterRegion {
        assert p(r[k]);
        assert RegionOf(r[k]) == filterRegion;
      }
      forall k | 0 <= k < |accounts| && accounts[k].info.region == filterRegion ensures accounts[k] in r {
        assert RegionOf(accounts[k]) == filterRegion;
        assert p(accounts[k]);
      }
    } else {
      SubseqRefl(accounts);
    }
  }

  /** One tile: a region and its number of accounts. */
  datatype RegionStat = RegionStat(name: string, count: nat)

  /** `getRegionStats`: one tile per offered region, in order, counting the
      accounts with exactly that region. */
  function GetRegionStats(accounts: seq<Account>): (r: seq<RegionStat>)
    ensures |r| == |RegionNames|
    ensures forall i :: 0 <= i < |RegionNames| ==>
              r[i].name == RegionNames[i] && r[i].count == Count(KeyEquals(RegionOf, RegionNames[i]), accounts)
  {
    seq(|RegionNames|, i requires 0 <= i < |RegionNames| =>
      RegionStat(RegionNames[i], Count(KeyEquals(RegionOf, RegionNames[i]), accounts)))
  }

  function Counts(stats: seq<RegionStat>): (r: seq<nat>)
    ensures |r| == |stats| && forall i :: 0 <= i < |stats| ==> r[i] == stats[i].count
  {
    seq(|stats|, i requires 0 <= i < |stats| => stats[i].count)
  }

  /** The tiles together with the accounts of any other region make up all
      accounts, so the tiles never count more accounts than there are. */
  lemma RegionStatsSum(accounts: seq<Account>)
    ensures Sum(Counts(GetRegionStats(accounts))) + Count(KeyNotAmong(RegionOf, RegionNames), accounts) == |accounts|
    ensures Sum(Counts(GetRegionStats(accounts))) <= |accounts|
  {
    var c := Counts(GetRegionStats(accounts));
    var d := CountsPer(RegionOf, RegionNames, accounts);
    forall i | 0 <= i < |RegionNames| ensures c[i] == d[i] {
    }
    assert c == d;
    CountsPerPartition(RegionOf, RegionNames, accounts);
  }

  /** The account form. */
  datatype AccountForm = AccountForm(name: string, region: string, products: seq<string>)

  const EmptyAccountForm := AccountForm("", "", [])

  /** `formData.products?.includes(product)`: whether the box is ticked. */
  predicate Checked(f: AccountForm, product: string) {
    product in f.products
  }

  function IsNotProduct(product: string): string -> bool {
    (p: string) => p != product
  }

  /** A product checkbox's `onChange`: ticking appends the product, clearing
      it drops every occurrence. */
  function ToggleProduct(f: AccountForm, product: string, checked: bool): (r: AccountForm)
    ensures r.name == f.name && r.region == f.region
    ensures checked ==> r.products == f.products + [product]
    ensures !checked ==> r.products == Filter(IsNotProduct(product), f.products)
    ensures Checked(r, product) == checked
  {
    if checked then f.(products := f.products + [product])
    else f.(products := Filter(IsNotProduct(product), f.products))
  }

  /** Clearing a box keeps every other product, in order. */
  lemma UncheckKeepsOthers(f: AccountForm, product: string)
    ensures IsSubseq(ToggleProduct(f, product, false).products, f.products)
    ensures forall k :: 0 <= k < |f.products| && f.products[k] != product ==>
              f.products[k] in ToggleProduct(f, product, false).products
  {
    FilterIsSubseq(IsNotProduct(product), f.products);
  }

  /** Ticking an unticked box and clearing it again restores the form. */
  lemma CheckThenUncheck(f: AccountForm, product: string)
    requires !Checked(f, product)
    ensures ToggleProduct(ToggleProduct(f, product, true), product, false) == f
  {
    FilterConcat(IsNotProduct(product), f.products, [product]);
    FilterAll(IsNotProduct(product), f.products);
    assert Filter(IsNotProduct(product), [product]) == [];
  }

  /** The component's form state. */
  datatype FormState = FormState(showForm: bool, editing: Option<Account>, form: AccountForm)

  const InitialState := FormState(false, None, EmptyAccountForm)

  /** `handleEdit`: the account's fields, a missing product list read as []. */
  function HandleEdit(s: FormState, a: Account): (r: FormState)
    ensures r.showForm && r.editing == Some(a)
    ensures r.form.name == a.name && r.form.region == a.info.region
    ensures a.info.products.None? ==> r.form.products == []
    ensures a.info.products.Some? ==> r.form.products == a.info.products.value
  {
    FormState(true, Some(a), AccountForm(a.name, a.info.region, if a.info.products.Some? then a.info.products.value else []))
  }

  /** `handleCancel`, and the end of a successful `handleSubmit`: the form
      is closed and emptied, whatever it held. */
  function ResetForm(s: FormState): (r: FormState)
    ensures !r.showForm && r.editing.None? && r.form == EmptyAccountForm
  {
    InitialState
  }

  lemma ResetIdempotent(s: FormState, a: Account)
    ensures ResetForm(ResetForm(s)) == ResetForm(s)
    ensures ResetForm(HandleEdit(s, a)) == InitialState
  {
  }
}
