/** The collection logic shared by the account and release-version handlers
    of the server: id assignment, case-insensitive name uniqueness, update by
    index and delete by id, together with the invariant they keep. */
module Repository {
  import opened Common
  import opened Text
  import opened Seqs
  import opened Entities

  /** `Math.max(...ids, 0) + 1`: one more than the largest id, or 1 when
      there is no positive id. */
  function NextId(ids: seq<int>): (r: int)
    ensures r >= 1
    ensures forall k :: 0 <= k < |ids| ==> ids[k] < r
    ensures r == 1 || r - 1 in ids
  {
    if ids == [] then 1
    else
      var rest := NextId(ids[1..]);
      if ids[0] + 1 > rest then ids[0] + 1 else rest
  }

  function Ids<D>(s: seq<Record<D>>): (ids: seq<int>)
    ensures |ids| == |s| && forall k :: 0 <= k < |s| ==> ids[k] == s[k].id
  {
    seq(|s|, k requires 0 <= k < |s| => s[k].id)
  }

  /** The name check of a create: some record's name equals `name` once both
      are lower-cased. */
  predicate NameTaken<D>(s: seq<Record<D>>, name: string) {
    exists k :: 0 <= k < |s| && SameIgnoringCase(s[k].name, name)
  }

  /** The name check of an update: a record with a different id already
      carries the name, ignoring case. */
  predicate NameTakenByOther<D>(s: seq<Record<D>>, name: string, id: int) {
    exists k :: 0 <= k < |s| && SameIgnoringCase(s[k].name, name) && s[k].id != id
  }

  /** `findIndex((r) => r.id === id)`. */
  function IndexOfId<D>(s: seq<Record<D>>, id: int): (k: int)
    ensures -1 <= k < |s|
    ensures k == -1 <==> forall j :: 0 <= j < |s| ==> s[j].id != id
    ensures k >= 0 ==> s[k].id == id && forall j :: 0 <= j < k ==> s[j].id != id
  {
    IndexWhere(s, (r: Record<D>) => r.id == id)
  }

  /** `find((r) => r.id === id)`. */
  function FindById<D>(s: seq<Record<D>>, id: int): (r: Option<Record<D>>)
    ensures r.None? <==> forall j :: 0 <= j < |s| ==> s[j].id != id
    ensures r.Some? ==> r.value.id == id && r.value in s
    ensures r.Some? ==> r == Some(s[IndexOfId(s, id)])
  {
    var k := IndexOfId(s, id);
    if k == -1 then None else Some(s[k])
  }

  /** The state every handler keeps: ids are distinct, names are distinct
      ignoring case, and every name is stored in upper case. */
  predicate Valid<D>(s: seq<Record<D>>) {
    (forall i, j :: 0 <= i < j < |s| ==> s[i].id != s[j].id && !SameIgnoringCase(s[i].name, s[j].name))
    && forall i :: 0 <= i < |s| ==> IsUpper(s[i].name)
  }

  /** The record a successful create appends. */
  function NewRecord<D>(s: seq<Record<D>>, name: string, info: D, createdAt: string): (r: Record<D>)
    ensures r.id !in Ids(s) && r.id >= 1
    ensures r.name == Upper(name) && SameIgnoringCase(r.name, name)
    ensures r.info == info && r.created_at == createdAt && r.updated_at.None?
  {
    UpperKeepsIdentity(name);
    Record(NextId(Ids(s)), Upper(name), info, createdAt, None)
  }

  /** What a successful update writes at index `k`: the old record with the
      new upper-cased name, details and update time. */
  function Replace<D>(s: seq<Record<D>>, k: nat, name: string, info: D, updatedAt: string): (r: seq<Record<D>>)
    requires k < |s|
    ensures |r| == |s|
    ensures forall j :: 0 <= j < |s| && j != k ==> r[j] == s[j]
    ensures r[k].id == s[k].id && r[k].created_at == s[k].created_at
    ensures r[k].name == Upper(name) && r[k].info == info && r[k].updated_at == Some(updatedAt)
  {
    s[k := s[k].(name := Upper(name), info := info, updated_at := Some(updatedAt))]
  }

  function IdDiffers<D>(id: int): Record<D> -> bool {
    (x: Record<D>) => x.id != id
  }

  /** `filter((r) => r.id !== id)`. */
  function RemoveId<D>(s: seq<Record<D>>, id: int): (r: seq<Record<D>>)
    ensures forall k :: 0 <= k < |r| ==> r[k].id != id && r[k] in s
    ensures forall k :: 0 <= k < |s| && s[k].id != id ==> s[k] in r
    ensures IsSubseq(r, s)
    ensures |r| == Count(IdDiffers(id), s)
    ensures forall k :: 0 <= k < |s| && s[k].id != id ==> multiset(r)[s[k]] == multiset(s)[s[k]]
  {
    FilterIsSubseq(IdDiffers(id), s);
    FilterKeepsCopies(IdDiffers(id), s);
    Filter(IdDiffers(id), s)
  }

  /** The delete guard: the record with this id exists and some reference
      (a release's `account_name` or `release_version`) equals its name. */
  predicate Referenced<D>(s: seq<Record<D>>, id: int, refs: seq<string>) {
    var found := FindById(s, id);
    found.Some? && found.value.name in refs
  }

  lemma CreatePreservesValid<D>(s: seq<Record<D>>, name: string, info: D, createdAt: string)
    requires Valid(s) && !NameTaken(s, name)
    ensures Valid(s + [NewRecord(s, name, info, createdAt)])
  {
    var x := NewRecord(s, name, info, createdAt);
    var t := s + [x];
    UpperKeepsIdentity(name);
    forall i, j | 0 <= i < j < |t| ensures t[i].id != t[j].id && !SameIgnoringCase(t[i].name, t[j].name) {
      if j == |s| {
        assert Ids(s)[i] == t[i].id;
        assert !SameIgnoringCase(s[i].name, name);
        SameIgnoringCaseIsEquivalence(t[i].name, x.name, name);
      }
    }
  }

  lemma UpdatePreservesValid<D>(s: seq<Record<D>>, id: int, name: string, info: D, updatedAt: string)
    requires Valid(s) && IndexOfId(s, id) >= 0 && !NameTakenByOther(s, name, id)
    ensures Valid(Replace(s, IndexOfId(s, id), name, info, updatedAt))
  {
    var k := IndexOfId(s, id);
    var t := Replace(s, k, name, info, updatedAt);
    UpperKeepsIdentity(name);
    forall i, j | 0 <= i < j < |t| ensures t[i].id != t[j].id && !SameIgnoringCase(t[i].name, t[j].name) {
      if i == k || j == k {
        var o := if i == k then j else i;
        assert t[o] == s[o] && s[o].id != id;
        assert !SameIgnoringCase(s[o].name, name);
        SameIgnoringCaseIsEquivalence(t[o].name, t[k].name, name);
        SameIgnoringCaseIsEquivalence(t[k].name, t[o].name, name);
      }
    }
  }

  lemma DeletePreservesValid<D>(s: seq<Record<D>>, id: int)
    requires Valid(s)
    ensures Valid(RemoveId(s, id))
  {
    var rel := (a: Record<D>, b: Record<D>) => a.id != b.id && !SameIgnoringCase(a.name, b.name);
    assert Pairwise(s, rel);
    FilterPairwise((x: Record<D>) => x.id != id, s, rel);
  }

  /** Creating a record and then deleting it by its new id gives back the
      collection as it was. */
  lemma {:induction false} CreateThenDeleteRestores<D>(s: seq<Record<D>>, name: string, info: D, createdAt: string)
    ensures RemoveId(s + [NewRecord(s, name, info, createdAt)], NextId(Ids(s))) == s
  {
    var x := NewRecord(s, name, info, createdAt);
    var p := (r: Record<D>) => r.id != x.id;
    forall k | 0 <= k < |s| ensures p(s[k]) {
      assert Ids(s)[k] == s[k].id;
    }
    FilterConcat(p, s, [x]);
    FilterAll(p, s);
    assert Filter(p, [x]) == [];
  }

  /** Deleting an id no record carries changes nothing. */
  lemma DeleteAbsentIsNoOp<D>(s: seq<Record<D>>, id: int)
    requires FindById(s, id).None?
    ensures RemoveId(s, id) == s
  {
    FilterAll((x: Record<D>) => x.id != id, s);
  }

  /** Once the record is deleted, its name is free again: a create with the
      same name passes the uniqueness check. */
  lemma DeleteFreesName<D>(s: seq<Record<D>>, id: int)
    requires Valid(s) && FindById(s, id).Some?
    ensures !NameTaken(RemoveId(s, id), FindById(s, id).value.name)
  {
    var x := FindById(s, id).value;
    var r := RemoveId(s, id);
    var i := IndexOfId(s, id);
    forall k | 0 <= k < |r| ensures !SameIgnoringCase(r[k].name, x.name) {
      var j :| 0 <= j < |s| && s[j] == r[k];
      assert j != i;
      if j < i {
        assert !SameIgnoringCase(s[j].name, s[i].name);
      } else {
        assert !SameIgnoringCase(s[i].name, s[j].name);
        SameIgnoringCaseIsEquivalence(s[j].name, s[i].name, s[i].name);
      }
    }
  }

  /** A delete the guard lets through keeps every reference resolvable: a
      reference that named a record before still names one afterwards. */
  lemma DeleteKeepsReferences<D>(s: seq<Record<D>>, id: int, refs: seq<string>)
    requires Valid(s) && !Referenced(s, id, refs)
    ensures forall k :: 0 <= k < |refs| && (exists j :: 0 <= j < |s| && s[j].name == refs[k]) ==>
              exists j :: 0 <= j < |RemoveId(s, id)| && RemoveId(s, id)[j].name == refs[k]
  {
    var r := RemoveId(s, id);
    forall k | 0 <= k < |refs| && (exists j :: 0 <= j < |s| && s[j].name == refs[k])
      ensures exists j :: 0 <= j < |r| && r[j].name == refs[k]
    {
      var j :| 0 <= j < |s| && s[j].name == refs[k];
      var i := IndexOfId(s, id);
      if i >= 0 {
        assert s[i].name !in refs;
        assert i != j;
        if i < j { assert s[i].id != s[j].id; } else { assert s[j].id != s[i].id; }
      }
      RemoveIdKeeps(s, id, j);
      var m :| 0 <= m < |r| && r[m] == s[j];
    }
  }

  lemma RemoveIdKeeps<D>(s: seq<Record<D>>, id: int, j: int)
    requires 0 <= j < |s| && s[j].id != id
    ensures exists m :: 0 <= m < |RemoveId(s, id)| && RemoveId(s, id)[m] == s[j]
  {
    assert s[j] in RemoveId(s, id);
  }
}
