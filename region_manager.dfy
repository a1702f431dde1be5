/** The older release-version editor: a form with a feature list and an
    untyped draft feature. The component state is a class whose fields its
    handlers replace; `Date.now()` is the parameter `now`. */
module RegionManager {
  import opened Common
  import opened Text
  import opened Seqs
  import opened Entities

  /** `currentFeature`, the feature being typed in. */
  datatype Draft = Draft(name: string, description: string)

  datatype RegionForm = RegionForm(name: string, description: string, features: seq<Feature>)

  const EmptyDraft := Draft("", "")
  const EmptyRegionForm := RegionForm("", "", [])

  /** The guard of `addFeature`: both trimmed texts are non-empty. */
  predicate CanAdd(d: Draft) {
    !IsBlank(d.name) && !IsBlank(d.description)
  }

  function IdIsNot(id: int): Feature -> bool {
    (f: Feature) => f.id != id
  }

  /** `features.filter((feature) => feature.id !== featureId)`. */
  function WithoutFeature(fs: seq<Feature>, id: int): (r: seq<Feature>)
    ensures IsSubseq(r, fs)
    ensures forall k :: 0 <= k < |r| ==> r[k].id != id
    ensures forall k :: 0 <= k < |fs| && fs[k].id != id ==> fs[k] in r
    ensures |r| == Count(IdIsNot(id), fs)
    ensures forall k :: 0 <= k < |fs| && fs[k].id != id ==> multiset(r)[fs[k]] == multiset(fs)[fs[k]]
  {
    FilterIsSubseq(IdIsNot(id), fs);
    FilterKeepsCopies(IdIsNot(id), fs);
    Filter(IdIsNot(id), fs)
  }

  /** Removing a feature whose id no other feature has undoes adding it. */
  lemma RemoveAddedRestores(fs: seq<Feature>, f: Feature)
    requires forall k :: 0 <= k < |fs| ==> fs[k].id != f.id
    ensures WithoutFeature(fs + [f], f.id) == fs
  {
    FilterConcat(IdIsNot(f.id), fs, [f]);
    FilterAll(IdIsNot(f.id), fs);
    assert Filter(IdIsNot(f.id), [f]) == [];
  }

  /** The component's state. */
  class RegionEditor {
    var showForm: bool
    var editing: Option<ReleaseVersion>
    var formData: RegionForm
    var currentFeature: Draft

    constructor()
      ensures !showForm && editing.None? && formData == EmptyRegionForm && currentFeature == EmptyDraft
    {
      showForm := false;
      editing := None;
      formData := EmptyRegionForm;
      currentFeature := EmptyDraft;
    }

    /** `addFeature`: with a usable draft, `{ id: now, ...currentFeature }`
        is appended last and the draft is cleared; otherwise nothing changes. */
    method AddFeature(now: int)
      modifies this
      ensures CanAdd(old(currentFeature)) ==>
                formData == old(formData).(features := old(formData.features)
                  + [Feature(now, old(currentFeature).name, old(currentFeature).description)])
                && currentFeature == EmptyDraft
      ensures !CanAdd(old(currentFeature)) ==> formData == old(formData) && currentFeature == old(currentFeature)
      ensures showForm == old(showForm) && editing == old(editing)
    {
      if CanAdd(currentFeature) {
        var feature := Feature(now, currentFeature.name, currentFeature.description);
        formData := formData.(features := formData.features + [feature]);
        currentFeature := EmptyDraft;
      }
    }

    /** `removeFeature`: every feature with the id is dropped. */
    method RemoveFeature(id: int)
      modifies this
      ensures formData == old(formData).(features := WithoutFeature(old(formData.features), id))
      ensures showForm == old(showForm) && editing == old(editing) && currentFeature == old(currentFeature)
    {
      formData := formData.(features := WithoutFeature(formData.features, id));
    }

    /** `handleEdit`: the version's fields, a missing feature list read as []. */
    method HandleEdit(v: ReleaseVersion)
      modifies this
      ensures editing == Some(v) && showForm
      ensures formData == RegionForm(v.name, v.info.description, if v.info.features.Some? then v.info.features.value else [])
      ensures currentFeature == old(currentFeature)
    {
      editing := Some(v);
      formData := RegionForm(v.name, v.info.description, if v.info.features.Some? then v.info.features.value else []);
      showForm := true;
    }

    /** `handleCancel`, and the end of a successful `handleSubmit`: the form
        is closed, and the form and the draft are emptied. */
    method Reset()
      modifies this
      ensures !showForm && editing.None? && formData == EmptyRegionForm && currentFeature == EmptyDraft
    {
      showForm := false;
      editing := None;
      formData := EmptyRegionForm;
      currentFeature := EmptyDraft;
    }
  }
}
