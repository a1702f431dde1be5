/** The release-version editor: its form state, the feature list being
    edited with a typed, prioritised draft feature, and the icons shown for
    a feature's type and priority. The component state is a class whose
    fields its handlers replace; `Date.now()` is the parameter `now`. */
module ReleaseVersionManager {
  import opened Common
  import opened Text
  import opened Seqs
  import opened Entities

  /** A feature as the editor holds it. A feature loaded from the server
      has no type or priority; they read as "". */
  datatype EditedFeature = EditedFeature(id: int, name: string, description: string, kind: string, priority: string)

  /** `currentFeature`, the feature being typed in. */
  datatype Draft = Draft(name: string, description: string, kind: string, priority: string)

  datatype VersionForm = VersionForm(name: string, description: string, features: seq<EditedFeature>)

  const EmptyDraft := Draft("", "", "Enhancement", "Medium")
  const EmptyVersionForm := VersionForm("", "", [])

  /** The guard of `addFeature`: both trimmed texts are non-empty. */
  predicate CanAdd(d: Draft) {
    !IsBlank(d.name) && !IsBlank(d.description)
  }

  /** `{ id: Date.now(), ...currentFeature }`. */
  function FromDraft(d: Draft, now: int): (f: EditedFeature)
    ensures f.id == now && f.name == d.name && f.description == d.description
    ensures f.kind == d.kind && f.priority == d.priority
  {
    EditedFeature(now, d.name, d.description, d.kind, d.priority)
  }

  function Loaded(f: Feature): EditedFeature {
    EditedFeature(f.id, f.name, f.description, "", "")
  }

  /** `region.features || []`, as the editor holds them. */
  function LoadedFeatures(v: ReleaseVersion): (fs: seq<EditedFeature>)
    ensures v.info.features.None? ==> fs == []
    ensures v.info.features.Some? ==>
              (|fs| == |v.info.features.value| && forall k :: 0 <= k < |fs| ==> fs[k] == Loaded(v.info.features.value[k]))
  {
    if v.info.features.None? then []
    else seq(|v.info.features.value|, k requires 0 <= k < |v.info.features.value| => Loaded(v.info.features.value[k]))
  }

  function IdIsNot(id: int): EditedFeature -> bool {
    (f: EditedFeature) => f.id != id
  }

  /** `features.filter((feature) => feature.id !== featureId)`. */
  function WithoutFeature(fs: seq<EditedFeature>, id: int): (r: seq<EditedFeature>)
    ensures IsSubseq(r, fs)
    ensures forall k :: 0 <= k < |r| ==> r[k].id != id
    ensures forall k :: 0 <= k < |fs| && fs[k].id != id ==> fs[k] in r
    ensures |r| == Count(IdIsNot(id), fs)
    ensures forall k :: 0 <= k < |fs| && fs[k].id != id ==> multiset(r)[fs[k]] == multiset(fs)[fs[k]]
  {
    FilterIsSubseq(IdIsNot(id), fs);
    FilterKeepsCopies(IdIsNot(id), fs);
    Filter(IdIsNot(id), fs)
  }

  /** Removing a feature whose id no other feature has undoes adding it. */
  lemma RemoveAddedRestores(fs: seq<EditedFeature>, f: EditedFeature)
    requires forall k :: 0 <= k < |fs| ==> fs[k].id != f.id
    ensures WithoutFeature(fs + [f], f.id) == fs
  {
    FilterConcat(IdIsNot(f.id), fs, [f]);
    FilterAll(IdIsNot(f.id), fs);
    assert Filter(IdIsNot(f.id), [f]) == [];
  }

  /** Removing an id no feature has changes nothing. */
  lemma RemoveAbsentIsNoOp(fs: seq<EditedFeature>, id: int)
    requires forall k :: 0 <= k < |fs| ==> fs[k].id != id
    ensures WithoutFeature(fs, id) == fs
  {
    FilterAll(IdIsNot(id), fs);
  }

  const FeatureTypes: seq<string> := ["New Feature", "Enhancement", "Bug Fix", "Security", "Performance"]
  const TypeIcons: seq<string> := ["\U{1F195}", "\U{26A1}", "\U{1F41B}", "\U{1F512}", "\U{1F680}"]
  const DefaultTypeIcon: string := "\U{1F4CB}"

  const Priorities: seq<string> := ["Critical", "High", "Medium", "Low"]
  const PriorityIcons: seq<string> := ["\U{1F534}", "\U{1F7E0}", "\U{1F7E1}", "\U{1F7E2}"]
  const DefaultPriorityIcon: string := "\U{26AA}"

  /** `getFeatureTypeIcon`. */
  function FeatureTypeIcon(kind: string): (icon: string)
    ensures forall i :: 0 <= i < |FeatureTypes| && kind == FeatureTypes[i] ==> icon == TypeIcons[i]
    ensures kind !in FeatureTypes ==> icon == DefaultTypeIcon
  {
    match kind
    case "New Feature" => "\U{1F195}"
    case "Enhancement" => "\U{26A1}"
    case "Bug Fix" => "\U{1F41B}"
    case "Security" => "\U{1F512}"
    case "Performance" => "\U{1F680}"
    case _ => "\U{1F4CB}"
  }

  /** `getPriorityIcon`. */
  function PriorityIcon(priority: string): (icon: string)
    ensures forall i :: 0 <= i < |Priorities| && priority == Priorities[i] ==> icon == PriorityIcons[i]
    ensures priority !in Priorities ==> icon == DefaultPriorityIcon
  {
    match priority
    case "Critical" => "\U{1F534}"
    case "High" => "\U{1F7E0}"
    case "Medium" => "\U{1F7E1}"
    case "Low" => "\U{1F7E2}"
    case _ => "\U{26AA}"
  }

  /** The icon tells the type: different types show different icons, and
      only an unknown type shows the default one. */
  lemma TypeIconsIdentify(a: string, b: string)
    ensures a in FeatureTypes && b in FeatureTypes && a != b ==> FeatureTypeIcon(a) != FeatureTypeIcon(b)
    ensures FeatureTypeIcon(a) == DefaultTypeIcon <==> a !in FeatureTypes
  {
  }

  /** The icon tells the priority, and only an unknown priority shows the
      default one. */
  lemma PriorityIconsIdentify(a: string, b: string)
    ensures a in Priorities && b in Priorities && a != b ==> PriorityIcon(a) != PriorityIcon(b)
    ensures PriorityIcon(a) == DefaultPriorityIcon <==> a !in Priorities
  {
  }

  /** The component's state. */
  class VersionEditor {
    var showForm: bool
    var editing: Option<ReleaseVersion>
    var formData: VersionForm
    var currentFeature: Draft

    constructor()
      ensures !showForm && editing.None? && formData == EmptyVersionForm && currentFeature == EmptyDraft
    {
      showForm := false;
      editing := None;
      formData := EmptyVersionForm;
      currentFeature := EmptyDraft;
    }

    /** `addFeature`: with a usable draft, the feature is appended last and
        the draft is cleared; otherwise nothing changes. */
    method AddFeature(now: int)
      modifies this
      ensures CanAdd(old(currentFeature)) ==>
                formData == old(formData).(features := old(formData.features) + [FromDraft(old(currentFeature), now)])
                && currentFeature == EmptyDraft
      ensures !CanAdd(old(currentFeature)) ==> formData == old(formData) && currentFeature == old(currentFeature)
      ensures showForm == old(showForm) && editing == old(editing)
    {
      if CanAdd(currentFeature) {
        var feature := FromDraft(currentFeature, now);
        formData := formData.(features := formData.features + [feature]);
        currentFeature := EmptyDraft;
      }
    }

    /** `removeFeature`: every feature with the id is dropped. */
    method RemoveFeature(id: int)
      modifies this
      ensures formData == old(formData).(features := WithoutFeature(old(formData.features), id))
      ensures showForm == old(showForm) && editing == old(editing) && currentFeature == old(currentFeature)
    {
      formData := formData.(features := WithoutFeature(formData.features, id));
    }

    /** `handleEdit`: the version's fields, a missing feature list read as []. */
    method HandleEdit(v: ReleaseVersion)
      modifies this
      ensures editing == Some(v) && showForm
      ensures formData == VersionForm(v.name, v.info.description, LoadedFeatures(v))
      ensures currentFeature == old(currentFeature)
    {
      editing := Some(v);
      formData := VersionForm(v.name, v.info.description, LoadedFeatures(v));
      showForm := true;
    }

    /** `handleCancel`, and the end of a successful `handleSubmit`: the form
        is closed, and the form and the draft are emptied. */
    method Reset()
      modifies this
      ensures !showForm && editing.None? && formData == EmptyVersionForm && currentFeature == EmptyDraft
    {
      showForm := false;
      editing := None;
      formData := EmptyVersionForm;
      currentFeature := EmptyDraft;
    }
  }
}
