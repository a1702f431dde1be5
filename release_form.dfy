/** The release form of the client: its form fields and defect list as
    component state, the handlers that replace them, the completion-date
    auto-fill, the validation on submit and the derived defect fields the
    server stores without recomputing them. */
module ReleaseForm {
  import opened Common
  import opened Text
  import opened Seqs
  import opened Entities

  /** The form's fields, all held as the strings the inputs show. */
  datatype FormData = FormData(
    account_name: string,
    release_date: string,
    executor: string,
    status: string,
    notes: string,
    release_version: string,
    completion_date: string,
    time_taken_hours: string,
    defects_raised: string,
    defect_details: string,
    completion_notes: string)

  /** The `name` of the input `handleChange` is called from. */
  datatype FormField =
    | AccountName | ReleaseDate | Executor | Status | Notes | ReleaseVersion
    | CompletionDate | TimeTakenHours | DefectsRaised | DefectDetails | CompletionNotes

  function Field(f: FormData, name: FormField): string {
    match name
    case AccountName => f.account_name
    case ReleaseDate => f.release_date
    case Executor => f.executor
    case Status => f.status
    case Notes => f.notes
    case ReleaseVersion => f.release_version
    case CompletionDate => f.completion_date
    case TimeTakenHours => f.time_taken_hours
    case DefectsRaised => f.defects_raised
    case DefectDetails => f.defect_details
    case CompletionNotes => f.completion_notes
  }

  /** `{...formData, [name]: value}`: the named field takes the value, every
      other field keeps its own. */
  function SetField(f: FormData, name: FormField, value: string): (r: FormData)
    ensures Field(r, name) == value
    ensures forall m :: m != name ==> Field(r, m) == Field(f, m)
  {
    match name
    case AccountName => f.(account_name := value)
    case ReleaseDate => f.(release_date := value)
    case Executor => f.(executor := value)
    case Status => f.(status := value)
    case Notes => f.(notes := value)
    case ReleaseVersion => f.(release_version := value)
    case CompletionDate => f.(completion_date := value)
    case TimeTakenHours => f.(time_taken_hours := value)
    case DefectsRaised => f.(defects_raised := value)
    case DefectDetails => f.(defect_details := value)
    case CompletionNotes => f.(completion_notes := value)
  }

  /** The state of a new form: every field empty, the status "Scheduled". */
  const InitialForm: FormData := FormData("", "", "", "Scheduled", "", "", "", "", "", "", "")

  /** The form filled from a release being edited; missing optional fields
      read as "". */
  function FromRelease(r: Release): (f: FormData)
    ensures f.account_name == r.account_name && f.release_date == r.release_date
    ensures f.executor == r.executor && f.status == r.status
    ensures f.notes == r.notes && f.release_version == r.release_version
    ensures f.completion_date == OrEmpty(r.completion_date) && f.time_taken_hours == OrEmpty(r.time_taken_hours)
    ensures f.defects_raised == r.defects_raised && f.defect_details == r.defect_details
    ensures f.completion_notes == r.completion_notes
  {
    FormData(r.account_name, r.release_date, r.executor, r.status, r.notes, r.release_version,
             OrEmpty(r.completion_date), OrEmpty(r.time_taken_hours),
             r.defects_raised, r.defect_details, r.completion_notes)
  }

  /** The one defect a legacy `defect_details` text becomes. */
  function LegacyDefect(details: string): Defect {
    Defect(1, "", details, "Medium", "Open")
  }

  /** The defect list after loading `r`: its `defects` array when it has one,
      else one legacy defect when `defect_details` is set, else the list the
      form already held. */
  function LoadedDefects(r: Release, current: seq<Defect>): (ds: seq<Defect>)
    ensures r.defects.Some? ==> ds == r.defects.value
    ensures r.defects.None? && r.defect_details != "" ==>
              |ds| == 1 && ds[0].defect_id == "" && ds[0].description == r.defect_details
              && ds[0].severity == "Medium" && ds[0].status == "Open"
    ensures r.defects.None? && r.defect_details == "" ==> ds == current
  {
    if r.defects.Some? then r.defects.value
    else if r.defect_details != "" then [LegacyDefect(r.defect_details)]
    else current
  }

  /** `handleChange`: choosing the status "Completed" keeps a completion
      date already entered or fills in `today`; any other change sets only
      the named field. */
  function Changed(f: FormData, name: FormField, value: string, today: string): (r: FormData)
    ensures Field(r, name) == value
    ensures name == Status && value == "Completed" ==>
              r.completion_date == Or(f.completion_date, today)
              && forall m :: m != Status && m != CompletionDate ==> Field(r, m) == Field(f, m)
    ensures !(name == Status && value == "Completed") ==>
              forall m :: m != name ==> Field(r, m) == Field(f, m)
  {
    if name == Status && value == "Completed" then
      f.(status := value, completion_date := Or(f.completion_date, today))
    else SetField(f, name, value)
  }

  /** The defect `addDefect` appends, its id taken from the clock. */
  function NewDefect(nowMs: int): Defect {
    Defect(nowMs, "", "", "Medium", "Open")
  }

  function IdIsNot(id: int): Defect -> bool {
    (d: Defect) => d.id != id
  }

  /** `defects.filter((defect) => defect.id !== defectId)`. */
  function WithoutDefect(ds: seq<Defect>, id: int): (r: seq<Defect>)
    ensures forall k :: 0 <= k < |r| ==> r[k].id != id && r[k] in ds
    ensures forall k :: 0 <= k < |ds| && ds[k].id != id ==> ds[k] in r
    ensures IsSubseq(r, ds)
    ensures |r| == Count(IdIsNot(id), ds)
    ensures forall k :: 0 <= k < |ds| && ds[k].id != id ==> multiset(r)[ds[k]] == multiset(ds)[ds[k]]
  {
    FilterIsSubseq(IdIsNot(id), ds);
    FilterKeepsCopies(IdIsNot(id), ds);
    Filter(IdIsNot(id), ds)
  }

  /** The defect fields the form edits. */
  datatype DefectField = DefectIdField | DescriptionField | SeverityField | StatusField

  function DefectFieldOf(d: Defect, field: DefectField): string {
    match field
    case DefectIdField => d.defect_id
    case DescriptionField => d.description
    case SeverityField => d.severity
    case StatusField => d.status
  }

  /** `{...defect, [field]: value}`. */
  function SetDefectField(d: Defect, field: DefectField, value: string): (r: Defect)
    ensures r.id == d.id && DefectFieldOf(r, field) == value
    ensures forall g :: g != field ==> DefectFieldOf(r, g) == DefectFieldOf(d, g)
  {
    match field
    case DefectIdField => d.(defect_id := value)
    case DescriptionField => d.(description := value)
    case SeverityField => d.(severity := value)
    case StatusField => d.(status := value)
  }

  /** `updateDefect`: every defect with the id gets the value in the named
      field; the list keeps its length and every other defect. */
  function UpdatedDefects(ds: seq<Defect>, id: int, field: DefectField, value: string): (r: seq<Defect>)
    ensures |r| == |ds|
    ensures forall k :: 0 <= k < |ds| && ds[k].id != id ==> r[k] == ds[k]
    ensures forall k :: 0 <= k < |ds| && ds[k].id == id ==>
              r[k].id == id && DefectFieldOf(r[k], field) == value
              && forall g :: g != field ==> DefectFieldOf(r[k], g) == DefectFieldOf(ds[k], g)
  {
    seq(|ds|, k requires 0 <= k < |ds| => if ds[k].id == id then SetDefectField(ds[k], field, value) else ds[k])
  }

  /** The legacy text of one defect, "id: description". */
  function Entry(d: Defect): string {
    d.defect_id + ": " + d.description
  }

  function Entries(ds: seq<Defect>): (r: seq<string>)
    ensures |r| == |ds| && forall k :: 0 <= k < |ds| ==> r[k] == Entry(ds[k])
  {
    seq(|ds|, k requires 0 <= k < |ds| => Entry(ds[k]))
  }

  /** `defect_details` as submitted: the entries joined by "; ". */
  function DetailsText(ds: seq<Defect>): string {
    Join(Entries(ds), "; ")
  }

  /** A defect the completion check refuses: its id or description is blank. */
  predicate Incomplete(d: Defect) {
    IsBlank(d.defect_id) || IsBlank(d.description)
  }

  const MissingCompletionDate := "Please provide completion date for completed releases"
  const MissingTimeTaken := "Please provide time taken for completed releases"
  const IncompleteDefects := "Please fill in all defect IDs and descriptions before submitting"

  /** What `handleSubmit` does: alert and stop, or hand the data to `onSave`. */
  datatype Outcome = Alert(message: string) | Save(data: FormData, defects: seq<Defect>)

  /** `handleSubmit`: a Completed release needs a completion date, a time
      taken, and every defect filled in; the saved data carries the defect
      count and the legacy defect text derived from the list. */
  function Submit(f: FormData, ds: seq<Defect>): (r: Outcome)
    ensures r.Save? <==>
              f.status != "Completed"
              || (f.completion_date != "" && f.time_taken_hours != "" && forall k :: 0 <= k < |ds| ==> !Incomplete(ds[k]))
    ensures f.status == "Completed" && f.completion_date == "" ==> r == Alert(MissingCompletionDate)
    ensures f.status == "Completed" && f.completion_date != "" && f.time_taken_hours == "" ==> r == Alert(MissingTimeTaken)
    ensures (f.status == "Completed" && f.completion_date != "" && f.time_taken_hours != ""
             && exists k :: 0 <= k < |ds| && Incomplete(ds[k])) ==> r == Alert(IncompleteDefects)
    ensures r.Save? ==> r.defects == ds && r.data == f.(defects_raised := NatToString(|ds|), defect_details := DetailsText(ds))
  {
    if f.status == "Completed" && f.completion_date == "" then Alert(MissingCompletionDate)
    else if f.status == "Completed" && f.time_taken_hours == "" then Alert(MissingTimeTaken)
    else if f.status == "Completed" && |ds| > 0 && exists k :: 0 <= k < |ds| && Incomplete(ds[k]) then Alert(IncompleteDefects)
    else Save(f.(defects_raised := NatToString(|ds|), defect_details := DetailsText(ds)), ds)
  }

  /** The saved defect count reads back as the number of defects. */
  lemma SubmittedCountMatches(f: FormData, ds: seq<Defect>)
    requires Submit(f, ds).Save?
    ensures DigitsValue(Submit(f, ds).data.defects_raised) == |Submit(f, ds).defects|
  {
    NatToStringRoundTrip(|ds|);
  }

  /** Appending a defect appends its entry to the legacy text. */
  lemma DetailsTextAppend(ds: seq<Defect>, d: Defect)
    ensures DetailsText(ds + [d]) == if ds == [] then Entry(d) else DetailsText(ds) + "; " + Entry(d)
  {
    assert Entries(ds + [d]) == Entries(ds) + [Entry(d)];
    JoinSnoc(Entries(ds), Entry(d), "; ");
  }

  /** A defect just added has a blank id, so a Completed release cannot be
      saved until it is filled in or removed. */
  lemma AddedDefectBlocksCompletion(f: FormData, ds: seq<Defect>, nowMs: int)
    requires f.status == "Completed" && f.completion_date != "" && f.time_taken_hours != ""
    ensures Submit(f, ds + [NewDefect(nowMs)]) == Alert(IncompleteDefects)
  {
    var all := ds + [NewDefect(nowMs)];
    assert Incomplete(all[|ds|]);
  }

  /** Removing the defect just added, whose id no other defect carries,
      restores the list. */
  lemma {:induction false} RemoveAddedRestores(ds: seq<Defect>, nowMs: int)
    requires forall k :: 0 <= k < |ds| ==> ds[k].id != nowMs
    ensures WithoutDefect(ds + [NewDefect(nowMs)], nowMs) == ds
  {
    FilterConcat(IdIsNot(nowMs), ds, [NewDefect(nowMs)]);
    FilterAll(IdIsNot(nowMs), ds);
    assert Filter(IdIsNot(nowMs), [NewDefect(nowMs)]) == [];
  }

  /** Updating or removing an id no defect carries changes nothing. */
  lemma AbsentIdIsNoOp(ds: seq<Defect>, id: int, field: DefectField, value: string)
    requires forall k :: 0 <= k < |ds| ==> ds[k].id != id
    ensures UpdatedDefects(ds, id, field, value) == ds
    ensures WithoutDefect(ds, id) == ds
  {
    FilterAll(IdIsNot(id), ds);
  }

  /** The component's state: the form fields and the defect list, each
      replaced by its setter. */
  class FormState {
    var formData: FormData
    var defects: seq<Defect>

    constructor ()
      ensures formData == InitialForm && defects == []
    {
      formData := InitialForm;
      defects := [];
    }

    /** The effect run when the form opens on an existing release. */
    method Load(release: Release)
      modifies this
      ensures formData == FromRelease(release)
      ensures defects == LoadedDefects(release, old(defects))
    {
      formData := FromRelease(release);
      if release.defects.Some? {
        defects := release.defects.value;
      } else if release.defect_details != "" {
        defects := [LegacyDefect(release.defect_details)];
      }
    }

    method HandleChange(name: FormField, value: string, today: string)
      modifies this
      ensures formData == Changed(old(formData), name, value, today)
      ensures defects == old(defects)
    {
      if name == Status && value == "Completed" {
        formData := formData.(status := value, completion_date := Or(formData.completion_date, today));
      } else {
        formData := SetField(formData, name, value);
      }
    }

    method AddDefect(nowMs: int)
      modifies this
      ensures defects == old(defects) + [NewDefect(nowMs)]
      ensures formData == old(formData)
    {
      defects := defects + [NewDefect(nowMs)];
    }

    method RemoveDefect(id: int)
      modifies this
      ensures defects == WithoutDefect(old(defects), id)
      ensures formData == old(formData)
    {
      defects := WithoutDefect(defects, id);
    }

    method UpdateDefect(id: int, field: DefectField, value: string)
      modifies this
      ensures defects == UpdatedDefects(old(defects), id, field, value)
      ensures formData == old(formData)
    {
      defects := UpdatedDefects(defects, id, field, value);
    }

    /** `handleSubmit` on the current state. */
    function HandleSubmit(): (r: Outcome)
      reads this
      ensures r.Save? ==> r.defects == defects && r.data.status == formData.status
      ensures formData.status != "Completed" ==> r.Save?
    {
      Submit(formData, defects)
    }
  }
}
