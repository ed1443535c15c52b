/**
  The client-side state of the new-project wizard: the editable milestone
  list, the two step validators and the owner sent on submission.
 */
module ProjectWizard {
  import opened Common
  import opened Validation

  /** A milestone row of the form, with the fields as the inputs hold them. */
  datatype DraftMilestone = DraftMilestone(
    indexNo: int,
    name: string,
    description: string,
    dueDate: string,
    weightPercent: int)

  /** The project form; an unchosen department or owner is the empty string. */
  datatype ProjectDraft = ProjectDraft(
    code: string,
    name: string,
    description: string,
    departmentId: string,
    fiscalYear: int,
    ownerId: string,
    startDate: string,
    endDate: string,
    budget: string,
    createDriveFolders: bool)

  /** The row the wizard starts with and appends: empty fields, weight 0. */
  function Blank(indexNo: int): DraftMilestone {
    DraftMilestone(indexNo, "", "", "", 0)
  }

  /** The milestones are numbered 1, 2, ... in list order. */
  predicate Numbered(ms: seq<DraftMilestone>) {
    forall i :: 0 <= i < |ms| ==> ms[i].indexNo == i + 1
  }

  /** The initial list: one blank row numbered 1. */
  function InitialMilestones(): (r: seq<DraftMilestone>)
    ensures |r| == 1 && r[0].indexNo == 1 && r[0].weightPercent == 0
    ensures Numbered(r)
  {
    [Blank(1)]
  }

  /** `addMilestone`: one blank row numbered one past the old length, after the unchanged rows. */
  function AddMilestone(ms: seq<DraftMilestone>): (r: seq<DraftMilestone>)
    ensures |r| == |ms| + 1 && r[..|ms|] == ms
    ensures r[|ms|] == Blank(|ms| + 1)
  {
    ms + [Blank(|ms| + 1)]
  }

  lemma AddKeepsNumbering(ms: seq<DraftMilestone>)
    requires Numbered(ms)
    ensures Numbered(AddMilestone(ms))
  {
  }

  /** The edits the milestone inputs make: one field each, never `index_no`. */
  datatype MilestoneEdit =
    | SetName(name: string)
    | SetDescription(description: string)
    | SetDueDate(dueDate: string)
    | SetWeight(weightPercent: int)

  function ApplyEdit(m: DraftMilestone, e: MilestoneEdit): (r: DraftMilestone)
    ensures r.indexNo == m.indexNo
    ensures r.name == (if e.SetName? then e.name else m.name)
    ensures r.description == (if e.SetDescription? then e.description else m.description)
    ensures r.dueDate == (if e.SetDueDate? then e.dueDate else m.dueDate)
    ensures r.weightPercent == (if e.SetWeight? then e.weightPercent else m.weightPercent)
  {
    match e
    case SetName(v) => m.(name := v)
    case SetDescription(v) => m.(description := v)
    case SetDueDate(v) => m.(dueDate := v)
    case SetWeight(v) => m.(weightPercent := v)
  }

  /** `handleMilestoneChange`: the row at `index` gets the edit, every other row stays. */
  function ChangeMilestone(ms: seq<DraftMilestone>, index: nat, e: MilestoneEdit): (r: seq<DraftMilestone>)
    requires index < |ms|
    ensures |r| == |ms|
    ensures r[index] == ApplyEdit(ms[index], e)
    ensures forall i :: 0 <= i < |ms| && i != index ==> r[i] == ms[i]
  {
    ms[index := ApplyEdit(ms[index], e)]
  }

  lemma ChangeKeepsNumbering(ms: seq<DraftMilestone>, index: nat, e: MilestoneEdit)
    requires Numbered(ms) && index < |ms|
    ensures Numbered(ChangeMilestone(ms, index, e))
  {
  }

  /** `filter((_, i) => i !== index)`: every row except the one at `index`;
      an index that names no row removes nothing. */
  function Without(ms: seq<DraftMilestone>, index: int): (r: seq<DraftMilestone>)
    ensures 0 <= index < |ms| ==> |r| == |ms| - 1
    ensures !(0 <= index < |ms|) ==> r == ms
    ensures forall i :: 0 <= i < |r| ==> r[i] == ms[if 0 <= index <= i then i + 1 else i]
  {
    if 0 <= index < |ms| then ms[..index] + ms[index + 1..] else ms
  }

  /** What `removeMilestone` leaves: nothing changes for a single row; otherwise
      the other rows in their order, renumbered 1..n. */
  function Removed(ms: seq<DraftMilestone>, index: int): (r: seq<DraftMilestone>)
    ensures |ms| <= 1 ==> r == ms
    ensures |ms| > 1 ==> |r| == |Without(ms, index)|
    ensures |ms| > 1 ==> forall i :: 0 <= i < |r| ==>
              r[i] == ms[if 0 <= index <= i then i + 1 else i].(indexNo := i + 1)
  {
    if |ms| <= 1 then ms
    else
      var kept := Without(ms, index);
      seq(|kept|, i requires 0 <= i < |kept| => kept[i].(indexNo := i + 1))
  }

  /** Removal never empties a non-empty list, and leaves it numbered 1..n. */
  lemma RemoveKeepsNumbering(ms: seq<DraftMilestone>, index: int)
    requires Numbered(ms)
    ensures Numbered(Removed(ms, index))
    ensures |ms| >= 1 ==> |Removed(ms, index)| >= 1
  {
  }

  /** `removeMilestone`: the filter, then the `forEach` that overwrites each `index_no`. */
  method RemoveMilestone(ms: seq<DraftMilestone>, index: int) returns (r: seq<DraftMilestone>)
    ensures r == Removed(ms, index)
  {
    if |ms| > 1 {
      r := Without(ms, index);
      for i := 0 to |r|
        invariant |r| == |Without(ms, index)|
        invariant forall k :: 0 <= k < i ==> r[k] == Without(ms, index)[k].(indexNo := k + 1)
        invariant forall k :: i <= k < |r| ==> r[k] == Without(ms, index)[k]
      {
        r := r[i := r[i].(indexNo := i + 1)];
      }
    } else {
      r := ms;
    }
  }

  /** A numbered list has distinct `index_no` values, all at least 1, so the
      server schema accepts them and the folder map gets one key per row. */
  lemma NumberedIndicesDistinct(ms: seq<DraftMilestone>)
    requires Numbered(ms)
    ensures forall i :: 0 <= i < |ms| ==> ms[i].indexNo >= 1
    ensures forall i, j :: 0 <= i < j < |ms| ==> ms[i].indexNo != ms[j].indexNo
  {
  }

  // ---------------------------------------------------------------------------
  // Step validators

  /** `validateStep1`: none of the five required fields is empty, so the step
      passes exactly when code, name, department and both dates are filled in;
      the description, budget and owner may stay empty. */
  function ValidateStep1(d: ProjectDraft): (r: bool)
    ensures r <==> d.code != "" && d.name != "" && d.departmentId != "" && d.startDate != "" && d.endDate != ""
  {
    "" !in [d.code, d.name, d.departmentId, d.startDate, d.endDate]
  }

  /** `validateStep2`: `milestones.every(m => m.name && m.due_date)`. */
  function ValidateStep2(ms: seq<DraftMilestone>): (r: bool)
    ensures r <==> forall i :: 0 <= i < |ms| ==> ms[i].name != "" && ms[i].dueDate != ""
  {
    if ms == [] then true
    else ms[0].name != "" && ms[0].dueDate != "" && ValidateStep2(ms[1..])
  }

  /** The initial list does not pass step 2 until its row is named and dated. */
  lemma BlankRowFailsStep2(ms: seq<DraftMilestone>, i: nat)
    requires i < |ms| && ms[i] == Blank(ms[i].indexNo)
    ensures !ValidateStep2(ms)
  {
  }

  // ---------------------------------------------------------------------------
  // Submission

  /** `projectData.ownerId || session?.user.id`: the chosen owner, else the
      signed-in user, else nothing. */
  function SubmitOwner(chosen: Option<Id>, session: Session): (r: Option<Id>)
    ensures chosen.Some? ==> r == chosen
    ensures chosen.None? && session.Some? ==> r == Some(session.value.id)
    ensures chosen.None? && session.None? ==> r.None?
  {
    if chosen.Some? then chosen
    else if session.Some? then Some(session.value.id)
    else None
  }

  /** The owner the server stores, `ownerId ?? caller`, is the chosen owner or
      else the submitting user, whether the client or the server fills it in. */
  lemma SubmittedOwnerStored(chosen: Option<Id>, u: SessionUser)
    ensures SubmitOwner(chosen, Some(u)).GetOr(u.id) == chosen.GetOr(u.id)
    ensures SubmitOwner(chosen, None).GetOr(u.id) == chosen.GetOr(u.id)
  {
  }

  /** The fiscal year the form starts with: the calendar year plus 543, that
      is, the year of the Buddhist era. */
  function DefaultFiscalYear(calendarYear: int): (r: int)
    ensures r - calendarYear == 543
  {
    calendarYear + 543
  }

  /** For any calendar year from 1558 on, the pre-filled fiscal year lies above
      the 2000..2100 range of the create-project schema, so a submission that
      keeps it is refused with a validation error. */
  lemma PrefilledFiscalYearRefused(calendarYear: int, b: CreateProjectBody)
    requires calendarYear >= 1558 && b.fiscalYear == DefaultFiscalYear(calendarYear)
    ensures !ValidCreateProject(b)
  {
  }
}
