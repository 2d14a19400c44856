/**
 * The state machine of the five-step "New Document" wizard: the active step,
 * the per-step validation of the form, the fields that other fields compute or
 * clear, and the reset after a successful submit.
 *
 * Dates are day numbers (see module Calendar). The due date is kept as the day
 * it denotes rather than its "MMMM d, yyyy" rendering; None stands for the empty
 * string the form holds when no application date is set. The server's answer to
 * the application-number request is a parameter: Some(number) on success, None
 * when the request fails.
 */
module NewDocumentModal {
  import opened Wrappers
  import DateUtils
  import WorkingDays

  /** The steps of the wizard: Document, Personnel, Location, Property, Attachments. */
  const StepCount := 5
  const LastStep := StepCount - 1

  /** Working days between the application date and the due date. */
  const DueAfterWorkingDays := 12

  /** The fields of the form; the uploaded files are not part of this model. */
  datatype Field =
    | DocumentTitle | Zoning | ZoningApplicationNo | TypeOfProject | DateOfApplication | DueDate
    | ApplicantName | ReceivedBy | AssistedBy | RoutedTo | Oic
    | Barangay | Purok | Landmark | Coordinates
    | FloorArea | LotArea | Storey | Mezanine

  /** The values of the form. */
  datatype Values = Values(
    documentTitle: string, zoning: string, zoningApplicationNo: string, typeOfProject: string,
    dateOfApplication: Option<int>, dueDate: Option<int>,
    applicantName: string, receivedBy: string, assistedBy: string, routedTo: seq<string>, oic: string,
    barangay: string, purok: string, landmark: string, coordinates: string,
    floorArea: string, lotArea: string, storey: string, mezanine: string)

  /** The form's default values: every text empty, no one routed to, no dates. */
  const Defaults := Values("", "", "", "", None, None, "", "", "", [], "", "", "", "", "", "", "", "", "")

  /** The form schema's rule for one field: required text is non-empty, a date is set, someone is routed to; the rest is optional. */
  predicate FieldValid(v: Values, f: Field)
    ensures f == DueDate || f == AssistedBy || f == Mezanine ==> FieldValid(v, f)
    ensures v == Defaults ==> (FieldValid(v, f) <==> f == DueDate || f == AssistedBy || f == Mezanine)
  {
    match f
    case DocumentTitle => v.documentTitle != ""
    case Zoning => v.zoning != ""
    case ZoningApplicationNo => v.zoningApplicationNo != ""
    case TypeOfProject => v.typeOfProject != ""
    case DateOfApplication => v.dateOfApplication.Some?
    case DueDate => true
    case ApplicantName => v.applicantName != ""
    case ReceivedBy => v.receivedBy != ""
    case AssistedBy => true
    case RoutedTo => v.routedTo != []
    case Oic => v.oic != ""
    case Barangay => v.barangay != ""
    case Purok => v.purok != ""
    case Landmark => v.landmark != ""
    case Coordinates => v.coordinates != ""
    case FloorArea => v.floorArea != ""
    case LotArea => v.lotArea != ""
    case Storey => v.storey != ""
    case Mezanine => true
  }

  /** What the wizard demands before leaving each step; the attachments step demands nothing. */
  predicate StepComplete(v: Values, step: int) {
    if step == 0 then
      v.documentTitle != "" && v.zoning != "" && v.zoningApplicationNo != "" && v.typeOfProject != ""
      && v.dateOfApplication.Some?
    else if step == 1 then v.applicantName != "" && v.receivedBy != "" && v.routedTo != [] && v.oic != ""
    else if step == 2 then v.barangay != "" && v.purok != "" && v.landmark != "" && v.coordinates != ""
    else if step == 3 then v.floorArea != "" && v.lotArea != "" && v.storey != ""
    else true
  }

  /** The due date the form shows for an application date: twelve working days later, or none without a date. */
  function DueDateFor(dateOfApplication: Option<int>): (r: Option<int>)
    ensures r.None? <==> dateOfApplication.None?
    ensures r.Some? ==> dateOfApplication.value < r.value && DateUtils.IsWorkingDay(r.value)
    ensures r.Some? ==>
      WorkingDays.WorkingDaysBetween(DateUtils.IsWorkingDay, dateOfApplication.value, r.value) == DueAfterWorkingDays
  {
    match dateOfApplication
    case None => None
    case Some(d) => Some(DateUtils.DueDate(d, DueAfterWorkingDays))
  }

  /** The fields validated on the document step are those StepComplete demands there. */
  lemma StepFields0(v: Values)
    ensures var fields := [DocumentTitle, Zoning, ZoningApplicationNo, TypeOfProject, DateOfApplication];
      (forall f :: f in fields ==> FieldValid(v, f)) <==> StepComplete(v, 0)
  {
    var fields := [DocumentTitle, Zoning, ZoningApplicationNo, TypeOfProject, DateOfApplication];
    assert DocumentTitle in fields && Zoning in fields && ZoningApplicationNo in fields
      && TypeOfProject in fields && DateOfApplication in fields;
  }

  /** The fields validated on the personnel step are those StepComplete demands there. */
  lemma StepFields1(v: Values)
    ensures var fields := [ApplicantName, ReceivedBy, RoutedTo, Oic];
      (forall f :: f in fields ==> FieldValid(v, f)) <==> StepComplete(v, 1)
  {
    var fields := [ApplicantName, ReceivedBy, RoutedTo, Oic];
    assert ApplicantName in fields && ReceivedBy in fields && RoutedTo in fields && Oic in fields;
  }

  /** The fields validated on the location step are those StepComplete demands there. */
  lemma StepFields2(v: Values)
    ensures var fields := [Barangay, Purok, Landmark, Coordinates];
      (forall f :: f in fields ==> FieldValid(v, f)) <==> StepComplete(v, 2)
  {
    var fields := [Barangay, Purok, Landmark, Coordinates];
    assert Barangay in fields && Purok in fields && Landmark in fields && Coordinates in fields;
  }

  /** The fields validated on the property step are those StepComplete demands there. */
  lemma StepFields3(v: Values)
    ensures var fields := [FloorArea, LotArea, Storey];
      (forall f :: f in fields ==> FieldValid(v, f)) <==> StepComplete(v, 3)
  {
    var fields := [FloorArea, LotArea, Storey];
    assert FloorArea in fields && LotArea in fields && Storey in fields;
  }

  /** The fields the wizard validates before leaving the given step, checked against the form schema. */
  method ValidateStep(v: Values, step: int) returns (isValid: bool)
    ensures isValid == StepComplete(v, step)
  {
    var fieldsToValidate: seq<Field> := [];
    if step == 0 {
      fieldsToValidate := [DocumentTitle, Zoning, ZoningApplicationNo, TypeOfProject, DateOfApplication];
      StepFields0(v);
    } else if step == 1 {
      fieldsToValidate := [ApplicantName, ReceivedBy, RoutedTo, Oic];
      StepFields1(v);
    } else if step == 2 {
      fieldsToValidate := [Barangay, Purok, Landmark, Coordinates];
      StepFields2(v);
    } else if step == 3 {
      fieldsToValidate := [FloorArea, LotArea, Storey];
      StepFields3(v);
    }
    isValid := Trigger(v, fieldsToValidate);
  }

  /** form.trigger: validates the given fields against the form schema. */
  method Trigger(v: Values, fields: seq<Field>) returns (isValid: bool)
    ensures isValid <==> forall f :: f in fields ==> FieldValid(v, f)
  {
    isValid := true;
    var i := 0;
    while i < |fields|
      invariant 0 <= i <= |fields|
      invariant isValid <==> forall f :: f in fields[..i] ==> FieldValid(v, f)
    {
      assert fields[..i + 1] == fields[..i] + [fields[i]];
      if !FieldValid(v, fields[i]) {
        isValid := false;
      }
      i := i + 1;
    }
    assert fields[..i] == fields;
  }

  class Wizard {
    var open: bool
    var activeStep: int
    var values: Values

    predicate Valid()
      reads this
    {
      0 <= activeStep <= LastStep
    }

    constructor ()
      ensures Valid() && !open && activeStep == 0 && values == Defaults
    {
      open := false;
      activeStep := 0;
      values := Defaults;
    }

    method SetOpen(isOpen: bool)
      modifies this
      ensures open == isOpen && activeStep == old(activeStep) && values == old(values)
    {
      open := isOpen;
    }

    /**
     * Validates the fields of the current step and, when they pass, moves to the
     * next step, never past the last one.
     */
    method NextStep()
      requires Valid()
      modifies this
      ensures Valid()
      ensures StepComplete(old(values), old(activeStep)) ==> activeStep == Min(old(activeStep) + 1, LastStep)
      ensures !StepComplete(old(values), old(activeStep)) ==> activeStep == old(activeStep)
      ensures values == old(values) && open == old(open)
    {
      var isValid := ValidateStep(values, activeStep);
      if isValid {
        activeStep := Min(activeStep + 1, LastStep);
      }
    }

    /** Moves to the previous step, never below the first one. */
    method PrevStep()
      requires Valid()
      modifies this
      ensures Valid()
      ensures activeStep == Max(old(activeStep) - 1, 0)
      ensures values == old(values) && open == old(open)
    {
      activeStep := Max(activeStep - 1, 0);
    }

    /** Sets the application date; the form recomputes the due date from it. */
    method SetDateOfApplication(date: Option<int>)
      modifies this
      ensures values == old(values).(dateOfApplication := date, dueDate := DueDateFor(date))
      ensures activeStep == old(activeStep) && open == old(open)
    {
      values := values.(dateOfApplication := date);
      if date.Some? {
        var dueDate := DateUtils.CalculateDueDate(date.value, DueAfterWorkingDays);
        values := values.(dueDate := Some(dueDate));
      } else {
        values := values.(dueDate := None);
      }
    }

    /**
     * Sets the document title. When the title changes to a non-empty one the
     * form asks the server for the next application number and takes the answer;
     * when the request fails the number keeps its value.
     */
    method SetDocumentTitle(title: string, response: Option<string>)
      modifies this
      ensures values.documentTitle == title
      ensures values.zoningApplicationNo ==
        if title != old(values.documentTitle) && title != "" && response.Some? then response.value
        else old(values.zoningApplicationNo)
      ensures values == old(values).(documentTitle := title, zoningApplicationNo := values.zoningApplicationNo)
      ensures activeStep == old(activeStep) && open == old(open)
    {
      var changed := title != values.documentTitle;
      values := values.(documentTitle := title);
      if changed && title != "" {
        match response
        case Some(applicationNo) =>
          values := values.(zoningApplicationNo := applicationNo);
        case None =>
      }
    }

    /** Selecting a zoning clears the type of project, whose choices depend on the zoning. */
    method SelectZoning(zoning: string)
      modifies this
      ensures values == old(values).(zoning := zoning, typeOfProject := "")
      ensures activeStep == old(activeStep) && open == old(open)
    {
      values := values.(zoning := zoning);
      values := values.(typeOfProject := "");
    }

    /** Selecting a barangay clears the purok, whose choices depend on the barangay. */
    method SelectBarangay(barangay: string)
      modifies this
      ensures values == old(values).(barangay := barangay, purok := "")
      ensures activeStep == old(activeStep) && open == old(open)
    {
      values := values.(barangay := barangay);
      values := values.(purok := "");
    }

    /** After the document is created: the dialog closes, the form resets and the wizard is back at the first step. */
    method OnSuccess()
      modifies this
      ensures Valid() && !open && values == Defaults && activeStep == 0
    {
      open := false;
      values := Defaults;
      activeStep := 0;
    }
  }

  function Min(a: int, b: int): int {
    if a < b then a else b
  }

  function Max(a: int, b: int): int {
    if a < b then b else a
  }

  /** Choosing a zoning always sends the user back to pick a type of project before leaving the first step. */
  lemma ZoningChangeBlocksFirstStep(v: Values, zoning: string)
    ensures !StepComplete(v.(zoning := zoning, typeOfProject := ""), 0)
  {
  }

  /** Likewise, choosing a barangay requires picking a purok again before leaving the location step. */
  lemma BarangayChangeBlocksLocationStep(v: Values, barangay: string)
    ensures !StepComplete(v.(barangay := barangay, purok := ""), 2)
  {
  }

  /** The default values complete no step but the last: a fresh or reset wizard cannot skip ahead. */
  lemma DefaultsIncomplete(step: int)
    requires 0 <= step < LastStep
    ensures !StepComplete(Defaults, step)
  {
  }
}
