/** The material form handlers of handlers/new/materials.tsx. Each handler
    hands new values to `setLocalMaterial` and `setErrors`; here it returns
    them. The date comparison `new Date(a) >= new Date(b)` is the parameter
    `notBefore`. The contact handlers of this file are the ones in module
    `Contacts`. */
module NewMaterialHandlers {
  import opened Common
  import opened Forms
  import opened Contacts

  // ---------------------------------------------------------------------
  // validateMaterial

  /** Every required field of a material is filled in (the title after trimming). */
  predicate MaterialComplete(m: FormMaterial) {
    Trim(m.title) != "" && m.dueDate != ""
  }

  /** `errors` names exactly the missing required fields, each with its message. */
  predicate ReportsMissing(m: FormMaterial, errors: Errors) {
    && errors.Keys <= {"title", "dueDate"}
    && ("title" in errors <==> Trim(m.title) == "")
    && ("dueDate" in errors <==> m.dueDate == "")
    && ("title" in errors ==> errors["title"] == "Title is required")
    && ("dueDate" in errors ==> errors["dueDate"] == "Due date is required")
  }

  /** validateMaterial: fills a fresh error map field by field, hands it to
      `setErrors` and reports whether it stayed empty. */
  method ValidateMaterial(localMaterial: FormMaterial) returns (valid: bool, errors: Errors)
    ensures ReportsMissing(localMaterial, errors)
    ensures valid <==> MaterialComplete(localMaterial)
    ensures valid <==> errors == map[]
  {
    var newErrors: Errors := map[];
    if Trim(localMaterial.title) == "" {
      newErrors := newErrors["title" := "Title is required"];
    }
    if localMaterial.dueDate == "" {
      newErrors := newErrors["dueDate" := "Due date is required"];
    }
    errors := newErrors;
    NoKeysIffEmpty(newErrors);
    valid := |newErrors.Keys| == 0;
  }

  // ---------------------------------------------------------------------
  // handleDone

  /** handleDone: validates; only a valid material is passed on (to `onUpdate`
      and `setLocalMaterial`), collapsed and carrying the selected contacts'
      ids in order. `updated` is `None` when nothing is passed on. */
  method HandleDone(localMaterial: FormMaterial, selectedContacts: seq<UserView>)
    returns (errors: Errors, updated: Option<FormMaterial>)
    ensures ReportsMissing(localMaterial, errors)
    ensures updated.Some? <==> MaterialComplete(localMaterial)
    ensures updated.Some? ==>
      && updated.value.isExpanded == Some(false)
      && updated.value.selectedContacts == Some(ContactIds(selectedContacts))
      && updated.value == localMaterial.(isExpanded := updated.value.isExpanded,
                                         selectedContacts := updated.value.selectedContacts)
  {
    var valid;
    valid, errors := ValidateMaterial(localMaterial);
    if valid {
      updated := Some(localMaterial.(selectedContacts := Some(ContactIds(selectedContacts)),
                                     isExpanded := Some(false)));
    } else {
      updated := None;
    }
  }

  // ---------------------------------------------------------------------
  // handleInputChange

  /** The string-valued keys of `FormMaterial`. */
  datatype MaterialField = Id | Title | DueDate | Details

  function FieldName(f: MaterialField): string {
    match f
    case Id => "id"
    case Title => "title"
    case DueDate => "dueDate"
    case Details => "details"
  }

  /** `material[f]`; `details` may be absent. */
  function Get(m: FormMaterial, f: MaterialField): Option<string> {
    match f
    case Id => Some(m.id)
    case Title => Some(m.title)
    case DueDate => Some(m.dueDate)
    case Details => m.details
  }

  /** `{ ...prev, [f]: value }` */
  function Set(m: FormMaterial, f: MaterialField, value: string): (r: FormMaterial)
    ensures Get(r, f) == Some(value)
    ensures forall g :: g != f ==> Get(r, g) == Get(m, g)
    ensures r.selectedContacts == m.selectedContacts && r.isExpanded == m.isExpanded
  {
    match f
    case Id => m.(id := value)
    case Title => m.(title := value)
    case DueDate => m.(dueDate := value)
    case Details => m.(details := Some(value))
  }

  const DueBeforePhase := "Due date cannot be before phase start date"

  /** handleInputChange: a due date before the phase start is refused (the
      material is kept and the due-date error set); every other change is
      written and its error cleared. */
  function HandleInputChange(m: FormMaterial, errors: Errors, field: MaterialField, value: string,
                             phaseStartDate: string, notBefore: (string, string) -> bool)
    : (r: (FormMaterial, Errors))
    ensures field == DueDate && !notBefore(value, phaseStartDate) ==>
      r.0 == m && "dueDate" in r.1 && r.1["dueDate"] == DueBeforePhase
    ensures field != DueDate || notBefore(value, phaseStartDate) ==>
      Get(r.0, field) == Some(value) && FieldName(field) in r.1 && r.1[FieldName(field)] == ""
    ensures forall g :: g != field ==> Get(r.0, g) == Get(m, g)
    ensures r.0.selectedContacts == m.selectedContacts && r.0.isExpanded == m.isExpanded
    ensures forall k :: k != FieldName(field) ==> (k in r.1 <==> k in errors)
    ensures forall k :: k in errors && k != FieldName(field) ==> r.1[k] == errors[k]
  {
    if field == DueDate then
      if notBefore(value, phaseStartDate) then
        (Set(m, field, value), SetError(errors, FieldName(field), ""))
      else
        (m, SetError(errors, "dueDate", DueBeforePhase))
    else
      (Set(m, field, value), SetError(errors, FieldName(field), ""))
  }

  /** A refused due date can be corrected: the error it left is cleared by
      the next accepted due date. */
  lemma RefusalThenAcceptance(m: FormMaterial, errors: Errors, bad: string, good: string,
                              phaseStartDate: string, notBefore: (string, string) -> bool)
    requires !notBefore(bad, phaseStartDate) && notBefore(good, phaseStartDate)
    ensures var refused := HandleInputChange(m, errors, DueDate, bad, phaseStartDate, notBefore);
      var accepted := HandleInputChange(refused.0, refused.1, DueDate, good, phaseStartDate, notBefore);
      accepted == HandleInputChange(m, errors, DueDate, good, phaseStartDate, notBefore)
  {
    var refused := HandleInputChange(m, errors, DueDate, bad, phaseStartDate, notBefore);
    assert refused.1["dueDate" := ""] == errors["dueDate" := ""];
  }
}
