/** The task form handlers of handlers/new/tasks.tsx. Each handler hands new
    values to `setLocalTask` and `setErrors`; here it returns them. The date
    comparison `new Date(a) >= new Date(b)` is the parameter `notBefore`. */
module NewTaskHandlers {
  import opened Common
  import opened Forms
  import opened Contacts

  // ---------------------------------------------------------------------
  // validateTask

  /** Every required field of a task is filled in (the title after trimming). */
  predicate TaskComplete(t: FormTask) {
    Trim(t.title) != "" && t.startDate != "" && t.duration != ""
  }

  /** `errors` names exactly the missing required fields, each with its message. */
  predicate ReportsMissing(t: FormTask, errors: Errors) {
    && errors.Keys <= {"title", "startDate", "duration"}
    && ("title" in errors <==> Trim(t.title) == "")
    && ("startDate" in errors <==> t.startDate == "")
    && ("duration" in errors <==> t.duration == "")
    && ("title" in errors ==> errors["title"] == "Title is required")
    && ("startDate" in errors ==> errors["startDate"] == "Start date is required")
    && ("duration" in errors ==> errors["duration"] == "Duration is required")
  }

  /** validateTask: fills a fresh error map field by field, hands it to
      `setErrors` and reports whether it stayed empty. */
  method ValidateTask(localTask: FormTask) returns (valid: bool, errors: Errors)
    ensures ReportsMissing(localTask, errors)
    ensures valid <==> TaskComplete(localTask)
    ensures valid <==> errors == map[]
  {
    var newErrors: Errors := map[];
    if Trim(localTask.title) == "" {
      newErrors := newErrors["title" := "Title is required"];
    }
    if localTask.startDate == "" {
      newErrors := newErrors["startDate" := "Start date is required"];
    }
    if localTask.duration == "" {
      newErrors := newErrors["duration" := "Duration is required"];
    }
    errors := newErrors;
    NoKeysIffEmpty(newErrors);
    valid := |newErrors.Keys| == 0;
  }

  // ---------------------------------------------------------------------
  // handleDone

  /** handleDone: validates; only a valid task is passed on (to `onUpdate` and
      `setLocalTask`), collapsed and carrying the selected contacts' ids in
      order. `updated` is `None` when nothing is passed on. */
  method HandleDone(localTask: FormTask, selectedContacts: seq<UserView>)
    returns (errors: Errors, updated: Option<FormTask>)
    ensures ReportsMissing(localTask, errors)
    ensures updated.Some? <==> TaskComplete(localTask)
    ensures updated.Some? ==>
      && updated.value.isExpanded == Some(false)
      && updated.value.selectedContacts == Some(ContactIds(selectedContacts))
      && updated.value == localTask.(isExpanded := updated.value.isExpanded,
                                     selectedContacts := updated.value.selectedContacts)
  {
    var valid;
    valid, errors := ValidateTask(localTask);
    if valid {
      updated := Some(localTask.(selectedContacts := Some(ContactIds(selectedContacts)), isExpanded := Some(false)));
    } else {
      updated := None;
    }
  }

  // ---------------------------------------------------------------------
  // handleInputChange and handleStartDateChange

  /** The string-valued keys of `FormTask`. */
  datatype TaskField = Id | Title | StartDate | Duration | Details

  function FieldName(f: TaskField): string {
    match f
    case Id => "id"
    case Title => "title"
    case StartDate => "startDate"
    case Duration => "duration"
    case Details => "details"
  }

  /** `task[f]`; `details` may be absent. */
  function Get(t: FormTask, f: TaskField): Option<string> {
    match f
    case Id => Some(t.id)
    case Title => Some(t.title)
    case StartDate => Some(t.startDate)
    case Duration => Some(t.duration)
    case Details => t.details
  }

  /** `{ ...prev, [f]: value }` */
  function Set(t: FormTask, f: TaskField, value: string): (r: FormTask)
    ensures Get(r, f) == Some(value)
    ensures forall g :: g != f ==> Get(r, g) == Get(t, g)
    ensures r.selectedContacts == t.selectedContacts && r.isExpanded == t.isExpanded
  {
    match f
    case Id => t.(id := value)
    case Title => t.(title := value)
    case StartDate => t.(startDate := value)
    case Duration => t.(duration := value)
    case Details => t.(details := Some(value))
  }

  /** handleInputChange: writes the field and clears its error, whatever the value. */
  function HandleInputChange(t: FormTask, errors: Errors, field: TaskField, value: string)
    : (r: (FormTask, Errors))
    ensures Get(r.0, field) == Some(value)
    ensures forall g :: g != field ==> Get(r.0, g) == Get(t, g)
    ensures r.0.selectedContacts == t.selectedContacts && r.0.isExpanded == t.isExpanded
    ensures FieldName(field) in r.1 && r.1[FieldName(field)] == ""
    ensures forall k :: k != FieldName(field) ==> (k in r.1 <==> k in errors)
    ensures forall k :: k in errors && k != FieldName(field) ==> r.1[k] == errors[k]
  {
    (Set(t, field, value), SetError(errors, FieldName(field), ""))
  }

  /** Typing the same value twice is the same as typing it once. */
  lemma InputChangeIdempotent(t: FormTask, errors: Errors, field: TaskField, value: string)
    ensures var once := HandleInputChange(t, errors, field, value);
      HandleInputChange(once.0, once.1, field, value) == once
  {
    var once := HandleInputChange(t, errors, field, value);
    var twice := HandleInputChange(once.0, once.1, field, value);
    assert twice.1 == once.1;
    match field
    case Details => assert once.0.details == Some(value);
    case _ =>
  }

  /** handleDurationChange: writes the duration as `handleInputChange` would,
      and adds a `dueDate` key computed from the start date and the parsed
      duration; a duration that does not parse (`NaN`) counts as 0 days.
      `parse` is `parseInt`, with `None` for `NaN`, and `endOf` is
      `calculateEndDate`, with `None` where `toISOString()` throws on an
      invalid date (an empty start). The throw comes before `setLocalTask`,
      so then nothing is written: the result is `None`. The error map is
      never touched. The task and the new `dueDate` entry are returned as a
      pair, because `FormTask` declares no `dueDate`. */
  function HandleDurationChange(t: FormTask, newDuration: string, parse: string -> Option<int>,
                                endOf: (string, int) -> Option<string>): (r: Option<(FormTask, string)>)
    ensures r.Some? ==> r.value.0 == Set(t, Duration, newDuration)
    ensures parse(newDuration).None? ==> (r.Some? <==> endOf(t.startDate, 0).Some?)
    ensures parse(newDuration).None? && r.Some? ==> r.value.1 == endOf(t.startDate, 0).value
    ensures parse(newDuration).Some? ==> (r.Some? <==> endOf(t.startDate, parse(newDuration).value).Some?)
    ensures parse(newDuration).Some? && r.Some? ==>
              r.value.1 == endOf(t.startDate, parse(newDuration).value).value
  {
    var days := match parse(newDuration) case Some(d) => d case None => 0;
    match endOf(t.startDate, days)
    case None => None
    case Some(due) => Some((t.(duration := newDuration), due))
  }

  /** The due date follows the start date and the duration only: entering the
      same duration again changes nothing. */
  lemma DurationChangeIdempotent(t: FormTask, newDuration: string, parse: string -> Option<int>,
                                 endOf: (string, int) -> Option<string>)
    ensures var once := HandleDurationChange(t, newDuration, parse, endOf);
      once.Some? ==> HandleDurationChange(once.value.0, newDuration, parse, endOf) == once
  {
  }

  const StartBeforePhase := "Task cannot start before phase start date"

  /** handleStartDateChange: a start date the phase allows is written and its
      error cleared; an earlier one leaves the task alone and sets the error. */
  function HandleStartDateChange(t: FormTask, errors: Errors, newStartDate: string, phaseStartDate: string,
                                 notBefore: (string, string) -> bool): (r: (FormTask, Errors))
    ensures r.0 == if notBefore(newStartDate, phaseStartDate) then t.(startDate := newStartDate) else t
    ensures "startDate" in r.1
    ensures r.1["startDate"] == "" <==> notBefore(newStartDate, phaseStartDate)
    ensures !notBefore(newStartDate, phaseStartDate) ==> r.1["startDate"] == StartBeforePhase
    ensures forall k :: k != "startDate" ==> (k in r.1 <==> k in errors)
    ensures forall k :: k in errors && k != "startDate" ==> r.1[k] == errors[k]
  {
    if notBefore(newStartDate, phaseStartDate) then
      (t.(startDate := newStartDate), SetError(errors, "startDate", ""))
    else
      (t, SetError(errors, "startDate", StartBeforePhase))
  }
}
