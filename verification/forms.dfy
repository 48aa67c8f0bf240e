/** The form records of app/types/database.ts (`FormTask`, `FormMaterial`,
    `FormNote`, `FormPhase`) and the contact record of app/types/views.ts
    (`UserView`) that the new-job handlers work on. An optional property is an
    `Option`; `selectedContacts`, an array of `{ id }` objects, is kept as the
    sequence of those ids. */
module Forms {
  import opened Common

  datatype FormTask = FormTask(
    id: string,
    title: string,
    startDate: string,
    duration: string,
    details: Option<string>,
    selectedContacts: Option<seq<string>>,
    isExpanded: Option<bool>)

  datatype FormMaterial = FormMaterial(
    id: string,
    title: string,
    dueDate: string,
    details: Option<string>,
    selectedContacts: Option<seq<string>>,
    isExpanded: Option<bool>)

  datatype FormNote = FormNote(id: string, content: string, isExpanded: Option<bool>)

  datatype FormPhase = FormPhase(
    tempId: string,
    title: string,
    startDate: string,
    description: string,
    tasks: seq<FormTask>,
    materials: seq<FormMaterial>,
    notes: seq<FormNote>)

  datatype UserView = UserView(user_id: int, user_name: string, user_phone: string, user_email: string)

  /** A form's error messages by field name; "" means no error. */
  type Errors = map<string, string>

  /** `setErrors(prev => ({ ...prev, [key]: message }))` */
  function SetError(errors: Errors, key: string, message: string): (r: Errors)
    ensures key in r && r[key] == message
    ensures forall k :: k in errors && k != key ==> k in r && r[k] == errors[k]
    ensures forall k :: k in r ==> k in errors || k == key
  {
    errors[key := message]
  }
}
