/** The phase-list edits and the form reset of handlers/jobs.tsx, with the
    record types that file declares for itself. Each handler hands new values
    to React setters; here it returns them. */
module JobHandlers {
  import opened Common

  datatype Task = Task(id: string, title: string, startDate: string, duration: string, dueDate: string,
                       status: string, details: string, isExpanded: bool)

  datatype Material = Material(id: string, title: string, dueDate: string, status: string,
                               details: string, isExpanded: bool)

  datatype Note = Note(id: string, content: string, isExpanded: bool)

  datatype Phase = Phase(id: int, title: string, startDate: string, description: string,
                         tasks: seq<Task>, materials: seq<Material>, notes: seq<Note>)

  datatype Client = Client(user_id: int, user_name: string, user_email: string, user_phone: string)

  /** A phase with nothing in it yet. */
  predicate IsBlankPhase(p: Phase) {
    p.title == "" && p.description == "" && p.tasks == [] && p.materials == [] && p.notes == []
  }

  // ---------------------------------------------------------------------
  // handleAddPhase

  /** handleAddPhase: appends one blank phase starting at the job's start date
      (`jobStartDate || ''`). `now` is the `Date.now()` that becomes its id. */
  function AddPhase(phases: seq<Phase>, jobStartDate: Option<string>, now: int): (r: seq<Phase>)
    ensures |r| == |phases| + 1 && r[..|phases|] == phases
    ensures IsBlankPhase(r[|phases|]) && r[|phases|].id == now
    ensures r[|phases|].startDate == jobStartDate.GetOr("")
  {
    phases + [Phase(now, "", jobStartDate.GetOr(""), "", [], [], [])]
  }

  // ---------------------------------------------------------------------
  // handleDeletePhase

  /** `phases.filter((_, i) => i !== index)`, where `from` is the position of
      `phases[0]` in the list being filtered. */
  function FilterIndex(phases: seq<Phase>, index: int, from: int): (r: seq<Phase>)
    decreases |phases|
  {
    if phases == [] then []
    else (if from != index then [phases[0]] else []) + FilterIndex(phases[1..], index, from + 1)
  }

  lemma {:induction false} FilterIndexNone(phases: seq<Phase>, index: int, from: int)
    requires index < from || from + |phases| <= index
    ensures FilterIndex(phases, index, from) == phases
    decreases |phases|
  {
    if phases != [] {
      FilterIndexNone(phases[1..], index, from + 1);
      assert phases == [phases[0]] + phases[1..];
    }
  }

  lemma {:induction false} FilterIndexOne(phases: seq<Phase>, index: int, from: int)
    requires from <= index < from + |phases|
    ensures FilterIndex(phases, index, from) == phases[..index - from] + phases[index - from + 1..]
    decreases |phases|
  {
    var tail := phases[1..];
    if from == index {
      FilterIndexNone(tail, index, from + 1);
      assert FilterIndex(phases, index, from) == [] + FilterIndex(tail, index, from + 1);
      assert phases[..0] + phases[1..] == tail;
    } else {
      var k := index - from;
      FilterIndexOne(tail, index, from + 1);
      assert FilterIndex(tail, index, from + 1) == tail[..k - 1] + tail[k..];
      assert FilterIndex(phases, index, from) == [phases[0]] + FilterIndex(tail, index, from + 1);
      assert phases[..k] == [phases[0]] + tail[..k - 1];
      assert phases[k + 1..] == tail[k..];
    }
  }

  /** handleDeletePhase: drops the phase at `index`. */
  function DeletePhase(index: int, phases: seq<Phase>): (r: seq<Phase>)
    ensures |r| == if 0 <= index < |phases| then |phases| - 1 else |phases|
  {
    if 0 <= index < |phases| then
      FilterIndexOne(phases, index, 0);
      FilterIndex(phases, index, 0)
    else
      FilterIndexNone(phases, index, 0);
      FilterIndex(phases, index, 0)
  }

  /** Deleting removes exactly the phase at an index in range, keeping the
      others in order; an index out of range deletes nothing. */
  lemma DeletePhaseRemovesOne(index: int, phases: seq<Phase>)
    ensures 0 <= index < |phases| ==>
      DeletePhase(index, phases) == phases[..index] + phases[index + 1..]
    ensures !(0 <= index < |phases|) ==> DeletePhase(index, phases) == phases
  {
    if 0 <= index < |phases| {
      FilterIndexOne(phases, index, 0);
    } else {
      FilterIndexNone(phases, index, 0);
    }
  }

  /** A phase just added can be deleted again by its index. */
  lemma AddThenDeleteLast(phases: seq<Phase>, jobStartDate: Option<string>, now: int)
    ensures DeletePhase(|phases|, AddPhase(phases, jobStartDate, now)) == phases
  {
    DeletePhaseRemovesOne(|phases|, AddPhase(phases, jobStartDate, now));
  }

  // ---------------------------------------------------------------------
  // handleCancel

  /** The values the new-job form's setters hold. */
  datatype JobForm = JobForm(
    jobTitle: string,
    clientName: string,
    clientPhone: string,
    clientEmail: string,
    startDate: string,
    jobLocation: string,
    description: string,
    phases: seq<Phase>,
    selectedClient: Option<Client>,
    showNewClientForm: bool)

  /** handleCancel: whatever the form held, every field goes back to empty. */
  function Cancel(f: JobForm): (r: JobForm)
    ensures r.jobTitle == "" && r.clientName == "" && r.clientPhone == "" && r.clientEmail == ""
    ensures r.startDate == "" && r.jobLocation == "" && r.description == ""
    ensures r.phases == [] && r.selectedClient == None && !r.showNewClientForm
  {
    JobForm("", "", "", "", "", "", "", [], None, false)
  }
}
