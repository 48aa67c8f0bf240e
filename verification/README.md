# JM Web Application: a Dafny model of the job-data migration and the form helpers

This project models the logic of the JM contracting-jobs web application
that works without the UI, the database or dates. The parts are:

- **The job-data migration script (data/script.py).** It finds the
  `export const jobs: Job[] = [...];` declaration in a TypeScript data file
  and rewrites the JavaScript literals `true`, `false` and `null` into
  Python's spelling. Then it restructures every job in place: the job's own
  `tasks` and `materials` lists are popped off the job and dealt round-robin
  onto the job's phases, and every phase gets an empty `note` list.
  - `ScriptText` models the text stages as functions.
  - `JobTransform` models the restructuring as imperative code. The jobs
    list is an `array`, updated in place. The two popped Python lists are
    `PyList` objects, because the script's test `item in tasks` reads the
    same list the first pass pops from. Each method is proved against the
    specification function `Transformed`.
- **`formatPhoneNumber` (app/utils.tsx).** It strips the non-digits and lays
  the digits out by how many there are (module `Phone`).
- **The generic list helpers and the date-field guards (handlers/phases.tsx).**
  Module `PhaseHandlers`.
- **Phase scheduling (handlers/new/jobs.tsx).** A phase's start date is the
  string-earliest date among its tasks and materials. Updating a phase can
  push every later phase back by a number of business days (module
  `NewJobHandlers`). The phase copy and the shifting loop run on an `array`,
  as the source does.
- **The phase-list edits and form reset (handlers/jobs.tsx).** Module
  `JobHandlers`.
- **The task and material form handlers (handlers/new/tasks.tsx,
  handlers/new/materials.tsx).** Modules `NewTaskHandlers` and
  `NewMaterialHandlers`. The validators fill an error map step by step, as
  the source does.
  - The contact-list handlers are identical in the two files. They are
    modelled once, in module `Contacts`.
  - The form records of app/types/database.ts are in module `Forms`.

Each handler in the TypeScript files hands new values to React setters.
The model returns those values instead. Date arithmetic is a function
parameter: `endOf` and `durationOf` in `PhaseHandlers`, `shift` in
`NewJobHandlers`, `notBefore` in the form handlers. `Date.now()` is the
parameter `now`.

JavaScript's `a < b` on strings is `Common.StrLess`, a lexicographic order.
`Common.StrLessTransitive` and `Common.StrLessTotal` prove the order facts
the scheduling rules rely on.

One behaviour of the script is easy to misread. Its filing test
`if item in tasks` (data/script.py:27) runs after the item has been popped
from `tasks`. So a task is filed under the phase's `tasks` only when an
equal task is still waiting later in the list. With distinct tasks, every
task lands in the phase's `materials`. The model follows the code; see
"Findings".

## Model

| member | source | states |
|---|---|---|
| ScriptText.ReplaceAll | data/script.py:7-9 | `str.replace` with a replacement of the same length keeps the length of the text |
| ScriptText.ReplaceAllSplit | data/script.py:7-9 | the first occurrence of the pattern becomes the replacement, the text before it is kept, and the scan resumes right after it |
| ScriptText.ReplaceAllLocal | data/script.py:7-9 | a same-length replace keeps every character, except characters of the pattern, which become characters of the replacement |
| ScriptText.JsToPython | data/script.py:5-10 | the three chained replaces keep the length, and change a character only from a letter of `true`/`false`/`null` to a letter of `True`/`False`/`None` |
| ScriptText.NoJsLiteralRemains | data/script.py:5-10 | after the conversion no lowercase `true`, `false` or `null` occurs anywhere in the text |
| ScriptText.JsToPythonIdentity | data/script.py:5-10 | text containing none of the three words comes through unchanged |
| ScriptText.RewritesInsideWords | data/script.py:7-9 | the substitution is blind to string contents: "nullify" becomes "Noneify" |
| ScriptText.ExtractJobsArray | data/script.py:43-47 | fails, with the message "Couldn't find jobs array in the file", exactly when no declaration is followed by a `];`; otherwise it returns the text from the `[` after the leftmost declaration through the first `]` followed by `;` |
| ScriptText.ExtractedArrayShape | data/script.py:43-45 | the captured literal starts with `[`, ends with `]` and holds no `];` before its end |
| ScriptText.PrepareLiteral | data/script.py:43-50 | a missing declaration is an error raised before conversion; a found literal is returned as its conversion `JsToPython`, of the same length and with no JavaScript literal left |
| JobTransform.PyList.PopFront | data/script.py:22 | `pop(0)` returns the first item and leaves the rest of the list |
| JobTransform.FileItem | data/script.py:23-30 | the phase gets both lists, empty where they were missing, and the item is appended to the one the test picks; everything else in the phase is kept, as `Place` states |
| JobTransform.Distribute | data/script.py:18-30 | one pass empties the popped list and deals its k-th item to the phase that k reaches going round the phases from the first, filing it by `item in tasks` as evaluated at the moment of the pop |
| JobTransform.TransformJob | data/script.py:13-34 | one job is restructured exactly as the specification function `Transformed` says: tasks pass, then materials pass restarting at the first phase, then the notes |
| JobTransform.TransformJobs | data/script.py:12-36 | every job of the list is replaced in place by its restructured form; the list keeps its length |
| JobTransform.DealPhase | data/script.py:19-30 | in one pass, phase i receives the items at positions i, i + n, i + 2n, ... in source order, and creates its two lists only when it receives an item |
| JobTransform.TransformedPhase | data/script.py:18-34 | a migrated phase keeps its other keys, has `note == []`, and its lists are extended, never replaced, by the tasks then the materials at positions i, i + n, ...; lists are created only for a phase that received an item |
| JobTransform.TransformedJobKeys | data/script.py:14-15 | the migrated job has no `tasks` or `materials` key, keeps its other keys and its number of phases |
| JobTransform.TransformConserves | data/script.py:18-30 | the phases' lists together gain exactly the job's former tasks and materials, each item once |
| JobTransform.MaterialsFiledAsMaterials | data/script.py:27-30 | in the materials pass every material goes to `materials`, whatever the tasks were, because `tasks` has been emptied by then |
| JobTransform.DistinctTasksFiledAsMaterials | data/script.py:27-30 | as written: with distinct tasks no phase's `tasks` list grows; every task lands in the phase's `materials`, ahead of the materials |
| JobTransform.SingleTaskLandsInMaterials | data/script.py:27-30 | a job with the single task "t1" and one phase ends with that phase's `tasks == []` and `materials == ["t1"]` |
| JobTransform.TransformedByOrigin | data/script.py:13-34 | the corrected restructuring also drops the job's `tasks` and `materials` keys and keeps its other keys and its number of phases |
| JobTransform.ByOriginPhase | data/script.py:18-30 | filed by origin, phase i gains the tasks at positions i, i + n, ... in its `tasks` and the materials at those positions in its `materials` |
| JobTransform.ByOriginConserves | data/script.py:18-30 | filed by origin, the phases' `tasks` lists gain exactly the job's tasks and their `materials` lists exactly the job's materials |
| JobTransform.ByOriginExample | data/script.py:18-30 | three tasks, one material and two phases give `[T1, T3] / [M1]` and `[T2] / []` |
| Phone.Digits | app/utils.tsx:5 | the cleaned string holds only digits and is no longer than the input, and each digit occurs in it exactly as often as in the input (with `DigitsAppend`, in the input's order) |
| Phone.FormatPhoneNumber | app/utils.tsx:1-2 | `undefined` or empty input gives "" |
| Phone.FormatLayout | app/utils.tsx:8-20 | 7 digits give `ddd-dddd`; 10 give `(ddd) ddd-dddd`; 11 starting with 1 give `+1 (ddd) ddd-dddd`; 11 not starting with 1 give the bare digits; any other count gives the input unchanged |
| Phone.FormatKeepsDigits | app/utils.tsx:4-20 | the digits of the result, in order, are exactly the digits of the input |
| Phone.FormatIdempotent | app/utils.tsx:1-21 | formatting a formatted number changes nothing |
| PhaseHandlers.ToggleExpansion | handlers/phases.tsx:58-66 | length and order kept; ids and contents kept; `isExpanded` flips exactly on the items with the given id |
| PhaseHandlers.ToggleTwice | handlers/phases.tsx:63-65 | toggling the same id twice gives the original list |
| PhaseHandlers.DeleteItem | handlers/phases.tsx:68-74 | every item with the id is gone and every other item stays |
| PhaseHandlers.DeleteItemAppend | handlers/phases.tsx:73 | deletion distributes over concatenation, so survivors keep their relative order |
| PhaseHandlers.DeleteItemAbsent | handlers/phases.tsx:73 | an id no item carries leaves the list unchanged |
| PhaseHandlers.AddItem | handlers/phases.tsx:76-82 | the old list is a prefix and the new item is the one extra element, at the end |
| PhaseHandlers.AddThenDelete | handlers/phases.tsx:68-82 | adding an item and deleting its id is deleting that id |
| PhaseHandlers.StartDateChange | handlers/phases.tsx:16-30 | a start before the job's start (string order) changes nothing; otherwise the start is written, and when a duration is filled in and `calculateEndDate(newStart, duration)` yields a date, the end date becomes that date; when it throws on an invalid date the end date is kept; the end date changes in no other case |
| PhaseHandlers.DurationChange | handlers/phases.tsx:32-43 | the duration is always written; when a start date is filled in and `calculateEndDate(start, newDuration)` yields a date, the end date becomes that date; otherwise, including when it throws on an invalid date, the end date is kept |
| PhaseHandlers.EndDateChange | handlers/phases.tsx:45-56 | the end date is always written; the duration is recomputed from start and end only when a start date is filled in |
| PhaseHandlers.StartAndDurationKeepEnd | handlers/phases.tsx:16-43 | start and duration changes keep the end date equal to start plus duration whenever that sum can be computed |
| NewJobHandlers.AllDates | handlers/new/jobs.tsx:29-32 | the task start dates then the material due dates; an absent list contributes nothing |
| NewJobHandlers.EarliestFrom | handlers/new/jobs.tsx:35-37 | the seeded `reduce` returns its seed or one of the dates |
| NewJobHandlers.EarliestFromIsMinimum | handlers/new/jobs.tsx:35-37 | the `reduce` yields one of its inputs, and none of them is string-smaller |
| NewJobHandlers.Earliest | handlers/new/jobs.tsx:34-37 | the result is one of the dates and no date is string-smaller |
| NewJobHandlers.EarliestUnique | handlers/new/jobs.tsx:34-37 | any date in the list that no date undercuts is that result |
| NewJobHandlers.CalculatePhaseStartDate | handlers/new/jobs.tsx:23-41 | with item dates, the string-earliest of them; without, the current business date for pre-planning and the job start date otherwise |
| NewJobHandlers.FindIndex | handlers/new/jobs.tsx:151 | the first phase with the tempId, or -1 exactly when there is none |
| NewJobHandlers.Shifted | handlers/new/jobs.tsx:166-191 | a later phase's start, task starts and material due dates move by `extend` business days; nothing else changes |
| NewJobHandlers.Restarted | handlers/new/jobs.tsx:155-161 | the updated phase is stored with its earliest item date as start, or its own start date when it has no items |
| NewJobHandlers.ShiftFrom | handlers/new/jobs.tsx:165-192 | the loop shifts every phase from the given index on, in place, and leaves the earlier ones |
| NewJobHandlers.PhaseUpdate | handlers/new/jobs.tsx:144-197 | length kept; phases before the match untouched; the match replaced by the restarted phase; later phases shifted only when extending, and otherwise every phase with another tempId is unchanged |
| JobHandlers.AddPhase | handlers/jobs.tsx:69-84 | exactly one blank phase is appended, starting at `jobStartDate` when given and non-empty, else `''` |
| JobHandlers.DeletePhase | handlers/jobs.tsx:86-93 | the filter shortens the list by one for an index in range and keeps its length otherwise |
| JobHandlers.DeletePhaseRemovesOne | handlers/jobs.tsx:86-93 | an index in range removes exactly that phase, keeping the others in order; an index out of range removes nothing |
| JobHandlers.AddThenDeleteLast | handlers/jobs.tsx:69-93 | deleting the phase just added by its index restores the list |
| JobHandlers.Cancel | handlers/jobs.tsx:95-117 | every string field becomes `''`, phases `[]`, the selected client `null` and the new-client flag `false` |
| Common.Trim | handlers/new/tasks.tsx:89 | `trim()` returns a slice of the input that neither starts nor ends with white space, cut out of the input by removing only white space before and after it |
| Common.StrLessIrreflexive | handlers/new/jobs.tsx:36 | JavaScript `<` on strings: no string is smaller than itself |
| Common.StrLessTransitive | handlers/new/jobs.tsx:36 | JavaScript `<` on strings is transitive |
| Common.StrLessTotal | handlers/new/jobs.tsx:36 | of two different strings, one is smaller than the other |
| Common.StrLessAsymmetric | handlers/phases.tsx:23 | of two strings, at most one is smaller than the other, so `a >= b` and `a < b` never hold together |
| Common.StrAtLeast | handlers/phases.tsx:23 | JavaScript `a >= b` on strings holds exactly when the strings are equal or `b < a` |
| Common.NatToString | handlers/new/tasks.tsx:66 | `toString()` of a non-negative safe integer (below 2^53): decimal digits that spell the number, and a leading `0` only in `"0"` itself |
| Common.IntToString | handlers/new/tasks.tsx:66 | `toString()` of a safe integer (magnitude below 2^53) is non-empty and starts with `-` exactly when the number is negative |
| Common.IntToStringInjective | handlers/new/tasks.tsx:66 | two integers with the same `toString()` are equal |
| Common.TrimEmptyIffBlank | handlers/new/tasks.tsx:89 | `!title.trim()` holds exactly when the title is all white space |
| Contacts.ContactSelect | handlers/new/tasks.tsx:52-58 | the contact is appended at the end, duplicates allowed |
| Contacts.ContactRemove | handlers/new/tasks.tsx:60-68 | every contact whose `user_id` string equals the id is removed and every other one stays |
| Contacts.RemoveByUserId | handlers/new/tasks.tsx:60-68 | removing by `user_id.toString()` removes exactly the contacts with that `user_id` |
| Contacts.ContactRemoveAppend | handlers/new/tasks.tsx:65-67 | removal distributes over concatenation, so the rest keep their order |
| Contacts.SelectThenRemove | handlers/new/tasks.tsx:52-68 | selecting a contact and removing its id is removing that id |
| Contacts.ContactIds | handlers/new/tasks.tsx:106-108 | the selected contacts' ids as strings, in order |
| Contacts.RemovedIdGone | handlers/new/tasks.tsx:60-68 | a removed id is no longer among the ids passed on by `handleDone` |
| NewTaskHandlers.ValidateTask | handlers/new/tasks.tsx:84-94 | valid exactly when the trimmed title, the start date and the duration are non-empty; the fresh error map holds exactly the failing fields, with their messages |
| NewTaskHandlers.HandleDone | handlers/new/tasks.tsx:96-114 | a task is passed on only when valid, collapsed and with the contact ids in order, otherwise unchanged |
| NewTaskHandlers.Set | handlers/new/tasks.tsx:32 | the named field gets the value and every other field is kept |
| NewTaskHandlers.HandleInputChange | handlers/new/tasks.tsx:26-34 | the named field is written and only its error is cleared |
| NewTaskHandlers.InputChangeIdempotent | handlers/new/tasks.tsx:26-34 | entering the same value twice is entering it once |
| NewTaskHandlers.HandleDurationChange | handlers/new/tasks.tsx:36-50 | when `calculateEndDate` yields a date, the duration is written into the task and the added `dueDate` is the end date from the task's start and the parsed duration, or from 0 days when the duration does not parse; when it throws on an invalid date nothing is written; the error map is never touched, unlike `handleInputChange` |
| NewTaskHandlers.DurationChangeIdempotent | handlers/new/tasks.tsx:36-50 | entering the same duration twice is entering it once, once the first entry was written |
| NewTaskHandlers.HandleStartDateChange | handlers/new/tasks.tsx:6-24 | an allowed start is written and its error cleared; an earlier one leaves the task and sets "Task cannot start before phase start date"; no other error key is added or changed |
| NewMaterialHandlers.ValidateMaterial | handlers/new/materials.tsx:60-69 | valid exactly when the trimmed title and the due date are non-empty; the fresh error map holds exactly the failing fields, with their messages |
| NewMaterialHandlers.HandleDone | handlers/new/materials.tsx:71-89 | a material is passed on only when valid, collapsed and with the contact ids in order |
| NewMaterialHandlers.Set | handlers/new/materials.tsx:28 | the named field gets the value and every other field is kept |
| NewMaterialHandlers.HandleInputChange | handlers/new/materials.tsx:19-40 | a due date before the phase start leaves the material and sets "Due date cannot be before phase start date"; any other change is written and its error cleared; other errors are kept |
| NewMaterialHandlers.RefusalThenAcceptance | handlers/new/materials.tsx:26-35 | after a refused due date, the next accepted one leaves the same state as if the refusal never happened |

## Left out

- File input and output of the script (data/script.py:39-40, 68-69), the
  diagnostic printing (data/script.py:56-59, 71), `ast.literal_eval`
  (data/script.py:54) and `json.dumps` (data/script.py:65) are outside the
  model. The jobs arrive as parsed values, and the serialised output is not
  modelled.
- JobTransform.TransformJobs: requires every job to have phases when it has
  tasks or materials (`Terminates`). Otherwise the script's `while` loop
  never ends (data/script.py:19-21). A job without a `phases` key raises
  `KeyError` in the script; the model's jobs always carry `phases`.
- JobTransform: a job whose `tasks` key holds `None` is not modelled
  (`Job.tasks` is absent or a list). The script skips the tasks pass for it,
  then raises `TypeError` at `item in tasks` (data/script.py:27) during the
  materials pass as soon as it has a material to file.
- JobTransform: a phase whose `tasks` or `materials` key holds `None` is not
  modelled either (`Phase.tasks` and `Phase.materials` are absent or a
  list). The script keeps such a key and raises `AttributeError` at
  `.append` (data/script.py:28, data/script.py:30) once an item is filed
  there.
- JobTransform: jobs and phases are values. The script's dictionaries are
  shared objects, so aliasing between phase dictionaries of different jobs
  is not modelled. Only the two popped lists are objects.
- Dates and timezones are not modelled: `calculateEndDate`,
  `calculateDuration`, `new Date(...) >= new Date(...)` and the business-day
  helpers of app/utils (`createLocalDate`, `addBusinessDays`,
  `formatToDateString`). They are function parameters. The business-day
  helpers are not part of this model.
- Date validity is a parameter too: `endOf` returns `None` where
  `calculateEndDate` throws a RangeError (`new Date("")`, or a `NaN` day
  count). Which strings make an invalid date is not modelled.
- Common.IntToString and Common.NatToString: user ids are taken to be safe
  integers (magnitude below 2^53), where JavaScript's `toString()` is plain
  decimal and distinct ids print differently. The model spells every
  integer in decimal. A JavaScript number from 10^21 on prints in exponent
  form (`"1e+21"`), and integers above 2^53 cannot be held exactly, so two
  such ids can print alike; neither is modelled.
- `Common.StrLess` compares code points, while JavaScript compares UTF-16
  code units. The two orders differ only for characters outside the Basic
  Multilingual Plane, which dates never contain.
- NewJobHandlers.PhaseUpdate: when no phase matches, `newPhases[-1] = ...`
  only sets a non-index property of the array. The model drops that
  property, since it is not an element of the phase list.
- NewJobHandlers.PhaseUpdate: `extend` is an integer. The `NaN` and
  fractional values a JavaScript number can also hold are not modelled.
- JobHandlers.DeletePhase: the index is an integer. A fractional index
  matches no position, as an index out of range does.
- `handleDeleteClick` and `handleConfirmDelete` (handlers/new/tasks.tsx:70-82,
  handlers/new/materials.tsx:5-17, handlers/new/jobs.tsx:43-54) only call
  callbacks.
- NewTaskHandlers.HandleDurationChange: `parseInt` is the parameter `parse`,
  with `None` for `NaN`. `FormTask` declares no `dueDate`, so the added key
  is returned beside the task rather than inside it.
- `getJobTypes` (handlers/new/jobs.tsx:15-21) reads the bundler's module
  list.
- `handleCreateJob` (handlers/new/jobs.tsx:56-142) imports a job template
  module and builds the form phases from it. Each task and material gets an
  id from `Date.now()`, and its date is set by the business-day helpers. Each
  phase's start comes from `calculatePhaseStartDate`, which is modelled. The
  phases are handed to `setPhases`. The dynamic import and the date
  arithmetic are outside the model, so this handler is left out.
- `createJob` (handlers/jobs.tsx:48-67) is a network call.
- NewTaskHandlers.HandleInputChange and NewMaterialHandlers.HandleInputChange
  cover the string-valued keys only. `keyof FormTask` also names
  `selectedContacts` and `isExpanded`, which the form never passes a string
  for.
- The contact handlers of handlers/new/materials.tsx:42-58 are identical to
  those of handlers/new/tasks.tsx:52-68. Both are modelled by module
  `Contacts`.

## Findings

| source | as written | input that shows it | evidently intended | confidence | as-written member | corrected member |
|---|---|---|---|---|---|---|
| data/script.py:27 | `if item in tasks` runs after the item was popped from `tasks`, so a task is filed under the phase's `tasks` only when an equal task is still waiting later in the list | a job with tasks `["t1"]`, no materials and one phase ends with that phase's `tasks == []` and `materials == ["t1"]` | each item is filed under the phase list named after the job list it came from: tasks under `tasks`, materials under `materials` | high; not executed | JobTransform.DistinctTasksFiledAsMaterials | JobTransform.ByOriginPhase |

`JobTransform.SingleTaskLandsInMaterials` proves the counterexample.
`JobTransform.TransformedByOrigin` is the corrected restructuring, and
`JobTransform.ByOriginConserves` proves that it files every task under
`tasks` and every material under `materials`. The imperative methods model
the script as written.
