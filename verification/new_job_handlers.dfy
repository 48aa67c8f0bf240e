/** Phase scheduling in handlers/new/jobs.tsx: a phase starts at the earliest
    date among its items, and updating one phase can push every later phase
    back. The business-day helpers (`createLocalDate`, `addBusinessDays`,
    `formatToDateString`) are not part of this model; their composition is
    the parameter `shift`. */
module NewJobHandlers {
  import opened Common
  import opened Forms

  // ---------------------------------------------------------------------
  // calculatePhaseStartDate

  /** The task start dates followed by the material due dates; a missing list
      contributes nothing. */
  function AllDates(tasks: Option<seq<FormTask>>, materials: Option<seq<FormMaterial>>): (r: seq<string>)
    ensures |r| == |tasks.GetOr([])| + |materials.GetOr([])|
    ensures forall k :: 0 <= k < |tasks.GetOr([])| ==> r[k] == tasks.GetOr([])[k].startDate
    ensures forall k :: 0 <= k < |materials.GetOr([])| ==>
      r[|tasks.GetOr([])| + k] == materials.GetOr([])[k].dueDate
  {
    var ts, ms := tasks.GetOr([]), materials.GetOr([]);
    seq(|ts|, k requires 0 <= k < |ts| => ts[k].startDate)
      + seq(|ms|, k requires 0 <= k < |ms| => ms[k].dueDate)
  }

  /** `ds.reduce((earliest, current) => current < earliest ? current : earliest, acc)` */
  function EarliestFrom(acc: string, ds: seq<string>): (r: string)
    ensures r == acc || r in ds
    decreases |ds|
  {
    if ds == [] then acc
    else EarliestFrom(if StrLess(ds[0], acc) then ds[0] else acc, ds[1..])
  }

  /** The fold yields one of its inputs, and nothing it saw is smaller. */
  lemma {:induction false} EarliestFromIsMinimum(acc: string, ds: seq<string>)
    ensures var r := EarliestFrom(acc, ds);
      (r == acc || r in ds) && !StrLess(acc, r) && forall i :: 0 <= i < |ds| ==> !StrLess(ds[i], r)
    decreases |ds|
  {
    var r := EarliestFrom(acc, ds);
    if ds == [] {
      StrLessIrreflexive(acc);
    } else {
      var next := if StrLess(ds[0], acc) then ds[0] else acc;
      EarliestFromIsMinimum(next, ds[1..]);
      assert r == EarliestFrom(next, ds[1..]);
      assert !StrLess(next, r);
      if StrLess(acc, r) {
        if StrLess(ds[0], acc) {
          StrLessTransitive(ds[0], acc, r);
        }
        assert false;
      }
      if StrLess(ds[0], r) {
        if !StrLess(ds[0], acc) {
          StrLessTotal(ds[0], acc);
          if StrLess(acc, ds[0]) {
            StrLessTransitive(acc, ds[0], r);
          }
        }
        assert false;
      }
      forall i | 1 <= i < |ds|
        ensures !StrLess(ds[i], r)
      {
        assert ds[i] == ds[1..][i - 1];
      }
    }
  }

  /** The string-earliest of a non-empty list of dates, as `reduce` without a
      seed computes it. */
  function Earliest(ds: seq<string>): (r: string)
    requires |ds| > 0
    ensures r in ds
    ensures forall i :: 0 <= i < |ds| ==> !StrLess(ds[i], r)
  {
    EarliestFromIsMinimum(ds[0], ds[1..]);
    assert forall i :: 1 <= i < |ds| ==> ds[i] == ds[1..][i - 1];
    EarliestFrom(ds[0], ds[1..])
  }

  /** Two dates that are both in the list and both no later than every entry
      are the same date: the earliest date is well defined. */
  lemma EarliestUnique(ds: seq<string>, d: string)
    requires |ds| > 0
    requires d in ds && forall i :: 0 <= i < |ds| ==> !StrLess(ds[i], d)
    ensures d == Earliest(ds)
  {
    var e := Earliest(ds);
    StrLessTotal(d, e);
  }

  /** The phase's start date: the earliest item date; with no item dates, the
      current business date for the pre-planning phase and the job's start
      date otherwise. */
  function CalculatePhaseStartDate(tasks: Option<seq<FormTask>>, materials: Option<seq<FormMaterial>>,
                                   isPreplanningPhase: bool, currentBusinessDate: string,
                                   jobStartDate: string): (r: string)
    ensures var ds := AllDates(tasks, materials);
      && (|ds| > 0 ==> r in ds && forall i :: 0 <= i < |ds| ==> !StrLess(ds[i], r))
      && (|ds| == 0 ==> r == if isPreplanningPhase then currentBusinessDate else jobStartDate)
  {
    var ds := AllDates(tasks, materials);
    if |ds| > 0 then Earliest(ds)
    else if isPreplanningPhase then currentBusinessDate
    else jobStartDate
  }

  // ---------------------------------------------------------------------
  // handlePhaseUpdate

  /** `phases.findIndex(p => p.tempId === tempId)`: the first match, or -1. */
  function FindIndex(phases: seq<FormPhase>, tempId: string): (r: int)
    ensures -1 <= r < |phases|
    ensures r == -1 <==> forall i :: 0 <= i < |phases| ==> phases[i].tempId != tempId
    ensures r >= 0 ==> phases[r].tempId == tempId && forall i :: 0 <= i < r ==> phases[i].tempId != tempId
  {
    if phases == [] then -1
    else if phases[0].tempId == tempId then 0
    else
      var k := FindIndex(phases[1..], tempId);
      if k == -1 then -1 else k + 1
  }

  /** One later phase pushed back by `extend` business days: its own start,
      every task start and every material due date move; nothing else does. */
  function Shifted(phase: FormPhase, extend: int, shift: (string, int) -> string): (r: FormPhase)
    ensures r.tempId == phase.tempId && r.title == phase.title
    ensures r.description == phase.description && r.notes == phase.notes
    ensures r.startDate == shift(phase.startDate, extend)
    ensures |r.tasks| == |phase.tasks| && |r.materials| == |phase.materials|
    ensures forall k :: 0 <= k < |r.tasks| ==>
      r.tasks[k] == phase.tasks[k].(startDate := shift(phase.tasks[k].startDate, extend))
    ensures forall k :: 0 <= k < |r.materials| ==>
      r.materials[k] == phase.materials[k].(dueDate := shift(phase.materials[k].dueDate, extend))
  {
    var ts, ms := phase.tasks, phase.materials;
    phase.(startDate := shift(phase.startDate, extend),
           tasks := seq(|ts|, k requires 0 <= k < |ts| => ts[k].(startDate := shift(ts[k].startDate, extend))),
           materials := seq(|ms|, k requires 0 <= k < |ms| => ms[k].(dueDate := shift(ms[k].dueDate, extend))))
  }

  /** The updated phase as stored: its start date recomputed from its items,
      falling back to the start date it came with. */
  function Restarted(updatedPhase: FormPhase): (r: FormPhase)
    ensures r == updatedPhase.(startDate := r.startDate)
    ensures var ds := AllDates(Some(updatedPhase.tasks), Some(updatedPhase.materials));
      && (|ds| > 0 ==> r.startDate == Earliest(ds))
      && (|ds| == 0 ==> r.startDate == updatedPhase.startDate)
  {
    var ds := AllDates(Some(updatedPhase.tasks), Some(updatedPhase.materials));
    var start := CalculatePhaseStartDate(Some(updatedPhase.tasks), Some(updatedPhase.materials),
                                         false, "", updatedPhase.startDate);
    assert |ds| > 0 ==> start == Earliest(ds) by {
      if |ds| > 0 {
        EarliestUnique(ds, start);
      }
    }
    updatedPhase.(startDate := start)
  }

  /** `extend && extendFuturePhases`: a defined, non-zero `extend` and a set flag. */
  predicate Extending(extend: Option<int>, extendFuturePhases: Option<bool>) {
    extend.Some? && extend.value != 0 && extendFuturePhases == Some(true)
  }

  /** The `for` loop of handlePhaseUpdate: every phase from index `from` on is
      shifted in place, the ones before it are left alone. */
  method ShiftFrom(phases: array<FormPhase>, from: int, extend: int, shift: (string, int) -> string)
    requires 0 <= from <= phases.Length
    modifies phases
    ensures forall j :: 0 <= j < from ==> phases[j] == old(phases[j])
    ensures forall j :: from <= j < phases.Length ==> phases[j] == Shifted(old(phases[j]), extend, shift)
  {
    var i := from;
    while i < phases.Length
      invariant from <= i <= phases.Length
      invariant forall j :: 0 <= j < from ==> phases[j] == old(phases[j])
      invariant forall j :: from <= j < i ==> phases[j] == Shifted(old(phases[j]), extend, shift)
      invariant forall j :: i <= j < phases.Length ==> phases[j] == old(phases[j])
    {
      var phase := phases[i];
      phases[i] := Shifted(phase, extend, shift);
      i := i + 1;
    }
  }

  /** The updater handed to `setPhases`. When no phase carries the updated
      phase's `tempId`, `findIndex` gives -1 and the assignment to index -1
      touches no element, so the list keeps its phases and, when extending,
      every phase is shifted. */
  method PhaseUpdate(prevPhases: seq<FormPhase>, updatedPhase: FormPhase, extend: Option<int>,
                     extendFuturePhases: Option<bool>, shift: (string, int) -> string)
    returns (r: seq<FormPhase>)
    ensures var idx := FindIndex(prevPhases, updatedPhase.tempId);
      && |r| == |prevPhases|
      && (forall i :: 0 <= i < |r| && i < idx ==> r[i] == prevPhases[i])
      && (idx >= 0 ==> r[idx] == Restarted(updatedPhase))
      && (forall i :: idx < i < |r| ==>
            r[i] == if Extending(extend, extendFuturePhases) then Shifted(prevPhases[i], extend.value, shift)
                    else prevPhases[i])
    ensures !Extending(extend, extendFuturePhases) ==>
      forall i :: 0 <= i < |r| && prevPhases[i].tempId != updatedPhase.tempId ==> r[i] == prevPhases[i]
  {
    var phaseIndex := FindIndex(prevPhases, updatedPhase.tempId);
    var newPhases := new FormPhase[|prevPhases|](i requires 0 <= i < |prevPhases| => prevPhases[i]);
    var newStartDate := CalculatePhaseStartDate(Some(updatedPhase.tasks), Some(updatedPhase.materials),
                                                false, "", updatedPhase.startDate);
    assert updatedPhase.(startDate := newStartDate) == Restarted(updatedPhase);
    if phaseIndex >= 0 {
      newPhases[phaseIndex] := updatedPhase.(startDate := newStartDate);
    }
    if Extending(extend, extendFuturePhases) {
      ShiftFrom(newPhases, phaseIndex + 1, extend.value, shift);
    }
    r := newPhases[..];
  }
}
