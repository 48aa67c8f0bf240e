/** The restructuring step of the job-data migration script
    (`transform_job_data`): every job's own `tasks` and `materials` lists are
    popped off the job and dealt round-robin onto the job's phases, then every
    phase is stamped with an empty `note` list.

    Job and phase dictionaries are values here; the keys the script touches
    are fields (a missing key is `None`), all other keys sit untouched in
    `fields`. The two popped Python lists are `PyList` objects, because the
    script's classification test `item in tasks` reads the very list that the
    first pass is popping from. */
module JobTransform {
  import opened Common

  datatype Phase<T> = Phase(
    tasks: Option<seq<T>>,
    materials: Option<seq<T>>,
    note: Option<seq<T>>,
    fields: map<string, T>)

  datatype Job<T> = Job(
    tasks: Option<seq<T>>,
    materials: Option<seq<T>>,
    phases: seq<Phase<T>>,
    fields: map<string, T>)

  /** A Python list that the script pops from in place. */
  class PyList<T> {
    var items: seq<T>

    constructor (xs: seq<T>)
      ensures items == xs
    {
      items := xs;
    }

    /** `list.pop(0)`. */
    method PopFront() returns (x: T)
      requires items != []
      modifies this
      ensures x == old(items)[0] && items == old(items)[1..]
    {
      x := items[0];
      items := items[1..];
    }
  }

  // ---------------------------------------------------------------------
  // Specification of one distribution pass.

  /** Lines 23-30 for one popped item: create the phase's `tasks` and
      `materials` lists when absent, then append the item to one of them. */
  function Place<T>(ph: Phase<T>, item: T, toTasks: bool): Phase<T> {
    var ts := ph.tasks.GetOr([]);
    var ms := ph.materials.GetOr([]);
    if toTasks then ph.(tasks := Some(ts + [item]), materials := Some(ms))
    else ph.(tasks := Some(ts), materials := Some(ms + [item]))
  }

  /** The phase after `p` in the sweep; the `while` restarts the `for` at 0. */
  function NextPhase(p: nat, n: nat): (q: nat)
    requires p < n
    ensures q < n
  {
    if p + 1 == n then 0 else p + 1
  }

  /** Where the script files the k-th popped item: `tags[k]` is the outcome of
      `item in tasks` at the moment that item is popped. */
  function Tags<T(==)>(items: seq<T>, aliased: bool, others: seq<T>): (tags: seq<bool>)
    ensures |tags| == |items|
  {
    seq(|items|, k requires 0 <= k < |items| =>
      if aliased then items[k] in items[k + 1..] else items[k] in others)
  }

  /** Deals `items[k..]` starting at phase `p`, one item per phase. */
  function Deal<T>(phases: seq<Phase<T>>, items: seq<T>, tags: seq<bool>, k: nat, p: nat): (r: seq<Phase<T>>)
    requires |tags| == |items| && k <= |items|
    requires p < |phases| || k == |items|
    ensures |r| == |phases|
    decreases |items| - k
  {
    if k == |items| then phases
    else Deal(phases[p := Place(phases[p], items[k], tags[k])], items, tags, k + 1, NextPhase(p, |phases|))
  }

  /** The `while` loop never ends when there are items but no phases. */
  predicate Terminates<T>(job: Job<T>) {
    |job.phases| > 0 || (job.tasks.GetOr([]) == [] && job.materials.GetOr([]) == [])
  }

  /** Phases after the first pass (over `tasks`, classifying against the
      shrinking `tasks` list itself). */
  function TaskPass<T(==)>(job: Job<T>): seq<Phase<T>>
    requires Terminates(job)
  {
    var ts := job.tasks.GetOr([]);
    Deal(job.phases, ts, Tags(ts, true, ts), 0, 0)
  }

  /** Phases after the second pass (over `materials`; `tasks` is empty by now). */
  function MaterialPass<T(==)>(job: Job<T>): seq<Phase<T>>
    requires Terminates(job)
  {
    var ms := job.materials.GetOr([]);
    Deal(TaskPass(job), ms, Tags(ms, false, []), 0, 0)
  }

  function StampNotes<T>(phases: seq<Phase<T>>): seq<Phase<T>> {
    seq(|phases|, i requires 0 <= i < |phases| => phases[i].(note := Some([])))
  }

  /** One job after `transform_job_data`. */
  function Transformed<T(==)>(job: Job<T>): Job<T>
    requires Terminates(job)
  {
    job.(tasks := None, materials := None, phases := StampNotes(MaterialPass(job)))
  }

  // ---------------------------------------------------------------------
  // The script's loops.

  /** Lines 19-30 for one `item_list`: sweep the phases, popping the list's
      first item onto each phase in turn, until the list is empty. */
  method Distribute<T(==)>(phases: seq<Phase<T>>, itemList: PyList<T>, tasks: PyList<T>) returns (r: seq<Phase<T>>)
    requires |phases| > 0 || itemList.items == []
    modifies itemList
    ensures itemList.items == []
    ensures r == Deal(phases, old(itemList.items), Tags(old(itemList.items), itemList == tasks, old(tasks.items)), 0, 0)
  {
    ghost var items := itemList.items;
    ghost var tags := Tags(items, itemList == tasks, tasks.items);
    ghost var k := 0;
    r := phases;
    while itemList.items != []
      invariant k <= |items| && itemList.items == items[k..]
      invariant itemList != tasks ==> tasks.items == old(tasks.items)
      invariant |r| == |phases|
      invariant |phases| > 0 || k == |items|
      invariant Deal(r, items, tags, k, 0) == Deal(phases, items, tags, 0, 0)
      decreases |itemList.items|
    {
      ghost var k0 := k;
      var p := 0;
      while p < |r|
        invariant 0 <= p <= |r| && k0 < |items|
        invariant k <= |items| && itemList.items == items[k..]
        invariant itemList != tasks ==> tasks.items == old(tasks.items)
        invariant |r| == |phases|
        invariant p == 0 ==> k == k0
        invariant p > 0 ==> k > k0
        invariant Deal(r, items, tags, k, if p == |r| then 0 else p) == Deal(phases, items, tags, 0, 0)
      {
        if itemList.items != [] {
          ghost var before := r;
          var item := itemList.PopFront();
          assert item == items[k];
          assert (item in tasks.items) == tags[k];
          var phase := FileItem(r[p], item, item in tasks.items);
          r := r[p := phase];
          DealStep(before, items, tags, k, p);
          k := k + 1;
        }
        p := p + 1;
      }
    }
  }

  /** Lines 23-30: the phase's two lists are created when missing, then the
      item is appended to the one `toTasks` picks. */
  method FileItem<T>(phase: Phase<T>, item: T, toTasks: bool) returns (r: Phase<T>)
    ensures r == Place(phase, item, toTasks)
  {
    r := phase;
    if r.tasks.None? {
      r := r.(tasks := Some([]));
    }
    if r.materials.None? {
      r := r.(materials := Some([]));
    }
    if toTasks {
      r := r.(tasks := Some(r.tasks.value + [item]));
    } else {
      r := r.(materials := Some(r.materials.value + [item]));
    }
  }

  /** Dealing one item to phase `p` and carrying on from the next phase is
      the same deal. */
  lemma DealStep<T>(phases: seq<Phase<T>>, items: seq<T>, tags: seq<bool>, k: nat, p: nat)
    requires |tags| == |items| && k < |items| && p < |phases|
    ensures Deal(phases, items, tags, k, p)
         == Deal(phases[p := Place(phases[p], items[k], tags[k])], items, tags, k + 1, NextPhase(p, |phases|))
  {
  }

  /** Lines 14-34 for one job. */
  method TransformJob<T(==)>(job: Job<T>) returns (r: Job<T>)
    requires Terminates(job)
    ensures r == Transformed(job)
  {
    var tasks := new PyList(job.tasks.GetOr([]));
    var materials := new PyList(job.materials.GetOr([]));
    var phases := job.phases;
    var itemLists := [tasks, materials];
    for n := 0 to 2
      invariant tasks.items == if n == 0 then job.tasks.GetOr([]) else []
      invariant materials.items == if n <= 1 then job.materials.GetOr([]) else []
      invariant phases == if n == 0 then job.phases else if n == 1 then TaskPass(job) else MaterialPass(job)
    {
      phases := Distribute(phases, itemLists[n], tasks);
    }
    var i := 0;
    while i < |phases|
      invariant i <= |phases| == |MaterialPass(job)|
      invariant forall m :: 0 <= m < i ==> phases[m] == MaterialPass(job)[m].(note := Some([]))
      invariant forall m :: i <= m < |phases| ==> phases[m] == MaterialPass(job)[m]
    {
      phases := phases[i := phases[i].(note := Some([]))];
      i := i + 1;
    }
    r := job.(tasks := None, materials := None, phases := phases);
  }

  /** `transform_job_data(jobs)`: every job of the list, updated in place. */
  method TransformJobs<T(==)>(jobs: array<Job<T>>)
    requires forall j :: 0 <= j < jobs.Length ==> Terminates(jobs[j])
    modifies jobs
    ensures forall j :: 0 <= j < jobs.Length ==> jobs[j] == Transformed(old(jobs[j]))
  {
    for j := 0 to jobs.Length
      invariant forall m :: 0 <= m < j ==> jobs[m] == Transformed(old(jobs[m]))
      invariant forall m :: j <= m < jobs.Length ==> jobs[m] == old(jobs[m])
    {
      var job := TransformJob(jobs[j]);
      jobs[j] := job;
    }
  }

  // ---------------------------------------------------------------------
  // What one phase receives.

  /** The items at positions j, j + n, j + 2n, ... whose tag is `want`, in order. */
  function Picked<T>(items: seq<T>, tags: seq<bool>, j: nat, n: nat, want: bool): seq<T>
    requires n > 0 && |tags| == |items|
    decreases |items| - j
  {
    if j >= |items| then []
    else (if tags[j] == want then [items[j]] else []) + Picked(items, tags, j + n, n, want)
  }

  /** One phase's share of a pass: it is handed positions j, j + n, ... */
  function Receive<T>(ph: Phase<T>, items: seq<T>, tags: seq<bool>, j: nat, n: nat): Phase<T>
    requires n > 0 && |tags| == |items|
    decreases |items| - j
  {
    if j >= |items| then ph
    else Receive(Place(ph, items[j], tags[j]), items, tags, j + n, n)
  }

  /** How many places after `p` the sweep reaches phase `i`. */
  function Offset(p: nat, i: nat, n: nat): nat
    requires p < n && i < n
  {
    if p <= i then i - p else n - p + i
  }

  /** Phase `i` receives exactly the items dealt at the positions the sweep
      reaches it: the first is `Offset(p, i, n)` places on, then every n-th. */
  lemma {:induction false} DealAt<T>(phases: seq<Phase<T>>, items: seq<T>, tags: seq<bool>, k: nat, p: nat, i: nat)
    requires |tags| == |items| && k <= |items| && p < |phases| && i < |phases|
    ensures Deal(phases, items, tags, k, p)[i]
         == Receive(phases[i], items, tags, k + Offset(p, i, |phases|), |phases|)
    decreases |items| - k
  {
    var n := |phases|;
    if k < |items| {
      var next := phases[p := Place(phases[p], items[k], tags[k])];
      DealAt(next, items, tags, k + 1, NextPhase(p, n), i);
    }
  }

  /** Receiving appends: the phase's lists gain the picked items in source
      order, and are created only when at least one item arrives. */
  lemma {:induction false} ReceiveAppends<T>(ph: Phase<T>, items: seq<T>, tags: seq<bool>, j: nat, n: nat)
    requires n > 0 && |tags| == |items|
    ensures Receive(ph, items, tags, j, n)
         == if j < |items| then
              ph.(tasks := Some(ph.tasks.GetOr([]) + Picked(items, tags, j, n, true)),
                  materials := Some(ph.materials.GetOr([]) + Picked(items, tags, j, n, false)))
            else ph
    decreases |items| - j
  {
    if j < |items| {
      var placed := Place(ph, items[j], tags[j]);
      ReceiveAppends(placed, items, tags, j + n, n);
      var ts, ms := ph.tasks.GetOr([]), ph.materials.GetOr([]);
      var pt, pm := Picked(items, tags, j + n, n, true), Picked(items, tags, j + n, n, false);
      if j + n >= |items| {
        assert pt == [] && pm == [];
      }
      var ht: seq<T> := if tags[j] then [items[j]] else [];
      var hm: seq<T> := if tags[j] then [] else [items[j]];
      assert Picked(items, tags, j, n, true) == ht + pt;
      assert Picked(items, tags, j, n, false) == hm + pm;
      assert ts + [] == ts && ms + [] == ms;
      assert placed.tasks == Some(ts + ht) && placed.materials == Some(ms + hm);
      assert ts + ht + pt == ts + (ht + pt);
      assert ms + hm + pm == ms + (hm + pm);
      if j + n >= |items| {
        assert ts + ht + pt == ts + ht && ms + hm + pm == ms + hm;
      }
    }
  }

  /** The whole effect of one pass on phase `i`. */
  lemma DealPhase<T>(phases: seq<Phase<T>>, items: seq<T>, tags: seq<bool>, i: nat)
    requires |tags| == |items| && i < |phases|
    ensures Deal(phases, items, tags, 0, 0)[i]
         == if i < |items| then
              phases[i].(tasks := Some(phases[i].tasks.GetOr([]) + Picked(items, tags, i, |phases|, true)),
                         materials := Some(phases[i].materials.GetOr([]) + Picked(items, tags, i, |phases|, false)))
            else phases[i]
  {
    DealAt(phases, items, tags, 0, 0, i);
    ReceiveAppends(phases[i], items, tags, i, |phases|);
  }

  /** Phase `i` of a migrated job, in full: its other keys are kept, `note` is
      `[]`, and its `tasks`/`materials` lists exist afterwards exactly when they
      existed before or the phase received an item; existing lists are
      extended, never replaced, by the tasks at positions i, i + n, ... and then
      the materials at positions i, i + n, ..., filed by the script's test. */
  lemma TransformedPhase<T>(job: Job<T>, i: nat)
    requires Terminates(job) && i < |job.phases|
    ensures var ts, ms, n := job.tasks.GetOr([]), job.materials.GetOr([]), |job.phases|;
      var before, after := job.phases[i], Transformed(job).phases[i];
      var tt, mt := Tags(ts, true, ts), Tags(ms, false, []);
      && |Transformed(job).phases| == n
      && after.fields == before.fields
      && after.note == Some([])
      && after.tasks == (if i < |ts| || i < |ms|
                         then Some(before.tasks.GetOr([]) + Picked(ts, tt, i, n, true) + Picked(ms, mt, i, n, true))
                         else before.tasks)
      && after.materials == (if i < |ts| || i < |ms|
                             then Some(before.materials.GetOr([]) + Picked(ts, tt, i, n, false) + Picked(ms, mt, i, n, false))
                             else before.materials)
  {
    var ts, ms, n := job.tasks.GetOr([]), job.materials.GetOr([]), |job.phases|;
    var tt, mt := Tags(ts, true, ts), Tags(ms, false, []);
    DealPhase(job.phases, ts, tt, i);
    DealPhase(TaskPass(job), ms, mt, i);
    if i >= |ts| {
      NothingPickedPast(ts, tt, i, n, true);
      NothingPickedPast(ts, tt, i, n, false);
      var b := job.phases[i];
      assert b.tasks.GetOr([]) + [] == b.tasks.GetOr([]);
      assert b.materials.GetOr([]) + [] == b.materials.GetOr([]);
    }
    if i >= |ms| {
      NothingPickedPast(ms, mt, i, n, true);
      NothingPickedPast(ms, mt, i, n, false);
      var b := TaskPass(job)[i];
      assert b.tasks.GetOr([]) + [] == b.tasks.GetOr([]);
      assert b.materials.GetOr([]) + [] == b.materials.GetOr([]);
    }
  }

  lemma NothingPickedPast<T>(items: seq<T>, tags: seq<bool>, j: nat, n: nat, want: bool)
    requires n > 0 && |tags| == |items| && j >= |items|
    ensures Picked(items, tags, j, n, want) == []
  {
  }

  /** The migrated job has lost its `tasks` and `materials` keys and kept
      everything else, including its number of phases. */
  lemma TransformedJobKeys<T>(job: Job<T>)
    requires Terminates(job)
    ensures var r := Transformed(job);
      r.tasks.None? && r.materials.None? && r.fields == job.fields && |r.phases| == |job.phases|
  {
  }

  // ---------------------------------------------------------------------
  // Conservation.

  function Filed<T>(ph: Phase<T>, tasksList: bool): seq<T> {
    if tasksList then ph.tasks.GetOr([]) else ph.materials.GetOr([])
  }

  /** All items filed under the phases' `tasks` (or `materials`) lists. */
  function Pool<T>(phases: seq<Phase<T>>, tasksList: bool): multiset<T> {
    if phases == [] then multiset{}
    else multiset(Filed(phases[0], tasksList)) + Pool(phases[1..], tasksList)
  }

  /** The items of `items[k..]` whose tag is `want`. */
  function Chosen<T>(items: seq<T>, tags: seq<bool>, k: nat, want: bool): multiset<T>
    requires |tags| == |items|
    decreases |items| - k
  {
    if k >= |items| then multiset{}
    else (if tags[k] == want then multiset{items[k]} else multiset{}) + Chosen(items, tags, k + 1, want)
  }

  lemma {:induction false} PoolUpdate<T>(phases: seq<Phase<T>>, p: nat, ph: Phase<T>, extra: seq<T>, tasksList: bool)
    requires p < |phases| && Filed(ph, tasksList) == Filed(phases[p], tasksList) + extra
    ensures Pool(phases[p := ph], tasksList) == Pool(phases, tasksList) + multiset(extra)
    decreases p
  {
    var updated := phases[p := ph];
    if p == 0 {
      assert updated[1..] == phases[1..];
    } else {
      assert updated[1..] == phases[1..][p - 1 := ph];
      PoolUpdate(phases[1..], p - 1, ph, extra, tasksList);
    }
  }

  /** Each dealt item is filed exactly once: the pool of each kind of list
      grows by exactly the items whose tag selects that kind. */
  lemma {:induction false} DealConserves<T>(phases: seq<Phase<T>>, items: seq<T>, tags: seq<bool>, k: nat, p: nat, tasksList: bool)
    requires |tags| == |items| && k <= |items| && (p < |phases| || k == |items|)
    ensures Pool(Deal(phases, items, tags, k, p), tasksList) == Pool(phases, tasksList) + Chosen(items, tags, k, tasksList)
    decreases |items| - k
  {
    if k < |items| {
      var placed := Place(phases[p], items[k], tags[k]);
      var extra := if tags[k] == tasksList then [items[k]] else [];
      FiledPlace(phases[p], items[k], tags[k], tasksList);
      PoolUpdate(phases, p, placed, extra, tasksList);
      DealStep(phases, items, tags, k, p);
      DealConserves(phases[p := placed], items, tags, k + 1, NextPhase(p, |phases|), tasksList);
      assert multiset(extra) + Chosen(items, tags, k + 1, tasksList) == Chosen(items, tags, k, tasksList);
    }
  }

  /** Placing an item grows the list it is filed under by that item and
      leaves the other list's contents as they were. */
  lemma FiledPlace<T>(ph: Phase<T>, item: T, toTasks: bool, tasksList: bool)
    ensures Filed(Place(ph, item, toTasks), tasksList)
         == Filed(ph, tasksList) + (if toTasks == tasksList then [item] else [])
  {
  }

  lemma {:induction false} ChosenSplit<T>(items: seq<T>, tags: seq<bool>, k: nat)
    requires |tags| == |items| && k <= |items|
    ensures Chosen(items, tags, k, true) + Chosen(items, tags, k, false) == multiset(items[k..])
    decreases |items| - k
  {
    if k < |items| {
      ChosenSplit(items, tags, k + 1);
      assert items[k..] == [items[k]] + items[k + 1..];
    }
  }

  /** Conservation for a whole job: the phases' lists together gain exactly the
      job's former `tasks` and `materials`, each item once. */
  lemma TransformConserves<T>(job: Job<T>)
    requires Terminates(job)
    ensures var after := Transformed(job).phases;
      Pool(after, true) + Pool(after, false)
        == Pool(job.phases, true) + Pool(job.phases, false)
         + multiset(job.tasks.GetOr([])) + multiset(job.materials.GetOr([]))
  {
    var ts, ms := job.tasks.GetOr([]), job.materials.GetOr([]);
    var tt, mt := Tags(ts, true, ts), Tags(ms, false, []);
    DealConserves(job.phases, ts, tt, 0, 0, true);
    DealConserves(job.phases, ts, tt, 0, 0, false);
    DealConserves(TaskPass(job), ms, mt, 0, 0, true);
    DealConserves(TaskPass(job), ms, mt, 0, 0, false);
    ChosenSplit(ts, tt, 0);
    ChosenSplit(ms, mt, 0);
    assert ts[0..] == ts && ms[0..] == ms;
    StampKeepsPools(MaterialPass(job));
  }

  lemma {:induction false} StampKeepsPools<T>(phases: seq<Phase<T>>)
    ensures Pool(StampNotes(phases), true) == Pool(phases, true)
    ensures Pool(StampNotes(phases), false) == Pool(phases, false)
  {
    if phases != [] {
      assert StampNotes(phases)[1..] == StampNotes(phases[1..]);
      StampKeepsPools(phases[1..]);
    }
  }

  // ---------------------------------------------------------------------
  // The classification test `item in tasks` (line 27) runs after the item was
  // popped from `tasks`, so a task is filed as a task only when an equal task
  // is still waiting further down the list.

  predicate NoDuplicates<T(==)>(s: seq<T>) {
    forall a, b :: 0 <= a < b < |s| ==> s[a] != s[b]
  }

  /** The items at positions j, j + n, j + 2n, ..., in order. */
  function EveryNth<T>(items: seq<T>, j: nat, n: nat): seq<T>
    requires n > 0
    decreases |items| - j
  {
    if j >= |items| then [] else [items[j]] + EveryNth(items, j + n, n)
  }

  lemma {:induction false} PickedUniform<T>(items: seq<T>, tags: seq<bool>, j: nat, n: nat, b: bool)
    requires n > 0 && |tags| == |items|
    requires forall k :: j <= k < |items| ==> tags[k] == b
    ensures Picked(items, tags, j, n, b) == EveryNth(items, j, n)
    ensures Picked(items, tags, j, n, !b) == []
    decreases |items| - j
  {
    if j < |items| {
      PickedUniform(items, tags, j + n, n, b);
    }
  }

  /** The materials pass never files a material under `tasks`: by then the
      `tasks` list is empty, whatever it held. */
  lemma MaterialsFiledAsMaterials<T>(ms: seq<T>, i: nat, n: nat)
    requires n > 0
    ensures Picked(ms, Tags(ms, false, []), i, n, true) == []
    ensures Picked(ms, Tags(ms, false, []), i, n, false) == EveryNth(ms, i, n)
  {
    PickedUniform(ms, Tags(ms, false, []), i, n, false);
  }

  lemma DistinctTasksTagsFalse<T>(ts: seq<T>)
    requires NoDuplicates(ts)
    ensures forall k :: 0 <= k < |ts| ==> !Tags(ts, true, ts)[k]
  {
  }

  /** As the script is written: with distinct tasks (the normal case), no phase
      `tasks` list ever grows; every task lands in the phase's `materials`,
      ahead of that phase's materials. */
  lemma DistinctTasksFiledAsMaterials<T>(job: Job<T>, i: nat)
    requires Terminates(job) && i < |job.phases|
    requires NoDuplicates(job.tasks.GetOr([]))
    ensures var ts, ms, n := job.tasks.GetOr([]), job.materials.GetOr([]), |job.phases|;
      var before, after := job.phases[i], Transformed(job).phases[i];
      && after.tasks == (if i < |ts| || i < |ms| then Some(before.tasks.GetOr([])) else before.tasks)
      && after.materials == (if i < |ts| || i < |ms|
                             then Some(before.materials.GetOr([]) + EveryNth(ts, i, n) + EveryNth(ms, i, n))
                             else before.materials)
  {
    var ts, ms, n := job.tasks.GetOr([]), job.materials.GetOr([]), |job.phases|;
    TransformedPhase(job, i);
    DistinctTasksTagsFalse(ts);
    PickedUniform(ts, Tags(ts, true, ts), i, n, false);
    PickedUniform(ms, Tags(ms, false, []), i, n, false);
    var before := job.phases[i];
    assert before.tasks.GetOr([]) + [] + [] == before.tasks.GetOr([]);
  }

  /** A one-task job: the task ends up in the phase's `materials`. */
  lemma SingleTaskLandsInMaterials()
    ensures var job := Job(Some(["t1"]), None, [Phase(None, None, None, map[])], map[]);
      && Transformed(job).phases[0].tasks == Some([])
      && Transformed(job).phases[0].materials == Some(["t1"])
  {
    var job := Job(Some(["t1"]), None, [Phase(None, None, None, map[])], map[]);
    DistinctTasksFiledAsMaterials(job, 0);
    assert job.tasks.GetOr([]) == ["t1"] && job.materials.GetOr([]) == [];
    assert EveryNth(["t1"], 0, 1) == ["t1"];
    assert EveryNth<string>([], 0, 1) == [];
    assert job.phases[0].materials.GetOr([]) == [];
    assert [] + ["t1"] + [] == ["t1"];
  }

  // ---------------------------------------------------------------------
  // Filing by origin: what the script evidently means to do.

  function Uniform(len: nat, b: bool): (tags: seq<bool>)
    ensures |tags| == len && forall k :: 0 <= k < len ==> tags[k] == b
  {
    seq(len, _ => b)
  }

  /** Like `Transformed`, but an item goes to the phase list named after the
      job list it was popped from. */
  function TransformedByOrigin<T>(job: Job<T>): (r: Job<T>)
    requires Terminates(job)
    ensures r.tasks.None? && r.materials.None? && r.fields == job.fields && |r.phases| == |job.phases|
  {
    var ts, ms := job.tasks.GetOr([]), job.materials.GetOr([]);
    var afterTasks := Deal(job.phases, ts, Uniform(|ts|, true), 0, 0);
    job.(tasks := None, materials := None,
         phases := StampNotes(Deal(afterTasks, ms, Uniform(|ms|, false), 0, 0)))
  }

  /** Filed by origin, phase `i` gains the tasks at positions i, i + n, ... in
      its `tasks` and the materials at those positions in its `materials`. */
  lemma ByOriginPhase<T>(job: Job<T>, i: nat)
    requires Terminates(job) && i < |job.phases|
    ensures var ts, ms, n := job.tasks.GetOr([]), job.materials.GetOr([]), |job.phases|;
      var before, after := job.phases[i], TransformedByOrigin(job).phases[i];
      && after.fields == before.fields && after.note == Some([])
      && after.tasks == (if i < |ts| || i < |ms| then Some(before.tasks.GetOr([]) + EveryNth(ts, i, n)) else before.tasks)
      && after.materials == (if i < |ts| || i < |ms| then Some(before.materials.GetOr([]) + EveryNth(ms, i, n)) else before.materials)
  {
    var ts, ms, n := job.tasks.GetOr([]), job.materials.GetOr([]), |job.phases|;
    var tt, mt := Uniform(|ts|, true), Uniform(|ms|, false);
    var afterTasks := Deal(job.phases, ts, tt, 0, 0);
    DealPhase(job.phases, ts, tt, i);
    DealPhase(afterTasks, ms, mt, i);
    PickedUniform(ts, tt, i, n, true);
    PickedUniform(ms, mt, i, n, false);
    var b := job.phases[i];
    assert b.tasks.GetOr([]) + [] == b.tasks.GetOr([]);
    assert b.materials.GetOr([]) + [] == b.materials.GetOr([]);
    if i < |ts| {
      var c := afterTasks[i];
      assert c.tasks.GetOr([]) + [] == c.tasks.GetOr([]);
    }
  }

  /** Filed by origin, the phases' `tasks` lists gain exactly the job's tasks
      and their `materials` lists exactly the job's materials. */
  lemma ByOriginConserves<T>(job: Job<T>)
    requires Terminates(job)
    ensures var after := TransformedByOrigin(job).phases;
      && Pool(after, true) == Pool(job.phases, true) + multiset(job.tasks.GetOr([]))
      && Pool(after, false) == Pool(job.phases, false) + multiset(job.materials.GetOr([]))
  {
    var ts, ms := job.tasks.GetOr([]), job.materials.GetOr([]);
    var tt, mt := Uniform(|ts|, true), Uniform(|ms|, false);
    var afterTasks := Deal(job.phases, ts, tt, 0, 0);
    var afterAll := Deal(afterTasks, ms, mt, 0, 0);
    assert TransformedByOrigin(job).phases == StampNotes(afterAll);
    StampKeepsPools(afterAll);
    ChosenUniform(ts, tt, 0, true);
    ChosenUniform(ms, mt, 0, false);
    assert ts[0..] == ts && ms[0..] == ms;
    DealConserves(job.phases, ts, tt, 0, 0, true);
    DealConserves(afterTasks, ms, mt, 0, 0, true);
    assert Pool(afterAll, true) == Pool(job.phases, true) + multiset(ts);
    DealConserves(job.phases, ts, tt, 0, 0, false);
    DealConserves(afterTasks, ms, mt, 0, 0, false);
    assert Pool(afterAll, false) == Pool(job.phases, false) + multiset(ms);
  }

  lemma {:induction false} ChosenUniform<T>(items: seq<T>, tags: seq<bool>, k: nat, b: bool)
    requires |tags| == |items| && k <= |items|
    requires forall m :: k <= m < |items| ==> tags[m] == b
    ensures Chosen(items, tags, k, b) == multiset(items[k..])
    ensures Chosen(items, tags, k, !b) == multiset{}
    decreases |items| - k
  {
    if k < |items| {
      ChosenUniform(items, tags, k + 1, b);
      assert items[k..] == [items[k]] + items[k + 1..];
    }
  }

  /** The worked example of three tasks, one material and two phases. */
  lemma ByOriginExample()
    ensures var p := Phase(None, None, None, map[]);
      var job := Job(Some(["T1", "T2", "T3"]), Some(["M1"]), [p, p], map[]);
      var after := TransformedByOrigin(job).phases;
      && after[0].tasks == Some(["T1", "T3"]) && after[0].materials == Some(["M1"])
      && after[1].tasks == Some(["T2"]) && after[1].materials == Some([])
  {
    var p := Phase(None, None, None, map[]);
    var job := Job(Some(["T1", "T2", "T3"]), Some(["M1"]), [p, p], map[]);
    ByOriginPhase(job, 0);
    ByOriginPhase(job, 1);
    var ts := ["T1", "T2", "T3"];
    assert job.tasks.GetOr([]) == ts && job.materials.GetOr([]) == ["M1"];
    assert p.tasks.GetOr([]) == [] && p.materials.GetOr([]) == [];
    assert EveryNth(ts, 0, 2) == ["T1"] + EveryNth(ts, 2, 2);
    assert EveryNth(ts, 2, 2) == ["T3"] + EveryNth(ts, 4, 2);
    assert EveryNth(ts, 1, 2) == ["T2"] + EveryNth(ts, 3, 2);
    assert EveryNth(["M1"], 0, 2) == ["M1"] + EveryNth(["M1"], 2, 2);
    assert EveryNth(["M1"], 1, 2) == [];
    assert EveryNth(ts, 3, 2) == [] && EveryNth(ts, 4, 2) == [];
    assert p.materials.GetOr([]) + EveryNth(["M1"], 1, 2) == [];
    assert EveryNth(ts, 0, 2) == ["T1", "T3"];
    assert EveryNth(ts, 1, 2) == ["T2"];
    assert EveryNth(["M1"], 0, 2) == ["M1"];
    assert [] + ["T1", "T3"] == ["T1", "T3"] && [] + ["T2"] == ["T2"];
    assert [] + ["M1"] == ["M1"];
  }
}
