/** The generic list helpers and the date-field guards of handlers/phases.tsx.
    Every helper hands a new value to a React setter; here it returns that
    value instead. */
module PhaseHandlers {
  import opened Common

  /** Any record with an `id` and an `isExpanded` flag; the rest of it is `D`. */
  datatype Item<D> = Item(id: string, isExpanded: bool, data: D)

  // ---------------------------------------------------------------------
  // toggleExpansion, deleteItem, addItem

  /** `items.map(item => item.id === itemId ? {...item, isExpanded: !item.isExpanded} : item)` */
  function ToggleExpansion<D>(items: seq<Item<D>>, itemId: string): (r: seq<Item<D>>)
    ensures |r| == |items|
    ensures forall i :: 0 <= i < |r| ==>
      r[i].id == items[i].id && r[i].data == items[i].data &&
      (r[i].isExpanded != items[i].isExpanded <==> items[i].id == itemId)
  {
    if items == [] then []
    else
      var x := items[0];
      [if x.id == itemId then x.(isExpanded := !x.isExpanded) else x] + ToggleExpansion(items[1..], itemId)
  }

  /** Toggling the same id twice gives the original list back. */
  lemma ToggleTwice<D>(items: seq<Item<D>>, itemId: string)
    ensures ToggleExpansion(ToggleExpansion(items, itemId), itemId) == items
  {
  }

  /** `items.filter(item => item.id !== itemId)` */
  function DeleteItem<D>(items: seq<Item<D>>, itemId: string): (r: seq<Item<D>>)
    ensures |r| <= |items|
    ensures forall i :: 0 <= i < |r| ==> r[i] in items && r[i].id != itemId
    ensures forall i :: 0 <= i < |items| && items[i].id != itemId ==> items[i] in r
  {
    if items == [] then []
    else (if items[0].id == itemId then [] else [items[0]]) + DeleteItem(items[1..], itemId)
  }

  /** Deleting works piecewise, so the survivors keep their relative order. */
  lemma {:induction false} DeleteItemAppend<D>(a: seq<Item<D>>, b: seq<Item<D>>, itemId: string)
    ensures DeleteItem(a + b, itemId) == DeleteItem(a, itemId) + DeleteItem(b, itemId)
    decreases |a|
  {
    if a == [] {
      assert a + b == b;
    } else {
      assert (a + b)[0] == a[0] && (a + b)[1..] == a[1..] + b;
      DeleteItemAppend(a[1..], b, itemId);
    }
  }

  /** An id that no item carries leaves the list as it was. */
  lemma {:induction false} DeleteItemAbsent<D>(items: seq<Item<D>>, itemId: string)
    requires forall i :: 0 <= i < |items| ==> items[i].id != itemId
    ensures DeleteItem(items, itemId) == items
    decreases |items|
  {
    if items != [] {
      DeleteItemAbsent(items[1..], itemId);
      assert items == [items[0]] + items[1..];
    }
  }

  /** `[...items, newItem]` */
  function AddItem<T>(items: seq<T>, newItem: T): (r: seq<T>)
    ensures |r| == |items| + 1 && r[..|items|] == items && r[|items|] == newItem
  {
    items + [newItem]
  }

  /** Adding an item and deleting its id afterwards is deleting that id. */
  lemma AddThenDelete<D>(items: seq<Item<D>>, x: Item<D>)
    ensures DeleteItem(AddItem(items, x), x.id) == DeleteItem(items, x.id)
  {
    DeleteItemAppend(items, [x], x.id);
    assert DeleteItem([x], x.id) == [];
  }

  // ---------------------------------------------------------------------
  // The three date-field guards. The form fields are the values the three
  // setters write; `endOf(start, duration)` stands for
  // `calculateEndDate(start, parseInt(duration))`, with `None` where
  // `toISOString()` throws a RangeError on an invalid date (an empty start,
  // a duration `parseInt` cannot read). The throw comes after the setter for
  // the field being edited has been called, so only the end-date write is
  // skipped. `durationOf(start, end)` stands for
  // `calculateDuration(start, end).toString()`.

  datatype DateFields = DateFields(startDate: string, duration: string, endDate: string)

  /** handleStartDateChange: a start before the job's start (string order) is ignored. */
  function StartDateChange(f: DateFields, newStartDate: string, jobStartDate: string,
                           endOf: (string, string) -> Option<string>): (r: DateFields)
    ensures r.duration == f.duration
    ensures r.startDate == (if StrAtLeast(newStartDate, jobStartDate) then newStartDate else f.startDate)
    ensures !StrAtLeast(newStartDate, jobStartDate) ==> r == f
    ensures r.endDate != f.endDate ==>
              StrAtLeast(newStartDate, jobStartDate) && f.duration != "" && endOf(newStartDate, f.duration).Some?
    ensures StrAtLeast(newStartDate, jobStartDate) && f.duration != "" && endOf(newStartDate, f.duration).Some? ==>
              r.endDate == endOf(newStartDate, f.duration).value
  {
    if StrAtLeast(newStartDate, jobStartDate) then
      f.(startDate := newStartDate,
         endDate := if f.duration != "" then endOf(newStartDate, f.duration).GetOr(f.endDate) else f.endDate)
    else f
  }

  /** handleDurationChange: the duration is always written; the end date follows
      it only when there is a start date and the end date can be computed. */
  function DurationChange(f: DateFields, newDuration: string,
                          endOf: (string, string) -> Option<string>): (r: DateFields)
    ensures r.duration == newDuration && r.startDate == f.startDate
    ensures r.endDate != f.endDate ==> f.startDate != "" && endOf(f.startDate, newDuration).Some?
    ensures f.startDate != "" && endOf(f.startDate, newDuration).Some? ==>
              r.endDate == endOf(f.startDate, newDuration).value
  {
    f.(duration := newDuration,
       endDate := if f.startDate != "" then endOf(f.startDate, newDuration).GetOr(f.endDate) else f.endDate)
  }

  /** handleEndDateChange: the end date is always written; the duration follows
      it only when there is a start date. */
  function EndDateChange(f: DateFields, newEndDate: string,
                         durationOf: (string, string) -> string): (r: DateFields)
    ensures r.endDate == newEndDate && r.startDate == f.startDate
    ensures r.duration != f.duration ==> f.startDate != ""
    ensures f.startDate != "" ==> r.duration == durationOf(r.startDate, r.endDate)
  {
    f.(endDate := newEndDate,
       duration := if f.startDate != "" then durationOf(f.startDate, newEndDate) else f.duration)
  }

  /** The end date agrees with start plus duration whenever both are filled in
      and the end date can be computed from them. */
  predicate EndAgrees(f: DateFields, endOf: (string, string) -> Option<string>) {
    f.startDate != "" && f.duration != "" && endOf(f.startDate, f.duration).Some? ==>
      f.endDate == endOf(f.startDate, f.duration).value
  }

  /** Start and duration changes keep the end date in step with start plus
      duration. */
  lemma StartAndDurationKeepEnd(f: DateFields, newStartDate: string, jobStartDate: string,
                                newDuration: string, endOf: (string, string) -> Option<string>)
    requires EndAgrees(f, endOf)
    ensures EndAgrees(StartDateChange(f, newStartDate, jobStartDate, endOf), endOf)
    ensures EndAgrees(DurationChange(f, newDuration, endOf), endOf)
  {
  }
}
